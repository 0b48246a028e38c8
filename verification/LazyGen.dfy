/** The opcode handlers of the code generator, and straight-line code as a whole. */
module LazyGen {
  import opened LazyMachine
  import opened LazyStack
  import opened LazyOps
  import opened LazySlots

  /** `pwart_EmitStackValueLoadReg`: the entry ends up in a register; `upstack` entries
      from the top do not count as users (the condition of `select` is already popped). */
  method LoadReg(g: Generator, i: nat, upstack: nat)
    requires g.Valid() && i < |g.stack| && (upstack == 0 || (upstack == 1 && i == |g.stack| - 1))
    modifies g`stack, g`code
    ensures g.Valid() && Moved(g.locals, old(g.stack), g.stack, old(g.code), g.code)
    ensures |g.stack| == |old(g.stack)| && g.stack[i].val.At? && g.stack[i].val.loc.Reg?
      && g.stack[i].ty == old(g.stack[i].ty)
    ensures forall j :: 0 <= j < |g.stack| && j != i ==>
      (g.stack[j] == old(g.stack[j]) || g.stack[j] == old(g.stack[j]).(val := At(Frame(old(g.stack[j]).off))))
    ensures forall j :: 0 <= j < |g.stack| ==>
      g.stack[j].off == old(g.stack[j].off) && g.stack[j].ty == old(g.stack[j].ty)
  {
    hide AllTame, StackOk, Laid, Moved;
    if g.stack[i].val.At? && g.stack[i].val.loc.Reg? {
      MovedNot(g.locals, g.stack, g.code);
      return;
    }
    ghost var s0, c0 := g.stack, g.code;
    var r := g.GetFreeReg(upstack);
    ghost var s1, c1 := g.stack, g.code;
    g.LoadInto(i, r);
    MovedThen(g.locals, s0, s1, g.stack, c0, c1, g.code);
  }

  /** The main loop saves pending flags that the next opcode cannot use. */
  method SettleTop(g: Generator)
    requires g.Valid()
    modifies g`stack, g`code
    ensures g.Valid() && Settled(g.stack) && Moved(g.locals, old(g.stack), g.stack, old(g.code), g.code)
    ensures |g.stack| == |old(g.stack)|
    ensures forall j :: 0 <= j < |g.stack| ==>
      g.stack[j].off == old(g.stack[j].off) && g.stack[j].ty == old(g.stack[j].ty)
  {
    hide AllTame, StackOk, Laid, Moved;
    if |g.stack| > 0 && g.stack[|g.stack| - 1].val.Cmp? {
      LoadReg(g, |g.stack| - 1, 0);
    } else {
      MovedNot(g.locals, g.stack, g.code);
    }
  }

  /** What a handler that needs a settled stack promises. */
  ghost predicate Settles(s: seq<Entry>, t: seq<Entry>) {
    |t| == |s| && forall j :: 0 <= j < |t| ==> t[j].off == s[j].off && t[j].ty == s[j].ty
  }

  lemma TypedKept(i: Instr, s: seq<Entry>, t: seq<Entry>, locals: seq<Place>)
    requires Settles(s, t) && Typed(i, s, locals)
    ensures Typed(i, t, locals)
  {
  }

  // -------------------------------------------------------------- the handlers

  method GenConst(g: Generator, ty: Ty, v: int)
    requires g.Valid() && Settled(g.stack)
    modifies g`stack, g`code
    ensures g.Valid() && Settled(g.stack) && Emitted(g.locals, old(g.stack), g.stack, old(g.code), g.code, Const(ty, v))
    ensures Types(g.stack) == After(Const(ty, v), Types(old(g.stack)), g.locals)
    ensures Laid(old(g.stack), g.stack, g.first)
  {
    hide AllTame, StackOk, Laid, Refines;
    ghost var s := g.stack;
    var e := Entry(At(Imm(v)), ty, NextSlot(g.stack, ty, g.first));
    ConstRefines(g.locals, s, ty, v, e.off);
    EmittedOf(g.locals, s, s + [e], g.code, [], Const(ty, v));
    assert g.code + [] == g.code;
    SettledAll(s, g.locals, g.first);
    SlotAligned(s, g.locals, ty, g.first);
    PushOk(s, g.locals, g.first, e);
    TypesPush(s, e);
    Appended(s, g.locals, g.first, e);
    g.stack := g.stack + [e];
  }

  lemma Appended(s: seq<Entry>, locals: seq<Place>, first: int, e: Entry)
    requires StackOk(s, locals, first) && e.off == NextSlot(s, e.ty, first)
    ensures Laid(s, s + [e], first)
  {
    assert s[..|s|] == s;
    LaidPush(s, |s|, e, first);
  }

  lemma SlotAligned(s: seq<Entry>, locals: seq<Place>, ty: Ty, first: int)
    requires StackOk(s, locals, first)
    ensures NextSlot(s, ty, first) % 4 == 0
  {
    NextSlotFits(s, ty, first);
  }

  /** `opgen_GenLocalGet`: the new entry stands for the local itself. */
  method GenLocalGet(g: Generator, x: nat)
    requires g.Valid() && Settled(g.stack) && Typed(LocalGet(x), g.stack, g.locals)
    modifies g`stack, g`code
    ensures g.Valid() && Emitted(g.locals, old(g.stack), g.stack, old(g.code), g.code, LocalGet(x))
    ensures Types(g.stack) == After(LocalGet(x), Types(old(g.stack)), g.locals)
    ensures Laid(old(g.stack), g.stack, g.first)
  {
    hide AllTame, StackOk, Laid, Refines;
    ghost var s := g.stack;
    var l := g.locals[x];
    var e := Entry(At(l.loc), l.ty, NextSlot(g.stack, l.ty, g.first));
    GetRefines(g.locals, s, x, e.off);
    EmittedOf(g.locals, s, s + [e], g.code, [], LocalGet(x));
    assert g.code + [] == g.code;
    SettledAll(s, g.locals, g.first);
    NotScratch(s, g.locals, g.first, x);
    SlotAligned(s, g.locals, l.ty, g.first);
    PushOk(s, g.locals, g.first, e);
    TypesPush(s, e);
    Appended(s, g.locals, g.first, e);
    g.stack := g.stack + [e];
  }

  lemma NotScratch(s: seq<Entry>, locals: seq<Place>, first: int, x: nat)
    requires StackOk(s, locals, first) && x < |locals|
    ensures !IsScratch(locals[x].loc) && !locals[x].loc.Imm?
  {
    assert LocalOk(locals[x], first);
  }

  /** The loop of `local.set` and `local.tee`: entries below the top that still stand
      for the local get a copy of its old value. */
  method SaveAliases(g: Generator, loc: Loc)
    requires g.Valid() && Settled(g.stack)
    modifies g`stack, g`code
    ensures g.Valid() && Settles(old(g.stack), g.stack) && Settled(g.stack)
    ensures Moved(g.locals, old(g.stack), g.stack, old(g.code), g.code)
    ensures (exists x :: 0 <= x < |g.locals| && g.locals[x].loc == loc) ==> NoAlias(g.stack, loc)
  {
    hide AllTame, StackOk, Laid, Moved;
    ghost var s0, c0 := g.stack, g.code;
    MovedNot(g.locals, s0, c0);
    var i := 0;
    while i < |g.stack| - 1
      invariant 0 <= i && (g.stack != [] ==> i <= |g.stack| - 1) && g.Valid()
      invariant Settles(s0, g.stack) && Settled(g.stack) && Moved(g.locals, s0, g.stack, c0, g.code)
      invariant (exists x :: 0 <= x < |g.locals| && g.locals[x].loc == loc) ==> forall j ::
        0 <= j < i && j < |g.stack| ==> g.stack[j].val != At(loc)
      modifies g`stack, g`code
    {
      ghost var s1, c1 := g.stack, g.code;
      if g.stack[i].val == At(loc) {
        g.SaveStack(i);
        MovedThen(g.locals, s0, s1, g.stack, c0, c1, g.code);
        SlotNotLocal(g.stack, g.locals, g.first, i, loc);
      }
      i := i + 1;
    }
  }

  lemma SlotNotLocal(s: seq<Entry>, locals: seq<Place>, first: int, i: nat, loc: Loc)
    requires StackOk(s, locals, first) && i < |s|
    ensures (exists x :: 0 <= x < |locals| && locals[x].loc == loc) ==> Frame(s[i].off) != loc
  {
    if exists x :: 0 <= x < |locals| && locals[x].loc == loc {
      var x :| 0 <= x < |locals| && locals[x].loc == loc;
      assert LocalOk(locals[x], first);
    }
  }

  /** `opgen_GenLocalSet` and `opgen_GenLocalTee`. */
  method GenLocalStore(g: Generator, x: nat, tee: bool)
    requires g.Valid() && Settled(g.stack)
    requires Typed(if tee then LocalTee(x) else LocalSet(x), g.stack, g.locals)
    modifies g`stack, g`code
    ensures g.Valid() && Emitted(g.locals, old(g.stack), g.stack, old(g.code), g.code,
                                 if tee then LocalTee(x) else LocalSet(x))
    ensures Types(g.stack) == After(if tee then LocalTee(x) else LocalSet(x), Types(old(g.stack)), g.locals)
    ensures Laid(old(g.stack), g.stack, g.first)
  {
    hide AllTame, StackOk, Laid, Refines, Moved, Emitted, NoAlias;
    ghost var s0, c0, i := g.stack, g.code, if tee then LocalTee(x) else LocalSet(x);
    SaveAliases(g, g.locals[x].loc);
    ghost var s1, c1 := g.stack, g.code;
    TypedKept(i, s0, s1, g.locals);
    TypesKept(s0, s1);
    StoreRefines(g.locals, s1, g.first, x, tee);
    EmittedOf(g.locals, s1, if tee then s1 else s1[..|s1| - 1], c1, Store(s1, g.locals[x]), i);
    PrefixOk(s1, g.locals, g.first, |s1| - 1);
    StoreTame(s1, g.locals, g.first, x, g.code);
    LaidSame(s0, s1, g.first);
    LaidSame(s0, s1[..|s1| - 1], g.first);
    g.code := g.code + Store(g.stack, g.locals[x]);
    if !tee {
      g.stack := g.stack[..|g.stack| - 1];
    }
    AfterMoves(g.locals, s0, s1, g.stack, c0, c1, g.code, i);
  }

  lemma StoreTame(s: seq<Entry>, locals: seq<Place>, first: int, x: nat, c: seq<Emit>)
    requires s != [] && x < |locals| && s[|s| - 1].ty == locals[x].ty && s[|s| - 1].val.At? && AllTame(c, locals, first)
    ensures AllTame(c + Store(s, locals[x]), locals, first)
  {
    hide AllTame;
    if Store(s, locals[x]) == [] {
      assert c + [] == c;
    } else {
      assert locals[x] == Place(locals[x].loc, s[|s| - 1].ty);
      TameMore(c, Transfer(s[|s| - 1], locals[x].loc), locals, first);
    }
  }

  /** Arithmetic: a register free below the operands receives the result. */
  method GenBinary(g: Generator, op: Arith, ty: Ty)
    requires g.Valid() && Settled(g.stack) && Typed(Binary(op, ty), g.stack, g.locals)
    modifies g`stack, g`code
    ensures g.Valid() && Emitted(g.locals, old(g.stack), g.stack, old(g.code), g.code, Binary(op, ty))
    ensures Types(g.stack) == After(Binary(op, ty), Types(old(g.stack)), g.locals)
    ensures Laid(old(g.stack), g.stack, g.first)
  {
    hide AllTame, StackOk, Laid, Refines, Moved, Emitted;
    ghost var s0, c0 := g.stack, g.code;
    var r := g.GetFreeReg(2);
    ghost var s1, c1 := g.stack, g.code;
    var n := |g.stack|;
    TypedKept(Binary(op, ty), s0, s1, g.locals);
    LaidSame(s0, s1, g.first);
    TypesKept(s0, s1);
    var e := Entry(At(Reg(r)), ty, NextSlot(g.stack[..n - 2], ty, g.first));
    UnusedBelow(s1, n - 2, r);
    BinaryRefines(g.locals, s1, g.first, op, ty, r, e.off);
    var es := [Op2(op, ty, Reg(r), g.stack[n - 2].val.loc, g.stack[n - 1].val.loc)];
    EmittedOf(g.locals, s1, s1[..n - 2] + [e], c1, es, Binary(op, ty));
    PushBelow(s1, g.locals, g.first, n - 2, e);
    TypesPush(s1[..n - 2], e);
    TypesPrefix(s1, n - 2);
    TameMore(g.code, es[0], g.locals, g.first);
    g.code := g.code + es;
    g.stack := g.stack[..n - 2] + [e];
    LaidThen(s0, s1, g.stack, g.first);
    AfterMoves(g.locals, s0, s1, g.stack, c0, c1, g.code, Binary(op, ty));
  }

  lemma UnusedBelow(s: seq<Entry>, k: nat, r: nat)
    requires k <= |s| && forall j :: 0 <= j < k ==> !Uses(s[j], r)
    ensures Unused(s[..k], -1, r)
  {
    assert forall j :: 0 <= j < k ==> s[..k][j] == s[j];
  }

  lemma SlotsOf(s: seq<Entry>, locals: seq<Place>, first: int)
    requires StackOk(s, locals, first)
    ensures Slots(s, first)
  {
  }

  /** Popping down to `k` entries and pushing a result. */
  lemma PushBelow(s: seq<Entry>, locals: seq<Place>, first: int, k: nat, e: Entry)
    requires StackOk(s, locals, first) && Settled(s) && k <= |s|
    requires e.off == NextSlot(s[..k], e.ty, first)
    requires (e.val.At? && IsScratch(e.val.loc) && Unused(s[..k], -1, e.val.loc.r))
      || (e.val.Cmp? && e.ty.I32? && e.val.code < 10)
    ensures StackOk(s[..k] + [e], locals, first) && Laid(s, s[..k] + [e], first)
  {
    hide AllTame, StackOk, Unused, Laid;
    SettledAll(s, locals, first);
    PrefixOk(s, locals, first, k);
    SlotAligned(s[..k], locals, e.ty, first);
    PushOk(s[..k], locals, first, e);
    SlotsOf(s, locals, first);
    LaidPush(s, k, e, first);
  }

  method GenRelation(g: Generator, code: nat, ty: Ty)
    requires g.Valid() && Settled(g.stack) && Typed(Relation(code, ty), g.stack, g.locals)
    modifies g`stack, g`code
    ensures g.Valid() && Emitted(g.locals, old(g.stack), g.stack, old(g.code), g.code, Relation(code, ty))
    ensures Types(g.stack) == After(Relation(code, ty), Types(old(g.stack)), g.locals)
    ensures Laid(old(g.stack), g.stack, g.first)
  {
    hide AllTame, StackOk, Laid, Refines, Emitted;
    ghost var s, c := g.stack, g.code;
    var n := |g.stack|;
    var e := Entry(Cmp(code), I32, NextSlot(g.stack[..n - 2], I32, g.first));
    RelationRefines(g.locals, s, g.first, code, ty, e.off);
    var es := [Compare(ty, g.stack[n - 2].val.loc, g.stack[n - 1].val.loc)];
    EmittedOf(g.locals, s, s[..n - 2] + [e], c, es, Relation(code, ty));
    PushBelow(s, g.locals, g.first, n - 2, e);
    TypesPush(s[..n - 2], e);
    TypesPrefix(s, n - 2);
    TameMore(g.code, es[0], g.locals, g.first);
    g.code := g.code + es;
    g.stack := g.stack[..n - 2] + [e];
  }

  /** `eqz`: a pending comparison is inverted, anything else is compared with zero. */
  method GenEqz(g: Generator, ty: Ty)
    requires g.Valid() && Typed(Eqz(ty), g.stack, g.locals)
    modifies g`stack, g`code
    ensures g.Valid() && Emitted(g.locals, old(g.stack), g.stack, old(g.code), g.code, Eqz(ty))
    ensures Types(g.stack) == After(Eqz(ty), Types(old(g.stack)), g.locals)
    ensures Laid(old(g.stack), g.stack, g.first)
  {
    hide AllTame, StackOk, Laid, Refines, Emitted;
    ghost var s, c := g.stack, g.code;
    var n := |g.stack|;
    var top := g.stack[n - 1];
    if top.val.Cmp? {
      FlipRefines(g.locals, s, g.first);
      FlippedOk(s, g.locals, g.first);
      ghost var t := s[n - 1 := top.(val := Cmp(Flip(top.val.code)))];
      EmittedOf(g.locals, s, t, c, [], Eqz(I32));
      assert c + [] == c;
      TypesFlipped(s, t);
      LaidSame(s, t, g.first);
      g.stack := g.stack[n - 1 := top.(val := Cmp(Flip(top.val.code)))];
    } else {
      var e := Entry(Cmp(0), I32, NextSlot(g.stack[..n - 1], I32, g.first));
      EqzRefines(g.locals, s, g.first, ty, e.off);
      EmittedOf(g.locals, s, s[..n - 1] + [e], c, [Compare(ty, top.val.loc, Imm(0))], Eqz(ty));
      PushBelow(s, g.locals, g.first, n - 1, e);
      TypesPush(s[..n - 1], e);
      TypesPrefix(s, n - 1);
      TameMore(g.code, Compare(ty, top.val.loc, Imm(0)), g.locals, g.first);
      g.code := g.code + [Compare(ty, top.val.loc, Imm(0))];
      g.stack := g.stack[..n - 1] + [e];
    }
  }

  lemma TypesFlipped(s: seq<Entry>, t: seq<Entry>)
    requires s != [] && |t| == |s| && (forall j :: 0 <= j < |t| ==> t[j].ty == s[j].ty) && s[|s| - 1].ty.I32?
    ensures Types(t) == Types(s)[..|s| - 1] + [I32]
  {
  }

  method GenDrop(g: Generator)
    requires g.Valid() && Settled(g.stack) && g.stack != []
    modifies g`stack, g`code
    ensures g.Valid() && Emitted(g.locals, old(g.stack), g.stack, old(g.code), g.code, Drop)
    ensures Types(g.stack) == After(Drop, Types(old(g.stack)), g.locals)
    ensures Laid(old(g.stack), g.stack, g.first)
  {
    hide AllTame, StackOk, Laid, Refines, Emitted;
    ghost var s := g.stack;
    DropRefines(g.locals, s);
    EmittedOf(g.locals, s, s[..|s| - 1], g.code, [], Drop);
    assert g.code + [] == g.code;
    PrefixOk(s, g.locals, g.first, |s| - 1);
    TypesPrefix(s, |s| - 1);
    LaidPop(s, |s| - 1, g.first);
    g.stack := g.stack[..|g.stack| - 1];
  }

  /** `opgen_GenSelect`: the first value goes to its slot, and the second one is moved
      over it unless the condition holds. */
  method GenSelect(g: Generator)
    requires g.Valid() && Typed(Select, g.stack, g.locals)
    modifies g`stack, g`code
    ensures g.Valid() && Emitted(g.locals, old(g.stack), g.stack, old(g.code), g.code, Select)
    ensures Types(g.stack) == After(Select, Types(old(g.stack)), g.locals)
    ensures Laid(old(g.stack), g.stack, g.first)
  {
    hide AllTame, StackOk, Laid, Refines, Emitted, Moved;
    ghost var s0, c0 := g.stack, g.code;
    var n := |g.stack|;
    g.SaveStack(n - 3);
    ghost var s1, c1 := g.stack, g.code;
    var test;
    if g.stack[n - 1].val.Cmp? {
      test := OnFlag(g.stack[n - 1].val.code);
      MovedNot(g.locals, s1, c1);
    } else {
      LoadReg(g, n - 1, 1);
      test := NonZero(g.stack[n - 1].val.loc.r);
    }
    ghost var s2, c2 := g.stack, g.code;
    MovedThen(g.locals, s0, s1, s2, c0, c1, c2);
    TypedKept(Select, s0, s2, g.locals);
    TypesKept(s0, s2);
    SelectRefines(g.locals, s2, g.first, test);
    var first, second := g.stack[n - 3], g.stack[n - 2];
    var es := [Unless(test, first.ty, Frame(first.off), second.val.loc)];
    EmittedOf(g.locals, s2, s2[..n - 2], c2, es, Select);
    PrefixOk(s2, g.locals, g.first, n - 2);
    TypesPrefix(s2, n - 2);
    LaidSame(s0, s2[..n - 2], g.first);
    SelectTame(s2, g.locals, g.first, n - 3, es[0]);
    TameMore(g.code, es[0], g.locals, g.first);
    g.code := g.code + es;
    g.stack := g.stack[..n - 2];
    AfterMoves(g.locals, s0, s2, g.stack, c0, c2, g.code, Select);
  }

  lemma SelectTame(s: seq<Entry>, locals: seq<Place>, first: int, i: nat, e: Emit)
    requires StackOk(s, locals, first) && i < |s| && e.Unless? && e.dst == Frame(s[i].off)
    ensures Tame(e, locals, first)
  {
  }

  // ------------------------------------------------------------------- division

  /** One operand of a division goes to its fixed register; whatever else is there is
      saved first.  The record of the operand itself is not touched. */
  method BringTo(g: Generator, j: nat, r: nat)
    requires g.Valid() && Settled(g.stack) && j < |g.stack| && r < SCRATCH
    modifies g`stack, g`code
    ensures g.Valid() && Settled(g.stack) && Settles(old(g.stack), g.stack) && Unused(g.stack, j, r)
    ensures forall i :: 0 <= i < |g.stack| ==>
      (g.stack[i] == old(g.stack[i]) || g.stack[i].val == At(Frame(g.stack[i].off)))
    ensures |old(g.code)| <= |g.code| && g.code[..|old(g.code)|] == old(g.code)
    ensures Brings(g.locals, old(g.stack), g.stack, g.code[|old(g.code)|..], j, r)
    ensures forall q :: q != r ==> Spares(g.code[|old(g.code)|..], q)
  {
    hide AllTame, StackOk, Laid, Brings, Keeps, Unused, Spares;
    ghost var s0, c0 := g.stack, g.code;
    var i := g.FindUser(r, 0);
    if i == j {
      HeldBrings(g.locals, s0, j, r);
      OneUser(s0, g.locals, g.first, j, r);
      assert c0[|c0|..] == [];
      return;
    }
    MovedNot(g.locals, s0, c0);
    if i >= 0 {
      OneUser(s0, g.locals, g.first, i, r);
      g.SaveStack(i);
    } else {
      NoUser(s0, r);
    }
    ghost var s1, c1 := g.stack, g.code;
    ghost var es := c1[|c0|..];
    MovedKeeps(g.locals, s0, s1, c0, c1);
    CopyBrings(g.locals, s1, g.first, j, r);
    ghost var fs := [Transfer(s1[j], Reg(r))];
    BringsAfter(g.locals, s0, s1, s1, es, fs, j, r);
    TameMore(g.code, Transfer(g.stack[j], Reg(r)), g.locals, g.first);
    g.code := g.code + [Transfer(g.stack[j], Reg(r))];
    assert g.code[|c0|..] == es + fs;
    forall q | q != r
      ensures Spares(es + fs, q)
    {
      SparesOne(s1[j], Reg(r), q);
      if i >= 0 && c1 != c0 {
        SparesOne(s0[i], Frame(s0[i].off), q);
        assert es == [Transfer(s0[i], Frame(s0[i].off))];
      } else {
        SparesNothing(q);
        assert es == [];
      }
      SparesThen(es, fs, q);
    }
    UnusedLess(s1, j, r);
  }

  lemma MovedKeeps(locals: seq<Place>, s: seq<Entry>, t: seq<Entry>, c0: seq<Emit>, c1: seq<Emit>)
    requires Moved(locals, s, t, c0, c1)
    ensures |c0| <= |c1| && c1[..|c0|] == c0 && Keeps(locals, s, t, c1[|c0|..])
  {
  }

  lemma SparesNothing(r: nat)
    ensures Spares([], r)
  {
  }

  lemma NoUser(s: seq<Entry>, r: nat)
    requires forall j :: 0 <= j < |s| ==> !Uses(s[j], r)
    ensures Unused(s, -1, r)
  {
  }

  lemma UnusedLess(s: seq<Entry>, j: nat, r: nat)
    requires Unused(s, -1, r)
    ensures Unused(s, j, r)
  {
  }

  /** The operands go to R0 and R1. */
  method BringOperands(g: Generator)
    returns (ghost s1: seq<Entry>, ghost es: seq<Emit>, ghost fs: seq<Emit>)
    requires g.Valid() && Settled(g.stack) && |g.stack| >= 2
    modifies g`stack, g`code
    ensures g.Valid() && Settled(g.stack) && Settles(old(g.stack), g.stack) && Settles(old(g.stack), s1)
    ensures g.code == old(g.code) + (es + fs)
    ensures var n := |g.stack|;
      && Brings(g.locals, old(g.stack), s1, es, n - 2, 0) && Brings(g.locals, s1, g.stack, fs, n - 1, 1)
      && Spares(fs, 0) && Unused(g.stack, n - 2, 0) && Unused(g.stack, n - 1, 1)
  {
    hide AllTame, StackOk, Laid, Brings, Unused, Spares;
    ghost var c0 := g.code;
    var n := |g.stack|;
    BringTo(g, n - 2, 0);
    ghost var c1 := g.code;
    s1, es := g.stack, c1[|c0|..];
    BringTo(g, n - 1, 1);
    fs := g.code[|c1|..];
    StillUnused(s1, g.stack, n - 2, 0);
  }

  /** `div` and `rem`: operands to R0 and R1, result in R0 or R1. */
  method GenDivide(g: Generator, div: Division, ty: Ty)
    requires g.Valid() && Settled(g.stack) && Typed(Divide(div, ty), g.stack, g.locals)
    modifies g`stack, g`code
    ensures g.Valid() && Emitted(g.locals, old(g.stack), g.stack, old(g.code), g.code, Divide(div, ty))
    ensures Types(g.stack) == After(Divide(div, ty), Types(old(g.stack)), g.locals)
    ensures Laid(old(g.stack), g.stack, g.first)
  {
    hide AllTame, StackOk, Laid, Refines, Emitted, Moved, Brings, Unused, Spares;
    ghost var s, c, i := g.stack, g.code, Divide(div, ty);
    var a := g.GetFreeReg(2);
    ghost var s0, c0 := g.stack, g.code;
    var n := |g.stack|;
    TypedKept(i, s, s0, g.locals);
    ghost var s1, es, fs := BringOperands(g);
    ghost var s2 := g.stack;
    TypedKept(i, s0, s2, g.locals);
    TypesKept(s, s2);
    var rem := div.RemS? || div.RemU?;
    a := if rem then 1 else 0;
    var e := Entry(At(Reg(a)), ty, NextSlot(g.stack[..n - 2], ty, g.first));
    var d := DivMod(div.DivS? || div.RemS?, ty, rem);
    DivideRefines(g.locals, s0, s1, s2, g.first, es, fs, div, ty, e.off);
    UnusedPrefix(s2, n - 2, n - 2, 0);
    UnusedPrefix(s2, n - 2, n - 1, 1);
    PushBelow(s2, g.locals, g.first, n - 2, e);
    TypesPush(s2[..n - 2], e);
    TypesPrefix(s2, n - 2);
    LaidSame(s, s2, g.first);
    LaidThen(s, s2, s2[..n - 2] + [e], g.first);
    TameMore(g.code, d, g.locals, g.first);
    g.code := g.code + [d];
    g.stack := g.stack[..n - 2] + [e];
    assert g.code == c0 + (es + fs + [d]);
    EmittedOf(g.locals, s0, g.stack, c0, es + fs + [d], i);
    AfterMoves(g.locals, s, s0, g.stack, c, c0, g.code, i);
  }

  lemma StillUnused(s: seq<Entry>, t: seq<Entry>, j: nat, r: nat)
    requires Unused(s, j, r) && |t| == |s| && forall i :: 0 <= i < |t| ==>
      (t[i] == s[i] || t[i].val == At(Frame(t[i].off)))
    ensures Unused(t, j, r)
  {
    forall i | 0 <= i < |t| && i != j
      ensures !Uses(t[i], r)
    {
      assert !Uses(s[i], r);
    }
  }

  // ---------------------------------------------------------- whole instructions

  /** One turn of the main loop. */
  method Gen(g: Generator, i: Instr)
    requires g.Valid() && Typed(i, g.stack, g.locals)
    modifies g`stack, g`code
    ensures g.Valid() && Emitted(g.locals, old(g.stack), g.stack, old(g.code), g.code, i)
    ensures Types(g.stack) == After(i, Types(old(g.stack)), g.locals)
    ensures Laid(old(g.stack), g.stack, g.first)
  {
    hide AllTame, StackOk, Laid, Emitted, Moved;
    if i.Select? {
      GenSelect(g);
      return;
    }
    if i.Eqz? && (i.ty.I32? || Settled(g.stack)) {
      GenEqz(g, i.ty);
      return;
    }
    ghost var s0, c0 := g.stack, g.code;
    SettleTop(g);
    ghost var s1, c1 := g.stack, g.code;
    TypedKept(i, s0, s1, g.locals);
    TypesKept(s0, s1);
    match i {
      case Const(ty, v) => GenConst(g, ty, v);
      case LocalGet(x) => GenLocalGet(g, x);
      case LocalSet(x) => GenLocalStore(g, x, false);
      case LocalTee(x) => GenLocalStore(g, x, true);
      case Binary(op, ty) => GenBinary(g, op, ty);
      case Divide(div, ty) => GenDivide(g, div, ty);
      case Relation(code, ty) => GenRelation(g, code, ty);
      case Eqz(ty) => GenEqz(g, ty);
      case Drop => GenDrop(g);
      case Select =>
    }
    AfterMoves(g.locals, s0, s1, g.stack, c0, c1, g.code, i);
    LaidSame(s0, s1, g.first);
    LaidThen(s0, s1, g.stack, g.first);
  }

  // ------------------------------------------------------------ straight-line code

  predicate WellTyped(prog: seq<Instr>, tys: seq<Ty>, locals: seq<Place>)
    decreases |prog|
  {
    prog == [] || (TypedAs(prog[0], tys, locals) && WellTyped(prog[1..], After(prog[0], tys, locals), locals))
  }

  /** The operand types after a sequence of instructions. */
  function AfterAll(prog: seq<Instr>, tys: seq<Ty>, locals: seq<Place>): seq<Ty>
    decreases |prog|
  {
    if prog == [] then tys else AfterAll(prog[1..], After(prog[0], tys, locals), locals)
  }

  /** Any stack with these types. */
  function Blank(tys: seq<Ty>): (r: seq<Entry>)
    ensures |r| == |tys| && forall k :: 0 <= k < |tys| ==> r[k].ty == tys[k]
  {
    seq(|tys|, k requires 0 <= k < |tys| => Entry(At(Imm(0)), tys[k], 0))
  }

  predicate TypedAs(i: Instr, tys: seq<Ty>, locals: seq<Place>) {
    Typed(i, Blank(tys), locals)
  }

  lemma TypedAgree(i: Instr, s: seq<Entry>, locals: seq<Place>)
    ensures TypedAs(i, Types(s), locals) <==> Typed(i, s, locals)
  {
    hide Blank;
  }

  /** The instructions run to the end, without a trap. */
  predicate Completes(prog: seq<Instr>, w: Wasm)
    decreases |prog|
  {
    prog == [] || (Ready(prog[0], w) && !Traps(prog[0], w) && Completes(prog[1..], Exec(prog[0], w)))
  }

  predicate Ready(i: Instr, w: Wasm) {
    Arity(i) <= |w.stack| && (i.LocalGet? || i.LocalSet? || i.LocalTee? ==> i.x < |w.locals|)
  }

  function ExecAll(prog: seq<Instr>, w: Wasm): Wasm
    decreases |prog|
  {
    if prog == [] || !Ready(prog[0], w) then w else ExecAll(prog[1..], Exec(prog[0], w))
  }

  /** For every machine state that agrees with a state of the program, running the
      emitted code agrees with the state after the instructions. */
  ghost predicate Simulates(locals: seq<Place>, s: seq<Entry>, t: seq<Entry>, c0: seq<Emit>, c1: seq<Emit>,
                            prog: seq<Instr>) {
    |c0| <= |c1| && c1[..|c0|] == c0 &&
    forall m, w :: Rel(s, locals, m, w) && Completes(prog, w) ==> Rel(t, locals, Run(c1[|c0|..], m), ExecAll(prog, w))
  }

  lemma SimulatesNothing(locals: seq<Place>, s: seq<Entry>, c: seq<Emit>)
    ensures Simulates(locals, s, s, c, c, [])
  {
    assert c[|c|..] == [];
  }

  lemma {:induction false} CompletesLast(prog: seq<Instr>, i: Instr, w: Wasm)
    requires Completes(prog + [i], w)
    ensures Completes(prog, w) && var w1 := ExecAll(prog, w);
      Ready(i, w1) && !Traps(i, w1) && ExecAll(prog + [i], w) == Exec(i, w1)
    decreases |prog|
  {
    hide Exec, Traps;
    if prog == [] {
      assert [] + [i] == [i] && [i][1..] == [];
    } else {
      assert (prog + [i])[0] == prog[0] && (prog + [i])[1..] == prog[1..] + [i];
      CompletesLast(prog[1..], i, Exec(prog[0], w));
    }
  }

  lemma SimulatesNext(locals: seq<Place>, s: seq<Entry>, t: seq<Entry>, u: seq<Entry>, c0: seq<Emit>, c1: seq<Emit>,
                      c2: seq<Emit>,
                      prog: seq<Instr>, i: Instr)
    requires Simulates(locals, s, t, c0, c1, prog) && Emitted(locals, t, u, c1, c2, i)
    ensures Simulates(locals, s, u, c0, c2, prog + [i])
  {
    hide Rel, Run, Exec, Traps, Completes, ExecAll, Typed, Ready;
    var es, fs := c1[|c0|..], c2[|c1|..];
    assert c2[|c0|..] == es + fs;
    forall m, w | Rel(s, locals, m, w) && Completes(prog + [i], w)
      ensures Rel(u, locals, Run(es + fs, m), ExecAll(prog + [i], w))
    {
      CompletesLast(prog, i, w);
      RunConcat(es, fs, m);
    }
  }

  /** `pwart_GenCode` on straight-line code: every live entry and every local has, in
      the machine that ran the code, the value that WebAssembly gives it. */
  method GenCode(g: Generator, prog: seq<Instr>)
    requires g.Valid() && WellTyped(prog, Types(g.stack), g.locals)
    modifies g`stack, g`code
    ensures g.Valid() && Simulates(g.locals, old(g.stack), g.stack, old(g.code), g.code, prog)
    ensures Types(g.stack) == AfterAll(prog, Types(old(g.stack)), g.locals)
    ensures Laid(old(g.stack), g.stack, g.first)
  {
    hide AllTame, StackOk, Laid, Emitted, Simulates, WellTyped, After;
    ghost var s0, c0 := g.stack, g.code;
    SimulatesNothing(g.locals, s0, c0);
    LaidSame(s0, s0, g.first);
    var k := 0;
    assert prog[0..] == prog && prog[..0] == [];
    while k < |prog|
      invariant 0 <= k <= |prog| && g.Valid()
      invariant WellTyped(prog[k..], Types(g.stack), g.locals)
      invariant AfterAll(prog[k..], Types(g.stack), g.locals) == AfterAll(prog, Types(s0), g.locals)
      invariant Simulates(g.locals, s0, g.stack, c0, g.code, prog[..k])
      invariant Laid(s0, g.stack, g.first)
      modifies g`stack, g`code
    {
      ghost var s1, c1 := g.stack, g.code;
      TypedHead(prog, k, Types(s1), g.locals);
      TypedAgree(prog[k], s1, g.locals);
      Gen(g, prog[k]);
      LaidThen(s0, s1, g.stack, g.first);
      SimulatesNext(g.locals, s0, s1, g.stack, c0, c1, g.code, prog[..k], prog[k]);
      assert prog[..k + 1] == prog[..k] + [prog[k]];
      k := k + 1;
    }
    assert prog[..k] == prog;
  }

  lemma TypedHead(prog: seq<Instr>, k: nat, tys: seq<Ty>, locals: seq<Place>)
    requires k < |prog| && WellTyped(prog[k..], tys, locals)
    ensures TypedAs(prog[k], tys, locals) && WellTyped(prog[k + 1..], After(prog[k], tys, locals), locals)
    ensures AfterAll(prog[k..], tys, locals) == AfterAll(prog[k + 1..], After(prog[k], tys, locals), locals)
  {
    assert prog[k..][1..] == prog[k + 1..];
  }
}
