/** One WebAssembly instruction at a time: what the code generator does with its
    operand stack, and that the emitted code does what the instruction says. */
module LazyOps {
  import opened LazyMachine
  import opened LazyStack

  datatype Instr =
    | Const(ty: Ty, v: int)
    | LocalGet(x: nat)
    | LocalSet(x: nat)
    | LocalTee(x: nat)
    | Binary(op: Arith, ty: Ty)
    | Divide(div: Division, ty: Ty)
    | Relation(code: nat, ty: Ty)
    | Eqz(ty: Ty)
    | Select
    | Drop

  // ------------------------------------------------------------------ meaning

  function Top(w: Wasm, k: nat): int
    requires k < |w.stack|
  {
    w.stack[|w.stack| - 1 - k]
  }

  function Pop(w: Wasm, k: nat): seq<int>
    requires k <= |w.stack|
  {
    w.stack[..|w.stack| - k]
  }

  function Arity(i: Instr): nat {
    match i
    case Const(_, _) => 0
    case LocalGet(_) => 0
    case Binary(_, _) => 2
    case Divide(_, _) => 2
    case Relation(_, _) => 2
    case Select => 3
    case _ => 1
  }

  /** Division by zero and the one overflow trap; the rest never does. */
  predicate Traps(i: Instr, w: Wasm) {
    Arity(i) <= |w.stack| && i.Divide? &&
    (Top(w, 0) == 0
     || (i.div.DivS? && Signed(i.ty, Top(w, 1)) == -(Modulus(i.ty) / 2) && Signed(i.ty, Top(w, 0)) == -1))
  }

  function Exec(i: Instr, w: Wasm): Wasm
    requires Arity(i) <= |w.stack|
    requires i.LocalGet? || i.LocalSet? || i.LocalTee? ==> i.x < |w.locals|
  {
    match i
    case Const(ty, v) => w.(stack := w.stack + [v % Modulus(ty)])
    case LocalGet(x) => w.(stack := w.stack + [w.locals[x]])
    case LocalSet(x) => Wasm(Pop(w, 1), w.locals[x := Top(w, 0)])
    case LocalTee(x) => w.(locals := w.locals[x := Top(w, 0)])
    case Binary(op, ty) => w.(stack := Pop(w, 2) + [Apply(op, ty, Top(w, 1), Top(w, 0))])
    case Divide(div, ty) => w.(stack := Pop(w, 2) + [LazyMachine.Divide(div, ty, Top(w, 1), Top(w, 0))])
    case Relation(code, ty) => w.(stack := Pop(w, 2) + [if Holds(code, ty, Top(w, 1), Top(w, 0)) then 1 else 0])
    case Eqz(_) => w.(stack := Pop(w, 1) + [if Top(w, 0) == 0 then 1 else 0])
    case Select => w.(stack := Pop(w, 3) + [if Top(w, 0) != 0 then Top(w, 2) else Top(w, 1)])
    case Drop => w.(stack := Pop(w, 1))
  }

  /** The type checks of the WebAssembly validation. */
  predicate Typed(i: Instr, s: seq<Entry>, locals: seq<Place>) {
    var n := |s|;
    Arity(i) <= n &&
    match i
    case Const(_, _) => true
    case LocalGet(x) => x < |locals|
    case LocalSet(x) => x < |locals| && s[n - 1].ty == locals[x].ty
    case LocalTee(x) => x < |locals| && s[n - 1].ty == locals[x].ty
    case Binary(_, ty) => s[n - 1].ty == ty && s[n - 2].ty == ty
    case Divide(_, ty) => s[n - 1].ty == ty && s[n - 2].ty == ty
    case Relation(code, ty) => code < 10 && s[n - 1].ty == ty && s[n - 2].ty == ty
    case Eqz(ty) => s[n - 1].ty == ty
    case Select => s[n - 1].ty.I32? && s[n - 2].ty == s[n - 3].ty
    case Drop => true
  }

  /** The emitted code does what the instruction says, for every machine state. */
  ghost predicate Refines(locals: seq<Place>, s: seq<Entry>, t: seq<Entry>, es: seq<Emit>, i: Instr) {
    Typed(i, s, locals) &&
    forall m, w :: Rel(s, locals, m, w) && !Traps(i, w) ==> Rel(t, locals, Run(es, m), Exec(i, w))
  }

  ghost predicate Emitted(locals: seq<Place>, s: seq<Entry>, t: seq<Entry>, c0: seq<Emit>, c1: seq<Emit>, i: Instr) {
    |c0| <= |c1| && c1[..|c0|] == c0 && Refines(locals, s, t, c1[|c0|..], i)
  }

  /** Moving values first changes nothing for the instruction. */
  lemma AfterMoves(locals: seq<Place>, s: seq<Entry>, t: seq<Entry>, u: seq<Entry>, c0: seq<Emit>, c1: seq<Emit>,
                   c2: seq<Emit>, i: Instr)
    requires Moved(locals, s, t, c0, c1) && Emitted(locals, t, u, c1, c2, i) && Typed(i, s, locals)
    ensures Emitted(locals, s, u, c0, c2, i)
  {
    hide Run, Exec, Denote;
    var es, fs := c1[|c0|..], c2[|c1|..];
    assert c2[|c0|..] == es + fs;
    forall m, w | Rel(s, locals, m, w) && !Traps(i, w)
      ensures Rel(u, locals, Run(es + fs, m), Exec(i, w))
    {
      RunConcat(es, fs, m);
    }
  }

  lemma EmittedOf(locals: seq<Place>, s: seq<Entry>, t: seq<Entry>, c: seq<Emit>, es: seq<Emit>, i: Instr)
    requires Refines(locals, s, t, es, i)
    ensures Emitted(locals, s, t, c, c + es, i)
  {
    assert (c + es)[|c|..] == es;
  }

  // ----------------------------------------------------- the stack as a sequence

  lemma RelSize(s: seq<Entry>, locals: seq<Place>, m: Machine, w: Wasm)
    requires Rel(s, locals, m, w)
    ensures |w.stack| == |s| && |w.locals| == |locals|
  {
  }

  lemma RelPop(s: seq<Entry>, locals: seq<Place>, m: Machine, w: Wasm, k: nat)
    requires Rel(s, locals, m, w) && k <= |s|
    ensures Rel(s[..|s| - k], locals, m, w.(stack := w.stack[..|s| - k]))
  {
  }

  lemma RelPush(s: seq<Entry>, locals: seq<Place>, m: Machine, w: Wasm, e: Entry, v: int)
    requires Rel(s, locals, m, w) && InRange(e.ty, v) && Denote(e, m) == v
    ensures Rel(s + [e], locals, m, w.(stack := w.stack + [v]))
  {
  }

  lemma PrefixOk(s: seq<Entry>, locals: seq<Place>, first: int, n: nat)
    requires StackOk(s, locals, first) && n <= |s|
    ensures StackOk(s[..n], locals, first)
  {
    hide LocalsOk, PlaceOk, AlignUp;
    var t := s[..n];
    assert forall i :: 0 <= i < n ==> t[i] == s[i];
    forall i | 0 <= i < n
      ensures Follows(t, i)
    {
      assert Follows(s, i);
    }
  }

  /** No comparison is pending. */
  predicate Settled(s: seq<Entry>) {
    s != [] ==> s[|s| - 1].val.At?
  }

  lemma SettledAll(s: seq<Entry>, locals: seq<Place>, first: int)
    requires StackOk(s, locals, first) && Settled(s)
    ensures forall i :: 0 <= i < |s| ==> s[i].val.At?
  {
  }

  lemma PushOk(s: seq<Entry>, locals: seq<Place>, first: int, e: Entry)
    requires StackOk(s, locals, first) && (forall i :: 0 <= i < |s| ==> s[i].val.At?)
    requires e.off >= NextSlot(s, e.ty, first) && e.off % 4 == 0 && PlaceOk(e, locals)
    requires e.val.At? && IsScratch(e.val.loc) ==> Unused(s, -1, e.val.loc.r)
    requires e.val.Cmp? ==> e.ty.I32? && e.val.code < 10
    ensures StackOk(s + [e], locals, first)
  {
    hide LocalsOk;
    var t := s + [e];
    PushSlots(s, first, e);
    forall i | 0 <= i < |t|
      ensures PlaceOk(t[i], locals)
    {
      assert i < |s| ==> PlaceOk(s[i], locals);
    }
    forall i, j | 0 <= i < j < |t| && t[i].val.At? && IsScratch(t[i].val.loc)
      ensures t[j].val != t[i].val
    {
      assert t[i] == s[i];
      if e.val.At? && IsScratch(e.val.loc) {
        assert !Uses(s[i], e.val.loc.r);
      }
    }
  }

  lemma PushSlots(s: seq<Entry>, first: int, e: Entry)
    requires Slots(s, first) && e.off >= NextSlot(s, e.ty, first) && e.off % 4 == 0
    ensures Slots(s + [e], first)
  {
    hide AlignUp;
    NextSlotFits(s, e.ty, first);
    var t := s + [e];
    forall i | 0 <= i < |t|
      ensures Follows(t, i)
    {
      assert i < |s| ==> Follows(s, i);
    }
  }

  // -------------------------------------------------------- pushing and popping

  lemma ConstRefines(locals: seq<Place>, s: seq<Entry>, ty: Ty, v: int, off: int)
    ensures Refines(locals, s, s + [Entry(At(Imm(v)), ty, off)], [], Const(ty, v))
  {
    hide Rel;
    forall m, w | Rel(s, locals, m, w)
      ensures Rel(s + [Entry(At(Imm(v)), ty, off)], locals, Run([], m), Exec(Const(ty, v), w))
    {
      RelPush(s, locals, m, w, Entry(At(Imm(v)), ty, off), v % Modulus(ty));
    }
  }

  lemma GetRefines(locals: seq<Place>, s: seq<Entry>, x: nat, off: int)
    requires x < |locals|
    ensures Refines(locals, s, s + [Entry(At(locals[x].loc), locals[x].ty, off)], [], LocalGet(x))
  {
    forall m, w | Rel(s, locals, m, w)
      ensures Rel(s + [Entry(At(locals[x].loc), locals[x].ty, off)], locals, Run([], m), Exec(LocalGet(x), w))
    {
      RelPush(s, locals, m, w, Entry(At(locals[x].loc), locals[x].ty, off), w.locals[x]);
    }
  }

  lemma DropRefines(locals: seq<Place>, s: seq<Entry>)
    requires s != []
    ensures Refines(locals, s, s[..|s| - 1], [], Drop)
  {
    forall m, w | Rel(s, locals, m, w)
      ensures Rel(s[..|s| - 1], locals, Run([], m), Exec(Drop, w))
    {
      RelPop(s, locals, m, w, 1);
    }
  }

  // ------------------------------------------------------- results in a register

  /** A register below the operands is free: nothing that stays uses it. */
  lemma OpKeepsRest(s: seq<Entry>, locals: seq<Place>, first: int, m: Machine, w: Wasm, ty: Ty, r: nat, v: int)
    requires StackOk(s, locals, first) && Settled(s) && Unused(s, -1, r) && r < SCRATCH && Rel(s, locals, m, w)
    ensures Rel(s, locals, Write(m, ty, Reg(r), v), w)
  {
    hide Read, Write;
    var n := Write(m, ty, Reg(r), v);
    forall j | 0 <= j < |s|
      ensures Denote(s[j], n) == Denote(s[j], m)
    {
      assert PlaceOk(s[j], locals) && !Uses(s[j], r);
      EntryApart(s, locals, first, j, r);
      ReadApart(m, ty, Reg(r), v, s[j].ty, s[j].val.loc);
    }
    forall x | 0 <= x < |locals|
      ensures Read(n, locals[x].ty, locals[x].loc) == Read(m, locals[x].ty, locals[x].loc)
    {
      assert LocalOk(locals[x], first);
      ReadApart(m, ty, Reg(r), v, locals[x].ty, locals[x].loc);
    }
  }

  lemma EntryApart(s: seq<Entry>, locals: seq<Place>, first: int, j: nat, r: nat)
    requires StackOk(s, locals, first) && Settled(s) && j < |s| && !Uses(s[j], r) && r < SCRATCH
    ensures s[j].val.At? && Aligned(s[j].val.loc) && forall ty, kt :: Apart(Reg(r), ty, s[j].val.loc, kt)
  {
    assert PlaceOk(s[j], locals);
    var l := s[j].val.loc;
    if !l.Imm? && !IsScratch(l) && l != Frame(s[j].off) {
      var x :| 0 <= x < |locals| && locals[x] == Place(l, s[j].ty);
      assert LocalOk(locals[x], first);
    }
  }

  /** An operation on the two topmost values, with the result in register `r`. */
  lemma BinaryRefines(locals: seq<Place>, s: seq<Entry>, first: int, op: Arith, ty: Ty, r: nat, off: int)
    requires StackOk(s, locals, first) && Settled(s) && Typed(Binary(op, ty), s, locals)
    requires r < SCRATCH && Unused(s[..|s| - 2], -1, r)
    ensures s[|s| - 1].val.At? && s[|s| - 2].val.At?
    ensures Refines(locals, s, s[..|s| - 2] + [Entry(At(Reg(r)), ty, off)],
      [Op2(op, ty, Reg(r), s[|s| - 2].val.loc, s[|s| - 1].val.loc)], Binary(op, ty))
  {
    hide Apply, Write, Read, StackOk;
    var n := |s|;
    SettledAll(s, locals, first);
    var e := Op2(op, ty, Reg(r), s[n - 2].val.loc, s[n - 1].val.loc);
    var t := s[..n - 2] + [Entry(At(Reg(r)), ty, off)];
    PrefixOk(s, locals, first, n - 2);
    forall m, w | Rel(s, locals, m, w) && !Traps(Binary(op, ty), w)
      ensures Rel(t, locals, Run([e], m), Exec(Binary(op, ty), w))
    {
      RunOne(e, m);
      var v := Apply(op, ty, Top(w, 1), Top(w, 0));
      ApplyInRange(op, ty, Top(w, 1), Top(w, 0));
      ResultIn(s, locals, first, m, w, ty, r, v, off);
    }
  }

  /** The operands are popped and a value is in a register nothing else uses. */
  lemma ResultIn(s: seq<Entry>, locals: seq<Place>, first: int, m: Machine, w: Wasm, ty: Ty, r: nat, v: int, off: int)
    requires |s| >= 2 && StackOk(s[..|s| - 2], locals, first) && Rel(s, locals, m, w) && InRange(ty, v)
    requires Settled(s[..|s| - 2]) && r < SCRATCH && Unused(s[..|s| - 2], -1, r)
    ensures Rel(s[..|s| - 2] + [Entry(At(Reg(r)), ty, off)], locals, Write(m, ty, Reg(r), v),
                w.(stack := w.stack[..|s| - 2] + [v]))
  {
    hide Write, Read, StackOk, Unused;
    var w1 := w.(stack := w.stack[..|s| - 2]);
    RelPop(s, locals, m, w, 2);
    OpKeepsRest(s[..|s| - 2], locals, first, m, w1, ty, r, v);
    ReadWrite(m, ty, Reg(r), v);
    RelPush(s[..|s| - 2], locals, Write(m, ty, Reg(r), v), w1, Entry(At(Reg(r)), ty, off), v);
  }

  // ------------------------------------------------------------- comparisons

  lemma FlagsApart(s: seq<Entry>, locals: seq<Place>, m: Machine, w: Wasm, ty: Ty, x: int, y: int)
    requires Rel(s, locals, m, w) && forall i :: 0 <= i < |s| ==> s[i].val.At?
    ensures Rel(s, locals, m.(ty := ty, left := x, right := y), w)
  {
    hide Read;
    var n := m.(ty := ty, left := x, right := y);
    forall l, t: Ty
      ensures Read(n, t, l) == Read(m, t, l)
    {
      ReadFlags(m, ty, x, y, t, l);
    }
  }

  lemma ReadFlags(m: Machine, ty: Ty, x: int, y: int, t: Ty, l: Loc)
    ensures Read(m.(ty := ty, left := x, right := y), t, l) == Read(m, t, l)
  {
  }

  /** `k` operands are popped, and the comparison is left pending in the flags. */
  lemma PendingIn(s: seq<Entry>, locals: seq<Place>, first: int, m: Machine, w: Wasm, k: nat, ty: Ty, x: int, y: int,
                  code: nat, off: int)
    requires StackOk(s, locals, first) && Settled(s) && k <= |s| && Rel(s, locals, m, w)
    ensures Rel(s[..|s| - k] + [Entry(Cmp(code), I32, off)], locals, m.(ty := ty, left := x, right := y),
      w.(stack := w.stack[..|s| - k] + [if Holds(code, ty, x, y) then 1 else 0]))
  {
    hide StackOk;
    SettledAll(s, locals, first);
    var n, w1 := m.(ty := ty, left := x, right := y), w.(stack := w.stack[..|s| - k]);
    FlagsApart(s, locals, m, w, ty, x, y);
    RelPop(s, locals, n, w, k);
    RelPush(s[..|s| - k], locals, n, w1, Entry(Cmp(code), I32, off), if Holds(code, ty, x, y) then 1 else 0);
  }

  lemma RelationRefines(locals: seq<Place>, s: seq<Entry>, first: int, code: nat, ty: Ty, off: int)
    requires StackOk(s, locals, first) && Settled(s) && Typed(Relation(code, ty), s, locals)
    ensures s[|s| - 1].val.At? && s[|s| - 2].val.At?
    ensures Refines(locals, s, s[..|s| - 2] + [Entry(Cmp(code), I32, off)],
      [Compare(ty, s[|s| - 2].val.loc, s[|s| - 1].val.loc)], Relation(code, ty))
  {
    hide StackOk, Read;
    var n := |s|;
    SettledAll(s, locals, first);
    var e := Compare(ty, s[n - 2].val.loc, s[n - 1].val.loc);
    forall m, w | Rel(s, locals, m, w) && !Traps(Relation(code, ty), w)
      ensures Rel(s[..n - 2] + [Entry(Cmp(code), I32, off)], locals, Run([e], m), Exec(Relation(code, ty), w))
    {
      RunOne(e, m);
      PendingIn(s, locals, first, m, w, 2, ty, Top(w, 1), Top(w, 0), code, off);
    }
  }

  /** `eqz` of a value: a comparison with zero. */
  lemma EqzRefines(locals: seq<Place>, s: seq<Entry>, first: int, ty: Ty, off: int)
    requires StackOk(s, locals, first) && Settled(s) && Typed(Eqz(ty), s, locals)
    ensures s[|s| - 1].val.At?
    ensures Refines(locals, s, s[..|s| - 1] + [Entry(Cmp(0), I32, off)], [Compare(ty, s[|s| - 1].val.loc, Imm(0))],
                    Eqz(ty))
  {
    hide StackOk;
    var n := |s|;
    SettledAll(s, locals, first);
    var e := Compare(ty, s[n - 1].val.loc, Imm(0));
    forall m, w | Rel(s, locals, m, w) && !Traps(Eqz(ty), w)
      ensures Rel(s[..n - 1] + [Entry(Cmp(0), I32, off)], locals, Run([e], m), Exec(Eqz(ty), w))
    {
      RunOne(e, m);
      PendingIn(s, locals, first, m, w, 1, ty, Top(w, 0), 0, 0, off);
    }
  }

  /** `eqz` of a pending comparison: the inverse condition. */
  function Flip(code: nat): nat {
    if code % 2 == 0 then code + 1 else code - 1
  }

  lemma FlipRefines(locals: seq<Place>, s: seq<Entry>, first: int)
    requires StackOk(s, locals, first) && s != [] && s[|s| - 1].val.Cmp?
    ensures Flip(s[|s| - 1].val.code) < 10 && s[|s| - 1].ty.I32?
    ensures Refines(locals, s, s[|s| - 1 := s[|s| - 1].(val := Cmp(Flip(s[|s| - 1].val.code)))], [], Eqz(I32))
  {
    hide PlaceOk, LocalsOk, Slots, Read;
    var n := |s| - 1;
    var t := s[n := s[n].(val := Cmp(Flip(s[n].val.code)))];
    forall m, w | Rel(s, locals, m, w) && !Traps(Eqz(I32), w)
      ensures Rel(t, locals, Run([], m), Exec(Eqz(I32), w))
    {
      assert Denote(s[n], m) == w.stack[n];
      FlipHolds(s[n].val.code, m);
    }
  }

  lemma FlipHolds(code: nat, m: Machine)
    ensures Flag(Flip(code), m) == 1 - Flag(code, m)
  {
  }

  lemma FlippedOk(s: seq<Entry>, locals: seq<Place>, first: int)
    requires StackOk(s, locals, first) && s != [] && s[|s| - 1].val.Cmp?
    ensures StackOk(s[|s| - 1 := s[|s| - 1].(val := Cmp(Flip(s[|s| - 1].val.code)))], locals, first)
  {
    hide LocalsOk, Slots;
    var n := |s| - 1;
    var v := Cmp(Flip(s[n].val.code));
    SavedSlots(s, first, n, v);
    var t := s[n := s[n].(val := v)];
    forall i | 0 <= i < |t|
      ensures PlaceOk(t[i], locals)
    {
      assert PlaceOk(s[i], locals);
    }
  }

  // ---------------------------------------------------------- storing to a local

  /** No entry below the top still stands for the local. */
  predicate NoAlias(s: seq<Entry>, loc: Loc) {
    forall j :: 0 <= j < |s| - 1 ==> s[j].val != At(loc)
  }

  /** An entry that is not in the local is not touched by a store to it. */
  lemma StoreApart(s: seq<Entry>, locals: seq<Place>, first: int, x: nat, j: nat)
    requires StackOk(s, locals, first) && x < |locals| && j < |s| && s[j].val.At? && s[j].val.loc != locals[x].loc
    ensures Apart(locals[x].loc, locals[x].ty, s[j].val.loc, s[j].ty) && Aligned(s[j].val.loc)
  {
    assert PlaceOk(s[j], locals) && LocalOk(locals[x], first);
    var l := s[j].val.loc;
    if !l.Imm? && !IsScratch(l) && l != Frame(s[j].off) {
      var y :| 0 <= y < |locals| && locals[y] == Place(l, s[j].ty);
      assert LocalOk(locals[y], first);
    }
  }

  /** The local gets the top value; entries elsewhere keep theirs. */
  lemma StoredRel(s: seq<Entry>, locals: seq<Place>, first: int, m: Machine, w: Wasm, x: nat, k: nat)
    requires StackOk(s, locals, first) && Settled(s) && Rel(s, locals, m, w) && x < |locals| && s != [] && k <= |s|
    requires s[|s| - 1].ty == locals[x].ty
    requires forall j :: 0 <= j < k ==> s[j].val != At(locals[x].loc)
    ensures Rel(s[..k], locals, Write(m, locals[x].ty, locals[x].loc, Top(w, 0)),
                Wasm(w.stack[..k], w.locals[x := Top(w, 0)]))
  {
    hide Read, Write;
    SettledAll(s, locals, first);
    var l, v := locals[x], Top(w, 0);
    var n := Write(m, l.ty, l.loc, v);
    forall j | 0 <= j < k
      ensures Denote(s[j], n) == Denote(s[j], m)
    {
      StoreApart(s, locals, first, x, j);
      assert LocalOk(l, first);
      ReadApart(m, l.ty, l.loc, v, s[j].ty, s[j].val.loc);
    }
    LocalStored(locals, first, m, x, v);
  }

  lemma LocalStored(locals: seq<Place>, first: int, m: Machine, x: nat, v: int)
    requires LocalsOk(locals, first) && x < |locals| && InRange(locals[x].ty, v)
    ensures var n := Write(m, locals[x].ty, locals[x].loc, v);
      && Read(n, locals[x].ty, locals[x].loc) == v
      && forall y :: 0 <= y < |locals| && y != x ==>
        Read(n, locals[y].ty, locals[y].loc) == Read(m, locals[y].ty, locals[y].loc)
  {
    hide Read, Write;
    var n := Write(m, locals[x].ty, locals[x].loc, v);
    assert LocalOk(locals[x], first);
    ReadWrite(m, locals[x].ty, locals[x].loc, v);
    forall y | 0 <= y < |locals| && y != x
      ensures Read(n, locals[y].ty, locals[y].loc) == Read(m, locals[y].ty, locals[y].loc)
    {
      assert LocalOk(locals[y], first);
      ReadApart(m, locals[x].ty, locals[x].loc, v, locals[y].ty, locals[y].loc);
    }
  }

  function Store(s: seq<Entry>, l: Place): seq<Emit>
    requires s != []
  {
    var e := s[|s| - 1];
    if e.val == At(l.loc) then [] else [Transfer(e, l.loc)]
  }

  /** The store itself, for `local.set` (`k` entries stay) and `local.tee`. */
  lemma StoreRefines(locals: seq<Place>, s: seq<Entry>, first: int, x: nat, tee: bool)
    requires StackOk(s, locals, first) && Settled(s) && s != [] && x < |locals| && s[|s| - 1].ty == locals[x].ty
    requires NoAlias(s, locals[x].loc)
    ensures Refines(locals, s, if tee then s else s[..|s| - 1], Store(s, locals[x]),
                    if tee then LocalTee(x) else LocalSet(x))
  {
    hide StackOk, Read, Write;
    var n := |s|;
    var i, t := if tee then LocalTee(x) else LocalSet(x), if tee then s else s[..n - 1];
    SettledAll(s, locals, first);
    forall m, w | Rel(s, locals, m, w) && !Traps(i, w)
      ensures Rel(t, locals, Run(Store(s, locals[x]), m), Exec(i, w))
    {
      if s[n - 1].val == At(locals[x].loc) {
        assert w.locals[x := Top(w, 0)] == w.locals;
        RelPop(s, locals, m, w, 1);
      } else {
        RunOne(Transfer(s[n - 1], locals[x].loc), m);
        assert s[..n] == s && w.stack[..n] == w.stack;
        StoredRel(s, locals, first, m, w, x, if tee then n else n - 1);
      }
    }
  }

  // ------------------------------------------------------------------- select

  /** The test that skips the move holds exactly when the condition is not zero. */
  predicate TestFor(e: Entry, test: Test) {
    match e.val
    case Cmp(code) => test == OnFlag(code)
    case At(loc) => loc.Reg? && test == NonZero(loc.r)
  }

  /** The first value is in its slot; the second one replaces it unless the condition holds. */
  lemma SelectRefines(locals: seq<Place>, s: seq<Entry>, first: int, test: Test)
    requires StackOk(s, locals, first) && Typed(Select, s, locals) && TestFor(s[|s| - 1], test)
    requires s[|s| - 3].val == At(Frame(s[|s| - 3].off))
    ensures s[|s| - 2].val.At?
    ensures Refines(locals, s, s[..|s| - 2], [Unless(test, s[|s| - 3].ty, Frame(s[|s| - 3].off), s[|s| - 2].val.loc)],
                    Select)
  {
    hide StackOk, Write, Read;
    var n := |s|;
    OnlyTopPending(s, locals, first);
    var e := Unless(test, s[n - 3].ty, Frame(s[n - 3].off), s[n - 2].val.loc);
    forall m, w | Rel(s, locals, m, w) && !Traps(Select, w)
      ensures Rel(s[..n - 2], locals, Run([e], m), Exec(Select, w))
    {
      RunOne(e, m);
      TestKnown(s[n - 1], test, m);
      var w1 := w.(stack := w.stack[..n - 2]);
      RelPop(s, locals, m, w, 2);
      if Passes(test, m) {
        assert w1.stack == Pop(w, 3) + [Top(w, 2)];
      } else {
        SlotFree(s, locals, first, n - 3);
        SlotWritten(s, locals, m, w, n - 3, Top(w, 1));
        assert Exec(Select, w).stack == w1.stack[n - 3 := Top(w, 1)];
      }
    }
  }

  lemma OnlyTopPending(s: seq<Entry>, locals: seq<Place>, first: int)
    requires StackOk(s, locals, first)
    ensures forall i :: 0 <= i < |s| - 1 ==> s[i].val.At?
  {
  }

  lemma TestKnown(e: Entry, test: Test, m: Machine)
    requires TestFor(e, test)
    ensures Passes(test, m) <==> Denote(e, m) != 0
  {
  }

  /** A value of the same type is written to the slot of entry `i`, which is where it lives. */
  lemma SlotWritten(s: seq<Entry>, locals: seq<Place>, m: Machine, w: Wasm, i: nat, v: int)
    requires Rel(s, locals, m, w) && i < |s| && |s| >= 2 && i < |s| - 2 && InRange(s[i].ty, v)
    requires s[i].val == At(Frame(s[i].off)) && FreeFor(s, locals, i, Frame(s[i].off))
    requires forall j :: 0 <= j < |s| - 2 ==> s[j].val.At?
    ensures var n := |s| - 2;
      Rel(s[..n], locals, Write(m, s[i].ty, Frame(s[i].off), v), w.(stack := w.stack[..n][i := v]))
  {
    hide Read, Write, Apart, Aligned;
    var l, ty := Frame(s[i].off), s[i].ty;
    var n := Write(m, ty, l, v);
    ReadWrite(m, ty, l, v);
    forall j | 0 <= j < |s| - 2 && j != i
      ensures Denote(s[j], n) == Denote(s[j], m)
    {
      ReadApart(m, ty, l, v, s[j].ty, s[j].val.loc);
    }
    forall x | 0 <= x < |locals|
      ensures Read(n, locals[x].ty, locals[x].loc) == Read(m, locals[x].ty, locals[x].loc)
    {
      ReadApart(m, ty, l, v, locals[x].ty, locals[x].loc);
    }
  }

  // ------------------------------------------------------------------ division

  /** Besides keeping every value, the code puts the value of entry `j` into register `r`. */
  ghost predicate Brings(locals: seq<Place>, s: seq<Entry>, t: seq<Entry>, es: seq<Emit>, j: nat, r: nat) {
    && j < |t| && Keeps(locals, s, t, es)
    && forall m, w :: Rel(s, locals, m, w) ==>
      |w.stack| == |s| == |t| && Read(Run(es, m), t[j].ty, Reg(r)) == w.stack[j]
  }

  ghost predicate Spares(es: seq<Emit>, r: nat) {
    forall m, ty: Ty :: Read(Run(es, m), ty, Reg(r)) == Read(m, ty, Reg(r))
  }

  lemma SparesOne(e: Entry, dst: Loc, r: nat)
    requires dst != Reg(r)
    ensures Spares([Transfer(e, dst)], r)
  {
    hide Read, Write;
    forall m, ty: Ty
      ensures Read(Run([Transfer(e, dst)], m), ty, Reg(r)) == Read(m, ty, Reg(r))
    {
      RunOne(Transfer(e, dst), m);
      var wt := if e.val.At? then e.ty else I32;
      RegisterSpared(m, wt, dst, Denote(e, m), ty, r);
    }
  }

  lemma RegisterSpared(m: Machine, ty: Ty, dst: Loc, v: int, rt: Ty, r: nat)
    requires dst != Reg(r)
    ensures Read(Write(m, ty, dst, v), rt, Reg(r)) == Read(m, rt, Reg(r))
  {
  }

  lemma SparesThen(es: seq<Emit>, fs: seq<Emit>, r: nat)
    requires Spares(es, r) && Spares(fs, r)
    ensures Spares(es + fs, r)
  {
    hide Read, Run;
    forall m, ty: Ty
      ensures Read(Run(es + fs, m), ty, Reg(r)) == Read(m, ty, Reg(r))
    {
      RunConcat(es, fs, m);
    }
  }

  /** A copy in a free register: the entry's record stays as it is. */
  lemma CopyBrings(locals: seq<Place>, s: seq<Entry>, first: int, j: nat, r: nat)
    requires StackOk(s, locals, first) && Settled(s) && j < |s| && r < SCRATCH && Unused(s, -1, r)
    ensures Brings(locals, s, s, [Transfer(s[j], Reg(r))], j, r)
  {
    hide StackOk, Read, Write, Unused;
    SettledAll(s, locals, first);
    forall m, w | Rel(s, locals, m, w)
      ensures Rel(s, locals, Run([Transfer(s[j], Reg(r))], m), w)
      ensures |w.stack| == |s| && Read(Run([Transfer(s[j], Reg(r))], m), s[j].ty, Reg(r)) == w.stack[j]
    {
      RunOne(Transfer(s[j], Reg(r)), m);
      OpKeepsRest(s, locals, first, m, w, s[j].ty, r, w.stack[j]);
      ReadWrite(m, s[j].ty, Reg(r), w.stack[j]);
    }
  }

  lemma HeldBrings(locals: seq<Place>, s: seq<Entry>, j: nat, r: nat)
    requires j < |s| && Uses(s[j], r)
    ensures Brings(locals, s, s, [], j, r) && forall q :: Spares([], q)
  {
    KeepsNothing(locals, s);
  }

  lemma BringsAfter(locals: seq<Place>, s: seq<Entry>, t: seq<Entry>, u: seq<Entry>, es: seq<Emit>, fs: seq<Emit>,
                    j: nat, r: nat)
    requires Keeps(locals, s, t, es) && Brings(locals, t, u, fs, j, r) && |s| == |t|
    ensures Brings(locals, s, u, es + fs, j, r)
  {
    hide Rel, Run, Read;
    KeepsThen(locals, s, t, u, es, fs);
    forall m, w | Rel(s, locals, m, w)
      ensures |w.stack| == |s| == |u| && Read(Run(es + fs, m), u[j].ty, Reg(r)) == w.stack[j]
    {
      RunConcat(es, fs, m);
    }
  }

  /** Both operands in place: what the divide instruction then does. */
  lemma DivideRefines(locals: seq<Place>, s0: seq<Entry>, s1: seq<Entry>, s2: seq<Entry>, first: int, es: seq<Emit>,
                      fs: seq<Emit>,
                      div: Division, ty: Ty, off: int)
    requires Typed(Divide(div, ty), s0, locals) && Typed(Divide(div, ty), s2, locals) && |s0| == |s1| == |s2|
    requires s1[|s1| - 2].ty == ty
    requires Brings(locals, s0, s1, es, |s1| - 2, 0) && Brings(locals, s1, s2, fs, |s2| - 1, 1) && Spares(fs, 0)
    requires StackOk(s2, locals, first) && Settled(s2)
    requires Unused(s2, |s2| - 2, 0) && Unused(s2, |s2| - 1, 1)
    ensures var rem := div.RemS? || div.RemU?;
      Refines(locals, s0, s2[..|s2| - 2] + [Entry(At(Reg(if rem then 1 else 0)), ty, off)],
        es + fs + [DivMod(div.DivS? || div.RemS?, ty, rem)], Divide(div, ty))
  {
    hide StackOk, Read, Write, Unused, LazyMachine.Divide, Keeps;
    var n := |s2|;
    var rem := div.RemS? || div.RemU?;
    var d := DivMod(div.DivS? || div.RemS?, ty, rem);
    var t := s2[..n - 2] + [Entry(At(Reg(if rem then 1 else 0)), ty, off)];
    forall m, w | Rel(s0, locals, m, w) && !Traps(Divide(div, ty), w)
      ensures Rel(t, locals, Run(es + fs + [d], m), Exec(Divide(div, ty), w))
    {
      RunConcat(es + fs, [d], m);
      RunConcat(es, fs, m);
      var m1 := Run(es, m);
      var m2 := Run(fs, m1);
      KeepsAt(locals, s0, s1, es, m, w);
      KeepsAt(locals, s1, s2, fs, m1, w);
      assert Read(m1, ty, Reg(0)) == w.stack[n - 2];
      assert Read(m2, ty, Reg(0)) == Read(m1, ty, Reg(0));
      assert Read(m2, ty, Reg(1)) == w.stack[n - 1];
      RunOne(d, m2);
      DividedRel(s2, locals, first, m2, w, div, ty, off);
    }
  }

  lemma KeepsAt(locals: seq<Place>, s: seq<Entry>, t: seq<Entry>, es: seq<Emit>, m: Machine, w: Wasm)
    requires Keeps(locals, s, t, es) && Rel(s, locals, m, w)
    ensures Rel(t, locals, Run(es, m), w)
  {
  }

  lemma DividedRel(s: seq<Entry>, locals: seq<Place>, first: int, m: Machine, w: Wasm, div: Division, ty: Ty, off: int)
    requires StackOk(s, locals, first) && Settled(s) && Rel(s, locals, m, w) && Typed(Divide(div, ty), s, locals)
    requires Unused(s, |s| - 2, 0) && Unused(s, |s| - 1, 1)
    requires Read(m, ty, Reg(0)) == Top(w, 1) && Read(m, ty, Reg(1)) == Top(w, 0)
    ensures var rem := div.RemS? || div.RemU?;
      Rel(s[..|s| - 2] + [Entry(At(Reg(if rem then 1 else 0)), ty, off)], locals,
        Step(DivMod(div.DivS? || div.RemS?, ty, rem), m), Exec(Divide(div, ty), w))
  {
    hide StackOk, Read, Write, LazyMachine.Divide;
    var n := |s|;
    var rem, x, y := div.RemS? || div.RemU?, Top(w, 1), Top(w, 0);
    var rest := s[..n - 2];
    var w1 := w.(stack := w.stack[..n - 2]);
    SettledAll(s, locals, first);
    PrefixOk(s, locals, first, n - 2);
    UnusedPrefix(s, n - 2, n - 2, 0);
    UnusedPrefix(s, n - 2, n - 1, 1);
    RelPop(s, locals, m, w, 2);
    var q := LazyMachine.Divide(if div.DivS? || div.RemS? then DivS else DivU, ty, x, y);
    var z := LazyMachine.Divide(if div.DivS? || div.RemS? then RemS else RemU, ty, x, y);
    DivideInRange(DivS, ty, x, y);
    DivideInRange(DivU, ty, x, y);
    DivideInRange(RemS, ty, x, y);
    DivideInRange(RemU, ty, x, y);
    OpKeepsRest(rest, locals, first, m, w1, ty, 0, q);
    var m1 := Write(m, ty, Reg(0), q);
    ReadWrite(m, ty, Reg(0), q);
    if rem {
      OpKeepsRest(rest, locals, first, m1, w1, ty, 1, z);
      ReadWrite(m1, ty, Reg(1), z);
      RelPush(rest, locals, Write(m1, ty, Reg(1), z), w1, Entry(At(Reg(1)), ty, off), z);
    } else {
      RelPush(rest, locals, m1, w1, Entry(At(Reg(0)), ty, off), q);
    }
  }

  lemma UnusedPrefix(s: seq<Entry>, k: nat, i: nat, r: nat)
    requires k <= i < |s| && Unused(s, i, r)
    ensures Unused(s[..k], -1, r)
  {
    assert forall j :: 0 <= j < k ==> s[..k][j] == s[j] && !Uses(s[j], r);
  }

  // ------------------------------------------------------------ static types

  function Types(s: seq<Entry>): (r: seq<Ty>)
    ensures |r| == |s|
  {
    seq(|s|, i requires 0 <= i < |s| => s[i].ty)
  }

  /** The operand types after an instruction. */
  function After(i: Instr, tys: seq<Ty>, locals: seq<Place>): seq<Ty> {
    var n := |tys|;
    if n < Arity(i) then tys
    else
      match i
      case Const(ty, _) => tys + [ty]
      case LocalGet(x) => if x < |locals| then tys + [locals[x].ty] else tys
      case LocalSet(_) => tys[..n - 1]
      case LocalTee(_) => tys
      case Binary(_, ty) => tys[..n - 2] + [ty]
      case Divide(_, ty) => tys[..n - 2] + [ty]
      case Relation(_, _) => tys[..n - 2] + [I32]
      case Eqz(_) => tys[..n - 1] + [I32]
      case Select => tys[..n - 2]
      case Drop => tys[..n - 1]
  }

  lemma TypesPush(s: seq<Entry>, e: Entry)
    ensures Types(s + [e]) == Types(s) + [e.ty]
  {
  }

  lemma TypesPrefix(s: seq<Entry>, k: nat)
    requires k <= |s|
    ensures Types(s[..k]) == Types(s)[..k]
  {
  }

  lemma TypesKept(s: seq<Entry>, t: seq<Entry>)
    requires |s| == |t| && forall j :: 0 <= j < |t| ==> t[j].ty == s[j].ty
    ensures Types(s) == Types(t)
  {
  }
}
