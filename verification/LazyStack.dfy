/** The code generator's operand stack: where each value is, and the steps that move
    values without changing them. */
module LazyStack {
  import opened LazyMachine

  /** `StackValue`: the place of a value, or a pending comparison (SVT_CMP). */
  datatype Val = At(loc: Loc) | Cmp(code: nat)

  datatype Entry = Entry(val: Val, ty: Ty, off: int)

  datatype Place = Place(loc: Loc, ty: Ty)

  /** The state of the WebAssembly program: operand stack and locals. */
  datatype Wasm = Wasm(stack: seq<int>, locals: seq<int>)

  // ------------------------------------------------------------------- layout

  function AlignUp(off: int, ty: Ty): int {
    if off % Size(ty) > 0 then off + Size(ty) - off % Size(ty) else off
  }

  /** `stackvalue_Push`: the slot of the next entry. */
  function NextSlot(stack: seq<Entry>, ty: Ty, first: int): int {
    if stack == [] then first
    else var top := stack[|stack| - 1]; AlignUp(top.off + Size(top.ty), ty)
  }

  /** An entry's slot comes after the one below, at a multiple of its size. */
  predicate Follows(stack: seq<Entry>, i: nat)
    requires i < |stack|
  {
    i > 0 ==> stack[i].off >= AlignUp(stack[i - 1].off + Size(stack[i - 1].ty), stack[i].ty)
  }

  predicate Slots(stack: seq<Entry>, first: int) {
    && first % 4 == 0 && (forall i :: 0 <= i < |stack| ==> Follows(stack, i))
    && (forall i :: 0 <= i < |stack| ==> stack[i].off >= first && stack[i].off % 4 == 0)
    && (forall i, j :: 0 <= i < j < |stack| ==> stack[i].off + Size(stack[i].ty) <= stack[j].off)
  }

  lemma NextSlotFits(stack: seq<Entry>, ty: Ty, first: int)
    requires Slots(stack, first)
    ensures var off := NextSlot(stack, ty, first);
      off >= first && off % 4 == 0 && forall i :: 0 <= i < |stack| ==> stack[i].off + Size(stack[i].ty) <= off
  {
    hide AlignUp;
    if stack != [] {
      var top := stack[|stack| - 1];
      AlignUpFits(top.off + Size(top.ty), ty);
    }
  }

  lemma AlignUpFits(off: int, ty: Ty)
    requires off % 4 == 0
    ensures off <= AlignUp(off, ty) < off + Size(ty) && AlignUp(off, ty) % Size(ty) == 0 && AlignUp(off, ty) % 4 == 0
  {
    if ty.I32? {
      assert AlignUp(off, ty) == off;
    } else {
      assert off % 8 == 0 || off % 8 == 4;
    }
  }

  predicate IsScratch(l: Loc) {
    l.Reg? && l.r < SCRATCH
  }

  predicate LocalOk(l: Place, first: int) {
    && !l.loc.Imm? && !IsScratch(l.loc) && Aligned(l.loc)
    && (l.loc.Frame? ==> l.loc.off + Size(l.ty) <= first)
  }

  /** The places of the locals: saved registers, parameters, or machine stack. */
  predicate LocalsOk(locals: seq<Place>, first: int) {
    && (forall x :: 0 <= x < |locals| ==> LocalOk(locals[x], first))
    && (forall x, y :: 0 <= x < y < |locals| ==> Apart(locals[x].loc, locals[x].ty, locals[y].loc, locals[y].ty))
  }

  /** A value is a constant, in a scratch register, in its own slot, or still in the
      local it was read from. */
  predicate PlaceOk(e: Entry, locals: seq<Place>) {
    e.val.At? ==>
      e.val.loc.Imm? || IsScratch(e.val.loc) || e.val.loc == Frame(e.off)
      || exists x :: 0 <= x < |locals| && locals[x] == Place(e.val.loc, e.ty)
  }

  predicate Uses(e: Entry, r: nat) {
    e.val == At(Reg(r))
  }

  /** What holds between two instructions: each scratch register is used at most
      once, and only the top may be a pending comparison. */
  ghost predicate StackOk(stack: seq<Entry>, locals: seq<Place>, first: int) {
    && Slots(stack, first) && LocalsOk(locals, first)
    && (forall i :: 0 <= i < |stack| ==> PlaceOk(stack[i], locals))
    && (forall i, j :: 0 <= i < j < |stack| && stack[i].val.At? && IsScratch(stack[i].val.loc) ==>
      stack[j].val != stack[i].val)
    && (forall i :: 0 <= i < |stack| && stack[i].val.Cmp? ==>
      i == |stack| - 1 && stack[i].ty.I32? && stack[i].val.code < 10)
  }

  // ----------------------------------------------------------------- denotation

  function Denote(e: Entry, m: Machine): int {
    match e.val
    case At(loc) => Read(m, e.ty, loc)
    case Cmp(code) => Flag(code, m)
  }

  /** Every entry and every local has the value the program gives it. */
  ghost predicate Rel(stack: seq<Entry>, locals: seq<Place>, m: Machine, w: Wasm) {
    && |w.stack| == |stack| && |w.locals| == |locals|
    && (forall i :: 0 <= i < |stack| ==> InRange(stack[i].ty, w.stack[i]) && Denote(stack[i], m) == w.stack[i])
    && (forall x :: 0 <= x < |locals| ==>
      InRange(locals[x].ty, w.locals[x]) && Read(m, locals[x].ty, locals[x].loc) == w.locals[x])
  }

  /** Running `es` moves values around and changes none. */
  ghost predicate Keeps(locals: seq<Place>, s: seq<Entry>, t: seq<Entry>, es: seq<Emit>) {
    forall m, w :: Rel(s, locals, m, w) ==> Rel(t, locals, Run(es, m), w)
  }

  lemma KeepsNothing(locals: seq<Place>, s: seq<Entry>)
    ensures Keeps(locals, s, s, [])
  {
  }

  lemma KeepsThen(locals: seq<Place>, s: seq<Entry>, t: seq<Entry>, u: seq<Entry>, es: seq<Emit>, fs: seq<Emit>)
    requires Keeps(locals, s, t, es) && Keeps(locals, t, u, fs)
    ensures Keeps(locals, s, u, es + fs)
  {
    hide Rel, Run;
    forall m, w | Rel(s, locals, m, w)
      ensures Rel(u, locals, Run(es + fs, m), w)
    {
      RunConcat(es, fs, m);
    }
  }

  // ----------------------------------------------------------- moving one value

  /** The instruction that puts an entry's value at `dst`. */
  function Transfer(e: Entry, dst: Loc): Emit {
    match e.val
    case At(loc) => Move(e.ty, dst, loc)
    case Cmp(code) => SetFlag(dst, code)
  }

  /** Nothing else is at `dst`. */
  ghost predicate FreeFor(stack: seq<Entry>, locals: seq<Place>, i: nat, dst: Loc)
    requires i < |stack|
  {
    && !dst.Imm? && Aligned(dst)
    && (forall j :: 0 <= j < |stack| && j != i && stack[j].val.At? ==>
          Apart(dst, stack[i].ty, stack[j].val.loc, stack[j].ty) && Aligned(stack[j].val.loc))
    && (forall x :: 0 <= x < |locals| ==>
      Apart(dst, stack[i].ty, locals[x].loc, locals[x].ty) && Aligned(locals[x].loc))
    && (stack[i].val.Cmp? ==> stack[i].ty.I32?)
  }

  lemma TransferKeeps(stack: seq<Entry>, locals: seq<Place>, i: nat, dst: Loc)
    requires i < |stack| && FreeFor(stack, locals, i, dst)
    ensures Keeps(locals, stack, stack[i := stack[i].(val := At(dst))], [Transfer(stack[i], dst)])
  {
    hide Read, Write, Apart, Aligned;
    var t := stack[i := stack[i].(val := At(dst))];
    forall m, w | Rel(stack, locals, m, w)
      ensures Rel(t, locals, Run([Transfer(stack[i], dst)], m), w)
    {
      RunOne(Transfer(stack[i], dst), m);
      var v := Denote(stack[i], m);
      var n := Write(m, stack[i].ty, dst, v);
      ReadWrite(m, stack[i].ty, dst, v);
      WriteKeepsFlags(m, stack[i].ty, dst, v);
      forall j | 0 <= j < |stack| && j != i
        ensures Denote(stack[j], n) == Denote(stack[j], m)
      {
        if stack[j].val.At? {
          ReadApart(m, stack[i].ty, dst, v, stack[j].ty, stack[j].val.loc);
        }
      }
      forall x | 0 <= x < |locals|
        ensures Read(n, locals[x].ty, locals[x].loc) == Read(m, locals[x].ty, locals[x].loc)
      {
        ReadApart(m, stack[i].ty, dst, v, locals[x].ty, locals[x].loc);
      }
    }
  }

  lemma WriteKeepsFlags(m: Machine, ty: Ty, dst: Loc, v: int)
    ensures forall code :: Flag(code, Write(m, ty, dst, v)) == Flag(code, m)
    ensures var n := Write(m, ty, dst, v); n.ty == m.ty && n.left == m.left && n.right == m.right
  {
  }

  // -------------------------------------------------- spilling into the own slot

  function Saved(stack: seq<Entry>, i: nat): seq<Entry>
    requires i < |stack|
  {
    stack[i := stack[i].(val := At(Frame(stack[i].off)))]
  }

  lemma SlotFree(stack: seq<Entry>, locals: seq<Place>, first: int, i: nat)
    requires StackOk(stack, locals, first) && i < |stack|
    ensures FreeFor(stack, locals, i, Frame(stack[i].off))
  {
    forall j | 0 <= j < |stack| && j != i && stack[j].val.At?
      ensures Apart(Frame(stack[i].off), stack[i].ty, stack[j].val.loc, stack[j].ty) && Aligned(stack[j].val.loc)
    {
      assert PlaceOk(stack[j], locals);
      var l := stack[j].val.loc;
      if !l.Imm? && !IsScratch(l) && l != Frame(stack[j].off) {
        var x :| 0 <= x < |locals| && locals[x] == Place(l, stack[j].ty);
        assert LocalOk(locals[x], first);
      }
    }
    forall x | 0 <= x < |locals|
      ensures Apart(Frame(stack[i].off), stack[i].ty, locals[x].loc, locals[x].ty) && Aligned(locals[x].loc)
    {
      assert LocalOk(locals[x], first);
    }
  }

  lemma SavedOk(stack: seq<Entry>, locals: seq<Place>, first: int, i: nat)
    requires StackOk(stack, locals, first) && i < |stack|
    ensures StackOk(Saved(stack, i), locals, first)
  {
    hide LocalsOk, Slots;
    SavedSlots(stack, first, i, At(Frame(stack[i].off)));
    var t := Saved(stack, i);
    forall j | 0 <= j < |t|
      ensures PlaceOk(t[j], locals)
    {
      assert PlaceOk(stack[j], locals);
    }
  }

  lemma SavedSlots(stack: seq<Entry>, first: int, i: nat, v: Val)
    requires Slots(stack, first) && i < |stack|
    ensures Slots(stack[i := stack[i].(val := v)], first)
  {
    hide AlignUp;
    var t := stack[i := stack[i].(val := v)];
    forall j | 0 <= j < |t|
      ensures Follows(t, j)
    {
      assert Follows(stack, j);
    }
  }

  /** A scratch register nothing else uses. */
  predicate Unused(stack: seq<Entry>, i: int, r: nat) {
    forall j :: 0 <= j < |stack| && j != i ==> !Uses(stack[j], r)
  }

  lemma RegisterFree(stack: seq<Entry>, locals: seq<Place>, first: int, i: nat, r: nat)
    requires StackOk(stack, locals, first) && i < |stack| && r < SCRATCH && Unused(stack, i, r)
    ensures FreeFor(stack, locals, i, Reg(r))
  {
    forall j | 0 <= j < |stack| && j != i && stack[j].val.At?
      ensures Apart(Reg(r), stack[i].ty, stack[j].val.loc, stack[j].ty) && Aligned(stack[j].val.loc)
    {
      assert PlaceOk(stack[j], locals) && !Uses(stack[j], r);
      var l := stack[j].val.loc;
      if !l.Imm? && !IsScratch(l) && l != Frame(stack[j].off) {
        var x :| 0 <= x < |locals| && locals[x] == Place(l, stack[j].ty);
        assert LocalOk(locals[x], first);
      }
    }
    forall x | 0 <= x < |locals|
      ensures Apart(Reg(r), stack[i].ty, locals[x].loc, locals[x].ty) && Aligned(locals[x].loc)
    {
      assert LocalOk(locals[x], first);
    }
  }

  lemma LoadedOk(stack: seq<Entry>, locals: seq<Place>, first: int, i: nat, r: nat)
    requires StackOk(stack, locals, first) && i < |stack| && r < SCRATCH && Unused(stack, i, r)
    ensures StackOk(stack[i := stack[i].(val := At(Reg(r)))], locals, first)
  {
    hide LocalsOk, Slots;
    SavedSlots(stack, first, i, At(Reg(r)));
    var t := stack[i := stack[i].(val := At(Reg(r)))];
    forall j | 0 <= j < |t|
      ensures PlaceOk(t[j], locals)
    {
      assert PlaceOk(stack[j], locals);
    }
    forall j, k | 0 <= j < k < |t| && t[j].val.At? && IsScratch(t[j].val.loc)
      ensures t[k].val != t[j].val
    {
      assert j != i ==> !Uses(stack[j], r);
      assert k != i ==> !Uses(stack[k], r);
    }
  }

  // ---------------------------------------------------------- the code generator

  /** The code has grown by instructions that keep every value. */
  ghost predicate Moved(locals: seq<Place>, s: seq<Entry>, t: seq<Entry>, code0: seq<Emit>, code1: seq<Emit>) {
    |code0| <= |code1| && code1[..|code0|] == code0 && Keeps(locals, s, t, code1[|code0|..])
  }

  lemma MovedThen(locals: seq<Place>, s: seq<Entry>, t: seq<Entry>, u: seq<Entry>, c0: seq<Emit>, c1: seq<Emit>,
                  c2: seq<Emit>)
    requires Moved(locals, s, t, c0, c1) && Moved(locals, t, u, c1, c2)
    ensures Moved(locals, s, u, c0, c2)
  {
    hide Keeps;
    assert c2[|c0|..] == c1[|c0|..] + c2[|c1|..];
    KeepsThen(locals, s, t, u, c1[|c0|..], c2[|c1|..]);
  }

  lemma MovedNot(locals: seq<Place>, s: seq<Entry>, c: seq<Emit>)
    ensures Moved(locals, s, s, c, c)
  {
    assert c[|c|..] == [];
    KeepsNothing(locals, s);
  }

  lemma MovedOne(locals: seq<Place>, s: seq<Entry>, i: nat, dst: Loc, c: seq<Emit>)
    requires i < |s| && FreeFor(s, locals, i, dst)
    ensures Moved(locals, s, s[i := s[i].(val := At(dst))], c, c + [Transfer(s[i], dst)])
  {
    assert (c + [Transfer(s[i], dst)])[|c|..] == [Transfer(s[i], dst)];
    TransferKeeps(s, locals, i, dst);
  }

  /** A place that the code may write: a scratch register, the frame from `low` up, or a local. */
  predicate TameAt(ty: Ty, l: Loc, locals: seq<Place>, low: int) {
    IsScratch(l) || (l.Frame? && l.off >= low) || exists x :: 0 <= x < |locals| && locals[x] == Place(l, ty)
  }

  predicate Tame(e: Emit, locals: seq<Place>, low: int) {
    match e
    case Move(ty, dst, _) => TameAt(ty, dst, locals, low)
    case SetFlag(dst, _) => TameAt(I32, dst, locals, low)
    case Op2(_, ty, dst, _, _) => TameAt(ty, dst, locals, low)
    case Unless(_, ty, dst, _) => TameAt(ty, dst, locals, low)
    case _ => true
  }

  /** The code writes nothing else. */
  ghost predicate AllTame(es: seq<Emit>, locals: seq<Place>, low: int) {
    forall k :: 0 <= k < |es| ==> Tame(es[k], locals, low)
  }

  lemma TameMore(es: seq<Emit>, e: Emit, locals: seq<Place>, low: int)
    requires AllTame(es, locals, low) && Tame(e, locals, low)
    ensures AllTame(es + [e], locals, low)
  {
    hide Tame;
  }

  lemma SaveTame(stack: seq<Entry>, locals: seq<Place>, first: int, i: nat)
    requires StackOk(stack, locals, first) && i < |stack|
    ensures Tame(Transfer(stack[i], Frame(stack[i].off)), locals, first)
  {
  }

  /** Not all scratch registers are set aside. */
  ghost predicate SomeFree(reserved: set<nat>) {
    exists r: nat :: r < SCRATCH && r !in reserved
  }

  class Generator {
    const locals: seq<Place>
    const first: int
    var stack: seq<Entry>
    var code: seq<Emit>
    var reserved: set<nat>

    ghost predicate Valid()
      reads this
    {
      StackOk(stack, locals, first) && SomeFree(reserved) && AllTame(code, locals, first)
    }

    constructor (places: seq<Place>, offset: int)
      requires LocalsOk(places, offset) && offset % 4 == 0
      ensures Valid() && locals == places && first == offset && stack == [] && code == []
    {
      locals, first, stack, code, reserved := places, offset, [], [], {};
      new;
      NothingStacked(locals, first);
      assert 0 !in reserved;
    }

    /** `pwart_EmitSaveStack`. */
    method SaveStack(i: nat)
      requires Valid() && i < |stack|
      modifies this`stack, this`code
      ensures Valid() && stack == Saved(old(stack), i)
      ensures Moved(locals, old(stack), stack, old(code), code)
      ensures old(stack[i]).val == At(Frame(old(stack[i]).off)) ==> code == old(code)
      ensures old(stack[i]).val != At(Frame(old(stack[i]).off)) ==>
        code == old(code) + [Transfer(old(stack[i]), Frame(old(stack[i]).off))]
    {
      hide StackOk, Moved, FreeFor, AllTame;
      var e := stack[i];
      if e.val == At(Frame(e.off)) {
        MovedNot(locals, stack, code);
        assert stack == Saved(stack, i);
        return;
      }
      SlotFree(stack, locals, first, i);
      SavedOk(stack, locals, first, i);
      MovedOne(locals, stack, i, Frame(e.off), code);
      SaveTame(stack, locals, first, i);
      TameMore(code, Transfer(e, Frame(e.off)), locals, first);
      code := code + [Transfer(e, Frame(e.off))];
      stack := stack[i := e.(val := At(Frame(e.off)))];
    }

    /** `stackvalue_FindSvalueUseReg`: the lowest entry, up to `upstack` below the top, in register `r`. */
    method FindUser(r: nat, upstack: nat) returns (i: int)
      ensures -1 <= i < |stack| - upstack || i == -1
      ensures i >= 0 ==> Uses(stack[i], r) && forall j :: 0 <= j < i ==> !Uses(stack[j], r)
      ensures i == -1 ==> forall j :: 0 <= j < |stack| - upstack ==> !Uses(stack[j], r)
    {
      var k := 0;
      while k < |stack| - upstack
        invariant 0 <= k && forall j :: 0 <= j < k && j < |stack| ==> !Uses(stack[j], r)
      {
        if stack[k].val == At(Reg(r)) {
          return k;
        }
        k := k + 1;
      }
      return -1;
    }

    /** `pwart_GetFreeReg`: a register that no entry up to `upstack` below the top uses;
        when all are taken, the user of the last one goes to its slot. */
    method GetFreeReg(upstack: nat) returns (r: nat)
      requires Valid()
      modifies this`stack, this`code
      ensures Valid() && r < SCRATCH && r !in reserved && |stack| == |old(stack)|
      ensures forall j :: 0 <= j < |stack| - upstack ==> !Uses(stack[j], r)
      ensures forall j :: 0 <= j < |stack| && j >= |stack| - upstack ==> stack[j] == old(stack[j])
      ensures forall j :: 0 <= j < |stack| ==>
        stack[j] == old(stack[j]) || stack[j] == old(stack[j]).(val := At(Frame(old(stack[j]).off)))
      ensures Moved(locals, old(stack), stack, old(code), code)
    {
      hide Moved, StackOk, AllTame;
      MovedNot(locals, stack, code);
      ghost var spare: nat :| spare < SCRATCH && spare !in reserved;
      var fr, user, holder := 0, -1, 0;
      while fr < SCRATCH
        invariant 0 <= fr <= SCRATCH && -1 <= user < |stack|
        invariant user >= 0 ==>
          user < |stack| - upstack && Uses(stack[user], holder) && holder < SCRATCH && holder !in reserved
        invariant user == -1 ==> fr <= spare
        modifies {}
      {
        if fr !in reserved {
          var i := FindUser(fr, upstack);
          if i == -1 {
            return fr;
          }
          user, holder := i, fr;
        }
        fr := fr + 1;
      }
      r := stack[user].val.loc.r;
      ghost var before := stack;
      SaveStack(user);
      OneUser(before, locals, first, user, r);
    }

    /** `pwart_EmitLoadReg` into a register that is free, with the entry updated as
        `pwart_EmitStackValueLoadReg` does. */
    method LoadInto(i: nat, r: nat)
      requires Valid() && i < |stack| && r < SCRATCH && Unused(stack, i, r)
      modifies this`stack, this`code
      ensures Valid() && stack == old(stack)[i := old(stack[i]).(val := At(Reg(r)))]
      ensures Moved(locals, old(stack), stack, old(code), code)
    {
      hide StackOk, Moved, FreeFor, AllTame;
      RegisterFree(stack, locals, first, i, r);
      LoadedOk(stack, locals, first, i, r);
      MovedOne(locals, stack, i, Reg(r), code);
      TameMore(code, Transfer(stack[i], Reg(r)), locals, first);
      code := code + [Transfer(stack[i], Reg(r))];
      stack := stack[i := stack[i].(val := At(Reg(r)))];
    }
  }

  lemma NothingStacked(locals: seq<Place>, first: int)
    requires LocalsOk(locals, first) && first % 4 == 0
    ensures StackOk([], locals, first)
  {
  }

  lemma OneUser(stack: seq<Entry>, locals: seq<Place>, first: int, i: nat, r: nat)
    requires StackOk(stack, locals, first) && i < |stack| && Uses(stack[i], r) && r < SCRATCH
    ensures Unused(stack, i, r) && Unused(Saved(stack, i), -1, r)
  {
    forall j | 0 <= j < |stack| && j != i
      ensures !Uses(stack[j], r)
    {
      if j < i {
        assert stack[j].val.At? && IsScratch(stack[j].val.loc) ==> stack[i].val != stack[j].val;
      } else {
        assert stack[i].val.At? && IsScratch(stack[i].val.loc);
      }
    }
  }
}
