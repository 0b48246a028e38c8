/** How `pwart_EmitCallFunc2` brings arguments to their places: saving scratch registers,
    and the two ways of laying the arguments out. */
module CallLayout {
  import opened LazyMachine
  import opened LazyStack
  import opened LazyOps
  import opened Frames
  import opened Twins

  // ------------------------------------------------------- saving what may be lost

  predicate InScratch(e: Entry) {
    e.val.At? && IsScratch(e.val.loc)
  }

  /** An entry once nothing is left in scratch registers. */
  function Spilled(e: Entry): Entry {
    if InScratch(e) then e.(val := At(Frame(e.off))) else e
  }

  ghost predicate SparesWord(es: seq<Emit>, o: int) {
    forall m :: Word(Run(es, m).frame, o) == Word(m.frame, o)
  }

  /** No slot of the stack covers the word. */
  predicate Outside(s: seq<Entry>, o: int) {
    forall j :: 0 <= j < |s| ==> o < s[j].off || s[j].off + Size(s[j].ty) <= o
  }

  lemma SaveSparesWord(e: Entry, off: int, o: int)
    requires o % 4 == 0 && off % 4 == 0 && (o < off || off + Size(e.ty) <= o) && (e.val.Cmp? ==> e.ty.I32?)
    ensures SparesWord([Transfer(e, Frame(off))], o)
  {
    hide Read;
    forall m
      ensures Word(Run([Transfer(e, Frame(off))], m).frame, o) == Word(m.frame, o)
    {
      RunOne(Transfer(e, Frame(off)), m);
    }
  }

  lemma SparesWordThen(es: seq<Emit>, fs: seq<Emit>, o: int)
    requires SparesWord(es, o) && SparesWord(fs, o)
    ensures SparesWord(es + fs, o)
  {
    hide Word, Run;
    forall m
      ensures Word(Run(es + fs, m).frame, o) == Word(m.frame, o)
    {
      RunConcat(es, fs, m);
    }
  }

  /** Some entries have gone to their slots. */
  ghost predicate Spills(s: seq<Entry>, t: seq<Entry>) {
    |t| == |s| && forall j :: 0 <= j < |t| ==> t[j] == s[j] || t[j] == s[j].(val := At(Frame(s[j].off)))
  }

  /** Only entry `j` depends on word `o` of its slot or on register `r`. */
  ghost predicate Lone(s: seq<Entry>, j: nat, r: int, o: int) {
    && j < |s| && o % 4 == 0 && s[j].off % 4 == 0 && s[j].off <= o < s[j].off + Size(s[j].ty)
    && (s[j].val == At(Frame(s[j].off)) || (r >= 0 && s[j].val == At(Reg(r))))
    && forall q :: 0 <= q < |s| && q != j ==> SourceAvoids(s[q], Gap(r, s[j].ty, s[j].off, o))
  }

  predicate SourceAvoids(e: Entry, g: Gap) {
    (e.val.At? ==> Avoids(g, e.ty, e.val.loc)) && Avoids(g, e.ty, Frame(e.off))
  }

  /** The code has grown by saves that keep every value, every word between slots, and
      the likeness of machines that differ in one entry alone. */
  ghost predicate SavedOnly(locals: seq<Place>, s: seq<Entry>, t: seq<Entry>, c0: seq<Emit>, c1: seq<Emit>) {
    && Spills(s, t) && Moved(locals, s, t, c0, c1)
    && (forall o :: o % 4 == 0 && Outside(s, o) ==> SparesWord(c1[|c0|..], o))
    && forall j: nat, r: int, o: int :: j < |s| && Lone(s, j, r, o) ==>
      TwinKept(Gap(r, s[j].ty, s[j].off, o), c1[|c0|..])
  }

  lemma SavedNothing(locals: seq<Place>, s: seq<Entry>, c: seq<Emit>)
    ensures SavedOnly(locals, s, s, c, c)
  {
    hide Twin, Lone;
    MovedNot(locals, s, c);
    assert c[|c|..] == [];
  }

  lemma LoneKept(s: seq<Entry>, t: seq<Entry>, j: nat, r: int, o: int)
    requires Spills(s, t) && Lone(s, j, r, o)
    ensures Lone(t, j, r, o) && t[j].ty == s[j].ty && t[j].off == s[j].off
  {
    hide Avoids;
    forall q | 0 <= q < |t| && q != j
      ensures SourceAvoids(t[q], Gap(r, t[j].ty, t[j].off, o))
    {
      assert SourceAvoids(s[q], Gap(r, s[j].ty, s[j].off, o));
    }
  }

  lemma SavedThen(locals: seq<Place>, s: seq<Entry>, t: seq<Entry>, u: seq<Entry>, c0: seq<Emit>, c1: seq<Emit>,
                  c2: seq<Emit>)
    requires SavedOnly(locals, s, t, c0, c1) && SavedOnly(locals, t, u, c1, c2)
    ensures SavedOnly(locals, s, u, c0, c2)
  {
    hide SparesWord, Moved, Lone, TwinKept;
    MovedThen(locals, s, t, u, c0, c1, c2);
    MovedPrefix(locals, s, t, c0, c1);
    MovedPrefix(locals, t, u, c1, c2);
    assert c2[|c0|..] == c1[|c0|..] + c2[|c1|..];
    forall o | o % 4 == 0 && Outside(s, o)
      ensures SparesWord(c2[|c0|..], o)
    {
      assert Outside(t, o);
      SparesWordThen(c1[|c0|..], c2[|c1|..], o);
    }
    forall j: nat, r: int, o: int | j < |s| && Lone(s, j, r, o)
      ensures TwinKept(Gap(r, s[j].ty, s[j].off, o), c2[|c0|..])
    {
      LoneKept(s, t, j, r, o);
      TwinKeptThen(Gap(r, s[j].ty, s[j].off, o), c1[|c0|..], c2[|c1|..]);
    }
  }

  lemma MovedPrefix(locals: seq<Place>, s: seq<Entry>, t: seq<Entry>, c0: seq<Emit>, c1: seq<Emit>)
    requires Moved(locals, s, t, c0, c1)
    ensures |c0| <= |c1| && c1[..|c0|] == c0
  {
  }

  /** `pwart_EmitSaveStack` as one such save. */
  method Save(g: Generator, i: nat)
    requires g.Valid() && Settled(g.stack) && i < |g.stack|
    modifies g`stack, g`code
    ensures g.Valid() && Settled(g.stack) && g.stack == Saved(old(g.stack), i)
    ensures SavedOnly(g.locals, old(g.stack), g.stack, old(g.code), g.code)
  {
    hide StackOk, Moved, SparesWord, Transfer, Lone, TwinKept;
    ghost var s, c := g.stack, g.code;
    g.SaveStack(i);
    SettledAll(s, g.locals, g.first);
    SlotsKnown(s, g.locals, g.first);
    ghost var es := g.code[|c|..];
    assert es == [] || (es == [Transfer(s[i], Frame(s[i].off))] && s[i].val != At(Frame(s[i].off)));
    forall o | o % 4 == 0 && Outside(s, o)
      ensures SparesWord(es, o)
    {
      SaveSparesWord(s[i], s[i].off, o);
      SparesWordNothing(o);
    }
    forall j: nat, r: int, o: int | j < |s| && Lone(s, j, r, o)
      ensures TwinKept(Gap(r, s[j].ty, s[j].off, o), es)
    {
      TwinNothing(Gap(r, s[j].ty, s[j].off, o));
      if es != [] {
        SaveKeepsTwins(s, i, j, r, o);
      }
    }
  }

  lemma SaveKeepsTwins(s: seq<Entry>, i: nat, j: nat, r: int, o: int)
    requires i < |s| && s[i].val.At? && s[i].val != At(Frame(s[i].off)) && s[i].off % 4 == 0 && Lone(s, j, r, o)
    ensures TwinKept(Gap(r, s[j].ty, s[j].off, o), [Transfer(s[i], Frame(s[i].off))])
  {
    hide Twin, Avoids;
    var g := Gap(r, s[j].ty, s[j].off, o);
    if i == j {
      OwnTwins(g);
    } else {
      assert SourceAvoids(s[i], g);
      OtherTwins(g, s[i].ty, s[i].off, s[i].val.loc);
    }
  }

  lemma SlotsKnown(s: seq<Entry>, locals: seq<Place>, first: int)
    requires StackOk(s, locals, first)
    ensures Slots(s, first) && LocalsOk(locals, first)
  {
  }

  lemma SparesWordNothing(o: int)
    ensures SparesWord([], o)
  {
  }

  /** `pwart_EmitSaveScratchRegisterAll`: no value is left in a scratch register. */
  method SaveScratchAll(g: Generator)
    requires g.Valid() && Settled(g.stack)
    modifies g`stack, g`code
    ensures g.Valid() && Settled(g.stack) && SavedOnly(g.locals, old(g.stack), g.stack, old(g.code), g.code)
    ensures NoScratch(g.stack) && g.stack == AllSpilled(old(g.stack))
  {
    hide StackOk, SavedOnly, Settled, AllSpilled;
    ghost var s0, c0 := g.stack, g.code;
    SavedNothing(g.locals, s0, c0);
    var i := 0;
    while i < |g.stack|
      invariant 0 <= i <= |g.stack| && g.Valid() && Settled(g.stack)
      invariant SavedOnly(g.locals, s0, g.stack, c0, g.code)
      invariant |g.stack| == |s0| && forall j :: 0 <= j < |s0| ==> g.stack[j] == if j < i then Spilled(s0[j]) else s0[j]
      modifies g`stack, g`code
      decreases |g.stack| - i
    {
      ghost var s1, c1 := g.stack, g.code;
      if g.stack[i].val.At? && g.stack[i].val.loc.Reg? && g.stack[i].val.loc.r < SCRATCH {
        Save(g, i);
        SavedThen(g.locals, s0, s1, g.stack, c0, c1, g.code);
      }
      i := i + 1;
    }
    AllOf(s0, g.stack);
  }

  predicate NoScratch(s: seq<Entry>) {
    forall j :: 0 <= j < |s| ==> !InScratch(s[j])
  }

  function AllSpilled(s: seq<Entry>): (t: seq<Entry>)
    ensures |t| == |s|
  {
    seq(|s|, j requires 0 <= j < |s| => Spilled(s[j]))
  }

  lemma AllOf(s: seq<Entry>, t: seq<Entry>)
    requires |t| == |s| && forall j :: 0 <= j < |s| ==> t[j] == Spilled(s[j])
    ensures t == AllSpilled(s) && NoScratch(t)
  {
  }

  // --------------------------------------------------------- where arguments lie

  /** The arguments start at entry `k`; each is laid out right after the one before. */
  predicate Contiguous(s: seq<Entry>, k: nat) {
    forall i :: k < i < |s| ==> s[i].off == AlignUp(s[i - 1].off + Size(s[i - 1].ty), s[i].ty)
  }

  predicate InSlots(s: seq<Entry>, k: nat) {
    forall i :: k <= i < |s| ==> s[i].val == At(Frame(s[i].off))
  }

  /** The types of the arguments are those of the parameters. */
  predicate Suits(s: seq<Entry>, k: nat, params: seq<Ty>) {
    k + |params| == |s| && forall i :: 0 <= i < |params| ==> s[k + i].ty == params[i]
  }

  /** Laid out without gaps from a multiple of eight, arguments are where parameters are expected. */
  lemma {:induction false} ContiguousPlaces(s: seq<Entry>, k: nat, params: seq<Ty>, i: nat)
    requires Suits(s, k, params) && i < |params| && s[k].off % 8 == 0 && Contiguous(s, k)
    ensures s[k + i].off == s[k].off + OffsetOf(params, i)
    decreases i
  {
    hide AlignUp, Size;
    EndAligned(params, i);
    AlignFrom(s[k].off, EndOf(params, i), params[i]);
    if i > 0 {
      ContiguousPlaces(s, k, params, i - 1);
      EndNext(params, i - 1);
      var j := k + i;
      assert s[j].off == AlignUp(s[j - 1].off + Size(s[j - 1].ty), s[j].ty);
    } else {
      EndStart(params);
      FirstPlace(params);
    }
  }

  lemma FirstPlace(params: seq<Ty>)
    requires params != []
    ensures OffsetOf(params, 0) == 0
  {
  }

  // ------------------------------------------------------------ the aligned case

  /** First argument at a multiple of eight: every argument goes to its slot. */
  method SaveArguments(g: Generator, k: nat)
    requires g.Valid() && Settled(g.stack) && k <= |g.stack|
    modifies g`stack, g`code
    ensures g.Valid() && Settled(g.stack) && SavedOnly(g.locals, old(g.stack), g.stack, old(g.code), g.code)
    ensures InSlots(g.stack, k)
    ensures forall j :: 0 <= j < k ==> g.stack[j] == old(g.stack)[j]
  {
    hide StackOk, SavedOnly, Settled;
    ghost var s0, c0 := g.stack, g.code;
    SavedNothing(g.locals, s0, c0);
    var i := k;
    while i < |g.stack|
      invariant k <= i <= |g.stack| == |s0| && g.Valid() && Settled(g.stack)
      invariant SavedOnly(g.locals, s0, g.stack, c0, g.code)
      invariant forall j :: k <= j < i ==> g.stack[j].val == At(Frame(g.stack[j].off))
      invariant forall j :: 0 <= j < k ==> g.stack[j] == s0[j]
      modifies g`stack, g`code
      decreases |g.stack| - i
    {
      ghost var s1, c1 := g.stack, g.code;
      Save(g, i);
      SavedThen(g.locals, s0, s1, g.stack, c0, c1, g.code);
      i := i + 1;
    }
  }

  // ---------------------------------------------------------- the realigning case

  /** Where argument `j` is moved: four bytes up, and from there on without gaps. */
  function NewOff(s: seq<Entry>, k: nat, j: nat): int
    requires k <= j < |s|
    decreases j
  {
    if j == k then s[k].off + 4 else AlignUp(NewOff(s, k, j - 1) + Size(s[j - 1].ty), s[j].ty)
  }

  function Realigned(s: seq<Entry>, k: nat): (t: seq<Entry>)
    ensures |t| == |s|
  {
    seq(|s|, j requires 0 <= j < |s| => if j < k then s[j] else s[j].(off := NewOff(s, k, j)))
  }

  lemma {:induction false} NewOffAligned(s: seq<Entry>, k: nat, j: nat)
    requires k <= j < |s| && s[k].off % 4 == 0
    ensures NewOff(s, k, j) % 4 == 0
    decreases j
  {
    hide AlignUp, Size;
    if k < j {
      NewOffAligned(s, k, j - 1);
      EndFour(NewOff(s, k, j - 1), s[j - 1].ty);
      AlignUpFits(NewOff(s, k, j - 1) + Size(s[j - 1].ty), s[j].ty);
    }
  }

  lemma RealignedLaid(s: seq<Entry>, k: nat)
    requires k < |s| && forall j :: 0 <= j < |s| ==> s[j].off % 4 == 0
    ensures var t := Realigned(s, k);
      && t[k].off == s[k].off + 4 && Contiguous(t, k)
      && (forall j :: 0 <= j < |s| ==> t[j] == s[j].(off := t[j].off) && t[j].off % 4 == 0)
      && forall j :: 0 <= j < k ==> t[j] == s[j]
  {
    hide AlignUp, Size, NewOff;
    NewOffFirst(s, k);
    var t := Realigned(s, k);
    forall j | 0 <= j < |s|
      ensures t[j] == s[j].(off := t[j].off) && t[j].off % 4 == 0
    {
      if j >= k {
        NewOffAligned(s, k, j);
      }
    }
    forall i | k < i < |t|
      ensures t[i].off == AlignUp(t[i - 1].off + Size(t[i - 1].ty), t[i].ty)
    {
      NewOffNext(s, k, i);
    }
  }

  lemma NewOffFirst(s: seq<Entry>, k: nat)
    requires k < |s|
    ensures NewOff(s, k, k) == s[k].off + 4
  {
  }

  lemma NewOffNext(s: seq<Entry>, k: nat, i: nat)
    requires k < i < |s|
    ensures NewOff(s, k, i) == AlignUp(NewOff(s, k, i - 1) + Size(s[i - 1].ty), s[i].ty)
  {
  }

  function Laid(s: seq<Entry>, i: nat, off: int): seq<Entry>
    requires i < |s|
  {
    s[i := s[i].(off := off)]
  }

  /** The loop that gives the arguments their new offsets. */
  method LayOut(s: seq<Entry>, k: nat) returns (t: seq<Entry>)
    requires k < |s|
    ensures t == Realigned(s, k)
  {
    hide AlignUp, Size;
    t := Laid(s, k, s[k].off + 4);
    var a, b := k + 1, t[k].off + Size(t[k].ty);
    while a < |t|
      invariant k < a <= |t| == |s| && b == NewOff(s, k, a - 1) + Size(s[a - 1].ty)
      invariant forall j :: 0 <= j < |s| ==> t[j] == if k <= j < a then s[j].(off := NewOff(s, k, j)) else s[j]
    {
      NewOffNext(s, k, a);
      t := Laid(t, a, AlignUp(b, t[a].ty));
      b := t[a].off + Size(t[a].ty);
      a := a + 1;
    }
  }

  lemma EndFour(off: int, ty: Ty)
    requires off % 4 == 0
    ensures (off + Size(ty)) % 4 == 0
  {
  }

  /** Saving from the last argument to the first never runs over an argument that is
      still in its old slot. */
  predicate NoOverrun(s: seq<Entry>, t: seq<Entry>, k: nat)
    requires |t| == |s|
  {
    forall j, i :: k <= j < i < |s| && s[j].val == At(Frame(s[j].off)) ==>
      t[i].off + Size(t[i].ty) <= s[j].off || s[j].off + Size(s[j].ty) <= t[i].off
  }

  lemma {:induction false} NewSlotsApart(t: seq<Entry>, k: nat, i: nat, j: nat)
    requires Contiguous(t, k) && k <= i < j < |t| && forall j :: 0 <= j < |t| ==> t[j].off % 4 == 0
    ensures t[i].off + Size(t[i].ty) <= t[j].off
    decreases j
  {
    hide AlignUp, Size;
    EndFour(t[j - 1].off, t[j - 1].ty);
    AlignUpFits(t[j - 1].off + Size(t[j - 1].ty), t[j].ty);
    SizePositive(t[j - 1].ty);
    if i < j - 1 {
      NewSlotsApart(t, k, i, j - 1);
    }
  }

  /** The new slot of argument `i` is free once the later arguments have moved. */
  lemma NewSlotFree(u: seq<Entry>, s: seq<Entry>, t: seq<Entry>, locals: seq<Place>, first: int, k: nat, i: nat)
    requires StackOk(s, locals, first) && Settled(s) && NoScratch(s)
    requires |t| == |s| && k <= i < |s| && Contiguous(t, k) && t[k].off >= s[k].off
    requires forall j :: 0 <= j < |s| ==> t[j] == s[j].(off := t[j].off) && t[j].off % 4 == 0
    requires forall j :: 0 <= j < k ==> t[j] == s[j]
    requires NoOverrun(s, t, k)
    requires |u| == |t| && (forall j :: 0 <= j <= i ==> u[j] == t[j])
      && (forall j :: i < j < |u| ==> u[j] == t[j].(val := At(Frame(t[j].off))))
    ensures FreeFor(u, locals, i, Frame(t[i].off))
  {
    hide Contiguous, Size;
    NewAbove(s, t, locals, first, k, i);
    forall j | 0 <= j < |u| && j != i && u[j].val.At?
      ensures Apart(Frame(t[i].off), u[i].ty, u[j].val.loc, u[j].ty) && Aligned(u[j].val.loc)
    {
      if j > i {
        NewSlotsApart(t, k, i, j);
      } else {
        assert PlaceOk(s[j], locals) && !InScratch(s[j]);
        OldPlaceApart(s, t, locals, first, k, j, i);
      }
    }
    forall x | 0 <= x < |locals|
      ensures Apart(Frame(t[i].off), u[i].ty, locals[x].loc, locals[x].ty) && Aligned(locals[x].loc)
    {
      assert LocalOk(locals[x], first);
    }
  }

  lemma NewAbove(s: seq<Entry>, t: seq<Entry>, locals: seq<Place>, first: int, k: nat, i: nat)
    requires StackOk(s, locals, first) && |t| == |s| && k <= i < |s| && Contiguous(t, k) && t[k].off >= s[k].off
    requires forall j :: 0 <= j < |s| ==> t[j].off % 4 == 0
    ensures t[i].off >= s[k].off >= first && forall j :: 0 <= j < k ==> s[j].off + Size(s[j].ty) <= t[i].off
  {
    hide Contiguous, Size;
    if i > k {
      NewSlotsApart(t, k, k, i);
      SizePositive(t[k].ty);
    }
  }

  lemma OldPlaceApart(s: seq<Entry>, t: seq<Entry>, locals: seq<Place>, first: int, k: nat, j: nat, i: nat)
    requires StackOk(s, locals, first) && Settled(s) && |t| == |s| && j < i < |s| && k <= i && !InScratch(s[j])
    requires t[i].off >= first && (j < k ==> s[j].off + Size(s[j].ty) <= t[i].off) && NoOverrun(s, t, k)
    requires t[j].ty == s[j].ty
    ensures s[j].val.At? && Apart(Frame(t[i].off), t[i].ty, s[j].val.loc, s[j].ty) && Aligned(s[j].val.loc)
  {
    assert PlaceOk(s[j], locals);
    var l := s[j].val.loc;
    if !l.Imm? && l != Frame(s[j].off) {
      var x :| 0 <= x < |locals| && locals[x] == Place(l, s[j].ty);
      assert LocalOk(locals[x], first);
    }
  }

  lemma KeepsOffsets(locals: seq<Place>, s: seq<Entry>, t: seq<Entry>)
    requires |t| == |s| && forall j :: 0 <= j < |s| ==> t[j].ty == s[j].ty && t[j].val == s[j].val
    ensures Keeps(locals, s, t, [])
  {
    hide Read;
    forall m, w | Rel(s, locals, m, w)
      ensures Rel(t, locals, Run([], m), w)
    {
      assert forall j :: 0 <= j < |s| ==> Denote(t[j], m) == Denote(s[j], m);
    }
  }

  /** What is left to do for the arguments before `i`. */
  function Moving(t: seq<Entry>, i: int): (u: seq<Entry>)
    ensures |u| == |t|
  {
    seq(|t|, j requires 0 <= j < |t| => if j < i then t[j] else t[j].(val := At(Frame(t[j].off))))
  }

  /** The code for that. */
  function Resaves(t: seq<Entry>, i: nat): seq<Emit>
    requires i <= |t|
    decreases |t| - i
  {
    if i == |t| then [] else Resaves(t, i + 1) + if t[i].val == At(Frame(t[i].off)) then []
      else [Transfer(t[i], Frame(t[i].off))]
  }

  lemma {:induction false} ResavesTame(t: seq<Entry>, k: nat, locals: seq<Place>, low: int)
    requires k <= |t| && forall q :: k <= q < |t| ==> t[q].off >= low
    ensures AllTame(Resaves(t, k), locals, low)
    decreases |t| - k
  {
    if k < |t| {
      ResavesTame(t, k + 1, locals, low);
      if t[k].val != At(Frame(t[k].off)) {
        TameMore(Resaves(t, k + 1), Transfer(t[k], Frame(t[k].off)), locals, low);
      } else {
        assert Resaves(t, k) == Resaves(t, k + 1);
      }
    }
  }

  /** Moved up, the arguments are still within the frame. */
  lemma RealignedTame(s: seq<Entry>, locals: seq<Place>, first: int, k: nat, c: seq<Emit>)
    requires StackOk(s, locals, first) && k < |s| && AllTame(c, locals, first)
    ensures AllTame(c + Resaves(Realigned(s, k), k), locals, first)
  {
    hide StackOk, AllTame, Realigned, Contiguous;
    SlotsKnown(s, locals, first);
    RealignedLaid(s, k);
    var t := Realigned(s, k);
    forall q | k <= q < |t|
      ensures t[q].off >= first
    {
      NewAbove(s, t, locals, first, k, q);
    }
    ResavesTame(t, k, locals, first);
    TameBoth(c, Resaves(t, k), locals, first);
  }

  lemma TameBoth(a: seq<Emit>, b: seq<Emit>, locals: seq<Place>, low: int)
    requires AllTame(a, locals, low) && AllTame(b, locals, low)
    ensures AllTame(a + b, locals, low)
  {
    hide Tame;
  }

  /** The loop that saves the arguments again, from the last to the first. */
  method Resave(t: seq<Entry>, k: nat, ghost s: seq<Entry>, ghost locals: seq<Place>, ghost first: int)
    returns (u: seq<Entry>, es: seq<Emit>)
    requires StackOk(s, locals, first) && Settled(s) && NoScratch(s)
    requires k < |s| && t == Realigned(s, k)
    ensures u == Moving(t, k) && es == Resaves(t, k)
    ensures NoOverrun(s, t, k) ==> Keeps(locals, t, u, es)
  {
    hide StackOk, Keeps, Settled, Realigned, Contiguous, NoOverrun, Transfer;
    SlotsKnown(s, locals, first);
    RealignedLaid(s, k);
    u, es := t, [];
    var i := |t|;
    MovingNone(t);
    KeepsNothing(locals, t);
    while i > k
      invariant k <= i <= |t| && u == Moving(t, i) && es == Resaves(t, i)
      invariant NoOverrun(s, t, k) ==> Keeps(locals, t, u, es)
    {
      i := i - 1;
      ghost var u0 := u;
      var e := u[i];
      assert e == t[i];
      if e.val != At(Frame(e.off)) {
        if NoOverrun(s, t, k) {
          ResaveOne(t, k, s, locals, first, i, es);
        }
        es := es + [Transfer(e, Frame(e.off))];
        u := u[i := e.(val := At(Frame(e.off)))];
      }
      assert u == Moving(t, i);
    }
  }

  lemma MovingNone(t: seq<Entry>)
    ensures Moving(t, |t|) == t
  {
  }

  lemma ResaveOne(t: seq<Entry>, k: nat, s: seq<Entry>, locals: seq<Place>, first: int, i: nat, es: seq<Emit>)
    requires StackOk(s, locals, first) && Settled(s) && NoScratch(s)
    requires k <= i < |s| && t == Realigned(s, k) && NoOverrun(s, t, k) && Keeps(locals, t, Moving(t, i + 1), es)
    ensures Keeps(locals, t, Moving(t, i + 1)[i := t[i].(val := At(Frame(t[i].off)))],
                  es + [Transfer(t[i], Frame(t[i].off))])
  {
    hide StackOk, Keeps, Settled, Realigned, Contiguous, NoOverrun, FreeFor;
    SlotsKnown(s, locals, first);
    RealignedLaid(s, k);
    var u := Moving(t, i + 1);
    NewSlotFree(u, s, t, locals, first, k, i);
    TransferKeeps(u, locals, i, Frame(t[i].off));
    KeepsThen(locals, t, u, u[i := u[i].(val := At(Frame(t[i].off)))], es, [Transfer(u[i], Frame(t[i].off))]);
  }
}
