/** After a call: the results on the caller's stack, and what the callee must have left alone. */
module CallReturn {
  import opened LazyMachine
  import opened LazyStack
  import opened LazyOps
  import opened Frames
  import opened CallLayout
  import opened Calls

  // ------------------------------------------------------------ pushing the results

  /** The entry of result `i` of a call whose frame was at `base`. */
  function ResultAt(results: seq<Ty>, base: int, i: nat): Entry
    requires i < |results|
  {
    Entry(At(Frame(base + OffsetOf(results, i))), results[i], base + OffsetOf(results, i))
  }

  function Results(results: seq<Ty>, base: int): (s: seq<Entry>)
    ensures |s| == |results|
  {
    seq(|results|, i requires 0 <= i < |results| => ResultAt(results, base, i))
  }

  /** The next slot after the results so far is where the next result lies. */
  lemma NextResult(s: seq<Entry>, results: seq<Ty>, base: int, n: nat, first: int)
    requires 0 < n < |results| && base % 8 == 0
    ensures NextSlot(s + Results(results, base)[..n], results[n], first) == base + OffsetOf(results, n)
  {
    hide AlignUp, Size, EndOf, OffsetOf;
    EndNext(results, n - 1);
    EndAligned(results, n);
    AlignFrom(base, EndOf(results, n), results[n]);
    PlaceIsAligned(results, n);
    var t := s + Results(results, base)[..n];
    assert t[|t| - 1] == ResultAt(results, base, n - 1);
  }

  lemma ResultsGrow(s: seq<Entry>, results: seq<Ty>, base: int, n: nat)
    requires n < |results|
    ensures s + Results(results, base)[..n + 1] == s + Results(results, base)[..n] + [ResultAt(results, base, n)]
  {
  }

  lemma ResultAligned(results: seq<Ty>, base: int, n: nat)
    requires n < |results| && base % 8 == 0
    ensures (base + OffsetOf(results, n)) % 4 == 0 && OffsetOf(results, n) >= 0
      && (n == 0 ==> OffsetOf(results, n) == 0)
  {
    EndAligned(results, n);
    SumAligned(base, OffsetOf(results, n));
  }

  lemma SlotAtMost(s: seq<Entry>, ty: Ty, first: int, base: int)
    requires Slots(s, first) && base % 8 == 0 && base >= NextSlot(s, I32, first)
    ensures base >= NextSlot(s, ty, first)
  {
    hide Slots, AlignUp, Size;
    if s != [] {
      var top := s[|s| - 1];
      TopFour(s, first);
      EndFour(top.off, top.ty);
      AlignWord(top.off + Size(top.ty));
      UpToEight(top.off + Size(top.ty), base, ty);
    }
  }

  lemma UpToEight(end: int, base: int, ty: Ty)
    requires end % 4 == 0 && base % 8 == 0 && base >= end
    ensures base >= AlignUp(end, ty)
  {
    if ty.I64? && end % 8 > 0 {
      FourModEight(end);
    } else {
      AlignUpFits(end, ty);
    }
  }

  /** `pwart_EmitCallFunc2` after the call: the first result takes the place where the
      callee's frame was, the others follow. */
  method PushResults(g: Generator, results: seq<Ty>, base: int)
    requires g.Valid() && Settled(g.stack) && base % 8 == 0 && base >= NextSlot(g.stack, I32, g.first)
    modifies g`stack
    ensures g.Valid() && Settled(g.stack) && g.stack == old(g.stack) + Results(results, base)
  {
    hide StackOk, NextSlot, OffsetOf, EndOf, Slots, PlaceOk, Settled;
    ghost var s := g.stack;
    var a := 0;
    assert s + Results(results, base)[..0] == s;
    while a < |results|
      invariant 0 <= a <= |results| && g.Valid() && Settled(g.stack)
      invariant g.stack == s + Results(results, base)[..a]
      modifies g`stack
    {
      SettledAll(g.stack, g.locals, g.first);
      SlotsKnown(g.stack, g.locals, g.first);
      var off := NextSlot(g.stack, results[a], g.first);
      ResultAligned(results, base, a);
      if a == 0 {
        SlotAtMost(g.stack, results[a], g.first, base);
        off := base;
      } else {
        NextResult(s, results, base, a, g.first);
      }
      var e := Entry(At(Frame(off)), results[a], off);
      OwnPlace(e, g.locals);
      PushOk(g.stack, g.locals, g.first, e);
      ResultsGrow(s, results, base, a);
      SettledTop(g.stack, e);
      g.stack := g.stack + [e];
      a := a + 1;
    }
    assert Results(results, base)[..|results|] == Results(results, base);
  }

  lemma OwnPlace(e: Entry, locals: seq<Place>)
    requires e.val == At(Frame(e.off))
    ensures PlaceOk(e, locals)
  {
  }

  lemma SettledTop(s: seq<Entry>, e: Entry)
    requires e.val.At?
    ensures Settled(s + [e])
  {
  }

  // ----------------------------------------------------------- what the callee does

  /** What a callee whose frame is at `base` may not touch: saved registers, the machine
      stack of the caller, and the frame below `base`. */
  ghost predicate Respects(m: Machine, n: Machine, base: int) {
    && (forall r: nat :: r >= SCRATCH ==> Read(n, I64, Reg(r)) == Read(m, I64, Reg(r)))
    && n.locals == m.locals
    && forall o :: o < base ==> Word(n.frame, o) == Word(m.frame, o)
  }

  /** A value that the callee may not touch. */
  predicate Safe(ty: Ty, l: Loc, base: int) {
    !IsScratch(l) && (l.Frame? ==> l.off + Size(ty) <= base)
  }

  lemma SafeRead(m: Machine, n: Machine, base: int, ty: Ty, l: Loc)
    requires Respects(m, n, base) && Safe(ty, l, base)
    ensures Read(n, ty, l) == Read(m, ty, l)
  {
    if l.Reg? {
      assert Read(n, I64, Reg(l.r)) == Read(m, I64, Reg(l.r));
    } else if l.Frame? {
      assert Word(n.frame, l.off) == Word(m.frame, l.off);
      assert ty.I64? ==> Word(n.frame, l.off + 4) == Word(m.frame, l.off + 4);
    }
  }

  lemma EntrySafe(s: seq<Entry>, locals: seq<Place>, first: int, base: int, i: nat)
    requires StackOk(s, locals, first) && Settled(s) && NoScratch(s) && base >= NextSlot(s, I32, first) && i < |s|
    ensures s[i].val.At? && Safe(s[i].ty, s[i].val.loc, base)
  {
    hide NextSlot;
    SettledAll(s, locals, first);
    NextSlotFits(s, I32, first);
    assert PlaceOk(s[i], locals);
    var l := s[i].val.loc;
    if l.Frame? && l != Frame(s[i].off) {
      var x :| 0 <= x < |locals| && locals[x] == Place(l, s[i].ty);
      assert LocalOk(locals[x], first);
    }
  }

  lemma LocalSafe(s: seq<Entry>, locals: seq<Place>, first: int, base: int, x: nat)
    requires StackOk(s, locals, first) && base >= NextSlot(s, I32, first) && x < |locals|
    ensures Safe(locals[x].ty, locals[x].loc, base)
  {
    hide NextSlot;
    NextSlotFits(s, I32, first);
    assert LocalOk(locals[x], first);
  }

  lemma RelAcross(s: seq<Entry>, locals: seq<Place>, first: int, base: int, m: Machine, n: Machine, w: Wasm)
    requires StackOk(s, locals, first) && Settled(s) && NoScratch(s) && base >= NextSlot(s, I32, first)
    requires Rel(s, locals, m, w) && Respects(m, n, base)
    ensures Rel(s, locals, n, w)
  {
    hide StackOk, Settled, NoScratch, NextSlot, Respects, Safe, Read, InRange;
    forall i | 0 <= i < |s|
      ensures Denote(s[i], n) == Denote(s[i], m)
    {
      EntrySafe(s, locals, first, base, i);
      SafeRead(m, n, base, s[i].ty, s[i].val.loc);
    }
    forall x | 0 <= x < |locals|
      ensures Read(n, locals[x].ty, locals[x].loc) == Read(m, locals[x].ty, locals[x].loc)
    {
      LocalSafe(s, locals, first, base, x);
      SafeRead(m, n, base, locals[x].ty, locals[x].loc);
    }
  }

  /** When the call is over, the caller's values are what they were, and the results
      that the callee left at the start of its frame are on top of them. */
  lemma AfterCall(s: seq<Entry>, locals: seq<Place>, first: int, base: int, results: seq<Ty>, m: Machine, n: Machine,
                  w: Wasm, vs: seq<int>)
    requires StackOk(s, locals, first) && Settled(s) && NoScratch(s) && base >= NextSlot(s, I32, first)
    requires Rel(s, locals, m, w) && Respects(m, n, base)
    requires |vs| == |results| && LaidOut(n.frame, base, results, vs, |results|)
    requires forall i :: 0 <= i < |vs| ==> InRange(results[i], vs[i])
    ensures Rel(s + Results(results, base), locals, n, w.(stack := w.stack + vs))
  {
    hide StackOk, Settled, NoScratch, NextSlot, Respects, Fetch, OffsetOf, InRange;
    RelAcross(s, locals, first, base, m, n, w);
    var t := s + Results(results, base);
    var all := w.stack + vs;
    forall i | 0 <= i < |t|
      ensures InRange(t[i].ty, all[i]) && Denote(t[i], n) == all[i]
    {
      if i >= |s| {
        assert t[i] == ResultAt(results, base, i - |s|);
        assert Argument(n.frame, base, results, i - |s|) == vs[i - |s|];
      }
    }
  }

  /** The whole call: the callee finds the arguments, and once it has left its results
      the caller's stack stands for the arguments replaced by the results. */
  lemma WholeCall(locals: seq<Place>, s: seq<Entry>, t: seq<Entry>, first: int, params: seq<Ty>, results: seq<Ty>,
                  base: int, es: seq<Emit>,
                  m: Machine, n: Machine, w: Wasm, vs: seq<int>)
    requires |t| + |params| == |s| && Delivers(locals, s, t, params, base, es) && Rel(s, locals, m, w)
    requires StackOk(t, locals, first) && Settled(t) && NoScratch(t) && base >= NextSlot(t, I32, first)
    requires Respects(Run(es, m), n, base)
    requires |vs| == |results| && LaidOut(n.frame, base, results, vs, |results|)
    requires forall i :: 0 <= i < |vs| ==> InRange(results[i], vs[i])
    ensures |w.stack| == |s| && LaidOut(Run(es, m).frame, base, params, w.stack[|t|..], |params|)
    ensures Rel(t + Results(results, base), locals, n, w.(stack := w.stack[..|t|] + vs))
  {
    hide StackOk, Settled, NoScratch, NextSlot, Respects, LaidOut, Results, InRange, Rel, Run;
    RelLength(s, locals, m, w);
    var w1 := w.(stack := w.stack[..|t|]);
    assert Rel(t, locals, Run(es, m), w1);
    AfterCall(t, locals, first, base, results, Run(es, m), n, w1, vs);
  }

  // --------------------------------------------------- a call inside an argument list

  /** A call without arguments leaves its result right after the entry below exactly
      when that place is a multiple of eight or the result is 64 bits wide. */
  lemma ResultFollows(s: seq<Entry>, first: int, ty: Ty)
    requires Slots(s, first) && s != []
    ensures var base := Aligned8(NextSlot(s, I32, first)); var e := ResultAt([ty], base, 0);
      Contiguous((s + [e])[|s| - 1..], 0) <==> ty.I64? || NextSlot(s, I32, first) % 8 == 0
  {
    hide Slots, AlignUp, Aligned8, Size, OffsetOf, Contiguous;
    var top := s[|s| - 1];
    var end := top.off + Size(top.ty);
    TopFour(s, first);
    EndFour(top.off, top.ty);
    AlignEight(end);
    FirstPlace([ty]);
    var e := ResultAt([ty], Aligned8(NextSlot(s, I32, first)), 0);
    assert (s + [e])[|s| - 1..] == [top, e];
    TwoContiguous(top, e);
  }

  lemma TopFour(s: seq<Entry>, first: int)
    requires Slots(s, first) && s != []
    ensures s[|s| - 1].off % 4 == 0
  {
  }

  lemma TwoContiguous(a: Entry, b: Entry)
    ensures Contiguous([a, b], 0) <==> b.off == AlignUp(a.off + Size(a.ty), b.ty)
  {
    hide AlignUp, Size;
    var s := [a, b];
    if b.off == AlignUp(a.off + Size(a.ty), b.ty) {
      forall i | 0 < i < |s|
        ensures s[i].off == AlignUp(s[i - 1].off + Size(s[i - 1].ty), s[i].ty)
      {
        assert i == 1;
      }
    } else {
      assert s[1].off != AlignUp(s[1 - 1].off + Size(s[1 - 1].ty), s[1].ty);
    }
  }

  lemma AlignEight(end: int)
    requires end % 4 == 0
    ensures AlignUp(end, I32) == end && AlignUp(end, I64) == Aligned8(end) && (Aligned8(end) == end <==> end % 8 == 0)
  {
    if end % 8 > 0 {
      FourModEight(end);
    }
  }

  /** So in f(1, g()) with 32-bit types the callee does not find its second argument. */
  lemma NestedCallLoses()
    ensures var s := [Entry(At(Imm(1)), I32, 0)] + Results([I32], Aligned8(4));
      StackOk(s, [], 0) && Settled(s) && !CanPass(s, 0)
  {
    hide StackOk, Slots, AlignUp, LocalsOk, Contiguous;
    FirstPlace([I32]);
    var a, e := Entry(At(Imm(1)), I32, 0), Entry(At(Frame(8)), I32, 8);
    assert Results([I32], Aligned8(4)) == [e];
    assert LocalsOk([], 0) by {
      NoPlaces();
    }
    NothingStacked([], 0);
    PushFirst(a, [], 0);
    PushAbove(a, e, [], 0);
    assert [a] + [e] == [a, e];
    TwoContiguous(a, e);
    AlignWord(4);
  }

  lemma PushFirst(e: Entry, locals: seq<Place>, first: int)
    requires StackOk([], locals, first) && PlaceOk(e, locals) && e.off == first && e.val.At?
    ensures StackOk([e], locals, first)
  {
    hide LocalsOk, PlaceOk, AlignUp;
  }

  lemma NoPlaces()
    ensures LocalsOk([], 0)
  {
  }

  lemma PushAbove(a: Entry, e: Entry, locals: seq<Place>, first: int)
    requires StackOk([a], locals, first) && a.val.At? && e.val == At(Frame(e.off)) && e.ty.I32?
    requires e.off >= a.off + Size(a.ty) && e.off % 4 == 0 && a.off % 4 == 0
    ensures StackOk([a] + [e], locals, first)
  {
    hide StackOk, Size, Slots, AlignUp;
    EndFour(a.off, a.ty);
    AlignWord(a.off + Size(a.ty));
    PushOk([a], locals, first, e);
  }
}
