/** Passing arguments: what `pwart_EmitCallFunc2` promises before a call, and exactly when
    the callee finds its parameters. */
module Calls {
  import opened LazyMachine
  import opened LazyStack
  import opened LazyOps
  import opened Frames
  import opened Twins
  import opened CallLayout

  // -------------------------------------------------------------- what is promised

  /** Whatever the machine held: the values below the arguments are kept, and the
      callee whose frame starts at `base` reads the arguments as its parameters. */
  ghost predicate Delivers(locals: seq<Place>, s: seq<Entry>, t: seq<Entry>, params: seq<Ty>, base: int, es: seq<Emit>)
    requires |t| + |params| == |s|
  {
    forall m, w :: Rel(s, locals, m, w) ==>
      |w.stack| == |s| && Rel(t, locals, Run(es, m), w.(stack := w.stack[..|t|]))
      && LaidOut(Run(es, m).frame, base, params, w.stack[|t|..], |params|)
  }

  lemma SlotsDeliver(locals: seq<Place>, s: seq<Entry>, u: seq<Entry>, params: seq<Ty>, k: nat, base: int,
                     es: seq<Emit>)
    requires |u| == |s| && Keeps(locals, s, u, es) && Suits(u, k, params) && InSlots(u, k)
    requires params != [] ==> base == u[k].off && base % 8 == 0 && Contiguous(u, k)
    ensures Delivers(locals, s, u[..k], params, base, es)
  {
    hide Contiguous, Fetch, OffsetOf, EndOf, Run, Rel, Keeps;
    forall m, w | Rel(s, locals, m, w)
      ensures |w.stack| == |s| && Rel(u[..k], locals, Run(es, m), w.(stack := w.stack[..k]))
      ensures LaidOut(Run(es, m).frame, base, params, w.stack[k..], |params|)
    {
      var n := Run(es, m);
      RelSize(s, locals, m, w);
      KeepsAt(locals, s, u, es, m, w);
      RelPop(u, locals, n, w, |params|);
      forall i | 0 <= i < |params|
        ensures Argument(n.frame, base, params, i) == w.stack[k..][i]
      {
        ContiguousPlaces(u, k, params, i);
        ArgumentRead(u, locals, n, w, k + i);
      }
    }
  }

  lemma ArgumentRead(u: seq<Entry>, locals: seq<Place>, m: Machine, w: Wasm, i: nat)
    requires Rel(u, locals, m, w) && i < |u| && u[i].val == At(Frame(u[i].off))
    ensures i < |w.stack| && Fetch(m.frame, u[i].ty, u[i].off) == w.stack[i]
  {
    assert Denote(u[i], m) == w.stack[i];
  }

  // --------------------------------------------------------- when it goes wrong

  const BLANK: Machine := Machine(map[], map[], map[], I32, 0, 0)

  /** The program state that a machine stands for. */
  function Reading(s: seq<Entry>, locals: seq<Place>, m: Machine): (w: Wasm)
    ensures |w.stack| == |s| && |w.locals| == |locals|
  {
    Wasm(seq(|s|, i requires 0 <= i < |s| => Denote(s[i], m)),
         seq(|locals|, x requires 0 <= x < |locals| => Read(m, locals[x].ty, locals[x].loc)))
  }

  lemma BlankRead(ty: Ty, l: Loc)
    ensures InRange(ty, Read(BLANK, ty, l)) && (!l.Imm? ==> Read(BLANK, ty, l) == 0)
  {
  }

  /** A machine that differs from the blank one in a single word that no value uses. */
  function Marked(o: int, x: int): Machine {
    BLANK.(frame := map[o := x])
  }

  lemma MarkedRead(ty: Ty, l: Loc, o: int, x: int)
    requires l.Frame? ==> o % 4 == 0 && l.off % 4 == 0 && (o < l.off || l.off + Size(ty) <= o)
    ensures Read(Marked(o, x), ty, l) == Read(BLANK, ty, l)
  {
  }

  lemma MarkedRel(s: seq<Entry>, locals: seq<Place>, first: int, o: int, x: int)
    requires StackOk(s, locals, first) && Settled(s) && Outside(s, o) && o % 4 == 0 && o >= first
    ensures Rel(s, locals, Marked(o, x), Reading(s, locals, BLANK))
  {
    hide Read, Marked;
    SettledAll(s, locals, first);
    forall i | 0 <= i < |s|
      ensures InRange(s[i].ty, Denote(s[i], BLANK)) && Denote(s[i], Marked(o, x)) == Denote(s[i], BLANK)
    {
      BlankRead(s[i].ty, s[i].val.loc);
      assert PlaceOk(s[i], locals);
      PlaceMissed(s, locals, first, i, o);
      MarkedRead(s[i].ty, s[i].val.loc, o, x);
    }
    forall y | 0 <= y < |locals|
      ensures InRange(locals[y].ty, Read(BLANK, locals[y].ty, locals[y].loc))
      ensures Read(Marked(o, x), locals[y].ty, locals[y].loc) == Read(BLANK, locals[y].ty, locals[y].loc)
    {
      assert LocalOk(locals[y], first);
      BlankRead(locals[y].ty, locals[y].loc);
      MarkedRead(locals[y].ty, locals[y].loc, o, x);
    }
  }

  lemma PlaceMissed(s: seq<Entry>, locals: seq<Place>, first: int, i: nat, o: int)
    requires StackOk(s, locals, first) && i < |s| && s[i].val.At? && Outside(s, o) && o >= first
    ensures s[i].val.loc.Frame? ==> var l := s[i].val.loc; l.off % 4 == 0 && (o < l.off || l.off + Size(s[i].ty) <= o)
  {
    assert PlaceOk(s[i], locals);
    var l := s[i].val.loc;
    if l.Frame? && l != Frame(s[i].off) {
      var x :| 0 <= x < |locals| && locals[x] == Place(l, s[i].ty);
      assert LocalOk(locals[x], first);
    }
  }

  /** The first argument that is not where the callee looks for it. */
  lemma {:induction false} FirstGap(s: seq<Entry>, k: nat, n: nat) returns (i: nat)
    requires k < n <= |s| && !Contiguous(s[..n], k)
    ensures k < i < |s| && Contiguous(s[..i], k) && s[i].off != AlignUp(s[i - 1].off + Size(s[i - 1].ty), s[i].ty)
    decreases n
  {
    hide AlignUp, Size;
    if Contiguous(s[..n - 1], k) {
      i := n - 1;
      assert s[..n][..n - 1] == s[..n - 1];
      LastGap(s[..n], k);
    } else {
      i := FirstGap(s, k, n - 1);
    }
  }

  lemma LastGap(s: seq<Entry>, k: nat)
    requires k < |s| && !Contiguous(s, k) && Contiguous(s[..|s| - 1], k)
    ensures k < |s| - 1 && var i := |s| - 1; s[i].off != AlignUp(s[i - 1].off + Size(s[i - 1].ty), s[i].ty)
  {
    var t := s[..|s| - 1];
    forall i | k < i < |t|
      ensures s[i].off == AlignUp(s[i - 1].off + Size(s[i - 1].ty), s[i].ty)
    {
      assert t[i].off == AlignUp(t[i - 1].off + Size(t[i - 1].ty), t[i].ty);
    }
  }

  /** The word where the callee looks for that argument lies between two slots. */
  lemma GapWord(s: seq<Entry>, locals: seq<Place>, first: int, k: nat, i: nat)
    requires StackOk(s, locals, first) && k < i < |s|
    requires s[i].off != AlignUp(s[i - 1].off + Size(s[i - 1].ty), s[i].ty)
    ensures var o := AlignUp(s[i - 1].off + Size(s[i - 1].ty), s[i].ty); o % 4 == 0 && o >= first && Outside(s, o)
  {
    hide AlignUp, Size;
    assert Follows(s, i);
    EndFour(s[i - 1].off, s[i - 1].ty);
    AlignUpFits(s[i - 1].off + Size(s[i - 1].ty), s[i].ty);
    SizePositive(s[i - 1].ty);
    var o := AlignUp(s[i - 1].off + Size(s[i - 1].ty), s[i].ty);
    forall j | 0 <= j < |s|
      ensures o < s[j].off || s[j].off + Size(s[j].ty) <= o
    {
      SizePositive(s[j].ty);
      if j < i - 1 {
        assert s[j].off + Size(s[j].ty) <= s[i - 1].off;
      } else if j > i {
        SizePositive(s[i].ty);
        assert s[i].off + Size(s[i].ty) <= s[j].off;
      }
    }
  }

  /** With the first argument at a multiple of eight and a gap further on, there is a
      machine for which the callee reads something else. */
  lemma GapNotDelivered(locals: seq<Place>, s: seq<Entry>, first: int, t: seq<Entry>, params: seq<Ty>, k: nat,
                        es: seq<Emit>)
    requires StackOk(s, locals, first) && Settled(s) && Suits(s, k, params) && k < |s| && s[k].off % 8 == 0
    requires |t| == k && !Contiguous(s, k)
    requires forall o :: o % 4 == 0 && Outside(s, o) ==> SparesWord(es, o)
    ensures !Delivers(locals, s, t, params, s[k].off, es)
  {
    hide StackOk, AlignUp, Size, Contiguous, SparesWord, OffsetOf, EndOf, Fetch, Marked, Reading, Run, Delivers, Rel;
    assert s[..|s|] == s;
    var i := FirstGap(s, k, |s|);
    GapWord(s, locals, first, k, i);
    GapExpected(s, k, params, i);
    var o := AlignUp(s[i - 1].off + Size(s[i - 1].ty), s[i].ty);
    var w := Reading(s, locals, BLANK);
    var x := if w.stack[i] % WORD == 0 then 1 else 0;
    var m := Marked(o, x);
    MarkedRel(s, locals, first, o, x);
    MarkedWord(o, x);
    assert SparesWord(es, o);
    SparedWord(es, o, m);
    FetchLow(Run(es, m).frame, s[i].ty, o);
    if Delivers(locals, s, t, params, s[k].off, es) {
      DeliveredAt(locals, s, t, params, s[k].off, es, m, w, i - k);
    }
  }

  lemma MarkedWord(o: int, x: int)
    ensures Word(Marked(o, x).frame, o) == x
  {
  }

  lemma SparedWord(es: seq<Emit>, o: int, m: Machine)
    requires SparesWord(es, o)
    ensures Word(Run(es, m).frame, o) == Word(m.frame, o)
  {
  }

  lemma FetchLow(mem: map<int, int>, ty: Ty, o: int)
    requires 0 <= Word(mem, o) < WORD
    ensures Fetch(mem, ty, o) % WORD == Word(mem, o)
  {
    if ty.I64? {
      ModWord(Word(mem, o), Word(mem, o + 4));
    }
  }

  lemma ModWord(x: int, y: int)
    requires 0 <= x < WORD
    ensures (x + WORD * y) % WORD == x
  {
  }

  lemma DeliveredAt(locals: seq<Place>, s: seq<Entry>, t: seq<Entry>, params: seq<Ty>, base: int, es: seq<Emit>,
                    m: Machine, w: Wasm, i: nat)
    requires |t| + |params| == |s| && Delivers(locals, s, t, params, base, es) && Rel(s, locals, m, w) && i < |params|
    ensures |w.stack| == |s| && Fetch(Run(es, m).frame, params[i], base + OffsetOf(params, i)) == w.stack[|t| + i]
  {
    hide Run, Rel, Fetch, OffsetOf;
    RelLength(s, locals, m, w);
    assert w.stack[|t|..][i] == w.stack[|t| + i];
    assert Argument(Run(es, m).frame, base, params, i) == w.stack[|t|..][i];
  }

  lemma RelLength(s: seq<Entry>, locals: seq<Place>, m: Machine, w: Wasm)
    requires Rel(s, locals, m, w)
    ensures |w.stack| == |s|
  {
  }

  /** Where the callee looks for argument `i`, when those before it follow one another. */
  lemma GapExpected(s: seq<Entry>, k: nat, params: seq<Ty>, i: nat)
    requires Suits(s, k, params) && k < i < |s| && s[k].off % 8 == 0 && Contiguous(s[..i], k)
    ensures s[k].off + OffsetOf(params, i - k) == AlignUp(s[i - 1].off + Size(s[i - 1].ty), s[i].ty)
    ensures s[i].ty == params[i - k]
  {
    hide AlignUp, Size, Contiguous, OffsetOf, EndOf;
    var p := params[..i - k];
    var t := s[..i];
    assert Suits(t, k, p) by {
      forall j | 0 <= j < |p|
        ensures t[k + j].ty == p[j]
      {
        assert s[k + j].ty == params[j];
      }
    }
    ContiguousPlaces(t, k, p, i - 1 - k);
    OffsetPrefix(params, i - k, i - 1 - k);
    EndNext(params, i - 1 - k);
    EndAligned(params, i - k);
    assert s[k + (i - k)].ty == params[i - k] && s[k + (i - 1 - k)].ty == params[i - 1 - k];
    AlignFrom(s[k].off, EndOf(params, i - k), params[i - k]);
    PlaceIsAligned(params, i - k);
  }

  lemma PlaceIsAligned(params: seq<Ty>, k: nat)
    requires k < |params|
    ensures OffsetOf(params, k) == AlignUp(EndOf(params, k), params[k])
  {
  }

  lemma {:induction false} OffsetPrefix(params: seq<Ty>, n: nat, j: nat)
    requires j < n <= |params|
    ensures OffsetOf(params[..n], j) == OffsetOf(params, j)
    decreases j
  {
    if j > 0 {
      OffsetPrefix(params, n, j - 1);
      EndNext(params, j - 1);
      EndNext(params[..n], j - 1);
    }
    PlaceIsAligned(params, j);
    PlaceIsAligned(params[..n], j);
  }

  // --------------------------------------------- when arguments run over one another

  /** The place of the difference between two machines in which only entry `j` differs. */
  function GapAt(s: seq<Entry>, j: nat, o: int): Gap
    requires j < |s|
  {
    Gap(if InScratch(s[j]) then s[j].val.loc.r else -1, s[j].ty, s[j].off, o)
  }

  predicate InSlot(e: Entry, o: int) {
    o % 4 == 0 && e.off <= o < e.off + Size(e.ty)
  }

  lemma OtherAvoids(s: seq<Entry>, locals: seq<Place>, first: int, j: nat, o: int, q: nat)
    requires StackOk(s, locals, first) && Settled(s) && j < |s| && q < |s| && q != j && InSlot(s[j], o)
    ensures SourceAvoids(s[q], GapAt(s, j, o))
  {
    SettledAll(s, locals, first);
    assert PlaceOk(s[q], locals);
    var l := s[q].val.loc;
    if l.Frame? && l != Frame(s[q].off) {
      var x :| 0 <= x < |locals| && locals[x] == Place(l, s[q].ty);
      assert LocalOk(locals[x], first);
    }
  }

  lemma IsLone(s: seq<Entry>, locals: seq<Place>, first: int, j: nat, o: int)
    requires StackOk(s, locals, first) && Settled(s) && j < |s| && InSlot(s[j], o)
    requires InScratch(s[j]) || s[j].val == At(Frame(s[j].off))
    ensures Lone(s, j, GapAt(s, j, o).r, o)
  {
    hide StackOk, SourceAvoids;
    forall q | 0 <= q < |s| && q != j
      ensures SourceAvoids(s[q], GapAt(s, j, o))
    {
      OtherAvoids(s, locals, first, j, o, q);
    }
    SlotsKnown(s, locals, first);
  }

  lemma LocalAvoids(s: seq<Entry>, locals: seq<Place>, first: int, j: nat, o: int, x: nat)
    requires StackOk(s, locals, first) && j < |s| && InSlot(s[j], o) && x < |locals|
    ensures Avoids(GapAt(s, j, o), locals[x].ty, locals[x].loc)
  {
    assert LocalOk(locals[x], first);
  }

  /** Twin machines stand for program states that differ in entry `j` alone. */
  lemma TwinRel(s: seq<Entry>, locals: seq<Place>, first: int, j: nat, o: int, m: Machine, n: Machine, w: Wasm)
    requires StackOk(s, locals, first) && Settled(s) && j < |s| && InSlot(s[j], o)
    requires Rel(s, locals, m, w) && Twin(GapAt(s, j, o), m, n) && InRange(s[j].ty, Denote(s[j], n))
    ensures |w.stack| == |s| && Rel(s, locals, n, w.(stack := w.stack[j := Denote(s[j], n)]))
  {
    hide StackOk, Settled, Read, Twin, Avoids, InRange, Settled;
    SettledAll(s, locals, first);
    var g := GapAt(s, j, o);
    forall i | 0 <= i < |s| && i != j
      ensures Denote(s[i], n) == Denote(s[i], m)
    {
      OtherAvoids(s, locals, first, j, o, i);
      TwinRead(g, m, n, s[i].ty, s[i].val.loc);
    }
    forall x | 0 <= x < |locals|
      ensures Read(n, locals[x].ty, locals[x].loc) == Read(m, locals[x].ty, locals[x].loc)
    {
      LocalAvoids(s, locals, first, j, o, x);
      TwinRead(g, m, n, locals[x].ty, locals[x].loc);
    }
  }

  lemma BlankRel(s: seq<Entry>, locals: seq<Place>, first: int)
    requires StackOk(s, locals, first) && Settled(s)
    ensures Rel(s, locals, BLANK, Reading(s, locals, BLANK))
  {
    hide StackOk, Read, InRange, Settled;
    SettledAll(s, locals, first);
    forall i | 0 <= i < |s|
      ensures InRange(s[i].ty, Denote(s[i], BLANK))
    {
      BlankRead(s[i].ty, s[i].val.loc);
    }
    forall x | 0 <= x < |locals|
      ensures InRange(locals[x].ty, Read(BLANK, locals[x].ty, locals[x].loc))
    {
      BlankRead(locals[x].ty, locals[x].loc);
    }
  }

  /** A machine that differs from the blank one just enough. */
  function Other(e: Entry, o: int): Machine {
    if InScratch(e) then BLANK.(regs := map[e.val.loc.r := if o == e.off then 1 else WORD]) else Marked(o, 1)
  }

  lemma OtherTwin(s: seq<Entry>, j: nat, o: int)
    requires j < |s| && InSlot(s[j], o) && s[j].off % 4 == 0 && (InScratch(s[j]) || s[j].val == At(Frame(s[j].off)))
    ensures Twin(GapAt(s, j, o), BLANK, Other(s[j], o))
    ensures InRange(s[j].ty, Denote(s[j], Other(s[j], o))) && Denote(s[j], Other(s[j], o)) != Denote(s[j], BLANK)
  {
    var e := s[j];
    assert o == e.off || (e.ty.I64? && o == e.off + 4);
  }

  /** A word that two overlapping slots share. */
  lemma CommonWord(a: int, at: Ty, b: int, bt: Ty) returns (o: int)
    requires a % 4 == 0 && b % 4 == 0 && a < b + Size(bt) && b < a + Size(at)
    ensures o % 4 == 0 && a <= o < a + Size(at) && b <= o < b + Size(bt) && (a == o || (at.I64? && a + 4 == o))
  {
    o := if a >= b then a else b;
  }

  ghost predicate Movable(t: seq<Entry>, k: nat, j: nat, g: Gap) {
    forall q :: k <= q < |t| ==>
      t[q].val.At? && (t[q].val.loc.Reg? ==> t[q].val.loc.r != g.r) && (q != j ==> Avoids(g, t[q].ty, t[q].val.loc))
  }

  /** Arguments above do not touch the difference. */
  lemma {:induction false} TwinsAbove(t: seq<Entry>, k: nat, j: nat, g: Gap, i: nat, m: Machine, n: Machine)
    requires Movable(t, k, j, g) && k <= j < i <= |t| && g.o % 4 == 0 && Twin(g, m, n)
    ensures Twin(g, Run(Resaves(t, i), m), Run(Resaves(t, i), n))
    decreases |t| - i
  {
    hide Twin, Avoids, Run, Transfer;
    ResavesStep(t, i, m);
    ResavesStep(t, i, n);
    if i < |t| {
      TwinsAbove(t, k, j, g, i + 1, m, n);
      OtherTwins(g, t[i].ty, t[i].off, t[i].val.loc);
      MoveOf(t[i]);
    }
  }

  lemma MoveOf(e: Entry)
    requires e.val.At?
    ensures Transfer(e, Frame(e.off)) == Move(e.ty, Frame(e.off), e.val.loc)
  {
  }

  lemma ResavesStep(t: seq<Entry>, i: nat, m: Machine)
    requires i <= |t|
    ensures i == |t| ==> Run(Resaves(t, i), m) == m
    ensures i < |t| && t[i].val == At(Frame(t[i].off)) ==> Run(Resaves(t, i), m) == Run(Resaves(t, i + 1), m)
    ensures i < |t| && t[i].val != At(Frame(t[i].off)) ==>
      Run(Resaves(t, i), m) == Run([Transfer(t[i], Frame(t[i].off))], Run(Resaves(t, i + 1), m))
  {
    hide Transfer;
    if i < |t| && t[i].val != At(Frame(t[i].off)) {
      RunConcat(Resaves(t, i + 1), [Transfer(t[i], Frame(t[i].off))], m);
    } else if i < |t| {
      assert Resaves(t, i) == Resaves(t, i + 1);
    }
  }

  /** The argument that is stored over the difference makes the machines alike. */
  lemma TwinsMeet(t: seq<Entry>, k: nat, j: nat, g: Gap, i: nat, m: Machine, n: Machine)
    requires Movable(t, k, j, g) && k <= j < i < |t| && g.o % 4 == 0 && Twin(g, m, n)
    requires t[i].off == g.o || (t[i].ty.I64? && t[i].off + 4 == g.o)
    ensures Same(g, Run(Resaves(t, i), m), Run(Resaves(t, i), n))
  {
    hide Twin, Same, Run, Transfer, Read, Write;
    TwinsAbove(t, k, j, g, i + 1, m, n);
    ResavesStep(t, i, m);
    ResavesStep(t, i, n);
    NotInPlace(t[i], g);
    MoveOf(t[i]);
    var a, b := Run(Resaves(t, i + 1), m), Run(Resaves(t, i + 1), n);
    MoveStep(t[i].ty, t[i].off, t[i].val.loc, a);
    MoveStep(t[i].ty, t[i].off, t[i].val.loc, b);
    TwinRead(g, a, b, t[i].ty, t[i].val.loc);
    ClosePut(g, a, b, t[i].ty, t[i].off, Read(a, t[i].ty, t[i].val.loc));
  }

  lemma NotInPlace(e: Entry, g: Gap)
    requires e.val.At? && Avoids(g, e.ty, e.val.loc) && (e.off == g.o || (e.ty.I64? && e.off + 4 == g.o))
    ensures e.val != At(Frame(e.off))
  {
  }

  lemma {:induction false} TwinsAlike(t: seq<Entry>, k: nat, j: nat, g: Gap, i: nat, from: nat, m: Machine, n: Machine)
    requires Movable(t, k, j, g) && k <= i <= from <= |t| && Same(g, Run(Resaves(t, from), m), Run(Resaves(t, from), n))
    ensures Same(g, Run(Resaves(t, i), m), Run(Resaves(t, i), n))
    decreases from - i
  {
    hide Same, Run, Transfer, Read, Write, Avoids;
    if i < from {
      TwinsAlike(t, k, j, g, i + 1, from, m, n);
      ResavesStep(t, i, m);
      ResavesStep(t, i, n);
      MoveOf(t[i]);
      var a, b := Run(Resaves(t, i + 1), m), Run(Resaves(t, i + 1), n);
      MoveStep(t[i].ty, t[i].off, t[i].val.loc, a);
      MoveStep(t[i].ty, t[i].off, t[i].val.loc, b);
      SameRead(g, a, b, t[i].ty, t[i].val.loc);
      SamePut(g, a, b, t[i].ty, t[i].off, Read(a, t[i].ty, t[i].val.loc));
    }
  }

  lemma SameFetch(g: Gap, m: Machine, n: Machine, ty: Ty, off: int)
    requires Same(g, m, n)
    ensures Fetch(m.frame, ty, off) == Fetch(n.frame, ty, off)
  {
    SameRead(g, m, n, ty, Frame(off));
  }

  lemma IsMovable(s: seq<Entry>, t: seq<Entry>, k: nat, j: nat, r: int, o: int)
    requires Lone(s, j, r, o) && NoScratch(s) && r < SCRATCH && |t| == |s|
      && (forall q :: 0 <= q < |s| ==> s[q].val.At?)
    requires forall q :: 0 <= q < |t| ==> t[q].val == s[q].val && t[q].ty == s[q].ty
    ensures Movable(t, k, j, Gap(r, s[j].ty, s[j].off, o))
  {
    var g := Gap(r, s[j].ty, s[j].off, o);
    forall q | k <= q < |t|
      ensures t[q].val.At? && (t[q].val.loc.Reg? ==> t[q].val.loc.r != g.r)
        && (q != j ==> Avoids(g, t[q].ty, t[q].val.loc))
    {
      assert q != j ==> SourceAvoids(s[q], g);
      assert !InScratch(s[q]);
    }
  }

  /** Two states that differ in an argument, and the same frame for the callee. */
  lemma AlikeNotDelivered(locals: seq<Place>, s: seq<Entry>, t: seq<Entry>, params: seq<Ty>, base: int, es: seq<Emit>,
                          m: Machine, n: Machine, w: Wasm, x: Wasm, j: nat)
    requires |t| + |params| == |s| && |t| <= j < |s| && Rel(s, locals, m, w) && Rel(s, locals, n, x)
    requires |w.stack| == |s| == |x.stack| && w.stack[j] != x.stack[j]
    requires forall ty, off :: Fetch(Run(es, m).frame, ty, off) == Fetch(Run(es, n).frame, ty, off)
    ensures !Delivers(locals, s, t, params, base, es)
  {
    hide Run, Rel, Fetch, OffsetOf, Delivers;
    if Delivers(locals, s, t, params, base, es) {
      DeliveredAt(locals, s, t, params, base, es, m, w, j - |t|);
      DeliveredAt(locals, s, t, params, base, es, n, x, j - |t|);
    }
  }

  lemma OverrunAlike(s1: seq<Entry>, t: seq<Entry>, k: nat, j: nat, i: nat, r: int, o: int, es: seq<Emit>, m: Machine,
                     n: Machine)
    requires |t| == |s1| && k <= j < i < |t| && Lone(s1, j, r, o) && r < SCRATCH && NoScratch(s1)
      && (forall q :: 0 <= q < |s1| ==> s1[q].val.At?)
    requires forall q :: 0 <= q < |t| ==> t[q].val == s1[q].val && t[q].ty == s1[q].ty
    requires t[i].off == o || (t[i].ty.I64? && t[i].off + 4 == o)
    requires var g := Gap(r, s1[j].ty, s1[j].off, o); Twin(g, Run(es, m), Run(es, n))
    ensures forall ty, off ::
      Fetch(Run(es + Resaves(t, k), m).frame, ty, off) == Fetch(Run(es + Resaves(t, k), n).frame, ty, off)
  {
    hide Twin, Run, Same, Movable, Fetch, NoScratch;
    var g := Gap(r, s1[j].ty, s1[j].off, o);
    IsMovable(s1, t, k, j, r, o);
    TwinsMeet(t, k, j, g, i, Run(es, m), Run(es, n));
    TwinsAlike(t, k, j, g, k, i, Run(es, m), Run(es, n));
    RunConcat(es, Resaves(t, k), m);
    RunConcat(es, Resaves(t, k), n);
    forall ty, off
      ensures Fetch(Run(es + Resaves(t, k), m).frame, ty, off) == Fetch(Run(es + Resaves(t, k), n).frame, ty, off)
    {
      SameFetch(g, Run(es + Resaves(t, k), m), Run(es + Resaves(t, k), n), ty, off);
    }
  }

  /** If an argument is stored over one that has not moved yet, there are two states of
      the program between which the callee cannot tell the difference. */
  lemma OverrunNotDelivered(locals: seq<Place>, s0: seq<Entry>, s1: seq<Entry>, first: int, t: seq<Entry>,
                            params: seq<Ty>, k: nat, base: int,
                            c0: seq<Emit>, c1: seq<Emit>, j: nat, i: nat)
    requires StackOk(s0, locals, first) && Settled(s0) && s1 == AllSpilled(s0) && NoScratch(s1)
      && SavedOnly(locals, s0, s1, c0, c1)
    requires |t| == |s1| && k + |params| == |s1| && k <= j < i < |t|
    requires forall q :: 0 <= q < |t| ==> t[q].val == s1[q].val && t[q].ty == s1[q].ty && t[q].off % 4 == 0
    requires s1[j].val == At(Frame(s1[j].off))
    requires t[i].off < s1[j].off + Size(s1[j].ty) && s1[j].off < t[i].off + Size(t[i].ty)
    ensures |c0| <= |c1| && !Delivers(locals, s0, Moving(t, k)[..k], params, base, c1[|c0|..] + Resaves(t, k))
  {
    hide StackOk, Settled, Twin, Lone, TwinKept, Run, Rel, Fetch, Delivers, Moving, Resaves, SavedOnly, NoScratch, Read,
      InSlot, Spilled, Denote, Reading;
    SpilledPlace(s0, s1, locals, first, j);
    SpilledAllAt(s0, s1, locals, first);
    var o := CommonWord(t[i].off, t[i].ty, s1[j].off, s1[j].ty);
    InSlotAt(s0[j], o);
    IsLone(s0, locals, first, j, o);
    OtherTwin(s0, j, o);
    var g := GapAt(s0, j, o);
    var n := Other(s0[j], o);
    BlankRel(s0, locals, first);
    var w := Reading(s0, locals, BLANK);
    TwinRel(s0, locals, first, j, o, BLANK, n, w);
    ReadingAt(s0, locals, j);
    SavedTwins(locals, s0, s1, c0, c1, j, g.r, o, BLANK, n);
    OverrunAlike(s1, t, k, j, i, g.r, o, c1[|c0|..], BLANK, n);
    AlikeNotDelivered(locals, s0, Moving(t, k)[..k], params, base, c1[|c0|..] + Resaves(t, k), BLANK, n, w,
                      w.(stack := w.stack[j := Denote(s0[j], n)]), j);
  }

  lemma ReadingAt(s: seq<Entry>, locals: seq<Place>, j: nat)
    requires j < |s|
    ensures Reading(s, locals, BLANK).stack[j] == Denote(s[j], BLANK)
  {
  }

  lemma InSlotAt(e: Entry, o: int)
    requires o % 4 == 0 && e.off <= o < e.off + Size(e.ty)
    ensures InSlot(e, o)
  {
  }

  lemma SpilledPlace(s0: seq<Entry>, s1: seq<Entry>, locals: seq<Place>, first: int, j: nat)
    requires StackOk(s0, locals, first) && s1 == AllSpilled(s0) && j < |s1| && s1[j].val == At(Frame(s1[j].off))
    ensures s0[j].off == s1[j].off && s0[j].ty == s1[j].ty && s0[j].off % 4 == 0
    ensures InScratch(s0[j]) || s0[j].val == At(Frame(s0[j].off))
  {
    hide AllSpilled;
    AllAt(s0, j);
  }

  lemma AllAt(s: seq<Entry>, j: nat)
    requires j < |s|
    ensures AllSpilled(s)[j] == Spilled(s[j])
  {
  }

  lemma SpilledAllAt(s0: seq<Entry>, s1: seq<Entry>, locals: seq<Place>, first: int)
    requires StackOk(s0, locals, first) && Settled(s0) && s1 == AllSpilled(s0)
    ensures forall q :: 0 <= q < |s1| ==> s1[q].val.At?
  {
    hide StackOk;
    SettledAll(s0, locals, first);
  }

  lemma SavedTwins(locals: seq<Place>, s0: seq<Entry>, s1: seq<Entry>, c0: seq<Emit>, c1: seq<Emit>, j: nat, r: int,
                   o: int, m: Machine, n: Machine)
    requires SavedOnly(locals, s0, s1, c0, c1) && j < |s0| && Lone(s0, j, r, o)
      && Twin(Gap(r, s0[j].ty, s0[j].off, o), m, n)
    ensures |c0| <= |c1| && |s1| == |s0| && Lone(s1, j, r, o) && s1[j].ty == s0[j].ty && s1[j].off == s0[j].off
    ensures Twin(Gap(r, s0[j].ty, s0[j].off, o), Run(c1[|c0|..], m), Run(c1[|c0|..], n))
  {
    hide Twin, Lone, Run, SparesWord, Keeps;
    LoneKept(s0, s1, j, r, o);
    assert TwinKept(Gap(r, s0[j].ty, s0[j].off, o), c1[|c0|..]);
  }

  // ------------------------------------------------------------- the whole call

  /** What it takes for the callee to find its parameters: arguments that lie in place
      without a gap, or that do not run over one another while they are moved. */
  predicate CanPass(s: seq<Entry>, k: nat)
    requires k <= |s|
  {
    k == |s| || if s[k].off % 8 == 0 then Contiguous(s, k) else NoOverrun(AllSpilled(s), Realigned(AllSpilled(s), k), k)
  }

  /** Arguments without gaps always reach the callee, also when they are moved. */
  lemma ContiguousPass(s: seq<Entry>, locals: seq<Place>, first: int, k: nat)
    requires StackOk(s, locals, first) && k <= |s| && Contiguous(s, k)
    ensures CanPass(s, k)
  {
    hide StackOk, Contiguous, NewOff, LocalsOk, Size;
    SlotsKnown(s, locals, first);
    var u := AllSpilled(s);
    SameContiguous(s, u, k);
    if k < |s| {
      forall j, i | k <= j < i < |s|
        ensures Realigned(u, k)[i].off >= u[j].off + Size(u[j].ty)
      {
        NewOffNotBelow(u, k, i);
      }
    }
  }

  lemma {:induction false} NewOffNotBelow(s: seq<Entry>, k: nat, j: nat)
    requires k <= j < |s| && Contiguous(s, k) && forall i :: 0 <= i < |s| ==> s[i].off % 4 == 0
    ensures NewOff(s, k, j) >= s[j].off
    decreases j
  {
    hide Contiguous, AlignUp, Size;
    if k < j {
      NewOffNotBelow(s, k, j - 1);
      NewOffAligned(s, k, j - 1);
      EndFour(NewOff(s, k, j - 1), s[j - 1].ty);
      EndFour(s[j - 1].off, s[j - 1].ty);
      AlignUpGrows(s[j - 1].off + Size(s[j - 1].ty), NewOff(s, k, j - 1) + Size(s[j - 1].ty), s[j].ty);
      LaidAfter(s, k, j);
    }
  }

  lemma LaidAfter(s: seq<Entry>, k: nat, j: nat)
    requires k < j < |s| && Contiguous(s, k)
    ensures s[j].off == AlignUp(s[j - 1].off + Size(s[j - 1].ty), s[j].ty)
  {
  }

  lemma AlignUpGrows(a: int, b: int, ty: Ty)
    requires a % 4 == 0 && b % 4 == 0 && a <= b
    ensures AlignUp(a, ty) <= AlignUp(b, ty)
  {
    if ty.I64? {
      if a % 8 > 0 {
        FourModEight(a);
      }
      if b % 8 > 0 {
        FourModEight(b);
      }
      assert a % 8 == 4 && b % 8 == 0 && b < a + 4 ==> false;
    }
  }

  /** With gaps they may not: here the third argument, moved down into the second gap, is
      stored over the second one, which has not moved yet. */
  lemma OverrunHappens()
    ensures var s := [Entry(At(Imm(0)), I32, 4), Entry(At(Frame(16)), I32, 16), Entry(At(Imm(2)), I32, 20)];
      StackOk(s, [], 4) && Settled(s) && !CanPass(s, 0)
  {
    hide StackOk, LocalsOk, PlaceOk, Slots, NewOff;
    var a, b, c := Entry(At(Imm(0)), I32, 4), Entry(At(Frame(16)), I32, 16), Entry(At(Imm(2)), I32, 20);
    var s := [a, b, c];
    OverrunStack(a, b, c);
    var u := AllSpilled(s);
    assert u == s;
    NewOffFirst(s, 0);
    NewOffNext(s, 0, 1);
    NewOffNext(s, 0, 2);
    assert Realigned(s, 0)[2].off == 16;
  }

  lemma OverrunStack(a: Entry, b: Entry, c: Entry)
    requires a == Entry(At(Imm(0)), I32, 4) && b == Entry(At(Frame(16)), I32, 16) && c == Entry(At(Imm(2)), I32, 20)
    ensures StackOk([a, b, c], [], 4)
  {
    assert Slots([a, b, c], 4);
  }

  lemma SavedKeeps(locals: seq<Place>, s: seq<Entry>, t: seq<Entry>, c0: seq<Emit>, c1: seq<Emit>)
    requires SavedOnly(locals, s, t, c0, c1)
    ensures |c0| <= |c1| && c1[..|c0|] == c0 && Keeps(locals, s, t, c1[|c0|..]) && |t| == |s|
    ensures forall j :: 0 <= j < |t| ==> t[j].off == s[j].off && t[j].ty == s[j].ty
    ensures forall o :: o % 4 == 0 && Outside(s, o) ==> SparesWord(c1[|c0|..], o)
  {
  }

  lemma SlotAbove(s: seq<Entry>, locals: seq<Place>, first: int, k: nat)
    requires StackOk(s, locals, first) && k < |s|
    ensures s[k].off >= NextSlot(s[..k], I32, first) && s[k].off % 4 == 0
  {
    hide AlignUp;
    if k > 0 {
      assert Follows(s, k);
      var end := s[k - 1].off + Size(s[k - 1].ty);
      AlignUpFits(end, s[k].ty);
      AlignWord(end);
    }
  }

  lemma AlignWord(off: int)
    requires off % 4 == 0
    ensures AlignUp(off, I32) == off
  {
  }

  lemma SameContiguous(s: seq<Entry>, t: seq<Entry>, k: nat)
    requires |t| == |s| && forall j :: 0 <= j < |t| ==> t[j].off == s[j].off && t[j].ty == s[j].ty
    ensures Contiguous(s, k) <==> Contiguous(t, k)
  {
    hide AlignUp, Size;
  }

  lemma RealignFacts(s: seq<Entry>, locals: seq<Place>, first: int, k: nat)
    requires StackOk(s, locals, first) && k < |s| && s[k].off % 8 > 0
    ensures var t := Realigned(s, k);
      && t[k].off == s[k].off + 4 && t[k].off % 8 == 0 && t[k].off >= NextSlot(s[..k], I32, first)
      && InSlots(Moving(t, k), k) && Moving(t, k)[..k] == s[..k]
  {
    hide Contiguous, NewOff, NextSlot;
    SlotsKnown(s, locals, first);
    RealignedLaid(s, k);
    SlotAbove(s, locals, first, k);
    FourModEight(s[k].off);
    FourMore(s[k].off);
  }

  lemma FourMore(off: int)
    requires off % 8 == 4
    ensures (off + 4) % 8 == 0
  {
  }

  lemma MovedContiguous(t: seq<Entry>, k: nat, i: int)
    requires Contiguous(t, k)
    ensures Contiguous(Moving(t, i), k)
  {
    hide AlignUp, Size;
    var u := Moving(t, i);
    assert forall j :: 0 <= j < |u| ==> u[j].off == t[j].off && u[j].ty == t[j].ty;
    SameContiguous(t, u, k);
  }

  lemma MovedSuits(s: seq<Entry>, k: nat, params: seq<Ty>)
    requires Suits(s, k, params) && k < |s|
    ensures Suits(Moving(Realigned(s, k), k), k, params)
  {
    hide NewOff;
    var u := Moving(Realigned(s, k), k);
    assert forall j :: 0 <= j < |u| ==> u[j].ty == s[j].ty;
  }

  lemma RealignDelivers(locals: seq<Place>, s0: seq<Entry>, s1: seq<Entry>, u: seq<Entry>, params: seq<Ty>, k: nat,
                        base: int,
                        es: seq<Emit>, fs: seq<Emit>)
    requires |s0| == |s1| && Keeps(locals, s0, s1, es) && Suits(s1, k, params) && k < |s1|
    requires forall j :: 0 <= j < |s1| ==> s1[j].off % 4 == 0
    requires u == Moving(Realigned(s1, k), k) && Keeps(locals, Realigned(s1, k), u, fs)
    requires base == u[k].off && base % 8 == 0 && InSlots(u, k)
    ensures Delivers(locals, s0, u[..k], params, base, es + fs)
  {
    hide Keeps, Contiguous, NewOff, InSlots, Delivers, Suits;
    var t := Realigned(s1, k);
    RealignedLaid(s1, k);
    KeepsOffsets(locals, s1, t);
    KeepsThen(locals, s0, s1, t, es, []);
    assert es + [] == es;
    KeepsThen(locals, s0, t, u, es, fs);
    MovedContiguous(t, k, k);
    MovedSuits(s1, k, params);
    SlotsDeliver(locals, s0, u, params, k, base, es + fs);
  }

  /** The next multiple of eight, for a multiple of four. */
  function Aligned8(off: int): int {
    if off % 8 > 0 then off + 4 else off
  }

  /** The first argument is not at a multiple of eight: all arguments are moved up. */
  method PassMoved(g: Generator, params: seq<Ty>, k: nat, ghost s0: seq<Entry>, ghost c0: seq<Emit>) returns (base: int)
    requires g.Valid() && Settled(g.stack) && NoScratch(g.stack) && g.stack == AllSpilled(s0)
    requires SavedOnly(g.locals, s0, g.stack, c0, g.code)
    requires StackOk(s0, g.locals, g.first) && Settled(s0)
    requires k < |g.stack| && Suits(g.stack, k, params) && g.stack[k].off % 8 > 0
    modifies g`stack, g`code
    ensures g.Valid() && g.stack == old(g.stack)[..k]
    ensures base == Aligned8(old(g.stack)[k].off) && base % 8 == 0 && base >= NextSlot(g.stack, I32, g.first)
    ensures |c0| <= |g.code| && g.code[..|c0|] == c0
    ensures NoOverrun(old(g.stack), Realigned(old(g.stack), k), k) <==>
      Delivers(g.locals, s0, g.stack, params, base, g.code[|c0|..])
  {
    hide AllTame, Resaves, StackOk, SavedOnly, Settled, Contiguous, NoOverrun, Realigned, Delivers, Keeps, NoScratch,
      AllSpilled, NextSlot, InSlots;
    ghost var s1, c1 := g.stack, g.code;
    SlotsKnown(s1, g.locals, g.first);
    PrefixOk(s1, g.locals, g.first, k);
    SavedKeeps(g.locals, s0, s1, c0, c1);
    var t := LayOut(g.stack, k);
    var u, es := Resave(t, k, s1, g.locals, g.first);
    base := t[k].off;
    RealignFacts(s1, g.locals, g.first, k);
    if NoOverrun(s1, t, k) {
      RealignDelivers(g.locals, s0, s1, u, params, k, base, c1[|c0|..], es);
    } else {
      SomeOverrun(g.locals, s0, s1, g.first, t, params, k, base, c0, c1);
    }
    RealignedTame(s1, g.locals, g.first, k, g.code);
    g.code := g.code + es;
    assert g.code[|c0|..] == c1[|c0|..] + es;
    g.stack := u[..k];
  }

  lemma SomeOverrun(locals: seq<Place>, s0: seq<Entry>, s1: seq<Entry>, first: int, t: seq<Entry>, params: seq<Ty>,
                    k: nat, base: int,
                    c0: seq<Emit>, c1: seq<Emit>)
    requires StackOk(s0, locals, first) && Settled(s0) && s1 == AllSpilled(s0) && NoScratch(s1)
      && SavedOnly(locals, s0, s1, c0, c1)
    requires k < |s1| && k + |params| == |s1| && t == Realigned(s1, k) && !NoOverrun(s1, t, k)
    requires StackOk(s1, locals, first)
    ensures |c0| <= |c1| && !Delivers(locals, s0, Moving(t, k)[..k], params, base, c1[|c0|..] + Resaves(t, k))
  {
    hide StackOk, Settled, SavedOnly, Delivers, Moving, Resaves, Realigned, AllSpilled, NoScratch, Contiguous;
    SlotsKnown(s1, locals, first);
    RealignedLaid(s1, k);
    var j, i :| k <= j < i < |s1| && s1[j].val == At(Frame(s1[j].off))
      && !(t[i].off + Size(t[i].ty) <= s1[j].off || s1[j].off + Size(s1[j].ty) <= t[i].off);
    OverrunNotDelivered(locals, s0, s1, first, t, params, k, base, c0, c1, j, i);
  }

  /** The first argument is at a multiple of eight: every argument goes to the slot it
      has.  That serves exactly when the slots follow one another without a gap. */
  method PassInPlace(g: Generator, params: seq<Ty>, k: nat, ghost s0: seq<Entry>, ghost c0: seq<Emit>)
    returns (base: int)
    requires g.Valid() && Settled(g.stack) && SavedOnly(g.locals, s0, g.stack, c0, g.code)
    requires StackOk(s0, g.locals, g.first) && Settled(s0)
    requires k < |g.stack| && Suits(g.stack, k, params) && Suits(s0, k, params) && g.stack[k].off % 8 == 0
    modifies g`stack, g`code
    ensures g.Valid() && g.stack == old(g.stack)[..k]
    ensures base == Aligned8(old(g.stack)[k].off) && base % 8 == 0 && base >= NextSlot(g.stack, I32, g.first)
    ensures |c0| <= |g.code| && g.code[..|c0|] == c0
    ensures Contiguous(s0, k) <==> Delivers(g.locals, s0, g.stack, params, base, g.code[|c0|..])
  {
    hide StackOk, SavedOnly, Settled, Contiguous, Delivers, Keeps, Suits, NextSlot, InSlots, SparesWord;
    ghost var s1, c1 := g.stack, g.code;
    SaveArguments(g, k);
    ghost var s2, c2 := g.stack, g.code;
    SavedKeeps(g.locals, s1, s2, c1, c2);
    base := g.stack[k].off;
    SavedThen(g.locals, s0, s1, s2, c0, c1, c2);
    SavedKeeps(g.locals, s0, s2, c0, c2);
    PrefixOk(s2, g.locals, g.first, k);
    SlotAbove(s2, g.locals, g.first, k);
    assert s2[..k] == s1[..k];
    if Contiguous(s0, k) {
      SameContiguous(s0, s2, k);
      SameSuits(s1, s2, k, params);
      SlotsDeliver(g.locals, s0, s2, params, k, base, c2[|c0|..]);
    } else {
      GapNotDelivered(g.locals, s0, g.first, s2[..k], params, k, c2[|c0|..]);
    }
    g.stack := g.stack[..k];
  }

  lemma SameSuits(s: seq<Entry>, t: seq<Entry>, k: nat, params: seq<Ty>)
    requires Suits(s, k, params) && |t| == |s| && forall j :: 0 <= j < |t| ==> t[j].ty == s[j].ty
    ensures Suits(t, k, params)
  {
  }

  /** Without arguments the callee's frame starts at the next slot, aligned to eight. */
  method PassNothing(g: Generator) returns (base: int)
    requires g.Valid()
    ensures base == Aligned8(NextSlot(g.stack, I32, g.first)) && base % 8 == 0
      && base >= NextSlot(g.stack, I32, g.first)
  {
    hide StackOk, NextSlot;
    SlotsKnown(g.stack, g.locals, g.first);
    NextSlotFits(g.stack, I32, g.first);
    base := NextSlot(g.stack, I32, g.first);
    if base % 8 > 0 {
      FourModEight(base);
      FourMore(base);
      base := base + 4;
    }
  }

  /** The part of `pwart_EmitCallFunc2` before the call: `base` is where the callee's
      frame starts. */
  method PassArguments(g: Generator, params: seq<Ty>) returns (base: int)
    requires g.Valid() && Settled(g.stack) && |params| <= |g.stack|
    requires Suits(g.stack, |g.stack| - |params|, params)
    modifies g`stack, g`code
    ensures |g.stack| + |params| == |old(g.stack)| && g.stack == AllSpilled(old(g.stack))[..|g.stack|]
    ensures g.Valid() && base % 8 == 0 && base >= NextSlot(g.stack, I32, g.first)
    ensures base == Aligned8(if params == [] then NextSlot(g.stack, I32, g.first) else old(g.stack)[|g.stack|].off)
    ensures |old(g.code)| <= |g.code| && g.code[..|old(g.code)|] == old(g.code)
    ensures CanPass(old(g.stack), |g.stack|) <==>
      Delivers(g.locals, old(g.stack), g.stack, params, base, g.code[|old(g.code)|..])
  {
    hide StackOk, SavedOnly, Settled, Contiguous, NoOverrun, Realigned, Delivers, Keeps, NoScratch, Suits, AllSpilled,
      NextSlot, InSlots, SparesWord;
    ghost var s0, c0 := g.stack, g.code;
    SaveScratchAll(g);
    ghost var s1, c1 := g.stack, g.code;
    SavedKeeps(g.locals, s0, s1, c0, c1);
    var k := |g.stack| - |params|;
    SameSuits(s0, s1, k, params);
    if |params| == 0 {
      base := PassNothing(g);
      assert s1[..k] == s1;
      InSlotsNone(s1);
      SlotsDeliver(g.locals, s0, s1, params, k, base, c1[|c0|..]);
    } else if g.stack[k].off % 8 > 0 {
      base := PassMoved(g, params, k, s0, c0);
    } else {
      base := PassInPlace(g, params, k, s0, c0);
    }
  }

  lemma InSlotsNone(s: seq<Entry>)
    ensures InSlots(s, |s|)
  {
  }
}
