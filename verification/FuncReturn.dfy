/** How a function hands back its results, and exactly when every result arrives. */
module FuncReturn {
  import opened LazyMachine
  import opened LazyStack
  import opened LazyOps
  import opened Frames
  import opened CallLayout
  import opened Calls
  import opened CallReturn

  // ------------------------------------------------------------------- the moves

  /** Where result `i` goes; `x` are the entries of the results. */
  function Goal(x: seq<Entry>, i: nat): int
    requires i < |x|
  {
    OffsetOf(Types(x), i)
  }

  function Back(x: seq<Entry>, i: nat): Emit
    requires i < |x|
  {
    Transfer(x[i], Frame(Goal(x, i)))
  }

  function Backs(x: seq<Entry>): (es: seq<Emit>)
    ensures |es| == |x|
  {
    seq(|x|, i requires 0 <= i < |x| => Back(x, i))
  }

  /** `pwart_EmitFuncReturn`, for `n` results; with fewer values nothing is stored. */
  method EmitFuncReturn(s: seq<Entry>, n: nat) returns (es: seq<Emit>)
    ensures |s| < n ==> es == []
    ensures |s| >= n ==> es == Backs(s[|s| - n..])
  {
    hide AlignUp, Size, Transfer, EndOf, OffsetOf;
    es := [];
    if |s| < n {
      return;
    }
    ghost var x := s[|s| - n..];
    EndStart(Types(x));
    var idx, off := 0, 0;
    while idx < n
      invariant 0 <= idx <= n && off == EndOf(Types(x), idx) && es == Backs(x)[..idx]
    {
      var e := s[|s| - n + idx];
      assert e == x[idx];
      PlaceIsAligned(Types(x), idx);
      EndNext(Types(x), idx);
      var at := AlignUp(off, e.ty);
      es := es + [Transfer(e, Frame(at))];
      off := at + Size(e.ty);
      idx := idx + 1;
    }
  }

  /** The machine after the first `p` moves. */
  function Stored(x: seq<Entry>, p: nat, m: Machine): Machine
    requires p <= |x|
  {
    Run(Backs(x)[..p], m)
  }

  lemma StoredNone(x: seq<Entry>, m: Machine)
    ensures Stored(x, 0, m) == m
  {
  }

  lemma StoredNext(x: seq<Entry>, p: nat, m: Machine)
    requires p < |x| && (x[p].val.Cmp? ==> x[p].ty.I32?)
    ensures var a := Stored(x, p, m);
      Stored(x, p + 1, m) == Write(a, x[p].ty, Frame(Goal(x, p)), Denote(x[p], a))
  {
    hide Run, Goal, Read, Write;
    assert Backs(x)[..p + 1] == Backs(x)[..p] + [Back(x, p)];
    RunConcat(Backs(x)[..p], [Back(x, p)], m);
    RunOne(Back(x, p), Stored(x, p, m));
  }

  // -------------------------------------------------------------- when it works

  /** Result `j` still has its value after result `i` has been stored: it is not in the
      frame, or lies apart from where result `i` goes, or result `i` was there already. */
  predicate Kept(x: seq<Entry>, i: nat, j: nat)
    requires i < j < |x|
  {
    x[j].val.At? && x[j].val.loc.Frame? ==>
      || x[j].val.loc.off + Size(x[j].ty) <= Goal(x, i)
      || Goal(x, i) + Size(x[i].ty) <= x[j].val.loc.off
      || x[i].val == At(Frame(Goal(x, i)))
  }

  predicate CanReturn(x: seq<Entry>) {
    forall i, j :: 0 <= i < j < |x| ==> Kept(x, i, j)
  }

  /** Whatever the machine holds, the moves leave every result where the caller expects it. */
  ghost predicate Returns(locals: seq<Place>, s: seq<Entry>, results: seq<Ty>, es: seq<Emit>)
    requires |results| <= |s|
  {
    forall m, w :: Rel(s, locals, m, w) ==>
      |w.stack| == |s| && LaidOut(Run(es, m).frame, 0, results, w.stack[|s| - |results|..], |results|)
  }

  /** Two places in the frame are the same or apart. */
  predicate Distinct(a: Entry, b: Entry) {
    a.val.At? && a.val.loc.Frame? && b.val.At? && b.val.loc.Frame? ==>
      (a.val == b.val && a.ty == b.ty) || Apart(a.val.loc, a.ty, b.val.loc, b.ty)
  }

  /** What the results have in common with every part of a stack. */
  ghost predicate Sources(x: seq<Entry>) {
    && (forall i :: 0 <= i < |x| ==> if x[i].val.At? then Aligned(x[i].val.loc) else x[i].ty.I32? && i == |x| - 1)
    && forall i, j :: 0 <= i < j < |x| ==> Distinct(x[i], x[j])
  }

  lemma PlacesDistinct(s: seq<Entry>, locals: seq<Place>, first: int, i: nat, j: nat)
    requires StackOk(s, locals, first) && i < j < |s|
    ensures Distinct(s[i], s[j])
  {
    assert PlaceOk(s[i], locals) && PlaceOk(s[j], locals);
    if s[i].val.At? && s[i].val.loc.Frame? && s[j].val.At? && s[j].val.loc.Frame? {
      var a, b := s[i].val.loc, s[j].val.loc;
      if a != Frame(s[i].off) {
        var y :| 0 <= y < |locals| && locals[y] == Place(a, s[i].ty);
        assert LocalOk(locals[y], first);
        if b != Frame(s[j].off) {
          var z :| 0 <= z < |locals| && locals[z] == Place(b, s[j].ty);
          assert y == z || y < z || z < y;
        }
      } else if b != Frame(s[j].off) {
        var z :| 0 <= z < |locals| && locals[z] == Place(b, s[j].ty);
        assert LocalOk(locals[z], first);
      }
    }
  }

  lemma PlaceAligned(s: seq<Entry>, locals: seq<Place>, first: int, i: nat)
    requires StackOk(s, locals, first) && i < |s| && s[i].val.At?
    ensures Aligned(s[i].val.loc)
  {
    assert PlaceOk(s[i], locals);
    var l := s[i].val.loc;
    if !l.Imm? && !IsScratch(l) && l != Frame(s[i].off) {
      var y :| 0 <= y < |locals| && locals[y] == Place(l, s[i].ty);
      assert LocalOk(locals[y], first);
    }
  }

  lemma SourcesOf(s: seq<Entry>, locals: seq<Place>, first: int, k: nat)
    requires StackOk(s, locals, first) && k <= |s|
    ensures Sources(s[k..])
  {
    hide PlaceOk, Slots, LocalsOk, Distinct, Aligned;
    var x := s[k..];
    forall i | 0 <= i < |x|
      ensures if x[i].val.At? then Aligned(x[i].val.loc) else x[i].ty.I32? && i == |x| - 1
    {
      if x[i].val.At? {
        PlaceAligned(s, locals, first, k + i);
      } else {
        assert s[k + i].val.Cmp?;
      }
    }
    forall i, j | 0 <= i < j < |x|
      ensures Distinct(x[i], x[j])
    {
      PlacesDistinct(s, locals, first, k + i, k + j);
    }
  }

  // --------------------------------------------------------------- if it may, it does

  lemma GoalAligned(x: seq<Entry>, i: nat)
    requires i < |x|
    ensures Goal(x, i) % 4 == 0
  {
    EndAligned(Types(x), i);
  }

  lemma GoalsApart(x: seq<Entry>, i: nat, j: nat)
    requires i < j < |x|
    ensures Goal(x, i) + Size(x[i].ty) <= Goal(x, j)
  {
    OffsetsApart(Types(x), i, j);
  }

  /** Stored over by nothing, result `j` is read as it was at the start. */
  lemma {:induction false} ReadKept(x: seq<Entry>, p: nat, j: nat, m: Machine)
    requires Sources(x) && p <= j < |x| && InRange(x[j].ty, Denote(x[j], m))
    requires forall i :: 0 <= i < p ==> Kept(x, i, j)
    ensures Denote(x[j], Stored(x, p, m)) == Denote(x[j], m)
    decreases p
  {
    hide Stored, Goal, Read, Write, InRange;
    if p == 0 {
      StoredNone(x, m);
    } else {
      var q := p - 1;
      ReadKept(x, q, j, m);
      StoredNext(x, q, m);
      assert Kept(x, q, j) && Distinct(x[q], x[j]);
      StepKept(x, q, j, Stored(x, q, m));
    }
  }

  lemma StepKept(x: seq<Entry>, q: nat, j: nat, a: Machine)
    requires q < j < |x| && Kept(x, q, j) && Distinct(x[q], x[j]) && InRange(x[j].ty, Denote(x[j], a))
    requires x[j].val.At? ==> Aligned(x[j].val.loc)
    ensures Denote(x[j], Write(a, x[q].ty, Frame(Goal(x, q)), Denote(x[q], a))) == Denote(x[j], a)
  {
    hide Goal, Read, Write, InRange;
    var to, v := Frame(Goal(x, q)), Denote(x[q], a);
    WriteKeepsFlags(a, x[q].ty, to, v);
    if x[j].val.At? {
      var l := x[j].val.loc;
      GoalAligned(x, q);
      if Apart(to, x[q].ty, l, x[j].ty) {
        ReadApart(a, x[q].ty, to, v, x[j].ty, l);
      } else {
        SizePositive(x[q].ty);
        assert x[q].val == At(to) && x[q].ty == x[j].ty && l == to;
        ReadWrite(a, x[q].ty, to, v);
      }
    }
  }

  /** Later results are not stored over the place of an earlier one. */
  lemma {:induction false} WordStays(x: seq<Entry>, i: nat, p: nat, m: Machine, o: int)
    requires Sources(x) && i < p <= |x| && o % 4 == 0 && Goal(x, i) <= o < Goal(x, i) + Size(x[i].ty)
    ensures Word(Stored(x, p, m).frame, o) == Word(Stored(x, i + 1, m).frame, o)
    decreases p
  {
    hide Stored, Goal, Read, Denote, Word, Size;
    if i + 1 < p {
      var q := p - 1;
      WordStays(x, i, q, m, o);
      StoredNext(x, q, m);
      GoalsApart(x, i, q);
      PutBeyond(Stored(x, q, m).frame, x[q].ty, Goal(x, q), Denote(x[q], Stored(x, q, m)), o);
    }
  }

  lemma PutBeyond(mem: map<int, int>, ty: Ty, off: int, v: int, o: int)
    requires o < off
    ensures Word(Put(mem, ty, off, v), o) == Word(mem, o)
  {
  }

  lemma FetchStays(x: seq<Entry>, i: nat, m: Machine)
    requires Sources(x) && i < |x|
    ensures Fetch(Stored(x, |x|, m).frame, x[i].ty, Goal(x, i)) == Fetch(Stored(x, i + 1, m).frame, x[i].ty, Goal(x, i))
  {
    hide Stored, Goal, Word;
    GoalAligned(x, i);
    WordStays(x, i, |x|, m, Goal(x, i));
    if x[i].ty.I64? {
      NextWord(Goal(x, i));
      WordStays(x, i, |x|, m, Goal(x, i) + 4);
    }
  }

  lemma NextWord(o: int)
    requires o % 4 == 0
    ensures (o + 4) % 4 == 0
  {
  }

  /** What arrives as result `i`: its value at the moment it is stored. */
  lemma Arrives(x: seq<Entry>, i: nat, m: Machine)
    requires Sources(x) && i < |x| && InRange(x[i].ty, Denote(x[i], Stored(x, i, m)))
    ensures Fetch(Stored(x, |x|, m).frame, x[i].ty, Goal(x, i)) == Denote(x[i], Stored(x, i, m))
  {
    hide Stored, Goal, Fetch, Put, InRange, Denote, Sources;
    assert x[i].val.Cmp? ==> x[i].ty.I32? by {
      LastPending(x, i);
    }
    FetchStays(x, i, m);
    StoredNext(x, i, m);
    MemPut(Stored(x, i, m).frame, x[i].ty, Goal(x, i), Denote(x[i], Stored(x, i, m)));
  }

  lemma LastPending(x: seq<Entry>, i: nat)
    requires Sources(x) && i < |x|
    ensures x[i].val.Cmp? ==> x[i].ty.I32?
  {
  }

  lemma TopsAre(s: seq<Entry>, k: nat, results: seq<Ty>)
    requires Suits(s, k, results)
    ensures Types(s[k..]) == results
  {
  }

  lemma AllArrive(locals: seq<Place>, s: seq<Entry>, first: int, results: seq<Ty>, m: Machine, w: Wasm)
    requires |results| <= |s| && Suits(s, |s| - |results|, results) && StackOk(s, locals, first)
    requires CanReturn(s[|s| - |results|..]) && Rel(s, locals, m, w)
    ensures |w.stack| == |s|
    ensures LaidOut(Run(Backs(s[|s| - |results|..]), m).frame, 0, results, w.stack[|s| - |results|..], |results|)
  {
    hide StackOk, Fetch, OffsetOf, Sources, Run, Kept, Denote, InRange;
    var k := |s| - |results|;
    var x := s[k..];
    SourcesOf(s, locals, first, k);
    TopsAre(s, k, results);
    RelSize(s, locals, m, w);
    assert Backs(x)[..|x|] == Backs(x);
    forall i | 0 <= i < |results|
      ensures Argument(Run(Backs(x), m).frame, 0, results, i) == w.stack[k..][i]
    {
      assert x[i] == s[k + i] && Denote(s[k + i], m) == w.stack[k + i];
      ReadKept(x, i, i, m);
      Arrives(x, i, m);
    }
  }

  // ------------------------------------------------------- if it may not, it does not

  /** A result that is stored over another and has not been stored over itself. */
  lemma FirstOverrun(x: seq<Entry>) returns (i: nat, j: nat)
    requires !CanReturn(x)
    ensures i < j < |x| && !Kept(x, i, j)
    ensures forall p :: 0 <= p < i ==> Kept(x, p, i)
  {
    hide Kept;
    i, j :| 0 <= i < j < |x| && !Kept(x, i, j);
    while !forall p :: 0 <= p < i ==> Kept(x, p, i)
      invariant i < j < |x| && !Kept(x, i, j)
      decreases i
    {
      var p: nat :| p < i && !Kept(x, p, i);
      i, j := p, i;
    }
  }

  ghost predicate Words(mem: map<int, int>) {
    forall o :: 0 <= Word(mem, o) < WORD
  }

  lemma PutIsWords(mem: map<int, int>, ty: Ty, off: int, v: int)
    requires Words(mem)
    ensures Words(Put(mem, ty, off, v))
  {
    forall o
      ensures 0 <= Word(Put(mem, ty, off, v), o) < WORD
    {
      assert 0 <= Word(mem, o) < WORD;
    }
  }

  lemma {:induction false} StaysWords(x: seq<Entry>, p: nat, m: Machine)
    requires Sources(x) && p <= |x| && Words(m.frame)
    ensures Words(Stored(x, p, m).frame)
    decreases p
  {
    hide Stored, Goal, Words, Denote, Put;
    if p == 0 {
      StoredNone(x, m);
    } else {
      StaysWords(x, p - 1, m);
      StoredNext(x, p - 1, m);
      var a := Stored(x, p - 1, m);
      PutIsWords(a.frame, x[p - 1].ty, Goal(x, p - 1), Denote(x[p - 1], a));
    }
  }

  lemma FetchInRange(mem: map<int, int>, ty: Ty, off: int)
    requires Words(mem)
    ensures InRange(ty, Fetch(mem, ty, off))
  {
    assert 0 <= Word(mem, off) < WORD && 0 <= Word(mem, off + 4) < WORD;
  }

  /** The word at `o` of a value that lies at `off`. */
  function Half(v: int, off: int, o: int): int {
    if o == off then v % WORD else v / WORD % WORD
  }

  predicate Covers(off: int, ty: Ty, o: int) {
    o == off || (ty.I64? && o == off + 4)
  }

  lemma FetchHalf(mem: map<int, int>, ty: Ty, off: int, o: int)
    requires Words(mem) && Covers(off, ty, o)
    ensures Half(Fetch(mem, ty, off), off, o) == Word(mem, o)
  {
    assert 0 <= Word(mem, off) < WORD && 0 <= Word(mem, off + 4) < WORD;
  }

  lemma PutHalf(mem: map<int, int>, ty: Ty, off: int, v: int, o: int)
    requires Covers(off, ty, o)
    ensures Word(Put(mem, ty, off, v), o) == Half(v, off, o)
  {
  }

  lemma MarkedWords(o: int, v: int)
    requires 0 <= v < WORD
    ensures Words(Marked(o, v).frame)
  {
  }

  /** A value from elsewhere has, for some content of the word, another half than that word. */
  lemma OtherHalf(e: Entry, off: int, o: int) returns (v: int)
    requires e.val.At? && e.val != At(Frame(off)) && Covers(off, e.ty, o)
    ensures 0 <= v <= 1 && Half(Denote(e, Marked(o, v)), off, o) != v
  {
    if e.val.loc.Frame? {
      var from := e.val.loc.off;
      MarkedWords(o, 1);
      FetchHalf(Marked(o, 1).frame, e.ty, from, from + (o - off));
      v := 1;
    } else {
      v := if Half(Denote(e, BLANK), off, o) == 0 then 1 else 0;
    }
  }

  lemma MarkedRelated(s: seq<Entry>, locals: seq<Place>, first: int, o: int, v: int)
    requires StackOk(s, locals, first) && 0 <= v < WORD
    ensures Rel(s, locals, Marked(o, v), Reading(s, locals, Marked(o, v)))
  {
    hide Read, Marked, PlaceOk, Slots, LocalsOk;
    var m := Marked(o, v);
    forall i | 0 <= i < |s|
      ensures InRange(s[i].ty, Denote(s[i], m))
    {
      if s[i].val.At? {
        MarkedInRange(s[i].ty, s[i].val.loc, o, v);
      }
    }
    forall y | 0 <= y < |locals|
      ensures InRange(locals[y].ty, Read(m, locals[y].ty, locals[y].loc))
    {
      MarkedInRange(locals[y].ty, locals[y].loc, o, v);
    }
  }

  lemma MarkedInRange(ty: Ty, l: Loc, o: int, v: int)
    requires 0 <= v < WORD
    ensures InRange(ty, Read(Marked(o, v), ty, l))
  {
    if l.Frame? {
      MarkedWords(o, v);
      FetchInRange(Marked(o, v).frame, ty, l.off);
    }
  }

  /** In the machine so marked, what arrives as result `j` is not its value. */
  lemma OverrunArrives(x: seq<Entry>, i: nat, j: nat, o: int, v: int)
    requires Sources(x) && i < j < |x| && (forall p :: 0 <= p < i ==> Kept(x, p, i)) && o % 4 == 0 && 0 <= v <= 1
    requires x[j].val.At? && x[j].val.loc.Frame? && Covers(x[j].val.loc.off, x[j].ty, o)
      && Covers(Goal(x, i), x[i].ty, o)
    requires InRange(x[i].ty, Denote(x[i], Marked(o, v))) && Half(Denote(x[i], Marked(o, v)), Goal(x, i), o) != v
    ensures Fetch(Stored(x, |x|, Marked(o, v)).frame, x[j].ty, Goal(x, j)) != Denote(x[j], Marked(o, v))
  {
    hide Stored, Goal, Fetch, Put, Sources, Kept, InRange, Half, Word, Marked;
    var m := Marked(o, v);
    var from := x[j].val.loc.off;
    LastPending(x, i);
    ReadKept(x, i, i, m);
    StoredNext(x, i, m);
    PutHalf(Stored(x, i, m).frame, x[i].ty, Goal(x, i), Denote(x[i], m), o);
    WordStays(x, i, j, m, o);
    MarkedWords(o, v);
    MarkedWord(o, v);
    StaysWords(x, j, m);
    FetchInRange(Stored(x, j, m).frame, x[j].ty, from);
    Arrives(x, j, m);
    FetchHalf(Stored(x, j, m).frame, x[j].ty, from, o);
    FetchHalf(m.frame, x[j].ty, from, o);
  }

  lemma SomeLost(locals: seq<Place>, s: seq<Entry>, first: int, results: seq<Ty>)
    requires |results| <= |s| && Suits(s, |s| - |results|, results) && StackOk(s, locals, first)
    requires !CanReturn(s[|s| - |results|..])
    ensures !Returns(locals, s, results, Backs(s[|s| - |results|..]))
  {
    hide StackOk, Fetch, OffsetOf, Sources, Run, Rel, Half, Marked, Reading, CanReturn;
    var k := |s| - |results|;
    var x := s[k..];
    SourcesOf(s, locals, first, k);
    TopsAre(s, k, results);
    var i, j := FirstOverrun(x);
    SourceAligned(x, i);
    SourceAligned(x, j);
    GoalAligned(x, i);
    var o := CommonWord(Goal(x, i), x[i].ty, x[j].val.loc.off, x[j].ty);
    CoveredBy(x[j].val.loc.off, x[j].ty, o);
    var v := OtherHalf(x[i], Goal(x, i), o);
    var m := Marked(o, v);
    var w := Reading(s, locals, m);
    MarkedRelated(s, locals, first, o, v);
    DenotedInRange(s, locals, m, w, k + i);
    DenotedInRange(s, locals, m, w, k + j);
    OverrunArrives(x, i, j, o, v);
    assert Backs(x)[..|x|] == Backs(x);
    if Returns(locals, s, results, Backs(x)) {
      assert LaidOut(Run(Backs(x), m).frame, 0, results, w.stack[k..], |results|);
      assert Argument(Run(Backs(x), m).frame, 0, results, j) == w.stack[k..][j];
    }
  }

  lemma SourceAligned(x: seq<Entry>, i: nat)
    requires Sources(x) && i < |x|
    ensures x[i].val.At? ==> Aligned(x[i].val.loc)
    ensures x[i].val.Cmp? ==> i == |x| - 1
  {
  }

  lemma CoveredBy(off: int, ty: Ty, o: int)
    requires off % 4 == 0 && o % 4 == 0 && off <= o < off + Size(ty)
    ensures Covers(off, ty, o)
  {
  }

  lemma DenotedInRange(s: seq<Entry>, locals: seq<Place>, m: Machine, w: Wasm, i: nat)
    requires Rel(s, locals, m, w) && i < |s|
    ensures |w.stack| == |s| && Denote(s[i], m) == w.stack[i] && InRange(s[i].ty, w.stack[i])
  {
  }

  // ------------------------------------------------------------------- the theorem

  /** A function hands back its results, whatever they are, exactly when no result is
      stored over one that is still to be moved. */
  lemma ReturnsExactly(locals: seq<Place>, s: seq<Entry>, first: int, results: seq<Ty>)
    requires |results| <= |s| && Suits(s, |s| - |results|, results) && StackOk(s, locals, first)
    ensures CanReturn(s[|s| - |results|..]) <==> Returns(locals, s, results, Backs(s[|s| - |results|..]))
  {
    hide StackOk, Suits, Rel, LaidOut, Run, CanReturn;
    if CanReturn(s[|s| - |results|..]) {
      forall m, w | Rel(s, locals, m, w)
        ensures |w.stack| == |s|
        ensures LaidOut(Run(Backs(s[|s| - |results|..]), m).frame, 0, results, w.stack[|s| - |results|..], |results|)
      {
        AllArrive(locals, s, first, results, m, w);
      }
    } else {
      SomeLost(locals, s, first, results);
    }
  }

  /** `pwart_EmitFuncReturn` for a function whose results have these types. */
  method HandBack(s: seq<Entry>, results: seq<Ty>, ghost locals: seq<Place>, ghost first: int) returns (es: seq<Emit>)
    requires StackOk(s, locals, first) && (|results| <= |s| ==> Suits(s, |s| - |results|, results))
    ensures |s| < |results| ==> es == []
    ensures |results| <= |s| ==> es == Backs(s[|s| - |results|..])
    ensures |results| <= |s| ==> (CanReturn(s[|s| - |results|..]) <==> Returns(locals, s, results, es))
  {
    hide StackOk, Suits, Returns, CanReturn, Backs;
    es := EmitFuncReturn(s, |results|);
    if |results| <= |s| {
      ReturnsExactly(locals, s, first, results);
    }
  }

  // ------------------------------------------------------------------- instances

  /** A single result always ends up at the start of the frame, where the caller expects it. */
  lemma SingleResult(s: seq<Entry>, ty: Ty, locals: seq<Place>, m: Machine, w: Wasm)
    requires s != [] && Rel(s, locals, m, w) && s[|s| - 1].ty == ty && (s[|s| - 1].val.Cmp? ==> ty.I32?)
    ensures CanReturn(s[|s| - 1..])
    ensures LaidOut(Run(Backs(s[|s| - 1..]), m).frame, 0, [ty], w.stack[|s| - 1..], 1)
  {
    hide Read, Put, Fetch, InRange;
    FirstPlace([ty]);
    var e := s[|s| - 1];
    TopsAre(s, |s| - 1, [ty]);
    assert Backs(s[|s| - 1..]) == [Transfer(e, Frame(0))];
    RunOne(Transfer(e, Frame(0)), m);
    TransferStores(e, m, 0);
    MemPut(m.frame, ty, 0, Denote(e, m));
    assert Denote(e, m) == w.stack[|s| - 1];
  }

  lemma TransferStores(e: Entry, m: Machine, off: int)
    requires e.val.Cmp? ==> e.ty.I32?
    ensures Step(Transfer(e, Frame(off)), m).frame == Put(m.frame, e.ty, off, Denote(e, m))
  {
  }

  /** Several results can run over one another: handing back both parameters in the
      opposite order leaves the second one twice. */
  lemma SwapLost()
    ensures
      var locals := [Place(Frame(0), I32), Place(Frame(4), I32)];
      var s := [Entry(At(Frame(4)), I32, 8), Entry(At(Frame(0)), I32, 12)];
      var m := Machine(map[], map[0 := 5, 4 := 7], map[], I32, 0, 0);
      && StackOk(s, locals, 8) && !CanReturn(s) && Rel(s, locals, m, Wasm([7, 5], [5, 7]))
      && !LaidOut(Run(Backs(s), m).frame, 0, [I32, I32], [7, 5], 2)
  {
    hide StackOk, Rel, Kept, Transfer, OffsetOf, Run;
    var s := [Entry(At(Frame(4)), I32, 8), Entry(At(Frame(0)), I32, 12)];
    var m := Machine(map[], map[0 := 5, 4 := 7], map[], I32, 0, 0);
    SwapStack();
    SwapRelated(s, m);
    SwapMoves(s);
    SwapRun(m);
    assert Argument(Run(Backs(s), m).frame, 0, [I32, I32], 1) == 7;
  }

  lemma SwapRelated(s: seq<Entry>, m: Machine)
    requires s == [Entry(At(Frame(4)), I32, 8), Entry(At(Frame(0)), I32, 12)] && m.frame == map[0 := 5, 4 := 7]
    ensures Rel(s, [Place(Frame(0), I32), Place(Frame(4), I32)], m, Wasm([7, 5], [5, 7]))
  {
  }

  lemma SwapMoves(s: seq<Entry>)
    requires s == [Entry(At(Frame(4)), I32, 8), Entry(At(Frame(0)), I32, 12)]
    ensures OffsetOf([I32, I32], 1) == 4 && !Kept(s, 0, 1)
    ensures Backs(s) == [Move(I32, Frame(0), Frame(4)), Move(I32, Frame(4), Frame(0))]
  {
    hide OffsetOf;
    FirstPlace([I32, I32]);
    EndNext([I32, I32], 0);
    PlaceIsAligned([I32, I32], 1);
    assert Types(s) == [I32, I32];
  }

  lemma SwapStack()
    ensures StackOk([Entry(At(Frame(4)), I32, 8), Entry(At(Frame(0)), I32, 12)],
                    [Place(Frame(0), I32), Place(Frame(4), I32)], 8)
  {
    var locals := [Place(Frame(0), I32), Place(Frame(4), I32)];
    LowPlaces();
    var s := [Entry(At(Frame(4)), I32, 8)];
    var e := Entry(At(Frame(0)), I32, 12);
    NothingStacked(locals, 8);
    assert PlaceOk(s[0], locals) by {
      assert locals[1] == Place(s[0].val.loc, I32);
    }
    PushFirst(s[0], locals, 8);
    assert PlaceOk(e, locals) by {
      assert locals[0] == Place(e.val.loc, I32);
    }
    PushSecond(s[0], e, locals, 8);
    assert [s[0]] + [e] == [s[0], e];
  }

  lemma LowPlaces()
    ensures LocalsOk([Place(Frame(0), I32), Place(Frame(4), I32)], 8)
  {
  }

  lemma PushSecond(a: Entry, e: Entry, locals: seq<Place>, first: int)
    requires StackOk([a], locals, first) && a.val.At? && PlaceOk(e, locals) && e.ty.I32? && e.val.At?
      && !IsScratch(e.val.loc)
    requires e.off == a.off + Size(a.ty) && e.off % 4 == 0
    ensures StackOk([a] + [e], locals, first)
  {
    hide StackOk, PlaceOk, Size, Slots;
    AlignWord(e.off);
    PushOk([a], locals, first, e);
  }

  lemma SwapRun(m: Machine)
    requires m.frame == map[0 := 5, 4 := 7]
    ensures Run([Move(I32, Frame(0), Frame(4)), Move(I32, Frame(4), Frame(0))], m).frame == map[0 := 7, 4 := 7]
  {
    var es := [Move(I32, Frame(0), Frame(4)), Move(I32, Frame(4), Frame(0))];
    assert es[1..] == [Move(I32, Frame(4), Frame(0))];
    RunOne(es[1], Step(es[0], m));
  }
}
