/** The layout `generate_transitions` gives a pattern in the transition array,
    with absolute branch and jump targets, and the proof that the array accepts
    exactly the pattern's language. */
module RegexCompile {
  import opened RegexSyntax
  import opened RegexNfa

  // -------------------------------------------------------- reference layout

  function TermSize(t: Term): nat
    decreases t, 0
  {
    match t
    case Atom(l) => |LitItems(l)|
    case Group(a) => AltsSize(a, false)
    case Star(b) => TermSize(b) + 2
    case Plus(b) => TermSize(b) + 1
    case Opt(b) => TermSize(b) + 1
    case Tag(b, _) => TermSize(b) + 1
  }

  function ConcatSize(s: Concat): nat
    decreases s, 0
  {
    match s
    case Empty => 0
    case Snoc(init, t) => ConcatSize(init) + TermSize(t)
    case Note(init, _) => ConcatSize(init) + 1
  }

  /** `more`: further alternatives follow on the right. */
  function BlockSize(s: Concat, more: bool): nat
    decreases s, 1
  {
    if more then ConcatSize(s) + 1 else ConcatSize(s)
  }

  function AltsSize(a: Alts, more: bool): nat
    decreases a, 0
  {
    match a
    case Only(s) => BlockSize(s, more)
    case Or(l, s) => AltsSize(l, true) + 1 + BlockSize(s, more)
  }

  function PatternSize(p: Alts): nat {
    AltsSize(p, false) + 2
  }

  // `dfa_size` is the number of cells of the layout.

  lemma {:induction false} MembersWeight(ms: seq<Member>)
    ensures TotalWeight(MembersItems(ms)) == |MembersItems(ms)|
  {
    if ms != [] {
      MembersWeight(ms[1..]);
      TotalWeightConcat(MemberItems(ms[0]), MembersItems(ms[1..]));
      var m := MemberItems(ms[0]);
      assert m[..1] == [m[0]] && m[..|m| - 1] == m[..|m| - 1];
      WeightOne(m[0]);
      if |m| == 2 {
        assert m[..|m| - 1] == [m[0]];
      } else {
        assert m == [m[0]];
      }
    }
  }

  lemma WeightSnoc(xs: seq<Item>, i: Item)
    ensures TotalWeight(xs + [i]) == TotalWeight(xs) + Weight(i)
  {
    TotalWeightConcat(xs, [i]);
    WeightOne(i);
  }

  lemma WeightCons(i: Item, xs: seq<Item>)
    ensures TotalWeight([i] + xs) == Weight(i) + TotalWeight(xs)
  {
    TotalWeightConcat([i], xs);
    WeightOne(i);
  }

  lemma {:induction false} TermWeight(t: Term)
    ensures TotalWeight(TermItems(t)) == TermSize(t)
    decreases t, 0
  {
    hide TotalWeight, AltsItems, AltsSize;
    match t
    case Atom(Single(c)) => WeightOne(Chr(c));
    case Atom(Class(invert, ms)) =>
      MembersWeight(ms);
      WeightCons(RngStart(invert), MembersItems(ms));
      WeightSnoc([RngStart(invert)] + MembersItems(ms), RngEnd);
    case Group(g) =>
      AltsWeight(g, false);
      WeightCons(OpenBr, AltsItems(g));
      WeightSnoc([OpenBr] + AltsItems(g), CloseBr);
    case Star(b) => TermWeight(b); WeightSnoc(TermItems(b), Asterisk);
    case Plus(b) => TermWeight(b); WeightSnoc(TermItems(b), PlusSign);
    case Opt(b) => TermWeight(b); WeightSnoc(TermItems(b), QuestionMark);
    case Tag(b, id) => TermWeight(b); WeightSnoc(TermItems(b), Id(id));
  }

  lemma {:induction false} ConcatWeight(s: Concat)
    ensures TotalWeight(ConcatItems(s)) == ConcatSize(s)
    decreases s, 0
  {
    hide TermItems, TermSize;
    match s
    case Empty =>
    case Snoc(init, t) =>
      ConcatWeight(init);
      TermWeight(t);
      TotalWeightConcat(ConcatItems(init), TermItems(t));
    case Note(init, id) =>
      ConcatWeight(init);
      WeightSnoc(ConcatItems(init), Id(id));
  }

  lemma {:induction false} AltsWeight(g: Alts, more: bool)
    ensures TotalWeight(AltsItems(g)) + (if more then 1 else 0) == AltsSize(g, more)
    decreases g, 0
  {
    hide TotalWeight, ConcatItems, ConcatSize;
    match g
    case Only(s) => ConcatWeight(s);
    case Or(l, s) =>
      AltsWeight(l, true);
      ConcatWeight(s);
      WeightSnoc(AltsItems(l), Select);
      TotalWeightConcat(AltsItems(l) + [Select], ConcatItems(s));
  }

  lemma PatternWeight(p: Alts)
    ensures TotalWeight(PatternItems(p)) == PatternSize(p)
  {
    AltsWeight(p, false);
    WeightCons(Begin, AltsItems(p));
    WeightSnoc([Begin] + AltsItems(p), End);
  }

  // ------------------------------------------------------- runs of fragments

  ghost predicate At(cells: Cells, a: nat, code: Cells) {
    a + |code| <= |cells| && forall k :: 0 <= k < |code| ==> cells[a + k] == code[k]
  }

  lemma AtParts(cells: Cells, a: nat, xs: Cells, ys: Cells)
    requires At(cells, a, xs + ys)
    ensures At(cells, a, xs) && At(cells, a + |xs|, ys)
  {
    assert forall k :: 0 <= k < |xs| ==> (xs + ys)[k] == xs[k];
    assert forall k :: 0 <= k < |ys| ==> (xs + ys)[|xs| + k] == ys[k];
  }

  lemma AtSingle(cells: Cells, a: nat, x: Item)
    requires At(cells, a, [x])
    ensures a < |cells| && cells[a] == x
  {
    assert cells[a + 0] == [x][0];
  }

  // A bracket expression in the array means what its members mean.

  lemma MembersSplit(cells: Cells, a: nat, ms: seq<Member>)
    requires ms != [] && At(cells, a, MembersItems(ms) + [RngEnd])
    ensures At(cells, a, MemberItems(ms[0]))
    ensures At(cells, a + |MemberItems(ms[0])|, MembersItems(ms[1..]) + [RngEnd])
  {
    var rest := MembersItems(ms[1..]) + [RngEnd];
    assert MembersItems(ms) + [RngEnd] == MemberItems(ms[0]) + rest;
    AtParts(cells, a, MemberItems(ms[0]), rest);
  }

  lemma {:induction false} MembersInArray(cells: Cells, a: nat, ms: seq<Member>, c: int)
    requires At(cells, a, MembersItems(ms) + [RngEnd])
    ensures RangeClose(cells, a) == a + |MembersItems(ms)|
    ensures RangeHit(cells, a, c) <==> AnyMember(ms, c)
    decreases |ms|
  {
    if ms == [] {
      assert MembersItems(ms) + [RngEnd] == [RngEnd];
      AtSingle(cells, a, RngEnd);
    } else {
      MembersSplit(cells, a, ms);
      hide At, RangeHit, RangeClose;
      MembersInArray(cells, a + |MemberItems(ms[0])|, ms[1..], c);
      MemberStep(cells, a, ms[0], c);
    }
  }

  lemma MemberStep(cells: Cells, a: nat, m: Member, c: int)
    requires At(cells, a, MemberItems(m))
    ensures RangeClose(cells, a) == RangeClose(cells, a + |MemberItems(m)|)
    ensures RangeHit(cells, a, c) <==> InMember(m, c) || RangeHit(cells, a + |MemberItems(m)|, c)
  {
    var items := MemberItems(m);
    assert cells[a + 0] == items[0];
    assert m.Span? ==> cells[a + 1] == items[1];
  }

  lemma LitInArray(cells: Cells, a: nat, l: Lit, c: int)
    requires At(cells, a, LitItems(l))
    ensures a < |cells| && IsState(cells[a]) && !cells[a].End?
    ensures Consumes(cells, a, c) <==> LitHit(l, c)
    ensures AfterTerm(cells, a) == a + |LitItems(l)|
  {
    hide At, MembersItems, RangeHit, RangeClose, AnyMember;
    match l
    case Single(x) => AtSingle(cells, a, Chr(x));
    case Class(invert, ms) => ClassInArray(cells, a, invert, ms, c);
  }

  lemma ClassParts(invert: bool, ms: seq<Member>)
    ensures LitItems(Class(invert, ms)) == [RngStart(invert)] + (MembersItems(ms) + [RngEnd])
    ensures |LitItems(Class(invert, ms))| == |MembersItems(ms)| + 2
  {
    hide MembersItems;
  }

  lemma ClassInArray(cells: Cells, a: nat, invert: bool, ms: seq<Member>, c: int)
    requires At(cells, a, LitItems(Class(invert, ms)))
    ensures a < |cells| && cells[a] == RngStart(invert)
    ensures Consumes(cells, a, c) <==> LitHit(Class(invert, ms), c)
    ensures AfterTerm(cells, a) == a + |LitItems(Class(invert, ms))|
  {
    hide At, MembersItems, RangeHit, RangeClose, AnyMember, LitItems;
    var rest := MembersItems(ms) + [RngEnd];
    ClassParts(invert, ms);
    AtParts(cells, a, [RngStart(invert)], rest);
    AtSingle(cells, a, RngStart(invert));
    MembersInArray(cells, a + 1, ms, c);
  }

  // The layout stated on the array itself, part by part.

  ghost predicate TermLaid(cells: Cells, t: Term, a: nat)
    decreases t, 0
  {
    a + TermSize(t) <= |cells| &&
    match t
    case Atom(l) => At(cells, a, LitItems(l))
    case Group(g) => AltsLaid(cells, g, a, false)
    case Star(b) =>
      && cells[a] == Branch(a + 2 + TermSize(b))
      && TermLaid(cells, b, a + 1)
      && cells[a + 1 + TermSize(b)] == Branch(a + 1)
    case Plus(b) => TermLaid(cells, b, a) && cells[a + TermSize(b)] == Branch(a)
    case Opt(b) => cells[a] == Branch(a + 1 + TermSize(b)) && TermLaid(cells, b, a + 1)
    case Tag(b, id) => TermLaid(cells, b, a) && cells[a + TermSize(b)] == Id(id)
  }

  ghost predicate ConcatLaid(cells: Cells, s: Concat, a: nat)
    decreases s, 0
  {
    a + ConcatSize(s) <= |cells| &&
    match s
    case Empty => true
    case Snoc(init, t) => ConcatLaid(cells, init, a) && TermLaid(cells, t, a + ConcatSize(init))
    case Note(init, id) => ConcatLaid(cells, init, a) && cells[a + ConcatSize(init)] == Id(id)
  }

  ghost predicate BlockLaid(cells: Cells, s: Concat, a: nat, more: bool)
    decreases s, 1
  {
    a + BlockSize(s, more) <= |cells| &&
    if more then cells[a] == Branch(a + 2 + ConcatSize(s)) && ConcatLaid(cells, s, a + 1)
    else ConcatLaid(cells, s, a)
  }

  ghost predicate AltsLaid(cells: Cells, g: Alts, a: nat, more: bool)
    decreases g, 0
  {
    a + AltsSize(g, more) <= |cells| &&
    match g
    case Only(s) => BlockLaid(cells, s, a, more)
    case Or(l, s) =>
      var q := a + AltsSize(l, true);
      && AltsLaid(cells, l, a, true)
      && cells[q] == Jump(a + AltsSize(g, more))
      && BlockLaid(cells, s, q + 1, more)
  }

  ghost predicate PatternLaid(cells: Cells, p: Alts) {
    && |cells| == PatternSize(p)
    && cells[0] == Begin && AltsLaid(cells, p, 1, false) && cells[|cells| - 1] == End
  }

  /** `cells` and `other` agree from `a` up to `b`. */
  ghost predicate Same(cells: Cells, other: Cells, a: nat, b: nat) {
    b <= |cells| && b <= |other| && forall k :: a <= k < b ==> cells[k] == other[k]
  }

  // A layout is a property of its own cells only.

  lemma ItemsFrame(cells: Cells, other: Cells, items: seq<Item>, a: nat)
    requires At(cells, a, items) && Same(cells, other, a, a + |items|)
    ensures At(other, a, items)
  {
  }

  lemma {:induction false} TermFrame(cells: Cells, other: Cells, t: Term, a: nat)
    requires TermLaid(cells, t, a) && Same(cells, other, a, a + TermSize(t))
    ensures TermLaid(other, t, a)
    decreases t, 0
  {
    hide At, LitItems, ConcatLaid, AltsLaid, ConcatSize, AltsSize;
    match t
    case Atom(l) => ItemsFrame(cells, other, LitItems(l), a);
    case Group(g) => AltsFrame(cells, other, g, a, false);
    case Star(b) => TermFrame(cells, other, b, a + 1);
    case Plus(b) => TermFrame(cells, other, b, a);
    case Opt(b) => TermFrame(cells, other, b, a + 1);
    case Tag(b, id) => TermFrame(cells, other, b, a);
  }

  lemma {:induction false} ConcatFrame(cells: Cells, other: Cells, s: Concat, a: nat)
    requires ConcatLaid(cells, s, a) && Same(cells, other, a, a + ConcatSize(s))
    ensures ConcatLaid(other, s, a)
    decreases s, 0
  {
    match s
    case Empty =>
    case Snoc(init, t) =>
      ConcatFrame(cells, other, init, a);
      TermFrame(cells, other, t, a + ConcatSize(init));
    case Note(init, id) => ConcatFrame(cells, other, init, a);
  }

  lemma {:induction false} BlockFrame(cells: Cells, other: Cells, s: Concat, a: nat, more: bool)
    requires BlockLaid(cells, s, a, more) && Same(cells, other, a, a + BlockSize(s, more))
    ensures BlockLaid(other, s, a, more)
    decreases s, 1
  {
    ConcatFrame(cells, other, s, if more then a + 1 else a);
  }

  lemma {:induction false} AltsFrame(cells: Cells, other: Cells, g: Alts, a: nat, more: bool)
    requires AltsLaid(cells, g, a, more) && Same(cells, other, a, a + AltsSize(g, more))
    ensures AltsLaid(other, g, a, more)
    decreases g, 0
  {
    hide TermLaid, ConcatLaid, BlockLaid;
    match g
    case Only(s) => BlockFrame(cells, other, s, a, more);
    case Or(l, s) =>
      AltsFrame(cells, other, l, a, true);
      BlockFrame(cells, other, s, a + AltsSize(l, true) + 1, more);
  }

  /** A run at a cell that consumes nothing, and not yet finished, takes an empty step. */
  lemma StepEps(cells: Cells, i: nat, w: Word, f: int, n: nat) returns (j: int)
    requires i < |cells| && !IsState(cells[i]) && i != f && Run(cells, i, w, f, n)
    ensures n > 0 && EpsStep(cells, i, j) && Run(cells, j, w, f, n - 1)
  {
    j :| EpsStep(cells, i, j) && Run(cells, j, w, f, n - 1);
  }

  /** A run at a term, and not yet finished, consumes a character. */
  lemma StepConsume(cells: Cells, i: nat, w: Word, f: int, n: nat)
    requires i < |cells| && IsState(cells[i]) && i != f && Run(cells, i, w, f, n)
    ensures n > 0 && w != [] && Consumes(cells, i, w[0])
    ensures Run(cells, AfterTerm(cells, i), w[1..], f, n - 1)
  {
  }

  // Soundness: a run that enters a fragment and ends beyond it leaves the
  // fragment at its end, having consumed a word of the fragment.

  lemma {:induction false} TermSound(cells: Cells, t: Term, a: nat, w: Word, f: int, n: nat)
    returns (k: nat, m: nat)
    requires TermLaid(cells, t, a) && f >= a + TermSize(t)
    requires Run(cells, a, w, f, n)
    ensures k <= |w| && m <= n
    ensures InTerm(t, w[..k]) && Run(cells, a + TermSize(t), w[k..], f, m)
    decreases n, t, 1
  {
    hide At, LitItems, LitHit, ConcatLaid, BlockLaid, AltsLaid, Run, Power, InConcat, InAlts;
    match t
    case Atom(l) =>
      LitInArray(cells, a, l, if w == [] then 0 else w[0]);
      StepConsume(cells, a, w, f, n);
      k, m := 1, n - 1;
    case Group(g) =>
      var here;
      here, k, m := AltsSound(cells, g, a, false, w, f, n);
    case Star(b) =>
      k, m := StarSound(cells, b, a, w, f, n);
    case Plus(b) =>
      var p;
      k, m, p := LoopSound(cells, b, a, w, f, n);
    case Opt(b) =>
      var j := StepEps(cells, a, w, f, n);
      if j == a + 1 {
        k, m := TermSound(cells, b, a + 1, w, f, n - 1);
      } else {
        k, m := 0, n - 1;
        assert w[0..] == w;
      }
    case Tag(b, id) =>
      k, m := TermSound(cells, b, a, w, f, n);
      var j := StepEps(cells, a + TermSize(b), w[k..], f, m);
      m := m - 1;
  }

  lemma StarLaid(cells: Cells, b: Term, a: nat)
    requires TermLaid(cells, Star(b), a)
    ensures TermSize(Star(b)) == TermSize(b) + 2 && TermLaid(cells, b, a + 1)
    ensures a + 1 + TermSize(b) < |cells| && cells[a + 1 + TermSize(b)] == Branch(a + 1)
    ensures cells[a] == Branch(a + 2 + TermSize(b))
    ensures EpsStep(cells, a, a + 1) && EpsStep(cells, a, a + 2 + TermSize(b))
  {
  }

  lemma PowerZero(b: Term, u: Word)
    ensures Power(b, 0, u) <==> u == []
  {
  }

  lemma PowerStar(b: Term, n: nat, u: Word)
    requires Power(b, n, u) || (n == 0 && u == [])
    ensures InTerm(Star(b), u)
  {
    PowerZero(b, u);
  }

  lemma {:induction false} StarSound(cells: Cells, b: Term, a: nat, w: Word, f: int, n: nat)
    returns (k: nat, m: nat)
    requires TermLaid(cells, Star(b), a) && f >= a + TermSize(Star(b))
    requires Run(cells, a, w, f, n)
    ensures k <= |w| && m <= n
    ensures InTerm(Star(b), w[..k]) && Run(cells, a + TermSize(Star(b)), w[k..], f, m)
    decreases n, Star(b), 0
  {
    hide TermLaid, ConcatLaid, BlockLaid, AltsLaid, Run, Power, InTerm, InConcat, InAlts, TermSize;
    StarLaid(cells, b, a);
    var j := StepEps(cells, a, w, f, n);
    if j == a + 1 {
      var p;
      k, m, p := LoopSound(cells, b, a + 1, w, f, n - 1);
      PowerStar(b, p, w[..k]);
    } else {
      k, m := 0, n - 1;
      PowerStar(b, 0, w[..0]);
      assert w[0..] == w;
    }
  }

  lemma PowerSplit(b: Term, p: nat, u: Word) returns (x: Word, y: Word)
    requires 1 <= p && Power(b, p, u)
    ensures u == x + y && InTerm(b, x) && Power(b, p - 1, y)
    ensures p == 1 ==> y == []
  {
    var k :| 0 <= k <= |u| && InTerm(b, u[..k]) && Power(b, p - 1, u[k..]);
    x, y := u[..k], u[k..];
  }

  lemma PowerJoin(b: Term, p: nat, x: Word, y: Word)
    requires InTerm(b, x) && Power(b, p, y)
    ensures Power(b, p + 1, x + y)
  {
    assert (x + y)[..|x|] == x && (x + y)[|x|..] == y;
  }

  lemma Pieces(w: Word, i: nat, j: nat)
    requires i + j <= |w|
    ensures w[..i] + w[i..][..j] == w[..i + j] && w[i..][j..] == w[i + j..]
  {
  }

  /** The loop of `*` and `+`: the body at `a`, then a branch back to `a`. */
  lemma {:induction false} LoopSound(cells: Cells, b: Term, a: nat, w: Word, f: int, n: nat)
    returns (k: nat, m: nat, p: nat)
    requires TermLaid(cells, b, a) && f > a + TermSize(b)
    requires a + TermSize(b) < |cells| && cells[a + TermSize(b)] == Branch(a)
    requires Run(cells, a, w, f, n)
    ensures k <= |w| && m < n && 1 <= p
    ensures Power(b, p, w[..k]) && Run(cells, a + TermSize(b) + 1, w[k..], f, m)
    decreases n, b, 2
  {
    hide TermLaid, Run, Power, InTerm, TermSize;
    var end := a + TermSize(b);
    var k1, m1 := TermSound(cells, b, a, w, f, n);
    var rest := w[k1..];
    var j := StepEps(cells, end, rest, f, m1);
    if j == end + 1 {
      k, m, p := k1, m1 - 1, 1;
      PowerZero(b, []);
      PowerJoin(b, 0, w[..k], []);
      assert w[..k] + [] == w[..k];
    } else {
      var k2, m2, p2 := LoopSound(cells, b, a, rest, f, m1 - 1);
      k, m, p := k1 + k2, m2, p2 + 1;
      PowerJoin(b, p2, w[..k1], rest[..k2]);
      Pieces(w, k1, k2);
    }
  }

  lemma {:induction false} ConcatSound(cells: Cells, s: Concat, a: nat, w: Word, f: int, n: nat)
    returns (k: nat, m: nat)
    requires ConcatLaid(cells, s, a) && f >= a + ConcatSize(s)
    requires Run(cells, a, w, f, n)
    ensures k <= |w| && m <= n
    ensures InConcat(s, w[..k]) && Run(cells, a + ConcatSize(s), w[k..], f, m)
    decreases n, s, 0
  {
    hide TermLaid, BlockLaid, AltsLaid, Run, InTerm;
    match s
    case Empty =>
      k, m := 0, n;
      assert w[0..] == w;
    case Snoc(init, t) =>
      var mid := a + ConcatSize(init);
      var k1, m1 := ConcatSound(cells, init, a, w, f, n);
      var k2, m2 := TermSound(cells, t, mid, w[k1..], f, m1);
      k, m := k1 + k2, m2;
      var u := w[..k];
      assert u[..k1] == w[..k1] && u[k1..] == w[k1..][..k2];
      assert w[k..] == w[k1..][k2..];
    case Note(init, id) =>
      k, m := ConcatSound(cells, init, a, w, f, n);
      var j := StepEps(cells, a + ConcatSize(init), w[k..], f, m);
      m := m - 1;
  }

  /** `here`: the run went through one of these alternatives; otherwise it took
      the leading branch to the alternatives on the right. */
  lemma {:induction false} AltsSound(cells: Cells, g: Alts, a: nat, more: bool, w: Word, f: int, n: nat)
    returns (here: bool, k: nat, m: nat)
    requires AltsLaid(cells, g, a, more) && f >= a + AltsSize(g, more)
    requires Run(cells, a, w, f, n)
    requires more ==> f > a + AltsSize(g, more)
    ensures k <= |w| && m <= n
    ensures here ==> InAlts(g, w[..k]) && Run(cells, a + AltsSize(g, more), w[k..], f, m)
    ensures !here ==> more && Run(cells, a + AltsSize(g, more) + 1, w, f, m)
    decreases n, g, 1
  {
    hide TermLaid, BlockLaid, ConcatLaid, Run, InConcat;
    match g
    case Only(s) =>
      here, k, m := BlockSound(cells, s, a, more, w, f, n);
    case Or(l, s) =>
      var q := a + AltsSize(l, true);
      here, k, m := AltsSound(cells, l, a, true, w, f, n);
      if here {
        var j := StepEps(cells, q, w[k..], f, m);
        m := m - 1;
      } else {
        here, k, m := BlockSound(cells, s, q + 1, more, w, f, m);
      }
  }

  lemma {:induction false} BlockSound(cells: Cells, s: Concat, a: nat, more: bool, w: Word, f: int, n: nat)
    returns (here: bool, k: nat, m: nat)
    requires BlockLaid(cells, s, a, more) && Run(cells, a, w, f, n)
    requires f >= a + BlockSize(s, more) && (more ==> f > a + BlockSize(s, more))
    ensures k <= |w| && m <= n
    ensures here ==> InConcat(s, w[..k]) && Run(cells, a + BlockSize(s, more), w[k..], f, m)
    ensures !here ==> more && Run(cells, a + BlockSize(s, more) + 1, w, f, m)
    decreases n, s, 1
  {
    hide ConcatLaid, Run, InConcat;
    if more {
      var j := StepEps(cells, a, w, f, n);
      if j == a + 1 {
        k, m := ConcatSound(cells, s, a + 1, w, f, n - 1);
        here := true;
      } else {
        here, k, m := false, 0, n - 1;
      }
    } else {
      k, m := ConcatSound(cells, s, a, w, f, n);
      here := true;
    }
  }

  // Completeness: a word of the fragment, followed by a run from its end, is a run.

  lemma EpsThen(cells: Cells, i: int, j: int, w: Word, f: int)
    requires EpsStep(cells, i, j) && Reaches(cells, j, w, f)
    ensures Reaches(cells, i, w, f)
  {
    var n: nat :| Run(cells, j, w, f, n);
    assert Run(cells, i, w, f, n + 1);
  }

  lemma ConsumeThen(cells: Cells, i: int, w: Word, f: int)
    requires w != [] && Consumes(cells, i, w[0]) && Reaches(cells, AfterTerm(cells, i), w[1..], f)
    ensures Reaches(cells, i, w, f)
  {
    var n: nat :| Run(cells, AfterTerm(cells, i), w[1..], f, n);
    assert Run(cells, i, w, f, n + 1);
  }

  lemma {:induction false} TermComplete(cells: Cells, t: Term, a: nat, u: Word, v: Word, f: int)
    requires TermLaid(cells, t, a) && InTerm(t, u)
    requires Reaches(cells, a + TermSize(t), v, f)
    ensures Reaches(cells, a, u + v, f)
    decreases t, 1, 0
  {
    hide ConcatLaid, BlockLaid, AltsLaid, Run, Reaches, InConcat, InAlts;
    match t
    case Atom(l) =>
      LitInArray(cells, a, l, u[0]);
      assert (u + v)[1..] == v;
      ConsumeThen(cells, a, u + v, f);
    case Group(g) => AltsComplete(cells, g, a, false, u, v, f);
    case Star(b) => StarComplete(cells, b, a, u, v, f);
    case Plus(b) =>
      var p: nat :| 1 <= p && Power(b, p, u);
      LoopComplete(cells, b, a, p, u, v, f);
    case Opt(b) =>
      if InTerm(b, u) {
        TermComplete(cells, b, a + 1, u, v, f);
        EpsThen(cells, a, a + 1, u + v, f);
      } else {
        assert u + v == v;
        EpsThen(cells, a, a + TermSize(t), v, f);
      }
    case Tag(b, id) =>
      EpsThen(cells, a + TermSize(b), a + TermSize(t), v, f);
      TermComplete(cells, b, a, u, v, f);
  }

  lemma SomePower(b: Term, u: Word) returns (p: nat)
    requires InTerm(Star(b), u)
    ensures Power(b, p, u)
  {
    p :| Power(b, p, u);
  }

  lemma {:induction false} StarComplete(cells: Cells, b: Term, a: nat, u: Word, v: Word, f: int)
    requires TermLaid(cells, Star(b), a) && InTerm(Star(b), u)
    requires Reaches(cells, a + TermSize(Star(b)), v, f)
    ensures Reaches(cells, a, u + v, f)
    decreases Star(b), 0, 0
  {
    hide TermLaid, ConcatLaid, BlockLaid, AltsLaid, Run, Reaches, InTerm, Power, InConcat, InAlts, TermSize, EpsStep;
    StarLaid(cells, b, a);
    var p := SomePower(b, u);
    if p == 0 {
      PowerZero(b, u);
      assert u + v == v;
      EpsThen(cells, a, a + 2 + TermSize(b), v, f);
    } else {
      LoopComplete(cells, b, a + 1, p, u, v, f);
      EpsThen(cells, a, a + 1, u + v, f);
    }
  }

  lemma {:induction false} LoopComplete(cells: Cells, b: Term, a: nat, p: nat, u: Word, v: Word, f: int)
    requires TermLaid(cells, b, a)
    requires a + TermSize(b) < |cells| && cells[a + TermSize(b)] == Branch(a)
    requires 1 <= p && Power(b, p, u) && Reaches(cells, a + TermSize(b) + 1, v, f)
    ensures Reaches(cells, a, u + v, f)
    decreases b, 2, p
  {
    hide TermLaid, Run, Reaches, Power, InTerm, TermSize;
    var x, y := PowerSplit(b, p, u);
    if p == 1 {
      assert y + v == v;
      EpsThen(cells, a + TermSize(b), a + TermSize(b) + 1, v, f);
    } else {
      LoopComplete(cells, b, a, p - 1, y, v, f);
      EpsThen(cells, a + TermSize(b), a, y + v, f);
    }
    TermComplete(cells, b, a, x, y + v, f);
    assert (x + y) + v == x + (y + v);
  }

  lemma {:induction false} ConcatComplete(cells: Cells, s: Concat, a: nat, u: Word, v: Word, f: int)
    requires ConcatLaid(cells, s, a) && InConcat(s, u)
    requires Reaches(cells, a + ConcatSize(s), v, f)
    ensures Reaches(cells, a, u + v, f)
    decreases s, 0, 0
  {
    hide TermLaid, BlockLaid, AltsLaid, Run, Reaches, InTerm;
    match s
    case Empty => assert u + v == v;
    case Snoc(init, t) =>
      var mid := a + ConcatSize(init);
      var k :| 0 <= k <= |u| && InConcat(init, u[..k]) && InTerm(t, u[k..]);
      TermComplete(cells, t, mid, u[k..], v, f);
      ConcatComplete(cells, init, a, u[..k], u[k..] + v, f);
      assert u[..k] + (u[k..] + v) == u + v;
    case Note(init, id) =>
      EpsThen(cells, a + ConcatSize(init), a + ConcatSize(init) + 1, v, f);
      ConcatComplete(cells, init, a, u, v, f);
  }

  lemma {:induction false} AltsComplete(cells: Cells, g: Alts, a: nat, more: bool, u: Word, v: Word, f: int)
    requires AltsLaid(cells, g, a, more)
    requires InAlts(g, u) && Reaches(cells, a + AltsSize(g, more), v, f)
    ensures Reaches(cells, a, u + v, f)
    decreases g, 0, 0
  {
    hide TermLaid, BlockLaid, ConcatLaid, Run, Reaches, InConcat;
    match g
    case Only(s) =>
      BlockComplete(cells, s, a, more, u, v, f);
    case Or(l, s) =>
      var q := a + AltsSize(l, true);
      if InAlts(l, u) {
        EpsThen(cells, q, a + AltsSize(g, more), v, f);
        AltsComplete(cells, l, a, true, u, v, f);
      } else {
        BlockComplete(cells, s, q + 1, more, u, v, f);
        PassOver(cells, l, a, u + v, f);
      }
  }

  lemma {:induction false} BlockComplete(cells: Cells, s: Concat, a: nat, more: bool, u: Word, v: Word, f: int)
    requires BlockLaid(cells, s, a, more)
    requires InConcat(s, u) && Reaches(cells, a + BlockSize(s, more), v, f)
    ensures Reaches(cells, a, u + v, f)
    decreases s, 1, 0
  {
    hide ConcatLaid, Run, Reaches, InConcat;
    if more {
      ConcatComplete(cells, s, a + 1, u, v, f);
      EpsThen(cells, a, a + 1, u + v, f);
    } else {
      ConcatComplete(cells, s, a, u, v, f);
    }
  }

  /** From the first alternative the branches lead past all of them. */
  lemma {:induction false} PassOver(cells: Cells, g: Alts, a: nat, w: Word, f: int)
    requires AltsLaid(cells, g, a, true)
    requires Reaches(cells, a + AltsSize(g, true) + 1, w, f)
    ensures Reaches(cells, a, w, f)
    decreases g
  {
    hide TermLaid, BlockLaid, ConcatLaid, Run, Reaches;
    match g
    case Only(s) =>
      SkipBlock(cells, s, a, w, f);
    case Or(l, s) =>
      SkipBlock(cells, s, a + AltsSize(l, true) + 1, w, f);
      PassOver(cells, l, a, w, f);
  }

  lemma SkipBlock(cells: Cells, s: Concat, a: nat, w: Word, f: int)
    requires BlockLaid(cells, s, a, true) && Reaches(cells, a + 2 + ConcatSize(s), w, f)
    ensures Reaches(cells, a, w, f)
  {
    EpsThen(cells, a, a + 2 + ConcatSize(s), w, f);
  }

  lemma EndIsFinal(cells: Cells, w: Word, n: nat)
    requires |cells| > 0 && cells[|cells| - 1].End?
    requires Run(cells, |cells| - 1, w, |cells| - 1, n)
    ensures w == []
  {
  }

  lemma {:induction false} AcceptedIsWord(cells: Cells, p: Alts, w: Word)
    requires PatternLaid(cells, p) && Accepts(cells, w)
    ensures InAlts(p, w)
  {
    var end := |cells| - 1;
    var n: nat :| Run(cells, 1, w, end, n);
    var here, k, m := AltsSound(cells, p, 1, false, w, end, n);
    EndIsFinal(cells, w[k..], m);
    assert w[..k] == w;
  }

  lemma {:induction false} WordIsAccepted(cells: Cells, p: Alts, w: Word)
    requires PatternLaid(cells, p) && InAlts(p, w)
    ensures Accepts(cells, w)
  {
    hide AltsLaid, InAlts, Run, Reaches;
    var end := |cells| - 1;
    StaysAt(cells, end);
    AltsComplete(cells, p, 1, false, w, [], end);
    assert w + [] == w;
  }

  lemma StaysAt(cells: Cells, i: int)
    ensures Reaches(cells, i, [], i)
  {
    assert Run(cells, i, [], i, 0);
  }

  /** An array that holds a pattern's layout accepts exactly the pattern's language. */
  lemma LayoutPreservesLanguage(cells: Cells, p: Alts, w: Word)
    requires PatternLaid(cells, p)
    ensures Accepts(cells, w) <==> InAlts(p, w)
  {
    if Accepts(cells, w) {
      AcceptedIsWord(cells, p, w);
    }
    if InAlts(p, w) {
      WordIsAccepted(cells, p, w);
    }
  }
}
