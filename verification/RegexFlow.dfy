/** The array made for a pattern is well-formed: walks stay inside it, never
    enter a bracket expression, and every bracket expression is closed. */
module RegexFlow {
  import opened RegexSyntax
  import opened RegexNfa
  import opened RegexCompile
  import opened RegexClosure

  ghost predicate Inside(cells: Cells, a: nat, b: nat, t: int) {
    a <= t < b && Proper(cells, t)
  }

  /** Every step out of the fragment leads to its end, or past the jump that
      follows it when `more` alternatives come. */
  ghost predicate Contained(cells: Cells, a: nat, b: nat, lo: nat, hi: nat, more: bool) {
    forall k, t :: a <= k < b && Proper(cells, k) && Succ(cells, k, t) ==>
      Inside(cells, lo, hi, t) || t == hi || (more && t == hi + 1)
  }

  ghost predicate NoEnds(cells: Cells, a: nat, b: nat)
    requires b <= |cells|
  {
    forall k :: a <= k < b ==>
      && !cells[k].Begin? && !cells[k].End? && (cells[k].RngStart? ==> ClassClosed(cells, k, b))
      && Guarded(cells, k)
  }

  ghost predicate Flows(cells: Cells, a: nat, b: nat, more: bool) {
    && a <= b <= |cells| && (a < b ==> Proper(cells, a))
    && Contained(cells, a, b, a, b, more) && NoEnds(cells, a, b)
  }

  lemma Chain(cells: Cells, a: nat, m: nat, b: nat, more: bool)
    requires Flows(cells, a, m, false) && Flows(cells, m, b, more)
    ensures Flows(cells, a, b, more)
  {
  }

  /** A single cell that is neither a term nor an end. */
  lemma OneCell(cells: Cells, a: nat, lo: nat, hi: nat, more: bool)
    requires lo <= a < hi <= |cells| && Proper(cells, a) && !IsState(cells[a])
    requires forall t :: EpsStep(cells, a, t) ==> Inside(cells, lo, hi, t) || t == hi || (more && t == hi + 1)
    ensures Contained(cells, a, a + 1, lo, hi, more) && NoEnds(cells, a, a + 1)
  {
  }

  lemma Widen(cells: Cells, a: nat, b: nat, lo: nat, hi: nat, inner: bool, more: bool)
    requires lo <= a <= b <= hi <= |cells| && Flows(cells, a, b, inner)
    requires (b < hi ==> Proper(cells, b)) && (inner && b + 1 < hi ==> Proper(cells, b + 1))
    requires inner ==> b + 1 <= hi || (b == hi && more)
    ensures Contained(cells, a, b, lo, hi, more)
  {
  }

  lemma Join(cells: Cells, a: nat, m: nat, b: nat, lo: nat, hi: nat, more: bool)
    requires a <= m <= b <= |cells|
    requires Contained(cells, a, m, lo, hi, more) && Contained(cells, m, b, lo, hi, more)
    requires NoEnds(cells, a, m) && NoEnds(cells, m, b)
    ensures Contained(cells, a, b, lo, hi, more) && NoEnds(cells, a, b)
  {
  }

  lemma {:induction false} MembersInterior(ms: seq<Member>)
    ensures forall k :: 0 <= k < |MembersItems(ms)| ==> Interior(MembersItems(ms)[k]) && !MembersItems(ms)[k].RngEnd?
  {
    if ms != [] {
      MembersInterior(ms[1..]);
    }
  }

  lemma LitFlows(cells: Cells, l: Lit, a: nat)
    requires At(cells, a, LitItems(l))
    ensures Flows(cells, a, a + |LitItems(l)|, false)
  {
    hide At, MembersItems, Flows, Interior, RangeClose;
    match l
    case Single(c) =>
      AtSingle(cells, a, Chr(c));
      SingleFlows(cells, a);
    case Class(invert, ms) =>
      MembersInterior(ms);
      ClassInterior(cells, a, invert, ms);
      ClassFlows(cells, a, a + 1 + |MembersItems(ms)|);
  }

  lemma SingleFlows(cells: Cells, a: nat)
    requires a < |cells| && cells[a].Chr?
    ensures Flows(cells, a, a + 1, false)
  {
    hide RangeClose;
  }

  lemma ClassFlows(cells: Cells, a: nat, close: nat)
    requires a < close < |cells| && cells[a].RngStart? && cells[close].RngEnd?
    requires RangeClose(cells, a + 1) == close
    requires forall k :: a < k < close ==> Interior(cells[k]) && !cells[k].RngEnd?
    ensures Flows(cells, a, close + 1, false)
  {
    hide RangeClose;
    forall k | a < k <= close
      ensures Guarded(cells, k)
    {
      var before := k - 1;
      assert before == a || Interior(cells[before]);
    }
  }

  lemma ClassInterior(cells: Cells, a: nat, invert: bool, ms: seq<Member>)
    requires At(cells, a, LitItems(Class(invert, ms)))
    requires forall k :: 0 <= k < |MembersItems(ms)| ==> Interior(MembersItems(ms)[k]) && !MembersItems(ms)[k].RngEnd?
    ensures var n := |MembersItems(ms)|;
      && a + 1 + n < |cells| && cells[a].RngStart?
      && RangeClose(cells, a + 1) == a + 1 + n && cells[a + 1 + n].RngEnd?
      && forall k :: a < k < a + 1 + n ==> Interior(cells[k]) && !cells[k].RngEnd?
  {
    hide RangeHit, RangeClose, MembersItems;
    var inner := MembersItems(ms);
    var items := LitItems(Class(invert, ms));
    LitInArray(cells, a, Class(invert, ms), 0);
    assert cells[a + (|inner| + 1)] == items[|inner| + 1];
    assert cells[a + 0] == items[0];
    forall k | a < k < a + 1 + |inner|
      ensures Interior(cells[k]) && !cells[k].RngEnd?
    {
      assert cells[a + (k - a)] == items[k - a] == inner[k - a - 1];
    }
  }

  lemma {:induction false} TermFlows(cells: Cells, t: Term, a: nat)
    requires TermLaid(cells, t, a)
    ensures Flows(cells, a, a + TermSize(t), false)
    decreases t, 1
  {
    hide AltsLaid, ConcatLaid, Flows, AltsSize, ConcatSize, At, LitItems;
    match t
    case Atom(l) => LitFlows(cells, l, a);
    case Group(g) => AltsFlows(cells, g, a, false);
    case Star(b) => TermFlows(cells, b, a + 1); StarFlows(cells, a, a + 1 + TermSize(b));
    case Plus(b) => TermFlows(cells, b, a); PlusFlows(cells, a, a + TermSize(b));
    case Opt(b) => TermFlows(cells, b, a + 1); OptFlows(cells, a, a + 1 + TermSize(b));
    case Tag(b, id) => TermFlows(cells, b, a); IdFlows(cells, a, a + TermSize(b));
  }

  lemma StarFlows(cells: Cells, a: nat, m: nat)
    requires Flows(cells, a + 1, m, false) && m < |cells|
    requires cells[a] == Branch(m + 1) && cells[m] == Branch(a + 1)
    ensures Flows(cells, a, m + 1, false)
  {
    OneCell(cells, a, a, m + 1, false);
    OneCell(cells, m, a, m + 1, false);
    Widen(cells, a + 1, m, a, m + 1, false, false);
    Join(cells, a, a + 1, m, a, m + 1, false);
    Join(cells, a, m, m + 1, a, m + 1, false);
  }

  lemma PlusFlows(cells: Cells, a: nat, m: nat)
    requires Flows(cells, a, m, false) && m < |cells| && cells[m] == Branch(a)
    ensures Flows(cells, a, m + 1, false)
  {
    OneCell(cells, m, a, m + 1, false);
    Widen(cells, a, m, a, m + 1, false, false);
    Join(cells, a, m, m + 1, a, m + 1, false);
  }

  lemma OptFlows(cells: Cells, a: nat, b: nat)
    requires Flows(cells, a + 1, b, false) && cells[a] == Branch(b)
    ensures Flows(cells, a, b, false)
  {
    OneCell(cells, a, a, b, false);
    Widen(cells, a + 1, b, a, b, false, false);
    Join(cells, a, a + 1, b, a, b, false);
  }

  lemma IdFlows(cells: Cells, a: nat, m: nat)
    requires Flows(cells, a, m, false) && m < |cells| && cells[m].Id?
    ensures Flows(cells, a, m + 1, false)
  {
    OneCell(cells, m, a, m + 1, false);
    Widen(cells, a, m, a, m + 1, false, false);
    Join(cells, a, m, m + 1, a, m + 1, false);
  }

  lemma {:induction false} ConcatFlows(cells: Cells, s: Concat, a: nat)
    requires ConcatLaid(cells, s, a)
    ensures Flows(cells, a, a + ConcatSize(s), false)
    decreases s, 0
  {
    hide TermLaid, TermSize;
    match s
    case Empty =>
    case Snoc(init, t) =>
      ConcatFlows(cells, init, a);
      TermFlows(cells, t, a + ConcatSize(init));
      Chain(cells, a, a + ConcatSize(init), a + ConcatSize(s), false);
    case Note(init, id) =>
      ConcatFlows(cells, init, a);
      IdFlows(cells, a, a + ConcatSize(init));
  }

  lemma {:induction false} BlockFlows(cells: Cells, s: Concat, a: nat, more: bool)
    requires BlockLaid(cells, s, a, more)
    ensures Flows(cells, a, a + BlockSize(s, more), more)
    decreases s, 1
  {
    hide ConcatLaid, ConcatSize;
    if more {
      ConcatFlows(cells, s, a + 1);
      SkipFlows(cells, a, a + BlockSize(s, more));
    } else {
      ConcatFlows(cells, s, a);
    }
  }

  lemma SkipFlows(cells: Cells, a: nat, b: nat)
    requires Flows(cells, a + 1, b, false) && cells[a] == Branch(b + 1)
    ensures Flows(cells, a, b, true)
  {
    OneCell(cells, a, a, b, true);
    Widen(cells, a + 1, b, a, b, false, true);
    Join(cells, a, a + 1, b, a, b, true);
  }

  lemma {:induction false} AltsFlows(cells: Cells, g: Alts, a: nat, more: bool)
    requires AltsLaid(cells, g, a, more)
    ensures Flows(cells, a, a + AltsSize(g, more), more)
    decreases g, 0
  {
    hide BlockLaid, BlockSize, Flows;
    match g
    case Only(s) => BlockFlows(cells, s, a, more);
    case Or(l, s) =>
      var q := a + AltsSize(l, true);
      AltsFlows(cells, l, a, true);
      BlockFlows(cells, s, q + 1, more);
      OrFlows(cells, a, q, a + AltsSize(g, more), more);
  }

  lemma OrFlows(cells: Cells, a: nat, q: nat, b: nat, more: bool)
    requires Flows(cells, a, q, true) && Flows(cells, q + 1, b, more)
    requires cells[q] == Jump(b)
    ensures Flows(cells, a, b, more)
  {
    OneCell(cells, q, a, b, more);
    Widen(cells, a, q, a, b, true, more);
    Widen(cells, q + 1, b, a, b, more, more);
    Join(cells, a, q, q + 1, a, b, more);
    Join(cells, a, q + 1, b, a, b, more);
  }

  lemma LayoutWellFormed(cells: Cells, p: Alts)
    requires PatternLaid(cells, p)
    ensures WellFormed(cells)
  {
    hide AltsLaid, AltsSize;
    var n := |cells|;
    AltsFlows(cells, p, 1, false);
    forall i, j | 0 < i < n && Proper(cells, i) && Succ(cells, i, j)
      ensures 0 < j && Proper(cells, j)
    {
      assert i < n - 1;
      assert Inside(cells, 1, n - 1, j) || j == n - 1;
    }
  }
}
