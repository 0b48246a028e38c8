/** Runs seen one consumed character at a time, as the matcher follows them,
    and their agreement with the step-by-step runs of the automaton. */
module RegexRuns {
  import opened RegexSyntax
  import opened RegexNfa
  import opened RegexClosure

  /** A run from the cell after `Begin` that consumes `w` can be at cell `j`. */
  ghost predicate RunTo(cells: Cells, w: Word, j: int)
    decreases |w|
  {
    if w == [] then EpsReaches(cells, 1, j)
    else
      exists u :: 0 <= u < |cells| && RunTo(cells, w[..|w| - 1], u)
        && Consumes(cells, u, w[|w| - 1]) && EpsReaches(cells, AfterTerm(cells, u), j)
  }

  lemma EpsSelf(cells: Cells, i: int)
    ensures EpsReaches(cells, i, i)
  {
    assert PathTo(cells, i, i, [i]);
  }

  lemma EpsExtend(cells: Cells, s: int, i: int, j: int)
    requires EpsReaches(cells, s, i) && EpsStep(cells, i, j)
    ensures EpsReaches(cells, s, j)
  {
    var p :| PathTo(cells, s, i, p);
    ExtendPath(cells, s, i, j, p);
  }

  lemma {:induction false} StepExtend(cells: Cells, w: Word, i: int, j: int)
    requires RunTo(cells, w, i) && EpsStep(cells, i, j)
    ensures RunTo(cells, w, j)
  {
    if w == [] {
      EpsExtend(cells, 1, i, j);
    } else {
      var u :| 0 <= u < |cells| && RunTo(cells, w[..|w| - 1], u)
        && Consumes(cells, u, w[|w| - 1]) && EpsReaches(cells, AfterTerm(cells, u), i);
      EpsExtend(cells, AfterTerm(cells, u), i, j);
    }
  }

  lemma {:induction false} CharExtend(cells: Cells, w: Word, u: nat, c: int, j: int)
    requires u < |cells| && RunTo(cells, w, u) && Consumes(cells, u, c)
    requires EpsReaches(cells, AfterTerm(cells, u), j)
    ensures RunTo(cells, w + [c], j)
  {
    assert (w + [c])[..|w|] == w;
  }

  lemma LastChar(cells: Cells, w: Word, c: int, j: int) returns (u: nat)
    requires RunTo(cells, w + [c], j)
    ensures u < |cells| && RunTo(cells, w, u) && Consumes(cells, u, c)
    ensures EpsReaches(cells, AfterTerm(cells, u), j)
  {
    var x := w + [c];
    assert x[..|x| - 1] == w && x[|x| - 1] == c;
    u :| 0 <= u < |cells| && RunTo(cells, x[..|x| - 1], u)
      && Consumes(cells, u, x[|x| - 1]) && EpsReaches(cells, AfterTerm(cells, u), j);
  }

  lemma {:induction false} RunContinues(cells: Cells, x: Word, i: int, w: Word, f: int, n: nat)
    requires RunTo(cells, x, i) && Run(cells, i, w, f, n)
    ensures RunTo(cells, x + w, f)
    decreases n
  {
    if n == 0 {
      assert x + w == x;
    } else if exists j :: EpsStep(cells, i, j) && Run(cells, j, w, f, n - 1) {
      var j :| EpsStep(cells, i, j) && Run(cells, j, w, f, n - 1);
      StepExtend(cells, x, i, j);
      RunContinues(cells, x, j, w, f, n - 1);
    } else {
      EpsSelf(cells, AfterTerm(cells, i));
      CharExtend(cells, x, i, w[0], AfterTerm(cells, i));
      RunContinues(cells, x + [w[0]], AfterTerm(cells, i), w[1..], f, n - 1);
      assert x + [w[0]] + w[1..] == x + w;
    }
  }

  lemma {:induction false} EpsIsRun(cells: Cells, i: int, j: int, p: seq<int>, w: Word, f: int)
    requires PathTo(cells, i, j, p) && Reaches(cells, j, w, f)
    ensures Reaches(cells, i, w, f)
    decreases |p|
  {
    if |p| > 1 {
      var q := p[1..];
      assert EpsStep(cells, p[0], p[0 + 1]);
      assert PathTo(cells, p[1], j, q) by {
        assert forall k :: 0 <= k < |q| - 1 ==> EpsStep(cells, p[k + 1], p[k + 1 + 1]) && q[k] == p[k + 1];
      }
      EpsIsRun(cells, p[1], j, q, w, f);
      var n: nat :| Run(cells, p[1], w, f, n);
      assert Run(cells, i, w, f, n + 1);
    }
  }

  lemma {:induction false} RunToReaches(cells: Cells, x: Word, i: int, w: Word, f: int)
    requires RunTo(cells, x, i) && Reaches(cells, i, w, f)
    ensures Reaches(cells, 1, x + w, f)
    decreases |x|
  {
    if x == [] {
      assert x + w == w;
      var p :| PathTo(cells, 1, i, p);
      EpsIsRun(cells, 1, i, p, w, f);
    } else {
      var m := |x| - 1;
      var u := LastOf(cells, x, i);
      var a := AfterTerm(cells, u);
      var p :| PathTo(cells, a, i, p);
      EpsIsRun(cells, a, i, p, w, f);
      ConsumeStep(cells, u, x[m], w, f);
      RunToReaches(cells, x[..m], u, [x[m]] + w, f);
      assert x[..m] + ([x[m]] + w) == x + w;
    }
  }

  lemma LastOf(cells: Cells, x: Word, j: int) returns (u: nat)
    requires x != [] && RunTo(cells, x, j)
    ensures u < |cells| && RunTo(cells, x[..|x| - 1], u) && Consumes(cells, u, x[|x| - 1])
    ensures EpsReaches(cells, AfterTerm(cells, u), j)
  {
    u :| 0 <= u < |cells| && RunTo(cells, x[..|x| - 1], u)
      && Consumes(cells, u, x[|x| - 1]) && EpsReaches(cells, AfterTerm(cells, u), j);
  }

  lemma ConsumeStep(cells: Cells, u: nat, c: int, w: Word, f: int)
    requires u < |cells| && Consumes(cells, u, c) && Reaches(cells, AfterTerm(cells, u), w, f)
    ensures Reaches(cells, u, [c] + w, f)
  {
    var n: nat :| Run(cells, AfterTerm(cells, u), w, f, n);
    assert ([c] + w)[1..] == w;
    assert Run(cells, u, [c] + w, f, n + 1);
  }

  /** The two ways of saying that a word is accepted agree. */
  lemma {:induction false} AcceptsIsRunTo(cells: Cells, w: Word)
    ensures Accepts(cells, w) <==> RunTo(cells, w, |cells| - 1)
  {
    var f := |cells| - 1;
    if Accepts(cells, w) {
      var n: nat :| Run(cells, 1, w, f, n);
      EpsSelf(cells, 1);
      RunContinues(cells, [], 1, w, f, n);
      assert [] + w == w;
    }
    if RunTo(cells, w, f) {
      assert Run(cells, f, [], f, 0);
      RunToReaches(cells, w, f, [], f);
      assert w + [] == w;
    }
  }
}
