/** Bounded repetition: `iterate` finds the last term on the item stack, wraps it
    in brackets and multiplies it by block copies, which is one term whose
    language is the bounded power of the original. */
module RegexRepeat {
  import opened RegexSyntax

  // ------------------------------------------------------------ the new term

  /** `s` followed by `n` copies of `t`. */
  function Copies(s: Concat, t: Term, n: nat): Concat {
    if n == 0 then s else Snoc(Copies(s, t, n - 1), t)
  }

  /** X{n,m} is X..X with n copies, then m - n times X?; X{n,} is X..XX+. */
  function Expansion(t: Term, min: nat, max: nat): Concat
    requires if max > 0 then min <= max else min > 0
  {
    if max > 0 then Copies(Copies(Empty, t, min), Opt(t), max - min)
    else Snoc(Copies(Empty, t, min - 1), Plus(t))
  }

  /** The term `iterate(min, max)` leaves in place of `t`; `max == 0` without an
      upper bound, `min == max == 0` for none at all. */
  function Iterated(t: Term, min: nat, max: nat): Term
    requires max > 0 ==> min <= max
  {
    if min == 0 && max == 0 then Group(Only(Empty)) else Group(Only(Expansion(t, min, max)))
  }

  // ----------------------------------------------------------- its language

  lemma {:induction false} CopiesOfTerm(t: Term, n: nat, w: Word)
    ensures InConcat(Copies(Empty, t, n), w) <==> Power(t, n, w)
    decreases n
  {
    hide Power, InTerm;
    if n == 0 {
      NoPower(t, w);
    } else {
      if InConcat(Copies(Empty, t, n), w) {
        var k :| 0 <= k <= |w| && InConcat(Copies(Empty, t, n - 1), w[..k]) && InTerm(t, w[k..]);
        CopiesOfTerm(t, n - 1, w[..k]);
        PowerAppend(t, n - 1, w[..k], w[k..]);
        assert w[..k] + w[k..] == w;
      }
      if Power(t, n, w) {
        var k := PowerLast(t, n - 1, w);
        CopiesOfTerm(t, n - 1, w[..k]);
      }
    }
  }

  lemma NoPower(t: Term, w: Word)
    ensures Power(t, 0, w) <==> w == []
  {
  }

  lemma MorePower(t: Term, n: nat, w: Word, k: nat)
    requires k <= |w| && InTerm(t, w[..k]) && Power(t, n, w[k..])
    ensures Power(t, n + 1, w)
  {
    hide InTerm;
  }

  lemma LessPower(t: Term, n: nat, w: Word) returns (k: nat)
    requires n > 0 && Power(t, n, w)
    ensures k <= |w| && InTerm(t, w[..k]) && Power(t, n - 1, w[k..])
  {
    hide InTerm;
    k :| 0 <= k <= |w| && InTerm(t, w[..k]) && Power(t, n - 1, w[k..]);
  }

  lemma {:induction false} PowerAppend(t: Term, n: nat, x: Word, y: Word)
    requires Power(t, n, x) && InTerm(t, y)
    ensures Power(t, n + 1, x + y)
    decreases n
  {
    hide Power, InTerm;
    if n == 0 {
      NoPower(t, x);
      NoPower(t, y[|y|..]);
      assert x + y == y && y[..|y|] == y && y[|y|..] == [];
      MorePower(t, 0, y, |y|);
    } else {
      var k := LessPower(t, n, x);
      PowerAppend(t, n - 1, x[k..], y);
      assert (x + y)[..k] == x[..k] && (x + y)[k..] == x[k..] + y;
      MorePower(t, n, x + y, k);
    }
  }

  lemma {:induction false} PowerLast(t: Term, n: nat, w: Word) returns (k: nat)
    requires Power(t, n + 1, w)
    ensures k <= |w| && Power(t, n, w[..k]) && InTerm(t, w[k..])
    decreases n
  {
    var j :| 0 <= j <= |w| && InTerm(t, w[..j]) && Power(t, n, w[j..]);
    if n == 0 {
      k := 0;
      assert w[..j] == w[0..];
    } else {
      var i := PowerLast(t, n - 1, w[j..]);
      k := j + i;
      assert w[j..][..i] == w[..k][j..] && w[j..][i..] == w[k..] && w[..k][..j] == w[..j];
    }
  }

  lemma SnocSplit(init: Concat, t: Term, w: Word, k: nat)
    requires k <= |w| && InConcat(init, w[..k]) && InTerm(t, w[k..])
    ensures InConcat(Snoc(init, t), w)
  {
  }

  /** `a` copies of `t` and `b` of `t?` make between `a` and `a + b` words of `t`. */
  lemma {:induction false} CopiesOfOpt(t: Term, a: nat, b: nat, w: Word)
    ensures InConcat(Copies(Copies(Empty, t, a), Opt(t), b), w)
      <==> exists k: nat :: a <= k <= a + b && Power(t, k, w)
    decreases b
  {
    hide InTerm, Power;
    if b == 0 {
      CopiesOfTerm(t, a, w);
    } else {
      if InConcat(Copies(Copies(Empty, t, a), Opt(t), b), w) {
        var k := OptForward(t, a, b, w);
      }
      if exists k: nat :: a <= k <= a + b && Power(t, k, w) {
        var k: nat :| a <= k <= a + b && Power(t, k, w);
        OptBackward(t, a, b, k, w);
      }
    }
  }

  lemma {:induction false} OptForward(t: Term, a: nat, b: nat, w: Word) returns (n: nat)
    requires b > 0 && InConcat(Copies(Copies(Empty, t, a), Opt(t), b), w)
    ensures a <= n <= a + b && Power(t, n, w)
    decreases b, 0
  {
    hide Power;
    var init := Copies(Copies(Empty, t, a), Opt(t), b - 1);
    var k :| 0 <= k <= |w| && InConcat(init, w[..k]) && InTerm(Opt(t), w[k..]);
    CopiesOfOpt(t, a, b - 1, w[..k]);
    n :| a <= n <= a + b - 1 && Power(t, n, w[..k]);
    if w[k..] == [] {
      assert w[..k] == w;
    } else {
      PowerAppend(t, n, w[..k], w[k..]);
      assert w[..k] + w[k..] == w;
      n := n + 1;
    }
  }

  lemma {:induction false} OptBackward(t: Term, a: nat, b: nat, n: nat, w: Word)
    requires b > 0 && a <= n <= a + b && Power(t, n, w)
    ensures InConcat(Copies(Copies(Empty, t, a), Opt(t), b), w)
    decreases b, 0
  {
    var init := Copies(Copies(Empty, t, a), Opt(t), b - 1);
    var k := |w|;
    if n < a + b {
      assert w[..k] == w && w[k..] == [];
      CopiesOfOpt(t, a, b - 1, w[..k]);
      assert Power(t, n, w[..k]);
      assert InConcat(init, w[..k]);
    } else {
      k := PowerLast(t, n - 1, w);
      assert a <= n - 1 <= a + (b - 1) && Power(t, n - 1, w[..k]);
      CopiesOfOpt(t, a, b - 1, w[..k]);
    }
    SnocSplit(init, Opt(t), w, k);
  }

  /** The words of the new term are the bounded powers of the old one. */
  lemma IteratedLanguage(t: Term, min: nat, max: nat, w: Word)
    requires max > 0 ==> min <= max
    ensures InTerm(Iterated(t, min, max), w)
      <==> exists k: nat :: min <= k && (max > 0 || min == 0 ==> k <= max) && Power(t, k, w)
  {
    hide Power;
    if min == 0 && max == 0 {
      EmptyPower(t, w);
    } else if max > 0 {
      CopiesOfOpt(t, min, max - min, w);
    } else {
      PlusTail(t, min - 1, w);
    }
  }

  lemma EmptyPower(t: Term, w: Word)
    ensures Power(t, 0, w) <==> w == []
  {
  }

  lemma PlusTail(t: Term, n: nat, w: Word)
    ensures InConcat(Snoc(Copies(Empty, t, n), Plus(t)), w) <==> exists k: nat :: n + 1 <= k && Power(t, k, w)
  {
    var s := Snoc(Copies(Empty, t, n), Plus(t));
    if InConcat(s, w) {
      var m := PlusForward(t, n, w);
      assert exists k: nat :: n + 1 <= k && Power(t, k, w);
    }
    if exists k: nat :: n + 1 <= k && Power(t, k, w) {
      var m: nat :| n + 1 <= m && Power(t, m, w);
      var k := PowerCut(t, n, m - n, w);
      CopiesOfTerm(t, n, w[..k]);
      assert 1 <= m - n && Power(t, m - n, w[k..]);
      SnocSplit(Copies(Empty, t, n), Plus(t), w, k);
      assert InConcat(s, w);
    }
  }

  lemma PlusForward(t: Term, n: nat, w: Word) returns (m: nat)
    requires InConcat(Snoc(Copies(Empty, t, n), Plus(t)), w)
    ensures n + 1 <= m && Power(t, m, w)
  {
    var k :| 0 <= k <= |w| && InConcat(Copies(Empty, t, n), w[..k]) && InTerm(Plus(t), w[k..]);
    assert InTerm(Plus(t), w[k..]);
    m :| 1 <= m && Power(t, m, w[k..]);
    CopiesOfTerm(t, n, w[..k]);
    PowerJoin(t, n, m, w[..k], w[k..]);
    assert w[..k] + w[k..] == w;
    m := n + m;
  }

  lemma {:induction false} PowerJoin(t: Term, n: nat, m: nat, x: Word, y: Word)
    requires Power(t, n, x) && Power(t, m, y)
    ensures Power(t, n + m, x + y)
    decreases n
  {
    hide Power, InTerm;
    if n == 0 {
      NoPower(t, x);
      assert x + y == y;
    } else {
      var k := LessPower(t, n, x);
      PowerJoin(t, n - 1, m, x[k..], y);
      var z := x + y;
      assert z[..k] == x[..k] && z[k..] == x[k..] + y;
      MorePower(t, n - 1 + m, z, k);
    }
  }

  lemma CutTwice(w: Word, j: nat, i: nat)
    requires j + i <= |w|
    ensures w[..j + i][..j] == w[..j] && w[..j + i][j..] == w[j..][..i] && w[j + i..] == w[j..][i..]
  {
  }

  lemma {:induction false} PowerCut(t: Term, n: nat, m: nat, w: Word) returns (k: nat)
    requires Power(t, n + m, w)
    ensures k <= |w| && Power(t, n, w[..k]) && Power(t, m, w[k..])
    decreases n
  {
    if n == 0 {
      k := 0;
      assert w[0..] == w;
    } else {
      var j :| 0 <= j <= |w| && InTerm(t, w[..j]) && Power(t, n + m - 1, w[j..]);
      var i := PowerCut(t, n - 1, m, w[j..]);
      k := j + i;
      CutTwice(w, j, i);
    }
  }
}
