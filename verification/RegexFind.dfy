/** The whole path from pattern text to match, for patterns with and without `^` and `$`. */
module RegexFind {
  import opened Wrappers
  import opened RegexSyntax
  import opened RegexNfa
  import opened RegexCompile
  import opened RegexGenerate
  import opened RegexClosure
  import opened RegexFlow
  import opened RegexParse
  import opened RegexRuns
  import opened RegexStates
  import opened RegexMatch
  import opened RegexAnchored
  import opened RegexSearch
  import Spelling = RegexSpelling
  import Accepted = RegexAccepted

  /** `input[i..j]` is a word of the pattern. */
  ghost predicate Matches(p: Alts, input: Word, i: int, j: int) {
    0 <= i <= j <= |input| && InAlts(p, input[i..j])
  }

  /** Nothing matches, or `input[b..e]` matches, nothing matches earlier, and
      nothing longer matches there. */
  ghost predicate LeftmostLongest(p: Alts, input: Word, b: int, e: int) {
    if b == -1 then forall i, j :: !Matches(p, input, i, j)
    else
      && Matches(p, input, b, e)
      && forall i, j :: Matches(p, input, i, j) ==> b <= i && (i == b ==> j <= e)
  }

  /** The same among the matches that end with the text. */
  ghost predicate LeftmostAtEnd(p: Alts, input: Word, b: int, e: int) {
    if b == -1 then forall i :: !Matches(p, input, i, |input|)
    else e == |input| && Matches(p, input, b, e) && forall i :: Matches(p, input, i, |input|) ==> b <= i
  }

  /** The longest of the matches that begin with the text. */
  ghost predicate LongestPrefix(p: Alts, input: Word, b: int, e: int) {
    if b == -1 then forall j :: !Matches(p, input, 0, j)
    else b == 0 && Matches(p, input, 0, e) && forall j :: Matches(p, input, 0, j) ==> j <= e
  }

  /** After the word no term of the automaton can consume anything. */
  ghost predicate Stuck(cells: Cells, w: Word) {
    forall u :: 0 <= u < |cells| && IsTerm(cells[u]) ==> !RunTo(cells, w, u)
  }

  /** A proper part of the text, from its beginning, is a word that nothing can follow. */
  ghost predicate CutAt(p: Alts, cells: Cells, input: Word, n: nat) {
    0 < n < |input| && Matches(p, input, 0, n) && Stuck(cells, input[..n])
  }

  ghost predicate Cut(p: Alts, cells: Cells, input: Word) {
    exists n: nat :: CutAt(p, cells, input, n)
  }

  /** What is found, by kind of pattern.  With both anchors a match should mean that the
      whole text is a word of the pattern; it does exactly when the matcher is not cut short. */
  ghost predicate Answers(p: Pattern, cells: Cells, input: Word, b: int, e: int) {
    if !p.matchBegin && !p.matchEnd then LeftmostLongest(p.alts, input, b, e)
    else if !p.matchBegin then LeftmostAtEnd(p.alts, input, b, e)
    else if !p.matchEnd then LongestPrefix(p.alts, input, b, e)
    else
      && (b == 0 || b == -1) && (b == 0 ==> Matches(p.alts, input, 0, e))
      && ((b == 0 <==> Matches(p.alts, input, 0, |input|)) <==> !Cut(p.alts, cells, input))
      && (!Cut(p.alts, cells, input) && b == 0 ==> e == |input|)
  }

  // --------------------------------------------------- from states to patterns

  ghost predicate Compiled(m: Machine, p: Alts) {
    ValidMachine(m) && PatternLaid(m.cells, p) && m.Size() > 0 && m.pos[0] == |m.cells| - 1
  }

  lemma SameMatches(m: Machine, p: Alts, input: Word, i: int, j: int)
    requires Compiled(m, p)
    ensures Matches(p, input, i, j) <==> IsMatch(m, input, i, j)
  {
    hide ValidMachine, PatternLaid, RunTo, InAlts;
    if 0 <= i <= j <= |input| {
      LayoutPreservesLanguage(m.cells, p, input[i..j]);
      AcceptsIsRunTo(m.cells, input[i..j]);
    }
  }

  /** The best match of the machine is the leftmost and longest one of the pattern. */
  lemma BestIsLeftmostLongest(m: Machine, p: Alts, input: Word, b: int, e: int)
    requires Compiled(m, p) && Best(m, input, b, e)
    ensures LeftmostLongest(p, input, b, e)
  {
    hide Compiled, IsMatch, Matches;
    CompiledSize(m, p);
    forall i, j
      ensures Matches(p, input, i, j) <==> IsMatch(m, input, i, j)
    {
      SameMatches(m, p, input, i, j);
    }
  }

  lemma CompiledSize(m: Machine, p: Alts)
    requires Compiled(m, p)
    ensures m.Size() > 0 && ValidMachine(m)
  {
  }

  lemma BestIsLeftmostAtEnd(m: Machine, p: Alts, input: Word, b: int, e: int)
    requires Compiled(m, p) && m.Size() > 0 && BestAtEnd(m, input, b, e)
    ensures LeftmostAtEnd(p, input, b, e)
  {
    hide Compiled, IsMatch, Matches;
    forall i
      ensures Matches(p, input, i, |input|) <==> IsMatch(m, input, i, |input|)
    {
      SameMatches(m, p, input, i, |input|);
    }
    SameMatches(m, p, input, b, e);
  }

  lemma BestIsLongestPrefix(m: Machine, p: Alts, input: Word, b: int, e: int)
    requires Compiled(m, p) && m.Size() > 0 && BestFrom0(m, input, b, e)
    ensures LongestPrefix(p, input, b, e)
  {
    hide Compiled, IsMatch, Matches;
    forall j
      ensures Matches(p, input, 0, j) <==> IsMatch(m, input, 0, j)
    {
      SameMatches(m, p, input, 0, j);
    }
  }

  lemma DeadIsStuck(m: Machine, w: Word)
    requires ValidMachine(m)
    ensures Dead(m, w) <==> Stuck(m.cells, w)
  {
    hide RunTo;
    assert w[0..] == w;
    if Dead(m, w) {
      forall u | 0 <= u < |m.cells| && IsTerm(m.cells[u])
        ensures !RunTo(m.cells, w, u)
      {
        var k :| 0 < k < m.Size() && m.pos[k] == u;
        assert !Alive(m, w, 0, k);
      }
    }
    if Stuck(m.cells, w) {
      forall v | 0 < v < m.Size()
        ensures !Alive(m, w, 0, v)
      {
        assert !RunTo(m.cells, w, m.pos[v]);
      }
    }
  }

  lemma ShortIsCut(m: Machine, p: Alts, input: Word)
    requires Compiled(m, p) && m.Size() > 0
    ensures ShortWord(m, input) <==> Cut(p, m.cells, input)
  {
    hide Compiled, IsMatch, Matches, Dead, Stuck, ValidMachine;
    CompiledSize(m, p);
    forall n: nat
      ensures ShortAt(m, input, n) <==> CutAt(p, m.cells, input, n)
    {
      SameMatches(m, p, input, 0, n);
      if n < |input| {
        DeadIsStuck(m, input[..n]);
      }
    }
    if ShortWord(m, input) {
      var n :| ShortAt(m, input, n);
      assert CutAt(p, m.cells, input, n);
    }
    if n: nat :| CutAt(p, m.cells, input, n) {
      assert ShortAt(m, input, n);
    }
  }

  // ------------------------------------------------------------ text to match

  method RunMatch(m: Machine, input: Word, atEnd: bool) returns (b: int, e: int)
    requires ValidMachine(m) && m.Size() > 0
    ensures !atEnd ==> Best(m, input, b, e)
    ensures atEnd ==> BestAtEnd(m, input, b, e)
  {
    hide ValidMachine, Best, Linked, Unlinked, Tracks, Stale, Final, BestAtEnd;
    var run := new Match(m, atEnd);
    run.Continue(input);
    assert [] + input == input;
    b, e := run.GetResult();
  }

  method RunAnchored(m: Machine, input: Word, atEnd: bool) returns (b: int, e: int)
    requires ValidMachine(m) && m.Size() > 0
    ensures !atEnd ==> BestFrom0(m, input, b, e)
    ensures atEnd ==> (b == 0 || b == -1) && (b == 0 ==> IsMatch(m, input, 0, e))
    ensures atEnd ==> ((b == 0 <==> IsMatch(m, input, 0, |input|)) <==> !ShortWord(m, input))
    ensures atEnd && !ShortWord(m, input) && b == 0 ==> e == |input|
  {
    hide ValidMachine, BestFrom0, Linked, Unlinked, Follows, FirstDead, NoDead, IsMatch, ShortWord;
    var run := new Anchored(m, atEnd);
    run.Continue(input);
    assert [] + input == input;
    b, e := run.GetResult();
    if atEnd {
      BothAnchors(m, input, run.read, b);
    }
  }

  /** `regex_compile` and then `regex_begin_match`, `regex_continue_match` and
      `regex_get_result`: a text that is no pattern is refused, any other is searched for. */
  method FindMatch(text: string, input: Word) returns (r: Option<(int, int)>, ghost cells: Cells)
    ensures r.Some? <==> Tree(text).Some?
    ensures r.Some? <==> exists w :: Spelling.Spells(w, text)
    ensures r.Some? ==>
      && PatternLaid(cells, Tree(text).value.alts)
      && Answers(Tree(text).value, cells, input, r.value.0, r.value.1)
  {
    hide Tree, PatternLaid, WellFormed, ValidMachine, PatternItems, Answers, Spelling.Spells;
    cells := [];
    Accepted.AcceptedExactly(text);
    var parsed := Parse(text);
    if parsed.None? {
      return None, cells;
    }
    ghost var p := Tree(text).value;
    var transitions := GenerateTransitions(parsed.value.stack, parsed.value.size, p.alts);
    cells := transitions[..];
    LayoutWellFormed(cells, p.alts);
    var m := BuildMachine(transitions[..]);
    var b, e := Search(m, input, parsed.value.matchBegin, parsed.value.matchEnd, p);
    r := Some((b, e));
  }

  /** The matcher that the flags call for. */
  method Search(m: Machine, input: Word, matchBegin: bool, matchEnd: bool, ghost p: Pattern) returns (b: int, e: int)
    requires Compiled(m, p.alts) && matchBegin == p.matchBegin && matchEnd == p.matchEnd
    ensures Answers(p, m.cells, input, b, e)
  {
    hide Compiled, ValidMachine, Best, BestAtEnd, BestFrom0, IsMatch, ShortWord, LeftmostLongest, LeftmostAtEnd,
      LongestPrefix, Matches, Cut;
    CompiledSize(m, p.alts);
    if !matchBegin {
      b, e := RunMatch(m, input, matchEnd);
      if matchEnd {
        BestIsLeftmostAtEnd(m, p.alts, input, b, e);
      } else {
        BestIsLeftmostLongest(m, p.alts, input, b, e);
      }
    } else {
      b, e := RunAnchored(m, input, matchEnd);
      if matchEnd {
        SameMatches(m, p.alts, input, 0, |input|);
        SameMatches(m, p.alts, input, 0, e);
        ShortIsCut(m, p.alts, input);
      } else {
        BestIsLongestPrefix(m, p.alts, input, b, e);
      }
    }
  }

  // ------------------------------------------------------------- in the notation

  /** `input[i..j]` is what the spelling says. */
  ghost predicate Spoken(w: Spelling.Whole, input: Word, i: int, j: int) {
    0 <= i <= j <= |input| && Spelling.SpeaksChoice(w.choice, input[i..j])
  }

  /** The leftmost and longest part that the spelling says; with an anchor the leftmost at the
      end, or the longest at the beginning; and -1 exactly where it says no such part. */
  ghost predicate Finds(w: Spelling.Whole, input: Word, b: int, e: int)
    requires !(w.hat && w.dollar)
  {
    if w.hat then
      if b == -1 then forall j :: !Spoken(w, input, 0, j)
      else b == 0 && Spoken(w, input, 0, e) && forall j :: Spoken(w, input, 0, j) ==> j <= e
    else if w.dollar then
      if b == -1 then forall i :: !Spoken(w, input, i, |input|)
      else e == |input| && Spoken(w, input, b, e) && forall i :: Spoken(w, input, i, |input|) ==> b <= i
    else if b == -1 then forall i, j :: !Spoken(w, input, i, j)
    else Spoken(w, input, b, e) && forall i, j :: Spoken(w, input, i, j) ==> b <= i && (i == b ==> j <= e)
  }

  /** Whatever spelling of the text one goes by, the answer is the one that it calls for. */
  lemma FoundAsSpelled(text: string, w: Spelling.Whole, cells: Cells, input: Word, b: int, e: int)
    requires Spelling.Spells(w, text)
    ensures Tree(text).Some?
    ensures Answers(Tree(text).value, cells, input, b, e) && !(w.hat && w.dollar) ==> Finds(w, input, b, e)
    ensures Answers(Tree(text).value, cells, input, b, e) && w.hat && w.dollar ==>
      && (b == 0 ==> Spoken(w, input, 0, e))
      && (!Cut(Tree(text).value.alts, cells, input) ==> (b == 0 <==> Spoken(w, input, 0, |input|)))
  {
    hide Tree, Spelling.Spells, Spelling.SpeaksChoice, InAlts, Cut;
    Accepted.SpellingMeans(w, text, []);
    var p := Tree(text).value.alts;
    forall i: int, j: int
      ensures Matches(p, input, i, j) <==> Spoken(w, input, i, j)
    {
      if 0 <= i <= j <= |input| {
        Accepted.SpellingMeans(w, text, input[i..j]);
      }
    }
  }

  // -------------------------------------------------------- a match that is too long

  const LetterA: Alts := Only(Snoc(Empty, Atom(Single('a' as int))))

  /** The condition is met: the pattern ^a$ is found in "ab", which is no word of it. */
  lemma LongerTextMatches(cells: Cells, b: int, e: int)
    requires PatternLaid(cells, LetterA)
    ensures Tree("^a$") == Some(Pattern(LetterA, true, true))
    ensures var text := ['a' as int, 'b' as int];
      && Cut(LetterA, cells, text) && !Matches(LetterA, text, 0, |text|)
      && (Answers(Pattern(LetterA, true, true), cells, text, b, e) ==> b == 0)
  {
    hide Tree, PatternLaid, Cut, Matches;
    ReadLetter();
    LetterIsCut(cells);
    LetterWords(['a' as int, 'b' as int]);
  }

  lemma ReadLetter()
    ensures Tree("^a$") == Some(Pattern(LetterA, true, true))
  {
    var text := "^a$";
    var p := Fresh(true);
    var q := p.Add(Atom(Single('a' as int)));
    assert RegexParse.Advance(text, 1, p) == Next(2, q);
    assert RegexParse.Advance(text, 2, q) == Next(3, q.(matchEnd := true));
    assert TreeFrom(text, 3, q.(matchEnd := true)) == Some(Pattern(LetterA, true, true));
    assert TreeFrom(text, 2, q) == TreeFrom(text, 3, q.(matchEnd := true));
  }

  lemma LetterWords(text: Word)
    ensures forall i, j :: Matches(LetterA, text, i, j) <==> 0 <= i < |text| && j == i + 1 && text[i] == 'a' as int
  {
    forall i, j
      ensures Matches(LetterA, text, i, j) <==> 0 <= i < |text| && j == i + 1 && text[i] == 'a' as int
    {
      if 0 <= i <= j <= |text| {
        LetterWord(text[i..j]);
      }
    }
  }

  lemma LetterWord(w: Word)
    ensures InAlts(LetterA, w) <==> w == ['a' as int]
  {
    var t := Atom(Single('a' as int));
    var s := Snoc(Empty, t);
    assert InAlts(LetterA, w) == InConcat(s, w);
    if w == ['a' as int] {
      assert InConcat(Empty, w[..0]) && InTerm(t, w[0..]);
    }
    if InConcat(s, w) {
      var k :| 0 <= k <= |w| && InConcat(Empty, w[..k]) && InTerm(t, w[k..]);
      assert k == 0 && w[0..] == w;
    }
  }

  lemma LetterIsCut(cells: Cells)
    requires PatternLaid(cells, LetterA)
    ensures Cut(LetterA, cells, ['a' as int, 'b' as int])
  {
    var text := ['a' as int, 'b' as int];
    LetterWords(text);
    LetterStuck(cells);
    assert text[..1] == ['a' as int];
    assert CutAt(LetterA, cells, text, 1);
  }

  lemma LetterStuck(cells: Cells)
    requires PatternLaid(cells, LetterA)
    ensures Stuck(cells, ['a' as int])
  {
    LetterCells(cells);
    forall u | 0 <= u < |cells| && IsTerm(cells[u])
      ensures !RunTo(cells, ['a' as int], u)
    {
      if RunTo(cells, ['a' as int], u) {
        assert [] + ['a' as int] == ['a' as int];
        var v := LastChar(cells, [], 'a' as int, u);
        assert v == 1;
        EndLeadsNowhere(cells, u);
      }
    }
  }

  lemma EndLeadsNowhere(cells: Cells, u: int)
    requires |cells| == 3 && cells[2] == End && EpsReaches(cells, 2, u)
    ensures u == 2
  {
    var p :| PathTo(cells, 2, u, p);
    assert |p| > 1 ==> EpsStep(cells, p[0], p[1]);
  }

  lemma LetterCells(cells: Cells)
    requires PatternLaid(cells, LetterA)
    ensures cells == [Begin, Chr('a' as int), End]
  {
    var t := Atom(Single('a' as int));
    var s := Snoc(Empty, t);
    assert LitItems(Single('a' as int)) == [Chr('a' as int)];
    assert TermSize(t) == 1;
    assert ConcatSize(s) == 1;
    assert LetterA == Only(s);
    assert BlockSize(s, false) == 1;
    assert AltsSize(LetterA, false) == 1;
    assert AltsLaid(cells, LetterA, 1, false) && BlockLaid(cells, s, 1, false) && ConcatLaid(cells, s, 1);
    assert TermLaid(cells, t, 1 + ConcatSize(Empty));
    AtSingle(cells, 1, Chr('a' as int));
  }
}
