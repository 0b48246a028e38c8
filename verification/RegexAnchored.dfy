/** The matcher for patterns that begin with `^`: runs start at the beginning of the text
    alone, so the states carry no start position; and what `^...$` really accepts. */
module RegexAnchored {
  import opened RegexSyntax
  import opened RegexNfa
  import opened RegexStates
  import opened RegexMatch

  // ------------------------------------------------------------- active states

  /** Exactly the states of `on` are active. */
  ghost predicate Active(link: seq<int>, on: set<nat>) {
    forall v: nat :: v < |link| ==> (link[v] != -1 <==> v in on)
  }

  function Members(xs: seq<nat>): set<nat> {
    set v | v in xs
  }

  lemma MembersMore(xs: seq<nat>, i: nat)
    requires i < |xs|
    ensures Members(xs[..i + 1]) == Members(xs[..i]) + {xs[i]}
  {
    assert xs[..i + 1] == xs[..i] + [xs[i]];
  }

  lemma ActiveMore(link: seq<int>, on: set<nat>, v: nat, x: int)
    requires Active(link, on) && v < |link| && x != -1
    ensures Active(link[v := x], on + {v})
  {
  }

  lemma ActiveAgain(link: seq<int>, on: set<nat>, v: nat)
    requires Active(link, on) && v < |link| && link[v] != -1
    ensures on + {v} == on
  {
  }

  /** `compile_uncond_tran` and `compile_cond_tran` without start positions: states that
      are not in the list yet are put in front. */
  method EnterPlain(xs: seq<nat>, link: array<int>, head0: int, ghost chain0: seq<nat>, ghost on: set<nat>)
    returns (head: int, ghost chain: seq<nat>)
    requires link.Length > 0 && Bounded(xs, link.Length)
    requires head0 >= 0 && Linked(link[..], head0, chain0) && Active(link[..], on)
    modifies link
    ensures head >= 0 && Linked(link[..], head, chain)
    ensures Active(link[..], on + Members(xs))
  {
    hide Linked, Active;
    head, chain := head0, chain0;
    var i := 0;
    assert on + Members(xs[..0]) == on;
    while i < |xs|
      invariant 0 <= i <= |xs| && head >= 0
      invariant Linked(link[..], head, chain)
      invariant Active(link[..], on + Members(xs[..i]))
    {
      var v := xs[i];
      ghost var was, seen := link[..], on + Members(xs[..i]);
      MembersMore(xs, i);
      assert on + Members(xs[..i + 1]) == seen + {v};
      if link[v] == -1 {
        ActiveMore(was, seen, v, head);
        NotListed(was, head, chain, v);
        link[v] := head;
        assert link[..] == was[v := head];
        if v > 0 {
          LinkFront(was, head, chain, v);
          head, chain := v, [v] + chain;
        } else {
          LinkEnd(was, head, chain, head);
        }
      } else {
        ActiveAgain(was, seen, v);
      }
      i := i + 1;
    }
    assert xs[..i] == xs;
  }

  lemma NotListed(link: seq<int>, head: int, chain: seq<nat>, v: nat)
    requires Linked(link, head, chain) && v < |link| && link[v] == -1
    ensures v > 0 ==> v !in chain
  {
  }

  /** The states that `chain[..i]` move to when they see `c`. */
  ghost function Reached(m: Machine, chain: seq<nat>, i: nat, c: int): set<nat>
    requires i <= |chain| && |m.pos| == |m.trans| && Bounded(chain, |m.pos|)
  {
    if i == 0 then {}
    else Reached(m, chain, i - 1, c) + if Consumes(m.cells, m.pos[chain[i - 1]], c) then Members(m.trans[chain[i - 1]])
      else {}
  }

  lemma {:induction false} ReachedMembers(m: Machine, chain: seq<nat>, i: nat, c: int, v: nat)
    requires i <= |chain| && |m.pos| == |m.trans| && Bounded(chain, |m.pos|)
    ensures v in Reached(m, chain, i, c) <==> exists j :: 0 <= j < i && m.Moves(chain[j], c, v)
    decreases i
  {
    if i > 0 {
      ReachedMembers(m, chain, i - 1, c, v);
      if m.Moves(chain[i - 1], c, v) {
        assert v in Members(m.trans[chain[i - 1]]);
      }
    }
  }

  /** The walk over the active list, as for unanchored patterns. */
  method WalkPlain(m: Machine, c: int, link: array<int>, first: int, ghost chain: seq<nat>, nextLink: array<int>)
    returns (head: int, ghost nextChain: seq<nat>)
    requires ValidMachine(m) && link.Length == nextLink.Length == m.Size() && link != nextLink
    requires Linked(link[..], first, chain) && Unlinked(nextLink[..])
    modifies link, nextLink
    ensures forall v :: 0 < v < m.Size() ==> link[v] == -1
    ensures head >= 0 && Linked(nextLink[..], head, nextChain)
    ensures |m.pos| == |m.trans| && Bounded(chain, |m.pos|) && Active(nextLink[..], Reached(m, chain, |chain|, c))
  {
    hide Linked, Active, Walked, Unlinked, Reached;
    ZeroSize(m);
    WalkStarts(link[..], first, chain);
    NoneActive(nextLink[..]);
    ReachedNone(m, chain, c);
    var k := first;
    head, nextChain := 0, [];
    ghost var i := 0;
    while k != 0
      invariant 0 <= i <= |chain| && k == NextIn(chain, i - 1) && Bounded(chain, |m.pos|)
      invariant Walked(link[..], chain, i)
      invariant head >= 0 && Linked(nextLink[..], head, nextChain)
      invariant Active(nextLink[..], Reached(m, chain, i, c))
      decreases |chain| - i
    {
      InChain(link[..], chain, i);
      ReachedNext(m, chain, i, c);
      if Consumes(m.cells, m.pos[k], c) {
        TargetsBounded(m, k);
        head, nextChain := EnterPlain(m.trans[k], nextLink, head, nextChain, Reached(m, chain, i, c));
      }
      WalkOn(link[..], chain, i);
      var next := link[k];
      ghost var before := link[..];
      link[k] := -1;
      assert link[..] == before[k := -1];
      k := next;
      i := i + 1;
    }
    WalkEnds(link[..], chain, i);
  }

  lemma NoneActive(link: seq<int>)
    requires Unlinked(link)
    ensures Linked(link, 0, []) && Active(link, {})
  {
  }

  lemma ReachedNone(m: Machine, chain: seq<nat>, c: int)
    requires |m.pos| == |m.trans| && Bounded(chain, |m.pos|)
    ensures Reached(m, chain, 0, c) == {}
  {
  }

  lemma ReachedNext(m: Machine, chain: seq<nat>, i: nat, c: int)
    requires i < |chain| && |m.pos| == |m.trans| && Bounded(chain, |m.pos|)
    ensures Consumes(m.cells, m.pos[chain[i]], c) ==>
      Reached(m, chain, i + 1, c) == Reached(m, chain, i, c) + Members(m.trans[chain[i]])
    ensures !Consumes(m.cells, m.pos[chain[i]], c) ==> Reached(m, chain, i + 1, c) == Reached(m, chain, i, c)
  {
  }

  lemma TargetsBounded(m: Machine, k: nat)
    requires ValidMachine(m) && 0 < k < m.Size()
    ensures Bounded(m.trans[k], m.Size())
  {
  }

  // ------------------------------------------------- what the states stand for

  /** A state is active exactly when the text leads to it. */
  ghost predicate Follows(m: Machine, text: Word, link: seq<int>) {
    |link| == m.Size() && forall v :: 0 <= v < m.Size() ==> (link[v] != -1 <==> Alive(m, text, 0, v))
  }

  lemma FollowsMore(m: Machine, text: Word, c: int, link: seq<int>, head: int, chain: seq<nat>, after: seq<int>)
    requires ValidMachine(m) && Follows(m, text, link) && Linked(link, head, chain) && |after| == m.Size()
    requires |m.pos| == |m.trans| && Bounded(chain, |m.pos|) && Active(after, Reached(m, chain, |chain|, c))
    ensures Follows(m, text + [c], after)
  {
    hide Alive, Reached, ValidMachine;
    forall v | 0 <= v < m.Size()
      ensures after[v] != -1 <==> Alive(m, text + [c], 0, v)
    {
      ReachedMembers(m, chain, |chain|, c, v);
      if after[v] != -1 {
        var j :| 0 <= j < |chain| && m.Moves(chain[j], c, v);
        InChainAlive(link, head, chain, j);
        AliveMoves(m, text, c, 0, chain[j], v);
      }
      if Alive(m, text + [c], 0, v) {
        var k := AliveMoved(m, text, c, 0, v);
        var j := ListedAt(link, head, chain, k);
        assert m.Moves(chain[j], c, v);
      }
    }
  }

  lemma InChainAlive(link: seq<int>, head: int, chain: seq<nat>, j: nat)
    requires Linked(link, head, chain) && j < |chain|
    ensures 0 < chain[j] < |link| && link[chain[j]] != -1
  {
    assert chain[j] in chain;
  }

  lemma ListedAt(link: seq<int>, head: int, chain: seq<nat>, k: nat) returns (j: nat)
    requires Linked(link, head, chain) && 0 < k < |link| && link[k] != -1
    ensures j < |chain| && chain[j] == k
  {
    assert k in chain;
    j :| 0 <= j < |chain| && chain[j] == k;
  }

  lemma FollowsStart(m: Machine, link: seq<int>)
    requires ValidMachine(m) && |link| == m.Size() && Active(link, Members(m.init))
    ensures Follows(m, [], link)
  {
    hide Alive;
    forall v | 0 <= v < m.Size()
      ensures link[v] != -1 <==> Alive(m, [], 0, v)
    {
      AliveFresh(m, [], v);
    }
  }

  /** No character can follow: no state that consumes one is active. */
  ghost predicate Dead(m: Machine, text: Word) {
    forall v :: 0 < v < m.Size() ==> !Alive(m, text, 0, v)
  }

  lemma HeadTells(m: Machine, text: Word, link: seq<int>, head: int, chain: seq<nat>)
    requires Follows(m, text, link) && Linked(link, head, chain)
    ensures head == 0 <==> Dead(m, text)
  {
    hide Alive;
    if head == 0 {
      assert chain == [];
      assert forall v :: 0 < v < |link| ==> link[v] == -1;
    } else {
      InChainAlive(link, head, chain, 0);
    }
  }

  /** After a dead end nothing longer matches. */
  lemma DeadEnds(m: Machine, text: Word, more: Word, j: int)
    requires ValidMachine(m) && m.Size() > 0 && Dead(m, text) && j > |text|
    ensures !IsMatch(m, text + more, 0, j)
  {
    hide Alive, ValidMachine, IsMatch;
    if IsMatch(m, text + more, 0, j) {
      MatchInRange(m, text + more, 0, j);
      CutShort(m, text, more, 0, j);
      var k := AliveBefore(m, text, (text + more)[|text|..j], 0, 0);
    }
  }

  // ------------------------------------------------------------- the best match

  /** No word of the pattern begins the text, or the longest one that does. */
  ghost predicate BestFrom0(m: Machine, text: Word, b: int, e: int)
    requires m.Size() > 0
  {
    if b == -1 then forall j :: !IsMatch(m, text, 0, j)
    else b == 0 && IsMatch(m, text, 0, e) && forall j :: IsMatch(m, text, 0, j) ==> j <= e
  }

  lemma LongerMatch(m: Machine, text: Word, c: int, b: int, e: int, link: seq<int>)
    requires m.Size() > 0 && BestFrom0(m, text, b, e) && Follows(m, text + [c], link)
    ensures link[0] != -1 ==> BestFrom0(m, text + [c], 0, |text| + 1)
    ensures link[0] == -1 ==> BestFrom0(m, text + [c], b, e)
  {
    hide IsMatch, Alive;
    var after := text + [c];
    MatchIsAlive(m, after, 0);
    forall j
      ensures IsMatch(m, after, 0, j) ==>
        j <= |text| + 1 && (j == |text| + 1 ==> link[0] != -1) && (j <= |text| ==> IsMatch(m, text, 0, j))
    {
      if IsMatch(m, after, 0, j) {
        MatchInRange(m, after, 0, j);
        if j <= |text| {
          MatchPrefix(m, text, [c], 0, j);
        }
      }
    }
    if b == 0 {
      MatchInRange(m, text, 0, e);
      MatchPrefix(m, text, [c], 0, e);
    }
  }

  lemma FirstMatch(m: Machine, link: seq<int>)
    requires ValidMachine(m) && m.Size() > 0 && Follows(m, [], link)
    ensures BestFrom0(m, [], if 0 in m.init then 0 else -1, 0)
  {
    hide IsMatch, Alive;
    AliveFresh(m, [], 0);
    MatchIsAlive(m, [], 0);
    forall j
      ensures IsMatch(m, [], 0, j) ==> j == 0
    {
      if IsMatch(m, [], 0, j) {
        MatchInRange(m, [], 0, j);
      }
    }
  }

  lemma DeadBest(m: Machine, text: Word, more: Word, b: int, e: int)
    requires ValidMachine(m) && m.Size() > 0 && Dead(m, text) && BestFrom0(m, text, b, e)
    ensures BestFrom0(m, text + more, b, e)
  {
    hide IsMatch, Alive, ValidMachine, Dead;
    forall j
      ensures IsMatch(m, text + more, 0, j) ==> IsMatch(m, text, 0, j)
    {
      if IsMatch(m, text + more, 0, j) {
        if j > |text| {
          DeadEnds(m, text, more, j);
        } else {
          MatchPrefix(m, text, more, 0, j);
        }
      }
    }
    if b == 0 {
      MatchInRange(m, text, 0, e);
      MatchPrefix(m, text, more, 0, e);
    }
  }

  // ------------------------------------------------------------------ the match

  /** The first place, after at least one character, where nothing can follow. */
  ghost predicate FirstDead(m: Machine, text: Word, n: nat) {
    && 0 < n <= |text| && Dead(m, text[..n])
    && forall i :: 0 < i < n ==> !Dead(m, text[..i])
  }

  ghost predicate NoDead(m: Machine, text: Word) {
    forall i :: 0 < i <= |text| ==> !Dead(m, text[..i])
  }

  /** `struct regex_match` for a pattern that begins with `^`; `text` is what was given,
      `read` how much of it was looked at. */
  class Anchored {
    const m: Machine
    const matchEnd: bool
    var link: array<int>
    var nextLink: array<int>
    var head: int
    var index: int
    var bestBegin: int
    var bestEnd: int
    var fastQuit: bool
    ghost var text: Word
    ghost var read: nat
    ghost var chain: seq<nat>

    ghost predicate Shaped()
      reads this, link, nextLink
    {
      && ValidMachine(m) && link.Length == nextLink.Length == m.Size() && link != nextLink
      && Linked(link[..], head, chain) && Unlinked(nextLink[..])
      && read <= |text| && index == read + 1
      && Follows(m, text[..read], link[..])
      && (!matchEnd ==> BestFrom0(m, text[..read], bestBegin, bestEnd))
    }

    /** The matcher has stopped at the first dead end, or has read all of the text. */
    ghost predicate Valid()
      reads this, link, nextLink
    {
      Shaped() && if fastQuit then FirstDead(m, text, read) else read == |text| && NoDead(m, text)
    }

    /** `regex_begin_match`. */
    constructor (machine: Machine, atEnd: bool)
      requires ValidMachine(machine)
      ensures Valid() && text == [] && m == machine && matchEnd == atEnd
      ensures fresh(link) && fresh(nextLink)
    {
      hide Follows, BestFrom0, ValidMachine, Dead;
      MachineLists(machine);
      var n := |machine.pos|;
      var l := new int[n](_ => -1);
      var h;
      ghost var c;
      h, c := EnterPlain(machine.init, l, 0, [], {});
      m, matchEnd, link, head, chain, text, read := machine, atEnd, l, h, c, [], 0;
      nextLink := new int[n](_ => -1);
      index, bestEnd, fastQuit := 1, 0, false;
      bestBegin := if 0 in machine.init then 0 else -1;
      new;
      hide Linked, Active;
      assert {} + Members(m.init) == Members(m.init);
      FollowsStart(m, link[..]);
      ZeroSize(m);
      FirstMatch(m, link[..]);
    }

    /** All active states see the character; then the arrays change roles. */
    method MoveStates(c: int)
      requires Shaped() && !fastQuit && read == |text|
      modifies this`head, this`link, this`nextLink, this`chain, this`text, link, nextLink
      ensures ValidMachine(m) && link.Length == nextLink.Length == m.Size() && link != nextLink
        && {link, nextLink} == old({link, nextLink})
      ensures Linked(link[..], head, chain) && (forall v :: 0 < v < m.Size() ==> nextLink[v] == -1)
      ensures text == old(text) + [c] && Follows(m, text, link[..])
    {
      hide Linked, Follows, ValidMachine, Unlinked, BestFrom0, Active, Reached;
      ghost var linked := link[..];
      ZeroSize(m);
      assert text[..read] == text;
      var h;
      ghost var after;
      h, after := WalkPlain(m, c, link, head, chain, nextLink);
      FollowsMore(m, text, c, linked, head, chain, nextLink[..]);
      link, nextLink := nextLink, link;
      head, chain, text := h, after, text + [c];
    }

    /** One character: a longer match, perhaps, and perhaps a dead end. */
    method Step(c: int)
      requires Valid() && !fastQuit
      modifies this, link, nextLink
      ensures Valid() && text == old(text) + [c] && {link, nextLink} == old({link, nextLink})
    {
      hide Linked, Follows, ValidMachine, Unlinked, BestFrom0, NoDead, FirstDead;
      ZeroSize(m);
      ghost var n := read;
      assert text[..n] == text;
      MoveStates(c);
      EndOfCharacter(n);
    }

    /** The code of state 0 after all states have run. */
    method EndOfCharacter(ghost n: nat)
      requires ValidMachine(m) && link.Length == nextLink.Length == m.Size() && link != nextLink && !fastQuit
      requires Linked(link[..], head, chain) && (forall v :: 0 < v < m.Size() ==> nextLink[v] == -1)
      requires |text| == n + 1 && read == n && index == n + 1 && Follows(m, text, link[..]) && NoDead(m, text[..n])
      requires m.Size() > 0 && (!matchEnd ==> BestFrom0(m, text[..n], bestBegin, bestEnd))
      modifies this`bestBegin, this`bestEnd, this`index, this`read, this`fastQuit, nextLink
      ensures Valid()
    {
      hide Linked, Follows, ValidMachine, BestFrom0;
      assert text == text[..n] + [text[n]];
      if !matchEnd {
        LongerMatch(m, text[..n], text[n], bestBegin, bestEnd, link[..]);
        if link[0] != -1 {
          bestBegin, bestEnd := 0, index;
        }
      }
      ghost var kept := link[..];
      nextLink[0] := -1;
      assert link[..] == kept;
      index := index + 1;
      read := read + 1;
      assert text[..read] == text;
      HeadTells(m, text, link[..], head, chain);
      DeadNow(m, text, n);
      if head == 0 {
        fastQuit := true;
      }
    }

    /** `regex_continue_match`. */
    method Continue(input: Word)
      requires Valid()
      modifies this, link, nextLink
      ensures Valid() && text == old(text) + input && {link, nextLink} == old({link, nextLink})
    {
      hide Follows, Linked, ValidMachine, Unlinked, BestFrom0, NoDead, FirstDead;
      ghost var before := text;
      var i := 0;
      while i < |input| && !fastQuit
        invariant 0 <= i <= |input| && Valid() && {link, nextLink} == old({link, nextLink})
        invariant text == before + input[..i]
      {
        Step(input[i]);
        assert input[..i + 1] == input[..i] + [input[i]];
        i := i + 1;
      }
      assert before + input == (before + input[..i]) + input[i..];
      if i < |input| {
        StillDead(m, text, input[i..], read);
        text := text + input[i..];
      }
    }

    /** `regex_get_result`: with `$` the end state tells, wherever the matcher stopped. */
    method GetResult() returns (b: int, e: int)
      requires Valid()
      ensures m.Size() > 0
      ensures !matchEnd ==> BestFrom0(m, text, b, e)
      ensures matchEnd ==> (b == 0 || b == -1) && (b == 0 <==> IsMatch(m, text, 0, read)) && (b == 0 ==> e == read)
      ensures FirstDead(m, text, read) || (read == |text| && NoDead(m, text))
    {
      hide Follows, Linked, ValidMachine, Unlinked, BestFrom0, NoDead;
      ZeroSize(m);
      b, e := bestBegin, bestEnd;
      if matchEnd {
        EndState(m, text, read, link[..]);
        if link[0] == -1 || head == -1 {
          HeadNotNegative(link[..], head, chain);
          b := -1;
        } else {
          e := index - 1;
          b := 0;
        }
      } else if fastQuit {
        assert text == text[..read] + text[read..];
        DeadBest(m, text[..read], text[read..], b, e);
      } else {
        assert text[..read] == text;
      }
    }
  }

  lemma DeadNow(m: Machine, text: Word, n: nat)
    requires |text| == n + 1 && NoDead(m, text[..n])
    ensures if Dead(m, text) then FirstDead(m, text, n + 1) else NoDead(m, text)
  {
    hide Dead;
    assert text[..n + 1] == text;
    forall i | 0 < i < n + 1
      ensures !Dead(m, text[..i])
    {
      assert text[..n][..i] == text[..i];
    }
  }

  lemma StillDead(m: Machine, text: Word, more: Word, n: nat)
    requires FirstDead(m, text, n)
    ensures FirstDead(m, text + more, n) && (text + more)[..n] == text[..n]
  {
    hide Dead;
    forall i | 0 < i <= n
      ensures (text + more)[..i] == text[..i]
    {
    }
  }

  lemma EndState(m: Machine, text: Word, n: nat, link: seq<int>)
    requires m.Size() > 0 && n <= |text| && Follows(m, text[..n], link)
    ensures link[0] != -1 <==> IsMatch(m, text, 0, n)
  {
    hide Alive, IsMatch;
    MatchIsAlive(m, text[..n], 0);
    assert text == text[..n] + text[n..];
    MatchPrefix(m, text[..n], text[n..], 0, n);
  }

  lemma HeadNotNegative(link: seq<int>, head: int, chain: seq<nat>)
    requires Linked(link, head, chain)
    ensures head >= 0
  {
  }

  /** With `^` and `$` a match is reported for some text that is no word of the pattern
      exactly when a shorter part of the text is one after which nothing can follow:
      the matcher stops there and takes the end state for that of the whole text. */
  lemma BothAnchors(m: Machine, text: Word, read: nat, b: int)
    requires ValidMachine(m) && m.Size() > 0 && read <= |text| && (b == 0 || b == -1)
      && (b == 0 <==> IsMatch(m, text, 0, read))
    requires FirstDead(m, text, read) || (read == |text| && NoDead(m, text))
    ensures (b == 0 <==> IsMatch(m, text, 0, |text|)) <==> !ShortWord(m, text)
    ensures ShortWord(m, text) ==> b == 0
    ensures !ShortWord(m, text) && b == 0 ==> read == |text|
  {
    hide Alive, IsMatch, ValidMachine, Dead;
    if n :| ShortAt(m, text, n) {
      ShortStops(m, text, read, n);
      LongerLost(m, text, n);
    } else if read < |text| {
      assert !ShortAt(m, text, read);
      LongerLost(m, text, read);
    }
  }

  ghost predicate ShortAt(m: Machine, text: Word, n: nat)
    requires m.Size() > 0
  {
    0 < n < |text| && IsMatch(m, text, 0, n) && Dead(m, text[..n])
  }

  /** A proper part of the text, from its beginning, is a word that nothing can follow. */
  ghost predicate ShortWord(m: Machine, text: Word)
    requires m.Size() > 0
  {
    exists n :: ShortAt(m, text, n)
  }

  lemma LongerLost(m: Machine, text: Word, n: nat)
    requires ValidMachine(m) && m.Size() > 0 && n < |text| && Dead(m, text[..n])
    ensures !IsMatch(m, text, 0, |text|)
  {
    hide Alive, IsMatch, ValidMachine, Dead;
    if IsMatch(m, text, 0, |text|) {
      assert text == text[..n] + text[n..];
      DeadEnds(m, text[..n], text[n..], |text|);
    }
  }

  /** The matcher stops at that word, not before it. */
  lemma ShortStops(m: Machine, text: Word, read: nat, n: nat)
    requires ValidMachine(m) && m.Size() > 0 && ShortAt(m, text, n) && read <= |text|
    requires FirstDead(m, text, read) || (read == |text| && NoDead(m, text))
    ensures read == n
  {
    hide Alive, IsMatch, ValidMachine, Dead;
    if read < n {
      assert text == text[..read] + text[read..];
      DeadEnds(m, text[..read], text[read..], n);
    }
  }
}
