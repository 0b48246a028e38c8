/** The matcher as a whole: one step per character, the best match so far, the
    fast-forward shortcut and the early stop; and what it finds, which is the
    leftmost and then longest match. */
module RegexMatch {
  import opened RegexSyntax
  import opened RegexNfa
  import opened RegexRuns
  import opened RegexStates

  // ----------------------------------------------------- what the states track

  /** `text[b..]` leads from the start of the automaton to state `v`. */
  ghost predicate Alive(m: Machine, text: Word, b: nat, v: nat)
    requires v < m.Size() && b <= |text|
  {
    RunTo(m.cells, text[b..], m.pos[v])
  }

  /** Starts still of interest: all of them, or those not after the best match. */
  predicate InPlay(text: Word, best: int, b: int) {
    0 <= b <= |text| && (best == -1 || b <= best)
  }

  /** A state is active exactly when a start in play keeps it alive, and it
      carries the smallest such start. */
  ghost predicate Tracks(m: Machine, text: Word, best: int, link: seq<int>, start: seq<int>) {
    && |link| == |start| == m.Size()
    && (forall v :: 0 <= v < m.Size() && link[v] != -1 ==>
          InPlay(text, best, start[v]) && Alive(m, text, start[v], v))
    && (forall v, b :: 0 <= v < m.Size() && InPlay(text, best, b) && Alive(m, text, b, v) ==>
          link[v] != -1 && start[v] <= b)
  }

  ghost predicate IsMatch(m: Machine, text: Word, b: int, e: int)
    requires m.Size() > 0
  {
    0 <= b <= e <= |text| && RunTo(m.cells, text[b..e], m.pos[0])
  }

  /** No match yet, or the leftmost and then longest one. */
  ghost predicate Best(m: Machine, text: Word, b: int, e: int)
    requires m.Size() > 0
  {
    if b == -1 then forall i, j :: !IsMatch(m, text, i, j)
    else
      && 0 <= b && 0 <= e && IsMatch(m, text, b, e)
      && forall i, j :: IsMatch(m, text, i, j) ==> b <= i && (i == b ==> j <= e)
  }

  // ------------------------------------------------------- one character later

  lemma SuffixGrows(text: Word, c: int, b: nat)
    requires b <= |text|
    ensures (text + [c])[b..] == text[b..] + [c]
  {
  }

  lemma AliveMoves(m: Machine, text: Word, c: int, b: nat, k: nat, v: nat)
    requires ValidMachine(m) && 0 < k < m.Size() && v < m.Size() && b <= |text|
    requires Alive(m, text, b, k) && m.Moves(k, c, v)
    ensures Alive(m, text + [c], b, v)
  {
    SuffixGrows(text, c, b);
    assert Lists(m, m.trans[k], AfterTerm(m.cells, m.pos[k]));
    CharExtend(m.cells, text[b..], m.pos[k], c, m.pos[v]);
  }

  lemma AliveMoved(m: Machine, text: Word, c: int, b: nat, v: nat) returns (k: nat)
    requires ValidMachine(m) && v < m.Size() && b <= |text|
    requires Alive(m, text + [c], b, v)
    ensures 0 < k < m.Size() && Alive(m, text, b, k) && m.Moves(k, c, v)
  {
    SuffixGrows(text, c, b);
    var u := LastChar(m.cells, text[b..], c, m.pos[v]);
    k :| 0 < k < m.Size() && m.pos[k] == u;
    assert Lists(m, m.trans[k], AfterTerm(m.cells, m.pos[k]));
  }

  lemma AliveFresh(m: Machine, text: Word, v: nat)
    requires ValidMachine(m) && v < m.Size()
    ensures Alive(m, text, |text|, v) <==> v in m.init
  {
    assert text[|text|..] == [];
  }

  /** The offers a step makes: a fresh start, unless a match has been found, and
      what the active states pass on. */
  ghost predicate StepOffers(m: Machine, text: Word, c: int, best: int, link: seq<int>, start: seq<int>,
                             offers: set<(nat, int)>)
    requires ValidMachine(m) && |link| == |start| == m.Size()
  {
    forall v, b :: (v, b) in offers <==>
      (best == -1 && v in m.init && b == |text| + 1)
      || exists k :: 0 < k < m.Size() && link[k] != -1 && m.Moves(k, c, v) && b == start[k]
  }

  lemma StepTracks(m: Machine, text: Word, c: int, best: int, link: seq<int>, start: seq<int>,
                   offers: set<(nat, int)>, nextLink: seq<int>, nextStart: seq<int>)
    requires ValidMachine(m) && Tracks(m, text, best, link, start) && -1 <= best <= |text|
    requires StepOffers(m, text, c, best, link, start, offers)
    requires |nextLink| == m.Size() && Least(nextLink, nextStart, offers)
    ensures Tracks(m, text + [c], best, nextLink, nextStart)
  {
    hide ValidMachine;
    var after := text + [c];
    forall v | 0 <= v < m.Size() && nextLink[v] != -1
      ensures InPlay(after, best, nextStart[v]) && Alive(m, after, nextStart[v], v)
    {
      assert (v, nextStart[v]) in offers;
      OfferAlive(m, text, c, best, link, start, offers, v, nextStart[v]);
    }
    forall v, b | 0 <= v < m.Size() && InPlay(after, best, b) && Alive(m, after, b, v)
      ensures nextLink[v] != -1 && nextStart[v] <= b
    {
      var b1 := AliveOffered(m, text, c, best, link, start, offers, v, b);
      assert (v, b1) in offers;
    }
  }

  lemma OfferAlive(m: Machine, text: Word, c: int, best: int, link: seq<int>, start: seq<int>,
                   offers: set<(nat, int)>, v: nat, b: int)
    requires ValidMachine(m) && Tracks(m, text, best, link, start) && -1 <= best <= |text|
    requires StepOffers(m, text, c, best, link, start, offers)
    requires v < m.Size() && (v, b) in offers
    ensures InPlay(text + [c], best, b) && Alive(m, text + [c], b, v)
  {
    hide Alive;
    if best == -1 && v in m.init && b == |text| + 1 {
      AliveFresh(m, text + [c], v);
    } else {
      var k :| 0 < k < m.Size() && link[k] != -1 && m.Moves(k, c, v) && b == start[k];
      AliveMoves(m, text, c, b, k, v);
    }
  }

  lemma AliveOffered(m: Machine, text: Word, c: int, best: int, link: seq<int>, start: seq<int>,
                     offers: set<(nat, int)>, v: nat, b: int) returns (b1: int)
    requires ValidMachine(m) && Tracks(m, text, best, link, start) && -1 <= best <= |text|
    requires StepOffers(m, text, c, best, link, start, offers)
    requires v < m.Size() && InPlay(text + [c], best, b) && Alive(m, text + [c], b, v)
    ensures (v, b1) in offers && b1 <= b
  {
    hide Alive;
    if b == |text| + 1 {
      AliveFresh(m, text + [c], v);
      b1 := b;
    } else {
      var k := AliveMoved(m, text, c, b, v);
      b1 := start[k];
    }
  }

  // ------------------------------------------------------------- the best match

  lemma MatchIsAlive(m: Machine, text: Word, b: nat)
    requires m.Size() > 0 && b <= |text|
    ensures IsMatch(m, text, b, |text|) <==> Alive(m, text, b, 0)
  {
    assert text[b..|text|] == text[b..];
  }

  lemma MatchPrefix(m: Machine, text: Word, more: Word, b: int, e: int)
    requires m.Size() > 0 && e <= |text|
    ensures IsMatch(m, text + more, b, e) <==> IsMatch(m, text, b, e)
  {
    if 0 <= b <= e {
      assert (text + more)[b..e] == text[b..e];
    }
  }

  /** With the end state inactive the best match stays. */
  lemma BestStays(m: Machine, text: Word, c: int, b: int, e: int, link: seq<int>, start: seq<int>)
    requires m.Size() > 0 && Best(m, text, b, e) && b <= |text|
    requires Tracks(m, text + [c], b, link, start) && link[0] == -1
    ensures Best(m, text + [c], b, e)
  {
    hide RunTo, IsMatch, Alive;
    var after := text + [c];
    forall i, j | IsMatch(m, after, i, j)
      ensures b != -1 && b <= i && (i == b ==> j <= e)
    {
      MatchInRange(m, after, i, j);
      if j <= |text| {
        MatchPrefix(m, text, [c], i, j);
      } else {
        MatchIsAlive(m, after, i);
        assert !InPlay(after, b, i);
      }
    }
    if b != -1 {
      MatchInRange(m, text, b, e);
      MatchPrefix(m, text, [c], b, e);
    }
  }

  lemma MatchInRange(m: Machine, text: Word, b: int, e: int)
    requires m.Size() > 0 && IsMatch(m, text, b, e)
    ensures 0 <= b <= e <= |text|
  {
  }

  /** With the end state active its start and the current position become the best match. */
  lemma BestMoves(m: Machine, text: Word, c: int, b: int, e: int, link: seq<int>, start: seq<int>)
    requires m.Size() > 0 && Best(m, text, b, e) && b <= |text|
    requires Tracks(m, text + [c], b, link, start) && link[0] != -1
    ensures 0 <= start[0] <= |text| + 1 && (b == -1 || start[0] <= b)
    ensures Best(m, text + [c], start[0], |text| + 1)
  {
    hide RunTo, IsMatch, Alive;
    var after := text + [c];
    var s0 := start[0];
    assert InPlay(after, b, s0) && Alive(m, after, s0, 0);
    MatchIsAlive(m, after, s0);
    forall i, j | IsMatch(m, after, i, j)
      ensures s0 <= i && (i == s0 ==> j <= |text| + 1)
    {
      MatchInRange(m, after, i, j);
      if j <= |text| {
        MatchPrefix(m, text, [c], i, j);
      } else {
        MatchIsAlive(m, after, i);
        assert InPlay(after, b, i) ==> s0 <= i;
      }
    }
  }

  /** Dropping the states that started after the new best match. */
  lemma DropTracks(m: Machine, text: Word, best: int, limit: int, link: seq<int>, start: seq<int>, after: seq<int>)
    requires Tracks(m, text, best, link, start) && m.Size() > 0
    requires 0 <= limit && (best == -1 || limit <= best) && |after| == |link|
    requires after[0] == link[0] && (link[0] != -1 ==> start[0] <= limit)
    requires forall v :: 0 < v < |link| ==> (after[v] != -1 <==> link[v] != -1 && start[v] <= limit)
    ensures Tracks(m, text, limit, after, start)
  {
    hide Alive;
    forall v, b | 0 <= v < m.Size() && InPlay(text, limit, b) && Alive(m, text, b, v)
      ensures after[v] != -1 && start[v] <= b
    {
      assert InPlay(text, best, b);
    }
  }

  /** Nothing active once a match is known: no longer text changes the result. */
  lemma {:induction false} NothingActive(m: Machine, text: Word, more: Word, b: int, e: int, link: seq<int>,
                                         start: seq<int>)
    requires ValidMachine(m) && 0 <= b <= |text| && Best(m, text, b, e)
    requires Tracks(m, text, b, link, start) && forall v :: 0 < v < m.Size() ==> link[v] == -1
    ensures Best(m, text + more, b, e)
    decreases |more|
  {
    hide RunTo, IsMatch, Alive, ValidMachine;
    assert m.Size() > 0 by { MachineSize(m); }
    forall i, j | IsMatch(m, text + more, i, j)
      ensures b <= i && (i == b ==> j <= e)
    {
      MatchInRange(m, text + more, i, j);
      if j <= |text| {
        MatchPrefix(m, text, more, i, j);
      } else if i <= b {
        assert InPlay(text, b, i);
        CutShort(m, text, more, i, j);
        var k := AliveBefore(m, text, (text + more)[|text|..j], i, 0);
      }
    }
    MatchInRange(m, text, b, e);
    MatchPrefix(m, text, more, b, e);
  }

  lemma MachineSize(m: Machine)
    requires ValidMachine(m)
    ensures m.Size() > 0
  {
  }

  lemma CutShort(m: Machine, text: Word, more: Word, i: nat, j: nat)
    requires m.Size() > 0 && i <= |text| < j <= |text + more| && IsMatch(m, text + more, i, j)
    ensures Alive(m, text + (text + more)[|text|..j], i, 0)
  {
    var x := (text + more)[|text|..j];
    assert (text + x)[i..] == (text + more)[i..j];
  }

  /** A start that is alive later was alive, in a state that consumes, before. */
  lemma {:induction false} AliveBefore(m: Machine, text: Word, more: Word, b: nat, v: nat) returns (k: nat)
    requires ValidMachine(m) && v < m.Size() && b <= |text| && more != []
    requires Alive(m, text + more, b, v)
    ensures 0 < k < m.Size() && Alive(m, text, b, k)
    decreases |more|
  {
    var n := |more| - 1;
    assert text + more == (text + more[..n]) + [more[n]];
    k := AliveMoved(m, text + more[..n], more[n], b, v);
    if n > 0 {
      k := AliveBefore(m, text, more[..n], b, k);
    } else {
      assert text + more[..n] == text;
    }
  }

  // --------------------------------------------------------------- fast-forward

  /** While characters are skipped the active states are those of a fresh start
      (with out-of-date start positions), and no earlier start is alive. */
  ghost predicate Stale(m: Machine, text: Word, link: seq<int>) {
    && |link| == m.Size()
    && (forall v :: 0 <= v < m.Size() ==> (link[v] != -1 <==> v in m.init))
    && (forall b, v :: 0 <= b < |text| && 0 <= v < m.Size() ==> !Alive(m, text, b, v))
  }

  predicate FirstHit(m: Machine, xs: seq<nat>, c: int)
    requires Bounded(xs, |m.pos|)
  {
    exists i :: 0 <= i < |xs| && Consumes(m.cells, m.pos[xs[i]], c)
  }

  lemma StaleSkips(m: Machine, text: Word, c: int, link: seq<int>)
    requires ValidMachine(m) && Stale(m, text, link) && !FirstHit(m, m.init, c)
    ensures Stale(m, text + [c], link)
  {
    hide Alive;
    forall b, v | 0 <= b < |text + [c]| && 0 <= v < m.Size()
      ensures !Alive(m, text + [c], b, v)
    {
      if Alive(m, text + [c], b, v) {
        var k := AliveMoved(m, text, c, b, v);
        if b == |text| {
          AliveFresh(m, text, k);
        }
      }
    }
  }

  lemma StaleTracks(m: Machine, text: Word, link: seq<int>, start: seq<int>)
    requires ValidMachine(m) && Stale(m, text, link) && |start| == |link|
    requires forall v :: v in m.init ==> start[v] == |text|
    ensures Tracks(m, text, -1, link, start)
  {
    hide Alive;
    forall v | 0 <= v < m.Size()
      ensures Alive(m, text, |text|, v) <==> v in m.init
    {
      AliveFresh(m, text, v);
    }
  }

  /** Only fresh starts are active: the states need not be looked at again until
      one of them can match. */
  lemma TracksStale(m: Machine, text: Word, link: seq<int>, start: seq<int>, offers: set<(nat, int)>)
    requires ValidMachine(m) && Tracks(m, text, -1, link, start) && Least(link, start, offers)
    requires offers == Offers(m.init, |text|)
    ensures Stale(m, text, link)
  {
    hide Alive;
    forall v | 0 <= v < m.Size()
      ensures link[v] != -1 <==> v in m.init
    {
      assert v in m.init ==> (v, |text|) in offers;
    }
    assert forall v :: 0 <= v < m.Size() && link[v] != -1 ==> start[v] == |text|;
    forall b, v | 0 <= b < |text| && 0 <= v < m.Size()
      ensures !Alive(m, text, b, v)
    {
      assert InPlay(text, -1, b);
    }
  }

  method HitsFirst(m: Machine, c: int) returns (hit: bool)
    requires ValidMachine(m)
    ensures hit == FirstHit(m, m.init, c)
  {
    var i := 0;
    while i < |m.init|
      invariant 0 <= i <= |m.init|
      invariant forall j :: 0 <= j < i ==> !Consumes(m.cells, m.pos[m.init[j]], c)
    {
      if Consumes(m.cells, m.pos[m.init[i]], c) {
        return true;
      }
      i := i + 1;
    }
    return false;
  }

  method RestoreStarts(xs: seq<nat>, start: array<int>, b: int)
    requires Bounded(xs, start.Length)
    modifies start
    ensures forall v :: v in xs ==> start[v] == b
  {
    var i := 0;
    while i < |xs|
      invariant 0 <= i <= |xs|
      invariant forall j :: 0 <= j < i ==> start[xs[j]] == b
    {
      start[xs[i]] := b;
      i := i + 1;
    }
  }

  // ------------------------------------------------------------------ the match

  /** `struct regex_match`, with the text consumed so far as proof data. */
  class Match {
    const m: Machine
    const matchEnd: bool
    var link: array<int>
    var start: array<int>
    var nextLink: array<int>
    var nextStart: array<int>
    var head: int
    var index: int
    var bestBegin: int
    var bestEnd: int
    var fastQuit: bool
    var fastForward: bool
    ghost var text: Word
    ghost var chain: seq<nat>

    /** The best match so far limits the starts in play, unless matches count at the
        end of the text alone. */
    function Limit(): int
      reads this
    {
      if matchEnd then -1 else bestBegin
    }

    ghost function Arrays(): set<object>
      reads this
    {
      {link, start, nextLink, nextStart}
    }

    /** The arrays, and the list of active states threaded through one of them. */
    ghost predicate Shaped()
      reads this, Arrays()
    {
      && ValidMachine(m)
      && link.Length == start.Length == nextLink.Length == nextStart.Length == m.Size()
      && link != start && link != nextLink && link != nextStart
      && start != nextLink && start != nextStart && nextLink != nextStart
      && Linked(link[..], head, chain)
    }

    /** The states of a running matcher. */
    ghost predicate Running()
      reads this, Arrays()
      requires ValidMachine(m)
    {
      && index == |text| + 1 && -1 <= bestBegin <= |text|
      && if m.fast && fastForward then Limit() == -1 && Stale(m, text, link[..])
         else Tracks(m, text, Limit(), link[..], start[..])
    }

    /** After every character: a proper list, and the retired array cleared, which
        the debug build of the source checks; and the best match of the text. */
    ghost predicate Valid()
      reads this, Arrays()
    {
      && Shaped() && Unlinked(nextLink[..]) && (!matchEnd ==> Best(m, text, bestBegin, bestEnd))
      && if fastQuit then !matchEnd && Final(m, text, bestBegin, bestEnd) else Running()
    }

    /** `regex_begin_match` with the generated initial state. */
    constructor (machine: Machine, atEnd: bool)
      requires ValidMachine(machine)
      ensures Valid() && text == [] && m == machine && matchEnd == atEnd
      ensures fresh(link) && fresh(start) && fresh(nextLink) && fresh(nextStart)
    {
      hide Tracks, Best, ValidMachine, Linked, Least, Offers, Stale, Unlinked, Final;
      MachineLists(machine);
      var l, s := FreshArrays(|machine.pos|);
      var h;
      ghost var c;
      h, c := EnterFresh(machine.init, l, s, 0);
      var b := if 0 in machine.init then 0 else -1;
      StartTracks(machine, b, l[..], s[..]);
      NoTextTracks(machine, b, l[..], s[..]);
      var nl, ns := FreshArrays(|machine.pos|);
      m, matchEnd, link, start, head, chain, text := machine, atEnd, l, s, h, c, [];
      nextLink, nextStart, bestBegin := nl, ns, b;
      index, bestEnd, fastQuit, fastForward := 1, 0, false, false;
    }

    /** `compile_end_check`: the end state is active after this character. */
    method EndCheck()
      requires Shaped() && link[0] != -1 && !matchEnd
      requires index == |text| && -1 <= bestBegin && text != []
      requires Tracks(m, text, bestBegin, link[..], start[..])
      requires bestBegin < |text| && Best(m, text[..|text| - 1], bestBegin, bestEnd)
      modifies this`bestBegin, this`bestEnd, this`head, this`chain, link
      ensures Shaped() && Tracks(m, text, bestBegin, link[..], start[..])
      ensures 0 <= bestBegin <= |text| && Best(m, text, bestBegin, bestEnd)
      ensures link[0] == old(link[0])
    {
      hide Linked, ValidMachine, Unlinked, Best;
      ghost var n, linked := |text| - 1, link[..];
      assert text == text[..n] + [text[n]];
      ZeroSize(m);
      BestMoves(m, text[..n], text[n], bestBegin, bestEnd, link[..], start[..]);
      var b := start[0];
      if bestBegin != -1 && bestBegin < b {
        return;
      }
      var before := bestBegin;
      bestBegin, bestEnd := b, index;
      if before == -1 || b < before {
        ghost var kept;
        head, kept := DropLater(link, start, b, head, chain);
        chain := kept;
      }
      LimitTracks(m, text, before, b, linked, start[..], link[..]);
    }

    /** All active states see the character; then the arrays change roles. */
    method MoveStates(c: int) returns (moved: bool, ghost offers: set<(nat, int)>)
      requires Shaped() && Unlinked(nextLink[..])
      requires Tracks(m, text, Limit(), link[..], start[..]) && index == |text| + 1 && -1 <= Limit() <= |text|
      modifies this`head, this`link, this`start, this`nextLink, this`nextStart, this`chain, this`text
      modifies link, nextLink, nextStart
      ensures Shaped() && Arrays() == old(Arrays()) && text == old(text) + [c]
      ensures Tracks(m, text, Limit(), link[..], start[..]) && Least(link[..], start[..], offers)
      ensures !moved ==> offers == if Limit() == -1 then Offers(m.init, |text|) else {}
      ensures forall v :: 0 < v < nextLink.Length ==> nextLink[v] == -1
    {
      hide Linked, Tracks, Least, Unlinked, Offers, ValidMachine, StepOffers, Offered, Bounded, Distinct;
      ghost var linked, starts, entered := link[..], start[..], [];
      ZeroSize(m);
      var first, limit := head, Limit();
      head, entered, offers := EnterNext(m, nextLink, nextStart, limit, index);
      assert link[..] == linked && start[..] == starts;
      ghost var after;
      head, moved, after := WalkList(m, c, link, start, first, chain, nextLink, nextStart, head, entered, offers);
      offers := offers + Offered(m, chain, |chain|, starts, c);
      OffersMade(m, text, c, limit, linked, starts, first, chain, offers);
      StepTracks(m, text, c, limit, linked, starts, offers, nextLink[..], nextStart[..]);
      link, nextLink := nextLink, link;
      start, nextStart := nextStart, start;
      chain, text := after, text + [c];
    }

    /** The code of state 0 after all states have run, when any match counts: take over a
        match that ends here, clear the retired array's end state, and see whether to stop. */
    method EndOfCharacter(moved: bool, ghost offers: set<(nat, int)>)
      requires Shaped() && text != [] && index == |text| && -1 <= bestBegin < |text| && !matchEnd
      requires Tracks(m, text, bestBegin, link[..], start[..]) && Least(link[..], start[..], offers)
      requires Best(m, text[..|text| - 1], bestBegin, bestEnd)
      requires !moved ==> offers == if bestBegin == -1 then Offers(m.init, |text|) else {}
      requires forall v :: 0 < v < nextLink.Length ==> nextLink[v] == -1
      requires fastForward == !moved && !fastQuit
      modifies this`index, this`head, this`chain, this`bestBegin, this`bestEnd, this`fastQuit, link, nextLink
      ensures Valid()
    {
      hide Linked, Least, Best, Tracks, Offers, ValidMachine, Stale;
      ghost var n, best, linked := |text| - 1, bestBegin, link[..];
      ZeroSize(m);
      assert text == text[..n] + [text[n]];
      Unmoved(m, text, moved, best, linked, start[..], head, chain, offers);
      if link[0] != -1 {
        EndCheck();
      } else {
        BestStays(m, text[..n], text[n], bestBegin, bestEnd, link[..], start[..]);
      }
      ghost var kept := link[..];
      nextLink[0] := -1;
      assert link[..] == kept;
      index := index + 1;
      if bestBegin != -1 {
        if head == 0 {
          fastQuit := true;
          StopsHere(m, text, bestBegin, bestEnd, link[..], start[..], head, chain);
        }
      }
    }

    /** The same when only a match at the end of the text counts. */
    method EndOfAnchored(moved: bool, ghost offers: set<(nat, int)>)
      requires Shaped() && text != [] && index == |text| && -1 <= bestBegin < |text| && matchEnd
      requires Tracks(m, text, -1, link[..], start[..]) && Least(link[..], start[..], offers)
      requires !moved ==> offers == Offers(m.init, |text|)
      requires forall v :: 0 < v < nextLink.Length ==> nextLink[v] == -1
      requires fastForward == !moved && !fastQuit
      modifies this`index, nextLink
      ensures Valid()
    {
      hide Linked, Least, Best, Tracks, Offers, ValidMachine, Stale;
      ZeroSize(m);
      Unmoved(m, text, moved, -1, link[..], start[..], head, chain, offers);
      ghost var kept := link[..];
      nextLink[0] := -1;
      assert link[..] == kept;
      index := index + 1;
    }

    /** The fast-forward loop for one character: no state but the initial ones is active, and
        unless one of those consumes the character, nothing changes. */
    method FastForward(c: int) returns (hit: bool)
      requires Valid() && !fastQuit && m.fast && fastForward
      modifies this`index, this`text, start
      ensures Arrays() == old(Arrays()) && Shaped() && Unlinked(nextLink[..])
      ensures hit ==> text == old(text) && index == |text| + 1 && Limit() == -1
      ensures hit ==> Tracks(m, text, -1, link[..], start[..]) && (!matchEnd ==> Best(m, text, bestBegin, bestEnd))
      ensures !hit ==> text == old(text) + [c] && Valid()
    {
      hide Linked, Least, Best, Tracks, Offers, ValidMachine, Stale, FirstHit, Unlinked, Final, Bounded, Distinct;
      ZeroSize(m);
      hit := HitsFirst(m, c);
      if !hit {
        StaleSkips(m, text, c, link[..]);
        if !matchEnd {
          BestSkips(m, text, c, bestEnd, link[..]);
        }
        index, text := index + 1, text + [c];
        return;
      }
      ghost var linked, cleared := link[..], nextLink[..];
      InitListed(m);
      RestoreStarts(m.init, start, index - 1);
      assert link[..] == linked && nextLink[..] == cleared;
      StaleTracks(m, text, link[..], start[..]);
    }

    /** One character of `regex_continue_match`. */
    method Step(c: int)
      requires Valid() && !fastQuit
      modifies this, link, start, nextLink, nextStart
      ensures Valid() && text == old(text) + [c] && Arrays() == old(Arrays())
    {
      hide Linked, Least, Best, Tracks, Offers, ValidMachine, Stale, FirstHit, Unlinked, Final, Bounded, Distinct;
      ZeroSize(m);
      if m.fast && fastForward {
        var hit := FastForward(c);
        if !hit {
          return;
        }
      }
      MoveAndEnd(c);
    }

    /** The states move, and the character ends. */
    method MoveAndEnd(c: int)
      requires Shaped() && Unlinked(nextLink[..]) && !fastQuit && (!matchEnd ==> Best(m, text, bestBegin, bestEnd))
      requires Tracks(m, text, Limit(), link[..], start[..]) && index == |text| + 1 && -1 <= bestBegin <= |text|
      modifies this, link, start, nextLink, nextStart
      ensures Valid() && text == old(text) + [c] && Arrays() == old(Arrays())
    {
      hide Linked, Least, Best, Tracks, Offers, ValidMachine, Stale, FirstHit, Unlinked, Final, Bounded, Distinct;
      fastForward := true;
      var moved;
      ghost var offers;
      moved, offers := MoveStates(c);
      if moved {
        fastForward := false;
      }
      assert text[..|text| - 1] == old(text);
      if matchEnd {
        EndOfAnchored(moved, offers);
      } else {
        EndOfCharacter(moved, offers);
      }
    }

    /** `regex_continue_match`: the characters up to an early stop; the match is
        that of the whole text either way. */
    method Continue(input: Word)
      requires Valid()
      modifies this, link, start, nextLink, nextStart
      ensures Valid() && text == old(text) + input && Arrays() == old(Arrays())
    {
      hide Best, Final, Tracks, Stale, Linked, ValidMachine, Unlinked;
      ghost var before := text;
      var i := 0;
      while i < |input| && !fastQuit
        invariant 0 <= i <= |input| && Valid() && Arrays() == old(Arrays())
        invariant text == before + input[..i]
      {
        Step(input[i]);
        assert input[..i + 1] == input[..i] + [input[i]];
        i := i + 1;
      }
      assert before + input == (before + input[..i]) + input[i..];
      if i < |input| {
        ZeroSize(m);
        StaysStopped(m, text, input[i..], bestBegin, bestEnd);
        text := text + input[i..];
      }
    }

    /** `regex_get_result`. */
    method GetResult() returns (b: int, e: int)
      requires Valid()
      ensures m.Size() > 0
      ensures !matchEnd ==> Best(m, text, b, e)
      ensures matchEnd ==> BestAtEnd(m, text, b, e)
    {
      hide Best, BestAtEnd, Tracks, Stale, Linked, ValidMachine, Unlinked, Final;
      ZeroSize(m);
      b, e := bestBegin, bestEnd;
      if matchEnd {
        if m.fast && fastForward {
          StaleTells(m, text, link[..], e);
        } else {
          EndTells(m, text, link[..], start[..]);
        }
        if link[0] == -1 {
          b := -1;
          NoneAtEnd(m, text, |text|, e);
        } else {
          e := index - 1;
          b := start[0];
        }
      }
    }
  }

  lemma NoneAtEnd(m: Machine, text: Word, e: int, f: int)
    requires m.Size() > 0
    ensures BestAtEnd(m, text, -1, e) ==> BestAtEnd(m, text, -1, f)
  {
  }

  /** The leftmost of the matches that end where the text ends. */
  ghost predicate BestAtEnd(m: Machine, text: Word, b: int, e: int)
    requires m.Size() > 0
  {
    if b == -1 then forall i :: !IsMatch(m, text, i, |text|)
    else e == |text| && IsMatch(m, text, b, e) && forall i :: IsMatch(m, text, i, |text|) ==> b <= i
  }

  /** At the end of the text the end state tells. */
  lemma EndTells(m: Machine, text: Word, link: seq<int>, start: seq<int>)
    requires m.Size() > 0 && Tracks(m, text, -1, link, start)
    ensures BestAtEnd(m, text, if link[0] == -1 then -1 else start[0], |text|)
  {
    hide IsMatch, Alive;
    forall i | IsMatch(m, text, i, |text|)
      ensures link[0] != -1 && start[0] <= i
    {
      MatchInRange(m, text, i, |text|);
      MatchIsAlive(m, text, i);
      assert InPlay(text, -1, i);
    }
    if link[0] != -1 {
      MatchIsAlive(m, text, start[0]);
    }
  }

  lemma StaleTells(m: Machine, text: Word, link: seq<int>, e: int)
    requires ValidMachine(m) && m.fast && m.Size() > 0 && Stale(m, text, link)
    ensures link[0] == -1 && BestAtEnd(m, text, -1, e)
  {
    hide IsMatch, Alive;
    AliveFresh(m, text, 0);
    forall i
      ensures !IsMatch(m, text, i, |text|)
    {
      if IsMatch(m, text, i, |text|) {
        MatchInRange(m, text, i, |text|);
        MatchIsAlive(m, text, i);
      }
    }
  }

  /** The text is empty: all starts are in play. */
  lemma NoTextTracks(m: Machine, best: int, link: seq<int>, start: seq<int>)
    requires Tracks(m, [], best, link, start) && (best == -1 || best == 0)
    ensures Tracks(m, [], -1, link, start)
  {
    hide Alive;
    forall v, b | 0 <= v < m.Size() && InPlay([], -1, b) && Alive(m, [], b, v)
      ensures link[v] != -1 && start[v] <= b
    {
      assert InPlay([], best, b);
    }
  }

  /** No longer text changes the best match. */
  ghost predicate Final(m: Machine, text: Word, b: int, e: int)
    requires m.Size() > 0
  {
    forall more: Word :: Best(m, text + more, b, e)
  }

  lemma StaysStopped(m: Machine, text: Word, input: Word, b: int, e: int)
    requires m.Size() > 0 && Final(m, text, b, e)
    ensures Final(m, text + input, b, e) && Best(m, text + input, b, e)
  {
    hide Best;
    forall more: Word
      ensures Best(m, text + input + more, b, e)
    {
      assert text + (input + more) == text + input + more;
      assert Best(m, text + (input + more), b, e);
    }
  }

  lemma StopsHere(m: Machine, text: Word, b: int, e: int, link: seq<int>, start: seq<int>, head: int, chain: seq<nat>)
    requires ValidMachine(m) && m.Size() > 0 && 0 <= b <= |text| && Best(m, text, b, e)
    requires Tracks(m, text, b, link, start) && Linked(link, head, chain) && head == 0 && |link| == m.Size()
    ensures Final(m, text, b, e)
  {
    hide Best, Tracks, ValidMachine;
    assert chain == [];
    assert forall v :: 0 < v < m.Size() ==> link[v] == -1;
    forall more: Word
      ensures Best(m, text + more, b, e)
    {
      NothingActive(m, text, more, b, e, link, start);
    }
  }

  /** A skipped character ends no match. */
  lemma BestSkips(m: Machine, text: Word, c: int, e: int, link: seq<int>)
    requires ValidMachine(m) && m.fast && m.Size() > 0
    requires Stale(m, text + [c], link) && Best(m, text, -1, e)
    ensures Best(m, text + [c], -1, e)
  {
    hide Alive, IsMatch;
    var after := text + [c];
    AliveFresh(m, after, 0);
    forall i, j
      ensures !IsMatch(m, after, i, j)
    {
      if IsMatch(m, after, i, j) {
        MatchInRange(m, after, i, j);
        if j <= |text| {
          MatchPrefix(m, text, [c], i, j);
        } else {
          MatchIsAlive(m, after, i);
        }
      }
    }
  }

  /** When no state matched, only the states of a fresh start are active. */
  lemma Unmoved(m: Machine, text: Word, moved: bool, best: int, link: seq<int>, start: seq<int>, head: int,
                chain: seq<nat>, offers: set<(nat, int)>)
    requires ValidMachine(m) && Tracks(m, text, best, link, start) && Least(link, start, offers)
    requires m.Size() > 0 && |link| == m.Size() && Linked(link, head, chain)
    requires !moved ==> offers == if best == -1 then Offers(m.init, |text|) else {}
    ensures !moved && best == -1 ==> Stale(m, text, link) && (m.fast ==> link[0] == -1)
    ensures !moved && best != -1 ==> link[0] == -1 && head == 0
  {
    if !moved && best == -1 {
      TracksStale(m, text, link, start, offers);
    }
    if !moved && best != -1 {
      assert forall v :: 0 <= v < |link| ==> link[v] == -1;
    }
  }

  /** A fresh start is entered only while no match has been found. */
  method EnterNext(m: Machine, link: array<int>, start: array<int>, best: int, b: int)
    returns (head: int, ghost chain: seq<nat>, ghost offers: set<(nat, int)>)
    requires ValidMachine(m) && link != start && link.Length == start.Length == m.Size()
    requires Unlinked(link[..])
    modifies link, start
    ensures head >= 0 && Linked(link[..], head, chain) && Least(link[..], start[..], offers)
    ensures offers == if best == -1 then Offers(m.init, b) else {}
  {
    hide Linked, Least, Unlinked, Offers;
    InitListed(m);
    ZeroSize(m);
    if best == -1 {
      head, chain := EnterFresh(m.init, link, start, b);
      offers := Offers(m.init, b);
    } else {
      NothingLinked(link[..], start[..]);
      head, chain, offers := 0, [], {};
    }
  }

  method FreshArrays(n: nat) returns (link: array<int>, start: array<int>)
    ensures fresh(link) && fresh(start) && link != start && link.Length == start.Length == n && Unlinked(link[..])
  {
    link, start := new int[n](_ => -1), new int[n](_ => 0);
  }

  lemma MachineLists(m: Machine)
    requires ValidMachine(m)
    ensures m.Size() > 0 && Distinct(m.init) && Bounded(m.init, |m.pos|)
  {
  }

  lemma InitListed(m: Machine)
    requires ValidMachine(m)
    ensures Bounded(m.init, m.Size()) && Distinct(m.init)
  {
  }

  lemma NothingLinked(link: seq<int>, start: seq<int>)
    requires Unlinked(link) && |start| == |link|
    ensures Linked(link, 0, []) && Least(link, start, {})
  {
  }

  lemma {:induction false} OffersMade(m: Machine, text: Word, c: int, best: int, link: seq<int>, start: seq<int>,
                                      head: int, chain: seq<nat>, offers: set<(nat, int)>)
    requires ValidMachine(m) && Linked(link, head, chain) && |link| == |start| == m.Size()
    requires Bounded(chain, |start|)
    requires offers == (if best == -1 then Offers(m.init, |text| + 1) else {}) + Offered(m, chain, |chain|, start, c)
    ensures StepOffers(m, text, c, best, link, start, offers)
  {
    hide ValidMachine, Offered;
    ZeroSize(m);
    forall v, b
      ensures (v, b) in offers <==>
        (best == -1 && v in m.init && b == |text| + 1)
        || exists k :: 0 < k < m.Size() && link[k] != -1 && m.Moves(k, c, v) && b == start[k]
    {
      OfferedMembers(m, chain, |chain|, start, c, v, b);
      InList(m, c, link, start, head, chain, v, b);
    }
  }

  lemma InList(m: Machine, c: int, link: seq<int>, start: seq<int>, head: int, chain: seq<nat>, v: nat, b: int)
    requires Linked(link, head, chain) && |link| == |start| == m.Size() == |m.trans|
    ensures (exists j :: 0 <= j < |chain| && m.Moves(chain[j], c, v) && b == start[chain[j]])
      <==> exists k :: 0 < k < m.Size() && link[k] != -1 && m.Moves(k, c, v) && b == start[k]
  {
    if exists k :: 0 < k < m.Size() && link[k] != -1 && m.Moves(k, c, v) && b == start[k] {
      var k :| 0 < k < m.Size() && link[k] != -1 && m.Moves(k, c, v) && b == start[k];
      assert k in chain;
    }
    if exists j :: 0 <= j < |chain| && m.Moves(chain[j], c, v) && b == start[chain[j]] {
      var j :| 0 <= j < |chain| && m.Moves(chain[j], c, v) && b == start[chain[j]];
      assert chain[j] in chain;
    }
  }

  lemma ZeroSize(m: Machine)
    requires ValidMachine(m)
    ensures m.Size() > 0 && |m.pos| == |m.trans| == m.Size()
  {
  }

  lemma LimitTracks(m: Machine, text: Word, best: int, limit: int, link: seq<int>, start: seq<int>, after: seq<int>)
    requires Tracks(m, text, best, link, start) && m.Size() > 0 && |after| == |link|
    requires 0 <= limit && (best == -1 || limit <= best) && after[0] == link[0] && start[0] <= limit
    requires if best == limit then after == link
      else forall v :: 0 < v < |link| ==> (after[v] != -1 <==> link[v] != -1 && start[v] <= limit)
    ensures Tracks(m, text, limit, after, start)
  {
    hide Alive;
    if best != limit {
      DropTracks(m, text, best, limit, link, start, after);
    }
  }

  lemma StartTracks(m: Machine, best: int, link: seq<int>, start: seq<int>)
    requires ValidMachine(m) && Least(link, start, Offers(m.init, 0)) && |link| == m.Size()
    requires best == if 0 in m.init then 0 else -1
    ensures Tracks(m, [], best, link, start) && Best(m, [], best, 0)
  {
    hide Alive, RunTo, ValidMachine, Best, IsMatch;
    forall v | 0 <= v < m.Size()
      ensures Alive(m, [], 0, v) <==> v in m.init
    {
      AliveFresh(m, [], v);
    }
    ZeroSize(m);
    StartListed(m, best, link, start);
    StartBest(m, best);
  }

  lemma StartListed(m: Machine, best: int, link: seq<int>, start: seq<int>)
    requires Least(link, start, Offers(m.init, 0)) && |link| == m.Size() && (best == 0 || best == -1)
    requires forall v :: 0 <= v < m.Size() ==> (Alive(m, [], 0, v) <==> v in m.init)
    ensures Tracks(m, [], best, link, start)
  {
    hide Alive, RunTo;
    forall v | 0 <= v < m.Size()
      ensures v in m.init ==> (v, 0) in Offers(m.init, 0)
    {
    }
  }

  lemma StartBest(m: Machine, best: int)
    requires ValidMachine(m) && m.Size() > 0 && (Alive(m, [], 0, 0) <==> 0 in m.init)
    requires best == if 0 in m.init then 0 else -1
    ensures Best(m, [], best, 0)
  {
    hide Alive, RunTo, ValidMachine;
    MatchIsAlive(m, [], 0);
  }
}
