/** The matcher's state arrays: the active states are linked through the array
    itself, and each carries the smallest position its run may have started at. */
module RegexStates {
  import opened RegexNfa
  import opened RegexClosure

  /** What the code generator bakes into the machine code: the cell of each state
      (state 0 is the end), the states entered at a start position, the states
      entered once a state's character matched, and the fast-forward decision. */
  datatype Machine = Machine(cells: Cells, pos: seq<nat>, init: seq<nat>, trans: seq<seq<nat>>, fast: bool) {
    function Size(): nat {
      |pos|
    }

    predicate Moves(k: nat, c: int, v: nat)
      requires k < |pos| && k < |trans|
    {
      Consumes(cells, pos[k], c) && v in trans[k]
    }
  }

  ghost predicate Distinct(xs: seq<nat>) {
    forall i, j :: 0 <= i < j < |xs| ==> xs[i] != xs[j]
  }

  ghost predicate Bounded(xs: seq<nat>, n: nat) {
    forall i :: 0 <= i < |xs| ==> xs[i] < n
  }

  ghost predicate Lists(m: Machine, xs: seq<nat>, start: int) {
    && Distinct(xs)
    && forall v :: 0 <= v < m.Size() ==> (v in xs <==> EpsReaches(m.cells, start, m.pos[v]))
  }

  ghost predicate ValidMachine(m: Machine) {
    && m.Size() > 0 && |m.trans| == m.Size()
    && m.pos[0] == |m.cells| - 1 && m.cells != [] && m.cells[m.pos[0]].End?
    && (forall k :: 0 < k < m.Size() ==> m.pos[k] < |m.cells| && IsTerm(m.cells[m.pos[k]]))
    && (forall i :: 0 <= i < |m.cells| && IsTerm(m.cells[i]) ==> exists k :: 0 < k < m.Size() && m.pos[k] == i)
    && Bounded(m.init, m.Size()) && Lists(m, m.init, 1)
    && (forall k :: 0 < k < m.Size() ==>
      Bounded(m.trans[k], m.Size()) && Lists(m, m.trans[k], AfterTerm(m.cells, m.pos[k])))
    && (m.fast ==> 0 !in m.init)
  }

  // ------------------------------------------------------------ the active list

  /** The state after the one at position `i` of the chain, 0 at its end. */
  function NextIn(chain: seq<nat>, i: int): nat
    requires -1 <= i < |chain|
  {
    if i + 1 < |chain| then chain[i + 1] else 0
  }

  /** `link[v]` is -1 for an inactive state; the links from `head` run through the
      active states other than the end state and finish at 0. */
  ghost predicate Linked(link: seq<int>, head: int, chain: seq<nat>) {
    && Distinct(chain)
    && (forall i :: 0 <= i < |chain| ==> 0 < chain[i] < |link|)
    && head == NextIn(chain, -1)
    && (forall i :: 0 <= i < |chain| ==> link[chain[i]] == NextIn(chain, i))
    && (forall v :: 0 < v < |link| ==> (link[v] != -1 <==> v in chain))
  }

  ghost predicate Unlinked(link: seq<int>) {
    forall v :: 0 <= v < |link| ==> link[v] == -1
  }

  /** `link` and `start` record, for each state, the least start position offered. */
  ghost predicate Least(link: seq<int>, start: seq<int>, offers: set<(nat, int)>) {
    && |start| == |link|
    && (forall v :: 0 <= v < |link| && link[v] != -1 ==> (v, start[v]) in offers)
    && (forall v, b :: (v, b) in offers ==> v < |link| && link[v] != -1 && start[v] <= b)
  }

  /** The offers of one list of states with one start position. */
  function Offers(xs: seq<nat>, b: int): set<(nat, int)> {
    set v | v in xs :: (v, b)
  }

  lemma OffersSplit(xs: seq<nat>, i: nat, b: int)
    requires i < |xs|
    ensures Offers(xs[..i + 1], b) == Offers(xs[..i], b) + {(xs[i], b)}
  {
    assert xs[..i + 1] == xs[..i] + [xs[i]];
    assert forall v :: v in xs[..i + 1] <==> v in xs[..i] || v == xs[i];
  }

  lemma FrontDistinct(chain: seq<nat>, v: nat)
    requires Distinct(chain) && v !in chain
    ensures Distinct([v] + chain) && forall u :: u in [v] + chain <==> u == v || u in chain
  {
  }

  lemma Relink(link: seq<int>, head: int, kept: seq<nat>, k: nat)
    requires Distinct(kept) && (forall j :: 0 <= j < |kept| ==> 0 < kept[j] < |link|)
    requires 0 < k < |link| && k !in kept && head == NextIn(kept, -1)
    requires forall j :: 0 <= j < |kept| ==> link[kept[j]] == NextIn(kept, j)
    ensures var more := [k] + kept;
      && Distinct(more) && head >= 0 && (forall u :: u in more <==> u == k || u in kept)
      && (forall j :: 0 <= j < |more| ==> 0 < more[j] < |link| && link[k := head][more[j]] == NextIn(more, j))
  {
    var more, l := [k] + kept, link[k := head];
    FrontDistinct(kept, k);
    assert kept != [] ==> kept[0] > 0;
    forall j | 0 <= j < |more|
      ensures 0 < more[j] < |link| && l[more[j]] == NextIn(more, j)
    {
      if j > 0 {
        assert more[j] == kept[j - 1] && kept[j - 1] in kept;
        assert link[kept[j - 1]] == NextIn(kept, j - 1) == NextIn(more, j);
      }
    }
  }

  lemma LinkFront(link: seq<int>, head: int, chain: seq<nat>, v: nat)
    requires Linked(link, head, chain) && 0 < v < |link| && v !in chain
    ensures Linked(link[v := head], v, [v] + chain)
  {
    Relink(link, head, chain, v);
  }

  lemma LinkEnd(link: seq<int>, head: int, chain: seq<nat>, x: int)
    requires Linked(link, head, chain) && 0 < |link|
    ensures Linked(link[0 := x], head, chain)
  {
  }

  lemma OfferNew(link: seq<int>, start: seq<int>, offers: set<(nat, int)>, v: nat, x: int, b: int)
    requires Least(link, start, offers) && v < |link| && link[v] == -1 && x != -1
    ensures Least(link[v := x], start[v := b], offers + {(v, b)})
  {
  }

  lemma OfferAgain(link: seq<int>, start: seq<int>, offers: set<(nat, int)>, v: nat, b: int)
    requires Least(link, start, offers) && v < |link| && link[v] != -1
    ensures start[v] <= b ==> Least(link, start, offers + {(v, b)})
    ensures start[v] > b ==> Least(link, start[v := b], offers + {(v, b)})
  {
  }

  /** `compile_uncond_tran`: the states of a fresh start, written over a cleared array. */
  method EnterFresh(xs: seq<nat>, link: array<int>, start: array<int>, b: int)
    returns (head: int, ghost chain: seq<nat>)
    requires link != start && link.Length == start.Length > 0
    requires Unlinked(link[..]) && Distinct(xs) && Bounded(xs, link.Length)
    modifies link, start
    ensures head >= 0 && Linked(link[..], head, chain)
    ensures Least(link[..], start[..], Offers(xs, b))
  {
    head, chain := 0, [];
    var i := 0;
    assert Offers(xs[..0], b) == {};
    while i < |xs|
      invariant 0 <= i <= |xs| && head >= 0
      invariant Linked(link[..], head, chain)
      invariant Least(link[..], start[..], Offers(xs[..i], b))
      invariant forall k :: i <= k < |xs| ==> link[xs[k]] == -1
    {
      var v := xs[i];
      ghost var link0, start0 := link[..], start[..];
      OffersSplit(xs, i, b);
      OfferNew(link0, start0, Offers(xs[..i], b), v, head, b);
      link[v] := head;
      if v > 0 {
        LinkFront(link0, head, chain, v);
        head, chain := v, [v] + chain;
      } else {
        LinkEnd(link0, head, chain, head);
      }
      start[v] := b;
      assert link[..] == link0[v := link[v]] && start[..] == start0[v := b];
      i := i + 1;
    }
    assert xs[..i] == xs;
  }

  /** `compile_cond_tran`: the states after a matched character join the next
      array, or keep the smaller start position. */
  method EnterStates(xs: seq<nat>, link: array<int>, start: array<int>, b: int, head0: int,
                     ghost chain0: seq<nat>, ghost offers: set<(nat, int)>)
    returns (head: int, ghost chain: seq<nat>)
    requires link != start && link.Length == start.Length > 0 && Bounded(xs, link.Length)
    requires head0 >= 0 && Linked(link[..], head0, chain0) && Least(link[..], start[..], offers)
    modifies link, start
    ensures head >= 0 && Linked(link[..], head, chain)
    ensures Least(link[..], start[..], offers + Offers(xs, b))
  {
    head, chain := head0, chain0;
    var i := 0;
    assert offers + Offers(xs[..0], b) == offers;
    while i < |xs|
      invariant 0 <= i <= |xs| && head >= 0
      invariant Linked(link[..], head, chain)
      invariant Least(link[..], start[..], offers + Offers(xs[..i], b))
    {
      var v := xs[i];
      ghost var link0, start0, seen := link[..], start[..], offers + Offers(xs[..i], b);
      OffersSplit(xs, i, b);
      assert offers + Offers(xs[..i + 1], b) == seen + {(v, b)};
      if link[v] == -1 {
        OfferNew(link0, start0, seen, v, head, b);
        link[v] := head;
        if v > 0 {
          LinkFront(link0, head, chain, v);
          head, chain := v, [v] + chain;
        } else {
          LinkEnd(link0, head, chain, head);
        }
        start[v] := b;
        assert link[..] == link0[v := link[v]] && start[..] == start0[v := b];
      } else if start[v] <= b {
        OfferAgain(link0, start0, seen, v, b);
      } else {
        OfferAgain(link0, start0, seen, v, b);
        start[v] := b;
        assert start[..] == start0[v := b];
      }
      i := i + 1;
    }
    assert xs[..i] == xs;
  }

  // ------------------------------------------------------------ one character

  /** What the states `chain[..i]` offer when they see `c`. */
  function Offered(m: Machine, chain: seq<nat>, i: nat, start: seq<int>, c: int): set<(nat, int)>
    requires i <= |chain| && |m.pos| == |m.trans| == |start|
    requires Bounded(chain, |start|)
  {
    if i == 0 then {}
    else
      var k := chain[i - 1];
      Offered(m, chain, i - 1, start, c) +
      (if Consumes(m.cells, m.pos[k], c) then Offers(m.trans[k], start[k]) else {})
  }

  lemma {:induction false} OfferedMembers(m: Machine, chain: seq<nat>, i: nat, start: seq<int>, c: int, v: nat, b: int)
    requires i <= |chain| && |m.pos| == |m.trans| == |start| && Bounded(chain, |start|)
    ensures (v, b) in Offered(m, chain, i, start, c)
      <==> exists j :: 0 <= j < i && m.Moves(chain[j], c, v) && b == start[chain[j]]
    decreases i
  {
    if i > 0 {
      OfferedMembers(m, chain, i - 1, start, c, v, b);
      if (v, b) in Offered(m, chain, i, start, c) && (v, b) !in Offered(m, chain, i - 1, start, c) {
        assert m.Moves(chain[i - 1], c, v) && b == start[chain[i - 1]];
      }
      if exists j :: 0 <= j < i && m.Moves(chain[j], c, v) && b == start[chain[j]] {
        var j :| 0 <= j < i && m.Moves(chain[j], c, v) && b == start[chain[j]];
        if j < i - 1 {
          assert (v, b) in Offered(m, chain, i - 1, start, c);
        }
      }
    }
  }

  /** One state: test the character, and enter the targets in the next array. */
  method TryState(m: Machine, c: int, k: nat, b: int, link: array<int>, start: array<int>, head0: int,
                  ghost chain0: seq<nat>, ghost offers: set<(nat, int)>)
    returns (head: int, moved: bool, ghost chain: seq<nat>)
    requires ValidMachine(m) && 0 < k < m.Size()
    requires link != start && link.Length == start.Length == m.Size()
    requires head0 >= 0 && Linked(link[..], head0, chain0) && Least(link[..], start[..], offers)
    modifies link, start
    ensures moved == Consumes(m.cells, m.pos[k], c)
    ensures head >= 0 && Linked(link[..], head, chain)
    ensures Least(link[..], start[..], offers + if moved then Offers(m.trans[k], b) else {})
  {
    moved := Consumes(m.cells, m.pos[k], c);
    head, chain := head0, chain0;
    if moved {
      head, chain := EnterStates(m.trans[k], link, start, b, head, chain, offers);
    } else {
      assert offers + {} == offers;
    }
  }

  lemma CutFirst(chain: seq<nat>, i: nat)
    requires i < |chain| && Distinct(chain)
    ensures chain[i] !in chain[i + 1..]
    ensures forall v :: v in chain[i..] <==> v == chain[i] || v in chain[i + 1..]
  {
    var rest := chain[i + 1..];
    assert chain[i..] == [chain[i]] + rest;
    assert forall k :: 0 <= k < |rest| ==> rest[k] == chain[i + 1 + k] && rest[k] != chain[i];
  }

  /** The list from position `i` on is still linked, everything before is cleared. */
  ghost predicate Walked(link: seq<int>, chain: seq<nat>, i: nat) {
    && i <= |chain| && Distinct(chain) && (forall j :: 0 <= j < |chain| ==> 0 < chain[j] < |link|)
    && (forall j :: i <= j < |chain| ==> link[chain[j]] == NextIn(chain, j))
    && (forall v :: 0 < v < |link| ==> (link[v] != -1 <==> v in chain[i..]))
  }

  lemma WalkOn(link: seq<int>, chain: seq<nat>, i: nat)
    requires Walked(link, chain, i) && i < |chain|
    ensures Walked(link[chain[i] := -1], chain, i + 1)
  {
    CutFirst(chain, i);
    assert chain[i] in chain[i..];
  }

  lemma WalkEnds(link: seq<int>, chain: seq<nat>, i: nat)
    requires Walked(link, chain, i) && NextIn(chain, i - 1) == 0
    ensures i == |chain| && forall v :: 0 < v < |link| ==> link[v] == -1
  {
    assert chain[|chain|..] == [];
  }

  /** The walk over the active list: each state tests the character, enters its
      targets in the next array, and clears its own link.  `moved` is set by any
      state that matches (the fast-forward flag the source clears). */
  method WalkList(m: Machine, c: int, link: array<int>, start: array<int>, first: int, ghost chain: seq<nat>,
                  nextLink: array<int>, nextStart: array<int>, head0: int,
                  ghost chain0: seq<nat>, ghost offers: set<(nat, int)>)
    returns (head: int, moved: bool, ghost nextChain: seq<nat>)
    requires ValidMachine(m)
    requires link.Length == start.Length == nextLink.Length == nextStart.Length == m.Size()
    requires link != start && link != nextLink && link != nextStart
    requires start != nextLink && start != nextStart && nextLink != nextStart
    requires Linked(link[..], first, chain)
    requires head0 >= 0 && Linked(nextLink[..], head0, chain0) && Least(nextLink[..], nextStart[..], offers)
    modifies link, nextLink, nextStart
    ensures forall v :: 0 < v < m.Size() ==> link[v] == -1
    ensures head >= 0 && Linked(nextLink[..], head, nextChain)
    ensures Bounded(chain, |start[..]|)
    ensures Least(nextLink[..], nextStart[..], offers + Offered(m, chain, |chain|, start[..], c))
    ensures !moved ==> Offered(m, chain, |chain|, start[..], c) == {}
  {
    hide Linked, Least, Walked, Offers;
    var k := first;
    head, moved, nextChain := head0, false, chain0;
    ghost var i, starts := 0, start[..];
    WalkStarts(link[..], first, chain);
    assert offers + {} == offers;
    while k != 0
      invariant 0 <= i <= |chain| && k == NextIn(chain, i - 1)
      invariant Bounded(chain, |starts|) && start[..] == starts
      invariant Walked(link[..], chain, i)
      invariant head >= 0 && Linked(nextLink[..], head, nextChain)
      invariant Least(nextLink[..], nextStart[..], offers + Offered(m, chain, i, starts, c))
      invariant !moved ==> Offered(m, chain, i, starts, c) == {}
      decreases |chain| - i
    {
      ghost var seen, more := Offered(m, chain, i, starts, c), Offered(m, chain, i + 1, starts, c);
      var hit;
      InChain(link[..], chain, i);
      head, hit, nextChain := TryState(m, c, k, start[k], nextLink, nextStart, head, nextChain, offers + seen);
      assert offers + more == offers + seen + if hit then Offers(m.trans[k], start[k]) else {};
      moved := moved || hit;
      WalkOn(link[..], chain, i);
      var next := link[k];
      ghost var before := link[..];
      link[k] := -1;
      assert link[..] == before[k := -1];
      k := next;
      i := i + 1;
    }
    WalkEnds(link[..], chain, i);
  }

  lemma WalkStarts(link: seq<int>, first: int, chain: seq<nat>)
    requires Linked(link, first, chain)
    ensures Walked(link, chain, 0) && first == NextIn(chain, -1) && Bounded(chain, |link|)
  {
    assert chain[0..] == chain;
  }

  lemma InChain(link: seq<int>, chain: seq<nat>, i: nat)
    requires Walked(link, chain, i) && i < |chain|
    ensures 0 < chain[i] < |link| && link[chain[i]] == NextIn(chain, i)
  {
  }

  // ------------------------------------------------ dropping the later starts

  /** The clearing loop half done: `kept` has been relinked, `chain[i..]` is still to come. */
  ghost predicate Sifted(link: seq<int>, head: int, kept: seq<nat>, chain: seq<nat>, i: nat) {
    && i <= |chain| && Distinct(chain) && (forall j :: 0 <= j < |chain| ==> 0 < chain[j] < |link|)
    && Distinct(kept) && (forall j :: 0 <= j < |kept| ==> 0 < kept[j] < |link| && kept[j] !in chain[i..])
    && head == NextIn(kept, -1)
    && (forall j :: 0 <= j < |kept| ==> link[kept[j]] == NextIn(kept, j))
    && (forall j :: i <= j < |chain| ==> link[chain[j]] == NextIn(chain, j))
    && (forall v :: 0 < v < |link| ==> (link[v] != -1 <==> v in kept || v in chain[i..]))
  }

  lemma SiftStarts(link: seq<int>, head: int, chain: seq<nat>)
    requires Linked(link, head, chain)
    ensures Sifted(link, 0, [], chain, 0) && head == NextIn(chain, -1)
  {
    assert chain[0..] == chain;
  }

  lemma SiftEnds(link: seq<int>, head: int, kept: seq<nat>, chain: seq<nat>, i: nat)
    requires Sifted(link, head, kept, chain, i) && NextIn(chain, i - 1) == 0
    ensures i == |chain| && Linked(link, head, kept)
  {
    assert chain[|chain|..] == [];
  }

  lemma SiftDrop(link: seq<int>, head: int, kept: seq<nat>, chain: seq<nat>, i: nat)
    requires Sifted(link, head, kept, chain, i) && i < |chain|
    ensures Sifted(link[chain[i] := -1], head, kept, chain, i + 1)
  {
    CutFirst(chain, i);
    assert chain[i] in chain[i..];
  }

  /** The state that is kept goes to the front of the list of kept states. */
  lemma KeepFront(kept: seq<nat>, chain: seq<nat>, i: nat)
    requires i < |chain| && Distinct(chain)
    requires forall j :: 0 <= j < |kept| ==> kept[j] !in chain[i..]
    ensures var more := [chain[i]] + kept;
      forall j :: 0 <= j < |more| ==> more[j] !in chain[i + 1..]
    ensures chain[i] !in kept && chain[i] in chain[i..] && chain[i] !in chain[i + 1..]
  {
    CutFirst(chain, i);
    assert chain[i] in chain[i..];
  }

  lemma SiftKeep(link: seq<int>, head: int, kept: seq<nat>, chain: seq<nat>, i: nat)
    requires Sifted(link, head, kept, chain, i) && i < |chain|
    ensures Sifted(link[chain[i] := head], chain[i], [chain[i]] + kept, chain, i + 1)
  {
    var k, more := chain[i], [chain[i]] + kept;
    KeepFront(kept, chain, i);
    Relink(link, head, kept, k);
    KeptLinked(link, head, kept, chain, i);
    assert more[0] == k;
  }

  lemma KeptLinked(link: seq<int>, head: int, kept: seq<nat>, chain: seq<nat>, i: nat)
    requires Sifted(link, head, kept, chain, i) && i < |chain|
    ensures forall v :: 0 < v < |link| ==>
      (link[chain[i] := head][v] != -1 <==> v in [chain[i]] + kept || v in chain[i + 1..])
    ensures forall j :: i + 1 <= j < |chain| ==> link[chain[i] := head][chain[j]] == NextIn(chain, j)
  {
    CutFirst(chain, i);
    assert head >= 0 by {
      assert kept != [] ==> kept[0] > 0;
    }
  }

  lemma SiftNext(link: seq<int>, head: int, kept: seq<nat>, chain: seq<nat>, i: nat)
    requires Sifted(link, head, kept, chain, i) && i < |chain|
    ensures 0 < chain[i] < |link| && link[chain[i]] == NextIn(chain, i) && head >= 0
  {
    assert kept != [] ==> kept[0] > 0;
  }

  /** The loop of `compile_end_check`: states that started after `limit` leave the list. */
  method DropLater(link: array<int>, start: array<int>, limit: int, head0: int, ghost chain: seq<nat>)
    returns (head: int, ghost kept: seq<nat>)
    requires link != start && link.Length == start.Length > 0
    requires Linked(link[..], head0, chain)
    modifies link
    ensures head >= 0 && Linked(link[..], head, kept)
    ensures link[0] == old(link[0])
    ensures forall v :: 0 < v < link.Length ==> (link[v] != -1 <==> old(link[v]) != -1 && start[v] <= limit)
  {
    hide Linked, Sifted;
    var temp := head0;
    head, kept := 0, [];
    ghost var i, before := 0, link[..];
    SiftStarts(link[..], head0, chain);
    while temp != 0
      invariant 0 <= i <= |chain| && temp == NextIn(chain, i - 1)
      invariant Sifted(link[..], head, kept, chain, i)
      invariant head >= 0 && link[0] == before[0]
      invariant forall v :: 0 < v < link.Length ==>
        (link[v] != -1 <==> before[v] != -1 && (v in chain[i..] || start[v] <= limit))
      decreases |chain| - i
    {
      SiftNext(link[..], head, kept, chain, i);
      var next := link[temp];
      ghost var was := link[..];
      SiftCut(was, before, head, kept, chain, i, start[..], limit);
      if start[temp] > limit {
        SiftDrop(was, head, kept, chain, i);
        link[temp] := -1;
        assert link[..] == was[temp := -1];
      } else {
        SiftKeep(was, head, kept, chain, i);
        link[temp] := head;
        assert link[..] == was[temp := head];
        head, kept := temp, [temp] + kept;
      }
      temp := next;
      i := i + 1;
    }
    SiftEnds(link[..], head, kept, chain, i);
    assert chain[i..] == [];
  }

  lemma SiftCut(link: seq<int>, before: seq<int>, head: int, kept: seq<nat>, chain: seq<nat>, i: nat, start: seq<int>,
                limit: int)
    requires Sifted(link, head, kept, chain, i) && i < |chain| && |before| == |link| == |start|
    requires forall v :: 0 < v < |link| ==>
      (link[v] != -1 <==> before[v] != -1 && (v in chain[i..] || start[v] <= limit))
    ensures before[chain[i]] != -1 && chain[i] !in chain[i + 1..]
    ensures forall v :: 0 < v < |link| && v != chain[i] ==> (v in chain[i..] <==> v in chain[i + 1..])
  {
    CutFirst(chain, i);
    assert chain[i] in chain[i..];
  }
}
