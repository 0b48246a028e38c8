/** `trace_transitions`: the walk that collects the cells reachable without
    consuming a character, with the largest id seen on the way to each. */
module RegexClosure {
  import opened RegexSyntax
  import opened RegexNfa

  // ------------------------------------------------------------------ paths

  function Max(a: int, b: int): int {
    if a < b then b else a
  }

  /** The id a cell contributes to the walks that reach it. */
  function IdOf(cells: Cells, i: int): nat {
    if 0 <= i < |cells| && cells[i].Id? then cells[i].id else 0
  }

  ghost predicate EpsPath(cells: Cells, p: seq<int>) {
    p != [] && forall k :: 0 <= k < |p| - 1 ==> EpsStep(cells, p[k], p[k + 1])
  }

  ghost predicate PathTo(cells: Cells, s: int, v: int, p: seq<int>) {
    EpsPath(cells, p) && p[0] == s && p[|p| - 1] == v
  }

  function MaxId(cells: Cells, p: seq<int>): nat {
    if p == [] then 0 else Max(MaxId(cells, p[..|p| - 1]), IdOf(cells, p[|p| - 1]))
  }

  ghost predicate EpsReaches(cells: Cells, s: int, v: int) {
    exists p :: PathTo(cells, s, v, p)
  }

  lemma {:induction false} ExtendPath(cells: Cells, s: int, u: int, v: int, p: seq<int>)
    requires PathTo(cells, s, u, p) && EpsStep(cells, u, v)
    ensures PathTo(cells, s, v, p + [v]) && MaxId(cells, p + [v]) == Max(MaxId(cells, p), IdOf(cells, v))
  {
    assert (p + [v])[..|p|] == p;
  }

  // ---------------------------------------------------------- well-formed cells

  /** Cells inside a bracket expression; no walk stops or starts there. */
  predicate Interior(cell: Item) {
    cell.RngChar? || cell.RngLeft? || cell.RngRight? || cell.RngEnd?
  }

  predicate Proper(cells: Cells, i: int) {
    0 <= i < |cells| && !Interior(cells[i])
  }

  predicate IsTerm(cell: Item) {
    cell.Chr? || cell.RngStart?
  }

  /** `j` comes after `i`: by an empty step, or once the term at `i` has matched. */
  predicate Succ(cells: Cells, i: int, j: int) {
    EpsStep(cells, i, j) || (0 <= i < |cells| && IsTerm(cells[i]) && j == AfterTerm(cells, i))
  }

  /** A bracket expression is closed before `b`, with only members inside. */
  predicate ClassClosed(cells: Cells, i: nat, b: nat)
    requires i < |cells|
  {
    var close := RangeClose(cells, i + 1);
    close < b <= |cells| && cells[close].RngEnd? &&
    forall k :: i < k < close ==> Interior(cells[k]) && !cells[k].RngEnd?
  }

  /** A bracket expression goes on behind this cell. */
  predicate InClass(cell: Item) {
    cell.RngStart? || (Interior(cell) && !cell.RngEnd?)
  }

  /** Nothing but a bracket expression holds interior cells. */
  predicate Guarded(cells: Cells, i: nat)
    requires i < |cells|
  {
    Interior(cells[i]) ==> i > 0 && InClass(cells[i - 1])
  }

  ghost predicate WellFormed(cells: Cells) {
    var n := |cells|;
    && n >= 2 && cells[0].Begin? && cells[n - 1].End? && Proper(cells, 1)
    && (forall i :: 0 < i < n - 1 ==> !cells[i].Begin? && !cells[i].End?)
    && (forall i, j :: 0 < i < n && Proper(cells, i) && Succ(cells, i, j) ==> 0 < j && Proper(cells, j))
    && (forall i :: 0 < i < n && cells[i].RngStart? ==> ClassClosed(cells, i, n - 1))
    && (forall i :: 0 < i < n ==> Guarded(cells, i))
  }

  // -------------------------------------------------------------- the potential

  function Potential(values: seq<int>, top: nat): int {
    if values == [] then 0 else Potential(values[..|values| - 1], top) + (top - values[|values| - 1])
  }

  lemma {:induction false} PotentialPositive(values: seq<int>, top: nat)
    requires forall k :: 0 <= k < |values| ==> values[k] <= top
    ensures Potential(values, top) >= 0
    decreases |values|
  {
    if values != [] {
      PotentialPositive(values[..|values| - 1], top);
    }
  }

  lemma {:induction false} PotentialUpdate(values: seq<int>, top: nat, i: nat, x: int)
    requires i < |values|
    ensures Potential(values[i := x], top) == Potential(values, top) - (x - values[i])
    decreases |values|
  {
    var n := |values| - 1;
    if i < n {
      assert values[i := x][..n] == values[..n][i := x];
      PotentialUpdate(values[..n], top, i, x);
    } else {
      assert values[i := x][..n] == values[..n];
    }
  }

  /** The largest id in the array bounds every walk's id. */
  function TopId(cells: Cells): nat {
    if cells == [] then 0 else Max(TopId(cells[..|cells| - 1]), IdOf(cells, |cells| - 1))
  }

  lemma {:induction false} TopIdBounds(cells: Cells, i: nat)
    requires i < |cells|
    ensures IdOf(cells, i) <= TopId(cells)
    decreases |cells|
  {
    var n := |cells| - 1;
    if i < n {
      TopIdBounds(cells[..n], i);
    }
  }

  lemma {:induction false} PathIdBounded(cells: Cells, p: seq<int>)
    ensures MaxId(cells, p) <= TopId(cells)
    decreases |p|
  {
    if p != [] {
      PathIdBounded(cells, p[..|p| - 1]);
      var v := p[|p| - 1];
      if 0 <= v < |cells| {
        TopIdBounds(cells, v);
      }
    }
  }

  // ------------------------------------------------------------------ the walk

  datatype Entry = Entry(id: nat, from: nat)

  /** What the walk still has to do: the arrival it is at, and the second
      targets of the branches on the depth stack. */
  ghost predicate Pending(cells: Cells, from: int, id: int, depth: seq<Entry>, t: int, x: int) {
    (t == from && id >= x) ||
    exists k :: 0 <= k < |depth| && Covers(cells, depth[k], t, x)
  }

  predicate Covers(cells: Cells, e: Entry, t: int, x: int) {
    e.from < |cells| && cells[e.from].Branch? && cells[e.from].target == t && e.id >= x
  }

  ghost predicate Settled(cells: Cells, values: seq<int>, t: int, x: int)
    requires |values| == |cells|
  {
    0 <= t < |values| && values[t] >= Max(x, IdOf(cells, t))
  }

  /** Every empty step out of a visited cell has been taken, or is pending. */
  ghost predicate Complete(cells: Cells, values: seq<int>, from: int, id: int, depth: seq<Entry>)
    requires |values| == |cells|
  {
    forall u, t :: 0 <= u < |values| && values[u] >= 0 && EpsStep(cells, u, t) ==>
      Settled(cells, values, t, values[u]) || Pending(cells, from, id, depth, t, values[u])
  }

  /** Each visited cell has a path with the recorded id. */
  ghost predicate Sound(cells: Cells, s: int, values: seq<int>, paths: map<int, seq<int>>)
    requires |values| == |cells|
  {
    forall v :: 0 <= v < |values| && values[v] >= 0 ==>
      v in paths && PathTo(cells, s, v, paths[v]) && MaxId(cells, paths[v]) == values[v]
  }

  ghost predicate DepthSound(cells: Cells, s: int, depth: seq<Entry>, paths: seq<seq<int>>) {
    |paths| == |depth| &&
    forall k :: 0 <= k < |depth| ==>
      0 < depth[k].from < |cells| && cells[depth[k].from].Branch? &&
      PathTo(cells, s, depth[k].from, paths[k]) && MaxId(cells, paths[k]) == depth[k].id
  }

  /** The collected cells are exactly the visited ones, once each. */
  ghost predicate Collected(values: seq<int>, found: seq<nat>) {
    && (forall v :: 0 <= v < |values| && values[v] >= 0 <==> v in found)
    && (forall i, j :: 0 <= i < j < |found| ==> found[i] != found[j])
    && (forall v <- found :: v < |values|)
  }

  /** No cell is being arrived at. */
  const NOWHERE := -1

  lemma Visit(cells: Cells, values: seq<int>, from: nat, arrived: int, id: nat, depth: seq<Entry>, next: int,
              more: seq<Entry>)
    requires |values| == |cells| && from < |cells|
    requires id == Max(arrived, IdOf(cells, from)) && values[from] < id
    requires Complete(cells, values, from, arrived, depth)
    requires forall t :: EpsStep(cells, from, t) ==>
      t == next || exists k :: 0 <= k < |more| && Covers(cells, more[k], t, id)
    ensures Complete(cells, values[from := id], next, id, depth + more)
  {
    var after := values[from := id];
    forall u, t | 0 <= u < |after| && after[u] >= 0 && EpsStep(cells, u, t)
      ensures Settled(cells, after, t, after[u]) || Pending(cells, next, id, depth + more, t, after[u])
    {
      if u == from {
        if t != next {
          var k :| 0 <= k < |more| && Covers(cells, more[k], t, id);
          assert Covers(cells, (depth + more)[|depth| + k], t, id);
        }
      } else if !Settled(cells, values, t, values[u]) && !(t == from && arrived >= values[u]) {
        var k :| 0 <= k < |depth| && Covers(cells, depth[k], t, values[u]);
        assert Covers(cells, (depth + more)[k], t, values[u]);
      }
    }
  }

  lemma Pass(cells: Cells, values: seq<int>, from: nat, arrived: int, depth: seq<Entry>)
    requires |values| == |cells| && from < |cells|
    requires values[from] >= Max(arrived, IdOf(cells, from))
    requires Complete(cells, values, from, arrived, depth)
    ensures Complete(cells, values, NOWHERE, 0, depth)
  {
    forall u, t | 0 <= u < |values| && values[u] >= 0 && EpsStep(cells, u, t)
      ensures Settled(cells, values, t, values[u]) || Pending(cells, NOWHERE, 0, depth, t, values[u])
    {
      if !Settled(cells, values, t, values[u]) {
        assert Pending(cells, from, arrived, depth, t, values[u]);
      }
    }
  }

  /** Cells on an empty path stay proper. */
  ghost predicate VisitedProper(cells: Cells, values: seq<int>) {
    |values| == |cells| && forall v :: 0 <= v < |values| && values[v] >= 0 ==> 0 < v && Proper(cells, v)
  }

  lemma Backtrack(cells: Cells, values: seq<int>, depth: seq<Entry>)
    requires WellFormed(cells) && VisitedProper(cells, values) && depth != []
    requires depth[|depth| - 1].from < |cells| && cells[depth[|depth| - 1].from].Branch?
    requires Complete(cells, values, NOWHERE, 0, depth)
    ensures var e := depth[|depth| - 1];
      Complete(cells, values, cells[e.from].target, e.id, depth[..|depth| - 1])
  {
    var n := |depth| - 1;
    var e := depth[n];
    forall u, t | 0 <= u < |values| && values[u] >= 0 && EpsStep(cells, u, t)
      ensures Settled(cells, values, t, values[u])
        || Pending(cells, cells[e.from].target, e.id, depth[..n], t, values[u])
    {
      assert Succ(cells, u, t);
      if !Settled(cells, values, t, values[u]) {
        var k :| 0 <= k < |depth| && Covers(cells, depth[k], t, values[u]);
        if k < n {
          assert Covers(cells, depth[..n][k], t, values[u]);
        }
      }
    }
  }

  /** What `trace_transitions` leaves behind: the collected cells are those
      reachable by empty steps, and each value is the largest id over all paths. */
  ghost predicate Exact(cells: Cells, s: int, values: seq<int>, found: seq<nat>) {
    && |values| == |cells| && Collected(values, found)
    && (forall v :: 0 <= v < |values| ==> values[v] >= -1)
    && (forall v :: 0 <= v < |values| ==> (values[v] >= 0 <==> EpsReaches(cells, s, v)))
    && (forall v :: 0 <= v < |values| && values[v] >= 0 ==> Attained(cells, s, v, values[v]))
    && (forall v, p :: 0 <= v < |values| && PathTo(cells, s, v, p) ==> MaxId(cells, p) <= values[v])
  }

  ghost predicate Attained(cells: Cells, s: int, v: int, x: int) {
    exists p :: PathTo(cells, s, v, p) && MaxId(cells, p) == x
  }

  lemma {:induction false} PathsCovered(cells: Cells, s: nat, values: seq<int>, v: int, p: seq<int>)
    requires WellFormed(cells) && VisitedProper(cells, values)
    requires s < |cells| && values[s] >= IdOf(cells, s)
    requires Complete(cells, values, NOWHERE, 0, [])
    requires PathTo(cells, s, v, p)
    ensures 0 <= v < |cells| && values[v] >= MaxId(cells, p)
    decreases |p|
  {
    var n := |p| - 1;
    var front := p[..n];
    if n == 0 {
      assert MaxId(cells, front) == 0;
    } else {
      assert PathTo(cells, s, p[n - 1], front) by {
        assert forall k :: 0 <= k < |front| - 1 ==> EpsStep(cells, front[k], front[k + 1]);
      }
      PathsCovered(cells, s, values, p[n - 1], front);
      assert EpsStep(cells, p[n - 1], p[n - 1 + 1]);
      assert Succ(cells, p[n - 1], v);
      assert !Pending(cells, NOWHERE, 0, [], v, values[p[n - 1]]);
    }
  }

  lemma Finish(cells: Cells, s: nat, values: seq<int>, found: seq<nat>, w: Witness)
    requires WellFormed(cells) && Idle(cells, s, values, [], found, w)
    ensures Exact(cells, s, values, found)
  {
    forall v, p | 0 <= v < |values| && PathTo(cells, s, v, p)
      ensures MaxId(cells, p) <= values[v]
    {
      PathsCovered(cells, s, values, v, p);
    }
    forall v | 0 <= v < |values| && values[v] >= 0
      ensures Attained(cells, s, v, values[v]) && EpsReaches(cells, s, v)
    {
      assert PathTo(cells, s, v, w.paths[v]);
    }
  }

  /** `search_states[i].type` as far as the walk looks at it. */
  ghost predicate TypesMatch(cells: Cells, types: seq<int>) {
    |types| == |cells| && forall i :: 0 <= i < |cells| ==> (types[i] < 0 <==> !IsState(cells[i]))
  }

  ghost predicate AllUnset(values: seq<int>) {
    forall k :: 0 <= k < |values| ==> values[k] == -1
  }

  /** Proof data of the walk: a path for every visited cell and every stacked branch. */
  datatype Witness = Witness(paths: map<int, seq<int>>, below: seq<seq<int>>)

  /** The walk between two arrivals. */
  ghost predicate Idle(cells: Cells, s: nat, values: seq<int>, depth: seq<Entry>, found: seq<nat>, w: Witness) {
    && |values| == |cells| && s < |cells|
    && Sound(cells, s, values, w.paths) && DepthSound(cells, s, depth, w.below)
    && VisitedProper(cells, values) && Collected(values, found)
    && Complete(cells, values, NOWHERE, 0, depth)
    && values[s] >= IdOf(cells, s)
    && forall k :: 0 <= k < |values| ==> -1 <= values[k] <= TopId(cells)
  }

  /** The walk arriving at `from` with `id`, along the path `here`. */
  ghost predicate Arriving(cells: Cells, s: nat, values: seq<int>, from: int, id: int, depth: seq<Entry>,
                           found: seq<nat>, w: Witness, here: seq<int>) {
    && |values| == |cells| && s < |cells|
    && 0 < from < |cells| && Proper(cells, from) && id >= 0
    && PathTo(cells, s, from, here) && MaxId(cells, here) == Max(id, IdOf(cells, from))
    && Sound(cells, s, values, w.paths) && DepthSound(cells, s, depth, w.below)
    && VisitedProper(cells, values) && Collected(values, found)
    && Complete(cells, values, from, id, depth)
    && (values[s] >= IdOf(cells, s) || from == s)
    && forall k :: 0 <= k < |values| ==> -1 <= values[k] <= TopId(cells)
  }

  /** `found` after a visit of `from`. */
  function Noted(values: seq<int>, from: nat, found: seq<nat>): seq<nat>
    requires from < |values|
  {
    if values[from] == -1 then found + [from] else found
  }

  lemma CollectOne(values: seq<int>, from: nat, id: nat, found: seq<nat>)
    requires from < |values| && -1 <= values[from] < id && Collected(values, found)
    ensures Collected(values[from := id], Noted(values, from, found))
  {
  }

  lemma ArrivalBounded(cells: Cells, s: nat, values: seq<int>, from: int, id: int, depth: seq<Entry>,
                       found: seq<nat>, w: Witness, here: seq<int>)
    requires Arriving(cells, s, values, from, id, depth, found, w, here)
    ensures Max(id, IdOf(cells, from)) <= TopId(cells)
  {
    PathIdBounded(cells, here);
  }

  /** A visit that goes on to `next`, with `more` branches stacked. */
  lemma VisitAndGo(cells: Cells, s: nat, values: seq<int>, from: nat, arrived: int, depth: seq<Entry>,
                   found: seq<nat>, w: Witness, here: seq<int>, next: int, more: seq<Entry>)
    returns (w1: Witness)
    requires WellFormed(cells) && Arriving(cells, s, values, from, arrived, depth, found, w, here)
    requires values[from] < Max(arrived, IdOf(cells, from)) && EpsStep(cells, from, next)
    requires more == [] || (cells[from].Branch? && more == [Entry(Max(arrived, IdOf(cells, from)), from)])
    requires forall t :: EpsStep(cells, from, t) ==> t == next || (more != [] && t == cells[from].target)
    ensures var id := Max(arrived, IdOf(cells, from));
      Arriving(cells, s, values[from := id], next, id, depth + more, Noted(values, from, found), w1, here + [next])
  {
    hide Complete, WellFormed, EpsPath, MaxId, Collected;
    var id := Max(arrived, IdOf(cells, from));
    if more != [] {
      assert Covers(cells, more[0], cells[from].target, id);
    }
    Visit(cells, values, from, arrived, id, depth, next, more);
    Advance(cells, s, from, next, here);
    CollectOne(values, from, id, found);
    ArrivalBounded(cells, s, values, from, arrived, depth, found, w, here);
    w1 := Witness(w.paths[from := here], w.below + (if more == [] then [] else [here]));
  }

  /** A visit of a state, where the walk stops. */
  lemma VisitAndStop(cells: Cells, s: nat, values: seq<int>, from: nat, arrived: int, depth: seq<Entry>,
                     found: seq<nat>, w: Witness, here: seq<int>)
    returns (w1: Witness)
    requires WellFormed(cells) && Arriving(cells, s, values, from, arrived, depth, found, w, here)
    requires values[from] < Max(arrived, IdOf(cells, from)) && IsState(cells[from])
    ensures var id := Max(arrived, IdOf(cells, from));
      Idle(cells, s, values[from := id], depth, Noted(values, from, found), w1)
  {
    hide Complete, WellFormed, EpsPath, MaxId, Collected;
    var id := Max(arrived, IdOf(cells, from));
    Visit(cells, values, from, arrived, id, depth, NOWHERE, []);
    assert depth + [] == depth;
    CollectOne(values, from, id, found);
    ArrivalBounded(cells, s, values, from, arrived, depth, found, w, here);
    w1 := w.(paths := w.paths[from := here]);
    Nowhere(cells, values[from := id], id, depth);
  }

  lemma PassBy(cells: Cells, s: nat, values: seq<int>, from: nat, arrived: int, depth: seq<Entry>,
               found: seq<nat>, w: Witness, here: seq<int>)
    requires Arriving(cells, s, values, from, arrived, depth, found, w, here)
    requires values[from] >= Max(arrived, IdOf(cells, from))
    ensures Idle(cells, s, values, depth, found, w)
  {
    hide Complete, EpsPath, MaxId, Collected;
    Pass(cells, values, from, arrived, depth);
  }

  lemma Resume(cells: Cells, s: nat, values: seq<int>, depth: seq<Entry>, found: seq<nat>, w: Witness)
    returns (w1: Witness, here: seq<int>)
    requires WellFormed(cells) && Idle(cells, s, values, depth, found, w) && depth != []
    ensures var e := depth[|depth| - 1];
      && e.from < |cells| && cells[e.from].Branch?
      && Arriving(cells, s, values, cells[e.from].target, e.id, depth[..|depth| - 1], found, w1, here)
  {
    hide Complete, WellFormed, EpsPath, MaxId, Collected;
    var n := |depth| - 1;
    var e := depth[n];
    Backtrack(cells, values, depth);
    Advance(cells, s, e.from, cells[e.from].target, w.below[n]);
    here := w.below[n] + [cells[e.from].target];
    w1 := w.(below := w.below[..n]);
  }

  method TraceTransitions(cells: Cells, types: seq<int>, values: array<int>, start: nat) returns (found: seq<nat>)
    requires WellFormed(cells) && TypesMatch(cells, types)
    requires values.Length == |cells| && AllUnset(values[..])
    requires start + 1 < |cells| && Proper(cells, start + 1)
    modifies values
    ensures Exact(cells, start + 1, values[..], found)
  {
    hide Exact, WellFormed, Arriving, Idle, Potential, TopId;
    var id, from, depth: seq<Entry> := 0, start + 1, [];
    found := [];
    ghost var s, w, here := start + 1, Witness(map[], []), [from];
    Begin(cells, s, values[..]);
    while true
      invariant 0 < from < |cells| && id >= 0
      invariant Arriving(cells, s, values[..], from, id, depth, found, w, here)
      decreases Potential(values[..], TopId(cells)), |depth|
    {
      ghost var arrived, before, was := id, values[..], found;
      if cells[from].Id? {
        if id < cells[from].id {
          id := cells[from].id;
        }
      }
      if values[from] < id {
        if values[from] == -1 {
          found := found + [from];
        }
        values[from] := id;
        Lowered(cells, s, before, from, arrived, depth, was, w, here);
        assert values[..] == before[from := id];
        if cells[from].Branch? {
          w := VisitAndGo(cells, s, before, from, arrived, depth, was, w, here, from + 1, [Entry(id, from)]);
          depth := depth + [Entry(id, from)];
          from := from + 1;
          here := here + [from];
          InRange(cells, s, values[..], from, id, depth, found, w, here);
          continue;
        } else if cells[from].Jump? {
          w := VisitAndGo(cells, s, before, from, arrived, depth, was, w, here, cells[from].target, []);
          assert depth + [] == depth;
          from := cells[from].target;
          here := here + [from];
          InRange(cells, s, values[..], from, id, depth, found, w, here);
          continue;
        } else if types[from] < 0 {
          w := VisitAndGo(cells, s, before, from, arrived, depth, was, w, here, from + 1, []);
          assert depth + [] == depth;
          from := from + 1;
          here := here + [from];
          InRange(cells, s, values[..], from, id, depth, found, w, here);
          continue;
        }
        w := VisitAndStop(cells, s, before, from, arrived, depth, was, w, here);
      } else {
        PassBy(cells, s, values[..], from, arrived, depth, found, w, here);
      }
      if |depth| > 0 {
        w, here := Resume(cells, s, values[..], depth, found, w);
        var e := depth[|depth| - 1];
        id, from, depth := e.id, cells[e.from].target, depth[..|depth| - 1];
        InRange(cells, s, values[..], from, id, depth, found, w, here);
        continue;
      }
      Finish(cells, s, values[..], found, w);
      return;
    }
  }

  lemma InRange(cells: Cells, s: nat, values: seq<int>, from: int, id: int, depth: seq<Entry>,
                found: seq<nat>, w: Witness, here: seq<int>)
    requires Arriving(cells, s, values, from, id, depth, found, w, here)
    ensures 0 < from < |cells| && id >= 0
  {
  }

  /** A visit lowers the potential, so only finitely many happen. */
  lemma Lowered(cells: Cells, s: nat, values: seq<int>, from: nat, arrived: int, depth: seq<Entry>,
                found: seq<nat>, w: Witness, here: seq<int>)
    requires Arriving(cells, s, values, from, arrived, depth, found, w, here)
    requires values[from] < Max(arrived, IdOf(cells, from))
    ensures 0 <= Potential(values[from := Max(arrived, IdOf(cells, from))], TopId(cells))
      < Potential(values, TopId(cells))
  {
    ArrivalBounded(cells, s, values, from, arrived, depth, found, w, here);
    PotentialDrops(values, TopId(cells), from, Max(arrived, IdOf(cells, from)));
  }

  lemma Begin(cells: Cells, s: nat, values: seq<int>)
    requires |values| == |cells| && AllUnset(values) && Proper(cells, s) && 0 < s
    ensures Arriving(cells, s, values, s, 0, [], [], Witness(map[], []), [s])
  {
    assert [s][..0] == [];
    assert PathTo(cells, s, s, [s]) && MaxId(cells, [s]) == IdOf(cells, s);
  }

  lemma Nowhere(cells: Cells, values: seq<int>, id: nat, depth: seq<Entry>)
    requires |values| == |cells| && WellFormed(cells) && VisitedProper(cells, values)
    requires Complete(cells, values, NOWHERE, id, depth)
    ensures Complete(cells, values, NOWHERE, 0, depth)
  {
    forall u, t | 0 <= u < |values| && values[u] >= 0 && EpsStep(cells, u, t)
      ensures Settled(cells, values, t, values[u]) || Pending(cells, NOWHERE, 0, depth, t, values[u])
    {
      assert Succ(cells, u, t);
    }
  }

  lemma {:induction false} Advance(cells: Cells, s: int, u: int, v: int, p: seq<int>)
    requires WellFormed(cells) && PathTo(cells, s, u, p) && EpsStep(cells, u, v)
    requires 0 < u && Proper(cells, u)
    ensures 0 < v < |cells| && Proper(cells, v)
    ensures PathTo(cells, s, v, p + [v]) && MaxId(cells, p + [v]) == Max(MaxId(cells, p), IdOf(cells, v))
  {
    assert Succ(cells, u, v);
    ExtendPath(cells, s, u, v, p);
  }

  lemma PotentialDrops(values: seq<int>, top: nat, i: nat, x: nat)
    requires i < |values| && values[i] < x <= top
    requires forall k :: 0 <= k < |values| ==> values[k] <= top
    ensures 0 <= Potential(values[i := x], top) < Potential(values, top)
  {
    PotentialUpdate(values, top, i, x);
    PotentialPositive(values[i := x], top);
  }
}
