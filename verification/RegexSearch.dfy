/** `regex_compile` after the transitions are in place: numbering the states,
    tracing what follows each, and putting the matcher together. */
module RegexSearch {
  import opened RegexNfa
  import opened RegexClosure
  import opened RegexStates

  // ---------------------------------------------------------- numbering states

  /** The number the next term gets when the cells before `i` have been numbered. */
  function TermNo(cells: Cells, i: nat): nat
    requires i <= |cells|
  {
    if i == 0 then 1 else TermNo(cells, i - 1) + (if cells[i - 1].Chr? || cells[i - 1].RngEnd? then 1 else 0)
  }

  function StateNo(cells: Cells, i: nat): nat
    requires i < |cells|
  {
    if cells[i].Begin? || cells[i].End? then 0 else TermNo(cells, i)
  }

  /** `search_states[i].type`. */
  function TypeOf(cells: Cells, i: nat): int
    requires i < |cells|
  {
    if IsState(cells[i]) then StateNo(cells, i) else -1
  }

  /** `generate_search_states`. */
  method GenerateSearchStates(cells: Cells) returns (types: seq<int>, terms: nat)
    ensures |types| == |cells| && terms == TermNo(cells, |cells|)
    ensures forall i :: 0 <= i < |cells| ==> types[i] == TypeOf(cells, i)
    ensures TypesMatch(cells, types)
  {
    types, terms := [], 1;
    var i := 0;
    while i < |cells|
      invariant 0 <= i <= |cells| && |types| == i && terms == TermNo(cells, i)
      invariant forall j :: 0 <= j < i ==> types[j] == TypeOf(cells, j)
    {
      match cells[i] {
        case Begin | End => types := types + [0];
        case RngStart(_) => types := types + [terms];
        case Chr(_) | RngEnd =>
          types := types + [terms];
          terms := terms + 1;
        case _ => types := types + [-1];
      }
      i := i + 1;
    }
    TypesKnown(cells, types);
  }

  lemma {:induction false} TermNoPositive(cells: Cells, i: nat)
    requires i <= |cells|
    ensures TermNo(cells, i) >= 1
  {
    if i > 0 {
      TermNoPositive(cells, i - 1);
    }
  }

  lemma TypesKnown(cells: Cells, types: seq<int>)
    requires |types| == |cells| && forall i :: 0 <= i < |cells| ==> types[i] == TypeOf(cells, i)
    ensures TypesMatch(cells, types)
  {
    forall i | 0 <= i < |cells|
      ensures types[i] < 0 <==> !IsState(cells[i])
    {
      TermNoPositive(cells, i);
    }
  }

  lemma {:induction false} TermNoFlat(cells: Cells, i: nat, j: nat)
    requires i <= j <= |cells|
    requires forall k :: i <= k < j ==> !cells[k].Chr? && !cells[k].RngEnd?
    ensures TermNo(cells, j) == TermNo(cells, i)
    decreases j - i
  {
    if i < j {
      TermNoFlat(cells, i, j - 1);
    }
  }

  // ----------------------------------------------- what follows a state, in code

  /** The state numbers among the collected cells, in the order they are popped. */
  function Emitted(cells: Cells, found: seq<nat>): seq<nat>
    requires Bounded(found, |cells|)
  {
    if found == [] then []
    else
      var i := found[|found| - 1];
      (if IsState(cells[i]) then [StateNo(cells, i)] else []) + Emitted(cells, found[..|found| - 1])
  }

  lemma {:induction false} EmittedMembers(cells: Cells, found: seq<nat>, v: nat)
    requires Bounded(found, |cells|)
    ensures v in Emitted(cells, found) <==> exists i ::
      i in found && i < |cells| && IsState(cells[i]) && StateNo(cells, i) == v
    decreases |found|
  {
    if found != [] {
      var n := |found| - 1;
      assert found == found[..n] + [found[n]];
      EmittedMembers(cells, found[..n], v);
    }
  }

  lemma EmittedNone(cells: Cells)
    ensures Emitted(cells, []) == []
  {
  }

  lemma {:induction false} EmitOne(cells: Cells, types: seq<int>, stack: seq<nat>)
    requires Bounded(stack, |cells|) && stack != [] && |types| == |cells|
    requires forall i :: 0 <= i < |cells| ==> types[i] == TypeOf(cells, i)
    ensures var n := |stack| - 1; var ind := stack[n];
      && (types[ind] < 0 ==> Emitted(cells, stack) == Emitted(cells, stack[..n]))
      && (types[ind] >= 0 ==> Emitted(cells, stack) == [types[ind]] + Emitted(cells, stack[..n]))
      && (cells[ind].End? ==> types[ind] == 0)
  {
    TermNoPositive(cells, stack[|stack| - 1]);
  }

  /** `TraceTransitions` followed by the loop that empties the stack: the values
      are reset, and the states are emitted. */
  method TraceAndEmit(cells: Cells, types: seq<int>, values: array<int>, from: nat)
    returns (xs: seq<nat>, plain: bool, ghost found: seq<nat>)
    requires WellFormed(cells) && TypesMatch(cells, types) && |types| == |cells|
    requires forall i :: 0 <= i < |cells| ==> types[i] == TypeOf(cells, i)
    requires values.Length == |cells| && AllUnset(values[..])
    requires from + 1 < |cells| && Proper(cells, from + 1)
    modifies values
    ensures AllUnset(values[..])
    ensures Bounded(found, |cells|) && Distinct(found) && xs == Emitted(cells, found)
    ensures forall v :: 0 <= v < |cells| ==> (v in found <==> EpsReaches(cells, from + 1, v))
    ensures plain ==> forall i :: i in found ==> !cells[i].End?
  {
    hide WellFormed, Emitted, TypeOf, EpsReaches, Exact, TypesMatch;
    var stack := TraceTransitions(cells, types, values, from);
    found := stack;
    FoundKnown(cells, from + 1, values[..], found);
    xs, plain := [], true;
    assert stack == found[..|stack|];
    while |stack| > 0
      invariant |stack| <= |found| && stack == found[..|stack|]
      invariant xs + Emitted(cells, stack) == Emitted(cells, found)
      invariant forall v :: 0 <= v < |cells| ==> values[v] == -1 || v in stack
      invariant plain ==> forall i :: |stack| <= i < |found| ==> !cells[found[i]].End?
    {
      var n := |stack| - 1;
      var ind := stack[n];
      EmitOne(cells, types, stack);
      if types[ind] >= 0 {
        xs := xs + [types[ind]];
        if types[ind] == 0 || (cells[ind].RngStart? && cells[ind].invert) {
          plain := false;
        }
      }
      values[ind] := -1;
      stack := stack[..n];
    }
    EmittedNone(cells);
  }

  lemma FoundKnown(cells: Cells, s: int, values: seq<int>, found: seq<nat>)
    requires Exact(cells, s, values, found)
    ensures Bounded(found, |cells|) && Distinct(found)
    ensures forall v :: 0 <= v < |cells| ==> (v in found <==> EpsReaches(cells, s, v))
    ensures forall v :: 0 <= v < |cells| ==> values[v] == -1 || v in found
  {
    assert forall i :: 0 <= i < |found| ==> found[i] in found;
  }

  // ----------------------------------------------------------- the whole matcher

  /** Every term before `ind` has its state. */
  ghost predicate Numbered(cells: Cells, ind: nat, pos: seq<nat>)
    requires ind <= |cells|
  {
    && |pos| == TermNo(cells, ind) && |pos| >= 1
    && (forall k :: 0 < k < |pos| ==> pos[k] < ind && IsTerm(cells[pos[k]]) && StateNo(cells, pos[k]) == k)
    && (forall i :: 0 <= i < ind && IsTerm(cells[i]) ==>
      StateNo(cells, i) < |pos| && StateNo(cells, i) > 0 && pos[StateNo(cells, i)] == i)
  }

  lemma NumberOne(cells: Cells, ind: nat, next: nat, pos: seq<nat>)
    requires ind < next <= |cells| && Numbered(cells, ind, pos)
    requires TermNo(cells, next) == TermNo(cells, ind) + 1 && IsTerm(cells[ind])
    requires forall i :: ind < i < next ==> !IsTerm(cells[i])
    ensures Numbered(cells, next, pos + [ind])
  {
  }

  lemma NumberNone(cells: Cells, ind: nat, pos: seq<nat>)
    requires ind < |cells| && Numbered(cells, ind, pos) && !IsTerm(cells[ind]) && !cells[ind].RngEnd?
    ensures Numbered(cells, ind + 1, pos)
  {
  }

  lemma TermNoStep(cells: Cells, i: nat)
    requires i < |cells|
    ensures TermNo(cells, i + 1) == TermNo(cells, i) + (if cells[i].Chr? || cells[i].RngEnd? then 1 else 0)
  {
  }

  lemma TermEndsAt(cells: Cells, ind: nat)
    requires WellFormed(cells) && 0 < ind < |cells| && IsTerm(cells[ind])
    ensures var a := AfterTerm(cells, ind);
      && ind < a < |cells| && Proper(cells, a) && !InClass(cells[a - 1])
      && (cells[ind].Chr? ==> a == ind + 1)
      && (cells[ind].RngStart? ==> RangeClose(cells, ind + 1) == a - 1 && ind < a - 1 && cells[a - 1].RngEnd?)
      && forall i :: ind < i < a - 1 ==> Interior(cells[i]) && !cells[i].RngEnd?
  {
    assert Proper(cells, ind);
    assert Succ(cells, ind, AfterTerm(cells, ind));
    if cells[ind].RngStart? {
      assert ClassClosed(cells, ind, |cells| - 1);
    }
  }

  /** The cell where the walk after the term at `ind` starts is proper. */
  lemma TermEnds(cells: Cells, ind: nat)
    requires WellFormed(cells) && 0 < ind < |cells| && IsTerm(cells[ind])
    ensures var a := AfterTerm(cells, ind);
      && ind < a < |cells| && Proper(cells, a)
      && TermNo(cells, a) == TermNo(cells, ind) + 1
      && !InClass(cells[a - 1]) && (cells[ind].RngStart? ==> RangeClose(cells, ind + 1) == a - 1)
      && forall i :: ind < i < a ==> !IsTerm(cells[i])
  {
    hide TermNo;
    TermEndsAt(cells, ind);
    var a := AfterTerm(cells, ind);
    if cells[ind].RngStart? {
      TermNoFlat(cells, ind, a - 1);
    }
    TermNoStep(cells, a - 1);
  }

  /** The lists of the machine, in terms of the cells that were found. */
  ghost predicate Emits(cells: Cells, xs: seq<nat>, start: int, found: seq<nat>) {
    && Bounded(found, |cells|) && Distinct(found) && xs == Emitted(cells, found)
    && forall v :: 0 <= v < |cells| ==> (v in found <==> EpsReaches(cells, start, v))
  }

  lemma {:induction false} EmittedDistinct(cells: Cells, found: seq<nat>)
    requires Bounded(found, |cells|) && Distinct(found)
    requires forall i, j ::
      && i in found && j in found && i < |cells| && j < |cells| && IsState(cells[i]) && IsState(cells[j])
      && StateNo(cells, i) == StateNo(cells, j)
      ==> i == j
    ensures Distinct(Emitted(cells, found))
    decreases |found|
  {
    if found != [] {
      var n := |found| - 1;
      var last := found[n];
      assert found == found[..n] + [last];
      EmittedDistinct(cells, found[..n]);
      EmittedMembers(cells, found[..n], StateNo(cells, last));
      var rest := Emitted(cells, found[..n]);
      assert last !in found[..n];
      if IsState(cells[last]) {
        assert StateNo(cells, last) !in rest;
        FrontDistinct(rest, StateNo(cells, last));
      }
    }
  }

  lemma {:induction false} PathProper(cells: Cells, s: int, v: int, p: seq<int>)
    requires WellFormed(cells) && PathTo(cells, s, v, p) && 0 < s && Proper(cells, s)
    ensures 0 < v && Proper(cells, v)
    decreases |p|
  {
    if |p| > 1 {
      var q := p[..|p| - 1];
      assert forall k :: 0 <= k < |q| - 1 ==> EpsStep(cells, q[k], q[k + 1]) by {
        assert forall k :: 0 <= k < |q| ==> q[k] == p[k];
      }
      PathProper(cells, s, p[|p| - 2], q);
      assert EpsStep(cells, p[|p| - 2], p[|p| - 2 + 1]);
      assert Succ(cells, p[|p| - 2], v);
    }
  }

  lemma StateFound(cells: Cells, pos: seq<nat>, s: int, i: nat)
    requires WellFormed(cells) && Numbered(cells, |cells| - 1, pos) && pos[0] == |cells| - 1
    requires 0 < s && Proper(cells, s) && EpsReaches(cells, s, i) && i < |cells| && IsState(cells[i])
    ensures StateNo(cells, i) < |pos| && pos[StateNo(cells, i)] == i
  {
    var p :| PathTo(cells, s, i, p);
    PathProper(cells, s, i, p);
  }

  lemma ListsKnown(m: Machine, xs: seq<nat>, start: int, found: seq<nat>)
    requires WellFormed(m.cells) && Numbered(m.cells, |m.cells| - 1, m.pos) && m.pos[0] == |m.cells| - 1
    requires Emits(m.cells, xs, start, found) && 0 < start && Proper(m.cells, start)
    ensures Bounded(xs, m.Size()) && Lists(m, xs, start)
  {
    hide WellFormed, Numbered, EpsReaches;
    forall i, j |
      && i in found && j in found && i < |m.cells| && j < |m.cells| && IsState(m.cells[i]) && IsState(m.cells[j])
      && StateNo(m.cells, i) == StateNo(m.cells, j)
      ensures i == j
    {
      StateFound(m.cells, m.pos, start, i);
      StateFound(m.cells, m.pos, start, j);
    }
    EmittedDistinct(m.cells, found);
    forall k | 0 <= k < |xs|
      ensures xs[k] < m.Size()
    {
      EmittedMembers(m.cells, found, xs[k]);
      var i :| i in found && i < |m.cells| && IsState(m.cells[i]) && StateNo(m.cells, i) == xs[k];
      StateFound(m.cells, m.pos, start, i);
    }
    forall v | 0 <= v < m.Size()
      ensures v in xs <==> EpsReaches(m.cells, start, m.pos[v])
    {
      EmittedMembers(m.cells, found, v);
      PositionKnown(m.cells, m.pos, v);
      if v in xs {
        var i :| i in found && i < |m.cells| && IsState(m.cells[i]) && StateNo(m.cells, i) == v;
        StateFound(m.cells, m.pos, start, i);
      }
    }
  }

  lemma PositionKnown(cells: Cells, pos: seq<nat>, v: nat)
    requires WellFormed(cells) && Numbered(cells, |cells| - 1, pos) && pos[0] == |cells| - 1 && v < |pos|
    ensures pos[v] < |cells| && IsState(cells[pos[v]]) && StateNo(cells, pos[v]) == v
  {
  }

  /** The machine built so far: one list of follow-up states per numbered term. */
  ghost predicate Followed(cells: Cells, pos: seq<nat>, trans: seq<seq<nat>>, founds: seq<seq<nat>>) {
    && |trans| == |founds| == |pos|
    && (forall k :: 0 < k < |pos| ==> pos[k] < |cells| && Emits(cells, trans[k], AfterTerm(cells, pos[k]), founds[k]))
  }

  lemma FollowOne(cells: Cells, pos: seq<nat>, trans: seq<seq<nat>>, founds: seq<seq<nat>>,
                  ind: nat, xs: seq<nat>, found: seq<nat>)
    requires Followed(cells, pos, trans, founds) && |pos| >= 1
    requires ind < |cells| && Emits(cells, xs, AfterTerm(cells, ind), found)
    ensures Followed(cells, pos + [ind], trans + [xs], founds + [found])
  {
  }

  lemma MachineValid(m: Machine, initFound: seq<nat>, founds: seq<seq<nat>>)
    requires WellFormed(m.cells) && Numbered(m.cells, |m.cells| - 1, m.pos) && m.pos[0] == |m.cells| - 1
    requires Followed(m.cells, m.pos, m.trans, founds) && Emits(m.cells, m.init, 1, initFound)
    requires m.fast ==> forall i :: i in initFound && i < |m.cells| ==> !m.cells[i].End?
    ensures ValidMachine(m)
  {
    hide Numbered, Emits, Followed, Lists;
    var n := |m.cells|;
    PosKnown(m.cells, m.pos);
    FollowKnown(m.cells, m.pos, m.trans, founds);
    ListsKnown(m, m.init, 1, initFound);
    forall k | 0 < k < m.Size()
      ensures Bounded(m.trans[k], m.Size()) && Lists(m, m.trans[k], AfterTerm(m.cells, m.pos[k]))
    {
      TermEnds(m.cells, m.pos[k]);
      ListsKnown(m, m.trans[k], AfterTerm(m.cells, m.pos[k]), founds[k]);
    }
    if m.fast {
      NoEmptyMatch(m, initFound);
    }
  }

  lemma FollowKnown(cells: Cells, pos: seq<nat>, trans: seq<seq<nat>>, founds: seq<seq<nat>>)
    requires Followed(cells, pos, trans, founds)
    ensures |trans| == |founds| == |pos|
    ensures forall k :: 0 < k < |pos| ==>
      pos[k] < |cells| && Emits(cells, trans[k], AfterTerm(cells, pos[k]), founds[k])
  {
  }

  lemma PosKnown(cells: Cells, pos: seq<nat>)
    requires WellFormed(cells) && Numbered(cells, |cells| - 1, pos) && pos[0] == |cells| - 1
    ensures |pos| > 0 && cells[pos[0]].End?
    ensures forall k :: 0 < k < |pos| ==> 0 < pos[k] < |cells| && IsTerm(cells[pos[k]])
    ensures forall i :: 0 <= i < |cells| && IsTerm(cells[i]) ==> exists k :: 0 < k < |pos| && pos[k] == i
  {
    forall i | 0 <= i < |cells| && IsTerm(cells[i])
      ensures exists k :: 0 < k < |pos| && pos[k] == i
    {
      assert pos[StateNo(cells, i)] == i;
    }
  }

  lemma NoEmptyMatch(m: Machine, found: seq<nat>)
    requires WellFormed(m.cells) && Emits(m.cells, m.init, 1, found)
    requires forall i :: i in found && i < |m.cells| ==> !m.cells[i].End?
    ensures 0 !in m.init
  {
    EmittedMembers(m.cells, found, 0);
    if 0 in m.init {
      var i :| i in found && i < |m.cells| && IsState(m.cells[i]) && StateNo(m.cells, i) == 0;
      var p :| PathTo(m.cells, 1, i, p);
      PathProper(m.cells, 1, i, p);
      TermNoPositive(m.cells, i);
    }
  }

  /** Step 4 of `regex_compile`, with the emitted code as a machine. */
  method BuildMachine(cells: Cells) returns (m: Machine)
    requires WellFormed(cells)
    ensures m.cells == cells && ValidMachine(m) && m.Size() > 0 && m.pos[0] == |cells| - 1
  {
    hide WellFormed, Numbered, Followed, Emits, ValidMachine;
    var n := |cells|;
    CellsKnown(cells);
    var types, terms := GenerateSearchStates(cells);
    var values := new int[n](_ => -1);
    ghost var initFound, founds: seq<seq<nat>> := [], [[]];
    var init, plain;
    init, plain, initFound := TraceAndEmit(cells, types, values, 0);
    EmitsKnown(cells, init, 1, initFound);
    var pos: seq<nat>, trans: seq<seq<nat>>, ind := [n - 1], [[]], 1;
    BuildStarts(cells, pos, trans, founds);
    while ind < n - 1
      invariant 0 < ind <= n - 1 && Proper(cells, ind)
      invariant values.Length == n && AllUnset(values[..])
      invariant |pos| > 0 && pos[0] == n - 1 && Numbered(cells, ind, pos)
      invariant Followed(cells, pos, trans, founds)
    {
      CellKnown(cells, ind);
      if types[ind] >= 0 {
        TermEnds(cells, ind);
        var start := ind;
        if cells[ind].RngStart? {
          ind := RangeClose(cells, ind + 1);
        }
        var xs, other;
        ghost var found;
        xs, other, found := TraceAndEmit(cells, types, values, ind);
        EmitsKnown(cells, xs, AfterTerm(cells, start), found);
        NumberOne(cells, start, ind + 1, pos);
        FollowOne(cells, pos, trans, founds, start, xs, found);
        pos, trans, founds := pos + [start], trans + [xs], founds + [found];
      } else {
        NumberNone(cells, ind, pos);
      }
      NextProper(cells, ind);
      ind := ind + 1;
    }
    m := Machine(cells, pos, init, trans, plain);
    MachineValid(m, initFound, founds);
  }

  lemma {:induction false} EmitsKnown(cells: Cells, xs: seq<nat>, start: int, found: seq<nat>)
    requires Bounded(found, |cells|) && Distinct(found) && xs == Emitted(cells, found)
    requires forall v :: 0 <= v < |cells| ==> (v in found <==> EpsReaches(cells, start, v))
    ensures Emits(cells, xs, start, found)
  {
  }

  lemma CellsKnown(cells: Cells)
    requires WellFormed(cells)
    ensures |cells| >= 2 && Proper(cells, 1)
  {
  }

  lemma BuildStarts(cells: Cells, pos: seq<nat>, trans: seq<seq<nat>>, founds: seq<seq<nat>>)
    requires WellFormed(cells) && pos == [|cells| - 1] && trans == [[]] && founds == [[]]
    ensures Numbered(cells, 1, pos) && Followed(cells, pos, trans, founds)
  {
    assert TermNo(cells, 0) == 1;
  }

  lemma CellKnown(cells: Cells, i: nat)
    requires WellFormed(cells) && 0 < i < |cells| - 1 && Proper(cells, i)
    ensures IsTerm(cells[i]) <==> IsState(cells[i])
  {
  }

  lemma NextProper(cells: Cells, i: nat)
    requires WellFormed(cells) && 0 < i < |cells| - 1 && !InClass(cells[i])
    ensures Proper(cells, i + 1)
  {
    assert Guarded(cells, i + 1);
  }
}
