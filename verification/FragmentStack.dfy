/** The parser's stack as it is kept in memory: linked fragments of a fixed size, and that
    its operations are those of a sequence. */
module FragmentStack {
  import opened RegexSyntax
  import RegexIterate

  /** Items in a fragment on a 64-bit machine: 64 items less two pointers. */
  const SIZE: nat := 62

  // ------------------------------------------------------------- items by position

  ghost predicate Full(rows: seq<seq<Item>>) {
    forall i :: 0 <= i < |rows| ==> |rows[i]| == SIZE
  }

  lemma Place(p: nat)
    ensures p == p / SIZE * SIZE + p % SIZE && 0 <= p % SIZE < SIZE
  {
  }

  lemma PlaceOf(i: nat, x: nat)
    requires x < SIZE
    ensures (i * SIZE + x) / SIZE == i && (i * SIZE + x) % SIZE == x
  {
  }

  lemma NextPlace(p: nat)
    ensures p % SIZE + 1 < SIZE ==> (p + 1) / SIZE == p / SIZE && (p + 1) % SIZE == p % SIZE + 1
    ensures p % SIZE + 1 >= SIZE ==> (p + 1) / SIZE == p / SIZE + 1 && (p + 1) % SIZE == 0
  {
    Place(p);
    if p % SIZE + 1 < SIZE {
      PlaceOf(p / SIZE, p % SIZE + 1);
    } else {
      PlaceOf(p / SIZE + 1, 0);
    }
  }

  lemma InRow(p: nat, n: nat)
    requires p < n * SIZE
    ensures p / SIZE < n
  {
  }

  ghost function Cell(rows: seq<seq<Item>>, p: nat): Item
    requires Full(rows) && p < |rows| * SIZE
  {
    InRow(p, |rows|);
    rows[p / SIZE][p % SIZE]
  }

  /** The first `n` items. */
  ghost function Flat(rows: seq<seq<Item>>, n: nat): (s: seq<Item>)
    requires Full(rows) && n <= |rows| * SIZE
    ensures |s| == n && forall p :: 0 <= p < n ==> s[p] == Cell(rows, p)
  {
    seq(n, p requires 0 <= p < n => Cell(rows, p))
  }

  lemma FlatPrefix(rows: seq<seq<Item>>, m: nat, n: nat)
    requires Full(rows) && m <= n <= |rows| * SIZE
    ensures Flat(rows, m) == Flat(rows, n)[..m]
  {
    hide Cell;
  }

  /** Item `p` replaced. */
  ghost function With(rows: seq<seq<Item>>, p: nat, v: Item): (r: seq<seq<Item>>)
    requires Full(rows) && p < |rows| * SIZE
    ensures Full(r) && |r| == |rows|
  {
    InRow(p, |rows|);
    rows[p / SIZE := rows[p / SIZE][p % SIZE := v]]
  }

  lemma CellWith(rows: seq<seq<Item>>, p: nat, v: Item, q: nat)
    requires Full(rows) && p < |rows| * SIZE && q < |rows| * SIZE
    ensures Cell(With(rows, p, v), q) == if q == p then v else Cell(rows, q)
  {
    InRow(p, |rows|);
    InRow(q, |rows|);
    Place(p);
    Place(q);
  }

  lemma FlatWith(rows: seq<seq<Item>>, p: nat, v: Item, n: nat)
    requires Full(rows) && p < |rows| * SIZE && n <= |rows| * SIZE
    ensures Flat(With(rows, p, v), n) == if p < n then Flat(rows, n)[p := v] else Flat(rows, n)
  {
    hide Cell, With;
    forall q | 0 <= q < n
      ensures Cell(With(rows, p, v), q) == if q == p then v else Cell(rows, q)
    {
      CellWith(rows, p, v, q);
    }
  }

  lemma FlatGrown(rows: seq<seq<Item>>, more: seq<seq<Item>>, n: nat)
    requires Full(rows) && Full(more) && |rows| <= |more| && more[..|rows|] == rows && n <= |rows| * SIZE
    ensures Flat(more, n) == Flat(rows, n)
  {
    forall q | 0 <= q < n
      ensures Cell(more, q) == Cell(rows, q)
    {
      InRow(q, |rows|);
    }
  }

  lemma LastWith(rows: seq<seq<Item>>, p: nat, v: Item)
    requires Full(rows) && p < |rows| * SIZE
    ensures Flat(With(rows, p, v), p + 1) == Flat(rows, p) + [v]
  {
    hide Cell, With;
    FlatWith(rows, p, v, p + 1);
    FlatPrefix(rows, p, p + 1);
    CellWith(rows, p, v, p);
  }

  // ------------------------------------------------------------------- fragments

  class Fragment {
    var next: Fragment?
    var prev: Fragment?
    var items: seq<Item>

    constructor (before: Fragment?)
      ensures next == null && prev == before && |items| == SIZE
    {
      next, prev, items := null, before, seq(SIZE, i => Begin);
    }
  }

  ghost predicate LinkOk(frags: seq<Fragment>, i: nat)
    requires i < |frags|
    reads frags
  {
    && |frags[i].items| == SIZE
    && frags[i].prev == (if i == 0 then null else frags[i - 1])
    && frags[i].next == (if i == |frags| - 1 then null else frags[i + 1])
  }

  ghost predicate Linked(frags: seq<Fragment>)
    reads frags
  {
    && (forall i :: 0 <= i < |frags| ==> LinkOk(frags, i))
    && forall i, j :: 0 <= i < j < |frags| ==> frags[i] != frags[j]
  }

  ghost function Rows(frags: seq<Fragment>): (rows: seq<seq<Item>>)
    reads frags
    ensures |rows| == |frags| && forall i :: 0 <= i < |frags| ==> rows[i] == frags[i].items
    decreases |frags|
  {
    if frags == [] then [] else Rows(frags[..|frags| - 1]) + [frags[|frags| - 1].items]
  }

  lemma RowsFull(frags: seq<Fragment>)
    requires Linked(frags)
    ensures Full(Rows(frags))
  {
    forall i | 0 <= i < |frags|
      ensures |Rows(frags)[i]| == SIZE
    {
      assert LinkOk(frags, i);
    }
  }

  lemma DistinctLast(frags: seq<Fragment>)
    requires Linked(frags) && frags != []
    ensures forall j :: 0 <= j < |frags| - 1 ==> LinkOk(frags, j) && frags[j] != frags[|frags| - 1]
    ensures LinkOk(frags, |frags| - 1)
  {
  }

  /** The links once the last fragment points to a new one. */
  lemma JoinLinks(frags: seq<Fragment>, f: Fragment, all: seq<Fragment>)
    requires frags != [] && all == frags + [f] && f !in frags
    requires forall i, j :: 0 <= i < j < |frags| ==> frags[i] != frags[j]
    requires forall j :: 0 <= j < |frags| - 1 ==> LinkOk(frags, j)
    requires var n := |frags| - 1;
      |frags[n].items| == SIZE && frags[n].next == f && frags[n].prev == (if n == 0 then null else frags[n - 1])
    requires f.prev == frags[|frags| - 1] && f.next == null && |f.items| == SIZE
    ensures Linked(all)
  {
    forall j | 0 <= j < |all|
      ensures LinkOk(all, j)
    {
      if j < |frags| - 1 {
        assert LinkOk(frags, j);
      }
    }
  }

  /** All fragments of a stack and of its clones, from the first one. */
  class Chain {
    ghost var frags: seq<Fragment>

    ghost constructor ()
      ensures frags == []
    {
      frags := [];
    }
  }

  /** Item `p` is at `index` in `last`. */
  ghost predicate Ends(frags: seq<Fragment>, last: Fragment?, index: nat, p: nat) {
    p / SIZE < |frags| && last == frags[p / SIZE] && index == p % SIZE
  }

  lemma EndsBefore(frags: seq<Fragment>, last: Fragment?, index: nat, p: nat)
    requires Linked(frags) && Ends(frags, last, index, p) && p > 0
    ensures last != null
    ensures index > 0 ==> Ends(frags, last, index - 1, p - 1)
    ensures index == 0 ==> Ends(frags, last.prev, SIZE - 1, p - 1)
  {
    NextPlace(p - 1);
    assert LinkOk(frags, p / SIZE);
  }

  lemma EndsFirst(frags: seq<Fragment>, last: Fragment?, index: nat)
    requires Linked(frags) && Ends(frags, last, index, 0)
    ensures last != null && index == 0 && last.prev == null
  {
    assert LinkOk(frags, 0);
  }

  lemma EndsIn(frags: seq<Fragment>, last: Fragment?, index: nat, p: nat)
    requires Ends(frags, last, index, p)
    ensures last != null && last in frags && index < SIZE
  {
    Place(p);
  }

  lemma EndsItem(frags: seq<Fragment>, last: Fragment?, index: nat, p: nat)
    requires Linked(frags) && Ends(frags, last, index, p)
    ensures last != null && last in frags
    ensures Full(Rows(frags)) && p < |frags| * SIZE && index < |last.items| && last.items[index] == Cell(Rows(frags), p)
  {
    RowsFull(frags);
    Place(p);
    assert LinkOk(frags, p / SIZE);
  }

  class Stack {
    var first: Fragment?
    var last: Fragment?
    var index: nat
    var count: nat
    ghost var chain: Chain

    /** The last item is item `count - 1` of the chain; with no items there is no last
        fragment, but fragments may have been kept. */
    ghost predicate Valid()
      reads this, chain, chain.frags
    {
      && Linked(chain.frags) && index < SIZE && count <= |chain.frags| * SIZE
      && (if chain.frags == [] then first == null else first == chain.frags[0])
      && (if count == 0 then last == null && index == SIZE - 1 else Ends(chain.frags, last, index, count - 1))
    }

    ghost function Contents(): (s: seq<Item>)
      requires Valid()
      reads this, chain, chain.frags
      ensures |s| == count
    {
      RowsFull(chain.frags);
      Flat(Rows(chain.frags), count)
    }

    /** `stack_init`. */
    constructor ()
      ensures Valid() && fresh(chain) && chain.frags == [] && Contents() == []
    {
      first, last, index, count := null, null, SIZE - 1, 0;
      chain := new Chain();
    }

    /** `stack_top`. */
    method Top() returns (item: Item)
      requires Valid() && count > 0
      ensures item == Contents()[count - 1]
    {
      EndsItem(chain.frags, last, index, count - 1);
      item := last.items[index];
    }

    /** `stack_pop`: fragments stay where they are, so nothing but this stack changes. */
    method Pop() returns (item: Item)
      requires Valid() && count > 0
      modifies this`last, this`index, this`count
      ensures Valid() && count == old(count) - 1
      ensures Contents() + [item] == old(Contents())
    {
      hide Linked, Flat, Ends, Rows;
      ghost var rows := Rows(chain.frags);
      item := Top();
      RowsFull(chain.frags);
      FlatPrefix(rows, count - 1, count);
      if count == 1 {
        EndsFirst(chain.frags, last, index);
      } else {
        EndsBefore(chain.frags, last, index, count - 1);
      }
      if index > 0 {
        index := index - 1;
      } else {
        last := last.prev;
        index := SIZE - 1;
      }
      count := count - 1;
    }

    /** A new fragment after the last one. */
    method AppendFragment(ghost frags: seq<Fragment>, f: Fragment)
      requires Linked(frags) && frags != [] && last == frags[|frags| - 1] && chain.frags == frags
      requires f !in frags && f.next == null && f.prev == last && |f.items| == SIZE
      modifies chain, last
      ensures chain.frags == frags + [f] && Linked(chain.frags)
      ensures last.items == old(last.items)
    {
      DistinctLast(frags);
      last.next := f;
      chain.frags := frags + [f];
      JoinLinks(frags, f, chain.frags);
    }

    /** The next fragment, a new one if there is none. */
    method Advance(ghost i: nat)
      requires Linked(chain.frags) && i < |chain.frags| && last == chain.frags[i]
      modifies this`last, chain, last
      ensures Linked(chain.frags) && i + 1 < |chain.frags| && last == chain.frags[i + 1]
      ensures forall f :: f in chain.frags ==> f in old(chain.frags) || fresh(f)
      ensures Extends(old(chain.frags), old(Rows(chain.frags)), chain.frags, i + 1 < |old(chain.frags)|)
    {
      ghost var frags := chain.frags;
      assert LinkOk(frags, i);
      if last.next == null {
        assert i == |frags| - 1;
        var f := new Fragment(last);
        assert f !in frags;
        assert Linked(frags);
        AppendFragment(frags, f);
        last := f;
      } else {
        last := last.next;
      }
    }

    /** One place further. */
    method StepUp(ghost p: nat)
      requires Linked(chain.frags) && Ends(chain.frags, last, index, p)
      modifies this`last, this`index, chain, chain.frags
      ensures Linked(chain.frags) && Ends(chain.frags, last, index, p + 1)
      ensures forall f :: f in chain.frags ==> f in old(chain.frags) || fresh(f)
      ensures Extends(old(chain.frags), old(Rows(chain.frags)), chain.frags, p + 1 < |old(chain.frags)| * SIZE)
    {
      hide Extends, Linked;
      ghost var frags := chain.frags;
      Unextended(frags, Rows(frags));
      NextPlace(p);
      RoomLeft(|frags|, p + 1);
      index := index + 1;
      if index >= SIZE {
        index := 0;
        Advance(p / SIZE);
      }
    }

    /** `last` and `index` become those of the next item. */
    method MakeRoom()
      requires Valid()
      modifies this`first, this`last, this`index, chain, chain.frags
      ensures Linked(chain.frags) && chain.frags != [] && first == chain.frags[0]
      ensures Ends(chain.frags, last, index, count)
      ensures forall f :: f in chain.frags ==> f in old(chain.frags) || fresh(f)
      ensures Extends(old(chain.frags), old(Rows(chain.frags)), chain.frags, count < |old(chain.frags)| * SIZE)
    {
      hide Extends, Linked;
      ghost var frags, rows := chain.frags, Rows(chain.frags);
      Unextended(frags, rows);
      if last != null {
        StepUp(count - 1);
        ExtendsSize(frags, rows, chain.frags, count < |frags| * SIZE);
        NotEmpty(chain.frags, last, index, count);
      } else if first == null {
        last := new Fragment(null);
        first := last;
        index := 0;
        chain.frags := [last];
        SingleFragment(chain.frags, frags, rows);
      } else {
        last := first;
        index := 0;
      }
    }

    /** `stack_push`; running out of memory is not modelled. */
    method Push(x: Item)
      requires Valid()
      modifies this`first, this`last, this`index, this`count, chain, chain.frags
      ensures Valid() && count == old(count) + 1
      ensures Contents() == old(Contents()) + [x]
      ensures Stores(old(chain.frags), old(Rows(chain.frags)), old(count), x, chain.frags)
      ensures forall i :: 0 <= i < |chain.frags| ==> chain.frags[i] in old(chain.frags) || fresh(chain.frags[i])
    {
      hide Extends, Linked, Flat, Ends, Cell, Stores, With, Full, Rows;
      ghost var frags, rows := chain.frags, Rows(chain.frags);
      RowsFull(frags);
      MakeRoom();
      ghost var now, room := chain.frags, Rows(chain.frags);
      ExtendedRows(frags, rows, now, count < |frags| * SIZE);
      EndsIn(now, last, index, count);
      PutItem(now, count, x);
      Pushed(frags, rows, now, room, count - 1, x);
    }

    /** The item at `index` in `last` is written and counted. */
    method PutItem(ghost frags: seq<Fragment>, ghost p: nat, x: Item)
      requires Linked(frags) && Ends(frags, last, index, p)
      modifies last, this`count
      ensures count == old(count) + 1
      ensures Full(old(Rows(frags))) && p < |frags| * SIZE && Linked(frags)
        && Rows(frags) == With(old(Rows(frags)), p, x)
    {
      hide Linked, Ends, Rows, Full, With;
      EndsIn(frags, last, index, p);
      WriteCell(last, index, frags, p, x);
      count := count + 1;
    }

    /** `stack_clone`: the clone has the same fragments. */
    constructor Clone(src: Stack)
      requires src.Valid()
      ensures Valid() && chain == src.chain && count == src.count && Contents() == src.Contents()
    {
      first, last, index, count, chain := src.first, src.last, src.index, src.count, src.chain;
    }

    /** The first loop of `stack_push_copy`: `last` and `index` go `items` places up. */
    method Allocate(items: nat, ghost p: nat)
      requires Linked(chain.frags) && Ends(chain.frags, last, index, p)
      modifies this`last, this`index, chain, chain.frags
      ensures Linked(chain.frags) && Ends(chain.frags, last, index, p + items)
      ensures Prolongs(old(chain.frags), old(Rows(chain.frags)), chain.frags)
      ensures forall f :: f in chain.frags ==> f in old(chain.frags) || fresh(f)
    {
      hide Extends, Linked, Rows, Ends, Prolongs;
      ghost var frags, rows := chain.frags, Rows(chain.frags);
      Unprolonged(frags, rows);
      var counter := items;
      ghost var q: nat := p;
      while counter > 0
        invariant Linked(chain.frags) && Ends(chain.frags, last, index, q) && q + counter == p + items && counter >= 0
        invariant Prolongs(frags, rows, chain.frags)
        invariant forall f :: f in chain.frags ==> f in frags || fresh(f)
      {
        EndsIn(chain.frags, last, index, q);
        if index + counter >= SIZE {
          counter := counter - (SIZE - index - 1 + 1);
          q := NextFragment(q, frags, rows);
        } else {
          EndsFurther(chain.frags, last, index, q, counter);
          index := index + counter;
          q := q + counter;
          counter := 0;
        }
      }
    }

    /** To the first place of the next fragment. */
    method NextFragment(ghost q: nat, ghost frags: seq<Fragment>, ghost rows: seq<seq<Item>>) returns (ghost r: nat)
      requires Linked(chain.frags) && Ends(chain.frags, last, index, q) && Prolongs(frags, rows, chain.frags)
      modifies this`last, this`index, chain, last
      ensures Linked(chain.frags) && Ends(chain.frags, last, index, r) && r == q + SIZE - old(index)
      ensures Prolongs(frags, rows, chain.frags)
      ensures forall f :: f in chain.frags ==> f in old(chain.frags) || fresh(f)
    {
      hide Extends, Linked, Rows;
      ghost var now, before := chain.frags, Rows(chain.frags);
      Place(q);
      index := 0;
      Advance(q / SIZE);
      ProlongsMore(frags, rows, now, before, chain.frags, q / SIZE + 1 < |now|);
      PlaceOf(q / SIZE + 1, 0);
      r := (q / SIZE + 1) * SIZE;
    }

    /** The second loop of `stack_push_copy`: `length` items from place `p` down go to the
        places from `d` down, the last item first. */
    static method CopyDown(frag1: Fragment?, ind1: nat, frag2: Fragment?, ind2: nat, length: nat,
                           ghost frags: seq<Fragment>, ghost p: nat, ghost d: nat)
      requires Linked(frags) && length <= p + 1 && p < d
      requires Ends(frags, frag1, ind1, p) && Ends(frags, frag2, ind2, d)
      modifies frags
      ensures Linked(frags) && Full(old(Rows(frags))) && Full(Rows(frags))
      ensures Copied(old(Rows(frags)), Rows(frags), p, d, length)
    {
      hide Linked, Ends, Rows, Full, Copied, With;
      var from, i, to, j, left := frag1, ind1, frag2, ind2, length;
      ghost var rows := Rows(frags);
      RowsFull(frags);
      EndsItem(frags, to, j, d);
      CopiedNone(rows, p, d);
      while left > 0
        invariant 0 <= left <= length && Linked(frags) && Full(Rows(frags)) && |Rows(frags)| == |rows|
        invariant left > 0 ==> Ends(frags, from, i, p - (length - left)) && Ends(frags, to, j, d - (length - left))
        invariant Copied(rows, Rows(frags), p, d, length - left)
      {
        ghost var k := length - left;
        CopiedMore(rows, Rows(frags), p, d, k);
        from, i, to, j := CopyOne(from, i, to, j, frags, p - k, d - k, left > 1);
        left := left - 1;
      }
    }

    /** One item, and both places one further down. */
    static method CopyOne(frag1: Fragment?, ind1: nat, frag2: Fragment?, ind2: nat, ghost frags: seq<Fragment>,
                          ghost p: nat, ghost d: nat, ghost more: bool)
      returns (from: Fragment?, i: nat, to: Fragment?, j: nat)
      requires Linked(frags) && p < d && Ends(frags, frag1, ind1, p) && Ends(frags, frag2, ind2, d) && (more ==> p > 0)
      modifies frags
      ensures Linked(frags) && Full(old(Rows(frags))) && p < d < |frags| * SIZE
      ensures Rows(frags) == With(old(Rows(frags)), d, Cell(old(Rows(frags)), p))
      ensures more ==> Ends(frags, from, i, p - 1) && Ends(frags, to, j, d - 1)
    {
      hide Linked, Ends, Rows, Full, With, Cell;
      EndsItem(frags, frag1, ind1, p);
      EndsItem(frags, frag2, ind2, d);
      WriteCell(frag2, ind2, frags, d, frag1.items[ind1]);
      EndsBefore(frags, frag2, ind2, d);
      if p > 0 {
        EndsBefore(frags, frag1, ind1, p);
      } else {
        EndsFirst(frags, frag1, ind1);
      }
      from, i, to, j := frag1, ind1, frag2, ind2;
      if i == 0 {
        i := SIZE;
        from := from.prev;
      }
      if j == 0 {
        j := SIZE;
        to := to.prev;
      }
      i := i - 1;
      j := j - 1;
    }

    static method WriteCell(to: Fragment, index: nat, ghost frags: seq<Fragment>, ghost d: nat, x: Item)
      requires Linked(frags) && Ends(frags, to, index, d)
      modifies to
      ensures Full(old(Rows(frags))) && d < |frags| * SIZE && Linked(frags)
        && Rows(frags) == With(old(Rows(frags)), d, x)
    {
      EndsItem(frags, to, index, d);
      assert LinkOk(frags, d / SIZE);
      ghost var rows := Rows(frags);
      to.items := to.items[index := x];
      forall i | 0 <= i < |frags|
        ensures LinkOk(frags, i)
      {
        assert old(LinkOk(frags, i));
      }
    }

    /** `stack_push_copy`: the top `length` items move up by `items` places, also where the
        two ranges overlap. */
    method PushCopy(items: nat, length: nat)
      requires Valid() && 0 < items <= length <= count
      modifies this`last, this`index, this`count, chain, chain.frags
      ensures Valid() && count == old(count) + items
      ensures Contents() == RegexIterate.PushCopy(old(Contents()), items, length)
      ensures |old(chain.frags)| <= |chain.frags| && chain.frags[..|old(chain.frags)|] == old(chain.frags)
      ensures Shifted(old(Rows(chain.frags)), Rows(chain.frags), old(count) + items - length)
      ensures forall i :: 0 <= i < |chain.frags| ==> chain.frags[i] in old(chain.frags) || fresh(chain.frags[i])
    {
      hide Linked, Ends, Rows, Full, Copied, With, Prolongs, Flat, Cell, Shifted;
      ghost var frags, rows := chain.frags, Rows(chain.frags);
      RowsFull(frags);
      var frag1, ind1 := last, index;
      Allocate(items, count - 1);
      ghost var now, room := chain.frags, Rows(chain.frags);
      RowsFull(now);
      assert forall i :: 0 <= i < |now| ==> now[i] in frags || fresh(now[i]);
      Prolonged(frags, rows, now);
      StillEnds(frags, now, frag1, ind1, count - 1);
      CopyUp(frag1, ind1, items, length);
      CopiedFlat(rows, room, Rows(now), count - items, items, length);
    }

    /** The copying, and the new number of items. */
    method CopyUp(frag1: Fragment?, ind1: nat, items: nat, length: nat)
      requires Linked(chain.frags) && 0 < items <= length <= count
      requires Ends(chain.frags, frag1, ind1, count - 1) && Ends(chain.frags, last, index, count - 1 + items)
      modifies this`count, chain.frags
      ensures Linked(chain.frags) && count == old(count) + items && Full(old(Rows(chain.frags)))
        && Full(Rows(chain.frags))
      ensures Copied(old(Rows(chain.frags)), Rows(chain.frags), old(count) - 1, old(count) - 1 + items, length)
      ensures index < SIZE
    {
      hide Linked, Ends, Rows, Full, Copied;
      EndsIn(chain.frags, last, index, count - 1 + items);
      CopyDown(frag1, ind1, last, index, length, chain.frags, count - 1, count - 1 + items);
      count := count + items;
    }

    /** A push on a clone from which items were popped replaces an item of the original:
        the two share their fragments. */
    method PushUnder(other: Stack, x: Item)
      requires Valid() && other.Valid() && other != this && other.chain == chain && count < other.count
      modifies this`first, this`last, this`index, this`count, chain, chain.frags
      ensures Valid() && Contents() == old(Contents()) + [x]
      ensures other.Valid() && other.Contents() == old(other.Contents())[old(count) := x]
      ensures forall i :: 0 <= i < |chain.frags| ==> chain.frags[i] in old(chain.frags) || fresh(chain.frags[i])
    {
      hide Linked, Ends, Rows, Full, With, Flat, Cell;
      ghost var rows, p := Rows(chain.frags), count;
      RowsFull(chain.frags);
      Push(x);
      FlatWith(rows, p, x, other.count);
    }

    /** Copying on the original leaves a clone alone that has none of the moved items. */
    method PushCopyOver(other: Stack, items: nat, length: nat)
      requires Valid() && other.Valid() && other != this && other.chain == chain
      requires 0 < items <= length <= count && other.count <= count + items - length && chain.frags != []
      modifies this`last, this`index, this`count, chain, chain.frags
      ensures count == old(count) + items
      ensures Valid() && Contents() == RegexIterate.PushCopy(old(Contents()), items, length)
      ensures other.Valid() && other.Contents() == old(other.Contents())
      ensures forall i :: 0 <= i < |chain.frags| ==> chain.frags[i] in old(chain.frags) || fresh(chain.frags[i])
    {
      hide Linked, Ends, Rows, Full, Flat, Cell, Shifted, RegexIterate.PushCopy;
      ghost var frags, rows := chain.frags, Rows(chain.frags);
      RowsFull(frags);
      PushCopy(items, length);
      if other.count > 0 {
        StillEnds(frags, chain.frags, other.last, other.index, other.count - 1);
      }
      ShiftedFlat(rows, Rows(chain.frags), count - length, other.count);
      assert chain.frags[0] == chain.frags[..|frags|][0];
    }
  }

  lemma Prolonged(frags: seq<Fragment>, rows: seq<seq<Item>>, now: seq<Fragment>)
    requires Prolongs(frags, rows, now)
    ensures |rows| == |frags| <= |now| && now[..|frags|] == frags && Rows(now)[..|rows|] == rows
    ensures frags != [] ==> now[0] == frags[0]
  {
  }

  lemma StillEnds(frags: seq<Fragment>, now: seq<Fragment>, last: Fragment?, index: nat, p: nat)
    requires Ends(frags, last, index, p) && |frags| <= |now| && now[..|frags|] == frags
    ensures Ends(now, last, index, p)
  {
  }

  /** The items of places `p` down, `n` of them, are also at places `d` down. */
  ghost predicate Copied(rows: seq<seq<Item>>, now: seq<seq<Item>>, p: int, d: int, n: int)
    requires Full(rows) && Full(now)
  {
    && |now| == |rows| && n <= p + 1 && p < d < |rows| * SIZE
    && forall q: nat :: q < |rows| * SIZE ==> Cell(now, q) == Cell(rows, if d - n < q <= d then q - (d - p) else q)
  }

  lemma CopiedNone(rows: seq<seq<Item>>, p: nat, d: nat)
    requires Full(rows) && p < d < |rows| * SIZE
    ensures Copied(rows, rows, p, d, 0)
  {
  }

  lemma CopiedMore(rows: seq<seq<Item>>, now: seq<seq<Item>>, p: nat, d: nat, n: nat)
    requires Full(rows) && Full(now) && Copied(rows, now, p, d, n) && n <= p
    ensures Full(With(now, d - n, Cell(now, p - n))) && Copied(rows, With(now, d - n, Cell(now, p - n)), p, d, n + 1)
  {
    hide Cell, With;
    var after := With(now, d - n, Cell(now, p - n));
    forall q: nat | q < |rows| * SIZE
      ensures Cell(after, q) == Cell(rows, if d - (n + 1) < q <= d then q - (d - p) else q)
    {
      CellWith(now, d - n, Cell(now, p - n), q);
    }
  }

  /** Nothing below place `n` has changed. */
  ghost predicate Shifted(rows: seq<seq<Item>>, now: seq<seq<Item>>, n: int) {
    Full(rows) && Full(now) && |rows| <= |now| && forall q: nat :: q < n && q < |rows| * SIZE ==>
      Cell(now, q) == Cell(rows, q)
  }

  lemma CopiedFlat(rows: seq<seq<Item>>, room: seq<seq<Item>>, now: seq<seq<Item>>, count: nat, items: nat, length: nat)
    requires Full(rows) && Full(room) && Full(now) && |rows| <= |room| && room[..|rows|] == rows
      && 0 < items <= length <= count <= |rows| * SIZE
    requires Copied(room, now, count - 1, count - 1 + items, length)
    ensures count + items <= |now| * SIZE && Shifted(rows, now, count + items - length)
    ensures Flat(now, count + items) == RegexIterate.PushCopy(Flat(rows, count), items, length)
  {
    hide Cell, Flat;
    FlatGrown(rows, room, count);
    var f, g := Flat(now, count + items), Flat(room, count);
    forall q | 0 <= q < count + items
      ensures f[q] == RegexIterate.PushCopy(g, items, length)[q]
    {
      assert f[q] == Cell(now, q);
    }
    forall q: nat | q < count + items - length && q < |rows| * SIZE
      ensures Cell(now, q) == Cell(rows, q)
    {
      CellGrown(rows, room, q);
    }
  }

  lemma ShiftedFlat(rows: seq<seq<Item>>, now: seq<seq<Item>>, n: int, m: nat)
    requires Shifted(rows, now, n) && m <= n && m <= |rows| * SIZE
    ensures m <= |now| * SIZE && Flat(now, m) == Flat(rows, m)
  {
    hide Cell;
  }

  lemma CellGrown(rows: seq<seq<Item>>, more: seq<seq<Item>>, q: nat)
    requires Full(rows) && Full(more) && |rows| <= |more| && more[..|rows|] == rows && q < |rows| * SIZE
    ensures Cell(more, q) == Cell(rows, q)
  {
    InRow(q, |rows|);
  }

  lemma EndsFurther(frags: seq<Fragment>, last: Fragment?, index: nat, q: nat, more: nat)
    requires Ends(frags, last, index, q) && index + more < SIZE
    ensures Ends(frags, last, index + more, q + more)
  {
    Place(q);
    PlaceOf(q / SIZE, index + more);
  }

  /** The chain and its items are as they were, apart from new fragments at the end. */
  ghost predicate Prolongs(frags: seq<Fragment>, rows: seq<seq<Item>>, now: seq<Fragment>)
    reads now
  {
    |rows| == |frags| <= |now| && now[..|frags|] == frags && Rows(now)[..|rows|] == rows
  }

  lemma Unprolonged(frags: seq<Fragment>, rows: seq<seq<Item>>)
    requires rows == Rows(frags)
    ensures Prolongs(frags, rows, frags)
  {
    assert frags[..|frags|] == frags && rows[..|rows|] == rows;
  }

  lemma ProlongsMore(frags: seq<Fragment>, rows: seq<seq<Item>>, now: seq<Fragment>, before: seq<seq<Item>>,
                     after: seq<Fragment>, same: bool)
    requires |rows| == |frags| <= |now| == |before| && now[..|frags|] == frags && before[..|rows|] == rows
    requires Extends(now, before, after, same)
    ensures Prolongs(frags, rows, after)
  {
    assert after[..|frags|] == after[..|now|][..|frags|];
    assert Rows(after)[..|rows|] == rows;
  }

  /** One item was written; if there was no room for it a fragment was added. */
  ghost predicate Stores(frags: seq<Fragment>, rows: seq<seq<Item>>, p: nat, x: Item, now: seq<Fragment>)
    reads now
  {
    && Full(rows) && |rows| == |frags|
    && (p < |rows| * SIZE ==> now == frags && Rows(now) == With(rows, p, x))
    && |frags| <= |now| && now[..|frags|] == frags
    && (p >= |rows| * SIZE ==> Rows(now)[..|rows|] == rows)
  }

  lemma NotEmpty(frags: seq<Fragment>, last: Fragment?, index: nat, p: nat)
    requires Ends(frags, last, index, p)
    ensures frags != []
  {
  }

  /** The chain and its items are as they were, apart from a new fragment at the end. */
  ghost predicate Extends(frags: seq<Fragment>, rows: seq<seq<Item>>, now: seq<Fragment>, same: bool)
    reads now
  {
    && (same ==> now == frags) && |frags| <= |now| <= |frags| + 1 && now[..|frags|] == frags
    && |rows| == |frags| && forall j :: 0 <= j < |frags| ==> now[j].items == rows[j]
  }

  lemma ExtendedRows(frags: seq<Fragment>, rows: seq<seq<Item>>, now: seq<Fragment>, same: bool)
    requires Extends(frags, rows, now, same)
    ensures |rows| == |frags| <= |now| && Rows(now)[..|rows|] == rows && now[..|frags|] == frags
      && (same ==> now == frags && Rows(now) == rows)
  {
  }

  lemma StoresOf(frags: seq<Fragment>, rows: seq<seq<Item>>, now: seq<Fragment>, room: seq<seq<Item>>, p: nat, x: Item)
    requires Full(rows) && Full(room) && |rows| == |frags| <= |now| && |room| == |now| && now[..|frags|] == frags
      && room[..|rows|] == rows
    requires p < |room| * SIZE && (p < |rows| * SIZE ==> now == frags && room == rows)
    requires Rows(now) == With(room, p, x)
    ensures Stores(frags, rows, p, x, now)
  {
    if p >= |rows| * SIZE {
      InRow(p, |room|);
      Place(p);
      assert p / SIZE >= |rows|;
    }
  }

  lemma Pushed(frags: seq<Fragment>, rows: seq<seq<Item>>, now: seq<Fragment>, room: seq<seq<Item>>, p: nat, x: Item)
    requires Full(rows) && Full(room) && |rows| == |frags| <= |now| && |room| == |now| && now[..|frags|] == frags
      && room[..|rows|] == rows
    requires p <= |rows| * SIZE && p < |room| * SIZE && (p < |rows| * SIZE ==> now == frags && room == rows)
    requires Rows(now) == With(room, p, x)
    ensures Stores(frags, rows, p, x, now) && Full(Rows(now)) && p + 1 <= |now| * SIZE
      && Flat(Rows(now), p + 1) == Flat(rows, p) + [x]
  {
    hide Flat, With, Full, Stores, Cell;
    FlatGrown(rows, room, p);
    LastWith(room, p, x);
    StoresOf(frags, rows, now, room, p, x);
  }

  lemma Unextended(frags: seq<Fragment>, rows: seq<seq<Item>>)
    requires rows == Rows(frags)
    ensures forall same :: Extends(frags, rows, frags, same)
  {
  }

  lemma ExtendsSize(frags: seq<Fragment>, rows: seq<seq<Item>>, now: seq<Fragment>, same: bool)
    requires Extends(frags, rows, now, same)
    ensures |frags| <= |now| && (frags != [] ==> now[0] == frags[0])
  {
  }

  lemma SingleFragment(now: seq<Fragment>, frags: seq<Fragment>, rows: seq<seq<Item>>)
    requires frags == [] && rows == [] && |now| == 1 && now[0].next == null && now[0].prev == null
      && |now[0].items| == SIZE
    ensures Linked(now) && Extends(frags, rows, now, false)
  {
  }

  lemma RoomLeft(n: nat, count: nat)
    requires count > 0 && (count - 1) / SIZE < n
    ensures count % SIZE != 0 ==> count < n * SIZE
    ensures (count - 1) % SIZE + 1 >= SIZE ==> (count < n * SIZE <==> (count - 1) / SIZE + 1 < n)
    ensures (count - 1) % SIZE + 1 < SIZE ==> count < n * SIZE
  {
    Place(count - 1);
    NextPlace(count - 1);
    Place(count);
  }

  /** How `iterate` puts an open bracket before the top `items` items: a clone is popped down
      to them, the original moves them up by one place, and a push on the clone fills it. */
  method OpenBracket(stack: Stack, items: nat)
    requires stack.Valid() && 0 < items <= stack.count
    modifies stack`last, stack`index, stack`count, stack.chain, stack.chain.frags
    ensures stack.Valid() && stack.chain == old(stack.chain)
    ensures var s := old(stack.Contents()); var below := |s| - items;
      stack.Contents() == s[..below] + [OpenBr] + s[below..]
  {
    hide Linked, Ends, Rows, Full, Flat, Cell, RegexIterate.PushCopy;
    ghost var s := stack.Contents();
    var it := PoppedClone(stack, items);
    NotEmpty(stack.chain.frags, stack.last, stack.index, stack.count - 1);
    stack.PushCopyOver(it, 1, items);
    it.PushUnder(stack, OpenBr);
    Bracketed(s, items);
  }

  lemma Bracketed(s: seq<Item>, items: nat)
    requires 0 < items <= |s|
    ensures var below := |s| - items;
      RegexIterate.PushCopy(s, 1, items)[below := OpenBr] == s[..below] + [OpenBr] + s[below..]
  {
  }

  /** The clone without its top `items` items; the original is as it was. */
  method PoppedClone(stack: Stack, items: nat) returns (it: Stack)
    requires stack.Valid() && items <= stack.count
    ensures fresh(it) && it.Valid() && it.chain == stack.chain && it.count == stack.count - items
    ensures it.Contents() == stack.Contents()[..stack.count - items]
  {
    hide Linked, Ends, Rows, Full, Flat, Cell;
    it := new Stack.Clone(stack);
    ghost var s := stack.Contents();
    var k := 0;
    while k < items
      invariant 0 <= k <= items && it.Valid() && it.chain == stack.chain && it.count == stack.count - k
      invariant it.Contents() == s[..stack.count - k]
      modifies it
    {
      ghost var before := it.Contents();
      var item := it.Pop();
      assert it.Contents() == before[..|before| - 1];
      k := k + 1;
    }
  }
}
