/** `iterate` on the stack as it is in memory: a clone is popped to find the last term, and
    blocks are copied within the fragments. */
module FragmentIterate {
  import opened RegexSyntax
  import opened RegexRepeat
  import opened FragmentStack

  type Items = seq<Item>

  /** One item of the first loop: whether the term begins with it, and if not, how deep in
      brackets the walk is and what it has counted. */
  method Weigh(item: Item, depth0: nat, len0: nat, ghost below: Items) returns (found: bool, depth: nat, len: nat)
    requires RegexIterate.Scan(below + [item], depth0, len0).Found?
    ensures RegexIterate.Scan(below + [item], depth0, len0)
      == if found then RegexIterate.Found(|below|, len) else RegexIterate.Scan(below, depth, len)
  {
    found, depth, len := false, depth0, len0;
    assert (below + [item])[..|below|] == below;
    match item {
      case Id(_) | RngEnd | RngChar(_) | RngLeft(_) | RngRight(_) | PlusSign | QuestionMark =>
        len := len + 1;
      case Asterisk =>
        len := len + 2;
      case CloseBr =>
        depth := depth + 1;
      case OpenBr =>
        depth := depth - 1;
        found := depth == 0;
      case Select =>
        len := len + 2;
      case _ =>
        len := len + 1;
        found := depth == 0;
    }
  }

  lemma NothingFound(depth: nat, len: nat)
    ensures RegexIterate.Scan([], depth, len).Broken?
  {
  }

  /** The first loop: the clone is left below the last term. */
  method FindLast(stack: Stack) returns (it: Stack, len: nat)
    requires stack.Valid() && RegexIterate.Scan(stack.Contents(), 0, 0).Found?
    ensures fresh(it) && it.Valid() && it.chain == stack.chain && it.count <= stack.count
    ensures it.Contents() == stack.Contents()[..it.count]
    ensures RegexIterate.Scan(stack.Contents(), 0, 0) == RegexIterate.Found(it.count, len)
  {
    hide Linked, Ends, Rows, Full, Flat, Cell, RegexIterate.Scan;
    it := new Stack.Clone(stack);
    ghost var s := stack.Contents();
    assert s[..it.count] == s;
    var depth, found := 0, false;
    len := 0;
    while !found
      invariant it.Valid() && it.chain == stack.chain && it.count <= |s| && it.Contents() == s[..it.count]
      invariant RegexIterate.Scan(s, 0, 0)
        == if found then RegexIterate.Found(it.count, len) else RegexIterate.Scan(it.Contents(), depth, len)
      modifies it
      decreases it.count
    {
      NothingFound(depth, len);
      ghost var before := it.Contents();
      var item := it.Pop();
      assert it.Contents() == before[..|before| - 1] == s[..it.count];
      found, depth, len := Weigh(item, depth, len, it.Contents());
    }
  }

  /** `stack_clone` onto a stack that exists. */
  method CloneOnto(src: Stack, dst: Stack)
    requires src.Valid() && dst.Valid() && src.chain == dst.chain
    modifies dst`first, dst`last, dst`index, dst`count
    ensures dst.Valid() && dst.Contents() == old(src.Contents())
  {
    dst.first, dst.last, dst.index, dst.count := src.first, src.last, src.index, src.count;
  }

  /** `n` more copies of the block on top of the stack. */
  method AddCopies(stack: Stack, count: nat, n: nat, ghost base: Items, ghost s: Concat, ghost t: Term, ghost k: nat)
    requires stack.Valid() && stack.Contents() == base + ConcatItems(Copies(s, t, k + 1)) && count == |TermItems(t)|
    modifies stack`last, stack`index, stack`count, stack.chain, stack.chain.frags
    ensures stack.Valid() && stack.Contents() == base + ConcatItems(Copies(s, t, k + 1 + n))
    ensures forall i :: 0 <= i < |stack.chain.frags| ==>
      stack.chain.frags[i] in old(stack.chain.frags) || fresh(stack.chain.frags[i])
  {
    hide Linked, Ends, Rows, Full, Flat, Cell, Shifted, RegexIterate.PushCopy, ConcatItems, TermItems, Copies;
    var left := n;
    while left > 0
      invariant 0 <= left <= n && stack.Valid()
      invariant stack.Contents() == base + ConcatItems(Copies(s, t, k + 1 + (n - left)))
      invariant forall i :: 0 <= i < |stack.chain.frags| ==>
        stack.chain.frags[i] in old(stack.chain.frags) || fresh(stack.chain.frags[i])
    {
      RegexIterate.AddCopy(base, s, t, k + (n - left));
      stack.PushCopy(count, count);
      left := left - 1;
    }
  }

  /** The loops for an upper bound: mandatory copies, then copies of the block with its `?`. */
  method Multiply(stack: Stack, count: nat, min: nat, max: nat, ghost base: Items, ghost t: Term)
    requires max > 0 && min <= max && count == |TermItems(t)|
    requires stack.Valid() && stack.Contents() == base + ConcatItems(Copies(Empty, t, 1))
    modifies stack`first, stack`last, stack`index, stack`count, stack.chain, stack.chain.frags
    ensures stack.Valid() && stack.Contents() == base + ConcatItems(Expansion(t, min, max))
    ensures forall i :: 0 <= i < |stack.chain.frags| ==>
      stack.chain.frags[i] in old(stack.chain.frags) || fresh(stack.chain.frags[i])
  {
    hide Linked, Ends, Rows, Full, Flat, Cell, Stores, ConcatItems, TermItems, Copies;
    var more := max - min;
    NoneMore(Copies(Empty, t, min), Opt(t));
    if min > 0 {
      AddCopies(stack, count, min - 1, base, Empty, t, 0);
      if more > 0 {
        AddCopies(stack, count, 1, base, Empty, t, min - 1);
        AddOptional(stack, count, min, more, base, t);
      }
    } else {
      AddOptional(stack, count, 0, more, base, t);
    }
  }

  lemma NoneMore(s: Concat, t: Term)
    ensures Copies(s, t, 0) == s
  {
  }

  /** The last copy gets its `?`, and with it is copied for the rest. */
  method AddOptional(stack: Stack, count: nat, ghost min: nat, more: nat, ghost base: Items, ghost t: Term)
    requires more > 0 && count == |TermItems(t)|
    requires stack.Valid() && stack.Contents() == base + ConcatItems(Copies(Empty, t, min + 1))
    modifies stack`first, stack`last, stack`index, stack`count, stack.chain, stack.chain.frags
    ensures stack.Valid() && stack.Contents() == base + ConcatItems(Copies(Copies(Empty, t, min), Opt(t), more))
    ensures forall i :: 0 <= i < |stack.chain.frags| ==>
      stack.chain.frags[i] in old(stack.chain.frags) || fresh(stack.chain.frags[i])
  {
    hide Linked, Ends, Rows, Full, Flat, Cell, Stores, ConcatItems, TermItems, Copies;
    stack.Push(QuestionMark);
    RegexIterate.FirstOpt(base, t, min);
    AddCopies(stack, count + 1, more - 1, base, Copies(Empty, t, min), Opt(t), 0);
  }

  /** A bracket opens before the last term, which the clone `it` ends below. */
  method OpenGroup(stack: Stack, it: Stack, ghost pre: Items, ghost t: Term) returns (count: nat)
    requires stack.Valid() && stack.Contents() == pre + TermItems(t)
    requires it.Valid() && it != stack && it.chain == stack.chain && it.count == |pre|
    modifies stack`last, stack`index, stack`count, it, stack.chain, stack.chain.frags
    ensures stack.Valid() && stack.Contents() == pre + [OpenBr] + ConcatItems(Copies(Empty, t, 1))
    ensures count == |TermItems(t)|
    ensures forall i :: 0 <= i < |stack.chain.frags| ==>
      stack.chain.frags[i] in old(stack.chain.frags) || fresh(stack.chain.frags[i])
  {
    hide Linked, Ends, Rows, Full, Flat, Cell, Shifted, RegexIterate.PushCopy, TermItems, ConcatItems, Copies;
    RegexIterate.TermNotEmpty(t);
    RegexIterate.ShiftUp(pre, TermItems(t));
    RegexIterate.OneCopy(t);
    count := stack.count - it.count;
    NotEmpty(stack.chain.frags, stack.last, stack.index, stack.count - 1);
    stack.PushCopyOver(it, 1, count);
    it.PushUnder(stack, OpenBr);
  }

  /** The copies, and the closing bracket. */
  method Repeat(stack: Stack, count: nat, min: nat, max: nat, ghost pre: Items, ghost t: Term)
    requires (if max > 0 then min <= max else min > 0) && count == |TermItems(t)|
    requires stack.Valid() && stack.Contents() == pre + [OpenBr] + ConcatItems(Copies(Empty, t, 1))
    modifies stack`first, stack`last, stack`index, stack`count, stack.chain, stack.chain.frags
    ensures stack.Valid() && stack.Contents() == pre + TermItems(Iterated(t, min, max))
  {
    hide Linked, Ends, Rows, Full, Flat, Cell, Stores, TermItems, ConcatItems, Copies, Expansion;
    if max > 0 {
      Multiply(stack, count, min, max, pre + [OpenBr], t);
    } else {
      AddCopies(stack, count, min - 1, pre + [OpenBr], Empty, t, 0);
      stack.Push(PlusSign);
      RegexIterate.LastPlus(pre + [OpenBr], t, min);
    }
    stack.Push(CloseBr);
    RegexIterate.CloseGroup(pre, Expansion(t, min, max));
  }

  /** The term is deleted: the stack becomes the clone, with an empty bracket on top. */
  method Delete(stack: Stack, it: Stack, ghost pre: Items, ghost t: Term)
    requires stack.Valid() && it.Valid() && it.chain == stack.chain && it.Contents() == pre
    modifies stack`first, stack`last, stack`index, stack`count, stack.chain, stack.chain.frags
    ensures stack.Valid() && stack.Contents() == pre + TermItems(Iterated(t, 0, 0))
  {
    hide Linked, Ends, Rows, Full, Flat, Cell, Stores, TermItems, Iterated;
    RegexIterate.EmptyGroup(pre, t);
    CloneOnto(it, stack);
    stack.Push(OpenBr);
    stack.Push(CloseBr);
  }

  /** What `iterate` returns, from the weight `x` of the term. */
  function Gained(x: nat, min: nat, max: nat): int {
    if min == 0 && max == 0 then x else RegexIterate.IteratedSize(x, min, max) - x
  }

  method CountGain(x: nat, min: nat, max: nat) returns (len: nat)
    requires max > 0 ==> min <= max
    ensures len == Gained(x, min, max)
  {
    RegexIterate.Gain(x, min, max);
    len := x;
    if max > 0 {
      len := len * (max - 1);
      len := len + (max - min);
    } else if min > 0 {
      len := len * (min - 1) + 1;
    }
  }

  lemma LastFound(pre: Items, t: Term)
    ensures RegexIterate.Scan(pre + TermItems(t), 0, 0) == RegexIterate.Found(|pre|, TotalWeight(TermItems(t)))
    ensures (pre + TermItems(t))[..|pre|] == pre
  {
    hide RegexIterate.Scan, TotalWeight, TermItems;
    RegexIterate.ScanTerm(pre, t, 0, 0);
  }

  /** `iterate`: the last term X on the stack becomes one bracketed term for X{min,max}; the
      returned number is what `dfa_size` gains, or loses when the term is dropped. */
  method Iterate(stack: Stack, min: nat, max: nat, ghost pre: Items, ghost t: Term) returns (len: nat)
    requires stack.Valid() && stack.Contents() == pre + TermItems(t) && (max > 0 ==> min <= max)
    modifies stack`first, stack`last, stack`index, stack`count, stack.chain, stack.chain.frags
    ensures stack.Valid() && stack.Contents() == pre + TermItems(Iterated(t, min, max))
    ensures len == Gained(TotalWeight(TermItems(t)), min, max)
  {
    hide Linked, Ends, Rows, Full, Flat, Cell, Stores, TermItems, ConcatItems, TotalWeight, Copies, Iterated, Gained,
      RegexIterate.Scan;
    LastFound(pre, t);
    var it;
    it, len := FindLast(stack);
    if min == 0 && max == 0 {
      Delete(stack, it, pre, t);
    } else {
      var count := OpenGroup(stack, it, pre, t);
      Repeat(stack, count, min, max, pre, t);
    }
    len := CountGain(len, min, max);
  }
}
