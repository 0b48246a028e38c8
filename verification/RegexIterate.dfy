/** `iterate` on the item stack: the last term is found by popping a clone, and
    multiplied by block copies at the top of the stack. */
module RegexIterate {
  import opened RegexSyntax
  import opened RegexRepeat

  type Items = seq<Item>

  // ------------------------------------------------------ finding the last term

  /** The walk down a clone of the stack: how many items stay below the last
      term, and the term's share of `dfa_size`. */
  datatype Found = Found(below: nat, len: nat) | Broken

  function Scan(stack: Items, depth: nat, len: nat): Found {
    if stack == [] then Broken
    else
      var rest := stack[..|stack| - 1];
      match stack[|stack| - 1]
      case CloseBr => Scan(rest, depth + 1, len)
      case OpenBr =>
        if depth == 0 then Broken
        else if depth == 1 then Found(|rest|, len)
        else Scan(rest, depth - 1, len)
      case Select => if depth == 0 then Broken else Scan(rest, depth, len + 2)
      case Asterisk => Scan(rest, depth, len + 2)
      case PlusSign => Scan(rest, depth, len + 1)
      case QuestionMark => Scan(rest, depth, len + 1)
      case Id(_) => Scan(rest, depth, len + 1)
      case RngEnd => Scan(rest, depth, len + 1)
      case RngChar(_) => Scan(rest, depth, len + 1)
      case RngLeft(_) => Scan(rest, depth, len + 1)
      case RngRight(_) => Scan(rest, depth, len + 1)
      case _ => if depth == 0 then Found(|rest|, len + 1) else Scan(rest, depth, len + 1)
  }

  /** Items the walk passes without looking at the depth. */
  predicate IsInner(i: Item) {
    i.RngEnd? || i.RngChar? || i.RngLeft? || i.RngRight? || i.Id? || i.PlusSign? || i.QuestionMark? || i.Asterisk?
  }

  lemma Regroup(xs: Items, ys: Items, zs: Items)
    ensures xs + (ys + zs) == (xs + ys) + zs
  {
  }

  lemma ScanInner(pre: Items, i: Item, depth: nat, len: nat)
    requires IsInner(i)
    ensures Scan(pre + [i], depth, len) == Scan(pre, depth, len + Weight(i))
  {
    assert (pre + [i])[..|pre|] == pre;
  }

  lemma {:induction false} ScanMembers(pre: Items, ms: seq<Member>, depth: nat, len: nat)
    ensures Scan(pre + MembersItems(ms), depth, len) == Scan(pre, depth, len + TotalWeight(MembersItems(ms)))
    decreases |ms|
  {
    hide Scan;
    if ms == [] {
      assert pre + MembersItems(ms) == pre;
    } else {
      var first, rest := MemberItems(ms[0]), MembersItems(ms[1..]);
      assert pre + (first + rest) == (pre + first) + rest;
      TotalWeightConcat(first, rest);
      ScanMembers(pre + first, ms[1..], depth, len);
      ScanMember(pre, ms[0], depth, len + TotalWeight(rest));
    }
  }

  lemma ScanMember(pre: Items, m: Member, depth: nat, len: nat)
    ensures Scan(pre + MemberItems(m), depth, len) == Scan(pre, depth, len + TotalWeight(MemberItems(m)))
  {
    hide Scan;
    match m
    case One(c) =>
      ScanInner(pre, RngChar(c), depth, len);
      WeightOne(RngChar(c));
    case Span(lo, hi) =>
      ScanInner(pre + [RngLeft(lo)], RngRight(hi), depth, len);
      ScanInner(pre, RngLeft(lo), depth, len + 1);
      assert pre + [RngLeft(lo)] + [RngRight(hi)] == pre + MemberItems(m);
      TotalWeightConcat([RngLeft(lo)], [RngRight(hi)]);
      assert [RngLeft(lo)] + [RngRight(hi)] == MemberItems(m);
      WeightOne(RngLeft(lo));
      WeightOne(RngRight(hi));
  }

  /** Where the walk ends up after passing a whole term. */
  function After(pre: Items, depth: nat, len: nat): Found {
    if depth == 0 then Found(|pre|, len) else Scan(pre, depth, len)
  }

  lemma ScanStart(pre: Items, i: Item, depth: nat, len: nat)
    requires i.Chr? || i.RngStart?
    ensures Scan(pre + [i], depth, len) == After(pre, depth, len + 1)
  {
    assert (pre + [i])[..|pre|] == pre;
  }

  lemma ScanLit(pre: Items, l: Lit, depth: nat, len: nat)
    ensures Scan(pre + LitItems(l), depth, len) == After(pre, depth, len + TotalWeight(LitItems(l)))
  {
    hide Scan;
    match l
    case Single(c) =>
      ScanStart(pre, Chr(c), depth, len);
      WeightOne(Chr(c));
    case Class(invert, ms) =>
      var first, inner := [RngStart(invert)], MembersItems(ms);
      assert pre + LitItems(l) == ((pre + first) + inner) + [RngEnd];
      ScanInner((pre + first) + inner, RngEnd, depth, len);
      ScanMembers(pre + first, ms, depth, len + 1);
      ScanStart(pre, RngStart(invert), depth, len + 1 + TotalWeight(inner));
      TotalWeightConcat(first + inner, [RngEnd]);
      TotalWeightConcat(first, inner);
      WeightOne(RngEnd);
      WeightOne(RngStart(invert));
  }

  lemma {:induction false} ScanTerm(pre: Items, t: Term, depth: nat, len: nat)
    ensures Scan(pre + TermItems(t), depth, len) == After(pre, depth, len + TotalWeight(TermItems(t)))
    decreases t, 0
  {
    hide Scan, AltsItems, TotalWeight;
    match t
    case Atom(l) => ScanLit(pre, l, depth, len);
    case Group(g) => ScanGroup(pre, g, depth, len);
    case Star(b) => ScanTerm(pre, b, depth, len + 2); ScanPostfix(pre, b, Asterisk, depth, len);
    case Plus(b) => ScanTerm(pre, b, depth, len + 1); ScanPostfix(pre, b, PlusSign, depth, len);
    case Opt(b) => ScanTerm(pre, b, depth, len + 1); ScanPostfix(pre, b, QuestionMark, depth, len);
    case Tag(b, id) => ScanTerm(pre, b, depth, len + 1); ScanPostfix(pre, b, Id(id), depth, len);
  }

  lemma ScanPostfix(pre: Items, b: Term, op: Item, depth: nat, len: nat)
    requires IsInner(op)
    requires Scan(pre + TermItems(b), depth, len + Weight(op))
      == After(pre, depth, len + Weight(op) + TotalWeight(TermItems(b)))
    ensures Scan(pre + (TermItems(b) + [op]), depth, len)
      == After(pre, depth, len + TotalWeight(TermItems(b) + [op]))
  {
    hide Scan, TermItems, TotalWeight, Weight, After;
    var body := TermItems(b);
    assert pre + (body + [op]) == (pre + body) + [op];
    ScanInner(pre + body, op, depth, len);
    TotalWeightConcat(body, [op]);
    WeightOne(op);
    assert len + Weight(op) + TotalWeight(body) == len + TotalWeight(body + [op]);
  }

  lemma ScanOpen(pre: Items, depth: nat, len: nat)
    requires depth > 0
    ensures Scan(pre + [OpenBr], depth, len) == After(pre, depth - 1, len)
  {
    assert (pre + [OpenBr])[..|pre|] == pre;
  }

  lemma ScanClose(pre: Items, depth: nat, len: nat)
    ensures Scan(pre + [CloseBr], depth, len) == Scan(pre, depth + 1, len)
  {
    assert (pre + [CloseBr])[..|pre|] == pre;
  }

  lemma ScanSelect(pre: Items, depth: nat, len: nat)
    requires depth > 0
    ensures Scan(pre + [Select], depth, len) == Scan(pre, depth, len + 2)
  {
    assert (pre + [Select])[..|pre|] == pre;
  }

  lemma {:induction false} ScanGroup(pre: Items, g: Alts, depth: nat, len: nat)
    ensures Scan(pre + TermItems(Group(g)), depth, len)
      == After(pre, depth, len + TotalWeight(TermItems(Group(g))))
    decreases g, 1
  {
    hide Scan, AltsItems;
    var inner := AltsItems(g);
    var whole := [OpenBr] + inner + [CloseBr];
    assert TermItems(Group(g)) == whole;
    assert pre + whole == ((pre + [OpenBr]) + inner) + [CloseBr];
    ScanClose((pre + [OpenBr]) + inner, depth, len);
    ScanAlts(pre + [OpenBr], g, depth + 1, len);
    ScanOpen(pre, depth + 1, len + TotalWeight(inner));
    TotalWeightConcat([OpenBr] + inner, [CloseBr]);
    TotalWeightConcat([OpenBr], inner);
    WeightOne(OpenBr);
    WeightOne(CloseBr);
  }

  lemma ScanNothing(pre: Items, depth: nat, len: nat)
    ensures Scan(pre + [], depth, len) == Scan(pre, depth, len + TotalWeight([]))
  {
    assert pre + [] == pre;
  }

  lemma {:induction false} ScanConcat(pre: Items, s: Concat, depth: nat, len: nat)
    requires depth > 0
    ensures Scan(pre + ConcatItems(s), depth, len) == Scan(pre, depth, len + TotalWeight(ConcatItems(s)))
    decreases s, 0
  {
    hide Scan, TermItems, TotalWeight;
    match s
    case Empty => ScanNothing(pre, depth, len);
    case Snoc(init, t) =>
      Regroup(pre, ConcatItems(init), TermItems(t));
      ScanTerm(pre + ConcatItems(init), t, depth, len);
      ScanConcat(pre, init, depth, len + TotalWeight(TermItems(t)));
      TotalWeightConcat(ConcatItems(init), TermItems(t));
    case Note(init, id) =>
      Regroup(pre, ConcatItems(init), [Id(id)]);
      ScanInner(pre + ConcatItems(init), Id(id), depth, len);
      ScanConcat(pre, init, depth, len + 1);
      TotalWeightConcat(ConcatItems(init), [Id(id)]);
      WeightOne(Id(id));
  }

  lemma {:induction false} ScanAlts(pre: Items, g: Alts, depth: nat, len: nat)
    requires depth > 0
    ensures Scan(pre + AltsItems(g), depth, len) == Scan(pre, depth, len + TotalWeight(AltsItems(g)))
    decreases g, 0
  {
    hide Scan, ConcatItems;
    match g
    case Only(s) => ScanConcat(pre, s, depth, len);
    case Or(l, s) =>
      var left, right := AltsItems(l), ConcatItems(s);
      assert pre + (left + [Select] + right) == ((pre + left) + [Select]) + right;
      ScanConcat((pre + left) + [Select], s, depth, len);
      ScanSelect(pre + left, depth, len + TotalWeight(right));
      ScanAlts(pre, l, depth, len + TotalWeight(right) + 2);
      TotalWeightConcat(left + [Select], right);
      TotalWeightConcat(left, [Select]);
      WeightOne(Select);
  }

  method FindLast(stack: Items) returns (count: nat, len: nat)
    requires Scan(stack, 0, 0).Found?
    ensures Scan(stack, 0, 0) == Found(count, len)
  {
    var it, depth := stack, 0;
    len := 0;
    while true
      invariant depth >= 0 && Scan(it, depth, len) == Scan(stack, 0, 0)
      decreases |it|
    {
      var item := it[|it| - 1];
      it := it[..|it| - 1];
      match item {
        case Id(_) | RngEnd | RngChar(_) | RngLeft(_) | RngRight(_) | PlusSign | QuestionMark =>
          len := len + 1;
        case Asterisk =>
          len := len + 2;
        case CloseBr =>
          depth := depth + 1;
        case OpenBr =>
          depth := depth - 1;
          if depth == 0 {
            return |it|, len;
          }
        case Select =>
          len := len + 2;
        case _ =>
          len := len + 1;
          if depth == 0 {
            return |it|, len;
          }
      }
    }
  }

  // ------------------------------------------------------------- multiplying it

  /** `stack_push_copy`: the top `length` items are copied `items` places up. */
  function PushCopy(stack: Items, items: nat, length: nat): Items
    requires 0 < items <= length <= |stack|
  {
    stack[..|stack| - length + items] + stack[|stack| - length..]
  }

  lemma CopyTop(base: Items, block: Items)
    requires block != []
    ensures PushCopy(base + block, |block|, |block|) == base + block + block
  {
  }

  lemma {:induction false} TermNotEmpty(t: Term)
    ensures TermItems(t) != []
  {
  }

  lemma OneCopyMore(base: Items, s: Concat, t: Term, n: nat)
    ensures base + ConcatItems(Copies(s, t, n + 1)) == (base + ConcatItems(Copies(s, t, n))) + TermItems(t)
  {
    hide TermItems;
    assert Copies(s, t, n + 1) == Snoc(Copies(s, t, n), t);
    assert ConcatItems(Copies(s, t, n + 1)) == ConcatItems(Copies(s, t, n)) + TermItems(t);
  }

  lemma AddCopy(base: Items, s: Concat, t: Term, n: nat)
    ensures 0 < |TermItems(t)| <= |base + ConcatItems(Copies(s, t, n + 1))|
    ensures PushCopy(base + ConcatItems(Copies(s, t, n + 1)), |TermItems(t)|, |TermItems(t)|)
      == base + ConcatItems(Copies(s, t, n + 2))
  {
    hide TermItems, ConcatItems, Copies, PushCopy;
    TermNotEmpty(t);
    OneCopyMore(base, s, t, n);
    OneCopyMore(base, s, t, n + 1);
    CopyTop(base + ConcatItems(Copies(s, t, n)), TermItems(t));
  }

  lemma {:induction false} CopiesWeight(s: Concat, t: Term, n: nat)
    ensures TotalWeight(ConcatItems(Copies(s, t, n)))
      == TotalWeight(ConcatItems(s)) + n * TotalWeight(TermItems(t))
    decreases n
  {
    hide TermItems, TotalWeight;
    if n > 0 {
      var x := TotalWeight(TermItems(t));
      CopiesWeight(s, t, n - 1);
      TotalWeightConcat(ConcatItems(Copies(s, t, n - 1)), TermItems(t));
      assert (n - 1) * x + x == n * x;
    }
  }

  lemma ShiftUp(pre: Items, items: Items)
    requires items != []
    ensures var moved := PushCopy(pre + items, 1, |items|);
      |moved| == |pre| + |items| + 1 && moved[|pre| := OpenBr] == pre + [OpenBr] + items
  {
    var moved := PushCopy(pre + items, 1, |items|);
    assert moved == (pre + items)[..|pre| + 1] + (pre + items)[|pre|..];
    assert (pre + items)[|pre|..] == items;
  }

  lemma OneCopy(t: Term)
    ensures ConcatItems(Copies(Empty, t, 1)) == TermItems(t)
  {
    hide TermItems;
    assert Copies(Empty, t, 1) == Snoc(Copies(Empty, t, 0), t);
    assert ConcatItems(Empty) + TermItems(t) == TermItems(t);
  }

  /** The first copy moves up by one place and a bracket takes the free place. */
  method OpenGroup(stack0: Items, below: nat, ghost pre: Items, ghost t: Term) returns (stack: Items)
    requires stack0 == pre + TermItems(t) && below == |pre|
    ensures stack == pre + [OpenBr] + ConcatItems(Copies(Empty, t, 1))
  {
    hide PushCopy, TermItems, ConcatItems, Copies;
    TermNotEmpty(t);
    ShiftUp(pre, TermItems(t));
    OneCopy(t);
    stack := PushCopy(stack0, 1, |stack0| - below);
    stack := stack[below := OpenBr];
  }

  /** `n` more copies of the block on top of the stack. */
  method AddCopies(stack0: Items, count: nat, n: nat, ghost base: Items, ghost s: Concat, ghost t: Term, ghost k: nat)
    returns (stack: Items)
    requires stack0 == base + ConcatItems(Copies(s, t, k + 1)) && count == |TermItems(t)|
    ensures stack == base + ConcatItems(Copies(s, t, k + 1 + n))
  {
    hide PushCopy;
    stack := stack0;
    var left := n;
    while left > 0
      invariant 0 <= left <= n
      invariant stack == base + ConcatItems(Copies(s, t, k + 1 + (n - left)))
    {
      AddCopy(base, s, t, k + (n - left));
      stack := CopyBlock(stack, count);
      left := left - 1;
    }
  }

  method CopyBlock(stack0: Items, count: nat) returns (stack: Items)
    requires 0 < count <= |stack0|
    ensures stack == PushCopy(stack0, count, count)
  {
    stack := PushCopy(stack0, count, count);
  }

  /** The last term X becomes one bracketed term for X{min,max}; the returned
      number is what `dfa_size` gains, or loses when the term is dropped. */
  method Iterate(stack0: Items, min: nat, max: nat, ghost pre: Items, ghost t: Term)
    returns (stack: Items, len: nat)
    requires stack0 == pre + TermItems(t) && (max > 0 ==> min <= max)
    ensures stack == pre + TermItems(Iterated(t, min, max))
    ensures if min == 0 && max == 0 then TotalWeight(stack) == TotalWeight(stack0) - len
      else TotalWeight(stack) == TotalWeight(stack0) + len
  {
    hide Scan, TermItems, ConcatItems, TotalWeight, Expansion;
    ScanTerm(pre, t, 0, 0);
    var below;
    below, len := FindLast(stack0);
    ghost var size := len;
    if min == 0 && max == 0 {
      EmptyGroup(pre, t);
      stack := stack0[..below] + [OpenBr] + [CloseBr];
    } else {
      var count := |stack0| - below;
      stack := OpenGroup(stack0, below, pre, t);
      if max > 0 {
        len := len * (max - 1);
        len := len + (max - min);
        stack := Multiply(stack, count, min, max, pre + [OpenBr], t);
      } else {
        len := len * (min - 1) + 1;
        stack := AddCopies(stack, count, min - 1, pre + [OpenBr], Empty, t, 0);
        stack := stack + [PlusSign];
        LastPlus(pre + [OpenBr], t, min);
      }
      stack := stack + [CloseBr];
      CloseGroup(pre, Expansion(t, min, max));
    }
    TotalWeightConcat(pre, TermItems(t));
    IteratedWeight(t, min, max);
    TotalWeightConcat(pre, TermItems(Iterated(t, min, max)));
    Gain(size, min, max);
  }

  lemma Gain(x: nat, min: nat, max: nat)
    ensures max > 0 ==> x + x * (max - 1) == x * max
    ensures min > 0 ==> x + x * (min - 1) == x * min
  {
  }

  lemma EmptyGroup(pre: Items, t: Term)
    ensures pre + [OpenBr] + [CloseBr] == pre + TermItems(Iterated(t, 0, 0))
  {
    assert AltsItems(Only(Empty)) == [];
    assert TermItems(Iterated(t, 0, 0)) == [OpenBr] + [] + [CloseBr];
  }

  lemma CloseGroup(pre: Items, s: Concat)
    ensures pre + [OpenBr] + ConcatItems(s) + [CloseBr] == pre + TermItems(Group(Only(s)))
  {
    hide ConcatItems;
    assert AltsItems(Only(s)) == ConcatItems(s);
    assert TermItems(Group(Only(s))) == [OpenBr] + ConcatItems(s) + [CloseBr];
  }

  lemma LastPlus(base: Items, t: Term, min: nat)
    requires min > 0
    ensures base + ConcatItems(Copies(Empty, t, min)) + [PlusSign] == base + ConcatItems(Expansion(t, min, 0))
  {
    OneCopyMore(base, Empty, t, min - 1);
    var front := ConcatItems(Copies(Empty, t, min - 1));
    assert ConcatItems(Expansion(t, min, 0)) == front + (TermItems(t) + [PlusSign]);
  }

  /** The loops for an upper bound: mandatory copies, then copies of the block with its `?`. */
  method Multiply(stack0: Items, count: nat, min: nat, max: nat, ghost base: Items, ghost t: Term)
    returns (stack: Items)
    requires max > 0 && min <= max && count == |TermItems(t)|
    requires stack0 == base + ConcatItems(Copies(Empty, t, 1))
    ensures stack == base + ConcatItems(Expansion(t, min, max))
  {
    hide PushCopy;
    stack := stack0;
    var more := max - min;
    ghost var fixed := Copies(Empty, t, min);
    if min > 0 {
      stack := AddCopies(stack, count, min - 1, base, Empty, t, 0);
      if more > 0 {
        stack := AddCopies(stack, count, 1, base, Empty, t, min - 1);
        stack := stack + [QuestionMark];
        FirstOpt(base, t, min);
        stack := AddCopies(stack, count + 1, more - 1, base, fixed, Opt(t), 0);
      }
    } else {
      stack := stack + [QuestionMark];
      FirstOpt(base, t, 0);
      stack := AddCopies(stack, count + 1, more - 1, base, fixed, Opt(t), 0);
    }
  }

  lemma FirstOpt(base: Items, t: Term, n: nat)
    ensures base + ConcatItems(Copies(Empty, t, n + 1)) + [QuestionMark]
      == base + ConcatItems(Copies(Copies(Empty, t, n), Opt(t), 1))
    ensures |TermItems(Opt(t))| == |TermItems(t)| + 1
  {
    var fixed := Copies(Empty, t, n);
    assert Copies(Empty, t, n + 1) == Snoc(fixed, t);
    assert Copies(fixed, Opt(t), 1) == Snoc(Copies(fixed, Opt(t), 0), Opt(t));
    assert ConcatItems(Snoc(fixed, Opt(t))) == ConcatItems(fixed) + (TermItems(t) + [QuestionMark]);
  }

  lemma IteratedWeight(t: Term, min: nat, max: nat)
    requires max > 0 ==> min <= max
    ensures TotalWeight(TermItems(Iterated(t, min, max)))
      == IteratedSize(TotalWeight(TermItems(t)), min, max)
  {
    hide TotalWeight, ConcatItems, TermItems, Expansion, IteratedSize;
    if min == 0 && max == 0 {
      BracketWeight(Empty);
      ExpansionEmpty(TotalWeight(TermItems(t)));
    } else {
      BracketWeight(Expansion(t, min, max));
      ExpansionWeight(t, min, max);
    }
  }

  function IteratedSize(x: nat, min: nat, max: nat): int {
    if max > 0 then x * max + (max - min) else if min > 0 then x * min + 1 else 0
  }

  lemma ExpansionEmpty(x: nat)
    ensures TotalWeight(ConcatItems(Empty)) == IteratedSize(x, 0, 0)
  {
  }

  lemma ExpansionWeight(t: Term, min: nat, max: nat)
    requires if max > 0 then min <= max else min > 0
    ensures TotalWeight(ConcatItems(Expansion(t, min, max)))
      == IteratedSize(TotalWeight(TermItems(t)), min, max)
  {
    hide TotalWeight;
    if max > 0 {
      BoundedWeight(t, min, max - min);
    } else {
      UnboundedWeight(t, min - 1);
    }
  }

  lemma BoundedWeight(t: Term, a: nat, b: nat)
    ensures TotalWeight(ConcatItems(Copies(Copies(Empty, t, a), Opt(t), b)))
      == TotalWeight(TermItems(t)) * (a + b) + b
  {
    hide TotalWeight, Copies;
    CopiesWeight(Copies(Empty, t, a), Opt(t), b);
    CopiesWeight(Empty, t, a);
    OneMore(t, QuestionMark);
    ExpansionEmpty(0);
    Distribute(TotalWeight(TermItems(t)), a, b);
  }

  lemma UnboundedWeight(t: Term, a: nat)
    ensures TotalWeight(ConcatItems(Snoc(Copies(Empty, t, a), Plus(t))))
      == TotalWeight(TermItems(t)) * (a + 1) + 1
  {
    hide TotalWeight, Copies;
    CopiesWeight(Empty, t, a);
    OneMore(t, PlusSign);
    ExpansionEmpty(0);
    TotalWeightConcat(ConcatItems(Copies(Empty, t, a)), TermItems(Plus(t)));
  }

  lemma Distribute(x: nat, a: nat, b: nat)
    ensures a * x + b * (x + 1) == x * (a + b) + b
  {
  }

  lemma OneMore(t: Term, op: Item)
    ensures TotalWeight(TermItems(t) + [op]) == TotalWeight(TermItems(t)) + Weight(op)
  {
    TotalWeightConcat(TermItems(t), [op]);
    WeightOne(op);
  }

  lemma BracketWeight(s: Concat)
    ensures TotalWeight(TermItems(Group(Only(s)))) == TotalWeight(ConcatItems(s))
  {
    var inner := ConcatItems(s);
    assert AltsItems(Only(s)) == inner;
    assert TermItems(Group(Only(s))) == [OpenBr] + inner + [CloseBr];
    TotalWeightConcat([OpenBr] + inner, [CloseBr]);
    TotalWeightConcat([OpenBr], inner);
    WeightOne(OpenBr);
    WeightOne(CloseBr);
  }
}
