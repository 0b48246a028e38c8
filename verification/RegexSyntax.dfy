/** The syntax of the regex compiler: the items of the parser's stack, which are
    also the cells of the transition array, the patterns the parser can leave on
    that stack, and the language of a pattern. */
module RegexSyntax {

  /** A character is its code; `regex_char_t` holds 8 bits by default. */
  type Word = seq<int>

  /** `struct stack_item`: parser items, and (Branch, Jump) cells made by the generator. */
  datatype Item =
    | Begin
    | End
    | Chr(c: int)
    | Id(id: nat)
    | RngStart(invert: bool)
    | RngEnd
    | RngChar(c: int)
    | RngLeft(c: int)
    | RngRight(c: int)
    | Branch(target: int)
    | Jump(target: int)
    | OpenBr
    | CloseBr
    | Select
    | Asterisk
    | PlusSign
    | QuestionMark

  // ---------------------------------------------------------------- patterns

  /** One member of a bracket expression: a character or a span lo-hi. */
  datatype Member = One(c: int) | Span(lo: int, hi: int)

  datatype Lit = Single(c: int) | Class(invert: bool, members: seq<Member>)

  /** A term with its postfix operators.  `Tag` is the {n!} extension written after a term. */
  datatype Term =
    | Atom(lit: Lit)
    | Group(alts: Alts)
    | Star(body: Term)
    | Plus(body: Term)
    | Opt(body: Term)
    | Tag(body: Term, id: nat)

  /** A concatenation, grown on the right as the parser grows it.
      `Note` is an {n!} that follows no term. */
  datatype Concat =
    | Empty
    | Snoc(init: Concat, last: Term)
    | Note(init: Concat, id: nat)

  /** Alternatives, grown on the right by `|`. */
  datatype Alts = Only(only: Concat) | Or(left: Alts, right: Concat)

  // ------------------------------------------------- items the parser leaves

  function MemberItems(m: Member): seq<Item> {
    match m
    case One(c) => [RngChar(c)]
    case Span(lo, hi) => [RngLeft(lo), RngRight(hi)]
  }

  function MembersItems(ms: seq<Member>): seq<Item> {
    if ms == [] then [] else MemberItems(ms[0]) + MembersItems(ms[1..])
  }

  function LitItems(l: Lit): seq<Item> {
    match l
    case Single(c) => [Chr(c)]
    case Class(invert, ms) => [RngStart(invert)] + MembersItems(ms) + [RngEnd]
  }

  function TermItems(t: Term): seq<Item> {
    match t
    case Atom(l) => LitItems(l)
    case Group(a) => [OpenBr] + AltsItems(a) + [CloseBr]
    case Star(b) => TermItems(b) + [Asterisk]
    case Plus(b) => TermItems(b) + [PlusSign]
    case Opt(b) => TermItems(b) + [QuestionMark]
    case Tag(b, id) => TermItems(b) + [Id(id)]
  }

  function ConcatItems(s: Concat): seq<Item> {
    match s
    case Empty => []
    case Snoc(init, t) => ConcatItems(init) + TermItems(t)
    case Note(init, id) => ConcatItems(init) + [Id(id)]
  }

  function AltsItems(a: Alts): seq<Item> {
    match a
    case Only(s) => ConcatItems(s)
    case Or(l, s) => AltsItems(l) + [Select] + ConcatItems(s)
  }

  function PatternItems(p: Alts): seq<Item> {
    [Begin] + AltsItems(p) + [End]
  }

  /** What `dfa_size` counts for one item. */
  function Weight(i: Item): nat {
    match i
    case OpenBr => 0
    case CloseBr => 0
    case Select => 2
    case Asterisk => 2
    case _ => 1
  }

  function TotalWeight(items: seq<Item>): nat {
    if items == [] then 0 else TotalWeight(items[..|items|-1]) + Weight(items[|items|-1])
  }

  lemma {:induction false} TotalWeightConcat(xs: seq<Item>, ys: seq<Item>)
    ensures TotalWeight(xs + ys) == TotalWeight(xs) + TotalWeight(ys)
  {
    if ys == [] {
      assert xs + ys == xs;
    } else {
      TotalWeightConcat(xs, ys[..|ys|-1]);
      assert (xs + ys)[..|xs + ys|-1] == xs + ys[..|ys|-1];
    }
  }

  lemma WeightOne(i: Item)
    ensures TotalWeight([i]) == Weight(i)
  {
    assert [i][..0] == [];
  }

  // ------------------------------------------------------------ the language

  predicate InMember(m: Member, c: int) {
    match m
    case One(x) => c == x
    case Span(lo, hi) => lo <= c <= hi
  }

  predicate AnyMember(ms: seq<Member>, c: int) {
    ms != [] && (InMember(ms[0], c) || AnyMember(ms[1..], c))
  }

  predicate LitHit(l: Lit, c: int) {
    match l
    case Single(x) => c == x
    case Class(invert, ms) => AnyMember(ms, c) != invert
  }

  /** `w` is a concatenation of exactly `n` words of `t`. */
  ghost predicate Power(t: Term, n: nat, w: Word)
    decreases t, n, 1
  {
    if n == 0 then w == []
    else exists k :: 0 <= k <= |w| && InTerm(t, w[..k]) && Power(t, n - 1, w[k..])
  }

  ghost predicate InTerm(t: Term, w: Word)
    decreases t, 0, 0
  {
    match t
    case Atom(l) => |w| == 1 && LitHit(l, w[0])
    case Group(a) => InAlts(a, w)
    case Star(b) => exists n: nat :: Power(b, n, w)
    case Plus(b) => exists n: nat :: 1 <= n && Power(b, n, w)
    case Opt(b) => w == [] || InTerm(b, w)
    case Tag(b, _) => InTerm(b, w)
  }

  ghost predicate InConcat(s: Concat, w: Word)
    decreases s, 0, 0
  {
    match s
    case Empty => w == []
    case Snoc(init, t) => exists k :: 0 <= k <= |w| && InConcat(init, w[..k]) && InTerm(t, w[k..])
    case Note(init, _) => InConcat(init, w)
  }

  ghost predicate InAlts(a: Alts, w: Word)
    decreases a, 0, 0
  {
    match a
    case Only(s) => InConcat(s, w)
    case Or(l, s) => InAlts(l, w) || InConcat(s, w)
  }
}
