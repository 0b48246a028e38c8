/** The notation that the parser reads, as a grammar of its own: how every construct is
    written, in any of its spellings and in any context, and what it stands for.  A text
    is accepted exactly when the grammar spells it, and means what its spelling says. */
module RegexSpelling {
  import opened RegexSyntax
  import opened RegexParse

  // ------------------------------------------------------------------ spellings

  /** A character as it is, or behind a backslash. */
  datatype Written = Bare(c: char) | Escaped(c: char)

  /** What stands between the brackets of a bracket expression. */
  datatype Piece = OnePiece(x: Written) | SpanPiece(a: Written, b: Written)

  /** `{n}`, `{n,}`, `{n,m}`, `{,m}` and `{,}`; numbers are digits, with any leading zeros. */
  datatype Count = Exactly(n: string) | AtLeast(n: string) | Between(n: string, m: string) | UpTo(m: string) | AnyTimes

  datatype Node =
    | Sym(x: Written)
    | Dot
    | Bracket(invert: bool, pieces: seq<Piece>)
    | Paren(inside: Choice)
    | Starred(body: Node)
    | Plussed(body: Node)
    | Opted(body: Node)
    | Counted(body: Node, count: Count)
    | Marked(body: Node, id: string)

  /** One thing after another; `Note` is a mark that follows no term. */
  datatype Chain = Nil | Link(init: Chain, last: Node) | Remark(init: Chain, id: string)

  datatype Choice = Sole(sole: Chain) | Bar(left: Choice, right: Chain)

  datatype Whole = Whole(hat: bool, choice: Choice, dollar: bool)

  const LoneBrace: Node := Sym(Bare('{'))

  // ------------------------------------------------------------------ their text

  function WrittenText(x: Written): string {
    match x
    case Bare(c) => [c]
    case Escaped(c) => ['\\'] + [c]
  }

  function PieceText(m: Piece): string {
    match m
    case OnePiece(x) => WrittenText(x)
    case SpanPiece(a, b) => WrittenText(a) + "-" + WrittenText(b)
  }

  function PiecesText(ms: seq<Piece>): string {
    if ms == [] then "]" else PieceText(ms[0]) + PiecesText(ms[1..])
  }

  /** The upper half of a count; without a number there is no bound. */
  function UpperText(m: string): string {
    "," + (m + "}")
  }

  function CountText(c: Count): string {
    match c
    case Exactly(n) => "{" + (n + "}")
    case AtLeast(n) => "{" + (n + UpperText(""))
    case Between(n, m) => "{" + (n + UpperText(m))
    case UpTo(m) => "{" + UpperText(m)
    case AnyTimes => "{" + UpperText("")
  }

  function MarkText(id: string): string {
    "{" + (id + ("!" + "}"))
  }

  function NodeText(t: Node): string
    decreases t, 0
  {
    match t
    case Sym(x) => WrittenText(x)
    case Dot => "."
    case Bracket(invert, ms) => "[" + (if invert then "^" else "") + PiecesText(ms)
    case Paren(a) => "(" + ChoiceText(a) + ")"
    case Starred(b) => NodeText(b) + "*"
    case Plussed(b) => NodeText(b) + "+"
    case Opted(b) => NodeText(b) + "?"
    case Counted(b, c) => NodeText(b) + CountText(c)
    case Marked(b, id) => NodeText(b) + MarkText(id)
  }

  function ChainText(s: Chain): string
    decreases s, 0
  {
    match s
    case Nil => ""
    case Link(init, t) => ChainText(init) + NodeText(t)
    case Remark(init, id) => ChainText(init) + MarkText(id)
  }

  function ChoiceText(a: Choice): string
    decreases a, 0
  {
    match a
    case Sole(s) => ChainText(s)
    case Bar(l, s) => ChoiceText(l) + "|" + ChainText(s)
  }

  function WholeText(w: Whole): string {
    (if w.hat then "^" else "") + ChoiceText(w.choice) + if w.dollar then "$" else ""
  }

  // ------------------------------------------------------- where a spelling is read so

  predicate Here(text: string, i: nat, part: string) {
    i + |part| <= |text| && text[i..i + |part|] == part
  }

  predicate Number(n: string) {
    n != "" && AllDigits(n)
  }

  predicate AllDigits(n: string) {
    forall k :: 0 <= k < |n| ==> '0' <= n[k] <= '9'
  }

  /** The number that digits stand for. */
  function Value(n: string): int {
    if n == "" then 0 else 10 * Value(n[..|n| - 1]) + (n[|n| - 1] as int - '0' as int)
  }

  predicate CountOk(c: Count) {
    match c
    case Exactly(n) => Number(n)
    case AtLeast(n) => Number(n)
    case Between(n, m) => Number(n) && Number(m) && Value(n) <= Value(m)
    case UpTo(m) => Number(m)
    case AnyTimes => true
  }

  /** A brace that opens a mark, or behind a term a repetition. */
  ghost predicate Opens(text: string, i: nat, begin: bool) {
    || (exists id :: Number(id) && Here(text, i, MarkText(id)))
    || (!begin && exists c :: CountOk(c) && Here(text, i, CountText(c)))
  }

  /** The characters with a meaning of their own wherever they stand. */
  predicate Reserved(c: char) {
    c in "\\.()|*?+["
  }

  /** A character that stands for itself: `$` not at the end of the text, and `{` where no
      mark or repetition is spelled. */
  ghost predicate Stands(text: string, i: nat, c: char, begin: bool) {
    && !Reserved(c) && (c == '$' ==> i + 1 < |text|) && (c == '{' ==> !Opens(text, i, begin))
  }

  /** A character inside brackets. */
  predicate Inside(x: Written) {
    x.Bare? ==> x.c != '\\' && x.c != ']'
  }

  predicate Leads(ms: seq<Piece>, c: char) {
    ms != [] && (if ms[0].OnePiece? then ms[0].x else ms[0].a) == Bare(c)
  }

  /** `]` stands for itself in the first place, and `-` where it makes no span. */
  predicate PiecesFit(ms: seq<Piece>, first: bool) {
    ms != [] ==>
      && PiecesFit(ms[1..], false)
      && match ms[0]
         case OnePiece(x) =>
           || (first && x == Bare(']'))
           || (Inside(x) && (Leads(ms[1..], '-') ==> ms[1..] == [OnePiece(Bare('-'))]))
         case SpanPiece(a, b) => Inside(a) && Inside(b)
  }

  /** Nothing but marks and braces that stand for themselves: still the beginning, where an
      operator is refused. */
  predicate Starts(s: Chain) {
    match s
    case Nil => true
    case Link(init, t) => t == LoneBrace && Starts(init)
    case Remark(init, _) => Starts(init)
  }

  /** Written at `i`, the text is read as `t`. */
  ghost predicate NodeFits(text: string, i: nat, t: Node, begin: bool)
    decreases t, 0
  {
    match t
    case Sym(x) => x.Bare? ==> Stands(text, i, x.c, begin)
    case Dot => true
    case Bracket(invert, ms) => ms != [] && PiecesFit(ms, true) && (!invert ==> !Leads(ms, '^'))
    case Paren(a) => ChoiceFits(text, i + 1, a)
    case Starred(b) => BodyFits(text, i, b, begin)
    case Plussed(b) => BodyFits(text, i, b, begin)
    case Opted(b) => BodyFits(text, i, b, begin)
    case Counted(b, c) => BodyFits(text, i, b, begin) && CountOk(c)
    case Marked(b, id) => BodyFits(text, i, b, begin) && Number(id)
  }

  ghost predicate BodyFits(text: string, i: nat, b: Node, begin: bool)
    decreases b, 1
  {
    NodeFits(text, i, b, begin) && !(begin && b == LoneBrace)
  }

  ghost predicate ChainFits(text: string, i: nat, s: Chain)
    decreases s, 0
  {
    match s
    case Nil => true
    case Link(init, t) => ChainFits(text, i, init) && NodeFits(text, i + |ChainText(init)|, t, Starts(init))
    case Remark(init, id) => ChainFits(text, i, init) && Starts(init) && Number(id)
  }

  ghost predicate ChoiceFits(text: string, i: nat, a: Choice)
    decreases a, 0
  {
    match a
    case Sole(s) => ChainFits(text, i, s)
    case Bar(l, s) => ChoiceFits(text, i, l) && ChainFits(text, i + |ChoiceText(l)| + 1, s)
  }

  /** `^` at the very beginning of the text is the anchor. */
  ghost predicate Spells(w: Whole, text: string) {
    && text == WholeText(w) && (w.hat <==> text != "" && text[0] == '^')
    && ChoiceFits(text, if w.hat then 1 else 0, w.choice)
  }

  // ------------------------------------------------------------------ what they mean

  function Code(x: Written): int {
    x.c as int
  }

  /** A span holds the characters between its ends, written in either order. */
  predicate Covers(m: Piece, c: int) {
    match m
    case OnePiece(x) => c == Code(x)
    case SpanPiece(a, b) => Code(a) <= c <= Code(b) || Code(b) <= c <= Code(a)
  }

  predicate Admits(c: Count, n: nat) {
    match c
    case Exactly(k) => n == Value(k)
    case AtLeast(k) => Value(k) <= n
    case Between(k, m) => Value(k) <= n <= Value(m)
    case UpTo(m) => n <= Value(m)
    case AnyTimes => true
  }

  /** `w` is one word of `t` after another, `n` of them. */
  ghost predicate SpeaksTimes(t: Node, n: nat, w: Word)
    decreases t, n, 1
  {
    if n == 0 then w == []
    else exists k :: 0 <= k <= |w| && Speaks(t, w[..k]) && SpeaksTimes(t, n - 1, w[k..])
  }

  ghost predicate Speaks(t: Node, w: Word)
    decreases t, 0, 0
  {
    match t
    case Sym(x) => w == [Code(x)]
    case Dot => |w| == 1
    case Bracket(invert, ms) => |w| == 1 && (invert <==> forall k :: 0 <= k < |ms| ==> !Covers(ms[k], w[0]))
    case Paren(a) => SpeaksChoice(a, w)
    case Starred(b) => exists n: nat :: SpeaksTimes(b, n, w)
    case Plussed(b) => exists n: nat :: 1 <= n && SpeaksTimes(b, n, w)
    case Opted(b) => w == [] || Speaks(b, w)
    case Counted(b, c) => exists n: nat :: Admits(c, n) && SpeaksTimes(b, n, w)
    case Marked(b, _) => Speaks(b, w)
  }

  ghost predicate SpeaksChain(s: Chain, w: Word)
    decreases s, 0, 0
  {
    match s
    case Nil => w == []
    case Link(init, t) => exists k :: 0 <= k <= |w| && SpeaksChain(init, w[..k]) && Speaks(t, w[k..])
    case Remark(init, _) => SpeaksChain(init, w)
  }

  ghost predicate SpeaksChoice(a: Choice, w: Word)
    decreases a, 0, 0
  {
    match a
    case Sole(s) => SpeaksChain(s, w)
    case Bar(l, s) => SpeaksChoice(l, w) || SpeaksChain(s, w)
  }

  // ------------------------------------------------------- the pattern of a spelling

  function PieceSense(m: Piece): Member {
    match m
    case OnePiece(x) => One(Code(x))
    case SpanPiece(a, b) => if Code(a) <= Code(b) then Span(Code(a), Code(b)) else Span(Code(b), Code(a))
  }

  function PiecesSense(ms: seq<Piece>): seq<Member> {
    if ms == [] then [] else [PieceSense(ms[0])] + PiecesSense(ms[1..])
  }

  function NoneIfZero(n: int, least: int): int {
    if n == 0 then -1 else least
  }

  /** The two numbers that stand for a count inside the parser. */
  function Bounds(c: Count): (int, int) {
    match c
    case Exactly(n) => (NoneIfZero(Value(n), Value(n)), Value(n))
    case AtLeast(n) => (Value(n), 0)
    case Between(n, m) => (NoneIfZero(Value(m), Value(n)), Value(m))
    case UpTo(m) => (NoneIfZero(Value(m), 0), Value(m))
    case AnyTimes => (0, 0)
  }

  function Repeats(t: Term, c: Count): Term {
    var (min, max) := Bounds(c);
    if RepeatOk(min, max) then Repeated(t, min, max) else t
  }

  function MarkId(id: string): nat {
    if Value(id) < 0 then 0 else Value(id)
  }

  function NodeSense(t: Node): Term
    decreases t, 0
  {
    match t
    case Sym(x) => Atom(Single(Code(x)))
    case Dot => Atom(Class(true, []))
    case Bracket(invert, ms) => Atom(Class(invert, PiecesSense(ms)))
    case Paren(a) => Group(ChoiceSense(a))
    case Starred(b) => Star(NodeSense(b))
    case Plussed(b) => Plus(NodeSense(b))
    case Opted(b) => Opt(NodeSense(b))
    case Counted(b, c) => Repeats(NodeSense(b), c)
    case Marked(b, id) => Tag(NodeSense(b), MarkId(id))
  }

  function ChainSense(s: Chain): Concat
    decreases s, 0
  {
    match s
    case Nil => Empty
    case Link(init, t) => Snoc(ChainSense(init), NodeSense(t))
    case Remark(init, id) => Note(ChainSense(init), MarkId(id))
  }

  function ChoiceSense(a: Choice): Alts
    decreases a, 0
  {
    match a
    case Sole(s) => Only(ChainSense(s))
    case Bar(l, s) => Or(ChoiceSense(l), ChainSense(s))
  }

  function WholeSense(w: Whole): Pattern {
    Pattern(ChoiceSense(w.choice), w.hat, w.dollar)
  }

  // ------------------------------------------- the pattern says what the spelling says

  lemma {:induction false} PiecesMean(ms: seq<Piece>, c: int)
    ensures AnyMember(PiecesSense(ms), c) <==> exists k :: 0 <= k < |ms| && Covers(ms[k], c)
    decreases |ms|
  {
    if ms != [] {
      PiecesMean(ms[1..], c);
      PiecesFirst(ms, c);
    }
  }

  lemma PiecesFirst(ms: seq<Piece>, c: int)
    requires ms != []
    ensures (exists k :: 0 <= k < |ms| && Covers(ms[k], c))
      <==> Covers(ms[0], c) || exists k :: 0 <= k < |ms[1..]| && Covers(ms[1..][k], c)
    ensures AnyMember(PiecesSense(ms), c) <==> Covers(ms[0], c) || AnyMember(PiecesSense(ms[1..]), c)
  {
    assert PiecesSense(ms)[0] == PieceSense(ms[0]) && PiecesSense(ms)[1..] == PiecesSense(ms[1..]);
    if k :| 0 <= k < |ms| && Covers(ms[k], c) {
      assert k > 0 ==> ms[1..][k - 1] == ms[k];
    }
    if k :| 0 <= k < |ms[1..]| && Covers(ms[1..][k], c) {
      assert ms[k + 1] == ms[1..][k];
    }
  }

  /** Digits stand for no negative number. */
  lemma {:induction false} ValueNat(n: string)
    requires AllDigits(n)
    ensures Value(n) >= 0
    decreases |n|
  {
    if n != "" {
      ValueNat(n[..|n| - 1]);
    }
  }

  lemma CountBounds(c: Count)
    requires CountOk(c)
    ensures RepeatOk(Bounds(c).0, Bounds(c).1)
    ensures var (min, max) := Bounds(c);
      forall n: nat :: Admits(c, n) <==> min <= n && (max > 0 || min == -1 ==> n <= max)
  {
    hide Value, AllDigits;
    match c
    case Exactly(n) => ValueNat(n);
    case AtLeast(n) => ValueNat(n);
    case Between(n, m) =>
      ValueNat(n);
      ValueNat(m);
    case UpTo(m) => ValueNat(m);
    case AnyTimes =>
  }

  /** A count means the numbers it admits, whichever operator the parser turns it into. */
  lemma RepeatsMean(t: Term, c: Count, w: Word)
    requires CountOk(c)
    ensures InTerm(Repeats(t, c), w) <==> exists n: nat :: Admits(c, n) && Power(t, n, w)
  {
    hide InTerm, Power, Bounds, Admits, Repeated;
    CountBounds(c);
    var (min, max) := Bounds(c);
    RepeatedLanguage(t, min, max, w);
    if n: nat :| min <= n && (max > 0 || min == -1 ==> n <= max) && Power(t, n, w) {
      assert Admits(c, n) && Power(t, n, w);
    }
    if n: nat :| Admits(c, n) && Power(t, n, w) {
      assert min <= n && (max > 0 || min == -1 ==> n <= max) && Power(t, n, w);
    }
  }

  lemma {:induction false} TimesAgree(text: string, i: nat, t: Node, begin: bool, n: nat, w: Word)
    requires NodeFits(text, i, t, begin)
    ensures SpeaksTimes(t, n, w) <==> Power(NodeSense(t), n, w)
    decreases t, n, 1
  {
    if n > 0 {
      forall k | 0 <= k <= |w|
        ensures Speaks(t, w[..k]) <==> InTerm(NodeSense(t), w[..k])
        ensures SpeaksTimes(t, n - 1, w[k..]) <==> Power(NodeSense(t), n - 1, w[k..])
      {
        NodeMeans(text, i, t, begin, w[..k]);
        TimesAgree(text, i, t, begin, n - 1, w[k..]);
      }
    }
  }

  lemma BracketMeans(invert: bool, ms: seq<Piece>, w: Word)
    ensures Speaks(Bracket(invert, ms), w) <==> InTerm(NodeSense(Bracket(invert, ms)), w)
  {
    hide PiecesSense, Covers, AnyMember;
    if |w| == 1 {
      PiecesMean(ms, w[0]);
    }
  }

  lemma {:induction false} NodeMeans(text: string, i: nat, t: Node, begin: bool, w: Word)
    requires NodeFits(text, i, t, begin)
    ensures Speaks(t, w) <==> InTerm(NodeSense(t), w)
    decreases t, 0, 0
  {
    hide ChoiceFits, SpeaksTimes, Power, SpeaksChoice, InAlts, PiecesSense, Repeats, Admits;
    match t
    case Sym(x) =>
    case Dot => DotMeans(w);
    case Bracket(invert, ms) => BracketMeans(invert, ms, w);
    case Paren(a) => ChoiceMeans(text, i + 1, a, w);
    case Starred(b) =>
      forall n: nat ensures SpeaksTimes(b, n, w) <==> Power(NodeSense(b), n, w) {
        TimesAgree(text, i, b, begin, n, w);
      }
    case Plussed(b) =>
      forall n: nat ensures SpeaksTimes(b, n, w) <==> Power(NodeSense(b), n, w) {
        TimesAgree(text, i, b, begin, n, w);
      }
    case Opted(b) => NodeMeans(text, i, b, begin, w);
    case Counted(b, c) =>
      RepeatsMean(NodeSense(b), c, w);
      forall n: nat ensures SpeaksTimes(b, n, w) <==> Power(NodeSense(b), n, w) {
        TimesAgree(text, i, b, begin, n, w);
      }
    case Marked(b, id) => NodeMeans(text, i, b, begin, w);
  }

  lemma DotMeans(w: Word)
    ensures InTerm(Atom(Class(true, [])), w) <==> |w| == 1
  {
  }

  lemma {:induction false} ChainMeans(text: string, i: nat, s: Chain, w: Word)
    requires ChainFits(text, i, s)
    ensures SpeaksChain(s, w) <==> InConcat(ChainSense(s), w)
    decreases s, 0, 0
  {
    hide NodeFits, Speaks, InTerm, NodeSense;
    match s
    case Nil =>
    case Link(init, t) =>
      forall k | 0 <= k <= |w|
        ensures SpeaksChain(init, w[..k]) <==> InConcat(ChainSense(init), w[..k])
        ensures Speaks(t, w[k..]) <==> InTerm(NodeSense(t), w[k..])
      {
        ChainMeans(text, i, init, w[..k]);
        NodeMeans(text, i + |ChainText(init)|, t, Starts(init), w[k..]);
      }
    case Remark(init, id) => ChainMeans(text, i, init, w);
  }

  lemma {:induction false} ChoiceMeans(text: string, i: nat, a: Choice, w: Word)
    requires ChoiceFits(text, i, a)
    ensures SpeaksChoice(a, w) <==> InAlts(ChoiceSense(a), w)
    decreases a, 0, 0
  {
    hide ChainFits, SpeaksChain, InConcat, ChainSense;
    match a
    case Sole(s) => ChainMeans(text, i, s, w);
    case Bar(l, s) =>
      ChoiceMeans(text, i, l, w);
      ChainMeans(text, i + |ChoiceText(l)| + 1, s, w);
  }
}
