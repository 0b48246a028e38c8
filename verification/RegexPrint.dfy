/** Patterns written out as text: which patterns a text can denote, and a spelling for each
    of them that the parser reads back as that same pattern. */
module RegexPrint {
  import opened Wrappers
  import opened RegexSyntax
  import opened RegexRepeat
  import opened RegexParse
  import opened RegexSpelling
  import opened RegexReading
  import opened RegexAccepted

  // ------------------------------------------------------- what texts can denote

  /** The codes of characters. */
  predicate IsChar(c: int) {
    0 <= c < 0xD800 || 0xE000 <= c < 0x11_0000
  }

  const Brace: Term := Atom(Single('{' as int))

  /** Nothing but marks and unescaped braces: the parser still counts this as the
      beginning, where an operator is refused and a mark belongs to no term. */
  predicate AtStart(s: Concat) {
    match s
    case Empty => true
    case Snoc(init, t) => t == Brace && AtStart(init)
    case Note(init, _) => AtStart(init)
  }

  predicate MemberOk(m: Member) {
    match m
    case One(c) => IsChar(c)
    case Span(lo, hi) => IsChar(lo) && IsChar(hi) && lo <= hi
  }

  predicate MembersOk(ms: seq<Member>) {
    forall k :: 0 <= k < |ms| ==> MemberOk(ms[k])
  }

  /** A bracket expression has members; without members there is only the dot. */
  predicate LitOk(l: Lit) {
    match l
    case Single(c) => IsChar(c)
    case Class(invert, ms) => (ms == [] ==> invert) && MembersOk(ms)
  }

  predicate TermOk(t: Term)
    decreases t, 0
  {
    match t
    case Atom(l) => LitOk(l)
    case Group(a) => AltsOk(a)
    case Star(b) => TermOk(b)
    case Plus(b) => TermOk(b)
    case Opt(b) => TermOk(b)
    case Tag(b, _) => TermOk(b)
  }

  predicate ConcatOk(s: Concat)
    decreases s, 0
  {
    match s
    case Empty => true
    case Snoc(init, t) => ConcatOk(init) && TermOk(t)
    case Note(init, _) => ConcatOk(init) && AtStart(init)
  }

  predicate AltsOk(a: Alts)
    decreases a, 0
  {
    match a
    case Only(s) => ConcatOk(s)
    case Or(l, s) => AltsOk(l) && ConcatOk(s)
  }

  // --------------------------------------------------------------- writing it out

  function CharOf(c: int): Written {
    Escaped(if IsChar(c) then c as char else '?')
  }

  function ShowNat(n: nat): string {
    (if n < 10 then "" else ShowNat(n / 10)) + [('0' as int + n % 10) as char]
  }

  function PieceOf(m: Member): Piece {
    match m
    case One(c) => OnePiece(CharOf(c))
    case Span(lo, hi) => SpanPiece(CharOf(lo), CharOf(hi))
  }

  function PiecesOf(ms: seq<Member>): seq<Piece> {
    if ms == [] then [] else [PieceOf(ms[0])] + PiecesOf(ms[1..])
  }

  function NodeOf(t: Term): Node
    decreases t, 0
  {
    match t
    case Atom(Single(c)) => Sym(CharOf(c))
    case Atom(Class(invert, ms)) => if ms == [] then Dot else Bracket(invert, PiecesOf(ms))
    case Group(a) => Paren(ChoiceOf(a))
    case Star(b) => Starred(NodeOf(b))
    case Plus(b) => Plussed(NodeOf(b))
    case Opt(b) => Opted(NodeOf(b))
    case Tag(b, id) => Marked(NodeOf(b), ShowNat(id))
  }

  function ChainOf(s: Concat): Chain
    decreases s, 0
  {
    match s
    case Empty => Nil
    case Snoc(init, t) => Link(ChainOf(init), if AtStart(s) then LoneBrace else NodeOf(t))
    case Note(init, id) => Remark(ChainOf(init), ShowNat(id))
  }

  function ChoiceOf(a: Alts): Choice
    decreases a, 0
  {
    match a
    case Only(s) => Sole(ChainOf(s))
    case Or(l, s) => Bar(ChoiceOf(l), ChainOf(s))
  }

  function Show(p: Pattern): string {
    WholeText(Whole(p.matchBegin, ChoiceOf(p.alts), p.matchEnd))
  }

  // ----------------------------------------------------------- it spells the pattern

  lemma {:induction false} NatShown(n: nat)
    ensures Number(ShowNat(n)) && Value(ShowNat(n)) == n
    decreases n
  {
    hide Value;
    var front, last := if n < 10 then "" else ShowNat(n / 10), ('0' as int + n % 10) as char;
    if n >= 10 {
      NatShown(n / 10);
    } else {
      ValueStep("", last);
    }
    assert (front + [last])[..|front|] == front;
    ValueStep(front, last);
    TenParts(n);
  }

  lemma ValueStep(front: string, last: char)
    ensures Value(front + [last]) == 10 * Value(front) + (last as int - '0' as int) && Value("") == 0
  {
    assert (front + [last])[..|front|] == front;
  }

  lemma TenParts(n: nat)
    ensures n / 10 * 10 + n % 10 == n
  {
  }

  /** No digit, comma or caret comes next: a brace before this opens nothing. */
  predicate Calm(text: string, i: nat) {
    i < |text| ==> !IsDigit(text[i]) && text[i] != ',' && text[i] != '^'
  }

  lemma NothingOpens(text: string, i: nat, begin: bool)
    requires i < |text| && text[i] == '{' && Calm(text, i + 1)
    ensures !Opens(text, i, begin)
  {
    hide Opens;
    PlainExactly(text, i, begin);
  }

  lemma {:induction false} PiecesShown(ms: seq<Member>)
    requires MembersOk(ms)
    ensures PiecesFit(PiecesOf(ms), true) && PiecesFit(PiecesOf(ms), false) && PiecesSense(PiecesOf(ms)) == ms
    ensures |PiecesOf(ms)| == |ms| && (forall c :: !Leads(PiecesOf(ms), c))
    decreases |ms|
  {
    if ms != [] {
      PiecesShown(ms[1..]);
      assert PiecesOf(ms)[1..] == PiecesOf(ms[1..]);
      assert ms == [ms[0]] + ms[1..];
    }
  }

  lemma LitShown(text: string, i: nat, l: Lit, begin: bool)
    requires LitOk(l) && Here(text, i, NodeText(NodeOf(Atom(l))))
    ensures var t := NodeOf(Atom(l)); NodeFits(text, i, t, begin) && NodeSense(t) == Atom(l) && t != LoneBrace
    ensures Calm(text, i)
  {
    hide PiecesOf, PiecesText, PiecesFit, PiecesSense, Leads, Here;
    match l
    case Single(c) =>
      HereParts(text, i, ['\\'], [CharOf(c).c]);
      HereChar(text, i, '\\');
    case Class(invert, ms) =>
      if ms == [] {
        HereChar(text, i, '.');
      } else {
        PiecesShown(ms);
        HereParts(text, i, "[" + (if invert then "^" else ""), PiecesText(PiecesOf(ms)));
        HereParts(text, i, "[", if invert then "^" else "");
        HereChar(text, i, '[');
      }
  }

  lemma {:induction false} TermShown(text: string, i: nat, t: Term, begin: bool)
    requires TermOk(t) && Here(text, i, NodeText(NodeOf(t)))
    ensures NodeFits(text, i, NodeOf(t), begin) && NodeSense(NodeOf(t)) == t && NodeOf(t) != LoneBrace
    ensures Calm(text, i)
    decreases t, 0
  {
    hide Here, LitOk, AltsOk, MarkText, ChoiceText, ChoiceFits, ChoiceSense, ChoiceOf, ShowNat, Calm, Number, Stands;
    match t
    case Atom(l) => LitShown(text, i, l, begin);
    case Group(a) => GroupShown(text, i, a);
    case Star(b) =>
      HereParts(text, i, NodeText(NodeOf(b)), "*");
      TermShown(text, i, b, begin);
    case Plus(b) =>
      HereParts(text, i, NodeText(NodeOf(b)), "+");
      TermShown(text, i, b, begin);
    case Opt(b) =>
      HereParts(text, i, NodeText(NodeOf(b)), "?");
      TermShown(text, i, b, begin);
    case Tag(b, id) =>
      HereParts(text, i, NodeText(NodeOf(b)), MarkText(ShowNat(id)));
      TermShown(text, i, b, begin);
      NatShown(id);
  }

  lemma {:induction false} GroupShown(text: string, i: nat, a: Alts)
    requires AltsOk(a) && Here(text, i, "(" + ChoiceText(ChoiceOf(a)) + ")")
    ensures ChoiceFits(text, i + 1, ChoiceOf(a)) && ChoiceSense(ChoiceOf(a)) == a && Calm(text, i)
    decreases a, 1
  {
    hide Here, AltsOk, ChoiceText, ChoiceFits, ChoiceSense, ChoiceOf;
    HereParts(text, i, "(" + ChoiceText(ChoiceOf(a)), ")");
    HereParts(text, i, "(", ChoiceText(ChoiceOf(a)));
    HereChar(text, i, '(');
    HereChar(text, i + 1 + |ChoiceText(ChoiceOf(a))|, ')');
    AltsShown(text, i + 1, a);
  }

  lemma {:induction false} AltsShown(text: string, i: nat, a: Alts)
    requires AltsOk(a) && Here(text, i, ChoiceText(ChoiceOf(a))) && Calm(text, i + |ChoiceText(ChoiceOf(a))|)
    ensures ChoiceFits(text, i, ChoiceOf(a)) && ChoiceSense(ChoiceOf(a)) == a && Calm(text, i)
    decreases a, 0
  {
    hide Here, ConcatOk, ChainText, ChainFits, ChainSense, ChainOf;
    match a
    case Only(s) => ConcatShown(text, i, s);
    case Or(l, s) =>
      var j := i + |ChoiceText(ChoiceOf(l))|;
      HereParts(text, i, ChoiceText(ChoiceOf(l)) + "|", ChainText(ChainOf(s)));
      HereParts(text, i, ChoiceText(ChoiceOf(l)), "|");
      HereChar(text, j, '|');
      AltsShown(text, i, l);
      ConcatShown(text, j + 1, s);
  }

  lemma {:induction false} ConcatShown(text: string, i: nat, s: Concat)
    requires ConcatOk(s) && Here(text, i, ChainText(ChainOf(s))) && Calm(text, i + |ChainText(ChainOf(s))|)
    ensures ChainFits(text, i, ChainOf(s)) && ChainSense(ChainOf(s)) == s && Starts(ChainOf(s)) == AtStart(s)
    ensures Calm(text, i)
    decreases s, 0
  {
    hide Here, TermOk, NodeText, NodeFits, NodeSense, NodeOf, MarkText, Number, ShowNat;
    match s
    case Empty =>
    case Snoc(init, t) =>
      var j := i + |ChainText(ChainOf(init))|;
      HereParts(text, i, ChainText(ChainOf(init)), NodeText(ChainOf(s).last));
      if AtStart(s) {
        LoneShown(text, j, AtStart(init));
      } else {
        TermShown(text, j, t, AtStart(init));
      }
      ConcatShown(text, i, init);
    case Note(init, id) =>
      var j := i + |ChainText(ChainOf(init))|;
      HereParts(text, i, ChainText(ChainOf(init)), MarkText(ShowNat(id)));
      NatShown(id);
      MarkRead(text, j, ShowNat(id), true);
      ConcatShown(text, i, init);
  }

  lemma LoneShown(text: string, j: nat, begin: bool)
    requires Here(text, j, NodeText(LoneBrace)) && Calm(text, j + |NodeText(LoneBrace)|)
    ensures NodeFits(text, j, LoneBrace, begin) && NodeSense(LoneBrace) == Brace && Calm(text, j)
  {
    hide Opens;
    HereChar(text, j, '{');
    NothingOpens(text, j, begin);
  }

  /** Written out, a pattern is read back. */
  lemma ReadBack(p: Pattern)
    requires AltsOk(p.alts)
    ensures Tree(Show(p)) == Some(p)
  {
    hide ChoiceText, ChoiceOf, AltsOk, Tree, ChoiceFits, ChoiceSense, Here;
    var w, text := Whole(p.matchBegin, ChoiceOf(p.alts), p.matchEnd), Show(p);
    var open, close := if w.hat then "^" else "", if w.dollar then "$" else "";
    WholeHere(text, open, ChoiceText(w.choice), close);
    if w.dollar {
      HereChar(text, |open + ChoiceText(w.choice)|, '$');
    }
    AltsShown(text, |open|, p.alts);
    if w.hat {
      HereChar(text, 0, '^');
    }
    SpellingRead(w, text);
  }

  // ------------------------------------------------- every accepted text denotes one

  lemma {:induction false} CopiesOk(s: Concat, t: Term, n: nat)
    requires ConcatOk(s) && TermOk(t)
    ensures ConcatOk(Copies(s, t, n))
    decreases n
  {
    hide TermOk;
    if n > 0 {
      CopiesOk(s, t, n - 1);
    }
  }

  lemma RepeatedOk(t: Term, min: int, max: int)
    requires RepeatOk(min, max) && TermOk(t)
    ensures TermOk(Repeated(t, min, max))
  {
    hide Copies;
    if min > 1 || max > 1 {
      CopiesOk(Empty, t, min);
      if max > 0 {
        assert TermOk(Opt(t));
        CopiesOk(Copies(Empty, t, min), Opt(t), max - min);
      } else {
        CopiesOk(Empty, t, min - 1);
        assert TermOk(Plus(t));
      }
      GroupOk(Expansion(t, min, max));
    } else if min == -1 {
      GroupOk(Empty);
    }
  }

  lemma GroupOk(s: Concat)
    requires ConcatOk(s)
    ensures TermOk(Group(Only(s)))
  {
    assert AltsOk(Only(s));
  }

  lemma {:induction false} PiecesSenseOk(ms: seq<Piece>)
    ensures MembersOk(PiecesSense(ms)) && |PiecesSense(ms)| == |ms|
    decreases |ms|
  {
    if ms != [] {
      PiecesSenseOk(ms[1..]);
    }
  }

  lemma {:induction false} ChainStart(s: Chain)
    requires Starts(s)
    ensures AtStart(ChainSense(s))
    decreases s
  {
    if !s.Nil? {
      ChainStart(s.init);
    }
  }

  lemma {:induction false} NodeOk(text: string, i: nat, t: Node, begin: bool)
    requires NodeFits(text, i, t, begin)
    ensures TermOk(NodeSense(t))
    decreases t
  {
    hide ChoiceFits, AltsOk, ChoiceSense, Repeated, Bounds, MembersOk, PiecesSense, Stands;
    match t
    case Sym(x) =>
    case Dot => PiecesSenseOk([]);
    case Bracket(invert, ms) => PiecesSenseOk(ms);
    case Paren(a) => ChoiceOk(text, i + 1, a);
    case Starred(b) => NodeOk(text, i, b, begin);
    case Plussed(b) => NodeOk(text, i, b, begin);
    case Opted(b) => NodeOk(text, i, b, begin);
    case Counted(b, c) =>
      NodeOk(text, i, b, begin);
      CountBounds(c);
      RepeatedOk(NodeSense(b), Bounds(c).0, Bounds(c).1);
    case Marked(b, id) => NodeOk(text, i, b, begin);
  }

  lemma {:induction false} ChainOk(text: string, i: nat, s: Chain)
    requires ChainFits(text, i, s)
    ensures ConcatOk(ChainSense(s))
    decreases s
  {
    hide NodeFits, TermOk, NodeSense;
    match s
    case Nil =>
    case Link(init, t) =>
      ChainOk(text, i, init);
      NodeOk(text, i + |ChainText(init)|, t, Starts(init));
    case Remark(init, id) =>
      ChainOk(text, i, init);
      ChainStart(init);
  }

  lemma {:induction false} ChoiceOk(text: string, i: nat, a: Choice)
    requires ChoiceFits(text, i, a)
    ensures AltsOk(ChoiceSense(a))
    decreases a
  {
    hide ChainFits, ConcatOk, ChainSense;
    match a
    case Sole(s) => ChainOk(text, i, s);
    case Bar(l, s) =>
      ChoiceOk(text, i, l);
      ChainOk(text, i + |ChoiceText(l)| + 1, s);
  }

  /** The patterns that texts denote are exactly those that can be written out. */
  lemma DenotedExactly(p: Pattern)
    ensures AltsOk(p.alts) <==> exists text :: Tree(text) == Some(p)
  {
    hide Tree, AltsOk, ChoiceFits;
    if AltsOk(p.alts) {
      ReadBack(p);
      assert Tree(Show(p)) == Some(p);
    }
    if text :| Tree(text) == Some(p) {
      var w := AcceptedSpelled(text);
      SpellingRead(w, text);
      ChoiceOk(text, if w.hat then 1 else 0, w.choice);
    }
  }
}
