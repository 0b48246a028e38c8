/** The parser reads the notation: a text is accepted exactly when the grammar spells it,
    and every spelling of it denotes the pattern that the parser leaves. */
module RegexReading {
  import opened Wrappers
  import opened RegexSyntax
  import opened RegexParse
  import opened RegexSpelling

  // --------------------------------------------------------------- parts of a text

  lemma HereParts(text: string, i: nat, a: string, b: string)
    requires Here(text, i, a + b)
    ensures Here(text, i, a) && Here(text, i + |a|, b)
  {
    assert text[i..i + |a|] == text[i..i + |a + b|][..|a|];
    assert text[i + |a|..i + |a + b|] == text[i..i + |a + b|][|a|..];
  }

  lemma HereJoin(text: string, i: nat, a: string, b: string)
    requires Here(text, i, a) && Here(text, i + |a|, b)
    ensures Here(text, i, a + b)
  {
    assert text[i..i + |a + b|] == text[i..i + |a|] + text[i + |a|..i + |a| + |b|];
  }

  lemma HereChar(text: string, i: nat, c: char)
    ensures Here(text, i, [c]) <==> i < |text| && text[i] == c
  {
    if i < |text| {
      assert text[i..i + 1] == [text[i]];
    }
  }

  // ----------------------------------------------------------------------- numbers

  lemma {:induction false} NumberRead(text: string, i: nat, n: string)
    requires AllDigits(n) && Here(text, i, n)
    ensures Value(n) >= 0 && Digits(text, i, 0) == Digits(text, i + |n|, Value(n))
    decreases |n|
  {
    hide Digits;
    if n != "" {
      var front, last := n[..|n| - 1], n[|n| - 1];
      assert n == front + [last];
      HereParts(text, i, front, [last]);
      HereChar(text, i + |front|, last);
      NumberRead(text, i, front);
      DigitRead(text, i + |front|, Value(front));
    }
  }

  lemma DigitRead(text: string, i: nat, value: int)
    requires i < |text| && IsDigit(text[i]) && value >= 0
    ensures Digits(text, i, value) == Digits(text, i + 1, 10 * value + (text[i] as int - '0' as int))
  {
  }

  predicate Ends(text: string, i: nat) {
    i < |text| ==> !IsDigit(text[i])
  }

  lemma NumberStop(text: string, i: nat, n: string)
    requires Number(n) && Here(text, i, n) && Ends(text, i + |n|)
    ensures i < |text| && IsDigit(text[i]) && Value(n) >= 0 && Digits(text, i, 0) == (Value(n), i + |n|)
  {
    hide Value;
    NumberRead(text, i, n);
    assert text[i] == text[i..i + |n|][0];
  }

  /** Digits read are a number written there. */
  lemma {:induction false} DigitsWritten(text: string, i: nat, n: string) returns (m: string)
    requires AllDigits(n) && Here(text, i, n)
    ensures AllDigits(m) && Here(text, i, m) && |n| <= |m| && Ends(text, i + |m|)
    ensures Value(n) >= 0 && Digits(text, i + |n|, Value(n)) == (Value(m), i + |m|)
    ensures i + |n| < |text| && IsDigit(text[i + |n|]) ==> |n| < |m|
    decreases |text| - |n|
  {
    hide Digits;
    ValueNat(n);
    var j := i + |n|;
    if j < |text| && IsDigit(text[j]) {
      HereChar(text, j, text[j]);
      HereJoin(text, i, n, [text[j]]);
      var next := n + [text[j]];
      assert next[..|n|] == n;
      DigitRead(text, j, Value(n));
      m := DigitsWritten(text, i, next);
    } else {
      m := n;
      DigitsStop(text, j, Value(n));
    }
  }

  lemma DigitsStop(text: string, i: nat, value: nat)
    requires Ends(text, i)
    ensures Digits(text, i, value) == (value, i)
  {
  }

  lemma NumberWritten(text: string, i: nat) returns (n: string)
    requires i < |text| && IsDigit(text[i])
    ensures Number(n) && Here(text, i, n) && Value(n) >= 0 && Digits(text, i, 0) == (Value(n), i + |n|)
    ensures Ends(text, i + |n|)
  {
    hide Digits;
    n := DigitsWritten(text, i, "");
  }

  // ------------------------------------------------------------------------- braces

  lemma MarkRead(text: string, i: nat, id: string, begin: bool)
    requires Number(id) && Here(text, i, MarkText(id))
    ensures i < |text| && text[i] == '{' && BracesAt(text, i, begin) == Mark(MarkId(id), i + |MarkText(id)| - 1)
  {
    hide Digits, Value, Number;
    HereParts(text, i, "{", id + ("!" + "}"));
    HereParts(text, i + 1, id, "!" + "}");
    var j := i + 1 + |id|;
    HereParts(text, j, "!", "}");
    HereChar(text, i, '{');
    HereChar(text, j, '!');
    HereChar(text, j + 1, '}');
    NumberStop(text, i + 1, id);
  }

  /** The number, or its absence, behind the comma. */
  predicate UpperOk(min: int, m: string) {
    m == "" || (Number(m) && min <= Value(m))
  }

  function UpperTimes(min: int, m: string, close: nat): Braces {
    if m == "" then Times(min, 0, close) else Times(NoneIfZero(Value(m), min), Value(m), close)
  }

  lemma UpperRead(text: string, i: nat, min: nat, m: string)
    requires UpperOk(min, m) && Here(text, i, UpperText(m))
    ensures i < |text| && text[i] == ',' && UpperBound(text, i + 1, min) == UpperTimes(min, m, i + 1 + |m|)
  {
    hide Digits, Value, Number, Here;
    HereParts(text, i, ",", m + "}");
    HereParts(text, i + 1, m, "}");
    HereChar(text, i, ',');
    HereChar(text, i + 1 + |m|, '}');
    if m != "" {
      NumberStop(text, i + 1, m);
    }
  }

  lemma UpperWritten(text: string, i: nat, min: nat) returns (m: string)
    requires i < |text| && text[i] == ',' && UpperBound(text, i + 1, min).Times?
    ensures UpperOk(min, m) && Here(text, i, UpperText(m))
    ensures UpperBound(text, i + 1, min) == UpperTimes(min, m, i + 1 + |m|)
  {
    hide Digits, Value, Number, Here;
    m := "";
    HereChar(text, i, ',');
    if text[i + 1] == '}' {
      EmptyHere(text, i + 1);
    } else {
      m := NumberWritten(text, i + 1);
    }
    HereChar(text, i + 1 + |m|, '}');
    HereJoin(text, i + 1, m, "}");
    HereJoin(text, i, ",", m + "}");
  }

  lemma EmptyHere(text: string, i: nat)
    requires i <= |text|
    ensures Here(text, i, "")
  {
  }

  /** What follows the first number decides. */
  lemma LowerRead(text: string, i: nat, n: string, rest: string)
    requires Number(n) && Here(text, i, "{" + (n + rest)) && rest != "" && !IsDigit(rest[0])
    ensures i + 1 < |text| && text[i] == '{' && IsDigit(text[i + 1]) && Value(n) >= 0
    ensures i + 1 + |n| < |text| && text[i + 1 + |n|] == rest[0] && Here(text, i + 1 + |n|, rest)
    ensures Digits(text, i + 1, 0) == (Value(n), i + 1 + |n|)
  {
    hide Digits, Value, Number;
    HereParts(text, i, "{", n + rest);
    HereParts(text, i + 1, n, rest);
    HereChar(text, i, '{');
    var j := i + 1 + |n|;
    assert text[j] == text[j..j + |rest|][0];
    NumberStop(text, i + 1, n);
  }

  lemma CommaRead(text: string, i: nat, m: string)
    requires UpperOk(0, m) && Here(text, i, "{" + UpperText(m))
    ensures i < |text| && text[i] == '{' && BracesAt(text, i, false) == UpperTimes(0, m, i + 2 + |m|)
  {
    hide Here, UpperBound, UpperOk, UpperTimes;
    HereParts(text, i, "{", UpperText(m));
    HereChar(text, i, '{');
    UpperRead(text, i + 1, 0, m);
  }

  lemma LowerUpperRead(text: string, i: nat, n: string, m: string)
    requires Number(n) && UpperOk(Value(n), m) && Here(text, i, "{" + (n + UpperText(m)))
    ensures i < |text| && text[i] == '{' && BracesAt(text, i, false) == UpperTimes(Value(n), m, i + 2 + |n| + |m|)
  {
    hide Here, UpperBound, UpperOk, UpperTimes, Number, Digits, Value;
    LowerRead(text, i, n, UpperText(m));
    UpperRead(text, i + 1 + |n|, Value(n), m);
  }

  lemma CountRead(text: string, i: nat, c: Count)
    requires CountOk(c) && Here(text, i, CountText(c))
    ensures i < |text| && text[i] == '{'
    ensures BracesAt(text, i, false) == Times(Bounds(c).0, Bounds(c).1, i + |CountText(c)| - 1)
  {
    hide Value, Number, Here, UpperBound, Digits;
    match c
    case Exactly(n) => LowerRead(text, i, n, "}");
    case AtLeast(n) => LowerUpperRead(text, i, n, "");
    case Between(n, m) =>
      NumberNat(m);
      LowerUpperRead(text, i, n, m);
    case UpTo(m) =>
      NumberNat(m);
      CommaRead(text, i, m);
    case AnyTimes => CommaRead(text, i, "");
  }

  lemma NumberNat(n: string)
    requires Number(n)
    ensures Value(n) >= 0 && n != ""
  {
    ValueNat(n);
  }

  /** What is read as a repetition is one, written there. */
  lemma CountWritten(text: string, i: nat) returns (c: Count)
    requires i < |text| && text[i] == '{' && BracesAt(text, i, false).Times?
    ensures CountOk(c) && BracesAt(text, i, false) == Times(Bounds(c).0, Bounds(c).1, i + |CountText(c)| - 1)
    ensures Here(text, i, CountText(c))
  {
    hide Digits, Value, Number, UpperBound, Here;
    HereChar(text, i, '{');
    if text[i + 1] == ',' {
      var m := UpperWritten(text, i + 1, 0);
      HereJoin(text, i, "{", UpperText(m));
      c := if m == "" then AnyTimes else UpTo(m);
    } else {
      var n := NumberWritten(text, i + 1);
      var j := i + 1 + |n|;
      NumberNat(n);
      if text[j] == '}' {
        c := Exactly(n);
        HereChar(text, j, '}');
        HereJoin(text, i + 1, n, "}");
        HereJoin(text, i, "{", n + "}");
      } else {
        var m := UpperWritten(text, j, Value(n));
        HereJoin(text, i + 1, n, UpperText(m));
        HereJoin(text, i, "{", n + UpperText(m));
        c := if m == "" then AtLeast(n) else Between(n, m);
      }
    }
  }

  lemma MarkWritten(text: string, i: nat, begin: bool) returns (id: string)
    requires i < |text| && text[i] == '{' && BracesAt(text, i, begin).Mark?
    ensures Number(id) && BracesAt(text, i, begin) == Mark(MarkId(id), i + |MarkText(id)| - 1)
    ensures Here(text, i, MarkText(id))
  {
    hide Digits, Value, Number, Here;
    HereChar(text, i, '{');
    id := NumberWritten(text, i + 1);
    var j := i + 1 + |id|;
    HereChar(text, j, '!');
    HereChar(text, j + 1, '}');
    HereJoin(text, j, "!", "}");
    HereJoin(text, i + 1, id, "!" + "}");
    HereJoin(text, i, "{", id + ("!" + "}"));
  }

  /** A repetition is read behind a term only; a mark anywhere. */
  lemma BeginMatters(text: string, i: nat)
    requires i < |text|
    ensures BracesAt(text, i, true) == if BracesAt(text, i, false).Times? then Plain else BracesAt(text, i, false)
  {
    hide Digits;
  }

  /** A brace is a plain character exactly where it opens nothing. */
  lemma PlainExactly(text: string, i: nat, begin: bool)
    requires i < |text| && text[i] == '{'
    ensures BracesAt(text, i, begin).Plain? <==> !Opens(text, i, begin)
  {
    hide BracesAt, CountText, MarkText, CountOk, Number, Bounds, Value, Here;
    BeginMatters(text, i);
    if Opens(text, i, begin) {
      if id :| Number(id) && Here(text, i, MarkText(id)) {
        MarkRead(text, i, id, begin);
      } else {
        var c :| !begin && CountOk(c) && Here(text, i, CountText(c));
        CountRead(text, i, c);
      }
    } else if BracesAt(text, i, begin).Mark? {
      var id := MarkWritten(text, i, begin);
    } else if BracesAt(text, i, begin).Times? {
      var c := CountWritten(text, i);
    }
  }

  // ---------------------------------------------------------- bracket expressions

  lemma WrittenRead(text: string, i: nat, x: Written)
    requires Here(text, i, WrittenText(x)) && (x.Bare? ==> x.c != '\\')
    ensures CharAt(text, i) == Some((Code(x), i + |WrittenText(x)|))
    ensures i < |text| && text[i] == if x.Bare? then x.c else '\\'
  {
    match x
    case Bare(c) => HereChar(text, i, c);
    case Escaped(c) =>
      HereParts(text, i, ['\\'], [c]);
      HereChar(text, i, '\\');
      HereChar(text, i + 1, c);
  }

  function First(ms: seq<Piece>): Written
    requires ms != []
  {
    if ms[0].OnePiece? then ms[0].x else ms[0].a
  }

  /** The character with which members begin. */
  lemma PiecesStart(text: string, i: nat, ms: seq<Piece>)
    requires Here(text, i, PiecesText(ms))
    ensures i < |text|
    ensures ms == [] ==> text[i] == ']'
    ensures ms != [] ==> text[i] == if First(ms).Bare? then First(ms).c else '\\'
    ensures ms != [] ==> Here(text, i, PieceText(ms[0])) && Here(text, i + |PieceText(ms[0])|, PiecesText(ms[1..]))
  {
    hide PieceText, Here;
    if ms == [] {
      HereChar(text, i, ']');
    } else {
      HereParts(text, i, PieceText(ms[0]), PiecesText(ms[1..]));
      PieceStart(text, i, ms[0], First(ms));
    }
  }

  lemma PieceStart(text: string, i: nat, m: Piece, x: Written)
    requires Here(text, i, PieceText(m)) && x == if m.OnePiece? then m.x else m.a
    ensures i < |text| && text[i] == if x.Bare? then x.c else '\\'
  {
    if m.SpanPiece? {
      HereParts(text, i, WrittenText(m.a) + "-", WrittenText(m.b));
      HereParts(text, i, WrittenText(m.a), "-");
    }
    if x.Bare? {
      HereChar(text, i, x.c);
    } else {
      HereParts(text, i, ['\\'], [x.c]);
      HereChar(text, i, '\\');
    }
  }

  lemma SpanRead(text: string, i: nat, a: Written, b: Written)
    requires Inside(a) && Inside(b) && Here(text, i, PieceText(SpanPiece(a, b)))
    ensures var j := i + |WrittenText(a)|;
      && CharAt(text, i) == Some((Code(a), j)) && text[i] != ']'
      && j + 1 < |text| && text[j] == '-' && text[j + 1] != ']' && j + 1 < i + |PieceText(SpanPiece(a, b))|
      && CharAt(text, j + 1) == Some((Code(b), i + |PieceText(SpanPiece(a, b))|))
    ensures PieceSense(SpanPiece(a, b)) == SortedSpan(Code(a), Code(b))
  {
    var j := i + |WrittenText(a)|;
    HereParts(text, i, WrittenText(a) + "-", WrittenText(b));
    HereParts(text, i, WrittenText(a), "-");
    WrittenRead(text, i, a);
    HereChar(text, j, '-');
    WrittenRead(text, j + 1, b);
  }

  /** One member, with the others behind it. */
  lemma PieceRead(text: string, i: nat, ms: seq<Piece>, read: seq<Member>)
    requires ms != [] && PiecesFit(ms, false) && Here(text, i, PiecesText(ms))
    ensures Members(text, i, read) == Members(text, i + |PieceText(ms[0])|, read + [PieceSense(ms[0])])
  {
    hide Members, PiecesText, Here, CharAt, WrittenText;
    PiecesStart(text, i, ms);
    MembersNext(text, i, read);
    var k := i + |PieceText(ms[0])|;
    var rest := ms[1..];
    PiecesStart(text, k, rest);
    match ms[0]
    case OnePiece(x) =>
      WrittenRead(text, i, x);
      if rest == [OnePiece(Bare('-'))] {
        LastDash(text, k, rest);
      }
    case SpanPiece(a, b) => SpanRead(text, i, a, b);
  }

  lemma LastDash(text: string, k: nat, ms: seq<Piece>)
    requires ms == [OnePiece(Bare('-'))] && Here(text, k, PiecesText(ms))
    ensures k + 1 < |text| && text[k + 1] == ']'
  {
    hide Here;
    PiecesStart(text, k, ms);
    assert PieceText(ms[0]) == "-";
    PiecesStart(text, k + 1, ms[1..]);
  }

  lemma {:induction false} PiecesRead(text: string, i: nat, ms: seq<Piece>, read: seq<Member>)
    requires PiecesFit(ms, false) && Here(text, i, PiecesText(ms))
    ensures PiecesText(ms) != "" && Members(text, i, read) == Some((read + PiecesSense(ms), i + |PiecesText(ms)| - 1))
    decreases |ms|
  {
    hide PieceText, Here, PieceSense;
    PiecesStart(text, i, ms);
    if ms == [] {
      assert read + [] == read;
    } else {
      hide Members, PiecesText, PiecesSense;
      PieceRead(text, i, ms, read);
      PiecesRead(text, i + |PieceText(ms[0])|, ms[1..], read + [PieceSense(ms[0])]);
      PiecesSplit(ms);
      Regroup(read, PieceSense(ms[0]), PiecesSense(ms[1..]));
    }
  }

  lemma Regroup(read: seq<Member>, m: Member, rest: seq<Member>)
    ensures read + [m] + rest == read + ([m] + rest)
  {
  }

  /** The first member may be a bracket. */
  lemma LeadingRead(text: string, j: nat, ms: seq<Piece>)
    requires ms != [] && PiecesFit(ms, true) && Here(text, j, PiecesText(ms))
    ensures j < |text| && PiecesText(ms) != ""
    ensures (if text[j] == ']' then Members(text, j + 1, [One(']' as int)]) else Members(text, j, []))
      == Some((PiecesSense(ms), j + |PiecesText(ms)| - 1))
  {
    hide PiecesSense, Members, Here;
    PiecesStart(text, j, ms);
    if ms[0] == OnePiece(Bare(']')) {
      assert PieceText(ms[0]) == "]";
      PiecesRead(text, j + 1, ms[1..], [One(']' as int)]);
      PiecesSplit(ms);
    } else {
      assert PiecesFit(ms, false);
      PiecesRead(text, j, ms, []);
      assert [] + PiecesSense(ms) == PiecesSense(ms);
    }
  }

  lemma PiecesSplit(ms: seq<Piece>)
    requires ms != []
    ensures PiecesSense(ms) == [PieceSense(ms[0])] + PiecesSense(ms[1..])
    ensures PiecesText(ms) == PieceText(ms[0]) + PiecesText(ms[1..])
  {
  }

  function OpenText(invert: bool): string {
    "[" + if invert then "^" else ""
  }

  lemma BracketOpens(text: string, i: nat, invert: bool, rest: string)
    requires Here(text, i, OpenText(invert) + rest)
    ensures i < |text| && text[i] == '[' && (invert ==> i + 1 < |text| && text[i + 1] == '^')
    ensures |OpenText(invert)| == (if invert then 2 else 1) && Here(text, i + |OpenText(invert)|, rest)
  {
    var hat := if invert then "^" else "";
    HereParts(text, i, OpenText(invert), rest);
    HereParts(text, i, "[", hat);
    HereChar(text, i, '[');
    if invert {
      HereChar(text, i + 1, '^');
    }
  }

  lemma BracketRead(text: string, i: nat, invert: bool, ms: seq<Piece>)
    requires ms != [] && PiecesFit(ms, true) && (!invert ==> !Leads(ms, '^'))
    requires Here(text, i, OpenText(invert) + PiecesText(ms))
    ensures i < |text| && text[i] == '['
    ensures ClassAt(text, i)
      == Some((Class(invert, PiecesSense(ms)), i + |OpenText(invert)| + |PiecesText(ms)| - 1))
  {
    hide PiecesText, Members, PiecesSense, PiecesFit, Here, OpenText;
    BracketOpens(text, i, invert, PiecesText(ms));
    var j := i + |OpenText(invert)|;
    PiecesStart(text, j, ms);
    LeadingRead(text, j, ms);
  }

  // ------------------------------------------------- terms, chains and alternatives

  /** Reading the part of the text from `i` to `j` takes `p` to `q`. */
  ghost predicate Reads(text: string, i: nat, p: Partial, j: nat, q: Partial) {
    i <= j <= |text| && p.Valid() && q.Valid() && TreeFrom(text, i, p) == TreeFrom(text, j, q)
  }

  lemma OneStep(text: string, i: nat, p: Partial, j: nat, q: Partial)
    requires i < |text| && p.Valid() && Advance(text, i, p) == Next(j, q)
    ensures Reads(text, i, p, j, q)
  {
    hide Advance;
  }

  lemma ReadsThen(text: string, i: nat, p: Partial, j: nat, q: Partial, k: nat, r: Partial)
    requires Reads(text, i, p, j, q) && Reads(text, j, q, k, r)
    ensures Reads(text, i, p, k, r)
  {
    hide TreeFrom;
  }

  /** A term more.  A brace that stands for itself leaves the beginning a beginning. */
  function WithNode(p: Partial, t: Node): Partial {
    p.Cur(Snoc(p.inner.cur, NodeSense(t))).(begin := p.begin && t == LoneBrace)
  }

  lemma SymRead(text: string, i: nat, x: Written, p: Partial)
    requires NodeFits(text, i, Sym(x), p.begin) && Here(text, i, WrittenText(x)) && p.Valid()
    ensures Reads(text, i, p, i + |WrittenText(x)|, WithNode(p, Sym(x)))
  {
    hide Reads, BracesAt, Opens;
    match x
    case Bare(c) =>
      HereChar(text, i, c);
      if c == '{' {
        PlainExactly(text, i, p.begin);
      }
      OneStep(text, i, p, i + 1, WithNode(p, Sym(x)));
    case Escaped(c) =>
      HereParts(text, i, ['\\'], [c]);
      HereChar(text, i, '\\');
      HereChar(text, i + 1, c);
      OneStep(text, i, p, i + 2, WithNode(p, Sym(x)));
  }

  lemma ClassRead(text: string, i: nat, invert: bool, ms: seq<Piece>, p: Partial)
    requires NodeFits(text, i, Bracket(invert, ms), p.begin) && Here(text, i, NodeText(Bracket(invert, ms)))
      && p.Valid()
    ensures Reads(text, i, p, i + |NodeText(Bracket(invert, ms))|, WithNode(p, Bracket(invert, ms)))
  {
    hide Reads, ClassAt, PiecesFit, PiecesText, PiecesSense, Leads;
    BracketRead(text, i, invert, ms);
    ClassCase(text, i, p);
    OneStep(text, i, p, i + |NodeText(Bracket(invert, ms))|, WithNode(p, Bracket(invert, ms)));
  }

  lemma PostfixRead(text: string, i: nat, p: Partial, b: Node, op: char, t: Node)
    requires Here(text, i, [op]) && p.Valid() && !(p.begin && b == LoneBrace)
    requires (op == '*' && t == Starred(b)) || (op == '+' && t == Plussed(b)) || (op == '?' && t == Opted(b))
    ensures Reads(text, i, WithNode(p, b), i + 1, WithNode(p, t))
  {
    hide Reads;
    HereChar(text, i, op);
    OneStep(text, i, WithNode(p, b), i + 1, WithNode(p, t));
  }

  lemma CountedRead(text: string, i: nat, p: Partial, b: Node, c: Count)
    requires Here(text, i, CountText(c)) && CountOk(c) && p.Valid() && !(p.begin && b == LoneBrace)
    ensures Reads(text, i, WithNode(p, b), i + |CountText(c)|, WithNode(p, Counted(b, c)))
  {
    hide Reads, BracesAt, CountText, CountOk, Bounds, Repeated;
    CountRead(text, i, c);
    CountBounds(c);
    BraceCase(text, i, WithNode(p, b));
    OneStep(text, i, WithNode(p, b), i + |CountText(c)|, WithNode(p, Counted(b, c)));
  }

  lemma MarkedRead(text: string, i: nat, p: Partial, b: Node, id: string)
    requires Here(text, i, MarkText(id)) && Number(id) && p.Valid() && !(p.begin && b == LoneBrace)
    ensures Reads(text, i, WithNode(p, b), i + |MarkText(id)|, WithNode(p, Marked(b, id)))
  {
    hide Reads, BracesAt, MarkText, Number, MarkId;
    MarkRead(text, i, id, false);
    BraceCase(text, i, WithNode(p, b));
    OneStep(text, i, WithNode(p, b), i + |MarkText(id)|, WithNode(p, Marked(b, id)));
  }

  lemma {:induction false} NodeRead(text: string, i: nat, t: Node, p: Partial)
    requires NodeFits(text, i, t, p.begin) && Here(text, i, NodeText(t)) && p.Valid()
    ensures Reads(text, i, p, i + |NodeText(t)|, WithNode(p, t))
    decreases t, 0
  {
    hide Reads, ChoiceText, ChoiceFits, WithNode, Here, CountOk, CountText, Number, MarkText, PiecesFit, PiecesText,
      Stands;
    match t
    case Sym(x) => SymRead(text, i, x, p);
    case Dot => DotRead(text, i, p);
    case Bracket(invert, ms) => ClassRead(text, i, invert, ms, p);
    case Paren(a) => ParenRead(text, i, a, p);
    case Starred(b) =>
      BodyRead(text, i, b, "*", p);
      PostfixRead(text, i + |NodeText(b)|, p, b, '*', t);
      ReadsThen(text, i, p, i + |NodeText(b)|, WithNode(p, b), i + |NodeText(t)|, WithNode(p, t));
    case Plussed(b) =>
      BodyRead(text, i, b, "+", p);
      PostfixRead(text, i + |NodeText(b)|, p, b, '+', t);
      ReadsThen(text, i, p, i + |NodeText(b)|, WithNode(p, b), i + |NodeText(t)|, WithNode(p, t));
    case Opted(b) =>
      BodyRead(text, i, b, "?", p);
      PostfixRead(text, i + |NodeText(b)|, p, b, '?', t);
      ReadsThen(text, i, p, i + |NodeText(b)|, WithNode(p, b), i + |NodeText(t)|, WithNode(p, t));
    case Counted(b, c) =>
      BodyRead(text, i, b, CountText(c), p);
      CountedRead(text, i + |NodeText(b)|, p, b, c);
      ReadsThen(text, i, p, i + |NodeText(b)|, WithNode(p, b), i + |NodeText(t)|, WithNode(p, t));
    case Marked(b, id) =>
      BodyRead(text, i, b, MarkText(id), p);
      MarkedRead(text, i + |NodeText(b)|, p, b, id);
      ReadsThen(text, i, p, i + |NodeText(b)|, WithNode(p, b), i + |NodeText(t)|, WithNode(p, t));
  }

  /** A term, with its operator behind it. */
  lemma {:induction false} BodyRead(text: string, i: nat, b: Node, op: string, p: Partial)
    requires BodyFits(text, i, b, p.begin) && Here(text, i, NodeText(b) + op) && p.Valid()
    ensures Reads(text, i, p, i + |NodeText(b)|, WithNode(p, b)) && Here(text, i + |NodeText(b)|, op)
    decreases b, 1
  {
    hide Reads, NodeText, NodeFits, WithNode, Here;
    HereParts(text, i, NodeText(b), op);
    NodeRead(text, i, b, p);
  }

  lemma DotRead(text: string, i: nat, p: Partial)
    requires Here(text, i, ".") && p.Valid()
    ensures Reads(text, i, p, i + 1, WithNode(p, Dot))
  {
    hide Reads;
    HereChar(text, i, '.');
    OneStep(text, i, p, i + 1, WithNode(p, Dot));
  }

  function LastOf(a: Choice): Chain {
    match a
    case Sole(s) => s
    case Bar(_, s) => s
  }

  function LevelOf(a: Choice): Level {
    match a
    case Sole(s) => Level(None, ChainSense(s))
    case Bar(l, s) => Level(Some(ChoiceSense(l)), ChainSense(s))
  }

  /** What has been read once the alternatives stand in the innermost bracket. */
  function WithChoice(p: Partial, a: Choice): Partial {
    p.(inner := LevelOf(a), begin := Starts(LastOf(a)))
  }

  function WithChain(p: Partial, s: Chain): Partial {
    p.Cur(ChainSense(s)).(begin := Starts(s))
  }

  function Opened(p: Partial): Partial {
    p.(outer := p.outer + [p.inner], inner := FreshLevel, begin := true)
  }

  lemma {:induction false} ParenRead(text: string, i: nat, a: Choice, p: Partial)
    requires ChoiceFits(text, i + 1, a) && Here(text, i, "(" + ChoiceText(a) + ")") && p.Valid()
    ensures Reads(text, i, p, i + |ChoiceText(a)| + 2, WithNode(p, Paren(a)))
    decreases a, 1
  {
    hide Reads, ChoiceText, ChoiceFits, Here;
    var j := i + 1 + |ChoiceText(a)|;
    HereParts(text, i, "(" + ChoiceText(a), ")");
    HereParts(text, i, "(", ChoiceText(a));
    HereChar(text, i, '(');
    HereChar(text, j, ')');
    OneStep(text, i, p, i + 1, Opened(p));
    ChoiceRead(text, i + 1, a, Opened(p));
    ReadsThen(text, i, p, i + 1, Opened(p), j, WithChoice(Opened(p), a));
    ReadsOk(text, i, p, j, WithChoice(Opened(p), a));
    CloseRead(text, j, p, a);
    ReadsThen(text, i, p, j, WithChoice(Opened(p), a), j + 1, WithNode(p, Paren(a)));
  }

  lemma LevelFinished(a: Choice)
    ensures Finished(LevelOf(a)) == ChoiceSense(a)
  {
  }

  lemma CloseRead(text: string, j: nat, p: Partial, a: Choice)
    requires j < |text| && text[j] == ')' && WithChoice(Opened(p), a).Valid() && p.Valid()
    ensures Reads(text, j, WithChoice(Opened(p), a), j + 1, WithNode(p, Paren(a)))
  {
    hide Reads, ChainSense, Starts, ChoiceSense, LevelOf;
    LevelFinished(a);
    var q := WithChoice(Opened(p), a);
    assert q.outer[..|q.outer| - 1] == p.outer;
    assert Close(q) == WithNode(p, Paren(a));
    OneStep(text, j, q, j + 1, WithNode(p, Paren(a)));
  }

  lemma {:induction false} ChoiceRead(text: string, i: nat, a: Choice, p: Partial)
    requires ChoiceFits(text, i, a) && Here(text, i, ChoiceText(a))
    requires p.begin && p.inner == FreshLevel
    ensures Reads(text, i, p, i + |ChoiceText(a)|, WithChoice(p, a))
    decreases a, 0
  {
    hide Reads, ChainText, ChainFits, Here, ChainSense, Starts;
    match a
    case Sole(s) =>
      ChainRead(text, i, s, p);
    case Bar(l, s) =>
      var j := i + |ChoiceText(l)|;
      HereParts(text, i, ChoiceText(l) + "|", ChainText(s));
      HereParts(text, i, ChoiceText(l), "|");
      HereChar(text, j, '|');
      ChoiceRead(text, i, l, p);
      var q := p.(inner := Level(Some(ChoiceSense(l)), Empty), begin := true);
      ReadsOk(text, i, p, j, WithChoice(p, l));
      BarRead(text, j, p, l);
      ReadsThen(text, i, p, j, WithChoice(p, l), j + 1, q);
      ChainRead(text, j + 1, s, q);
      ReadsThen(text, i, p, j + 1, q, i + |ChoiceText(a)|, WithChoice(p, a));
  }

  lemma BarRead(text: string, j: nat, p: Partial, l: Choice)
    requires j < |text| && text[j] == '|' && WithChoice(p, l).Valid()
    ensures Reads(text, j, WithChoice(p, l), j + 1, p.(inner := Level(Some(ChoiceSense(l)), Empty), begin := true))
  {
    hide Reads, ChoiceSense, LevelOf, Starts;
    LevelFinished(l);
    OneStep(text, j, WithChoice(p, l), j + 1, p.(inner := Level(Some(ChoiceSense(l)), Empty), begin := true));
  }

  lemma {:induction false} ChainRead(text: string, i: nat, s: Chain, p: Partial)
    requires ChainFits(text, i, s) && Here(text, i, ChainText(s))
    requires p.begin && p.inner.cur == Empty
    ensures Reads(text, i, p, i + |ChainText(s)|, WithChain(p, s))
    decreases s, 0
  {
    hide Reads, NodeText, NodeFits, NodeSense, MarkText, Number, Here, LoneBrace;
    match s
    case Nil => ChainEmpty(text, i, p);
    case Link(init, t) =>
      var j := i + |ChainText(init)|;
      HereParts(text, i, ChainText(init), NodeText(t));
      ChainRead(text, i, init, p);
      ReadsOk(text, i, p, j, WithChain(p, init));
      NodeRead(text, j, t, WithChain(p, init));
      ReadsThen(text, i, p, j, WithChain(p, init), j + |NodeText(t)|, WithChain(p, s));
    case Remark(init, id) =>
      var j := i + |ChainText(init)|;
      HereParts(text, i, ChainText(init), MarkText(id));
      ChainRead(text, i, init, p);
      RemarkRead(text, j, id, WithChain(p, init));
      ReadsThen(text, i, p, j, WithChain(p, init), j + |MarkText(id)|, WithChain(p, s));
  }

  lemma ReadsOk(text: string, i: nat, p: Partial, j: nat, q: Partial)
    requires Reads(text, i, p, j, q)
    ensures q.Valid()
  {
  }

  lemma ChainEmpty(text: string, i: nat, p: Partial)
    requires p.begin && Here(text, i, "") && p.inner.cur == Empty
    ensures Reads(text, i, p, i, WithChain(p, Nil))
  {
    assert WithChain(p, Nil) == p;
  }

  lemma RemarkRead(text: string, j: nat, id: string, p: Partial)
    requires Here(text, j, MarkText(id)) && Number(id) && p.begin
    ensures Reads(text, j, p, j + |MarkText(id)|, p.Cur(Note(p.inner.cur, MarkId(id))))
  {
    hide Reads, BracesAt, MarkText, Number, MarkId;
    MarkRead(text, j, id, true);
    BraceCase(text, j, p);
    OneStep(text, j, p, j + |MarkText(id)|, p.Cur(Note(p.inner.cur, MarkId(id))));
  }

  /** Every spelling is read as its pattern. */
  lemma SpellingRead(w: Whole, text: string)
    requires Spells(w, text)
    ensures Tree(text) == Some(WholeSense(w))
  {
    hide ChoiceText, ChoiceFits, TreeFrom, Here;
    var open, close := if w.hat then "^" else "", if w.dollar then "$" else "";
    var i, j := |open|, |open + ChoiceText(w.choice)|;
    var q := Fresh(w.hat);
    WholeHere(text, open, ChoiceText(w.choice), close);
    ChoiceRead(text, i, w.choice, q);
    LevelFinished(w.choice);
    if w.dollar {
      HereChar(text, j, '$');
    }
    TextEnds(text, j, WholeSense(w), WithChoice(q, w.choice));
  }

  lemma WholeHere(text: string, open: string, inside: string, close: string)
    requires text == open + inside + close
    ensures Here(text, 0, open) && Here(text, |open|, inside) && Here(text, |open + inside|, close)
  {
    assert Here(text, 0, open + inside + close);
    HereParts(text, 0, open + inside, close);
    HereParts(text, 0, open, inside);
  }

  lemma TextEnds(text: string, j: nat, p: Pattern, q: Partial)
    requires q.outer == [] && Finished(q.inner) == p.alts && q.matchBegin == p.matchBegin && !q.matchEnd && q.Valid()
    requires j == |text| - (if p.matchEnd then 1 else 0) && (p.matchEnd ==> text[j] == '$')
    ensures TreeFrom(text, j, q) == Some(p)
  {
    if p.matchEnd {
      assert Advance(text, j, q) == Next(j + 1, q.(matchEnd := true));
    }
  }
}
