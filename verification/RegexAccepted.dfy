/** Nothing but the notation is accepted: from the steps of the parser over any accepted
    text a spelling of the whole text is put together. */
module RegexAccepted {
  import opened Wrappers
  import opened RegexSyntax
  import opened RegexParse
  import opened RegexSpelling
  import opened RegexReading

  // ---------------------------------------------------------- bracket expressions

  /** The character at `i`, as it is written there. */
  lemma CharWritten(text: string, i: nat) returns (x: Written)
    requires CharAt(text, i).Some? && text[i] != ']'
    ensures Inside(x) && Here(text, i, WrittenText(x)) && CharAt(text, i) == Some((Code(x), i + |WrittenText(x)|))
  {
    HereChar(text, i, text[i]);
    if text[i] == '\\' {
      x := Escaped(text[i + 1]);
      HereChar(text, i + 1, text[i + 1]);
      HereJoin(text, i, ['\\'], [text[i + 1]]);
    } else {
      x := Bare(text[i]);
    }
  }

  lemma SpanDash(text: string, j: nat, b: Written)
    requires Here(text, j, PieceText(SpanPiece(Bare('-'), b)))
    ensures j + 3 <= |text| && text[j + 1] == '-'
  {
    HereParts(text, j, "-" + "-", WrittenText(b));
    HereParts(text, j, "-", "-");
    HereChar(text, j + 1, '-');
  }

  lemma DashMore(text: string, j: nat, ms: seq<Piece>)
    requires ms != [] && PiecesFit(ms, false) && Here(text, j, PiecesText(ms))
    ensures j + 2 <= |text| && text[j] != ']'
  {
    hide PiecesText;
    PiecesStart(text, j, ms);
    PiecesStart(text, j + |PieceText(ms[0])|, ms[1..]);
  }

  /** Behind a single character, a minus that makes no span is the last member. */
  lemma DashIsLast(text: string, j: nat, ms: seq<Piece>)
    requires PiecesFit(ms, false) && Here(text, j, PiecesText(ms)) && Leads(ms, '-')
    requires j + 3 <= |text| ==> text[j + 1] == ']'
    ensures ms == [OnePiece(Bare('-'))]
  {
    hide PiecesText, Here;
    PiecesStart(text, j, ms);
    if ms[0].SpanPiece? {
      SpanDash(text, j, ms[0].b);
    } else if ms[1..] != [] {
      OneText('-');
      DashMore(text, j + 1, ms[1..]);
    }
  }

  lemma {:induction false} PiecesWritten(text: string, i: nat, read: seq<Member>) returns (ms: seq<Piece>)
    requires Members(text, i, read).Some?
    ensures PiecesFit(ms, false) && Here(text, i, PiecesText(ms)) && PiecesText(ms) != ""
    ensures Members(text, i, read) == Some((read + PiecesSense(ms), i + |PiecesText(ms)| - 1))
    decreases |text| - i
  {
    hide Members, Here, WrittenText, Inside;
    MembersNext(text, i, read);
    if text[i] == ']' {
      ms := [];
      HereChar(text, i, ']');
      assert read + [] == read;
    } else {
      var x := CharWritten(text, i);
      var (left, j) := CharAt(text, i).value;
      if j + 3 <= |text| && text[j] == '-' && text[j + 1] != ']' {
        var y := CharWritten(text, j + 1);
        var (right, k) := CharAt(text, j + 1).value;
        var rest := PiecesWritten(text, k, read + [SortedSpan(left, right)]);
        ms := [SpanPiece(x, y)] + rest;
        SpanWritten(text, i, x, y);
        PiecesJoin(text, i, SpanPiece(x, y), rest, read);
      } else {
        var rest := PiecesWritten(text, j, read + [One(left)]);
        ms := [OnePiece(x)] + rest;
        if Leads(rest, '-') {
          PiecesStart(text, j, rest);
          DashIsLast(text, j, rest);
        }
        PiecesJoin(text, i, OnePiece(x), rest, read);
      }
    }
  }

  lemma SpanWritten(text: string, i: nat, x: Written, y: Written)
    requires Here(text, i, WrittenText(x)) && Here(text, i + |WrittenText(x)| + 1, WrittenText(y))
    requires i + |WrittenText(x)| < |text| && text[i + |WrittenText(x)|] == '-'
    ensures Here(text, i, PieceText(SpanPiece(x, y)))
    ensures PieceSense(SpanPiece(x, y)) == SortedSpan(Code(x), Code(y))
  {
    hide Here, WrittenText;
    HereChar(text, i + |WrittenText(x)|, '-');
    HereJoin(text, i, WrittenText(x), "-");
    HereJoin(text, i, WrittenText(x) + "-", WrittenText(y));
  }

  lemma PiecesJoin(text: string, i: nat, m: Piece, rest: seq<Piece>, read: seq<Member>)
    requires Here(text, i, PieceText(m)) && Here(text, i + |PieceText(m)|, PiecesText(rest))
    ensures Here(text, i, PiecesText([m] + rest)) && |PiecesText([m] + rest)| == |PieceText(m)| + |PiecesText(rest)|
    ensures read + [PieceSense(m)] + PiecesSense(rest) == read + PiecesSense([m] + rest)
  {
    hide Here, PieceText;
    assert ([m] + rest)[1..] == rest;
    HereJoin(text, i, PieceText(m), PiecesText(rest));
  }

  lemma BracketWritten(text: string, i: nat) returns (t: Node)
    requires i < |text| && text[i] == '[' && ClassAt(text, i).Some?
    ensures t.Bracket? && NodeFits(text, i, t, false) && Here(text, i, NodeText(t))
    ensures ClassAt(text, i) == Some((Class(t.invert, PiecesSense(t.pieces)), i + |NodeText(t)| - 1))
  {
    hide Members, Here, PieceText, PiecesText, PiecesSense;
    var invert := i + 1 < |text| && text[i + 1] == '^';
    var hat := if invert then "^" else "";
    var j := i + 1 + |hat|;
    HereChar(text, i, '[');
    if invert {
      HereChar(text, i + 1, '^');
    } else {
      EmptyHere(text, i + 1);
    }
    HereJoin(text, i, "[", hat);
    var ms;
    if text[j] == ']' {
      var rest := PiecesWritten(text, j + 1, [One(']' as int)]);
      ms := [OnePiece(Bare(']'))] + rest;
      HereChar(text, j, ']');
      OneText(']');
      PiecesJoin(text, j, ms[0], rest, []);
      assert ms[1..] == rest;
      assert [] + PiecesSense(ms) == PiecesSense(ms);
      assert [] + [One(']' as int)] + PiecesSense(rest) == [One(']' as int)] + PiecesSense(rest);
    } else {
      ms := PiecesWritten(text, j, []);
      PiecesStart(text, j, ms);
      assert [] + PiecesSense(ms) == PiecesSense(ms);
    }
    HereJoin(text, i, "[" + hat, PiecesText(ms));
    t := Bracket(invert, ms);
  }

  lemma OneText(c: char)
    ensures PieceText(OnePiece(Bare(c))) == [c]
  {
  }

  // ------------------------------------------------------------ what has been read

  /** The alternatives finished inside one bracket, and the current one. */
  datatype Stage = Stage(left: Option<Choice>, cur: Chain)

  const NewStage: Stage := Stage(None, Nil)

  function Done(l: Stage): Choice {
    match l.left
    case None => Sole(l.cur)
    case Some(a) => Bar(a, l.cur)
  }

  function StageSense(l: Stage): Level {
    LevelOf(Done(l))
  }

  function OuterText(outer: seq<Stage>): string {
    if outer == [] then "" else OuterText(outer[..|outer| - 1]) + ChoiceText(Done(outer[|outer| - 1])) + "("
  }

  function OuterSense(outer: seq<Stage>): seq<Level> {
    if outer == [] then [] else OuterSense(outer[..|outer| - 1]) + [StageSense(outer[|outer| - 1])]
  }

  ghost predicate OuterFits(text: string, k: nat, outer: seq<Stage>) {
    outer != [] ==>
      var front, last := outer[..|outer| - 1], outer[|outer| - 1];
      OuterFits(text, k, front) && ChoiceFits(text, k + |OuterText(front)|, Done(last))
  }

  datatype Draft = Draft(outer: seq<Stage>, inner: Stage) {
    function Start(): nat {
      |OuterText(outer)|
    }

    function Text(): string {
      OuterText(outer) + ChoiceText(Done(inner))
    }

    function Cur(s: Chain): Draft {
      this.(inner := inner.(cur := s))
    }
  }

  /** From `k` to `i` the text is spelled by the draft, and read as `p`. */
  ghost predicate Drafts(text: string, k: nat, i: nat, d: Draft, p: Partial) {
    && Here(text, k, d.Text()) && i == k + |d.Text()|
    && OuterFits(text, k, d.outer) && ChoiceFits(text, k + d.Start(), Done(d.inner))
    && p.outer == OuterSense(d.outer) && p.inner == StageSense(d.inner) && p.begin == Starts(d.inner.cur)
  }

  lemma StageGrown(l: Stage, s: Chain, more: string)
    requires ChainText(s) == ChainText(l.cur) + more
    ensures ChoiceText(Done(l.(cur := s))) == ChoiceText(Done(l)) + more
  {
    if l.left.Some? {
      assert ChoiceText(l.left.value) + "|" + (ChainText(l.cur) + more)
          == ChoiceText(l.left.value) + "|" + ChainText(l.cur) + more;
    }
  }

  /** Where the current chain begins. */
  function CurAt(l: Stage, k: nat): nat {
    match l.left
    case None => k
    case Some(a) => k + |ChoiceText(a)| + 1
  }

  lemma StageFits(text: string, k: nat, l: Stage, s: Chain)
    requires ChoiceFits(text, k, Done(l)) && ChainFits(text, CurAt(l, k), s)
    ensures ChoiceFits(text, k, Done(l.(cur := s))) && ChainFits(text, CurAt(l, k), l.cur)
    ensures CurAt(l, k) + |ChainText(l.cur)| == k + |ChoiceText(Done(l))|
  {
  }

  lemma StageSensed(l: Stage, s: Chain)
    ensures StageSense(l.(cur := s)) == StageSense(l).(cur := ChainSense(s))
  {
  }

  lemma StageChain(text: string, k: nat, l: Stage)
    requires ChoiceFits(text, k, Done(l))
    ensures ChainFits(text, CurAt(l, k), l.cur) && CurAt(l, k) + |ChainText(l.cur)| == k + |ChoiceText(Done(l))|
  {
  }

  /** The current chain grows by `more`. */
  lemma ChainGrown(text: string, k: nat, i: nat, d: Draft, p: Partial, s: Chain, more: string)
    requires Drafts(text, k, i, d, p) && Here(text, i, more) && ChainText(s) == ChainText(d.inner.cur) + more
    requires ChainFits(text, CurAt(d.inner, k + d.Start()), s)
    ensures Drafts(text, k, i + |more|, d.Cur(s), p.Cur(ChainSense(s)).(begin := Starts(s)))
  {
    hide Here, OuterFits, ChoiceFits, ChainFits, OuterText, ChainSense, Starts;
    hide ChainText, ChoiceText, Done, StageSense, CurAt;
    StageGrown(d.inner, s, more);
    StageFits(text, k + d.Start(), d.inner, s);
    StageSensed(d.inner, s);
    assert d.Cur(s).Text() == d.Text() + more;
    HereJoin(text, k, d.Text(), more);
  }

  lemma NodeDrafted(text: string, k: nat, i: nat, d: Draft, p: Partial, t: Node)
    requires Drafts(text, k, i, d, p) && Here(text, i, NodeText(t)) && NodeFits(text, i, t, p.begin)
    ensures Drafts(text, k, i + |NodeText(t)|, d.Cur(Link(d.inner.cur, t)), WithNode(p, t))
  {
    hide Here, OuterFits, ChoiceFits, OuterText, NodeText, NodeFits, NodeSense;
    StageChain(text, k + d.Start(), d.inner);
    var s := Link(d.inner.cur, t);
    ChainGrown(text, k, i, d, p, s, NodeText(t));
    assert p.Cur(ChainSense(s)).(begin := Starts(s)) == WithNode(p, t);
  }

  /** Behind the beginning the current chain ends in a term, and not in a brace at the beginning. */
  lemma ChainEnds(text: string, i: nat, s: Chain)
    requires ChainFits(text, i, s) && !Starts(s)
    ensures s.Link? && BodyFits(text, i + |ChainText(s.init)|, s.last, Starts(s.init))
  {
  }

  /** An operator behind the last term. */
  lemma OperatorDrafted(text: string, k: nat, i: nat, d: Draft, p: Partial, op: string)
    returns (init: Chain, b: Node, at: nat)
    requires Drafts(text, k, i, d, p) && !p.begin && Here(text, i, op)
    ensures d.inner.cur == Link(init, b) && p.inner.cur == Snoc(ChainSense(init), NodeSense(b))
    ensures BodyFits(text, at, b, Starts(init))
    ensures forall t :: NodeText(t) == NodeText(b) + op && NodeFits(text, at, t, Starts(init)) && t != LoneBrace ==>
      Drafts(text, k, i + |op|, d.Cur(Link(init, t)), OnLast(p, NodeSense(t)))
  {
    hide Here, OuterFits, ChoiceFits, OuterText, NodeText, NodeFits, NodeSense;
    StageChain(text, k + d.Start(), d.inner);
    var here := CurAt(d.inner, k + d.Start());
    ChainEnds(text, here, d.inner.cur);
    init, b, at := d.inner.cur.init, d.inner.cur.last, here + |ChainText(d.inner.cur.init)|;
    forall t | NodeText(t) == NodeText(b) + op && NodeFits(text, at, t, Starts(init)) && t != LoneBrace
      ensures Drafts(text, k, i + |op|, d.Cur(Link(init, t)), OnLast(p, NodeSense(t)))
    {
      var s := Link(init, t);
      assert ChainText(s) == ChainText(d.inner.cur) + op;
      ChainGrown(text, k, i, d, p, s, op);
      assert p.Cur(ChainSense(s)).(begin := Starts(s)) == OnLast(p, NodeSense(t));
    }
  }

  lemma RemarkDrafted(text: string, k: nat, i: nat, d: Draft, p: Partial, id: string)
    requires Drafts(text, k, i, d, p) && p.begin && Here(text, i, MarkText(id)) && Number(id)
    ensures Drafts(text, k, i + |MarkText(id)|, d.Cur(Remark(d.inner.cur, id)), p.Cur(Note(p.inner.cur, MarkId(id))))
  {
    hide Here, OuterFits, ChoiceFits, OuterText, MarkText, Number, MarkId;
    StageChain(text, k + d.Start(), d.inner);
    var s := Remark(d.inner.cur, id);
    ChainGrown(text, k, i, d, p, s, MarkText(id));
    assert p.Cur(ChainSense(s)).(begin := Starts(s)) == p.Cur(Note(p.inner.cur, MarkId(id)));
  }

  lemma OpenDrafted(text: string, k: nat, i: nat, d: Draft, p: Partial)
    requires Drafts(text, k, i, d, p) && Here(text, i, "(")
    ensures Drafts(text, k, i + 1, Draft(d.outer + [d.inner], NewStage), Opened(p))
  {
    hide Here, ChoiceFits;
    var e := Draft(d.outer + [d.inner], NewStage);
    assert e.outer[..|d.outer|] == d.outer;
    HereJoin(text, k, d.Text(), "(");
    assert e.Text() == d.Text() + "(" + "" == d.Text() + "(";
    EmptyFits(text, k + e.Start());
  }

  lemma EmptyFits(text: string, k: nat)
    ensures ChoiceFits(text, k, Done(NewStage))
  {
  }

  lemma BarFits(text: string, k: nat, a: Choice)
    requires ChoiceFits(text, k, a)
    ensures ChoiceFits(text, k, Bar(a, Nil)) && ChoiceText(Bar(a, Nil)) == ChoiceText(a) + "|"
    ensures LevelOf(Bar(a, Nil)) == Level(Some(ChoiceSense(a)), Empty)
  {
  }

  lemma BarDrafted(text: string, k: nat, i: nat, d: Draft, p: Partial)
    requires Drafts(text, k, i, d, p) && Here(text, i, "|")
    ensures Drafts(text, k, i + 1, d.(inner := Stage(Some(Done(d.inner)), Nil)),
                   p.(inner := Level(Some(Finished(p.inner)), Empty), begin := true))
  {
    hide Here, OuterText, OuterFits, OuterSense, ChoiceSense;
    var a, e := Done(d.inner), d.(inner := Stage(Some(Done(d.inner)), Nil));
    HereJoin(text, k, d.Text(), "|");
    LevelFinished(a);
    BarFits(text, k + d.Start(), a);
    assert Done(e.inner) == Bar(a, Nil);
    assert e.Text() == d.Text() + "|";
  }

  lemma CloseDrafted(text: string, k: nat, i: nat, d: Draft, p: Partial) returns (e: Draft)
    requires Drafts(text, k, i, d, p) && Here(text, i, ")") && p.outer != []
    ensures Drafts(text, k, i + 1, e, Close(p))
  {
    hide Here, ChoiceFits, ChoiceText, ChoiceSense;
    var n := |d.outer| - 1;
    var up, at := Draft(d.outer[..n], d.outer[n]), k + |OuterText(d.outer[..n]) + ChoiceText(Done(d.outer[n]))|;
    var a := Done(d.inner);
    HereParts(text, k, up.Text() + "(", ChoiceText(a));
    HereParts(text, k, up.Text(), "(");
    HereJoin(text, at, "(", ChoiceText(a));
    HereJoin(text, at, "(" + ChoiceText(a), ")");
    var q := p.(outer := OuterSense(up.outer), inner := StageSense(up.inner), begin := Starts(up.inner.cur));
    assert p.outer[..|p.outer| - 1] == q.outer;
    LevelFinished(a);
    NodeDrafted(text, k, at, up, q, Paren(a));
    e := up.Cur(Link(up.inner.cur, Paren(a)));
    assert WithNode(q, Paren(a)) == Close(p);
  }

  // ------------------------------------------------------------------- the steps

  /** The character at `i` that stands for itself. */
  lemma BareDrafted(text: string, k: nat, i: nat, d: Draft, p: Partial)
    requires Drafts(text, k, i, d, p) && i < |text| && Stands(text, i, text[i], p.begin)
    ensures Drafts(text, k, i + 1, d.Cur(Link(d.inner.cur, Sym(Bare(text[i])))), WithNode(p, Sym(Bare(text[i]))))
  {
    hide Drafts, Stands, WithNode;
    HereChar(text, i, text[i]);
    NodeDrafted(text, k, i, d, p, Sym(Bare(text[i])));
  }

  lemma EscapeDrafted(text: string, k: nat, i: nat, d: Draft, p: Partial)
    requires Drafts(text, k, i, d, p) && i + 1 < |text| && text[i] == '\\'
    ensures var t := Sym(Escaped(text[i + 1]));
      Drafts(text, k, i + 2, d.Cur(Link(d.inner.cur, t)), WithNode(p, t))
  {
    hide Drafts, WithNode;
    HereChar(text, i, '\\');
    HereChar(text, i + 1, text[i + 1]);
    HereJoin(text, i, ['\\'], [text[i + 1]]);
    NodeDrafted(text, k, i, d, p, Sym(Escaped(text[i + 1])));
  }

  lemma DotDrafted(text: string, k: nat, i: nat, d: Draft, p: Partial)
    requires Drafts(text, k, i, d, p) && i < |text| && text[i] == '.'
    ensures Drafts(text, k, i + 1, d.Cur(Link(d.inner.cur, Dot)), WithNode(p, Dot))
  {
    hide Drafts, WithNode;
    HereChar(text, i, '.');
    NodeDrafted(text, k, i, d, p, Dot);
  }

  /** A step that extends the draft. */
  ghost predicate Extends(text: string, k: nat, d: Draft, r: Outcome) {
    r.Next? ==> Drafts(text, k, r.i, d, r.p)
  }

  lemma ClassDrafted(text: string, k: nat, i: nat, d: Draft, p: Partial) returns (e: Draft)
    requires Drafts(text, k, i, d, p) && i < |text| && text[i] == '[' && p.Valid()
    ensures Extends(text, k, e, ClassStep(text, i, p))
  {
    hide Drafts, ClassAt, PiecesSense, PiecesText, PiecesFit;
    e := d;
    if ClassAt(text, i).Some? {
      var t := BracketWritten(text, i);
      NodeDrafted(text, k, i, d, p, t);
      e := d.Cur(Link(d.inner.cur, t));
    }
  }

  lemma PostfixDrafted(text: string, k: nat, i: nat, d: Draft, p: Partial, op: char) returns (e: Draft)
    requires Drafts(text, k, i, d, p) && i < |text| && text[i] == op && p.Valid()
    requires op == '*' || op == '+' || op == '?'
    ensures Extends(text, k, e, PostfixStep(i, p, op))
  {
    hide Drafts;
    e := d;
    if !p.begin {
      HereChar(text, i, op);
      var init, b, at := OperatorDrafted(text, k, i, d, p, [op]);
      var t := if op == '*' then Starred(b) else if op == '+' then Plussed(b) else Opted(b);
      assert NodeText(t) == NodeText(b) + [op];
      e := d.Cur(Link(init, t));
    }
  }

  lemma BraceDrafted(text: string, k: nat, i: nat, d: Draft, p: Partial) returns (e: Draft)
    requires Drafts(text, k, i, d, p) && i < |text| && text[i] == '{' && p.Valid()
    ensures Extends(text, k, e, BraceStep(text, i, p))
  {
    hide Drafts, BracesAt, CountText, MarkText, Number, CountOk, Bounds, MarkId, Repeated, Opens;
    PlainExactly(text, i, p.begin);
    BracesOk(text, i, p.begin);
    match BracesAt(text, i, p.begin)
    case Plain =>
      BareDrafted(text, k, i, d, p);
      e := d.Cur(Link(d.inner.cur, LoneBrace));
    case Mark(id, close) =>
      var digits := MarkWritten(text, i, p.begin);
      if p.begin {
        RemarkDrafted(text, k, i, d, p, digits);
        e := d.Cur(Remark(d.inner.cur, digits));
      } else {
        var init, b, at := OperatorDrafted(text, k, i, d, p, MarkText(digits));
        assert NodeText(Marked(b, digits)) == NodeText(b) + MarkText(digits);
        e := d.Cur(Link(init, Marked(b, digits)));
      }
    case Times(min, max, close) =>
      var c := CountWritten(text, i);
      CountBounds(c);
      var init, b, at := OperatorDrafted(text, k, i, d, p, CountText(c));
      assert NodeText(Counted(b, c)) == NodeText(b) + CountText(c);
      e := d.Cur(Link(init, Counted(b, c)));
  }

  lemma StepDrafted(text: string, k: nat, i: nat, d: Draft, p: Partial) returns (e: Draft)
    requires Drafts(text, k, i, d, p) && i < |text| && p.Valid() && !(text[i] == '$' && i + 1 == |text|)
    ensures Extends(text, k, e, Advance(text, i, p))
  {
    hide Drafts, BraceStep, ClassStep, PostfixStep, Close;
    var c := text[i];
    HereChar(text, i, c);
    e := d;
    match c
    case '\\' =>
      if i + 1 < |text| {
        EscapeDrafted(text, k, i, d, p);
        e := d.Cur(Link(d.inner.cur, Sym(Escaped(text[i + 1]))));
      }
    case '.' =>
      DotDrafted(text, k, i, d, p);
      e := d.Cur(Link(d.inner.cur, Dot));
    case '(' =>
      OpenDrafted(text, k, i, d, p);
      e := Draft(d.outer + [d.inner], NewStage);
    case ')' =>
      if p.outer != [] {
        e := CloseDrafted(text, k, i, d, p);
      }
    case '|' =>
      BarDrafted(text, k, i, d, p);
      e := d.(inner := Stage(Some(Done(d.inner)), Nil));
    case '*' => e := PostfixDrafted(text, k, i, d, p, c);
    case '+' => e := PostfixDrafted(text, k, i, d, p, c);
    case '?' => e := PostfixDrafted(text, k, i, d, p, c);
    case '{' => e := BraceDrafted(text, k, i, d, p);
    case '[' => e := ClassDrafted(text, k, i, d, p);
    case _ =>
      BareDrafted(text, k, i, d, p);
      e := d.Cur(Link(d.inner.cur, Sym(Bare(c))));
  }

  // ------------------------------------------------------------------ the whole text

  lemma {:induction false} RestDrafted(text: string, k: nat, i: nat, d: Draft, p: Partial) returns (e: Draft, j: nat)
    requires Drafts(text, k, i, d, p) && p.Valid() && TreeFrom(text, i, p).Some? && k <= i
    ensures e.outer == [] && Here(text, k, e.Text()) && j == k + |e.Text()| && ChoiceFits(text, k, Done(e.inner))
    ensures j == |text| || (j + 1 == |text| && text[j] == '$')
    decreases |text| - i
  {
    hide Advance, ChoiceFits, ChoiceText;
    if i == |text| {
      e, j := d, i;
    } else if text[i] == '$' && i + 1 == |text| {
      e, j := d, i;
      DollarCase(text, i, p);
    } else {
      hide Drafts;
      var next := StepDrafted(text, k, i, d, p);
      e, j := RestDrafted(text, k, Advance(text, i, p).i, next, Advance(text, i, p).p);
    }
  }

  /** Every text that is accepted is spelled by the grammar. */
  lemma AcceptedSpelled(text: string) returns (w: Whole)
    requires Tree(text).Some?
    ensures Spells(w, text)
  {
    hide TreeFrom, ChoiceFits, ChoiceText, Drafts, Here;
    var hat := text != "" && text[0] == '^';
    var k := if hat then 1 else 0;
    StartDrafted(text, k, hat);
    var e, j := RestDrafted(text, k, k, Draft([], NewStage), Fresh(hat));
    w := Whole(hat, Done(e.inner), j < |text|);
    assert e.Text() == ChoiceText(w.choice);
    ThreeParts(text, hat, k, e.Text(), j);
  }

  lemma ThreeParts(text: string, hat: bool, k: nat, inside: string, j: nat)
    requires k == (if hat then 1 else 0) && Here(text, k, inside) && j == k + |inside|
    requires hat ==> text[0] == '^'
    requires j == |text| || (j + 1 == |text| && text[j] == '$')
    ensures text == (if hat then "^" else "") + inside + if j < |text| then "$" else ""
  {
    var open, close := if hat then "^" else "", if j < |text| then "$" else "";
    assert text[..k] == open && text[k..j] == inside && text[j..] == close;
    assert text == text[..k] + text[k..j] + text[j..];
  }

  lemma StartDrafted(text: string, k: nat, hat: bool)
    requires k <= |text|
    ensures Drafts(text, k, k, Draft([], NewStage), Fresh(hat))
  {
    EmptyHere(text, k);
    assert Draft([], NewStage).Text() == "";
  }

  /** A text is accepted if and only if the grammar spells it. */
  lemma AcceptedExactly(text: string)
    ensures Tree(text).Some? <==> exists w :: Spells(w, text)
  {
    hide Spells, Tree;
    if Tree(text).Some? {
      var w := AcceptedSpelled(text);
    }
    if w :| Spells(w, text) {
      SpellingRead(w, text);
    }
  }

  /** And every spelling of it says which words the pattern left by the parser has. */
  lemma SpellingMeans(w: Whole, text: string, word: Word)
    requires Spells(w, text)
    ensures Tree(text).Some?
    ensures Tree(text).value.matchBegin == w.hat && Tree(text).value.matchEnd == w.dollar
    ensures InAlts(Tree(text).value.alts, word) <==> SpeaksChoice(w.choice, word)
  {
    hide ChoiceFits, SpeaksChoice, InAlts, Tree, ChoiceSense;
    SpellingRead(w, text);
    ChoiceMeans(text, if w.hat then 1 else 0, w.choice, word);
  }

  // ------------------------------------------------------------- particular texts

  /** A text in which no character has a meaning of its own. */
  predicate Ordinary(text: string) {
    forall k :: 0 <= k < |text| ==> !Reserved(text[k]) && text[k] !in "{^$"
  }

  function Codes(text: string): Word {
    seq(|text|, k requires 0 <= k < |text| => text[k] as int)
  }

  function Letters(text: string): Chain {
    if text == "" then Nil else Link(Letters(text[..|text| - 1]), Sym(Bare(text[|text| - 1])))
  }

  lemma {:induction false} LettersFit(text: string, part: string)
    requires Ordinary(part)
    ensures ChainText(Letters(part)) == part && ChainFits(text, 0, Letters(part))
    decreases |part|
  {
    if part != "" {
      var front := part[..|part| - 1];
      LettersFit(text, front);
      assert front + [part[|part| - 1]] == part;
    }
  }

  lemma {:induction false} LettersMean(part: string, w: Word)
    ensures SpeaksChain(Letters(part), w) <==> w == Codes(part)
    decreases |part|
  {
    if part != "" {
      var front, last := part[..|part| - 1], part[|part| - 1];
      LettersSplit(front, last, w);
      assert part == front + [last];
      if w != [] {
        LettersMean(front, w[..|w| - 1]);
        CodesSplit(front, last, w);
      }
    }
  }

  /** The last letter speaks the last character. */
  lemma LettersSplit(front: string, last: char, w: Word)
    ensures Letters(front + [last]) == Link(Letters(front), Sym(Bare(last)))
    ensures SpeaksChain(Letters(front + [last]), w)
      <==> w != [] && SpeaksChain(Letters(front), w[..|w| - 1]) && w[|w| - 1] == last as int
    ensures Codes(front + [last]) != []
  {
    assert (front + [last])[..|front|] == front;
    var t := Link(Letters(front), Sym(Bare(last)));
    if SpeaksChain(t, w) {
      var k :| 0 <= k <= |w| && SpeaksChain(Letters(front), w[..k]) && Speaks(Sym(Bare(last)), w[k..]);
      assert |w[k..]| == 1 && w[k..][0] == w[k];
    }
    if w != [] && SpeaksChain(Letters(front), w[..|w| - 1]) && w[|w| - 1] == last as int {
      assert w[|w| - 1..] == [last as int];
      assert Speaks(Sym(Bare(last)), w[|w| - 1..]);
    }
  }

  lemma CodesSplit(front: string, last: char, w: Word)
    requires w != []
    ensures w == Codes(front + [last]) <==> w[..|w| - 1] == Codes(front) && w[|w| - 1] == last as int
  {
    var c := Codes(front + [last]);
    assert c == Codes(front) + [last as int] && c[..|front|] == Codes(front);
    if w[..|w| - 1] == Codes(front) && w[|w| - 1] == last as int {
      assert w == w[..|w| - 1] + [w[|w| - 1]];
    }
  }

  /** An ordinary text matches itself and nothing else. */
  lemma OrdinaryText(text: string, word: Word)
    requires Ordinary(text)
    ensures Tree(text).Some? && !Tree(text).value.matchBegin && !Tree(text).value.matchEnd
    ensures InAlts(Tree(text).value.alts, word) <==> word == Codes(text)
  {
    hide Tree, InAlts, ChainFits, SpeaksChain;
    var w := Whole(false, Sole(Letters(text)), false);
    LettersFit(text, text);
    assert WholeText(w) == text;
    SpellingMeans(w, text, word);
    LettersMean(text, word);
  }

  /** Behind a term, a count is read as the repetitions that it admits. */
  lemma CountMeans(text: string, i: nat, c: Count, p: Partial) returns (t: Term)
    requires Here(text, i, CountText(c)) && CountOk(c) && p.Valid() && !p.begin
    ensures Advance(text, i, p) == Next(i + |CountText(c)|, OnLast(p, t))
    ensures forall w :: InTerm(t, w) <==> exists n: nat :: Admits(c, n) && Power(p.inner.cur.last, n, w)
  {
    hide BracesAt, CountText, CountOk, Bounds, Repeated, InTerm, Power, Admits, Here;
    CountRead(text, i, c);
    CountBounds(c);
    BraceCase(text, i, p);
    t := Repeats(p.inner.cur.last, c);
    forall w ensures InTerm(t, w) <==> exists n: nat :: Admits(c, n) && Power(p.inner.cur.last, n, w) {
      RepeatsMean(p.inner.cur.last, c, w);
    }
  }
}
