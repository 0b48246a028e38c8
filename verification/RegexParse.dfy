/** The parser: one pass over the pattern text that keeps a flat item stack.
    `Tree` reads the same text into a pattern; the parser's stack is that
    pattern's items, with {n,m} multiplied out, and `dfa_size` is their weight. */
module RegexParse {
  import opened Wrappers
  import opened RegexSyntax
  import opened RegexRepeat
  import opened RegexIterate

  // ------------------------------------------------------------ open brackets

  /** The alternatives finished so far inside one bracket, and the current one. */
  datatype Level = Level(left: Option<Alts>, cur: Concat)

  const FreshLevel := Level(None, Empty)

  function Finished(l: Level): Alts {
    match l.left
    case None => Only(l.cur)
    case Some(a) => Or(a, l.cur)
  }

  function LevelItems(l: Level): Items {
    AltsItems(Finished(l))
  }

  /** The items under the innermost open bracket. */
  function OuterItems(outer: seq<Level>): Items {
    if outer == [] then [Begin]
    else OuterItems(outer[..|outer| - 1]) + LevelItems(outer[|outer| - 1]) + [OpenBr]
  }

  /** What has been read: the enclosing brackets, the innermost one, whether no
      term has been found in it yet, and the anchors seen. */
  datatype Partial = Partial(outer: seq<Level>, inner: Level, begin: bool, matchBegin: bool, matchEnd: bool) {
    function Items(): Items {
      OuterItems(outer) + LevelItems(inner)
    }

    ghost predicate Valid() {
      !begin ==> inner.cur.Snoc?
    }

    function Cur(s: Concat): Partial {
      this.(inner := inner.(cur := s))
    }

    function Add(t: Term): Partial {
      Cur(Snoc(inner.cur, t)).(begin := false)
    }
  }

  // ------------------------------------------------------------- small readers

  predicate IsDigit(c: char) {
    '0' <= c <= '9'
  }

  /** The number that continues `value` at `i`, and the index behind it. */
  function Digits(text: string, i: nat, value: nat): (nat, nat)
    decreases |text| - i
  {
    if i < |text| && IsDigit(text[i])
    then Digits(text, i + 1, value * 10 + (text[i] as int - '0' as int))
    else (value, i)
  }

  lemma {:induction false} DigitsAdvance(text: string, i: nat, value: nat)
    requires i <= |text|
    ensures i <= Digits(text, i, value).1 <= |text|
    decreases |text| - i
  {
    if i < |text| && IsDigit(text[i]) {
      DigitsAdvance(text, i + 1, value * 10 + (text[i] as int - '0' as int));
    }
  }

  /** `decode_number`: -1 without a digit. */
  method DecodeNumber(text: string, i: nat) returns (value: int, next: nat)
    requires i < |text|
    ensures !IsDigit(text[i]) ==> value == -1 && next == i
    ensures IsDigit(text[i]) ==> (value, next) == Digits(text, i, 0)
    ensures i <= next <= |text|
  {
    if !IsDigit(text[i]) {
      return -1, i;
    }
    DigitsAdvance(text, i, 0);
    value, next := 0, i;
    while next < |text| && IsDigit(text[next])
      invariant value >= 0 && i <= next <= |text|
      invariant Digits(text, next, value) == Digits(text, i, 0)
    {
      value := value * 10 + (text[next] as int - '0' as int);
      next := next + 1;
    }
  }

  /** What `{` starts: nothing (a plain character), an {id!} mark, or a repetition.
      `close` is the index of the closing brace.  As in the source, `max == 0`
      means no upper bound and `min == -1` no occurrence at all. */
  datatype Braces = Plain | Mark(id: nat, close: nat) | Times(min: int, max: int, close: nat)

  function UpperBound(text: string, i: nat, min: nat): Braces {
    if i >= |text| then Plain
    else if text[i] == '}' then Times(min, 0, i)
    else if !IsDigit(text[i]) then Plain
    else
      var (max, j) := Digits(text, i, 0);
      if j >= |text| || text[j] != '}' || max < min then Plain
      else Times(if max == 0 then -1 else min, max, j)
  }

  function BracesAt(text: string, i: nat, begin: bool): Braces {
    if i + 1 >= |text| then Plain
    else if text[i + 1] == ',' then (if begin then Plain else UpperBound(text, i + 2, 0))
    else if !IsDigit(text[i + 1]) then Plain
    else
      var (min, j) := Digits(text, i + 1, 0);
      if j >= |text| then Plain
      else if text[j] == '}' then (if begin then Plain else Times(if min == 0 then -1 else min, min, j))
      else if j + 1 < |text| && text[j] == '!' && text[j + 1] == '}' then Mark(min, j + 1)
      else if text[j] != ',' || begin then Plain
      else UpperBound(text, j + 1, min)
  }

  /** The term left by {min,max}, after the fast cases for `*`, `+`, `?` and {1,1}. */
  function Repeated(t: Term, min: int, max: int): Term
    requires RepeatOk(min, max)
  {
    if min > 1 || max > 1 then Iterated(t, min, max)
    else if min == 0 && max == 0 then Star(t)
    else if min == 1 && max == 0 then Plus(t)
    else if min == 0 && max == 1 then Opt(t)
    else if min == -1 then Iterated(t, 0, 0)
    else t
  }

  predicate RepeatOk(min: int, max: int) {
    (min == -1 && max == 0) || (min >= 0 && max >= 0 && (max > 0 ==> min <= max))
  }

  lemma {:induction false} DigitsBack(text: string, i: nat, value: nat)
    requires i <= |text|
    ensures i <= Digits(text, i, value).1 <= |text| && Digits(text, i, value).0 >= 0
  {
    DigitsAdvance(text, i, value);
  }

  lemma BracesOk(text: string, i: nat, begin: bool)
    requires i < |text|
    ensures match BracesAt(text, i, begin)
      case Plain => true
      case Mark(_, close) => i < close < |text|
      case Times(min, max, close) => !begin && RepeatOk(min, max) && i < close < |text|
  {
    if i + 1 < |text| {
      DigitsBack(text, i + 1, 0);
      var (min, j) := Digits(text, i + 1, 0);
      if i + 2 <= |text| {
        DigitsBack(text, i + 2, 0);
      }
      if j + 1 <= |text| {
        DigitsBack(text, j + 1, 0);
      }
    }
  }

  /** `{n,m}` means between n and m occurrences, whichever way it is encoded. */
  lemma RepeatedLanguage(t: Term, min: int, max: int, w: Word)
    requires RepeatOk(min, max)
    ensures InTerm(Repeated(t, min, max), w) <==>
      exists k: nat :: min <= k && (max > 0 || min == -1 ==> k <= max) && Power(t, k, w)
  {
    hide InTerm, Power;
    if min > 1 || max > 1 {
      IteratedLanguage(t, min, max, w);
    } else if min == 0 && max == 0 {
      StarLanguage(t, w);
    } else if min == 1 && max == 0 {
      PlusLanguage(t, w);
    } else if min == -1 {
      IteratedLanguage(t, 0, 0, w);
    } else {
      AtMostOne(t, min, w);
    }
  }

  lemma PlusPower(t: Term, w: Word) returns (n: nat)
    requires InTerm(Plus(t), w)
    ensures 1 <= n && Power(t, n, w)
  {
    assert InTerm(Plus(t), w);
    n :| 1 <= n && Power(t, n, w);
  }

  lemma StarPower(t: Term, w: Word) returns (n: nat)
    requires InTerm(Star(t), w)
    ensures Power(t, n, w)
  {
    assert InTerm(Star(t), w);
    n :| Power(t, n, w);
  }

  lemma FromPower(t: Term, n: nat, w: Word)
    requires Power(t, n, w)
    ensures InTerm(Star(t), w) && (n >= 1 ==> InTerm(Plus(t), w))
  {
  }

  lemma StarLanguage(t: Term, w: Word)
    ensures InTerm(Star(t), w) <==> exists k: nat :: 0 <= k && Power(t, k, w)
  {
    hide InTerm, Power;
    if InTerm(Star(t), w) {
      var n := StarPower(t, w);
      assert Power(t, n, w);
    }
    if exists k: nat :: 0 <= k && Power(t, k, w) {
      var n: nat :| 0 <= n && Power(t, n, w);
      FromPower(t, n, w);
      assert Power(t, n, w);
    }
  }

  lemma PlusLanguage(t: Term, w: Word)
    ensures InTerm(Plus(t), w) <==> exists k: nat :: 1 <= k && Power(t, k, w)
  {
    hide InTerm, Power;
    if InTerm(Plus(t), w) {
      var n := PlusPower(t, w);
      assert Power(t, n, w);
    }
    if exists k: nat :: 1 <= k && Power(t, k, w) {
      var n: nat :| 1 <= n && Power(t, n, w);
      FromPower(t, n, w);
      assert Power(t, n, w);
    }
  }

  lemma AtMostOne(t: Term, min: nat, w: Word)
    requires min <= 1
    ensures (if min == 0 then InTerm(Opt(t), w) else InTerm(t, w))
      <==> exists k: nat :: min <= k <= 1 && Power(t, k, w)
  {
    hide Power, InTerm;
    PowerOne(t, w);
    NoPower(t, w);
    OptTerm(t, w);
    if exists k: nat :: min <= k <= 1 && Power(t, k, w) {
      var k: nat :| min <= k <= 1 && Power(t, k, w);
      assert k == 0 || k == 1;
    }
    assert min == 0 && w == [] ==> Power(t, 0, w);
    assert InTerm(t, w) ==> Power(t, 1, w);
  }

  lemma OptTerm(t: Term, w: Word)
    ensures InTerm(Opt(t), w) <==> w == [] || InTerm(t, w)
  {
  }

  lemma PowerOne(t: Term, w: Word)
    ensures Power(t, 1, w) <==> InTerm(t, w)
  {
    if InTerm(t, w) {
      assert w[..|w|] == w && Power(t, 0, w[|w|..]);
    }
    if Power(t, 1, w) {
      var k :| 0 <= k <= |w| && InTerm(t, w[..k]) && Power(t, 0, w[k..]);
      assert w[..k] == w;
    }
  }

  // ---------------------------------------------------------- bracket expressions

  /** One character, possibly escaped, and the index behind it. */
  function CharAt(text: string, i: nat): Option<(int, nat)> {
    if i >= |text| then None
    else if text[i] != '\\' then Some((text[i] as int, i + 1))
    else if i + 1 >= |text| then None
    else Some((text[i + 1] as int, i + 2))
  }

  function SortedSpan(a: int, b: int): Member {
    if a > b then Span(b, a) else Span(a, b)
  }

  /** The members up to the closing bracket and the bracket's index. */
  function Members(text: string, i: nat, ms: seq<Member>): Option<(seq<Member>, nat)>
    decreases |text| - i
  {
    if i >= |text| then None
    else if text[i] == ']' then Some((ms, i))
    else
      match CharAt(text, i)
      case None => None
      case Some((left, j)) =>
        if j + 3 <= |text| && text[j] == '-' && text[j + 1] != ']' then
          match CharAt(text, j + 1)
          case None => None
          case Some((right, k)) => Members(text, k, ms + [SortedSpan(left, right)])
        else Members(text, j, ms + [One(left)])
  }

  /** The class whose `[` is at `i`, and the index of its `]`. */
  function ClassAt(text: string, i: nat): Option<(Lit, nat)> {
    var invert := i + 1 < |text| && text[i + 1] == '^';
    var j := if invert then i + 2 else i + 1;
    if j >= |text| then None
    else
      var r := if text[j] == ']' then Members(text, j + 1, [One(']' as int)]) else Members(text, j, []);
      match r
      case None => None
      case Some((ms, close)) => Some((Class(invert, ms), close))
  }

  lemma {:induction false} MembersAppend(ms: seq<Member>, m: Member)
    ensures MembersItems(ms + [m]) == MembersItems(ms) + MemberItems(m)
    decreases |ms|
  {
    if ms == [] {
      assert ms + [m] == [m];
      assert MembersItems([m]) == MemberItems(m) + MembersItems([m][1..]);
    } else {
      MembersAppend(ms[1..], m);
      assert (ms + [m])[1..] == ms[1..] + [m];
      assert (ms + [m])[0] == ms[0];
    }
  }

  /** `parse_char_range`: pushes the class item by item and counts it. */
  method ParseCharRange(text: string, i: nat, stack0: Items, size0: nat)
    returns (ok: bool, stack: Items, size: nat, close: nat)
    requires i < |text| && text[i] == '['
    ensures ok <==> ClassAt(text, i).Some?
    ensures ok ==> stack == stack0 + LitItems(ClassAt(text, i).value.0) && close == ClassAt(text, i).value.1
    ensures ok ==> size == size0 + TotalWeight(LitItems(ClassAt(text, i).value.0))
    ensures ok ==> i < close < |text|
  {
    hide Members, TotalWeight, MembersItems, LitItems;
    stack, size, close := stack0, size0, i + 1;
    if close == |text| {
      return false, stack, size, close;
    }
    ghost var invert := text[close] == '^';
    if text[close] != '^' {
      stack := stack + [RngStart(false)];
    } else {
      close := close + 1;
      if close == |text| {
        return false, stack, size, close;
      }
      stack := stack + [RngStart(true)];
    }
    size := size + 2;
    ghost var base := stack;
    ghost var ms: seq<Member> := [];
    if text[close] == ']' {
      close := close + 1;
      stack := stack + [RngChar(']' as int)];
      size := size + 1;
      ms := [One(']' as int)];
      FirstMember(base, One(']' as int));
    } else {
      NoMember(base);
    }
    ok, stack, size, close, ms := ParseMembers(text, close, stack, size, base, ms);
    if ok {
      stack := stack + [RngEnd];
      ClassItems(stack0, invert, ms);
    }
  }

  lemma MemberAdded(base: Items, ms: seq<Member>, m: Member)
    ensures base + MembersItems(ms + [m]) == base + MembersItems(ms) + MemberItems(m)
    ensures TotalWeight(MembersItems(ms + [m])) == TotalWeight(MembersItems(ms)) + |MemberItems(m)|
  {
    MembersAppend(ms, m);
    TotalWeightConcat(MembersItems(ms), MemberItems(m));
    MemberWeight(m);
  }

  lemma NoMember(base: Items)
    ensures base + MembersItems([]) == base && TotalWeight(MembersItems([])) == 0
  {
  }

  lemma FirstMember(base: Items, m: Member)
    ensures base + MembersItems([m]) == base + MemberItems(m)
    ensures TotalWeight(MembersItems([m])) == |MemberItems(m)|
  {
    MemberAdded(base, [], m);
    NoMember(base);
    assert [] + [m] == [m];
  }

  lemma MemberWeight(m: Member)
    ensures TotalWeight(MemberItems(m)) == |MemberItems(m)|
  {
    match m
    case One(c) => WeightOne(RngChar(c));
    case Span(lo, hi) =>
      WeightOne(RngLeft(lo));
      WeightOne(RngRight(hi));
      TotalWeightConcat([RngLeft(lo)], [RngRight(hi)]);
      assert [RngLeft(lo)] + [RngRight(hi)] == MemberItems(m);
  }

  lemma ClassItems(stack: Items, invert: bool, ms: seq<Member>)
    ensures stack + [RngStart(invert)] + MembersItems(ms) + [RngEnd] == stack + LitItems(Class(invert, ms))
    ensures TotalWeight(LitItems(Class(invert, ms))) == TotalWeight(MembersItems(ms)) + 2
  {
    hide TotalWeight, MembersItems;
    assert LitItems(Class(invert, ms)) == [RngStart(invert)] + MembersItems(ms) + [RngEnd];
    TotalWeightConcat([RngStart(invert)] + MembersItems(ms), [RngEnd]);
    TotalWeightConcat([RngStart(invert)], MembersItems(ms));
    WeightOne(RngStart(invert));
    WeightOne(RngEnd);
  }

  lemma MembersNext(text: string, i: nat, ms: seq<Member>)
    ensures i >= |text| ==> Members(text, i, ms) == None
    ensures i < |text| && text[i] == ']' ==> Members(text, i, ms) == Some((ms, i))
    ensures i < |text| && text[i] != ']' && CharAt(text, i).None? ==> Members(text, i, ms) == None
    ensures i < |text| && text[i] != ']' && CharAt(text, i).Some? ==>
      var (left, j) := CharAt(text, i).value;
      Members(text, i, ms) ==
        if !(j + 3 <= |text| && text[j] == '-' && text[j + 1] != ']') then Members(text, j, ms + [One(left)])
        else if CharAt(text, j + 1).None? then None
        else Members(text, CharAt(text, j + 1).value.1, ms + [SortedSpan(left, CharAt(text, j + 1).value.0)])
  {
  }

  /** The loop over the members. */
  method ParseMembers(text: string, i: nat, stack0: Items, size0: nat, ghost base: Items, ghost ms0: seq<Member>)
    returns (ok: bool, stack: Items, size: nat, close: nat, ghost ms: seq<Member>)
    requires stack0 == base + MembersItems(ms0) && i <= |text|
    ensures ok <==> Members(text, i, ms0).Some?
    ensures ok ==> Members(text, i, ms0) == Some((ms, close)) && i <= close < |text|
    ensures ok ==> stack == base + MembersItems(ms)
    ensures ok ==> size + TotalWeight(MembersItems(ms0)) == size0 + TotalWeight(MembersItems(ms))
  {
    hide TotalWeight, MembersItems, Members;
    stack, size, close, ms := stack0, size0, i, ms0;
    while true
      invariant i <= close <= |text|
      invariant Members(text, close, ms) == Members(text, i, ms0)
      invariant stack == base + MembersItems(ms)
      invariant size + TotalWeight(MembersItems(ms0)) == size0 + TotalWeight(MembersItems(ms))
      decreases |text| - close
    {
      MembersNext(text, close, ms);
      if close == |text| {
        return false, stack, size, close, ms;
      }
      if text[close] == ']' {
        return true, stack, size, close, ms;
      }
      if text[close] == '\\' {
        close := close + 1;
        if close == |text| {
          return false, stack, size, close, ms;
        }
      }
      var left := text[close] as int;
      close := close + 1;
      if |text| - close >= 3 && text[close] == '-' && text[close + 1] != ']' {
        close := close + 1;
        if text[close] == '\\' {
          close := close + 1;
          if close == |text| {
            return false, stack, size, close, ms;
          }
        }
        var right := text[close] as int;
        close := close + 1;
        if left > right {
          left, right := right, left;
        }
        MemberAdded(base, ms, Span(left, right));
        stack := stack + [RngLeft(left), RngRight(right)];
        size := size + 2;
        ms := ms + [Span(left, right)];
      } else {
        MemberAdded(base, ms, One(left));
        stack := stack + [RngChar(left)];
        size := size + 1;
        ms := ms + [One(left)];
      }
    }
  }

  // -------------------------------------------------------------- the whole text

  datatype Pattern = Pattern(alts: Alts, matchBegin: bool, matchEnd: bool)

  datatype Outcome = Invalid | Next(i: nat, p: Partial)

  /** The last term of a non-empty concatenation replaced. */
  function OnLast(p: Partial, t: Term): Partial
    requires p.inner.cur.Snoc?
  {
    p.Cur(Snoc(p.inner.cur.init, t))
  }

  function Close(p: Partial): Partial
    requires p.outer != []
  {
    p.(outer := p.outer[..|p.outer| - 1], inner := p.outer[|p.outer| - 1]).Add(Group(Finished(p.inner)))
  }

  function BraceStep(text: string, i: nat, p: Partial): (r: Outcome)
    requires i < |text| && p.Valid()
    ensures r.Next? ==> i < r.i <= |text| && r.p.Valid()
  {
    BracesOk(text, i, p.begin);
    match BracesAt(text, i, p.begin)
    case Plain => Next(i + 1, p.Cur(Snoc(p.inner.cur, Atom(Single('{' as int)))))
    case Mark(id, close) =>
      Next(close + 1, if p.begin then p.Cur(Note(p.inner.cur, id)) else OnLast(p, Tag(p.inner.cur.last, id)))
    case Times(min, max, close) =>
      Next(close + 1, OnLast(p, Repeated(p.inner.cur.last, min, max)))
  }

  lemma {:induction false} MembersClose(text: string, i: nat, ms: seq<Member>)
    requires i <= |text|
    ensures match Members(text, i, ms)
      case None => true
      case Some((_, close)) => i <= close < |text|
    decreases |text| - i
  {
    if i < |text| && text[i] != ']' && CharAt(text, i).Some? {
      var (left, j) := CharAt(text, i).value;
      if j + 3 <= |text| && text[j] == '-' && text[j + 1] != ']' {
        var (right, k) := CharAt(text, j + 1).value;
        MembersClose(text, k, ms + [SortedSpan(left, right)]);
      } else {
        MembersClose(text, j, ms + [One(left)]);
      }
    }
  }

  lemma ClassClose(text: string, i: nat)
    requires i < |text|
    ensures match ClassAt(text, i) case None => true case Some((_, close)) => i < close < |text|
  {
    var j := if i + 1 < |text| && text[i + 1] == '^' then i + 2 else i + 1;
    if j < |text| {
      MembersClose(text, j + 1, [One(']' as int)]);
      MembersClose(text, j, []);
    }
  }

  function ClassStep(text: string, i: nat, p: Partial): (r: Outcome)
    requires i < |text| && p.Valid()
    ensures r.Next? ==> i < r.i <= |text| && r.p.Valid()
  {
    ClassClose(text, i);
    match ClassAt(text, i)
    case None => Invalid
    case Some((l, close)) => Next(close + 1, p.Add(Atom(l)))
  }

  function PostfixStep(i: nat, p: Partial, op: char): (r: Outcome)
    requires p.Valid()
    ensures r.Next? ==> r.i == i + 1 && r.p.Valid()
  {
    if p.begin then Invalid
    else
      var t := p.inner.cur.last;
      Next(i + 1, OnLast(p, if op == '*' then Star(t) else if op == '+' then Plus(t) else Opt(t)))
  }

  /** What the character at `i` does to the pattern read so far. */
  function Advance(text: string, i: nat, p: Partial): (r: Outcome)
    requires i < |text| && p.Valid()
    ensures r.Next? ==> i < r.i <= |text| && r.p.Valid()
  {
    var c := text[i];
    if c == '\\' then
      if i + 1 == |text| then Invalid else Next(i + 2, p.Add(Atom(Single(text[i + 1] as int))))
    else if c == '.' then Next(i + 1, p.Add(Atom(Class(true, []))))
    else if c == '(' then
      Next(i + 1, p.(outer := p.outer + [p.inner], inner := FreshLevel, begin := true))
    else if c == ')' then
      if p.outer == [] then Invalid else Next(i + 1, Close(p))
    else if c == '|' then
      Next(i + 1, p.(inner := Level(Some(Finished(p.inner)), Empty), begin := true))
    else if c == '*' || c == '?' || c == '+' then PostfixStep(i, p, c)
    else if c == '{' then BraceStep(text, i, p)
    else if c == '[' then ClassStep(text, i, p)
    else if i + 1 == |text| && c == '$' then Next(i + 1, p.(matchEnd := true))
    else Next(i + 1, p.Add(Atom(Single(c as int))))
  }

  function TreeFrom(text: string, i: nat, p: Partial): Option<Pattern>
    requires i <= |text| && p.Valid()
    decreases |text| - i
  {
    if i == |text| then
      if p.outer != [] then None else Some(Pattern(Finished(p.inner), p.matchBegin, p.matchEnd))
    else
      match Advance(text, i, p)
      case Invalid => None
      case Next(j, q) => TreeFrom(text, j, q)
  }

  function Fresh(matchBegin: bool): Partial {
    Partial([], FreshLevel, true, matchBegin, false)
  }

  /** The pattern a text denotes, if the parser accepts it. */
  function Tree(text: string): Option<Pattern> {
    if text != "" && text[0] == '^' then TreeFrom(text, 1, Fresh(true)) else TreeFrom(text, 0, Fresh(false))
  }

  // ----------------------------------------------------- the steps on the stack

  lemma LevelGrown(left: Option<Alts>, s: Concat, t: Concat, more: Items)
    requires ConcatItems(t) == ConcatItems(s) + more
    ensures LevelItems(Level(left, t)) == LevelItems(Level(left, s)) + more
  {
    match left
    case None =>
      assert AltsItems(Only(t)) == ConcatItems(t) && AltsItems(Only(s)) == ConcatItems(s);
    case Some(a) =>
      assert AltsItems(Or(a, t)) == AltsItems(a) + [Select] + ConcatItems(t);
      assert AltsItems(Or(a, s)) == AltsItems(a) + [Select] + ConcatItems(s);
  }

  lemma TermAdded(p: Partial, t: Term)
    ensures p.Add(t).Items() == p.Items() + TermItems(t)
    ensures p.Cur(Snoc(p.inner.cur, t)).Items() == p.Items() + TermItems(t)
    ensures TotalWeight(p.Items() + TermItems(t)) == TotalWeight(p.Items()) + TotalWeight(TermItems(t))
  {
    hide TotalWeight, TermItems, OuterItems, LevelItems;
    TotalWeightConcat(p.Items(), TermItems(t));
    LevelGrown(p.inner.left, p.inner.cur, Snoc(p.inner.cur, t), TermItems(t));
  }

  lemma NoteAdded(p: Partial, id: nat)
    ensures p.Cur(Note(p.inner.cur, id)).Items() == p.Items() + [Id(id)]
  {
    hide OuterItems, LevelItems;
    LevelGrown(p.inner.left, p.inner.cur, Note(p.inner.cur, id), [Id(id)]);
  }

  /** The stack without its last term. */
  function Base(p: Partial): Partial
    requires p.inner.cur.Snoc?
  {
    p.Cur(p.inner.cur.init)
  }

  lemma LastReplaced(p: Partial, t: Term)
    requires p.inner.cur.Snoc?
    ensures p.Items() == Base(p).Items() + TermItems(p.inner.cur.last)
    ensures OnLast(p, t).Items() == Base(p).Items() + TermItems(t)
  {
    hide TotalWeight, TermItems, OuterItems;
    TermAdded(Base(p), p.inner.cur.last);
    TermAdded(Base(p), t);
    assert p.Cur(p.inner.cur) == p;
  }

  lemma ItemPushed(stack: Items, i: Item)
    ensures TotalWeight(stack + [i]) == TotalWeight(stack) + Weight(i)
  {
    TotalWeightConcat(stack, [i]);
    WeightOne(i);
  }

  /** A postfix operator is one more item on the stack. */
  lemma PostfixPushed(p: Partial, t: Term, op: Item)
    requires p.inner.cur.Snoc? && TermItems(t) == TermItems(p.inner.cur.last) + [op]
    ensures OnLast(p, t).Items() == p.Items() + [op]
  {
    hide TermItems, OuterItems;
    LastReplaced(p, t);
  }

  lemma BracketOpened(p: Partial)
    ensures p.(outer := p.outer + [p.inner], inner := FreshLevel).Items() == p.Items() + [OpenBr]
  {
    var q := p.(outer := p.outer + [p.inner], inner := FreshLevel);
    assert q.outer[..|q.outer| - 1] == p.outer;
    assert LevelItems(FreshLevel) == [];
  }

  lemma BracketClosed(p: Partial)
    requires p.outer != []
    ensures Close(p).Items() == p.Items() + [CloseBr]
  {
    hide AltsItems;
    var up := p.(outer := p.outer[..|p.outer| - 1], inner := p.outer[|p.outer| - 1]);
    TermAdded(up, Group(Finished(p.inner)));
    assert up.Items() + ([OpenBr] + LevelItems(p.inner) + [CloseBr])
        == (up.Items() + [OpenBr]) + LevelItems(p.inner) + [CloseBr];
  }

  lemma BarPushed(p: Partial)
    ensures p.(inner := Level(Some(Finished(p.inner)), Empty)).Items() == p.Items() + [Select]
  {
    hide OuterItems;
    var a := Finished(p.inner);
    assert AltsItems(Or(a, Empty)) == AltsItems(a) + [Select] + ConcatItems(Empty);
    assert ConcatItems(Empty) == [];
  }

  // -------------------------------------------------------------------- the parser

  /** The decoding half of `parse_iterator`. */
  method ReadBraces(text: string, i: nat, begin: bool) returns (b: Braces)
    requires i < |text|
    ensures b == BracesAt(text, i, begin)
  {
    var next, min, max := i + 1, 0, -1;
    if next == |text| {
      return Plain;
    }
    if text[next] == ',' {
      next := next + 1;
    } else {
      min, next := DecodeNumber(text, next);
      if min < 0 || next == |text| {
        return Plain;
      }
      if text[next] == '}' {
        max := min;
        if min == 0 {
          min := -1;
        }
      } else if |text| - next >= 2 && text[next] == '!' && text[next + 1] == '}' {
        return Mark(min, next + 1);
      } else {
        if text[next] != ',' {
          return Plain;
        }
        next := next + 1;
      }
    }
    if begin {
      return Plain;
    }
    if max == -1 {
      if next == |text| {
        return Plain;
      }
      if text[next] == '}' {
        max := 0;
      } else {
        max, next := DecodeNumber(text, next);
        if max < 0 || next == |text| || text[next] != '}' || max < min {
          return Plain;
        }
        if max == 0 {
          min := -1;
        }
      }
    }
    return Times(min, max, next);
  }

  /** The acting half: one item for the fast cases, `iterate` for the others. */
  method Repeat(stack0: Items, size0: nat, min: int, max: int, ghost pre: Items, ghost t: Term)
    returns (stack: Items, size: nat)
    requires RepeatOk(min, max) && stack0 == pre + TermItems(t) && size0 == TotalWeight(stack0) + 1
    ensures stack == pre + TermItems(Repeated(t, min, max)) && size == TotalWeight(stack) + 1
  {
    hide TotalWeight, Iterated;
    var len;
    stack, size := stack0, size0;
    if min > 1 || max > 1 {
      stack, len := Iterate(stack, min, max, pre, t);
      size := size + len;
    } else if min == 0 && max == 0 {
      ItemPushed(stack, Asterisk);
      stack, size := stack + [Asterisk], size + 2;
      assert stack == pre + TermItems(Star(t));
    } else if min == 1 && max == 0 {
      ItemPushed(stack, PlusSign);
      stack, size := stack + [PlusSign], size + 1;
      assert stack == pre + TermItems(Plus(t));
    } else if min == 0 && max == 1 {
      ItemPushed(stack, QuestionMark);
      stack, size := stack + [QuestionMark], size + 1;
      assert stack == pre + TermItems(Opt(t));
    } else if min == -1 {
      stack, len := Iterate(stack, 0, 0, pre, t);
      size := size - len;
    }
  }

  /** `{`: a repetition, a mark, or a plain character. */
  method ParseBrace(text: string, i: nat, stack0: Items, size0: nat, begin: bool, ghost p: Partial)
    returns (stack: Items, size: nat, next: nat)
    requires i < |text| && text[i] == '{' && p.Valid() && begin == p.begin
    requires stack0 == p.Items() && size0 == TotalWeight(stack0) + 1
    ensures var r := BraceStep(text, i, p);
      r.Next? && next == r.i && stack == r.p.Items() && size == TotalWeight(stack) + 1
  {
    hide TotalWeight, Repeated, OuterItems, LevelItems, BracesAt;
    BracesOk(text, i, p.begin);
    var b := ReadBraces(text, i, begin);
    stack, size := stack0, size0;
    match b {
      case Plain =>
        TermAdded(p, Atom(Single('{' as int)));
        ItemPushed(stack, Chr('{' as int));
        stack, size, next := stack + [Chr('{' as int)], size + 1, i + 1;
      case Mark(id, close) =>
        if p.begin {
          NoteAdded(p, id);
        } else {
          PostfixPushed(p, Tag(p.inner.cur.last, id), Id(id));
        }
        ItemPushed(stack, Id(id));
        stack, size, next := stack + [Id(id)], size + 1, close + 1;
      case Times(min, max, close) =>
        LastReplaced(p, Repeated(p.inner.cur.last, min, max));
        stack, size := Repeat(stack, size, min, max, Base(p).Items(), p.inner.cur.last);
        next := close + 1;
    }
  }

  method PushItem(stack0: Items, size0: nat, i: Item) returns (stack: Items, size: nat)
    requires size0 == TotalWeight(stack0) + 1
    ensures stack == stack0 + [i] && size == TotalWeight(stack) + 1
  {
    ItemPushed(stack0, i);
    stack, size := stack0 + [i], size0 + Weight(i);
  }

  datatype Parsed = Parsed(stack: Items, size: nat, matchBegin: bool, matchEnd: bool)

  ghost predicate Represents(stack: Items, size: nat, depth: nat, begin: bool, matchBegin: bool, matchEnd: bool,
                             p: Partial) {
    && p.Valid() && stack == p.Items() && size == TotalWeight(stack) + 1
    && depth == |p.outer| && begin == p.begin && matchBegin == p.matchBegin && matchEnd == p.matchEnd
  }

  /** One round of the loop for the characters that stand for themselves or for
      brackets, bars and postfix operators. */
  method ParseSimple(text: string, i: nat, stack0: Items, size0: nat, depth0: nat, begin0: bool, ghost p: Partial)
    returns (ok: bool, stack: Items, size: nat, depth: nat, begin: bool, next: nat)
    requires i < |text| && text[i] != '{' && text[i] != '[' && !(i + 1 == |text| && text[i] == '$')
    requires Represents(stack0, size0, depth0, begin0, p.matchBegin, p.matchEnd, p)
    ensures ok <==> Advance(text, i, p).Next?
    ensures ok ==> next == Advance(text, i, p).i
    ensures ok ==> Represents(stack, size, depth, begin, p.matchBegin, p.matchEnd, Advance(text, i, p).p)
  {
    hide TotalWeight, OuterItems, LevelItems;
    ok, stack, size, depth, begin, next := true, stack0, size0, depth0, begin0, i;
    match text[i] {
      case '\\' =>
        next := next + 1;
        if next == |text| {
          return false, stack, size, depth, begin, next;
        }
        TermAdded(p, Atom(Single(text[next] as int)));
        stack, size := PushItem(stack, size, Chr(text[next] as int));
        begin := false;
      case '.' =>
        TermAdded(p, Atom(Class(true, [])));
        DotItems(stack);
        stack, size := PushItem(stack, size, RngStart(true));
        stack, size := PushItem(stack, size, RngEnd);
        begin := false;
      case '(' =>
        BracketOpened(p);
        depth := depth + 1;
        stack, size := PushItem(stack, size, OpenBr);
        begin := true;
      case ')' =>
        if depth == 0 {
          return false, stack, size, depth, begin, next;
        }
        BracketClosed(p);
        depth := depth - 1;
        stack, size := PushItem(stack, size, CloseBr);
        begin := false;
      case '|' =>
        BarPushed(p);
        stack, size := PushItem(stack, size, Select);
        begin := true;
      case '*' | '?' | '+' =>
        if begin {
          return false, stack, size, depth, begin, next;
        }
        stack, size := PushPostfix(stack, size, text[i], i, p);
      case _ =>
        TermAdded(p, Atom(Single(text[i] as int)));
        stack, size := PushItem(stack, size, Chr(text[i] as int));
        begin := false;
    }
    next := next + 1;
  }

  lemma DotItems(stack: Items)
    ensures stack + [RngStart(true)] + [RngEnd] == stack + TermItems(Atom(Class(true, [])))
  {
    assert LitItems(Class(true, [])) == [RngStart(true)] + [] + [RngEnd];
  }

  method PushPostfix(stack0: Items, size0: nat, op: char, i: nat, ghost p: Partial) returns (stack: Items, size: nat)
    requires p.Valid() && !p.begin && stack0 == p.Items() && size0 == TotalWeight(stack0) + 1
    requires op == '*' || op == '?' || op == '+'
    ensures PostfixStep(i, p, op).Next?
    ensures stack == PostfixStep(i, p, op).p.Items() && size == TotalWeight(stack) + 1
  {
    hide TotalWeight, OuterItems, LevelItems;
    ghost var t := p.inner.cur.last;
    if op == '*' {
      PostfixPushed(p, Star(t), Asterisk);
      stack, size := PushItem(stack0, size0, Asterisk);
    } else if op == '+' {
      PostfixPushed(p, Plus(t), PlusSign);
      stack, size := PushItem(stack0, size0, PlusSign);
    } else {
      PostfixPushed(p, Opt(t), QuestionMark);
      stack, size := PushItem(stack0, size0, QuestionMark);
    }
  }

  /** `parse`: accepts exactly the texts that denote a pattern, and leaves the
      pattern's items on the stack and their weight in `dfa_size`. */
  method Parse(text: string) returns (r: Option<Parsed>)
    ensures r.Some? <==> Tree(text).Some?
    ensures r.Some? ==> var t := Tree(text).value;
      && r.value.stack == PatternItems(t.alts) && r.value.size == TotalWeight(r.value.stack)
      && r.value.matchBegin == t.matchBegin && r.value.matchEnd == t.matchEnd
  {
    hide TotalWeight, Advance, AltsItems, OuterItems, LevelItems, BraceStep, Members, BracesAt;
    var stack, size, i := [Begin], 2, 0;
    var depth, begin, matchBegin, matchEnd := 0, true, false, false;
    if |text| > 0 && text[0] == '^' {
      matchBegin := true;
      i := 1;
    }
    ghost var p := Fresh(matchBegin);
    StartItems(p);
    while i < |text|
      invariant i <= |text| && depth >= 0
      invariant Represents(stack, size, depth, begin, matchBegin, matchEnd, p)
      invariant TreeFrom(text, i, p) == Tree(text)
      decreases |text| - i
    {
      var ok, j := true, i;
      if text[i] == '{' {
        BraceCase(text, i, p);
        stack, size, j := ParseBrace(text, i, stack, size, begin, p);
      } else if text[i] == '[' {
        ClassCase(text, i, p);
        var close;
        ok, stack, size, close := ParseCharRange(text, i, stack, size);
        if ok {
          TermAdded(p, Atom(ClassAt(text, i).value.0));
        }
        begin, j := false, close + 1;
      } else if i + 1 == |text| && text[i] == '$' {
        DollarCase(text, i, p);
        matchEnd, j := true, i + 1;
      } else {
        ok, stack, size, depth, begin, j := ParseSimple(text, i, stack, size, depth, begin, p);
      }
      if !ok {
        return None;
      }
      p := Advance(text, i, p).p;
      i := j;
    }
    if depth != 0 {
      return None;
    }
    ItemPushed(stack, End);
    WholeItems(p);
    stack := stack + [End];
    return Some(Parsed(stack, size, matchBegin, matchEnd));
  }

  lemma WholeItems(p: Partial)
    requires p.outer == []
    ensures p.Items() + [End] == PatternItems(Finished(p.inner))
  {
  }

  lemma StartItems(p: Partial)
    requires p.outer == [] && p.inner == FreshLevel
    ensures p.Items() == [Begin] && TotalWeight([Begin]) == 1
  {
    WeightOne(Begin);
    assert AltsItems(Only(Empty)) == ConcatItems(Empty) == [];
  }

  lemma BraceCase(text: string, i: nat, p: Partial)
    requires i < |text| && text[i] == '{' && p.Valid()
    ensures Advance(text, i, p) == BraceStep(text, i, p)
    ensures BraceStep(text, i, p).p.outer == p.outer && BraceStep(text, i, p).p.begin == p.begin
    ensures BraceStep(text, i, p).p.matchBegin == p.matchBegin && BraceStep(text, i, p).p.matchEnd == p.matchEnd
  {
  }

  lemma ClassCase(text: string, i: nat, p: Partial)
    requires i < |text| && text[i] == '[' && p.Valid()
    ensures Advance(text, i, p) == ClassStep(text, i, p)
  {
  }

  lemma DollarCase(text: string, i: nat, p: Partial)
    requires i + 1 == |text| && text[i] == '$' && p.Valid()
    ensures Advance(text, i, p) == Next(i + 1, p.(matchEnd := true))
  {
  }
}
