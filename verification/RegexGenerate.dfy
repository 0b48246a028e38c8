/** `generate_transitions` itself: a loop that pops the item stack, fills the
    array from its end through a moving pointer, and patches branches through
    the positions kept on the `depth` stack. */
module RegexGenerate {
  import opened RegexSyntax
  import opened RegexNfa
  import opened RegexCompile

  /** Entries of the `depth` stack: what is still open on the right. */
  datatype Pending =
    | CloseAt(pos: nat)
    | SelectAt(pos: nat)
    | StarAt(pos: nat)
    | PlusAt(pos: nat)
    | OptAt(pos: nat)

  /** The array, its written end `cells[ptr..]`, and the depth stack (top last). */
  datatype State = State(cells: Cells, ptr: nat, depth: seq<Pending>) {
    predicate Valid() {
      ptr <= |cells|
    }

    /** `PUT_TRANSITION`, into an array with room. */
    function Put(cell: Item): State
      requires Valid() && ptr > 0
    {
      this.(cells := cells[ptr - 1 := cell], ptr := ptr - 1)
    }

    /** `transitions[pos].value = to` for a branch. */
    function Patch(pos: nat, to: nat): State
      requires pos < |cells|
    {
      this.(cells := cells[pos := Branch(to)])
    }

    predicate IsBranch(pos: nat) {
      pos < |cells| && cells[pos].Branch?
    }

    predicate HasTop() {
      depth != []
    }

    function Top(): Pending
      requires HasTop()
    {
      depth[|depth| - 1]
    }

    function Pop(): State
      requires HasTop()
    {
      this.(depth := depth[..|depth| - 1])
    }

    function Push(p: Pending): State {
      this.(depth := depth + [p])
    }
  }

  /** `Failed` stands for a failed assertion, an underflow or a full array. */
  datatype Outcome = Failed | Done(state: State)

  /** `handle_iteratives`: close the operators that apply to the term just written. */
  function HandleIteratives(st: State): (r: Outcome)
    requires st.Valid()
    ensures r.Done? ==> r.state.Valid() && |r.state.cells| == |st.cells|
    decreases |st.depth|
  {
    if !st.HasTop() then Failed
    else
      match st.Top()
      case StarAt(pos) =>
        if st.ptr > 0 && st.IsBranch(pos)
        then HandleIteratives(st.Pop().Patch(pos, st.ptr).Put(Branch(pos + 1))) else Failed
      case PlusAt(pos) =>
        if st.IsBranch(pos) then HandleIteratives(st.Pop().Patch(pos, st.ptr)) else Failed
      case OptAt(pos) =>
        if st.ptr > 0 then HandleIteratives(st.Pop().Put(Branch(pos))) else Failed
      case _ => Done(st)
  }

  function StepOpen(st: State, below: nat): (r: Outcome)
    requires st.Valid()
    ensures r.Done? ==> r.state.Valid() && |r.state.cells| == |st.cells|
  {
    if !st.HasTop() then Failed
    else
      var top := st.Top();
      if !(top.CloseAt? || (top.SelectAt? && st.ptr > 0)) then Failed
      else
        var after := if top.SelectAt? then st.Pop().Put(Branch(top.pos + 1)) else st.Pop();
        if below > 0 then HandleIteratives(after)
        else if after.ptr > 0 then Done(after.Put(Begin))
        else Failed
  }

  function StepSelect(st: State): (r: Outcome)
    requires st.Valid()
    ensures r.Done? ==> r.state.Valid() && |r.state.cells| == |st.cells|
  {
    if !st.HasTop() then Failed
    else
      var top := st.Top();
      if top.SelectAt? && st.ptr > 1 then
        Done(st.Pop().Put(Branch(top.pos + 1)).Put(Jump(top.pos)).Push(SelectAt(st.ptr - 2)))
      else if top.CloseAt? && st.ptr > 0 then
        Done(st.Pop().Put(Jump(top.pos)).Push(SelectAt(st.ptr - 1)))
      else Failed
  }

  /** The items that write a cell. */
  function StepPut(st: State, item: Item): (r: Outcome)
    requires st.Valid()
    ensures r.Done? ==> r.state.Valid() && |r.state.cells| == |st.cells|
  {
    if st.ptr == 0 then Failed
    else if item.Chr? || item.RngStart? then HandleIteratives(st.Put(item))
    else if item.End? then Done(st.Put(End).Push(CloseAt(st.ptr - 1)))
    else if item.Asterisk? then Done(st.Put(Branch(0)).Push(StarAt(st.ptr - 1)))
    else if item.PlusSign? then Done(st.Put(Branch(0)).Push(PlusAt(st.ptr - 1)))
    else Done(st.Put(item))
  }

  /** The effect of one popped item; `below` items remain under it. */
  function Step(st: State, item: Item, below: nat): (r: Outcome)
    requires st.Valid()
    ensures r.Done? ==> r.state.Valid() && |r.state.cells| == |st.cells|
  {
    if item.Begin? || item.OpenBr? then StepOpen(st, below)
    else if item.CloseBr? then Done(st.Push(CloseAt(st.ptr)))
    else if item.Select? then StepSelect(st)
    else if item.QuestionMark? then Done(st.Push(OptAt(st.ptr)))
    else StepPut(st, item)
  }

  /** All of `items`, last first, with `below` items under them. */
  function Generate(items: seq<Item>, below: nat, st: State): (r: Outcome)
    requires st.Valid()
    ensures r.Done? ==> r.state.Valid() && |r.state.cells| == |st.cells|
    decreases |items|
  {
    if items == [] then Done(st)
    else
      var n := |items| - 1;
      match Step(st, items[n], below + n)
      case Failed => Failed
      case Done(next) => Generate(items[..n], below, next)
  }

  lemma {:induction false} GenerateConcat(xs: seq<Item>, ys: seq<Item>, below: nat, st: State)
    requires st.Valid() && Generate(ys, below + |xs|, st).Done?
    ensures Generate(xs + ys, below, st) == Generate(xs, below, Generate(ys, below + |xs|, st).state)
    decreases |ys|
  {
    hide Step, HandleIteratives;
    if ys == [] {
      assert xs + ys == xs;
    } else {
      var n := |ys| - 1;
      var all := xs + ys;
      assert all != [] && |all| - 1 == |xs| + n;
      assert all[..|all| - 1] == xs + ys[..n];
      assert all[|all| - 1] == ys[n];
      var next := Step(st, ys[n], below + |xs| + n).state;
      GenerateConcat(xs, ys[..n], below, next);
    }
  }

  lemma Regroup(xs: seq<Item>, ys: seq<Item>, zs: seq<Item>)
    ensures xs + ys + zs == xs + (ys + zs)
  {
  }

  lemma GenerateNone(below: nat, st: State)
    requires st.Valid()
    ensures Generate([], below, st) == Done(st)
  {
  }

  lemma GenerateOne(item: Item, below: nat, st: State)
    requires st.Valid()
    ensures Generate([item], below, st) == Step(st, item, below)
  {
    assert [item][..0] == [];
  }

  /** `ys` is one item that leads to `next`. */
  lemma GenerateSnoc(xs: seq<Item>, y: Item, below: nat, st: State, next: State)
    requires st.Valid() && Step(st, y, below + |xs|) == Done(next)
    ensures Generate(xs + [y], below, st) == Generate(xs, below, next)
  {
    GenerateOne(y, below + |xs|, st);
    GenerateConcat(xs, [y], below, st);
  }

  // Generating a fragment writes its layout in front of what is already there.

  /** `next` is `st` with `size` more cells written. */
  ghost predicate Wrote(st: State, next: State, size: nat) {
    && st.Valid() && next.ptr + size == st.ptr
    && |next.cells| == |st.cells| && Same(next.cells, st.cells, st.ptr, |st.cells|)
  }

  ghost predicate TopIsBracket(st: State) {
    st.HasTop() && (st.Top().CloseAt? || st.Top().SelectAt?)
  }

  predicate IsPlain(i: Item) {
    i.RngChar? || i.RngLeft? || i.RngRight? || i.RngEnd?
  }

  lemma {:induction false} PlainItems(items: seq<Item>, below: nat, st: State) returns (next: State)
    requires forall k :: 0 <= k < |items| ==> IsPlain(items[k])
    requires st.Valid() && |items| <= st.ptr
    ensures Generate(items, below, st) == Done(next)
    ensures Wrote(st, next, |items|) && next.depth == st.depth && At(next.cells, next.ptr, items)
    decreases |items|
  {
    if items == [] {
      next := st;
    } else {
      var n := |items| - 1;
      assert IsPlain(items[n]);
      var mid := st.Put(items[n]);
      assert items == items[..n] + [items[n]];
      GenerateSnoc(items[..n], items[n], below, st, mid);
      next := PlainItems(items[..n], below, mid);
      assert next.cells[st.ptr - 1] == mid.cells[st.ptr - 1];
    }
  }

  lemma {:induction false} MembersPlain(ms: seq<Member>)
    ensures forall k :: 0 <= k < |MembersItems(ms)| ==> IsPlain(MembersItems(ms)[k])
  {
    if ms != [] {
      MembersPlain(ms[1..]);
    }
  }

  lemma ClassPlain(ms: seq<Member>, rest: seq<Item>)
    requires rest == MembersItems(ms) + [RngEnd]
    ensures forall k :: 0 <= k < |rest| ==> IsPlain(rest[k])
  {
    MembersPlain(ms);
  }

  lemma GenerateClass(invert: bool, ms: seq<Member>, below: nat, st: State) returns (next: State)
    requires st.Valid() && |LitItems(Class(invert, ms))| <= st.ptr
    ensures Wrote(st, next, |LitItems(Class(invert, ms))|) && next.depth == st.depth
    ensures At(next.cells, next.ptr, LitItems(Class(invert, ms)))
    ensures Generate(LitItems(Class(invert, ms)), below, st) == HandleIteratives(next)
  {
    hide Generate, HandleIteratives, MembersItems;
    var first, rest := RngStart(invert), MembersItems(ms) + [RngEnd];
    Regroup([first], MembersItems(ms), [RngEnd]);
    assert |LitItems(Class(invert, ms))| == |rest| + 1;
    ClassPlain(ms, rest);
    var mid := PlainItems(rest, below + 1, st);
    next := mid.Put(first);
    GenerateConcat([first], rest, below, st);
    GenerateOne(first, below, mid);
    AtCons(mid.cells, next.cells, next.ptr, first, rest);
  }

  lemma AtCons(cells: Cells, other: Cells, a: nat, first: Item, rest: Cells)
    requires At(cells, a + 1, rest) && Same(cells, other, a + 1, |cells|)
    requires a < |other| && other[a] == first
    ensures At(other, a, [first] + rest)
  {
    forall k | 0 <= k < |[first] + rest| ensures other[a + k] == ([first] + rest)[k] {
      if k > 0 {
        assert cells[a + 1 + (k - 1)] == rest[k - 1];
      }
    }
  }

  lemma GenerateLit(l: Lit, below: nat, st: State) returns (next: State)
    requires st.Valid() && |LitItems(l)| <= st.ptr
    ensures Wrote(st, next, |LitItems(l)|) && next.depth == st.depth
    ensures At(next.cells, next.ptr, LitItems(l))
    ensures Generate(LitItems(l), below, st) == HandleIteratives(next)
  {
    match l
    case Single(c) =>
      next := st.Put(Chr(c));
      GenerateOne(Chr(c), below, st);
    case Class(invert, ms) =>
      next := GenerateClass(invert, ms, below, st);
  }

  /** `next` has the term written and the operators around it still open. */
  lemma {:induction false} GenerateTerm(t: Term, below: nat, st: State) returns (next: State)
    requires below > 0 && st.Valid() && TermSize(t) <= st.ptr
    ensures Wrote(st, next, TermSize(t)) && next.depth == st.depth
    ensures TermLaid(next.cells, t, next.ptr)
    ensures Generate(TermItems(t), below, st) == HandleIteratives(next)
    decreases t, 1
  {
    hide Generate, HandleIteratives, AltsLaid;
    match t
    case Atom(l) => next := GenerateLit(l, below, st);
    case Group(g) => next := GenerateGroup(g, below, st);
    case Star(b) => next := GenerateStar(b, below, st);
    case Plus(b) => next := GeneratePlus(b, below, st);
    case Opt(b) => next := GenerateOpt(b, below, st);
    case Tag(b, id) =>
      var mid := st.Put(Id(id));
      GenerateSnoc(TermItems(b), Id(id), below, st, mid);
      next := GenerateTerm(b, below, mid);
      assert next.cells[st.ptr - 1] == mid.cells[st.ptr - 1];
  }

  lemma {:induction false} GenerateStar(b: Term, below: nat, st: State) returns (next: State)
    requires below > 0 && st.Valid() && TermSize(Star(b)) <= st.ptr
    ensures Wrote(st, next, TermSize(Star(b))) && next.depth == st.depth
    ensures TermLaid(next.cells, Star(b), next.ptr)
    ensures Generate(TermItems(Star(b)), below, st) == HandleIteratives(next)
    decreases Star(b), 0
  {
    hide Generate, HandleIteratives, TermLaid;
    var p := st.ptr - 1;
    var mid := st.Put(Branch(0)).Push(StarAt(p));
    GenerateSnoc(TermItems(b), Asterisk, below, st, mid);
    var inner := GenerateTerm(b, below, mid);
    assert inner.cells[p] == mid.cells[p];
    assert inner.Pop().depth == st.depth;
    next := CloseStar(inner, b, p);
  }

  lemma HandleFirst(st: State)
    requires st.Valid() && st.HasTop()
    ensures match st.Top()
      case StarAt(pos) => st.ptr > 0 && st.IsBranch(pos) ==>
        HandleIteratives(st) == HandleIteratives(st.Pop().Patch(pos, st.ptr).Put(Branch(pos + 1)))
      case PlusAt(pos) => st.IsBranch(pos) ==>
        HandleIteratives(st) == HandleIteratives(st.Pop().Patch(pos, st.ptr))
      case OptAt(pos) => st.ptr > 0 ==>
        HandleIteratives(st) == HandleIteratives(st.Pop().Put(Branch(pos)))
      case _ => HandleIteratives(st) == Done(st)
  {
  }

  lemma PostfixLaid(cells: Cells, b: Term, a: nat)
    requires TermLaid(cells, b, a)
    ensures a + TermSize(b) < |cells| && cells[a + TermSize(b)] == Branch(a) ==> TermLaid(cells, Plus(b), a)
    ensures a > 0 && cells[a - 1] == Branch(a + TermSize(b)) ==> TermLaid(cells, Opt(b), a - 1)
    ensures (a > 0 && a + TermSize(b) < |cells| && cells[a + TermSize(b)] == Branch(a)
             && cells[a - 1] == Branch(a + TermSize(b) + 1)) ==> TermLaid(cells, Star(b), a - 1)
  {
    hide AltsLaid, ConcatLaid, AltsSize, ConcatSize;
  }

  lemma CloseStar(st: State, b: Term, pos: nat) returns (next: State)
    requires st.Valid() && st.ptr > 0 && st.HasTop() && st.Top() == StarAt(pos)
    requires st.IsBranch(pos) && pos == st.ptr + TermSize(b) && TermLaid(st.cells, b, st.ptr)
    ensures next.Valid() && next.ptr == st.ptr - 1 && |next.cells| == |st.cells|
    ensures HandleIteratives(st) == HandleIteratives(next) && next.depth == st.Pop().depth
    ensures Same(next.cells, st.cells, pos + 1, |st.cells|) && TermLaid(next.cells, Star(b), next.ptr)
  {
    hide HandleIteratives, TermLaid;
    HandleFirst(st);
    next := st.Pop().Patch(pos, st.ptr).Put(Branch(pos + 1));
    TermFrame(st.cells, next.cells, b, st.ptr);
    PostfixLaid(next.cells, b, st.ptr);
  }

  lemma {:induction false} GeneratePlus(b: Term, below: nat, st: State) returns (next: State)
    requires below > 0 && st.Valid() && TermSize(Plus(b)) <= st.ptr
    ensures Wrote(st, next, TermSize(Plus(b))) && next.depth == st.depth
    ensures TermLaid(next.cells, Plus(b), next.ptr)
    ensures Generate(TermItems(Plus(b)), below, st) == HandleIteratives(next)
    decreases Plus(b), 0
  {
    hide Generate, HandleIteratives, TermLaid;
    var p := st.ptr - 1;
    var mid := st.Put(Branch(0)).Push(PlusAt(p));
    GenerateSnoc(TermItems(b), PlusSign, below, st, mid);
    var inner := GenerateTerm(b, below, mid);
    assert inner.cells[p] == mid.cells[p];
    assert inner.Pop().depth == st.depth;
    next := ClosePlus(inner, b, p);
  }

  lemma ClosePlus(st: State, b: Term, pos: nat) returns (next: State)
    requires st.Valid() && st.HasTop() && st.Top() == PlusAt(pos)
    requires st.IsBranch(pos) && pos == st.ptr + TermSize(b) && TermLaid(st.cells, b, st.ptr)
    ensures next.Valid() && next.ptr == st.ptr && |next.cells| == |st.cells|
    ensures HandleIteratives(st) == HandleIteratives(next) && next.depth == st.Pop().depth
    ensures Same(next.cells, st.cells, pos + 1, |st.cells|) && TermLaid(next.cells, Plus(b), next.ptr)
  {
    hide HandleIteratives, TermLaid;
    HandleFirst(st);
    next := st.Pop().Patch(pos, st.ptr);
    TermFrame(st.cells, next.cells, b, st.ptr);
    PostfixLaid(next.cells, b, st.ptr);
  }

  lemma {:induction false} GenerateOpt(b: Term, below: nat, st: State) returns (next: State)
    requires below > 0 && st.Valid() && TermSize(Opt(b)) <= st.ptr
    ensures Wrote(st, next, TermSize(Opt(b))) && next.depth == st.depth
    ensures TermLaid(next.cells, Opt(b), next.ptr)
    ensures Generate(TermItems(Opt(b)), below, st) == HandleIteratives(next)
    decreases Opt(b), 0
  {
    hide Generate, HandleIteratives, TermLaid;
    var mid := st.Push(OptAt(st.ptr));
    GenerateSnoc(TermItems(b), QuestionMark, below, st, mid);
    var inner := GenerateTerm(b, below, mid);
    assert inner.Pop().depth == st.depth;
    next := CloseOpt(inner, b, st.ptr);
  }

  lemma CloseOpt(st: State, b: Term, pos: nat) returns (next: State)
    requires st.Valid() && st.ptr > 0 && st.HasTop() && st.Top() == OptAt(pos)
    requires pos == st.ptr + TermSize(b) <= |st.cells| && TermLaid(st.cells, b, st.ptr)
    ensures next.Valid() && next.ptr == st.ptr - 1 && |next.cells| == |st.cells|
    ensures HandleIteratives(st) == HandleIteratives(next) && next.depth == st.Pop().depth
    ensures Same(next.cells, st.cells, pos, |st.cells|) && TermLaid(next.cells, Opt(b), next.ptr)
  {
    hide HandleIteratives, TermLaid;
    HandleFirst(st);
    next := st.Pop().Put(Branch(pos));
    TermFrame(st.cells, next.cells, b, st.ptr);
    PostfixLaid(next.cells, b, st.ptr);
  }

  lemma {:induction false} GenerateConcatenation(s: Concat, below: nat, st: State) returns (next: State)
    requires below > 0 && st.Valid() && ConcatSize(s) <= st.ptr && TopIsBracket(st)
    ensures Wrote(st, next, ConcatSize(s)) && next.depth == st.depth
    ensures ConcatLaid(next.cells, s, next.ptr)
    ensures Generate(ConcatItems(s), below, st) == Done(next)
    decreases s, 0
  {
    hide Generate, HandleIteratives, TermLaid;
    match s
    case Empty =>
      next := st;
      GenerateNone(below, st);
    case Snoc(init, t) =>
      var mid := GenerateLast(init, t, below, st);
      next := GenerateConcatenation(init, below, mid);
      TermFrame(mid.cells, next.cells, t, mid.ptr);
    case Note(init, id) =>
      var mid := st.Put(Id(id));
      GenerateSnoc(ConcatItems(init), Id(id), below, st, mid);
      next := GenerateConcatenation(init, below, mid);
      assert next.cells[st.ptr - 1] == mid.cells[st.ptr - 1];
  }

  lemma {:induction false} GenerateLast(init: Concat, t: Term, below: nat, st: State) returns (mid: State)
    requires below > 0 && st.Valid() && TermSize(t) <= st.ptr && TopIsBracket(st)
    ensures Wrote(st, mid, TermSize(t)) && mid.depth == st.depth && TermLaid(mid.cells, t, mid.ptr)
    ensures Generate(ConcatItems(init) + TermItems(t), below, st) == Generate(ConcatItems(init), below, mid)
    decreases t, 2
  {
    hide Generate, TermLaid;
    mid := GenerateTerm(t, below + |ConcatItems(init)|, st);
    assert HandleIteratives(mid) == Done(mid);
    GenerateConcat(ConcatItems(init), TermItems(t), below, st);
  }

  /** Taking the bracket's entry off the depth stack; after a `|` that writes the
      branch in front of the first alternative. */
  function Opened(st: State): State
    requires st.Valid() && TopIsBracket(st) && (st.Top().SelectAt? ==> st.ptr > 0)
  {
    if st.Top().SelectAt? then st.Pop().Put(Branch(st.Top().pos + 1)) else st.Pop()
  }

  lemma OpenOnly(st: State, s: Concat)
    requires st.Valid() && TopIsBracket(st) && ConcatLaid(st.cells, s, st.ptr)
    requires st.Top().SelectAt? ==> st.ptr > 0
    requires st.Top().pos == st.ptr + ConcatSize(s)
    ensures BlockLaid(Opened(st).cells, s, Opened(st).ptr, st.Top().SelectAt?)
  {
    ConcatFrame(st.cells, Opened(st).cells, s, st.ptr);
  }

  lemma {:induction false} GenerateAlts(g: Alts, below: nat, st: State) returns (last: State)
    requires below > 0 && st.Valid() && TopIsBracket(st) && st.Top().pos == st.ptr
    requires AltsSize(g, st.Top().SelectAt?) <= st.ptr
    ensures Generate(AltsItems(g), below, st) == Done(last)
    ensures TopIsBracket(last) && (last.Top().SelectAt? ==> last.ptr > 0)
    ensures Wrote(st, Opened(last), AltsSize(g, st.Top().SelectAt?)) && Opened(last).depth == st.Pop().depth
    ensures AltsLaid(Opened(last).cells, g, Opened(last).ptr, st.Top().SelectAt?)
    decreases g, 0
  {
    hide Generate, HandleIteratives, ConcatLaid, BlockLaid;
    var more := st.Top().SelectAt?;
    match g
    case Only(s) =>
      last := GenerateConcatenation(s, below, st);
      OpenOnly(last, s);
    case Or(l, s) =>
      var mid := GenerateBlock(s, below + |AltsItems(l)|, st);
      last := GenerateAlts(l, below, mid);
      GenerateRight(l, s, below, st, mid);
      assert mid.Pop().depth == st.Pop().depth;
      AltsJoin(mid, Opened(last), l, s, more);
  }

  lemma GenerateRight(l: Alts, s: Concat, below: nat, st: State, mid: State)
    requires st.Valid() && Generate([Select] + ConcatItems(s), below + |AltsItems(l)|, st) == Done(mid)
    ensures Generate(AltsItems(Or(l, s)), below, st) == Generate(AltsItems(l), below, mid)
  {
    hide Generate, HandleIteratives, Step, ConcatItems;
    Regroup(AltsItems(l), [Select], ConcatItems(s));
    GenerateConcat(AltsItems(l), [Select] + ConcatItems(s), below, st);
  }

  lemma AltsJoin(mid: State, last: State, l: Alts, s: Concat, more: bool)
    requires Wrote(mid, last, AltsSize(l, true)) && AltsLaid(last.cells, l, last.ptr, true)
    requires mid.ptr + 1 + BlockSize(s, more) <= |mid.cells|
    requires mid.cells[mid.ptr] == Jump(mid.ptr + 1 + BlockSize(s, more))
    requires BlockLaid(mid.cells, s, mid.ptr + 1, more)
    ensures AltsLaid(last.cells, Or(l, s), last.ptr, more)
  {
    hide ConcatLaid, ConcatSize, BlockLaid, BlockSize;
    BlockFrame(mid.cells, last.cells, s, mid.ptr + 1, more);
  }

  /** An alternative and the `|` in front of it: its block, and before it the jump to the end. */
  lemma {:induction false} GenerateBlock(s: Concat, below: nat, st: State) returns (next: State)
    requires st.Valid() && TopIsBracket(st) && st.Top().pos == st.ptr
    requires BlockSize(s, st.Top().SelectAt?) + 1 <= st.ptr
    ensures Generate([Select] + ConcatItems(s), below, st) == Done(next)
    ensures Wrote(st, next, BlockSize(s, st.Top().SelectAt?) + 1)
    ensures next.depth == st.Pop().depth + [SelectAt(next.ptr)]
    ensures next.cells[next.ptr] == Jump(st.ptr)
    ensures BlockLaid(next.cells, s, next.ptr + 1, st.Top().SelectAt?)
    decreases s, 1
  {
    hide Generate, HandleIteratives;
    var mid := GenerateConcatenation(s, below + 1, st);
    GenerateConcat([Select], ConcatItems(s), below, st);
    GenerateOne(Select, below, mid);
    next := SelectStep(mid, s);
  }

  lemma SelectStep(st: State, s: Concat) returns (next: State)
    requires st.Valid() && TopIsBracket(st) && ConcatLaid(st.cells, s, st.ptr)
    requires st.ptr > (if st.Top().SelectAt? then 1 else 0)
    requires st.Top().pos == st.ptr + ConcatSize(s)
    ensures StepSelect(st) == Done(next)
    ensures next.ptr == st.ptr - (if st.Top().SelectAt? then 2 else 1)
    ensures |next.cells| == |st.cells| && Same(next.cells, st.cells, st.ptr, |st.cells|)
    ensures next.depth == st.Pop().depth + [SelectAt(next.ptr)]
    ensures next.cells[next.ptr] == Jump(st.Top().pos)
    ensures BlockLaid(next.cells, s, next.ptr + 1, st.Top().SelectAt?)
  {
    next := StepSelect(st).state;
    ConcatFrame(st.cells, next.cells, s, st.ptr);
  }

  lemma {:induction false} GenerateGroup(g: Alts, below: nat, st: State) returns (next: State)
    requires below > 0 && st.Valid() && AltsSize(g, false) <= st.ptr
    ensures Wrote(st, next, AltsSize(g, false)) && next.depth == st.depth
    ensures AltsLaid(next.cells, g, next.ptr, false)
    ensures Generate(TermItems(Group(g)), below, st) == HandleIteratives(next)
    decreases Group(g), 0
  {
    hide Generate, HandleIteratives, AltsLaid;
    var mid := st.Push(CloseAt(st.ptr));
    var last := GenerateAlts(g, below + 1, mid);
    GenerateSnoc(AltsItems(g), CloseBr, below + 1, st, mid);
    GenerateConcat([OpenBr], AltsItems(g) + [CloseBr], below, st);
    GenerateOne(OpenBr, below, last);
    Regroup([OpenBr], AltsItems(g), [CloseBr]);
    next := Opened(last);
    assert mid.Pop().depth == st.depth;
  }

  /** A pattern's items fill an array of the pattern's size exactly, with the pattern's layout. */
  lemma GeneratePattern(p: Alts, blank: Cells) returns (last: State)
    requires |blank| == PatternSize(p)
    ensures Generate(PatternItems(p), 0, State(blank, |blank|, [])) == Done(last)
    ensures last.ptr == 0 && last.depth == [] && PatternLaid(last.cells, p)
  {
    hide Generate, HandleIteratives, AltsLaid, PatternLaid, AltsItems;
    var st := State(blank, |blank|, []);
    var mid := st.Put(End).Push(CloseAt(|blank| - 1));
    var inner := GenerateAlts(p, 1, mid);
    GenerateFrame(p, st, mid, inner);
    last := Opened(inner).Put(Begin);
    BeginInFront(p, mid, Opened(inner));
  }

  lemma BeginInFront(p: Alts, mid: State, st: State)
    requires Wrote(mid, st, AltsSize(p, false)) && AltsLaid(st.cells, p, st.ptr, false)
    requires |mid.cells| == PatternSize(p) && mid.ptr == |mid.cells| - 1 && mid.cells[mid.ptr] == End
    ensures st.ptr == 1 && PatternLaid(st.Put(Begin).cells, p)
  {
    hide AltsLaid, AltsSize;
    var cells := st.Put(Begin).cells;
    AltsFrame(st.cells, cells, p, 1, false);
    assert cells[mid.ptr] == mid.cells[mid.ptr];
  }

  lemma GenerateFrame(p: Alts, st: State, mid: State, inner: State)
    requires st.Valid() && mid.Valid() && Step(st, End, 1 + |AltsItems(p)|) == Done(mid)
    requires Generate(AltsItems(p), 1, mid) == Done(inner)
    ensures Generate(PatternItems(p), 0, st) == Step(inner, Begin, 0)
  {
    hide Generate, HandleIteratives, Step, AltsItems;
    GenerateSnoc(AltsItems(p), End, 1, st, mid);
    GenerateConcat([Begin], AltsItems(p) + [End], 0, st);
    GenerateOne(Begin, 0, inner);
    Regroup([Begin], AltsItems(p), [End]);
  }

  // The loops over the array.

  /** The state held by the array and the two local variables. */
  ghost function View(transitions: array<Item>, ptr: nat, depth: seq<Pending>): (st: State)
    reads transitions
    ensures st.Valid() <==> ptr <= transitions.Length
  {
    State(transitions[..], ptr, depth)
  }

  method CloseIteratives(transitions: array<Item>, ptr0: nat, depth0: seq<Pending>)
    returns (ptr: nat, depth: seq<Pending>)
    requires ptr0 <= transitions.Length && HandleIteratives(View(transitions, ptr0, depth0)).Done?
    modifies transitions
    ensures ptr <= transitions.Length
    ensures Done(View(transitions, ptr, depth)) == HandleIteratives(old(View(transitions, ptr0, depth0)))
  {
    ptr, depth := ptr0, depth0;
    ghost var goal := HandleIteratives(View(transitions, ptr, depth));
    while true
      invariant ptr <= transitions.Length
      invariant HandleIteratives(View(transitions, ptr, depth)) == goal
      decreases |depth|
    {
      var item := depth[|depth| - 1];
      match item {
        case StarAt(pos) =>
          transitions[pos] := Branch(ptr);
          ptr := ptr - 1;
          transitions[ptr] := Branch(pos + 1);
        case PlusAt(pos) =>
          transitions[pos] := Branch(ptr);
        case OptAt(pos) =>
          ptr := ptr - 1;
          transitions[ptr] := Branch(pos);
        case _ =>
          return;
      }
      depth := depth[..|depth| - 1];
    }
  }

  method OpenBracket(transitions: array<Item>, ptr0: nat, depth0: seq<Pending>, below: nat)
    returns (ptr: nat, depth: seq<Pending>)
    requires ptr0 <= transitions.Length && StepOpen(View(transitions, ptr0, depth0), below).Done?
    modifies transitions
    ensures ptr <= transitions.Length
    ensures Done(View(transitions, ptr, depth)) == StepOpen(old(View(transitions, ptr0, depth0)), below)
  {
    hide HandleIteratives;
    var top := depth0[|depth0| - 1];
    ptr, depth := ptr0, depth0[..|depth0| - 1];
    if top.SelectAt? {
      ptr := ptr - 1;
      transitions[ptr] := Branch(top.pos + 1);
    }
    if below == 0 {
      ptr := ptr - 1;
      transitions[ptr] := Begin;
    } else {
      ptr, depth := CloseIteratives(transitions, ptr, depth);
    }
  }

  method SelectBetween(transitions: array<Item>, ptr0: nat, depth0: seq<Pending>)
    returns (ptr: nat, depth: seq<Pending>)
    requires ptr0 <= transitions.Length && StepSelect(View(transitions, ptr0, depth0)).Done?
    modifies transitions
    ensures ptr <= transitions.Length
    ensures Done(View(transitions, ptr, depth)) == StepSelect(old(View(transitions, ptr0, depth0)))
  {
    var top := depth0[|depth0| - 1];
    ptr := ptr0 - 1;
    if top.SelectAt? {
      transitions[ptr] := Branch(top.pos + 1);
      ptr := ptr - 1;
    }
    transitions[ptr] := Jump(top.pos);
    depth := depth0[..|depth0| - 1] + [SelectAt(ptr)];
  }

  method PutItem(transitions: array<Item>, ptr0: nat, depth0: seq<Pending>, item: Item)
    returns (ptr: nat, depth: seq<Pending>)
    requires ptr0 <= transitions.Length && StepPut(View(transitions, ptr0, depth0), item).Done?
    modifies transitions
    ensures ptr <= transitions.Length
    ensures Done(View(transitions, ptr, depth)) == StepPut(old(View(transitions, ptr0, depth0)), item)
  {
    hide HandleIteratives;
    ptr, depth := ptr0 - 1, depth0;
    match item {
      case Asterisk =>
        transitions[ptr] := Branch(0);
        depth := depth + [StarAt(ptr)];
      case PlusSign =>
        transitions[ptr] := Branch(0);
        depth := depth + [PlusAt(ptr)];
      case End =>
        transitions[ptr] := item;
        depth := depth + [CloseAt(ptr)];
      case Chr(_) | RngStart(_) =>
        transitions[ptr] := item;
        ptr, depth := CloseIteratives(transitions, ptr, depth);
      case _ =>
        transitions[ptr] := item;
    }
  }

  /** The items of a pattern become the pattern's automaton, in an array that is
      filled exactly. */
  method GenerateTransitions(items: seq<Item>, dfaSize: nat, ghost p: Alts) returns (transitions: array<Item>)
    requires items == PatternItems(p) && dfaSize == TotalWeight(items)
    ensures fresh(transitions) && transitions.Length == dfaSize
    ensures PatternLaid(transitions[..], p)
  {
    hide HandleIteratives, PatternLaid, StepOpen, StepSelect, StepPut;
    PatternWeight(p);
    transitions := new Item[dfaSize];
    var ptr: nat, stack, depth: seq<Pending> := dfaSize, items, [];
    ghost var goal := GeneratePattern(p, transitions[..]);
    while |stack| > 0
      invariant ptr <= transitions.Length && fresh(transitions)
      invariant Generate(stack, 0, View(transitions, ptr, depth)) == Done(goal)
      decreases |stack|
    {
      var item := stack[|stack| - 1];
      stack := stack[..|stack| - 1];
      match item {
        case Begin | OpenBr => ptr, depth := OpenBracket(transitions, ptr, depth, |stack|);
        case CloseBr => depth := depth + [CloseAt(ptr)];
        case Select => ptr, depth := SelectBetween(transitions, ptr, depth);
        case QuestionMark => depth := depth + [OptAt(ptr)];
        case _ => ptr, depth := PutItem(transitions, ptr, depth, item);
      }
    }
    GenerateNone(0, View(transitions, ptr, depth));
  }
}
