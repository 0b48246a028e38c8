/** The scan of `pwart_PrepareFunc` that decides which locals are zeroed on entry,
    and why leaving the others alone cannot be noticed. */
module ZeroInit {
  import opened WasmBody

  /** The mark of a local without a write in effect. */
  const NONE := 0xffff

  /** `mark[x]` is the nesting depth at which a write of `x` took effect;
      `flag[x]` says that `x` was read without one. */
  datatype Scan = Scan(mark: seq<int>, flag: seq<bool>, len: nat)

  ghost predicate Fits(s: Scan, n: nat) {
    |s.mark| == n && |s.flag| == n
  }

  function Forget(mark: seq<int>, limit: int): (r: seq<int>) {
    seq(|mark|, i requires 0 <= i < |mark| => if mark[i] > limit then NONE else mark[i])
  }

  function Step(t: Token, s: Scan): Scan {
    match t
    case OpenBlock(_) => s.(len := s.len + 1)
    case Else => s.(mark := Forget(s.mark, s.len - 1))
    case End => if s.len == 0 then s else Scan(Forget(s.mark, s.len - 1), s.flag, s.len - 1)
    case LocalGet(x) =>
      if x < |s.mark| && x < |s.flag| && s.mark[x] > s.len then s.(flag := s.flag[x := true]) else s
    case LocalSet(x) => if x < |s.mark| && s.mark[x] > s.len then s.(mark := s.mark[x := s.len]) else s
    case LocalTee(x) => if x < |s.mark| && s.mark[x] > s.len then s.(mark := s.mark[x := s.len]) else s
    case Other => s
  }

  function Steps(ts: seq<Token>, s: Scan): Scan
    decreases |ts|
  {
    if ts == [] then s else Steps(ts[1..], Step(ts[0], s))
  }

  lemma {:induction false} StepsConcat(a: seq<Token>, b: seq<Token>, s: Scan)
    ensures Steps(a + b, s) == Steps(b, Steps(a, s))
    decreases |a|
  {
    if a == [] {
      assert a + b == b;
    } else {
      assert (a + b)[1..] == a[1..] + b;
      StepsConcat(a[1..], b, Step(a[0], s));
    }
  }

  // ------------------------------------------------------- the scan on code

  function AfterInstr(i: Instr, s: Scan): (r: Scan)
    ensures |r.mark| == |s.mark| && |r.flag| == |s.flag|
  {
    match i
    case Get(x) => Step(LocalGet(x), s)
    case Set(x) => Step(LocalSet(x), s)
    case Tee(x) => Step(LocalTee(x), s)
    case Block(_, body) => Step(End, After(body, Step(OpenBlock(0), s)))
    case Loop(_, body) => Step(End, After(body, Step(OpenBlock(0), s)))
    case If(_, yes) => Step(End, After(yes, Step(OpenBlock(0), s)))
    case IfElse(_, yes, no) => Step(End, After(no, Step(Else, After(yes, Step(OpenBlock(0), s)))))
    case _ => s
  }

  function After(code: Code, s: Scan): (r: Scan)
    ensures |r.mark| == |s.mark| && |r.flag| == |s.flag|
  {
    match code
    case Done => s
    case Then(first, rest) => After(rest, AfterInstr(first, s))
  }

  lemma StepsOne(t: Token, s: Scan)
    ensures Steps([t], s) == Step(t, s)
  {
    assert [t][1..] == [];
  }

  lemma StepsNested(open: Token, inner: seq<Token>, s: Scan)
    requires open.OpenBlock?
    ensures Steps([open] + inner + [End], s) == Step(End, Steps(inner, Step(OpenBlock(0), s)))
  {
    hide Steps;
    StepsConcat([open] + inner, [End], s);
    StepsConcat([open], inner, s);
    StepsOne(open, s);
    StepsOne(End, Steps([open] + inner, s));
  }

  lemma {:induction false} InstrScanned(i: Instr, s: Scan)
    ensures Steps(InstrTokens(i), s) == AfterInstr(i, s)
    decreases i
  {
    hide Steps, Step;
    match i
    case Block(_, body) =>
      StepsNested(OpenBlock(0x02), CodeTokens(body), s);
      Scanned(body, Step(OpenBlock(0), s));
    case Loop(_, body) =>
      StepsNested(OpenBlock(0x03), CodeTokens(body), s);
      Scanned(body, Step(OpenBlock(0), s));
    case If(_, yes) =>
      StepsNested(OpenBlock(0x04), CodeTokens(yes), s);
      Scanned(yes, Step(OpenBlock(0), s));
    case IfElse(_, yes, no) =>
      var s1 := Step(OpenBlock(0), s);
      Scanned(yes, s1);
      Scanned(no, Step(Else, After(yes, s1)));
      BothScanned(CodeTokens(yes), CodeTokens(no), s);
    case Get(x) => StepsOne(LocalGet(x), s);
    case Set(x) => StepsOne(LocalSet(x), s);
    case Tee(x) => StepsOne(LocalTee(x), s);
    case _ => OtherScanned(s);
  }

  lemma OtherScanned(s: Scan)
    ensures Steps([Other], s) == s
  {
    StepsOne(Other, s);
  }

  lemma BothScanned(yes: seq<Token>, no: seq<Token>, s: Scan)
    ensures Steps([OpenBlock(0x04)] + yes + [Else] + no + [End], s)
      == Step(End, Steps(no, Step(Else, Steps(yes, Step(OpenBlock(0), s)))))
  {
    hide Steps;
    var inner := yes + [Else] + no;
    assert [OpenBlock(0x04)] + yes + [Else] + no + [End] == [OpenBlock(0x04)] + inner + [End];
    StepsNested(OpenBlock(0x04), inner, s);
    var s1 := Step(OpenBlock(0), s);
    StepsConcat(yes + [Else], no, s1);
    StepsConcat(yes, [Else], s1);
    StepsOne(Else, Steps(yes, s1));
  }

  /** Scanning the tokens one after the other is a fold over the structured code. */
  lemma {:induction false} Scanned(code: Code, s: Scan)
    ensures Steps(CodeTokens(code), s) == After(code, s)
    decreases code
  {
    hide Step;
    match code
    case Done =>
    case Then(first, rest) =>
      InstrScanned(first, s);
      Scanned(rest, AfterInstr(first, s));
      StepsConcat(InstrTokens(first), CodeTokens(rest), s);
  }

  // ----------------------------------------------------- what the marks mean

  /** A read of `x` that no write precedes in its own block or an enclosing one. */
  predicate ExposedIn(i: Instr, x: nat) {
    match i
    case Get(y) => y == x
    case Block(_, body) => Exposed(body, x)
    case Loop(_, body) => Exposed(body, x)
    case If(_, yes) => Exposed(yes, x)
    case IfElse(_, yes, no) => Exposed(yes, x) || Exposed(no, x)
    case _ => false
  }

  predicate Exposed(code: Code, x: nat) {
    match code
    case Done => false
    case Then(first, rest) => ExposedIn(first, x) || (!Writes(first, x) && Exposed(rest, x))
  }

  predicate Writes(i: Instr, x: nat) {
    i == Set(x) || i == Tee(x)
  }

  predicate Assigned(code: Code, x: nat) {
    match code
    case Done => false
    case Then(first, rest) => Writes(first, x) || Assigned(rest, x)
  }

  /** A write of `x` is in effect. */
  predicate InEffect(s: Scan, x: nat)
    requires x < |s.mark|
  {
    s.mark[x] <= s.len
  }

  /** Only writes in open blocks are in effect. */
  predicate Tidy(s: Scan, x: nat)
    requires x < |s.mark|
  {
    s.mark[x] <= s.len || s.mark[x] == NONE
  }

  /** A local the scan keeps a mark for, in effect only while its block is open. */
  predicate Known(s: Scan, x: nat) {
    x < |s.mark| == |s.flag| && Tidy(s, x)
  }

  /** What a stretch of code does to the mark and the flag of a local. */
  ghost predicate Agrees(s: Scan, s1: Scan, x: nat, exposed: bool, written: bool)
    requires Known(s, x)
  {
    && s1.len == s.len && |s1.mark| == |s.mark| && |s1.flag| == |s.flag| && Known(s1, x)
    && (InEffect(s1, x) <==> InEffect(s, x) || written)
    && (if InEffect(s, x) then s1.mark[x] == s.mark[x] else s1.mark[x] == s.len || s1.mark[x] == NONE)
    && (s1.flag[x] <==> s.flag[x] || (exposed && !InEffect(s, x)))
  }

  lemma Opening(s: Scan, x: nat)
    requires Known(s, x) && s.len + 1 < NONE
    ensures var s1 := Step(OpenBlock(0), s);
      Known(s1, x) && s1.mark == s.mark && s1.flag == s.flag && s1.len == s.len + 1
  {
  }

  /** A block is over: nothing written inside stays in effect. */
  lemma Closing(s: Scan, inner: Scan, x: nat, exposed: bool, written: bool)
    requires Known(s, x) && s.len + 1 < NONE && Known(Step(OpenBlock(0), s), x)
    requires Agrees(Step(OpenBlock(0), s), inner, x, exposed, written)
    ensures Agrees(s, Step(End, inner), x, exposed, false)
  {
  }

  /** The same at `else`, where the block stays open. */
  lemma AtElse(s: Scan, inner: Scan, x: nat, exposed: bool, written: bool)
    requires Known(s, x) && s.len + 1 < NONE && Known(Step(OpenBlock(0), s), x)
    requires Agrees(Step(OpenBlock(0), s), inner, x, exposed, written)
    ensures Agrees(Step(OpenBlock(0), s), Step(Else, inner), x, exposed, false)
  {
  }

  lemma InTurn(s: Scan, s1: Scan, s2: Scan, x: nat, e1: bool, w1: bool, e2: bool, w2: bool)
    requires Known(s, x) && Agrees(s, s1, x, e1, w1) && Agrees(s1, s2, x, e2, w2)
    ensures Agrees(s, s2, x, e1 || (!w1 && e2), w1 || w2)
  {
  }

  lemma StillKnown(s: Scan, s1: Scan, x: nat, exposed: bool, written: bool)
    requires Known(s, x) && Agrees(s, s1, x, exposed, written)
    ensures Known(s1, x) && s1.len == s.len
  {
  }

  lemma {:induction false} InstrAgrees(i: Instr, s: Scan, x: nat)
    requires Known(s, x) && s.len + InstrDepth(i) < NONE
    ensures Agrees(s, AfterInstr(i, s), x, ExposedIn(i, x), Writes(i, x))
    decreases i, 2
  {
    match i
    case Block(_, body) => NestedAgrees(i, body, s, x);
    case Loop(_, body) => NestedAgrees(i, body, s, x);
    case If(_, yes) => NestedAgrees(i, yes, s, x);
    case IfElse(_, yes, no) => BranchesAgree(i, s, x);
    case _ =>
  }

  lemma {:induction false} NestedAgrees(i: Instr, body: Code, s: Scan, x: nat)
    requires Known(s, x) && s.len + 1 + Depth(body) < NONE
    requires (i.Block? && i.body == body) || (i.Loop? && i.body == body) || (i.If? && i.yes == body)
    ensures Agrees(s, Step(End, After(body, Step(OpenBlock(0), s))), x, Exposed(body, x), false)
    decreases i, 1
  {
    hide Agrees, Step;
    Opening(s, x);
    CodeAgrees(body, Step(OpenBlock(0), s), x);
    Closing(s, After(body, Step(OpenBlock(0), s)), x, Exposed(body, x), Assigned(body, x));
  }

  lemma {:induction false} BranchesAgree(i: Instr, s: Scan, x: nat)
    requires Known(s, x) && s.len + InstrDepth(i) < NONE && i.IfElse?
    ensures Agrees(s, Step(End, After(i.no, Step(Else, After(i.yes, Step(OpenBlock(0), s))))), x,
      Exposed(i.yes, x) || Exposed(i.no, x), false)
    decreases i, 1
  {
    hide Agrees, Step;
    var yes, no := i.yes, i.no;
    var s1 := Step(OpenBlock(0), s);
    Opening(s, x);
    CodeAgrees(yes, s1, x);
    AtElse(s, After(yes, s1), x, Exposed(yes, x), Assigned(yes, x));
    var s2 := Step(Else, After(yes, s1));
    StillKnown(s1, s2, x, Exposed(yes, x), false);
    CodeAgrees(no, s2, x);
    InTurn(s1, s2, After(no, s2), x, Exposed(yes, x), false, Exposed(no, x), Assigned(no, x));
    Closing(s, After(no, s2), x, Exposed(yes, x) || Exposed(no, x), Assigned(no, x));
  }

  /** A local is flagged exactly when the code has an exposed read of it and no
      write was in effect before; nesting must stay below the mark for "none". */
  lemma {:induction false} CodeAgrees(code: Code, s: Scan, x: nat)
    requires Known(s, x) && s.len + Depth(code) < NONE
    ensures Agrees(s, After(code, s), x, Exposed(code, x), Assigned(code, x))
    decreases code
  {
    match code
    case Done =>
    case Then(first, rest) =>
      hide Agrees, AfterInstr, ExposedIn, Writes, InstrDepth;
      InstrAgrees(first, s, x);
      var s1 := AfterInstr(first, s);
      StillKnown(s, s1, x, ExposedIn(first, x), Writes(first, x));
      CodeAgrees(rest, s1, x);
      InTurn(s, s1, After(rest, s1), x, ExposedIn(first, x), Writes(first, x), Exposed(rest, x), Assigned(rest, x));
  }

  // --------------------------------------------- the values cannot be noticed

  /** Configurations that differ at most in the locals of `d`. */
  ghost predicate Alike(c1: Config, c2: Config, d: set<nat>) {
    && c1.stack == c2.stack && c1.world == c2.world && |c1.locals| == |c2.locals|
    && forall x :: 0 <= x < |c1.locals| && x !in d ==> c1.locals[x] == c2.locals[x]
  }

  /** The same outcome, up to the locals of `d`, or of `end` after the last instruction. */
  ghost predicate SameOutcome(o1: Outcome, o2: Outcome, end: set<nat>, d: set<nat>) {
    match o1
    case Normal(c1) => o2.Normal? && Alike(c1, o2.c, end)
    case Branch(depth, c1) => o2.Branch? && o2.depth == depth && Alike(c1, o2.c, d)
    case _ => o1 == o2
  }

  function Unassigned(code: Code, d: set<nat>): set<nat> {
    set x | x in d && !Assigned(code, x)
  }

  function Unwritten(i: Instr, d: set<nat>): set<nat> {
    set x | x in d && !Writes(i, x)
  }

  lemma LeaveSame(o1: Outcome, o2: Outcome, d: set<nat>, end: set<nat>, entry: seq<int>, keep: nat)
    requires SameOutcome(o1, o2, end, d) && end <= d
    ensures SameOutcome(Leave(o1, entry, keep), Leave(o2, entry, keep), d, d)
  {
  }

  lemma {:induction false} InstrSame(i: Instr, c1: Config, c2: Config, d: set<nat>, ops: Ops, fuel: nat)
    requires Alike(c1, c2, d) && forall x :: x in d ==> !ExposedIn(i, x)
    ensures SameOutcome(ExecInstr(i, c1, ops, fuel), ExecInstr(i, c2, ops, fuel), Unwritten(i, d), d)
    decreases fuel, i, 1
  {
    hide SameOutcome;
    match i
    case Block(keep, body) =>
      assert Unwritten(i, d) == d;
      CodeSame(body, c1, c2, d, ops, fuel);
      LeaveSame(Exec(body, c1, ops, fuel), Exec(body, c2, ops, fuel), d, Unassigned(body, d), c1.stack, keep);
    case Loop(keep, body) => LoopSame(i, c1, c2, d, ops, fuel);
    case If(keep, yes) => IfSame(i, c1, c2, d, ops, fuel);
    case IfElse(keep, yes, no) => IfSame(i, c1, c2, d, ops, fuel);
    case _ => SimpleSame(i, c1, c2, d, ops, fuel);
  }

  predicate Simple(i: Instr) {
    !i.Block? && !i.Loop? && !i.If? && !i.IfElse?
  }

  lemma SimpleSame(i: Instr, c1: Config, c2: Config, d: set<nat>, ops: Ops, fuel: nat)
    requires Simple(i) && Alike(c1, c2, d) && forall x :: x in d ==> !ExposedIn(i, x)
    ensures SameOutcome(ExecInstr(i, c1, ops, fuel), ExecInstr(i, c2, ops, fuel), Unwritten(i, d), d)
  {
    match i
    case Get(x) => assert x !in d;
    case _ =>
  }

  lemma {:induction false} LoopSame(i: Instr, c1: Config, c2: Config, d: set<nat>, ops: Ops, fuel: nat)
    requires i.Loop? && Alike(c1, c2, d) && forall x :: x in d ==> !ExposedIn(i, x)
    ensures SameOutcome(ExecInstr(i, c1, ops, fuel), ExecInstr(i, c2, ops, fuel), Unwritten(i, d), d)
    decreases fuel, i, 0
  {
    hide Exec, Alike;
    assert Unwritten(i, d) == d;
    AlikeStack(c1, c2, d);
    CodeSame(i.body, c1, c2, d, ops, fuel);
    var o1, o2 := Exec(i.body, c1, ops, fuel), Exec(i.body, c2, ops, fuel);
    if o1.Branch? && o1.depth == 0 {
      if fuel > 0 {
        var stack := Unwind(c1.stack, o1.c.stack, i.keep);
        AlikeStack(o1.c, o2.c, d);
        AlikeRestacked(o1.c, o2.c, d, stack);
        InstrSame(i, o1.c.(stack := stack), o2.c.(stack := stack), d, ops, fuel - 1);
      }
    } else {
      LeaveSame(o1, o2, d, Unassigned(i.body, d), c1.stack, i.keep);
    }
  }

  lemma AlikeStack(c1: Config, c2: Config, d: set<nat>)
    requires Alike(c1, c2, d)
    ensures c1.stack == c2.stack
  {
  }

  lemma AlikeRestacked(c1: Config, c2: Config, d: set<nat>, stack: seq<int>)
    requires Alike(c1, c2, d)
    ensures Alike(c1.(stack := stack), c2.(stack := stack), d)
  {
  }

  lemma {:induction false} IfSame(i: Instr, c1: Config, c2: Config, d: set<nat>, ops: Ops, fuel: nat)
    requires (i.If? || i.IfElse?) && Alike(c1, c2, d) && forall x :: x in d ==> !ExposedIn(i, x)
    ensures SameOutcome(ExecInstr(i, c1, ops, fuel), ExecInstr(i, c2, ops, fuel), Unwritten(i, d), d)
    decreases fuel, i, 0
  {
    hide Exec;
    assert Unwritten(i, d) == d;
    if c1.stack != [] {
      var p1, p2 := Pop(c1), Pop(c2);
      if Top(c1) != 0 {
        CodeSame(i.yes, p1, p2, d, ops, fuel);
        LeaveSame(Exec(i.yes, p1, ops, fuel), Exec(i.yes, p2, ops, fuel), d, Unassigned(i.yes, d), p1.stack, i.keep);
      } else if i.IfElse? {
        CodeSame(i.no, p1, p2, d, ops, fuel);
        LeaveSame(Exec(i.no, p1, ops, fuel), Exec(i.no, p2, ops, fuel), d, Unassigned(i.no, d), p1.stack, i.keep);
      }
    }
  }

  /** Code without an exposed read of the locals in `d` behaves the same whatever
      they hold; those it assigns are the same again afterwards. */
  lemma {:induction false} CodeSame(code: Code, c1: Config, c2: Config, d: set<nat>, ops: Ops, fuel: nat)
    requires Alike(c1, c2, d) && forall x :: x in d ==> !Exposed(code, x)
    ensures SameOutcome(Exec(code, c1, ops, fuel), Exec(code, c2, ops, fuel), Unassigned(code, d), d)
    decreases fuel, code
  {
    match code
    case Done => assert Unassigned(code, d) == d;
    case Then(first, rest) =>
      hide ExecInstr, Alike, ExposedIn, Writes;
      InstrSame(first, c1, c2, d, ops, fuel);
      var o1, o2 := ExecInstr(first, c1, ops, fuel), ExecInstr(first, c2, ops, fuel);
      if o1.Normal? {
        var left := Unwritten(first, d);
        CodeSame(rest, o1.c, o2.c, left, ops, fuel);
        assert Unassigned(code, d) == Unassigned(rest, left);
        MoreMayDiffer(Exec(rest, o1.c, ops, fuel), Exec(rest, o2.c, ops, fuel), Unassigned(code, d), left, d);
      }
  }

  lemma MoreMayDiffer(o1: Outcome, o2: Outcome, end: set<nat>, d: set<nat>, more: set<nat>)
    requires SameOutcome(o1, o2, end, d) && d <= more
    ensures SameOutcome(o1, o2, end, more)
  {
  }

  // ------------------------------------------------------------ the whole scan

  /** The values of the locals when the body starts: zero for those listed. */
  function Cleared(locals: seq<int>, list: seq<int>): (r: seq<int>)
    ensures |r| == |locals|
  {
    seq(|locals|, x requires 0 <= x < |locals| => if x in list then 0 else locals[x])
  }

  /** As the standard asks: every local that is not a parameter starts at zero. */
  function Zeroed(locals: seq<int>, params: nat): (r: seq<int>)
    ensures |r| == |locals|
  {
    seq(|locals|, x requires 0 <= x < |locals| => if x < params then locals[x] else 0)
  }

  /** `(int16_t)i1`: the list holds 16-bit indices. */
  function Short(i: nat): int {
    if i % 0x10000 < 0x8000 then i % 0x10000 else i % 0x10000 - 0x10000
  }

  /** Index by index, the list of the flagged locals. */
  function Listed(flag: seq<bool>, params: nat, n: nat): seq<int>
    requires n <= |flag|
  {
    if n <= params then []
    else Listed(flag, params, n - 1) + if flag[n - 1] then [Short(n - 1)] else []
  }

  predicate TokenUses(t: Token, n: nat) {
    match t
    case LocalGet(x) => x < n
    case LocalSet(x) => x < n
    case LocalTee(x) => x < n
    case _ => true
  }

  /** The tokens close `len` blocks and the function, and end there. */
  predicate Closes(ts: seq<Token>, len: nat, n: nat)
    decreases |ts|
  {
    ts != [] && TokenUses(ts[0], n) &&
    match ts[0]
    case OpenBlock(_) => Closes(ts[1..], len + 1, n)
    case End => if len == 0 then |ts| == 1 else Closes(ts[1..], len - 1, n)
    case _ => Closes(ts[1..], len, n)
  }

  lemma OneCloses(t: Token, after: seq<Token>, len: nat, n: nat)
    requires TokenUses(t, n)
    ensures t.OpenBlock? ==> (Closes([t] + after, len, n) <==> Closes(after, len + 1, n))
    ensures t.End? && len > 0 ==> (Closes([t] + after, len, n) <==> Closes(after, len - 1, n))
    ensures !t.OpenBlock? && !t.End? ==> (Closes([t] + after, len, n) <==> Closes(after, len, n))
  {
    assert ([t] + after)[1..] == after;
  }

  lemma {:induction false} InstrCloses(i: Instr, after: seq<Token>, len: nat, n: nat)
    requires InstrUses(i, n) && Closes(after, len, n)
    ensures Closes(InstrTokens(i) + after, len, n)
    decreases i, 1
  {
    hide Closes;
    match i
    case Block(_, body) => NestedCloses(OpenBlock(0x02), body, after, len, n);
    case Loop(_, body) => NestedCloses(OpenBlock(0x03), body, after, len, n);
    case If(_, yes) => NestedCloses(OpenBlock(0x04), yes, after, len, n);
    case IfElse(_, yes, no) => BranchesClose(i, after, len, n);
    case _ => OneCloses(InstrTokens(i)[0], after, len, n);
  }

  lemma {:induction false} BranchesClose(i: Instr, after: seq<Token>, len: nat, n: nat)
    requires i.IfElse? && InstrUses(i, n) && Closes(after, len, n)
    ensures Closes(InstrTokens(i) + after, len, n)
    decreases i, 0
  {
    hide Closes, CodeTokens;
    var no := CodeTokens(i.no) + ([End] + after);
    OneCloses(End, after, len + 1, n);
    CodeCloses(i.no, [End] + after, len + 1, n);
    OneCloses(Else, no, len + 1, n);
    CodeCloses(i.yes, [Else] + no, len + 1, n);
    OneCloses(OpenBlock(0x04), CodeTokens(i.yes) + ([Else] + no), len, n);
    Regroup([OpenBlock(0x04)], CodeTokens(i.yes), [Else], CodeTokens(i.no), [End], after);
  }

  lemma Regroup(a: seq<Token>, b: seq<Token>, c: seq<Token>, d: seq<Token>, e: seq<Token>, f: seq<Token>)
    ensures a + b + c + d + e + f == a + (b + (c + (d + (e + f))))
  {
    assert c + d + e + f == c + (d + (e + f));
    assert a + b + c + d + e + f == (a + b) + (c + d + e + f);
  }

  lemma {:induction false} NestedCloses(open: Token, body: Code, after: seq<Token>, len: nat, n: nat)
    requires open.OpenBlock? && Uses(body, n) && Closes(after, len, n)
    ensures Closes([open] + CodeTokens(body) + [End] + after, len, n)
    decreases body, 1
  {
    hide Closes;
    var t1 := [End] + after;
    OneCloses(End, after, len + 1, n);
    CodeCloses(body, t1, len + 1, n);
    OneCloses(open, CodeTokens(body) + t1, len, n);
    assert [open] + CodeTokens(body) + [End] + after == [open] + (CodeTokens(body) + t1);
  }

  lemma {:induction false} CodeCloses(code: Code, after: seq<Token>, len: nat, n: nat)
    requires Uses(code, n) && Closes(after, len, n)
    ensures Closes(CodeTokens(code) + after, len, n)
    decreases code, 0
  {
    match code
    case Done => assert [] + after == after;
    case Then(first, rest) =>
      CodeCloses(rest, after, len, n);
      InstrCloses(first, CodeTokens(rest) + after, len, n);
      assert InstrTokens(first) + (CodeTokens(rest) + after) == CodeTokens(code) + after;
  }

  /** The loops at `else` and `end`: marks above the limit are taken back. */
  method ForgetAbove(mark: array<int>, limit: int)
    modifies mark
    ensures mark[..] == Forget(old(mark[..]), limit)
  {
    var i := 0;
    while i < mark.Length
      invariant 0 <= i <= mark.Length
      invariant forall k :: 0 <= k < i ==> mark[k] == if old(mark[k]) > limit then NONE else old(mark[k])
      invariant forall k :: i <= k < mark.Length ==> mark[k] == old(mark[k])
    {
      if mark[i] > limit {
        mark[i] := NONE;
      }
      i := i + 1;
    }
  }

  /** The scan of `pwart_PrepareFunc`: one pass over the instructions. */
  method ScanBody(ts: seq<Token>, mark: array<int>, flag: array<bool>)
    requires mark.Length == flag.Length && Closes(ts, 0, mark.Length) && mark as object != flag
    modifies mark, flag
    ensures flag[..] == Steps(ts, Scan(old(mark[..]), old(flag[..]), 0)).flag
  {
    hide Forget;
    var pc, len, eof := 0, 0, false;
    ghost var start := Scan(mark[..], flag[..], 0);
    assert ts[0..] == ts;
    while !eof && pc < |ts|
      invariant 0 <= pc <= |ts| && len >= 0
      invariant if eof then pc == |ts| else Closes(ts[pc..], len, mark.Length)
      invariant Steps(ts[pc..], Scan(mark[..], flag[..], len)) == Steps(ts, start)
      decreases |ts| - pc
    {
      ghost var marks, flags := mark[..], flag[..];
      assert ts[pc..][1..] == ts[pc + 1..];
      match ts[pc] {
        case OpenBlock(_) => len := len + 1;
        case Else => ForgetAbove(mark, len - 1);
        case End =>
          if len == 0 {
            eof := true;
          } else {
            len := len - 1;
            ForgetAbove(mark, len);
          }
        case LocalGet(x) =>
          if mark[x] > len {
            flag[x] := true;
            assert flag[..] == flags[x := true];
          }
        case LocalSet(x) =>
          if mark[x] > len {
            mark[x] := len;
            assert mark[..] == marks[x := len];
          }
        case LocalTee(x) =>
          if mark[x] > len {
            mark[x] := len;
            assert mark[..] == marks[x := len];
          }
        case Other =>
      }
      pc := pc + 1;
    }
    assert eof;
    assert ts[|ts|..] == [];
  }

  /** What the scan starts from; a parameter's mark is whatever the memory held. */
  function Fresh(before: seq<int>, params: nat): Scan
    requires params <= |before|
  {
    Scan(seq(|before|, x requires 0 <= x < |before| => if x < params then before[x] else NONE),
         seq(|before|, _ => false), 0)
  }

  /** The locals to clear on entry, as the scan of the structured code gives them. */
  function ZeroList(code: Code, before: seq<int>, params: nat): seq<int>
    requires params <= |before|
  {
    Listed(After(code, Fresh(before, params)).flag, params, |before|)
  }

  /** `pwart_PrepareFunc` with the zero-init option on: the list of locals to clear. */
  method PrepareFunc(ts: seq<Token>, params: nat, mark: array<int>, ghost code: Code) returns (list: seq<int>)
    requires ts == BodyTokens(code) && Uses(code, mark.Length) && params <= mark.Length
    modifies mark
    ensures list == ZeroList(code, old(mark[..]), params)
  {
    hide Steps, After, Closes;
    var n := mark.Length;
    ghost var before := mark[..];
    var flag := new bool[n](_ => false);
    var i := params;
    while i < n
      invariant params <= i <= n
      invariant forall k :: params <= k < i ==> mark[k] == NONE
      invariant forall k :: 0 <= k < params ==> mark[k] == before[k]
      invariant forall k :: 0 <= k < n ==> !flag[k]
    {
      mark[i] := NONE;
      i := i + 1;
    }
    assert mark[..] == Fresh(before, params).mark;
    assert flag[..] == Fresh(before, params).flag;
    BodyCloses(code, n);
    ScanBody(ts, mark, flag);
    BodyScanned(code, Fresh(before, params));
    list, i := [], params;
    while i < n
      invariant params <= i <= n
      invariant list == Listed(flag[..], params, i)
    {
      if flag[i] {
        list := list + [Short(i)];
      }
      i := i + 1;
    }
  }

  lemma BodyCloses(code: Code, n: nat)
    requires Uses(code, n)
    ensures Closes(BodyTokens(code), 0, n)
  {
    assert [End][1..] == [];
    CodeCloses(code, [End], 0, n);
  }

  lemma BodyScanned(code: Code, s: Scan)
    requires s.len == 0
    ensures Steps(BodyTokens(code), s).flag == After(code, s).flag
  {
    hide Steps;
    StepsConcat(CodeTokens(code), [End], s);
    Scanned(code, s);
    StepsOne(End, After(code, s));
  }

  // ---------------------------------------------------------------- the results

  lemma {:induction false} ListedMembers(flag: seq<bool>, params: nat, n: nat, x: nat)
    requires n <= |flag| && n <= 0x8000 && x < 0x8000
    ensures x in Listed(flag, params, n) <==> params <= x < n && flag[x]
    decreases n
  {
    if n > params {
      ListedMembers(flag, params, n - 1, x);
    }
  }

  /** Exactly the locals with an exposed read are listed, while nesting stays below
      0xffff and indices fit 16 bits. */
  lemma ListedIffExposed(code: Code, before: seq<int>, params: nat, x: nat)
    requires params <= x < |before| <= 0x8000 && Depth(code) < NONE
    ensures x in ZeroList(code, before, params) <==> Exposed(code, x)
  {
    var s := Fresh(before, params);
    CodeAgrees(code, s, x);
    ListedMembers(After(code, s).flag, params, |before|, x);
  }

  /** A call that clears only the listed locals gives the result the standard asks
      for, whatever the other locals held. */
  lemma UnlistedUnobservable(code: Code, before: seq<int>, params: nat, locals: seq<int>, world: World, keep: nat,
                             ops: Ops, fuel: nat)
    requires params <= |before| == |locals| <= 0x8000 && Depth(code) < NONE
    ensures Call(code, Cleared(locals, ZeroList(code, before, params)), world, keep, ops, fuel)
      == Call(code, Zeroed(locals, params), world, keep, ops, fuel)
  {
    hide Exec, After, Listed, Exposed;
    var list := ZeroList(code, before, params);
    var d := set x: nat | params <= x < |locals| && x !in list;
    forall x | x in d
      ensures !Exposed(code, x)
    {
      ListedIffExposed(code, before, params, x);
    }
    forall x: nat | x < |locals| && x !in d
      ensures Cleared(locals, list)[x] == Zeroed(locals, params)[x]
    {
      if x < params {
        ParameterUnlisted(After(code, Fresh(before, params)).flag, params, |locals|, x);
      }
    }
    CodeSame(code, Config(Cleared(locals, list), [], world), Config(Zeroed(locals, params), [], world), d, ops, fuel);
  }

  lemma ParameterUnlisted(flag: seq<bool>, params: nat, n: nat, x: nat)
    requires x < params && n <= |flag| && n <= 0x8000
    ensures x !in Listed(flag, params, n)
  {
    if x < 0x8000 {
      ListedMembers(flag, params, n, x);
    }
  }

  // ------------------------------------------------------------ the exact limit

  /** Clearing the listed locals is as good as clearing all. */
  ghost predicate Unobservable(code: Code, before: seq<int>, params: nat)
    requires params <= |before|
  {
    forall locals: seq<int>, world, keep, ops, fuel :: |locals| == |before| ==>
      Call(code, Cleared(locals, ZeroList(code, before, params)), world, keep, ops, fuel)
        == Call(code, Zeroed(locals, params), world, keep, ops, fuel)
  }

  /** A read of `x` inside `k` blocks. */
  function Nest(k: nat, x: nat): Code {
    if k == 0 then Then(Get(x), Done) else Then(Block(0, Nest(k - 1, x)), Done)
  }

  lemma {:induction false} NestShape(k: nat, x: nat, n: nat)
    requires x < n
    ensures Depth(Nest(k, x)) == k && Uses(Nest(k, x), n)
    decreases k
  {
    if k > 0 {
      NestShape(k - 1, x, n);
    }
  }

  lemma {:induction false} NestRuns(k: nat, x: nat, c: Config, ops: Ops, fuel: nat)
    requires x < |c.locals|
    ensures Exec(Nest(k, x), c, ops, fuel) == Normal(c.(stack := c.stack + [c.locals[x]]))
    decreases k
  {
    if k > 0 {
      NestRuns(k - 1, x, c, ops, fuel);
    }
  }

  lemma {:induction false} NestMissed(k: nat, x: nat, s: Scan)
    requires x < |s.mark| == |s.flag| && s.mark[x] == NONE && s.len + k >= NONE
    ensures After(Nest(k, x), s).flag == s.flag
    decreases k
  {
    if k > 0 {
      NestMissed(k - 1, x, Step(OpenBlock(0), s));
    }
  }

  lemma {:induction false} NothingListed(flag: seq<bool>, params: nat, n: nat)
    requires n <= |flag| && forall x :: 0 <= x < n ==> !flag[x]
    ensures Listed(flag, params, n) == []
    decreases n
  {
    if n > params {
      NothingListed(flag, params, n - 1);
    }
  }

  /** At nesting depth 0xffff a read of a local that was never written is not noticed. */
  lemma DeepReadUnlisted(before: seq<int>, params: nat, x: nat)
    requires params <= x < |before|
    ensures Exposed(Nest(NONE, x), x) && ZeroList(Nest(NONE, x), before, params) == []
  {
    NestMissed(NONE, x, Fresh(before, params));
    NothingListed(After(Nest(NONE, x), Fresh(before, params)).flag, params, |before|);
    NestExposed(NONE, x);
  }

  lemma {:induction false} NestExposed(k: nat, x: nat)
    ensures Exposed(Nest(k, x), x)
    decreases k
  {
    if k > 0 {
      NestExposed(k - 1, x);
    }
  }

  /** Local 0x8000 and above are listed under another index. */
  lemma WideIndexUnlisted(before: seq<int>, params: nat, x: nat)
    requires params <= x && |before| == x + 1 && 0x8000 <= x
    ensures Exposed(Nest(0, x), x) && x !in ZeroList(Nest(0, x), before, params)
  {
    var flag := After(Nest(0, x), Fresh(before, params)).flag;
    assert After(Nest(0, x), Fresh(before, params)) == AfterInstr(Get(x), Fresh(before, params));
    NothingListed(flag, params, x);
    assert ZeroList(Nest(0, x), before, params) == [Short(x)];
  }

  lemma UnlistedReadObserved(k: nat, before: seq<int>, params: nat, x: nat)
    requires params <= x < |before| && x !in ZeroList(Nest(k, x), before, params)
    ensures !Unobservable(Nest(k, x), before, params)
  {
    hide Exec, ZeroList;
    var code, list := Nest(k, x), ZeroList(Nest(k, x), before, params);
    var locals := seq(|before|, _ => 1);
    var ops := (_: nat, _: seq<int>, world: World) => Stop(world);
    NestRuns(k, x, Config(Cleared(locals, list), [], []), ops, 0);
    NestRuns(k, x, Config(Zeroed(locals, params), [], []), ops, 0);
    assert Call(code, Cleared(locals, list), [], 0, ops, 0) == Finished([1], []);
    assert Call(code, Zeroed(locals, params), [], 0, ops, 0) == Finished([0], []);
  }

  /** For functions with a local that is not a parameter: skipping the unlisted
      locals is sound for all bodies nested at most `depth` deep exactly when the
      depth stays below 0xffff and there are at most 0x8000 locals. */
  lemma ExactLimit(before: seq<int>, params: nat, depth: nat)
    requires params < |before|
    ensures (forall code :: Uses(code, |before|) && Depth(code) <= depth ==> Unobservable(code, before, params))
      <==> depth < NONE && |before| <= 0x8000
  {
    hide Unobservable, ZeroList, Exposed, Depth, Uses, Nest;
    var x := |before| - 1;
    if depth >= NONE {
      NestShape(NONE, x, |before|);
      DeepReadUnlisted(before, params, x);
      UnlistedReadObserved(NONE, before, params, x);
    } else if |before| > 0x8000 {
      NestShape(0, x, |before|);
      WideIndexUnlisted(before, params, x);
      UnlistedReadObserved(0, before, params, x);
    } else {
      forall code | Uses(code, |before|) && Depth(code) <= depth
        ensures Unobservable(code, before, params)
      {
        WithinLimit(code, before, params);
      }
    }
  }

  lemma WithinLimit(code: Code, before: seq<int>, params: nat)
    requires params <= |before| <= 0x8000 && Depth(code) < NONE
    ensures Unobservable(code, before, params)
  {
    forall locals: seq<int>, world, keep, ops, fuel | |locals| == |before|
      ensures Call(code, Cleared(locals, ZeroList(code, before, params)), world, keep, ops, fuel)
        == Call(code, Zeroed(locals, params), world, keep, ops, fuel)
    {
      UnlistedUnobservable(code, before, params, locals, world, keep, ops, fuel);
    }
  }
}
