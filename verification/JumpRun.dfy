/** Whole runs: what the words of a program mean, one after the other, and that the code
    generated from them runs as the program does. */
module JumpRun {
  import opened Arm64
  import opened JumpLayout
  import opened JumpReach

  // ----------------------------------------------------- what the program means

  /** Before word `w` of the program, or at an address that is none of its words'. */
  datatype State =
    | At(w: nat, regs: map<nat, nat>, tests: map<nat, bool>)
    | Gone(addr: nat, regs: map<nat, nat>, tests: map<nat, bool>)

  function Value(s: State, r: nat): nat {
    if r in s.regs then s.regs[r] else 0
  }

  /** Instructions that do the same wherever they are. */
  predicate Movable(i: Ins) {
    i.Other? || i.Movz? || i.Movk? || i.Addi?
  }

  /** Besides jumps and addresses the program has movable instructions, branches to a
      register, and the `Skip` words of its conditional jumps. */
  ghost predicate Plain(p: Prog) {
    forall w :: 0 <= w < |p.words| && p.words[w].Op? ==>
      Movable(p.words[w].ins) || p.words[w].ins.BranchReg? || (p.words[w].ins.Skip? && Conditional(p, w + 1))
  }

  ghost predicate Running(p: Prog, s: State) {
    s.At? && s.w < |p.words| && !Conditional(p, s.w)
  }

  /** The jump at word `w` is taken: a call leaves the address behind it in the link register,
      and the register of the jump may be used for the address. */
  ghost predicate Jumps(p: Prog, base: nat, w: nat, s: State, t: State)
    requires Built(p) && w < |p.words| && p.words[w].Jump?
  {
    var reg, link := p.words[w].reg, p.words[w].link;
    && t.tests == s.tests && (link ==> Value(t, LR) == Addr(p, base, w + 1))
    && (forall x: nat :: x != reg && !(link && x == LR) ==> Value(t, x) == Value(s, x))
    && match p.words[w].target
       case Abs(addr) => t.Gone? && t.addr == addr
       case To(lab) => t.At? && t.w == LabelAt(p, w, lab)
  }

  /** On to word `w` with the same values but for one register. */
  ghost predicate Goes(s: State, t: State, w: nat, reg: nat, x: nat) {
    && t.At? && t.w == w && t.tests == s.tests && Value(t, reg) == x
    && forall y: nat :: y != reg ==> Value(t, y) == Value(s, y)
  }

  ghost predicate Stays(s: State, t: State) {
    t.tests == s.tests && forall x: nat :: Value(t, x) == Value(s, x)
  }

  function AsCpu(s: State): Cpu {
    Cpu(0, s.regs, s.tests)
  }

  /** One step of the program. */
  ghost predicate Does(p: Prog, base: nat, s: State, t: State)
    requires Built(p) && Running(p, s)
  {
    match p.words[s.w]
    case Jump(_, _, _, _, _) => Jumps(p, base, s.w, s, t)
    case Mov(reg, _) => Goes(s, t, s.w + 1, reg, Dest(p, base, s.w))
    case Op(i) =>
      if i.Skip? then
        Conditional(p, s.w + 1) &&
        if Test(AsCpu(s), i.test) == i.sense then t.At? && t.w == s.w + 2 && Stays(s, t)
        else Jumps(p, base, s.w + 1, s, t)
      else if i.BranchReg? then
        && t.Gone? && t.addr == Value(s, i.reg) && t.tests == s.tests
        && (forall x: nat :: !(i.link && x == LR) ==> Value(t, x) == Value(s, x))
        && (i.link ==> Value(t, LR) == Addr(p, base, s.w + 1))
      else
        && t.At? && t.w == s.w + 1 && t.tests == s.tests
        && forall x: nat :: Value(t, x) == Reg(Step(i, AsCpu(s)), x)
  }

  /** `k` steps, or fewer if the program is left or ends. */
  ghost predicate Runs(p: Prog, base: nat, s: State, t: State, k: nat)
    requires Built(p)
    decreases k
  {
    if k == 0 || !Running(p, s) then t == s
    else exists u :: Does(p, base, s, u) && Runs(p, base, u, t, k - 1)
  }

  // --------------------------------------------------------- the code and the program

  /** A machine that runs the generated code is where the program is. */
  ghost predicate Stands(p: Prog, base: nat, s: State, c: Cpu)
    requires Built(p)
  {
    && c.tests == s.tests && (forall x: nat :: Reg(c, x) == Value(s, x))
    && match s
       case At(w, _, _) => w <= |p.words| && !Conditional(p, w) && c.pc == Addr(p, base, w)
       case Gone(addr, _, _) => c.pc == addr
  }

  lemma TargetStands(p: Prog, base: nat, w: nat, s: State, c: Cpu, r: Cpu) returns (t: State)
    requires Built(p) && w < |p.words| && p.words[w].Jump? && c.tests == s.tests
    requires forall x: nat :: Reg(c, x) == Value(s, x)
    requires Arrived(c, r, Dest(p, base, w), p.words[w].reg, p.words[w].link, Addr(p, base, w + 1))
    ensures Jumps(p, base, w, s, t) && Stands(p, base, t, r)
  {
    hide Act;
    assert WordOk(p, w);
    match p.words[w].target
    case Abs(addr) =>
      t := Gone(addr, r.regs, r.tests);
    case To(lab) =>
      assert LabelOk(p, lab);
      t := At(LabelAt(p, w, lab), r.regs, r.tests);
    assert forall x: nat :: Reg(r, x) == Value(t, x);
  }

  lemma JumpStands(p: Prog, base: nat, code: seq<Ins>, s: State, c: Cpu) returns (t: State, n: nat)
    requires Built(p) && Placed(p, base) && Generated(p, base, code)
    requires Running(p, s) && p.words[s.w].Jump? && Stands(p, base, s, c)
    ensures Does(p, base, s, t) && Stands(p, base, t, Run(code, base, c, n))
  {
    hide Run, Placed, Generated, Act, Jumps;
    n := JumpReaches(p, base, code, s.w, c);
    t := TargetStands(p, base, s.w, s, c, Run(code, base, c, n));
  }

  lemma SkipStands(p: Prog, base: nat, code: seq<Ins>, s: State, c: Cpu) returns (t: State, n: nat)
    requires Built(p) && Placed(p, base) && Generated(p, base, code)
    requires Running(p, s) && p.words[s.w].Op? && p.words[s.w].ins.Skip? && Conditional(p, s.w + 1)
    requires Stands(p, base, s, c)
    ensures Does(p, base, s, t) && Stands(p, base, t, Run(code, base, c, n))
  {
    hide Run, Placed, Generated, Act, Jumps, Dest;
    var w := s.w + 1;
    assert WordOk(p, w);
    n := JumpReaches(p, base, code, w, c);
    var r := Run(code, base, c, n);
    if Taken(p, w, c) {
      t := TargetStands(p, base, w, s, c, r);
    } else {
      NotBehindSkip(p, w);
      t := At(s.w + 2, r.regs, r.tests);
      assert forall x: nat :: Reg(r, x) == Value(t, x);
    }
  }

  lemma KnownWord(p: Prog, w: nat)
    requires Built(p) && w < |p.words|
    ensures WordOk(p, w)
  {
  }

  /** The word behind a conditional jump is no conditional jump: that would need its own `Skip`. */
  lemma NotBehindSkip(p: Prog, w: nat)
    requires Built(p) && Conditional(p, w)
    ensures !Conditional(p, w + 1)
  {
    if w + 1 < |p.words| {
      KnownWord(p, w + 1);
    }
  }

  lemma MovStands(p: Prog, base: nat, code: seq<Ins>, s: State, c: Cpu) returns (t: State, n: nat)
    requires Built(p) && Placed(p, base) && Generated(p, base, code)
    requires Running(p, s) && p.words[s.w].Mov? && Stands(p, base, s, c)
    ensures Does(p, base, s, t) && Stands(p, base, t, Run(code, base, c, n))
  {
    hide Run, Placed, Generated, Act, Dest, ActSize;
    n := ActSize(p, base, s.w);
    AddressLoads(p, base, code, s.w, c);
    NoSkipBefore(p, s.w);
    var r := Run(code, base, c, n);
    t := At(s.w + 1, r.regs, r.tests);
    assert forall x: nat :: Reg(r, x) == Value(t, x);
  }

  /** Only a `Skip` stands before a conditional jump. */
  lemma NoSkipBefore(p: Prog, w: nat)
    requires Built(p) && w < |p.words| && !(p.words[w].Op? && p.words[w].ins.Skip?)
    ensures !Conditional(p, w + 1)
  {
    if w + 1 < |p.words| {
      KnownWord(p, w + 1);
    }
  }

  /** The code of a plain word is the word itself. */
  lemma PlainStep(p: Prog, base: nat, code: seq<Ins>, w: nat, c: Cpu)
    requires Built(p) && Placed(p, base) && Generated(p, base, code)
    requires w < |p.words| && p.words[w].Op? && !Conditional(p, w + 1) && c.pc == Addr(p, base, w)
    ensures Run(code, base, c, 1) == Step(p.words[w].ins, c) && Next(c) == Addr(p, base, w + 1)
  {
    hide Built, Run, Step, Act, Placed, WordCode, Generated;
    PlainCode(p, base, code, w);
    RunOne(code, base, c, Act(p, base, w));
    PlainNext(p, base, w);
  }

  lemma PlainCode(p: Prog, base: nat, code: seq<Ins>, w: nat)
    requires Built(p) && Generated(p, base, code)
    requires w < |p.words| && p.words[w].Op? && !Conditional(p, w + 1)
    ensures Act(p, base, w) < |code| && code[Act(p, base, w)] == p.words[w].ins
  {
    hide Built, Act, Choose, Dest;
    var part := WordCode(p, base, w);
    assert Slice(code, Act(p, base, w), part);
    assert part == [p.words[w].ins];
    assert code[Act(p, base, w) + 0] == part[0];
  }

  lemma PlainNext(p: Prog, base: nat, w: nat)
    requires Built(p) && Placed(p, base) && w < |p.words| && p.words[w].Op?
    ensures (Addr(p, base, w) + 4) % TWO64 == Addr(p, base, w + 1)
  {
    hide Built, Act, Placed;
    ActNext(p, base, w);
    AllShrink(p, base, |p.words|);
    EndBounded(p, base, w + 1);
  }

  lemma SameStep(i: Ins, c: Cpu, d: Cpu)
    requires Movable(i) && forall x: nat :: Reg(c, x) == Reg(d, x)
    ensures Step(i, c).pc == Next(c) && Step(i, c).tests == c.tests
    ensures forall x: nat :: Reg(Step(i, c), x) == Reg(Step(i, d), x)
  {
    hide Insert;
    if i.Movk? {
      assert Reg(c, i.reg) == Reg(d, i.reg);
    } else if i.Addi? {
      assert Reg(c, i.src) == Reg(d, i.src);
    }
    forall x: nat
      ensures Reg(Step(i, c), x) == Reg(Step(i, d), x)
    {
      assert Reg(c, x) == Reg(d, x);
    }
  }

  lemma PlainStands(p: Prog, base: nat, code: seq<Ins>, s: State, c: Cpu) returns (t: State, n: nat)
    requires Built(p) && Placed(p, base) && Generated(p, base, code) && Plain(p)
    requires Running(p, s) && p.words[s.w].Op? && !p.words[s.w].ins.Skip? && Stands(p, base, s, c)
    ensures Does(p, base, s, t) && Stands(p, base, t, Run(code, base, c, n))
  {
    hide Built, Run, Placed, Generated, Act, Step;
    var i := p.words[s.w].ins;
    NoSkipBefore(p, s.w);
    PlainStep(p, base, code, s.w, c);
    n := 1;
    var r := Step(i, c);
    if i.BranchReg? {
      t := Gone(r.pc, r.regs, r.tests);
      BranchStep(i, c);
      assert Reg(c, i.reg) == Value(s, i.reg);
    } else {
      assert forall x: nat :: Reg(AsCpu(s), x) == Value(s, x);
      SameStep(i, c, AsCpu(s));
      t := At(s.w + 1, r.regs, r.tests);
    }
    assert forall x: nat :: Reg(r, x) == Value(t, x);
  }

  lemma BranchStep(i: Ins, c: Cpu)
    requires i.BranchReg?
    ensures Step(i, c).pc == Reg(c, i.reg) && Step(i, c).tests == c.tests
    ensures i.link ==> Reg(Step(i, c), LR) == Next(c)
    ensures forall x: nat :: !(i.link && x == LR) ==> Reg(Step(i, c), x) == Reg(c, x)
  {
  }

  /** Whatever the program does next, the generated code does it. */
  lemma StepStands(p: Prog, base: nat, code: seq<Ins>, s: State, c: Cpu) returns (t: State, n: nat)
    requires Built(p) && Placed(p, base) && Generated(p, base, code) && Plain(p)
    requires Running(p, s) && Stands(p, base, s, c)
    ensures Does(p, base, s, t) && Stands(p, base, t, Run(code, base, c, n))
  {
    hide Built, Run, Placed, Generated, Does, Stands;
    match p.words[s.w]
    case Jump(_, _, _, _, _) => t, n := JumpStands(p, base, code, s, c);
    case Mov(_, _) => t, n := MovStands(p, base, code, s, c);
    case Op(i) =>
      if i.Skip? {
        t, n := SkipStands(p, base, code, s, c);
      } else {
        t, n := PlainStands(p, base, code, s, c);
      }
  }

  /** A run of the program, of any length, is a run of the generated code: it meets the same
      words with the same values, and leaves the program where the program is left. */
  lemma {:induction false} RunStands(p: Prog, base: nat, code: seq<Ins>, s: State, c: Cpu, k: nat)
    returns (t: State, n: nat)
    requires Built(p) && Placed(p, base) && Generated(p, base, code) && Plain(p) && Stands(p, base, s, c)
    ensures Runs(p, base, s, t, k) && Stands(p, base, t, Run(code, base, c, n))
    decreases k
  {
    hide Built, Placed, Generated, Does, Stands, Running, Plain;
    if k == 0 || !Running(p, s) {
      t, n := s, 0;
    } else {
      hide Run;
      var u, m := StepStands(p, base, code, s, c);
      var l;
      t, l := RunStands(p, base, code, u, Run(code, base, c, m), k - 1);
      n := m + l;
      RunTwice(code, base, c, m, l);
    }
  }

  /** From the first word on. */
  lemma ProgramRuns(p: Prog, base: nat, code: seq<Ins>, c: Cpu, k: nat) returns (t: State, n: nat)
    requires Built(p) && Placed(p, base) && Generated(p, base, code) && Plain(p) && c.pc == base
    ensures Runs(p, base, At(0, c.regs, c.tests), t, k) && Stands(p, base, t, Run(code, base, c, n))
  {
    hide Placed, Generated, Plain, Run, Runs;
    if p.words != [] {
      KnownWord(p, 0);
    }
    t, n := RunStands(p, base, code, At(0, c.regs, c.tests), c, k);
  }

  // ----------------------------------------------------------- one way to go on

  /** The register that a step may use for an address. */
  ghost function Scratch(p: Prog, s: State): int
    requires Running(p, s)
  {
    match p.words[s.w]
    case Jump(reg, _, _, _, _) => reg
    case Op(i) => if i.Skip? && Conditional(p, s.w + 1) then p.words[s.w + 1].reg else -1
    case Mov(_, _) => -1
  }

  /** The program has one way to go on from a state, but for the register of a jump: so the run
      of the code is that of the program. */
  lemma OneWay(p: Prog, base: nat, s: State, t: State, u: State)
    requires Built(p) && Running(p, s) && Does(p, base, s, t) && Does(p, base, s, u)
    ensures t.tests == u.tests && t.At? == u.At? && (t.At? ==> t.w == u.w) && (t.Gone? ==> t.addr == u.addr)
    ensures forall x: nat :: x != Scratch(p, s) ==> Value(t, x) == Value(u, x)
  {
    hide Act, Dest, Step;
    forall x: nat | x != Scratch(p, s)
      ensures Value(t, x) == Value(u, x)
    {
      match p.words[s.w]
      case Jump(reg, link, _, _, _) => assert !(link && x == LR) ==> Value(t, x) == Value(s, x);
      case Mov(reg, _) => assert x != reg ==> Value(t, x) == Value(s, x);
      case Op(i) => assert i.Skip? ==> Value(t, x) == Value(s, x) || (p.words[s.w + 1].link && x == LR);
    }
  }
}
