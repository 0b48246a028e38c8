/** Jump relaxation as a whole: the generated code does what the emitted jumps ask for. */
module JumpReach {
  import opened Arm64
  import opened JumpLayout
  import opened JumpLanding

  /** The address a jump or an address load is meant for. */
  ghost function Dest(p: Prog, base: nat, w: nat): nat
    requires Built(p) && w < |p.words| && !p.words[w].Op?
  {
    match p.words[w].target
    case Abs(addr) => addr
    case To(lab) => base + 4 * Act(p, base, LabelAt(p, w, lab))
  }

  ghost function Addr(p: Prog, base: nat, w: nat): nat
    requires Built(p) && w <= |p.words|
  {
    base + 4 * Act(p, base, w)
  }

  predicate Conditional(p: Prog, w: nat) {
    w < |p.words| && p.words[w].Jump? && p.words[w].cond
  }

  /** The instructions word `w` becomes. */
  ghost function WordCode(p: Prog, base: nat, w: nat): (r: seq<Ins>)
    requires Built(p) && w < |p.words|
  {
    match p.words[w]
    case Op(ins) =>
      if Conditional(p, w + 1) then
        assert WordOk(p, w + 1);
        [SkipCode(ins, Choose(p, base, w + 1), Addr(p, base, w), Dest(p, base, w + 1))]
      else [ins]
    case Jump(reg, link, _, _, _) => JumpCode(Choose(p, base, w), Addr(p, base, w), Dest(p, base, w), reg, link)
    case Mov(reg, _) =>
      if Choose(p, base, w).Cond? then [] else MovCode(Choose(p, base, w), Addr(p, base, w), Dest(p, base, w), reg)
  }

  lemma CodeSize(p: Prog, base: nat, w: nat)
    requires Built(p) && w < |p.words|
    ensures |WordCode(p, base, w)| == ActSize(p, base, w)
  {
    hide Distance, TargetAddr, LabelAt, Built;
  }

  ghost predicate Slice(code: seq<Ins>, i: nat, part: seq<Ins>) {
    i + |part| <= |code| && forall k :: 0 <= k < |part| ==> code[i + k] == part[k]
  }

  /** The code array, as the second pass leaves it. */
  ghost predicate Generated(p: Prog, base: nat, code: seq<Ins>)
    requires Built(p)
  {
    |code| == Act(p, base, |p.words|) &&
    forall w :: 0 <= w < |p.words| ==> Slice(code, Act(p, base, w), WordCode(p, base, w))
  }

  // ------------------------------------------------- the choice suits the result

  /** A target ahead ends up no farther than it was judged to be. */
  lemma LabelDistance(p: Prog, base: nat, w: nat)
    requires Built(p) && Placed(p, base) && w < |p.words| && !p.words[w].Op? && p.words[w].target.To?
    ensures var d, f := Distance(p, base, w), Signed(Dest(p, base, w) - Addr(p, base, w));
      && (f == d || 0 <= f <= d) && Dest(p, base, w) <= TargetAddr(p, base, w)
    ensures Dest(p, base, w) < TWO64 && Dest(p, base, w) % 4 == 0
  {
    hide Built, ActSize, ResSize, LabelAt, Signed, Orig, Act, Res;
    AllShrink(p, base, |p.words|);
    var t := LabelAt(p, w, p.words[w].target.lab);
    PositionBounded(p, base, w);
    PositionBounded(p, base, t);
    Aligned(p, base, t);
    if t > w {
      ActualSpan(p, base, w, t, |p.words|);
      ReducedSpan(p, w, t);
      SignedSmall(4 * (Act(p, base, t) - Act(p, base, w)), 0);
      SignedSmall(4 * (Res(p, t) - Res(p, w)), 0);
    }
  }

  lemma Aligned(p: Prog, base: nat, w: nat)
    requires Built(p) && Placed(p, base) && w <= |p.words|
    ensures Addr(p, base, w) % 4 == 0
  {
    hide Built, Act;
  }

  /** The chosen form suits the final distance and the final address. */
  lemma ChoiceFits(p: Prog, base: nat, w: nat)
    requires Built(p) && Placed(p, base) && w < |p.words| && !p.words[w].Op?
    ensures Addr(p, base, w) < TWO64 && Addr(p, base, w) % 4 == 0 && Dest(p, base, w) < TWO64
    ensures p.words[w].Jump? ==> Dest(p, base, w) % 4 == 0
    ensures Fits(Choose(p, base, w), Signed(Dest(p, base, w) - Addr(p, base, w)), Dest(p, base, w))
    ensures Choose(p, base, w).Cond? ==> Conditional(p, w)
    ensures p.words[w].Mov? && Choose(p, base, w).Near? ==>
      -0x10_0000 <= Signed(Dest(p, base, w) - Addr(p, base, w)) <= 0xf_ffff
  {
    hide Signed, Act, Distance, TargetAddr, LabelAt, Placed;
    AllShrink(p, base, |p.words|);
    PositionBounded(p, base, w);
    Aligned(p, base, w);
    if p.words[w].target.To? {
      LabelDistance(p, base, w);
    } else {
      AbsoluteDistance(p, base, w);
    }
  }

  lemma AbsoluteDistance(p: Prog, base: nat, w: nat)
    requires Built(p) && w < |p.words| && !p.words[w].Op? && p.words[w].target.Abs?
    ensures Distance(p, base, w) == Signed(Dest(p, base, w) - Addr(p, base, w))
    ensures TargetAddr(p, base, w) == Dest(p, base, w) < TWO64
    ensures p.words[w].Jump? ==> Dest(p, base, w) % 4 == 0
  {
    assert WordOk(p, w);
  }

  lemma PositionBounded(p: Prog, base: nat, w: nat)
    requires Built(p) && Placed(p, base) && w <= |p.words| && Shrunk(p, base, |p.words|)
    ensures 0 <= Act(p, base, w) <= Res(p, w) <= Orig(p, |p.words|)
    ensures w < |p.words| ==> Addr(p, base, w) < TWO64
  {
    hide Built, ActSize, ResSize;
    ActualSpan(p, base, 0, w, |p.words|);
    ReducedSpan(p, 0, w);
    OrigSpan(p, w, |p.words|);
    if w < |p.words| {
      OrigSpan(p, w + 1, |p.words|);
    }
  }

  // ---------------------------------------------------------------- running it

  predicate Sequential(i: Ins) {
    i.Movz? || i.Movk? || i.Adr? || i.Adrp? || i.Addi?
  }

  lemma RunOne(code: seq<Ins>, base: nat, c: Cpu, k: nat)
    requires k < |code| && c.pc == base + 4 * k
    ensures Run(code, base, c, 1) == Step(code[k], c)
  {
    assert (c.pc - base) / 4 == k;
    assert Run(code, base, Step(code[k], c), 0) == Step(code[k], c);
  }

  lemma {:induction false} RunTwice(code: seq<Ins>, base: nat, c: Cpu, n: nat, m: nat)
    ensures Run(code, base, Run(code, base, c, n), m) == Run(code, base, c, n + m)
    decreases n
  {
    if n == 0 || c.pc < base || (c.pc - base) % 4 != 0 || (c.pc - base) / 4 >= |code| {
    } else {
      RunTwice(code, base, Step(code[(c.pc - base) / 4], c), n - 1, m);
    }
  }

  lemma {:induction false} RunStraight(code: seq<Ins>, base: nat, c: Cpu, k: nat, part: seq<Ins>)
    requires Slice(code, k, part) && c.pc == base + 4 * k && base + 4 * |code| < TWO64
    requires forall j :: 0 <= j < |part| ==> Sequential(part[j])
    ensures Run(code, base, c, |part|) == Straight(part, c)
    decreases |part|
  {
    if part != [] {
      var d := Step(part[0], c);
      assert code[k + 0] == part[0];
      RunOne(code, base, c, k);
      NextPc(part[0], c);
      var rest := part[1..];
      assert forall j :: 0 <= j < |rest| ==> code[k + 1 + j] == part[1 + j] == rest[j];
      RunStraight(code, base, d, k + 1, rest);
      RunTwice(code, base, c, 1, |rest|);
    }
  }

  lemma NextPc(i: Ins, c: Cpu)
    requires Sequential(i) && c.pc + 4 < TWO64
    ensures Step(i, c).pc == c.pc + 4
  {
  }

  lemma LoadSequential(patch: Patch, pc: nat, dest: nat, reg: nat)
    ensures var code := LoadCode(patch, pc, dest, reg); forall j :: 0 <= j < |code| ==> Sequential(code[j])
  {
  }

  /** Control is at `dest`; a call leaves the address after it in the link
      register; otherwise only the register that held the address may differ. */
  ghost predicate Arrived(c: Cpu, r: Cpu, dest: nat, reg: nat, link: bool, after: nat) {
    && r.pc == dest && r.tests == c.tests
    && (link ==> Reg(r, LR) == after)
    && forall x: nat :: x != reg && !(link && x == LR) ==> Reg(r, x) == Reg(c, x)
  }

  lemma LoadArrives(code: seq<Ins>, base: nat, c: Cpu, k: nat, load: seq<Ins>, dest: nat, reg: nat, link: bool)
    requires base + 4 * |code| < TWO64 && c.pc == base + 4 * k
    requires Slice(code, k, load + [BranchReg(link, reg)])
    requires forall j :: 0 <= j < |load| ==> Sequential(load[j])
    requires Loaded(c, Straight(load, c), reg, dest, |load|)
    ensures Arrived(c, Run(code, base, c, |load| + 1), dest, reg, link, base + 4 * (k + |load| + 1))
  {
    hide Run, Straight;
    var part := load + [BranchReg(link, reg)];
    assert forall j :: 0 <= j < |load| ==> code[k + j] == part[j] == load[j];
    RunStraight(code, base, c, k, load);
    assert code[k + |load|] == part[|load|];
    var d := Straight(load, c);
    RunOne(code, base, d, k + |load|);
    RunTwice(code, base, c, |load|, 1);
  }

  lemma SequenceArrives(code: seq<Ins>, base: nat, c: Cpu, k: nat, patch: Patch, dest: nat, reg: nat, link: bool)
    returns (n: nat)
    requires !patch.Cond? && base % 4 == 0 && base + 4 * |code| < TWO64 && c.pc == base + 4 * k
    requires dest < TWO64 && dest % 4 == 0 && Fits(patch, Signed(dest - c.pc), dest)
    requires Slice(code, k, JumpCode(patch, c.pc, dest, reg, link))
    ensures Arrived(c, Run(code, base, c, n), dest, reg, link, base + 4 * (k + JumpLength(patch)))
  {
    hide Signed, Run, Straight, Fits, LoadCode, Loaded;
    var part := JumpCode(patch, c.pc, dest, reg, link);
    if patch.Near? {
      assert code[k + 0] == part[0];
      NearRange(c.pc, dest);
      NearLands(c, dest, link);
      RunOne(code, base, c, k);
      n := 1;
    } else {
      var load := LoadCode(patch, c.pc, dest, reg);
      LoadLoads(c, patch, reg, dest);
      LoadSequential(patch, c.pc, dest, reg);
      LoadArrives(code, base, c, k, load, dest, reg, link);
      n := |load| + 1;
    }
  }

  lemma NearRange(pc: nat, dest: nat)
    requires Fits(Near, Signed(dest - pc), dest)
    ensures -0x800_0000 <= Signed(dest - pc) <= 0x7ff_ffff
  {
  }

  // ------------------------------------------------------------- the main results

  /** Where a jump starts: at its `Skip` if it has one. */
  ghost function JumpStart(p: Prog, base: nat, w: nat): nat
    requires Built(p) && w < |p.words| && p.words[w].Jump?
  {
    assert WordOk(p, w);
    Addr(p, base, if p.words[w].cond then w - 1 else w)
  }

  /** The condition of a jump holds: it has none, or the test that would skip it fails. */
  ghost predicate Taken(p: Prog, w: nat, c: Cpu)
    requires Built(p) && w < |p.words| && p.words[w].Jump?
  {
    assert WordOk(p, w);
    p.words[w].cond ==> Test(c, p.words[w - 1].ins.test) != p.words[w - 1].ins.sense
  }

  lemma ActNext(p: Prog, base: nat, w: nat)
    requires Built(p) && w < |p.words|
    ensures Act(p, base, w + 1) == Act(p, base, w) + ActSize(p, base, w)
  {
  }

  lemma BodyArrives(p: Prog, base: nat, code: seq<Ins>, w: nat, c: Cpu) returns (n: nat)
    requires Built(p) && Placed(p, base) && Generated(p, base, code)
    requires w < |p.words| && p.words[w].Jump? && !Choose(p, base, w).Cond? && c.pc == Addr(p, base, w)
    ensures Arrived(c, Run(code, base, c, n), Dest(p, base, w), p.words[w].reg, p.words[w].link, Addr(p, base, w + 1))
  {
    hide Built, Choose, Dest, Run, JumpCode, Arrived;
    ChoiceFits(p, base, w);
    AllShrink(p, base, |p.words|);
    PositionBounded(p, base, |p.words|);
    ActNext(p, base, w);
    assert WordCode(p, base, w)
      == JumpCode(Choose(p, base, w), c.pc, Dest(p, base, w), p.words[w].reg, p.words[w].link);
    n := SequenceArrives(code, base, c, Act(p, base, w), Choose(p, base, w), Dest(p, base, w), p.words[w].reg,
                         p.words[w].link);
  }

  lemma SkipWord(p: Prog, base: nat, code: seq<Ins>, w: nat)
    requires Built(p) && Generated(p, base, code) && Conditional(p, w)
    ensures w > 0 && p.words[w - 1].Op? && p.words[w - 1].ins.Skip? && Act(p, base, w - 1) < |code|
    ensures code[Act(p, base, w - 1)]
      == SkipCode(p.words[w - 1].ins, Choose(p, base, w), Addr(p, base, w - 1), Dest(p, base, w))
  {
    hide Choose, Dest, SkipCode, Act;
    assert WordOk(p, w);
    var part := WordCode(p, base, w - 1);
    assert Slice(code, Act(p, base, w - 1), part);
    assert code[Act(p, base, w - 1) + 0] == part[0];
  }

  lemma SkipStep(p: Prog, base: nat, code: seq<Ins>, w: nat, c: Cpu)
    requires Built(p) && Placed(p, base) && Generated(p, base, code)
    requires Conditional(p, w) && c.pc == JumpStart(p, base, w)
    ensures w > 0 && p.words[w - 1].Op? && p.words[w - 1].ins.Skip? && Addr(p, base, w - 1) + 4 == Addr(p, base, w)
    ensures Run(code, base, c, 1) == Step(SkipCode(p.words[w - 1].ins, Choose(p, base, w), c.pc, Dest(p, base, w)), c)
  {
    hide Choose, Dest, Run, SkipCode, Step, Act, Placed, Signed, Generated, WordCode;
    assert WordOk(p, w);
    ActNext(p, base, w - 1);
    SkipWord(p, base, code, w);
    RunOne(code, base, c, Act(p, base, w - 1));
  }

  /** The conditional form taken up by the `Skip` itself. */
  lemma CondArrives(p: Prog, base: nat, code: seq<Ins>, w: nat, c: Cpu)
    requires Built(p) && Placed(p, base) && Generated(p, base, code)
    requires Conditional(p, w) && Choose(p, base, w).Cond? && c.pc == JumpStart(p, base, w)
    ensures Run(code, base, c, 1) == c.(pc := if Taken(p, w, c) then Dest(p, base, w) else Addr(p, base, w + 1))
    ensures Act(p, base, w + 1) == Act(p, base, w)
  {
    hide Choose, Dest, Run, Step, Signed, Fits, Act;
    SkipStep(p, base, code, w, c);
    ActNext(p, base, w);
    ChoiceFits(p, base, w);
    var dest := Dest(p, base, w);
    CondRange(c.pc, dest);
    CondLands(c, p.words[w - 1].ins, dest);
  }

  lemma CondRange(pc: nat, dest: nat)
    requires Fits(Cond, Signed(dest - (pc + 4)), dest)
    ensures -0x10_0000 <= Signed(dest - pc) <= 0xf_ffff
  {
    hide Signed;
    assert -0x10_0000 <= Signed(dest - (pc + 4)) + 4 <= 0xf_ffff;
    SignedNear(dest - (pc + 4), 4);
  }

  lemma ConditionalReaches(p: Prog, base: nat, code: seq<Ins>, w: nat, c: Cpu) returns (n: nat)
    requires Built(p) && Placed(p, base) && Generated(p, base, code)
    requires Conditional(p, w) && c.pc == JumpStart(p, base, w)
    ensures var r := Run(code, base, c, n);
      if Taken(p, w, c) then Arrived(c, r, Dest(p, base, w), p.words[w].reg, p.words[w].link, Addr(p, base, w + 1))
      else r == c.(pc := Addr(p, base, w + 1))
  {
    hide Choose, Dest, Run, Signed, Placed, Generated;
    assert WordOk(p, w);
    if Choose(p, base, w).Cond? {
      CondArrives(p, base, code, w, c);
      n := 1;
    } else {
      SkipStep(p, base, code, w, c);
      StepOver(p, base, w, c);
      if Taken(p, w, c) {
        var m := BodyArrives(p, base, code, w, c.(pc := Addr(p, base, w)));
        RunTwice(code, base, c, 1, m);
        n := 1 + m;
      } else {
        n := 1;
      }
    }
  }

  /** Otherwise the adjusted `Skip` steps over exactly the words of the jump. */
  lemma StepOver(p: Prog, base: nat, w: nat, c: Cpu)
    requires Built(p) && Placed(p, base) && Conditional(p, w) && c.pc == JumpStart(p, base, w)
      && !Choose(p, base, w).Cond?
    requires w > 0 && p.words[w - 1].Op? && p.words[w - 1].ins.Skip? && Addr(p, base, w - 1) + 4 == Addr(p, base, w)
    ensures var i := SkipCode(p.words[w - 1].ins, Choose(p, base, w), c.pc, Dest(p, base, w));
      Encodable(i) && Step(i, c) == c.(pc := if Taken(p, w, c) then Addr(p, base, w) else Addr(p, base, w + 1))
  {
    hide Choose, Dest, Signed, Placed, Act;
    ActNext(p, base, w);
    AllShrink(p, base, |p.words|);
    ChoiceFits(p, base, w);
    EndBounded(p, base, w + 1);
  }

  lemma EndBounded(p: Prog, base: nat, w: nat)
    requires Built(p) && Placed(p, base) && w <= |p.words| && Shrunk(p, base, |p.words|)
    ensures Addr(p, base, w) < TWO64
  {
    PositionBounded(p, base, w);
  }

  /** Every jump, conditional or not, near or far, ahead or back, goes to its target
      when it is taken, and otherwise to the word after it, with nothing changed. */
  lemma JumpReaches(p: Prog, base: nat, code: seq<Ins>, w: nat, c: Cpu) returns (n: nat)
    requires Built(p) && Placed(p, base) && Generated(p, base, code)
    requires w < |p.words| && p.words[w].Jump? && c.pc == JumpStart(p, base, w)
    ensures var r := Run(code, base, c, n);
      if Taken(p, w, c) then Arrived(c, r, Dest(p, base, w), p.words[w].reg, p.words[w].link, Addr(p, base, w + 1))
      else r == c.(pc := Addr(p, base, w + 1))
  {
    if !p.words[w].cond {
      hide Run, Dest, Arrived;
      ChoiceFits(p, base, w);
      n := BodyArrives(p, base, code, w, c);
    } else {
      n := ConditionalReaches(p, base, code, w, c);
    }
  }

  lemma NearAddress(c: Cpu, reg: nat, dest: nat)
    requires dest < TWO64
    ensures Loaded(c, Step(Adr(reg, Signed(dest - c.pc)), c), reg, dest, 1)
  {
    hide Signed;
    AddSigned(c.pc, dest);
  }

  /** The code that loads an address leaves it in the register and goes on. */
  lemma AddressLoads(p: Prog, base: nat, code: seq<Ins>, w: nat, c: Cpu)
    requires Built(p) && Placed(p, base) && Generated(p, base, code)
    requires w < |p.words| && p.words[w].Mov? && c.pc == Addr(p, base, w)
    ensures var n := ActSize(p, base, w); var r := Run(code, base, c, n);
      r.pc == Addr(p, base, w + 1) && Loaded(c, r, p.words[w].reg, Dest(p, base, w), n)
  {
    hide Built, Choose, Dest, Run, Act, Signed, Straight, LoadCode, Fits, Placed, Encodable, Loaded,
      Step;
    var reg, dest, patch := p.words[w].reg, Dest(p, base, w), Choose(p, base, w);
    ChoiceFits(p, base, w);
    AllShrink(p, base, |p.words|);
    EndBounded(p, base, |p.words|);
    EndBounded(p, base, w + 1);
    ActNext(p, base, w);
    var part := MovCode(patch, c.pc, dest, reg);
    assert Slice(code, Act(p, base, w), part);
    if patch.Near? {
      assert code[Act(p, base, w) + 0] == part[0];
      RunOne(code, base, c, Act(p, base, w));
      NearAddress(c, reg, dest);
    } else {
      LoadLoads(c, patch, reg, dest);
      LoadSequential(patch, c.pc, dest, reg);
      RunStraight(code, base, c, Act(p, base, w), part);
    }
    LoadedPc(c, Run(code, base, c, ActSize(p, base, w)), reg, dest, ActSize(p, base, w));
  }

  lemma LoadedPc(c: Cpu, r: Cpu, reg: nat, dest: nat, n: nat)
    requires Loaded(c, r, reg, dest, n)
    ensures r.pc == Skipped(c, n)
  {
  }

  lemma WordEncodable(p: Prog, base: nat, w: nat)
    requires Built(p) && Placed(p, base) && w < |p.words| && (p.words[w].Op? ==> Encodable(p.words[w].ins))
    ensures AllEncodable(WordCode(p, base, w))
  {
    hide Choose, Dest, Act, Signed, LoadCode, Fits, Placed;
    var pc := Addr(p, base, w);
    var c := Cpu(pc, map[], map[]);
    if Conditional(p, w + 1) && p.words[w].Op? {
      assert WordOk(p, w + 1);
      SkipEncodable(p, base, w + 1, c);
    } else if !p.words[w].Op? {
      var dest, patch := Dest(p, base, w), Choose(p, base, w);
      ChoiceFits(p, base, w);
      if patch.Near? {
        if p.words[w].Jump? {
          NearRange(pc, dest);
          NearLands(c, dest, p.words[w].link);
        }
      } else if !patch.Cond? {
        LoadLoads(c, patch, p.words[w].reg, dest);
      }
    }
  }

  lemma SkipEncodable(p: Prog, base: nat, w: nat, c: Cpu)
    requires Built(p) && Placed(p, base) && Conditional(p, w) && w > 0 && c.pc == Addr(p, base, w - 1)
    requires p.words[w - 1].Op? && p.words[w - 1].ins.Skip?
    ensures Encodable(SkipCode(p.words[w - 1].ins, Choose(p, base, w), Addr(p, base, w - 1), Dest(p, base, w)))
  {
    hide Choose, Dest, Act, Signed, Fits, Placed;
    ActNext(p, base, w - 1);
    ChoiceFits(p, base, w);
    if Choose(p, base, w).Cond? {
      CondRange(c.pc, Dest(p, base, w));
      CondLands(c, p.words[w - 1].ins, Dest(p, base, w));
    }
  }

  /** Every field of every generated instruction fits its encoding. */
  lemma CodeEncodable(p: Prog, base: nat, code: seq<Ins>)
    requires Built(p) && Placed(p, base) && Generated(p, base, code)
    requires forall w :: 0 <= w < |p.words| && p.words[w].Op? ==> Encodable(p.words[w].ins)
    ensures AllEncodable(code)
  {
    hide Built, WordCode, Encodable, Act, Placed;
    forall k | 0 <= k < |code|
      ensures Encodable(code[k])
    {
      var w := Covering(p, base, k, |p.words|);
      WordEncodable(p, base, w);
      var j := k - Act(p, base, w);
      CodeSize(p, base, w);
      ActNext(p, base, w);
      assert code[Act(p, base, w) + j] == WordCode(p, base, w)[j];
    }
  }

  /** The word whose code holds position `k`. */
  lemma {:induction false} Covering(p: Prog, base: nat, k: nat, n: nat) returns (w: nat)
    requires Built(p) && n <= |p.words| && k < Act(p, base, n)
    ensures w < n && Act(p, base, w) <= k < Act(p, base, w + 1)
    decreases n
  {
    hide Built, ActSize;
    if Act(p, base, n - 1) <= k {
      w := n - 1;
    } else {
      w := Covering(p, base, k, n - 1);
    }
  }

  /** The generated code fits the room that was allocated for it. */
  lemma FitsAllocation(p: Prog, base: nat, code: seq<Ins>)
    requires Built(p) && Placed(p, base) && Generated(p, base, code)
    ensures |code| <= Res(p, |p.words|) <= Orig(p, |p.words|)
  {
    hide Built, Act, Res;
    AllShrink(p, base, |p.words|);
    PositionBounded(p, base, |p.words|);
  }
}
