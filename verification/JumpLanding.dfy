/** The code that the second pass writes for jumps and addresses, and where it leads. */
module JumpLanding {
  import opened Arm64
  import opened JumpLayout

  // ---------------------------------------------------------------- the sequences

  function Chunk(x: nat, hw: nat): nat {
    if hw == 0 then x % TWO16
    else if hw == 1 then x / TWO16 % TWO16
    else if hw == 2 then x / TWO32 % TWO16
    else x / TWO48 % TWO16
  }

  /** `generate_jump_or_mov_addr`, the instructions that load `dest` into `reg`. */
  function LoadCode(patch: Patch, pc: nat, dest: nat, reg: nat): seq<Ins> {
    match patch
    case Page =>
      var off := Signed(dest - (pc - pc % 0x1000));
      [Adrp(reg, off / 0x1000), Addi(reg, reg, off % 0x1000)]
    case Abs48 => [Movz(reg, Chunk(dest, 0)), Movk(reg, Chunk(dest, 1), 1), Movk(reg, Chunk(dest, 2), 2)]
    case Abs64 =>
      [Movz(reg, Chunk(dest, 0)), Movk(reg, Chunk(dest, 1), 1), Movk(reg, Chunk(dest, 2), 2),
       Movk(reg, Chunk(dest, 3), 3)]
    case _ => [Movz(reg, Chunk(dest, 0)), Movk(reg, Chunk(dest, 1), 1)]
  }

  function JumpCode(patch: Patch, pc: nat, dest: nat, reg: nat, link: bool): (r: seq<Ins>)
    ensures |r| == JumpLength(patch)
  {
    match patch
    case Cond => []
    case Near => [Branch(link, Signed(dest - pc) / 4)]
    case _ => LoadCode(patch, pc, dest, reg) + [BranchReg(link, reg)]
  }

  function MovCode(patch: Patch, pc: nat, dest: nat, reg: nat): (r: seq<Ins>)
    requires !patch.Cond?
    ensures |r| == MovLength(patch)
  {
    if patch.Near? then [Adr(reg, Signed(dest - pc))] else LoadCode(patch, pc, dest, reg)
  }

  /** The `Skip` before a conditional jump: turned into the jump itself, or made to
      step over exactly the jump. */
  function SkipCode(skip: Ins, patch: Patch, pc: nat, dest: nat): Ins
    requires skip.Skip?
  {
    if patch.Cond? then Skip(skip.test, !skip.sense, Signed(dest - pc) / 4)
    else Skip(skip.test, skip.sense, 1 + JumpLength(patch))
  }

  // --------------------------------------------- one sequence, run on its own

  /** What a choice requires of the final distance and the final address. */
  predicate Fits(patch: Patch, dist: int, dest: nat) {
    match patch
    case Cond => -0x10_0000 <= dist + 4 <= 0xf_ffff
    case Near => -0x800_0000 <= dist <= 0x7ff_ffff
    case Low32 => dest < TWO32
    case Page => -0x1_0000_0000 <= dist <= 0xffff_f000
    case Abs48 => dest < TWO48
    case Abs64 => dest < TWO64
  }

  // ------------------------------------------------------- the shortest form

  /** A branch fits exactly where its field holds the distance. */
  lemma FitsField(dist: int, dest: nat, link: bool, test: nat, sense: bool)
    requires dist % 4 == 0
    ensures Fits(Near, dist, dest) <==> Encodable(Branch(link, dist / 4))
    ensures Fits(Cond, dist, dest) <==> Encodable(Skip(test, sense, (dist + 4) / 4))
  {
  }

  /** Of the forms that suit the distance and the address a jump gets one of the shortest,
      and so does an address. */
  lemma ShortestForm(cond: bool, dist: int, dest: nat, patch: Patch)
    requires Fits(patch, dist, dest)
    ensures (patch.Cond? ==> cond) ==> JumpLength(JumpPatch(cond, false, dist, dest)) <= JumpLength(patch)
    ensures !patch.Cond? && (patch.Near? ==> -0x10_0000 <= dist <= 0xf_ffff) ==>
      MovLength(MovPatch(dist, dest)) <= MovLength(patch)
    ensures dest < TWO64 ==>
      Fits(JumpPatch(cond, false, dist, dest), dist, dest) && Fits(MovPatch(dist, dest), dist, dest)
  {
  }

  /** The room that the first pass sets aside for an estimate in words is the length of the
      form for that distance, to an address of which nothing is known. */
  lemma RoomIsLength(cond: bool, words: int, dest: nat)
    requires dest >= TWO48
    ensures JumpSize(cond, words) == JumpLength(JumpPatch(cond, false, 4 * words, dest))
    ensures 1 + MovSize(words) == MovLength(MovPatch(4 * words, dest))
  {
  }

  function Skipped(c: Cpu, n: nat): nat {
    (c.pc + 4 * n) % TWO64
  }

  /** Straight-line steps, one instruction after the other. */
  function Straight(code: seq<Ins>, c: Cpu): Cpu
    decreases |code|
  {
    if code == [] then c else Straight(code[1..], Step(code[0], c))
  }

  lemma NearLands(c: Cpu, dest: nat, link: bool)
    requires dest < TWO64 && dest % 4 == 0 && c.pc % 4 == 0
    requires -0x800_0000 <= Signed(dest - c.pc) <= 0x7ff_ffff
    ensures var i := Branch(link, Signed(dest - c.pc) / 4);
      Encodable(i) && Step(i, c) == Cpu(dest, Linked(c, link), c.tests)
  {
    hide Signed, Linked;
    AddSigned(c.pc, dest);
    WordDistance(c.pc, dest);
  }

  /** The distance between two words, as a number of words. */
  lemma WordDistance(pc: nat, dest: nat)
    requires pc % 4 == 0 && dest % 4 == 0
    ensures var d := Signed(dest - pc);
      && 4 * (d / 4) == d
      && (-0x800_0000 <= d <= 0x7ff_ffff ==> -0x200_0000 <= d / 4 < 0x200_0000)
      && (-0x10_0000 <= d <= 0xf_ffff ==> -0x4_0000 <= d / 4 < 0x4_0000)
  {
    hide Signed;
    FourBetween(pc, dest);
    FourDivides(dest - pc);
    Quarter(Signed(dest - pc));
  }

  lemma FourBetween(pc: nat, dest: nat)
    requires pc % 4 == 0 && dest % 4 == 0
    ensures (dest - pc) % 4 == 0
  {
    assert dest - pc == 4 * (dest / 4 - pc / 4);
  }

  lemma Quarter(d: int)
    requires d % 4 == 0
    ensures 4 * (d / 4) == d
  {
  }

  /** The conditional form: the inverted test branches to the target. */
  lemma CondLands(c: Cpu, skip: Ins, dest: nat)
    requires skip.Skip? && dest < TWO64 && dest % 4 == 0 && c.pc % 4 == 0
    requires -0x10_0000 <= Signed(dest - c.pc) <= 0xf_ffff
    ensures var i := SkipCode(skip, Cond, c.pc, dest);
      Encodable(i) && Step(i, c) == c.(pc := if Test(c, skip.test) != skip.sense then dest else Next(c))
  {
    hide Signed;
    AddSigned(c.pc, dest);
    WordDistance(c.pc, dest);
  }

  /** The register gets the address and nothing else changes. */
  ghost predicate Loaded(c: Cpu, r: Cpu, reg: nat, dest: nat, n: nat) {
    r == Cpu(Skipped(c, n), r.regs, c.tests) && Reg(r, reg) == dest
    && forall x: nat :: x != reg ==> Reg(r, x) == Reg(c, x)
  }

  lemma PageLoads(c: Cpu, reg: nat, dest: nat)
    requires dest < TWO64 && c.pc < TWO64 && -0x1_0000_0000 <= Signed(dest - c.pc) <= 0xffff_f000
    ensures var code := LoadCode(Page, c.pc, dest, reg);
      && Encodable(code[0]) && Encodable(code[1])
      && Loaded(c, Step(code[1], Step(code[0], c)), reg, dest, 2)
  {
    hide Signed;
    PageOffset(c.pc, dest);
    var off := Signed(dest - (c.pc - c.pc % 0x1000));
    var hi, lo := off / 0x1000, off % 0x1000;
    assert off == hi * 0x1000 + lo;
    PageAddress(c.pc, dest, hi, lo);
    ModAdd(c.pc + 4, 4);
  }

  lemma PageAddress(pc: nat, dest: nat, hi: int, lo: nat)
    requires dest < TWO64 && Signed(dest - (pc - pc % 0x1000)) == hi * 0x1000 + lo
    ensures ((pc - pc % 0x1000 + hi * 0x1000) % TWO64 + lo) % TWO64 == dest
  {
    hide Signed;
    AddSigned(pc - pc % 0x1000, dest);
    ModAdd(pc - pc % 0x1000 + hi * 0x1000, lo);
  }

  /** The offset from the page is at most 0xffffffff, a little more than the
      distance from the instruction itself may be. */
  lemma PageOffset(pc: nat, dest: nat)
    requires dest < TWO64 && pc < TWO64 && -0x1_0000_0000 <= Signed(dest - pc) <= 0xffff_f000
    ensures Signed(dest - (pc - pc % 0x1000)) == Signed(dest - pc) + pc % 0x1000
    ensures -0x1_0000_0000 <= Signed(dest - (pc - pc % 0x1000)) <= 0xffff_ffff
  {
    var d := dest - pc;
    SignedBack(d);
    var k := (d - Signed(d)) / TWO64;
    assert d + pc % 0x1000 == Signed(d) + pc % 0x1000 + k * TWO64;
    SignedSmall(Signed(d) + pc % 0x1000, k);
  }

  /** The assertion for jumps asks for 0xfffff000: distances that select the page form meet
      it unless they exceed that less the place of the instruction within its page. */
  lemma JumpAssertion(pc: nat, dest: nat)
    requires dest < TWO64 && pc < TWO64 && -0x1_0000_0000 <= Signed(dest - pc) <= 0xffff_f000
    ensures Signed(dest - (pc - pc % 0x1000)) <= 0xffff_f000 <==> Signed(dest - pc) <= 0xffff_f000 - pc % 0x1000
  {
    hide Signed;
    PageOffset(pc, dest);
  }

  /** A jump for which it fails: the longest distance that selects the page form, from an
      instruction that is not the first of its page, to an address that needs that form. */
  lemma JumpAssertionFails()
    ensures var pc, dest := 0x2004, 0x2004 + 0xffff_f000;
      && JumpPatch(false, false, Signed(dest - pc), dest) == Page
      && Signed(dest - (pc - pc % 0x1000)) == 0xffff_f004
  {
    hide Signed;
    SignedSmall(0xffff_f000, 0);
    PageOffset(0x2004, 0x2004 + 0xffff_f000);
  }

  lemma InsertAbove(v: nat, imm: int, hw: nat)
    requires (hw == 1 && v < TWO16) || (hw == 2 && v < TWO32) || (hw == 3 && v < TWO48)
    ensures Insert(v, imm, hw) == v + imm * if hw == 1 then TWO16 else if hw == 2 then TWO32 else TWO48
  {
  }

  lemma Chunks(x: nat)
    requires x < TWO64
    ensures x == Chunk(x, 0) + Chunk(x, 1) * TWO16 + Chunk(x, 2) * TWO32 + Chunk(x, 3) * TWO48
    ensures x < TWO48 ==> Chunk(x, 3) == 0
    ensures x < TWO32 ==> Chunk(x, 2) == 0 && Chunk(x, 3) == 0
    ensures forall hw :: 0 <= hw < 4 ==> 0 <= Chunk(x, hw) < TWO16
  {
    var y := x / TWO16;
    var z := y / TWO16;
    DivTwice(x, TWO16);
    DivTwice(x, TWO32);
    assert x == x % TWO16 + y * TWO16;
    assert y == y % TWO16 + z * TWO16;
    assert z == z % TWO16 + z / TWO16 * TWO16;
  }

  lemma DivTwice(x: nat, d: nat)
    requires d == TWO16 || d == TWO32
    ensures x / d / TWO16 == x / (d * TWO16)
  {
  }

  lemma MovzStep(c: Cpu, reg: nat, imm: int)
    requires 0 <= imm < TWO16
    ensures Encodable(Movz(reg, imm)) && Loaded(c, Step(Movz(reg, imm), c), reg, imm, 1)
  {
  }

  lemma MovkStep(c0: Cpu, c: Cpu, reg: nat, imm: int, hw: nat, v: nat, n: nat)
    requires Loaded(c0, c, reg, v, n) && 0 <= imm < TWO16
    requires (hw == 1 && v < TWO16) || (hw == 2 && v < TWO32) || (hw == 3 && v < TWO48)
    ensures Encodable(Movk(reg, imm, hw))
    ensures Loaded(c0, Step(Movk(reg, imm, hw), c), reg,
                   v + imm * if hw == 1 then TWO16 else if hw == 2 then TWO32 else TWO48, n + 1)
  {
    hide Insert;
    var x := v + imm * if hw == 1 then TWO16 else if hw == 2 then TWO32 else TWO48;
    InsertAbove(v, imm, hw);
    InsertedFits(v, imm, hw);
    assert Step(Movk(reg, imm, hw), c) == Cpu(Next(c), c.regs[reg := x], c.tests);
    LoadedMore(c0, c, reg, v, x, n);
  }

  lemma InsertedFits(v: int, imm: int, hw: nat)
    requires 0 <= imm < TWO16
    requires (hw == 1 && 0 <= v < TWO16) || (hw == 2 && 0 <= v < TWO32) || (hw == 3 && 0 <= v < TWO48)
    ensures var x := v + imm * if hw == 1 then TWO16 else if hw == 2 then TWO32 else TWO48;
      0 <= x < TWO64 && x % TWO64 == x
  {
  }

  lemma LoadedMore(c0: Cpu, c: Cpu, reg: nat, v: nat, x: nat, n: nat)
    requires Loaded(c0, c, reg, v, n)
    ensures Loaded(c0, Cpu(Next(c), c.regs[reg := x], c.tests), reg, x, n + 1)
  {
    ModAdd(c0.pc + 4 * n, 4);
  }

  ghost predicate AllEncodable(code: seq<Ins>) {
    forall k :: 0 <= k < |code| ==> Encodable(code[k])
  }

  lemma StraightLast(code: seq<Ins>, i: Ins, c: Cpu)
    ensures Straight(code + [i], c) == Step(i, Straight(code, c))
    decreases |code|
  {
    if code == [] {
      assert [i][1..] == [];
    } else {
      assert (code + [i])[1..] == code[1..] + [i];
      StraightLast(code[1..], i, Step(code[0], c));
    }
  }

  lemma ImmediateLoads(c: Cpu, patch: Patch, reg: nat, dest: nat)
    requires patch.Low32? || patch.Abs48? || patch.Abs64?
    requires Fits(patch, 0, dest)
    ensures var code := LoadCode(patch, c.pc, dest, reg);
      AllEncodable(code) && Loaded(c, Straight(code, c), reg, dest, |code|)
  {
    hide Chunk, Step, Straight, Loaded, Fits;
    assert dest < TWO64 && (patch.Low32? ==> dest < TWO32)
      && (patch.Abs48? ==> dest < TWO48) by { FitsBelow(patch, dest); }
    Chunks(dest);
    var z, k1, k2, k3 := Movz(reg, Chunk(dest, 0)), Movk(reg, Chunk(dest, 1), 1), Movk(reg, Chunk(dest, 2), 2),
      Movk(reg, Chunk(dest, 3), 3);
    MovzStep(c, reg, Chunk(dest, 0));
    var c1 := Step(z, c);
    MovkStep(c, c1, reg, Chunk(dest, 1), 1, Chunk(dest, 0), 1);
    var c2 := Step(k1, c1);
    Unroll(c, z, k1, k2, k3);
    if !patch.Low32? {
      MovkStep(c, c2, reg, Chunk(dest, 2), 2, Chunk(dest, 0) + Chunk(dest, 1) * TWO16, 2);
      var c3 := Step(k2, c2);
      if patch.Abs64? {
        MovkStep(c, c3, reg, Chunk(dest, 3), 3, Chunk(dest, 0) + Chunk(dest, 1) * TWO16 + Chunk(dest, 2) * TWO32, 3);
      }
    }
  }

  lemma FitsBelow(patch: Patch, dest: nat)
    requires patch.Low32? || patch.Abs48? || patch.Abs64?
    requires Fits(patch, 0, dest)
    ensures dest < TWO64 && (patch.Low32? ==> dest < TWO32) && (patch.Abs48? ==> dest < TWO48)
  {
  }

  lemma Unroll(c: Cpu, i: Ins, j: Ins, k: Ins, l: Ins)
    ensures Straight([i, j], c) == Step(j, Step(i, c))
    ensures Straight([i, j, k], c) == Step(k, Step(j, Step(i, c)))
    ensures Straight([i, j, k, l], c) == Step(l, Step(k, Step(j, Step(i, c))))
  {
    hide Step;
    assert Straight([], c) == c;
    StraightLast([], i, c);
    assert [] + [i] == [i] && [i] + [j] == [i, j] && [i, j] + [k] == [i, j, k] && [i, j, k] + [l] == [i, j, k, l];
    StraightLast([i], j, c);
    StraightLast([i, j], k, c);
    StraightLast([i, j, k], l, c);
  }

  /** Whatever form is chosen, the register ends up with the address. */
  lemma LoadLoads(c: Cpu, patch: Patch, reg: nat, dest: nat)
    requires !patch.Cond? && !patch.Near? && dest < TWO64 && c.pc < TWO64
    requires Fits(patch, Signed(dest - c.pc), dest)
    ensures var code := LoadCode(patch, c.pc, dest, reg);
      AllEncodable(code) && Loaded(c, Straight(code, c), reg, dest, |code|)
  {
    hide Signed, Straight, Step, Loaded;
    if patch.Page? {
      PageLoads(c, reg, dest);
      var code := LoadCode(Page, c.pc, dest, reg);
      Unroll(c, code[0], code[1], code[0], code[1]);
      assert code == [code[0], code[1]];
    } else {
      ImmediateLoads(c, patch, reg, dest);
    }
  }
}
