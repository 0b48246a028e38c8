/** The few A64 instructions the emitter uses for jumps and addresses, with what
    they do to the program counter and the registers. */
module Arm64 {
  const TWO16 := 0x1_0000
  const TWO32 := 0x1_0000_0000
  const TWO48 := 0x1_0000_0000_0000
  const TWO63 := 0x8000_0000_0000_0000
  const TWO64 := 0x1_0000_0000_0000_0000
  const LR: nat := 30

  /** A 64-bit word read as a signed number. */
  function Signed(x: int): (r: int)
    ensures -TWO63 <= r < TWO63
  {
    var m := x % TWO64;
    if m < TWO63 then m else m - TWO64
  }

  lemma SignedBack(x: int)
    ensures (x - Signed(x)) % TWO64 == 0
  {
  }

  lemma AddSigned(pc: nat, dest: nat)
    requires dest < TWO64
    ensures (pc + Signed(dest - pc)) % TWO64 == dest
  {
    SignedBack(dest - pc);
    var k := (dest - pc - Signed(dest - pc)) / TWO64;
    assert dest - pc - Signed(dest - pc) == k * TWO64;
    assert pc + Signed(dest - pc) == dest - k * TWO64;
    ModShift(dest, -k);
  }

  lemma ModShift(x: nat, k: int)
    requires x < TWO64
    ensures (x + k * TWO64) % TWO64 == x
  {
  }

  lemma FourDivides(x: int)
    requires x % 4 == 0
    ensures Signed(x) % 4 == 0
  {
    var j := if x % TWO64 < TWO63 then x / TWO64 else x / TWO64 + 1;
    assert Signed(x) == x - j * TWO64;
    TimesFour(x / 4 - j * 0x4000_0000_0000_0000);
  }

  lemma TimesFour(a: int)
    ensures (4 * a) % 4 == 0
  {
  }

  lemma SignedSmall(x: int, k: int)
    requires -TWO63 <= x < TWO63
    ensures Signed(x + k * TWO64) == x
  {
    if x >= 0 {
      ModShift(x, k);
    } else {
      ModShift(x + TWO64, k - 1);
      assert (k - 1) * TWO64 + TWO64 == k * TWO64;
    }
  }

  lemma ModAdd(x: int, y: int)
    ensures (x % TWO64 + y) % TWO64 == (x + y) % TWO64
  {
    var k := x / TWO64;
    assert x == x % TWO64 + k * TWO64;
    ModShiftAny(x % TWO64 + y, k);
  }

  lemma ModShiftAny(x: int, k: int)
    ensures (x + k * TWO64) % TWO64 == x % TWO64
  {
  }

  lemma SignedNear(x: int, d: int)
    requires -0x8000_0000 <= Signed(x) + d <= 0x8000_0000
    ensures Signed(x + d) == Signed(x) + d
  {
    var j := if x % TWO64 < TWO63 then x / TWO64 else x / TWO64 + 1;
    assert Signed(x) == x - j * TWO64;
    SignedSmall(Signed(x) + d, j);
  }

  /** `Skip` stands for B.cond, CBZ and CBNZ: it branches when its test comes out
      as `sense`.  `Mark` is the placeholder that names the register of an address. */
  datatype Ins =
    | Other(code: nat)
    | Skip(test: nat, sense: bool, imm: int)
    | BranchReg(link: bool, reg: nat)
    | Branch(link: bool, imm: int)
    | Movz(reg: nat, imm: int)
    | Movk(reg: nat, imm: int, hw: nat)
    | Adr(reg: nat, imm: int)
    | Adrp(reg: nat, imm: int)
    | Addi(reg: nat, src: nat, imm: int)
    | Mark(reg: nat)

  /** Every immediate fits the field the architecture gives it. */
  predicate Encodable(i: Ins) {
    match i
    case Skip(_, _, imm) => -0x4_0000 <= imm < 0x4_0000
    case Branch(_, imm) => -0x200_0000 <= imm < 0x200_0000
    case Movz(_, imm) => 0 <= imm < TWO16
    case Movk(_, imm, hw) => 0 <= imm < TWO16 && hw < 4
    case Adr(_, imm) => -0x10_0000 <= imm < 0x10_0000
    case Adrp(_, imm) => -0x10_0000 <= imm < 0x10_0000
    case Addi(_, _, imm) => 0 <= imm < 0x1000
    case _ => true
  }

  datatype Cpu = Cpu(pc: nat, regs: map<nat, nat>, tests: map<nat, bool>)

  function Reg(c: Cpu, r: nat): nat {
    if r in c.regs then c.regs[r] else 0
  }

  function Test(c: Cpu, t: nat): bool {
    t in c.tests && c.tests[t]
  }

  function Next(c: Cpu): nat {
    (c.pc + 4) % TWO64
  }

  function Write(c: Cpu, r: nat, x: int): Cpu {
    Cpu(Next(c), c.regs[r := x % TWO64], c.tests)
  }

  /** The 16-bit field `hw` of `x` replaced by `imm`. */
  function Insert(x: nat, imm: int, hw: nat): int {
    var unit := if hw == 0 then 1 else if hw == 1 then TWO16 else if hw == 2 then TWO32 else TWO48;
    x - (x / unit) % TWO16 * unit + imm * unit
  }

  function Linked(c: Cpu, link: bool): map<nat, nat> {
    if link then c.regs[LR := Next(c)] else c.regs
  }

  function Step(i: Ins, c: Cpu): Cpu {
    match i
    case Skip(test, sense, imm) => c.(pc := if Test(c, test) == sense then (c.pc + 4 * imm) % TWO64 else Next(c))
    case BranchReg(link, reg) => Cpu(Reg(c, reg), Linked(c, link), c.tests)
    case Branch(link, imm) => Cpu((c.pc + 4 * imm) % TWO64, Linked(c, link), c.tests)
    case Movz(reg, imm) => Write(c, reg, imm)
    case Movk(reg, imm, hw) => Write(c, reg, Insert(Reg(c, reg), imm, hw))
    case Adr(reg, imm) => Write(c, reg, c.pc + imm)
    case Adrp(reg, imm) => Write(c, reg, c.pc - c.pc % 0x1000 + imm * 0x1000)
    case Addi(reg, src, imm) => Write(c, reg, Reg(c, src) + imm)
    case _ => c.(pc := Next(c))
  }

  /** `n` steps of the code that lies at `base`; outside of it nothing happens. */
  function Run(code: seq<Ins>, base: nat, c: Cpu, n: nat): Cpu
    decreases n
  {
    if n == 0 || c.pc < base || (c.pc - base) % 4 != 0 || (c.pc - base) / 4 >= |code| then c
    else Run(code, base, Step(code[(c.pc - base) / 4], c), n - 1)
  }
}
