/** The target of pwart's code generator: registers, the frame of the function and
    its parameters, its locals on the machine stack, and the flags of a comparison. */
module LazyMachine {
  datatype Ty = I32 | I64

  /** Scratch registers; `pwart_GetFreeReg` hands out these and no others. */
  const SCRATCH: nat := 7

  /** An operand of an emitted instruction.  `Frame` is relative to S0, `Local` to SP. */
  datatype Loc = Imm(v: int) | Reg(r: nat) | Frame(off: int) | Local(off: int)

  const WORD: int := 0x1_0000_0000

  function Modulus(ty: Ty): int {
    if ty.I32? then WORD else WORD * WORD
  }

  function Size(ty: Ty): int {
    if ty.I32? then 4 else 8
  }

  predicate InRange(ty: Ty, v: int) {
    0 <= v < Modulus(ty)
  }

  /** Memory is kept as 32-bit words; `left` and `right` are what was last compared. */
  datatype Machine = Machine(regs: map<nat, int>, frame: map<int, int>, locals: map<int, int>, ty: Ty, left: int,
                             right: int)

  function Word(mem: map<int, int>, off: int): int {
    if off in mem then mem[off] else 0
  }

  function Fetch(mem: map<int, int>, ty: Ty, off: int): int {
    if ty.I32? then Word(mem, off) else Word(mem, off) + WORD * Word(mem, off + 4)
  }

  function Put(mem: map<int, int>, ty: Ty, off: int, v: int): map<int, int> {
    if ty.I32? then mem[off := v % WORD] else mem[off := v % WORD][off + 4 := v / WORD % WORD]
  }

  function Read(m: Machine, ty: Ty, l: Loc): int {
    match l
    case Imm(v) => v % Modulus(ty)
    case Reg(r) => if r in m.regs then m.regs[r] else 0
    case Frame(off) => Fetch(m.frame, ty, off)
    case Local(off) => Fetch(m.locals, ty, off)
  }

  function Write(m: Machine, ty: Ty, l: Loc, v: int): Machine {
    match l
    case Imm(_) => m
    case Reg(r) => m.(regs := m.regs[r := v % Modulus(ty)])
    case Frame(off) => m.(frame := Put(m.frame, ty, off, v))
    case Local(off) => m.(locals := Put(m.locals, ty, off, v))
  }

  // ---------------------------------------------------------------- arithmetic

  datatype Arith = Add | Sub | Mul | And | Or | Xor

  datatype Division = DivS | DivU | RemS | RemU

  /** A bitwise operation, bit by bit. */
  function Bitwise(op: Arith, x: nat, y: nat, bits: nat): nat {
    if bits == 0 then 0
    else
      var a, b := x % 2 == 1, y % 2 == 1;
      var bit := if op.And? then a && b else if op.Or? then a || b else a != b;
      (if bit then 1 else 0) + 2 * Bitwise(op, x / 2, y / 2, bits - 1)
  }

  function Apply(op: Arith, ty: Ty, x: int, y: int): int {
    match op
    case Add => (x + y) % Modulus(ty)
    case Sub => (x - y) % Modulus(ty)
    case Mul => (x * y) % Modulus(ty)
    case _ => if x < 0 || y < 0 then 0 else Bitwise(op, x, y, if ty.I32? then 32 else 64)
  }

  function Signed(ty: Ty, x: int): int {
    if x < Modulus(ty) / 2 then x else x - Modulus(ty)
  }

  /** Division that rounds toward zero. */
  function Quotient(x: int, y: int): int
    requires y != 0
  {
    if (x >= 0) == (y > 0) then (if x >= 0 then x else -x) / (if y > 0 then y else -y)
    else -((if x >= 0 then x else -x) / (if y > 0 then y else -y))
  }

  /** The divide instruction, and the remainder made from it: a zero divisor gives 0 and the
      dividend, and an overflow wraps, as on A64. */
  function Divide(op: Division, ty: Ty, x: int, y: int): int {
    if y == 0 then (if op.DivS? || op.DivU? then 0 else x)
    else if op.DivU? then x / y % Modulus(ty)
    else if op.RemU? then x % y % Modulus(ty)
    else
      var a, b := Signed(ty, x), Signed(ty, y);
      if b == 0 then 0
      else if op.DivS? then Quotient(a, b) % Modulus(ty)
      else (a - b * Quotient(a, b)) % Modulus(ty)
  }

  /** Condition codes; the lowest bit inverts. */
  function Holds(code: nat, ty: Ty, x: int, y: int): bool {
    var c := code / 2;
    var base := if c == 0 then x == y else if c == 1 then x < y else if c == 2 then x > y
      else if c == 3 then Signed(ty, x) < Signed(ty, y) else Signed(ty, x) > Signed(ty, y);
    if code % 2 == 0 then base else !base
  }

  function Flag(code: nat, m: Machine): int {
    if Holds(code, m.ty, m.left, m.right) then 1 else 0
  }

  // --------------------------------------------------------------- emitted code

  datatype Test = OnFlag(code: nat) | NonZero(r: nat)

  /** What the code generator emits.  `Unless` is a conditional jump over one move. */
  datatype Emit =
    | Move(ty: Ty, dst: Loc, src: Loc)
    | SetFlag(dst: Loc, code: nat)
    | Op2(op: Arith, ty: Ty, dst: Loc, a: Loc, b: Loc)
    | Compare(ty: Ty, a: Loc, b: Loc)
    | DivMod(signed: bool, ty: Ty, remainder: bool)
    | Unless(test: Test, ty: Ty, dst: Loc, src: Loc)

  function Passes(t: Test, m: Machine): bool {
    match t
    case OnFlag(code) => Holds(code, m.ty, m.left, m.right)
    case NonZero(r) => (if r in m.regs then m.regs[r] else 0) != 0
  }

  function Step(e: Emit, m: Machine): Machine {
    match e
    case Move(ty, dst, src) => Write(m, ty, dst, Read(m, ty, src))
    case SetFlag(dst, code) => Write(m, I32, dst, Flag(code, m))
    case Op2(op, ty, dst, a, b) => Write(m, ty, dst, Apply(op, ty, Read(m, ty, a), Read(m, ty, b)))
    case Compare(ty, a, b) => m.(ty := ty, left := Read(m, ty, a), right := Read(m, ty, b))
    case DivMod(signed, ty, remainder) =>
      var x, y := Read(m, ty, Reg(0)), Read(m, ty, Reg(1));
      var q := Write(m, ty, Reg(0), Divide(if signed then DivS else DivU, ty, x, y));
      if remainder then Write(q, ty, Reg(1), Divide(if signed then RemS else RemU, ty, x, y)) else q
    case Unless(test, ty, dst, src) => if Passes(test, m) then m else Write(m, ty, dst, Read(m, ty, src))
  }

  function Run(es: seq<Emit>, m: Machine): Machine
    decreases |es|
  {
    if es == [] then m else Run(es[1..], Step(es[0], m))
  }

  lemma {:induction false} RunConcat(a: seq<Emit>, b: seq<Emit>, m: Machine)
    ensures Run(a + b, m) == Run(b, Run(a, m))
    decreases |a|
  {
    if a == [] {
      assert a + b == b;
    } else {
      assert (a + b)[1..] == a[1..] + b;
      RunConcat(a[1..], b, Step(a[0], m));
    }
  }

  lemma RunOne(e: Emit, m: Machine)
    ensures Run([e], m) == Step(e, m)
  {
    assert [e][1..] == [];
  }

  // -------------------------------------------------------- reads and writes

  /** A write to one of the places is not seen at the other. */
  predicate Apart(l: Loc, lt: Ty, k: Loc, kt: Ty) {
    l.Imm? || k.Imm? ||
    (match l
     case Reg(r) => k != Reg(r)
     case Frame(off) => k.Frame? ==> off + Size(lt) <= k.off || k.off + Size(kt) <= off
     case Local(off) => k.Local? ==> off + Size(lt) <= k.off || k.off + Size(kt) <= off
     case Imm(_) => true)
  }

  lemma ReadWrite(m: Machine, ty: Ty, l: Loc, v: int)
    requires !l.Imm? && InRange(ty, v)
    ensures Read(Write(m, ty, l, v), ty, l) == v
  {
    if ty.I64? {
      assert v == v % WORD + WORD * (v / WORD) && 0 <= v / WORD < WORD;
    }
  }

  lemma ReadApart(m: Machine, ty: Ty, l: Loc, v: int, kt: Ty, k: Loc)
    requires Apart(l, ty, k, kt) && Aligned(l) && Aligned(k)
    ensures Read(Write(m, ty, l, v), kt, k) == Read(m, kt, k)
  {
  }

  /** Places in memory start at a multiple of four. */
  predicate Aligned(l: Loc) {
    match l
    case Frame(off) => off % 4 == 0
    case Local(off) => off % 4 == 0
    case _ => true
  }

  lemma {:induction false} BitwiseBound(op: Arith, x: nat, y: nat, bits: nat)
    ensures Bitwise(op, x, y, bits) < TwoTo(bits)
    decreases bits
  {
    if bits > 0 {
      BitwiseBound(op, x / 2, y / 2, bits - 1);
    }
  }

  function TwoTo(n: nat): nat {
    if n == 0 then 1 else 2 * TwoTo(n - 1)
  }

  lemma {:induction false} TwoToSum(a: nat, b: nat)
    ensures TwoTo(a + b) == TwoTo(a) * TwoTo(b)
    decreases b
  {
    if b > 0 {
      TwoToSum(a, b - 1);
      assert TwoTo(a) * (2 * TwoTo(b - 1)) == 2 * (TwoTo(a) * TwoTo(b - 1));
    }
  }

  lemma Widths()
    ensures TwoTo(32) == WORD && TwoTo(64) == WORD * WORD
  {
    assert TwoTo(4) == 16 by {
      assert TwoTo(1) == 2 && TwoTo(2) == 4 && TwoTo(3) == 8;
    }
    TwoToSum(4, 4);
    TwoToSum(8, 8);
    TwoToSum(16, 16);
    TwoToSum(32, 32);
  }

  lemma ApplyInRange(op: Arith, ty: Ty, x: int, y: int)
    requires InRange(ty, x) && InRange(ty, y)
    ensures InRange(ty, Apply(op, ty, x, y))
  {
    Widths();
    BitwiseBound(op, x, y, if ty.I32? then 32 else 64);
  }

  lemma DivideInRange(op: Division, ty: Ty, x: int, y: int)
    requires InRange(ty, x) && InRange(ty, y)
    ensures InRange(ty, Divide(op, ty, x, y))
  {
  }
}
