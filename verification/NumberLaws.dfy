/** What the numeric opcodes compute, in the terms of section 4.3.2 of the WebAssembly Core
    Specification, and that the instructions chosen for them compute that. */
module NumberLaws {
  import opened Wrappers
  import opened LazyMachine
  import opened LazyStack
  import opened LazyOps

  // --------------------------------------------------------------- the opcodes

  /** The condition code for the comparisons `eq ne lt_s lt_u gt_s gt_u le_s le_u ge_s ge_u`. */
  function ConditionCode(k: nat): nat
    requires k < 10
  {
    match k
    case 0 => 0
    case 1 => 1
    case 2 => 6
    case 3 => 2
    case 4 => 8
    case 5 => 4
    case 6 => 9
    case 7 => 5
    case 8 => 7
    case _ => 3
  }

  /** `add sub mul div_s div_u rem_s rem_u and or xor`, in the order of their opcodes. */
  function Operation(k: nat, ty: Ty): Instr
    requires k < 10
  {
    match k
    case 0 => Binary(Add, ty)
    case 1 => Binary(Sub, ty)
    case 2 => Binary(Mul, ty)
    case 3 => Divide(DivS, ty)
    case 4 => Divide(DivU, ty)
    case 5 => Divide(RemS, ty)
    case 6 => Divide(RemU, ty)
    case 7 => Binary(And, ty)
    case 8 => Binary(Or, ty)
    case _ => Binary(Xor, ty)
  }

  /** `opgen_GenNumOp` on the integer opcodes of this model. */
  function InstrOf(opcode: nat): Option<Instr> {
    if opcode == 0x45 then Some(Eqz(I32))
    else if 0x46 <= opcode <= 0x4f then Some(Relation(ConditionCode(opcode - 0x46), I32))
    else if opcode == 0x50 then Some(Eqz(I64))
    else if 0x51 <= opcode <= 0x5a then Some(Relation(ConditionCode(opcode - 0x51), I64))
    else if 0x6a <= opcode <= 0x73 then Some(Operation(opcode - 0x6a, I32))
    else if 0x7c <= opcode <= 0x85 then Some(Operation(opcode - 0x7c, I64))
    else None
  }

  // ----------------------------------------------------------- what they compute

  /** `j` is the signed reading of `x`. */
  predicate Reads(ty: Ty, x: int, j: int) {
    -(Modulus(ty) / 2) <= j < Modulus(ty) / 2 && (x - j) % Modulus(ty) == 0
  }

  /** `q` is a quotient rounded toward zero: the remainder is smaller than the divisor and
      has the sign of the dividend. */
  predicate Truncated(a: int, b: int, q: int) {
    var r := a - b * q;
    && -r < (if b < 0 then -b else b) && r < (if b < 0 then -b else b)
    && (a >= 0 ==> r >= 0) && (a <= 0 ==> r <= 0)
  }

  /** Whether `x`, halved `k` times, is odd. */
  predicate Bit(x: int, k: nat)
    decreases k
  {
    if k == 0 then x % 2 == 1 else Bit(x / 2, k - 1)
  }

  function Width(ty: Ty): nat {
    8 * Size(ty)
  }

  /** The comparisons, on `x` and `y` and on their signed readings `a` and `b`. */
  predicate Relates(k: nat, x: int, y: int, a: int, b: int) {
    match k
    case 0 => x == y
    case 1 => x != y
    case 2 => a < b
    case 3 => x < y
    case 4 => a > b
    case 5 => x > y
    case 6 => a <= b
    case 7 => x <= y
    case 8 => a >= b
    case _ => x >= y
  }

  /** `r` is the result of the operation, where it has one. */
  ghost predicate Results(k: nat, ty: Ty, x: int, y: int, a: int, b: int, r: int) {
    match k
    case 0 => (r - (x + y)) % Modulus(ty) == 0
    case 1 => (r - (x - y)) % Modulus(ty) == 0
    case 2 => (r - x * y) % Modulus(ty) == 0
    case 3 => exists q :: Truncated(a, b, q) && (r - q) % Modulus(ty) == 0
    case 4 => Truncated(x, y, r)
    case 5 => exists q :: Truncated(a, b, q) && (r - (a - b * q)) % Modulus(ty) == 0
    case 6 => exists q :: Truncated(x, y, q) && r == x - y * q
    case 7 => forall i: nat :: i < Width(ty) ==> (Bit(r, i) <==> Bit(x, i) && Bit(y, i))
    case 8 => forall i: nat :: i < Width(ty) ==> (Bit(r, i) <==> Bit(x, i) || Bit(y, i))
    case _ => forall i: nat :: i < Width(ty) ==> (Bit(r, i) <==> Bit(x, i) != Bit(y, i))
  }

  // -------------------------------------------------------------------- the laws

  lemma SignedReads(ty: Ty, x: int)
    requires InRange(ty, x)
    ensures Reads(ty, x, Signed(ty, x))
  {
  }

  /** Division as the machine does it rounds toward zero. */
  lemma QuotientTruncates(a: int, b: int)
    requires b != 0
    ensures Truncated(a, b, Quotient(a, b))
  {
    var x, y := if a >= 0 then a else -a, if b > 0 then b else -b;
    assert x == y * (x / y) + x % y && 0 <= x % y < y;
    SignRules(a, b, x / y);
  }

  lemma SignRules(a: int, b: int, q: int)
    ensures b * -q == -(b * q) && -b * q == -(b * q)
  {
  }

  lemma {:induction false} BitwiseBits(op: Arith, x: nat, y: nat, bits: nat, i: nat)
    requires i < bits
    ensures Bit(Bitwise(op, x, y, bits), i) <==>
      if op.And? then Bit(x, i) && Bit(y, i) else if op.Or? then Bit(x, i) || Bit(y, i) else Bit(x, i) != Bit(y, i)
    decreases bits
  {
    if i > 0 {
      BitwiseBits(op, x / 2, y / 2, bits - 1, i - 1);
    }
  }

  lemma Comparisons(k: nat, ty: Ty, x: int, y: int)
    requires k < 10 && InRange(ty, x) && InRange(ty, y)
    ensures Holds(ConditionCode(k), ty, x, y) <==> Relates(k, x, y, Signed(ty, x), Signed(ty, y))
  {
    hide Signed;
  }

  lemma Remainders(x: int, ty: Ty)
    ensures (x % Modulus(ty) - x) % Modulus(ty) == 0
  {
    Remainder32(x);
    Remainder64(x);
    Modulus64();
  }

  lemma Remainder32(x: int)
    ensures (x % 0x1_0000_0000 - x) % 0x1_0000_0000 == 0
  {
  }

  lemma Remainder64(x: int)
    ensures (x % 0x1_0000_0000_0000_0000 - x) % 0x1_0000_0000_0000_0000 == 0
  {
  }

  lemma Modulus64()
    ensures WORD * WORD == 0x1_0000_0000_0000_0000
  {
  }

  lemma Divisions(div: Division, ty: Ty, x: int, y: int)
    requires InRange(ty, x) && InRange(ty, y) && y != 0
    ensures var a, b, r := Signed(ty, x), Signed(ty, y), LazyMachine.Divide(div, ty, x, y);
      match div
      case DivS => exists q :: Truncated(a, b, q) && (r - q) % Modulus(ty) == 0
      case DivU => Truncated(x, y, r)
      case RemS => exists q :: Truncated(a, b, q) && (r - (a - b * q)) % Modulus(ty) == 0
      case RemU => exists q :: Truncated(x, y, q) && r == x - y * q
  {
    hide Truncated, Quotient;
    var a, b := Signed(ty, x), Signed(ty, y);
    var q := Quotient(a, b);
    QuotientTruncates(a, b);
    Remainders(q, ty);
    Remainders(a - b * q, ty);
    UnsignedQuotient(ty, x, y);
  }

  /** Division of numbers that are not negative. */
  lemma Floors(x: int, y: int)
    requires x >= 0 && y >= 1
    ensures x % y == x - y * (x / y) && 0 <= x % y < y && 0 <= x / y <= x && (y >= 2 ==> 2 * (x / y) <= x)
  {
    var q := x / y;
    assert x == y * q + x % y;
    if y >= 2 {
      NotLess(y - 1, q);
      assert y * q == (y - 1) * q + q;
    }
  }

  lemma NotLess(y: int, q: int)
    requires y >= 1 && q >= 0
    ensures y * q >= q
  {
  }

  lemma InRangeMod(ty: Ty, v: int)
    requires InRange(ty, v)
    ensures v % Modulus(ty) == v
  {
  }

  lemma UnsignedQuotient(ty: Ty, x: int, y: int)
    requires InRange(ty, x) && InRange(ty, y) && y != 0
    ensures Truncated(x, y, x / y) && x / y % Modulus(ty) == x / y && x % y % Modulus(ty) == x - y * (x / y)
  {
    hide Modulus;
    Floors(x, y);
    InRangeMod(ty, x / y);
    InRangeMod(ty, x % y);
  }

  lemma Arithmetics(k: nat, ty: Ty, x: int, y: int)
    requires k < 10 && InRange(ty, x) && InRange(ty, y) && Operation(k, ty).Binary?
    ensures Results(k, ty, x, y, Signed(ty, x), Signed(ty, y), Apply(Operation(k, ty).op, ty, x, y))
  {
    hide Bit, Signed, Bitwise;
    Remainders(x + y, ty);
    Remainders(x - y, ty);
    Remainders(x * y, ty);
    var op, r := Operation(k, ty).op, Apply(Operation(k, ty).op, ty, x, y);
    if k >= 7 {
      forall i: nat | i < Width(ty)
        ensures Bit(r, i) <==>
          if op.And? then Bit(x, i) && Bit(y, i) else if op.Or? then Bit(x, i) || Bit(y, i) else Bit(x, i) != Bit(y, i)
      {
        BitwiseBits(op, x, y, Width(ty), i);
      }
    }
  }

  // ------------------------------------------------------------- the main results

  /** The operation is defined: a divisor that is not zero, and a quotient that the type has. */
  ghost predicate Defined(k: nat, ty: Ty, x: int, y: int, a: int, b: int) {
    match k
    case 3 => exists q :: Truncated(a, b, q) && -(Modulus(ty) / 2) <= q < Modulus(ty) / 2
    case 4 => exists q :: Truncated(x, y, q)
    case 5 => exists q :: Truncated(a, b, q)
    case 6 => exists q :: Truncated(x, y, q)
    case _ => true
  }

  /** A quotient that the type does not have: only the lowest number divided by minus one. */
  lemma QuotientRange(ty: Ty, a: int, b: int)
    requires b != 0 && -(Modulus(ty) / 2) <= a < Modulus(ty) / 2
    ensures -(Modulus(ty) / 2) <= Quotient(a, b) < Modulus(ty) / 2 || (a == -(Modulus(ty) / 2) && b == -1)
  {
    var x, y := if a >= 0 then a else -a, if b > 0 then b else -b;
    Floors(x, y);
    if y == 1 {
      assert x / 1 == x;
    }
  }

  lemma NoneByZero(a: int, q: int)
    ensures !Truncated(a, 0, q)
  {
  }

  lemma ByMinusOne(a: int, q: int)
    requires Truncated(a, -1, q)
    ensures q == -a
  {
  }

  /** The instruction traps exactly where the operation has no result. */
  lemma TrapsExactly(k: nat, ty: Ty, w: Wasm)
    requires k < 10 && |w.stack| >= 2 && InRange(ty, Top(w, 0)) && InRange(ty, Top(w, 1))
    ensures var x, y := Top(w, 1), Top(w, 0);
      Traps(Operation(k, ty), w) <==> !Defined(k, ty, x, y, Signed(ty, x), Signed(ty, y))
  {
    hide Truncated, Quotient, Reads;
    var x, y := Top(w, 1), Top(w, 0);
    var a, b := Signed(ty, x), Signed(ty, y);
    SignedReads(ty, x);
    SignedReads(ty, y);
    SignedZero(ty, y);
    if y == 0 {
      forall q ensures !Truncated(a, 0, q) && !Truncated(x, 0, q) {
        NoneByZero(a, q);
        NoneByZero(x, q);
      }
    } else {
      QuotientTruncates(a, b);
      UnsignedQuotient(ty, x, y);
      SignedRange(ty, x);
      QuotientRange(ty, a, b);
      forall q | b == -1 && Truncated(a, b, q) ensures q == -a {
        ByMinusOne(a, q);
      }
    }
  }

  /** Where the instruction should trap, the code goes on: with 0 or the dividend for a zero
      divisor, and with the lowest number where that is divided by minus one. */
  lemma TrapMissed(div: Division, ty: Ty, w: Wasm, m: Machine)
    requires |w.stack| >= 2 && InRange(ty, Top(w, 0)) && InRange(ty, Top(w, 1)) && Traps(Divide(div, ty), w)
    requires Read(m, ty, Reg(0)) == Top(w, 1) && Read(m, ty, Reg(1)) == Top(w, 0)
    ensures var rem := div.RemS? || div.RemU?;
      Read(Step(DivMod(div.DivS? || div.RemS?, ty, rem), m), ty, Reg(if rem then 1 else 0))
        == if Top(w, 0) == 0 && !rem then 0 else Top(w, 1)
  {
    hide Modulus;
    var x, y := Top(w, 1), Top(w, 0);
    InRangeMod(ty, x);
    ZeroMod(ty);
    if y != 0 {
      Overflows(ty, x, y);
    }
  }

  lemma ZeroMod(ty: Ty)
    ensures 0 % Modulus(ty) == 0
  {
  }

  lemma Overflows(ty: Ty, x: int, y: int)
    requires InRange(ty, x) && InRange(ty, y)
    requires Signed(ty, x) == -(Modulus(ty) / 2) && Signed(ty, y) == -1
    ensures LazyMachine.Divide(DivS, ty, x, y) == x
  {
  }

  lemma SignedZero(ty: Ty, y: int)
    requires InRange(ty, y)
    ensures Signed(ty, y) == 0 <==> y == 0
  {
  }

  lemma SignedRange(ty: Ty, x: int)
    requires InRange(ty, x)
    ensures -(Modulus(ty) / 2) <= Signed(ty, x) < Modulus(ty) / 2
  {
  }

  /** `r` has taken the place of the two operands. */
  predicate Replaces(w: Wasm, v: Wasm, r: int)
    requires |w.stack| >= 2
  {
    v.locals == w.locals && v.stack == Pop(w, 2) + [r]
  }

  lemma ComparisonMeans(k: nat, ty: Ty, w: Wasm)
    requires k < 10 && |w.stack| >= 2 && InRange(ty, Top(w, 0)) && InRange(ty, Top(w, 1))
    ensures var x, y := Top(w, 1), Top(w, 0);
      Replaces(w, Exec(Relation(ConditionCode(k), ty), w),
               if Relates(k, x, y, Signed(ty, x), Signed(ty, y)) then 1 else 0)
  {
    hide Signed, Holds, Relates, ConditionCode;
    Comparisons(k, ty, Top(w, 1), Top(w, 0));
  }

  lemma OperationMeans(k: nat, ty: Ty, w: Wasm) returns (r: int)
    requires k < 10 && |w.stack| >= 2 && InRange(ty, Top(w, 0)) && InRange(ty, Top(w, 1))
    requires !Traps(Operation(k, ty), w)
    ensures var x, y := Top(w, 1), Top(w, 0);
      && Replaces(w, Exec(Operation(k, ty), w), r)
      && InRange(ty, r) && Results(k, ty, x, y, Signed(ty, x), Signed(ty, y), r)
  {
    hide Signed, LazyMachine.Divide, Apply, Truncated, Modulus;
    var x, y := Top(w, 1), Top(w, 0);
    match Operation(k, ty)
    case Binary(op, _) =>
      r := Apply(op, ty, x, y);
      ApplyInRange(op, ty, x, y);
      Arithmetics(k, ty, x, y);
    case Divide(div, _) =>
      r := LazyMachine.Divide(div, ty, x, y);
      DivideInRange(div, ty, x, y);
      Divisions(div, ty, x, y);
  }

  /** The type of the operands. */
  function TypeOf(opcode: nat): Ty {
    if opcode < 0x50 || 0x6a <= opcode < 0x7c then I32 else I64
  }

  /** Every numeric opcode with two operands leaves the number that the specification gives:
      a truth value for a comparison, and otherwise the result, in the range of its type. */
  lemma OpcodeMeans(opcode: nat, w: Wasm) returns (r: int)
    requires InstrOf(opcode).Some? && Arity(InstrOf(opcode).value) == 2 && |w.stack| >= 2
    requires InRange(TypeOf(opcode), Top(w, 0)) && InRange(TypeOf(opcode), Top(w, 1))
    requires !Traps(InstrOf(opcode).value, w)
    ensures var ty, x, y := TypeOf(opcode), Top(w, 1), Top(w, 0);
      var a, b := Signed(ty, x), Signed(ty, y);
      && Replaces(w, Exec(InstrOf(opcode).value, w), r) && Reads(ty, x, a) && Reads(ty, y, b)
      && if opcode < 0x6a then r == if Relates((opcode - 0x46) % 11, x, y, a, b) then 1 else 0
         else InRange(ty, r) && Results((opcode - 0x6a) % 18, ty, x, y, a, b, r)
  {
    hide Reads, Signed, Exec, Traps, Relates, Results, Replaces, Modulus, Operation, ConditionCode;
    var ty, x, y := TypeOf(opcode), Top(w, 1), Top(w, 0);
    SignedReads(ty, x);
    SignedReads(ty, y);
    if opcode < 0x6a {
      var k := (opcode - 0x46) % 11;
      ComparisonMeans(k, ty, w);
      r := if Relates(k, x, y, Signed(ty, x), Signed(ty, y)) then 1 else 0;
    } else {
      r := OperationMeans((opcode - 0x6a) % 18, ty, w);
    }
  }
}
