/** `emit_op_mem`: how a memory operand is split between an address computation and
    the offset field of the load or store, and that the address comes out exact. */
module MemOperand {
  import opened Arm64
  import opened Immediates

  /** The operand: base and shifted index, an absolute address, or base and offset. */
  datatype Operand = Indexed(base: nat, index: nat, scale: int) | Absolute(addr: int) | Based(base: nat, offset: int)

  /** The address part of the final load or store; `Scaled` counts access sizes. */
  datatype Mode = Scaled(imm: int) | Unscaled(imm: int) | Register(index: nat, shifted: bool)

  /** The instructions that come out; the last one is the access itself. */
  datatype MemIns =
    | Load(dst: nat, moves: seq<Move>)
    | AddShifted(dst: nat, rn: nat, rm: nat, lsl: int)
    | AddHigh(dst: nat, rn: nat, imm: int)
    | SubHigh(dst: nat, rn: nat, imm: int)
    | Access(rn: nat, mode: Mode)

  type Regs = map<nat, nat>

  function Get(c: Regs, r: nat): nat {
    if r in c then c[r] else 0
  }

  function Power(n: int): nat {
    if n == 1 then 2 else if n == 2 then 4 else if n == 3 then 8 else 1
  }

  predicate Fits(i: MemIns) {
    match i
    case Load(_, moves) => |moves| <= 4
    case AddShifted(_, _, _, lsl) => 0 <= lsl < 4
    case AddHigh(_, _, imm) => 0 <= imm < 0x1000
    case SubHigh(_, _, imm) => 0 <= imm < 0x1000
    case Access(_, mode) =>
      (match mode
       case Scaled(imm) => 0 <= imm < 0x1000
       case Unscaled(imm) => -0x100 <= imm < 0x100
       case Register(_, _) => true)
  }

  function Exec(i: MemIns, c: Regs): Regs {
    match i
    case Load(dst, moves) => c[dst := var v := AllMoved(moves, Get(c, dst)); if v < 0 then 0 else v]
    case AddShifted(dst, rn, rm, lsl) => c[dst := (Get(c, rn) + Get(c, rm) * Power(lsl)) % TWO64]
    case AddHigh(dst, rn, imm) => c[dst := (Get(c, rn) + imm * 0x1000) % TWO64]
    case SubHigh(dst, rn, imm) => c[dst := (Get(c, rn) - imm * 0x1000) % TWO64]
    case Access(_, _) => c
  }

  /** The address an access of `2 ^ shift` bytes goes to. */
  function AddressOf(i: MemIns, shift: int, c: Regs): int
    requires i.Access?
  {
    (Get(c, i.rn) + match i.mode
     case Scaled(imm) => imm * Power(shift)
     case Unscaled(imm) => imm
     case Register(index, shifted) => Get(c, index) * if shifted then Power(shift) else 1) % TWO64
  }

  /** The address the operand denotes. */
  function Denoted(a: Operand, c: Regs): int {
    match a
    case Indexed(base, index, scale) => (Get(c, base) + Get(c, index) * Power(scale % 4)) % TWO64
    case Absolute(addr) => addr % TWO64
    case Based(base, offset) => (Get(c, base) + offset) % TWO64
  }

  /** At most one instruction before the access; only `tmp` changes; the address is exact. */
  ghost predicate Exact(code: seq<MemIns>, a: Operand, shift: int, tmp: nat) {
    && 1 <= |code| <= 2 && code[|code| - 1].Access? && (forall k :: 0 <= k < |code| ==> Fits(code[k]))
    && (|code| == 2 ==> !code[0].Access? && code[0].dst == tmp)
    && forall c: Regs ::
      AddressOf(code[|code| - 1], shift, if |code| == 2 then Exec(code[0], c) else c) == Denoted(a, c)
  }

  predicate IsOffset(w: int) {
    -TWO63 <= w < TWO63
  }

  // ------------------------------------------------------------ the two shapes

  lemma OneAccess(i: MemIns, a: Operand, shift: int, tmp: nat)
    requires i.Access? && Fits(i) && forall c: Regs :: AddressOf(i, shift, c) == Denoted(a, c)
    ensures Exact([i], a, shift, tmp)
  {
  }

  lemma ThenAccess(h: MemIns, i: MemIns, a: Operand, shift: int, tmp: nat)
    requires !h.Access? && h.dst == tmp && i.Access? && Fits(h) && Fits(i)
    requires forall c: Regs :: AddressOf(i, shift, Exec(h, c)) == Denoted(a, c)
    ensures Exact([h, i], a, shift, tmp)
  {
    hide AddressOf, Exec, Denoted;
  }

  lemma AddTwice(x: int, y: int)
    ensures (x % TWO64 + y) % TWO64 == (x + y) % TWO64
  {
    ModAdd(x, y);
  }

  /** Base plus 4096-byte steps, then a scaled or unscaled rest. */
  lemma HighThen(base: nat, steps: int, mode: Mode, rest: int, offset: int, shift: int, tmp: nat)
    requires -0x1000 < steps < 0x1000 && steps * 0x1000 + rest == offset
    requires (mode == Unscaled(rest) && -0x100 <= rest < 0x100)
      || (mode.Scaled? && 0 <= mode.imm < 0x1000 && rest == mode.imm * Power(shift))
    ensures Exact([if steps < 0 then SubHigh(tmp, base, -steps) else AddHigh(tmp, base, steps), Access(tmp, mode)],
                  Based(base, offset), shift, tmp)
  {
    var h := if steps < 0 then SubHigh(tmp, base, -steps) else AddHigh(tmp, base, steps);
    forall c: Regs
      ensures AddressOf(Access(tmp, mode), shift, Exec(h, c)) == Denoted(Based(base, offset), c)
    {
      AddTwice(Get(c, base) + steps * 0x1000, rest);
    }
    ThenAccess(h, Access(tmp, mode), Based(base, offset), shift, tmp);
  }

  /** An immediate in `tmp`, then the access. */
  lemma LoadThen(x: nat, moves: seq<Move>, i: MemIns, a: Operand, shift: int, tmp: nat)
    requires Loads(moves, x) && |moves| <= 4 && i.Access? && Fits(i)
    requires forall c: Regs :: AddressOf(i, shift, c[tmp := x]) == Denoted(a, c)
    ensures Exact([Load(tmp, moves), i], a, shift, tmp)
  {
    hide AddressOf, Denoted, AllMoved;
    forall c: Regs
      ensures AddressOf(i, shift, Exec(Load(tmp, moves), c)) == Denoted(a, c)
    {
      assert Exec(Load(tmp, moves), c) == c[tmp := x];
    }
    ThenAccess(Load(tmp, moves), i, a, shift, tmp);
  }

  // --------------------------------------------------------------- emit_op_mem

  /** `emit_op_mem` without the register that is loaded or stored. */
  method EmitOpMem(a: Operand, shift: int, tmp: nat) returns (code: seq<MemIns>)
    requires 0 <= shift <= 3
    requires a.Absolute? ==> IsOffset(a.addr)
    requires a.Based? ==> IsOffset(a.offset) && a.base != tmp
    ensures Exact(code, a, shift, tmp)
    ensures a.Based? ==> (|code| == 1 <==> exists mode :: Holds(mode, a.offset, shift))
    ensures a.Indexed? ==> (|code| == 1 <==> a.scale % 4 == 0 || a.scale % 4 == shift)
  {
    hide Exact;
    match a {
      case Indexed(base, index, scale0) =>
        var scale := scale0 % 4;
        if scale == 0 || scale == shift {
          IndexedOnce(base, index, scale0, shift, tmp);
          return [Access(base, Register(index, scale != 0))];
        }
        IndexedTwice(base, index, scale0, shift, tmp);
        return [AddShifted(tmp, base, index, scale), Access(tmp, Scaled(0))];
      case Absolute(addr) =>
        var low := addr / Power(shift) % 0x1000;
        var rest := addr - low * Power(shift);
        var moves := LoadImmediate(rest % TWO64);
        AbsoluteExact(addr, low, rest, moves, shift, tmp);
        return [Load(tmp, moves), Access(tmp, Scaled(low))];
      case Based(base, offset) =>
        code := EmitBased(base, offset, shift, tmp);
    }
  }

  lemma IndexedOnce(base: nat, index: nat, scale: int, shift: int, tmp: nat)
    requires scale % 4 == 0 || scale % 4 == shift
    ensures Exact([Access(base, Register(index, scale % 4 != 0))], Indexed(base, index, scale), shift, tmp)
  {
    OneAccess(Access(base, Register(index, scale % 4 != 0)), Indexed(base, index, scale), shift, tmp);
  }

  lemma IndexedTwice(base: nat, index: nat, scale: int, shift: int, tmp: nat)
    ensures Exact([AddShifted(tmp, base, index, scale % 4), Access(tmp, Scaled(0))], Indexed(base, index, scale), shift,
                  tmp)
  {
    ThenAccess(AddShifted(tmp, base, index, scale % 4), Access(tmp, Scaled(0)), Indexed(base, index, scale), shift,
               tmp);
  }

  lemma AbsoluteExact(addr: int, low: int, rest: int, moves: seq<Move>, shift: int, tmp: nat)
    requires 0 <= shift <= 3 && 0 <= low < 0x1000 && rest == addr - low * Power(shift) && Loads(moves, rest % TWO64)
      && |moves| <= 4
    ensures Exact([Load(tmp, moves), Access(tmp, Scaled(low))], Absolute(addr), shift, tmp)
  {
    hide Loads;
    AddTwice(rest, low * Power(shift));
    LoadThen(rest % TWO64, moves, Access(tmp, Scaled(low)), Absolute(addr), shift, tmp);
  }

  /** The offset field holds the offset as it is. */
  predicate Holds(mode: Mode, offset: int, shift: int) {
    match mode
    case Scaled(imm) => 0 <= imm < 0x1000 && offset == imm * Power(shift)
    case Unscaled(imm) => -0x100 <= imm < 0x100 && offset == imm
    case Register(_, _) => false
  }

  /** In a branch that is left to two instructions no field holds the offset. */
  lemma NoField(offset: int, shift: int)
    requires 0 <= shift <= 3 && !(-0x100 <= offset <= 0xff)
    requires offset % Power(shift) == 0 ==> offset < 0 || offset / Power(shift) > 0xfff
    ensures forall mode :: !Holds(mode, offset, shift)
  {
    forall mode: Mode | mode.Scaled?
      ensures !Holds(mode, offset, shift)
    {
      if Holds(mode, offset, shift) {
        PowerTimes(mode.imm, shift);
      }
    }
  }

  lemma PowerTimes(imm: nat, shift: int)
    requires 0 <= shift <= 3
    ensures imm * Power(shift) % Power(shift) == 0 && imm * Power(shift) / Power(shift) == imm
  {
  }

  lemma SomeField(mode: Mode, offset: int, shift: int)
    requires Holds(mode, offset, shift)
    ensures exists mode :: Holds(mode, offset, shift)
  {
  }

  lemma ScaledField(offset: int, shift: int)
    requires 0 <= shift <= 3 && offset >= 0 && offset % Power(shift) == 0 && offset / Power(shift) <= 0xfff
    ensures Holds(Scaled(offset / Power(shift)), offset, shift)
  {
  }

  /** A base register and an offset: one instruction if and only if a field holds the offset. */
  method EmitBased(base: nat, argw0: int, shift: int, tmp: nat) returns (code: seq<MemIns>)
    requires 0 <= shift <= 3 && IsOffset(argw0) && base != tmp
    ensures Exact(code, Based(base, argw0), shift, tmp)
    ensures |code| == 1 <==> exists mode :: Holds(mode, argw0, shift)
  {
    hide Exact;
    var argw := argw0;
    if -0x100 <= argw <= 0xff {
      SomeField(Unscaled(argw), argw, shift);
    } else if argw >= 0 && argw % Power(shift) == 0 && argw / Power(shift) <= 0xfff {
      ScaledField(argw, shift);
    } else {
      NoField(argw, shift);
    }
    if argw % Power(shift) == 0 {
      if argw >= 0 {
        if argw / Power(shift) <= 0xfff {
          DirectScaled(base, argw, shift, tmp);
          return [Access(base, Scaled(argw / Power(shift)))];
        }
        if argw <= 0xff_ffff {
          SplitScaled(argw, argw / 0x1000, shift);
          HighThen(base, argw / 0x1000, Scaled(argw % 0x1000 / Power(shift)), argw % 0x1000, argw, shift, tmp);
          return [AddHigh(tmp, base, argw / 0x1000), Access(tmp, Scaled(argw % 0x1000 / Power(shift)))];
        }
      } else if argw < -256 && argw >= -0xff_f000 {
        var steps, low := (-argw + 0xfff) / 0x1000, (0x1000 + argw) % 0x1000;
        SplitNegative(argw, shift);
        HighThen(base, -steps, Scaled(low / Power(shift)), low, argw, shift, tmp);
        return [SubHigh(tmp, base, steps), Access(tmp, Scaled(low / Power(shift)))];
      }
    }
    if -0x100 <= argw <= 0xff {
      OneAccess(Access(base, Unscaled(argw)), Based(base, argw), shift, tmp);
      return [Access(base, Unscaled(argw))];
    }
    if (argw + 0x100) % 0x1000 <= 0x1ff && argw <= 0xff_f0ff && argw >= -0xff_f100 {
      if argw >= 0 {
        if argw / 0x100 % 2 == 1 {
          argw := argw + 0x1000;
        }
        NearPage(argw0, argw);
        var rest := Field9(argw);
        HighThen(base, argw / 0x1000, Unscaled(rest), rest, argw0, shift, tmp);
        return [AddHigh(tmp, base, argw / 0x1000), Access(tmp, Unscaled(rest))];
      } else {
        if argw / 0x100 % 2 == 0 {
          argw := argw - 0x1000;
        }
        NearPageBelow(argw0, argw, shift);
        var rest := Field9(argw);
        HighThen(base, -(-argw / 0x1000), Unscaled(rest), rest, argw0, shift, tmp);
        return [SubHigh(tmp, base, -argw / 0x1000), Access(tmp, Unscaled(rest))];
      }
    }
    var moves := LoadImmediate(argw % TWO64);
    FarOffset(base, argw, moves, shift, tmp);
    return [Load(tmp, moves), Access(base, Register(tmp, false))];
  }

  /** The nine bits `argw & 0x1ff`, as the instruction reads them. */
  function Field9(argw: int): (r: int)
    ensures -0x100 <= r < 0x100
  {
    if argw % 0x200 < 0x100 then argw % 0x200 else argw % 0x200 - 0x200
  }

  lemma DirectScaled(base: nat, argw: int, shift: int, tmp: nat)
    requires 0 <= shift <= 3 && argw >= 0 && argw % Power(shift) == 0 && argw / Power(shift) <= 0xfff
    ensures Exact([Access(base, Scaled(argw / Power(shift)))], Based(base, argw), shift, tmp)
  {
    OneAccess(Access(base, Scaled(argw / Power(shift))), Based(base, argw), shift, tmp);
  }

  lemma LowDivides(argw: int, shift: int)
    requires 0 <= shift <= 3 && argw % Power(shift) == 0
    ensures argw % 0x1000 % Power(shift) == 0 && argw % 0x1000 / Power(shift) * Power(shift) == argw % 0x1000
  {
    var q, low := argw / 0x1000, argw % 0x1000;
    assert argw == q * 0x1000 + low;
    if shift == 1 {
      Multiple(low, 2, argw / 2 - q * 0x800);
    } else if shift == 2 {
      Multiple(low, 4, argw / 4 - q * 0x400);
    } else if shift == 3 {
      Multiple(low, 8, argw / 8 - q * 0x200);
    }
  }

  lemma Multiple(x: int, unit: int, n: int)
    requires (unit == 2 || unit == 4 || unit == 8) && x == unit * n
    ensures x % unit == 0 && x / unit * unit == x
  {
    if unit == 2 {
      assert x == 2 * n && x / 2 == n;
    } else if unit == 4 {
      assert x == 4 * n && x / 4 == n;
    } else {
      assert x == 8 * n && x / 8 == n;
    }
  }

  lemma PageAligned(argw: int, shift: int)
    requires 0 <= shift <= 3 && argw % 0x1000 == 0
    ensures argw % Power(shift) == 0
  {
    var q := argw / 0x1000;
    assert argw == q * 0x1000;
    if shift == 1 {
      assert argw == 2 * (q * 0x800);
    } else if shift == 2 {
      assert argw == 4 * (q * 0x400);
    } else if shift == 3 {
      assert argw == 8 * (q * 0x200);
    }
  }

  lemma SplitScaled(argw: int, high: int, shift: int)
    requires 0 <= shift <= 3 && 0 <= argw <= 0xff_ffff && argw % Power(shift) == 0 && high == argw / 0x1000
    ensures 0 <= high < 0x1000 && 0 <= argw % 0x1000 / Power(shift) < 0x1000
    ensures argw % 0x1000 == argw % 0x1000 / Power(shift) * Power(shift)
  {
    LowDivides(argw, shift);
  }

  lemma SplitNegative(argw: int, shift: int)
    requires 0 <= shift <= 3 && -0xff_f000 <= argw < -256 && argw % Power(shift) == 0
    ensures var steps, low := (-argw + 0xfff) / 0x1000, (0x1000 + argw) % 0x1000;
      && 0 < steps < 0x1000 && -steps * 0x1000 + low == argw
      && 0 <= low / Power(shift) < 0x1000 && low == low / Power(shift) * Power(shift)
  {
    LowDivides(argw, shift);
    assert (0x1000 + argw) % 0x1000 == argw % 0x1000;
  }

  /** A positive offset within 256 bytes of a multiple of 4096. */
  lemma NearPage(argw0: int, argw: int)
    requires 0xff < argw0 <= 0xff_f0ff && (argw0 + 0x100) % 0x1000 <= 0x1ff
    requires argw == if argw0 / 0x100 % 2 == 1 then argw0 + 0x1000 else argw0
    ensures 0 <= argw / 0x1000 < 0x1000 && argw / 0x1000 * 0x1000 + Field9(argw) == argw0
  {
    var q, low := argw0 / 0x1000, argw0 % 0x1000;
    assert argw0 == q * 0x1000 + low;
    PageBits(argw0);
    assert argw == (if low < 0x100 then q else q + 1) * 0x1000 + low;
  }

  lemma PageBits(w: int)
    requires (w + 0x100) % 0x1000 <= 0x1ff
    ensures var low := w % 0x1000;
      && (low < 0x100 || low >= 0xf00) && (w / 0x100 % 2 == 0 <==> low < 0x100)
      && Field9(w) == (if low < 0x100 then low else low - 0x1000)
      && Field9(w + 0x1000) == Field9(w) == Field9(w - 0x1000)
  {
    var q, low := w / 0x1000, w % 0x1000;
    assert w == q * 0x1000 + low;
    NearRange(q, low);
    PageParity(q, low);
    PageField(q, low);
    PageField(q + 1, low);
    PageField(q - 1, low);
  }

  lemma NearRange(q: int, low: int)
    requires 0 <= low < 0x1000 && (q * 0x1000 + low + 0x100) % 0x1000 <= 0x1ff
    ensures low < 0x100 || low >= 0xf00
  {
    if 0x100 <= low < 0xf00 {
      Remainder(q * 0x1000 + low + 0x100, 0x1000, q, low + 0x100);
    }
  }

  lemma PageParity(q: int, low: int)
    requires 0 <= low < 0x100 || 0xf00 <= low < 0x1000
    ensures (q * 0x1000 + low) / 0x100 % 2 == 0 <==> low < 0x100
  {
    var x := if low < 0x100 then 0 else 0xf;
    Remainder(q * 0x1000 + low, 0x100, q * 0x10 + x, low - x * 0x100);
    Remainder(q * 0x10 + x, 2, q * 8 + x / 2, x % 2);
  }

  lemma PageField(q: int, low: int)
    requires 0 <= low < 0x100 || 0xf00 <= low < 0x1000
    ensures Field9(q * 0x1000 + low) == if low < 0x100 then low else low - 0x1000
  {
    var x := if low < 0x100 then 0 else 7;
    Remainder(q * 0x1000 + low, 0x200, q * 8 + x, low - x * 0x200);
  }

  /** Division and remainder are what they are for one quotient alone. */
  lemma Remainder(x: int, unit: int, q: int, r: int)
    requires unit == 2 || unit == 0x100 || unit == 0x200 || unit == 0x1000
    requires x == q * unit + r && 0 <= r < unit
    ensures x / unit == q && x % unit == r
  {
    if unit == 2 {
      assert x == 2 * q + r;
    } else if unit == 0x100 {
      assert x == 0x100 * q + r;
    } else if unit == 0x200 {
      assert x == 0x200 * q + r;
    } else {
      assert x == 0x1000 * q + r;
    }
  }

  /** The negative case.  It would be one page off for multiples of 4096, but those
      are aligned for every access size and have been dealt with before. */
  lemma NearPageBelow(argw0: int, argw: int, shift: int)
    requires 0 <= shift <= 3 && -0xff_f100 <= argw0 < -0x100 && (argw0 + 0x100) % 0x1000 <= 0x1ff
    requires argw0 % Power(shift) == 0 ==> argw0 < -0xff_f000
    requires argw == if argw0 / 0x100 % 2 == 0 then argw0 - 0x1000 else argw0
    ensures 0 < -argw / 0x1000 < 0x1000 && -(-argw / 0x1000) * 0x1000 + Field9(argw) == argw0
  {
    var q, low := argw0 / 0x1000, argw0 % 0x1000;
    assert argw0 == q * 0x1000 + low;
    PageBits(argw0);
    if low == 0 {
      PageAligned(argw0, shift);
      assert false;
    }
    if low < 0x100 {
      assert -argw == -q * 0x1000 + (0x1000 - low);
    } else {
      assert -argw == (-q - 1) * 0x1000 + (0x1000 - low);
    }
  }

  lemma FarOffset(base: nat, argw: int, moves: seq<Move>, shift: int, tmp: nat)
    requires base != tmp && Loads(moves, argw % TWO64) && |moves| <= 4
    ensures Exact([Load(tmp, moves), Access(base, Register(tmp, false))], Based(base, argw), shift, tmp)
  {
    hide Loads;
    forall c: Regs
      ensures (Get(c, base) + argw % TWO64) % TWO64 == (Get(c, base) + argw) % TWO64
    {
      AddTwice(argw, Get(c, base));
    }
    LoadThen(argw % TWO64, moves, Access(base, Register(tmp, false)), Based(base, argw), shift, tmp);
  }
}
