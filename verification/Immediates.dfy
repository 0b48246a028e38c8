/** `load_immediate`: the moves it emits leave exactly the requested value. */
module Immediates {
  import opened Arm64
  import opened LogicalImm

  // ---------------------------------------------------------------- the moves

  /** Moves into one register.  The W forms write 32 bits and clear the others;
      `Orr` is the logical immediate with the zero register. */
  datatype Move =
    | MovZ(imm: int, hw: nat)
    | MovN(imm: int, hw: nat)
    | MovNW(imm: int, hw: nat)
    | MovK(imm: int, hw: nat)
    | Orr(fields: int)
    | OrrW(fields: int)

  function Unit(hw: nat): nat {
    if hw == 0 then 1 else if hw == 1 then TWO16 else if hw == 2 then TWO32 else TWO48
  }

  function Value(w: Bits): nat {
    if w == [] then 0 else (if w[0] then 1 else 0) + 2 * Value(w[1..])
  }

  /** The value of a logical immediate. */
  function MaskValue(fields: int, size: nat): nat {
    var n, immr, imms := FieldN(fields), FieldImmr(fields), FieldImms(fields);
    if 0 <= n && ElementSize(n, imms) > 0 then
      var e := ElementSize(n, imms);
      Value(Replicate(Element(e, immr % e, imms % e), size))
    else 0
  }

  predicate MoveFits(m: Move) {
    match m
    case MovZ(imm, hw) => 0 <= imm < TWO16 && hw < 4
    case MovN(imm, hw) => 0 <= imm < TWO16 && hw < 4
    case MovNW(imm, hw) => 0 <= imm < TWO16 && hw < 2
    case MovK(imm, hw) => 0 <= imm < TWO16 && hw < 4
    case Orr(fields) => 0 <= fields < 0x80_0000
    case OrrW(fields) => 0 <= fields < 0x40_0000
  }

  /** The register after a move, from what it held. */
  function Moved(m: Move, x: int): int {
    match m
    case MovZ(imm, hw) => imm * Unit(hw)
    case MovN(imm, hw) => TWO64 - 1 - imm * Unit(hw)
    case MovNW(imm, hw) => TWO32 - 1 - imm * Unit(hw)
    case MovK(imm, hw) => x - (x / Unit(hw)) % TWO16 * Unit(hw) + imm * Unit(hw)
    case Orr(fields) => MaskValue(fields, 64)
    case OrrW(fields) => MaskValue(fields, 32)
  }

  function AllMoved(ms: seq<Move>, x: int): int
    decreases |ms|
  {
    if ms == [] then x else Moved(ms[|ms| - 1], AllMoved(ms[..|ms| - 1], x))
  }

  lemma MovedLast(ms: seq<Move>, m: Move, x: int)
    ensures AllMoved(ms + [m], x) == Moved(m, AllMoved(ms, x))
  {
    assert (ms + [m])[..|ms|] == ms;
  }

  /** Whatever the register held, it ends up with `x`. */
  ghost predicate Loads(ms: seq<Move>, x: int) {
    (forall before :: AllMoved(ms, before) == x) && forall k :: 0 <= k < |ms| ==> MoveFits(ms[k])
  }

  // --------------------------------------------------------------- words as bits

  function Word(x: nat, n: nat): (w: Bits)
    ensures |w| == n
  {
    if n == 0 then [] else [x % 2 == 1] + Word(x / 2, n - 1)
  }

  function Pow2(n: nat): (r: nat)
    ensures r > 0
  {
    if n == 0 then 1 else 2 * Pow2(n - 1)
  }

  lemma {:induction false} WordValue(x: nat, n: nat)
    requires x < Pow2(n)
    ensures Value(Word(x, n)) == x
    decreases n
  {
    if n > 0 {
      WordValue(x / 2, n - 1);
      assert Word(x, n)[1..] == Word(x / 2, n - 1);
    }
  }

  lemma {:induction false} WordPrefix(x: nat, n: nat, m: nat)
    requires m <= n
    ensures Word(x, n)[..m] == Word(x, m)
    decreases m
  {
    if m > 0 {
      WordPrefix(x / 2, n - 1, m - 1);
      assert Word(x, n)[..m] == [x % 2 == 1] + Word(x / 2, n - 1)[..m - 1];
    }
  }

  lemma Pow2Eight(n: nat)
    ensures Pow2(n + 8) == 256 * Pow2(n)
  {
    assert Pow2(n + 4) == 16 * Pow2(n) by {
      assert Pow2(n + 1) == 2 * Pow2(n) && Pow2(n + 2) == 2 * Pow2(n + 1) && Pow2(n + 3) == 2 * Pow2(n + 2);
    }
    assert Pow2(n + 5) == 2 * Pow2(n + 4) && Pow2(n + 6) == 2 * Pow2(n + 5) && Pow2(n + 7) == 2 * Pow2(n + 6);
  }

  lemma WordSizes()
    ensures Pow2(32) == TWO32 && Pow2(64) == TWO64
  {
    Pow2Eight(0);
    Pow2Eight(8);
    Pow2Eight(16);
    Pow2Eight(24);
    Pow2Eight(32);
    Pow2Eight(40);
    Pow2Eight(48);
    Pow2Eight(56);
  }

  lemma {:induction false} ConstantValue(x: nat, n: nat, bit: bool)
    requires x < Pow2(n) && Word(x, n) == Fill(n, bit)
    ensures x == if bit then Pow2(n) - 1 else 0
    decreases n
  {
    if n > 0 {
      assert Word(x, n)[0] == bit;
      assert Word(x / 2, n - 1) == Word(x, n)[1..] == Fill(n, bit)[1..] == Fill(n - 1, bit);
      ConstantValue(x / 2, n - 1, bit);
    }
  }

  lemma NotConstantWord(x: nat, n: nat)
    requires (n == 32 && 0 < x < TWO32 - 1) || (n == 64 && 0 < x < TWO64 - 1)
    ensures !Constant(Word(x, n))
  {
    WordSizes();
    if Word(x, n) == Fill(n, false) {
      ConstantValue(x, n, false);
    }
    if Word(x, n) == Fill(n, true) {
      ConstantValue(x, n, true);
    }
  }

  /** A mask that decodes to the word has its value. */
  lemma MaskLoads(x: nat, fields: int, n: nat)
    requires (n == 32 && x < TWO32) || (n == 64 && x < TWO64)
    requires FieldN(fields) >= 0 && Decodes(FieldN(fields), FieldImmr(fields), FieldImms(fields), n, Word(x, n))
    ensures MaskValue(fields, n) == x
  {
    hide Element, Replicate, FieldN, FieldImmr, FieldImms;
    WordSizes();
    WordValue(x, n);
  }

  // ------------------------------------------------------------------- half-words

  function Half(x: nat, i: nat): nat {
    x / Unit(i) % TWO16
  }

  /** The halves of `x` below `i`. */
  function Low(x: nat, i: nat): nat {
    if i == 0 then 0 else if i >= 4 then x else x % Unit(i)
  }

  lemma LowNext(x: nat, i: nat)
    requires x < TWO64 && i < 4
    ensures Low(x, i + 1) == Low(x, i) + Half(x, i) * Unit(i)
    ensures Low(x, i) < Unit(i) || (i == 0 && Low(x, i) == 0)
  {
    var y, z := x / TWO16, x / TWO32;
    assert x == x % TWO16 + y * TWO16;
    if i == 1 {
      LowSplit(x, TWO16);
    } else if i == 2 {
      LowSplit(x, TWO32);
    } else if i == 3 {
      assert x == x % TWO48 + (x / TWO48) * TWO48;
    }
  }

  lemma LowSplit(x: nat, u: nat)
    requires u == TWO16 || u == TWO32
    ensures x % (u * TWO16) == x % u + x / u % TWO16 * u
  {
    var q := x / u;
    assert x == q * u + x % u && q == (q / TWO16) * TWO16 + q % TWO16;
    var r := x % u + q % TWO16 * u;
    assert x == (q / TWO16) * (u * TWO16) + r;
    if u == TWO16 {
      assert x == (q / TWO16) * TWO32 + r;
    } else {
      assert x == (q / TWO16) * TWO48 + r;
    }
  }

  /** What the register holds after the halves below `i`, with ones above them when negated. */
  function Built(x: nat, i: nat, negated: bool): int {
    Low(x, i) + if negated then TWO64 - (if i >= 4 then TWO64 else Unit(i)) else 0
  }

  /** The halves below `i` need no move: all ones, or all zeros. */
  function Untouched(x: nat, i: nat, negated: bool): bool {
    Low(x, i) == if negated then (if i >= 4 then TWO64 else Unit(i)) - 1 else 0
  }

  lemma SkipHalf(x: nat, i: nat, negated: bool)
    requires x < TWO64 && i < 4 && Half(x, i) == if negated then TWO16 - 1 else 0
    ensures Built(x, i + 1, negated) == Built(x, i, negated)
    ensures Untouched(x, i, negated) ==> Untouched(x, i + 1, negated)
  {
    LowNext(x, i);
  }

  lemma FirstHalf(x: nat, i: nat, negated: bool)
    requires x < TWO64 && i < 4 && Untouched(x, i, negated)
    ensures Moved(if negated then MovN(TWO16 - 1 - Half(x, i), i) else MovZ(Half(x, i), i), 0)
      == Built(x, i + 1, negated)
  {
    hide Half, Low;
    LowNext(x, i);
    if negated {
      LastHalf(Half(x, i), i);
    }
  }

  /** A half and the ones above it. */
  lemma LastHalf(h: int, i: nat)
    requires i < 4
    ensures TWO64 - 1 - (TWO16 - 1 - h) * Unit(i)
      == Unit(i) - 1 + h * Unit(i) + TWO64 - (if i + 1 >= 4 then TWO64 else Unit(i + 1))
  {
  }

  lemma NextHalf(x: nat, i: nat, negated: bool)
    requires x < TWO64 && i < 4
    ensures Moved(MovK(Half(x, i), i), Built(x, i, negated)) == Built(x, i + 1, negated)
  {
    LowNext(x, i);
    BuiltHalf(x, i, negated);
  }

  lemma BuiltHalf(x: nat, i: nat, negated: bool)
    requires x < TWO64 && i < 4
    ensures Built(x, i, negated) / Unit(i) % TWO16 == if negated then TWO16 - 1 else 0
  {
    hide Low, Half;
    LowNext(x, i);
    LowPositive(x, i);
    HalfAbove(Low(x, i), i, negated);
  }

  lemma LowPositive(x: nat, i: nat)
    ensures Low(x, i) >= 0
  {
  }

  /** The half above what has been built: ones or zeros. */
  lemma HalfAbove(low: int, i: nat, negated: bool)
    requires i < 4 && 0 <= low < Unit(i)
    ensures (low + if negated then TWO64 - Unit(i) else 0) / Unit(i) % TWO16 == if negated then TWO16 - 1 else 0
  {
    if negated {
      if i == 1 {
        assert (low + 0xffff_ffff_ffff * TWO16) / TWO16 == 0xffff_ffff_ffff;
      } else if i == 2 {
        assert (low + 0xffff_ffff * TWO32) / TWO32 == 0xffff_ffff;
      } else if i == 3 {
        assert (low + 0xffff * TWO48) / TWO48 == 0xffff;
      }
    } else {
      assert low / Unit(i) == 0;
    }
  }

  lemma ComplementHalf(x: nat, i: nat)
    requires x < TWO64 && i < 4
    ensures Half(TWO64 - 1 - x, i) == TWO16 - 1 - Half(x, i)
  {
    var top :=
      if i == 0 then TWO64 - 1 else if i == 1 then 0xffff_ffff_ffff else if i == 2 then 0xffff_ffff else 0xffff;
    ComplementDiv(x, i, top);
    ComplementMod(x / Unit(i), top);
  }

  lemma ComplementDiv(x: nat, i: nat, top: nat)
    requires x < TWO64 && i < 4
    requires top ==
      if i == 0 then TWO64 - 1 else if i == 1 then 0xffff_ffff_ffff else if i == 2 then 0xffff_ffff else 0xffff
    ensures x / Unit(i) <= top && (TWO64 - 1 - x) / Unit(i) == top - x / Unit(i)
  {
  }

  lemma ComplementMod(q: nat, top: nat)
    requires q <= top && top % TWO16 == TWO16 - 1
    ensures (top - q) % TWO16 == TWO16 - 1 - q % TWO16
  {
    var a, b := top / TWO16, q / TWO16;
    assert top - q == (a - b) * TWO16 + (TWO16 - 1 - q % TWO16);
  }

  lemma NextUnit(x: nat, i: nat)
    requires i < 3
    ensures x / Unit(i) / TWO16 == x / Unit(i + 1)
  {
  }

  /** The code so far has built the halves below `i`, or none was needed. */
  ghost predicate Building(code: seq<Move>, x: nat, i: nat, negated: bool) {
    if code == [] then Untouched(x, i, negated)
    else
      && (forall before :: AllMoved(code, before) == Built(x, i, negated))
      && forall k :: 0 <= k < |code| ==> MoveFits(code[k])
  }

  lemma BuildSkip(code: seq<Move>, x: nat, i: nat, negated: bool)
    requires x < TWO64 && i < 4 && Building(code, x, i, negated) && Half(x, i) == if negated then TWO16 - 1 else 0
    ensures Building(code, x, i + 1, negated)
  {
    SkipHalf(x, i, negated);
  }

  lemma BuildFirst(x: nat, i: nat, negated: bool)
    requires x < TWO64 && i < 4 && Building([], x, i, negated)
    ensures Building([if negated then MovN(TWO16 - 1 - Half(x, i), i) else MovZ(Half(x, i), i)], x, i + 1, negated)
  {
    var m := if negated then MovN(TWO16 - 1 - Half(x, i), i) else MovZ(Half(x, i), i);
    FirstHalf(x, i, negated);
    forall before
      ensures AllMoved([m], before) == Built(x, i + 1, negated)
    {
      MovedLast([], m, before);
      assert [] + [m] == [m];
    }
  }

  lemma BuildNext(code: seq<Move>, x: nat, i: nat, negated: bool)
    requires x < TWO64 && i < 4 && code != [] && Building(code, x, i, negated)
    ensures Building(code + [MovK(Half(x, i), i)], x, i + 1, negated)
  {
    hide Half, Built, AllMoved, Moved;
    var m := MovK(Half(x, i), i);
    NextHalf(x, i, negated);
    HalfSmall(x, i);
    forall before
      ensures AllMoved(code + [m], before) == Built(x, i + 1, negated)
    {
      MovedLast(code, m, before);
    }
  }

  lemma HalfSmall(x: nat, i: nat)
    ensures 0 <= Half(x, i) < TWO16
  {
  }

  lemma BuildDone(code: seq<Move>, x: nat, negated: bool)
    requires x < TWO64 && Building(code, x, 4, negated) && x != if negated then TWO64 - 1 else 0
    ensures Loads(code, x)
  {
  }

  // --------------------------------------------------------- one instruction

  /** The move alone leaves `x` in the register. */
  predicate Alone(m: Move, x: int) {
    MoveFits(m) && !m.MovK? && Moved(m, 0) == x
  }

  /** How many of the lowest `n` half-words of `x` are `h`. */
  function Counted(x: nat, h: nat, n: nat): nat {
    (if 0 < n && Half(x, 0) == h then 1 else 0) + (if 1 < n && Half(x, 1) == h then 1 else 0)
      + (if 2 < n && Half(x, 2) == h then 1 else 0) + if 3 < n && Half(x, 3) == h then 1 else 0
  }

  function Halves(x: nat, h: nat): nat {
    Counted(x, h, 4)
  }

  ghost predicate Decoded(w: Bits) {
    exists n: nat, immr: nat, imms: nat :: Decodes(n, immr, imms, |w|, w)
  }

  /** The shapes of the values that one move leaves. */
  ghost predicate Simple(x: nat) {
    || x <= 0xffff || x >= TWO64 - 0x1_0000
    || (x < TWO32 && (x % TWO16 == 0 || x % TWO16 == 0xffff || x / TWO16 == 0xffff || Decoded(Word(x, 32))))
    || (x >= TWO32 && (Halves(x, 0) >= 3 || Halves(x, 0xffff) >= 3 || Decoded(Word(x, 64))))
  }

  lemma OneHalf(x: nat, h: nat, q: nat)
    requires h < TWO16 && x == h + q * TWO16
    ensures x % TWO16 == h && x / TWO16 == q
  {
  }

  /** The halves of a number put together from four. */
  lemma FourHalves(x: nat, a: nat, b: nat, c: nat, d: nat)
    requires a < TWO16 && b < TWO16 && c < TWO16 && d < TWO16
    requires x == a + b * TWO16 + c * TWO32 + d * TWO48
    ensures Half(x, 0) == a && Half(x, 1) == b && Half(x, 2) == c && Half(x, 3) == d
  {
    OneHalf(x, a, b + c * TWO16 + d * TWO32);
    OneHalf(b + c * TWO16 + d * TWO32, b, c + d * TWO16);
    OneHalf(c + d * TWO16, c, d);
    OneHalf(d, d, 0);
    NextUnit(x, 0);
    NextUnit(x, 1);
    NextUnit(x, 2);
  }

  lemma ZeroSimple(m: Move, x: nat)
    requires Alone(m, x) && m.MovZ?
    ensures Simple(x)
  {
    hide Half, Decoded;
    var i, hw := m.imm, m.hw;
    if hw == 1 {
      OneHalf(x, 0, i);
    } else if hw == 2 {
      FourHalves(x, 0, 0, i, 0);
    } else if hw == 3 {
      FourHalves(x, 0, 0, 0, i);
    }
  }

  lemma OnesSimple(m: Move, x: nat)
    requires Alone(m, x) && m.MovN?
    ensures Simple(x)
  {
    hide Half, Decoded;
    var j, hw := 0xffff - m.imm, m.hw;
    if hw == 1 {
      FourHalves(x, 0xffff, j, 0xffff, 0xffff);
    } else if hw == 2 {
      FourHalves(x, 0xffff, 0xffff, j, 0xffff);
    } else if hw == 3 {
      FourHalves(x, 0xffff, 0xffff, 0xffff, j);
    }
  }

  lemma ShortSimple(m: Move, x: nat)
    requires Alone(m, x) && m.MovNW?
    ensures Simple(x)
  {
    hide Halves, Decoded;
    var j := 0xffff - m.imm;
    if m.hw == 0 {
      OneHalf(x, j, 0xffff);
    } else {
      OneHalf(x, 0xffff, j);
    }
  }

  // ------------------------------------------------- and one logical immediate

  lemma ValueStep(w: Bits)
    ensures Value(w) == if w == [] then 0 else (if w[0] then 1 else 0) + 2 * Value(w[1..])
  {
  }

  lemma Halved(bit: nat, v: nat)
    requires bit < 2
    ensures (bit + 2 * v) % 2 == bit && (bit + 2 * v) / 2 == v
  {
  }

  lemma {:induction false} ValueBits(w: Bits)
    ensures Value(w) < Pow2(|w|) && Word(Value(w), |w|) == w
    decreases |w|
  {
    hide Value;
    ValueStep(w);
    if w != [] {
      ValueBits(w[1..]);
      Halved(if w[0] then 1 else 0, Value(w[1..]));
      assert w == [w[0]] + w[1..];
    }
  }

  lemma {:induction false} OnesValue(w: Bits)
    requires forall i :: 0 <= i < |w| ==> w[i]
    ensures Value(w) == Pow2(|w|) - 1
    decreases |w|
  {
    if w != [] {
      OnesValue(w[1..]);
    }
  }

  lemma {:induction false} NoneValue(w: Bits)
    requires forall i :: 0 <= i < |w| ==> !w[i]
    ensures Value(w) == 0
    decreases |w|
  {
    if w != [] {
      NoneValue(w[1..]);
    }
  }

  /** The value of a mask is that of a word which decodes, unless it is all ones or nothing. */
  lemma MaskDecoded(fields: int, size: nat)
    requires 0 <= fields < 0x80_0000 && (size == 64 || (size == 32 && fields < 0x40_0000))
    ensures var x := MaskValue(fields, size);
      x < Pow2(size) && (x == 0 || x == Pow2(size) - 1 || Decoded(Word(x, size)))
  {
    hide Element, Replicate, Value, Word, Pow2;
    var n, immr, imms := FieldN(fields), FieldImmr(fields), FieldImms(fields);
    FieldsSmall(fields);
    var e := ElementSize(n, imms);
    if e > 0 {
      var w := Replicate(Element(e, immr % e, imms % e), size);
      ValueBits(w);
      if imms % e == e - 1 {
        AllOnes(e, immr % e, size);
        OnesValue(w);
      } else {
        assert Decodes(n, immr, imms, size, w);
      }
    }
  }

  lemma FieldsSmall(fields: int)
    requires 0 <= fields < 0x80_0000
    ensures 0 <= FieldN(fields) < 2 && FieldImmr(fields) < 0x40 && FieldImms(fields) < 0x40
    ensures fields < 0x40_0000 ==> FieldN(fields) == 0
  {
  }

  lemma AllOnes(e: nat, r: nat, size: nat)
    requires 0 < e && r < e
    ensures Replicate(Element(e, r, e - 1), size) == Fill(size, true)
  {
    var b := Element(e, r, e - 1);
    assert forall j :: 0 <= j < e ==> b[j];
    forall i | 0 <= i < size
      ensures Replicate(b, size)[i]
    {
      assert b[i % e];
    }
  }

  /** A run of ones in the lower half of 64 bits is one in 32 bits. */
  lemma LowerRun(r: nat, s: nat)
    requires r < 64 && s < 63 && forall j :: 32 <= j < 64 ==> !Element(64, r, s)[j]
    ensures r == 0 || r > 32
    ensures s < 31 ==> Element(64, r, s)[..32] == Element(32, if r == 0 then 0 else r - 32, s)
    ensures s >= 31 ==> r == 0 && s == 31
  {
    var b := Element(64, r, s);
    assert !b[32];
    if r > 0 {
      FirstOne(r, s);
    }
  }

  lemma FirstOne(r: nat, s: nat)
    requires 0 < r < 64
    ensures Element(64, r, s)[64 - r]
  {
  }

  lemma {:induction false} WordHigh(x: nat, n: nat, m: nat)
    requires m <= n
    ensures Word(x, n)[m..] == Word(x / Pow2(m), n - m)
    decreases m
  {
    if m > 0 {
      WordHigh(x / 2, n - 1, m - 1);
      DivideTwice(x, Pow2(m - 1));
      assert Word(x, n)[m..] == Word(x / 2, n - 1)[m - 1..];
    }
  }

  lemma DivideTwice(x: nat, t: nat)
    requires t > 0
    ensures x / 2 / t == x / (2 * t)
  {
    var q, r := x / 2 / t, x / 2 % t;
    assert x == 2 * (q * t + r) + x % 2;
    assert x == q * (2 * t) + (2 * r + x % 2);
    QuotientUnique(x, 2 * t, q, 2 * r + x % 2);
  }

  lemma QuotientUnique(x: nat, d: nat, q: nat, r: nat)
    requires d > 0 && x == q * d + r && r < d
    ensures x / d == q
  {
    MulGrows(x / d, q, d);
    MulGrows(q, x / d, d);
    assert x == (x / d) * d + x % d;
  }

  lemma {:induction false} WordZero(n: nat)
    ensures Word(0, n) == Fill(n, false)
    decreases n
  {
    if n > 0 {
      WordZero(n - 1);
    }
  }

  /** The upper half of a number below 2^32 is zero. */
  lemma UpperZero(x: nat)
    requires x < TWO32
    ensures forall j :: 32 <= j < 64 ==> !Word(x, 64)[j]
  {
    hide Word, Pow2;
    WordSizes();
    WordHigh(x, 64, 32);
    WordZero(32);
    forall j | 32 <= j < 64
      ensures !Word(x, 64)[j]
    {
      assert Word(x, 64)[j] == Word(x, 64)[32..][j - 32];
    }
  }

  /** Below 2^32, what decodes as 64 bits decodes as 32 bits or is all ones. */
  lemma DecodedLow(x: nat)
    requires 0 < x < TWO32 && Decoded(Word(x, 64))
    ensures Decoded(Word(x, 32)) || x == TWO32 - 1
  {
    hide Word, Pow2, ElementSize, Element, Replicate, Decoded;
    SomeDecoding(Word(x, 64));
    var n: nat, immr: nat, imms: nat :| Decodes(n, immr, imms, 64, Word(x, 64));
    var e := ElementSize(n, imms);
    var r, s := immr % e, imms % e;
    var b, w := Element(e, r, s), Word(x, 64);
    UpperZero(x);
    SizeOfElement(n, imms);
    if e <= 32 {
      SomeUpper(e, r, s);
      assert false;
    }
    ReplicateWhole(b);
    RunLow(x, r, s);
  }

  lemma RunLow(x: nat, r: nat, s: nat)
    requires x < TWO32 && r < 64 && s < 63 && Word(x, 64) == Element(64, r, s)
    ensures Decoded(Word(x, 32)) || x == TWO32 - 1
  {
    hide Word, Pow2, Element, Decoded;
    UpperZero(x);
    LowerRun(r, s);
    WordPrefix(x, 64, 32);
    if s < 31 {
      Decodes32(if r == 0 then 0 else r - 32, s, Word(x, 32));
    } else {
      LowRun(x);
      AllOnesLow(x);
    }
  }

  lemma LowRun(x: nat)
    requires Word(x, 64) == Element(64, 0, 31)
    ensures forall j :: 0 <= j < 32 ==> Word(x, 32)[j]
  {
    hide Word;
    WordPrefix(x, 64, 32);
    assert forall j :: 0 <= j < 32 ==> Word(x, 32)[j] == Word(x, 64)[j];
  }

  lemma SomeDecoding(w: Bits)
    requires Decoded(w)
    ensures exists n: nat, immr: nat, imms: nat :: Decodes(n, immr, imms, |w|, w)
  {
  }

  lemma SizeOfElement(n: nat, imms: nat)
    ensures IsSize(ElementSize(n, imms)) || ElementSize(n, imms) == 0
  {
  }

  lemma Shifted32(j: nat, e: nat)
    requires IsSize(e) && e <= 32 && j < e
    ensures (32 + j) % e == j
  {
  }

  /** Repeated, a shorter element has a one in the upper half. */
  lemma SomeUpper(e: nat, r: nat, s: nat)
    requires IsSize(e) && e <= 32 && r < e
    ensures exists j :: 32 <= j < 64 && Replicate(Element(e, r, s), 64)[j]
  {
    var j := if r == 0 then 0 else e - r;
    Shifted32(j, e);
    assert Element(e, r, s)[j] && Replicate(Element(e, r, s), 64)[32 + j];
  }

  lemma Decodes32(q: nat, s: nat, w: Bits)
    requires q < 32 && s < 31 && w == Element(32, q, s)
    ensures Decoded(w)
  {
    hide Element, Replicate;
    ReplicateWhole(w);
    assert ElementSize(0, s) == 32;
    assert q % 32 == q && s % 32 == s;
    assert Decodes(0, q, s, 32, w);
  }

  lemma ReplicateWhole(w: Bits)
    requires w != []
    ensures Replicate(w, |w|) == w
  {
  }

  lemma AllOnesLow(x: nat)
    requires x < TWO32 && forall j :: 0 <= j < 32 ==> Word(x, 32)[j]
    ensures x == TWO32 - 1
  {
    hide Word, Pow2;
    WordSizes();
    assert Word(x, 32) == Fill(32, true);
    ConstantValue(x, 32, true);
  }

  lemma MaskSimple(m: Move, x: nat)
    requires Alone(m, x) && (m.Orr? || m.OrrW?) && x > 0
    ensures Simple(x)
  {
    hide MaskValue, Word, Decoded, Half, Halves, Pow2;
    WordSizes();
    MaskDecoded(m.fields, if m.Orr? then 64 else 32);
    if m.Orr? && x < TWO32 && Decoded(Word(x, 64)) {
      DecodedLow(x);
    }
    if x == TWO32 - 1 {
      OneHalf(x, 0xffff, 0xffff);
    }
  }

  /** A value that one move leaves has one of these shapes. */
  lemma AloneSimple(m: Move, x: nat)
    requires Alone(m, x)
    ensures Simple(x)
  {
    hide Alone, Simple;
    if x == 0 {
      ZeroIsSimple();
    } else {
      match m
      case MovZ(_, _) => ZeroSimple(m, x);
      case MovN(_, _) => OnesSimple(m, x);
      case MovNW(_, _) => ShortSimple(m, x);
      case _ => NotKeep(m, x);
    }
  }

  lemma ZeroIsSimple()
    ensures Simple(0)
  {
  }

  lemma NotKeep(m: Move, x: nat)
    requires Alone(m, x) && x > 0 && !m.MovZ? && !m.MovN? && !m.MovNW?
    ensures Simple(x)
  {
    hide Simple;
    MaskSimple(m, x);
  }

  // ------------------------------------------------ the encoding that is not used

  /** The value whose encoding is the all-zero field, which is taken for no encoding. */
  const UNUSED: nat := 0x1_0000_0001

  lemma {:induction false} WordMod(x: nat, k: nat, n: nat)
    ensures Word(x + k * Pow2(n), n) == Word(x, n)
    decreases n
  {
    if n > 0 {
      var p := Pow2(n - 1);
      assert k * Pow2(n) == 2 * (k * p);
      assert (x + k * Pow2(n)) / 2 == x / 2 + k * p && (x + k * Pow2(n)) % 2 == x % 2;
      WordMod(x / 2, k, n - 1);
    }
  }

  lemma LowestBit()
    ensures Word(1, 32) == Element(32, 0, 0)
  {
    WordZero(31);
    assert Word(1, 32) == [true] + Word(0, 31);
  }

  lemma UnusedWord()
    ensures Word(UNUSED, 64) == Replicate(Element(32, 0, 0), 64)
  {
    hide Word, Pow2, Element;
    WordSizes();
    LowestBit();
    WordPrefix(UNUSED, 64, 32);
    WordHigh(UNUSED, 64, 32);
    WordMod(1, 1, 32);
    var w, b := Word(UNUSED, 64), Element(32, 0, 0);
    assert w[..32] == b && w[32..] == b;
    forall i | 0 <= i < 64
      ensures w[i] == b[i % 32]
    {
      assert w[i] == if i < 32 then w[..32][i] else w[32..][i - 32];
    }
  }

  /** One move would do for it. */
  lemma UnusedUnencoded()
    ensures Unencoded(Word(UNUSED, 64)) && Alone(Orr(0), UNUSED)
  {
    hide Word, Pow2, Element, Replicate, Value;
    UnusedWord();
    WordSizes();
    WordValue(UNUSED, 64);
    assert ElementSize(0, 0) == 32;
    assert Decodes(0, 0, 0, 64, Word(UNUSED, 64));
  }

  lemma ZeroField(x: nat, n: nat)
    requires (n == 32 && x < TWO32) || (n == 64 && x < TWO64)
    requires Decodes(0, 0, 0, n, Word(x, n))
    ensures x == if n == 32 then 1 else UNUSED
  {
    hide Word, Pow2, Element, Replicate;
    WordSizes();
    LowestBit();
    UnusedWord();
    WordValue(x, n);
    WordValue(1, 32);
    WordValue(UNUSED, 64);
    ReplicateWhole(Word(1, 32));
    assert ElementSize(0, 0) == 32;
  }

  /** Without an encoding, or with that one. */
  lemma UnencodedWord(x: nat, n: nat)
    requires (n == 32 && x < TWO32) || (n == 64 && x < TWO64)
    requires Unencoded(Word(x, n)) && x != if n == 32 then 1 else UNUSED
    ensures !Decoded(Word(x, n))
  {
    hide Word, Decodes;
    if Decodes(0, 0, 0, n, Word(x, n)) {
      ZeroField(x, n);
    }
  }

  // --------------------------------------------------------------- the methods

  /** The two loops at the end: one move for each half that is not all ones, after
      MOVN, or not all zeros, after MOVZ. */
  method MoveHalves(imm: nat, negated: bool) returns (code: seq<Move>)
    requires imm < TWO64 && imm != if negated then TWO64 - 1 else 0
    ensures Loads(code, imm) && 1 <= |code| <= 4 && |code| == 4 - Halves(imm, if negated then 0xffff else 0)
  {
    hide Building, Loads, Half;
    ghost var skip := if negated then 0xffff else 0;
    var y, i: nat := if negated then TWO64 - 1 - imm else imm, 0;
    ghost var y0 := y;
    code := [];
    BuildNothing(imm, negated);
    while i < 4
      invariant 0 <= i <= 4 && |code| == i - Counted(imm, skip, i) && Building(code, imm, i, negated)
      invariant y >= 0 && (i < 4 ==> y == y0 / Unit(i))
    {
      SeenHalf(y0, i);
      ComplementHalf(imm, i);
      var h := y % TWO16;
      if h == 0 {
        BuildSkip(code, imm, i, negated);
      } else if code == [] {
        BuildFirst(imm, i, negated);
        code := [if negated then MovN(h, i) else MovZ(h, i)];
      } else {
        BuildNext(code, imm, i, negated);
        code := code + [MovK(if negated then TWO16 - 1 - h else h, i)];
      }
      if i < 3 {
        NextUnit(y0, i);
      }
      y := y / TWO16;
      i := i + 1;
    }
    BuildDone(code, imm, negated);
    LoadsSome(code, imm);
  }

  lemma LoadsSome(code: seq<Move>, x: nat)
    requires Loads(code, x)
    ensures code != []
  {
    assert AllMoved(code, x) == x && AllMoved(code, x + 1) == x;
  }

  lemma BuildNothing(x: nat, negated: bool)
    ensures Building([], x, 0, negated)
  {
  }

  lemma SeenHalf(x: nat, i: nat)
    ensures x / Unit(i) % TWO16 == Half(x, i)
  {
  }

  lemma OneMove(m: Move, x: nat)
    requires MoveFits(m) && forall before :: Moved(m, before) == x
    ensures Loads([m], x)
  {
    hide Moved;
    forall before
      ensures AllMoved([m], before) == x
    {
      MovedLast([], m, before);
      assert [] + [m] == [m];
    }
  }

  lemma TwoMoves(m: Move, k: Move, x: nat)
    requires MoveFits(m) && MoveFits(k) && forall before :: Moved(k, Moved(m, before)) == x
    ensures Loads([m, k], x)
  {
    hide Moved;
    forall before
      ensures AllMoved([m, k], before) == x
    {
      MovedLast([], m, before);
      MovedLast([m], k, before);
      assert [] + [m] == [m] && [m] + [k] == [m, k];
    }
  }

  /** Half-words that are all ones, or all zeros. */
  method CountHalves(imm: nat) returns (zeros: nat, ones: nat)
    requires imm < TWO64
    ensures zeros == Halves(imm, 0) && ones == Halves(imm, 0xffff)
  {
    hide Half;
    zeros, ones := 0, 0;
    var simm, i := imm, 4;
    while i > 0
      invariant 0 <= i <= 4 && simm >= 0 && (i > 0 ==> simm == imm / Unit(4 - i))
      invariant zeros == Counted(imm, 0, 4 - i) && ones == Counted(imm, 0xffff, 4 - i)
    {
      SeenHalf(imm, 4 - i);
      if i > 1 {
        NextUnit(imm, 4 - i);
      }
      if simm % TWO16 == 0 {
        zeros := zeros + 1;
      }
      if simm % TWO16 == TWO16 - 1 {
        ones := ones + 1;
      }
      simm := simm / TWO16;
      i := i - 1;
    }
  }

  // --------------------------------------------------------------- load_immediate

  /** One move for a simple value; for any other no more than the half-words that are not all
      zeros, and than those that are not all ones. */
  ghost predicate Short(code: seq<Move>, x: nat) {
    && (Simple(x) ==> |code| == 1)
    && (|code| == 1 || (|code| <= 4 - Halves(x, 0) && |code| <= 4 - Halves(x, 0xffff)))
  }

  /** Values of 17 to 32 bits. */
  method LoadLow(imm: nat) returns (code: seq<Move>)
    requires 0xffff < imm <= 0xffff_ffff
    ensures Loads(code, imm) && |code| <= 2 && Short(code, imm)
  {
    hide Loads, Word;
    var low, high := imm % TWO16, imm / TWO16;
    if low == 0 {
      WideMove(MovZ(high, 1), imm);
      return [MovZ(high, 1)];
    }
    if high == 0xffff {
      WideMove(MovNW(0xffff - low, 0), imm);
      return [MovNW(0xffff - low, 0)];
    }
    if low == 0xffff {
      WideMove(MovNW(0xffff - high, 1), imm);
      return [MovNW(0xffff - high, 1)];
    }
    LowWord(imm);
    var bitmask := EncodeLogicalImm(Word(imm, 64), 16, false);
    if bitmask != 0 {
      MaskMoveW(imm, bitmask);
      return [OrrW(bitmask)];
    }
    LowPair(imm);
    UnencodedWord(imm, 32);
    OneHalf(imm, low, high);
    FourHalves(imm, low, high, 0, 0);
    return [MovZ(low, 0), MovK(high, 1)];
  }

  lemma LowWord(x: nat)
    requires 0xffff < x < 0xffff_ffff
    ensures Word(x, 64)[..2 * 16] == Word(x, 32) && !Constant(Word(x, 32))
  {
    WordPrefix(x, 64, 32);
    NotConstantWord(x, 32);
  }

  lemma LowPair(x: nat)
    requires x < TWO32
    ensures Loads([MovZ(x % TWO16, 0), MovK(x / TWO16, 1)], x)
  {
    TwoMoves(MovZ(x % TWO16, 0), MovK(x / TWO16, 1), x);
  }

  lemma MaskMoveW(x: nat, fields: int)
    requires x < TWO32 && 0 <= fields < 0x80_0000
    requires Decodes(FieldN(fields), FieldImmr(fields), FieldImms(fields), 32, Word(x, 32))
    ensures Loads([OrrW(fields)], x)
  {
    hide MaskValue, FieldImmr, FieldImms, Element, Replicate;
    MaskLoads(x, fields, 32);
    OneMove(OrrW(fields), x);
  }

  /** Negative values of at most 32 bits. */
  method LoadNegative(imm: nat) returns (code: seq<Move>)
    requires TWO64 - TWO32 <= imm < TWO64 - 0x1_0000
    ensures Loads(code, imm) && |code| <= 2 && (Decoded(Word(imm, 64)) || Short(code, imm))
  {
    hide Loads, Half, Decoded, Word;
    var low, high := imm % TWO16, imm / TWO16 % TWO16;
    NegativeHalves(imm);
    FourHalves(imm, low, high, 0xffff, 0xffff);
    if low == 0xffff {
      WideMove(MovN(0xffff - high, 1), imm);
      return [MovN(0xffff - high, 1)];
    }
    NegativePair(imm);
    return [MovN(0xffff - low, 0), MovK(high, 1)];
  }

  lemma NegativeHalves(x: nat)
    requires TWO64 - TWO32 <= x < TWO64
    ensures x == TWO64 - TWO32 + x / TWO16 % TWO16 * TWO16 + x % TWO16
  {
    var y := x - (TWO64 - TWO32);
    assert x == 0xffff_ffff_0000 * TWO16 + y;
    assert x / TWO16 == 0xffff_ffff_0000 + y / TWO16;
    assert y / TWO16 < TWO16;
    assert (0xffff_ffff * TWO16 + y / TWO16) % TWO16 == y / TWO16;
  }

  lemma NegativePair(x: nat)
    requires TWO64 - TWO32 <= x < TWO64
    ensures Loads([MovN(0xffff - x % TWO16, 0), MovK(x / TWO16 % TWO16, 1)], x)
  {
    NegativeHalves(x);
    var v := TWO64 - 1 - (0xffff - x % TWO16);
    assert v == 0xffff_ffff_ffff * TWO16 + x % TWO16;
    assert v / TWO16 == 0xffff_ffff_ffff;
    TwoMoves(MovN(0xffff - x % TWO16, 0), MovK(x / TWO16 % TWO16, 1), x);
  }

  /** `load_immediate` for the 64-bit value `imm`. */
  method LoadImmediate(imm: nat) returns (code: seq<Move>)
    requires imm < TWO64
    ensures Loads(code, imm) && |code| <= 4
    ensures imm != UNUSED ==> Short(code, imm)
    ensures |code| == 1 <==> imm != UNUSED && exists m :: Alone(m, imm)
  {
    code := ShortLoad(imm);
    if |code| == 1 {
      LoadsAlone(code, imm);
    }
    if m :| Alone(m, imm) {
      AloneSimple(m, imm);
    }
  }

  lemma LoadsAlone(code: seq<Move>, x: nat)
    requires |code| == 1 && Loads(code, x)
    ensures Alone(code[0], x)
  {
    var m := code[0];
    assert code == [] + [m];
    forall before ensures Moved(m, before) == x {
      MovedLast([], m, before);
    }
    assert Moved(m, 0) == x && Moved(m, 1) == x && Moved(m, TWO16) == x;
  }

  /** The tests one after the other. */
  method ShortLoad(imm: nat) returns (code: seq<Move>)
    requires imm < TWO64
    ensures Loads(code, imm) && |code| <= 4
    ensures imm != UNUSED ==> Short(code, imm)
    ensures imm == UNUSED ==> |code| == 2
  {
    hide Loads, Word, Decoded, Half;
    if imm <= 0xffff {
      WideMove(MovZ(imm, 0), imm);
      return [MovZ(imm, 0)];
    }
    if imm >= TWO64 - 0x1_0000 {
      WideMove(MovN(TWO64 - 1 - imm, 0), imm);
      return [MovN(TWO64 - 1 - imm, 0)];
    }
    if imm <= 0xffff_ffff {
      code := LoadLow(imm);
      return;
    }
    NotConstantWord(imm, 64);
    WordWhole(imm);
    var bitmask := EncodeLogicalImm(Word(imm, 64), 32, false);
    UnusedUnencoded();
    if bitmask != 0 {
      MaskMove(imm, bitmask);
      return [Orr(bitmask)];
    }
    if imm != UNUSED {
      UnencodedWord(imm, 64);
    } else {
      FourHalves(UNUSED, 1, 0, 1, 0);
    }
    if imm >= TWO64 - TWO32 {
      code := LoadNegative(imm);
      return;
    }
    var zeros, ones := CountHalves(imm);
    code := MoveHalves(imm, ones > zeros);
  }

  lemma WordWhole(x: nat)
    ensures Word(x, 64)[..2 * 32] == Word(x, 64)
  {
  }

  lemma WideMove(m: Move, x: nat)
    requires MoveFits(m) && !m.MovK? && Moved(m, 0) == x
    ensures Loads([m], x)
  {
    OneMove(m, x);
  }

  lemma MaskMove(x: nat, fields: int)
    requires x < TWO64 && 0 <= fields < 0x80_0000
    requires Decodes(FieldN(fields), FieldImmr(fields), FieldImms(fields), 64, Word(x, 64))
    ensures Loads([Orr(fields)], x)
  {
    hide MaskValue, FieldImmr, FieldImms, Decodes;
    MaskLoads(x, fields, 64);
    OneMove(Orr(fields), x);
  }
}
