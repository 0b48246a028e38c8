/** Bit-mask immediates: the encoder `logical_imm` against the decoder of the Arm
    Architecture Reference Manual (DDI 0487), DecodeBitMasks(). */
module LogicalImm {

  /** A machine word as its bits, the lowest first. */
  type Bits = seq<bool>

  // ------------------------------------------------------------------- decoding

  predicate IsSize(e: nat) {
    e == 2 || e == 4 || e == 8 || e == 16 || e == 32 || e == 64
  }

  /** The element: a run of `s + 1` ones in `e` bits, rotated right by `r`. */
  function Element(e: nat, r: nat, s: nat): (b: Bits)
    ensures |b| == e
  {
    seq(e, j requires 0 <= j < e => if j + r < e then j + r <= s else j + r - e <= s)
  }

  /** Copies of the element side by side, `size` bits in all. */
  function Replicate(b: Bits, size: nat): (w: Bits)
    requires b != []
    ensures |w| == size
  {
    seq(size, i requires 0 <= i < size => b[i % |b|])
  }

  /** The element size that `n` and `imms` stand for; 0 for the reserved ones. */
  function ElementSize(n: nat, imms: nat): nat {
    if n == 1 then 64
    else if imms < 0x20 then 32
    else if imms < 0x30 then 16
    else if imms < 0x38 then 8
    else if imms < 0x3c then 4
    else if imms < 0x3e then 2
    else 0
  }

  /** DecodeBitMasks() for a logical immediate of `size` bits; a run of all ones is reserved. */
  predicate Decodes(n: nat, immr: nat, imms: nat, size: nat, w: Bits) {
    var e := ElementSize(n, imms);
    && n < 2 && immr < 0x40 && imms < 0x40 && 0 < e <= size
    && imms % e != e - 1
    && w == Replicate(Element(e, immr % e, imms % e), size)
  }

  // ----------------------------------------------------------------- half sizes

  predicate HalvesEqual(b: Bits) {
    |b| % 2 == 0 && b[..|b| / 2] == b[|b| / 2..]
  }

  /** A word that repeats its first `e` bits. */
  predicate Repeats(w: Bits, e: nat) {
    0 < e <= |w| && w == Replicate(w[..e], |w|)
  }

  /** Halving the period: the lower half of the first `e` bits equals the upper one. */
  lemma RepeatsHalf(w: Bits, e: nat)
    requires IsSize(e) && Repeats(w, e) && (|w| == 32 || |w| == 64) && HalvesEqual(w[..e])
    ensures Repeats(w, e / 2)
  {
    var h := e / 2;
    var b := w[..e];
    forall i | 0 <= i < |w|
      ensures w[i] == w[..h][i % h]
    {
      HalfMod(i, e);
      var m := i % e;
      assert w[i] == b[m];
      if m >= h {
        Opposite(b, m);
      }
      assert w[..h][i % h] == b[i % h];
    }
  }

  lemma HalfMod(i: nat, e: nat)
    requires IsSize(e)
    ensures i % (e / 2) == if i % e < e / 2 then i % e else i % e - e / 2
  {
    var h, q, m := e / 2, i / e, i % e;
    assert i == q * e + m && e == 2 * h;
    assert q * e == (2 * q) * h;
    if m < h {
      ModIs(i, 2 * q, h, m);
    } else {
      assert (2 * q + 1) * h == (2 * q) * h + h;
      ModIs(i, 2 * q + 1, h, m - h);
    }
  }

  lemma ModIs(x: nat, q: nat, h: nat, r: nat)
    requires 0 < h && x == q * h + r && r < h
    ensures x % h == r
  {
    MulGrows(x / h, q, h);
    MulGrows(q, x / h, h);
    assert x == (x / h) * h + x % h;
  }

  lemma {:induction false} MulGrows(a: nat, b: nat, h: nat)
    ensures a > b ==> a * h >= b * h + h
    decreases a
  {
    if a > b {
      assert a * h == (a - 1) * h + h;
      MulGrows(a - 1, b, h);
    }
  }

  /** A rotated run of ones never has two equal halves. */
  lemma ElementHalves(e: nat, r: nat, s: nat)
    requires IsSize(e) && r < e && s < e - 1
    ensures !HalvesEqual(Element(e, r, s))
  {
    var b, h := Element(e, r, s), e / 2;
    // the highest one of the run, the zero above it, and their opposites
    var i := if s >= r then s - r else s - r + e;
    var j := if i + 1 < e then i + 1 else 0;
    assert b[i] && !b[j];
    if HalvesEqual(b) {
      Opposite(b, i);
      Opposite(b, j);
      assert false;
    }
  }

  lemma Opposite(b: Bits, i: nat)
    requires HalvesEqual(b) && i < |b|
    ensures b[i] == b[if i < |b| / 2 then i + |b| / 2 else i - |b| / 2]
  {
    var h := |b| / 2;
    if i < h {
      assert b[..h][i] == b[h..][i];
    } else {
      assert b[..h][i - h] == b[h..][i - h];
    }
  }

  lemma RepeatsBigger(w: Bits, e: nat, f: nat)
    requires IsSize(e) && IsSize(f) && e < f <= |w| && Repeats(w, e) && (|w| == 32 || |w| == 64)
    ensures HalvesEqual(w[..f])
  {
    var h := f / 2;
    forall i | 0 <= i < h
      ensures w[..f][i] == w[..f][i + h]
    {
      ModSame(i, h, e);
      assert w[i] == w[..e][i % e] && w[i + h] == w[..e][(i + h) % e];
    }
    assert w[..f][..h] == w[..f][h..];
  }

  lemma ModSame(i: nat, h: nat, e: nat)
    requires IsSize(e) && (h == 2 || h == 4 || h == 8 || h == 16 || h == 32) && e <= h
    ensures (i + h) % e == i % e
  {
    var k := PowerMultiple(h, e);
    Shifted(i, k, e);
  }

  lemma PowerMultiple(h: nat, e: nat) returns (k: nat)
    requires IsSize(e) && (h == 2 || h == 4 || h == 8 || h == 16 || h == 32) && e <= h
    ensures h == k * e
  {
    k := if h == e then 1 else if h == 2 * e then 2 else if h == 4 * e then 4 else if h == 8 * e then 8 else 16;
  }

  lemma {:induction false} Shifted(i: nat, k: nat, e: nat)
    requires IsSize(e)
    ensures (i + k * e) % e == i % e
    decreases k
  {
    if k > 0 {
      Shifted(i, k - 1, e);
      assert i + k * e == i + (k - 1) * e + e;
      OneMore(i + (k - 1) * e, e);
    }
  }

  lemma OneMore(y: nat, e: nat)
    requires IsSize(e)
    ensures (y + e) % e == y % e
  {
    if e == 2 {
      assert (y + 2) % 2 == y % 2;
    } else if e == 4 {
      assert (y + 4) % 4 == y % 4;
    } else if e == 8 {
      assert (y + 8) % 8 == y % 8;
    } else if e == 16 {
      assert (y + 16) % 16 == y % 16;
    } else if e == 32 {
      assert (y + 32) % 32 == y % 32;
    } else {
      assert (y + 64) % 64 == y % 64;
    }
  }

  // ---------------------------------------------------------------- the encoder

  /** The position of the lowest one. */
  function First(w: Bits): (k: nat)
    ensures k <= |w| && (forall i :: 0 <= i < k ==> !w[i]) && (k < |w| ==> w[k])
  {
    if w == [] then 0 else if w[0] then 0 else 1 + First(w[1..])
  }

  function Fill(n: nat, bit: bool): (r: Bits)
    ensures |r| == n && forall i :: 0 <= i < n ==> r[i] == bit
  {
    seq(n, _ => bit)
  }

  function Not(w: Bits): (r: Bits)
    ensures |r| == |w| && forall i :: 0 <= i < |w| ==> r[i] == !w[i]
  {
    seq(|w|, i requires 0 <= i < |w| => !w[i])
  }

  /** Shifting right; a negative number shifts in ones. */
  function Shift(w: Bits, n: nat, sign: bool): (r: Bits)
    requires n <= |w|
    ensures |r| == |w|
  {
    w[n..] + Fill(n, sign)
  }

  predicate ZeroBelow(w: Bits, n: nat)
    requires n <= |w|
  {
    forall i :: 0 <= i < n ==> !w[i]
  }

  /** One test of COUNT_TRAILING_ZERO: when the lowest `step` bits are zero they are shifted out. */
  method CountStep(step: nat, result0: nat, value: Bits, sign: bool, ghost word: Bits) returns (result: nat, rest: Bits)
    requires |word| == 64 && result0 + 2 * step <= 64 && value == Shift(word, result0, sign)
    requires ZeroBelow(word, result0) && !ZeroBelow(word, result0 + 2 * step)
    ensures result0 <= result <= result0 + step && rest == Shift(word, result, sign)
    ensures ZeroBelow(word, result) && !ZeroBelow(word, result + step)
  {
    result, rest := result0, value;
    ZeroOn(word, result0, step, sign);
    if ZeroBelow(rest, step) {
      result := result + step;
      ShiftMore(word, result0, step, sign);
      rest := Shift(rest, step, sign);
    }
  }

  /** COUNT_TRAILING_ZERO: finds the lowest one by halving; the word is left shifted by the count. */
  method CountTrailingZero(value0: Bits, sign: bool) returns (result: nat, value: Bits)
    requires |value0| == 64 && !ZeroBelow(value0, 64)
    ensures result < 64 && value0[result] && ZeroBelow(value0, result)
    ensures value == Shift(value0, result, sign)
  {
    hide ZeroBelow, Shift;
    Unshifted(value0, sign);
    result, value := CountStep(32, 0, value0, sign, value0);
    result, value := CountStep(16, result, value, sign, value0);
    result, value := CountStep(8, result, value, sign, value0);
    result, value := CountStep(4, result, value, sign, value0);
    result, value := CountStep(2, result, value, sign, value0);
    result, value := CountStep(1, result, value, sign, value0);
    LowestFound(value0, result);
  }

  lemma Unshifted(w: Bits, sign: bool)
    ensures Shift(w, 0, sign) == w && ZeroBelow(w, 0)
  {
  }

  lemma LowestFound(w: Bits, n: nat)
    requires n <= |w| && ZeroBelow(w, n) && (n + 1 <= |w| ==> !ZeroBelow(w, n + 1)) && !ZeroBelow(w, |w|)
    ensures n < |w| && w[n]
  {
  }

  lemma ZeroOn(w: Bits, n: nat, step: nat, sign: bool)
    requires n + step <= |w| && ZeroBelow(w, n)
    ensures ZeroBelow(Shift(w, n, sign), step) <==> ZeroBelow(w, n + step)
  {
    var v := Shift(w, n, sign);
    assert forall i :: 0 <= i < step ==> v[i] == w[n + i];
    if ZeroBelow(v, step) {
      forall i | 0 <= i < n + step
        ensures !w[i]
      {
        if i >= n {
          assert v[i - n] == w[n + (i - n)];
        }
      }
    }
  }

  lemma ShiftMore(w: Bits, n: nat, step: nat, sign: bool)
    requires n + step <= |w|
    ensures Shift(Shift(w, n, sign), step, sign) == Shift(w, n + step, sign)
  {
  }

  // ------------------------------------------------------------ runs of ones

  /** The element with a zero as its lowest bit: itself, or its complement. */
  function Folded(b: Bits): Bits
    requires b != []
  {
    if b[0] then Not(b) else b
  }

  /** Zeros, then `ones` ones, then zeros. */
  predicate IsRun(v: Bits, right: nat, ones: nat) {
    right + ones <= |v| && forall j :: 0 <= j < |v| ==> (v[j] <==> right <= j < right + ones)
  }

  /** `immr` and the low part of `imms`, from the run. */
  function RunRotate(e: nat, negated: bool, right: nat, ones: nat): int {
    if negated then e - ones - right else e - right
  }

  function RunLength(e: nat, negated: bool, right: nat, ones: nat): int {
    if negated then e - ones - 1 else ones - 1
  }

  /** The fields computed from the run describe exactly the element. */
  lemma RunDecodes(b: Bits, right: nat, ones: nat)
    requires b != [] && IsRun(Folded(b), right, ones) && 0 < ones && 0 < right
    ensures var e, r, s := |b|, RunRotate(|b|, b[0], right, ones), RunLength(|b|, b[0], right, ones);
      0 <= r < e && 0 <= s < e - 1 && b == Element(e, r, s)
  {
    var e, r, s := |b|, RunRotate(|b|, b[0], right, ones), RunLength(|b|, b[0], right, ones);
    forall j | 0 <= j < e
      ensures b[j] == Element(e, r, s)[j]
    {
      assert Folded(b)[j] <==> right <= j < right + ones;
    }
  }

  /** Every element, folded, is a run of ones. */
  lemma ElementIsRun(e: nat, r: nat, s: nat) returns (right: nat, ones: nat)
    requires IsSize(e) && r < e && s < e - 1
    ensures 0 < right && 0 < ones && IsRun(Folded(Element(e, r, s)), right, ones)
  {
    var b := Element(e, r, s);
    if b[0] {
      // ones at the bottom: the zeros make the run
      right, ones := s + 1 - r, e - 1 - s;
    } else {
      right, ones := e - r, s + 1;
    }
  }

  lemma RunUnique(v: Bits, right: nat, ones: nat, right1: nat, ones1: nat)
    requires IsRun(v, right, ones) && IsRun(v, right1, ones1) && 0 < ones && 0 < ones1
    ensures right == right1 && ones == ones1
  {
    assert v[right] && v[right1];
    assert v[right + ones - 1] && v[right1 + ones1 - 1];
  }

  // ------------------------------------------------------- what the word decides

  predicate Constant(w: Bits) {
    w == Fill(|w|, false) || w == Fill(|w|, true)
  }

  /** The smallest period: `e` bits repeat and their halves differ. */
  predicate Period(w: Bits, e: nat) {
    IsSize(e) && e <= |w| && Repeats(w, e) && !HalvesEqual(w[..e])
  }

  lemma RepeatedStart(b: Bits, size: nat)
    requires 0 < |b| <= size
    ensures Replicate(b, size)[..|b|] == b && Repeats(Replicate(b, size), |b|)
  {
    assert Replicate(b, size)[..|b|] == b;
  }

  /** An encoding of the word describes its smallest period. */
  lemma EncodingIsPeriod(n: nat, immr: nat, imms: nat, w: Bits, e: nat)
    requires (|w| == 32 || |w| == 64) && Period(w, e) && Decodes(n, immr, imms, |w|, w)
    ensures ElementSize(n, imms) == e && w[..e] == Element(e, immr % e, imms % e)
    ensures immr % e < e && imms % e < e - 1
  {
    hide Element, Replicate, HalvesEqual;
    var f := ElementSize(n, imms);
    var b := Element(f, immr % f, imms % f);
    RepeatedStart(b, |w|);
    ElementHalves(f, immr % f, imms % f);
    if f < e {
      RepeatsBigger(w, f, e);
    } else if e < f {
      RepeatsBigger(w, e, f);
    }
  }

  /** `ins` is empty for words without an encoding, and for the one word whose
      encoding is the all-zero field. */
  ghost predicate Unencoded(w: Bits) {
    (forall n: nat, immr: nat, imms: nat :: !Decodes(n, immr, imms, |w|, w)) || Decodes(0, 0, 0, |w|, w)
  }

  lemma NotARun(w: Bits, e: nat)
    requires (|w| == 32 || |w| == 64) && Period(w, e)
    requires forall right: nat, ones: nat :: 0 < right && 0 < ones ==> !IsRun(Folded(w[..e]), right, ones)
    ensures forall n: nat, immr: nat, imms: nat :: !Decodes(n, immr, imms, |w|, w)
  {
    hide Decodes, IsRun, Folded, Period, Element;
    forall n: nat, immr: nat, imms: nat
      ensures !Decodes(n, immr, imms, |w|, w)
    {
      if Decodes(n, immr, imms, |w|, w) {
        EncodingIsPeriod(n, immr, imms, w, e);
        PeriodSize(w, e);
        var right, ones := ElementIsRun(e, immr % e, imms % e);
      }
    }
  }

  lemma PeriodSize(w: Bits, e: nat)
    requires Period(w, e)
    ensures IsSize(e) && e <= |w|
  {
  }

  /** The three fields in their places. */
  function Packed(n: nat, immr: nat, imms: nat): int {
    n * 0x40_0000 + immr * 0x1_0000 + imms * 0x400
  }

  function FieldN(ins: int): int {
    ins / 0x40_0000
  }

  function FieldImmr(ins: int): nat {
    ins / 0x1_0000 % 0x40
  }

  function FieldImms(ins: int): nat {
    ins / 0x400 % 0x40
  }

  lemma Unpacked(n: nat, immr: nat, imms: nat)
    requires n < 2 && immr < 0x40 && imms < 0x40
    ensures var ins := Packed(n, immr, imms); FieldN(ins) == n && FieldImmr(ins) == immr && FieldImms(ins) == imms
    ensures 0 <= Packed(n, immr, imms) < 0x80_0000 && (Packed(n, immr, imms) == 0 <==> n == 0 && immr == 0 && imms == 0)
  {
    hide Packed;
    PackedSum(n, immr, imms);
    var ins := Packed(n, immr, imms);
    var high := 0x40 * n + immr;
    Quotient(ins, 0x40_0000, n, immr * 0x1_0000 + imms * 0x400);
    Quotient(ins, 0x1_0000, high, imms * 0x400);
    Quotient(ins, 0x400, 0x40 * high + imms, 0);
    Quotient(high, 0x40, n, immr);
    Quotient(0x40 * high + imms, 0x40, high, imms);
  }

  lemma PackedSum(n: nat, immr: nat, imms: nat)
    requires n < 2 && immr < 0x40 && imms < 0x40
    ensures var ins := Packed(n, immr, imms);
      && 0 <= ins < 0x80_0000 && (ins == 0 <==> n == 0 && immr == 0 && imms == 0)
      && ins == 0x40_0000 * n + (immr * 0x1_0000 + imms * 0x400)
      && ins == 0x1_0000 * (0x40 * n + immr) + imms * 0x400
      && ins == 0x400 * (0x40 * (0x40 * n + immr) + imms)
  {
  }

  /** Division and remainder are what they are for one quotient alone. */
  lemma Quotient(x: int, unit: int, q: int, r: int)
    requires unit == 0x40 || unit == 0x400 || unit == 0x1_0000 || unit == 0x40_0000
    requires x == unit * q + r && 0 <= r < unit
    ensures x / unit == q && x % unit == r
  {
    if unit == 0x40 {
      assert x == 0x40 * q + r;
    } else if unit == 0x400 {
      assert x == 0x400 * q + r;
    } else if unit == 0x1_0000 {
      assert x == 0x1_0000 * q + r;
    } else {
      assert x == 0x40_0000 * q + r;
    }
  }

  function HighImms(e: nat): int {
    if e == 64 then 0 else 0x3f - (2 * e - 1)
  }

  lemma FieldsDecode(w: Bits, e: nat, r: nat, s: nat)
    requires IsSize(e) && e <= |w| && Repeats(w, e) && r < e && s < e - 1 && w[..e] == Element(e, r, s)
    ensures var n, imms := if e == 64 then 1 else 0, HighImms(e) + s;
      0 <= imms < 0x40 && Decodes(n, r, imms, |w|, w)
        && (n == 0 && r == 0 && imms == 0 <==> e == 32 && r == 0 && s == 0)
  {
    hide Element, Replicate;
  }

  lemma ZeroField(w: Bits, e: nat, right: nat, ones: nat)
    requires (|w| == 32 || |w| == 64) && Period(w, e) && IsRun(Folded(w[..e]), right, ones) && 0 < right && 0 < ones
    ensures var b := w[..e];
      Decodes(0, 0, 0, |w|, w) <==>
        e == 32 && RunRotate(e, b[0], right, ones) == 0 && RunLength(e, b[0], right, ones) == 0
  {
    var b := w[..e];
    RunDecodes(b, right, ones);
    if Decodes(0, 0, 0, |w|, w) {
      EncodingIsPeriod(0, 0, 0, w, e);
      var right1, ones1 := ElementIsRun(32, 0, 0);
      RunUnique(Folded(b), right, ones, right1, ones1);
      assert b[0] && Folded(b)[1] && !Folded(b)[0] && Folded(b)[31];
    }
  }

  // --------------------------------------------------------------- logical_imm

  lemma NoPeriodOne(w: Bits)
    requires |w| > 0 && Repeats(w, 2) && HalvesEqual(w[..2])
    ensures Constant(w)
  {
    var b := w[..2];
    Opposite(b, 0);
    forall i | 0 <= i < |w|
      ensures w[i] == w[0]
    {
      assert w[i] == b[i % 2];
      assert b[0] == w[0];
    }
    assert w == Fill(|w|, w[0]);
  }

  lemma WholeRepeats(w: Bits)
    requires |w| > 0
    ensures Repeats(w, |w|)
  {
    assert w[..|w|] == w;
  }

  /** The loop: halves the length until the two halves of the element differ. */
  method FindPeriod(imm: Bits, half: nat) returns (e: nat)
    requires |imm| == 64 && (half == 16 || half == 32) && !Constant(imm[..2 * half])
    ensures Period(imm[..2 * half], e)
  {
    hide Repeats, Constant, HalvesEqual;
    ghost var w := imm[..2 * half];
    var len := half;
    WholeRepeats(w);
    while imm[..len] == imm[len..2 * len]
      invariant len == 1 || len == 2 || len == 4 || len == 8 || len == 16 || len == 32
      invariant 2 * len <= |w| && Repeats(w, 2 * len)
      decreases len
    {
      HalvesSeen(imm, w, len);
      if len == 1 {
        NoPeriodOne(w);
        assert false;
      }
      RepeatsHalf(w, 2 * len);
      len := len / 2;
    }
    HalvesSeen(imm, w, len);
    e := 2 * len;
  }

  lemma HalvesSeen(imm: Bits, w: Bits, len: nat)
    requires 0 < len && 2 * len <= |w| <= |imm| && w == imm[..|w|]
    ensures HalvesEqual(w[..2 * len]) <==> imm[..len] == imm[len..2 * len]
  {
    var b := w[..2 * len];
    assert b[..len] == imm[..len] && b[len..] == imm[len..2 * len];
  }

  /** The word that is counted: the folded element, and zeros above it. */
  function Padded(b: Bits): Bits
    requires 0 < |b| <= 64
  {
    Folded(b) + Fill(64 - |b|, false)
  }

  lemma PaddedBits(imm: Bits, e: nat)
    requires |imm| == 64 && IsSize(e)
    ensures var u := if imm[0] then Not(imm) else imm;
      Padded(imm[..e]) == if e < 64 then u[..e] + Fill(64 - e, false) else u
  {
  }

  lemma FoldedLow(b: Bits)
    requires b != []
    ensures |Folded(b)| == |b| && !Folded(b)[0]
  {
  }

  /** Both counts of a word: its lowest one, and the ones from there on. */
  predicate Counted(u: Bits, right: nat, ones: nat, rest: Bits) {
    && |u| == 64 && right < 64 && u[right] && ZeroBelow(u, right)
    && var m := Not(Shift(u, right, false));
    ones < 64 && m[ones] && ZeroBelow(m, ones) && rest == Shift(m, ones, true)
  }

  lemma CountedHere(u: Bits, right: nat, ones: nat, rest: Bits)
    requires |u| == 64 && right < 64 && u[right] && ZeroBelow(u, right)
    requires var m := Not(Shift(u, right, false));
      ones < 64 && m[ones] && ZeroBelow(m, ones) && rest == Shift(m, ones, true)
    ensures Counted(u, right, ones, rest)
  {
  }

  lemma CountedBits(u: Bits, right: nat, ones: nat, rest: Bits)
    requires Counted(u, right, ones, rest)
    ensures 0 < ones && |rest| == 64
    ensures forall j :: right <= j < 64 && j < right + ones ==> u[j]
    ensures right > 0 ==> right + ones <= 64
    ensures forall k :: 0 <= k && k + right + ones < 64 ==> (rest[k] <==> !u[k + right + ones])
    ensures forall k :: 0 <= k < 64 && k + right + ones >= 64 ==> rest[k]
  {
    var v := Shift(u, right, false);
    var m := Not(v);
    assert v[0] == u[right];
    forall j | right <= j < 64 && j < right + ones
      ensures u[j]
    {
      assert v[j - right] == u[j] && !m[j - right];
    }
    if right > 0 {
      assert m[64 - right];
    }
    forall k | 0 <= k < 64
      ensures if k + right + ones < 64 then rest[k] <==> !u[k + right + ones] else rest[k]
    {
      if k + ones < 64 {
        assert rest[k] == m[k + ones];
        if k + ones + right < 64 {
          assert v[k + ones] == u[k + ones + right];
        }
      }
    }
  }

  /** What the two counts say about the element. */
  lemma CountsAreRun(b: Bits, right: nat, ones: nat, rest: Bits)
    requires 0 < |b| <= 64 && Counted(Padded(b), right, ones, rest)
    ensures 0 < right && 0 < ones
    ensures rest == Fill(64, true) ==> IsRun(Folded(b), right, ones)
    ensures rest != Fill(64, true) ==> forall r: nat, n: nat :: 0 < r && 0 < n ==> !IsRun(Folded(b), r, n)
  {
    FoldedLow(b);
    CountedBits(Padded(b), right, ones, rest);
    if rest == Fill(64, true) {
      FullRun(b, right, ones, rest);
    }
    forall r: nat, n: nat | 0 < r && 0 < n && IsRun(Folded(b), r, n)
      ensures rest == Fill(64, true)
    {
      RunCounted(b, r, n, right, ones, rest);
    }
  }

  lemma FullRun(b: Bits, right: nat, ones: nat, rest: Bits)
    requires 0 < |b| <= 64 && Counted(Padded(b), right, ones, rest) && rest == Fill(64, true) && right > 0
    ensures IsRun(Folded(b), right, ones)
  {
    hide Folded;
    var u := Padded(b);
    FoldedLow(b);
    CountedBits(u, right, ones, rest);
    forall j | 0 <= j < |b|
      ensures Folded(b)[j] <==> right <= j < right + ones
    {
      assert u[j] == Folded(b)[j];
      if j >= right + ones {
        var k := j - right - ones;
        assert rest[k];
      }
    }
    assert u[right + ones - 1];
  }

  lemma RunCounted(b: Bits, r: nat, n: nat, right: nat, ones: nat, rest: Bits)
    requires 0 < |b| <= 64 && Counted(Padded(b), right, ones, rest) && 0 < r && 0 < n && IsRun(Folded(b), r, n)
    ensures rest == Fill(64, true)
  {
    hide Folded;
    var u := Padded(b);
    FoldedLow(b);
    assert forall j :: 0 <= j < |b| ==> u[j] == Folded(b)[j];
    assert u[r];
    assert right == r;
    CountedBits(u, right, ones, rest);
    var m := Not(Shift(u, right, false));
    if right + ones < 64 {
      assert m[ones] == !u[right + ones];
      assert !u[right + ones];
    }
    assert u[right + ones - 1];
    assert forall k :: 0 <= k < 64 ==> rest[k];
  }

  lemma IsConstant(w: Bits)
    ensures Constant(w) <==> w == Fill(|w|, false) || w == Fill(|w|, true)
  {
  }

  lemma ConstantUnencoded(w: Bits)
    requires (|w| == 32 || |w| == 64) && Constant(w)
    ensures Unencoded(w)
  {
    forall n: nat, immr: nat, imms: nat
      ensures !Decodes(n, immr, imms, |w|, w)
    {
      if Decodes(n, immr, imms, |w|, w) {
        var e := ElementSize(n, imms);
        var b := Element(e, immr % e, imms % e);
        RepeatedStart(b, |w|);
        ElementHalves(e, immr % e, imms % e);
        ConstantHalves(w, e);
      }
    }
  }

  lemma ConstantHalves(w: Bits, e: nat)
    requires Constant(w) && IsSize(e) && e <= |w|
    ensures HalvesEqual(w[..e])
  {
    assert w[..e][..e / 2] == w[..e][e / 2..];
  }

  lemma PaddedNotZero(w: Bits, e: nat)
    requires Period(w, e) && |w| <= 64
    ensures !ZeroBelow(Padded(w[..e]), 64)
  {
    if ZeroBelow(Padded(w[..e]), 64) {
      ZeroHalves(w[..e]);
    }
  }

  lemma ZeroHalves(b: Bits)
    requires 0 < |b| <= 64 && |b| % 2 == 0 && ZeroBelow(Padded(b), 64)
    ensures HalvesEqual(b)
  {
    forall i | 0 <= i < |b|
      ensures b[i] == b[0]
    {
      assert !Padded(b)[i];
    }
    assert b[..|b| / 2] == b[|b| / 2..];
  }

  lemma TopShifted(b: Bits, right: nat)
    requires 0 < |b| <= 64 && right < 64 && Padded(b)[right]
    ensures !ZeroBelow(Not(Shift(Padded(b), right, false)), 64)
  {
    FoldedLow(b);
    var m := Not(Shift(Padded(b), right, false));
    assert right > 0;
    assert m[63];
  }

  lemma NoneUnencoded(w: Bits)
    requires forall n: nat, immr: nat, imms: nat :: !Decodes(n, immr, imms, |w|, w)
    ensures Unencoded(w)
  {
  }

  lemma RunEncoded(w: Bits, e: nat, right: nat, ones: nat)
    requires (|w| == 32 || |w| == 64) && Period(w, e) && IsRun(Folded(w[..e]), right, ones) && 0 < right && 0 < ones
    ensures e > 0
    ensures var negated := w[..e][0];
      var n, r := if e == 64 then 1 else 0, RunRotate(e, negated, right, ones);
      var imms := HighImms(e) + RunLength(e, negated, right, ones);
      0 <= r < 0x40 && 0 <= imms < 0x40 &&
      var ins := Packed(n, r, imms);
      && 0 <= ins < 0x80_0000 && FieldN(ins) == n && FieldImmr(ins) == r && FieldImms(ins) == imms
      && Decodes(n, r, imms, |w|, w) && (ins == 0 <==> Unencoded(w))
  {
    hide Decodes, IsRun, Folded, Period, Element, FieldN, FieldImmr, FieldImms, Packed;
    PeriodSize(w, e);
    PeriodRepeats(w, e);
    var negated := w[..e][0];
    RunDecodes(w[..e], right, ones);
    var n, r, s := if e == 64 then 1 else 0, RunRotate(e, negated, right, ones), RunLength(e, negated, right, ones);
    FieldsDecode(w, e, r, s);
    Unpacked(n, r, HighImms(e) + s);
    ZeroField(w, e, right, ones);
  }

  lemma PeriodRepeats(w: Bits, e: nat)
    requires Period(w, e)
    ensures Repeats(w, e)
  {
  }

  /** `logical_imm`: the fields N, immr and imms in place, or 0. */
  method EncodeLogicalImm(imm: Bits, half: nat, check: bool) returns (ins: int)
    requires |imm| == 64 && (half == 16 || half == 32) && (!check ==> !Constant(imm[..2 * half]))
    ensures ins != 0 ==> 0 <= ins < 0x80_0000 && ins == Packed(FieldN(ins), FieldImmr(ins), FieldImms(ins))
    ensures ins != 0 ==> Decodes(FieldN(ins), FieldImmr(ins), FieldImms(ins), 2 * half, imm[..2 * half])
    ensures ins == 0 <==> Unencoded(imm[..2 * half])
  {
    hide Constant, Period, Counted, IsRun, Decodes, Unencoded, Folded, FieldN, FieldImmr, FieldImms, Padded, Shift,
      ZeroBelow, Packed, HighImms, RunRotate, RunLength;
    ghost var w := imm[..2 * half];
    if check && (imm[..2 * half] == Fill(2 * half, false) || imm[..2 * half] == Fill(2 * half, true)) {
      IsConstant(w);
      ConstantUnencoded(w);
      return 0;
    }
    IsConstant(w);
    var e := FindPeriod(imm, half);
    PeriodSize(w, e);
    ghost var b := w[..e];
    assert b == imm[..e];
    var negated, uimm := imm[0], imm;
    if negated {
      uimm := Not(imm);
    }
    if e < 64 {
      uimm := uimm[..e] + Fill(64 - e, false);
    }
    PaddedBits(imm, e);
    PaddedNotZero(w, e);
    var right, ones, rest;
    right, uimm := CountTrailingZero(uimm, false);
    TopShifted(b, right);
    ones, rest := CountTrailingZero(Not(uimm), true);
    assert Counted(Padded(b), right, ones, rest) by { CountedHere(Padded(b), right, ones, rest); }
    CountsAreRun(b, right, ones, rest);
    if rest != Fill(64, true) {
      NotARun(w, e);
      NoneUnencoded(w);
      return 0;
    }
    var n, high := if e == 64 then 1 else 0, HighImms(e);
    var r, s := RunRotate(e, negated, right, ones), RunLength(e, negated, right, ones);
    RunEncoded(w, e, right, ones);
    ins := Packed(n, r, high + s);
  }
}
