/** Which registers a function saves, where they lie in its stack frame, and how large
    the frame is. */
module FrameLayout {
  import opened StackFrame

  // ------------------------------------------------------------ places of the cells

  predicate Within(cells: seq<Cell>, low: int, high: int) {
    forall i :: 0 <= i < |cells| ==> low <= cells[i].unit <= high
  }

  lemma WithinConcat(a: seq<Cell>, b: seq<Cell>, low: int, mid: int, high: int)
    requires Within(a, mid, high) && Within(b, low, mid - 1) && low <= mid <= high + 1
    ensures Within(a + b, low, high)
  {
  }

  lemma DistinctConcat(a: seq<Cell>, b: seq<Cell>, low: int, mid: int, high: int)
    requires Distinct(a) && Distinct(b) && Within(a, mid, high) && Within(b, low, mid - 1)
    ensures Distinct(a + b)
  {
    var c := a + b;
    forall i, j | 0 <= i < j < |c|
      ensures c[i].unit != c[j].unit
    {
      assert j < |a| || i >= |a| || (c[i] == a[i] && c[j] == b[j - |a|]);
    }
  }

  lemma {:induction false} PairPlaces(float: bool, l: seq<int>, unit: int)
    ensures Within(PairCells(float, l, unit), Below(l, unit) + 2, unit + 1) && Distinct(PairCells(float, l, unit))
    decreases |l|
  {
    hide Within, Distinct;
    if |l| < 2 {
      NoCells(Below(l, unit) + 2, unit + 1);
    } else {
      RestBelow(l, unit);
      PairPlaces(float, l[2..], unit - 2);
      TwoCells(float, l[0], l[1], unit);
      WithinConcat([Cell(float, l[0], unit), Cell(float, l[1], unit + 1)], PairCells(float, l[2..], unit - 2),
                   Below(l, unit) + 2, unit, unit + 1);
      DistinctConcat([Cell(float, l[0], unit), Cell(float, l[1], unit + 1)], PairCells(float, l[2..], unit - 2),
                     Below(l, unit) + 2, unit, unit + 1);
    }
  }

  lemma NoCells(low: int, high: int)
    ensures Within([], low, high) && Distinct([])
  {
  }

  lemma TwoCells(float: bool, r: int, r2: int, unit: int)
    ensures var two := [Cell(float, r, unit), Cell(float, r2, unit + 1)]; Within(two, unit, unit + 1) && Distinct(two)
  {
  }

  lemma LastPlaces(ints: seq<int>, floats: seq<int>, unit: int)
    ensures Within(LastCells(ints, floats, unit), unit + 2 - |ints| % 2 - |floats| % 2, unit + 1)
    ensures Distinct(LastCells(ints, floats, unit))
  {
  }

  /** Every register has a word of its own, and together they take as many words as
      there are registers. */
  lemma BodyPlaces(ints: seq<int>, floats: seq<int>, unit: int)
    ensures Within(BodyCells(ints, floats, unit), unit + 2 - |ints| - |floats|, unit + 1)
    ensures Distinct(BodyCells(ints, floats, unit))
  {
    hide Within, Distinct, PairCells, LastCells;
    var u1 := Below(ints, unit);
    var u2 := Below(floats, u1);
    var low := unit + 2 - |ints| - |floats|;
    var x, y, z := PairCells(false, ints, unit), PairCells(true, floats, u1), LastCells(ints, floats, u2);
    PairPlaces(false, ints, unit);
    PairPlaces(true, floats, u1);
    LastPlaces(ints, floats, u2);
    assert u2 + 2 - |ints| % 2 - |floats| % 2 == low;
    WithinConcat(x, y, u2 + 2, u1 + 2, unit + 1);
    DistinctConcat(x, y, u2 + 2, u1 + 2, unit + 1);
    WithinConcat(x + y, z, low, u2 + 2, unit + 1);
    DistinctConcat(x + y, z, low, u2 + 2, unit + 1);
  }

  // ------------------------------------------------------------------ which registers

  lemma NamedConcat(a: seq<Cell>, b: seq<Cell>, f: bool, r: int)
    ensures Named(a + b, f, r) <==> Named(a, f, r) || Named(b, f, r)
  {
    var c := a + b;
    if i :| 0 <= i < |c| && c[i].float == f && c[i].r == r {
      assert i < |a| ==> a[i].float == f;
      assert i >= |a| ==> b[i - |a|].float == f;
    }
    if i :| 0 <= i < |a| && a[i].float == f && a[i].r == r {
      assert c[i].float == f;
    }
    if i :| 0 <= i < |b| && b[i].float == f && b[i].r == r {
      assert c[|a| + i].float == f;
    }
  }

  lemma {:induction false} PairNames(float: bool, l: seq<int>, unit: int, f: bool, r: int)
    ensures Named(PairCells(float, l, unit), f, r) || (f == float && r in Rest(l)) <==> f == float && r in l
    decreases |l|
  {
    hide Named;
    if |l| < 2 {
      NothingNamed(f, r);
    } else {
      RestBelow(l, unit);
      var two := [Cell(float, l[0], unit), Cell(float, l[1], unit + 1)];
      PairNames(float, l[2..], unit - 2, f, r);
      NamedConcat(two, PairCells(float, l[2..], unit - 2), f, r);
      TwoNames(float, l[0], l[1], unit, f, r);
      assert l == [l[0], l[1]] + l[2..];
    }
  }

  lemma NothingNamed(f: bool, r: int)
    ensures !Named([], f, r)
  {
  }

  lemma TwoNames(float: bool, a: int, b: int, unit: int, f: bool, r: int)
    ensures Named([Cell(float, a, unit), Cell(float, b, unit + 1)], f, r) <==> f == float && (r == a || r == b)
  {
    var two := [Cell(float, a, unit), Cell(float, b, unit + 1)];
    assert two[0].r == a && two[1].r == b;
  }

  lemma LastNames(ints: seq<int>, floats: seq<int>, unit: int, f: bool, r: int)
    ensures Named(LastCells(ints, floats, unit), f, r) <==> r in Rest(if f then floats else ints)
  {
    var cells := LastCells(ints, floats, unit);
    assert |floats| % 2 == 1 ==> cells[0] == Cell(true, floats[|floats| - 1], unit + 1);
    assert |ints| % 2 == 1 ==> cells[|cells| - 1].r == ints[|ints| - 1] && !cells[|cells| - 1].float;
  }

  /** The cells name exactly the registers on the two lists. */
  lemma BodyNames(ints: seq<int>, floats: seq<int>, unit: int, f: bool, r: int)
    ensures Named(BodyCells(ints, floats, unit), f, r) <==> r in if f then floats else ints
  {
    hide Named, PairCells, LastCells;
    var u1 := Below(ints, unit);
    var u2 := Below(floats, u1);
    var x, y, z := PairCells(false, ints, unit), PairCells(true, floats, u1), LastCells(ints, floats, u2);
    PairNames(false, ints, unit, f, r);
    PairNames(true, floats, u1, f, r);
    LastNames(ints, floats, u2, f, r);
    RestIn(ints, r);
    RestIn(floats, r);
    NamedConcat(x, y, f, r);
    NamedConcat(x + y, z, f, r);
  }

  lemma RestIn(l: seq<int>, r: int)
    ensures r in Rest(l) ==> r in l
  {
  }

  // --------------------------------------------------------------- the function

  datatype Arg = Word(scratch: bool) | Float

  /** The arguments of `sljit_emit_enter`: how many registers of each kind the function
      uses, its local variables in bytes, and whether it takes its arguments as they are. */
  datatype Func = Func(kept: nat, scratches: nat, saveds: nat, fscratches: nat, fsaveds: nat, locals: nat, regArg: bool,
                       args: seq<Arg>)

  /** Arguments that go to saved registers. */
  function SavedArgs(args: seq<Arg>, n: nat): nat
    requires n <= |args|
  {
    if n == 0 then 0 else SavedArgs(args, n - 1) + if args[n - 1].Word? && !args[n - 1].scratch then 1 else 0
  }

  function WordArgs(args: seq<Arg>, n: nat): nat
    requires n <= |args|
  {
    if n == 0 then 0 else WordArgs(args, n - 1) + if args[n - 1].Word? then 1 else 0
  }

  /** What `check_sljit_emit_enter` demands. */
  predicate Checked(f: Func) {
    && f.kept <= 3 && f.kept <= f.saveds <= 10 && f.scratches + f.saveds <= 26
    && f.fsaveds <= 8 && f.fscratches + f.fsaveds <= 30 && f.locals <= MAX_LOCAL
    && |f.args| <= 4 && (!f.regArg ==> f.kept == 0 && SavedArgs(f.args, |f.args|) <= f.saveds)
  }

  /** high, high - 1, ..., low + 1 */
  function Down(high: int, low: int): (l: seq<int>)
    ensures |l| == if high > low then high - low else 0
    decreases high - low
  {
    if high <= low then [] else [high] + Down(high - 1, low)
  }

  lemma {:induction false} DownNext(high: int, i: int)
    requires i <= high
    ensures Down(high, i) + [i] == Down(high, i - 1)
    decreases high - i
  {
    if i < high {
      DownNext(high - 1, i);
    }
  }

  lemma {:induction false} DownHas(high: int, low: int, r: int)
    ensures r in Down(high, low) <==> low < r <= high
    decreases high - low
  {
    if high > low {
      DownHas(high - 1, low, r);
    }
  }

  function Ints(f: Func): seq<int> {
    Down(S0 - f.kept, S0 - f.saveds) + Down(f.scratches, SCRATCH_REGS)
  }

  function Floats(f: Func): seq<int> {
    Down(FS0, FS0 - f.fsaveds) + Down(f.fscratches, SCRATCH_FLOATS)
  }

  /** The registers saved are those the function may write and its caller relies on
      (section 6.1 of the Procedure Call Standard for the Arm 64-bit Architecture). */
  lemma SavedSet(f: Func, r: int)
    ensures r in Ints(f) <==> (26 - f.saveds < r <= 26 - f.kept) || 17 <= r <= f.scratches
    ensures r in Floats(f) <==> (30 - f.fsaveds < r <= 30) || 23 <= r <= f.fscratches
  {
    hide Down;
    DownHas(S0 - f.kept, S0 - f.saveds, r);
    DownHas(f.scratches, SCRATCH_REGS, r);
    DownHas(FS0, FS0 - f.fsaveds, r);
    DownHas(f.fscratches, SCRATCH_FLOATS, r);
  }

  /** The numbers that the machine gives the registers. */
  const REG_MAP: seq<int> := [
    31, 0, 1, 2, 3, 4, 5, 6, 7, 11, 12, 13, 14, 15, 16, 17, 8, 28, 27, 26, 25, 24, 23, 22, 21, 20, 19, 31, 9, 10, 30, 29
  ]

  const FREG_MAP: seq<int> := [
    0, 0, 1, 2, 3, 4, 5, 6, 7, 16, 17, 18, 19, 20, 21, 22, 23, 24, 25, 26, 27, 28, 29, 15, 14, 13, 12, 11, 10, 9, 8, 30,
      31
  ]

  /** The registers that a function has to save are x19 to x28 and v8 to v15. */
  lemma CalleeSavedNumbers(r: int)
    requires 1 <= r <= 30
    ensures 17 <= r <= 26 <==> 19 <= REG_MAP[r] <= 28
    ensures 23 <= r <= 30 <==> 8 <= FREG_MAP[r] <= 15
    ensures 17 <= r <= 26 ==> REG_MAP[r] == 45 - r
    ensures 23 <= r <= 30 ==> FREG_MAP[r] == 38 - r
  {
  }

  function RoundUp16(x: int): int {
    x + 15 - (x + 15) % 16
  }

  lemma RoundUp16Fits(x: int)
    ensures x <= RoundUp16(x) < x + 16 && RoundUp16(x) % 16 == 0
  {
    var q := (x + 15) / 16;
    assert RoundUp16(x) == 16 * q;
  }

  /** Registers saved, and the frame pointer and link register. */
  function SavedSize(f: Func): int {
    8 * (|Ints(f)| + |Floats(f)| + 2)
  }

  function FrameSize(f: Func): int {
    RoundUp16(f.locals + SavedSize(f))
  }

  /** Where the registers are, in words from the stack pointer at the call. */
  function Homes(f: Func): seq<Cell> {
    BodyCells(Ints(f), Floats(f), -2)
  }

  lemma ListSizes(f: Func)
    requires Checked(f)
    ensures |Ints(f)| <= 10 && |Floats(f)| <= 8
  {
  }

  lemma SizeFits(f: Func)
    requires Checked(f)
    ensures 16 <= SavedSize(f) <= 160 && SavedSize(f) % 8 == 0
    ensures f.locals + SavedSize(f) <= FrameSize(f) < f.locals + SavedSize(f) + 16 && FrameSize(f) % 16 == 0
  {
    hide Ints, Floats;
    ListSizes(f);
    RoundUp16Fits(f.locals + SavedSize(f));
  }

  /** The saved registers lie above the local variables, which lie above the frame
      pointer and link register; nothing overlaps. */
  lemma HomesApart(f: Func)
    requires Checked(f)
    ensures Distinct(Homes(f))
    ensures forall i :: 0 <= i < |Homes(f)| ==> -FrameSize(f) + 16 + f.locals <= 8 * Homes(f)[i].unit <= -8
  {
    hide Ints, Floats, FrameSize, BodyCells, Distinct;
    SizeFits(f);
    BodyPlaces(Ints(f), Floats(f), -2);
    var cells := Homes(f);
    var n := |Ints(f)| + |Floats(f)|;
    forall i | 0 <= i < |cells|
      ensures -FrameSize(f) + 16 + f.locals <= 8 * cells[i].unit <= -8
    {
      assert -2 + 2 - n <= cells[i].unit <= -1;
    }
  }

  // ------------------------------------------------------------------- legal code

  lemma PairEncodable(load: bool, float: bool, r: int, r2: int, unit: int)
    requires 0 <= unit <= 63
    ensures Encodable(Pair(load, float, r, r2, unit))
  {
    Eight(unit);
  }

  lemma SingleEncodable(load: bool, float: bool, r: int, unit: int)
    requires 0 <= unit <= 64
    ensures Encodable(Single(load, float, r, unit))
  {
    Eight(unit);
  }

  lemma Eight(unit: int)
    ensures 8 * unit % 8 == 0
  {
  }

  lemma MoveSp(load: bool, float: bool, r: int, r2: int, unit: int, c: Cpu)
    ensures Step(Pair(load, float, r, r2, unit), c).sp == c.sp && Step(Single(load, float, r, unit), c).sp == c.sp
  {
  }

  lemma {:induction false} PairsLegal(load: bool, float: bool, l: seq<int>, unit: int, c: Cpu)
    requires unit <= 63 && Below(l, unit) + 2 >= 0 && c.sp % 16 == 0
    ensures Legal(Pairs(load, float, l, unit), c) && Run(Pairs(load, float, l, unit), c).sp == c.sp
    decreases |l|
  {
    hide Step, Encodable, Pair;
    if |l| >= 2 {
      var i := Pair(load, float, l[0], l[1], unit);
      assert Pairs(load, float, l, unit)[0] == i
        && Pairs(load, float, l, unit)[1..] == Pairs(load, float, l[2..], unit - 2);
      RestBelow(l, unit);
      PairEncodable(load, float, l[0], l[1], unit);
      MoveSp(load, float, l[0], l[1], unit, c);
      PairsLegal(load, float, l[2..], unit - 2, Step(i, c));
    }
  }

  lemma LastLegal(load: bool, ints: seq<int>, floats: seq<int>, unit: int, c: Cpu)
    requires unit <= 63 && unit + 2 - |ints| % 2 - |floats| % 2 >= 0 && c.sp % 16 == 0
    ensures Legal(Last(load, ints, floats, unit), c)
  {
    hide Step, Encodable, Single, Run, Legal;
    var oddF, oddI := |floats| % 2 == 1, |ints| % 2 == 1;
    var es := if oddF then [Single(load, true, floats[|floats| - 1], unit + 1)] else [];
    var fs := if oddI then [Single(load, false, ints[|ints| - 1], if oddF then unit else unit + 1)] else [];
    RunConcat(es, fs, c);
    NothingLegal(c);
    if oddF {
      OneLegal(load, true, floats[|floats| - 1], unit + 1, c);
    }
    NothingLegal(Run(es, c));
    if oddI {
      OneLegal(load, false, ints[|ints| - 1], if oddF then unit else unit + 1, Run(es, c));
    }
  }

  lemma NothingLegal(c: Cpu)
    ensures Legal([], c) && Run([], c) == c
  {
  }

  lemma OneLegal(load: bool, float: bool, r: int, unit: int, c: Cpu)
    requires 0 <= unit <= 64 && c.sp % 16 == 0
    ensures Legal([Single(load, float, r, unit)], c) && Run([Single(load, float, r, unit)], c).sp == c.sp
  {
    hide Step, Encodable, Single;
    SingleEncodable(load, float, r, unit);
    MoveSp(load, float, r, r, unit, c);
    RunOne(Single(load, float, r, unit), c);
  }

  lemma BodyLegal(load: bool, ints: seq<int>, floats: seq<int>, unit: int, c: Cpu)
    requires unit <= 63 && unit + 2 - |ints| - |floats| >= 0 && c.sp % 16 == 0
    ensures Legal(Body(load, ints, floats, unit), c)
  {
    hide Run, Pairs, Last, Legal;
    var u1 := Below(ints, unit);
    var u2 := Below(floats, u1);
    var p, q, z := Pairs(load, false, ints, unit), Pairs(load, true, floats, u1), Last(load, ints, floats, u2);
    PairsLegal(load, false, ints, unit, c);
    PairsLegal(load, true, floats, u1, Run(p, c));
    LastLegal(load, ints, floats, u2, Run(q, Run(p, c)));
    RunConcat(p, q, c);
    RunConcat(p + q, z, c);
  }
}
