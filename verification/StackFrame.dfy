/** Prologue and epilogue of a compiled function on A64: the instructions they consist
    of, and what storing and loading a list of registers does. */
module StackFrame {
  /** Register numbers of the compiler: R0 is 1, S0 is 26 and counts down; floating
      point registers likewise from 30. */
  const S0: int := 26
  const SCRATCH_REGS: int := 16
  const FS0: int := 30
  const SCRATCH_FLOATS: int := 22
  const LR: int := 30
  const FP: int := 31
  const MAX_LOCAL: int := 1048576

  /** Offsets are in bytes; `float` selects the floating point registers. */
  datatype Ins =
    | StorePair(float: bool, r: int, r2: int, imm: int)
    | StorePre(r: int, r2: int, imm: int)
    | Store(float: bool, r: int, imm: int)
    | LoadPair(float: bool, r: int, r2: int, imm: int)
    | LoadPost(r: int, r2: int, imm: int)
    | Load(float: bool, r: int, imm: int)
    | LoadOnePost(r: int, imm: int)
    | AddSp(imm: int, high: bool)
    | SubSp(imm: int, high: bool)
    | Copy(dst: int, src: int)
    | SetFp

  predicate Encodable(i: Ins) {
    match i
    case StorePair(_, _, _, imm) => PairOffset(imm)
    case StorePre(_, _, imm) => PairOffset(imm)
    case LoadPair(_, _, _, imm) => PairOffset(imm)
    case LoadPost(_, _, imm) => PairOffset(imm)
    case Store(_, _, imm) => imm % 8 == 0 && 0 <= imm <= 32760
    case Load(_, _, imm) => imm % 8 == 0 && 0 <= imm <= 32760
    case LoadOnePost(_, imm) => -256 <= imm < 256
    case AddSp(imm, _) => 0 <= imm < 4096
    case SubSp(imm, _) => 0 <= imm < 4096
    case _ => true
  }

  predicate PairOffset(imm: int) {
    imm % 8 == 0 && -512 <= imm <= 504
  }

  /** Memory is kept as 64-bit words by address. */
  datatype Cpu = Cpu(sp: int, regs: map<int, int>, fregs: map<int, int>, mem: map<int, int>)

  function Get(c: Cpu, float: bool, r: int): int {
    var m := if float then c.fregs else c.regs;
    if r in m then m[r] else 0
  }

  function Set(c: Cpu, float: bool, r: int, v: int): Cpu {
    if float then c.(fregs := c.fregs[r := v]) else c.(regs := c.regs[r := v])
  }

  function WordAt(c: Cpu, a: int): int {
    if a in c.mem then c.mem[a] else 0
  }

  function Put(c: Cpu, a: int, float: bool, r: int): Cpu {
    c.(mem := c.mem[a := Get(c, float, r)])
  }

  function Fetch(c: Cpu, a: int, float: bool, r: int): Cpu {
    Set(c, float, r, WordAt(c, a))
  }

  function Scale(high: bool): int {
    if high then 4096 else 1
  }

  function Step(i: Ins, c: Cpu): Cpu {
    match i
    case StorePair(f, r, r2, imm) => Put(Put(c, c.sp + imm, f, r), c.sp + imm + 8, f, r2)
    case StorePre(r, r2, imm) => Put(Put(c, c.sp + imm, false, r), c.sp + imm + 8, false, r2).(sp := c.sp + imm)
    case Store(f, r, imm) => Put(c, c.sp + imm, f, r)
    case LoadPair(f, r, r2, imm) => Fetch(Fetch(c, c.sp + imm, f, r), c.sp + imm + 8, f, r2)
    case LoadPost(r, r2, imm) => Fetch(Fetch(c, c.sp, false, r), c.sp + 8, false, r2).(sp := c.sp + imm)
    case Load(f, r, imm) => Fetch(c, c.sp + imm, f, r)
    case LoadOnePost(r, imm) => Fetch(c, c.sp, false, r).(sp := c.sp + imm)
    case AddSp(imm, high) => c.(sp := c.sp + imm * Scale(high))
    case SubSp(imm, high) => c.(sp := c.sp - imm * Scale(high))
    case Copy(dst, src) => Set(c, false, dst, Get(c, false, src))
    case SetFp => Set(c, false, FP, c.sp)
  }

  function Run(es: seq<Ins>, c: Cpu): Cpu
    decreases |es|
  {
    if es == [] then c else Run(es[1..], Step(es[0], c))
  }

  /** Every field fits, and the stack pointer is a multiple of 16 at every instruction. */
  predicate Legal(es: seq<Ins>, c: Cpu)
    decreases |es|
  {
    es == [] || (Encodable(es[0]) && c.sp % 16 == 0 && Legal(es[1..], Step(es[0], c)))
  }

  lemma {:induction false} RunConcat(a: seq<Ins>, b: seq<Ins>, c: Cpu)
    ensures Run(a + b, c) == Run(b, Run(a, c))
    ensures Legal(a + b, c) <==> Legal(a, c) && Legal(b, Run(a, c))
    decreases |a|
  {
    hide Step, Encodable;
    if a == [] {
      assert a + b == b;
    } else {
      assert (a + b)[1..] == a[1..] + b;
      RunConcat(a[1..], b, Step(a[0], c));
    }
  }

  lemma RunOne(i: Ins, c: Cpu)
    ensures Run([i], c) == Step(i, c)
    ensures Legal([i], c) <==> Encodable(i) && c.sp % 16 == 0
  {
    assert [i][1..] == [];
  }

  // ------------------------------------------------------------ lists of registers

  /** A register and its place, in words of eight bytes from some base address. */
  datatype Cell = Cell(float: bool, r: int, unit: int)

  function StoreCells(cells: seq<Cell>, base: int, c: Cpu): Cpu
    decreases |cells|
  {
    if cells == [] then c
      else StoreCells(cells[1..], base, Put(c, base + 8 * cells[0].unit, cells[0].float, cells[0].r))
  }

  function LoadCells(cells: seq<Cell>, base: int, c: Cpu): Cpu
    decreases |cells|
  {
    if cells == [] then c
      else LoadCells(cells[1..], base, Fetch(c, base + 8 * cells[0].unit, cells[0].float, cells[0].r))
  }

  function MoveCells(load: bool, cells: seq<Cell>, base: int, c: Cpu): Cpu {
    if load then LoadCells(cells, base, c) else StoreCells(cells, base, c)
  }

  lemma {:induction false} MoveConcat(load: bool, a: seq<Cell>, b: seq<Cell>, base: int, c: Cpu)
    ensures MoveCells(load, a + b, base, c) == MoveCells(load, b, base, MoveCells(load, a, base, c))
    decreases |a|
  {
    hide Put, Fetch;
    if a == [] {
      assert a + b == b;
    } else {
      assert (a + b)[1..] == a[1..] + b;
      var at := base + 8 * a[0].unit;
      MoveConcat(load, a[1..], b, base,
                 if load then Fetch(c, at, a[0].float, a[0].r) else Put(c, at, a[0].float, a[0].r));
    }
  }

  predicate Distinct(cells: seq<Cell>) {
    forall i, j :: 0 <= i < j < |cells| ==> cells[i].unit != cells[j].unit
  }

  predicate Untouched(cells: seq<Cell>, base: int, a: int) {
    forall i :: 0 <= i < |cells| ==> a != base + 8 * cells[i].unit
  }

  /** The words that the cells name hold the registers of `v`. */
  ghost predicate Hold(cells: seq<Cell>, base: int, c: Cpu, v: Cpu) {
    forall i :: 0 <= i < |cells| ==> WordAt(c, base + 8 * cells[i].unit) == Get(v, cells[i].float, cells[i].r)
  }

  lemma {:induction false} Stored(cells: seq<Cell>, base: int, c: Cpu)
    requires Distinct(cells)
    ensures var d := StoreCells(cells, base, c);
      && d.sp == c.sp && d.regs == c.regs && d.fregs == c.fregs && Hold(cells, base, d, c)
      && forall a :: Untouched(cells, base, a) ==> WordAt(d, a) == WordAt(c, a)
    decreases |cells|
  {
    hide Distinct;
    if cells != [] {
      var e := Put(c, base + 8 * cells[0].unit, cells[0].float, cells[0].r);
      RestDistinct(cells, base);
      Stored(cells[1..], base, e);
      StoredFirst(cells, base, c, e);
    }
  }

  lemma RestDistinct(cells: seq<Cell>, base: int)
    requires cells != [] && Distinct(cells)
    ensures Distinct(cells[1..]) && Untouched(cells[1..], base, base + 8 * cells[0].unit)
    ensures forall a :: Untouched(cells, base, a) ==> Untouched(cells[1..], base, a) && a != base + 8 * cells[0].unit
  {
  }

  lemma StoredFirst(cells: seq<Cell>, base: int, c: Cpu, e: Cpu)
    requires cells != [] && e == Put(c, base + 8 * cells[0].unit, cells[0].float, cells[0].r)
    requires var d := StoreCells(cells[1..], base, e);
      Hold(cells[1..], base, d, e) && forall a :: Untouched(cells[1..], base, a) ==> WordAt(d, a) == WordAt(e, a)
    requires Untouched(cells[1..], base, base + 8 * cells[0].unit)
    ensures Hold(cells, base, StoreCells(cells, base, c), c)
  {
    hide Untouched;
    var d := StoreCells(cells[1..], base, e);
    forall i | 0 <= i < |cells|
      ensures WordAt(d, base + 8 * cells[i].unit) == Get(c, cells[i].float, cells[i].r)
    {
      if i > 0 {
        assert cells[i] == cells[1..][i - 1];
      }
    }
  }

  predicate Named(cells: seq<Cell>, float: bool, r: int) {
    exists i :: 0 <= i < |cells| && cells[i].float == float && cells[i].r == r
  }

  lemma {:induction false} Loaded(cells: seq<Cell>, base: int, c: Cpu, v: Cpu)
    requires Hold(cells, base, c, v)
    ensures var d := LoadCells(cells, base, c);
      && d.sp == c.sp && d.mem == c.mem
      && forall f, r :: Get(d, f, r) == if Named(cells, f, r) then Get(v, f, r) else Get(c, f, r)
    decreases |cells|
  {
    if cells != [] {
      var e := Fetch(c, base + 8 * cells[0].unit, cells[0].float, cells[0].r);
      FirstFetched(cells, base, c, v);
      Loaded(cells[1..], base, e, v);
      var d := LoadCells(cells, base, c);
      forall f, r
        ensures Get(d, f, r) == if Named(cells, f, r) then Get(v, f, r) else Get(c, f, r)
      {
        NamedRest(cells, f, r);
      }
    }
  }

  lemma FirstFetched(cells: seq<Cell>, base: int, c: Cpu, v: Cpu)
    requires cells != [] && Hold(cells, base, c, v)
    ensures var e := Fetch(c, base + 8 * cells[0].unit, cells[0].float, cells[0].r);
      && e.sp == c.sp && e.mem == c.mem && Hold(cells[1..], base, e, v)
      && forall f, r :: Get(e, f, r) == if f == cells[0].float && r == cells[0].r then Get(v, f, r) else Get(c, f, r)
  {
  }

  lemma NamedRest(cells: seq<Cell>, f: bool, r: int)
    requires cells != []
    ensures Named(cells, f, r) <==> (cells[0].float == f && cells[0].r == r) || Named(cells[1..], f, r)
  {
    if i :| 0 <= i < |cells[1..]| && cells[1..][i].float == f && cells[1..][i].r == r {
      assert cells[i + 1].float == f;
    }
    if i :| 0 < i < |cells| && cells[i].float == f && cells[i].r == r {
      assert cells[1..][i - 1].float == f;
    }
  }

  // ------------------------------------------------------- pairs, then what is left

  function Pair(load: bool, float: bool, r: int, r2: int, unit: int): Ins {
    if load then LoadPair(float, r, r2, 8 * unit) else StorePair(float, r, r2, 8 * unit)
  }

  function Single(load: bool, float: bool, r: int, unit: int): Ins {
    if load then Load(float, r, 8 * unit) else Store(float, r, 8 * unit)
  }

  /** Two registers at a time, two words further down each time. */
  function Pairs(load: bool, float: bool, l: seq<int>, unit: int): seq<Ins>
    decreases |l|
  {
    if |l| < 2 then [] else [Pair(load, float, l[0], l[1], unit)] + Pairs(load, float, l[2..], unit - 2)
  }

  function PairCells(float: bool, l: seq<int>, unit: int): seq<Cell>
    decreases |l|
  {
    if |l| < 2 then [] else [Cell(float, l[0], unit), Cell(float, l[1], unit + 1)] + PairCells(float, l[2..], unit - 2)
  }

  /** The register left over when the number is odd. */
  function Rest(l: seq<int>): (r: seq<int>)
    ensures |r| == |l| % 2
  {
    if |l| % 2 == 1 then [l[|l| - 1]] else []
  }

  function Below(l: seq<int>, unit: int): int {
    unit - 2 * (|l| / 2)
  }

  lemma {:induction false} PairsSplit(load: bool, float: bool, a: seq<int>, b: seq<int>, unit: int)
    ensures Pairs(load, float, a + b, unit) == Pairs(load, float, a, unit)
      + Pairs(load, float, Rest(a) + b, Below(a, unit))
    decreases |a|
  {
    if |a| < 2 {
      assert a == Rest(a);
    } else {
      assert (a + b)[2..] == a[2..] + b;
      PairsSplit(load, float, a[2..], b, unit - 2);
      RestBelow(a, unit);
    }
  }

  lemma RestBelow(a: seq<int>, unit: int)
    requires |a| >= 2
    ensures Rest(a[2..]) == Rest(a) && Below(a[2..], unit - 2) == Below(a, unit)
  {
  }

  function MoveCell(load: bool, e: Cell, base: int, c: Cpu): Cpu {
    if load then Fetch(c, base + 8 * e.unit, e.float, e.r) else Put(c, base + 8 * e.unit, e.float, e.r)
  }

  lemma MoveOne(load: bool, e: Cell, base: int, c: Cpu)
    ensures MoveCells(load, [e], base, c) == MoveCell(load, e, base, c)
  {
    var l := [e];
    assert l[1..] == [] && l[0] == e;
    MoveNothing(load, base, MoveCell(load, e, base, c));
    assert MoveCells(load, l, base, c) == MoveCells(load, l[1..], base, MoveCell(load, e, base, c));
  }

  lemma MoveTwo(load: bool, e: Cell, f: Cell, base: int, c: Cpu)
    ensures MoveCells(load, [e, f], base, c) == MoveCell(load, f, base, MoveCell(load, e, base, c))
  {
    hide MoveCells, MoveCell;
    MoveOne(load, e, base, c);
    MoveOne(load, f, base, MoveCell(load, e, base, c));
    MoveConcat(load, [e], [f], base, c);
    assert [e] + [f] == [e, f];
  }

  lemma PairStep(load: bool, float: bool, r: int, r2: int, unit: int, from: int, c: Cpu)
    ensures Step(Pair(load, float, r, r2, unit), c)
      == MoveCells(load, [Cell(float, r, from), Cell(float, r2, from + 1)], c.sp + 8 * (unit - from), c)
  {
    hide MoveCells;
    var base := c.sp + 8 * (unit - from);
    MoveTwo(load, Cell(float, r, from), Cell(float, r2, from + 1), base, c);
    assert base + 8 * from == c.sp + 8 * unit && base + 8 * (from + 1) == c.sp + 8 * unit + 8;
  }

  lemma SingleStep(load: bool, float: bool, r: int, unit: int, from: int, c: Cpu)
    ensures Step(Single(load, float, r, unit), c)
      == MoveCells(load, [Cell(float, r, from)], c.sp + 8 * (unit - from), c)
  {
    hide MoveCells;
    var base := c.sp + 8 * (unit - from);
    MoveOne(load, Cell(float, r, from), base, c);
    assert base + 8 * from == c.sp + 8 * unit;
  }

  lemma {:induction false} MoveKeepsSp(load: bool, cells: seq<Cell>, base: int, c: Cpu)
    ensures MoveCells(load, cells, base, c).sp == c.sp
    decreases |cells|
  {
    if cells != [] {
      var at := base + 8 * cells[0].unit;
      MoveKeepsSp(load, cells[1..], base, if load then Fetch(c, at, cells[0].float, cells[0].r)
        else Put(c, at, cells[0].float, cells[0].r));
    }
  }

  lemma {:induction false} PairsRun(load: bool, float: bool, l: seq<int>, unit: int, from: int, c: Cpu)
    ensures Run(Pairs(load, float, l, unit), c)
      == MoveCells(load, PairCells(float, l, from), c.sp + 8 * (unit - from), c)
    decreases |l|
  {
    hide Step, MoveCells, Pair;
    if |l| < 2 {
      MoveNothing(load, c.sp + 8 * (unit - from), c);
    } else {
      var i := Pair(load, float, l[0], l[1], unit);
      var two := [Cell(float, l[0], from), Cell(float, l[1], from + 1)];
      assert Pairs(load, float, l, unit)[0] == i
        && Pairs(load, float, l, unit)[1..] == Pairs(load, float, l[2..], unit - 2);
      var base := c.sp + 8 * (unit - from);
      PairStep(load, float, l[0], l[1], unit, from, c);
      MoveKeepsSp(load, two, base, c);
      PairsRun(load, float, l[2..], unit - 2, from - 2, Step(i, c));
      MoveConcat(load, two, PairCells(float, l[2..], from - 2), base, c);
    }
  }

  lemma MoveNothing(load: bool, base: int, c: Cpu)
    ensures MoveCells(load, [], base, c) == c
  {
  }

  /** All registers: integer pairs, floating point pairs, and the one or two left over. */
  function Body(load: bool, ints: seq<int>, floats: seq<int>, unit: int): seq<Ins> {
    Pairs(load, false, ints, unit) + Pairs(load, true, floats, Below(ints, unit))
      + Last(load, ints, floats, Below(floats, Below(ints, unit)))
  }

  function Last(load: bool, ints: seq<int>, floats: seq<int>, unit: int): seq<Ins> {
    (if |floats| % 2 == 1 then [Single(load, true, floats[|floats| - 1], unit + 1)] else [])
    + (if |ints| % 2 == 1 then [Single(load, false, ints[|ints| - 1], if |floats| % 2 == 1 then unit else unit + 1)]
      else [])
  }

  function LastCells(ints: seq<int>, floats: seq<int>, unit: int): seq<Cell> {
    (if |floats| % 2 == 1 then [Cell(true, floats[|floats| - 1], unit + 1)] else [])
    + (if |ints| % 2 == 1 then [Cell(false, ints[|ints| - 1], if |floats| % 2 == 1 then unit else unit + 1)] else [])
  }

  function BodyCells(ints: seq<int>, floats: seq<int>, unit: int): seq<Cell> {
    PairCells(false, ints, unit) + PairCells(true, floats, Below(ints, unit))
      + LastCells(ints, floats, Below(floats, Below(ints, unit)))
  }

  lemma LastRun(load: bool, ints: seq<int>, floats: seq<int>, unit: int, from: int, c: Cpu)
    ensures Run(Last(load, ints, floats, unit), c)
      == MoveCells(load, LastCells(ints, floats, from), c.sp + 8 * (unit - from), c)
  {
    hide Step, MoveCells, Single, Run;
    var base := c.sp + 8 * (unit - from);
    var oddF, oddI := |floats| % 2 == 1, |ints| % 2 == 1;
    var es := if oddF then [Single(load, true, floats[|floats| - 1], unit + 1)] else [];
    var fs := if oddI then [Single(load, false, ints[|ints| - 1], if oddF then unit else unit + 1)] else [];
    var a := if oddF then [Cell(true, floats[|floats| - 1], from + 1)] else [];
    var b := if oddI then [Cell(false, ints[|ints| - 1], if oddF then from else from + 1)] else [];
    OneRun(load, es, a, unit - from, c);
    MoveKeepsSp(load, a, base, c);
    OneRun(load, fs, b, unit - from, Run(es, c));
    RunConcat(es, fs, c);
    MoveConcat(load, a, b, base, c);
  }

  lemma {:induction false} OneRun(load: bool, es: seq<Ins>, cells: seq<Cell>, gap: int, c: Cpu)
    requires (es == [] && cells == [])
      || (|es| == |cells| == 1 && es[0] == Single(load, cells[0].float, cells[0].r, cells[0].unit + gap))
    ensures Run(es, c) == MoveCells(load, cells, c.sp + 8 * gap, c)
  {
    hide Step, Single;
    if |es| == 1 {
      RunOne(es[0], c);
      assert es == [es[0]] && cells == [Cell(cells[0].float, cells[0].r, cells[0].unit)];
      SingleStep(load, cells[0].float, cells[0].r, cells[0].unit + gap, cells[0].unit, c);
    }
  }

  lemma BodyRun(load: bool, ints: seq<int>, floats: seq<int>, unit: int, from: int, c: Cpu)
    ensures Run(Body(load, ints, floats, unit), c)
      == MoveCells(load, BodyCells(ints, floats, from), c.sp + 8 * (unit - from), c)
  {
    hide Run, MoveCells, Pairs, PairCells, Last, LastCells;
    var base := c.sp + 8 * (unit - from);
    var p, q := Pairs(load, false, ints, unit), Pairs(load, true, floats, Below(ints, unit));
    var x, y := PairCells(false, ints, from), PairCells(true, floats, Below(ints, from));
    var z := Last(load, ints, floats, Below(floats, Below(ints, unit)));
    PairsRun(load, false, ints, unit, from, c);
    MoveKeepsSp(load, x, base, c);
    var c1 := Run(p, c);
    PairsRun(load, true, floats, Below(ints, unit), Below(ints, from), c1);
    MoveKeepsSp(load, y, base, c1);
    var c2 := Run(q, c1);
    LastRun(load, ints, floats, Below(floats, Below(ints, unit)), Below(floats, Below(ints, from)), c2);
    RunConcat(p, q, c);
    RunConcat(p + q, z, c);
    MoveConcat(load, x, y, base, c);
    MoveConcat(load, x + y, LastCells(ints, floats, Below(floats, Below(ints, from))), base, c);
  }
}
