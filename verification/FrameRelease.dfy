/** `emit_stack_frame_release`: the code that closes a stack frame, and that prologue and
    epilogue together leave every register the caller relies on as it was. */
module FrameRelease {
  import opened StackFrame
  import opened FrameLayout
  import opened FrameEnter

  // ------------------------------------------------- the stack pointer goes up

  /** The frame pointer, and the link register unless it is kept, are loaded from where
      the stack pointer points; it then is `size` higher. */
  function Raised(keepLink: bool, size: int, c: Cpu): Cpu {
    var d := Fetch(c, c.sp, false, FP);
    (if keepLink then d else Fetch(d, c.sp + 8, false, LR)).(sp := c.sp + size)
  }

  predicate RaisesAt(keepLink: bool, size: int, es: seq<Ins>, c: Cpu) {
    c.sp % 16 == 0 ==> Run(es, c) == Raised(keepLink, size, c) && Legal(es, c)
  }

  ghost predicate Raises(keepLink: bool, size: int, es: seq<Ins>) {
    forall c: Cpu {:trigger RaisesAt(keepLink, size, es, c)} :: RaisesAt(keepLink, size, es, c)
  }

  /** The instruction that loads the pair, or the frame pointer alone. */
  function LoadFirst(keepLink: bool, size: int, post: bool): Ins {
    if keepLink then if post then LoadOnePost(FP, size) else Load(false, FP, 0)
    else if post then LoadPost(FP, LR, size) else LoadPair(false, FP, LR, 0)
  }

  lemma FirstRaises(keepLink: bool, size: int, post: bool)
    requires size % 16 == 0 && 0 <= size <= (if keepLink then 248 else 496) && (!post ==> size == 0)
    ensures Raises(keepLink, size, [LoadFirst(keepLink, size, post)])
  {
    var i := LoadFirst(keepLink, size, post);
    PairOffsetOf(size);
    forall c: Cpu {:trigger RaisesAt(keepLink, size, [i], c)}
      ensures RaisesAt(keepLink, size, [i], c)
    {
      RunOne(i, c);
    }
  }

  lemma AddRaisesAt(keepLink: bool, size: int, es: seq<Ins>, imm: int, high: bool, up: int, c: Cpu)
    requires 0 <= imm < 4096 && Means(imm, high, up) && size % 16 == 0 && RaisesAt(keepLink, size, es, c)
    ensures RaisesAt(keepLink, size + up, es + [AddSp(imm, high)], c)
  {
    hide Run, Legal, Scale;
    if c.sp % 16 == 0 {
      var d := Raised(keepLink, size, c);
      SumSixteen(c.sp, size);
      RunConcat(es, [AddSp(imm, high)], c);
      AddRun(imm, high, up, d);
    }
  }

  lemma AddRun(imm: int, high: bool, up: int, c: Cpu)
    requires 0 <= imm < 4096 && Means(imm, high, up) && c.sp % 16 == 0
    ensures Run([AddSp(imm, high)], c) == c.(sp := c.sp + up) && Legal([AddSp(imm, high)], c)
  {
    RunOne(AddSp(imm, high), c);
  }

  lemma AddRaises(keepLink: bool, size: int, es: seq<Ins>, imm: int, high: bool, up: int)
    requires 0 <= imm < 4096 && Means(imm, high, up) && size % 16 == 0 && Raises(keepLink, size, es)
    ensures Raises(keepLink, size + up, es + [AddSp(imm, high)])
  {
    hide RaisesAt, Means;
    forall c: Cpu {:trigger RaisesAt(keepLink, size + up, es + [AddSp(imm, high)], c)}
      ensures RaisesAt(keepLink, size + up, es + [AddSp(imm, high)], c)
    {
      AddRaisesAt(keepLink, size, es, imm, high, up, c);
    }
  }

  /** The first part of the epilogue: afterwards at most 512 bytes of the frame are left. */
  method EmitRaise(localSize: int, keepLink: bool) returns (es: seq<Ins>, left: int)
    requires 16 <= localSize <= MAX_LOCAL + 1024 && localSize % 16 == 0
    ensures left == if localSize > 512 then 512 else localSize
    ensures Raises(keepLink, localSize - left, es)
  {
    hide Raises, Means;
    left := localSize;
    if !keepLink {
      if left > 512 && left <= 512 + 496 {
        es := [LoadPost(FP, LR, left - 512)];
        FirstRaises(keepLink, left - 512, true);
        left := 512;
      } else {
        es := [LoadPair(false, FP, LR, 0)];
        FirstRaises(keepLink, 0, false);
      }
    } else {
      if left > 512 && left <= 512 + 248 {
        es := [LoadOnePost(FP, left - 512)];
        FirstRaises(keepLink, left - 512, true);
        left := 512;
      } else {
        es := [Load(false, FP, 0)];
        FirstRaises(keepLink, 0, false);
      }
    }
    if left > 512 {
      var more := EmitAdd(left - 512, keepLink, es);
      es := es + more;
      left := 512;
    }
  }

  /** The additions to the stack pointer for a large frame. */
  method EmitAdd(size: int, ghost keepLink: bool, ghost before: seq<Ins>) returns (es: seq<Ins>)
    requires 0 < size <= MAX_LOCAL + 512 && size % 16 == 0 && Raises(keepLink, 0, before)
    ensures Raises(keepLink, size, before + es)
  {
    hide Raises, Means;
    HighPart(size);
    Meant(size);
    es := [];
    var low := size;
    assert before + es == before;
    if low > 0xfff {
      es := [AddSp(low / 4096, true)];
      AddRaises(keepLink, 0, before, low / 4096, true, low / 4096 * 4096);
      low := low % 4096;
    }
    AddRaises(keepLink, size - low, before + es, low, false, low);
    assert before + (es + [AddSp(low, false)]) == before + es + [AddSp(low, false)];
    es := es + [AddSp(low, false)];
  }

  lemma Meant(size: int)
    ensures Means(size / 4096, true, size / 4096 * 4096) && Means(size, false, size)
      && Means(size % 4096, false, size % 4096)
  {
  }

  // --------------------------------------------------------------- what is promised

  /** The frame that the prologue left when it started from `c0` is still there. */
  ghost predicate Intact(f: Func, c0: Cpu, c: Cpu) {
    && WordAt(c, c.sp) == Get(c0, false, FP) && WordAt(c, c.sp + 8) == Get(c0, false, LR)
    && Hold(Homes(f), c.sp + FrameSize(f), c, c0)
  }

  /** The registers that the epilogue gives back. */
  predicate Restored(f: Func, keepLink: bool, float: bool, r: int) {
    if float then r in Floats(f) else r in Ints(f) || r == FP || (r == LR && !keepLink)
  }

  /** The epilogue takes the machine from `c` to `d`: the stack pointer is where it was
      at the call, saved registers are as they were, and nothing else has changed. */
  ghost predicate Released(f: Func, keepLink: bool, c0: Cpu, c: Cpu, d: Cpu) {
    && d.sp == c.sp + FrameSize(f) && d.mem == c.mem
    && forall float, r :: Get(d, float, r) == Get(if Restored(f, keepLink, float, r) then c0 else c, float, r)
  }

  ghost predicate Closes(f: Func, keepLink: bool, es: seq<Ins>) {
    forall c0: Cpu, c: Cpu :: c.sp % 16 == 0 && Intact(f, c0, c) ==>
      Legal(es, c) && Released(f, keepLink, c0, c, Run(es, c))
  }

  lemma RaisedState(keepLink: bool, size: int, c0: Cpu, c: Cpu)
    requires WordAt(c, c.sp) == Get(c0, false, FP) && WordAt(c, c.sp + 8) == Get(c0, false, LR)
    ensures var d := Raised(keepLink, size, c);
      && d.sp == c.sp + size && d.mem == c.mem
      && forall float, r ::
        Get(d, float, r) == Get(if !float && (r == FP || (r == LR && !keepLink)) then c0 else c, float, r)
  {
  }

  lemma HoldSame(cells: seq<Cell>, base: int, c: Cpu, d: Cpu, v: Cpu)
    requires Hold(cells, base, c, v) && d.mem == c.mem
    ensures Hold(cells, base, d, v)
  {
  }

  lemma BodyLoads(f: Func, unit: int, c0: Cpu, c: Cpu)
    requires Hold(Homes(f), c.sp + 8 * (unit + 2), c, c0)
    ensures var d := Run(Body(true, Ints(f), Floats(f), unit), c);
      && d.sp == c.sp && d.mem == c.mem
      && forall float, r ::
        Get(d, float, r) == Get(if r in (if float then Floats(f) else Ints(f)) then c0 else c, float, r)
  {
    hide Ints, Floats, Body, BodyCells, Run, Hold, Get, Named;
    var base := c.sp + 8 * (unit + 2);
    BodyRun(true, Ints(f), Floats(f), unit, -2, c);
    Loaded(Homes(f), base, c, c0);
    var d := Run(Body(true, Ints(f), Floats(f), unit), c);
    forall float, r
      ensures Get(d, float, r) == Get(if r in (if float then Floats(f) else Ints(f)) then c0 else c, float, r)
    {
      BodyNames(Ints(f), Floats(f), -2, float, r);
    }
  }

  lemma NotSaved(f: Func)
    requires Checked(f)
    ensures FP !in Ints(f) && LR !in Ints(f)
  {
    SavedSet(f, FP);
    SavedSet(f, LR);
  }

  lemma ClosesAt(f: Func, keepLink: bool, raise: seq<Ins>, left: int, es: seq<Ins>, c0: Cpu, c: Cpu)
    requires Checked(f) && left == (if FrameSize(f) > 512 then 512 else FrameSize(f))
    requires Raises(keepLink, FrameSize(f) - left, raise)
      && es == raise + Body(true, Ints(f), Floats(f), left / 8 - 2) + [AddSp(left, false)]
    requires c.sp % 16 == 0 && Intact(f, c0, c)
    ensures Legal(es, c) && Released(f, keepLink, c0, c, Run(es, c))
  {
    hide Run, Legal, Body, Ints, Floats, FrameSize, Homes, Hold, Get, WordAt, Raised, RaisesAt, Checked, Step,
      Encodable;
    var size := FrameSize(f) - left;
    LeftFits(f, left);
    var body := Body(true, Ints(f), Floats(f), left / 8 - 2);
    var c1 := Run(raise, c);
    assert RaisesAt(keepLink, size, raise, c);
    RaisedAt(keepLink, size, raise, c);
    RaisedState(keepLink, size, c0, c);
    SumSixteen(c.sp, size);
    HoldSame(Homes(f), c.sp + FrameSize(f), c, c1, c0);
    assert c1.sp + 8 * (left / 8 - 2 + 2) == c.sp + FrameSize(f);
    BodyLoads(f, left / 8 - 2, c0, c1);
    BodyLegal(true, Ints(f), Floats(f), left / 8 - 2, c1);
    var c2 := Run(body, c1);
    MeansLow(left);
    AddRun(left, false, left, c2);
    RunConcat(raise, body, c);
    RunConcat(raise + body, [AddSp(left, false)], c);
    ReleasedAll(f, keepLink, c0, c, c1, c2, c2.(sp := c2.sp + left));
  }

  lemma RaisedAt(keepLink: bool, size: int, es: seq<Ins>, c: Cpu)
    requires RaisesAt(keepLink, size, es, c) && c.sp % 16 == 0
    ensures Run(es, c) == Raised(keepLink, size, c) && Legal(es, c)
  {
  }

  lemma MeansLow(imm: int)
    ensures Means(imm, false, imm)
  {
  }

  lemma LeftFits(f: Func, left: int)
    requires Checked(f) && left == (if FrameSize(f) > 512 then 512 else FrameSize(f))
    ensures 0 <= left <= 512 && left % 16 == 0 && left / 8 * 8 == left && left / 8 % 2 == 0 && left / 8 - 2 <= 63
    ensures left / 8 - 2 + 2 - |Ints(f)| - |Floats(f)| >= 0 && (FrameSize(f) - left) % 16 == 0
  {
    hide Ints, Floats;
    SizeFits(f);
    HalfEight(left);
    ListSizes(f);
    BodyFits(f);
    SumSixteen(FrameSize(f), left);
  }

  lemma ReleasedAll(f: Func, keepLink: bool, c0: Cpu, c: Cpu, c1: Cpu, c2: Cpu, d: Cpu)
    requires Checked(f) && d.sp == c.sp + FrameSize(f) && d.mem == c2.mem == c1.mem == c.mem && d.regs == c2.regs
      && d.fregs == c2.fregs
    requires forall float, r ::
      Get(c1, float, r) == Get(if !float && (r == FP || (r == LR && !keepLink)) then c0 else c, float, r)
    requires forall float, r ::
      Get(c2, float, r) == Get(if r in (if float then Floats(f) else Ints(f)) then c0 else c1, float, r)
    ensures Released(f, keepLink, c0, c, d)
  {
    hide Ints, Floats, FrameSize, Checked;
    NotSaved(f);
    SameFiles(c2, d);
    hide Get;
    forall float, r
      ensures Get(d, float, r) == Get(if Restored(f, keepLink, float, r) then c0 else c, float, r)
    {
      assert Get(d, float, r) == Get(c2, float, r);
    }
  }

  lemma SameFiles(c: Cpu, d: Cpu)
    requires d.regs == c.regs && d.fregs == c.fregs
    ensures forall float, r :: Get(d, float, r) == Get(c, float, r)
  {
  }

  /** `emit_stack_frame_release`; `keepLink` is its `is_return_to`. */
  method EmitRelease(f: Func, localSize: int, keepLink: bool) returns (es: seq<Ins>)
    requires Checked(f) && localSize == FrameSize(f)
    ensures Closes(f, keepLink, es)
  {
    hide Ints, Floats, Body, Raises, Checked, FrameSize, Intact, Released;
    SizeBounds(f);
    var raise, left := EmitRaise(localSize, keepLink);
    LeftFits(f, left);
    var body := EmitBody(true, f, left / 8 - 2);
    es := raise + body + [AddSp(left, false)];
    forall c0: Cpu, c: Cpu | c.sp % 16 == 0 && Intact(f, c0, c)
      ensures Legal(es, c) && Released(f, keepLink, c0, c, Run(es, c))
    {
      ClosesAt(f, keepLink, raise, left, es, c0, c);
    }
  }

  lemma SizeBounds(f: Func)
    requires Checked(f)
    ensures 16 <= FrameSize(f) <= MAX_LOCAL + 1024 && FrameSize(f) % 16 == 0
  {
    hide Ints, Floats, FrameSize;
    SizeFits(f);
  }

  // ------------------------------------------------------------------ the round trip

  /** What the body of a function may do: anything, as long as the stack pointer is back
      and it writes neither to the saved frame pointer and link register nor above its
      own local variables. */
  ghost predicate Behaves(f: Func, c0: Cpu, c1: Cpu, c: Cpu) {
    && c.sp == c1.sp
    && forall a :: c1.sp <= a < c1.sp + 16 || c1.sp + 16 + f.locals <= a < c0.sp ==> WordAt(c, a) == WordAt(c1, a)
  }

  lemma StaysIntact(f: Func, c0: Cpu, c1: Cpu, c: Cpu)
    requires Checked(f) && Entered(f, c0, c1) && Behaves(f, c0, c1, c)
    ensures Intact(f, c0, c)
  {
    hide FrameSize, Homes, WordAt, Get;
    HomesApart(f);
    assert WordAt(c, c1.sp) == WordAt(c1, c1.sp) && WordAt(c, c1.sp + 8) == WordAt(c1, c1.sp + 8);
    var cells := Homes(f);
    forall i | 0 <= i < |cells|
      ensures WordAt(c, c0.sp + 8 * cells[i].unit) == Get(c0, cells[i].float, cells[i].r)
    {
      var a := c0.sp + 8 * cells[i].unit;
      assert WordAt(c1, a) == Get(c0, cells[i].float, cells[i].r);
      assert c1.sp + 16 + f.locals <= a < c0.sp;
    }
  }

  /** Prologue, any well-behaved body, epilogue: the stack pointer is back, every saved
      register has the value it had at the call, and so do the frame pointer and, on a
      plain return, the link register. */
  lemma RoundTrip(f: Func, keepLink: bool, enter: seq<Ins>, release: seq<Ins>, c0: Cpu, c: Cpu)
    requires Checked(f) && Opens(f, enter) && Closes(f, keepLink, release) && c0.sp % 16 == 0
    requires Behaves(f, c0, Run(enter, c0), c)
    ensures var d := Run(release, c);
      && Legal(enter, c0) && Legal(release, c)
      && d.sp == c0.sp && d.mem == c.mem
      && forall float, r :: Get(d, float, r) == Get(if Restored(f, keepLink, float, r) then c0 else c, float, r)
  {
    hide FrameSize, Run, Legal, Behaves, Restored, Get;
    var c1 := Run(enter, c0);
    BackSp(f, c0, c1, c);
    StaysIntact(f, c0, c1, c);
  }

  lemma BackSp(f: Func, c0: Cpu, c1: Cpu, c: Cpu)
    requires Checked(f) && Entered(f, c0, c1) && Behaves(f, c0, c1, c) && c0.sp % 16 == 0
    ensures c.sp == c0.sp - FrameSize(f) && c.sp % 16 == 0
  {
    hide FrameSize;
    SizeFits(f);
    SumSixteen(c0.sp, FrameSize(f));
  }

  /** A body that writes only registers it was given: all registers that the procedure
      call standard asks a function to preserve are preserved, apart from those that
      are explicitly shared with the caller. */
  lemma CalleeSaved(f: Func, enter: seq<Ins>, release: seq<Ins>, c0: Cpu, c: Cpu, float: bool, r: int)
    requires Checked(f) && Opens(f, enter) && Closes(f, false, release) && c0.sp % 16 == 0
    requires Behaves(f, c0, Run(enter, c0), c)
    requires if float then 23 <= r <= 30 else 17 <= r <= 26 - f.kept
    requires !Restored(f, false, float, r) ==> Get(c, float, r) == Get(Run(enter, c0), float, r)
    ensures Get(Run(release, c), float, r) == Get(c0, float, r)
  {
    hide FrameSize, Run, Legal, Behaves, Restored, Get, ArgsEntered, Hold, WordAt, Released, Closes;
    var c1 := Run(enter, c0);
    RoundTrip(f, false, enter, release, c0, c);
    if !Restored(f, false, float, r) {
      EnterLeaves(f, c0, c1, float, r);
    }
  }

  lemma EnterLeaves(f: Func, c0: Cpu, c1: Cpu, float: bool, r: int)
    requires Checked(f) && Entered(f, c0, c1) && !Restored(f, false, float, r)
    requires if float then 23 <= r <= 30 else 17 <= r <= 26 - f.kept
    ensures Get(c1, float, r) == Get(c0, float, r)
  {
    hide FrameSize, Homes, Hold, WordAt, SavedArgs, WordArgs, ArgIn;
    if !float {
      SavedSet(f, r);
      var n := if f.regArg then 0 else |f.args|;
      CountNone(f.args);
      assert r <= S0 - SavedArgs(f.args, n);
    }
  }
}
