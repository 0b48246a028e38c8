/** `sljit_emit_enter`: the code that opens a stack frame, and that it saves every
    register the function may write. */
module FrameEnter {
  import opened StackFrame
  import opened FrameLayout

  // ------------------------------------------------------- emitting the list of pairs

  /** The loop that goes through a range of registers downward and emits an instruction
      for every second one; `prev` is the register that still waits for its partner. */
  method PairDown(load: bool, float: bool, high: int, low: int, prev0: int, offs0: int, ghost before: seq<int>)
    returns (es: seq<Ins>, prev: int, offs: int)
    requires Waiting(before, prev0) && 0 <= low && forall r :: r in before ==> r >= 0
    ensures es == Pairs(load, float, Rest(before) + Down(high, low), offs0)
    ensures Waiting(before + Down(high, low), prev)
    ensures offs == Below(Rest(before) + Down(high, low), offs0)
  {
    hide Pairs, Down, Pair;
    es, prev, offs := [], prev0, offs0;
    var i := high;
    ghost var start := Rest(before);
    ghost var seen: seq<int> := [];
    WaitingRest(before, prev0);
    NoPairs(load, float, start, offs0);
    DownNone(high);
    while i > low
      invariant low <= i <= high || i == high
      invariant seen == Down(high, i) && Waiting(start + seen, prev)
      invariant es == Pairs(load, float, start + seen, offs0) && offs == Below(start + seen, offs0)
    {
      DownNext(high, i);
      AddOne(load, float, start + seen, i, offs0);
      WaitingNext(start + seen, prev, i);
      ghost var next := seen + [i];
      assert start + next == start + seen + [i];
      if prev == -1 {
        prev := i;
      } else {
        es := es + [Pair(load, float, prev, i, offs)];
        offs := offs - 2;
        prev := -1;
      }
      seen := next;
      i := i - 1;
    }
    DownPast(high, low, i);
    WaitingJoin(before, Down(high, low), prev);
  }

  /** `prev` is the register left over from the list, -1 when there is none. */
  predicate Waiting(l: seq<int>, prev: int) {
    if |l| % 2 == 1 then prev == l[|l| - 1] && prev >= 0 else prev == -1
  }

  lemma WaitingRest(l: seq<int>, prev: int)
    requires Waiting(l, prev)
    ensures Waiting(Rest(l) + [], prev) && Rest(l) + [] == Rest(l)
  {
  }

  lemma WaitingJoin(before: seq<int>, l: seq<int>, prev: int)
    requires Waiting(Rest(before) + l, prev)
    ensures Waiting(before + l, prev)
  {
  }

  lemma WaitingNext(l: seq<int>, prev: int, i: int)
    requires Waiting(l, prev) && i >= 0
    ensures prev == -1 <==> |l| % 2 == 0
    ensures Waiting(l + [i], if prev == -1 then i else -1)
  {
  }

  lemma NoPairs(load: bool, float: bool, l: seq<int>, unit: int)
    requires |l| < 2
    ensures Pairs(load, float, l, unit) == [] && Below(l, unit) == unit && Pairs(load, float, l + [], unit) == []
      && Below(l + [], unit) == unit
  {
    assert l + [] == l;
  }

  lemma DownNone(high: int)
    ensures Down(high, high) == []
  {
  }

  lemma DownPast(high: int, low: int, i: int)
    requires i <= low && (low <= i <= high || i == high)
    ensures Down(high, i) == Down(high, low)
  {
  }

  lemma AddOne(load: bool, float: bool, l: seq<int>, i: int, unit: int)
    ensures Pairs(load, float, l + [i], unit) ==
      Pairs(load, float, l, unit) + if |l| % 2 == 1 then [Pair(load, float, l[|l| - 1], i, Below(l, unit))] else []
    ensures Below(l + [i], unit) == if |l| % 2 == 1 then Below(l, unit) - 2 else Below(l, unit)
  {
    hide Pair;
    PairsSplit(load, float, l, [i], unit);
    var two := Rest(l) + [i];
    if |l| % 2 == 1 {
      assert two[2..] == [];
      assert Pairs(load, float, two, Below(l, unit)) == [Pair(load, float, two[0], two[1], Below(l, unit))]
        + Pairs(load, float, [], Below(l, unit) - 2);
    }
  }

  lemma TwoRanges(load: bool, float: bool, a: seq<int>, b: seq<int>, unit: int)
    ensures Pairs(load, float, Rest([]) + a, unit) + Pairs(load, float, Rest([] + a) + b, Below(Rest([]) + a, unit))
      == Pairs(load, float, a + b, unit)
    ensures Below(Rest([] + a) + b, Below(Rest([]) + a, unit)) == Below(a + b, unit)
  {
    hide Pairs;
    assert Rest([]) + a == a && [] + a == a;
    PairsSplit(load, float, a, b, unit);
  }

  lemma DownPositive(high: int, low: int)
    requires low >= 0
    ensures forall r :: r in Down(high, low) ==> r >= 0
  {
    forall r | r in Down(high, low)
      ensures r >= 0
    {
      DownHas(high, low, r);
    }
  }

  /** Two ranges of registers of the same kind, one after the other. */
  method PairTwice(load: bool, float: bool, high: int, low: int, high2: int, low2: int, unit: int)
    returns (es: seq<Ins>, prev: int, offs: int)
    requires low >= 0 && low2 >= 0
    ensures var l := Down(high, low) + Down(high2, low2);
      es == Pairs(load, float, l, unit) && Waiting(l, prev) && offs == Below(l, unit)
  {
    hide Pairs, Down;
    ghost var a := Down(high, low);
    DownPositive(high, low);
    var es1, es2;
    es1, prev, offs := PairDown(load, float, high, low, -1, unit, []);
    assert [] + a == a;
    es2, prev, offs := PairDown(load, float, high2, low2, prev, offs, a);
    TwoRanges(load, float, a, Down(high2, low2), unit);
    es := es1 + es2;
  }

  /** The stores of the prologue and the loads of the epilogue: the same loops, and then
      one instruction for a floating point and one for an integer register left over. */
  method EmitBody(load: bool, f: Func, unit: int) returns (es: seq<Ins>)
    requires Checked(f) && unit % 2 == 0
    ensures es == Body(load, Ints(f), Floats(f), unit)
  {
    hide Pairs, Down, Single, Waiting, Below, Last;
    var tmp := S0 - f.saveds;
    var ints, prev, offs := PairTwice(load, false, S0 - f.kept, tmp, f.scratches, SCRATCH_REGS, unit);
    tmp := FS0 - f.fsaveds;
    StillEven(Ints(f), unit);
    ghost var unit1 := offs;
    var floats, fprev;
    floats, fprev, offs := PairTwice(load, true, FS0, tmp, f.fscratches, SCRATCH_FLOATS, offs);
    StillEven(Floats(f), unit1);
    es := ints + floats;
    ghost var pairs := es;
    if fprev != -1 {
      es := es + [Single(load, true, fprev, OrOne(offs))];
    }
    if prev != -1 {
      es := es + [Single(load, false, prev, if fprev == -1 then OrOne(offs) else offs)];
    }
    assert es == pairs + (if fprev != -1 then [Single(load, true, fprev, OrOne(offs))] else [])
      + if prev != -1 then [Single(load, false, prev, if fprev == -1 then OrOne(offs) else offs)] else [];
    LastEmitted(load, Ints(f), Floats(f), offs, prev, fprev, es, pairs);
  }

  /** The lowest bit of the offset field is set by "or". */
  function OrOne(offs: int): int {
    if offs % 2 == 0 then offs + 1 else offs
  }

  lemma StillEven(l: seq<int>, unit: int)
    requires unit % 2 == 0
    ensures Below(l, unit) % 2 == 0
  {
  }

  lemma LastEmitted(load: bool, ints: seq<int>, floats: seq<int>, offs: int, prev: int, fprev: int, es: seq<Ins>,
                    pairs: seq<Ins>)
    requires Waiting(ints, prev) && Waiting(floats, fprev) && offs % 2 == 0
    requires es == pairs + (if fprev != -1 then [Single(load, true, fprev, OrOne(offs))] else [])
      + if prev != -1 then [Single(load, false, prev, if fprev == -1 then OrOne(offs) else offs)] else []
    ensures es == pairs + Last(load, ints, floats, offs)
  {
    hide Single;
  }

  // ------------------------------------------------------------------- arguments

  /** After the first `n` arguments: those that are to stay are in S0, S1, ... */
  ghost predicate MovedArgs(args: seq<Arg>, n: nat, c: Cpu, d: Cpu)
    requires n <= |args|
  {
    && d.sp == c.sp && d.mem == c.mem && d.fregs == c.fregs
    && (forall r :: r <= S0 - SavedArgs(args, n) || r > S0 ==> Get(d, false, r) == Get(c, false, r))
    && forall i :: 0 <= i < n && Stays(args[i]) ==> ArgIn(args, i, c, d)
  }

  /** An integer argument that is to be in a saved register. */
  predicate Stays(a: Arg) {
    a.Word? && !a.scratch
  }

  predicate ArgIn(args: seq<Arg>, i: nat, c: Cpu, d: Cpu)
    requires i <= |args|
  {
    Get(d, false, S0 - SavedArgs(args, i)) == Get(c, false, 1 + WordArgs(args, i))
  }

  lemma {:induction false} ArgsCount(args: seq<Arg>, n: nat)
    requires n <= |args|
    ensures SavedArgs(args, n) <= WordArgs(args, n) <= n
    decreases n
  {
    if n > 0 {
      ArgsCount(args, n - 1);
    }
  }

  lemma {:induction false} SavedArgsGrow(args: seq<Arg>, i: nat, n: nat)
    requires i < n <= |args| && Stays(args[i])
    ensures SavedArgs(args, i) < SavedArgs(args, n)
    decreases n
  {
    if i < n - 1 {
      SavedArgsGrow(args, i, n - 1);
    }
  }

  lemma ArgMoved(args: seq<Arg>, n: nat, c: Cpu, d: Cpu)
    requires n < |args| <= 4 && Stays(args[n]) && MovedArgs(args, n, c, d)
    ensures MovedArgs(args, n + 1, c, Step(Copy(S0 - SavedArgs(args, n), 1 + WordArgs(args, n)), d))
  {
    hide SavedArgs, WordArgs, Get, Step, Stays;
    var dst, src := S0 - SavedArgs(args, n), 1 + WordArgs(args, n);
    var e := Step(Copy(dst, src), d);
    ArgsCount(args, n);
    OneMore(args, n);
    CopyOnly(d, dst, src);
    forall i | 0 <= i < n + 1 && Stays(args[i])
      ensures ArgIn(args, i, c, e)
    {
      if i < n {
        SavedArgsGrow(args, i, n);
        assert ArgIn(args, i, c, d);
      }
    }
  }

  lemma CopyOnly(d: Cpu, dst: int, src: int)
    ensures var e := Step(Copy(dst, src), d);
      && e.sp == d.sp && e.mem == d.mem && e.fregs == d.fregs
      && forall r :: Get(e, false, r) == Get(d, false, if r == dst then src else r)
  {
  }

  lemma OneMore(args: seq<Arg>, n: nat)
    requires n < |args|
    ensures SavedArgs(args, n + 1) == SavedArgs(args, n) + if Stays(args[n]) then 1 else 0
    ensures WordArgs(args, n + 1) == WordArgs(args, n) + if args[n].Word? then 1 else 0
  {
  }

  lemma ArgSkipped(args: seq<Arg>, n: nat, c: Cpu, d: Cpu)
    requires n < |args| && !Stays(args[n]) && MovedArgs(args, n, c, d)
    ensures MovedArgs(args, n + 1, c, d)
  {
    hide SavedArgs, WordArgs, Get, ArgIn;
    OneMore(args, n);
  }

  ghost predicate MovesArgs(args: seq<Arg>, n: nat, es: seq<Ins>)
    requires n <= |args|
  {
    forall c: Cpu :: MovedArgs(args, n, c, Run(es, c)) && (c.sp % 16 == 0 ==> Legal(es, c))
  }

  lemma NoArgs(args: seq<Arg>)
    ensures MovesArgs(args, 0, [])
  {
  }

  lemma NextArg(args: seq<Arg>, n: nat, es: seq<Ins>)
    requires n < |args| <= 4 && MovesArgs(args, n, es)
    ensures MovesArgs(args, n + 1,
                      if Stays(args[n]) then es + [Copy(S0 - SavedArgs(args, n), 1 + WordArgs(args, n))] else es)
  {
    hide MovedArgs, Step;
    var e := Copy(S0 - SavedArgs(args, n), 1 + WordArgs(args, n));
    var fs := if Stays(args[n]) then es + [e] else es;
    forall c
      ensures MovedArgs(args, n + 1, c, Run(fs, c)) && (c.sp % 16 == 0 ==> Legal(fs, c))
    {
      if Stays(args[n]) {
        RunConcat(es, [e], c);
        RunOne(e, Run(es, c));
        ArgMoved(args, n, c, Run(es, c));
        MovedSp(args, n, c, Run(es, c));
      } else {
        ArgSkipped(args, n, c, Run(es, c));
      }
    }
  }

  lemma MovedSp(args: seq<Arg>, n: nat, c: Cpu, d: Cpu)
    requires n <= |args| && MovedArgs(args, n, c, d)
    ensures d.sp == c.sp
  {
  }

  /** The loop over the argument types. */
  method EmitMoves(args: seq<Arg>) returns (es: seq<Ins>)
    requires |args| <= 4
    ensures MovesArgs(args, |args|, es)
  {
    hide MovesArgs, SavedArgs, WordArgs;
    es := [];
    var savedArgs, tmp := 0, 1;
    var n := 0;
    NoArgs(args);
    CountNone(args);
    while n < |args|
      invariant 0 <= n <= |args| && savedArgs == SavedArgs(args, n) && tmp == 1 + WordArgs(args, n)
      invariant MovesArgs(args, n, es)
    {
      NextArg(args, n, es);
      OneMore(args, n);
      if args[n].Word? {
        if !args[n].scratch {
          es := es + [Copy(S0 - savedArgs, tmp)];
          savedArgs := savedArgs + 1;
        }
        tmp := tmp + 1;
      }
      n := n + 1;
    }
  }

  lemma CountNone(args: seq<Arg>)
    ensures SavedArgs(args, 0) == 0 && WordArgs(args, 0) == 0
  {
  }

  // ------------------------------------------------- the stack pointer goes down

  /** The stack pointer is `size` lower, and the frame pointer and link register are
      stored where it points. */
  function Dropped(size: int, c: Cpu): Cpu {
    Put(Put(c, c.sp - size, false, FP), c.sp - size + 8, false, LR).(sp := c.sp - size)
  }

  ghost predicate Drops(size: int, es: seq<Ins>) {
    forall c: Cpu {:trigger DropsAt(size, es, c)} :: DropsAt(size, es, c)
  }

  predicate DropsAt(size: int, es: seq<Ins>, c: Cpu) {
    c.sp % 16 == 0 ==> Run(es, c) == Dropped(size, c) && Legal(es, c)
  }

  lemma PreDrops(size: int)
    requires 0 < size <= 512 && size % 16 == 0
    ensures Drops(size, [StorePre(FP, LR, -size)])
  {
    PairOffsetOf(-size);
    forall c: Cpu {:trigger DropsAt(size, [StorePre(FP, LR, -size)], c)}
      ensures DropsAt(size, [StorePre(FP, LR, -size)], c)
    {
      RunOne(StorePre(FP, LR, -size), c);
    }
  }

  lemma PairOffsetOf(imm: int)
    requires imm % 16 == 0 && -512 <= imm <= 504
    ensures PairOffset(imm)
  {
    assert imm == 8 * (2 * (imm / 16));
  }

  lemma PlainDrops()
    ensures Drops(0, [StorePair(false, FP, LR, 0)])
  {
    forall c: Cpu
      ensures DropsAt(0, [StorePair(false, FP, LR, 0)], c)
    {
      RunOne(StorePair(false, FP, LR, 0), c);
    }
  }

  lemma SubRun(imm: int, high: bool, c: Cpu)
    requires 0 <= imm < 4096 && c.sp % 16 == 0
    ensures Run([SubSp(imm, high)], c) == c.(sp := c.sp - imm * Scale(high)) && Legal([SubSp(imm, high)], c)
  {
    RunOne(SubSp(imm, high), c);
  }

  /** The bytes that an immediate stands for. */
  predicate Means(imm: int, high: bool, bytes: int) {
    bytes == imm * Scale(high)
  }

  lemma SubDropsAt(imm: int, high: bool, down: int, size: int, es: seq<Ins>, c: Cpu)
    requires 0 <= imm < 4096 && Means(imm, high, down) && down % 16 == 0 && DropsAt(size, es, c.(sp := c.sp - down))
    ensures DropsAt(down + size, [SubSp(imm, high)] + es, c)
  {
    hide Run, Legal, Scale, Dropped;
    if c.sp % 16 == 0 {
      SumSixteen(c.sp, down);
      RunConcat([SubSp(imm, high)], es, c);
      SubRun(imm, high, c);
      DroppedAgain(down, size, c);
    }
  }

  lemma SubDrops(imm: int, high: bool, down: int, size: int, es: seq<Ins>)
    requires 0 <= imm < 4096 && Means(imm, high, down) && down % 16 == 0 && Drops(size, es)
    ensures Drops(down + size, [SubSp(imm, high)] + es)
  {
    hide DropsAt, Means;
    forall c: Cpu {:trigger DropsAt(down + size, [SubSp(imm, high)] + es, c)}
      ensures DropsAt(down + size, [SubSp(imm, high)] + es, c)
    {
      SubDropsAt(imm, high, down, size, es, c);
    }
  }

  lemma DroppedAgain(down: int, size: int, c: Cpu)
    ensures Dropped(size, c.(sp := c.sp - down)) == Dropped(down + size, c)
  {
    assert c.sp - down - size == c.sp - (down + size);
  }

  lemma SumSixteen(a: int, b: int)
    requires a % 16 == 0 && b % 16 == 0
    ensures (a - b) % 16 == 0 && (a + b) % 16 == 0
  {
    assert a == 16 * (a / 16) && b == 16 * (b / 16);
    assert a - b == 16 * (a / 16 - b / 16) && a + b == 16 * (a / 16 + b / 16);
  }

  lemma HighPart(size: int)
    requires size % 16 == 0 && size >= 0
    ensures size == size / 4096 * 4096 + size % 4096 && size / 4096 * 4096 % 16 == 0 && size % 4096 % 16 == 0
  {
    var q, r := size / 4096, size % 4096;
    assert q * 4096 == 16 * (256 * q);
    assert r == 16 * (size / 16 - 256 * q);
  }

  /** The last part of the prologue outside Windows: the space that is still missing, in
      up to two subtractions, and the frame pointer and link register below it. */
  method EmitDrop(size: int) returns (es: seq<Ins>)
    requires 0 < size <= MAX_LOCAL + 512 && size % 16 == 0
    ensures Drops(size, es)
  {
    hide Drops, Run, Legal;
    HighPart(size);
    var localSize := size;
    var high: seq<Ins> := [];
    if localSize > 0xfff {
      high := [SubSp(localSize / 4096, true)];
      localSize := localSize % 4096;
    }
    if localSize > 512 || localSize == 0 {
      es := [StorePair(false, FP, LR, 0)];
      PlainDrops();
      if localSize != 0 {
        SubDrops(localSize, false, localSize, 0, es);
        es := [SubSp(localSize, false)] + es;
      }
    } else {
      PreDrops(localSize);
      es := [StorePre(FP, LR, -localSize)];
    }
    if size > 0xfff {
      SubDrops(size / 4096, true, size / 4096 * 4096, localSize, es);
    }
    assert [] + es == es;
    es := high + es;
  }

  // --------------------------------------------------------------- what is promised

  /** What the prologue has done when it took the machine from `c` to `d`. */
  ghost predicate Entered(f: Func, c: Cpu, d: Cpu) {
    && d.sp == c.sp - FrameSize(f)
    && WordAt(d, d.sp) == Get(c, false, FP) && WordAt(d, d.sp + 8) == Get(c, false, LR)
    && Hold(Homes(f), c.sp, d, c)
    && (forall a :: a < d.sp || a >= c.sp ==> WordAt(d, a) == WordAt(c, a))
    && Get(d, false, FP) == d.sp && d.fregs == c.fregs
    && ArgsEntered(f, c, d)
  }

  ghost predicate ArgsEntered(f: Func, c: Cpu, d: Cpu) {
    var n := if f.regArg then 0 else |f.args|;
    && (forall r :: (r <= S0 - SavedArgs(f.args, n) || r > S0) && r != FP ==> Get(d, false, r) == Get(c, false, r))
    && forall i :: 0 <= i < n && f.args[i].Word? && !f.args[i].scratch ==>
         Get(d, false, S0 - SavedArgs(f.args, i)) == Get(c, false, 1 + WordArgs(f.args, i))
  }

  ghost predicate Opens(f: Func, es: seq<Ins>) {
    forall c: Cpu :: c.sp % 16 == 0 ==> Legal(es, c) && Entered(f, c, Run(es, c))
  }

  /** Registers stored, seen from the stack pointer at the call. */
  lemma BodyStores(f: Func, unit: int, c: Cpu)
    requires Checked(f)
    ensures var d := Run(Body(false, Ints(f), Floats(f), unit), c); var base := c.sp + 8 * (unit + 2);
      && d.sp == c.sp && d.regs == c.regs && d.fregs == c.fregs && Hold(Homes(f), base, d, c)
      && forall a :: a < base - FrameSize(f) + 16 || a >= base ==> WordAt(d, a) == WordAt(c, a)
  {
    hide Ints, Floats, Body, BodyCells, Distinct, Run, Hold, Get, FrameSize;
    var base := c.sp + 8 * (unit + 2);
    BodyRun(false, Ints(f), Floats(f), unit, -2, c);
    HomesApart(f);
    Stored(Homes(f), base, c);
    forall a | a < base - FrameSize(f) + 16 || a >= base
      ensures Untouched(Homes(f), base, a)
    {
    }
  }

  lemma HoldAfter(f: Func, base: int, c: Cpu, d: Cpu, e: Cpu)
    requires Checked(f) && Hold(Homes(f), base, d, c)
    requires forall a :: a >= base - FrameSize(f) + 16 && a < base ==> WordAt(e, a) == WordAt(d, a)
    ensures Hold(Homes(f), base, e, c)
  {
    hide FrameSize, Homes, WordAt, Get;
    HomesApart(f);
  }

  lemma DropMemory(size: int, c: Cpu)
    requires size >= 16
    ensures var d := Dropped(size, c);
      && d.sp == c.sp - size && d.regs == c.regs && d.fregs == c.fregs
      && WordAt(d, d.sp) == Get(c, false, FP) && WordAt(d, d.sp + 8) == Get(c, false, LR)
      && forall a :: a < d.sp || a >= d.sp + 16 ==> WordAt(d, a) == WordAt(c, a)
  {
  }

  lemma SetsFp(c: Cpu)
    ensures var d := Step(SetFp, c);
      && d.sp == c.sp && d.mem == c.mem && d.fregs == c.fregs && Get(d, false, FP) == c.sp
      && forall r :: r != FP ==> Get(d, false, r) == Get(c, false, r)
  {
  }

  /** A frame of at most 512 bytes: the pair goes first, with the whole size. */
  lemma SmallFrame(f: Func, moves: seq<Ins>, drop: seq<Ins>, es: seq<Ins>, c: Cpu)
    requires MovesArgs(f.args, if f.regArg then 0 else |f.args|, moves)
    requires es == drop + Body(false, Ints(f), Floats(f), FrameSize(f) / 8 - 2) + moves + [SetFp]
    requires Checked(f) && c.sp % 16 == 0 && FrameSize(f) <= 512 && Drops(FrameSize(f), drop)
    ensures Legal(es, c) && Entered(f, c, Run(es, c))
  {
    hide Run, Legal, Body, Ints, Floats, FrameSize, Homes, Step, Hold, Get, WordAt, Dropped, MovedArgs, SavedArgs,
      WordArgs;
    var size := FrameSize(f);
    SizeFits(f);
    HalfEight(size);
    var body := Body(false, Ints(f), Floats(f), size / 8 - 2);
    var c1 := Run(drop, c);
    assert DropsAt(size, drop, c);
    SumSixteen(c.sp, size);
    DropMemory(size, c);
    BodyFits(f);
    BodyStores(f, size / 8 - 2, c1);
    BodyLegal(false, Ints(f), Floats(f), size / 8 - 2, c1);
    var c2 := Run(body, c1);
    var c3 := Run(moves, c2);
    RunConcat(drop, body, c);
    RunConcat(drop + body, moves, c);
    RunConcat(drop + body + moves, [SetFp], c);
    RunOne(SetFp, c3);
    SetsFp(c3);
    SmallEntered(f, c, c1, c2, c3, Step(SetFp, c3));
  }

  lemma SmallOpens(f: Func, moves: seq<Ins>, drop: seq<Ins>, es: seq<Ins>)
    requires MovesArgs(f.args, if f.regArg then 0 else |f.args|, moves)
    requires es == drop + Body(false, Ints(f), Floats(f), FrameSize(f) / 8 - 2) + moves + [SetFp]
    requires Checked(f) && FrameSize(f) <= 512 && Drops(FrameSize(f), drop)
    ensures Opens(f, es)
  {
    hide Drops, MovesArgs, Entered, Run, Legal, Body, FrameSize, RoomSize, Checked;
    forall c: Cpu | c.sp % 16 == 0
      ensures Legal(es, c) && Entered(f, c, Run(es, c))
    {
      SmallFrame(f, moves, drop, es, c);
    }
  }

  lemma HalfEight(size: int)
    requires size % 16 == 0
    ensures size / 8 * 8 == size && size / 8 % 2 == 0
  {
    assert size == 16 * (size / 16);
    assert size / 8 == 2 * (size / 16);
  }

  lemma BodyFits(f: Func)
    requires Checked(f)
    ensures FrameSize(f) / 8 - 2 + 2 - |Ints(f)| - |Floats(f)| >= 0
    ensures FrameSize(f) >= SavedSize(f)
  {
    hide Ints, Floats;
    SizeFits(f);
    HalfEight(FrameSize(f));
  }

  lemma SmallEntered(f: Func, c: Cpu, c1: Cpu, c2: Cpu, c3: Cpu, d: Cpu)
    requires Checked(f) && c1.sp == c.sp - FrameSize(f) && c1.regs == c.regs && c1.fregs == c.fregs
    requires WordAt(c1, c1.sp) == Get(c, false, FP) && WordAt(c1, c1.sp + 8) == Get(c, false, LR)
    requires forall a :: a < c1.sp || a >= c1.sp + 16 ==> WordAt(c1, a) == WordAt(c, a)
    requires c2.sp == c1.sp && c2.regs == c1.regs && c2.fregs == c1.fregs && Hold(Homes(f), c.sp, c2, c1)
    requires forall a :: a < c1.sp + 16 || a >= c.sp ==> WordAt(c2, a) == WordAt(c1, a)
    requires MovedArgs(f.args, if f.regArg then 0 else |f.args|, c2, c3)
    requires d.sp == c3.sp && d.mem == c3.mem && d.fregs == c3.fregs && Get(d, false, FP) == c3.sp
    requires forall r :: r != FP ==> Get(d, false, r) == Get(c3, false, r)
    requires FrameSize(f) >= 16
    ensures Entered(f, c, d)
  {
    hide FrameSize, Homes, SavedArgs, WordArgs;
    SameRegisters(c, c1, c2);
    SameHold(Homes(f), c.sp, c2, c1, c);
    SameMemory(c3, c2, d);
    SameWords(Homes(f), c.sp, c2, d, c);
  }

  lemma SameRegisters(c: Cpu, c1: Cpu, c2: Cpu)
    requires c1.regs == c.regs && c2.regs == c1.regs
    ensures forall r :: Get(c2, false, r) == Get(c, false, r)
  {
  }

  lemma SameHold(cells: seq<Cell>, base: int, d: Cpu, c1: Cpu, c: Cpu)
    requires Hold(cells, base, d, c1) && c1.regs == c.regs && c1.fregs == c.fregs
    ensures Hold(cells, base, d, c)
  {
  }

  lemma SameMemory(c3: Cpu, c2: Cpu, d: Cpu)
    requires d.mem == c3.mem && c3.mem == c2.mem
    ensures forall a :: WordAt(d, a) == WordAt(c2, a)
  {
  }

  lemma SameWords(cells: seq<Cell>, base: int, c2: Cpu, d: Cpu, c: Cpu)
    requires Hold(cells, base, c2, c) && forall a :: WordAt(d, a) == WordAt(c2, a)
    ensures Hold(cells, base, d, c)
  {
    hide WordAt, Get;
  }

  /** Room for the registers alone, in a larger frame. */
  function RoomSize(f: Func): int {
    RoundUp16(SavedSize(f) - 16)
  }

  lemma RoomFits(f: Func)
    requires Checked(f)
    ensures 0 <= RoomSize(f) <= 144 && RoomSize(f) % 16 == 0 && RoomSize(f) >= SavedSize(f) - 16
    ensures RoomSize(f) / 8 - 2 + 2 - |Ints(f)| - |Floats(f)| >= 0
    ensures FrameSize(f) > 512 ==>
      16 <= FrameSize(f) - RoomSize(f) <= MAX_LOCAL + 512 && (FrameSize(f) - RoomSize(f)) % 16 == 0
  {
    hide Ints, Floats;
    SizeFits(f);
    RoundUp16Fits(SavedSize(f) - 16);
    HalfEight(RoomSize(f));
    SumSixteen(FrameSize(f), RoomSize(f));
  }

  /** A larger frame: room for the registers, then the rest. */
  lemma LargeFrame(f: Func, moves: seq<Ins>, drop: seq<Ins>, es: seq<Ins>, c: Cpu)
    requires MovesArgs(f.args, if f.regArg then 0 else |f.args|, moves)
    requires es == [SubSp(RoomSize(f), false)] + Body(false, Ints(f), Floats(f), RoomSize(f) / 8 - 2) + moves + drop
      + [SetFp]
    requires Checked(f) && c.sp % 16 == 0 && FrameSize(f) > 512 && Drops(FrameSize(f) - RoomSize(f), drop)
    ensures Legal(es, c) && Entered(f, c, Run(es, c))
  {
    hide Run, Legal, Body, Ints, Floats, FrameSize, Homes, Hold, Get, WordAt, Dropped, MovedArgs, SavedArgs, WordArgs,
      RoomSize, SavedSize;
    var room := RoomSize(f);
    RoomFits(f);
    HalfEight(room);
    var sub := [SubSp(room, false)];
    var body := Body(false, Ints(f), Floats(f), room / 8 - 2);
    RunOne(SubSp(room, false), c);
    var c1 := Run(sub, c);
    SumSixteen(c.sp, room);
    BodyStores(f, room / 8 - 2, c1);
    BodyLegal(false, Ints(f), Floats(f), room / 8 - 2, c1);
    var c2 := Run(body, c1);
    var c3 := Run(moves, c2);
    MovedSp(f.args, if f.regArg then 0 else |f.args|, c2, c3);
    var c4 := Run(drop, c3);
    assert DropsAt(FrameSize(f) - room, drop, c3);
    DropMemory(FrameSize(f) - room, c3);
    RunConcat(sub, body, c);
    RunConcat(sub + body, moves, c);
    RunConcat(sub + body + moves, drop, c);
    RunConcat(sub + body + moves + drop, [SetFp], c);
    SumSixteen(c3.sp, FrameSize(f) - room);
    RunOne(SetFp, c4);
    LargeEnd(f, c, c1, c2, c3, c4);
  }

  lemma LargeOpens(f: Func, moves: seq<Ins>, drop: seq<Ins>, es: seq<Ins>)
    requires MovesArgs(f.args, if f.regArg then 0 else |f.args|, moves)
    requires es == [SubSp(RoomSize(f), false)] + Body(false, Ints(f), Floats(f), RoomSize(f) / 8 - 2) + moves + drop
      + [SetFp]
    requires Checked(f) && FrameSize(f) > 512 && Drops(FrameSize(f) - RoomSize(f), drop)
    ensures Opens(f, es)
  {
    hide Drops, MovesArgs, Entered, Run, Legal, Body, FrameSize, RoomSize, Checked;
    forall c: Cpu | c.sp % 16 == 0
      ensures Legal(es, c) && Entered(f, c, Run(es, c))
    {
      LargeFrame(f, moves, drop, es, c);
    }
  }

  lemma LargeEnd(f: Func, c: Cpu, c1: Cpu, c2: Cpu, c3: Cpu, c4: Cpu)
    requires Checked(f) && c1.sp <= c.sp && c1.regs == c.regs && c1.fregs == c.fregs && c1.mem == c.mem
    requires c2.sp == c1.sp && c2.regs == c1.regs && c2.fregs == c1.fregs && Hold(Homes(f), c.sp, c2, c1)
    requires forall a :: a < c.sp - FrameSize(f) + 16 || a >= c.sp ==> WordAt(c2, a) == WordAt(c1, a)
    requires MovedArgs(f.args, if f.regArg then 0 else |f.args|, c2, c3)
    requires c4.sp == c.sp - FrameSize(f) && c4.regs == c3.regs && c4.fregs == c3.fregs && FrameSize(f) >= 16
    requires WordAt(c4, c4.sp) == Get(c3, false, FP) && WordAt(c4, c4.sp + 8) == Get(c3, false, LR)
    requires forall a :: a < c4.sp || a >= c4.sp + 16 ==> WordAt(c4, a) == WordAt(c3, a)
    ensures Entered(f, c, Step(SetFp, c4))
  {
    hide FrameSize, Homes, SavedArgs, WordArgs, Step;
    var d := Step(SetFp, c4);
    SetsFp(c4);
    SameRegisters(c, c1, c2);
    SameRegisters(c3, c3, c4);
    SameHold(Homes(f), c.sp, c2, c1, c);
    SameMemory(c3, c2, c3);
    SameMemory(d, c4, d);
    HoldAfter(f, c.sp, c, c2, d);
    LargeEntered(f, c, c2, c3, c4, d);
  }

  lemma LargeEntered(f: Func, c: Cpu, c2: Cpu, c3: Cpu, c4: Cpu, d: Cpu)
    requires Checked(f) && c2.fregs == c.fregs && Hold(Homes(f), c.sp, d, c)
    requires forall r :: Get(c2, false, r) == Get(c, false, r)
    requires forall r :: Get(c4, false, r) == Get(c3, false, r)
    requires forall a :: a < c.sp - FrameSize(f) + 16 || a >= c.sp ==> WordAt(c2, a) == WordAt(c, a)
    requires forall a :: WordAt(c3, a) == WordAt(c2, a)
    requires forall a :: WordAt(d, a) == WordAt(c4, a)
    requires MovedArgs(f.args, if f.regArg then 0 else |f.args|, c2, c3)
    requires c4.sp == c.sp - FrameSize(f) && c4.fregs == c3.fregs && FrameSize(f) >= 16
    requires WordAt(c4, c4.sp) == Get(c3, false, FP) && WordAt(c4, c4.sp + 8) == Get(c3, false, LR)
    requires forall a :: a < c4.sp || a >= c4.sp + 16 ==> WordAt(c4, a) == WordAt(c3, a)
    requires d.sp == c4.sp && d.fregs == c4.fregs && Get(d, false, FP) == c4.sp
    requires forall r :: r != FP ==> Get(d, false, r) == Get(c4, false, r)
    ensures Entered(f, c, d)
  {
    hide FrameSize, Homes, SavedArgs, WordArgs, WordAt, Get, Hold;
  }

  /** `sljit_emit_enter`. */
  method EmitEnter(f: Func) returns (es: seq<Ins>, localSize: int)
    requires Checked(f)
    ensures localSize == FrameSize(f)
    ensures Opens(f, es)
  {
    hide Ints, Floats, Body, Drops, MovesArgs, Opens, Checked, RoundUp16;
    var savedRegsSize := SavedRegsSize(f);
    localSize := RoundUp16(f.locals + savedRegsSize);
    SizeFits(f);
    var moves: seq<Ins> := [];
    NoArgs(f.args);
    AtMostFour(f);
    if localSize <= 512 {
      PreDrops(localSize);
      HalfEight(localSize);
      var body := EmitBody(false, f, localSize / 8 - 2);
      if !f.regArg {
        moves := EmitMoves(f.args);
      }
      var first := [StorePre(FP, LR, -localSize)];
      es := first + body + moves + [SetFp];
      SmallOpens(f, moves, first, es);
    } else {
      RoomFits(f);
      savedRegsSize := RoundUp16(savedRegsSize - 16);
      HalfEight(savedRegsSize);
      var body := EmitBody(false, f, savedRegsSize / 8 - 2);
      if !f.regArg {
        moves := EmitMoves(f.args);
      }
      var drop := EmitDrop(localSize - savedRegsSize);
      es := [SubSp(savedRegsSize, false)] + body + moves + drop + [SetFp];
      LargeOpens(f, moves, drop, es);
    }
  }

  /** The macros GET_SAVED_REGISTERS_SIZE and GET_SAVED_FLOAT_REGISTERS_SIZE, added up. */
  method SavedRegsSize(f: Func) returns (size: int)
    requires Checked(f)
    ensures size == SavedSize(f)
  {
    hide Ints, Floats, Checked;
    ListsAdd(f);
    size := ((if f.scratches < SCRATCH_REGS then 0 else f.scratches - SCRATCH_REGS) + (f.saveds - f.kept) + 2) * 8;
    size := size + ((if f.fscratches < SCRATCH_FLOATS then 0 else f.fscratches - SCRATCH_FLOATS) + f.fsaveds) * 8;
  }

  lemma AtMostFour(f: Func)
    requires Checked(f)
    ensures |f.args| <= 4
  {
  }

  /** The sizes that the macros compute are the lengths of the lists. */
  lemma ListsAdd(f: Func)
    requires Checked(f)
    ensures |Ints(f)| == (if f.scratches < SCRATCH_REGS then 0 else f.scratches - SCRATCH_REGS) + (f.saveds - f.kept)
    ensures |Floats(f)| == (if f.fscratches < SCRATCH_FLOATS then 0 else f.fscratches - SCRATCH_FLOATS) + f.fsaveds
  {
  }
}
