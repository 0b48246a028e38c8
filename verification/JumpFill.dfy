/** The last loop of `sljit_generate_code`, and the whole of it. */
module JumpFill {
  import opened Arm64
  import opened JumpLayout
  import opened JumpLanding
  import opened JumpReach
  import opened JumpPasses
  import opened JumpGenerate
  import opened JumpEmit
  import opened JumpWalk

  function Overlay(code: seq<Ins>, a: nat, part: seq<Ins>): (r: seq<Ins>)
    requires a + |part| <= |code|
    ensures |r| == |code|
  {
    code[..a] + part + code[a + |part|..]
  }

  /** `generate_jump_or_mov_addr`, for the record's address and choice. */
  function PatchCode(i: Ins, r: Record, dest: nat, base: nat): seq<Ins> {
    var pc := base + 4 * r.addr;
    var reg := if i.BranchReg? || i.Mark? then i.reg else 0;
    if !r.mov && r.patch.Cond? then (if i.Skip? then [Skip(i.test, i.sense, Signed(dest - pc) / 4)] else [i])
    else if !r.mov && r.patch.Near? then [Branch(r.link, Signed(dest - pc) / 4)]
    else if r.patch.Near? then [Adr(reg, Signed(dest - pc))]
    else LoadCode(r.patch, pc, dest, reg)
  }

  /** The word in whose turn the code of word `v` is finished. */
  predicate OwnerBefore(p: Prog, v: nat, b: nat)
    requires v < |p.words|
  {
    if p.words[v].Op? && Conditional(p, v + 1) then v + 1 < b else v < b
  }

  ghost predicate Done(p: Prog, base: nat, code: seq<Ins>, v: nat)
    requires Built(p) && v < |p.words|
  {
    Slice(code, Act(p, base, v), WordCode(p, base, v))
  }

  /** Everything that belongs to words before `b` is final. */
  ghost predicate FilledTo(p: Prog, base: nat, code: seq<Ins>, b: nat)
    requires Built(p)
  {
    forall v :: 0 <= v < |p.words| ==> if OwnerBefore(p, v, b) then Done(p, base, code, v) else Raw(p, base, code, v)
  }

  lemma PlainRawDone(p: Prog, base: nat, code: seq<Ins>, v: nat)
    requires Built(p) && v < |p.words| && p.words[v].Op? && !Conditional(p, v + 1) && Raw(p, base, code, v)
    ensures Done(p, base, code, v)
  {
    hide Act;
  }

  /** Plain words need nothing more. */
  lemma FilledOn(p: Prog, base: nat, code: seq<Ins>, b: nat, u: nat)
    requires Built(p) && FilledTo(p, base, code, b) && b <= u <= |p.words|
    requires forall w :: b <= w < u ==> p.words[w].Op?
    ensures FilledTo(p, base, code, u)
  {
    hide Built, Done, Raw;
    forall v | 0 <= v < |p.words|
      ensures if OwnerBefore(p, v, u) then Done(p, base, code, v) else Raw(p, base, code, v)
    {
      if OwnerBefore(p, v, u) && !OwnerBefore(p, v, b) {
        var next := v + 1;
        assert !(b <= next < u && !p.words[next].Op?);
        PlainRawDone(p, base, code, v);
      }
    }
  }

  /** The positions that one jump or address may still change. */
  ghost predicate Touches(p: Prog, base: nat, w: nat, k: nat)
    requires Built(p) && w < |p.words|
  {
    Act(p, base, w) - (if Conditional(p, w) then 1 else 0) <= k < Act(p, base, w + 1)
  }

  lemma Untouched(p: Prog, base: nat, code: seq<Ins>, other: seq<Ins>, v: nat, w: nat)
    requires Built(p) && v < |p.words| && w < |p.words| && v != w && !(Conditional(p, w) && v + 1 == w)
    requires |code| == |other| && forall k :: 0 <= k < |code| && !Touches(p, base, w, k) ==> other[k] == code[k]
    ensures Done(p, base, code, v) ==> Done(p, base, other, v)
    ensures Raw(p, base, code, v) ==> Raw(p, base, other, v)
  {
    hide Built, WordCode, ActSize, Act, Choose;
    CodeSize(p, base, v);
    SizeOne(p, base, v);
    ActNext(p, base, v);
    if v < w {
      ActGrows(p, base, v, w);
      if Conditional(p, w) {
        SkipBefore(p, base, w);
        ActGrows(p, base, v, w - 1);
      }
    } else {
      ActGrows(p, base, w, v);
      ActNext(p, base, w);
    }
    Outside(p, base, v, w);
    Kept(p, base, code, other, v);
  }

  lemma Outside(p: Prog, base: nat, v: nat, w: nat)
    requires Built(p) && v < |p.words| && w < |p.words|
    requires Act(p, base, v) + ActSize(p, base, v) <= Act(p, base, w) - (if Conditional(p, w) then 1 else 0)
      || Act(p, base, v) >= Act(p, base, w + 1)
    ensures forall k :: Act(p, base, v) <= k < Act(p, base, v) + ActSize(p, base, v) ==> !Touches(p, base, w, k)
  {
    hide Built, Act, ActSize;
  }

  lemma Kept(p: Prog, base: nat, code: seq<Ins>, other: seq<Ins>, v: nat)
    requires Built(p) && v < |p.words| && |code| == |other| && |WordCode(p, base, v)| == ActSize(p, base, v)
    requires p.words[v].Op? || p.words[v].Mov? ==> ActSize(p, base, v) >= 1
    requires forall k :: 0 <= k < |code| && Act(p, base, v) <= k < Act(p, base, v) + ActSize(p, base, v) ==>
      other[k] == code[k]
    ensures Done(p, base, code, v) ==> Done(p, base, other, v)
    ensures Raw(p, base, code, v) ==> Raw(p, base, other, v)
  {
    hide Built, WordCode, ActSize, Act, Choose;
  }

  lemma OverlayAt(code: seq<Ins>, a: nat, part: seq<Ins>)
    requires a + |part| <= |code|
    ensures var r := Overlay(code, a, part);
      && (forall k :: 0 <= k < |code| && !(a <= k < a + |part|) ==> r[k] == code[k])
      && forall k :: 0 <= k < |part| ==> r[a + k] == part[k]
  {
  }

  /** The record of word `u` after the walk. */
  ghost predicate Ready(p: Prog, base: nat, u: nat, r: Record)
    requires Built(p)
  {
    && u < |p.words| && Describes(r, p.words[u])
    && r.addr == JumpAt(p, base, u) && r.patch == Choose(p, base, u)
  }

  lemma SkipFilled(p: Prog, base: nat, code: seq<Ins>, u: nat)
    requires Built(p) && Conditional(p, u) && u > 0 && !Choose(p, base, u).Cond? && Raw(p, base, code, u - 1)
    ensures Done(p, base, code, u - 1)
  {
    hide Choose, Act;
    assert WordOk(p, u);
  }

  /** A conditional jump that became one branch: its `Skip` gets the distance. */
  lemma CondFilled(p: Prog, base: nat, code: seq<Ins>, u: nat, r: Record)
    requires Built(p) && Ready(p, base, u, r) && Conditional(p, u) && u > 0
    requires Choose(p, base, u).Cond? && Raw(p, base, code, u - 1) && Act(p, base, u + 1) <= |code|
    ensures r.addr < |code|
    ensures var part := PatchCode(code[r.addr], r, Dest(p, base, u), base);
      && |part| == 1 && r.addr + |part| == Act(p, base, u) && Touches(p, base, u, r.addr)
      && Done(p, base, Overlay(code, r.addr, part), u - 1) && Done(p, base, Overlay(code, r.addr, part), u)
  {
    hide Choose, Act, Dest, Signed, Overlay;
    assert WordOk(p, u);
    SkipBefore(p, base, u);
    SizeOne(p, base, u - 1);
    SizeOne(p, base, u);
    ActNext(p, base, u);
    var part := PatchCode(code[r.addr], r, Dest(p, base, u), base);
    OverlayAt(code, r.addr, part);
    assert part == WordCode(p, base, u - 1);
    assert WordCode(p, base, u) == [];
  }

  /** Any other jump or address: the words before its branch. */
  lemma BodyFilled(p: Prog, base: nat, code: seq<Ins>, u: nat, r: Record)
    requires Built(p) && Ready(p, base, u, r) && !p.words[u].Op? && !Choose(p, base, u).Cond? && Raw(p, base, code, u)
    requires Act(p, base, u + 1) <= |code|
    ensures r.addr == Act(p, base, u) < |code|
    ensures var part := PatchCode(code[r.addr], r, Dest(p, base, u), base);
      && r.addr + |part| <= Act(p, base, u + 1)
      && Done(p, base, Overlay(code, r.addr, part), u)
  {
    hide Choose, Act, Dest, Signed, LoadCode, Overlay;
    ActNext(p, base, u);
    SizeOne(p, base, u);
    CodeSize(p, base, u);
    var part := PatchCode(code[r.addr], r, Dest(p, base, u), base);
    if !r.patch.Near? {
      LoadSize(r.patch, base + 4 * r.addr, Dest(p, base, u), p.words[u].reg);
    }
    OverlayAt(code, r.addr, part);
  }

  lemma LoadSize(patch: Patch, pc: nat, dest: nat, reg: nat)
    requires !patch.Cond? && !patch.Near?
    ensures |LoadCode(patch, pc, dest, reg)| == JumpLength(patch) - 1 == MovLength(patch)
  {
  }

  /** What one step leaves alone, and what it finishes. */
  lemma FillRest(p: Prog, base: nat, code: seq<Ins>, after: seq<Ins>, u: nat)
    requires Built(p) && FilledTo(p, base, code, u) && u < |p.words| && !p.words[u].Op? && |after| == |code|
    requires forall k :: 0 <= k < |code| && !Touches(p, base, u, k) ==> after[k] == code[k]
    requires Done(p, base, after, u) && (Conditional(p, u) && u > 0 ==> Done(p, base, after, u - 1))
    ensures FilledTo(p, base, after, u + 1)
  {
    hide Built, Done, Raw, Touches, Act, Choose;
    NoSkipHere(p, u);
    var next := u + 1;
    forall v | 0 <= v < |p.words|
      ensures if OwnerBefore(p, v, next) then Done(p, base, after, v) else Raw(p, base, after, v)
    {
      if v != u && !(Conditional(p, u) && v + 1 == u) {
        assert if OwnerBefore(p, v, u) then Done(p, base, code, v) else Raw(p, base, code, v);
        Untouched(p, base, code, after, v, u);
      }
    }
  }

  /** The words of one jump and of its `Skip` become final, the others stay. */
  lemma FillOne(p: Prog, base: nat, code: seq<Ins>, u: nat, r: Record)
    requires Built(p) && Placed(p, base) && FilledTo(p, base, code, u) && Ready(p, base, u, r) && !p.words[u].Op?
    requires Act(p, base, |p.words|) <= |code|
    ensures r.addr < |code|
    ensures var part := PatchCode(code[r.addr], r, Dest(p, base, u), base);
      r.addr + |part| <= |code| && FilledTo(p, base, Overlay(code, r.addr, part), u + 1)
  {
    hide Choose, Act, Dest, PatchCode, Overlay, Done, Raw, WordCode, Placed, FilledTo, OwnerBefore;
    ChoiceFits(p, base, u);
    ActSpan(p, base, u + 1);
    WaitingRaw(p, base, code, u);
    if Choose(p, base, u).Cond? {
      CondFilled(p, base, code, u, r);
    } else {
      BodyFilled(p, base, code, u, r);
    }
    var part := PatchCode(code[r.addr], r, Dest(p, base, u), base);
    var after := Overlay(code, r.addr, part);
    OverlayAt(code, r.addr, part);
    SizeOne(p, base, u);
    if Conditional(p, u) && !Choose(p, base, u).Cond? {
      SkipFilled(p, base, code, u);
      SkipStays(p, base, code, after, u);
    }
    FillRest(p, base, code, after, u);
  }

  lemma WaitingRaw(p: Prog, base: nat, code: seq<Ins>, u: nat)
    requires Built(p) && FilledTo(p, base, code, u) && u < |p.words| && !p.words[u].Op?
    ensures Raw(p, base, code, u) && (Conditional(p, u) ==> u > 0 && Raw(p, base, code, u - 1))
    ensures Act(p, base, u) <= Act(p, base, u + 1)
  {
    hide Raw, Done, Act;
    ActNext(p, base, u);
    assert !OwnerBefore(p, u, u);
    if Conditional(p, u) {
      SkipBefore(p, base, u);
      assert !OwnerBefore(p, u - 1, u);
    }
  }

  lemma SkipStays(p: Prog, base: nat, code: seq<Ins>, after: seq<Ins>, u: nat)
    requires Built(p) && Conditional(p, u) && u > 0 && Done(p, base, code, u - 1) && |code| == |after|
    requires forall k :: 0 <= k < |code| && k < Act(p, base, u) ==> after[k] == code[k]
    ensures Done(p, base, after, u - 1)
  {
    hide Built, WordCode, Act;
    SkipBefore(p, base, u);
    CodeSize(p, base, u - 1);
    SizeOne(p, base, u - 1);
  }

  lemma ActSpan(p: Prog, base: nat, w: nat)
    requires Built(p) && w <= |p.words|
    ensures Act(p, base, w) <= Act(p, base, |p.words|)
  {
    if w < |p.words| {
      ActGrows(p, base, w, |p.words|);
    }
  }

  // ------------------------------------------------------------------ the code

  /** Instructions put into the array one after the other. */
  method PutAt(code: array<Ins>, a: nat, part: seq<Ins>)
    requires a + |part| <= code.Length
    modifies code
    ensures code[..] == Overlay(old(code[..]), a, part)
  {
    var k := 0;
    while k < |part|
      invariant 0 <= k <= |part|
      invariant forall i :: 0 <= i < k ==> code[a + i] == part[i]
      invariant forall i :: 0 <= i < code.Length && !(a <= i < a + k) ==> code[i] == old(code[i])
    {
      code[a + k] := part[k];
      k := k + 1;
    }
  }

  /** `generate_jump_or_mov_addr` for one record. */
  method GenerateJumpOrMovAddr(code: array<Ins>, r: Record, labels: array<nat>, base: nat)
    requires r.addr < code.Length && (r.target.To? ==> r.target.lab < labels.Length)
    requires code as object != labels
    requires var dest := if r.target.Abs? then r.target.addr else base + 4 * labels[r.target.lab];
      r.addr + |PatchCode(code[r.addr], r, dest, base)| <= code.Length
    modifies code
    ensures var dest := if r.target.Abs? then r.target.addr else base + 4 * labels[r.target.lab];
      |old(code[..])| == code.Length
        && code[..] == Overlay(old(code[..]), r.addr, PatchCode(old(code[r.addr]), r, dest, base))
  {
    hide Signed, Overlay, LoadCode, Chunk;
    var dest := if r.target.Abs? then r.target.addr else base + 4 * labels[r.target.lab];
    var pc, i := base + 4 * r.addr, code[r.addr];
    var part := [i];
    if !r.mov {
      if r.patch.Cond? {
        if i.Skip? {
          part := [Skip(i.test, i.sense, Signed(dest - pc) / 4)];
        }
      } else if r.patch.Near? {
        part := [Branch(r.link, Signed(dest - pc) / 4)];
      } else {
        part := LoadAddr(r.patch, pc, dest, if i.BranchReg? || i.Mark? then i.reg else 0);
      }
    } else {
      var reg := if i.BranchReg? || i.Mark? then i.reg else 0;
      if r.patch.Near? {
        part := [Adr(reg, Signed(dest - pc))];
      } else {
        part := LoadAddr(r.patch, pc, dest, reg);
      }
    }
    PutAt(code, r.addr, part);
  }

  method LoadAddr(patch: Patch, pc: nat, dest: nat, reg: nat) returns (part: seq<Ins>)
    ensures part == LoadCode(patch, pc, dest, reg)
  {
    hide Signed, Chunk;
    if patch.Page? {
      var off := Signed(dest - (pc - pc % 0x1000));
      return [Adrp(reg, off / 0x1000), Addi(reg, reg, off % 0x1000)];
    }
    part := [Movz(reg, Chunk(dest, 0)), Movk(reg, Chunk(dest, 1), 1)];
    if patch.Abs48? || patch.Abs64? {
      part := part + [Movk(reg, Chunk(dest, 2), 2)];
    }
    if patch.Abs64? {
      part := part + [Movk(reg, Chunk(dest, 3), 3)];
    }
  }

  lemma FillStarts(p: Prog, base: nat, code: seq<Ins>)
    requires Built(p) && RawTo(p, base, code, |p.words|)
    ensures FilledTo(p, base, code, 0)
  {
    hide Built, Raw, Act;
  }

  lemma RecordReady(p: Prog, jw: seq<nat>, base: nat, labels: seq<nat>, jumps: seq<Record>, j: nat)
    requires Built(p) && Numbers(p, jw) && j < |jw|
    requires LabelsPlaced(p, base, labels, |labels|) && JumpsPlaced(p, jw, base, jumps, |jw|)
    ensures |jumps| == |jw| && jw[j] < |p.words| && !p.words[jw[j]].Op? && Ready(p, base, jw[j], jumps[j])
    ensures var r := jumps[j];
      && (r.target.To? ==> r.target.lab < |labels|)
      && Dest(p, base, jw[j]) == if r.target.Abs? then r.target.addr else base + 4 * labels[r.target.lab]
  {
    hide Act, Choose;
    var u := jw[j];
    assert Describes(jumps[j], p.words[u]);
    assert WordOk(p, u);
    if jumps[j].target.To? {
      assert LabelOk(p, jumps[j].target.lab);
    }
  }

  lemma NextTurn(p: Prog, jw: seq<nat>, base: nat, code: seq<Ins>, j: nat, b: nat)
    requires Built(p) && Numbers(p, jw) && j <= |jw| && FilledTo(p, base, code, b) && b <= |p.words|
    requires b == if j == 0 then 0 else jw[j - 1] + 1
    ensures var u := if j < |jw| then jw[j] else |p.words|; b <= u <= |p.words| && FilledTo(p, base, code, u)
  {
    hide FilledTo;
    var u := if j < |jw| then jw[j] else |p.words|;
    forall i | 0 <= i < j
      ensures jw[i] < b
    {
      if i < j - 1 {
        InOrder(p, jw, i, j - 1);
      }
    }
    if 0 < j < |jw| {
      InOrder(p, jw, j - 1, j);
    }
    if j < |jw| {
      InProgram(p, jw, j);
    }
    NoJumpBetween(p, jw, j, b, u);
    FilledOn(p, base, code, b, u);
  }

  /** The loop over the jumps. */
  method FillAddresses(ghost p: Prog, ghost jw: seq<nat>, base: nat, code: array<Ins>, labels: array<nat>,
                       jumps: array<Record>)
    requires Built(p) && Placed(p, base) && Numbers(p, jw) && jumps.Length == |jw|
    requires LabelsPlaced(p, base, labels[..], labels.Length) && JumpsPlaced(p, jw, base, jumps[..], |jw|)
    requires RawTo(p, base, code[..], |p.words|) && Act(p, base, |p.words|) <= code.Length
    requires code as object != jumps && code as object != labels
    modifies code
    ensures FilledTo(p, base, code[..], |p.words|)
  {
    hide Built, Placed, Numbers, LabelsPlaced, JumpsPlaced, RawTo, FilledTo, Act, Dest, PatchCode, Overlay, Ready;
    FillStarts(p, base, code[..]);
    var j := 0;
    ghost var b := 0;
    while j < jumps.Length
      invariant 0 <= j <= jumps.Length && 0 <= b <= |p.words|
      invariant b == if j == 0 then 0 else jw[j - 1] + 1
      invariant FilledTo(p, base, code[..], b)
    {
      NextTurn(p, jw, base, code[..], j, b);
      RecordReady(p, jw, base, labels[..], jumps[..], j);
      FillOne(p, base, code[..], jw[j], jumps[j]);
      GenerateJumpOrMovAddr(code, jumps[j], labels, base);
      b := jw[j] + 1;
      j := j + 1;
    }
    NextTurn(p, jw, base, code[..], j, b);
  }

  lemma FillEnds(p: Prog, base: nat, code: seq<Ins>)
    requires Built(p) && FilledTo(p, base, code, |p.words|) && Act(p, base, |p.words|) <= |code|
    ensures Generated(p, base, code[..Act(p, base, |p.words|)])
  {
    hide Built, Act, WordCode, Raw;
    var final := code[..Act(p, base, |p.words|)];
    forall w | 0 <= w < |p.words|
      ensures Slice(final, Act(p, base, w), WordCode(p, base, w))
    {
      assert OwnerBefore(p, w, |p.words|);
      CodeSize(p, base, w);
      ActNext(p, base, w);
      ActSpan(p, base, w + 1);
    }
  }

  /** `sljit_generate_code`.  The array has one word more than is allocated, because
      the word of a jump is copied before it is known that the jump needs none. */
  method GenerateCode(ghost p: Prog, ghost jw: seq<nat>, buf: seq<Ins>, labels: array<nat>, jumps: array<Record>,
                      base: nat, size0: nat)
    returns (code: array<Ins>, room: nat, size: nat)
    requires Built(p) && Placed(p, base) && Numbers(p, jw) && Buffered(p, buf) && Orig(p, |p.words|) < MAX_ADDRESS
    requires LabelsHalf(p, labels[..], 0) && JumpsHalf(p, jw, jumps[..], 0) && size0 == Orig(p, |p.words|)
    requires labels as object != jumps
    modifies labels, jumps
    ensures size <= room <= size0 && room < code.Length
    ensures Generated(p, base, code[..size])
    ensures forall k :: 0 <= k < labels.Length == |p.at| ==>
      LabelOk(p, k) && base + 4 * labels[k] == Addr(p, base, p.at[k])
  {
    hide Built, Placed, Numbers, LabelsHalf, JumpsHalf, JumpsPlaced, RawTo, FilledTo, Act, Res, Orig, Generated;
    room := ReduceCodeSize(p, jw, labels, jumps, size0);
    code := new Ins[room + 1](_ => Other(0));
    size := Walk(p, jw, buf, labels, jumps, base, code);
    JumpsCounted(p, jw, base, jumps[..]);
    FillAddresses(p, jw, base, code, labels, jumps);
    FillEnds(p, base, code[..]);
    FitsAllocation(p, base, code[..size]);
    assert code[..][..size] == code[..size];
  }

  lemma JumpsCounted(p: Prog, jw: seq<nat>, base: nat, jumps: seq<Record>)
    requires Built(p) && JumpsPlaced(p, jw, base, jumps, |jw|)
    ensures |jumps| == |jw|
  {
  }

  // -------------------------------------------------------- the word past the end

  /** The walk copies a word beyond the allocated room exactly when the code ends in
      a jump for which no room was kept and no earlier jump came out shorter. */
  lemma CopiesInside(p: Prog, base: nat)
    requires Built(p) && Placed(p, base)
    ensures (forall w :: 0 <= w < |p.words| ==> Act(p, base, w) < Res(p, |p.words|))
      <==> !(|p.words| > 0 && ResSize(p, |p.words| - 1) == 0 && Act(p, base, |p.words| - 1) == Res(p, |p.words| - 1))
  {
    hide Built, Placed, Act, Res, ResSize;
    var n := |p.words|;
    if n > 0 {
      ResApart(p, n - 1, n);
    }
    forall w | 0 <= w < n && !(w == n - 1 && ResSize(p, w) == 0 && Act(p, base, w) == Res(p, w))
      ensures Act(p, base, w) < Res(p, n)
    {
      Bounds(p, base, w);
      ResApart(p, w, n);
    }
  }

  /** A loop whose last instruction is the conditional jump back. */
  const LOOP: Prog := Prog([Op(Skip(0, false, 6)), Jump(2, false, true, false, To(0))], [0])

  lemma LoopCopiesOutside(base: nat)
    requires Placed(LOOP, base)
    ensures Built(LOOP) && Act(LOOP, base, 1) == Res(LOOP, 2)
  {
    LoopSizes(base);
  }

  lemma LoopSizes(base: nat)
    ensures Built(LOOP) && Res(LOOP, 1) == 1 && Res(LOOP, 2) == 1 && Act(LOOP, base, 1) == 1
  {
    ResNext(LOOP, 0);
    OpSize(LOOP, 0);
    ResNext(LOOP, 1);
    ActNext(LOOP, base, 0);
    assert Res(LOOP, 0) == 0 && Act(LOOP, base, 0) == 0;
    assert Estimate(LOOP, 1, 0) == -1;
    assert Reserve(LOOP, 1) == 0;
  }
}
