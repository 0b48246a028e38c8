/** The walk of `sljit_generate_code` over the buffer, with its two ordered lists,
    and the loop that fills in the addresses afterwards. */
module JumpWalk {
  import opened Arm64
  import opened JumpLayout
  import opened JumpReach
  import opened JumpPasses
  import opened JumpGenerate
  import opened JumpEmit

  /** Word `w` is being copied: its label is placed, its jump not yet judged. */
  ghost predicate Midway(p: Prog, jw: seq<nat>, base: nat, labels: seq<nat>, jumps: seq<Record>, l: nat, j: nat, w: nat)
    requires Built(p)
  {
    && w < |p.words| && Numbers(p, jw)
    && LabelsPlaced(p, base, labels, l) && LabelsUpTo(p, w + 1, l)
    && JumpsPlaced(p, jw, base, jumps, j)
    && (forall i :: 0 <= i < |jw| ==> (i < j <==> jw[i] < w))
  }

  lemma NoLabelMet(p: Prog, jw: seq<nat>, base: nat, labels: seq<nat>, jumps: seq<Record>, l: nat, j: nat, w: nat)
    requires Built(p) && Walking(p, jw, base, labels, jumps, l, j, w) && w < |p.words|
    requires l < |labels| ==> labels[l] != Res(p, w)
    ensures Midway(p, jw, base, labels, jumps, l, j, w)
  {
    hide LabelsPlaced, LabelsUpTo, JumpsPlaced;
    NoLabel(p, jw, base, labels, jumps, l, j, w);
  }

  lemma LabelMet(p: Prog, jw: seq<nat>, base: nat, labels: seq<nat>, jumps: seq<Record>, l: nat, j: nat, w: nat)
    requires Built(p) && Placed(p, base) && Walking(p, jw, base, labels, jumps, l, j, w) && w < |p.words|
    requires l < |labels| && labels[l] == Res(p, w)
    ensures Midway(p, jw, base, labels[l := Act(p, base, w)], jumps, l + 1, j, w)
  {
    hide LabelsPlaced, LabelsUpTo, JumpsPlaced;
    PlaceLabel(p, jw, base, labels, jumps, l, j, w);
  }

  lemma PlainDone(p: Prog, jw: seq<nat>, base: nat, labels: seq<nat>, jumps: seq<Record>, l: nat, j: nat, w: nat)
    requires Built(p) && Midway(p, jw, base, labels, jumps, l, j, w) && p.words[w].Op?
    ensures Walking(p, jw, base, labels, jumps, l, j, w + 1)
  {
    hide LabelsPlaced, LabelsUpTo, JumpsPlaced;
    forall i | 0 <= i < |jw|
      ensures i < j <==> jw[i] < w + 1
    {
      assert jw[i] != w;
    }
  }

  lemma JumpJudged(p: Prog, jw: seq<nat>, base: nat, labels: seq<nat>, jumps: seq<Record>, l: nat, j: nat, w: nat)
    requires Built(p) && Placed(p, base) && Midway(p, jw, base, labels, jumps, l, j, w) && !p.words[w].Op?
    ensures |jumps| == |jw| && j < |jumps| && jw[j] == w && Describes(jumps[j], p.words[w])
    ensures jumps[j].addr == Res(p, w) && jumps[j].size == Reserve(p, w)
    ensures jumps[j].target.To? ==> jumps[j].target.lab < |labels|
    ensures SeenPatch(labels, jumps[j], base, Act(p, base, w)) == Choose(p, base, w)
    ensures JumpAt(p, base, w) >= 0
    ensures var r := jumps[j].(addr := JumpAt(p, base, w), patch := Choose(p, base, w));
      Walking(p, jw, base, labels, jumps[j := r], l, j + 1, w + 1)
  {
    hide LabelsUpTo, LabelsPlaced, SeenPatch, Choose, Res, Act;
    var i :| 0 <= i < |jw| && jw[i] == w;
    assert j <= i;
    InOrder(p, jw, j, i);
    assert j == i;
    SeenIsChosen(p, jw, base, labels, l, jumps[j], w);
    ChoiceFits(p, base, w);
    if Choose(p, base, w).Cond? {
      SkipBefore(p, base, w);
    }
  }

  lemma WalkingStarts(p: Prog, jw: seq<nat>, base: nat, labels: seq<nat>, jumps: seq<Record>)
    requires Built(p) && Numbers(p, jw) && LabelsHalf(p, labels, |labels|) && JumpsHalf(p, jw, jumps, |jw|)
    ensures Walking(p, jw, base, labels, jumps, 0, 0, 0)
  {
    hide Res, Reserve;
  }

  /** After the last word only a label at the very end is left. */
  lemma WalkingEnds(p: Prog, jw: seq<nat>, base: nat, labels: seq<nat>, jumps: seq<Record>, l: nat, j: nat)
    requires Built(p) && Placed(p, base) && Walking(p, jw, base, labels, jumps, l, j, |p.words|)
    ensures |jumps| == |jw| && j == |jumps| && l <= |labels| == |p.at|
    ensures l < |labels| ==> labels[l] == Res(p, |p.words|) && l + 1 == |labels|
    ensures l < |labels| ==> LabelsPlaced(p, base, labels[l := Act(p, base, |p.words|)], |labels|)
  {
    hide Res, Act, ResSize;
    if l < |labels| {
      assert LabelOk(p, l) && !PlacedLabel(p, |p.words|, l);
      if l + 1 < |labels| {
        assert LabelOk(p, l + 1);
        LabelOrder(p, l, l + 1);
      }
    }
    if j < |jw| {
      InProgram(p, jw, j);
    }
  }

  lemma InProgram(p: Prog, jw: seq<nat>, j: nat)
    requires Numbers(p, jw) && j < |jw|
    ensures jw[j] < |p.words| && !p.words[jw[j]].Op?
  {
  }

  lemma InOrder(p: Prog, jw: seq<nat>, j: nat, i: nat)
    requires Numbers(p, jw) && j < |jw| && i < |jw|
    ensures j < i ==> jw[j] < jw[i]
  {
  }

  lemma Bounds(p: Prog, base: nat, w: nat)
    requires Built(p) && Placed(p, base) && w <= |p.words|
    ensures Act(p, base, w) <= Res(p, w) <= Res(p, |p.words|)
    ensures w < |p.words| ==> Act(p, base, w + 1) <= Res(p, |p.words|)
  {
    hide Res, Act, Built;
    AllShrink(p, base, |p.words|);
    PositionBounded(p, base, w);
    ReducedSpan(p, w, |p.words|);
    if w < |p.words| {
      PositionBounded(p, base, w + 1);
      ReducedSpan(p, w + 1, |p.words|);
    }
  }

  lemma Sizes(p: Prog, base: nat, w: nat)
    requires Built(p) && w < |p.words|
    ensures Res(p, w + 1) == Res(p, w) + if p.words[w].Jump? then Reserve(p, w) else 1 + Reserve(p, w)
    ensures Act(p, base, w + 1) == Act(p, base, w) + match p.words[w]
      case Op(_) => 1
      case Jump(_, _, _, _, _) => JumpLength(Choose(p, base, w))
      case Mov(_, _) => MovLength(Choose(p, base, w))
    ensures p.words[w].Op? ==> Reserve(p, w) == 0
  {
    ResNext(p, w);
    ActNext(p, base, w);
  }

  /** A jump's word, already copied to `ptr`. */
  method JumpWord(ghost p: Prog, ghost jw: seq<nat>, base: nat, labels: array<nat>, jumps: array<Record>,
                  code: array<Ins>,
                  ghost l: nat, j: nat, ghost w: nat, ptr: nat, ghost was: seq<Ins>) returns (end: int)
    requires Built(p) && Placed(p, base) && w < |p.words| && !p.words[w].Op?
    requires Midway(p, jw, base, labels[..], jumps[..], l, j, w)
    requires j < jumps.Length && ptr == Act(p, base, w) < |was| && code.Length == Res(p, |p.words|) + 1
    requires |was| == code.Length && RawTo(p, base, was, w) && code[..] == was[ptr := FirstWord(p.words[w])]
    requires jumps as object != labels && code as object != jumps && code as object != labels
    modifies code, jumps
    ensures Walking(p, jw, base, labels[..], jumps[..], l, j + 1, w + 1)
    ensures RawTo(p, base, code[..], w + 1) && end + 1 == Act(p, base, w + 1)
    ensures jumps[j].size == old(jumps[j].size)
  {
    hide Built, Placed, Midway, Walking, RawTo, Act, Res, Choose, SeenPatch, Adjusted, Reserve;
    JumpJudged(p, jw, base, labels[..], jumps[..], l, j, w);
    Bounds(p, base, w);
    Sizes(p, base, w);
    assert code[ptr] == FirstWord(p.words[w]);
    if !jumps[j].mov {
      RawJump(p, base, was, w);
      SkipWaits(p, base, was, w);
      end := DetectJumpType(code, jumps, j, ptr, labels, base);
    } else {
      RawMov(p, base, was, w);
      ghost var before := jumps[..];
      NotCond(p, base, w);
      var more := MovAddrLength(jumps, j, ptr, labels, base);
      jumps[j] := jumps[j].(addr := ptr);
      assert jumps[..] == before[j := before[j].(addr := ptr, patch := Choose(p, base, w))];
      end := ptr + more;
    }
  }

  lemma NotCond(p: Prog, base: nat, w: nat)
    requires Built(p) && w < |p.words| && p.words[w].Mov?
    ensures !Choose(p, base, w).Cond? && JumpAt(p, base, w) == Act(p, base, w)
  {
    hide Distance, TargetAddr;
  }

  lemma SkipWaits(p: Prog, base: nat, code: seq<Ins>, w: nat)
    requires Built(p) && w < |p.words| && RawTo(p, base, code, w)
    ensures Conditional(p, w) ==>
      w > 0 && 0 < Act(p, base, w) && Act(p, base, w) - 1 < |code| && code[Act(p, base, w) - 1].Skip?
  {
    hide Act;
    if Conditional(p, w) {
      SkipBefore(p, base, w);
    }
  }

  /** The buffer holds the first word of every element. */
  ghost predicate Buffered(p: Prog, buf: seq<Ins>) {
    |buf| == |p.words| && forall w :: 0 <= w < |buf| ==> buf[w] == FirstWord(p.words[w])
  }

  /** What the walk looks at to see whether something is due. */
  lemma Due(p: Prog, jw: seq<nat>, base: nat, labels: seq<nat>, jumps: seq<Record>, l: nat, j: nat, w: nat)
    requires Built(p) && Walking(p, jw, base, labels, jumps, l, j, w) && w < |p.words|
      && Orig(p, |p.words|) < MAX_ADDRESS
    ensures |labels| == |p.at| && |jumps| == |jw| && l <= |labels| && j <= |jumps| && Res(p, w) < MAX_ADDRESS
    ensures l < |labels| ==> Res(p, w) <= labels[l] < MAX_ADDRESS
    ensures j < |jumps| ==> Res(p, w) <= jumps[j].addr < MAX_ADDRESS
    ensures p.words[w].Op? <==> !(j < |jumps| && jumps[j].addr == Res(p, w))
  {
    hide Res, Reserve, ResSize;
    Meets(p, jw, base, labels, jumps, l, j, w);
    ReducedSpan(p, w, |p.words|);
    ReducedSpan(p, 0, |p.words|);
    if l < |labels| {
      assert LabelOk(p, l) && !PlacedLabel(p, w, l);
      ReducedSpan(p, p.at[l], |p.words|);
    }
    if j < |jumps| {
      ReducedSpan(p, jw[j], |p.words|);
    }
    assert Res(p, 0) == 0 && Orig(p, 0) == 0 by { Zero(p); }
  }

  lemma Zero(p: Prog)
    requires Built(p)
    ensures Res(p, 0) == 0 == Orig(p, 0)
  {
  }

  /** The walk: every word is copied, labels take their final positions, and jumps
      keep no more words than they need. */
  method Walk(ghost p: Prog, ghost jw: seq<nat>, buf: seq<Ins>, labels: array<nat>, jumps: array<Record>, base: nat,
              code: array<Ins>)
    returns (size: nat)
    requires Built(p) && Placed(p, base) && Numbers(p, jw) && Buffered(p, buf) && Orig(p, |p.words|) < MAX_ADDRESS
    requires LabelsHalf(p, labels[..], labels.Length) && JumpsHalf(p, jw, jumps[..], |jw|)
    requires code.Length == Res(p, |p.words|) + 1
    requires jumps as object != labels && code as object != jumps && code as object != labels
    modifies labels, jumps, code
    ensures size == Act(p, base, |p.words|) < code.Length && RawTo(p, base, code[..], |p.words|)
    ensures LabelsPlaced(p, base, labels[..], labels.Length) && JumpsPlaced(p, jw, base, jumps[..], |jw|)
  {
    hide Built, Placed, Numbers, Walking, Midway, RawTo, Act, Res, LabelsHalf, JumpsHalf, LabelsPlaced, JumpsPlaced,
      Orig, Reserve, Choose;
    WalkingStarts(p, jw, base, labels[..], jumps[..]);
    RawStarts(p, base, code[..]);
    var codePtr, wordCount, l, j, i := 0, 0, 0, 0, 0;
    while i < |buf|
      invariant 0 <= i <= |buf| && l >= 0 && j >= 0 && codePtr >= 0 && wordCount >= 0
      invariant Walking(p, jw, base, labels[..], jumps[..], l, j, i)
      invariant RawTo(p, base, code[..], i)
      invariant codePtr == Act(p, base, i) && wordCount == Res(p, i)
    {
      Bounds(p, base, i);
      Sizes(p, base, i);
      Due(p, jw, base, labels[..], jumps[..], l, j, i);
      var nextLabel := if l < labels.Length then labels[l] else MAX_ADDRESS;
      var nextJump := if j < jumps.Length then jumps[j].addr else MAX_ADDRESS;
      var nextMin := NextMin(nextLabel, nextJump);
      ghost var was := code[..];
      code[codePtr] := buf[i];
      assert code[..] == was[codePtr := FirstWord(p.words[i])];
      if nextMin == nextLabel && nextMin == wordCount {
        ghost var before := labels[..];
        LabelMet(p, jw, base, before, jumps[..], l, j, i);
        labels[l] := codePtr;
        assert labels[..] == before[l := codePtr];
        l := l + 1;
      } else {
        NoLabelMet(p, jw, base, labels[..], jumps[..], l, j, i);
      }
      if nextMin == nextJump && nextMin == wordCount {
        JumpJudged(p, jw, base, labels[..], jumps[..], l, j, i);
        wordCount := if jumps[j].mov then wordCount + jumps[j].size else wordCount - 1 + jumps[j].size;
        var end := JumpWord(p, jw, base, labels, jumps, code, l, j, i, codePtr, was);
        codePtr := end + 1;
        j := j + 1;
      } else {
        PlainDone(p, jw, base, labels[..], jumps[..], l, j, i);
        RawPlain(p, base, was, i);
        codePtr := codePtr + 1;
      }
      wordCount := wordCount + 1;
      i := i + 1;
    }
    WalkingEnds(p, jw, base, labels[..], jumps[..], l, j);
    WalkingDone(p, jw, base, labels[..], jumps[..], l, j);
    Bounds(p, base, |p.words|);
    if l < labels.Length && labels[l] == wordCount {
      ghost var before := labels[..];
      labels[l] := codePtr;
      assert labels[..] == before[l := codePtr];
    }
    size := codePtr;
  }

  lemma RawStarts(p: Prog, base: nat, code: seq<Ins>)
    requires Built(p)
    ensures RawTo(p, base, code, 0) && Act(p, base, 0) == 0 == Res(p, 0)
  {
    NotFirst(p);
  }

  lemma NotFirst(p: Prog)
    requires Built(p)
    ensures !Conditional(p, 0)
  {
    if |p.words| > 0 {
      assert WordOk(p, 0);
    }
  }

  lemma WalkingDone(p: Prog, jw: seq<nat>, base: nat, labels: seq<nat>, jumps: seq<Record>, l: nat, j: nat)
    requires Built(p) && Walking(p, jw, base, labels, jumps, l, j, |p.words|) && j == |jw|
    ensures JumpsPlaced(p, jw, base, jumps, |jw|)
    ensures l == |labels| ==> LabelsPlaced(p, base, labels, |labels|)
  {
  }
}
