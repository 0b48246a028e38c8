/** The two passes as they run: `reduce_code_size` over the ordered lists of labels
    and jumps, and `sljit_generate_code` over the instruction buffer. */
module JumpPasses {
  import opened Arm64
  import opened JumpLayout

  const MAX_ADDRESS: int := TWO64 - 1

  /** `struct sljit_jump`; `addr` counts words, `size` is what `flags` holds above
      JUMP_SIZE_SHIFT, `patch` the PATCH_ flag. */
  datatype Record = Record(addr: nat, mov: bool, cond: bool, rewritable: bool, link: bool, target: Target, size: nat,
                           patch: Patch)

  function FirstWord(w: Word): Ins {
    match w
    case Op(ins) => ins
    case Jump(reg, link, _, _, _) => BranchReg(link, reg)
    case Mov(reg, _) => Mark(reg)
  }

  predicate Describes(r: Record, w: Word) {
    match w
    case Op(_) => false
    case Jump(_, link, cond, rewritable, target) =>
      !r.mov && r.link == link && r.cond == cond && r.rewritable == rewritable && r.target == target
    case Mov(_, target) => r.mov && r.target == target
  }

  /** The jump list names the words that are not plain, in order. */
  ghost predicate Numbers(p: Prog, jw: seq<nat>) {
    && (forall j :: 0 <= j < |jw| ==> jw[j] < |p.words| && !p.words[jw[j]].Op?)
    && (forall i, j :: 0 <= i < j < |jw| ==> jw[i] < jw[j])
    && (forall w :: 0 <= w < |p.words| && !p.words[w].Op? ==> w in jw)
  }

  /** Everything but the address, the size and the patch kind of the records. */
  ghost predicate Recorded(p: Prog, jw: seq<nat>, jumps: seq<Record>) {
    |jumps| == |jw| && forall j :: 0 <= j < |jw| ==> jw[j] < |p.words| && Describes(jumps[j], p.words[jw[j]])
  }

  function NextMin(label_: int, jump: int): int {
    if label_ < jump then label_ else jump
  }

  // -------------------------------------------------------- facts about positions

  lemma {:induction false} OrigGrows(p: Prog, u: nat, v: nat)
    requires u < v <= |p.words|
    ensures Orig(p, u) + FullSize(p.words[u]) <= Orig(p, v)
    decreases v - u
  {
    if u + 1 < v {
      OrigGrows(p, u, v - 1);
    }
  }

  lemma OrigOrder(p: Prog, u: nat, v: nat)
    requires u <= |p.words| && v <= |p.words|
    ensures Orig(p, u) < Orig(p, v) <==> u < v
  {
    if u < v {
      OrigGrows(p, u, v);
    }
    if v < u {
      OrigGrows(p, v, u);
    }
  }

  lemma OpSize(p: Prog, w: nat)
    requires Built(p) && w < |p.words| && p.words[w].Op?
    ensures ResSize(p, w) == 1 && FullSize(p.words[w]) == 1
  {
    hide Built, Estimate;
    assert Reserve(p, w) == 0;
  }

  /** No jump between two words: both passes give the span the same length. */
  lemma {:induction false} PlainSpan(p: Prog, u: nat, v: nat)
    requires Built(p) && u <= v <= |p.words| && forall w :: u <= w < v ==> p.words[w].Op?
    ensures Orig(p, v) - Orig(p, u) == Res(p, v) - Res(p, u)
    decreases v - u
  {
    hide Built;
    if u < v {
      PlainSpan(p, u, v - 1);
      OpSize(p, v - 1);
    }
  }

  lemma NoJumpBetween(p: Prog, jw: seq<nat>, j: nat, u: nat, v: nat)
    requires Numbers(p, jw) && j <= |jw| && u <= v <= |p.words|
    requires forall i :: 0 <= i < j ==> jw[i] < u
    requires j < |jw| ==> v <= jw[j]
    ensures forall w :: u <= w < v ==> p.words[w].Op?
  {
    forall w | u <= w < v
      ensures p.words[w].Op?
    {
      forall i | 0 <= i < |jw|
        ensures jw[i] != w
      {
        assert i < j || i == j || jw[j] < jw[i];
      }
    }
  }

  // ----------------------------------------------------------- the first pass

  ghost predicate LabelsHalf(p: Prog, labels: seq<nat>, l: nat)
    requires Built(p)
  {
    && |labels| == |p.at| && l <= |labels|
    && forall k :: 0 <= k < |labels| ==>
      LabelOk(p, k) && labels[k] == if k < l then Res(p, p.at[k]) else Orig(p, p.at[k])
  }

  ghost predicate JumpsHalf(p: Prog, jw: seq<nat>, jumps: seq<Record>, j: nat)
    requires Built(p)
  {
    && Recorded(p, jw, jumps) && j <= |jw|
    && forall i :: 0 <= i < |jw| ==>
      if i < j then jumps[i].addr == Res(p, jw[i]) && jumps[i].size == Reserve(p, jw[i])
      else jumps[i].addr == Orig(p, jw[i])
  }

  /** `reduce_code_size` between two steps: words before `w` are done. */
  ghost predicate Reducing(p: Prog, jw: seq<nat>, labels: seq<nat>, jumps: seq<Record>, l: nat, j: nat, w: nat,
                           reduce: nat)
    requires Built(p)
  {
    && Numbers(p, jw) && w <= |p.words|
    && LabelsHalf(p, labels, l) && JumpsHalf(p, jw, jumps, j)
    && reduce == Orig(p, w) - Res(p, w)
    && (forall k :: 0 <= k < l ==> p.at[k] <= w) && (forall k :: l <= k < |labels| ==> p.at[k] >= w)
    && (forall i :: 0 <= i < j ==> jw[i] < w) && (forall i :: j <= i < |jw| ==> jw[i] >= w)
  }

  lemma LabelStep(p: Prog, jw: seq<nat>, labels: seq<nat>, jumps: seq<Record>, l: nat, j: nat, w: nat, reduce: nat)
    requires Built(p) && Reducing(p, jw, labels, jumps, l, j, w, reduce) && l < |labels|
    requires j < |jw| ==> labels[l] <= jumps[j].addr
    ensures reduce <= labels[l]
    ensures Reducing(p, jw, labels[l := labels[l] - reduce], jumps, l + 1, j, p.at[l], reduce)
    ensures forall k :: l < k < |labels| ==> p.at[l] < p.at[k] && labels[k] > labels[l]
    ensures j < |jw| ==> (labels[l] == jumps[j].addr <==> jw[j] == p.at[l])
  {
    var t := p.at[l];
    assert LabelOk(p, l);
    if j < |jw| {
      OrigOrder(p, jw[j], t);
      OrigOrder(p, t, jw[j]);
    }
    NoJumpBetween(p, jw, j, w, t);
    PlainSpan(p, w, t);
    forall k | l < k < |labels|
      ensures p.at[l] < p.at[k] && labels[k] > labels[l]
    {
      OrigOrder(p, t, p.at[k]);
    }
  }

  lemma JumpStep(p: Prog, jw: seq<nat>, labels: seq<nat>, jumps: seq<Record>, l: nat, j: nat, w: nat, reduce: nat)
    requires Built(p) && Reducing(p, jw, labels, jumps, l, j, w, reduce) && j < |jw|
    requires l < |labels| ==> labels[l] > jumps[j].addr
    ensures reduce <= jumps[j].addr && jumps[j].addr - reduce == Res(p, jw[j])
    ensures forall k :: 0 <= k < |labels| ==> (k < l <==> p.at[k] <= jw[j])
    ensures reduce == Orig(p, jw[j]) - Res(p, jw[j])
    ensures forall k :: 0 <= k < |labels| ==>
      labels[k] == if p.at[k] <= jw[j] then Res(p, p.at[k]) else Orig(p, p.at[k])
  {
    var u := jw[j];
    if l < |labels| {
      assert LabelOk(p, l);
      OrigOrder(p, u, p.at[l]);
    }
    NoJumpBetween(p, jw, j, w, u);
    PlainSpan(p, w, u);
  }

  /** What the record becomes, and what is left for the words after the jump. */
  lemma JumpDone(p: Prog, jw: seq<nat>, labels: seq<nat>, jumps: seq<Record>, l: nat, j: nat, w: nat, reduce: nat)
    requires Built(p) && Reducing(p, jw, labels, jumps, l, j, w, reduce) && j < |jw|
    requires l < |labels| ==> labels[l] > jumps[j].addr
    ensures reduce <= jumps[j].addr
    ensures var r := jumps[j].(addr := jumps[j].addr - reduce, size := Reserve(p, jw[j]));
      ResSize(p, jw[j]) <= FullSize(p.words[jw[j]]) &&
      Reducing(p, jw, labels, jumps[j := r], l, j + 1, jw[j] + 1, reduce + FullSize(p.words[jw[j]]) - ResSize(p, jw[j]))
  {
    hide Reserve, ResSize, FullSize, LabelsHalf;
    JumpStep(p, jw, labels, jumps, l, j, w, reduce);
    ReserveFits(p, jw[j]);
  }

  /** The distance that the first pass looks at. */
  lemma EstimateSeen(p: Prog, jw: seq<nat>, labels: seq<nat>, jumps: seq<Record>, l: nat, j: nat, w: nat, reduce: nat)
    requires Built(p) && Reducing(p, jw, labels, jumps, l, j, w, reduce) && j < |jw|
    requires l < |labels| ==> labels[l] > jumps[j].addr
    requires jumps[j].target.To?
    ensures reduce <= jumps[j].addr && jumps[j].target.lab < |labels| && Names(p.words[jw[j]], jumps[j].target.lab)
    ensures var lab, a := jumps[j].target.lab, jumps[j].addr - reduce;
      var d := if labels[lab] > a then labels[lab] - a - reduce else labels[lab] - a;
      d == Estimate(p, jw[j], LabelAt(p, jw[j], lab))
  {
    hide Reserve, ResSize, FullSize, Orig, Res;
    JumpStep(p, jw, labels, jumps, l, j, w, reduce);
    var u, lab := jw[j], jumps[j].target.lab;
    assert Describes(jumps[j], p.words[u]);
    assert WordOk(p, u);
    assert LabelOk(p, lab);
    var t := p.at[lab];
    if t > u {
      OrigOrder(p, u, t);
    } else {
      ReducedSpan(p, t, u);
    }
  }

  function Room(r: Record, diff: int): nat {
    if r.mov then
      (match r.target
       case Abs(addr) => if addr < TWO32 then 1 else if addr < TWO48 then 2 else 3
       case To(_) => MovSize(diff))
    else if r.rewritable then JUMP_MAX_SIZE
    else
      (match r.target
       case Abs(addr) => if addr < TWO32 then 3 else if addr < TWO48 then 4 else JUMP_MAX_SIZE
       case To(_) => JumpSize(r.cond, diff))
  }

  /** Pass one for one record: `total_size`. */
  method TotalSize(labels: array<nat>, r: Record, reduce: nat) returns (size: nat)
    requires r.target.To? ==> r.target.lab < labels.Length
    ensures var diff := if r.target.Abs? then 0
        else if labels[r.target.lab] > r.addr then labels[r.target.lab] - r.addr - reduce
      else labels[r.target.lab] - r.addr;
      size == Room(r, diff)
  {
    var diff := 0;
    if r.target.To? {
      diff := labels[r.target.lab] - r.addr;
      if labels[r.target.lab] > r.addr {
        diff := diff - reduce;
      }
    }
    if !r.mov {
      size := JUMP_MAX_SIZE;
      if !r.rewritable {
        if r.target.Abs? {
          if r.target.addr < TWO32 {
            size := 3;
          } else if r.target.addr < TWO48 {
            size := 4;
          }
        } else {
          if r.cond && diff + 1 <= 0xf_ffff / 4 && diff + 1 >= -0x10_0000 / 4 {
            size := 0;
          } else if diff <= 0x7ff_ffff / 4 && diff >= -0x800_0000 / 4 {
            size := 1;
          } else if diff <= 0xffff_f000 / 4 && diff >= -0x1_0000_0000 / 4 {
            size := 3;
          }
        }
      }
    } else {
      size := 3;
      if r.target.To? {
        if diff <= 0xf_ffff / 4 && diff >= -0x10_0000 / 4 {
          size := 0;
        } else if diff <= 0xffff_f000 / 4 && diff >= -0x1_0000_0000 / 4 {
          size := 1;
        }
      } else if r.target.addr < TWO32 {
        size := 1;
      } else if r.target.addr < TWO48 {
        size := 2;
      }
    }
  }

  lemma SizeIsReserve(p: Prog, w: nat, r: Record, diff: int, size: nat)
    requires Built(p) && w < |p.words| && Describes(r, p.words[w])
    requires r.target.To? ==> Names(p.words[w], r.target.lab) && diff == Estimate(p, w, LabelAt(p, w, r.target.lab))
    requires size == Room(r, diff)
    ensures size == Reserve(p, w)
    ensures FullSize(p.words[w]) - ResSize(p, w) == (if r.mov then 3 else JUMP_MAX_SIZE) - size
  {
    hide Estimate, MovSize, JumpSize, Built, LabelAt;
  }

  lemma ReducingStarts(p: Prog, jw: seq<nat>, labels: seq<nat>, jumps: seq<Record>)
    requires Built(p) && Numbers(p, jw) && LabelsHalf(p, labels, 0) && JumpsHalf(p, jw, jumps, 0)
    ensures Reducing(p, jw, labels, jumps, 0, 0, 0, 0)
  {
  }

  lemma ReducingEnds(p: Prog, jw: seq<nat>, labels: seq<nat>, jumps: seq<Record>, w: nat, reduce: nat)
    requires Built(p) && Reducing(p, jw, labels, jumps, |labels|, |jw|, w, reduce)
    ensures reduce == Orig(p, |p.words|) - Res(p, |p.words|)
    ensures LabelsHalf(p, labels, |labels|) && JumpsHalf(p, jw, jumps, |jw|)
  {
    NoJumpBetween(p, jw, |jw|, w, |p.words|);
    PlainSpan(p, w, |p.words|);
  }

  /** Addresses stay below the sentinel. */
  lemma BelowMax(p: Prog, jw: seq<nat>, labels: seq<nat>, jumps: seq<Record>, l: nat, j: nat, w: nat, reduce: nat)
    requires Built(p) && Reducing(p, jw, labels, jumps, l, j, w, reduce) && Orig(p, |p.words|) < MAX_ADDRESS
    ensures |labels| == |p.at| && |jumps| == |jw| && l <= |labels| && j <= |jw|
    ensures l < |labels| ==> labels[l] < MAX_ADDRESS
    ensures j < |jw| ==> jumps[j].addr < MAX_ADDRESS
    ensures j < |jw| && jumps[j].target.To? ==> jumps[j].target.lab < |labels|
  {
    if l < |labels| {
      assert LabelOk(p, l);
      OrigSpan(p, p.at[l], |p.words|);
    }
    if j < |jw| {
      OrigSpan(p, jw[j], |p.words|);
      assert Describes(jumps[j], p.words[jw[j]]);
      assert WordOk(p, jw[j]);
    }
  }

  /** `reduce_code_size`: labels and jumps move to their reduced positions, and each
      jump notes the room it keeps. */
  method ReduceCodeSize(ghost p: Prog, ghost jw: seq<nat>, labels: array<nat>, jumps: array<Record>, size0: nat)
    returns (size: nat)
    requires Built(p) && Numbers(p, jw) && Orig(p, |p.words|) < MAX_ADDRESS
    requires LabelsHalf(p, labels[..], 0) && JumpsHalf(p, jw, jumps[..], 0) && size0 == Orig(p, |p.words|)
    requires labels as object != jumps
    modifies labels, jumps
    ensures LabelsHalf(p, labels[..], labels.Length) && JumpsHalf(p, jw, jumps[..], |jw|)
    ensures size == Res(p, |p.words|)
  {
    hide Built, Reducing, LabelsHalf, JumpsHalf, Numbers, Orig, Res, Room;
    var l, j, sizeReduce := 0, 0, 0;
    ghost var w := 0;
    ReducingStarts(p, jw, labels[..], jumps[..]);
    BelowMax(p, jw, labels[..], jumps[..], l, j, w, sizeReduce);
    var nextLabel := if l < labels.Length then labels[l] else MAX_ADDRESS;
    var nextJump := if j < jumps.Length then jumps[j].addr else MAX_ADDRESS;
    while true
      invariant l >= 0 && j >= 0 && sizeReduce >= 0
      invariant Reducing(p, jw, labels[..], jumps[..], l, j, w, sizeReduce)
      invariant l <= labels.Length && j <= jumps.Length == |jw| && labels.Length == |p.at|
      invariant nextLabel == if l < labels.Length then labels[l] else MAX_ADDRESS
      invariant nextJump == if j < jumps.Length then jumps[j].addr else MAX_ADDRESS
      decreases labels.Length - l + jumps.Length - j
    {
      BelowMax(p, jw, labels[..], jumps[..], l, j, w, sizeReduce);
      var nextMin := NextMin(nextLabel, nextJump);
      if nextMin == MAX_ADDRESS {
        break;
      }
      if nextMin == nextLabel {
        ghost var before := labels[..];
        LabelStep(p, jw, before, jumps[..], l, j, w, sizeReduce);
        labels[l] := labels[l] - sizeReduce;
        assert labels[..] == before[l := before[l] - sizeReduce];
        w := p.at[l];
        l := l + 1;
        BelowMax(p, jw, labels[..], jumps[..], l, j, w, sizeReduce);
        nextLabel := if l < labels.Length then labels[l] else MAX_ADDRESS;
      }
      if nextMin != nextJump {
        continue;
      }
      ghost var before := jumps[..];
      JumpDone(p, jw, labels[..], before, l, j, w, sizeReduce);
      var total := ReduceJump(p, jw, labels, jumps, l, j, w, sizeReduce);
      sizeReduce := sizeReduce + (if jumps[j].mov then 3 else JUMP_MAX_SIZE) - total;
      w := jw[j] + 1;
      j := j + 1;
      BelowMax(p, jw, labels[..], jumps[..], l, j, w, sizeReduce);
      nextJump := if j < jumps.Length then jumps[j].addr else MAX_ADDRESS;
    }
    ReducingEnds(p, jw, labels[..], jumps[..], w, sizeReduce);
    size := size0 - sizeReduce;
  }

  /** One jump of the first pass. */
  method ReduceJump(ghost p: Prog, ghost jw: seq<nat>, labels: array<nat>, jumps: array<Record>,
                    ghost l: nat, j: nat, ghost w: nat, reduce: nat) returns (total: nat)
    requires Built(p) && Reducing(p, jw, labels[..], jumps[..], l, j, w, reduce) && j < |jw| == jumps.Length
    requires l < labels.Length ==> labels[l] > jumps[j].addr
    requires labels as object != jumps
    modifies jumps
    ensures total == Reserve(p, jw[j]) && jumps[j].mov == old(jumps[j].mov)
    ensures FullSize(p.words[jw[j]]) - ResSize(p, jw[j]) == (if jumps[j].mov then 3 else JUMP_MAX_SIZE) - total
    ensures reduce <= old(jumps[j].addr)
    ensures jumps[..] == old(jumps[..])[j := old(jumps[j]).(addr := old(jumps[j].addr) - reduce, size := total)]
  {
    hide Built, Reducing, LabelsHalf, JumpsHalf, Numbers, Orig, Res, Room, Reserve, ResSize, FullSize, Estimate,
      LabelAt;
    ghost var before := jumps[..];
    JumpDone(p, jw, labels[..], before, l, j, w, reduce);
    JumpKnown(p, jw, labels[..], before, l, j, w, reduce);
    if jumps[j].target.To? {
      EstimateSeen(p, jw, labels[..], before, l, j, w, reduce);
    }
    var r := jumps[j].(addr := jumps[j].addr - reduce);
    total := TotalSize(labels, r, reduce);
    ghost var diff := if r.target.Abs? then 0
      else if labels[r.target.lab] > r.addr then labels[r.target.lab] - r.addr - reduce
      else labels[r.target.lab] - r.addr;
    SizeIsReserve(p, jw[j], r, diff, total);
    jumps[j] := r.(size := total);
    assert jumps[..] == before[j := before[j].(addr := before[j].addr - reduce, size := total)];
  }

  lemma JumpKnown(p: Prog, jw: seq<nat>, labels: seq<nat>, jumps: seq<Record>, l: nat, j: nat, w: nat, reduce: nat)
    requires Built(p) && Reducing(p, jw, labels, jumps, l, j, w, reduce) && j < |jw|
    ensures |jumps| == |jw| && jw[j] < |p.words| && Describes(jumps[j], p.words[jw[j]])
  {
  }
}
