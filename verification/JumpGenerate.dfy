/** `sljit_generate_code`: copies the buffer, places labels and shortens jumps in
    one walk, then fills in the final addresses. */
module JumpGenerate {
  import opened Arm64
  import opened JumpLayout
  import opened JumpReach
  import opened JumpPasses

  // --------------------------------------------------- positions that coincide

  /** Labels placed before word `w` is copied.  A label after a jump with no room
      of its own is placed with the jump's word. */
  ghost predicate PlacedLabel(p: Prog, w: nat, k: nat)
    requires Built(p) && w <= |p.words| && k < |p.at|
  {
    p.at[k] < w || (p.at[k] == w && w > 0 && ResSize(p, w - 1) == 0)
  }

  ghost predicate LabelsUpTo(p: Prog, w: nat, l: nat)
    requires Built(p) && w <= |p.words|
  {
    forall k :: 0 <= k < |p.at| ==> (k < l <==> PlacedLabel(p, w, k))
  }

  lemma ResNext(p: Prog, w: nat)
    requires Built(p) && w < |p.words|
    ensures Res(p, w + 1) == Res(p, w) + ResSize(p, w)
  {
  }

  /** Two words share a reduced position only across one jump without room. */
  lemma ResApart(p: Prog, u: nat, v: nat)
    requires Built(p) && u < v <= |p.words|
    ensures Res(p, u) <= Res(p, v)
    ensures Res(p, u) == Res(p, v) <==> v == u + 1 && ResSize(p, u) == 0
  {
    hide Built, ResSize;
    ResNext(p, u);
    ReducedSpan(p, u + 1, v);
    if v > u + 1 {
      ResNext(p, u + 1);
      ReducedSpan(p, u + 2, v);
      NoTwoEmpty(p, u);
    }
  }

  lemma NoTwoEmpty(p: Prog, u: nat)
    requires Built(p) && u + 1 < |p.words|
    ensures ResSize(p, u) > 0 || ResSize(p, u + 1) > 0
  {
    ReserveFits(p, u);
    ReserveFits(p, u + 1);
    assert WordOk(p, u + 1);
  }

  // ------------------------------------------------------ the walk, between words

  ghost predicate LabelsPlaced(p: Prog, base: nat, labels: seq<nat>, l: nat)
    requires Built(p)
  {
    && |labels| == |p.at| && l <= |labels|
    && forall k :: 0 <= k < |labels| ==>
      LabelOk(p, k) && labels[k] == if k < l then Act(p, base, p.at[k]) else Res(p, p.at[k])
  }

  /** Where `jump->addr` points in the end. */
  ghost function JumpAt(p: Prog, base: nat, w: nat): int
    requires Built(p) && w < |p.words|
  {
    Act(p, base, w) - if Choose(p, base, w).Cond? then 1 else 0
  }

  ghost predicate JumpsPlaced(p: Prog, jw: seq<nat>, base: nat, jumps: seq<Record>, j: nat)
    requires Built(p)
  {
    && Recorded(p, jw, jumps) && j <= |jw|
    && forall i :: 0 <= i < |jw| ==>
      if i < j then jumps[i].addr == JumpAt(p, base, jw[i]) && jumps[i].patch == Choose(p, base, jw[i])
      else jumps[i].addr == Res(p, jw[i]) && jumps[i].size == Reserve(p, jw[i])
  }

  ghost predicate Walking(p: Prog, jw: seq<nat>, base: nat, labels: seq<nat>, jumps: seq<Record>, l: nat, j: nat,
                          w: nat)
    requires Built(p)
  {
    && Numbers(p, jw) && w <= |p.words|
    && LabelsPlaced(p, base, labels, l) && JumpsPlaced(p, jw, base, jumps, j)
    && LabelsUpTo(p, w, l)
    && (forall i :: 0 <= i < |jw| ==> (i < j <==> jw[i] < w))
  }

  /** Which label and which jump are met at word `w`. */
  lemma Meets(p: Prog, jw: seq<nat>, base: nat, labels: seq<nat>, jumps: seq<Record>, l: nat, j: nat, w: nat)
    requires Built(p) && Walking(p, jw, base, labels, jumps, l, j, w) && w < |p.words|
    ensures |labels| == |p.at| && |jumps| == |jw| && l <= |labels| && j <= |jumps|
    ensures l < |labels| ==> labels[l] >= Res(p, w)
    ensures l < |labels| ==> (labels[l] == Res(p, w) <==> p.at[l] == w || (p.at[l] == w + 1 && ResSize(p, w) == 0))
    ensures j < |jumps| ==> jumps[j].addr >= Res(p, w) && (jumps[j].addr == Res(p, w) <==> jw[j] == w)
    ensures !p.words[w].Op? ==> j < |jumps| && jw[j] == w
  {
    hide ResSize, Built, Reserve;
    if l < |labels| {
      assert LabelOk(p, l) && !PlacedLabel(p, w, l);
      if p.at[l] > w {
        ResApart(p, w, p.at[l]);
      }
    }
    if p.words[w].Op? {
      OpSize(p, w);
      if j < |jumps| {
        assert jw[j] >= w;
        ResApart(p, w, jw[j]);
      }
    } else {
      var i :| 0 <= i < |jw| && jw[i] == w;
      assert j <= i;
      assert j == i;
    }
  }

  /** The label met at word `w` is placed where that word is about to go. */
  lemma PlaceLabel(p: Prog, jw: seq<nat>, base: nat, labels: seq<nat>, jumps: seq<Record>, l: nat, j: nat, w: nat)
    requires Built(p) && Placed(p, base) && Walking(p, jw, base, labels, jumps, l, j, w) && w < |p.words|
    requires l < |labels| && labels[l] == Res(p, w)
    ensures LabelsPlaced(p, base, labels[l := Act(p, base, w)], l + 1)
    ensures LabelsUpTo(p, w + 1, l + 1)
  {
    hide ResSize, Built, ActSize, Res, Act;
    Meets(p, jw, base, labels, jumps, l, j, w);
    AllShrink(p, base, |p.words|);
    ActNext(p, base, w);
    assert LabelOk(p, l);
    assert ActSize(p, base, w) <= ResSize(p, w);
    var next := w + 1;
    forall k | 0 <= k < |p.at|
      ensures k < l + 1 <==> PlacedLabel(p, next, k)
    {
      LabelOrder(p, l, k);
      assert LabelOk(p, k);
      if p.at[l] == w && k > l && p.at[k] == w + 1 {
        EmptyConditional(p, w);
      }
    }
  }

  lemma LabelOrder(p: Prog, l: nat, k: nat)
    requires Built(p) && l < |p.at| && k < |p.at|
    ensures k < l ==> p.at[k] < p.at[l]
    ensures l < k ==> p.at[l] < p.at[k]
  {
  }

  lemma EmptyConditional(p: Prog, w: nat)
    requires Built(p) && w < |p.words|
    ensures ResSize(p, w) == 0 ==> Conditional(p, w)
  {
    ReserveFits(p, w);
  }

  /** No label is met: none is waiting for word `w` or a jump without room there. */
  lemma NoLabel(p: Prog, jw: seq<nat>, base: nat, labels: seq<nat>, jumps: seq<Record>, l: nat, j: nat, w: nat)
    requires Built(p) && Walking(p, jw, base, labels, jumps, l, j, w) && w < |p.words|
    requires l < |labels| ==> labels[l] != Res(p, w)
    ensures LabelsPlaced(p, base, labels, l)
    ensures LabelsUpTo(p, w + 1, l)
  {
    hide ResSize, Built, ActSize, Res, Act;
    Meets(p, jw, base, labels, jumps, l, j, w);
    var next := w + 1;
    forall k | 0 <= k < |p.at|
      ensures k < l <==> PlacedLabel(p, next, k)
    {
      assert k < l <==> PlacedLabel(p, w, k);
      if k >= l {
        assert !PlacedLabel(p, w, l);
        LabelOrder(p, l, k);
      }
    }
  }

  // ------------------------------------------------------------ judging a jump

  function SeenTarget(labels: seq<nat>, r: Record, base: nat): int
    requires r.target.To? ==> r.target.lab < |labels|
  {
    match r.target
    case Abs(addr) => addr
    case To(lab) => base + 4 * labels[lab]
  }

  /** `diff`, from the fields as they are when word `ptr` of the code is reached. */
  function SeenDistance(labels: seq<nat>, r: Record, base: nat, ptr: nat): int
    requires r.target.To? ==> r.target.lab < |labels|
  {
    var from := if r.target.To? && labels[r.target.lab] > r.addr then r.addr else ptr;
    Signed(SeenTarget(labels, r, base) - (base + 4 * from))
  }

  function SeenPatch(labels: seq<nat>, r: Record, base: nat, ptr: nat): Patch
    requires r.target.To? ==> r.target.lab < |labels|
  {
    var diff, target := SeenDistance(labels, r, base, ptr), SeenTarget(labels, r, base);
    if r.mov then MovPatch(diff, if target < 0 then 0 else target)
    else JumpPatch(r.cond, r.rewritable, diff, if target < 0 then 0 else target)
  }

  lemma SeenIsChosen(p: Prog, jw: seq<nat>, base: nat, labels: seq<nat>, l: nat, r: Record, w: nat)
    requires Built(p) && Placed(p, base) && w < |p.words| && Describes(r, p.words[w]) && r.addr == Res(p, w)
    requires LabelsPlaced(p, base, labels, l) && LabelsUpTo(p, w + 1, l)
    ensures r.target.To? ==> r.target.lab < |labels|
    ensures SeenPatch(labels, r, base, Act(p, base, w)) == Choose(p, base, w)
  {
    hide Act, Signed, Placed, LabelsPlaced, LabelsUpTo;
    assert WordOk(p, w);
    if r.target.To? {
      var lab := r.target.lab;
      assert LabelOk(p, lab) && Names(p.words[w], lab);
      LabelSeen(p, base, labels, l, r, w);
      if ResSize(p, w) == 0 && p.at[lab] == w + 1 {
        SkippedLabel(p, base, labels, l, r, w);
      } else {
        assert SeenTarget(labels, r, base) == TargetAddr(p, base, w);
        assert SeenDistance(labels, r, base, Act(p, base, w)) == Distance(p, base, w);
      }
    } else {
      assert SeenTarget(labels, r, base) == TargetAddr(p, base, w);
      assert SeenDistance(labels, r, base, Act(p, base, w)) == Distance(p, base, w);
    }
  }

  /** What the fields say about the target of a jump at word `w`. */
  lemma LabelSeen(p: Prog, base: nat, labels: seq<nat>, l: nat, r: Record, w: nat)
    requires Built(p) && Placed(p, base) && w < |p.words| && r.addr == Res(p, w) && r.target.To?
      && Names(p.words[w], r.target.lab)
    requires LabelsPlaced(p, base, labels, l) && LabelsUpTo(p, w + 1, l)
    ensures r.target.lab < |labels|
    ensures var t := LabelAt(p, w, r.target.lab);
      if t > w && !(t == w + 1 && ResSize(p, w) == 0) then labels[r.target.lab] == Res(p, t) > Res(p, w)
      else labels[r.target.lab] == Act(p, base, t) <= Res(p, w)
  {
    hide ResSize, Res, Act, Placed, ActSize;
    var lab := r.target.lab;
    assert WordOk(p, w);
    var t := LabelAt(p, w, lab);
    AllShrink(p, base, |p.words|);
    assert LabelOk(p, lab);
    var next := w + 1;
    assert lab < l <==> PlacedLabel(p, next, lab);
    PositionBounded(p, base, w);
    if t > w {
      ResApart(p, w, t);
      PositionBounded(p, base, t);
    } else {
      ActualSpan(p, base, t, w, |p.words|);
    }
  }

  /** A conditional jump over nothing: both ways the distance is zero. */
  lemma SkippedLabel(p: Prog, base: nat, labels: seq<nat>, l: nat, r: Record, w: nat)
    requires Built(p) && Placed(p, base) && w < |p.words| && Describes(r, p.words[w]) && r.addr == Res(p, w)
    requires LabelsPlaced(p, base, labels, l) && LabelsUpTo(p, w + 1, l)
    requires r.target.To? && Names(p.words[w], r.target.lab) && LabelAt(p, w, r.target.lab) == w + 1
      && ResSize(p, w) == 0
    ensures r.target.lab < |labels|
    ensures SeenPatch(labels, r, base, Act(p, base, w)) == Choose(p, base, w)
  {
    hide Act, Signed, ActSize, LabelsPlaced, LabelsUpTo;
    assert WordOk(p, w);
    LabelSeen(p, base, labels, l, r, w);
    ReserveFits(p, w);
    AllShrink(p, base, |p.words|);
    ActNext(p, base, w);
    ResNext(p, w);
    PositionBounded(p, base, w);
    SignedSmall(0, 0);
    assert ActSize(p, base, w) <= ResSize(p, w);
    assert SeenDistance(labels, r, base, Act(p, base, w)) == 0 == Distance(p, base, w);
  }
}
