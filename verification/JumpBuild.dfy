/** The emitting side: the compiler object that instructions, labels and jumps are
    appended to, and what it therefore hands to code generation. */
module JumpBuild {
  import opened Arm64
  import opened JumpLayout
  import opened JumpReach
  import opened JumpPasses
  import opened JumpWalk
  import opened JumpFill

  // ------------------------------------------------------ one more word, or label

  lemma {:induction false} OrigKept(p: Prog, q: Prog, v: nat)
    requires v <= |p.words| <= |q.words|
    requires forall i :: 0 <= i < v ==> FullSize(q.words[i]) == FullSize(p.words[i])
    ensures Orig(q, v) == Orig(p, v)
    decreases v
  {
    if v > 0 {
      OrigKept(p, q, v - 1);
    }
  }

  lemma AllOrigKept(p: Prog, q: Prog)
    requires |p.words| <= |q.words|
    requires forall i :: 0 <= i < |p.words| ==> FullSize(q.words[i]) == FullSize(p.words[i])
    ensures forall v :: 0 <= v <= |p.words| ==> Orig(q, v) == Orig(p, v)
  {
    forall v | 0 <= v <= |p.words|
      ensures Orig(q, v) == Orig(p, v)
    {
      OrigKept(p, q, v);
    }
  }

  /** The lists as the emitting functions keep them. */
  ghost predicate Emitted(p: Prog, jw: seq<nat>, buf: seq<Ins>, size: nat, labels: seq<nat>, jumps: seq<Record>) {
    && Built(p) && Numbers(p, jw) && Buffered(p, buf) && size == Orig(p, |p.words|)
    && |labels| == |p.at| && (forall k :: 0 <= k < |labels| ==> LabelOk(p, k) && labels[k] == Orig(p, p.at[k]))
    && Recorded(p, jw, jumps) && (forall i :: 0 <= i < |jw| ==> jumps[i].addr == Orig(p, jw[i]))
  }

  function With(p: Prog, w: Word): Prog {
    Prog(p.words + [w], p.at)
  }

  /** A new word fits behind what is there. */
  ghost predicate Appendable(p: Prog, w: Word) {
    match w
    case Op(_) => true
    case Jump(_, link, cond, _, target) =>
      TargetOk(p, target) &&
      (cond ==> !link && p.words != [] && p.words[|p.words| - 1].Op? && p.words[|p.words| - 1].ins.Skip?
                && p.words[|p.words| - 1].ins.imm == 6 && forall k :: 0 <= k < |p.at| ==> p.at[k] < |p.words|)
    case Mov(_, target) => (match target case Abs(addr) => addr < TWO64 case To(lab) => lab < |p.at|)
  }

  lemma AppendBuilt(p: Prog, w: Word)
    requires Built(p) && Appendable(p, w)
    ensures Built(With(p, w))
  {
    var q := With(p, w);
    forall v | 0 <= v < |q.words|
      ensures WordOk(q, v)
    {
      if v < |p.words| {
        assert WordOk(p, v);
      }
    }
    forall k | 0 <= k < |q.at|
      ensures LabelOk(q, k)
    {
      assert LabelOk(p, k);
    }
  }

  lemma AppendPlain(p: Prog, jw: seq<nat>, buf: seq<Ins>, size: nat, labels: seq<nat>, jumps: seq<Record>, i: Ins)
    requires Emitted(p, jw, buf, size, labels, jumps)
    ensures Emitted(With(p, Op(i)), jw, buf + [i], size + 1, labels, jumps)
  {
    hide Built;
    AppendBuilt(p, Op(i));
    AllOrigKept(p, With(p, Op(i)));
    LabelsInRange(With(p, Op(i)));
  }

  lemma LabelsInRange(p: Prog)
    requires Built(p)
    ensures forall k :: 0 <= k < |p.at| ==> LabelOk(p, k)
  {
  }

  lemma AppendJump(p: Prog, jw: seq<nat>, buf: seq<Ins>, size: nat, labels: seq<nat>, jumps: seq<Record>, w: Word,
                   r: Record)
    requires Emitted(p, jw, buf, size, labels, jumps) && !w.Op? && Appendable(p, w)
    requires Describes(r, w) && r.addr == size
    ensures Emitted(With(p, w), jw + [|p.words|], buf + [FirstWord(w)], size + FullSize(w), labels, jumps + [r])
  {
    hide Built;
    AppendBuilt(p, w);
    AllOrigKept(p, With(p, w));
    LabelsInRange(With(p, w));
    AppendNumber(p, jw, w);
  }

  lemma AppendNumber(p: Prog, jw: seq<nat>, w: Word)
    requires Numbers(p, jw) && !w.Op?
    ensures Numbers(With(p, w), jw + [|p.words|])
  {
    var q, all := With(p, w), jw + [|p.words|];
    forall v | 0 <= v < |q.words| && !q.words[v].Op?
      ensures v in all
    {
      if v < |p.words| {
        assert v in jw;
      } else {
        assert all[|jw|] == v;
      }
    }
  }

  lemma AppendLabel(p: Prog, jw: seq<nat>, buf: seq<Ins>, size: nat, labels: seq<nat>, jumps: seq<Record>)
    requires Emitted(p, jw, buf, size, labels, jumps) && (labels != [] ==> labels[|labels| - 1] != size)
    ensures Emitted(Prog(p.words, p.at + [|p.words|]), jw, buf, size, labels + [size], jumps)
  {
    var q := Prog(p.words, p.at + [|p.words|]);
    AllOrigKept(p, q);
    forall k | 0 <= k < |q.at|
      ensures LabelOk(q, k)
    {
      assert k < |p.at| ==> LabelOk(p, k);
    }
    forall v | 0 <= v < |q.words|
      ensures WordOk(q, v)
    {
      assert WordOk(p, v);
    }
    if p.at != [] {
      assert LabelOk(p, |p.at| - 1);
    }
  }

  function Aimed(w: Word, target: Target): Word {
    match w
    case Op(_) => w
    case Jump(reg, link, cond, rewritable, _) => Jump(reg, link, cond, rewritable, target)
    case Mov(reg, _) => Mov(reg, target)
  }

  lemma AimBuilt(p: Prog, u: nat, target: Target)
    requires Built(p) && u < |p.words| && TargetOk(p, target)
    ensures Built(Prog(p.words[u := Aimed(p.words[u], target)], p.at))
  {
    var q := Prog(p.words[u := Aimed(p.words[u], target)], p.at);
    forall v | 0 <= v < |q.words|
      ensures WordOk(q, v)
    {
      assert WordOk(p, v);
    }
    forall k | 0 <= k < |q.at|
      ensures LabelOk(q, k)
    {
      assert LabelOk(p, k);
    }
  }

  lemma AimEmitted(p: Prog, jw: seq<nat>, buf: seq<Ins>, size: nat, labels: seq<nat>, jumps: seq<Record>, j: nat,
                   target: Target)
    requires Emitted(p, jw, buf, size, labels, jumps) && j < |jw| && TargetOk(p, target)
    ensures jw[j] < |p.words| && |jumps| == |jw|
    ensures Emitted(Prog(p.words[jw[j] := Aimed(p.words[jw[j]], target)], p.at), jw, buf, size, labels,
                    jumps[j := jumps[j].(target := target)])
  {
    hide Built;
    InProgram(p, jw, j);
    var u := jw[j];
    var q := Prog(p.words[u := Aimed(p.words[u], target)], p.at);
    AimBuilt(p, u, target);
    AllOrigKept(p, q);
    LabelsInRange(q);
    forall i | 0 <= i < |jw|
      ensures i != j ==> jw[i] != u
    {
      InOrder(p, jw, i, j);
      InOrder(p, jw, j, i);
    }
  }

  // --------------------------------------------------------------- the compiler

  /** `struct sljit_compiler` as far as code generation looks at it.  A jump whose
      target has not been set yet is recorded with address 0. */
  class Compiler {
    var buf: seq<Ins>
    var size: nat
    var labels: seq<nat>
    var jumps: seq<Record>
    ghost var p: Prog
    ghost var jw: seq<nat>

    ghost predicate Valid()
      reads this
    {
      Emitted(p, jw, buf, size, labels, jumps)
    }

    constructor ()
      ensures Valid() && p == Prog([], [])
    {
      buf, size, labels, jumps, p, jw := [], 0, [], [], Prog([], []), [];
    }

    /** `push_inst`. */
    method PushInst(i: Ins)
      requires Valid()
      modifies this
      ensures Valid() && p == With(old(p), Op(i)) && labels == old(labels)
    {
      AppendPlain(p, jw, buf, size, labels, jumps, i);
      buf, size, p := buf + [i], size + 1, With(p, Op(i));
    }

    /** `sljit_emit_label`: one label per position. */
    method EmitLabel() returns (k: nat)
      requires Valid()
      modifies this
      ensures Valid() && p.words == old(p.words) && k < |p.at| && p.at[k] == |p.words|
      ensures p.at == old(p.at) || p.at == old(p.at) + [|p.words|]
    {
      if labels != [] && labels[|labels| - 1] == size {
        LastHere(p, jw, buf, size, labels, jumps);
        return |labels| - 1;
      }
      AppendLabel(p, jw, buf, size, labels, jumps);
      k := |labels|;
      labels, p := labels + [size], Prog(p.words, p.at + [|p.words|]);
    }

    /** `sljit_emit_jump` and `emit_cmp_to0`: an inverted test that skips the jump
        goes first when there is a condition. */
    method EmitJump(cond: bool, test: nat, sense: bool, link: bool, rewritable: bool, reg: nat) returns (j: nat)
      requires Valid() && (cond ==> !link)
      modifies this
      ensures Valid() && j + 1 == |jw| && p.at == old(p.at)
      ensures p.words == old(p.words) + (if cond then [Op(Skip(test, sense, 6))] else [])
        + [Jump(reg, link, cond, rewritable, Abs(0))]
    {
      hide Emitted;
      LabelsWithin(p, jw, buf, size, labels, jumps);
      if cond {
        PushInst(Skip(test, sense, 6));
      }
      LabelsWithin(p, jw, buf, size, labels, jumps);
      ghost var w := Jump(reg, link, cond, rewritable, Abs(0));
      var r := Record(size, false, cond, rewritable, link, Abs(0), 0, Abs64);
      AppendJump(p, jw, buf, size, labels, jumps, w, r);
      j := |jumps|;
      buf, jumps := buf + [BranchReg(link, reg)], jumps + [r];
      size := size + 1;
      size := size + JUMP_MAX_SIZE - 1;
      jw, p := jw + [|p.words|], With(p, w);
    }

    /** `sljit_emit_op_addr`, the part that loads the address. */
    method EmitOpAddr(reg: nat) returns (j: nat)
      requires Valid()
      modifies this
      ensures Valid() && j + 1 == |jw| && p == With(old(p), Mov(reg, Abs(0)))
    {
      ghost var w := Mov(reg, Abs(0));
      var r := Record(size, true, false, false, false, Abs(0), 0, Abs64);
      AppendJump(p, jw, buf, size, labels, jumps, w, r);
      j := |jumps|;
      buf, jumps, size := buf + [Mark(reg)], jumps + [r], size + 4;
      jw, p := jw + [|p.words|], With(p, w);
    }

    /** `sljit_set_label` and `sljit_set_target`. */
    method SetTarget(j: nat, target: Target)
      requires Valid() && j < |jw| && TargetOk(p, target)
      modifies this
      ensures Valid() && jw == old(jw) && p.at == old(p.at)
      ensures jw[j] < |old(p).words| && p.words == old(p).words[jw[j] := Aimed(old(p).words[jw[j]], target)]
    {
      AimEmitted(p, jw, buf, size, labels, jumps, j, target);
      jumps := jumps[j := jumps[j].(target := target)];
      p := Prog(p.words[jw[j] := Aimed(p.words[jw[j]], target)], p.at);
    }

    /** `sljit_generate_code` on everything that was emitted. */
    method Generate(base: nat) returns (code: array<Ins>, room: nat, length: nat)
      requires Valid() && Placed(p, base) && size < MAX_ADDRESS
      ensures Built(p) && length <= room <= size && room < code.Length
      ensures Generated(p, base, code[..length])
    {
      hide Built, Placed, Numbers, LabelsHalf, JumpsHalf, Generated, Orig;
      var l, j := labels, jumps;
      var ls := new nat[|l|](i requires 0 <= i < |l| => l[i]);
      var js := new Record[|j|](i requires 0 <= i < |j| => j[i]);
      assert ls[..] == l && js[..] == j;
      ListsReady(p, jw, buf, size, labels, jumps);
      code, room, length := GenerateCode(p, jw, buf, ls, js, base, size);
    }
  }

  lemma LastHere(p: Prog, jw: seq<nat>, buf: seq<Ins>, size: nat, labels: seq<nat>, jumps: seq<Record>)
    requires Emitted(p, jw, buf, size, labels, jumps) && labels != [] && labels[|labels| - 1] == size
    ensures |p.at| == |labels| && p.at[|labels| - 1] == |p.words|
  {
    var k := |labels| - 1;
    assert LabelOk(p, k);
    OrigOrder(p, p.at[k], |p.words|);
  }

  lemma ListsReady(p: Prog, jw: seq<nat>, buf: seq<Ins>, size: nat, labels: seq<nat>, jumps: seq<Record>)
    requires Emitted(p, jw, buf, size, labels, jumps)
    ensures Built(p) && Numbers(p, jw) && Buffered(p, buf) && size == Orig(p, |p.words|)
    ensures LabelsHalf(p, labels, 0) && JumpsHalf(p, jw, jumps, 0)
  {
    hide Built;
  }

  lemma LabelsWithin(p: Prog, jw: seq<nat>, buf: seq<Ins>, size: nat, labels: seq<nat>, jumps: seq<Record>)
    requires Emitted(p, jw, buf, size, labels, jumps)
    ensures |labels| == |p.at| && |jumps| == |jw| && forall k :: 0 <= k < |p.at| ==> p.at[k] <= |p.words|
  {
    forall k | 0 <= k < |p.at|
      ensures p.at[k] <= |p.words|
    {
      assert LabelOk(p, k);
    }
  }
}
