/** The code array of `sljit_generate_code`: what the walk leaves in it, and what
    the final loop over the jumps makes of that. */
module JumpEmit {
  import opened Arm64
  import opened JumpLayout
  import opened JumpReach
  import opened JumpPasses
  import opened JumpGenerate

  // ------------------------------------------------------- after the walk

  /** The `Skip` before a jump, after `detect_jump_type`: inverted, or with less to step over. */
  function Tweak(skip: Ins, patch: Patch): Ins {
    if !skip.Skip? then skip
    else if patch.Cond? then Skip(skip.test, !skip.sense, skip.imm)
    else Skip(skip.test, skip.sense, skip.imm - (JUMP_MAX_SIZE - JumpLength(patch)))
  }

  /** What the walk has written for word `w`. */
  ghost predicate Raw(p: Prog, base: nat, code: seq<Ins>, w: nat)
    requires Built(p) && w < |p.words|
  {
    var a, n := Act(p, base, w), ActSize(p, base, w);
    a + n <= |code| &&
    match p.words[w]
    case Op(ins) => code[a] == if Conditional(p, w + 1) then Tweak(ins, Choose(p, base, w + 1)) else ins
    case Jump(reg, link, _, _, _) => n > 0 ==> code[a] == code[a + n - 1] == BranchReg(link, reg)
    case Mov(reg, _) => code[a] == Mark(reg)
  }

  /** Words before `w` are written; a `Skip` waits for its jump. */
  ghost predicate RawTo(p: Prog, base: nat, code: seq<Ins>, w: nat)
    requires Built(p) && w <= |p.words|
  {
    && (forall v :: 0 <= v < w && !(v + 1 == w && Conditional(p, w)) ==> Raw(p, base, code, v))
    && (Conditional(p, w) && w > 0 ==> Act(p, base, w - 1) < |code| && Op(code[Act(p, base, w - 1)]) == p.words[w - 1])
  }

  lemma {:induction false} ActGrows(p: Prog, base: nat, u: nat, v: nat)
    requires Built(p) && u < v <= |p.words|
    ensures Act(p, base, u) + ActSize(p, base, u) <= Act(p, base, v)
    decreases v - u
  {
    hide Built, ActSize;
    if u + 1 < v {
      ActGrows(p, base, u, v - 1);
    }
  }

  lemma SizeOne(p: Prog, base: nat, w: nat)
    requires Built(p) && w < |p.words|
    ensures p.words[w].Op? ==> ActSize(p, base, w) == 1
    ensures p.words[w].Mov? ==> ActSize(p, base, w) >= 1
    ensures p.words[w].Jump? ==> (ActSize(p, base, w) == 0 <==> Choose(p, base, w).Cond?)
  {
    hide Distance, TargetAddr;
  }

  /** A plain word is copied. */
  lemma RawPlain(p: Prog, base: nat, code: seq<Ins>, w: nat)
    requires Built(p) && w < |p.words| && RawTo(p, base, code, w) && p.words[w].Op?
    requires Act(p, base, w) < |code|
    ensures RawTo(p, base, code[Act(p, base, w) := p.words[w].ins], w + 1)
  {
    hide Built, Act, ActSize, Choose, Raw;
    var a := Act(p, base, w);
    var after := code[a := p.words[w].ins];
    var next := w + 1;
    SizeOne(p, base, w);
    forall v | 0 <= v < next && !(v + 1 == next && Conditional(p, next))
      ensures Raw(p, base, after, v)
    {
      if v < w {
        RawBefore(p, base, code, after, v, w);
      } else {
        RawCopied(p, base, after, w);
      }
    }
  }

  lemma RawCopied(p: Prog, base: nat, code: seq<Ins>, w: nat)
    requires Built(p) && w < |p.words| && p.words[w].Op? && !Conditional(p, w + 1)
    requires Act(p, base, w) < |code| && code[Act(p, base, w)] == p.words[w].ins
    ensures Raw(p, base, code, w)
  {
    hide Built, Act, Choose;
  }

  lemma RawBefore(p: Prog, base: nat, code: seq<Ins>, other: seq<Ins>, v: nat, w: nat)
    requires Built(p) && v < w < |p.words| && Raw(p, base, code, v) && |code| == |other|
    requires forall k :: 0 <= k < |code| && k < Act(p, base, w) ==> other[k] == code[k]
    ensures Raw(p, base, other, v)
  {
    hide Built, Act, ActSize, Choose;
    ActGrows(p, base, v, w);
    SizeOne(p, base, v);
  }

  lemma RawMov(p: Prog, base: nat, code: seq<Ins>, w: nat)
    requires Built(p) && w < |p.words| && RawTo(p, base, code, w) && p.words[w].Mov?
    requires Act(p, base, w + 1) <= |code|
    ensures Act(p, base, w) < |code|
    ensures RawTo(p, base, code[Act(p, base, w) := Mark(p.words[w].reg)], w + 1)
  {
    hide Built, Act, ActSize, Choose, Raw;
    var a := Act(p, base, w);
    ActNext(p, base, w);
    SizeOne(p, base, w);
    var after := code[a := Mark(p.words[w].reg)];
    var next := w + 1;
    NoSkipHere(p, w);
    forall v | 0 <= v < next && !(v + 1 == next && Conditional(p, next))
      ensures Raw(p, base, after, v)
    {
      if v < w {
        RawBefore(p, base, code, after, v, w);
      } else {
        RawMarked(p, base, after, w);
      }
    }
  }

  /** A conditional jump follows a plain word. */
  lemma NoSkipHere(p: Prog, w: nat)
    requires Built(p) && w < |p.words| && !p.words[w].Op?
    ensures !Conditional(p, w + 1)
  {
    if w + 1 < |p.words| {
      assert WordOk(p, w + 1);
    }
  }

  lemma RawMarked(p: Prog, base: nat, code: seq<Ins>, w: nat)
    requires Built(p) && w < |p.words| && p.words[w].Mov?
    requires Act(p, base, w) + ActSize(p, base, w) <= |code|
    requires Act(p, base, w) < |code| && code[Act(p, base, w)] == Mark(p.words[w].reg)
    ensures Raw(p, base, code, w)
  {
  }

  /** `detect_jump_type` on the code: `ptr` is where the jump's word has been copied. */
  function Adjusted(code: seq<Ins>, ptr: nat, cond: bool, patch: Patch): (r: seq<Ins>)
    requires ptr < |code| && (cond ==> ptr > 0) && ptr + JumpLength(patch) <= |code|
    ensures |r| == |code|
  {
    var c := if cond then code[ptr - 1 := Tweak(code[ptr - 1], patch)] else code;
    if patch.Cond? then c else c[ptr + JumpLength(patch) - 1 := c[ptr]]
  }

  lemma RawJump(p: Prog, base: nat, code: seq<Ins>, w: nat)
    requires Built(p) && w < |p.words| && RawTo(p, base, code, w) && p.words[w].Jump?
    requires Act(p, base, w) < |code| && Act(p, base, w + 1) <= |code|
    ensures p.words[w].cond ==> w > 0 && Act(p, base, w) > 0
    ensures Act(p, base, w) + JumpLength(Choose(p, base, w)) <= |code|
    ensures var a, word := Act(p, base, w), p.words[w];
      RawTo(p, base, Adjusted(code[a := BranchReg(word.link, word.reg)], a, word.cond, Choose(p, base, w)), w + 1)
  {
    hide Built, Act, ActSize, Choose, Raw, Adjusted;
    var a, word, patch := Act(p, base, w), p.words[w], Choose(p, base, w);
    ActNext(p, base, w);
    JumpSizes(p, base, w);
    NoSkipHere(p, w);
    if word.cond {
      SkipBefore(p, base, w);
    }
    var after := Adjusted(code[a := BranchReg(word.link, word.reg)], a, word.cond, patch);
    AdjustedAt(code[a := BranchReg(word.link, word.reg)], a, word.cond, patch);
    var next := w + 1;
    forall v | 0 <= v < next && !(v + 1 == next && Conditional(p, next))
      ensures Raw(p, base, after, v)
    {
      if v == w {
        RawBranch(p, base, after, w);
      } else if v + 1 == w && word.cond {
        RawSkip(p, base, after, w);
      } else {
        RawBefore(p, base, code, after, v, if word.cond then w - 1 else w);
      }
    }
  }

  lemma AdjustedAt(code: seq<Ins>, ptr: nat, cond: bool, patch: Patch)
    requires ptr < |code| && (cond ==> ptr > 0) && ptr + JumpLength(patch) <= |code|
    ensures var r, n := Adjusted(code, ptr, cond, patch), JumpLength(patch);
      && (n > 0 ==> r[ptr] == r[ptr + n - 1] == code[ptr])
      && (cond ==> r[ptr - 1] == Tweak(code[ptr - 1], patch))
      && forall k :: 0 <= k < |code| && k < (if cond then ptr - 1 else ptr) ==> r[k] == code[k]
  {
  }

  lemma JumpSizes(p: Prog, base: nat, w: nat)
    requires Built(p) && w < |p.words| && p.words[w].Jump?
    ensures ActSize(p, base, w) == JumpLength(Choose(p, base, w))
  {
  }

  lemma SkipBefore(p: Prog, base: nat, w: nat)
    requires Built(p) && Conditional(p, w)
    ensures w > 0 && p.words[w - 1].Op? && p.words[w - 1].ins.Skip? && p.words[w - 1].ins.imm == 6
    ensures Act(p, base, w - 1) + 1 == Act(p, base, w)
  {
    assert WordOk(p, w);
    ActNext(p, base, w - 1);
  }

  lemma RawBranch(p: Prog, base: nat, code: seq<Ins>, w: nat)
    requires Built(p) && w < |p.words| && p.words[w].Jump?
    requires Act(p, base, w) + ActSize(p, base, w) <= |code|
    requires ActSize(p, base, w) > 0 ==>
      code[Act(p, base, w)] == code[Act(p, base, w) + ActSize(p, base, w) - 1]
        == BranchReg(p.words[w].link, p.words[w].reg)
    ensures Raw(p, base, code, w)
  {
    hide Act, ActSize;
  }

  lemma RawSkip(p: Prog, base: nat, code: seq<Ins>, w: nat)
    requires Built(p) && Conditional(p, w) && w > 0 && p.words[w - 1].Op?
    requires Act(p, base, w - 1) < |code| && code[Act(p, base, w - 1)] == Tweak(p.words[w - 1].ins, Choose(p, base, w))
    ensures Raw(p, base, code, w - 1)
  {
    hide Choose;
    SizeOne(p, base, w - 1);
  }

  // ------------------------------------------------------------- the walk itself

  /** `code_ptr[-1] -= (less << 5)`, and the branch moves to the end of the words kept. */
  method KeepWords(code: array<Ins>, ptr: nat, cond: bool, less: nat, n: nat, ghost patch: Patch)
    requires ptr + n <= code.Length && (cond ==> ptr > 0 && code[ptr - 1].Skip?)
    requires !patch.Cond? && n == JumpLength(patch) && less == JUMP_MAX_SIZE - n
    modifies code
    ensures ptr < code.Length && code[..] == Adjusted(old(code[..]), ptr, cond, patch)
  {
    ghost var before := code[..];
    if cond {
      var s := code[ptr - 1];
      code[ptr - 1] := Skip(s.test, s.sense, s.imm - less);
      assert code[..] == before[ptr - 1 := Tweak(before[ptr - 1], patch)];
    }
    ghost var middle := code[..];
    if n > 1 {
      code[ptr + n - 1] := code[ptr];
    }
    assert code[..] == middle[ptr + n - 1 := middle[ptr]];
  }

  lemma Inverted(code: seq<Ins>, ptr: nat)
    requires 0 < ptr < |code| && code[ptr - 1].Skip?
    ensures var s := code[ptr - 1]; Adjusted(code, ptr, true, Cond) == code[ptr - 1 := Skip(s.test, !s.sense, s.imm)]
  {
  }

  /** How both functions below judge a target: its address, and the distance to it, measured
      from where the word was to be when the label is still ahead. */
  method Judge(r: Record, labels: array<nat>, base: nat, ptr: nat) returns (target: nat, diff: int)
    requires r.target.To? ==> r.target.lab < labels.Length
    ensures target == SeenTarget(labels[..], r, base) && diff == SeenDistance(labels[..], r, base, ptr)
  {
    hide Signed;
    var from := ptr;
    if r.target.Abs? {
      target := r.target.addr;
    } else {
      target := base + 4 * labels[r.target.lab];
      if labels[r.target.lab] > r.addr {
        from := r.addr;
      }
    }
    diff := Signed(target - (base + 4 * from));
  }

  /** `detect_jump_type`: shortens the jump whose word has just been copied to `ptr`;
      the result is the position of the last word kept, which is the one before for
      a conditional jump that became a single branch. */
  method DetectJumpType(code: array<Ins>, jumps: array<Record>, j: nat, ptr: nat, labels: array<nat>, base: nat)
    returns (end: int)
    requires j < jumps.Length && !jumps[j].mov && (jumps[j].target.To? ==> jumps[j].target.lab < labels.Length)
    requires ptr < code.Length && (jumps[j].cond ==> ptr > 0 && code[ptr - 1].Skip?)
    requires ptr + JumpLength(SeenPatch(labels[..], jumps[j], base, ptr)) <= code.Length
    requires jumps as object != labels && code as object != jumps && code as object != labels
    modifies code, jumps
    ensures var r := old(jumps[j]); var patch := SeenPatch(labels[..], r, base, ptr);
      && code[..] == Adjusted(old(code[..]), ptr, r.cond, patch)
      && jumps[..] == old(jumps[..])[j := r.(addr := if patch.Cond? then ptr - 1 else ptr, patch := patch)]
      && end == ptr + JumpLength(patch) - 1
  {
    hide SeenDistance, SeenTarget, Adjusted;
    var r := jumps[j];
    ghost var before := code[..];
    jumps[j] := r.(addr := ptr, patch := Abs64);
    if !r.rewritable {
      var target, diff := Judge(r, labels, base, ptr);
      if r.cond {
        diff := diff + 4;
        if diff <= 0xf_ffff && diff >= -0x10_0000 {
          var s := code[ptr - 1];
          code[ptr - 1] := Skip(s.test, !s.sense, s.imm);
          Inverted(before, ptr);
          jumps[j] := r.(addr := ptr - 1, patch := Cond);
          return ptr - 1;
        }
        diff := diff - 4;
      }
      if diff <= 0x7ff_ffff && diff >= -0x800_0000 {
        KeepWords(code, ptr, r.cond, 4, 1, Near);
        jumps[j] := jumps[j].(patch := Near);
        return ptr;
      }
      if target < TWO32 {
        KeepWords(code, ptr, r.cond, 2, 3, Low32);
        jumps[j] := jumps[j].(patch := Low32);
        return ptr + 2;
      }
      if diff <= 0xffff_f000 && diff >= -0x1_0000_0000 {
        KeepWords(code, ptr, r.cond, 2, 3, Page);
        jumps[j] := jumps[j].(patch := Page);
        return ptr + 2;
      }
      if target < TWO48 {
        KeepWords(code, ptr, r.cond, 1, 4, Abs48);
        jumps[j] := jumps[j].(patch := Abs48);
        return ptr + 3;
      }
    }
    KeepWords(code, ptr, r.cond, 0, 5, Abs64);
    return ptr + 4;
  }

  /** `mov_addr_get_length`: how many words an address takes beyond the first. */
  method MovAddrLength(jumps: array<Record>, j: nat, ptr: nat, labels: array<nat>, base: nat) returns (more: nat)
    requires j < jumps.Length && jumps[j].mov && (jumps[j].target.To? ==> jumps[j].target.lab < labels.Length)
    requires jumps as object != labels
    modifies jumps
    ensures var r := old(jumps[j]); var patch := SeenPatch(labels[..], r, base, ptr);
      && jumps[..] == old(jumps[..])[j := r.(patch := patch)]
      && more + 1 == MovLength(patch)
  {
    hide SeenDistance, SeenTarget;
    var r := jumps[j];
    var target, diff := Judge(r, labels, base, ptr);
    if diff <= 0xf_ffff && diff >= -0x10_0000 {
      jumps[j] := r.(patch := Near);
      return 0;
    }
    if diff <= 0xffff_f000 && diff >= -0x1_0000_0000 {
      jumps[j] := r.(patch := Page);
      return 1;
    }
    if target < TWO32 {
      jumps[j] := r.(patch := Low32);
      return 1;
    }
    if target < TWO48 {
      jumps[j] := r.(patch := Abs48);
      return 2;
    }
    jumps[j] := r.(patch := Abs64);
    return 3;
  }
}
