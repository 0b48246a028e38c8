/** Two-pass jump relaxation: what each pass decides for each jump, and why the
    second never needs more room than the first set aside. */
module JumpLayout {
  import opened Arm64

  datatype Target = Abs(addr: nat) | To(lab: nat)

  /** One word of the instruction buffer.  A jump is its final BR or BLR; the
      conditional ones follow a `Skip` word.  `Mov` loads an address. */
  datatype Word =
    | Op(ins: Ins)
    | Jump(reg: nat, link: bool, cond: bool, rewritable: bool, target: Target)
    | Mov(reg: nat, target: Target)

  /** The words, and for each label the word it stands before. */
  datatype Prog = Prog(words: seq<Word>, at: seq<nat>)

  const JUMP_MAX_SIZE: nat := 5

  /** Room reserved while emitting. */
  function FullSize(w: Word): nat {
    match w
    case Op(_) => 1
    case Jump(_, _, _, _, _) => JUMP_MAX_SIZE
    case Mov(_, _) => 4
  }

  function Orig(p: Prog, w: nat): nat
    requires w <= |p.words|
  {
    if w == 0 then 0 else Orig(p, w - 1) + FullSize(p.words[w - 1])
  }

  predicate TargetOk(p: Prog, t: Target) {
    match t
    case Abs(addr) => addr < TWO64 && addr % 4 == 0
    case To(lab) => lab < |p.at|
  }

  predicate WordOk(p: Prog, w: nat)
    requires w < |p.words|
  {
    match p.words[w]
    case Op(_) => true
    case Jump(_, link, cond, _, target) =>
      TargetOk(p, target) && (cond ==>
        !link && w > 0 && p.words[w - 1].Op? && p.words[w - 1].ins.Skip? && p.words[w - 1].ins.imm == 6)
    case Mov(_, target) => (match target case Abs(addr) => addr < TWO64 case To(lab) => lab < |p.at|)
  }

  /** What the emitting functions build. */
  ghost predicate Built(p: Prog) {
    && (forall w :: 0 <= w < |p.words| ==> WordOk(p, w))
    && (forall k :: 0 <= k < |p.at| ==> LabelOk(p, k))
    && (forall k, l :: 0 <= k < l < |p.at| ==> p.at[k] < p.at[l])
  }

  /** A label never comes between a `Skip` and its jump. */
  predicate LabelOk(p: Prog, k: nat)
    requires k < |p.at|
  {
    p.at[k] <= |p.words| &&
    (p.at[k] < |p.words| ==> !(p.words[p.at[k]].Jump? && p.words[p.at[k]].cond))
  }

  // -------------------------------------------------------------- the first pass

  /** The word a label stands before, for a label that word `w` names. */
  ghost function LabelAt(p: Prog, w: nat, lab: nat): (t: nat)
    requires Built(p) && w < |p.words| && Names(p.words[w], lab)
    ensures t <= |p.words|
  {
    assert WordOk(p, w);
    assert LabelOk(p, lab);
    p.at[lab]
  }

  predicate Names(word: Word, lab: nat) {
    !word.Op? && word.target == To(lab)
  }

  /** Words to the target, as `reduce_code_size` estimates it: ahead by the full
      sizes, back by the sizes already reduced. */
  ghost function Estimate(p: Prog, w: nat, t: nat): int
    requires Built(p) && w < |p.words| && t <= |p.words|
    decreases w, 1
  {
    if t > w then Orig(p, t) - Orig(p, w) else Res(p, t) - Res(p, w)
  }

  function JumpSize(cond: bool, diff: int): nat {
    if cond && -0x4_0000 <= diff + 1 <= 0x3_ffff then 0
    else if -0x200_0000 <= diff <= 0x1ff_ffff then 1
    else if -0x4000_0000 <= diff <= 0x3fff_fc00 then 3
    else JUMP_MAX_SIZE
  }

  function MovSize(diff: int): nat {
    if -0x4_0000 <= diff <= 0x3_ffff then 0
    else if -0x4000_0000 <= diff <= 0x3fff_fc00 then 1
    else 3
  }

  /** `total_size`: the room set aside for a jump, and for an address beyond its first word. */
  ghost function Reserve(p: Prog, w: nat): nat
    requires Built(p) && w < |p.words|
    decreases w, 2
  {
    match p.words[w]
    case Op(_) => 0
    case Jump(_, _, cond, rewritable, target) =>
      if rewritable then JUMP_MAX_SIZE
      else (match target
            case Abs(addr) => if addr < TWO32 then 3 else if addr < TWO48 then 4 else JUMP_MAX_SIZE
            case To(lab) => JumpSize(cond, Estimate(p, w, LabelAt(p, w, lab))))
    case Mov(_, target) =>
      (match target
       case Abs(addr) => if addr < TWO32 then 1 else if addr < TWO48 then 2 else 3
       case To(lab) => MovSize(Estimate(p, w, LabelAt(p, w, lab))))
  }

  ghost function ResSize(p: Prog, w: nat): nat
    requires Built(p) && w < |p.words|
    decreases w, 3
  {
    if p.words[w].Jump? then Reserve(p, w) else 1 + Reserve(p, w)
  }

  /** The position of word `w` after the first pass. */
  ghost function Res(p: Prog, w: nat): nat
    requires Built(p) && w <= |p.words|
    decreases w, 0
  {
    if w == 0 then 0 else Res(p, w - 1) + ResSize(p, w - 1)
  }

  // ------------------------------------------------------------- the second pass

  datatype Patch = Cond | Near | Low32 | Page | Abs48 | Abs64

  /** The address of the target as the second pass sees it: a label ahead has only
      its reserved position. */
  ghost function TargetAddr(p: Prog, base: nat, w: nat): nat
    requires Built(p) && w < |p.words| && !p.words[w].Op?
    decreases w, 1
  {
    match p.words[w].target
    case Abs(addr) => addr
    case To(lab) =>
      var t := LabelAt(p, w, lab);
      base + 4 * if t > w then Res(p, t) else Act(p, base, t)
  }

  /** The position that the second pass measures from. */
  ghost function From(p: Prog, base: nat, w: nat): nat
    requires Built(p) && w < |p.words| && !p.words[w].Op?
    decreases w, 1
  {
    match p.words[w].target
    case Abs(_) => Act(p, base, w)
    case To(lab) => if LabelAt(p, w, lab) > w then Res(p, w) else Act(p, base, w)
  }

  /** The distance in bytes that the second pass judges by. */
  ghost function Distance(p: Prog, base: nat, w: nat): int
    requires Built(p) && w < |p.words| && !p.words[w].Op?
    decreases w, 2
  {
    Signed(TargetAddr(p, base, w) - (base + 4 * From(p, base, w)))
  }

  function JumpPatch(cond: bool, rewritable: bool, diff: int, addr: nat): Patch {
    if rewritable then Abs64
    else if cond && -0x10_0000 <= diff + 4 <= 0xf_ffff then Cond
    else if -0x800_0000 <= diff <= 0x7ff_ffff then Near
    else if addr < TWO32 then Low32
    else if -0x1_0000_0000 <= diff <= 0xffff_f000 then Page
    else if addr < TWO48 then Abs48
    else Abs64
  }

  function MovPatch(diff: int, addr: nat): Patch {
    if -0x10_0000 <= diff <= 0xf_ffff then Near
    else if -0x1_0000_0000 <= diff <= 0xffff_f000 then Page
    else if addr < TWO32 then Low32
    else if addr < TWO48 then Abs48
    else Abs64
  }

  ghost function Choose(p: Prog, base: nat, w: nat): Patch
    requires Built(p) && w < |p.words|
    decreases w, 3
  {
    match p.words[w]
    case Op(_) => Near
    case Jump(_, _, cond, rewritable, target) =>
      JumpPatch(cond, rewritable, Distance(p, base, w), TargetAddr(p, base, w))
    case Mov(_, target) => MovPatch(Distance(p, base, w), TargetAddr(p, base, w))
  }

  /** Words a jump takes in the end. */
  function JumpLength(patch: Patch): nat {
    match patch
    case Cond => 0
    case Near => 1
    case Low32 => 3
    case Page => 3
    case Abs48 => 4
    case Abs64 => 5
  }

  function MovLength(patch: Patch): nat {
    match patch
    case Abs48 => 3
    case Abs64 => 4
    case Low32 => 2
    case Page => 2
    case _ => 1
  }

  ghost function ActSize(p: Prog, base: nat, w: nat): nat
    requires Built(p) && w < |p.words|
    decreases w, 4
  {
    match p.words[w]
    case Op(_) => 1
    case Jump(_, _, _, _, _) => JumpLength(Choose(p, base, w))
    case Mov(_, _) => MovLength(Choose(p, base, w))
  }

  /** The position of word `w` in the generated code. */
  ghost function Act(p: Prog, base: nat, w: nat): nat
    requires Built(p) && w <= |p.words|
    decreases w, 0
  {
    if w == 0 then 0 else Act(p, base, w - 1) + ActSize(p, base, w - 1)
  }

  // -------------------------------------------------- every pass only shortens

  /** The code lies in the address space, and its size is a signed number. */
  predicate Placed(p: Prog, base: nat) {
    base % 4 == 0 && base + 4 * Orig(p, |p.words|) < TWO64 && 4 * Orig(p, |p.words|) < TWO63
  }

  lemma ReserveFits(p: Prog, w: nat)
    requires Built(p) && w < |p.words|
    ensures ResSize(p, w) <= FullSize(p.words[w])
    ensures ResSize(p, w) == 0 ==>
      p.words[w].Jump? && p.words[w].cond && p.words[w].target.To? && !p.words[w].rewritable
  {
    hide Estimate, Built;
  }

  lemma {:induction false} ReducedSpan(p: Prog, u: nat, v: nat)
    requires Built(p) && u <= v <= |p.words|
    ensures 0 <= Res(p, v) - Res(p, u) <= Orig(p, v) - Orig(p, u)
    decreases v - u
  {
    hide Built;
    if u < v {
      ReducedSpan(p, u, v - 1);
      ReserveFits(p, v - 1);
    }
  }

  lemma {:induction false} OrigSpan(p: Prog, u: nat, v: nat)
    requires u <= v <= |p.words|
    ensures Orig(p, u) <= Orig(p, v)
    decreases v - u
  {
    if u < v {
      OrigSpan(p, u, v - 1);
    }
  }

  /** Up to word `w` no word takes more than what was reserved. */
  ghost predicate Shrunk(p: Prog, base: nat, w: nat)
    requires Built(p) && w <= |p.words|
  {
    forall v :: 0 <= v < w ==> ActSize(p, base, v) <= ResSize(p, v)
  }

  lemma {:induction false} ActualSpan(p: Prog, base: nat, u: nat, v: nat, w: nat)
    requires Built(p) && u <= v <= w <= |p.words| && Shrunk(p, base, w)
    ensures 0 <= Act(p, base, v) - Act(p, base, u) <= Res(p, v) - Res(p, u)
    decreases v - u
  {
    hide Built;
    if u < v {
      ActualSpan(p, base, u, v - 1, w);
    }
  }

  /** A label's distance as judged by the second pass is no longer than the first pass estimated. */
  lemma Judged(p: Prog, base: nat, w: nat, lab: nat)
    requires Built(p) && Placed(p, base) && w < |p.words| && Shrunk(p, base, w) && Names(p.words[w], lab)
    ensures var t, d := LabelAt(p, w, lab), Distance(p, base, w);
      && (t > w ==> 0 <= d <= 4 * Estimate(p, w, t))
      && (t <= w ==> 4 * Estimate(p, w, t) <= d <= 0)
      && d % 4 == 0
  {
    hide Built, ActSize, ResSize, LabelAt, Signed, Orig, Act, Res;
    var t := LabelAt(p, w, lab);
    if t > w {
      ReducedSpan(p, w, t);
      ReducedSpan(p, 0, w);
      OrigSpan(p, 0, w);
      OrigSpan(p, t, |p.words|);
      SignedSmall(4 * (Res(p, t) - Res(p, w)), 0);
    } else {
      ActualSpan(p, base, t, w, w);
      ReducedSpan(p, t, w);
      OrigSpan(p, w, |p.words|);
      SignedSmall(4 * (Act(p, base, t) - Act(p, base, w)), 0);
    }
  }

  lemma AbsoluteAddr(p: Prog, base: nat, w: nat)
    requires Built(p) && w < |p.words| && !p.words[w].Op? && p.words[w].target.Abs?
    ensures TargetAddr(p, base, w) == p.words[w].target.addr && From(p, base, w) == Act(p, base, w)
  {
  }

  lemma OneShrinks(p: Prog, base: nat, w: nat)
    requires Built(p) && Placed(p, base) && w < |p.words| && Shrunk(p, base, w)
    ensures ActSize(p, base, w) <= ResSize(p, w)
  {
    hide Estimate, Distance, TargetAddr, Placed;
    var word := p.words[w];
    if !word.Op? {
      if word.target.To? {
        Judged(p, base, w, word.target.lab);
      } else {
        AbsoluteAddr(p, base, w);
      }
    }
  }

  /** No jump or address takes more room than the first pass set aside. */
  lemma {:induction false} AllShrink(p: Prog, base: nat, w: nat)
    requires Built(p) && Placed(p, base) && w <= |p.words|
    ensures Shrunk(p, base, w)
    decreases w
  {
    hide Built, Placed, ActSize, ResSize;
    if w > 0 {
      AllShrink(p, base, w - 1);
      OneShrinks(p, base, w - 1);
    }
  }
}
