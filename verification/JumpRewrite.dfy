/** Rewritable jumps: always the long form, so that their address can be replaced in the
    finished code; the code is then the one of the program with that jump's target replaced. */
module JumpRewrite {
  import opened Arm64
  import opened JumpLayout
  import opened JumpReach

  predicate Rewritable(p: Prog, w: nat) {
    w < |p.words| && p.words[w].Jump? && p.words[w].rewritable
  }

  /** The four instructions that load `x`, half-word by half-word. */
  function Address(reg: nat, x: nat): seq<Ins> {
    [Movz(reg, x % 0x1_0000), Movk(reg, x / 0x1_0000 % 0x1_0000, 1), Movk(reg, x / 0x1_0000_0000 % 0x1_0000, 2),
     Movk(reg, x / 0x1_0000_0000_0000 % 0x1_0000, 3)]
  }

  /** Wherever its target is, a rewritable jump is these five words. */
  lemma RewritableCode(p: Prog, base: nat, code: seq<Ins>, w: nat)
    requires Built(p) && Generated(p, base, code) && Rewritable(p, w)
    ensures var k := Act(p, base, w);
      && Act(p, base, w + 1) == k + 5 <= |code|
      && code[k..k + 5] == FiveWords(p, w, Dest(p, base, w))
  {
    hide Act, Distance, TargetAddr, Dest, Built, LabelAt;
    ActNext(p, base, w);
    var k, part := Act(p, base, w), WordCode(p, base, w);
    assert Slice(code, k, part);
    assert code[k..k + 5] == part;
  }

  // ----------------------------------------------------------- another address

  /** `sljit_set_jump_addr`: the four words are written anew, with the register found in the first. */
  function Rewritten(code: seq<Ins>, k: nat, x: nat): seq<Ins>
    requires k + 4 <= |code| && code[k].Movz?
  {
    code[..k] + Address(code[k].reg, x) + code[k + 4..]
  }

  method SetJumpAddr(code: array<Ins>, k: nat, target: nat)
    requires k + 4 <= code.Length && code[k].Movz? && code[k + 1].Movk? && code[k + 1].hw == 1
    modifies code
    ensures code[..] == Rewritten(old(code[..]), k, target)
  {
    ghost var was := code[..];
    var dst := code[k].reg;
    code[k] := Movz(dst, target % TWO16);
    code[k + 1] := Movk(dst, target / TWO16 % TWO16, 1);
    code[k + 2] := Movk(dst, target / TWO32 % TWO16, 2);
    code[k + 3] := Movk(dst, target / TWO48 % TWO16, 3);
    assert code[k..k + 4] == Address(dst, target);
    assert code[..] == code[..k] + code[k..k + 4] + code[k + 4..];
    assert code[..k] == was[..k] && code[k + 4..] == was[k + 4..];
  }

  /** The program with another address as the target of the jump. */
  function Retargeted(p: Prog, w: nat, x: nat): Prog
    requires Rewritable(p, w)
  {
    var j := p.words[w];
    p.(words := p.words[w := Jump(j.reg, j.link, j.cond, j.rewritable, Abs(x))])
  }

  lemma RetargetedBuilt(p: Prog, w: nat, x: nat)
    requires Built(p) && Rewritable(p, w) && x < TWO64 && x % 4 == 0
    ensures Built(Retargeted(p, w, x))
  {
    var q := Retargeted(p, w, x);
    forall v | 0 <= v < |q.words|
      ensures WordOk(q, v)
    {
      assert WordOk(p, v);
    }
    forall k | 0 <= k < |q.at|
      ensures LabelOk(q, k)
    {
      assert LabelOk(p, k);
    }
  }

  lemma {:induction false} SameFull(p: Prog, w: nat, x: nat, v: nat)
    requires Rewritable(p, w) && v <= |p.words|
    ensures Orig(Retargeted(p, w, x), v) == Orig(p, v)
    decreases v
  {
    if v > 0 {
      SameFull(p, w, x, v - 1);
    }
  }

  lemma LabelSame(p: Prog, w: nat, x: nat, v: nat, lab: nat)
    requires Built(p) && Rewritable(p, w) && Built(Retargeted(p, w, x))
    requires v < |p.words| && v != w && Names(p.words[v], lab)
    ensures LabelAt(Retargeted(p, w, x), v, lab) == LabelAt(p, v, lab)
  {
  }

  /** The positions of the first pass are the same. */
  lemma {:induction false} SameReduced(p: Prog, w: nat, x: nat, v: nat)
    requires Built(p) && Rewritable(p, w) && Built(Retargeted(p, w, x)) && v <= |p.words|
    ensures Res(Retargeted(p, w, x), v) == Res(p, v)
    decreases v
  {
    hide Built, LabelAt;
    var q := Retargeted(p, w, x);
    if v > 0 {
      SameReduced(p, w, x, v - 1);
      var u := v - 1;
      if u != w && !p.words[u].Op? && p.words[u].target.To? {
        var lab := p.words[u].target.lab;
        LabelNamed(p, u, lab);
        LabelSame(p, w, x, u, lab);
        var t := LabelAt(p, u, lab);
        SameFull(p, w, x, u);
        SameFull(p, w, x, t);
        if t <= u {
          SameReduced(p, w, x, t);
        }
        assert Estimate(q, u, t) == Estimate(p, u, t);
      }
      assert ResSize(q, u) == ResSize(p, u);
    }
  }

  lemma LabelNamed(p: Prog, w: nat, lab: nat)
    requires w < |p.words| && !p.words[w].Op? && p.words[w].target == To(lab)
    ensures Names(p.words[w], lab)
  {
  }

  /** And so are the final ones, and the forms chosen. */
  lemma {:induction false} SameActual(p: Prog, base: nat, w: nat, x: nat, v: nat)
    requires Built(p) && Rewritable(p, w) && Built(Retargeted(p, w, x)) && v <= |p.words|
    ensures Act(Retargeted(p, w, x), base, v) == Act(p, base, v)
    decreases v
  {
    hide Built;
    if v > 0 {
      SameActual(p, base, w, x, v - 1);
      SameChoice(p, base, w, x, v - 1);
    }
  }

  lemma {:induction false} SameChoice(p: Prog, base: nat, w: nat, x: nat, v: nat)
    requires Built(p) && Rewritable(p, w) && Built(Retargeted(p, w, x)) && v < |p.words|
    requires Act(Retargeted(p, w, x), base, v) == Act(p, base, v)
    ensures Choose(Retargeted(p, w, x), base, v) == Choose(p, base, v)
    ensures ActSize(Retargeted(p, w, x), base, v) == ActSize(p, base, v)
    decreases v, 1
  {
    hide Built, LabelAt, Signed, Act, Res;
    var q := Retargeted(p, w, x);
    if v != w && !p.words[v].Op? {
      if p.words[v].target.To? {
        var lab := p.words[v].target.lab;
        LabelNamed(p, v, lab);
        LabelSame(p, w, x, v, lab);
        var t := LabelAt(p, v, lab);
        SameReduced(p, w, x, v);
        SameReduced(p, w, x, t);
        if t <= v {
          if t < v {
            SameActual(p, base, w, x, t);
          }
        }
      }
      assert TargetAddr(q, base, v) == TargetAddr(p, base, v) && From(q, base, v) == From(p, base, v);
    }
  }

  function FiveWords(p: Prog, w: nat, x: nat): seq<Ins>
    requires Rewritable(p, w)
  {
    Address(p.words[w].reg, x) + [BranchReg(p.words[w].link, p.words[w].reg)]
  }

  /** Word by word, the code of the new program is that of the old one, but for the address. */
  lemma SameCode(p: Prog, base: nat, w: nat, x: nat, v: nat)
    requires Built(p) && Rewritable(p, w) && Built(Retargeted(p, w, x)) && v < |p.words|
    ensures v != w ==> WordCode(Retargeted(p, w, x), base, v) == WordCode(p, base, v)
    ensures v == w ==> WordCode(Retargeted(p, w, x), base, v) == FiveWords(p, w, x)
  {
    hide Built, LabelAt, Signed, Act;
    var q := Retargeted(p, w, x);
    SameActual(p, base, w, x, v);
    SameChoice(p, base, w, x, v);
    if !p.words[v].Op? {
      SameDest(p, base, w, x, v);
    }
    if v + 1 < |p.words| && !p.words[v + 1].Op? {
      SameActual(p, base, w, x, v + 1);
      SameChoice(p, base, w, x, v + 1);
      SameDest(p, base, w, x, v + 1);
    }
  }

  lemma SameDest(p: Prog, base: nat, w: nat, x: nat, v: nat)
    requires Built(p) && Rewritable(p, w) && Built(Retargeted(p, w, x)) && v < |p.words| && !p.words[v].Op?
    ensures v != w ==> Dest(Retargeted(p, w, x), base, v) == Dest(p, base, v)
  {
    hide Built, LabelAt, Act;
    if v != w && p.words[v].target.To? {
      LabelNamed(p, v, p.words[v].target.lab);
      LabelSame(p, w, x, v, p.words[v].target.lab);
      SameActual(p, base, w, x, LabelAt(p, v, p.words[v].target.lab));
    }
  }

  /** Once the address is rewritten, the code is what would have been generated for the
      program with the new target: whatever holds of generated code holds of it. */
  lemma RewrittenGenerated(p: Prog, base: nat, code: seq<Ins>, w: nat, x: nat)
    requires Built(p) && Generated(p, base, code) && Rewritable(p, w) && x < TWO64 && x % 4 == 0
    ensures var k, q := Act(p, base, w), Retargeted(p, w, x);
      && k + 4 <= |code| && code[k].Movz? && code[k + 1].Movk? && code[k + 1].hw == 1
      && Built(q) && Generated(q, base, Rewritten(code, k, x))
  {
    hide Built, WordCode, Act, Dest;
    var k, q := Act(p, base, w), Retargeted(p, w, x);
    RetargetedBuilt(p, w, x);
    RewritableCode(p, base, code, w);
    var five := code[k..k + 5];
    assert five[0] == code[k] && five[1] == code[k + 1] && five[4] == code[k + 4];
    var next := Rewritten(code, k, x);
    forall v | 0 <= v < |q.words|
      ensures Slice(next, Act(q, base, v), WordCode(q, base, v))
    {
      assert Slice(code, Act(p, base, v), WordCode(p, base, v));
      SameActual(p, base, w, x, v);
      SameCode(p, base, w, x, v);
      if v != w {
        CodeSize(p, base, v);
        ActNext(p, base, v);
        OtherWords(p, base, w, v);
      }
    }
    SameActual(p, base, w, x, |p.words|);
  }

  /** The codes of two words do not overlap. */
  lemma OtherWords(p: Prog, base: nat, w: nat, v: nat)
    requires Built(p) && w < |p.words| && v < |p.words| && v != w
    ensures Act(p, base, v + 1) <= Act(p, base, w) || Act(p, base, w + 1) <= Act(p, base, v)
  {
    if v < w {
      ActGrows(p, base, v + 1, w);
    } else {
      ActGrows(p, base, w + 1, v);
    }
  }

  lemma {:induction false} ActGrows(p: Prog, base: nat, u: nat, v: nat)
    requires Built(p) && u <= v <= |p.words|
    ensures Act(p, base, u) <= Act(p, base, v)
    decreases v - u
  {
    hide Built, ActSize;
    if u < v {
      ActGrows(p, base, u, v - 1);
    }
  }

  lemma SameStart(p: Prog, base: nat, w: nat, x: nat, c: Cpu)
    requires Built(p) && Rewritable(p, w) && Built(Retargeted(p, w, x))
    ensures var q := Retargeted(p, w, x);
      && JumpStart(q, base, w) == JumpStart(p, base, w) && (Taken(q, w, c) <==> Taken(p, w, c))
      && Dest(q, base, w) == x
  {
    hide Act;
    assert WordOk(p, w);
    SameActual(p, base, w, x, w);
    if w > 0 {
      SameActual(p, base, w, x, w - 1);
    }
  }

  /** The rewritten jump, when it is taken, goes to the new address, and no other word has changed. */
  lemma RewrittenReaches(p: Prog, base: nat, code: seq<Ins>, w: nat, x: nat, c: Cpu) returns (n: nat)
    requires Built(p) && Placed(p, base) && Generated(p, base, code)
    requires Rewritable(p, w) && x < TWO64 && x % 4 == 0 && c.pc == JumpStart(p, base, w)
    ensures var k := Act(p, base, w);
      && k + 4 <= |code| && code[k].Movz?
      && var next := Rewritten(code, k, x); var r := Run(next, base, c, n);
        && |next| == |code| && (forall j :: 0 <= j < |code| && !(k <= j < k + 4) ==> next[j] == code[j])
        && if Taken(p, w, c) then Arrived(c, r, x, p.words[w].reg, p.words[w].link, Addr(p, base, w + 1))
           else r == c.(pc := Addr(p, base, w + 1))
  {
    hide Built, Generated, Act, Run, Arrived, Orig;
    var q := Retargeted(p, w, x);
    RewrittenGenerated(p, base, code, w, x);
    SameFull(p, w, x, |p.words|);
    SameActual(p, base, w, x, w + 1);
    SameStart(p, base, w, x, c);
    n := JumpReaches(q, base, Rewritten(code, Act(p, base, w), x), w, c);
  }
}
