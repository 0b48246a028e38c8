/** Arguments computed by straight-line code, and the call: nothing but a call ever leaves
    a gap between two slots, so such arguments always reach the callee. */
module ArgumentCode {
  import opened LazyMachine
  import opened LazyStack
  import opened LazyOps
  import opened LazySlots
  import opened LazyGen
  import opened Frames
  import opened CallLayout
  import opened Calls

  lemma TightAligned(end: int, ty: Ty, off: int)
    requires end % 4 == 0 && NextMultiple(end, ty, off)
    ensures off == AlignUp(end, ty)
  {
    hide AlignUp, Size;
    AlignedNext(end, ty);
    assert AlignUp(end, ty) <= off <= AlignUp(end, ty);
  }

  /** On a stack without gaps the arguments can always be passed. */
  lemma GaplessPass(s: seq<Entry>, locals: seq<Place>, first: int, k: nat)
    requires StackOk(s, locals, first) && Gapless(s, first) && k <= |s|
    ensures CanPass(s, k)
  {
    hide StackOk, Contiguous, AlignUp, NextMultiple, CanPass;
    SlotsKnown(s, locals, first);
    forall i | k < i < |s|
      ensures s[i].off == AlignUp(s[i - 1].off + Size(s[i - 1].ty), s[i].ty)
    {
      assert Tight(s, i, first);
      TightAligned(s[i - 1].off + Size(s[i - 1].ty), s[i].ty, s[i].off);
    }
    ContiguousIs(s, k);
    ContiguousPass(s, locals, first, k);
  }

  lemma ContiguousIs(s: seq<Entry>, k: nat)
    requires forall i :: k < i < |s| ==> s[i].off == AlignUp(s[i - 1].off + Size(s[i - 1].ty), s[i].ty)
    ensures Contiguous(s, k)
  {
  }

  /** Whatever the machine held: after the instructions and the code before the call, the
      callee reads as its parameters what WebAssembly leaves on top of the operand stack,
      and the values below are kept. */
  ghost predicate CallsWith(locals: seq<Place>, s: seq<Entry>, t: seq<Entry>, prog: seq<Instr>, params: seq<Ty>,
                            base: int, es: seq<Emit>) {
    forall m, w :: Rel(s, locals, m, w) && Completes(prog, w) ==>
      var v := ExecAll(prog, w);
      && |v.stack| == |t| + |params|
      && Rel(t, locals, Run(es, m), v.(stack := v.stack[..|t|]))
      && LaidOut(Run(es, m).frame, base, params, v.stack[|t|..], |params|)
  }

  lemma SimulatedCall(locals: seq<Place>, s: seq<Entry>, u: seq<Entry>, v: seq<Entry>, t: seq<Entry>,
                      prog: seq<Instr>, params: seq<Ty>, base: int, c0: seq<Emit>, c1: seq<Emit>, c2: seq<Emit>,
                      c3: seq<Emit>)
    requires Simulates(locals, s, u, c0, c1, prog) && Moved(locals, u, v, c1, c2)
    requires |c2| <= |c3| && c3[..|c2|] == c2 && |t| + |params| == |v|
    requires Delivers(locals, v, t, params, base, c3[|c2|..])
    ensures |c0| <= |c3| && c3[..|c0|] == c0 && CallsWith(locals, s, t, prog, params, base, c3[|c0|..])
  {
    hide Rel, Run, Completes, ExecAll, LaidOut;
    var d1, d2, d3 := c1[|c0|..], c2[|c1|..], c3[|c2|..];
    assert c3[|c0|..] == d1 + (d2 + d3);
    forall m, w | Rel(s, locals, m, w) && Completes(prog, w)
      ensures var x := ExecAll(prog, w);
        && |x.stack| == |t| + |params|
        && Rel(t, locals, Run(c3[|c0|..], m), x.(stack := x.stack[..|t|]))
        && LaidOut(Run(c3[|c0|..], m).frame, base, params, x.stack[|t|..], |params|)
    {
      RunConcat(d1, d2 + d3, m);
      RunConcat(d2, d3, Run(d1, m));
      assert Rel(v, locals, Run(d2, Run(d1, m)), ExecAll(prog, w));
    }
  }

  /** Straight-line code for the arguments, then the part of the call before the jump. */
  method GenCall(g: Generator, prog: seq<Instr>, params: seq<Ty>) returns (base: int)
    requires g.Valid() && Gapless(g.stack, g.first) && WellTyped(prog, Types(g.stack), g.locals)
    requires var tys := AfterAll(prog, Types(g.stack), g.locals);
      |params| <= |tys| && tys[|tys| - |params|..] == params
    modifies g`stack, g`code
    ensures g.Valid() && Gapless(g.stack, g.first) && base % 8 == 0
    ensures |old(g.code)| <= |g.code| && g.code[..|old(g.code)|] == old(g.code)
    ensures CallsWith(g.locals, old(g.stack), g.stack, prog, params, base, g.code[|old(g.code)|..])
  {
    hide StackOk, Simulates, Moved, Delivers, CallsWith, Gapless, AfterAll, WellTyped, Settled, CanPass, AllSpilled;
    ghost var s, c0 := g.stack, g.code;
    GenCode(g, prog);
    LaidGapless(s, g.stack, g.first);
    ghost var u, c1 := g.stack, g.code;
    SettleTop(g);
    LaidSame(u, g.stack, g.first);
    LaidGapless(u, g.stack, g.first);
    ghost var v, c2 := g.stack, g.code;
    TypesKept(u, v);
    TypesSuit(v, params);
    GaplessPass(v, g.locals, g.first, |v| - |params|);
    base := PassArguments(g, params);
    SpilledGapless(v, g.first, |g.stack|);
    SimulatedCall(g.locals, s, u, v, g.stack, prog, params, base, c0, c1, c2, g.code);
  }

  lemma TypesSuit(s: seq<Entry>, params: seq<Ty>)
    requires |params| <= |s| && Types(s)[|s| - |params|..] == params
    ensures Suits(s, |s| - |params|, params)
  {
    var k := |s| - |params|;
    forall i | 0 <= i < |params|
      ensures s[k + i].ty == params[i]
    {
      assert Types(s)[k + i] == Types(s)[k..][i];
    }
  }

  lemma SpilledGapless(s: seq<Entry>, first: int, k: nat)
    requires Gapless(s, first) && k <= |s|
    ensures Gapless(AllSpilled(s)[..k], first)
  {
    var t := AllSpilled(s)[..k];
    LaidSame(s, t, first);
    LaidGapless(s, t, first);
  }
}
