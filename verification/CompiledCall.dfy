/** A compiled function called by compiled code: it respects its caller, and the caller gets
    what WebAssembly gives it. */
module CompiledCall {
  import opened LazyMachine
  import opened LazyStack
  import opened LazyOps
  import opened LazyGen
  import opened Frames
  import opened CallLayout
  import opened Calls
  import opened CallReturn
  import opened WholeFunction

  // -------------------------------------------------------- what tame code leaves alone

  /** Register `r` holds none of the locals. */
  predicate NoLocal(places: seq<Place>, r: nat) {
    forall x :: 0 <= x < |places| ==> places[x].loc != Reg(r)
  }

  /** Between the two states: frame words below 0, and registers other than scratch registers
      and those of the locals, are the same. */
  ghost predicate Confined(places: seq<Place>, m: Machine, n: Machine) {
    && (forall o :: o < 0 ==> Word(n.frame, o) == Word(m.frame, o))
    && forall r: nat :: r >= SCRATCH && NoLocal(places, r) ==> Read(n, I64, Reg(r)) == Read(m, I64, Reg(r))
  }

  lemma WriteConfined(places: seq<Place>, m: Machine, ty: Ty, l: Loc, v: int)
    requires Callee(places) && TameAt(ty, l, places, 0)
    ensures Confined(places, m, Write(m, ty, l, v))
  {
  }

  lemma ConfinedThen(places: seq<Place>, a: Machine, b: Machine, c: Machine)
    requires Confined(places, a, b) && Confined(places, b, c)
    ensures Confined(places, a, c)
  {
    hide Word, Read;
  }

  lemma StepConfined(places: seq<Place>, m: Machine, e: Emit)
    requires Callee(places) && Tame(e, places, 0)
    ensures Confined(places, m, Step(e, m))
  {
    hide Confined, Callee, TameAt, Read, Write, Apply, LazyMachine.Divide, Passes, Flag;
    match e
    case Move(ty, dst, src) => WriteConfined(places, m, ty, dst, Read(m, ty, src));
    case SetFlag(dst, code) => WriteConfined(places, m, I32, dst, Flag(code, m));
    case Op2(op, ty, dst, a, b) => WriteConfined(places, m, ty, dst, Apply(op, ty, Read(m, ty, a), Read(m, ty, b)));
    case Compare(ty, a, b) => SameConfined(places, m, Step(e, m));
    case DivMod(signed, ty, remainder) => DivModConfined(places, m, signed, ty, remainder);
    case Unless(test, ty, dst, src) =>
      SameConfined(places, m, m);
      WriteConfined(places, m, ty, dst, Read(m, ty, src));
  }

  lemma SameConfined(places: seq<Place>, m: Machine, n: Machine)
    requires n.frame == m.frame && n.regs == m.regs
    ensures Confined(places, m, n)
  {
  }

  lemma DivModConfined(places: seq<Place>, m: Machine, signed: bool, ty: Ty, remainder: bool)
    requires Callee(places)
    ensures Confined(places, m, Step(DivMod(signed, ty, remainder), m))
  {
    hide Confined, Callee, Read, Write, LazyMachine.Divide;
    var x, y := Read(m, ty, Reg(0)), Read(m, ty, Reg(1));
    var v := LazyMachine.Divide(if signed then DivS else DivU, ty, x, y);
    var q := Write(m, ty, Reg(0), v);
    WriteConfined(places, m, ty, Reg(0), v);
    if remainder {
      var u := LazyMachine.Divide(if signed then RemS else RemU, ty, x, y);
      WriteConfined(places, q, ty, Reg(1), u);
      ConfinedThen(places, m, q, Write(q, ty, Reg(1), u));
    }
  }

  lemma {:induction false} RunConfined(places: seq<Place>, es: seq<Emit>, m: Machine)
    requires Callee(places) && AllTame(es, places, 0)
    ensures Confined(places, m, Run(es, m))
    decreases |es|
  {
    hide Confined, Callee, Tame, Step;
    if es == [] {
      SameConfined(places, m, m);
    } else {
      StepConfined(places, m, es[0]);
      RunConfined(places, es[1..], Step(es[0], m));
      ConfinedThen(places, m, Step(es[0], m), Run(es, m));
    }
  }

  // ---------------------------------------------------------------- the callee's view

  ghost function Places(mem: map<int, int>, base: int): set<int> {
    set a | a in mem :: a - base
  }

  /** The frame as seen from `base`. */
  ghost function Shift(mem: map<int, int>, base: int): map<int, int> {
    map o | o in Places(mem, base) :: mem[o + base]
  }

  lemma ShiftWord(mem: map<int, int>, base: int, o: int)
    ensures Word(Shift(mem, base), o) == Word(mem, o + base)
  {
    if o + base in mem {
      ShiftIn(mem, base, o + base);
    }
  }

  lemma ShiftIn(mem: map<int, int>, base: int, a: int)
    requires a in mem
    ensures a - base in Shift(mem, base) && Shift(mem, base)[a - base] == mem[a]
  {
  }

  /** The machine as the callee finds it: S0 is `base` further, and its own part of the
      machine stack holds whatever it held. */
  ghost function Entered(m: Machine, base: int, own: map<int, int>): Machine {
    m.(frame := Shift(m.frame, base), locals := own)
  }

  /** The machine `n` after the return, from the state `c` in which the callee ends: the frame is
      as `c` leaves it, saved registers and the caller's part of the machine stack are as in `m`,
      since prologue and epilogue save and restore them. */
  ghost predicate Returned(m: Machine, c: Machine, base: int, n: Machine) {
    && (forall o :: Word(n.frame, o) == Word(c.frame, o - base))
    && (forall r: nat :: r >= SCRATCH ==> Read(n, I64, Reg(r)) == Read(m, I64, Reg(r)))
    && n.locals == m.locals
  }

  /** A compiled callee respects its caller. */
  lemma CalleeRespects(places: seq<Place>, es: seq<Emit>, m: Machine, base: int, own: map<int, int>, n: Machine)
    requires Callee(places) && AllTame(es, places, 0) && Returned(m, Run(es, Entered(m, base, own)), base, n)
    ensures Respects(m, n, base)
  {
    hide Run, Read, Word, Shift, AllTame, Callee;
    var c := Run(es, Entered(m, base, own));
    RunConfined(places, es, Entered(m, base, own));
    forall o | o < base
      ensures Word(n.frame, o) == Word(m.frame, o)
    {
      assert Word(n.frame, o) == Word(c.frame, o - base);
      ShiftWord(m.frame, base, o - base);
    }
  }

  lemma SameArguments(mem: map<int, int>, base: int, far: map<int, int>, tys: seq<Ty>, vs: seq<int>)
    requires |tys| == |vs| && forall o :: Word(far, o) == Word(mem, o - base)
    ensures LaidOut(far, base, tys, vs, |tys|) <==> LaidOut(mem, 0, tys, vs, |tys|)
  {
    hide Word, OffsetOf;
    forall k | 0 <= k < |tys|
      ensures Argument(far, base, tys, k) == Argument(mem, 0, tys, k)
    {
      var o := OffsetOf(tys, k);
      assert Word(far, base + o) == Word(mem, o) && Word(far, base + o + 4) == Word(mem, o + 4);
    }
  }

  lemma EnteredArguments(m: Machine, base: int, own: map<int, int>, tys: seq<Ty>, vs: seq<int>)
    requires |tys| == |vs| && LaidOut(m.frame, base, tys, vs, |tys|)
    ensures LaidOut(Entered(m, base, own).frame, 0, tys, vs, |tys|)
  {
    hide Word, LaidOut, Shift;
    forall o
      ensures Word(m.frame, o) == Word(Shift(m.frame, base), o - base)
    {
      ShiftWord(m.frame, base, o - base);
    }
    SameArguments(Shift(m.frame, base), base, m.frame, tys, vs);
  }

  // ------------------------------------------------------------------ the whole call

  /** Compiled code calls a compiled function: where the arguments are delivered, the results
      that WebAssembly gives replace them on the caller's stack, and all else is kept. */
  lemma CallComputes(locals: seq<Place>, s: seq<Entry>, t: seq<Entry>, first: int, params: seq<Ty>, results: seq<Ty>,
                     base: int, pass: seq<Emit>, places: seq<Place>, body: seq<Instr>, es: seq<Emit>,
                     m: Machine, own: map<int, int>, n: Machine, w: Wasm)
    requires |t| + |params| == |s| && Delivers(locals, s, t, params, base, pass) && Rel(s, locals, m, w)
    requires StackOk(t, locals, first) && Settled(t) && NoScratch(t) && base >= NextSlot(t, I32, first)
    requires |params| <= |places| && Computes(params, places, body, results, es)
    requires Callee(places) && AllTame(es, places, 0)
    requires var c := Entered(Run(pass, m), base, own);
      Holding(places, c) && Returned(Run(pass, m), Run(es, c), base, n)
    requires |w.stack| == |s| && Completes(body, Start(w.stack[|t|..], |places| - |params|))
    ensures var out := Out(body, w.stack[|t|..], |places| - |params|);
      |out| == |results| && Rel(t + Results(results, base), locals, n, w.(stack := w.stack[..|t|] + out))
  {
    hide StackOk, Settled, NoScratch, NextSlot, LaidOut, Results, InRange, Rel, Run, Holding, Completes, Callee,
      AllTame, Respects, Entered, Out;
    var m1, args := Run(pass, m), w.stack[|t|..];
    assert LaidOut(m1.frame, base, params, args, |params|);
    EnteredArguments(m1, base, own, params, args);
    var c := Entered(m1, base, own);
    assert Enters(params, places, body, args, c);
    var out := Out(body, args, |places| - |params|);
    CalleeRespects(places, es, m1, base, own, n);
    SameArguments(Run(es, c).frame, base, n.frame, results, out);
    WholeCall(locals, s, t, first, params, results, base, pass, m, n, w, out);
  }
}
