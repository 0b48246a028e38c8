/** A straight-line function from its entry to its return: the scan that decides what to
    clear, the places of parameters and locals, the code of the body and the results. */
module WholeFunction {
  import opened LazyMachine
  import opened LazyStack
  import opened LazyOps
  import opened LazyGen
  import opened Frames
  import opened CallLayout
  import opened FuncReturn
  import WasmBody
  import ZeroInit

  // ------------------------------------------- the body as the first pass sees it

  predicate NamesLocal(i: Instr) {
    i.LocalGet? || i.LocalSet? || i.LocalTee?
  }

  /** Instructions on locals by name, any other by its position. */
  function ToInstr(i: Instr, k: nat): WasmBody.Instr {
    match i
    case LocalGet(x) => WasmBody.Get(x)
    case LocalSet(x) => WasmBody.Set(x)
    case LocalTee(x) => WasmBody.Tee(x)
    case _ => WasmBody.Op(k)
  }

  function ToCode(prog: seq<Instr>, k: nat): WasmBody.Code
    requires k <= |prog|
    decreases |prog| - k
  {
    if k == |prog| then WasmBody.Done else WasmBody.Then(ToInstr(prog[k], k), ToCode(prog, k + 1))
  }

  function Effect(i: Instr, stack: seq<int>, world: WasmBody.World): WasmBody.Effect {
    if NamesLocal(i) || Arity(i) > |stack| || Traps(i, Wasm(stack, [])) then WasmBody.Stop(world)
    else WasmBody.Go(Exec(i, Wasm(stack, [])).stack, world)
  }

  function OpsOf(prog: seq<Instr>): WasmBody.Ops {
    (code: nat, stack: seq<int>, world: WasmBody.World) =>
      if code < |prog| then Effect(prog[code], stack, world) else WasmBody.Stop(world)
  }

  function State(w: Wasm): WasmBody.Config {
    WasmBody.Config(w.locals, w.stack, [])
  }

  /** One instruction does the same in both readings. */
  lemma SameStep(prog: seq<Instr>, k: nat, w: Wasm, fuel: nat)
    requires k < |prog|
    ensures WasmBody.ExecInstr(ToInstr(prog[k], k), State(w), OpsOf(prog), fuel)
      == if Ready(prog[k], w) && !Traps(prog[k], w) then WasmBody.Normal(State(Exec(prog[k], w)))
         else WasmBody.Trapped([])
  {
    hide LazyMachine.Divide, Apply, Holds, Signed;
  }

  lemma {:induction false} SameRun(prog: seq<Instr>, k: nat, w: Wasm, fuel: nat)
    requires k <= |prog|
    ensures WasmBody.Exec(ToCode(prog, k), State(w), OpsOf(prog), fuel)
      == if Completes(prog[k..], w) then WasmBody.Normal(State(ExecAll(prog[k..], w))) else WasmBody.Trapped([])
    decreases |prog| - k
  {
    hide WasmBody.ExecInstr, Exec, Traps, OpsOf, ToInstr;
    if k < |prog| {
      assert prog[k..][0] == prog[k] && prog[k..][1..] == prog[k + 1..];
      SameStep(prog, k, w, fuel);
      if Ready(prog[k], w) && !Traps(prog[k], w) {
        SameRun(prog, k + 1, Exec(prog[k], w), fuel);
      }
    }
  }

  lemma {:induction false} FlatCode(prog: seq<Instr>, k: nat, tys: seq<Ty>, locals: seq<Place>)
    requires k <= |prog| && WellTyped(prog[k..], tys, locals)
    ensures WasmBody.Uses(ToCode(prog, k), |locals|) && WasmBody.Depth(ToCode(prog, k)) == 0
    decreases |prog| - k
  {
    hide After;
    if k < |prog| {
      assert prog[k..][0] == prog[k] && prog[k..][1..] == prog[k + 1..];
      FlatCode(prog, k + 1, After(prog[k], tys, locals), locals);
    }
  }

  // -------------------------------------------------------------- clearing locals

  /** The code leaves zero in the listed locals and all else as it was. */
  ghost predicate Clears(locals: seq<Place>, es: seq<Emit>, list: seq<int>) {
    forall m, w :: Rel([], locals, m, w) ==> Rel([], locals, Run(es, m), w.(locals := ZeroInit.Cleared(w.locals, list)))
  }

  lemma ClearsNothing(locals: seq<Place>)
    ensures Clears(locals, [], [])
  {
    forall m, w | Rel([], locals, m, w)
      ensures Rel([], locals, Run([], m), w.(locals := ZeroInit.Cleared(w.locals, [])))
    {
      assert ZeroInit.Cleared(w.locals, []) == w.locals;
    }
  }

  lemma ClearsOne(locals: seq<Place>, s: seq<Entry>, c0: seq<Emit>, c1: seq<Emit>, c2: seq<Emit>, list: seq<int>,
                  x: nat, ty: Ty)
    requires Clears(locals, c0, list) && x < |locals|
    requires Emitted(locals, [], s, c0, c1, Const(ty, 0)) && Emitted(locals, s, [], c1, c2, LocalSet(x))
    ensures Clears(locals, c2, list + [x])
  {
    hide Rel, Run;
    var es, fs := c1[|c0|..], c2[|c1|..];
    assert c2 == c0 + es + fs;
    forall m, w | Rel([], locals, m, w)
      ensures Rel([], locals, Run(c2, m), w.(locals := ZeroInit.Cleared(w.locals, list + [x])))
    {
      RunConcat(c0 + es, fs, m);
      RunConcat(c0, es, m);
      RelSize([], locals, m, w);
      var w1 := w.(locals := ZeroInit.Cleared(w.locals, list));
      assert Rel([], locals, Run(c0, m), w1);
      var w2 := Exec(Const(ty, 0), w1);
      assert Rel(s, locals, Run(es, Run(c0, m)), w2);
      assert w2.stack == [0];
      ClearedMore(w.locals, list, x);
      assert Exec(LocalSet(x), w2) == w.(locals := ZeroInit.Cleared(w.locals, list + [x]));
    }
  }

  lemma ClearedMore(locals: seq<int>, list: seq<int>, x: nat)
    requires x < |locals|
    ensures ZeroInit.Cleared(locals, list)[x := 0] == ZeroInit.Cleared(locals, list + [x])
  {
  }

  lemma OneTyped(s: seq<Entry>, ty: Ty, locals: seq<Place>, x: nat)
    requires Types(s) == After(Const(ty, 0), Types([]), locals) && x < |locals| && locals[x].ty == ty
    ensures |s| == 1 && Typed(LocalSet(x), s, locals)
  {
    assert |Types(s)| == 1 && Types(s)[0] == ty;
  }

  lemma NoneTyped(s: seq<Entry>, t: seq<Entry>, locals: seq<Place>, x: nat)
    requires |s| == 1 && Types(t) == After(LocalSet(x), Types(s), locals)
    ensures t == []
  {
    assert |Types(t)| == 0;
  }

  /** A zero is pushed and stored in local `x`. */
  method ClearOne(g: Generator, x: nat, ghost list: seq<int>)
    requires g.Valid() && g.stack == [] && x < |g.locals| && Clears(g.locals, g.code, list)
    modifies g`stack, g`code
    ensures g.Valid() && g.stack == [] && Clears(g.locals, g.code, list + [x])
  {
    hide StackOk, Emitted, Clears, Typed, Settled;
    ghost var c0 := g.code;
    NothingSettled();
    GenConst(g, g.locals[x].ty, 0);
    OneTyped(g.stack, g.locals[x].ty, g.locals, x);
    ghost var s1, c1 := g.stack, g.code;
    GenLocalStore(g, x, false);
    NoneTyped(s1, g.stack, g.locals, x);
    ClearsOne(g.locals, s1, c0, c1, g.code, list, x, g.locals[x].ty);
  }

  lemma NothingSettled()
    ensures Settled([]) && Types([]) == []
  {
  }

  /** `pwart_EmitFuncEnter`, its last loop: a zero is pushed and stored for each local listed. */
  method ClearLocals(g: Generator, list: seq<int>)
    requires g.Valid() && g.stack == [] && g.code == [] && AllBelow(list, |g.locals|)
    modifies g`stack, g`code
    ensures g.Valid() && g.stack == [] && Clears(g.locals, g.code, list)
  {
    hide StackOk, Emitted, Clears;
    ClearsNothing(g.locals);
    var k := 0;
    while k < |list|
      invariant 0 <= k <= |list| && g.Valid() && g.stack == [] && Clears(g.locals, g.code, list[..k])
      modifies g`stack, g`code
    {
      ClearOne(g, list[k], list[..k]);
      assert list[..k + 1] == list[..k] + [list[k]];
      k := k + 1;
    }
    assert list[..k] == list;
  }

  // ------------------------------------------------------------ the whole function

  /** Places of which only the types matter. */
  function Untied(tys: seq<Ty>): (r: seq<Place>)
    ensures |r| == |tys| && forall x :: 0 <= x < |tys| ==> r[x].ty == tys[x]
  {
    seq(|tys|, x requires 0 <= x < |tys| => Place(Imm(0), tys[x]))
  }

  lemma SameAfter(i: Instr, tys: seq<Ty>, a: seq<Place>, b: seq<Place>)
    requires |a| == |b| && forall x :: 0 <= x < |a| ==> a[x].ty == b[x].ty
    ensures After(i, tys, a) == After(i, tys, b) && (TypedAs(i, tys, a) <==> TypedAs(i, tys, b))
  {
    hide Blank;
  }

  /** Only the types of the locals matter for the types of the operands. */
  lemma {:induction false} SameTypes(prog: seq<Instr>, tys: seq<Ty>, a: seq<Place>, b: seq<Place>)
    requires |a| == |b| && forall x :: 0 <= x < |a| ==> a[x].ty == b[x].ty
    ensures WellTyped(prog, tys, a) <==> WellTyped(prog, tys, b)
    ensures AfterAll(prog, tys, a) == AfterAll(prog, tys, b)
    decreases |prog|
  {
    hide TypedAs, After;
    if prog != [] {
      SameAfter(prog[0], tys, a, b);
      SameTypes(prog[1..], After(prog[0], tys, a), a, b);
    }
  }

  predicate AllBelow(list: seq<int>, n: nat) {
    forall k :: 0 <= k < |list| ==> 0 <= list[k] < n
  }

  lemma {:induction false} ListedIn(flag: seq<bool>, params: nat, n: nat)
    requires n <= |flag| && n <= 0x8000
    ensures AllBelow(ZeroInit.Listed(flag, params, n), n)
    decreases n
  {
    if n <= params {
      assert ZeroInit.Listed(flag, params, n) == [];
    } else {
      ListedIn(flag, params, n - 1);
      assert ZeroInit.Short(n - 1) == n - 1;
      var init := ZeroInit.Listed(flag, params, n - 1);
      var more := if flag[n - 1] then [ZeroInit.Short(n - 1)] else [];
      assert AllBelow(init, n) && AllBelow(more, n);
      BelowJoin(init, more, n);
    }
  }

  lemma BelowJoin(x: seq<int>, y: seq<int>, n: nat)
    requires AllBelow(x, n) && AllBelow(y, n)
    ensures AllBelow(x + y, n)
  {
  }

  /** Every local holds some value of its type. */
  ghost predicate Holding(places: seq<Place>, m: Machine) {
    forall x :: 0 <= x < |places| ==> InRange(places[x].ty, Read(m, places[x].ty, places[x].loc))
  }

  /** The state in which WebAssembly starts a function. */
  function Start(args: seq<int>, n: nat): Wasm {
    Wasm([], args + seq(n, _ => 0))
  }

  /** The machine with which the function is entered, whatever it holds besides the
      arguments; and the body runs to its end. */
  ghost predicate Enters(params: seq<Ty>, places: seq<Place>, body: seq<Instr>, args: seq<int>, m: Machine)
    requires |args| == |params| <= |places|
  {
    && LaidOut(m.frame, 0, params, args, |params|) && Holding(places, m)
    && Completes(body, Start(args, |places| - |params|))
  }

  /** What the body leaves on the operand stack. */
  function Out(body: seq<Instr>, args: seq<int>, others: nat): seq<int> {
    ExecAll(body, Start(args, others)).stack
  }

  ghost predicate Typical(results: seq<Ty>, out: seq<int>) {
    |out| == |results| && forall i :: 0 <= i < |out| ==> InRange(results[i], out[i])
  }

  ghost predicate StandsFor(x: seq<Entry>, places: seq<Place>, m: Machine, out: seq<int>, locals: seq<int>) {
    Rel(x, places, m, Wasm(out, locals))
  }

  /** The entries stand for these values, whatever the locals have become. */
  ghost predicate StandFor(x: seq<Entry>, places: seq<Place>, m: Machine, out: seq<int>) {
    exists locals :: StandsFor(x, places, m, out, locals)
  }

  /** Before the results are handed back, the entries `x` stand for them. */
  ghost predicate Leads(params: seq<Ty>, places: seq<Place>, body: seq<Instr>, x: seq<Entry>, es: seq<Emit>)
    requires |params| <= |places|
  {
    forall m: Machine, args: seq<int> :: |args| == |params| && Enters(params, places, body, args, m) ==>
      StandFor(x, places, Run(es, m), Out(body, args, |places| - |params|))
  }

  /** The code leaves the results of the body where the caller expects them. */
  ghost predicate Computes(params: seq<Ty>, places: seq<Place>, body: seq<Instr>, results: seq<Ty>, es: seq<Emit>)
    requires |params| <= |places|
  {
    forall m: Machine, args: seq<int> :: |args| == |params| && Enters(params, places, body, args, m) ==>
      var out := Out(body, args, |places| - |params|);
      Typical(results, out) && LaidOut(Run(es, m).frame, 0, results, out, |results|)
  }

  /** What the machine holds on entry, as a state of the program. */
  function Held(places: seq<Place>, m: Machine): (vs: seq<int>)
    ensures |vs| == |places|
  {
    seq(|places|, x requires 0 <= x < |places| => Read(m, places[x].ty, places[x].loc))
  }

  lemma HeldRelated(places: seq<Place>, m: Machine)
    requires Holding(places, m)
    ensures Rel([], places, m, Wasm([], Held(places, m)))
  {
    hide Read, InRange;
  }

  /** Zeroing all locals but the parameters gives the state the standard asks for. */
  lemma HeldZeroed(params: seq<Ty>, places: seq<Place>, m: Machine, args: seq<int>)
    requires |args| == |params| <= |places| && LaidOut(m.frame, 0, params, args, |params|)
    requires forall i :: 0 <= i < |params| ==> places[i] == Place(Frame(OffsetOf(params, i)), params[i])
    ensures Wasm([], ZeroInit.Zeroed(Held(places, m), |params|)) == Start(args, |places| - |params|)
  {
    hide Fetch, OffsetOf;
    var vs := ZeroInit.Zeroed(Held(places, m), |params|);
    forall x | 0 <= x < |vs|
      ensures vs[x] == Start(args, |places| - |params|).locals[x]
    {
      if x < |params| {
        assert Argument(m.frame, 0, params, x) == args[x];
      }
    }
  }

  /** Cleared as the scan says, the locals make no difference to what the body computes. */
  lemma ClearedAlike(prog: seq<Instr>, before: seq<int>, params: nat, vs: seq<int>)
    requires params <= |before| == |vs| <= 0x8000 && WasmBody.Depth(ToCode(prog, 0)) == 0
    ensures var a := Wasm([], ZeroInit.Cleared(vs, ZeroInit.ZeroList(ToCode(prog, 0), before, params)));
      var b := Wasm([], ZeroInit.Zeroed(vs, params));
      Completes(prog, b) ==> Completes(prog, a) && ExecAll(prog, a).stack == ExecAll(prog, b).stack
  {
    hide WasmBody.Exec, Completes, ExecAll, ToCode, OpsOf, ZeroInit.Cleared, ZeroInit.ZeroList, ZeroInit.Zeroed;
    var a := Wasm([], ZeroInit.Cleared(vs, ZeroInit.ZeroList(ToCode(prog, 0), before, params)));
    var b := Wasm([], ZeroInit.Zeroed(vs, params));
    assert prog[0..] == prog;
    SameRun(prog, 0, a, 0);
    SameRun(prog, 0, b, 0);
    ZeroInit.UnlistedUnobservable(ToCode(prog, 0), before, params, vs, [], 0, OpsOf(prog), 0);
  }

  lemma {:induction false} WholeRun(params: seq<Ty>, places: seq<Place>, body: seq<Instr>, before: seq<int>,
                                    list: seq<int>, s: seq<Entry>, t: seq<Entry>, c1: seq<Emit>, c2: seq<Emit>,
                                    c3: seq<Emit>)
    requires |params| <= |places| == |before| <= 0x8000 && WasmBody.Depth(ToCode(body, 0)) == 0
    requires forall i :: 0 <= i < |params| ==> places[i] == Place(Frame(OffsetOf(params, i)), params[i])
    requires list == ZeroInit.ZeroList(ToCode(body, 0), before, |params|) && Clears(places, c1, list)
    requires Simulates(places, [], s, c1, c2, body) && LazyStack.Moved(places, s, t, c2, c3)
    ensures Leads(params, places, body, t, c3)
  {
    hide Rel, Run, LaidOut, Holding, Completes, ExecAll, ZeroInit.Cleared, ZeroInit.ZeroList, ZeroInit.Zeroed, OffsetOf;
    var d2, d3 := c2[|c1|..], c3[|c2|..];
    assert c3 == c1 + (d2 + d3);
    forall m: Machine, args: seq<int> | |args| == |params| && Enters(params, places, body, args, m)
      ensures StandFor(t, places, Run(c3, m), Out(body, args, |places| - |params|))
    {
      var vs := Held(places, m);
      HeldRelated(places, m);
      HeldZeroed(params, places, m, args);
      ClearedAlike(body, before, |params|, vs);
      var w1 := Wasm([], ZeroInit.Cleared(vs, list));
      assert Rel([], places, Run(c1, m), w1);
      var w2 := ExecAll(body, w1);
      assert Rel(s, places, Run(d2, Run(c1, m)), w2);
      assert Rel(t, places, Run(d3, Run(d2, Run(c1, m))), w2);
      RunConcat(c1, d2 + d3, m);
      RunConcat(d2, d3, Run(c1, m));
      assert w2 == Wasm(Out(body, args, |places| - |params|), w2.locals);
      assert StandsFor(t, places, Run(c3, m), Out(body, args, |places| - |params|), w2.locals);
    }
  }

  /** With the results handed back as well. */
  lemma {:induction false} WholeReturn(params: seq<Ty>, places: seq<Place>, body: seq<Instr>, results: seq<Ty>,
                                       x: seq<Entry>, es: seq<Emit>, fs: seq<Emit>)
    requires |params| <= |places| && Leads(params, places, body, x, es)
    requires Types(x) == results && Returns(places, x, results, fs)
    ensures Computes(params, places, body, results, es + fs)
  {
    hide Run, LaidOut, Enters, Out, Read, Denote;
    forall m: Machine, args: seq<int> | |args| == |params| && Enters(params, places, body, args, m)
      ensures var out := Out(body, args, |places| - |params|);
        Typical(results, out) && LaidOut(Run(es + fs, m).frame, 0, results, out, |results|)
    {
      var out := Out(body, args, |places| - |params|);
      var locals :| StandsFor(x, places, Run(es, m), out, locals);
      RunConcat(es, fs, m);
      assert out[0..] == out;
    }
  }

  /** The two passes over a straight-line function.  `x` are the entries of its results when
      the body is done; the results arrive whenever none is stored over another that is still
      in the frame, and so always for a single one. */
  method CompileFunction(params: seq<Ty>, others: seq<Ty>, saved: nat, body: seq<Instr>, results: seq<Ty>)
    returns (es: seq<Emit>, places: seq<Place>, x: seq<Entry>)
    requires |params| + |others| <= 0x8000
    requires WellTyped(body, [], Untied(params + others)) && AfterAll(body, [], Untied(params + others)) == results
    ensures |places| == |params| + |others| && forall i :: 0 <= i < |places| ==> places[i].ty == (params + others)[i]
    ensures StackOk(x, places, EndOf(params, |params|)) && Types(x) == results
    ensures |x| <= |es| && es[|es| - |x|..] == Backs(x) && Leads(params, places, body, x, es[..|es| - |x|])
    ensures CanReturn(x) ==> Computes(params, places, body, results, es)
    ensures |results| <= 1 ==> CanReturn(x)
    ensures AllTame(es, places, 0) && Callee(places)
  {
    hide StackOk, Simulates, LazyStack.Moved, Computes, Clears, WellTyped, AfterAll, ToCode, Returns, LocalsOk,
      CanReturn, ZeroInit.ZeroList, OffsetOf, EndOf, WasmBody.BodyTokens, Settled, Leads, Backs, AllTame, Callee;
    var n := |params| + |others|;
    var first, size;
    places, first, size := FuncEnter(params, others, saved);
    PlacesCallee(places, params, saved, size);
    SameTypes(body, [], Untied(params + others), places);
    assert body[0..] == body;
    FlatCode(body, 0, [], places);
    var mark := new int[n];
    ghost var before := mark[..];
    var list := ZeroInit.PrepareFunc(WasmBody.BodyTokens(ToCode(body, 0)), |params|, mark, ToCode(body, 0));
    ZeroListIn(ToCode(body, 0), before, |params|);
    var g := new Generator(places, first);
    ClearLocals(g, list);
    ghost var c1 := g.code;
    NoTypes();
    GenCode(g, body);
    ghost var s, c2 := g.stack, g.code;
    SettleTop(g);
    TypesKept(s, g.stack);
    x := g.stack;
    WholeRun(params, places, body, before, list, s, x, c1, c2, g.code);
    StackSuits(x, results);
    var fs := HandBack(x, results, places, first);
    OneCanReturn(x);
    if CanReturn(x) {
      WholeReturn(params, places, body, results, x, g.code, fs);
    }
    EndAligned(params, |params|);
    WholeTame(g.code, x, places, first);
    es := g.code + fs;
    assert es[..|es| - |x|] == g.code;
  }

  /** Parameters lie in the frame from its start; other locals elsewhere. */
  predicate Callee(places: seq<Place>) {
    forall i :: 0 <= i < |places| && places[i].loc.Frame? ==> places[i].loc.off >= 0
  }

  lemma PlacesCallee(places: seq<Place>, params: seq<Ty>, saved: nat, size: int)
    requires |params| <= |places|
    requires forall i :: 0 <= i < |params| ==> places[i] == Place(Frame(OffsetOf(params, i)), params[i])
    requires forall i :: |params| <= i < |places| ==> Given(places[i], saved, size)
    ensures Callee(places)
  {
    hide OffsetOf, EndOf;
    forall i | 0 <= i < |places| && places[i].loc.Frame?
      ensures places[i].loc.off >= 0
    {
      if i < |params| {
        EndAligned(params, i);
      }
    }
  }

  lemma WholeTame(c: seq<Emit>, x: seq<Entry>, places: seq<Place>, first: int)
    requires AllTame(c, places, first) && first >= 0
    ensures AllTame(c + Backs(x), places, 0)
  {
    forall k | 0 <= k < |x|
      ensures Tame(Backs(x)[k], places, 0)
    {
      EndAligned(Types(x), k);
    }
  }

  lemma NoTypes()
    ensures Types([]) == []
  {
  }

  lemma ZeroListIn(code: WasmBody.Code, before: seq<int>, params: nat)
    requires params <= |before| <= 0x8000
    ensures AllBelow(ZeroInit.ZeroList(code, before, params), |before|)
  {
    hide ZeroInit.After;
    ListedIn(ZeroInit.After(code, ZeroInit.Fresh(before, params)).flag, params, |before|);
  }

  lemma StackSuits(x: seq<Entry>, results: seq<Ty>)
    requires Types(x) == results
    ensures Suits(x, 0, results) && x[0..] == x
  {
  }

  lemma OneCanReturn(x: seq<Entry>)
    ensures |x| <= 1 ==> CanReturn(x)
  {
  }
}
