/** Where arguments and results lie: the layout that the callee expects, the host's
    `pwart_rstack_*` functions, and the frame that a function sets up for its locals. */
module Frames {
  import opened LazyMachine
  import opened LazyStack

  // ------------------------------------------------------------------- layout

  /** The end of the first `k` values laid out one after the other, each aligned to its size. */
  function EndOf(tys: seq<Ty>, k: nat): int
    requires k <= |tys|
    decreases k, 0
  {
    if k == 0 then 0 else OffsetOf(tys, k - 1) + Size(tys[k - 1])
  }

  function OffsetOf(tys: seq<Ty>, k: nat): int
    requires k < |tys|
    decreases k, 1
  {
    AlignUp(EndOf(tys, k), tys[k])
  }

  lemma {:induction false} EndAligned(tys: seq<Ty>, k: nat)
    requires k <= |tys|
    ensures EndOf(tys, k) % 4 == 0 && EndOf(tys, k) >= 0
    ensures k < |tys| ==> EndOf(tys, k) <= OffsetOf(tys, k) && OffsetOf(tys, k) % 4 == 0
    decreases k
  {
    hide AlignUp;
    if k > 0 {
      EndAligned(tys, k - 1);
    }
    if k < |tys| {
      AlignUpFits(EndOf(tys, k), tys[k]);
    }
  }

  lemma EndStart(tys: seq<Ty>)
    ensures EndOf(tys, 0) == 0
  {
  }

  lemma EndNext(tys: seq<Ty>, k: nat)
    requires k < |tys|
    ensures EndOf(tys, k + 1) == OffsetOf(tys, k) + Size(tys[k])
  {
  }

  /** Different values do not overlap. */
  lemma {:induction false} OffsetsApart(tys: seq<Ty>, j: nat, k: nat)
    requires j < k < |tys|
    ensures OffsetOf(tys, j) + Size(tys[j]) <= OffsetOf(tys, k)
    decreases k
  {
    EndAligned(tys, k);
    if j + 1 < k {
      EndAligned(tys, k - 1);
      OffsetsApart(tys, j, k - 1);
    }
  }

  lemma {:induction false} OffsetInFrame(tys: seq<Ty>, k: nat, n: nat)
    requires k < n <= |tys|
    ensures OffsetOf(tys, k) + Size(tys[k]) <= EndOf(tys, n)
    decreases n
  {
    if k + 1 < n {
      OffsetInFrame(tys, k, n - 1);
      EndAligned(tys, n - 1);
    }
  }

  /** From an address that is a multiple of eight, aligning addresses is aligning offsets. */
  lemma AlignFrom(base: int, off: int, ty: Ty)
    requires base % 8 == 0 && off % 4 == 0
    ensures AlignUp(base + off, ty) == base + AlignUp(off, ty)
  {
    var q, p := base / 8, off / 8;
    if off % 8 == 0 {
      assert base + off == 8 * (q + p);
    } else {
      FourModEight(off);
      assert base + off == 8 * (q + p) + 4;
    }
    SumAligned(base, off);
  }

  lemma FourModEight(off: int)
    requires off % 4 == 0 && off % 8 != 0
    ensures off % 8 == 4
  {
    var q := off / 4;
    assert off == 8 * (q / 2) + 4 * (q % 2);
  }

  // ------------------------------------------------------------- the host's side

  /** `pwart_allocate_stack`: the buffer starts at a multiple of 16, and the byte
      before it tells how far from the allocated block it is. */
  method AllocateStack(mem: nat) returns (stack: nat, back: nat)
    ensures stack % 16 == 0 && mem < stack <= mem + 16
    ensures 0 < back < 256 && stack - back == mem
  {
    stack := (mem + 16) - (mem + 16) % 16;
    back := stack - mem;
  }

  /** `pwart_rstack_put_i32` and `_i64`; references and floats take the same places. */
  method RstackPut(mem: map<int, int>, sp: int, ty: Ty, v: int) returns (after: map<int, int>, next: int)
    requires sp % 4 == 0
    ensures after == Put(mem, ty, AlignUp(sp, ty), v) && next == AlignUp(sp, ty) + Size(ty)
  {
    var at := sp;
    if ty.I64? {
      var t := sp % 8;
      if t > 0 {
        at := sp + 8 - t;
      }
    }
    after := Put(mem, ty, at, v);
    next := at + Size(ty);
  }

  method RstackGet(mem: map<int, int>, sp: int, ty: Ty) returns (v: int, next: int)
    requires sp % 4 == 0
    ensures v == Fetch(mem, ty, AlignUp(sp, ty)) && next == AlignUp(sp, ty) + Size(ty)
  {
    var at := sp;
    if ty.I64? {
      var t := sp % 8;
      if t > 0 {
        at := sp + 8 - t;
      }
    }
    v := Fetch(mem, ty, at);
    next := at + Size(ty);
  }

  /** The values lie where a frame at `base` is expected to have them. */
  ghost predicate LaidOut(mem: map<int, int>, base: int, tys: seq<Ty>, vs: seq<int>, n: nat)
    requires n <= |tys| == |vs|
  {
    forall k :: 0 <= k < n ==> Argument(mem, base, tys, k) == vs[k]
  }

  /** The value that a callee whose frame is at `base` reads as number `k`. */
  function Argument(mem: map<int, int>, base: int, tys: seq<Ty>, k: nat): int
    requires k < |tys|
  {
    Fetch(mem, tys[k], base + OffsetOf(tys, k))
  }

  /** The memory after a value has been put at its place. */
  function With(mem: map<int, int>, base: int, tys: seq<Ty>, n: nat, v: int): map<int, int>
    requires n < |tys|
  {
    Put(mem, tys[n], base + OffsetOf(tys, n), v)
  }

  /** A value put at its place does not disturb an earlier one. */
  lemma PutOther(mem: map<int, int>, base: int, tys: seq<Ty>, v: int, k: nat, n: nat)
    requires k < n < |tys| && base % 8 == 0
    ensures Argument(With(mem, base, tys, n, v), base, tys, k) == Argument(mem, base, tys, k)
  {
    hide Put, Fetch, OffsetOf, EndOf;
    EndAligned(tys, n);
    EndAligned(tys, k);
    OffsetsApart(tys, k, n);
    SumAligned(base, OffsetOf(tys, n));
    SumAligned(base, OffsetOf(tys, k));
    MemApart(mem, tys[n], base + OffsetOf(tys, n), v, tys[k], base + OffsetOf(tys, k));
  }

  lemma PutHere(mem: map<int, int>, base: int, tys: seq<Ty>, v: int, n: nat)
    requires n < |tys| && InRange(tys[n], v)
    ensures Argument(With(mem, base, tys, n, v), base, tys, n) == v
  {
    hide Put, Fetch, OffsetOf, EndOf;
    MemPut(mem, tys[n], base + OffsetOf(tys, n), v);
  }

  lemma PutHolds(mem: map<int, int>, base: int, tys: seq<Ty>, vs: seq<int>, n: nat)
    requires n < |tys| == |vs| && base % 8 == 0 && LaidOut(mem, base, tys, vs, n) && InRange(tys[n], vs[n])
    ensures LaidOut(With(mem, base, tys, n, vs[n]), base, tys, vs, n + 1)
  {
    hide Argument, With, InRange;
    PutHere(mem, base, tys, vs[n], n);
    forall k | 0 <= k < n
      ensures Argument(With(mem, base, tys, n, vs[n]), base, tys, k) == vs[k]
    {
      PutOther(mem, base, tys, vs[n], k, n);
    }
  }

  lemma SumAligned(base: int, off: int)
    requires base % 8 == 0 && off % 4 == 0
    ensures (base + off) % 4 == 0
  {
    assert base == 4 * (2 * (base / 8)) && off == 4 * (off / 4);
  }

  lemma MemPut(mem: map<int, int>, ty: Ty, off: int, v: int)
    requires InRange(ty, v)
    ensures Fetch(Put(mem, ty, off, v), ty, off) == v
  {
    if ty.I64? {
      assert v == v % WORD + WORD * (v / WORD) && 0 <= v / WORD < WORD;
    }
  }

  lemma MemApart(mem: map<int, int>, ty: Ty, off: int, v: int, kt: Ty, k: int)
    requires off % 4 == 0 && k % 4 == 0 && (off + Size(ty) <= k || k + Size(kt) <= off)
    ensures Fetch(Put(mem, ty, off, v), kt, k) == Fetch(mem, kt, k)
  {
  }

  /** The host puts its arguments: the callee finds each one at its place. */
  method HostPuts(mem0: map<int, int>, base: int, tys: seq<Ty>, vs: seq<int>) returns (mem: map<int, int>, sp: int)
    requires |tys| == |vs| && base % 8 == 0 && forall k :: 0 <= k < |tys| ==> InRange(tys[k], vs[k])
    ensures LaidOut(mem, base, tys, vs, |tys|) && sp == base + EndOf(tys, |tys|)
  {
    hide LaidOut, Put, AlignUp, Size, EndOf;
    EndStart(tys);
    mem, sp := mem0, base;
    var k := 0;
    LaidOutNone(mem, base, tys, vs);
    while k < |tys|
      invariant 0 <= k <= |tys| && LaidOut(mem, base, tys, vs, k) && sp == base + EndOf(tys, k)
    {
      EndAligned(tys, k);
      AlignFrom(base, EndOf(tys, k), tys[k]);
      EndNext(tys, k);
      SumAligned(base, EndOf(tys, k));
      PutHolds(mem, base, tys, vs, k);
      mem, sp := RstackPut(mem, sp, tys[k], vs[k]);
      k := k + 1;
    }
  }

  lemma LaidOutNone(mem: map<int, int>, base: int, tys: seq<Ty>, vs: seq<int>)
    requires |tys| == |vs|
    ensures LaidOut(mem, base, tys, vs, 0)
  {
  }

  /** The host gets what a callee left: the same values, in order. */
  method HostGets(mem: map<int, int>, base: int, tys: seq<Ty>, ghost vs: seq<int>) returns (got: seq<int>)
    requires |tys| == |vs| && base % 8 == 0 && LaidOut(mem, base, tys, vs, |tys|)
    ensures got == vs
  {
    hide Fetch, AlignUp, Size, EndOf;
    EndStart(tys);
    var sp, k := base, 0;
    got := [];
    while k < |tys|
      invariant 0 <= k <= |tys| && got == vs[..k] && sp == base + EndOf(tys, k)
    {
      EndAligned(tys, k);
      AlignFrom(base, EndOf(tys, k), tys[k]);
      EndNext(tys, k);
      SumAligned(base, EndOf(tys, k));
      var v;
      v, sp := RstackGet(mem, sp, tys[k]);
      got := got + [v];
      k := k + 1;
    }
  }

  // ------------------------------------------------------------ entering a function

  /** `pwart_EmitFuncEnter`, first loop: parameters stay in the frame. */
  method EnterParams(params: seq<Ty>) returns (places: seq<Place>, first: int)
    ensures |places| == |params| && first == EndOf(params, |params|)
    ensures forall i :: 0 <= i < |params| ==> places[i] == Place(Frame(OffsetOf(params, i)), params[i])
  {
    hide AlignUp, Size;
    places, first := [], 0;
    var i := 0;
    while i < |params|
      invariant 0 <= i <= |params| && |places| == i && first == EndOf(params, i)
      invariant forall j :: 0 <= j < i ==> places[j] == Place(Frame(OffsetOf(params, j)), params[j])
    {
      var off := AlignUp(first, params[i]);
      places := places + [Place(Frame(off), params[i])];
      first := off + Size(params[i]);
      i := i + 1;
    }
  }

  /** `pwart_EmitFuncEnter`: the other locals go to saved registers as long as there
      are any (`saved` of them, counted down from S1), and then to the machine stack. */
  method FuncEnter(params: seq<Ty>, others: seq<Ty>, saved: nat) returns (places: seq<Place>, first: int, size: int)
    ensures |places| == |params| + |others| && LocalsOk(places, first) && first % 4 == 0
    ensures forall i :: 0 <= i < |params| ==> places[i] == Place(Frame(OffsetOf(params, i)), params[i])
    ensures forall i :: 0 <= i < |others| ==> places[|params| + i].ty == others[i]
    ensures first == EndOf(params, |params|) && size >= 0
    ensures forall i :: |params| <= i < |places| ==> Given(places[i], saved, size)
  {
    hide AlignUp, LocalsOk, Below, OffsetOf, EndOf, Size;
    places, first := EnterParams(params);
    ghost var entered := places;
    ParamsOk(params, places, first);
    EndAligned(params, |params|);
    var nextSr: int := saved;
    size := 0;
    var i := 0;
    while i < |others|
      invariant 0 <= i <= |others| && |places| == |params| + i && 0 <= nextSr <= saved && size >= 0 && size % 4 == 0
      invariant LocalsOk(places, first) && Below(places, nextSr, size)
      invariant places[..|params|] == entered
      invariant forall j :: 0 <= j < i ==> places[|params| + j].ty == others[j]
      invariant forall j :: |params| <= j < |places| ==> Given(places[j], saved, size)
    {
      SizePositive(others[i]);
      if nextSr > 0 {
        nextSr := nextSr - 1;
        NextRegister(places, first, nextSr + 1, size, others[i]);
        places := places + [Place(Reg(SCRATCH + nextSr), others[i])];
      } else {
        AlignUpFits(size, others[i]);
        var off := AlignUp(size, others[i]);
        NextInStack(places, first, size, others[i]);
        places := places + [Place(Local(off), others[i])];
        size := off + Size(others[i]);
      }
      i := i + 1;
    }
    assert forall k :: 0 <= k < |params| ==> places[k] == places[..|params|][k];
  }

  /** One of the saved registers after S0, or a place in the function's own part of the stack. */
  predicate Given(p: Place, saved: nat, size: int) {
    match p.loc
    case Reg(r) => SCRATCH <= r < SCRATCH + saved
    case Local(off) => 0 <= off && off + Size(p.ty) <= size
    case _ => false
  }

  lemma SizePositive(ty: Ty)
    ensures Size(ty) > 0
  {
  }

  /** Registers from `sr` down and the stack from `size` up are not in use. */
  ghost predicate Below(places: seq<Place>, sr: int, size: int) {
    forall x :: 0 <= x < |places| ==>
      (places[x].loc.Reg? ==> places[x].loc.r >= SCRATCH + sr)
      && (places[x].loc.Local? ==> places[x].loc.off + Size(places[x].ty) <= size)
  }

  lemma ParamsOk(params: seq<Ty>, places: seq<Place>, first: int)
    requires |places| == |params| && first == EndOf(params, |params|)
    requires forall j :: 0 <= j < |params| ==> places[j] == Place(Frame(OffsetOf(params, j)), params[j])
    ensures LocalsOk(places, first) && forall sr, size :: Below(places, sr, size)
  {
    hide OffsetOf, EndOf;
    forall x | 0 <= x < |places|
      ensures LocalOk(places[x], first)
    {
      EndAligned(params, x);
      OffsetInFrame(params, x, |params|);
    }
    forall x, y | 0 <= x < y < |places|
      ensures Apart(places[x].loc, places[x].ty, places[y].loc, places[y].ty)
    {
      OffsetsApart(params, x, y);
    }
  }

  lemma NextRegister(places: seq<Place>, first: int, sr: int, size: int, ty: Ty)
    requires LocalsOk(places, first) && Below(places, sr, size) && sr > 0
    ensures LocalsOk(places + [Place(Reg(SCRATCH + sr - 1), ty)], first)
    ensures Below(places + [Place(Reg(SCRATCH + sr - 1), ty)], sr - 1, size)
  {
    PlacesAppend(places, first, Place(Reg(SCRATCH + sr - 1), ty));
  }

  lemma NextInStack(places: seq<Place>, first: int, size: int, ty: Ty)
    requires LocalsOk(places, first) && Below(places, 0, size) && size % 4 == 0
    ensures var off := AlignUp(size, ty); var all := places + [Place(Local(off), ty)];
      LocalsOk(all, first) && Below(all, 0, off + Size(ty)) && (off + Size(ty)) % 4 == 0
  {
    hide AlignUp;
    AlignUpFits(size, ty);
    PlacesAppend(places, first, Place(Local(AlignUp(size, ty)), ty));
  }

  lemma PlacesAppend(places: seq<Place>, first: int, p: Place)
    requires LocalsOk(places, first) && LocalOk(p, first)
    requires forall x :: 0 <= x < |places| ==> Apart(places[x].loc, places[x].ty, p.loc, p.ty)
    ensures LocalsOk(places + [p], first)
  {
    var all := places + [p];
    forall x | 0 <= x < |all|
      ensures LocalOk(all[x], first)
    {
      assert x < |places| ==> LocalOk(places[x], first);
    }
  }
}
