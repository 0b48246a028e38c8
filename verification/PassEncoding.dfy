/** Instructions as bytes, written out after section 5.4 of the WebAssembly Core
    Specification, and that the passes read them so: every body written this way is
    accepted, and met instruction by instruction. */
module PassEncoding {
  import opened PassAgreement

  // ----------------------------------------------------------------- the bytes

  /** A number in LEB128: every byte but the last has its highest bit set. */
  predicate IsLeb(x: Bytes) {
    x != [] && x[|x| - 1] < 0x80 && forall i :: 0 <= i < |x| - 1 ==> x[i] >= 0x80
  }

  predicate AllLebs(xs: seq<Bytes>) {
    forall i :: 0 <= i < |xs| ==> IsLeb(xs[i])
  }

  /** Seven bits a byte, the lowest first. */
  function Number(x: Bytes): int {
    if x == [] then 0 else x[0] % 128 + 128 * Number(x[1..])
  }

  function Joined(xs: seq<Bytes>): Bytes {
    if xs == [] then [] else xs[0] + Joined(xs[1..])
  }

  /** One opcode with its immediates. */
  datatype Token =
    | Alone(op: int)
    | Opens(op: int, ty: int)
    | WithNumber(op: int, x: Bytes)
    | WithTwo(op: int, x: Bytes, y: Bytes)
    | Targets(count: Bytes, labels: seq<Bytes>)
    | Access(op: int, flags: Bytes, memory: seq<Bytes>, offset: Bytes)
    | Float(op: int, payload: Bytes)
    | Prefixed(sub: int, xs: seq<Bytes>)

  function TokenBytes(t: Token): Bytes {
    match t
    case Alone(op) => [op]
    case Opens(op, ty) => [op] + [ty]
    case WithNumber(op, x) => [op] + x
    case WithTwo(op, x, y) => [op] + (x + y)
    case Targets(count, labels) => [0x0e] + (count + Joined(labels))
    case Access(op, flags, memory, offset) => [op] + (flags + (Joined(memory) + offset))
    case Float(op, payload) => [op] + payload
    case Prefixed(sub, xs) => [0xfc] + ([sub] + Joined(xs))
  }

  predicate NumberFollows(op: int) {
    || op in {0x0c, 0x0d, 0x10, 0x12}
    || op in {0x20, 0x21, 0x22, 0x23, 0x24, 0x25, 0x26}
    || op in {0x3f, 0x40, 0x41, 0x42}
    || op in {0xd0, 0xd2}
  }

  predicate PrefixedOk(sub: int, n: nat) {
    || (n == 0 && sub in {0, 1, 2, 3, 4, 5, 6, 7})
    || (n == 1 && sub in {0x0b, 0x0f, 0x10, 0x11})
    || (n == 2 && sub in {0x0a, 0x0e})
  }

  /** The opcodes that are generated, with the immediates that each has. */
  predicate TokenOk(t: Token) {
    match t
    case Alone(op) => op in {0x00, 0x01, 0x05, 0x0b, 0x0f, 0x1a, 0x1b, 0xd1} || 0x45 <= op <= 0xc4
    case Opens(op, ty) => op in {0x02, 0x03, 0x04} && 0x40 <= ty < 0x80
    case WithNumber(op, x) => NumberFollows(op) && IsLeb(x)
    case WithTwo(op, x, y) => op in {0x11, 0x13} && IsLeb(x) && IsLeb(y)
    case Targets(count, labels) =>
      && IsLeb(count) && AllLebs(labels) && Number(count) % TWO32 < TWO32 - 1
      && |labels| == Number(count) % TWO32 + 1
    case Access(op, flags, memory, offset) =>
      && 0x28 <= op <= 0x3e && IsLeb(flags) && AllLebs(memory) && IsLeb(offset)
      && |memory| == if Number(flags) / 64 % 2 == 1 then 1 else 0
    case Float(op, payload) => (op == 0x43 && |payload| == 4) || (op == 0x44 && |payload| == 8)
    case Prefixed(sub, xs) => PrefixedOk(sub, |xs|) && AllLebs(xs)
  }

  // -------------------------------------------------------------- parts of the bytes

  predicate Here(b: Bytes, i: nat, part: Bytes) {
    i + |part| <= |b| && b[i..i + |part|] == part
  }

  lemma HereParts(b: Bytes, i: nat, x: Bytes, y: Bytes)
    requires Here(b, i, x + y)
    ensures Here(b, i, x) && Here(b, i + |x|, y)
  {
    assert b[i..i + |x|] == b[i..i + |x + y|][..|x|];
    assert b[i + |x|..i + |x + y|] == b[i..i + |x + y|][|x|..];
  }

  lemma HereJoin(b: Bytes, i: nat, x: Bytes, y: Bytes)
    requires Here(b, i, x) && Here(b, i + |x|, y)
    ensures Here(b, i, x + y)
  {
    assert b[i..i + |x + y|] == b[i..i + |x|] + b[i + |x|..i + |x| + |y|];
  }

  lemma HereByte(b: Bytes, i: nat, c: int)
    ensures Here(b, i, [c]) <==> i < |b| && ByteAt(b, i) == c
  {
    if i < |b| {
      assert b[i..i + 1] == [b[i]];
    }
  }

  // -------------------------------------------------------------------- numbers

  lemma {:induction false} LebRead(b: Bytes, pos: nat, x: Bytes)
    requires IsLeb(x) && Here(b, pos, x)
    ensures LebEnd(b, pos) == pos + |x| && LebValue(b, pos) == Number(x)
    decreases |x|
  {
    hide LebEnd, LebValue;
    LebStep(b, pos);
    assert b[pos] == b[pos..pos + |x|][0];
    if |x| > 1 {
      assert x == [x[0]] + x[1..];
      HereParts(b, pos, [x[0]], x[1..]);
      LebRead(b, pos + 1, x[1..]);
    } else {
      assert x[1..] == [];
    }
  }

  lemma {:induction false} LebWritten(b: Bytes, pos: nat)
    requires LebEnd(b, pos) <= |b|
    ensures var x := b[pos..LebEnd(b, pos)];
      IsLeb(x) && Here(b, pos, x) && pos + |x| == LebEnd(b, pos) && Number(x) == LebValue(b, pos)
    decreases |b| - pos
  {
    hide LebEnd, LebValue;
    LebStep(b, pos);
    var x := b[pos..LebEnd(b, pos)];
    assert x[0] == ByteAt(b, pos);
    if ByteAt(b, pos) >= 0x80 {
      LebWritten(b, pos + 1);
      assert x[1..] == b[pos + 1..LebEnd(b, pos)];
      assert forall i :: 0 < i < |x| ==> x[i] == x[1..][i - 1];
    } else {
      assert x == [ByteAt(b, pos)];
    }
  }

  lemma {:induction false} LebsRead(b: Bytes, pos: nat, xs: seq<Bytes>)
    requires AllLebs(xs) && Here(b, pos, Joined(xs))
    ensures LebsEnd(b, pos, |xs|) == pos + |Joined(xs)|
    decreases |xs|
  {
    hide LebEnd, Here, IsLeb;
    if xs != [] {
      HereParts(b, pos, xs[0], Joined(xs[1..]));
      LebRead(b, pos, xs[0]);
      LebsRead(b, pos + |xs[0]|, xs[1..]);
    }
  }

  lemma {:induction false} LebsWritten(b: Bytes, pos: nat, n: nat) returns (xs: seq<Bytes>)
    requires LebsEnd(b, pos, n) <= |b|
    ensures |xs| == n && AllLebs(xs) && Here(b, pos, Joined(xs)) && pos + |Joined(xs)| == LebsEnd(b, pos, n)
    decreases n
  {
    hide LebEnd, IsLeb;
    if n == 0 {
      xs := [];
    } else {
      var next := LebEnd(b, pos);
      LebWritten(b, pos);
      var rest := LebsWritten(b, next, n - 1);
      xs := [b[pos..next]] + rest;
      assert xs[1..] == rest;
      HereJoin(b, pos, b[pos..next], Joined(rest));
    }
  }

  // -------------------------------------------------------------- single opcodes

  predicate Reads(b: Bytes, pc: nat, t: Token) {
    Layout(b, pc) == Some(pc + |TokenBytes(t)|)
  }

  lemma TwoRead(b: Bytes, pos: nat, x: Bytes, y: Bytes)
    requires IsLeb(x) && IsLeb(y) && Here(b, pos, x + y)
    ensures LebsEnd(b, pos, 2) == pos + |x| + |y|
  {
    hide LebEnd, IsLeb, Here, LebsEnd;
    HereParts(b, pos, x, y);
    LebRead(b, pos, x);
    LebRead(b, pos + |x|, y);
    OneLeb(b, pos);
  }

  lemma AccessRead(b: Bytes, pos: nat, flags: Bytes, memory: seq<Bytes>, offset: Bytes)
    requires IsLeb(flags) && AllLebs(memory) && IsLeb(offset) && Here(b, pos, flags + (Joined(memory) + offset))
    requires |memory| == if Number(flags) / 64 % 2 == 1 then 1 else 0
    ensures MemEnd(b, pos) == pos + |flags + (Joined(memory) + offset)|
  {
    hide LebEnd, IsLeb, Here, Number, LebValue;
    HereParts(b, pos, flags, Joined(memory) + offset);
    var p := pos + |flags|;
    HereParts(b, p, Joined(memory), offset);
    LebRead(b, pos, flags);
    LebsRead(b, p, memory);
    LebRead(b, p + |Joined(memory)|, offset);
    LebsLast(b, p, |memory|);
  }

  lemma TargetsRead(b: Bytes, pos: nat, count: Bytes, labels: seq<Bytes>)
    requires TokenOk(Targets(count, labels)) && Here(b, pos, count + Joined(labels))
    ensures LebValue(b, pos) % TWO32 != TWO32 - 1
    ensures LebsEnd(b, LebEnd(b, pos), LebValue(b, pos) % TWO32 + 1) == pos + |count + Joined(labels)|
  {
    hide LebEnd, IsLeb, Here, Number, LebValue, LebsEnd;
    HereParts(b, pos, count, Joined(labels));
    LebRead(b, pos, count);
    LebsRead(b, pos + |count|, labels);
  }

  /** The opcode, and what stands behind it. */
  lemma OpRead(b: Bytes, pc: nat, op: int, rest: Bytes)
    requires Here(b, pc, [op] + rest)
    ensures ByteAt(b, pc) == op && Here(b, pc + 1, rest)
  {
    HereParts(b, pc, [op], rest);
    HereByte(b, pc, op);
  }

  lemma NumberRead(b: Bytes, pc: nat, op: int, x: Bytes)
    requires NumberFollows(op) && IsLeb(x) && Here(b, pc, [op] + x)
    ensures Layout(b, pc) == Some(pc + 1 + |x|)
  {
    hide LebEnd, IsLeb, Here, Layout;
    OpRead(b, pc, op, x);
    LebRead(b, pc + 1, x);
    PlainLayout(b, pc);
  }

  lemma FixedRead(b: Bytes, pc: nat, t: Token)
    requires TokenOk(t) && Here(b, pc, TokenBytes(t)) && (t.Alone? || t.Opens? || t.Float?)
    ensures Reads(b, pc, t)
  {
    hide LebEnd, LebValue, LebsEnd, MemEnd, Here;
    match t
    case Alone(op) => HereByte(b, pc, op);
    case Opens(op, ty) =>
      OpRead(b, pc, op, [ty]);
      HereByte(b, pc + 1, ty);
    case Float(op, payload) => OpRead(b, pc, op, payload);
  }

  lemma PrefixedRead(b: Bytes, pc: nat, sub: int, xs: seq<Bytes>)
    requires PrefixedOk(sub, |xs|) && AllLebs(xs) && Here(b, pc, [0xfc] + ([sub] + Joined(xs)))
    ensures Layout(b, pc) == Some(pc + 2 + |Joined(xs)|)
  {
    hide LebEnd, LebValue, LebsEnd, MemEnd, IsLeb, Here, Joined;
    OpRead(b, pc, 0xfc, [sub] + Joined(xs));
    OpRead(b, pc + 1, sub, Joined(xs));
    LebsRead(b, pc + 2, xs);
    assert MiscCount(sub) == |xs|;
  }

  /** Written there, an opcode is read with exactly its immediates. */
  lemma TokenRead(b: Bytes, pc: nat, t: Token)
    requires TokenOk(t) && Here(b, pc, TokenBytes(t))
    ensures Reads(b, pc, t)
  {
    hide LebEnd, LebValue, LebsEnd, MemEnd, IsLeb, Here, Joined, NumberFollows, PrefixedOk;
    if t.Alone? || t.Opens? || t.Float? {
      FixedRead(b, pc, t);
      return;
    }
    hide Layout;
    PlainLayout(b, pc);
    match t
    case WithNumber(op, x) => NumberRead(b, pc, op, x);
    case WithTwo(op, x, y) =>
      OpRead(b, pc, op, x + y);
      TwoRead(b, pc + 1, x, y);
      OneLeb(b, pc + 1);
    case Targets(count, labels) =>
      OpRead(b, pc, 0x0e, count + Joined(labels));
      TargetsRead(b, pc + 1, count, labels);
      TableLayout(b, pc);
    case Access(op, flags, memory, offset) =>
      OpRead(b, pc, op, flags + (Joined(memory) + offset));
      AccessRead(b, pc + 1, flags, memory, offset);
    case Prefixed(sub, xs) => PrefixedRead(b, pc, sub, xs);
  }

  lemma TableLayout(b: Bytes, pc: nat)
    requires ByteAt(b, pc) == 0x0e && LebValue(b, pc + 1) % TWO32 != TWO32 - 1
    ensures Layout(b, pc) == Some(LebsEnd(b, LebEnd(b, pc + 1), LebValue(b, pc + 1) % TWO32 + 1))
  {
    hide LebEnd, LebValue, LebsEnd, MemEnd;
  }

  lemma AccessWritten(b: Bytes, pc: nat, op: int) returns (t: Token)
    requires Here(b, pc, [op]) && 0x28 <= op <= 0x3e && MemEnd(b, pc + 1) <= |b|
    ensures TokenOk(t) && Here(b, pc, TokenBytes(t)) && pc + |TokenBytes(t)| == MemEnd(b, pc + 1)
  {
    hide LebEnd, IsLeb, Here, Number, LebValue;
    var p := LebEnd(b, pc + 1);
    var n := if LebValue(b, pc + 1) / 64 % 2 == 1 then 1 else 0;
    LebsLast(b, p, n);
    LebsGrow(b, p, n);
    LebsEndGrows(b, LebsEnd(b, p, n));
    LebWritten(b, pc + 1);
    var memory := LebsWritten(b, p, n);
    LebWritten(b, LebsEnd(b, p, n));
    var flags, offset := b[pc + 1..p], b[LebsEnd(b, p, n)..LebEnd(b, LebsEnd(b, p, n))];
    HereJoin(b, p, Joined(memory), offset);
    HereJoin(b, pc + 1, flags, Joined(memory) + offset);
    HereJoin(b, pc, [op], flags + (Joined(memory) + offset));
    t := Access(op, flags, memory, offset);
  }

  lemma LebsGrow(b: Bytes, pos: nat, n: nat)
    ensures pos <= LebsEnd(b, pos, n)
  {
  }

  lemma LebsEndGrows(b: Bytes, pos: nat)
    ensures pos < LebEnd(b, pos)
  {
  }

  lemma TargetsWritten(b: Bytes, pc: nat, next: nat) returns (t: Token)
    requires Here(b, pc, [0x0e]) && Layout(b, pc) == Some(next) && next <= |b|
    ensures TokenOk(t) && Here(b, pc, TokenBytes(t)) && pc + |TokenBytes(t)| == next
  {
    hide LebEnd, IsLeb, Here, Number, LebValue, LebsEnd;
    HereByte(b, pc, 0x0e);
    var p, n := LebEnd(b, pc + 1), LebValue(b, pc + 1) % TWO32;
    LebsGrow(b, p, n + 1);
    LebWritten(b, pc + 1);
    var labels := LebsWritten(b, p, n + 1);
    HereJoin(b, pc + 1, b[pc + 1..p], Joined(labels));
    HereJoin(b, pc, [0x0e], b[pc + 1..p] + Joined(labels));
    t := Targets(b[pc + 1..p], labels);
  }

  lemma JoinedOne(xs: seq<Bytes>)
    requires |xs| == 1
    ensures Joined(xs) == xs[0]
  {
    assert Joined(xs) == xs[0] + Joined(xs[1..]) && xs[1..] == [];
  }

  lemma JoinedTwo(xs: seq<Bytes>)
    requires |xs| == 2
    ensures Joined(xs) == xs[0] + xs[1]
  {
    JoinedOne(xs[1..]);
  }

  lemma NumbersWritten(b: Bytes, pc: nat, op: int, n: nat) returns (t: Token)
    requires Here(b, pc, [op]) && LebsEnd(b, pc + 1, n) <= |b|
    requires (n == 1 && NumberFollows(op)) || (n == 2 && op in {0x11, 0x13})
    ensures TokenOk(t) && Here(b, pc, TokenBytes(t)) && pc + |TokenBytes(t)| == LebsEnd(b, pc + 1, n)
  {
    hide LebEnd, IsLeb, Here, LebsEnd;
    var xs := LebsWritten(b, pc + 1, n);
    HereJoin(b, pc, [op], Joined(xs));
    if n == 1 {
      JoinedOne(xs);
      t := WithNumber(op, xs[0]);
    } else {
      JoinedTwo(xs);
      t := WithTwo(op, xs[0], xs[1]);
    }
  }

  lemma PrefixedWritten(b: Bytes, pc: nat, next: nat) returns (t: Token)
    requires Here(b, pc, [0xfc]) && Layout(b, pc) == Some(next) && next <= |b|
    ensures TokenOk(t) && Here(b, pc, TokenBytes(t)) && pc + |TokenBytes(t)| == next
  {
    hide LebEnd, IsLeb, Here, LebsEnd;
    HereByte(b, pc, 0xfc);
    var sub := ByteAt(b, pc + 1);
    var n := MiscCount(sub);
    LebsGrow(b, pc + 2, n);
    var xs := LebsWritten(b, pc + 2, n);
    HereByte(b, pc + 1, sub);
    HereJoin(b, pc + 1, [sub], Joined(xs));
    HereJoin(b, pc, [0xfc], [sub] + Joined(xs));
    t := Prefixed(sub, xs);
  }

  /** Whatever is read as one instruction is one, with its immediates. */
  lemma TokenWritten(b: Bytes, pc: nat, next: nat) returns (t: Token)
    requires Layout(b, pc) == Some(next) && next <= |b|
    ensures TokenOk(t) && Here(b, pc, TokenBytes(t)) && pc + |TokenBytes(t)| == next
  {
    hide LebEnd, LebValue, LebsEnd, MemEnd, IsLeb, Number, Here, Joined;
    var op := ByteAt(b, pc);
    HereByte(b, pc, op);
    OneLeb(b, pc + 1);
    if op == 0x0e {
      t := TargetsWritten(b, pc, next);
    } else if op == 0xfc {
      t := PrefixedWritten(b, pc, next);
    } else if 0x28 <= op <= 0x3e {
      t := AccessWritten(b, pc, op);
    } else if op == 0x11 || op == 0x13 {
      t := NumbersWritten(b, pc, op, 2);
    } else if OneIndex(op) {
      t := NumbersWritten(b, pc, op, 1);
    } else if 0x02 <= op <= 0x04 {
      HereByte(b, pc + 1, ByteAt(b, pc + 1));
      HereJoin(b, pc, [op], [ByteAt(b, pc + 1)]);
      t := Opens(op, ByteAt(b, pc + 1));
    } else if op == 0x43 || op == 0x44 {
      PayloadHere(b, pc + 1, next);
      HereJoin(b, pc, [op], b[pc + 1..next]);
      t := Float(op, b[pc + 1..next]);
    } else {
      t := Alone(op);
    }
  }

  lemma PayloadHere(b: Bytes, pos: nat, next: nat)
    requires pos <= next <= |b|
    ensures Here(b, pos, b[pos..next])
  {
  }

  /** Bytes are read as one instruction if and only if they are one. */
  lemma LayoutExactly(b: Bytes, pc: nat, next: nat)
    requires next <= |b|
    ensures Layout(b, pc) == Some(next) <==>
      exists t :: TokenOk(t) && Here(b, pc, TokenBytes(t)) && next == pc + |TokenBytes(t)|
  {
    hide Layout, TokenOk, TokenBytes, Here;
    if Layout(b, pc) == Some(next) {
      var t := TokenWritten(b, pc, next);
    }
    if t :| TokenOk(t) && Here(b, pc, TokenBytes(t)) && next == pc + |TokenBytes(t)| {
      TokenRead(b, pc, t);
    }
  }

  // ------------------------------------------------------------- whole bodies

  /** Instructions one after the other; `Nest` is a block, a loop or an `if` without `else`. */
  datatype Code =
    | Nothing
    | Do(token: Token, rest: Code)
    | Nest(op: int, ty: int, body: Code, rest: Code)
    | Choose(ty: int, yes: Code, no: Code, rest: Code)

  const Finish: Bytes := [0x0b]
  const Otherwise: Bytes := [0x05]

  function CodeBytes(s: Code): Bytes {
    match s
    case Nothing => []
    case Do(t, rest) => TokenBytes(t) + CodeBytes(rest)
    case Nest(op, ty, body, rest) =>
      TokenBytes(Opens(op, ty)) + (CodeBytes(body) + (Finish + CodeBytes(rest)))
    case Choose(ty, yes, no, rest) =>
      TokenBytes(Opens(0x04, ty)) + (CodeBytes(yes) + (Otherwise + (CodeBytes(no) + (Finish + CodeBytes(rest)))))
  }

  /** The structure is in the nesting: no opcode of it stands alone. */
  predicate CodeOk(s: Code) {
    match s
    case Nothing => true
    case Do(t, rest) => TokenOk(t) && !t.Opens? && t != Alone(0x05) && t != Alone(0x0b) && CodeOk(rest)
    case Nest(op, ty, body, rest) => TokenOk(Opens(op, ty)) && CodeOk(body) && CodeOk(rest)
    case Choose(ty, yes, no, rest) => TokenOk(Opens(0x04, ty)) && CodeOk(yes) && CodeOk(no) && CodeOk(rest)
  }

  function Led(pc: nat, depth: nat, v: seq<Visit>): seq<Visit> {
    [Visit(pc, depth)] + v
  }

  /** Where the instructions start, and how deep they are nested; `else` and `end` count as
      inside the block. */
  function Visits(s: Code, pc: nat, depth: nat): seq<Visit> {
    match s
    case Nothing => []
    case Do(t, rest) => Led(pc, depth, Visits(rest, pc + |TokenBytes(t)|, depth))
    case Nest(op, ty, body, rest) =>
      var i := pc + 2;
      var j := i + |CodeBytes(body)|;
      Led(pc, depth, Visits(body, i, depth + 1) + Led(j, depth + 1, Visits(rest, j + 1, depth)))
    case Choose(ty, yes, no, rest) =>
      var i := pc + 2;
      var j := i + |CodeBytes(yes)|;
      var k := j + 1 + |CodeBytes(no)|;
      Led(pc, depth, Visits(yes, i, depth + 1)
        + Led(j, depth + 1, Visits(no, j + 1, depth + 1) + Led(k, depth + 1, Visits(rest, k + 1, depth))))
  }

  /** The walk from `pc` meets `visits` and goes on from `next`, `less` blocks further out. */
  ghost predicate Meets(b: Bytes, limit: nat, pc: nat, depth: nat, visits: seq<Visit>, next: nat, after: nat) {
    Walk(b, limit, pc, depth) == After(visits, Walk(b, limit, next, after))
  }

  lemma MeetsNothing(b: Bytes, limit: nat, pc: nat, depth: nat)
    ensures Meets(b, limit, pc, depth, [], pc, depth)
  {
    NothingMet(Walk(b, limit, pc, depth));
  }

  lemma MeetsThen(b: Bytes, limit: nat, pc: nat, depth: nat, v: seq<Visit>, i: nat, d: nat, w: seq<Visit>, j: nat,
                  e: nat)
    requires Meets(b, limit, pc, depth, v, i, d) && Meets(b, limit, i, d, w, j, e)
    ensures Meets(b, limit, pc, depth, v + w, j, e)
  {
    var rest := Walk(b, limit, j, e);
    assert v + (w + rest.visits) == v + w + rest.visits;
  }

  /** One instruction, unless it is the `end` of the whole body. */
  lemma MeetsOne(b: Bytes, limit: nat, pc: nat, depth: nat, t: Token)
    requires TokenOk(t) && Here(b, pc, TokenBytes(t)) && pc < limit && !(t == Alone(0x0b) && depth == 0)
    ensures Meets(b, limit, pc, depth, [Visit(pc, depth)], pc + |TokenBytes(t)|,
                  if t.Opens? then depth + 1 else if t == Alone(0x0b) then depth - 1 else depth)
  {
    hide Layout, TokenOk, Walk;
    TokenRead(b, pc, t);
    TokenOp(b, pc, t);
    NothingMet(Walk(b, limit, pc, depth));
    WalkStep(b, limit, pc, depth, []);
    assert [] + [Visit(pc, depth)] == [Visit(pc, depth)];
  }

  lemma TokenOp(b: Bytes, pc: nat, t: Token)
    requires TokenOk(t) && Here(b, pc, TokenBytes(t))
    ensures pc < |b| && (0x02 <= ByteAt(b, pc) <= 0x04 <==> t.Opens?) && (ByteAt(b, pc) == 0x0b <==> t == Alone(0x0b))
  {
    assert ByteAt(b, pc) == b[pc..pc + |TokenBytes(t)|][0];
  }

  ghost predicate Met(b: Bytes, limit: nat, pc: nat, depth: nat, s: Code) {
    Meets(b, limit, pc, depth, Visits(s, pc, depth), pc + |CodeBytes(s)|, depth)
  }

  lemma AloneOk()
    ensures TokenOk(Alone(0x05)) && TokenOk(Alone(0x0b))
  {
  }

  /** A block from behind its opening: the body, `end`, and what follows. */
  function Closed(body: Code, rest: Code): Bytes {
    CodeBytes(body) + (Finish + CodeBytes(rest))
  }

  function ClosedVisits(body: Code, rest: Code, pc: nat, depth: nat): seq<Visit> {
    var j := pc + |CodeBytes(body)|;
    Visits(body, pc, depth + 1) + Led(j, depth + 1, Visits(rest, j + 1, depth))
  }

  lemma ClosedParts(b: Bytes, pc: nat, body: Code, rest: Code)
    requires Here(b, pc, Closed(body, rest))
    ensures var j := pc + |CodeBytes(body)|;
      && Here(b, pc, CodeBytes(body)) && Here(b, j, Finish) && Here(b, j + 1, CodeBytes(rest))
      && |Closed(body, rest)| == |CodeBytes(body)| + 1 + |CodeBytes(rest)|
  {
    hide CodeBytes, Here;
    HereParts(b, pc, CodeBytes(body), Finish + CodeBytes(rest));
    HereParts(b, pc + |CodeBytes(body)|, Finish, CodeBytes(rest));
  }

  lemma ClosedMet(b: Bytes, limit: nat, pc: nat, depth: nat, body: Code, rest: Code)
    requires Here(b, pc, Closed(body, rest)) && pc + |Closed(body, rest)| <= limit
    requires Met(b, limit, pc, depth + 1, body) && Met(b, limit, pc + |CodeBytes(body)| + 1, depth, rest)
    ensures Meets(b, limit, pc, depth + 1, ClosedVisits(body, rest, pc, depth), pc + |Closed(body, rest)|, depth)
  {
    hide Meets, TokenOk, Here, Visits, CodeBytes;
    var j := pc + |CodeBytes(body)|;
    var end := j + 1 + |CodeBytes(rest)|;
    ClosedParts(b, pc, body, rest);
    AloneOk();
    MeetsOne(b, limit, j, depth + 1, Alone(0x0b));
    MeetsThen(b, limit, j, depth + 1, [Visit(j, depth + 1)], j + 1, depth, Visits(rest, j + 1, depth), end, depth);
    MeetsThen(b, limit, pc, depth + 1, Visits(body, pc, depth + 1), j, depth + 1,
              [Visit(j, depth + 1)] + Visits(rest, j + 1, depth), end, depth);
  }

  lemma OpensMet(b: Bytes, limit: nat, pc: nat, depth: nat, op: int, ty: int, tail: Bytes, v: seq<Visit>)
    requires TokenOk(Opens(op, ty)) && Here(b, pc, TokenBytes(Opens(op, ty)) + tail) && pc + 2 + |tail| <= limit
    requires Meets(b, limit, pc + 2, depth + 1, v, pc + 2 + |tail|, depth)
    ensures Meets(b, limit, pc, depth, [Visit(pc, depth)] + v, pc + 2 + |tail|, depth)
  {
    hide Meets, TokenOk, Here;
    HereParts(b, pc, TokenBytes(Opens(op, ty)), tail);
    MeetsOne(b, limit, pc, depth, Opens(op, ty));
    MeetsThen(b, limit, pc, depth, [Visit(pc, depth)], pc + 2, depth + 1, v, pc + 2 + |tail|, depth);
  }

  /** The first half of an `if`, with `else` and all that follows. */
  lemma ElseMet(b: Bytes, limit: nat, pc: nat, depth: nat, yes: Code, no: Code, rest: Code)
    requires Here(b, pc, CodeBytes(yes) + (Otherwise + Closed(no, rest)))
    requires pc + |CodeBytes(yes)| + 1 + |Closed(no, rest)| <= limit
    requires var j := pc + |CodeBytes(yes)|;
      && Met(b, limit, pc, depth + 1, yes) && Met(b, limit, j + 1, depth + 1, no)
      && Met(b, limit, j + 1 + |CodeBytes(no)| + 1, depth, rest)
    ensures var j := pc + |CodeBytes(yes)|;
      Meets(b, limit, pc, depth + 1,
            Visits(yes, pc, depth + 1) + ([Visit(j, depth + 1)] + ClosedVisits(no, rest, j + 1, depth)),
            j + 1 + |Closed(no, rest)|, depth)
  {
    hide Meets, TokenOk, Here, Visits, CodeBytes, Closed, ClosedVisits;
    var j := pc + |CodeBytes(yes)|;
    var v, end := ClosedVisits(no, rest, j + 1, depth), j + 1 + |Closed(no, rest)|;
    HereParts(b, pc, CodeBytes(yes), Otherwise + Closed(no, rest));
    HereParts(b, j, Otherwise, Closed(no, rest));
    AloneOk();
    MeetsOne(b, limit, j, depth + 1, Alone(0x05));
    ClosedMet(b, limit, j + 1, depth, no, rest);
    MeetsThen(b, limit, j, depth + 1, [Visit(j, depth + 1)], j + 1, depth + 1, v, end, depth);
    MeetsThen(b, limit, pc, depth + 1, Visits(yes, pc, depth + 1), j, depth + 1, [Visit(j, depth + 1)] + v, end, depth);
  }

  lemma DoIs(t: Token, rest: Code, pc: nat, depth: nat)
    ensures CodeBytes(Do(t, rest)) == TokenBytes(t) + CodeBytes(rest)
    ensures Visits(Do(t, rest), pc, depth) == Led(pc, depth, Visits(rest, pc + |TokenBytes(t)|, depth))
  {
  }

  lemma NestBytes(op: int, ty: int, body: Code, rest: Code)
    ensures CodeBytes(Nest(op, ty, body, rest)) == TokenBytes(Opens(op, ty)) + Closed(body, rest)
    ensures |TokenBytes(Opens(op, ty))| == 2
  {
  }

  lemma NestVisits(op: int, ty: int, body: Code, rest: Code, pc: nat, depth: nat)
    ensures Visits(Nest(op, ty, body, rest), pc, depth) == Led(pc, depth, ClosedVisits(body, rest, pc + 2, depth))
  {
    hide CodeBytes, Led;
  }

  function ElseVisits(yes: Code, no: Code, rest: Code, pc: nat, depth: nat): seq<Visit> {
    var j := pc + |CodeBytes(yes)|;
    Visits(yes, pc, depth + 1) + Led(j, depth + 1, ClosedVisits(no, rest, j + 1, depth))
  }

  lemma ChooseBytes(ty: int, yes: Code, no: Code, rest: Code)
    ensures CodeBytes(Choose(ty, yes, no, rest))
      == TokenBytes(Opens(0x04, ty)) + (CodeBytes(yes) + (Otherwise + Closed(no, rest)))
    ensures |TokenBytes(Opens(0x04, ty))| == 2
  {
  }

  lemma ChooseVisits(ty: int, yes: Code, no: Code, rest: Code, pc: nat, depth: nat)
    ensures Visits(Choose(ty, yes, no, rest), pc, depth)
      == Led(pc, depth, ElseVisits(yes, no, rest, pc + 2, depth))
  {
    hide CodeBytes, Led;
  }

  /** Any piece of code is met instruction by instruction. */
  lemma {:induction false} CodeMet(b: Bytes, limit: nat, pc: nat, depth: nat, s: Code)
    requires CodeOk(s) && Here(b, pc, CodeBytes(s)) && pc + |CodeBytes(s)| <= limit
    ensures Met(b, limit, pc, depth, s)
    decreases s, 1
  {
    hide Meets, TokenOk, Here, CodeBytes, Visits, Closed, ClosedVisits, TokenBytes;
    match s
    case Nothing => NothingMetHere(b, limit, pc, depth);
    case Do(t, rest) =>
      var i := pc + |TokenBytes(t)|;
      DoIs(t, rest, pc, depth);
      HereParts(b, pc, TokenBytes(t), CodeBytes(rest));
      TokenSome(t);
      MeetsOne(b, limit, pc, depth, t);
      CodeMet(b, limit, i, depth, rest);
      MeetsThen(b, limit, pc, depth, [Visit(pc, depth)], i, depth, Visits(rest, i, depth), i + |CodeBytes(rest)|,
                depth);
    case Nest(op, ty, body, rest) =>
      NestBytes(op, ty, body, rest);
      NestVisits(op, ty, body, rest, pc, depth);
      HereParts(b, pc, TokenBytes(Opens(op, ty)), Closed(body, rest));
      ClosedParts(b, pc + 2, body, rest);
      CodeMet(b, limit, pc + 2, depth + 1, body);
      CodeMet(b, limit, pc + 2 + |CodeBytes(body)| + 1, depth, rest);
      ClosedMet(b, limit, pc + 2, depth, body, rest);
      OpensMet(b, limit, pc, depth, op, ty, Closed(body, rest), ClosedVisits(body, rest, pc + 2, depth));
    case Choose(ty, yes, no, rest) => ChooseMet(b, limit, pc, depth, ty, yes, no, rest);
  }

  lemma NothingMetHere(b: Bytes, limit: nat, pc: nat, depth: nat)
    ensures Met(b, limit, pc, depth, Nothing)
  {
    MeetsNothing(b, limit, pc, depth);
  }

  lemma TokenSome(t: Token)
    ensures |TokenBytes(t)| > 0
  {
  }

  lemma {:induction false} ChooseMet(b: Bytes, limit: nat, pc: nat, depth: nat, ty: int, yes: Code, no: Code,
                                     rest: Code)
    requires var s := Choose(ty, yes, no, rest);
      CodeOk(s) && Here(b, pc, CodeBytes(s)) && pc + |CodeBytes(s)| <= limit
    ensures Met(b, limit, pc, depth, Choose(ty, yes, no, rest))
    decreases Choose(ty, yes, no, rest), 0
  {
    hide Meets, TokenOk, Here, CodeBytes, Visits, Closed, ClosedVisits, TokenBytes;
    var tail := CodeBytes(yes) + (Otherwise + Closed(no, rest));
    var j := pc + 2 + |CodeBytes(yes)|;
    ChooseBytes(ty, yes, no, rest);
    ChooseVisits(ty, yes, no, rest, pc, depth);
    HereParts(b, pc, TokenBytes(Opens(0x04, ty)), tail);
    HereParts(b, pc + 2, CodeBytes(yes), Otherwise + Closed(no, rest));
    HereParts(b, j, Otherwise, Closed(no, rest));
    ClosedParts(b, j + 1, no, rest);
    CodeMet(b, limit, pc + 2, depth + 1, yes);
    CodeMet(b, limit, j + 1, depth + 1, no);
    CodeMet(b, limit, j + 1 + |CodeBytes(no)| + 1, depth, rest);
    ElseMet(b, limit, pc + 2, depth, yes, no, rest);
    OpensMet(b, limit, pc, depth, 0x04, ty, tail, ElseVisits(yes, no, rest, pc + 2, depth));
  }

  /** Every body written after the specification, with the instructions that are generated, is
      accepted: both passes meet its instructions, at their depths, and stop behind its `end`. */
  lemma BodyAccepted(b: Bytes, limit: nat, start: nat, s: Code)
    requires CodeOk(s) && Here(b, start, CodeBytes(s) + Finish) && start + |CodeBytes(s)| < limit
    ensures var stop := start + |CodeBytes(s)|;
      Walk(b, limit, start, 0) == Outcome(true, Visits(s, start, 0) + [Visit(stop, 0)], stop + 1, true)
  {
    hide Walk, Layout, CodeBytes, Visits, Here, CodeOk;
    var stop := start + |CodeBytes(s)|;
    HereParts(b, start, CodeBytes(s), Finish);
    HereByte(b, stop, 0x0b);
    CodeMet(b, limit, start, 0, s);
    WalkEnds(b, limit, stop, 0, []);
    NothingMet(Walk(b, limit, stop, 0));
    assert [] + [Visit(stop, 0)] == [Visit(stop, 0)];
  }
}
