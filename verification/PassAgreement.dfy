/** The two passes of the code generator over a function body, and that they read it in
    the same way: the same instruction starts, the same nesting, the same end. */
module PassAgreement {
  /** The bytes of a module; beyond its end only zeros are read. */
  type Bytes = seq<int>

  function ByteAt(b: Bytes, pos: nat): int {
    if pos < |b| then b[pos] else 0
  }

  const TWO32: int := 0x1_0000_0000

  // ------------------------------------------------------------ LEB128 numbers

  function LebEnd(b: Bytes, pos: nat): (next: nat)
    ensures next > pos
    decreases |b| - pos
  {
    if ByteAt(b, pos) < 0x80 then pos + 1 else LebEnd(b, pos + 1)
  }

  function LebValue(b: Bytes, pos: nat): int
    decreases |b| - pos
  {
    ByteAt(b, pos) % 128 + if ByteAt(b, pos) < 0x80 then 0 else 128 * LebValue(b, pos + 1)
  }

  lemma Scaled(unit: int, x: int, y: int)
    ensures unit * (x + 128 * y) == unit * x + (unit * 128) * y
  {
    assert unit * (128 * y) == (unit * 128) * y;
    assert unit * (x + 128 * y) == unit * x + unit * (128 * y);
  }

  lemma LebStep(b: Bytes, pos: nat)
    ensures ByteAt(b, pos) < 0x80 ==> LebEnd(b, pos) == pos + 1 && LebValue(b, pos) == ByteAt(b, pos) % 128
    ensures ByteAt(b, pos) >= 0x80 ==>
      pos < |b| && LebEnd(b, pos) == LebEnd(b, pos + 1)
        && LebValue(b, pos) == ByteAt(b, pos) % 128 + 128 * LebValue(b, pos + 1)
  {
  }

  /** `read_LEB_` without sign extension; `unit` is one shifted left by `shift`. */
  method ReadLeb(b: Bytes, pos: nat) returns (result: int, next: nat)
    ensures next == LebEnd(b, pos) && result == LebValue(b, pos)
  {
    hide LebEnd, LebValue;
    result, next := 0, pos;
    var unit, more := 1, true;
    while more
      invariant more ==> LebEnd(b, next) == LebEnd(b, pos) && result + unit * LebValue(b, next) == LebValue(b, pos)
      invariant !more ==> next == LebEnd(b, pos) && result == LebValue(b, pos)
      decreases more, |b| - next
    {
      var byte := ByteAt(b, next);
      LebStep(b, next);
      Scaled(unit, byte % 128, if byte < 0x80 then 0 else LebValue(b, next + 1));
      next := next + 1;
      result := result + unit * (byte % 128);
      unit := unit * 128;
      more := byte >= 0x80;
    }
  }

  function LebsEnd(b: Bytes, pos: nat, n: nat): (next: nat)
    ensures next >= pos
    decreases n
  {
    if n == 0 then pos else LebsEnd(b, LebEnd(b, pos), n - 1)
  }

  lemma {:induction false} LebsLast(b: Bytes, pos: nat, n: nat)
    ensures LebsEnd(b, pos, n + 1) == LebEnd(b, LebsEnd(b, pos, n))
    decreases n
  {
    hide LebEnd;
    if n > 0 {
      LebsLast(b, LebEnd(b, pos), n - 1);
    }
  }

  method ReadLebs(b: Bytes, pos: nat, n: nat) returns (next: nat)
    ensures next == LebsEnd(b, pos, n)
  {
    next := pos;
    var i := 0;
    while i < n
      invariant 0 <= i <= n && next == LebsEnd(b, pos, i)
    {
      LebsLast(b, pos, i);
      var v;
      v, next := ReadLeb(b, next);
      i := i + 1;
    }
  }

  // ---------------------------------------------------- where an instruction ends

  datatype Option = None | Some(next: nat)

  /** Instructions of the control group that have no immediates. */
  predicate PlainControl(op: int) {
    op == 0x00 || op == 0x01 || op == 0x05 || op == 0x0b || op == 0x0f || op == 0x1a || op == 0x1b
  }

  predicate OneIndex(op: int) {
    op == 0x0c || op == 0x0d || op == 0x10 || op == 0x12 || 0x20 <= op <= 0x26 || 0x3f <= op <= 0x42 || op == 0xd0
      || op == 0xd2
  }

  function MiscCount(op: int): int {
    if 0 <= op <= 7 then 0
    else if op == 0x0a || op == 0x0e then 2
    else if op == 0x0b || 0x0f <= op <= 0x11 then 1
    else -1
  }

  /** The end of a memory argument: alignment, perhaps a memory index, and an offset. */
  function MemEnd(b: Bytes, pos: nat): (next: nat)
    ensures next > pos
  {
    LebsEnd(b, LebEnd(b, pos), if LebValue(b, pos) / 64 % 2 == 1 then 2 else 1)
  }

  /** The layout of instructions in the binary format (section 5.4 of the WebAssembly Core
      Specification), for those that the code generator accepts. */
  function Layout(b: Bytes, pos: nat): (o: Option)
    ensures o.Some? ==> o.next > pos
  {
    var op, p := ByteAt(b, pos), pos + 1;
    if PlainControl(op) || 0x45 <= op <= 0xc4 || op == 0xd1 then Some(p)
    else if 0x02 <= op <= 0x04 then if ByteAt(b, p) / 64 == 1 then Some(p + 1) else None
    else if OneIndex(op) then Some(LebEnd(b, p))
    else if op == 0x11 || op == 0x13 then Some(LebsEnd(b, p, 2))
    else if op == 0x0e then
      var count := LebValue(b, p) % TWO32;
      if count == TWO32 - 1 then None else Some(LebsEnd(b, LebEnd(b, p), count + 1))
    else if 0x28 <= op <= 0x3e then Some(MemEnd(b, p))
    else if op == 0x43 then Some(p + 4)
    else if op == 0x44 then Some(p + 8)
    else if op == 0xfc then
      var n := MiscCount(ByteAt(b, p));
      if n < 0 then None else Some(LebsEnd(b, p + 1, n))
    else None
  }

  lemma OneLeb(b: Bytes, pos: nat)
    ensures LebsEnd(b, pos, 1) == LebEnd(b, pos) && LebsEnd(b, pos, 2) == LebEnd(b, LebEnd(b, pos))
      && LebsEnd(b, pos, 0) == pos
  {
    hide LebEnd;
    assert LebsEnd(b, LebEnd(b, pos), 1) == LebsEnd(b, LebEnd(b, LebEnd(b, pos)), 0);
    assert LebsEnd(b, LebEnd(b, pos), 0) == LebEnd(b, pos);
  }

  // --------------------------------------------------------------- the first pass

  method SkipMem(b: Bytes, pos: nat) returns (next: nat)
    ensures next == MemEnd(b, pos)
  {
    hide LebEnd, LebValue, LebsEnd;
    var align, v;
    align, next := ReadLeb(b, pos);
    OneLeb(b, next);
    if align / 64 % 2 == 1 {
      v, next := ReadLeb(b, next);
    }
    v, next := ReadLeb(b, next);
  }

  method SkipTable(b: Bytes, pos: nat) returns (next: nat)
    ensures next > pos
    ensures var count := LebValue(b, pos) % TWO32;
      count < TWO32 - 1 ==> next == LebsEnd(b, LebEnd(b, pos), count + 1)
  {
    hide LebEnd, LebValue, LebsEnd;
    var count, v;
    count, next := ReadLeb(b, pos);
    ghost var from := next;
    count := count % TWO32;
    next := ReadLebs(b, next, count);
    LebsLast(b, from, count);
    v, next := ReadLeb(b, next);
  }

  method SkipMisc(b: Bytes, pos: nat) returns (next: nat)
    ensures next > pos
    ensures var n := MiscCount(ByteAt(b, pos)); n >= 0 ==> next == LebsEnd(b, pos + 1, n)
  {
    hide LebEnd, LebValue, LebsEnd;
    var op := ByteAt(b, pos);
    next := pos + 1;
    OneLeb(b, next);
    var v;
    if op == 0x0a || op == 0x0e {
      v, next := ReadLeb(b, next);
      v, next := ReadLeb(b, next);
    } else if op == 0x0b || op == 0x0f || op == 0x10 || op == 0x11 {
      v, next := ReadLeb(b, next);
    }
  }

  /** `wasm_SkipImmediates`: opcodes it does not know are taken to have no immediates. */
  method SkipImmediates(b: Bytes, pos: nat) returns (next: nat)
    ensures next > pos
    ensures var op := ByteAt(b, pos);
      Layout(b, pos).Some? && op != 0x12 && op != 0x13 && !(0x25 <= op <= 0x26) ==> next == Layout(b, pos).next
  {
    hide LebEnd, LebValue, LebsEnd, MemEnd;
    var op := ByteAt(b, pos);
    next := pos + 1;
    OneLeb(b, next);
    var v;
    if op == 0x3f || op == 0x40 || op == 0x0c || op == 0x0d || op == 0x10 || 0x20 <= op <= 0x24 || op == 0xd0
      || op == 0xd2
       || op == 0x41 || op == 0x1c || op == 0x42 {
      v, next := ReadLeb(b, next);
    } else if op == 0x11 {
      v, next := ReadLeb(b, next);
      v, next := ReadLeb(b, next);
    } else if op == 0x43 {
      next := next + 4;
    } else if op == 0x44 {
      next := next + 8;
    } else if 0x02 <= op <= 0x04 {
      ShortLeb(b, next);
      v, next := ReadLeb(b, next);
    } else if 0x28 <= op <= 0x3e {
      next := SkipMem(b, next);
    } else if op == 0x0e {
      next := SkipTable(b, next);
    } else if op == 0xfc {
      next := SkipMisc(b, next);
    }
  }

  lemma ShortLeb(b: Bytes, pos: nat)
    ensures ByteAt(b, pos) / 64 == 1 ==> LebEnd(b, pos) == pos + 1
  {
  }

  // -------------------------------------------------------------- the two walks

  /** An instruction met by a pass: where it starts and how many blocks are open there. */
  datatype Visit = Visit(pc: nat, depth: nat)

  /** How a walk over a body ends: whether the code generator accepts it, the instructions
      met, where it stopped, and whether that was at the `end` of the body. */
  datatype Outcome = Outcome(ok: bool, visits: seq<Visit>, stop: nat, closed: bool)

  /** Nesting after an instruction. */
  function DepthAfter(op: int, depth: nat): nat {
    if 0x02 <= op <= 0x04 then depth + 1 else if op == 0x0b && depth > 0 then depth - 1 else depth
  }

  function Walk(b: Bytes, limit: nat, pc: nat, depth: nat): Outcome
    decreases limit - pc
  {
    if pc >= limit then Outcome(true, [], pc, false)
    else
      var o, op := Layout(b, pc), ByteAt(b, pc);
      if o.None? then Outcome(false, [], pc, false)
      else if op == 0x0b && depth == 0 then Outcome(true, [Visit(pc, 0)], o.next, true)
      else
        var rest := Walk(b, limit, o.next, DepthAfter(op, depth));
        rest.(visits := [Visit(pc, depth)] + rest.visits)
  }

  function After(visits: seq<Visit>, w: Outcome): Outcome {
    w.(visits := visits + w.visits)
  }

  lemma WalkStep(b: Bytes, limit: nat, pc: nat, depth: nat, visits: seq<Visit>)
    requires pc < limit && Layout(b, pc).Some? && !(ByteAt(b, pc) == 0x0b && depth == 0)
    ensures After(visits, Walk(b, limit, pc, depth)) ==
      After(visits + [Visit(pc, depth)], Walk(b, limit, Layout(b, pc).next, DepthAfter(ByteAt(b, pc), depth)))
  {
    hide Layout;
    var rest := Walk(b, limit, Layout(b, pc).next, DepthAfter(ByteAt(b, pc), depth));
    assert visits + ([Visit(pc, depth)] + rest.visits) == visits + [Visit(pc, depth)] + rest.visits;
  }

  lemma WalkEnds(b: Bytes, limit: nat, pc: nat, depth: nat, visits: seq<Visit>)
    ensures pc >= limit ==> After(visits, Walk(b, limit, pc, depth)) == Outcome(true, visits, pc, false)
    ensures pc < limit && ByteAt(b, pc) == 0x0b && depth == 0 ==>
      After(visits, Walk(b, limit, pc, depth)) == Outcome(true, visits + [Visit(pc, 0)], pc + 1, true)
    ensures pc < limit && Layout(b, pc).None? ==> !After(visits, Walk(b, limit, pc, depth)).ok
  {
  }

  lemma PlainLayout(b: Bytes, pc: nat)
    ensures ByteAt(b, pc) == 0x05 || ByteAt(b, pc) == 0x0b ==> Layout(b, pc) == Some(pc + 1)
    ensures 0x02 <= ByteAt(b, pc) <= 0x04 && Layout(b, pc).Some? ==> LebEnd(b, pc + 1) == Layout(b, pc).next
    ensures OneIndex(ByteAt(b, pc)) ==> Layout(b, pc) == Some(LebEnd(b, pc + 1))
    ensures ByteAt(b, pc) == 0x11 || ByteAt(b, pc) == 0x13 ==> Layout(b, pc) == Some(LebEnd(b, LebEnd(b, pc + 1)))
    ensures 0x28 <= ByteAt(b, pc) <= 0x3e ==> Layout(b, pc) == Some(MemEnd(b, pc + 1))
  {
    hide LebEnd, LebValue, MemEnd, LebsEnd;
    ShortLeb(b, pc + 1);
    OneLeb(b, pc + 1);
  }

  /** What `pwart_PrepareFunc` reads for one instruction. */
  method PrepareOne(b: Bytes, pc: nat) returns (next: nat)
    ensures next > pc
    ensures Layout(b, pc).Some? ==> next == Layout(b, pc).next
  {
    hide Layout, LebEnd, LebValue, MemEnd, LebsEnd;
    var op := ByteAt(b, pc);
    PlainLayout(b, pc);
    next := pc + 1;
    var v;
    if 0x02 <= op <= 0x04 || op == 0x0c || op == 0x0d || op == 0x10 || op == 0x12 || 0x20 <= op <= 0x26 || op == 0xd2 {
      v, next := ReadLeb(b, next);
    } else if op == 0x11 || op == 0x13 {
      v, next := ReadLeb(b, next);
      v, next := ReadLeb(b, next);
    } else if 0x28 <= op <= 0x3e {
      next := SkipMem(b, next);
    } else if op != 0x05 && op != 0x0b {
      next := SkipImmediates(b, next - 1);
    }
  }

  /** The scan of `pwart_PrepareFunc`, and its test of the last byte: whatever the code
      generator accepts, the scan walks as it does. */
  method PrepareFunc(b: Bytes, limit: nat, start: nat) returns (visits: seq<Visit>, pc: nat, ok: bool)
    ensures var w := Walk(b, limit, start, 0); w.ok ==> visits == w.visits && pc == w.stop
    ensures ok <==> pc > 0 && ByteAt(b, pc - 1) == 0x0b
  {
    hide Layout, Walk, After;
    visits, pc := [], start;
    var blocks, eof := [], false;
    ghost var w := Walk(b, limit, start, 0);
    NothingMet(w);
    while !eof && pc < limit
      invariant !eof ==> (w.ok ==> w == After(visits, Walk(b, limit, pc, |blocks|)))
      invariant eof ==> (w.ok ==> w == Outcome(true, visits, pc, true))
      decreases !eof, limit - pc
    {
      var op := ByteAt(b, pc);
      PlainLayout(b, pc);
      WalkEnds(b, limit, pc, |blocks|, visits);
      if Layout(b, pc).Some? && !(op == 0x0b && |blocks| == 0) {
        WalkStep(b, limit, pc, |blocks|, visits);
      }
      visits := visits + [Visit(pc, |blocks|)];
      pc := PrepareOne(b, pc);
      if 0x02 <= op <= 0x04 {
        blocks := blocks + [op];
      } else if op == 0x0b {
        if |blocks| == 0 {
          eof := true;
        } else {
          blocks := blocks[..|blocks| - 1];
        }
      }
    }
    if !eof {
      WalkEnds(b, limit, pc, |blocks|, visits);
    }
    ok := pc > 0 && ByteAt(b, pc - 1) == 0x0b;
  }

  lemma NothingMet(w: Outcome)
    ensures w == After([], w)
  {
    assert [] + w.visits == w.visits;
  }

  // -------------------------------------------------------------- the second pass

  /** What `pwart_GenCode` and the handlers it calls read for one instruction; `ok` is
      false when they report an error, or would read a table of 2^32 targets for ever. */
  method GenOne(b: Bytes, pc: nat) returns (next: nat, ok: bool)
    ensures next > pc && (ok <==> Layout(b, pc).Some?)
    ensures ok ==> next == Layout(b, pc).next
  {
    hide LebEnd, LebValue, MemEnd, LebsEnd;
    var op := ByteAt(b, pc);
    next, ok := pc + 1, true;
    if op <= 0x1b {
      next, ok := GenControl(b, op, next);
    } else if op <= 0x44 {
      next, ok := GenMem(b, op, next);
    } else if op > 0xc4 {
      next, ok := GenMisc(b, op, next);
    }
  }

  function Known(b: Bytes, op: int, p: nat): Option
    requires p > 0 && ByteAt(b, p - 1) == op
  {
    Layout(b, p - 1)
  }

  method GenControl(b: Bytes, op: int, pc: nat) returns (next: nat, ok: bool)
    requires pc > 0 && ByteAt(b, pc - 1) == op && op <= 0x1b
    ensures next >= pc && (ok <==> Known(b, op, pc).Some?)
    ensures ok ==> next == Known(b, op, pc).next
  {
    hide LebEnd, LebValue, MemEnd, LebsEnd;
    OneLeb(b, pc);
    next, ok := pc, true;
    var v;
    if 0x02 <= op <= 0x04 {
      next, ok := BlockType(b, next);
    } else if op == 0x0c || op == 0x0d || op == 0x10 || op == 0x12 {
      v, next := ReadLeb(b, next);
    } else if op == 0x11 || op == 0x13 {
      v, next := ReadLeb(b, next);
      v, next := ReadLeb(b, next);
    } else if op == 0x0e {
      v, next := ReadLeb(b, next);
      v := v % TWO32;
      if v == TWO32 - 1 {
        ok := false;
      } else {
        next := ReadLebs(b, next, v + 1);
      }
    } else if op != 0x00 && op != 0x01 && op != 0x05 && op != 0x0b && op != 0x0f && op != 0x1a && op != 0x1b {
      ok := false;
    }
  }

  /** `opgen_ParseBlockStackOffset`. */
  method BlockType(b: Bytes, pc: nat) returns (next: nat, ok: bool)
    ensures ok <==> ByteAt(b, pc) / 64 == 1
    ensures next == if ok then pc + 1 else pc
  {
    next, ok := pc, true;
    if ByteAt(b, pc) == 0x40 {
      next := pc + 1;
    } else if ByteAt(b, pc) / 64 == 1 {
      next := pc + 1;
    } else {
      ok := false;
    }
  }

  method GenMem(b: Bytes, op: int, pc: nat) returns (next: nat, ok: bool)
    requires pc > 0 && ByteAt(b, pc - 1) == op && 0x1b < op <= 0x44
    ensures next >= pc && (ok <==> Known(b, op, pc).Some?)
    ensures ok ==> next == Known(b, op, pc).next
  {
    hide LebEnd, LebValue, MemEnd, LebsEnd;
    next, ok := pc, true;
    var v;
    if 0x20 <= op <= 0x26 || op == 0x3f || op == 0x40 || op == 0x41 || op == 0x42 {
      v, next := ReadLeb(b, next);
    } else if 0x28 <= op <= 0x3e {
      next := SkipMem(b, next);
    } else if op == 0x43 {
      next := next + 4;
    } else if op == 0x44 {
      next := next + 8;
    } else {
      ok := false;
    }
  }

  method GenMisc(b: Bytes, op: int, pc: nat) returns (next: nat, ok: bool)
    requires pc > 0 && ByteAt(b, pc - 1) == op && op > 0xc4
    ensures next >= pc && (ok <==> Known(b, op, pc).Some?)
    ensures ok ==> next == Known(b, op, pc).next
  {
    hide LebEnd, LebValue, MemEnd, LebsEnd;
    next, ok := pc, true;
    var v;
    if op == 0xd0 || op == 0xd2 {
      v, next := ReadLeb(b, next);
    } else if op == 0xfc {
      next, ok := GenPrefixed(b, next);
    } else if op != 0xd1 {
      ok := false;
    }
  }

  method GenPrefixed(b: Bytes, pc: nat) returns (next: nat, ok: bool)
    ensures var n := MiscCount(ByteAt(b, pc)); next > pc && (ok <==> n >= 0) && (ok ==> next == LebsEnd(b, pc + 1, n))
  {
    hide LebEnd, LebValue, LebsEnd;
    var op := ByteAt(b, pc);
    next, ok := pc + 1, true;
    OneLeb(b, next);
    var v;
    if op == 0x0a || op == 0x0e {
      v, next := ReadLeb(b, next);
      v, next := ReadLeb(b, next);
    } else if op == 0x0b || op == 0x0f || op == 0x10 || op == 0x11 {
      v, next := ReadLeb(b, next);
    } else if op < 0 || op > 7 {
      ok := false;
    }
  }

  /** The main loop of `pwart_GenCode`; the block of the function itself is the first. */
  method GenCode(b: Bytes, limit: nat, start: nat) returns (visits: seq<Visit>, pc: nat, ok: bool, eof: bool)
    ensures var w := Walk(b, limit, start, 0);
      ok == w.ok && (ok ==> visits == w.visits && pc == w.stop && eof == w.closed)
  {
    hide Layout, Walk, After;
    visits, pc, ok, eof := [], start, true, false;
    var blocks := [0x00];
    ghost var w := Walk(b, limit, start, 0);
    NothingMet(w);
    while !eof && pc < limit
      invariant !eof ==> |blocks| > 0 && blocks[0] == 0x00 && (forall i :: 0 < i < |blocks| ==> blocks[i] != 0x00)
      invariant !eof ==> w == After(visits, Walk(b, limit, pc, |blocks| - 1))
      invariant eof ==> w == Outcome(true, visits, pc, true)
      decreases !eof, limit - pc
    {
      var op := ByteAt(b, pc);
      PlainLayout(b, pc);
      WalkEnds(b, limit, pc, |blocks| - 1, visits);
      if Layout(b, pc).Some? && !(op == 0x0b && |blocks| == 1) {
        WalkStep(b, limit, pc, |blocks| - 1, visits);
      }
      var next;
      next, ok := GenOne(b, pc);
      if !ok {
        return;
      }
      visits := visits + [Visit(pc, |blocks| - 1)];
      if 0x02 <= op <= 0x04 {
        blocks := blocks + [op];
      } else if op == 0x0b {
        var block := blocks[|blocks| - 1];
        blocks := blocks[..|blocks| - 1];
        if block == 0x00 {
          eof := true;
        }
      }
      pc := next;
    }
    if !eof {
      WalkEnds(b, limit, pc, |blocks| - 1, visits);
    }
  }

  /** `pwart_EmitFunction`: when no error is reported, both passes have met the same
      instructions at the same depth and have stopped at the same place. */
  method EmitFunction(b: Bytes, limit: nat, start: nat)
    returns (ok: bool, ghost prepared: seq<Visit>, ghost generated: seq<Visit>, stop: nat)
    ensures ok ==> prepared == generated && stop > 0 && ByteAt(b, stop - 1) == 0x0b
    ensures var w := Walk(b, limit, start, 0); ok ==> w.ok && generated == w.visits && stop == w.stop
    ensures var w := Walk(b, limit, start, 0); w.ok && w.closed ==> ok
    ensures var w := Walk(b, limit, start, 0); ok <==> w.ok && w.stop > 0 && ByteAt(b, w.stop - 1) == 0x0b
  {
    hide Walk;
    ghost var w := Walk(b, limit, start, 0);
    var visits, pc;
    visits, pc, ok := PrepareFunc(b, limit, start);
    prepared, generated, stop := visits, [], pc;
    ClosedByEnd(b, limit, start, 0);
    if ok {
      var more, eof;
      more, stop, ok, eof := GenCode(b, limit, start);
      generated := more;
    }
  }

  /** A body that is closed ends with the byte that the first pass asks for. */
  lemma {:induction false} ClosedByEnd(b: Bytes, limit: nat, pc: nat, depth: nat)
    ensures var w := Walk(b, limit, pc, depth); w.closed ==> w.ok && w.stop > 0 && ByteAt(b, w.stop - 1) == 0x0b
    decreases limit - pc
  {
    hide Layout;
    PlainLayout(b, pc);
    if pc < limit && Layout(b, pc).Some? && !(ByteAt(b, pc) == 0x0b && depth == 0) {
      ClosedByEnd(b, limit, Layout(b, pc).next, DepthAfter(ByteAt(b, pc), depth));
    }
  }

  /** A walk that is not refused and does not meet the `end` of the body goes on to the end
      of the module, so only there can an unclosed body get through. */
  lemma {:induction false} UnclosedReachesEnd(b: Bytes, limit: nat, pc: nat, depth: nat)
    ensures var w := Walk(b, limit, pc, depth); w.ok && !w.closed ==> w.stop >= limit
    decreases limit - pc
  {
    hide Layout;
    if pc < limit && Layout(b, pc).Some? && !(ByteAt(b, pc) == 0x0b && depth == 0) {
      UnclosedReachesEnd(b, limit, Layout(b, pc).next, DepthAfter(ByteAt(b, pc), depth));
    }
  }

  /** `select` with a type is refused wherever it stands, and so is any body that reaches it. */
  lemma TypedSelectRefused(b: Bytes, limit: nat, pc: nat, depth: nat)
    requires pc < limit && ByteAt(b, pc) == 0x1c
    ensures !Walk(b, limit, pc, depth).ok
  {
  }

  /** The other way round it does not hold: the last byte can be an immediate, here that of
      i32.const 11 at the end of the module. */
  lemma LastByteMisleads()
    ensures var b := [0x41, 0x0b]; var w := Walk(b, 2, 0, 0);
      w.ok && !w.closed && ByteAt(b, w.stop - 1) == 0x0b
  {
    var b := [0x41, 0x0b];
    LebStep(b, 1);
    assert Layout(b, 0) == Some(2);
    assert Walk(b, 2, 2, 0) == Outcome(true, [], 2, false);
  }
}
