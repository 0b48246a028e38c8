/** Structured WebAssembly function bodies: what they do to locals, operand stack
    and the rest of the store, and the instruction stream they are encoded as. */
module WasmBody {

  /** Memory, globals and tables; only the instructions themselves look inside. */
  type World = seq<int>

  /** An instruction without control flow and without locals: it continues or traps. */
  datatype Effect = Go(stack: seq<int>, world: World) | Stop(world: World)

  /** What each such instruction does, given its code. */
  type Ops = (nat, seq<int>, World) -> Effect

  datatype Instr =
    | Get(x: nat)
    | Set(x: nat)
    | Tee(x: nat)
    | Op(code: nat)
    | Br(depth: nat)
    | BrIf(depth: nat)
    | BrTable(labels: seq<nat>, other: nat)
    | Return
    | Block(keep: nat, body: Code)
    | Loop(keep: nat, body: Code)
    | If(keep: nat, yes: Code)
    | IfElse(keep: nat, yes: Code, no: Code)

  datatype Code = Done | Then(first: Instr, rest: Code)

  datatype Config = Config(locals: seq<int>, stack: seq<int>, world: World)

  datatype Outcome =
    | Normal(c: Config)
    | Branch(depth: nat, c: Config)
    | Returned(stack: seq<int>, world: World)
    | Trapped(world: World)
    | OutOfFuel

  // --------------------------------------------------------------- execution

  /** The operand stack after a branch out of a block entered with `entry`. */
  function Unwind(entry: seq<int>, now: seq<int>, keep: nat): seq<int> {
    if keep <= |now| then entry + now[|now| - keep..] else entry + now
  }

  /** A construct whose label is the innermost one has been left. */
  function Leave(o: Outcome, entry: seq<int>, keep: nat): Outcome {
    match o
    case Branch(depth, c) =>
      if depth == 0 then Normal(c.(stack := Unwind(entry, c.stack, keep))) else Branch(depth - 1, c)
    case _ => o
  }

  function Top(c: Config): int
    requires c.stack != []
  {
    c.stack[|c.stack| - 1]
  }

  function Pop(c: Config): Config
    requires c.stack != []
  {
    c.(stack := c.stack[..|c.stack| - 1])
  }

  function ExecInstr(i: Instr, c: Config, ops: Ops, fuel: nat): Outcome
    decreases fuel, i
  {
    match i
    case Get(x) => if x < |c.locals| then Normal(c.(stack := c.stack + [c.locals[x]])) else Trapped(c.world)
    case Set(x) =>
      if x < |c.locals| && c.stack != [] then Normal(Pop(c).(locals := c.locals[x := Top(c)])) else Trapped(c.world)
    case Tee(x) =>
      if x < |c.locals| && c.stack != [] then Normal(c.(locals := c.locals[x := Top(c)])) else Trapped(c.world)
    case Op(code) =>
      (match ops(code, c.stack, c.world)
       case Go(stack, world) => Normal(Config(c.locals, stack, world))
       case Stop(world) => Trapped(world))
    case Br(depth) => Branch(depth, c)
    case BrIf(depth) =>
      if c.stack == [] then Trapped(c.world)
      else if Top(c) != 0 then Branch(depth, Pop(c)) else Normal(Pop(c))
    case BrTable(labels, other) =>
      if c.stack == [] then Trapped(c.world)
      else if 0 <= Top(c) < |labels| then Branch(labels[Top(c)], Pop(c)) else Branch(other, Pop(c))
    case Return => Returned(c.stack, c.world)
    case Block(keep, body) => Leave(Exec(body, c, ops, fuel), c.stack, keep)
    case Loop(keep, body) =>
      var o := Exec(body, c, ops, fuel);
      if o.Branch? && o.depth == 0 then
        if fuel == 0 then OutOfFuel
        else ExecInstr(i, o.c.(stack := Unwind(c.stack, o.c.stack, keep)), ops, fuel - 1)
      else Leave(o, c.stack, keep)
    case If(keep, yes) =>
      if c.stack == [] then Trapped(c.world)
      else if Top(c) != 0 then Leave(Exec(yes, Pop(c), ops, fuel), Pop(c).stack, keep) else Normal(Pop(c))
    case IfElse(keep, yes, no) =>
      if c.stack == [] then Trapped(c.world)
      else if Top(c) != 0 then Leave(Exec(yes, Pop(c), ops, fuel), Pop(c).stack, keep)
      else Leave(Exec(no, Pop(c), ops, fuel), Pop(c).stack, keep)
  }

  function Exec(code: Code, c: Config, ops: Ops, fuel: nat): Outcome
    decreases fuel, code
  {
    match code
    case Done => Normal(c)
    case Then(first, rest) =>
      var o := ExecInstr(first, c, ops, fuel);
      if o.Normal? then Exec(rest, o.c, ops, fuel) else o
  }

  /** What a call shows to its caller: results, store, trap; never the locals. */
  datatype Result = Finished(stack: seq<int>, world: World) | Failed(world: World) | Running

  function Call(code: Code, locals: seq<int>, world: World, keep: nat, ops: Ops, fuel: nat): Result {
    match Exec(code, Config(locals, [], world), ops, fuel)
    case Normal(c) => Finished(c.stack, c.world)
    case Branch(_, c) => Finished(Unwind([], c.stack, keep), c.world)
    case Returned(stack, world) => Finished(stack, world)
    case Trapped(world) => Failed(world)
    case OutOfFuel => Running
  }

  // ------------------------------------------------------------ the encoding

  /** Instructions as the scan sees them; `Other` stands for every opcode whose
      immediates it only skips, branches included. */
  datatype Token = OpenBlock(kind: nat) | Else | End | LocalGet(x: nat) | LocalSet(x: nat) | LocalTee(x: nat) | Other

  function InstrTokens(i: Instr): seq<Token> {
    match i
    case Get(x) => [LocalGet(x)]
    case Set(x) => [LocalSet(x)]
    case Tee(x) => [LocalTee(x)]
    case Block(_, body) => [OpenBlock(0x02)] + CodeTokens(body) + [End]
    case Loop(_, body) => [OpenBlock(0x03)] + CodeTokens(body) + [End]
    case If(_, yes) => [OpenBlock(0x04)] + CodeTokens(yes) + [End]
    case IfElse(_, yes, no) => [OpenBlock(0x04)] + CodeTokens(yes) + [Else] + CodeTokens(no) + [End]
    case _ => [Other]
  }

  function CodeTokens(code: Code): seq<Token> {
    match code
    case Done => []
    case Then(first, rest) => InstrTokens(first) + CodeTokens(rest)
  }

  /** A function body: its code and the final `end`. */
  function BodyTokens(code: Code): seq<Token> {
    CodeTokens(code) + [End]
  }

  function Max(a: nat, b: nat): nat {
    if a < b then b else a
  }

  function InstrDepth(i: Instr): nat {
    match i
    case Block(_, body) => 1 + Depth(body)
    case Loop(_, body) => 1 + Depth(body)
    case If(_, yes) => 1 + Depth(yes)
    case IfElse(_, yes, no) => 1 + Max(Depth(yes), Depth(no))
    case _ => 0
  }

  /** How deep blocks are nested in the code. */
  function Depth(code: Code): nat {
    match code
    case Done => 0
    case Then(first, rest) => Max(InstrDepth(first), Depth(rest))
  }

  predicate InstrUses(i: Instr, n: nat) {
    match i
    case Get(x) => x < n
    case Set(x) => x < n
    case Tee(x) => x < n
    case Block(_, body) => Uses(body, n)
    case Loop(_, body) => Uses(body, n)
    case If(_, yes) => Uses(yes, n)
    case IfElse(_, yes, no) => Uses(yes, n) && Uses(no, n)
    case _ => true
  }

  /** Every local the code names is one of the first `n`. */
  predicate Uses(code: Code, n: nat) {
    match code
    case Done => true
    case Then(first, rest) => InstrUses(first, n) && Uses(rest, n)
  }
}
