/**
 * Installable bytecode and its static verifier (src/core/authoring.ts).
 *
 * A program is a list of opcode rows. The verifier checks every row's shape
 * and then runs one data-flow pass that assigns a single operand-stack height
 * to every program counter that control flow, handler entries included, can
 * reach.
 */
module TinyBytecode {
  import opened Wrappers
  import opened StackFlow

  /** An operand or a literal: integers, strings and lists matter to the verifier. */
  datatype Value = Num(n: int) | Text(s: string) | List(items: seq<Value>) | Other

  datatype Opcode =
    | PUSH_LIT | PUSH_INT | PUSH_LOCAL | POP_LOCAL
    | PUSH_THIS | PUSH_ACTOR | PUSH_PLAYER | PUSH_CALLER | PUSH_PROGR | PUSH_VERB | PUSH_ARGS
    | PUSH_SPACE | PUSH_SEQ | PUSH_MESSAGE | PUSH_ARG
    | POP | DUP | SWAP
    | ADD | SUB | MUL | DIV | MOD | NEG | NOT | EQ | NEQ | LT | LE | GT | GE | IN
    | JUMP | JUMP_IF_TRUE | JUMP_IF_FALSE | JUMP_IF_TRUE_KEEP | JUMP_IF_FALSE_KEEP
    | FOR_LIST_INIT | FOR_LIST_NEXT | FOR_RANGE_INIT | FOR_RANGE_NEXT | FOR_MAP_INIT | FOR_MAP_NEXT | FOR_END
    | GET_PROP | SET_PROP | HAS_PROP | DEFINE_PROP | UNDEFINE_PROP | PROP_INFO | SET_PROP_INFO
    | CALL_VERB | PASS | RETURN | RAISE | FAIL | BUILTIN
    | LIST_GET | LIST_SET | LIST_APPEND | MAP_GET | MAP_SET | INDEX_GET | INDEX_SET
    | MAKE_MAP | MAKE_LIST | STR_CONCAT | STR_INTERP | SPLAT
    | OBSERVE | EMIT | YIELD | TRY_PUSH | TRY_POP
    | Unlisted(name: string)

  /** One row: an opcode and its operands (row cell k is operands[k - 1]). */
  datatype Op = Op(code: Opcode, operands: seq<Value>)

  datatype Bytecode = Bytecode(
    ops: seq<Op>, literals: seq<Value>, literalBytes: nat,
    version: int, numLocals: int, maxStack: int,
    maxTicks: Option<int>, maxMemory: Option<int>, maxWallMs: Option<int>)

  const MAX_OPS := 10_000
  const MAX_LITERALS := 4_096
  const MAX_LITERAL_BYTES := 512 * 1024
  const MAX_LOCALS := 1_024
  const MAX_STACK := 4_096
  const MAX_TICKS := 1_000_000
  const MAX_MEMORY := 16 * 1024 * 1024
  const MAX_WALL_MS := 10_000

  // ---------------------------------------------------------------- operands

  predicate SafeInteger(v: Value) {
    v.Num? && -MAX_SAFE_INTEGER <= v.n <= MAX_SAFE_INTEGER
  }

  /** Cell k of a row as a safe integer, or None where the verifier would throw. */
  function IntCell(op: Op, k: nat): Option<int> {
    if 1 <= k <= |op.operands| && SafeInteger(op.operands[k - 1]) then Some(op.operands[k - 1].n) else None
  }

  function CountCell(op: Op, k: nat): Option<nat> {
    match IntCell(op, k)
    case Some(n) => if n >= 0 then Some(n) else None
    case None => None
  }

  function JumpCell(op: Op, pc: int, k: nat): Option<int> {
    match IntCell(op, k)
    case Some(n) => Some(pc + n + 1)
    case None => None
  }

  // ------------------------------------------------------------- row shapes

  function OpcodeArity(code: Opcode): Option<nat> {
    match code
    case PUSH_LIT | PUSH_INT | PUSH_LOCAL | POP_LOCAL | PUSH_ARG
       | JUMP | JUMP_IF_TRUE | JUMP_IF_FALSE | JUMP_IF_TRUE_KEEP | JUMP_IF_FALSE_KEEP
       | FOR_LIST_INIT | FOR_RANGE_INIT | CALL_VERB | PASS
       | MAKE_MAP | MAKE_LIST | STR_CONCAT | STR_INTERP => Some(1)
    case FOR_LIST_NEXT | FOR_RANGE_NEXT | BUILTIN | TRY_PUSH => Some(2)
    case FOR_MAP_NEXT => Some(3)
    case Unlisted(_) => None
    case _ => Some(0)
  }

  predicate IndexCell(op: Op, k: nat, bound: int) {
    CountCell(op, k).Some? && CountCell(op, k).value < bound
  }

  predicate TargetCell(bytecode: Bytecode, pc: int, op: Op, k: nat) {
    JumpCell(op, pc, k).Some? && 0 <= JumpCell(op, pc, k).value <= |bytecode.ops|
  }

  /** The per-opcode operand checks. `builtins` is the set of known builtin names. */
  predicate OperandsOk(bytecode: Bytecode, pc: int, op: Op, builtins: set<string>) {
    match op.code
    case PUSH_LIT => IndexCell(op, 1, |bytecode.literals|)
    case TRY_PUSH =>
      && IndexCell(op, 2, |bytecode.literals|)
      && var errors := bytecode.literals[CountCell(op, 2).value];
         errors.List? && forall e :: e in errors.items ==> e.Text?
    case PUSH_LOCAL | POP_LOCAL | FOR_LIST_INIT | FOR_RANGE_INIT => IndexCell(op, 1, bytecode.numLocals)
    case FOR_LIST_NEXT | FOR_RANGE_NEXT => IndexCell(op, 1, bytecode.numLocals) && TargetCell(bytecode, pc, op, 2)
    case FOR_MAP_NEXT =>
      IndexCell(op, 1, bytecode.numLocals) && IndexCell(op, 2, bytecode.numLocals) && TargetCell(bytecode, pc, op, 3)
    case PUSH_INT | PUSH_ARG | CALL_VERB | PASS | MAKE_MAP | MAKE_LIST | STR_CONCAT | STR_INTERP => CountCell(op, 1).Some?
    case BUILTIN =>
      |op.operands| >= 1 && op.operands[0].Text? && op.operands[0].s in builtins && CountCell(op, 2).Some?
    case JUMP | JUMP_IF_TRUE | JUMP_IF_FALSE | JUMP_IF_TRUE_KEEP | JUMP_IF_FALSE_KEEP => TargetCell(bytecode, pc, op, 1)
    case _ => true
  }

  function ShapeFault(bytecode: Bytecode, pc: int, op: Op, builtins: set<string>): Option<Reason> {
    if op.code.Unlisted? then Some(UnknownOpcode)
    else if Some(|op.operands|) != OpcodeArity(op.code) then Some(WrongArity)
    else if op.code.SPLAT? then Some(NotInstallable)
    else if !OperandsOk(bytecode, pc, op, builtins) then Some(BadOperand)
    else None
  }

  predicate OptionalLimit(v: Option<int>, max: int) {
    v.Some? ==> 1 <= v.value <= max
  }

  predicate HeaderOk(b: Bytecode) {
    && 0 <= b.version <= MAX_SAFE_INTEGER
    && 0 <= b.numLocals <= MAX_LOCALS
    && 0 <= b.maxStack <= MAX_STACK
    && 0 < |b.ops| <= MAX_OPS
    && |b.literals| <= MAX_LITERALS
    && OptionalLimit(b.maxTicks, MAX_TICKS) && OptionalLimit(b.maxMemory, MAX_MEMORY) && OptionalLimit(b.maxWallMs, MAX_WALL_MS)
    && b.literalBytes <= MAX_LITERAL_BYTES
  }

  // ------------------------------------------------------- static stack effects

  datatype Effect = Effect(needs: int, delta: int, exits: bool)

  /** What one row demands of the operand stack and does to its height. */
  function StackEffect(op: Op): Option<Effect> {
    match op.code
    case PUSH_LIT | PUSH_INT | PUSH_LOCAL | PUSH_THIS | PUSH_ACTOR | PUSH_PLAYER | PUSH_CALLER | PUSH_PROGR
       | PUSH_VERB | PUSH_ARGS | PUSH_SPACE | PUSH_SEQ | PUSH_MESSAGE | PUSH_ARG => Some(Effect(0, 1, false))
    case POP_LOCAL | POP => Some(Effect(1, -1, false))
    case NEG | NOT => Some(Effect(1, 0, false))
    case DUP => Some(Effect(1, 1, false))
    case SWAP => Some(Effect(2, 0, false))
    case ADD | SUB | MUL | DIV | MOD | EQ | NEQ | LT | LE | GT | GE | IN
       | GET_PROP | HAS_PROP | PROP_INFO | LIST_GET | LIST_APPEND | MAP_GET | INDEX_GET => Some(Effect(2, -1, false))
    case JUMP | YIELD | TRY_PUSH | TRY_POP => Some(Effect(0, 0, false))
    case JUMP_IF_TRUE | JUMP_IF_FALSE => Some(Effect(1, -1, false))
    case JUMP_IF_TRUE_KEEP | JUMP_IF_FALSE_KEEP => Some(Effect(1, 0, false))
    case FOR_LIST_INIT | FOR_MAP_INIT => Some(Effect(1, 1, false))
    case FOR_LIST_NEXT | FOR_RANGE_INIT | FOR_RANGE_NEXT | FOR_MAP_NEXT => Some(Effect(2, 0, false))
    case FOR_END | UNDEFINE_PROP | EMIT => Some(Effect(2, -2, false))
    case SET_PROP | SET_PROP_INFO => Some(Effect(3, -3, false))
    case LIST_SET | MAP_SET | INDEX_SET => Some(Effect(3, -2, false))
    case DEFINE_PROP => Some(Effect(4, -4, false))
    case CALL_VERB => CountEffect(op, 1, n => Effect(n + 2, -n - 1, false))
    case PASS => CountEffect(op, 1, n => Effect(n, 1 - n, false))
    case RETURN | RAISE | FAIL => Some(Effect(1, -1, true))
    case BUILTIN => CountEffect(op, 2, n => Effect(n, 1 - n, false))
    case MAKE_MAP => CountEffect(op, 1, n => Effect(n * 2, 1 - n * 2, false))
    case MAKE_LIST | STR_CONCAT | STR_INTERP => CountEffect(op, 1, n => Effect(n, 1 - n, false))
    case OBSERVE => Some(Effect(1, -1, false))
    case SPLAT | Unlisted(_) => None
  }

  function CountEffect(op: Op, k: nat, effect: nat -> Effect): Option<Effect> {
    match CountCell(op, k)
    case Some(n) => Some(effect(n))
    case None => None
  }

  /** The row cell that holds a jump offset, if the opcode has one. */
  function JumpOperand(code: Opcode): Option<nat> {
    match code
    case JUMP | JUMP_IF_TRUE | JUMP_IF_FALSE | JUMP_IF_TRUE_KEEP | JUMP_IF_FALSE_KEEP | TRY_PUSH => Some(1)
    case FOR_LIST_NEXT | FOR_RANGE_NEXT => Some(2)
    case FOR_MAP_NEXT => Some(3)
    case _ => None
  }

  // -------------------------------------------------------------- control flow

  predicate HasRow(bytecode: Bytecode, pc: int) {
    0 <= pc < |bytecode.ops|
  }

  /** The failure raised while processing a row at the given height, if any. */
  function RowFault(bytecode: Bytecode, c: Config): Option<Reason>
    requires HasRow(bytecode, c.pc)
  {
    var op := bytecode.ops[c.pc];
    match StackEffect(op)
    case None => Some(if op.code.Unlisted? || op.code.SPLAT? then UnknownOpcode else BadOperand)
    case Some(effect) =>
      if c.height < effect.needs || c.height + effect.delta < 0 then Some(StackUnderflow)
      else if c.height + effect.delta > bytecode.maxStack then Some(MaxStackTooSmall)
      else if op.code.TRY_PUSH? && c.height + effect.delta + 1 > bytecode.maxStack then Some(HandlerTooDeep)
      else if JumpOperand(op.code).Some? && JumpCell(op, c.pc, JumpOperand(op.code).value).None? then Some(BadOperand)
      else None
  }

  /** Where control may go next, and at what height; a protected region's handler comes first. */
  function Edges(bytecode: Bytecode, c: Config): seq<Config>
    requires HasRow(bytecode, c.pc) && RowFault(bytecode, c).None?
  {
    var op := bytecode.ops[c.pc];
    var effect := StackEffect(op).value;
    var next := c.height + effect.delta;
    var fall := Config(c.pc + 1, next);
    if effect.exits then []
    else match JumpOperand(op.code)
      case None => [fall]
      case Some(k) =>
        var target := JumpCell(op, c.pc, k).value;
        match op.code
        case JUMP => [Config(target, next)]
        case TRY_PUSH => [Config(target, next + 1), fall]
        case _ => [fall, Config(target, next)]
  }

  /** The height-labelled control-flow graph of a program. */
  function FlowGraph(bytecode: Bytecode): Graph
    requires 0 <= bytecode.maxStack
  {
    Graph(|bytecode.ops|, bytecode.maxStack,
          (c: Config) => if HasRow(bytecode, c.pc) then RowFault(bytecode, c) else Some(LeavesBounds),
          (c: Config) => if HasRow(bytecode, c.pc) && RowFault(bytecode, c).None? then Edges(bytecode, c) else [])
  }

  /** Heights at the far end of an edge stay within the declared stack. */
  lemma FlowGraphBounded(bytecode: Bytecode)
    requires 0 <= bytecode.maxStack
    ensures Bounded(FlowGraph(bytecode))
  {
  }

  // ------------------------------------------------------------ the whole verifier

  ghost predicate Installable(bytecode: Bytecode, builtins: set<string>) {
    && HeaderOk(bytecode)
    && (forall pc :: 0 <= pc < |bytecode.ops| ==> ShapeFault(bytecode, pc, bytecode.ops[pc], builtins).None?)
    && StackSafe(FlowGraph(bytecode))
  }

  /** Header, then every row's shape, then the stack pass; the first failure is reported. */
  method VerifyBytecode(bytecode: Bytecode, builtins: set<string>) returns (verdict: Verdict)
    ensures verdict.Accepted? <==> Installable(bytecode, builtins)
    ensures verdict.Accepted? ==> Certifies(FlowGraph(bytecode), verdict.heights)
  {
    if !HeaderOk(bytecode) {
      return Rejected(0, HeaderOutOfRange);
    }
    for pc := 0 to |bytecode.ops|
      invariant forall k :: 0 <= k < pc ==> ShapeFault(bytecode, k, bytecode.ops[k], builtins).None?
    {
      var fault := ShapeFault(bytecode, pc, bytecode.ops[pc], builtins);
      if fault.Some? {
        return Rejected(pc, fault.value);
      }
    }
    FlowGraphBounded(bytecode);
    ghost var visited;
    verdict, visited := AssignHeights(FlowGraph(bytecode));
  }
}
