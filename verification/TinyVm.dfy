/**
 * The stack and operand discipline of the bytecode interpreter (src/core/tiny-vm.ts).
 *
 * Values are abstracted away: a frame keeps only the length of its operand
 * stack and the number of its locals. Each row first reads its cells, as local
 * and literal indices, offsets and counts, and then runs as the interpreter's
 * own sequence of pops, peeks and pushes. Every read and every stack operation
 * is checked, and the tables here are the interpreter's: none of them is the
 * verifier's, so that "verified code never fails a check" is a statement about
 * the interpreter. What depends on values, on the world or on resource budgets
 * (branches, callees, which row throws what) is a nondeterministic choice.
 */
module TinyVm {
  import opened Wrappers
  import opened StackFlow
  import opened TinyBytecode

  // ------------------------------------------------------------------ row cells

  /** What the interpreter takes a cell of a row to be. */
  datatype Access =
    | Local(cell: nat) | Literal(cell: nat) | Errors(cell: nat)
    | Offset(cell: nat) | Entry(cell: nat) | Amount(cell: nat) | Callee(cell: nat)

  function Accesses(code: Opcode): set<Access> {
    match code
    case PUSH_LIT => {Literal(1)}
    case PUSH_INT | PUSH_ARG | CALL_VERB | PASS | MAKE_MAP | MAKE_LIST | STR_CONCAT | STR_INTERP => {Amount(1)}
    case PUSH_LOCAL | POP_LOCAL | FOR_LIST_INIT | FOR_RANGE_INIT => {Local(1)}
    case JUMP | JUMP_IF_TRUE | JUMP_IF_FALSE | JUMP_IF_TRUE_KEEP | JUMP_IF_FALSE_KEEP => {Offset(1)}
    case FOR_LIST_NEXT | FOR_RANGE_NEXT => {Local(1), Offset(2)}
    case FOR_MAP_NEXT => {Local(1), Local(2), Offset(3)}
    case BUILTIN => {Callee(1), Amount(2)}
    case TRY_PUSH => {Entry(1), Errors(2)}
    case _ => {}
  }

  /** A cell that holds a number, which is all the interpreter asks of a count or an offset. */
  function Numeric(op: Op, k: nat): Option<int> {
    if 1 <= k <= |op.operands| && op.operands[k - 1].Num? then Some(op.operands[k - 1].n) else None
  }

  predicate Indexes(op: Op, k: nat, length: int) {
    Numeric(op, k).Some? && 0 <= Numeric(op, k).value < length
  }

  predicate AllTexts(items: seq<Value>) {
    forall e :: e in items ==> e.Text?
  }

  /** Where the offset of a row leads, counted from the row after it. */
  function Landing(op: Op, pc: int): Option<int> {
    var cells := Accesses(op.code);
    if Offset(1) in cells || Entry(1) in cells then Ahead(op, pc, 1)
    else if Offset(2) in cells then Ahead(op, pc, 2)
    else if Offset(3) in cells then Ahead(op, pc, 3)
    else None
  }

  function Ahead(op: Op, pc: int, k: nat): Option<int> {
    match Numeric(op, k)
    case Some(n) => Some(pc + 1 + n)
    case None => None
  }

  // ------------------------------------------------------------ stack primitives

  /** `Peek(d)` reads the d-th slot from the top. */
  datatype StackOp = Peek(depth: nat) | Pop | Push

  datatype StackFault = Underflow | Overflow

  datatype Outcome = Height(h: nat) | Fault(fault: StackFault)

  function Operate(script: seq<StackOp>, h: nat, max: int): Outcome {
    if script == [] then Height(h)
    else match script[0]
      case Peek(d) => if h < d then Fault(Underflow) else Operate(script[1..], h, max)
      case Pop => if h == 0 then Fault(Underflow) else Operate(script[1..], h - 1, max)
      case Push => if h >= max then Fault(Overflow) else Operate(script[1..], h + 1, max)
  }

  function Pops(n: nat): seq<StackOp> {
    seq(n, _ => Pop)
  }

  /** A row's arguments are popped by a counted loop. */
  function Counted(op: Op, cell: nat, factor: nat, rest: seq<StackOp>): Option<seq<StackOp>> {
    match Numeric(op, cell)
    case Some(n) => Some(Pops((if n < 0 then 0 else n) * factor) + rest)
    case None => None
  }

  /** What each row does to the operand stack up to its transfer of control. */
  function Script(op: Op): Option<seq<StackOp>> {
    match op.code
    case PUSH_LIT | PUSH_INT | PUSH_LOCAL | PUSH_THIS | PUSH_ACTOR | PUSH_PLAYER | PUSH_CALLER | PUSH_PROGR
       | PUSH_VERB | PUSH_ARGS | PUSH_SPACE | PUSH_SEQ | PUSH_MESSAGE | PUSH_ARG => Some([Push])
    case POP_LOCAL | POP => Some([Pop])
    case DUP => Some([Peek(1), Push])
    case SWAP => Some([Pop, Pop, Push, Push])
    case ADD | SUB | MUL | DIV | MOD | EQ | NEQ | LT | LE | GT | GE | IN => Some([Pop, Pop, Push])
    case NEG | NOT => Some([Pop, Push])
    case JUMP | YIELD | TRY_PUSH | TRY_POP => Some([])
    case JUMP_IF_TRUE | JUMP_IF_FALSE => Some([Pop])
    case JUMP_IF_TRUE_KEEP | JUMP_IF_FALSE_KEEP => Some([Peek(1)])
    case FOR_LIST_INIT | FOR_MAP_INIT => Some([Pop, Push, Push])
    case FOR_RANGE_INIT => Some([Pop, Pop, Push, Push])
    case FOR_LIST_NEXT | FOR_RANGE_NEXT | FOR_MAP_NEXT => Some([Peek(1), Peek(2)])
    case FOR_END => Some([Pop, Pop])
    case GET_PROP | HAS_PROP | PROP_INFO => Some([Pop, Pop, Push])
    case SET_PROP | SET_PROP_INFO => Some([Pop, Pop, Pop])
    case DEFINE_PROP => Some([Pop, Pop, Pop, Pop])
    case UNDEFINE_PROP => Some([Pop, Pop])
    case CALL_VERB => Counted(op, 1, 1, [Pop, Pop])
    case PASS => Counted(op, 1, 1, [])
    case RETURN | RAISE | FAIL => Some([Pop])
    case BUILTIN => Counted(op, 2, 1, [Push])
    case LIST_GET | LIST_APPEND | MAP_GET | INDEX_GET => Some([Pop, Pop, Push])
    case LIST_SET | MAP_SET | INDEX_SET => Some([Pop, Pop, Pop, Push])
    case MAKE_MAP => Counted(op, 1, 2, [Push])
    case MAKE_LIST | STR_CONCAT | STR_INTERP => Counted(op, 1, 1, [Push])
    case OBSERVE => Some([Pop])
    case EMIT => Some([Pop, Pop])
    case SPLAT | Unlisted(_) => None
  }

  predicate IsCall(code: Opcode) {
    code.CALL_VERB? || code.PASS?
  }

  /** A call's result arrives later, as one more push. */
  function FullScript(op: Op): Option<seq<StackOp>> {
    match Script(op)
    case Some(s) => Some(if IsCall(op.code) then s + [Push] else s)
    case None => None
  }

  lemma {:induction false} OperateAppend(s: seq<StackOp>, t: seq<StackOp>, h: nat, max: int)
    ensures Operate(s + t, h, max) ==
            match Operate(s, h, max)
            case Height(k) => Operate(t, k, max)
            case Fault(f) => Fault(f)
  {
    if s == [] {
      assert s + t == t;
    } else {
      assert (s + t)[1..] == s[1..] + t;
      match s[0]
      case Peek(d) => if h >= d { OperateAppend(s[1..], t, h, max); }
      case Pop => if h > 0 { OperateAppend(s[1..], t, h - 1, max); }
      case Push => if h < max { OperateAppend(s[1..], t, h + 1, max); }
    }
  }

  lemma {:induction false} OperatePops(n: nat, h: nat, max: int)
    ensures Operate(Pops(n), h, max) == if n <= h then Height(h - n) else Fault(Underflow)
  {
    if n > 0 {
      assert Pops(n)[1..] == Pops(n - 1);
      if h > 0 { OperatePops(n - 1, h - 1, max); }
    }
  }

  function Pushes(n: nat): seq<StackOp> {
    seq(n, _ => Push)
  }

  lemma {:induction false} OperatePushes(n: nat, h: nat, max: int)
    requires h <= max
    ensures Operate(Pushes(n), h, max) == if h + n <= max then Height(h + n) else Fault(Overflow)
  {
    if n > 0 {
      assert Pushes(n)[1..] == Pushes(n - 1);
      if h < max { OperatePushes(n - 1, h + 1, max); }
    }
  }

  lemma PopsThenPushes(pops: nat, pushes: nat, script: seq<StackOp>, h: nat, max: int)
    requires h <= max && script == Pops(pops) + Pushes(pushes)
    ensures Operate(script, h, max) ==
            if h < pops then Fault(Underflow)
            else if h - pops + pushes > max then Fault(Overflow)
            else Height(h - pops + pushes)
  {
    OperateAppend(Pops(pops), Pushes(pushes), h, max);
    OperatePops(pops, h, max);
    if pops <= h { OperatePushes(pushes, h - pops, max); }
  }

  /** Every script is a peek, a peek and a push, two peeks, or some pops and then some pushes. */
  predicate Counts(script: seq<StackOp>, effect: Effect) {
    || (script == [Peek(1)] && effect.needs == 1 && effect.delta == 0)
    || (script == [Peek(1), Push] && effect.needs == 1 && effect.delta == 1)
    || (script == [Peek(1), Peek(2)] && effect.needs == 2 && effect.delta == 0)
    || (effect.needs >= 0 && effect.delta + effect.needs >= 0 && script == Pops(effect.needs) + Pushes(effect.delta + effect.needs))
  }

  lemma ShortScripts()
    ensures Pops(0) + Pushes(0) == [] && Pops(0) + Pushes(1) == [Push]
    ensures Pops(1) + Pushes(0) == [Pop] && Pops(1) + Pushes(1) == [Pop, Push] && Pops(1) + Pushes(2) == [Pop, Push, Push]
    ensures Pops(2) + Pushes(0) == [Pop, Pop] && Pops(2) + Pushes(1) == [Pop, Pop, Push]
    ensures Pops(2) + Pushes(2) == [Pop, Pop, Push, Push]
    ensures Pops(3) + Pushes(0) == [Pop, Pop, Pop] && Pops(3) + Pushes(1) == [Pop, Pop, Pop, Push]
    ensures Pops(4) + Pushes(0) == [Pop, Pop, Pop, Pop]
  {
  }

  predicate HasCount(code: Opcode) {
    IsCall(code) || code.BUILTIN? || code.MAKE_MAP? || code.MAKE_LIST? || code.STR_CONCAT? || code.STR_INTERP?
  }

  /** A number that the verifier does not take for a count. */
  predicate OddCount(op: Op) {
    var n := Numeric(op, if op.code.BUILTIN? then 2 else 1);
    HasCount(op.code) && n.Some? && !(0 <= n.value <= MAX_SAFE_INTEGER)
  }

  /** A counted row pops its count, some fixed slots, and pushes one result. */
  lemma CountedScript(op: Op)
    requires HasCount(op.code) && !IsCall(op.code) && !op.code.MAKE_MAP? && StackEffect(op).Some?
    ensures FullScript(op).Some?
    ensures var effect := StackEffect(op).value;
            effect.needs >= 0 && effect.delta + effect.needs == 1 && FullScript(op).value == Pops(effect.needs) + [Push]
  {
  }

  lemma MapScript(op: Op)
    requires op.code.MAKE_MAP? && StackEffect(op).Some?
    ensures FullScript(op).Some?
    ensures var effect := StackEffect(op).value;
            effect.needs >= 0 && effect.delta + effect.needs == 1 && FullScript(op).value == Pops(effect.needs) + [Push]
  {
  }

  lemma CalledScript(op: Op)
    requires IsCall(op.code) && StackEffect(op).Some?
    ensures FullScript(op).Some?
    ensures var effect := StackEffect(op).value;
            effect.needs >= 0 && effect.delta + effect.needs == 1 && FullScript(op).value == Pops(effect.needs) + [Push]
  {
    var n := CountCell(op, 1).value;
    if op.code.CALL_VERB? {
      assert Pops(n) + [Pop, Pop] == Pops(n + 2);
    } else {
      assert Pops(n) + [] == Pops(n);
    }
  }

  /** A counted row has an effect on record exactly if its count is a natural number of safe size. */
  lemma CountReads(op: Op)
    requires HasCount(op.code)
    ensures FullScript(op).Some? <==> Numeric(op, if op.code.BUILTIN? then 2 else 1).Some?
    ensures StackEffect(op).Some? <==> FullScript(op).Some? && !OddCount(op)
  {
  }

  lemma PlainScript(op: Op)
    requires !HasCount(op.code)
    ensures StackEffect(op).Some? <==> FullScript(op).Some?
    ensures StackEffect(op).Some? ==> Counts(FullScript(op).value, StackEffect(op).value)
  {
    if StackEffect(op).Some? {
      if StackEffect(op).value.delta < 0 { ShrinkingScript(op); } else { GrowingScript(op); }
    }
  }

  lemma ShrinkingScript(op: Op)
    requires !HasCount(op.code) && StackEffect(op).Some? && StackEffect(op).value.delta < 0
    ensures FullScript(op).Some? && Counts(FullScript(op).value, StackEffect(op).value)
  {
    ShortScripts();
  }

  lemma GrowingScript(op: Op)
    requires !HasCount(op.code) && StackEffect(op).Some? && StackEffect(op).value.delta >= 0
    ensures FullScript(op).Some? && Counts(FullScript(op).value, StackEffect(op).value)
  {
    ShortScripts();
  }

  lemma ScriptCounts(op: Op)
    ensures StackEffect(op).Some? <==> FullScript(op).Some? && !OddCount(op)
    ensures StackEffect(op).Some? ==> Counts(FullScript(op).value, StackEffect(op).value)
  {
    if HasCount(op.code) {
      CountReads(op);
      assert Pushes(1) == [Push];
      if StackEffect(op).Some? {
        if IsCall(op.code) { CalledScript(op); } else if op.code.MAKE_MAP? { MapScript(op); } else { CountedScript(op); }
      }
    } else {
      PlainScript(op);
    }
  }

  /**
   * The verifier's effect table is exact: for every row and every height, the
   * interpreter's operations succeed precisely when the table's demand and the
   * stack bound are met, and then leave the height the table says.
   */
  lemma EffectTableExact(op: Op, h: nat, max: int)
    requires h <= max && StackEffect(op).Some?
    ensures FullScript(op).Some?
    ensures var effect := StackEffect(op).value;
            Operate(FullScript(op).value, h, max) ==
            if h < effect.needs then Fault(Underflow)
            else if h + effect.delta > max then Fault(Overflow)
            else Height(h + effect.delta)
  {
    ScriptCounts(op);
    var script, effect := FullScript(op).value, StackEffect(op).value;
    if script == Pops(effect.needs) + Pushes(effect.delta + effect.needs) {
      PopsThenPushes(effect.needs, effect.delta + effect.needs, script, h, max);
    } else if script == [Peek(1)] {
      assert script[1..] == [];
    } else if script == [Peek(1), Push] {
      assert script[1..] == [Push] && script[1..][1..] == [];
      assert Operate([Push], h, max) == if h >= max then Fault(Overflow) else Height(h + 1);
    } else {
      assert script[1..] == [Peek(2)] && script[1..][1..] == [];
      assert Operate([Peek(2)], h, max) == if h < 2 then Fault(Underflow) else Height(h);
    }
  }

  // ------------------------------------------------------------------ the machine

  const MAX_VM_FRAMES := 128
  const MAX_RUNTIME_LOCALS := 1_024
  const MAX_RUNTIME_STACK := 4_096

  datatype Handler = Handler(targetPc: int, errors: seq<string>, stackDepth: nat)

  datatype Frame = Frame(bytecode: Bytecode, locals: nat, pc: int, height: nat, handlers: seq<Handler>)

  /**
   * `Broken` marks a failed stack check and `Misread` a failed check of a row's
   * cell; `Escaped` is an error or signal nothing caught.
   */
  datatype State = Running(frames: seq<Frame>) | Finished | Escaped(code: string) | Broken | Misread

  /** Everything a run takes from outside the stack discipline. */
  datatype Choice =
    | Proceed(taken: bool, code: string)
    | Invoke(callee: Bytecode)
    | Throw(code: string)
    | Signal(code: string)

  function Enter(bytecode: Bytecode): Frame {
    Frame(bytecode, if bytecode.numLocals < 0 then 0 else bytecode.numLocals, 0, 0, [])
  }

  /** Handlers are popped until one lists the code or lists nothing. */
  function Catch(handlers: seq<Handler>, code: string): Option<(Handler, seq<Handler>)> {
    if handlers == [] then None
    else
      var n := |handlers| - 1;
      if handlers[n].errors == [] || code in handlers[n].errors then Some((handlers[n], handlers[..n]))
      else Catch(handlers[..n], code)
  }

  /** Unwind to the nearest matching handler and enter it with the error on the stack. */
  function Raise(frames: seq<Frame>, code: string): State {
    if frames == [] then Escaped(code)
    else
      var n := |frames| - 1;
      var f := frames[n];
      match Catch(f.handlers, code)
      case None => Raise(frames[..n], code)
      case Some((h, rest)) =>
        if h.stackDepth >= f.bytecode.maxStack then Broken
        else Running(frames[..n] + [f.(pc := h.targetPc, height := h.stackDepth + 1, handlers := rest)])
  }

  /** Leave the top frame; its caller, if any, receives one value. */
  function Return(frames: seq<Frame>): State
    requires frames != []
  {
    var n := |frames| - 1;
    if n == 0 then Finished
    else
      var caller := frames[n - 1];
      if caller.height >= caller.bytecode.maxStack then Broken
      else Running(frames[..n - 1] + [caller.(height := caller.height + 1)])
  }

  function CatchList(bytecode: Bytecode, op: Op): seq<string> {
    if Indexes(op, 2, |bytecode.literals|) then
      var errors := bytecode.literals[Numeric(op, 2).value];
      if errors.List? then Texts(errors.items) else []
    else []
  }

  function Texts(items: seq<Value>): seq<string> {
    if items == [] then []
    else (if items[0].Text? then [items[0].s] else []) + Texts(items[1..])
  }

  /** Where a row that neither calls nor leaves the frame takes it. */
  function Transfer(f: Frame, op: Op, h: nat, taken: bool): Frame {
    var target := Landing(op, f.pc);
    var pc := if target.Some? && !op.code.TRY_PUSH? && (op.code.JUMP? || taken) then target.value else f.pc + 1;
    var handlers :=
      if op.code.TRY_PUSH? && target.Some? then f.handlers + [Handler(target.value, CatchList(f.bytecode, op), h)]
      else if op.code.TRY_POP? && f.handlers != [] then f.handlers[..|f.handlers| - 1]
      else f.handlers;
    f.(pc := pc, height := h, handlers := handlers)
  }

  predicate RuntimeLimits(b: Bytecode) {
    0 <= b.numLocals <= MAX_RUNTIME_LOCALS && 0 <= b.maxStack <= MAX_RUNTIME_STACK
  }

  /** A call: a bytecode verb gets a frame of its own, anything else pushes its result at once. */
  function Call(frames: seq<Frame>, waiting: Frame, choice: Choice): State
    requires frames != []
  {
    var below := frames[..|frames| - 1];
    if choice.Invoke? then
      if |frames| >= MAX_VM_FRAMES then Raise(frames, "E_CALL_DEPTH")
      else if !RuntimeLimits(choice.callee) then Raise(frames, "E_COMPILE")
      else Running(below + [waiting, Enter(choice.callee)])
    else if waiting.height >= waiting.bytecode.maxStack then Broken
    else Running(below + [waiting.(height := waiting.height + 1)])
  }

  /** Transfer control once the row's stack operations have left the top frame at height h. */
  function Complete(frames: seq<Frame>, op: Op, h: nat, choice: Choice): State
    requires frames != []
  {
    var f := frames[|frames| - 1];
    if op.code.RETURN? then Return(frames)
    else if op.code.RAISE? || op.code.FAIL? then Raise(frames, if choice.Proceed? then choice.code else "E_INVARG")
    else if IsCall(op.code) then Call(frames, f.(pc := f.pc + 1, height := h), choice)
    else if op.code.TRY_POP? && f.handlers == [] then Raise(frames, "E_RANGE")
    else Running(frames[..|frames| - 1] + [Transfer(f, op, h, choice.Proceed? && choice.taken)])
  }

  /** A loop's next row reads its offset when the loop is over and its locals when it is not. */
  predicate Performs(code: Opcode, a: Access, taken: bool) {
    && a in Accesses(code)
    && (a.Offset? && !code.JUMP? ==> taken)
    && (a.Local? && (code.FOR_LIST_NEXT? || code.FOR_RANGE_NEXT? || code.FOR_MAP_NEXT?) ==> !taken)
  }

  /** The checks the interpreter makes on a cell as it reads it. */
  predicate Readable(f: Frame, op: Op, a: Access) {
    match a
    case Local(k) => Indexes(op, k, f.locals)
    case Literal(k) => Indexes(op, k, |f.bytecode.literals|)
    case Errors(k) =>
      && Indexes(op, k, |f.bytecode.literals|)
      && var errors := f.bytecode.literals[Numeric(op, k).value];
         errors.List? ==> AllTexts(errors.items)
    case Offset(k) => Numeric(op, k).Some?
    case Entry(k) => Numeric(op, k).Some?
    case Amount(k) => Numeric(op, k).Some?
    case Callee(k) => 1 <= k <= |op.operands| && op.operands[k - 1].Text?
  }

  predicate RowReadable(f: Frame, op: Op, taken: bool) {
    forall a :: a in Accesses(op.code) && Performs(op.code, a, taken) ==> Readable(f, op, a)
  }

  /** Execute the row under the top frame's program counter. */
  function Execute(frames: seq<Frame>, choice: Choice): State
    requires frames != [] && HasRow(frames[|frames| - 1].bytecode, frames[|frames| - 1].pc)
  {
    var f := frames[|frames| - 1];
    var op := f.bytecode.ops[f.pc];
    if !RowReadable(f, op, choice.Proceed? && choice.taken) then Misread
    else match Script(op)
      case None => Broken
      case Some(script) =>
        match Operate(script, f.height, f.bytecode.maxStack)
        case Fault(_) => Broken
        case Height(h) => Complete(frames, op, h, choice)
  }

  function Step(s: State, choice: Choice): State {
    if !s.Running? then s
    else if s.frames == [] then Finished
    else
      var f := s.frames[|s.frames| - 1];
      if f.pc >= |f.bytecode.ops| then Return(s.frames)
      else if f.pc < 0 then Broken
      else if choice.Throw? then Raise(s.frames, choice.code)
      else if choice.Signal? then Escaped(choice.code)
      else Execute(s.frames, choice)
  }

  function Run(s: State, choices: seq<Choice>): State
    decreases |choices|
  {
    if choices == [] then s else Run(Step(s, choices[0]), choices[1..])
  }

  // ------------------------------------------- what the row checks are worth

  predicate IsNatural(op: Op, k: nat) {
    Numeric(op, k).Some? && 0 <= Numeric(op, k).value <= MAX_SAFE_INTEGER
  }

  predicate IsOffset(op: Op, k: nat) {
    Numeric(op, k).Some? && -MAX_SAFE_INTEGER <= Numeric(op, k).value <= MAX_SAFE_INTEGER
  }

  /** What an installable row has in a cell, by the use the interpreter makes of it. */
  predicate InRange(b: Bytecode, pc: int, op: Op, a: Access, builtins: set<string>) {
    match a
    case Local(k) => IsNatural(op, k) && Numeric(op, k).value < b.numLocals
    case Literal(k) => IsNatural(op, k) && Numeric(op, k).value < |b.literals|
    case Errors(k) =>
      && IsNatural(op, k) && Numeric(op, k).value < |b.literals|
      && var errors := b.literals[Numeric(op, k).value];
         errors.List? && AllTexts(errors.items)
    case Offset(k) =>
      IsOffset(op, k) && 0 <= pc + 1 + Numeric(op, k).value <= |b.ops|
    case Entry(_) => true
    case Amount(k) => IsNatural(op, k)
    case Callee(k) => 1 <= k <= |op.operands| && op.operands[k - 1].Text? && op.operands[k - 1].s in builtins
  }

  predicate KnownRow(op: Op) {
    !op.code.Unlisted? && !op.code.SPLAT?
  }

  /** A row has as many cells as the interpreter reads. */
  lemma ArityIsAccesses(code: Opcode)
    ensures OpcodeArity(code).Some? <==> !code.Unlisted?
    ensures OpcodeArity(code).Some? ==> OpcodeArity(code) == Some(|Accesses(code)|)
  {
  }

  ghost predicate AllInRange(b: Bytecode, pc: int, op: Op, builtins: set<string>) {
    forall a :: a in Accesses(op.code) ==> InRange(b, pc, op, a, builtins)
  }

  lemma OnlyAccess(b: Bytecode, pc: int, op: Op, builtins: set<string>, a: Access)
    requires Accesses(op.code) == {a}
    ensures AllInRange(b, pc, op, builtins) <==> InRange(b, pc, op, a, builtins)
  {
    assert a in Accesses(op.code);
  }

  lemma TwoAccesses(b: Bytecode, pc: int, op: Op, builtins: set<string>, x: Access, y: Access)
    requires Accesses(op.code) == {x, y}
    ensures AllInRange(b, pc, op, builtins) <==> InRange(b, pc, op, x, builtins) && InRange(b, pc, op, y, builtins)
  {
    assert x in Accesses(op.code) && y in Accesses(op.code);
  }

  lemma LocalOperands(b: Bytecode, pc: int, op: Op, builtins: set<string>)
    requires Local(1) in Accesses(op.code) && OpcodeArity(op.code) == Some(|op.operands|)
    ensures OperandsOk(b, pc, op, builtins) <==> AllInRange(b, pc, op, builtins)
  {
    if Offset(2) in Accesses(op.code) {
      TwoAccesses(b, pc, op, builtins, Local(1), Offset(2));
    } else if Offset(3) in Accesses(op.code) {
      assert Local(2) in Accesses(op.code);
    } else {
      OnlyAccess(b, pc, op, builtins, Local(1));
    }
  }

  lemma AmountOperands(b: Bytecode, pc: int, op: Op, builtins: set<string>)
    requires Amount(1) in Accesses(op.code) && OpcodeArity(op.code) == Some(|op.operands|)
    ensures OperandsOk(b, pc, op, builtins) <==> AllInRange(b, pc, op, builtins)
  {
    OnlyAccess(b, pc, op, builtins, Amount(1));
  }

  lemma OffsetOperands(b: Bytecode, pc: int, op: Op, builtins: set<string>)
    requires Offset(1) in Accesses(op.code) && OpcodeArity(op.code) == Some(|op.operands|)
    ensures OperandsOk(b, pc, op, builtins) <==> AllInRange(b, pc, op, builtins)
  {
    OnlyAccess(b, pc, op, builtins, Offset(1));
  }

  lemma OtherOperands(b: Bytecode, pc: int, op: Op, builtins: set<string>)
    requires op.code.PUSH_LIT? || op.code.BUILTIN? || op.code.TRY_PUSH?
    requires OpcodeArity(op.code) == Some(|op.operands|)
    ensures OperandsOk(b, pc, op, builtins) <==> AllInRange(b, pc, op, builtins)
  {
    if op.code.PUSH_LIT? {
      OnlyAccess(b, pc, op, builtins, Literal(1));
    } else if op.code.BUILTIN? {
      TwoAccesses(b, pc, op, builtins, Callee(1), Amount(2));
    } else {
      TwoAccesses(b, pc, op, builtins, Entry(1), Errors(2));
    }
  }

  lemma OperandsAreAccesses(b: Bytecode, pc: int, op: Op, builtins: set<string>)
    requires OpcodeArity(op.code) == Some(|op.operands|)
    ensures OperandsOk(b, pc, op, builtins) <==> AllInRange(b, pc, op, builtins)
  {
    if Local(1) in Accesses(op.code) {
      LocalOperands(b, pc, op, builtins);
    } else if Amount(1) in Accesses(op.code) {
      AmountOperands(b, pc, op, builtins);
    } else if Offset(1) in Accesses(op.code) {
      OffsetOperands(b, pc, op, builtins);
    } else if op.code.PUSH_LIT? || op.code.BUILTIN? || op.code.TRY_PUSH? {
      OtherOperands(b, pc, op, builtins);
    }
  }

  /**
   * The shape check refuses exactly the rows with an unknown opcode, with more
   * or fewer cells than the interpreter reads, or with a cell out of the range
   * of what the interpreter uses it for.
   */
  lemma ShapeFaultExactly(b: Bytecode, pc: int, op: Op, builtins: set<string>)
    ensures ShapeFault(b, pc, op, builtins) == Some(UnknownOpcode) <==> op.code.Unlisted?
    ensures KnownRow(op) ==>
              (ShapeFault(b, pc, op, builtins) == Some(WrongArity) <==> |op.operands| != |Accesses(op.code)|)
    ensures KnownRow(op) && |op.operands| == |Accesses(op.code)| ==>
              (ShapeFault(b, pc, op, builtins) == Some(BadOperand)
               <==> exists a :: a in Accesses(op.code) && !InRange(b, pc, op, a, builtins))
    ensures ShapeFault(b, pc, op, builtins).None? <==>
              KnownRow(op) && |op.operands| == |Accesses(op.code)| && AllInRange(b, pc, op, builtins)
  {
    ArityIsAccesses(op.code);
    if OpcodeArity(op.code) == Some(|op.operands|) {
      OperandsAreAccesses(b, pc, op, builtins);
    }
  }

  lemma ShapedHasEffect(b: Bytecode, pc: int, op: Op, builtins: set<string>)
    requires ShapeFault(b, pc, op, builtins).None?
    ensures StackEffect(op).Some?
    ensures JumpOperand(op.code).Some? && !op.code.TRY_PUSH? ==> JumpCell(op, pc, JumpOperand(op.code).value).Some?
    ensures op.code.TRY_PUSH? ==> JumpOperand(op.code) == Some(1) && (JumpCell(op, pc, 1).Some? <==> IsOffset(op, 1))
  {
  }

  /**
   * The stack check of a row that passes the shape check refuses exactly the
   * heights at which the interpreter would run out of stack, and a protected
   * region with no room left for the error.
   */
  lemma RowFaultExactly(b: Bytecode, pc: int, h: nat, builtins: set<string>)
    requires HasRow(b, pc) && h <= b.maxStack && ShapeFault(b, pc, b.ops[pc], builtins).None?
    ensures FullScript(b.ops[pc]).Some?
    ensures var fault, outcome := RowFault(b, Config(pc, h)), Operate(FullScript(b.ops[pc]).value, h, b.maxStack);
            && (fault == Some(StackUnderflow) <==> outcome == Fault(Underflow))
            && (fault == Some(MaxStackTooSmall) <==> outcome == Fault(Overflow))
            && (fault.None? <==> outcome.Height? && (b.ops[pc].code.TRY_PUSH? ==> h < b.maxStack && IsOffset(b.ops[pc], 1)))
  {
    var op := b.ops[pc];
    ShapedHasEffect(b, pc, op, builtins);
    ScriptCounts(op);
    EffectTableExact(op, h, b.maxStack);
  }

  // ------------------------------------------------------------------- safety

  /** Bytecode the stack pass accepts. */
  ghost predicate Verified(b: Bytecode) {
    0 <= b.maxStack && StackSafe(FlowGraph(b))
  }

  /** What is known statically: which programs are verified, and where their control flow arrives. */
  datatype Atlas = Atlas(verified: iset<Bytecode>, arrivals: Bytecode -> iset<Config>)

  ghost function StaticAtlas(): Atlas {
    Atlas(iset b | Verified(b), (b: Bytecode) => if 0 <= b.maxStack then Reached(FlowGraph(b)) else iset{})
  }

  /** Control flow arrives here, inside the program's bounds and its stack. */
  ghost predicate Arrives(atlas: Atlas, b: Bytecode, pc: int, h: int) {
    Config(pc, h) in atlas.arrivals(b) && 0 <= pc <= |b.ops| && 0 <= h <= b.maxStack
  }

  /** A frame is where its own control flow can be, once the `owed` values it awaits have arrived. */
  ghost predicate FrameOk(atlas: Atlas, f: Frame, owed: nat) {
    && f.bytecode in atlas.verified
    && Arrives(atlas, f.bytecode, f.pc, f.height + owed)
    && forall h :: h in f.handlers ==> Arrives(atlas, f.bytecode, h.targetPc, h.stackDepth + 1)
  }

  /** Frames below a given depth each await one value. */
  ghost predicate WaitingOk(atlas: Atlas, frames: seq<Frame>, depth: nat)
    requires depth <= |frames|
  {
    forall i :: 0 <= i < depth ==> FrameOk(atlas, frames[i], 1)
  }

  ghost predicate SafeIn(atlas: Atlas, s: State) {
    match s
    case Running(frames) =>
      frames != [] ==> WaitingOk(atlas, frames, |frames| - 1) && FrameOk(atlas, frames[|frames| - 1], 0)
    case Broken => false
    case _ => true
  }

  ghost predicate Safe(s: State) {
    SafeIn(StaticAtlas(), s)
  }

  /** The static facts about a row: it cannot fault, and control flow arrives wherever it leads. */
  ghost predicate RowOk(atlas: Atlas, b: Bytecode, pc: int, h: int) {
    && HasRow(b, pc)
    && RowFault(b, Config(pc, h)).None?
    && forall e :: e in Edges(b, Config(pc, h)) ==> Arrives(atlas, b, e.pc, e.height)
  }

  /** Verified code arrives only inside its bounds and within its stack. */
  lemma ArrivalBounds(b: Bytecode, c: Config)
    requires Verified(b) && c in Reached(FlowGraph(b))
    ensures Arrives(StaticAtlas(), b, c.pc, c.height)
    ensures c.pc < |b.ops| ==> RowFault(b, c).None?
  {
    var g := FlowGraph(b);
    FlowGraphBounded(b);
    ReachedHeights(g, c);
    if c.pc != |b.ops| {
      var reason := if HasRow(b, c.pc) && RowFault(b, c).Some? then RowFault(b, c).value else LeavesBounds;
      assert !Explains(g, Reached(g), c.pc, reason);
      assert !FaultAt(g, c, reason);
    }
  }

  lemma VerifiedRow(b: Bytecode, pc: int, h: int)
    requires Verified(b) && Config(pc, h) in Reached(FlowGraph(b)) && pc < |b.ops|
    ensures RowOk(StaticAtlas(), b, pc, h)
  {
    var c := Config(pc, h);
    ArrivalBounds(b, c);
    ReachedIsClosed(FlowGraph(b));
    forall e | e in Edges(b, c) ensures Arrives(StaticAtlas(), b, e.pc, e.height) {
      assert FlowEdge(FlowGraph(b), c, e);
      ArrivalBounds(b, e);
    }
  }

  lemma VerifiedEntry(b: Bytecode)
    requires Verified(b)
    ensures FrameOk(StaticAtlas(), Enter(b), 0)
  {
    ReachedIsClosed(FlowGraph(b));
    ArrivalBounds(b, Config(0, 0));
  }

  /** A row whose static check passes executes without a stack fault, to the height the table gives. */
  lemma RowExecutes(b: Bytecode, pc: int, h: nat)
    requires HasRow(b, pc) && h <= b.maxStack && RowFault(b, Config(pc, h)).None?
    ensures var op, effect := b.ops[pc], StackEffect(b.ops[pc]).value;
            && Script(op).Some?
            && Operate(Script(op).value, h, b.maxStack).Height?
            && Operate(Script(op).value, h, b.maxStack).h == h + effect.delta - (if IsCall(op.code) then 1 else 0)
  {
    var op := b.ops[pc];
    EffectTableExact(op, h, b.maxStack);
    if IsCall(op.code) {
      CallScript(op, h, b.maxStack);
    }
  }

  lemma CallScript(op: Op, h: nat, max: int)
    requires IsCall(op.code) && StackEffect(op).Some? && h >= StackEffect(op).value.needs
    ensures Script(op).Some? && Operate(Script(op).value, h, max) == Height(h - StackEffect(op).value.needs)
  {
    var n := CountCell(op, 1).value;
    if op.code.CALL_VERB? {
      assert Pops(n) + [Pop, Pop] == Pops(n + 2);
      OperatePops(n + 2, h, max);
    } else {
      assert Pops(n) + [] == Pops(n);
      OperatePops(n, h, max);
    }
  }

  lemma {:induction false} CatchKeeps(handlers: seq<Handler>, code: string)
    ensures Catch(handlers, code).Some? ==>
              && Catch(handlers, code).value.0 in handlers
              && forall h :: h in Catch(handlers, code).value.1 ==> h in handlers
  {
    if handlers != [] {
      CatchKeeps(handlers[..|handlers| - 1], code);
    }
  }

  /** Unwinding never overfills a handler's frame and lands where control flow can be. */
  lemma {:induction false} RaiseSafe(atlas: Atlas, frames: seq<Frame>, owed: nat, code: string)
    requires frames != [] ==> WaitingOk(atlas, frames, |frames| - 1) && FrameOk(atlas, frames[|frames| - 1], owed)
    ensures SafeIn(atlas, Raise(frames, code))
  {
    if frames != [] {
      var n := |frames| - 1;
      var f := frames[n];
      CatchKeeps(f.handlers, code);
      if Catch(f.handlers, code).None? {
        RaiseSafe(atlas, frames[..n], 1, code);
      }
    }
  }

  lemma ReturnSafe(atlas: Atlas, frames: seq<Frame>)
    requires frames != [] && WaitingOk(atlas, frames, |frames| - 1)
    ensures SafeIn(atlas, Return(frames))
  {
    if |frames| > 1 {
      assert FrameOk(atlas, frames[|frames| - 2], 1);
    }
  }

  /** The offset the flow graph follows is the one the interpreter jumps by. */
  lemma LandingIsTarget(op: Op, pc: int)
    ensures JumpOperand(op.code).None? ==> Landing(op, pc).None?
    ensures JumpOperand(op.code).Some? && JumpCell(op, pc, JumpOperand(op.code).value).Some? ==>
              Landing(op, pc) == JumpCell(op, pc, JumpOperand(op.code).value)
    ensures op.code.JUMP? || op.code.TRY_PUSH? ==> JumpOperand(op.code).Some?
  {
  }

  /** Where the interpreter may go on from a row: the next row, its landing, or a handler just pushed. */
  function Onward(op: Op, pc: int, h: nat): seq<Config> {
    match Landing(op, pc)
    case None => [Config(pc + 1, h)]
    case Some(target) =>
      if op.code.JUMP? then [Config(target, h)]
      else if op.code.TRY_PUSH? then [Config(target, h + 1), Config(pc + 1, h)]
      else [Config(pc + 1, h), Config(target, h)]
  }

  lemma EdgesAreOnward(b: Bytecode, pc: int, height: nat, op: Op, h: nat)
    requires HasRow(b, pc) && op == b.ops[pc] && RowFault(b, Config(pc, height)).None?
    requires h == height + StackEffect(op).value.delta && !StackEffect(op).value.exits
    ensures Edges(b, Config(pc, height)) == Onward(op, pc, h)
  {
    LandingIsTarget(op, pc);
  }

  /** Where a handler is entered: with the error on top of the stack it saved. */
  function Entered(h: Handler): Config {
    Config(h.targetPc, h.stackDepth + 1)
  }

  lemma OnwardIsTaken(f: Frame, op: Op, h: nat, taken: bool)
    requires op.code.TRY_PUSH? ==> Landing(op, f.pc).Some?
    ensures var next, onward := Transfer(f, op, h, taken), Onward(op, f.pc, h);
            && Config(next.pc, h) in onward
            && forall k :: k in next.handlers ==> k in f.handlers || Entered(k) in onward
  {
    var onward := Onward(op, f.pc, h);
    assert onward[0] in onward;
    if |onward| == 2 { assert onward[1] in onward; }
  }

  /** A row that stays in its frame follows a control-flow edge and stacks a handler that flow can enter. */
  lemma TransferFollowsEdges(f: Frame, op: Op, h: nat, taken: bool)
    requires HasRow(f.bytecode, f.pc) && op == f.bytecode.ops[f.pc] && RowFault(f.bytecode, Config(f.pc, f.height)).None?
    requires h == f.height + StackEffect(op).value.delta && !StackEffect(op).value.exits
    ensures var next, edges := Transfer(f, op, h, taken), Edges(f.bytecode, Config(f.pc, f.height));
            && Config(next.pc, h) in edges
            && forall k :: k in next.handlers ==> k in f.handlers || Entered(k) in edges
  {
    EdgesAreOnward(f.bytecode, f.pc, f.height, op, h);
    LandingIsTarget(op, f.pc);
    OnwardIsTaken(f, op, h, taken);
  }

  /**
   * The flow graph has no edge too many: each one is where the interpreter goes
   * on for some outcome of the row's test, or where a handler it pushes is entered.
   */
  lemma EdgesAreTaken(f: Frame, op: Op, h: nat, e: Config)
    requires HasRow(f.bytecode, f.pc) && op == f.bytecode.ops[f.pc] && RowFault(f.bytecode, Config(f.pc, f.height)).None?
    requires h == f.height + StackEffect(op).value.delta && e in Edges(f.bytecode, Config(f.pc, f.height))
    ensures !Leaves(op.code)
    ensures || e == Config(Transfer(f, op, h, false).pc, h)
            || e == Config(Transfer(f, op, h, true).pc, h)
            || (op.code.TRY_PUSH? && exists k :: k in Transfer(f, op, h, false).handlers && e == Entered(k))
  {
    EdgesAreOnward(f.bytecode, f.pc, f.height, op, h);
    LandingIsTarget(op, f.pc);
    if op.code.TRY_PUSH? {
      var handlers := Transfer(f, op, h, false).handlers;
      assert handlers[|f.handlers|] in handlers;
    }
  }

  lemma TopReplaced(atlas: Atlas, frames: seq<Frame>, f: Frame)
    requires frames != [] && WaitingOk(atlas, frames, |frames| - 1) && FrameOk(atlas, f, 0)
    ensures SafeIn(atlas, Running(frames[..|frames| - 1] + [f]))
  {
  }

  lemma TransferSafe(atlas: Atlas, f: Frame, op: Op, h: nat, taken: bool)
    requires FrameOk(atlas, f, 0) && RowOk(atlas, f.bytecode, f.pc, f.height) && op == f.bytecode.ops[f.pc]
    requires h == f.height + StackEffect(op).value.delta && !StackEffect(op).value.exits
    ensures FrameOk(atlas, Transfer(f, op, h, taken), 0)
  {
    TransferFollowsEdges(f, op, h, taken);
  }

  lemma CallSafe(atlas: Atlas, frames: seq<Frame>, waiting: Frame, choice: Choice)
    requires frames != [] && SafeIn(atlas, Running(frames)) && FrameOk(atlas, waiting, 1)
    requires choice.Invoke? ==> FrameOk(atlas, Enter(choice.callee), 0)
    ensures SafeIn(atlas, Call(frames, waiting, choice))
  {
    RaiseSafe(atlas, frames, 0, "E_CALL_DEPTH");
    RaiseSafe(atlas, frames, 0, "E_COMPILE");
  }

  /** After its arguments are popped a calling frame is one value short of the row that follows. */
  lemma CallerWaits(atlas: Atlas, f: Frame, h: nat)
    requires FrameOk(atlas, f, 0) && RowOk(atlas, f.bytecode, f.pc, f.height)
    requires IsCall(f.bytecode.ops[f.pc].code) && h == f.height + StackEffect(f.bytecode.ops[f.pc]).value.delta - 1
    ensures FrameOk(atlas, f.(pc := f.pc + 1, height := h), 1)
  {
    assert Config(f.pc + 1, h + 1) in Edges(f.bytecode, Config(f.pc, f.height));
  }

  predicate Leaves(code: Opcode) {
    code.RETURN? || code.RAISE? || code.FAIL?
  }

  lemma CompleteSafe(atlas: Atlas, frames: seq<Frame>, op: Op, h: nat, choice: Choice)
    requires frames != [] && SafeIn(atlas, Running(frames))
    requires choice.Invoke? ==> FrameOk(atlas, Enter(choice.callee), 0)
    requires var f := frames[|frames| - 1];
             && (IsCall(op.code) ==> FrameOk(atlas, f.(pc := f.pc + 1, height := h), 1))
             && (!IsCall(op.code) && !Leaves(op.code) ==> FrameOk(atlas, Transfer(f, op, h, choice.Proceed? && choice.taken), 0))
    ensures SafeIn(atlas, Complete(frames, op, h, choice))
  {
    var f := frames[|frames| - 1];
    if op.code.RETURN? {
      ReturnSafe(atlas, frames);
    } else if Leaves(op.code) {
      RaiseSafe(atlas, frames, 0, if choice.Proceed? then choice.code else "E_INVARG");
    } else if IsCall(op.code) {
      CallSafe(atlas, frames, f.(pc := f.pc + 1, height := h), choice);
    } else if op.code.TRY_POP? && f.handlers == [] {
      RaiseSafe(atlas, frames, 0, "E_RANGE");
    } else {
      TopReplaced(atlas, frames, Transfer(f, op, h, choice.Proceed? && choice.taken));
    }
  }

  /** A row that passes its static check runs, and leaves its frame where control flow can be. */
  lemma RowOutcome(atlas: Atlas, f: Frame, op: Op, taken: bool) returns (h: nat)
    requires FrameOk(atlas, f, 0) && RowOk(atlas, f.bytecode, f.pc, f.height) && op == f.bytecode.ops[f.pc]
    ensures Script(op).Some? && Operate(Script(op).value, f.height, f.bytecode.maxStack) == Height(h)
    ensures IsCall(op.code) ==> FrameOk(atlas, f.(pc := f.pc + 1, height := h), 1)
    ensures !IsCall(op.code) && !Leaves(op.code) ==> FrameOk(atlas, Transfer(f, op, h, taken), 0)
  {
    RowExecutes(f.bytecode, f.pc, f.height);
    h := Operate(Script(op).value, f.height, f.bytecode.maxStack).h;
    if IsCall(op.code) {
      CallerWaits(atlas, f, h);
    } else if !Leaves(op.code) {
      TransferSafe(atlas, f, op, h, taken);
    }
  }

  lemma ExecuteSafe(atlas: Atlas, frames: seq<Frame>, choice: Choice)
    requires frames != [] && SafeIn(atlas, Running(frames))
    requires var f := frames[|frames| - 1]; RowOk(atlas, f.bytecode, f.pc, f.height)
    requires choice.Invoke? ==> FrameOk(atlas, Enter(choice.callee), 0)
    ensures SafeIn(atlas, Execute(frames, choice))
  {
    var f := frames[|frames| - 1];
    var op := f.bytecode.ops[f.pc];
    var h := RowOutcome(atlas, f, op, choice.Proceed? && choice.taken);
    CompleteSafe(atlas, frames, op, h, choice);
  }

  /** A step, given what is known statically of the row the machine is at and of the code it calls. */
  lemma StepSafeIn(atlas: Atlas, s: State, choice: Choice)
    requires SafeIn(atlas, s)
    requires s.Running? && s.frames != [] ==>
               var f := s.frames[|s.frames| - 1]; f.pc < |f.bytecode.ops| ==> RowOk(atlas, f.bytecode, f.pc, f.height)
    requires choice.Invoke? ==> FrameOk(atlas, Enter(choice.callee), 0)
    ensures SafeIn(atlas, Step(s, choice))
  {
    if s.Running? && s.frames != [] {
      var f := s.frames[|s.frames| - 1];
      if f.pc >= |f.bytecode.ops| {
        ReturnSafe(atlas, s.frames);
      } else if choice.Throw? {
        RaiseSafe(atlas, s.frames, 0, choice.code);
      } else if !choice.Signal? {
        ExecuteSafe(atlas, s.frames, choice);
      }
    }
  }

  /** The row a verified frame is at cannot fault. */
  lemma TopRowOk(f: Frame)
    requires FrameOk(StaticAtlas(), f, 0) && f.pc < |f.bytecode.ops|
    ensures RowOk(StaticAtlas(), f.bytecode, f.pc, f.height)
  {
    VerifiedRow(f.bytecode, f.pc, f.height);
  }

  lemma StepSafe(s: State, choice: Choice)
    requires Safe(s) && (choice.Invoke? ==> Verified(choice.callee))
    ensures Safe(Step(s, choice))
  {
    if s.Running? && s.frames != [] {
      var f := s.frames[|s.frames| - 1];
      if f.pc < |f.bytecode.ops| { TopRowOk(f); }
    }
    if choice.Invoke? { VerifiedEntry(choice.callee); }
    StepSafeIn(StaticAtlas(), s, choice);
  }

  /**
   * Every run of verified bytecode that calls only verified bytecode, whatever
   * its values, branches, calls, errors and signals, passes every stack check:
   * in each state every frame sits at a height its own control flow gives it,
   * and so does every handler a later error could enter.
   */
  lemma {:induction false} VerifiedRunsSafe(s: State, choices: seq<Choice>)
    requires Safe(s)
    requires forall k :: 0 <= k < |choices| ==> choices[k].Invoke? ==> Verified(choices[k].callee)
    ensures Safe(Run(s, choices))
    decreases |choices|
  {
    if choices != [] {
      StepSafe(s, choices[0]);
      VerifiedRunsSafe(Step(s, choices[0]), choices[1..]);
    }
  }

  /** A height table the verifier's pass produces for a program. */
  ghost predicate Certified(b: Bytecode, heights: map<int, int>) {
    0 <= b.maxStack && Certifies(FlowGraph(b), heights)
  }

  /** The running row is inside the code, at the recorded height. */
  ghost predicate RowRecorded(f: Frame, heights: map<int, int>) {
    && 0 <= f.pc <= |f.bytecode.ops| && f.height <= f.bytecode.maxStack
    && (f.pc < |f.bytecode.ops| ==> f.pc in heights && heights[f.pc] == f.height)
  }

  /** A handler's target has one more than the saved height on record, for the error it is entered with. */
  ghost predicate HandlerRecorded(f: Frame, heights: map<int, int>, h: Handler) {
    h.targetPc < |f.bytecode.ops| ==> h.targetPc in heights && heights[h.targetPc] == h.stackDepth + 1
  }

  lemma FrameRecorded(f: Frame, heights: map<int, int>)
    requires FrameOk(StaticAtlas(), f, 0) && Certified(f.bytecode, heights)
    ensures RowRecorded(f, heights) && forall h :: h in f.handlers ==> HandlerRecorded(f, heights, h)
  {
    CertifiedIsSafe(FlowGraph(f.bytecode), heights);
    forall h | h in f.handlers ensures HandlerRecorded(f, heights, h) {
      assert Arrives(StaticAtlas(), f.bytecode, h.targetPc, h.stackDepth + 1);
    }
  }

  /** In a safe state the top frame, and each handler it could enter, has the height the verifier recorded. */
  lemma RecordedHeights(s: State, heights: map<int, int>)
    requires s.Running? && s.frames != [] && Safe(s)
    requires Certified(s.frames[|s.frames| - 1].bytecode, heights)
    ensures var f := s.frames[|s.frames| - 1];
            RowRecorded(f, heights) && forall h :: h in f.handlers ==> HandlerRecorded(f, heights, h)
  {
    FrameRecorded(s.frames[|s.frames| - 1], heights);
  }

  // ------------------------------------------------------------ cells are in range

  /** Every row passes the shape check, and the program declares a number of locals. */
  ghost predicate Shaped(b: Bytecode, builtins: set<string>) {
    && 0 <= b.numLocals
    && forall pc :: 0 <= pc < |b.ops| ==> ShapeFault(b, pc, b.ops[pc], builtins).None?
  }

  /** Frames run code of the given kind, each with the locals its code declares. */
  ghost predicate Allotted(code: iset<Bytecode>, frames: seq<Frame>) {
    forall f :: f in frames ==> f.bytecode in code && f.locals == f.bytecode.numLocals
  }

  ghost predicate InOrder(code: iset<Bytecode>, s: State) {
    match s
    case Running(frames) => Allotted(code, frames)
    case Misread => false
    case _ => true
  }

  lemma {:induction false} RaiseInOrder(code: iset<Bytecode>, frames: seq<Frame>, error: string)
    requires Allotted(code, frames)
    ensures InOrder(code, Raise(frames, error))
  {
    if frames != [] {
      var n := |frames| - 1;
      if Catch(frames[n].handlers, error).None? { RaiseInOrder(code, frames[..n], error); }
    }
  }

  lemma CallInOrder(code: iset<Bytecode>, frames: seq<Frame>, waiting: Frame, choice: Choice)
    requires frames != [] && Allotted(code, frames) && Allotted(code, [waiting])
    requires choice.Invoke? ==> choice.callee in code && 0 <= choice.callee.numLocals
    ensures InOrder(code, Call(frames, waiting, choice))
  {
    assert waiting in [waiting];
    RaiseInOrder(code, frames, "E_CALL_DEPTH");
    RaiseInOrder(code, frames, "E_COMPILE");
  }

  lemma CompleteInOrder(code: iset<Bytecode>, frames: seq<Frame>, op: Op, h: nat, choice: Choice)
    requires frames != [] && Allotted(code, frames)
    requires choice.Invoke? ==> choice.callee in code && 0 <= choice.callee.numLocals
    ensures InOrder(code, Complete(frames, op, h, choice))
  {
    var f := frames[|frames| - 1];
    RaiseInOrder(code, frames, if choice.Proceed? then choice.code else "E_INVARG");
    RaiseInOrder(code, frames, "E_RANGE");
    CallInOrder(code, frames, f.(pc := f.pc + 1, height := h), choice);
  }

  /**
   * In a row that passes both checks every cell reads, whichever way the row
   * goes. The offset of a protected region is the one cell left to the stack
   * pass, so it is in order only where control flow arrives.
   */
  lemma ShapedRowReads(f: Frame, op: Op, builtins: set<string>, taken: bool)
    requires ShapeFault(f.bytecode, f.pc, op, builtins).None? && f.locals == f.bytecode.numLocals
    requires op.code.TRY_PUSH? ==> IsOffset(op, 1)
    ensures RowReadable(f, op, taken)
  {
    ShapeFaultExactly(f.bytecode, f.pc, op, builtins);
    forall a | a in Accesses(op.code) && Performs(op.code, a, taken) ensures Readable(f, op, a) {
      assert InRange(f.bytecode, f.pc, op, a, builtins);
    }
  }

  /** The row the machine is at has an offset wherever it enters a protected region. */
  ghost predicate EntryReads(s: State) {
    s.Running? && s.frames != [] ==>
      var f := s.frames[|s.frames| - 1];
      HasRow(f.bytecode, f.pc) && f.bytecode.ops[f.pc].code.TRY_PUSH? ==> IsOffset(f.bytecode.ops[f.pc], 1)
  }

  lemma SafeEntryReads(s: State)
    requires Safe(s)
    ensures EntryReads(s)
  {
    if s.Running? && s.frames != [] {
      var f := s.frames[|s.frames| - 1];
      if HasRow(f.bytecode, f.pc) && f.bytecode.ops[f.pc].code.TRY_PUSH? {
        TopRowOk(f);
        EntryIsOffset(f.bytecode, f.pc, f.height);
      }
    }
  }

  lemma EntryIsOffset(b: Bytecode, pc: int, h: int)
    requires HasRow(b, pc) && RowFault(b, Config(pc, h)).None? && b.ops[pc].code.TRY_PUSH?
    ensures IsOffset(b.ops[pc], 1)
  {
  }

  ghost predicate AllShaped(code: iset<Bytecode>, builtins: set<string>) {
    forall b :: b in code ==> Shaped(b, builtins)
  }

  lemma DeclaresLocals(code: iset<Bytecode>, builtins: set<string>, b: Bytecode)
    requires AllShaped(code, builtins) && b in code
    ensures 0 <= b.numLocals
  {
  }

  lemma TopRowReads(code: iset<Bytecode>, builtins: set<string>, f: Frame, taken: bool)
    requires AllShaped(code, builtins) && f.bytecode in code && f.locals == f.bytecode.numLocals && HasRow(f.bytecode, f.pc)
    requires f.bytecode.ops[f.pc].code.TRY_PUSH? ==> IsOffset(f.bytecode.ops[f.pc], 1)
    ensures RowReadable(f, f.bytecode.ops[f.pc], taken)
  {
    assert Shaped(f.bytecode, builtins);
    ShapedRowReads(f, f.bytecode.ops[f.pc], builtins, taken);
  }

  /** The row the machine is at reads its cells in range. */
  ghost predicate TopReads(s: State, taken: bool) {
    s.Running? && s.frames != [] ==>
      var f := s.frames[|s.frames| - 1];
      HasRow(f.bytecode, f.pc) ==> RowReadable(f, f.bytecode.ops[f.pc], taken)
  }

  /** A step whose row reads its cells in range keeps frames in order. */
  lemma ReadStepInOrder(code: iset<Bytecode>, s: State, choice: Choice)
    requires InOrder(code, s) && TopReads(s, choice.Proceed? && choice.taken)
    requires choice.Invoke? ==> choice.callee in code && 0 <= choice.callee.numLocals
    ensures InOrder(code, Step(s, choice))
  {
    if s.Running? && s.frames != [] {
      var f := s.frames[|s.frames| - 1];
      if HasRow(f.bytecode, f.pc) {
        if choice.Throw? {
          RaiseInOrder(code, s.frames, choice.code);
        } else if !choice.Signal? {
          ExecuteInOrder(code, s.frames, choice);
        }
      }
    }
  }

  lemma StateReads(code: iset<Bytecode>, builtins: set<string>, s: State, taken: bool)
    requires InOrder(code, s) && EntryReads(s) && AllShaped(code, builtins)
    ensures TopReads(s, taken)
  {
    if s.Running? && s.frames != [] {
      var f := s.frames[|s.frames| - 1];
      assert f in s.frames;
      if HasRow(f.bytecode, f.pc) {
        TopRowReads(code, builtins, f, taken);
      }
    }
  }

  lemma StepInOrder(code: iset<Bytecode>, builtins: set<string>, s: State, choice: Choice)
    requires InOrder(code, s) && EntryReads(s) && AllShaped(code, builtins)
    requires choice.Invoke? ==> choice.callee in code
    ensures InOrder(code, Step(s, choice))
  {
    StateReads(code, builtins, s, choice.Proceed? && choice.taken);
    if choice.Invoke? { DeclaresLocals(code, builtins, choice.callee); }
    ReadStepInOrder(code, s, choice);
  }

  lemma ExecuteInOrder(code: iset<Bytecode>, frames: seq<Frame>, choice: Choice)
    requires frames != [] && Allotted(code, frames)
    requires choice.Invoke? ==> choice.callee in code && 0 <= choice.callee.numLocals
    requires var f := frames[|frames| - 1];
             HasRow(f.bytecode, f.pc) && RowReadable(f, f.bytecode.ops[f.pc], choice.Proceed? && choice.taken)
    ensures InOrder(code, Execute(frames, choice))
  {
    var f := frames[|frames| - 1];
    var op := f.bytecode.ops[f.pc];
    if Script(op).Some? {
      match Operate(Script(op).value, f.height, f.bytecode.maxStack)
      case Fault(_) =>
      case Height(h) => CompleteInOrder(code, frames, op, h, choice);
    }
  }

  /** No run of installable code, from a safe state on, reads a cell out of range. */
  lemma {:induction false} RunsReadInRange(code: iset<Bytecode>, builtins: set<string>, s: State, choices: seq<Choice>)
    requires Safe(s) && InOrder(code, s) && AllShaped(code, builtins) && forall b :: b in code ==> Verified(b)
    requires forall k :: 0 <= k < |choices| ==> choices[k].Invoke? ==> choices[k].callee in code
    ensures Safe(Run(s, choices)) && InOrder(code, Run(s, choices))
    decreases |choices|
  {
    if choices != [] {
      SafeEntryReads(s);
      StepSafe(s, choices[0]);
      StepInOrder(code, builtins, s, choices[0]);
      RunsReadInRange(code, builtins, Step(s, choices[0]), choices[1..]);
    }
  }

  /**
   * The guarantee for installed code: starting a verb, no run ever fails a
   * stack check, and none reads a local, a literal or an operand out of range.
   */
  lemma InstalledRunsNeverFault(b: Bytecode, builtins: set<string>, choices: seq<Choice>)
    requires Installable(b, builtins)
    requires forall k :: 0 <= k < |choices| ==> choices[k].Invoke? ==> Installable(choices[k].callee, builtins)
    ensures Safe(Run(Running([Enter(b)]), choices))
    ensures !Run(Running([Enter(b)]), choices).Broken?
    ensures !Run(Running([Enter(b)]), choices).Misread?
  {
    VerifiedEntry(b);
    var code := iset p | Verified(p) && Shaped(p, builtins);
    RunsReadInRange(code, builtins, Running([Enter(b)]), choices);
  }

  /** Installed code never exceeds the limits the interpreter checks when it makes a frame. */
  lemma InstalledFits(b: Bytecode, builtins: set<string>)
    requires Installable(b, builtins)
    ensures RuntimeLimits(b) && Enter(b).locals == b.numLocals
  {
  }
}
