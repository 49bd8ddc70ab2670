// A stack-machine IL in the shape Cecil shows it: instructions with an identity, branches that name the instruction
// they go to (not an offset), an evaluation stack and local variables.
module IlMachine {

  type Id = nat
  // Everything outside the evaluation stack and the locals: heap, statics, I/O.
  type World = int

  datatype Value = Int32(n: int) | Int64(n: int) | Text(s: string) | NullRef | Other(v: int)

  datatype Op =
    | Nop
    | LdcI4(n: int)
    | LdcI8(n: int)
    | Dup
    | ConvI8
    | Ldloc(k: nat)
    | Stloc(k: nat)
    | CallStringCompare(code: nat)       // String.Equals, op_Equality, StartsWith, EndsWith, Contains on plain strings
    | Ceq
    | Beq(target: Id)
    | BneUn(target: Id)
    | Jump(code: nat, targets: seq<Id>)  // br, brtrue, blt, switch, ...
    | Ret
    | Plain(code: nat)                   // any other instruction that falls through
    | RecordString                       // CmpLogProbe.RecordString(string, string)
    | RecordInt                          // CmpLogProbe.RecordInt(long)

  datatype Instr = Instr(id: Id, op: Op)

  datatype Record = Strings(a: Value, b: Value) | Int(n: int)

  // What instructions outside this model do, and what comparisons answer.
  datatype Effect = Next(stack: seq<Value>, world: World) | Raise(exception: int, world: World) | Invalid
  datatype JumpEffect = Fall(stack: seq<Value>, world: World) | Go(stack: seq<Value>, world: World, index: nat)
      | BadJump
  datatype Answer = Answers(b: bool) | Throws(exception: int)

  datatype Env = Env(
    plain: (nat, seq<Value>, World) -> Effect,
    jump: (nat, seq<Value>, World) -> JumpEffect,
    compare: (nat, Value, Value) -> Answer,
    equal: (Value, Value) -> bool,
    unequal: (Value, Value) -> bool)

  datatype Machine =
    | Running(pc: nat, stack: seq<Value>, locals: seq<Value>, world: World, log: seq<Record>)
    | Returned(stack: seq<Value>, world: World, log: seq<Record>)
    | Thrown(exception: int, world: World, log: seq<Record>)
    | Stuck  // code no verifier would accept, or control past the last instruction

  // Position of the instruction with this identity, |body| if there is none.
  function IndexOf(body: seq<Instr>, id: Id): (i: nat)
    ensures i <= |body|
    ensures i < |body| ==> body[i].id == id
  {
    if body == [] then 0 else if body[0].id == id then 0 else 1 + IndexOf(body[1..], id)
  }

  predicate IsStringValue(v: Value) {
    v.Text? || v.NullRef?
  }

  predicate TwoStrings(stack: seq<Value>) {
    |stack| >= 2 && IsStringValue(stack[|stack| - 1]) && IsStringValue(stack[|stack| - 2])
  }

  function Top(stack: seq<Value>): Value
    requires stack != []
  {
    stack[|stack| - 1]
  }

  function Below(stack: seq<Value>): Value
    requires |stack| >= 2
  {
    stack[|stack| - 2]
  }

  function Pop(stack: seq<Value>, n: nat): seq<Value>
    requires n <= |stack|
  {
    stack[..|stack| - n]
  }

  function Goto(body: seq<Instr>, m: Machine, stack: seq<Value>, world: World, target: Id): Machine
    requires m.Running?
  {
    var i := IndexOf(body, target);
    if i == |body| then Stuck else Running(i, stack, m.locals, world, m.log)
  }

  function Advance(m: Machine, stack: seq<Value>): Machine
    requires m.Running?
  {
    Running(m.pc + 1, stack, m.locals, m.world, m.log)
  }

  // The instruction about to run transfers control elsewhere.
  predicate Jumps(env: Env, op: Op, m: Machine)
    requires m.Running?
  {
    match op
    case Beq(_) => |m.stack| >= 2 && env.equal(Below(m.stack), Top(m.stack))
    case BneUn(_) => |m.stack| >= 2 && env.unequal(Below(m.stack), Top(m.stack))
    case Jump(code, _) => env.jump(code, m.stack, m.world).Go?
    case _ => false
  }

  function Exec(env: Env, body: seq<Instr>, op: Op, m: Machine): Machine
    requires m.Running?
  {
    var stack := m.stack;
    match op
    case Nop => Advance(m, stack)
    case LdcI4(n) => Advance(m, stack + [Int32(n)])
    case LdcI8(n) => Advance(m, stack + [Int64(n)])
    case Dup => if stack == [] then Stuck else Advance(m, stack + [Top(stack)])
    case ConvI8 =>
      if stack != [] && (Top(stack).Int32? || Top(stack).Int64?)
      then Advance(m, Pop(stack, 1) + [Int64(Top(stack).n)]) else Stuck
    case Ldloc(k) => if k < |m.locals| then Advance(m, stack + [m.locals[k]]) else Stuck
    case Stloc(k) =>
      if k < |m.locals| && stack != []
      then Running(m.pc + 1, Pop(stack, 1), m.locals[k := Top(stack)], m.world, m.log) else Stuck
    case CallStringCompare(code) =>
      if !TwoStrings(stack) then Stuck
      else
        (match env.compare(code, Below(stack), Top(stack))
         case Answers(b) => Advance(m, Pop(stack, 2) + [Int32(if b then 1 else 0)])
         case Throws(e) => Thrown(e, m.world, m.log))
    case Ceq =>
      if |stack| < 2 then Stuck
      else Advance(m, Pop(stack, 2) + [Int32(if env.equal(Below(stack), Top(stack)) then 1 else 0)])
    case Beq(target) =>
      if |stack| < 2 then Stuck
      else if Jumps(env, op, m) then Goto(body, m, Pop(stack, 2), m.world, target)
      else Advance(m, Pop(stack, 2))
    case BneUn(target) =>
      if |stack| < 2 then Stuck
      else if Jumps(env, op, m) then Goto(body, m, Pop(stack, 2), m.world, target)
      else Advance(m, Pop(stack, 2))
    case Jump(code, targets) =>
      (match env.jump(code, stack, m.world)
       case Fall(s, w) => Running(m.pc + 1, s, m.locals, w, m.log)
       case Go(s, w, index) => if index < |targets| then Goto(body, m, s, w, targets[index]) else Stuck
       case BadJump => Stuck)
    case Ret => Returned(stack, m.world, m.log)
    case Plain(code) =>
      (match env.plain(code, stack, m.world)
       case Next(s, w) => Running(m.pc + 1, s, m.locals, w, m.log)
       case Raise(e, w) => Thrown(e, w, m.log)
       case Invalid => Stuck)
    case RecordString =>
      if TwoStrings(stack)
      then Running(m.pc + 1, Pop(stack, 2), m.locals, m.world, m.log + [Strings(Below(stack), Top(stack))]) else Stuck
    case RecordInt =>
      if stack != [] && Top(stack).Int64?
      then Running(m.pc + 1, Pop(stack, 1), m.locals, m.world, m.log + [Int(Top(stack).n)]) else Stuck
  }

  function Step(env: Env, body: seq<Instr>, m: Machine): Machine {
    if !m.Running? then m
    else if m.pc < |body| then Exec(env, body, body[m.pc].op, m)
    else Stuck
  }

  function Run(env: Env, body: seq<Instr>, m: Machine, n: nat): Machine
    decreases n, body
  {
    if n == 0 then m else Run(env, body, Step(env, body, m), n - 1)
  }

  lemma {:induction false} RunAdd(env: Env, body: seq<Instr>, m: Machine, a: nat, b: nat)
    ensures Run(env, body, m, a + b) == Run(env, body, Run(env, body, m, a), b)
    decreases a
  {
    if a > 0 {
      RunAdd(env, body, Step(env, body, m), a - 1, b);
    }
  }

  // Once stopped, stopped for good.
  lemma {:induction false} RunStopped(env: Env, body: seq<Instr>, m: Machine, n: nat)
    requires !m.Running?
    ensures Run(env, body, m, n) == m
  {
    if n > 0 {
      RunStopped(env, body, m, n - 1);
    }
  }
}
