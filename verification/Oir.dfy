/** The integer part of the OIR intermediate representation and its interpreter: blocks with
    two-phase phis, a value environment and a flat memory.  Fixed-vector operations have their
    all-lanes meaning, so that one interpreter runs a function before and after scalarization. */
module Oir {
  import opened Wrappers

  /** `Undef` marks what the language leaves undefined: a dynamic lane index out of range. */
  datatype Exec<+T> = Ok(value: T) | Fail | Undef {
    predicate IsFailure() {
      !Ok?
    }

    function PropagateFailure<U>(): Exec<U>
      requires !Ok?
    {
      if Fail? then Fail else Undef
    }

    function Extract(): T
      requires Ok?
    {
      value
    }
  }

  /** What a scalar value created for one lane is for. */
  datatype Role = Address | Access | Active | Index | Combined | Compared | Picked

  /** Values of the source function, and the scalar values made for their lanes. */
  datatype Name =
    | Source(id: nat)
    | Lane(id: nat, lane: nat)
    | Temp(id: nat, lane: nat, role: Role)

  /** The blocks a source block is split into: one guard per conditional lane. */
  datatype Part = Head | Taken(guard: nat) | NotTaken(guard: nat) | Join(guard: nat)

  datatype Label = Label(block: nat, part: Part)

  datatype Operand = Int(n: int) | Constant(lanes: seq<int>) | Use(name: Name)

  datatype Value = Num(n: int) | Vec(lanes: seq<int>)

  datatype BinaryOp = Add | Sub | Mul | SDiv | SRem | And | Or | Xor

  datatype Pred = EQ | NE | LT | LE | GT | GE

  datatype Kind = AddAll | MulAll | AndAll | OrAll | XorAll | MinAll | MaxAll

  /** Active mask and explicit vector length of a predicated operation. */
  datatype Guard = Guard(mask: Operand, evl: Operand)

  /** Stores define no value; their `dst` only identifies them. */
  datatype Instr =
    | Binary(dst: Name, op: BinaryOp, lhs: Operand, rhs: Operand)
    | Compare(dst: Name, pred: Pred, lhs: Operand, rhs: Operand)
    | ZExt(dst: Name, src: Operand)
    | Gep(dst: Name, base: Operand, index: Operand)
    | Load(dst: Name, ptr: Operand)
    | Store(dst: Name, element: Operand, ptr: Operand)
    | Splat(dst: Name, width: nat, scalar: Operand)
    | StepVector(dst: Name, width: nat)
    | VectorBinary(dst: Name, width: nat, op: BinaryOp, lhs: Operand, rhs: Operand)
    | VectorCompare(dst: Name, width: nat, pred: Pred, lhs: Operand, rhs: Operand)
    | VectorCast(dst: Name, width: nat, src: Operand)
    | Select(dst: Name, width: nat, condition: Operand, onTrue: Operand, onFalse: Operand)
    | Shuffle(dst: Name, width: nat, sourceWidth: nat, lhs: Operand, rhs: Operand, indices: seq<nat>)
    | InsertElement(dst: Name, width: nat, vector: Operand, element: Operand, index: Operand)
    | VPBinary(dst: Name, width: nat, op: BinaryOp, lhs: Operand, rhs: Operand, guard: Guard, passthrough: Operand)
    | VPCompare(dst: Name, width: nat, pred: Pred, lhs: Operand, rhs: Operand, guard: Guard, passthrough: Operand)
    | MaskedLoad(dst: Name, width: nat, ptr: Operand, guard: Guard, passthrough: Operand)
    | Gather(dst: Name, width: nat, base: Operand, indices': Operand, guard: Guard, passthrough: Operand)
    | MaskedStore(dst: Name, width: nat, values: Operand, ptr: Operand, guard: Guard)
    | Scatter(dst: Name, width: nat, values: Operand, base: Operand, indices': Operand, guard: Guard)
    | ExtractElement(dst: Name, width: nat, vector: Operand, index: Operand)
    | Reduce(dst: Name, width: nat, kind: Kind, vector: Operand, guard: Guard, seed: Operand)

  datatype Phi = Phi(dst: Name, width: Option<nat>, incoming: seq<Incoming>)

  datatype Incoming = Incoming(from: Label, operand: Operand)

  datatype Terminator =
    | Br(target: Label)
    | CondBr(condition: Operand, onTrue: Label, onFalse: Label)
    | Ret(result: Operand)

  datatype Block = Block(phis: seq<Phi>, body: seq<Instr>, terminator: Terminator)

  datatype Function = Function(args: seq<Name>, entry: Label, blocks: map<Label, Block>)

  type Env = map<Name, Value>

  datatype State = State(env: Env, memory: seq<int>)

  datatype Config = Config(block: Label, predecessor: Option<Label>, state: State)

  datatype Outcome = Running(config: Config) | Returned(result: int, memory: seq<int>) | Failed | Undefined

  // ---------------------------------------------------------------- scalar operations

  /** C++ division truncates toward zero. */
  function Quotient(x: int, y: int): int
    requires y != 0
  {
    if (x >= 0) == (y > 0) then Abs(x) / Abs(y) else -(Abs(x) / Abs(y))
  }

  function Abs(x: int): int {
    if x < 0 then -x else x
  }

  /** Two's complement bitwise operation on unbounded integers. */
  function Bitwise(op: BinaryOp, x: int, y: int): int
    requires op.And? || op.Or? || op.Xor?
    decreases Abs(x) + Abs(y)
  {
    if (x == 0 || x == -1) && (y == 0 || y == -1) then
      match op
      case And => if x == -1 && y == -1 then -1 else 0
      case Or => if x == -1 || y == -1 then -1 else 0
      case Xor => if x != y then -1 else 0
    else
      var b := match op
        case And => if x % 2 == 1 && y % 2 == 1 then 1 else 0
        case Or => if x % 2 == 1 || y % 2 == 1 then 1 else 0
        case Xor => if x % 2 != y % 2 then 1 else 0;
      b + 2 * Bitwise(op, x / 2, y / 2)
  }

  function Apply(op: BinaryOp, x: int, y: int): Exec<int> {
    match op
    case Add => Ok(x + y)
    case Sub => Ok(x - y)
    case Mul => Ok(x * y)
    case SDiv => if y == 0 then Fail else Ok(Quotient(x, y))
    case SRem => if y == 0 then Fail else Ok(x - y * Quotient(x, y))
    case _ => Ok(Bitwise(op, x, y))
  }

  function Holds(pred: Pred, x: int, y: int): int {
    var b := match pred
      case EQ => x == y
      case NE => x != y
      case LT => x < y
      case LE => x <= y
      case GT => x > y
      case GE => x >= y;
    if b then 1 else 0
  }

  function ReadMemory(memory: seq<int>, address: int): Exec<int> {
    if 0 <= address < |memory| then Ok(memory[address]) else Fail
  }

  function WriteMemory(memory: seq<int>, address: int, x: int): Exec<seq<int>> {
    if 0 <= address < |memory| then Ok(memory[address := x]) else Fail
  }

  // ---------------------------------------------------------------- operands

  function Eval(o: Operand, env: Env): Exec<Value> {
    match o
    case Int(n) => Ok(Num(n))
    case Constant(lanes) => Ok(Vec(lanes))
    case Use(name) => if name in env then Ok(env[name]) else Fail
  }

  function EvalNum(o: Operand, env: Env): Exec<int> {
    var v :- Eval(o, env);
    if v.Num? then Ok(v.n) else Fail
  }

  /** Lane `k` of a vector operand of `width` lanes. */
  function LaneAt(o: Operand, k: nat, width: nat, env: Env): Exec<int> {
    var v :- Eval(o, env);
    if v.Vec? && |v.lanes| == width && k < width then Ok(v.lanes[k]) else Fail
  }

  /** A lane accesses memory or computes only when it is below the vector length and its mask bit
      is set. */
  function ActiveAt(g: Guard, k: nat, width: nat, env: Env): Exec<bool> {
    var evl :- EvalNum(g.evl, env);
    var bit :- LaneAt(g.mask, k, width, env);
    Ok(k < evl && bit != 0)
  }

  // ---------------------------------------------------------------- vector operations

  predicate LaneWise(i: Instr) {
    i.Splat? || i.StepVector? || i.VectorBinary? || i.VectorCompare? || i.VectorCast? || i.Select? || i.Shuffle?
    || i.InsertElement? || i.VPBinary? || i.VPCompare? || i.MaskedLoad? || i.Gather?
  }

  /** Lane `k` of the result of a lane-wise operation. */
  function LaneMeaning(i: Instr, k: nat, s: State): Exec<int>
    requires LaneWise(i)
  {
    match i
    case Splat(_, _, scalar) => EvalNum(scalar, s.env)
    case StepVector(_, _) => Ok(k)
    case VectorBinary(_, w, op, lhs, rhs) =>
      var x :- LaneAt(lhs, k, w, s.env);
      var y :- LaneAt(rhs, k, w, s.env);
      Apply(op, x, y)
    case VectorCompare(_, w, pred, lhs, rhs) =>
      var x :- LaneAt(lhs, k, w, s.env);
      var y :- LaneAt(rhs, k, w, s.env);
      Ok(Holds(pred, x, y))
    case VectorCast(_, w, src) => LaneAt(src, k, w, s.env)
    case Select(_, w, condition, onTrue, onFalse) =>
      var c :- LaneAt(condition, k, w, s.env);
      var x :- LaneAt(onTrue, k, w, s.env);
      var y :- LaneAt(onFalse, k, w, s.env);
      Ok(if c != 0 then x else y)
    case Shuffle(_, _, sw, lhs, rhs, indices) =>
      if k < |indices| then
        (if indices[k] < sw then LaneAt(lhs, indices[k], sw, s.env) else LaneAt(rhs, indices[k] - sw, sw, s.env))
      else Fail
    case InsertElement(_, w, vector, element, index) =>
      var j :- EvalNum(index, s.env);
      var x :- EvalNum(element, s.env);
      var y :- LaneAt(vector, k, w, s.env);
      if 0 <= j < w then Ok(if j == k then x else y) else Undef
    case VPBinary(_, w, op, lhs, rhs, guard, passthrough) =>
      var active :- ActiveAt(guard, k, w, s.env);
      var x :- LaneAt(lhs, k, w, s.env);
      var y :- LaneAt(rhs, k, w, s.env);
      if active then Apply(op, x, y) else LaneAt(passthrough, k, w, s.env)
    case VPCompare(_, w, pred, lhs, rhs, guard, passthrough) =>
      var active :- ActiveAt(guard, k, w, s.env);
      var x :- LaneAt(lhs, k, w, s.env);
      var y :- LaneAt(rhs, k, w, s.env);
      if active then Ok(Holds(pred, x, y)) else LaneAt(passthrough, k, w, s.env)
    case MaskedLoad(_, w, ptr, guard, passthrough) =>
      var active :- ActiveAt(guard, k, w, s.env);
      var p :- EvalNum(ptr, s.env);
      if active then ReadMemory(s.memory, p + k) else LaneAt(passthrough, k, w, s.env)
    case Gather(_, w, base, indices, guard, passthrough) =>
      var active :- ActiveAt(guard, k, w, s.env);
      var p :- EvalNum(base, s.env);
      var j :- LaneAt(indices, k, w, s.env);
      if active then ReadMemory(s.memory, p + j) else LaneAt(passthrough, k, w, s.env)
  }

  /** One more lane of a result. */
  function AddLane(xs: Exec<seq<int>>, x: Exec<int>): Exec<seq<int>> {
    var lanes :- xs;
    var lane :- x;
    Ok(lanes + [lane])
  }

  /** All lanes of the result; every lane reads the state before the operation. */
  function AllLanes(i: Instr, n: nat, s: State): (r: Exec<seq<int>>)
    requires LaneWise(i)
    ensures r.Ok? ==> |r.value| == n
  {
    if n == 0 then Ok([]) else AddLane(AllLanes(i, n - 1, s), LaneMeaning(i, n - 1, s))
  }

  predicate Storing(i: Instr) {
    i.MaskedStore? || i.Scatter?
  }

  /** The address lane `k` of a store writes. */
  function StoreAddress(i: Instr, k: nat, env: Env): Exec<int>
    requires Storing(i)
  {
    match i
    case MaskedStore(_, _, _, ptr, _) =>
      var p :- EvalNum(ptr, env);
      Ok(p + k)
    case Scatter(_, w, _, base, indices, _) =>
      var p :- EvalNum(base, env);
      var j :- LaneAt(indices, k, w, env);
      Ok(p + j)
  }

  /** The effect of lane `k` on a memory. */
  function LaneEffect(i: Instr, k: nat, env: Env, memory: seq<int>): Exec<seq<int>>
    requires Storing(i)
  {
    var active :- ActiveAt(i.guard, k, i.width, env);
    var x :- LaneAt(i.values, k, i.width, env);
    var address :- StoreAddress(i, k, env);
    if active then WriteMemory(memory, address, x) else Ok(memory)
  }

  /** The first `n` lanes take effect in lane order. */
  function AllEffects(i: Instr, n: nat, s: State): Exec<seq<int>>
    requires Storing(i)
  {
    if n == 0 then Ok(s.memory)
    else
      var memory :- AllEffects(i, n - 1, s);
      LaneEffect(i, n - 1, s.env, memory)
  }

  function CombineLane(kind: Kind, acc: int, x: int): int {
    match kind
    case AddAll => acc + x
    case MulAll => acc * x
    case AndAll => Bitwise(And, acc, x)
    case OrAll => Bitwise(Or, acc, x)
    case XorAll => Bitwise(Xor, acc, x)
    case MinAll => if x < acc then x else acc
    case MaxAll => if x > acc then x else acc
  }

  /** The accumulator after lane `k`, which takes part when it is active. */
  function ReduceLane(i: Instr, k: nat, acc: Exec<int>, env: Env): Exec<int>
    requires i.Reduce?
  {
    var a :- acc;
    var x :- LaneAt(i.vector, k, i.width, env);
    var active :- ActiveAt(i.guard, k, i.width, env);
    Ok(if active then CombineLane(i.kind, a, x) else a)
  }

  /** Active lanes are combined into the seed in lane order. */
  function ReduceLanes(i: Instr, n: nat, s: State): Exec<int>
    requires i.Reduce?
  {
    if n == 0 then EvalNum(i.seed, s.env) else ReduceLane(i, n - 1, ReduceLanes(i, n - 1, s), s.env)
  }

  function ExtractLane(i: Instr, s: State): Exec<int>
    requires i.ExtractElement?
  {
    var v :- Eval(i.vector, s.env);
    var j :- EvalNum(i.index, s.env);
    if !(v.Vec? && |v.lanes| == i.width && i.width > 0) then Fail
    else if 0 <= j < i.width then Ok(v.lanes[j])
    else Undef
  }

  function Define(s: State, dst: Name, v: Value): State {
    s.(env := s.env[dst := v])
  }

  function RunInstr(i: Instr, s: State): Exec<State> {
    match i
    case Binary(dst, op, lhs, rhs) =>
      var x :- EvalNum(lhs, s.env);
      var y :- EvalNum(rhs, s.env);
      var r :- Apply(op, x, y);
      Ok(Define(s, dst, Num(r)))
    case Compare(dst, pred, lhs, rhs) =>
      var x :- EvalNum(lhs, s.env);
      var y :- EvalNum(rhs, s.env);
      Ok(Define(s, dst, Num(Holds(pred, x, y))))
    case ZExt(dst, src) =>
      var x :- EvalNum(src, s.env);
      Ok(Define(s, dst, Num(x)))
    case Gep(dst, base, index) =>
      var x :- EvalNum(base, s.env);
      var y :- EvalNum(index, s.env);
      Ok(Define(s, dst, Num(x + y)))
    case Load(dst, ptr) =>
      var p :- EvalNum(ptr, s.env);
      var x :- ReadMemory(s.memory, p);
      Ok(Define(s, dst, Num(x)))
    case Store(_, element, ptr) =>
      var p :- EvalNum(ptr, s.env);
      var x :- EvalNum(element, s.env);
      var memory :- WriteMemory(s.memory, p, x);
      Ok(s.(memory := memory))
    case MaskedStore(_, w, _, _, _) =>
      var memory :- AllEffects(i, w, s);
      Ok(s.(memory := memory))
    case Scatter(_, w, _, _, _, _) =>
      var memory :- AllEffects(i, w, s);
      Ok(s.(memory := memory))
    case ExtractElement(dst, _, _, _) =>
      var x :- ExtractLane(i, s);
      Ok(Define(s, dst, Num(x)))
    case Reduce(dst, w, _, _, _, _) =>
      var x :- ReduceLanes(i, w, s);
      Ok(Define(s, dst, Num(x)))
    case _ =>
      var lanes :- AllLanes(i, i.width, s);
      Ok(Define(s, i.dst, Vec(lanes)))
  }

  function RunBody(body: seq<Instr>, s: State): Exec<State> {
    if body == [] then Ok(s)
    else
      var s' :- RunInstr(body[0], s);
      RunBody(body[1..], s')
  }

  // ---------------------------------------------------------------- phis and control flow

  /** The operand of the first incoming edge from the predecessor. */
  function IncomingFrom(incoming: seq<Incoming>, predecessor: Option<Label>): Exec<Operand> {
    if incoming == [] || predecessor.None? then Fail
    else if incoming[0].from == predecessor.value then Ok(incoming[0].operand)
    else IncomingFrom(incoming[1..], predecessor)
  }

  /** First phase: every phi reads the environment of the edge. */
  function ReadPhis(phis: seq<Phi>, predecessor: Option<Label>, env: Env): (r: Exec<seq<Value>>)
    ensures r.Ok? ==> |r.value| == |phis|
  {
    if phis == [] then Ok([])
    else
      var o :- IncomingFrom(phis[0].incoming, predecessor);
      var v :- Eval(o, env);
      var vs :- ReadPhis(phis[1..], predecessor, env);
      Ok([v] + vs)
  }

  /** Second phase: the values read are assigned. */
  function AssignPhis(phis: seq<Phi>, values: seq<Value>, env: Env): Env
    requires |phis| == |values|
  {
    if phis == [] then env
    else AssignPhis(phis[1..], values[1..], env[phis[0].dst := values[0]])
  }

  function RunPhis(phis: seq<Phi>, predecessor: Option<Label>, env: Env): Exec<Env> {
    var values :- ReadPhis(phis, predecessor, env);
    Ok(AssignPhis(phis, values, env))
  }

  function Stop<T>(e: Exec<T>): Outcome
    requires !e.Ok?
  {
    if e.Fail? then Failed else Undefined
  }

  function RunTerminator(t: Terminator, at: Label, s: State): Outcome {
    match t
    case Br(target) => Running(Config(target, Some(at), s))
    case CondBr(condition, onTrue, onFalse) =>
      var c := EvalNum(condition, s.env);
      if c.Ok? then Running(Config(if c.value != 0 then onTrue else onFalse, Some(at), s)) else Stop(c)
    case Ret(result) =>
      var r := EvalNum(result, s.env);
      if r.Ok? then Returned(r.value, s.memory) else Stop(r)
  }

  function RunBlock(b: Block, c: Config): Outcome {
    var env := RunPhis(b.phis, c.predecessor, c.state.env);
    if !env.Ok? then Stop(env)
    else
      var s := RunBody(b.body, c.state.(env := env.value));
      if !s.Ok? then Stop(s) else RunTerminator(b.terminator, c.block, s.value)
  }

  function StepBlock(f: Function, c: Config): Outcome {
    if c.block in f.blocks then RunBlock(f.blocks[c.block], c) else Failed
  }

  /** At most `steps` blocks. */
  function Execute(f: Function, c: Config, steps: nat): Outcome
    decreases steps
  {
    if steps == 0 then Running(c)
    else
      var o := StepBlock(f, c);
      if o.Running? then Execute(f, o.config, steps - 1) else o
  }

  function ArgumentEnv(args: seq<Name>, arguments: seq<int>): Env
    requires |args| == |arguments|
  {
    if args == [] then map[]
    else ArgumentEnv(args[..|args| - 1], arguments[..|args| - 1])[args[|args| - 1] := Num(arguments[|args| - 1])]
  }

  function StartConfig(f: Function, arguments: seq<int>, memory: seq<int>): Config
    requires |f.args| == |arguments|
  {
    Config(f.entry, None, State(ArgumentEnv(f.args, arguments), memory))
  }

  lemma {:induction false} ExecuteCompose(f: Function, c: Config, n: nat, m: nat)
    ensures var o := Execute(f, c, n);
            Execute(f, c, n + m) == if o.Running? then Execute(f, o.config, m) else o
    decreases n
  {
    if n > 0 {
      var o := StepBlock(f, c);
      if o.Running? {
        ExecuteCompose(f, o.config, n - 1, m);
      }
    }
  }

  lemma {:induction false} RunBodyAppend(a: seq<Instr>, b: seq<Instr>, s: State)
    ensures var r := RunBody(a, s);
            RunBody(a + b, s) == if r.Ok? then RunBody(b, r.value) else r
  {
    if a == [] {
      assert a + b == b;
    } else {
      assert (a + b)[1..] == a[1..] + b;
      var s' := RunInstr(a[0], s);
      if s'.Ok? {
        RunBodyAppend(a[1..], b, s'.value);
      }
    }
  }

  predicate Final(o: Outcome) {
    !o.Running?
  }

  /** A finished run stays finished. */
  lemma {:induction false} FinalStays(f: Function, c: Config, n: nat, m: nat)
    requires n <= m && Final(Execute(f, c, n))
    ensures Execute(f, c, m) == Execute(f, c, n)
  {
    ExecuteCompose(f, c, n, m - n);
  }
}
