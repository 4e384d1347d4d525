/** Lowering of one instruction to scalar code.  A vector value becomes a list of scalar operands,
    one per lane; conditional lanes become guarded diamonds, which are kept structured here and
    laid out as blocks by `GuardLayout`. */
module LaneLowering {
  import opened Wrappers
  import opened Oir

  /** The phi that joins the two arms of a diamond. */
  datatype Merge = Merge(dst: Name, taken: Operand, otherwise: Operand)

  datatype Item =
    | Plain(instr: Instr)
    | Diamond(condition: Operand, taken: seq<Instr>, merge: Option<Merge>)

  /** What stands for a source value: one operand, or one operand per lane. */
  datatype Lowered = One(operand: Operand) | Many(operands: seq<Operand>)

  type LaneMap = map<Name, Lowered>

  /** Scalar code for one lane and the operand that holds its result. */
  datatype LaneCode = LaneCode(items: seq<Item>, result: Operand)

  /** Scalar code for an instruction and what its value becomes; stores define nothing. */
  datatype Code = Code(items: seq<Item>, lowered: Option<Lowered>)

  // ---------------------------------------------------------------- structured execution

  function RunMerge(operand: Operand, merge: Option<Merge>, s: State): Exec<State> {
    match merge
    case None => Ok(s)
    case Some(m) =>
      var v :- Eval(operand, s.env);
      Ok(Define(s, m.dst, v))
  }

  function RunItem(item: Item, s: State): Exec<State> {
    match item
    case Plain(instr) => RunInstr(instr, s)
    case Diamond(condition, taken, merge) =>
      var c :- EvalNum(condition, s.env);
      if c != 0 then
        var s' :- RunBody(taken, s);
        RunMerge(if merge.Some? then merge.value.taken else Int(0), merge, s')
      else
        RunMerge(if merge.Some? then merge.value.otherwise else Int(0), merge, s)
  }

  function RunItems(items: seq<Item>, s: State): Exec<State> {
    if items == [] then Ok(s)
    else
      var s' :- RunItem(items[0], s);
      RunItems(items[1..], s')
  }

  lemma {:induction false} RunItemsAppend(a: seq<Item>, b: seq<Item>, s: State)
    ensures var r := RunItems(a, s);
            RunItems(a + b, s) == if r.Ok? then RunItems(b, r.value) else r
  {
    if a == [] {
      assert a + b == b;
    } else {
      assert (a + b)[1..] == a[1..] + b;
      var s' := RunItem(a[0], s);
      if s'.Ok? {
        RunItemsAppend(a[1..], b, s'.value);
      }
    }
  }

  // ---------------------------------------------------------------- operands

  function ScalarOf(o: Operand, map': LaneMap): Option<Operand> {
    match o
    case Int(_) => Some(o)
    case Constant(_) => None
    case Use(name) => if name in map' && map'[name].One? then Some(map'[name].operand) else None
  }

  function IntOperands(lanes: seq<int>): (r: seq<Operand>)
    ensures |r| == |lanes| && forall k :: 0 <= k < |lanes| ==> r[k] == Int(lanes[k])
  {
    seq(|lanes|, k requires 0 <= k < |lanes| => Int(lanes[k]))
  }

  function LanesOf(o: Operand, map': LaneMap): Option<seq<Operand>> {
    match o
    case Int(_) => None
    case Constant(lanes) => Some(IntOperands(lanes))
    case Use(name) => if name in map' && map'[name].Many? then Some(map'[name].operands) else None
  }

  function LaneOf(o: Operand, k: nat, width: nat, map': LaneMap): Option<Operand> {
    var lanes :- LanesOf(o, map');
    if |lanes| == width && k < width then Some(lanes[k]) else None
  }

  /** Fixed-width predicated operations need a vector length that is, or has become, a constant
      equal to the lane count. */
  function GuardOf(g: Guard, k: nat, width: nat, map': LaneMap): Option<Operand> {
    if ScalarOf(g.evl, map') == Some(Int(width)) then LaneOf(g.mask, k, width, map') else None
  }

  // ---------------------------------------------------------------- guarded lanes

  function Plains(body: seq<Instr>): (r: seq<Item>)
    ensures |r| == |body| && forall k :: 0 <= k < |body| ==> r[k] == Plain(body[k])
  {
    seq(|body|, k requires 0 <= k < |body| => Plain(body[k]))
  }

  /** `condition ? (taken; onTrue) : onFalse`; a constant condition needs no guard. */
  function ConditionalValue(condition: Operand, taken: seq<Instr>, onTrue: Operand, onFalse: Operand,
                            dst: Name): LaneCode
  {
    if condition.Int? then
      (if condition.n == 0 then LaneCode([], onFalse) else LaneCode(Plains(taken), onTrue))
    else LaneCode([Diamond(condition, taken, Some(Merge(dst, onTrue, onFalse)))], Use(dst))
  }

  function ConditionalEffect(condition: Operand, taken: seq<Instr>): seq<Item> {
    if condition.Int? then (if condition.n == 0 then [] else Plains(taken))
    else [Diamond(condition, taken, None)]
  }

  // ---------------------------------------------------------------- lane-wise operations

  function LoadAt(id: nat, k: nat, base: Operand, index: Operand): seq<Instr> {
    [Gep(Temp(id, k, Address), base, index), Load(Temp(id, k, Access), Use(Temp(id, k, Address)))]
  }

  function StoreAt(id: nat, k: nat, element: Operand, base: Operand, index: Operand): seq<Instr> {
    [Gep(Temp(id, k, Address), base, index), Store(Temp(id, k, Access), element, Use(Temp(id, k, Address)))]
  }

  function LowerLane(i: Instr, id: nat, k: nat, map': LaneMap): Option<LaneCode>
    requires LaneWise(i)
  {
    var dst := Lane(id, k);
    match i
    case Splat(_, _, scalar) =>
      var s :- ScalarOf(scalar, map');
      Some(LaneCode([], s))
    case StepVector(_, _) => Some(LaneCode([], Int(k)))
    case VectorBinary(_, w, op, lhs, rhs) =>
      var x :- LaneOf(lhs, k, w, map');
      var y :- LaneOf(rhs, k, w, map');
      Some(LaneCode([Plain(Binary(dst, op, x, y))], Use(dst)))
    case VectorCompare(_, w, pred, lhs, rhs) =>
      var x :- LaneOf(lhs, k, w, map');
      var y :- LaneOf(rhs, k, w, map');
      Some(LaneCode([Plain(Compare(dst, pred, x, y))], Use(dst)))
    case VectorCast(_, w, src) =>
      var x :- LaneOf(src, k, w, map');
      Some(LaneCode([Plain(ZExt(dst, x))], Use(dst)))
    case Select(_, w, condition, onTrue, onFalse) =>
      var c :- LaneOf(condition, k, w, map');
      var x :- LaneOf(onTrue, k, w, map');
      var y :- LaneOf(onFalse, k, w, map');
      Some(ConditionalValue(c, [], x, y, dst))
    case Shuffle(_, _, sw, lhs, rhs, indices) =>
      if k < |indices| then
        var x :- if indices[k] < sw then LaneOf(lhs, indices[k], sw, map') else LaneOf(rhs, indices[k] - sw, sw, map');
        Some(LaneCode([], x))
      else None
    case InsertElement(_, w, vector, element, index) =>
      var j :- ScalarOf(index, map');
      var x :- ScalarOf(element, map');
      var y :- LaneOf(vector, k, w, map');
      if j.Int? then
        (if 0 <= j.n < w then Some(LaneCode([], if j.n == k then x else y)) else None)
      else
        var chosen := ConditionalValue(Use(Temp(id, k, Index)), [], x, y, dst);
        Some(LaneCode([Plain(Compare(Temp(id, k, Index), EQ, j, Int(k)))] + chosen.items, chosen.result))
    case VPBinary(_, w, op, lhs, rhs, guard, passthrough) =>
      var c :- GuardOf(guard, k, w, map');
      var x :- LaneOf(lhs, k, w, map');
      var y :- LaneOf(rhs, k, w, map');
      var p :- LaneOf(passthrough, k, w, map');
      Some(ConditionalValue(c, [Binary(Temp(id, k, Active), op, x, y)], Use(Temp(id, k, Active)), p, dst))
    case VPCompare(_, w, pred, lhs, rhs, guard, passthrough) =>
      var c :- GuardOf(guard, k, w, map');
      var x :- LaneOf(lhs, k, w, map');
      var y :- LaneOf(rhs, k, w, map');
      var p :- LaneOf(passthrough, k, w, map');
      Some(ConditionalValue(c, [Compare(Temp(id, k, Active), pred, x, y)], Use(Temp(id, k, Active)), p, dst))
    case MaskedLoad(_, w, ptr, guard, passthrough) =>
      var c :- GuardOf(guard, k, w, map');
      var base :- ScalarOf(ptr, map');
      var p :- LaneOf(passthrough, k, w, map');
      Some(ConditionalValue(c, LoadAt(id, k, base, Int(k)), Use(Temp(id, k, Access)), p, dst))
    case Gather(_, w, base, indices, guard, passthrough) =>
      var c :- GuardOf(guard, k, w, map');
      var b :- ScalarOf(base, map');
      var j :- LaneOf(indices, k, w, map');
      var p :- LaneOf(passthrough, k, w, map');
      Some(ConditionalValue(c, LoadAt(id, k, b, j), Use(Temp(id, k, Access)), p, dst))
  }

  /** The code of one more lane. */
  function AppendLane(rest: Option<(seq<Item>, seq<Operand>)>, lane: Option<LaneCode>)
    : Option<(seq<Item>, seq<Operand>)>
  {
    var r :- rest;
    var l :- lane;
    Some((r.0 + l.items, r.1 + [l.result]))
  }

  /** The lanes of a lane-wise operation, in lane order. */
  function LowerLanes(i: Instr, id: nat, n: nat, map': LaneMap): (r: Option<(seq<Item>, seq<Operand>)>)
    requires LaneWise(i)
    ensures r.Some? ==> |r.value.1| == n
  {
    if n == 0 then Some(([], [])) else AppendLane(LowerLanes(i, id, n - 1, map'), LowerLane(i, id, n - 1, map'))
  }

  // ---------------------------------------------------------------- stores

  function LowerEffect(i: Instr, id: nat, k: nat, map': LaneMap): Option<seq<Item>>
    requires Storing(i)
  {
    var c :- GuardOf(i.guard, k, i.width, map');
    var x :- LaneOf(i.values, k, i.width, map');
    var base :- ScalarOf(if i.MaskedStore? then i.ptr else i.base, map');
    var index :- if i.MaskedStore? then Some(Int(k)) else LaneOf(i.indices', k, i.width, map');
    Some(ConditionalEffect(c, StoreAt(id, k, x, base, index)))
  }

  function LowerEffects(i: Instr, id: nat, n: nat, map': LaneMap): Option<seq<Item>>
    requires Storing(i)
  {
    if n == 0 then Some([])
    else
      var rest :- LowerEffects(i, id, n - 1, map');
      var lane :- LowerEffect(i, id, n - 1, map');
      Some(rest + lane)
  }

  // ---------------------------------------------------------------- reductions and extraction

  /** The value of `acc` combined with lane `k`; it is computed whether or not the lane is active. */
  function CombineCode(kind: Kind, id: nat, k: nat, acc: Operand, x: Operand): LaneCode {
    var combined := Temp(id, k, Combined);
    match kind
    case AddAll => LaneCode([Plain(Binary(combined, Add, acc, x))], Use(combined))
    case MulAll => LaneCode([Plain(Binary(combined, Mul, acc, x))], Use(combined))
    case AndAll => LaneCode([Plain(Binary(combined, And, acc, x))], Use(combined))
    case OrAll => LaneCode([Plain(Binary(combined, Or, acc, x))], Use(combined))
    case XorAll => LaneCode([Plain(Binary(combined, Xor, acc, x))], Use(combined))
    case _ =>
      var compared := Temp(id, k, Compared);
      var picked := ConditionalValue(Use(compared), [], x, acc, Temp(id, k, Picked));
      LaneCode([Plain(Compare(compared, if kind.MinAll? then LT else GT, x, acc))] + picked.items, picked.result)
  }

  /** One lane of a reduction, after the code for the lanes before it. */
  function ReductionStepCode(kind: Kind, id: nat, k: nat, rest: LaneCode, x: Operand, c: Operand): LaneCode {
    var combined := CombineCode(kind, id, k, rest.result, x);
    var chosen := ConditionalValue(c, [], combined.result, rest.result, Lane(id, k));
    LaneCode(rest.items + combined.items + chosen.items, chosen.result)
  }

  function LowerReduction(i: Instr, id: nat, n: nat, map': LaneMap): Option<LaneCode>
    requires i.Reduce?
  {
    if n == 0 then
      var seed :- ScalarOf(i.seed, map');
      Some(LaneCode([], seed))
    else
      var rest :- LowerReduction(i, id, n - 1, map');
      var x :- LaneOf(i.vector, n - 1, i.width, map');
      var c :- GuardOf(i.guard, n - 1, i.width, map');
      Some(ReductionStepCode(i.kind, id, n - 1, rest, x, c))
  }

  /** A dynamic extract starts from lane 0 and lets every further lane override it. */
  function LowerDynamicExtract(id: nat, n: nat, lanes: seq<Operand>, index: Operand): LaneCode
    requires 1 <= n <= |lanes|
  {
    if n == 1 then LaneCode([], lanes[0])
    else
      var rest := LowerDynamicExtract(id, n - 1, lanes, index);
      var chosen := ConditionalValue(Use(Temp(id, n - 1, Index)), [], lanes[n - 1], rest.result, Lane(id, n - 1));
      LaneCode(rest.items + [Plain(Compare(Temp(id, n - 1, Index), EQ, index, Int(n - 1)))] + chosen.items,
               chosen.result)
  }

  function LowerExtract(i: Instr, id: nat, map': LaneMap): Option<LaneCode>
    requires i.ExtractElement?
  {
    var lanes :- LanesOf(i.vector, map');
    var j :- ScalarOf(i.index, map');
    if |lanes| != i.width || i.width == 0 then None
    else if j.Int? then
      (if 0 <= j.n < i.width then Some(LaneCode([], lanes[j.n])) else None)
    else Some(LowerDynamicExtract(id, i.width, lanes, j))
  }

  // ---------------------------------------------------------------- instructions

  predicate ScalarInstr(i: Instr) {
    i.Binary? || i.Compare? || i.ZExt? || i.Gep? || i.Load? || i.Store?
  }

  /** A scalar instruction with its operands replaced by what stands for them. */
  function Rewrite(i: Instr, map': LaneMap): Option<Instr>
    requires ScalarInstr(i)
  {
    match i
    case Binary(dst, op, lhs, rhs) =>
      var x :- ScalarOf(lhs, map');
      var y :- ScalarOf(rhs, map');
      Some(Binary(dst, op, x, y))
    case Compare(dst, pred, lhs, rhs) =>
      var x :- ScalarOf(lhs, map');
      var y :- ScalarOf(rhs, map');
      Some(Compare(dst, pred, x, y))
    case ZExt(dst, src) =>
      var x :- ScalarOf(src, map');
      Some(ZExt(dst, x))
    case Gep(dst, base, index) =>
      var x :- ScalarOf(base, map');
      var y :- ScalarOf(index, map');
      Some(Gep(dst, x, y))
    case Load(dst, ptr) =>
      var x :- ScalarOf(ptr, map');
      Some(Load(dst, x))
    case Store(dst, element, ptr) =>
      var x :- ScalarOf(element, map');
      var y :- ScalarOf(ptr, map');
      Some(Store(dst, x, y))
  }

  function LowerInstr(i: Instr, map': LaneMap): Option<Code>
    requires i.dst.Source?
  {
    var id := i.dst.id;
    if ScalarInstr(i) then
      var r :- Rewrite(i, map');
      Some(Code([Plain(r)], if i.Store? then None else Some(One(Use(i.dst)))))
    else if LaneWise(i) then
      var lanes :- LowerLanes(i, id, i.width, map');
      Some(Code(lanes.0, Some(Many(lanes.1))))
    else if Storing(i) then
      var items :- LowerEffects(i, id, i.width, map');
      Some(Code(items, None))
    else if i.Reduce? then
      var code :- LowerReduction(i, id, i.width, map');
      Some(Code(code.items, Some(One(code.result))))
    else
      var code :- LowerExtract(i, id, map');
      Some(Code(code.items, Some(One(code.result))))
  }
}
