/** Counted loops whose body is a straight line of loads and stores at affine addresses.  Vectorizing
    such a loop interchanges operations and iterations, which is allowed unless an operation meets
    the conflicting access of an earlier iteration that comes later in the body. */
module AffineLoop {
  import opened ByteMemory
  import opened LoopInterchange

  /** One 32-bit word per iteration, `stride` elements apart. */
  datatype Access = Access(base: nat, stride: int)

  /** A load adds a word to the registers of its iteration; a store computes a word from them. */
  datatype Op = Load(at: Access) | Store(at: Access, value: (int, seq<Word>) -> Word)

  function Address(at: Access, i: int): int {
    at.base + i * (at.stride * 4)
  }

  // ---------------------------------------------------------------- the scalar loop

  /** The rest of one iteration, with the words loaded so far. */
  function Finish(m: seq<Byte>, ops: seq<Op>, i: int, words: seq<Word>): (m': seq<Byte>)
    requires |m| > 0
    ensures |m'| == |m|
    decreases |ops|
  {
    if ops == [] then m
    else match ops[0]
      case Load(at) => Finish(m, ops[1..], i, words + [LoadWord(m, Address(at, i))])
      case Store(at, value) => Finish(StoreWord(m, Address(at, i), value(i, words)), ops[1..], i, words)
  }

  /** Memory after the scalar loop `for (iv = 0; iv < n; ++iv)`. */
  function ScalarRun(m: seq<Byte>, body: seq<Op>, n: int): (m': seq<Byte>)
    requires |m| > 0
    ensures |m'| == |m|
    decreases n
  {
    if n <= 0 then m else Finish(ScalarRun(m, body, n - 1), body, n - 1, [])
  }

  // ---------------------------------------------------------------- single operations

  /** Memory, and the registers of every iteration. */
  datatype State = State(memory: seq<Byte>, registers: seq<seq<Word>>)

  predicate Shaped(s: State, size: nat, n: nat) {
    |s.memory| == size > 0 && |s.registers| == n
  }

  function Exec(op: Op, i: nat, s: State): (s': State)
    requires |s.memory| > 0 && i < |s.registers|
    ensures |s'.memory| == |s.memory| && |s'.registers| == |s.registers|
  {
    match op
    case Load(at) => s.(registers := s.registers[i := s.registers[i] + [LoadWord(s.memory, Address(at, i))]])
    case Store(at, value) => s.(memory := StoreWord(s.memory, Address(at, i), value(i, s.registers[i])))
  }

  /** The operations of a body as steps. */
  function StepOf(body: seq<Op>): Step<State> {
    (p: nat, i: nat, s: State) => if p < |body| && i < |s.registers| && |s.memory| > 0 then Exec(body[p], i, s) else s
  }

  function ShapedAs(size: nat, n: nat): State -> bool {
    s => Shaped(s, size, n)
  }

  /** Two accesses of which one is a store do not overlap. */
  ghost predicate Free(p: Op, i: int, q: Op, j: int, size: nat)
    requires size > 0
  {
    p.Store? || q.Store? ==> Apart(Address(p.at, i), Address(q.at, j), size)
  }

  /** Operations of different iterations commute when they do not conflict. */
  lemma OperationsCommute(p: Op, i: nat, q: Op, j: nat, s: State)
    requires i != j && |s.memory| > 0 && i < |s.registers| && j < |s.registers| && Free(p, i, q, j, |s.memory|)
    ensures Exec(q, j, Exec(p, i, s)) == Exec(p, i, Exec(q, j, s))
  {
    var a, b := Address(p.at, i), Address(q.at, j);
    match (p, q)
    case (Load(_), Load(_)) =>
      assert s.registers[i := s.registers[i] + [LoadWord(s.memory, a)]][j := s.registers[j] + [LoadWord(s.memory, b)]]
          == s.registers[j := s.registers[j] + [LoadWord(s.memory, b)]][i := s.registers[i] + [LoadWord(s.memory, a)]];
    case (Load(_), Store(_, value)) => LoadElsewhere(s.memory, a, b, value(j, s.registers[j]));
    case (Store(_, value), Load(_)) => LoadElsewhere(s.memory, b, a, value(i, s.registers[i]));
    case (Store(_, u), Store(_, w)) => StoresCommute(s.memory, a, u(i, s.registers[i]), b, w(j, s.registers[j]));
  }

  // ---------------------------------------------------------------- hazards

  /** Operation `p` never meets operation `q` of an earlier iteration. */
  ghost predicate Settled(p: Op, q: Op, n: int, size: nat)
    requires size > 0
  {
    forall i, j :: 0 <= j < i < n ==> Free(p, i, q, j, size)
  }

  /** No operation conflicts with a later operation of the body in an earlier iteration. */
  ghost predicate Hazardless(body: seq<Op>, n: int, size: nat)
    requires size > 0
  {
    forall p, q :: 0 <= p < q < |body| ==> Settled(body[p], body[q], n, size)
  }

  lemma StepsKeepShape(body: seq<Op>, size: nat, n: nat)
    ensures Keeps(StepOf(body), ShapedAs(size, n))
  {
  }

  lemma SettledCommutes(body: seq<Op>, p: nat, i: nat, q: nat, j: nat, size: nat, n: nat)
    requires size > 0 && p < q < |body| && j < i < n && Settled(body[p], body[q], n, size)
    ensures Commute(StepOf(body), ShapedAs(size, n), p, i, q, j)
  {
    var step := StepOf(body);
    assert Free(body[p], i, body[q], j, size);
    forall s | ShapedAs(size, n)(s) ensures step(q, j, step(p, i, s)) == step(p, i, step(q, j, s)) {
      OperationsCommute(body[p], i, body[q], j, s);
    }
  }

  /** Without hazards the loops around the body can be interchanged. */
  lemma HazardlessIsInterchangeable(body: seq<Op>, size: nat, n: nat)
    requires size > 0 && Hazardless(body, n, size)
    ensures Interchangeable(StepOf(body), ShapedAs(size, n), |body|, n)
  {
    forall p, q, i, j | 0 <= p < q < |body| && 0 <= j < i < n
      ensures Commute(StepOf(body), ShapedAs(size, n), p, i, q, j)
    {
      SettledCommutes(body, p, i, q, j, size, n);
    }
  }

  /** Without hazards a vector chunk is as many scalar iterations as it has lanes. */
  lemma ChunkOfBodyIsScalar(body: seq<Op>, iv: nat, vl: nat, n: nat, s: State)
    requires iv + vl <= n && |s.registers| == n && |s.memory| > 0 && Hazardless(body, n, |s.memory|)
    ensures var step := StepOf(body);
            Chunk(step, 0, |body|, iv, vl, Run(step, |body|, iv, s)) == Run(step, |body|, iv + vl, s)
  {
    StepsKeepShape(body, |s.memory|, n);
    HazardlessIsInterchangeable(body, |s.memory|, n);
    ChunkIsScalar(StepOf(body), ShapedAs(|s.memory|, n), |body|, iv, vl, n, s);
  }

  // ---------------------------------------------------------------- registers are per iteration

  /** An iteration uses only its own registers. */
  lemma {:induction false} IterationIsLocal(body: seq<Op>, p: nat, i: nat, s: State)
    requires p <= |body| && i < |s.registers| && |s.memory| > 0
    ensures var r := Iteration(StepOf(body), p, |body|, i, s);
            && |r.registers| == |s.registers| && r.memory == Finish(s.memory, body[p..], i, s.registers[i])
            && forall j :: 0 <= j < |s.registers| && j != i ==> r.registers[j] == s.registers[j]
    decreases |body| - p
  {
    if p < |body| {
      assert body[p..][0] == body[p] && body[p..][1..] == body[p + 1..];
      IterationIsLocal(body, p + 1, i, Exec(body[p], i, s));
    }
  }

  /** The run with kept registers is the scalar loop. */
  lemma {:induction false} RunIsScalar(body: seq<Op>, n: nat, s: State)
    requires n <= |s.registers| && |s.memory| > 0 && forall j :: 0 <= j < |s.registers| ==> s.registers[j] == []
    ensures var r := Run(StepOf(body), |body|, n, s);
            && |r.registers| == |s.registers| && r.memory == ScalarRun(s.memory, body, n)
            && forall j :: n <= j < |s.registers| ==> r.registers[j] == []
  {
    if n > 0 {
      RunIsScalar(body, n - 1, s);
      IterationIsLocal(body, 0, n - 1, Run(StepOf(body), |body|, n - 1, s));
      assert body[0..] == body;
    }
  }
}
