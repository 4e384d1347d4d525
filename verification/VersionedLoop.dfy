/** Alias-versioned loops.  At run time the answers for all pairs of streams that may conflict are
    combined; if they are all one, a vector-length-agnostic loop runs that performs each operation of
    a chunk for all lanes before the next operation, otherwise the cloned scalar loop runs.  The
    bases are arbitrary addresses of one byte memory. */
module VersionedLoop {
  import opened VectorLength
  import opened ByteMemory
  import opened AliasRuntime
  import opened AffineLoop
  import opened LoopInterchange

  const ELEMENT_BYTES: Int32 := 4

  /** Repeated-address stores are not vectorized. */
  predicate SupportedStride(stride: int, write: bool) {
    (stride == 0 && !write) || stride in {-4, -2, -1, 1, 2, 4}
  }

  predicate Supported(op: Op, size: nat) {
    op.at.base < size && SupportedStride(op.at.stride, op.Store?)
  }

  predicate SupportedBody(body: seq<Op>, size: nat) {
    forall k :: 0 <= k < |body| ==> Supported(body[k], size)
  }

  /** The description of an access that the check is called with. */
  function StreamOf(op: Op, n: Int32): Stream
    requires SupportedStride(op.at.stride, op.Store?)
  {
    Stream(op.at.base, n, op.at.stride, ELEMENT_BYTES)
  }

  // ---------------------------------------------------------------- what the checks establish

  lemma StreamIsUntruncated(op: Op, n: Int32, size: nat)
    requires INT32_MAX <= size && Supported(op, size)
    ensures Untruncated(StreamOf(op, n), size - 1)
  {
  }

  lemma StreamAddress(op: Op, n: Int32, i: int, k: int)
    requires SupportedStride(op.at.stride, op.Store?)
    ensures ByteAddress(StreamOf(op, n), i, k) == Address(op.at, i) + k
  {
  }

  /** A true answer settles a pair: no word of one access shares a byte with a word of the other. */
  lemma TrueAnswerSettles(p: Op, q: Op, n: Int32, size: nat)
    requires INT32_MAX <= size && Supported(p, size) && Supported(q, size)
    requires DisjointAnswer(StreamOf(p, n), StreamOf(q, n), size - 1)
    ensures forall i, j :: 0 <= i < n && 0 <= j < n ==> Apart(Address(p.at, i), Address(q.at, j), size)
    ensures Settled(p, q, n, size)
  {
    var l, r := StreamOf(p, n), StreamOf(q, n);
    StreamIsUntruncated(p, n, size);
    StreamIsUntruncated(q, n, size);
    TrueAnswerIsSound(l, r, size - 1);
    forall i, j | 0 <= i < n && 0 <= j < n ensures Apart(Address(p.at, i), Address(q.at, j), size) {
      forall k, t | 0 <= k < 4 && 0 <= t < 4
        ensures Slot(Address(p.at, i), k, size) != Slot(Address(q.at, j), t, size)
      {
        StreamAddress(p, n, i, k);
        StreamAddress(q, n, j, t);
        assert Touches(l, Address(p.at, i) + k) && Touches(r, Address(q.at, j) + t);
        assert !Shares(l, r, Address(p.at, i) + k);
      }
    }
  }

  /** A pair that names the same word in each iteration needs no check, as long as the stream does
      not wrap around the address space. */
  lemma SameLaneIsSettled(p: Op, q: Op, n: Int32, size: nat)
    requires Supported(p, size) && Supported(q, size) && p.at == q.at && p.at.stride != 0
    requires n > 0 ==> Representable(StreamOf(p, n), size - 1)
    ensures Settled(p, q, n, size)
  {
    if n > 0 {
      HullIsSmallest(StreamOf(p, n));
      forall i, j | 0 <= j < i < n ensures Apart(Address(p.at, i), Address(p.at, j), size) {
        forall k, t | 0 <= k < 4 && 0 <= t < 4
          ensures Slot(Address(p.at, i), k, size) != Slot(Address(p.at, j), t, size)
        {
          StreamAddress(p, n, i, k);
          StreamAddress(p, n, j, t);
          assert Touches(StreamOf(p, n), Address(p.at, i) + k) && Touches(StreamOf(p, n), Address(p.at, j) + t);
          ElementsDiffer(p.at.stride, i, j);
          assert Address(p.at, i) - Address(p.at, j) == (i - j) * (p.at.stride * 4);
        }
      }
    }
  }

  lemma ElementsDiffer(stride: int, i: int, j: int)
    requires stride != 0 && i > j
    ensures (i - j) * (stride * 4) >= 4 || (i - j) * (stride * 4) <= -4
  {
    var d := i - j;
    if stride > 0 {
      assert d * stride >= 1 by { MulNonNegative(d - 1, stride); assert d * stride == (d - 1) * stride + stride; }
    } else {
      MulNonNegative(d - 1, -stride);
      assert d * stride == -((d - 1) * -stride) + stride;
    }
    assert d * (stride * 4) == 4 * (d * stride);
  }

  /** Every pair that may conflict is checked at run time or settled before. */
  ghost predicate Covered(body: seq<Op>, checks: seq<(nat, nat)>, n: int, size: nat)
    requires size > 0
  {
    forall p, q :: 0 <= p < q < |body| && (body[p].Store? || body[q].Store?) ==>
      (p, q) in checks || Settled(body[p], body[q], n, size)
  }

  predicate ValidChecks(body: seq<Op>, checks: seq<(nat, nat)>) {
    forall c :: c in checks ==> c.0 < |body| && c.1 < |body|
  }

  /** The combined answer. */
  predicate AllDisjoint(body: seq<Op>, checks: seq<(nat, nat)>, n: Int32, size: nat)
    requires size > 0 && SupportedBody(body, size) && ValidChecks(body, checks)
  {
    forall c :: c in checks ==> DisjointAnswer(StreamOf(body[c.0], n), StreamOf(body[c.1], n), size - 1)
  }

  lemma TrueAnswersExcludeHazards(body: seq<Op>, checks: seq<(nat, nat)>, n: Int32, size: nat)
    requires INT32_MAX <= size && SupportedBody(body, size) && ValidChecks(body, checks)
    requires Covered(body, checks, n, size) && AllDisjoint(body, checks, n, size)
    ensures Hazardless(body, n, size)
  {
    forall p, q | 0 <= p < q < |body| ensures Settled(body[p], body[q], n, size) {
      if (p, q) in checks {
        TrueAnswerSettles(body[p], body[q], n, size);
      } else if !body[p].Store? && !body[q].Store? {
      } else {
        assert Settled(body[p], body[q], n, size);
      }
    }
  }

  // ---------------------------------------------------------------- the loops

  /** The check block: one call per pair, the answers combined with `and`. */
  method CheckPairs(body: seq<Op>, checks: seq<(nat, nat)>, n: Int32, size: nat) returns (all: bool)
    requires size > 0 && SupportedBody(body, size) && ValidChecks(body, checks)
    ensures all == AllDisjoint(body, checks, n, size)
  {
    all := true;
    for k := 0 to |checks|
      invariant all <==> forall c :: c in checks[..k] ==>
                           DisjointAnswer(StreamOf(body[c.0], n), StreamOf(body[c.1], n), size - 1)
    {
      var (p, q) := checks[k];
      assert checks[k] in checks;
      var answer := RangesDisjoint(StreamOf(body[p], n), StreamOf(body[q], n), size - 1);
      assert forall c :: c in checks[..k + 1] <==> c in checks[..k] || c == checks[k];
      all := all && answer;
    }
    assert checks[..|checks|] == checks;
  }

  /** One iteration of the scalar loop. */
  method ScalarIteration(mem: array<Byte>, body: seq<Op>, i: nat)
    requires mem.Length > 0
    modifies mem
    ensures mem[..] == Finish(old(mem[..]), body, i, [])
  {
    var words: seq<Word> := [];
    for k := 0 to |body|
      invariant Finish(mem[..], body[k..], i, words) == Finish(old(mem[..]), body, i, [])
    {
      assert body[k..][0] == body[k] && body[k..][1..] == body[k + 1..];
      match body[k]
      case Load(at) =>
        var word := LoadWordAt(mem, Address(at, i));
        words := words + [word];
      case Store(at, value) =>
        StoreWordAt(mem, Address(at, i), value(i, words));
    }
  }

  /** The scalar loop. */
  method ScalarKernel(mem: array<Byte>, body: seq<Op>, n: Int32) returns (iv: int)
    requires mem.Length > 0
    modifies mem
    ensures mem[..] == ScalarRun(old(mem[..]), body, n)
    ensures iv == if n > 0 then n else 0
  {
    iv := 0;
    while iv < n
      invariant 0 <= iv && (iv <= n || iv == 0)
      invariant mem[..] == ScalarRun(old(mem[..]), body, iv)
    {
      ScalarIteration(mem, body, iv);
      iv := iv + 1;
    }
  }

  /** One lane of a vector operation: a load adds a word to the registers of the lane. */
  method LaneOperation(mem: array<Byte>, op: Op, i: nat, words: seq<Word>, ghost s: State) returns (words': seq<Word>)
    requires mem.Length > 0 && mem[..] == s.memory && i < |s.registers| && words == s.registers[i]
    modifies mem
    ensures mem[..] == Exec(op, i, s).memory && Exec(op, i, s).registers == s.registers[i := words']
  {
    words' := words;
    match op
    case Load(at) =>
      var word := LoadWordAt(mem, Address(at, i));
      words' := words + [word];
    case Store(at, value) =>
      StoreWordAt(mem, Address(at, i), value(i, words));
  }

  /** One vector operation, lane by lane. */
  method VectorOperation(mem: array<Byte>, body: seq<Op>, p: nat, iv: nat, vl: nat, lanes: seq<seq<Word>>,
                         ghost s: State)
    returns (lanes': seq<seq<Word>>, ghost s': State)
    requires p < |body| && mem.Length > 0 && mem[..] == s.memory
    requires iv + vl <= |s.registers| && lanes == s.registers[iv..iv + vl]
    modifies mem
    ensures s' == Lanes(StepOf(body), p, iv, vl, s)
    ensures mem[..] == s'.memory && |s'.registers| == |s.registers| && lanes' == s'.registers[iv..iv + vl]
  {
    lanes', s' := lanes, s;
    for lane := 0 to vl
      invariant s' == Lanes(StepOf(body), p, iv, lane, s)
      invariant mem[..] == s'.memory && |s'.registers| == |s.registers| && lanes' == s'.registers[iv..iv + vl]
    {
      var words := LaneOperation(mem, body[p], iv + lane, lanes'[lane], s');
      lanes' := lanes'[lane := words];
      s' := Exec(body[p], iv + lane, s');
    }
  }

  /** The body of the vector loop, operation by operation. */
  method ChunkKernel(mem: array<Byte>, body: seq<Op>, iv: nat, vl: nat, ghost s: State) returns (ghost s': State)
    requires mem.Length > 0 && mem[..] == s.memory && iv + vl <= |s.registers|
    requires forall i :: iv <= i < iv + vl ==> s.registers[i] == []
    modifies mem
    ensures s' == Chunk(StepOf(body), 0, |body|, iv, vl, s) && mem[..] == s'.memory
  {
    var lanes: seq<seq<Word>> := seq(vl, lane => []);
    s' := s;
    for k := 0 to |body|
      invariant mem[..] == s'.memory && |s'.registers| == |s.registers| && lanes == s'.registers[iv..iv + vl]
      invariant Chunk(StepOf(body), k, |body|, iv, vl, s') == Chunk(StepOf(body), 0, |body|, iv, vl, s)
    {
      lanes, s' := VectorOperation(mem, body, k, iv, vl, lanes, s');
    }
  }

  /** One chunk of a run that started in state `start`. */
  method ChunkOfRun(mem: array<Byte>, body: seq<Op>, iv: nat, vl: nat, ghost start: State)
    requires |start.memory| == mem.Length > 0 && iv + vl <= |start.registers|
    requires Hazardless(body, |start.registers|, mem.Length)
    requires forall i :: 0 <= i < |start.registers| ==> start.registers[i] == []
    requires mem[..] == Run(StepOf(body), |body|, iv, start).memory
    modifies mem
    ensures mem[..] == Run(StepOf(body), |body|, iv + vl, start).memory
  {
    RunIsScalar(body, iv, start);
    ghost var s := ChunkKernel(mem, body, iv, vl, Run(StepOf(body), |body|, iv, start));
    ChunkOfBodyIsScalar(body, iv, vl, |start.registers|, start);
  }

  /** The strip-mined vector loop, for every vector length the hardware may choose. */
  method VectorKernel(mem: array<Byte>, body: seq<Op>, n: Int32, vlmax: nat) returns (iv: int)
    requires mem.Length > 0 && vlmax > 0 && Hazardless(body, n, mem.Length)
    modifies mem
    ensures mem[..] == ScalarRun(old(mem[..]), body, n)
    ensures iv == if n > 0 then n else 0
  {
    var remaining: nat := if n > 0 then n else 0;
    ghost var start := State(mem[..], seq(remaining, i => []));
    iv := 0;
    while remaining != 0
      invariant 0 <= iv && remaining + iv == |start.registers|
      invariant mem[..] == Run(StepOf(body), |body|, iv, start).memory
      decreases remaining
    {
      var actualVl := SetVL(remaining, vlmax);
      ChunkOfRun(mem, body, iv, actualVl, start);
      iv := iv + actualVl;
      remaining := remaining - actualVl;
    }
    RunIsScalar(body, iv, start);
  }

  /** The versioned loop leaves the memory and the live-out `iv` of the scalar loop alone: for every
      straight-line body of loads and stores with any lane functions, every memory, all bases, every
      signed trip count, every list of checks that covers the pairs not settled before, and every
      choice of vector lengths. */
  method VersionedKernel(mem: array<Byte>, body: seq<Op>, checks: seq<(nat, nat)>, n: Int32, vlmax: nat)
    returns (iv: int)
    requires INT32_MAX <= mem.Length && vlmax > 0
    requires SupportedBody(body, mem.Length) && ValidChecks(body, checks) && Covered(body, checks, n, mem.Length)
    modifies mem
    ensures mem[..] == ScalarRun(old(mem[..]), body, n)
    ensures iv == if n > 0 then n else 0
  {
    var disjoint := CheckPairs(body, checks, n, mem.Length);
    if disjoint {
      TrueAnswersExcludeHazards(body, checks, n, mem.Length);
      iv := VectorKernel(mem, body, n, vlmax);
    } else {
      iv := ScalarKernel(mem, body, n);
    }
  }

  // ---------------------------------------------------------------- the kernel b[i] = a[i] + 7

  function AddSeven(w: Word): Word {
    (w + 7) % WORD_RANGE
  }

  function AddSevenBody(a: nat, b: nat): seq<Op> {
    [Load(Access(a, 1)),
     Store(Access(b, 1), (i: int, words: seq<Word>) => if words == [] then 0 else AddSeven(words[0]))]
  }

  /** Its one check makes the kernel safe. */
  ghost predicate CheckExcludesHazards(size: nat)
    requires size > 0
  {
    forall a: nat, b: nat, n: Int32 ::
      a < size && b < size
      && DisjointAnswer(Stream(a, n, 1, ELEMENT_BYTES), Stream(b, n, 1, ELEMENT_BYTES), size - 1) ==>
        Hazardless(AddSevenBody(a, b), n, size)
  }

  /** The address space the check needs, exactly: one that holds every trip count. */
  lemma CheckExcludesHazardsExactly(size: nat)
    requires size >= 9
    ensures CheckExcludesHazards(size) <==> INT32_MAX <= size
  {
    if INT32_MAX <= size {
      forall a: nat, b: nat, n: Int32 | a < size && b < size
        && DisjointAnswer(Stream(a, n, 1, ELEMENT_BYTES), Stream(b, n, 1, ELEMENT_BYTES), size - 1)
        ensures Hazardless(AddSevenBody(a, b), n, size)
      {
        var body := AddSevenBody(a, b);
        TrueAnswerSettles(body[0], body[1], n, size);
      }
    } else {
      NarrowAnswerAllowsAHazard(size);
    }
  }

  /** In a smaller address space the answer is true although iteration 1 loads the word iteration 0
      stores. */
  lemma NarrowAnswerAllowsAHazard(size: nat)
    requires 9 <= size < INT32_MAX
    ensures DisjointAnswer(Stream(0, size + 1, 1, ELEMENT_BYTES), Stream(4, size + 1, 1, ELEMENT_BYTES), size - 1)
    ensures !Hazardless(AddSevenBody(0, 4), size + 1, size)
  {
    var top := size - 1;
    assert ToUintptr(size, top) == 0;
    NoWrap(4, top);
    assert Computed(Stream(0, size + 1, 1, 4), top) == Range(0, 4);
    assert Computed(Stream(4, size + 1, 1, 4), top) == Range(4, 8);
    var body := AddSevenBody(0, 4);
    assert Slot(Address(body[0].at, 1), 0, size) == Slot(Address(body[1].at, 0), 0, size);
    assert !Free(body[0], 1, body[1], 0, size);
    assert !Settled(body[0], body[1], size + 1, size);
  }

  /** A load and a store in one iteration. */
  lemma LoadStoreIteration(m: seq<Byte>, p: Op, q: Op, i: int)
    requires |m| > 0 && p.Load? && q.Store?
    ensures Finish(m, [p, q], i, []) ==
              StoreWord(m, Address(q.at, i), q.value(i, [LoadWord(m, Address(p.at, i))]))
  {
    var words := [] + [LoadWord(m, Address(p.at, i))];
    assert words == [LoadWord(m, Address(p.at, i))];
    assert [p, q][1..] == [q] && [q][1..] == [];
    assert Finish(m, [p, q], i, []) == Finish(m, [q], i, words);
  }

  /** A load and a store for two lanes: what the second store writes was loaded before the first. */
  lemma LoadStoreChunk(m: seq<Byte>, p: Op, q: Op) returns (first: seq<Byte>)
    requires |m| > 0 && p.Load? && q.Store?
    ensures |first| == |m|
    ensures Chunk(StepOf([p, q]), 0, 2, 0, 2, State(m, [[], []])).memory ==
              StoreWord(first, Address(q.at, 1), q.value(1, [LoadWord(m, Address(p.at, 1))]))
  {
    var s, step := State(m, [[], []]), StepOf([p, q]);
    TwoLanes(step, 0, s);
    var loaded := Lanes(step, 0, 0, 2, s);
    assert loaded == Exec(p, 1, Exec(p, 0, s));
    assert loaded.memory == m && loaded.registers[1] == [] + [LoadWord(m, Address(p.at, 1))];
    assert loaded.registers[1] == [LoadWord(m, Address(p.at, 1))];
    TwoLanes(step, 1, loaded);
    first := Exec(q, 0, loaded).memory;
    assert Chunk(step, 1, 2, 0, 2, loaded) == Lanes(step, 1, 0, 2, loaded);
  }

  lemma TwoLanes(step: Step<State>, p: nat, s: State)
    ensures Lanes(step, p, 0, 2, s) == step(p, 1, step(p, 0, s))
  {
    assert Lanes(step, p, 0, 0, s) == s;
    assert Lanes(step, p, 0, 1, s) == step(p, 0, s);
  }

  lemma AddSevenValue(a: nat, b: nat, i: int, w: Word)
    ensures AddSevenBody(a, b)[1].value(i, [w]) == AddSeven(w)
  {
  }

  /** The word a chunk of two leaves one element after its first store. */
  lemma SecondLaneOfChunk(m: seq<Byte>, a: nat)
    requires |m| >= a + 12
    ensures var m' := Chunk(StepOf(AddSevenBody(a, a + 4)), 0, 2, 0, 2, State(m, [[], []])).memory;
            LoadWord(m', a + 8) == AddSeven(LoadWord(m, a + 4))
  {
    var body := AddSevenBody(a, a + 4);
    var p, q := body[0], body[1];
    var first := LoadStoreChunk(m, p, q);
    assert body == [p, q];
    AddSevenValue(a, a + 4, 1, LoadWord(m, a + 4));
    StoredAt(m, first, p, q, a);
  }

  lemma StoredAt(m: seq<Byte>, first: seq<Byte>, p: Op, q: Op, a: nat)
    requires |first| == |m| >= a + 12 && p.Load? && q.Store? && p.at == Access(a, 1) && q.at == Access(a + 4, 1)
    ensures LoadWord(StoreWord(first, Address(q.at, 1), q.value(1, [LoadWord(m, Address(p.at, 1))])), a + 8) ==
              q.value(1, [LoadWord(m, a + 4)])
  {
    assert Address(p.at, 1) == a + 4 && Address(q.at, 1) == a + 8;
    LoadBack(first, a + 8, q.value(1, [LoadWord(m, a + 4)]));
  }

  lemma AddSevenIteration(m: seq<Byte>, a: nat, b: nat, i: nat)
    requires |m| > 0
    ensures Finish(m, AddSevenBody(a, b), i, []) == StoreWord(m, b + 4 * i, AddSeven(LoadWord(m, a + 4 * i)))
  {
    var body := AddSevenBody(a, b);
    LoadStoreIteration(m, body[0], body[1], i);
    assert body == [body[0], body[1]];
    assert Address(body[0].at, i) == a + 4 * i && Address(body[1].at, i) == b + 4 * i;
  }

  lemma ReadBack(m: seq<Byte>, first: seq<Byte>, a: nat, w: Word)
    requires |m| >= a + 12 && first == StoreWord(m, a + 4, w)
    ensures LoadWord(StoreWord(first, a + 8, AddSeven(LoadWord(first, a + 4))), a + 8) == AddSeven(w)
  {
    LoadBack(m, a + 4, w);
    LoadBack(first, a + 8, AddSeven(w));
  }

  /** The word two scalar iterations leave there. */
  lemma SecondIteration(m: seq<Byte>, a: nat)
    requires |m| >= a + 12
    ensures LoadWord(ScalarRun(m, AddSevenBody(a, a + 4), 2), a + 8) == AddSeven(AddSeven(LoadWord(m, a)))
  {
    var w := AddSeven(LoadWord(m, a));
    TwoIterations(m, a);
    ReadBack(m, StoreWord(m, a + 4, w), a, w);
  }

  lemma TwoIterations(m: seq<Byte>, a: nat)
    requires |m| > 0
    ensures var first := StoreWord(m, a + 4, AddSeven(LoadWord(m, a)));
            ScalarRun(m, AddSevenBody(a, a + 4), 2) == StoreWord(first, a + 8, AddSeven(LoadWord(first, a + 4)))
  {
    var body := AddSevenBody(a, a + 4);
    AddSevenIteration(m, a, a + 4, 0);
    AddSevenIteration(ScalarRun(m, body, 1), a, a + 4, 1);
    assert ScalarRun(m, body, 0) == m;
  }

  lemma AddSevenInjective(x: Word, y: Word)
    requires x != y
    ensures AddSeven(x) != AddSeven(y)
  {
  }

  /** The check is needed: with the store stream one element ahead of the load stream, a chunk of
      two reads `a[1]` before the first iteration overwrites it, and leaves another memory than the
      scalar loop unless that store changes nothing. */
  lemma OverlapBreaksAnUncheckedChunk(m: seq<Byte>, a: nat)
    requires |m| >= a + 12 && LoadWord(m, a + 4) != AddSeven(LoadWord(m, a))
    ensures Chunk(StepOf(AddSevenBody(a, a + 4)), 0, 2, 0, 2, State(m, [[], []])).memory !=
              ScalarRun(m, AddSevenBody(a, a + 4), 2)
  {
    SecondLaneOfChunk(m, a);
    SecondIteration(m, a);
    AddSevenInjective(LoadWord(m, a + 4), AddSeven(LoadWord(m, a)));
  }
}
