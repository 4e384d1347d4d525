/** Interchange of the two loops around a straight-line body.  A scalar loop finishes an iteration
    before it starts the next; a vector chunk performs each operation for all its lanes before the
    next operation.  The module knows nothing of what an operation does. */
module LoopInterchange {

  /** Operation `p` of iteration `i`. */
  type Step<!S> = (nat, nat, S) -> S

  /** One operation for `vl` lanes, in lane order. */
  function Lanes<S>(step: Step<S>, p: nat, iv: nat, vl: nat, s: S): S
    decreases vl
  {
    if vl == 0 then s else step(p, iv + vl - 1, Lanes(step, p, iv, vl - 1, s))
  }

  /** A vector chunk, from operation `p` on: operation by operation. */
  function Chunk<S>(step: Step<S>, p: nat, ops: nat, iv: nat, vl: nat, s: S): S
    decreases ops - p
  {
    if p >= ops then s else Chunk(step, p + 1, ops, iv, vl, Lanes(step, p, iv, vl, s))
  }

  /** One iteration, from operation `p` on. */
  function Iteration<S>(step: Step<S>, p: nat, ops: nat, i: nat, s: S): S
    decreases ops - p
  {
    if p >= ops then s else Iteration(step, p + 1, ops, i, step(p, i, s))
  }

  /** The scalar loop. */
  function Run<S>(step: Step<S>, ops: nat, n: nat, s: S): S {
    if n == 0 then s else Iteration(step, 0, ops, n - 1, Run(step, ops, n - 1, s))
  }

  ghost predicate Keeps<S(!new)>(step: Step<S>, inv: S -> bool) {
    forall p, i, s :: inv(s) ==> inv(step(p, i, s))
  }

  /** Operation `p` of iteration `i` can wait for operation `q` of iteration `j`. */
  ghost predicate Commute<S(!new)>(step: Step<S>, inv: S -> bool, p: nat, i: nat, q: nat, j: nat) {
    forall s {:trigger inv(s)} :: inv(s) ==> step(q, j, step(p, i, s)) == step(p, i, step(q, j, s))
  }

  /** Every operation can wait for the later operations of earlier iterations. */
  ghost predicate Interchangeable<S(!new)>(step: Step<S>, inv: S -> bool, ops: nat, n: nat) {
    forall p, q, i, j :: 0 <= p < q < ops && 0 <= j < i < n ==> Commute(step, inv, p, i, q, j)
  }

  lemma {:induction false} LanesKeep<S(!new)>(step: Step<S>, inv: S -> bool, p: nat, iv: nat, vl: nat, s: S)
    requires Keeps(step, inv) && inv(s)
    ensures inv(Lanes(step, p, iv, vl, s))
    decreases vl
  {
    if vl > 0 {
      LanesKeep(step, inv, p, iv, vl - 1, s);
    }
  }

  lemma {:induction false} ChunkKeeps<S(!new)>(step: Step<S>, inv: S -> bool, p: nat, ops: nat, iv: nat, vl: nat, s: S)
    requires Keeps(step, inv) && inv(s)
    ensures inv(Chunk(step, p, ops, iv, vl, s))
    decreases ops - p
  {
    if p < ops {
      LanesKeep(step, inv, p, iv, vl, s);
      ChunkKeeps(step, inv, p + 1, ops, iv, vl, Lanes(step, p, iv, vl, s));
    }
  }

  lemma {:induction false} IterationKeeps<S(!new)>(step: Step<S>, inv: S -> bool, p: nat, ops: nat, i: nat, s: S)
    requires Keeps(step, inv) && inv(s)
    ensures inv(Iteration(step, p, ops, i, s))
    decreases ops - p
  {
    if p < ops {
      IterationKeeps(step, inv, p + 1, ops, i, step(p, i, s));
    }
  }

  lemma {:induction false} RunKeeps<S(!new)>(step: Step<S>, inv: S -> bool, ops: nat, n: nat, s: S)
    requires Keeps(step, inv) && inv(s)
    ensures inv(Run(step, ops, n, s))
  {
    if n > 0 {
      RunKeeps(step, inv, ops, n - 1, s);
      IterationKeeps(step, inv, 0, ops, n - 1, Run(step, ops, n - 1, s));
    }
  }

  lemma StepsCommute<S(!new)>(step: Step<S>, inv: S -> bool, p: nat, i: nat, q: nat, j: nat, ops: nat, n: nat, s: S)
    requires Interchangeable(step, inv, ops, n) && inv(s) && p < q < ops && j < i < n
    ensures step(q, j, step(p, i, s)) == step(p, i, step(q, j, s))
  {
    assert Commute(step, inv, p, i, q, j);
  }

  lemma {:induction false} WaitForLanes<S(!new)>(step: Step<S>, inv: S -> bool, p: nat, i: nat, q: nat, ops: nat,
                                                 iv: nat, vl: nat, n: nat, s: S)
    requires Keeps(step, inv) && inv(s) && Interchangeable(step, inv, ops, n)
    requires p < q < ops && iv + vl <= i < n
    ensures Lanes(step, q, iv, vl, step(p, i, s)) == step(p, i, Lanes(step, q, iv, vl, s))
    decreases vl
  {
    if vl > 0 {
      WaitForLanes(step, inv, p, i, q, ops, iv, vl - 1, n, s);
      LanesKeep(step, inv, q, iv, vl - 1, s);
      StepsCommute(step, inv, p, i, q, iv + vl - 1, ops, n, Lanes(step, q, iv, vl - 1, s));
    }
  }

  lemma {:induction false} WaitForChunk<S(!new)>(step: Step<S>, inv: S -> bool, p: nat, i: nat, q: nat, ops: nat,
                                                 iv: nat, vl: nat, n: nat, s: S)
    requires Keeps(step, inv) && inv(s) && Interchangeable(step, inv, ops, n)
    requires p < q && iv + vl <= i < n
    ensures Chunk(step, q, ops, iv, vl, step(p, i, s)) == step(p, i, Chunk(step, q, ops, iv, vl, s))
    decreases ops - q
  {
    if q < ops {
      WaitForLanes(step, inv, p, i, q, ops, iv, vl, n, s);
      LanesKeep(step, inv, q, iv, vl, s);
      WaitForChunk(step, inv, p, i, q + 1, ops, iv, vl, n, Lanes(step, q, iv, vl, s));
    }
  }

  /** The last lane of a chunk can wait until all other lanes are through. */
  lemma {:induction false} LastLaneMoves<S(!new)>(step: Step<S>, inv: S -> bool, p: nat, ops: nat, iv: nat, vl: nat,
                                                  n: nat, s: S)
    requires Keeps(step, inv) && inv(s) && Interchangeable(step, inv, ops, n)
    requires vl > 0 && iv + vl <= n
    ensures Chunk(step, p, ops, iv, vl, s) ==
              Iteration(step, p, ops, iv + vl - 1, Chunk(step, p, ops, iv, vl - 1, s))
    decreases ops - p
  {
    if p < ops {
      var before := Lanes(step, p, iv, vl - 1, s);
      LanesKeep(step, inv, p, iv, vl, s);
      LanesKeep(step, inv, p, iv, vl - 1, s);
      LastLaneMoves(step, inv, p + 1, ops, iv, vl, n, Lanes(step, p, iv, vl, s));
      WaitForChunk(step, inv, p, iv + vl - 1, p + 1, ops, iv, vl - 1, n, before);
    }
  }

  lemma {:induction false} EmptyChunk<S>(step: Step<S>, p: nat, ops: nat, iv: nat, s: S)
    ensures Chunk(step, p, ops, iv, 0, s) == s
    decreases ops - p
  {
    if p < ops {
      EmptyChunk(step, p + 1, ops, iv, s);
    }
  }

  /** A chunk of `vl` lanes is `vl` scalar iterations, whenever no operation depends on the order of
      its iteration and an earlier one. */
  lemma {:induction false} ChunkIsScalar<S(!new)>(step: Step<S>, inv: S -> bool, ops: nat, iv: nat, vl: nat, n: nat,
                                                  s: S)
    requires Keeps(step, inv) && inv(s) && Interchangeable(step, inv, ops, n) && iv + vl <= n
    ensures Chunk(step, 0, ops, iv, vl, Run(step, ops, iv, s)) == Run(step, ops, iv + vl, s)
    decreases vl
  {
    if vl == 0 {
      EmptyChunk(step, 0, ops, iv, Run(step, ops, iv, s));
    } else {
      ChunkIsScalar(step, inv, ops, iv, vl - 1, n, s);
      RunKeeps(step, inv, ops, iv, s);
      LastLaneMoves(step, inv, 0, ops, iv, vl, n, Run(step, ops, iv, s));
    }
  }
}
