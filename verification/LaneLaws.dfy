/** What the vector operations of the interpreter compute, lane by lane, in terms of their operands
    alone. */
module LaneLaws {
  import opened Wrappers
  import opened Digits
  import opened Oir
  import opened OperationLaws
  import opened VectorMeaning

  lemma {:induction false} LaneOfAll(i: Instr, n: nat, s: State, k: nat)
    requires LaneWise(i) && AllLanes(i, n, s).Ok? && k < n
    ensures LaneMeaning(i, k, s) == Ok(AllLanes(i, n, s).value[k])
  {
    if k < n - 1 {
      LaneOfAll(i, n - 1, s, k);
    }
  }

  lemma {:induction false} AllLanesFail(i: Instr, n: nat, s: State)
    requires LaneWise(i) && forall k :: 0 <= k < n ==> LaneMeaning(i, k, s) != Undef
    ensures AllLanes(i, n, s).Ok? <==> forall k :: 0 <= k < n ==> LaneMeaning(i, k, s).Ok?
    ensures AllLanes(i, n, s) != Undef
  {
    if n > 0 {
      AllLanesFail(i, n - 1, s);
    }
  }

  /** The vector a lane-wise operation defines. */
  ghost predicate Lanes(r: Exec<State>, s: State, d: Name, w: nat) {
    && r.Ok? && d in r.value.env && r.value.env[d].Vec? && |r.value.env[d].lanes| == w
    && r.value == State(s.env[d := r.value.env[d]], s.memory)
  }

  /** Every lane is computed from the same lane of the operands. */
  lemma VectorBinaryLaw(d: Name, w: nat, op: BinaryOp, lhs: Operand, rhs: Operand, s: State, a: seq<int>, b: seq<int>)
    requires Eval(lhs, s.env) == Ok(Vec(a)) && Eval(rhs, s.env) == Ok(Vec(b)) && |a| == w == |b|
    ensures var r := RunInstr(VectorBinary(d, w, op, lhs, rhs), s);
            if Divides(op) && 0 in b then r == Fail
            else Lanes(r, s, d, w) && forall k :: 0 <= k < w ==> Computes(op, a[k], b[k], r.value.env[d].lanes[k])
  {
    var i := VectorBinary(d, w, op, lhs, rhs);
    forall k | 0 <= k < w ensures LaneMeaning(i, k, s) == Apply(op, a[k], b[k]) && LaneMeaning(i, k, s) != Undef {
      ApplyComputes(op, a[k], b[k]);
    }
    AllLanesFail(i, w, s);
    if AllLanes(i, w, s).Ok? {
      forall k | 0 <= k < w ensures Computes(op, a[k], b[k], AllLanes(i, w, s).value[k]) {
        LaneOfAll(i, w, s, k);
        ApplyComputes(op, a[k], b[k]);
      }
      assert Divides(op) ==> forall k :: 0 <= k < w ==> LaneMeaning(i, k, s).Ok? && b[k] != 0 by {
        forall k | 0 <= k < w ensures LaneMeaning(i, k, s).Ok? && (Divides(op) ==> b[k] != 0) {
          ApplyComputes(op, a[k], b[k]);
        }
      }
    } else {
      var k :| 0 <= k < w && !LaneMeaning(i, k, s).Ok?;
      ApplyComputes(op, a[k], b[k]);
    }
  }

  lemma VectorCompareLaw(d: Name, w: nat, pred: Pred, lhs: Operand, rhs: Operand, s: State, a: seq<int>, b: seq<int>)
    requires Eval(lhs, s.env) == Ok(Vec(a)) && Eval(rhs, s.env) == Ok(Vec(b)) && |a| == w == |b|
    ensures var r := RunInstr(VectorCompare(d, w, pred, lhs, rhs), s);
            Lanes(r, s, d, w) && forall k :: 0 <= k < w ==> Decides(pred, a[k], b[k], r.value.env[d].lanes[k])
  {
    var i := VectorCompare(d, w, pred, lhs, rhs);
    assert forall k :: 0 <= k < w ==> LaneMeaning(i, k, s) == Ok(Holds(pred, a[k], b[k]));
    AllLanesFail(i, w, s);
    forall k | 0 <= k < w ensures Decides(pred, a[k], b[k], AllLanes(i, w, s).value[k]) {
      LaneOfAll(i, w, s, k);
    }
  }

  /** The operands of a guard: `n` lanes are requested, and lane `k` among them is active when its
      mask bit is not zero. */
  predicate Guards(g: Guard, s: State, w: nat, n: int, mask: seq<int>) {
    Eval(g.evl, s.env) == Ok(Num(n)) && Eval(g.mask, s.env) == Ok(Vec(mask)) && |mask| == w
  }

  predicate Active(n: int, mask: seq<int>, k: int)
    requires 0 <= k < |mask|
  {
    k < n && mask[k] != 0
  }

  /** A predicated operation computes its active lanes and passes the others through; a zero divisor
      in an inactive lane does no harm. */
  lemma VPBinaryLaw(d: Name, w: nat, op: BinaryOp, lhs: Operand, rhs: Operand, g: Guard, p: Operand, s: State,
                    a: seq<int>, b: seq<int>, n: int, mask: seq<int>, old': seq<int>)
    requires Eval(lhs, s.env) == Ok(Vec(a)) && Eval(rhs, s.env) == Ok(Vec(b)) && Eval(p, s.env) == Ok(Vec(old'))
    requires |a| == |b| == |old'| == w && Guards(g, s, w, n, mask)
    ensures var r := RunInstr(VPBinary(d, w, op, lhs, rhs, g, p), s);
            if Divides(op) && exists k :: 0 <= k < w && Active(n, mask, k) && b[k] == 0 then r == Fail
            else
              && Lanes(r, s, d, w)
              && forall k :: 0 <= k < w ==>
                   if Active(n, mask, k) then Computes(op, a[k], b[k], r.value.env[d].lanes[k])
                   else r.value.env[d].lanes[k] == old'[k]
  {
    var i := VPBinary(d, w, op, lhs, rhs, g, p);
    forall k | 0 <= k < w
      ensures LaneMeaning(i, k, s) == (if Active(n, mask, k) then Apply(op, a[k], b[k]) else Ok(old'[k]))
      ensures LaneMeaning(i, k, s) != Undef
      ensures LaneMeaning(i, k, s).Ok? <==> !(Active(n, mask, k) && Divides(op) && b[k] == 0)
    {
      assert ActiveAt(g, k, w, s.env) == Ok(Active(n, mask, k));
      ApplyComputes(op, a[k], b[k]);
    }
    AllLanesFail(i, w, s);
    if AllLanes(i, w, s).Ok? {
      forall k | 0 <= k < w
        ensures var v := AllLanes(i, w, s).value[k];
                if Active(n, mask, k) then Computes(op, a[k], b[k], v) else v == old'[k]
      {
        LaneOfAll(i, w, s, k);
        ApplyComputes(op, a[k], b[k]);
      }
      assert forall k :: 0 <= k < w ==> LaneMeaning(i, k, s).Ok?;
    }
  }

  lemma VPCompareLaw(d: Name, w: nat, pred: Pred, lhs: Operand, rhs: Operand, g: Guard, p: Operand, s: State,
                     a: seq<int>, b: seq<int>, n: int, mask: seq<int>, old': seq<int>)
    requires Eval(lhs, s.env) == Ok(Vec(a)) && Eval(rhs, s.env) == Ok(Vec(b)) && Eval(p, s.env) == Ok(Vec(old'))
    requires |a| == |b| == |old'| == w && Guards(g, s, w, n, mask)
    ensures var r := RunInstr(VPCompare(d, w, pred, lhs, rhs, g, p), s);
            && Lanes(r, s, d, w)
            && forall k :: 0 <= k < w ==>
                 if Active(n, mask, k) then Decides(pred, a[k], b[k], r.value.env[d].lanes[k])
                 else r.value.env[d].lanes[k] == old'[k]
  {
    var i := VPCompare(d, w, pred, lhs, rhs, g, p);
    forall k | 0 <= k < w
      ensures LaneMeaning(i, k, s) == Ok(if Active(n, mask, k) then Holds(pred, a[k], b[k]) else old'[k])
    {
      assert ActiveAt(g, k, w, s.env) == Ok(Active(n, mask, k));
    }
    AllLanesFail(i, w, s);
    forall k | 0 <= k < w
      ensures var v := AllLanes(i, w, s).value[k];
              if Active(n, mask, k) then Decides(pred, a[k], b[k], v) else v == old'[k]
    {
      LaneOfAll(i, w, s, k);
    }
  }

  /** A masked load reads `p + k` in its active lanes, which must lie in the memory, and passes the
      others through. */
  lemma MaskedLoadLaw(d: Name, w: nat, ptr: Operand, g: Guard, p: Operand, s: State, base: int, n: int, mask: seq<int>,
                      old': seq<int>)
    requires Eval(ptr, s.env) == Ok(Num(base)) && Eval(p, s.env) == Ok(Vec(old')) && |old'| == w
    requires Guards(g, s, w, n, mask)
    ensures var r := RunInstr(MaskedLoad(d, w, ptr, g, p), s);
            if exists k :: 0 <= k < w && Active(n, mask, k) && !(0 <= base + k < |s.memory|) then r == Fail
            else
              && Lanes(r, s, d, w)
              && forall k :: 0 <= k < w ==>
                   r.value.env[d].lanes[k] == if Active(n, mask, k) then s.memory[base + k] else old'[k]
  {
    var i := MaskedLoad(d, w, ptr, g, p);
    forall k | 0 <= k < w
      ensures LaneMeaning(i, k, s) == (if !Active(n, mask, k) then Ok(old'[k])
                                       else if 0 <= base + k < |s.memory| then Ok(s.memory[base + k]) else Fail)
    {
      assert ActiveAt(g, k, w, s.env) == Ok(Active(n, mask, k));
    }
    AllLanesFail(i, w, s);
    if AllLanes(i, w, s).Ok? {
      forall k | 0 <= k < w ensures LaneMeaning(i, k, s) == Ok(AllLanes(i, w, s).value[k]) {
        LaneOfAll(i, w, s, k);
      }
    }
  }

  /** A gather reads `p + indices[k]` in its active lanes. */
  lemma GatherLaw(d: Name, w: nat, ptr: Operand, indices: Operand, g: Guard, p: Operand, s: State, base: int,
                  at: seq<int>, n: int, mask: seq<int>, old': seq<int>)
    requires Eval(ptr, s.env) == Ok(Num(base)) && Eval(indices, s.env) == Ok(Vec(at)) && Eval(p, s.env) == Ok(Vec(old'))
    requires |at| == |old'| == w && Guards(g, s, w, n, mask)
    ensures var r := RunInstr(Gather(d, w, ptr, indices, g, p), s);
            if exists k :: 0 <= k < w && Active(n, mask, k) && !(0 <= base + at[k] < |s.memory|) then r == Fail
            else
              && Lanes(r, s, d, w)
              && forall k :: 0 <= k < w ==>
                   r.value.env[d].lanes[k] == if Active(n, mask, k) then s.memory[base + at[k]] else old'[k]
  {
    var i := Gather(d, w, ptr, indices, g, p);
    forall k | 0 <= k < w
      ensures LaneMeaning(i, k, s) == (if !Active(n, mask, k) then Ok(old'[k])
                                       else if 0 <= base + at[k] < |s.memory| then Ok(s.memory[base + at[k]]) else Fail)
    {
      assert ActiveAt(g, k, w, s.env) == Ok(Active(n, mask, k));
    }
    AllLanesFail(i, w, s);
    if AllLanes(i, w, s).Ok? {
      forall k | 0 <= k < w ensures LaneMeaning(i, k, s) == Ok(AllLanes(i, w, s).value[k]) {
        LaneOfAll(i, w, s, k);
      }
    }
  }

  // ---------------------------------------------------------------- lanes that move

  /** The lanes a lane-wise operation without failing lanes defines. */
  lemma MovedLanes(i: Instr, s: State, xs: seq<int>)
    requires LaneWise(i) && |xs| == i.width && forall k :: 0 <= k < i.width ==> LaneMeaning(i, k, s) == Ok(xs[k])
    ensures RunInstr(i, s) == Ok(State(s.env[i.dst := Vec(xs)], s.memory))
  {
    AllLanesFail(i, i.width, s);
    forall k | 0 <= k < i.width ensures AllLanes(i, i.width, s).value[k] == xs[k] {
      LaneOfAll(i, i.width, s, k);
    }
    assert AllLanes(i, i.width, s).value == xs;
  }

  /** Splats repeat their scalar and step vectors count. */
  lemma SplatAndStepLaw(d: Name, scalar: Operand, s: State, x: int, copies: seq<int>, steps: seq<int>)
    requires Eval(scalar, s.env) == Ok(Num(x))
    requires forall k :: 0 <= k < |copies| ==> copies[k] == x
    requires forall k :: 0 <= k < |steps| ==> steps[k] == k
    ensures RunInstr(Splat(d, |copies|, scalar), s) == Ok(State(s.env[d := Vec(copies)], s.memory))
    ensures RunInstr(StepVector(d, |steps|), s) == Ok(State(s.env[d := Vec(steps)], s.memory))
  {
    MovedLanes(Splat(d, |copies|, scalar), s, copies);
    MovedLanes(StepVector(d, |steps|), s, steps);
  }

  /** A select takes each lane from its first choice where the condition is not zero. */
  lemma SelectLaw(d: Name, w: nat, c: Operand, t: Operand, e: Operand, s: State, cs: seq<int>, ts: seq<int>,
                  es: seq<int>, xs: seq<int>)
    requires Eval(c, s.env) == Ok(Vec(cs)) && Eval(t, s.env) == Ok(Vec(ts)) && Eval(e, s.env) == Ok(Vec(es))
    requires |cs| == |ts| == |es| == |xs| == w
    requires forall k :: 0 <= k < w ==> (cs[k] == 0 ==> xs[k] == es[k]) && (cs[k] != 0 ==> xs[k] == ts[k])
    ensures RunInstr(Select(d, w, c, t, e), s) == Ok(State(s.env[d := Vec(xs)], s.memory))
  {
    MovedLanes(Select(d, w, c, t, e), s, xs);
  }

  /** A shuffle picks lanes of the concatenation of its operands. */
  lemma ShuffleLaw(d: Name, w: nat, lhs: Operand, rhs: Operand, indices: seq<nat>, s: State, a: seq<int>, b: seq<int>,
                   xs: seq<int>)
    requires Eval(lhs, s.env) == Ok(Vec(a)) && Eval(rhs, s.env) == Ok(Vec(b)) && |a| == |b| && |xs| == |indices| == w
    requires forall k :: 0 <= k < w ==> indices[k] < |a + b| && xs[k] == (a + b)[indices[k]]
    ensures RunInstr(Shuffle(d, w, |a|, lhs, rhs, indices), s) == Ok(State(s.env[d := Vec(xs)], s.memory))
  {
    MovedLanes(Shuffle(d, w, |a|, lhs, rhs, indices), s, xs);
  }

  /** An insertion replaces the indexed lane and an extraction reads it; other indices are undefined. */
  lemma InsertAndExtractLaw(d: Name, vector: Operand, element: Operand, index: Operand, s: State, xs: seq<int>,
                            x: int, j: int)
    requires Eval(vector, s.env) == Ok(Vec(xs)) && Eval(element, s.env) == Ok(Num(x))
    requires Eval(index, s.env) == Ok(Num(j)) && xs != []
    ensures RunInstr(InsertElement(d, |xs|, vector, element, index), s) ==
              if 0 <= j < |xs| then Ok(State(s.env[d := Vec(xs[j := x])], s.memory)) else Undef
    ensures RunInstr(ExtractElement(d, |xs|, vector, index), s) ==
              if 0 <= j < |xs| then Ok(State(s.env[d := Num(xs[j])], s.memory)) else Undef
  {
    var i := InsertElement(d, |xs|, vector, element, index);
    if 0 <= j < |xs| {
      MovedLanes(i, s, xs[j := x]);
    } else {
      Undefined(i, |xs|, s);
    }
  }

  lemma {:induction false} Undefined(i: Instr, n: nat, s: State)
    requires LaneWise(i) && n > 0 && forall k :: 0 <= k < n ==> LaneMeaning(i, k, s) == Undef
    ensures AllLanes(i, n, s) == Undef
  {
    if n > 1 {
      Undefined(i, n - 1, s);
    }
  }

  // ---------------------------------------------------------------- stores

  /** Lane `k` writes the cell `a`. */
  predicate Hits(n: int, mask: seq<int>, at: seq<int>, k: int, a: int)
    requires 0 <= k < |mask| == |at|
  {
    Active(n, mask, k) && at[k] == a
  }

  /** Lane `k` is the last to write the cell `a`. */
  ghost predicate LastHit(n: int, mask: seq<int>, at: seq<int>, k: int, a: int)
    requires 0 <= k < |mask| == |at|
  {
    Hits(n, mask, at, k, a) && forall j :: k < j < |at| ==> !Hits(n, mask, at, j, a)
  }

  /** Some active lane leaves a memory of `size` cells. */
  ghost predicate Faults(n: int, mask: seq<int>, at: seq<int>, size: nat)
    requires |mask| == |at|
  {
    exists k :: 0 <= k < |at| && Active(n, mask, k) && !(0 <= at[k] < size)
  }

  /** The memory after active lanes stored `xs` at `at`: the last lane to hit a cell wins. */
  ghost predicate Stored(before: seq<int>, after: seq<int>, n: int, mask: seq<int>, at: seq<int>, xs: seq<int>)
    requires |mask| == |at| == |xs|
  {
    && |after| == |before|
    && (forall a :: 0 <= a < |before| && (forall k :: 0 <= k < |at| ==> !Hits(n, mask, at, k, a)) ==>
          after[a] == before[a])
    && (forall a, k :: 0 <= a < |before| && 0 <= k < |at| && LastHit(n, mask, at, k, a) ==> after[a] == xs[k])
  }

  /** The lanes of a storing operation, read off its operands. */
  ghost predicate StoresAt(i: Instr, s: State, at: seq<int>, xs: seq<int>, n: int, mask: seq<int>)
    requires Storing(i)
  {
    && Guards(i.guard, s, i.width, n, mask) && Eval(i.values, s.env) == Ok(Vec(xs)) && |xs| == |at| == i.width
    && forall k :: 0 <= k < i.width ==> StoreAddress(i, k, s.env) == Ok(at[k])
  }

  lemma WritesAreHits(i: Instr, s: State, at: seq<int>, xs: seq<int>, n: int, mask: seq<int>, k: nat)
    requires Storing(i) && StoresAt(i, s, at, xs, n, mask) && k < i.width
    ensures ActiveAt(i.guard, k, i.width, s.env) == Ok(Active(n, mask, k))
    ensures LaneAt(i.values, k, i.width, s.env) == Ok(xs[k])
    ensures forall a :: Writes(i, k, s.env, a) <==> Hits(n, mask, at, k, a)
  {
  }

  lemma CellStored(i: Instr, s: State, at: seq<int>, xs: seq<int>, n: int, mask: seq<int>, a: nat, x: int)
    requires Storing(i) && StoresAt(i, s, at, xs, n, mask) && a < |s.memory| && LastWriterWins(i, i.width, s, a, x)
    ensures (forall k :: 0 <= k < |at| ==> !Hits(n, mask, at, k, a)) ==> x == s.memory[a]
    ensures forall k :: 0 <= k < |at| && LastHit(n, mask, at, k, a) ==> x == xs[k]
  {
    forall k | 0 <= k < i.width
      ensures LaneAt(i.values, k, i.width, s.env) == Ok(xs[k])
      ensures Writes(i, k, s.env, a) <==> Hits(n, mask, at, k, a)
    {
      WritesAreHits(i, s, at, xs, n, mask, k);
    }
  }

  lemma StoringLaw(i: Instr, s: State, at: seq<int>, xs: seq<int>, n: int, mask: seq<int>)
    requires Storing(i) && StoresAt(i, s, at, xs, n, mask)
    ensures var m := AllEffects(i, i.width, s);
            if Faults(n, mask, at, |s.memory|) then m == Fail
            else m.Ok? && Stored(s.memory, m.value, n, mask, at, xs)
  {
    forall k | 0 <= k < i.width
      ensures ActiveAt(i.guard, k, i.width, s.env).Ok? && LaneAt(i.values, k, i.width, s.env).Ok?
      ensures forall a :: Writes(i, k, s.env, a) <==> Hits(n, mask, at, k, a)
    {
      WritesAreHits(i, s, at, xs, n, mask, k);
    }
    StoreFaults(i, i.width, s);
    if k :| 0 <= k < |at| && Active(n, mask, k) && !(0 <= at[k] < |s.memory|) {
      assert Hits(n, mask, at, k, at[k]);
      assert Writes(i, k, s.env, at[k]);
    } else {
      StoreMeaning(i, i.width, s);
      var m := AllEffects(i, i.width, s).value;
      forall a | 0 <= a < |m|
        ensures (forall k :: 0 <= k < |at| ==> !Hits(n, mask, at, k, a)) ==> m[a] == s.memory[a]
        ensures forall k :: 0 <= k < |at| && LastHit(n, mask, at, k, a) ==> m[a] == xs[k]
      {
        CellStored(i, s, at, xs, n, mask, a, m[a]);
      }
    }
  }

  /** A masked store writes lane `k` to `p + k`. */
  lemma MaskedStoreLaw(d: Name, w: nat, values: Operand, ptr: Operand, g: Guard, s: State, base: int, at: seq<int>,
                       xs: seq<int>, n: int, mask: seq<int>)
    requires Eval(ptr, s.env) == Ok(Num(base)) && Eval(values, s.env) == Ok(Vec(xs)) && Guards(g, s, w, n, mask)
    requires |xs| == |at| == w && forall k :: 0 <= k < w ==> at[k] == base + k
    ensures var r := RunInstr(MaskedStore(d, w, values, ptr, g), s);
            if Faults(n, mask, at, |s.memory|) then r == Fail
            else r.Ok? && r.value.env == s.env && Stored(s.memory, r.value.memory, n, mask, at, xs)
  {
    StoringLaw(MaskedStore(d, w, values, ptr, g), s, at, xs, n, mask);
  }

  /** A scatter writes lane `k` to `p + indices[k]`. */
  lemma ScatterLaw(d: Name, w: nat, values: Operand, ptr: Operand, indices: Operand, g: Guard, s: State, base: int,
                   offsets: seq<int>, at: seq<int>, xs: seq<int>, n: int, mask: seq<int>)
    requires Eval(ptr, s.env) == Ok(Num(base)) && Eval(values, s.env) == Ok(Vec(xs)) && Guards(g, s, w, n, mask)
    requires Eval(indices, s.env) == Ok(Vec(offsets))
    requires |xs| == |at| == |offsets| == w && forall k :: 0 <= k < w ==> at[k] == base + offsets[k]
    ensures var r := RunInstr(Scatter(d, w, values, ptr, indices, g), s);
            if Faults(n, mask, at, |s.memory|) then r == Fail
            else r.Ok? && r.value.env == s.env && Stored(s.memory, r.value.memory, n, mask, at, xs)
  {
    StoringLaw(Scatter(d, w, values, ptr, indices, g), s, at, xs, n, mask);
  }

  // ---------------------------------------------------------------- reductions

  /** The active lanes, in lane order. */
  function Chosen(xs: seq<int>, n: int, mask: seq<int>): seq<int>
    requires |xs| == |mask|
  {
    if xs == [] then []
    else
      var k := |xs| - 1;
      Chosen(xs[..k], n, mask[..k]) + if Active(n, mask, k) then [xs[k]] else []
  }

  /** `v` is the seed and the numbers combined. */
  ghost predicate Gathers(kind: Kind, seed: int, xs: seq<int>, v: int) {
    match kind
    case AddAll => v == seed + Sum(xs)
    case MulAll => v == seed * Product(xs)
    case AndAll => forall k: nat :: Digit(v, k) == 1 <==> AllSet(seed, xs, k)
    case OrAll => forall k: nat :: Digit(v, k) == 1 <==> SomeSet(seed, xs, k)
    case XorAll => forall k: nat :: Digit(v, k) == 1 <==> OddlySet(seed, xs, k)
    case MinAll => (v == seed || v in xs) && v <= seed && forall x :: x in xs ==> v <= x
    case MaxAll => (v == seed || v in xs) && v >= seed && forall x :: x in xs ==> v >= x
  }

  lemma GathersNone(kind: Kind, seed: int)
    ensures Gathers(kind, seed, [], seed)
  {
    forall k: nat
      ensures AllSet(seed, [], k) == SomeSet(seed, [], k) == OddlySet(seed, [], k) == (Digit(seed, k) == 1)
    {
      NoneMore(seed, k);
    }
  }

  lemma GathersMore(kind: Kind, seed: int, xs: seq<int>, v: int, x: int)
    requires Gathers(kind, seed, xs, v)
    ensures Gathers(kind, seed, xs + [x], CombineLane(kind, v, x))
  {
    if kind.AndAll? || kind.OrAll? || kind.XorAll? {
      BitsGatherMore(kind, seed, xs, v, x);
    } else {
      TotalsMore(xs, x);
      assert seed * Product(xs) * x == seed * (Product(xs) * x);
    }
  }

  lemma BitsGatherMore(kind: Kind, seed: int, xs: seq<int>, v: int, x: int)
    requires Gathers(kind, seed, xs, v) && (kind.AndAll? || kind.OrAll? || kind.XorAll?)
    ensures Gathers(kind, seed, xs + [x], CombineLane(kind, v, x))
  {
    var r := CombineLane(kind, v, x);
    forall k: nat
      ensures kind.AndAll? ==> (Digit(r, k) == 1 <==> AllSet(seed, xs + [x], k))
      ensures kind.OrAll? ==> (Digit(r, k) == 1 <==> SomeSet(seed, xs + [x], k))
      ensures kind.XorAll? ==> (Digit(r, k) == 1 <==> OddlySet(seed, xs + [x], k))
    {
      BitwiseDigits(if kind.AndAll? then And else if kind.OrAll? then Or else Xor, v, x, k);
      AllSetMore(seed, xs, x, k);
      SomeSetMore(seed, xs, x, k);
      OddlySetMore(seed, xs, x, k);
      DigitIsBinary(v, k);
      DigitIsBinary(x, k);
    }
  }

  lemma {:induction false} LanesGather(i: Instr, k: nat, s: State, seed: int, xs: seq<int>, n: int, mask: seq<int>)
    requires i.Reduce? && k <= i.width && Guards(i.guard, s, i.width, n, mask)
    requires Eval(i.seed, s.env) == Ok(Num(seed)) && Eval(i.vector, s.env) == Ok(Vec(xs)) && |xs| == i.width
    ensures ReduceLanes(i, k, s).Ok? && Gathers(i.kind, seed, Chosen(xs[..k], n, mask[..k]), ReduceLanes(i, k, s).value)
  {
    if k > 0 {
      LanesGather(i, k - 1, s, seed, xs, n, mask);
      assert xs[..k][..k - 1] == xs[..k - 1] && mask[..k][..k - 1] == mask[..k - 1];
      assert ActiveAt(i.guard, k - 1, i.width, s.env) == Ok(Active(n, mask, k - 1));
      var before, v := Chosen(xs[..k - 1], n, mask[..k - 1]), ReduceLanes(i, k - 1, s).value;
      GathersMore(i.kind, seed, before, v, xs[k - 1]);
      assert before + [] == before;
    } else {
      GathersNone(i.kind, seed);
    }
  }

  /** A reduction combines its active lanes with the seed. */
  lemma ReduceLaw(d: Name, w: nat, kind: Kind, vector: Operand, g: Guard, init: Operand, s: State, seed: int,
                  xs: seq<int>, n: int, mask: seq<int>)
    requires Eval(init, s.env) == Ok(Num(seed)) && Eval(vector, s.env) == Ok(Vec(xs)) && |xs| == w
    requires Guards(g, s, w, n, mask)
    ensures var r := RunInstr(Reduce(d, w, kind, vector, g, init), s);
            && r.Ok? && d in r.value.env && r.value.env[d].Num?
            && Gathers(kind, seed, Chosen(xs, n, mask), r.value.env[d].n)
            && r.value == State(s.env[d := r.value.env[d]], s.memory)
  {
    LanesGather(Reduce(d, w, kind, vector, g, init), w, s, seed, xs, n, mask);
    assert xs[..w] == xs && mask[..w] == mask;
  }

  // ---------------------------------------------------------------- control flow

  /** A branch goes to its first target when the condition is not zero, remembers where it came from
      and changes nothing; a return gives its operand and the memory. */
  lemma TerminatorLaw(o: Operand, at: Label, onTrue: Label, onFalse: Label, s: State, x: int)
    requires Eval(o, s.env) == Ok(Num(x))
    ensures RunTerminator(Br(onTrue), at, s) == Running(Config(onTrue, Some(at), s))
    ensures x != 0 ==> RunTerminator(CondBr(o, onTrue, onFalse), at, s) == Running(Config(onTrue, Some(at), s))
    ensures x == 0 ==> RunTerminator(CondBr(o, onTrue, onFalse), at, s) == Running(Config(onFalse, Some(at), s))
    ensures RunTerminator(Ret(o), at, s) == Returned(x, s.memory)
  {
  }

  /** A phi takes the operand of the first edge from the predecessor and has none without such an edge. */
  lemma {:induction false} EdgeLaw(incoming: seq<Incoming>, predecessor: Label, k: nat)
    requires forall j :: 0 <= j < k && j < |incoming| ==> incoming[j].from != predecessor
    requires k < |incoming| ==> incoming[k].from == predecessor
    ensures IncomingFrom(incoming, Some(predecessor)) == if k < |incoming| then Ok(incoming[k].operand) else Fail
    ensures IncomingFrom(incoming, None) == Fail
  {
    if incoming != [] && k > 0 {
      EdgeLaw(incoming[1..], predecessor, k - 1);
    }
  }
}
