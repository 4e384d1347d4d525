/** If-conversion of a single diamond inside a vector-length-agnostic loop.  The lanes of a vector
    operation that are inactive or at or beyond the explicit vector length hold arbitrary values
    (mask- and tail-agnostic policy): `noise` supplies them and no result may depend on it. */
module IfConversion {
  import opened ElementLoops
  import opened VectorLength

  /** The arbitrary content of lane `lane` of vector operation `op` in the chunk at `iv`. */
  type Noise = (int, int, int) -> int

  /** The iterations that took the then-arm, in iteration order. */
  function Touched(n: int, cond: int -> bool): seq<nat>
    decreases n
  {
    if n <= 0 then [] else Touched(n - 1, cond) + (if cond(n - 1) then [n - 1] else [])
  }

  lemma {:induction false} TouchedExactly(n: int, cond: int -> bool, i: nat)
    ensures i in Touched(n, cond) <==> i < n && cond(i)
    decreases n
  {
    if n > 0 {
      TouchedExactly(n - 1, cond, i);
    }
  }

  /** Each of them is listed once, in iteration order. */
  lemma {:induction false} TouchedInOrder(n: int, cond: int -> bool)
    ensures forall k, l :: 0 <= k < l < |Touched(n, cond)| ==> Touched(n, cond)[k] < Touched(n, cond)[l]
    decreases n
  {
    if n > 0 {
      TouchedInOrder(n - 1, cond);
      var front := Touched(n - 1, cond);
      forall k | 0 <= k < |front| ensures front[k] < n - 1 {
        TouchedExactly(n - 1, cond, front[k]);
      }
    }
  }

  /** What the branchy scalar loop computes in iteration `i`. */
  function Chosen(input: seq<int>, cond: int -> bool, f: int -> int, g: int -> int, i: int): int
    requires 0 <= i < |input|
  {
    if cond(i) then f(input[i]) else g(input[i])
  }

  /** The scalar loop: each arm stores its value, and the merge phi is stored after the join. */
  method ScalarDiamond(input: seq<int>, arm: array<int>, merge: array<int>, n: int,
                       cond: int -> bool, f: int -> int, g: int -> int) returns (touched: seq<nat>)
    requires Clip(n) <= |input| && Clip(n) <= arm.Length && Clip(n) <= merge.Length && arm != merge
    modifies arm, merge
    ensures forall i :: 0 <= i < arm.Length ==>
              arm[i] == if i < n then (if cond(i) then f(input[i]) else g(input[i])) else old(arm[i])
    ensures forall i :: 0 <= i < merge.Length ==>
              merge[i] == if i < n then (if cond(i) then f(input[i]) else g(input[i])) else old(merge[i])
    ensures touched == Touched(n, cond)
  {
    touched := [];
    var lane := 0;
    while lane < n
      invariant lane <= Clip(n)
      invariant forall i :: 0 <= i < arm.Length ==>
                  arm[i] == if i < lane then Chosen(input, cond, f, g, i) else old(arm[i])
      invariant forall i :: 0 <= i < merge.Length ==>
                  merge[i] == if i < lane then Chosen(input, cond, f, g, i) else old(merge[i])
      invariant touched == Touched(lane, cond)
    {
      var merged;
      if cond(lane) {
        merged := f(input[lane]);
        arm[lane] := merged;
        touched := touched + [lane];
      } else {
        merged := g(input[lane]);
        arm[lane] := merged;
      }
      merge[lane] := merged;
      lane := lane + 1;
    }
  }

  /** A lane of a mask-producing vector operation. */
  function MaskLane(inside: bool, value: bool, noise: int): bool {
    if inside then value else noise != 0
  }

  /** The active mask of a chunk of `vlmax` lanes is a splat of true: the explicit vector length is
      what bounds every operation. */
  function ActiveMask(vlmax: nat): (m: seq<bool>)
    ensures |m| == vlmax
  {
    seq(vlmax, _ => true)
  }

  /** The vector comparison of the lane predicate. */
  function ConditionMask(iv: nat, vl: nat, vlmax: nat, cond: int -> bool, noise: Noise): (m: seq<bool>)
    ensures |m| == vlmax && forall lane :: 0 <= lane < vlmax ==>
              m[lane] == MaskLane(lane < vl, cond(iv + lane), noise(0, iv, lane))
  {
    seq(vlmax, lane => MaskLane(lane < vl, cond(iv + lane), noise(0, iv, lane)))
  }

  /** active & condition */
  function ThenMask(iv: nat, vl: nat, active: seq<bool>, condition: seq<bool>, noise: Noise): (m: seq<bool>)
    requires |active| == |condition|
    ensures |m| == |active| && forall lane :: 0 <= lane < |m| ==>
              m[lane] == MaskLane(lane < vl, active[lane] && condition[lane], noise(1, iv, lane))
  {
    seq(|active|, lane requires 0 <= lane < |active| =>
      MaskLane(lane < vl, active[lane] && condition[lane], noise(1, iv, lane)))
  }

  /** active ^ then */
  function ElseMask(iv: nat, vl: nat, active: seq<bool>, thenMask: seq<bool>, noise: Noise): (m: seq<bool>)
    requires |active| == |thenMask|
    ensures |m| == |active| && forall lane :: 0 <= lane < |m| ==>
              m[lane] == MaskLane(lane < vl, active[lane] != thenMask[lane], noise(2, iv, lane))
  {
    seq(|active|, lane requires 0 <= lane < |active| =>
      MaskLane(lane < vl, active[lane] != thenMask[lane], noise(2, iv, lane)))
  }

  /** The then- and else-mask partition exactly the active lanes, as the scalar branch does,
      whatever the inactive lanes hold. */
  lemma MasksPartitionActiveLanes(iv: nat, vl: nat, vlmax: nat, cond: int -> bool, noise: Noise)
    requires vl <= vlmax
    ensures var active := ActiveMask(vlmax);
            var thenMask := ThenMask(iv, vl, active, ConditionMask(iv, vl, vlmax, cond, noise), noise);
            var elseMask := ElseMask(iv, vl, active, thenMask, noise);
            forall lane :: 0 <= lane < vl ==> thenMask[lane] == cond(iv + lane) && elseMask[lane] == !thenMask[lane]
  {
    var active := ActiveMask(vlmax);
    var condition := ConditionMask(iv, vl, vlmax, cond, noise);
    var thenMask := ThenMask(iv, vl, active, condition, noise);
    forall lane | 0 <= lane < vl ensures thenMask[lane] == cond(iv + lane) {
      assert condition[lane] == cond(iv + lane);
    }
  }

  /** A masked store: only lanes below the vector length whose mask bit is set reach memory. */
  method MaskedStore(out: array<int>, iv: nat, vl: nat, mask: seq<bool>, values: seq<int>)
    returns (touched: seq<nat>)
    requires vl <= |mask| == |values| && iv + vl <= out.Length
    modifies out
    ensures forall i :: 0 <= i < out.Length ==>
              out[i] == if iv <= i < iv + vl && mask[i - iv] then values[i - iv] else old(out[i])
    ensures touched == LanesTouched(iv, vl, mask)
  {
    touched := [];
    for lane := 0 to |mask|
      invariant forall i :: 0 <= i < out.Length ==>
                  out[i] == if iv <= i < iv + lane && i < iv + vl && mask[i - iv] then values[i - iv] else old(out[i])
      invariant touched == LanesTouched(iv, Min(lane, vl), mask)
    {
      if lane < vl && mask[lane] {
        out[iv + lane] := values[lane];
        touched := touched + [iv + lane];
      }
    }
  }

  function LanesTouched(iv: nat, vl: nat, mask: seq<bool>): seq<nat>
    requires vl <= |mask|
  {
    if vl == 0 then [] else LanesTouched(iv, vl - 1, mask) + (if mask[vl - 1] then [iv + vl - 1] else [])
  }

  /** The lanes a chunk touches continue the scalar order. */
  lemma {:induction false} LanesExtendTouched(iv: nat, vl: nat, mask: seq<bool>, cond: int -> bool)
    requires vl <= |mask| && forall lane :: 0 <= lane < vl ==> mask[lane] == cond(iv + lane)
    ensures Touched(iv, cond) + LanesTouched(iv, vl, mask) == Touched(iv + vl, cond)
  {
    if vl > 0 {
      LanesExtendTouched(iv, vl - 1, mask, cond);
      assert Touched(iv + vl - 1, cond) + (if mask[vl - 1] then [iv + vl - 1] else []) == Touched(iv + vl, cond);
      assert Touched(iv, cond) + LanesTouched(iv, vl, mask)
        == (Touched(iv, cond) + LanesTouched(iv, vl - 1, mask)) + (if mask[vl - 1] then [iv + vl - 1] else []);
    }
  }

  /** A masked lane-wise operation. */
  function MaskedLanes(vl: nat, mask: seq<bool>, lanes: seq<int>, op: int -> int, noise: int -> int): (r: seq<int>)
    requires |lanes| == |mask|
    ensures |r| == |mask|
  {
    seq(|mask|, lane requires 0 <= lane < |mask| => if lane < vl && mask[lane] then op(lanes[lane]) else noise(lane))
  }

  /** A vector select: the merge phi of the diamond. */
  function Select(mask: seq<bool>, x: seq<int>, y: seq<int>): (r: seq<int>)
    requires |mask| == |x| == |y|
    ensures |r| == |mask|
  {
    seq(|mask|, lane requires 0 <= lane < |mask| => if mask[lane] then x[lane] else y[lane])
  }

  /** Both arms execute under complementary masks; on every active lane the stored value and the
      selected value are what the branch chooses. */
  lemma ArmsChoose(input: seq<int>, lanes: seq<int>, iv: nat, vl: nat, thenMask: seq<bool>, elseMask: seq<bool>,
                   cond: int -> bool, f: int -> int, g: int -> int, x: int -> int, y: int -> int)
    requires vl <= |thenMask| == |elseMask| == |lanes| && iv + vl <= |input|
    requires forall lane :: 0 <= lane < vl ==>
               thenMask[lane] == cond(iv + lane) == !elseMask[lane] && lanes[lane] == input[iv + lane]
    ensures var thenValue, elseValue := MaskedLanes(vl, thenMask, lanes, f, x), MaskedLanes(vl, elseMask, lanes, g, y);
            forall lane :: 0 <= lane < vl ==>
              && Select(thenMask, thenValue, elseValue)[lane] == Chosen(input, cond, f, g, iv + lane)
              && (thenMask[lane] ==> thenValue[lane] == Chosen(input, cond, f, g, iv + lane))
              && (elseMask[lane] ==> elseValue[lane] == Chosen(input, cond, f, g, iv + lane))
  {
  }

  /** The lanes of a vector load of `vl` elements. */
  function LoadedLanes(input: seq<int>, iv: nat, vl: nat, vlmax: nat, noise: Noise): (r: seq<int>)
    requires vl <= vlmax && iv + vl <= |input|
    ensures |r| == vlmax
  {
    seq(vlmax, lane requires 0 <= lane < vlmax => if lane < vl then input[iv + lane] else noise(3, iv, lane))
  }

  /** The vector values of one chunk: both masks, both arms and the merged value. */
  method ChunkLanes(input: seq<int>, iv: nat, vl: nat, vlmax: nat, cond: int -> bool, f: int -> int, g: int -> int,
                    noise: Noise)
    returns (thenMask: seq<bool>, elseMask: seq<bool>, thenValue: seq<int>, elseValue: seq<int>, merged: seq<int>)
    requires vl <= vlmax && iv + vl <= |input|
    ensures |thenMask| == |elseMask| == |thenValue| == |elseValue| == |merged| == vlmax
    ensures forall lane :: 0 <= lane < vl ==> thenMask[lane] == cond(iv + lane) == !elseMask[lane]
    ensures forall lane :: 0 <= lane < vl ==>
              && merged[lane] == Chosen(input, cond, f, g, iv + lane)
              && (thenMask[lane] ==> thenValue[lane] == Chosen(input, cond, f, g, iv + lane))
              && (elseMask[lane] ==> elseValue[lane] == Chosen(input, cond, f, g, iv + lane))
  {
    var lanes := LoadedLanes(input, iv, vl, vlmax, noise);
    var active := ActiveMask(vlmax);
    thenMask := ThenMask(iv, vl, active, ConditionMask(iv, vl, vlmax, cond, noise), noise);
    elseMask := ElseMask(iv, vl, active, thenMask, noise);
    MasksPartitionActiveLanes(iv, vl, vlmax, cond, noise);
    var x, y := lane => noise(4, iv, lane), lane => noise(5, iv, lane);
    thenValue := MaskedLanes(vl, thenMask, lanes, f, x);
    elseValue := MaskedLanes(vl, elseMask, lanes, g, y);
    merged := Select(thenMask, thenValue, elseValue);
    ArmsChoose(input, lanes, iv, vl, thenMask, elseMask, cond, f, g, x, y);
  }

  /** One chunk of the if-converted loop. */
  method DiamondChunk(input: seq<int>, arm: array<int>, merge: array<int>, iv: nat, vl: nat, vlmax: nat,
                      cond: int -> bool, f: int -> int, g: int -> int, noise: Noise) returns (touched: seq<nat>)
    requires vl <= vlmax && iv + vl <= |input| && iv + vl <= arm.Length && iv + vl <= merge.Length && arm != merge
    modifies arm, merge
    ensures forall i :: 0 <= i < arm.Length ==>
              arm[i] == if iv <= i < iv + vl then Chosen(input, cond, f, g, i) else old(arm[i])
    ensures forall i :: 0 <= i < merge.Length ==>
              merge[i] == if iv <= i < iv + vl then Chosen(input, cond, f, g, i) else old(merge[i])
    ensures Touched(iv, cond) + touched == Touched(iv + vl, cond)
  {
    var thenMask, elseMask, thenValue, elseValue, merged := ChunkLanes(input, iv, vl, vlmax, cond, f, g, noise);
    LanesExtendTouched(iv, vl, thenMask, cond);
    touched := StoreArms(arm, iv, vl, thenMask, elseMask, thenValue, elseValue,
                         i requires 0 <= i < |input| => Chosen(input, cond, f, g, i));
    var _ := MaskedStore(merge, iv, vl, ActiveMask(vlmax), merged);
    forall i | iv <= i < iv + vl ensures merge[i] == Chosen(input, cond, f, g, i) {
      assert i == iv + (i - iv) && ActiveMask(vlmax)[i - iv];
    }
  }

  /** Two masked stores whose masks partition the active lanes write every active lane once. */
  method StoreArms(arm: array<int>, iv: nat, vl: nat, thenMask: seq<bool>, elseMask: seq<bool>,
                   thenValue: seq<int>, elseValue: seq<int>, ghost value: int --> int) returns (touched: seq<nat>)
    requires vl <= |thenMask| == |elseMask| == |thenValue| == |elseValue| && iv + vl <= arm.Length
    requires forall i :: iv <= i < iv + vl ==> value.requires(i)
    requires forall lane :: 0 <= lane < vl ==>
               && elseMask[lane] == !thenMask[lane]
               && (thenMask[lane] ==> thenValue[lane] == value(iv + lane))
               && (elseMask[lane] ==> elseValue[lane] == value(iv + lane))
    modifies arm
    ensures forall i :: 0 <= i < arm.Length ==> arm[i] == if iv <= i < iv + vl then value(i) else old(arm[i])
    ensures touched == LanesTouched(iv, vl, thenMask)
  {
    touched := MaskedStore(arm, iv, vl, thenMask, thenValue);
    var _ := MaskedStore(arm, iv, vl, elseMask, elseValue);
    forall i | iv <= i < iv + vl ensures arm[i] == value(i) {
      assert i == iv + (i - iv);
      assert elseMask[i - iv] == !thenMask[i - iv];
    }
  }

  /** The if-converted loop: same arrays, same then-touched lanes in the same order, and `iv` ends
      at the trip count, for every trip count, lane predicate, arm, vector length and noise. */
  method VlaDiamond(input: seq<int>, arm: array<int>, merge: array<int>, n: int, vlmax: nat,
                    cond: int -> bool, f: int -> int, g: int -> int, noise: Noise)
    returns (touched: seq<nat>, iv: nat)
    requires vlmax > 0
    requires Clip(n) <= |input| && Clip(n) <= arm.Length && Clip(n) <= merge.Length && arm != merge
    modifies arm, merge
    ensures forall i :: 0 <= i < arm.Length ==>
              arm[i] == if i < n then (if cond(i) then f(input[i]) else g(input[i])) else old(arm[i])
    ensures forall i :: 0 <= i < merge.Length ==>
              merge[i] == if i < n then (if cond(i) then f(input[i]) else g(input[i])) else old(merge[i])
    ensures touched == Touched(n, cond)
    ensures iv == Clip(n)
  {
    var remaining: nat := Clip(n);
    iv, touched := 0, [];
    while remaining != 0
      invariant iv <= Clip(n) && remaining == Clip(n) - iv
      invariant forall i :: 0 <= i < arm.Length ==>
                  arm[i] == if i < iv then Chosen(input, cond, f, g, i) else old(arm[i])
      invariant forall i :: 0 <= i < merge.Length ==>
                  merge[i] == if i < iv then Chosen(input, cond, f, g, i) else old(merge[i])
      invariant touched == Touched(iv, cond)
      decreases remaining
    {
      var actualVl := SetVL(remaining, vlmax);
      var chunkTouched := DiamondChunk(input, arm, merge, iv, actualVl, vlmax, cond, f, g, noise);
      touched := touched + chunkTouched;
      iv := iv + actualVl;
      remaining := remaining - actualVl;
    }
  }

  /** What the then-only scalar loop leaves in element `i`. */
  function ThenOnly(base: int -> int, taken: int -> int, cond: int -> bool, i: int): int {
    if cond(i) then taken(i) else base(i)
  }

  /** The scalar loop without an else-arm: an unconditional store, then a guarded one. */
  method ScalarThenOnly(out: array<int>, n: int, cond: int -> bool, base: int -> int, taken: int -> int)
    returns (touched: seq<nat>)
    requires Clip(n) <= out.Length
    modifies out
    ensures forall i :: 0 <= i < out.Length ==>
              out[i] == if i < n then (if cond(i) then taken(i) else base(i)) else old(out[i])
    ensures touched == Touched(n, cond)
  {
    touched := [];
    var lane := 0;
    while lane < n
      invariant lane <= Clip(n)
      invariant forall i :: 0 <= i < out.Length ==>
                  out[i] == if i < lane then ThenOnly(base, taken, cond, i) else old(out[i])
      invariant touched == Touched(lane, cond)
    {
      out[lane] := base(lane);
      if cond(lane) {
        out[lane] := taken(lane);
        touched := touched + [lane];
      }
      lane := lane + 1;
    }
  }

  function LaneValues(iv: nat, vlmax: nat, value: int -> int): (r: seq<int>)
    ensures |r| == vlmax && forall lane :: 0 <= lane < vlmax ==> r[lane] == value(iv + lane)
  {
    seq(vlmax, lane => value(iv + lane))
  }

  method ThenOnlyChunk(out: array<int>, iv: nat, vl: nat, vlmax: nat, cond: int -> bool, base: int -> int,
                       taken: int -> int, noise: Noise) returns (touched: seq<nat>)
    requires vl <= vlmax && iv + vl <= out.Length
    modifies out
    ensures forall i :: 0 <= i < out.Length ==>
              out[i] == if iv <= i < iv + vl then ThenOnly(base, taken, cond, i) else old(out[i])
    ensures Touched(iv, cond) + touched == Touched(iv + vl, cond)
  {
    var active := ActiveMask(vlmax);
    var thenMask := ThenMask(iv, vl, active, ConditionMask(iv, vl, vlmax, cond, noise), noise);
    MasksPartitionActiveLanes(iv, vl, vlmax, cond, noise);
    LanesExtendTouched(iv, vl, thenMask, cond);
    var baseLanes, takenLanes := LaneValues(iv, vlmax, base), LaneValues(iv, vlmax, taken);
    var _ := MaskedStore(out, iv, vl, active, baseLanes);
    touched := MaskedStore(out, iv, vl, thenMask, takenLanes);
    forall i | iv <= i < iv + vl ensures out[i] == ThenOnly(base, taken, cond, i) {
      var lane := i - iv;
      assert thenMask[lane] == cond(iv + lane);
      assert baseLanes[lane] == base(i) && takenLanes[lane] == taken(i);
    }
  }

  /** The predicated loop without an else-arm never touches a lane the scalar loop does not. */
  method VlaThenOnly(out: array<int>, n: int, vlmax: nat, cond: int -> bool, base: int -> int, taken: int -> int,
                     noise: Noise) returns (touched: seq<nat>, iv: nat)
    requires vlmax > 0 && Clip(n) <= out.Length
    modifies out
    ensures forall i :: 0 <= i < out.Length ==>
              out[i] == if i < n then (if cond(i) then taken(i) else base(i)) else old(out[i])
    ensures touched == Touched(n, cond) && iv == Clip(n)
    ensures forall i :: i in touched ==> i < n
  {
    var remaining: nat := Clip(n);
    iv, touched := 0, [];
    while remaining != 0
      invariant iv <= Clip(n) && remaining == Clip(n) - iv
      invariant forall i :: 0 <= i < out.Length ==>
                  out[i] == if i < iv then ThenOnly(base, taken, cond, i) else old(out[i])
      invariant touched == Touched(iv, cond)
      decreases remaining
    {
      var actualVl := SetVL(remaining, vlmax);
      var chunkTouched := ThenOnlyChunk(out, iv, actualVl, vlmax, cond, base, taken, noise);
      touched := touched + chunkTouched;
      iv := iv + actualVl;
      remaining := remaining - actualVl;
    }
    forall i | i in touched ensures i < n {
      TouchedExactly(n, cond, i);
    }
    assert Touched(n, cond) == Touched(iv, cond) by { if n <= 0 { assert iv == 0; } }
  }
}
