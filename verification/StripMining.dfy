/** Strip-mined loops with a signed stride: the element addresses a vector-length-agnostic loop
    touches, chunk by chunk, against the addresses of the scalar loop.  Reverse chunks address
    memory as a low base plus non-negative per-lane offsets. */
module StripMining {
  import opened VectorLength

  const INT32_MAX: int := 0x7fff_ffff

  function Magnitude(stride: int): int {
    if stride < 0 then -stride else stride
  }

  /** Number of scalar iterations: ceil(max(n, 0) / |stride|). */
  function IterationCount(n: int, stride: int): nat
    requires stride != 0
  {
    if n > 0 then CeilDiv(n, Magnitude(stride)) else 0
  }

  /** The induction value of the first iteration. */
  function Start(n: int, stride: int): int {
    if stride > 0 then 0 else n - 1
  }

  /** The address of every iteration, in iteration order. */
  function Addresses(n: int, stride: int): seq<int>
    requires stride != 0
  {
    seq(IterationCount(n, stride), k => Start(n, stride) + k * stride)
  }

  /** `iv` of iteration `k` is inside the array exactly while iterations remain. */
  lemma InRange(n: int, stride: int, k: nat)
    requires stride != 0
    ensures k < IterationCount(n, stride) <==> k * Magnitude(stride) < n
    ensures stride > 0 ==> (Start(n, stride) + k * stride < n <==> k < IterationCount(n, stride))
    ensures stride < 0 ==> (Start(n, stride) + k * stride >= 0 <==> k < IterationCount(n, stride))
  {
    var m := Magnitude(stride);
    if n > 0 {
      var q, r := n / m, n % m;
      assert n == m * q + r;
      assert k * m - n == m * (k - q) - r by {
        assert m * (k - q) == m * k - m * q;
      }
      MulAbs(m, k - q);
      MulAbs(m, k - q - 1);
      assert m * (k - q) == m * (k - q - 1) + m;
    } else {
      assert k * m >= 0;
    }
    assert stride < 0 ==> k * stride == -(k * m) by {
      if stride < 0 { assert k * stride == k * -m; }
    }
  }

  /** The closed form lists exactly the in-range addresses congruent to the start. */
  lemma AddressesExact(n: int, stride: int, x: int)
    requires stride != 0
    ensures x in Addresses(n, stride) <==> 0 <= x < n && (x - Start(n, stride)) % Magnitude(stride) == 0
  {
    if x in Addresses(n, stride) {
      var k :| 0 <= k < IterationCount(n, stride) && Addresses(n, stride)[k] == x;
      IterationAddress(n, stride, k);
    }
    if 0 <= x < n && (x - Start(n, stride)) % Magnitude(stride) == 0 {
      var k := AddressIteration(n, stride, x);
      assert Addresses(n, stride)[k] == x;
    }
  }

  /** The addresses without any of the terms above: the first is an end of the array, the next is one
      stride away, and one stride after the last the array is left. */
  lemma AddressesStepByStride(n: int, stride: int)
    requires stride != 0
    ensures var xs := Addresses(n, stride);
            && (n <= 0 <==> xs == [])
            && (n > 0 ==>
                  && xs[0] == (if stride > 0 then 0 else n - 1)
                  && (forall k :: 0 < k < |xs| ==> xs[k] == xs[k - 1] + stride)
                  && !(0 <= xs[|xs| - 1] + stride < n))
  {
    if n > 0 {
      var c := IterationCount(n, stride);
      InRange(n, stride, 0);
      InRange(n, stride, c);
      forall k | 0 < k < c ensures k * stride == (k - 1) * stride + stride {
      }
      assert c * stride == (c - 1) * stride + stride;
    }
  }

  lemma ExitIsPastLast(n: int, stride: int)
    requires stride != 0
    ensures var xs := Addresses(n, stride);
            Start(n, stride) + |xs| * stride ==
              if n > 0 then xs[|xs| - 1] + stride else if stride > 0 then 0 else n - 1
  {
    if n > 0 {
      var c := IterationCount(n, stride);
      InRange(n, stride, 0);
      assert c * stride == (c - 1) * stride + stride;
    }
  }

  /** Membership: the multiples of an advancing stride, or what a receding one reaches from the end. */
  lemma AddressesAreMultiples(n: int, stride: int, x: int)
    requires stride != 0
    ensures stride > 0 ==> (x in Addresses(n, stride) <==> 0 <= x < n && x % stride == 0)
    ensures stride < 0 ==> (x in Addresses(n, stride) <==> 0 <= x < n && (n - 1 - x) % -stride == 0)
  {
    AddressesExact(n, stride, x);
    if stride < 0 {
      NegatedMultiple(x - (n - 1), -stride);
    }
  }

  lemma NegatedMultiple(x: int, m: int)
    requires m > 0
    ensures x % m == 0 <==> -x % m == 0
  {
    if x % m == 0 {
      ModOfMultiple(m, -(x / m));
      assert -x == m * -(x / m);
    }
    if -x % m == 0 {
      ModOfMultiple(m, -(-x / m));
      assert x == m * -(-x / m);
    }
  }

  lemma IterationAddress(n: int, stride: int, k: nat)
    requires stride != 0 && k < IterationCount(n, stride)
    ensures 0 <= Start(n, stride) + k * stride < n
    ensures (k * stride) % Magnitude(stride) == 0
  {
    var m := Magnitude(stride);
    InRange(n, stride, k);
    var t: int := if stride > 0 then k else 0 - k;
    assert k * stride == m * t;
    ModOfMultiple(m, t);
    assert k * m >= 0;
    assert stride < 0 ==> k * stride == -(k * m) <= 0;
  }

  lemma AddressIteration(n: int, stride: int, x: int) returns (k: nat)
    requires stride != 0
    requires 0 <= x < n && (x - Start(n, stride)) % Magnitude(stride) == 0
    ensures k < IterationCount(n, stride) && Start(n, stride) + k * stride == x
  {
    var m := Magnitude(stride);
    var t := (x - Start(n, stride)) / m;
    assert x - Start(n, stride) == m * t;
    MulAbs(m, t);
    if stride > 0 {
      k := t;
    } else {
      k := -t;
      assert k * stride == m * t;
    }
    InRange(n, stride, k);
  }

  lemma ModOfMultiple(m: int, t: int)
    requires m > 0
    ensures (m * t) % m == 0
  {
    var q, r := (m * t) / m, (m * t) % m;
    assert m * t == m * q + r;
    assert m * (t - q) == r by {
      assert m * (t - q) == m * t - m * q;
    }
    MulAbs(m, t - q);
  }

  /** Every induction value either loop holds, its final one included, overshoots the array by
      less than one stride: nothing wraps once n + |stride| - 1 fits the machine integer. */
  lemma InductionBounds(n: int, stride: int, done: nat)
    requires stride != 0 && n > 0 && done <= IterationCount(n, stride)
    ensures -Magnitude(stride) <= Start(n, stride) + done * stride < n + Magnitude(stride)
  {
    var m := Magnitude(stride);
    if done > 0 {
      InRange(n, stride, done - 1);
      assert done * m == (done - 1) * m + m;
      assert (done - 1) * m >= 0;
      assert stride < 0 ==> done * stride == -(done * m) by {
        if stride < 0 { assert done * stride == done * -m; }
      }
    }
  }

  /** The scalar loop; `exit` is the induction value it leaves with. */
  method ScalarStrideAddresses(n: int, stride: int) returns (result: seq<int>, exit: int)
    requires stride != 0
    ensures result == Addresses(n, stride)
    ensures exit == if n > 0 then result[|result| - 1] + stride else if stride > 0 then 0 else n - 1
  {
    result, exit := [], if stride > 0 then 0 else n - 1;
    InRange(n, stride, 0);
    while if stride > 0 then exit < n else exit >= 0
      invariant |result| <= IterationCount(n, stride)
      invariant result == Addresses(n, stride)[..|result|]
      invariant exit == Start(n, stride) + |result| * stride
      decreases IterationCount(n, stride) - |result|
    {
      InRange(n, stride, |result|);
      result := result + [exit];
      assert |result| * stride == (|result| - 1) * stride + stride;
      exit := exit + stride;
    }
    InRange(n, stride, |result|);
    ExitIsPastLast(n, stride);
  }

  /** The memory lanes of one chunk: the base pointer and index vector the gather or scatter
      uses, and the addresses they name.  A negative stride biases the base down to the last
      lane, so that all indices are non-negative. */
  method IndexedChunkAddresses(laneZeroBase: int, stride: int, actualVl: int)
    returns (result: seq<int>, lowBase: int, indices: seq<int>)
    requires stride != 0
    ensures |result| == |indices| == if actualVl > 0 then actualVl else 0
    ensures forall lane :: 0 <= lane < |result| ==>
              result[lane] == laneZeroBase + lane * stride && result[lane] == lowBase + indices[lane]
    ensures forall lane :: 0 <= lane < |indices| ==>
              0 <= indices[lane] <= (|indices| - 1) * Magnitude(stride)
    ensures forall l1, l2 :: 0 <= l1 < l2 < |indices| ==> indices[l1] != indices[l2]
  {
    result, lowBase, indices := [], laneZeroBase, [];
    if actualVl <= 0 {
      return;
    }
    var magnitude := Magnitude(stride);
    var lastLane := actualVl - 1;
    if stride < 0 {
      lowBase := laneZeroBase + lastLane * stride;
    }
    for lane := 0 to actualVl
      invariant |result| == |indices| == lane
      invariant forall l :: 0 <= l < lane ==>
                  indices[l] == (if stride > 0 then l else lastLane - l) * magnitude
      invariant forall l :: 0 <= l < lane ==> result[l] == lowBase + indices[l]
    {
      var index := (if stride > 0 then lane else lastLane - lane) * magnitude;
      indices := indices + [index];
      result := result + [lowBase + index];
    }
    forall lane | 0 <= lane < actualVl
      ensures result[lane] == laneZeroBase + lane * stride
      ensures 0 <= indices[lane] <= lastLane * magnitude
    {
      LaneOffset(stride, lastLane, lane);
    }
    forall l1, l2 | 0 <= l1 < l2 < actualVl ensures indices[l1] != indices[l2] {
      DistinctOffsets(magnitude, l1, l2);
      DistinctOffsets(magnitude, lastLane - l2, lastLane - l1);
    }
  }

  lemma LaneOffset(stride: int, last: nat, lane: nat)
    requires stride != 0 && lane <= last
    ensures 0 <= lane * Magnitude(stride) <= last * Magnitude(stride)
    ensures 0 <= (last - lane) * Magnitude(stride) <= last * Magnitude(stride)
    ensures stride < 0 ==> last * stride + (last - lane) * Magnitude(stride) == lane * stride
  {
    var m := Magnitude(stride);
    assert last * m == lane * m + (last - lane) * m;
    assert lane * m >= 0 && (last - lane) * m >= 0;
    if stride < 0 {
      assert last * stride == lane * stride + (last - lane) * stride;
      assert (last - lane) * stride == (last - lane) * -m == -((last - lane) * m);
    }
  }

  lemma DistinctOffsets(m: int, x: int, y: int)
    requires m > 0 && x < y
    ensures x * m < y * m
  {
    assert y * m - x * m == m * (y - x);
    MulAbs(m, y - x);
  }

  /** The bound the transform relies on: for every admitted reverse stride and the largest
      architectural chunk, the scaled byte offset of every lane fits a signed 32-bit index. */
  lemma ReverseByteOffsetsFitInt32(stride: int, minLanes: nat, vscale: nat, actualVl: nat, lane: nat)
    requires -4 <= stride < 0
    requires minLanes <= 16384 && vscale <= 65536 / 32
    requires lane < actualVl <= minLanes * vscale
    ensures 0 <= (actualVl - 1 - lane) * Magnitude(stride) * 4 <= INT32_MAX
  {
    assert minLanes * vscale <= 16384 * vscale <= 16384 * 2048 by {
      assert (16384 - minLanes) * vscale >= 0;
    }
    var x := actualVl - 1 - lane;
    assert 0 <= x * Magnitude(stride) <= x * 4 by {
      assert x * (4 - Magnitude(stride)) >= 0;
    }
  }

  /** The vector-length-agnostic loop, for every vector length the hardware may choose: the same
      addresses in the same order as the scalar loop, and the same exit induction value. */
  method VlaStrideAddresses(n: int, stride: int, vlmax: nat) returns (result: seq<int>, exit: int)
    requires stride != 0 && vlmax > 0
    ensures result == Addresses(n, stride)
    ensures exit == if n > 0 then result[|result| - 1] + stride else if stride > 0 then 0 else n - 1
  {
    var magnitude := if stride < 0 then -stride else stride;
    var remaining := if n > 0 then n / magnitude + (if n % magnitude != 0 then 1 else 0) else 0;
    var base := if stride > 0 then 0 else n - 1;
    result := [];
    while remaining != 0
      invariant 0 <= remaining <= IterationCount(n, stride)
      invariant |result| == IterationCount(n, stride) - remaining
      invariant result == Addresses(n, stride)[..|result|]
      invariant base == Start(n, stride) + |result| * stride
      decreases remaining
    {
      var actualVl := SetVL(remaining, vlmax);
      var chunk, _, _ := IndexedChunkAddresses(base, stride, actualVl);
      ghost var done := |result|;
      forall lane | 0 <= lane < actualVl ensures chunk[lane] == Addresses(n, stride)[done + lane] {
        assert (done + lane) * stride == done * stride + lane * stride;
      }
      result := result + chunk;
      assert (done + actualVl) * stride == done * stride + actualVl * stride;
      base := base + actualVl * stride;
      remaining := remaining - actualVl;
    }
    exit := base;
    ExitIsPastLast(n, stride);
  }

  /** Every address of the vector loop is inside the array. */
  lemma AddressesInBounds(n: int, stride: int)
    requires stride != 0
    ensures forall x :: x in Addresses(n, stride) ==> 0 <= x < n
  {
    forall x | x in Addresses(n, stride) ensures 0 <= x < n {
      AddressesExact(n, stride, x);
    }
  }
}
