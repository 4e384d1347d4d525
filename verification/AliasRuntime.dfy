/** The run-time alias check: whether the byte ranges of two affine streams are representable and
    disjoint.  `top` is UINTPTR_MAX; every conversion to `uintptr_t` is written out. */
module AliasRuntime {

  const INT32_MIN: int := -0x8000_0000
  const INT32_MAX: int := 0x7fff_ffff

  type Int32 = x: int | INT32_MIN <= x <= INT32_MAX

  /** One affine access stream: `count` elements of `bytes` bytes, `stride` elements apart. */
  datatype Stream = Stream(base: nat, count: Int32, stride: Int32, bytes: Int32)

  datatype Range = Range(begin: int, end: int)

  /** Distance in bytes between consecutive elements. */
  function Step(s: Stream): int {
    s.stride * s.bytes
  }

  /** Address of byte `b` of element `i`, in unbounded arithmetic. */
  function ByteAddress(s: Stream, i: int, b: int): int {
    s.base + i * Step(s) + b
  }

  /** Some iteration of the stream touches address `x`. */
  ghost predicate Touches(s: Stream, x: int) {
    exists i, b :: 0 <= i < s.count && 0 <= b < s.bytes && ByteAddress(s, i, b) == x
  }

  /** First element in address order. */
  function LowestElement(s: Stream): int {
    if s.stride < 0 then s.count - 1 else 0
  }

  /** Last element in address order. */
  function HighestElement(s: Stream): int {
    if s.stride < 0 then 0 else s.count - 1
  }

  /** The half-open byte range from the lowest to the highest touched address. */
  function Hull(s: Stream): Range {
    Range(ByteAddress(s, LowestElement(s), 0), ByteAddress(s, HighestElement(s), s.bytes))
  }

  /** The streams that touch something and whose hull consists of `uintptr_t` values. */
  predicate Representable(s: Stream, top: nat) {
    && s.count > 0 && s.bytes > 0 && s.stride != INT32_MIN
    && Hull(s).begin >= 0 && Hull(s).end <= top
  }

  /** Conversion of a non-negative integer to `uintptr_t`. */
  function ToUintptr(x: nat, top: nat): nat {
    x % (top + 1)
  }

  /** The object behind a `uintptr_t *` out-parameter. */
  class Cell {
    var value: nat
    constructor ()
      ensures value == 0
    {
      value := 0;
    }
  }

  method CheckedMulUintptr(lhs: nat, rhs: nat, top: nat, result: Cell) returns (ok: bool)
    requires lhs <= top && rhs <= top
    modifies result
    ensures ok == (lhs * rhs <= top)
    ensures result.value == if ok then lhs * rhs else old(result.value)
  {
    if lhs != 0 {
      QuotientBound(lhs, rhs, top);
      if rhs > top / lhs {
        return false;
      }
    }
    NoWrap(lhs * rhs, top);
    result.value := ToUintptr(lhs * rhs, top);
    return true;
  }

  lemma NoWrap(x: nat, top: nat)
    requires x <= top
    ensures ToUintptr(x, top) == x
  {
  }

  lemma {:induction false} MultiplyUpTo(d: nat, x: nat, y: nat)
    requires x <= y
    ensures d * x <= d * y
  {
    if x < y {
      MultiplyUpTo(d, x, y - 1);
      assert d * y == d * (y - 1) + d;
    }
  }

  lemma QuotientBound(d: nat, x: nat, top: nat)
    requires d != 0
    ensures x > top / d <==> d * x > top
  {
    var q := top / d;
    assert d * q <= top < d * q + d;
    if x > q {
      MultiplyUpTo(d, q + 1, x);
      assert d * (q + 1) == d * q + d;
    } else {
      MultiplyUpTo(d, x, q);
    }
  }

  method CheckedAddUintptr(lhs: nat, rhs: nat, top: nat, result: Cell) returns (ok: bool)
    requires lhs <= top && rhs <= top
    modifies result
    ensures ok == (lhs + rhs <= top)
    ensures result.value == if ok then lhs + rhs else old(result.value)
  {
    if rhs > top - lhs {
      return false;
    }
    NoWrap(lhs + rhs, top);
    result.value := ToUintptr(lhs + rhs, top);
    return true;
  }

  function StrideMagnitude(s: Stream): nat {
    var stride: int := s.stride;
    if stride < 0 then 0 - stride else stride
  }

  /** Distance in bytes from the lowest to the highest element, as the runtime multiplies it out. */
  function ByteSpan(s: Stream): int {
    (s.count - 1) * StrideMagnitude(s) * s.bytes
  }

  lemma MulNonNegative(x: int, y: int)
    requires x >= 0 && y >= 0
    ensures x * y >= 0
    ensures y >= 1 ==> x * y >= x
  {
    if y >= 1 { assert x * y == x + x * (y - 1); }
  }

  lemma SpanLaws(s: Stream)
    requires s.count > 0 && s.bytes > 0
    ensures 0 <= (s.count - 1) * StrideMagnitude(s) <= ByteSpan(s)
    ensures s.stride < 0 ==> Hull(s) == Range(s.base - ByteSpan(s), s.base + s.bytes)
    ensures s.stride >= 0 ==> Hull(s) == Range(s.base, s.base + ByteSpan(s) + s.bytes)
  {
    var c, m, b := s.count - 1, StrideMagnitude(s), s.bytes as int;
    MulNonNegative(c, m);
    MulNonNegative(c * m, b);
    assert c * m * b == c * (m * b);
    if s.stride < 0 {
      assert Step(s) == -m * b == -(m * b);
      assert c * -(m * b) == -(c * (m * b));
    }
  }

  // ---------------------------------------------------------------- the computation, for any width

  /** Iterations times stride, after the conversions. */
  function IterationSpan(s: Stream, top: nat): nat
    requires s.count > 0
  {
    ToUintptr(s.count - 1, top) * ToUintptr(StrideMagnitude(s), top)
  }

  /** The range the runtime computes, after the conversions. */
  function Computed(s: Stream, top: nat): Range
    requires s.count > 0 && s.bytes > 0
  {
    var bytes := ToUintptr(s.bytes, top);
    var span := IterationSpan(s, top) * bytes;
    if s.stride < 0 then Range(s.base - span, s.base + bytes) else Range(s.base, s.base + span + bytes)
  }

  /** The streams the runtime describes. */
  predicate Accepted(s: Stream, top: nat) {
    && s.count > 0 && s.bytes > 0 && s.stride != INT32_MIN
    && IterationSpan(s, top) <= top
    && Computed(s, top).begin >= 0 && Computed(s, top).end <= top
  }

  /** No intermediate overflow check rejects a stream whose computed range fits, and an accepted
      stream is described by precisely that range. */
  method DescribeRange(s: Stream, top: nat, begin: Cell, end: Cell) returns (ok: bool)
    requires s.base <= top && begin != end
    modifies begin, end
    ensures ok == Accepted(s, top)
    ensures ok ==> Range(begin.value, end.value) == Computed(s, top)
  {
    if s.count <= 0 || s.bytes <= 0 || s.stride == INT32_MIN {
      return false;
    }
    var strideMagnitude :=
      if s.stride < 0 then ToUintptr(0 - s.stride as int, top) else ToUintptr(s.stride, top);
    var iterationSpan := new Cell();
    var byteSpan := new Cell();
    MulNonNegative(IterationSpan(s, top), ToUintptr(s.bytes, top));
    ok := CheckedMulUintptr(ToUintptr(s.count - 1, top), strideMagnitude, top, iterationSpan);
    if !ok {
      return false;
    }
    ok := CheckedMulUintptr(iterationSpan.value, ToUintptr(s.bytes, top), top, byteSpan);
    if !ok {
      return false;
    }
    if s.stride < 0 {
      if byteSpan.value > s.base {
        return false;
      }
      ok := CheckedAddUintptr(s.base, ToUintptr(s.bytes, top), top, end);
      if !ok {
        return false;
      }
      begin.value := s.base - byteSpan.value;
      return true;
    }
    begin.value := s.base;
    ok := CheckedAddUintptr(s.base, byteSpan.value, top, end);
    if !ok {
      return false;
    }
    ok := CheckedAddUintptr(end.value, ToUintptr(s.bytes, top), top, end);
  }

  /** The answer, as a condition on the two streams. */
  predicate DisjointAnswer(l: Stream, r: Stream, top: nat) {
    || l.count == 0
    || r.count == 0
    || (&& Accepted(l, top) && Accepted(r, top)
        && (Computed(l, top).end <= Computed(r, top).begin || Computed(r, top).end <= Computed(l, top).begin))
  }

  method RangesDisjoint(l: Stream, r: Stream, top: nat) returns (disjoint: bool)
    requires l.base <= top && r.base <= top
    ensures disjoint == DisjointAnswer(l, r, top)
  {
    if l.count == 0 || r.count == 0 {
      return true;
    }
    var lb := new Cell();
    var le := new Cell();
    var rb := new Cell();
    var re := new Cell();
    var ok := DescribeRange(l, top, lb, le);
    if !ok {
      return false;
    }
    ok := DescribeRange(r, top, rb, re);
    if !ok {
      return false;
    }
    return le.value <= rb.value || re.value <= lb.value;
  }

  // ---------------------------------------------------------------- exactness and soundness

  /** The conversions truncate nothing of the stream. */
  predicate Untruncated(s: Stream, top: nat) {
    s.base <= top && s.count - 1 <= top && s.bytes <= top && (s.stride != INT32_MIN ==> StrideMagnitude(s) <= top)
  }

  lemma WideIsUntruncated(s: Stream, top: nat)
    requires INT32_MAX <= top && s.base <= top
    ensures Untruncated(s, top)
  {
  }

  /** Exactly the representable streams are described, by their hulls, if nothing is truncated. */
  lemma UntruncatedDescription(s: Stream, top: nat)
    requires Untruncated(s, top)
    ensures Accepted(s, top) <==> Representable(s, top)
    ensures Accepted(s, top) ==> Computed(s, top) == Hull(s)
  {
    if s.count > 0 && s.bytes > 0 && s.stride != INT32_MIN {
      NoWrap(StrideMagnitude(s), top);
      NoWrap(s.count - 1, top);
      NoWrap(s.bytes, top);
      SpanLaws(s);
    }
  }

  /** Descriptions are exact on every stream: accepted if and only if representable, and then the
      hull. */
  ghost predicate DescriptionsAreExact(top: nat) {
    forall s: Stream :: s.base <= top ==>
      (Accepted(s, top) <==> Representable(s, top)) && (Accepted(s, top) ==> Computed(s, top) == Hull(s))
  }

  /** `x` is a byte of both streams. */
  ghost predicate Shares(l: Stream, r: Stream, x: int) {
    Touches(l, x) && Touches(r, x)
  }

  /** A true answer means that no byte is shared, for all pairs of streams. */
  ghost predicate AnswersAreSound(top: nat) {
    forall l: Stream, r: Stream, x: int ::
      l.base <= top && r.base <= top && DisjointAnswer(l, r, top) ==> !Shares(l, r, x)
  }

  /** The hull encloses every touched byte, and both of its ends are touched: it is the smallest
      enclosing half-open range. */
  lemma HullIsSmallest(s: Stream)
    requires s.count > 0 && s.bytes > 0
    ensures forall x :: Touches(s, x) ==> Hull(s).begin <= x < Hull(s).end
    ensures Touches(s, Hull(s).begin) && Touches(s, Hull(s).end - 1)
  {
    forall x | Touches(s, x) ensures Hull(s).begin <= x < Hull(s).end {
      var i, b :| 0 <= i < s.count && 0 <= b < s.bytes && ByteAddress(s, i, b) == x;
      ElementInHull(s, i);
    }
    assert ByteAddress(s, LowestElement(s), 0) == Hull(s).begin;
    assert ByteAddress(s, HighestElement(s), s.bytes - 1) == Hull(s).end - 1;
  }

  lemma ElementInHull(s: Stream, i: int)
    requires 0 <= i < s.count && s.bytes > 0
    ensures Hull(s).begin <= ByteAddress(s, i, 0)
    ensures ByteAddress(s, i, s.bytes) <= Hull(s).end
  {
    Monotone(s, LowestElement(s), i);
    Monotone(s, i, HighestElement(s));
  }

  /** Element addresses grow from `lo` to `hi` when the index moves with the stride's sign. */
  lemma Monotone(s: Stream, lo: int, hi: int)
    requires s.bytes > 0
    requires if s.stride < 0 then hi <= lo else lo <= hi
    ensures lo * Step(s) <= hi * Step(s)
  {
    var m := StrideMagnitude(s);
    MulNonNegative(m, s.bytes);
    var d := if s.stride < 0 then lo - hi else hi - lo;
    MulNonNegative(d, m * s.bytes);
    assert hi * Step(s) - lo * Step(s) == (hi - lo) * Step(s);
    if s.stride < 0 {
      assert Step(s) == -m * s.bytes == -(m * s.bytes);
      assert (hi - lo) * Step(s) == -d * -(m * s.bytes) == d * (m * s.bytes);
    }
  }

  /** A true answer is sound: no byte of one stream is a byte of the other, and neither stream
      leaves the address space, so machine addresses agree with these unbounded ones. */
  lemma TrueAnswerIsSound(l: Stream, r: Stream, top: nat)
    requires Untruncated(l, top) && Untruncated(r, top) && DisjointAnswer(l, r, top)
    ensures forall x :: !Shares(l, r, x)
    ensures l.count != 0 && r.count != 0 ==>
              forall x :: Touches(l, x) || Touches(r, x) ==> 0 <= x < top
  {
    if l.count != 0 && r.count != 0 {
      UntruncatedDescription(l, top);
      UntruncatedDescription(r, top);
      HullIsSmallest(l);
      HullIsSmallest(r);
    }
  }

  /** A stream that touches bytes, all below `top`, and whose stride has a magnitude. */
  ghost predicate Describable(s: Stream, top: nat) {
    s.count > 0 && s.bytes > 0 && s.stride != -0x8000_0000 && forall x :: Touches(s, x) ==> 0 <= x < top
  }

  /** All bytes of `l` lie below all bytes of `r`. */
  ghost predicate Precedes(l: Stream, r: Stream) {
    forall x, y :: Touches(l, x) && Touches(r, y) ==> x < y
  }

  lemma DescribableExactly(s: Stream, top: nat)
    ensures Describable(s, top) <==> Representable(s, top)
  {
    if s.count > 0 && s.bytes > 0 {
      HullIsSmallest(s);
    }
  }

  lemma HullsPrecede(l: Stream, r: Stream)
    requires l.count > 0 && l.bytes > 0 && r.count > 0 && r.bytes > 0
    ensures Precedes(l, r) <==> Hull(l).end <= Hull(r).begin
  {
    HullIsSmallest(l);
    HullIsSmallest(r);
  }

  /** The answer in terms of the touched bytes alone, for streams of every stride: one exactly when a
      stream is empty, or both can be described and one lies entirely below the other. */
  lemma AnswerExactly(l: Stream, r: Stream, top: nat)
    requires Untruncated(l, top) && Untruncated(r, top)
    ensures DisjointAnswer(l, r, top) <==>
              || l.count == 0 || r.count == 0
              || (Describable(l, top) && Describable(r, top) && (Precedes(l, r) || Precedes(r, l)))
  {
    DescribableExactly(l, top);
    DescribableExactly(r, top);
    UntruncatedDescription(l, top);
    UntruncatedDescription(r, top);
    if Representable(l, top) && Representable(r, top) {
      HullsPrecede(l, r);
      HullsPrecede(r, l);
    }
  }

  /** A stream of one element is described by its converted size, and touches its first byte. */
  lemma OneElement(s: Stream, top: nat)
    requires s.count == 1 && s.stride == 1 && s.bytes > 0
    ensures IterationSpan(s, top) == 0
    ensures Computed(s, top) == Range(s.base, s.base + ToUintptr(s.bytes, top))
    ensures Touches(s, s.base)
  {
    NoWrap(0, top);
    assert ByteAddress(s, 0, 0) == s.base;
  }

  /** An element of `top + 1` bytes seems to share nothing with the byte it starts at. */
  lemma NarrowAnswerIsUnsound(top: nat)
    requires top < INT32_MAX
    ensures var l, r := Stream(0, 1, 1, 1), Stream(0, 1, 1, top + 1);
            DisjointAnswer(l, r, top) && Shares(l, r, 0) && Accepted(r, top) && !Representable(r, top)
  {
    var l, r := Stream(0, 1, 1, 1), Stream(0, 1, 1, top + 1);
    OneElement(l, top);
    OneElement(r, top);
    SpanLaws(r);
    assert ToUintptr(top + 1, top) == 0;
    assert ToUintptr(1, top) <= top;
  }

  /** The width a description needs, exactly: on every narrower `uintptr_t` some element size is
      converted to zero, and an element that does not fit is described as the empty range. */
  lemma DescriptionsAreExactIffWide(top: nat)
    ensures DescriptionsAreExact(top) <==> INT32_MAX <= top
  {
    if INT32_MAX <= top {
      forall s: Stream | s.base <= top
        ensures (Accepted(s, top) <==> Representable(s, top)) && (Accepted(s, top) ==> Computed(s, top) == Hull(s))
      {
        WideIsUntruncated(s, top);
        UntruncatedDescription(s, top);
      }
    } else {
      NarrowAnswerIsUnsound(top);
      assert Stream(0, 1, 1, top + 1).base <= top;
    }
  }

  /** The width soundness needs, exactly: a `uintptr_t` that holds every `int32_t` magnitude. */
  lemma AnswersAreSoundIffWide(top: nat)
    ensures AnswersAreSound(top) <==> INT32_MAX <= top
  {
    if INT32_MAX <= top {
      forall l: Stream, r: Stream, x: int | l.base <= top && r.base <= top && DisjointAnswer(l, r, top)
        ensures !Shares(l, r, x)
      {
        WideIsUntruncated(l, top);
        WideIsUntruncated(r, top);
        TrueAnswerIsSound(l, r, top);
      }
    } else {
      NarrowAnswerIsUnsound(top);
    }
  }

  /** Byte `off` of a block of `count` packed elements is byte `b` of element `k`. */
  lemma PackedElement(off: int, count: int, bytes: int) returns (k: int, b: int)
    requires bytes > 0 && 0 <= off < count * bytes
    ensures 0 <= k < count && 0 <= b < bytes && off == k * bytes + b
  {
    k, b := off / bytes, off % bytes;
    assert off == bytes * k + b;
    if k >= count { MulNonNegative(bytes, k - count); }
  }

  /** With elements at most one stride apart, or a single element, every byte of the hull is
      touched. */
  lemma UnitStrideFillsHull(s: Stream, x: int)
    requires s.count > 0 && s.bytes > 0 && (-1 <= s.stride <= 1 || s.count == 1)
    requires Hull(s).begin <= x < Hull(s).end
    ensures Touches(s, x)
  {
    SpanLaws(s);
    var off := x - Hull(s).begin;
    if s.stride == 0 || s.count == 1 {
      assert ByteAddress(s, 0, off) == x;
    } else {
      UnitSpan(s);
      var k, b := PackedElement(off, s.count, s.bytes);
      var i := if s.stride == 1 then k else s.count - 1 - k;
      UnitElement(s, k, b);
      assert ByteAddress(s, i, b) == x;
    }
  }

  lemma UnitSpan(s: Stream)
    requires s.stride == 1 || s.stride == -1
    ensures ByteSpan(s) + s.bytes == s.count * s.bytes
  {
    assert (s.count - 1) * s.bytes == s.count * s.bytes - s.bytes;
  }

  lemma UnitElement(s: Stream, k: int, b: int)
    requires s.count > 0 && s.bytes > 0 && (s.stride == 1 || s.stride == -1)
    ensures var i := if s.stride == 1 then k else s.count - 1 - k;
            ByteAddress(s, i, b) == Hull(s).begin + k * s.bytes + b
  {
    SpanLaws(s);
    var last, bytes: int := s.count - 1, s.bytes;
    if s.stride == -1 {
      assert Step(s) == 0 - bytes;
      assert (last - k) * (0 - bytes) == k * bytes - last * bytes;
    }
  }

  /** The touched bytes have no gap. */
  predicate Dense(s: Stream) {
    -1 <= s.stride <= 1 || s.count == 1
  }

  /** Without gaps the check is also complete: on representable streams it answers true exactly when
      they share no byte. */
  lemma DenseAnswerIsExact(l: Stream, r: Stream, top: nat)
    requires Untruncated(l, top) && Untruncated(r, top) && Dense(l) && Dense(r)
    requires Representable(l, top) && Representable(r, top)
    ensures DisjointAnswer(l, r, top) <==> forall x :: !Shares(l, r, x)
  {
    if DisjointAnswer(l, r, top) {
      TrueAnswerIsSound(l, r, top);
    } else {
      UntruncatedDescription(l, top);
      UntruncatedDescription(r, top);
      SpanLaws(l);
      SpanLaws(r);
      var x := if Hull(l).begin <= Hull(r).begin then Hull(r).begin else Hull(l).begin;
      UnitStrideFillsHull(l, x);
      UnitStrideFillsHull(r, x);
      assert Shares(l, r, x);
    }
  }

  /** Every false answer on representable streams with these strides has a shared byte. */
  ghost predicate Complete(sl: Int32, sr: Int32, top: nat) {
    forall l: Stream, r: Stream ::
      l.stride == sl && r.stride == sr && Representable(l, top) && Representable(r, top)
      && l.base <= top && r.base <= top && !DisjointAnswer(l, r, top) ==>
        exists x :: Shares(l, r, x)
  }

  /** No representable stream with this stride has a gap: the stride is at most one element, or two
      elements do not fit into the address space, or the runtime rejects it. */
  predicate Gapless(stride: Int32, top: nat) {
    -1 <= stride <= 1 || stride + 1 > top || 1 - stride > top
  }

  /** A stream of several elements spans at least one stride. */
  lemma TwoElementsFit(s: Stream, top: nat)
    requires Representable(s, top) && s.count > 1
    ensures StrideMagnitude(s) + 1 <= top
  {
    SpanLaws(s);
    MulNonNegative(s.count - 2, StrideMagnitude(s));
    assert (s.count - 1) * StrideMagnitude(s) == (s.count - 2) * StrideMagnitude(s) + StrideMagnitude(s);
  }

  lemma GaplessIsDense(s: Stream, top: nat)
    requires Representable(s, top) && Gapless(s.stride, top)
    ensures Dense(s)
  {
    if s.count > 1 {
      TwoElementsFit(s, top);
    }
  }

  /** Two bytes `|stride|` apart. */
  function Gap(stride: Int32): Stream {
    Stream(if stride < 0 then 0 - stride as int else 0, 2, stride, 1)
  }

  /** A byte between them is not touched, and the check cannot see that. */
  lemma GapIsRejected(stride: Int32, other: Int32, top: nat)
    requires INT32_MAX <= top && !Gapless(stride, top) && stride != INT32_MIN && other != INT32_MIN
    ensures var l, r := Gap(stride), Stream(1, 1, other, 1);
            && l.base <= top && r.base <= top && Representable(l, top) && Representable(r, top)
            && !DisjointAnswer(l, r, top) && !DisjointAnswer(r, l, top)
            && forall x :: !Shares(l, r, x) && !Shares(r, l, x)
  {
    var l, r := Gap(stride), Stream(1, 1, other, 1);
    SpanLaws(l);
    SpanLaws(r);
    assert ByteSpan(l) == StrideMagnitude(l) && ByteSpan(r) == 0;
    WideIsUntruncated(l, top);
    WideIsUntruncated(r, top);
    UntruncatedDescription(l, top);
    UntruncatedDescription(r, top);
    forall x ensures !Shares(l, r, x) && !Shares(r, l, x) {
      if Touches(r, x) {
        OneByte(r, x);
      }
      if Touches(l, x) {
        TwoBytes(l, x);
      }
    }
  }

  lemma OneByte(s: Stream, x: int)
    requires s.count == 1 && s.bytes == 1 && Touches(s, x)
    ensures x == s.base
  {
    var i, b :| 0 <= i < s.count && 0 <= b < s.bytes && ByteAddress(s, i, b) == x;
    assert i == 0;
  }

  lemma TwoBytes(s: Stream, x: int)
    requires s.count == 2 && s.bytes == 1 && Touches(s, x)
    ensures x == s.base || x == s.base + s.stride
  {
    var i, b :| 0 <= i < s.count && 0 <= b < s.bytes && ByteAddress(s, i, b) == x;
    assert i == 0 || i == 1;
  }

  /** The strides for which the check is complete, exactly: both leave no gaps, or one of them is
      INT32_MIN, which is never represented.  Everywhere else it rejects some pair of streams that
      share no byte. */
  lemma CompleteExactly(sl: Int32, sr: Int32, top: nat)
    requires INT32_MAX <= top
    ensures Complete(sl, sr, top) <==>
              sl == INT32_MIN || sr == INT32_MIN || (Gapless(sl, top) && Gapless(sr, top))
    ensures INT32_MAX < top && sl != INT32_MIN && sr != INT32_MIN ==>
              (Complete(sl, sr, top) <==> -1 <= sl <= 1 && -1 <= sr <= 1)
  {
    if sl == INT32_MIN || sr == INT32_MIN {
    } else if Gapless(sl, top) && Gapless(sr, top) {
      GaplessIsComplete(sl, sr, top);
    } else if !Gapless(sl, top) {
      GapIsRejected(sl, sr, top);
    } else {
      GapIsRejected(sr, sl, top);
    }
  }

  lemma GaplessIsComplete(sl: Int32, sr: Int32, top: nat)
    requires INT32_MAX <= top && Gapless(sl, top) && Gapless(sr, top)
    ensures Complete(sl, sr, top)
  {
    forall l: Stream, r: Stream | l.stride == sl && r.stride == sr && Representable(l, top) && Representable(r, top)
                                  && l.base <= top && r.base <= top && !DisjointAnswer(l, r, top)
      ensures exists x :: Shares(l, r, x)
    {
      WideIsUntruncated(l, top);
      WideIsUntruncated(r, top);
      GaplessIsDense(l, top);
      GaplessIsDense(r, top);
      DenseAnswerIsExact(l, r, top);
    }
  }

  /** In particular interleaved streams share no byte and are still rejected. */
  lemma InterleavedStreamsAreRejected(top: nat)
    requires top >= 100
    ensures var l, r := Stream(0, 3, 2, 4), Stream(4, 3, 2, 4);
            !DisjointAnswer(l, r, top) && forall x :: !Shares(l, r, x)
  {
    var l, r := Stream(0, 3, 2, 4), Stream(4, 3, 2, 4);
    NoWrap(2, top);
    NoWrap(4, top);
    assert Computed(l, top) == Range(0, 20) && Computed(r, top) == Range(4, 24);
    forall x ensures !Shares(l, r, x) {
      if Shares(l, r, x) {
        PhaseOfEights(0, x);
        PhaseOfEights(4, x);
      }
    }
  }

  lemma PhaseOfEights(base: nat, x: int)
    requires base % 8 <= 4 && Touches(Stream(base, 3, 2, 4), x)
    ensures base % 8 <= x % 8 < base % 8 + 4
  {
    var s := Stream(base, 3, 2, 4);
    var i, b :| 0 <= i < s.count && 0 <= b < s.bytes && ByteAddress(s, i, b) == x;
    assert i == 0 || i == 1 || i == 2;
    assert x == 8 * (i + base / 8) + (base % 8 + b);
  }

  /** alias_runtime.h promises zero whenever a description is invalid.  If the code refuses one of
      them, it keeps that promise exactly when neither count is zero: an empty stream on either side
      hides an invalid other. */
  lemma EmptyStreamHidesAnInvalidOne(l: Stream, r: Stream, top: nat)
    requires l.base <= top && r.base <= top
    ensures !Accepted(l, top) || !Accepted(r, top) ==>
              (DisjointAnswer(l, r, top) <==> l.count == 0 || r.count == 0)
    ensures Untruncated(l, top) && Untruncated(r, top) && (!Representable(l, top) || !Representable(r, top)) ==>
              (DisjointAnswer(l, r, top) <==> l.count == 0 || r.count == 0)
  {
    if Untruncated(l, top) && Untruncated(r, top) {
      UntruncatedDescription(l, top);
      UntruncatedDescription(r, top);
    }
  }

  /** Two streams, one of them invalid. */
  predicate SomeInvalid(l: Stream, r: Stream, top: nat) {
    l.base <= top && r.base <= top && (!Representable(l, top) || !Representable(r, top))
  }

  /** Invalid descriptions with these counts are always answered zero. */
  ghost predicate FailsClosed(top: nat) {
    forall l: Stream, r: Stream :: SomeInvalid(l, r, top) && l.count != 0 && r.count != 0 ==> !DisjointAnswer(l, r, top)
  }

  /** For non-zero counts the promise needs a wide `uintptr_t`, exactly. */
  lemma FailsClosedIffWide(top: nat)
    ensures FailsClosed(top) <==> INT32_MAX <= top
  {
    if INT32_MAX <= top {
      forall l: Stream, r: Stream | SomeInvalid(l, r, top) && l.count != 0 && r.count != 0
        ensures !DisjointAnswer(l, r, top)
      {
        WideIsUntruncated(l, top);
        WideIsUntruncated(r, top);
        EmptyStreamHidesAnInvalidOne(l, r, top);
      }
    } else {
      NarrowAnswerIsUnsound(top);
      var l, r := Stream(0, 1, 1, 1), Stream(0, 1, 1, top + 1);
      assert SomeInvalid(l, r, top) && DisjointAnswer(l, r, top);
    }
  }

  /** Such inputs: a zero count beside a stride of INT32_MIN, beside a negative count, and beside a
      range that overflows. */
  lemma InvalidDescriptionsAnswerOne(top: nat)
    requires INT32_MAX <= top
    ensures var empty := Stream(0, 0, 1, 4);
            forall s :: s in {Stream(0, 2, INT32_MIN, 4), Stream(0, -1, 1, 4), Stream(top, 1, 1, 4)} ==>
              !Representable(s, top) && DisjointAnswer(empty, s, top) && DisjointAnswer(s, empty, top)
  {
  }

  /** A narrow `uintptr_t` also truncates counts: the answer is true although byte 1 is shared. */
  lemma NarrowUintptrTruncatesTheSpan(top: nat)
    requires 2 <= top <= INT32_MAX - 2
    ensures var l, r := Stream(0, top + 2, 1, 1), Stream(1, 1, 1, 1);
            DisjointAnswer(l, r, top) && Shares(l, r, 1)
  {
    var l, r := Stream(0, top + 2, 1, 1), Stream(1, 1, 1, 1);
    OneElement(r, top);
    NoWrap(1, top);
    TruncatedCount(top);
    assert ByteAddress(l, 1, 0) == 1;
  }

  lemma TruncatedCount(top: nat)
    requires 2 <= top <= INT32_MAX - 2
    ensures var s := Stream(0, top + 2, 1, 1);
            IterationSpan(s, top) == 0 && Computed(s, top) == Range(0, 1)
  {
    assert ToUintptr(top + 1, top) == 0;
    NoWrap(1, top);
  }
}
