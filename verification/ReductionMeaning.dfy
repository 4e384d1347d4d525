/** What the reductions compute: sums and products modulo 2^32, and bit by bit whether all, some or an
    odd number of lanes have the bit set. */
module ReductionMeaning {
  import opened Digits
  import opened Reduction

  /** `v` is the reduction of the seed and the lanes. */
  ghost predicate Means(op: Op, seed: Word, xs: seq<Word>, v: Word) {
    match op
    case Add => v == (seed + Sum(xs)) % 0x1_0000_0000
    case Mul => v == (seed * Product(xs)) % 0x1_0000_0000
    case And => forall k: nat :: Digit(v, k) == 1 <==> AllSet(seed, xs, k)
    case Or => forall k: nat :: Digit(v, k) == 1 <==> SomeSet(seed, xs, k)
    case Xor => forall k: nat :: Digit(v, k) == 1 <==> OddlySet(seed, xs, k)
  }

  predicate OnBits(op: Op) {
    op.And? || op.Or? || op.Xor?
  }

  /** A bitwise operation on the lowest `width` bits, at one of them. */
  lemma {:induction false} BitwiseAt(op: Op, x: nat, y: nat, width: nat, k: nat)
    requires OnBits(op) && k < width
    ensures op.And? ==> (Digit(Bitwise(op, x, y, width), k) == 1 <==> Digit(x, k) == 1 && Digit(y, k) == 1)
    ensures op.Or? ==> (Digit(Bitwise(op, x, y, width), k) == 1 <==> Digit(x, k) == 1 || Digit(y, k) == 1)
    ensures op.Xor? ==> (Digit(Bitwise(op, x, y, width), k) == 1 <==> Digit(x, k) != Digit(y, k))
  {
    BitwiseUnfold(op, x, y, width);
    DigitStep(Bit(op, x % 2, y % 2), Bitwise(op, x / 2, y / 2, width - 1), k);
    if k > 0 {
      BitwiseAt(op, x / 2, y / 2, width - 1, k - 1);
    }
  }

  /** Bits above the width are zero. */
  lemma {:induction false} HighBits(x: nat, width: nat, k: nat)
    requires x < Power(width) && width <= k
    ensures Digit(x, k) == 0
  {
    if width == 0 {
      DigitOfSmall(k);
    } else {
      HighBits(x / 2, width - 1, k - 1);
    }
  }

  lemma CombineAt(op: Op, x: Word, y: Word, k: nat)
    requires OnBits(op)
    ensures op.And? ==> (Digit(Combine(op, x, y), k) == 1 <==> Digit(x, k) == 1 && Digit(y, k) == 1)
    ensures op.Or? ==> (Digit(Combine(op, x, y), k) == 1 <==> Digit(x, k) == 1 || Digit(y, k) == 1)
    ensures op.Xor? ==> (Digit(Combine(op, x, y), k) == 1 <==> Digit(x, k) != Digit(y, k))
  {
    if k < WIDTH {
      BitwiseAt(op, x, y, WIDTH, k);
    } else {
      WordWidth();
      HighBits(x, WIDTH, k);
      HighBits(y, WIDTH, k);
      HighBits(Combine(op, x, y), WIDTH, k);
    }
  }

  lemma MeansNothing(op: Op, seed: Word)
    ensures Means(op, seed, [], seed)
  {
    forall k: nat
      ensures AllSet(seed, [], k) == SomeSet(seed, [], k) == OddlySet(seed, [], k) == (Digit(seed, k) == 1)
    {
      NoneMore(seed, k);
    }
  }

  lemma MeansMoreBits(op: Op, seed: Word, xs: seq<Word>, v: Word, x: Word)
    requires OnBits(op) && Means(op, seed, xs, v)
    ensures Means(op, seed, xs + [x], Combine(op, v, x))
  {
    var r := Combine(op, v, x);
    forall k: nat
      ensures op.And? ==> (Digit(r, k) == 1 <==> AllSet(seed, xs + [x], k))
      ensures op.Or? ==> (Digit(r, k) == 1 <==> SomeSet(seed, xs + [x], k))
      ensures op.Xor? ==> (Digit(r, k) == 1 <==> OddlySet(seed, xs + [x], k))
    {
      CombineAt(op, v, x, k);
      AllSetMore(seed, xs, x, k);
      SomeSetMore(seed, xs, x, k);
      OddlySetMore(seed, xs, x, k);
      DigitIsBinary(v, k);
      DigitIsBinary(x, k);
    }
  }

  lemma SumMore(seed: Word, xs: seq<Word>, v: Word, x: Word)
    requires Means(Add, seed, xs, v)
    ensures Means(Add, seed, xs + [x], Combine(Add, v, x))
  {
    TotalsMore(xs, x);
    var t := seed + Sum(xs);
    var k := ResidueOf(t);
    SameResidue(t + x, t % MODULUS + x, k);
  }

  /** Residues of a product may be taken early. */
  lemma EarlyResidue(t: int, x: int)
    ensures (t % MODULUS * x) % MODULUS == (t * x) % MODULUS
  {
    var k := ResidueOf(t);
    assert (t % MODULUS + MODULUS * k) * x == t % MODULUS * x + MODULUS * k * x;
    assert MODULUS * k * x == MODULUS * (k * x);
    SameResidue(t * x, t % MODULUS * x, k * x);
  }

  lemma ProductMore(seed: Word, xs: seq<Word>, v: Word, x: Word)
    requires Means(Mul, seed, xs, v)
    ensures Means(Mul, seed, xs + [x], Combine(Mul, v, x))
  {
    TotalsMore(xs, x);
    var s: int, p: int, y: int := seed, Product(xs), x;
    EarlyResidue(s * p, y);
    assert s * p * y == s * (p * y);
  }

  lemma MeansMore(op: Op, seed: Word, xs: seq<Word>, v: Word, x: Word)
    requires Means(op, seed, xs, v)
    ensures Means(op, seed, xs + [x], Combine(op, v, x))
  {
    match op
    case Add => SumMore(seed, xs, v, x);
    case Mul => ProductMore(seed, xs, v, x);
    case _ => MeansMoreBits(op, seed, xs, v, x);
  }

  /** The scalar reduction, and with it every vectorized one, computes these totals. */
  lemma {:induction false} FoldMeans(op: Op, seed: Word, xs: seq<Word>)
    ensures Means(op, seed, xs, Fold(op, seed, xs))
    decreases |xs|
  {
    if xs == [] {
      MeansNothing(op, seed);
    } else {
      var front, last := xs[..|xs| - 1], xs[|xs| - 1];
      FoldMeans(op, seed, front);
      MeansMore(op, seed, front, Fold(op, seed, front), last);
      assert xs == front + [last];
    }
  }
}
