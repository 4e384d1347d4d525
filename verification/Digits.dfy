/** Binary digits, sums and products of integers: the terms in which the operations of the interpreter
    and of the reductions are pinned down. */
module Digits {

  /** Bit `k` of the two's complement representation. */
  function Digit(x: int, k: nat): int
    decreases k
  {
    if k == 0 then x % 2 else Digit(x / 2, k - 1)
  }

  lemma DigitIsBinary(x: int, k: nat)
    ensures Digit(x, k) == 0 || Digit(x, k) == 1
    decreases k
  {
  }

  lemma DigitOfSmall(k: nat)
    ensures Digit(0, k) == 0 && Digit(-1, k) == 1
  {
  }

  lemma DigitStep(b: int, h: int, k: nat)
    requires b == 0 || b == 1
    ensures Digit(b + 2 * h, k) == if k == 0 then b else Digit(h, k - 1)
  {
    assert (b + 2 * h) / 2 == h && (b + 2 * h) % 2 == b;
  }

  function Sum(xs: seq<int>): int {
    if xs == [] then 0 else Sum(xs[..|xs| - 1]) + xs[|xs| - 1]
  }

  function Product(xs: seq<int>): int {
    if xs == [] then 1 else Product(xs[..|xs| - 1]) * xs[|xs| - 1]
  }

  /** How many of the numbers have bit `k` set. */
  function Ones(xs: seq<int>, k: nat): nat {
    if xs == [] then 0
    else Ones(xs[..|xs| - 1], k) + if Digit(xs[|xs| - 1], k) == 1 then 1 else 0
  }

  /** Bit `k` is set in the seed and in all numbers. */
  predicate AllSet(seed: int, xs: seq<int>, k: nat) {
    Digit(seed, k) == 1 && forall x :: x in xs ==> Digit(x, k) == 1
  }

  /** Bit `k` is set in the seed or in some number. */
  predicate SomeSet(seed: int, xs: seq<int>, k: nat) {
    Digit(seed, k) == 1 || exists x :: x in xs && Digit(x, k) == 1
  }

  /** Bit `k` is set in an odd number of them, the seed included. */
  predicate OddlySet(seed: int, xs: seq<int>, k: nat) {
    (Digit(seed, k) + Ones(xs, k)) % 2 == 1
  }

  lemma AllSetMore(seed: int, xs: seq<int>, x: int, k: nat)
    ensures AllSet(seed, xs + [x], k) <==> AllSet(seed, xs, k) && Digit(x, k) == 1
  {
    assert forall y :: y in xs + [x] <==> y in xs || y == x;
  }

  lemma SomeSetMore(seed: int, xs: seq<int>, x: int, k: nat)
    ensures SomeSet(seed, xs + [x], k) <==> SomeSet(seed, xs, k) || Digit(x, k) == 1
  {
    assert forall y :: y in xs + [x] <==> y in xs || y == x;
  }

  lemma OddlySetMore(seed: int, xs: seq<int>, x: int, k: nat)
    ensures OddlySet(seed, xs + [x], k) <==> (OddlySet(seed, xs, k) <==> Digit(x, k) == 0)
  {
    assert (xs + [x])[..|xs|] == xs;
    DigitIsBinary(x, k);
  }

  lemma NoneMore(seed: int, k: nat)
    ensures AllSet(seed, [], k) <==> Digit(seed, k) == 1
    ensures SomeSet(seed, [], k) <==> Digit(seed, k) == 1
    ensures OddlySet(seed, [], k) <==> Digit(seed, k) == 1
  {
    DigitIsBinary(seed, k);
  }

  lemma TotalsMore(xs: seq<int>, x: int)
    ensures Sum(xs + [x]) == Sum(xs) + x && Product(xs + [x]) == Product(xs) * x
  {
    assert (xs + [x])[..|xs|] == xs;
  }

  function Power(n: nat): (p: nat)
    ensures p > 0
  {
    if n == 0 then 1 else 2 * Power(n - 1)
  }

  lemma {:induction false} PowerAdds(n: nat, m: nat)
    ensures Power(n + m) == Power(n) * Power(m)
  {
    if n > 0 {
      PowerAdds(n - 1, m);
      assert 2 * Power(n - 1) * Power(m) == 2 * (Power(n - 1) * Power(m));
    }
  }

  /** Bit `k` by one division. */
  lemma {:induction false} DigitAt(x: int, k: nat)
    ensures Digit(x, k) == x / Power(k) % 2
    decreases k
  {
    if k > 0 {
      DigitAt(x / 2, k - 1);
      DivideTwice(x, Power(k - 1));
    }
  }

  lemma DivideTwice(x: int, d: nat)
    requires d > 0
    ensures x / 2 / d == x / (2 * d)
  {
    var h := x / 2;
    var q, r := h / d, h % d;
    assert h == d * q + r && x == 2 * h + x % 2;
    assert 2 * (d * q) == 2 * d * q;
    var e := x / (2 * d) - q;
    assert 2 * d * e == 2 * r + x % 2 - x % (2 * d) by {
      assert x == 2 * d * (x / (2 * d)) + x % (2 * d);
      assert 2 * d * (x / (2 * d) - q) == 2 * d * (x / (2 * d)) - 2 * d * q;
    }
    assert e >= 1 ==> 2 * d * e >= 2 * d;
    assert e <= -1 ==> 2 * d * e <= -2 * d;
  }
}
