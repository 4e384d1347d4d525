/** The vector length a `vsetvl` may return, as section 6.3 ("Constraints on Setting vl") of the
    RISC-V "V" Vector Extension 1.0 allows it.  The emitted loops use only the returned value, so
    every loop of this project is proved for every choice that satisfies `Legal`. */
module VectorLength {

  /** `vl` is an allowed answer to a request for `avl` elements. */
  predicate Legal(avl: nat, vlmax: nat, vl: nat) {
    && (avl <= vlmax ==> vl == avl)
    && (vlmax < avl < 2 * vlmax ==> (avl + 1) / 2 <= vl <= vlmax)
    && (2 * vlmax <= avl ==> vl == vlmax)
  }

  function Min(x: nat, y: nat): nat {
    if x <= y then x else y
  }

  /** ceil(n / d) */
  function CeilDiv(n: nat, d: nat): nat
    requires d > 0
  {
    n / d + (if n % d != 0 then 1 else 0)
  }

  /** The rule the models in the test scripts use is one of the allowed ones, and every allowed
      answer makes progress without overshooting. */
  lemma LegalBounds(avl: nat, vlmax: nat, vl: nat)
    requires vlmax > 0
    ensures Legal(avl, vlmax, Min(avl, vlmax))
    ensures Legal(avl, vlmax, vl) ==> vl <= avl && vl <= vlmax && (avl > 0 ==> vl > 0)
  {
  }

  /** An allowed answer is never more than either number, all of a request that fits, and otherwise at
      least half of it, up to VLMAX. */
  lemma LegalExactly(avl: nat, vlmax: nat, vl: nat)
    ensures Legal(avl, vlmax, vl) <==>
              && vl <= avl && vl <= vlmax
              && (avl <= vlmax ==> vl == avl)
              && (2 * vl >= avl || vl == vlmax)
  {
  }

  /** Any allowed answer; nothing more is known to the caller. */
  method SetVL(avl: nat, vlmax: nat) returns (vl: nat)
    requires vlmax > 0
    ensures Legal(avl, vlmax, vl)
    ensures vl <= avl && vl <= vlmax && (avl > 0 ==> vl > 0)
  {
    LegalBounds(avl, vlmax, Min(avl, vlmax));
    vl :| 0 <= vl <= vlmax && Legal(avl, vlmax, vl);
    LegalBounds(avl, vlmax, vl);
  }

  /** The lengths of the chunks of one complete run over `avl` elements. */
  ghost predicate Schedule(avl: nat, vlmax: nat, vls: seq<nat>)
    decreases |vls|
  {
    if avl == 0 then vls == []
    else vls != [] && vls[0] <= avl && Legal(avl, vlmax, vls[0]) && Schedule(avl - vls[0], vlmax, vls[1..])
  }

  lemma CeilDivStep(n: nat, d: nat)
    requires 0 < d <= n
    ensures CeilDiv(n, d) == CeilDiv(n - d, d) + 1
  {
    assert n == d * (n / d) + n % d;
    var q := (n - d) / d;
    var r := (n - d) % d;
    assert n - d == d * q + r;
    assert n == d * (q + 1) + r by {
      assert d * (q + 1) == d * q + d;
    }
    DivModUnique(n, d, q + 1, r);
  }

  lemma DivModUnique(n: nat, d: nat, q: nat, r: nat)
    requires 0 < d && r < d && n == d * q + r
    ensures n / d == q && n % d == r
  {
    var k := n / d - q;
    assert d * k == r - n % d by {
      assert d * (n / d - q) == d * (n / d) - d * q;
    }
    MulAbs(d, k);
  }

  lemma MulAbs(d: int, k: int)
    requires d >= 0
    ensures k >= 1 ==> d * k >= d
    ensures k <= -1 ==> d * k <= -d
  {
    assert d * k == d + d * (k - 1) == -d + d * (k + 1);
  }

  /** However the hardware balances the tail, a run takes exactly ceil(avl / VLMAX) chunks. */
  lemma {:induction false} ScheduleLength(avl: nat, vlmax: nat, vls: seq<nat>)
    requires vlmax > 0 && Schedule(avl, vlmax, vls)
    ensures |vls| == CeilDiv(avl, vlmax)
    decreases |vls|
  {
    if avl != 0 {
      var vl := vls[0];
      LegalBounds(avl, vlmax, vl);
      ScheduleLength(avl - vl, vlmax, vls[1..]);
      if avl < vlmax {
        DivModUnique(avl, vlmax, 0, avl);
        DivModUnique(0, vlmax, 0, 0);
      } else if avl < 2 * vlmax {
        CeilDivStep(avl, vlmax);
        if vl == vlmax {
        } else {
          DivModUnique(avl - vlmax, vlmax, 0, avl - vlmax);
          DivModUnique(avl - vl, vlmax, 0, avl - vl);
        }
      } else {
        CeilDivStep(avl, vlmax);
      }
    }
  }
}
