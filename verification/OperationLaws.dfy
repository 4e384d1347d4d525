/** What the scalar operations of the interpreter compute, in arithmetic and bit by bit: the laws name
    no part of the interpreter but the instruction they are about. */
module OperationLaws {
  import opened Digits
  import opened Oir

  /** `q` and `r` are quotient and remainder of a division that truncates toward zero. */
  predicate Truncates(x: int, y: int, q: int, r: int) {
    && x == q * y + r
    && (if y < 0 then y < r < -y else -y < r < y)
    && (r > 0 ==> x > 0) && (r < 0 ==> x < 0)
  }

  /** `v` is `x op y`. */
  ghost predicate Computes(op: BinaryOp, x: int, y: int, v: int) {
    match op
    case Add => v == x + y
    case Sub => v + y == x
    case Mul => v == x * y
    case SDiv => y != 0 && exists r :: Truncates(x, y, v, r)
    case SRem => y != 0 && exists q :: Truncates(x, y, q, v)
    case And => forall k: nat :: Digit(v, k) == 1 <==> Digit(x, k) == 1 && Digit(y, k) == 1
    case Or => forall k: nat :: Digit(v, k) == 1 <==> Digit(x, k) == 1 || Digit(y, k) == 1
    case Xor => forall k: nat :: Digit(v, k) == 1 <==> Digit(x, k) != Digit(y, k)
  }

  /** `v` is the truth value of `x pred y`. */
  predicate Decides(pred: Pred, x: int, y: int, v: int) {
    && (v == 0 || v == 1)
    && match pred
       case EQ => v == 1 <==> x == y
       case NE => v == 1 <==> x < y || y < x
       case LT => v == 1 <==> x < y
       case LE => v == 1 <==> x < y || x == y
       case GT => v == 1 <==> y < x
       case GE => v == 1 <==> y < x || x == y
  }

  predicate Divides(op: BinaryOp) {
    op.SDiv? || op.SRem?
  }

  // ---------------------------------------------------------------- arithmetic

  /** The bitwise operations follow their truth tables in every position. */
  lemma {:induction false} BitwiseDigits(op: BinaryOp, x: int, y: int, k: nat)
    requires op.And? || op.Or? || op.Xor?
    ensures op.And? ==> (Digit(Bitwise(op, x, y), k) == 1 <==> Digit(x, k) == 1 && Digit(y, k) == 1)
    ensures op.Or? ==> (Digit(Bitwise(op, x, y), k) == 1 <==> Digit(x, k) == 1 || Digit(y, k) == 1)
    ensures op.Xor? ==> (Digit(Bitwise(op, x, y), k) == 1 <==> Digit(x, k) != Digit(y, k))
    decreases Abs(x) + Abs(y)
  {
    if (x == 0 || x == -1) && (y == 0 || y == -1) {
      DigitOfSmall(k);
    } else {
      var rest := Bitwise(op, x / 2, y / 2);
      var b := Bitwise(op, x, y) - 2 * rest;
      DigitStep(b, rest, k);
      if k > 0 {
        BitwiseDigits(op, x / 2, y / 2, k - 1);
      }
    }
  }

  /** Truncating division of the magnitudes, with the signs put back. */
  lemma SignedDivision(x: int, y: int, a: int, b: int, q: int, r: int)
    requires a == b * q + r && 0 <= r < b && q >= 0
    requires (x == a || x == -a) && (y == b || y == -b)
    ensures (x >= 0) == (y > 0) && a >= 0 ==> Truncates(x, y, q, x - y * q)
    ensures (x >= 0) != (y > 0) && a >= 0 ==> Truncates(x, y, -q, x - y * -q)
  {
    assert -b * q == -(b * q) && b * -q == -(b * q) && -b * -q == b * q;
    assert q * y == y * q && -q * y == y * -q;
    assert b * q >= 0;
  }

  lemma DivideMagnitudes(a: int, b: int)
    requires a >= 0 && b > 0
    ensures a == b * (a / b) + a % b && 0 <= a % b < b && a / b >= 0
  {
  }

  /** The model's division truncates. */
  lemma QuotientTruncates(x: int, y: int)
    requires y != 0
    ensures Truncates(x, y, Quotient(x, y), x - y * Quotient(x, y))
  {
    var a, b := Abs(x), Abs(y);
    var q, r := a / b, a % b;
    DivideMagnitudes(a, b);
    SignedDivision(x, y, a, b, q, r);
    assert Quotient(x, y) == if (x >= 0) == (y > 0) then q else -q;
  }

  lemma ApplyComputes(op: BinaryOp, x: int, y: int)
    ensures Apply(op, x, y).Ok? <==> !(Divides(op) && y == 0)
    ensures Apply(op, x, y) != Undef
    ensures Apply(op, x, y).Ok? ==> Computes(op, x, y, Apply(op, x, y).value)
  {
    if Divides(op) {
      if y != 0 {
        QuotientTruncates(x, y);
      }
    } else if op.And? || op.Or? || op.Xor? {
      forall k: nat ensures op.And? ==> (Digit(Bitwise(op, x, y), k) == 1 <==> Digit(x, k) == 1 && Digit(y, k) == 1)
                    ensures op.Or? ==> (Digit(Bitwise(op, x, y), k) == 1 <==> Digit(x, k) == 1 || Digit(y, k) == 1)
                    ensures op.Xor? ==> (Digit(Bitwise(op, x, y), k) == 1 <==> Digit(x, k) != Digit(y, k))
      {
        BitwiseDigits(op, x, y, k);
      }
    }
  }

  /** The digits determine the number. */
  lemma {:induction false} DigitsDetermine(x: int, y: int)
    requires forall k: nat :: Digit(x, k) == 1 <==> Digit(y, k) == 1
    ensures x == y
    decreases Abs(x) + Abs(y)
  {
    forall k: nat ensures Digit(x / 2, k) == 1 <==> Digit(y / 2, k) == 1 {
      assert Digit(x, k + 1) == Digit(x / 2, k) && Digit(y, k + 1) == Digit(y / 2, k);
    }
    assert Digit(x, 0) == x % 2 && Digit(y, 0) == y % 2;
    if Abs(x / 2) + Abs(y / 2) < Abs(x) + Abs(y) {
      DigitsDetermine(x / 2, y / 2);
    }
  }

  lemma TruncationIsUnique(x: int, y: int, q: int, r: int, q': int, r': int)
    requires Truncates(x, y, q, r) && Truncates(x, y, q', r')
    ensures q == q' && r == r'
  {
    var d := q' - q;
    assert q' * y == q * y + d * y;
    assert d >= 1 && y > 0 ==> d * y >= y;
    assert d >= 1 && y < 0 ==> d * y <= y;
    assert d <= -1 && y > 0 ==> d * y <= -y;
    assert d <= -1 && y < 0 ==> d * y >= -y;
  }

  /** The laws leave one value: two values that both obey them are equal. */
  lemma ComputesOneValue(op: BinaryOp, x: int, y: int, v: int, v': int)
    requires Computes(op, x, y, v) && Computes(op, x, y, v')
    ensures v == v'
  {
    match op
    case SDiv =>
      var r, r' :| Truncates(x, y, v, r) && Truncates(x, y, v', r');
      TruncationIsUnique(x, y, v, r, v', r');
    case SRem =>
      var q, q' :| Truncates(x, y, q, v) && Truncates(x, y, q', v');
      TruncationIsUnique(x, y, q, v, q', v');
    case And => DigitsDetermine(v, v');
    case Or => DigitsDetermine(v, v');
    case Xor => DigitsDetermine(v, v');
    case _ =>
  }

  // ---------------------------------------------------------------- scalar instructions

  /** A binary instruction defines the result and nothing else, and fails only on a zero divisor. */
  lemma BinaryLaw(d: Name, op: BinaryOp, lhs: Operand, rhs: Operand, s: State, x: int, y: int)
    requires Eval(lhs, s.env) == Ok(Num(x)) && Eval(rhs, s.env) == Ok(Num(y))
    ensures var r := RunInstr(Binary(d, op, lhs, rhs), s);
            if Divides(op) && y == 0 then r == Fail
            else r.Ok? && d in r.value.env && r.value.env[d].Num? && Computes(op, x, y, r.value.env[d].n)
                 && r.value == State(s.env[d := r.value.env[d]], s.memory)
  {
    ApplyComputes(op, x, y);
  }

  /** A comparison defines one or zero by the relation. */
  lemma CompareLaw(d: Name, pred: Pred, lhs: Operand, rhs: Operand, s: State, x: int, y: int)
    requires Eval(lhs, s.env) == Ok(Num(x)) && Eval(rhs, s.env) == Ok(Num(y))
    ensures var r := RunInstr(Compare(d, pred, lhs, rhs), s);
            && r.Ok? && d in r.value.env && r.value.env[d].Num? && Decides(pred, x, y, r.value.env[d].n)
            && r.value == State(s.env[d := r.value.env[d]], s.memory)
  {
  }

  /** Addresses are sums, loads and stores touch the cell they name, and only cells of the memory. */
  lemma AddressLaws(d: Name, lhs: Operand, rhs: Operand, s: State, x: int, y: int)
    requires Eval(lhs, s.env) == Ok(Num(x)) && Eval(rhs, s.env) == Ok(Num(y))
    ensures RunInstr(Gep(d, lhs, rhs), s) == Ok(State(s.env[d := Num(x + y)], s.memory))
    ensures RunInstr(ZExt(d, lhs), s) == Ok(State(s.env[d := Num(x)], s.memory))
    ensures RunInstr(Load(d, lhs), s) ==
              if 0 <= x < |s.memory| then Ok(State(s.env[d := Num(s.memory[x])], s.memory)) else Fail
    ensures RunInstr(Store(d, rhs, lhs), s) ==
              if 0 <= x < |s.memory| then Ok(State(s.env, s.memory[x := y])) else Fail
  {
  }
}
