/** Loops that compute one array element per iteration, and their strip-mined form with two
    independent vector chunks per iteration. */
module ElementLoops {
  import opened VectorLength

  /** A signed trip count as a number of iterations. */
  function Clip(n: int): nat {
    if n > 0 then n else 0
  }

  /** The scalar loop `*p++` over the input: the lane value of iteration `i` is `op(input[i])`. */
  method ScalarElements(input: seq<int>, out: array<int>, n: int, op: int -> int)
    requires Clip(n) <= |input| && Clip(n) <= out.Length
    modifies out
    ensures forall i :: 0 <= i < out.Length ==> out[i] == if i < n then op(input[i]) else old(out[i])
  {
    var iv := 0;
    while iv < n
      invariant iv <= Clip(n)
      invariant forall i :: 0 <= i < out.Length ==> out[i] == if i < iv then op(input[i]) else old(out[i])
    {
      out[iv] := op(input[iv]);
      iv := iv + 1;
    }
  }

  /** One vector group: `vl` lanes loaded through the pointer, stored at `iv`. */
  method Group(input: seq<int>, out: array<int>, pointer: nat, iv: nat, vl: nat, op: int -> int)
    requires pointer + vl <= |input| && iv + vl <= out.Length
    modifies out
    ensures forall i :: 0 <= i < out.Length ==>
              out[i] == if iv <= i < iv + vl then op(input[pointer + (i - iv)]) else old(out[i])
  {
    for lane := 0 to vl
      invariant forall i :: 0 <= i < out.Length ==>
                  out[i] == if iv <= i < iv + lane then op(input[pointer + (i - iv)]) else old(out[i])
    {
      out[iv + lane] := op(input[pointer + lane]);
    }
  }

  /** Interleave by two: the second group asks for what the first one leaves, starts where the
      first one ends, and may be empty.  The induction variable, the pointer and the remaining
      count all advance by the total of both lengths. */
  method InterleavedElements(input: seq<int>, out: array<int>, n: int, vlmax: nat, op: int -> int)
    returns (iv: nat, pointer: nat)
    requires vlmax > 0 && Clip(n) <= |input| && Clip(n) <= out.Length
    modifies out
    ensures forall i :: 0 <= i < out.Length ==> out[i] == if i < n then op(input[i]) else old(out[i])
    ensures iv == pointer == Clip(n)
  {
    var remaining: nat := Clip(n);
    iv, pointer := 0, 0;
    while remaining != 0
      invariant iv == pointer <= Clip(n) && remaining == Clip(n) - iv
      invariant forall i :: 0 <= i < out.Length ==> out[i] == if i < iv then op(input[i]) else old(out[i])
      decreases remaining
    {
      var vl0 := SetVL(remaining, vlmax);
      Group(input, out, pointer, iv, vl0, op);
      var remaining1 := remaining - vl0;
      var vl1 := SetVL(remaining1, vlmax);
      Group(input, out, pointer + vl0, iv + vl0, vl1, op);
      var total := vl0 + vl1;
      iv := iv + total;
      pointer := pointer + total;
      remaining := remaining - total;
    }
  }
}
