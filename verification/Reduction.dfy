/** Loop-carried integer reductions.  A vector reduction is unordered: the hardware may combine the
    accumulator and the active lanes in any order and along any tree. */
module Reduction {
  import opened Digits
  import opened VectorLength

  datatype Op = Add | Mul | And | Or | Xor

  /** A 32-bit value, as its residue modulo 2^32. */
  type Word = x: int | 0 <= x < 0x1_0000_0000

  const WIDTH: nat := 32
  const MODULUS: int := 0x1_0000_0000

  function Bit(op: Op, x: nat, y: nat): (b: nat)
    requires op.And? || op.Or? || op.Xor?
    requires x < 2 && y < 2
    ensures b < 2
  {
    match op
    case And => if x == 1 && y == 1 then 1 else 0
    case Or => if x == 1 || y == 1 then 1 else 0
    case Xor => if x != y then 1 else 0
  }

  /** A bitwise operation on the lowest `width` bits. */
  function Bitwise(op: Op, x: nat, y: nat, width: nat): (r: nat)
    requires op.And? || op.Or? || op.Xor?
    ensures r < Power(width)
  {
    if width == 0 then 0
    else Bit(op, x % 2, y % 2) + 2 * Bitwise(op, x / 2, y / 2, width - 1)
  }

  lemma WordWidth()
    ensures Power(WIDTH) == MODULUS
  {
    assert Power(8) == 0x100;
    assert Power(16) == 0x1_0000;
    assert Power(24) == 0x100_0000;
  }

  /** Two's complement arithmetic wraps; the machine's choice on overflow is not undefined here. */
  function Combine(op: Op, x: Word, y: Word): Word {
    match op
    case Add => (x + y) % MODULUS
    case Mul => (x * y) % MODULUS
    case _ => WordWidth(); Bitwise(op, x, y, WIDTH)
  }

  lemma {:induction false} BitwiseCommutes(op: Op, x: nat, y: nat, width: nat)
    requires op.And? || op.Or? || op.Xor?
    ensures Bitwise(op, x, y, width) == Bitwise(op, y, x, width)
  {
    if width > 0 {
      BitwiseCommutes(op, x / 2, y / 2, width - 1);
    }
  }

  /** Lowest bit and remaining bits of a bitwise result. */
  lemma BitwiseParts(op: Op, x: nat, y: nat, width: nat)
    requires op.And? || op.Or? || op.Xor?
    requires width > 0
    ensures Bitwise(op, x, y, width) % 2 == Bit(op, x % 2, y % 2)
    ensures Bitwise(op, x, y, width) / 2 == Bitwise(op, x / 2, y / 2, width - 1)
  {
    Halves(Bit(op, x % 2, y % 2), Bitwise(op, x / 2, y / 2, width - 1));
  }

  lemma BitAssociates(op: Op, x: nat, y: nat, z: nat)
    requires op.And? || op.Or? || op.Xor?
    requires x < 2 && y < 2 && z < 2
    ensures Bit(op, Bit(op, x, y), z) == Bit(op, x, Bit(op, y, z))
  {
  }

  lemma {:induction false} BitwiseAssociates(op: Op, x: nat, y: nat, z: nat, width: nat)
    requires op.And? || op.Or? || op.Xor?
    ensures Bitwise(op, Bitwise(op, x, y, width), z, width) == Bitwise(op, x, Bitwise(op, y, z, width), width)
  {
    if width > 0 {
      var xy, yz := Bitwise(op, x, y, width), Bitwise(op, y, z, width);
      BitwiseParts(op, x, y, width);
      BitwiseParts(op, y, z, width);
      BitAssociates(op, x % 2, y % 2, z % 2);
      BitwiseAssociates(op, x / 2, y / 2, z / 2, width - 1);
      BitwiseUnfold(op, xy, z, width);
      BitwiseUnfold(op, x, yz, width);
    }
  }

  lemma BitwiseUnfold(op: Op, x: nat, y: nat, width: nat)
    requires op.And? || op.Or? || op.Xor?
    requires width > 0
    ensures Bitwise(op, x, y, width) == Bit(op, x % 2, y % 2) + 2 * Bitwise(op, x / 2, y / 2, width - 1)
  {
  }

  lemma Halves(b: nat, h: nat)
    requires b < 2
    ensures (b + 2 * h) % 2 == b && (b + 2 * h) / 2 == h
  {
  }

  /** x and its residue are a multiple of the modulus apart. */
  lemma ResidueOf(x: int) returns (k: int)
    ensures x == x % MODULUS + MODULUS * k
  {
    k := x / MODULUS;
  }

  lemma SameResidue(x: int, y: int, k: int)
    requires x == y + MODULUS * k
    ensures x % MODULUS == y % MODULUS
  {
  }

  lemma MulAssociates(x: Word, y: Word, z: Word)
    ensures Combine(Mul, Combine(Mul, x, y), z) == Combine(Mul, x, Combine(Mul, y, z))
  {
    var k := ResidueOf(x * y);
    var j := ResidueOf(y * z);
    var l, r := (x * y) % MODULUS, (y * z) % MODULUS;
    assert x * y * z == l * z + MODULUS * (k * z) by {
      assert (l + MODULUS * k) * z == l * z + MODULUS * k * z;
      assert MODULUS * k * z == MODULUS * (k * z);
    }
    assert x * (y * z) == x * r + MODULUS * (x * j) by {
      assert x * (r + MODULUS * j) == x * r + x * (MODULUS * j);
      assert x * (MODULUS * j) == MODULUS * (x * j);
    }
    assert x * y * z == x * (y * z);
    SameResidue(x * y * z, l * z, k * z);
    SameResidue(x * (y * z), x * r, x * j);
  }

  lemma AddAssociates(x: Word, y: Word, z: Word)
    ensures Combine(Add, Combine(Add, x, y), z) == Combine(Add, x, Combine(Add, y, z))
  {
    var k := ResidueOf(x + y);
    var j := ResidueOf(y + z);
    SameResidue(x + y + z, (x + y) % MODULUS + z, k);
    SameResidue(x + y + z, x + (y + z) % MODULUS, j);
  }

  lemma MulCommutes(x: Word, y: Word)
    ensures Combine(Mul, x, y) == Combine(Mul, y, x)
  {
    assert x * y == y * x;
  }

  /** All five operations are associative and commutative on 32-bit words. */
  lemma OpLaws(op: Op, x: Word, y: Word, z: Word)
    ensures Combine(op, Combine(op, x, y), z) == Combine(op, x, Combine(op, y, z))
    ensures Combine(op, x, y) == Combine(op, y, x)
  {
    if op == Add {
      AddAssociates(x, y, z);
    } else if op == Mul {
      MulAssociates(x, y, z);
      MulCommutes(x, y);
    } else {
      BitwiseAssociates(op, x, y, z, WIDTH);
      BitwiseCommutes(op, x, y, WIDTH);
    }
  }

  /** The scalar reduction, in element order. */
  function Fold(op: Op, seed: Word, xs: seq<Word>): Word
    decreases |xs|
  {
    if xs == [] then seed else Combine(op, Fold(op, seed, xs[..|xs| - 1]), xs[|xs| - 1])
  }

  lemma {:induction false} FoldAppend(op: Op, seed: Word, xs: seq<Word>, ys: seq<Word>)
    ensures Fold(op, seed, xs + ys) == Fold(op, Fold(op, seed, xs), ys)
    decreases |ys|
  {
    if ys == [] {
      assert xs + ys == xs;
    } else {
      var init := ys[..|ys| - 1];
      assert (xs + ys)[..|xs + ys| - 1] == xs + init;
      FoldAppend(op, seed, xs, init);
    }
  }

  /** The seed can be combined in last. */
  lemma {:induction false} FoldSeed(op: Op, x: Word, y: Word, xs: seq<Word>)
    ensures Fold(op, Combine(op, x, y), xs) == Combine(op, x, Fold(op, y, xs))
    decreases |xs|
  {
    if xs != [] {
      var last := xs[|xs| - 1];
      FoldSeed(op, x, y, xs[..|xs| - 1]);
      OpLaws(op, x, Fold(op, y, xs[..|xs| - 1]), last);
    }
  }

  /** Any element can be taken out and combined at the end. */
  lemma FoldExtract(op: Op, seed: Word, xs: seq<Word>, i: nat)
    requires i < |xs|
    ensures Fold(op, seed, xs) == Combine(op, Fold(op, seed, xs[..i] + xs[i + 1..]), xs[i])
  {
    var before, x, after := xs[..i], xs[i], xs[i + 1..];
    assert xs == (before + [x]) + after;
    FoldAppend(op, seed, before + [x], after);
    FoldAppend(op, seed, before, after);
    assert (before + [x])[..|before|] == before;
    var f := Fold(op, seed, before);
    assert Fold(op, seed, before + [x]) == Combine(op, f, x);
    OpLaws(op, f, x, 0);
    FoldSeed(op, x, f, after);
    OpLaws(op, x, Fold(op, f, after), 0);
  }

  lemma FoldExchange(op: Op, a: Word, b: Word, xs: seq<Word>)
    ensures Combine(op, Fold(op, a, xs), b) == Combine(op, Fold(op, b, xs), a)
  {
    OpLaws(op, Fold(op, a, xs), b, 0);
    OpLaws(op, Fold(op, b, xs), a, 0);
    FoldSeed(op, a, b, xs);
    FoldSeed(op, b, a, xs);
    OpLaws(op, a, b, 0);
  }

  lemma Extract(op: Op, seed: Word, xs: seq<Word>, x: Word) returns (rest: seq<Word>)
    requires x in multiset(xs)
    ensures multiset(rest) == multiset(xs) - multiset{x}
    ensures Fold(op, seed, xs) == Combine(op, Fold(op, seed, rest), x)
  {
    var i :| 0 <= i < |xs| && xs[i] == x;
    rest := xs[..i] + xs[i + 1..];
    assert xs == xs[..i] + [x] + xs[i + 1..];
    FoldExtract(op, seed, xs, i);
  }

  lemma WithoutLast(xs: seq<Word>)
    requires xs != []
    ensures multiset(xs[..|xs| - 1]) == multiset(xs) - multiset{xs[|xs| - 1]}
    ensures xs[|xs| - 1] in multiset(xs)
  {
    assert xs == xs[..|xs| - 1] + [xs[|xs| - 1]];
  }

  /** Only the multiset of lanes matters. */
  lemma {:induction false} FoldPermuted(op: Op, seed: Word, xs: seq<Word>, ys: seq<Word>)
    requires multiset(xs) == multiset(ys)
    ensures Fold(op, seed, xs) == Fold(op, seed, ys)
    decreases |xs|
  {
    assert |xs| == |multiset(xs)| == |multiset(ys)| == |ys|;
    if xs != [] {
      WithoutLast(xs);
      var rest := Extract(op, seed, ys, xs[|xs| - 1]);
      FoldPermuted(op, seed, xs[..|xs| - 1], rest);
    }
  }

  /** The combination tree of an unordered reduction. */
  datatype Tree = Leaf(value: Word) | Node(left: Tree, right: Tree)

  function Leaves(t: Tree): (s: seq<Word>)
    ensures s != []
  {
    match t
    case Leaf(v) => [v]
    case Node(l, r) => Leaves(l) + Leaves(r)
  }

  function Eval(op: Op, t: Tree): Word {
    match t
    case Leaf(v) => v
    case Node(l, r) => Combine(op, Eval(op, l), Eval(op, r))
  }

  lemma {:induction false} EvalIsFold(op: Op, t: Tree)
    ensures Eval(op, t) == Fold(op, Leaves(t)[0], Leaves(t)[1..])
  {
    match t
    case Leaf(_) =>
    case Node(l, r) =>
      var xs, ys := Leaves(l), Leaves(r);
      EvalIsFold(op, l);
      EvalIsFold(op, r);
      assert (xs + ys)[1..] == (xs[1..] + [ys[0]]) + ys[1..];
      FoldAppend(op, xs[0], xs[1..] + [ys[0]], ys[1..]);
      assert (xs[1..] + [ys[0]])[..|xs| - 1] == xs[1..];
      FoldSeed(op, Eval(op, l), ys[0], ys[1..]);
  }

  /** `r` is a possible result of reducing the lanes into the accumulator, in some order and along
      some tree. */
  ghost predicate Reduces(op: Op, acc: Word, lanes: seq<Word>, r: Word) {
    exists t: Tree :: multiset(Leaves(t)) == multiset([acc] + lanes) && Eval(op, t) == r
  }

  /** The accumulator is a lane like any other. */
  lemma FoldRotated(op: Op, a: Word, xs: seq<Word>, b: Word, ys: seq<Word>)
    requires multiset([a] + xs) == multiset([b] + ys)
    ensures Fold(op, a, xs) == Fold(op, b, ys)
  {
    assert multiset([a] + xs) == multiset{a} + multiset(xs);
    assert multiset([b] + ys) == multiset{b} + multiset(ys);
    if a == b {
      assert multiset(xs) == multiset(ys) by {
        assert multiset(xs) == multiset([a] + xs) - multiset{a};
        assert multiset(ys) == multiset([b] + ys) - multiset{b};
      }
      FoldPermuted(op, a, xs, ys);
    } else {
      assert b in multiset{a} + multiset(xs) && a in multiset{b} + multiset(ys);
      var xs' := Extract(op, a, xs, b);
      var ys' := Extract(op, b, ys, a);
      SameRest(a, b, multiset(xs), multiset(ys));
      FoldPermuted(op, a, xs', ys');
      FoldExchange(op, a, b, ys');
    }
  }

  lemma SameRest(a: Word, b: Word, x: multiset<Word>, y: multiset<Word>)
    requires a != b && multiset{a} + x == multiset{b} + y
    ensures x - multiset{b} == y - multiset{a}
  {
    forall w ensures (x - multiset{b})[w] == (y - multiset{a})[w] {
      assert (multiset{a} + x)[w] == (multiset{b} + y)[w];
    }
  }

  /** Every unordered reduction gives the element-order fold. */
  lemma UnorderedIsOrdered(op: Op, acc: Word, lanes: seq<Word>, r: Word)
    requires Reduces(op, acc, lanes, r)
    ensures r == Fold(op, acc, lanes)
  {
    var t :| multiset(Leaves(t)) == multiset([acc] + lanes) && Eval(op, t) == r;
    TreeIsOrdered(op, t, acc, lanes);
  }

  lemma TreeIsOrdered(op: Op, t: Tree, acc: Word, lanes: seq<Word>)
    requires multiset(Leaves(t)) == multiset([acc] + lanes)
    ensures Eval(op, t) == Fold(op, acc, lanes)
  {
    EvalIsFold(op, t);
    FoldOfAll(op, Leaves(t), acc, lanes);
  }

  lemma FoldOfAll(op: Op, all: seq<Word>, acc: Word, lanes: seq<Word>)
    requires all != [] && multiset(all) == multiset([acc] + lanes)
    ensures Fold(op, all[0], all[1..]) == Fold(op, acc, lanes)
  {
    assert all == [all[0]] + all[1..];
    FoldRotated(op, all[0], all[1..], acc, lanes);
  }

  /** The left-leaning tree of the element-order fold. */
  function Comb(acc: Word, lanes: seq<Word>): Tree
    decreases |lanes|
  {
    if lanes == [] then Leaf(acc) else Node(Comb(acc, lanes[..|lanes| - 1]), Leaf(lanes[|lanes| - 1]))
  }

  lemma {:induction false} CombReduces(op: Op, acc: Word, lanes: seq<Word>)
    ensures Leaves(Comb(acc, lanes)) == [acc] + lanes
    ensures Eval(op, Comb(acc, lanes)) == Fold(op, acc, lanes)
    decreases |lanes|
  {
    if lanes != [] {
      CombReduces(op, acc, lanes[..|lanes| - 1]);
      assert lanes == lanes[..|lanes| - 1] + [lanes[|lanes| - 1]];
    }
  }

  /** One vector reduction instruction; the caller knows only that some tree was used. */
  method VectorReduce(op: Op, acc: Word, lanes: seq<Word>) returns (r: Word)
    ensures Reduces(op, acc, lanes, r)
  {
    r := acc;
    for lane := 0 to |lanes|
      invariant r == Fold(op, acc, lanes[..lane])
    {
      assert lanes[..lane + 1][..lane] == lanes[..lane];
      r := Combine(op, r, lanes[lane]);
    }
    assert lanes[..|lanes|] == lanes;
    CombReduces(op, acc, lanes);
  }

  /** The scalar reduction loop. */
  method ScalarReduction(op: Op, seed: Word, lanes: seq<Word>, n: int) returns (acc: Word)
    requires n <= |lanes|
    ensures acc == Fold(op, seed, if n > 0 then lanes[..n] else [])
  {
    acc := seed;
    var lane := 0;
    while lane < n
      invariant 0 <= lane && (lane <= n || lane == 0)
      invariant acc == Fold(op, seed, lanes[..lane])
    {
      assert lanes[..lane + 1][..lane] == lanes[..lane];
      acc := Combine(op, acc, lanes[lane]);
      lane := lane + 1;
    }
  }

  /** A fold continues with the next chunk. */
  lemma FoldChunk(op: Op, seed: Word, lanes: seq<Word>, lane: nat, vl: nat)
    requires lane + vl <= |lanes|
    ensures Fold(op, Fold(op, seed, lanes[..lane]), lanes[lane..lane + vl]) == Fold(op, seed, lanes[..lane + vl])
  {
    FoldAppend(op, seed, lanes[..lane], lanes[lane..lane + vl]);
    assert lanes[..lane] + lanes[lane..lane + vl] == lanes[..lane + vl];
  }

  /** The chunked reduction: the accumulator is the passthrough of each chunk's vector reduction.
      It equals the scalar reduction for every operation, seed, trip count, vector length and
      combination order, and a loop of no iterations returns the seed. */
  method VlaReduction(op: Op, seed: Word, lanes: seq<Word>, n: int, vlmax: nat) returns (acc: Word)
    requires n <= |lanes| && vlmax > 0
    ensures acc == Fold(op, seed, if n > 0 then lanes[..n] else [])
    ensures n <= 0 ==> acc == seed
  {
    acc := seed;
    var remaining: nat := if n > 0 then n else 0;
    var lane: nat := 0;
    while remaining != 0
      invariant lane + remaining == if n > 0 then n else 0
      invariant acc == Fold(op, seed, lanes[..lane])
      decreases remaining
    {
      var actualVl := SetVL(remaining, vlmax);
      var chunk := lanes[lane..lane + actualVl];
      var before := acc;
      acc := VectorReduce(op, before, chunk);
      UnorderedIsOrdered(op, before, chunk, acc);
      FoldChunk(op, seed, lanes, lane, actualVl);
      lane := lane + actualVl;
      remaining := remaining - actualVl;
    }
  }

  const UNROLL: nat := 4

  /** The lanes of one residue of a chunk of unrolled groups: a gather with stride four. */
  function Residue(lanes: seq<Word>, group: nat, vl: nat, residue: nat): (r: seq<Word>)
    requires residue < UNROLL && UNROLL * (group + vl) <= |lanes|
    ensures |r| == vl
  {
    seq(vl, lane requires 0 <= lane < vl => lanes[(group + lane) * UNROLL + residue])
  }

  /** Element `residue` of one unrolled group. */
  function GroupLane(lanes: seq<Word>, group: nat, residue: nat): Word
    requires residue < UNROLL && UNROLL * (group + 1) <= |lanes|
  {
    lanes[group * UNROLL + residue]
  }

  /** The lanes of one group. */
  ghost function GroupBag(lanes: seq<Word>, group: nat): multiset<Word>
    requires UNROLL * (group + 1) <= |lanes|
  {
    (multiset{GroupLane(lanes, group, 0)} + multiset{GroupLane(lanes, group, 1)})
    + (multiset{GroupLane(lanes, group, 2)} + multiset{GroupLane(lanes, group, 3)})
  }

  /** The lanes of a chunk, collected residue by residue. */
  ghost function ResidueBag(lanes: seq<Word>, group: nat, vl: nat): multiset<Word>
    requires UNROLL * (group + vl) <= |lanes|
  {
    (multiset(Residue(lanes, group, vl, 0)) + multiset(Residue(lanes, group, vl, 1)))
    + (multiset(Residue(lanes, group, vl, 2)) + multiset(Residue(lanes, group, vl, 3)))
  }

  /** The lanes of a chunk, in element order. */
  function Chunk(lanes: seq<Word>, group: nat, vl: nat): seq<Word>
    requires UNROLL * (group + vl) <= |lanes|
  {
    lanes[UNROLL * group..UNROLL * (group + vl)]
  }

  /** The transposition: taken residue by residue, a chunk holds the same lanes as in element
      order. */
  lemma {:induction false} ResiduesPermuteTheChunk(lanes: seq<Word>, group: nat, vl: nat)
    requires UNROLL * (group + vl) <= |lanes|
    ensures ResidueBag(lanes, group, vl) == multiset(Chunk(lanes, group, vl))
  {
    if vl == 0 {
      assert Chunk(lanes, group, vl) == [];
    } else {
      ResiduesPermuteTheChunk(lanes, group, vl - 1);
      ResidueBagStep(lanes, group, vl);
      ChunkStep(lanes, group, vl);
    }
  }

  lemma ResidueBagStep(lanes: seq<Word>, group: nat, vl: nat)
    requires vl > 0 && UNROLL * (group + vl) <= |lanes|
    ensures ResidueBag(lanes, group, vl) == ResidueBag(lanes, group, vl - 1) + GroupBag(lanes, group + vl - 1)
  {
    ResidueStep(lanes, group, vl, 0);
    ResidueStep(lanes, group, vl, 1);
    ResidueStep(lanes, group, vl, 2);
    ResidueStep(lanes, group, vl, 3);
    var last := group + vl - 1;
    Regroup(multiset(Residue(lanes, group, vl - 1, 0)), multiset{GroupLane(lanes, last, 0)},
            multiset(Residue(lanes, group, vl - 1, 1)), multiset{GroupLane(lanes, last, 1)});
    Regroup(multiset(Residue(lanes, group, vl - 1, 2)), multiset{GroupLane(lanes, last, 2)},
            multiset(Residue(lanes, group, vl - 1, 3)), multiset{GroupLane(lanes, last, 3)});
    Regroup(multiset(Residue(lanes, group, vl - 1, 0)) + multiset(Residue(lanes, group, vl - 1, 1)),
            multiset{GroupLane(lanes, last, 0)} + multiset{GroupLane(lanes, last, 1)},
            multiset(Residue(lanes, group, vl - 1, 2)) + multiset(Residue(lanes, group, vl - 1, 3)),
            multiset{GroupLane(lanes, last, 2)} + multiset{GroupLane(lanes, last, 3)});
  }

  lemma Regroup(a: multiset<Word>, x: multiset<Word>, b: multiset<Word>, y: multiset<Word>)
    ensures (a + x) + (b + y) == (a + b) + (x + y)
  {
  }

  /** A chunk ends with its last group. */
  lemma ChunkEnds(lanes: seq<Word>, group: nat, vl: nat)
    requires vl > 0 && UNROLL * (group + vl) <= |lanes|
    ensures var last := group + vl - 1;
            Chunk(lanes, group, vl) == Chunk(lanes, group, vl - 1)
                                       + (([GroupLane(lanes, last, 0)] + [GroupLane(lanes, last, 1)])
                                          + ([GroupLane(lanes, last, 2)] + [GroupLane(lanes, last, 3)]))
  {
    var last := group + vl - 1;
    GroupSlice(lanes, last);
    SliceAppend(lanes, UNROLL * group, UNROLL * last, UNROLL * (last + 1));
  }

  lemma ChunkStep(lanes: seq<Word>, group: nat, vl: nat)
    requires vl > 0 && UNROLL * (group + vl) <= |lanes|
    ensures multiset(Chunk(lanes, group, vl)) == multiset(Chunk(lanes, group, vl - 1)) + GroupBag(lanes, group + vl - 1)
  {
    var last := group + vl - 1;
    ChunkEnds(lanes, group, vl);
    BagAppend(Chunk(lanes, group, vl - 1), ([GroupLane(lanes, last, 0)] + [GroupLane(lanes, last, 1)])
                                           + ([GroupLane(lanes, last, 2)] + [GroupLane(lanes, last, 3)]));
    GroupBagOfSeq(lanes, last);
  }

  lemma GroupBagOfSeq(lanes: seq<Word>, group: nat)
    requires UNROLL * (group + 1) <= |lanes|
    ensures multiset(([GroupLane(lanes, group, 0)] + [GroupLane(lanes, group, 1)])
                   + ([GroupLane(lanes, group, 2)] + [GroupLane(lanes, group, 3)])) == GroupBag(lanes, group)
  {
    var w, x := GroupLane(lanes, group, 0), GroupLane(lanes, group, 1);
    var y, z := GroupLane(lanes, group, 2), GroupLane(lanes, group, 3);
    PairBag(w, x);
    PairBag(y, z);
    BagAppend([w] + [x], [y] + [z]);
  }

  lemma PairBag(x: Word, y: Word)
    ensures multiset([x] + [y]) == multiset{x} + multiset{y}
  {
  }

  lemma SliceAppend(s: seq<Word>, lo: nat, mid: nat, hi: nat)
    requires lo <= mid <= hi <= |s|
    ensures s[lo..hi] == s[lo..mid] + s[mid..hi]
  {
  }

  lemma BagAppend(s: seq<Word>, t: seq<Word>)
    ensures multiset(s + t) == multiset(s) + multiset(t)
  {
  }

  lemma GroupSlice(lanes: seq<Word>, group: nat)
    requires UNROLL * (group + 1) <= |lanes|
    ensures lanes[UNROLL * group..UNROLL * (group + 1)]
         == ([GroupLane(lanes, group, 0)] + [GroupLane(lanes, group, 1)])
          + ([GroupLane(lanes, group, 2)] + [GroupLane(lanes, group, 3)])
  {
  }

  lemma ResidueStep(lanes: seq<Word>, group: nat, vl: nat, residue: nat)
    requires residue < UNROLL && vl > 0 && UNROLL * (group + vl) <= |lanes|
    ensures multiset(Residue(lanes, group, vl, residue))
         == multiset(Residue(lanes, group, vl - 1, residue)) + multiset{GroupLane(lanes, group + vl - 1, residue)}
  {
    assert Residue(lanes, group, vl, residue)
        == Residue(lanes, group, vl - 1, residue) + [GroupLane(lanes, group + vl - 1, residue)];
  }

  /** The chain r0 = reduce(acc, residue 0), ..., r3 = reduce(r2, residue 3). */
  ghost function Chain(op: Op, acc: Word, lanes: seq<Word>, group: nat, vl: nat, residues: nat): Word
    requires residues <= UNROLL && UNROLL * (group + vl) <= |lanes|
  {
    if residues == 0 then acc
    else Fold(op, Chain(op, acc, lanes, group, vl, residues - 1), Residue(lanes, group, vl, residues - 1))
  }

  /** The first `residues` residues one after another. */
  ghost function Residues(lanes: seq<Word>, group: nat, vl: nat, residues: nat): seq<Word>
    requires residues <= UNROLL && UNROLL * (group + vl) <= |lanes|
  {
    if residues == 0 then []
    else Residues(lanes, group, vl, residues - 1) + Residue(lanes, group, vl, residues - 1)
  }

  lemma {:induction false} ChainIsFoldOfResidues(op: Op, acc: Word, lanes: seq<Word>, group: nat, vl: nat,
                                                 residues: nat)
    requires residues <= UNROLL && UNROLL * (group + vl) <= |lanes|
    ensures Chain(op, acc, lanes, group, vl, residues) == Fold(op, acc, Residues(lanes, group, vl, residues))
  {
    if residues > 0 {
      ChainIsFoldOfResidues(op, acc, lanes, group, vl, residues - 1);
      FoldAppend(op, acc, Residues(lanes, group, vl, residues - 1), Residue(lanes, group, vl, residues - 1));
    }
  }

  /** Four chained vector reductions, one per residue, amount to the element-order fold. */
  lemma ChainIsFold(op: Op, acc: Word, lanes: seq<Word>, group: nat, vl: nat)
    requires UNROLL * (group + vl) <= |lanes|
    ensures Chain(op, acc, lanes, group, vl, UNROLL) == Fold(op, acc, Chunk(lanes, group, vl))
  {
    ChainIsFoldOfResidues(op, acc, lanes, group, vl, UNROLL);
    ResiduesPermuteTheChunk(lanes, group, vl);
    ResiduesUnfold(lanes, group, vl);
    FoldPermuted(op, acc, Residues(lanes, group, vl, UNROLL), Chunk(lanes, group, vl));
  }

  lemma ResiduesUnfold(lanes: seq<Word>, group: nat, vl: nat)
    requires UNROLL * (group + vl) <= |lanes|
    ensures multiset(Residues(lanes, group, vl, UNROLL)) == ResidueBag(lanes, group, vl)
  {
    assert Residues(lanes, group, vl, 1) == Residue(lanes, group, vl, 0);
    assert Residues(lanes, group, vl, 2) == Residues(lanes, group, vl, 1) + Residue(lanes, group, vl, 1);
    assert Residues(lanes, group, vl, 3) == Residues(lanes, group, vl, 2) + Residue(lanes, group, vl, 2);
  }

  /** The reduction of a loop unrolled by four: each chunk of groups is reduced residue by residue,
      the accumulator passing through all four reductions. */
  method UnrolledReduction(op: Op, seed: Word, lanes: seq<Word>, groups: nat, vlmax: nat) returns (acc: Word)
    requires UNROLL * groups <= |lanes| && vlmax > 0
    ensures acc == Fold(op, seed, lanes[..UNROLL * groups])
  {
    acc := seed;
    var group := 0;
    while group < groups
      invariant 0 <= group <= groups
      invariant acc == Fold(op, seed, lanes[..UNROLL * group])
    {
      var actualVl := SetVL(groups - group, vlmax);
      var before := acc;
      acc := ReduceResidues(op, before, lanes, group, actualVl);
      FoldAppend(op, seed, lanes[..UNROLL * group], Chunk(lanes, group, actualVl));
      assert lanes[..UNROLL * group] + Chunk(lanes, group, actualVl)
          == lanes[..UNROLL * (group + actualVl)];
      group := group + actualVl;
    }
  }

  method ReduceResidues(op: Op, acc: Word, lanes: seq<Word>, group: nat, vl: nat) returns (r: Word)
    requires UNROLL * (group + vl) <= |lanes|
    ensures r == Fold(op, acc, Chunk(lanes, group, vl))
  {
    r := acc;
    for residue := 0 to UNROLL
      invariant r == Chain(op, acc, lanes, group, vl, residue)
    {
      var previous := r;
      r := VectorReduce(op, previous, Residue(lanes, group, vl, residue));
      UnorderedIsOrdered(op, previous, Residue(lanes, group, vl, residue), r);
    }
    ChainIsFold(op, acc, lanes, group, vl);
  }
}
