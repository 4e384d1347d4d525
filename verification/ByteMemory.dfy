/** A byte-addressed memory holding little-endian 32-bit words.  Addresses are `uintptr_t` values,
    so they wrap around the end of the address space. */
module ByteMemory {

  type Byte = x: int | 0 <= x < 0x100

  const WORD_BYTES: nat := 4
  const WORD_RANGE: int := 0x1_0000_0000

  type Word = x: int | 0 <= x < WORD_RANGE

  /** The byte an address names in an address space of `size` bytes. */
  function Wrap(addr: int, size: nat): (a: nat)
    requires size > 0
    ensures a < size
    ensures 0 <= addr < size ==> a == addr
  {
    addr % size
  }

  /** The location of byte `k` of the object at `addr`. */
  function Slot(addr: int, k: int, size: nat): (a: nat)
    requires size > 0
    ensures a < size
  {
    Wrap(addr + k, size)
  }

  function Range(bytes: nat): (r: nat)
    ensures r > 0
  {
    if bytes == 0 then 1 else 0x100 * Range(bytes - 1)
  }

  /** Little-endian value of a byte string. */
  function FromBytes(bs: seq<Byte>): (w: nat)
    ensures w < Range(|bs|)
  {
    if bs == [] then 0 else bs[0] + 0x100 * FromBytes(bs[1..])
  }

  function ToBytes(w: nat, n: nat): (bs: seq<Byte>)
    ensures |bs| == n
  {
    if n == 0 then [] else [w % 0x100] + ToBytes(w / 0x100, n - 1)
  }

  lemma {:induction false} BytesRoundTrip(w: nat, n: nat)
    requires w < Range(n)
    ensures FromBytes(ToBytes(w, n)) == w
  {
    if n > 0 {
      BytesRoundTrip(w / 0x100, n - 1);
      assert ToBytes(w, n)[1..] == ToBytes(w / 0x100, n - 1);
    }
  }

  function LoadBytes(m: seq<Byte>, addr: int, n: nat): (bs: seq<Byte>)
    requires |m| > 0
    ensures |bs| == n
  {
    seq(n, k => m[Slot(addr, k, |m|)])
  }

  function StoreBytes(m: seq<Byte>, addr: int, bs: seq<Byte>): (m': seq<Byte>)
    requires |m| > 0
    ensures |m'| == |m|
    decreases |bs|
  {
    if bs == [] then m
    else
      var last := |bs| - 1;
      StoreBytes(m, addr, bs[..last])[Slot(addr, last, |m|) := bs[last]]
  }

  function LoadWord(m: seq<Byte>, addr: int): Word
    requires |m| > 0
  {
    WordRange();
    FromBytes(LoadBytes(m, addr, WORD_BYTES))
  }

  function StoreWord(m: seq<Byte>, addr: int, w: Word): (m': seq<Byte>)
    requires |m| > 0
    ensures |m'| == |m|
  {
    StoreBytes(m, addr, ToBytes(w, WORD_BYTES))
  }

  lemma WordRange()
    ensures Range(WORD_BYTES) == WORD_RANGE
  {
    assert Range(3) == 0x100 * Range(2) && Range(2) == 0x100 * Range(1) && Range(1) == 0x100 * Range(0);
  }

  lemma FourBytes(b: seq<Byte>)
    requires |b| == 4
    ensures var b0: int, b1: int, b2: int, b3: int := b[0], b[1], b[2], b[3];
            FromBytes(b) == b0 + 0x100 * b1 + 0x1_0000 * b2 + 0x100_0000 * b3
  {
    var one, two, three := b[1..], b[1..][1..], b[1..][1..][1..];
    assert one[0] == b[1] && two[0] == b[2] && three[0] == b[3] && three[1..] == [];
    assert FromBytes(b) == b[0] + 0x100 * FromBytes(one);
    assert FromBytes(one) == b[1] + 0x100 * FromBytes(two);
    assert FromBytes(two) == b[2] + 0x100 * FromBytes(three);
    assert FromBytes(three) == b[3] + 0x100 * FromBytes([]);
  }

  /** The lowest address holds the lowest byte. */
  lemma LittleEndian(m: seq<Byte>, p: nat)
    requires p + 3 < |m|
    ensures var b0: int, b1: int, b2: int, b3: int := m[p], m[p + 1], m[p + 2], m[p + 3];
            LoadWord(m, p) == b0 + 0x100 * b1 + 0x1_0000 * b2 + 0x100_0000 * b3
  {
    var b := LoadBytes(m, p, 4);
    assert b == [m[p], m[p + 1], m[p + 2], m[p + 3]];
    FourBytes(b);
  }

  /** The words at `p` and `q` have no byte in common. */
  ghost predicate Apart(p: int, q: int, size: nat)
    requires size > 0
  {
    forall k, l :: 0 <= k < WORD_BYTES && 0 <= l < WORD_BYTES ==> Slot(p, k, size) != Slot(q, l, size)
  }

  lemma {:induction false} ByteElsewhere(m: seq<Byte>, x: nat, q: int, bs: seq<Byte>)
    requires x < |m| && forall l :: 0 <= l < |bs| ==> x != Slot(q, l, |m|)
    ensures StoreBytes(m, q, bs)[x] == m[x]
    decreases |bs|
  {
    if bs != [] {
      ByteElsewhere(m, x, q, bs[..|bs| - 1]);
    }
  }

  /** A stored byte does not depend on the memory it is stored into. */
  lemma {:induction false} StoredByte(m: seq<Byte>, m': seq<Byte>, q: int, bs: seq<Byte>, x: nat)
    requires |m| == |m'| > x && exists l :: 0 <= l < |bs| && Slot(q, l, |m|) == x
    ensures StoreBytes(m, q, bs)[x] == StoreBytes(m', q, bs)[x]
    decreases |bs|
  {
    var last := |bs| - 1;
    if x != Slot(q, last, |m|) {
      StoredByte(m, m', q, bs[..last], x);
    }
  }

  /** Stores to words that share no byte commute. */
  lemma StoresCommute(m: seq<Byte>, p: int, u: Word, q: int, w: Word)
    requires |m| > 0 && Apart(p, q, |m|)
    ensures StoreWord(StoreWord(m, p, u), q, w) == StoreWord(StoreWord(m, q, w), p, u)
  {
    var us, ws := ToBytes(u, WORD_BYTES), ToBytes(w, WORD_BYTES);
    var left, right := StoreWord(StoreWord(m, p, u), q, w), StoreWord(StoreWord(m, q, w), p, u);
    forall x | 0 <= x < |m| ensures left[x] == right[x] {
      if exists l :: 0 <= l < WORD_BYTES && Slot(q, l, |m|) == x {
        ByteElsewhere(StoreWord(m, q, w), x, p, us);
        StoredByte(StoreWord(m, p, u), m, q, ws, x);
      } else {
        ByteElsewhere(StoreWord(m, p, u), x, q, ws);
        if exists l :: 0 <= l < WORD_BYTES && Slot(p, l, |m|) == x {
          StoredByte(StoreWord(m, q, w), m, p, us, x);
        } else {
          ByteElsewhere(StoreWord(m, q, w), x, p, us);
          ByteElsewhere(m, x, p, us);
          ByteElsewhere(m, x, q, ws);
        }
      }
    }
  }

  lemma LoadElsewhere(m: seq<Byte>, p: int, q: int, w: Word)
    requires |m| > 0 && Apart(p, q, |m|)
    ensures LoadWord(StoreWord(m, q, w), p) == LoadWord(m, p)
  {
    forall k | 0 <= k < WORD_BYTES ensures StoreWord(m, q, w)[Slot(p, k, |m|)] == m[Slot(p, k, |m|)] {
      ByteElsewhere(m, Slot(p, k, |m|), q, ToBytes(w, WORD_BYTES));
    }
    assert LoadBytes(StoreWord(m, q, w), p, WORD_BYTES) == LoadBytes(m, p, WORD_BYTES);
  }

  lemma WrapDistinct(addr: int, d: int, size: nat)
    requires 0 < d < size
    ensures Wrap(addr, size) != Wrap(addr + d, size)
  {
    var r := addr % size;
    var t := if r + d < size then r + d else r + d - size;
    var q := if r + d < size then addr / size else addr / size + 1;
    assert addr + d == size * q + t by {
      assert addr == size * (addr / size) + r;
      assert size * (addr / size + 1) == size * (addr / size) + size;
    }
    Remainder(addr + d, size, q, t);
  }

  lemma Remainder(x: int, d: nat, q: int, r: nat)
    requires r < d && x == d * q + r
    ensures x % d == r
  {
    var k := x / d - q;
    assert d * k == r - x % d by {
      assert x == d * (x / d) + x % d;
      assert d * (x / d - q) == d * (x / d) - d * q;
    }
    assert d * k == d * (k - 1) + d == d * (k + 1) - d;
    assert k >= 1 ==> d * (k - 1) >= 0;
    assert k <= -1 ==> d * (k + 1) <= 0;
  }

  lemma {:induction false} BytesBack(m: seq<Byte>, p: int, bs: seq<Byte>, k: nat)
    requires |m| >= |bs| && k < |bs|
    ensures StoreBytes(m, p, bs)[Slot(p, k, |m|)] == bs[k]
    decreases |bs|
  {
    var last := |bs| - 1;
    if k < last {
      BytesBack(m, p, bs[..last], k);
      WrapDistinct(p + k, last - k, |m|);
    }
  }

  /** A stored word reads back, wherever it lies in the address space. */
  lemma LoadBack(m: seq<Byte>, p: int, w: Word)
    requires |m| >= WORD_BYTES
    ensures LoadWord(StoreWord(m, p, w), p) == w
  {
    var bs := ToBytes(w, WORD_BYTES);
    forall k | 0 <= k < WORD_BYTES ensures StoreWord(m, p, w)[Slot(p, k, |m|)] == bs[k] {
      BytesBack(m, p, bs, k);
    }
    assert LoadBytes(StoreWord(m, p, w), p, WORD_BYTES) == bs;
    WordRange();
    BytesRoundTrip(w, WORD_BYTES);
  }

  method LoadWordAt(mem: array<Byte>, addr: int) returns (w: Word)
    requires mem.Length > 0
    ensures w == LoadWord(mem[..], addr)
  {
    var bs: seq<Byte> := [];
    for k := 0 to WORD_BYTES
      invariant bs == LoadBytes(mem[..], addr, k)
    {
      bs := bs + [mem[Slot(addr, k, mem.Length)]];
    }
    WordRange();
    w := FromBytes(bs);
  }

  method StoreWordAt(mem: array<Byte>, addr: int, w: Word)
    requires mem.Length > 0
    modifies mem
    ensures mem[..] == StoreWord(old(mem[..]), addr, w)
  {
    var bs := ToBytes(w, WORD_BYTES);
    for k := 0 to WORD_BYTES
      invariant mem[..] == StoreBytes(old(mem[..]), addr, bs[..k])
    {
      mem[Slot(addr, k, mem.Length)] := bs[k];
      assert bs[..k + 1][..k] == bs[..k];
    }
    assert bs[..WORD_BYTES] == bs;
  }
}
