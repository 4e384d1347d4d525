/** What loops of one load and one store leave in memory, word by word: element `i` of the store
    stream is computed from element `i` of the load stream as it was before the loop, and no other
    byte changes. */
module KernelMeaning {
  import opened ByteMemory
  import opened AliasRuntime
  import opened AffineLoop
  import opened VersionedLoop

  /** `x` lies in the word at `addr`. */
  predicate InWord(x: int, addr: int, size: nat)
    requires size > 0
  {
    x == addr % size || x == (addr + 1) % size || x == (addr + 2) % size || x == (addr + 3) % size
  }

  lemma WordSlots(x: int, addr: int, size: nat)
    requires size > 0
    ensures InWord(x, addr, size) <==> exists k :: 0 <= k < 4 && Slot(addr, k, size) == x
  {
    assert Slot(addr, 0, size) == addr % size && Slot(addr, 1, size) == (addr + 1) % size;
    assert Slot(addr, 2, size) == (addr + 2) % size && Slot(addr, 3, size) == (addr + 3) % size;
  }

  lemma WordInRange(x: int, addr: nat, size: nat)
    requires addr + 4 <= size
    ensures InWord(x, addr, size) <==> addr <= x < addr + 4
  {
    SmallRemainder(addr, size);
    SmallRemainder(addr + 1, size);
    SmallRemainder(addr + 2, size);
    SmallRemainder(addr + 3, size);
  }

  lemma SmallRemainder(x: nat, size: nat)
    requires x < size
    ensures x % size == x
  {
  }

  /** Element `i` of an access. */
  function Element(at: Access, i: int): int {
    at.base + 4 * (i * at.stride)
  }

  lemma ElementIsAddressed(at: Access, i: int)
    ensures Address(at, i) == Element(at, i)
  {
  }

  /** Only bytes of stored words change. */
  ghost predicate BytesKept(m: seq<Byte>, m': seq<Byte>, q: Op, n: int)
    requires |m| == |m'| > 0
  {
    forall x :: 0 <= x < |m| && (forall i :: 0 <= i < n ==> !InWord(x, Element(q.at, i), |m|)) ==> m'[x] == m[x]
  }

  /** The memory after `n` iterations, in terms of the memory before. */
  ghost predicate Mapped(m: seq<Byte>, m': seq<Byte>, p: Op, q: Op, n: int)
    requires |m| > 0 && q.Store?
  {
    && |m'| == |m|
    && (forall i :: 0 <= i < n ==> LoadWord(m', Element(q.at, i)) == q.value(i, [LoadWord(m, Element(p.at, i))]))
    && BytesKept(m, m', q, n)
  }

  lemma WordUnchanged(m: seq<Byte>, m': seq<Byte>, p: int)
    requires |m| == |m'| > 0 && forall k :: 0 <= k < 4 ==> m'[Slot(p, k, |m|)] == m[Slot(p, k, |m|)]
    ensures LoadWord(m', p) == LoadWord(m, p)
  {
    assert LoadBytes(m', p, WORD_BYTES) == LoadBytes(m, p, WORD_BYTES);
  }

  lemma LoadMissesStore(p: Op, q: Op, n: nat, i: nat, k: nat, size: nat)
    requires size > 0 && q.Store? && Settled(p, q, n + 1, size) && i < n && k < 4
    ensures !InWord(Slot(Element(p.at, n), k, size), Element(q.at, i), size)
  {
    assert Free(p, n, q, i, size);
    ElementIsAddressed(p.at, n);
    ElementIsAddressed(q.at, i);
    WordSlots(Slot(Element(p.at, n), k, size), Element(q.at, i), size);
  }

  /** A load that no earlier iteration stored to reads the memory before the loop. */
  lemma LoadedBefore(m: seq<Byte>, m': seq<Byte>, p: Op, q: Op, n: nat)
    requires |m| > 0 && p.Load? && q.Store? && Mapped(m, m', p, q, n) && Settled(p, q, n + 1, |m|)
    ensures LoadWord(m', Element(p.at, n)) == LoadWord(m, Element(p.at, n))
  {
    var addr := Element(p.at, n);
    forall k | 0 <= k < 4 ensures m'[Slot(addr, k, |m|)] == m[Slot(addr, k, |m|)] {
      forall i | 0 <= i < n ensures !InWord(Slot(addr, k, |m|), Element(q.at, i), |m|) {
        LoadMissesStore(p, q, n, i, k, |m|);
      }
    }
    WordUnchanged(m, m', addr);
  }

  lemma BytesKeptMore(m: seq<Byte>, before: seq<Byte>, q: Op, n: nat, w: Word)
    requires |m| == |before| > 0 && BytesKept(m, before, q, n)
    ensures BytesKept(m, StoreWord(before, Element(q.at, n), w), q, n + 1)
  {
    var addr := Element(q.at, n);
    forall x | 0 <= x < |m| && (forall i :: 0 <= i < n + 1 ==> !InWord(x, Element(q.at, i), |m|))
      ensures StoreWord(before, addr, w)[x] == m[x]
    {
      assert !InWord(x, addr, |m|);
      WordSlots(x, addr, |m|);
      ByteElsewhere(before, x, addr, ToBytes(w, WORD_BYTES));
    }
  }

  lemma ElementsApart(q: Op, n: nat, i: nat, size: nat)
    requires size > 0 && q.Store? && Settled(q, q, n + 1, size) && i < n
    ensures Apart(Element(q.at, i), Element(q.at, n), size)
  {
    assert Free(q, n, q, i, size);
    ElementIsAddressed(q.at, i);
    ElementIsAddressed(q.at, n);
  }

  lemma OneMore(m: seq<Byte>, before: seq<Byte>, p: Op, q: Op, n: nat, w: Word)
    requires |m| >= 4 && q.Store? && Mapped(m, before, p, q, n) && Settled(q, q, n + 1, |m|)
    requires w == q.value(n, [LoadWord(m, Element(p.at, n))])
    ensures Mapped(m, StoreWord(before, Element(q.at, n), w), p, q, n + 1)
  {
    var addr := Element(q.at, n);
    BytesKeptMore(m, before, q, n, w);
    LoadBack(before, addr, w);
    forall i | 0 <= i < n
      ensures LoadWord(StoreWord(before, addr, w), Element(q.at, i)) == LoadWord(before, Element(q.at, i))
    {
      ElementsApart(q, n, i, |m|);
      LoadElsewhere(before, Element(q.at, i), addr, w);
    }
  }

  lemma NextMapped(m: seq<Byte>, before: seq<Byte>, p: Op, q: Op, n: nat)
    requires |m| >= 4 && p.Load? && q.Store? && Settled(p, q, n + 1, |m|) && Settled(q, q, n + 1, |m|)
    requires Mapped(m, before, p, q, n)
    ensures Mapped(m, Finish(before, [p, q], n, []), p, q, n + 1)
  {
    LoadStoreIteration(before, p, q, n);
    LoadedBefore(m, before, p, q, n);
    ElementIsAddressed(p.at, n);
    ElementIsAddressed(q.at, n);
    OneMore(m, before, p, q, n, q.value(n, [LoadWord(m, Element(p.at, n))]));
  }

  /** A loop whose load never meets a word an earlier iteration stored, and whose stores share no
      byte, maps the load stream to the store stream. */
  lemma {:induction false} LoadStoreRun(m: seq<Byte>, p: Op, q: Op, n: nat)
    requires |m| >= 4 && p.Load? && q.Store? && Settled(p, q, n, |m|) && Settled(q, q, n, |m|)
    ensures Mapped(m, ScalarRun(m, [p, q], n), p, q, n)
  {
    if n > 0 {
      LoadStoreRun(m, p, q, n - 1);
      NextMapped(m, ScalarRun(m, [p, q], n - 1), p, q, n - 1);
    }
  }

  /** A store sees the words of its iteration in the order of the loads. */
  lemma LoadsInOrder(m: seq<Byte>, p: Op, r: Op, q: Op, i: int)
    requires |m| > 0 && p.Load? && r.Load? && q.Store?
    ensures Finish(m, [p, r, q], i, []) ==
              StoreWord(m, Element(q.at, i),
                        q.value(i, [LoadWord(m, Element(p.at, i)), LoadWord(m, Element(r.at, i))]))
  {
    ElementIsAddressed(p.at, i);
    ElementIsAddressed(q.at, i);
    ElementIsAddressed(r.at, i);
    var first, second := LoadWord(m, Element(p.at, i)), LoadWord(m, Element(r.at, i));
    assert [p, r, q][1..] == [r, q] && [r, q][1..] == [q] && [q][1..] == [];
    assert [] + [first] == [first] && [first] + [second] == [first, second];
    assert Finish(m, [p, r, q], i, []) == Finish(m, [r, q], i, [first]);
    assert Finish(m, [r, q], i, [first]) == Finish(m, [q], i, [first, second]);
  }

  // ---------------------------------------------------------------- the kernel b[i] = a[i] + 7

  /** The arrays lie inside the memory, and the first store is not ahead of the loads still to come. */
  predicate Placed(a: nat, b: nat, n: int, size: nat) {
    && a + 4 * n <= size && b + 4 * n <= size && (b <= a || a + 4 * n <= b)
  }

  /** What the kernel is for. */
  ghost predicate SevenAdded(m: seq<Byte>, m': seq<Byte>, a: nat, b: nat, n: int)
    requires |m| > 0
  {
    && |m'| == |m|
    && (forall i :: 0 <= i < n ==> LoadWord(m', b + 4 * i) == (LoadWord(m, a + 4 * i) + 7) % 0x1_0000_0000)
    && forall x :: 0 <= x < |m| && !(b <= x < b + 4 * n) ==> m'[x] == m[x]
  }

  lemma PlacedIsSettled(a: nat, b: nat, n: int, size: nat)
    requires 0 < size && Placed(a, b, n, size)
    ensures var body := AddSevenBody(a, b);
            Settled(body[0], body[1], n, size) && Settled(body[1], body[1], n, size)
  {
  }

  lemma SevenMapped(m: seq<Byte>, m': seq<Byte>, p: Op, q: Op, a: nat, b: nat, n: int, i: nat)
    requires |m| >= 4 && q.Store? && p.at == Access(a, 1) && q.at == Access(b, 1) && Mapped(m, m', p, q, n)
    requires i < n && q.value(i, [LoadWord(m, a + 4 * i)]) == AddSeven(LoadWord(m, a + 4 * i))
    ensures LoadWord(m', b + 4 * i) == (LoadWord(m, a + 4 * i) + 7) % 0x1_0000_0000
  {
    assert Element(p.at, i) == a + 4 * i && Element(q.at, i) == b + 4 * i;
  }

  lemma OutsideKept(m: seq<Byte>, m': seq<Byte>, q: Op, b: nat, n: int, x: nat)
    requires |m| == |m'| > x && q.at == Access(b, 1) && BytesKept(m, m', q, n)
    requires b + 4 * n <= |m| && !(b <= x < b + 4 * n)
    ensures m'[x] == m[x]
  {
    forall i | 0 <= i < n ensures !InWord(x, Element(q.at, i), |m|) {
      assert Element(q.at, i) == b + 4 * i;
      WordInRange(x, b + 4 * i, |m|);
    }
  }

  lemma AddSevenRun(m: seq<Byte>, a: nat, b: nat, n: int)
    requires |m| >= 4 && Placed(a, b, n, |m|)
    ensures SevenAdded(m, ScalarRun(m, AddSevenBody(a, b), n), a, b, n)
  {
    if n > 0 {
      var body := AddSevenBody(a, b);
      PlacedIsSettled(a, b, n, |m|);
      LoadStoreRun(m, body[0], body[1], n);
      assert body == [body[0], body[1]];
      var m' := ScalarRun(m, body, n);
      forall i | 0 <= i < n ensures LoadWord(m', b + 4 * i) == (LoadWord(m, a + 4 * i) + 7) % 0x1_0000_0000 {
        AddSevenValue(a, b, i, LoadWord(m, a + 4 * i));
        SevenMapped(m, m', body[0], body[1], a, b, n, i);
      }
      forall x | 0 <= x < |m| && !(b <= x < b + 4 * n) ensures m'[x] == m[x] {
        OutsideKept(m, m', body[1], b, n, x);
      }
    }
  }

  /** The versioned kernel adds seven to every element and touches nothing else, whichever loop ran. */
  method AddSevenKernel(mem: array<Byte>, a: nat, b: nat, n: Int32, vlmax: nat) returns (iv: int)
    requires INT32_MAX <= mem.Length && vlmax > 0 && a < mem.Length && b < mem.Length && Placed(a, b, n, mem.Length)
    modifies mem
    ensures SevenAdded(old(mem[..]), mem[..], a, b, n)
    ensures iv == if n > 0 then n else 0
  {
    AddSevenRun(mem[..], a, b, n);
    iv := VersionedKernel(mem, AddSevenBody(a, b), [(0, 1)], n, vlmax);
  }
}
