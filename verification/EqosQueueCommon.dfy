/** Descriptor ring sizes and index arithmetic shared by the EQOS transmit and
    receive queues (queue_common.cpp, queue_common.h). */
module EqosQueueCommon {
  import opened Arith

  const QueueDescriptorSize := 64
  const QueueDescriptorMinCount := 64      // one page of descriptors
  const QueueDescriptorMaxCount := 0x400
  const QueueDescriptorLengthMax := 0x3FFF // 14 bits
  const QueueDescriptorAlignment := QueueDescriptorMaxCount * QueueDescriptorSize

  // _BitScanReverse: the index of the highest set bit.
  function HighestBit(x: nat): (b: nat)
    requires x >= 1
    ensures Pow2(b) <= x < 2 * Pow2(b)
  {
    if x == 1 then 0 else 1 + HighestBit(x / 2)
  }

  function Clamped(fragmentCount: nat): nat {
    if fragmentCount < QueueDescriptorMinCount then QueueDescriptorMinCount
    else if fragmentCount > QueueDescriptorMaxCount then QueueDescriptorMaxCount
    else fragmentCount
  }

  function QueueDescriptorCount(fragmentCount: nat): nat {
    2 * Pow2(HighestBit(Clamped(fragmentCount) - 1))
  }

  lemma {:induction false} Pow2Monotone(m: nat, n: nat)
    requires m <= n
    ensures Pow2(m) <= Pow2(n)
    decreases n
  {
    if m < n { Pow2Monotone(m, n - 1); }
  }

  /** The descriptor count is the least power of two that is at least the
      clamped fragment count, and it is within the hardware's limits. */
  lemma DescriptorCountIsLeast(fragmentCount: nat, k: nat)
    ensures var c := QueueDescriptorCount(fragmentCount);
      && c >= Clamped(fragmentCount)
      && (Pow2(k) >= Clamped(fragmentCount) ==> Pow2(k) >= c)
      && c in {64, 128, 256, 512, 1024}
  {
    var n := Clamped(fragmentCount);
    var b := HighestBit(n - 1);
    if Pow2(k) >= n {
      if k <= b { Pow2Monotone(k, b); }
      if k > b { Pow2Monotone(b + 1, k); }
    }
    assert Pow2(5) == 32 && Pow2(9) == 512 by {
      assert Pow2(3) == 8;
      assert Pow2(6) == 64;
    }
    if b < 5 { Pow2Monotone(b + 1, 5); }
    if b > 9 { Pow2Monotone(10, b); }
    assert 5 <= b <= 9;
    assert Pow2(6) == 64 && Pow2(7) == 128 && Pow2(8) == 256;
  }

  // For every ring size in use, masking with size - 1 is the remainder: the
  // drivers' (i + 1) & descMask is written (i + 1) % descCount below.
  lemma MaskIsRemainder(x: bv32)
    ensures x & 63 == x % 64 && x & 127 == x % 128 && x & 255 == x % 256
    ensures x & 511 == x % 512 && x & 1023 == x % 1024
  {}

  // address & (QueueDescriptorAlignment - 1), over the descriptor size.
  function QueueDescriptorAddressToIndex(address: nat): nat {
    address % QueueDescriptorAlignment / QueueDescriptorSize
  }

  /** For a ring aligned as it is allocated, the index of the address the driver
      writes to a tail pointer is the index it started from. */
  lemma AddressToIndexInverts(base: nat, index: nat)
    requires base % QueueDescriptorAlignment == 0 && index < QueueDescriptorMaxCount
    ensures QueueDescriptorAddressToIndex(base + index * QueueDescriptorSize) == index
  {
    DivModUnique(base + index * QueueDescriptorSize, QueueDescriptorAlignment, base / QueueDescriptorAlignment,
                 index * QueueDescriptorSize);
  }

  // --------------------------------------------------------- ring arithmetic

  /** The slot of position i in a ring of n: i & (n - 1). */
  function Wrap(i: nat, n: nat): (s: nat)
    requires n > 0
    ensures s < n
  {
    i % n
  }

  /** Two positions less than a whole ring apart share a slot only if they are
      the same position. */
  lemma SlotsDistinct(i: nat, j: nat, n: nat)
    requires n > 0 && i <= j < i + n
    ensures Wrap(i, n) == Wrap(j, n) <==> i == j
  {
    if i % n == j % n {
      var p, q, r := i / n, j / n, i % n;
      assert i == p * n + r && j == q * n + r;
      MulSum(q, -p, n);
      assert j - i == (q - p) * n;
      if q > p { MulAtLeast(q - p, n); }
      if q < p { MulAtLeast(p - q, n); }
    }
  }

  lemma SlotAfter(i: nat, k: nat, n: nat)
    requires n > 0
    ensures Wrap(Wrap(i, n) + k, n) == Wrap(i + k, n)
  {
    var q, r := (i % n + k) / n, (i % n + k) % n;
    MulSum(i / n, q, n);
    DivModUnique(i + k, n, i / n + q, r);
  }

  lemma WrapSmall(i: nat, n: nat)
    requires i < n
    ensures Wrap(i, n) == i
  {
    DivModUnique(i, n, 0, i);
  }

  // How far one index is behind another.
  function Distance(from: nat, to: nat, n: nat): (d: nat)
    requires n > 0
  {
    (to - from) % n
  }

  lemma DistanceIs(head: nat, end: nat, n: nat)
    requires n > 0 && head <= end < head + n
    ensures Distance(Wrap(head, n), Wrap(end, n), n) == end - head
  {
    MulSum(end / n, -(head / n), n);
    DivModUnique(end % n - head % n, n, head / n - end / n, end - head);
  }

  // EMPTY_DESC_REMAINING: (descBegin - 1 - descIndex) & descMask.
  function EmptyRemaining(descBegin: nat, descIndex: nat, n: nat): int
    requires n > 0
  {
    (descBegin - 1 - descIndex) % n
  }

  /** The masked difference of the indexes is the number of free slots short of
      the hole. */
  lemma EmptyRemainingIs(head: nat, end: nat, n: nat)
    requires n > 0 && head <= end < head + n
    ensures EmptyRemaining(Wrap(head, n), Wrap(end, n), n) == n - 1 - (end - head)
  {
    var a, b := head / n, end / n;
    var x := head % n - 1 - end % n;
    MulSum(b, -a, n);
    MulSum(b - a, -1, n);
    assert x == (b - a - 1) * n + (n - 1 - (end - head));
    DivModUnique(x, n, b - a - 1, n - 1 - (end - head));
  }
}
