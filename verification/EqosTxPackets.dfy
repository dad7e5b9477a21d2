/** What the transmit queue writes for a packet: the descriptor run of
    TxQueueAdvance (txqueue.cpp, lines 206-429) as a function of the packet and
    of the sticky context, and what a device that executes such runs sends. */
module EqosTxPackets {
  import opened Arith
  import opened EqosQueueCommon

  const TxMaximumNumberOfFragments := QueueDescriptorMinCount - 3
  const TxLayer4HeaderOffsetLimit := 0x3FF
  const TxMaximumOffloadSize := 0x3FFFF

  const ADDRESS_SPACE := 0x1_0000_0000_0000_0000

  type vlanId = x: int | 0 <= x < 0x1000
  type priority = x: int | 0 <= x < 8

  // NET_FRAGMENT: logical address and ValidLength.
  datatype Fragment = Fragment(addr: nat, len: nat)

  datatype Checksum = Disabled | HeaderOnly | IncludingPseudo

  // NET_PACKET and its extensions, as the queue reads them.
  datatype Packet = Packet(
    ignore: bool,
    fragIndex: nat,
    fragCount: nat,
    priorityRequired: bool, priorityCode: priority,
    vlanRequired: bool, vlan: vlanId,
    mss: nat,
    l2: nat, l3: nat, l4: nat,             // header lengths
    checksumL3: bool, checksumL4: bool)

  // A packet together with the fragments its indexes denote.
  datatype Job = Job(pkt: Packet, frags: seq<Fragment>)

  // Descriptor formats; the Own bit is kept beside them.
  datatype TxDesc =
    | Context(mss: nat, vlanTag: nat, vlanTagValid: bool, mssValid: bool)
    | Tso(lo: nat, hi: nat, len: nat, insertTag: bool, payloadLength: nat, headerWords: nat)
    | Data(lo: nat, hi: nat, len: nat, insertTag: bool, ioc: bool, frameLength: nat,
           checksum: Checksum, first: bool, last: bool)

  // The most recent values put in a context descriptor.
  datatype Sticky = Sticky(lastMss: nat, lastVlanTag: nat)

  const UNKNOWN_MSS := 0xFFFF
  const StartSticky := Sticky(UNKNOWN_MSS, 0)

  predicate IsFirst(d: TxDesc) { d.Tso? || (d.Data? && d.first) }

  // LastDescriptor in a descriptor that is not a context descriptor.
  predicate IsLast(d: TxDesc) { d.Data? && d.last }

  // --------------------------------------------------------------- functions

  function VlanTag(p: Packet, configured: vlanId): nat {
    (if p.priorityRequired then p.priorityCode * 0x2000 else 0)
    + (if p.vlanRequired then p.vlan else configured)
  }

  // The packet is to carry a tag at all.
  predicate TagWanted(p: Packet, configured: vlanId) {
    || (p.priorityRequired && p.priorityCode != 0)
    || (if p.vlanRequired then p.vlan != 0 else configured != 0)
  }

  // IEEE 802.1Q: the priority in the upper three bits, bit 12 clear, the VLAN in
  // the lower twelve.
  lemma TagReads(p: Packet, configured: vlanId)
    ensures var tag := VlanTag(p, configured);
      && tag < 0x1_0000
      && tag % 0x1000 == (if p.vlanRequired then p.vlan else configured)
      && tag / 0x1000 % 2 == 0
      && tag / 0x2000 == (if p.priorityRequired then p.priorityCode else 0)
      && (tag != 0 <==> TagWanted(p, configured))
  {
    var priority := if p.priorityRequired then p.priorityCode else 0;
    var vlan := if p.vlanRequired then p.vlan else configured;
    DivModUnique(VlanTag(p, configured), 0x1000, 2 * priority, vlan);
    DivModUnique(VlanTag(p, configured), 0x2000, priority, vlan);
  }

  predicate TagNeeded(tag: nat, st: Sticky) {
    tag != 0 && tag != st.lastVlanTag
  }

  function HeaderLength(p: Packet): nat { p.l2 + p.l3 + p.l4 }

  function TotalLength(frags: seq<Fragment>): nat {
    if frags == [] then 0 else TotalLength(frags[..|frags| - 1]) + frags[|frags| - 1].len
  }

  function DescriptorsFor(len: nat): nat {
    (len + QueueDescriptorLengthMax - 1) / QueueDescriptorLengthMax
  }

  function UserDescriptors(frags: seq<Fragment>): nat {
    if frags == [] then 0 else UserDescriptors(frags[..|frags| - 1]) + DescriptorsFor(frags[|frags| - 1].len)
  }

  // What the framework promises about a packet: the number of fragments the
  // driver announced, and what the queue asserts, but for the number of
  // descriptors, which nothing the driver announces bounds.
  predicate FragmentsOk(frags: seq<Fragment>) {
    && 1 <= |frags| <= TxMaximumNumberOfFragments
    && forall f | f in frags :: f.addr + f.len <= ADDRESS_SPACE
  }

  predicate GsoOk(j: Job) {
    && FragmentsOk(j.frags)
    && 1 <= j.pkt.mss <= 0x3FFF
    && HeaderLength(j.pkt) <= TxLayer4HeaderOffsetLimit
    && HeaderLength(j.pkt) <= j.frags[0].len
    && (forall f | f in j.frags :: f.len != 0)
    && TotalLength(j.frags) <= TxMaximumOffloadSize + HeaderLength(j.pkt)
  }

  predicate PlainOk(j: Job) {
    && FragmentsOk(j.frags)
    && (forall f | f in j.frags :: f.len <= QueueDescriptorLengthMax)
    && TotalLength(j.frags) <= 0x7FFF
  }

  predicate JobOk(j: Job) {
    |j.frags| == j.pkt.fragCount && (j.pkt.ignore || if j.pkt.mss != 0 then GsoOk(j) else PlainOk(j))
  }

  // A segmentation packet has something to segment.
  predicate HasPayload(j: Job) {
    j.pkt.ignore || j.pkt.mss == 0 || HeaderLength(j.pkt) < TotalLength(j.frags)
  }

  function Low(a: nat): nat { a % 0x1_0000_0000 }
  function High(a: nat): nat { a / 0x1_0000_0000 }

  // The descriptors of one fragment from position pos on.
  function Chunks(f: Fragment, pos: nat, lastFragment: bool, insertTag: bool): seq<TxDesc>
    requires pos <= f.len
    decreases f.len - pos
  {
    if pos == f.len then [] else
    var n := if f.len - pos < QueueDescriptorLengthMax then f.len - pos else QueueDescriptorLengthMax;
    var last := pos + n == f.len && lastFragment;
    [Data(Low(f.addr + pos), High(f.addr + pos), n, insertTag, last, 0, Disabled, false, last)]
    + Chunks(f, pos + n, lastFragment, insertTag)
  }

  // The payload descriptors: the first `skip` bytes of the first fragment are
  // the headers.
  function GsoData(frags: seq<Fragment>, skip: nat, insertTag: bool): seq<TxDesc>
    requires frags != [] ==> skip <= frags[0].len
  {
    if frags == [] then []
    else Chunks(frags[0], skip, |frags| == 1, insertTag) + GsoData(frags[1..], 0, insertTag)
  }

  function TsoHeader(j: Job, insertTag: bool): TxDesc
    requires |j.frags| >= 1
  {
    Tso(Low(j.frags[0].addr), High(j.frags[0].addr), HeaderLength(j.pkt), insertTag,
        if TotalLength(j.frags) < HeaderLength(j.pkt) then 0 else TotalLength(j.frags) - HeaderLength(j.pkt),
        j.pkt.l4 / 4)
  }

  function ChecksumOf(p: Packet): Checksum {
    if p.checksumL4 then IncludingPseudo else if p.checksumL3 then HeaderOnly else Disabled
  }

  function PlainDesc(j: Job, i: nat, insertTag: bool): TxDesc
    requires i < |j.frags|
  {
    var f := j.frags[i];
    Data(Low(f.addr), High(f.addr), f.len, insertTag, i == |j.frags| - 1, TotalLength(j.frags),
         ChecksumOf(j.pkt), i == 0, i == |j.frags| - 1)
  }

  function PlainData(j: Job, insertTag: bool): (s: seq<TxDesc>)
    ensures |s| == |j.frags|
  {
    seq(|j.frags|, i requires 0 <= i < |j.frags| => PlainDesc(j, i, insertTag))
  }

  // The context descriptor in front of a packet, if it needs one.
  function ContextFor(j: Job, configured: vlanId, st: Sticky): seq<TxDesc> {
    var tag := VlanTag(j.pkt, configured);
    if j.pkt.mss != 0 then
      if TagNeeded(tag, st) || j.pkt.mss != st.lastMss
      then [Context(j.pkt.mss, tag, TagNeeded(tag, st), true)] else []
    else
      if TagNeeded(tag, st) then [Context(0, tag, true, false)] else []
  }

  function StickyAfter(j: Job, configured: vlanId, st: Sticky): Sticky {
    if j.pkt.ignore || ContextFor(j, configured, st) == [] then st else
    var tag := VlanTag(j.pkt, configured);
    Sticky(if j.pkt.mss != 0 then j.pkt.mss else st.lastMss,
           if TagNeeded(tag, st) then tag else st.lastVlanTag)
  }

  /** The descriptor run of a packet. */
  function RunOf(j: Job, configured: vlanId, st: Sticky): seq<TxDesc>
    requires JobOk(j)
  {
    var insert := VlanTag(j.pkt, configured) != 0;
    if j.pkt.ignore then []
    else if j.pkt.mss != 0 then
      ContextFor(j, configured, st) + [TsoHeader(j, insert)] + GsoData(j.frags, HeaderLength(j.pkt), insert)
    else
      ContextFor(j, configured, st) + PlainData(j, insert)
  }

  // How many free descriptors the queue asks for before it starts the packet.
  function Need(j: Job, configured: vlanId, st: Sticky): nat {
    |ContextFor(j, configured, st)|
    + if j.pkt.mss != 0 then UserDescriptors(j.frags) + 1 else |j.frags|
  }

  // --------------------------------------------------------- sums over prefixes

  lemma FrontSplit<T>(s: seq<T>, i: nat)
    requires i < |s|
    ensures s[..|s| - 1][..i] == s[..i]
    ensures s[i..][..|s| - i - 1] == s[..|s| - 1][i..]
  {}

  lemma {:induction false} TotalLengthSplit(frags: seq<Fragment>, i: nat)
    requires i <= |frags|
    ensures TotalLength(frags) == TotalLength(frags[..i]) + TotalLength(frags[i..])
    decreases |frags| - i
  {
    if i == |frags| {
      assert frags[..i] == frags;
    } else {
      var front := frags[..|frags| - 1];
      FrontSplit(frags, i);
      TotalLengthSplit(front, i);
    }
  }

  lemma {:induction false} UserDescriptorsSplit(frags: seq<Fragment>, i: nat)
    requires i <= |frags|
    ensures UserDescriptors(frags) == UserDescriptors(frags[..i]) + UserDescriptors(frags[i..])
    decreases |frags| - i
  {
    if i == |frags| {
      assert frags[..i] == frags;
    } else {
      var front := frags[..|frags| - 1];
      FrontSplit(frags, i);
      UserDescriptorsSplit(front, i);
    }
  }

  // ---------------------------------------------------- the bytes of a packet

  // The bytes (by address) the fragments hold, in order.
  function FragmentBytes(frags: seq<Fragment>): seq<nat> {
    if frags == [] then [] else Range(frags[0].addr, frags[0].len) + FragmentBytes(frags[1..])
  }

  // The bytes a device fetches for a run, in order.
  function FetchedBytes(run: seq<TxDesc>): seq<nat> {
    if run == [] then []
    else BufferOf(run[0]) + FetchedBytes(run[1..])
  }

  function BufferOf(d: TxDesc): seq<nat> {
    if d.Context? then [] else Range(d.lo + 0x1_0000_0000 * d.hi, d.len)
  }

  lemma {:induction false} FetchedJoin(a: seq<TxDesc>, b: seq<TxDesc>)
    ensures FetchedBytes(a + b) == FetchedBytes(a) + FetchedBytes(b)
    decreases |a|
  {
    if a == [] {
      assert a + b == b;
    } else {
      hide BufferOf;
      FetchedJoin(a[1..], b);
      assert (a + b)[1..] == a[1..] + b;
      var x, y, z := BufferOf(a[0]), FetchedBytes(a[1..]), FetchedBytes(b);
      assert x + (y + z) == (x + y) + z;
    }
  }

  lemma FetchedOne(d: TxDesc)
    ensures FetchedBytes([d]) == BufferOf(d)
  {
    hide BufferOf;
    assert FetchedBytes([d][1..]) == [];
    assert BufferOf(d) + [] == BufferOf(d);
  }

  lemma {:induction false} ChunksBytes(f: Fragment, pos: nat, lastFragment: bool, insertTag: bool)
    requires pos <= f.len && f.addr + f.len <= ADDRESS_SPACE
    ensures FetchedBytes(Chunks(f, pos, lastFragment, insertTag)) == Range(f.addr + pos, f.len - pos)
    decreases f.len - pos
  {
    var c := Chunks(f, pos, lastFragment, insertTag);
    if pos < f.len {
      var n := c[0].len;
      ChunksBytes(f, pos + n, lastFragment, insertTag);
      assert c[1..] == Chunks(f, pos + n, lastFragment, insertTag);
      RangeJoin(f.addr + pos, n, f.len - pos - n);
    }
  }

  lemma {:induction false} GsoDataBytes(frags: seq<Fragment>, skip: nat, insertTag: bool)
    requires frags != [] ==> skip <= frags[0].len
    requires forall f | f in frags :: f.addr + f.len <= ADDRESS_SPACE
    ensures frags != [] ==> Range(frags[0].addr, skip) + FetchedBytes(GsoData(frags, skip, insertTag)) == FragmentBytes(frags)
    ensures frags == [] ==> GsoData(frags, skip, insertTag) == [] && FragmentBytes(frags) == []
    decreases |frags|
  {
    hide Range, FetchedBytes, FragmentBytes, GsoData;
    if frags == [] {
      NoFragments(skip, insertTag);
    } else {
      GsoDataBytes(frags[1..], 0, insertTag);
      FetchedNothing();
      if |frags| > 1 {
        RangeNothing(frags[1].addr, FetchedBytes(GsoData(frags[1..], 0, insertTag)));
        assert frags[1..][0] == frags[1];
      }
      GsoDataStep(frags, skip, insertTag);
    }
  }

  lemma GsoDataStep(frags: seq<Fragment>, skip: nat, insertTag: bool)
    requires frags != [] && skip <= frags[0].len
    requires frags[0].addr + frags[0].len <= ADDRESS_SPACE
    requires FetchedBytes(GsoData(frags[1..], 0, insertTag)) == FragmentBytes(frags[1..])
    ensures Range(frags[0].addr, skip) + FetchedBytes(GsoData(frags, skip, insertTag)) == FragmentBytes(frags)
  {
    hide Range, Chunks, FetchedBytes;
    var c := Chunks(frags[0], skip, |frags| == 1, insertTag);
    var rest := GsoData(frags[1..], 0, insertTag);
    ChunksBytes(frags[0], skip, |frags| == 1, insertTag);
    FetchedJoin(c, rest);
    RangeJoin(frags[0].addr, skip, frags[0].len - skip);
    AppendAppend(Range(frags[0].addr, skip), FetchedBytes(c), FetchedBytes(rest));
  }

  lemma AppendAppend<T>(a: seq<T>, b: seq<T>, c: seq<T>)
    ensures a + (b + c) == (a + b) + c
  {}

  lemma RangeNothing(a: nat, s: seq<nat>)
    ensures Range(a, 0) + s == s
  {}

  lemma NoFragments(skip: nat, insertTag: bool)
    ensures GsoData([], skip, insertTag) == [] && FragmentBytes([]) == []
  {}

  lemma FetchedNothing()
    ensures FetchedBytes([]) == []
  {}

  lemma {:induction false} PlainBytesFrom(j: Job, insertTag: bool, i: nat)
    requires i <= |j.frags| && forall f | f in j.frags :: f.addr + f.len <= ADDRESS_SPACE
    ensures FetchedBytes(PlainData(j, insertTag)[i..]) == FragmentBytes(j.frags[i..])
    decreases |j.frags| - i
  {
    if i < |j.frags| {
      hide Range, TotalLength;
      PlainBytesFrom(j, insertTag, i + 1);
      var r := PlainData(j, insertTag)[i..];
      assert r[0] == PlainDesc(j, i, insertTag);
      assert r[1..] == PlainData(j, insertTag)[i + 1..];
      assert j.frags[i..][1..] == j.frags[i + 1..];
      PlainBuffer(j, i, insertTag);
    }
  }

  lemma PlainBuffer(j: Job, i: nat, insertTag: bool)
    requires i < |j.frags|
    ensures BufferOf(PlainDesc(j, i, insertTag)) == Range(j.frags[i].addr, j.frags[i].len)
  {
    hide Range;
    LowHigh(j.frags[i].addr);
  }

  lemma LowHigh(a: nat)
    ensures Low(a) + 0x1_0000_0000 * High(a) == a
  {}

  /** The device fetches exactly the bytes of the packet's fragments, in order. */
  lemma RunBytes(j: Job, configured: vlanId, st: Sticky)
    requires JobOk(j) && !j.pkt.ignore
    ensures FetchedBytes(RunOf(j, configured, st)) == FragmentBytes(j.frags)
  {
    var insert := VlanTag(j.pkt, configured) != 0;
    var ctx := ContextFor(j, configured, st);
    ContextFetchesNothing(j, configured, st);
    hide FetchedBytes, ContextFor, FragmentBytes, Range, TotalLength, UserDescriptors, GsoData, TsoHeader, PlainData, VlanTag;
    if j.pkt.mss != 0 {
      GsoBytes(j, insert, ctx);
    } else {
      FetchedJoin(ctx, PlainData(j, insert));
      PlainBytesFrom(j, insert, 0);
      assert PlainData(j, insert)[0..] == PlainData(j, insert) && j.frags[0..] == j.frags;
      assert [] + FragmentBytes(j.frags) == FragmentBytes(j.frags);
    }
  }

  lemma GsoBytes(j: Job, insert: bool, ctx: seq<TxDesc>)
    requires GsoOk(j) && FetchedBytes(ctx) == []
    ensures FetchedBytes(ctx + [TsoHeader(j, insert)] + GsoData(j.frags, HeaderLength(j.pkt), insert)) == FragmentBytes(j.frags)
  {
    hide FetchedBytes, FragmentBytes, Range, TotalLength, UserDescriptors, GsoData;
    var header := TsoHeader(j, insert);
    var data := GsoData(j.frags, HeaderLength(j.pkt), insert);
    FetchedJoin(ctx + [header], data);
    FetchedJoin(ctx, [header]);
    FetchedOne(header);
    LowHigh(j.frags[0].addr);
    assert BufferOf(header) == Range(j.frags[0].addr, HeaderLength(j.pkt));
    GsoDataBytes(j.frags, HeaderLength(j.pkt), insert);
    assert [] + BufferOf(header) == BufferOf(header);
  }

  lemma ContextFetchesNothing(j: Job, configured: vlanId, st: Sticky)
    ensures FetchedBytes(ContextFor(j, configured, st)) == []
  {
    var ctx := ContextFor(j, configured, st);
    if ctx != [] { FetchedOne(ctx[0]); assert ctx == [ctx[0]]; }
  }

  // -------------------------------------------------------- shape and size

  lemma DescriptorsForMonotone(a: nat, b: nat)
    requires a <= b
    ensures DescriptorsFor(a) <= DescriptorsFor(b)
  {}

  lemma {:induction false} ChunksShape(f: Fragment, pos: nat, lastFragment: bool, insertTag: bool)
    requires pos <= f.len
    ensures var c := Chunks(f, pos, lastFragment, insertTag);
      && |c| == DescriptorsFor(f.len - pos)
      && (forall i | 0 <= i < |c| ::
            c[i].Data? && !IsFirst(c[i]) && 1 <= c[i].len <= QueueDescriptorLengthMax && c[i].insertTag == insertTag
            && (IsLast(c[i]) <==> lastFragment && i == |c| - 1) && c[i].ioc == IsLast(c[i]))
    decreases f.len - pos
  {
    if pos < f.len {
      var n := Chunks(f, pos, lastFragment, insertTag)[0].len;
      ChunksShape(f, pos + n, lastFragment, insertTag);
      assert DescriptorsFor(f.len - pos) == 1 + DescriptorsFor(f.len - pos - n);
    }
  }

  // The payload ends in the one descriptor marked last, if there is a payload.
  lemma {:induction false} GsoDataShape(frags: seq<Fragment>, skip: nat, insertTag: bool)
    requires frags != [] ==> skip <= frags[0].len
    requires forall f | f in frags :: f.len != 0
    ensures var g := GsoData(frags, skip, insertTag);
      && |g| <= UserDescriptors(frags)
      && (g != [] <==> skip < TotalLength(frags))
      && (forall i | 0 <= i < |g| ::
            g[i].Data? && !IsFirst(g[i]) && 1 <= g[i].len <= QueueDescriptorLengthMax && g[i].insertTag == insertTag
            && (IsLast(g[i]) <==> i == |g| - 1) && g[i].ioc == IsLast(g[i]))
    decreases |frags|
  {
    if frags != [] {
      var c := Chunks(frags[0], skip, |frags| == 1, insertTag);
      var rest := GsoData(frags[1..], 0, insertTag);
      ChunksShape(frags[0], skip, |frags| == 1, insertTag);
      GsoDataShape(frags[1..], 0, insertTag);
      DescriptorsForMonotone(frags[0].len - skip, frags[0].len);
      UserDescriptorsSplit(frags, 1);
      TotalLengthSplit(frags, 1);
      OneFragment(frags[0]);
      assert frags[..1] == [frags[0]];
      if |frags| > 1 {
        TotalLengthSplit(frags[1..], 1);
        assert frags[1..][..1] == [frags[1]];
        OneFragment(frags[1]);
        assert frags[1] in frags;
      }
    }
  }

  lemma OneFragment(f: Fragment)
    ensures TotalLength([f]) == f.len && UserDescriptors([f]) == DescriptorsFor(f.len)
  {
    assert [f][..0] == [];
  }

  function Prefix(j: Job, configured: vlanId, st: Sticky): nat { |ContextFor(j, configured, st)| }

  /** A run is never longer than what was reserved for it. */
  lemma RunFitsReservation(j: Job, configured: vlanId, st: Sticky)
    requires JobOk(j) && !j.pkt.ignore
    ensures |RunOf(j, configured, st)| <= Need(j, configured, st)
  {
    var insert := VlanTag(j.pkt, configured) != 0;
    if j.pkt.mss != 0 {
      GsoDataShape(j.frags, HeaderLength(j.pkt), insert);
    }
  }

  // -------------------------------------------------------- room for a packet

  // The packet is started on an empty ring of n descriptors, one of them the hole.
  predicate FitsEmptyRing(j: Job, configured: vlanId, st: Sticky, n: nat) {
    Need(j, configured, st) <= n - 1
  }

  lemma {:induction false} DescriptorsBound(frags: seq<Fragment>)
    ensures UserDescriptors(frags) * QueueDescriptorLengthMax
         <= TotalLength(frags) + |frags| * (QueueDescriptorLengthMax - 1)
    decreases |frags|
  {
    if frags != [] {
      DescriptorsBound(frags[..|frags| - 1]);
    }
  }

  lemma {:induction false} ShortFragments(frags: seq<Fragment>)
    requires forall f | f in frags :: 1 <= f.len <= QueueDescriptorLengthMax
    ensures UserDescriptors(frags) == |frags|
    decreases |frags|
  {
    if frags != [] {
      var front, f := frags[..|frags| - 1], frags[|frags| - 1];
      assert f in frags && forall x | x in front :: x in frags;
      ShortFragments(front);
      assert DescriptorsFor(f.len) == 1;
    }
  }

  /** A segmentation packet fits an empty ring whatever context the device is in
      if and only if its fragments, each cut at 0x3FFF bytes, make at most three
      pieces less than the ring has descriptors. */
  lemma FitsEmptyRingIff(j: Job, n: nat)
    requires JobOk(j) && !j.pkt.ignore && j.pkt.mss != 0
    ensures (forall configured, st :: FitsEmptyRing(j, configured, st, n)) <==> UserDescriptors(j.frags) <= n - 3
  {
    if UserDescriptors(j.frags) > n - 3 {
      assert j.pkt.mss != StartSticky.lastMss;
      assert !FitsEmptyRing(j, 0, StartSticky, n);
    }
  }

  /** What the sender can tell beforehand: every packet fits an empty ring of 128
      descriptors or more, and one of 64 if it is not segmented or none of its
      fragments is longer than 0x3FFF bytes. */
  lemma FitsByLengths(j: Job, configured: vlanId, st: Sticky, n: nat)
    requires JobOk(j) && !j.pkt.ignore
    requires n >= 2 * QueueDescriptorMinCount
          || (n >= QueueDescriptorMinCount
              && (j.pkt.mss == 0 || forall f | f in j.frags :: f.len <= QueueDescriptorLengthMax))
    ensures FitsEmptyRing(j, configured, st, n)
  {
    hide UserDescriptors, TotalLength, VlanTag;
    if j.pkt.mss != 0 {
      DescriptorsBound(j.frags);
      if n < 2 * QueueDescriptorMinCount { ShortFragments(j.frags); }
    }
  }

  // A packet of 54 header bytes and 0x4000 more in its first fragment, and one
  // byte in each of n - 1 others.
  function LongPacket(n: nat): (j: Job)
    requires n >= 1
  {
    Job(Packet(false, 0, n, false, 0, false, 0, 1460, 14, 20, 20, false, false),
        seq(n, i requires 0 <= i < n => if i == 0 then Fragment(0, 0x4000 + 54) else Fragment(0x1_0000 + i, 1)))
  }

  lemma {:induction false} LongPacketSums(n: nat)
    requires n >= 1
    ensures TotalLength(LongPacket(n).frags) == 0x4000 + 54 + (n - 1)
    ensures UserDescriptors(LongPacket(n).frags) == n + 1
    decreases n
  {
    var frags := LongPacket(n).frags;
    if n == 1 {
      assert frags == [Fragment(0, 0x4000 + 54)];
      OneFragment(frags[0]);
    } else {
      assert frags[..n - 1] == LongPacket(n - 1).frags;
      LongPacketSums(n - 1);
    }
  }

  /** A packet of 61 fragments that an empty ring of 64 descriptors has no room
      for: it needs 64, and 63 are free. */
  lemma LongPacketNeverFits(configured: vlanId)
    ensures JobOk(LongPacket(TxMaximumNumberOfFragments)) && HasPayload(LongPacket(TxMaximumNumberOfFragments))
    ensures !FitsEmptyRing(LongPacket(TxMaximumNumberOfFragments), configured, StartSticky, QueueDescriptorMinCount)
  {
    LongPacketSums(TxMaximumNumberOfFragments);
  }

  // The marks of a run: c descriptors of context, then the one First descriptor;
  // no buffer is longer than 14 bits can say; and there is exactly one Last
  // descriptor, at the very end, if and only if the packet is not a segmentation
  // packet that consists of headers only.  Completion is signalled by it alone.
  predicate Shaped(j: Job, configured: vlanId, r: seq<TxDesc>, c: nat) {
    && c < |r|
    && (forall i | 0 <= i < |r| :: r[i].Context? <==> i < c)
    && (forall i | 0 <= i < |r| :: IsFirst(r[i]) <==> i == c)
    && (forall i | c <= i < |r| :: r[i].len <= 0x3FFF)
    && (forall i | c <= i < |r| :: r[i].insertTag <==> TagWanted(j.pkt, configured))
    && (forall i | c <= i < |r| && r[i].Data? :: r[i].ioc <==> IsLast(r[i]))
    && (forall i | 0 <= i < |r| - 1 :: !IsLast(r[i]))
    && (IsLast(r[|r| - 1]) <==> HasPayload(j))
  }

  /** Every run has its marks where the engine looks for them. */
  lemma RunShape(j: Job, configured: vlanId, st: Sticky)
    requires JobOk(j) && !j.pkt.ignore
    ensures Shaped(j, configured, RunOf(j, configured, st), Prefix(j, configured, st))
  {
    if j.pkt.mss != 0 {
      GsoRunShape(j, configured, st);
    } else {
      PlainRunShape(j, configured, st);
    }
  }

  lemma GsoRunShape(j: Job, configured: vlanId, st: Sticky)
    requires JobOk(j) && !j.pkt.ignore && j.pkt.mss != 0
    ensures Shaped(j, configured, RunOf(j, configured, st), Prefix(j, configured, st))
  {
    hide GsoData, TotalLength, UserDescriptors, VlanTag, TagWanted;
    TagReads(j.pkt, configured);
    var insert := VlanTag(j.pkt, configured) != 0;
    var r := RunOf(j, configured, st);
    var c := Prefix(j, configured, st);
    var g := GsoData(j.frags, HeaderLength(j.pkt), insert);
    GsoDataShape(j.frags, HeaderLength(j.pkt), insert);
    assert |r| == c + 1 + |g| && r[c] == TsoHeader(j, insert);
    assert forall i | c < i < |r| :: r[i] == g[i - c - 1];
  }

  lemma PlainRunShape(j: Job, configured: vlanId, st: Sticky)
    requires JobOk(j) && !j.pkt.ignore && j.pkt.mss == 0
    ensures Shaped(j, configured, RunOf(j, configured, st), Prefix(j, configured, st))
  {
    hide TotalLength, VlanTag, PlainData, PlainDesc, IsFirst, IsLast, TagWanted;
    TagReads(j.pkt, configured);
    var insert := VlanTag(j.pkt, configured) != 0;
    var r := RunOf(j, configured, st);
    var c := Prefix(j, configured, st);
    if c > 0 { ContextMarks(r[0]); }
    forall i | c <= i < |r|
      ensures r[i].Data? && r[i].len <= QueueDescriptorLengthMax && r[i].insertTag == insert
      ensures (IsFirst(r[i]) <==> i == c) && (IsLast(r[i]) <==> i == |r| - 1) && r[i].ioc == IsLast(r[i])
    {
      PlainMarks(j, i - c, insert);
    }
  }

  lemma ContextMarks(d: TxDesc)
    ensures d.Context? ==> !IsFirst(d) && !IsLast(d)
  {}

  lemma PlainMarks(j: Job, i: nat, insertTag: bool)
    requires i < |j.frags| && PlainOk(j)
    ensures var d := PlainData(j, insertTag)[i];
      && d.Data? && d.len <= QueueDescriptorLengthMax && d.insertTag == insertTag
      && (IsFirst(d) <==> i == 0) && (IsLast(d) <==> i == |j.frags| - 1) && d.ioc == IsLast(d)
  {
    assert j.frags[i] in j.frags;
  }

  /** A segmentation packet of 54 bytes of headers and nothing else gets no
      Last descriptor: the queue would never see it complete. */
  lemma HeaderOnlyPacketHasNoLast(j: Job)
    requires j == Job(Packet(false, 0, 1, false, 0, false, 0, 1460, 14, 20, 20, false, false), [Fragment(0, 54)])
    ensures JobOk(j) && forall d | d in RunOf(j, 0, StartSticky) :: !IsLast(d)
  {
    OneFragment(j.frags[0]);
    RunShape(j, 0, StartSticky);
  }

  // ------------------------------------------------------------ whole streams

  datatype Stream = Stream(descs: seq<TxDesc>, sticky: Sticky)

  predicate JobsOk(jobs: seq<Job>) {
    forall j | j in jobs :: JobOk(j)
  }

  /** Everything queued for a list of packets, from a started queue. */
  function StreamOf(jobs: seq<Job>, configured: vlanId): Stream
    requires JobsOk(jobs)
  {
    if jobs == [] then Stream([], StartSticky) else
    var s := StreamOf(jobs[..|jobs| - 1], configured);
    var j := jobs[|jobs| - 1];
    Stream(s.descs + RunOf(j, configured, s.sticky), StickyAfter(j, configured, s.sticky))
  }

  // What a device is told with the First descriptor of a packet: the segment
  // size to cut to (0: none), the header bytes and the words of the last header
  // to repeat (0: none), the bytes of the packet, the IEEE 802.1Q tag, and which
  // checksums to insert.
  datatype Sent = Sent(
    mss: nat, headers: nat, headerWords: nat, size: nat,
    tagged: bool, vlan: nat, dropEligible: bool, priority: nat,
    sumsHeader: bool, sumsPayload: bool)

  datatype Device = Device(mss: nat, vlanTag: nat)

  // A device executing descriptors: context descriptors change its registers,
  // and a packet is sent under the registers it finds at its First descriptor.
  function DeviceAfter(d: TxDesc, dev: Device): Device {
    if d.Context? then
      Device(if d.mssValid then d.mss else dev.mss, if d.vlanTagValid then d.vlanTag else dev.vlanTag)
    else dev
  }

  function SentAt(d: TxDesc, dev: Device): seq<Sent> {
    if !IsFirst(d) then [] else
    var tag := if d.insertTag then dev.vlanTag else 0;
    [Sent(if d.Tso? then dev.mss else 0, if d.Tso? then d.len else 0, if d.Tso? then d.headerWords else 0,
          if d.Tso? then d.len + d.payloadLength else d.frameLength,
          d.insertTag, tag % 0x1000, tag / 0x1000 % 2 == 1, tag / 0x2000,
          d.Data? && !d.checksum.Disabled?, d.Data? && d.checksum.IncludingPseudo?)]
  }

  // What was sent, and the device afterwards.
  datatype Replayed = Replayed(sent: seq<Sent>, device: Device)

  function ReplayStep(r: Replayed, d: TxDesc): Replayed {
    Replayed(r.sent + SentAt(d, r.device), DeviceAfter(d, r.device))
  }

  function Replay(descs: seq<TxDesc>, dev: Device): Replayed {
    if descs == [] then Replayed([], dev)
    else ReplayStep(Replay(descs[..|descs| - 1], dev), descs[|descs| - 1])
  }

  // What the packet and the configured VLAN ask for, by the packet's fields.
  function WantedOf(j: Job, configured: vlanId): seq<Sent> {
    var p, gso := j.pkt, j.pkt.mss != 0;
    var vlan: nat := if p.vlanRequired then p.vlan else configured;
    var priority: nat := if p.priorityRequired then p.priorityCode else 0;
    if p.ignore then [] else
    [Sent(p.mss, if gso then p.l2 + p.l3 + p.l4 else 0, if gso then p.l4 / 4 else 0, |FragmentBytes(j.frags)|,
          vlan != 0 || priority != 0, vlan, false, priority,
          !gso && (p.checksumL3 || p.checksumL4), !gso && p.checksumL4)]
  }

  function Wanted(jobs: seq<Job>, configured: vlanId): seq<Sent> {
    if jobs == [] then []
    else Wanted(jobs[..|jobs| - 1], configured) + WantedOf(jobs[|jobs| - 1], configured)
  }

  // The driver's memory of the context is right wherever it claims anything.
  predicate Agree(st: Sticky, dev: Device) {
    && (st.lastMss != UNKNOWN_MSS ==> dev.mss == st.lastMss)
    && (st.lastVlanTag != 0 ==> dev.vlanTag == st.lastVlanTag)
  }

  lemma {:induction false} ReplayJoin(a: seq<TxDesc>, b: seq<TxDesc>, dev: Device)
    ensures var r := Replay(a, dev);
      var t := Replay(b, r.device);
      Replay(a + b, dev) == Replayed(r.sent + t.sent, t.device)
    decreases |b|
  {
    hide SentAt, DeviceAfter;
    var r := Replay(a, dev);
    if b == [] {
      assert a + b == a;
      assert r.sent + [] == r.sent;
    } else {
      var front, x := b[..|b| - 1], b[|b| - 1];
      ReplayJoin(a, front, dev);
      assert (a + b)[..|a + b| - 1] == a + front;
      var t := Replay(front, r.device);
      assert (r.sent + t.sent) + SentAt(x, t.device) == r.sent + (t.sent + SentAt(x, t.device));
    }
  }

  // Descriptors after the first one of a packet send nothing and change nothing.
  lemma {:induction false} ReplayTail(descs: seq<TxDesc>, dev: Device)
    requires forall d | d in descs :: !d.Context? && !IsFirst(d)
    ensures Replay(descs, dev) == Replayed([], dev)
    decreases |descs|
  {
    if descs != [] {
      var front, x := descs[..|descs| - 1], descs[|descs| - 1];
      assert x in descs && forall d | d in front :: d in descs;
      ReplayTail(front, dev);
      assert ReplayStep(Replayed([], dev), x) == Replayed([], dev);
    }
  }

  lemma ReplayOne(d: TxDesc, dev: Device)
    ensures Replay([d], dev) == Replayed(SentAt(d, dev), DeviceAfter(d, dev))
  {
    hide SentAt, DeviceAfter;
    var none: seq<TxDesc> := [];
    assert [d][..0] == none;
    assert Replay(none, dev) == Replayed([], dev);
    assert [] + SentAt(d, dev) == SentAt(d, dev);
  }

  // A device that executed the context descriptor agrees with the driver's
  // new memory and holds what the packet needs.
  lemma ContextAgrees(j: Job, configured: vlanId, st: Sticky, dev: Device)
    requires JobOk(j) && !j.pkt.ignore && Agree(st, dev)
    ensures var r := Replay(ContextFor(j, configured, st), dev);
      && r.sent == []
      && Agree(StickyAfter(j, configured, st), r.device)
      && (j.pkt.mss != 0 ==> r.device.mss == j.pkt.mss)
      && (VlanTag(j.pkt, configured) != 0 ==> r.device.vlanTag == VlanTag(j.pkt, configured))
  {
    var ctx := ContextFor(j, configured, st);
    if ctx != [] {
      assert ctx == [ctx[0]];
      ReplayOne(ctx[0], dev);
    }
  }

  lemma ReplayPacket(ctx: seq<TxDesc>, first: TxDesc, tail: seq<TxDesc>, dev: Device)
    requires Replay(ctx, dev).sent == []
    requires IsFirst(first) && forall d | d in tail :: !d.Context? && !IsFirst(d)
    ensures var d := Replay(ctx, dev).device;
      Replay(ctx + ([first] + tail), dev) == Replayed(SentAt(first, d), d)
  {
    hide SentAt;
    var d := Replay(ctx, dev).device;
    ReplayJoin(ctx, [first] + tail, dev);
    ReplayJoin([first], tail, d);
    ReplayOne(first, d);
    ReplayTail(tail, d);
    assert [] + (SentAt(first, d) + []) == SentAt(first, d);
  }

  lemma ReplayRun(j: Job, configured: vlanId, st: Sticky, dev: Device)
    requires JobOk(j) && Agree(st, dev)
    ensures var r := Replay(RunOf(j, configured, st), dev);
      r.sent == WantedOf(j, configured) && Agree(StickyAfter(j, configured, st), r.device)
  {
    if !j.pkt.ignore {
      hide JobOk, RunOf, ContextFor, Replay, SentAt, StickyAfter, Agree, VlanTag;
      var r := RunOf(j, configured, st);
      var c := Prefix(j, configured, st);
      RunParts(j, configured, st);
      ContextAgrees(j, configured, st, dev);
      ReplayPacket(ContextFor(j, configured, st), r[c], r[c + 1..], dev);
      FirstSends(j, configured, st, Replay(ContextFor(j, configured, st), dev).device);
    }
  }

  // A run is its context, its First descriptor, and descriptors that neither
  // start a packet nor change the context.
  lemma RunParts(j: Job, configured: vlanId, st: Sticky)
    requires JobOk(j) && !j.pkt.ignore
    ensures var r := RunOf(j, configured, st);
      var c := Prefix(j, configured, st);
      && c < |r| && IsFirst(r[c])
      && r == ContextFor(j, configured, st) + ([r[c]] + r[c + 1..])
      && (forall x | x in r[c + 1..] :: !x.Context? && !IsFirst(x))
  {
    hide RunOf, ContextFor, IsFirst, Shaped;
    var r := RunOf(j, configured, st);
    var c := Prefix(j, configured, st);
    RunShape(j, configured, st);
    RunBegins(j, configured, st);
    FirstIsFirst(j, configured, r, c);
    SplitAround(r, c);
  }

  lemma RunBegins(j: Job, configured: vlanId, st: Sticky)
    requires JobOk(j) && !j.pkt.ignore
    ensures ContextFor(j, configured, st) <= RunOf(j, configured, st)
  {
    hide VlanTag, TotalLength, GsoData, PlainData, ContextFor;
  }

  lemma SplitAround(r: seq<TxDesc>, c: nat)
    requires c < |r|
    ensures r == r[..c] + ([r[c]] + r[c + 1..])
  {}

  lemma FirstIsFirst(j: Job, configured: vlanId, r: seq<TxDesc>, c: nat)
    requires Shaped(j, configured, r, c)
    ensures c < |r| && IsFirst(r[c]) && forall x | x in r[c + 1..] :: !x.Context? && !IsFirst(x)
  {
    hide IsFirst;
    forall x | x in r[c + 1..] ensures !x.Context? && !IsFirst(x) {
      var i :| 0 <= i < |r[c + 1..]| && r[c + 1..][i] == x;
      assert x == r[c + 1 + i];
    }
  }

  lemma FirstSends(j: Job, configured: vlanId, st: Sticky, d: Device)
    requires JobOk(j) && !j.pkt.ignore
    requires j.pkt.mss != 0 ==> d.mss == j.pkt.mss
    requires VlanTag(j.pkt, configured) != 0 ==> d.vlanTag == VlanTag(j.pkt, configured)
    ensures Prefix(j, configured, st) < |RunOf(j, configured, st)|
    ensures SentAt(RunOf(j, configured, st)[Prefix(j, configured, st)], d) == WantedOf(j, configured)
  {
    hide TotalLength, FragmentBytes, GsoData, UserDescriptors, VlanTag, ContextFor;
    TagReads(j.pkt, configured);
    BytesInAll(j.frags);
    if j.pkt.mss != 0 { HeadersInAll(j); }
  }

  lemma HeadersInAll(j: Job)
    requires GsoOk(j)
    ensures HeaderLength(j.pkt) <= TotalLength(j.frags)
  {
    TotalLengthSplit(j.frags, 1);
    assert j.frags[..1] == [j.frags[0]];
    OneFragment(j.frags[0]);
  }

  // The fragments hold as many bytes as their lengths add up to.
  lemma {:induction false} BytesInAll(frags: seq<Fragment>)
    ensures |FragmentBytes(frags)| == TotalLength(frags)
    decreases |frags|
  {
    if frags != [] {
      BytesInAll(frags[1..]);
      TotalLengthSplit(frags, 1);
      assert frags[..1] == [frags[0]];
      OneFragment(frags[0]);
    }
  }

  /** Sticky context refines a stateless stream: whatever segment size and tag
      the device starts with, it sends every packet under the values its fields
      ask for, although a context descriptor is queued only when one changes. */
  lemma {:induction false} StickyContextRefines(jobs: seq<Job>, configured: vlanId, dev: Device)
    requires JobsOk(jobs)
    ensures var r := Replay(StreamOf(jobs, configured).descs, dev);
      r.sent == Wanted(jobs, configured) && Agree(StreamOf(jobs, configured).sticky, r.device)
    decreases |jobs|
  {
    if jobs != [] {
      var front, j := jobs[..|jobs| - 1], jobs[|jobs| - 1];
      assert j in jobs && forall k | k in front :: k in jobs;
      StickyContextRefines(front, configured, dev);
      var s := StreamOf(front, configured);
      ReplayRun(j, configured, s.sticky, Replay(s.descs, dev).device);
      ReplayJoin(s.descs, RunOf(j, configured, s.sticky), dev);
    }
  }

  // ------------------------------------------------------- runs in the stream

  lemma StreamStep(jobs: seq<Job>, configured: vlanId, k: nat)
    requires JobsOk(jobs) && k < |jobs|
    ensures var s := StreamOf(jobs[..k], configured);
      StreamOf(jobs[..k + 1], configured)
        == Stream(s.descs + RunOf(jobs[k], configured, s.sticky), StickyAfter(jobs[k], configured, s.sticky))
  {
    assert jobs[..k + 1][..k] == jobs[..k];
  }

  // Everything queued up to packet k.
  function DescsTo(jobs: seq<Job>, configured: vlanId, k: nat): seq<TxDesc>
    requires JobsOk(jobs) && k <= |jobs|
  {
    StreamOf(jobs[..k], configured).descs
  }

  lemma DescsGrow(jobs: seq<Job>, configured: vlanId, k: nat)
    requires JobsOk(jobs) && k < |jobs|
    ensures DescsTo(jobs, configured, k) <= DescsTo(jobs, configured, k + 1)
  {
    hide RunOf, JobOk, StickyAfter, StreamOf;
    StreamStep(jobs, configured, k);
  }

  lemma {:induction false} StreamPrefix(jobs: seq<Job>, configured: vlanId, k: nat, m: nat)
    requires JobsOk(jobs) && k <= m <= |jobs|
    ensures DescsTo(jobs, configured, k) <= DescsTo(jobs, configured, m)
    decreases m
  {
    hide DescsTo, JobsOk;
    if k < m {
      StreamPrefix(jobs, configured, k, m - 1);
      DescsGrow(jobs, configured, m - 1);
    }
  }
}
