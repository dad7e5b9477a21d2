/** The transmit queue (txqueue.cpp): the driver's side of a descriptor ring it
    shares with a DMA engine, between two rings it shares with NetAdapterCx.
    Ghost fields number descriptors, packets and fragments from the start of
    the queue, so that indexes are those numbers modulo the ring sizes, and
    record every packet the framework has handed over. */
module EqosTxQueue {
  import opened Arith
  import opened EqosQueueCommon
  import opened EqosTxPackets

  // A descriptor in memory and its Own bit: set while the DMA engine has it.
  datatype Slot = Slot(d: TxDesc, own: bool)

  // What the framework has put in the two rings: the packets and fragments in
  // memory, and the history they belong to.
  datatype RingMemory = RingMemory(
    packets: seq<Packet>, fragments: seq<Fragment>, jobs: seq<Job>, at: seq<nat>, fragsSupplied: nat)
  {
    ghost predicate Sized() { |at| == |jobs| && |packets| > 0 && |fragments| > 0 }

    // The packet ring holds packet k and the fragment ring its fragments, from
    // `first` on.
    ghost predicate Stored(k: nat, first: nat)
      requires Sized() && k < |jobs|
    {
      var j := jobs[k];
      && packets[Wrap(k, |packets|)] == j.pkt
      && j.pkt.fragIndex == Wrap(at[k], |fragments|)
      && first <= at[k] && at[k] + |j.frags| <= fragsSupplied
      && forall i | 0 <= i < |j.frags| :: fragments[Wrap(at[k] + i, |fragments|)] == j.frags[i]
    }

    ghost predicate AllStored(from: nat, first: nat)
      requires Sized()
    {
      && (forall k | from <= k < |jobs| :: Stored(k, first))
      && (forall j, k | from <= j < k < |jobs| :: at[j] + |jobs[j].frags| <= at[k])
    }

    lemma StoredFrom(from: nat, first: nat, from': nat, first': nat)
      requires Sized() && AllStored(from, first) && from <= from' && forall k | from' <= k < |jobs| :: first' <= at[k]
      ensures AllStored(from', first')
    {
      hide Wrap;
      forall k | from' <= k < |jobs| ensures Stored(k, first') {
        assert Stored(k, first);
      }
    }

    // One more packet, its fragments written from fragsSupplied on.
    ghost predicate Extends(was: RingMemory, pkt: Packet, frags: seq<Fragment>, first: nat)
      requires Sized() && was.Sized()
    {
      && |packets| == |was.packets| && |fragments| == |was.fragments|
      && jobs == was.jobs + [Job(pkt, frags)] && at == was.at + [was.fragsSupplied]
      && first <= was.fragsSupplied && fragsSupplied == was.fragsSupplied + |frags|
      && packets == was.packets[Wrap(|was.jobs|, |packets|) := pkt]
      && pkt.fragIndex == Wrap(was.fragsSupplied, |fragments|)
      && (forall m | 0 <= m < |frags| :: fragments[Wrap(was.fragsSupplied + m, |fragments|)] == frags[m])
      && (forall m | first <= m < was.fragsSupplied ::
            fragments[Wrap(m, |fragments|)] == was.fragments[Wrap(m, |fragments|)])
    }

    lemma ExtendsStored(was: RingMemory, pkt: Packet, frags: seq<Fragment>, from: nat, first: nat)
      requires Sized() && was.Sized() && Extends(was, pkt, frags, first)
      requires from <= |was.jobs| && |jobs| < from + |packets| && was.AllStored(from, first)
      ensures AllStored(from, first)
    {
      hide Wrap;
      forall k | from <= k < |jobs|
        ensures Stored(k, first) && (k < |jobs| - 1 ==> at[k] + |jobs[k].frags| <= was.fragsSupplied)
      {
        if k < |jobs| - 1 {
          assert was.Stored(k, first);
          SlotsDistinct(k, |jobs| - 1, |packets|);
        }
      }
    }
  }

  class TxQueue {
    const descCount: nat
    const descVirtual: array<Slot>
    const configured: vlanId

    var lastMss: nat
    var lastVlanTag: nat
    var descBegin: nat
    var descEnd: nat           // also what the tail pointer register holds

    // packetRing and fragmentRing
    var packets: seq<Packet>
    var packetBegin: nat
    var packetNext: nat
    var packetEnd: nat
    var fragments: seq<Fragment>
    var fragmentBegin: nat
    var fragmentEnd: nat

    var current: nat           // Current_App_TxDesc, as an index

    ghost var jobs: seq<Job>   // every packet handed over so far
    ghost var at: seq<nat>     // where its fragments start
    ghost var returned: nat    // packets given back:         BeginIndex
    ghost var queued: nat      // packets with descriptors:   NextIndex
    ghost var fragsReturned: nat
    ghost var fragsSupplied: nat
    ghost var head: nat        // descriptors retired:        descBegin
    ghost var done: nat        // descriptors released:       current

    // The descriptors that packets before k were given.
    ghost function Log(k: nat): seq<TxDesc>
      reads `jobs
      requires JobsOk(jobs) && k <= |jobs|
    {
      DescsTo(jobs, configured, k)
    }

    ghost function At(k: nat): nat
      reads `jobs
      requires JobsOk(jobs) && k <= |jobs|
    {
      |Log(k)|
    }

    /** From descriptor h on, the ring holds the descriptors of l; those from d
        on, which the engine has not released, are marked as its own. */
    ghost predicate HoldsFrom(l: seq<TxDesc>, h: nat, d: nat)
      reads descVirtual
    {
      && descVirtual.Length == descCount > 0
      && forall i | h <= i < |l| :: descVirtual[Wrap(i, descCount)] == Slot(l[i], i >= d)
    }

    ghost predicate Holds(l: seq<TxDesc>)
      reads `head, `done, descVirtual
    {
      && head <= done <= |l| && |l| - head < descCount
      && HoldsFrom(l, head, done)
    }

    lemma SlotAt(l: seq<TxDesc>, i: nat)
      requires Holds(l) && head <= i < |l|
      ensures descVirtual.Length == descCount > 0
      ensures descVirtual[Wrap(i, descCount)] == Slot(l[i], i >= done)
    {}

    lemma HoldsLater(l: seq<TxDesc>, h: nat)
      requires Holds(l) && head <= h <= done
      ensures HoldsFrom(l, h, done)
    {}

    ghost function InRings(): RingMemory
      reads `jobs, `at, `packets, `fragments, `fragsSupplied
    {
      RingMemory(packets, fragments, jobs, at, fragsSupplied)
    }

    // What the framework promises about every packet.
    ghost predicate JobsGood()
      reads `jobs
    {
      JobsOk(jobs) && forall j | j in jobs :: HasPayload(j)
    }

    ghost predicate Rings()
      reads `jobs, `at, `packets, `fragments, `fragsReturned, `fragsSupplied, `returned, `queued
      reads `packetBegin, `packetNext, `packetEnd, `fragmentBegin, `fragmentEnd
    {
      && |packets| > 0 && |fragments| > 0 && |at| == |jobs|
      && JobsGood()
      && returned <= queued <= |jobs| < returned + |packets|
      && packetBegin == Wrap(returned, |packets|) && packetNext == Wrap(queued, |packets|) && packetEnd == Wrap(|jobs|, |packets|)
      && fragsReturned <= fragsSupplied < fragsReturned + |fragments|
      && fragmentBegin == Wrap(fragsReturned, |fragments|) && fragmentEnd == Wrap(fragsSupplied, |fragments|)
      && InRings().AllStored(returned, fragsReturned)
    }

    ghost predicate Indexes()
      reads `jobs, `queued, `head, `done, `descBegin, `descEnd, `current
      requires JobsOk(jobs) && queued <= |jobs|
    {
      && descCount >= QueueDescriptorMinCount
      && done <= At(queued)
      && descBegin == Wrap(head, descCount)
      && descEnd == Wrap(At(queued), descCount)
      && current == Wrap(done, descCount)
    }

    // The first unretired descriptor is in the run of the first packet that
    // has not been given back (or before its empty run, if it is ignored).
    ghost predicate InRun(k: nat, i: nat)
      reads `jobs, `queued
      requires JobsOk(jobs) && k <= queued <= |jobs|
    {
      if k == queued then i == At(queued)
      else if jobs[k].pkt.ignore then i == At(k)
      else At(k) <= i < At(k + 1)
    }

    /** The invariant of the queue between calls. */
    ghost predicate Valid()
      reads this, descVirtual
    {
      && Rings() && Indexes()
      && Holds(Log(queued))
      && Sticky(lastMss, lastVlanTag) == StreamOf(jobs[..queued], configured).sticky
      && InRun(returned, head)
    }

    // ------------------------------------------------------------ the device

    /** The engine finishes one descriptor: it takes them in ring order, clears
        Own, keeps the rest, and stops at the tail pointer. */
    method DeviceStep(ghost l: seq<TxDesc>)
      requires Rings() && Indexes() && Holds(l) && At(queued) <= |l|
      modifies descVirtual, `current, `done
      ensures Rings() && Indexes() && Holds(l)
      ensures done == if old(done) < At(queued) then old(done) + 1 else old(done)
    {
      hide Wrap, RunOf, StreamOf, JobOk, HasPayload;
      SlotsDistinct(done, At(queued), descCount);
      if current != descEnd {
        assert descVirtual[Wrap(done, descCount)] == Slot(l[done], true);
        descVirtual[current] := descVirtual[current].(own := false);
        forall i | head <= i < |l| ensures descVirtual[Wrap(i, descCount)] == Slot(l[i], i >= done + 1) {
          if i <= done { SlotsDistinct(i, done, descCount); } else { SlotsDistinct(done, i, descCount); }
        }
        SlotAfter(done, 1, descCount);
        current := Wrap(current + 1, descCount);
        done := done + 1;
      }
    }

    // Any number of device steps, as may happen between any two of the driver's.
    method DeviceMayRun(ghost l: seq<TxDesc>)
      requires Rings() && Indexes() && Holds(l) && At(queued) <= |l|
      modifies descVirtual, `current, `done
      ensures Rings() && Indexes() && Holds(l)
      ensures old(done) <= done
    {
      var steps: int := *;
      while steps > 0
        invariant Rings() && Indexes() && Holds(l) && old(done) <= done
      {
        DeviceStep(l);
        steps := steps - 1;
      }
    }

    // ------------------------------------------------------- giving back

    // SkipIgnorePackets: the first packet from pktIndex on that is not
    // ignored, or the end of the queued ones; with it, the place its fragments
    // start (or the place given).
    method SkipIgnorePackets(pktIndex: nat, pktFragIndex: nat, ghost k: nat, ghost f: nat)
      returns (index: nat, fragIndex: nat, ghost k': nat, ghost f': nat)
      requires Rings() && returned <= k <= queued && pktIndex == Wrap(k, |packets|)
      requires pktFragIndex == Wrap(f, |fragments|) && Covers(k, f)
      ensures k <= k' <= queued && index == Wrap(k', |packets|)
      ensures forall i | k <= i < k' :: jobs[i].pkt.ignore
      ensures k' < queued ==> !jobs[k'].pkt.ignore
      ensures fragIndex == Wrap(f', |fragments|) && Covers(k', f') && f <= f'
    {
      hide Wrap, RunOf, StreamOf, JobOk, HasPayload;
      index, fragIndex, k', f' := pktIndex, pktFragIndex, k, f;
      SlotsDistinct(k, queued, |packets|);
      while index != packetNext
        invariant k <= k' <= queued && index == Wrap(k', |packets|)
        invariant forall i | k <= i < k' :: jobs[i].pkt.ignore
        invariant index != packetNext <==> k' != queued
        invariant fragIndex == pktFragIndex && f' == f && Covers(k', f')
        decreases queued - k'
      {
        assert InRings().Stored(k', fragsReturned);
        if !packets[index].ignore {
          fragIndex, f' := packets[index].fragIndex, at[k'];
          return;
        }
        SlotAfter(k', 1, |packets|);
        index := Wrap(index + 1, |packets|);
        k' := k' + 1;
        SlotsDistinct(k', queued, |packets|);
      }
    }

    // No fragment of packet k or of a later one lies before f.
    ghost predicate Covers(k: nat, f: nat)
      reads `jobs, `at, `fragsReturned, `fragsSupplied
      requires |at| == |jobs|
    {
      fragsReturned <= f <= fragsSupplied && forall i | k <= i < |jobs| :: f <= at[i]
    }

    lemma RunInLog(k: nat, l: seq<TxDesc>)
      requires JobsOk(jobs) && k < queued <= |jobs| && l == Log(queued)
      ensures var r := RunOf(jobs[k], configured, StreamOf(jobs[..k], configured).sticky);
        && At(k + 1) == At(k) + |r| <= |l|
        && l[At(k)..At(k + 1)] == r
    {
      hide RunOf, JobOk, StickyAfter;
      StreamStep(jobs, configured, k);
      StreamPrefix(jobs, configured, k + 1, queued);
      assert l[..At(k + 1)] == Log(k + 1);
    }

    // What the retire loop can tell from a descriptor of packet k.
    lemma MarksInLog(k: nat, l: seq<TxDesc>, i: nat)
      requires JobsGood()
      requires k < queued <= |jobs| && l == Log(queued) && !jobs[k].pkt.ignore
      requires At(k) <= i < At(k + 1)
      ensures i < |l|
      ensures IsLast(l[i]) <==> i + 1 == At(k + 1)
    {
      hide RunOf, HasPayload, StreamOf;
      var st := StreamOf(jobs[..k], configured).sticky;
      var r := RunOf(jobs[k], configured, st);
      RunInLog(k, l);
      assert jobs[k] in jobs;
      RunShape(jobs[k], configured, st);
      assert l[i] == l[At(k)..At(k + 1)][i - At(k)];
    }

    // Ignored packets have no descriptors.
    lemma {:induction false} SkippedAt(k: nat, k': nat)
      requires JobsOk(jobs) && k <= k' <= queued <= |jobs|
      requires forall i | k <= i < k' :: jobs[i].pkt.ignore
      ensures At(k') == At(k)
      decreases k'
    {
      hide At, JobsOk;
      if k < k' {
        SkippedAt(k, k' - 1);
        SkippedOne(k' - 1);
      }
    }

    lemma SkippedOne(k: nat)
      requires JobsOk(jobs) && k < |jobs| && jobs[k].pkt.ignore
      ensures At(k + 1) == At(k)
    {
      hide JobOk, StickyAfter, StreamOf;
      StreamStep(jobs, configured, k);
    }

    lemma RunNotEmpty(k: nat)
      requires JobsOk(jobs) && k < queued <= |jobs| && !jobs[k].pkt.ignore
      ensures At(k) < At(k + 1) <= At(queued)
    {
      hide RunOf, StreamOf;
      RunInLog(k, Log(queued));
      assert jobs[k] in jobs;
      RunShape(jobs[k], configured, StreamOf(jobs[..k], configured).sticky);
    }

    // Moving from packet k, at its first descriptor or inside its run, over
    // ignored packets to k'.
    lemma EnterRun(k: nat, k': nat, i: nat)
      requires JobsOk(jobs) && k <= k' <= queued <= |jobs| && At(k') == At(k)
      requires k' < queued ==> !jobs[k'].pkt.ignore
      requires i == At(k) || (InRun(k, i) && (k == k' || (k < queued && jobs[k].pkt.ignore)))
      ensures InRun(k', i)
    {
      if k' < queued && i == At(k) { RunNotEmpty(k'); }
    }

    // Packet k is complete: the next packet to look at.
    method CompletePacket(pktIndex: nat, ghost k: nat, ghost i: nat)
      returns (index: nat, fragIndex: nat, ghost k': nat, ghost f': nat)
      requires Rings() && returned <= k < queued && pktIndex == Wrap(k, |packets|) && i == At(k + 1)
      ensures k < k' <= queued && index == Wrap(k', |packets|) && (k' < queued ==> !jobs[k'].pkt.ignore)
      ensures InRun(k', i)
      ensures fragIndex == Wrap(f', |fragments|) && Covers(k', f')
    {
      hide Wrap, RunOf, StreamOf, HasPayload, GsoOk, PlainOk;
      assert InRings().Stored(k, fragsReturned);
      assert jobs[k] in jobs && JobOk(jobs[k]);
      ghost var f := at[k] + packets[pktIndex].fragCount;
      assert Covers(k + 1, f);
      SlotAfter(at[k], packets[pktIndex].fragCount, |fragments|);
      SlotAfter(k, 1, |packets|);
      fragIndex := Wrap(packets[pktIndex].fragIndex + packets[pktIndex].fragCount, |fragments|);
      index := Wrap(pktIndex + 1, |packets|);
      index, fragIndex, k', f' := SkipIgnorePackets(index, fragIndex, k + 1, f);
      SkippedAt(k + 1, k');
      EnterRun(k + 1, k', i);
    }

    lemma UseCovers(k: nat, f: nat)
      requires |at| == |jobs| && Covers(k, f)
      ensures fragsReturned <= f <= fragsSupplied && forall i | k <= i < |jobs| :: f <= at[i]
    {}

    // Completed packets go back, with their fragments.
    method GiveBack(pktIndex: nat, pktFragIndex: nat, descIndex: nat, ghost k: nat, ghost f: nat, ghost i: nat)
      requires Rings() && Indexes() && Holds(Log(queued))
      requires Sticky(lastMss, lastVlanTag) == StreamOf(jobs[..queued], configured).sticky
      requires head <= i <= done && descIndex == Wrap(i, descCount)
      requires returned <= k <= queued && pktIndex == Wrap(k, |packets|) && InRun(k, i)
      requires pktFragIndex == Wrap(f, |fragments|) && Covers(k, f)
      modifies `head, `returned, `fragsReturned, `descBegin, `packetBegin, `fragmentBegin
      ensures Valid()
      ensures head == i && returned == k && fragsReturned == f >= old(fragsReturned)
    {
      hide Wrap, RunOf, StreamOf, HasPayload, JobsOk, InRun, Log, RingMemory.AllStored, HoldsFrom, At, Covers;
      UseCovers(k, f);
      InRings().StoredFrom(returned, fragsReturned, k, f);
      HoldsLater(Log(queued), i);
      packetBegin := pktIndex;
      fragmentBegin := pktFragIndex;
      descBegin := descIndex;
      head, returned, fragsReturned := i, k, f;
      assert Rings();
    }

    // SkipIgnorePackets at the start of TxQueueAdvance.
    method FirstPacket() returns (pktIndex: nat, pktFragIndex: nat, ghost k: nat, ghost f: nat)
      requires Valid()
      ensures returned <= k <= queued && pktIndex == Wrap(k, |packets|) && (k < queued ==> !jobs[k].pkt.ignore)
      ensures InRun(k, head)
      ensures pktFragIndex == Wrap(f, |fragments|) && Covers(k, f)
    {
      hide Wrap, RunOf, StreamOf, JobOk, HasPayload;
      forall m | returned <= m < |jobs| ensures fragsReturned <= at[m] {
        assert InRings().Stored(m, fragsReturned);
      }
      pktIndex, pktFragIndex, k, f := SkipIgnorePackets(packetBegin, fragmentBegin, returned, fragsReturned);
      SkippedAt(returned, k);
      EnterRun(returned, k, head);
    }

    // Looks at released descriptors in order, up to the first one the engine
    // still owns; meanwhile the engine goes on.
    method PassReleased()
      returns (pktIndex: nat, pktFragIndex: nat, descIndex: nat, ghost k: nat, ghost f: nat, ghost i: nat)
      requires Valid()
      modifies descVirtual, `current, `done
      ensures Rings() && Indexes() && Holds(Log(queued)) && old(done) <= done
      ensures head <= i <= done && descIndex == Wrap(i, descCount)
      ensures i < |Log(queued)| ==> i == done
      ensures returned <= k <= queued && pktIndex == Wrap(k, |packets|) && InRun(k, i)
      ensures pktFragIndex == Wrap(f, |fragments|) && Covers(k, f)
    {
      hide Wrap, RingMemory.AllStored, RunOf, StreamOf, JobOk, HasPayload, HoldsFrom, Covers;
      ghost var l := Log(queued);
      i := head;
      descIndex := descBegin;
      pktIndex, pktFragIndex, k, f := FirstPacket();
      SlotsDistinct(i, |l|, descCount);
      while descIndex != descEnd
        invariant Rings() && Indexes() && Holds(l) && l == Log(queued)
        invariant old(done) <= done
        invariant head <= i <= done && descIndex == Wrap(i, descCount)
        invariant descIndex != descEnd <==> i != |l|
        invariant returned <= k <= queued && pktIndex == Wrap(k, |packets|) && (k < queued ==> !jobs[k].pkt.ignore)
        invariant InRun(k, i)
        invariant pktFragIndex == Wrap(f, |fragments|) && Covers(k, f)
        decreases |l| - i
      {
        assert k != queued; // NT_ASSERT(pktIndex != packetRing->NextIndex)
        DeviceMayRun(l);
        SlotAt(l, i);
        var slot := descVirtual[descIndex];
        if slot.own {
          break;
        }
        MarksInLog(k, l, i);
        SlotAfter(i, 1, descCount);
        descIndex := Wrap(descIndex + 1, descCount);
        i := i + 1;
        SlotsDistinct(i, |l|, descCount);
        if slot.d.Context? {
          continue;
        }
        if IsLast(slot.d) {
          pktIndex, pktFragIndex, k, f := CompletePacket(pktIndex, k, i);
        }
      }
    }

    /** The first half of TxQueueAdvance.  Packets whose last descriptor has
        been released go back, in order; the loop stops at the first descriptor
        the engine still owns, while the engine goes on. */
    method RetireCompleted()
      requires Valid()
      modifies descVirtual, `current, `done, `head, `returned, `fragsReturned, `descBegin, `packetBegin, `fragmentBegin
      ensures Valid()
      ensures old(returned) <= returned && old(fragsReturned) <= fragsReturned
      ensures old(done) <= head
    {
      hide Wrap, RingMemory.AllStored, RunOf, StreamOf, JobOk, HasPayload, HoldsFrom, Covers, InRun;
      var pktIndex, pktFragIndex, descIndex, k, f, i := PassReleased();
      GiveBack(pktIndex, pktFragIndex, descIndex, k, f, i);
    }

    // -------------------------------------------------- filling descriptors

    // Room for descriptors after those of l, short of the hole.
    ghost function Room(l: seq<TxDesc>): int
      reads `head
    {
      descCount - 1 - (|l| - head)
    }

    // While filling: l has been written, the tail pointer has not moved.
    ghost predicate Filling(l: seq<TxDesc>, descIndex: nat)
      reads `jobs, `at, `packets, `fragments, `fragsReturned, `fragsSupplied, `returned, `queued
      reads `packetBegin, `packetNext, `packetEnd, `fragmentBegin, `fragmentEnd
      reads `head, `done, `descBegin, `descEnd, `current, descVirtual
    {
      Rings() && Indexes() && Holds(l) && At(queued) <= |l| && descIndex == Wrap(|l|, descCount)
    }

    lemma RoomIs(l: seq<TxDesc>, descIndex: nat)
      requires Filling(l, descIndex)
      ensures descCount > 0 && EmptyRemaining(descBegin, descIndex, descCount) == Room(l)
    {
      EmptyRemainingIs(head, |l|, descCount);
    }

    // What the driver reads for packet k.
    lemma PacketAt(k: nat)
      requires Rings() && returned <= k < |jobs|
      ensures packets[Wrap(k, |packets|)] == jobs[k].pkt && JobOk(jobs[k])
      ensures jobs[k].frags != [] ==>
                jobs[k].pkt.fragIndex < |fragments| && fragments[jobs[k].pkt.fragIndex] == jobs[k].frags[0]
    {
      hide Wrap, JobOk;
      assert InRings().Stored(k, fragsReturned) && jobs[k] in jobs;
      if jobs[k].frags != [] {
        assert fragments[Wrap(at[k] + 0, |fragments|)] == jobs[k].frags[0];
      }
    }

    // Writes one descriptor and moves on.
    method Put(d: TxDesc, descIndex: nat, ghost l: seq<TxDesc>) returns (next: nat)
      requires Filling(l, descIndex) && Room(l) >= 1
      modifies descVirtual, `current, `done
      ensures Filling(l + [d], next) && Room(l + [d]) == Room(l) - 1
    {
      hide Wrap, Rings, StreamOf;
      DeviceMayRun(l);
      descVirtual[descIndex] := Slot(d, true);
      forall i | head <= i < |l + [d]| ensures descVirtual[Wrap(i, descCount)] == Slot((l + [d])[i], i >= done) {
        SlotsDistinct(i, |l|, descCount);
      }
      SlotAfter(|l|, 1, descCount);
      next := Wrap(descIndex + 1, descCount);
    }

    // Total of the first i fragment lengths of packet k, read from the ring.
    method MeasureFragments(fragIndex: nat, fragmentCount: nat, ghost k: nat)
      returns (packetLength: nat, userDescriptorsNeeded: nat)
      requires Rings() && returned <= k < |jobs|
      requires fragIndex == jobs[k].pkt.fragIndex && fragmentCount == |jobs[k].frags|
      ensures packetLength == TotalLength(jobs[k].frags)
      ensures userDescriptorsNeeded == UserDescriptors(jobs[k].frags)
    {
      hide Wrap, DescriptorsFor;
      assert InRings().Stored(k, fragsReturned);
      ghost var frags := jobs[k].frags;
      packetLength, userDescriptorsNeeded := 0, 0;
      var fragIndex2 := fragIndex;
      for i := 0 to fragmentCount
        invariant fragIndex2 == Wrap(at[k] + i, |fragments|)
        invariant packetLength == TotalLength(frags[..i]) && userDescriptorsNeeded == UserDescriptors(frags[..i])
      {
        assert frags[..i + 1][..i] == frags[..i];
        assert fragments[fragIndex2] == frags[i];
        var fragLength := fragments[fragIndex2].len;
        packetLength := packetLength + fragLength;
        userDescriptorsNeeded := userDescriptorsNeeded + DescriptorsFor(fragLength);
        SlotAfter(at[k] + i, 1, |fragments|);
        fragIndex2 := Wrap(fragIndex2 + 1, |fragments|);
      }
      assert frags[..fragmentCount] == frags;
    }

    // The while loop over one fragment.
    method PutFragment(frag: Fragment, start: nat, lastFragment: bool, insertTag: bool, descIndex: nat, ghost l: seq<TxDesc>)
      returns (next: nat)
      requires start <= frag.len
      requires Filling(l, descIndex) && Room(l) >= |Chunks(frag, start, lastFragment, insertTag)|
      modifies descVirtual, `current, `done
      ensures Filling(l + Chunks(frag, start, lastFragment, insertTag), next)
      ensures Room(l + Chunks(frag, start, lastFragment, insertTag)) == Room(l) - |Chunks(frag, start, lastFragment, insertTag)|
    {
      hide Wrap, Filling;
      ghost var all := l + Chunks(frag, start, lastFragment, insertTag);
      next := descIndex;
      var fragPos := start;
      ghost var m := l;
      while fragPos != frag.len
        invariant fragPos <= frag.len && Filling(m, next)
        invariant all == m + Chunks(frag, fragPos, lastFragment, insertTag)
        invariant Room(all) >= 0
        decreases frag.len - fragPos
      {
        ghost var c := Chunks(frag, fragPos, lastFragment, insertTag);
        var bufLogicalAddress := frag.addr + fragPos;
        var bufLength := if frag.len - fragPos < QueueDescriptorLengthMax then frag.len - fragPos else QueueDescriptorLengthMax;
        fragPos := fragPos + bufLength;
        var lastDesc := fragPos == frag.len && lastFragment;
        var descRead := Data(Low(bufLogicalAddress), High(bufLogicalAddress), bufLength, insertTag,
                             lastDesc, 0, Disabled, false, lastDesc);
        assert c == [descRead] + Chunks(frag, fragPos, lastFragment, insertTag);
        next := Put(descRead, next, m);
        m := m + [descRead];
      }
      assert all == m;
    }

    /** A segmentation packet: false, and nothing queued, if there is not room
        for all it may need; otherwise its run is queued and the sticky values
        are updated. */
    method QueueGso(pktIndex: nat, descIndex: nat, ghost k: nat, ghost l: seq<TxDesc>) returns (fits: bool, next: nat)
      requires Filling(l, descIndex) && returned <= k < |jobs| && pktIndex == Wrap(k, |packets|)
      requires !jobs[k].pkt.ignore && jobs[k].pkt.mss != 0
      modifies descVirtual, `current, `done, `lastMss, `lastVlanTag
      ensures fits <==> Need(jobs[k], configured, old(Sticky(lastMss, lastVlanTag))) <= Room(l)
      ensures !fits ==> Filling(l, next) && next == descIndex && lastMss == old(lastMss) && lastVlanTag == old(lastVlanTag)
      ensures fits ==> JobOk(jobs[k]) && Filling(l + RunOf(jobs[k], configured, old(Sticky(lastMss, lastVlanTag))), next)
      ensures fits ==> Sticky(lastMss, lastVlanTag) == StickyAfter(jobs[k], configured, old(Sticky(lastMss, lastVlanTag)))
    {
      hide Wrap, Holds, RingMemory.AllStored, StreamOf, GsoData, Chunks, UserDescriptors, TotalLength, VlanTag, PlainOk;
      PacketAt(k);
      ghost var j := jobs[k];
      ghost var st := Sticky(lastMss, lastVlanTag);
      var pkt := packets[pktIndex];
      var fragIndex := pkt.fragIndex;
      var fragmentCount := pkt.fragCount;
      var vlanTag := VlanTag(pkt, configured);
      var insertTag := vlanTag != 0;
      var contextTagNeeded := vlanTag != 0 && vlanTag != lastVlanTag;
      var headerLength := pkt.l2 + pkt.l3 + pkt.l4;
      var packetLength, userDescriptorsNeeded := MeasureFragments(fragIndex, fragmentCount, k);
      var contextMssNeeded := pkt.mss != lastMss;
      var contextNeeded := contextTagNeeded || contextMssNeeded;

      RoomIs(l, descIndex);
      if userDescriptorsNeeded + (if contextNeeded then 1 else 0) + 1 > EmptyRemaining(descBegin, descIndex, descCount) {
        // There is no room for the packet yet.
        return false, descIndex;
      }
      RunFitsReservation(j, configured, st);
      fits := true;
      next := PutGsoContext(pkt, vlanTag, contextTagNeeded, contextNeeded, descIndex, k, l);
      next := PutGsoPacket(pkt, insertTag, headerLength, packetLength, next, k, l + ContextFor(j, configured, st));
      assert l + RunOf(j, configured, st)
          == (l + ContextFor(j, configured, st)) + ([TsoHeader(j, insertTag)] + GsoData(j.frags, headerLength, insertTag));
    }

    // The context descriptor of a segmentation packet.
    method PutGsoContext(pkt: Packet, vlanTag: nat, contextTagNeeded: bool, contextNeeded: bool, descIndex: nat,
                         ghost k: nat, ghost l: seq<TxDesc>)
      returns (next: nat)
      requires Filling(l, descIndex) && k < |jobs| && pkt == jobs[k].pkt && !pkt.ignore && pkt.mss != 0
      requires vlanTag == VlanTag(pkt, configured)
      requires contextTagNeeded == TagNeeded(vlanTag, Sticky(lastMss, lastVlanTag))
      requires contextNeeded == (contextTagNeeded || pkt.mss != lastMss)
      requires |ContextFor(jobs[k], configured, Sticky(lastMss, lastVlanTag))| <= Room(l)
      modifies descVirtual, `current, `done, `lastMss, `lastVlanTag
      ensures Filling(l + ContextFor(jobs[k], configured, old(Sticky(lastMss, lastVlanTag))), next)
      ensures Sticky(lastMss, lastVlanTag) == StickyAfter(jobs[k], configured, old(Sticky(lastMss, lastVlanTag)))
    {
      hide Wrap, Filling, VlanTag;
      next := descIndex;
      if contextNeeded {
        var descCtx := Context(pkt.mss, vlanTag, contextTagNeeded, true);
        next := Put(descCtx, next, l);
        lastMss := pkt.mss;
        if contextTagNeeded {
          lastVlanTag := vlanTag;
        }
      } else {
        assert l + [] == l;
      }
    }

    // Its header descriptor and its payload.
    method PutGsoPacket(pkt: Packet, insertTag: bool, headerLength: nat, packetLength: nat, descIndex: nat,
                        ghost k: nat, ghost l: seq<TxDesc>)
      returns (next: nat)
      requires Filling(l, descIndex) && returned <= k < |jobs|
      requires pkt == jobs[k].pkt && !pkt.ignore && pkt.mss != 0
      requires headerLength == HeaderLength(pkt) && packetLength == TotalLength(jobs[k].frags)
      requires GsoOk(jobs[k]) && 1 + |GsoData(jobs[k].frags, headerLength, insertTag)| <= Room(l)
      modifies descVirtual, `current, `done
      ensures Filling(l + ([TsoHeader(jobs[k], insertTag)] + GsoData(jobs[k].frags, headerLength, insertTag)), next)
    {
      hide Wrap, Holds, RingMemory.AllStored, StreamOf, GsoData, UserDescriptors, TotalLength;
      PacketAt(k);
      ghost var j := jobs[k];
      var frag0 := fragments[pkt.fragIndex];
      var descTso := Tso(Low(frag0.addr), High(frag0.addr), headerLength, insertTag,
                         if packetLength < headerLength then 0 else packetLength - headerLength, pkt.l4 / 4);
      assert descTso == TsoHeader(j, insertTag);
      next := Put(descTso, descIndex, l);
      next := PutGsoData(pkt.fragIndex, pkt.fragCount, headerLength, insertTag, next, k, l + [descTso]);
      assert (l + [descTso]) + GsoData(j.frags, headerLength, insertTag)
          == l + ([descTso] + GsoData(j.frags, headerLength, insertTag));
    }

    // What is left to be written, one fragment further on.
    lemma GsoRest(m: seq<TxDesc>, frags: seq<Fragment>, i: nat, skip: nat, insertTag: bool)
      requires i < |frags| && skip <= frags[i].len
      ensures m + GsoData(frags[i..], skip, insertTag)
           == m + Chunks(frags[i], skip, i == |frags| - 1, insertTag) + GsoData(frags[i + 1..], 0, insertTag)
    {
      assert frags[i..][0] == frags[i] && frags[i..][1..] == frags[i + 1..];
      AppendAppend(m, Chunks(frags[i], skip, i == |frags| - 1, insertTag), GsoData(frags[i + 1..], 0, insertTag));
    }

    // The loop over the fragments of a segmentation packet.
    method PutGsoData(first: nat, fragmentCount: nat, headerLength: nat, insertTag: bool, descIndex: nat, ghost k: nat, ghost l: seq<TxDesc>)
      returns (next: nat)
      requires Filling(l, descIndex) && returned <= k < |jobs|
      requires first == jobs[k].pkt.fragIndex && fragmentCount == |jobs[k].frags| && fragmentCount > 0
      requires headerLength <= jobs[k].frags[0].len
      requires |GsoData(jobs[k].frags, headerLength, insertTag)| <= Room(l)
      modifies descVirtual, `current, `done
      ensures Filling(l + GsoData(jobs[k].frags, headerLength, insertTag), next)
    {
      hide Wrap, Holds, StreamOf, Chunks, GsoData;
      assert InRings().Stored(k, fragsReturned);
      ghost var frags := jobs[k].frags;
      ghost var all := l + GsoData(frags, headerLength, insertTag);
      ghost var m := l;
      var fragIndex := first;
      var nextFragmentStart := headerLength;
      next := descIndex;
      assert frags[0..] == frags;
      for i := 0 to fragmentCount
        invariant fragIndex == Wrap(at[k] + i, |fragments|)
        invariant Filling(m, next)
        invariant i < fragmentCount ==> nextFragmentStart <= frags[i].len
        invariant nextFragmentStart == if i == 0 then headerLength else 0
        invariant all == m + GsoData(frags[i..], nextFragmentStart, insertTag)
        invariant |all| - |l| <= Room(l) && Room(all) >= 0
      {
        var fragPos := nextFragmentStart; // The headers lie at the front of the first fragment,
        nextFragmentStart := 0;           // and only there.
        var frag := fragments[fragIndex];
        assert frag == frags[i];
        GsoRest(m, frags, i, fragPos, insertTag);
        ghost var c := Chunks(frag, fragPos, i == fragmentCount - 1, insertTag);
        next := PutFragment(frag, fragPos, i == fragmentCount - 1, insertTag, next, m);
        m := m + c;
        SlotAfter(at[k] + i, 1, |fragments|);
        fragIndex := Wrap(fragIndex + 1, |fragments|);
      }
      NoFragments(nextFragmentStart, insertTag);
      assert all == m;
    }

    /** The same for a packet without segmentation. */
    method QueuePlain(pktIndex: nat, descIndex: nat, ghost k: nat, ghost l: seq<TxDesc>) returns (fits: bool, next: nat)
      requires Filling(l, descIndex) && returned <= k < |jobs| && pktIndex == Wrap(k, |packets|)
      requires !jobs[k].pkt.ignore && jobs[k].pkt.mss == 0
      modifies descVirtual, `current, `done, `lastMss, `lastVlanTag
      ensures fits <==> Need(jobs[k], configured, old(Sticky(lastMss, lastVlanTag))) <= Room(l)
      ensures !fits ==> Filling(l, next) && next == descIndex && lastMss == old(lastMss) && lastVlanTag == old(lastVlanTag)
      ensures fits ==> JobOk(jobs[k]) && Filling(l + RunOf(jobs[k], configured, old(Sticky(lastMss, lastVlanTag))), next)
      ensures fits ==> Sticky(lastMss, lastVlanTag) == StickyAfter(jobs[k], configured, old(Sticky(lastMss, lastVlanTag)))
    {
      hide Wrap, Holds, RingMemory.AllStored, StreamOf, UserDescriptors, TotalLength, VlanTag, PlainDesc, GsoOk;
      PacketAt(k);
      ghost var j := jobs[k];
      ghost var st := Sticky(lastMss, lastVlanTag);
      var pkt := packets[pktIndex];
      var fragIndex := pkt.fragIndex;
      var fragmentCount := pkt.fragCount;
      var vlanTag := VlanTag(pkt, configured);
      var insertTag := vlanTag != 0;
      var contextTagNeeded := vlanTag != 0 && vlanTag != lastVlanTag;
      var checksumInsertion := if pkt.checksumL4 then IncludingPseudo else if pkt.checksumL3 then HeaderOnly else Disabled;

      RoomIs(l, descIndex);
      if fragmentCount + (if contextTagNeeded then 1 else 0) > EmptyRemaining(descBegin, descIndex, descCount) {
        // There is no room for the packet yet.
        return false, descIndex;
      }
      fits, next := true, descIndex;
      ghost var m := l;
      if contextTagNeeded {
        var descCtx := Context(0, vlanTag, true, false);
        next := Put(descCtx, next, m);
        m := m + [descCtx];
        lastVlanTag := vlanTag;
      }
      assert m == l + ContextFor(j, configured, st);
      var frameLength, _ := MeasureFragments(fragIndex, fragmentCount, k);
      next := PutPlainData(fragIndex, fragmentCount, frameLength, checksumInsertion, insertTag, next, k, m);
      assert m + PlainData(j, insertTag) == l + RunOf(j, configured, st);
    }

    method PutPlainData(first: nat, fragmentCount: nat, frameLength: nat, checksum: Checksum, insertTag: bool, descIndex: nat,
                        ghost k: nat, ghost l: seq<TxDesc>)
      returns (next: nat)
      requires Filling(l, descIndex) && returned <= k < |jobs|
      requires first == jobs[k].pkt.fragIndex && fragmentCount == |jobs[k].frags|
      requires frameLength == TotalLength(jobs[k].frags) && checksum == ChecksumOf(jobs[k].pkt)
      requires fragmentCount <= Room(l)
      modifies descVirtual, `current, `done
      ensures Filling(l + PlainData(jobs[k], insertTag), next)
    {
      hide Wrap, Holds, StreamOf, TotalLength;
      assert InRings().Stored(k, fragsReturned);
      ghost var p := PlainData(jobs[k], insertTag);
      ghost var m := l;
      var fragIndex := first;
      next := descIndex;
      for i := 0 to fragmentCount
        invariant fragIndex == Wrap(at[k] + i, |fragments|)
        invariant Filling(m, next)
        invariant m == l + p[..i]
      {
        var frag := fragments[fragIndex];
        var descRead := Data(Low(frag.addr), High(frag.addr), frag.len, insertTag, i == fragmentCount - 1, frameLength,
                             checksum, i == 0, i == fragmentCount - 1);
        assert descRead == p[i] == PlainDesc(jobs[k], i, insertTag);
        next := Put(descRead, next, m);
        m := m + [descRead];
        SlotAfter(at[k] + i, 1, |fragments|);
        fragIndex := Wrap(fragIndex + 1, |fragments|);
      }
      assert p[..fragmentCount] == p;
    }

    // One packet of the fill loop.
    method QueuePacket(pktIndex: nat, descIndex: nat, ghost k: nat, ghost l: seq<TxDesc>) returns (fits: bool, next: nat)
      requires Filling(l, descIndex) && returned <= k < |jobs| && pktIndex == Wrap(k, |packets|)
      modifies descVirtual, `current, `done, `lastMss, `lastVlanTag
      ensures fits <==> jobs[k].pkt.ignore || Need(jobs[k], configured, old(Sticky(lastMss, lastVlanTag))) <= Room(l)
      ensures !fits ==> Filling(l, next) && next == descIndex && lastMss == old(lastMss) && lastVlanTag == old(lastVlanTag)
      ensures fits ==> JobOk(jobs[k]) && Filling(l + RunOf(jobs[k], configured, old(Sticky(lastMss, lastVlanTag))), next)
      ensures fits ==> Sticky(lastMss, lastVlanTag) == StickyAfter(jobs[k], configured, old(Sticky(lastMss, lastVlanTag)))
    {
      hide Wrap, Holds, RingMemory.AllStored, StreamOf, Need, GsoOk, PlainOk, ContextFor;
      PacketAt(k);
      var pkt := packets[pktIndex];
      if pkt.ignore {
        assert l + [] == l;
        return true, descIndex;
      }
      if pkt.mss != 0 { // segmentation offload enabled
        fits, next := QueueGso(pktIndex, descIndex, k, l);
      } else {
        fits, next := QueuePlain(pktIndex, descIndex, k, l);
      }
    }

    // The list of packets at which the fill loop may stop.
    ghost predicate NoRoomFor(k: nat, l: seq<TxDesc>)
      reads `jobs, `head, `lastMss, `lastVlanTag
    {
      k < |jobs| ==>
        Room(l) == 0 || (!jobs[k].pkt.ignore && Need(jobs[k], configured, Sticky(lastMss, lastVlanTag)) > Room(l))
    }

    // The state of the fill loop in front of packet k.
    ghost predicate Filled(k: nat, l: seq<TxDesc>, descIndex: nat)
      reads `jobs, `at, `packets, `fragments, `fragsReturned, `fragsSupplied, `returned, `queued
      reads `packetBegin, `packetNext, `packetEnd, `fragmentBegin, `fragmentEnd
      reads `head, `done, `descBegin, `descEnd, `current, descVirtual, `lastMss, `lastVlanTag
    {
      && Filling(l, descIndex)
      && queued <= k <= |jobs|
      && StreamOf(jobs[..k], configured) == Stream(l, Sticky(lastMss, lastVlanTag))
      && (|l| == At(queued) <==> AllIgnored(queued, k))
    }

    // No packet from `from` up to `to` is to be sent.
    ghost predicate AllIgnored(from: nat, to: nat)
      reads `jobs
      requires to <= |jobs|
    {
      forall i | from <= i < to :: jobs[i].pkt.ignore
    }

    // The first packet from `from` on that is to be sent.
    ghost predicate IsFirstToSend(from: nat, k: nat)
      reads `jobs
    {
      from <= k < |jobs| && !jobs[k].pkt.ignore && AllIgnored(from, k)
    }

    // If that packet has been passed, it had been given what it needs.
    ghost predicate FirstFitted(from: nat, to: nat, st: Sticky, room: int)
      reads `jobs
    {
      forall k: nat | IsFirstToSend(from, k) && k < to :: Need(jobs[k], configured, st) <= room
    }

    lemma FilledNext(k: nat, l: seq<TxDesc>, st: Sticky)
      requires JobsOk(jobs) && k < |jobs| && StreamOf(jobs[..k], configured) == Stream(l, st)
      ensures JobOk(jobs[k])
      ensures StreamOf(jobs[..k + 1], configured)
           == Stream(l + RunOf(jobs[k], configured, st), StickyAfter(jobs[k], configured, st))
      ensures |RunOf(jobs[k], configured, st)| > 0 <==> !jobs[k].pkt.ignore
    {
      hide StreamOf;
      assert jobs[k] in jobs;
      StreamStep(jobs, configured, k);
      if !jobs[k].pkt.ignore { RunShape(jobs[k], configured, st); }
    }

    // One turn of the fill loop: false if it has to stop in front of packet k.
    method FillOne(pktIndex: nat, descIndex: nat, ghost k: nat, ghost l: seq<TxDesc>, ghost st0: Sticky)
      returns (more: bool, next: nat, ghost l': seq<TxDesc>)
      requires Filled(k, l, descIndex) && |packets| > 0 && pktIndex == Wrap(k, |packets|)
      requires st0 == StreamOf(jobs[..queued], configured).sticky && FirstFitted(queued, k, st0, Room(Log(queued)))
      modifies descVirtual, `current, `done, `lastMss, `lastVlanTag
      ensures more ==> k < |jobs| && Filled(k + 1, l', next) && FirstFitted(queued, k + 1, st0, Room(Log(queued)))
      ensures !more ==> Filled(k, l', next) && NoRoomFor(k, l')
    {
      hide Wrap, Rings, RunOf, StreamOf, HoldsFrom, Need, StickyAfter;
      l', next := l, descIndex;
      RoomIs(l, descIndex);
      if EmptyRemaining(descBegin, descIndex, descCount) == 0 {
        return false, next, l';
      }
      RingFacts();
      if pktIndex == packetEnd {
        return false, next, l';
      }
      ghost var st := Sticky(lastMss, lastVlanTag);
      FilledNext(k, l, st);
      FirstIsNext(k, l, descIndex, st0);
      more, next := QueuePacket(pktIndex, descIndex, k, l);
      if more {
        l' := l + RunOf(jobs[k], configured, st);
      }
    }

    // If packet k is the first to send, nothing has been written before it.
    lemma FirstIsNext(k: nat, l: seq<TxDesc>, descIndex: nat, st0: Sticky)
      requires Filled(k, l, descIndex) && st0 == StreamOf(jobs[..queued], configured).sticky
      ensures IsFirstToSend(queued, k) ==> l == Log(queued) && Sticky(lastMss, lastVlanTag) == st0
    {
      hide Wrap, RunOf, StreamOf, HoldsFrom, Need, StickyAfter;
      if IsFirstToSend(queued, k) { SkippedStream(queued, k); }
    }

    lemma NothingPassed()
      requires JobsOk(jobs) && queued <= |jobs|
      ensures AllIgnored(queued, queued)
      ensures FirstFitted(queued, queued, Sticky(lastMss, lastVlanTag), Room(Log(queued)))
    {}

    /** The second half of TxQueueAdvance.  Packets get their descriptors in
        order until there are no more or the next does not fit; then the tail
        pointer and the packet ring move together, exactly if a packet that is to
        be sent was passed. */
    method FillDescriptors() returns (ghost stop: nat)
      requires Valid()
      modifies descVirtual, `current, `done, `lastMss, `lastVlanTag, `descEnd, `queued, `packetNext
      ensures Valid()
      ensures old(queued) <= queued <= stop <= |jobs|
      ensures queued == stop <==> stop == old(queued) || !AllIgnored(old(queued), stop)
      ensures queued == stop || (queued == old(queued) && At(queued) == old(At(queued)))
      ensures NoRoomFor(stop, Log(queued))
      ensures FirstFitted(old(queued), stop, old(Sticky(lastMss, lastVlanTag)), old(Room(Log(queued))))
    {
      hide Wrap, Rings, RunOf, StreamOf, HoldsFrom, Need, StickyAfter, NoRoomFor, FirstFitted, AllIgnored;
      var descIndex := descEnd;
      var pktIndex := packetNext;
      RingFacts();
      NothingPassed();
      ghost var st0 := Sticky(lastMss, lastVlanTag);
      ghost var k := queued;
      ghost var l := Log(queued);
      var more := true;
      while more
        invariant Filled(k, l, descIndex) && queued == old(queued)
        invariant |packets| > 0 && pktIndex == Wrap(k, |packets|)
        invariant FirstFitted(queued, k, st0, Room(Log(queued)))
        invariant !more ==> NoRoomFor(k, l)
        decreases |jobs| - k, more
      {
        more, descIndex, l := FillOne(pktIndex, descIndex, k, l, st0);
        if more {
          SlotAfter(k, 1, |packets|);
          pktIndex := Wrap(pktIndex + 1, |packets|);
          k := k + 1;
        }
      }
      stop := k;
      Publish(pktIndex, descIndex, k, l);
    }

    lemma RingFacts()
      requires Rings()
      ensures JobsOk(jobs) && |packets| > 0 && packetNext == Wrap(queued, |packets|)
      ensures returned <= queued <= |jobs| < returned + |packets|
      ensures forall k | returned <= k <= |jobs| :: Wrap(k, |packets|) == packetEnd <==> k == |jobs|
    {
      hide Wrap;
      forall k | returned <= k <= |jobs| ensures Wrap(k, |packets|) == packetEnd <==> k == |jobs| {
        SlotsDistinct(k, |jobs|, |packets|);
      }
    }

    // SetDescEnd and the new NextIndex, if anything was written.
    method Publish(pktIndex: nat, descIndex: nat, ghost k: nat, ghost l: seq<TxDesc>)
      requires Filled(k, l, descIndex) && InRun(returned, head) && pktIndex == Wrap(k, |packets|)
      modifies `descEnd, `queued, `packetNext
      ensures Valid()
      ensures |l| > old(At(queued)) ==> queued == k
      ensures |l| == old(At(queued)) ==> queued == old(queued)
      ensures Log(queued) == l
    {
      hide Wrap, RunOf, StreamOf, HoldsFrom, RingMemory.AllStored, JobOk, HasPayload;
      SlotsDistinct(At(queued), |l|, descCount);
      if descIndex != descEnd {
        descEnd := descIndex;
        packetNext := pktIndex;
        queued := k;
        if returned < queued && !jobs[returned].pkt.ignore { RunNotEmpty(returned); }
      } else {
        SkippedStream(queued, k);
      }
    }

    lemma {:induction false} SkippedStream(k: nat, k': nat)
      requires JobsOk(jobs) && k <= k' <= |jobs| && AllIgnored(k, k')
      ensures StreamOf(jobs[..k'], configured) == StreamOf(jobs[..k], configured)
      decreases k'
    {
      if k < k' {
        SkippedStream(k, k' - 1);
        StreamStep(jobs, configured, k' - 1);
      }
    }

    /** One call of the queue's advance callback: whatever the engine does
        meanwhile, the invariant holds.  NextIndex moves to where filling stopped
        exactly if a packet that is to be sent was passed on the way.  An engine
        that has finished everything gets the next packet that is to be sent, if
        and only if it fits an empty ring of this size; a packet that does not is
        never passed. */
    method TxQueueAdvance() returns (ghost stop: nat)
      requires Valid()
      modifies descVirtual, `current, `done, `head, `returned, `fragsReturned, `descBegin, `packetBegin, `fragmentBegin
      modifies `lastMss, `lastVlanTag, `descEnd, `queued, `packetNext
      ensures Valid()
      ensures old(returned) <= returned && old(queued) <= queued <= stop <= |jobs|
      ensures old(done) <= head
      ensures queued == stop <==> stop == old(queued) || !AllIgnored(old(queued), stop)
      ensures queued == stop || queued == old(queued)
      ensures NoRoomFor(stop, Log(queued))
      ensures forall k: nat | IsFirstToSend(old(queued), k) ::
                var fits := FitsEmptyRing(jobs[k], configured, old(Sticky(lastMss, lastVlanTag)), descCount);
                (queued > old(queued) ==> fits) && (fits && old(done) == old(At(queued)) ==> queued > old(queued))
    {
      hide Wrap, Rings, RunOf, StreamOf, HoldsFrom, StickyAfter, Need, NoRoomFor, FirstFitted, InRun, Log;
      RingFacts();
      ghost var idle, st, from := done == At(queued), Sticky(lastMss, lastVlanTag), queued;
      RetireCompleted();
      RingFacts();
      ghost var room := Room(Log(queued));
      assert room <= descCount - 1;
      stop := FillDescriptors();
      RingFacts();
      forall k: nat | IsFirstToSend(from, k)
        ensures queued > from ==> FitsEmptyRing(jobs[k], configured, st, descCount)
        ensures FitsEmptyRing(jobs[k], configured, st, descCount) && idle ==> queued > from
      {
        FirstFits(from, stop, k, st, room, idle);
      }
    }

    // The first packet to send is passed only if it fits an empty ring, and
    // always if it does and the ring is empty.
    lemma FirstFits(from: nat, stop: nat, k: nat, st: Sticky, room: int, idle: bool)
      requires Valid() && IsFirstToSend(from, k) && from <= queued <= stop <= |jobs|
      requires queued == stop <==> stop == from || !AllIgnored(from, stop)
      requires queued == stop || queued == from
      requires NoRoomFor(stop, Log(queued)) && FirstFitted(from, stop, st, room) && room <= descCount - 1
      requires idle && queued == from ==> head == At(queued) && st == Sticky(lastMss, lastVlanTag)
      ensures queued > from ==> FitsEmptyRing(jobs[k], configured, st, descCount)
      ensures FitsEmptyRing(jobs[k], configured, st, descCount) && idle ==> queued > from
    {
      hide Wrap, Rings, RunOf, StreamOf, HoldsFrom, Need, Log;
      if queued > from {
        assert k < stop;
      }
    }

    // A packet is due that no empty ring of this size has room for.
    ghost predicate Starved(k: nat)
      reads `jobs, `queued, `lastMss, `lastVlanTag
    {
      IsFirstToSend(queued, k) && !FitsEmptyRing(jobs[k], configured, Sticky(lastMss, lastVlanTag), descCount)
    }

    /** A starved queue stays so: whatever the engine and the framework do, and
        however often the queue is advanced, NextIndex does not move again. */
    method StaysStarved(calls: seq<Call>, ghost k: nat)
      requires Valid() && Starved(k)
      modifies this, descVirtual
      ensures Valid() && Starved(k) && queued == old(queued) && old(jobs) <= jobs
    {
      hide Starved;
      for i := 0 to |calls|
        invariant Valid() && Starved(k) && queued == old(queued) && old(jobs) <= jobs
      {
        OneCall(calls[i], k);
      }
    }

    // The packet is one the framework may hand over, and there is room for it in
    // its part of the rings.
    predicate IsFree(pkt: Packet, frags: seq<Fragment>)
      reads `packets, `packetBegin, `packetEnd, `fragments, `fragmentBegin, `fragmentEnd
      requires |packets| > 0 && |fragments| > 0
    {
      && JobOk(Job(pkt, frags)) && HasPayload(Job(pkt, frags)) && pkt.fragIndex == fragmentEnd
      && Distance(packetBegin, packetEnd, |packets|) + 1 < |packets|
      && Distance(fragmentBegin, fragmentEnd, |fragments|) + |frags| < |fragments|
    }

    lemma RingsSized()
      requires Rings()
      ensures |packets| > 0 && |fragments| > 0
    {}

    lemma RoomInRings(pkt: Packet, frags: seq<Fragment>)
      requires Rings() && IsFree(pkt, frags)
      ensures |jobs| + 1 < returned + |packets|
      ensures fragsSupplied + |frags| < fragsReturned + |fragments|
    {
      hide Wrap, Distance, RingMemory.AllStored;
      DistanceIs(returned, |jobs|, |packets|);
      DistanceIs(fragsReturned, fragsSupplied, |fragments|);
    }

    lemma FirstLater(was: seq<Job>, j: Job, k: nat)
      requires jobs == was + [j] && queued <= k < |was| && !was[k].pkt.ignore
      requires forall i | queued <= i < k :: was[i].pkt.ignore
      ensures IsFirstToSend(queued, k) && jobs[k] == was[k]
    {}

    method EngineStep()
      requires Valid()
      modifies descVirtual, `current, `done
      ensures Valid()
    {
      hide Wrap, RunOf, StreamOf, JobOk, HasPayload, HoldsFrom, RingMemory.AllStored, Log;
      DeviceStep(Log(queued));
    }

    method OneCall(call: Call, ghost k: nat)
      requires Valid() && Starved(k)
      modifies this, descVirtual
      ensures Valid() && Starved(k) && queued == old(queued) && old(jobs) <= jobs
    {
      hide Wrap, Rings, Holds, InRun, StreamOf, NoRoomFor, FitsEmptyRing, Log, JobOk, HasPayload;
      match call
      case Advance =>
        var stop := TxQueueAdvance();
      case Release => EngineStep();
      case HandOver(pkt, frags) =>
        RingsSized();
        if IsFree(pkt, frags) {
          RoomInRings(pkt, frags);
          Supply(pkt, frags);
          FirstLater(old(jobs), Job(pkt, frags), k);
        }
    }

    // ----------------------------------------------------- the framework's side

    // TxQueueStart, on rings the framework has just set up.
    constructor (fragmentCount: nat, packetRing: nat, fragmentRing: nat, vlan: vlanId)
      requires packetRing > 0 && fragmentRing > 0
      ensures Valid() && jobs == [] && queued == 0 && fragsReturned == fragsSupplied == 0 && fresh(descVirtual)
      ensures |packets| == packetRing && |fragments| == fragmentRing && fragmentEnd == 0
      ensures descCount == QueueDescriptorCount(fragmentCount)
      ensures configured == vlan && Sticky(lastMss, lastVlanTag) == StartSticky
    {
      DescriptorCountIsLeast(fragmentCount, 0);
      descCount := QueueDescriptorCount(fragmentCount);
      descVirtual := new Slot[QueueDescriptorCount(fragmentCount)](_ => Slot(Context(0, 0, false, false), false));
      configured := vlan;
      lastMss := UNKNOWN_MSS;
      lastVlanTag := 0;
      descBegin, descEnd, current := 0, 0, 0;
      packets := seq(packetRing, _ => Packet(true, 0, 0, false, 0, false, 0, 0, 0, 0, 0, false, false));
      fragments := seq(fragmentRing, _ => Fragment(0, 0));
      packetBegin, packetNext, packetEnd := 0, 0, 0;
      fragmentBegin, fragmentEnd := 0, 0;
      jobs, at := [], [];
      returned, queued, fragsReturned, fragsSupplied, head, done := 0, 0, 0, 0, 0, 0;
    }

    /** NetAdapterCx hands over a packet and its fragments, in the part of the
        rings it owns. */
    method Supply(pkt: Packet, frags: seq<Fragment>)
      requires Valid()
      requires JobOk(Job(pkt, frags)) && HasPayload(Job(pkt, frags))
      requires pkt.fragIndex == fragmentEnd
      requires |jobs| + 1 < returned + |packets|
      requires fragsSupplied + |frags| < fragsReturned + |fragments|
      modifies `packets, `packetEnd, `fragments, `fragmentEnd, `jobs, `at, `fragsSupplied
      ensures Valid() && |packets| == |old(packets)|
      ensures jobs == old(jobs) + [Job(pkt, frags)]
    {
      hide Wrap, RunOf, StreamOf, JobOk, HasPayload, HoldsFrom, RingMemory.AllStored, RingMemory.Extends;
      ghost var was, l := InRings(), Log(queued);
      WriteSupply(pkt, frags);
      ExtendedRings(was, pkt, frags);
      JobsLater(was.jobs, Job(pkt, frags));
      PrefixLater(was.jobs, Job(pkt, frags), queued);
      PrefixLater(was.jobs, Job(pkt, frags), returned);
      if returned < queued { PrefixLater(was.jobs, Job(pkt, frags), returned + 1); }
      InRings().ExtendsStored(was, pkt, frags, returned, fragsReturned);
    }

    lemma ExtendedRings(was: RingMemory, pkt: Packet, frags: seq<Fragment>)
      requires was.Sized() && InRings().Sized() && InRings().Extends(was, pkt, frags, fragsReturned)
      ensures |packets| == |was.packets| && |fragments| == |was.fragments|
      ensures jobs == was.jobs + [Job(pkt, frags)] && fragsSupplied == was.fragsSupplied + |frags|
    {}

    method WriteSupply(pkt: Packet, frags: seq<Fragment>)
      requires InRings().Sized() && packetEnd == Wrap(|jobs|, |packets|) && fragmentEnd == Wrap(fragsSupplied, |fragments|)
      requires pkt.fragIndex == fragmentEnd
      requires fragsReturned <= fragsSupplied && fragsSupplied + |frags| < fragsReturned + |fragments|
      modifies `packets, `packetEnd, `fragments, `fragmentEnd, `jobs, `at, `fragsSupplied
      ensures InRings().Sized() && InRings().Extends(old(InRings()), pkt, frags, fragsReturned)
      ensures packetEnd == Wrap(|jobs|, |packets|) && fragmentEnd == Wrap(fragsSupplied, |fragments|)
    {
      hide Wrap;
      var end := WriteFragments(frags);
      fragmentEnd := end;
      packets := packets[packetEnd := pkt];
      SlotAfter(|jobs|, 1, |packets|);
      packetEnd := Wrap(packetEnd + 1, |packets|);
      at := at + [fragsSupplied];
      fragsSupplied := fragsSupplied + |frags|;
      jobs := jobs + [Job(pkt, frags)];
    }

    // Nothing that was said about earlier packets changes with one more.
    lemma JobsLater(was: seq<Job>, j: Job)
      requires jobs == was + [j] && JobsOk(was) && JobOk(j) && HasPayload(j)
      requires forall k | k in was :: HasPayload(k)
      ensures JobsGood() && JobsOk(jobs)
    {}

    lemma PrefixLater(was: seq<Job>, j: Job, k: nat)
      requires jobs == was + [j] && k <= |was|
      ensures jobs[..k] == was[..k]
    {}

    // The framework fills the fragments from its end index on.
    method WriteFragments(frags: seq<Fragment>) returns (end: nat)
      requires |fragments| > 0 && fragmentEnd == Wrap(fragsSupplied, |fragments|)
      requires fragsReturned <= fragsSupplied && fragsSupplied + |frags| < fragsReturned + |fragments|
      modifies `fragments
      ensures |fragments| == |old(fragments)| && end == Wrap(fragsSupplied + |frags|, |fragments|)
      ensures forall m | 0 <= m < |frags| :: fragments[Wrap(fragsSupplied + m, |fragments|)] == frags[m]
      ensures forall m | fragsReturned <= m < fragsSupplied ::
                fragments[Wrap(m, |fragments|)] == old(fragments)[Wrap(m, |fragments|)]
    {
      hide Wrap;
      ghost var start := fragsSupplied;
      end := fragmentEnd;
      for i := 0 to |frags|
        invariant |fragments| == |old(fragments)| && end == Wrap(start + i, |fragments|)
        invariant forall m | 0 <= m < i :: fragments[Wrap(start + m, |fragments|)] == frags[m]
        invariant forall m | fragsReturned <= m < start ::
                    fragments[Wrap(m, |fragments|)] == old(fragments)[Wrap(m, |fragments|)]
      {
        forall m | fragsReturned <= m < start + i ensures Wrap(m, |fragments|) != end {
          SlotsDistinct(m, start + i, |fragments|);
        }
        fragments := fragments[end := frags[i]];
        SlotAfter(start + i, 1, |fragments|);
        end := Wrap(end + 1, |fragments|);
      }
    }

    // ------------------------------------------------- what the invariant says

    lemma {:induction false} AtMonotone(j: nat, k: nat)
      requires JobsOk(jobs) && j <= k <= queued <= |jobs|
      ensures At(j) <= At(k)
    {
      StreamPrefix(jobs, configured, j, k);
    }

    /** A packet that is not ignored has gone back to the framework exactly when
        its whole run has been retired, and then the engine has released every
        descriptor of it.  As packets go back in ring order, they go back once
        and first in, first out. */
    lemma ReturnedExactlyWhenRetired(k: nat)
      requires Valid() && k < queued && !jobs[k].pkt.ignore
      ensures k < returned <==> At(k + 1) <= head
      ensures k < returned ==> At(k + 1) <= done
    {
      hide Wrap, RunOf, StreamOf, HoldsFrom, RingMemory.AllStored;
      RunNotEmpty(k);
      if k < returned {
        AtMonotone(k + 1, returned);
      } else if returned < k {
        AtMonotone(returned + 1, k);
        AtMonotone(returned, returned + 1);
      }
    }

    /** The slots from descBegin up to descEnd are exactly the part not yet
        retired of the runs of the packets from BeginIndex to NextIndex, in
        order, and a slot is owned by the engine exactly if the engine has not
        come to it. */
    lemma TransmitRegionIsSuffix(i: nat)
      requires Valid() && i < Distance(descBegin, descEnd, descCount)
      ensures At(returned) <= head && Distance(descBegin, descEnd, descCount) == At(queued) - head
      ensures descVirtual.Length == descCount
      ensures descVirtual[Wrap(descBegin + i, descCount)] == Slot(Log(queued)[head + i], head + i >= done)
    {
      hide Wrap, RunOf, StreamOf, RingMemory.AllStored, Distance;
      RingFacts();
      if returned < queued { AtMonotone(returned, queued); }
      DistanceIs(head, At(queued), descCount);
      SlotAfter(head, i, descCount);
    }

    lemma FirstTwoIndexes()
      requires Rings() && queued == 0 && |jobs| == 1 && |packets| > 2
      ensures packetBegin == packetNext == 0 && packetEnd == 1
    {
      hide Wrap, RingMemory.AllStored;
      WrapSmall(0, |packets|);
      WrapSmall(1, |packets|);
    }
  }

  // What may happen to a queue: a call of the advance callback, a step of the
  // engine, or a packet that the framework hands over.
  datatype Call = Advance | Release | HandOver(pkt: Packet, frags: seq<Fragment>)

  /** A packet to be ignored, alone on a started queue: after a call NextIndex is
      still in front of it, and so is BeginIndex. */
  method IgnoredPacketStays(fragmentCount: nat, packetRing: nat, fragmentRing: nat, vlan: vlanId) returns (q: TxQueue)
    requires packetRing > 2 && fragmentRing > 1
    ensures q.Valid() && |q.jobs| == 1 && q.jobs[0].pkt.ignore
    ensures q.packetBegin == q.packetNext == 0 && q.packetEnd == 1
  {
    hide TxQueue.Holds, TxQueue.InRun, TxQueue.NoRoomFor, StreamOf, JobOk, HasPayload, RunOf, FitsEmptyRing, TxQueue.Log;
    hide RingMemory.AllStored, TxQueue.IsFirstToSend, TxQueue.JobsGood, TxQueue.Rings, TxQueue.Indexes;
    q := new TxQueue(fragmentCount, packetRing, fragmentRing, vlan);
    var pkt := Packet(true, 0, 0, false, 0, false, 0, 0, 0, 0, 0, false, false);
    NothingToSend(pkt);
    q.Supply(pkt, []);
    var stop := q.TxQueueAdvance();
    q.FirstTwoIndexes();
  }

  lemma NothingToSend(pkt: Packet)
    requires pkt.ignore && pkt.fragCount == 0
    ensures JobOk(Job(pkt, [])) && HasPayload(Job(pkt, []))
  {}

  /** The long packet on a started queue of 64 descriptors: whatever happens after
      it was handed over, the queue passes nothing. */
  method LongPacketStarves(packetRing: nat, fragmentRing: nat, vlan: vlanId, calls: seq<Call>) returns (q: TxQueue)
    requires packetRing > 2 && fragmentRing > TxMaximumNumberOfFragments
    ensures q.Valid() && q.queued == 0 && q.jobs != [] && q.jobs[0] == LongPacket(TxMaximumNumberOfFragments)
  {
    hide TxQueue.Holds, TxQueue.InRun, TxQueue.NoRoomFor, JobOk, HasPayload, RunOf, FitsEmptyRing, TxQueue.Log;
    hide RingMemory.AllStored, TxQueue.JobsGood, TxQueue.Rings, TxQueue.Indexes, LongPacket;
    q := new TxQueue(QueueDescriptorMinCount, packetRing, fragmentRing, vlan);
    var j := LongPacket(TxMaximumNumberOfFragments);
    LongPacketNeverFits(vlan);
    LongPacketIsFirst();
    q.Supply(j.pkt, j.frags);
    q.StaysStarved(calls, 0);
  }

  lemma LongPacketIsFirst()
    ensures var j := LongPacket(TxMaximumNumberOfFragments);
      j.pkt.fragIndex == 0 && !j.pkt.ignore && |j.frags| == TxMaximumNumberOfFragments
    ensures QueueDescriptorCount(QueueDescriptorMinCount) == QueueDescriptorMinCount
  {
    DescriptorCountIsLeast(QueueDescriptorMinCount, 6);
  }
}
