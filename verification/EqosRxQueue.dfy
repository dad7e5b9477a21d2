/** The receive queue (rxqueue.cpp).  Every fragment the framework supplies gets
    one descriptor, and every descriptor the engine fills becomes one packet, so
    one ghost count numbers descriptors, fragments and packets alike from the
    start of the queue. */
module EqosRxQueue {
  import opened EqosQueueCommon

  // What the engine writes back: RDES3 and the packet length with its CRC.
  datatype Receipt = Receipt(packetLength: nat, errorSummary: bool, contextType: bool, first: bool, last: bool)

  // A descriptor: handed to the engine with a buffer, or written back.
  datatype RxDesc = Given(addr: nat) | Written(r: Receipt)

  datatype Fragment = Fragment(addr: nat, validLength: nat, offset: nat)
  datatype Packet = Packet(fragmentIndex: nat, fragmentCount: nat, ignore: bool)

  predicate Usable(r: Receipt) {
    !r.errorSummary && !r.contextType && r.first && r.last
  }

  // PacketLength includes the CRC (and is at least 4).
  predicate ReceiptOk(r: Receipt) { Usable(r) ==> r.packetLength >= 4 }

  function LengthOf(r: Receipt): nat
    requires ReceiptOk(r)
  {
    if Usable(r) then r.packetLength - 4 else 0
  }

  // Packet i has been filled in from what the engine wrote for fragment i.
  ghost predicate DeliveredIn(packets: seq<Packet>, fragments: seq<Fragment>, receipts: seq<Receipt>, i: nat)
    requires |packets| > 0 && |fragments| > 0
  {
    && i < |receipts| && ReceiptOk(receipts[i])
    && packets[Wrap(i, |packets|)] == Packet(Wrap(i, |fragments|), 1, !Usable(receipts[i]))
    && fragments[Wrap(i, |fragments|)].validLength == LengthOf(receipts[i])
    && fragments[Wrap(i, |fragments|)].offset == 0
  }

  lemma DeliveredLater(packets: seq<Packet>, fragments: seq<Fragment>, was: seq<Receipt>, receipts: seq<Receipt>,
                       from: nat, to: nat)
    requires |packets| > 0 && |fragments| > 0 && was <= receipts
    requires forall k | from <= k < to :: DeliveredIn(packets, fragments, was, k)
    ensures forall k | from <= k < to :: DeliveredIn(packets, fragments, receipts, k)
  {
    hide Wrap;
    forall k | from <= k < to ensures DeliveredIn(packets, fragments, receipts, k) {
      assert DeliveredIn(packets, fragments, was, k);
    }
  }

  class RxQueue {
    const descCount: nat
    const descVirtual: array<RxDesc>
    var running: bool
    var descBegin: nat
    var descEnd: nat             // also the tail pointer
    var current: nat             // Current_App_RxDesc, as an index
    var writeBack: nat           // where the engine's next write-back goes

    var packets: seq<Packet>
    var packetBegin: nat
    var packetEnd: nat
    var fragments: seq<Fragment>
    var fragmentBegin: nat
    var fragmentNext: nat
    var fragmentEnd: nat

    ghost var head: nat          // given back:        BeginIndex, descBegin
    ghost var seen: nat          // written back:      no longer owned by the engine
    ghost var done: nat          // passed by engine:  current
    ghost var tail: nat          // given to engine:   NextIndex, descEnd
    ghost var supplied: nat      // fragments:         EndIndex
    ghost var packetsSupplied: nat
    ghost var receipts: seq<Receipt>
    ghost var drained: bool

    // What descriptor i holds while it is pending: the address of fragment i
    // until the engine's write-back has become visible.
    ghost predicate Pending(i: nat)
      reads `seen, `receipts, `fragments, descVirtual
      requires descVirtual.Length > 0 && |fragments| > 0
    {
      descVirtual[Wrap(i, descVirtual.Length)]
        == if i < seen && i < |receipts| then Written(receipts[i]) else Given(fragments[Wrap(i, |fragments|)].addr)
    }

    ghost predicate Sized()
      reads `fragments, `packets
    {
      descCount >= QueueDescriptorMinCount && descVirtual.Length == descCount && |fragments| > 0 && |packets| > 0
    }

    ghost predicate Counts()
      reads `head, `seen, `done, `tail, `supplied, `packetsSupplied, `fragments, `packets, `receipts
    {
      && head <= seen <= done <= tail <= supplied < head + |fragments|
      && tail < head + descCount
      && head <= packetsSupplied < head + |packets|
      && |receipts| == seen && forall r | r in receipts :: ReceiptOk(r)
    }

    ghost predicate Indexes()
      reads `head, `seen, `done, `tail, `supplied, `packetsSupplied, `fragments, `packets
      reads `descBegin, `descEnd, `current, `writeBack, `packetBegin, `packetEnd, `fragmentBegin, `fragmentNext, `fragmentEnd
      requires Sized()
    {
      && descBegin == Wrap(head, descCount) && descEnd == Wrap(tail, descCount)
      && current == Wrap(done, descCount) && writeBack == Wrap(seen, descCount)
      && packetBegin == Wrap(head, |packets|) && packetEnd == Wrap(packetsSupplied, |packets|)
      && fragmentBegin == Wrap(head, |fragments|) && fragmentNext == Wrap(tail, |fragments|)
      && fragmentEnd == Wrap(supplied, |fragments|)
    }

    ghost predicate PacketsClean(from: nat)
      reads `packets, `packetsSupplied
      requires |packets| > 0
    {
      forall i | from <= i < packetsSupplied :: !packets[Wrap(i, |packets|)].ignore
    }

    /** The invariant of a queue that has not been drained. */
    ghost predicate Valid()
      reads this, descVirtual
    {
      && !drained && Sized() && Counts() && Indexes() && PacketsClean(head)
      && forall i | head <= i < tail :: Pending(i)
    }

    // ------------------------------------------------------------ the device

    // Descriptors from i on, up to l, as the engine and the driver see them.
    ghost predicate AllPending(from: nat, l: nat)
      reads `seen, `receipts, `fragments, descVirtual
      requires descVirtual.Length > 0 && |fragments| > 0
    {
      forall i | from <= i < l :: Pending(i)
    }

    // The engine's frame around any of its steps: counts, current, and the
    // descriptors from head up to l, of which it may use those before tail.
    ghost predicate Engine(l: nat)
      reads `seen, `done, `receipts, `fragments, `packets, `head, `tail, `current, `writeBack, `descEnd, descVirtual
    {
      && Sized() && head <= seen <= done <= tail <= l < head + descCount
      && |receipts| == seen && (forall r | r in receipts :: ReceiptOk(r))
      && current == Wrap(done, descCount) && writeBack == Wrap(seen, descCount) && descEnd == Wrap(tail, descCount)
      && AllPending(head, l)
    }

    /** The engine passes on to the next descriptor, in ring order, up to the
        tail pointer.  What it does to the one it leaves may be seen later. */
    method DevicePasses(ghost l: nat)
      requires Engine(l)
      modifies `current, `done
      ensures Engine(l)
      ensures done == if old(done) < tail then old(done) + 1 else old(done)
    {
      hide Wrap, AllPending;
      SlotsDistinct(done, tail, descCount);
      if current != descEnd {
        SlotAfter(done, 1, descCount);
        current := Wrap(current + 1, descCount);
        done := done + 1;
      }
    }

    /** Its write-back becomes visible, and with it that the driver owns the
        descriptor: in ring order, and never ahead of the engine's index. */
    method DeviceWritesBack(r: Receipt, ghost l: nat)
      requires ReceiptOk(r) && Engine(l)
      modifies descVirtual, `writeBack, `seen, `receipts
      ensures Engine(l)
      ensures if old(seen) < done then seen == old(seen) + 1 && receipts == old(receipts) + [r]
              else seen == old(seen) && receipts == old(receipts)
    {
      hide Wrap;
      SlotsDistinct(seen, done, descCount);
      if writeBack != current {
        descVirtual[writeBack] := Written(r);
        forall i | head <= i < l && i != seen ensures Wrap(i, descCount) != Wrap(seen, descCount) {
          if i < seen { SlotsDistinct(i, seen, descCount); } else { SlotsDistinct(seen, i, descCount); }
        }
        SlotAfter(seen, 1, descCount);
        writeBack := Wrap(writeBack + 1, descCount);
        receipts := receipts + [r];
        seen := seen + 1;
        forall i | head <= i < l ensures Pending(i) {
          assert i != seen - 1 ==> old(Pending(i));
        }
      }
    }

    method DeviceMayRun(ghost l: nat)
      requires Engine(l)
      modifies descVirtual, `current, `writeBack, `seen, `done, `receipts
      ensures Engine(l) && old(done) <= done && old(seen) <= seen && old(receipts) <= receipts
    {
      hide Engine;
      var steps: int := *;
      while steps > 0
        invariant Engine(l) && old(done) <= done && old(seen) <= seen && old(receipts) <= receipts
      {
        var r: Receipt := *;
        var passes: bool := *;
        if passes {
          DevicePasses(l);
        } else if ReceiptOk(r) {
          DeviceWritesBack(r, l);
        }
        steps := steps - 1;
      }
    }

    // ---------------------------------------------------- received packets

    // Packets from..to have been filled in.
    ghost predicate Delivered(from: nat, to: nat)
      reads `packets, `fragments, `receipts
    {
      |packets| > 0 && |fragments| > 0 && forall k | from <= k < to :: DeliveredIn(packets, fragments, receipts, k)
    }

    // Fills in one packet and its fragment.
    method Deliver(pktIndex: nat, fragIndex: nat, r: Receipt, ghost i: nat, ghost l: nat)
      requires Engine(l) && head <= i < seen && r == receipts[i]
      requires head <= i < packetsSupplied < head + |packets| && supplied < head + |fragments| && l <= supplied
      requires PacketsClean(i)
      requires pktIndex == Wrap(i, |packets|) && fragIndex == Wrap(i, |fragments|)
      modifies `packets, `fragments
      ensures |packets| == |old(packets)| && |fragments| == |old(fragments)|
      ensures Engine(l) && PacketsClean(i + 1)
      ensures old(Delivered(head, i)) ==> Delivered(head, i + 1)
    {
      hide Wrap;
      var pkt := packets[pktIndex];
      assert !pkt.ignore;
      var frag := fragments[fragIndex].(offset := 0);
      pkt := pkt.(fragmentIndex := fragIndex, fragmentCount := 1);
      if r.errorSummary || r.contextType || !r.first || !r.last {
        pkt := pkt.(ignore := true);
        frag := frag.(validLength := 0);
      } else {
        assert ReceiptOk(r) by { assert r in receipts; }
        frag := frag.(validLength := r.packetLength - 4);
      }
      assert ReceiptOk(r) by { assert r in receipts; }
      packets := packets[pktIndex := pkt];
      fragments := fragments[fragIndex := frag];
      forall k | head <= k < l ensures Pending(k) {
        assert old(Pending(k));
      }
      if old(Delivered(head, i)) {
        forall k | head <= k < i ensures DeliveredIn(packets, fragments, receipts, k) {
          SlotsDistinct(k, i, |packets|);
          SlotsDistinct(k, i, |fragments|);
          assert DeliveredIn(old(packets), old(fragments), receipts, k);
        }
      }
      forall k | i + 1 <= k < packetsSupplied ensures !packets[Wrap(k, |packets|)].ignore {
        SlotsDistinct(i, k, |packets|);
      }
    }

    /** The first half of RxQueueAdvance: one packet for each descriptor before
        `next`, as long as there are packets to fill in and the write-back can be
        seen.  A descriptor found owned before `next` ends the loop, and is
        counted; nothing that could be seen at the call is left behind by it. */
    method ReceiveCompleted(descNext: nat, ghost next: nat)
      returns (descIndex: nat, pktIndex: nat, fragIndex: nat, ownDescriptors: int, ghost i: nat)
      requires Valid() && descNext == Wrap(next, descCount) && head <= next <= done
      modifies descVirtual, `current, `writeBack, `seen, `done, `receipts, `packets, `fragments
      ensures |packets| == |old(packets)| && |fragments| == |old(fragments)|
      ensures Engine(tail) && old(done) <= done && old(receipts) <= receipts
      ensures head <= i <= next && i <= packetsSupplied && i <= seen
      ensures ownDescriptors == if i == next || i == packetsSupplied then 0 else 1
      ensures ownDescriptors == 1 ==> i >= old(seen)
      ensures descIndex == Wrap(i, descCount) && pktIndex == Wrap(i, |packets|) && fragIndex == Wrap(i, |fragments|)
      ensures PacketsClean(i) && Delivered(head, i)
    {
      hide Wrap, Pending;
      i := head;
      descIndex := descBegin;
      pktIndex, fragIndex, ownDescriptors := packetBegin, fragmentBegin, 0;
      SlotsDistinct(i, next, descCount);
      while descIndex != descNext
        invariant |packets| == |old(packets)| && |fragments| == |old(fragments)|
        invariant Engine(tail) && old(done) <= done && old(seen) <= seen && old(receipts) <= receipts
        invariant head <= i <= next <= done && i <= packetsSupplied && i <= seen && ownDescriptors == 0
        invariant descIndex == Wrap(i, descCount) && pktIndex == Wrap(i, |packets|) && fragIndex == Wrap(i, |fragments|)
        invariant descIndex != descNext <==> i != next
        invariant PacketsClean(i) && Delivered(head, i)
        decreases next - i
      {
        SlotsDistinct(i, packetsSupplied, |packets|);
        SlotsDistinct(i, supplied, |fragments|);
        assert fragIndex != fragmentEnd; // NT_ASSERT(fragIndex != fragEnd)
        if pktIndex == packetEnd || fragIndex == fragmentEnd {
          break;
        }
        ghost var was := receipts;
        DeviceMayRun(tail);
        DeliveredLater(packets, fragments, was, receipts, head, i);
        FilledSlot(i, tail);
        var desc := descVirtual[descIndex];
        if desc.Given? { // Own
          ownDescriptors := 1;
          break;
        }
        Deliver(pktIndex, fragIndex, desc.r, i, tail);
        SlotAfter(i, 1, descCount);
        SlotAfter(i, 1, |packets|);
        SlotAfter(i, 1, |fragments|);
        descIndex := Wrap(descIndex + 1, descCount);
        pktIndex := Wrap(pktIndex + 1, |packets|);
        fragIndex := Wrap(fragIndex + 1, |fragments|);
        i := i + 1;
        SlotsDistinct(i, next, descCount);
      }
    }

    lemma FilledSlot(i: nat, l: nat)
      requires Engine(l) && head <= i < l
      ensures descVirtual[Wrap(i, descCount)]
           == if i < seen then Written(receipts[i]) else Given(fragments[Wrap(i, |fragments|)].addr)
    {
      hide Wrap;
      assert Pending(i);
    }

    // ------------------------------------------------------- new descriptors

    /** The second half of RxQueueAdvance: a descriptor for each new fragment,
        short of the hole, and the conditional write of the tail pointer. */
    method PrepareDescriptors(descNext: nat, ghost next: nat)
      requires Valid() && descNext == Wrap(next, descCount) && head <= next <= done
      modifies descVirtual, `current, `writeBack, `seen, `done, `receipts, `descEnd, `fragmentNext, `tail
      ensures Valid() && old(tail) <= tail && old(done) <= done && old(receipts) <= receipts
      ensures tail == supplied || tail == head + descCount - 1
    {
      hide Wrap, Engine, Counts, Indexes, PacketsClean, Pending;
      ghost var i;
      var descIndex, fragIndex;
      descIndex, fragIndex, i := FillRing();
      RingRoom(next, i);
      SlotsDistinct(next, i, descCount);
      if descIndex != descNext {
        SetDescEnd(descIndex, fragIndex, i);
      }
    }

    // What the loop below left: only the tail has to follow.
    lemma RingRoom(next: nat, i: nat)
      requires Filled(i) && head <= next <= done
      ensures 0 < descCount && next <= tail <= i < next + descCount
      ensures i == tail ==> Valid()
    {
      hide Wrap, Pending;
    }

    // The descriptors up to i are prepared; the tail has not moved.
    ghost predicate Filled(i: nat)
      reads this, descVirtual
    {
      && !drained && Sized() && Counts() && Indexes() && PacketsClean(head)
      && Engine(i) && i <= supplied
    }

    method SetDescEnd(descIndex: nat, fragIndex: nat, ghost i: nat)
      requires Filled(i) && descIndex == Wrap(i, descCount) && fragIndex == Wrap(i, |fragments|)
      modifies `descEnd, `fragmentNext, `tail
      ensures Valid() && tail == i
    {
      hide Wrap, Pending;
      descEnd := descIndex;
      fragmentNext := fragIndex;
      tail := i;
    }

    // The loop over the empty descriptors.
    method FillRing() returns (descIndex: nat, fragIndex: nat, ghost i: nat)
      requires Valid()
      modifies descVirtual, `current, `writeBack, `seen, `done, `receipts
      ensures Filled(i) && tail <= i <= supplied && (i == supplied || i == head + descCount - 1)
      ensures old(done) <= done && old(receipts) <= receipts
      ensures descIndex == Wrap(i, descCount) && fragIndex == Wrap(i, |fragments|)
    {
      hide Wrap, AllPending, PacketsClean;
      EngineFrame();
      i := tail;
      fragIndex := fragmentNext;
      var descFull := Wrap(descBegin + descCount - 1, descCount); // (descBegin - 1u) & descMask
      SlotAfter(head, descCount - 1, descCount);
      descIndex := descEnd;
      SlotsDistinct(i, head + descCount - 1, descCount);
      while descIndex != descFull
        invariant Engine(i) && tail <= i <= supplied && old(done) <= done && old(receipts) <= receipts
        invariant descIndex == Wrap(i, descCount) && fragIndex == Wrap(i, |fragments|)
        invariant i <= head + descCount - 1
        invariant descIndex != descFull <==> i != head + descCount - 1
        decreases head + descCount - 1 - i
      {
        SlotsDistinct(i, supplied, |fragments|);
        if fragIndex == fragmentEnd {
          break;
        }
        DeviceMayRun(i);
        GiveSlot(descIndex, fragIndex, i);
        SlotAfter(i, 1, |fragments|);
        SlotAfter(i, 1, descCount);
        fragIndex := Wrap(fragIndex + 1, |fragments|);
        descIndex := Wrap(descIndex + 1, descCount);
        i := i + 1;
        SlotsDistinct(i, head + descCount - 1, descCount);
      }
    }

    method GiveSlot(descIndex: nat, fragIndex: nat, ghost i: nat)
      requires Engine(i) && i + 1 < head + descCount
      requires descIndex == Wrap(i, descCount) && fragIndex == Wrap(i, |fragments|)
      modifies descVirtual
      ensures Engine(i + 1)
    {
      hide Wrap;
      descVirtual[descIndex] := Given(fragments[fragIndex].addr);
      forall k | head <= k < i + 1 ensures Pending(k) {
        if k < i {
          SlotsDistinct(k, i, descCount);
          assert old(Pending(k));
        }
      }
    }

    // --------------------------------------------------------------- advance

    /** One call of the queue's advance callback, whatever the engine does
        meanwhile.  Every write-back that can be seen goes back as a packet that
        says what was received in it, in order, until the packets run out; a
        running queue then hands over every fragment there is room for; a
        cancelled one gives everything back, exactly if it has come to where the
        engine was at the call. */
    method RxQueueAdvance()
      requires Valid()
      modifies this, descVirtual
      ensures |packets| == |old(packets)| && |fragments| == |old(fragments)| > 0 && |packets| > 0
      ensures running == old(running) && packetsSupplied == old(packetsSupplied) && supplied == old(supplied)
      ensures old(receipts) <= receipts
      ensures old(head) <= head && (old(seen) <= head || head == packetsSupplied)
      ensures Delivered(old(head), head) && (!drained ==> Valid())
      ensures drained <==> !running && head == old(done)
      ensures running ==> (tail == supplied || tail == head + descCount - 1)
      ensures drained ==> packetBegin == packetEnd && fragmentBegin == fragmentEnd
      ensures drained ==> forall k | head <= k < packetsSupplied :: packets[Wrap(k, |packets|)].ignore
    {
      hide Wrap, Pending, Engine, PacketsClean, DeliveredIn;
      EngineFrame();
      ghost var next, h := done, head;
      var descNext := current;
      ghost var i;
      var descIndex, pktIndex, fragIndex, ownDescriptors;
      descIndex, pktIndex, fragIndex, ownDescriptors, i := ReceiveCompleted(descNext, next);
      GiveBack(descIndex, pktIndex, fragIndex, i);
      EngineFrame();
      if running {
        ghost var was := receipts;
        PrepareDescriptors(descNext, next);
        DeliveredLater(packets, fragments, was, receipts, h, head);
      } else {
        SlotsDistinct(i, next, descCount);
        if descIndex == descNext {
          Drain(pktIndex, h);
        }
      }
    }

    // Validity gives the engine its frame, and the facts that stay in sight.
    lemma EngineFrame()
      requires Valid()
      ensures Engine(tail) && descCount > 0 && |packets| > 0 && |fragments| > 0
      ensures current == Wrap(done, descCount) && head <= seen <= done < head + descCount && head <= packetsSupplied
    {
      hide Wrap;
    }

    method GiveBack(descIndex: nat, pktIndex: nat, fragIndex: nat, ghost i: nat)
      requires !drained && Engine(tail) && head <= i <= seen && i <= packetsSupplied < head + |packets|
      requires tail <= supplied < head + |fragments|
      requires descEnd == Wrap(tail, descCount) && packetEnd == Wrap(packetsSupplied, |packets|)
      requires fragmentNext == Wrap(tail, |fragments|) && fragmentEnd == Wrap(supplied, |fragments|)
      requires descIndex == Wrap(i, descCount) && pktIndex == Wrap(i, |packets|) && fragIndex == Wrap(i, |fragments|)
      requires PacketsClean(i)
      modifies `head, `descBegin, `packetBegin, `fragmentBegin
      ensures Valid() && head == i
    {
      hide Wrap, Pending;
      descBegin := descIndex;
      packetBegin := pktIndex;
      fragmentBegin := fragIndex;
      head := i;
    }

    // The queue has been cancelled and nothing is left to receive: the rest of
    // the packets go back unused.
    method Drain(pktIndex: nat, ghost from: nat)
      requires Valid() && pktIndex == Wrap(head, |packets|)
      requires from <= head < packetsSupplied + 1 && packetsSupplied < from + |packets|
      requires Delivered(from, head)
      modifies `packets, `packetBegin, `fragmentBegin, `drained
      ensures |packets| == |old(packets)| && drained
      ensures packetBegin == packetEnd && fragmentBegin == fragmentEnd
      ensures Delivered(from, head)
      ensures forall k | head <= k < packetsSupplied :: packets[Wrap(k, |packets|)].ignore
    {
      hide Wrap, Pending;
      var index := pktIndex;
      ghost var j := head;
      SlotsDistinct(j, packetsSupplied, |packets|);
      while index != packetEnd
        invariant |packets| == |old(packets)| && head <= j <= packetsSupplied && index == Wrap(j, |packets|)
        invariant index != packetEnd <==> j != packetsSupplied
        invariant Delivered(from, head)
        invariant forall k | head <= k < j :: packets[Wrap(k, |packets|)].ignore
        decreases packetsSupplied - j
      {
        forall k | from <= k < j ensures Wrap(k, |packets|) != index {
          SlotsDistinct(k, j, |packets|);
        }
        ghost var was := packets;
        packets := packets[index := packets[index].(ignore := true)];
        forall k | from <= k < head ensures DeliveredIn(packets, fragments, receipts, k) {
          assert DeliveredIn(was, fragments, receipts, k);
        }
        SlotAfter(j, 1, |packets|);
        index := Wrap(index + 1, |packets|);
        j := j + 1;
        SlotsDistinct(j, packetsSupplied, |packets|);
      }
      packetBegin := packetEnd;
      fragmentBegin := fragmentEnd;
      drained := true;
    }

    // ----------------------------------------------------- the framework's side

    // RxQueueStart, on rings the framework has just set up.
    constructor (fragmentCount: nat, packetRing: nat, fragmentRing: nat)
      requires packetRing > 0 && fragmentRing > 0
      ensures Valid() && running && supplied == 0 && packetsSupplied == 0 && fresh(descVirtual)
      ensures descCount == QueueDescriptorCount(fragmentCount)
    {
      DescriptorCountIsLeast(fragmentCount, 0);
      descCount := QueueDescriptorCount(fragmentCount);
      descVirtual := new RxDesc[QueueDescriptorCount(fragmentCount)](_ => Given(0));
      running := true;
      descBegin, descEnd, current, writeBack := 0, 0, 0, 0;
      packets := seq(packetRing, _ => Packet(0, 0, false));
      fragments := seq(fragmentRing, _ => Fragment(0, 0, 0));
      packetBegin, packetEnd := 0, 0;
      fragmentBegin, fragmentNext, fragmentEnd := 0, 0, 0;
      head, seen, done, tail, supplied, packetsSupplied := 0, 0, 0, 0, 0, 0;
      receipts, drained := [], false;
    }

    // NetAdapterCx hands over an empty packet.
    method SupplyPacket(pkt: Packet)
      requires Valid() && !pkt.ignore && packetsSupplied + 1 < head + |packets|
      modifies `packets, `packetEnd, `packetsSupplied
      ensures Valid() && packetsSupplied == old(packetsSupplied) + 1
    {
      hide Wrap, Pending;
      forall i | head <= i < packetsSupplied ensures Wrap(i, |packets|) != packetEnd {
        SlotsDistinct(i, packetsSupplied, |packets|);
      }
      packets := packets[packetEnd := pkt];
      SlotAfter(packetsSupplied, 1, |packets|);
      packetEnd := Wrap(packetEnd + 1, |packets|);
      packetsSupplied := packetsSupplied + 1;
    }

    // NetAdapterCx hands over a receive buffer.
    method SupplyFragment(addr: nat)
      requires Valid() && supplied + 1 < head + |fragments|
      modifies `fragments, `fragmentEnd, `supplied
      ensures Valid() && supplied == old(supplied) + 1
    {
      hide Wrap;
      fragments := fragments[fragmentEnd := Fragment(addr, 0, 0)];
      forall i | head <= i < tail ensures Pending(i) {
        SlotsDistinct(i, supplied, |fragments|);
        assert old(Pending(i));
      }
      SlotAfter(supplied, 1, |fragments|);
      fragmentEnd := Wrap(fragmentEnd + 1, |fragments|);
      supplied := supplied + 1;
    }

    // RxQueueCancel.
    method RxQueueCancel()
      requires Valid()
      modifies `running
      ensures Valid() && !running
    {
      running := false;
    }

    // ------------------------------------------------- what the invariant says

    /** Pending descriptor k, counted from descBegin, is about fragment
        BeginIndex + k: it holds that fragment's address until the write-back of
        what was received into it becomes visible; and there are as many pending
        descriptors as fragments between BeginIndex and NextIndex, always fewer
        than the ring holds. */
    lemma PendingMatchesFragments(k: nat)
      requires Valid() && k < tail - head
      ensures tail - head < descCount && tail - head < |fragments|
      ensures var d := descVirtual[Wrap(descBegin + k, descCount)];
        if head + k < seen then d == Written(receipts[head + k])
        else d == Given(fragments[Wrap(fragmentBegin + k, |fragments|)].addr)
    {
      hide Wrap;
      SlotAfter(head, k, descCount);
      SlotAfter(head, k, |fragments|);
      assert Pending(head + k);
    }
  }
}
