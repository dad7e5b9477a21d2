/** A sequence of read and write segments run as one transfer (spb.c): the write
    segments are gathered at their offsets among zeros, one full-duplex transfer
    of the summed length is made, and the replies are scattered into the read
    segments. */
module SpiSequence {
  import opened Words
  import opened SpiEngine

  // One transfer of an SPB request: its MDL can be mapped once, and then stays
  // mapped, or mapping it fails.
  class Segment {
    const write: bool
    const buffer: array<byte>
    var mapped: bool

    constructor (write: bool, buffer: array<byte>)
      ensures this.write == write && this.buffer == buffer && !mapped
    {
      this.write, this.buffer, mapped := write, buffer, false;
    }

    // Rk3xSpiMapTransfer.
    method Map() returns (ok: bool)
      modifies `mapped
      ensures ok == mapped && (old(mapped) ==> ok)
    {
      if !mapped {
        mapped := *;
      }
      ok := mapped;
    }
  }

  // ----------------------------------------------------- segments as values

  datatype Piece = Piece(write: bool, data: seq<byte>)

  // What a segment puts on the bus.
  function Sends(p: Piece): (s: seq<byte>)
    ensures |s| == |p.data|
  {
    if p.write then p.data else Zeros(|p.data|)
  }

  function Gathered(ps: seq<Piece>): seq<byte> {
    if ps == [] then [] else Gathered(ps[..|ps| - 1]) + Sends(ps[|ps| - 1])
  }

  function Offset(ps: seq<Piece>, i: nat): nat
    requires i <= |ps|
  {
    |Gathered(ps[..i])|
  }

  /** A bus that runs the segments one at a time, the slave remembering every
      frame since the start: what each segment reads. */
  ghost function BusReads(slave: seq<byte> -> byte, before: seq<byte>, p: Piece): (s: seq<byte>)
    ensures |s| == |p.data|
  {
    Replies(slave, before + Sends(p))[|before|..]
  }

  ghost function Bus(slave: seq<byte> -> byte, ps: seq<Piece>): (r: seq<seq<byte>>)
    ensures |r| == |ps|
  {
    if ps == [] then []
    else Bus(slave, ps[..|ps| - 1]) + [BusReads(slave, Gathered(ps[..|ps| - 1]), ps[|ps| - 1])]
  }

  lemma GatheredStep(ps: seq<Piece>, i: nat)
    requires i < |ps|
    ensures Gathered(ps[..i + 1]) == Gathered(ps[..i]) + Sends(ps[i])
  {
    assert ps[..i + 1][..i] == ps[..i];
  }

  lemma {:induction false} GatheredPrefix(ps: seq<Piece>, i: nat)
    requires i <= |ps|
    ensures Gathered(ps[..i]) <= Gathered(ps)
    decreases |ps| - i
  {
    if i == |ps| {
      assert ps[..i] == ps;
    } else {
      GatheredStep(ps, i);
      GatheredPrefix(ps, i + 1);
    }
  }

  // A segment's place in the gathered bytes.
  lemma SegmentPlace(ps: seq<Piece>, i: nat)
    requires i < |ps|
    ensures Offset(ps, i) + |ps[i].data| == Offset(ps, i + 1) <= |Gathered(ps)|
    ensures Gathered(ps)[Offset(ps, i)..Offset(ps, i + 1)] == Sends(ps[i])
    ensures Gathered(ps)[..Offset(ps, i)] == Gathered(ps[..i])
  {
    GatheredStep(ps, i);
    GatheredPrefix(ps, i);
    GatheredPrefix(ps, i + 1);
    var all, front := Gathered(ps), Gathered(ps[..i]);
    assert all[..Offset(ps, i + 1)] == front + Sends(ps[i]);
    assert all[Offset(ps, i)..Offset(ps, i + 1)] == all[..Offset(ps, i + 1)][Offset(ps, i)..];
  }

  lemma {:induction false} BusAt(slave: seq<byte> -> byte, ps: seq<Piece>, i: nat)
    requires i < |ps|
    ensures Bus(slave, ps)[i] == BusReads(slave, Gathered(ps[..i]), ps[i])
    decreases |ps|
  {
    if i < |ps| - 1 {
      BusAt(slave, ps[..|ps| - 1], i);
      assert ps[..|ps| - 1][..i] == ps[..i];
    }
  }

  /** One transfer of the gathered bytes refines the bus that runs segment by
      segment: at each segment's offset are exactly the replies it reads there. */
  lemma CoalescedRefinesBus(slave: seq<byte> -> byte, ps: seq<Piece>, i: nat)
    requires i < |ps|
    ensures Offset(ps, i) + |ps[i].data| <= |Gathered(ps)|
    ensures Replies(slave, Gathered(ps))[Offset(ps, i)..Offset(ps, i) + |ps[i].data|] == Bus(slave, ps)[i]
  {
    hide Gathered, Bus, Sends;
    GatheredStep(ps, i);
    GatheredPrefix(ps, i + 1);
    BusAt(slave, ps, i);
    RepliesPrefix(slave, Gathered(ps[..i + 1]), Gathered(ps));
  }

  // Replies do not depend on frames to come.
  lemma RepliesPrefix(slave: seq<byte> -> byte, front: seq<byte>, all: seq<byte>)
    requires front <= all
    ensures Replies(slave, all)[..|front|] == Replies(slave, front)
  {
    forall k | 0 <= k < |front| ensures front[..k] == all[..k] {}
  }

  // ------------------------------------------------------------- the request

  ghost function Parts(segments: seq<Segment>): (ps: seq<Piece>)
    reads set s | s in segments :: s.buffer
    ensures |ps| == |segments|
    ensures forall i | 0 <= i < |ps| :: ps[i] == Piece(segments[i].write, segments[i].buffer[..])
  {
    seq(|segments|, i requires 0 <= i < |segments| reads set s | s in segments :: s.buffer =>
      Piece(segments[i].write, segments[i].buffer[..]))
  }

  ghost predicate Distinct(segments: seq<Segment>) {
    && (forall i, j | 0 <= i < j < |segments| :: segments[i].buffer != segments[j].buffer)
    && (forall i, j | 0 <= i < j < |segments| :: segments[i] != segments[j])
  }

  // The loop that sums the lengths.
  method TotalLength(segments: seq<Segment>) returns (total: nat)
    modifies segments
    ensures total == |Gathered(Parts(segments))|
  {
    ghost var ps := Parts(segments);
    total := 0;
    assert ps[..0] == [];
    for i := 0 to |segments|
      invariant Parts(segments) == ps && total == |Gathered(ps[..i])|
    {
      GatheredStep(ps, i);
      var ok := segments[i].Map();
      total := total + segments[i].buffer.Length;
    }
    assert ps[..|segments|] == ps;
  }

  // The loop that gathers.
  method Gather(segments: seq<Segment>, txBuf: array<byte>) returns (ok: bool)
    requires txBuf.Length == |Gathered(Parts(segments))| && forall k | 0 <= k < txBuf.Length :: txBuf[k] == 0
    requires forall s | s in segments :: s.buffer != txBuf
    modifies segments, txBuf
    ensures Parts(segments) == old(Parts(segments))
    ensures ok ==> txBuf[..] == Gathered(Parts(segments)) && forall s | s in segments :: s.mapped
  {
    hide Gathered, Sends;
    ghost var ps := Parts(segments);
    var offset := 0;
    NothingGathered(ps);
    for i := 0 to |segments|
      invariant Parts(segments) == ps && offset == Offset(ps, i) <= txBuf.Length
      invariant txBuf[..offset] == Gathered(ps[..i])
      invariant forall k | offset <= k < txBuf.Length :: txBuf[k] == 0
      invariant forall j | 0 <= j < i :: segments[j].mapped
    {
      SegmentPlace(ps, i);
      GatheredStep(ps, i);
      var mapped := segments[i].Map();
      if !mapped {
        return false;
      }
      ghost var front := txBuf[..offset];
      var buffer := segments[i].buffer;
      if segments[i].write {
        CopyInto(txBuf, offset, buffer);
      }
      PieceSends(ps[i], txBuf[offset..offset + buffer.Length]);
      assert txBuf[..offset + buffer.Length] == front + txBuf[offset..offset + buffer.Length];
      offset := offset + buffer.Length;
    }
    assert ps[..|segments|] == ps;
    assert txBuf[..] == txBuf[..offset];
    ok := true;
  }

  lemma PieceSends(p: Piece, s: seq<byte>)
    requires |s| == |p.data| && if p.write then s == p.data else forall k | 0 <= k < |s| :: s[k] == 0
    ensures s == Sends(p)
  {}

  lemma NothingGathered(ps: seq<Piece>)
    ensures Gathered(ps[..0]) == [] && Offset(ps, 0) == 0
  {}

  // RtlCopyMemory into and out of the middle of a buffer.
  method CopyInto(dst: array<byte>, offset: nat, src: array<byte>)
    requires dst != src && offset + src.Length <= dst.Length
    modifies dst
    ensures dst[offset..offset + src.Length] == src[..] && dst[..offset] == old(dst[..offset])
    ensures forall k | offset + src.Length <= k < dst.Length :: dst[k] == old(dst[k])
  {
    for k := 0 to src.Length
      invariant dst[..offset] == old(dst[..offset])
      invariant forall m | 0 <= m < k :: dst[offset + m] == src[m]
      invariant forall m | offset + k <= m < dst.Length :: dst[m] == old(dst[m])
    {
      dst[offset + k] := src[k];
    }
  }

  method CopyFrom(src: array<byte>, offset: nat, dst: array<byte>)
    requires dst != src && offset + dst.Length <= src.Length
    modifies dst
    ensures dst[..] == src[offset..offset + dst.Length]
  {
    for k := 0 to dst.Length
      invariant forall m | 0 <= m < k :: dst[m] == src[offset + m]
    {
      dst[k] := src[offset + k];
    }
  }

  // What a segment holds when the request is over.
  ghost predicate Delivered(now: Piece, was: Piece, replies: seq<byte>, offset: nat) {
    && now.write == was.write && |now.data| == |was.data| && offset + |was.data| <= |replies|
    && now.data == if was.write then was.data else replies[offset..offset + |was.data|]
  }

  // The loop that scatters.
  method Scatter(segments: seq<Segment>, rxBuf: array<byte>, ghost ps: seq<Piece>)
    requires Distinct(segments) && Parts(segments) == ps && rxBuf.Length == |Gathered(ps)|
    requires forall s | s in segments :: s.mapped && s.buffer != rxBuf
    modifies segments, set s | s in segments :: s.buffer
    ensures forall i | 0 <= i < |segments| :: Delivered(Parts(segments)[i], ps[i], rxBuf[..], Offset(ps, i))
    ensures rxBuf[..] == old(rxBuf[..])
  {
    hide Gathered, Delivered, Offset;
    var offset := 0;
    NothingGathered(ps);
    ghost var rx := rxBuf[..];
    for i := 0 to |segments|
      invariant offset == Offset(ps, i) <= rxBuf.Length && rxBuf[..] == rx
      invariant forall s | s in segments :: s.mapped
      invariant forall j | 0 <= j < i :: Delivered(Parts(segments)[j], ps[j], rx, Offset(ps, j))
      invariant forall j | i <= j < |segments| :: Parts(segments)[j] == ps[j]
    {
      SegmentPlace(ps, i);
      ghost var before := Parts(segments);
      ScatterOne(segments, i, rxBuf, offset);
      assert before[i] == ps[i];
      NowDelivered(Parts(segments)[i], ps[i], rx, offset);
      offset := offset + segments[i].buffer.Length;
    }
  }

  method ScatterOne(segments: seq<Segment>, i: nat, rxBuf: array<byte>, offset: nat)
    requires Distinct(segments) && i < |segments| && segments[i].mapped && segments[i].buffer != rxBuf
    requires offset + segments[i].buffer.Length <= rxBuf.Length
    modifies segments[i], segments[i].buffer
    ensures segments[i].mapped
    ensures forall j | 0 <= j < |segments| && j != i :: Parts(segments)[j] == old(Parts(segments))[j]
    ensures Parts(segments)[i]
         == if segments[i].write then old(Parts(segments))[i] else Piece(false, rxBuf[offset..offset + segments[i].buffer.Length])
  {
    var mapped := segments[i].Map();
    if mapped && !segments[i].write {
      CopyFrom(rxBuf, offset, segments[i].buffer);
    }
  }

  lemma NowDelivered(now: Piece, was: Piece, replies: seq<byte>, offset: nat)
    requires now.write == was.write && |now.data| == |was.data| && offset + |was.data| <= |replies|
    requires now.data == if was.write then was.data else replies[offset..offset + |was.data|]
    ensures Delivered(now, was, replies, offset)
  {}

  /** A sequence that succeeds has run every segment, in order, as if each had had
      the bus to itself: each read segment holds what the slave answered there,
      and write segments are as they were. */
  method EvtIoSequence(ctx: Controller, cpolHigh: bool, cphaSecond: bool, targetBaudr: word, chipSelect: nat,
                       segments: seq<Segment>, polls: nat)
    returns (status: Status, information: nat)
    requires ctx.Deep() && chipSelect < 32 && Distinct(segments) && |Gathered(Parts(segments))| < WORD
    modifies ctx, segments, set s | s in segments :: s.buffer
    ensures |Gathered(old(Parts(segments)))| == 0 ==> status == InvalidParameter
    ensures information == if status.Success? then |Gathered(old(Parts(segments)))| else 0
    ensures !status.Success? ==> Parts(segments) == old(Parts(segments))
    ensures status.Success? ==>
      var ps := old(Parts(segments));
      && ctx.wire == Gathered(ps) && |ctx.under| >= |ctx.wire|
      && (forall x | x in ctx.under :: SentTo(x, chipSelect, cpolHigh, cphaSecond, targetBaudr))
      && forall i | 0 <= i < |segments| ::
           Parts(segments)[i] == if ps[i].write then ps[i] else Piece(false, Bus(ctx.slave, ps)[i])
  {
    hide Gathered, Bus, Delivered, Replies, SentTo;
    information := 0;
    ghost var ps := Parts(segments);
    var total := TotalLength(segments);
    if total == 0 {
      return InvalidParameter, 0;
    }
    var enough: bool := *;
    if !enough {
      return InsufficientResources, 0;
    }
    var txBuf := new byte[total](_ => 0);
    var rxBuf := new byte[total](_ => 0);
    var ok := Gather(segments, txBuf);
    if !ok {
      return InsufficientResources, 0;
    }
    assert ctx.Wanted(txBuf, total) == Gathered(ps) by { assert txBuf[..total] == txBuf[..]; }
    ghost var taken;
    status, taken := ctx.Transfer(cpolHigh, cphaSecond, targetBaudr, chipSelect, txBuf, rxBuf, total, polls);
    if !status.Success? {
      return;
    }
    assert rxBuf[..] == Replies(ctx.slave, Gathered(ps));
    assert Parts(segments) == ps;
    Scatter(segments, rxBuf, ps);
    forall i | 0 <= i < |segments|
      ensures Parts(segments)[i] == if ps[i].write then ps[i] else Piece(false, Bus(ctx.slave, ps)[i])
    {
      CoalescedRefinesBus(ctx.slave, ps, i);
      DeliveredIs(Parts(segments)[i], ps[i], rxBuf[..], Offset(ps, i));
    }
    information := total;
  }

  lemma DeliveredIs(now: Piece, was: Piece, replies: seq<byte>, offset: nat)
    requires Delivered(now, was, replies, offset)
    ensures offset + |was.data| <= |replies|
    ensures now == if was.write then was else Piece(false, replies[offset..offset + |was.data|])
  {}
}
