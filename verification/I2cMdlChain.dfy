/** A message's memory as the I2C driver sees it: a linked list of buffers, each
    of which may fail to be mapped at any moment (mdlchain.c). */
module I2cMdlChain {
  import opened Words

  datatype Status = Success | InfoLengthMismatch | IoDeviceError | InvalidTransaction | InvalidAddress | IoTimeout

  // MDL: a buffer and the rest of the list.
  class Mdl {
    const buffer: array<byte>
    const next: Mdl?

    constructor (buffer: array<byte>, next: Mdl?)
      ensures this.buffer == buffer && this.next == next
    {
      this.buffer := buffer;
      this.next := next;
    }
  }

  // The list that starts at m is c.
  ghost predicate IsChain(m: Mdl?, c: seq<Mdl>) {
    if m == null then c == []
    else c != [] && c[0] == m && IsChain(m.next, c[1..])
  }

  ghost predicate Distinct(c: seq<Mdl>) {
    forall i, j | 0 <= i < j < |c| :: c[i].buffer != c[j].buffer
  }

  ghost function Buffers(c: seq<Mdl>): set<object> {
    set m | m in c :: m.buffer
  }

  ghost function Parts(c: seq<Mdl>): (p: seq<seq<byte>>)
    reads Buffers(c)
    ensures |p| == |c| && forall i | 0 <= i < |c| :: p[i] == c[i].buffer[..]
  {
    seq(|c|, i requires 0 <= i < |c| reads Buffers(c) => c[i].buffer[..])
  }

  function Flat(p: seq<seq<byte>>): seq<byte> {
    if p == [] then [] else p[0] + Flat(p[1..])
  }

  /** What the list holds, as one piece of memory. */
  ghost function Memory(c: seq<Mdl>): seq<byte>
    reads Buffers(c)
  {
    Flat(Parts(c))
  }

  // Skipping a buffer skips its bytes.
  lemma FlatSkip(p: seq<seq<byte>>, k: nat, offset: nat)
    requires k < |p|
    ensures offset < |p[k]| ==> offset < |Flat(p[k..])| && Flat(p[k..])[offset] == p[k][offset]
    ensures offset >= |p[k]| ==>
              (offset < |Flat(p[k..])| <==> offset - |p[k]| < |Flat(p[k + 1..])|)
              && (offset < |Flat(p[k..])| ==> Flat(p[k..])[offset] == Flat(p[k + 1..])[offset - |p[k]|])
  {
    assert p[k..][0] == p[k] && p[k..][1..] == p[k + 1..];
  }

  function SetAt(p: seq<seq<byte>>, k: nat, offset: nat, b: byte): (q: seq<seq<byte>>)
    requires k < |p| && offset < |p[k]|
  {
    var row: seq<byte> := p[k][offset := b];
    p[k := row]
  }

  lemma {:induction false} FlatSet(p: seq<seq<byte>>, k: nat, offset: nat, index: nat, b: byte)
    requires k < |p| && offset < |p[k]| && index == Before(p, k) + offset
    ensures index < |Flat(p)| && Flat(SetAt(p, k, offset, b)) == Flat(p)[index := b]
    decreases k
  {
    var q := SetAt(p, k, offset, b);
    if k == 0 {
      assert q[1..] == p[1..];
    } else {
      FlatSet(p[1..], k - 1, offset, index - |p[0]|, b);
      assert q[1..] == SetAt(p[1..], k - 1, offset, b);
      assert q[0] == p[0];
    }
  }

  // Bytes in the first k buffers.
  function Before(p: seq<seq<byte>>, k: nat): nat
    requires k <= |p|
  {
    if k == 0 then 0 else |p[0]| + Before(p[1..], k - 1)
  }

  lemma {:induction false} BeforeNext(p: seq<seq<byte>>, k: nat)
    requires k < |p|
    ensures Before(p, k + 1) == Before(p, k) + |p[k]|
    decreases k
  {
    if k > 0 { BeforeNext(p[1..], k - 1); }
  }

  lemma ChainNext(m: Mdl, c: seq<Mdl>, k: nat)
    requires k <= |c| && IsChain(m, c[k..])
    ensures k < |c| && c[k] == m && IsChain(m.next, c[k + 1..])
  {
    assert c[k..][1..] == c[k + 1..];
  }

  /** The byte at an index, if the index is within the length and the list and
      the buffer can be mapped; and nothing but these makes it fail. */
  method MdlChainGetByte(mdlChain: Mdl?, length: nat, index: nat, ghost c: seq<Mdl>)
    returns (status: Status, b: byte, ghost mapped: bool)
    requires IsChain(mdlChain, c)
    ensures status == if index < length && index < |Memory(c)| && mapped then Success else InfoLengthMismatch
    ensures status.Success? ==> b == Memory(c)[index]
  {
    hide IsChain, Flat;
    ghost var p, k := Parts(c), 0;
    var mdl := mdlChain;
    var currentOffset: nat := index;
    b := *;
    mapped := true;
    status := InfoLengthMismatch;
    assert c[0..] == c && p[0..] == p;
    if index < length {
      while mdl != null
        invariant k <= |c| && IsChain(mdl, c[k..]) && p == Parts(c) && Memory(c) == Flat(p)
        invariant index < |Memory(c)| <==> currentOffset < |Flat(p[k..])|
        invariant index < |Memory(c)| ==> Memory(c)[index] == Flat(p[k..])[currentOffset]
        invariant status == InfoLengthMismatch && mapped
        decreases |c| - k
      {
        ChainNext(mdl, c, k);
        FlatSkip(p, k, currentOffset);
        var mdlByteCount := mdl.buffer.Length;
        if currentOffset < mdlByteCount {
          var canMap: bool := *;
          mapped := canMap;
          if canMap {
            b := mdl.buffer[currentOffset];
            status := Success;
          }
          return;
        }
        currentOffset := currentOffset - mdlByteCount;
        mdl := mdl.next;
        k := k + 1;
      }
      NothingLeft(c, p, k);
    }
  }

  lemma NothingLeft(c: seq<Mdl>, p: seq<seq<byte>>, k: nat)
    requires k <= |c| == |p| && IsChain(null, c[k..])
    ensures Flat(p[k..]) == []
  {}

  /** The same for writing a byte: either that byte of the list is replaced and
      no other, or nothing is. */
  method MdlChainSetByte(mdlChain: Mdl?, length: nat, index: nat, b: byte, ghost c: seq<Mdl>)
    returns (status: Status, ghost mapped: bool)
    requires IsChain(mdlChain, c) && Distinct(c)
    modifies Buffers(c)
    ensures status == if index < length && index < |old(Memory(c))| && mapped then Success else InfoLengthMismatch
    ensures Memory(c) == if status.Success? then old(Memory(c))[index := b] else old(Memory(c))
  {
    hide IsChain, Flat, Before;
    ghost var p, k := Parts(c), 0;
    var mdl := mdlChain;
    var currentOffset: nat := index;
    mapped := true;
    status := InfoLengthMismatch;
    assert c[0..] == c && p[0..] == p;
    BeforeNone(p);
    if index < length {
      while mdl != null
        invariant k <= |c| && IsChain(mdl, c[k..]) && p == Parts(c) && Memory(c) == Flat(p) == old(Memory(c))
        invariant index == Before(p, k) + currentOffset
        invariant index < |Flat(p)| <==> currentOffset < |Flat(p[k..])|
        invariant status == InfoLengthMismatch && mapped
        decreases |c| - k
      {
        ChainNext(mdl, c, k);
        FlatSkip(p, k, currentOffset);
        BeforeNext(p, k);
        var mdlByteCount := mdl.buffer.Length;
        if currentOffset < mdlByteCount {
          var canMap: bool := *;
          mapped := canMap;
          if canMap {
            FlatSet(p, k, currentOffset, index, b);
            mdl.buffer[currentOffset] := b;
            assert Parts(c) == SetAt(p, k, currentOffset, b);
            status := Success;
          }
          return;
        }
        currentOffset := currentOffset - mdlByteCount;
        mdl := mdl.next;
        k := k + 1;
      }
      NothingLeft(c, p, k);
    }
  }

  lemma BeforeNone(p: seq<seq<byte>>)
    ensures Before(p, 0) == 0
  {}
}
