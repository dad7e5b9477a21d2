/** Scatter-gather lists turned into descriptor tables: the IDMAC table of
    dwcmshc.cpp and the ADMA2 byte table of dwcsdhc.cpp.  What a controller
    reads back from either is the list's addresses in order. */
module SdDescriptors {
  import opened Arith
  import opened Words

  // SCATTER_GATHER_ELEMENT, and what one descriptor describes.
  datatype Element = Element(address: nat, length: nat)

  // --------------------------------------------------- cutting up a list

  // An element cut into entries of at most `limit` bytes.
  function Cut(e: Element, limit: nat): (s: seq<Element>)
    requires limit >= 1
    decreases e.length
  {
    if e.length == 0 then [] else
    var n := Min(limit, e.length);
    [Element(e.address, n)] + Cut(Element(e.address + n, e.length - n), limit)
  }

  function Pieces(list: seq<Element>, limit: nat): (s: seq<Element>)
    requires limit >= 1
  {
    if list == [] then [] else Pieces(list[..|list| - 1], limit) + Cut(list[|list| - 1], limit)
  }

  // The addresses a transfer goes through, byte by byte.
  function Addresses(list: seq<Element>): seq<nat> {
    if list == [] then [] else Addresses(list[..|list| - 1]) + Range(list[|list| - 1].address, list[|list| - 1].length)
  }

  function Total(list: seq<Element>): nat {
    if list == [] then 0 else Total(list[..|list| - 1]) + list[|list| - 1].length
  }

  lemma {:induction false} AddressesJoin(a: seq<Element>, b: seq<Element>)
    ensures Addresses(a + b) == Addresses(a) + Addresses(b)
    decreases |b|
  {
    hide Range;
    if b == [] {
      assert a + b == a;
    } else {
      var front := b[..|b| - 1];
      AddressesJoin(a, front);
      assert (a + b)[..|a + b| - 1] == a + front;
      assert (a + b)[|a + b| - 1] == b[|b| - 1];
    }
  }

  lemma {:induction false} CutBounds(e: Element, limit: nat)
    requires limit >= 1
    ensures forall p | p in Cut(e, limit) :: 1 <= p.length <= limit && e.address <= p.address && p.address + p.length <= e.address + e.length
    decreases e.length
  {
    if e.length != 0 {
      var n := Min(limit, e.length);
      CutBounds(Element(e.address + n, e.length - n), limit);
    }
  }

  lemma {:induction false} CutMeans(e: Element, limit: nat)
    requires limit >= 1
    ensures Addresses(Cut(e, limit)) == Range(e.address, e.length)
    decreases e.length
  {
    if e.length != 0 {
      var n := Min(limit, e.length);
      var rest := Element(e.address + n, e.length - n);
      CutMeans(rest, limit);
      AddressesJoin([Element(e.address, n)], Cut(rest, limit));
      OneAddress(Element(e.address, n));
      RangeJoin(e.address, n, e.length - n);
    }
  }

  lemma OneAddress(e: Element)
    ensures Addresses([e]) == Range(e.address, e.length)
  {
    assert [e][..0] == [];
  }

  // No element of a list reaches the bound.
  predicate Below(list: seq<Element>, bound: nat) {
    forall e | e in list :: e.length >= 1 && e.address + e.length <= bound
  }

  /** Cutting keeps the meaning: the pieces go through the same addresses in the
      same order, and every one is short enough and not empty. */
  lemma {:induction false} PiecesMean(list: seq<Element>, limit: nat, bound: nat)
    requires limit >= 1 && Below(list, bound)
    ensures Addresses(Pieces(list, limit)) == Addresses(list)
    ensures Below(Pieces(list, limit), bound)
    ensures forall p | p in Pieces(list, limit) :: p.length <= limit
    decreases |list|
  {
    if list != [] {
      var front, e := list[..|list| - 1], list[|list| - 1];
      assert e in list && forall x | x in front :: x in list;
      PiecesMean(front, limit, bound);
      CutMeans(e, limit);
      CutBounds(e, limit);
      AddressesJoin(Pieces(front, limit), Cut(e, limit));
    }
  }

  lemma {:induction false} AddressesTotal(list: seq<Element>)
    ensures |Addresses(list)| == Total(list)
    decreases |list|
  {
    if list != [] { AddressesTotal(list[..|list| - 1]); }
  }

  lemma PiecesStep(list: seq<Element>, limit: nat, i: nat)
    requires limit >= 1 && i < |list|
    ensures Pieces(list[..i + 1], limit) == Pieces(list[..i], limit) + Cut(list[i], limit)
  {
    assert list[..i + 1][..i] == list[..i];
  }

  lemma {:induction false} PiecesPrefix(list: seq<Element>, limit: nat, i: nat)
    requires limit >= 1 && i <= |list|
    ensures Pieces(list[..i], limit) <= Pieces(list, limit)
    decreases |list| - i
  {
    if i == |list| {
      assert list[..i] == list;
    } else {
      PiecesStep(list, limit, i);
      PiecesPrefix(list, limit, i + 1);
    }
  }

  lemma SomePiece(list: seq<Element>, limit: nat)
    requires limit >= 1 && list != [] && list[|list| - 1].length >= 1
    ensures Pieces(list, limit) != []
  {}

  // -------------------------------------------------------------- the IDMAC

  const IDMAC_MAX_LENGTH := 0x1000

  const DES0_OWN: bv32 := 0x8000_0000
  const DES0_ER: bv32 := 0x20
  const DES0_FS: bv32 := 0x8
  const DES0_LD: bv32 := 0x4
  const DES0_DIC: bv32 := 0x2

  datatype Idmac = Idmac(des0: bv32, des1: nat, des2: nat, des3: nat)

  // What the controller makes of a descriptor: des1[12:0] is the buffer size.
  function Described(d: Idmac): Element { Element(d.des2, d.des1 % 0x2000) }

  predicate Has(d: Idmac, mark: bv32) { d.des0 & mark != 0 }

  // DES0: owned by the controller (bit 31), marked first (3) and last (2) where
  // it is, and raising an interrupt (1 clear) only at the end, where the ring
  // ends (5) too.
  predicate Marked(d: Idmac, first: bool, last: bool) {
    && Has(d, 0x8000_0000) && (Has(d, 0x8) <==> first)
    && (Has(d, 0x4) <==> last) && (Has(d, 0x20) <==> last) && (Has(d, 0x2) <==> !last)
    && d.des3 == 0
  }

  // A descriptor before the first and the last are marked.
  predicate Plain(d: Idmac) { d.des0 == DES0_OWN | DES0_DIC && d.des3 == 0 }

  lemma MarksSet(d: Idmac, first: bool, last: bool)
    requires Plain(d)
    ensures var m := d.des0 | (if first then DES0_FS else 0);
      Marked(d.(des0 := if last then (m | DES0_ER | DES0_LD) & !DES0_DIC else m), first, last)
  {}

  // Entries `from` up to `to` of the table are plain descriptors of these.
  predicate PlainTable(t: seq<Idmac>, done: seq<Element>) {
    |done| <= |t| && forall i | 0 <= i < |done| :: Plain(t[i]) && Described(t[i]) == done[i]
  }

  // The inner loop: one element.
  method DescribeElement(e: Element, table: array<Idmac>, at: nat, ghost done: seq<Element>) returns (count: nat)
    requires at == |done| && at + |Cut(e, IDMAC_MAX_LENGTH)| <= table.Length
    requires PlainTable(table[..], done)
    modifies table
    ensures count == at + |Cut(e, IDMAC_MAX_LENGTH)|
    ensures PlainTable(table[..], done + Cut(e, IDMAC_MAX_LENGTH))
  {
    hide Plain, Described;
    var nextAddress: nat, remainingLength: nat := e.address, e.length;
    ghost var all := done + Cut(e, IDMAC_MAX_LENGTH);
    ghost var now := done;
    count := at;
    while remainingLength > 0
      invariant count == |now|
      invariant now + Cut(Element(nextAddress, remainingLength), IDMAC_MAX_LENGTH) == all
      invariant PlainTable(table[..], now)
      decreases remainingLength
    {
      var nextLength := Min(IDMAC_MAX_LENGTH, remainingLength);
      ghost var piece := Element(nextAddress, nextLength);
      ghost var rest := Element(nextAddress + nextLength, remainingLength - nextLength);
      assert now + Cut(Element(nextAddress, remainingLength), IDMAC_MAX_LENGTH) == now + [piece] + Cut(rest, IDMAC_MAX_LENGTH);
      remainingLength := remainingLength - nextLength;
      PlainDescriptor(nextAddress, nextLength);
      ghost var was := table[..];
      table[count] := Idmac(DES0_OWN | DES0_DIC, nextLength % 0x2000, nextAddress, 0);
      assert table[..] == was[count := table[count]];
      nextAddress := nextAddress + nextLength;
      count := count + 1;
      now := now + [piece];
    }
  }

  lemma PlainDescriptor(address: nat, length: nat)
    requires length <= IDMAC_MAX_LENGTH
    ensures var d := Idmac(DES0_OWN | DES0_DIC, length % 0x2000, address, 0);
      Plain(d) && Described(d) == Element(address, length)
  {}

  /** What the controller finds in the table is the list cut into pieces it can
      take, in order; the first and the last are marked, once each. */
  method CreateIdmacDescriptorTable(list: seq<Element>, table: array<Idmac>) returns (count: nat)
    requires list != [] && Below(list, WORD)
    requires |Pieces(list, IDMAC_MAX_LENGTH)| <= table.Length
    modifies table
    ensures count == |Pieces(list, 0x1000)| > 0
    ensures forall i | 0 <= i < count ::
              Described(table[i]) == Pieces(list, 0x1000)[i] && Marked(table[i], i == 0, i == count - 1)
  {
    hide Plain, Described, Marked;
    count := 0;
    var i := 0;
    while i < |list|
      invariant i <= |list| && count == |Pieces(list[..i], IDMAC_MAX_LENGTH)|
      invariant PlainTable(table[..], Pieces(list[..i], IDMAC_MAX_LENGTH))
    {
      PiecesStep(list, IDMAC_MAX_LENGTH, i);
      PiecesPrefix(list, IDMAC_MAX_LENGTH, i + 1);
      count := DescribeElement(list[i], table, count, Pieces(list[..i], IDMAC_MAX_LENGTH));
      i := i + 1;
    }
    assert list[..i] == list;
    assert list[|list| - 1] in list;
    SomePiece(list, IDMAC_MAX_LENGTH);
    MarkEnds(table, count);
  }

  method MarkEnds(table: array<Idmac>, count: nat)
    requires 0 < count <= table.Length && forall i | 0 <= i < count :: Plain(table[i])
    modifies table
    ensures forall i | 0 <= i < count :: Described(table[i]) == Described(old(table[i])) && Marked(table[i], i == 0, i == count - 1)
  {
    forall i | 0 <= i < count
      ensures var m := table[i].des0 | (if i == 0 then DES0_FS else 0);
        Marked(table[i].(des0 := if i == count - 1 then (m | DES0_ER | DES0_LD) & !DES0_DIC else m), i == 0, i == count - 1)
    {
      MarksSet(table[i], i == 0, i == count - 1);
    }
    hide Plain, Marked;
    table[0] := table[0].(des0 := table[0].des0 | DES0_FS);
    table[count - 1] := table[count - 1].(des0 := table[count - 1].des0 | DES0_ER | DES0_LD);
    table[count - 1] := table[count - 1].(des0 := table[count - 1].des0 & !DES0_DIC);
  }

  // ----------------------------------------------------------------- ADMA2

  const ADMA2_MAX_LENGTH := 0xf000
  const VALID := 1
  const END := 2
  const TRAN := 2

  function Pow256(n: nat): (p: nat)
    ensures p >= 1
  {
    if n == 0 then 1 else 256 * Pow256(n - 1)
  }

  // Little-endian bytes.
  function ToBytes(v: nat, n: nat): (s: seq<byte>)
    ensures |s| == n
  {
    if n == 0 then [] else [v % 256] + ToBytes(v / 256, n - 1)
  }

  function FromBytes(s: seq<byte>): (v: nat) {
    if s == [] then 0 else s[0] + 256 * FromBytes(s[1..])
  }

  lemma {:induction false} BytesRoundTrip(v: nat, n: nat)
    requires v < Pow256(n)
    ensures FromBytes(ToBytes(v, n)) == v
    decreases n
  {
    if n != 0 {
      assert v / 256 < Pow256(n - 1);
      BytesRoundTrip(v / 256, n - 1);
      assert ToBytes(v, n)[1..] == ToBytes(v / 256, n - 1);
    }
  }

  function AddressSize(wide: bool): nat { if wide then 8 else 4 }

  // The first word of an entry: attribute at 2:0, action at 5:4, length at
  // 31:16.
  function EntryWord(end: bool, length: nat): nat {
    (if end then VALID + END else VALID) + 0x10 * TRAN + 0x1_0000 * length
  }

  function EntryBytes(e: Element, wide: bool, end: bool): (s: seq<byte>)
    ensures |s| == 4 + AddressSize(wide)
  {
    ToBytes(EntryWord(end, e.length), 4) + ToBytes(e.address, AddressSize(wide))
  }

  function EntriesBytes(pieces: seq<Element>, wide: bool): (s: seq<byte>)
    ensures |s| == |pieces| * (4 + AddressSize(wide))
  {
    if pieces == [] then [] else EntriesBytes(pieces[..|pieces| - 1], wide) + EntryBytes(pieces[|pieces| - 1], wide, false)
  }

  // The whole table: the last entry ends it.
  function TableBytes(pieces: seq<Element>, wide: bool): seq<byte>
    requires pieces != []
  {
    EntriesBytes(pieces[..|pieces| - 1], wide) + EntryBytes(pieces[|pieces| - 1], wide, true)
  }

  /** How a controller walks the table (SD Host Controller Specification, section
      1.13.4): entries that are valid and transfer data, up to one that says it
      is the last. */
  function Walk(mem: seq<byte>, wide: bool): Option<seq<Element>>
    decreases |mem|
  {
    var n := if wide then 12 else 8;
    if |mem| < n then None else
    var w := FromBytes(mem[..4]);
    var e := Element(FromBytes(mem[4..n]), w / 0x1_0000);
    if w % 2 != 1 || w / 0x10 % 4 != 2 then None
    else if w / 2 % 2 == 1 then Some([e])
    else
      var rest := Walk(mem[n..], wide);
      if rest.None? then None else Some([e] + rest.value)
  }

  lemma EntryWordReads(end: bool, length: nat)
    requires length < 0x1_0000
    ensures var w := EntryWord(end, length);
      && w < Pow256(4) && w % 2 == 1 && w / 0x10 % 4 == 2 && w / 0x1_0000 == length
      && (w / 2 % 2 == 1 <==> end)
  {
    Powers();
    hide Pow256;
    var w, e := EntryWord(end, length), if end then 1 else 0;
    DivModUnique(w, 0x1_0000, length, 0x21 + 2 * e);
    DivModUnique(w, 2, 0x10 + e + 0x8000 * length, 1);
    DivModUnique(0x10 + e + 0x8000 * length, 2, 8 + 0x4000 * length, e);
    DivModUnique(w, 0x10, 2 + 0x1000 * length, 1 + 2 * e);
    DivModUnique(2 + 0x1000 * length, 4, 0x400 * length, 2);
  }

  lemma Powers()
    ensures Pow256(4) == WORD && Pow256(8) == WORD * WORD
  {
    assert Pow256(2) == 0x1_0000;
    assert Pow256(4) == 0x1_0000 * Pow256(2);
    assert Pow256(6) == 0x1_0000 * Pow256(4);
    assert Pow256(8) == 0x1_0000 * Pow256(6);
  }

  predicate Fits(e: Element, wide: bool) {
    e.length < 0x1_0000 && e.address < Pow256(AddressSize(wide))
  }

  lemma WalkOne(e: Element, wide: bool, end: bool, more: seq<byte>)
    requires Fits(e, wide)
    ensures var rest := Walk(more, wide);
      Walk(EntryBytes(e, wide, end) + more, wide)
        == if end then Some([e]) else if rest.None? then None else Some([e] + rest.value)
  {
    var n := 4 + AddressSize(wide);
    var mem := EntryBytes(e, wide, end) + more;
    EntryWordReads(end, e.length);
    BytesRoundTrip(EntryWord(end, e.length), 4);
    BytesRoundTrip(e.address, AddressSize(wide));
    assert mem[..4] == ToBytes(EntryWord(end, e.length), 4);
    assert mem[4..n] == ToBytes(e.address, AddressSize(wide));
    assert mem[n..] == more;
  }

  lemma {:induction false} EntriesFront(pieces: seq<Element>, wide: bool)
    requires pieces != []
    ensures EntriesBytes(pieces, wide) == EntryBytes(pieces[0], wide, false) + EntriesBytes(pieces[1..], wide)
    decreases |pieces|
  {
    hide EntryBytes;
    if |pieces| == 1 {
      assert pieces[..0] == [] && pieces[1..] == [];
      assert EntriesBytes(pieces[..0], wide) == [];
    } else {
      EntriesFront(pieces[..|pieces| - 1], wide);
      assert pieces[..|pieces| - 1][1..] == pieces[1..][..|pieces| - 2];
      assert pieces[1..][|pieces| - 2] == pieces[|pieces| - 1];
    }
  }

  /** The table reads back as the pieces it was written for. */
  lemma {:induction false} WalkTable(pieces: seq<Element>, wide: bool, more: seq<byte>)
    requires pieces != [] && forall p | p in pieces :: Fits(p, wide)
    ensures Walk(TableBytes(pieces, wide) + more, wide) == Some(pieces)
    decreases |pieces|
  {
    hide EntryBytes, Walk, Fits, EntriesBytes;
    var last := pieces[|pieces| - 1];
    assert last in pieces;
    if |pieces| == 1 {
      NoEntries(wide);
      assert pieces[..0] == [];
      assert TableBytes(pieces, wide) == EntryBytes(last, wide, true);
      WalkOne(last, wide, true, more);
      assert pieces == [last];
    } else {
      var front, tail := pieces[..|pieces| - 1], pieces[1..];
      EntriesFront(front, wide);
      assert front[1..] == tail[..|tail| - 1] && front[0] == pieces[0];
      assert TableBytes(pieces, wide) + more == EntryBytes(pieces[0], wide, false) + (TableBytes(tail, wide) + more);
      assert pieces[0] in pieces && forall p | p in tail :: p in pieces;
      WalkTable(tail, wide, more);
      WalkOne(pieces[0], wide, false, TableBytes(tail, wide) + more);
      assert [pieces[0]] + tail == pieces;
    }
  }

  lemma NoEntries(wide: bool)
    ensures EntriesBytes([], wide) == []
  {}

  // Little-endian store at a place in the buffer.
  method Store(buffer: array<byte>, at: nat, v: nat, n: nat)
    requires at + n <= buffer.Length
    modifies buffer
    ensures buffer[..at] == old(buffer[..at])
    ensures buffer[at..at + n] == ToBytes(v, n)
  {
    var x := v;
    for i := 0 to n
      invariant buffer[..at] == old(buffer[..at])
      invariant buffer[at..at + i] + ToBytes(x, n - i) == ToBytes(v, n)
    {
      buffer[at + i] := x % 256;
      assert buffer[at..at + i + 1] == buffer[at..at + i] + [x % 256];
      x := x / 256;
    }
  }

  // One turn of the inner loop: an entry and its address.
  method WriteEntry(buffer: array<byte>, at: nat, e: Element, wide: bool) returns (next: nat)
    requires at + 4 + AddressSize(wide) <= buffer.Length
    modifies buffer
    ensures next == at + 4 + AddressSize(wide)
    ensures buffer[..next] == old(buffer[..at]) + EntryBytes(e, wide, false)
  {
    hide ToBytes;
    Store(buffer, at, EntryWord(false, e.length), 4);
    ghost var head := buffer[..at + 4];
    assert head == old(buffer[..at]) + ToBytes(EntryWord(false, e.length), 4);
    next := at + 4;
    if wide {
      Store(buffer, next, e.address, 8);
    } else {
      Store(buffer, next, e.address, 4);
    }
    next := next + AddressSize(wide);
    assert buffer[..next] == head + ToBytes(e.address, AddressSize(wide));
  }

  lemma EntriesAppend(done: seq<Element>, e: Element, wide: bool)
    ensures EntriesBytes(done + [e], wide) == EntriesBytes(done, wide) + EntryBytes(e, wide, false)
  {
    assert (done + [e])[..|done|] == done;
  }

  // The inner loop: one element.
  method WriteElement(e: Element, buffer: array<byte>, at: nat, wide: bool, total: nat, ghost done: seq<Element>)
    returns (next: nat, last: nat, totalTransferLength: nat)
    requires e.length >= 1
    requires at == |EntriesBytes(done, wide)|
    requires |EntriesBytes(done + Cut(e, ADMA2_MAX_LENGTH), wide)| <= buffer.Length
    requires buffer[..at] == EntriesBytes(done, wide)
    modifies buffer
    ensures next == |EntriesBytes(done + Cut(e, ADMA2_MAX_LENGTH), wide)| <= buffer.Length
    ensures last + 4 + AddressSize(wide) == next
    ensures buffer[..next] == EntriesBytes(done + Cut(e, ADMA2_MAX_LENGTH), wide)
    ensures totalTransferLength == total + e.length
  {
    hide EntriesBytes, EntryBytes;
    var nextAddress: nat, remainingLength: nat := e.address, e.length;
    ghost var all := done + Cut(e, ADMA2_MAX_LENGTH);
    ghost var now := done;
    next, last, totalTransferLength := at, 0, total;
    while remainingLength > 0
      invariant now + Cut(Element(nextAddress, remainingLength), ADMA2_MAX_LENGTH) == all
      invariant next == |EntriesBytes(now, wide)| <= buffer.Length && buffer[..next] == EntriesBytes(now, wide)
      invariant totalTransferLength + remainingLength == total + e.length
      invariant remainingLength < e.length ==> last + 4 + AddressSize(wide) == next
      decreases remainingLength
    {
      var nextLength := Min(ADMA2_MAX_LENGTH, remainingLength);
      ghost var piece := Element(nextAddress, nextLength);
      ghost var rest := Element(nextAddress + nextLength, remainingLength - nextLength);
      CutStep(now, nextAddress, remainingLength, all);
      EntriesAppend(now, piece, wide);
      EntriesRoom(now + [piece], Cut(rest, ADMA2_MAX_LENGTH), wide);
      remainingLength := remainingLength - nextLength;
      totalTransferLength := totalTransferLength + nextLength;
      last := next;
      next := WriteEntry(buffer, next, Element(nextAddress, nextLength), wide);
      nextAddress := nextAddress + nextLength;
      now := now + [piece];
    }
    CutDone(now, nextAddress, all);
  }

  lemma CutDone(now: seq<Element>, address: nat, all: seq<Element>)
    requires now + Cut(Element(address, 0), ADMA2_MAX_LENGTH) == all
    ensures now == all
  {
    assert now + [] == now;
  }

  lemma CutStep(now: seq<Element>, address: nat, length: nat, all: seq<Element>)
    requires length > 0 && now + Cut(Element(address, length), ADMA2_MAX_LENGTH) == all
    ensures var n := Min(ADMA2_MAX_LENGTH, length);
      (now + [Element(address, n)]) + Cut(Element(address + n, length - n), ADMA2_MAX_LENGTH) == all
  {}

  lemma {:induction false} EntriesRoom(a: seq<Element>, b: seq<Element>, wide: bool)
    ensures |EntriesBytes(a, wide)| <= |EntriesBytes(a + b, wide)|
    decreases |b|
  {
    if b == [] {
      assert a + b == a;
    } else {
      EntriesRoom(a, b[..|b| - 1], wide);
      assert a + b == a + b[..|b| - 1] + [b[|b| - 1]];
      EntriesAppend(a + b[..|b| - 1], b[|b| - 1], wide);
    }
  }

  // Setting END in the last entry.
  lemma EndBit(e: Element, wide: bool)
    requires e.length < 0x1_0000
    ensures EntryBytes(e, wide, false)[0] + END < 256
    ensures EntryBytes(e, wide, true) == EntryBytes(e, wide, false)[0 := EntryBytes(e, wide, false)[0] + END]
  {
    hide ToBytes, EntryWord;
    var a, b := EntryWord(false, e.length), EntryWord(true, e.length);
    FirstByte(e.length);
    ToBytesStep(a, 4);
    ToBytesStep(b, 4);
    SetFirst(a % 256, b % 256, ToBytes(a / 256, 3), ToBytes(e.address, AddressSize(wide)));
  }

  lemma FirstByte(length: nat)
    ensures EntryWord(false, length) % 256 == 0x21 && EntryWord(false, length) / 256 == 256 * length
    ensures EntryWord(true, length) % 256 == 0x23 && EntryWord(true, length) / 256 == 256 * length
  {}

  lemma ToBytesStep(v: nat, n: nat)
    requires n >= 1
    ensures ToBytes(v, n) == [v % 256] + ToBytes(v / 256, n - 1)
  {}

  lemma SetFirst(x: byte, y: byte, s: seq<byte>, t: seq<byte>)
    ensures ([x] + s + t)[0 := y] == [y] + s + t
  {}

  /** The bytes written read back as the list cut into pieces, the last one and
      no other ending the table; the length counted is the list's. */
  method CreateAdmaDescriptorTable(list: seq<Element>, buffer: array<byte>, use64BitDescriptor: bool)
    returns (totalTransferLength: nat)
    requires list != [] && Below(list, Pow256(AddressSize(use64BitDescriptor))) && Total(list) < WORD
    requires |Pieces(list, ADMA2_MAX_LENGTH)| * (4 + AddressSize(use64BitDescriptor)) <= buffer.Length
    modifies buffer
    ensures Walk(buffer[..], use64BitDescriptor) == Some(Pieces(list, 0xf000))
    ensures totalTransferLength == Total(list)
  {
    hide EntriesBytes, EntryBytes, Walk, Fits, Pieces;
    ghost var all := Pieces(list, ADMA2_MAX_LENGTH);
    totalTransferLength := 0;
    var next, last := 0, 0;
    var i := 0;
    NoEntries(use64BitDescriptor);
    NoPieces(list, ADMA2_MAX_LENGTH);
    while i < |list|
      invariant i <= |list| && totalTransferLength == Total(list[..i])
      invariant next == |EntriesBytes(Pieces(list[..i], ADMA2_MAX_LENGTH), use64BitDescriptor)| <= buffer.Length
      invariant buffer[..next] == EntriesBytes(Pieces(list[..i], ADMA2_MAX_LENGTH), use64BitDescriptor)
      invariant i > 0 ==> last + 4 + AddressSize(use64BitDescriptor) == next
    {
      ghost var done := Pieces(list[..i], ADMA2_MAX_LENGTH);
      PiecesStep(list, ADMA2_MAX_LENGTH, i);
      RoomForPrefix(list, i + 1, use64BitDescriptor, buffer.Length);
      TotalStep(list, i);
      assert list[i] in list;
      next, last, totalTransferLength := WriteElement(list[i], buffer, next, use64BitDescriptor, totalTransferLength, done);
      i := i + 1;
    }
    assert list[..i] == list;
    assert list[|list| - 1] in list;
    SomePiece(list, ADMA2_MAX_LENGTH);
    PiecesFit(list, use64BitDescriptor);
    ghost var e := all[|all| - 1];
    assert e in all;
    EntriesAppend(all[..|all| - 1], e, use64BitDescriptor);
    assert all[..|all| - 1] + [e] == all;
    FitsLength(e, use64BitDescriptor);
    EndBit(e, use64BitDescriptor);
    EndWritten(buffer[..next], EntriesBytes(all[..|all| - 1], use64BitDescriptor), EntryBytes(e, use64BitDescriptor, false), last);
    buffer[last] := buffer[last] + END;
    assert buffer[..next] == TableBytes(all, use64BitDescriptor);
    assert buffer[..] == buffer[..next] + buffer[next..];
    WalkTable(all, use64BitDescriptor, buffer[next..]);
  }

  lemma EndWritten(s: seq<byte>, front: seq<byte>, entry: seq<byte>, last: nat)
    requires s == front + entry && |entry| > 0 && last + |entry| == |s| && entry[0] + END < 256
    ensures s[last] == entry[0] && s[last := entry[0] + END] == front + entry[0 := entry[0] + END]
  {}

  lemma FitsLength(e: Element, wide: bool)
    requires Fits(e, wide)
    ensures e.length < 0x1_0000
  {}

  lemma NoPieces(list: seq<Element>, limit: nat)
    requires limit >= 1
    ensures Pieces(list[..0], limit) == []
  {}

  lemma TotalStep(list: seq<Element>, i: nat)
    requires i < |list|
    ensures Total(list[..i + 1]) == Total(list[..i]) + list[i].length
  {
    assert list[..i + 1][..i] == list[..i];
  }

  lemma RoomForPrefix(list: seq<Element>, i: nat, wide: bool, room: nat)
    requires i <= |list| && |Pieces(list, ADMA2_MAX_LENGTH)| * (4 + AddressSize(wide)) <= room
    ensures |EntriesBytes(Pieces(list[..i], ADMA2_MAX_LENGTH), wide)| <= room
  {
    hide EntriesBytes, Pieces, AddressSize;
    var part, all := Pieces(list[..i], ADMA2_MAX_LENGTH), Pieces(list, ADMA2_MAX_LENGTH);
    PiecesPrefix(list, ADMA2_MAX_LENGTH, i);
    EntriesRoom(part, all[|part|..], wide);
    assert part + all[|part|..] == all;
  }

  lemma PiecesFit(list: seq<Element>, wide: bool)
    requires Below(list, Pow256(AddressSize(wide)))
    ensures forall p | p in Pieces(list, ADMA2_MAX_LENGTH) :: Fits(p, wide)
  {
    PiecesMean(list, ADMA2_MAX_LENGTH, Pow256(AddressSize(wide)));
  }
}
