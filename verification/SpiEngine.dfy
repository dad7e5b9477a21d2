/** The polled transfer engine of the SPI driver (hw.c) against hardware that
    makes progress whenever it likes.

    The controller clocks frames out of its transmit FIFO; every frame sent
    brings one back.  What the slave answers to a frame may depend on every frame
    before it.  The status register may lag: it says "not full", "not empty" or
    "not busy" only when that is so, but may hold the news back for any time. */
module SpiEngine {
  import opened Arith
  import opened Words

  const RKSPI_FIFO_DEPTH := 32
  const RKSPI_MAX_FRAMES := 0xffff
  const RKSPI_BAUDR_MIN := 2
  const RKSPI_BAUDR_MAX := 65534
  const RK3XSPI_DEFAULT_HZ := 1_000_000

  // ------------------------------------------------------------- the baud rate

  function AskedHz(targetHz: word): (t: word)
    ensures t > 0
  {
    if targetHz == 0 then RK3XSPI_DEFAULT_HZ else targetHz
  }

  // In 32-bit arithmetic.
  function ComputeBaudr(inputClockHz: word, targetHz: word): nat {
    var target := AskedHz(targetHz);
    var baudr := (inputClockHz + target - 1) % WORD / target;
    var atLeast := if baudr < RKSPI_BAUDR_MIN then RKSPI_BAUDR_MIN else baudr;
    var even := (atLeast + 1) / 2 * 2; // & ~1
    if even > RKSPI_BAUDR_MAX then RKSPI_BAUDR_MAX else even
  }

  lemma Ceiling(n: nat, d: nat)
    requires d >= 1
    ensures var q := (n + d - 1) / d; q * d >= n && (q > 0 ==> (q - 1) * d < n)
  {
    var q, r := (n + d - 1) / d, (n + d - 1) % d;
    assert n + d - 1 == q * d + r;
    assert (q - 1) * d == q * d - d;
  }

  // The least even divider of the register that does not exceed the rate, if
  // there is one: the rate is exceeded only if even the greatest exceeds it.
  ghost predicate LeastDivider(inputClockHz: word, target: nat, b: nat) {
    && (inputClockHz <= b * target <==> inputClockHz <= 65534 * target)
    && (forall e: nat | e % 2 == 0 && 2 <= e <= 65534 && inputClockHz <= e * target :: b <= e)
  }

  // The sum does not wrap, or half the clock is no faster than asked, or no
  // divider is great enough.
  predicate SumIsHarmless(inputClockHz: word, target: nat) {
    inputClockHz + target - 1 < WORD || inputClockHz <= 2 * target || inputClockHz > RKSPI_BAUDR_MAX * target
  }

  /** The divider is always an even one that the register takes; it is the least
      that does not exceed the rate exactly where the wrapping sum is harmless,
      as it is for every clock up to 2147 MHz. */
  lemma BaudrIs(inputClockHz: word, targetHz: word)
    ensures var t := if targetHz == 0 then 1_000_000 else targetHz;
      var b := ComputeBaudr(inputClockHz, targetHz);
      && b % 2 == 0 && 2 <= b <= 65534
      && (LeastDivider(inputClockHz, t, b) <==> SumIsHarmless(inputClockHz, t))
      && (inputClockHz <= 0x8000_0000 ==> SumIsHarmless(inputClockHz, t))
  {
    var t := AskedHz(targetHz);
    var b := ComputeBaudr(inputClockHz, targetHz);
    if inputClockHz + t - 1 < WORD {
      BaudrWithoutWrap(inputClockHz, targetHz);
    } else {
      var sum := inputClockHz + t - 1;
      DivModUnique(sum, WORD, 1, sum - WORD);
      DivModUnique(sum - WORD, t, 0, sum - WORD);
      assert b == 2;
      if inputClockHz <= 2 * t {
        assert 2 * t <= RKSPI_BAUDR_MAX * t;
      } else if inputClockHz > RKSPI_BAUDR_MAX * t {
        forall e: nat | RKSPI_BAUDR_MIN <= e <= RKSPI_BAUDR_MAX ensures inputClockHz > e * t { ScaleUp(e, RKSPI_BAUDR_MAX, t); }
      }
    }
  }

  // A clock of 4295 MHz, asked for the default 1 MHz, is only halved.
  lemma FastestClockIsHalved()
    ensures ComputeBaudr(0xffff_ffff, 0) == 2 && !LeastDivider(0xffff_ffff, AskedHz(0), 2)
  {
    BaudrIs(0xffff_ffff, 0);
  }

  lemma BaudrWithoutWrap(inputClockHz: word, targetHz: word)
    requires inputClockHz + AskedHz(targetHz) - 1 < WORD
    ensures var b := ComputeBaudr(inputClockHz, targetHz);
      b % 2 == 0 && RKSPI_BAUDR_MIN <= b <= RKSPI_BAUDR_MAX && LeastDivider(inputClockHz, AskedHz(targetHz), b)
  {
    var t := AskedHz(targetHz);
    var q := (inputClockHz + t - 1) / t;
    var b := ComputeBaudr(inputClockHz, targetHz);
    Ceiling(inputClockHz, t);
    BaudrShape(inputClockHz, targetHz, q, b);
    hide ComputeBaudr;
    if b < q {
      ScaleUp(RKSPI_BAUDR_MAX, q - 1, t);
    } else {
      ScaleUp(q, b, t);
      ScaleUp(b, RKSPI_BAUDR_MAX, t);
    }
    forall e: nat | e % 2 == 0 && RKSPI_BAUDR_MIN <= e <= RKSPI_BAUDR_MAX && inputClockHz <= e * t ensures b <= e {
      if e < q { ScaleUp(e, q - 1, t); }
    }
  }

  // The quotient, made even and brought into range.
  lemma BaudrShape(inputClockHz: word, targetHz: word, q: nat, b: nat)
    requires b == ComputeBaudr(inputClockHz, targetHz) && inputClockHz + AskedHz(targetHz) - 1 < WORD
    requires q == (inputClockHz + AskedHz(targetHz) - 1) / AskedHz(targetHz)
    ensures b % 2 == 0 && RKSPI_BAUDR_MIN <= b <= RKSPI_BAUDR_MAX
    ensures b < q ==> b == RKSPI_BAUDR_MAX
    ensures forall e: nat | e % 2 == 0 && e >= q && RKSPI_BAUDR_MIN <= e <= RKSPI_BAUDR_MAX :: b <= e
  {}

  // -------------------------------------------------------------- the hardware

  datatype Status = Success | IoTimeout | InvalidParameter | InsufficientResources

  // RKSPI_SR.
  datatype Sr = Sr(busy: bool, tfFull: bool, rfEmpty: bool)

  // What comes back for a sequence of frames.
  ghost function Replies(slave: seq<byte> -> byte, frames: seq<byte>): (s: seq<byte>)
    ensures |s| == |frames|
  {
    seq(|frames|, i requires 0 <= i < |frames| => slave(frames[..i]))
  }

  // What is sent: the caller's bytes, or zeros.
  function Zeros(n: nat): (s: seq<byte>)
    ensures |s| == n
  {
    seq(n, _ => 0)
  }

  // The registers that say to whom and how a frame is sent.
  datatype Setting = Setting(ser: word, ctrlr0: word, baudr: word)

  // One line and no other is selected, in this mode and at this rate.
  ghost predicate SentTo(x: Setting, chipSelect: nat, cpolHigh: bool, cphaSecond: bool, targetBaudr: word) {
    && (forall c: nat | c < 32 :: Selects(x.ser, c) <==> c == chipSelect)
    && x.ctrlr0 == 1 + (if cpolHigh then 0x80 else 0) + (if cphaSecond then 0x40 else 0)
    && x.baudr == targetBaudr
  }

  // Bit c of the select register.
  function Selects(ser: word, c: nat): bool { ser / Pow2(c) % 2 == 1 }

  lemma {:induction false} PowSum(m: nat, n: nat)
    ensures Pow2(m + n) == Pow2(m) * Pow2(n)
    decreases m
  {
    if m > 0 { PowSum(m - 1, n); }
  }

  lemma {:induction false} PowLess(m: nat, n: nat)
    requires m < n
    ensures Pow2(m) < Pow2(n)
    decreases n
  {
    if m < n - 1 { PowLess(m, n - 1); }
  }

  lemma LineFits(line: nat)
    requires line < 32
    ensures Pow2(line) < WORD
  {
    PowLess(line, 32);
    PowFour();
    hide Pow2;
    PowSum(4, 4);
    assert Pow2(8) == 0x100;
    PowSum(8, 8);
    assert Pow2(16) == 0x1_0000;
    PowSum(16, 16);
  }

  lemma PowFour()
    ensures Pow2(4) == 16
  {
    assert Pow2(2) == 4;
  }

  // A power of two has its own bit set and no other.
  lemma OneLine(line: nat, c: nat)
    requires line < 32
    ensures Pow2(line) < WORD && (Selects(Pow2(line), c) <==> c == line)
  {
    LineFits(line);
    if line < c {
      PowLess(line, c);
      DivModUnique(Pow2(line), Pow2(c), 0, Pow2(line));
    } else if line > c {
      PowSum(line - c, c);
      DivModUnique(Pow2(line), Pow2(c), Pow2(line - c), 0);
      DivModUnique(Pow2(line - c), 2, Pow2(line - c - 1), 0);
    } else {
      DivModUnique(Pow2(line), Pow2(c), 1, 0);
    }
  }

  class Controller {
    const slave: seq<byte> -> byte
    const txDepth: nat
    const rxDepth: nat

    // registers
    var enabled: bool            // SSIENR
    var ser: word
    var ctrlr0: word
    var ctrlr1: word
    var baudr: word

    // behind them
    var txFifo: seq<byte>
    var shifting: seq<byte>    // the frame on the wire, if any
    var rxFifo: seq<byte>
    var framesLeft: nat        // of the CTRLR1 + 1 frames of this enable
    var wire: seq<byte>              // the frames clocked since the transfer began
    var overrun: bool                // a frame came back to a full FIFO
    ghost var under: seq<Setting>    // what each frame was put on the wire under

    var patience: nat                // polls before the deadline

    constructor (slave: seq<byte> -> byte, txDepth: nat, rxDepth: nat)
      requires txDepth >= RKSPI_FIFO_DEPTH && rxDepth >= RKSPI_FIFO_DEPTH
      ensures Deep() && this.slave == slave
    {
      this.slave, this.txDepth, this.rxDepth := slave, txDepth, rxDepth;
      enabled, ser, ctrlr0, ctrlr1, baudr, patience := false, 0, 0, 0, 0, 0;
      txFifo, shifting, rxFifo, framesLeft, wire, overrun, under := [], [], [], 0, [], false, [];
    }

    // The FIFOs are at least as deep as the driver takes them to be.
    ghost predicate Deep() {
      txDepth >= 32 && rxDepth >= 32
    }

    /** Of the frames wanted, `pushed` have been written and `taken` have been read
        back: every other one is in exactly one place, in order, and there are
        few enough of them for the receive FIFO. */
    ghost predicate Flow(want: seq<byte>, pushed: nat, taken: nat)
      reads `enabled, `txFifo, `shifting, `rxFifo, `framesLeft, `wire, `overrun, `under, `ser, `ctrlr0, `baudr
    {
      && Deep() && enabled && !overrun
      && taken <= |wire| <= pushed <= |want| && pushed - taken <= RKSPI_FIFO_DEPTH
      && |shifting| <= 1 && wire + shifting + txFifo == want[..pushed]
      && rxFifo == Replies(slave, want)[taken..|wire|]
      && |txFifo| <= framesLeft
      && |under| >= |wire| + |shifting| && AllUnder(Setting(ser, ctrlr0, baudr))
    }

    // Every frame since the transfer began was sent under these.
    ghost predicate AllUnder(setting: Setting)
      reads `under
    {
      forall x | x in under :: x == setting
    }

    // The controller does one thing: it finishes the frame on the wire or puts
    // the next one on it.
    method DeviceStep(ghost want: seq<byte>, ghost pushed: nat, ghost taken: nat)
      requires Flow(want, pushed, taken)
      modifies `txFifo, `shifting, `rxFifo, `framesLeft, `wire, `overrun, `under
      ensures Flow(want, pushed, taken) && framesLeft <= old(framesLeft)
      ensures framesLeft + |wire| + |shifting| == old(framesLeft + |wire| + |shifting|)
    {
      if shifting != [] {
        NextFrame(want, pushed);
        NextReply(want, taken, |wire|);
        var reply := slave(wire);
        overrun := overrun || |rxFifo| >= rxDepth;
        rxFifo := if |rxFifo| < rxDepth then rxFifo + [reply] else rxFifo;
        wire := wire + shifting;
        shifting := [];
      } else if ser != 0 && txFifo != [] && framesLeft > 0 {
        shifting := txFifo[..1];
        under := under + [Setting(ser, ctrlr0, baudr)];
        txFifo := txFifo[1..];
        framesLeft := framesLeft - 1;
      }
    }

    lemma NextFrame(want: seq<byte>, pushed: nat)
      requires pushed <= |want| && |shifting| == 1 && wire + shifting + txFifo == want[..pushed]
      ensures |wire| < pushed && wire == want[..|wire|] && (wire + shifting) + [] + txFifo == want[..pushed]
    {
      assert (wire + shifting + txFifo)[..|wire|] == wire;
    }

    lemma NextReply(want: seq<byte>, taken: nat, n: nat)
      requires taken <= n < |want|
      ensures Replies(slave, want)[taken..n + 1] == Replies(slave, want)[taken..n] + [slave(want[..n])]
    {}

    // Between any two things the driver does.
    method Progress(ghost want: seq<byte>, ghost pushed: nat, ghost taken: nat)
      requires Flow(want, pushed, taken)
      modifies `txFifo, `shifting, `rxFifo, `framesLeft, `wire, `overrun, `under
      ensures Flow(want, pushed, taken)
      ensures framesLeft + |wire| + |shifting| == old(framesLeft + |wire| + |shifting|)
    {
      hide Flow;
      var steps: int := *;
      while steps > 0
        invariant Flow(want, pushed, taken)
        invariant framesLeft + |wire| + |shifting| == old(framesLeft + |wire| + |shifting|)
      {
        DeviceStep(want, pushed, taken);
        steps := steps - 1;
      }
    }

    // What the status register may say.
    predicate Honest(sr: Sr)
      reads `txFifo, `shifting, `rxFifo
    {
      (!sr.tfFull ==> |txFifo| < txDepth) && (!sr.rfEmpty ==> rxFifo != []) && (!sr.busy ==> shifting == [] && txFifo == [])
    }

    method ReadStatus(ghost want: seq<byte>, ghost pushed: nat, ghost taken: nat) returns (sr: Sr)
      requires Flow(want, pushed, taken)
      modifies `txFifo, `shifting, `rxFifo, `framesLeft, `wire, `overrun, `under
      ensures Flow(want, pushed, taken) && Honest(sr)
      ensures framesLeft + |wire| + |shifting| == old(framesLeft + |wire| + |shifting|)
    {
      hide Flow;
      Progress(want, pushed, taken);
      assert Honest(Sr(true, true, true));
      sr :| Honest(sr);
    }

    // A write to TXDR.
    method WriteTx(b: byte, ghost want: seq<byte>, ghost pushed: nat, ghost taken: nat)
      requires Flow(want, pushed, taken) && |txFifo| < framesLeft
      requires pushed < |want| && b == want[pushed] && pushed - taken < RKSPI_FIFO_DEPTH
      modifies `txFifo
      ensures Flow(want, pushed + 1, taken)
    {
      hide Replies;
      assert wire + shifting + (txFifo + [b]) == want[..pushed + 1];
      txFifo := txFifo + [b];
    }

    // A read of RXDR.
    method ReadRx(ghost want: seq<byte>, ghost pushed: nat, ghost taken: nat) returns (v: byte)
      requires Flow(want, pushed, taken) && rxFifo != []
      modifies `rxFifo
      ensures Flow(want, pushed, taken + 1)
      ensures taken < |want| && v == Replies(slave, want)[taken]
    {
      v := rxFifo[0];
      rxFifo := rxFifo[1..];
      assert rxFifo == Replies(slave, want)[taken + 1..|wire|];
    }

    // A write of 0 to SSIENR: whatever is in flight is lost.
    method Disable()
      modifies `enabled, `txFifo, `shifting, `rxFifo
      ensures !enabled && txFifo == [] && shifting == [] && rxFifo == []
    {
      enabled, txFifo, shifting, rxFifo := false, [], [], [];
    }

    method TimedOut() returns (late: bool)
      modifies `patience
      ensures if old(patience) == 0 then late && patience == 0 else !late && patience == old(patience) - 1
    {
      late := patience == 0;
      if !late { patience := patience - 1; }
    }

    // ------------------------------------------------------------ the driver

    // The frames a transfer is to send.
    ghost function Wanted(tx: array?<byte>, length: nat): (s: seq<byte>)
      reads tx
      requires tx != null ==> length <= tx.Length
      ensures |s| == length
    {
      if tx != null then tx[..length] else Zeros(length)
    }

    // The bytes still to be sent are still there.
    ghost predicate Unsent(tx: array?<byte>, want: seq<byte>, from: nat)
      reads tx
    {
      tx != null && |want| <= tx.Length ==> forall k | from <= k < |want| :: tx[k] == want[k]
    }

    // The replies read so far are in place and nothing else was touched.
    ghost predicate Received(rx: array?<byte>, was: seq<byte>, want: seq<byte>, taken: nat)
      reads rx
    {
      rx != null ==>
        && rx.Length == |was| && taken <= |want| <= |was|
        && (forall k | 0 <= k < taken :: rx[k] == Replies(slave, want)[k])
        && (forall k | taken <= k < |was| :: rx[k] == was[k])
    }

    // The loop that pushes.
    method Push(tx: array?<byte>, done: nat, chunk: nat, txi0: nat, rxi: nat, ghost want: seq<byte>) returns (txi: nat)
      requires tx != null ==> |want| <= tx.Length
      requires rxi <= txi0 <= chunk && done + chunk <= |want|
      requires Flow(want, done + txi0, done + rxi) && Unsent(tx, want, done + txi0) && (tx == null ==> want == Zeros(|want|))
      requires framesLeft + |wire| + |shifting| == done + chunk
      modifies `txFifo, `shifting, `rxFifo, `framesLeft, `wire, `overrun, `under
      ensures txi0 <= txi <= chunk && Flow(want, done + txi, done + rxi)
      ensures framesLeft + |wire| + |shifting| == done + chunk
    {
      hide Flow;
      txi := txi0;
      while txi < chunk && txi - rxi < RKSPI_FIFO_DEPTH
        invariant txi0 <= txi <= chunk && Flow(want, done + txi, done + rxi)
        invariant framesLeft + |wire| + |shifting| == done + chunk
        decreases chunk - txi
      {
        var sr := ReadStatus(want, done + txi, done + rxi);
        if sr.tfFull {
          break;
        }
        var b := if tx != null then tx[done + txi] else 0;
        RoomForFrame(want, done + txi, done + rxi, done + chunk);
        WriteTx(b, want, done + txi, done + rxi);
        txi := txi + 1;
      }
    }

    lemma RoomForFrame(want: seq<byte>, pushed: nat, taken: nat, end: nat)
      requires Flow(want, pushed, taken) && pushed < end && framesLeft + |wire| + |shifting| == end
      ensures |txFifo| < framesLeft
    {
      assert |wire + shifting + txFifo| == pushed;
    }

    // The loop that drains.
    method Drain(rx: array?<byte>, done: nat, chunk: nat, txi: nat, rxi0: nat, ghost want: seq<byte>, ghost was: seq<byte>)
      returns (rxi: nat)
      requires rxi0 <= txi <= chunk && done + chunk <= |want| && (rx != null ==> |want| <= |was|)
      requires Flow(want, done + txi, done + rxi0) && Received(rx, was, want, done + rxi0)
      requires framesLeft + |wire| + |shifting| == done + chunk
      modifies `txFifo, `shifting, `rxFifo, `framesLeft, `wire, `overrun, `under, rx
      ensures rxi0 <= rxi <= txi && Flow(want, done + txi, done + rxi) && Received(rx, was, want, done + rxi)
      ensures framesLeft + |wire| + |shifting| == done + chunk
    {
      hide Flow;
      rxi := rxi0;
      var sr := ReadStatus(want, done + txi, done + rxi);
      while rxi < chunk && !sr.rfEmpty
        invariant rxi0 <= rxi <= txi && Flow(want, done + txi, done + rxi) && Received(rx, was, want, done + rxi)
        invariant framesLeft + |wire| + |shifting| == done + chunk
        invariant Honest(sr)
        decreases chunk - rxi
      {
        var v := ReadRx(want, done + txi, done + rxi);
        if rx != null {
          rx[done + rxi] := v;
        }
        rxi := rxi + 1;
        TakenBound(want, done + txi, done + rxi);
        sr := ReadStatus(want, done + txi, done + rxi);
      }
    }

    lemma TakenBound(want: seq<byte>, pushed: nat, taken: nat)
      requires Flow(want, pushed, taken)
      ensures taken <= pushed
    {}

    // What the two buffers have to do with each other: they are the same one or
    // have nothing in common.
    ghost predicate Buffers(tx: array?<byte>, rx: array?<byte>, want: seq<byte>, was: seq<byte>) {
      && (tx != null ==> |want| <= tx.Length) && (tx == null ==> want == Zeros(|want|))
      && (rx != null ==> |want| <= |was|)
      && (tx != null && tx == rx ==> want == was[..|want|])
    }

    // One chunk: push and drain until every frame has come back, or it is late.
    method PumpChunk(tx: array?<byte>, rx: array?<byte>, done: nat, chunk: nat, ghost want: seq<byte>, ghost was: seq<byte>)
      returns (late: bool, ghost txi: nat, ghost rxi: nat)
      requires Buffers(tx, rx, want, was) && done + chunk <= |want|
      requires Flow(want, done, done) && framesLeft + |wire| + |shifting| == done + chunk
      requires Unsent(tx, want, done) && Received(rx, was, want, done)
      modifies `txFifo, `shifting, `rxFifo, `framesLeft, `wire, `overrun, `under, `patience, rx
      ensures rxi <= txi <= chunk && Flow(want, done + txi, done + rxi) && Received(rx, was, want, done + rxi)
      ensures Unsent(tx, want, done + txi)
      ensures if late then patience == 0 else rxi == txi == chunk
    {
      hide Flow;
      late := false;
      var sentIndex, readIndex := 0, 0;
      while readIndex < chunk
        invariant readIndex <= sentIndex <= chunk && Flow(want, done + sentIndex, done + readIndex)
        invariant Unsent(tx, want, done + sentIndex) && Received(rx, was, want, done + readIndex)
        invariant framesLeft + |wire| + |shifting| == done + chunk
        invariant !late
        decreases patience
      {
        sentIndex := Push(tx, done, chunk, sentIndex, readIndex, want);
        readIndex := Drain(rx, done, chunk, sentIndex, readIndex, want, was);
        late := TimedOut();
        if late {
          break;
        }
      }
      txi, rxi := sentIndex, readIndex;
    }

    // All frames have left the engine when it goes idle.
    method WaitIdle(ghost want: seq<byte>, ghost pushed: nat, ghost taken: nat) returns (late: bool)
      requires Flow(want, pushed, taken)
      modifies `txFifo, `shifting, `rxFifo, `framesLeft, `wire, `overrun, `under, `patience
      ensures Flow(want, pushed, taken) && (late ==> patience == 0)
    {
      hide Flow;
      late := false;
      var sr := ReadStatus(want, pushed, taken);
      while sr.busy
        invariant Flow(want, pushed, taken) && !late
        decreases patience
      {
        late := TimedOut();
        if late {
          return;
        }
        sr := ReadStatus(want, pushed, taken);
      }
    }

    // All that were pushed have come back: nothing is in flight.
    lemma NothingInFlight(want: seq<byte>, n: nat)
      requires Flow(want, n, n)
      ensures wire == want[..n] && shifting == [] && txFifo == [] && rxFifo == [] && !overrun
    {
      assert |wire + shifting + txFifo| == n;
    }

    lemma NothingUnder(setting: Setting)
      requires under == []
      ensures AllUnder(setting)
    {}

    lemma WireIsPrefix(want: seq<byte>, pushed: nat, taken: nat)
      requires Flow(want, pushed, taken)
      ensures !overrun && wire <= want
      ensures |under| >= |wire| && AllUnder(Setting(ser, ctrlr0, baudr))
    {
      assert (wire + shifting + txFifo)[..|wire|] == wire;
    }

    // RKSPI_SER_CS.
    function SelectLine(chipSelect: nat): word
      requires chipSelect < 32
    {
      LineFits(chipSelect);
      Pow2(chipSelect)
    }

    // Program and start one chunk.
    method StartChunk(chunk: nat, chipSelect: nat, ghost want: seq<byte>, ghost done: nat)
      requires 1 <= chunk <= RKSPI_MAX_FRAMES && chipSelect < 32
      requires Deep() && !overrun && done + chunk <= |want| && wire == want[..done]
      requires txFifo == [] && shifting == [] && rxFifo == []
      requires |under| >= |wire| && AllUnder(Setting(SelectLine(chipSelect), ctrlr0, baudr))
      modifies `enabled, `ctrlr1, `framesLeft, `ser, `txFifo, `shifting, `rxFifo
      ensures Flow(want, done, done) && framesLeft == chunk == ctrlr1 + 1 && ser == SelectLine(chipSelect)
    {
      Disable();
      ctrlr1 := chunk - 1;
      enabled := true;
      framesLeft := ctrlr1 % 0x1_0000 + 1; // sixteen bits of it
      ser := SelectLine(chipSelect);
    }

    // The loop over the chunks.
    method Chunks(tx: array?<byte>, rx: array?<byte>, length: nat, chipSelect: nat, ghost want: seq<byte>, ghost was: seq<byte>)
      returns (status: Status, ghost taken: nat)
      requires Buffers(tx, rx, want, was) && |want| == length && chipSelect < 32
      requires Deep() && !overrun && wire == [] && txFifo == [] && shifting == [] && rxFifo == [] && under == []
      requires Unsent(tx, want, 0) && Received(rx, was, want, 0)
      modifies this, rx
      ensures unchanged(`ctrlr0) && unchanged(`baudr)
      ensures !overrun && wire <= want
      ensures |under| >= |wire| && AllUnder(Setting(SelectLine(chipSelect), ctrlr0, baudr))
      ensures taken <= length && Received(rx, was, want, taken)
      ensures if status.Success? then wire == want && taken == length else status == IoTimeout && patience == 0
    {
      hide Flow, Unsent, Received, AllUnder, SelectLine;
      NothingUnder(Setting(SelectLine(chipSelect), ctrlr0, baudr));
      var done := 0;
      taken := 0;
      while done < length
        invariant done <= length && wire == want[..done] && !overrun && txFifo == [] && shifting == [] && rxFifo == []
        invariant Unsent(tx, want, done) && Received(rx, was, want, done)
        invariant unchanged(`ctrlr0) && unchanged(`baudr)
        invariant |under| >= |wire| && AllUnder(Setting(SelectLine(chipSelect), ctrlr0, baudr))
      {
        var chunk := length - done;
        if chunk > RKSPI_MAX_FRAMES {
          chunk := RKSPI_MAX_FRAMES;
        }
        StartChunk(chunk, chipSelect, want, done);
        var late, txi, rxi := PumpChunk(tx, rx, done, chunk, want, was);
        WireIsPrefix(want, done + txi, done + rxi);
        taken := done + rxi;
        if late {
          return IoTimeout, taken;
        }
        late := WaitIdle(want, done + chunk, done + chunk);
        WireIsPrefix(want, done + chunk, done + chunk);
        NothingInFlight(want, done + chunk);
        done := done + chunk;
        taken := done;
        if late {
          return IoTimeout, taken;
        }
      }
      return Success, done;
    }

    ghost function Content(a: array?<byte>): seq<byte>
      reads a
    {
      if a == null then [] else a[..]
    }

    /** On success the frames sent are the caller's bytes (or zeros), and byte i
        received is the slave's answer to frame i; every frame was sent with the
        one chip selected and in the caller's mode and rate; whatever happens, no frame that
        came back was lost to a full FIFO, what went out is a prefix of what was
        to be sent, the chip select is released and the controller disabled, and
        it gives up only after the last of its `polls` looks at the clock.
        The two buffers may be one and the same. */
    method Transfer(cpolHigh: bool, cphaSecond: bool, targetBaudr: word, chipSelect: nat,
                    tx: array?<byte>, rx: array?<byte>, length: nat, polls: nat)
      returns (status: Status, ghost taken: nat)
      requires Deep() && chipSelect < 32
      requires (tx != null ==> length <= tx.Length) && (rx != null ==> length <= rx.Length)
      modifies this, rx
      ensures length == 0 ==> status == Success && unchanged(this) && taken == 0
      ensures length > 0 ==> !enabled && ser == 0 && !overrun && txFifo == [] && shifting == [] && rxFifo == []
      ensures length > 0 ==> baudr == targetBaudr && ctrlr0 == 1 + (if cpolHigh then 0x80 else 0) + (if cphaSecond then 0x40 else 0)
      ensures length > 0 ==> wire <= old(Wanted(tx, length)) && |under| >= |wire|
      ensures length > 0 ==> forall x | x in under ::
                SentTo(x, chipSelect, cpolHigh, cphaSecond, targetBaudr)
      ensures !status.Success? ==> status == IoTimeout && patience == 0
      ensures taken <= length && Received(rx, old(Content(rx)), old(Wanted(tx, length)), taken)
      ensures length > 0 && status.Success? ==> wire == old(Wanted(tx, length)) && taken == length
    {
      hide Flow, Selects;
      status, taken := Success, 0;
      ghost var want, was := Wanted(tx, length), Content(rx);
      if length == 0 {
        return;
      }
      patience := polls;
      Disable();
      wire, overrun, under := [], false, [];
      var cr0: word := 1;
      if cpolHigh {
        cr0 := cr0 + 0x80;
      }
      if cphaSecond {
        cr0 := cr0 + 0x40;
      }
      ctrlr0 := cr0;
      baudr := targetBaudr;
      status, taken := Chunks(tx, rx, length, chipSelect, want, was);
      forall c: nat | c < 32 ensures Selects(SelectLine(chipSelect), c) <==> c == chipSelect { OneLine(chipSelect, c); }
      ser := 0; // release CS
      Disable();
    }
  }
}
