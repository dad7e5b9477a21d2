/** The interrupt state machine of the I2C driver (rockchipi2c.c): a message is
    sent or received in chunks of at most 32 bytes, one interrupt a chunk, from
    or into a buffer chain.

    Interrupts may come with any flags at any moment, and the bytes received may
    be anything; the invariant Valid() holds after every one of them. */
module I2cTransfer {
  import opened Arith
  import opened Words
  import opened I2cMdlChain

  const CHUNK := 32

  datatype State = Idle | Start | Read | Write | Stop

  // REG_CON_MOD: transmit; send the address and turn around; receive.
  datatype Mode = Tx | RegisterTx | Rx

  // REG_CON, but for its tuning field, which is kept.
  datatype Con = Con(en: bool, mode: Mode, start: bool, stop: bool, lastAck: bool, actAck: bool)

  // REG_IPD without the two flags that are masked out.
  datatype Ipd = Ipd(nak: bool, start: bool, mbtf: bool, mbrf: bool, stop: bool)

  // ------------------------------------------------- the machine, without data

  // Where a message has come: bytes handed to the transmitter (the address byte
  // is one of them) or taken from the receiver.
  datatype Step = Step(state: State, progress: nat)

  predicate Any(ipd: Ipd) { ipd.start || ipd.mbtf || ipd.mbrf || ipd.stop }

  // What one interrupt does in each state.
  function Dispatch(s: Step, ipd: Ipd, write: bool, length: nat): Step {
    match s.state
    case Idle => s
    case Start =>
      if !ipd.start then s.(state := Idle)
      else if write then Step(Write, Min(s.progress + CHUNK, length + 1)) else s.(state := Read)
    case Write =>
      if !ipd.mbtf then s.(state := Idle)
      else if s.progress >= length + 1 then s.(state := Stop)
      else Step(Write, Min(s.progress + CHUNK, length + 1))
    case Read =>
      if !ipd.mbrf then s
      else if s.progress + CHUNK >= length then Step(Stop, Max(s.progress, length))
      else Step(Read, s.progress + CHUNK)
    case Stop => if ipd.stop then s.(state := Idle) else s
  }

  // A NACK ends the message first; a message that was ending goes on ending.
  function NextStep(s: Step, ipd: Ipd, write: bool, length: nat): Step {
    if s.state.Idle? then s
    else
      var t := if ipd.nak && !s.state.Stop? then s.(state := Idle) else s;
      if Any(ipd) then Dispatch(t, ipd, write, length) else t
  }

  // The error an interrupt makes the message end with, if it does.
  function ErrorOf(state: State, ipd: Ipd): Option<Status> {
    match state
    case Idle => None
    case Stop =>
      if Any(ipd) && !ipd.stop then Some(IoDeviceError) else if ipd.nak then Some(InvalidTransaction) else None
    case Read => if ipd.nak then Some(InvalidTransaction) else None
    case Start => if ipd.nak then Some(InvalidTransaction) else if Any(ipd) && !ipd.start then Some(IoDeviceError) else None
    case Write => if ipd.nak then Some(InvalidTransaction) else if Any(ipd) && !ipd.mbtf then Some(IoDeviceError) else None
  }

  // The error ends the message; without one the status only changes by a byte
  // of the memory that cannot be reached.
  predicate StatusAfter(was: Status, now: Status, error: Option<Status>) {
    if error.Some? then now == error.value else now == was || now == InfoLengthMismatch
  }

  lemma SameStatus(status: Status)
    ensures StatusAfter(status, status, None)
  {}

  // ------------------------------------------------------------- stopping

  // An interrupt, and the state it found the machine in.
  datatype Heard = Heard(state: State, flags: Ipd)

  // It came before the message was over, with a NACK or without what START or a
  // written chunk is answered with.
  predicate EndsEarly(h: Heard) {
    match h.state
    case Start => h.flags.nak || (Any(h.flags) && !h.flags.start)
    case Write => h.flags.nak || (Any(h.flags) && !h.flags.mbtf)
    case Read => h.flags.nak
    case _ => false
  }

  predicate NoneEarly(heard: seq<Heard>) { forall h | h in heard :: !EndsEarly(h) }

  predicate StopHeard(heard: seq<Heard>) { exists h :: h in heard && h.state.Stop? && h.flags.stop }

  /** STOP goes out exactly when the message has come to its end and no interrupt
      ended it early; it is confirmed exactly when the machine then rests. */
  predicate StopStory(state: State, stopSent: bool, heard: seq<Heard>) {
    && stopSent == (state.Stop? || (state.Idle? && NoneEarly(heard)))
    && (!state.Idle? ==> NoneEarly(heard))
    && (StopHeard(heard) <==> state.Idle? && stopSent)
  }

  // How the states follow each other.
  predicate Follows(h: Heard, state: State) {
    match h.state
    case Idle => state.Idle?
    case Stop => state == if h.flags.stop then Idle else Stop
    case _ => state.Idle? <==> EndsEarly(h)
  }

  lemma StoryGoesOn(h: Heard, stopSent: bool, heard: seq<Heard>, state: State)
    requires StopStory(h.state, stopSent, heard) && Follows(h, state)
    ensures StopStory(state, stopSent || state.Stop?, heard + [h])
  {
    var more := heard + [h];
    assert NoneEarly(more) <==> NoneEarly(heard) && !EndsEarly(h) by {
      assert h in more && forall x | x in heard :: x in more;
    }
    assert StopHeard(more) <==> StopHeard(heard) || (h.state.Stop? && h.flags.stop) by {
      assert h in more && forall x | x in heard :: x in more;
    }
  }

  // What a NACK leaves of an interrupt.
  lemma NakStep(s: Step, flags: Ipd, write: bool, length: nat)
    ensures s.state.Idle? ==> NextStep(s, flags, write, length) == s && Follows(Heard(Idle, flags), Idle)
    ensures var left, t := flags.(nak := false), if flags.nak && !s.state.Stop? then s.(state := Idle) else s;
      && (s.state.Idle? ==> ErrorOf(s.state, flags) == None)
      && (!s.state.Idle? ==>
            && NextStep(s, flags, write, length) == (if Any(left) then Dispatch(t, left, write, length) else t)
            && (!Any(left) ==> Follows(Heard(s.state, flags), t.state))
            && (Any(left) ==> forall x :: Follows(Heard(t.state, left), x) ==> Follows(Heard(s.state, flags), x))
            && ErrorOf(s.state, flags) ==
               if s.state.Stop? && Any(left) && !left.stop then Some(IoDeviceError)
               else if flags.nak then Some(InvalidTransaction)
               else if Any(left) then ErrorOf(s.state, left) else None)
  {
    assert !flags.nak ==> flags == flags.(nak := false);
  }

  // Rest without STOP comes from an interrupt that ends the message early.
  lemma RestsEarlyOrRested(h: Heard, stopSent: bool, heard: seq<Heard>, state: State, stopSent': bool)
    requires StopStory(h.state, stopSent, heard) && StopStory(state, stopSent', heard + [h])
    ensures state.Idle? && !stopSent' ==> EndsEarly(h) || (h.state.Idle? && !stopSent)
  {
    if !EndsEarly(h) && NoneEarly(heard) {
      assert NoneEarly(heard + [h]);
    }
  }

  // The interrupt that tells that the step before was done.
  function Expected(state: State): Ipd {
    Ipd(false, state.Start?, state.Write?, state.Read?, state.Stop?)
  }

  predicate Reachable(s: Step, write: bool, length: nat) {
    match s.state
    case Start => s.progress == 0
    case Write => write && 1 <= s.progress <= length + 1
    case Read => !write && s.progress <= length
    case _ => s.progress == if write then length + 1 else length
  }

  // Expected interrupts until the message is over.
  function InterruptsLeft(s: Step, write: bool, length: nat): nat {
    match s.state
    case Idle => 0
    case Stop => 1
    case Write => 2 + ChunksOf(length + 1 - s.progress)
    case Read => if length == s.progress then 2 else 1 + ChunksOf(length - s.progress)
    case Start => if write then 2 + ChunksOf(length + 1) else 2 + Max(ChunksOf(length), 1)
  }

  function ChunksOf(n: int): nat { if n <= 0 then 0 else (n + CHUNK - 1) / CHUNK }

  lemma OneChunkLess(n: int)
    requires n > 0
    ensures ChunksOf(n) == 1 + ChunksOf(n - CHUNK)
  {}

  lemma InterruptAdvances(s: Step, write: bool, length: nat)
    requires Reachable(s, write, length) && !s.state.Idle?
    ensures var t := NextStep(s, Expected(s.state), write, length);
      Reachable(t, write, length) && InterruptsLeft(t, write, length) == InterruptsLeft(s, write, length) - 1
  {
    hide ChunksOf;
    var left := if write then length + 1 - s.progress else length - s.progress;
    if left > 0 { OneChunkLess(left); }
    NoChunks(left - CHUNK);
    NoChunks(0);
  }

  lemma NoChunks(n: int)
    ensures n <= 0 ==> ChunksOf(n) == 0
    ensures n > 0 ==> ChunksOf(n) >= 1
  {}

  function Iterate(s: Step, write: bool, length: nat, n: nat): Step
    decreases n
  {
    if n == 0 then s else Iterate(NextStep(s, Expected(s.state), write, length), write, length, n - 1)
  }

  lemma {:induction false} IterateCompletes(s: Step, write: bool, length: nat, n: nat)
    requires Reachable(s, write, length) && n <= InterruptsLeft(s, write, length)
    ensures var t := Iterate(s, write, length, n);
      Reachable(t, write, length) && InterruptsLeft(t, write, length) == InterruptsLeft(s, write, length) - n
    decreases n
  {
    hide InterruptsLeft, NextStep, Reachable, Expected;
    if n > 0 {
      NotOver(s, write, length);
      InterruptAdvances(s, write, length);
      IterateCompletes(NextStep(s, Expected(s.state), write, length), write, length, n - 1);
    }
  }

  lemma NotOver(s: Step, write: bool, length: nat)
    requires InterruptsLeft(s, write, length) > 0
    ensures !s.state.Idle?
  {}

  /** If every step is answered by its interrupt, a message takes exactly one
      interrupt for START, one for each of its chunks (with the address byte, if
      it is a write; at least one, if it is a read) and one for STOP; it is over
      after the last of them and not before, and then all of it has been moved. */
  lemma MessageCompletes(write: bool, length: nat, n: nat)
    requires n <= if write then 2 + ChunksOf(length + 1) else 2 + Max(ChunksOf(length), 1)
    ensures var all := if write then 2 + ChunksOf(length + 1) else 2 + Max(ChunksOf(length), 1);
      var t := Iterate(Step(Start, 0), write, length, n);
      && (t.state.Idle? <==> n == all)
      && (n == all ==> t.progress == if write then length + 1 else length)
  {
    hide ChunksOf;
    NoChunks(length + 1);
    IterateCompletes(Step(Start, 0), write, length, n);
    var t := Iterate(Step(Start, 0), write, length, n);
    NoChunks(length + 1 - t.progress);
    NoChunks(length - t.progress);
  }

  // -------------------------------------------------------- bytes in registers

  function Shift(k: nat): (p: nat)
    requires k < 4
    ensures p >= 1
  {
    if k == 0 then 1 else if k == 1 then 0x100 else if k == 2 then 0x1_0000 else 0x100_0000
  }

  function ByteOf(w: word, k: nat): byte
    requires k < 4
  {
    w / Shift(k) % 256
  }

  // A word holds these bytes and nothing above them.
  predicate HoldsBytes(w: word, bytes: seq<byte>) {
    && |bytes| <= 4 && (|bytes| < 4 ==> w < Shift(|bytes|))
    && forall k | 0 <= k < |bytes| :: ByteOf(w, k) == bytes[k]
  }

  lemma PutByte(w: word, bytes: seq<byte>, b: byte)
    requires HoldsBytes(w, bytes) && |bytes| < 4
    ensures w + b * Shift(|bytes|) < WORD && HoldsBytes(w + b * Shift(|bytes|), bytes + [b])
  {
    var j := |bytes|;
    var w' := w + b * Shift(j);
    assert w' < WORD;
    DivModUnique(w', Shift(j), b, w);
    forall k | 0 <= k < j ensures ByteOf(w', k) == bytes[k] { LowerByte(w, j, k, b); }
  }

  lemma LowerByte(w: nat, j: nat, k: nat, b: byte)
    requires k < j < 4 && w < Shift(j)
    ensures (w + b * Shift(j)) / Shift(k) % 256 == w / Shift(k) % 256
  {
    var q, r := w / Shift(k), w % Shift(k);
    var up := if j == k + 1 then 1 else if j == k + 2 then 0x100 else 0x1_0000;
    assert Shift(j) == 256 * up * Shift(k);
    assert w == q * Shift(k) + r;
    MulSum(q, 256 * up * b, Shift(k));
    assert b * Shift(j) == 256 * up * b * Shift(k);
    DivModUnique(w + b * Shift(j), Shift(k), q + 256 * up * b, r);
    DivModUnique(q + 256 * up * b, 256, q / 256 + up * b, q % 256);
  }

  // The first n bytes the hardware finds in a buffer of registers.
  function BufferBytes(buffer: seq<word>, n: nat): (s: seq<byte>)
    requires n <= 4 * |buffer|
    ensures |s| == n
  {
    seq(n, k requires 0 <= k < n => ByteOf(buffer[k / 4], k % 4))
  }

  lemma BufferAppend(buffer: seq<word>, i: nat, w: word, bytes: seq<byte>)
    requires i < |buffer| && HoldsBytes(w, bytes)
    ensures BufferBytes(buffer[i := w], 4 * i + |bytes|) == BufferBytes(buffer, 4 * i) + bytes
  {
    hide ByteOf;
    var l, r := BufferBytes(buffer[i := w], 4 * i + |bytes|), BufferBytes(buffer, 4 * i) + bytes;
    forall k | 0 <= k < 4 * i + |bytes| ensures l[k] == r[k] {
      if k >= 4 * i { DivModUnique(k, 4, i, k - 4 * i); }
    }
  }

  // (address & 0x7f) << 1.
  function AddressByte(address: byte): byte { address % 0x80 * 2 }

  // UM10204: seven bits of address, then the direction.
  lemma AddressReads(address: byte)
    ensures var b := AddressByte(address);
      && b / 2 == address % 0x80 && b % 2 == 0
      && (0x100_0000 + b + 1) / 0x100 == 0x1_0000
      && (0x100_0000 + b + 1) % 0x100 / 2 == address % 0x80 && (0x100_0000 + b + 1) % 2 == 1
  {
    DivModUnique(0x100_0000 + AddressByte(address) + 1, 0x100, 0x1_0000, AddressByte(address) + 1);
  }

  // --------------------------------------------------------------- the driver

  class Context {
    var currentMdlChain: Mdl?
    var transferLength: nat        // currentDescriptor
    var i2cAddress: byte
    var mode: Mode
    var isLastMsg: bool
    var isBusy: bool
    var state: State
    var processed: nat
    var transactionStatus: Status

    var con: Con
    var txBuffer: seq<word>
    var mtxCnt: nat
    var mrxCnt: nat
    var mrxAddr: word
    var dpcs: nat                  // DPCs queued since the message was started
    var dpcQueued: bool            // one of them, or an older one, is still to run
    var event: bool                // waitEvent

    ghost var stopSent: bool       // the STOP bit has been set for this message
    ghost var heard: seq<Heard>    // its interrupts
    ghost var chain: seq<Mdl>      // the message's buffers,
    ghost var length: nat          // its length
    ghost var original: seq<byte>  // and what the buffers held at first
    ghost var sent: seq<byte>      // what the transmitter was given
    ghost var got: seq<byte>       // what was taken from the receiver

    constructor ()
      ensures state == Idle && |txBuffer| == 8 && !dpcQueued
    {
      currentMdlChain, transferLength, i2cAddress, mode := null, 0, 0, Tx;
      isLastMsg, isBusy, state, processed, transactionStatus := false, false, Idle, 0, Success;
      con, txBuffer, mtxCnt, mrxCnt, mrxAddr, dpcs := Con(false, Tx, false, false, false, false), seq(8, _ => 0), 0, 0, 0, 0;
      dpcQueued, event := false, false;
      chain, length, original, sent, got, stopSent, heard := [], 0, [], [], [], false, [];
    }

    // What a write message puts on the bus.
    ghost function Stream(): (s: seq<byte>)
      reads `i2cAddress, `chain, Buffers(chain)
      ensures |s| == |Memory(chain)| + 1
    {
      [AddressByte(i2cAddress)] + Memory(chain)
    }

    lemma Apart()
      ensures this !in Buffers(chain)
    {}

    // The memory is as it was from n on.
    ghost predicate Untouched(n: nat)
      reads `chain, `original, Buffers(chain)
    {
      |Memory(chain)| == |original| && forall i | n <= i < |original| :: Memory(chain)[i] == original[i]
    }

    // A write has come n bytes into its stream.
    ghost predicate SentTo(n: nat)
      reads `i2cAddress, `chain, `sent, Buffers(chain)
    {
      n <= |Stream()| && sent == Stream()[..n]
    }

    // A read has come n bytes into its memory.
    ghost predicate GotTo(n: nat)
      reads `chain, `got, Buffers(chain)
    {
      n <= |Memory(chain)| && got == Memory(chain)[..n]
    }

    // All of the message was moved, and nothing else.
    ghost predicate Complete()
      reads `mode, `length, `i2cAddress, `chain, `original, `sent, `got, Buffers(chain)
    {
      if mode.Tx? then SentTo(length + 1) && Untouched(0) else GotTo(length) && Untouched(length)
    }

    // The message is still at hand.
    ghost predicate Live()
      reads `currentMdlChain, `transferLength, `isLastMsg, `chain, `length
    {
      IsChain(currentMdlChain, chain) && transferLength == length && !isLastMsg
    }

    ghost predicate Writing()
      reads `currentMdlChain, `transferLength, `isLastMsg, `chain, `length, `mode, `original, `sent, `processed
      reads `transactionStatus, `i2cAddress, Buffers(chain)
    {
      && Live() && mode.Tx? && Untouched(0)
      && |sent| == processed + 1 && processed <= length && (processed == 0 ==> length == 0)
      && (transactionStatus.Success? ==> SentTo(processed + 1))
    }

    // The chunk asked for is all that remains, or 32 bytes; only the last is
    // answered with a NACK, and only the first sends the address.
    ghost predicate Reading()
      reads `currentMdlChain, `transferLength, `isLastMsg, `chain, `length, `mode, `original, `got, `processed
      reads `transactionStatus, `mrxCnt, `con, Buffers(chain)
    {
      && Live() && !mode.Tx? && Untouched(processed)
      && |got| == processed <= length
      && mrxCnt == Min(CHUNK, length - processed)
      && (con.lastAck <==> mrxCnt == length - processed)
      && con.mode == (if processed == 0 then RegisterTx else Rx)
      && (transactionStatus.Success? ==> GotTo(processed))
    }

    /** Holds from the start of a message until the next one: a message that is
        over without an error is complete, and the DPC is queued once, when the
        machine comes to rest. */
    ghost predicate Valid()
      reads `currentMdlChain, `transferLength, `isLastMsg, `chain, `length, `mode, `original, `sent, `got, `processed
      reads `transactionStatus, `i2cAddress, `mrxCnt, `con, `txBuffer, `dpcs, `state, `isBusy, Buffers(chain)
    {
      && |txBuffer| == 8 && Distinct(chain)
      && dpcs == (if state.Idle? then 1 else 0) && isBusy == !state.Idle?
      && Where()
    }

    // What each state says of the message.
    ghost predicate Where()
      reads `currentMdlChain, `transferLength, `isLastMsg, `chain, `length, `mode, `original, `sent, `got, `processed
      reads `transactionStatus, `i2cAddress, `mrxCnt, `con, `state, Buffers(chain)
    {
      match state
      case Start => Starting()
      case Write => Writing()
      case Read => Reading()
      case Stop => isLastMsg && (transactionStatus.Success? ==> Complete())
      case Idle => !con.stop && (transactionStatus.Success? ==> Complete())
    }

    ghost predicate Starting()
      reads `currentMdlChain, `transferLength, `isLastMsg, `chain, `length, `mode, `original, `sent, `got, `processed
      reads `transactionStatus, `con, Buffers(chain)
    {
      && Live() && processed == 0 && sent == [] && got == [] && transactionStatus.Success? && Untouched(0)
      && !mode.Rx? && con.mode == mode
    }

    lemma StopsOrRests()
      requires if state.Stop? then isLastMsg else state.Idle? && !con.stop
      requires transactionStatus.Success? ==> Complete()
      ensures Where()
    {
      hide Complete;
    }

    lemma WhatValidSays()
      requires Valid()
      ensures |txBuffer| == 8 && Distinct(chain) && dpcs == (if state.Idle? then 1 else 0) && isBusy == !state.Idle?
      ensures state.Start? ==> Starting()
      ensures state.Write? ==> Writing()
      ensures state.Read? ==> Reading()
    {
      hide Starting, Writing, Reading, Distinct;
    }

    lemma IsValid()
      requires |txBuffer| == 8 && Distinct(chain) && dpcs == 0 && isBusy
      requires (state.Start? && Starting()) || (state.Write? && Writing()) || (state.Read? && Reading())
      ensures Valid()
    {
      hide Starting, Writing, Reading, Distinct;
    }

    lemma WhatReadingSays()
      requires Reading()
      ensures Live() && !mode.Tx? && processed <= length && |got| == processed && mrxCnt == Min(CHUNK, length - processed)
      ensures con.mode == if processed == 0 then RegisterTx else Rx
    {
      hide IsChain;
    }

    lemma ReadsOn()
      requires Live() && !mode.Tx? && Untouched(processed) && |got| == processed <= length
      requires mrxCnt == Min(CHUNK, length - processed) && (con.lastAck <==> mrxCnt == length - processed)
      requires con.mode == if processed == 0 then RegisterTx else Rx
      requires transactionStatus.Success? ==> GotTo(processed)
      ensures Reading()
    {
      hide Live, Untouched, GotTo;
    }

    lemma ReadIsComplete()
      requires !mode.Tx? && processed == length && Untouched(processed)
      requires transactionStatus.Success? ==> GotTo(processed)
      ensures transactionStatus.Success? ==> Complete()
    {}

    // Where the message has come.
    ghost function Now(): Step
      reads `state, `mode, `sent, `got
    {
      Step(state, if mode.Tx? then |sent| else |got|)
    }

    // The message being moved stays the same.
    twostate predicate KeepsMessage()
      reads `chain, `length, `original, `mode, `i2cAddress, `mrxAddr
    {
      unchanged(`chain) && unchanged(`length) && unchanged(`original) && unchanged(`mode) && unchanged(`i2cAddress)
      && unchanged(`mrxAddr)
    }

    // The signals and the STOP bit follow the state.
    twostate predicate Signals()
      reads `state, `stopSent, `dpcQueued, `event, `dpcs, `heard
    {
      && stopSent == (old(stopSent) || state.Stop?) && unchanged(`event) && unchanged(`heard)
      && dpcQueued == (old(dpcQueued) || dpcs != old(dpcs))
    }

    // rk3x_i2c_stop.
    method StopMessage(status: Status)
      requires |txBuffer| == 8 && Distinct(chain) && dpcs == 0 && isBusy
      requires status.Success? ==> isLastMsg && Complete()
      modifies `processed, `currentMdlChain, `transferLength, `transactionStatus, `state, `con, `isBusy
      modifies `dpcs, `dpcQueued, `stopSent
      ensures Valid() && transactionStatus == status
      ensures state == if isLastMsg then Stop else Idle
      ensures stopSent == (old(stopSent) || state.Stop?) && con.stop == state.Stop?
      ensures dpcs == (if state.Idle? then 1 else 0) && dpcQueued == (old(dpcQueued) || state.Idle?)
    {
      hide Memory, Where, Complete, Distinct;
      Apart();
      ForgetMessage();
      transactionStatus := status;
      if isLastMsg {
        SendStop();
      } else {
        ResetEngine();
      }
      StopsOrRests();
    }

    method ForgetMessage()
      modifies `processed, `currentMdlChain, `transferLength
      ensures processed == 0
    {
      processed := 0;
      currentMdlChain := null;
      transferLength := 0;
    }

    method SendStop()
      modifies `state, `con, `stopSent
      ensures state == Stop && con == old(con).(stop := true) && stopSent
    {
      state := Stop;
      con := con.(stop := true);
      stopSent := true;
    }

    // The message is over: the next one may start.
    method ResetEngine()
      modifies `isBusy, `state, `con, `dpcs, `dpcQueued
      ensures !isBusy && state == Idle && con == Con(false, Tx, false, false, false, false)
      ensures dpcs == old(dpcs) + 1 && dpcQueued
    {
      isBusy := false;
      state := Idle;
      con := Con(false, Tx, false, false, false, false);
      dpcs := dpcs + 1;
      dpcQueued := true;
    }

    method PrepareRead()
      requires processed <= transferLength
      requires processed == 0 ==> con.mode.RegisterTx?
      modifies `con, `mrxCnt
      ensures mrxCnt == Min(CHUNK, transferLength - processed)
      ensures con.lastAck <==> mrxCnt == transferLength - processed
      ensures con.mode == if processed == 0 then RegisterTx else Rx
    {
      var len := transferLength - processed;
      var val := con;
      if len > 32 {
        len := 32;
        val := val.(lastAck := false);
      } else {
        val := val.(lastAck := true);
      }
      // the address went out with the first chunk
      if processed != 0 {
        val := val.(mode := Rx);
      }
      con := val;
      mrxCnt := len;
    }

    // The inner loop of fill_transmit_buf: the bytes of one register, from place
    // q of the stream on.
    method FillWord(cnt: nat, ghost q: nat) returns (val: word, cnt': nat, ghost bytes: seq<byte>)
      requires IsChain(currentMdlChain, chain) && processed <= transferLength
      requires if q == 0 then processed == 0 && cnt == 0 else q == processed + 1 && processed < transferLength
      requires q > 0 ==> processed > 0 || cnt > 0
      modifies `processed, `transactionStatus
      ensures StatusAfter(old(transactionStatus), transactionStatus, None)
      ensures 1 <= |bytes| <= 4 && cnt' == cnt + |bytes| && HoldsBytes(val, bytes)
      ensures processed + 1 == q + |bytes| && processed <= transferLength
      ensures |bytes| == 4 || processed == transferLength
      ensures transactionStatus.Success? ==>
                old(transactionStatus).Success? && q + |bytes| <= |Stream()| && bytes == Stream()[q..q + |bytes|]
    {
      hide HoldsBytes, IsChain, Memory;
      Apart();
      val, cnt', bytes := 0, cnt, [];
      NoBytes();
      var j := 0;
      while j < 4
        invariant j <= 4 && |bytes| == j && cnt' == cnt + j && HoldsBytes(val, bytes)
        invariant processed <= transferLength
        invariant if q + j == 0 then processed == 0 else q + j == processed + 1
        invariant StatusAfter(old(transactionStatus), transactionStatus, None)
        invariant transactionStatus.Success? ==> old(transactionStatus).Success?
        invariant transactionStatus.Success? && j > 0 ==> q + j <= |Stream()| && bytes == Stream()[q..q + j]
      {
        if processed == transferLength && cnt' != 0 {
          break;
        }
        var b: byte;
        if processed == 0 && cnt' == 0 {
          b := i2cAddress % 0x80 * 2;
        } else {
          var status, x, m := MdlChainGetByte(currentMdlChain, transferLength, processed, chain);
          b := x;
          processed := processed + 1;
          if !status.Success? {
            transactionStatus := status;
          }
        }
        PutByte(val, bytes, b);
        if transactionStatus.Success? {
          NextByteSent(q + j, b);
          NextOf(Stream(), q, j, bytes, b);
        }
        val := val + b * Shift(j);
        bytes := bytes + [b];
        cnt' := cnt' + 1;
        j := j + 1;
      }
    }

    // What fetching or computing the byte at place p has shown about it.
    lemma NextByteSent(p: nat, b: byte)
      requires if p == 0 then b == AddressByte(i2cAddress) else p <= |Memory(chain)| && b == Memory(chain)[p - 1]
      ensures p < |Stream()| && b == Stream()[p]
    {}

    lemma NextOf(s: seq<byte>, q: nat, j: nat, bytes: seq<byte>, b: byte)
      requires q + j < |s| && b == s[q + j] && |bytes| == j && (j > 0 ==> bytes == s[q..q + j])
      ensures bytes + [b] == s[q..q + j + 1]
    {}

    lemma NoBytes()
      ensures HoldsBytes(0, [])
    {}

    // The outer loop of fill_transmit_buf: the registers of one chunk.
    method FillWords(ghost q: nat) returns (cnt: nat, ghost chunk: seq<byte>)
      requires IsChain(currentMdlChain, chain) && |txBuffer| == 8
      requires if q == 0 then processed == 0 else q == processed + 1 && 0 < processed < transferLength
      modifies `processed, `transactionStatus, `txBuffer
      ensures StatusAfter(old(transactionStatus), transactionStatus, None)
      ensures |txBuffer| == 8 && processed <= transferLength && q + cnt == processed + 1
      ensures 1 <= cnt <= CHUNK && chunk == BufferBytes(txBuffer, cnt)
      ensures cnt == CHUNK || processed == transferLength
      ensures transactionStatus.Success? ==>
                old(transactionStatus).Success? && q + cnt <= |Stream()| && chunk == Stream()[q..q + cnt]
    {
      hide HoldsBytes, IsChain, Memory, ByteOf, BufferBytes, Stream;
      Apart();
      cnt, chunk := 0, [];
      var i := 0;
      while i < 8
        invariant i <= 8 && |txBuffer| == 8 && processed <= transferLength
        invariant cnt == |chunk| == 4 * i && chunk == BufferBytes(txBuffer, cnt)
        invariant if q + cnt == 0 then processed == 0 else q + cnt == processed + 1
        invariant i > 0 ==> processed < transferLength
        invariant StatusAfter(old(transactionStatus), transactionStatus, None)
        invariant transactionStatus.Success? ==> old(transactionStatus).Success?
        invariant transactionStatus.Success? && i > 0 ==> q + cnt <= |Stream()| && chunk == Stream()[q..q + cnt]
      {
        var val, cnt', bytes := FillWord(cnt, q + cnt);
        BufferAppend(txBuffer, i, val, bytes);
        txBuffer := txBuffer[i := val];
        if transactionStatus.Success? {
          StreamPiece(Stream(), q, cnt, chunk, bytes);
        }
        chunk := chunk + bytes;
        cnt := cnt';
        if processed == transferLength {
          break;
        }
        i := i + 1;
      }
    }

    // rk3x_i2c_fill_transmit_buf: the next chunk, 32 bytes or all that remain.
    method FillTransmitBuf()
      requires IsChain(currentMdlChain, chain) && |txBuffer| == 8
      requires if sent == [] then processed == 0 else |sent| == processed + 1 && 0 < processed < transferLength
      modifies `processed, `transactionStatus, `txBuffer, `mtxCnt, `sent
      ensures StatusAfter(old(transactionStatus), transactionStatus, None)
      ensures |txBuffer| == 8 && processed <= transferLength && |sent| == processed + 1
      ensures 1 <= mtxCnt <= CHUNK && sent == old(sent) + BufferBytes(txBuffer, mtxCnt)
      ensures mtxCnt == CHUNK || processed == transferLength
      ensures transactionStatus.Success? ==> old(transactionStatus).Success? && (old(SentTo(|sent|)) ==> SentTo(|sent|))
    {
      hide IsChain, Memory, BufferBytes, Stream;
      Apart();
      ghost var q := |sent|;
      var cnt, chunk := FillWords(q);
      mtxCnt := cnt;
      if transactionStatus.Success? && old(SentTo(|sent|)) {
        StreamJoin(Stream(), sent, chunk, q, cnt);
      }
      sent := sent + BufferBytes(txBuffer, mtxCnt);
    }

    lemma StreamJoin(s: seq<byte>, front: seq<byte>, chunk: seq<byte>, q: nat, n: nat)
      requires q + n <= |s| && front == s[..q] && chunk == s[q..q + n]
      ensures front + chunk == s[..q + n]
    {}

    lemma StreamPiece(s: seq<byte>, q: nat, n: nat, chunk: seq<byte>, bytes: seq<byte>)
      requires |chunk| == n && q + n + |bytes| <= |s| && bytes == s[q + n..q + n + |bytes|]
      requires n > 0 ==> chunk == s[q..q + n]
      ensures chunk + bytes == s[q..q + n + |bytes|]
    {}

    // The first chunk, in either direction.
    method BeginTransfer()
      requires Valid() && state.Start?
      modifies this
      ensures Valid() && KeepsMessage() && Signals()
      ensures Now() == if mode.Tx? then Step(Write, Min(CHUNK, length + 1)) else Step(Read, 0)
      ensures StatusAfter(old(transactionStatus), transactionStatus, None)
    {
      hide IsChain, Memory, ByteOf, Complete, Valid, Distinct, Untouched, BufferBytes, SentTo, GotTo, Starting, Writing, Reading;
      Apart();
      WhatValidSays();
      WhatStartingSays();
      con := con.(start := false);
      if mode.Tx? {
        state := Write;
        FillTransmitBuf();
        WritesOn();
      } else {
        state := Read;
        PrepareRead();
        ReadsOn();
      }
      IsValid();
    }

    lemma WhatStartingSays()
      requires Starting()
      ensures Live() && Untouched(0) && processed == 0 && sent == [] && got == [] && transactionStatus.Success?
      ensures SentTo(0) && GotTo(0) && !mode.Rx? && con.mode == mode
    {
      hide IsChain, Memory;
    }

    lemma WritesOn()
      requires Live() && mode.Tx? && Untouched(0)
      requires |sent| == processed + 1 && processed <= length && (processed == 0 ==> length == 0)
      requires transactionStatus.Success? ==> SentTo(processed + 1)
      ensures Writing()
    {
      hide Live, Untouched, SentTo;
    }

    lemma WriteIsComplete()
      requires mode.Tx? && processed == length && Untouched(0)
      requires transactionStatus.Success? ==> SentTo(processed + 1)
      ensures transactionStatus.Success? ==> Complete()
    {}

    method HandleStart(ipd: Ipd)
      requires Valid() && state.Start? && Any(ipd)
      modifies this
      ensures Valid() && KeepsMessage() && Signals() && Now() == Dispatch(old(Now()), ipd, mode.Tx?, length)
      ensures StatusAfter(old(transactionStatus), transactionStatus, ErrorOf(old(state), ipd.(nak := false)))
    {
      hide IsChain, Memory, ByteOf, Complete, Writing, Reading;
      if !ipd.start {
        StopMessage(IoDeviceError);
        return;
      }
      BeginTransfer();
    }

    method HandleWrite(ipd: Ipd)
      requires Valid() && state.Write? && Any(ipd)
      modifies this
      ensures Valid() && KeepsMessage() && Signals() && Now() == Dispatch(old(Now()), ipd, mode.Tx?, length)
      ensures StatusAfter(old(transactionStatus), transactionStatus, ErrorOf(old(state), ipd.(nak := false)))
    {
      hide IsChain, Memory, ByteOf, Valid, Complete, Distinct, Untouched, SentTo, BufferBytes;
      Apart();
      WhatValidSays();
      if !ipd.mbtf {
        StopMessage(IoDeviceError);
        return;
      }
      // all of it?
      if processed >= transferLength {
        WriteIsComplete();
        isLastMsg := true;
        StopMessage(transactionStatus);
      } else {
        FillTransmitBuf();
        IsValid();
      }
    }

    // One byte of the receive buffer.
    method TakeByte(b: byte) returns (status: Status)
      requires IsChain(currentMdlChain, chain) && Distinct(chain)
      requires processed < transferLength && Untouched(processed) && |got| == processed
      modifies `processed, `got, Buffers(chain)
      ensures status == Success || status == InfoLengthMismatch
      ensures processed == old(processed) + 1 && got == old(got) + [b] && Untouched(processed)
      ensures status.Success? && old(GotTo(processed)) ==> GotTo(processed)
    {
      hide IsChain, Memory;
      Apart();
      var st, m := MdlChainSetByte(currentMdlChain, transferLength, processed, b, chain);
      got := got + [b];
      processed := processed + 1;
      status := st;
    }

    // The bytes of the receive buffer, up to 32 of them or all that remain.
    method TakeBytes(rx: seq<word>)
      requires Valid() && state.Read? && |rx| == 8
      modifies `processed, `transactionStatus, `got, Buffers(chain)
      ensures StatusAfter(old(transactionStatus), transactionStatus, None)
      ensures |got| == processed <= length && Untouched(processed)
      ensures transactionStatus.Success? ==>
                GotTo(processed) && got == old(got) + BufferBytes(rx, mrxCnt) && processed == old(processed) + mrxCnt
      ensures processed > old(processed) || processed == old(processed) == length
    {
      hide IsChain, ByteOf, Memory, GotTo, Untouched, BufferBytes;
      Apart();
      var len := transferLength - processed;
      if len > 32 {
        len := 32;
      }
      var val: word := 0;
      var i := 0;
      while i < len
        invariant i <= len && |got| == processed == old(processed) + i <= length
        invariant Untouched(processed)
        invariant i % 4 != 0 ==> val == rx[i / 4]
        invariant StatusAfter(old(transactionStatus), transactionStatus, None)
        invariant transactionStatus.Success? ==>
                    old(transactionStatus).Success? && GotTo(processed) && got == old(got) + BufferBytes(rx, i)
        decreases len - i
      {
        if i % 4 == 0 {
          val := rx[i / 4];
        }
        var b := ByteOf(val, i % 4);
        NextByte(rx, i);
        var status := TakeByte(b);
        i := i + 1;
        if !status.Success? {
          transactionStatus := status;
          break;
        }
      }
    }

    lemma NextByte(rx: seq<word>, i: nat)
      requires i < 4 * |rx|
      ensures BufferBytes(rx, i + 1) == BufferBytes(rx, i) + [ByteOf(rx[i / 4], i % 4)]
    {}

    method HandleRead(ipd: Ipd, rx: seq<word>)
      requires Valid() && state.Read? && |rx| == 8
      modifies this, Buffers(chain)
      ensures Valid() && KeepsMessage() && Signals() && StatusAfter(old(transactionStatus), transactionStatus, None)
      ensures state.Read? || state.Stop?
      ensures transactionStatus.Success? ==> Now() == Dispatch(old(Now()), ipd, mode.Tx?, length)
    {
      hide IsChain, Memory, ByteOf, Valid, Complete, Distinct, Untouched, GotTo, BufferBytes, Reading, Starting, Writing;
      hide StatusAfter;
      Apart();
      SameStatus(transactionStatus);
      if !ipd.mbrf {
        return;
      }
      WhatValidSays();
      WhatReadingSays();
      TakeBytes(rx);
      // all of it?
      if processed >= transferLength {
        ReadIsComplete();
        isLastMsg := true;
        StopMessage(transactionStatus);
      } else {
        PrepareRead();
        ReadsOn();
        IsValid();
      }
    }

    method HandleStop(ipd: Ipd)
      requires Valid() && state.Stop? && Any(ipd)
      modifies this
      ensures Valid() && KeepsMessage() && Signals() && Now() == Dispatch(old(Now()), ipd, mode.Tx?, length)
      ensures transactionStatus == if ipd.stop then old(transactionStatus) else IoDeviceError
    {
      hide IsChain, Memory, ByteOf;
      Apart();
      if !ipd.stop {
        StopMessage(IoDeviceError);
        return;
      }
      con := con.(stop := false);
      isBusy := false;
      state := Idle;
      dpcs := dpcs + 1;
      dpcQueued := true;
    }

    /** Any interrupt, with any flags, in any state keeps the invariant and takes
        the step NextStep says (a read whose memory cannot be reached may come
        less far); it queues the DPC exactly if it brings the machine to rest, and
        one that comes when the machine is at rest does nothing.  It brings the
        machine to rest without STOP exactly if it ends the message early. */
    method Irq(flags: Ipd, rx: seq<word>)
      requires Valid() && |rx| == 8 && StopStory(state, stopSent, heard)
      modifies this, Buffers(chain)
      ensures Valid() && KeepsMessage() && StopStory(state, stopSent, heard)
      ensures heard == old(heard) + [Heard(old(state), flags)] && Follows(Heard(old(state), flags), state)
      ensures old(state).Read? && !flags.nak ==> StatusAfter(old(transactionStatus), transactionStatus, None)
      ensures !(old(state).Read? && !flags.nak) || transactionStatus.Success? ==>
                && Now() == NextStep(old(Now()), flags, mode.Tx?, length)
                && StatusAfter(old(transactionStatus), transactionStatus, ErrorOf(old(state), flags))
      ensures dpcs == old(dpcs) + if state.Idle? && !old(state).Idle? then 1 else 0
      ensures dpcQueued == (old(dpcQueued) || dpcs != old(dpcs)) && event == old(event)
      ensures EndsEarly(Heard(old(state), flags)) ==> !transactionStatus.Success?
      ensures old(state).Idle? ==> state.Idle? && transactionStatus == old(transactionStatus)
    {
      hide Valid, StopStory, Follows, NextStep, Memory, StatusAfter, ErrorOf, EndsEarly;
      ghost var h := Heard(state, flags);
      StopIsSent();
      HandleInterrupt(flags, rx);
      ErrorIsTold(h, old(transactionStatus));
      Apart();
      StoryGoesOn(h, old(stopSent), heard, state);
      heard := heard + [h];
    }

    // Ending early leaves an error, whatever else happened.
    lemma ErrorIsTold(h: Heard, was: Status)
      requires !(h.state.Read? && !h.flags.nak) || transactionStatus.Success? ==>
                 StatusAfter(was, transactionStatus, ErrorOf(h.state, h.flags))
      ensures EndsEarly(h) ==> !transactionStatus.Success?
    {}

    lemma StopIsSent()
      requires StopStory(state, stopSent, heard)
      ensures state.Stop? ==> stopSent
    {}

    method HandleInterrupt(flags: Ipd, rx: seq<word>)
      requires Valid() && |rx| == 8 && (state.Stop? ==> stopSent)
      modifies this, Buffers(chain)
      ensures Valid() && KeepsMessage() && Signals() && Follows(Heard(old(state), flags), state)
      ensures old(state).Read? && !flags.nak ==> StatusAfter(old(transactionStatus), transactionStatus, None)
      ensures !(old(state).Read? && !flags.nak) || transactionStatus.Success? ==>
                && Now() == NextStep(old(Now()), flags, mode.Tx?, length)
                && StatusAfter(old(transactionStatus), transactionStatus, ErrorOf(old(state), flags))
      ensures dpcs == old(dpcs) + if state.Idle? && !old(state).Idle? then 1 else 0
      ensures old(state).Idle? ==> state.Idle? && transactionStatus == old(transactionStatus)
    {
      hide IsChain, Memory, ByteOf, Valid, Distinct, Starting, Writing, Reading, NextStep, Dispatch, Follows, ErrorOf;
      Apart();
      WhatValidSays();
      OnlyStoppingIsLast();
      NakStep(Now(), flags, mode.Tx?, length);
      var ipd := flags;
      if state.Idle? {
        return;
      }
      if ipd.nak {
        ipd := ipd.(nak := false);
        StopMessage(InvalidTransaction);
      }
      // anything besides?
      if !ipd.start && !ipd.mbtf && !ipd.mbrf && !ipd.stop {
        return;
      }
      Serve(ipd, rx);
    }

    // The flags that are left.
    method Serve(ipd: Ipd, rx: seq<word>)
      requires Valid() && |rx| == 8 && Any(ipd) && !ipd.nak && (state.Stop? ==> stopSent)
      modifies this, Buffers(chain)
      ensures Valid() && KeepsMessage() && Signals() && Follows(Heard(old(state), ipd), state)
      ensures old(state).Read? ==> StatusAfter(old(transactionStatus), transactionStatus, None)
      ensures !old(state).Read? || transactionStatus.Success? ==>
                && Now() == Dispatch(old(Now()), ipd, mode.Tx?, length)
                && StatusAfter(old(transactionStatus), transactionStatus, ErrorOf(old(state), ipd))
      ensures old(state).Idle? ==> state.Idle? && transactionStatus == old(transactionStatus)
      ensures old(state).Stop? ==> transactionStatus == if ipd.stop then old(transactionStatus) else IoDeviceError
      ensures dpcs == if state.Idle? then 1 else 0
    {
      hide IsChain, Memory, ByteOf, Valid, Distinct;
      Apart();
      match state {
        case Start => HandleStart(ipd);
        case Write => HandleWrite(ipd);
        case Read => HandleRead(ipd, rx);
        case Stop => HandleStop(ipd);
        case Idle =>
      }
      WhatValidSays();
    }

    lemma OnlyStoppingIsLast()
      requires Valid()
      ensures !state.Idle? ==> isLastMsg == state.Stop?
    {}

    // rk3x_i2c_start.
    method StartMessage()
      modifies `con
      ensures con == Con(true, mode, true, false, false, true)
    {
      con := Con(true, mode, true, false, false, true);
    }

    // Whom to address, and how: a read sends the address first.
    method SelectTarget(address: byte, fromDevice: bool)
      modifies `i2cAddress, `mode, `mrxAddr
      ensures i2cAddress == address && mode == if fromDevice then RegisterTx else Tx
      ensures fromDevice ==> mrxAddr == 0x100_0000 + AddressByte(address) + 1
    {
      var addr: word := AddressByte(address);
      if fromDevice {
        addr := addr + 1;
        mode := RegisterTx;
        mrxAddr := 0x100_0000 + addr;
      } else {
        mode := Tx;
      }
      i2cAddress := address;
    }

    // What i2c_xfer_single sets up before the START condition.  The event is
    // cleared, but a DPC that is still queued stays so.
    method SetUp(address: byte, fromDevice: bool, msgLength: nat, mdlChain: Mdl?, ghost c: seq<Mdl>)
      requires IsChain(mdlChain, c) && Distinct(c) && |txBuffer| == 8
      modifies this
      ensures Valid() && state.Start? && chain == c && length == msgLength && original == Memory(c) && i2cAddress == address
      ensures mode == if fromDevice then RegisterTx else Tx
      ensures fromDevice ==> mrxAddr == 0x100_0000 + AddressByte(address) + 1
      ensures StopStory(state, stopSent, heard) && heard == [] && !event && dpcQueued == old(dpcQueued)
      ensures transactionStatus == Success && sent == [] && got == []
      ensures Woken(dpcQueued) && ErrorTold()
    {
      hide IsChain, Memory, AddressByte, Distinct, Valid, StopStory;
      assert this !in Buffers(c);
      event := false;
      SelectTarget(address, fromDevice);
      ResetMessage(msgLength, mdlChain);
      StartMessage();
      BeginMessage(msgLength, c);
      StartIsValid();
    }

    lemma StartIsValid()
      requires IsChain(currentMdlChain, chain) && Distinct(chain) && |txBuffer| == 8 && transferLength == length
      requires state.Start? && processed == 0 && transactionStatus.Success? && isBusy && dpcs == 0 && !isLastMsg
      requires !mode.Rx? && con.mode == mode && original == Memory(chain) && sent == [] && got == []
      requires !stopSent && heard == []
      ensures Valid() && StopStory(state, stopSent, heard)
    {
      hide IsChain, Memory, Distinct;
    }

    method ResetMessage(msgLength: nat, mdlChain: Mdl?)
      modifies `transferLength, `currentMdlChain, `isLastMsg, `isBusy, `state, `processed, `transactionStatus, `dpcs
      ensures transferLength == msgLength && currentMdlChain == mdlChain && !isLastMsg && isBusy && state == Start
      ensures processed == 0 && transactionStatus == Success && dpcs == 0
    {
      transferLength := msgLength;
      currentMdlChain := mdlChain;
      isLastMsg := false;
      isBusy := true;
      state := Start;
      processed := 0;
      transactionStatus := Success;
      dpcs := 0;
    }

    ghost method BeginMessage(msgLength: nat, c: seq<Mdl>)
      modifies `chain, `length, `sent, `got, `original, `stopSent, `heard
      ensures chain == c && length == msgLength && original == old(Memory(c))
      ensures sent == [] && got == [] && !stopSent && heard == []
    {
      hide Memory;
      original := Memory(c);
      chain, length, sent, got := c, msgLength, [], [];
      stopSent, heard := false, [];
    }

    // rk3x_i2c_dpc, when the framework runs it.
    method RunDpc()
      requires dpcQueued
      modifies `dpcQueued, `event
      ensures !dpcQueued && event
    {
      dpcQueued := false;
      event := true;
    }

    // The message's own DPC has been queued or has set the event, or neither;
    // without an older one there is no other reason for either.
    ghost predicate Woken(older: bool)
      reads `dpcs, `dpcQueued, `event
    {
      && (dpcs == 1 ==> dpcQueued || event)
      && (!older ==> (dpcQueued || event <==> dpcs == 1) && !(dpcQueued && event))
    }

    // A message that rests without STOP has an error to tell.
    ghost predicate ErrorTold()
      reads `state, `stopSent, `transactionStatus
    {
      state.Idle? && !stopSent ==> !transactionStatus.Success?
    }

    // While the caller waits.
    method Wait(events: seq<Happening>, ghost older: bool)
      requires Valid() && StopStory(state, stopSent, heard) && Woken(older) && ErrorTold()
      requires heard == [] && dpcQueued == older && !event
      modifies this, Buffers(chain)
      ensures Valid() && StopStory(state, stopSent, heard) && Woken(older) && ErrorTold() && KeepsMessage()
      ensures events != [] && events[0].Interrupt? ==> heard != [] && heard[0] == Heard(old(state), events[0].flags)
      ensures event ==> DpcRuns in events
      ensures Uninterrupted(events) ==> Stands() && event == (older && events != [])
    {
      hide Memory, StopStory, NextStep, Follows, StatusAfter, ErrorOf, Complete, Writing, Reading, Starting;
      var k := 0;
      while k < |events|
        invariant k <= |events|
        invariant Valid() && StopStory(state, stopSent, heard) && Woken(older) && ErrorTold() && KeepsMessage()
        invariant if k == 0 then heard == [] && state == old(state)
                  else events[0].Interrupt? ==> heard != [] && heard[0] == Heard(old(state), events[0].flags)
        invariant event ==> DpcRuns in events
        invariant Uninterrupted(events[..k]) ==>
                    Stands() && event == (older && k > 0) && dpcQueued == (older && k == 0)
      {
        assert events[..k + 1] == events[..k] + [events[k]];
        WaitStep(events[k], older);
        k := k + 1;
      }
      assert events[..k] == events;
    }

    // Nothing of the message has moved on.
    twostate predicate Stands()
      reads `state, `sent, `got, `transactionStatus
    {
      unchanged(`state) && unchanged(`sent) && unchanged(`got) && unchanged(`transactionStatus)
    }

    method WaitStep(e: Happening, ghost older: bool)
      requires Valid() && StopStory(state, stopSent, heard) && Woken(older) && ErrorTold()
      modifies this, Buffers(chain)
      ensures Valid() && StopStory(state, stopSent, heard) && Woken(older) && ErrorTold() && KeepsMessage()
      ensures heard == old(heard) + if e.Interrupt? then [Heard(old(state), e.flags)] else []
      ensures e.Interrupt? ==> event == old(event)
      ensures e.DpcRuns? ==> Stands() && event == (old(event) || old(dpcQueued)) && !dpcQueued
    {
      hide Memory, StopStory, NextStep, Follows, StatusAfter, ErrorOf, Complete, Writing, Reading, Starting, Live;
      Apart();
      match e
      case Interrupt(flags, rx) =>
        ghost var h, sent0, heard0 := Heard(state, flags), stopSent, heard;
        Irq(flags, rx);
        RestsEarlyOrRested(h, sent0, heard0, state, stopSent);
      case DpcRuns =>
        if dpcQueued {
          RunDpc();
        }
    }

    // The message has been moved, and STOP has been sent and confirmed.
    ghost predicate Finished()
      reads `mode, `length, `i2cAddress, `chain, `original, `sent, `got, `stopSent, `heard, Buffers(chain)
    {
      Complete() && stopSent && StopHeard(heard)
    }

    /** The wait ends by the event, by the timeout, or by an alert.
        At rest, STOP has been sent exactly if no interrupt ended the message
        early.  Success means that the whole message was moved and stopped
        exactly if the machine was at rest when the wait ended.  It always was if
        the event ended it and no DPC was left over from an earlier message; and
        then none is left over to the next, but by a message that was over when
        its time ran out.  Without any interrupt nothing is moved, and yet the
        call returns without an error if it is alerted or if an older DPC runs. */
    method XferSingle(sevenBit: bool, address: byte, fromDevice: bool, msgLength: nat, mdlChain: Mdl?,
                      events: seq<Happening>, alerted: bool, ghost c: seq<Mdl>)
      returns (status: Status, ghost exit: Exit)
      requires IsChain(mdlChain, c) && Distinct(c) && |txBuffer| == 8
      modifies this, Buffers(c)
      ensures |txBuffer| == 8
      ensures !sevenBit <==> exit.Refused?
      ensures exit.Refused? ==> status == InvalidAddress && unchanged(this) && Memory(c) == old(Memory(c))
      ensures exit.RanOut? ==> status == IoTimeout && state.Idle? && stopSent
      ensures exit.Signalled? || exit.Alerted? ==>
                && status == transactionStatus
                && (state.Idle? ==> (stopSent <==> NoneEarly(heard)))
                && (status.Success? ==> (state.Idle? <==> Finished()))
      ensures exit.Signalled? && !old(dpcQueued) ==> state.Idle? && !dpcQueued
      ensures exit.RanOut? && !old(dpcQueued) ==> (dpcQueued <==> !NoneEarly(heard) || StopHeard(heard))
      ensures exit.Alerted? <==> sevenBit && alerted
      ensures exit.Signalled? ==> DpcRuns in events
      ensures sevenBit && events != [] && events[0].Interrupt? ==> heard != [] && heard[0] == Heard(Start, events[0].flags)
      ensures sevenBit && Uninterrupted(events) ==>
                && sent == [] && got == [] && (state.Start? || exit.RanOut?)
                && (exit.Signalled? <==> !alerted && old(dpcQueued) && events != [])
                && (exit.RanOut? || status.Success?)
      ensures sevenBit && Finished() ==>
                && msgLength <= |Memory(c)| == |old(Memory(c))|
                && if fromDevice
                   then
                     && Memory(c)[..msgLength] == got && Memory(c)[msgLength..] == old(Memory(c))[msgLength..]
                     && mrxAddr / 0x100 == 0x1_0000
                     && mrxAddr % 0x100 / 2 == address % 0x80 && mrxAddr % 2 == 1
                   else
                     && |sent| == msgLength + 1 && sent[0] / 2 == address % 0x80 && sent[0] % 2 == 0
                     && sent[1..] == Memory(c)[..msgLength] && Memory(c) == old(Memory(c))
    {
      hide IsChain, Memory, AddressByte, Valid, StopStory, NoneEarly, StopHeard, Woken, ErrorTold, Finished, Uninterrupted;
      if !sevenBit {
        return InvalidAddress, Refused;
      }
      assert this !in Buffers(c);
      ghost var older := dpcQueued;
      SetUp(address, fromDevice, msgLength, mdlChain, c);
      Wait(events, older);
      status, exit := AfterWait(alerted, older);
      if Finished() {
        WhatWasMoved();
        AddressReads(address);
      }
    }

    method AfterWait(alerted: bool, ghost older: bool) returns (status: Status, ghost exit: Exit)
      requires Valid() && StopStory(state, stopSent, heard) && Woken(older) && ErrorTold()
      modifies `con, `state, `stopSent
      ensures |txBuffer| == 8
      ensures exit == if alerted then Alerted else if event then Signalled else RanOut
      ensures exit.RanOut? ==> status == IoTimeout && state.Idle? && stopSent
      ensures exit.Signalled? || exit.Alerted? ==>
                && status == transactionStatus && state == old(state)
                && (state.Idle? ==> (stopSent <==> NoneEarly(heard)))
                && (status.Success? ==> (state.Idle? <==> Finished()))
      ensures exit.Signalled? && !older ==> state.Idle? && !dpcQueued
      ensures exit.RanOut? && !older ==> (dpcQueued <==> !NoneEarly(heard) || StopHeard(heard))
    {
      hide Memory, Complete, Distinct, NoneEarly, StopHeard, Writing, Reading, Starting;
      if alerted {
        Rests();
        return transactionStatus, Alerted;
      }
      if !event {
        RunOut();
        return IoTimeout, RanOut;
      }
      Rests();
      return transactionStatus, Signalled;
    }

    lemma Rests()
      requires Valid() && StopStory(state, stopSent, heard) && ErrorTold()
      ensures state.Idle? ==> (stopSent <==> NoneEarly(heard))
      ensures transactionStatus.Success? ==> (state.Idle? <==> Finished())
    {
      hide Complete, Writing, Reading, Starting, NoneEarly, StopHeard;
    }

    lemma WhatWasMoved()
      requires Finished()
      ensures length <= |Memory(chain)| == |original|
      ensures if mode.Tx?
              then sent == [AddressByte(i2cAddress)] + Memory(chain)[..length] && Memory(chain) == original
              else Memory(chain)[..length] == got && Memory(chain)[length..] == original[length..]
    {
      hide Memory, StopHeard, AddressByte;
    }

    // The wait ran out: a STOP condition is forced, without an interrupt.
    method RunOut()
      modifies `con, `state, `stopSent
      ensures state.Idle? && stopSent && con == Con(true, Tx, false, true, false, false)
    {
      con := Con(true, Tx, false, true, false, false);
      stopSent := true;
      state := Idle;
    }

    /** A NACK in answer to START: the message is over, and no STOP was sent. */
    method NackInStart(rx: Registers)
      requires Valid() && state.Start? && StopStory(state, stopSent, heard)
      modifies this, Buffers(chain)
      ensures state.Idle? && !stopSent && !con.stop && dpcQueued && transactionStatus == InvalidTransaction
    {
      ghost var h := Heard(state, NAK);
      Irq(NAK, rx);
      assert EndsEarly(h) && h in heard;
    }

    /** An alert right after START: success, with the message in flight. */
    method AlertedAtOnce(address: byte, fromDevice: bool, mdlChain: Mdl?, ghost c: seq<Mdl>) returns (status: Status)
      requires IsChain(mdlChain, c) && Distinct(c) && |txBuffer| == 8
      modifies this, Buffers(c)
      ensures status.Success? && state.Start? && sent == [] && got == [] && !Finished()
    {
      hide IsChain, Memory, Distinct, Finished;
      ghost var exit;
      status, exit := XferSingle(true, address, fromDevice, 1, mdlChain, [], true, c);
    }
  }

  /** A message is answered by a NACK, but its time runs out before its DPC has
      run.  The DPC runs while the next message waits, which then returns
      success with nothing moved. */
  method LeftOverDpc(address: byte, rx: Registers, mdlChain: Mdl, ghost c: seq<Mdl>)
    returns (context: Context, first: Status, second: Status)
    requires IsChain(mdlChain, c) && Distinct(c)
    modifies Buffers(c)
    ensures first == IoTimeout && second == Success
    ensures fresh(context) && context.state.Start? && context.sent == [] && context.got == []
  {
    hide IsChain, Memory, Distinct, Context.Finished;
    context := new Context();
    ghost var exit, exit';
    first, exit := context.XferSingle(true, address, false, 1, mdlChain, [Interrupt(NAK, rx)], false, c);
    assert EndsEarly(context.heard[0]);
    second, exit' := context.XferSingle(true, address, false, 1, mdlChain, [DpcRuns], false, c);
  }

  const NAK := Ipd(true, false, false, false, false)

  // The eight words of the receive buffer.
  type Registers = s: seq<word> | |s| == 8 witness [0, 0, 0, 0, 0, 0, 0, 0]

  // What may happen while a caller waits: an interrupt, with any flags and bytes
  // received, or the DPC, if it is queued.
  datatype Happening = Interrupt(flags: Ipd, rx: Registers) | DpcRuns

  predicate Uninterrupted(events: seq<Happening>) { forall e | e in events :: e.DpcRuns? }

  // How a transfer came to return.
  datatype Exit = Refused | Signalled | RanOut | Alerted
}
