/** Main results about the cyclic compiler: what one lap of the program in
    memory does, when that is what the caller asked for, and what the channel
    does for ever after SubmitAudioDMA. */
module Pl330Audio {
  import opened Arith
  import opened Words
  import opened Pl330Isa
  import opened Pl330Code
  import opened Pl330Emit
  import opened Pl330Compiler
  import opened Pl330Correct

  // -------------------------------------------------------------- the sizes

  // Every backward jump fits its eight-bit operand.
  predicate JumpsFit(x: Xfer, bursts: nat, ev: byte) {
    BurstJumpsFit(x, bursts) && |Bytes(CyclicCode(x, bursts, ev))| <= 255
  }

  function BurstsSize(x: Xfer, cyc: nat): nat {
    if x.involvesDevice then 2 + 5 * cyc else 2 * cyc
  }

  function PeriodSize(x: Xfer, bursts: nat): nat {
    4 + BurstsSize(x, Unroll(bursts))
    + (if LoopRest(bursts) == 0 then 0 else 4 + BurstsSize(x, 1))
    + (if ByteModBurstLen(x.periodBytes, x.ccr) == 0 then 0 else 12 + BurstsSize(x, 1))
    + 2
  }

  lemma {:induction false} TimesSize(n: nat, c: Code)
    ensures |Bytes(Times(n, c))| == n * |Bytes(c)|
    decreases n
  {
    if n > 0 {
      TimesSize(n - 1, c);
      MulSum(n - 1, 1, |Bytes(c)|);
    }
  }

  lemma BurstsCodeSize(x: Xfer, cyc: nat)
    ensures |Bytes(BurstsCode(x, cyc))| == BurstsSize(x, cyc)
  {
    var b := OneBurst(x);
    TimesSize(cyc, b);
    if x.involvesDevice {
      var wait := Ins(Wfp(Burst, x.peripheral % 32));
      var load, store := LoadCode(Burst, x), StoreCode(Burst, x);
      assert |Bytes(load)| + |Bytes(store)| == 3;
      assert |Bytes(Seq(wait, load))| == 2 + |Bytes(load)|;
      assert |Bytes(b)| == 5;
    } else {
      assert |Bytes(b)| == 2;
    }
  }

  lemma LoopSize(l: loopReg, cnt: nat, c: Code)
    ensures |Bytes(Loop(l, cnt, c))| == 4 + |Bytes(c)|
  {}

  lemma PeriodCodeSize(x: Xfer, bursts: nat, ev: byte)
    ensures |Bytes(PeriodCode(x, bursts, ev))| == PeriodSize(x, bursts)
  {
    hide Bytes, BurstsCode, ByteModBurstLen;
    var dregs := ByteModBurstLen(x.periodBytes, x.ccr);
    var main := Loop(1, LoopCount(bursts), BurstsCode(x, Unroll(bursts)));
    var rest := Loop(1, LoopRest(bursts), BurstsCode(x, 1));
    var mov, sev := Ins(Mov(CCR, x.ccr)), Ins(Sev(ev % 32));
    BurstsCodeSize(x, Unroll(bursts));
    BurstsCodeSize(x, 1);
    LoopSize(1, LoopCount(bursts), BurstsCode(x, Unroll(bursts)));
    LoopSize(1, LoopRest(bursts), BurstsCode(x, 1));
    SeqSize(main, rest);
    var part := BurstsPart(x, bursts);
    InsSize(mov.i);
    InsSize(sev.i);
    SeqSize(part, sev);
    if dregs != 0 {
      var movDregs := Ins(Mov(CCR, DregsCcr(x.ccr, dregs)));
      InsSize(movDregs.i);
      SeqSize(movDregs, BurstsCode(x, 1));
      SeqSize(part, DregsCode(x, dregs));
      SeqSize(Seq(part, DregsCode(x, dregs)), mov);
      SeqSize(Seq(Seq(part, DregsCode(x, dregs)), mov), sev);
    }
  }

  /** The caller can tell beforehand whether the jumps fit: it is arithmetic on
      the burst count, the number of periods and the kind of transfer.  A
      program that fits leaves room in its 512-byte buffer. */
  lemma JumpsFitIff(x: Xfer, bursts: nat, ev: byte)
    ensures var p := SplitPeriods(x.numPeriods, 1);
      && |Bytes(CyclicCode(x, bursts, ev))| == 16 + (p + x.numPeriods % p) * PeriodSize(x, bursts)
      && (JumpsFit(x, bursts, ev) <==>
          BurstsSize(x, Unroll(bursts)) <= 255 && 16 + (p + x.numPeriods % p) * PeriodSize(x, bursts) <= 255)
    ensures JumpsFit(x, bursts, ev) ==> SZ_DMAMOV + |CyclicBytes(x, bursts, ev)| <= 512
  {
    hide Bytes, PeriodCode, Times, PeriodSize, BurstsCode;
    var p := SplitPeriods(x.numPeriods, 1);
    var r := x.numPeriods % p;
    var c := PeriodCode(x, bursts, ev);
    var movs := Seq(Ins(Mov(SAR, x.srcAddr)), Ins(Mov(DAR, x.dstAddr)));
    var loop0 := Loop(0, x.numPeriods / p, Times(p, c));
    BurstsCodeSize(x, Unroll(bursts));
    PeriodCodeSize(x, bursts, ev);
    TimesSize(p, c);
    TimesSize(r, c);
    MulSum(p, r, PeriodSize(x, bursts));
    InsSize(Mov(SAR, x.srcAddr));
    InsSize(Mov(DAR, x.dstAddr));
    SeqSize(Ins(Mov(SAR, x.srcAddr)), Ins(Mov(DAR, x.dstAddr)));
    LoopSize(0, x.numPeriods / p, Times(p, c));
    SeqSize(movs, loop0);
    SeqSize(Seq(movs, loop0), Times(r, c));
  }

  /** The thread at the DMALPFE that ends the program goes back to its first
      instruction if and only if what lies between is at most 255 bytes. */
  lemma ForeverJumpExact(mem: seq<byte>, s: Machine, x: Xfer, bursts: nat, ev: byte)
    requires s.pc >= |Bytes(CyclicCode(x, bursts, ev))|
    requires CodeAt(mem, s.pc - |Bytes(CyclicCode(x, bursts, ev))|, CyclicBytes(x, bursts, ev))
    ensures var size := |Bytes(CyclicCode(x, bursts, ev))|;
      Step(mem, s).Some? && (Step(mem, s).value.pc == s.pc - size <==> size <= 255)
  {
    hide CyclicCode, Bytes, Decode;
    var size := |Bytes(CyclicCode(x, bursts, ev))|;
    var back := LpEnd(true, 1, Always, BackJump(size));
    CodeAtSplit(mem, s.pc - size, Bytes(CyclicCode(x, bursts, ev)), Encode(back));
    DecodeEncode(mem, s.pc, back);
  }

  // ---------------------------------------------------------------- one lap

  // How many periods the loop and the residue really run.
  function PeriodsRun(numPeriods: nat): nat {
    var p := SplitPeriods(numPeriods, 1);
    Iterations(numPeriods / p) * p + numPeriods % p
  }

  /** The split of the periods is exact, except that none means 256. */
  lemma PeriodSplitExact(numPeriods: nat)
    ensures PeriodsRun(numPeriods) == numPeriods <==> numPeriods != 0
    ensures PeriodsRun(0) == 256
  {
    var p := SplitPeriods(numPeriods, 1);
    var q := numPeriods / p;
    IterationsExact(q);
    assert numPeriods == p * q + numPeriods % p;
    assert p > 1 ==> !CountFits(numPeriods, p - 1);
  }

  predicate AlignedTo(x: Xfer) {
    && Balanced(x.ccr)
    && x.srcAddr % SrcSize(x.ccr) == 0
    && x.dstAddr % DstSize(x.ccr) == 0
  }

  // What one lap does to the channel.
  function Lap(x: Xfer, bursts: nat, ev: byte, d: Dma): Dma {
    PeriodsMoved(x, d.(sar := x.srcAddr, dar := x.dstAddr), PeriodsRun(x.numPeriods), PeriodBeats(x, bursts), ev % 32)
  }

  lemma PeriodLeavesLoop0(x: Xfer, bursts: nat, ev: byte)
    ensures !Uses(PeriodCode(x, bursts, ev), 0)
  {
    hide BurstsCode, ByteModBurstLen, LoopRest, LoopCount, Unroll, DregsCcr;
    var dregs := ByteModBurstLen(x.periodBytes, x.ccr);
    NoLoops(x, Unroll(bursts));
    NoLoops(x, 1);
    assert !Uses(BurstsPart(x, bursts), 0) by {
      assert !Uses(Loop(1, LoopCount(bursts), BurstsCode(x, Unroll(bursts))), 0);
      assert !Uses(Loop(1, LoopRest(bursts), BurstsCode(x, 1)), 0);
    }
    if dregs != 0 {
      var both := Seq(BurstsPart(x, bursts), DregsCode(x, dregs));
      assert !Uses(DregsCode(x, dregs), 0);
      assert !Uses(both, 0);
      assert !Uses(Seq(both, Ins(Mov(CCR, x.ccr))), 0);
    }
  }

  lemma CyclicMeaning(x: Xfer, bursts: nat, ev: byte, d: Dma)
    requires JumpsFit(x, bursts, ev) && AlignedTo(x)
    requires d.ccr == x.ccr && d.fifo == []
    ensures WellFormed(CyclicCode(x, bursts, ev))
    ensures Eval(CyclicCode(x, bursts, ev), d) == Some(Lap(x, bursts, ev, d))
  {
    hide PeriodCode, PeriodsMoved, PeriodBeats, Times, Bytes, SplitPeriods, AtRest, Iterations, Eval, WellFormed;
    hide AlignedTo, BurstJumpsFit, PeriodsRun, Decode;
    var p := SplitPeriods(x.numPeriods, 1);
    var q, r := x.numPeriods / p, x.numPeriods % p;
    RestedWhenAligned(x, d.(sar := x.srcAddr, dar := x.dstAddr));
    var n := LoopedPeriods(x.numPeriods, p, q, r);
    CyclicParts(x, bursts, ev, d, p, q, r, n);
  }

  lemma LoopedPeriods(numPeriods: nat, p: nat, q: nat, r: nat) returns (n: nat)
    requires p == SplitPeriods(numPeriods, 1) && q == numPeriods / p && r == numPeriods % p
    ensures n == Iterations(q) * p && n + r == PeriodsRun(numPeriods)
  {
    hide SplitPeriods, Iterations;
    n := Iterations(q) * p;
  }

  lemma CyclicParts(x: Xfer, bursts: nat, ev: byte, d: Dma, p: nat, q: nat, r: nat, n: nat)
    requires BurstJumpsFit(x, bursts) && |Bytes(CyclicCode(x, bursts, ev))| <= 255
    requires AtRest(d.(sar := x.srcAddr, dar := x.dstAddr)) && d.ccr == x.ccr
    requires p == SplitPeriods(x.numPeriods, 1) && n == Iterations(q) * p
    ensures var c := PeriodCode(x, bursts, ev);
      var all := Seq(Seq(Seq(Ins(Mov(SAR, x.srcAddr)), Ins(Mov(DAR, x.dstAddr))), Loop(0, q, Times(p, c))), Times(r, c));
      && WellFormed(all)
      && Eval(all, d) == Some(PeriodsMoved(x, d.(sar := x.srcAddr, dar := x.dstAddr), n + r, PeriodBeats(x, bursts), ev % 32))
  {
    hide PeriodCode, PeriodsMoved, PeriodBeats, Times, Bytes, BurstJumpsFit, SplitPeriods, AtRest, Iterations, Eval, WellFormed,
      CyclicCode;
    var c := PeriodCode(x, bursts, ev);
    var movs := Seq(Ins(Mov(SAR, x.srcAddr)), Ins(Mov(DAR, x.dstAddr)));
    var loop0 := Loop(0, q, Times(p, c));
    var e := d.(sar := x.srcAddr, dar := x.dstAddr);
    MovsSetAddresses(x, d);
    PeriodLoopMeaning(x, bursts, ev, q, p, e);
    var f := PeriodsMoved(x, e, n, PeriodBeats(x, bursts), ev % 32);
    PeriodsAtRest(x, e, n, PeriodBeats(x, bursts), ev % 32);
    TimesMove(x, bursts, ev, r, f);
    PeriodsJoin(x, e, n, r, PeriodBeats(x, bursts), ev % 32);
    EvalSeq(movs, loop0, d, e);
    EvalSeq(Seq(movs, loop0), Times(r, c), d, f);
  }

  lemma EvalSeq(a: Code, b: Code, d: Dma, e: Dma)
    requires WellFormed(a) && WellFormed(b) && Eval(a, d) == Some(e)
    ensures WellFormed(Seq(a, b)) && Eval(Seq(a, b), d) == Eval(b, e)
  {}

  lemma MovsSetAddresses(x: Xfer, d: Dma)
    ensures var movs := Seq(Ins(Mov(SAR, x.srcAddr)), Ins(Mov(DAR, x.dstAddr)));
      WellFormed(movs) && Eval(movs, d) == Some(d.(sar := x.srcAddr, dar := x.dstAddr))
  {
    var a := Ins(Mov(SAR, x.srcAddr));
    var b := Ins(Mov(DAR, x.dstAddr));
    assert Eval(a, d) == Some(d.(sar := x.srcAddr));
    assert WellFormed(a) && WellFormed(b);
  }

  lemma RestedWhenAligned(x: Xfer, d: Dma)
    requires AlignedTo(x) && d.ccr == x.ccr && d.fifo == [] && d.sar == x.srcAddr && d.dar == x.dstAddr
    ensures AtRest(d)
  {}

  lemma PeriodLoopMeaning(x: Xfer, bursts: nat, ev: byte, cnt: nat, p: nat, d: Dma)
    requires AtRest(d) && d.ccr == x.ccr && BurstJumpsFit(x, bursts)
    requires p == SplitPeriods(x.numPeriods, 1) && |Bytes(CyclicCode(x, bursts, ev))| <= 255
    ensures WellFormed(Loop(0, cnt, Times(p, PeriodCode(x, bursts, ev))))
    ensures Eval(Loop(0, cnt, Times(p, PeriodCode(x, bursts, ev))), d)
         == Some(PeriodsMoved(x, d, Iterations(cnt) * p, PeriodBeats(x, bursts), ev % 32))
  {
    hide PeriodCode, PeriodsMoved, PeriodBeats, Times, BurstJumpsFit, SplitPeriods, AtRest, Iterations, Repeat;
    var c := PeriodCode(x, bursts, ev);
    RepeatedPeriods(x, bursts, ev, p, Iterations(cnt), d);
    PeriodLeavesLoop0(x, bursts, ev);
    TimesUses(p, c);
    LoopBodyFits(x, bursts, ev);
  }

  lemma LoopBodyFits(x: Xfer, bursts: nat, ev: byte)
    ensures |Bytes(Times(SplitPeriods(x.numPeriods, 1), PeriodCode(x, bursts, ev)))| <= |Bytes(CyclicCode(x, bursts, ev))|
  {
    hide PeriodCode, Bytes, SplitPeriods, Times;
    var p := SplitPeriods(x.numPeriods, 1);
    var c := PeriodCode(x, bursts, ev);
    var movs := Seq(Ins(Mov(SAR, x.srcAddr)), Ins(Mov(DAR, x.dstAddr)));
    var loop0 := Loop(0, x.numPeriods / p, Times(p, c));
    SeqSize(movs, loop0);
    SeqSize(Seq(movs, loop0), Times(x.numPeriods % p, c));
    LoopSize(0, x.numPeriods / p, Times(p, c));
  }

  /** Compiler correctness.  With the microcode in memory and the thread at its
      first instruction, the thread comes back to that instruction after one
      lap, with the control word unchanged, and the lap has moved exactly its
      periods with the event after each one. */
  lemma LapRuns(mem: seq<byte>, x: Xfer, bursts: nat, ev: byte, s: Machine) returns (n: nat, t: Machine)
    requires CodeAt(mem, s.pc, CyclicBytes(x, bursts, ev))
    requires JumpsFit(x, bursts, ev) && AlignedTo(x)
    requires s.dma.ccr == x.ccr && s.dma.fifo == []
    ensures n > 0 && Run(mem, s, n) == Some(t)
    ensures t.pc == s.pc && t.dma == Lap(x, bursts, ev, s.dma)
    ensures t.dma.ccr == x.ccr && t.dma.fifo == []
  {
    hide Lap, CyclicCode, Bytes, Decode, JumpsFit, AlignedTo, Eval;
    var c := CyclicCode(x, bursts, ev);
    assert |Bytes(c)| <= 255 by { assert JumpsFit(x, bursts, ev); CyclicFits(x, bursts, ev); }
    var back := LpEnd(true, 1, Always, BackJump(|Bytes(c)|));
    CodeAtSplit(mem, s.pc, Bytes(c), Encode(back));
    CyclicMeaning(x, bursts, ev, s.dma);
    var m, u := Simulate(mem, c, s);
    DecodeEncode(mem, u.pc, back);
    t := u.(pc := s.pc);
    RunOne(mem, u, t);
    ReachesJoin(mem, s, m, u, 1, t);
    n := m + 1;
    LapAtRest(x, bursts, ev, s.dma);
  }

  lemma CyclicFits(x: Xfer, bursts: nat, ev: byte)
    requires JumpsFit(x, bursts, ev)
    ensures |Bytes(CyclicCode(x, bursts, ev))| <= 255
  {}

  lemma LapAtRest(x: Xfer, bursts: nat, ev: byte, d: Dma)
    requires AlignedTo(x) && d.ccr == x.ccr && d.fifo == []
    ensures Lap(x, bursts, ev, d).ccr == x.ccr && Lap(x, bursts, ev, d).fifo == []
  {
    hide PeriodsMoved, PeriodBeats, PeriodsRun;
    PeriodsAtRest(x, d.(sar := x.srcAddr, dar := x.dstAddr), PeriodsRun(x.numPeriods), PeriodBeats(x, bursts), ev % 32);
  }

  // ------------------------------------------------- is it what was asked?

  function Bursts(x: Xfer): nat { ByteToBurst(x.periodBytes, x.ccr) }

  // Bytes moved in one period, and in one lap.
  function PeriodBytes(x: Xfer): int { PeriodBeats(x, Bursts(x)) * SrcSize(x.ccr) }
  function LapBytes(x: Xfer): int { PeriodsRun(x.numPeriods) * PeriodBytes(x) }

  lemma BytesInBeats(b: nat, size: nat, len: nat)
    requires size >= 1 && len >= 1
    ensures b / size * size == b - b % size
    ensures b / size / len * len + b / size % len == b / size
  {}

  lemma PeriodBytesMoved(x: Xfer)
    ensures Bursts(x) >= 1 ==> PeriodBytes(x) == x.periodBytes - x.periodBytes % SrcSize(x.ccr)
    ensures Bursts(x) >= 1 ==> PeriodBeats(x, Bursts(x)) == x.periodBytes / SrcSize(x.ccr)
    ensures Bursts(x) == 0 ==> PeriodBytes(x) > x.periodBytes
    ensures PeriodBytes(x) > 0
  {
    hide SrcSize, SrcLen, BurstsRun;
    var size, len := SrcSize(x.ccr), SrcLen(x.ccr);
    var beats := x.periodBytes / size;
    var bursts := Bursts(x);
    BurstSplitExact(bursts);
    BytesInBeats(x.periodBytes, size, len);
    assert PeriodBeats(x, bursts) == BurstsRun(bursts) * len + beats % len;
    if bursts == 0 {
      MulSum(256 * len, beats, size);
      MulAtLeast(256 * len, size);
    } else {
      MulAtLeast(bursts, len);
      MulAtLeast(beats, size);
    }
  }

  /** One lap moves numPeriods * periodBytes bytes if and only if there is a
      period to move, a period holds at least one burst, and it is a whole
      number of beats.  (With no burst the eight-bit loop count 0 means 256.) */
  lemma LapBytesExact(x: Xfer)
    requires x.periodBytes >= 1
    ensures LapBytes(x) == x.numPeriods * x.periodBytes
      <==> x.numPeriods >= 1 && Bursts(x) >= 1 && x.periodBytes % SrcSize(x.ccr) == 0
  {
    hide PeriodBytes, PeriodsRun, Bursts, SrcSize;
    var n, b := x.numPeriods, x.periodBytes;
    var moved := PeriodBytes(x);
    PeriodBytesMoved(x);
    PeriodSplitExact(n);
    if n == 0 {
      MulAtLeast(256, moved);
    } else if moved > b {
      MulSum(moved - b, b, n);
      MulAtLeast(moved - b, n);
    } else if moved < b {
      MulSum(b - moved, moved, n);
      MulAtLeast(b - moved, n);
    }
  }

  /** A period of 28 bytes, less than one 32-byte burst: the lap moves 8220. */
  lemma ShortPeriodMovesTooMuch(x: Xfer)
    requires x == AudioXfer(false, 0, 0, 28, 28, 0)
    ensures x.numPeriods * x.periodBytes == 28 && LapBytes(x) == 8220
  {
    hide PeriodsRun, BurstsRun, SrcSize, SrcLen, AudioCcr;
    AudioCcrFields(false);
    assert Bursts(x) == 28 / 4 / 8 == 0 && x.numPeriods == 1;
    BurstSplitExact(0);
    assert PeriodBeats(x, 0) == 256 * 8 + 7;
    assert PeriodBytes(x) == 2055 * 4;
    PeriodSplitExact(1);
    OneTime(PeriodBytes(x));
  }

  lemma OneTime(n: int)
    ensures 1 * n == n
  {}

  /** One lap plays the caller's buffer exactly if the buffer is a nonzero
      number of whole periods, each of at least 32 bytes and of whole beats; a
      remainder that makes no period is never played. */
  lemma LapIsTheBuffer(x: Xfer, fromDevice: bool, srcAddr: word, dstAddr: word, len: word, periodLen: word, id: byte)
    requires periodLen != 0 && x == AudioXfer(fromDevice, srcAddr, dstAddr, len, periodLen, id)
    ensures LapBytes(x) == len <==> len != 0 && len % periodLen == 0 && periodLen >= 32 && periodLen % 4 == 0
    ensures len >= periodLen >= 32 && periodLen % 4 == 0 ==> LapBytes(x) == len - len % periodLen
  {
    hide PeriodBytes, PeriodsRun, Bursts, SrcSize, AudioCcr;
    var n, moved := x.numPeriods, PeriodBytes(x);
    assert len == n * periodLen + len % periodLen;
    AudioPeriodMoves(x, fromDevice);
    PeriodSplitExact(n);
    LapBytesExact(x);
    if n == 0 {
      assert LapBytes(x) == 256 * moved;
    } else if periodLen < 32 {
      MulAtLeast(n, moved);
      ScaleUp(8192, moved, n);
      ScaleUp(periodLen, 32, n);
      assert LapBytes(x) == n * moved;
    } else if periodLen % 4 != 0 {
      MulSum(moved, periodLen - moved, n);
      MulAtLeast(n, periodLen - moved);
      assert LapBytes(x) == n * moved;
    }
  }

  lemma AudioPeriodMoves(x: Xfer, fromDevice: bool)
    requires x.ccr == AudioCcr(fromDevice) && x.periodBytes >= 1
    ensures SrcSize(x.ccr) == 4 && (Bursts(x) >= 1 <==> x.periodBytes >= 32)
    ensures x.periodBytes >= 32 ==> PeriodBytes(x) == x.periodBytes - x.periodBytes % 4
    ensures x.periodBytes < 32 ==> PeriodBytes(x) >= 8192
  {
    hide BurstsRun, SrcSize, SrcLen, AudioCcr;
    AudioCcrFields(fromDevice);
    PeriodBytesMoved(x);
    BurstSplitExact(Bursts(x));
  }

  // Beats in a period, when it is a whole number of them.
  function AskedBeats(x: Xfer): nat { x.periodBytes / SrcSize(x.ccr) }
  function Product(m: nat, n: nat): nat { m * n }

  /** When it is what was asked for: the beats read are the consecutive beats
      of the source, the beats written are the consecutive beats of the
      destination and carry them in order, and the i-th event comes when
      exactly i periods have been read and written. */
  lemma LapIsTheTransfer(x: Xfer, ev: byte, d: Dma)
    requires x.numPeriods >= 1 && Bursts(x) >= 1 && x.periodBytes % SrcSize(x.ccr) == 0
    ensures var e := Lap(x, Bursts(x), ev, d);
      var beats := AskedBeats(x);
      && e.loaded == d.loaded + AddrRun(x.srcAddr, SrcInc(d.ccr), SrcSize(d.ccr), Product(x.numPeriods, beats))
      && e.stored == d.stored + Zip(AddrRun(x.dstAddr, DstInc(d.ccr), DstSize(d.ccr), Product(x.numPeriods, beats)),
                                    Positions(|d.loaded|, Product(x.numPeriods, beats)))
      && e.signals == d.signals + SignalRun(|d.loaded|, |d.stored|, x.numPeriods, beats, ev % 32)
  {
    hide PeriodBeats, PeriodsRun, Bursts, SrcSize, DstSize, SrcInc, DstInc, AddrRun, Zip, Positions, SignalRun, PeriodsMoved;
    PeriodBytesMoved(x);
    PeriodSplitExact(x.numPeriods);
    var d2 := d.(sar := x.srcAddr, dar := x.dstAddr);
    PeriodsMovedContents(x, d2, x.numPeriods, AskedBeats(x), ev % 32);
  }

  lemma PeriodsMovedContents(x: Xfer, d: Dma, n: nat, beats: nat, ev: peri5)
    ensures var e := PeriodsMoved(x, d, n, beats, ev);
      && e.loaded == d.loaded + AddrRun(d.sar, SrcInc(d.ccr), SrcSize(d.ccr), n * beats)
      && e.stored == d.stored + Zip(AddrRun(d.dar, DstInc(d.ccr), DstSize(d.ccr), n * beats),
                                    Positions(|d.loaded|, n * beats))
      && e.signals == d.signals + SignalRun(|d.loaded|, |d.stored|, n, beats, ev)
  {}

  // ---------------------------------------------------------- SubmitAudioDMA

  const CC_SRCINC := 0x1
  const CC_DSTINC := 0x4000
  const CC_SRCNS := 0x200
  const CC_DSTNS := 0x80_0000
  const ADDR_WIDTH := 4
  const MAX_BURST := 8

  // Four-byte beats, eight to a burst, the memory side incrementing.
  function AudioCcr(fromDevice: bool): word {
    (if fromDevice then CC_DSTINC else CC_SRCINC) + CC_SRCNS + CC_DSTNS
    + (MAX_BURST - 1) * 0x10 + (MAX_BURST - 1) * 0x4_0000 + 2 * 2 + 2 * 0x8000
  }

  lemma AudioCcrFields(fromDevice: bool)
    ensures var c := AudioCcr(fromDevice);
      && SrcSize(c) == DstSize(c) == ADDR_WIDTH && SrcLen(c) == DstLen(c) == MAX_BURST
      && SrcInc(c) == !fromDevice && DstInc(c) == fromDevice
      && c / 0x200 % 2 == 1 && c / 0x80_0000 % 2 == 1 // non-secure on both sides
  {
    assert Pow2(0) == 1 && Pow2(1) == 2 && Pow2(2) == 4;
  }

  function AudioXfer(fromDevice: bool, srcAddr: word, dstAddr: word, len: word, periodLen: word, id: byte): Xfer
    requires periodLen != 0
  {
    Xfer(AudioCcr(fromDevice), true, !fromDevice, id, len / periodLen, srcAddr, dstAddr, periodLen)
  }

  /** One period of 417,792 bytes: its 13,056 bursts are unrolled 51 times, and
      the loop body of 257 bytes is too long to jump back over. */
  lemma LongPeriodJumpsTooFar(x: Xfer, id: byte)
    requires x == AudioXfer(false, 0, 0, 417_792, 417_792, id)
    ensures Bursts(x) == 13_056 && Unroll(13_056) == 51 && BurstsSize(x, 51) == 257
    ensures !JumpsFit(x, Bursts(x), id)
  {
    hide JumpsFit, SrcSize, SrcLen, AudioCcr, PeriodSize, SplitPeriods;
    AudioCcrFields(false);
    assert Bursts(x) == 417_792 / 4 / 8;
    JumpsFitIff(x, Bursts(x), id);
  }

  // Every wait, and every load and store on the device's side, is for this
  // peripheral; the memory side uses the plain forms.
  predicate Names(c: Code, peri: nat, toDevice: bool) {
    match c
    case Skip => true
    case Ins(i) =>
      (match i
       case Flushp(p) => p == peri
       case Wfp(_, p) => p == peri
       case Ld(_) => toDevice
       case Ldp(_, p) => !toDevice && p == peri
       case St(_) => !toDevice
       case Stp(_, p) => toDevice && p == peri
       case _ => true)
    case Seq(a, b) => Names(a, peri, toDevice) && Names(b, peri, toDevice)
    case Loop(_, _, body) => Names(body, peri, toDevice)
  }

  lemma {:induction false} TimesNames(n: nat, c: Code, peri: nat, toDevice: bool)
    requires Names(c, peri, toDevice)
    ensures Names(Times(n, c), peri, toDevice)
    decreases n
  {
    if n > 0 { TimesNames(n - 1, c, peri, toDevice); }
  }

  /** An audio program names the channel's own peripheral and no other, on the
      side where the device is. */
  lemma AudioNamesItsPeripheral(
      fromDevice: bool, srcAddr: word, dstAddr: word, len: word, periodLen: word, id: byte, bursts: nat)
    requires periodLen != 0
    ensures Names(CyclicCode(AudioXfer(fromDevice, srcAddr, dstAddr, len, periodLen, id), bursts, id), id % 32, !fromDevice)
  {
    var x := AudioXfer(fromDevice, srcAddr, dstAddr, len, periodLen, id);
    var p := SplitPeriods(x.numPeriods, 1);
    var c := PeriodCode(x, bursts, id);
    var movs := Seq(Ins(Mov(SAR, x.srcAddr)), Ins(Mov(DAR, x.dstAddr)));
    var loop0 := Loop(0, x.numPeriods / p, Times(p, c));
    PeriodNames(x, bursts, id);
    hide Names, PeriodCode, SplitPeriods;
    TimesNames(p, c, id % 32, !fromDevice);
    TimesNames(x.numPeriods % p, c, id % 32, !fromDevice);
    InsNames(Mov(SAR, x.srcAddr), id % 32, !fromDevice);
    InsNames(Mov(DAR, x.dstAddr), id % 32, !fromDevice);
    SeqNames(Ins(Mov(SAR, x.srcAddr)), Ins(Mov(DAR, x.dstAddr)), id % 32, !fromDevice);
    LoopNames(0, x.numPeriods / p, Times(p, c), id % 32, !fromDevice);
    SeqNames(movs, loop0, id % 32, !fromDevice);
    SeqNames(Seq(movs, loop0), Times(x.numPeriods % p, c), id % 32, !fromDevice);
  }

  lemma SeqNames(a: Code, b: Code, peri: nat, toDevice: bool)
    requires Names(a, peri, toDevice) && Names(b, peri, toDevice)
    ensures Names(Seq(a, b), peri, toDevice)
  {}

  lemma LoopNames(l: loopReg, cnt: nat, c: Code, peri: nat, toDevice: bool)
    requires Names(c, peri, toDevice)
    ensures Names(Loop(l, cnt, c), peri, toDevice)
  {}

  lemma InsNames(i: Instr, peri: nat, toDevice: bool)
    requires i.Mov? || i.Sev?
    ensures Names(Ins(i), peri, toDevice)
  {}

  lemma BurstsNames(x: Xfer, cyc: nat)
    requires x.involvesDevice
    ensures Names(BurstsCode(x, cyc), x.peripheral % 32, x.toDevice)
  {
    var peri := x.peripheral % 32;
    var wait, load, store := Ins(Wfp(Burst, peri)), LoadCode(Burst, x), StoreCode(Burst, x);
    assert Names(load, peri, x.toDevice) && Names(store, peri, x.toDevice) && Names(wait, peri, x.toDevice);
    assert Names(Ins(Flushp(peri)), peri, x.toDevice);
    hide Names;
    SeqNames(wait, load, peri, x.toDevice);
    SeqNames(Seq(wait, load), store, peri, x.toDevice);
    TimesNames(cyc, PeripheralBurst(Burst, x), peri, x.toDevice);
    SeqNames(Ins(Flushp(peri)), Times(cyc, PeripheralBurst(Burst, x)), peri, x.toDevice);
  }

  lemma PeriodNames(x: Xfer, bursts: nat, ev: byte)
    requires x.involvesDevice
    ensures Names(PeriodCode(x, bursts, ev), x.peripheral % 32, x.toDevice)
  {
    hide Names, BurstsCode, ByteModBurstLen, Unroll, LoopCount, LoopRest, DregsCcr;
    var peri, dregs := x.peripheral % 32, ByteModBurstLen(x.periodBytes, x.ccr);
    var main := Loop(1, LoopCount(bursts), BurstsCode(x, Unroll(bursts)));
    var rest := Loop(1, LoopRest(bursts), BurstsCode(x, 1));
    var mov, sev := Ins(Mov(CCR, x.ccr)), Ins(Sev(ev % 32));
    BurstsNames(x, Unroll(bursts));
    BurstsNames(x, 1);
    LoopNames(1, LoopCount(bursts), BurstsCode(x, Unroll(bursts)), peri, x.toDevice);
    LoopNames(1, LoopRest(bursts), BurstsCode(x, 1), peri, x.toDevice);
    SeqNames(main, rest, peri, x.toDevice);
    InsNames(mov.i, peri, x.toDevice);
    InsNames(sev.i, peri, x.toDevice);
    var part := BurstsPart(x, bursts);
    SeqNames(part, sev, peri, x.toDevice);
    if dregs != 0 {
      var movDregs := Ins(Mov(CCR, DregsCcr(x.ccr, dregs)));
      InsNames(movDregs.i, peri, x.toDevice);
      SeqNames(movDregs, BurstsCode(x, 1), peri, x.toDevice);
      SeqNames(part, DregsCode(x, dregs), peri, x.toDevice);
      SeqNames(Seq(part, DregsCode(x, dregs)), mov, peri, x.toDevice);
      SeqNames(Seq(Seq(part, DregsCode(x, dregs)), mov), sev, peri, x.toDevice);
    }
  }

  function AudioProgram(x: Xfer, id: byte): seq<byte> {
    Encode(Mov(CCR, x.ccr)) + CyclicBytes(x, Bursts(x), id)
  }

  // MCBufSz: a channel's part of the microcode buffer.
  const MCBUF_SZ := 2 * 256

  /** A program stays within its channel's part of the buffer if and only if the
      periods written out take at most 488 bytes; nothing checks it. */
  lemma ProgramFitsIff(x: Xfer, id: byte)
    ensures var p := SplitPeriods(x.numPeriods, 1);
      && |AudioProgram(x, id)| == 24 + (p + x.numPeriods % p) * PeriodSize(x, Bursts(x))
      && (|AudioProgram(x, id)| <= MCBUF_SZ <==> (p + x.numPeriods % p) * PeriodSize(x, Bursts(x)) <= 488)
  {
    hide Bytes, PeriodSize, SplitPeriods, JumpsFit, CyclicCode, Bursts;
    JumpsFitIff(x, Bursts(x), id);
  }

  /** One period of 802,816 bytes: its 25,088 bursts are unrolled 98 times, and
      the program of 522 bytes ends in the next channel's part. */
  lemma LongPeriodOverruns(x: Xfer, id: byte)
    requires x == AudioXfer(false, 0, 0, 802_816, 802_816, id)
    ensures |AudioProgram(x, id)| == 522
  {
    hide JumpsFit, SrcSize, SrcLen, AudioCcr, AudioProgram;
    AudioCcrFields(false);
    assert Bursts(x) == 25_088 && Unroll(25_088) == 98 && ByteModBurstLen(802_816, x.ccr) == 0;
    assert LoopRest(25_088) == 0;
    assert PeriodSize(x, 25_088) == 498;
    assert x.numPeriods == 1 && SplitPeriods(1, 1) == 1;
    ProgramFitsIff(x, id);
  }

  // k laps one after the other.
  function Laps(x: Xfer, id: byte, d: Dma, k: nat): Dma {
    if k == 0 then d else Lap(x, Bursts(x), id, Laps(x, id, d, k - 1))
  }

  lemma {:induction false} ForeverRuns(mem: seq<byte>, x: Xfer, id: byte, s: Machine, k: nat) returns (n: nat, t: Machine)
    requires CodeAt(mem, s.pc, CyclicBytes(x, Bursts(x), id))
    requires JumpsFit(x, Bursts(x), id) && AlignedTo(x)
    requires s.dma.ccr == x.ccr && s.dma.fifo == []
    ensures n >= k && Run(mem, s, n) == Some(t)
    ensures t.pc == s.pc && t.dma == Laps(x, id, s.dma, k) && t.dma.ccr == x.ccr && t.dma.fifo == []
    decreases k
  {
    hide Lap, CyclicBytes, JumpsFit, AlignedTo, Step, Bursts;
    if k == 0 {
      n, t := 0, s;
    } else {
      var m, u := ForeverRuns(mem, x, id, s, k - 1);
      n, t := LapRuns(mem, x, Bursts(x), id, u);
      ReachesJoin(mem, s, m, u, n, t);
      n := m + n;
    }
  }

  /** From whatever the channel's registers held, an audio program started where
      it lies runs for ever: for every k it completes k laps, each one a Lap. */
  lemma AudioRuns(mem: seq<byte>, x: Xfer, id: byte, s: Machine, k: nat) returns (n: nat, t: Machine)
    requires CodeAt(mem, s.pc, AudioProgram(x, id))
    requires JumpsFit(x, Bursts(x), id) && AlignedTo(x)
    requires s.dma.fifo == []
    ensures n > k && Run(mem, s, n) == Some(t)
    ensures t.pc == s.pc + SZ_DMAMOV && t.dma == Laps(x, id, s.dma.(ccr := x.ccr), k)
  {
    hide Laps, CyclicBytes, Encode, Step, JumpsFit, AlignedTo, Bursts;
    CodeAtSplit(mem, s.pc, Encode(Mov(CCR, x.ccr)), CyclicBytes(x, Bursts(x), id));
    StepIns(mem, s, Mov(CCR, x.ccr));
    var u := s.(pc := s.pc + SZ_DMAMOV, dma := s.dma.(ccr := x.ccr));
    n, t := ForeverRuns(mem, x, id, u, k);
    ReachesJoin(mem, s, 1, u, n, t);
    n := n + 1;
  }

  // ------------------------------------------------------ what is to be played

  // What a channel has read, written and signalled.
  datatype Trace = Trace(loaded: seq<word>, stored: seq<Stored>, signals: seq<Signal>)

  function TraceOf(d: Dma): Trace { Trace(d.loaded, d.stored, d.signals) }

  // The caller's request, played once: the memory side rises by four bytes a
  // beat, the device's register stays; each beat written is the one read; the
  // event comes after each period.
  function PlayedOnce(
      t: Trace, fromDevice: bool, srcAddr: word, dstAddr: word, len: word, periodLen: word, id: byte): Trace
    requires periodLen != 0
  {
    var periods: nat, beats := len / periodLen, Product(len / periodLen, periodLen / 4);
    Trace(t.loaded + seq(beats, i requires 0 <= i < beats => if fromDevice then srcAddr else (srcAddr + 4 * i) % WORD),
          t.stored + seq(beats, i requires 0 <= i < beats =>
                           Stored(if fromDevice then (dstAddr + 4 * i) % WORD else dstAddr, |t.loaded| + i)),
          t.signals + seq(periods, i requires 0 <= i < periods =>
                            Signal(id % 32, |t.loaded| + Product(i + 1, periodLen / 4), |t.stored| + Product(i + 1, periodLen / 4))))
  }

  function Played(
      t: Trace, fromDevice: bool, srcAddr: word, dstAddr: word, len: word, periodLen: word, id: byte, k: nat): Trace
    requires periodLen != 0
  {
    if k == 0 then t
    else
      PlayedOnce(Played(t, fromDevice, srcAddr, dstAddr, len, periodLen, id, k - 1),
                 fromDevice, srcAddr, dstAddr, len, periodLen, id)
  }

  // A thread in this state plays the request k times.
  ghost predicate PlaysFrom(
      mem: seq<byte>, s: Machine, fromDevice: bool, srcAddr: word, dstAddr: word, len: word, periodLen: word, id: byte, k: nat)
    requires periodLen != 0
  {
    exists n: nat, t: Machine ::
      Run(mem, s, n) == Some(t)
      && TraceOf(t.dma) == Played(TraceOf(s.dma), fromDevice, srcAddr, dstAddr, len, periodLen, id, k)
  }

  /** Started at this place, with whatever in its registers, a thread plays the
      request as often as one likes. */
  ghost predicate Plays(
      mem: seq<byte>, at: nat, fromDevice: bool, srcAddr: word, dstAddr: word, len: word, periodLen: word, id: byte)
    requires periodLen != 0
  {
    forall s: Machine, k: nat | s.pc == at && s.dma.fifo == [] ::
      PlaysFrom(mem, s, fromDevice, srcAddr, dstAddr, len, periodLen, id, k)
  }

  // Whole periods of at least 32 bytes and of whole beats, addresses on beats.
  predicate Playable(srcAddr: word, dstAddr: word, len: word, periodLen: word) {
    len >= periodLen >= 32 && periodLen % 4 == 0 && srcAddr % 4 == 0 && dstAddr % 4 == 0
  }

  // All jumps fit exactly if the longest does.
  lemma ShortProgramJumpsFit(x: Xfer, id: byte)
    ensures JumpsFit(x, Bursts(x), id) <==> |AudioProgram(x, id)| <= SZ_DMAMOV + 255 + 2
  {
    hide Bytes, SplitPeriods, JumpsFit, CyclicCode, Bursts, BurstsSize, ByteModBurstLen, LoopRest, Unroll;
    JumpsFitIff(x, Bursts(x), id);
    var p := SplitPeriods(x.numPeriods, 1);
    var size := PeriodSize(x, Bursts(x));
    assert BurstsSize(x, Unroll(Bursts(x))) <= size;
    MulAtLeast(p + x.numPeriods % p, size);
  }

  lemma OneLapPlays(
      x: Xfer, fromDevice: bool, srcAddr: word, dstAddr: word, len: word, periodLen: word, id: byte, d: Dma)
    requires Playable(srcAddr, dstAddr, len, periodLen) && d.ccr == x.ccr
    requires x == AudioXfer(fromDevice, srcAddr, dstAddr, len, periodLen, id)
    ensures TraceOf(Lap(x, Bursts(x), id, d)) == PlayedOnce(TraceOf(d), fromDevice, srcAddr, dstAddr, len, periodLen, id)
  {
    hide Lap, Bursts, SrcSize, DstSize, SrcInc, DstInc, SrcLen, DstLen, AudioCcr;
    AudioCcrFields(fromDevice);
    AudioPeriodMoves(x, fromDevice);
    assert len / periodLen >= 1;
    LapIsTheTransfer(x, id, d);
    var e, f := Lap(x, Bursts(x), id, d), PlayedOnce(TraceOf(d), fromDevice, srcAddr, dstAddr, len, periodLen, id);
    var beats := Product(len / periodLen, periodLen / 4);
    assert Product(x.numPeriods, AskedBeats(x)) == beats;
    LoadsAre(srcAddr, !fromDevice, beats);
    StoresAre(dstAddr, fromDevice, |d.loaded|, beats);
    SignalsAre(|d.loaded|, |d.stored|, len / periodLen, periodLen / 4, id);
    assert e.loaded == f.loaded && e.stored == f.stored && e.signals == f.signals;
  }

  lemma LoadsAre(addr: word, inc: bool, beats: nat)
    ensures AddrRun(addr, inc, 4, beats) == seq(beats, i requires 0 <= i < beats => if !inc then addr else (addr + 4 * i) % WORD)
  {}

  lemma StoresAre(addr: word, inc: bool, from: nat, beats: nat)
    ensures Zip(AddrRun(addr, inc, 4, beats), Positions(from, beats))
         == seq(beats, i requires 0 <= i < beats => Stored(if inc then (addr + 4 * i) % WORD else addr, from + i))
  {}

  lemma SignalsAre(loaded: nat, stored: nat, n: nat, beats: nat, id: byte)
    ensures SignalRun(loaded, stored, n, beats, id % 32)
         == seq(n, i requires 0 <= i < n => Signal(id % 32, loaded + Product(i + 1, beats), stored + Product(i + 1, beats)))
  {}

  lemma {:induction false} LapsPlay(
      x: Xfer, fromDevice: bool, srcAddr: word, dstAddr: word, len: word, periodLen: word, id: byte, d: Dma, k: nat)
    requires Playable(srcAddr, dstAddr, len, periodLen) && d.ccr == x.ccr && d.fifo == [] && AlignedTo(x)
    requires x == AudioXfer(fromDevice, srcAddr, dstAddr, len, periodLen, id)
    ensures var e := Laps(x, id, d, k);
      && TraceOf(e) == Played(TraceOf(d), fromDevice, srcAddr, dstAddr, len, periodLen, id, k)
      && e.ccr == x.ccr && e.fifo == []
    decreases k
  {
    hide Lap, Bursts, AlignedTo, Playable, AudioXfer, PlayedOnce;
    if k > 0 {
      LapsPlay(x, fromDevice, srcAddr, dstAddr, len, periodLen, id, d, k - 1);
      var e := Laps(x, id, d, k - 1);
      OneLapPlays(x, fromDevice, srcAddr, dstAddr, len, periodLen, id, e);
      LapAtRest(x, Bursts(x), id, e);
    }
  }

  /** A program whose jumps fit plays what was asked for, for ever. */
  lemma AudioPlays(
      mem: seq<byte>, at: nat, fromDevice: bool, srcAddr: word, dstAddr: word, len: word, periodLen: word, id: byte)
    requires Playable(srcAddr, dstAddr, len, periodLen)
    requires CodeAt(mem, at, AudioProgram(AudioXfer(fromDevice, srcAddr, dstAddr, len, periodLen, id), id))
    requires |AudioProgram(AudioXfer(fromDevice, srcAddr, dstAddr, len, periodLen, id), id)| <= SZ_DMAMOV + 255 + 2
    ensures Plays(mem, at, fromDevice, srcAddr, dstAddr, len, periodLen, id)
  {
    hide Played, Laps, JumpsFit, AudioProgram, Run;
    var x := AudioXfer(fromDevice, srcAddr, dstAddr, len, periodLen, id);
    ShortProgramJumpsFit(x, id);
    AudioAligned(x, fromDevice, srcAddr, dstAddr, len, periodLen, id);
    hide AudioXfer, AlignedTo, Playable;
    forall s: Machine, k: nat | s.pc == at && s.dma.fifo == []
      ensures PlaysFrom(mem, s, fromDevice, srcAddr, dstAddr, len, periodLen, id, k)
    {
      var n, t := AudioRuns(mem, x, id, s, k);
      LapsPlay(x, fromDevice, srcAddr, dstAddr, len, periodLen, id, s.dma.(ccr := x.ccr), k);
    }
  }

  lemma AudioAligned(
      x: Xfer, fromDevice: bool, srcAddr: word, dstAddr: word, len: word, periodLen: word, id: byte)
    requires Playable(srcAddr, dstAddr, len, periodLen)
    requires x == AudioXfer(fromDevice, srcAddr, dstAddr, len, periodLen, id)
    ensures AlignedTo(x)
  {
    hide SrcSize, DstSize, SrcLen, DstLen, AudioCcr;
    AudioCcrFields(fromDevice);
  }

  /** Writes the whole program where the channel's part of the microcode buffer
      begins, and nothing but it.  If it is at most 263 bytes long, so that all
      jumps fit, and the request can be played, the channel plays it. */
  method SubmitAudioDMA(buf: array<byte>, fromDevice: bool, srcAddr: word, dstAddr: word, len: word, periodLen: word, id: byte)
    returns (off: nat, pxs: Xfer)
    requires periodLen != 0
    requires MCBUF_SZ * id + |AudioProgram(AudioXfer(fromDevice, srcAddr, dstAddr, len, periodLen, id), id)| <= buf.Length
    modifies buf
    ensures pxs == AudioXfer(fromDevice, srcAddr, dstAddr, len, periodLen, id)
    ensures off == |AudioProgram(pxs, id)|
    ensures CodeAt(buf[..], MCBUF_SZ * id, AudioProgram(pxs, id))
    ensures off <= 263 && Playable(srcAddr, dstAddr, len, periodLen) ==>
              Plays(buf[..], MCBUF_SZ * id, fromDevice, srcAddr, dstAddr, len, periodLen, id)
    ensures buf[..MCBUF_SZ * id] == old(buf[..MCBUF_SZ * id])
    ensures buf[MCBUF_SZ * id + off..] == old(buf[MCBUF_SZ * id + off..])
  {
    hide CyclicBytes, Encode, SrcSize, SrcLen, Plays, Playable;
    var ccr: int := if fromDevice then CC_DSTINC else CC_SRCINC;
    ccr := ccr + CC_SRCNS + CC_DSTNS;
    ccr := ccr + (MAX_BURST - 1) * 0x10;
    ccr := ccr + (MAX_BURST - 1) * 0x4_0000;
    var burstSz := 2; // index of the lowest bit set in ADDR_WIDTH
    ccr := ccr + burstSz * 2;
    ccr := ccr + burstSz * 0x8000;
    pxs := Xfer(ccr, true, !fromDevice, id, len / periodLen, srcAddr, dstAddr, periodLen);
    var mcCpu := MCBUF_SZ * id;
    off := EmitMOV(false, buf, mcCpu, CCR, ccr);
    var bursts := ByteToBurst(periodLen, ccr);
    var size := LoopCyclic(false, buf, mcCpu + off, bursts, pxs, id);
    WrittenJoin(false, old(buf[..]), mcCpu, Encode(Mov(CCR, ccr)), CyclicBytes(pxs, bursts, id));
    WrittenIsCode(old(buf[..]), mcCpu, AudioProgram(pxs, id));
    off := off + size;
    if off <= 263 && Playable(srcAddr, dstAddr, len, periodLen) {
      AudioPlays(buf[..], mcCpu, fromDevice, srcAddr, dstAddr, len, periodLen, id);
    }
  }
}
