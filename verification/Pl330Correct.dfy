/** What the compiled program does: every lap of its forever loop moves the
    periods the caller asked for, beat by beat in address order, with one event
    after each period, and comes back to its first instruction with the control
    word restored. */
module Pl330Correct {
  import opened Arith
  import opened Words
  import opened Pl330Isa
  import opened Pl330Code
  import opened Pl330Emit
  import opened Pl330Compiler

  // ------------------------------------------------------- the specification

  /** `beats` beats read from consecutive source addresses and written, in the
      order read, to consecutive destination addresses. */
  function Moved(d: Dma, beats: nat): Dma {
    d.(sar := Advance(d.sar, SrcInc(d.ccr), SrcSize(d.ccr), beats),
       dar := Advance(d.dar, DstInc(d.ccr), DstSize(d.ccr), beats),
       loaded := d.loaded + AddrRun(d.sar, SrcInc(d.ccr), SrcSize(d.ccr), beats),
       stored := d.stored + Zip(AddrRun(d.dar, DstInc(d.ccr), DstSize(d.ccr), beats),
                                Positions(|d.loaded|, beats)))
  }

  // A transfer that waits for a peripheral leaves the request type at burst.
  function Waited(x: Xfer, d: Dma): Dma {
    if x.involvesDevice then d.(req := ReqBurst) else d
  }

  // n periods of `beats` beats, each followed by the event.
  function SignalRun(start: nat, startStored: nat, n: nat, beats: nat, ev: peri5): (s: seq<Signal>)
    ensures |s| == n
  {
    seq(n, i requires 0 <= i < n => Signal(ev, start + (i + 1) * beats, startStored + (i + 1) * beats))
  }

  /** n periods moved in one stretch, the event sent at every multiple of the
      period. */
  function PeriodsMoved(x: Xfer, d: Dma, n: nat, beats: nat, ev: peri5): Dma {
    var m := Moved(if n == 0 then d else Waited(x, d), n * beats);
    m.(signals := d.signals + SignalRun(|d.loaded|, |d.stored|, n, beats, ev))
  }

  // --------------------------------------------------------- moving in parts

  lemma AdvanceSum(a: word, inc: bool, size: nat, m: nat, n: nat)
    ensures Advance(Advance(a, inc, size, m), inc, size, n) == Advance(a, inc, size, m + n)
  {
    MulSum(m, n, size);
    ModPlus(a + m * size, n * size, WORD);
  }

  lemma AddrRunJoin(a: word, inc: bool, size: nat, m: nat, n: nat)
    ensures AddrRun(a, inc, size, m) + AddrRun(Advance(a, inc, size, m), inc, size, n) == AddrRun(a, inc, size, m + n)
  {
    var l := AddrRun(a, inc, size, m) + AddrRun(Advance(a, inc, size, m), inc, size, n);
    var r := AddrRun(a, inc, size, m + n);
    forall i | 0 <= i < m + n ensures l[i] == r[i] {
      if i >= m { AdvanceSum(a, inc, size, m, i - m); }
    }
  }

  lemma ZipJoin(a: seq<word>, b: seq<word>, p: seq<nat>, q: seq<nat>)
    requires |a| == |p| && |b| == |q|
    ensures Zip(a, p) + Zip(b, q) == Zip(a + b, p + q)
  {}

  lemma PositionsJoin(start: nat, m: nat, n: nat)
    ensures Positions(start, m) + Positions(start + m, n) == Positions(start, m + n)
  {}

  lemma AppendJoin<T>(a: seq<T>, b: seq<T>, c: seq<T>)
    ensures a + b + c == a + (b + c)
  {}

  /** Moving m beats and then n beats is moving m + n beats. */
  lemma MovedJoin(d: Dma, m: nat, n: nat)
    ensures Moved(Moved(d, m), n) == Moved(d, m + n)
  {
    hide AddrRun, Zip, Positions, Advance;
    AdvanceSum(d.sar, SrcInc(d.ccr), SrcSize(d.ccr), m, n);
    AdvanceSum(d.dar, DstInc(d.ccr), DstSize(d.ccr), m, n);
    AddrRunJoin(d.sar, SrcInc(d.ccr), SrcSize(d.ccr), m, n);
    AddrRunJoin(d.dar, DstInc(d.ccr), DstSize(d.ccr), m, n);
    PositionsJoin(|d.loaded|, m, n);
    var a1 := AddrRun(d.dar, DstInc(d.ccr), DstSize(d.ccr), m);
    var d1 := Moved(d, m);
    var a2 := AddrRun(d1.dar, DstInc(d.ccr), DstSize(d.ccr), n);
    ZipJoin(a1, a2, Positions(|d.loaded|, m), Positions(|d1.loaded|, n));
    AppendJoin(d.stored, Zip(a1, Positions(|d.loaded|, m)), Zip(a2, Positions(|d1.loaded|, n)));
    AppendJoin(d.loaded, AddrRun(d.sar, SrcInc(d.ccr), SrcSize(d.ccr), m),
               AddrRun(d1.sar, SrcInc(d.ccr), SrcSize(d.ccr), n));
  }

  // ------------------------------------------------------------- one burst

  // Both sides of the transfer use the same beats, as SubmitAudioDMA sets up.
  predicate Balanced(ccr: word) {
    SrcLen(ccr) == DstLen(ccr) && SrcSize(ccr) == DstSize(ccr)
  }

  // Between bursts: nothing in the FIFO, both addresses on a beat boundary.
  predicate AtRest(d: Dma) {
    && Balanced(d.ccr)
    && d.fifo == []
    && d.sar % SrcSize(d.ccr) == 0
    && d.dar % DstSize(d.ccr) == 0
  }

  lemma BeatSizeDivides(n: nat)
    requires n <= 7
    ensures WORD % Pow2(n) == 0
  {
    assert Pow2(0) == 1 && Pow2(1) == 2 && Pow2(2) == 4;
    assert Pow2(3) == 8;
    assert Pow2(4) == 16;
    assert Pow2(5) == 32;
    assert Pow2(6) == 64;
    assert Pow2(7) == 128;
  }

  lemma AdvanceAligned(a: word, inc: bool, n: nat, beats: nat)
    requires n <= 7 && a % Pow2(n) == 0
    ensures Advance(a, inc, Pow2(n), beats) % Pow2(n) == 0
  {
    BeatSizeDivides(n);
    SumMod(a, beats, Pow2(n));
    ModOfMod(a + beats * Pow2(n), WORD, Pow2(n));
  }

  lemma MovedAtRest(d: Dma, beats: nat)
    requires AtRest(d)
    ensures AtRest(Moved(d, beats))
  {
    AdvanceAligned(d.sar, SrcInc(d.ccr), d.ccr / 2 % 8, beats);
    AdvanceAligned(d.dar, DstInc(d.ccr), d.ccr / 0x8000 % 8, beats);
  }

  // A burst load followed by a burst store.
  lemma LoadStore(d: Dma)
    requires AtRest(d)
    ensures Load(d).Some? && Store(Load(d).value) == Some(Moved(d, SrcLen(d.ccr)))
  {
    var n := SrcLen(d.ccr);
    var l := Load(d).value;
    assert [] + Positions(|d.loaded|, n) == Positions(|d.loaded|, n);
    assert l.fifo[..n] == Positions(|d.loaded|, n) && l.fifo[n..] == [];
  }

  // The body of either kind of burst loop.
  function OneBurst(x: Xfer): Code {
    if x.involvesDevice then PeripheralBurst(Burst, x) else MemToMemBurst
  }

  lemma OneBurstMoves(x: Xfer, d: Dma)
    requires AtRest(d)
    ensures WellFormed(OneBurst(x))
    ensures Eval(OneBurst(x), d) == Some(Moved(Waited(x, d), SrcLen(d.ccr)))
  {
    hide Load, Store, Moved;
    var w := Waited(x, d);
    LoadStore(w);
    if x.involvesDevice {
      var wait := Ins(Wfp(Burst, x.peripheral % 32));
      var load, store := LoadCode(Burst, x), StoreCode(Burst, x);
      assert Eval(wait, d) == Some(w);
      assert Eval(load, w) == Load(w);
      assert Eval(store, Load(w).value) == Store(Load(w).value) by { LoadKeepsRequest(w); }
      assert WellFormed(load) && WellFormed(store) && WellFormed(Seq(wait, load));
      assert Eval(Seq(wait, load), d) == Load(w);
    } else {
      assert WellFormed(Ins(Ld(Always))) && WellFormed(Ins(St(Always)));
      assert Eval(Ins(Ld(Always)), d) == Load(w);
    }
  }

  lemma LoadKeepsRequest(d: Dma)
    requires Load(d).Some?
    ensures Load(d).value.req == d.req
  {}

  lemma WaitedMoved(x: Xfer, d: Dma, n: nat)
    ensures Moved(Waited(x, d), n) == Waited(x, Moved(d, n))
    ensures Waited(x, Waited(x, d)) == Waited(x, d)
  {}

  // Waiting once or every time makes no difference after the first burst.
  lemma MovedTwice(x: Xfer, d: Dma, m: nat, n: nat)
    ensures Moved(Waited(x, Moved(Waited(x, d), m)), n) == Moved(Waited(x, d), m + n)
  {
    hide Moved;
    WaitedMoved(x, d, m);
    WaitedMoved(x, Waited(x, d), m);
    MovedJoin(Waited(x, d), m, n);
  }

  // ---------------------------------------------------------- bursts in loops

  lemma {:induction false} UnrolledMoves(x: Xfer, cyc: nat, d: Dma)
    requires AtRest(d) && cyc >= 1
    ensures WellFormed(Times(cyc, OneBurst(x)))
    ensures Eval(Times(cyc, OneBurst(x)), d) == Some(Moved(Waited(x, d), cyc * SrcLen(d.ccr)))
    decreases cyc
  {
    hide Moved, OneBurst;
    var len := SrcLen(d.ccr);
    if cyc == 1 {
      OneBurstMoves(x, d);
      assert Times(1, OneBurst(x)) == Seq(Times(0, OneBurst(x)), OneBurst(x));
      assert Eval(Times(0, OneBurst(x)), d) == Some(d);
    } else {
      UnrolledMoves(x, cyc - 1, d);
      var e := Moved(Waited(x, d), (cyc - 1) * len);
      WaitedAtRest(x, d);
      MovedAtRest(Waited(x, d), (cyc - 1) * len);
      MovedKeeps(Waited(x, d), (cyc - 1) * len);
      OneBurstMoves(x, e);
      MovedTwice(x, d, (cyc - 1) * len, len);
      MulSum(cyc - 1, 1, len);
    }
  }

  lemma WaitedAtRest(x: Xfer, d: Dma)
    requires AtRest(d)
    ensures AtRest(Waited(x, d)) && Waited(x, d).ccr == d.ccr
  {}

  lemma MovedKeeps(d: Dma, n: nat)
    ensures Moved(d, n).ccr == d.ccr && Moved(d, n).fifo == d.fifo
    ensures Moved(d, n).req == d.req && Moved(d, n).signals == d.signals
    ensures |Moved(d, n).loaded| == |d.loaded| + n && |Moved(d, n).stored| == |d.stored| + n
  {}

  lemma BurstsMove(x: Xfer, cyc: nat, d: Dma)
    requires AtRest(d) && cyc >= 1
    ensures WellFormed(BurstsCode(x, cyc))
    ensures Eval(BurstsCode(x, cyc), d) == Some(Moved(Waited(x, d), cyc * SrcLen(d.ccr)))
  {
    hide Moved;
    UnrolledMoves(x, cyc, d);
    if x.involvesDevice {
      assert Eval(Ins(Flushp(x.peripheral % 32)), d) == Some(d);
    }
  }

  lemma {:induction false} RepeatedMoves(x: Xfer, cyc: nat, n: nat, d: Dma)
    requires AtRest(d) && cyc >= 1 && n >= 1
    ensures WellFormed(BurstsCode(x, cyc))
    ensures Repeat(BurstsCode(x, cyc), n, d) == Some(Moved(Waited(x, d), n * (cyc * SrcLen(d.ccr))))
    decreases n
  {
    hide Moved, BurstsCode, Eval;
    var len := cyc * SrcLen(d.ccr);
    BurstsMove(x, cyc, d);
    var e := Moved(Waited(x, d), len);
    if n == 1 {
      assert Repeat(BurstsCode(x, cyc), 0, e) == Some(e);
    } else {
      WaitedAtRest(x, d);
      MovedAtRest(Waited(x, d), len);
      MovedKeeps(Waited(x, d), len);
      RepeatedMoves(x, cyc, n - 1, e);
      MovedTwice(x, d, len, (n - 1) * len);
      MulSum(1, n - 1, len);
    }
  }

  // ------------------------------------------------------------- one period

  // How many bursts the two loops of a period really run.
  function BurstsRun(bursts: nat): nat {
    Iterations(LoopCount(bursts)) * Unroll(bursts) + LoopRest(bursts)
  }

  /** The split into 256 times an unrolled body and a rest is exact, except that
      no bursts at all means 256 of them. */
  lemma BurstSplitExact(bursts: nat)
    ensures BurstsRun(bursts) == bursts <==> bursts != 0
    ensures BurstsRun(0) == 256
    ensures LoopRest(bursts) < 256
  {
    if bursts > 256 {
      var q := bursts / 256;
      assert LoopCount(bursts) == 256 && Unroll(bursts) == q && Iterations(256) == 256;
      assert BurstsRun(bursts) == 256 * q + (bursts - 256 * q);
    } else {
      assert Unroll(bursts) == 1 && LoopCount(bursts) == bursts;
      assert LoopRest(bursts) == 0;
      IterationsExact(bursts);
    }
  }

  predicate BurstJumpsFit(x: Xfer, bursts: nat) {
    |Bytes(BurstsCode(x, Unroll(bursts)))| <= 255
  }

  lemma SmallBurstsFit(x: Xfer)
    ensures |Bytes(BurstsCode(x, 1))| <= 7
  {
    var b := OneBurst(x);
    assert |Bytes(Times(0, b))| == 0;
    assert Bytes(Times(1, b)) == Bytes(Times(0, b)) + Bytes(b);
    if x.involvesDevice {
      var wait := Ins(Wfp(Burst, x.peripheral % 32));
      var load, store := LoadCode(Burst, x), StoreCode(Burst, x);
      assert |Bytes(load)| + |Bytes(store)| == 3;
      assert |Bytes(Seq(wait, load))| == 2 + |Bytes(load)|;
      assert |Bytes(b)| == 5;
    }
  }

  lemma {:induction false} NoLoops(x: Xfer, cyc: nat)
    ensures forall l: loopReg :: !Uses(BurstsCode(x, cyc), l)
  {
    var b := OneBurst(x);
    TimesUses(cyc, b);
    forall l: loopReg ensures !Uses(b, l) {
      assert !Uses(LoadCode(Burst, x), l) && !Uses(StoreCode(Burst, x), l);
      assert !Uses(Seq(Ins(Wfp(Burst, x.peripheral % 32)), LoadCode(Burst, x)), l);
    }
  }

  lemma {:induction false} TimesUses(n: nat, c: Code)
    ensures forall l: loopReg :: Uses(Times(n, c), l) <==> n > 0 && Uses(c, l)
    decreases n
  {
    if n > 0 { TimesUses(n - 1, c); }
  }

  lemma BurstLoopMoves(x: Xfer, cnt: nat, cyc: nat, d: Dma)
    requires AtRest(d) && cyc >= 1 && |Bytes(BurstsCode(x, cyc))| <= 255
    ensures WellFormed(Loop(1, cnt, BurstsCode(x, cyc)))
    ensures Eval(Loop(1, cnt, BurstsCode(x, cyc)), d) == Some(Moved(Waited(x, d), Iterations(cnt) * (cyc * SrcLen(d.ccr))))
  {
    hide Moved, BurstsCode;
    NoLoops(x, cyc);
    RepeatedMoves(x, cyc, Iterations(cnt), d);
  }

  lemma BurstsPartMoves(x: Xfer, bursts: nat, d: Dma)
    requires AtRest(d) && BurstJumpsFit(x, bursts)
    ensures WellFormed(BurstsPart(x, bursts))
    ensures Eval(BurstsPart(x, bursts), d) == Some(Moved(Waited(x, d), BurstsRun(bursts) * SrcLen(d.ccr)))
  {
    hide Moved, BurstsCode, Bytes, AtRest, Waited, Repeat, SrcLen, Iterations;
    var len := SrcLen(d.ccr);
    var cyc, rest := Unroll(bursts), LoopRest(bursts);
    var main := Loop(1, LoopCount(bursts), BurstsCode(x, cyc));
    var m := Iterations(LoopCount(bursts)) * (cyc * len);
    BurstLoopMoves(x, LoopCount(bursts), cyc, d);
    BurstSplitExact(bursts);
    BeatsOfSplit(Iterations(LoopCount(bursts)), cyc, rest, len);
    if rest != 0 {
      var e := Moved(Waited(x, d), m);
      WaitedAtRest(x, d);
      MovedAtRest(Waited(x, d), m);
      MovedKeeps(Waited(x, d), m);
      SmallBurstsFit(x);
      BurstLoopMoves(x, rest, 1, e);
      MovedTwice(x, d, m, rest * (1 * len));
      IterationsExact(rest);
      assert Eval(main, d) == Some(e);
    }
  }

  lemma BeatsOfSplit(iter: nat, cyc: nat, rest: nat, len: nat)
    ensures iter * (cyc * len) + rest * (1 * len) == (iter * cyc + rest) * len
  {
    assert iter * (cyc * len) == iter * cyc * len;
    MulSum(iter * cyc, rest, len);
  }

  // Beats moved in one period.
  function PeriodBeats(x: Xfer, bursts: nat): nat {
    hide BurstsRun, SrcLen, ByteModBurstLen;
    BurstsRun(bursts) * SrcLen(x.ccr) + ByteModBurstLen(x.periodBytes, x.ccr)
  }

  // Patching the burst lengths changes nothing else that Moved looks at.
  lemma DregsCcrFields(ccr: word, len: nat)
    requires 1 <= len <= 16
    ensures SrcLen(DregsCcr(ccr, len)) == len && DstLen(DregsCcr(ccr, len)) == len
    ensures SrcSize(DregsCcr(ccr, len)) == SrcSize(ccr) && DstSize(DregsCcr(ccr, len)) == DstSize(ccr)
    ensures SrcInc(DregsCcr(ccr, len)) == SrcInc(ccr) && DstInc(DregsCcr(ccr, len)) == DstInc(ccr)
  {
    hide Pow2, ClearLengths, DregsCcr;
    var lo, mid, hi := ccr % 0x10, ccr / 0x100 % 0x400, ccr / 0x40_0000;
    var src, dst := ccr / 0x10 % 16, ccr / 0x4_0000 % 16;
    SplitWord(ccr);
    DregsAssembled(ccr, len, lo, mid, hi);
    Fields(lo, src, mid, dst, hi);
    Fields(lo, len - 1, mid, len - 1, hi);
  }

  lemma DregsAssembled(ccr: word, len: nat, lo: nat, mid: nat, hi: nat)
    requires 1 <= len <= 16
    requires lo == ccr % 0x10 && mid == ccr / 0x100 % 0x400 && hi == ccr / 0x40_0000
    ensures DregsCcr(ccr, len) == Assemble(lo, len - 1, mid, len - 1, hi)
  {
    hide Assemble;
    DivModUnique(len - 1, 16, 0, len - 1);
    LengthsAdded(lo, mid, hi, len - 1);
  }

  lemma LengthsAdded(lo: nat, mid: nat, hi: nat, len: nat)
    ensures lo + mid * 0x100 + hi * 0x40_0000 + len * 0x10 + len * 0x4_0000 == Assemble(lo, len, mid, len, hi)
  {}

  lemma SplitWord(c: nat)
    ensures c == Assemble(c % 0x10, c / 0x10 % 16, c / 0x100 % 0x400, c / 0x4_0000 % 16, c / 0x40_0000)
  {
    assert c / 0x10 / 0x10 == c / 0x100;
    assert c / 0x100 / 0x400 == c / 0x4_0000;
    assert c / 0x4_0000 / 0x10 == c / 0x40_0000;
  }

  // A control word put together from its two length fields and the rest.
  function Assemble(lo: nat, src: nat, mid: nat, dst: nat, hi: nat): nat {
    lo + 0x10 * (src + 0x10 * (mid + 0x400 * (dst + 0x10 * hi)))
  }

  lemma Fields(lo: nat, src: nat, mid: nat, dst: nat, hi: nat)
    requires lo < 0x10 && src < 0x10 && mid < 0x400 && dst < 0x10
    ensures var c := Assemble(lo, src, mid, dst, hi);
      && c / 0x10 % 16 == src && c / 0x4_0000 % 16 == dst
      && c % 2 == lo % 2 && c / 2 % 8 == lo / 2
      && c / 0x4000 % 2 == mid / 0x40 % 2 && c / 0x8000 % 8 == mid / 0x80
  {
    var c := Assemble(lo, src, mid, dst, hi);
    var t := dst + 0x10 * hi;
    var u := mid + 0x400 * t;
    var v := src + 0x10 * u;
    DivModUnique(c, 0x10, v, lo);
    DivModUnique(v, 0x10, u, src);
    DivModUnique(t, 0x10, hi, dst);
    DivModUnique(c, 0x4_0000, t, lo + 0x10 * src + 0x100 * mid);
    DivModUnique(c, 2, 8 * v + lo / 2, lo % 2);
    DivModUnique(8 * v + lo / 2, 8, v, lo / 2);
    DivModUnique(c, 0x4000, mid / 0x40 + 16 * t, lo + 0x10 * src + 0x100 * (mid % 0x40));
    DivModUnique(c, 0x8000, mid / 0x80 + 8 * t, lo + 0x10 * src + 0x100 * (mid % 0x80));
    DivModUnique(mid / 0x80 + 8 * t, 8, t, mid / 0x80);
    DivModUnique(mid / 0x40 + 16 * t, 2, mid / 0x80 + 8 * t, mid / 0x40 % 2);
  }

  lemma MovedPatched(d: Dma, ccr: word, n: nat)
    requires SrcSize(ccr) == SrcSize(d.ccr) && DstSize(ccr) == DstSize(d.ccr)
    requires SrcInc(ccr) == SrcInc(d.ccr) && DstInc(ccr) == DstInc(d.ccr)
    ensures Moved(d.(ccr := ccr), n).(ccr := d.ccr) == Moved(d, n)
  {}

  lemma DregsMove(x: Xfer, len: nat, d: Dma)
    requires AtRest(d) && d.ccr == x.ccr && 1 <= len <= 16
    ensures WellFormed(DregsCode(x, len))
    ensures Eval(DregsCode(x, len), d).Some?
    ensures Eval(DregsCode(x, len), d).value.(ccr := x.ccr) == Moved(Waited(x, d), len)
  {
    hide Moved, BurstsCode, DregsCcr;
    DregsCcrFields(x.ccr, len);
    var ccr := DregsCcr(x.ccr, len);
    var e := d.(ccr := ccr);
    assert Eval(Ins(Mov(CCR, ccr)), d) == Some(e);
    BurstsMove(x, 1, e);
    MovedPatched(Waited(x, d), ccr, len);
  }

  function Signalled(d: Dma, ev: peri5): Dma {
    d.(signals := d.signals + [Signal(ev, |d.loaded|, |d.stored|)])
  }

  /** One period: its beats, then its event; the control word is what it was. */
  lemma PeriodMoves(x: Xfer, bursts: nat, ev: byte, d: Dma)
    requires AtRest(d) && d.ccr == x.ccr && BurstJumpsFit(x, bursts)
    ensures WellFormed(PeriodCode(x, bursts, ev))
    ensures Eval(PeriodCode(x, bursts, ev), d)
         == Some(Signalled(Moved(Waited(x, d), PeriodBeats(x, bursts)), ev % 32))
  {
    hide Moved, BurstsPart, DregsCode, ByteModBurstLen, BurstsRun, Bytes, AtRest, Waited, SrcLen, BurstJumpsFit;
    var dregs := ByteModBurstLen(x.periodBytes, x.ccr);
    DregsSmall(x);
    var main := BurstsRun(bursts) * SrcLen(x.ccr);
    var e := Moved(Waited(x, d), main);
    BurstsPartMoves(x, bursts, d);
    WaitedAtRest(x, d);
    MovedAtRest(Waited(x, d), main);
    MovedKeeps(Waited(x, d), main);
    var mov := Ins(Mov(CCR, x.ccr));
    if dregs != 0 {
      DregsMove(x, dregs, e);
      MovedTwice(x, d, main, dregs);
      var f := Eval(DregsCode(x, dregs), e).value;
      assert WellFormed(Seq(BurstsPart(x, bursts), DregsCode(x, dregs))) && WellFormed(mov);
      assert Eval(Seq(BurstsPart(x, bursts), DregsCode(x, dregs)), d) == Some(f);
      assert Eval(mov, f) == Some(f.(ccr := x.ccr));
    }
  }

  lemma DregsSmall(x: Xfer)
    ensures ByteModBurstLen(x.periodBytes, x.ccr) < SrcLen(x.ccr) <= 16
  {}

  // ------------------------------------------------------------ all periods

  lemma PeriodsStep(x: Xfer, d: Dma, n: nat, beats: nat, ev: peri5)
    requires n >= 1
    ensures PeriodsMoved(x, Signalled(Moved(Waited(x, d), beats), ev), n - 1, beats, ev) == PeriodsMoved(x, d, n, beats, ev)
  {
    hide Moved, SignalRun;
    var w := Waited(x, d);
    var m := Moved(w, beats);
    var e := Signalled(m, ev);
    var rest := (n - 1) * beats;
    MovedKeeps(w, beats);
    MulSum(1, n - 1, beats);
    assert n * beats == beats + rest;
    MovedJoin(w, beats, rest);
    MovedKeeps(w, beats + rest);
    MovedSignals(m, e.signals, rest);
    SignalsJoin(|d.loaded|, |d.stored|, n, beats, ev, d.signals);
    assert Moved(e, rest) == Moved(w, n * beats).(signals := e.signals);
    if n > 1 {
      WaitedMoved(x, d, beats);
      assert Waited(x, e) == e;
    }
  }

  lemma MovedNothing(d: Dma)
    ensures Moved(d, 0) == d
  {}

  lemma NoPeriods(x: Xfer, d: Dma, beats: nat, ev: peri5)
    ensures PeriodsMoved(x, d, 0, beats, ev) == d
  {
    MovedNothing(d);
    assert 0 * beats == 0;
  }

  lemma MovedSignals(d: Dma, s: seq<Signal>, n: nat)
    ensures Moved(d.(signals := s), n) == Moved(d, n).(signals := s)
  {}

  lemma SignalsJoin(l: nat, s: nat, n: nat, beats: nat, ev: peri5, before: seq<Signal>)
    requires n >= 1
    ensures before + [Signal(ev, l + beats, s + beats)] + SignalRun(l + beats, s + beats, n - 1, beats, ev)
         == before + SignalRun(l, s, n, beats, ev)
  {
    var head := [Signal(ev, l + beats, s + beats)];
    var a := head + SignalRun(l + beats, s + beats, n - 1, beats, ev);
    var b := SignalRun(l, s, n, beats, ev);
    forall i | 0 <= i < n ensures a[i] == b[i] {
      MulSum(1, i, beats);
    }
    AppendJoin(before, head, SignalRun(l + beats, s + beats, n - 1, beats, ev));
  }

  lemma PeriodsAtRest(x: Xfer, d: Dma, n: nat, beats: nat, ev: peri5)
    requires AtRest(d)
    ensures AtRest(PeriodsMoved(x, d, n, beats, ev)) && PeriodsMoved(x, d, n, beats, ev).ccr == d.ccr
  {
    hide Moved;
    var w := if n == 0 then d else Waited(x, d);
    MovedAtRest(w, n * beats);
    MovedKeeps(w, n * beats);
  }

  lemma {:induction false} PeriodsJoin(x: Xfer, d: Dma, m: nat, n: nat, beats: nat, ev: peri5)
    ensures PeriodsMoved(x, PeriodsMoved(x, d, m, beats, ev), n, beats, ev) == PeriodsMoved(x, d, m + n, beats, ev)
    decreases m
  {
    hide Moved, PeriodsMoved, Waited;
    if m == 0 {
      NoPeriods(x, d, beats, ev);
    } else {
      var e := Signalled(Moved(Waited(x, d), beats), ev);
      PeriodsStep(x, d, m, beats, ev);
      PeriodsJoin(x, e, m - 1, n, beats, ev);
      PeriodsStep(x, d, m + n, beats, ev);
    }
  }

  lemma PeriodIsOne(x: Xfer, d: Dma, beats: nat, ev: peri5)
    ensures Signalled(Moved(Waited(x, d), beats), ev) == PeriodsMoved(x, d, 1, beats, ev)
  {
    PeriodsStep(x, d, 1, beats, ev);
    var e := Signalled(Moved(Waited(x, d), beats), ev);
    NoPeriods(x, e, beats, ev);
  }

  lemma {:induction false} TimesMove(x: Xfer, bursts: nat, ev: byte, n: nat, d: Dma)
    requires AtRest(d) && d.ccr == x.ccr && BurstJumpsFit(x, bursts)
    ensures WellFormed(Times(n, PeriodCode(x, bursts, ev)))
    ensures Eval(Times(n, PeriodCode(x, bursts, ev)), d)
         == Some(PeriodsMoved(x, d, n, PeriodBeats(x, bursts), ev % 32))
    decreases n
  {
    hide PeriodCode, Moved, PeriodBeats;
    var beats := PeriodBeats(x, bursts);
    if n == 0 {
      NoPeriods(x, d, beats, ev % 32);
    } else {
      TimesMove(x, bursts, ev, n - 1, d);
      var e := PeriodsMoved(x, d, n - 1, beats, ev % 32);
      PeriodsAtRest(x, d, n - 1, beats, ev % 32);
      PeriodMoves(x, bursts, ev, e);
      PeriodIsOne(x, e, beats, ev % 32);
      PeriodsJoin(x, d, n - 1, 1, beats, ev % 32);
    }
  }

  lemma {:induction false} RepeatedPeriods(x: Xfer, bursts: nat, ev: byte, p: nat, n: nat, d: Dma)
    requires AtRest(d) && d.ccr == x.ccr && BurstJumpsFit(x, bursts)
    ensures WellFormed(Times(p, PeriodCode(x, bursts, ev)))
    ensures Repeat(Times(p, PeriodCode(x, bursts, ev)), n, d)
         == Some(PeriodsMoved(x, d, n * p, PeriodBeats(x, bursts), ev % 32))
    decreases n
  {
    hide PeriodCode, Moved, PeriodBeats, Eval;
    var beats := PeriodBeats(x, bursts);
    TimesMove(x, bursts, ev, p, d);
    if n == 0 {
      NoPeriods(x, d, beats, ev % 32);
    } else {
      var e := PeriodsMoved(x, d, p, beats, ev % 32);
      PeriodsAtRest(x, d, p, beats, ev % 32);
      RepeatedPeriods(x, bursts, ev, p, n - 1, e);
      PeriodsJoin(x, d, p, (n - 1) * p, beats, ev % 32);
      MulSum(1, n - 1, p);
    }
  }
}
