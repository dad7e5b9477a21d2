/** The cyclic-transfer compiler of insn.c: methods that write microcode into a
    buffer at a running offset, each proved to write exactly the bytes of a
    structured program and to return its size, in a dry run and in a real run
    alike. */
module Pl330Compiler {
  import opened Arith
  import opened Words
  import opened Pl330Isa
  import opened Pl330Code
  import opened Pl330Emit

  // XFER_SPEC.
  datatype Xfer = Xfer(
    ccr: word,
    involvesDevice: bool,
    toDevice: bool,
    peripheral: byte,
    numPeriods: word,
    srcAddr: word,
    dstAddr: word,
    periodBytes: word)

  // --------------------------------------------- the programs that are meant

  function Times(n: nat, c: Code): Code {
    if n == 0 then Skip else Seq(Times(n - 1, c), c)
  }

  const MemToMemBurst: Code := Seq(Ins(Ld(Always)), Ins(St(Always)))

  function LoadCode(cond: Cond, x: Xfer): Code {
    if !x.involvesDevice || x.toDevice then Ins(Ld(cond))
    else if cond == Always then Seq(Ins(Ldp(false, x.peripheral % 32)), Ins(Ldp(true, x.peripheral % 32)))
    else Ins(Ldp(cond == Burst, x.peripheral % 32))
  }

  function StoreCode(cond: Cond, x: Xfer): Code {
    if !x.involvesDevice || !x.toDevice then Ins(St(cond))
    else if cond == Always then Seq(Ins(Stp(false, x.peripheral % 32)), Ins(Stp(true, x.peripheral % 32)))
    else Ins(Stp(cond == Burst, x.peripheral % 32))
  }

  function PeripheralBurst(cond: Cond, x: Xfer): Code {
    Seq(Seq(Ins(Wfp(cond, x.peripheral % 32)), LoadCode(cond, x)), StoreCode(cond, x))
  }

  function BurstsCode(x: Xfer, cyc: nat): Code {
    if x.involvesDevice
    then Seq(Ins(Flushp(x.peripheral % 32)), Times(cyc, PeripheralBurst(Burst, x)))
    else Times(cyc, MemToMemBurst)
  }

  // Both burst length fields cleared.
  function ClearLengths(ccr: word): word {
    ccr % 0x10 + ccr / 0x100 % 0x400 * 0x100 + ccr / 0x40_0000 * 0x40_0000
  }

  // Both burst lengths replaced by len.
  function DregsCcr(ccr: word, len: nat): word
    requires len >= 1
  {
    ClearedRoom(ccr);
    ClearLengths(ccr) + (len - 1) % 16 * 0x10 + (len - 1) % 16 * 0x4_0000
  }

  lemma ClearedRoom(ccr: word)
    ensures 0 <= ClearLengths(ccr) < WORD - 15 * 0x4_0000 - 15 * 0x10
  {
    assert ccr / 0x40_0000 <= 1023;
  }

  function DregsCode(x: Xfer, len: nat): Code {
    if len == 0 then Skip
    else Seq(Ins(Mov(CCR, DregsCcr(x.ccr, len))), BurstsCode(x, 1))
  }

  // BYTE_TO_BURST and BYTE_MOD_BURST_LEN.
  function ByteToBurst(b: word, ccr: word): (n: word) {
    DivAtMost(b, SrcSize(ccr));
    DivAtMost(b / SrcSize(ccr), SrcLen(ccr));
    b / SrcSize(ccr) / SrcLen(ccr)
  }

  function ByteModBurstLen(b: word, ccr: word): (n: nat) { b / SrcSize(ccr) % SrcLen(ccr) }

  // How a number of bursts is split: the loop body is unrolled Unroll times,
  // run LoopCount times, and the rest is a second loop.
  function Unroll(bursts: nat): nat { if bursts > 256 then bursts / 256 else 1 }
  function LoopCount(bursts: nat): nat { if bursts > 256 then 256 else bursts }
  function LoopRest(bursts: nat): nat { bursts - LoopCount(bursts) * Unroll(bursts) }

  function BurstsPart(x: Xfer, bursts: nat): Code {
    var main := Loop(1, LoopCount(bursts), BurstsCode(x, Unroll(bursts)));
    if LoopRest(bursts) == 0 then main else Seq(main, Loop(1, LoopRest(bursts), BurstsCode(x, 1)))
  }

  function PeriodCode(x: Xfer, bursts: nat, ev: byte): Code {
    var dregs := ByteModBurstLen(x.periodBytes, x.ccr);
    var moved := if dregs == 0 then BurstsPart(x, bursts)
                 else Seq(Seq(BurstsPart(x, bursts), DregsCode(x, dregs)), Ins(Mov(CCR, x.ccr)));
    Seq(moved, Ins(Sev(ev % 32)))
  }

  // The count of the loop over `periods` of them fits its byte.
  predicate CountFits(numPeriods: nat, periods: nat)
    requires periods >= 1
  {
    numPeriods / periods <= 256
  }

  lemma CountFitsAlone(numPeriods: nat, periods: nat)
    requires periods > numPeriods
    ensures CountFits(numPeriods, periods)
  {
    DivModUnique(numPeriods, periods, 0, numPeriods);
  }

  // The periods search: the first p from `periods` on with numPeriods / p <= 256.
  function SplitPeriods(numPeriods: nat, periods: nat): (p: nat)
    requires periods >= 1
    ensures p >= periods && CountFits(numPeriods, p)
    ensures forall q :: periods <= q < p ==> !CountFits(numPeriods, q)
    decreases if periods > numPeriods then 0 else numPeriods - periods + 1
  {
    hide CountFits;
    if CountFits(numPeriods, periods) then periods
    else
      if periods > numPeriods then CountFitsAlone(numPeriods, periods); assert false; periods
      else SplitPeriods(numPeriods, periods + 1)
  }

  function CyclicCode(x: Xfer, bursts: nat, ev: byte): Code {
    var periods := SplitPeriods(x.numPeriods, 1);
    Seq(Seq(Seq(Ins(Mov(SAR, x.srcAddr)), Ins(Mov(DAR, x.dstAddr))),
            Loop(0, x.numPeriods / periods, Times(periods, PeriodCode(x, bursts, ev)))),
        Times(x.numPeriods % periods, PeriodCode(x, bursts, ev)))
  }

  // The whole of _loop_cyclic: the code above, then back to its start forever.
  function CyclicBytes(x: Xfer, bursts: nat, ev: byte): seq<byte> {
    var body := Bytes(CyclicCode(x, bursts, ev));
    body + Encode(LpEnd(true, 1, Always, BackJump(|body|)))
  }

  // ------------------------------------------------------------ the compiler

  // The bytes in the buffer after c was compiled at a place in it.
  function Compiled(dryRun: bool, s: seq<byte>, at: nat, c: Code): seq<byte>
    requires dryRun || at + |Bytes(c)| <= |s|
  {
    Written(dryRun, s, at, Bytes(c))
  }

  lemma CompiledSeq(dryRun: bool, s: seq<byte>, at: nat, a: Code, b: Code)
    requires dryRun || at + |Bytes(a)| + |Bytes(b)| <= |s|
    ensures |Bytes(Seq(a, b))| == |Bytes(a)| + |Bytes(b)|
    ensures Compiled(dryRun, Compiled(dryRun, s, at, a), at + |Bytes(a)|, b) == Compiled(dryRun, s, at, Seq(a, b))
  {
    WrittenJoin(dryRun, s, at, Bytes(a), Bytes(b));
  }

  lemma InsSize(i: Instr)
    ensures |Bytes(Ins(i))| == Size(i)
  {}

  lemma CompiledSkip(dryRun: bool, s: seq<byte>, at: nat)
    requires dryRun || at <= |s|
    ensures |Bytes(Skip)| == 0
    ensures Compiled(dryRun, s, at, Skip) == s
  {
    WrittenNothing(dryRun, s, at);
  }

  lemma SeqSize(a: Code, b: Code)
    ensures |Bytes(Seq(a, b))| == |Bytes(a)| + |Bytes(b)|
  {}

  lemma {:induction false} TimesGrows(m: nat, n: nat, c: Code)
    requires m <= n
    ensures |Bytes(Times(m, c))| <= |Bytes(Times(n, c))|
    ensures m < n ==> |Bytes(Times(m, c))| + |Bytes(c)| <= |Bytes(Times(n, c))|
    decreases n
  {
    if m < n { TimesGrows(m, n - 1, c); }
  }

  method LdstMemToMem(dryRun: bool, buf: array<byte>, at: nat, cyc: nat) returns (off: nat)
    requires dryRun || at + |Bytes(Times(cyc, MemToMemBurst))| <= buf.Length
    modifies buf
    ensures off == |Bytes(Times(cyc, MemToMemBurst))|
    ensures buf[..] == Compiled(dryRun, old(buf[..]), at, Times(cyc, MemToMemBurst))
  {
    hide Written, Encode;
    off := 0;
    WrittenNothing(dryRun, buf[..], at);
    var left := cyc;
    while left > 0
      invariant 0 <= left <= cyc
      invariant off == |Bytes(Times(cyc - left, MemToMemBurst))|
      invariant dryRun || at + off <= buf.Length
      invariant buf[..] == Compiled(dryRun, old(buf[..]), at, Times(cyc - left, MemToMemBurst))
    {
      ghost var done := cyc - left;
      TimesGrows(done, cyc, MemToMemBurst);
      ghost var before := buf[..];
      left := left - 1;
      var size := EmitLD(dryRun, buf, at + off, Always);
      off := off + size;
      size := EmitST(dryRun, buf, at + off, Always);
      off := off + size;
      CompiledSeq(dryRun, before, at + off - 2, Ins(Ld(Always)), Ins(St(Always)));
      CompiledSeq(dryRun, old(buf[..]), at, Times(done, MemToMemBurst), MemToMemBurst);
    }
  }

  method EmitLoad(dryRun: bool, buf: array<byte>, at: nat, cond: Cond, pxs: Xfer) returns (off: nat)
    requires dryRun || at + |Bytes(LoadCode(cond, pxs))| <= buf.Length
    modifies buf
    ensures off == |Bytes(LoadCode(cond, pxs))|
    ensures buf[..] == Compiled(dryRun, old(buf[..]), at, LoadCode(cond, pxs))
  {
    if !pxs.involvesDevice || (pxs.involvesDevice && pxs.toDevice) {
      off := EmitLD(dryRun, buf, at, cond);
    } else {
      if cond == Always {
        off := EmitLDP(dryRun, buf, at, Single, pxs.peripheral);
        var size := EmitLDP(dryRun, buf, at + off, Burst, pxs.peripheral);
        CompiledSeq(dryRun, old(buf[..]), at, Ins(Ldp(false, pxs.peripheral % 32)), Ins(Ldp(true, pxs.peripheral % 32)));
        off := off + size;
      } else {
        off := EmitLDP(dryRun, buf, at, cond, pxs.peripheral);
      }
    }
  }

  method EmitStore(dryRun: bool, buf: array<byte>, at: nat, cond: Cond, pxs: Xfer) returns (off: nat)
    requires dryRun || at + |Bytes(StoreCode(cond, pxs))| <= buf.Length
    modifies buf
    ensures off == |Bytes(StoreCode(cond, pxs))|
    ensures buf[..] == Compiled(dryRun, old(buf[..]), at, StoreCode(cond, pxs))
  {
    if !pxs.involvesDevice || (pxs.involvesDevice && !pxs.toDevice) {
      off := EmitST(dryRun, buf, at, cond);
    } else {
      if cond == Always {
        off := EmitSTP(dryRun, buf, at, Single, pxs.peripheral);
        var size := EmitSTP(dryRun, buf, at + off, Burst, pxs.peripheral);
        CompiledSeq(dryRun, old(buf[..]), at, Ins(Stp(false, pxs.peripheral % 32)), Ins(Stp(true, pxs.peripheral % 32)));
        off := off + size;
      } else {
        off := EmitSTP(dryRun, buf, at, cond, pxs.peripheral);
      }
    }
  }

  method LdstPeripheral(dryRun: bool, buf: array<byte>, at: nat, pxs: Xfer, cyc: nat, cond: Cond) returns (off: nat)
    requires dryRun || at + |Bytes(Seq(Ins(Flushp(pxs.peripheral % 32)), Times(cyc, PeripheralBurst(cond, pxs))))| <= buf.Length
    modifies buf
    ensures off == |Bytes(Seq(Ins(Flushp(pxs.peripheral % 32)), Times(cyc, PeripheralBurst(cond, pxs))))|
    ensures buf[..] == Compiled(dryRun, old(buf[..]), at,
                         Seq(Ins(Flushp(pxs.peripheral % 32)), Times(cyc, PeripheralBurst(cond, pxs))))
  {
    hide Written, Encode;
    ghost var flush := Ins(Flushp(pxs.peripheral % 32));
    ghost var burst := PeripheralBurst(cond, pxs);
    off := EmitFLUSHP(dryRun, buf, at, pxs.peripheral);
    ghost var start := buf[..];
    WrittenNothing(dryRun, start, at + 2);
    var left := cyc;
    while left > 0
      invariant 0 <= left <= cyc
      invariant off == 2 + |Bytes(Times(cyc - left, burst))|
      invariant dryRun || at + off <= buf.Length
      invariant buf[..] == Compiled(dryRun, start, at + 2, Times(cyc - left, burst))
    {
      ghost var done := cyc - left;
      TimesGrows(done, cyc, burst);
      left := left - 1;
      var size := EmitPeripheralBurst(dryRun, buf, at + off, pxs, cond);
      off := off + size;
      CompiledSeq(dryRun, start, at + 2, Times(done, burst), burst);
    }
    CompiledSeq(dryRun, old(buf[..]), at, flush, Times(cyc, burst));
  }

  // The body of the loop in _ldst_peripheral.
  method EmitPeripheralBurst(dryRun: bool, buf: array<byte>, at: nat, pxs: Xfer, cond: Cond) returns (off: nat)
    requires dryRun || at + |Bytes(PeripheralBurst(cond, pxs))| <= buf.Length
    modifies buf
    ensures off == |Bytes(PeripheralBurst(cond, pxs))|
    ensures buf[..] == Compiled(dryRun, old(buf[..]), at, PeripheralBurst(cond, pxs))
  {
    hide Written, Encode;
    ghost var wait := Ins(Wfp(cond, pxs.peripheral % 32));
    off := EmitWFP(dryRun, buf, at, cond, pxs.peripheral);
    var size := EmitLoad(dryRun, buf, at + off, cond, pxs);
    CompiledSeq(dryRun, old(buf[..]), at, wait, LoadCode(cond, pxs));
    off := off + size;
    size := EmitStore(dryRun, buf, at + off, cond, pxs);
    CompiledSeq(dryRun, old(buf[..]), at, Seq(wait, LoadCode(cond, pxs)), StoreCode(cond, pxs));
    off := off + size;
  }

  method Bursts(dryRun: bool, buf: array<byte>, at: nat, pxs: Xfer, cyc: nat) returns (off: nat)
    requires dryRun || at + |Bytes(BurstsCode(pxs, cyc))| <= buf.Length
    modifies buf
    ensures off == |Bytes(BurstsCode(pxs, cyc))|
    ensures buf[..] == Compiled(dryRun, old(buf[..]), at, BurstsCode(pxs, cyc))
  {
    if pxs.involvesDevice {
      off := LdstPeripheral(dryRun, buf, at, pxs, cyc, Burst);
    } else {
      off := LdstMemToMem(dryRun, buf, at, cyc);
    }
  }

  method Dregs(dryRun: bool, buf: array<byte>, at: nat, pxs: Xfer, transferLength: nat) returns (off: nat)
    requires dryRun || at + |Bytes(DregsCode(pxs, transferLength))| <= buf.Length
    modifies buf
    ensures off == |Bytes(DregsCode(pxs, transferLength))|
    ensures buf[..] == Compiled(dryRun, old(buf[..]), at, DregsCode(pxs, transferLength))
  {
    hide Written, Encode, Bytes, Compiled, PeripheralBurst;
    off := 0;
    if transferLength == 0 {
      CompiledSkip(dryRun, buf[..], at);
      return;
    }
    var dregsCcr: word;
    var size: nat;
    ghost var mov := Ins(Mov(CCR, DregsCcr(pxs.ccr, transferLength)));
    InsSize(mov.i);
    SeqSize(mov, BurstsCode(pxs, 1));
    CompiledIns(dryRun, buf[..], at, mov.i);
    if pxs.involvesDevice {
      dregsCcr := ClearLengths(pxs.ccr);
      dregsCcr := dregsCcr + (transferLength - 1) % 16 * 0x10;
      dregsCcr := dregsCcr + (transferLength - 1) % 16 * 0x4_0000;
      off := EmitMOV(dryRun, buf, at, CCR, dregsCcr);
      size := LdstPeripheral(dryRun, buf, at + off, pxs, 1, Burst);
    } else {
      dregsCcr := ClearLengths(pxs.ccr);
      dregsCcr := dregsCcr + (transferLength - 1) % 16 * 0x10;
      dregsCcr := dregsCcr + (transferLength - 1) % 16 * 0x4_0000;
      off := EmitMOV(dryRun, buf, at, CCR, dregsCcr);
      size := LdstMemToMem(dryRun, buf, at + off, 1);
    }
    CompiledSeq(dryRun, old(buf[..]), at, mov, BurstsCode(pxs, 1));
    off := off + size;
  }

  // The LP ... LPEND pattern of _period: one loop over `cyc` unrolled bursts.
  method BurstLoop(dryRun: bool, buf: array<byte>, at: nat, pxs: Xfer, lcnt1: nat, cyc: nat) returns (off: nat)
    requires dryRun || at + |Bytes(Loop(1, lcnt1, BurstsCode(pxs, cyc)))| <= buf.Length
    modifies buf
    ensures off == |Bytes(Loop(1, lcnt1, BurstsCode(pxs, cyc)))|
    ensures buf[..] == Compiled(dryRun, old(buf[..]), at, Loop(1, lcnt1, BurstsCode(pxs, cyc)))
  {
    hide Written, Encode, BurstsCode;
    ghost var lp := Encode(Lp(1, LpOperand(lcnt1)));
    ghost var body := Bytes(BurstsCode(pxs, cyc));
    off := EmitLP(dryRun, buf, at, 1, lcnt1 % 256);
    var ljmp1 := off;
    var size := Bursts(dryRun, buf, at + off, pxs, cyc);
    WrittenJoin(dryRun, old(buf[..]), at, lp, body);
    off := off + size;
    var lpend := LpEndArg(Always, false, 1, (off - ljmp1) % 256);
    size := EmitLPEND(dryRun, buf, at + off, lpend);
    WrittenJoin(dryRun, old(buf[..]), at, lp + body, Encode(LpEnd(false, 1, Always, BackJump(|body|))));
    off := off + size;
  }

  // The loops at the start of _period.
  method PeriodBursts(dryRun: bool, buf: array<byte>, at: nat, pxs: Xfer, bursts: nat) returns (off: nat)
    requires dryRun || at + |Bytes(BurstsPart(pxs, bursts))| <= buf.Length
    modifies buf
    ensures off == |Bytes(BurstsPart(pxs, bursts))|
    ensures buf[..] == Compiled(dryRun, old(buf[..]), at, BurstsPart(pxs, bursts))
  {
    hide Bytes, Compiled, BurstsCode;
    var lcnt1: nat, cyc: nat;
    if bursts > 256 {
      lcnt1 := 256;
      cyc := bursts / 256;
    } else {
      lcnt1 := bursts;
      cyc := 1;
    }
    assert lcnt1 == LoopCount(bursts) && cyc == Unroll(bursts);
    ghost var main := Loop(1, lcnt1, BurstsCode(pxs, cyc));
    ghost var rest := Loop(1, LoopRest(bursts), BurstsCode(pxs, 1));
    SeqSize(main, rest);
    off := BurstLoop(dryRun, buf, at, pxs, lcnt1, cyc);

    // remainder
    lcnt1 := bursts - lcnt1 * cyc;
    if lcnt1 != 0 {
      var size := BurstLoop(dryRun, buf, at + off, pxs, lcnt1, 1);
      CompiledSeq(dryRun, old(buf[..]), at, main, rest);
      off := off + size;
    }
  }

  method Period(dryRun: bool, buf: array<byte>, at: nat, pxs: Xfer, bursts: nat, ev: byte) returns (off: nat)
    requires dryRun || at + |Bytes(PeriodCode(pxs, bursts, ev))| <= buf.Length
    modifies buf
    ensures off == |Bytes(PeriodCode(pxs, bursts, ev))|
    ensures buf[..] == Compiled(dryRun, old(buf[..]), at, PeriodCode(pxs, bursts, ev))
  {
    hide Bytes, Compiled, BurstsPart, DregsCode, ByteModBurstLen;
    var size: nat;
    var numDregs := ByteModBurstLen(pxs.periodBytes, pxs.ccr);
    ghost var sev := Ins(Sev(ev % 32));
    ghost var mov := Ins(Mov(CCR, pxs.ccr));
    ghost var moved := BurstsPart(pxs, bursts);
    ghost var dregs := DregsCode(pxs, numDregs);
    SeqSize(moved, dregs);
    SeqSize(Seq(moved, dregs), mov);
    SeqSize(Seq(Seq(moved, dregs), mov), sev);
    SeqSize(moved, sev);
    InsSize(mov.i);
    InsSize(sev.i);

    off := PeriodBursts(dryRun, buf, at, pxs, bursts);
    if numDregs != 0 {
      size := Dregs(dryRun, buf, at + off, pxs, numDregs);
      CompiledSeq(dryRun, old(buf[..]), at, moved, dregs);
      off := off + size;
      CompiledIns(dryRun, buf[..], at + off, mov.i);
      size := EmitMOV(dryRun, buf, at + off, CCR, pxs.ccr);
      CompiledSeq(dryRun, old(buf[..]), at, Seq(moved, dregs), mov);
      moved := Seq(Seq(moved, dregs), mov);
      off := off + size;
    }
    CompiledIns(dryRun, buf[..], at + off, sev.i);
    size := EmitSEV(dryRun, buf, at + off, ev);
    CompiledSeq(dryRun, old(buf[..]), at, moved, sev);
    off := off + size;
  }

  lemma CompiledIns(dryRun: bool, s: seq<byte>, at: nat, i: Instr)
    requires dryRun || at + Size(i) <= |s|
    ensures |Bytes(Ins(i))| == Size(i)
    ensures Compiled(dryRun, s, at, Ins(i)) == Written(dryRun, s, at, Encode(i))
  {}

  // The for loops of _loop_cyclic.
  method PeriodTimes(dryRun: bool, buf: array<byte>, at: nat, pxs: Xfer, bursts: nat, ev: byte, n: nat) returns (off: nat)
    requires dryRun || at + |Bytes(Times(n, PeriodCode(pxs, bursts, ev)))| <= buf.Length
    modifies buf
    ensures off == |Bytes(Times(n, PeriodCode(pxs, bursts, ev)))|
    ensures buf[..] == Compiled(dryRun, old(buf[..]), at, Times(n, PeriodCode(pxs, bursts, ev)))
  {
    hide Written, Encode, PeriodCode;
    ghost var p := PeriodCode(pxs, bursts, ev);
    off := 0;
    WrittenNothing(dryRun, buf[..], at);
    for i := 0 to n
      invariant off == |Bytes(Times(i, p))|
      invariant dryRun || at + off <= buf.Length
      invariant buf[..] == Compiled(dryRun, old(buf[..]), at, Times(i, p))
    {
      TimesGrows(i, n, p);
      var size := Period(dryRun, buf, at + off, pxs, bursts, ev);
      CompiledSeq(dryRun, old(buf[..]), at, Times(i, p), p);
      off := off + size;
    }
  }

  // loop0 of _loop_cyclic: LP, the periods, LPEND.
  method PeriodLoop(dryRun: bool, buf: array<byte>, at: nat, pxs: Xfer, bursts: nat, ev: byte, lcnt0: nat, periods: nat)
    returns (off: nat)
    requires dryRun || at + |Bytes(Loop(0, lcnt0, Times(periods, PeriodCode(pxs, bursts, ev))))| <= buf.Length
    modifies buf
    ensures off == |Bytes(Loop(0, lcnt0, Times(periods, PeriodCode(pxs, bursts, ev))))|
    ensures buf[..] == Compiled(dryRun, old(buf[..]), at, Loop(0, lcnt0, Times(periods, PeriodCode(pxs, bursts, ev))))
  {
    hide Written, Encode, PeriodCode, Times;
    ghost var lp := Encode(Lp(0, LpOperand(lcnt0)));
    ghost var body := Bytes(Times(periods, PeriodCode(pxs, bursts, ev)));
    off := EmitLP(dryRun, buf, at, 0, lcnt0 % 256);
    var ljmp0 := off;
    var size := PeriodTimes(dryRun, buf, at + off, pxs, bursts, ev, periods);
    WrittenJoin(dryRun, old(buf[..]), at, lp, body);
    off := off + size;
    size := EmitLPEND(dryRun, buf, at + off, LpEndArg(Always, false, 0, (off - ljmp0) % 256));
    WrittenJoin(dryRun, old(buf[..]), at, lp + body, Encode(LpEnd(false, 0, Always, BackJump(|body|))));
    off := off + size;
  }

  // The search at the start of _loop_cyclic.
  method SplitLoop(numPeriods: word) returns (lcnt0: nat, periods: nat)
    ensures periods == SplitPeriods(numPeriods, 1)
    ensures lcnt0 == numPeriods / periods
  {
    lcnt0 := numPeriods;
    periods := 1;
    while lcnt0 > 256
      invariant periods >= 1 && lcnt0 == numPeriods / periods
      invariant SplitPeriods(numPeriods, periods) == SplitPeriods(numPeriods, 1)
      decreases if periods > numPeriods then 0 else numPeriods - periods + 1
    {
      periods := periods + 1;
      lcnt0 := numPeriods / periods;
    }
  }

  method LoopCyclic(dryRun: bool, buf: array<byte>, at: nat, bursts: nat, pxs: Xfer, ev: byte) returns (off: nat)
    requires dryRun || at + |CyclicBytes(pxs, bursts, ev)| <= buf.Length
    modifies buf
    ensures off == |CyclicBytes(pxs, bursts, ev)|
    ensures buf[..] == Written(dryRun, old(buf[..]), at, CyclicBytes(pxs, bursts, ev))
  {
    hide Bytes, Compiled, Encode, Written, PeriodCode, SplitPeriods, Times;
    off := 0;
    var ljmpfe := off;
    var lcnt0, periods := SplitLoop(pxs.numPeriods);
    var residue := pxs.numPeriods % periods;

    ghost var p := PeriodCode(pxs, bursts, ev);
    ghost var movSar := Ins(Mov(SAR, pxs.srcAddr));
    ghost var movDar := Ins(Mov(DAR, pxs.dstAddr));
    ghost var loop0 := Loop(0, lcnt0, Times(periods, p));
    ghost var all := CyclicCode(pxs, bursts, ev);
    InsSize(movSar.i);
    InsSize(movDar.i);
    SeqSize(movSar, movDar);
    SeqSize(Seq(movSar, movDar), loop0);
    SeqSize(Seq(Seq(movSar, movDar), loop0), Times(residue, p));
    assert all == Seq(Seq(Seq(movSar, movDar), loop0), Times(residue, p));

    // forever loop
    CompiledIns(dryRun, buf[..], at, movSar.i);
    off := EmitMOV(dryRun, buf, at, SAR, pxs.srcAddr);
    CompiledIns(dryRun, buf[..], at + off, movDar.i);
    var size := EmitMOV(dryRun, buf, at + off, DAR, pxs.dstAddr);
    CompiledSeq(dryRun, old(buf[..]), at, movSar, movDar);
    off := off + size;

    // loop0
    size := PeriodLoop(dryRun, buf, at + off, pxs, bursts, ev, lcnt0, periods);
    CompiledSeq(dryRun, old(buf[..]), at, Seq(movSar, movDar), loop0);
    off := off + size;

    size := PeriodTimes(dryRun, buf, at + off, pxs, bursts, ev, residue);
    CompiledSeq(dryRun, old(buf[..]), at, Seq(Seq(movSar, movDar), loop0), Times(residue, p));
    off := off + size;

    size := EmitLPEND(dryRun, buf, at + off, LpEndArg(Always, true, 1, (off - ljmpfe) % 256));
    CompiledThen(dryRun, old(buf[..]), at, all, Encode(LpEnd(true, 1, Always, BackJump(off))));
    off := off + size;
  }

  lemma CompiledThen(dryRun: bool, s: seq<byte>, at: nat, c: Code, more: seq<byte>)
    requires dryRun || at + |Bytes(c)| + |more| <= |s|
    ensures Written(dryRun, Compiled(dryRun, s, at, c), at + |Bytes(c)|, more) == Written(dryRun, s, at, Bytes(c) + more)
  {
    WrittenJoin(dryRun, s, at, Bytes(c), more);
  }
}
