/** The part of the PL330 channel-thread instruction set that the driver's
    compiler uses: instruction sizes and opcodes (pl330.h), their byte encoding,
    a decoder, and a small-step interpreter.  The meaning of the instructions
    is the one of the ARM PrimeCell DMA Controller (PL330) Technical Reference
    Manual, ARM DDI 0424, chapter "Instruction Set".

    The interpreter keeps what a reader of memory and of the bus can see: every
    beat read (its address), every beat written (its address and which read
    beat its data came from, through the FIFO), and every event signalled
    (with the number of beats read and written at that moment). */
module Pl330Isa {
  import opened Arith
  import opened Words

  type peri5 = x: int | 0 <= x < 32
  type loopReg = x: int | 0 <= x < 2

  // enum pl330_cond and enum dmamov_dst.
  datatype Cond = Single | Burst | Always
  datatype Reg = SAR | CCR | DAR

  datatype Instr =
    | Flushp(peri: peri5)
    | Ld(cond: Cond)
    | Ldp(burst: bool, peri: peri5)
    | St(cond: Cond)
    | Stp(burst: bool, peri: peri5)
    | Wfp(cond: Cond, peri: peri5)        // Always stands for the "peripheral" form
    | Lp(loop: loopReg, count: byte)      // the operand byte: iterations - 1
    | LpEnd(forever: bool, loop: loopReg, cond: Cond, jump: byte)
    | Mov(reg: Reg, val: word)
    | Sev(ev: peri5)

  // ---------------------------------------------------------------- encoding

  const CMD_DMAFLUSHP: byte := 0x35
  const CMD_DMALD: byte := 0x04
  const CMD_DMALDP: byte := 0x25
  const CMD_DMALP: byte := 0x20
  const CMD_DMALPEND: byte := 0x28
  const CMD_DMAMOV: byte := 0xbc
  const CMD_DMASEV: byte := 0x34
  const CMD_DMAST: byte := 0x08
  const CMD_DMASTP: byte := 0x29
  const CMD_DMAWFP: byte := 0x30

  const SZ_DMAFLUSHP := 2
  const SZ_DMALD := 1
  const SZ_DMALDP := 2
  const SZ_DMALP := 2
  const SZ_DMALPEND := 2
  const SZ_DMAMOV := 6
  const SZ_DMASEV := 2
  const SZ_DMAST := 1
  const SZ_DMASTP := 2
  const SZ_DMAWFP := 2

  function Size(i: Instr): nat {
    match i
    case Ld(_) => SZ_DMALD
    case St(_) => SZ_DMAST
    case Mov(_, _) => SZ_DMAMOV
    case _ => 2
  }

  // The bs and x bits (bits 1 and 0) of DMALD, DMAST and DMALPEND.
  function CondBits(c: Cond): (b: int)
    ensures 0 <= b <= 3
  {
    match c
    case Single => 1
    case Burst => 3
    case Always => 0
  }

  // The bs and p bits of DMAWFP.
  function WaitBits(c: Cond): (b: int)
    ensures 0 <= b <= 2
  {
    match c
    case Single => 0
    case Burst => 2
    case Always => 1
  }

  function RegCode(r: Reg): byte {
    match r
    case SAR => 0
    case CCR => 1
    case DAR => 2
  }

  function Bit(b: bool, weight: nat): nat {
    if b then weight else 0
  }

  /** The bytes the DMAC fetches for an instruction. */
  function Encode(i: Instr): (s: seq<byte>)
    ensures |s| == Size(i)
  {
    match i
    case Flushp(p) => [CMD_DMAFLUSHP, p * 8]
    case Ld(c) => [CMD_DMALD + CondBits(c)]
    case Ldp(b, p) => [CMD_DMALDP + Bit(b, 2), p * 8]
    case St(c) => [CMD_DMAST + CondBits(c)]
    case Stp(b, p) => [CMD_DMASTP + Bit(b, 2), p * 8]
    case Wfp(c, p) => [CMD_DMAWFP + WaitBits(c), p * 8]
    case Lp(l, n) => [CMD_DMALP + 2 * l, n]
    case LpEnd(f, l, c, j) => [CMD_DMALPEND + 4 * l + Bit(!f, 16) + CondBits(c), j]
    case Mov(r, v) =>
      [CMD_DMAMOV, RegCode(r), v % 256, v / 0x100 % 256, v / 0x1_0000 % 256, v / 0x100_0000]
    case Sev(e) => [CMD_DMASEV, e * 8]
  }

  // ---------------------------------------------------------------- decoding

  function CondOf(bits: int): Option<Cond> {
    match bits
    case 0 => Some(Always)
    case 1 => Some(Single)
    case 3 => Some(Burst)
    case _ => None
  }

  function Operand5(b: byte): Option<peri5> {
    if b % 8 == 0 then Some(b / 8) else None
  }

  // The two-byte instructions whose operand is a peripheral or event number.
  function DecodeNumbered(op: byte, n: peri5): Option<Instr> {
    match op
    case 0x35 => Some(Flushp(n))
    case 0x25 => Some(Ldp(false, n))
    case 0x27 => Some(Ldp(true, n))
    case 0x29 => Some(Stp(false, n))
    case 0x2b => Some(Stp(true, n))
    case 0x30 => Some(Wfp(Single, n))
    case 0x31 => Some(Wfp(Always, n))
    case 0x32 => Some(Wfp(Burst, n))
    case 0x34 => Some(Sev(n))
    case _ => None
  }

  // DMALPEND: 0 0 1 nf 1 lc bs x.
  function DecodeLoopEnd(op: byte, jump: byte): Option<Instr> {
    var c := CondOf(op % 4);
    if c.None? then None
    else if op / 8 == 5 then Some(LpEnd(true, op / 4 % 2, c.value, jump))
    else if op / 8 == 7 then Some(LpEnd(false, op / 4 % 2, c.value, jump))
    else None
  }

  /** The instruction whose first byte is at pc, or None when the bytes are not
      one of the instructions above. */
  function Decode(mem: seq<byte>, pc: nat): Option<Instr> {
    if pc >= |mem| then None else
    var op := mem[pc];
    if op / 4 == 1 then
      var c := CondOf(op % 4);
      if c.None? then None else Some(Ld(c.value))
    else if op / 4 == 2 then
      var c := CondOf(op % 4);
      if c.None? then None else Some(St(c.value))
    else if pc + 1 >= |mem| then None
    else if op in {0x35, 0x25, 0x27, 0x29, 0x2b, 0x30, 0x31, 0x32, 0x34} then
      var n := Operand5(mem[pc + 1]);
      if n.None? then None else DecodeNumbered(op, n.value)
    else if op == 0x20 || op == 0x22 then Some(Lp((op - 0x20) / 2, mem[pc + 1]))
    else if op == 0xbc then
      if pc + 6 > |mem| then None else
      var b: seq<int> := mem[pc + 2..pc + 6];
      var v: word := b[0] + 0x100 * b[1] + 0x1_0000 * b[2] + 0x100_0000 * b[3];
      match mem[pc + 1]
      case 0 => Some(Mov(SAR, v))
      case 1 => Some(Mov(CCR, v))
      case 2 => Some(Mov(DAR, v))
      case _ => None
    else DecodeLoopEnd(op, mem[pc + 1])
  }

  // A forever DMALPEND on loop register 0 that is conditional has the opcode
  // of DMASTP.
  predicate Ambiguous(i: Instr) {
    i.LpEnd? && i.forever && i.loop == 0 && i.cond != Always
  }

  predicate CodeAt(mem: seq<byte>, pc: nat, code: seq<byte>) {
    pc + |code| <= |mem| && mem[pc..pc + |code|] == code
  }

  lemma CodeAtIndex(mem: seq<byte>, pc: nat, code: seq<byte>, k: nat)
    requires CodeAt(mem, pc, code) && k < |code|
    ensures mem[pc + k] == code[k]
  {
    assert mem[pc + k] == mem[pc..pc + |code|][k];
  }

  lemma CodeAtSplit(mem: seq<byte>, pc: nat, a: seq<byte>, b: seq<byte>)
    requires CodeAt(mem, pc, a + b)
    ensures CodeAt(mem, pc, a) && CodeAt(mem, pc + |a|, b)
  {
    assert mem[pc..pc + |a|] == mem[pc..pc + |a + b|][..|a|];
    assert mem[pc + |a|..pc + |a| + |b|] == mem[pc..pc + |a + b|][|a|..];
    assert (a + b)[..|a|] == a && (a + b)[|a|..] == b;
  }

  /** The opcode map is unambiguous exactly off the DMALPFE/DMASTP collision:
      an instruction placed anywhere in memory decodes to itself if and only if
      it is not one of the colliding forms. */
  lemma DecodeEncode(mem: seq<byte>, pc: nat, i: Instr)
    requires CodeAt(mem, pc, Encode(i))
    ensures Decode(mem, pc) == Some(i) <==> !Ambiguous(i)
  {
    CodeAtIndex(mem, pc, Encode(i), 0);
    if Size(i) >= 2 { CodeAtIndex(mem, pc, Encode(i), 1); }
    match i {
      case Mov(r, v) =>
        CodeAtIndex(mem, pc, Encode(i), 2);
        CodeAtIndex(mem, pc, Encode(i), 3);
        CodeAtIndex(mem, pc, Encode(i), 4);
        CodeAtIndex(mem, pc, Encode(i), 5);
        BytesOfWord(v);
      case LpEnd(f, l, c, j) => DecodeLpEnd(mem, pc, i);
      case _ =>
    }
  }

  /** The encodings, as ARM DDI 0424 lists them. */
  lemma ManualEncodings(p: peri5, j: byte, v: word)
    ensures Encode(Flushp(p)) == [0x35, 8 * p] && Encode(Sev(p)) == [0x34, 8 * p]
    ensures Encode(Ld(Always)) == [0x04] && Encode(Ld(Single)) == [0x05] && Encode(Ld(Burst)) == [0x07]
    ensures Encode(Ldp(false, p)) == [0x25, 8 * p] && Encode(Ldp(true, p)) == [0x27, 8 * p]
    ensures Encode(St(Always)) == [0x08] && Encode(St(Single)) == [0x09] && Encode(St(Burst)) == [0x0b]
    ensures Encode(Stp(false, p)) == [0x29, 8 * p] && Encode(Stp(true, p)) == [0x2b, 8 * p]
    ensures Encode(Wfp(Single, p)) == [0x30, 8 * p] && Encode(Wfp(Burst, p)) == [0x32, 8 * p]
    ensures Encode(Wfp(Always, p)) == [0x31, 8 * p]
    ensures Encode(Lp(0, j)) == [0x20, j] && Encode(Lp(1, j)) == [0x22, j]
    ensures Encode(LpEnd(false, 0, Always, j)) == [0x38, j] && Encode(LpEnd(false, 1, Always, j)) == [0x3c, j]
    ensures Encode(LpEnd(true, 1, Always, j)) == [0x2c, j]
    ensures Encode(Mov(SAR, v))[..2] == [0xbc, 0] && Encode(Mov(CCR, v))[..2] == [0xbc, 1]
    ensures Encode(Mov(DAR, v))[..2] == [0xbc, 2]
  {}

  // The value of a DMAMOV, its least byte first.
  lemma ManualValue(r: Reg, v: word)
    ensures var m := Encode(Mov(r, v));
      (m[2] as int) + 0x100 * (m[3] as int) + 0x1_0000 * (m[4] as int) + 0x100_0000 * (m[5] as int) == v
  {
    BytesOfWord(v);
  }

  // One of them: the conditional end of a forever loop is a store.
  lemma ForeverEndIsStore()
    ensures Encode(LpEnd(true, 0, Burst, 24)) == Encode(Stp(true, 3)) && Ambiguous(LpEnd(true, 0, Burst, 24))
  {
    assert Encode(Stp(true, 3)) == [0x2b, 24];
  }

  lemma BytesOfWord(v: word)
    ensures v % 256 + 0x100 * (v / 0x100 % 256) + 0x1_0000 * (v / 0x1_0000 % 256) + 0x100_0000 * (v / 0x100_0000) == v
    ensures v / 0x100_0000 < 256
  {
    assert v / 0x100 == 0x100 * (v / 0x1_0000) + v / 0x100 % 256;
    assert v / 0x1_0000 == 0x100 * (v / 0x100_0000) + v / 0x1_0000 % 256;
  }

  lemma DecodeLpEnd(mem: seq<byte>, pc: nat, i: Instr)
    requires i.LpEnd? && pc + 1 < |mem| && mem[pc] == Encode(i)[0] && mem[pc + 1] == i.jump
    ensures Decode(mem, pc) == Some(i) <==> !Ambiguous(i)
  {
    var op := mem[pc];
    assert op % 4 == CondBits(i.cond);
    assert CondOf(op % 4) == Some(i.cond);
    assert op / 4 % 2 == i.loop;
    assert op / 8 == if i.forever then 5 else 7;
  }

  // ------------------------------------------------------------- control word

  // Fields of the channel control register (pl330.h, CC_* and BRST_*).
  function SrcInc(ccr: word): bool { ccr % 2 == 1 }
  function DstInc(ccr: word): bool { ccr / 0x4000 % 2 == 1 }
  function SrcLen(ccr: word): (n: nat) ensures 1 <= n <= 16 { ccr / 0x10 % 16 + 1 }
  function DstLen(ccr: word): (n: nat) ensures 1 <= n <= 16 { ccr / 0x4_0000 % 16 + 1 }
  function SrcSize(ccr: word): (n: nat) ensures n >= 1 { Pow2(ccr / 2 % 8) }
  function DstSize(ccr: word): (n: nat) ensures n >= 1 { Pow2(ccr / 0x8000 % 8) }

  // --------------------------------------------------------------- execution

  datatype Request = ReqSingle | ReqBurst

  // One beat written: where to, and which read beat (by position) it carries.
  datatype Stored = Stored(addr: word, from: nat)

  // An event, with how many beats had been read and written when it was sent.
  datatype Signal = Signal(ev: peri5, loaded: nat, stored: nat)

  datatype Dma = Dma(
    sar: word, dar: word, ccr: word,
    req: Request,
    fifo: seq<nat>,
    loaded: seq<word>,
    stored: seq<Stored>,
    signals: seq<Signal>)

  datatype Machine = Machine(pc: nat, lc0: byte, lc1: byte, dma: Dma)

  function Advance(a: word, inc: bool, size: nat, beats: nat): word {
    if inc then (a + beats * size) % WORD else a
  }

  // The addresses of consecutive beats.
  function AddrRun(a: word, inc: bool, size: nat, beats: nat): (s: seq<word>)
    ensures |s| == beats
  {
    seq(beats, i requires 0 <= i < beats => Advance(a, inc, size, i))
  }

  function Positions(start: nat, n: nat): (s: seq<nat>)
    ensures |s| == n
  {
    seq(n, i requires 0 <= i < n => start + i)
  }

  function Zip(addrs: seq<word>, from: seq<nat>): (s: seq<Stored>)
    requires |addrs| == |from|
    ensures |s| == |addrs|
  {
    seq(|addrs|, i requires 0 <= i < |addrs| => Stored(addrs[i], from[i]))
  }

  predicate Fires(c: Cond, r: Request) {
    match c
    case Always => true
    case Single => r.ReqSingle?
    case Burst => r.ReqBurst?
  }

  // A burst read.  Bursts from an address that is not a multiple of the beat
  // size are not modelled: the interpreter stops.
  function Load(d: Dma): Option<Dma> {
    var size := SrcSize(d.ccr);
    var n := SrcLen(d.ccr);
    if d.sar % size != 0 then None else
    Some(d.(sar := Advance(d.sar, SrcInc(d.ccr), size, n),
            fifo := d.fifo + Positions(|d.loaded|, n),
            loaded := d.loaded + AddrRun(d.sar, SrcInc(d.ccr), size, n)))
  }

  // A burst write.  It needs its data in the FIFO (the hardware would stall),
  // and beats of the size that was read.
  function Store(d: Dma): Option<Dma> {
    var size := DstSize(d.ccr);
    var n := DstLen(d.ccr);
    if d.dar % size != 0 || size != SrcSize(d.ccr) || |d.fifo| < n then None else
    Some(d.(dar := Advance(d.dar, DstInc(d.ccr), size, n),
            fifo := d.fifo[n..],
            stored := d.stored + Zip(AddrRun(d.dar, DstInc(d.ccr), size, n), d.fifo[..n])))
  }

  function SetReg(d: Dma, r: Reg, v: word): Dma {
    match r
    case SAR => d.(sar := v)
    case DAR => d.(dar := v)
    case CCR => d.(ccr := v)
  }

  predicate IsLoopInstr(i: Instr) { i.Lp? || i.LpEnd? }

  /** The effect of an instruction that falls through to the next one.
      A wait is assumed to end; the form that lets the peripheral choose the
      request type is not modelled. */
  function Exec(i: Instr, d: Dma): Option<Dma>
    requires !IsLoopInstr(i)
  {
    match i
    case Flushp(_) => Some(d)
    case Ld(c) => if Fires(c, d.req) then Load(d) else Some(d)
    case Ldp(b, _) => if Fires(if b then Burst else Single, d.req) then Load(d) else Some(d)
    case St(c) => if Fires(c, d.req) then Store(d) else Some(d)
    case Stp(b, _) => if Fires(if b then Burst else Single, d.req) then Store(d) else Some(d)
    case Wfp(c, _) =>
      (match c
       case Single => Some(d.(req := ReqSingle))
       case Burst => Some(d.(req := ReqBurst))
       case Always => None)
    case Mov(r, v) => Some(SetReg(d, r, v))
    case Sev(e) => Some(d.(signals := d.signals + [Signal(e, |d.loaded|, |d.stored|)]))
  }

  function LoopCounter(s: Machine, l: loopReg): byte {
    if l == 0 then s.lc0 else s.lc1
  }

  function SetLoopCounter(s: Machine, l: loopReg, v: byte): Machine {
    if l == 0 then s.(lc0 := v) else s.(lc1 := v)
  }

  /** One instruction: None when the bytes do not decode, when the instruction
      cannot proceed, or when a jump leaves the program. */
  function Step(mem: seq<byte>, s: Machine): Option<Machine> {
    var i := Decode(mem, s.pc);
    if i.None? then None else
    match i.value
    case Lp(l, n) => Some(SetLoopCounter(s, l, n).(pc := s.pc + 2))
    case LpEnd(forever, l, c, j) =>
      if !Fires(c, s.dma.req) then Some(s.(pc := s.pc + 2))
      else if !forever && LoopCounter(s, l) == 0 then Some(s.(pc := s.pc + 2))
      else if j > s.pc then None
      else if forever then Some(s.(pc := s.pc - j))
      else Some(SetLoopCounter(s, l, LoopCounter(s, l) - 1).(pc := s.pc - j))
    case _ =>
      var d := Exec(i.value, s.dma);
      if d.None? then None else Some(s.(pc := s.pc + Size(i.value), dma := d.value))
  }

  function Run(mem: seq<byte>, s: Machine, steps: nat): Option<Machine>
    decreases steps
  {
    if steps == 0 then Some(s) else
    var t := Step(mem, s);
    if t.None? then None else Run(mem, t.value, steps - 1)
  }

  lemma {:induction false} RunJoin(mem: seq<byte>, s: Machine, n: nat, m: nat)
    requires Run(mem, s, n).Some?
    ensures Run(mem, s, n + m) == Run(mem, Run(mem, s, n).value, m)
    decreases n
  {
    hide Decode;
    if n > 0 {
      RunJoin(mem, Step(mem, s).value, n - 1, m);
    }
  }
}
