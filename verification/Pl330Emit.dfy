/** The instruction emitters of opcodes.h that the compiler uses.  Each one
    returns the size of its instruction and, unless it is a dry run, stores the
    instruction's bytes at its place in the microcode buffer and touches
    nothing else.

    Every |= of the original sets bits that are clear, so it is written as an
    addition; peri &= 0x1f; peri <<= 3 is peri % 32 * 8. */
module Pl330Emit {
  import opened Words
  import opened Pl330Isa

  // What the buffer holds after code has been stored at off.
  function Written(dryRun: bool, s: seq<byte>, off: nat, code: seq<byte>): (t: seq<byte>)
    requires dryRun || off + |code| <= |s|
    ensures |t| == |s|
  {
    if dryRun then s else s[..off] + code + s[off + |code|..]
  }

  lemma WrittenJoin(dryRun: bool, s: seq<byte>, off: nat, a: seq<byte>, b: seq<byte>)
    requires dryRun || off + |a| + |b| <= |s|
    ensures Written(dryRun, Written(dryRun, s, off, a), off + |a|, b) == Written(dryRun, s, off, a + b)
  {}

  lemma WrittenNothing(dryRun: bool, s: seq<byte>, off: nat)
    requires dryRun || off <= |s|
    ensures Written(dryRun, s, off, []) == s
  {}

  /** What was stored is there to be fetched. */
  lemma WrittenIsCode(s: seq<byte>, off: nat, code: seq<byte>)
    requires off + |code| <= |s|
    ensures CodeAt(Written(false, s, off, code), off, code)
  {}

  method EmitFLUSHP(dryRun: bool, buf: array<byte>, at: nat, peri: byte) returns (size: nat)
    requires dryRun || at + SZ_DMAFLUSHP <= buf.Length
    modifies buf
    ensures size == SZ_DMAFLUSHP
    ensures buf[..] == Written(dryRun, old(buf[..]), at, Encode(Flushp(peri % 32)))
  {
    if dryRun { return SZ_DMAFLUSHP; }
    buf[at] := CMD_DMAFLUSHP;
    buf[at + 1] := peri % 32 * 8;
    return SZ_DMAFLUSHP;
  }

  method EmitLD(dryRun: bool, buf: array<byte>, at: nat, cond: Cond) returns (size: nat)
    requires dryRun || at + SZ_DMALD <= buf.Length
    modifies buf
    ensures size == SZ_DMALD
    ensures buf[..] == Written(dryRun, old(buf[..]), at, Encode(Ld(cond)))
  {
    if dryRun { return SZ_DMALD; }
    buf[at] := CMD_DMALD;
    if cond == Single {
      buf[at] := buf[at] + 1;
    } else if cond == Burst {
      buf[at] := buf[at] + 3;
    }
    return SZ_DMALD;
  }

  method EmitLDP(dryRun: bool, buf: array<byte>, at: nat, cond: Cond, peri: byte) returns (size: nat)
    requires dryRun || at + SZ_DMALDP <= buf.Length
    modifies buf
    ensures size == SZ_DMALDP
    ensures buf[..] == Written(dryRun, old(buf[..]), at, Encode(Ldp(cond == Burst, peri % 32)))
  {
    if dryRun { return SZ_DMALDP; }
    buf[at] := CMD_DMALDP;
    if cond == Burst {
      buf[at] := buf[at] + 2;
    }
    buf[at + 1] := peri % 32 * 8;
    return SZ_DMALDP;
  }

  // cnt is the UINT8 argument; the controller adds one to the operand.
  method EmitLP(dryRun: bool, buf: array<byte>, at: nat, loop: loopReg, cnt: byte) returns (size: nat)
    requires dryRun || at + SZ_DMALP <= buf.Length
    modifies buf
    ensures size == SZ_DMALP
    ensures buf[..] == Written(dryRun, old(buf[..]), at, Encode(Lp(loop, if cnt == 0 then 255 else cnt - 1)))
  {
    if dryRun { return SZ_DMALP; }
    buf[at] := CMD_DMALP;
    if loop != 0 {
      buf[at] := buf[at] + 2;
    }
    buf[at + 1] := (cnt + 255) % 256;
    return SZ_DMALP;
  }

  datatype LpEndArg = LpEndArg(cond: Cond, forever: bool, loop: loopReg, bjump: byte)

  method EmitLPEND(dryRun: bool, buf: array<byte>, at: nat, arg: LpEndArg) returns (size: nat)
    requires dryRun || at + SZ_DMALPEND <= buf.Length
    modifies buf
    ensures size == SZ_DMALPEND
    ensures buf[..] == Written(dryRun, old(buf[..]), at, Encode(LpEnd(arg.forever, arg.loop, arg.cond, arg.bjump)))
  {
    if dryRun { return SZ_DMALPEND; }
    buf[at] := CMD_DMALPEND;
    if arg.loop != 0 {
      buf[at] := buf[at] + 4;
    }
    if !arg.forever {
      buf[at] := buf[at] + 16;
    }
    if arg.cond == Single {
      buf[at] := buf[at] + 1;
    } else if arg.cond == Burst {
      buf[at] := buf[at] + 3;
    }
    buf[at + 1] := arg.bjump;
    return SZ_DMALPEND;
  }

  method EmitMOV(dryRun: bool, buf: array<byte>, at: nat, dst: Reg, val: word) returns (size: nat)
    requires dryRun || at + SZ_DMAMOV <= buf.Length
    modifies buf
    ensures size == SZ_DMAMOV
    ensures buf[..] == Written(dryRun, old(buf[..]), at, Encode(Mov(dst, val)))
  {
    if dryRun { return SZ_DMAMOV; }
    buf[at] := CMD_DMAMOV;
    buf[at + 1] := RegCode(dst);
    buf[at + 2] := val % 256;
    buf[at + 3] := val / 0x100 % 256;
    buf[at + 4] := val / 0x1_0000 % 256;
    buf[at + 5] := val / 0x100_0000 % 256;
    return SZ_DMAMOV;
  }

  method EmitSEV(dryRun: bool, buf: array<byte>, at: nat, ev: byte) returns (size: nat)
    requires dryRun || at + SZ_DMASEV <= buf.Length
    modifies buf
    ensures size == SZ_DMASEV
    ensures buf[..] == Written(dryRun, old(buf[..]), at, Encode(Sev(ev % 32)))
  {
    if dryRun { return SZ_DMASEV; }
    buf[at] := CMD_DMASEV;
    buf[at + 1] := ev % 32 * 8;
    return SZ_DMASEV;
  }

  method EmitST(dryRun: bool, buf: array<byte>, at: nat, cond: Cond) returns (size: nat)
    requires dryRun || at + SZ_DMAST <= buf.Length
    modifies buf
    ensures size == SZ_DMAST
    ensures buf[..] == Written(dryRun, old(buf[..]), at, Encode(St(cond)))
  {
    if dryRun { return SZ_DMAST; }
    buf[at] := CMD_DMAST;
    if cond == Single {
      buf[at] := buf[at] + 1;
    } else if cond == Burst {
      buf[at] := buf[at] + 3;
    }
    return SZ_DMAST;
  }

  method EmitSTP(dryRun: bool, buf: array<byte>, at: nat, cond: Cond, peri: byte) returns (size: nat)
    requires dryRun || at + SZ_DMASTP <= buf.Length
    modifies buf
    ensures size == SZ_DMASTP
    ensures buf[..] == Written(dryRun, old(buf[..]), at, Encode(Stp(cond == Burst, peri % 32)))
  {
    if dryRun { return SZ_DMASTP; }
    buf[at] := CMD_DMASTP;
    if cond == Burst {
      buf[at] := buf[at] + 2;
    }
    buf[at + 1] := peri % 32 * 8;
    return SZ_DMASTP;
  }

  method EmitWFP(dryRun: bool, buf: array<byte>, at: nat, cond: Cond, peri: byte) returns (size: nat)
    requires dryRun || at + SZ_DMAWFP <= buf.Length
    modifies buf
    ensures size == SZ_DMAWFP
    ensures buf[..] == Written(dryRun, old(buf[..]), at, Encode(Wfp(cond, peri % 32)))
  {
    if dryRun { return SZ_DMAWFP; }
    buf[at] := CMD_DMAWFP;
    if cond == Single {
    } else if cond == Burst {
      buf[at] := buf[at] + 2;
    } else {
      buf[at] := buf[at] + 1;
    }
    buf[at + 1] := peri % 32 * 8;
    return SZ_DMAWFP;
  }
}
