/** Structured microcode: straight-line instructions and counted loops.  Its
    bytes, its meaning, and the proof that the bytes, wherever they are put,
    make the channel thread do what the structured program means. */
module Pl330Code {
  import opened Words
  import opened Pl330Isa

  /** Loop(l, cnt, body) is DMALP with the eight-bit argument cnt, the body, and
      a DMALPEND back to the body. */
  datatype Code =
    | Skip
    | Ins(i: Instr)
    | Seq(first: Code, second: Code)
    | Loop(reg: loopReg, cnt: nat, body: Code)

  // (UINT8)cnt, then cnt-- in UINT8 (opcodes.h, _emit_LP).
  function LpOperand(cnt: nat): byte { (cnt % 256 + 255) % 256 }

  // How often a DMALP with that operand runs its body.
  function Iterations(cnt: nat): (n: nat)
    ensures 1 <= n <= 256
  {
    LpOperand(cnt) + 1
  }

  /** The eight-bit count is exact from 1 to 256; 0 means 256. */
  lemma IterationsExact(cnt: nat)
    requires cnt <= 256
    ensures Iterations(cnt) == cnt <==> cnt != 0
    ensures Iterations(0) == 256
  {}

  function BackJump(size: nat): byte { size % 256 }

  function Bytes(c: Code): seq<byte> {
    match c
    case Skip => []
    case Ins(i) => Encode(i)
    case Seq(a, b) => Bytes(a) + Bytes(b)
    case Loop(l, n, body) =>
      Encode(Lp(l, LpOperand(n))) + Bytes(body)
      + Encode(LpEnd(false, l, Always, BackJump(|Bytes(body)|)))
  }

  predicate Uses(c: Code, l: loopReg) {
    match c
    case Skip => false
    case Ins(_) => false
    case Seq(a, b) => Uses(a, l) || Uses(b, l)
    case Loop(r, _, body) => r == l || Uses(body, l)
  }

  // Every jump fits its operand, nested loops use different registers, and
  // loop instructions come only from Loop.
  predicate WellFormed(c: Code) {
    match c
    case Skip => true
    case Ins(i) => !IsLoopInstr(i)
    case Seq(a, b) => WellFormed(a) && WellFormed(b)
    case Loop(l, _, body) => WellFormed(body) && !Uses(body, l) && |Bytes(body)| <= 255
  }

  // --------------------------------------------------------------- meaning

  function Eval(c: Code, d: Dma): Option<Dma>
    requires WellFormed(c)
    decreases c, 0
  {
    match c
    case Skip => Some(d)
    case Ins(i) => Exec(i, d)
    case Seq(a, b) =>
      var e := Eval(a, d);
      if e.None? then None else Eval(b, e.value)
    case Loop(_, n, body) => Repeat(body, Iterations(n), d)
  }

  function Repeat(c: Code, n: nat, d: Dma): Option<Dma>
    requires WellFormed(c)
    decreases c, n + 1
  {
    if n == 0 then Some(d) else
    var e := Eval(c, d);
    if e.None? then None else Repeat(c, n - 1, e.value)
  }

  // ------------------------------------------------------------- simulation

  // s reaches t, which has the same value in every loop register c leaves alone.
  predicate Reaches(mem: seq<byte>, s: Machine, n: nat, t: Machine, c: Code) {
    && Run(mem, s, n) == Some(t)
    && (!Uses(c, 0) ==> t.lc0 == s.lc0)
    && (!Uses(c, 1) ==> t.lc1 == s.lc1)
  }

  lemma RunOne(mem: seq<byte>, s: Machine, t: Machine)
    requires Step(mem, s) == Some(t)
    ensures Run(mem, s, 1) == Some(t)
  {
    hide Step, Decode;
    assert Run(mem, t, 0) == Some(t);
  }

  lemma StepIns(mem: seq<byte>, s: Machine, i: Instr)
    requires !IsLoopInstr(i) && CodeAt(mem, s.pc, Encode(i)) && Exec(i, s.dma).Some?
    ensures Run(mem, s, 1) == Some(s.(pc := s.pc + Size(i), dma := Exec(i, s.dma).value))
  {
    hide Decode;
    DecodeEncode(mem, s.pc, i);
    RunOne(mem, s, s.(pc := s.pc + Size(i), dma := Exec(i, s.dma).value));
  }

  lemma StepLp(mem: seq<byte>, s: Machine, c: Code)
    requires c.Loop? && CodeAt(mem, s.pc, Bytes(c))
    ensures Run(mem, s, 1) == Some(SetLoopCounter(s, c.reg, LpOperand(c.cnt)).(pc := s.pc + 2))
  {
    hide Decode;
    LoopLayout(mem, s.pc, c);
    RunOne(mem, s, SetLoopCounter(s, c.reg, LpOperand(c.cnt)).(pc := s.pc + 2));
  }

  function AfterLpEnd(s: Machine, l: loopReg, jump: nat): Machine
    requires jump <= s.pc
  {
    if LoopCounter(s, l) == 0 then s.(pc := s.pc + 2)
    else SetLoopCounter(s, l, LoopCounter(s, l) - 1).(pc := s.pc - jump)
  }

  lemma StepLpEnd(mem: seq<byte>, s: Machine, c: Code)
    requires c.Loop? && s.pc >= 2 + |Bytes(c.body)| && |Bytes(c.body)| <= 255
    requires CodeAt(mem, s.pc - 2 - |Bytes(c.body)|, Bytes(c))
    ensures Run(mem, s, 1) == Some(AfterLpEnd(s, c.reg, |Bytes(c.body)|))
  {
    hide Decode;
    LoopLayout(mem, s.pc - 2 - |Bytes(c.body)|, c);
    RunOne(mem, s, AfterLpEnd(s, c.reg, |Bytes(c.body)|));
  }

  lemma ReachesJoin(mem: seq<byte>, s: Machine, n: nat, t: Machine, m: nat, u: Machine)
    requires Run(mem, s, n) == Some(t) && Run(mem, t, m) == Some(u)
    ensures Run(mem, s, n + m) == Some(u)
  {
    hide Step, Decode;
    RunJoin(mem, s, n, m);
  }

  // Where the parts of a loop are, and that its DMALP and DMALPEND decode.
  lemma LoopLayout(mem: seq<byte>, pc: nat, c: Code)
    requires c.Loop? && CodeAt(mem, pc, Bytes(c))
    ensures Decode(mem, pc) == Some(Lp(c.reg, LpOperand(c.cnt)))
    ensures CodeAt(mem, pc + 2, Bytes(c.body))
    ensures Decode(mem, pc + 2 + |Bytes(c.body)|)
         == Some(LpEnd(false, c.reg, Always, BackJump(|Bytes(c.body)|)))
  {
    var lp := Lp(c.reg, LpOperand(c.cnt));
    var end := LpEnd(false, c.reg, Always, BackJump(|Bytes(c.body)|));
    CodeAtSplit(mem, pc, Encode(lp) + Bytes(c.body), Encode(end));
    CodeAtSplit(mem, pc, Encode(lp), Bytes(c.body));
    DecodeEncode(mem, pc, lp);
    DecodeEncode(mem, pc + 2 + |Bytes(c.body)|, end);
  }

  /** Bytes means Eval: from the first byte of the code, the thread reaches the
      byte after it in the state Eval gives, and no loop register outside the
      code is disturbed. */
  lemma {:induction false} Simulate(mem: seq<byte>, c: Code, s: Machine) returns (n: nat, t: Machine)
    requires WellFormed(c) && CodeAt(mem, s.pc, Bytes(c))
    requires Eval(c, s.dma).Some?
    ensures Reaches(mem, s, n, t, c)
    ensures t.pc == s.pc + |Bytes(c)| && t.dma == Eval(c, s.dma).value
    decreases c, 0
  {
    hide Step, Decode;
    match c {
      case Skip =>
        n, t := 0, s;
      case Ins(i) =>
        StepIns(mem, s, i);
        n, t := 1, s.(pc := s.pc + Size(i), dma := Exec(i, s.dma).value);
      case Seq(a, b) =>
        n, t := SimulateSeq(mem, a, b, s);
      case Loop(l, cnt, body) =>
        StepLp(mem, s, c);
        var u := SetLoopCounter(s, l, LpOperand(cnt)).(pc := s.pc + 2);
        n, t := SimulateLoop(mem, c, u, Iterations(cnt));
        ReachesJoin(mem, s, 1, u, n, t);
        n := 1 + n;
    }
  }

  lemma {:induction false} SimulateSeq(mem: seq<byte>, a: Code, b: Code, s: Machine) returns (n: nat, t: Machine)
    requires WellFormed(a) && WellFormed(b) && CodeAt(mem, s.pc, Bytes(a) + Bytes(b))
    requires Eval(Seq(a, b), s.dma).Some?
    ensures Reaches(mem, s, n, t, Seq(a, b))
    ensures t.pc == s.pc + |Bytes(a)| + |Bytes(b)| && t.dma == Eval(Seq(a, b), s.dma).value
    decreases Seq(a, b), 0, 0
  {
    hide Step, Decode;
    CodeAtSplit(mem, s.pc, Bytes(a), Bytes(b));
    var n1, u := Simulate(mem, a, s);
    var n2, v := Simulate(mem, b, u);
    ReachesJoin(mem, s, n1, u, n2, v);
    n, t := n1 + n2, v;
  }

  lemma {:induction false} SimulateLoop(mem: seq<byte>, c: Code, s: Machine, left: nat) returns (n: nat, t: Machine)
    requires c.Loop? && WellFormed(c) && s.pc >= 2 && CodeAt(mem, s.pc - 2, Bytes(c))
    requires 1 <= left <= 256 && LoopCounter(s, c.reg) == left - 1
    requires Repeat(c.body, left, s.dma).Some?
    ensures Reaches(mem, s, n, t, c)
    ensures t.pc == s.pc + |Bytes(c.body)| + 2 && t.dma == Repeat(c.body, left, s.dma).value
    decreases c.body, left
  {
    hide Step, Decode;
    LoopLayout(mem, s.pc - 2, c);
    var n1, u := Simulate(mem, c.body, s);
    StepLpEnd(mem, u, c);
    var v := AfterLpEnd(u, c.reg, |Bytes(c.body)|);
    ReachesJoin(mem, s, n1, u, 1, v);
    if left == 1 {
      n, t := n1 + 1, v;
      assert Repeat(c.body, 0, u.dma) == Some(u.dma);
    } else {
      n, t := SimulateLoop(mem, c, v, left - 1);
      ReachesJoin(mem, s, n1 + 1, v, n, t);
      n := n1 + 1 + n;
    }
  }

  /** A DMALPEND goes back to the byte after its own DMALP if and only if the
      body is at most 255 bytes: the jump operand is the length cut to eight
      bits. */
  lemma LoopJumpExact(mem: seq<byte>, s: Machine, c: Code)
    requires c.Loop? && s.pc >= 2 + |Bytes(c.body)|
    requires CodeAt(mem, s.pc - 2 - |Bytes(c.body)|, Bytes(c)) && LoopCounter(s, c.reg) > 0
    ensures Step(mem, s).Some?
    ensures Step(mem, s).value.pc == s.pc - |Bytes(c.body)| <==> |Bytes(c.body)| <= 255
  {
    hide Decode;
    LoopLayout(mem, s.pc - 2 - |Bytes(c.body)|, c);
  }
}
