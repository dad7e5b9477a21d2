/** The interrupt protocol of the EQOS driver (device.cpp): the ISR, any number
    of DPC instances, and the two notification setters, as atomic steps.  A step
    is what happens under one lock (or in one interlocked operation).

    The class at the end is the driver's state with a method for each step; the
    functions here say what the methods do to it, and the lemmas what that means
    over every interleaving. */
module EqosInterrupts {

  // Interrupt causes: the MAC's link status, and channel 0's status bits.
  datatype Causes = Causes(link: bool, rx: bool, tx: bool, fatal: bool, abnormal: bool)

  const NoCauses := Causes(false, false, false, false, false)

  function Or(a: Causes, b: Causes): Causes {
    Causes(a.link || b.link, a.rx || b.rx, a.tx || b.tx, a.fatal || b.fatal, a.abnormal || b.abnormal)
  }

  function And(a: Causes, b: Causes): Causes {
    Causes(a.link && b.link, a.rx && b.rx, a.tx && b.tx, a.fatal && b.fatal, a.abnormal && b.abnormal)
  }

  // interruptsWanted
  datatype Wanted = Wanted(state: bool, rx: bool, tx: bool)

  const InterruptsNone := Wanted(false, false, false)
  const InterruptsState := Wanted(true, false, false)

  datatype Side = Rx | Tx

  function Has(c: Causes, side: Side): bool { if side.Rx? then c.rx else c.tx }
  function Wants(w: Wanted, side: Side): bool { if side.Rx? then w.rx else w.tx }
  function WithSide(w: Wanted, side: Side, on: bool): Wanted {
    if side.Rx? then w.(rx := on) else w.(tx := on)
  }

  // MakeMacInterruptEnable and MakeChannelInterruptEnable.
  function MakeInterruptEnable(w: Wanted): Causes {
    Causes(w.state, w.rx, w.tx, w.state, w.state)
  }

  // A DPC instance: before its exchange; holding what it took, the link event
  // until it has been seen to; past the queue notifications, about to re-enable.
  datatype Dpc = AtTop | Holding(status: Causes) | Notified

  // A setter: idle, or between setting the queue and setting the interrupt.
  datatype Setter = Idle | Arming | Disarming

  datatype State = State(
    latched: Causes,          // the device's status bits
    enables: Causes,          // the device's interrupt enables
    wanted: Wanted,           // interruptsWanted
    status: Causes,           // interruptStatus
    dpcQueued: bool,
    dpcs: seq<Dpc>,
    rxArmed: bool, txArmed: bool,         // rxQueue, txQueue
    rxSetter: Setter, txSetter: Setter,
    rxNotices: nat, txNotices: nat,       // notifications given
    linkNotices: nat)                     // and looks at the link

  function Armed(s: State, side: Side): bool { if side.Rx? then s.rxArmed else s.txArmed }
  function SetterOf(s: State, side: Side): Setter { if side.Rx? then s.rxSetter else s.txSetter }
  function Notices(s: State, side: Side): nat { if side.Rx? then s.rxNotices else s.txNotices }
  function SetArmed(s: State, side: Side, on: bool): State {
    if side.Rx? then s.(rxArmed := on) else s.(txArmed := on)
  }
  function SetSetter(s: State, side: Side, p: Setter): State {
    if side.Rx? then s.(rxSetter := p) else s.(txSetter := p)
  }

  // After DeviceD0Entry.
  const Started := State(NoCauses, MakeInterruptEnable(InterruptsState), InterruptsState, NoCauses, false, [],
                         false, false, Idle, Idle, 0, 0, 0)

  // ------------------------------------------------------------------ steps

  // DeviceInterruptIsr: every latched cause is taken, enabled or not.
  function Isr(s: State): State {
    if s.latched == NoCauses then s else
    s.(latched := NoCauses,
       enables := MakeInterruptEnable(InterruptsNone),
       wanted := Wanted(s.wanted.state, s.wanted.rx && !s.latched.rx, s.wanted.tx && !s.latched.tx),
       status := Or(s.status, s.latched),
       dpcQueued := true)
  }

  // InterlockedExchange of interruptStatus; a DPC that finds nothing ends.
  function DpcExchange(s: State, i: nat): State
    requires i < |s.dpcs|
  {
    if s.status == NoCauses then s.(dpcs := s.dpcs[..i] + s.dpcs[i + 1..])
    else s.(status := NoCauses, dpcs := s.dpcs[i := Holding(s.status)])
  }

  function Notify(s: State, side: Side, c: Causes): State {
    if Armed(s, side) && Has(c, side) then
      var t := SetArmed(s, side, false);
      if side.Rx? then t.(rxNotices := t.rxNotices + 1) else t.(txNotices := t.txNotices + 1)
    else s
  }

  // The link event is seen to before the queues: reading
  // Mac_PhyIf_Control_Status clears what is latched of it meanwhile.
  function DpcReadLink(s: State, i: nat): State
    requires i < |s.dpcs| && s.dpcs[i].Holding?
  {
    s.(latched := s.latched.(link := false), linkNotices := s.linkNotices + 1,
       dpcs := s.dpcs[i := Holding(s.dpcs[i].status.(link := false))])
  }

  // The part under queueLock.
  function DpcNotify(s: State, i: nat): State
    requires i < |s.dpcs| && s.dpcs[i].Holding?
  {
    Notify(Notify(s, Rx, s.dpcs[i].status), Tx, s.dpcs[i].status).(dpcs := s.dpcs[i := Notified])
  }

  // The part under the interrupt lock, and back to the top of the loop.
  function DpcReenable(s: State, i: nat): State
    requires i < |s.dpcs|
  {
    s.(enables := if s.wanted != InterruptsNone then MakeInterruptEnable(s.wanted) else s.enables,
       dpcs := s.dpcs[i := AtTop])
  }

  // DeviceInterruptEnable and DeviceInterruptDisable: the registers are
  // written only if interruptsWanted changes.
  function ChangeWanted(s: State, w: Wanted): State {
    if s.wanted == w then s else s.(wanted := w, enables := MakeInterruptEnable(w))
  }

  datatype Step =
    | Raise(causes: Causes)          // the device
    | RunIsr                         // at any time: the line may be shared
    | StartDpc
    | RunDpc(i: nat)
    | Begin(side: Side, arm: bool)   // DeviceSetNotification...Queue, under queueLock
    | Finish(side: Side)             // ... and then the interrupt

  predicate Enabled(s: State, step: Step) {
    match step
    case Raise(_) => true
    case RunIsr => true
    case StartDpc => s.dpcQueued
    case RunDpc(i) => i < |s.dpcs|
    case Begin(side, _) => SetterOf(s, side).Idle?
    case Finish(side) => !SetterOf(s, side).Idle?
  }

  function Next(s: State, step: Step): State
    requires Enabled(s, step)
  {
    match step
    case Raise(c) => s.(latched := Or(s.latched, c))
    case RunIsr => Isr(s)
    case StartDpc => s.(dpcQueued := false, dpcs := s.dpcs + [AtTop])
    case RunDpc(i) =>
      (match s.dpcs[i]
       case AtTop => DpcExchange(s, i)
       case Holding(c) => if c.link then DpcReadLink(s, i) else DpcNotify(s, i)
       case Notified => DpcReenable(s, i))
    case Begin(side, arm) => SetSetter(SetArmed(s, side, arm), side, if arm then Arming else Disarming)
    case Finish(side) =>
      SetSetter(ChangeWanted(s, WithSide(s.wanted, side, SetterOf(s, side).Arming?)), side, Idle)
  }

  ghost predicate Execution(s: State, steps: seq<Step>, t: State)
    decreases |steps|
  {
    if steps == [] then t == s
    else Enabled(s, steps[0]) && Execution(Next(s, steps[0]), steps[1..], t)
  }

  // -------------------------------------------------------------- invariant

  // A DPC has taken the side's event and has not come to the notifications.
  ghost predicate Held(s: State, side: Side) {
    exists i :: 0 <= i < |s.dpcs| && s.dpcs[i].Holding? && Has(s.dpcs[i].status, side)
  }

  // Some DPC will come to its re-enable step.
  ghost predicate WillReenable(s: State) {
    exists i :: 0 <= i < |s.dpcs| && !s.dpcs[i].AtTop?
  }

  // An armed queue can still be reached by its event.
  ghost predicate Watched(s: State, side: Side) {
    Armed(s, side) ==>
      Wants(s.wanted, side) || Has(s.status, side) || Held(s, side) || SetterOf(s, side).Arming?
  }

  // The enables are what is wanted, or all off with a DPC owed.
  ghost predicate EnablesOk(s: State) {
    || s.enables == MakeInterruptEnable(s.wanted)
    || (s.enables == NoCauses && (WillReenable(s) || s.status != NoCauses))
  }

  // Status that has been recorded will be looked at.
  ghost predicate StatusSeen(s: State) {
    s.status != NoCauses ==> s.dpcQueued || |s.dpcs| > 0
  }

  // A disarming setter finds its queue disarmed: nobody else arms it.
  ghost predicate SettersOk(s: State) {
    (s.rxSetter.Disarming? ==> !s.rxArmed) && (s.txSetter.Disarming? ==> !s.txArmed)
  }

  ghost predicate Inv(s: State) {
    Watched(s, Rx) && Watched(s, Tx) && SettersOk(s) && EnablesOk(s) && StatusSeen(s)
  }

  lemma HeldAt(s: State, side: Side, i: nat)
    requires i < |s.dpcs| && s.dpcs[i].Holding? && Has(s.dpcs[i].status, side)
    ensures Held(s, side)
  {}

  lemma WillReenableAt(s: State, i: nat)
    requires i < |s.dpcs| && !s.dpcs[i].AtTop?
    ensures WillReenable(s)
  {}

  // Replacing DPC i: what the others hold is still held.
  lemma HeldKept(s: State, t: State, side: Side, i: nat, d: Dpc)
    requires i < |s.dpcs| && t.dpcs == s.dpcs[i := d]
    requires Held(s, side) && (s.dpcs[i].Holding? && Has(s.dpcs[i].status, side) ==> d == s.dpcs[i])
    ensures Held(t, side)
  {
    var k :| 0 <= k < |s.dpcs| && s.dpcs[k].Holding? && Has(s.dpcs[k].status, side);
    HeldAt(t, side, k);
  }

  // A DPC that ends was at the top and held nothing.
  lemma EndKeeps(s: State, t: State, i: nat)
    requires i < |s.dpcs| && s.dpcs[i].AtTop? && t.dpcs == s.dpcs[..i] + s.dpcs[i + 1..]
    ensures forall side :: Held(s, side) ==> Held(t, side)
    ensures WillReenable(s) ==> WillReenable(t)
  {
    forall side | Held(s, side) ensures Held(t, side) {
      var k :| 0 <= k < |s.dpcs| && s.dpcs[k].Holding? && Has(s.dpcs[k].status, side);
      HeldAt(t, side, if k < i then k else k - 1);
    }
    if WillReenable(s) {
      var k :| 0 <= k < |s.dpcs| && !s.dpcs[k].AtTop?;
      WillReenableAt(t, if k < i then k else k - 1);
    }
  }

  lemma StartKeeps(s: State, t: State)
    requires t.dpcs == s.dpcs + [AtTop]
    ensures forall side :: Held(s, side) ==> Held(t, side)
    ensures WillReenable(s) ==> WillReenable(t)
  {
    forall side | Held(s, side) ensures Held(t, side) {
      var k :| 0 <= k < |s.dpcs| && s.dpcs[k].Holding? && Has(s.dpcs[k].status, side);
      HeldAt(t, side, k);
    }
    if WillReenable(s) {
      var k :| 0 <= k < |s.dpcs| && !s.dpcs[k].AtTop?;
      WillReenableAt(t, k);
    }
  }

  lemma ExchangeKeeps(s: State, i: nat)
    requires Inv(s) && i < |s.dpcs| && s.dpcs[i].AtTop?
    ensures Inv(DpcExchange(s, i))
  {
    var t := DpcExchange(s, i);
    if s.status == NoCauses {
      EndKeeps(s, t, i);
    } else {
      WillReenableAt(t, i);
      forall side | Armed(t, side) ensures Watched(t, side) {
        assert Watched(s, side) by { assert side.Rx? || side.Tx?; }
        if Has(s.status, side) { HeldAt(t, side, i); }
        if Held(s, side) { HeldKept(s, t, side, i, Holding(s.status)); }
      }
    }
  }

  lemma NotifyKeeps(s: State, i: nat)
    requires Inv(s) && i < |s.dpcs| && s.dpcs[i].Holding?
    ensures Inv(DpcNotify(s, i))
  {
    var t := DpcNotify(s, i);
    WillReenableAt(t, i);
    forall side | Armed(t, side) ensures Watched(t, side) {
      assert Watched(s, side) by { assert side.Rx? || side.Tx?; }
      if Held(s, side) { HeldKept(s, t, side, i, Notified); }
    }
  }

  lemma ReadLinkKeeps(s: State, i: nat)
    requires Inv(s) && i < |s.dpcs| && s.dpcs[i].Holding?
    ensures Inv(DpcReadLink(s, i))
  {
    var t := DpcReadLink(s, i);
    WillReenableAt(t, i);
    forall side | Armed(t, side) ensures Watched(t, side) {
      assert Watched(s, side) by { assert side.Rx? || side.Tx?; }
      if Held(s, side) { LinkReadHolds(s, t, side, i); }
    }
  }

  // Seeing to the link gives up nothing of the queues' events.
  lemma LinkReadHolds(s: State, t: State, side: Side, i: nat)
    requires i < |s.dpcs| && s.dpcs[i].Holding? && t.dpcs == s.dpcs[i := Holding(s.dpcs[i].status.(link := false))]
    requires Held(s, side)
    ensures Held(t, side)
  {
    var k :| 0 <= k < |s.dpcs| && s.dpcs[k].Holding? && Has(s.dpcs[k].status, side);
    HeldAt(t, side, k);
  }

  lemma ReenableKeeps(s: State, i: nat)
    requires Inv(s) && i < |s.dpcs| && s.dpcs[i].Notified?
    ensures Inv(DpcReenable(s, i))
  {
    var t := DpcReenable(s, i);
    forall side | Armed(t, side) ensures Watched(t, side) {
      assert Watched(s, side) by { assert side.Rx? || side.Tx?; }
      if Held(s, side) { HeldKept(s, t, side, i, AtTop); }
    }
  }

  // Steps that leave the DPCs alone.
  lemma SameDpcs(s: State, t: State)
    requires t.dpcs == s.dpcs
    ensures forall side :: Held(s, side) <==> Held(t, side)
    ensures WillReenable(s) <==> WillReenable(t)
  {}

  lemma IsrKeeps(s: State)
    requires Inv(s)
    ensures Inv(Isr(s))
  {
    hide Held, WillReenable;
    SameDpcs(s, Isr(s));
  }

  lemma RaiseKeeps(s: State, c: Causes)
    requires Inv(s)
    ensures Inv(Next(s, Raise(c)))
  {
    hide Held, WillReenable;
    SameDpcs(s, Next(s, Raise(c)));
  }

  lemma BeginKeeps(s: State, side: Side, arm: bool)
    requires Inv(s) && SetterOf(s, side).Idle?
    ensures Inv(Next(s, Begin(side, arm)))
  {
    hide Held, WillReenable;
    SameDpcs(s, Next(s, Begin(side, arm)));
  }

  lemma FinishKeeps(s: State, side: Side)
    requires Inv(s) && !SetterOf(s, side).Idle?
    ensures Inv(Next(s, Finish(side)))
  {
    hide Held, WillReenable;
    SameDpcs(s, Next(s, Finish(side)));
  }

  /** Every step keeps the invariant. */
  lemma StepKeepsInv(s: State, step: Step)
    requires Inv(s) && Enabled(s, step)
    ensures Inv(Next(s, step))
  {
    hide Inv, Isr, ChangeWanted;
    match step {
      case Raise(c) => RaiseKeeps(s, c);
      case RunIsr => IsrKeeps(s);
      case StartDpc => StartDpcKeeps(s);
      case RunDpc(i) =>
        match s.dpcs[i] {
          case AtTop => ExchangeKeeps(s, i);
          case Holding(c) => if c.link { ReadLinkKeeps(s, i); } else { NotifyKeeps(s, i); }
          case Notified => ReenableKeeps(s, i);
        }
      case Begin(side, arm) => BeginKeeps(s, side, arm);
      case Finish(side) => FinishKeeps(s, side);
    }
  }

  lemma StartDpcKeeps(s: State)
    requires Inv(s) && s.dpcQueued
    ensures Inv(Next(s, StartDpc))
  {
    hide Held, WillReenable;
    StartKeeps(s, Next(s, StartDpc));
  }

  /** No lost wakeup, and no lost enable, in every interleaving. */
  lemma {:induction false} EveryRunKeepsInv(s: State, steps: seq<Step>, t: State)
    requires Inv(s) && Execution(s, steps, t)
    ensures Inv(t)
    decreases |steps|
  {
    if steps != [] {
      StepKeepsInv(s, steps[0]);
      EveryRunKeepsInv(Next(s, steps[0]), steps[1..], t);
    }
  }

  lemma StartedInv()
    ensures Inv(Started)
  {}

  // --------------------------------------------------------------- delivery

  // Steps that happen by themselves: the ISR when the line is asserted, DPCs,
  // and the second half of a setter.
  predicate Driven(s: State, step: Step) {
    match step
    case Raise(_) => false
    case RunIsr => And(s.latched, s.enables) != NoCauses
    case StartDpc => s.dpcQueued
    case RunDpc(i) => i < |s.dpcs|
    case Begin(_, _) => false
    case Finish(side) => !SetterOf(s, side).Idle?
  }

  ghost predicate Quiescent(s: State) {
    forall step :: !Driven(s, step)
  }

  /** In a state where nothing is left to happen by itself, an armed queue has
      no event waiting in the device. */
  lemma QuiescentIsDelivered(s: State, side: Side)
    requires Inv(s) && Quiescent(s) && Armed(s, side)
    ensures !Has(s.latched, side)
  {
    assert !Driven(s, StartDpc) && !Driven(s, RunDpc(0)) && !Driven(s, RunIsr) && !Driven(s, Finish(side));
    assert Watched(s, side) by { assert side.Rx? || side.Tx?; }
  }

  function Weight(d: Dpc): nat {
    match d
    case AtTop => 1
    case Holding(c) => if c.link then 4 else 3
    case Notified => 2
  }

  function Total(dpcs: seq<Dpc>): nat {
    if dpcs == [] then 0 else Total(dpcs[..|dpcs| - 1]) + Weight(dpcs[|dpcs| - 1])
  }

  // How much is left to happen without new events.
  function Rank(s: State): nat {
    (if s.latched == NoCauses then 0 else 7)
    + (if s.status == NoCauses then 0 else 4)
    + (if s.dpcQueued then 2 else 0)
    + Total(s.dpcs)
    + (if s.rxSetter.Idle? then 0 else 1) + (if s.txSetter.Idle? then 0 else 1)
  }

  lemma {:induction false} TotalUpdate(dpcs: seq<Dpc>, i: nat, d: Dpc)
    requires i < |dpcs|
    ensures Total(dpcs[i := d]) == Total(dpcs) - Weight(dpcs[i]) + Weight(d)
    decreases |dpcs|
  {
    var n := |dpcs| - 1;
    if i == n {
      assert dpcs[i := d][..n] == dpcs[..n];
    } else {
      TotalUpdate(dpcs[..n], i, d);
      assert dpcs[i := d][..n] == dpcs[..n][i := d];
    }
  }

  lemma {:induction false} TotalRemove(dpcs: seq<Dpc>, i: nat)
    requires i < |dpcs|
    ensures Total(dpcs[..i] + dpcs[i + 1..]) == Total(dpcs) - Weight(dpcs[i])
    decreases |dpcs|
  {
    var n := |dpcs| - 1;
    var r := dpcs[..i] + dpcs[i + 1..];
    if i == n {
      assert r == dpcs[..n];
    } else {
      TotalRemove(dpcs[..n], i);
      assert r[..n - 1] == dpcs[..n][..i] + dpcs[..n][i + 1..];
      assert r[n - 1] == dpcs[n];
    }
  }

  lemma TotalAdd(dpcs: seq<Dpc>, d: Dpc)
    ensures Total(dpcs + [d]) == Total(dpcs) + Weight(d)
  {
    assert (dpcs + [d])[..|dpcs|] == dpcs;
  }

  /** Each such step brings the end nearer. */
  lemma DrivenDescends(s: State, step: Step)
    requires Driven(s, step)
    ensures Enabled(s, step) && Rank(Next(s, step)) < Rank(s)
  {
    if step.StartDpc? {
      TotalAdd(s.dpcs, AtTop);
    } else if step.RunDpc? {
      DpcDescends(s, step.i);
    } else if step.RunIsr? {
      hide Total;
      assert s.latched != NoCauses;
    } else {
      hide Total;
    }
  }

  lemma DpcDescends(s: State, i: nat)
    requires i < |s.dpcs|
    ensures Rank(Next(s, RunDpc(i))) < Rank(s)
  {
    hide Rank, DpcExchange, DpcReadLink, DpcNotify, DpcReenable;
    match s.dpcs[i] {
      case AtTop => ExchangeDescends(s, i);
      case Holding(c) => if c.link { ReadLinkDescends(s, i); } else { NotifyDescends(s, i); }
      case Notified => ReenableDescends(s, i);
    }
  }

  lemma ExchangeDescends(s: State, i: nat)
    requires i < |s.dpcs| && s.dpcs[i].AtTop?
    ensures Rank(DpcExchange(s, i)) < Rank(s)
  {
    hide Total;
    if s.status == NoCauses { TotalRemove(s.dpcs, i); } else { TotalUpdate(s.dpcs, i, Holding(s.status)); }
  }

  lemma ReadLinkDescends(s: State, i: nat)
    requires i < |s.dpcs| && s.dpcs[i].Holding? && s.dpcs[i].status.link
    ensures Rank(DpcReadLink(s, i)) < Rank(s)
  {
    hide Total;
    TotalUpdate(s.dpcs, i, Holding(s.dpcs[i].status.(link := false)));
  }

  lemma NotifyDescends(s: State, i: nat)
    requires i < |s.dpcs| && s.dpcs[i].Holding?
    ensures Rank(DpcNotify(s, i)) < Rank(s)
  {
    hide Total;
    TotalUpdate(s.dpcs, i, Notified);
  }

  lemma ReenableDescends(s: State, i: nat)
    requires i < |s.dpcs| && s.dpcs[i].Notified?
    ensures Rank(DpcReenable(s, i)) < Rank(s)
  {
    hide Total;
    TotalUpdate(s.dpcs, i, AtTop);
  }

  ghost predicate DrivenExecution(s: State, steps: seq<Step>, t: State)
    decreases |steps|
  {
    if steps == [] then t == s
    else Driven(s, steps[0]) && DrivenExecution(Next(s, steps[0]), steps[1..], t)
  }

  // The side's event is somewhere between the device and the notification.
  ghost predicate InFlight(s: State, side: Side) {
    Armed(s, side) && !SetterOf(s, side).Disarming?
      && (Has(s.latched, side) || Has(s.status, side) || Held(s, side))
  }

  // An event in flight stays in flight until its queue has been notified.
  lemma FlightContinues(s: State, step: Step, side: Side)
    requires InFlight(s, side) && Driven(s, step)
    ensures Enabled(s, step)
    ensures InFlight(Next(s, step), side) || Notices(Next(s, step), side) > Notices(s, side)
    ensures Notices(Next(s, step), side) >= Notices(s, side)
  {
    hide Held;
    var t := Next(s, step);
    if step.StartDpc? {
      StartKeeps(s, t);
    } else if step.RunDpc? {
      DpcFlight(s, step.i, side);
    } else {
      SameDpcs(s, t);
    }
  }

  lemma DpcFlight(s: State, i: nat, side: Side)
    requires InFlight(s, side) && i < |s.dpcs|
    ensures var t := Next(s, RunDpc(i));
      && (InFlight(t, side) || Notices(t, side) > Notices(s, side))
      && Notices(t, side) >= Notices(s, side)
  {
    hide Held;
    var t := Next(s, RunDpc(i));
    if s.dpcs[i].AtTop? && s.status == NoCauses {
      EndKeeps(s, t, i);
    } else if s.dpcs[i].AtTop? {
      if Has(s.status, side) { HeldAt(t, side, i); }
      if Held(s, side) { HeldKept(s, t, side, i, Holding(s.status)); }
    } else if s.dpcs[i].Holding? && s.dpcs[i].status.link {
      if Held(s, side) { LinkReadHolds(s, t, side, i); }
    } else if !(s.dpcs[i].Holding? && Has(s.dpcs[i].status, side)) {
      if Held(s, side) { HeldKept(s, t, side, i, if s.dpcs[i].Holding? then Notified else AtTop); }
    }
  }

  /** Once the device is quiet and nobody disarms, every way of letting things
      happen comes to an end, and at the end an armed queue whose event was in
      flight has been notified. */
  lemma {:induction false} EveryEventIsDelivered(s: State, steps: seq<Step>, t: State, side: Side)
    requires Inv(s) && DrivenExecution(s, steps, t)
    ensures |steps| <= Rank(s)
    ensures Quiescent(t) && InFlight(s, side) ==> Notices(t, side) > Notices(s, side)
    ensures Notices(t, side) >= Notices(s, side)
    decreases |steps|
  {
    if steps == [] {
      if Quiescent(t) && InFlight(s, side) {
        assert !Driven(s, StartDpc) && !Driven(s, RunDpc(0));
        QuiescentIsDelivered(s, side);
      }
    } else {
      var u := Next(s, steps[0]);
      DrivenDescends(s, steps[0]);
      StepKeepsInv(s, steps[0]);
      EveryEventIsDelivered(u, steps[1..], t, side);
      if InFlight(s, side) { FlightContinues(s, steps[0], side); }
      NoticesGrow(s, steps[0], side);
    }
  }

  lemma NoticesGrow(s: State, step: Step, side: Side)
    requires Enabled(s, step)
    ensures Notices(Next(s, step), side) >= Notices(s, side)
  {}

  // ------------------------------------------------------ link and errors

  /** What is enabled is wanted. */
  lemma OnlyWantedIsEnabled(s: State)
    requires Inv(s)
    ensures (s.enables.rx ==> s.wanted.rx) && (s.enables.tx ==> s.wanted.tx)
    ensures s.enables.link || s.enables.fatal || s.enables.abnormal ==> s.wanted.state
  {}

  ghost predicate NoSetting(steps: seq<Step>, side: Side) {
    forall step | step in steps :: step != Finish(side)
  }

  /** An event that the ISR has taken does not interrupt again, whatever else is
      enabled, until its queue's notification is set. */
  lemma TakenStaysSilent(s: State, steps: seq<Step>, t: State, side: Side)
    requires Inv(s) && Has(s.latched, side) && Execution(Next(s, RunIsr), steps, t) && NoSetting(steps, side)
    ensures !Wants(t.wanted, side) && !Has(t.enables, side)
  {
    StepKeepsInv(s, RunIsr);
    StaysUnwanted(Next(s, RunIsr), steps, t, side);
    OnlyWantedIsEnabled(t);
  }

  lemma {:induction false} StaysUnwanted(s: State, steps: seq<Step>, t: State, side: Side)
    requires Inv(s) && !Wants(s.wanted, side) && Execution(s, steps, t) && NoSetting(steps, side)
    ensures Inv(t) && !Wants(t.wanted, side)
    decreases |steps|
  {
    hide Inv;
    if steps != [] {
      assert steps[0] in steps && forall step | step in steps[1..] :: step in steps;
      StepKeepsInv(s, steps[0]);
      StepKeepsUnwanted(s, steps[0], side);
      StaysUnwanted(Next(s, steps[0]), steps[1..], t, side);
    }
  }

  lemma StepKeepsUnwanted(s: State, step: Step, side: Side)
    requires Enabled(s, step) && step != Finish(side) && !Wants(s.wanted, side)
    ensures !Wants(Next(s, step).wanted, side)
  {
    hide MakeInterruptEnable, Or;
    if step.RunDpc? { DpcKeepsState(s, step.i); }
  }

  /** In every run from the start the state interrupts stay wanted. */
  lemma {:induction false} StateStaysWanted(s: State, steps: seq<Step>, t: State)
    requires Execution(s, steps, t)
    ensures t.wanted.state == s.wanted.state
    decreases |steps|
  {
    if steps != [] {
      StepKeepsState(s, steps[0]);
      StateStaysWanted(Next(s, steps[0]), steps[1..], t);
    }
  }

  lemma StepKeepsState(s: State, step: Step)
    requires Enabled(s, step)
    ensures Next(s, step).wanted.state == s.wanted.state
  {
    hide MakeInterruptEnable, Or;
    match step
    case RunIsr => IsrKeepsState(s);
    case RunDpc(i) => DpcKeepsState(s, i);
    case Finish(side) => FinishKeepsState(s, side);
    case _ =>
  }

  lemma IsrKeepsState(s: State)
    ensures Isr(s).wanted.state == s.wanted.state
  {
    hide MakeInterruptEnable, Or;
  }

  lemma DpcKeepsState(s: State, i: nat)
    requires i < |s.dpcs|
    ensures Next(s, RunDpc(i)).wanted == s.wanted
  {
    hide MakeInterruptEnable;
  }

  lemma FinishKeepsState(s: State, side: Side)
    requires !SetterOf(s, side).Idle?
    ensures Next(s, Finish(side)).wanted.state == s.wanted.state
  {
    hide MakeInterruptEnable;
  }

  lemma StartedWantsState(steps: seq<Step>, t: State)
    requires Execution(Started, steps, t)
    ensures Inv(t) && t.wanted.state
  {
    StartedInv();
    EveryRunKeepsInv(Started, steps, t);
    StateStaysWanted(Started, steps, t);
  }

  /** Where nothing is left to happen by itself, no link event and no error is
      waiting in the device. */
  lemma QuietDeviceIsQuiet(s: State)
    requires Inv(s) && Quiescent(s) && s.wanted.state
    ensures !s.latched.link && !s.latched.fatal && !s.latched.abnormal
    ensures s.dpcs == [] && s.status == NoCauses
  {
    assert !Driven(s, StartDpc) && !Driven(s, RunDpc(0)) && !Driven(s, RunIsr);
  }

  // A DPC has taken a link event and has not seen to it.
  ghost predicate LinkHeld(s: State) {
    exists i :: 0 <= i < |s.dpcs| && s.dpcs[i].Holding? && s.dpcs[i].status.link
  }

  ghost predicate LinkInFlight(s: State) { s.latched.link || s.status.link || LinkHeld(s) }

  // A link event in flight stays in flight until the link is looked at.
  lemma LinkContinues(s: State, step: Step)
    requires LinkInFlight(s) && Driven(s, step)
    ensures Enabled(s, step)
    ensures LinkInFlight(Next(s, step)) || Next(s, step).linkNotices > s.linkNotices
  {
    hide LinkHeld;
    var t := Next(s, step);
    if step.RunDpc? {
      LinkInDpc(s, step.i);
    } else if step.StartDpc? {
      if LinkHeld(s) { LinkStaysHeld(s, t, |s.dpcs|); }
    } else {
      if LinkHeld(s) { LinkStaysHeld(s, t, |s.dpcs|); }
    }
  }

  // What is held elsewhere than at i.
  lemma LinkStaysHeld(s: State, t: State, i: nat)
    requires LinkHeld(s) && (i < |s.dpcs| ==> !(s.dpcs[i].Holding? && s.dpcs[i].status.link))
    requires t.dpcs == s.dpcs || t.dpcs == s.dpcs + [AtTop]
          || (i < |s.dpcs| == |t.dpcs| && t.dpcs == s.dpcs[i := t.dpcs[i]])
          || (i < |s.dpcs| && t.dpcs == s.dpcs[..i] + s.dpcs[i + 1..])
    ensures LinkHeld(t)
  {
    var k :| 0 <= k < |s.dpcs| && s.dpcs[k].Holding? && s.dpcs[k].status.link;
    var m := if |t.dpcs| < |s.dpcs| && k > i then k - 1 else k;
    assert t.dpcs[m] == s.dpcs[k];
  }

  lemma LinkInDpc(s: State, i: nat)
    requires LinkInFlight(s) && i < |s.dpcs|
    ensures var t := Next(s, RunDpc(i));
      LinkInFlight(t) || t.linkNotices > s.linkNotices
  {
    var t := Next(s, RunDpc(i));
    if s.dpcs[i].AtTop? && s.status.link {
      assert t.dpcs[i] == Holding(s.status);
    } else if !(s.dpcs[i].Holding? && s.dpcs[i].status.link) && LinkHeld(s) {
      LinkStaysHeld(s, t, i);
    }
  }

  /** As for the queues: every way of letting things happen comes to an end, and
      then a link event that was in flight has been looked at. */
  lemma {:induction false} EveryLinkEventIsSeen(s: State, steps: seq<Step>, t: State)
    requires Inv(s) && s.wanted.state && DrivenExecution(s, steps, t)
    ensures |steps| <= Rank(s)
    ensures Quiescent(t) && LinkInFlight(s) ==> t.linkNotices > s.linkNotices
    ensures t.linkNotices >= s.linkNotices
    decreases |steps|
  {
    if steps == [] {
      if Quiescent(t) { QuietDeviceIsQuiet(t); }
    } else {
      var u := Next(s, steps[0]);
      DrivenDescends(s, steps[0]);
      StepKeepsInv(s, steps[0]);
      StepKeepsState(s, steps[0]);
      EveryLinkEventIsSeen(u, steps[1..], t);
      if LinkInFlight(s) { LinkContinues(s, steps[0]); }
      LooksGrow(s, steps[0]);
    }
  }

  lemma LooksGrow(s: State, step: Step)
    requires Enabled(s, step)
    ensures Next(s, step).linkNotices >= s.linkNotices
  {}

  // ------------------------------------------------------------- the driver

  /** DeviceContext, with the device registers it reads and writes. */
  class DeviceContext {
    var linkStatus: bool                  // Mac_Interrupt_Status
    var channelStatus: Causes             // Dma_Ch[0].Status (no link bit)
    var macInterruptEnable: bool
    var channelInterruptEnable: Causes
    var interruptsWanted: Wanted
    var interruptStatus: Causes
    var dpcQueued: bool
    var rxQueue: bool                     // not null
    var txQueue: bool
    ghost var dpcs: seq<Dpc>              // where the DPC instances are
    ghost var rxSetter: Setter
    ghost var txSetter: Setter
    ghost var rxNotices: nat
    ghost var txNotices: nat
    ghost var linkNotices: nat

    ghost function View(): State
      reads this
    {
      State(channelStatus.(link := linkStatus), channelInterruptEnable.(link := macInterruptEnable),
            interruptsWanted, interruptStatus, dpcQueued, dpcs, rxQueue, txQueue, rxSetter, txSetter,
            rxNotices, txNotices, linkNotices)
    }

    ghost predicate Valid()
      reads this
    {
      Inv(View())
    }

    method DeviceInterruptSetLocked(wanted: Wanted)
      modifies `macInterruptEnable, `channelInterruptEnable
      ensures View() == old(View()).(enables := MakeInterruptEnable(wanted))
    {
      macInterruptEnable := wanted.state;
      channelInterruptEnable := Causes(false, wanted.rx, wanted.tx, wanted.state, wanted.state);
    }

    method DeviceInterruptIsr() returns (handled: bool)
      requires Valid()
      modifies this
      ensures Valid() && View() == Next(old(View()), RunIsr)
      ensures handled == (old(View()).latched != NoCauses)
    {
      hide Inv, View, MakeInterruptEnable, Or;
      StepKeepsInv(View(), RunIsr);
      var newInterruptStatus := TakeCauses();
      handled := newInterruptStatus != NoCauses;
      if handled {
        RecordInterrupt(newInterruptStatus);
      }
    }

    // The device's half: what was latched is read and cleared, and the device
    // is told to be silent if it was anything.
    method TakeCauses() returns (newInterruptStatus: Causes)
      modifies `linkStatus, `channelStatus, `macInterruptEnable, `channelInterruptEnable
      ensures newInterruptStatus == old(View()).latched
      ensures View() == if newInterruptStatus == NoCauses then old(View())
                        else old(View()).(latched := NoCauses, enables := MakeInterruptEnable(InterruptsNone))
    {
      newInterruptStatus := ReadCauses();
      if newInterruptStatus != NoCauses {
        channelStatus := NoCauses; // writing back what was read clears it
        DeviceInterruptSetLocked(InterruptsNone);
      }
    }

    // The register reads of the ISR; reading Mac_PhyIf_Control_Status clears
    // the link interrupt.
    method ReadCauses() returns (newInterruptStatus: Causes)
      modifies `linkStatus
      ensures newInterruptStatus == channelStatus.(link := old(linkStatus)) && !linkStatus
    {
      newInterruptStatus := NoCauses;
      if linkStatus {
        newInterruptStatus := newInterruptStatus.(link := true);
        linkStatus := false;
      }
      var channel0 := channelStatus;
      newInterruptStatus := Or(newInterruptStatus, channel0.(link := false));
    }

    // The driver's half: what the ISR leaves for the DPC.
    method RecordInterrupt(newInterruptStatus: Causes)
      modifies `interruptsWanted, `interruptStatus, `dpcQueued
      ensures var s := old(View());
        View() == s.(wanted := Wanted(s.wanted.state, s.wanted.rx && !newInterruptStatus.rx,
                                      s.wanted.tx && !newInterruptStatus.tx),
                     status := Or(s.status, newInterruptStatus), dpcQueued := true)
    {
      hide Or;
      if newInterruptStatus.rx {
        interruptsWanted := interruptsWanted.(rx := false);
      }
      if newInterruptStatus.tx {
        interruptsWanted := interruptsWanted.(tx := false);
      }
      interruptStatus := Or(interruptStatus, newInterruptStatus);
      dpcQueued := true;
    }

    // The exchange at the top of the DPC loop: false when the loop ends.
    method DpcTakeStatus(ghost i: nat) returns (go: bool, newInterruptStatus: Causes)
      requires Valid() && i < |dpcs| && dpcs[i].AtTop?
      modifies this
      ensures Valid() && View() == Next(old(View()), RunDpc(i))
      ensures go ==> i < |dpcs| && dpcs[i] == Holding(newInterruptStatus)
    {
      hide Inv;
      StepKeepsInv(View(), RunDpc(i));
      newInterruptStatus := interruptStatus;
      interruptStatus := NoCauses;
      go := newInterruptStatus != NoCauses;
      dpcs := if go then dpcs[i := Holding(newInterruptStatus)] else dpcs[..i] + dpcs[i + 1..];
    }

    // The link event, if it was taken.
    method DpcUpdateLink(newInterruptStatus: Causes, ghost i: nat)
      requires Valid() && i < |dpcs| && dpcs[i] == Holding(newInterruptStatus)
      modifies this
      ensures Valid() && i < |dpcs| && dpcs[i] == Holding(newInterruptStatus.(link := false))
      ensures View() == if newInterruptStatus.link then Next(old(View()), RunDpc(i)) else old(View())
    {
      hide Inv;
      if newInterruptStatus.link {
        StepKeepsInv(View(), RunDpc(i));
        linkStatus := false; // by reading Mac_PhyIf_Control_Status
        linkNotices := linkNotices + 1;
        dpcs := dpcs[i := Holding(newInterruptStatus.(link := false))];
      }
    }

    // The notifications, under queueLock.
    method DpcNotifyQueues(newInterruptStatus: Causes, ghost i: nat)
      requires Valid() && i < |dpcs| && dpcs[i] == Holding(newInterruptStatus.(link := false))
      modifies this
      ensures Valid() && View() == Next(old(View()), RunDpc(i))
    {
      hide Inv, View, Notify;
      WhereDpcIs();
      StepKeepsInv(View(), RunDpc(i));
      LinkIsNoQueue(View(), newInterruptStatus);
      if newInterruptStatus.rx || newInterruptStatus.tx {
        NotifyQueues(newInterruptStatus);
      } else {
        NothingToNotify(View(), newInterruptStatus);
      }
      MoveDpc(i, Notified);
    }

    lemma WhereDpcIs()
      ensures View().dpcs == dpcs
    {}

    method NotifyQueues(c: Causes)
      modifies `rxNotices, `rxQueue, `txNotices, `txQueue
      ensures View() == Notify(Notify(old(View()), Rx, c), Tx, c)
    {
      if rxQueue && c.rx {
        rxNotices := rxNotices + 1;
        rxQueue := false;
      }
      if txQueue && c.tx {
        txNotices := txNotices + 1;
        txQueue := false;
      }
    }

    lemma LinkIsNoQueue(s: State, c: Causes)
      ensures Notify(Notify(s, Rx, c.(link := false)), Tx, c.(link := false)) == Notify(Notify(s, Rx, c), Tx, c)
    {}

    lemma NothingToNotify(s: State, c: Causes)
      requires !c.rx && !c.tx
      ensures Notify(Notify(s, Rx, c), Tx, c) == s
    {}

    ghost method MoveDpc(i: nat, d: Dpc)
      requires i < |dpcs|
      modifies `dpcs
      ensures View() == old(View()).(dpcs := old(dpcs)[i := d])
    {
      dpcs := dpcs[i := d];
    }

    // Enable interrupts if disabled by ISR, under the interrupt lock.
    method DpcEnableInterrupts(ghost i: nat)
      requires Valid() && i < |dpcs| && dpcs[i].Notified?
      modifies this
      ensures Valid() && View() == Next(old(View()), RunDpc(i))
    {
      hide Inv;
      StepKeepsInv(View(), RunDpc(i));
      if interruptsWanted != InterruptsNone {
        DeviceInterruptSetLocked(interruptsWanted);
      }
      dpcs := dpcs[i := AtTop];
    }

    method DeviceInterruptEnable(bitsToEnable: Wanted)
      modifies this
      ensures View() == ChangeWanted(old(View()),
                Wanted(old(View()).wanted.state || bitsToEnable.state,
                       old(View()).wanted.rx || bitsToEnable.rx,
                       old(View()).wanted.tx || bitsToEnable.tx))
    {
      var oldWanted := interruptsWanted;
      var newWanted := Wanted(oldWanted.state || bitsToEnable.state, oldWanted.rx || bitsToEnable.rx,
                              oldWanted.tx || bitsToEnable.tx);
      if oldWanted != newWanted {
        interruptsWanted := newWanted;
        DeviceInterruptSetLocked(newWanted);
      }
    }

    method DeviceInterruptDisable(bitsToDisable: Wanted)
      modifies this
      ensures View() == ChangeWanted(old(View()),
                Wanted(old(View()).wanted.state && !bitsToDisable.state,
                       old(View()).wanted.rx && !bitsToDisable.rx,
                       old(View()).wanted.tx && !bitsToDisable.tx))
    {
      var oldWanted := interruptsWanted;
      var newWanted := Wanted(oldWanted.state && !bitsToDisable.state, oldWanted.rx && !bitsToDisable.rx,
                              oldWanted.tx && !bitsToDisable.tx);
      if oldWanted != newWanted {
        interruptsWanted := newWanted;
        DeviceInterruptSetLocked(newWanted);
      }
    }

    // DeviceSetNotificationRxQueue and DeviceSetNotificationTxQueue: the part
    // under queueLock ...
    method SetQueue(side: Side, queue: bool)
      requires Valid() && SetterOf(View(), side).Idle?
      modifies this
      ensures Valid() && View() == Next(old(View()), Begin(side, queue))
    {
      hide Inv;
      StepKeepsInv(View(), Begin(side, queue));
      match side {
        case Rx => rxQueue := queue; rxSetter := if queue then Arming else Disarming;
        case Tx => txQueue := queue; txSetter := if queue then Arming else Disarming;
      }
    }

    // ... and the interrupt after it.
    method SetQueueInterrupt(side: Side, queue: bool)
      requires Valid() && SetterOf(View(), side) == if queue then Arming else Disarming
      modifies this
      ensures Valid() && View() == Next(old(View()), Finish(side))
    {
      hide Inv, View;
      StepKeepsInv(View(), Finish(side));
      var bits := if side.Rx? then Wanted(false, true, false) else Wanted(false, false, true);
      if queue {
        DeviceInterruptEnable(bits);
      } else {
        DeviceInterruptDisable(bits);
      }
      EndSetter(side);
    }

    ghost method EndSetter(side: Side)
      modifies `rxSetter, `txSetter
      ensures View() == SetSetter(old(View()), side, Idle)
    {
      if side.Rx? { rxSetter := Idle; } else { txSetter := Idle; }
    }
  }
}
