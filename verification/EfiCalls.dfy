/** Firmware calls: one at a time, never again after a fault, the processor's state put back. */
module EfiCalls {
  import opened Words

  const FAULTED: u64 := 0xffff_ffff_ffff_ffff

  type Task = nat

  /** What the processor runs on: the page table and the FPU's state. */
  datatype Cpu = Cpu(cr3: u64, fpu: u64)

  /** Where a task is in `call`. */
  datatype Phase =
    | Idle
    | HasLock
    | Cleared                            // runtime services aren't off, and the function is known
    | Switched(saved: Cpu)               // interrupts off, on the firmware's page table
    | Armed(saved: Cpu)                  // `ACTIVE` set, the recovery point not yet
    | InFirmware(saved: Cpu)
    | Returned(saved: Cpu, status: u64)  // `ACTIVE` still set, the recovery point gone
    | Faulted(saved: Cpu)                // at `efirt_fault`
    | Disarmed(saved: Cpu, status: u64)  // `ACTIVE` cleared
    | Astray                             // at `efirt_fault` without a recovery point of its own
  {
    /** Interrupts are off from before the firmware's page table is loaded until it's unloaded. */
    predicate Uninterrupted() {
      !Idle? && !HasLock? && !Cleared?
    }

    /** Between the two stores to `ACTIVE`. */
    predicate Running() {
      Armed? || InFirmware? || Returned?
    }
  }

  datatype State = State(lock: Option<Task>, dead: bool, active: bool, cpu: Cpu, phases: map<Task, Phase>) {
    function Of(t: Task): Phase {
      if t in phases then phases[t] else Idle
    }

    function Put(t: Task, p: Phase): State {
      this.(phases := phases[t := p])
    }

    predicate InterruptsOff() {
      exists t :: t in phases && phases[t].Uninterrupted()
    }
  }

  /** The firmware found at boot, if any: its page table and the FPU state it starts with. */
  datatype Firmware = Firmware(present: bool, cpu: Cpu)

  datatype Event =
    | Begin(t: Task)
    | Check(t: Task, known: bool)        // whether the service's function can be read
    | Load(t: Task)                      // the firmware's page table and FPU state
    | Arm(t: Task)
    | Enter(t: Task)
    | Return(t: Task, status: u64, left: Cpu)
    | Trap(fromUser: bool, left: Cpu)
    | Disarm(t: Task)
    | Leave(t: Task)
    | Switch(cpu: Cpu)                   // another process is switched to

  /** What an event answers: nothing yet, a call's result, or whether a trap was taken over. */
  datatype Answer = Pending | Result(r: Option<u64>) | Absorbed(yes: bool)

  datatype Outcome = Outcome(s: State, a: Answer)

  function BeginStep(fw: Firmware, s: State, t: Task): Outcome {
    if !fw.present || s.lock.Some? then Outcome(s, Result(None))
    else Outcome(s.(lock := Some(t)).Put(t, HasLock), Pending)
  }

  function CheckStep(s: State, t: Task, known: bool): Outcome {
    if s.dead || !known then Outcome(s.(lock := None).Put(t, Idle), Result(None))
    else Outcome(s.Put(t, Cleared), Pending)
  }

  function LoadStep(fw: Firmware, s: State, t: Task): Outcome {
    Outcome(s.(cpu := fw.cpu).Put(t, Switched(s.cpu)), Pending)
  }

  /** `fixup_fault`: a kernel-mode trap while `ACTIVE` is set resumes at `efirt_fault`. That ends the call
      the recovery point is of, and only in the firmware is it this one. */
  function TrapStep(s: State, fromUser: bool, left: Cpu): Outcome {
    if fromUser || !s.active then Outcome(s, Absorbed(false))
    else
      var s' := s.(dead := true, active := false, cpu := left);
      match s.lock
      case None => Outcome(s', Absorbed(true))
      case Some(t) =>
        var p := s.Of(t);
        Outcome(s'.Put(t, if p.InFirmware? then Faulted(p.saved) else Astray), Absorbed(true))
  }

  /** `ACTIVE` cleared, after a fault a second time. */
  function DisarmStep(s: State, t: Task, saved: Cpu, status: u64): Outcome {
    Outcome(s.(active := false).Put(t, Disarmed(saved, status)), Pending)
  }

  function LeaveStep(s: State, t: Task, saved: Cpu, status: u64): Outcome {
    Outcome(s.(cpu := saved, lock := None).Put(t, Idle), Result(if status == FAULTED then None else Some(status)))
  }

  /** The event, if it can happen now. With interrupts off nothing but the call itself and traps can. */
  function Step(fw: Firmware, s: State, e: Event): Option<Outcome> {
    match e
    case Begin(t) => if !s.InterruptsOff() && s.Of(t).Idle? then Some(BeginStep(fw, s, t)) else None
    case Check(t, known) => if !s.InterruptsOff() && s.Of(t).HasLock? then Some(CheckStep(s, t, known)) else None
    case Load(t) => if !s.InterruptsOff() && s.Of(t).Cleared? then Some(LoadStep(fw, s, t)) else None
    case Arm(t) =>
      (match s.Of(t)
       case Switched(saved) => Some(Outcome(s.(active := true).Put(t, Armed(saved)), Pending))
       case _ => None)
    case Enter(t) =>
      (match s.Of(t)
       case Armed(saved) => Some(Outcome(s.Put(t, InFirmware(saved)), Pending))
       case _ => None)
    case Return(t, status, left) =>
      (match s.Of(t)
       case InFirmware(saved) => Some(Outcome(s.(cpu := left).Put(t, Returned(saved, status)), Pending))
       case _ => None)
    case Trap(fromUser, left) => Some(TrapStep(s, fromUser, left))
    case Disarm(t) =>
      (match s.Of(t)
       case Returned(saved, status) => Some(DisarmStep(s, t, saved, status))
       case Faulted(saved) => Some(DisarmStep(s, t, saved, FAULTED))
       case _ => None)
    case Leave(t) =>
      (match s.Of(t)
       case Disarmed(saved, status) => Some(LeaveStep(s, t, saved, status))
       case _ => None)
    case Switch(cpu) => if !s.InterruptsOff() then Some(Outcome(s.(cpu := cpu), Pending)) else None
  }

  const BOOT: State := State(None, false, false, Cpu(0, 0), map[])

  function Run(fw: Firmware, events: seq<Event>, n: nat): Option<State>
    requires n <= |events|
  {
    if n == 0 then Some(BOOT)
    else match Run(fw, events, n - 1)
      case None => None
      case Some(s) => After(Step(fw, s, events[n - 1]))
  }

  function After(o: Option<Outcome>): Option<State> {
    match o
    case None => None
    case Some(o) => Some(o.s)
  }

  // ---- What every run keeps ----

  /** The lock's holder is the one task inside a call. */
  ghost predicate OneHolder(s: State) {
    forall t :: t in s.phases && !s.phases[t].Idle? ==> s.lock == Some(t)
  }

  /** Where the holder can be once the firmware is switched off: about to find that out, or past the fault. */
  predicate PastFault(p: Phase) {
    p.HasLock? || p.Faulted? || p.Astray? || (p.Disarmed? && p.status == FAULTED)
  }

  /** `ACTIVE` is set exactly while the holder is between the two stores, and then the firmware isn't off. */
  ghost predicate ActiveWhileRunning(s: State) {
    && (s.lock.Some? ==> !s.Of(s.lock.value).Idle?)
    && (s.active <==> s.lock.Some? && s.Of(s.lock.value).Running())
    && (s.dead && s.lock.Some? ==> PastFault(s.Of(s.lock.value)))
  }

  ghost predicate Invariant(s: State) {
    OneHolder(s) && ActiveWhileRunning(s)
  }

  lemma {:induction false} StepKeeps(fw: Firmware, s: State, e: Event)
    requires Invariant(s) && Step(fw, s, e).Some?
    ensures Invariant(Step(fw, s, e).value.s)
  {
  }

  lemma {:induction false} RunKeeps(fw: Firmware, events: seq<Event>, n: nat)
    requires n <= |events| && Run(fw, events, n).Some?
    ensures Invariant(Run(fw, events, n).value)
  {
    if n > 0 {
      RunKeeps(fw, events, n - 1);
      StepKeeps(fw, Run(fw, events, n - 1).value, events[n - 1]);
    }
  }

  // ---- After a fault ----

  lemma {:induction false} DeadStays(fw: Firmware, s: State, e: Event)
    requires Invariant(s) && s.dead && Step(fw, s, e).Some?
    ensures Step(fw, s, e).value.s.dead && !e.Load? && !e.Enter?
  {
  }

  /** Once a fault has switched the firmware off, no run ever enters it again. */
  lemma {:induction false} NeverAgain(fw: Firmware, events: seq<Event>, k: nat, n: nat)
    requires k <= n <= |events| && Run(fw, events, n).Some? && Run(fw, events, k).Some? && Run(fw, events, k).value.dead
    ensures Run(fw, events, n).value.dead && forall j :: k <= j < n ==> !events[j].Load? && !events[j].Enter?
  {
    if k < n {
      assert Run(fw, events, n - 1).Some?;
      NeverAgain(fw, events, k, n - 1);
      RunKeeps(fw, events, n - 1);
      DeadStays(fw, Run(fw, events, n - 1).value, events[n - 1]);
    }
  }

  // ---- Traps ----

  /** A trap is taken over exactly when it is the kernel's and a task is between the two stores to `ACTIVE`,
      and switches the firmware off. It ends that task's call as faulted exactly when it was in the firmware.
      Any other trap changes nothing here. */
  lemma {:induction false} TrapsTakenOver(s: State, fromUser: bool, left: Cpu)
    requires Invariant(s)
    ensures var o := TrapStep(s, fromUser, left);
            && (o.a == Absorbed(true) <==> !fromUser && exists t :: t in s.phases && s.phases[t].Running())
            && (o.a == Absorbed(true) ==>
                  && o.s.dead && !o.s.active && s.lock.Some?
                  && (o.s.Of(s.lock.value).Faulted? <==> s.Of(s.lock.value).InFirmware?))
            && (o.a != Absorbed(true) ==> o == Outcome(s, Absorbed(false)))
  {
    if s.active {
      assert s.lock.value in s.phases;
    }
  }

  /** It can happen before the firmware is entered: right after `ACTIVE` is set, a trap is taken over and the
      task sent to `efirt_fault` without a recovery point of its own. */
  lemma {:induction false} TrapAstray(fw: Firmware, t: Task, left: Cpu)
    requires fw.present
    ensures var events := [Begin(t), Check(t, true), Load(t), Arm(t), Trap(false, left)];
            && Run(fw, events, 4).Some? && !Run(fw, events, 4).value.dead
            && TrapStep(Run(fw, events, 4).value, false, left).a == Absorbed(true)
            && Run(fw, events, 5).Some? && Run(fw, events, 5).value.Of(t).Astray? && Run(fw, events, 5).value.dead
  {
    var events := [Begin(t), Check(t, true), Load(t), Arm(t), Trap(false, left)];
    var s1 := BOOT.(lock := Some(t)).Put(t, HasLock);
    var s2 := s1.Put(t, Cleared);
    var s3 := s2.(cpu := fw.cpu).Put(t, Switched(BOOT.cpu));
    var s4 := s3.(active := true).Put(t, Armed(BOOT.cpu));
    assert Run(fw, events, 0) == Some(BOOT);
    assert Run(fw, events, 1) == Some(s1);
    assert Run(fw, events, 2) == Some(s2);
    assert Run(fw, events, 3) == Some(s3);
    assert Run(fw, events, 4) == Some(s4);
  }

  /** And there it stays: no event takes it out of the call. */
  lemma {:induction false} AstrayStays(fw: Firmware, events: seq<Event>, t: Task, k: nat, n: nat)
    requires k <= n <= |events| && Run(fw, events, n).Some?
    requires Run(fw, events, k).Some? && Run(fw, events, k).value.Of(t).Astray?
    ensures Run(fw, events, n).value.Of(t).Astray?
  {
    if k < n {
      assert Run(fw, events, n - 1).Some?;
      AstrayStays(fw, events, t, k, n - 1);
      RunKeeps(fw, events, n - 1);
      AstrayStep(fw, Run(fw, events, n - 1).value, events[n - 1], t);
    }
  }

  lemma {:induction false} AstrayStep(fw: Firmware, s: State, e: Event, t: Task)
    requires Invariant(s) && s.Of(t).Astray? && Step(fw, s, e).Some?
    ensures Step(fw, s, e).value.s.Of(t).Astray?
  {
    assert t in s.phases && s.InterruptsOff();
  }

  // ---- One at a time ----

  /** A call while another holds the lock fails at once and changes nothing. */
  lemma {:induction false} BusyFails(fw: Firmware, s: State, t: Task, other: Task)
    requires Invariant(s) && !s.Of(other).Idle? && Step(fw, s, Begin(t)).Some?
    ensures Step(fw, s, Begin(t)) == Some(Outcome(s, Result(None)))
  {
    assert other in s.phases;
  }

  // ---- The processor's state ----

  ghost predicate Inside(p: Phase, saved: Cpu) {
    p.Uninterrupted() && (!p.Astray? ==> p.saved == saved)
  }

  lemma {:induction false} StaysInside(fw: Firmware, s: State, e: Event, t: Task, saved: Cpu)
    requires Invariant(s) && Inside(s.Of(t), saved) && Step(fw, s, e).Some? && e != Leave(t)
    ensures Inside(Step(fw, s, e).value.s.Of(t), saved)
  {
    assert t in s.phases && s.InterruptsOff();
  }

  lemma {:induction false} InsideUntilLeave(fw: Firmware, events: seq<Event>, t: Task, i: nat, n: nat)
    requires i < n <= |events| && events[i] == Load(t) && Run(fw, events, n).Some?
    requires forall k :: i < k < n ==> events[k] != Leave(t)
    ensures Run(fw, events, i).Some? && Inside(Run(fw, events, n).value.Of(t), Run(fw, events, i).value.cpu)
    decreases n
  {
    assert Run(fw, events, n - 1).Some?;
    if i < n - 1 {
      InsideUntilLeave(fw, events, t, i, n - 1);
      RunKeeps(fw, events, n - 1);
      StaysInside(fw, Run(fw, events, n - 1).value, events[n - 1], t, Run(fw, events, i).value.cpu);
    }
  }

  /** However a call ends and whatever the firmware did to the processor, the page table and FPU state it
      started with come back, `ACTIVE` is off and the lock free. */
  lemma {:induction false} CallRestores(fw: Firmware, events: seq<Event>, t: Task, i: nat, j: nat)
    requires i < j < |events| && events[i] == Load(t) && events[j] == Leave(t)
    requires (forall k :: i < k < j ==> events[k] != Leave(t)) && Run(fw, events, j + 1).Some?
    ensures Run(fw, events, i).Some?
    ensures var before, after := Run(fw, events, i).value, Run(fw, events, j + 1).value;
            after.cpu == before.cpu && !after.active && after.lock.None? && after.Of(t).Idle?
  {
    InsideUntilLeave(fw, events, t, i, j);
    RunKeeps(fw, events, j);
    assert t in Run(fw, events, j).value.phases;
  }

  // ---- The call as written ----

  /** What the firmware does with a call: the status it returns, or a fault; and what it leaves behind. */
  datatype Behaviour = Behaviour(faults: bool, status: u64, left: Cpu)

  function CallEvents(t: Task, known: bool, b: Behaviour): (events: seq<Event>)
    ensures |events| == 8
  {
    [Begin(t), Check(t, known), Load(t), Arm(t), Enter(t),
     if b.faults then Trap(false, b.left) else Return(t, b.status, b.left), Disarm(t), Leave(t)]
  }

  /** The outcome of the last of the first `n` steps. */
  function Steps(fw: Firmware, s: State, events: seq<Event>, n: nat): Option<Outcome>
    requires n <= |events|
  {
    if n == 0 then Some(Outcome(s, Pending))
    else match Steps(fw, s, events, n - 1)
      case None => None
      case Some(o) => Step(fw, o.s, events[n - 1])
  }

  ghost predicate Reaches(fw: Firmware, s: State, events: seq<Event>, n: nat, s': State) {
    n <= |events| && Steps(fw, s, events, n).Some? && Steps(fw, s, events, n).value.s == s'
  }

  lemma {:induction false} StepsOn(fw: Firmware, s: State, events: seq<Event>, n: nat, before: State, e: Event,
                                   after: State)
    requires n < |events| && events[n] == e && Reaches(fw, s, events, n, before)
    requires Step(fw, before, e).Some? && Step(fw, before, e).value.s == after
    ensures Reaches(fw, s, events, n + 1, after)
  {
  }

  /** Task `t` alone in a call. */
  function Alone(t: Task, p: Phase, dead: bool, active: bool, cpu: Cpu): State {
    State(if p.Idle? then None else Some(t), dead, active, cpu, map[t := p])
  }

  lemma {:induction false} AloneMoves(t: Task, p: Phase, q: Phase, dead: bool, active: bool, cpu: Cpu)
    ensures Alone(t, p, dead, active, cpu).Put(t, q).phases == map[t := q]
    ensures Alone(t, p, dead, active, cpu).Of(t) == p
    ensures Alone(t, p, dead, active, cpu).InterruptsOff() <==> p.Uninterrupted()
  {
    assert map[t := p][t := q] == map[t := q];
    assert t in Alone(t, p, dead, active, cpu).phases;
  }

  lemma {:induction false} CallGetsReady(fw: Firmware, t: Task, known: bool, b: Behaviour, cpu: Cpu)
    requires fw.present && known
    ensures Reaches(fw, Alone(t, Idle, false, false, cpu), CallEvents(t, known, b), 2,
                    Alone(t, Cleared, false, false, cpu))
  {
    var s, es := Alone(t, Idle, false, false, cpu), CallEvents(t, known, b);
    var s1, s2 := Alone(t, HasLock, false, false, cpu), Alone(t, Cleared, false, false, cpu);
    AloneMoves(t, Idle, HasLock, false, false, cpu);
    StepsOn(fw, s, es, 0, s, Begin(t), s1);
    AloneMoves(t, HasLock, Cleared, false, false, cpu);
    StepsOn(fw, s, es, 1, s1, Check(t, known), s2);
  }

  lemma {:induction false} CallArms(fw: Firmware, t: Task, known: bool, b: Behaviour, cpu: Cpu)
    requires fw.present && known
    ensures Reaches(fw, Alone(t, Idle, false, false, cpu), CallEvents(t, known, b), 4,
                    Alone(t, Armed(cpu), false, true, fw.cpu))
  {
    var s, es := Alone(t, Idle, false, false, cpu), CallEvents(t, known, b);
    var s2, s3 := Alone(t, Cleared, false, false, cpu), Alone(t, Switched(cpu), false, false, fw.cpu);
    CallGetsReady(fw, t, known, b, cpu);
    AloneMoves(t, Cleared, Switched(cpu), false, false, cpu);
    StepsOn(fw, s, es, 2, s2, Load(t), s3);
    AloneMoves(t, Switched(cpu), Armed(cpu), false, false, fw.cpu);
    StepsOn(fw, s, es, 3, s3, Arm(t), Alone(t, Armed(cpu), false, true, fw.cpu));
  }

  lemma {:induction false} CallReturns(fw: Firmware, t: Task, known: bool, b: Behaviour, cpu: Cpu, p: Phase)
    requires fw.present && known && p == if b.faults then Faulted(cpu) else Returned(cpu, b.status)
    ensures Reaches(fw, Alone(t, Idle, false, false, cpu), CallEvents(t, known, b), 6,
                    Alone(t, p, b.faults, !b.faults, b.left))
  {
    var s, es := Alone(t, Idle, false, false, cpu), CallEvents(t, known, b);
    var s4, s5 := Alone(t, Armed(cpu), false, true, fw.cpu), Alone(t, InFirmware(cpu), false, true, fw.cpu);
    CallArms(fw, t, known, b, cpu);
    AloneMoves(t, Armed(cpu), InFirmware(cpu), false, true, fw.cpu);
    StepsOn(fw, s, es, 4, s4, Enter(t), s5);
    AloneMoves(t, InFirmware(cpu), p, false, true, fw.cpu);
    StepsOn(fw, s, es, 5, s5, es[5], Alone(t, p, b.faults, !b.faults, b.left));
  }

  lemma {:induction false} CallRuns(fw: Firmware, t: Task, known: bool, b: Behaviour, cpu: Cpu)
    requires fw.present && known
    ensures Steps(fw, Alone(t, Idle, false, false, cpu), CallEvents(t, known, b), 8) ==
              Some(Outcome(Alone(t, Idle, b.faults, false, cpu),
                           Result(if b.faults || b.status == FAULTED then None else Some(b.status))))
  {
    var s, es := Alone(t, Idle, false, false, cpu), CallEvents(t, known, b);
    var p6 := if b.faults then Faulted(cpu) else Returned(cpu, b.status);
    var p7 := Disarmed(cpu, if b.faults then FAULTED else b.status);
    CallReturns(fw, t, known, b, cpu, p6);
    AloneMoves(t, p6, p7, b.faults, !b.faults, b.left);
    StepsOn(fw, s, es, 6, Alone(t, p6, b.faults, !b.faults, b.left), Disarm(t), Alone(t, p7, b.faults, false, b.left));
    AloneMoves(t, p7, Idle, b.faults, false, b.left);
  }

  class Runtime {
    const fw: Firmware
    var locked: bool
    var dead: bool
    var active: bool
    var cpu: Cpu

    constructor (fw: Firmware)
      ensures this.fw == fw && !locked && !dead && !active
    {
      this.fw, locked, dead, active, cpu := fw, false, false, false, Cpu(0, 0);
    }

    /** The shared state, with task `t` in phase `p`. */
    function Now(t: Task, p: Phase): State
      reads this
    {
      Alone(t, p, dead, active, cpu)
    }

    /** `call`: every path through it is a run of the steps above. */
    method Call(t: Task, known: bool, firmware: Behaviour) returns (r: Option<u64>, ghost ran: bool)
      requires !active
      modifies this
      ensures locked == old(locked) && cpu == old(cpu) && !active
      ensures ran <==> fw.present && !old(locked) && !old(dead) && known
      ensures dead <==> old(dead) || (ran && firmware.faults)
      ensures r == if ran && !firmware.faults && firmware.status != FAULTED then Some(firmware.status) else None
      ensures ran ==>
                Steps(fw, old(Now(t, Idle)), CallEvents(t, known, firmware), 8)
                == Some(Outcome(Now(t, Idle), Result(r)))
    {
      ran := false;
      if !fw.present {
        return None, false;
      }
      if locked {
        return None, false;
      }
      locked := true;
      if dead || !known {
        locked := false;
        return None, false;
      }
      ran := true;
      var saved := cpu;
      cpu := fw.cpu;
      active := true;
      var status;
      if firmware.faults {
        dead, active := true, false;
        status := FAULTED;
      } else {
        status := firmware.status;
      }
      cpu := firmware.left;
      active := false;
      cpu := saved;
      locked := false;
      r := if status != FAULTED then Some(status) else None;
      CallRuns(fw, t, known, firmware, saved);
    }
  }
}
