/**
The other mechanism of the lease: one process, one kernel object. The suspension belongs to a handle and
ends when the handle is closed, by the writer or because the writer's process is gone; a timer ends that
process when the writer takes too long. Timer callback and `Dispose` exclude each other by a lock, under
which both look at one flag.

Either the process may be killed at any step, the deadline may pass at any step, and the listed calls may
fail. As in UiLease, nobody else suspends the thread.
*/
module StateHandleLease {

  datatype Pc =
    | Start                // the thread must not be suspended yet
    | Create               // NtCreateThreadStateChange
    | Arm                  // new Timer
    | Suspend              // NtChangeThreadState
    | Exclusive            // the suspend count must be 1
    | Hold(left: nat)      // in the critical section, before Check
    | Write(left: nat)     // Check passed: one marker is about to be written
    | Release              // Dispose: under the lock, disposed := true and the timer is disposed
    | Close                // Dispose: CloseHandle
    | Balance              // Dispose: the final balance check
    | Done | Threw | Refused | Legacy
    | Exited | Dead

  /** `Fired`: the callback has begun and may be waiting for the lock; disposing the timer no longer stops it. */
  datatype Deadline = Unset | Armed | Fired | Over

  datatype Outcome = Ok | Fail | Unsupported

  datatype Action = Writer(outcome: Outcome) | Tick | Callback | Kill

  datatype State = State(
    pc: Pc, handle: bool, suspend: int, disposed: bool, deadline: Deadline, balanced: bool, planned: nat)

  datatype Next = Blocked | To(state: State)

  function Initial(planned: nat): State { State(Start, false, 0, false, Unset, false, planned) }

  predicate Gone(s: State) { s.pc.Exited? || s.pc.Dead? }

  /** The process ends, its handles are closed, and with the handle goes the suspension. */
  function Ended(s: State, pc: Pc): State {
    s.(pc := pc, handle := false, suspend := if s.handle then 0 else s.suspend)
  }

  function At(s: State, pc: Pc): Next { To(s.(pc := pc)) }

  function WriterStep(s: State, o: Outcome): Next {
    match s.pc
    case Start => At(s, if o.Ok? && s.suspend == 0 then Create else Refused)
    case Create =>
      if o.Unsupported? then At(s, Legacy)
      else if o.Ok? then To(s.(handle := true, pc := Arm)) else At(s, Release)
    case Arm => To(s.(deadline := Armed, pc := Suspend))
    case Suspend => if o.Ok? then To(s.(suspend := s.suspend + 1, pc := Exclusive)) else At(s, Release)
    case Exclusive => At(s, if o.Ok? && s.suspend == 1 then Hold(s.planned) else Release)
    case Hold(left) => At(s, if !o.Ok? || left == 0 || s.disposed then Release else Write(left - 1))
    case Write(left) => At(s, if o.Ok? then Hold(left) else Release)
    case Release => To(s.(disposed := true, deadline := if s.deadline.Armed? then Over else s.deadline, pc := Close))
    case Close =>
      if !s.handle then At(s, Balance)
      else if o.Ok? then To(s.(handle := false, suspend := 0, pc := Balance)) else At(s, Threw)
    case Balance =>
      To(if o.Ok? && s.suspend == 0 then s.(balanced := true, pc := Done) else s.(balanced := false, pc := Threw))
    case Done => To(Ended(s, Exited))
    case Threw => To(Ended(s, Exited))
    case Refused => To(Ended(s, Exited))
    case Legacy => Blocked
    case Exited => Blocked
    case Dead => Blocked
  }

  function Step(s: State, a: Action): Next {
    match a
    case Writer(o) => WriterStep(s, o)
    case Tick => if Gone(s) || !s.deadline.Armed? then Blocked else To(s.(deadline := Fired))
    case Callback =>
      if Gone(s) || !s.deadline.Fired? then Blocked
      else if s.disposed then To(s.(deadline := Over)) else To(Ended(s, Dead))
    case Kill => if Gone(s) then Blocked else To(Ended(s, Dead))
  }

  function Run(s: State, schedule: seq<Action>): State
    decreases |schedule|
  {
    if schedule == [] then s
    else match Step(s, schedule[0])
      case To(t) => Run(t, schedule[1..])
      case Blocked => Run(s, schedule[1..])
  }

  // ---------- the invariant ----------

  predicate Inside(pc: Pc) { pc.Hold? || pc.Write? }

  predicate Before(pc: Pc) { pc.Start? || pc.Create? || pc.Refused? || pc.Legacy? }

  predicate Disposing(pc: Pc) { pc.Close? || pc.Balance? || pc.Done? || pc.Threw? }

  predicate Inv(s: State) {
    && (0 <= s.suspend <= 1) && (s.suspend == 1 ==> s.handle)
    && (Before(s.pc) ==> !s.handle && s.deadline.Unset?)
    && (s.pc.Arm? ==> s.handle && s.deadline.Unset?)
    && (s.pc.Arm? || s.pc.Suspend? ==> s.suspend == 0)
    && (s.pc.Suspend? || s.pc.Exclusive? || Inside(s.pc) ==> s.handle && (s.deadline.Armed? || s.deadline.Fired?))
    && (s.pc.Exclusive? || Inside(s.pc) ==> s.suspend == 1)
    && (!Gone(s) ==> (s.disposed <==> Disposing(s.pc)))
    && (s.disposed ==> !s.deadline.Armed?)
    && (s.pc.Balance? || s.pc.Done? ==> !s.handle)
    && (s.balanced ==> !s.handle && (s.pc.Done? || Gone(s)))
    && (Gone(s) ==> !s.handle)
  }

  lemma StepKeepsInv(s: State, a: Action)
    requires Inv(s)
    ensures Step(s, a).To? ==> Inv(Step(s, a).state)
  {
  }

  lemma {:induction false} RunKeepsInv(s: State, schedule: seq<Action>)
    requires Inv(s)
    ensures Inv(Run(s, schedule))
    decreases |schedule|
  {
    if schedule != [] {
      StepKeepsInv(s, schedule[0]);
      match Step(s, schedule[0])
      case To(t) => RunKeepsInv(t, schedule[1..]);
      case Blocked => RunKeepsInv(s, schedule[1..]);
    }
  }

  function Reached(planned: nat, schedule: seq<Action>): State { Run(Initial(planned), schedule) }

  // ---------- what it says about every run ----------

  /**
  In the critical section the thread is suspended and the deadline is set or has passed; the suspension
  ends there only with the process. Outside it the suspension ends only once `disposed` is set or the
  process is gone, so nothing resumes the thread beneath a write.
  */
  lemma WritesAreUnderSuspension(planned: nat, schedule: seq<Action>, a: Action)
    ensures var s := Reached(planned, schedule);
            && (Inside(s.pc) ==> s.suspend == 1 && !s.disposed && (s.deadline.Armed? || s.deadline.Fired?))
            && (s.suspend == 1 && Step(s, a).To? && Step(s, a).state.suspend == 0 ==>
                  Gone(Step(s, a).state) || (s.disposed && s.pc.Close?))
  {
    RunKeepsInv(Initial(planned), schedule);
  }

  /** However the process ends, and whoever ends it, the thread runs again; and a confirmed balance is true. */
  lemma TerminalBalance(planned: nat, schedule: seq<Action>)
    ensures var s := Reached(planned, schedule);
            (Gone(s) ==> s.suspend == 0) && (s.balanced ==> s.suspend == 0)
  {
    RunKeepsInv(Initial(planned), schedule);
  }

  /** A schedule without the deadline and its callback. */
  function WithoutTimer(schedule: seq<Action>): seq<Action> {
    if schedule == [] then []
    else (if schedule[0].Tick? || schedule[0].Callback? then [] else [schedule[0]]) + WithoutTimer(schedule[1..])
  }

  predicate SameButDeadline(s: State, t: State) { s.(deadline := t.deadline) == t }

  lemma {:induction false} TimerIsInert(s: State, t: State, schedule: seq<Action>)
    requires Inv(s) && s.disposed && SameButDeadline(s, t)
    ensures SameButDeadline(Run(s, schedule), Run(t, WithoutTimer(schedule)))
    decreases |schedule|
  {
    if schedule != [] {
      var a, rest := schedule[0], WithoutTimer(schedule[1..]);
      StepKeepsInv(s, a);
      var next := if Step(s, a).To? then Step(s, a).state else s;
      if a.Tick? || a.Callback? {
        assert WithoutTimer(schedule) == rest;
        TimerIsInert(next, t, schedule[1..]);
      } else {
        assert WithoutTimer(schedule)[1..] == rest;
        TimerIsInert(next, if Step(t, a).To? then Step(t, a).state else t, schedule[1..]);
      }
    }
  }

  /**
  The race between `Dispose` and the timer is decided by the flag: once it is set, the rest of every run
  goes as if there had never been a timer, even if the callback had begun and was waiting for the lock.
  */
  lemma {:induction false} DisposeWinsTheRace(planned: nat, before: seq<Action>, after: seq<Action>)
    requires Reached(planned, before).disposed
    ensures SameButDeadline(Run(Reached(planned, before), after), Run(Reached(planned, before), WithoutTimer(after)))
  {
    RunKeepsInv(Initial(planned), before);
    TimerIsInert(Reached(planned, before), Reached(planned, before), after);
  }

  /** A writer that stops making progress in the critical section is ended, and its suspension with it. */
  lemma HungWriterIsStopped(planned: nat, schedule: seq<Action>)
    requires Inside(Reached(planned, schedule).pc)
    ensures var s := Run(Reached(planned, schedule), [Tick, Callback]);
            s.pc.Dead? && s.suspend == 0
  {
    RunKeepsInv(Initial(planned), schedule);
    var s := Reached(planned, schedule);
    assert [Tick, Callback][1..] == [Callback] && [Callback][1..] == [];
    if s.deadline.Armed? {
      var t := Step(s, Tick).state;
      assert Run(s, [Tick, Callback]) == Run(t, [Callback]) == Step(t, Callback).state;
    } else {
      assert Run(s, [Tick, Callback]) == Run(s, [Callback]) == Step(s, Callback).state;
    }
  }

  // ---------- what a run achieves ----------

  /** How many marker writes succeed in a run. */
  function Writes(s: State, schedule: seq<Action>): nat
    decreases |schedule|
  {
    if schedule == [] then 0
    else match Step(s, schedule[0])
      case To(t) => (if s.pc.Write? && schedule[0] == Writer(Ok) then 1 else 0) + Writes(t, schedule[1..])
      case Blocked => Writes(s, schedule[1..])
  }

  function WritesLeft(s: State): nat {
    match s.pc
    case Start => s.planned
    case Create => s.planned
    case Arm => s.planned
    case Suspend => s.planned
    case Exclusive => s.planned
    case Hold(left) => left
    case Write(left) => left + 1
    case _ => 0
  }

  /** Where the writer stands as long as no call has failed and no deadline has killed it. */
  predicate Healthy(s: State) {
    match s.pc
    case Start => !s.handle && s.suspend == 0 && !s.disposed && s.deadline.Unset?
    case Create => !s.handle && s.suspend == 0 && !s.disposed && s.deadline.Unset?
    case Arm => s.handle && s.suspend == 0 && !s.disposed && s.deadline.Unset?
    case Suspend => s.handle && s.suspend == 0 && !s.disposed
    case Exclusive => s.handle && s.suspend == 1 && !s.disposed
    case Hold(_) => s.handle && s.suspend == 1 && !s.disposed
    case Write(_) => s.handle && s.suspend == 1 && !s.disposed
    case Release => s.handle && s.suspend == 1 && !s.disposed
    case Close => s.handle && s.suspend == 1 && s.disposed
    case Balance => !s.handle && s.suspend == 0 && s.disposed
    case Done => !s.handle && s.suspend == 0 && s.balanced && s.disposed
    case Exited => !s.handle && s.suspend == 0 && s.balanced && s.disposed
    case _ => false
  }

  lemma HealthyStep(s: State)
    requires Healthy(s)
    ensures Step(s, Tick).To? ==> Healthy(Step(s, Tick).state) && WritesLeft(Step(s, Tick).state) == WritesLeft(s)
    ensures Step(s, Writer(Ok)).To? ==>
              var t := Step(s, Writer(Ok)).state;
              Healthy(t) && (if s.pc.Write? then 1 else 0) + WritesLeft(t) == WritesLeft(s)
  {
  }

  /** No call fails and nobody is killed; the deadline may pass, but its callback never gets the lock in time. */
  predicate AllOk(schedule: seq<Action>) { forall a :: a in schedule ==> a == Writer(Ok) || a == Tick }

  lemma {:induction false} HealthyRun(s: State, schedule: seq<Action>)
    requires Healthy(s) && AllOk(schedule)
    ensures Healthy(Run(s, schedule))
    ensures Writes(s, schedule) + WritesLeft(Run(s, schedule)) == WritesLeft(s)
    decreases |schedule|
  {
    if schedule != [] {
      HealthyStep(s);
      assert schedule[0] in schedule;
      assert forall a :: a in schedule[1..] ==> a in schedule;
      match Step(s, schedule[0])
      case To(t) => HealthyRun(t, schedule[1..]);
      case Blocked => HealthyRun(s, schedule[1..]);
    }
  }

  /** No marker can be written from here on. */
  predicate PastWriting(pc: Pc) {
    pc.Release? || Disposing(pc) || pc.Refused? || pc.Legacy? || pc.Exited? || pc.Dead?
  }

  lemma {:induction false} NothingIsWritten(s: State, schedule: seq<Action>)
    requires PastWriting(s.pc)
    ensures Writes(s, schedule) == 0
    decreases |schedule|
  {
    if schedule != [] {
      match Step(s, schedule[0])
      case To(t) => NothingIsWritten(t, schedule[1..]);
      case Blocked => NothingIsWritten(s, schedule[1..]);
    }
  }

  /**
  A call of the constructor that fails, a check that fails and a write that fails are the last thing before
  `Dispose`: no marker is written afterwards. Setting the timer is the one step that cannot fail.
  */
  lemma {:induction false} FailedCallIsLast(s: State, o: Outcome, schedule: seq<Action>)
    requires !o.Ok? && !s.pc.Arm? && Step(s, Writer(o)).To?
    ensures Writes(Step(s, Writer(o)).state, schedule) == 0
  {
    NothingIsWritten(Step(s, Writer(o)).state, schedule);
  }

  /** And so it is once `Dispose` has begun, or the thread was already suspended when the writer came. */
  lemma {:induction false} NoWriteAfterDispose(s: State, o: Outcome, schedule: seq<Action>)
    requires (s.pc.Hold? && s.disposed) || (s.pc.Start? && s.suspend != 0) || (s.pc.Exclusive? && s.suspend != 1)
    ensures Writes(s, [Writer(o)] + schedule) == 0
  {
    assert ([Writer(o)] + schedule)[1..] == schedule;
    NothingIsWritten(Step(s, Writer(o)).state, schedule);
  }

  /** Without faults every planned write is made, the thread runs again, and the balance is confirmed. */
  lemma {:induction false} FaultFreeRun(planned: nat, schedule: seq<Action>)
    requires AllOk(schedule) && Gone(Reached(planned, schedule))
    ensures Writes(Initial(planned), schedule) == planned
    ensures var s := Reached(planned, schedule);
            s.pc.Exited? && s.balanced && s.suspend == 0 && !s.handle && s.disposed
  {
    HealthyRun(Initial(planned), schedule);
  }

  /** And there is such a run from wherever nothing has failed. */
  lemma {:induction false} FaultFreeRunExists(s: State) returns (schedule: seq<Action>)
    requires Healthy(s)
    ensures AllOk(schedule) && Gone(Run(s, schedule))
    decreases Rank(s)
  {
    if s.pc.Exited? {
      schedule := [];
    } else {
      HealthyStep(s);
      var rest := FaultFreeRunExists(Step(s, Writer(Ok)).state);
      schedule := [Writer(Ok)] + rest;
      assert schedule[1..] == rest;
    }
  }

  function Rank(s: State): nat {
    match s.pc
    case Start => 2 * s.planned + 11
    case Create => 2 * s.planned + 10
    case Arm => 2 * s.planned + 9
    case Suspend => 2 * s.planned + 8
    case Exclusive => 2 * s.planned + 7
    case Hold(left) => 2 * left + 6
    case Write(left) => 2 * left + 7
    case Release => 5
    case Close => 4
    case Balance => 3
    case Done => 2
    case Threw => 2
    case _ => 0
  }

  // ---------- the same on cells ----------

  class Lease {
    var pc: Pc
    var handle: bool
    var suspend: int
    var disposed: bool
    var deadline: Deadline
    var balanced: bool
    const planned: nat

    ghost function View(): State
      reads this
    {
      State(pc, handle, suspend, disposed, deadline, balanced, planned)
    }

    ghost predicate Took(next: Next, ran: bool, before: State)
      reads this
    {
      match next
      case To(t) => ran && View() == t
      case Blocked => !ran && View() == before
    }

    constructor (planned: nat)
      ensures View() == Initial(planned)
    {
      this.planned := planned;
      pc, handle, suspend, disposed, deadline, balanced := Start, false, 0, false, Unset, false;
    }

    /** The constructor and the marker writes. */
    method LeaseTurn(o: Outcome)
      requires !pc.Release? && !Disposing(pc) && !pc.Refused? && !pc.Legacy? && !Gone(View())
      modifies this
      ensures To(View()) == WriterStep(old(View()), o)
    {
      match pc
      case Start => pc := if o.Ok? && suspend == 0 then Create else Refused;
      case Create =>
        if o.Unsupported? {
          pc := Legacy;
        } else if o.Ok? {
          handle, pc := true, Arm;
        } else {
          pc := Release;
        }
      case Arm => deadline, pc := Armed, Suspend;
      case Suspend =>
        if o.Ok? {
          suspend, pc := suspend + 1, Exclusive;
        } else {
          pc := Release;
        }
      case Exclusive => pc := if o.Ok? && suspend == 1 then Hold(planned) else Release;
      case Hold(left) => pc := if !o.Ok? || left == 0 || disposed then Release else Write(left - 1);
      case Write(left) => pc := if o.Ok? then Hold(left) else Release;
    }

    /** Dispose. */
    method DisposeTurn(o: Outcome)
      requires pc.Release? || pc.Close? || pc.Balance?
      modifies this
      ensures To(View()) == WriterStep(old(View()), o)
    {
      if pc.Release? {
        disposed := true;
        if deadline.Armed? {
          deadline := Over;
        }
        pc := Close;
      } else if pc.Close? {
        if !handle {
          pc := Balance;
        } else if o.Ok? {
          handle, suspend, pc := false, 0, Balance;
        } else {
          pc := Threw;
        }
      } else {
        balanced := o.Ok? && suspend == 0;
        pc := if balanced then Done else Threw;
      }
    }

    /** The timer's callback, under the lock. */
    method TimerTurn() returns (ran: bool)
      modifies this
      ensures Took(Step(old(View()), Callback), ran, old(View()))
    {
      ran := !pc.Exited? && !pc.Dead? && deadline.Fired?;
      if ran && !disposed {
        End(Dead);
      } else if ran {
        deadline := Over;
      }
    }

    method End(how: Pc)
      modifies this
      ensures View() == Ended(old(View()), how)
    {
      if handle {
        suspend := 0;
      }
      handle, pc := false, how;
    }

    method Perform(a: Action) returns (ran: bool)
      requires Inv(View())
      modifies this
      ensures Took(Step(old(View()), a), ran, old(View())) && Inv(View())
    {
      StepKeepsInv(View(), a);
      match a
      case Writer(o) =>
        ran := !pc.Legacy? && !pc.Exited? && !pc.Dead?;
        if pc.Release? || pc.Close? || pc.Balance? {
          DisposeTurn(o);
        } else if pc.Done? || pc.Threw? || pc.Refused? {
          End(Exited);
        } else if ran {
          LeaseTurn(o);
        }
      case Tick =>
        ran := !pc.Exited? && !pc.Dead? && deadline.Armed?;
        if ran {
          deadline := Fired;
        }
      case Callback => ran := TimerTurn();
      case Kill =>
        ran := !pc.Exited? && !pc.Dead?;
        if ran {
          End(Dead);
        }
    }
  }
}
