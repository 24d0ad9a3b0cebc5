/**
What runs of the lease come to: without faults every marker is written and both sides end balanced; with faults,
what a side that is not itself lost still achieves, and what is refused. Everything here is said of positions,
counts and the lease flag, not of the steps.
*/
module LeaseOutcomes {

  import opened Basics
  import opened UiLease

  // ---------- the markers a run writes ----------

  /** How many marker writes succeed in a run. */
  function Writes(s: State, schedule: seq<Action>): nat
    decreases |schedule|
  {
    if schedule == [] then 0
    else match Step(s, schedule[0])
      case To(t) => (if s.w.pc.WWrite? && schedule[0] == Writer(Ok) then 1 else 0) + Writes(t, schedule[1..])
      case Blocked => Writes(s, schedule[1..])
  }

  /** How many the writer may still make. */
  function WritesLeft(w: WriterSide): nat {
    match w.pc
    case WHold(left) => left
    case WCheckPhase(left) => left + 1
    case WWrite(left) => left + 1
    case _ => if Leasing(w.pc) then w.planned else 0
  }

  /** Past the critical section there is no way back into it. */
  lemma NoWayBack(s: State, a: Action)
    requires !Leasing(s.w.pc) && Step(s, a).To?
    ensures !Leasing(Step(s, a).state.w.pc) && (Step(s, a).state.w.leased ==> s.w.leased)
  {
    match a
    case Writer(o) =>
      if Releasing(s.w.pc) {
        assert Step(s, a) == ReleaseStep(s, o);
      } else if Reconciling(s.w.pc) {
        assert Step(s, a) == ReconcileStep(s, o);
      } else {
        assert Step(s, a) == FinishStep(s, o);
      }
    case Guardian(o) => SuspendChangesOnlyByResume(s, a);
    case KillWriter =>
    case KillGuardian =>
  }

  lemma LeaseStepSpendsWrites(s: State, o: Outcome)
    requires Leasing(s.w.pc) && LeaseStep(s, o).To?
    ensures (if s.w.pc.WWrite? && o.Ok? then 1 else 0) + WritesLeft(LeaseStep(s, o).state.w) <= WritesLeft(s.w)
  {
  }

  lemma StepSpendsWrites(s: State, a: Action)
    requires Step(s, a).To?
    ensures (if s.w.pc.WWrite? && a == Writer(Ok) then 1 else 0) + WritesLeft(Step(s, a).state.w) <= WritesLeft(s.w)
  {
    if !Leasing(s.w.pc) {
      NoWayBack(s, a);
    } else {
      match a
      case Writer(o) => LeaseStepSpendsWrites(s, o);
      case Guardian(o) => SuspendChangesOnlyByResume(s, a);
      case KillWriter =>
      case KillGuardian =>
    }
  }

  /** No run writes more than what was planned, or than what was left where it began. */
  lemma {:induction false} WritesAreBounded(s: State, schedule: seq<Action>)
    ensures Writes(s, schedule) <= WritesLeft(s.w)
    decreases |schedule|
  {
    if schedule != [] {
      match Step(s, schedule[0])
      case To(t) =>
        StepSpendsWrites(s, schedule[0]);
        WritesAreBounded(t, schedule[1..]);
      case Blocked => WritesAreBounded(s, schedule[1..]);
    }
  }

  // ---------- runs without faults ----------

  predicate AllOk(schedule: seq<Action>) {
    forall a :: a in schedule ==> a == Writer(Ok) || a == Guardian(Ok)
  }

  lemma RestIsOk(schedule: seq<Action>)
    requires AllOk(schedule) && schedule != []
    ensures (schedule[0] == Writer(Ok) || schedule[0] == Guardian(Ok)) && AllOk(schedule[1..])
  {
    assert schedule[0] in schedule;
    assert forall a :: a in schedule[1..] ==> a in schedule;
  }

  const UNTOUCHED := Kernel(0, false, false, 0, 0, 0)
  const SUSPENDED := Kernel(2, true, false, 1, 1, 0)
  const RESUMED := Kernel(4, true, true, 0, 1, 1)

  predicate GuardianStarting(k: Kernel, pc: GuardianPc) {
    match pc
    case GVerify => k == UNTOUCHED
    case GIntent => k == UNTOUCHED
    case GSuspend => k == UNTOUCHED.(phase := 1)
    case GSuspended(previous) => previous == 0 && k == Kernel(1, false, false, 1, 1, 0)
    case GSignal => k == SUSPENDED.(ready := false)
    case GWait => k == SUSPENDED
    case _ => false
  }

  predicate GuardianEnding(k: Kernel, pc: GuardianPc) {
    match pc
    case GWait => k == SUSPENDED.(release := true)
    case GFinally(suspended, safe) => suspended && safe && k == SUSPENDED.(release := true)
    case GResume => k == Kernel(3, true, true, 1, 1, 0)
    case GRecord => k == RESUMED.(phase := 3)
    case GLeave => k == RESUMED
    case GExited => k == RESUMED
    case _ => false
  }

  predicate Ended(s: State) { s.k == RESUMED && s.g.pc.GExited? && s.w.handle && !s.w.leased }

  /** Where both sides stand as long as nothing has failed. */
  predicate Healthy(s: State) {
    match s.w.pc
    case WConstruct => s.k == UNTOUCHED && s.g.pc.GNone? && !s.w.handle && !s.w.leased
    case WLaunch => s.k == UNTOUCHED && s.g.pc.GNone? && !s.w.handle && !s.w.leased
    case WAwaitReady => s.w.handle && GuardianStarting(s.k, s.g.pc) && !s.w.leased
    case WReadReadyPhase => s.w.handle && s.k == SUSPENDED && s.g.pc.GWait? && !s.w.leased
    case WReadGuardianExit => s.w.handle && s.k == SUSPENDED && s.g.pc.GWait? && !s.w.leased
    case WReadExclusive => s.w.handle && s.k == SUSPENDED && s.g.pc.GWait? && !s.w.leased
    case WHold(_) => s.w.handle && s.k == SUSPENDED && s.g.pc.GWait? && s.w.leased
    case WCheckPhase(_) => s.w.handle && s.k == SUSPENDED && s.g.pc.GWait? && s.w.leased
    case WWrite(_) => s.w.handle && s.k == SUSPENDED && s.g.pc.GWait? && s.w.leased
    case WRelease => s.w.handle && s.k == SUSPENDED && s.g.pc.GWait? && s.w.leased
    case WAwaitExit => s.w.handle && GuardianEnding(s.k, s.g.pc) && !s.w.leased
    case WReadProgress => Ended(s)
    case WBalance => Ended(s)
    case WDone => Ended(s) && s.w.balanced
    case WExited => Ended(s) && s.w.balanced
    case _ => false
  }

  lemma HealthyWriterStep(s: State)
    requires Healthy(s)
    ensures WriterStep(s, Ok).To? ==>
              var t := WriterStep(s, Ok).state;
              Healthy(t) && (if s.w.pc.WWrite? then 1 else 0) + WritesLeft(t.w) == WritesLeft(s.w)
  {
  }

  lemma HealthyGuardianStep(s: State)
    requires Healthy(s)
    ensures GuardianStep(s, Ok).To? ==> Healthy(GuardianStep(s, Ok).state) && GuardianStep(s, Ok).state.w == s.w
  {
  }

  lemma {:induction false} HealthyRun(s: State, schedule: seq<Action>)
    requires Healthy(s) && AllOk(schedule)
    ensures Healthy(Run(s, schedule))
    ensures Writes(s, schedule) + WritesLeft(Run(s, schedule).w) == WritesLeft(s.w)
    decreases |schedule|
  {
    if schedule != [] {
      HealthyWriterStep(s);
      HealthyGuardianStep(s);
      RestIsOk(schedule);
      match Step(s, schedule[0])
      case To(t) => HealthyRun(t, schedule[1..]);
      case Blocked => HealthyRun(s, schedule[1..]);
    }
  }

  predicate Constructing(pc: WriterPc) { Leasing(pc) && !Inside(pc) }

  /** A run without faults that gets past the constructor gets past it with a lease. */
  lemma {:induction false} HealthyRunIsLeased(s: State, schedule: seq<Action>) returns (n: nat)
    requires Healthy(s) && AllOk(schedule) && Constructing(s.w.pc) && !Constructing(Run(s, schedule).w.pc)
    ensures n <= |schedule| && Run(s, schedule[..n]).w.leased
    decreases |schedule|
  {
    var a := schedule[0];
    RestIsOk(schedule);
    HealthyWriterStep(s);
    HealthyGuardianStep(s);
    var t := if Step(s, a).To? then Step(s, a).state else s;
    assert Healthy(t) && Run(s, schedule) == Run(t, schedule[1..]);
    if Constructing(t.w.pc) {
      n := HealthyRunIsLeased(t, schedule[1..]);
    } else {
      n := 0;
    }
    n := n + 1;
    assert schedule[..n][1..] == schedule[1..][..n - 1];
    assert Run(s, schedule[..n]) == Run(t, schedule[1..][..n - 1]);
  }

  /**
  Without faults the protocol does what it is for: a run that comes to its end has obtained the lease, has made
  every planned write, has suspended the thread once and resumed it once, and has confirmed the balance.
  */
  lemma {:induction false} FaultFreeRun(planned: nat, schedule: seq<Action>)
    requires AllOk(schedule) && Terminal(Reached(planned, schedule))
    ensures exists n :: 0 <= n <= |schedule| && Reached(planned, schedule[..n]).w.leased
    ensures Writes(Initial(planned), schedule) == planned
    ensures var s := Reached(planned, schedule);
            && s.w.pc.WExited? && s.g.pc.GExited? && s.w.balanced
            && s.k.increments == s.k.undone == 1 && s.k.suspend == 0
  {
    HealthyRun(Initial(planned), schedule);
    var n := HealthyRunIsLeased(Initial(planned), schedule);
    assert Reached(planned, schedule[..n]).w.leased;
  }

  lemma HealthyGoesOn(s: State) returns (a: Action)
    requires Healthy(s) && !Terminal(s)
    ensures (a == Writer(Ok) || a == Guardian(Ok)) && Step(s, a).To? && HandleInv(s)
  {
    if (s.w.pc.WAwaitReady? && !s.k.ready) || (s.w.pc.WAwaitExit? && !s.g.pc.GExited?) {
      a := Guardian(Ok);
    } else {
      a := Writer(Ok);
    }
  }

  /** From every state without faults there is a run without faults to the end. */
  lemma {:induction false} HealthyEnds(s: State) returns (schedule: seq<Action>)
    requires Healthy(s)
    ensures AllOk(schedule) && AllEnabled(s, schedule) && Terminal(Run(s, schedule))
    decreases Rank(s)
  {
    if Terminal(s) {
      schedule := [];
    } else {
      var a := HealthyGoesOn(s);
      StepShrinks(s, a);
      HealthyWriterStep(s);
      HealthyGuardianStep(s);
      var rest := HealthyEnds(Step(s, a).state);
      schedule := [a] + rest;
      RunOne(s, a, rest);
      assert schedule[1..] == rest;
    }
  }

  /** And there is such a run, for every number of writes. */
  lemma FaultFreeRunExists(planned: nat) returns (schedule: seq<Action>)
    ensures AllOk(schedule) && AllEnabled(Initial(planned), schedule) && Terminal(Reached(planned, schedule))
    ensures Writes(Initial(planned), schedule) == planned
  {
    schedule := HealthyEnds(Initial(planned));
    FaultFreeRun(planned, schedule);
  }

  // ---------- what is refused ----------

  /** The writer is neither in the critical section nor on its way there. */
  lemma {:induction false} NeverLeasedAgain(s: State, schedule: seq<Action>)
    requires !s.w.leased && !Leasing(s.w.pc)
    ensures !Run(s, schedule).w.leased
    decreases |schedule|
  {
    if schedule != [] {
      match Step(s, schedule[0])
      case To(t) =>
        NoWayBack(s, schedule[0]);
        NeverLeasedAgain(t, schedule[1..]);
      case Blocked => NeverLeasedAgain(s, schedule[1..]);
    }
  }

  /** The writer still has to look at the guardian before it takes the lease, or is past it. */
  predicate MustLook(pc: WriterPc) {
    pc.WAwaitReady? || pc.WReadReadyPhase? || pc.WReadGuardianExit? || !Leasing(pc)
  }

  lemma LooksAtTheDead(s: State, a: Action)
    requires GuardianGone(s) && !s.w.leased && MustLook(s.w.pc) && Step(s, a).To?
    ensures var t := Step(s, a).state; GuardianGone(t) && !t.w.leased && MustLook(t.w.pc)
  {
    if !Leasing(s.w.pc) {
      NoWayBack(s, a);
    }
    match a
    case Writer(o) => GuardianStays(s, o);
    case Guardian(o) =>
    case KillWriter =>
    case KillGuardian =>
  }

  lemma GuardianStays(s: State, o: Outcome)
    requires !s.w.pc.WLaunch? && WriterStep(s, o).To?
    ensures WriterStep(s, o).state.g == s.g
  {
  }

  /** A guardian that is gone before the writer has looked at it grants no lease, and nothing is written. */
  lemma {:induction false} NoLeaseFromTheDead(s: State, schedule: seq<Action>)
    requires GuardianGone(s) && !s.w.leased && MustLook(s.w.pc)
    ensures !Run(s, schedule).w.leased && Writes(s, schedule) == 0
    decreases |schedule|
  {
    if schedule != [] {
      match Step(s, schedule[0])
      case To(t) =>
        LooksAtTheDead(s, schedule[0]);
        NoLeaseFromTheDead(t, schedule[1..]);
      case Blocked => NoLeaseFromTheDead(s, schedule[1..]);
    }
  }

  /** A wait that times out, and a count that cannot be read, end without a lease in every continuation. */
  lemma {:induction false} FailedConstructionIsFinal(s: State, o: Outcome, schedule: seq<Action>)
    requires !s.w.leased && WriterStep(s, o).To?
    requires (s.w.pc.WAwaitReady? && o.Timeout?) || ((s.w.pc.WConstruct? || s.w.pc.WReadExclusive?) && !o.Ok?)
    ensures !Run(s, [Writer(o)] + schedule).w.leased && Writes(s, [Writer(o)] + schedule) == 0
  {
    var t := WriterStep(s, o).state;
    RunOne(s, Writer(o), schedule);
    assert ([Writer(o)] + schedule)[1..] == schedule;
    NeverLeasedAgain(t, schedule);
    WritesAreBounded(t, schedule);
  }

  /** A check or a write that fails is the last: nothing is written after it. */
  lemma {:induction false} FailedWriteIsLast(s: State, o: Outcome, schedule: seq<Action>)
    requires (s.w.pc.WHold? || s.w.pc.WWrite?) && !o.Ok?
    ensures Writes(s, [Writer(o)] + schedule) == 0
  {
    assert ([Writer(o)] + schedule)[1..] == schedule;
    WritesAreBounded(WriterStep(s, o).state, schedule);
  }

  /** After the guardian's end at most the write is made whose check had already passed it. */
  lemma {:induction false} WritesEndWithGuardian(s: State, schedule: seq<Action>)
    requires GuardianGone(s) && Inside(s.w.pc)
    ensures Writes(s, schedule) <= if s.w.pc.WHold? then 0 else 1
    decreases |schedule|
  {
    if schedule != [] {
      var a := schedule[0];
      match Step(s, a)
      case To(t) =>
        if Inside(t.w.pc) {
          InsideTheDead(s, a);
          WritesEndWithGuardian(t, schedule[1..]);
        } else {
          WritesAreBounded(t, schedule[1..]);
        }
      case Blocked => WritesEndWithGuardian(s, schedule[1..]);
    }
  }

  lemma InsideTheDead(s: State, a: Action)
    requires GuardianGone(s) && Inside(s.w.pc) && Step(s, a).To? && Inside(Step(s, a).state.w.pc)
    ensures var t := Step(s, a).state;
            && GuardianGone(t) && !(s.w.pc.WHold? && !t.w.pc.WHold?)
            && (s.w.pc.WWrite? && a == Writer(Ok) ==> t.w.pc.WHold?)
  {
    match a
    case Writer(o) => GuardianStays(s, o);
    case Guardian(o) =>
    case KillWriter =>
    case KillGuardian =>
  }

  // ---------- what one side achieves by itself ----------

  /** The guardian is not killed, and its calls from the end of its wait on succeed; the wait itself may fail. */
  predicate GuardianUnharmed(s: State, schedule: seq<Action>)
    decreases |schedule|
  {
    if schedule == [] then true
    else match Step(s, schedule[0])
      case To(t) =>
        && schedule[0] != KillGuardian
        && (schedule[0].Guardian? ==> schedule[0].outcome.Ok? || Entering(s.g.pc))
        && GuardianUnharmed(t, schedule[1..])
      case Blocked => GuardianUnharmed(s, schedule[1..])
  }

  predicate GuardianWell(s: State) { s.g.lost.None? && (s.g.pc.GFinally? && s.g.pc.suspended ==> s.g.pc.safe) }

  lemma GuardianStaysWell(s: State, a: Action)
    requires Inv(s) && GuardianWell(s) && Step(s, a).To? && a != KillGuardian
    requires a.Guardian? ==> a.outcome.Ok? || Entering(s.g.pc)
    ensures GuardianWell(Step(s, a).state)
  {
    match a
    case Writer(o) =>
      if !s.w.pc.WLaunch? {
        GuardianStays(s, o);
      }
    case Guardian(o) =>
    case KillWriter =>
    case KillGuardian =>
  }

  lemma {:induction false} GuardianRunsWell(s: State, schedule: seq<Action>)
    requires Inv(s) && GuardianWell(s) && GuardianUnharmed(s, schedule)
    ensures GuardianWell(Run(s, schedule))
    decreases |schedule|
  {
    if schedule != [] {
      match Step(s, schedule[0])
      case To(t) =>
        StepKeepsInv(s, schedule[0]);
        GuardianStaysWell(s, schedule[0]);
        GuardianRunsWell(t, schedule[1..]);
      case Blocked => GuardianRunsWell(s, schedule[1..]);
    }
  }

  /** Whatever happens to the writer, hung or killed at any point: an unharmed guardian gives the thread back. */
  lemma {:induction false} UnharmedGuardianResumes(planned: nat, schedule: seq<Action>)
    requires GuardianUnharmed(Initial(planned), schedule) && Terminal(Reached(planned, schedule))
    ensures Reached(planned, schedule).k.suspend == 0
    ensures Reached(planned, schedule).k.undone == Reached(planned, schedule).k.increments
  {
    GuardianRunsWell(Initial(planned), schedule);
    TerminalBalance(planned, schedule);
  }

  /** The writer is not killed and keeps hold of the guardian it starts; its calls to recover and confirm succeed. */
  predicate WriterUnharmed(s: State, schedule: seq<Action>)
    decreases |schedule|
  {
    if schedule == [] then true
    else match Step(s, schedule[0])
      case To(t) =>
        && schedule[0] != KillWriter
        && (schedule[0].Writer? ==> Harmless(s.w.pc, schedule[0].outcome))
        && WriterUnharmed(t, schedule[1..])
      case Blocked => WriterUnharmed(s, schedule[1..])
  }

  /** In the critical section and in every wait any outcome is harmless. */
  predicate Harmless(pc: WriterPc, o: Outcome) {
    if pc.WLaunch? then !o.HandleLost?
    else pc.WKill? || Reconciling(pc) || pc.WBalance? ==> o.Ok?
  }

  predicate WriterWell(s: State) {
    && s.w.lost.None? && !s.w.pc.WThrew? && !s.w.pc.WDead?
    && (s.w.pc.WExited? ==> s.w.balanced || s.g.pc.GNone?)
    && (s.w.pc.WRefused? ==> s.g.pc.GNone?)
  }

  lemma WriterStaysWell(s: State, a: Action)
    requires Inv(s) && WriterWell(s) && Step(s, a).To? && a != KillWriter
    requires a.Writer? ==> Harmless(s.w.pc, a.outcome)
    ensures WriterWell(Step(s, a).state)
  {
    match a
    case Writer(o) =>
      if Leasing(s.w.pc) {
        assert Step(s, a) == LeaseStep(s, o);
      } else if Releasing(s.w.pc) {
        assert Step(s, a) == ReleaseStep(s, o);
      } else if Reconciling(s.w.pc) {
        assert Step(s, a) == ReconcileStep(s, o);
      } else {
        assert Step(s, a) == FinishStep(s, o);
      }
    case Guardian(o) => SuspendChangesOnlyByResume(s, a);
    case KillWriter =>
    case KillGuardian =>
  }

  lemma {:induction false} WriterRunsWell(s: State, schedule: seq<Action>)
    requires Inv(s) && WriterWell(s) && WriterUnharmed(s, schedule)
    ensures WriterWell(Run(s, schedule))
    decreases |schedule|
  {
    if schedule != [] {
      match Step(s, schedule[0])
      case To(t) =>
        StepKeepsInv(s, schedule[0]);
        WriterStaysWell(s, schedule[0]);
        WriterRunsWell(t, schedule[1..]);
      case Blocked => WriterRunsWell(s, schedule[1..]);
    }
  }

  /** Whatever happens to the guardian, an unharmed writer ends with the thread running, and has seen that it does. */
  lemma {:induction false} UnharmedWriterRecovers(planned: nat, schedule: seq<Action>)
    requires WriterUnharmed(Initial(planned), schedule) && Terminal(Reached(planned, schedule))
    ensures var s := Reached(planned, schedule);
            s.k.suspend == 0 && s.k.undone == s.k.increments && s.w.pc.WExited? && (s.w.balanced || s.g.pc.GNone?)
  {
    WriterRunsWell(Initial(planned), schedule);
    TerminalBalance(planned, schedule);
  }
}
