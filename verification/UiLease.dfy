/**
The two-process lease under which selection markers are written into another process.

A writer asks a separate guardian process to suspend the target's UI thread, writes
while it is suspended, and then asks for it back. The two share a phase word, a `ready`
and a `release` event, and each sees the other's exit. Either may be killed between any
two steps, any wait may time out, and the listed system calls may fail.

One program point stands for one access to something shared, so every interleaving the
code allows is a sequence of actions here. A third party that suspends the same thread is
outside the model; the branches that would meet one are kept, and proved dead.
*/
module UiLease {

  import opened Basics

  /** Where the writer stands: constructor, critical section, then `Dispose`. */
  datatype WriterPc =
    | WConstruct                // the thread must not be suspended yet
    | WLaunch                   // shared objects and the guardian process
    | WAwaitReady               // ready.WaitOne
    | WReadReadyPhase           // phase must be 2
    | WReadGuardianExit         // the guardian must be running
    | WReadExclusive            // the suspend count must be 1
    | WHold(left: nat)          // in the critical section, `left` writes to go
    | WCheckPhase(left: nat)    // half way through Check
    | WWrite(left: nat)         // Check passed: one marker is about to be written
    | WRelease                  // Dispose, before release.Set
    | WAwaitExit                // guardian.WaitForExit(2000)
    | WKill                     // guardian.Kill
    | WAwaitDeath               // guardian.WaitForExit()
    | WReadProgress             // is the phase 1, 2 or 3?
    | WReadOutstanding          // suspend count of the abandoned thread
    | WResume                   // recovery: ResumeThread
    | WBalance                  // the final balance check
    | WDone                     // Dispose returned
    | WThrew                    // an exception left Dispose
    | WRefused                  // the constructor refused before owning anything
    | WExited                   // the writer's process is gone, normally
    | WDead                     // the writer's process was terminated

  /** Where the guardian stands, one point per line of RunGuardian that touches shared state. */
  datatype GuardianPc =
    | GNone
    | GVerify                   // open and identify owner and thread, count must be 0
    | GIntent                   // phase := 1
    | GSuspend                  // SuspendThread
    | GSuspended(previous: int) // previous count must be 0, then phase := 2
    | GSignal                   // ready.Set
    | GWait                     // owner exit, release, or timeout
    | GTerminate                // TerminateProcess(owner)
    | GConfirm                  // wait for the owner's exit
    | GFinally(suspended: bool, safe: bool)
    | GResume                   // phase is 3: ResumeThread
    | GRecord                   // phase := 4
    | GLeave                    // ready.Set, then return
    | GExited
    | GDead

  /** How the step of a process turns out. A step that ignores its outcome ignores it here too. */
  datatype Outcome = Ok | Fault | Timeout | HandleLost

  datatype Action = Writer(outcome: Outcome) | Guardian(outcome: Outcome) | KillWriter | KillGuardian

  /** What both processes and the kernel see. `increments` and `undone` count suspensions and resumes. */
  datatype Kernel = Kernel(phase: int, ready: bool, release: bool, suspend: int, increments: int, undone: int)

  /**
  The writer: `handle` says that it holds the guardian's process object and `planned` is how
  many writes it will make. `leased` runs from successful construction to release.Set, and
  `lost` is the point where it was killed, gave up its duty to recover, or lost the guardian it started.
  */
  datatype WriterSide = WriterSide(
    pc: WriterPc, handle: bool, leased: bool, balanced: bool, lost: Option<WriterPc>, planned: nat)

  /** The guardian: `lost` is the point where it was killed, or from where it left without resuming. */
  datatype GuardianSide = GuardianSide(pc: GuardianPc, lost: Option<GuardianPc>)

  datatype State = State(k: Kernel, w: WriterSide, g: GuardianSide)

  datatype Next = Blocked | To(state: State)

  function Initial(planned: nat): State {
    State(Kernel(0, false, false, 0, 0, 0), WriterSide(WConstruct, false, false, false, None, planned),
          GuardianSide(GNone, None))
  }

  predicate WriterOver(pc: WriterPc) { pc.WExited? || pc.WDead? }

  predicate WriterGone(s: State) { WriterOver(s.w.pc) }

  predicate GuardianGone(s: State) { s.g.pc.GExited? || s.g.pc.GDead? }

  predicate Terminal(s: State) { WriterGone(s) && (s.g.pc.GNone? || GuardianGone(s)) }

  /** The guardian's increment has been made and not undone. */
  predicate Outstanding(k: Kernel) { k.increments == 1 && k.undone == 0 }

  /** What is lost first stays on record. */
  function FirstLoss<T>(lost: Option<T>, at: T): Option<T> { if lost.Some? then lost else Some(at) }

  predicate Holding(pc: GuardianPc) { pc.GSuspended? || pc.GResume? || Suspending(pc) }

  /** The guardian ended, or went its way out, between its SuspendThread and its ResumeThread. */
  predicate Held(g: GuardianSide) { g.lost.Some? && Holding(g.lost.value) }

  predicate BeforeRecovery(pc: WriterPc) { Leasing(pc) || Releasing(pc) || Reconciling(pc) }

  /** The writer was lost no later than at its own recovering ResumeThread. */
  predicate Forsaken(w: WriterSide) { w.lost.Some? && BeforeRecovery(w.lost.value) }

  // ---------- the writer ----------

  function WriterAt(s: State, pc: WriterPc): Next { To(s.(w := s.w.(pc := pc))) }

  function WriterGivesUp(s: State): Next { To(s.(w := s.w.(pc := WThrew, lost := FirstLoss(s.w.lost, s.w.pc)))) }

  function Resumed(k: Kernel): Kernel { k.(suspend := k.suspend - 1, undone := k.undone + 1) }

  /** The constructor and the marker writes. */
  function LeaseStep(s: State, o: Outcome): Next {
    match s.w.pc
    case WConstruct => WriterAt(s, if o.Ok? && s.k.suspend == 0 then WLaunch else WRefused)
    case WLaunch =>
      if o.Ok? then To(s.(w := s.w.(handle := true, pc := WAwaitReady), g := s.g.(pc := GVerify)))
      // The process was created but its id could not be turned into a process object.
      else if o.HandleLost? then To(s.(w := s.w.(lost := Some(WLaunch), pc := WRelease), g := s.g.(pc := GVerify)))
      else WriterAt(s, WRelease)
    case WAwaitReady =>
      if o.Timeout? then WriterAt(s, WRelease)
      else if s.k.ready then WriterAt(s, WReadReadyPhase) else Blocked
    case WReadReadyPhase => WriterAt(s, if s.k.phase == 2 then WReadGuardianExit else WRelease)
    case WReadGuardianExit => WriterAt(s, if GuardianGone(s) then WRelease else WReadExclusive)
    case WReadExclusive =>
      if o.Ok? && s.k.suspend == 1 then To(s.(w := s.w.(pc := WHold(s.w.planned), leased := true)))
      else WriterAt(s, WRelease)
    case WHold(left) =>
      WriterAt(s, if !o.Ok? || left == 0 || GuardianGone(s) then WRelease else WCheckPhase(left - 1))
    case WCheckPhase(left) => WriterAt(s, if s.k.phase == 2 then WWrite(left) else WRelease)
    case WWrite(left) => WriterAt(s, if o.Ok? then WHold(left) else WRelease)
    case _ => Blocked
  }

  /** `Dispose`: hand the thread back and see the guardian out. */
  function ReleaseStep(s: State, o: Outcome): Next {
    match s.w.pc
    case WRelease =>
      if s.w.handle then To(s.(k := s.k.(release := true), w := s.w.(leased := false, pc := WAwaitExit)))
      else To(s.(w := s.w.(leased := false, pc := WBalance)))
    case WAwaitExit =>
      if o.Timeout? then WriterAt(s, WKill)
      else if GuardianGone(s) then WriterAt(s, WReadProgress) else Blocked
    case WKill => if o.Ok? then WriterAt(s, WAwaitDeath) else WriterGivesUp(s)
    case WAwaitDeath => if GuardianGone(s) then WriterAt(s, WReadProgress) else Blocked
    case _ => Blocked
  }

  /** `Dispose`: undo the increment an ended guardian left outstanding. */
  function ReconcileStep(s: State, o: Outcome): Next {
    match s.w.pc
    case WReadProgress => WriterAt(s, if 1 <= s.k.phase <= 3 then WReadOutstanding else WBalance)
    case WReadOutstanding =>
      if !o.Ok? || s.k.suspend > 1 then WriterGivesUp(s)
      else WriterAt(s, if s.k.suspend == 1 then WResume else WBalance)
    case WResume =>
      if !o.Ok? || s.k.suspend <= 0 then WriterGivesUp(s)
      else if s.k.suspend > 1 then WriterGivesUp(s.(k := Resumed(s.k)))
      else WriterAt(s.(k := Resumed(s.k)), WBalance)
    case _ => Blocked
  }

  /** The balance check that ends `Dispose`, and the end of the writer's process. */
  function FinishStep(s: State, o: Outcome): Next {
    match s.w.pc
    case WBalance =>
      if o.Ok? && s.k.suspend == 0 then To(s.(w := s.w.(balanced := true, pc := WDone))) else WriterAt(s, WThrew)
    case WDone => WriterAt(s, WExited)
    case WThrew => WriterAt(s, WExited)
    case WRefused => WriterAt(s, WExited)
    case _ => Blocked
  }

  predicate Leasing(pc: WriterPc) {
    pc.WConstruct? || pc.WLaunch? || pc.WAwaitReady? || pc.WReadReadyPhase? || pc.WReadGuardianExit?
    || pc.WReadExclusive? || pc.WHold? || pc.WCheckPhase? || pc.WWrite?
  }

  predicate Releasing(pc: WriterPc) { pc.WRelease? || pc.WAwaitExit? || pc.WKill? || pc.WAwaitDeath? }

  predicate Reconciling(pc: WriterPc) { pc.WReadProgress? || pc.WReadOutstanding? || pc.WResume? }

  function WriterStep(s: State, o: Outcome): Next {
    if Leasing(s.w.pc) then LeaseStep(s, o)
    else if Releasing(s.w.pc) then ReleaseStep(s, o)
    else if Reconciling(s.w.pc) then ReconcileStep(s, o)
    else FinishStep(s, o)
  }

  // ---------- the guardian ----------

  function GuardianAt(s: State, pc: GuardianPc): Next { To(s.(g := s.g.(pc := pc))) }

  function GuardianWith(s: State, k: Kernel, pc: GuardianPc): Next { To(s.(k := k, g := s.g.(pc := pc))) }

  function GuardianGivesUp(s: State): Next { To(s.(g := GuardianSide(GLeave, Some(s.g.pc)))) }

  function GuardianStep(s: State, o: Outcome): Next {
    match s.g.pc
    case GNone => Blocked
    case GVerify => GuardianAt(s, if o.Ok? && s.k.suspend == 0 then GIntent else GFinally(false, true))
    case GIntent => GuardianWith(s, s.k.(phase := 1), GSuspend)
    case GSuspend =>
      if o.Ok? then
        GuardianWith(s, s.k.(suspend := s.k.suspend + 1, increments := s.k.increments + 1), GSuspended(s.k.suspend))
      else GuardianAt(s, GFinally(false, true))
    case GSuspended(previous) =>
      if previous == 0 then GuardianWith(s, s.k.(phase := 2), GSignal) else GuardianAt(s, GFinally(true, true))
    case GSignal => GuardianWith(s, s.k.(ready := true), GWait)
    case GWait =>
      if !o.Ok? then GuardianAt(s, GTerminate)
      else if WriterGone(s) || s.k.release then GuardianAt(s, GFinally(true, true)) else Blocked
    case GTerminate => GuardianAt(s, if o.Ok? || WriterGone(s) then GConfirm else GFinally(true, false))
    case GConfirm =>
      if !o.Ok? then GuardianAt(s, GFinally(true, false))
      else if WriterGone(s) then GuardianAt(s, GFinally(true, true)) else Blocked
    case GFinally(suspended, safe) =>
      if suspended && (safe || WriterGone(s)) then GuardianWith(s, s.k.(phase := 3), GResume)
      else if !suspended then GuardianWith(s, s.k.(phase := -1), GLeave)
      else GuardianGivesUp(s)
    case GResume =>
      if o.Ok? && s.k.suspend > 0 then GuardianWith(s, Resumed(s.k), GRecord) else GuardianGivesUp(s)
    case GRecord => GuardianWith(s, s.k.(phase := 4), GLeave)
    case GLeave => GuardianWith(s, s.k.(ready := true), GExited)
    case GExited => Blocked
    case GDead => Blocked
  }

  function Step(s: State, a: Action): Next {
    match a
    case Writer(o) => WriterStep(s, o)
    case Guardian(o) => GuardianStep(s, o)
    case KillWriter =>
      if WriterGone(s) then Blocked
      else To(s.(w := s.w.(pc := WDead, leased := false, lost := FirstLoss(s.w.lost, s.w.pc))))
    case KillGuardian =>
      if s.g.pc.GNone? || GuardianGone(s) then Blocked
        else To(s.(g := GuardianSide(GDead, FirstLoss(s.g.lost, s.g.pc))))
  }

  /** The end of a run: actions that are not enabled are skipped. */
  function Run(s: State, schedule: seq<Action>): State
    decreases |schedule|
  {
    if schedule == [] then s
    else match Step(s, schedule[0])
      case To(t) => Run(t, schedule[1..])
      case Blocked => Run(s, schedule[1..])
  }

  // ---------- the inductive invariant ----------

  /** Nobody is inside the critical section any more, and nobody will enter it. */
  predicate Free(s: State) { WriterGone(s) || s.k.release }

  /** What a guardian that has left or died leaves behind in the phase word. */
  predicate Log(s: State) {
    && -1 <= s.k.phase <= 4
    && (s.k.phase <= 0 ==> s.k.increments == 0)
    && (s.k.phase == 2 ==> s.k.increments == 1)
    && (s.k.phase == 3 ==> s.k.increments == 1 && Free(s))
    && (s.k.phase == 4 ==> s.k.undone == 1)
    && (Outstanding(s.k) ==> Held(s.g))
  }

  predicate BeforeIntent(pc: GuardianPc) { pc.GNone? || pc.GVerify? || pc.GIntent? }

  predicate Suspending(pc: GuardianPc) {
    pc.GSignal? || pc.GWait? || pc.GTerminate? || pc.GConfirm? || (pc.GFinally? && pc.suspended)
  }

  predicate Leaving(pc: GuardianPc) { pc.GLeave? || pc.GExited? || pc.GDead? }

  /** The guardian's position against the kernel. */
  predicate GuardianInv(s: State) {
    && (BeforeIntent(s.g.pc) ==> s.k.phase == 0 && s.k.increments == 0)
    && (s.g.pc.GSuspend? ==> s.k.phase == 1 && s.k.increments == 0)
    && (s.g.pc.GSuspended? ==> s.k.phase == 1 && Outstanding(s.k) && s.g.pc.previous == 0)
    && (Suspending(s.g.pc) ==> s.k.phase == 2 && Outstanding(s.k))
    && (s.g.pc.GFinally? && s.g.pc.suspended && s.g.pc.safe ==> Free(s))
    && (s.g.pc.GFinally? && !s.g.pc.suspended ==> 0 <= s.k.phase <= 1 && s.k.increments == 0)
    && (s.g.pc.GResume? ==> s.k.phase == 3 && Outstanding(s.k) && Free(s))
    && (s.g.pc.GRecord? ==> s.k.phase == 3 && s.k.undone == 1 && Free(s))
    && (Leaving(s.g.pc) ==> Log(s))
  }

  predicate Inside(pc: WriterPc) { pc.WHold? || pc.WCheckPhase? || pc.WWrite? }

  /** The writer's position against the kernel. */
  predicate WriterInv(s: State) {
    && (Leasing(s.w.pc) || s.w.pc.WRelease? ==> !s.k.release)
    && (s.w.pc.WReadGuardianExit? || s.w.pc.WReadExclusive? || s.w.pc.WResume? ==> Outstanding(s.k))
    && (Inside(s.w.pc) ==> s.w.leased)
    && (s.w.leased ==> (Inside(s.w.pc) || s.w.pc.WRelease?) && s.w.handle && Outstanding(s.k))
    && (s.w.pc.WAwaitExit? || s.w.pc.WKill? || s.w.pc.WAwaitDeath? || Reconciling(s.w.pc) ==> s.w.handle && s.k.release)
    && (Reconciling(s.w.pc) ==> GuardianGone(s))
    && (s.w.pc.WBalance? && s.w.handle ==> s.k.release && GuardianGone(s) && s.k.suspend == 0)
    && (s.w.pc.WDone? ==> s.w.balanced)
    && (s.w.balanced ==> s.w.pc.WDone? || WriterOver(s.w.pc))
    && (s.w.balanced && s.w.handle ==> GuardianGone(s) && s.k.suspend == 0)
    && ((s.w.pc.WThrew? || WriterOver(s.w.pc)) && s.w.handle ==> (GuardianGone(s) && s.k.suspend == 0) || Forsaken(s.w))
  }

  /** The writer holds the guardian's process object, or no guardian was started, or the object was lost. */
  predicate HandleInv(s: State) {
    && (s.w.handle ==> !s.g.pc.GNone?)
    && (!s.w.handle && !s.g.pc.GNone? ==> Forsaken(s.w))
    && (s.w.pc.WConstruct? || s.w.pc.WLaunch? || s.w.pc.WRefused? ==> s.g.pc.GNone?)
    && (Leasing(s.w.pc) && !s.w.pc.WConstruct? && !s.w.pc.WLaunch? ==> s.w.handle)
  }

  predicate CountInv(s: State) {
    && s.k.suspend == s.k.increments - s.k.undone
    && 0 <= s.k.undone <= s.k.increments <= 1
    && (s.k.undone == 1 ==> Free(s))
  }

  /** While the writer can still recover, or once it never will, an increment its guardian ended with is there. */
  predicate LossInv(s: State) {
    && (s.g.lost.Some? ==> Leaving(s.g.pc))
    && (s.w.lost.Some? ==> !Leasing(s.w.pc) && (!s.w.handle || s.w.pc.WThrew? || WriterOver(s.w.pc)))
    && (Held(s.g) && (Forsaken(s.w) || BeforeRecovery(s.w.pc)) ==> Outstanding(s.k))
  }

  predicate Inv(s: State) {
    && CountInv(s)
    && GuardianInv(s)
    && WriterInv(s)
    && HandleInv(s)
    && LossInv(s)
  }

  lemma LeaseStepKeepsGuardianInv(s: State, o: Outcome)
    requires Inv(s) && Leasing(s.w.pc)
    ensures LeaseStep(s, o).To? ==> GuardianInv(LeaseStep(s, o).state) && HandleInv(LeaseStep(s, o).state)
  {
  }

  lemma LeaseStepKeepsWriterInv(s: State, o: Outcome)
    requires Inv(s) && Leasing(s.w.pc)
    ensures LeaseStep(s, o).To? ==> WriterInv(LeaseStep(s, o).state)
  {
  }

  lemma ReleaseStepKeepsGuardianInv(s: State, o: Outcome)
    requires Inv(s) && Releasing(s.w.pc)
    ensures ReleaseStep(s, o).To? ==> GuardianInv(ReleaseStep(s, o).state) && HandleInv(ReleaseStep(s, o).state)
  {
  }

  lemma ReleaseStepKeepsWriterInv(s: State, o: Outcome)
    requires Inv(s) && Releasing(s.w.pc)
    ensures ReleaseStep(s, o).To? ==> WriterInv(ReleaseStep(s, o).state)
  {
  }

  lemma ReconcileStepKeepsGuardianInv(s: State, o: Outcome)
    requires Inv(s) && Reconciling(s.w.pc)
    ensures ReconcileStep(s, o).To? ==> GuardianInv(ReconcileStep(s, o).state) && HandleInv(ReconcileStep(s, o).state)
  {
  }

  lemma ReconcileStepKeepsWriterInv(s: State, o: Outcome)
    requires Inv(s) && Reconciling(s.w.pc)
    ensures ReconcileStep(s, o).To? ==> WriterInv(ReconcileStep(s, o).state)
  {
  }

  lemma FinishStepKeepsGuardianInv(s: State, o: Outcome)
    requires Inv(s)
    ensures FinishStep(s, o).To? ==> GuardianInv(FinishStep(s, o).state) && HandleInv(FinishStep(s, o).state)
  {
  }

  lemma FinishStepKeepsWriterInv(s: State, o: Outcome)
    requires Inv(s)
    ensures FinishStep(s, o).To? ==> WriterInv(FinishStep(s, o).state)
  {
  }

  predicate Entering(pc: GuardianPc) { BeforeIntent(pc) || pc.GSuspend? || pc.GSuspended? || pc.GSignal? || pc.GWait? }

  lemma EnteringKeepsGuardianInv(s: State, o: Outcome)
    requires Inv(s) && Entering(s.g.pc)
    ensures GuardianStep(s, o).To? ==> GuardianInv(GuardianStep(s, o).state)
  {
  }

  lemma EndingKeepsGuardianInv(s: State, o: Outcome)
    requires Inv(s) && !Entering(s.g.pc)
    ensures GuardianStep(s, o).To? ==> GuardianInv(GuardianStep(s, o).state)
  {
  }

  lemma EnteringKeepsWriterInv(s: State, o: Outcome)
    requires Inv(s) && Entering(s.g.pc)
    ensures GuardianStep(s, o).To? ==> WriterInv(GuardianStep(s, o).state)
  {
  }

  lemma EndingKeepsWriterInv(s: State, o: Outcome)
    requires Inv(s) && !Entering(s.g.pc)
    ensures GuardianStep(s, o).To? ==> WriterInv(GuardianStep(s, o).state)
  {
  }

  lemma GuardianStepKeepsHandleInv(s: State, o: Outcome)
    requires Inv(s)
    ensures GuardianStep(s, o).To? ==> HandleInv(GuardianStep(s, o).state)
  {
  }

  lemma StepKeepsCountInv(s: State, a: Action)
    requires Inv(s)
    ensures Step(s, a).To? ==> CountInv(Step(s, a).state)
  {
  }

  lemma LeaseStepKeepsLossInv(s: State, o: Outcome)
    requires Inv(s) && Leasing(s.w.pc)
    ensures LeaseStep(s, o).To? ==> LossInv(LeaseStep(s, o).state)
  {
  }

  lemma ReleaseStepKeepsLossInv(s: State, o: Outcome)
    requires Inv(s) && Releasing(s.w.pc)
    ensures ReleaseStep(s, o).To? ==> LossInv(ReleaseStep(s, o).state)
  {
  }

  lemma ReconcileStepKeepsLossInv(s: State, o: Outcome)
    requires Inv(s) && Reconciling(s.w.pc)
    ensures ReconcileStep(s, o).To? ==> LossInv(ReconcileStep(s, o).state)
  {
  }

  lemma FinishStepKeepsLossInv(s: State, o: Outcome)
    requires Inv(s)
    ensures FinishStep(s, o).To? ==> LossInv(FinishStep(s, o).state)
  {
  }

  lemma GuardianStepKeepsLossInv(s: State, o: Outcome)
    requires Inv(s)
    ensures GuardianStep(s, o).To? ==> LossInv(GuardianStep(s, o).state)
  {
  }

  lemma WriterStepKeepsInv(s: State, o: Outcome)
    requires Inv(s)
    ensures WriterStep(s, o).To? ==> Inv(WriterStep(s, o).state)
  {
    StepKeepsCountInv(s, Writer(o));
    if Leasing(s.w.pc) {
      LeaseStepKeepsGuardianInv(s, o);
      LeaseStepKeepsWriterInv(s, o);
      LeaseStepKeepsLossInv(s, o);
    } else if Releasing(s.w.pc) {
      ReleaseStepKeepsGuardianInv(s, o);
      ReleaseStepKeepsWriterInv(s, o);
      ReleaseStepKeepsLossInv(s, o);
    } else if Reconciling(s.w.pc) {
      ReconcileStepKeepsGuardianInv(s, o);
      ReconcileStepKeepsWriterInv(s, o);
      ReconcileStepKeepsLossInv(s, o);
    } else {
      FinishStepKeepsGuardianInv(s, o);
      FinishStepKeepsWriterInv(s, o);
      FinishStepKeepsLossInv(s, o);
    }
  }

  /** Every action of either process, and every death, keeps the invariant. */
  lemma StepKeepsInv(s: State, a: Action)
    requires Inv(s)
    ensures Step(s, a).To? ==> Inv(Step(s, a).state)
  {
    match a
    case Writer(o) => WriterStepKeepsInv(s, o);
    case Guardian(o) =>
      StepKeepsCountInv(s, a);
      GuardianStepKeepsHandleInv(s, o);
      GuardianStepKeepsLossInv(s, o);
      if Entering(s.g.pc) {
        EnteringKeepsGuardianInv(s, o);
        EnteringKeepsWriterInv(s, o);
      } else {
        EndingKeepsGuardianInv(s, o);
        EndingKeepsWriterInv(s, o);
      }
    case KillWriter =>
    case KillGuardian =>
  }

  lemma {:induction false} RunKeepsInv(s: State, schedule: seq<Action>)
    requires Inv(s)
    ensures Inv(Run(s, schedule))
    decreases |schedule|
  {
    if schedule != [] {
      StepKeepsInv(s, schedule[0]);
      match Step(s, schedule[0])
      case To(t) => RunKeepsInv(t, schedule[1..]);
      case Blocked => RunKeepsInv(s, schedule[1..]);
    }
  }

  // ---------- what the invariant says about every run ----------

  function Reached(planned: nat, schedule: seq<Action>): State { Run(Initial(planned), schedule) }

  lemma ReachedInv(planned: nat, schedule: seq<Action>)
    ensures Inv(Reached(planned, schedule))
  {
    RunKeepsInv(Initial(planned), schedule);
  }

  /**
  From successful construction to Dispose's release the thread is suspended exactly once
  whatever the guardian does, dies of or times out on, and no action other than the
  writer's own release or death ends that.
  */
  lemma WritesAreUnderSuspension(planned: nat, schedule: seq<Action>, a: Action)
    ensures var s := Reached(planned, schedule);
            && (s.w.pc.WWrite? ==> s.w.leased)
            && (s.w.leased ==> s.k.suspend == 1 && !s.g.pc.GResume? && !WriterGone(s))
            && (s.w.leased && Step(s, a).To? && a != KillWriter && !s.w.pc.WRelease? ==>
                  Step(s, a).state.k.suspend == 1)
            && (s.w.leased && Step(s, a).To? && a.Guardian? ==>
                  Step(s, a).state.w.leased && Step(s, a).state.k.suspend == 1)
  {
    ReachedInv(planned, schedule);
    var s := Reached(planned, schedule);
    StepKeepsInv(s, a);
    if s.w.leased && Step(s, a).To? {
      SuspendChangesOnlyByResume(s, a);
    }
  }

  /** Only SuspendThread and the two ResumeThread calls move the count. */
  lemma SuspendChangesOnlyByResume(s: State, a: Action)
    requires Step(s, a).To?
    ensures s.g.pc.GSuspend? || s.g.pc.GResume? || s.w.pc.WResume? || Step(s, a).state.k.suspend == s.k.suspend
    ensures a.Guardian? ==> Step(s, a).state.w == s.w
    ensures Step(s, a).state.k.increments >= s.k.increments && Step(s, a).state.k.undone >= s.k.undone
  {
  }

  /** The moves the phase word can make. */
  predicate PhaseEdge(before: int, after: int) {
    || after == before
    || (0 <= before <= 3 && after == before + 1)
    || (0 <= before <= 1 && after == -1)
  }

  lemma PhaseMoves(s: State, a: Action)
    requires GuardianInv(s) && Step(s, a).To?
    ensures PhaseEdge(s.k.phase, Step(s, a).state.k.phase)
  {
  }

  /**
  The phase word is an exact recovery log: an increment that is still there shows as 1, 2 or
  3, the word only moves along its edges, and once the guardian is gone Dispose's test holds
  exactly when the increment is still there. Dispose's refusals never fire.
  */
  lemma PhaseIsRecoveryLog(planned: nat, schedule: seq<Action>, a: Action)
    ensures var s := Reached(planned, schedule);
            && (Outstanding(s.k) ==> 1 <= s.k.phase <= 3)
            && (GuardianGone(s) ==> ((1 <= s.k.phase <= 3 && s.k.suspend == 1) <==> Outstanding(s.k)))
            && (Step(s, a).To? ==> PhaseEdge(s.k.phase, Step(s, a).state.k.phase))
            && 0 <= s.k.suspend <= 1
            && (s.w.pc.WResume? ==> s.k.suspend == 1)
            && (s.w.pc.WBalance? && s.w.handle ==> s.k.suspend == 0)
            && (s.g.pc.GSuspended? ==> s.g.pc.previous == 0)
  {
    ReachedInv(planned, schedule);
    var s := Reached(planned, schedule);
    if Step(s, a).To? {
      PhaseMoves(s, a);
    }
  }

  /**
  The guardian's one increment is undone at most once, by either side: once it has been
  undone the count stays at zero for the rest of the run.
  */
  lemma {:induction false} UndoneForGood(s: State, schedule: seq<Action>)
    requires Inv(s) && s.k.undone == 1
    ensures Run(s, schedule).k.undone == 1 && Run(s, schedule).k.increments == 1 && Run(s, schedule).k.suspend == 0
    decreases |schedule|
  {
    if schedule != [] {
      match Step(s, schedule[0])
      case To(t) =>
        StepKeepsInv(s, schedule[0]);
        SuspendChangesOnlyByResume(s, schedule[0]);
        UndoneForGood(t, schedule[1..]);
      case Blocked => UndoneForGood(s, schedule[1..]);
    }
  }

  /**
  When both processes are over, the thread is still suspended if and only if the guardian ended while it
  held its increment and the writer was lost before it could recover it; else the count is back to zero.
  */
  lemma TerminalBalance(planned: nat, schedule: seq<Action>)
    requires Terminal(Reached(planned, schedule))
    ensures var s := Reached(planned, schedule);
            && (s.k.suspend == 1 <==> Held(s.g) && Forsaken(s.w))
            && (s.k.suspend == 0 <==> s.k.undone == s.k.increments)
            && 0 <= s.k.suspend <= 1
  {
    ReachedInv(planned, schedule);
  }

  /** Two deaths need not matter: where the guardian dies before its SuspendThread, nothing is left behind. */
  lemma BothDeadBeforeSuspending() returns (schedule: seq<Action>)
    ensures var s := Reached(0, schedule);
            Terminal(s) && s.w.pc.WDead? && s.g.pc.GDead? && s.k.suspend == 0
  {
    schedule := [Writer(Ok)] + ([Writer(Ok)] + ([KillGuardian] + ([KillWriter] + [])));
    var s := Initial(0);
    RunOne(s, Writer(Ok), [Writer(Ok)] + ([KillGuardian] + ([KillWriter] + [])));
    s := Step(s, Writer(Ok)).state;
    RunOne(s, Writer(Ok), [KillGuardian] + ([KillWriter] + []));
    s := Step(s, Writer(Ok)).state;
    RunOne(s, KillGuardian, [KillWriter] + []);
    RunOne(Step(s, KillGuardian).state, KillWriter, []);
  }

  /** Killed on both sides after the suspension, the thread stays suspended. */
  lemma BothDeadStaysSuspended() returns (schedule: seq<Action>)
    ensures Terminal(Reached(0, schedule)) && Reached(0, schedule).k.suspend == 1
  {
    var intent := State(Kernel(1, false, false, 0, 0, 0), WriterSide(WAwaitReady, true, false, false, None, 0),
                        GuardianSide(GSuspend, None));
    var deaths := SuspendedThenKilled(intent);
    schedule := [Writer(Ok)] + ([Writer(Ok)] + ([Guardian(Ok)] + ([Guardian(Ok)] + deaths)));
    var s := Initial(0);
    RunOne(s, Writer(Ok), [Writer(Ok)] + ([Guardian(Ok)] + ([Guardian(Ok)] + deaths)));
    s := Step(s, Writer(Ok)).state;
    RunOne(s, Writer(Ok), [Guardian(Ok)] + ([Guardian(Ok)] + deaths));
    s := Step(s, Writer(Ok)).state;
    RunOne(s, Guardian(Ok), [Guardian(Ok)] + deaths);
    s := Step(s, Guardian(Ok)).state;
    RunOne(s, Guardian(Ok), deaths);
    assert Step(s, Guardian(Ok)).state == intent;
  }

  lemma SuspendedThenKilled(s: State) returns (schedule: seq<Action>)
    requires s.g.pc.GSuspend? && !WriterGone(s)
    ensures Terminal(Run(s, schedule)) && Run(s, schedule).k.suspend == s.k.suspend + 1
  {
    schedule := [Guardian(Ok)] + ([KillGuardian] + ([KillWriter] + []));
    RunOne(s, Guardian(Ok), [KillGuardian] + ([KillWriter] + []));
    var t := Step(s, Guardian(Ok)).state;
    RunOne(t, KillGuardian, [KillWriter] + []);
    RunOne(Step(t, KillGuardian).state, KillWriter, []);
  }

  lemma {:induction false} RunOne(s: State, a: Action, rest: seq<Action>)
    requires Step(s, a).To?
    ensures Run(s, [a] + rest) == Run(Step(s, a).state, rest)
  {
    assert ([a] + rest)[1..] == rest;
  }

  /**
  A balance that Dispose confirmed is true and stays true, unless the guardian's process
  object was lost in the constructor: then the constructor threw and no lease exists.
  */
  lemma {:induction false} ConfirmedBalanceHolds(s: State, schedule: seq<Action>)
    requires Inv(s) && s.w.balanced && (s.w.handle || s.g.pc.GNone?)
    ensures Run(s, schedule).k.suspend == 0 && Run(s, schedule).w.balanced
    decreases |schedule|
  {
    if schedule != [] {
      match Step(s, schedule[0])
      case To(t) =>
        StepKeepsInv(s, schedule[0]);
        ConfirmedBalanceHolds(t, schedule[1..]);
      case Blocked => ConfirmedBalanceHolds(s, schedule[1..]);
    }
  }

  // ---------- no run is endless, and none is stuck ----------

  function WriterRank(w: WriterSide): nat {
    match w.pc
    case WConstruct => 16 + 3 * w.planned
    case WLaunch => 15 + 3 * w.planned
    case WAwaitReady => 14 + 3 * w.planned
    case WReadReadyPhase => 13 + 3 * w.planned
    case WReadGuardianExit => 12 + 3 * w.planned
    case WReadExclusive => 11 + 3 * w.planned
    case WHold(left) => 10 + 3 * left
    case WCheckPhase(left) => 12 + 3 * left
    case WWrite(left) => 11 + 3 * left
    case WRelease => 9
    case WAwaitExit => 8
    case WKill => 7
    case WAwaitDeath => 6
    case WReadProgress => 5
    case WReadOutstanding => 4
    case WResume => 3
    case WBalance => 2
    case WDone => 1
    case WThrew => 1
    case WRefused => 1
    case WExited => 0
    case WDead => 0
  }

  function GuardianRank(pc: GuardianPc): nat {
    match pc
    case GNone => 13
    case GVerify => 12
    case GIntent => 11
    case GSuspend => 10
    case GSuspended(_) => 9
    case GSignal => 8
    case GWait => 7
    case GTerminate => 6
    case GConfirm => 5
    case GFinally(_, _) => 4
    case GResume => 3
    case GRecord => 2
    case GLeave => 1
    case GExited => 0
    case GDead => 0
  }

  function Rank(s: State): nat { WriterRank(s.w) + GuardianRank(s.g.pc) }

  lemma ConstructStepShrinks(s: State, o: Outcome)
    requires HandleInv(s) && !s.w.pc.WHold? && !s.w.pc.WCheckPhase? && !s.w.pc.WWrite?
    ensures LeaseStep(s, o).To? ==> Rank(LeaseStep(s, o).state) < Rank(s)
  {
  }

  lemma HoldStepShrinks(s: State, o: Outcome)
    requires s.w.pc.WHold? || s.w.pc.WCheckPhase? || s.w.pc.WWrite?
    ensures LeaseStep(s, o).To? ==> Rank(LeaseStep(s, o).state) < Rank(s)
  {
  }

  lemma ReleaseStepShrinks(s: State, o: Outcome)
    requires Releasing(s.w.pc)
    ensures ReleaseStep(s, o).To? ==> Rank(ReleaseStep(s, o).state) < Rank(s)
  {
  }

  lemma ReconcileStepShrinks(s: State, o: Outcome)
    requires Reconciling(s.w.pc)
    ensures ReconcileStep(s, o).To? ==> Rank(ReconcileStep(s, o).state) < Rank(s)
  {
  }

  lemma FinishStepShrinks(s: State, o: Outcome)
    requires !Leasing(s.w.pc)
    ensures FinishStep(s, o).To? ==> Rank(FinishStep(s, o).state) < Rank(s)
  {
  }

  lemma GuardianStepShrinks(s: State, o: Outcome)
    ensures GuardianStep(s, o).To? ==> Rank(GuardianStep(s, o).state) < Rank(s)
  {
  }

  lemma StepShrinks(s: State, a: Action)
    requires HandleInv(s)
    ensures Step(s, a).To? ==> Rank(Step(s, a).state) < Rank(s)
  {
    match a
    case Writer(o) =>
      if Leasing(s.w.pc) {
        if s.w.pc.WHold? || s.w.pc.WCheckPhase? || s.w.pc.WWrite? {
          HoldStepShrinks(s, o);
        } else {
          ConstructStepShrinks(s, o);
        }
      } else if Releasing(s.w.pc) {
        ReleaseStepShrinks(s, o);
      } else if Reconciling(s.w.pc) {
        ReconcileStepShrinks(s, o);
      } else {
        FinishStepShrinks(s, o);
      }
    case Guardian(o) => GuardianStepShrinks(s, o);
    case KillWriter =>
    case KillGuardian =>
  }

  predicate AllEnabled(s: State, schedule: seq<Action>)
    decreases |schedule|
  {
    schedule == [] || (Step(s, schedule[0]).To? && AllEnabled(Step(s, schedule[0]).state, schedule[1..]))
  }

  /** No run takes more than Rank steps, so every process ends. */
  lemma {:induction false} RunsAreBounded(s: State, schedule: seq<Action>)
    requires Inv(s) && AllEnabled(s, schedule)
    ensures |schedule| <= Rank(s)
    decreases |schedule|
  {
    if schedule != [] {
      StepShrinks(s, schedule[0]);
      StepKeepsInv(s, schedule[0]);
      RunsAreBounded(Step(s, schedule[0]).state, schedule[1..]);
    }
  }

  /** Short of the end, one of the two processes can always take a step of its own. */
  lemma NeverStuck(s: State) returns (a: Action)
    requires Inv(s) && !Terminal(s)
    ensures Step(s, a).To? && !a.KillWriter? && !a.KillGuardian?
  {
    if s.g.pc.GNone? || GuardianGone(s) {
      a := if s.w.pc.WAwaitReady? then Writer(Timeout) else Writer(Ok);
    } else {
      a := if s.g.pc.GWait? || s.g.pc.GConfirm? then Guardian(Timeout) else Guardian(Ok);
    }
  }

  /** Left alone, every reachable state runs to an end; together with RunsAreBounded, every run does. */
  lemma {:induction false} RunsToTheEnd(s: State) returns (schedule: seq<Action>)
    requires Inv(s)
    ensures AllEnabled(s, schedule) && Terminal(Run(s, schedule))
    ensures forall a :: a in schedule ==> !a.KillWriter? && !a.KillGuardian?
    decreases Rank(s)
  {
    if Terminal(s) {
      schedule := [];
    } else {
      var a := NeverStuck(s);
      StepShrinks(s, a);
      StepKeepsInv(s, a);
      var rest := RunsToTheEnd(Step(s, a).state);
      schedule := [a] + rest;
      RunOne(s, a, rest);
      assert schedule[1..] == rest;
    }
  }

  // ---------- the same protocol on shared, mutable cells ----------

  /**
  The phase word, the two events, the kernel's count and both programs, updated in place one
  access at a time. `View` is the state above; each turn is proved to be one Step of it.
  */
  class Lease {
    var phase: int
    var ready: bool
    var release: bool
    var suspend: int
    var writer: WriterPc
    var handle: bool
    var balanced: bool
    const planned: nat
    var guardian: GuardianPc
    ghost var increments: int
    ghost var undone: int
    ghost var leased: bool
    ghost var writerLost: Option<WriterPc>
    ghost var guardianLost: Option<GuardianPc>

    ghost function View(): State
      reads this
    {
      State(Kernel(phase, ready, release, suspend, increments, undone),
            WriterSide(writer, handle, leased, balanced, writerLost, planned),
            GuardianSide(guardian, guardianLost))
    }

    /** `next` is where the method's own step leads; a blocked step leaves everything as it was. */
    ghost predicate Took(next: Next, ran: bool, before: State)
      reads this
    {
      match next
      case To(t) => ran && View() == t
      case Blocked => !ran && View() == before
    }

    constructor (planned: nat)
      ensures View() == Initial(planned)
    {
      this.planned := planned;
      phase, ready, release, suspend := 0, false, false, 0;
      writer, handle, balanced, guardian := WConstruct, false, false, GNone;
      increments, undone, leased, writerLost, guardianLost := 0, 0, false, None, None;
    }

    method LeaseTurn(o: Outcome) returns (ran: bool)
      requires Leasing(writer)
      modifies this
      ensures Took(LeaseStep(old(View()), o), ran, old(View()))
    {
      ran := true;
      match writer
      case WConstruct => writer := if o.Ok? && suspend == 0 then WLaunch else WRefused;
      case WLaunch =>
        if o.Ok? {
          handle, guardian, writer := true, GVerify, WAwaitReady;
        } else if o.HandleLost? {
          writerLost, guardian, writer := Some(WLaunch), GVerify, WRelease;
        } else {
          writer := WRelease;
        }
      case WAwaitReady =>
        if o.Timeout? {
          writer := WRelease;
        } else if ready {
          writer := WReadReadyPhase;
        } else {
          ran := false;
        }
      case WReadReadyPhase => writer := if phase == 2 then WReadGuardianExit else WRelease;
      case WReadGuardianExit =>
        writer := if guardian.GExited? || guardian.GDead? then WRelease else WReadExclusive;
      case WReadExclusive =>
        if o.Ok? && suspend == 1 {
          writer, leased := WHold(planned), true;
        } else {
          writer := WRelease;
        }
      case WHold(left) =>
        writer := if !o.Ok? || left == 0 || guardian.GExited? || guardian.GDead? then WRelease
                  else WCheckPhase(left - 1);
      case WCheckPhase(left) => writer := if phase == 2 then WWrite(left) else WRelease;
      case WWrite(left) => writer := if o.Ok? then WHold(left) else WRelease;
    }

    method ReleaseTurn(o: Outcome) returns (ran: bool)
      requires Releasing(writer)
      modifies this
      ensures Took(ReleaseStep(old(View()), o), ran, old(View()))
    {
      ran := true;
      if writer.WRelease? {
        leased := false;
        if handle {
          release, writer := true, WAwaitExit;
        } else {
          writer := WBalance;
        }
      } else if writer.WKill? {
        if o.Ok? {
          writer := WAwaitDeath;
        } else {
          writerLost, writer := FirstLoss(writerLost, writer), WThrew;
        }
      } else if writer.WAwaitExit? && o.Timeout? {
        writer := WKill;
      } else if guardian.GExited? || guardian.GDead? {
        writer := WReadProgress;
      } else {
        ran := false;
      }
    }

    method DisposeTurn(o: Outcome) returns (ran: bool)
      requires !Leasing(writer)
      modifies this
      ensures Took(WriterStep(old(View()), o), ran, old(View()))
    {
      if Releasing(writer) {
        ran := ReleaseTurn(o);
        return;
      }
      ran := true;
      if Reconciling(writer) {
        ReconcileTurn(o);
      } else if writer.WBalance? {
        if o.Ok? && suspend == 0 {
          balanced, writer := true, WDone;
        } else {
          writer := WThrew;
        }
      } else if writer.WExited? || writer.WDead? {
        ran := false;
      } else {
        writer := WExited;
      }
    }

    method ReconcileTurn(o: Outcome)
      requires Reconciling(writer)
      modifies this
      ensures View() == ReconcileStep(old(View()), o).state
    {
      if writer.WReadProgress? {
        writer := if 1 <= phase <= 3 then WReadOutstanding else WBalance;
      } else if writer.WReadOutstanding? {
        if !o.Ok? || suspend > 1 {
          writerLost, writer := FirstLoss(writerLost, writer), WThrew;
        } else {
          writer := if suspend == 1 then WResume else WBalance;
        }
      } else if !o.Ok? || suspend <= 0 {
        writerLost, writer := FirstLoss(writerLost, writer), WThrew;
      } else {
        var previous := suspend;
        suspend, undone := suspend - 1, undone + 1;
        if previous == 1 {
          writer := WBalance;
        } else {
          writerLost, writer := FirstLoss(writerLost, writer), WThrew;
        }
      }
    }

    /** RunGuardian up to its wait. */
    method EnterTurn(o: Outcome) returns (ran: bool)
      requires Entering(guardian)
      modifies this
      ensures Took(GuardianStep(old(View()), o), ran, old(View()))
    {
      ran := true;
      match guardian
      case GNone => ran := false;
      case GVerify => guardian := if o.Ok? && suspend == 0 then GIntent else GFinally(false, true);
      case GIntent => phase, guardian := 1, GSuspend;
      case GSuspend =>
        if o.Ok? {
          guardian, suspend, increments := GSuspended(suspend), suspend + 1, increments + 1;
        } else {
          guardian := GFinally(false, true);
        }
      case GSuspended(previous) =>
        if previous == 0 {
          phase, guardian := 2, GSignal;
        } else {
          guardian := GFinally(true, true);
        }
      case GSignal => ready, guardian := true, GWait;
      case GWait =>
        if !o.Ok? {
          guardian := GTerminate;
        } else if writer.WExited? || writer.WDead? || release {
          guardian := GFinally(true, true);
        } else {
          ran := false;
        }
    }

    /** RunGuardian after its wait, with its finally block. */
    method LeaveTurn(o: Outcome) returns (ran: bool)
      requires !Entering(guardian)
      modifies this
      ensures Took(GuardianStep(old(View()), o), ran, old(View()))
    {
      ran := true;
      match guardian
      case GTerminate =>
        guardian := if o.Ok? || writer.WExited? || writer.WDead? then GConfirm else GFinally(true, false);
      case GConfirm =>
        if !o.Ok? {
          guardian := GFinally(true, false);
        } else if writer.WExited? || writer.WDead? {
          guardian := GFinally(true, true);
        } else {
          ran := false;
        }
      case GFinally(suspended, safe) =>
        if suspended && (safe || writer.WExited? || writer.WDead?) {
          phase, guardian := 3, GResume;
        } else if !suspended {
          phase, guardian := -1, GLeave;
        } else {
          guardianLost, guardian := Some(guardian), GLeave;
        }
      case GResume =>
        if o.Ok? && suspend > 0 {
          suspend, undone, guardian := suspend - 1, undone + 1, GRecord;
        } else {
          guardianLost, guardian := Some(guardian), GLeave;
        }
      case GRecord => phase, guardian := 4, GLeave;
      case GLeave => ready, guardian := true, GExited;
      case _ => ran := false;
    }

    method GuardianTurn(o: Outcome) returns (ran: bool)
      modifies this
      ensures Took(GuardianStep(old(View()), o), ran, old(View()))
    {
      if Entering(guardian) {
        ran := EnterTurn(o);
      } else {
        ran := LeaveTurn(o);
      }
    }

    method Perform(a: Action) returns (ran: bool)
      modifies this
      ensures Took(Step(old(View()), a), ran, old(View()))
    {
      match a
      case Writer(o) =>
        if Leasing(writer) {
          ran := LeaseTurn(o);
        } else {
          ran := DisposeTurn(o);
        }
      case Guardian(o) => ran := GuardianTurn(o);
      case KillWriter =>
        ran := !writer.WExited? && !writer.WDead?;
        if ran {
          writer, leased, writerLost := WDead, false, FirstLoss(writerLost, writer);
        }
      case KillGuardian =>
        ran := !guardian.GNone? && !guardian.GExited? && !guardian.GDead?;
        if ran {
          guardian, guardianLost := GDead, FirstLoss(guardianLost, guardian);
        }
    }

    /** Any interleaving: the cells follow Run, and the invariant holds at every step of the way. */
    method Play(schedule: seq<Action>)
      requires Inv(View())
      modifies this
      ensures View() == Run(old(View()), schedule) && Inv(View())
    {
      var i := 0;
      ghost var start := View();
      while i < |schedule|
        invariant 0 <= i <= |schedule|
        invariant Inv(View())
        invariant Run(View(), schedule[i..]) == Run(start, schedule)
      {
        StepKeepsInv(View(), schedule[i]);
        assert schedule[i..][1..] == schedule[i + 1..];
        var ran := Perform(schedule[i]);
        i := i + 1;
      }
    }
  }
}
