# Verified model of the workspace adapters and their acceptance checks

This project models, in Dafny, the parts of the repository where correctness depends on state that
changes step by step, and proves what those parts are for. `dafny verify dfyconfig.toml` checks all of it.

- **UiLease** is the two-process protocol under which bytes of another process are changed while its
  UI thread is suspended. Writer and guardian have one program point per access to shared state; either
  may be killed between any two steps, any wait may time out, and the system calls may fail. One invariant
  holds in every interleaving; from it follow exclusivity, the recovery log, the balance at the end and
  termination. The class `Lease` is the same protocol on cells updated in place, proved step by step
  against the transition relation. **LeaseOutcomes** is what the protocol achieves: without faults the lease is
  obtained and every write made, and each side alone can give the thread back.
- **StateHandleLease** is the other mechanism of the same lease: the suspension belongs to a kernel object of
  the writer's own process, and a timer ends that process when it takes too long.
- **Selection** is the whole operation that runs under that lease: membership, verify, write, read back, second
  snapshot, report. **SelectionMeaning** tells byte by byte when it applies and what it leaves. **SpreadText** is the
  page-aware reader of foreign strings, and **SpreadMeaning** the bytes and the UTF-16 that its strings are.
- **WorkspaceTasks** has the task inventories and the before/after checks that stand in for a bijection;
  **AuthoredRows** the loop that makes a member table equal to a request; **Pairing** the lemmas that say
  what "exactly one match, none used twice, equal counts" amounts to. **TaskMeaning** tells field by field which
  trees, selections and registrations the checks let through.
- **ValidationRun** is the build, check and save run with its one export gate at the end, and **ValidationLog**
  the limits on rows and events that every step of it may run into; **ValidationMeaning** tells in rows, polls and
  numbers what an exported run has observed. **SfcGraph** is the
  self-describing body whose graph is replaced; **CodeRecords** the records with their length at both ends.
- **GateOracle**, **AlarmOracle**, **EffectTraces**, **Tolerance** and **DirectVerdict** are the acceptance
  evaluators of the measurement scripts. **LadderLowering** is the lowering of rows of contacts and parallel
  blocks into the programs that the gate check reads, proved against the value of the row.
- **PrunedWalk** and **SourcePolicy** are the source export, and **SourceMeaning** says rule by rule which files it
  yields. **Basics** has the types the others share.

The modules named `…Meaning` and `LeaseOutcomes` state their results without the predicates that the methods are
specified with, in bytes, fields, rows and literal numbers, so that a wrong rule in such a predicate would contradict
them; the other modules have lemmas of the same kind (`Tolerance.PassIsSound`, `AlarmOracle.ExpectedPlainly`,
`GateOracle.VerdictMeans`, `LadderLowering.RowPlainly`, `SfcGraph.AcceptsMeans`, `EffectTraces.EntryMeans`).

Answers of the vendor's software, process deaths, timeouts, failing calls, the instruction reference and the
platform's case folding are parameters or arbitrary choices throughout.

Where the code and what it promises differ:

- A spliced SFC body with an unchanged graph is the old body only if the body's first word is its length.
  The extent checks never read that word (`SfcGraph.UnchangedGraphIsIdentity`, `SfcGraph.AcceptedYetChanged`).
- The pruned walk and the plain filter differ on files whose names are only backslashes and dots, directly or
  indirectly inside a folder that a private prefix names whole (`SourcePolicy.WalkIsFilter`,
  `SourcePolicy.EscapingFile`).
- The comment at scripts/benchmark_direct_generation.py:306-308 says that an unknown write scope is never turned
  into a fault. A report of it can be missed once the list of reasons has outgrown the scanner's list
  (`DirectVerdict.ScopeIsTakenUp`, `DirectVerdict.MissedScope`).
- A contact program can pass the gate check although it has no value. Where the allowed gate is a load, a passing
  program has that gate's value if and only if it begins with a load itself, or finds something on the stack
  (`GateOracle.PassingGateIsEquivalent`). A row whose first element is a block without contacts is lowered to a
  program that begins with a join: its value is lost (`LadderLowering.LoweringKeepsMeaning`). One such row by itself
  never passes with a load, and a single row that passes so has the gate's value (`LadderLowering.PassingRow`); but the
  check lists the code of all rows one after the other, and two rows can pass together and be stuck
  (`LadderLowering.StuckProgramPasses`).
- The lease's two processes can both be killed and leave the thread suspended: at the end of a run it is suspended if
  and only if the guardian was lost between its SuspendThread and its ResumeThread and the writer no later than at its
  own recovering ResumeThread, or had lost the guardian it started (`UiLease.TerminalBalance`,
  `UiLease.BothDeadStaysSuspended`). Two deaths that come before the SuspendThread do no harm
  (`UiLease.BothDeadBeforeSuspending`).

## Model

| member | source | states |
|---|---|---|
| UiLease.StepKeepsInv | native_adapters/NativeUiLease.cs:75-286 | one invariant (count, guardian, writer, process object) survives every step of either process, every kill, timeout and failing call |
| UiLease.ReachedInv | native_adapters/NativeUiLease.cs:75-286 | the invariant holds in every state of every run from the start |
| UiLease.WritesAreUnderSuspension | native_adapters/NativeUiLease.cs:145-286 | from successful construction to Dispose's release the suspend count is 1 and the guardian is not about to resume, so every marker write happens under suspension; no step but the writer's own release or death ends that, on the timeout path neither |
| UiLease.PhaseIsRecoveryLog | native_adapters/NativeUiLease.cs:205-280 | an outstanding increment shows as phase 1, 2 or 3; the word moves only by one along 0,1,2,3,4 or from 0 or 1 to -1; with the guardian gone, "phase in 1..3 and count 1" holds exactly when the increment is outstanding; Dispose's refusals never fire |
| UiLease.UndoneForGood | native_adapters/NativeUiLease.cs:213-218 | once the increment has been undone, by either side, it is never undone again and the count stays 0 |
| UiLease.TerminalBalance | native_adapters/NativeUiLease.cs:190-284 | when both processes are over, the count is 1 if and only if the guardian ended while it held its increment and the writer was lost before it could recover it; otherwise it is 0 and every increment has been undone |
| UiLease.BothDeadStaysSuspended | native_adapters/NativeUiLease.cs:253-284 | a run in which both are killed after the suspension leaves the thread suspended |
| UiLease.BothDeadBeforeSuspending | native_adapters/NativeUiLease.cs:253-284 | a run in which both are killed before the suspension ends with count 0 |
| UiLease.ConfirmedBalanceHolds | native_adapters/NativeUiLease.cs:220-221 | a balance that Dispose confirmed is true and stays true |
| UiLease.RunsAreBounded | native_adapters/NativeUiLease.cs:75-286 | no run has more enabled steps than a rank computed from its state |
| UiLease.RunsToTheEnd | native_adapters/NativeUiLease.cs:75-286 | from every reachable state the two processes, left alone, come to an end |
| UiLease.Lease.constructor | native_adapters/NativeUiLease.cs:75-80 | the cells before anything has happened |
| UiLease.Lease.LeaseTurn | native_adapters/NativeUiLease.cs:75-188 | the constructor's and the critical section's accesses, in place, are exactly the lease steps |
| UiLease.Lease.ReleaseTurn | native_adapters/NativeUiLease.cs:205-211 | handing the thread back and seeing the guardian out, in place |
| UiLease.Lease.DisposeTurn | native_adapters/NativeUiLease.cs:190-231 | Dispose's accesses, in place, are exactly the writer's remaining steps |
| UiLease.Lease.ReconcileTurn | native_adapters/NativeUiLease.cs:212-218 | the recovery of an abandoned increment, in place |
| UiLease.Lease.EnterTurn | native_adapters/NativeUiLease.cs:233-262 | RunGuardian up to and with its wait, in place |
| UiLease.Lease.LeaveTurn | native_adapters/NativeUiLease.cs:261-286 | RunGuardian after its wait, with its finally block, in place |
| UiLease.Lease.GuardianTurn | native_adapters/NativeUiLease.cs:233-286 | RunGuardian's accesses including its finally block, in place, are exactly the guardian steps |
| UiLease.Lease.Perform | native_adapters/NativeUiLease.cs:75-286 | one action of either process or one kill is one step of the relation |
| UiLease.Lease.Play | native_adapters/NativeUiLease.cs:75-286 | any interleaving of the cells is a run of the relation, with the invariant at its end |
| LeaseOutcomes.FaultFreeRun | native_adapters/NativeUiLease.cs:75-286 | every run in which no call fails, nothing times out and nobody is killed, and in which both processes come to their end, obtained the lease, made exactly the planned number of marker writes, suspended and resumed the thread once, and confirmed the balance |
| LeaseOutcomes.FaultFreeRunExists | native_adapters/NativeUiLease.cs:75-286 | there is such a run for every number of planned writes |
| LeaseOutcomes.NeverLeasedAgain | native_adapters/NativeUiLease.cs:145-231 | a lease that was given back or refused is not obtained later |
| LeaseOutcomes.NoLeaseFromTheDead | native_adapters/NativeUiLease.cs:173-188 | with the guardian gone before the writer has looked at it, no lease is obtained and nothing is written |
| LeaseOutcomes.FailedConstructionIsFinal | native_adapters/NativeUiLease.cs:145-188 | after a timeout, or a first or exclusive check that fails, no lease is obtained and nothing is written |
| LeaseOutcomes.FailedWriteIsLast | native_adapters/NativeUiLease.cs:106-113 | a check or a write that fails is the last: nothing is written after it |
| LeaseOutcomes.WritesEndWithGuardian | native_adapters/NativeUiLease.cs:106-113 | after the guardian's end at most the one write is made whose check had passed already |
| LeaseOutcomes.UnharmedGuardianResumes | native_adapters/NativeUiLease.cs:233-286 | whatever becomes of the writer, a guardian that is not killed and whose calls succeed from the end of its wait on, which may itself fail or time out, leaves the thread running |
| LeaseOutcomes.UnharmedWriterRecovers | native_adapters/NativeUiLease.cs:190-231 | whatever becomes of the guardian, a writer that is not killed and whose recovering calls succeed leaves the thread running, and has confirmed it |
| StateHandleLease.StepKeepsInv | native_adapters/NativeUiLease.cs:75-231 | one invariant (handle, count, flag, deadline) survives every step of the writer, the timer, its callback and a kill |
| StateHandleLease.WritesAreUnderSuspension | native_adapters/NativeUiLease.cs:93-113 | in the critical section the count is 1 and the deadline is running or has passed; a suspension ends only with the process or in Dispose after `disposed` is set |
| StateHandleLease.TerminalBalance | native_adapters/NativeUiLease.cs:96-98 | however the process ends, the count is 0, without any condition; a confirmed balance is true |
| StateHandleLease.DisposeWinsTheRace | native_adapters/NativeUiLease.cs:96-101 | once `disposed` is set, the rest of every run ends as the same run without deadline and callback does, even if the callback had already begun: no callback stops the writer or resumes the thread any more |
| StateHandleLease.HungWriterIsStopped | native_adapters/NativeUiLease.cs:96-101 | a writer that makes no progress in the critical section is ended by deadline and callback, and the thread runs again |
| StateHandleLease.FaultFreeRun | native_adapters/NativeUiLease.cs:75-231 | every run in which no call fails and no callback gets the lock makes exactly the planned number of writes, closes the handle and confirms the balance |
| StateHandleLease.FaultFreeRunExists | native_adapters/NativeUiLease.cs:75-231 | and there is such a run |
| StateHandleLease.FailedCallIsLast | native_adapters/NativeUiLease.cs:75-113 | after a call of the constructor, a check or a write that fails, no marker is written any more |
| StateHandleLease.Lease.constructor | native_adapters/NativeUiLease.cs:75-80 | the cells before anything has happened |
| StateHandleLease.Lease.LeaseTurn | native_adapters/NativeUiLease.cs:75-113 | the constructor's and the critical section's accesses, in place, are exactly the writer's steps |
| StateHandleLease.Lease.DisposeTurn | native_adapters/NativeUiLease.cs:190-221 | Dispose's accesses, in place, are exactly the writer's remaining steps |
| StateHandleLease.Lease.TimerTurn | native_adapters/NativeUiLease.cs:99-101 | the callback under the lock, in place |
| StateHandleLease.Lease.Perform | native_adapters/NativeUiLease.cs:75-231 | one action is one step of the relation and keeps the invariant |
| Selection.Target.Read | native_adapters/ActiveDocument.cs:76-84 | reads exactly the bytes of a readable range, refuses any other |
| Selection.Target.SelectMarker | native_adapters/ActiveDocument.cs:86-93 | succeeds only if both marker bytes are as expected; a failing write leaves at most those two bytes changed |
| Selection.Target.VerifyMembership | native_adapters/ActiveDocument.cs:443-475 | accepts exactly if every chain of pointers still ends in the word the snapshot saw and the editor is in its table, which is readable to its end |
| Selection.Target.VerifyAll | native_adapters/ActiveDocument.cs:524-534 | accepts only if every record is the snapshot's, and collects exactly the elements whose markers differ |
| Selection.Target.WriteMarkers | native_adapters/ActiveDocument.cs:535-541 | on success exactly the collected markers are painted; on failure only marker bytes moved; nothing moved unless a mutation may have started |
| Selection.Target.ReadBack | native_adapters/ActiveDocument.cs:542-550 | accepts only if every record is its old self with the wanted markers |
| Selection.Target.WriteSelection | native_adapters/ActiveDocument.cs:524-550 | the three loops: accepted only on verified records, which then all carry the wanted markers, with as many writes as records that differed; at any end nothing but differing markers moved, and nothing at all unless a mutation may have started |
| Selection.Target.CheckShown | native_adapters/ActiveDocument.cs:564-571 | accepts exactly a second snapshot that shows the requested element alone |
| Selection.Target.SelectElement | native_adapters/ActiveDocument.cs:476-571 | success: the request fits the snapshot, the snapshot was still true of the memory, every record equals its pre-image except the two marker bytes, and the second snapshot shows the element alone; a memory without the expected bytes at the requested element: refused, nothing moved; any end: no other byte moved; disjoint records and no fault: succeeds exactly under these conditions |
| Selection.Target.Handle | native_adapters/ActiveDocument.cs:572-594 | what is reported is true of the memory: "failed" means that no byte moved, an applied selection says that it wrote exactly when the memory has changed; a request that does not fit, a memory without the expected bytes at the requested element or a snapshot that is no longer true is reported as failed |
| Selection.SelectionShows | native_adapters/ActiveDocument.cs:562-571 | a second snapshot of the records as the writes left them shows the requested element alone, so the last check only fails if something else has moved |
| Selection.RepeatDiffersNowhere | native_adapters/ActiveDocument.cs:531-533 | after a selection the same selection has nothing to write |
| Selection.PaintedIsMarked | native_adapters/ActiveDocument.cs:535-550 | with disjoint records the painted memory holds every record with the wanted markers |
| Selection.MovedCellsAreMarkers | native_adapters/ActiveDocument.cs:535-541 | bytes that move are markers of elements that differed, with the wanted value |
| SelectionMeaning.StandsPlainly | native_adapters/ActiveDocument.cs:443-534 | the conditions of a selection, byte by byte: index and expected record of the request, no junctions, at most 4096 elements, every record as it was with markers 0 or 1, every chain of pointers by the words on its way, the editor in its table |
| SelectionMeaning.SelectedPlainly | native_adapters/ActiveDocument.cs:535-550 | what a selection leaves: both marker bytes 1 on the requested node or wire, 0 on every other element, and every byte that is no marker as before |
| SelectionMeaning.WayIsFollowed | native_adapters/ActiveDocument.cs:443-460 | following a chain of offsets gives a word exactly if there are words on the way, each spelt in memory at an offset from the one before, that end in it |
| SpreadText.ChunkStaysInPage | native_adapters/ActiveDocument.cs:261 | a chunk is even, not empty and inside one 4096-byte page |
| SpreadText.ReadChunk | native_adapters/ActiveDocument.cs:262-273 | finds the first zero unit of the chunk or appends all its units |
| SpreadText.ReadBlock | native_adapters/ActiveDocument.cs:261-273 | one chunk: the string ends in it with the right result, cannot be read on, or its units are taken over |
| SpreadText.ReadText | native_adapters/ActiveDocument.cs:258-275 | the result is exactly the units before the first zero unit if and only if that is within reach; no read crosses a page or lies beyond the terminator's page |
| SpreadText.PromisedLength | native_adapters/ActiveDocument.cs:259-261 | every readable string of up to 1023*128 units is within reach, wherever it starts |
| SpreadText.ReadCell | native_adapters/ActiveDocument.cs:249-276 | which records are empty, a number in its decimal spelling, a text or refused, and how the count of characters grows |
| SpreadText.DecimalIsRead | native_adapters/ActiveDocument.cs:254 | the decimal spelling reads back as the value, with a minus sign exactly on negative ones |
| SpreadMeaning.EncodedIsRead | native_adapters/ActiveDocument.cs:262-273 | the units read are exactly those whose bytes lie in memory, little byte first and none zero, up to the first zero unit |
| SpreadMeaning.WellFormedIsText | native_adapters/ActiveDocument.cs:269 | the units a strict decoder takes are exactly the UTF-16 of some sequence of scalar values |
| SpreadMeaning.LabelMeans | native_adapters/ActiveDocument.cs:255-276 | a cell is a label exactly if the UTF-16 of some text lies at its address, within 262144 bytes from the last multiple of 256, on pages that are there, and within 4194304 characters; its units are that text's |
| SpreadMeaning.ResultMeans | native_adapters/ActiveDocument.cs:258-275 | where such a string lies the reader gives it, or says that there is too much text |
| SpreadMeaning.NumberIsRead | native_adapters/ActiveDocument.cs:254 | the number of a cell is bytes 2 to 5 in two's complement, little byte first |
| WorkspaceTasks.ReadRows | native_adapters/WorkspaceTasks.cs:70-79 | reads the rows of a task, or refuses exactly when an element is of another kind or parent, or a line is below 1 or repeated |
| WorkspaceTasks.TaskInventories | native_adapters/WorkspaceTasks.cs:45-86 | the inventory is the concatenation, over the resources in order, of their children in order, each once per child with what the tree says about it; refused exactly when some element is of another kind or parent or a line is not usable |
| WorkspaceTasks.TreeListsChildren | native_adapters/WorkspaceTasks.cs:45-86 | the tasks of that inventory, in order, are the children of the resources; each stands under its own resource, with distinct lines |
| TaskMeaning.TreeIsRead | native_adapters/WorkspaceTasks.cs:45-86 | an inventory is read exactly if the tree has the kinds 7, 8, 10 and 12 and the parents in their places and each task lines of its own from 1 up; every task then says, field by field and row by row, what the tree says |
| WorkspaceTasks.VerifyTaskSelection | native_adapters/WorkspaceTasks.cs:128-156 | the loop accepts exactly when each expected task has one unused match with its settings and programs |
| WorkspaceTasks.VerifyPrograms | native_adapters/WorkspaceTasks.cs:143-154 | the row loop accepts exactly when each program has one unused row and the counts agree |
| WorkspaceTasks.ProgramsArePermutation | native_adapters/WorkspaceTasks.cs:143-154 | with distinct lines the row loop accepts exactly the permutations |
| WorkspaceTasks.SelectionIsPermutation | native_adapters/WorkspaceTasks.cs:128-156 | the selection is accepted if and only if it is a permutation of the inventory with distinct keys, equal settings and permuted programs |
| TaskMeaning.SelectionPlainly | native_adapters/WorkspaceTasks.cs:128-156 | a selection is accepted exactly if there are as many tasks as expected, none is expected twice, and each is there with these names, settings and rows |
| WorkspaceTasks.VerifyOldTasks | native_adapters/WorkspaceTasks.cs:225-243 | the loop accepts exactly when every old task is found once, unchanged |
| WorkspaceTasks.OldTasksKeptIsSame | native_adapters/WorkspaceTasks.cs:225-243 | between inventories of equal size that is equality up to order |
| WorkspaceTasks.VerifyBinding | native_adapters/WorkspaceTasks.cs:383-401 | the inline check of a registration, one old task at a time |
| WorkspaceTasks.BindingIsAppend | native_adapters/WorkspaceTasks.cs:383-401 | that check accepts exactly the old inventory plus the one requested row |
| WorkspaceTasks.VerifyAppend | native_adapters/WorkspaceSourceSave.cs:806-815 | find the added row, take it out, compare the rest |
| WorkspaceTasks.AppendIsAppend | native_adapters/WorkspaceSourceSave.cs:806-815 | this accepts exactly the old inventory plus the one requested row as well |
| WorkspaceTasks.VerifiersAgree | native_adapters/WorkspaceSourceSave.cs:805-815 | with distinct task identities the two verifiers accept the same inventories |
| WorkspaceTasks.ByLineSorts | native_adapters/WorkspaceTasks.cs:366 | rows with distinct lines come out in strictly increasing lines |
| WorkspaceTasks.AppendKeepsOrder | native_adapters/WorkspaceTasks.cs:366-400 | a row on a later line leaves the order of the others and stands last |
| WorkspaceTasks.IsRegistered | native_adapters/WorkspaceTasks.cs:370-373 | finds a program of that name, ignoring case, in any task |
| WorkspaceTasks.LastLine | native_adapters/WorkspaceTasks.cs:374 | the largest line of the task, or 0 |
| WorkspaceTasks.Register | native_adapters/WorkspaceTasks.cs:361-401 | succeeds exactly when every check on selection, target, order, name, line and after-inventory holds |
| WorkspaceTasks.BindProgramTask | native_adapters/WorkspaceTasks.cs:339-410 | the registration between its two checks of the program units: succeeds exactly when the units are as listed, the target is a program with the expected body, the registration succeeds, and afterwards the same children and bodies are there |
| WorkspaceTasks.VerifyUnits | native_adapters/WorkspaceTasks.cs:339-353 | accepts exactly if every unit is as listed, is a child of the collection, none is listed twice and their number is the number of children |
| WorkspaceTasks.VerifyUnitsAfter | native_adapters/WorkspaceTasks.cs:402-410 | accepts exactly if there are as many children as before, every old one is among them, and every body is as listed |
| WorkspaceTasks.UnitsAreTheSame | native_adapters/WorkspaceTasks.cs:339-410 | with both checks the collection holds exactly the listed units, each once, before and after, up to order, with the same bodies; memberships and counts alone are enough for that |
| WorkspaceTasks.BindToTask | native_adapters/WorkspaceTasks.cs:374-401 | the line is the largest plus one, refused at the maximum, and the after-inventory is checked for it |
| WorkspaceTasks.SelectionNamesDistinct | native_adapters/WorkspaceTasks.cs:128-156 | an accepted selection makes the actual tasks' names distinct |
| WorkspaceTasks.BindingAddsOneRow | native_adapters/WorkspaceTasks.cs:361-401 | after a successful registration the inventory is the old one plus exactly that row, lines stay distinct, and the task's programs are the old ones in order with the new one last; object identities are not assumed distinct |
| TaskMeaning.BindingPlainly | native_adapters/WorkspaceTasks.cs:361-401 | a registration passes exactly if the selection is as expected, the name is new ignoring case, the target's programs by line are the expected ones, the line is the next one and at most 2147483647, and afterwards every task is the old one in every field with its rows, the target with the new row besides |
| TaskMeaning.SameIsOneRowMore | native_adapters/WorkspaceTasks.cs:383-401 | the old inventory plus one row, as a permutation, is that: the same tasks one for one, field by field |
| TaskMeaning.UnitsPlainly | native_adapters/WorkspaceTasks.cs:339-410 | the two checks of the units pass exactly if each is as listed and still so, is a child before and after, none is listed twice, and the three counts agree |
| TaskMeaning.ProgramIsBound | native_adapters/WorkspaceTasks.cs:339-410 | the whole operation binds exactly under these conditions, on a target of kind 0x01000000, and gives the line the row was made with |
| AuthoredRows.Table.Existing | native_adapters/WorkspaceSourceSave.cs:756-762 | on any table: indexes the members by folded name, or refuses exactly when one is of another kind, has no name, or two names agree ignoring case |
| AuthoredRows.Table.PlaceRows | native_adapters/WorkspaceSourceSave.cs:763-779 | every row goes into the member that had its name or into a new one, with no clash of names at any step; refused exactly on a repeated name |
| AuthoredRows.Table.RemoveOthers | native_adapters/WorkspaceSourceSave.cs:780-781 | exactly the old members without a row are deleted |
| AuthoredRows.Table.Reconcile | native_adapters/WorkspaceSourceSave.cs:753-783 | on any table: succeeds exactly if its members are of the kind, named and distinct ignoring case and the rows are distinct; then the table is exactly the request; a table it refuses is left alone; the final count check never fires |
| AuthoredRows.ReconciledMembers | native_adapters/WorkspaceSourceSave.cs:753-783 | the members are the rows' one for one, matched ignoring case: old ones keep their identity under the requested spelling, the others are gone; all data is the row's, except that a member of a structure (kind 20) keeps the class code it had while a label (kind 30) takes the row's |
| ValidationLog.RetainReport | native_adapters/WorkspaceValidation.cs:55-63 | one more row is retained exactly when the run's rows and their characters stay within 4096 and 8 MiB |
| ValidationLog.Event | native_adapters/WorkspaceValidation.cs:207-223 | one more event is logged exactly when the run's events and their characters stay within 65536 and 8 MiB |
| ValidationLog.RetainAll | native_adapters/WorkspaceValidation.cs:55-63 | rows retained one after the other all fit exactly when their total does |
| ValidationLog.LogAll | native_adapters/WorkspaceValidation.cs:207-223 | and so do events |
| ValidationLog.TotalGrows | native_adapters/WorkspaceValidation.cs:55-63 | what is written only grows: a part of what fits, fits |
| ValidationRun.ReadAnswer | native_adapters/WorkspaceValidation.cs:759-796 | one poll succeeds exactly when its call, its extent and its percentage are in order and its events and rows fit into the log |
| ValidationRun.PollAnswers | native_adapters/WorkspaceValidation.cs:757-798 | succeeds exactly when completion is reported within the polls before any fails and everything written up to then fits; the rows are those of all polls; rejected exactly when one of them rejects; the known projection failure is reported exactly where it happens |
| ValidationRun.Poll | native_adapters/WorkspaceValidation.cs:751-854 | the polls between the two readings of what is checked: succeeds exactly when all three do and everything they write fits into what the log has left |
| ValidationRun.CheckedReportCounts | native_adapters/WorkspaceValidation.cs:1249-1265 | succeeds exactly when there is one end marker of that resource and it announces the numbers of error and warning rows |
| ValidationRun.PublishedCode | native_adapters/WorkspaceValidation.cs:1016-1054 | true exactly when what is published is the generated code, on all three channels and not all empty; an error exactly on another identity or an unreadable size |
| ValidationRun.DrainFailed | native_adapters/WorkspaceValidation.cs:1326-1353 | a failed projection is survived exactly when the task comes to its end, the code is still current and the log holds what that writes |
| ValidationRun.CheckRound | native_adapters/WorkspaceValidation.cs:1310-1370 | one check of one resource is completed, skipped or a tolerated projection failure exactly under the stated conditions and within what the log has left, and breaks off otherwise; it has then written exactly its own cost |
| ValidationRun.CheckAll | native_adapters/WorkspaceValidation.cs:1308-1370 | the tally counts nothing against the resources exactly when each passes and their total cost fits into the log; whether a second pass is due is exact, and so is the status of the pass |
| ValidationRun.RecheckAll | native_adapters/WorkspaceValidation.cs:1377-1408 | the second pass ends exactly when no recheck breaks off and its total cost fits; its status says whether one was skipped and whether one found an error row |
| ValidationRun.ResourceContexts | native_adapters/WorkspaceValidation.cs:1201-1247 | one compiler per name; refused exactly on another kind, a missing compiler or a repeated name |
| ValidationRun.ReadSources | native_adapters/WorkspaceValidation.cs:518-556 | succeeds exactly when every submitted body is found unchanged |
| ValidationRun.GeneratedCode | native_adapters/WorkspaceValidation.cs:992-1015 | the table of generated code, refused exactly on an empty or repeated name |
| ValidationRun.Validation.CheckResources | native_adapters/WorkspaceValidation.cs:1291-1408 | accepted exactly when there is a resource, all pass, a needed recheck ends and all that is written fits into the log |
| ValidationRun.Validation.CheckSfcResources | native_adapters/WorkspaceValidation.cs:1409-1450 | accepted exactly when there is a resource, all pass and all that is written fits into the log |
| ValidationRun.Validation.Build | native_adapters/WorkspaceValidation.cs:1640-1668 | accepted exactly when the sources are unchanged before and after, the build finishes without a rejecting row, the generated names are unambiguous and all that is written fits into the log; ends rejected exactly when all of that holds but for a rejecting row |
| ValidationRun.Validation.Finish | native_adapters/WorkspaceValidation.cs:1677-1692 | from the end of the checks to the gate: exported exactly when both statuses are accepted, the last readings are in order and the log holds them |
| ValidationRun.Validation.ValidateProject | native_adapters/WorkspaceValidation.cs:1590-1692 | a candidate is exported exactly when every observation at every stage is in order and all that the run writes stays within the limits on rows and events; a run is done with a rejected build exactly when the build comes to its end with a rejecting row, and then makes no check |
| ValidationRun.CollectedIs | native_adapters/WorkspaceValidation.cs:751-799 | the collected rows are the rows of every poll up to the first that reports completion |
| ValidationRun.CountZero | native_adapters/WorkspaceValidation.cs:1256-1257 | the count of a kind over all rows is zero exactly when there is no row of that kind |
| ValidationRun.ExportedIsClean | native_adapters/WorkspaceValidation.cs:1640-1692 | an exported candidate had all bodies unchanged at three stages, no rejecting row before completion, and at least one resource, each with current code before and after, no error row and one marker announcing none |
| ValidationRun.ExportedIsBounded | native_adapters/WorkspaceValidation.cs:23-63 | all rows an exported run has read, in its build and its public checks together, are at most 4096 |
| ValidationRun.RecheckDoesNotGate | native_adapters/WorkspaceValidation.cs:1372-1408 | runs that differ only in what ended rechecks find, and write the same amount, are exported alike |
| ValidationRun.TallyAll | native_adapters/WorkspaceValidation.cs:1308-1370 | the tally after any number of resources: what each counts for, whether a second pass is due, and what has been written |
| ValidationRun.CheckAndFinish | native_adapters/WorkspaceValidation.cs:1669-1692 | from the references to the gate: the exported run is the one whose checks and last readings are all in order |
| ValidationMeaning.ExportedPlainly | native_adapters/WorkspaceValidation.cs:1590-1692 | a candidate is exported exactly if, in plain terms: every body was read three times as submitted; the build reached 100 percent with no row of kind 2 and none of kind 1 with code 0x20; its names are distinct and not empty; there is a resource and each was checked to 100 percent with the generated code published before and after, no row of kind 2 and one end marker with the right numbers; a due second pass ended; and rows and events stay within 4096, 65536 and 8388608 |
| ValidationMeaning.RejectedByItsRows | native_adapters/WorkspaceValidation.cs:789-790 | a build that comes to 100 percent with a row of kind 2, or of kind 1 with code 0x20, ends with compile status rejected and exports nothing; a check is not rejected by such a row of kind 1 |
| ValidationMeaning.StatusMeans | native_adapters/WorkspaceValidation.cs:1291-1370 | the status of the first pass is incomplete, rejected or accepted by how the first checks end and which rows they bring |
| ValidationMeaning.DrainsMeans | native_adapters/WorkspaceValidation.cs:1326-1353 | a first check that breaks off is survived exactly if it failed with the two numbers of the known projection failure, its task was at its end or is polled to it, and the code is still in place |
| ValidationMeaning.AgainMeans | native_adapters/WorkspaceValidation.cs:1372-1408 | a second pass is made exactly after a first check that broke off and was survived, or whose rows name another object |
| ValidationMeaning.MarkedIsAgreed | native_adapters/WorkspaceValidation.cs:1249-1265 | the end marker agrees exactly if there is one and its numbers are the numbers of error and warning rows, counted as sets of positions |
| ValidationMeaning.SpentExactly | native_adapters/WorkspaceValidation.cs:55-63 | a task that ends has written the events of its polls, each of its rows once, and every character of them |
| SfcGraph.Bytes32IsOnly | native_adapters/WorkspaceSfcGraph.cs:199-204 | four bytes read as a length exactly when they are its encoding |
| SfcGraph.SplicedParses | native_adapters/WorkspaceSfcGraph.cs:303-311 | the spliced body passes the extent checks exactly up to 65536 bytes of graph, and then parses back to that graph, the same cache and its own length |
| SfcGraph.UnchangedGraphIsIdentity | native_adapters/WorkspaceSfcGraph.cs:303-311 | with the graph it had, the body is unchanged exactly when its first word is its length |
| SfcGraph.AcceptedYetChanged | native_adapters/WorkspaceSfcGraph.cs:199-204 | a 21-byte body that is accepted and changed by its own graph |
| SfcGraph.LastSpliceWins | native_adapters/WorkspaceSfcGraph.cs:303-311 | a second splice overrides the first |
| SfcGraph.Reassembled | native_adapters/WorkspaceSfcGraph.cs:199-204 | an accepted body is its header, its graph and its cache with nothing between |
| SfcGraph.I32Means | native_adapters/WorkspaceSfcGraph.cs:199-204 | a word is four bytes, the low one first, in two's complement |
| SfcGraph.AcceptsMeans | native_adapters/WorkspaceSfcGraph.cs:199-204 | the extent checks accept exactly the bodies of one shape: any first word, eight zero bytes, the block's length, at most 65536 bytes of graph, and a cache that begins with its own length |
| SfcGraph.HeaderIn | native_adapters/WorkspaceSfcGraph.cs:304-306 | the first sixteen bytes, written over the copied ones |
| SfcGraph.Splice | native_adapters/WorkspaceSfcGraph.cs:299-311 | the copies by offset build exactly the spliced body in a new array, or refuse exactly a graph outside 1..65536 bytes |
| CodeRecords.Frame | native_adapters/WorkspaceValidation.cs:139-154 | accepts exactly the bodies of at most 32768 bytes that are a run of at most 4096 records, and returns where each ends; a body it refuses is longer, begins with 4097 records, or has after a run of records no further one |
| CodeRecords.FramingIsUnique | native_adapters/WorkspaceValidation.cs:144-154 | a body is the run of at most one sequence of records |
| CodeRecords.FramesBackwards | native_adapters/WorkspaceValidation.cs:144-154 | read from its end a body frames into the same records in the opposite order |
| CodeRecords.BoundariesCutRecords | native_adapters/WorkspaceValidation.cs:144-154 | every boundary cuts off a start of the body that frames by itself, and the last is its end |
| GateOracle.DroppingKeepsMeaning | scripts/benchmark_agent_b.py:911-914 | dropping contacts known to be closed keeps the result of every program that runs, with any other operations in between |
| GateOracle.ConjunctionMeans | scripts/benchmark_agent_b.py:915-916 | a load followed by joins pushes whether all contacts are closed |
| GateOracle.LeftOfConjunction | scripts/benchmark_agent_b.py:915-925 | what is left of a conjunction, its head turned into a load, is a conjunction of the same value or nothing |
| GateOracle.EffectiveMeans | scripts/benchmark_agent_b.py:904-925 | the simplified program has the result of the original for every memory with the assumed bits; an empty one stands for true |
| GateOracle.PassingGateIsEquivalent | scripts/benchmark_agent_b.py:926-930 | a passing program that runs means what one of the allowed gates means; where that gate is a load, it does so if and only if there is something on the stack or the program itself begins with a load |
| GateOracle.PassingLoadRuns | scripts/benchmark_agent_b.py:904-925 | a program that is simplified to a load has a result exactly if it begins with a load or finds something on the stack |
| GateOracle.NothingMoreToDrop | scripts/benchmark_agent_b.py:915-925 | if a gate is left of a conjunction, some memory with the assumed bits makes it false |
| GateOracle.VerdictMeans | scripts/benchmark_agent_b.py:904-930 | the verdict gate by gate: exactly one gate is not closed by the case, or may not be left out outside a single series, and an allowed gate has its operation, a load in a series, and its operands |
| LadderLowering.ParseInputs | src/plc/ir.py:221-261 | the loops over elements, branches and contacts emit exactly the code of the row |
| LadderLowering.RowPlainly | src/plc/ir.py:221-261 | a row has a value by its contacts alone: every element lets power through, a block where one of its branches has contacts and all are closed, or where it has none at all |
| LadderLowering.LoweringKeepsMeaning | src/plc/ir.py:203-261 | the code of a row leaves the value of the row on the empty stack if and only if its first element has a contact; behind an empty first block it gets stuck, or there is no code at all |
| LadderLowering.BranchesPush | src/plc/ir.py:239-259 | the code of a parallel block pushes whether one of its branches is closed |
| LadderLowering.LaterElement | src/plc/ir.py:223-261 | the code of a later element joins its value to what is on the stack, does nothing if it has no contacts, and gets stuck on the empty stack |
| LadderLowering.PassingRow | scripts/benchmark_agent_b.py:904-930 | a single row that passes the gate check with a load has the value of that contact in every memory with the assumed bits |
| LadderLowering.StuckProgramPasses | scripts/benchmark_agent_b.py:904-930 | two rows whose code passes the gate check and gets stuck in every memory |
| AlarmOracle.Traces | scripts/benchmark_capability_discovery.py:394-417 | for every run of samples in increasing time the loop's outputs are the ones defined by the input history alone |
| AlarmOracle.ExpectedPlainly | scripts/benchmark_capability_discovery.py:394-417 | the outputs in times of the inputs: armed after 20 seconds of the switch on, a memory from an abnormal zone seen armed in the same stretch, siren and alarm from 10 up to 40 seconds, and from 10, after the earliest of any zone |
| AlarmOracle.Scan | scripts/benchmark_capability_discovery.py:401-415 | one pass of the loop body |
| AlarmOracle.TraceOne | scripts/benchmark_capability_discovery.py:401-417 | one sample more: the frames so far stay the ones asked for, and the carried state stays ready |
| AlarmOracle.CarriesNext | scripts/benchmark_capability_discovery.py:401-412 | the carried arming time, memories and alarm time keep saying what the history says |
| AlarmOracle.Hierarchy | scripts/benchmark_capability_discovery.py:413-415 | siren implies alarm implies some memory implies armed, and disarming clears all in the same scan |
| AlarmOracle.StaysWithinStretch | scripts/benchmark_capability_discovery.py:401-415 | within a stretch, armed, memories and alarm only ever come on |
| AlarmOracle.SirenWindow | scripts/benchmark_capability_discovery.py:413-414 | the siren is on for exactly the ages 10000 up to 40000, the alarm from 10000 |
| AlarmOracle.FrozenExpectations | scripts/benchmark_capability_discovery.py:395-418 | the frozen trace's expectations in closed form |
| AlarmOracle.FrozenBySample | scripts/benchmark_capability_discovery.py:395-400 | the frozen samples, by number, in increasing time |
| EffectTraces.RunRow | scripts/benchmark_agent_b.py:992-1020 | one row's start, checks and frame |
| EffectTraces.EntryMeans | scripts/benchmark_agent_b.py:992-1021 | the entry of a row of a sequence by the rows before it: at each address it sees what was set or written last, its own memory included, and whether the row before was enabled; it passes exactly if the reference answers the expected writes and execution and the memory afterwards and the resource are as expected |
| EffectTraces.LoneEntryMeans | scripts/benchmark_agent_b.py:1001-1021 | a row without a sequence sees its own memory and flag only |
| EffectTraces.StuckMeans | scripts/benchmark_agent_b.py:992-1023 | a row of a sequence breaks the run off exactly if the reference has no answer to what it sees |
| EffectTraces.EvaluateEffectTraces | scripts/benchmark_agent_b.py:990-1026 | every entry is the outcome of its row after the earlier rows of its own sequence only; the run breaks off at the first row without one; verified exactly when there are rows and all are good |
| EffectTraces.RunsAlone | scripts/benchmark_agent_b.py:993-1014 | a row's outcome is the last one of a run of its own sequence up to it |
| EffectTraces.RunsInSequence | scripts/benchmark_agent_b.py:993-1014 | and the one at its place when the whole sequence runs by itself |
| EffectTraces.GoodBySequence | scripts/benchmark_agent_b.py:992-1026 | a run is good exactly when each of its sequences by itself is |
| EffectTraces.OutcomesAgree | scripts/benchmark_agent_b.py:992-1020 | two interleavings give the same row the same outcome |
| EffectTraces.VerdictsAgree | scripts/benchmark_agent_b.py:990-1026 | and the same verdict |
| Tolerance.ScanMismatches | scripts/benchmark_capability_discovery.py:481-491 | which mismatches of a scan remain after the one permitted late scan |
| Tolerance.Criterion.Observe | scripts/benchmark_capability_discovery.py:494-500 | the totals of one acceptance criterion and its at most four failures, in place |
| Tolerance.RunTrace | scripts/benchmark_capability_discovery.py:478-507 | the loop leaves the failures, the unknowns and every criterion's totals that the scans add up to, unless a scan raises |
| Tolerance.EvaluateAlarmTrace | scripts/benchmark_capability_discovery.py:476-516 | the trace and every acceptance criterion over it get the verdict they deserve: unverified, failed and passed exactly under the stated conditions on all scans; at most 12 failures are kept of the trace and 4 of a criterion, each a wrong scan with what remains of it, and short of that all of them |
| Tolerance.EvaluateProgram | scripts/benchmark_capability_discovery.py:469-522 | every trace and every criterion of it gets its verdict; the program passes exactly when every trace does and nothing is beyond the declared inputs and outputs |
| Tolerance.PassIsSound | scripts/benchmark_capability_discovery.py:478-510 | in a passing trace every scan equals its own expectation; or, only in the alarm case, not in the first scan and at a change of expectation, with the system armed and the inputs as they were, every output equals the expectation before; zone memories are always exact |
| Tolerance.VerdictMeans | scripts/benchmark_capability_discovery.py:476-516 | a trace passes, and fails, exactly under conditions on the answers of the scanner alone: every observation is there, and every operand is as expected or late in the one permitted way |
| Tolerance.WrongMeans | scripts/benchmark_capability_discovery.py:481-491 | a scan counts as wrong exactly if some operand looked at is not as expected and the scan is not late in the permitted way |
| Tolerance.KeptAreTheFirst | scripts/benchmark_capability_discovery.py:492-500 | the kept failures are the first wrong scans in order, each with its time and all that is wrong in it |
| Tolerance.TallyCounts | scripts/benchmark_capability_discovery.py:494-500 | a criterion's totals are the number of pairs of a scan and an operand it looks at, and of those that are wrong |
| DirectVerdict.CompareScan | scripts/benchmark_direct_generation.py:280-289 | which scans are wrong, and which are the one permitted late scan of the traffic case |
| DirectVerdict.Note | scripts/benchmark_direct_generation.py:298-299 | what a scan adds to the list of reasons |
| DirectVerdict.EvaluateTrace | scripts/benchmark_direct_generation.py:270-313 | passed and failed exactly under the stated conditions on all scans; the kept failures are the first 12 wrong scans, or all of them, in order, each with its differences |
| DirectVerdict.PassIsWhole | scripts/benchmark_direct_generation.py:270-313 | a passing trace was scanned to its end with nothing unknown, each scan showing its own expectation or, only in the traffic case, not in the first scan and at a change of expectation, the one before |
| DirectVerdict.WrongScanMeans | scripts/benchmark_direct_generation.py:280-289 | a scan is wrong exactly if some known output differs and the outputs are not, in the traffic case at a change of expectation, all the ones before |
| DirectVerdict.ReasonsAreGaps | scripts/benchmark_direct_generation.py:298-299 | the list of reasons is the scanner's exactly when every scan that is not silent brings a new gap |
| DirectVerdict.ScopeIsTakenUp | scripts/benchmark_direct_generation.py:298-313 | an unknown scope is on the list exactly when some scan reported it past the list's own end |
| DirectVerdict.ScopeIsNeverAFault | scripts/benchmark_direct_generation.py:306-313 | with a new gap in every such scan, a reported unknown scope is always seen |
| DirectVerdict.MissedScope | scripts/benchmark_direct_generation.py:298-313 | three scans on which it is not, and a wrong scan counts as a fault |
| PrunedWalk.Prune | publication/source_policy.py:86-87 | the folders that stay in a listing |
| PrunedWalk.SourceFiles | publication/source_policy.py:82-91 | the walk yields exactly the files not excluded and under no pruned folder, in the order of the unpruned walk |
| PrunedWalk.PruningKeepsTheWalk | publication/source_policy.py:86-87 | dropping pruned folders from a listing changes nothing in what is reached |
| PrunedWalk.FiltersAgree | publication/source_policy.py:82-91 | walk and filter agree exactly when no file the filter keeps is under a pruned folder |
| PrunedWalk.YieldedOnce | publication/source_policy.py:82-91 | each file is yielded once |
| PrunedWalk.ListedAreThere | publication/source_policy.py:82-91 | a path is in the unpruned listing of a tree exactly if its names lead from folder to folder to a file |
| PrunedWalk.ListedInOrder | publication/source_policy.py:82-91 | a directory's own files come first and in their order |
| SourcePolicy.PrunedIsFolderRule | publication/source_policy.py:50-87 | a folder is pruned exactly when one of the rules that speak of whole folders covers it |
| SourcePolicy.BelowPruned | publication/source_policy.py:50-87 | below a pruned folder every path of which something is left is excluded; one of which nothing is left is classified as the folder |
| SourcePolicy.PrunedButKept | publication/source_policy.py:63-64 | the pruned folders whose own path is kept are exactly those a prefix names whole |
| SourcePolicy.WalkIsFilter | publication/source_policy.py:82-91 | over every tree the walk equals the filter, in order, if and only if no file escapes in that way |
| SourcePolicy.SourceFiles | publication/source_policy.py:82-91 | the walk over a tree: equal to the filter exactly when no file escapes, each file once |
| SourceMeaning.ExportMeans | publication/source_policy.py:50-91 | what the walk yields, rule by rule: a file of ordinary names is yielded exactly if no folder rule meets it, its folded name is none of the notes and does not begin with ".env" unless it is ".env.example", the path is none of the private files and reviews, and its suffix is neither generated nor, outside the project's own templates, material; any file yielded is free of every rule |
| SourceMeaning.RulesPlainly | publication/source_policy.py:50-79 | a path is excluded for no reason exactly if none of the rules, each written out, meets its parts, its text, its name or its suffix |
| SourceMeaning.OrdinaryParts | publication/source_policy.py:52-54 | the parts of a path of ordinary names are those names |
| SourceMeaning.SuffixMeans | publication/source_policy.py:73-77 | the suffix is what follows the last dot, dot included, if that dot is neither first nor last |
| SourcePolicy.RepositoryIsSound | publication/source_policy.py:8-47 | no entry of the repository's lists can be met by the probe's own name |
| SourcePolicy.EscapingFile | publication/source_policy.py:63-91 | a tree of one file on which walk and filter differ |

## Left out

- StateHandleLease: a system without the call hands over to the guardian, which is the other module; the two are not composed.
- UiLease: a third party that suspends the same thread is assumed absent; termination that was issued is assumed to complete within the wait, and the exit code and job membership are not modelled. The branches that would meet a third party, among them the move of the phase word from 1 to 3, are kept and proved dead.
- Selection.Target.SelectElement: what the first snapshot reads is an input, as chains of pointers and records, and what the second one shows is another; that the whole of each array is readable once more (native_adapters/ActiveDocument.cs:106) and which of the refusals before the lease is reported (lines 501-516) are not told apart.
- SpreadText.ReadCell: the sparse lookups that find a cell's record (native_adapters/ActiveDocument.cs:237-248 and 277-286).
- WorkspaceTasks.BindProgramTask: the calls that create and name the new element; what they lead to is the after-inventory, which is arbitrary. How a unit's owner, kind and body are read is an input.
- AuthoredRows.Table.Reconcile: the table behaves as one, and a failing call to it is not modelled.
- ValidationRun.Validation.ValidateProject: everything between the modelled reads (declarations, task selection, references, inspection, lexical reading) is a part that says whether it succeeded and how many rows, events and characters it wrote; the parsing of numbers and the serialized size of a row are parameters; which rows name another object is an input. The clock of a poll loop is the number of answers it gets.
- SfcGraph.Splice: bodies whose new length would exceed a 32-bit integer, which the 8 MB bound on bodies keeps out; the vendor's editing of the graph.
- GateOracle.DroppingKeepsMeaning: block and branch operations are arbitrary functions of the machine's state.
- LadderLowering.LoweringKeepsMeaning: rungs that bring their own ordered instructions, which pass through as they are (src/plc/ir.py:206-208); comparisons and pulse contacts, the MPS/MRD/MPP form of several branches behind a shared part, outputs and the paths of the emitted instructions (src/plc/ir.py:174-185, 263-309); addresses are taken as trimmed and in upper case.
- Tolerance.EvaluateProgram: the initial memory of a trace, the reasons that are listed for an unverified one, and how the undeclared inputs and outputs are found, which is a boolean.
- DirectVerdict.EvaluateTrace: the split of expectations into named requirement checks and the stored observations.
- PrunedWalk.SourceFiles: a directory's listing is given in sorted order, which filtering keeps; links are not modelled.
- CMP behaviour, scheduling, cost summaries, project creation, declarations of structured-text bodies, COM and process plumbing: no property harder than the ones above.
