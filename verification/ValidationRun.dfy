/**
One run that builds a project, checks its resources and, only at its very end, exports the
compiled candidate. Everything the vendor's compiler and workspace answer during the run is an
arbitrary `Observed`; the class does with those answers what the adapter does, and the
specification says which answers lead to an export.
*/
module ValidationRun {

  import opened Basics
  import Pairing
  import opened ValidationLog

  type Bytes = seq<bv8>

  /** The three channels of one resource's code. */
  type Code = c: seq<Bytes> | |c| == 3 witness [[], [], []]

  datatype Error =
    | CallFailed(hresult: int, code: int) | BadReports | BadPercent | Timeout | StepFailed | LogFull
    | MarkerMissing | CountsDiffer | PublishedUnreadable | IdentityDiffers | CodeChanged
    | NotAResource | NoCompiler | EmptySelection | SourceDiffers | AmbiguousCode | NotAccepted

  datatype Try<T> = Done(value: T) | Thrown(error: Error)

  datatype Status = NotStarted | Incomplete | Accepted | Rejected | NotApplicable | NotRequested

  /** The calls and reads between two modelled ones: whether all succeed, and what they write to the log. */
  datatype Part = Part(ok: bool, cost: Usage)

  /** `size`: its characters in the log. `misidentified`: it names another object than the resource under check. */
  datatype Report = Report(kind: int, code: int, name: string, arguments: seq<string>, size: nat, misidentified: bool)

  /**
  One answer to a progress call. `readable`: the row array has a valid extent and valid rows; `cost`: the
  events that go with it, the clean-up's included.
  */
  datatype Answer = Answer(
    hresult: int, code: int, percent: int, readable: bool, reports: seq<Report>, cost: Usage)

  /** A compiler task: the answers to successive polls, as many as the time limit leaves room for. */
  datatype Task = Task(input: Part, answers: seq<Answer>, output: Part)

  datatype Published = Published(readable: bool, channels: Code, kind: int, name: string, cost: Usage)

  /**
  What is seen while one resource is checked once. `skip` and `failure` are written only when the round is
  skipped, or when its projection fails.
  */
  datatype Round = Round(
    kind: int, name: string, entered: Part, before: Published, skip: Part, started: Part,
    task: Task, failure: Part, details: Part, after: Published)

  datatype Target = Target(kind: int, name: string, context: Part, first: Round, tail: Task, raw: Round)

  datatype RoundResult = Skipped | ProjectionFailed | Completed(rejected: bool, mismatches: nat)

  datatype Key = Key(library: string, name: string, language: int)

  datatype Source = Source(key: Key, body: Bytes)

  /** The bodies of the workspace at one stage, and what reading them writes to the log. */
  datatype Reading = Reading(found: map<Key, Bytes>, read: Part)

  datatype Resource = Resource(name: string, code: Code)

  datatype Request = Request(programs: seq<Source>, libraries: seq<Source>, standaloneSfc: bool, saveCompiled: bool)

  datatype Observed = Observed(
    beforeBuild: Reading, started: Part, compile: seq<Answer>,
    afterBuild: Reading, generatedRead: Part, generated: seq<Resource>,
    prepared: Part, selection: Part, targets: seq<Target>, tallied: Part, retallied: Part,
    inspected: Part, afterCheck: Reading, finished: Part)

  const RESOURCE_KIND := 8
  const MAX_POLLS := 2400
  const MAX_ROWS := 10000
  const PROJECTION_HRESULT: int := 0x8000_4005 - 0x1_0000_0000
  const PROJECTION_CODE := 0x2d01_0025
  const SILENT := Part(true, NOTHING)

  // ---------- what is written down ----------

  function Sizes(reports: seq<Report>): (r: seq<nat>)
    ensures |r| == |reports|
  {
    seq(|reports|, i requires 0 <= i < |reports| => reports[i].size)
  }

  function AnswerCost(a: Answer): Usage { Plus(a.cost, Total(Rows(Sizes(a.reports)))) }

  function AnswerCosts(answers: seq<Answer>): seq<Usage> {
    seq(|answers|, i requires 0 <= i < |answers| => AnswerCost(answers[i]))
  }

  /** What the answers up to and including the first that reports completion come to. */
  function Spent(answers: seq<Answer>): Usage {
    if answers == [] then NOTHING
    else if answers[0].percent == 100 then AnswerCost(answers[0])
    else Plus(AnswerCost(answers[0]), Spent(answers[1..]))
  }

  function TaskCost(t: Task): Usage { Plus(t.input.cost, Plus(Spent(t.answers), t.output.cost)) }

  /** What has been written when poll `n` fails: no row of it is read. */
  function FailSpent(answers: seq<Answer>, n: nat): Usage
    requires n < |answers|
  {
    Plus(Total(AnswerCosts(answers)[..n]), answers[n].cost)
  }

  function FailCost(t: Task, n: nat): Usage
    requires n < |t.answers|
  {
    Plus(t.input.cost, FailSpent(t.answers, n))
  }

  function OpeningCost(r: Round): Usage { Plus(r.entered.cost, r.before.cost) }

  function SkipCost(r: Round): Usage { Plus(OpeningCost(r), r.skip.cost) }

  function EnterCost(r: Round): Usage { Plus(OpeningCost(r), r.started.cost) }

  function LeaveCost(r: Round): Usage { Plus(r.details.cost, r.after.cost) }

  function RoundCost(r: Round): Usage { Plus(EnterCost(r), Plus(TaskCost(r.task), LeaveCost(r))) }

  function DrainCost(r: Round, tail: Task, n: nat): Usage
    requires n < |r.task.answers|
  {
    Plus(EnterCost(r), Plus(FailCost(r.task, n), DrainedCost(r, tail, r.task.answers[n].percent)))
  }

  function DrainedCost(r: Round, tail: Task, percent: int): Usage {
    Plus(r.failure.cost, Plus(if percent == 100 then NOTHING else TaskCost(tail), r.after.cost))
  }

  // ---------- what the run is supposed to establish ----------

  predicate Answered(a: Answer) {
    a.readable && |a.reports| <= MAX_ROWS && a.hresult >= 0 && a.code == 0 && 0 <= a.percent <= 100
  }

  /** Poll `n` is the first to report completion, and no poll up to it failed. */
  predicate FinishesAt(answers: seq<Answer>, n: nat) {
    && n < |answers| && n < MAX_POLLS && answers[n].percent == 100
    && forall i :: 0 <= i <= n ==> Answered(answers[i]) && (i < n ==> answers[i].percent != 100)
  }

  ghost predicate Finishes(t: Task) {
    t.input.ok && t.output.ok && exists n :: FinishesAt(t.answers, n)
  }

  /** Poll `n` fails the way the diagnostic projection is known to fail, and no poll before it failed or completed. */
  predicate ProjectionFailsAt(answers: seq<Answer>, n: int) {
    && 0 <= n < |answers| && n < MAX_POLLS && answers[n].readable && |answers[n].reports| <= MAX_ROWS
    && answers[n].hresult == PROJECTION_HRESULT && answers[n].code == PROJECTION_CODE
    && forall i :: 0 <= i < n ==> Answered(answers[i]) && answers[i].percent != 100
  }

  /** Such a failure was drained: the task reached its end some other way and the code is still current. */
  ghost predicate DrainsAt(r: Round, tail: Task, generated: map<string, Code>, n: int) {
    && ProjectionFailsAt(r.task.answers, n) && r.task.input.ok && r.failure.ok
    && (r.task.answers[n].percent == 100 || Finishes(tail)) && Current(r.after, r.name, generated)
  }

  /** The rows of every answer up to and including the first that reports completion. */
  function Collected(answers: seq<Answer>): seq<Report> {
    if answers == [] then []
    else if answers[0].percent == 100 then answers[0].reports
    else answers[0].reports + Collected(answers[1..])
  }

  predicate Rejects(r: Report, compile: bool) {
    r.kind == 2 || (compile && r.kind == 1 && r.code == 0x20)
  }

  predicate Clean(reports: seq<Report>, compile: bool) {
    forall r :: r in reports ==> !Rejects(r, compile)
  }

  predicate Marks(r: Report, name: string) {
    r.kind == 1 && r.code == 0x23 && r.name == name
  }

  /** `i` is the one end marker of the resource. */
  predicate EndMarker(reports: seq<Report>, name: string, i: int) {
    && 0 <= i < |reports| && Marks(reports[i], name)
    && forall j :: 0 <= j < |reports| && Marks(reports[j], name) ==> j == i
  }

  predicate Counted(r: Report, kind: int, name: string, every: bool) {
    r.kind == kind && (every || r.name == name)
  }

  function Count(reports: seq<Report>, kind: int, name: string, every: bool): nat {
    if reports == [] then 0
    else Count(reports[..|reports| - 1], kind, name, every)
         + if Counted(reports[|reports| - 1], kind, name, every) then 1 else 0
  }

  /** The marker announces as many errors and warnings as there are rows of those kinds. */
  predicate Announces(marker: Report, reports: seq<Report>, name: string, every: bool, parse: string -> Option<int>) {
    && |marker.arguments| == 2
    && parse(marker.arguments[0]) == Some(Count(reports, 2, name, every))
    && parse(marker.arguments[1]) == Some(Count(reports, 3, name, every))
  }

  ghost predicate CountsAgree(reports: seq<Report>, name: string, every: bool, parse: string -> Option<int>) {
    exists i :: EndMarker(reports, name, i) && Announces(reports[i], reports, name, every, parse)
  }

  predicate Identified(p: Published, name: string) {
    p.readable && p.kind == RESOURCE_KIND && p.name == name
  }

  /** What is published for the resource is the code just generated for it, and there is some. */
  predicate Current(p: Published, name: string, generated: map<string, Code>) {
    && Identified(p, name) && name in generated && p.channels == generated[name]
    && exists j :: 0 <= j < 3 && p.channels[j] != []
  }

  predicate RoundReads(r: Round, generated: map<string, Code>) {
    r.kind == RESOURCE_KIND && Current(r.before, r.name, generated) && r.entered.ok && r.started.ok && r.details.ok
    && Current(r.after, r.name, generated)
  }

  /** What a check is made with; without a table of compilers each resource opens its own. */
  datatype Context = Context(compilers: Option<set<string>>, generated: map<string, Code>, parse: string -> Option<int>)

  predicate HasCompiler(c: Context, name: string) { c.compilers.None? || name in c.compilers.value }

  predicate Enters(r: Round, c: Context) {
    && r.kind == RESOURCE_KIND && r.entered.ok && Current(r.before, r.name, c.generated)
    && HasCompiler(c, r.name) && r.started.ok
  }

  ghost predicate RoundCompletes(r: Round, c: Context, every: bool) {
    && HasCompiler(c, r.name) && RoundReads(r, c.generated) && Finishes(r.task)
    && CountsAgree(Collected(r.task.answers), r.name, every, c.parse)
  }

  predicate RoundSkips(r: Round, generated: map<string, Code>) {
    && r.kind == RESOURCE_KIND && r.entered.ok && r.skip.ok
    && Identified(r.before, r.name) && !Current(r.before, r.name, generated)
  }

  predicate Misidentifies(r: Report) { r.kind in {2, 3} && r.misidentified }

  predicate Mismatched(r: Round) {
    exists x :: x in Collected(r.task.answers) && Misidentifies(x)
  }

  function Names(targets: seq<Target>): set<string> { set t | t in targets :: t.name }

  predicate ContextsOpen(targets: seq<Target>) {
    && (forall i :: 0 <= i < |targets| ==> targets[i].kind == RESOURCE_KIND && targets[i].context.ok)
    && forall i, j :: 0 <= i < j < |targets| ==> targets[i].name != targets[j].name
  }

  ghost predicate TargetCompletes(t: Target, c: Context) { RoundCompletes(t.first, c, true) }

  ghost predicate TargetPasses(t: Target, c: Context) {
    TargetCompletes(t, c) && Clean(Collected(t.first.task.answers), false)
  }

  /** The second check of a resource may find errors; it may not break off. */
  ghost predicate RecheckEnds(t: Target, c: Context) {
    RoundSkips(t.raw, c.generated) || RoundCompletes(t.raw, c, false)
  }

  /** The projection of the resource's first check fails in the known way, and the check is drained. */
  ghost predicate Drains(t: Target, c: Context) {
    Enters(t.first, c) && exists n :: DrainsAt(t.first, t.tail, c.generated, n)
  }

  /** A resource for which the first pass asks for a second: it was drained, or a row names another object. */
  ghost predicate AsksAgain(t: Target, c: Context) { Drains(t, c) || (TargetCompletes(t, c) && Mismatched(t.first)) }

  ghost predicate DueUpTo(targets: seq<Target>, n: nat, c: Context) {
    exists i :: 0 <= i < n && i < |targets| && AsksAgain(targets[i], c)
  }

  ghost predicate PassUpTo(targets: seq<Target>, n: nat, c: Context) {
    forall i :: 0 <= i < n && i < |targets| ==> TargetPasses(targets[i], c)
  }

  ghost predicate CompleteUpTo(targets: seq<Target>, n: nat, c: Context) {
    forall i :: 0 <= i < n && i < |targets| ==> TargetCompletes(targets[i], c)
  }

  ghost predicate RechecksEndUpTo(targets: seq<Target>, n: nat, c: Context) {
    forall i :: 0 <= i < n && i < |targets| ==> RecheckEnds(targets[i], c)
  }

  predicate MismatchUpTo(targets: seq<Target>, n: nat) {
    exists i :: 0 <= i < n && i < |targets| && Mismatched(targets[i].first)
  }

  predicate Unchanged(found: map<Key, Bytes>, submitted: seq<Source>) {
    forall s :: s in submitted ==> s.key in found && found[s.key] == s.body
  }

  predicate BothUnchanged(reading: Reading, q: Request) {
    reading.read.ok && Unchanged(reading.found, q.programs) && Unchanged(reading.found, q.libraries)
  }

  function CodeOf(rows: seq<Resource>): map<string, Code> {
    if rows == [] then map[] else CodeOf(rows[..|rows| - 1])[rows[|rows| - 1].name := rows[|rows| - 1].code]
  }

  predicate Unambiguous(rows: seq<Resource>) {
    && (forall i :: 0 <= i < |rows| ==> rows[i].name != "")
    && forall i, j :: 0 <= i < j < |rows| ==> rows[i].name != rows[j].name
  }

  function ContextCosts(targets: seq<Target>): seq<Usage> {
    seq(|targets|, i requires 0 <= i < |targets| => targets[i].context.cost)
  }

  function PublicCosts(targets: seq<Target>): seq<Usage> {
    seq(|targets|, i requires 0 <= i < |targets| => RoundCost(targets[i].first))
  }

  function RawCost(t: Target, generated: map<string, Code>): Usage {
    if RoundSkips(t.raw, generated) then SkipCost(t.raw) else RoundCost(t.raw)
  }

  function RawCosts(targets: seq<Target>, generated: map<string, Code>): seq<Usage> {
    seq(|targets|, i requires 0 <= i < |targets| => RawCost(targets[i], generated))
  }

  ghost predicate BuildCompletes(q: Request, o: Observed) {
    && BothUnchanged(o.beforeBuild, q) && o.started.ok
    && Finishes(Task(SILENT, o.compile, SILENT))
    && BothUnchanged(o.afterBuild, q) && o.generatedRead.ok && Unambiguous(o.generated)
  }

  ghost predicate BuildPasses(q: Request, o: Observed) {
    BuildCompletes(q, o) && Clean(Collected(o.compile), true)
  }

  /** The build comes to its end with a row that rejects it. */
  ghost predicate BuildRejects(q: Request, o: Observed) {
    BuildCompletes(q, o) && !Clean(Collected(o.compile), true)
  }

  function BuildCost(o: Observed): Usage {
    Plus(Plus(o.beforeBuild.read.cost, o.started.cost),
         Plus(TaskCost(Task(SILENT, o.compile, SILENT)), Plus(o.afterBuild.read.cost, o.generatedRead.cost)))
  }

  function ContextOf(q: Request, o: Observed, parse: string -> Option<int>): Context {
    Context(if q.standaloneSfc then None else Some(Names(o.targets)), CodeOf(o.generated), parse)
  }

  ghost predicate FirstPasses(o: Observed, c: Context) { PassUpTo(o.targets, |o.targets|, c) && o.tallied.ok }

  ghost predicate SecondPasses(o: Observed, c: Context) {
    RechecksEndUpTo(o.targets, |o.targets|, c) && o.retallied.ok
  }

  /** A second pass is due where the compilers are shared and a row names another object. */
  predicate NeedsSecond(o: Observed, shared: bool) { shared && MismatchUpTo(o.targets, |o.targets|) }

  ghost predicate PassesEnd(o: Observed, c: Context) {
    FirstPasses(o, c) && (NeedsSecond(o, c.compilers.Some?) ==> SecondPasses(o, c))
  }

  ghost predicate CheckPasses(q: Request, o: Observed, parse: string -> Option<int>) {
    && o.selection.ok && o.targets != [] && (!q.standaloneSfc ==> ContextsOpen(o.targets))
    && PassesEnd(o, ContextOf(q, o, parse))
  }

  function HeadCost(q: Request, o: Observed): Usage {
    Plus(o.selection.cost, if q.standaloneSfc then NOTHING else Total(ContextCosts(o.targets)))
  }

  function FirstPassCost(o: Observed): Usage { Plus(Total(PublicCosts(o.targets)), o.tallied.cost) }

  function SecondPassCost(o: Observed): Usage {
    Plus(Total(RawCosts(o.targets, CodeOf(o.generated))), o.retallied.cost)
  }

  /** Both passes; the second only where a row names another object. */
  function PassesCost(o: Observed, shared: bool): Usage {
    Plus(FirstPassCost(o), if NeedsSecond(o, shared) then SecondPassCost(o) else NOTHING)
  }

  function CheckCost(q: Request, o: Observed): Usage { Plus(HeadCost(q, o), PassesCost(o, !q.standaloneSfc)) }

  function TailCost(o: Observed): Usage {
    Plus(o.inspected.cost, Plus(o.afterCheck.read.cost, o.finished.cost))
  }

  /** Everything a run that reaches the export has written to the log. */
  function RunCost(q: Request, o: Observed): Usage {
    Plus(Plus(BuildCost(o), o.prepared.cost), Plus(CheckCost(q, o), TailCost(o)))
  }

  ghost predicate Exportable(q: Request, o: Observed, parse: string -> Option<int>) {
    && q.saveCompiled && BuildPasses(q, o) && o.prepared.ok && CheckPasses(q, o, parse)
    && o.inspected.ok && BothUnchanged(o.afterCheck, q) && o.finished.ok && Within(RunCost(q, o))
  }

  // ---------- the steps ----------

  method CheckCall(hresult: int, code: int) returns (r: Try<()>)
    ensures r.Done? <==> hresult >= 0 && code == 0
    ensures r.Thrown? ==> r.error == CallFailed(hresult, code)
  {
    if hresult < 0 || code != 0 {
      return Thrown(CallFailed(hresult, code));
    }
    return Done(());
  }

  /** Writes to the log; ValidationLog.LogAll says that entry by entry comes to the same. */
  method Write(used: Usage, cost: Usage) returns (r: Try<Usage>)
    requires Within(used)
    ensures r == if Within(Plus(used, cost)) then Done(Plus(used, cost)) else Thrown(LogFull)
  {
    return if Within(Plus(used, cost)) then Done(Plus(used, cost)) else Thrown(LogFull);
  }

  method Pass(used: Usage, p: Part) returns (r: Try<Usage>)
    requires Within(used)
    ensures r.Done? <==> p.ok && Within(Plus(used, p.cost))
    ensures r.Done? ==> r.value == Plus(used, p.cost)
    ensures r.Thrown? ==> r.error in {LogFull, StepFailed}
  {
    r := Write(used, p.cost);
    if r.Done? && !p.ok {
      return Thrown(StepFailed);
    }
  }

  predicate RejectsUpTo(reports: seq<Report>, n: nat, compile: bool) {
    exists k :: 0 <= k < n && k < |reports| && Rejects(reports[k], compile)
  }

  lemma NextRejects(reports: seq<Report>, n: nat, compile: bool)
    requires n < |reports|
    ensures RejectsUpTo(reports, n + 1, compile) <==> RejectsUpTo(reports, n, compile) || Rejects(reports[n], compile)
    ensures RejectsUpTo(reports, |reports|, compile) <==> !Clean(reports, compile)
  {
    if RejectsUpTo(reports, n + 1, compile) {
      var k :| 0 <= k < n + 1 && k < |reports| && Rejects(reports[k], compile);
      assert k < n || k == n;
    }
  }

  /** Reads the rows of one answer: each is retained, and any may reject. */
  method ReadRows(used: Usage, reports: seq<Report>, compile: bool) returns (r: Try<Usage>, rejected: bool)
    requires Within(used)
    ensures r == (var cost := Total(Rows(Sizes(reports)));
                  if Within(Plus(used, cost)) then Done(Plus(used, cost)) else Thrown(LogFull))
    ensures r.Done? ==> (rejected <==> !Clean(reports, compile))
  {
    rejected := false;
    var now: Usage := used;
    ghost var costs := Rows(Sizes(reports));
    for i := 0 to |reports|
      invariant rejected <==> RejectsUpTo(reports, i, compile)
      invariant AtCost(used, costs, i, now)
    {
      NextCost(used, costs, i, now);
      NextRejects(reports, i, compile);
      if Rejects(reports[i], compile) {
        rejected := true;
      }
      var next := RetainReport(now, reports[i].size);
      if next.None? {
        return Thrown(LogFull), rejected;
      }
      now := next.value;
    }
    AllCosts(used, costs, now);
    return Done(now), rejected;
  }

  /** The first `i` costs have been written on top of `used`. */
  predicate AtCost(used: Usage, costs: seq<Usage>, i: nat, now: Usage)
    requires i <= |costs|
  {
    now == Plus(used, Total(costs[..i])) && Within(now)
  }

  lemma {:induction false} NextCost(used: Usage, costs: seq<Usage>, i: nat, now: Usage)
    requires i < |costs| && AtCost(used, costs, i, now)
    ensures Within(Plus(now, costs[i])) ==> AtCost(used, costs, i + 1, Plus(now, costs[i]))
    ensures Within(Plus(used, Total(costs))) ==> Within(Plus(now, costs[i]))
  {
    TotalNext(costs, i);
    if Within(Plus(used, Total(costs))) {
      TotalGrows(used, costs, i + 1);
    }
  }

  lemma {:induction false} AllCosts(used: Usage, costs: seq<Usage>, now: Usage)
    requires AtCost(used, costs, |costs|, now)
    ensures now == Plus(used, Total(costs)) && Within(now)
  {
    assert costs[..|costs|] == costs;
  }

  lemma CleanJoins(a: seq<Report>, b: seq<Report>, compile: bool)
    ensures Clean(a + b, compile) <==> Clean(a, compile) && Clean(b, compile)
  {
    if Clean(a + b, compile) {
      forall r | r in a || r in b
        ensures !Rejects(r, compile)
      {
        assert r in a + b;
      }
    }
  }

  predicate KnownFailure(a: Answer) {
    a.readable && |a.reports| <= MAX_ROWS && a.hresult == PROJECTION_HRESULT && a.code == PROJECTION_CODE
  }

  /** One poll: its events, the call's own result, its rows. `now` is what has been written by then. */
  method ReadAnswer(used: Usage, a: Answer, compile: bool) returns (r: Try<()>, now: Usage, rejected: bool)
    requires Within(used)
    ensures r.Done? <==> Answered(a) && Within(Plus(used, AnswerCost(a)))
    ensures r.Done? ==> now == Plus(used, AnswerCost(a)) && (rejected <==> !Clean(a.reports, compile))
    ensures r == Thrown(CallFailed(PROJECTION_HRESULT, PROJECTION_CODE)) <==>
            KnownFailure(a) && Within(Plus(used, a.cost))
    ensures r.Thrown? && r.error.CallFailed? ==> now == Plus(used, a.cost)
    ensures Within(now)
  {
    now, rejected := used, false;
    if !a.readable || |a.reports| > MAX_ROWS {
      return Thrown(BadReports), now, rejected;
    }
    var logged := Write(now, a.cost);
    if logged.Thrown? {
      return Thrown(LogFull), now, rejected;
    }
    now := logged.value;
    r := CheckCall(a.hresult, a.code);
    if r.Thrown? {
      return;
    }
    if a.percent < 0 || a.percent > 100 {
      return Thrown(BadPercent), now, rejected;
    }
    var rows;
    rows, rejected := ReadRows(now, a.reports, compile);
    if rows.Thrown? {
      return Thrown(LogFull), now, rejected;
    }
    now := rows.value;
  }

  /**
  Polls until completion is reported. Succeeds exactly when a poll reports it before any fails, with all
  that is written up to then inside the limits; the rows are those of every poll, and the rejection is that
  of any of them. The known failure is reported exactly where it happens.
  */
  method PollAnswers(used: Usage, answers: seq<Answer>, compile: bool)
    returns (r: Try<seq<Report>>, now: Usage, rejected: bool, percent: int)
    requires Within(used)
    ensures r.Done? <==> (exists n :: FinishesAt(answers, n)) && Within(Plus(used, Spent(answers)))
    ensures r.Done? ==> r.value == Collected(answers) && now == Plus(used, Spent(answers))
    ensures r.Done? ==> (rejected <==> !Clean(r.value, compile))
    ensures r == Thrown(CallFailed(PROJECTION_HRESULT, PROJECTION_CODE)) ==>
              exists n :: ProjectionFailsAt(answers, n) && percent == answers[n].percent
                && now == Plus(used, FailSpent(answers, n))
    ensures forall n :: ProjectionFailsAt(answers, n) && Within(Plus(used, FailSpent(answers, n))) ==>
                          r == Thrown(CallFailed(PROJECTION_HRESULT, PROJECTION_CODE))
    ensures Within(now)
  {
    var all: seq<Report> := [];
    now, rejected, percent := used, false, 0;
    var poll := 0;
    while poll < MAX_POLLS
      invariant 0 <= poll <= |answers| && Polled(used, answers, poll, now, all)
      invariant rejected <==> !Clean(all, compile)
    {
      if poll >= |answers| {
        OutOfTime(answers, poll);
        return Thrown(Timeout), now, rejected, percent;
      }
      var answer, before := answers[poll], now;
      CleanJoins(all, answer.reports, compile);
      percent := answer.percent;
      var read, more;
      read, now, more := ReadAnswer(before, answer, compile);
      if read.Thrown? {
        PollFails(used, answers, poll, before);
        return Thrown(read.error), now, rejected, percent;
      }
      NextPoll(used, answers, poll, before, all);
      rejected, all := rejected || more, all + answer.reports;
      if percent == 100 {
        FinishedDoesNotFail(answers);
        return Done(all), now, rejected, percent;
      }
      poll := poll + 1;
    }
    OutOfTime(answers, poll);
    return Thrown(Timeout), now, rejected, percent;
  }

  /** What the loop knows before poll `n`: nothing failed or finished, and what was read and written so far. */
  predicate Polled(used: Usage, answers: seq<Answer>, n: nat, now: Usage, all: seq<Report>)
    requires n <= |answers|
  {
    NoneBefore(answers, n) && Collected(answers) == all + Collected(answers[n..]) && SpentSoFar(used, answers, n, now)
  }

  lemma {:induction false} NextPoll(used: Usage, answers: seq<Answer>, n: nat, now: Usage, all: seq<Report>)
    requires n < |answers| && n < MAX_POLLS && Polled(used, answers, n, now, all)
    requires Answered(answers[n]) && Within(Plus(now, AnswerCost(answers[n])))
    ensures var next, more := Plus(now, AnswerCost(answers[n])), all + answers[n].reports;
            if answers[n].percent == 100 then FinishesAt(answers, n) && more == Collected(answers)
              && next == Plus(used, Spent(answers))
            else Polled(used, answers, n + 1, next, more)
  {
    NextAnswer(answers, n, all);
    NextSpent(used, answers, n, now);
  }

  lemma OutOfTime(answers: seq<Answer>, n: nat)
    requires NoneBefore(answers, n) && (n >= |answers| || n >= MAX_POLLS)
    ensures forall k :: !FinishesAt(answers, k)
    ensures forall k :: !ProjectionFailsAt(answers, k)
  {
  }

  predicate NoneBefore(answers: seq<Answer>, n: nat) {
    forall i :: 0 <= i < n && i < |answers| ==> Answered(answers[i]) && answers[i].percent != 100
  }

  predicate SpentSoFar(used: Usage, answers: seq<Answer>, n: nat, now: Usage)
    requires n <= |answers|
  {
    && now == Plus(used, Total(AnswerCosts(answers)[..n])) && Within(now)
    && Spent(answers) == Plus(Total(AnswerCosts(answers)[..n]), Spent(answers[n..]))
  }

  lemma {:induction false} NextSpent(used: Usage, answers: seq<Answer>, n: nat, now: Usage)
    requires n < |answers| && SpentSoFar(used, answers, n, now)
    ensures var next := Plus(now, AnswerCost(answers[n]));
            && next == Plus(used, Total(AnswerCosts(answers)[..n + 1]))
            && (answers[n].percent == 100 ==> Plus(used, Spent(answers)) == next)
            && (answers[n].percent != 100 && Within(next) ==> SpentSoFar(used, answers, n + 1, next))
            && (Within(Plus(used, Spent(answers))) ==> Within(next))
  {
    TotalNext(AnswerCosts(answers), n);
    SpentNext(answers, n);
    InSteps(used, Total(AnswerCosts(answers)[..n]), AnswerCost(answers[n]), Spent(answers[n + 1..]));
  }

  lemma {:induction false} SpentNext(answers: seq<Answer>, n: nat)
    requires n < |answers|
    ensures Spent(answers[n..]) == if answers[n].percent == 100 then AnswerCost(answers[n])
                                   else Plus(AnswerCost(answers[n]), Spent(answers[n + 1..]))
  {
    assert answers[n..][0] == answers[n] && answers[n..][1..] == answers[n + 1..];
  }

  /**
  Where poll `n` cannot be read, the task does not finish within the limits, and fails in the known way at
  most there.
  */
  lemma {:induction false} PollFails(used: Usage, answers: seq<Answer>, n: nat, now: Usage)
    requires n < |answers| && n < MAX_POLLS && NoneBefore(answers, n) && SpentSoFar(used, answers, n, now)
    requires !(Answered(answers[n]) && Within(Plus(now, AnswerCost(answers[n]))))
    ensures !((exists k :: FinishesAt(answers, k)) && Within(Plus(used, Spent(answers))))
    ensures KnownFailure(answers[n]) ==> ProjectionFailsAt(answers, n)
    ensures Plus(now, answers[n].cost) == Plus(used, FailSpent(answers, n))
    ensures forall k :: ProjectionFailsAt(answers, k) && Within(Plus(used, FailSpent(answers, k))) ==>
                          k == n && KnownFailure(answers[n])
  {
    NextSpent(used, answers, n, now);
    forall k | ProjectionFailsAt(answers, k) && Within(Plus(used, FailSpent(answers, k)))
      ensures k == n && KnownFailure(answers[n])
    {
      if k > n {
        var costs := AnswerCosts(answers)[..k];
        assert costs[..n + 1] == AnswerCosts(answers)[..n + 1];
        TotalGrows(used, costs, n + 1);
      }
    }
  }

  lemma {:induction false} NextAnswer(answers: seq<Answer>, n: nat, all: seq<Report>)
    requires n < |answers| && Collected(answers) == all + Collected(answers[n..])
    ensures answers[n].percent == 100 ==> Collected(answers) == all + answers[n].reports
    ensures answers[n].percent != 100 ==> Collected(answers) == all + answers[n].reports + Collected(answers[n + 1..])
  {
    assert answers[n..][1..] == answers[n + 1..];
  }

  /** A task with the reads of its input before and of its output after. */
  method Poll(used: Usage, t: Task, compile: bool)
    returns (r: Try<seq<Report>>, now: Usage, rejected: bool, percent: int)
    requires Within(used)
    ensures r.Done? <==> Finishes(t) && Within(Plus(used, TaskCost(t)))
    ensures r.Done? ==> r.value == Collected(t.answers) && now == Plus(used, TaskCost(t))
    ensures r.Done? ==> (rejected <==> !Clean(r.value, compile))
    ensures r == Thrown(CallFailed(PROJECTION_HRESULT, PROJECTION_CODE)) ==>
              t.input.ok && exists n :: ProjectionFailsAt(t.answers, n) && percent == t.answers[n].percent
                                        && now == Plus(used, FailCost(t, n))
    ensures forall n :: t.input.ok && ProjectionFailsAt(t.answers, n) && Within(Plus(used, FailCost(t, n))) ==>
                          r == Thrown(CallFailed(PROJECTION_HRESULT, PROJECTION_CODE))
    ensures Within(now)
  {
    now, rejected, percent := used, false, 0;
    TaskInSteps(used, t);
    var input := Pass(now, t.input);
    if input.Thrown? {
      return Thrown(input.error), now, rejected, percent;
    }
    now := input.value;
    r, now, rejected, percent := PollAnswers(now, t.answers, compile);
    if r.Thrown? {
      return;
    }
    var output := Pass(now, t.output);
    if output.Thrown? {
      FinishedDoesNotFail(t.answers);
      return Thrown(output.error), now, rejected, percent;
    }
    now := output.value;
    FinishedDoesNotFail(t.answers);
  }

  lemma TaskInSteps(used: Usage, t: Task)
    ensures var read := Plus(used, t.input.cost);
            && Plus(used, TaskCost(t)) == Plus(Plus(read, Spent(t.answers)), t.output.cost)
            && (Within(Plus(used, TaskCost(t))) ==> Within(read) && Within(Plus(read, Spent(t.answers))))
            && (forall n: nat :: n < |t.answers| ==> Plus(used, FailCost(t, n)) == Plus(read, FailSpent(t.answers, n)))
            && (forall n: nat :: n < |t.answers| && Within(Plus(used, FailCost(t, n))) ==> Within(read))
  {
    InSteps(used, t.input.cost, Spent(t.answers), t.output.cost);
    forall n: nat | n < |t.answers|
      ensures Plus(used, FailCost(t, n)) == Plus(Plus(used, t.input.cost), FailSpent(t.answers, n))
      ensures Within(Plus(used, FailCost(t, n))) ==> Within(Plus(used, t.input.cost))
    {
      TwoSteps(used, t.input.cost, FailSpent(t.answers, n));
    }
  }

  lemma FinishedDoesNotFail(answers: seq<Answer>)
    requires exists n :: FinishesAt(answers, n)
    ensures forall n :: !ProjectionFailsAt(answers, n)
  {
    var k: nat :| FinishesAt(answers, k);
    forall n
      ensures !ProjectionFailsAt(answers, n)
    {
    }
  }

  /**
  Reads the resource's end marker and compares what it announces with the rows. Succeeds exactly
  when there is one marker and both its numbers are right.
  */
  method CheckedReportCounts(reports: seq<Report>, name: string, every: bool, parse: string -> Option<int>)
    returns (r: Try<(nat, nat)>)
    ensures r.Done? <==> CountsAgree(reports, name, every, parse)
    ensures r.Done? ==> r.value == (Count(reports, 2, name, every), Count(reports, 3, name, every))
  {
    var marks := x => Marks(x, name);
    var markers := Pairing.FindAll(reports, marks, true);
    if |markers| != 1 {
      assert forall i :: EndMarker(reports, name, i) ==> Pairing.OnlyAt(reports, marks, i, true);
      return Thrown(MarkerMissing);
    }
    var expected := reports[markers[0]].arguments;
    assert EndMarker(reports, name, markers[0]);
    var errors, warnings := 0, 0;
    for i := 0 to |reports|
      invariant errors == Count(reports[..i], 2, name, every) && warnings == Count(reports[..i], 3, name, every)
    {
      assert reports[..i + 1][..i] == reports[..i];
      if every || reports[i].name == name {
        if reports[i].kind == 2 {
          errors := errors + 1;
        }
        if reports[i].kind == 3 {
          warnings := warnings + 1;
        }
      }
    }
    assert reports[..|reports|] == reports;
    if |expected| != 2 || parse(expected[0]) != Some(errors) || parse(expected[1]) != Some(warnings) {
      return Thrown(CountsDiffer);
    }
    return Done((errors, warnings));
  }

  /** Compares the published channels of a resource with the generated ones, one by one. */
  method PublishedCode(used: Usage, p: Published, name: string, generated: map<string, Code>)
    returns (r: Try<bool>, now: Usage)
    requires Within(used)
    ensures r.Done? <==> Identified(p, name) && Within(Plus(used, p.cost))
    ensures r.Done? ==> (r.value <==> Current(p, name, generated)) && now == Plus(used, p.cost)
    ensures r.Thrown? ==> !r.error.CallFailed?
  {
    now := used;
    if !p.readable {
      return Thrown(PublishedUnreadable), now;
    }
    var bound := name in generated;
    var exact, nonempty := bound, false;
    for j := 0 to 3
      invariant exact <==> bound && forall k :: 0 <= k < j ==> p.channels[k] == generated[name][k]
      invariant nonempty <==> exists k :: 0 <= k < j && p.channels[k] != []
    {
      exact := exact && p.channels[j] == generated[name][j];
      nonempty := nonempty || p.channels[j] != [];
    }
    var logged := Write(now, p.cost);
    if logged.Thrown? {
      return Thrown(LogFull), now;
    }
    now := logged.value;
    if p.kind != RESOURCE_KIND || p.name != name {
      return Thrown(IdentityDiffers), now;
    }
    return Done(bound && exact && nonempty), now;
  }

  /** The code must be the current one, and what reading it writes must fit. */
  method RequireCurrent(used: Usage, p: Published, name: string, generated: map<string, Code>) returns (r: Try<Usage>)
    requires Within(used)
    ensures r.Done? <==> Current(p, name, generated) && Within(Plus(used, p.cost))
    ensures r.Done? ==> r.value == Plus(used, p.cost)
  {
    var published, now := PublishedCode(used, p, name, generated);
    if published.Thrown? {
      return Thrown(published.error);
    }
    return if published.value then Done(now) else Thrown(CodeChanged);
  }

  method CountMismatches(reports: seq<Report>) returns (count: nat)
    ensures count > 0 <==> exists r :: r in reports && Misidentifies(r)
  {
    count := 0;
    for i := 0 to |reports|
      invariant count > 0 <==> exists k :: 0 <= k < i && Misidentifies(reports[k])
    {
      if Misidentifies(reports[i]) {
        count := count + 1;
      }
    }
  }

  /** After a failed projection the rest of the task is drained and the code is read again. */
  method DrainFailed(used: Usage, r: Round, tail: Task, percent: int, generated: map<string, Code>)
    returns (result: Try<Usage>)
    requires Within(used)
    ensures result.Done? <==>
            r.failure.ok && (percent == 100 || Finishes(tail)) && Current(r.after, r.name, generated)
            && Within(Plus(used, DrainedCost(r, tail, percent)))
    ensures result.Done? ==> result.value == Plus(used, DrainedCost(r, tail, percent))
  {
    result := Pass(used, r.failure);
    if result.Thrown? {
      return;
    }
    if percent != 100 {
      var rest, now, rejected, last := Poll(result.value, tail, false);
      if rest.Thrown? {
        return Thrown(rest.error);
      }
      result := Done(now);
    }
    result := RequireCurrent(result.value, r.after, r.name, generated);
  }

  /** What comes before the task: the resource, its published code, and the start of the check. */
  datatype Entry = Skip(now: Usage) | Enter(now: Usage) | Broken(error: Error)

  method EnterRound(used: Usage, r: Round, c: Context) returns (e: Entry)
    requires Within(used)
    ensures e.Enter? <==> Enters(r, c) && Within(Plus(used, EnterCost(r)))
    ensures e.Enter? ==> e.now == Plus(used, EnterCost(r))
    ensures e.Skip? <==> RoundSkips(r, c.generated) && Within(Plus(used, SkipCost(r)))
    ensures e.Skip? ==> e.now == Plus(used, SkipCost(r))
  {
    InSteps(used, r.entered.cost, r.before.cost, r.started.cost);
    InSteps(used, r.entered.cost, r.before.cost, r.skip.cost);
    if r.kind != RESOURCE_KIND {
      return Broken(NotAResource);
    }
    var entered := Pass(used, r.entered);
    if entered.Thrown? {
      return Broken(entered.error);
    }
    var before, now := PublishedCode(entered.value, r.before, r.name, c.generated);
    if before.Thrown? {
      return Broken(before.error);
    }
    if !before.value {
      var skipped := Pass(now, r.skip);
      return if skipped.Thrown? then Broken(skipped.error) else Skip(skipped.value);
    }
    if !HasCompiler(c, r.name) {
      return Broken(NoCompiler);
    }
    var started := Pass(now, r.started);
    return if started.Thrown? then Broken(started.error) else Enter(started.value);
  }

  predicate Leaves(r: Round, generated: map<string, Code>) {
    r.details.ok && Current(r.after, r.name, generated)
  }

  /** What comes after the task: the counts, the locations, and the published code again. */
  method LeaveRound(used: Usage, r: Round, reports: seq<Report>, c: Context, every: bool)
    returns (result: Try<Usage>, mismatches: nat)
    requires Within(used)
    ensures result.Done? <==>
        CountsAgree(reports, r.name, every, c.parse) && Leaves(r, c.generated)
        && Within(Plus(used, LeaveCost(r)))
    ensures result.Done? ==> result.value == Plus(used, LeaveCost(r))
    ensures result.Done? ==> (mismatches > 0 <==> exists x :: x in reports && Misidentifies(x))
  {
    mismatches := 0;
    var counts := CheckedReportCounts(reports, r.name, every, c.parse);
    if counts.Thrown? {
      return Thrown(counts.error), mismatches;
    }
    mismatches := CountMismatches(reports);
    result := Pass(used, r.details);
    if result.Done? {
      result := RequireCurrent(result.value, r.after, r.name, c.generated);
    }
  }

  ghost predicate RoundDrains(r: Round, tail: Task, c: Context, used: Usage) {
    && Enters(r, c)
    && exists n :: DrainsAt(r, tail, c.generated, n) && Within(Plus(used, DrainCost(r, tail, n)))
  }

  /**
  One check of one resource. It is completed exactly when everything the round shows is in order and all it
  writes fits, skipped exactly when the published code is not the current one, and otherwise breaks the run
  off, except for the one known projection failure where that is tolerated.
  */
  method CheckRound(used: Usage, r: Round, tail: Task, c: Context, every: bool, tolerant: bool)
    returns (result: Try<RoundResult>, now: Usage)
    requires Within(used)
    ensures result.Done? && result.value.Completed? <==>
            RoundCompletes(r, c, every) && Within(Plus(used, RoundCost(r)))
    ensures result.Done? && result.value.Skipped? <==> RoundSkips(r, c.generated) && Within(Plus(used, SkipCost(r)))
    ensures result.Done? && result.value.ProjectionFailed? <==> tolerant && RoundDrains(r, tail, c, used)
    ensures result.Done? && result.value.Completed? ==>
              now == Plus(used, RoundCost(r))
              && (result.value.rejected <==> !Clean(Collected(r.task.answers), false))
              && (result.value.mismatches > 0 <==> Mismatched(r))
    ensures result.Done? && result.value.Skipped? ==> now == Plus(used, SkipCost(r))
    ensures result.Done? && RoundCompletes(r, c, every) ==> result.value.Completed?
    ensures Within(now)
  {
    now := used;
    RoundInSteps(used, r);
    DrainsOnlyFailures(used, r, tail, c);
    var entry := EnterRound(used, r, c);
    if entry.Broken? {
      return Thrown(entry.error), now;
    }
    if entry.Skip? {
      return Done(Skipped), entry.now;
    }
    var reports, after, rejected, percent := Poll(entry.now, r.task, false);
    if reports.Thrown? {
      if tolerant && reports.error == CallFailed(PROJECTION_HRESULT, PROJECTION_CODE) {
        FailedDoesNotFinish(r.task.answers);
        ghost var n :| ProjectionFailsAt(r.task.answers, n) && percent == r.task.answers[n].percent
                       && after == Plus(entry.now, FailCost(r.task, n));
        assert FailedAt(used, r, n, percent, after);
        result, now := DrainRound(used, r, tail, percent, after, c);
        return;
      }
      return Thrown(reports.error), now;
    }
    FinishedDoesNotFail(r.task.answers);
    var left, mismatches := LeaveRound(after, r, reports.value, c, every);
    if left.Thrown? {
      return Thrown(left.error), now;
    }
    return Done(Completed(rejected, mismatches)), left.value;
  }

  /** A round within the limits is within them at every step. */
  lemma RoundInSteps(used: Usage, r: Round)
    ensures var entered := Plus(used, EnterCost(r));
            && Plus(used, RoundCost(r)) == Plus(Plus(entered, TaskCost(r.task)), LeaveCost(r))
            && (Within(Plus(used, RoundCost(r))) ==> Within(entered) && Within(Plus(entered, TaskCost(r.task))))
  {
    InSteps(used, EnterCost(r), TaskCost(r.task), LeaveCost(r));
  }

  lemma DrainInSteps(used: Usage, r: Round, tail: Task, n: nat)
    requires n < |r.task.answers|
    ensures var failed := Plus(Plus(used, EnterCost(r)), FailCost(r.task, n));
            && Plus(used, DrainCost(r, tail, n)) == Plus(failed, DrainedCost(r, tail, r.task.answers[n].percent))
            && (Within(Plus(used, DrainCost(r, tail, n))) ==> Within(Plus(used, EnterCost(r))) && Within(failed))
  {
    InSteps(used, EnterCost(r), FailCost(r.task, n), DrainedCost(r, tail, r.task.answers[n].percent));
  }

  /** Only a round that was entered, and whose task failed in the known way, can be drained. */
  lemma DrainsOnlyFailures(used: Usage, r: Round, tail: Task, c: Context)
    ensures RoundDrains(r, tail, c, used) ==>
              Enters(r, c) && Within(Plus(used, EnterCost(r))) && r.task.input.ok
              && exists n :: ProjectionFailsAt(r.task.answers, n)
                             && Within(Plus(Plus(used, EnterCost(r)), FailCost(r.task, n)))
  {
    if RoundDrains(r, tail, c, used) {
      var n :| DrainsAt(r, tail, c.generated, n) && Within(Plus(used, DrainCost(r, tail, n)));
      DrainInSteps(used, r, tail, n);
    }
  }

  lemma FailedDoesNotFinish(answers: seq<Answer>)
    requires exists n :: ProjectionFailsAt(answers, n)
    ensures forall n :: !FinishesAt(answers, n)
    ensures forall n, m :: ProjectionFailsAt(answers, n) && ProjectionFailsAt(answers, m) ==> n == m
  {
    if k: nat :| FinishesAt(answers, k) {
      FinishedDoesNotFail(answers);
    }
  }

  /** The poll at which the projection failed, and what had been written by then. */
  ghost predicate FailedAt(used: Usage, r: Round, n: int, percent: int, at: Usage) {
    && ProjectionFailsAt(r.task.answers, n) && percent == r.task.answers[n].percent
    && at == Plus(Plus(used, EnterCost(r)), FailCost(r.task, n))
  }

  method DrainRound(used: Usage, r: Round, tail: Task, percent: int, at: Usage, c: Context)
    returns (result: Try<RoundResult>, now: Usage)
    requires Within(used) && Within(at) && Enters(r, c) && r.task.input.ok
    requires exists n :: FailedAt(used, r, n, percent, at)
    ensures result.Done? <==> RoundDrains(r, tail, c, used)
    ensures result.Done? ==> result.value.ProjectionFailed?
    ensures Within(now)
  {
    ghost var n :| FailedAt(used, r, n, percent, at);
    FailedDoesNotFinish(r.task.answers);
    DrainInSteps(used, r, tail, n);
    var drained := DrainFailed(at, r, tail, percent, c.generated);
    if drained.Thrown? {
      return Thrown(drained.error), used;
    }
    assert DrainsAt(r, tail, c.generated, n);
    return Done(ProjectionFailed), drained.value;
  }

  datatype Tally = Tally(completed: nat, failed: nat, skipped: nat, mismatches: nat, rejected: bool)

  predicate AllAccepted(t: Tally) { t.failed == 0 && t.skipped == 0 && !t.rejected }

  function Added(t: Tally, r: RoundResult): Tally {
    match r
    case Skipped => t.(skipped := t.skipped + 1)
    case ProjectionFailed => t.(failed := t.failed + 1)
    case Completed(rejected, mismatches) =>
      Tally(t.completed + 1, t.failed, t.skipped, t.mismatches + mismatches, t.rejected || rejected)
  }

  /** What the public check of one resource came to, and wrote. */
  ghost predicate FirstResult(t: Target, c: Context, used: Usage, r: RoundResult, after: Usage) {
    && (r.Completed? <==> TargetCompletes(t, c))
    && (r.Completed? ==>
          after == Plus(used, RoundCost(t.first)) && (r.mismatches > 0 <==> Mismatched(t.first))
          && (!r.rejected <==> TargetPasses(t, c)))
    && (r.ProjectionFailed? ==> c.compilers.Some?)
    && (AsksAgain(t, c) <==> r.ProjectionFailed? || (r.Completed? && r.mismatches > 0))
  }

  /** The public check of one resource; a failed projection is tolerated where the compilers are shared. */
  method FirstCheck(used: Usage, t: Target, c: Context) returns (r: Try<RoundResult>, now: Usage)
    requires Within(used)
    ensures r.Done? ==> FirstResult(t, c, used, r.value, now)
    ensures r.Thrown? ==> !(TargetCompletes(t, c) && Within(Plus(used, RoundCost(t.first))))
    ensures Within(now)
  {
    r, now := CheckRound(used, t.first, t.tail, c, true, c.compilers.Some?);
    DrainedOrCompleted(t, c);
  }

  /** A round that is drained is neither completed nor skipped. */
  lemma DrainedOrCompleted(t: Target, c: Context)
    ensures Drains(t, c) ==> !TargetCompletes(t, c) && !RoundSkips(t.first, c.generated)
  {
    if Drains(t, c) {
      FailedDoesNotFinish(t.first.task.answers);
    }
  }

  /** The second check of one resource. */
  method SecondCheck(used: Usage, t: Target, c: Context)
    returns (r: Try<RoundResult>, now: Usage)
    requires Within(used)
    ensures r.Done? <==> RecheckEnds(t, c) && Within(Plus(used, RawCost(t, c.generated)))
    ensures r.Done? ==>
        now == Plus(used, RawCost(t, c.generated))
        && (r.value.Skipped? <==> RoundSkips(t.raw, c.generated))
    ensures r.Done? && !r.value.Skipped? ==>
              r.value.Completed? && (r.value.rejected <==> !Clean(Collected(t.raw.task.answers), false))
    ensures Within(now)
  {
    r, now := CheckRound(used, t.raw, t.tail, c, false, false);
  }

  /** What a public pass comes to: its status, and whether a second pass is due. */
  datatype Summary = Summary(status: Status, due: bool)

  function Summarized(t: Tally): Summary {
    Summary(if t.failed > 0 || t.skipped > 0 then Incomplete else if t.rejected then Rejected else Accepted,
            t.failed > 0 || t.mismatches > 0)
  }

  /** The status of a public pass that ended. */
  ghost predicate StatusIs(status: Status, targets: seq<Target>, c: Context) {
    && (status == Incomplete <==> !CompleteUpTo(targets, |targets|, c))
    && (status == Accepted <==> PassUpTo(targets, |targets|, c))
    && (status == Rejected <==> CompleteUpTo(targets, |targets|, c) && !PassUpTo(targets, |targets|, c))
  }

  /** The rounds of the public pass, one resource after the other, and what they add up to. */
  method TallyAll(used: Usage, targets: seq<Target>, c: Context) returns (r: Try<Tally>, now: Usage)
    requires Within(used)
    ensures r.Done? ==> Tallied(used, targets, |targets|, c, r.value, now)
    ensures r.Thrown? ==> !(PassUpTo(targets, |targets|, c) && Within(Plus(used, Total(PublicCosts(targets)))))
    ensures Within(now)
  {
    var tally := Tally(0, 0, 0, 0, false);
    now := used;
    NoneTallied(used, targets, c);
    for i := 0 to |targets|
      invariant Tallied(used, targets, i, c, tally, now)
    {
      r, now := TallyOne(used, targets, i, c, tally, now);
      if r.Thrown? {
        return;
      }
      tally := r.value;
    }
    return Done(tally), now;
  }

  method TallyOne(ghost used: Usage, targets: seq<Target>, i: nat, c: Context, tally: Tally, now: Usage)
    returns (r: Try<Tally>, after: Usage)
    requires i < |targets| && Tallied(used, targets, i, c, tally, now)
    ensures r.Done? ==> Tallied(used, targets, i + 1, c, r.value, after)
    ensures r.Thrown? ==> !(PassUpTo(targets, |targets|, c) && Within(Plus(used, Total(PublicCosts(targets)))))
    ensures Within(after)
  {
    var result;
    result, after := FirstCheck(now, targets[i], c);
    if result.Thrown? {
      BreaksOff(used, targets, i, c, tally, now);
      return Thrown(result.error), after;
    }
    NextTally(used, targets, i, c, tally, now, result.value, after);
    return Done(Added(tally, result.value)), after;
  }

  /**
  The public pass over all resources. It is accepted exactly when each one passes and all their rounds fit
  into the log, rejected when all are completed but one has an error, and incomplete otherwise; a second pass
  is due exactly when a check was drained or a row names another object.
  */
  method CheckAll(used: Usage, targets: seq<Target>, c: Context) returns (r: Try<Summary>, now: Usage)
    requires Within(used)
    ensures r.Done? && r.value.status == Accepted <==>
            PassUpTo(targets, |targets|, c) && Within(Plus(used, Total(PublicCosts(targets))))
    ensures r.Done? && r.value.status == Accepted ==>
              now == Plus(used, Total(PublicCosts(targets))) && (r.value.due <==> MismatchUpTo(targets, |targets|))
    ensures r.Done? ==> StatusIs(r.value.status, targets, c) && (r.value.due <==> DueUpTo(targets, |targets|, c))
    ensures Within(now)
  {
    var tally;
    tally, now := TallyAll(used, targets, c);
    if tally.Thrown? {
      return Thrown(tally.error), now;
    }
    TalliedAll(used, targets, c, tally.value, now);
    return Done(Summarized(tally.value)), now;
  }

  lemma NoneTallied(used: Usage, targets: seq<Target>, c: Context)
    requires Within(used)
    ensures Tallied(used, targets, 0, c, Tally(0, 0, 0, 0, false), used)
  {
  }

  lemma TalliedAll(used: Usage, targets: seq<Target>, c: Context, tally: Tally, now: Usage)
    requires Tallied(used, targets, |targets|, c, tally, now)
    ensures StatusIs(Summarized(tally).status, targets, c)
    ensures Summarized(tally).due <==> DueUpTo(targets, |targets|, c)
    ensures Summarized(tally).status == Accepted ==>
              now == Plus(used, Total(PublicCosts(targets)))
                && (Summarized(tally).due <==> MismatchUpTo(targets, |targets|))
  {
    if AllAccepted(tally) {
      AllCosts(used, PublicCosts(targets), now);
    }
    if PassUpTo(targets, |targets|, c) {
      assert CompleteUpTo(targets, |targets|, c);
    }
  }

  /** What the tally says of the first `n` resources. */
  ghost predicate Tallied(used: Usage, targets: seq<Target>, n: nat, c: Context, tally: Tally, now: Usage) {
    && n <= |targets| && tally.completed + tally.failed + tally.skipped == n && Within(now)
    && (c.compilers.None? ==> tally.failed == 0)
    && (tally.failed == 0 && tally.skipped == 0 <==> CompleteUpTo(targets, n, c))
    && (AllAccepted(tally) <==> PassUpTo(targets, n, c))
    && (AllAccepted(tally) ==> (tally.mismatches > 0 <==> MismatchUpTo(targets, n)))
    && (tally.failed > 0 || tally.mismatches > 0 <==> DueUpTo(targets, n, c))
    && (tally.failed == 0 && tally.skipped == 0 ==> AtCost(used, PublicCosts(targets), n, now))
  }

  lemma BreaksOff(used: Usage, targets: seq<Target>, n: nat, c: Context, tally: Tally, now: Usage)
    requires n < |targets| && Tallied(used, targets, n, c, tally, now)
    requires !(TargetCompletes(targets[n], c) && Within(Plus(now, RoundCost(targets[n].first))))
    ensures !(PassUpTo(targets, |targets|, c) && Within(Plus(used, Total(PublicCosts(targets)))))
  {
    if PassUpTo(targets, |targets|, c) {
      NextPass(targets, n, c);
      assert PassUpTo(targets, n, c);
      NextPublic(used, targets, n, now);
    }
  }

  lemma NextTally(used: Usage, targets: seq<Target>, n: nat, c: Context, tally: Tally, now: Usage, r: RoundResult,
      after: Usage)
    requires n < |targets| && Tallied(used, targets, n, c, tally, now) && Within(after)
    requires FirstResult(targets[n], c, now, r, after)
    ensures Tallied(used, targets, n + 1, c, Added(tally, r), after)
  {
    NextDue(targets, n, c);
    NextMismatch(targets, n);
    NextPass(targets, n, c);
    NextComplete(targets, n, c);
    if tally.failed == 0 && tally.skipped == 0 {
      NextPublic(used, targets, n, now);
    }
  }

  lemma NextDue(targets: seq<Target>, n: nat, c: Context)
    requires n < |targets|
    ensures DueUpTo(targets, n + 1, c) <==> DueUpTo(targets, n, c) || AsksAgain(targets[n], c)
  {
    if DueUpTo(targets, n + 1, c) {
      var i :| 0 <= i < n + 1 && i < |targets| && AsksAgain(targets[i], c);
      assert i < n || i == n;
    }
  }

  lemma NextMismatch(targets: seq<Target>, n: nat)
    requires n < |targets|
    ensures MismatchUpTo(targets, n + 1) <==> MismatchUpTo(targets, n) || Mismatched(targets[n].first)
  {
    if MismatchUpTo(targets, n + 1) {
      var i :| 0 <= i < n + 1 && i < |targets| && Mismatched(targets[i].first);
      assert i < n || i == n;
    }
  }

  lemma NextPass(targets: seq<Target>, n: nat, c: Context)
    requires n < |targets|
    ensures PassUpTo(targets, n + 1, c)
            <==> PassUpTo(targets, n, c) && TargetPasses(targets[n], c)
    ensures PassUpTo(targets, |targets|, c) ==> TargetPasses(targets[n], c)
  {
  }

  lemma NextComplete(targets: seq<Target>, n: nat, c: Context)
    requires n < |targets|
    ensures CompleteUpTo(targets, n + 1, c)
            <==> CompleteUpTo(targets, n, c) && TargetCompletes(targets[n], c)
  {
  }

  predicate SkipsUpTo(targets: seq<Target>, n: nat, generated: map<string, Code>) {
    exists i :: 0 <= i < n && i < |targets| && RoundSkips(targets[i].raw, generated)
  }

  /** Some second check has an error row. */
  predicate FindsUpTo(targets: seq<Target>, n: nat) {
    exists i :: 0 <= i < n && i < |targets| && !Clean(Collected(targets[i].raw.task.answers), false)
  }

  function RecheckStatus(targets: seq<Target>, generated: map<string, Code>): Status {
    if SkipsUpTo(targets, |targets|, generated) then Incomplete
    else if FindsUpTo(targets, |targets|) then Rejected else Accepted
  }

  lemma NextRecheck(targets: seq<Target>, n: nat, generated: map<string, Code>)
    requires n < |targets|
    ensures SkipsUpTo(targets, n + 1, generated) <==>
        SkipsUpTo(targets, n, generated)
        || RoundSkips(targets[n].raw, generated)
    ensures FindsUpTo(targets, n + 1) <==>
        FindsUpTo(targets, n)
        || !Clean(Collected(targets[n].raw.task.answers), false)
  {
    if SkipsUpTo(targets, n + 1, generated) {
      var i :| 0 <= i < n + 1 && i < |targets| && RoundSkips(targets[i].raw, generated);
      assert i < n || i == n;
    }
    if FindsUpTo(targets, n + 1) {
      var i :| 0 <= i < n + 1 && i < |targets| && !Clean(Collected(targets[i].raw.task.answers), false);
      assert i < n || i == n;
    }
  }

  lemma NextEnd(targets: seq<Target>, n: nat, c: Context)
    requires n < |targets|
    ensures RechecksEndUpTo(targets, n + 1, c)
            <==> RechecksEndUpTo(targets, n, c) && RecheckEnds(targets[n], c)
    ensures RechecksEndUpTo(targets, |targets|, c) ==>
              RecheckEnds(targets[n], c)
  {
  }

  lemma NextRaw(used: Usage, targets: seq<Target>, n: nat, now: Usage, generated: map<string, Code>)
    requires n < |targets| && AtCost(used, RawCosts(targets, generated), n, now)
    ensures Within(Plus(now, RawCost(targets[n], generated))) ==>
              AtCost(used, RawCosts(targets, generated), n + 1, Plus(now, RawCost(targets[n], generated)))
    ensures Within(Plus(used, Total(RawCosts(targets, generated)))) ==>
        Within(Plus(now, RawCost(targets[n], generated)))
  {
    NextCost(used, RawCosts(targets, generated), n, now);
  }

  lemma NextPublic(used: Usage, targets: seq<Target>, n: nat, now: Usage)
    requires n < |targets| && AtCost(used, PublicCosts(targets), n, now)
    ensures Within(Plus(now, RoundCost(targets[n].first))) ==>
              AtCost(used, PublicCosts(targets), n + 1, Plus(now, RoundCost(targets[n].first)))
    ensures Within(Plus(used, Total(PublicCosts(targets)))) ==> Within(Plus(now, RoundCost(targets[n].first)))
  {
    NextCost(used, PublicCosts(targets), n, now);
  }

  /**
  The second pass: it ends exactly when no recheck breaks off and all of them fit into the log, whatever they
  find.
  */
  method RecheckAll(used: Usage, targets: seq<Target>, c: Context)
    returns (r: Try<Status>, now: Usage)
    requires Within(used)
    ensures r.Done? <==>
            RechecksEndUpTo(targets, |targets|, c)
            && Within(Plus(used, Total(RawCosts(targets, c.generated))))
    ensures r.Done? ==>
        r.value == RecheckStatus(targets, c.generated)
        && now == Plus(used, Total(RawCosts(targets, c.generated)))
    ensures Within(now)
  {
    var skipped, rejected := 0, false;
    now := used;
    for i := 0 to |targets|
      invariant skipped >= 0 && RechecksEndUpTo(targets, i, c)
      invariant skipped > 0 <==> SkipsUpTo(targets, i, c.generated)
      invariant skipped == 0 ==> (rejected <==> FindsUpTo(targets, i))
      invariant AtCost(used, RawCosts(targets, c.generated), i, now)
    {
      NextRecheck(targets, i, c.generated);
      NextEnd(targets, i, c);
      NextRaw(used, targets, i, now, c.generated);
      var result, after := SecondCheck(now, targets[i], c);
      if result.Thrown? {
        return Thrown(result.error), now;
      }
      now := after;
      if result.value.Skipped? {
        skipped := skipped + 1;
      } else {
        rejected := rejected || result.value.rejected;
      }
    }
    AllCosts(used, RawCosts(targets, c.generated), now);
    return Done(if skipped > 0 then Incomplete else if rejected then Rejected else Accepted), now;
  }

  /** One compiler per resource, by name; a resource of another kind or a second one of the same name is refused. */
  method ResourceContexts(used: Usage, targets: seq<Target>) returns (r: Try<set<string>>, now: Usage)
    requires Within(used)
    ensures r.Done? <==> ContextsOpen(targets) && Within(Plus(used, Total(ContextCosts(targets))))
    ensures r.Done? ==> r.value == Names(targets) && now == Plus(used, Total(ContextCosts(targets)))
    ensures Within(now)
  {
    var contexts: set<string> := {};
    now := used;
    for i := 0 to |targets|
      invariant contexts == Names(targets[..i]) && ContextsOpen(targets[..i])
      invariant AtCost(used, ContextCosts(targets), i, now)
    {
      NextContext(targets, i);
      NextContextCost(used, targets, i, now);
      if targets[i].kind != RESOURCE_KIND {
        return Thrown(NotAResource), now;
      }
      var context := Pass(now, targets[i].context);
      if context.Thrown? {
        return Thrown(context.error), now;
      }
      now := context.value;
      if targets[i].name in contexts {
        return Thrown(NoCompiler), now;
      }
      contexts := contexts + {targets[i].name};
    }
    AllCosts(used, ContextCosts(targets), now);
    assert targets[..|targets|] == targets;
    return Done(contexts), now;
  }

  lemma NextContext(targets: seq<Target>, n: nat)
    requires n < |targets|
    ensures Names(targets[..n + 1]) == Names(targets[..n]) + {targets[n].name}
    ensures ContextsOpen(targets[..n + 1]) <==>
            ContextsOpen(targets[..n]) && targets[n].kind == RESOURCE_KIND && targets[n].context.ok
            && targets[n].name !in Names(targets[..n])
    ensures ContextsOpen(targets) ==> ContextsOpen(targets[..n + 1])
  {
    var front, more := targets[..n], targets[..n + 1];
    assert more == front + [targets[n]];
    assert forall i :: 0 <= i < n ==> more[i] == front[i];
  }

  lemma NextContextCost(used: Usage, targets: seq<Target>, n: nat, now: Usage)
    requires n < |targets| && AtCost(used, ContextCosts(targets), n, now)
    ensures Within(Plus(now, targets[n].context.cost)) ==>
              AtCost(used, ContextCosts(targets), n + 1, Plus(now, targets[n].context.cost))
    ensures Within(Plus(used, Total(ContextCosts(targets)))) ==> Within(Plus(now, targets[n].context.cost))
  {
    NextCost(used, ContextCosts(targets), n, now);
  }

  /** Compares the bodies found in the workspace with the submitted ones, stopping at the first that differs. */
  method ReadSources(found: map<Key, Bytes>, submitted: seq<Source>) returns (r: Try<()>)
    ensures r.Done? <==> Unchanged(found, submitted)
  {
    for i := 0 to |submitted|
      invariant forall k :: 0 <= k < i ==> submitted[k].key in found && found[submitted[k].key] == submitted[k].body
    {
      var s := submitted[i];
      if s.key !in found || found[s.key] != s.body {
        return Thrown(SourceDiffers);
      }
    }
    return Done(());
  }

  method ReadBoth(used: Usage, reading: Reading, q: Request) returns (r: Try<Usage>)
    requires Within(used)
    ensures r.Done? <==> BothUnchanged(reading, q) && Within(Plus(used, reading.read.cost))
    ensures r.Done? ==> r.value == Plus(used, reading.read.cost)
  {
    var programs := ReadSources(reading.found, q.programs);
    if programs.Thrown? {
      return Thrown(programs.error);
    }
    var libraries := ReadSources(reading.found, q.libraries);
    if libraries.Thrown? {
      return Thrown(libraries.error);
    }
    r := Pass(used, reading.read);
  }

  method GeneratedCode(rows: seq<Resource>) returns (r: Try<map<string, Code>>)
    ensures r.Done? <==> Unambiguous(rows)
    ensures r.Done? ==> r.value == CodeOf(rows)
  {
    var result: map<string, Code> := map[];
    for i := 0 to |rows|
      invariant Unambiguous(rows[..i]) && result == CodeOf(rows[..i])
      invariant forall x :: x in result <==> exists k :: 0 <= k < i && rows[k].name == x
    {
      if rows[i].name == "" || rows[i].name in result {
        return Thrown(AmbiguousCode);
      }
      assert rows[..i + 1][..i] == rows[..i];
      result := result[rows[i].name := rows[i].code];
    }
    assert rows[..|rows|] == rows;
    return Done(result);
  }

  /** The public pass and the event that closes it. */
  method FirstPass(used: Usage, o: Observed, c: Context) returns (r: Try<Summary>, now: Usage)
    requires Within(used)
    ensures r.Done? && r.value.status == Accepted <==> FirstPasses(o, c) && Within(Plus(used, FirstPassCost(o)))
    ensures r.Done? && r.value.status == Accepted ==>
              now == Plus(used, FirstPassCost(o)) && (r.value.due <==> MismatchUpTo(o.targets, |o.targets|))
    ensures r.Done? ==> StatusIs(r.value.status, o.targets, c) && (r.value.due <==> DueUpTo(o.targets, |o.targets|, c))
    ensures Within(now)
  {
    TwoSteps(used, Total(PublicCosts(o.targets)), o.tallied.cost);
    r, now := CheckAll(used, o.targets, c);
    if r.Thrown? {
      return;
    }
    var tallied := Pass(now, o.tallied);
    if tallied.Thrown? {
      return Thrown(tallied.error), now;
    }
    now := tallied.value;
  }

  /** The second pass and the event that closes it. */
  method SecondPass(used: Usage, o: Observed, c: Context) returns (r: Try<Status>, now: Usage)
    requires Within(used) && c.generated == CodeOf(o.generated)
    ensures r.Done? <==> SecondPasses(o, c) && Within(Plus(used, SecondPassCost(o)))
    ensures r.Done? ==> r.value == RecheckStatus(o.targets, c.generated) && now == Plus(used, SecondPassCost(o))
    ensures Within(now)
  {
    TwoSteps(used, Total(RawCosts(o.targets, c.generated)), o.retallied.cost);
    r, now := RecheckAll(used, o.targets, c);
    if r.Thrown? {
      return;
    }
    var retallied := Pass(now, o.retallied);
    if retallied.Thrown? {
      return Thrown(retallied.error), now;
    }
    now := retallied.value;
  }

  /** The status of the second pass: only shared compilers check again, and only where the first pass asks for it. */
  ghost function AgainStatus(o: Observed, c: Context): Status {
    if c.compilers.Some? && DueUpTo(o.targets, |o.targets|, c) then RecheckStatus(o.targets, c.generated)
    else NotRequested
  }

  /** Both passes: the status of the first, and of the second where one is due. */
  method CheckTargets(used: Usage, o: Observed, c: Context)
    returns (r: Try<()>, status: Status, again: Status, now: Usage)
    requires Within(used) && c.generated == CodeOf(o.generated)
    ensures r.Done? && status == Accepted <==> PassesEnd(o, c) && Within(Plus(used, PassesCost(o, c.compilers.Some?)))
    ensures r.Done? && status == Accepted ==> now == Plus(used, PassesCost(o, c.compilers.Some?))
    ensures r.Done? ==> StatusIs(status, o.targets, c) && again == AgainStatus(o, c)
    ensures Within(now)
  {
    status, again := Incomplete, NotRequested;
    PassesInSteps(used, o, c.compilers.Some?);
    var first;
    first, now := FirstPass(used, o, c);
    if first.Thrown? {
      return Thrown(first.error), status, again, now;
    }
    status := first.value.status;
    if first.value.due && c.compilers.Some? {
      var second;
      second, now := SecondPass(now, o, c);
      if second.Thrown? {
        return Thrown(second.error), status, Incomplete, now;
      }
      again := second.value;
    }
    r := Done(());
  }

  lemma PassesInSteps(used: Usage, o: Observed, shared: bool)
    ensures var first := Plus(used, FirstPassCost(o));
            && (Within(Plus(used, PassesCost(o, shared))) ==> Within(first))
            && Plus(used, PassesCost(o, shared)) == if NeedsSecond(o, shared) then Plus(first, SecondPassCost(o))
              else first
  {
    MaybeMore(used, FirstPassCost(o), SecondPassCost(o), NeedsSecond(o, shared));
  }

  lemma CheckInSteps(used: Usage, q: Request, o: Observed)
    ensures var headed := Plus(used, HeadCost(q, o));
            && Plus(used, CheckCost(q, o)) == Plus(headed, PassesCost(o, !q.standaloneSfc))
            && (Within(Plus(used, CheckCost(q, o))) ==> Within(headed))
  {
    TwoSteps(used, HeadCost(q, o), PassesCost(o, !q.standaloneSfc));
  }

  lemma HeadInSteps(used: Usage, q: Request, o: Observed)
    ensures var selected := Plus(used, o.selection.cost);
            && Plus(used, HeadCost(q, o)) == (if q.standaloneSfc then selected
              else Plus(selected, Total(ContextCosts(o.targets))))
            && (Within(Plus(used, HeadCost(q, o))) ==> Within(selected))
  {
    TwoSteps(used, o.selection.cost, if q.standaloneSfc then NOTHING else Total(ContextCosts(o.targets)));
  }

  // ---------- the run ----------

  class Validation {
    var compileStatus: Status
    var checkStatus: Status
    var recheckStatus: Status
    var exported: bool
    var used: Usage

    constructor ()
      ensures compileStatus == checkStatus == recheckStatus == NotStarted && !exported && used == NOTHING
    {
      compileStatus, checkStatus, recheckStatus, exported, used := NotStarted, NotStarted, NotStarted, false, NOTHING;
    }

    /** Checks every resource, and checks them a second time when a projection failed or a row names another object. */
    method CheckResources(q: Request, o: Observed, parse: string -> Option<int>) returns (r: Try<()>)
      requires Within(used) && !q.standaloneSfc
      modifies `checkStatus, `recheckStatus, `used
      ensures Within(used)
      ensures r.Done? && checkStatus == Accepted <==>
          CheckPasses(q, o, parse)
          && Within(Plus(old(used), CheckCost(q, o)))
      ensures r.Done? && checkStatus == Accepted ==> used == Plus(old(used), CheckCost(q, o))
      ensures r.Done? && o.targets == [] ==> CodeOf(o.generated) == map[] && checkStatus == NotApplicable
      ensures r.Done? && o.targets != [] ==>
                StatusIs(checkStatus, o.targets, ContextOf(q, o, parse))
                && recheckStatus == AgainStatus(o, ContextOf(q, o, parse))
    {
      CheckInSteps(used, q, o);
      HeadInSteps(used, q, o);
      var selection := Pass(used, o.selection);
      if selection.Thrown? {
        return Thrown(selection.error);
      }
      used := selection.value;
      if o.targets == [] {
        if CodeOf(o.generated) != map[] {
          return Thrown(EmptySelection);
        }
        checkStatus := NotApplicable;
        return Done(());
      }
      var contexts;
      contexts, used := ResourceContexts(used, o.targets);
      if contexts.Thrown? {
        checkStatus := NotStarted;
        return Thrown(contexts.error);
      }
      var c := Context(Some(contexts.value), CodeOf(o.generated), parse);
      r, checkStatus, recheckStatus, used := CheckTargets(used, o, c);
    }

    method CheckSfcResources(q: Request, o: Observed, parse: string -> Option<int>) returns (r: Try<()>)
      requires Within(used) && q.standaloneSfc
      modifies `checkStatus, `recheckStatus, `used
      ensures Within(used)
      ensures r.Done? && checkStatus == Accepted <==>
          CheckPasses(q, o, parse)
          && Within(Plus(old(used), CheckCost(q, o)))
      ensures r.Done? && checkStatus == Accepted ==> used == Plus(old(used), CheckCost(q, o))
      ensures r.Done? && o.targets == [] ==> checkStatus == Incomplete
      ensures r.Done? && o.targets != [] ==>
                StatusIs(checkStatus, o.targets, ContextOf(q, o, parse)) && recheckStatus == NotRequested
    {
      CheckInSteps(used, q, o);
      HeadInSteps(used, q, o);
      var selection := Pass(used, o.selection);
      if selection.Thrown? {
        return Thrown(selection.error);
      }
      used := selection.value;
      var c := Context(None, CodeOf(o.generated), parse);
      r, checkStatus, recheckStatus, used := CheckTargets(used, o, c);
      if o.targets == [] {
        checkStatus := Incomplete;
      }
    }

    /** Up to the generated code: sources, build, sources again. */
    method Build(q: Request, o: Observed) returns (r: Try<map<string, Code>>)
      requires Within(used)
      modifies `compileStatus, `used
      ensures Within(used)
      ensures r.Done? && compileStatus == Accepted <==> BuildPasses(q, o) && Within(Plus(old(used), BuildCost(o)))
      ensures r.Done? && compileStatus == Rejected <==> BuildRejects(q, o) && Within(Plus(old(used), BuildCost(o)))
      ensures r.Done? ==> r.value == CodeOf(o.generated) && compileStatus in {Accepted, Rejected}
      ensures r.Done? ==> used == Plus(old(used), BuildCost(o))
    {
      BuildInSteps(used, o);
      var sources := ReadBoth(used, o.beforeBuild, q);
      if sources.Thrown? {
        return Thrown(sources.error);
      }
      used, compileStatus := sources.value, Incomplete;
      var started := Pass(used, o.started);
      if started.Thrown? {
        return Thrown(started.error);
      }
      used := started.value;
      var reports, rejected, percent;
      reports, used, rejected, percent := Poll(used, Task(SILENT, o.compile, SILENT), true);
      if reports.Thrown? {
        return Thrown(reports.error);
      }
      compileStatus := if rejected then Rejected else Accepted;
      sources := ReadBoth(used, o.afterBuild, q);
      if sources.Thrown? {
        return Thrown(sources.error);
      }
      used := sources.value;
      var read := Pass(used, o.generatedRead);
      if read.Thrown? {
        return Thrown(read.error);
      }
      used := read.value;
      r := GeneratedCode(o.generated);
    }

    /** From the end of the checks to the end of the run: what is read once more, and the gate. */
    method Finish(q: Request, o: Observed) returns (r: Try<()>)
      requires Within(used) && !exported
      modifies `used, `exported
      ensures exported <==>
              q.saveCompiled && o.inspected.ok && BothUnchanged(o.afterCheck, q) && o.finished.ok
              && compileStatus == Accepted && checkStatus == Accepted && Within(Plus(old(used), TailCost(o)))
      ensures exported ==> r.Done?
      ensures r.Done? && q.saveCompiled ==> exported
    {
      InSteps(used, o.inspected.cost, o.afterCheck.read.cost, o.finished.cost);
      var inspected := Pass(used, o.inspected);
      if inspected.Thrown? {
        return Thrown(inspected.error);
      }
      used := inspected.value;
      var sources := ReadBoth(used, o.afterCheck, q);
      if sources.Thrown? {
        return Thrown(sources.error);
      }
      used := sources.value;
      var finished := Pass(used, o.finished);
      if finished.Thrown? {
        return Thrown(finished.error);
      }
      used := finished.value;
      if q.saveCompiled {
        if compileStatus != Accepted || checkStatus != Accepted {
          return Thrown(NotAccepted);
        }
        exported := true;
      }
      return Done(());
    }

    /** What comes between build and checks, and the checks of a project of whichever kind. */
    method PrepareAndCheck(q: Request, o: Observed, parse: string -> Option<int>) returns (r: Try<()>)
      requires Within(used)
      modifies `checkStatus, `recheckStatus, `used
      ensures Within(used)
      ensures r.Done? && checkStatus == Accepted <==>
          o.prepared.ok && CheckPasses(q, o, parse)
          && Within(Plus(Plus(old(used), o.prepared.cost), CheckCost(q, o)))
      ensures r.Done? && checkStatus == Accepted ==>
          used == Plus(Plus(old(used), o.prepared.cost), CheckCost(q, o))
    {
      checkStatus := NotStarted;
      MoreIsMore(Plus(used, o.prepared.cost), CheckCost(q, o));
      var prepared := Pass(used, o.prepared);
      if prepared.Thrown? {
        return Thrown(prepared.error);
      }
      used := prepared.value;
      if q.standaloneSfc {
        r := CheckSfcResources(q, o, parse);
      } else {
        r := CheckResources(q, o, parse);
      }
    }

    /** From an accepted build to the end of the run. */
    method CheckAndFinish(q: Request, o: Observed, parse: string -> Option<int>) returns (r: Try<()>)
      requires Within(used) && !exported && compileStatus == Accepted
      modifies `checkStatus, `recheckStatus, `used, `exported
      ensures exported <==>
              q.saveCompiled && o.prepared.ok && CheckPasses(q, o, parse)
              && o.inspected.ok && BothUnchanged(o.afterCheck, q) && o.finished.ok
              && Within(Plus(Plus(Plus(old(used), o.prepared.cost), CheckCost(q, o)), TailCost(o)))
      ensures exported ==> r.Done? && checkStatus == Accepted
      ensures r.Done? && q.saveCompiled ==> exported
    {
      MoreIsMore(Plus(Plus(used, o.prepared.cost), CheckCost(q, o)), TailCost(o));
      r := PrepareAndCheck(q, o, parse);
      if r.Thrown? {
        return;
      }
      r := Finish(q, o);
    }

    /**
    The whole run. The candidate is exported exactly when every observation is in order, at every stage, and
    all that is written fits into the log; a rejected build ends the run before any check, and nothing else ends
    it without an error.
    */
    method ValidateProject(q: Request, o: Observed, parse: string -> Option<int>) returns (r: Try<()>)
      modifies this
      ensures exported <==> Exportable(q, o, parse)
      ensures exported ==> r.Done? && compileStatus == Accepted && checkStatus == Accepted
      ensures r.Done? && q.saveCompiled && !exported ==> compileStatus == Rejected && checkStatus == NotRequested
      ensures r.Done? && compileStatus == Rejected <==> BuildRejects(q, o) && Within(BuildCost(o))
    {
      compileStatus, checkStatus, recheckStatus, exported, used := NotStarted, NotStarted, NotStarted, false, NOTHING;
      RunInSteps(q, o);
      var generated := Build(q, o);
      if generated.Thrown? {
        return Thrown(generated.error);
      }
      if compileStatus == Rejected {
        checkStatus := NotRequested;
        return Done(());
      }
      r := CheckAndFinish(q, o, parse);
    }
  }

  lemma BuildInSteps(used: Usage, o: Observed)
    ensures var task := Task(SILENT, o.compile, SILENT);
            var started := Plus(Plus(used, o.beforeBuild.read.cost), o.started.cost);
            var built := Plus(started, TaskCost(task));
            && Plus(used, BuildCost(o)) == Plus(Plus(built, o.afterBuild.read.cost), o.generatedRead.cost)
            && (Within(Plus(used, BuildCost(o))) ==>
                  Within(Plus(used, o.beforeBuild.read.cost)) && Within(started) && Within(built)
                  && Within(Plus(built, o.afterBuild.read.cost)))
  {
    FiveSteps(used, o.beforeBuild.read.cost, o.started.cost, TaskCost(Task(SILENT, o.compile, SILENT)),
              o.afterBuild.read.cost, o.generatedRead.cost);
  }

  lemma RunInSteps(q: Request, o: Observed)
    ensures var built := Plus(NOTHING, BuildCost(o));
            var prepared := Plus(built, o.prepared.cost);
            var checked := Plus(prepared, CheckCost(q, o));
            && RunCost(q, o) == Plus(checked, TailCost(o)) && built == BuildCost(o)
            && (Within(RunCost(q, o)) ==> Within(built) && Within(prepared) && Within(checked))
  {
    FourSteps(BuildCost(o), o.prepared.cost, CheckCost(q, o), TailCost(o));
  }

  // ---------- what an export means ----------

  lemma {:induction false} CollectedIs(answers: seq<Answer>, n: nat)
    requires FinishesAt(answers, n)
    ensures forall r :: r in Collected(answers) <==> exists i :: 0 <= i <= n && r in answers[i].reports
  {
    if n > 0 {
      assert FinishesAt(answers[1..], n - 1);
      CollectedIs(answers[1..], n - 1);
      forall r
        ensures r in Collected(answers) <==> exists i :: 0 <= i <= n && r in answers[i].reports
      {
        if r in Collected(answers[1..]) {
          var i :| 0 <= i <= n - 1 && r in answers[1..][i].reports;
          assert r in answers[i + 1].reports;
        }
        if i :| 0 <= i <= n && r in answers[i].reports {
          assert i > 0 ==> r in answers[1..][i - 1].reports;
        }
      }
    }
  }

  lemma {:induction false} CountZero(reports: seq<Report>, kind: int, name: string)
    ensures Count(reports, kind, name, true) == 0 <==> forall r :: r in reports ==> r.kind != kind
  {
    if reports != [] {
      var front := reports[..|reports| - 1];
      assert reports == front + [reports[|reports| - 1]];
      CountZero(front, kind, name);
    }
  }

  /** The submitted bodies, found whole under their names. */
  predicate Holds(found: map<Key, Bytes>, q: Request) {
    forall s :: s in q.programs + q.libraries ==> s.key in found && found[s.key] == s.body
  }

  /** No poll up to the one that reports completion carries a row of these. */
  ghost predicate QuietUntil(answers: seq<Answer>, n: nat, compile: bool) {
    FinishesAt(answers, n) && forall i, r :: 0 <= i <= n && r in answers[i].reports ==> !Rejects(r, compile)
  }

  ghost predicate Quiet(answers: seq<Answer>, compile: bool) {
    exists n :: QuietUntil(answers, n, compile)
  }

  lemma CleanIsQuiet(t: Task, compile: bool)
    requires Finishes(t)
    ensures Clean(Collected(t.answers), compile) ==> Quiet(t.answers, compile)
  {
    var n :| FinishesAt(t.answers, n);
    CollectedIs(t.answers, n);
    if Clean(Collected(t.answers), compile) {
      assert QuietUntil(t.answers, n, compile);
    }
  }

  /** The resource's code is current before and after, no row is an error, and the one marker announces zero of them. */
  ghost predicate CheckedClean(r: Round, generated: map<string, Code>, parse: string -> Option<int>) {
    && Current(r.before, r.name, generated) && Current(r.after, r.name, generated)
    && r.before.channels == r.after.channels == generated[r.name] && Quiet(r.task.answers, false)
    && exists i :: EndMarker(Collected(r.task.answers), r.name, i)
                   && |Collected(r.task.answers)[i].arguments| == 2
                     && parse(Collected(r.task.answers)[i].arguments[0]) == Some(0)
  }

  lemma PassIsClean(t: Target, c: Context)
    requires TargetPasses(t, c)
    ensures CheckedClean(t.first, c.generated, c.parse)
  {
    var reports := Collected(t.first.task.answers);
    CleanIsQuiet(t.first.task, false);
    CountZero(reports, 2, t.first.name);
  }

  /**
  An exported candidate was built from bodies that read back unchanged at all three stages, by a build
  without a rejecting row before completion, and every one of its resources, of which there is at
  least one, was checked clean against code that was current before and after.
  */
  lemma ExportedIsClean(q: Request, o: Observed, parse: string -> Option<int>)
    requires Exportable(q, o, parse)
    ensures Holds(o.beforeBuild.found, q) && Holds(o.afterBuild.found, q) && Holds(o.afterCheck.found, q)
    ensures Quiet(o.compile, true)
    ensures |o.targets| >= 1
    ensures forall i :: 0 <= i < |o.targets| ==> CheckedClean(o.targets[i].first, CodeOf(o.generated), parse)
  {
    CleanIsQuiet(Task(SILENT, o.compile, SILENT), true);
    forall i | 0 <= i < |o.targets|
      ensures CheckedClean(o.targets[i].first, CodeOf(o.generated), parse)
    {
      PassIsClean(o.targets[i], ContextOf(q, o, parse));
    }
  }

  /** The rows of every public check, one resource after the other. */
  function CheckedRows(targets: seq<Target>, n: nat): nat
    requires n <= |targets|
  {
    if n == 0 then 0 else CheckedRows(targets, n - 1) + |Collected(targets[n - 1].first.task.answers)|
  }

  lemma {:induction false} SpentRows(answers: seq<Answer>)
    ensures Spent(answers).rows >= |Collected(answers)|
    decreases |answers|
  {
    if answers != [] {
      RowsCount(Sizes(answers[0].reports));
      if answers[0].percent != 100 {
        SpentRows(answers[1..]);
      }
    }
  }

  lemma {:induction false} PublicRows(targets: seq<Target>, n: nat)
    requires n <= |targets|
    ensures Total(PublicCosts(targets)[..n]).rows >= CheckedRows(targets, n)
  {
    if n > 0 {
      var costs, r := PublicCosts(targets), targets[n - 1].first;
      PublicRows(targets, n - 1);
      TotalNext(costs, n - 1);
      MoreRows(Total(costs[..n - 1]), costs[n - 1]);
      RoundRows(r);
      assert costs[n - 1] == RoundCost(r);
    }
  }

  lemma RoundRows(r: Round)
    ensures RoundCost(r).rows >= |Collected(r.task.answers)|
  {
    var t := r.task;
    SpentRows(t.answers);
    MoreRows(EnterCost(r), Plus(TaskCost(t), LeaveCost(r)));
    MoreRows(TaskCost(t), LeaveCost(r));
    MoreRows(t.input.cost, Plus(Spent(t.answers), t.output.cost));
    MoreRows(Spent(t.answers), t.output.cost);
  }

  /**
  All the rows an exported run has read, in its build and in its public checks together, are at most 4096: a
  build that ends with 4097 harmless rows exports nothing.
  */
  lemma ExportedIsBounded(q: Request, o: Observed, parse: string -> Option<int>)
    requires Exportable(q, o, parse)
    ensures |Collected(o.compile)| + CheckedRows(o.targets, |o.targets|) <= MAX_REPORTS
  {
    RowsAreBounded(q, o);
  }

  lemma RowsAreBounded(q: Request, o: Observed)
    requires Within(RunCost(q, o))
    ensures |Collected(o.compile)| + CheckedRows(o.targets, |o.targets|) <= MAX_REPORTS
  {
    SpentRows(o.compile);
    PublicRows(o.targets, |o.targets|);
    assert PublicCosts(o.targets)[..|o.targets|] == PublicCosts(o.targets);
    RowsOfRun(q, o);
  }

  lemma RowsOfRun(q: Request, o: Observed)
    ensures RunCost(q, o).rows >= Spent(o.compile).rows + Total(PublicCosts(o.targets)).rows
  {
    RowsOfBuild(o);
    RowsOfCheck(q, o);
    MoreRows(BuildCost(o), o.prepared.cost);
    MoreRows(CheckCost(q, o), TailCost(o));
    MoreRows(Plus(BuildCost(o), o.prepared.cost), Plus(CheckCost(q, o), TailCost(o)));
  }

  lemma RowsOfBuild(o: Observed)
    ensures BuildCost(o).rows >= Spent(o.compile).rows
  {
    var t := Task(SILENT, o.compile, SILENT);
    MoreRows(t.input.cost, Plus(Spent(o.compile), t.output.cost));
    MoreRows(Spent(o.compile), t.output.cost);
    MoreRows(TaskCost(t), Plus(o.afterBuild.read.cost, o.generatedRead.cost));
    MoreRows(Plus(o.beforeBuild.read.cost, o.started.cost),
      Plus(TaskCost(t), Plus(o.afterBuild.read.cost, o.generatedRead.cost)));
  }

  lemma RowsOfCheck(q: Request, o: Observed)
    ensures CheckCost(q, o).rows >= Total(PublicCosts(o.targets)).rows
  {
    var second := if NeedsSecond(o, !q.standaloneSfc) then SecondPassCost(o) else NOTHING;
    MoreRows(Total(PublicCosts(o.targets)), o.tallied.cost);
    MoreRows(FirstPassCost(o), second);
    MoreRows(HeadCost(q, o), PassesCost(o, !q.standaloneSfc));
  }

  /** The runs that differ only in their second checks, all of which end, and which write the same amount. */
  ghost predicate SameButRechecks(q: Request, o: Observed, p: Observed, parse: string -> Option<int>) {
    && p == o.(targets := p.targets) && |p.targets| == |o.targets|
    && (forall i :: 0 <= i < |o.targets| ==> p.targets[i] == o.targets[i].(raw := p.targets[i].raw))
    && RechecksEndUpTo(o.targets, |o.targets|, ContextOf(q, o, parse))
    && RechecksEndUpTo(p.targets, |p.targets|, ContextOf(q, p, parse))
    && SecondPassCost(o) == SecondPassCost(p)
  }

  /** What the second checks find does not decide the export. */
  lemma RecheckDoesNotGate(q: Request, o: Observed, p: Observed, parse: string -> Option<int>)
    requires SameButRechecks(q, o, p, parse)
    ensures Exportable(q, o, parse) <==> Exportable(q, p, parse)
  {
    SameContexts(o.targets, p.targets);
    SameCost(q, o, p);
    SameCheck(q, o, p, parse);
    assert BuildPasses(q, o) <==> BuildPasses(q, p);
  }

  lemma SameCost(q: Request, o: Observed, p: Observed)
    requires p == o.(targets := p.targets) && |p.targets| == |o.targets|
    requires forall i :: 0 <= i < |o.targets| ==> p.targets[i] == o.targets[i].(raw := p.targets[i].raw)
    requires SecondPassCost(o) == SecondPassCost(p)
    ensures RunCost(q, o) == RunCost(q, p)
  {
    SameContexts(o.targets, p.targets);
    assert PublicCosts(o.targets) == PublicCosts(p.targets);
    assert ContextCosts(o.targets) == ContextCosts(p.targets);
    assert HeadCost(q, o) == HeadCost(q, p);
    assert PassesCost(o, !q.standaloneSfc) == PassesCost(p, !q.standaloneSfc);
    assert CheckCost(q, o) == CheckCost(q, p);
    assert BuildCost(o) == BuildCost(p) && TailCost(o) == TailCost(p);
  }

  lemma SameCheck(q: Request, o: Observed, p: Observed, parse: string -> Option<int>)
    requires SameButRechecks(q, o, p, parse)
    ensures CheckPasses(q, o, parse) <==> CheckPasses(q, p, parse)
  {
    SameContexts(o.targets, p.targets);
    var c := ContextOf(q, o, parse);
    assert c == ContextOf(q, p, parse);
    SamePasses(o.targets, p.targets, c);
    SameEnd(o, p, c);
  }

  lemma SameEnd(o: Observed, p: Observed, c: Context)
    requires o.tallied == p.tallied && o.retallied == p.retallied
    requires PassUpTo(o.targets, |o.targets|, c) <==> PassUpTo(p.targets, |p.targets|, c)
    requires RechecksEndUpTo(o.targets, |o.targets|, c) && RechecksEndUpTo(p.targets, |p.targets|, c)
    requires MismatchUpTo(o.targets, |o.targets|) <==> MismatchUpTo(p.targets, |p.targets|)
    ensures PassesEnd(o, c) <==> PassesEnd(p, c)
  {
  }

  lemma SamePasses(a: seq<Target>, b: seq<Target>, c: Context)
    requires |a| == |b| && forall i :: 0 <= i < |a| ==> b[i] == a[i].(raw := b[i].raw)
    ensures PassUpTo(a, |a|, c) <==> PassUpTo(b, |b|, c)
  {
    forall i | 0 <= i < |a|
      ensures TargetPasses(a[i], c) <==> TargetPasses(b[i], c)
    {
      assert b[i].first == a[i].first;
    }
  }

  lemma SameContexts(a: seq<Target>, b: seq<Target>)
    requires |a| == |b| && forall i :: 0 <= i < |a| ==> b[i] == a[i].(raw := b[i].raw)
    ensures Names(a) == Names(b) && (ContextsOpen(a) <==> ContextsOpen(b))
    ensures MismatchUpTo(a, |a|) <==> MismatchUpTo(b, |b|)
  {
    forall i | 0 <= i < |a|
      ensures a[i].name in Names(b) && b[i].name in Names(a)
    {
      assert a[i] in a && b[i] in b;
    }
  }
}
