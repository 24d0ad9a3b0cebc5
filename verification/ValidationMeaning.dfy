/**
When a validation run exports, told without the run: which calls, bodies, rows, markers and channels it takes, in
plain numbers and over the answers themselves. Proved equal to the condition under which the run exports.
*/
module ValidationMeaning {

  import opened Basics
  import opened ValidationLog
  import opened ValidationRun

  // ---------- the plain conditions ----------

  /** Every poll up to `n` succeeds, and `n` is the first to report 100 percent. */
  predicate PollsEnd(answers: seq<Answer>, n: nat) {
    && n < |answers| && n < 2400
    && (forall i :: 0 <= i <= n ==>
          answers[i].hresult >= 0 && answers[i].code == 0 && answers[i].readable && |answers[i].reports| <= 10000)
    && (forall i :: 0 <= i < n ==> 0 <= answers[i].percent < 100)
    && answers[n].percent == 100
  }

  /** The rows of the polls up to `n`, one poll after the other. */
  function RowsTo(answers: seq<Answer>, n: nat): seq<Report>
    requires n < |answers|
  {
    if n == 0 then answers[0].reports else answers[0].reports + RowsTo(answers[1..], n - 1)
  }

  /** No row stops a build: errors have kind 2, and so does kind 1 with code 32 count. */
  predicate NoBuildError(rows: seq<Report>) {
    forall r :: r in rows ==> r.kind != 2 && !(r.kind == 1 && r.code == 32)
  }

  ghost predicate BuildEndsClean(answers: seq<Answer>) {
    exists n :: PollsEnd(answers, n) && NoBuildError(RowsTo(answers, n))
  }

  /** A stage read every submitted body, and found it as submitted. */
  predicate BodiesAreThere(reading: Reading, q: Request) {
    && reading.read.ok
    && (forall s :: s in q.programs ==> s.key in reading.found.Keys && reading.found[s.key] == s.body)
    && (forall s :: s in q.libraries ==> s.key in reading.found.Keys && reading.found[s.key] == s.body)
  }

  predicate NamesAreGood(rows: seq<Resource>) {
    (forall i :: 0 <= i < |rows| ==> rows[i].name != "")
    && forall i, j :: 0 <= i < |rows| && 0 <= j < |rows| && rows[i].name == rows[j].name ==> i == j
  }

  /** What a resource publishes is the code generated under its name, and not all of it is empty. */
  predicate PublishesGenerated(p: Published, name: string, rows: seq<Resource>) {
    && p.readable && p.kind == 8 && p.name == name
    && (exists i :: 0 <= i < |rows| && rows[i].name == name && rows[i].code == p.channels)
    && (p.channels[0] != [] || p.channels[1] != [] || p.channels[2] != [])
  }

  /** A check of a resource that is made and read to its end, with code in place before and after. */
  ghost predicate ChecksThrough(r: Round, rows: seq<Resource>, n: nat) {
    && r.kind == 8 && r.entered.ok && r.started.ok && r.details.ok
    && PublishesGenerated(r.before, r.name, rows) && PublishesGenerated(r.after, r.name, rows)
    && r.task.input.ok && r.task.output.ok && PollsEnd(r.task.answers, n)
  }

  /** The positions of the rows of a kind; unless every row counts, only those of the resource. */
  function PlacesOf(rows: seq<Report>, kind: int, name: string, every: bool): set<nat> {
    set i: nat | i < |rows| && IsOf(rows[i], kind, name, every)
  }

  predicate IsOf(r: Report, kind: int, name: string, every: bool) { r.kind == kind && (every || r.name == name) }

  function MarkersOf(rows: seq<Report>, name: string): set<nat> {
    set i: nat | i < |rows| && rows[i].kind == 1 && rows[i].code == 35 && rows[i].name == name
  }

  /** There is one end marker, and it announces the numbers of errors and warnings. */
  ghost predicate MarkedRightly(rows: seq<Report>, name: string, every: bool, parse: string -> Option<int>) {
    exists i :: MarkersOf(rows, name) == {i} && |rows[i].arguments| == 2
                && parse(rows[i].arguments[0]) == Some(|PlacesOf(rows, 2, name, every)|)
                && parse(rows[i].arguments[1]) == Some(|PlacesOf(rows, 3, name, every)|)
  }

  ghost predicate FirstCheckGood(r: Round, rows: seq<Resource>, parse: string -> Option<int>) {
    exists n :: ChecksThrough(r, rows, n) && MarkedRightly(RowsTo(r.task.answers, n), r.name, true, parse)
                && forall x :: x in RowsTo(r.task.answers, n) ==> x.kind != 2
  }

  /** An error or warning of the first check is about another object. */
  ghost predicate FirstCheckStrays(r: Round) {
    exists n :: PollsEnd(r.task.answers, n)
                && exists x :: x in RowsTo(r.task.answers, n) && (x.kind == 2 || x.kind == 3) && x.misidentified
  }

  /** A second check is made to its end, or passed over because the published code is another. */
  ghost predicate SecondCheckEnds(r: Round, rows: seq<Resource>, targets: seq<Target>, parse: string -> Option<int>) {
    || (r.kind == 8 && r.entered.ok && r.skip.ok && r.before.readable && r.before.kind == 8 && r.before.name == r.name
        && !PublishesGenerated(r.before, r.name, rows))
    || (IsTarget(r.name, targets)
        && exists n :: ChecksThrough(r, rows, n) && MarkedRightly(RowsTo(r.task.answers, n), r.name, false, parse))
  }

  predicate IsTarget(name: string, targets: seq<Target>) { exists i :: 0 <= i < |targets| && targets[i].name == name }

  predicate CompilersOpen(targets: seq<Target>) {
    && (forall i :: 0 <= i < |targets| ==> targets[i].kind == 8 && targets[i].context.ok)
    && forall i, j :: 0 <= i < |targets| && 0 <= j < |targets| && targets[i].name == targets[j].name ==> i == j
  }

  predicate AllAreTargets(o: Observed) {
    forall i :: 0 <= i < |o.targets| ==> IsTarget(o.targets[i].first.name, o.targets)
  }

  ghost predicate FirstChecksGood(o: Observed, parse: string -> Option<int>) {
    forall i :: 0 <= i < |o.targets| ==> FirstCheckGood(o.targets[i].first, o.generated, parse)
  }

  ghost predicate SomeStray(o: Observed) {
    exists i :: 0 <= i < |o.targets| && FirstCheckStrays(o.targets[i].first)
  }

  ghost predicate SecondChecksEnd(o: Observed, parse: string -> Option<int>) {
    forall i :: 0 <= i < |o.targets| ==> SecondCheckEnds(o.targets[i].raw, o.generated, o.targets, parse)
  }

  /** Everything a request that shares its compilers asks for beyond the first checks. */
  ghost predicate SharedGood(o: Observed, parse: string -> Option<int>) {
    && CompilersOpen(o.targets) && AllAreTargets(o)
    && (SomeStray(o) ==> o.retallied.ok && SecondChecksEnd(o, parse))
  }

  ghost predicate BuildGood(q: Request, o: Observed) {
    && BodiesAreThere(o.beforeBuild, q) && o.started.ok && BuildEndsClean(o.compile)
    && BodiesAreThere(o.afterBuild, q) && o.generatedRead.ok && NamesAreGood(o.generated)
  }

  ghost predicate ChecksGood(q: Request, o: Observed, parse: string -> Option<int>) {
    && o.selection.ok && o.targets != [] && o.tallied.ok && FirstChecksGood(o, parse)
    && (!q.standaloneSfc ==> SharedGood(o, parse))
  }

  // ---------- the rows of a task ----------

  lemma PollsEndOnce(answers: seq<Answer>, n: nat, m: nat)
    requires PollsEnd(answers, n) && PollsEnd(answers, m)
    ensures n == m
  {
  }

  lemma PollsEndIsFinishes(answers: seq<Answer>, n: nat)
    ensures PollsEnd(answers, n) <==> FinishesAt(answers, n)
  {
    if FinishesAt(answers, n) {
      forall i | 0 <= i <= n
        ensures answers[i].hresult >= 0 && answers[i].code == 0 && answers[i].readable && |answers[i].reports| <= 10000
        ensures i < n ==> 0 <= answers[i].percent < 100
      {
        assert Answered(answers[i]);
      }
    }
  }

  lemma {:induction false} RowsAreCollected(answers: seq<Answer>, n: nat)
    requires FinishesAt(answers, n)
    ensures RowsTo(answers, n) == Collected(answers)
  {
    if n > 0 {
      assert FinishesAt(answers[1..], n - 1);
      RowsAreCollected(answers[1..], n - 1);
    }
  }

  lemma {:induction false} CountIsSize(rows: seq<Report>, kind: int, name: string, every: bool)
    ensures Count(rows, kind, name, every) == |PlacesOf(rows, kind, name, every)|
    decreases |rows|
  {
    if rows != [] {
      CountIsSize(rows[..|rows| - 1], kind, name, every);
      OneMorePlace(rows, kind, name, every);
    }
  }

  lemma OneMorePlace(rows: seq<Report>, kind: int, name: string, every: bool)
    requires rows != []
    ensures |PlacesOf(rows, kind, name, every)| == |PlacesOf(rows[..|rows| - 1], kind, name, every)|
              + if IsOf(rows[|rows| - 1], kind, name, every) then 1 else 0
  {
    var n := |rows| - 1;
    PlacesGrow(rows, kind, name, every);
    assert n !in PlacesOf(rows[..n], kind, name, every);
  }

  lemma PlacesGrow(rows: seq<Report>, kind: int, name: string, every: bool)
    requires rows != []
    ensures var n := |rows| - 1;
            PlacesOf(rows, kind, name, every)
            == PlacesOf(rows[..n], kind, name, every) + if IsOf(rows[n], kind, name, every) then {n} else {}
  {
    var n := |rows| - 1;
    forall i: nat
      ensures i in PlacesOf(rows, kind, name, every) <==>
                i in PlacesOf(rows[..n], kind, name, every) || (i == n && IsOf(rows[n], kind, name, every))
    {
      assert i < n ==> rows[..n][i] == rows[i];
    }
  }

  lemma MarkerIsOnly(rows: seq<Report>, name: string, i: nat)
    ensures MarkersOf(rows, name) == {i} <==> EndMarker(rows, name, i)
  {
    if MarkersOf(rows, name) == {i} {
      assert i in MarkersOf(rows, name);
      forall j | 0 <= j < |rows| && Marks(rows[j], name)
        ensures j == i
      {
        assert j in MarkersOf(rows, name);
      }
    }
  }

  lemma MarkedIsAgreed(rows: seq<Report>, name: string, every: bool, parse: string -> Option<int>)
    ensures MarkedRightly(rows, name, every, parse) <==> CountsAgree(rows, name, every, parse)
  {
    CountIsSize(rows, 2, name, every);
    CountIsSize(rows, 3, name, every);
    if MarkedRightly(rows, name, every, parse) {
      var i :| MarkersOf(rows, name) == {i} && |rows[i].arguments| == 2
               && parse(rows[i].arguments[0]) == Some(|PlacesOf(rows, 2, name, every)|)
               && parse(rows[i].arguments[1]) == Some(|PlacesOf(rows, 3, name, every)|);
      MarkerIsOnly(rows, name, i);
      assert Announces(rows[i], rows, name, every, parse);
    }
    if CountsAgree(rows, name, every, parse) {
      var i :| EndMarker(rows, name, i) && Announces(rows[i], rows, name, every, parse);
      MarkerIsOnly(rows, name, i);
    }
  }

  // ---------- the published code ----------

  lemma {:induction false} CodeIsFound(rows: seq<Resource>, name: string)
    ensures name in CodeOf(rows) <==> exists i :: 0 <= i < |rows| && rows[i].name == name
    ensures name in CodeOf(rows) ==>
              exists i :: 0 <= i < |rows| && rows[i].name == name && rows[i].code == CodeOf(rows)[name]
    decreases |rows|
  {
    if rows != [] {
      var n, front := |rows| - 1, rows[..|rows| - 1];
      CodeIsFound(front, name);
      if rows[n].name != name && name in CodeOf(front) {
        var i :| 0 <= i < |front| && front[i].name == name && front[i].code == CodeOf(front)[name];
        assert rows[i] == front[i];
      }
      if i :| 0 <= i < |rows| && rows[i].name == name && rows[n].name != name {
        assert front[i] == rows[i];
      }
    }
  }

  lemma {:induction false} GeneratedIsCurrent(p: Published, name: string, rows: seq<Resource>)
    requires NamesAreGood(rows)
    ensures PublishesGenerated(p, name, rows) <==> Current(p, name, CodeOf(rows))
  {
    CodeIsFound(rows, name);
    if name in CodeOf(rows) {
      var i :| 0 <= i < |rows| && rows[i].name == name && rows[i].code == CodeOf(rows)[name];
      assert forall j :: 0 <= j < |rows| && rows[j].name == name ==> j == i;
    }
    assert (exists j :: 0 <= j < 3 && p.channels[j] != [])
           <==> p.channels[0] != [] || p.channels[1] != [] || p.channels[2] != [];
  }

  // ---------- the checks ----------

  predicate IsTargetOf(c: Context, name: string) { c.compilers.None? || name in c.compilers.value }

  lemma {:induction false} RoundIsThrough(r: Round, rows: seq<Resource>, c: Context, every: bool)
    requires NamesAreGood(rows) && c.generated == CodeOf(rows)
    ensures RoundCompletes(r, c, every) <==>
              IsTargetOf(c, r.name)
              && exists n :: ChecksThrough(r, rows, n)
                             && MarkedRightly(RowsTo(r.task.answers, n), r.name, every, c.parse)
  {
    GeneratedIsCurrent(r.before, r.name, rows);
    GeneratedIsCurrent(r.after, r.name, rows);
    MarkedIsAgreed(Collected(r.task.answers), r.name, every, c.parse);
    forall n: nat
      ensures PollsEnd(r.task.answers, n) <==> FinishesAt(r.task.answers, n)
      ensures PollsEnd(r.task.answers, n) ==> RowsTo(r.task.answers, n) == Collected(r.task.answers)
    {
      PollsEndIsFinishes(r.task.answers, n);
      if FinishesAt(r.task.answers, n) {
        RowsAreCollected(r.task.answers, n);
      }
    }
    if RoundCompletes(r, c, every) {
      var n :| FinishesAt(r.task.answers, n);
      assert PollsEnd(r.task.answers, n) && ChecksThrough(r, rows, n);
    }
  }

  lemma {:induction false} FirstCheckIsGood(t: Target, rows: seq<Resource>, c: Context)
    requires NamesAreGood(rows) && c.generated == CodeOf(rows)
    ensures TargetPasses(t, c) <==> IsTargetOf(c, t.first.name) && FirstCheckGood(t.first, rows, c.parse)
  {
    var r := t.first;
    RoundIsThrough(r, rows, c, true);
    forall n: nat | PollsEnd(r.task.answers, n)
      ensures RowsTo(r.task.answers, n) == Collected(r.task.answers)
    {
      PollsEndIsFinishes(r.task.answers, n);
      RowsAreCollected(r.task.answers, n);
    }
    assert Clean(Collected(r.task.answers), false) <==> forall x :: x in Collected(r.task.answers) ==> x.kind != 2;
  }

  lemma StraysIsMismatched(r: Round, n: nat)
    requires PollsEnd(r.task.answers, n)
    ensures FirstCheckStrays(r) <==> Mismatched(r)
  {
    PollsEndIsFinishes(r.task.answers, n);
    RowsAreCollected(r.task.answers, n);
    forall m: nat | PollsEnd(r.task.answers, m)
      ensures m == n
    {
      PollsEndOnce(r.task.answers, n, m);
    }
    if Mismatched(r) {
      var x :| x in Collected(r.task.answers) && Misidentifies(x);
      assert x in RowsTo(r.task.answers, n) && x.misidentified;
    }
    if FirstCheckStrays(r) {
      var x :| x in RowsTo(r.task.answers, n) && (x.kind == 2 || x.kind == 3) && x.misidentified;
      assert Misidentifies(x);
    }
  }

  lemma {:induction false} RecheckIsEnded(t: Target, rows: seq<Resource>, targets: seq<Target>, c: Context)
    requires NamesAreGood(rows) && c.generated == CodeOf(rows) && c.compilers == Some(Names(targets))
    ensures RecheckEnds(t, c) <==> SecondCheckEnds(t.raw, rows, targets, c.parse)
  {
    RoundIsThrough(t.raw, rows, c, false);
    GeneratedIsCurrent(t.raw.before, t.raw.name, rows);
    TargetIsNamed(t.raw.name, targets);
  }

  lemma TargetIsNamed(name: string, targets: seq<Target>)
    ensures IsTarget(name, targets) <==> name in Names(targets)
  {
    if i :| 0 <= i < |targets| && targets[i].name == name {
      assert targets[i] in targets;
    }
  }

  lemma CompilersAreContexts(targets: seq<Target>)
    ensures CompilersOpen(targets) <==> ContextsOpen(targets)
  {
    if ContextsOpen(targets) {
      forall i, j | 0 <= i < |targets| && 0 <= j < |targets| && targets[i].name == targets[j].name
        ensures i == j
      {
      }
    }
  }

  /** All first checks together. */
  lemma PassesAreGood(o: Observed, c: Context)
    requires NamesAreGood(o.generated) && c.generated == CodeOf(o.generated)
    ensures PassUpTo(o.targets, |o.targets|, c) <==> AreTargets(o, c) && FirstChecksGood(o, c.parse)
  {
    forall i | 0 <= i < |o.targets|
      ensures TargetPasses(o.targets[i], c) <==>
                IsTargetOf(c, o.targets[i].first.name) && FirstCheckGood(o.targets[i].first, o.generated, c.parse)
    {
      FirstCheckIsGood(o.targets[i], o.generated, c);
    }
  }

  /** What asks for a second pass, once the first is passed. */
  lemma StrayingIsMismatch(o: Observed, c: Context)
    requires FirstChecksGood(o, c.parse)
    ensures MismatchUpTo(o.targets, |o.targets|) <==> SomeStray(o)
  {
    forall i | 0 <= i < |o.targets|
      ensures FirstCheckStrays(o.targets[i].first) <==> Mismatched(o.targets[i].first)
    {
      var r := o.targets[i].first;
      assert FirstCheckGood(r, o.generated, c.parse);
      var n :| ChecksThrough(r, o.generated, n);
      StraysIsMismatched(r, n);
    }
  }

  lemma RechecksAreEnded(o: Observed, c: Context)
    requires NamesAreGood(o.generated) && c.generated == CodeOf(o.generated) && c.compilers == Some(Names(o.targets))
    ensures RechecksEndUpTo(o.targets, |o.targets|, c) <==> SecondChecksEnd(o, c.parse)
  {
    forall i | 0 <= i < |o.targets|
      ensures RecheckEnds(o.targets[i], c) <==> SecondCheckEnds(o.targets[i].raw, o.generated, o.targets, c.parse)
    {
      RecheckIsEnded(o.targets[i], o.generated, o.targets, c);
    }
  }

  predicate AreTargets(o: Observed, c: Context) {
    forall i :: 0 <= i < |o.targets| ==> IsTargetOf(c, o.targets[i].first.name)
  }

  lemma TargetsAreNamed(o: Observed, c: Context)
    requires c.compilers == Some(Names(o.targets))
    ensures AreTargets(o, c) <==> AllAreTargets(o)
  {
    forall i | 0 <= i < |o.targets|
      ensures IsTarget(o.targets[i].first.name, o.targets) <==> IsTargetOf(c, o.targets[i].first.name)
    {
      TargetIsNamed(o.targets[i].first.name, o.targets);
    }
  }

  /** Compilers of one's own: nothing is shared, and there is no second round. */
  lemma OwnPassesEnd(o: Observed, c: Context)
    requires NamesAreGood(o.generated) && c.generated == CodeOf(o.generated) && c.compilers.None?
    ensures PassesEnd(o, c) <==> FirstChecksGood(o, c.parse) && o.tallied.ok
  {
    PassesAreGood(o, c);
    assert AreTargets(o, c);
  }

  lemma SharedFirstPass(o: Observed, c: Context)
    requires NamesAreGood(o.generated) && c.generated == CodeOf(o.generated) && c.compilers == Some(Names(o.targets))
    ensures FirstPasses(o, c) <==> FirstChecksGood(o, c.parse) && AllAreTargets(o) && o.tallied.ok
  {
    PassesAreGood(o, c);
    TargetsAreNamed(o, c);
  }

  lemma SharedSecondPass(o: Observed, c: Context)
    requires NamesAreGood(o.generated) && c.generated == CodeOf(o.generated) && c.compilers == Some(Names(o.targets))
    ensures SecondPasses(o, c) <==> SecondChecksEnd(o, c.parse) && o.retallied.ok
  {
    RechecksAreEnded(o, c);
  }

  lemma SharedPassesEnd(o: Observed, c: Context)
    requires NamesAreGood(o.generated) && c.generated == CodeOf(o.generated) && c.compilers == Some(Names(o.targets))
    requires CompilersOpen(o.targets)
    ensures PassesEnd(o, c) <==> FirstChecksGood(o, c.parse) && o.tallied.ok && SharedGood(o, c.parse)
  {
    SharedFirstPass(o, c);
    if FirstPasses(o, c) {
      SharedSecondPass(o, c);
      StrayingIsMismatch(o, c);
      assert NeedsSecond(o, c.compilers.Some?) <==> SomeStray(o);
    }
  }

  lemma ChecksAreGood(q: Request, o: Observed, parse: string -> Option<int>)
    requires NamesAreGood(o.generated)
    ensures CheckPasses(q, o, parse) <==> ChecksGood(q, o, parse)
  {
    var c := ContextOf(q, o, parse);
    CompilersAreContexts(o.targets);
    if q.standaloneSfc {
      OwnPassesEnd(o, c);
    } else if CompilersOpen(o.targets) {
      SharedPassesEnd(o, c);
    }
  }

  lemma {:induction false} BuildEndsCleanly(answers: seq<Answer>)
    ensures BuildEndsClean(answers) <==>
              (exists n :: FinishesAt(answers, n)) && Clean(Collected(answers), true)
  {
    forall n: nat
      ensures PollsEnd(answers, n) <==> FinishesAt(answers, n)
      ensures PollsEnd(answers, n) ==> RowsTo(answers, n) == Collected(answers)
    {
      PollsEndIsFinishes(answers, n);
      if FinishesAt(answers, n) {
        RowsAreCollected(answers, n);
      }
    }
    assert NoBuildError(Collected(answers)) <==> Clean(Collected(answers), true) by {
      assert forall r :: Rejects(r, true) <==> r.kind == 2 || (r.kind == 1 && r.code == 32);
    }
  }

  lemma NamesAreUnambiguous(rows: seq<Resource>)
    ensures NamesAreGood(rows) <==> Unambiguous(rows)
  {
    if Unambiguous(rows) {
      forall i, j | 0 <= i < |rows| && 0 <= j < |rows| && rows[i].name == rows[j].name
        ensures i == j
      {
      }
    }
  }

  lemma BodiesAreUnchanged(reading: Reading, q: Request)
    ensures BodiesAreThere(reading, q) <==> BothUnchanged(reading, q)
  {
  }

  lemma BuildIsGood(q: Request, o: Observed)
    ensures BuildPasses(q, o) <==> BuildGood(q, o)
  {
    BodiesAreUnchanged(o.beforeBuild, q);
    BodiesAreUnchanged(o.afterBuild, q);
    BuildEndsCleanly(o.compile);
    NamesAreUnambiguous(o.generated);
  }

  /**
  A run exports if and only if the plain conditions hold: every body where it was at three stages, a build without
  errors, at least one resource and each checked to its end without errors on code in place before and after, with
  the one marker announcing it, a second round where a row is about something else, and room for it all in the log.
  */
  lemma ExportedPlainly(q: Request, o: Observed, parse: string -> Option<int>)
    ensures Exportable(q, o, parse) <==>
              && q.saveCompiled && BuildGood(q, o) && o.prepared.ok && ChecksGood(q, o, parse)
              && o.inspected.ok && BodiesAreThere(o.afterCheck, q) && o.finished.ok
              && RunCost(q, o).rows <= 4096 && RunCost(q, o).rowCharacters <= 8388608
              && RunCost(q, o).events <= 65536 && RunCost(q, o).eventCharacters <= 8388608
  {
    BuildIsGood(q, o);
    BodiesAreUnchanged(o.afterCheck, q);
    if NamesAreGood(o.generated) {
      ChecksAreGood(q, o, parse);
    }
  }

  /**
  A build that comes to its end is rejected exactly by a row of kind 2, or of kind 1 with code 32; the latter does
  not reject a check (`FirstCheckGood`).
  */
  lemma {:induction false} RejectedByItsRows(q: Request, o: Observed, n: nat)
    requires PollsEnd(o.compile, n)
    requires BodiesAreThere(o.beforeBuild, q) && o.started.ok
    requires BodiesAreThere(o.afterBuild, q) && o.generatedRead.ok && NamesAreGood(o.generated)
    ensures BuildRejects(q, o) <==>
              exists r :: r in RowsTo(o.compile, n) && (r.kind == 2 || (r.kind == 1 && r.code == 32))
  {
    PollsEndIsFinishes(o.compile, n);
    RowsAreCollected(o.compile, n);
    BodiesAreUnchanged(o.beforeBuild, q);
    BodiesAreUnchanged(o.afterBuild, q);
    NamesAreUnambiguous(o.generated);
    assert forall r :: Rejects(r, true) <==> r.kind == 2 || (r.kind == 1 && r.code == 32);
  }

  // ---------- what the other ends of a check mean ----------

  ghost predicate FirstCheckEnds(r: Round, rows: seq<Resource>, parse: string -> Option<int>) {
    exists n :: ChecksThrough(r, rows, n) && MarkedRightly(RowsTo(r.task.answers, n), r.name, true, parse)
  }

  ghost predicate FirstCheckErrs(r: Round) {
    exists n :: PollsEnd(r.task.answers, n) && exists x :: x in RowsTo(r.task.answers, n) && x.kind == 2
  }

  lemma ErrsIsUnclean(r: Round, n: nat)
    requires PollsEnd(r.task.answers, n)
    ensures FirstCheckErrs(r) <==> !Clean(Collected(r.task.answers), false)
  {
    PollsEndIsFinishes(r.task.answers, n);
    RowsAreCollected(r.task.answers, n);
    forall m: nat | PollsEnd(r.task.answers, m)
      ensures m == n
    {
      PollsEndOnce(r.task.answers, n, m);
    }
    if !Clean(Collected(r.task.answers), false) {
      var x :| x in Collected(r.task.answers) && Rejects(x, false);
      assert x in RowsTo(r.task.answers, n) && x.kind == 2;
    }
  }

  /** One first check: to its end exactly if it is made through and marked, and then passed unless a row is an error. */
  lemma {:induction false} FirstCheckMeans(t: Target, rows: seq<Resource>, c: Context)
    requires NamesAreGood(rows) && c.generated == CodeOf(rows)
    ensures TargetCompletes(t, c) <==> IsTargetOf(c, t.first.name) && FirstCheckEnds(t.first, rows, c.parse)
    ensures TargetCompletes(t, c) ==> (TargetPasses(t, c) <==> !FirstCheckErrs(t.first))
  {
    RoundIsThrough(t.first, rows, c, true);
    if TargetCompletes(t, c) {
      var n :| ChecksThrough(t.first, rows, n);
      ErrsIsUnclean(t.first, n);
    }
  }

  /** The status of the first pass: incomplete, rejected or accepted by how the first checks end. */
  lemma StatusMeans(status: Status, o: Observed, c: Context)
    requires NamesAreGood(o.generated) && c.generated == CodeOf(o.generated) && StatusIs(status, o.targets, c)
    ensures status == Incomplete <==>
              exists i :: 0 <= i < |o.targets|
                          && !(IsTargetOf(c, o.targets[i].first.name)
                               && FirstCheckEnds(o.targets[i].first, o.generated, c.parse))
    ensures status == Rejected <==>
              status != Incomplete && exists i :: 0 <= i < |o.targets| && FirstCheckErrs(o.targets[i].first)
  {
    forall i | 0 <= i < |o.targets|
      ensures TargetCompletes(o.targets[i], c) <==>
                IsTargetOf(c, o.targets[i].first.name) && FirstCheckEnds(o.targets[i].first, o.generated, c.parse)
      ensures TargetCompletes(o.targets[i], c) ==>
                (TargetPasses(o.targets[i], c) <==> !FirstCheckErrs(o.targets[i].first))
    {
      FirstCheckMeans(o.targets[i], o.generated, c);
    }
  }

  /** Poll `n` is the first that fails, and fails with the two numbers of the known projection failure. */
  predicate ProjectionBreaks(answers: seq<Answer>, n: int) {
    && 0 <= n < |answers| && n < 2400
    && answers[n].hresult == 0x8000_4005 - 0x1_0000_0000 && answers[n].code == 0x2d01_0025
    && answers[n].readable && |answers[n].reports| <= 10000
    && forall i :: 0 <= i < n ==>
         answers[i].hresult >= 0 && answers[i].code == 0 && answers[i].readable && |answers[i].reports| <= 10000
         && 0 <= answers[i].percent < 100
  }

  /** A broken check that is survived: the task was at its end, or is polled to it, and the code is still in place. */
  ghost predicate BrokenYetEnded(t: Target, rows: seq<Resource>, n: int) {
    && t.first.kind == 8 && t.first.entered.ok && t.first.started.ok && t.first.task.input.ok && t.first.failure.ok
    && PublishesGenerated(t.first.before, t.first.name, rows) && PublishesGenerated(t.first.after, t.first.name, rows)
    && ProjectionBreaks(t.first.task.answers, n)
    && (t.first.task.answers[n].percent == 100
        || (t.tail.input.ok && t.tail.output.ok && exists m :: PollsEnd(t.tail.answers, m)))
  }

  lemma {:induction false} DrainsMeans(t: Target, rows: seq<Resource>, c: Context)
    requires NamesAreGood(rows) && c.generated == CodeOf(rows)
    ensures Drains(t, c) <==> IsTargetOf(c, t.first.name) && exists n :: BrokenYetEnded(t, rows, n)
  {
    GeneratedIsCurrent(t.first.before, t.first.name, rows);
    GeneratedIsCurrent(t.first.after, t.first.name, rows);
    forall m: nat
      ensures PollsEnd(t.tail.answers, m) <==> FinishesAt(t.tail.answers, m)
    {
      PollsEndIsFinishes(t.tail.answers, m);
    }
    assert (exists m :: PollsEnd(t.tail.answers, m)) <==> (exists m :: FinishesAt(t.tail.answers, m)) by {
      if m :| FinishesAt(t.tail.answers, m) {
        assert PollsEnd(t.tail.answers, m);
      }
    }
    forall n: int
      ensures ProjectionBreaks(t.first.task.answers, n) <==> ProjectionFailsAt(t.first.task.answers, n)
    {
      BreaksIsFails(t.first.task.answers, n);
    }
    if Drains(t, c) {
      var n :| DrainsAt(t.first, t.tail, c.generated, n);
      assert BrokenYetEnded(t, rows, n);
    }
    if n :| BrokenYetEnded(t, rows, n) && IsTargetOf(c, t.first.name) {
      assert DrainsAt(t.first, t.tail, c.generated, n);
    }
  }

  lemma BreaksIsFails(answers: seq<Answer>, n: int)
    ensures ProjectionBreaks(answers, n) <==> ProjectionFailsAt(answers, n)
  {
    if ProjectionFailsAt(answers, n) {
      forall i | 0 <= i < n
        ensures answers[i].hresult >= 0 && answers[i].code == 0 && answers[i].readable
                && |answers[i].reports| <= 10000 && 0 <= answers[i].percent < 100
      {
        assert Answered(answers[i]);
      }
    }
  }

  /** A second pass is due, and made where compilers are shared, exactly after a broken or a straying first check. */
  lemma AgainMeans(o: Observed, c: Context)
    requires NamesAreGood(o.generated) && c.generated == CodeOf(o.generated)
    ensures AgainStatus(o, c) == NotRequested <==>
              c.compilers.None?
              || forall i :: 0 <= i < |o.targets| && IsTargetOf(c, o.targets[i].first.name) ==>
                   !(exists n :: BrokenYetEnded(o.targets[i], o.generated, n))
                   && !(FirstCheckEnds(o.targets[i].first, o.generated, c.parse)
                        && FirstCheckStrays(o.targets[i].first))
  {
    forall i | 0 <= i < |o.targets|
      ensures AsksAgain(o.targets[i], c) <==>
                IsTargetOf(c, o.targets[i].first.name)
                && ((exists n :: BrokenYetEnded(o.targets[i], o.generated, n))
                    || (FirstCheckEnds(o.targets[i].first, o.generated, c.parse)
                        && FirstCheckStrays(o.targets[i].first)))
    {
      var t := o.targets[i];
      DrainsMeans(t, o.generated, c);
      FirstCheckMeans(t, o.generated, c);
      if FirstCheckEnds(t.first, o.generated, c.parse) {
        var n :| ChecksThrough(t.first, o.generated, n);
        StraysIsMismatched(t.first, n);
      }
    }
  }

  // ---------- what a task writes ----------

  function SizeOf(rows: seq<Report>): nat {
    if rows == [] then 0 else SizeOf(rows[..|rows| - 1]) + rows[|rows| - 1].size
  }

  /** The events of the polls up to `n`. */
  function EventsTo(answers: seq<Answer>, n: nat): Usage
    requires n < |answers|
  {
    if n == 0 then answers[0].cost else Plus(answers[0].cost, EventsTo(answers[1..], n - 1))
  }

  lemma {:induction false} RowsCost(rows: seq<Report>)
    ensures Total(Rows(Sizes(rows))) == Usage(|rows|, SizeOf(rows), 0, 0)
    decreases |rows|
  {
    if rows != [] {
      var n := |rows| - 1;
      RowsCost(rows[..n]);
      assert Rows(Sizes(rows))[..n] == Rows(Sizes(rows[..n]));
    }
  }

  lemma {:induction false} SizesAdd(a: seq<Report>, b: seq<Report>)
    ensures SizeOf(a + b) == SizeOf(a) + SizeOf(b)
    decreases |b|
  {
    if b == [] {
      assert a + b == a;
    } else {
      var front := b[..|b| - 1];
      SizesAdd(a, front);
      assert (a + b)[..|a + b| - 1] == a + front;
    }
  }

  lemma {:induction false} LaterPolls(answers: seq<Answer>, n: nat)
    requires PollsEnd(answers, n) && n > 0
    ensures PollsEnd(answers[1..], n - 1) && Spent(answers) == Plus(AnswerCost(answers[0]), Spent(answers[1..]))
  {
    assert answers[1..][n - 1] == answers[n];
  }

  lemma AddUp(first: Usage, rest: Usage, rows: nat, size: nat, more: nat, moreSize: nat)
    ensures Plus(Plus(first, Usage(rows, size, 0, 0)), Plus(rest, Usage(more, moreSize, 0, 0)))
         == Plus(Plus(first, rest), Usage(rows + more, size + moreSize, 0, 0))
  {
  }

  /** A task that ends has written the events of its polls, each row once, and every character of the rows. */
  lemma {:induction false} SpentExactly(answers: seq<Answer>, n: nat)
    requires PollsEnd(answers, n)
    ensures Spent(answers) == Plus(EventsTo(answers, n), Usage(|RowsTo(answers, n)|, SizeOf(RowsTo(answers, n)), 0, 0))
    decreases n
  {
    var first := answers[0].reports;
    RowsCost(first);
    assert AnswerCost(answers[0]) == Plus(answers[0].cost, Usage(|first|, SizeOf(first), 0, 0));
    if n > 0 {
      LaterPolls(answers, n);
      SpentExactly(answers[1..], n - 1);
      var rest := RowsTo(answers[1..], n - 1);
      SizesAdd(first, rest);
      AddUp(answers[0].cost, EventsTo(answers[1..], n - 1), |first|, SizeOf(first), |rest|, SizeOf(rest));
    }
  }
}
