/**
Verdicts over frozen traces. Both evaluators compare each scan with its expectation and forgive one
late scan at a transition: the alarm evaluator under four conditions, the traffic evaluator under one.
What the scanner answers is arbitrary. Values are integers; a bit is 0 or 1.
*/
module Tolerance {

  import opened Basics

  type Values = map<string, int>

  /** `armed` is X1. */
  datatype Frame = Frame(time: int, armed: bool, inputs: Values, expected: Values)

  /** A device the scanner does not know, or that it never lists, has no value. */
  datatype Answer = Raised | After(memory: map<string, Option<int>>)

  datatype Status = Pass | Fail | Unverified

  datatype Failure = Failure(time: int, mismatches: set<string>)

  const MAX_FAILURES := 12
  const MAX_KEPT := 4
  const ZONE_MEMORIES := {"Y3", "Y4", "Y5"}

  function Actual(f: Frame, a: Answer): map<string, Option<int>>
    requires a.After?
  {
    map k | k in f.expected :: if k in a.memory then a.memory[k] else None
  }

  predicate Same(actual: map<string, Option<int>>, expected: Values) {
    actual.Keys == expected.Keys && forall k :: k in actual ==> actual[k] == Some(expected[k])
  }

  predicate AllKnown(f: Frame, a: Answer) {
    a.After? && forall k :: k in f.expected ==> Actual(f, a)[k].Some?
  }

  function Mismatches(f: Frame, a: Answer): set<string>
    requires a.After?
  {
    set k | k in f.expected && Actual(f, a)[k].Some? && Actual(f, a)[k].value != f.expected[k]
  }

  // ---------- the alarm evaluator ----------

  predicate SameInputs(f: Frame, g: Frame) { f.armed == g.armed && f.inputs == g.inputs }

  /**
  The expectation just changed, the outputs are still the previous ones, nothing else moved, and no zone memory
  is late.
  */
  predicate Late(frames: seq<Frame>, answers: seq<Answer>, i: nat)
    requires i < |frames| == |answers| && answers[i].After?
  {
    && i > 0 && Same(Actual(frames[i], answers[i]), frames[i - 1].expected)
      && frames[i].expected != frames[i - 1].expected
    && frames[i].armed && SameInputs(frames[i], frames[i - 1])
    && Mismatches(frames[i], answers[i]) * ZONE_MEMORIES == {}
  }

  function Remaining(frames: seq<Frame>, answers: seq<Answer>, i: nat, alarm: bool): set<string>
    requires i < |frames| == |answers| && answers[i].After?
  {
    if alarm && Late(frames, answers, i) then {} else Mismatches(frames[i], answers[i])
  }

  /** What remains of a scan among the operands that are looked at. */
  function Part(frames: seq<Frame>, answers: seq<Answer>, i: nat, alarm: bool,
      selected: Frame -> set<string>): set<string>
    requires i < |frames| == |answers| && answers[i].After?
  {
    Remaining(frames, answers, i, alarm) * selected(frames[i])
  }

  predicate WrongIn(frames: seq<Frame>, answers: seq<Answer>, i: nat, alarm: bool, selected: Frame -> set<string>)
    requires i < |frames| == |answers|
  {
    answers[i].After? && Part(frames, answers, i, alarm, selected) != {}
  }

  /** The trace itself looks at everything that is expected. */
  function Expected(f: Frame): set<string> { f.expected.Keys }

  predicate Wrong(frames: seq<Frame>, answers: seq<Answer>, i: nat, alarm: bool)
    requires i < |frames| == |answers|
  {
    answers[i].After? && Remaining(frames, answers, i, alarm) != {}
  }

  lemma WrongIsWrongIn(frames: seq<Frame>, answers: seq<Answer>, i: nat, alarm: bool)
    requires i < |frames| == |answers|
    ensures Wrong(frames, answers, i, alarm) <==> WrongIn(frames, answers, i, alarm, Expected)
    ensures answers[i].After? ==> Part(frames, answers, i, alarm, Expected) == Remaining(frames, answers, i, alarm)
  {
  }

  predicate Conclusive(frames: seq<Frame>, answers: seq<Answer>)
    requires |frames| == |answers|
  {
    forall i :: 0 <= i < |frames| ==> AllKnown(frames[i], answers[i])
  }

  predicate Before(frames: seq<Frame>, i: nat, previous: Option<Frame>)
    requires i <= |frames|
  {
    previous == if i == 0 then None else Some(frames[i - 1])
  }

  method ScanMismatches(frames: seq<Frame>, answers: seq<Answer>, i: nat, previous: Option<Frame>, alarm: bool)
    returns (mismatch: set<string>, tolerated: bool)
    requires i < |frames| == |answers| && answers[i].After? && Before(frames, i, previous)
    ensures mismatch == Remaining(frames, answers, i, alarm)
    ensures tolerated <==> alarm && Late(frames, answers, i) && Mismatches(frames[i], answers[i]) != {}
  {
    var f, actual := frames[i], Actual(frames[i], answers[i]);
    mismatch := Mismatches(f, answers[i]);
    tolerated := false;
    if mismatch != {} && alarm && previous.Some? && Same(actual, previous.value.expected)
      && f.expected != previous.value.expected && f.armed
      && SameInputs(f, previous.value) && mismatch * ZONE_MEMORIES == {} {
      mismatch := {};
      tolerated := true;
    }
  }

  predicate Selects(frames: seq<Frame>, n: nat, selected: Frame -> set<string>)
    requires n <= |frames|
  {
    exists i :: 0 <= i < n && selected(frames[i]) != {}
  }

  predicate SelectsWrong(frames: seq<Frame>, answers: seq<Answer>, n: nat, alarm: bool, selected: Frame -> set<string>)
    requires n <= |frames| == |answers|
  {
    exists i :: 0 <= i < n && WrongIn(frames, answers, i, alarm, selected)
  }

  lemma NextSelected(frames: seq<Frame>, answers: seq<Answer>, i: nat, alarm: bool, selected: Frame -> set<string>)
    requires i < |frames| == |answers|
    ensures Selects(frames, i + 1, selected) <==> Selects(frames, i, selected) || selected(frames[i]) != {}
    ensures SelectsWrong(frames, answers, i + 1, alarm, selected)
            <==> SelectsWrong(frames, answers, i, alarm, selected) || WrongIn(frames, answers, i, alarm, selected)
  {
    if Selects(frames, i + 1, selected) {
      var k :| 0 <= k < i + 1 && selected(frames[k]) != {};
      assert k < i || k == i;
    }
    if SelectsWrong(frames, answers, i + 1, alarm, selected) {
      var k :| 0 <= k < i + 1 && WrongIn(frames, answers, k, alarm, selected);
      assert k < i || k == i;
    }
  }

  function FailureAt(frames: seq<Frame>, answers: seq<Answer>, i: nat, alarm: bool,
      selected: Frame -> set<string>): Failure
    requires i < |frames| == |answers| && answers[i].After?
  {
    Failure(frames[i].time, Part(frames, answers, i, alarm, selected))
  }

  /** What is kept are wrong scans, each with what remains of it, and short of the limit all of them. */
  ghost predicate Kept(failures: seq<Failure>, limit: nat, frames: seq<Frame>, answers: seq<Answer>, n: nat,
                       alarm: bool, selected: Frame -> set<string>)
    requires n <= |frames| == |answers|
  {
    && |failures| <= limit
    && (forall x :: x in failures ==>
          exists i :: 0 <= i < n && WrongIn(frames, answers, i, alarm, selected)
                      && x == FailureAt(frames, answers, i, alarm, selected))
    && (|failures| < limit ==>
          forall i :: 0 <= i < n && WrongIn(frames, answers, i, alarm, selected) ==>
                        FailureAt(frames, answers, i, alarm, selected) in failures)
  }

  /** The list after one more scan: a wrong one is added while there is room. */
  function Keeping(failures: seq<Failure>, limit: nat, time: int, wrong: set<string>): seq<Failure> {
    if wrong != {} && |failures| < limit then failures + [Failure(time, wrong)] else failures
  }

  lemma KeptNext(failures: seq<Failure>, limit: nat, frames: seq<Frame>, answers: seq<Answer>, n: nat,
                 alarm: bool, selected: Frame -> set<string>)
    requires n < |frames| == |answers| && answers[n].After?
    requires Kept(failures, limit, frames, answers, n, alarm, selected)
    ensures Kept(Keeping(failures, limit, frames[n].time, Part(frames, answers, n, alarm, selected)), limit,
                 frames, answers, n + 1, alarm, selected)
  {
    var x := FailureAt(frames, answers, n, alarm, selected);
    var more := Keeping(failures, limit, x.time, x.mismatches);
    forall y | y in more
      ensures exists i :: 0 <= i < n + 1 && WrongIn(frames, answers, i, alarm, selected)
                          && y == FailureAt(frames, answers, i, alarm, selected)
    {
      if y !in failures {
        assert WrongIn(frames, answers, n, alarm, selected) && y == x;
      }
    }
    if |more| < limit {
      forall i | 0 <= i < n + 1 && WrongIn(frames, answers, i, alarm, selected)
        ensures FailureAt(frames, answers, i, alarm, selected) in more
      {
        assert i == n ==> more[|failures|] == FailureAt(frames, answers, i, alarm, selected);
      }
    }
  }

  // ---------- the acceptance criteria ----------

  /** The running totals of one acceptance criterion, and the failures it keeps. */
  datatype Tally = Tally(observations: nat, wrong: nat, failures: seq<Failure>)

  const NO_TALLY := Tally(0, 0, [])

  function Tallied(v: Tally, time: int, looked: set<string>, wrong: set<string>): Tally {
    Tally(v.observations + |looked|, v.wrong + |wrong|, Keeping(v.failures, MAX_KEPT, time, wrong))
  }

  function VerdictOf(v: Tally, conclusive: bool): Status {
    if !conclusive || v.observations == 0 then Unverified else if v.wrong > 0 then Fail else Pass
  }

  class Criterion {
    const selected: Frame -> set<string>
    var observations: nat
    var wrong: nat
    var failures: seq<Failure>

    ghost function View(): Tally
      reads this
    {
      Tally(observations, wrong, failures)
    }

    constructor (selected: Frame -> set<string>)
      ensures this.selected == selected && View() == NO_TALLY
    {
      this.selected, observations, wrong, failures := selected, 0, 0, [];
    }

    method Observe(f: Frame, mismatch: set<string>)
      modifies this
      ensures View() == Tallied(old(View()), f.time, selected(f), mismatch * selected(f))
    {
      observations := observations + |selected(f)|;
      var relevant := mismatch * selected(f);
      if relevant != {} {
        wrong := wrong + |relevant|;
        if |failures| < MAX_KEPT {
          failures := failures + [Failure(f.time, relevant)];
        }
      }
    }

    function Verdict(conclusive: bool): (status: Status)
      reads this
      ensures status == VerdictOf(View(), conclusive)
    {
      if !conclusive || observations == 0 then Unverified else if wrong > 0 then Fail else Pass
    }
  }

  ghost predicate Totals(v: Tally, selected: Frame -> set<string>, frames: seq<Frame>, answers: seq<Answer>, n: nat,
                         alarm: bool)
    requires n <= |frames| == |answers|
  {
    && (v.observations > 0 <==> Selects(frames, n, selected))
    && (v.wrong > 0 <==> SelectsWrong(frames, answers, n, alarm, selected))
    && Kept(v.failures, 4, frames, answers, n, alarm, selected)
  }

  lemma TotalsNext(v: Tally, selected: Frame -> set<string>, frames: seq<Frame>, answers: seq<Answer>, n: nat,
      alarm: bool)
    requires n < |frames| == |answers| && answers[n].After? && Totals(v, selected, frames, answers, n, alarm)
    ensures Totals(Tallied(v, frames[n].time, selected(frames[n]), Part(frames, answers, n, alarm, selected)),
                   selected, frames, answers, n + 1, alarm)
  {
    NextSelected(frames, answers, n, alarm, selected);
    KeptNext(v.failures, MAX_KEPT, frames, answers, n, alarm, selected);
  }

  ghost predicate Distinct(criteria: seq<Criterion>) {
    forall j, k :: 0 <= j < k < |criteria| ==> criteria[j] != criteria[k]
  }

  /** Every criterion sees the scan. */
  method ObserveAll(criteria: seq<Criterion>, f: Frame, mismatch: set<string>)
    requires Distinct(criteria)
    modifies criteria
    ensures forall j :: 0 <= j < |criteria| ==>
              criteria[j].View()
              == Tallied(old(criteria[j].View()), f.time, criteria[j].selected(f), mismatch * criteria[j].selected(f))
  {
    for k := 0 to |criteria|
      invariant forall j :: 0 <= j < k ==>
                  criteria[j].View()
                  == Tallied(old(criteria[j].View()), f.time, criteria[j].selected(f),
                    mismatch * criteria[j].selected(f))
      invariant forall j :: k <= j < |criteria| ==> criteria[j].View() == old(criteria[j].View())
    {
      criteria[k].Observe(f, mismatch);
    }
  }

  // ---------- the verdicts ----------

  /** What a scanner made of one trace: its answers, up to the first that raised, and its gaps. */
  datatype Trace = Trace(frames: seq<Frame>, answers: seq<Answer>, gaps: nat)

  /** Nothing is unsupported or left open, and every operand of every scan is known. */
  ghost predicate Decided(t: Trace, unsupported: bool)
    requires |t.frames| == |t.answers|
  {
    !unsupported && t.gaps == 0 && Conclusive(t.frames, t.answers)
  }

  ghost predicate SomeWrong(t: Trace, alarm: bool, selected: Frame -> set<string>)
    requires |t.frames| == |t.answers|
  {
    SelectsWrong(t.frames, t.answers, |t.frames|, alarm, selected)
  }

  /** The verdict a trace deserves on the operands that `selected` looks at. */
  ghost function Deserved(t: Trace, alarm: bool, unsupported: bool, selected: Frame -> set<string>): Status
    requires |t.frames| == |t.answers|
  {
    if !Decided(t, unsupported) then Unverified else if SomeWrong(t, alarm, selected) then Fail else Pass
  }

  ghost function DeservedCheck(t: Trace, alarm: bool, unsupported: bool, selected: Frame -> set<string>): Status
    requires |t.frames| == |t.answers|
  {
    if !Selects(t.frames, |t.frames|, selected) then Unverified else Deserved(t, alarm, unsupported, selected)
  }

  // ---------- the scan loop, scan by scan ----------

  function WrongAt(t: Trace, i: nat, alarm: bool, selected: Frame -> set<string>): set<string>
    requires i < |t.frames| == |t.answers|
  {
    if t.answers[i].After? then Part(t.frames, t.answers, i, alarm, selected) else {}
  }

  function KeptOf(t: Trace, n: nat, alarm: bool, selected: Frame -> set<string>, limit: nat): seq<Failure>
    requires n <= |t.frames| == |t.answers|
  {
    if n == 0 then []
    else Keeping(KeptOf(t, n - 1, alarm, selected, limit), limit, t.frames[n - 1].time,
      WrongAt(t, n - 1, alarm, selected))
  }

  function TallyOf(t: Trace, n: nat, alarm: bool, selected: Frame -> set<string>): Tally
    requires n <= |t.frames| == |t.answers|
  {
    if n == 0 then NO_TALLY
    else Tallied(TallyOf(t, n - 1, alarm, selected), t.frames[n - 1].time, selected(t.frames[n - 1]),
                 WrongAt(t, n - 1, alarm, selected))
  }

  function UnknownsOf(t: Trace, n: nat): nat
    requires n <= |t.frames| == |t.answers|
  {
    if n == 0 then 0
    else UnknownsOf(t, n - 1) + if AllKnown(t.frames[n - 1], t.answers[n - 1]) then 0 else 1
  }

  lemma {:induction false} UnknownsAre(t: Trace, n: nat)
    requires n <= |t.frames| == |t.answers|
    ensures UnknownsOf(t, n) == 0 <==> KnownUpTo(t.frames, t.answers, n)
  {
    if n > 0 {
      UnknownsAre(t, n - 1);
      KnownNext(t.frames, t.answers, n - 1);
    }
  }

  predicate Answered(answers: seq<Answer>) { forall a :: a in answers ==> a.After? }

  lemma AnsweredBefore(answers: seq<Answer>, n: nat)
    requires n < |answers| && Answered(answers[..n + 1])
    ensures Answered(answers[..n]) && answers[n].After?
  {
    assert answers[..n + 1] == answers[..n] + [answers[n]];
  }

  /** The loop's lists and totals are what they are meant to be. */
  lemma {:induction false} KeptAre(t: Trace, n: nat, alarm: bool, selected: Frame -> set<string>, limit: nat)
    requires n <= |t.frames| == |t.answers| && Answered(t.answers[..n])
    ensures Kept(KeptOf(t, n, alarm, selected, limit), limit, t.frames, t.answers, n, alarm, selected)
  {
    if n > 0 {
      AnsweredBefore(t.answers, n - 1);
      KeptAre(t, n - 1, alarm, selected, limit);
      var kept, wrong := KeptOf(t, n - 1, alarm, selected, limit), WrongAt(t, n - 1, alarm, selected);
      KeptNext(kept, limit, t.frames, t.answers, n - 1, alarm, selected);
      assert KeptOf(t, n, alarm, selected, limit) == Keeping(kept, limit, t.frames[n - 1].time, wrong);
    }
  }

  lemma {:induction false} TotalsAre(t: Trace, n: nat, alarm: bool, selected: Frame -> set<string>)
    requires n <= |t.frames| == |t.answers| && Answered(t.answers[..n])
    ensures Totals(TallyOf(t, n, alarm, selected), selected, t.frames, t.answers, n, alarm)
  {
    if n > 0 {
      AnsweredBefore(t.answers, n - 1);
      TotalsAre(t, n - 1, alarm, selected);
      TotalsNext(TallyOf(t, n - 1, alarm, selected), selected, t.frames, t.answers, n - 1, alarm);
    }
  }

  /** One scan that the scanner answers. */
  method RunScan(t: Trace, i: nat, previous: Option<Frame>, alarm: bool, criteria: seq<Criterion>,
                 failures: seq<Failure>, unknown: nat)
    returns (kept: seq<Failure>, open: nat)
    requires i < |t.frames| == |t.answers| && t.answers[i].After? && Before(t.frames, i, previous)
    requires Distinct(criteria)
    modifies criteria
    ensures kept == Keeping(failures, MAX_FAILURES, t.frames[i].time, WrongAt(t, i, alarm, Expected))
    ensures open == unknown + if AllKnown(t.frames[i], t.answers[i]) then 0 else 1
    ensures forall j :: 0 <= j < |criteria| ==>
              criteria[j].View() == Tallied(old(criteria[j].View()), t.frames[i].time,
                criteria[j].selected(t.frames[i]),
                                            WrongAt(t, i, alarm, criteria[j].selected))
  {
    var f := t.frames[i];
    var mismatch, tolerated := ScanMismatches(t.frames, t.answers, i, previous, alarm);
    WrongIsWrongIn(t.frames, t.answers, i, alarm);
    kept := if mismatch != {} && |failures| < MAX_FAILURES then failures + [Failure(f.time, mismatch)] else failures;
    open := if AllKnown(f, t.answers[i]) then unknown else unknown + 1;
    ObserveAll(criteria, f, mismatch);
  }

  /** The scan loop: what it leaves behind, unless a scan raises. */
  method RunTrace(t: Trace, alarm: bool, criteria: seq<Criterion>) returns (failures: seq<Failure>, unknown: nat)
    requires |t.frames| == |t.answers| && Distinct(criteria)
    requires forall j :: 0 <= j < |criteria| ==> criteria[j].View() == NO_TALLY
    modifies criteria
    ensures unknown == 0 <==> Conclusive(t.frames, t.answers)
    ensures unknown == 0 ==> failures == KeptOf(t, |t.frames|, alarm, Expected, 12)
    ensures unknown == 0 ==>
              forall j :: 0 <= j < |criteria| ==>
                criteria[j].View() == TallyOf(t, |t.frames|, alarm, criteria[j].selected)
  {
    failures, unknown := [], 0;
    var previous: Option<Frame> := None;
    for i := 0 to |t.frames|
      invariant previous == if i == 0 then None else Some(t.frames[i - 1])
      invariant unknown == UnknownsOf(t, i) && failures == KeptOf(t, i, alarm, Expected, MAX_FAILURES)
      invariant forall j :: 0 <= j < |criteria| ==> criteria[j].View() == TallyOf(t, i, alarm, criteria[j].selected)
    {
      if t.answers[i].Raised? {
        RaisedIsOpen(t, i);
        return failures, unknown + 1;
      }
      failures, unknown := RunScan(t, i, previous, alarm, criteria, failures, unknown);
      previous := Some(t.frames[i]);
    }
    UnknownsAre(t, |t.frames|);
    AllKnownIsConclusive(t);
  }

  lemma RaisedIsOpen(t: Trace, i: nat)
    requires i < |t.frames| == |t.answers| && t.answers[i].Raised?
    ensures !Conclusive(t.frames, t.answers)
  {
    assert !AllKnown(t.frames[i], t.answers[i]);
  }

  lemma AllKnownIsConclusive(t: Trace)
    requires |t.frames| == |t.answers|
    ensures KnownUpTo(t.frames, t.answers, |t.frames|) <==> Conclusive(t.frames, t.answers)
    ensures Conclusive(t.frames, t.answers) ==> Answered(t.answers[..|t.frames|])
  {
    if Conclusive(t.frames, t.answers) {
      forall i | 0 <= i < |t.answers|
        ensures t.answers[i].After?
      {
        assert AllKnown(t.frames[i], t.answers[i]);
      }
    }
  }

  /** A list that keeps some is empty exactly when nothing is wrong. */
  lemma KeptShows(failures: seq<Failure>, t: Trace, alarm: bool)
    requires |t.frames| == |t.answers|
    requires Kept(failures, MAX_FAILURES, t.frames, t.answers, |t.frames|, alarm, Expected)
    ensures failures == [] <==> !SomeWrong(t, alarm, Expected)
  {
    if failures != [] {
      assert failures[0] in failures;
    }
  }

  /**
  The verdict on one trace, and on every acceptance criterion over it. The trace passes exactly when
  nothing is unsupported or left open, every scan is known, and each is exact or late in the one
  permitted way; it fails exactly when it could have passed and some scan is wrong. A criterion asks the same
  of the operands it looks at, and to have looked at some. At most twelve failures are kept of the trace
  and four of a criterion, and no verdict depends on that.
  */
  method EvaluateAlarmTrace(t: Trace, alarm: bool, unsupported: bool, criteria: seq<Criterion>)
    returns (status: Status, failures: seq<Failure>, checks: seq<Status>)
    requires |t.frames| == |t.answers| && Distinct(criteria)
    requires forall j :: 0 <= j < |criteria| ==> criteria[j].View() == NO_TALLY
    modifies criteria
    ensures status == Deserved(t, alarm, unsupported, Expected)
    ensures Conclusive(t.frames, t.answers) ==>
              Kept(failures, 12, t.frames, t.answers, |t.frames|, alarm, Expected)
    ensures |checks| == |criteria|
    ensures forall j :: 0 <= j < |criteria| ==>
              CheckedAs(checks[j], criteria[j].View(), t, alarm, unsupported, criteria[j].selected)
  {
    var unknown;
    failures, unknown := RunTrace(t, alarm, criteria);
    TraceVerdict(t, alarm, unsupported, failures, unknown);
    var conclusive := unknown + t.gaps == 0 && !unsupported;
    status := if !conclusive then Unverified else if failures != [] then Fail else Pass;
    checks := Conclude(t, alarm, unsupported, criteria, unknown);
  }

  /** The verdicts on the criteria, once the loop is over. */
  method Conclude(t: Trace, ghost alarm: bool, unsupported: bool, criteria: seq<Criterion>, unknown: nat)
    returns (checks: seq<Status>)
    requires |t.frames| == |t.answers| && (unknown == 0 <==> Conclusive(t.frames, t.answers))
    requires unknown == 0 ==>
               forall j :: 0 <= j < |criteria| ==>
                 criteria[j].View() == TallyOf(t, |t.frames|, alarm, criteria[j].selected)
    ensures |checks| == |criteria|
    ensures forall j :: 0 <= j < |criteria| ==>
              CheckedAs(checks[j], criteria[j].View(), t, alarm, unsupported, criteria[j].selected)
  {
    checks := [];
    for j := 0 to |criteria|
      invariant |checks| == j
      invariant forall k :: 0 <= k < j ==>
                  CheckedAs(checks[k], criteria[k].View(), t, alarm, unsupported, criteria[k].selected)
    {
      CheckVerdict(criteria[j].View(), t, alarm, unsupported, unknown, criteria[j].selected);
      checks := checks + [criteria[j].Verdict(unknown + t.gaps == 0 && !unsupported)];
    }
  }

  /** A criterion's verdict and kept failures are what its trace deserves. */
  ghost predicate CheckedAs(status: Status, v: Tally, t: Trace, alarm: bool, unsupported: bool,
      selected: Frame -> set<string>)
    requires |t.frames| == |t.answers|
  {
    && status == DeservedCheck(t, alarm, unsupported, selected)
    && (Conclusive(t.frames, t.answers) ==>
          Kept(v.failures, 4, t.frames, t.answers, |t.frames|, alarm, selected))
  }

  lemma {:induction false} TraceVerdict(t: Trace, alarm: bool, unsupported: bool, failures: seq<Failure>, unknown: nat)
    requires |t.frames| == |t.answers| && (unknown == 0 <==> Conclusive(t.frames, t.answers))
    requires unknown == 0 ==> failures == KeptOf(t, |t.frames|, alarm, Expected, MAX_FAILURES)
    ensures Deserved(t, alarm, unsupported, Expected)
         == if unknown + t.gaps != 0 || unsupported then Unverified else if failures != [] then Fail else Pass
    ensures unknown == 0 ==> Kept(failures, 12, t.frames, t.answers, |t.frames|, alarm, Expected)
  {
    if unknown == 0 {
      AllKnownIsConclusive(t);
      KeptAre(t, |t.frames|, alarm, Expected, MAX_FAILURES);
      KeptShows(failures, t, alarm);
    }
  }

  lemma {:induction false} CheckVerdict(v: Tally, t: Trace, alarm: bool, unsupported: bool, unknown: nat,
      selected: Frame -> set<string>)
    requires |t.frames| == |t.answers| && (unknown == 0 <==> Conclusive(t.frames, t.answers))
    requires unknown == 0 ==> v == TallyOf(t, |t.frames|, alarm, selected)
    ensures CheckedAs(VerdictOf(v, unknown + t.gaps == 0 && !unsupported), v, t, alarm, unsupported, selected)
  {
    if unknown == 0 {
      AllKnownIsConclusive(t);
      TotalsAre(t, |t.frames|, alarm, selected);
    }
  }

  method NewCriteria(selections: seq<Frame -> set<string>>) returns (criteria: seq<Criterion>)
    ensures fresh(criteria) && |criteria| == |selections| && Distinct(criteria)
    ensures forall j :: 0 <= j < |selections| ==>
        criteria[j].selected == selections[j]
        && criteria[j].View() == NO_TALLY
  {
    criteria := [];
    for j := 0 to |selections|
      invariant fresh(criteria) && |criteria| == j && Distinct(criteria)
      invariant forall k :: 0 <= k < j ==> criteria[k].selected == selections[k] && criteria[k].View() == NO_TALLY
    {
      var c := new Criterion(selections[j]);
      criteria := criteria + [c];
    }
  }

  /** One trace, and every selection over it, got the verdict it deserves. */
  ghost predicate Judged(t: Trace, selections: seq<Frame -> set<string>>, alarm: bool, unsupported: bool,
                         result: Status, checks: seq<Status>)
    requires |t.frames| == |t.answers|
  {
    && result == Deserved(t, alarm, unsupported, Expected)
    && |checks| == |selections|
    && forall j :: 0 <= j < |selections| ==> checks[j] == DeservedCheck(t, alarm, unsupported, selections[j])
  }

  method JudgeTrace(t: Trace, selections: seq<Frame -> set<string>>, alarm: bool, unsupported: bool)
    returns (result: Status, checks: seq<Status>)
    requires |t.frames| == |t.answers|
    ensures Judged(t, selections, alarm, unsupported, result, checks)
  {
    var criteria := NewCriteria(selections);
    var failures;
    result, failures, checks := EvaluateAlarmTrace(t, alarm, unsupported, criteria);
    forall j | 0 <= j < |selections|
      ensures checks[j] == DeservedCheck(t, alarm, unsupported, selections[j])
    {
      assert CheckedAs(checks[j], criteria[j].View(), t, alarm, unsupported, criteria[j].selected);
    }
  }

  /**
  The verdict on a program: every trace, and every criterion of every trace, gets what it deserves. The
  program passes exactly when every trace does and no input or output is beyond the declared ones; a failed
  trace outweighs one that could not be decided.
  */
  method EvaluateProgram(traces: seq<Trace>, selections: seq<Frame -> set<string>>, alarm: bool, unsupported: bool,
                         extra: bool)
    returns (status: Status, results: seq<Status>, checks: seq<seq<Status>>)
    requires forall n :: 0 <= n < |traces| ==> |traces[n].frames| == |traces[n].answers|
    ensures |results| == |checks| == |traces|
    ensures forall n :: 0 <= n < |traces| ==>
              Judged(traces[n], selections, alarm, unsupported, results[n], checks[n])
    ensures status.Pass? <==> !extra && forall n :: 0 <= n < |traces| ==> results[n] == Pass
    ensures status.Fail? <==> extra || exists n :: 0 <= n < |traces| && results[n] == Fail
  {
    results, checks := [], [];
    for n := 0 to |traces|
      invariant |results| == |checks| == n
      invariant forall k :: 0 <= k < n ==> Judged(traces[k], selections, alarm, unsupported, results[k], checks[k])
    {
      var result, checked := JudgeTrace(traces[n], selections, alarm, unsupported);
      results, checks := results + [result], checks + [checked];
    }
    status := Combined(results, extra);
  }

  function Combined(results: seq<Status>, extra: bool): (status: Status)
    ensures status.Pass? <==> !extra && forall n :: 0 <= n < |results| ==> results[n] == Pass
    ensures status.Fail? <==> extra || exists n :: 0 <= n < |results| && results[n] == Fail
  {
    assert (forall n :: 0 <= n < |results| ==> results[n] == Pass) <==> Fail !in results && Unverified !in results;
    if extra || Fail in results then Fail else if Unverified in results then Unverified else Pass
  }

  predicate KnownUpTo(frames: seq<Frame>, answers: seq<Answer>, n: nat)
    requires |frames| == |answers|
  {
    forall i :: 0 <= i < n && i < |frames| ==> AllKnown(frames[i], answers[i])
  }

  lemma KnownNext(frames: seq<Frame>, answers: seq<Answer>, i: nat)
    requires i < |frames| == |answers|
    ensures KnownUpTo(frames, answers, i + 1) <==> KnownUpTo(frames, answers, i) && AllKnown(frames[i], answers[i])
    ensures Conclusive(frames, answers) ==> AllKnown(frames[i], answers[i])
    ensures KnownUpTo(frames, answers, |frames|) <==> Conclusive(frames, answers)
  {
  }

  // ---------- what the verdicts mean ----------

  /** The scanner answered with these values for these operands. */
  predicate ShowsAll(a: Answer, values: Values) {
    a.After? && forall k :: k in values ==> k in a.memory && a.memory[k] == Some(values[k])
  }

  /** The scanner answered with some value for each operand. */
  predicate KnowsAll(a: Answer, values: Values) {
    a.After? && forall k :: k in values ==> k in a.memory && a.memory[k].Some?
  }

  /**
  A scan that may be late: an alarm trace, not at its first scan; the expectation has just changed, for the same
  operands and with the same zone memories; X1 is on and no input has changed; and the scanner answers what was
  expected before.
  */
  predicate MayLag(t: Trace, i: nat, alarm: bool)
    requires i < |t.frames| == |t.answers|
  {
    && alarm && i > 0
    && t.frames[i].expected != t.frames[i - 1].expected && t.frames[i].expected.Keys == t.frames[i - 1].expected.Keys
    && (forall k :: k in {"Y3", "Y4", "Y5"} && k in t.frames[i].expected ==>
          t.frames[i].expected[k] == t.frames[i - 1].expected[k])
    && t.frames[i].armed && t.frames[i - 1].armed && t.frames[i].inputs == t.frames[i - 1].inputs
    && ShowsAll(t.answers[i], t.frames[i - 1].expected)
  }

  /** Nothing is unsupported or left open, and every scan answers every expected operand. */
  predicate AllAnswered(t: Trace, unsupported: bool)
    requires |t.frames| == |t.answers|
  {
    !unsupported && t.gaps == 0 && forall i :: 0 <= i < |t.frames| ==> KnowsAll(t.answers[i], t.frames[i].expected)
  }

  lemma ActualIs(f: Frame, a: Answer, k: string)
    requires a.After? && k in f.expected
    ensures Actual(f, a)[k] == if k in a.memory then a.memory[k] else None
  {
  }

  lemma AnsweredIsDecided(t: Trace, unsupported: bool)
    requires |t.frames| == |t.answers|
    ensures AllAnswered(t, unsupported) <==> Decided(t, unsupported)
  {
    forall i | 0 <= i < |t.frames|
      ensures KnowsAll(t.answers[i], t.frames[i].expected) <==> AllKnown(t.frames[i], t.answers[i])
    {
      KnowsIsKnown(t.frames[i], t.answers[i]);
    }
  }

  lemma KnowsIsKnown(f: Frame, a: Answer)
    ensures KnowsAll(a, f.expected) <==> AllKnown(f, a)
  {
    if a.After? {
      forall k | k in f.expected
        ensures Actual(f, a)[k].Some? <==> k in a.memory && a.memory[k].Some?
      {
        ActualIs(f, a, k);
      }
    }
  }

  /** Among known answers, the operands that differ are the ones that differ. */
  lemma MismatchedIs(f: Frame, a: Answer, k: string)
    requires KnowsAll(a, f.expected)
    ensures k in Mismatches(f, a) <==> k in f.expected && a.memory[k] != Some(f.expected[k])
  {
    if k in f.expected {
      ActualIs(f, a, k);
    }
  }

  lemma LagIsLate(t: Trace, i: nat, alarm: bool)
    requires i < |t.frames| == |t.answers| && KnowsAll(t.answers[i], t.frames[i].expected)
    ensures MayLag(t, i, alarm) <==> alarm && Late(t.frames, t.answers, i)
  {
    var f, a := t.frames[i], t.answers[i];
    if i > 0 && f.expected.Keys == t.frames[i - 1].expected.Keys {
      var g := t.frames[i - 1];
      ShowsIsSame(f, a, g.expected);
      if ShowsAll(a, g.expected) {
        forall k
          ensures k in Mismatches(f, a) <==> k in f.expected && g.expected[k] != f.expected[k]
        {
          MismatchedIs(f, a, k);
        }
        ZonesAgree(f, a, g.expected);
      }
    } else if i > 0 {
      assert Actual(f, a).Keys == f.expected.Keys;
    }
  }

  lemma ZonesAgree(f: Frame, a: Answer, past: Values)
    requires a.After? && past.Keys == f.expected.Keys
    requires forall k :: k in Mismatches(f, a) <==> k in f.expected && past[k] != f.expected[k]
    ensures Mismatches(f, a) * ZONE_MEMORIES == {} <==>
              forall k :: k in {"Y3", "Y4", "Y5"} && k in f.expected ==> f.expected[k] == past[k]
  {
    assert ZONE_MEMORIES == {"Y3", "Y4", "Y5"};
    if forall k :: k in ZONE_MEMORIES && k in f.expected ==> f.expected[k] == past[k] {
      assert Mismatches(f, a) * ZONE_MEMORIES == {};
    }
    if Mismatches(f, a) * ZONE_MEMORIES == {} {
      forall k | k in ZONE_MEMORIES && k in f.expected
        ensures f.expected[k] == past[k]
      {
        assert k !in Mismatches(f, a) * ZONE_MEMORIES;
      }
    }
  }

  lemma ShowsIsSame(f: Frame, a: Answer, values: Values)
    requires a.After? && values.Keys == f.expected.Keys && KnowsAll(a, f.expected)
    ensures ShowsAll(a, values) <==> Same(Actual(f, a), values)
  {
    forall k | k in values
      ensures Actual(f, a)[k] == a.memory[k]
    {
      ActualIs(f, a, k);
    }
  }

  /** What is wrong with a scan, among the operands one looks at. */
  lemma WrongMeans(t: Trace, i: nat, alarm: bool, selected: Frame -> set<string>)
    requires i < |t.frames| == |t.answers| && KnowsAll(t.answers[i], t.frames[i].expected)
    ensures WrongIn(t.frames, t.answers, i, alarm, selected) <==>
              !MayLag(t, i, alarm)
              && exists k :: k in t.frames[i].expected && k in selected(t.frames[i])
                             && t.answers[i].memory[k] != Some(t.frames[i].expected[k])
  {
    var f, a := t.frames[i], t.answers[i];
    LagIsLate(t, i, alarm);
    forall k
      ensures k in Mismatches(f, a) <==> k in f.expected && a.memory[k] != Some(f.expected[k])
    {
      MismatchedIs(f, a, k);
    }
    if k :| k in f.expected && k in selected(f) && a.memory[k] != Some(f.expected[k]) && !MayLag(t, i, alarm) {
      assert k in Part(t.frames, t.answers, i, alarm, selected);
    }
    if WrongIn(t.frames, t.answers, i, alarm, selected) {
      var k :| k in Part(t.frames, t.answers, i, alarm, selected);
      assert k in Mismatches(f, a) && k in selected(f);
    }
  }

  /**
  The verdict on a trace, or on what a criterion looks at: it fails exactly when all was answered and some scan
  that may not be late answers a wrong value there; and it passes exactly when all was answered and no scan does.
  */
  lemma VerdictMeans(t: Trace, alarm: bool, unsupported: bool, selected: Frame -> set<string>)
    requires |t.frames| == |t.answers|
    ensures Deserved(t, alarm, unsupported, selected) == Pass <==>
              AllAnswered(t, unsupported)
              && forall i, k :: 0 <= i < |t.frames| && k in t.frames[i].expected && k in selected(t.frames[i]) ==>
                   t.answers[i].memory[k] == Some(t.frames[i].expected[k]) || MayLag(t, i, alarm)
    ensures Deserved(t, alarm, unsupported, selected) == Fail <==>
              AllAnswered(t, unsupported)
              && exists i, k :: 0 <= i < |t.frames| && k in t.frames[i].expected && k in selected(t.frames[i])
                                && t.answers[i].memory[k] != Some(t.frames[i].expected[k]) && !MayLag(t, i, alarm)
  {
    AnsweredIsDecided(t, unsupported);
    if AllAnswered(t, unsupported) {
      forall i | 0 <= i < |t.frames|
        ensures WrongIn(t.frames, t.answers, i, alarm, selected) <==>
                  !MayLag(t, i, alarm)
                  && exists k :: k in t.frames[i].expected && k in selected(t.frames[i])
                                 && t.answers[i].memory[k] != Some(t.frames[i].expected[k])
      {
        WrongMeans(t, i, alarm, selected);
      }
    }
  }

  /**
  A passing trace: every scan answers its own expectation in every operand, or it answers the one before it at a
  change of expectation, with X1 on, no input changed and the zone memories as they are expected. So a scan
  whose expectation is the one before it, or the first, is exact, and zone memories always are.
  */
  lemma PassIsSound(t: Trace, alarm: bool, unsupported: bool)
    requires |t.frames| == |t.answers| && Deserved(t, alarm, unsupported, Expected) == Pass
    ensures forall i: nat :: i < |t.frames| ==>
              ShowsAll(t.answers[i], t.frames[i].expected)
              || (alarm && i > 0 && t.frames[i].expected != t.frames[i - 1].expected
                  && t.frames[i].armed && t.frames[i - 1].armed && t.frames[i].inputs == t.frames[i - 1].inputs
                  && ShowsAll(t.answers[i], t.frames[i - 1].expected))
    ensures forall i: nat :: i < |t.frames| && (i == 0 || t.frames[i].expected == t.frames[i - 1].expected) ==>
              ShowsAll(t.answers[i], t.frames[i].expected)
    ensures forall i: nat, k :: i < |t.frames| && k in t.frames[i].expected && k in {"Y3", "Y4", "Y5"} ==>
              KnowsAll(t.answers[i], t.frames[i].expected)
              && t.answers[i].memory[k] == Some(t.frames[i].expected[k])
  {
    VerdictMeans(t, alarm, unsupported, Expected);
    forall i: nat | i < |t.frames|
      ensures ShowsAll(t.answers[i], t.frames[i].expected) || MayLag(t, i, alarm)
      ensures KnowsAll(t.answers[i], t.frames[i].expected)
    {
      assert forall k :: k in t.frames[i].expected ==> k in Expected(t.frames[i]);
    }
  }

  // ---------- what is kept and counted ----------

  /** What remains of a scan: the operands with a wrong answer, unless the scan may be late. */
  lemma WrongAtMeans(t: Trace, i: nat, alarm: bool, selected: Frame -> set<string>, k: string)
    requires i < |t.frames| == |t.answers| && KnowsAll(t.answers[i], t.frames[i].expected)
    ensures k in WrongAt(t, i, alarm, selected) <==>
              !MayLag(t, i, alarm) && k in t.frames[i].expected && k in selected(t.frames[i])
              && t.answers[i].memory[k] != Some(t.frames[i].expected[k])
  {
    LagIsLate(t, i, alarm);
    MismatchedIs(t.frames[i], t.answers[i], k);
  }

  /** Where the marks are, in order. */
  function PlacesOf(marks: seq<bool>): (places: seq<nat>)
    ensures forall j :: 0 <= j < |places| ==> places[j] < |marks|
  {
    if marks == [] then []
    else PlacesOf(marks[..|marks| - 1]) + if marks[|marks| - 1] then [|marks| - 1] else []
  }

  lemma {:induction false} PlacesAre(marks: seq<bool>)
    ensures forall j, k :: 0 <= j < k < |PlacesOf(marks)| ==> PlacesOf(marks)[j] < PlacesOf(marks)[k]
    ensures forall i: nat :: i in PlacesOf(marks) <==> i < |marks| && marks[i]
    decreases |marks|
  {
    if marks != [] {
      var front, n := marks[..|marks| - 1], |marks| - 1;
      PlacesAre(front);
      assert forall i: nat :: i < n ==> front[i] == marks[i];
      assert forall i :: i in PlacesOf(front) + [n] <==> i in PlacesOf(front) || i == n;
    }
  }

  lemma {:induction false} PlacesGrow(marks: seq<bool>, more: bool)
    ensures PlacesOf(marks + [more]) == PlacesOf(marks) + if more then [|marks|] else []
  {
    assert (marks + [more])[..|marks|] == marks;
  }

  /** The scans with something wrong, marked and in order. */
  function WrongMarks(t: Trace, n: nat, alarm: bool, selected: Frame -> set<string>): seq<bool>
    requires n <= |t.frames| == |t.answers|
  {
    seq(n, i requires 0 <= i < n => WrongAt(t, i, alarm, selected) != {})
  }

  function WrongScans(t: Trace, n: nat, alarm: bool, selected: Frame -> set<string>): (places: seq<nat>)
    requires n <= |t.frames| == |t.answers|
    ensures forall j :: 0 <= j < |places| ==> places[j] < n
  {
    PlacesOf(WrongMarks(t, n, alarm, selected))
  }

  lemma WrongScansAre(t: Trace, n: nat, alarm: bool, selected: Frame -> set<string>)
    requires n <= |t.frames| == |t.answers|
    ensures var places := WrongScans(t, n, alarm, selected);
            && (forall j, k :: 0 <= j < k < |places| ==> places[j] < places[k])
            && forall i: nat :: i in places <==> i < n && WrongAt(t, i, alarm, selected) != {}
  {
    PlacesAre(WrongMarks(t, n, alarm, selected));
  }

  lemma WrongScansGrow(t: Trace, n: nat, alarm: bool, selected: Frame -> set<string>)
    requires n < |t.frames| == |t.answers|
    ensures WrongScans(t, n + 1, alarm, selected)
         == WrongScans(t, n, alarm, selected) + if WrongAt(t, n, alarm, selected) != {} then [n] else []
  {
    var marks, more := WrongMarks(t, n, alarm, selected), WrongAt(t, n, alarm, selected) != {};
    assert WrongMarks(t, n + 1, alarm, selected) == marks + [more];
    PlacesGrow(marks, more);
  }

  /** The failures that the scans at these places make. */
  function FailuresOf(t: Trace, places: seq<nat>, alarm: bool, selected: Frame -> set<string>): seq<Failure>
    requires |t.frames| == |t.answers| && forall j :: 0 <= j < |places| ==> places[j] < |t.frames|
  {
    seq(|places|, j requires 0 <= j < |places| =>
      Failure(t.frames[places[j]].time, WrongAt(t, places[j], alarm, selected)))
  }

  lemma FailuresGrow(t: Trace, places: seq<nat>, i: nat, alarm: bool, selected: Frame -> set<string>)
    requires |t.frames| == |t.answers| && i < |t.frames|
    requires forall j :: 0 <= j < |places| ==> places[j] < |t.frames|
    ensures FailuresOf(t, places + [i], alarm, selected)
         == FailuresOf(t, places, alarm, selected) + [Failure(t.frames[i].time, WrongAt(t, i, alarm, selected))]
  {
  }

  function First(places: seq<nat>, limit: nat): (r: seq<nat>)
    ensures forall j :: 0 <= j < |r| ==> j < |places| && r[j] == places[j]
  {
    if |places| < limit then places else places[..limit]
  }

  lemma KeepingIsFirst(t: Trace, places: seq<nat>, all: seq<nat>, i: nat, alarm: bool,
                       selected: Frame -> set<string>, limit: nat)
    requires |t.frames| == |t.answers| && i < |t.frames|
    requires forall j :: 0 <= j < |places| ==> places[j] < |t.frames|
    requires all == places + if WrongAt(t, i, alarm, selected) != {} then [i] else []
    ensures var kept := FailuresOf(t, First(places, limit), alarm, selected);
            Keeping(kept, limit, t.frames[i].time, WrongAt(t, i, alarm, selected))
            == FailuresOf(t, First(all, limit), alarm, selected)
  {
    if WrongAt(t, i, alarm, selected) != {} {
      FirstGrows(places, i, limit);
      FailuresGrow(t, places, i, alarm, selected);
    } else {
      assert all == places;
    }
  }

  /** The kept failures are the first wrong scans, in order, each with its time and all that remains of it. */
  lemma {:induction false} KeptAreTheFirst(t: Trace, n: nat, alarm: bool, selected: Frame -> set<string>, limit: nat)
    requires n <= |t.frames| == |t.answers|
    ensures KeptOf(t, n, alarm, selected, limit)
         == FailuresOf(t, First(WrongScans(t, n, alarm, selected), limit), alarm, selected)
  {
    if n > 0 {
      var i: nat := n - 1;
      KeptAreTheFirst(t, i, alarm, selected, limit);
      WrongScansGrow(t, i, alarm, selected);
      KeepingIsFirst(t, WrongScans(t, i, alarm, selected), WrongScans(t, n, alarm, selected), i, alarm, selected,
                     limit);
    }
  }

  lemma FirstGrows(places: seq<nat>, i: nat, limit: nat)
    ensures First(places + [i], limit) == if |places| < limit then places + [i] else First(places, limit)
    ensures |First(places, limit)| < limit <==> |places| < limit
  {
    if |places| + 1 == limit {
      assert (places + [i])[..limit] == places + [i];
    }
  }

  /** The operands a criterion looks at, scan by scan, and those of them that are wrong. */
  function LookedAt(t: Trace, n: nat, selected: Frame -> set<string>): seq<set<string>>
    requires n <= |t.frames|
  {
    seq(n, i requires 0 <= i < n => selected(t.frames[i]))
  }

  function FoundWrong(t: Trace, n: nat, alarm: bool, selected: Frame -> set<string>): seq<set<string>>
    requires n <= |t.frames| == |t.answers|
  {
    seq(n, i requires 0 <= i < n => WrongAt(t, i, alarm, selected))
  }

  /** One pair for each scan and each of its operands. */
  function Pairs(sets: seq<set<string>>): set<(nat, string)> {
    set i: nat, k | i < |sets| && k in sets[i] :: (i, k)
  }

  function PairsAt(keys: set<string>, i: nat): set<(nat, string)> { set k | k in keys :: (i, k) }

  lemma {:induction false} OnePairEach(keys: set<string>, i: nat)
    ensures |PairsAt(keys, i)| == |keys|
    decreases keys
  {
    if keys != {} {
      var k :| k in keys;
      OnePairEach(keys - {k}, i);
      assert PairsAt(keys, i) == PairsAt(keys - {k}, i) + {(i, k)};
    }
  }

  lemma PairsGrow(sets: seq<set<string>>, keys: set<string>)
    ensures |Pairs(sets + [keys])| == |Pairs(sets)| + |keys|
  {
    OnePairEach(keys, |sets|);
    assert Pairs(sets + [keys]) == Pairs(sets) + PairsAt(keys, |sets|);
    assert Pairs(sets) !! PairsAt(keys, |sets|);
  }

  function SumOf(sets: seq<set<string>>): nat {
    if sets == [] then 0 else SumOf(sets[..|sets| - 1]) + |sets[|sets| - 1]|
  }

  lemma {:induction false} SumGrows(sets: seq<set<string>>, keys: set<string>)
    ensures SumOf(sets + [keys]) == SumOf(sets) + |keys|
  {
    assert (sets + [keys])[..|sets|] == sets;
  }

  lemma {:induction false} PairsAreSummed(sets: seq<set<string>>)
    ensures |Pairs(sets)| == SumOf(sets)
    decreases |sets|
  {
    if sets == [] {
      assert Pairs(sets) == {};
    } else {
      var front := sets[..|sets| - 1];
      PairsAreSummed(front);
      PairsGrow(front, sets[|sets| - 1]);
      assert sets == front + [sets[|sets| - 1]];
    }
  }

  lemma {:induction false} TallyIsSummed(t: Trace, n: nat, alarm: bool, selected: Frame -> set<string>)
    requires n <= |t.frames| == |t.answers|
    ensures TallyOf(t, n, alarm, selected).observations == SumOf(LookedAt(t, n, selected))
    ensures TallyOf(t, n, alarm, selected).wrong == SumOf(FoundWrong(t, n, alarm, selected))
  {
    if n > 0 {
      TallyIsSummed(t, n - 1, alarm, selected);
      LookedAtGrows(t, n - 1, selected);
      FoundWrongGrows(t, n - 1, alarm, selected);
      SumGrows(LookedAt(t, n - 1, selected), selected(t.frames[n - 1]));
      SumGrows(FoundWrong(t, n - 1, alarm, selected), WrongAt(t, n - 1, alarm, selected));
    }
  }

  /** A criterion counts every operand it looks at, in every scan, and every one that is wrong there. */
  lemma {:induction false} TallyCounts(t: Trace, n: nat, alarm: bool, selected: Frame -> set<string>)
    requires n <= |t.frames| == |t.answers|
    ensures TallyOf(t, n, alarm, selected).observations == |Pairs(LookedAt(t, n, selected))|
    ensures TallyOf(t, n, alarm, selected).wrong == |Pairs(FoundWrong(t, n, alarm, selected))|
  {
    TallyIsSummed(t, n, alarm, selected);
    PairsAreSummed(LookedAt(t, n, selected));
    PairsAreSummed(FoundWrong(t, n, alarm, selected));
  }

  lemma LookedAtGrows(t: Trace, n: nat, selected: Frame -> set<string>)
    requires n < |t.frames|
    ensures LookedAt(t, n + 1, selected) == LookedAt(t, n, selected) + [selected(t.frames[n])]
  {
  }

  lemma FoundWrongGrows(t: Trace, n: nat, alarm: bool, selected: Frame -> set<string>)
    requires n < |t.frames| == |t.answers|
    ensures FoundWrong(t, n + 1, alarm, selected)
         == FoundWrong(t, n, alarm, selected) + [WrongAt(t, n, alarm, selected)]
  {
  }
}
