/**
The verdict of the direct-generation evaluator on one trace. It forgives one late scan at a change of
the traffic expectation, and must tell a wrong program from one whose effects it does not know: an
unknown write scope is meant never to count as a fault of the program.
*/
module DirectVerdict {

  import opened Basics
  import opened Tolerance

  datatype Reason = WriteScope | NoOffsetPolicy | UnknownObservation | ScanRaised | Named(text: string)

  /** `gaps`: the reasons the scanner has reported so far, in order. */
  datatype Scan = ScanFailed | Scanned(after: Answer, gaps: seq<Reason>)

  // ---------- one scan ----------

  predicate Truth(v: int) { v != 0 }

  predicate Differs(f: Frame, a: Answer, k: string)
    requires a.After? && k in f.expected
  {
    Actual(f, a)[k].Some? && Truth(Actual(f, a)[k].value) != Truth(f.expected[k])
  }

  function Differences(f: Frame, a: Answer): set<string>
    requires a.After?
  {
    set k | k in f.expected && Differs(f, a, k)
  }

  predicate Usable(scans: seq<Scan>) {
    forall i :: 0 <= i < |scans| && scans[i].Scanned? ==> scans[i].after.After?
  }

  /** The traffic expectation just changed and the outputs are still the previous ones. */
  predicate LateTraffic(frames: seq<Frame>, scans: seq<Scan>, i: nat, traffic: bool)
    requires i < |frames| == |scans| && scans[i].Scanned? && scans[i].after.After?
  {
    traffic && i > 0 && frames[i].expected != frames[i - 1].expected
    && Same(Actual(frames[i], scans[i].after), frames[i - 1].expected)
  }

  predicate WrongScan(frames: seq<Frame>, scans: seq<Scan>, i: nat, traffic: bool)
    requires i < |frames| == |scans|
  {
    && scans[i].Scanned? && scans[i].after.After?
    && Differences(frames[i], scans[i].after) != {} && !LateTraffic(frames, scans, i, traffic)
  }

  predicate AnyWrongScan(frames: seq<Frame>, scans: seq<Scan>, n: nat, traffic: bool)
    requires n <= |frames| == |scans|
  {
    exists i :: 0 <= i < n && WrongScan(frames, scans, i, traffic)
  }

  /** Nothing unknown is left by the scan, nor was by any before it. */
  predicate Silent(f: Frame, s: Scan) { s.Scanned? && s.gaps == [] && AllKnown(f, s.after) }

  /** What one more scan adds to the list of reasons: the gaps beyond the list's own length, or a placeholder. */
  function Noted(unknown: seq<Reason>, f: Frame, s: Scan): seq<Reason> {
    if s.ScanFailed? then unknown + [ScanRaised]
    else if Silent(f, s) then unknown
    else if |s.gaps| > |unknown| then unknown + s.gaps[|unknown|..]
    else unknown + [UnknownObservation]
  }

  function Recorded(frames: seq<Frame>, scans: seq<Scan>, n: nat): seq<Reason>
    requires n <= |frames| == |scans|
  {
    if n == 0 then [] else Noted(Recorded(frames, scans, n - 1), frames[n - 1], scans[n - 1])
  }

  predicate UnknownScope(reasons: seq<Reason>) { WriteScope in reasons || NoOffsetPolicy in reasons }

  /** How far the evaluator gets: to the end, or past the first scan that raises. */
  predicate Reaches(scans: seq<Scan>, n: nat) {
    && n <= |scans| && (forall i :: 0 <= i < n - 1 ==> scans[i].Scanned?)
    && (n < |scans| ==> n > 0 && scans[n - 1].ScanFailed?)
  }

  function FailureOf(frames: seq<Frame>, scans: seq<Scan>, i: nat): Failure
    requires i < |frames| == |scans|
  {
    Failure(frames[i].time,
            if scans[i].Scanned? && scans[i].after.After? then Differences(frames[i], scans[i].after) else {})
  }

  /** The wrong scans, marked and in order. */
  function WrongScanMarks(frames: seq<Frame>, scans: seq<Scan>, n: nat, traffic: bool): seq<bool>
    requires n <= |frames| == |scans|
  {
    seq(n, i requires 0 <= i < n => WrongScan(frames, scans, i, traffic))
  }

  function WrongPlaces(frames: seq<Frame>, scans: seq<Scan>, n: nat, traffic: bool): (places: seq<nat>)
    requires n <= |frames| == |scans|
    ensures forall j :: 0 <= j < |places| ==> places[j] < n
  {
    PlacesOf(WrongScanMarks(frames, scans, n, traffic))
  }

  lemma WrongPlacesAre(frames: seq<Frame>, scans: seq<Scan>, n: nat, traffic: bool)
    requires n <= |frames| == |scans|
    ensures var places := WrongPlaces(frames, scans, n, traffic);
            && (forall j, k :: 0 <= j < k < |places| ==> places[j] < places[k])
            && forall i: nat :: i in places <==> i < n && WrongScan(frames, scans, i, traffic)
  {
    PlacesAre(WrongScanMarks(frames, scans, n, traffic));
  }

  lemma WrongPlacesGrow(frames: seq<Frame>, scans: seq<Scan>, n: nat, traffic: bool)
    requires n < |frames| == |scans|
    ensures WrongPlaces(frames, scans, n + 1, traffic)
         == WrongPlaces(frames, scans, n, traffic) + if WrongScan(frames, scans, n, traffic) then [n] else []
  {
    var marks, more := WrongScanMarks(frames, scans, n, traffic), WrongScan(frames, scans, n, traffic);
    assert WrongScanMarks(frames, scans, n + 1, traffic) == marks + [more];
    PlacesGrow(marks, more);
  }

  function FailuresAt(frames: seq<Frame>, scans: seq<Scan>, places: seq<nat>): seq<Failure>
    requires |frames| == |scans| && forall j :: 0 <= j < |places| ==> places[j] < |frames|
  {
    seq(|places|, j requires 0 <= j < |places| => FailureOf(frames, scans, places[j]))
  }

  /** What is kept are the first wrong scans, in order, each with its differences. */
  ghost predicate KeptScans(failures: seq<Failure>, frames: seq<Frame>, scans: seq<Scan>, n: nat, traffic: bool)
    requires n <= |frames| == |scans|
  {
    failures == FailuresAt(frames, scans, First(WrongPlaces(frames, scans, n, traffic), MAX_FAILURES))
  }

  lemma KeptNextScan(failures: seq<Failure>, frames: seq<Frame>, scans: seq<Scan>, n: nat, traffic: bool)
    requires n < |frames| == |scans| && KeptScans(failures, frames, scans, n, traffic)
    ensures |failures| <= MAX_FAILURES
    ensures !WrongScan(frames, scans, n, traffic) || |failures| == MAX_FAILURES ==>
        KeptScans(failures, frames, scans, n + 1, traffic)
    ensures WrongScan(frames, scans, n, traffic) && |failures| < MAX_FAILURES ==>
              KeptScans(failures + [FailureOf(frames, scans, n)], frames, scans, n + 1, traffic)
  {
    var places := WrongPlaces(frames, scans, n, traffic);
    WrongPlacesGrow(frames, scans, n, traffic);
    if WrongScan(frames, scans, n, traffic) {
      FirstGrows(places, n, MAX_FAILURES);
      if |places| < MAX_FAILURES {
        assert FailuresAt(frames, scans, places + [n])
            == FailuresAt(frames, scans, places) + [FailureOf(frames, scans, n)];
      }
    }
  }

  method CompareScan(frames: seq<Frame>, scans: seq<Scan>, i: nat, prior: Option<Frame>, traffic: bool)
    returns (mismatches: set<string>, tolerated: bool)
    requires i < |frames| == |scans| && scans[i].Scanned? && scans[i].after.After? && Before(frames, i, prior)
    ensures mismatches != {} <==> WrongScan(frames, scans, i, traffic)
    ensures mismatches != {} ==> mismatches == Differences(frames[i], scans[i].after)
    ensures tolerated <==> LateTraffic(frames, scans, i, traffic)
  {
    var f, a := frames[i], scans[i].after;
    mismatches := Differences(f, a);
    var near := traffic && prior.Some? && f.expected != prior.value.expected;
    tolerated := near && Same(Actual(f, a), prior.value.expected);
    if tolerated {
      mismatches := {};
    }
  }

  method Note(unknown: seq<Reason>, f: Frame, s: Scan) returns (r: seq<Reason>)
    requires s.Scanned?
    ensures r == Noted(unknown, f, s)
  {
    r := unknown;
    if !AllKnown(f, s.after) || s.gaps != [] {
      var added := if |unknown| <= |s.gaps| then s.gaps[|unknown|..] else [];
      if added == [] {
        added := [UnknownObservation];
      }
      r := unknown + added;
    }
  }

  function AtMost(count: nat, most: nat): nat { if count < most then count else most }

  /**
  The verdict. A pass is unconditional: no unsupported control, no reason of any kind, no wrong scan. A
  fault is reported when a scan is wrong and no unknown scope is on the list of reasons; then the
  failures kept are at most twelve, and otherwise they are moved aside.
  */
  method EvaluateTrace(frames: seq<Frame>, scans: seq<Scan>, traffic: bool, controlUnknown: bool)
    returns (status: Status, failures: seq<Failure>, unchecked: seq<Failure>, ghost n: nat)
    requires |frames| == |scans| && Usable(scans)
    ensures Reaches(scans, n)
    ensures status.Pass? <==>
        !controlUnknown && Recorded(frames, scans, n) == []
        && !AnyWrongScan(frames, scans, n, traffic)
    ensures status.Fail? <==>
        !controlUnknown && !UnknownScope(Recorded(frames, scans, n))
        && AnyWrongScan(frames, scans, n, traffic)
    ensures status.Fail? <==> failures != []
    ensures !controlUnknown ==> KeptScans(failures + unchecked, frames, scans, n, traffic)
    ensures !controlUnknown ==> |failures| + |unchecked| == AtMost(|WrongPlaces(frames, scans, n, traffic)|, 12)
    ensures failures == [] || unchecked == []
  {
    failures, unchecked := [], [];
    var unknown: seq<Reason> := [];
    var prior: Option<Frame> := None;
    var i := 0;
    while i < |frames|
      invariant 0 <= i <= |frames| && Before(frames, i, prior)
      invariant forall k :: 0 <= k < i ==> scans[k].Scanned?
      invariant unknown == Recorded(frames, scans, i)
      invariant controlUnknown ==> failures == []
      invariant !controlUnknown ==> KeptScans(failures, frames, scans, i, traffic)
    {
      if !controlUnknown {
        KeptNextScan(failures, frames, scans, i, traffic);
      }
      if scans[i].ScanFailed? {
        unknown := unknown + [ScanRaised];
        i := i + 1;
        break;
      }
      var mismatches, tolerated := CompareScan(frames, scans, i, prior, traffic);
      unknown := Note(unknown, frames[i], scans[i]);
      if mismatches != {} && !controlUnknown && |failures| < MAX_FAILURES {
        failures := failures + [Failure(frames[i].time, mismatches)];
      }
      prior := Some(frames[i]);
      i := i + 1;
    }
    n := i;
    if !controlUnknown {
      KeptIsAny(failures, frames, scans, n, traffic);
    }
    var unknownScope := UnknownScope(unknown);
    assert failures + [] == failures == [] + failures;
    if unknownScope || controlUnknown {
      failures, unchecked := [], failures;
    }
    status := if controlUnknown || unknownScope then Unverified
    else if failures != [] then Fail
    else if unknown != [] then Unverified else Pass;
  }

  lemma KeptIsAny(failures: seq<Failure>, frames: seq<Frame>, scans: seq<Scan>, n: nat, traffic: bool)
    requires n <= |frames| == |scans| && KeptScans(failures, frames, scans, n, traffic)
    ensures failures != [] <==> AnyWrongScan(frames, scans, n, traffic)
  {
    WrongPlacesAre(frames, scans, n, traffic);
    var places := WrongPlaces(frames, scans, n, traffic);
    if failures != [] {
      assert places[0] in places;
    }
  }

  // ---------- what a pass means ----------

  lemma {:induction false} NothingRecorded(frames: seq<Frame>, scans: seq<Scan>, n: nat)
    requires n <= |frames| == |scans|
    ensures Recorded(frames, scans, n) == [] <==> forall i :: 0 <= i < n ==> Silent(frames[i], scans[i])
  {
    if n > 0 {
      NothingRecorded(frames, scans, n - 1);
    }
  }

  /** The scanner's answer has the truth value that is expected, in each operand. */
  predicate AgreesWith(a: Answer, values: Values) {
    a.After? && forall k :: k in values ==>
                              k in a.memory && a.memory[k].Some? && (a.memory[k].value != 0 <==> values[k] != 0)
  }

  /**
  A scan of the traffic case that may be late: not the first, where the expectation has just changed, and the
  answer is what was expected before, value by value.
  */
  predicate MayLagTraffic(frames: seq<Frame>, scans: seq<Scan>, i: nat, traffic: bool)
    requires i < |frames| == |scans| && scans[i].Scanned?
  {
    && traffic && i > 0
    && frames[i].expected != frames[i - 1].expected && frames[i].expected.Keys == frames[i - 1].expected.Keys
    && ShowsAll(scans[i].after, frames[i - 1].expected)
  }

  lemma LagIsLateTraffic(frames: seq<Frame>, scans: seq<Scan>, i: nat, traffic: bool)
    requires i < |frames| == |scans| && scans[i].Scanned? && scans[i].after.After?
    ensures MayLagTraffic(frames, scans, i, traffic) <==> LateTraffic(frames, scans, i, traffic)
  {
    var f, a := frames[i], scans[i].after;
    assert Actual(f, a).Keys == f.expected.Keys;
    if i > 0 && f.expected.Keys == frames[i - 1].expected.Keys {
      forall k | k in f.expected
        ensures Actual(f, a)[k] == if k in a.memory then a.memory[k] else None
      {
        ActualIs(f, a, k);
      }
    }
  }

  /** A wrong scan: some known operand has the other truth value, and the scan may not be late. */
  lemma WrongScanMeans(frames: seq<Frame>, scans: seq<Scan>, i: nat, traffic: bool)
    requires i < |frames| == |scans| && scans[i].Scanned? && scans[i].after.After?
    ensures WrongScan(frames, scans, i, traffic) <==>
              !MayLagTraffic(frames, scans, i, traffic)
              && exists k :: k in frames[i].expected && k in scans[i].after.memory && scans[i].after.memory[k].Some?
                             && !(scans[i].after.memory[k].value != 0 <==> frames[i].expected[k] != 0)
  {
    var f, a := frames[i], scans[i].after;
    LagIsLateTraffic(frames, scans, i, traffic);
    forall k
      ensures k in Differences(f, a) <==>
                k in f.expected && k in a.memory && a.memory[k].Some?
                && !(a.memory[k].value != 0 <==> f.expected[k] != 0)
    {
      if k in f.expected {
        ActualIs(f, a, k);
      }
    }
  }

  /**
  A trace that passes was scanned to its end with nothing unknown, and every scan agrees with its own
  expectation, or, in the traffic case only and only where the expectation has just changed, answers the one
  before.
  */
  lemma {:induction false} PassIsWhole(frames: seq<Frame>, scans: seq<Scan>, n: nat, traffic: bool)
    requires |frames| == |scans| && Reaches(scans, n)
    requires Recorded(frames, scans, n) == [] && !AnyWrongScan(frames, scans, n, traffic)
    ensures n == |frames|
    ensures forall i: nat :: i < n ==>
              && scans[i].Scanned? && scans[i].gaps == [] && KnowsAll(scans[i].after, frames[i].expected)
              && (AgreesWith(scans[i].after, frames[i].expected)
                  || (traffic && i > 0 && frames[i].expected != frames[i - 1].expected
                      && ShowsAll(scans[i].after, frames[i - 1].expected)))
  {
    NothingRecorded(frames, scans, n);
    assert n > 0 ==> Silent(frames[n - 1], scans[n - 1]);
    forall i: nat | i < n
      ensures scans[i].Scanned? && scans[i].gaps == [] && KnowsAll(scans[i].after, frames[i].expected)
      ensures AgreesWith(scans[i].after, frames[i].expected) || MayLagTraffic(frames, scans, i, traffic)
    {
      assert Silent(frames[i], scans[i]) && !WrongScan(frames, scans, i, traffic);
      KnowsIsKnown(frames[i], scans[i].after);
      WrongScanMeans(frames, scans, i, traffic);
    }
  }

  // ---------- whether the list of reasons is the scanner's ----------

  function GapsBefore(scans: seq<Scan>, n: nat): seq<Reason>
    requires n <= |scans|
  {
    if n == 0 || scans[n - 1].ScanFailed? then [] else scans[n - 1].gaps
  }

  /** The scanner only adds to its gaps, and has no placeholder of its own. */
  predicate Grows(scans: seq<Scan>, i: nat)
    requires i < |scans|
  {
    scans[i].Scanned? && GapsBefore(scans, i) <= scans[i].gaps && UnknownObservation !in scans[i].gaps
  }

  predicate Cumulative(scans: seq<Scan>, n: nat)
    requires n <= |scans|
  {
    forall i :: 0 <= i < n ==> Grows(scans, i)
  }

  predicate BringsGap(f: Frame, scans: seq<Scan>, i: nat)
    requires i < |scans| && scans[i].Scanned?
  {
    Silent(f, scans[i]) || |scans[i].gaps| > |GapsBefore(scans, i)|
  }

  /** Every scan that is not silent brings a new gap. */
  predicate Steady(frames: seq<Frame>, scans: seq<Scan>, n: nat)
    requires n <= |frames| == |scans| && Cumulative(scans, n)
  {
    forall i :: 0 <= i < n ==> Grows(scans, i) && BringsGap(frames[i], scans, i)
  }

  lemma {:induction false} PlaceholderStays(frames: seq<Frame>, scans: seq<Scan>, n: nat, m: nat)
    requires n <= m <= |frames| == |scans| && UnknownObservation in Recorded(frames, scans, n)
    ensures UnknownObservation in Recorded(frames, scans, m)
    decreases m
  {
    if n < m {
      PlaceholderStays(frames, scans, n, m - 1);
    }
  }

  /**
  The reasons on the list are the scanner's gaps, none missing and none invented, exactly when every
  scan that is not silent brings a new gap.
  */
  lemma {:induction false} ReasonsAreGaps(frames: seq<Frame>, scans: seq<Scan>, n: nat)
    requires n <= |frames| == |scans| && Cumulative(scans, n)
    ensures Recorded(frames, scans, n) == GapsBefore(scans, n) <==> Steady(frames, scans, n)
    ensures !Steady(frames, scans, n) ==> UnknownObservation in Recorded(frames, scans, n)
  {
    if n > 0 {
      SteadyNext(frames, scans, n - 1);
      ReasonsAreGaps(frames, scans, n - 1);
      GapsOf(scans, n - 1);
      var before, list := GapsBefore(scans, n - 1), Recorded(frames, scans, n - 1);
      assert Recorded(frames, scans, n) == Noted(list, frames[n - 1], scans[n - 1]);
      if Steady(frames, scans, n - 1) {
        OneMoreScan(before, frames[n - 1], scans[n - 1]);
      } else {
        PlaceholderStays(frames, scans, n - 1, n);
      }
    }
  }

  lemma SteadyNext(frames: seq<Frame>, scans: seq<Scan>, n: nat)
    requires n < |frames| == |scans| && Cumulative(scans, n + 1)
    ensures Grows(scans, n) && Cumulative(scans, n)
    ensures Steady(frames, scans, n + 1) <==> Steady(frames, scans, n) && BringsGap(frames[n], scans, n)
  {
  }

  lemma GapsOf(scans: seq<Scan>, n: nat)
    requires n < |scans| && Grows(scans, n)
    ensures GapsBefore(scans, n + 1) == scans[n].gaps && GapsBefore(scans, n) <= scans[n].gaps
    ensures UnknownObservation !in GapsBefore(scans, n + 1)
  {
  }

  lemma OneMoreScan(before: seq<Reason>, f: Frame, s: Scan)
    requires s.Scanned? && before <= s.gaps
    ensures Silent(f, s) || |s.gaps| > |before| ==> Noted(before, f, s) == s.gaps
    ensures !(Silent(f, s) || |s.gaps| > |before|) ==> UnknownObservation in Noted(before, f, s)
  {
    assert s.gaps == before + s.gaps[|before|..];
  }

  predicate ScopeReason(r: Reason) { r == WriteScope || r == NoOffsetPolicy }

  /** Scan `i` reports an unknown scope at a place past the end of the list kept so far. */
  predicate TakesUpScope(frames: seq<Frame>, scans: seq<Scan>, i: nat)
    requires i < |frames| == |scans| && scans[i].Scanned?
  {
    exists k :: |Recorded(frames, scans, i)| <= k < |scans[i].gaps| && ScopeReason(scans[i].gaps[k])
  }

  /**
  The list has the unknown scope exactly when some scan reported it past the list's own end; a report
  at a place the list has already outgrown is never taken up.
  */
  lemma {:induction false} ScopeIsTakenUp(frames: seq<Frame>, scans: seq<Scan>, n: nat)
    requires n <= |frames| == |scans| && forall i :: 0 <= i < n ==> scans[i].Scanned?
    ensures UnknownScope(Recorded(frames, scans, n)) <==> exists i :: 0 <= i < n && TakesUpScope(frames, scans, i)
  {
    if n > 0 {
      ScopeIsTakenUp(frames, scans, n - 1);
      ScopeInNext(Recorded(frames, scans, n - 1), frames[n - 1], scans[n - 1]);
      if UnknownScope(Recorded(frames, scans, n)) && !UnknownScope(Recorded(frames, scans, n - 1)) {
        assert TakesUpScope(frames, scans, n - 1);
      }
    }
  }

  lemma ScopeInNext(unknown: seq<Reason>, f: Frame, s: Scan)
    requires s.Scanned?
    ensures UnknownScope(Noted(unknown, f, s))
            <==> UnknownScope(unknown) || exists k :: |unknown| <= k < |s.gaps| && ScopeReason(s.gaps[k])
  {
    var next := Noted(unknown, f, s);
    if |s.gaps| > |unknown| {
      assert !Silent(f, s);
      forall k | |unknown| <= k < |s.gaps|
        ensures s.gaps[k] in next
      {
        assert next[k] == s.gaps[k];
      }
    }
    forall r | r in unknown
      ensures r in next
    {
    }
  }

  /** Then an unknown write scope the scanner reported is never turned into a fault. */
  lemma {:induction false} ScopeIsNeverAFault(frames: seq<Frame>, scans: seq<Scan>, n: nat)
    requires n <= |frames| == |scans| && Cumulative(scans, n) && Steady(frames, scans, n)
    ensures UnknownScope(Recorded(frames, scans, n)) <==> UnknownScope(GapsBefore(scans, n))
  {
    ReasonsAreGaps(frames, scans, n);
  }

  /**
  Without it one can be: a gap in the first scan, nothing new in the second, the unknown scope in the
  third. The list has grown past the scanner's by a placeholder and never takes the scope up, so the
  wrong third scan counts as a fault.
  */
  lemma MissedScope() returns (frames: seq<Frame>, scans: seq<Scan>)
    ensures |frames| == |scans| == 3 && Cumulative(scans, 3) && Reaches(scans, 3) && UnknownScope(GapsBefore(scans, 3))
    ensures !UnknownScope(Recorded(frames, scans, 3)) && AnyWrongScan(frames, scans, 3, false)
  {
    var f := Frame(0, false, map[], map["Y0" := 1]);
    var a := After(map["Y0" := Some(1)]);
    var first := Named("unsupported");
    frames := [f, f, f];
    scans := [Scanned(a, [first]), Scanned(a, [first]), Scanned(After(map["Y0" := Some(0)]), [first, WriteScope])];
    assert Recorded(frames, scans, 1) == [first];
    assert Recorded(frames, scans, 2) == [first, UnknownObservation];
    assert Recorded(frames, scans, 3) == [first, UnknownObservation, UnknownObservation];
    assert Differs(frames[2], scans[2].after, "Y0");
    assert "Y0" in Differences(frames[2], scans[2].after);
    assert WrongScan(frames, scans, 2, false);
  }
}
