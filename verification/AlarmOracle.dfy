/**
The frozen expectations of the multi-zone alarm case: a loop that carries the arming state, the
zone memories and the time of the alarm from sample to sample, against a definition that only
looks at the history of the inputs.
*/
module AlarmOracle {

  import opened Basics

  const ZONE_COUNT := 3

  type Zones = z: seq<bool> | |z| == ZONE_COUNT witness [false, false, false]

  /** One scan: the time in milliseconds, the arming switch, and which zones are normal. */
  datatype Sample = Sample(t: int, arm: bool, normal: Zones)

  /** The expected outputs of a scan: armed, siren, alarm, and one memory per zone. */
  datatype Expected = Expected(y0: bool, y1: bool, y2: bool, memory: Zones)

  const EXIT_DELAY := 20000
  const ENTRY_DELAY := 10000
  const SIREN_END := 40000

  predicate Increasing(run: seq<Sample>) {
    forall i, j :: 0 <= i < j < |run| ==> run[i].t < run[j].t
  }

  // ---------- the history ----------

  /** The first sample of the unbroken stretch with the switch on that sample `i` belongs to. */
  function Start(run: seq<Sample>, i: nat): (k: nat)
    requires i < |run| && run[i].arm
    ensures k <= i && (k > 0 ==> !run[k - 1].arm) && forall j :: k <= j <= i ==> run[j].arm
  {
    if i > 0 && run[i - 1].arm then Start(run, i - 1) else i
  }

  predicate Armed(run: seq<Sample>, i: nat)
    requires i < |run|
  {
    run[i].arm && run[i].t - run[Start(run, i)].t >= EXIT_DELAY
  }

  /** Sample `j`, in the stretch of `i`, finds the system armed and zone `z` abnormal. */
  predicate Trips(run: seq<Sample>, i: nat, j: int, z: nat)
    requires i < |run| && z < ZONE_COUNT
  {
    run[i].arm && Start(run, i) <= j <= i && Armed(run, j) && !run[j].normal[z]
  }

  predicate Remembered(run: seq<Sample>, i: nat, z: nat)
    requires i < |run| && z < ZONE_COUNT
  {
    exists j :: 0 <= j <= i && Trips(run, i, j, z)
  }

  predicate TripsAny(run: seq<Sample>, i: nat, j: int)
    requires i < |run|
  {
    Trips(run, i, j, 0) || Trips(run, i, j, 1) || Trips(run, i, j, 2)
  }

  /** `k` is the sample at which the alarm of `i`'s stretch began: the earliest that trips any zone. */
  predicate AlarmFrom(run: seq<Sample>, i: nat, k: int)
    requires i < |run|
  {
    0 <= k <= i && TripsAny(run, i, k) && forall j :: 0 <= j < k ==> !TripsAny(run, i, j)
  }

  predicate AgeWithin(run: seq<Sample>, i: nat, from: int, to: Option<int>)
    requires i < |run|
  {
    exists k :: 0 <= k <= i && AlarmFrom(run, i, k) && from <= run[i].t - run[k].t
      && (to.Some? ==> run[i].t - run[k].t < to.value)
  }

  ghost predicate IsExpected(run: seq<Sample>, i: nat, e: Expected)
    requires i < |run|
  {
    && (e.y0 <==> Armed(run, i))
    && (e.y1 <==> AgeWithin(run, i, ENTRY_DELAY, Some(SIREN_END)))
    && (e.y2 <==> AgeWithin(run, i, ENTRY_DELAY, None))
    && forall z: nat :: z < ZONE_COUNT ==> (e.memory[z] <==> Remembered(run, i, z))
  }

  // ---------- the history, told by times ----------

  /** The switch is on from sample `j` to sample `i`. */
  predicate OnThrough(run: seq<Sample>, j: int, i: nat) {
    0 <= j <= i < |run| && forall m :: j <= m <= i ==> run[m].arm
  }

  /** The switch came on 20 seconds before sample `i` or earlier and has stayed on. */
  predicate LongOn(run: seq<Sample>, i: nat) { exists j :: 0 <= j <= i && OnSince(run, i, j, 20000) }

  predicate OnSince(run: seq<Sample>, i: nat, j: int, age: int) {
    OnThrough(run, j, i) && run[i].t - run[j].t >= age
  }

  /** Since sample `j` the switch has stayed on, and by then it had been on for long and zone `z` was abnormal. */
  predicate SeenAt(run: seq<Sample>, i: nat, j: nat, z: nat) {
    OnThrough(run, j, i) && LongOn(run, j) && z < 3 && !run[j].normal[z]
  }

  predicate SeenAtAll(run: seq<Sample>, i: nat, j: nat) {
    SeenAt(run, i, j, 0) || SeenAt(run, i, j, 1) || SeenAt(run, i, j, 2)
  }

  /** Sample `k` is the earliest of these, for any zone. */
  predicate SeenFirst(run: seq<Sample>, i: nat, k: nat) {
    SeenAtAll(run, i, k) && forall j: nat :: j < k ==> !SeenAtAll(run, i, j)
  }

  /** The outputs a history asks for, in the times of the case: 20, 10 and 40 seconds. */
  ghost predicate Wanted(run: seq<Sample>, i: nat, e: Expected)
    requires i < |run|
  {
    && (e.y0 <==> LongOn(run, i))
    && (forall z: nat :: z < 3 ==> (e.memory[z] <==> exists j: nat :: j <= i && SeenAt(run, i, j, z)))
    && (e.y1 <==> exists k: nat :: k <= i && SeenFirst(run, i, k) && 10000 <= run[i].t - run[k].t < 40000)
    && (e.y2 <==> exists k: nat :: k <= i && SeenFirst(run, i, k) && 10000 <= run[i].t - run[k].t)
  }

  /** A stretch reaches back to its start and no further. */
  lemma {:induction false} OnSinceStart(run: seq<Sample>, i: nat, j: nat)
    requires i < |run|
    ensures OnThrough(run, j, i) <==> run[i].arm && Start(run, i) <= j <= i
  {
    if OnThrough(run, j, i) {
      assert run[i].arm;
    }
  }

  lemma {:induction false} LongOnIsArmed(run: seq<Sample>, i: nat)
    requires Increasing(run) && i < |run|
    ensures LongOn(run, i) <==> Armed(run, i)
  {
    if j :| 0 <= j <= i && OnSince(run, i, j, 20000) {
      OnSinceStart(run, i, j);
      assert Start(run, i) < j ==> run[Start(run, i)].t < run[j].t;
    }
    if Armed(run, i) {
      OnSinceStart(run, i, Start(run, i));
      assert OnSince(run, i, Start(run, i), 20000);
    }
  }

  lemma {:induction false} SeenIsTripped(run: seq<Sample>, i: nat, j: nat, z: nat)
    requires Increasing(run) && i < |run| && z < ZONE_COUNT
    ensures SeenAt(run, i, j, z) <==> Trips(run, i, j, z)
  {
    OnSinceStart(run, i, j);
    if j <= i {
      LongOnIsArmed(run, j);
    }
  }

  lemma {:induction false} SeenFirstIsAlarm(run: seq<Sample>, i: nat, k: nat)
    requires Increasing(run) && i < |run|
    ensures SeenFirst(run, i, k) <==> AlarmFrom(run, i, k)
  {
    forall j: nat, z: nat | z < ZONE_COUNT
      ensures SeenAt(run, i, j, z) <==> Trips(run, i, j, z)
    {
      SeenIsTripped(run, i, j, z);
    }
    assert forall j: nat :: SeenAtAll(run, i, j) <==> TripsAny(run, i, j);
  }

  /** The history's own terms come to the same. */
  lemma {:induction false} ExpectedPlainly(run: seq<Sample>, i: nat, e: Expected)
    requires Increasing(run) && i < |run|
    ensures IsExpected(run, i, e) <==> Wanted(run, i, e)
  {
    LongOnIsArmed(run, i);
    forall z: nat | z < ZONE_COUNT
      ensures Remembered(run, i, z) <==> exists j: nat :: j <= i && SeenAt(run, i, j, z)
    {
      SeenIsRemembered(run, i, z);
    }
    AgesPlainly(run, i);
  }

  lemma {:induction false} SeenIsRemembered(run: seq<Sample>, i: nat, z: nat)
    requires Increasing(run) && i < |run| && z < ZONE_COUNT
    ensures Remembered(run, i, z) <==> exists j: nat :: j <= i && SeenAt(run, i, j, z)
  {
    if j :| 0 <= j <= i && Trips(run, i, j, z) {
      SeenIsTripped(run, i, j, z);
    }
    if j: nat :| j <= i && SeenAt(run, i, j, z) {
      SeenIsTripped(run, i, j, z);
    }
  }

  lemma {:induction false} AgesPlainly(run: seq<Sample>, i: nat)
    requires Increasing(run) && i < |run|
    ensures AgeWithin(run, i, ENTRY_DELAY, Some(SIREN_END))
            <==> exists k: nat :: k <= i && SeenFirst(run, i, k) && 10000 <= run[i].t - run[k].t < 40000
    ensures AgeWithin(run, i, ENTRY_DELAY, None)
            <==> exists k: nat :: k <= i && SeenFirst(run, i, k) && 10000 <= run[i].t - run[k].t
  {
    forall k: nat | k <= i
      ensures SeenFirst(run, i, k) <==> AlarmFrom(run, i, k)
    {
      SeenFirstIsAlarm(run, i, k);
    }
  }

  // ---------- one stretch at a time ----------

  lemma {:induction false} SameStart(run: seq<Sample>, i: nat, j: nat)
    requires i < |run| && run[i].arm && Start(run, i) <= j <= i
    ensures run[j].arm && Start(run, j) == Start(run, i)
    decreases i
  {
    if j < i {
      SameStart(run, i - 1, j);
    }
  }

  lemma {:induction false} ArmedStays(run: seq<Sample>, i: nat, j: nat)
    requires Increasing(run) && i < |run| && run[i].arm && Start(run, i) <= j <= i && Armed(run, j)
    ensures Armed(run, i)
  {
    SameStart(run, i, j);
    assert j < i ==> run[j].t < run[i].t;
  }

  /** What trips in a stretch trips for every later sample of it, and nothing else does. */
  lemma {:induction false} TripsAgain(run: seq<Sample>, i: nat, later: nat)
    requires later < |run| && run[later].arm && Start(run, later) <= i <= later
    ensures forall j, z: nat :: j <= i && z < ZONE_COUNT ==> (Trips(run, later, j, z) <==> Trips(run, i, j, z))
    ensures forall j :: j <= i ==> (TripsAny(run, later, j) <==> TripsAny(run, i, j))
  {
    SameStart(run, later, i);
  }

  lemma AlarmIsOne(run: seq<Sample>, i: nat, a: int, b: int)
    requires i < |run| && AlarmFrom(run, i, a) && AlarmFrom(run, i, b)
    ensures a == b
  {
  }

  /** Every siren is an alarm, every alarm has a memory behind it, and only an armed system has one. */
  lemma Hierarchy(run: seq<Sample>, i: nat, e: Expected)
    requires Increasing(run) && i < |run| && IsExpected(run, i, e)
    ensures e.y1 ==> e.y2
    ensures e.y2 ==> e.memory[0] || e.memory[1] || e.memory[2]
    ensures e.memory[0] || e.memory[1] || e.memory[2] ==> e.y0
    ensures !run[i].arm ==> e == Expected(false, false, false, [false, false, false])
  {
    if e.y2 {
      var k :| 0 <= k <= i && AlarmFrom(run, i, k);
      assert Trips(run, i, k, 0) || Trips(run, i, k, 1) || Trips(run, i, k, 2);
    }
    if z: nat :| z < ZONE_COUNT && e.memory[z] {
      var j :| 0 <= j <= i && Trips(run, i, j, z);
      ArmedStays(run, i, j);
    }
    if !run[i].arm {
      assert e.memory == [e.memory[0], e.memory[1], e.memory[2]];
    }
  }

  /** Within a stretch a memory stays, and so does the alarm, counted from the same sample. */
  lemma {:induction false} StaysWithinStretch(run: seq<Sample>, i: nat, later: nat, e: Expected, f: Expected)
    requires Increasing(run) && later < |run| && run[later].arm && Start(run, later) <= i <= later
    requires IsExpected(run, i, e) && IsExpected(run, later, f)
    ensures forall z: nat :: z < ZONE_COUNT && e.memory[z] ==> f.memory[z]
    ensures e.y0 ==> f.y0
    ensures e.y2 ==> f.y2
  {
    TripsAgain(run, i, later);
    forall z: nat | z < ZONE_COUNT && e.memory[z]
      ensures f.memory[z]
    {
      var j :| 0 <= j <= i && Trips(run, i, j, z);
      assert Trips(run, later, j, z);
    }
    if e.y0 {
      ArmedStays(run, later, i);
    }
    if e.y2 {
      var k :| 0 <= k <= i && AlarmFrom(run, i, k) && ENTRY_DELAY <= run[i].t - run[k].t;
      assert AlarmFrom(run, later, k);
      assert i < later ==> run[i].t < run[later].t;
    }
  }

  /** The siren sounds in exactly the window of ages from 10000 up to 40000, whichever sample asks. */
  lemma SirenWindow(run: seq<Sample>, i: nat, k: int, e: Expected)
    requires i < |run| && AlarmFrom(run, i, k) && IsExpected(run, i, e)
    ensures e.y1 <==> ENTRY_DELAY <= run[i].t - run[k].t < SIREN_END
    ensures e.y2 <==> ENTRY_DELAY <= run[i].t - run[k].t
  {
    forall j | 0 <= j <= i && AlarmFrom(run, i, j)
      ensures j == k
    {
      AlarmIsOne(run, i, j, k);
    }
  }

  // ---------- the loop ----------

  /** What the loop carries from one sample to the next. */
  datatype Carried = Carried(armed: bool, memory: Zones, armingAt: Option<int>, alarmAt: Option<int>)

  const CLEARED := Carried(false, [false, false, false], None, None)

  /** The carried state says of the last sample what the history says of it. */
  ghost predicate Carries(run: seq<Sample>, n: nat, c: Carried)
    requires n <= |run|
  {
    if n == 0 || !run[n - 1].arm then c == CLEARED
    else
      && c.armingAt == Some(run[Start(run, n - 1)].t) && (c.armed <==> Armed(run, n - 1))
      && (forall z: nat :: z < ZONE_COUNT ==> (c.memory[z] <==> Remembered(run, n - 1, z)))
      && AlarmTimeIs(run, n - 1, c.alarmAt)
  }

  ghost predicate AlarmTimeIs(run: seq<Sample>, i: nat, at: Option<int>)
    requires i < |run|
  {
    match at
    case None => forall j :: 0 <= j <= i ==> !TripsAny(run, i, j)
    case Some(t) => exists k :: 0 <= k <= i && AlarmFrom(run, i, k) && run[k].t == t
  }

  function Latched(c: Carried, s: Sample): Carried {
    var armingAt := if c.armingAt.None? then Some(s.t) else c.armingAt;
    var armed := c.armed || s.t - armingAt.value >= EXIT_DELAY;
    var memory := if armed
      then [c.memory[0] || !s.normal[0], c.memory[1] || !s.normal[1], c.memory[2] || !s.normal[2]] else c.memory;
    var alarmAt := if armed && c.alarmAt.None? && (memory[0] || memory[1] || memory[2]) then Some(s.t) else c.alarmAt;
    Carried(armed, memory, armingAt, alarmAt)
  }

  lemma {:induction false} ArmingNext(run: seq<Sample>, n: nat, c: Carried)
    requires Increasing(run) && n < |run| && run[n].arm && Carries(run, n, c)
    ensures Latched(c, run[n]).armingAt == Some(run[Start(run, n)].t)
    ensures Latched(c, run[n]).armed <==> Armed(run, n)
  {
    if n > 0 && run[n - 1].arm {
      assert run[n - 1].t < run[n].t;
    }
  }

  /** A zone is remembered when it was at the sample before, in the same stretch, or trips now. */
  lemma RememberedNext(run: seq<Sample>, n: nat, z: nat)
    requires Increasing(run) && n < |run| && run[n].arm && z < ZONE_COUNT
    ensures Remembered(run, n, z)
            <==> (n > 0 && run[n - 1].arm && Remembered(run, n - 1, z)) || (Armed(run, n) && !run[n].normal[z])
  {
    if n > 0 && run[n - 1].arm {
      TripsAgain(run, n - 1, n);
      if Remembered(run, n - 1, z) {
        var j :| 0 <= j <= n - 1 && Trips(run, n - 1, j, z);
        assert Trips(run, n, j, z);
      }
    }
    if Remembered(run, n, z) {
      var j :| 0 <= j <= n && Trips(run, n, j, z);
      assert j < n ==> Trips(run, n - 1, j, z);
    }
    if Armed(run, n) && !run[n].normal[z] {
      assert Trips(run, n, n, z);
    }
  }

  lemma RememberedIsArmed(run: seq<Sample>, n: nat, z: nat)
    requires Increasing(run) && n < |run| && z < ZONE_COUNT && Remembered(run, n, z)
    ensures Armed(run, n)
  {
    var j :| 0 <= j <= n && Trips(run, n, j, z);
    ArmedStays(run, n, j);
  }

  lemma MemoryNext(run: seq<Sample>, n: nat, c: Carried, z: nat)
    requires Increasing(run) && n < |run| && run[n].arm && Carries(run, n, c) && z < ZONE_COUNT
    ensures Latched(c, run[n]).memory[z] <==> Remembered(run, n, z)
  {
    ArmingNext(run, n, c);
    RememberedNext(run, n, z);
    if Remembered(run, n, z) {
      RememberedIsArmed(run, n, z);
    }
  }

  /** The alarm of a stretch stays the one it was. */
  lemma AlarmStays(run: seq<Sample>, n: nat, at: Option<int>)
    requires 0 < n < |run| && run[n].arm && run[n - 1].arm && AlarmTimeIs(run, n - 1, at)
    ensures at.Some? ==> AlarmTimeIs(run, n, at)
    ensures at.None? ==> forall j :: 0 <= j < n ==> !TripsAny(run, n, j)
  {
    TripsAgain(run, n - 1, n);
    if at.Some? {
      var k :| 0 <= k <= n - 1 && AlarmFrom(run, n - 1, k) && run[k].t == at.value;
      assert AlarmFrom(run, n, k);
    }
  }

  lemma FirstOfStretch(run: seq<Sample>, n: nat)
    requires n < |run| && run[n].arm && (n == 0 || !run[n - 1].arm)
    ensures forall j :: 0 <= j < n ==> !TripsAny(run, n, j)
  {
  }

  lemma AlarmNow(run: seq<Sample>, n: nat)
    requires n < |run| && run[n].arm && forall j :: 0 <= j < n ==> !TripsAny(run, n, j)
    ensures AlarmTimeIs(run, n, if TripsAny(run, n, n) then Some(run[n].t) else None)
  {
    if TripsAny(run, n, n) {
      assert AlarmFrom(run, n, n);
    }
  }

  lemma AlarmNext(run: seq<Sample>, n: nat, c: Carried)
    requires Increasing(run) && n < |run| && run[n].arm && Carries(run, n, c)
    ensures AlarmTimeIs(run, n, Latched(c, run[n]).alarmAt)
  {
    if n > 0 && run[n - 1].arm {
      AlarmStays(run, n, c.alarmAt);
    } else {
      FirstOfStretch(run, n);
    }
    if c.alarmAt.None? {
      ArmingNext(run, n, c);
      MemoryNext(run, n, c, 0);
      MemoryNext(run, n, c, 1);
      MemoryNext(run, n, c, 2);
      NowOrNever(run, n);
      AlarmNow(run, n);
    }
  }

  /** If nothing tripped before sample `n` in its stretch, what is remembered tripped at `n`. */
  lemma NowOrNever(run: seq<Sample>, n: nat)
    requires n < |run| && run[n].arm && forall j :: 0 <= j < n ==> !TripsAny(run, n, j)
    ensures TripsAny(run, n, n) <==> Remembered(run, n, 0) || Remembered(run, n, 1) || Remembered(run, n, 2)
    ensures TripsAny(run, n, n) ==> Armed(run, n)
  {
    if z: nat :| z < ZONE_COUNT && Remembered(run, n, z) {
      var j :| 0 <= j <= n && Trips(run, n, j, z);
      assert TripsAny(run, n, j);
    }
  }

  lemma CarriesNext(run: seq<Sample>, n: nat, c: Carried)
    requires Increasing(run) && n < |run| && Carries(run, n, c)
    ensures Carries(run, n + 1, if run[n].arm then Latched(c, run[n]) else CLEARED)
  {
    if run[n].arm {
      ArmingNext(run, n, c);
      forall z: nat | z < ZONE_COUNT
        ensures Latched(c, run[n]).memory[z] <==> Remembered(run, n, z)
      {
        MemoryNext(run, n, c, z);
      }
      AlarmNext(run, n, c);
    }
  }

  /** The outputs computed from the alarm's age are the ones the history asks for. */
  lemma AgeIsHistory(run: seq<Sample>, i: nat, at: Option<int>)
    requires i < |run| && AlarmTimeIs(run, i, at)
    ensures var age := if at.Some? then run[i].t - at.value else -1;
            (ENTRY_DELAY <= age < SIREN_END <==> AgeWithin(run, i, ENTRY_DELAY, Some(SIREN_END)))
            && (age >= ENTRY_DELAY <==> AgeWithin(run, i, ENTRY_DELAY, None))
  {
    if at.Some? {
      var k :| 0 <= k <= i && AlarmFrom(run, i, k) && run[k].t == at.value;
      forall j | 0 <= j <= i && AlarmFrom(run, i, j)
        ensures j == k
      {
        AlarmIsOne(run, i, j, k);
      }
    }
  }

  function Outputs(c: Carried, t: int): Expected {
    var age := if c.alarmAt.Some? then t - c.alarmAt.value else -1;
    Expected(c.armed, ENTRY_DELAY <= age < SIREN_END, age >= ENTRY_DELAY, c.memory)
  }

  lemma OutputsAreExpected(run: seq<Sample>, i: nat, c: Carried)
    requires i < |run| && Carries(run, i + 1, c)
    ensures IsExpected(run, i, Outputs(c, run[i].t))
  {
    assert AlarmTimeIs(run, i, c.alarmAt);
    AgeIsHistory(run, i, c.alarmAt);
  }

  /** One scan of the loop. */
  method Scan(s: Sample, before: Carried) returns (after: Carried, e: Expected)
    ensures after == (if s.arm then Latched(before, s) else CLEARED) && e == Outputs(after, s.t)
  {
    var armed, memory, armingAt, alarmAt := before.armed, before.memory, before.armingAt, before.alarmAt;
    if !s.arm {
      armed, memory, armingAt, alarmAt := false, [false, false, false], None, None;
    } else {
      if armingAt.None? {
        armingAt := Some(s.t);
      }
      if s.t - armingAt.value >= EXIT_DELAY {
        armed := true;
      }
      if armed {
        memory := Remember(memory, s.normal);
        if (memory[0] || memory[1] || memory[2]) && alarmAt.None? {
          alarmAt := Some(s.t);
        }
      }
    }
    after := Carried(armed, memory, armingAt, alarmAt);
    var age := if alarmAt.Some? then s.t - alarmAt.value else -1;
    e := Expected(armed, ENTRY_DELAY <= age < SIREN_END, age >= ENTRY_DELAY, memory);
  }

  /** The frames so far are the ones asked for, and the carried state is ready for the next sample. */
  ghost predicate Traced(run: seq<Sample>, frames: seq<Expected>, carried: Carried) {
    && |frames| <= |run|
    && (forall i :: 0 <= i < |frames| ==> IsExpected(run, i, frames[i]))
    && Carries(run, |frames|, carried)
  }

  /** One sample more. */
  method TraceOne(ghost run: seq<Sample>, sample: Sample, carried: Carried, ghost frames: seq<Expected>)
    returns (after: Carried, e: Expected)
    requires Increasing(run) && Traced(run, frames, carried)
    requires |frames| < |run| && sample == run[|frames|]
    ensures Traced(run, frames + [e], after)
  {
    ghost var n := |frames|;
    CarriesNext(run, n, carried);
    after, e := Scan(sample, carried);
    OutputsAreExpected(run, n, after);
  }

  /** The expectations for any run of samples in increasing time are the ones its history asks for. */
  method Traces(run: seq<Sample>) returns (frames: seq<Expected>)
    requires Increasing(run)
    ensures |frames| == |run| && forall i :: 0 <= i < |run| ==> IsExpected(run, i, frames[i])
  {
    frames := [];
    var carried := CLEARED;
    for n := 0 to |run|
      invariant |frames| == n && Traced(run, frames, carried)
    {
      var after, e := TraceOne(run, run[n], carried, frames);
      carried := after;
      frames := frames + [e];
    }
  }

  method Remember(memory: Zones, normal: Zones) returns (r: Zones)
    ensures r == [memory[0] || !normal[0], memory[1] || !normal[1], memory[2] || !normal[2]]
  {
    r := memory;
    for i := 0 to ZONE_COUNT
      invariant forall k :: 0 <= k < ZONE_COUNT ==> r[k] == if k < i then memory[k] || !normal[k] else memory[k]
    {
      r := r[i := r[i] || !normal[i]];
    }
  }

  // ---------- the frozen trace ----------

  /** The switch and the zones of the frozen trace at one time. */
  function FrozenSample(t: int): Sample {
    Sample(t, 100 <= t < 10000 || 11000 <= t < 74000 || 75000 <= t < 101000 || 102000 <= t < 164000,
           [!(4000 <= t < 4200 || 31100 <= t < 31200 || 95000 <= t < 95200 || t >= 123000),
            !(50000 <= t < 50200), !(72000 <= t < 73000)])
  }

  /** Every ten milliseconds from 0 to 165100. */
  function Frozen(): seq<Sample> {
    seq(16511, i requires 0 <= i < 16511 => FrozenSample(10 * i))
  }

  predicate OnAt(i: nat) { 10 <= i < 1000 || 1100 <= i < 7400 || 7500 <= i < 10100 || 10200 <= i < 16400 }

  predicate NormalAt(i: nat, z: nat) {
    if z == 0 then !(400 <= i < 420 || 3110 <= i < 3120 || 9500 <= i < 9520 || i >= 12300)
    else if z == 1 then !(5000 <= i < 5020) else !(7200 <= i < 7300)
  }

  /** The frozen trace, told by sample number. */
  ghost predicate FrozenRun(run: seq<Sample>) {
    |run| == 16511 && forall i: nat :: i < |run| ==>
                                         run[i].t == 10 * i && (run[i].arm <==> OnAt(i))
                                         && forall z: nat :: z < ZONE_COUNT ==> (run[i].normal[z] <==> NormalAt(i, z))
  }

  lemma FrozenBySample()
    ensures FrozenRun(Frozen()) && Increasing(Frozen())
  {
  }

  /** The sample that begins the stretch of sample `i`: there are four, and the first is too short to arm. */
  function FrozenStart(i: nat): nat {
    if i < 1000 then 10 else if i < 7400 then 1100 else if i < 10100 then 7500 else 10200
  }

  lemma {:induction false} FrozenStretch(run: seq<Sample>, i: nat)
    requires FrozenRun(run) && i < |run| && run[i].arm
    ensures Start(run, i) == FrozenStart(i) <= i
  {
    var k, s := Start(run, i), FrozenStart(i);
    assert !run[s - 1].arm;
    assert forall j :: s <= j <= i ==> run[j].arm;
  }

  predicate FrozenArmed(i: nat) { 3100 <= i < 7400 || 9500 <= i < 10100 || 12200 <= i < 16400 }

  lemma FrozenArming(run: seq<Sample>, i: nat)
    requires FrozenRun(run) && i < |run|
    ensures Armed(run, i) <==> FrozenArmed(i)
  {
    if run[i].arm {
      FrozenStretch(run, i);
    }
  }

  /** The sample that first trips a zone in the stretch of sample `i`; -1 where none ever does. */
  function FrozenTrip(i: nat, z: nat): int {
    if 1100 <= i < 7400 then (if z == 0 then 3110 else if z == 1 then 5000 else 7200)
    else if 7500 <= i < 10100 then (if z == 0 then 9500 else -1)
    else if 10200 <= i < 16400 then (if z == 0 then 12300 else -1)
    else -1
  }

  lemma FrozenTrips(run: seq<Sample>, i: nat, j: nat, z: nat)
    requires FrozenRun(run) && j <= i < |run| && z < ZONE_COUNT
    ensures Trips(run, i, j, z) ==> 0 <= FrozenTrip(i, z) <= j
    ensures FrozenTrip(i, z) == j ==> Trips(run, i, j, z)
  {
    if run[i].arm {
      FrozenStretch(run, i);
      FrozenArming(run, j);
    }
  }

  lemma FrozenMemory(run: seq<Sample>, i: nat, z: nat)
    requires FrozenRun(run) && i < |run| && z < ZONE_COUNT
    ensures Remembered(run, i, z) <==> 0 <= FrozenTrip(i, z) <= i
  {
    if 0 <= FrozenTrip(i, z) <= i {
      FrozenTrips(run, i, FrozenTrip(i, z), z);
    }
    if Remembered(run, i, z) {
      var j :| 0 <= j <= i && Trips(run, i, j, z);
      FrozenTrips(run, i, j, z);
    }
  }

  /** Zone 0 trips first in every stretch that has an alarm. */
  lemma FrozenTripsAny(run: seq<Sample>, i: nat, j: nat)
    requires FrozenRun(run) && j <= i < |run|
    ensures TripsAny(run, i, j) ==> 0 <= FrozenTrip(i, 0) <= j
    ensures FrozenTrip(i, 0) == j ==> TripsAny(run, i, j)
  {
    FrozenTrips(run, i, j, 0);
    FrozenTrips(run, i, j, 1);
    FrozenTrips(run, i, j, 2);
  }

  lemma EarliestIsAlarm(run: seq<Sample>, i: nat, first: int)
    requires 0 <= first <= i < |run| && TripsAny(run, i, first)
    requires forall j: nat :: j <= i && TripsAny(run, i, j) ==> first <= j
    ensures AlarmFrom(run, i, first)
  {
  }

  lemma NoTripNoAlarm(run: seq<Sample>, i: nat, e: Expected)
    requires i < |run| && IsExpected(run, i, e) && forall j: nat :: j <= i ==> !TripsAny(run, i, j)
    ensures !e.y1 && !e.y2
  {
  }

  /** The alarm of a run in which sample `first` trips before any other of its stretch, or none does. */
  lemma SirenFrom(run: seq<Sample>, i: nat, first: int, e: Expected)
    requires i < |run| && IsExpected(run, i, e)
    requires forall j: nat :: j <= i && TripsAny(run, i, j) ==> 0 <= first <= j
    requires 0 <= first <= i ==> TripsAny(run, i, first)
    ensures var alarm := 0 <= first <= i;
            && (e.y1 <==> alarm && ENTRY_DELAY <= run[i].t - run[first].t < SIREN_END)
            && (e.y2 <==> alarm && ENTRY_DELAY <= run[i].t - run[first].t)
  {
    if 0 <= first <= i {
      EarliestIsAlarm(run, i, first);
      SirenWindow(run, i, first, e);
    } else {
      NoTripNoAlarm(run, i, e);
    }
  }

  lemma FrozenSiren(run: seq<Sample>, i: nat, e: Expected)
    requires FrozenRun(run) && i < |run| && IsExpected(run, i, e)
    ensures var first := FrozenTrip(i, 0);
            && (e.y1 <==> 0 <= first && 1000 <= i - first < 4000)
            && (e.y2 <==> 0 <= first && 1000 <= i - first)
  {
    var first := FrozenTrip(i, 0);
    forall j: nat | j <= i
      ensures TripsAny(run, i, j) ==> 0 <= first <= j
    {
      FrozenTripsAny(run, i, j);
    }
    if 0 <= first <= i {
      FrozenTripsAny(run, i, first);
    }
    SirenFrom(run, i, first, e);
  }

  /**
  The frozen expectations in closed form: three armed periods, two of them with an alarm that outlives
  the entry delay, one cancelled during it, and a first attempt that never arms.
  */
  lemma FrozenExpectations(run: seq<Sample>, i: nat, e: Expected)
    requires FrozenRun(run) && i < |run| && IsExpected(run, i, e)
    ensures var t := 10 * i;
            && (e.y0 <==> 31000 <= t < 74000 || 95000 <= t < 101000 || 122000 <= t < 164000)
            && (e.y1 <==> 41100 <= t < 71100 || 133000 <= t < 163000)
            && (e.y2 <==> 41100 <= t < 74000 || 133000 <= t < 164000)
            && (e.memory[0] <==> 31100 <= t < 74000 || 95000 <= t < 101000 || 123000 <= t < 164000)
            && (e.memory[1] <==> 50000 <= t < 74000)
            && (e.memory[2] <==> 72000 <= t < 74000)
  {
    FrozenArming(run, i);
    FrozenMemory(run, i, 0);
    FrozenMemory(run, i, 1);
    FrozenMemory(run, i, 2);
    FrozenSiren(run, i, e);
  }
}
