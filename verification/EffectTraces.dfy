/**
Evaluation of independent fixed traces against a reference effect. Rows that name the same sequence
share a memory and remember whether the row before was enabled; other rows share nothing. The effect
is an arbitrary function of the row, the memory and the previous enable.
*/
module EffectTraces {

  import opened Basics

  /** The sequence a row names; anything but a nonempty name is an error in the case. */
  datatype SequenceId = NoSequence | Named(name: string) | NotText

  type Memory = map<string, int>

  datatype Row = Row(
    id: string, sequence: SequenceId, memory: Memory, previousEnabled: bool, enabled: bool,
    writes: Memory, executed: bool, memoryAfter: Option<Memory>, resource: Option<string>)

  datatype Effect = Effect(writes: Memory, executed: bool, resource: string)

  /** None where the reference raises. */
  type Reference = (Row, Memory, bool) -> Option<Effect>

  datatype Frame = Frame(memory: Memory, previousEnabled: bool)

  datatype Trace = Trace(id: string, writes: Memory, passed: bool)

  datatype Status = Verified | Failed

  const FRESH := Frame(map[], false)

  // ---------- one row ----------

  predicate Nameable(s: SequenceId) { s.NoSequence? || (s.Named? && s.name != "") }

  /** What a row starts from: its own data alone, or its sequence's frame overlaid with its own memory. */
  function StartOf(row: Row, f: Frame): Frame {
    if row.sequence.NoSequence? then Frame(row.memory, row.previousEnabled)
    else Frame(f.memory + row.memory, f.previousEnabled)
  }

  function EffectOf(row: Row, f: Frame, reference: Reference): Option<Effect> {
    if Nameable(row.sequence) then reference(row, StartOf(row, f).memory, StartOf(row, f).previousEnabled) else None
  }

  predicate Includes(memory: Memory, part: Memory) {
    forall a :: a in part ==> a in memory && memory[a] == part[a]
  }

  predicate Passes(row: Row, f: Frame, e: Effect) {
    && e.writes == row.writes && e.executed == row.executed
    && (row.memoryAfter.Some? ==> Includes(StartOf(row, f).memory + e.writes, row.memoryAfter.value))
    && (row.resource.Some? ==> e.resource == row.resource.value)
  }

  /** The entry a row leaves behind, if the reference does not raise on it. */
  function Outcome(row: Row, f: Frame, reference: Reference): Option<Trace> {
    match EffectOf(row, f, reference)
    case None => None
    case Some(e) => Some(Trace(row.id, e.writes, Passes(row, f, e)))
  }

  function Advance(row: Row, f: Frame, reference: Reference): Frame {
    match EffectOf(row, f, reference)
    case None => f
    case Some(e) => Frame(StartOf(row, f).memory + e.writes, row.enabled)
  }

  // ---------- a sequence by itself ----------

  /** The rows of one sequence, in order; `NoSequence` gives the rows without one. */
  function Own(rows: seq<Row>, s: SequenceId): (r: seq<Row>)
    ensures |r| <= |rows| && forall i :: 0 <= i < |r| ==> r[i].sequence == s
  {
    if rows == [] then []
    else Own(rows[..|rows| - 1], s) + if rows[|rows| - 1].sequence == s then [rows[|rows| - 1]] else []
  }

  /** The frame after running these rows and nothing else, as one sequence. */
  function Alone(rows: seq<Row>, reference: Reference): Frame {
    if rows == [] then FRESH else Advance(rows[|rows| - 1], Alone(rows[..|rows| - 1], reference), reference)
  }

  /** What row `i` must give: its outcome after the earlier rows of its own sequence only. */
  function IsolatedOutcome(rows: seq<Row>, i: nat, reference: Reference): Option<Trace>
    requires i < |rows|
  {
    Outcome(rows[i], Alone(Own(rows[..i], rows[i].sequence), reference), reference)
  }

  predicate Good(rows: seq<Row>, i: nat, reference: Reference)
    requires i < |rows|
  {
    IsolatedOutcome(rows, i, reference).Some? && IsolatedOutcome(rows, i, reference).value.passed
  }

  predicate AllGood(rows: seq<Row>, reference: Reference) {
    forall i :: 0 <= i < |rows| ==> Good(rows, i, reference)
  }

  // ---------- all sequences at once ----------

  /** The frame a sequence has in the table; one that has not begun is fresh. */
  function FrameOf(sequences: map<string, Frame>, name: string): Frame {
    if name in sequences then sequences[name] else FRESH
  }

  ghost predicate FramesAreAlone(sequences: map<string, Frame>, rows: seq<Row>, reference: Reference) {
    forall name: string :: name != "" ==> FrameOf(sequences, name) == Alone(Own(rows, Named(name)), reference)
  }

  lemma {:induction false} OwnNext(rows: seq<Row>, i: nat, s: SequenceId)
    requires i < |rows|
    ensures Own(rows[..i + 1], s) == Own(rows[..i], s) + if rows[i].sequence == s then [rows[i]] else []
  {
    assert rows[..i + 1][..i] == rows[..i];
  }

  function FrameFor(sequences: map<string, Frame>, row: Row): Frame {
    if row.sequence.Named? then FrameOf(sequences, row.sequence.name) else FRESH
  }

  function NextTable(sequences: map<string, Frame>, row: Row, reference: Reference): map<string, Frame> {
    if row.sequence.Named? then sequences[row.sequence.name := Advance(row, FrameFor(sequences, row), reference)]
    else sequences
  }

  lemma FramesNext(sequences: map<string, Frame>, rows: seq<Row>, i: nat, reference: Reference)
    requires i < |rows| && FramesAreAlone(sequences, rows[..i], reference)
    ensures FramesAreAlone(NextTable(sequences, rows[i], reference), rows[..i + 1], reference)
  {
    var after := NextTable(sequences, rows[i], reference);
    forall name: string | name != ""
      ensures FrameOf(after, name) == Alone(Own(rows[..i + 1], Named(name)), reference)
    {
      OwnNext(rows, i, Named(name));
      var own := Own(rows[..i], Named(name));
      if rows[i].sequence == Named(name) {
        assert (own + [rows[i]])[..|own|] == own;
      } else {
        assert own + [] == own;
      }
    }
  }

  /** With the table as it is, the next row gives its isolated outcome. */
  lemma NextIsIsolated(sequences: map<string, Frame>, rows: seq<Row>, i: nat, reference: Reference)
    requires i < |rows| && FramesAreAlone(sequences, rows[..i], reference)
    ensures Outcome(rows[i], FrameFor(sequences, rows[i]), reference) == IsolatedOutcome(rows, i, reference)
  {
  }

  /** One row: what it starts from, the reference's answer, the checks, and the frame it leaves. */
  method RunRow(row: Row, frame: Frame, reference: Reference) returns (trace: Option<Trace>, after: Frame)
    ensures trace == Outcome(row, frame, reference)
    ensures trace.Some? ==> after == Advance(row, frame, reference)
  {
    after := frame;
    if row.sequence.NotText? || row.sequence == Named("") {
      return None, after;
    }
    var memory, previousEnabled := row.memory, row.previousEnabled;
    if row.sequence.Named? {
      memory, previousEnabled := frame.memory + row.memory, frame.previousEnabled;
    }
    var result := reference(row, memory, previousEnabled);
    if result.None? {
      return None, after;
    }
    var e := result.value;
    var final := memory + e.writes;
    var passed := e.writes == row.writes && e.executed == row.executed;
    if row.memoryAfter.Some? {
      passed := passed && Includes(final, row.memoryAfter.value);
    }
    if row.resource.Some? {
      passed := passed && e.resource == row.resource.value;
    }
    return Some(Trace(row.id, e.writes, passed)), Frame(final, row.enabled);
  }

  lemma StuckIsNotGood(rows: seq<Row>, i: nat, reference: Reference)
    requires i < |rows| && IsolatedOutcome(rows, i, reference).None?
    ensures !AllGood(rows, reference)
  {
    assert !Good(rows, i, reference);
  }

  /**
  Runs the rows in the order given, with one table of frames for all sequences. Every entry is the
  isolated outcome of its row; the run breaks off at the first row that has none.
  */
  method EvaluateEffectTraces(rows: seq<Row>, reference: Reference) returns (status: Status, traces: seq<Trace>)
    ensures TracesSoFar(rows, traces, reference)
    ensures |traces| < |rows| ==> IsolatedOutcome(rows, |traces|, reference).None?
    ensures status.Verified? <==> rows != [] && AllGood(rows, reference)
  {
    var sequences: map<string, Frame> := map[];
    var passed := true;
    traces := [];
    assert FramesAreAlone(sequences, rows[..0], reference);
    for i := 0 to |rows|
      invariant |traces| == i && FramesAreAlone(sequences, rows[..i], reference)
      invariant TracesSoFar(rows, traces, reference)
      invariant passed <==> AllPassed(traces)
    {
      NextIsIsolated(sequences, rows, i, reference);
      FramesNext(sequences, rows, i, reference);
      var trace, after := RunNext(sequences, rows[i], reference);
      if trace.None? {
        StuckIsNotGood(rows, i, reference);
        return Failed, traces;
      }
      TracesNext(rows, traces, trace.value, reference);
      sequences, passed, traces := after, passed && trace.value.passed, traces + [trace.value];
    }
    VerdictOfTraces(rows, traces, reference);
    status := if traces != [] && passed then Verified else Failed;
  }

  method RunNext(sequences: map<string, Frame>, row: Row, reference: Reference)
    returns (trace: Option<Trace>, after: map<string, Frame>)
    ensures trace == Outcome(row, FrameFor(sequences, row), reference)
    ensures trace.Some? ==> after == NextTable(sequences, row, reference)
  {
    var frame := FRESH;
    if row.sequence.Named? && row.sequence.name in sequences {
      frame := sequences[row.sequence.name];
    }
    var next;
    trace, next := RunRow(row, frame, reference);
    after := sequences;
    if trace.Some? && row.sequence.Named? {
      after := sequences[row.sequence.name := next];
    }
  }

  predicate AllPassed(traces: seq<Trace>) {
    forall i :: 0 <= i < |traces| ==> traces[i].passed
  }

  lemma TracesNext(rows: seq<Row>, traces: seq<Trace>, t: Trace, reference: Reference)
    requires TracesSoFar(rows, traces, reference) && |traces| < |rows|
        && IsolatedOutcome(rows, |traces|, reference) == Some(t)
    ensures TracesSoFar(rows, traces + [t], reference)
    ensures AllPassed(traces + [t]) <==> AllPassed(traces) && t.passed
  {
    if AllPassed(traces + [t]) {
      assert (traces + [t])[|traces|].passed;
      forall i | 0 <= i < |traces|
        ensures traces[i].passed
      {
        assert (traces + [t])[i] == traces[i];
      }
    }
  }

  ghost predicate TracesSoFar(rows: seq<Row>, traces: seq<Trace>, reference: Reference) {
    |traces| <= |rows| && forall i :: 0 <= i < |traces| ==> IsolatedOutcome(rows, i, reference) == Some(traces[i])
  }

  lemma VerdictOfTraces(rows: seq<Row>, traces: seq<Trace>, reference: Reference)
    requires |traces| == |rows| && TracesSoFar(rows, traces, reference)
    ensures AllGood(rows, reference) <==> AllPassed(traces)
  {
    forall i | 0 <= i < |rows|
      ensures Good(rows, i, reference) <==> traces[i].passed
    {
      assert IsolatedOutcome(rows, i, reference) == Some(traces[i]);
    }
  }

  // ---------- isolation ----------

  lemma {:induction false} OwnOfOwn(rows: seq<Row>, s: SequenceId)
    requires forall i :: 0 <= i < |rows| ==> rows[i].sequence == s
    ensures Own(rows, s) == rows
    decreases |rows|
  {
    if rows != [] {
      OwnOfOwn(rows[..|rows| - 1], s);
    }
  }

  /** A row of a longer run keeps its place among the rows of its sequence. */
  lemma {:induction false} OwnPrefix(rows: seq<Row>, i: nat, s: SequenceId)
    requires i <= |rows|
    ensures |Own(rows[..i], s)| <= |Own(rows, s)| && Own(rows, s)[..|Own(rows[..i], s)|] == Own(rows[..i], s)
    decreases |rows|
  {
    if i < |rows| {
      OwnPrefix(rows[..|rows| - 1], i, s);
      assert rows[..|rows| - 1][..i] == rows[..i];
    } else {
      assert rows[..i] == rows;
    }
  }

  /** The row's outcome is the last one of a run of only its own sequence, up to and including it. */
  lemma RunsAlone(rows: seq<Row>, i: nat, reference: Reference)
    requires i < |rows|
    ensures var own := Own(rows[..i + 1], rows[i].sequence);
            own != [] && own[|own| - 1] == rows[i]
            && IsolatedOutcome(own, |own| - 1, reference) == IsolatedOutcome(rows, i, reference)
  {
    var s := rows[i].sequence;
    var own, earlier := Own(rows[..i + 1], s), Own(rows[..i], s);
    OwnNext(rows, i, s);
    assert own[..|own| - 1] == earlier;
    OwnOfOwn(earlier, s);
  }

  /** And of the whole sequence run by itself, at the row's place in it. */
  lemma {:induction false} RunsInSequence(rows: seq<Row>, i: nat, reference: Reference)
    requires i < |rows|
    ensures var own, k := Own(rows, rows[i].sequence), |Own(rows[..i], rows[i].sequence)|;
            k < |own| && own[k] == rows[i] && IsolatedOutcome(own, k, reference) == IsolatedOutcome(rows, i, reference)
  {
    var s := rows[i].sequence;
    OwnNext(rows, i, s);
    OwnPrefix(rows, i, s);
    OwnPrefix(rows, i + 1, s);
    var own, k := Own(rows, s), |Own(rows[..i], s)|;
    assert own[..k + 1] == Own(rows[..i + 1], s);
    assert own[k] == own[..k + 1][k] == rows[i];
    OwnOfOwn(own[..k], s);
  }

  /** Every place in a sequence is some row's. */
  lemma {:induction false} RowAt(rows: seq<Row>, s: SequenceId, k: nat) returns (i: nat)
    requires k < |Own(rows, s)|
    ensures i < |rows| && rows[i].sequence == s && |Own(rows[..i], s)| == k
    decreases |rows|
  {
    var front := rows[..|rows| - 1];
    if k < |Own(front, s)| {
      i := RowAt(front, s, k);
      assert front[..i] == rows[..i];
    } else {
      i := |rows| - 1;
    }
  }

  ghost predicate EachGood(rows: seq<Row>, reference: Reference) {
    forall s :: AllGood(Own(rows, s), reference)
  }

  /** A run is good exactly when each of its sequences, run by itself, is. */
  lemma GoodBySequence(rows: seq<Row>, reference: Reference)
    ensures AllGood(rows, reference) <==> EachGood(rows, reference)
  {
    if AllGood(rows, reference) {
      forall s, k: nat | k < |Own(rows, s)|
        ensures Good(Own(rows, s), k, reference)
      {
        var i := RowAt(rows, s, k);
        RunsInSequence(rows, i, reference);
        assert Good(rows, i, reference);
      }
    }
    if EachGood(rows, reference) {
      forall i | 0 <= i < |rows|
        ensures Good(rows, i, reference)
      {
        RunsInSequence(rows, i, reference);
        assert AllGood(Own(rows, rows[i].sequence), reference);
        assert Good(Own(rows, rows[i].sequence), |Own(rows[..i], rows[i].sequence)|, reference);
      }
    }
  }

  /** The same sequences, in any order between them. */
  ghost predicate Interleave(a: seq<Row>, b: seq<Row>) {
    forall s :: Own(a, s) == Own(b, s)
  }

  /** Two interleavings give the same row, wherever it stands, the same outcome. */
  lemma OutcomesAgree(a: seq<Row>, b: seq<Row>, i: nat, j: nat, reference: Reference)
    requires Interleave(a, b) && i < |a| && j < |b| && a[i].sequence == b[j].sequence
    requires |Own(a[..i], a[i].sequence)| == |Own(b[..j], b[j].sequence)|
    ensures a[i] == b[j] && IsolatedOutcome(a, i, reference) == IsolatedOutcome(b, j, reference)
  {
    assert Own(a, a[i].sequence) == Own(b, a[i].sequence);
    RunsInSequence(a, i, reference);
    RunsInSequence(b, j, reference);
  }

  lemma GoodInterleaved(a: seq<Row>, b: seq<Row>, reference: Reference)
    requires Interleave(a, b) && AllGood(a, reference)
    ensures AllGood(b, reference)
  {
    GoodBySequence(a, reference);
    forall s
      ensures AllGood(Own(b, s), reference)
    {
      assert Own(a, s) == Own(b, s);
      assert AllGood(Own(a, s), reference);
    }
    GoodBySequence(b, reference);
  }

  /** And so they give the same verdict. */
  lemma VerdictsAgree(a: seq<Row>, b: seq<Row>, reference: Reference)
    requires Interleave(a, b)
    ensures a != [] && AllGood(a, reference) <==> b != [] && AllGood(b, reference)
  {
    if a != [] && AllGood(a, reference) {
      NotEmptied(a, b);
      GoodInterleaved(a, b, reference);
    }
    if b != [] && AllGood(b, reference) {
      NotEmptied(b, a);
      GoodInterleaved(b, a, reference);
    }
  }

  lemma NotEmptied(a: seq<Row>, b: seq<Row>)
    requires Interleave(a, b) && a != []
    ensures b != []
  {
    var last := a[|a| - 1];
    assert Own(a, last.sequence) == Own(b, last.sequence);
  }

  // ---------- what a row sees, told by the rows before it ----------

  /** The last of the layers that has the address has this value for it. */
  predicate LastSays(layers: seq<Memory>, a: string, v: int) {
    exists j: nat :: j < |layers| && a in layers[j] && layers[j][a] == v && SilentAfter(layers, a, j)
  }

  predicate SilentAfter(layers: seq<Memory>, a: string, j: nat) {
    forall l :: j < l < |layers| ==> a !in layers[l]
  }

  /** A memory that has for each address what the last layer with that address says, and nothing else. */
  ghost predicate Shows(memory: Memory, layers: seq<Memory>) {
    forall a, v :: a in memory && memory[a] == v <==> LastSays(layers, a, v)
  }

  lemma LastSaysMore(layers: seq<Memory>, top: Memory, a: string, v: int)
    ensures LastSays(layers + [top], a, v) <==> if a in top then top[a] == v else LastSays(layers, a, v)
  {
    var all := layers + [top];
    if a in top {
      if top[a] == v {
        assert all[|layers|] == top && SilentAfter(all, a, |layers|);
      }
      if LastSays(all, a, v) {
        var j: nat :| j < |all| && a in all[j] && all[j][a] == v && SilentAfter(all, a, j);
        assert SilentAfter(all, a, j) && a in all[|layers|];
      }
    } else {
      if LastSays(all, a, v) {
        var j: nat :| j < |all| && a in all[j] && all[j][a] == v && SilentAfter(all, a, j);
        assert j < |layers| && layers[j] == all[j];
        assert forall l :: j < l < |layers| ==> layers[l] == all[l];
        assert SilentAfter(layers, a, j);
      }
      if LastSays(layers, a, v) {
        var j: nat :| j < |layers| && a in layers[j] && layers[j][a] == v && SilentAfter(layers, a, j);
        assert all[j] == layers[j];
        assert SilentAfter(all, a, j);
      }
    }
  }

  lemma ShowsMore(memory: Memory, layers: seq<Memory>, top: Memory)
    requires Shows(memory, layers)
    ensures Shows(memory + top, layers + [top])
  {
    forall a, v
      ensures a in memory + top && (memory + top)[a] == v <==> LastSays(layers + [top], a, v)
    {
      LastSaysMore(layers, top, a, v);
    }
  }

  lemma ShownOnce(memory: Memory, other: Memory, layers: seq<Memory>)
    requires Shows(memory, layers) && Shows(other, layers)
    ensures memory == other
  {
    forall a
      ensures a in memory <==> a in other
      ensures a in memory ==> memory[a] == other[a]
    {
      if a in memory {
        assert LastSays(layers, a, memory[a]);
      }
      if a in other {
        assert LastSays(layers, a, other[a]);
      }
    }
  }

  /** What the first `k` rows leave in turn: each its own memory, then what its effect writes. */
  function Layers(own: seq<Row>, effects: seq<Effect>, k: nat): seq<Memory>
    requires k <= |own| && k <= |effects|
  {
    if k == 0 then [] else Layers(own, effects, k - 1) + [own[k - 1].memory] + [effects[k - 1].writes]
  }

  /** The effects are the reference's answers to what each row sees and to whether the row before was enabled. */
  ghost predicate AnsweredInTurn(own: seq<Row>, effects: seq<Effect>, reference: Reference) {
    && |effects| <= |own|
    && forall k :: 0 <= k < |effects| ==> AnsweredAt(own, effects, k, reference)
  }

  ghost predicate AnsweredAt(own: seq<Row>, effects: seq<Effect>, k: int, reference: Reference)
    requires 0 <= k < |effects| <= |own|
  {
    exists memory :: Shows(memory, Layers(own, effects, k) + [own[k].memory])
                     && reference(own[k], memory, k > 0 && own[k - 1].enabled) == Some(effects[k])
  }

  predicate OneSequence(own: seq<Row>) {
    forall i :: 0 <= i < |own| ==>
      own[i].sequence.Named? && own[i].sequence.name != "" && own[i].sequence == own[0].sequence
  }

  /** The frame after `k` rows has what their layers show, and remembers the last row's enable. */
  ghost predicate FrameShows(f: Frame, own: seq<Row>, effects: seq<Effect>, k: nat)
    requires k <= |own| && k <= |effects|
  {
    Shows(f.memory, Layers(own, effects, k)) && (f.previousEnabled <==> k > 0 && own[k - 1].enabled)
  }

  lemma {:induction false} FrameNext(f: Frame, own: seq<Row>, effects: seq<Effect>, k: nat, reference: Reference)
    requires AnsweredInTurn(own, effects, reference) && OneSequence(own)
    requires k < |effects| && FrameShows(f, own, effects, k)
    ensures EffectOf(own[k], f, reference) == Some(effects[k])
    ensures Shows(StartOf(own[k], f).memory + effects[k].writes, Layers(own, effects, k + 1))
    ensures FrameShows(Advance(own[k], f, reference), own, effects, k + 1)
  {
    var layers := Layers(own, effects, k);
    ShowsMore(f.memory, layers, own[k].memory);
    assert AnsweredAt(own, effects, k, reference);
    var memory :| Shows(memory, layers + [own[k].memory])
                  && reference(own[k], memory, k > 0 && own[k - 1].enabled) == Some(effects[k]);
    ShownOnce(memory, f.memory + own[k].memory, layers + [own[k].memory]);
    ShowsMore(memory, layers + [own[k].memory], effects[k].writes);
  }

  lemma {:induction false} FrameIsShown(own: seq<Row>, effects: seq<Effect>, k: nat, reference: Reference)
    requires AnsweredInTurn(own, effects, reference) && OneSequence(own) && k <= |effects|
    ensures FrameShows(Alone(own[..k], reference), own, effects, k)
  {
    if k == 0 {
      forall a, v
        ensures !LastSays([], a, v)
      {
      }
    } else {
      FrameIsShown(own, effects, k - 1, reference);
      FrameNext(Alone(own[..k - 1], reference), own, effects, k - 1, reference);
      assert own[..k][..k - 1] == own[..k - 1];
    }
  }

  /**
  What the entry of a row of a sequence says, told by the rows before it: at each address the row sees what was
  set or written last, its own memory included, and whether the row before was enabled; it passes exactly if the
  reference answers the expected writes and execution, if every address of the memory afterwards has what was set
  or written there last, and if the resource is the expected one, where one is expected.
  */
  lemma {:induction false} EntryMeans(own: seq<Row>, effects: seq<Effect>, k: nat, reference: Reference)
    requires AnsweredInTurn(own, effects, reference) && OneSequence(own) && k < |effects|
    ensures var row, e, outcome := own[k], effects[k], IsolatedOutcome(own, k, reference);
            && outcome.Some? && outcome.value.id == row.id && outcome.value.writes == e.writes
            && (outcome.value.passed <==>
                  && e.writes == row.writes && (e.executed <==> row.executed)
                  && (row.memoryAfter.Some? ==>
                        forall a :: a in row.memoryAfter.value ==>
                          LastSays(Layers(own, effects, k + 1), a, row.memoryAfter.value[a]))
                  && (row.resource.Some? ==> e.resource == row.resource.value))
  {
    var f := Alone(own[..k], reference);
    assert forall i :: 0 <= i < k ==> own[..k][i].sequence == own[k].sequence;
    OwnOfOwn(own[..k], own[k].sequence);
    FrameIsShown(own, effects, k, reference);
    FrameNext(f, own, effects, k, reference);
    var final := StartOf(own[k], f).memory + effects[k].writes;
    if own[k].memoryAfter.Some? {
      var part := own[k].memoryAfter.value;
      assert Includes(final, part) <==>
             forall a :: a in part ==> LastSays(Layers(own, effects, k + 1), a, part[a]);
    }
  }

  /** The reference has no answer to what the next row sees. */
  ghost predicate Unanswered(own: seq<Row>, effects: seq<Effect>, reference: Reference)
    requires |effects| < |own|
  {
    var k := |effects|;
    exists memory :: Shows(memory, Layers(own, effects, k) + [own[k].memory])
                     && reference(own[k], memory, k > 0 && own[k - 1].enabled).None?
  }

  /** A row of a sequence breaks the run off exactly if the reference has no answer to what the row sees. */
  lemma {:induction false} StuckMeans(own: seq<Row>, effects: seq<Effect>, reference: Reference)
    requires AnsweredInTurn(own, effects, reference) && OneSequence(own) && |effects| < |own|
    ensures IsolatedOutcome(own, |effects|, reference).None? <==> Unanswered(own, effects, reference)
  {
    var k := |effects|;
    var f := Alone(own[..k], reference);
    assert forall i :: 0 <= i < k ==> own[..k][i].sequence == own[k].sequence;
    OwnOfOwn(own[..k], own[k].sequence);
    FrameIsShown(own, effects, k, reference);
    var memory := f.memory + own[k].memory;
    ShowsMore(f.memory, Layers(own, effects, k), own[k].memory);
    assert StartOf(own[k], f) == Frame(memory, k > 0 && own[k - 1].enabled);
    assert IsolatedOutcome(own, k, reference).None? <==>
           reference(own[k], memory, k > 0 && own[k - 1].enabled).None?;
    if Unanswered(own, effects, reference) {
      var other :| Shows(other, Layers(own, effects, k) + [own[k].memory])
                   && reference(own[k], other, k > 0 && own[k - 1].enabled).None?;
      ShownOnce(memory, other, Layers(own, effects, k) + [own[k].memory]);
    }
  }

  /** A sequence without a name breaks the run off. */
  lemma NamelessIsStuck(rows: seq<Row>, i: nat, reference: Reference)
    requires i < |rows| && (rows[i].sequence.NotText? || rows[i].sequence == Named(""))
    ensures IsolatedOutcome(rows, i, reference).None?
  {
    assert !Nameable(rows[i].sequence);
  }

  /** A row without a sequence sees its own memory and its own flag, whatever else has run. */
  lemma LoneEntryMeans(rows: seq<Row>, i: nat, reference: Reference)
    requires i < |rows| && rows[i].sequence.NoSequence?
    ensures IsolatedOutcome(rows, i, reference) ==
            match reference(rows[i], rows[i].memory, rows[i].previousEnabled)
            case None => None
            case Some(e) =>
              Some(Trace(rows[i].id, e.writes,
                         && e.writes == rows[i].writes && (e.executed <==> rows[i].executed)
                         && (rows[i].memoryAfter.Some? ==>
                               forall a :: a in rows[i].memoryAfter.value ==>
                                 (a in e.writes && e.writes[a] == rows[i].memoryAfter.value[a])
                                 || (a !in e.writes && a in rows[i].memory
                                     && rows[i].memory[a] == rows[i].memoryAfter.value[a]))
                         && (rows[i].resource.Some? ==> e.resource == rows[i].resource.value)))
  {
    var row := rows[i];
    var f := Alone(Own(rows[..i], row.sequence), reference);
    assert StartOf(row, f) == Frame(row.memory, row.previousEnabled);
  }
}
