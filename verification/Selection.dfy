/**
Selecting one element of a graph by writing selection markers into another process's memory:
re-derive the graph's membership, verify every record, write the markers that differ, read every
record back, and take a second snapshot once the lease is over. The writes happen under that lease
(module UiLease), so nobody else changes these bytes meanwhile; a lease check or a write can still
fail at any moment, and a failing write may leave some bytes behind.
*/
module Selection {

  import opened Basics

  /** One element of the snapshot: where its record is, and the bytes it had. */
  datatype Element = Element(address: nat, record: seq<Byte>)

  datatype Change = Change(address: nat, state: (Byte, Byte), value: Byte)

  /** A 32-bit word the snapshot saw: at `start`, or where the words from there lead by the offsets. */
  datatype Link = Link(start: nat, offsets: seq<nat>, value: nat)

  /** The network that was snapshot; its editor is one of the `editors` table's `count` entries. */
  datatype Graph = Graph(nodes: seq<Element>, wires: seq<Element>, junctions: seq<Element>,
                         links: seq<Link>, editors: nat, count: nat, editor: nat)

  datatype Request = Request(wire: bool, index: int, expected: seq<Byte>)

  /** What the second snapshot shows as selected: the elements of the requested kind, and the others. */
  datatype Shown = Shown(chosen: seq<bool>, others: seq<bool>)

  /**
  `refused`: the lease is never obtained. `lost`: the lease checks that fail, by number. `torn`: the writes that
  fail, and how many bytes they wrote. `unbalanced`: the lease does not confirm the balance when it ends.
  */
  datatype Faults = Faults(refused: bool, lost: set<nat>, torn: map<nat, nat>, unbalanced: bool)

  datatype Outcome = Selected(writes: nat) | Threw(reason: string)

  /** What is written to the output: the new state, or that nothing, or that something, may have changed. */
  datatype Reply = Applied(writes: nat, memoryWritten: bool) | Failed | Unconfirmed(writes: nat)

  const LIMIT := 0x8000_0000
  const LOWEST_ADDRESS := 0x1_0000
  const MAX_READ := 16 * 1024 * 1024
  const MARKER_OFFSET := 0x10
  const MIN_RECORD := 18
  const MAX_ELEMENTS := 4096
  const NO_FAULT := Faults(false, {}, map[], false)

  function MarkerValue(selected: bool): Byte { if selected then 1 else 0 }

  /** The record an element must have once the selection is done. */
  function Marked(record: seq<Byte>, selected: bool): (r: seq<Byte>)
    requires |record| >= MIN_RECORD
    ensures |r| == |record|
  {
    record[MARKER_OFFSET := MarkerValue(selected)][MARKER_OFFSET + 1 := MarkerValue(selected)]
  }

  predicate NeedsWrite(record: seq<Byte>, selected: bool)
    requires |record| >= MIN_RECORD
  {
    Marked(record, selected) != record
  }

  predicate Readable(memory: map<int, Byte>, address: int, count: nat) {
    && LOWEST_ADDRESS <= address && count <= MAX_READ && address + count <= LIMIT
    && forall a :: address <= a < address + count ==> a in memory
  }

  predicate Holds(memory: map<int, Byte>, address: int, record: seq<Byte>) {
    Readable(memory, address, |record|) && forall a :: address <= a < address + |record| ==>
      memory[a] == record[a - address]
  }

  /** The first loop's test of one element. */
  predicate Verified(memory: map<int, Byte>, e: Element) {
    && |e.record| >= MIN_RECORD && Holds(memory, e.address, e.record)
    && e.record[MARKER_OFFSET] <= 1 && e.record[MARKER_OFFSET + 1] <= 1
  }

  predicate AllVerified(memory: map<int, Byte>, elements: seq<Element>) {
    |elements| <= MAX_ELEMENTS && forall i :: 0 <= i < |elements| ==> Verified(memory, elements[i])
  }

  predicate AllLongEnough(elements: seq<Element>) {
    forall i :: 0 <= i < |elements| ==> |elements[i].record| >= MIN_RECORD
  }

  /** The elements whose markers differ from what the selection wants. */
  function Differing(elements: seq<Element>, target: int): set<nat>
    requires AllLongEnough(elements)
  {
    set i: nat | i < |elements| && NeedsWrite(elements[i].record, i == target)
  }

  predicate MarkerCell(e: Element, address: int) {
    address == e.address + MARKER_OFFSET || address == e.address + MARKER_OFFSET + 1
  }

  /** Two records share no byte. */
  predicate Apart(a: Element, b: Element) {
    a.address + |a.record| <= b.address || b.address + |b.record| <= a.address
  }

  predicate Disjoint(elements: seq<Element>) {
    forall i, j :: 0 <= i < j < |elements| ==> Apart(elements[i], elements[j])
  }

  // ---------- the request against the snapshot ----------

  function Chosen(g: Graph, r: Request): seq<Element> { if r.wire then g.wires else g.nodes }

  function AllElements(g: Graph): seq<Element> { g.nodes + g.wires + g.junctions }

  function Place(g: Graph, r: Request): int { if r.wire then |g.nodes| + r.index else r.index }

  /** The request names an element of the snapshot by its index and its bytes, in a graph of a shape that is known. */
  predicate Admissible(g: Graph, r: Request) {
    && 0 <= r.index < |Chosen(g, r)| && Chosen(g, r)[r.index].record == r.expected
    && g.junctions == [] && |AllElements(g)| <= MAX_ELEMENTS
  }

  predicate BytesAt(memory: map<int, Byte>, address: int, bytes: seq<Byte>) {
    forall k :: 0 <= k < |bytes| ==> address + k in memory && memory[address + k] == bytes[k]
  }

  /** The memory has the bytes the request expects, at the element it names. */
  predicate AsExpected(memory: map<int, Byte>, g: Graph, r: Request) {
    if r.wire then 0 <= r.index < |g.wires| && BytesAt(memory, g.wires[r.index].address, r.expected)
    else 0 <= r.index < |g.nodes| && BytesAt(memory, g.nodes[r.index].address, r.expected)
  }

  lemma CurrentIsAsExpected(memory: map<int, Byte>, g: Graph, r: Request)
    requires Admissible(g, r) && Current(memory, g)
    ensures AsExpected(memory, g, r)
  {
    var e := AllElements(g)[Place(g, r)];
    assert Verified(memory, e);
    forall k | 0 <= k < |r.expected|
      ensures e.address + k in memory && memory[e.address + k] == r.expected[k]
    {
      assert memory[e.address + k] == e.record[e.address + k - e.address];
    }
  }

  function Word(memory: map<int, Byte>, address: nat): (r: Option<nat>)
    ensures r.Some? <==> Readable(memory, address, 4)
  {
    if !Readable(memory, address, 4) then None
    else Some(memory[address] as nat + 0x100 * memory[address + 1] as nat
              + 0x1_0000 * memory[address + 2] as nat + 0x100_0000 * memory[address + 3] as nat)
  }

  /** Where a link leads: the word found at the end of its path. */
  function Follow(memory: map<int, Byte>, start: nat, offsets: seq<nat>): Option<nat>
    decreases |offsets|
  {
    match Word(memory, start)
    case None => None
    case Some(word) => if offsets == [] then Some(word) else Follow(memory, word + offsets[0], offsets[1..])
  }

  predicate LinkHolds(memory: map<int, Byte>, link: Link) {
    Follow(memory, link.start, link.offsets) == Some(link.value)
  }

  predicate EditorListed(memory: map<int, Byte>, g: Graph) {
    && (forall n :: 0 <= n < g.count ==> Word(memory, g.editors + 4 * n).Some?)
    && exists n :: 0 <= n < g.count && Word(memory, g.editors + 4 * n) == Some(g.editor)
  }

  /** Everything that leads to the network's elements is as the snapshot saw it. */
  predicate Member(memory: map<int, Byte>, g: Graph) {
    (forall i :: 0 <= i < |g.links| ==> LinkHolds(memory, g.links[i])) && EditorListed(memory, g)
  }

  /** The snapshot is still true of this memory. */
  predicate Current(memory: map<int, Byte>, g: Graph) { Member(memory, g) && AllVerified(memory, AllElements(g)) }

  predicate OnlyShown(shown: Shown, index: int) {
    && 0 <= index < |shown.chosen|
    && (forall i :: 0 <= i < |shown.chosen| ==> (shown.chosen[i] <==> i == index))
    && (forall i :: 0 <= i < |shown.others| ==> !shown.others[i])
  }

  /** How a record shows its selection: the low bit of its second marker. */
  predicate ShowsSelected(record: seq<Byte>)
    requires |record| >= MIN_RECORD
  {
    record[MARKER_OFFSET + 1] % 2 == 1
  }

  function Shows(elements: seq<Element>): seq<bool>
    requires AllLongEnough(elements)
  {
    seq(|elements|, i requires 0 <= i < |elements| => ShowsSelected(elements[i].record))
  }

  /** A second snapshot of the records as the writes have left them shows the requested element alone. */
  lemma SelectionShows(g: Graph, r: Request)
    requires Admissible(g, r) && AllLongEnough(AllElements(g))
    ensures var shown := Shows(Resnapshot(AllElements(g), Place(g, r)));
            var nodes, wires := shown[..|g.nodes|], shown[|g.nodes|..];
            OnlyShown(if r.wire then Shown(wires, nodes) else Shown(nodes, wires), r.index)
  {
    var all := AllElements(g);
    var shown := Shows(Resnapshot(all, Place(g, r)));
    forall i | 0 <= i < |all|
      ensures shown[i] <==> i == Place(g, r)
    {
      assert Marked(all[i].record, i == Place(g, r))[MARKER_OFFSET + 1] == MarkerValue(i == Place(g, r));
    }
    assert forall i :: 0 <= i < |g.nodes| ==> shown[..|g.nodes|][i] == shown[i];
    assert forall i :: 0 <= i < |g.wires| ==> shown[|g.nodes|..][i] == shown[|g.nodes| + i];
  }

  /** Every byte is as it was, or is a marker of an element that differed and has the value wanted there. */
  predicate OnlyMarkersMoved(before: map<int, Byte>, after: map<int, Byte>, elements: seq<Element>, target: int) {
    && after.Keys == before.Keys
    && forall a :: a in before ==>
         after[a] == before[a]
         || exists i :: 0 <= i < |elements| && MarkerCell(elements[i], a) && |elements[i].record| >= MIN_RECORD
                        && NeedsWrite(elements[i].record, i == target) && after[a] == MarkerValue(i == target)
  }

  /** What the snapshot would show after a successful selection. */
  function Resnapshot(elements: seq<Element>, target: int): (r: seq<Element>)
    requires AllLongEnough(elements)
    ensures |r| == |elements| && AllLongEnough(r)
  {
    seq(|elements|, i requires 0 <= i < |elements| =>
      Element(elements[i].address, Marked(elements[i].record, i == target)))
  }

  lemma RepeatDiffersNowhere(elements: seq<Element>, target: int)
    requires AllLongEnough(elements)
    ensures Differing(Resnapshot(elements, target), target) == {}
  {
    forall i: nat | i < |elements| ensures !NeedsWrite(Resnapshot(elements, target)[i].record, i == target) {
      var m := Marked(elements[i].record, i == target);
      assert Marked(m, i == target) == m;
    }
  }

  /** `changes` lists the differing elements once each, in order, at the positions in `changed`. */
  ghost predicate ChangesAre(elements: seq<Element>, target: int, changes: seq<Change>, changed: seq<nat>) {
    && |changes| == |changed|
    && AllLongEnough(elements)
    && (forall m, n :: 0 <= m < n < |changed| ==> changed[m] < changed[n])
    && (forall i: nat :: i in changed <==> i < |elements| && NeedsWrite(elements[i].record, i == target))
    && (forall n :: 0 <= n < |changed| ==>
          changed[n] < |elements| && changes[n] == ChangeOf(elements[changed[n]], changed[n] == target))
  }

  function ChangeOf(e: Element, selected: bool): Change
    requires |e.record| >= MIN_RECORD
  {
    Change(e.address, (e.record[MARKER_OFFSET], e.record[MARKER_OFFSET + 1]), MarkerValue(selected))
  }

  // ---------- what the writes do to memory ----------

  predicate CellOf(c: Change, address: int) {
    address == c.address + MARKER_OFFSET || address == c.address + MARKER_OFFSET + 1
  }

  function WithMarker(memory: map<int, Byte>, c: Change): map<int, Byte> {
    memory[c.address + MARKER_OFFSET := c.value][c.address + MARKER_OFFSET + 1 := c.value]
  }

  function Painted(memory: map<int, Byte>, changes: seq<Change>): map<int, Byte> {
    if changes == [] then memory
    else WithMarker(Painted(memory, changes[..|changes| - 1]), changes[|changes| - 1])
  }

  ghost predicate CellsMapped(memory: map<int, Byte>, changes: seq<Change>) {
    forall n, a :: 0 <= n < |changes| && CellOf(changes[n], a) ==> a in memory
  }

  /** A byte that is no change's cell keeps its value; the others have the value of one of their changes. */
  lemma {:induction false} PaintedBytes(memory: map<int, Byte>, changes: seq<Change>, a: int)
    requires CellsMapped(memory, changes)
    ensures Painted(memory, changes).Keys == memory.Keys
    ensures a in memory ==>
              if forall n :: 0 <= n < |changes| ==> !CellOf(changes[n], a) then Painted(memory, changes)[a] == memory[a]
              else exists n ::
                     0 <= n < |changes| && CellOf(changes[n], a) && Painted(memory, changes)[a] == changes[n].value
    decreases |changes|
  {
    if changes != [] {
      var rest, last := changes[..|changes| - 1], changes[|changes| - 1];
      PaintedBytes(memory, rest, a);
      assert CellOf(last, last.address + MARKER_OFFSET) && CellOf(last, last.address + MARKER_OFFSET + 1);
      if a in memory && !CellOf(last, a) && exists n :: 0 <= n < |rest| && CellOf(rest[n], a) {
        var n :| 0 <= n < |rest| && CellOf(rest[n], a) && Painted(memory, rest)[a] == rest[n].value;
        assert changes[n] == rest[n];
      }
    }
  }

  /** With disjoint records, a marker cell inside a record is that record's own. */
  lemma CellHasOneOwner(elements: seq<Element>, k: nat, i: nat, a: int)
    requires Disjoint(elements) && AllLongEnough(elements) && k < |elements| && i < |elements|
    ensures MarkerCell(elements[k], a) && elements[i].address <= a < elements[i].address + |elements[i].record| ==>
        k == i
  {
    assert k < i ==> Apart(elements[k], elements[i]);
    assert i < k ==> Apart(elements[i], elements[k]);
  }

  /** With disjoint records, the writes turn every verified record into the wanted one. */
  lemma {:induction false} PaintedIsMarked(
    memory: map<int, Byte>, elements: seq<Element>, target: int, changes: seq<Change>, changed: seq<nat>, i: nat)
    requires Disjoint(elements) && CellsMapped(memory, changes)
    requires ChangesAre(elements, target, changes, changed) && i < |elements| && Verified(memory, elements[i])
    ensures Holds(Painted(memory, changes), elements[i].address, Marked(elements[i].record, i == target))
  {
    PaintedBytes(memory, changes, 0);
    forall a | elements[i].address <= a < elements[i].address + |elements[i].record|
      ensures a in Painted(memory, changes)
      ensures Painted(memory, changes)[a] == Marked(elements[i].record, i == target)[a - elements[i].address]
    {
      PaintedByteIsMarked(memory, elements, target, changes, changed, i, a);
    }
  }

  lemma {:induction false} PaintedByteIsMarked(
    memory: map<int, Byte>, elements: seq<Element>, target: int, changes: seq<Change>, changed: seq<nat>, i: nat,
      a: int)
    requires Disjoint(elements) && CellsMapped(memory, changes)
    requires ChangesAre(elements, target, changes, changed) && i < |elements| && Verified(memory, elements[i])
    requires elements[i].address <= a < elements[i].address + |elements[i].record|
    ensures a in Painted(memory, changes)
    ensures Painted(memory, changes)[a] == Marked(elements[i].record, i == target)[a - elements[i].address]
  {
    PaintedBytes(memory, changes, a);
    forall n | 0 <= n < |changes| && CellOf(changes[n], a) ensures changed[n] == i {
      assert changes[n] == ChangeOf(elements[changed[n]], changed[n] == target);
      CellHasOneOwner(elements, changed[n], i, a);
    }
    if i in changed && MarkerCell(elements[i], a) {
      var n :| 0 <= n < |changed| && changed[n] == i;
      assert CellOf(changes[n], a);
    }
  }

  lemma ChangedCellsMapped(memory: map<int, Byte>, elements: seq<Element>, target: int, changes: seq<Change>,
      changed: seq<nat>)
    requires ChangesAre(elements, target, changes, changed)
    requires forall i :: 0 <= i < |elements| ==> Verified(memory, elements[i])
    ensures CellsMapped(memory, changes)
  {
    forall n, a | 0 <= n < |changes| && CellOf(changes[n], a) ensures a in memory {
      assert Verified(memory, elements[changed[n]]);
    }
  }

  /** With disjoint records, the earlier writes have left a later change's cells alone. */
  lemma {:induction false} CellUntouched(memory: map<int, Byte>, elements: seq<Element>, target: int,
                      changes: seq<Change>, changed: seq<nat>, n: nat, a: int)
    requires Disjoint(elements) && AllVerified(memory, elements)
    requires ChangesAre(elements, target, changes, changed) && n < |changes| && CellsMapped(memory, changes[..n])
    requires CellOf(changes[n], a)
    ensures a in memory && a in Painted(memory, changes[..n]) && Painted(memory, changes[..n])[a] == memory[a]
  {
    var e := elements[changed[n]];
    assert Verified(memory, e) && changes[n] == ChangeOf(e, changed[n] == target);
    PaintedBytes(memory, changes[..n], a);
    forall m | 0 <= m < n
      ensures !CellOf(changes[..n][m], a)
    {
      assert changes[m] == ChangeOf(elements[changed[m]], changed[m] == target);
      CellHasOneOwner(elements, changed[m], changed[n], a);
    }
  }

  /** So a change's own cells are still as they were when its turn comes. */
  lemma {:induction false} NextCellsUntouched(memory: map<int, Byte>, elements: seq<Element>, target: int,
                           changes: seq<Change>, changed: seq<nat>, n: nat)
    requires Disjoint(elements) && AllVerified(memory, elements)
    requires ChangesAre(elements, target, changes, changed) && n < |changes|
    ensures Holds(Painted(memory, changes[..n]), changes[n].address + MARKER_OFFSET,
                  [changes[n].state.0, changes[n].state.1])
  {
    var c := changes[n];
    var e, cell := elements[changed[n]], c.address + MARKER_OFFSET;
    assert Verified(memory, e) && c == ChangeOf(e, changed[n] == target);
    EarlierCellsMapped(memory, elements, target, changes, changed, n);
    CellUntouched(memory, elements, target, changes, changed, n, cell);
    CellUntouched(memory, elements, target, changes, changed, n, cell + 1);
    assert memory[cell] == c.state.0 && memory[cell + 1] == c.state.1;
    TwoCells(Painted(memory, changes[..n]), cell, c.state.0, c.state.1);
  }

  lemma TwoCells(memory: map<int, Byte>, cell: int, low: Byte, high: Byte)
    requires LOWEST_ADDRESS <= cell && cell + 2 <= LIMIT && cell in memory && cell + 1 in memory
    requires memory[cell] == low && memory[cell + 1] == high
    ensures Holds(memory, cell, [low, high])
  {
    forall a | cell <= a < cell + 2
      ensures a in memory && memory[a] == [low, high][a - cell]
    {
      assert a == cell || a == cell + 1;
    }
  }

  lemma EarlierCellsMapped(memory: map<int, Byte>, elements: seq<Element>, target: int,
                           changes: seq<Change>, changed: seq<nat>, n: nat)
    requires AllVerified(memory, elements) && ChangesAre(elements, target, changes, changed) && n <= |changes|
    ensures CellsMapped(memory, changes[..n])
  {
    ChangedCellsMapped(memory, elements, target, changes, changed);
    forall m, a | 0 <= m < n && CellOf(changes[..n][m], a)
      ensures a in memory
    {
      assert CellOf(changes[m], a);
    }
  }

  /** One more element: its change is listed if its markers differ. */
  lemma ChangesExtend(elements: seq<Element>, target: int, changes: seq<Change>, changed: seq<nat>, n: nat)
    requires n < |elements| && |elements[n].record| >= MIN_RECORD
    requires ChangesAre(elements[..n], target, changes, changed)
    ensures if NeedsWrite(elements[n].record, n == target)
            then ChangesAre(elements[..n + 1], target, changes + [ChangeOf(elements[n], n == target)], changed + [n])
            else ChangesAre(elements[..n + 1], target, changes, changed)
  {
    var more := elements[..n + 1];
    assert forall i :: 0 <= i < n ==> more[i] == elements[..n][i];
    var all, places := changes + [ChangeOf(elements[n], n == target)], changed + [n];
    if NeedsWrite(elements[n].record, n == target) {
      forall i: nat
        ensures i in places <==> i < |more| && NeedsWrite(more[i].record, i == target)
      {
        assert i in places <==> i in changed || i == n;
      }
      forall k | 0 <= k < |places|
        ensures places[k] < |more| && all[k] == ChangeOf(more[places[k]], places[k] == target)
      {
        assert k < |changed| ==> places[k] == changed[k] && all[k] == changes[k];
      }
    }
  }

  lemma NeedsWriteIs(record: seq<Byte>, selected: bool)
    requires |record| >= MIN_RECORD
    ensures NeedsWrite(record, selected) <==>
              record[MARKER_OFFSET + 1] != MarkerValue(selected) || record[MARKER_OFFSET] != MarkerValue(selected)
  {
    var desired := MarkerValue(selected);
    assert Marked(record, selected)[MARKER_OFFSET] == desired == Marked(record, selected)[MARKER_OFFSET + 1];
    if record[MARKER_OFFSET] == desired == record[MARKER_OFFSET + 1] {
      assert Marked(record, selected) == record;
    }
  }

  /** Each change finds its cells as it expects them, after the changes before it. */
  ghost predicate CellsWait(memory: map<int, Byte>, changes: seq<Change>) {
    forall n :: 0 <= n < |changes| ==>
      Holds(Painted(memory, changes[..n]), changes[n].address + MARKER_OFFSET, [changes[n].state.0, changes[n].state.1])
  }

  lemma CellsOfAllWait(memory: map<int, Byte>, elements: seq<Element>, target: int,
                       changes: seq<Change>, changed: seq<nat>)
    requires Disjoint(elements) && AllVerified(memory, elements) && ChangesAre(elements, target, changes, changed)
    ensures CellsWait(memory, changes)
  {
    forall n | 0 <= n < |changes|
      ensures Holds(Painted(memory, changes[..n]), changes[n].address + MARKER_OFFSET,
                    [changes[n].state.0, changes[n].state.1])
    {
      NextCellsUntouched(memory, elements, target, changes, changed, n);
    }
  }

  predicate AllMarked(memory: map<int, Byte>, elements: seq<Element>, target: int) {
    AllLongEnough(elements)
    && forall i :: 0 <= i < |elements| ==> Holds(memory, elements[i].address, Marked(elements[i].record, i == target))
  }

  lemma {:induction false} PaintedAreMarked(memory: map<int, Byte>, elements: seq<Element>, target: int,
                         changes: seq<Change>, changed: seq<nat>)
    requires Disjoint(elements) && AllVerified(memory, elements) && ChangesAre(elements, target, changes, changed)
    ensures AllMarked(Painted(memory, changes), elements, target)
  {
    ChangedCellsMapped(memory, elements, target, changes, changed);
    forall i | 0 <= i < |elements|
      ensures Holds(Painted(memory, changes), elements[i].address, Marked(elements[i].record, i == target))
    {
      PaintedIsMarked(memory, elements, target, changes, changed, i);
    }
  }

  /** The target process as the adapter sees it, with the adapter's two progress counters. */
  class Target {
    var memory: map<int, Byte>
    var mutationMayHaveStarted: bool
    var writesCompleted: nat

    method Read(address: int, count: nat) returns (ok: bool, data: seq<Byte>)
      ensures ok <==> Readable(memory, address, count)
      ensures ok ==> |data| == count && Holds(memory, address, data)
    {
      ok := Readable(memory, address, count);
      if ok {
        data := seq(count, k requires 0 <= k < count && Readable(memory, address, count) reads this =>
          memory[address + k]);
      } else {
        data := [];
      }
    }

    /** SelectMarker: re-read the two bytes, then write them; `tear` says how a failing write ends. */
    method SelectMarker(c: Change, fails: bool, tear: nat) returns (ok: bool)
      modifies `memory
      ensures memory.Keys == old(memory.Keys)
      ensures forall a :: a in memory ==>
                memory[a] == old(memory)[a] || (CellOf(c, a) && memory[a] == c.value)
      ensures ok <==> !fails && Holds(old(memory), c.address + MARKER_OFFSET, [c.state.0, c.state.1])
      ensures ok ==> memory == WithMarker(old(memory), c)
    {
      var cell := c.address + MARKER_OFFSET;
      var read, current := Read(cell, 2);
      assert read ==> current == [memory[cell], memory[cell + 1]];
      if !read || current != [c.state.0, c.state.1] {
        assert read && Holds(memory, cell, [c.state.0, c.state.1]) ==> current == [c.state.0, c.state.1];
        return false;
      }
      if !fails || tear >= 1 {
        memory := memory[cell := c.value];
      }
      if !fails || tear >= 2 {
        memory := memory[cell + 1 := c.value];
      }
      return !fails;
    }

    /** One record as the snapshot saw it, with markers that are zero or one. */
    method VerifyElement(e: Element) returns (ok: bool)
      ensures ok <==> Verified(memory, e)
    {
      var read, raw := Read(e.address, |e.record|);
      ok := read && raw == e.record && |raw| >= MIN_RECORD && raw[MARKER_OFFSET] <= 1 && raw[MARKER_OFFSET + 1] <= 1;
      if read && Verified(memory, e) {
        forall k | 0 <= k < |raw|
          ensures raw[k] == e.record[k]
        {
          assert memory[e.address + k] == raw[k];
        }
        assert raw == e.record;
      }
    }

    /** The word a path of pointers leads to. */
    method FollowLink(link: Link) returns (ok: bool)
      ensures ok <==> LinkHolds(memory, link)
    {
      var address: nat := link.start;
      for n := 0 to |link.offsets|
        invariant Follow(memory, address, link.offsets[n..]) == Follow(memory, link.start, link.offsets)
      {
        var word := Word(memory, address);
        if word == None {
          return false;
        }
        assert link.offsets[n..][0] == link.offsets[n] && link.offsets[n..][1..] == link.offsets[n + 1..];
        address := word.value + link.offsets[n];
      }
      ok := Word(memory, address) == Some(link.value);
    }

    /** VerifyCurrentMembership: the way to the network, and the editor in its table, which is read to its end. */
    method VerifyMembership(g: Graph) returns (ok: bool)
      ensures ok <==> Member(memory, g)
    {
      for n := 0 to |g.links|
        invariant forall i :: 0 <= i < n ==> LinkHolds(memory, g.links[i])
      {
        var holds := FollowLink(g.links[n]);
        if !holds {
          return false;
        }
      }
      ok := false;
      for n := 0 to g.count
        invariant forall i :: 0 <= i < n ==> Word(memory, g.editors + 4 * i).Some?
        invariant ok <==> exists i :: 0 <= i < n && Word(memory, g.editors + 4 * i) == Some(g.editor)
      {
        var word := Word(memory, g.editors + 4 * n);
        if word == None {
          return false;
        }
        if word == Some(g.editor) {
          ok := true;
        }
      }
    }

    /** First loop: every record as the snapshot saw it; collects the markers to write. */
    method VerifyAll(elements: seq<Element>, target: int, faults: Faults, checks: nat)
      returns (ok: bool, changes: seq<Change>, changed: seq<nat>)
      ensures ok ==> forall i :: 0 <= i < |elements| ==> Verified(memory, elements[i])
      ensures ok ==> ChangesAre(elements, target, changes, changed)
      ensures (forall i :: 0 <= i < |elements| ==> Verified(memory, elements[i])) && faults.lost == {} ==> ok
    {
      changes, changed := [], [];
      for n := 0 to |elements|
        invariant forall i :: 0 <= i < n ==> Verified(memory, elements[i])
        invariant ChangesAre(elements[..n], target, changes, changed)
      {
        if checks + n in faults.lost {
          return false, [], [];
        }
        var e := elements[n];
        var verified := VerifyElement(e);
        if !verified {
          return false, [], [];
        }
        ChangesExtend(elements, target, changes, changed, n);
        NeedsWriteIs(e.record, n == target);
        var desired := MarkerValue(n == target);
        if e.record[MARKER_OFFSET + 1] != desired || e.record[MARKER_OFFSET] != desired {
          changes := changes + [Change(e.address, (e.record[MARKER_OFFSET], e.record[MARKER_OFFSET + 1]), desired)];
          changed := changed + [n];
        }
      }
      assert elements[..|elements|] == elements;
      return true, changes, changed;
    }

    /** Second loop: the markers, one after the other. */
    method WriteMarkers(changes: seq<Change>, faults: Faults, checks: nat) returns (ok: bool)
      requires !mutationMayHaveStarted && writesCompleted == 0
      modifies this
      ensures memory.Keys == old(memory.Keys)
      ensures forall a :: a in memory ==>
                memory[a] == old(memory)[a]
                || exists n :: 0 <= n < |changes| && CellOf(changes[n], a) && memory[a] == changes[n].value
      ensures ok ==> memory == Painted(old(memory), changes) && writesCompleted == |changes|
      ensures !ok ==> writesCompleted < |changes|
      ensures !mutationMayHaveStarted ==> memory == old(memory) && writesCompleted == 0
      ensures ok ==> (mutationMayHaveStarted <==> changes != [])
      ensures faults == NO_FAULT && CellsWait(old(memory), changes) ==> ok
    {
      for n := 0 to |changes|
        invariant memory.Keys == old(memory.Keys)
        invariant memory == Painted(old(memory), changes[..n]) && writesCompleted == n
        invariant forall a :: a in memory ==>
                    memory[a] == old(memory)[a]
                    || exists m :: 0 <= m < n && CellOf(changes[m], a) && memory[a] == changes[m].value
        invariant mutationMayHaveStarted <==> n > 0
      {
        if checks + n in faults.lost {
          return false;
        }
        mutationMayHaveStarted := true;
        var fails := n in faults.torn;
        ok := SelectMarker(changes[n], fails, if fails then faults.torn[n] else 0);
        if !ok {
          return false;
        }
        writesCompleted := writesCompleted + 1;
        assert changes[..n + 1][..n] == changes[..n];
      }
      assert changes[..|changes|] == changes;
      return true;
    }

    /** Third loop: every record again, now with the markers it must have. */
    method ReadBack(elements: seq<Element>, target: int, faults: Faults, checks: nat) returns (ok: bool)
      requires AllLongEnough(elements)
      ensures ok ==> forall i :: 0 <= i < |elements| ==>
                Holds(memory, elements[i].address, Marked(elements[i].record, i == target))
      ensures faults.lost == {}
              && (forall i :: 0 <= i < |elements| ==>
                    Holds(memory, elements[i].address, Marked(elements[i].record, i == target)))
              ==> ok
    {
      for n := 0 to |elements|
        invariant forall i :: 0 <= i < n ==>
                    Holds(memory, elements[i].address, Marked(elements[i].record, i == target))
      {
        if checks + n in faults.lost {
          return false;
        }
        var expected := Marked(elements[n].record, n == target);
        var read, raw := Read(elements[n].address, |expected|);
        if !read || raw != expected {
          assert read && Holds(memory, elements[n].address, expected) ==> raw == expected by {
            if read && Holds(memory, elements[n].address, expected) {
              forall k | 0 <= k < |raw| ensures raw[k] == expected[k] {
                assert memory[elements[n].address + k] == raw[k];
              }
            }
          }
          return false;
        }
      }
      return true;
    }

    /** The three loops under the lease. */
    method WriteSelection(elements: seq<Element>, target: int, faults: Faults) returns (outcome: Outcome)
      requires !mutationMayHaveStarted && writesCompleted == 0 && |elements| <= MAX_ELEMENTS
      modifies this
      ensures outcome.Selected? ==>
                AllVerified(old(memory), elements) && AllMarked(memory, elements, target)
                && outcome.writes == writesCompleted == |Differing(elements, target)|
      ensures OnlyMarkersMoved(old(memory), memory, elements, target)
      ensures !mutationMayHaveStarted ==> memory == old(memory) && writesCompleted == 0
      ensures outcome.Selected? ==> (mutationMayHaveStarted <==> outcome.writes > 0)
      ensures !AllVerified(old(memory), elements) ==> outcome.Threw? && !mutationMayHaveStarted
      ensures AllVerified(old(memory), elements) && Disjoint(elements) && faults == NO_FAULT ==> outcome.Selected?
    {
      var verified, changes, changed := VerifyAll(elements, target, faults, 0);
      if !verified {
        return Threw("native_element_or_selection_state_changed");
      }
      ghost var before := memory;
      if Disjoint(elements) {
        CellsOfAllWait(before, elements, target, changes, changed);
      }
      var written := WriteMarkers(changes, faults, |elements|);
      MovedCellsAreMarkers(before, memory, elements, target, changes, changed);
      if !written {
        return Threw("native_selection_marker_write_failed");
      }
      if Disjoint(elements) {
        PaintedAreMarked(before, elements, target, changes, changed);
      }
      var back := ReadBack(elements, target, faults, |elements| + |changes|);
      if !back {
        return Threw("native_selection_or_protected_record_readback_failed");
      }
      CountChanges(elements, target, changes, changed);
      return Selected(|changes|);
    }

    /** The second snapshot: one element of the kind is selected, at the requested index, and none of the other kind. */
    method CheckShown(shown: Shown, index: int) returns (ok: bool)
      ensures ok <==> OnlyShown(shown, index)
    {
      var count := 0;
      for n := 0 to |shown.chosen|
        invariant forall i :: 0 <= i < n ==> shown.chosen[i] ==> i == index
        invariant count == if 0 <= index < n && shown.chosen[index] then 1 else 0
      {
        if shown.chosen[n] {
          count := count + 1;
          if n != index {
            return false;
          }
        }
      }
      if count != 1 {
        return false;
      }
      for n := 0 to |shown.others|
        invariant forall i :: 0 <= i < n ==> !shown.others[i]
      {
        if shown.others[n] {
          return false;
        }
      }
      return true;
    }

    /**
    The whole operation. On success the snapshot was still true of the memory, every record is the old one
    with the markers the selection wants, and the second snapshot shows the requested element alone. However
    it ends, nothing but differing markers moved, and if no mutation may have started, nothing moved at all.
    With disjoint records and no fault it succeeds exactly when the request fits the snapshot, the snapshot is
    still true, and the second one shows it.
    */
    method SelectElement(g: Graph, r: Request, faults: Faults, shown: Shown) returns (outcome: Outcome)
      requires !mutationMayHaveStarted && writesCompleted == 0
      modifies this
      ensures outcome.Selected? ==>
                && Admissible(g, r) && Current(old(memory), g) && OnlyShown(shown, r.index)
                && AllMarked(memory, AllElements(g), Place(g, r))
                && outcome.writes == writesCompleted == |Differing(AllElements(g), Place(g, r))|
      ensures OnlyMarkersMoved(old(memory), memory, AllElements(g), Place(g, r))
      ensures !mutationMayHaveStarted ==> memory == old(memory) && writesCompleted == 0
      ensures outcome.Selected? ==> (mutationMayHaveStarted <==> outcome.writes > 0)
      ensures !Admissible(g, r) || !Current(old(memory), g) ==> outcome.Threw? && !mutationMayHaveStarted
      ensures !AsExpected(old(memory), g, r) ==> outcome.Threw? && !mutationMayHaveStarted
      ensures Disjoint(AllElements(g)) && faults == NO_FAULT ==>
                (outcome.Selected? <==> Admissible(g, r) && Current(old(memory), g) && OnlyShown(shown, r.index))
    {
      var chosen := Chosen(g, r);
      if r.index < 0 || r.index >= |chosen| {
        return Threw("selection_node_missing");
      }
      if chosen[r.index].record != r.expected {
        return Threw("selection_target_record_changed");
      }
      if Current(memory, g) && Admissible(g, r) {
        CurrentIsAsExpected(memory, g, r);
      }
      var elements := AllElements(g);
      if |elements| > MAX_ELEMENTS || |g.junctions| != 0 {
        return Threw("selection_network_shape_not_yet_verified");
      }
      if faults.refused {
        return Threw("selection_guardian_not_ready");
      }
      var member := VerifyMembership(g);
      if !member {
        return Threw("network_membership_changed_before_selection");
      }
      outcome := WriteSelection(elements, Place(g, r), faults);
      if faults.unbalanced {
        return Threw("own_ui_suspend_not_balanced");
      }
      if outcome.Selected? {
        var alone := CheckShown(shown, r.index);
        if !alone {
          return Threw("selected_node_not_unique");
        }
      }
    }

    /**
    Main: what is reported is true of the memory. "Failed" means that no byte moved; "unconfirmed" that
    nothing but differing markers may have; an applied selection that says it wrote nothing wrote nothing.
    */
    method Handle(g: Graph, r: Request, faults: Faults, shown: Shown) returns (reply: Reply)
      requires !mutationMayHaveStarted && writesCompleted == 0
      modifies this
      ensures reply.Failed? ==> memory == old(memory)
      ensures OnlyMarkersMoved(old(memory), memory, AllElements(g), Place(g, r))
      ensures reply.Applied? ==> Current(old(memory), g) && AllMarked(memory, AllElements(g), Place(g, r))
      ensures reply.Applied? ==> (reply.memoryWritten <==> memory != old(memory))
      ensures !Admissible(g, r) || !Current(old(memory), g) ==> reply == Failed
      ensures !AsExpected(old(memory), g, r) ==> reply == Failed && memory == old(memory)
    {
      var outcome := SelectElement(g, r, faults, shown);
      match outcome
      case Selected(writes) =>
        WritesMoveMemory(old(memory), memory, AllElements(g), Place(g, r));
        reply := Applied(writes, writes > 0);
      case Threw(_) => reply := if mutationMayHaveStarted then Unconfirmed(writesCompleted) else Failed;
    }
  }

  /** If some element differed and all are marked now, some byte has moved. */
  lemma WritesMoveMemory(before: map<int, Byte>, after: map<int, Byte>, elements: seq<Element>, target: int)
    requires AllVerified(before, elements) && AllMarked(after, elements, target)
    ensures |Differing(elements, target)| > 0 ==> after != before
  {
    if |Differing(elements, target)| > 0 {
      var i: nat :| i in Differing(elements, target);
      var e := elements[i];
      assert Verified(before, e) && Holds(after, e.address, Marked(e.record, i == target));
      NeedsWriteIs(e.record, i == target);
      var k := if e.record[MARKER_OFFSET] != MarkerValue(i == target) then MARKER_OFFSET else MARKER_OFFSET + 1;
      assert before[e.address + k] == e.record[k];
      assert after[e.address + k] == Marked(e.record, i == target)[k];
    }
  }

  lemma MovedCellsAreMarkers(
    before: map<int, Byte>, after: map<int, Byte>, elements: seq<Element>, target: int, changes: seq<Change>,
      changed: seq<nat>)
    requires ChangesAre(elements, target, changes, changed) && after.Keys == before.Keys
    requires forall a :: a in after ==>
               after[a] == before[a]
               || exists n :: 0 <= n < |changes| && CellOf(changes[n], a) && after[a] == changes[n].value
    ensures OnlyMarkersMoved(before, after, elements, target)
  {
    forall a | a in before && after[a] != before[a]
      ensures exists i :: 0 <= i < |elements| && MarkerCell(elements[i], a)
                          && NeedsWrite(elements[i].record, i == target) && after[a] == MarkerValue(i == target)
    {
      var n :| 0 <= n < |changes| && CellOf(changes[n], a) && after[a] == changes[n].value;
      assert changed[n] in changed && MarkerCell(elements[changed[n]], a);
    }
  }

  /** One change per differing element. */
  lemma CountChanges(elements: seq<Element>, target: int, changes: seq<Change>, changed: seq<nat>)
    requires ChangesAre(elements, target, changes, changed)
    ensures |changes| == |Differing(elements, target)|
  {
    assert Differing(elements, target) == Elements(changed);
    SizeOfIncreasing(changed);
  }

  function Elements(s: seq<nat>): set<nat> { set i | i in s }

  lemma {:induction false} SizeOfIncreasing(s: seq<nat>)
    requires forall m, n :: 0 <= m < n < |s| ==> s[m] < s[n]
    ensures |Elements(s)| == |s|
    decreases |s|
  {
    if s != [] {
      var rest, last := s[..|s| - 1], s[|s| - 1];
      SizeOfIncreasing(rest);
      assert s == rest + [last];
      assert Elements(s) == Elements(rest) + {last};
      assert last !in Elements(rest);
    }
  }
}
