/**
What a selection asks of the memory and what it leaves there, told by addresses and bytes: the layout, the bounds
and the marker bytes in plain numbers, and pointers as chains of words.
*/
module SelectionMeaning {

  import opened Basics
  import opened Selection

  // ---------- before ----------

  /** A range that may be read, and is there. */
  predicate Mapped(memory: map<int, Byte>, address: int, count: nat) {
    && 65536 <= address && address + count <= 2147483648 && count <= 16777216
    && forall a :: address <= a < address + count ==> a in memory
  }

  /** The four bytes from the address on spell the word, the lowest first. */
  predicate Spells(memory: map<int, Byte>, address: int, word: int) {
    && Mapped(memory, address, 4)
    && word == memory[address] as int + 256 * (memory[address + 1] as int) + 65536 * (memory[address + 2] as int)
               + 16777216 * (memory[address + 3] as int)
  }

  /** The words met on the way: the first at the start, each next one at an offset from the one before. */
  predicate Way(memory: map<int, Byte>, start: int, offsets: seq<nat>, words: seq<nat>) {
    && |words| == |offsets| + 1
    && Spells(memory, start, words[0])
    && forall k :: 0 <= k < |offsets| ==> Spells(memory, words[k] + offsets[k], words[k + 1])
  }

  ghost predicate Leads(memory: map<int, Byte>, link: Link) {
    exists words: seq<nat> :: Way(memory, link.start, link.offsets, words) && words[|words| - 1] == link.value
  }

  /** A record of 18 bytes or more, as it was, with markers that are 0 or 1. */
  predicate RecordStands(memory: map<int, Byte>, e: Element) {
    && |e.record| >= 18 && e.record[16] <= 1 && e.record[17] <= 1
    && Mapped(memory, e.address, |e.record|) && BytesAt(memory, e.address, e.record)
  }

  /** The request names a node or a wire by index and bytes, and nothing the snapshot saw has changed. */
  ghost predicate Stands(memory: map<int, Byte>, g: Graph, r: Request) {
    && (if r.wire then 0 <= r.index < |g.wires| && g.wires[r.index].record == r.expected
        else 0 <= r.index < |g.nodes| && g.nodes[r.index].record == r.expected)
    && |g.junctions| == 0 && |g.nodes| + |g.wires| <= 4096
    && (forall i :: 0 <= i < |g.nodes| ==> RecordStands(memory, g.nodes[i]))
    && (forall i :: 0 <= i < |g.wires| ==> RecordStands(memory, g.wires[i]))
    && (forall i :: 0 <= i < |g.links| ==> Leads(memory, g.links[i]))
    && (forall n :: 0 <= n < g.count ==> Mapped(memory, g.editors + 4 * n, 4))
    && exists n :: 0 <= n < g.count && Spells(memory, g.editors + 4 * n, g.editor)
  }

  lemma WordIsSpelt(memory: map<int, Byte>, address: nat, word: int)
    ensures Spells(memory, address, word) <==> word >= 0 && Word(memory, address) == Some(word as nat)
    ensures Word(memory, address).Some? ==> Spells(memory, address, Word(memory, address).value)
  {
    MappedIsReadable(memory, address, 4);
  }

  lemma MappedIsReadable(memory: map<int, Byte>, address: int, count: nat)
    ensures Mapped(memory, address, count) <==> Readable(memory, address, count)
  {
  }

  lemma {:induction false} WayIsFollowed(memory: map<int, Byte>, start: nat, offsets: seq<nat>, value: nat)
    ensures Follow(memory, start, offsets) == Some(value) <==>
              exists words: seq<nat> :: Way(memory, start, offsets, words) && words[|words| - 1] == value
    decreases |offsets|
  {
    if offsets == [] {
      WordIsSpelt(memory, start, value);
      if Spells(memory, start, value) {
        assert Way(memory, start, offsets, [value]) && [value][|[value]| - 1] == value;
      }
    } else {
      if Follow(memory, start, offsets) == Some(value) {
        FollowedIsWay(memory, start, offsets, value);
      }
      if words: seq<nat> :| Way(memory, start, offsets, words) && words[|words| - 1] == value {
        WordIsSpelt(memory, start, words[0]);
        WayIsFollowed(memory, words[0] + offsets[0], offsets[1..], value);
        WayGoesOn(memory, start, offsets, words);
      }
    }
  }

  lemma WayGoesOn(memory: map<int, Byte>, start: nat, offsets: seq<nat>, words: seq<nat>)
    requires offsets != [] && Way(memory, start, offsets, words)
    ensures Way(memory, words[0] + offsets[0], offsets[1..], words[1..])
    ensures words[1..][|words[1..]| - 1] == words[|words| - 1]
  {
    forall k | 0 <= k < |offsets[1..]|
      ensures Spells(memory, words[1..][k] + offsets[1..][k], words[1..][k + 1])
    {
      assert Spells(memory, words[k + 1] + offsets[k + 1], words[k + 2]);
    }
  }

  lemma {:induction false} FollowedIsWay(memory: map<int, Byte>, start: nat, offsets: seq<nat>, value: nat)
    requires offsets != [] && Follow(memory, start, offsets) == Some(value)
    ensures exists words: seq<nat> :: Way(memory, start, offsets, words) && words[|words| - 1] == value
    decreases |offsets|, 0
  {
    var first := Word(memory, start).value;
    WordIsSpelt(memory, start, first);
    WayIsFollowed(memory, first + offsets[0], offsets[1..], value);
    var rest: seq<nat> :| Way(memory, first + offsets[0], offsets[1..], rest) && rest[|rest| - 1] == value;
    WayBegins(memory, start, offsets, first, rest);
    assert Way(memory, start, offsets, [first] + rest) && ([first] + rest)[|rest|] == value;
  }

  lemma WayBegins(memory: map<int, Byte>, start: nat, offsets: seq<nat>, first: nat, rest: seq<nat>)
    requires offsets != [] && Spells(memory, start, first) && Way(memory, first + offsets[0], offsets[1..], rest)
    ensures Way(memory, start, offsets, [first] + rest)
  {
    var words := [first] + rest;
    forall k | 0 <= k < |offsets|
      ensures Spells(memory, words[k] + offsets[k], words[k + 1])
    {
      if k > 0 {
        assert Spells(memory, rest[k - 1] + offsets[1..][k - 1], rest[k]);
      }
    }
  }

  lemma RecordIsVerified(memory: map<int, Byte>, e: Element)
    ensures RecordStands(memory, e) <==> Verified(memory, e)
  {
    MappedIsReadable(memory, e.address, |e.record|);
    if RecordStands(memory, e) {
      forall a | e.address <= a < e.address + |e.record|
        ensures memory[a] == e.record[a - e.address]
      {
        assert memory[e.address + (a - e.address)] == e.record[a - e.address];
      }
    }
    if Verified(memory, e) {
      forall k | 0 <= k < |e.record|
        ensures e.address + k in memory && memory[e.address + k] == e.record[k]
      {
        assert memory[e.address + k] == e.record[e.address + k - e.address];
      }
    }
  }

  lemma EditorsAreListed(memory: map<int, Byte>, g: Graph)
    ensures EditorListed(memory, g) <==>
              && (forall n :: 0 <= n < g.count ==> Mapped(memory, g.editors + 4 * n, 4))
              && exists n :: 0 <= n < g.count && Spells(memory, g.editors + 4 * n, g.editor)
  {
    forall n | 0 <= n < g.count
      ensures Word(memory, g.editors + 4 * n).Some? <==> Mapped(memory, g.editors + 4 * n, 4)
      ensures Word(memory, g.editors + 4 * n) == Some(g.editor) <==> Spells(memory, g.editors + 4 * n, g.editor)
    {
      WordIsSpelt(memory, g.editors + 4 * n, g.editor);
      MappedIsReadable(memory, g.editors + 4 * n, 4);
    }
  }

  lemma LinksLead(memory: map<int, Byte>, g: Graph)
    ensures (forall i :: 0 <= i < |g.links| ==> Leads(memory, g.links[i])) <==>
              forall i :: 0 <= i < |g.links| ==> LinkHolds(memory, g.links[i])
  {
    forall i | 0 <= i < |g.links|
      ensures Leads(memory, g.links[i]) <==> LinkHolds(memory, g.links[i])
    {
      WayIsFollowed(memory, g.links[i].start, g.links[i].offsets, g.links[i].value);
    }
  }

  lemma RecordsStand(memory: map<int, Byte>, g: Graph)
    requires g.junctions == []
    ensures (forall i :: 0 <= i < |AllElements(g)| ==> Verified(memory, AllElements(g)[i])) <==>
              && (forall i :: 0 <= i < |g.nodes| ==> RecordStands(memory, g.nodes[i]))
              && (forall i :: 0 <= i < |g.wires| ==> RecordStands(memory, g.wires[i]))
  {
    var all := AllElements(g);
    forall i | 0 <= i < |all|
      ensures RecordStands(memory, all[i]) <==> Verified(memory, all[i])
    {
      RecordIsVerified(memory, all[i]);
    }
    assert forall i :: 0 <= i < |g.nodes| ==> all[i] == g.nodes[i];
    assert forall i :: 0 <= i < |g.wires| ==> all[|g.nodes| + i] == g.wires[i];
    assert forall i :: |g.nodes| <= i < |all| ==> all[i] == g.wires[i - |g.nodes|];
  }

  /** What a selection needs of the memory, and no more. */
  lemma StandsPlainly(memory: map<int, Byte>, g: Graph, r: Request)
    ensures Stands(memory, g, r) <==> Admissible(g, r) && Current(memory, g)
  {
    LinksLead(memory, g);
    EditorsAreListed(memory, g);
    if g.junctions == [] {
      RecordsStand(memory, g);
      assert |AllElements(g)| == |g.nodes| + |g.wires|;
    }
  }

  // ---------- after ----------

  /** The two marker bytes of an element are both 1 or both 0. */
  predicate Shows(memory: map<int, Byte>, e: Element, selected: bool) {
    && e.address + 16 in memory && e.address + 17 in memory
    && memory[e.address + 16] == memory[e.address + 17] == if selected then 1 else 0
  }

  /** A byte of the memory is the first or the second marker of some node or wire. */
  predicate IsMarker(g: Graph, a: int) {
    || (exists i :: 0 <= i < |g.nodes| && (a == g.nodes[i].address + 16 || a == g.nodes[i].address + 17))
    || (exists i :: 0 <= i < |g.wires| && (a == g.wires[i].address + 16 || a == g.wires[i].address + 17))
  }

  /**
  What a selection leaves: the requested element is marked, every other node and wire is not, and a byte that
  has moved is a marker; all other bytes of the memory, the rest of every record among them, are as they were.
  */
  lemma SelectedPlainly(before: map<int, Byte>, after: map<int, Byte>, g: Graph, r: Request)
    requires Admissible(g, r) && AllMarked(after, AllElements(g), Place(g, r))
    requires OnlyMarkersMoved(before, after, AllElements(g), Place(g, r))
    ensures forall i :: 0 <= i < |g.nodes| ==> Shows(after, g.nodes[i], !r.wire && i == r.index)
    ensures forall i :: 0 <= i < |g.wires| ==> Shows(after, g.wires[i], r.wire && i == r.index)
    ensures after.Keys == before.Keys
    ensures forall a :: a in before && !IsMarker(g, a) ==> after[a] == before[a]
  {
    AllShow(after, g, r, AllElements(g));
    MovedAreMarkers(before, after, g, r);
  }

  lemma AllShow(after: map<int, Byte>, g: Graph, r: Request, all: seq<Element>)
    requires Admissible(g, r) && all == AllElements(g) && AllMarked(after, all, Place(g, r))
    ensures forall i :: 0 <= i < |g.nodes| ==> Shows(after, g.nodes[i], !r.wire && i == r.index)
    ensures forall i :: 0 <= i < |g.wires| ==> Shows(after, g.wires[i], r.wire && i == r.index)
  {
    forall i | 0 <= i < |g.nodes|
      ensures Shows(after, g.nodes[i], !r.wire && i == r.index)
    {
      ElementShows(after, all, i, Place(g, r));
      assert all[i] == g.nodes[i];
    }
    forall i | 0 <= i < |g.wires|
      ensures Shows(after, g.wires[i], r.wire && i == r.index)
    {
      ElementShows(after, all, |g.nodes| + i, Place(g, r));
      assert all[|g.nodes| + i] == g.wires[i];
    }
  }

  lemma ElementShows(after: map<int, Byte>, all: seq<Element>, i: nat, place: nat)
    requires i < |all| && AllMarked(after, all, place)
    ensures Shows(after, all[i], i == place)
  {
    var wanted := Marked(all[i].record, i == place);
    assert Holds(after, all[i].address, wanted);
    assert after[all[i].address + 16] == wanted[16] && after[all[i].address + 17] == wanted[17];
  }

  lemma MovedAreMarkers(before: map<int, Byte>, after: map<int, Byte>, g: Graph, r: Request)
    requires Admissible(g, r) && OnlyMarkersMoved(before, after, AllElements(g), Place(g, r))
    ensures after.Keys == before.Keys
    ensures forall a :: a in before && !IsMarker(g, a) ==> after[a] == before[a]
  {
    var all := AllElements(g);
    forall a | a in before && after[a] != before[a]
      ensures IsMarker(g, a)
    {
      var i :| 0 <= i < |all| && MarkerCell(all[i], a);
      assert i < |g.nodes| ==> all[i] == g.nodes[i];
      assert i >= |g.nodes| ==> all[i] == g.wires[i - |g.nodes|];
    }
  }
}
