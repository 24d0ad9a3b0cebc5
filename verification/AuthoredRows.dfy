/**
Reconciling a table of declarations with the rows a request asks for: matching members are
renamed and refilled in place, missing ones created, and the rest deleted. Names are compared
through `fold`, the case-insensitive comparison of the platform, which may be any function.
*/
module AuthoredRows {

  import opened Pairing

  datatype Name = Unnamed | Named(text: string)

  datatype Data = Data(dataType: string, classCode: int, initial: string, comment: string, line: int)

  datatype Member = Member(kind: int, name: Name, data: Data)

  /** One requested declaration. */
  datatype Row = Row(name: string, data: Data)

  const STRUCTURE_MEMBER := 20
  const LABEL_MEMBER := 30

  function KindFor(structure: bool): int { if structure then STRUCTURE_MEMBER else LABEL_MEMBER }

  /** A member once a row has been written to it: the class code belongs to labels only. */
  function Authored(m: Member, row: Row, structure: bool): Member {
    Member(m.kind, Named(row.name), if structure then row.data.(classCode := m.data.classCode) else row.data)
  }

  /** A member as the vendor creates it. */
  function Fresh(kind: int): Member { Member(kind, Unnamed, Data("", 0, "", "", 0)) }

  /** What a row is written over: the member that was there, or a fresh one. */
  function Origin(before: map<nat, Member>, id: nat, structure: bool): Member {
    if id in before then before[id] else Fresh(KindFor(structure))
  }

  predicate DistinctRows(fold: string -> string, rows: seq<Row>) {
    forall i, j :: 0 <= i < j < |rows| ==> fold(rows[i].name) != fold(rows[j].name)
  }

  ghost predicate HasMember(fold: string -> string, members: map<nat, Member>, name: string) {
    exists id :: id in members && members[id].name.Named? && fold(members[id].name.text) == fold(name)
  }

  /** Row `j` ended up in the member `id`: the one that had its name before, or a new one if there was none. */
  ghost predicate Placed(
    fold: string -> string, before: map<nat, Member>, after: map<nat, Member>, row: Row, structure: bool, id: nat)
  {
    && id in after && after[id] == Authored(Origin(before, id, structure), row, structure)
    && (if id in before then before[id].name.Named? && fold(before[id].name.text) == fold(row.name)
        else !HasMember(fold, before, row.name))
  }

  /** The table holds exactly the requested members, row by row in the members `ids`. */
  ghost predicate Reconciled(
    fold: string -> string, before: map<nat, Member>, after: map<nat, Member>, rows: seq<Row>, structure: bool,
      ids: seq<nat>)
  {
    && |ids| == |rows| && NoDup(ids) && after.Keys == IdsOf(ids)
    && forall j :: 0 <= j < |rows| ==> Placed(fold, before, after, rows[j], structure, ids[j])
  }

  /** What holds after the first rows; `ids` says where they went. */
  ghost predicate Halfway(
    fold: string -> string, before: map<nat, Member>, now: map<nat, Member>, existing: map<string, nat>,
    rows: seq<Row>, structure: bool, ids: seq<nat>)
  {
    && |ids| <= |rows| && NoDup(ids)
    && IndexOf(fold, before, existing)
    && now.Keys == before.Keys + IdsOf(ids)
    && (forall j :: 0 <= j < |ids| ==> Placed(fold, before, now, rows[j], structure, ids[j]))
    && (forall id :: id in before && id !in ids ==> now[id] == before[id])
  }

  /** The next row has a name of its own, so writing it clashes with nothing and overwrites no earlier row. */
  lemma NextRowFits(
    fold: string -> string, before: map<nat, Member>, now: map<nat, Member>, existing: map<string, nat>,
    rows: seq<Row>, structure: bool, ids: seq<nat>)
    requires Halfway(fold, before, now, existing, rows, structure, ids) && |ids| < |rows|
    requires forall j :: 0 <= j < |ids| ==> fold(rows[j].name) != fold(rows[|ids|].name)
    ensures var f := fold(rows[|ids|].name);
            && (f in existing ==> existing[f] in now && existing[f] !in ids)
            && forall other :: other in now && now[other].name.Named? && (f in existing ==> other != existing[f]) ==>
                 fold(now[other].name.text) != f
  {
    var f := fold(rows[|ids|].name);
    forall other | other in now && other in ids
      ensures now[other].name.Named? && fold(now[other].name.text) != f && (f in existing ==> other != existing[f])
    {
      var j :| 0 <= j < |ids| && ids[j] == other;
      assert Placed(fold, before, now, rows[j], structure, ids[j]);
    }
  }

  /** Writing the next row carries the bookkeeping one row further. */
  lemma NextRowPlaced(
    fold: string -> string, before: map<nat, Member>, now: map<nat, Member>, next: map<nat, Member>,
    existing: map<string, nat>, rows: seq<Row>, structure: bool, ids: seq<nat>, id: nat)
    requires Halfway(fold, before, now, existing, rows, structure, ids) && |ids| < |rows|
    requires id in next && next == now[id := next[id]] && id !in ids
    requires next[id] == Authored(Origin(now, id, structure), rows[|ids|], structure)
    requires if fold(rows[|ids|].name) in existing then id == existing[fold(rows[|ids|].name)] else id !in now
    ensures Halfway(fold, before, next, existing, rows, structure, ids + [id])
  {
    var all := ids + [id];
    assert IdsOf(all) == IdsOf(ids) + {id};
    assert Origin(now, id, structure) == Origin(before, id, structure);
    forall j | 0 <= j < |all| ensures Placed(fold, before, next, rows[j], structure, all[j]) {
      if j < |ids| {
        assert Placed(fold, before, now, rows[j], structure, ids[j]);
      }
    }
  }

  ghost predicate SelectedNames(fold: string -> string, rows: seq<Row>, selected: set<string>) {
    forall f :: f in selected <==> exists i :: 0 <= i < |rows| && fold(rows[i].name) == f
  }

  lemma SelectOne(fold: string -> string, rows: seq<Row>, n: nat, selected: set<string>)
    requires n < |rows| && SelectedNames(fold, rows[..n], selected)
    ensures SelectedNames(fold, rows[..n + 1], selected + {fold(rows[n].name)})
  {
    var more := rows[..n + 1];
    assert more[n] == rows[n] && forall i :: 0 <= i < n ==> more[i] == rows[..n][i];
    forall f | f in selected + {fold(rows[n].name)} ensures exists i :: 0 <= i < |more| && fold(more[i].name) == f {
      if f in selected {
        var i :| 0 <= i < n && fold(rows[..n][i].name) == f;
        assert fold(more[i].name) == f;
      }
    }
  }

  lemma NewName(fold: string -> string, rows: seq<Row>, n: nat, selected: set<string>)
    requires n < |rows| && SelectedNames(fold, rows[..n], selected) && DistinctRows(fold, rows[..n])
    requires fold(rows[n].name) !in selected
    ensures forall i :: 0 <= i < n ==> fold(rows[i].name) != fold(rows[n].name)
    ensures DistinctRows(fold, rows[..n + 1])
  {
    forall i | 0 <= i < n ensures fold(rows[i].name) != fold(rows[n].name) {
      assert fold(rows[..n][i].name) in selected;
    }
  }

  lemma RepeatedName(fold: string -> string, rows: seq<Row>, n: nat, selected: set<string>)
    requires n < |rows| && SelectedNames(fold, rows[..n], selected) && fold(rows[n].name) in selected
    ensures !DistinctRows(fold, rows)
  {
    var i :| 0 <= i < n && fold(rows[..n][i].name) == fold(rows[n].name);
    assert rows[..n][i] == rows[i];
  }

  /** Once the unselected members are gone, only the rows' members are left. */
  lemma RestIsReconciled(
    fold: string -> string, before: map<nat, Member>, full: map<nat, Member>, after: map<nat, Member>,
    existing: map<string, nat>, rows: seq<Row>, structure: bool, ids: seq<nat>, selected: set<string>)
    requires |ids| == |rows| && Halfway(fold, before, full, existing, rows, structure, ids)
    requires SelectedNames(fold, rows, selected)
    requires after == full - (set id | id in before && fold(before[id].name.text) !in selected)
    ensures Reconciled(fold, before, after, rows, structure, ids)
  {
    forall id | id in before ensures id in ids <==> fold(before[id].name.text) in selected {
      if id in ids {
        var j :| 0 <= j < |ids| && ids[j] == id;
        assert Placed(fold, before, full, rows[j], structure, ids[j]);
      }
      if fold(before[id].name.text) in selected {
        var j :| 0 <= j < |rows| && fold(rows[j].name) == fold(before[id].name.text);
        assert Placed(fold, before, full, rows[j], structure, ids[j]);
        assert HasMember(fold, before, rows[j].name);
        assert ids[j] in ids;
      }
    }
    forall j | 0 <= j < |ids| ensures Placed(fold, before, after, rows[j], structure, ids[j]) {
      assert ids[j] in ids;
      assert Placed(fold, before, full, rows[j], structure, ids[j]);
    }
  }

  /**
  The member has the row's name and data. Only the class code can be another: a structure's member keeps the one it
  had, or has none if it is new, and a label takes the row's.
  */
  predicate AsRequested(before: map<nat, Member>, after: map<nat, Member>, id: nat, row: Row, structure: bool) {
    && id in after && after[id].name == Named(row.name)
    && after[id].kind == (if id in before then before[id].kind else if structure then 20 else 30)
    && after[id].data.dataType == row.data.dataType && after[id].data.initial == row.data.initial
    && after[id].data.comment == row.data.comment && after[id].data.line == row.data.line
    && after[id].data.classCode == (if !structure then row.data.classCode
                                    else if id in before then before[id].data.classCode else 0)
  }

  /**
  What a reconciled table is: a member that had a requested name is still there under the
  requested spelling, any other old member is gone, and the members are the rows', one for one.
  */
  lemma ReconciledMembers(
    fold: string -> string, before: map<nat, Member>, after: map<nat, Member>, rows: seq<Row>, structure: bool,
      ids: seq<nat>,
    id: nat)
    requires Reconciled(fold, before, after, rows, structure, ids) && DistinctRows(fold, rows)
    requires forall a, b :: a in before && b in before && a != b && before[a].name.Named? && before[b].name.Named? ==>
               fold(before[a].name.text) != fold(before[b].name.text)
    ensures id in before && before[id].name.Named? ==>
              (id in after <==> exists j :: 0 <= j < |rows| && fold(rows[j].name) == fold(before[id].name.text))
    ensures |ids| == |rows| && NoDup(ids) && (id in after <==> id in ids)
    ensures forall j :: 0 <= j < |rows| ==> AsRequested(before, after, ids[j], rows[j], structure)
    ensures id in before && id in after ==> fold(after[id].name.text) == fold(before[id].name.text)
  {
    forall j | 0 <= j < |rows|
      ensures AsRequested(before, after, ids[j], rows[j], structure)
    {
      assert Placed(fold, before, after, rows[j], structure, ids[j]);
    }
    if id in after {
      var j :| 0 <= j < |ids| && ids[j] == id;
      assert Placed(fold, before, after, rows[j], structure, ids[j]);
    }
    if id in before && before[id].name.Named? {
      forall j | 0 <= j < |rows| && fold(rows[j].name) == fold(before[id].name.text)
        ensures id in after
      {
        assert Placed(fold, before, after, rows[j], structure, ids[j]);
        assert HasMember(fold, before, rows[j].name);
      }
    }
  }

  /** The listed members whose names were not asked for. */
  function Unselected(
    fold: string -> string, listed: seq<nat>, start: map<nat, Member>, selected: set<string>): set<nat>
    requires IdsOf(listed) <= start.Keys && forall id :: id in start ==> start[id].name.Named?
  {
    set id | id in listed && fold(start[id].name.text) !in selected
  }

  lemma UnselectedNext(fold: string -> string, listed: seq<nat>, n: nat, start: map<nat, Member>, selected: set<string>)
    requires IdsOf(listed) <= start.Keys && forall id :: id in start ==> start[id].name.Named?
    requires n < |listed| && listed[n] in start
    ensures Unselected(fold, listed[..n + 1], start, selected)
            == Unselected(fold, listed[..n], start, selected)
               + if fold(start[listed[n]].name.text) !in selected then {listed[n]} else {}
  {
    assert listed[..n + 1] == listed[..n] + [listed[n]];
  }

  datatype Result = Done | DifferentMembers | DuplicateMember | CountDiffers

  function IdsOf(s: seq<nat>): set<nat> { set x | x in s }

  lemma {:induction false} NoDupSize(s: seq<nat>)
    requires NoDup(s)
    ensures |IdsOf(s)| == |s|
    decreases |s|
  {
    if s != [] {
      var rest, last := s[..|s| - 1], s[|s| - 1];
      NoDupSize(rest);
      assert s == rest + [last];
      assert IdsOf(s) == IdsOf(rest) + {last};
      assert last !in IdsOf(rest);
    }
  }

  /** The vendor's table: members by identity, listed in `children`, named members distinct. */
  class Table {
    const fold: string -> string
    var children: seq<nat>
    var members: map<nat, Member>

    ghost predicate Clashes(id: nat, name: string)
      reads this
    {
      exists other :: other in members && other != id && members[other].name.Named?
                      && fold(members[other].name.text) == fold(name)
    }

    /** No two named members have the same name up to case. */
    ghost predicate DistinctNames()
      reads this
    {
      forall id :: id in members && members[id].name.Named? ==> !Clashes(id, members[id].name.text)
    }

    /** The members are exactly the listed ones. */
    ghost predicate Listed()
      reads this
    {
      NoDup(children) && members.Keys == IdsOf(children)
    }

    ghost predicate Valid()
      reads this
    {
      Listed() && DistinctNames()
    }

    method Create(kind: int) returns (id: nat)
      requires Valid()
      modifies this
      ensures Valid() && id !in old(members)
      ensures children == old(children) + [id]
      ensures members == old(members)[id := Fresh(kind)]
    {
      id := 0;
      for n := 0 to |children|
        invariant forall m :: 0 <= m < n ==> children[m] < id
      {
        if children[n] >= id {
          id := children[n] + 1;
        }
      }
      children := children + [id];
      members := members[id := Fresh(kind)];
      assert forall other :: other in old(members) ==> members[other] == old(members)[other];
    }

    /** The vendor refuses a name that another member has; callers never ask for one. */
    method SetName(id: nat, name: string)
      requires Valid() && id in members && !Clashes(id, name)
      modifies `members
      ensures Valid() && members == old(members)[id := old(members)[id].(name := Named(name))]
    {
      members := members[id := members[id].(name := Named(name))];
      assert forall other :: other in members && other != id ==> members[other] == old(members)[other];
    }

    method SetData(id: nat, data: Data)
      requires Valid() && id in members
      modifies `members
      ensures Valid() && members == old(members)[id := old(members)[id].(data := data)]
    {
      members := members[id := members[id].(data := data)];
      assert forall other :: other in members ==> members[other].name == old(members)[other].name;
    }

    method Delete(id: nat)
      requires Valid() && id in members
      modifies this
      ensures Valid() && members == old(members) - {id}
    {
      var k := 0;
      while children[k] != id
        invariant 0 <= k < |children| && id !in children[..k]
        decreases |children| - k
      {
        k := k + 1;
      }
      children := children[..k] + children[k + 1..];
      members := members - {id};
      assert forall other :: other in members ==> members[other] == old(members)[other];
    }

    /** First loop: the existing members by folded name, or nothing if one is of another kind or repeats a name. */
    method Existing(kind: int) returns (ok: bool, existing: map<string, nat>)
      requires Listed()
      ensures ok <==> Usable(members, kind) && DistinctNames()
      ensures ok ==> IndexOf(fold, members, existing)
    {
      existing := map[];
      for n := 0 to |children|
        invariant forall m :: 0 <= m < n ==> members[children[m]].kind == kind && members[children[m]].name.Named?
        invariant forall m :: 0 <= m < n ==> fold(members[children[m]].name.text) in existing
                                             && existing[fold(members[children[m]].name.text)] == children[m]
        invariant forall f :: f in existing ==>
                    existing[f] in children[..n] && members[existing[f]].name.Named?
                    && fold(members[existing[f]].name.text) == f
      {
        var id := children[n];
        assert id in members;
        var m := members[id];
        if m.kind != kind || m.name.Unnamed? {
          return false, map[];
        }
        if fold(m.name.text) in existing {
          var other := existing[fold(m.name.text)];
          assert other in children && other != id;
          assert Clashes(id, m.name.text);
          return false, map[];
        }
        existing := existing[fold(m.name.text) := id];
      }
      forall id | id in members
        ensures !Clashes(id, members[id].name.text)
      {
        assert id in children;
        forall other | other in members && other != id
          ensures fold(members[other].name.text) != fold(members[id].name.text)
        {
          assert other in children;
        }
      }
      return true, existing;
    }

    /** One row: the member of that name, or a new one, renamed and refilled. */
    method Apply(row: Row, structure: bool, existing: map<string, nat>) returns (id: nat)
      requires Valid()
      requires fold(row.name) in existing ==> existing[fold(row.name)] in members
      requires forall other :: other in members && members[other].name.Named?
                               && (fold(row.name) in existing ==> other != existing[fold(row.name)])
                               ==> fold(members[other].name.text) != fold(row.name)
      modifies this
      ensures Valid()
      ensures fold(row.name) in existing ==> id == existing[fold(row.name)]
      ensures fold(row.name) !in existing ==> id !in old(members)
      ensures id in members && IdsOf(children) == IdsOf(old(children)) + {id}
      ensures members == old(members)[id := members[id]]
      ensures members[id] == Authored(Origin(old(members), id, structure), row, structure)
    {
      if fold(row.name) in existing {
        id := existing[fold(row.name)];
      } else {
        id := Create(KindFor(structure));
      }
      SetName(id, row.name);
      SetData(id, if structure then row.data.(classCode := members[id].data.classCode) else row.data);
    }

    method PlaceRow(
      row: Row, ghost rows: seq<Row>, structure: bool, existing: map<string, nat>, ghost before: map<nat, Member>,
        ghost ids: seq<nat>)
      returns (id: nat)
      requires |ids| < |rows| && row == rows[|ids|]
      requires Valid() && Halfway(fold, before, members, existing, rows, structure, ids)
      requires forall j :: 0 <= j < |ids| ==> fold(rows[j].name) != fold(row.name)
      modifies this
      ensures Valid() && Halfway(fold, before, members, existing, rows, structure, ids + [id])
    {
      NextRowFits(fold, before, members, existing, rows, structure, ids);
      ghost var now := members;
      id := Apply(row, structure, existing);
      NextRowPlaced(fold, before, now, members, existing, rows, structure, ids, id);
    }

    /** Second loop: every row in its member, until a name repeats. */
    method PlaceRows(rows: seq<Row>, structure: bool, existing: map<string, nat>)
      returns (ok: bool, selected: set<string>, ghost ids: seq<nat>)
      requires Valid() && IndexOf(fold, members, existing)
      modifies this
      ensures Valid() && (ok <==> DistinctRows(fold, rows))
      ensures ok ==> |ids| == |rows| && Halfway(fold, old(members), members, existing, rows, structure, ids)
      ensures ok ==> SelectedNames(fold, rows, selected)
    {
      ids, selected := [], {};
      for n := 0 to |rows|
        invariant |ids| == n && Valid() && Halfway(fold, old(members), members, existing, rows, structure, ids)
        invariant SelectedNames(fold, rows[..n], selected)
        invariant DistinctRows(fold, rows[..n])
      {
        if fold(rows[n].name) in selected {
          RepeatedName(fold, rows, n, selected);
          return false, selected, ids;
        }
        NewName(fold, rows, n, selected);
        var id := PlaceRow(rows[n], rows, structure, existing, old(members), ids);
        ids := ids + [id];
        SelectOne(fold, rows, n, selected);
        selected := selected + {fold(rows[n].name)};
      }
      assert rows[..|rows|] == rows;
      return true, selected, ids;
    }

    /** Third loop: delete the listed members whose names were not asked for. */
    method RemoveOthers(listed: seq<nat>, start: map<nat, Member>, selected: set<string>)
      requires Valid() && NoDup(listed) && IdsOf(listed) <= members.Keys && start.Keys == IdsOf(listed)
      requires forall id :: id in start ==> start[id].name.Named?
      modifies this
      ensures Valid()
      ensures members == old(members) - (set id | id in start && fold(start[id].name.text) !in selected)
    {
      for n := 0 to |listed|
        invariant Valid()
        invariant members == old(members) - Unselected(fold, listed[..n], start, selected)
      {
        assert listed[n] in listed && listed[n] !in listed[..n];
        UnselectedNext(fold, listed, n, start, selected);
        if fold(start[listed[n]].name.text) !in selected {
          Delete(listed[n]);
        }
      }
      assert listed[..|listed|] == listed;
    }

    /** AuthoredRows: on success the table is exactly the request; the final count check never fires. */
    method Reconcile(rows: seq<Row>, structure: bool) returns (result: Result, ghost ids: seq<nat>)
      requires Listed()
      modifies this
      ensures Listed() && (result == Done ==> Valid())
      ensures result == DifferentMembers <==> !Usable(old(members), KindFor(structure)) || !old(DistinctNames())
      ensures result == Done <==>
          Usable(old(members), KindFor(structure)) && old(DistinctNames())
          && DistinctRows(fold, rows)
      ensures result == Done ==> Reconciled(fold, old(members), members, rows, structure, ids)
      ensures result == DifferentMembers ==> members == old(members) && children == old(children)
      ensures result != CountDiffers
    {
      ids := [];
      var usable, existing := Existing(KindFor(structure));
      if !usable {
        return DifferentMembers, ids;
      }
      var listed, start := children, members;
      var placed, selected;
      placed, selected, ids := PlaceRows(rows, structure, existing);
      if !placed {
        return DuplicateMember, ids;
      }
      ghost var full := members;
      RemoveOthers(listed, start, selected);
      RestIsReconciled(fold, start, full, members, existing, rows, structure, ids, selected);
      NoDupSize(children);
      NoDupSize(ids);
      if |children| != |rows| {
        return CountDiffers, ids;
      }
      return Done, ids;
    }
  }

  /** Every member is a named one of the table's kind. */
  ghost predicate Usable(members: map<nat, Member>, kind: int) {
    forall id :: id in members ==> members[id].kind == kind && members[id].name.Named?
  }

  /** `existing` finds each member under its folded name, and nothing else. */
  ghost predicate IndexOf(fold: string -> string, members: map<nat, Member>, existing: map<string, nat>) {
    && (forall id :: id in members ==>
          members[id].name.Named? && fold(members[id].name.text) in existing
          && existing[fold(members[id].name.text)] == id)
    && (forall f :: f in existing ==>
          existing[f] in members && members[existing[f]].name.Named? && fold(members[existing[f]].name.text) == f)
  }
}
