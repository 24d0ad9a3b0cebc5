/**
What the checks on the task inventories come to, told field by field on the tasks and rows themselves, without
the keys, the identities and the counts that the checks go by.
*/
module TaskMeaning {

  import opened Basics
  import opened Pairing
  import opened WorkspaceTasks

  // ---------- an inventory that can be read ----------

  predicate ElementStands(ws: Workspace, task: Id, element: Id) {
    ws.kind(element) == 12 && ws.parent(element) == task && ws.line(element) >= 1
  }

  predicate ElementsStand(ws: Workspace, task: Id, elements: seq<Id>) {
    && (forall i :: 0 <= i < |elements| ==> ElementStands(ws, task, elements[i]))
    && forall i, j :: 0 <= i < j < |elements| ==> ws.line(elements[i]) != ws.line(elements[j])
  }

  predicate TaskStands(ws: Workspace, resource: Id, task: Id) {
    ws.kind(task) == 10 && ws.parent(task) == resource && ElementsStand(ws, task, ws.children(task))
  }

  predicate ResourceStands(ws: Workspace, collection: Id, resource: Id) {
    && ws.kind(resource) == 8 && ws.parent(resource) == collection
    && forall task :: task in ws.children(resource) ==> TaskStands(ws, resource, task)
  }

  /** The tree below the project's collection of resources: every kind and every parent, and the lines of each task. */
  predicate TreeStands(ws: Workspace, project: Id, collection: Id) {
    && ws.kind(collection) == 7 && ws.parent(collection) == project
    && forall resource :: resource in ws.children(collection) ==> ResourceStands(ws, collection, resource)
  }

  /** The task says what the tree says, row by row. */
  predicate Mirrors(ws: Workspace, t: Task) {
    && t.resource == ws.parent(t.task) && t.resourceName == ws.name(ws.parent(t.task)) && t.taskName == ws.name(t.task)
    && t.event == ws.event(t.task) && t.interval == ws.interval(t.task) && t.priority == ws.priority(t.task)
    && |t.rows| == |ws.children(t.task)|
    && forall k :: 0 <= k < |t.rows| ==> RowMirrors(ws, t.rows[k], ws.children(t.task)[k])
  }

  predicate RowMirrors(ws: Workspace, row: Row, element: Id) {
    row.id == element && row.name == ws.name(element) && row.line == ws.line(element)
  }

  lemma TaskIsOk(ws: Workspace, resource: Id, task: Id)
    ensures TaskOk(ws, resource, task) <==> TaskStands(ws, resource, task)
  {
    var elements := ws.children(task);
    if TaskStands(ws, resource, task) {
      forall element | element in elements
        ensures RowOk(ws, task, element)
      {
        var i :| 0 <= i < |elements| && elements[i] == element;
        assert ElementStands(ws, task, elements[i]);
      }
    }
    if TaskOk(ws, resource, task) {
      forall i | 0 <= i < |elements|
        ensures ElementStands(ws, task, elements[i])
      {
        assert RowOk(ws, task, elements[i]);
      }
      forall i, j | 0 <= i < j < |elements|
        ensures ws.line(elements[i]) != ws.line(elements[j])
      {
        assert Map(ws.line, elements)[i] != Map(ws.line, elements)[j];
      }
    }
  }

  lemma ResourceIsOk(ws: Workspace, collection: Id, resource: Id)
    ensures ResourceOk(ws, collection, resource) <==> ResourceStands(ws, collection, resource)
  {
    forall task
      ensures TaskOk(ws, resource, task) <==> TaskStands(ws, resource, task)
    {
      TaskIsOk(ws, resource, task);
    }
  }

  /** What reading the tree gives: something exactly if the tree stands, and then what the tree says. */
  lemma {:induction false} TreeIsRead(ws: Workspace, project: Id, collection: Id, r: Option<seq<Task>>)
    requires r == if ws.kind(collection) == 7 && ws.parent(collection) == project
                     && (forall resource :: resource in ws.children(collection) ==>
                           ResourceOk(ws, collection, resource))
                  then Some(TreeOf(ws, ws.children(collection))) else None
    ensures r.Some? <==> TreeStands(ws, project, collection)
    ensures r.Some? ==> forall t :: t in r.value ==> Mirrors(ws, t)
    ensures r.Some? ==> Map(TaskId, r.value) == ChildrenOfAll(ws, ws.children(collection))
  {
    forall resource
      ensures ResourceOk(ws, collection, resource) <==> ResourceStands(ws, collection, resource)
    {
      ResourceIsOk(ws, collection, resource);
    }
    if r.Some? {
      TreeListsChildren(ws, collection, ws.children(collection));
      forall t | t in r.value
        ensures Mirrors(ws, t)
      {
        assert TaskRead(ws, t);
      }
    }
  }

  // ---------- the selection ----------

  /** The task is the expected one: its names and settings, and its rows by name and line. */
  predicate IsExpected(t: Task, e: ExpectedTask) {
    && t.resourceName == e.resource && t.taskName == e.task
    && t.event == e.event && t.interval == e.interval && t.priority == e.priority
    && |t.rows| == |e.programs|
    && (forall i, j :: 0 <= i < j < |e.programs| ==> e.programs[i] != e.programs[j])
    && forall j :: 0 <= j < |e.programs| ==> HasRow(t.rows, e.programs[j])
  }

  predicate HasRow(rows: seq<Row>, p: Program) {
    exists i :: 0 <= i < |rows| && rows[i].name == p.name && rows[i].line == p.line
  }

  /** As many tasks as expected, none expected twice, and each expected one there. */
  predicate SelectionStands(actual: seq<Task>, expected: seq<ExpectedTask>) {
    && |actual| == |expected|
    && (forall i, j :: 0 <= i < j < |expected| ==>
          expected[i].resource != expected[j].resource || expected[i].task != expected[j].task)
    && forall j :: 0 <= j < |expected| ==> IsThere(actual, expected[j])
  }

  predicate IsThere(actual: seq<Task>, e: ExpectedTask) { exists i :: 0 <= i < |actual| && IsExpected(actual[i], e) }

  lemma ExpectedIsAccepted(t: Task, e: ExpectedTask)
    requires DistinctLines(t.rows) && TaskKey(t) == ExpectedKey(e)
    ensures SameConfiguration(t, e) && ProgramsAccepted(t.rows, e.programs) <==> IsExpected(t, e)
  {
    forall j | 0 <= j < |e.programs|
      ensures RegisteredOnce(t.rows, e.programs[j]) <==> HasRow(t.rows, e.programs[j])
    {
      RegisteredIsThere(t.rows, e.programs[j]);
    }
  }

  lemma RegisteredIsThere(rows: seq<Row>, p: Program)
    requires DistinctLines(rows)
    ensures RegisteredOnce(rows, p) <==> HasRow(rows, p)
  {
    if i :| 0 <= i < |rows| && rows[i].name == p.name && rows[i].line == p.line {
      assert OnlyAt(rows, ProgramOf, i, p);
    }
    if i :| 0 <= i < |rows| && OnlyAt(rows, ProgramOf, i, p) {
      assert rows[i].name == p.name && rows[i].line == p.line;
    }
  }

  lemma KeysDiffer(expected: seq<ExpectedTask>)
    ensures NoDup(Map(ExpectedKey, expected)) <==>
            forall i, j :: 0 <= i < j < |expected| ==>
              expected[i].resource != expected[j].resource || expected[i].task != expected[j].task
  {
    var keys := Map(ExpectedKey, expected);
    if NoDup(keys) {
      forall i, j | 0 <= i < j < |expected|
        ensures expected[i].resource != expected[j].resource || expected[i].task != expected[j].task
      {
        assert keys[i] != keys[j];
      }
    }
  }

  /** VerifyTaskSelection accepts exactly the inventories that are as expected. */
  lemma SelectionPlainly(actual: seq<Task>, expected: seq<ExpectedTask>)
    requires AllDistinctLines(actual)
    ensures SelectionAccepted(actual, expected) <==> SelectionStands(actual, expected)
  {
    KeysDiffer(expected);
    if SelectionAccepted(actual, expected) {
      forall j | 0 <= j < |expected|
        ensures IsThere(actual, expected[j])
      {
        AcceptedIsThere(actual, expected[j]);
      }
    }
    if SelectionStands(actual, expected) {
      NamesAreDistinct(actual, expected);
      forall j | 0 <= j < |expected|
        ensures TaskAccepted(actual, expected[j])
      {
        ThereIsAccepted(actual, expected[j]);
      }
    }
  }

  lemma AcceptedIsThere(actual: seq<Task>, e: ExpectedTask)
    requires AllDistinctLines(actual) && TaskAccepted(actual, e)
    ensures IsThere(actual, e)
  {
    var i :| 0 <= i < |actual| && OnlyAt(actual, TaskKey, i, ExpectedKey(e))
             && SameConfiguration(actual[i], e) && ProgramsAccepted(actual[i].rows, e.programs);
    assert actual[i] in actual;
    ExpectedIsAccepted(actual[i], e);
  }

  lemma NamesAreDistinct(actual: seq<Task>, expected: seq<ExpectedTask>)
    requires SelectionStands(actual, expected)
    ensures NoDup(Map(TaskKey, actual))
  {
    KeysDiffer(expected);
    var a, e := Map(TaskKey, actual), Map(ExpectedKey, expected);
    forall j | 0 <= j < |e|
      ensures e[j] in a
    {
      assert IsThere(actual, expected[j]);
      var i :| 0 <= i < |actual| && IsExpected(actual[i], expected[j]);
      assert a[i] == e[j];
    }
    CoveredIsPermuted(a, e);
    NoDupCounts(a);
    NoDupCounts(e);
    forall x
      ensures multiset(a)[x] <= 1
    {
      assert multiset(e)[x] <= 1;
    }
  }

  lemma ThereIsAccepted(actual: seq<Task>, e: ExpectedTask)
    requires AllDistinctLines(actual) && NoDup(Map(TaskKey, actual)) && IsThere(actual, e)
    ensures TaskAccepted(actual, e)
  {
    var i :| 0 <= i < |actual| && IsExpected(actual[i], e);
    var keys := Map(TaskKey, actual);
    forall k | 0 <= k < |actual| && TaskKey(actual[k]) == ExpectedKey(e)
      ensures k == i
    {
      assert keys[k] == keys[i];
    }
    assert actual[i] in actual;
    ExpectedIsAccepted(actual[i], e);
    assert OnlyAt(actual, TaskKey, i, ExpectedKey(e));
  }

  // ---------- one row more ----------

  /** The task is the old one in every field, with these rows in some order. */
  predicate Alike(now: Task, past: Task, rows: multiset<Row>) {
    && now.resource == past.resource && now.task == past.task
    && now.resourceName == past.resourceName && now.taskName == past.taskName
    && now.event == past.event && now.interval == past.interval && now.priority == past.priority
    && multiset(now.rows) == rows
  }

  function RowsAfter(past: Task, gains: bool, row: Row): multiset<Row> {
    multiset(past.rows) + if gains then multiset{row} else multiset{}
  }

  /** The same tasks, one for one, with the row added to the one at `at`. */
  predicate OneRowMore(before: seq<Task>, after: seq<Task>, at: nat, row: Row) {
    && |after| == |before|
    && forall n :: 0 <= n < |before| ==> Remains(before[n], after, n == at, row)
  }

  predicate Remains(past: Task, after: seq<Task>, gains: bool, row: Row) {
    exists m :: 0 <= m < |after| && Alike(after[m], past, RowsAfter(past, gains, row))
  }

  lemma AlikeIsHeld(now: Task, before: seq<Task>, at: nat, row: Row, n: nat)
    requires at < |before| && n < |before|
    ensures HeldOf(now) == HeldOf(Appended(before, at, row)[n])
            <==> Alike(now, before[n], RowsAfter(before[n], n == at, row))
  {
  }

  lemma SameIsOneRowMore(before: seq<Task>, after: seq<Task>, at: nat, row: Row)
    requires at < |before| && NoDup(Map(TaskId, before))
    ensures SameInventory(after, Appended(before, at, row)) <==> OneRowMore(before, after, at, row)
  {
    var a, e := Map(HeldOf, after), Map(HeldOf, Appended(before, at, row));
    forall i, j | 0 <= i < j < |e|
      ensures e[i] != e[j]
    {
      assert Map(TaskId, before)[i] != Map(TaskId, before)[j];
      assert e[i].identity.task == before[i].task && e[j].identity.task == before[j].task;
    }
    if multiset(a) == multiset(e) {
      assert |multiset(a)| == |multiset(e)|;
      forall n | 0 <= n < |before|
        ensures Remains(before[n], after, n == at, row)
      {
        assert e[n] in multiset(a);
        var m :| 0 <= m < |a| && a[m] == e[n];
        AlikeIsHeld(after[m], before, at, row, n);
      }
    }
    if OneRowMore(before, after, at, row) {
      forall n | 0 <= n < |e|
        ensures e[n] in a
      {
        assert Remains(before[n], after, n == at, row);
        var m :| 0 <= m < |after| && Alike(after[m], before[n], RowsAfter(before[n], n == at, row));
        AlikeIsHeld(after[m], before, at, row, n);
        assert a[m] == e[n];
      }
      CoveredIsPermuted(a, e);
    }
  }

  // ---------- a registration ----------

  /** These are the names of the rows, from the lowest line to the highest. */
  ghost predicate NamesByLine(rows: seq<Row>, names: seq<string>) {
    exists order: seq<Row> :: Arranged(rows, order, names)
  }

  predicate Arranged(rows: seq<Row>, order: seq<Row>, names: seq<string>) {
    && multiset(order) == multiset(rows)
    && (forall i, j :: 0 <= i < j < |order| ==> order[i].line < order[j].line)
    && |order| == |names| && forall k :: 0 <= k < |names| ==> order[k].name == names[k]
  }

  lemma OrderedPlainly(rows: seq<Row>, names: seq<string>)
    requires DistinctLines(rows)
    ensures Ordered(rows, names) <==> NamesByLine(rows, names)
  {
    ByLineSorts(rows);
    if Ordered(rows, names) {
      assert Arranged(rows, ByLine(rows), names);
    }
    if order :| Arranged(rows, order, names) {
      LineOrderIsUnique(order, ByLine(rows));
    }
  }

  /** One more than the highest line, 1 in an empty task, and still a 32-bit line. */
  predicate NextLine(rows: seq<Row>, line: int) {
    && 1 <= line <= 2147483647
    && (forall n :: 0 <= n < |rows| ==> rows[n].line < line)
    && (line == 1 || exists n :: 0 <= n < |rows| && rows[n].line == line - 1)
  }

  predicate NameIsNew(inventory: seq<Task>, name: string, fold: string -> string) {
    forall t, row :: t in inventory && row in t.rows ==> fold(row.name) != fold(name)
  }

  /** The program can be registered in the task of these names, and `after` is what came of it. */
  ghost predicate Bindable(
    before: seq<Task>, expected: seq<ExpectedTask>, target: (string, string), existing: seq<string>,
    requested: string, fold: string -> string, created: Id, after: seq<Task>, line: int)
  {
    && SelectionStands(before, expected) && NameIsNew(before, requested, fold)
    && exists at :: 0 <= at < |before| && before[at].resourceName == target.0 && before[at].taskName == target.1
                    && NamesByLine(before[at].rows, existing) && NextLine(before[at].rows, line)
                    && OneRowMore(before, after, at, Row(created, requested, line))
  }

  lemma {:induction false} BoundPlainly(
    before: seq<Task>, after: seq<Task>, at: nat, existing: seq<string>, requested: string, created: Id, line: int)
    requires AllDistinctLines(before) && NoDup(Map(TaskId, before)) && at < |before|
    ensures Ordered(before[at].rows, existing) && TaskBound(before, at, requested, created, after, line)
            <==> NamesByLine(before[at].rows, existing) && NextLine(before[at].rows, line)
                 && OneRowMore(before, after, at, Row(created, requested, line))
  {
    var rows, added := before[at].rows, Row(created, requested, line);
    assert before[at] in before;
    OrderedPlainly(rows, existing);
    assert IsLast(rows, line - 1) && line <= MAX_LINE <==> NextLine(rows, line);
    if NextLine(rows, line) {
      BindingIsAppend(before, after, at, added);
      SameIsOneRowMore(before, after, at, added);
    }
  }

  /** What a registration that passes all its checks has come to, and when it passes them. */
  lemma {:induction false} BindingPlainly(
    ws: Workspace, before: seq<Task>, expected: seq<ExpectedTask>, target: (string, string), existing: seq<string>,
    requested: string, fold: string -> string, created: Id, after: seq<Task>, line: int)
    requires ReadFrom(ws, before)
    ensures BindingDone(before, expected, target, existing, requested, fold, created, after, line)
            <==> Bindable(before, expected, target, existing, requested, fold, created, after, line)
  {
    SelectionPlainly(before, expected);
    if SelectionAccepted(before, expected) {
      SelectionNamesDistinct(before, expected);
      ReadIdsDistinct(ws, before);
      forall at: nat | at < |before|
        ensures Ordered(before[at].rows, existing) && TaskBound(before, at, requested, created, after, line)
                <==> NamesByLine(before[at].rows, existing) && NextLine(before[at].rows, line)
                     && OneRowMore(before, after, at, Row(created, requested, line))
      {
        BoundPlainly(before, after, at, existing, requested, created, line);
      }
      forall at | 0 <= at < |before|
        ensures OnlyAt(before, TaskKey, at, target)
                <==> before[at].resourceName == target.0 && before[at].taskName == target.1
      {
        NamedOnce(before, at, target);
      }
    }
  }

  lemma NamedOnce(before: seq<Task>, at: int, target: (string, string))
    requires 0 <= at < |before| && NoDup(Map(TaskKey, before))
    ensures OnlyAt(before, TaskKey, at, target)
            <==> before[at].resourceName == target.0 && before[at].taskName == target.1
  {
    var keys := Map(TaskKey, before);
    forall k | 0 <= k < |before| && k != at
      ensures TaskKey(before[k]) != TaskKey(before[at])
    {
      assert keys[k] != keys[at];
    }
  }

  // ---------- the units ----------

  /** The units are the collection's children, before and after, each as it was listed and still so. */
  predicate UnitsStand(owners: seq<Id>, ownersAfter: seq<Id>, units: seq<Unit>) {
    && |owners| == |units| == |ownersAfter|
    && (forall n :: 0 <= n < |units| ==> UnitStands(owners, ownersAfter, units[n]))
    && forall i, j :: 0 <= i < j < |units| ==> units[i].owner != units[j].owner
  }

  predicate UnitStands(owners: seq<Id>, ownersAfter: seq<Id>, u: Unit) {
    && u.kind == u.listedKind && u.body == u.listedBody && u.bodyAfter == u.listedBody
    && u.owner in owners && u.owner in ownersAfter
  }

  lemma UnitsPlainly(owners: seq<Id>, ownersAfter: seq<Id>, units: seq<Unit>)
    ensures UnitsAccepted(owners, units) && UnitsKept(owners, ownersAfter, units)
            <==> UnitsStand(owners, ownersAfter, units)
  {
    var listed := Map(OwnerOf, units);
    if UnitsAccepted(owners, units) && UnitsKept(owners, ownersAfter, units) {
      forall n | 0 <= n < |units|
        ensures UnitStands(owners, ownersAfter, units[n])
      {
        assert UnitRead(units[n]) && units[n].owner in owners;
      }
      forall i, j | 0 <= i < j < |units|
        ensures units[i].owner != units[j].owner
      {
        assert listed[i] != listed[j];
      }
    }
    if UnitsStand(owners, ownersAfter, units) {
      StandingAreAccepted(owners, ownersAfter, units);
    }
  }

  lemma StandingAreAccepted(owners: seq<Id>, ownersAfter: seq<Id>, units: seq<Unit>)
    requires UnitsStand(owners, ownersAfter, units)
    ensures UnitsAccepted(owners, units) && UnitsKept(owners, ownersAfter, units)
  {
    var listed := Map(OwnerOf, units);
    forall n | 0 <= n < |units|
      ensures UnitRead(units[n]) && listed[n] in owners && units[n].bodyAfter == units[n].listedBody
    {
      assert UnitStands(owners, ownersAfter, units[n]);
    }
    CoveredIsPermuted(owners, listed);
    forall n | 0 <= n < |owners|
      ensures owners[n] in ownersAfter
    {
      assert owners[n] in multiset(listed);
      var k :| 0 <= k < |listed| && listed[k] == owners[n];
      assert UnitStands(owners, ownersAfter, units[k]);
    }
  }

  /**
  The whole operation: it binds exactly if the units stand, the target is a program as it was listed, and the
  registration could be made; the line it gives is the one it was made with.
  */
  lemma {:induction false} ProgramIsBound(
    ws: Workspace, owners: seq<Id>, ownersAfter: seq<Id>, units: seq<Unit>, target: Unit,
    before: seq<Task>, expected: seq<ExpectedTask>, place: (string, string), existing: seq<string>,
    requested: string, fold: string -> string, created: Id, after: seq<Task>, r: BindResult)
    requires ReadFrom(ws, before)
    requires r.Bound? ==>
      && UnitsAccepted(owners, units) && target.kind == PROGRAM_KIND && target.body == target.listedBody
      && BindingDone(before, expected, place, existing, requested, fold, created, after, r.line)
      && UnitsKept(owners, ownersAfter, units)
    requires r.Refused? ==>
      forall line ::
        !(UnitsAccepted(owners, units) && target.kind == PROGRAM_KIND && target.body == target.listedBody
          && BindingDone(before, expected, place, existing, requested, fold, created, after, line)
          && UnitsKept(owners, ownersAfter, units))
    ensures r.Bound? ==>
      && UnitsStand(owners, ownersAfter, units) && target.kind == 0x0100_0000 && target.body == target.listedBody
      && Bindable(before, expected, place, existing, requested, fold, created, after, r.line)
    ensures r.Refused? ==>
      forall line ::
        !(UnitsStand(owners, ownersAfter, units) && target.kind == 0x0100_0000 && target.body == target.listedBody
          && Bindable(before, expected, place, existing, requested, fold, created, after, line))
  {
    UnitsPlainly(owners, ownersAfter, units);
    forall line
      ensures BindingDone(before, expected, place, existing, requested, fold, created, after, line)
              <==> Bindable(before, expected, place, existing, requested, fold, created, after, line)
    {
      BindingPlainly(ws, before, expected, place, existing, requested, fold, created, after, line);
    }
  }
}
