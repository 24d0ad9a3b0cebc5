/**
Task inventories of a PLC project: how they are read, how a requested selection is checked
against them, and how a program registration is verified by comparing before and after.
*/
module WorkspaceTasks {

  import opened Basics
  import opened Pairing

  /** A native object identity: twelve words. */
  datatype Id = Id(words: seq<int>)

  datatype Row = Row(id: Id, name: string, line: int)

  datatype Task = Task(
    resource: Id, task: Id, resourceName: string, taskName: string,
    event: string, interval: string, priority: int, rows: seq<Row>)

  datatype Program = Program(name: string, line: int)

  datatype ExpectedTask = ExpectedTask(
    resource: string, task: string, event: string, interval: string, priority: int, programs: seq<Program>)

  const MAX_LINE := 0x7fff_ffff

  predicate DistinctLines(rows: seq<Row>) {
    forall i, j :: 0 <= i < j < |rows| ==> rows[i].line != rows[j].line
  }

  predicate AllDistinctLines(inventory: seq<Task>) {
    forall t :: t in inventory ==> DistinctLines(t.rows)
  }

  // ---------- reading an inventory ----------

  /** One consistent moment of the vendor's object tree. */
  datatype Workspace = Workspace(
    children: Id -> seq<Id>, kind: Id -> int, name: Id -> string, parent: Id -> Id,
    line: Id -> int, event: Id -> string, interval: Id -> string, priority: Id -> int)

  predicate RowOk(ws: Workspace, task: Id, element: Id) {
    ws.kind(element) == 12 && ws.parent(element) == task && ws.line(element) >= 1
  }

  predicate TaskOk(ws: Workspace, resource: Id, task: Id) {
    && ws.kind(task) == 10 && ws.parent(task) == resource
    && (forall element :: element in ws.children(task) ==> RowOk(ws, task, element))
    && NoDup(Map(ws.line, ws.children(task)))
  }

  predicate ResourceOk(ws: Workspace, collection: Id, resource: Id) {
    && ws.kind(resource) == 8 && ws.parent(resource) == collection
    && forall task :: task in ws.children(resource) ==> TaskOk(ws, resource, task)
  }

  /** What the inventory says about one task of the tree. */
  predicate TaskRead(ws: Workspace, t: Task) {
    && t.resource == ws.parent(t.task) && t.resourceName == ws.name(t.resource) && t.taskName == ws.name(t.task)
    && t.event == ws.event(t.task) && t.interval == ws.interval(t.task) && t.priority == ws.priority(t.task)
    && t.rows == Map((e: Id) => Row(e, ws.name(e), ws.line(e)), ws.children(t.task))
    && DistinctLines(t.rows)
  }

  predicate ReadFrom(ws: Workspace, inventory: seq<Task>) {
    forall t :: t in inventory ==> TaskRead(ws, t)
  }

  /** The rows of one task: each an element of the task, with a line of its own. */
  method ReadRows(ws: Workspace, task: Id) returns (r: Option<seq<Row>>)
    ensures r.Some? <==>
        (forall e :: e in ws.children(task) ==> RowOk(ws, task, e))
        && NoDup(Map(ws.line, ws.children(task)))
    ensures r.Some? ==>
        r.value == Map((e: Id) => Row(e, ws.name(e), ws.line(e)), ws.children(task))
        && DistinctLines(r.value)
  {
    var elements := ws.children(task);
    var rows: seq<Row>, lines: set<int> := [], {};
    for n := 0 to |elements|
      invariant |rows| == n
      invariant forall i :: 0 <= i < n ==>
        RowOk(ws, task, elements[i]) && rows[i] == Row(elements[i], ws.name(elements[i]), ws.line(elements[i]))
      invariant forall l :: l in lines <==> exists i :: 0 <= i < n && rows[i].line == l
      invariant DistinctLines(rows)
    {
      var element := elements[n];
      assert element in elements;
      if ws.kind(element) != 12 || ws.parent(element) != task {
        return None;
      }
      var line := ws.line(element);
      if line < 1 {
        return None;
      }
      if line in lines {
        ghost var i :| 0 <= i < n && rows[i].line == line;
        assert Map(ws.line, elements)[i] == Map(ws.line, elements)[n];
        return None;
      }
      rows, lines := rows + [Row(element, ws.name(element), line)], lines + {line};
      assert rows[n].line == line;
    }
    assert rows == Map((e: Id) => Row(e, ws.name(e), ws.line(e)), elements);
    forall i, j | 0 <= i < j < |elements| ensures Map(ws.line, elements)[i] != Map(ws.line, elements)[j] {
      assert rows[i].line != rows[j].line;
    }
    return Some(rows);
  }

  /** What the tree says about one task. */
  function TaskOf(ws: Workspace, resource: Id, task: Id): Task {
    Task(resource, task, ws.name(resource), ws.name(task), ws.event(task), ws.interval(task), ws.priority(task),
         Map((e: Id) => Row(e, ws.name(e), ws.line(e)), ws.children(task)))
  }

  /** The first `count` tasks of a resource, in order. */
  function TasksOf(ws: Workspace, resource: Id, count: nat): seq<Task>
    requires count <= |ws.children(resource)|
  {
    seq(count, i requires 0 <= i < count => TaskOf(ws, resource, ws.children(resource)[i]))
  }

  /** The tasks of every listed resource, one after the other. */
  function TreeOf(ws: Workspace, resources: seq<Id>): seq<Task> {
    if resources == [] then []
    else TreeOf(ws, resources[..|resources| - 1])
         + TasksOf(ws, resources[|resources| - 1], |ws.children(resources[|resources| - 1])|)
  }

  function ChildrenOfAll(ws: Workspace, resources: seq<Id>): seq<Id> {
    if resources == [] then []
    else ChildrenOfAll(ws, resources[..|resources| - 1]) + ws.children(resources[|resources| - 1])
  }

  lemma TasksAreRead(ws: Workspace, collection: Id, resource: Id)
    requires ResourceOk(ws, collection, resource)
    ensures var tasks := TasksOf(ws, resource, |ws.children(resource)|);
            && Map(TaskId, tasks) == ws.children(resource)
            && ReadFrom(ws, tasks)
            && forall t :: t in tasks ==> t.resource == resource && t.task in ws.children(resource)
  {
    var tasks := TasksOf(ws, resource, |ws.children(resource)|);
    forall k | 0 <= k < |tasks|
      ensures TaskRead(ws, tasks[k])
    {
      assert ws.children(resource)[k] in ws.children(resource);
      TaskOkIsRead(ws, resource, ws.children(resource)[k]);
    }
  }

  /** The tree's inventory lists each child of each resource as often as it is a child, in order, under its resource. */
  lemma {:induction false} TreeListsChildren(ws: Workspace, collection: Id, resources: seq<Id>)
    requires forall resource :: resource in resources ==> ResourceOk(ws, collection, resource)
    ensures Map(TaskId, TreeOf(ws, resources)) == ChildrenOfAll(ws, resources)
    ensures ReadFrom(ws, TreeOf(ws, resources))
    ensures forall t :: t in TreeOf(ws, resources) ==> t.resource in resources && t.task in ws.children(t.resource)
    decreases |resources|
  {
    if resources != [] {
      var rest, last := resources[..|resources| - 1], resources[|resources| - 1];
      TreeListsChildren(ws, collection, rest);
      TasksAreRead(ws, collection, last);
      var front, tasks := TreeOf(ws, rest), TasksOf(ws, last, |ws.children(last)|);
      assert Map(TaskId, front + tasks) == Map(TaskId, front) + Map(TaskId, tasks);
      assert forall t :: t in front + tasks <==> t in front || t in tasks;
    }
  }

  lemma TaskOkIsRead(ws: Workspace, resource: Id, task: Id)
    requires TaskOk(ws, resource, task)
    ensures TaskRead(ws, TaskOf(ws, resource, task))
  {
    var rows, lines := TaskOf(ws, resource, task).rows, Map(ws.line, ws.children(task));
    forall i, j | 0 <= i < j < |rows|
      ensures rows[i].line != rows[j].line
    {
      assert lines[i] != lines[j];
    }
  }

  method ReadTask(ws: Workspace, resource: Id, task: Id) returns (r: Option<Task>)
    ensures r == if TaskOk(ws, resource, task) then Some(TaskOf(ws, resource, task)) else None
  {
    if ws.kind(task) != 10 || ws.parent(task) != resource {
      return None;
    }
    var rows := ReadRows(ws, task);
    if rows.None? {
      return None;
    }
    return Some(Task(resource, task, ws.name(resource), ws.name(task),
                     ws.event(task), ws.interval(task), ws.priority(task), rows.value));
  }

  /** The tasks of one resource are added behind `inventory`. */
  method ReadResource(ws: Workspace, collection: Id, resource: Id, inventory: seq<Task>) returns (r: Option<seq<Task>>)
    ensures r == if ResourceOk(ws, collection, resource)
                 then Some(inventory + TasksOf(ws, resource, |ws.children(resource)|)) else None
  {
    if ws.kind(resource) != 8 || ws.parent(resource) != collection {
      return None;
    }
    var tasks := ws.children(resource);
    var all := inventory;
    for m := 0 to |tasks|
      invariant forall i :: 0 <= i < m ==> TaskOk(ws, resource, tasks[i])
      invariant all == inventory + TasksOf(ws, resource, m)
    {
      assert tasks[m] in tasks;
      var task := ReadTask(ws, resource, tasks[m]);
      if task.None? {
        return None;
      }
      assert TasksOf(ws, resource, m + 1) == TasksOf(ws, resource, m) + [task.value];
      all := all + [task.value];
    }
    return Some(all);
  }

  /** Every task below every resource, in the tree's own order, or nothing at all. */
  method TaskInventories(ws: Workspace, project: Id, collection: Id) returns (r: Option<seq<Task>>)
    ensures r == if ws.kind(collection) == 7 && ws.parent(collection) == project
                    && (forall resource :: resource in ws.children(collection) ==> ResourceOk(ws, collection, resource))
                 then Some(TreeOf(ws, ws.children(collection))) else None
    ensures r.Some? ==>
      ReadFrom(ws, r.value) && Map(TaskId, r.value) == ChildrenOfAll(ws, ws.children(collection))
  {
    if ws.kind(collection) != 7 || ws.parent(collection) != project {
      return None;
    }
    var resources := ws.children(collection);
    var inventory: seq<Task> := [];
    for n := 0 to |resources|
      invariant forall i :: 0 <= i < n ==> ResourceOk(ws, collection, resources[i])
      invariant inventory == TreeOf(ws, resources[..n])
    {
      assert resources[n] in resources;
      assert resources[..n + 1][..n] == resources[..n];
      var more := ReadResource(ws, collection, resources[n], inventory);
      if more.None? {
        return None;
      }
      inventory := more.value;
    }
    assert resources[..|resources|] == resources;
    TreeListsChildren(ws, collection, resources);
    return Some(inventory);
  }

  // ---------- the requested selection ----------

  function TaskKey(t: Task): (string, string) { (t.resourceName, t.taskName) }

  function ExpectedKey(e: ExpectedTask): (string, string) { (e.resource, e.task) }

  function ProgramOf(row: Row): Program { Program(row.name, row.line) }

  predicate SameConfiguration(t: Task, e: ExpectedTask) {
    t.event == e.event && t.interval == e.interval && t.priority == e.priority
  }

  ghost predicate RegisteredOnce(rows: seq<Row>, p: Program) {
    exists i :: 0 <= i < |rows| && OnlyAt(rows, ProgramOf, i, p)
  }

  /** What the row loop of VerifyTaskSelection checks. */
  ghost predicate ProgramsAccepted(rows: seq<Row>, programs: seq<Program>) {
    && |programs| == |rows|
    && NoDup(programs)
    && forall j :: 0 <= j < |programs| ==> RegisteredOnce(rows, programs[j])
  }

  ghost predicate TaskAccepted(actual: seq<Task>, e: ExpectedTask) {
    exists i :: 0 <= i < |actual| && OnlyAt(actual, TaskKey, i, ExpectedKey(e))
                && SameConfiguration(actual[i], e) && ProgramsAccepted(actual[i].rows, e.programs)
  }

  ghost predicate SelectionAccepted(actual: seq<Task>, expected: seq<ExpectedTask>) {
    && |actual| == |expected|
    && NoDup(Map(ExpectedKey, expected))
    && forall j :: 0 <= j < |expected| ==> TaskAccepted(actual, expected[j])
  }

  method VerifyPrograms(rows: seq<Row>, programs: seq<Program>) returns (ok: bool)
    ensures ok <==> ProgramsAccepted(rows, programs)
  {
    if |programs| != |rows| {
      return false;
    }
    var selected: seq<int> := [];
    for n := 0 to |programs|
      invariant |selected| == n && NoDup(programs[..n])
      invariant forall j :: 0 <= j < n ==> OnlyAt(rows, ProgramOf, selected[j], programs[j])
    {
      var matches := FindAll(rows, ProgramOf, programs[n]);
      if |matches| != 1 {
        return false;
      }
      if matches[0] in selected {
        ghost var j :| 0 <= j < n && selected[j] == matches[0];
        assert programs[j] == programs[n];
        return false;
      }
      selected := selected + [matches[0]];
      forall j | 0 <= j < n ensures programs[j] != programs[n] {
        assert OnlyAt(rows, ProgramOf, selected[j], programs[j]);
      }
    }
    assert programs[..|programs|] == programs;
    forall j | 0 <= j < |programs| ensures RegisteredOnce(rows, programs[j]) {
      assert OnlyAt(rows, ProgramOf, selected[j], programs[j]);
    }
    return true;
  }

  lemma AcceptedAt(actual: seq<Task>, e: ExpectedTask, i: int)
    requires OnlyAt(actual, TaskKey, i, ExpectedKey(e))
    ensures TaskAccepted(actual, e) <==> SameConfiguration(actual[i], e) && ProgramsAccepted(actual[i].rows, e.programs)
  {
  }

  method VerifyTask(task: Task, e: ExpectedTask) returns (ok: bool)
    ensures ok <==> SameConfiguration(task, e) && ProgramsAccepted(task.rows, e.programs)
  {
    if !SameConfiguration(task, e) {
      return false;
    }
    ok := VerifyPrograms(task.rows, e.programs);
  }

  /** The first expected tasks are accepted, each by the actual task at its own place in `selected`. */
  ghost predicate Matched(actual: seq<Task>, expected: seq<ExpectedTask>, selected: seq<int>) {
    && |selected| <= |expected|
    && NoDup(selected)
    && forall j :: 0 <= j < |selected| ==>
         OnlyAt(actual, TaskKey, selected[j], ExpectedKey(expected[j])) && TaskAccepted(actual, expected[j])
  }

  lemma MatchedMore(actual: seq<Task>, expected: seq<ExpectedTask>, selected: seq<int>, i: int)
    requires Matched(actual, expected, selected) && |selected| < |expected| && i !in selected
    requires OnlyAt(actual, TaskKey, i, ExpectedKey(expected[|selected|])) && TaskAccepted(actual, expected[|selected|])
    ensures Matched(actual, expected, selected + [i])
  {
  }

  /** Different places, different keys. */
  lemma MatchedKeys(actual: seq<Task>, expected: seq<ExpectedTask>, selected: seq<int>)
    requires Matched(actual, expected, selected) && |selected| == |expected|
    ensures NoDup(Map(ExpectedKey, expected))
  {
    var keys := Map(ExpectedKey, expected);
    forall i, j | 0 <= i < j < |keys|
      ensures keys[i] != keys[j]
    {
      assert OnlyAt(actual, TaskKey, selected[i], keys[i]) && OnlyAt(actual, TaskKey, selected[j], keys[j]);
    }
  }

  lemma MatchedTwice(actual: seq<Task>, expected: seq<ExpectedTask>, selected: seq<int>, i: int)
    requires Matched(actual, expected, selected) && |selected| < |expected| && i in selected
    requires OnlyAt(actual, TaskKey, i, ExpectedKey(expected[|selected|]))
    ensures !NoDup(Map(ExpectedKey, expected))
  {
    var j :| 0 <= j < |selected| && selected[j] == i;
    var keys := Map(ExpectedKey, expected);
    assert OnlyAt(actual, TaskKey, selected[j], keys[j]);
    assert keys[j] == keys[|selected|];
  }

  method VerifyTaskSelection(actual: seq<Task>, expected: seq<ExpectedTask>) returns (ok: bool)
    ensures ok <==> SelectionAccepted(actual, expected)
  {
    if |actual| != |expected| {
      return false;
    }
    var selected: seq<int> := [];
    for n := 0 to |expected|
      invariant |selected| == n && Matched(actual, expected, selected)
    {
      var e := expected[n];
      var matches := FindAll(actual, TaskKey, ExpectedKey(e));
      if |matches| != 1 {
        assert !TaskAccepted(actual, e);
        return false;
      }
      if matches[0] in selected {
        MatchedTwice(actual, expected, selected, matches[0]);
        return false;
      }
      AcceptedAt(actual, e, matches[0]);
      var verified := VerifyTask(actual[matches[0]], e);
      if !verified {
        return false;
      }
      MatchedMore(actual, expected, selected, matches[0]);
      selected := selected + [matches[0]];
    }
    MatchedKeys(actual, expected, selected);
    return true;
  }

  /** A task as the selection sees it: no identities, and rows in no order. */
  datatype Facts = Facts(
    resource: string, task: string, event: string, interval: string, priority: int, programs: multiset<Program>)

  function FactsKey(f: Facts): (string, string) { (f.resource, f.task) }

  function TaskFacts(t: Task): Facts {
    Facts(t.resourceName, t.taskName, t.event, t.interval, t.priority, multiset(Map(ProgramOf, t.rows)))
  }

  function ExpectedFacts(e: ExpectedTask): Facts {
    Facts(e.resource, e.task, e.event, e.interval, e.priority, multiset(e.programs))
  }

  /** With distinct lines, the row loop accepts exactly the permutations. */
  lemma ProgramsArePermutation(rows: seq<Row>, programs: seq<Program>)
    requires DistinctLines(rows)
    ensures ProgramsAccepted(rows, programs) <==> multiset(Map(ProgramOf, rows)) == multiset(programs)
  {
    var a := Map(ProgramOf, rows);
    assert NoDup(a) by {
      forall i, j | 0 <= i < j < |a| ensures a[i] != a[j] { assert rows[i].line != rows[j].line; }
    }
    if ProgramsAccepted(rows, programs) {
      forall j | 0 <= j < |programs| ensures programs[j] in a {
        var i :| 0 <= i < |rows| && OnlyAt(rows, ProgramOf, i, programs[j]);
        assert a[i] == programs[j];
      }
      CoveredIsPermuted(a, programs);
    }
    if multiset(a) == multiset(programs) {
      assert |multiset(a)| == |multiset(programs)|;
      NoDupCounts(a);
      NoDupCounts(programs);
      assert NoDup(programs) by {
        forall x ensures multiset(programs)[x] <= 1 { assert multiset(a)[x] <= 1; }
      }
      forall j | 0 <= j < |programs| ensures RegisteredOnce(rows, programs[j]) {
        assert programs[j] in multiset(a);
        var i :| 0 <= i < |a| && a[i] == programs[j];
        forall k | 0 <= k < |rows| && ProgramOf(rows[k]) == programs[j] ensures k == i {
          assert a[k] == a[i];
        }
        assert OnlyAt(rows, ProgramOf, i, programs[j]);
      }
    }
  }

  /**
  VerifyTaskSelection accepts exactly when the expected list is the actual inventory in some
  order: distinct (resource, task) keys, equal configurations, and each task's (name, line)
  list a permutation of its rows.
  */
  lemma SelectionIsPermutation(actual: seq<Task>, expected: seq<ExpectedTask>)
    requires AllDistinctLines(actual)
    ensures SelectionAccepted(actual, expected) <==>
              NoDup(Map(ExpectedKey, expected)) && multiset(Map(TaskFacts, actual))
                == multiset(Map(ExpectedFacts, expected))
  {
    var a, e := Map(TaskFacts, actual), Map(ExpectedFacts, expected);
    assert Map(FactsKey, e) == Map(ExpectedKey, expected);
    if |actual| == |expected| && NoDup(Map(ExpectedKey, expected)) {
      PairedByKey(a, e, FactsKey);
      forall j | 0 <= j < |e| ensures TaskAccepted(actual, expected[j]) <==> FindsOnly(a, FactsKey, e[j]) {
        AcceptedIsFound(actual, expected[j]);
      }
    } else {
      assert multiset(a) == multiset(e) ==> |multiset(a)| == |multiset(e)|;
    }
  }

  lemma AcceptedIsFound(actual: seq<Task>, e: ExpectedTask)
    requires AllDistinctLines(actual)
    ensures TaskAccepted(actual, e) <==> FindsOnly(Map(TaskFacts, actual), FactsKey, ExpectedFacts(e))
  {
    var a, f := Map(TaskFacts, actual), ExpectedFacts(e);
    forall i | 0 <= i < |a|
      ensures OnlyAt(actual, TaskKey, i, ExpectedKey(e)) <==> OnlyAt(a, FactsKey, i, FactsKey(f))
    {
      assert forall k :: 0 <= k < |a| ==> FactsKey(a[k]) == TaskKey(actual[k]);
    }
    forall i | 0 <= i < |a| && TaskKey(actual[i]) == ExpectedKey(e)
      ensures SameConfiguration(actual[i], e) && ProgramsAccepted(actual[i].rows, e.programs) <==> a[i] == f
    {
      assert actual[i] in actual;
      ProgramsArePermutation(actual[i].rows, e.programs);
    }
  }

  // ---------- before and after a registration ----------

  datatype Identity = Identity(resource: Id, task: Id, resourceName: string, taskName: string)

  function IdentityOf(t: Task): Identity { Identity(t.resource, t.task, t.resourceName, t.taskName) }

  function TaskId(t: Task): Id { t.task }

  /** A task with everything it holds; only the order of its rows is forgotten. */
  datatype Held = Held(identity: Identity, event: string, interval: string, priority: int, rows: multiset<Row>)

  function HeldIdentity(h: Held): Identity { h.identity }

  function HeldOf(t: Task): Held { Held(IdentityOf(t), t.event, t.interval, t.priority, multiset(t.rows)) }

  /** The same tasks with the same configurations and rows, in any order. */
  predicate SameInventory(a: seq<Task>, b: seq<Task>) {
    multiset(Map(HeldOf, a)) == multiset(Map(HeldOf, b))
  }

  /** The inventory with one more row in one task, and nothing else different. */
  function Appended(inventory: seq<Task>, at: nat, row: Row): (r: seq<Task>)
    requires at < |inventory|
    ensures |r| == |inventory|
  {
    inventory[at := inventory[at].(rows := inventory[at].rows + [row])]
  }

  predicate SameSettings(current: Task, past: Task) {
    current.event == past.event && current.interval == past.interval && current.priority == past.priority
  }

  /** Every old row is found exactly once among the current rows, of which there are `extra` more. */
  predicate RowsKept(past: seq<Row>, current: seq<Row>, extra: nat) {
    && |current| == |past| + extra
    && forall n :: 0 <= n < |past| ==> multiset(current)[past[n]] == 1
  }

  ghost predicate OldTaskKept(past: Task, after: seq<Task>) {
    exists i :: 0 <= i < |after| && OnlyAt(after, IdentityOf, i, IdentityOf(past))
                && SameSettings(after[i], past) && RowsKept(past.rows, after[i].rows, 0)
  }

  ghost predicate OldTasksKept(before: seq<Task>, after: seq<Task>) {
    forall n :: 0 <= n < |before| ==> OldTaskKept(before[n], after)
  }

  /** The check BindProgramTask makes of one old task; `selected` is the task it registered in. */
  ghost predicate BoundTask(past: Task, after: seq<Task>, selected: Id, added: Row) {
    exists i :: 0 <= i < |after| && OnlyAt(after, IdentityOf, i, IdentityOf(past))
                && SameSettings(after[i], past)
                && RowsKept(past.rows, after[i].rows, if past.task == selected then 1 else 0)
                && (past.task == selected ==> multiset(after[i].rows)[added] == 1)
  }

  ghost predicate BindingAccepted(before: seq<Task>, after: seq<Task>, selected: Id, added: Row) {
    && |after| == |before|
    && forall n :: 0 <= n < |before| ==> BoundTask(before[n], after, selected, added)
  }

  method RowsKeptCheck(past: seq<Row>, current: seq<Row>, extra: nat) returns (ok: bool)
    ensures ok <==> RowsKept(past, current, extra)
  {
    if |current| != |past| + extra {
      return false;
    }
    for n := 0 to |past|
      invariant forall m :: 0 <= m < n ==> multiset(current)[past[m]] == 1
    {
      var count := CountOf(current, past[n]);
      if count != 1 {
        return false;
      }
    }
    return true;
  }

  method VerifyOldTasks(before: seq<Task>, after: seq<Task>) returns (ok: bool)
    ensures ok <==> OldTasksKept(before, after)
  {
    for n := 0 to |before|
      invariant forall m :: 0 <= m < n ==> OldTaskKept(before[m], after)
    {
      var past := before[n];
      var matches := FindAll(after, IdentityOf, IdentityOf(past));
      if |matches| != 1 {
        assert !OldTaskKept(past, after);
        return false;
      }
      var current := after[matches[0]];
      var rows := RowsKeptCheck(past.rows, current.rows, 0);
      if !SameSettings(current, past) || !rows {
        assert !OldTaskKept(past, after);
        return false;
      }
      assert OldTaskKept(past, after);
    }
    return true;
  }

  method VerifyBinding(before: seq<Task>, after: seq<Task>, selected: Id, added: Row) returns (ok: bool)
    ensures ok <==> BindingAccepted(before, after, selected, added)
  {
    if |after| != |before| {
      return false;
    }
    for n := 0 to |before|
      invariant forall m :: 0 <= m < n ==> BoundTask(before[m], after, selected, added)
    {
      var past := before[n];
      var matches := FindAll(after, IdentityOf, IdentityOf(past));
      if |matches| != 1 {
        assert !BoundTask(past, after, selected, added);
        return false;
      }
      var current := after[matches[0]];
      var rows := RowsKeptCheck(past.rows, current.rows, if past.task == selected then 1 else 0);
      var count := CountOf(current.rows, added);
      if !SameSettings(current, past) || !rows || (past.task == selected && count != 1) {
        assert !BoundTask(past, after, selected, added);
        return false;
      }
      assert BoundTask(past, after, selected, added);
    }
    return true;
  }

  lemma DistinctLinesNoDup(rows: seq<Row>)
    requires DistinctLines(rows)
    ensures NoDup(rows)
  {
    forall i, j | 0 <= i < j < |rows| ensures rows[i] != rows[j] { assert rows[i].line != rows[j].line; }
  }

  lemma RowsKeptIsPermutation(past: seq<Row>, current: seq<Row>)
    requires NoDup(past)
    ensures RowsKept(past, current, 0) <==> multiset(current) == multiset(past)
  {
    NoDupCounts(past);
    if RowsKept(past, current, 0) {
      forall n | 0 <= n < |past| ensures past[n] in current { assert past[n] in multiset(current); }
      CoveredIsPermuted(current, past);
    }
    if multiset(current) == multiset(past) {
      assert |multiset(current)| == |multiset(past)|;
      forall n | 0 <= n < |past| ensures multiset(current)[past[n]] == 1 { CountIsPositions(past, past[n]); }
    }
  }

  lemma RowsKeptPlusOne(past: seq<Row>, current: seq<Row>, added: Row)
    requires NoDup(past) && added !in past
    ensures RowsKept(past, current, 1) && multiset(current)[added] == 1 <==>
        multiset(current) == multiset(past + [added])
  {
    var whole := past + [added];
    assert NoDup(whole);
    RowsKeptIsPermutation(whole, current);
    if RowsKept(past, current, 1) && multiset(current)[added] == 1 {
      assert RowsKept(whole, current, 0);
    }
    if RowsKept(whole, current, 0) {
      forall n | 0 <= n < |past| ensures multiset(current)[past[n]] == 1 { assert whole[n] == past[n]; }
      assert whole[|past|] == added;
    }
  }

  /** VerifyOldTasks, between inventories of equal size: the same inventory in some order. */
  lemma OldTasksKeptIsSame(before: seq<Task>, after: seq<Task>)
    requires AllDistinctLines(before) && |after| == |before| && NoDup(Map(IdentityOf, before))
    ensures OldTasksKept(before, after) <==> SameInventory(after, before)
  {
    var a, e := Map(HeldOf, after), Map(HeldOf, before);
    assert Map(HeldIdentity, e) == Map(IdentityOf, before);
    PairedByKey(a, e, HeldIdentity);
    forall n | 0 <= n < |e| ensures OldTaskKept(before[n], after) <==> FindsOnly(a, HeldIdentity, e[n]) {
      DistinctLinesNoDup(before[n].rows);
      forall i | 0 <= i < |a|
        ensures OnlyAt(after, IdentityOf, i, IdentityOf(before[n])) <==> OnlyAt(a, HeldIdentity, i, HeldIdentity(e[n]))
        ensures (IdentityOf(after[i]) == IdentityOf(before[n]) && SameSettings(after[i], before[n])
                 && RowsKept(before[n].rows, after[i].rows, 0)) <==> a[i] == e[n]
      {
        RowsKeptIsPermutation(before[n].rows, after[i].rows);
        assert forall k :: 0 <= k < |a| ==> HeldIdentity(a[k]) == IdentityOf(after[k]);
      }
    }
  }

  lemma IdsMakeIdentities(inventory: seq<Task>)
    requires NoDup(Map(TaskId, inventory))
    ensures NoDup(Map(IdentityOf, inventory))
  {
    forall i, j | 0 <= i < j < |inventory| ensures Map(IdentityOf, inventory)[i] != Map(IdentityOf, inventory)[j] {
      assert Map(TaskId, inventory)[i] != Map(TaskId, inventory)[j];
    }
  }

  /**
  BindProgramTask's inline check accepts exactly the inventories that are the old one plus
  the one requested row in the selected task.
  */
  lemma BindingIsAppend(before: seq<Task>, after: seq<Task>, at: nat, added: Row)
    requires AllDistinctLines(before) && NoDup(Map(TaskId, before))
    requires at < |before| && added !in before[at].rows
    ensures BindingAccepted(before, after, before[at].task, added) <==>
        SameInventory(after, Appended(before, at, added))
  {
    var wanted := Appended(before, at, added);
    var a, e := Map(HeldOf, after), Map(HeldOf, wanted);
    if |after| != |before| {
      assert SameInventory(after, wanted) ==> |multiset(a)| == |multiset(e)|;
      return;
    }
    IdsMakeIdentities(before);
    assert Map(HeldIdentity, e) == Map(IdentityOf, before);
    PairedByKey(a, e, HeldIdentity);
    forall n | 0 <= n < |e|
      ensures BoundTask(before[n], after, before[at].task, added) <==> FindsOnly(a, HeldIdentity, e[n])
    {
      BoundIsFound(before, after, at, added, n);
    }
  }

  lemma BoundIsFound(before: seq<Task>, after: seq<Task>, at: nat, added: Row, n: nat)
    requires AllDistinctLines(before) && NoDup(Map(TaskId, before))
    requires at < |before| && added !in before[at].rows && n < |before| == |after|
    ensures BoundTask(before[n], after, before[at].task, added)
       <==> FindsOnly(Map(HeldOf, after), HeldIdentity, HeldOf(Appended(before, at, added)[n]))
  {
    var a, x := Map(HeldOf, after), HeldOf(Appended(before, at, added)[n]);
    assert before[n].task == before[at].task <==> n == at by {
      if n != at {
        assert Map(TaskId, before)[n] != Map(TaskId, before)[at];
      }
    }
    DistinctLinesNoDup(before[n].rows);
    forall i | 0 <= i < |a|
      ensures OnlyAt(after, IdentityOf, i, IdentityOf(before[n])) <==> OnlyAt(a, HeldIdentity, i, HeldIdentity(x))
    {
      assert forall k :: 0 <= k < |a| ==> HeldIdentity(a[k]) == IdentityOf(after[k]);
    }
    forall i | 0 <= i < |a|
      ensures (IdentityOf(after[i]) == IdentityOf(before[n]) && SameSettings(after[i], before[n])
               && RowsKept(before[n].rows, after[i].rows, if n == at then 1 else 0)
               && (n == at ==> multiset(after[i].rows)[added] == 1)) <==> a[i] == x
    {
      if n == at {
        RowsKeptPlusOne(before[n].rows, after[i].rows, added);
      } else {
        RowsKeptIsPermutation(before[n].rows, after[i].rows);
      }
    }
  }

  // ---------- the other verifier of the same append ----------

  /** List.Remove of the row at position `k` of task `at`. */
  function Without(inventory: seq<Task>, at: nat, k: nat): (r: seq<Task>)
    requires at < |inventory| && k < |inventory[at].rows|
    ensures |r| == |inventory|
  {
    inventory[at := inventory[at].(rows := inventory[at].rows[..k] + inventory[at].rows[k + 1..])]
  }

  function Itself(row: Row): Row { row }

  ghost predicate AppendAccepted(before: seq<Task>, after: seq<Task>, selected: Id, added: Row) {
    && |after| == |before|
    && exists at, k :: 0 <= at < |after| && 0 <= k < |after[at].rows| && OnlyAt(after, TaskId, at, selected)
                       && OnlyAt(after[at].rows, Itself, k, added) && OldTasksKept(before, Without(after, at, k))
  }

  /** The check AppendAuthoredProgramTask makes: find the added row, take it out, compare the rest. */
  method VerifyAppend(before: seq<Task>, after: seq<Task>, selected: Id, added: Row) returns (ok: bool)
    ensures ok <==> AppendAccepted(before, after, selected, added)
  {
    if |after| != |before| {
      return false;
    }
    var tasks := FindAll(after, TaskId, selected);
    if |tasks| != 1 {
      return false;
    }
    var at := tasks[0];
    var rows := FindAll(after[at].rows, Itself, added);
    if |rows| != 1 {
      return false;
    }
    ok := VerifyOldTasks(before, Without(after, at, rows[0]));
  }

  lemma SameInventoryUpdate(a: seq<Task>, b: seq<Task>, i: nat, j: nat, x: Task, y: Task)
    requires SameInventory(a, b) && i < |a| && j < |b| && HeldOf(a[i]) == HeldOf(b[j]) && HeldOf(x) == HeldOf(y)
    ensures SameInventory(a[i := x], b[j := y])
  {
    var ha, hb := Map(HeldOf, a), Map(HeldOf, b);
    assert Map(HeldOf, a[i := x]) == ha[i := HeldOf(x)];
    assert Map(HeldOf, b[j := y]) == hb[j := HeldOf(y)];
    MultisetOfUpdate(ha, i, HeldOf(x));
    MultisetOfUpdate(hb, j, HeldOf(y));
  }

  lemma HeldInBoth(a: seq<Task>, b: seq<Task>, i: nat) returns (m: nat)
    requires SameInventory(a, b) && i < |a|
    ensures m < |b| && HeldOf(b[m]) == HeldOf(a[i])
  {
    var ha, hb := Map(HeldOf, a), Map(HeldOf, b);
    assert ha[i] in multiset(hb);
    m :| 0 <= m < |hb| && hb[m] == ha[i];
  }

  /** With distinct ids, the same id means the same content. */
  lemma SameIdSameHeld(a: seq<Task>, b: seq<Task>, i: nat, j: nat)
    requires SameInventory(a, b) && NoDup(Map(TaskId, b))
    requires i < |a| && j < |b| && a[i].task == b[j].task
    ensures HeldOf(a[i]) == HeldOf(b[j])
  {
    var m := HeldInBoth(a, b, i);
    assert HeldOf(b[m]).identity.task == HeldOf(a[i]).identity.task;
    assert Map(TaskId, b)[m] == Map(TaskId, b)[j];
  }

  /** Taking the k-th row out and putting it back at the end leaves the same inventory. */
  lemma WithoutThenAppended(inventory: seq<Task>, at: nat, k: nat)
    requires at < |inventory| && k < |inventory[at].rows|
    ensures SameInventory(Appended(Without(inventory, at, k), at, inventory[at].rows[k]), inventory)
  {
    var rows, row := inventory[at].rows, inventory[at].rows[k];
    var back := Appended(Without(inventory, at, k), at, row);
    TakenOut(rows, k);
    assert multiset(back[at].rows) == multiset(rows);
    assert Map(HeldOf, back) == Map(HeldOf, inventory);
  }

  /** The append verifier accepts exactly the same inventories as the binding check. */
  lemma AppendIsAppend(before: seq<Task>, after: seq<Task>, at: nat, added: Row)
    requires AllDistinctLines(before) && NoDup(Map(TaskId, before))
    requires at < |before| && added !in before[at].rows
    ensures AppendAccepted(before, after, before[at].task, added) <==> SameInventory(after, Appended(before, at, added))
  {
    if AppendAccepted(before, after, before[at].task, added) {
      AcceptedAppendIsSame(before, after, at, added);
    }
    if SameInventory(after, Appended(before, at, added)) {
      SameIsAcceptedAppend(before, after, at, added);
    }
  }

  lemma AcceptedAppendIsSame(before: seq<Task>, after: seq<Task>, at: nat, added: Row)
    requires AllDistinctLines(before) && NoDup(Map(TaskId, before)) && at < |before|
    requires AppendAccepted(before, after, before[at].task, added)
    ensures SameInventory(after, Appended(before, at, added))
  {
    var s, k :| 0 <= s < |after| && 0 <= k < |after[s].rows| && OnlyAt(after, TaskId, s, before[at].task)
                && OnlyAt(after[s].rows, Itself, k, added) && OldTasksKept(before, Without(after, s, k));
    var rest := Without(after, s, k);
    IdsMakeIdentities(before);
    OldTasksKeptIsSame(before, rest);
    assert rest[s].task == before[at].task;
    SameIdSameHeld(rest, before, s, at);
    var wanted := Appended(before, at, added);
    var put := Appended(rest, s, added);
    assert multiset(rest[s].rows + [added]) == multiset(before[at].rows + [added]);
    SameInventoryUpdate(rest, before, s, at, put[s], wanted[at]);
    WithoutThenAppended(after, s, k);
  }

  /** The task that was extended, found again by its id. */
  lemma ExtendedTask(after: seq<Task>, wanted: seq<Task>, at: nat) returns (s: nat)
    requires SameInventory(after, wanted) && NoDup(Map(TaskId, wanted)) && at < |wanted|
    ensures s < |after| && OnlyAt(after, TaskId, s, wanted[at].task) && HeldOf(after[s]) == HeldOf(wanted[at])
  {
    var ha, hw := Map(HeldOf, after), Map(HeldOf, wanted);
    IdsMakeIdentities(wanted);
    assert Map(HeldIdentity, hw) == Map(IdentityOf, wanted);
    PermutedFindsOnly(ha, hw, HeldIdentity, at);
    s :| 0 <= s < |ha| && OnlyAt(ha, HeldIdentity, s, HeldIdentity(hw[at])) && ha[s] == hw[at];
    assert HeldOf(after[s]) == HeldOf(wanted[at]);
    forall i | 0 <= i < |after| && after[i].task == wanted[at].task ensures i == s {
      SameIdSameHeld(after, wanted, i, at);
      assert HeldIdentity(ha[i]) == HeldIdentity(hw[at]);
    }
    assert after[s].task == HeldOf(after[s]).identity.task == wanted[at].task;
  }

  lemma Cancel<T>(a: multiset<T>, b: multiset<T>, x: T)
    requires a + multiset{x} == b + multiset{x}
    ensures a == b
  {
    assert a == a + multiset{x} - multiset{x};
  }

  lemma TakenOut(rows: seq<Row>, k: nat)
    requires k < |rows|
    ensures multiset(rows) == multiset(rows[..k] + rows[k + 1..]) + multiset{rows[k]}
  {
    var front, back := rows[..k], rows[k + 1..];
    assert rows == front + [rows[k]] + back;
  }

  /** The row that was added, found again, and what is left without it. */
  lemma AddedRow(rows: seq<Row>, past: seq<Row>, added: Row) returns (k: nat)
    requires multiset(rows) == multiset(past + [added]) && NoDup(past + [added])
    ensures k < |rows| && OnlyAt(rows, Itself, k, added)
    ensures multiset(rows[..k] + rows[k + 1..]) == multiset(past)
  {
    var whole := past + [added];
    assert Map(Itself, whole) == whole;
    PermutedFindsOnly(rows, whole, Itself, |past|);
    k :| 0 <= k < |rows| && OnlyAt(rows, Itself, k, Itself(whole[|past|])) && rows[k] == whole[|past|];
    TakenOut(rows, k);
    Cancel(multiset(rows[..k] + rows[k + 1..]), multiset(past), added);
  }

  lemma SameIsAcceptedAppend(before: seq<Task>, after: seq<Task>, at: nat, added: Row)
    requires AllDistinctLines(before) && NoDup(Map(TaskId, before))
    requires at < |before| && added !in before[at].rows
    requires SameInventory(after, Appended(before, at, added))
    ensures AppendAccepted(before, after, before[at].task, added)
  {
    var wanted := Appended(before, at, added);
    assert |multiset(Map(HeldOf, after))| == |multiset(Map(HeldOf, wanted))|;
    assert Map(TaskId, wanted) == Map(TaskId, before);
    var s := ExtendedTask(after, wanted, at);
    DistinctLinesNoDup(before[at].rows);
    assert multiset(after[s].rows) == HeldOf(after[s]).rows == multiset(wanted[at].rows);
    var k := AddedRow(after[s].rows, before[at].rows, added);
    var rest := Without(after, s, k);
    SameInventoryUpdate(after, wanted, s, at, rest[s], before[at]);
    assert wanted[at := before[at]] == before;
    IdsMakeIdentities(before);
    OldTasksKeptIsSame(before, rest);
    assert OnlyAt(after, TaskId, s, before[at].task);
  }

  /** The two verifiers agree on every after-inventory. */
  lemma VerifiersAgree(before: seq<Task>, after: seq<Task>, at: nat, added: Row)
    requires AllDistinctLines(before) && NoDup(Map(TaskId, before))
    requires at < |before| && added !in before[at].rows
    ensures AppendAccepted(before, after, before[at].task, added) <==>
        BindingAccepted(before, after, before[at].task, added)
  {
    AppendIsAppend(before, after, at, added);
    BindingIsAppend(before, after, at, added);
  }

  // ---------- the order of a task's programs ----------

  predicate InLineOrder(rows: seq<Row>) {
    forall i, j :: 0 <= i < j < |rows| ==> rows[i].line < rows[j].line
  }

  function Inserted(sorted: seq<Row>, row: Row): (r: seq<Row>)
    ensures multiset(r) == multiset(sorted) + multiset{row}
  {
    if sorted == [] || row.line <= sorted[0].line then [row] + sorted
    else
      assert sorted == [sorted[0]] + sorted[1..];
      [sorted[0]] + Inserted(sorted[1..], row)
  }

  /** List.Sort by line. */
  function ByLine(rows: seq<Row>): (r: seq<Row>)
    ensures multiset(r) == multiset(rows)
  {
    if rows == [] then []
    else
      assert rows == [rows[0]] + rows[1..];
      Inserted(ByLine(rows[1..]), rows[0])
  }

  lemma {:induction false} InsertedStaysSorted(sorted: seq<Row>, row: Row)
    requires InLineOrder(sorted) && forall i :: 0 <= i < |sorted| ==> sorted[i].line != row.line
    ensures InLineOrder(Inserted(sorted, row))
  {
    if sorted != [] && row.line > sorted[0].line {
      InsertedStaysSorted(sorted[1..], row);
      var rest := Inserted(sorted[1..], row);
      forall i | 0 <= i < |rest| ensures sorted[0].line < rest[i].line {
        assert rest[i] in multiset(rest);
        assert rest[i] in multiset(sorted[1..]) + multiset{row};
      }
    }
  }

  lemma {:induction false} ByLineSorts(rows: seq<Row>)
    requires DistinctLines(rows)
    ensures InLineOrder(ByLine(rows))
  {
    if rows != [] {
      ByLineSorts(rows[1..]);
      var rest := ByLine(rows[1..]);
      forall i | 0 <= i < |rest| ensures rest[i].line != rows[0].line {
        assert rest[i] in multiset(rest);
        assert rest[i] in multiset(rows[1..]);
      }
      InsertedStaysSorted(rest, rows[0]);
    }
  }

  /** A set of rows with distinct lines has one arrangement by line. */
  lemma {:induction false} LineOrderIsUnique(a: seq<Row>, b: seq<Row>)
    requires InLineOrder(a) && InLineOrder(b) && multiset(a) == multiset(b)
    ensures a == b
  {
    assert |multiset(a)| == |multiset(b)|;
    if a != [] {
      assert a[0] in multiset(b) && b[0] in multiset(a);
      var i :| 0 <= i < |b| && b[i] == a[0];
      var j :| 0 <= j < |a| && a[j] == b[0];
      assert a[0] == b[0];
      assert a == [a[0]] + a[1..] && b == [b[0]] + b[1..];
      assert multiset(a[1..]) + multiset{a[0]} == multiset(a) == multiset(b) == multiset(b[1..]) + multiset{a[0]};
      Cancel(multiset(a[1..]), multiset(b[1..]), a[0]);
      LineOrderIsUnique(a[1..], b[1..]);
    }
  }

  /** An appended last line leaves the program order as it was, with the new program at its end. */
  lemma {:induction false} AppendKeepsOrder(past: seq<Row>, current: seq<Row>, added: Row)
    requires DistinctLines(past) && multiset(current) == multiset(past + [added])
    requires forall n :: 0 <= n < |past| ==> past[n].line < added.line
    ensures DistinctLines(current) && ByLine(current) == ByLine(past) + [added]
  {
    var order := ByLine(past) + [added];
    LaterLineSortsLast(past, added);
    assert multiset(order) == multiset(past) + multiset{added} == multiset(current);
    DistinctLinesPermute(order, current);
    ByLineSorts(current);
    LineOrderIsUnique(ByLine(current), order);
  }

  lemma {:induction false} LaterLineSortsLast(past: seq<Row>, added: Row)
    requires DistinctLines(past) && forall n :: 0 <= n < |past| ==> past[n].line < added.line
    ensures InLineOrder(ByLine(past) + [added])
  {
    ByLineSorts(past);
    forall i | 0 <= i < |ByLine(past)| ensures ByLine(past)[i].line < added.line {
      assert ByLine(past)[i] in multiset(past);
    }
  }

  lemma DistinctLinesPermute(a: seq<Row>, b: seq<Row>)
    requires InLineOrder(a) && multiset(a) == multiset(b)
    ensures DistinctLines(b)
  {
    NoDupCounts(a);
    NoDupCounts(b);
    assert NoDup(a) by {
      forall i, j | 0 <= i < j < |a| ensures a[i] != a[j] { assert a[i].line < a[j].line; }
    }
    assert NoDup(b) by {
      forall x ensures multiset(b)[x] <= 1 { assert multiset(a)[x] <= 1; }
    }
    forall i, j | 0 <= i < j < |b| ensures b[i].line != b[j].line {
      assert b[i] in multiset(a) && b[j] in multiset(a);
      var m :| 0 <= m < |a| && a[m] == b[i];
      var n :| 0 <= n < |a| && a[n] == b[j];
      assert b[i] != b[j];
    }
  }

  // ---------- registering a program ----------

  ghost predicate Registered(inventory: seq<Task>, name: string, fold: string -> string) {
    exists t, row :: t in inventory && row in t.rows && fold(row.name) == fold(name)
  }

  method IsRegistered(inventory: seq<Task>, name: string, fold: string -> string) returns (found: bool)
    ensures found <==> Registered(inventory, name, fold)
  {
    for n := 0 to |inventory|
      invariant forall m, row :: 0 <= m < n && row in inventory[m].rows ==> fold(row.name) != fold(name)
    {
      var rows := inventory[n].rows;
      for k := 0 to |rows|
        invariant forall m :: 0 <= m < k ==> fold(rows[m].name) != fold(name)
      {
        if fold(rows[k].name) == fold(name) {
          assert inventory[n] in inventory && rows[k] in inventory[n].rows;
          return true;
        }
      }
    }
    return false;
  }

  /** `last` is the largest line, or 0 when there is none. */
  predicate IsLast(rows: seq<Row>, last: int) {
    && last >= 0
    && (forall n :: 0 <= n < |rows| ==> rows[n].line <= last)
    && (last == 0 || exists n :: 0 <= n < |rows| && rows[n].line == last)
  }

  method LastLine(rows: seq<Row>) returns (last: int)
    ensures IsLast(rows, last)
  {
    last := 0;
    for n := 0 to |rows|
      invariant IsLast(rows[..n], last)
    {
      if rows[n].line > last {
        last := rows[n].line;
      }
      assert rows[..n + 1][n] == rows[n];
      assert forall m :: 0 <= m < n ==> rows[..n + 1][m] == rows[..n][m];
    }
    assert rows[..|rows|] == rows;
  }

  function NameOf(row: Row): string { row.name }

  /** The names of a task's rows, by line. */
  predicate Ordered(rows: seq<Row>, names: seq<string>) { Map(NameOf, ByLine(rows)) == names }

  /** What the checks on the task at `at` have established for a new row at `line`. */
  ghost predicate TaskBound(before: seq<Task>, at: nat, requested: string, created: Id, after: seq<Task>, line: int)
    requires at < |before|
  {
    && line <= MAX_LINE && IsLast(before[at].rows, line - 1)
    && BindingAccepted(before, after, before[at].task, Row(created, requested, line))
  }

  /** Everything a successful registration has established. `after` and `created` are the vendor's answers. */
  ghost predicate BindingDone(
    before: seq<Task>, expected: seq<ExpectedTask>, target: (string, string), existing: seq<string>,
    requested: string, fold: string -> string, created: Id, after: seq<Task>, line: int)
  {
    && SelectionAccepted(before, expected)
    && !Registered(before, requested, fold)
    && exists at :: 0 <= at < |before| && OnlyAt(before, TaskKey, at, target)
                    && Ordered(before[at].rows, existing)
                    && TaskBound(before, at, requested, created, after, line)
  }

  datatype Refusal =
    | UnitsDiffer | TargetIsNoProgram | UnitsChanged
    | SelectionDiffers | TargetNotUnique | TaskOrderDiffers | AlreadyRegistered | LineOverflow | ExistingTaskChanged

  datatype BindResult = Bound(line: int) | Refused(reason: Refusal)

  method Register(
    before: seq<Task>, expected: seq<ExpectedTask>, target: (string, string), existing: seq<string>,
    requested: string, fold: string -> string, created: Id, after: seq<Task>) returns (r: BindResult)
    ensures r.Bound? ==> BindingDone(before, expected, target, existing, requested, fold, created, after, r.line)
    ensures r.Refused? ==>
      forall line :: !BindingDone(before, expected, target, existing, requested, fold, created, after, line)
  {
    var selection := VerifyTaskSelection(before, expected);
    if !selection {
      return Refused(SelectionDiffers);
    }
    var targets := FindAll(before, TaskKey, target);
    if |targets| != 1 {
      return Refused(TargetNotUnique);
    }
    var at := targets[0];
    if !Ordered(before[at].rows, existing) {
      return Refused(TaskOrderDiffers);
    }
    var registered := IsRegistered(before, requested, fold);
    if registered {
      return Refused(AlreadyRegistered);
    }
    r := BindToTask(before, at, requested, created, after);
  }

  /** The rest of the registration, once the task is known and its order is the expected one. */
  method BindToTask(before: seq<Task>, at: nat, requested: string, created: Id, after: seq<Task>)
    returns (r: BindResult)
    requires at < |before|
    ensures r.Bound? ==> TaskBound(before, at, requested, created, after, r.line)
    ensures r.Refused? ==> forall line :: !TaskBound(before, at, requested, created, after, line)
  {
    var last := LastLine(before[at].rows);
    forall other | IsLast(before[at].rows, other)
      ensures other == last
    {
      LastIsOne(before[at].rows, last, other);
    }
    if last >= MAX_LINE {
      return Refused(LineOverflow);
    }
    var bound := VerifyBinding(before, after, before[at].task, Row(created, requested, last + 1));
    if !bound {
      return Refused(ExistingTaskChanged);
    }
    return Bound(last + 1);
  }

  // ---------- the program units around the registration ----------

  /** A program unit of the request, with what is read of it before and after the registration. */
  datatype Unit = Unit(owner: Id, kind: int, body: seq<Byte>, listedKind: int, listedBody: seq<Byte>,
      bodyAfter: seq<Byte>)

  const PROGRAM_KIND := 0x0100_0000

  function OwnerOf(u: Unit): Id { u.owner }

  predicate UnitRead(u: Unit) { u.kind == u.listedKind && u.body == u.listedBody }

  /** Each unit is as listed, they are children of the collection, none twice, and as many as it has children. */
  predicate UnitsAccepted(owners: seq<Id>, units: seq<Unit>) {
    && |owners| == |units|
    && NoDup(Map(OwnerOf, units))
    && forall n :: 0 <= n < |units| ==> UnitRead(units[n]) && units[n].owner in owners
  }

  /** Afterwards: as many children, every old one among them, and every body as listed. */
  predicate UnitsKept(owners: seq<Id>, ownersAfter: seq<Id>, units: seq<Unit>) {
    && |ownersAfter| == |owners|
    && (forall n :: 0 <= n < |owners| ==> owners[n] in ownersAfter)
    && forall n :: 0 <= n < |units| ==> units[n].bodyAfter == units[n].listedBody
  }

  method VerifyUnits(owners: seq<Id>, units: seq<Unit>) returns (ok: bool)
    ensures ok <==> UnitsAccepted(owners, units)
  {
    var verified: seq<Id> := [];
    for n := 0 to |units|
      invariant verified == Map(OwnerOf, units)[..n] && NoDup(verified)
      invariant forall m :: 0 <= m < n ==> UnitRead(units[m]) && units[m].owner in owners
    {
      if !UnitRead(units[n]) || units[n].owner !in owners {
        return false;
      }
      if units[n].owner in verified {
        ghost var m :| 0 <= m < n && verified[m] == units[n].owner;
        assert Map(OwnerOf, units)[m] == Map(OwnerOf, units)[n];
        return false;
      }
      verified := verified + [units[n].owner];
    }
    assert verified == Map(OwnerOf, units);
    ok := |owners| == |verified|;
  }

  method VerifyUnitsAfter(owners: seq<Id>, ownersAfter: seq<Id>, units: seq<Unit>) returns (ok: bool)
    ensures ok <==> UnitsKept(owners, ownersAfter, units)
  {
    if |ownersAfter| != |owners| {
      return false;
    }
    for n := 0 to |owners|
      invariant forall m :: 0 <= m < n ==> owners[m] in ownersAfter
    {
      if owners[n] !in ownersAfter {
        return false;
      }
    }
    for n := 0 to |units|
      invariant forall m :: 0 <= m < n ==> units[m].bodyAfter == units[m].listedBody
    {
      if units[n].bodyAfter != units[n].listedBody {
        return false;
      }
    }
    return true;
  }

  /**
  With both checks, the collection holds the listed units and no others, before and after, up to order; only
  memberships and counts were looked at, and no child was assumed to be listed once.
  */
  lemma UnitsAreTheSame(owners: seq<Id>, ownersAfter: seq<Id>, units: seq<Unit>)
    requires UnitsAccepted(owners, units) && UnitsKept(owners, ownersAfter, units)
    ensures NoDup(owners)
    ensures multiset(owners) == multiset(Map(OwnerOf, units)) == multiset(ownersAfter)
    ensures forall n :: 0 <= n < |units| ==> units[n].bodyAfter == units[n].body
  {
    var listed := Map(OwnerOf, units);
    forall n | 0 <= n < |listed| ensures listed[n] in owners { assert listed[n] == units[n].owner; }
    CoveredIsPermuted(owners, listed);
    NoDupCounts(listed);
    NoDupCounts(owners);
    forall x ensures multiset(owners)[x] <= 1 { assert multiset(listed)[x] <= 1; }
    assert NoDup(owners);
    CoveredIsPermuted(ownersAfter, owners);
    assert forall n :: 0 <= n < |units| ==> UnitRead(units[n]);
  }

  /** The whole operation: the units, the target, the registration, and the units again. */
  method BindProgramTask(
    owners: seq<Id>, ownersAfter: seq<Id>, units: seq<Unit>, target: Unit,
    before: seq<Task>, expected: seq<ExpectedTask>, place: (string, string), existing: seq<string>,
    requested: string, fold: string -> string, created: Id, after: seq<Task>) returns (r: BindResult)
    ensures r.Bound? ==>
      && UnitsAccepted(owners, units) && target.kind == PROGRAM_KIND && target.body == target.listedBody
      && BindingDone(before, expected, place, existing, requested, fold, created, after, r.line)
      && UnitsKept(owners, ownersAfter, units)
    ensures r.Refused? ==>
      forall line ::
        !(UnitsAccepted(owners, units) && target.kind == PROGRAM_KIND && target.body == target.listedBody
          && BindingDone(before, expected, place, existing, requested, fold, created, after, line)
          && UnitsKept(owners, ownersAfter, units))
  {
    var accepted := VerifyUnits(owners, units);
    if !accepted {
      return Refused(UnitsDiffer);
    }
    if target.kind != PROGRAM_KIND || target.body != target.listedBody {
      return Refused(TargetIsNoProgram);
    }
    r := Register(before, expected, place, existing, requested, fold, created, after);
    if r.Bound? {
      var kept := VerifyUnitsAfter(owners, ownersAfter, units);
      if !kept {
        return Refused(UnitsChanged);
      }
    }
  }

  lemma LastIsOne(rows: seq<Row>, a: int, b: int)
    requires IsLast(rows, a) && IsLast(rows, b)
    ensures a == b
  {
  }

  /** The names of an accepted selection are distinct among the actual tasks too. */
  lemma SelectionNamesDistinct(actual: seq<Task>, expected: seq<ExpectedTask>)
    requires SelectionAccepted(actual, expected)
    ensures NoDup(Map(TaskKey, actual))
  {
    var a, e := Map(TaskKey, actual), Map(ExpectedKey, expected);
    forall j | 0 <= j < |e| ensures e[j] in a {
      assert TaskAccepted(actual, expected[j]);
      var i :| 0 <= i < |actual| && OnlyAt(actual, TaskKey, i, ExpectedKey(expected[j]));
      assert a[i] == e[j];
    }
    CoveredIsPermuted(a, e);
    NoDupCounts(a);
    NoDupCounts(e);
    forall x ensures multiset(a)[x] <= 1 { assert multiset(e)[x] <= 1; }
  }

  /** Names are read through the id, so distinct names mean distinct ids: nothing else assumes that. */
  lemma ReadIdsDistinct(ws: Workspace, inventory: seq<Task>)
    requires ReadFrom(ws, inventory) && NoDup(Map(TaskKey, inventory))
    ensures NoDup(Map(TaskId, inventory))
  {
    forall i, j | 0 <= i < j < |inventory| ensures Map(TaskId, inventory)[i] != Map(TaskId, inventory)[j] {
      assert inventory[i] in inventory && inventory[j] in inventory;
      assert Map(TaskKey, inventory)[i] != Map(TaskKey, inventory)[j];
    }
  }

  /**
  A registration that passes its checks added exactly one row: same tasks, configurations and
  rows elsewhere, the new row last in its task, and the old program order kept before it.
  */
  lemma {:induction false} BindingAddsOneRow(
    ws: Workspace, before: seq<Task>, expected: seq<ExpectedTask>, target: (string, string), existing: seq<string>,
    requested: string, fold: string -> string, created: Id, after: seq<Task>, line: int) returns (at: nat, s: nat)
    requires ReadFrom(ws, before)
    requires BindingDone(before, expected, target, existing, requested, fold, created, after, line)
    ensures at < |before| && TaskKey(before[at]) == target
    ensures SameInventory(after, Appended(before, at, Row(created, requested, line)))
    ensures s < |after| && OnlyAt(after, TaskId, s, before[at].task)
    ensures DistinctLines(after[s].rows)
    ensures ByLine(after[s].rows) == ByLine(before[at].rows) + [Row(created, requested, line)]
    ensures Map(NameOf, ByLine(after[s].rows)) == existing + [requested]
  {
    at := BindingAppends(ws, before, expected, target, existing, requested, fold, created, after, line);
    var added := Row(created, requested, line);
    var wanted := Appended(before, at, added);
    assert Map(TaskId, wanted) == Map(TaskId, before);
    s := ExtendedTask(after, wanted, at);
    assert HeldOf(after[s]).rows == HeldOf(wanted[at]).rows;
    assert before[at] in before;
    ExtendedOrder(before[at].rows, after[s].rows, added);
  }

  lemma {:induction false} ExtendedOrder(past: seq<Row>, current: seq<Row>, added: Row)
    requires DistinctLines(past) && multiset(current) == multiset(past + [added]) && IsLast(past, added.line - 1)
    ensures DistinctLines(current) && ByLine(current) == ByLine(past) + [added]
    ensures Map(NameOf, ByLine(current)) == Map(NameOf, ByLine(past)) + [added.name]
  {
    AppendKeepsOrder(past, current, added);
    NamesAppend(ByLine(past), added);
  }

  lemma NamesAppend(rows: seq<Row>, added: Row)
    ensures Map(NameOf, rows + [added]) == Map(NameOf, rows) + [added.name]
  {
  }

  lemma {:induction false} BindingAppends(
    ws: Workspace, before: seq<Task>, expected: seq<ExpectedTask>, target: (string, string), existing: seq<string>,
    requested: string, fold: string -> string, created: Id, after: seq<Task>, line: int) returns (at: nat)
    requires ReadFrom(ws, before)
    requires BindingDone(before, expected, target, existing, requested, fold, created, after, line)
    ensures at < |before| && TaskKey(before[at]) == target && Map(NameOf, ByLine(before[at].rows)) == existing
    ensures IsLast(before[at].rows, line - 1) && NoDup(Map(TaskId, before))
    ensures SameInventory(after, Appended(before, at, Row(created, requested, line)))
  {
    var added := Row(created, requested, line);
    at :| 0 <= at < |before| && OnlyAt(before, TaskKey, at, target)
          && Ordered(before[at].rows, existing) && IsLast(before[at].rows, line - 1)
          && BindingAccepted(before, after, before[at].task, added);
    SelectionNamesDistinct(before, expected);
    ReadIdsDistinct(ws, before);
    BindingIsAppend(before, after, at, added);
  }
}
