/**
 * The status board: columns of tasks where each task carries its column's id
 * and a priority, and every change to a column renumbers that column's
 * priorities to 1..n in stable priority order.
 */
module StatusBoard {
  import opened Options
  import opened Text
  import opened DropGating
  import opened Priorities

  datatype StatusColumn = StatusColumn(id: string, title: string, flags: RejectFlags)

  /** The open edit session: the task being edited and the values it had. */
  datatype EditingTask = EditingTask(
    taskId: string, statusId: string,
    originalContent: string, originalPriority: int,
    currentContent: string, currentPriority: int)

  /** `statusColumns.map(column => column.id)`. */
  function ColumnIds(cols: seq<StatusColumn>): (ids: seq<string>)
    ensures |ids| == |cols|
  {
    seq(|cols|, k requires 0 <= k < |cols| => cols[k].id)
  }

  /** `statusColumns.find(col => col.id === id)`: the first column with that id. */
  function FindColumn(cols: seq<StatusColumn>, id: string): (r: Option<StatusColumn>)
    ensures r.None? <==> forall k :: 0 <= k < |cols| ==> cols[k].id != id
    ensures r.Some? ==> r.value.id == id && exists k :: 0 <= k < |cols| && cols[k] == r.value
  {
    if cols == [] then None
    else if cols[0].id == id then Some(cols[0])
    else
      assert forall k :: 1 <= k < |cols| ==> cols[k] == cols[1..][k - 1];
      var r := FindColumn(cols[1..], id);
      if r.Some? then assert r.value in cols[1..]; r else r
  }

  /** The ids offered as drop targets are exactly the ids a drop can resolve. */
  lemma ConnectedIdsResolve(cols: seq<StatusColumn>, id: string)
    ensures id in ColumnIds(cols) <==> FindColumn(cols, id).Some?
  {
    if id in ColumnIds(cols) {
      var k :| 0 <= k < |cols| && ColumnIds(cols)[k] == id;
    }
    if FindColumn(cols, id).Some? {
      var k :| 0 <= k < |cols| && cols[k].id == id;
      assert ColumnIds(cols)[k] == id;
    }
  }

  function FlagsOf(c: Option<StatusColumn>): Option<RejectFlags>
  {
    if c.None? then None else Some(c.value.flags)
  }

  /** The verdict of `drop` for a move from one container to another. */
  function Gate(cols: seq<StatusColumn>, previousContainerId: string, containerId: string): Verdict
  {
    var previous := FindColumn(cols, previousContainerId);
    var current := FindColumn(cols, containerId);
    DropGate(FlagsOf(previous), FlagsOf(current), current.Some? && current.value.id == previousContainerId)
  }

  /** The same-list branch of `drop`: the task at place `k` of the reordered
      list gets priority `k + 1`, looked up by id. */
  function Reprioritised(tasks: seq<Task>, data: seq<Task>, n: nat): (r: seq<Task>)
    requires n <= |data|
    ensures |r| == |tasks|
    ensures forall i :: 0 <= i < |tasks| ==>
              r[i].id == tasks[i].id && r[i].content == tasks[i].content && r[i].statusId == tasks[i].statusId
  {
    if n == 0 then tasks
    else
      var t := Reprioritised(tasks, data, n - 1);
      var i := IndexOfId(t, data[n - 1].id);
      if i == -1 then t else t[i := t[i].(priority := n)]
  }

  /** The last task placed by the same-list branch ends with priority `n`. */
  lemma ReprioritisedLast(tasks: seq<Task>, data: seq<Task>, n: nat)
    requires 0 < n <= |data| && IndexOfId(tasks, data[n - 1].id) != -1
    ensures Reprioritised(tasks, data, n)[IndexOfId(tasks, data[n - 1].id)].priority == n
  {
    var t := Reprioritised(tasks, data, n - 1);
    assert IndexOfId(t, data[n - 1].id) == IndexOfId(tasks, data[n - 1].id) by { IdsFrame(tasks, t); }
  }

  /** A later step `n` of the same-list branch does not disturb the priority an
      earlier task of the list was given. */
  lemma ReprioritisedKeeps(tasks: seq<Task>, data: seq<Task>, n: nat, k: nat)
    requires 0 < n <= |data| && k < n - 1 && UniqueIds(data)
    requires IndexOfId(tasks, data[k].id) != -1
    requires Reprioritised(tasks, data, n - 1)[IndexOfId(tasks, data[k].id)].priority == k + 1
    ensures Reprioritised(tasks, data, n)[IndexOfId(tasks, data[k].id)].priority == k + 1
  {
    assert data[n - 1].id != data[k].id;
  }

  /** `Reprioritised` at `m` and at `n - 1` is one list when `m == n - 1`. */
  lemma ReprioritisedAt(tasks: seq<Task>, data: seq<Task>, m: nat, n: nat, x: nat, p: int)
    requires 0 < n <= |data| && m == n - 1 && x < |tasks|
    requires Reprioritised(tasks, data, m)[x].priority == p
    ensures Reprioritised(tasks, data, n - 1)[x].priority == p
  {
  }

  /** The same-list branch leaves the reordered list in order: the task at place
      `k` of the list (when its id is on the board) ends with priority `k + 1`. */
  lemma {:induction false} ReprioritisedRank(tasks: seq<Task>, data: seq<Task>, n: nat, k: nat)
    requires n <= |data| && k < n && UniqueIds(data)
    requires IndexOfId(tasks, data[k].id) != -1
    ensures Reprioritised(tasks, data, n)[IndexOfId(tasks, data[k].id)].priority == k + 1
    decreases n
  {
    if n - 1 == k {
      ReprioritisedLast(tasks, data, n);
    } else {
      var m := n - 1;
      ReprioritisedRank(tasks, data, m, k);
      ReprioritisedAt(tasks, data, m, n, IndexOfId(tasks, data[k].id), k + 1);
      ReprioritisedKeeps(tasks, data, n, k);
    }
  }

  /** Renumbering every column keeps the strict priority order of two tasks of one column. */
  lemma {:induction false} RenumberAllKeepsOrder(tasks: seq<Task>, ids: seq<string>, i: nat, j: nat)
    requires i < |tasks| && j < |tasks| && tasks[i].statusId == tasks[j].statusId
    requires tasks[i].priority < tasks[j].priority
    ensures RenumberAll(tasks, ids)[i].priority < RenumberAll(tasks, ids)[j].priority
    decreases |ids|
  {
    if ids != [] {
      var first := Renumber(tasks, ids[0]);
      if tasks[i].statusId == ids[0] {
        RenumberOrder(tasks, ids[0], i, j);
      }
      RenumberAllKeepsOrder(first, ids[1..], i, j);
    }
  }

  /** An accepted drop within one list leaves that list's tasks in the dropped
      order: of two tasks of one column that the reordered list holds, the
      earlier one ends with the smaller priority once every column is renumbered. */
  lemma InListDropKeepsOrder(tasks: seq<Task>, data: seq<Task>, ids: seq<string>, k1: nat, k2: nat)
    requires k1 < k2 < |data| && UniqueIds(data)
    requires IndexOfId(tasks, data[k1].id) != -1 && IndexOfId(tasks, data[k2].id) != -1
    requires tasks[IndexOfId(tasks, data[k1].id)].statusId == tasks[IndexOfId(tasks, data[k2].id)].statusId
    ensures var r := RenumberAll(Reprioritised(tasks, data, |data|), ids);
            r[IndexOfId(tasks, data[k1].id)].priority < r[IndexOfId(tasks, data[k2].id)].priority
  {
    ReprioritisedRank(tasks, data, |data|, k1);
    ReprioritisedRank(tasks, data, |data|, k2);
    RenumberAllKeepsOrder(Reprioritised(tasks, data, |data|), ids, IndexOfId(tasks, data[k1].id), IndexOfId(tasks, data[k2].id));
  }

  /** The cross-list branch of `drop`: the moved task takes the target column's id. */
  function MoveToColumn(tasks: seq<Task>, taskId: string, statusId: string): (r: seq<Task>)
    ensures |r| == |tasks|
    ensures forall i :: 0 <= i < |tasks| ==> r[i].id == tasks[i].id && r[i].content == tasks[i].content
    ensures forall i :: 0 <= i < |tasks| && i != IndexOfId(tasks, taskId) ==> r[i] == tasks[i]
    ensures IndexOfId(tasks, taskId) != -1 ==>
              r[IndexOfId(tasks, taskId)] == tasks[IndexOfId(tasks, taskId)].(statusId := statusId)
  {
    var i := IndexOfId(tasks, taskId);
    if i == -1 then tasks else tasks[i := tasks[i].(statusId := statusId)]
  }

  /** The task list right after the move of an accepted `drop`, before the final renumbering. */
  function Moved(tasks: seq<Task>, sameContainer: bool, containerData: seq<Task>, movedTaskId: string,
                 previousId: string, currentId: string): (r: seq<Task>)
    ensures |r| == |tasks|
    ensures forall i :: 0 <= i < |tasks| ==> r[i].id == tasks[i].id && r[i].content == tasks[i].content
  {
    if sameContainer then Reprioritised(tasks, containerData, |containerData|)
    else Renumber(Renumber(MoveToColumn(tasks, movedTaskId, currentId), previousId), currentId)
  }

  /** `RenumberAll` over a list grown by one id is one more renumbering. */
  lemma {:induction false} RenumberAllSnoc(tasks: seq<Task>, ids: seq<string>, s: string)
    ensures RenumberAll(tasks, ids + [s]) == Renumber(RenumberAll(tasks, ids), s)
    decreases |ids|
  {
    if ids == [] {
      assert ids + [s] == [s];
      assert [s][1..] == [];
    } else {
      assert (ids + [s])[1..] == ids[1..] + [s];
      RenumberAllSnoc(Renumber(tasks, ids[0]), ids[1..], s);
    }
  }

  /** Renumbering the columns of a prefix one longer is one more renumbering. */
  lemma RenumberAllPrefix(tasks: seq<Task>, ids: seq<string>, k: nat)
    requires k < |ids|
    ensures RenumberAll(tasks, ids[..k + 1]) == Renumber(RenumberAll(tasks, ids[..k]), ids[k])
  {
    var prefix, next := ids[..k], ids[..k + 1];
    assert next == prefix + [ids[k]];
    RenumberAllSnoc(tasks, prefix, ids[k]);
  }

  /** After renumbering all columns, every listed column is dense. */
  lemma RenumberAllDenseEach(tasks: seq<Task>, ids: seq<string>)
    ensures forall s :: s in ids ==> Dense(RenumberAll(tasks, ids), s)
  {
    forall s | s in ids
      ensures Dense(RenumberAll(tasks, ids), s)
    {
      RenumberAllDense(tasks, ids, s);
    }
  }

  /** The columns `ngOnInit` sets up; only the reject column is a reject column, and it is off. */
  function InitialColumns(): (cols: seq<StatusColumn>)
    ensures ColumnIds(cols) == ["todoList", "doneList", "rejectList"]
    ensures forall c :: c in cols ==> (c.flags.isRejectColumn <==> c.id == "rejectList") && !c.flags.isRejectEnabled
  {
    [ StatusColumn("todoList", "To do", RejectFlags(false, false)),
      StatusColumn("doneList", "Done", RejectFlags(false, false)),
      StatusColumn("rejectList", "Reject", RejectFlags(true, false)) ]
  }

  /** On the columns `ngOnInit` sets up, a drop passes the gate exactly when it
      goes from and to `todoList` or `doneList`: the reject column is off. */
  lemma InitialColumnsGate(previousContainerId: string, containerId: string)
    ensures Gate(InitialColumns(), previousContainerId, containerId) == Accepted <==>
              previousContainerId in ["todoList", "doneList"] && containerId in ["todoList", "doneList"]
  {
    InitialColumnFlags(previousContainerId);
    InitialColumnFlags(containerId);
  }

  /** The flags a lookup on the initial columns finds for `id`. */
  lemma InitialColumnFlags(id: string)
    ensures FlagsOf(FindColumn(InitialColumns(), id)) ==
              if id == "todoList" || id == "doneList" then Some(RejectFlags(false, false))
              else if id == "rejectList" then Some(RejectFlags(true, false))
              else None
  {
    var cols := InitialColumns();
    ConnectedIdsResolve(cols, id);
  }

  /** The tasks `ngOnInit` sets up: four in `todoList`, five in `doneList`, with distinct ids. */
  function InitialTaskList(): (r: seq<Task>)
    ensures |r| == 9 && UniqueIds(r)
  {
    var r := [
      Task("task-1", "Get to work", "todoList", 1),
      Task("task-2", "Pick up groceries", "todoList", 2),
      Task("task-3", "Go home", "todoList", 3),
      Task("task-4", "Fall asleep", "todoList", 4),
      Task("task-5", "Get up", "doneList", 1),
      Task("task-6", "Brush teeth", "doneList", 2),
      Task("task-7", "Take a shower", "doneList", 3),
      Task("task-8", "Check e-mail", "doneList", 4),
      Task("task-9", "Walk dog", "doneList", 5)
    ];
    assert forall i, j :: 0 <= i < j < |r| ==> r[i].id[5] != r[j].id[5];
    r
  }

  /** Putting new values into task `i` and renumbering its column leaves every
      column that was dense dense: the task's own column by renumbering, the
      others because none of their tasks changed. */
  lemma RestoreKeepsDense(tasks: seq<Task>, i: nat, content: string, priority: int)
    requires i < |tasks|
    ensures var r := Renumber(tasks[i := tasks[i].(content := content, priority := priority)], tasks[i].statusId);
            forall s :: Dense(tasks, s) ==> Dense(r, s)
  {
    var c := tasks[i].statusId;
    var u := tasks[i := tasks[i].(content := content, priority := priority)];
    var r := Renumber(u, c);
    forall s | Dense(tasks, s)
      ensures Dense(r, s)
    {
      if s == c {
        RenumberDense(u, c);
      } else {
        DenseFrame(tasks, r, s);
      }
    }
  }

  /** `addTask`'s append-then-renumber keeps every dense column dense. */
  lemma AppendRenumberKeepsDense(tasks: seq<Task>, t: Task)
    ensures forall s :: Dense(tasks, s) ==> Dense(Renumber(tasks + [t], t.statusId), s)
  {
    var u := tasks + [t];
    var r := Renumber(u, t.statusId);
    forall s | Dense(tasks, s)
      ensures Dense(r, s)
    {
      if s == t.statusId {
        RenumberDense(u, s);
      } else {
        AppendKeepsDense(tasks, t, s);
        DenseFrame(u, r, s);
      }
    }
  }

  /** `deleteTask`'s remove-then-renumber keeps every dense column dense. */
  lemma RemoveRenumberKeepsDense(tasks: seq<Task>, i: nat)
    requires i < |tasks|
    ensures forall s :: Dense(tasks, s) ==> Dense(Renumber(RemoveAt(tasks, i), tasks[i].statusId), s)
  {
    var c := tasks[i].statusId;
    var u := RemoveAt(tasks, i);
    var r := Renumber(u, c);
    forall s | Dense(tasks, s)
      ensures Dense(r, s)
    {
      if s == c {
        RenumberDense(u, s);
      } else {
        RemoveKeepsDense(tasks, i, s);
        DenseFrame(u, r, s);
      }
    }
  }

  /** `cancelEdit` as the source writes it: the task gets its recorded content
      and priority back and the RECORDED column is renumbered. When a drop has
      moved the task to another column since the session opened, the restored
      priority stays as it is in the task's present column. */
  function CancelledAsWritten(tasks: seq<Task>, e: EditingTask): (r: seq<Task>)
    ensures |r| == |tasks|
    ensures IndexOfId(tasks, e.taskId) == -1 ==> r == tasks
    ensures var i := IndexOfId(tasks, e.taskId);
            i != -1 && tasks[i].statusId != e.statusId ==>
              r[i] == tasks[i].(content := e.originalContent, priority := e.originalPriority)
  {
    var i := IndexOfId(tasks, e.taskId);
    if i == -1 then tasks
    else Renumber(tasks[i := tasks[i].(content := e.originalContent, priority := e.originalPriority)], e.statusId)
  }

  /** Cancelling as written breaks a dense column: if the edited task now sits
      in a column `c` other than the recorded one, and another task of `c`
      holds the recorded priority, `c` ends with two tasks at that priority.
      (For instance task A, recorded in `todoList` at priority 1, dropped into
      a `doneList` where C, listed before A, keeps 1 and A gets 2.) */
  lemma CancelAsWrittenBreaksDensity(tasks: seq<Task>, e: EditingTask, j: nat)
    requires IndexOfId(tasks, e.taskId) != -1
    requires tasks[IndexOfId(tasks, e.taskId)].statusId != e.statusId
    requires j < |tasks| && j != IndexOfId(tasks, e.taskId)
    requires tasks[j].statusId == tasks[IndexOfId(tasks, e.taskId)].statusId
    requires tasks[j].priority == e.originalPriority
    ensures !Dense(CancelledAsWritten(tasks, e), tasks[j].statusId)
  {
    var i := IndexOfId(tasks, e.taskId);
    var r := CancelledAsWritten(tasks, e);
    assert r[i].priority == r[j].priority;
  }

  /** The defect is reachable from a dense board: C, alone in column `col`, is
      listed before A, alone in another column; `editTask(A)`
      records A's column and priority; a drop moves A into `col`, where C, listed
      first, keeps the smaller priority; `cancelEdit` as written then leaves `col`
      with A and C at one priority. */
  lemma CancelAfterCrossDrop(c: Task, a: Task, col: string)
    requires c.statusId == col && a.statusId != col && c.id != a.id
    requires c.priority == 1 && a.priority == 1
    ensures var e := EditingTask(a.id, a.statusId, a.content, a.priority, a.content, a.priority);
            var post := Moved([c, a], false, [], a.id, a.statusId, col);
            && Dense(post, col)
            && !Dense(CancelledAsWritten(post, e), col)
  {
    var pre := [c, a];
    var e := EditingTask(a.id, a.statusId, a.content, a.priority, a.content, a.priority);
    assert IndexOfId(pre, a.id) == 1;
    var m := MoveToColumn(pre, a.id, col);
    assert m == [c, a.(statusId := col)];
    assert Renumber(m, a.statusId) == m;
    var post := Renumber(m, col);
    assert Filter(m, col) == m;
    CountFrame(m, post, col);
    RenumberOrder(m, col, 0, 1);
    RenumberDense(m, col);
    IdsFrame(m, post);
    assert IndexOfId(post, a.id) == 1;
    assert Count(post, col) == 2;
    assert post[0].statusId == col && post[1].statusId == col;
    assert 1 <= post[0].priority < post[1].priority <= 2;
    CancelAsWrittenBreaksDensity(post, e, 0);
  }

  /** The same instance on the columns `ngOnInit` sets up, where the drop from
      `todoList` to `doneList` passes the gate. */
  lemma CancelAsWrittenReachable()
    ensures var pre := [Task("task-c", "C", "doneList", 1), Task("task-a", "A", "todoList", 1)];
            var e := EditingTask("task-a", "todoList", "A", 1, "A", 1);
            var post := Moved(pre, false, [], "task-a", "todoList", "doneList");
            && Gate(InitialColumns(), "todoList", "doneList") == Accepted
            && Dense(post, "doneList")
            && !Dense(CancelledAsWritten(post, e), "doneList")
  {
    InitialColumnsGate("todoList", "doneList");
    CancelAfterCrossDrop(Task("task-c", "C", "doneList", 1), Task("task-a", "A", "todoList", 1), "doneList");
  }

  class Board {
    var statusColumns: seq<StatusColumn>
    var tasks: seq<Task>
    var newTaskContent: string
    var newTaskPriority: int
    var newColumnTitle: string
    var editingTask: Option<EditingTask>

    /** Task ids are unique: `findIndex` by id then names one task. */
    ghost predicate Valid()
      reads this
    {
      UniqueIds(tasks)
    }

    /** The field initialisers: no columns, no tasks, empty inputs, no session. */
    constructor ()
      ensures Valid()
      ensures statusColumns == [] && tasks == []
      ensures newTaskContent == "" && newTaskPriority == 1 && newColumnTitle == "" && editingTask == None
    {
      statusColumns := [];
      tasks := [];
      newTaskContent := "";
      newTaskPriority := 1;
      newColumnTitle := "";
      editingTask := None;
    }

    /** `ngOnInit`: three columns and nine tasks, then every column renumbered. */
    method OnInit()
      modifies this`statusColumns, this`tasks
      ensures Valid()
      ensures statusColumns == InitialColumns()
      ensures ColumnIds(statusColumns) == ["todoList", "doneList", "rejectList"]
      ensures tasks == RenumberAll(InitialTaskList(), ColumnIds(statusColumns))
      ensures |tasks| == 9
      ensures forall s :: s in ColumnIds(statusColumns) ==> Dense(tasks, s)
    {
      statusColumns := InitialColumns();
      tasks := InitialTaskList();
      SortTasksInAllColumns();
    }

    /** `sortTasksInColumn(statusId)`: walks the column in stable priority order
        and gives the `k`-th task priority `k + 1`. */
    method SortTasksInColumn(statusId: string)
      requires Valid()
      modifies this`tasks
      ensures Valid()
      ensures tasks == Renumber(old(tasks), statusId)
      ensures Dense(tasks, statusId)
    {
      var tasksInStatus := TasksByStatus(tasks, statusId);
      ghost var before := tasks;
      RenumberedUpToZero(before, statusId);
      for index := 0 to |tasksInStatus|
        invariant tasks == RenumberedUpTo(before, statusId, index)
      {
        RenumberStep(before, statusId, index);
        var originalTaskIndex := IndexOfId(tasks, tasksInStatus[index].id);
        if originalTaskIndex != -1 {
          tasks := tasks[originalTaskIndex := tasks[originalTaskIndex].(priority := index + 1)];
        }
      }
      RenumberFinish(before, statusId);
    }

    /** `sortTasksInAllColumns`: afterwards every column holds the priorities 1..n. */
    method SortTasksInAllColumns()
      requires Valid()
      modifies this`tasks
      ensures Valid()
      ensures tasks == RenumberAll(old(tasks), ColumnIds(statusColumns))
      ensures forall s :: s in ColumnIds(statusColumns) ==> Dense(tasks, s)
    {
      ghost var ids := ColumnIds(statusColumns);
      for k := 0 to |statusColumns|
        invariant Valid()
        invariant tasks == RenumberAll(old(tasks), ids[..k])
      {
        assert ids[k] == statusColumns[k].id;
        RenumberAllPrefix(old(tasks), ids, k);
        SortTasksInColumn(statusColumns[k].id);
      }
      assert ids[..|statusColumns|] == ids;
      RenumberAllDenseEach(old(tasks), ids);
    }

    /** `addColumn`: a blank title changes nothing; otherwise one column is
        appended with the trimmed title and an id derived from it (no check that
        the id is new). */
    method AddColumn()
      requires Valid()
      modifies this`statusColumns, this`newColumnTitle
      ensures Valid()
      ensures Trim(old(newColumnTitle)) == [] ==>
                statusColumns == old(statusColumns) && newColumnTitle == old(newColumnTitle)
      ensures Trim(old(newColumnTitle)) != [] ==>
                && statusColumns == old(statusColumns) + [StatusColumn(ColumnIdFor(old(newColumnTitle)), Trim(old(newColumnTitle)), RejectFlags(false, false))]
                && newColumnTitle == ""
    {
      if Trim(newColumnTitle) != [] {
        var newColumnId := ColumnIdFor(newColumnTitle);
        statusColumns := statusColumns + [StatusColumn(newColumnId, Trim(newColumnTitle), RejectFlags(false, false))];
        newColumnTitle := "";
      }
    }

    /** `drop`, with the library's list moves given as their results:
        `containerData` is the target list after an in-list move, and
        `movedTaskId` the id of the task a cross-list move put at the drop
        position. A refused drop changes nothing; an accepted one keeps every
        task, its id and its content, and leaves every column numbered 1..n. */
    method Drop(previousContainerId: string, containerId: string, sameContainer: bool,
                containerData: seq<Task>, movedTaskId: string)
      requires Valid()
      requires sameContainer ==> previousContainerId == containerId
      modifies this`tasks
      ensures Valid()
      ensures Gate(statusColumns, previousContainerId, containerId) != Accepted ==> tasks == old(tasks)
      ensures Gate(statusColumns, previousContainerId, containerId) == Accepted ==>
                tasks == RenumberAll(Moved(old(tasks), sameContainer, containerData, movedTaskId, previousContainerId, containerId),
                                     ColumnIds(statusColumns))
      ensures |tasks| == |old(tasks)|
      ensures forall i :: 0 <= i < |tasks| ==> tasks[i].id == old(tasks)[i].id && tasks[i].content == old(tasks)[i].content
      ensures Gate(statusColumns, previousContainerId, containerId) == Accepted ==>
                forall s :: s in ColumnIds(statusColumns) ==> Dense(tasks, s)
    {
      var previousStatusColumn := FindColumn(statusColumns, previousContainerId);
      var currentStatusColumn := FindColumn(statusColumns, containerId);
      ghost var verdict := Gate(statusColumns, previousContainerId, containerId);
      if previousStatusColumn.None? || currentStatusColumn.None? {
        assert verdict == UnknownContainer;
        return;
      }
      var previous, current := previousStatusColumn.value, currentStatusColumn.value;
      if current.flags.isRejectColumn && !current.flags.isRejectEnabled {
        assert verdict == TargetRejectOff;
        return;
      }
      if previous.flags.isRejectColumn && !previous.flags.isRejectEnabled {
        assert verdict == SourceRejectOff;
        return;
      }
      // The gate's third check (a disabled reject column reordered in place) is
      // subsumed by the target check above and cannot be reached here.
      assert verdict == Accepted;
      Rearrange(sameContainer, containerData, movedTaskId, previous.id, current.id);
    }

    /** What an accepted `drop` does: the in-list or cross-list update, then
        every column renumbered. */
    method Rearrange(sameContainer: bool, containerData: seq<Task>, movedTaskId: string,
                     previousId: string, currentId: string)
      requires Valid()
      modifies this`tasks
      ensures Valid()
      ensures tasks == RenumberAll(Moved(old(tasks), sameContainer, containerData, movedTaskId, previousId, currentId),
                                   ColumnIds(statusColumns))
      ensures |tasks| == |old(tasks)|
      ensures forall i :: 0 <= i < |tasks| ==> tasks[i].id == old(tasks)[i].id && tasks[i].content == old(tasks)[i].content
      ensures forall s :: s in ColumnIds(statusColumns) ==> Dense(tasks, s)
    {
      if sameContainer {
        ReprioritiseFrom(containerData);
      } else {
        MoveAcross(movedTaskId, previousId, currentId);
      }
      SortTasksInAllColumns();
    }

    /** The in-list branch of `drop`: each task of the reordered list gets its
        place plus one as priority. */
    method ReprioritiseFrom(containerData: seq<Task>)
      requires Valid()
      modifies this`tasks
      ensures Valid()
      ensures tasks == Reprioritised(old(tasks), containerData, |containerData|)
      ensures UniqueIds(containerData) ==>
                forall k :: 0 <= k < |containerData| && IndexOfId(old(tasks), containerData[k].id) != -1 ==>
                  tasks[IndexOfId(old(tasks), containerData[k].id)].priority == k + 1
    {
      for index := 0 to |containerData|
        invariant tasks == Reprioritised(old(tasks), containerData, index)
      {
        var originalTaskIndex := IndexOfId(tasks, containerData[index].id);
        if originalTaskIndex != -1 {
          tasks := tasks[originalTaskIndex := tasks[originalTaskIndex].(priority := index + 1)];
        }
      }
      IdsFrame(old(tasks), tasks);
      if UniqueIds(containerData) {
        forall k | 0 <= k < |containerData| && IndexOfId(old(tasks), containerData[k].id) != -1
          ensures tasks[IndexOfId(old(tasks), containerData[k].id)].priority == k + 1
        {
          ReprioritisedRank(old(tasks), containerData, |containerData|, k);
        }
      }
    }

    /** The cross-list branch of `drop`: the moved task takes the target
        column's id and both columns are renumbered. */
    method MoveAcross(movedTaskId: string, previousId: string, currentId: string)
      requires Valid()
      modifies this`tasks
      ensures Valid()
      ensures tasks == Renumber(Renumber(MoveToColumn(old(tasks), movedTaskId, currentId), previousId), currentId)
    {
      var taskIndexInAllTasks := IndexOfId(tasks, movedTaskId);
      if taskIndexInAllTasks != -1 {
        tasks := tasks[taskIndexInAllTasks := tasks[taskIndexInAllTasks].(statusId := currentId)];
      }
      SortTasksInColumn(previousId);
      SortTasksInColumn(currentId);
    }

    /** `addTask`: a blank task changes nothing; otherwise one task is appended
        with the trimmed content, the column's id and a priority above the whole
        column, so after renumbering it is the column's last task. */
    method AddTask(statusColumnId: string, newTaskId: string)
      requires Valid()
      requires forall k :: 0 <= k < |tasks| ==> tasks[k].id != newTaskId
      modifies this`tasks, this`newTaskContent, this`newTaskPriority
      ensures Valid()
      ensures Trim(old(newTaskContent)) == [] ==>
                tasks == old(tasks) && newTaskContent == old(newTaskContent) && newTaskPriority == old(newTaskPriority)
      ensures Trim(old(newTaskContent)) != [] ==>
                && tasks == Renumber(old(tasks) + [Task(newTaskId, Trim(old(newTaskContent)), statusColumnId,
                                                        NextPriority(old(tasks), statusColumnId))], statusColumnId)
                && |tasks| == |old(tasks)| + 1
                && Count(tasks, statusColumnId) == Count(old(tasks), statusColumnId) + 1
                && tasks[|old(tasks)|].priority == Count(tasks, statusColumnId)
                && Dense(tasks, statusColumnId)
                && newTaskContent == "" && newTaskPriority == 1
      ensures forall s :: Dense(old(tasks), s) ==> Dense(tasks, s)
    {
      if Trim(newTaskContent) != [] {
        var newPriority := NextPriority(tasks, statusColumnId);
        AppendAndSort(Task(newTaskId, Trim(newTaskContent), statusColumnId, newPriority));
        ClearNewTaskForm();
      }
    }

    /** The form reset at the end of `addTask`. */
    method ClearNewTaskForm()
      modifies this`newTaskContent, this`newTaskPriority
      ensures newTaskContent == "" && newTaskPriority == 1
    {
      newTaskContent := "";
      newTaskPriority := 1;
    }

    /** The `push` and the renumbering of `addTask`: a task with a fresh id and a
        priority above its whole column becomes the column's last task. */
    method AppendAndSort(t: Task)
      requires Valid()
      requires forall k :: 0 <= k < |tasks| ==> tasks[k].id != t.id
      requires forall i :: 0 <= i < |tasks| && tasks[i].statusId == t.statusId ==> tasks[i].priority < t.priority
      modifies this`tasks
      ensures Valid()
      ensures tasks == Renumber(old(tasks) + [t], t.statusId)
      ensures |tasks| == |old(tasks)| + 1
      ensures Count(tasks, t.statusId) == Count(old(tasks), t.statusId) + 1
      ensures tasks[|old(tasks)|].priority == Count(tasks, t.statusId)
      ensures Dense(tasks, t.statusId)
      ensures forall s :: Dense(old(tasks), s) ==> Dense(tasks, s)
    {
      AppendLandsLast(tasks, t);
      AppendUnique(tasks, t);
      AppendRenumberKeepsDense(tasks, t);
      tasks := tasks + [t];
      SortTasksInColumn(t.statusId);
    }

    /** `editTask`: opens an edit session recording the task's current values. */
    method EditTask(taskId: string, statusId: string, currentContent: string, currentPriority: int)
      requires Valid()
      modifies this`editingTask
      ensures Valid()
      ensures editingTask == Some(EditingTask(taskId, statusId, currentContent, currentPriority, currentContent, currentPriority))
    {
      editingTask := Some(EditingTask(taskId, statusId, currentContent, currentPriority, currentContent, currentPriority));
    }

    /** `saveTask`: the task's content and priority change only when the id
        exists and the trimmed content is not blank, and its column is then
        renumbered; the session always closes. */
    method SaveTask(taskId: string, newContent: string, newPriority: int)
      requires Valid()
      modifies this`tasks, this`editingTask
      ensures Valid()
      ensures editingTask == None
      ensures var i := IndexOfId(old(tasks), taskId);
              if i != -1 && Trim(newContent) != [] then
                var s := old(tasks)[i].statusId;
                && tasks == Renumber(old(tasks)[i := old(tasks)[i].(content := Trim(newContent), priority := newPriority)], s)
                && tasks[i].content == Trim(newContent)
                && Dense(tasks, s)
              else tasks == old(tasks)
      ensures forall s :: Dense(old(tasks), s) ==> Dense(tasks, s)
    {
      var taskIndex := IndexOfId(tasks, taskId);
      if taskIndex != -1 && Trim(newContent) != [] {
        ghost var before := tasks;
        tasks := tasks[taskIndex := tasks[taskIndex].(content := Trim(newContent), priority := newPriority)];
        SortTasksInColumn(tasks[taskIndex].statusId);
        RestoreKeepsDense(before, taskIndex, Trim(newContent), newPriority);
      }
      editingTask := None;
    }

    /** `cancelEdit`: with a session open, the recorded content and priority are
        put back and the column the task is in now is renumbered; the session
        closes. The source renumbers the column recorded when the session opened
        (`CancelledAsWritten`), which differs once a drop has moved the task. */
    method CancelEdit()
      requires Valid()
      modifies this`tasks, this`editingTask
      ensures Valid()
      ensures editingTask == None
      ensures old(editingTask).None? ==> tasks == old(tasks)
      ensures old(editingTask).Some? ==>
                var e := old(editingTask).value;
                var i := IndexOfId(old(tasks), e.taskId);
                if i != -1 then
                  var s := old(tasks)[i].statusId;
                  && tasks == Renumber(old(tasks)[i := old(tasks)[i].(content := e.originalContent, priority := e.originalPriority)], s)
                  && tasks[i].content == e.originalContent
                  && Dense(tasks, s)
                else tasks == old(tasks)
      ensures forall s :: Dense(old(tasks), s) ==> Dense(tasks, s)
    {
      if editingTask.Some? {
        var e := editingTask.value;
        var taskIndex := IndexOfId(tasks, e.taskId);
        if taskIndex != -1 {
          ghost var before := tasks;
          tasks := tasks[taskIndex := tasks[taskIndex].(content := e.originalContent, priority := e.originalPriority)];
          SortTasksInColumn(tasks[taskIndex].statusId);
          RestoreKeepsDense(before, taskIndex, e.originalContent, e.originalPriority);
        }
        editingTask := None;
      }
    }

    /** `deleteTask`: the task with that id is removed, the others keep their
        order, and its column is renumbered to 1..n-1; an unknown id changes nothing. */
    method DeleteTask(taskId: string)
      requires Valid()
      modifies this`tasks
      ensures Valid()
      ensures IndexOfId(old(tasks), taskId) == -1 ==> tasks == old(tasks)
      ensures IndexOfId(old(tasks), taskId) != -1 ==>
                var i := IndexOfId(old(tasks), taskId);
                tasks == Renumber(RemoveAt(old(tasks), i), old(tasks)[i].statusId)
      ensures forall k :: 0 <= k < |tasks| ==> tasks[k].id != taskId
      ensures IndexOfId(old(tasks), taskId) != -1 ==>
                var s := old(tasks)[IndexOfId(old(tasks), taskId)].statusId;
                Count(tasks, s) == Count(old(tasks), s) - 1 && Dense(tasks, s)
      ensures forall s :: Dense(old(tasks), s) ==> Dense(tasks, s)
    {
      var taskIndex := IndexOfId(tasks, taskId);
      if taskIndex != -1 {
        var statusIdOfDeletedTask := tasks[taskIndex].statusId;
        var rest := RemoveAt(tasks, taskIndex);
        RemoveCount(tasks, taskIndex, statusIdOfDeletedTask);
        RemoveUnique(tasks, taskIndex);
        RemoveRenumberKeepsDense(tasks, taskIndex);
        CountFrame(rest, Renumber(rest, statusIdOfDeletedTask), statusIdOfDeletedTask);
        tasks := rest;
        SortTasksInColumn(statusIdOfDeletedTask);
      }
    }
  }

  /** Opening an edit on a task and cancelling it puts the task back as it was
      and only renumbers its column. */
  method EditThenCancel(b: Board, i: nat)
    requires b.Valid() && i < |b.tasks|
    modifies b
    ensures b.Valid() && b.editingTask == None
    ensures b.tasks == Renumber(old(b.tasks), old(b.tasks[i].statusId))
    ensures b.tasks[i].content == old(b.tasks[i].content)
  {
    var t := b.tasks[i];
    b.EditTask(t.id, t.statusId, t.content, t.priority);
    b.CancelEdit();
    assert old(b.tasks)[i := t.(content := t.content, priority := t.priority)] == old(b.tasks);
  }
}
