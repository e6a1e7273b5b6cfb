/**
 * The task-management board: columns each holding an ordered list of task
 * strings, with add, edit (with cancel), delete and drag-and-drop between lists.
 */
module TaskManagement {
  import opened Options
  import opened Text
  import opened DropGating

  datatype Column = Column(id: string, title: string, data: seq<string>, flags: RejectFlags)

  /** The open edit session: which entry is edited and the value it had. */
  datatype EditingTask = EditingTask(columnId: string, index: int, originalValue: string)

  /** `columns.map(column => column.id)`. */
  function ColumnIds(cols: seq<Column>): (ids: seq<string>)
    ensures |ids| == |cols|
  {
    seq(|cols|, k requires 0 <= k < |cols| => cols[k].id)
  }

  /** The position of the column `columns.find(col => col.id === id)` returns, or -1. */
  function FindColumnIndex(cols: seq<Column>, id: string): (r: int)
    ensures -1 <= r < |cols|
    ensures r == -1 <==> forall k :: 0 <= k < |cols| ==> cols[k].id != id
    ensures r >= 0 ==> cols[r].id == id && forall k :: 0 <= k < r ==> cols[k].id != id
  {
    if cols == [] then -1
    else if cols[0].id == id then 0
    else
      var r := FindColumnIndex(cols[1..], id);
      assert forall k :: 1 <= k < |cols| ==> cols[k] == cols[1..][k - 1];
      if r == -1 then -1 else r + 1
  }

  /** The ids offered as drop targets are exactly the ids a drop can resolve. */
  lemma ConnectedIdsResolve(cols: seq<Column>, id: string)
    ensures id in ColumnIds(cols) <==> FindColumnIndex(cols, id) != -1
  {
    if FindColumnIndex(cols, id) != -1 {
      assert ColumnIds(cols)[FindColumnIndex(cols, id)] == id;
    }
  }

  function FlagsAt(cols: seq<Column>, i: int): Option<RejectFlags>
    requires -1 <= i < |cols|
  {
    if i == -1 then None else Some(cols[i].flags)
  }

  /** The verdict of `drop` for a move between the lists with these ids. */
  function Gate(cols: seq<Column>, previousContainerId: string, containerId: string): Verdict
  {
    var previous := FindColumnIndex(cols, previousContainerId);
    var current := FindColumnIndex(cols, containerId);
    DropGate(FlagsAt(cols, previous), FlagsAt(cols, current), current != -1 && cols[current].id == previousContainerId)
  }

  /** `data.splice(index, 1)` with ECMAScript's reading of the start index: a
      negative index counts from the end (clamped at 0), an index past the end
      removes nothing. */
  function SpliceOne(data: seq<string>, index: int): (r: seq<string>)
    ensures index >= |data| ==> r == data
    ensures 0 <= index < |data| ==> r == data[..index] + data[index + 1..]
    ensures -|data| <= index < 0 ==> r == data[..|data| + index] + data[|data| + index + 1..]
    ensures index < -|data| ==> r == if data == [] then data else data[1..]
  {
    var start := if index < 0 then (if |data| + index > 0 then |data| + index else 0)
                 else (if index < |data| then index else |data|);
    if start < |data| then data[..start] + data[start + 1..] else data
  }

  /** Deleting a valid entry shortens the list by one and keeps the rest in order. */
  lemma SpliceRemovesOne(data: seq<string>, index: int)
    requires 0 <= index < |data|
    ensures |SpliceOne(data, index)| == |data| - 1
    ensures forall k :: 0 <= k < index ==> SpliceOne(data, index)[k] == data[k]
    ensures forall k :: index <= k < |data| - 1 ==> SpliceOne(data, index)[k] == data[k + 1]
    ensures multiset(SpliceOne(data, index)) + multiset{data[index]} == multiset(data)
  {
    assert data == data[..index] + [data[index]] + data[index + 1..];
  }

  /** How many times the task `x` appears across all the columns' lists. */
  function Occurrences(cols: seq<Column>, x: string): nat
  {
    if cols == [] then 0 else Occurrences(cols[..|cols| - 1], x) + multiset(cols[|cols| - 1].data)[x]
  }

  /** Replacing one column's list changes the board's count of `x` by exactly
      the difference between the two lists. */
  lemma {:induction false} OccurrencesUpdate(cols: seq<Column>, i: nat, d: seq<string>, x: string)
    requires i < |cols|
    ensures Occurrences(cols[i := cols[i].(data := d)], x) + multiset(cols[i].data)[x]
            == Occurrences(cols, x) + multiset(d)[x]
    decreases |cols|
  {
    var updated := cols[i := cols[i].(data := d)];
    var n := |cols| - 1;
    var pre := cols[..n];
    if i < n {
      OccurrencesUpdate(pre, i, d, x);
      assert pre[i] == cols[i];
      assert updated[..n] == pre[i := pre[i].(data := d)];
      assert updated[n] == cols[n];
    } else {
      assert updated[..n] == pre;
    }
  }

  /** Replacing a column's list does not change which column an id resolves to. */
  lemma FindIgnoresData(cols: seq<Column>, i: nat, d: seq<string>, id: string)
    requires i < |cols|
    ensures FindColumnIndex(cols[i := cols[i].(data := d)], id) == FindColumnIndex(cols, id)
  {
    var updated := cols[i := cols[i].(data := d)];
    assert forall k :: 0 <= k < |cols| ==> updated[k].id == cols[k].id;
  }

  /** The columns `ngOnInit` sets up. */
  function InitialColumns(): (cols: seq<Column>)
    ensures ColumnIds(cols) == ["todoList", "doneList", "rejectList"]
  {
    [ Column("todoList", "To do", ["Get to work", "Pick up groceries", "Go home", "Fall asleep"], RejectFlags(false, false)),
      Column("doneList", "Done", ["Get up", "Brush teeth", "Take a shower", "Check e-mail", "Walk dog"], RejectFlags(false, false)),
      Column("rejectList", "Reject", [], RejectFlags(true, false)) ]
  }

  class TaskBoard {
    var columns: seq<Column>
    var newTask: string
    var newColumnTitle: string
    var editingTask: Option<EditingTask>

    /** The field initialisers and `ngOnInit`. */
    constructor ()
      ensures columns == InitialColumns()
      ensures newTask == "" && newColumnTitle == "" && editingTask == None
    {
      columns := InitialColumns();
      newTask := "";
      newColumnTitle := "";
      editingTask := None;
    }

    /** `addColumn`: a blank title changes nothing; otherwise one empty column is
        appended with the trimmed title and an id derived from it. */
    method AddColumn()
      modifies this`columns, this`newColumnTitle
      ensures Trim(old(newColumnTitle)) == [] ==> columns == old(columns) && newColumnTitle == old(newColumnTitle)
      ensures Trim(old(newColumnTitle)) != [] ==>
                && columns == old(columns) + [Column(ColumnIdFor(old(newColumnTitle)), Trim(old(newColumnTitle)), [], RejectFlags(false, false))]
                && (forall x :: Occurrences(columns, x) == Occurrences(old(columns), x))
                && newColumnTitle == ""
    {
      if Trim(newColumnTitle) != [] {
        var newColumnId := ColumnIdFor(newColumnTitle);
        var added := Column(newColumnId, Trim(newColumnTitle), [], RejectFlags(false, false));
        assert (columns + [added])[..|columns|] == columns;
        columns := columns + [added];
        newColumnTitle := "";
      }
    }

    /** `addTask(column)`: a blank task changes nothing; otherwise the trimmed
        task goes at the end of that column and nowhere else. */
    method AddTask(c: int)
      requires 0 <= c < |columns|
      modifies this`columns, this`newTask
      ensures Trim(old(newTask)) == [] ==> columns == old(columns) && newTask == old(newTask)
      ensures Trim(old(newTask)) != [] ==>
                && columns == old(columns)[c := old(columns)[c].(data := old(columns)[c].data + [Trim(old(newTask))])]
                && (forall x :: Occurrences(columns, x) == Occurrences(old(columns), x) + if x == Trim(old(newTask)) then 1 else 0)
                && newTask == ""
    {
      if Trim(newTask) != [] {
        var item := Trim(newTask);
        forall x
          ensures Occurrences(columns[c := columns[c].(data := columns[c].data + [item])], x)
                  == Occurrences(columns, x) + if x == item then 1 else 0
        {
          OccurrencesUpdate(columns, c, columns[c].data + [item], x);
          assert multiset(columns[c].data + [item]) == multiset(columns[c].data) + multiset{item};
        }
        columns := columns[c := columns[c].(data := columns[c].data + [item])];
        newTask := "";
      }
    }

    /** `editTask`: records which entry is edited and its value. */
    method EditTask(columnId: string, index: int, item: string)
      modifies this`editingTask
      ensures editingTask == Some(EditingTask(columnId, index, item))
    {
      editingTask := Some(EditingTask(columnId, index, item));
    }

    /** `saveTask`: the entry becomes the trimmed value only when the column
        exists and the value is not blank; the session always closes. */
    method SaveTask(columnId: string, index: int, newValue: string)
      requires FindColumnIndex(columns, columnId) != -1 && Trim(newValue) != [] ==>
                 0 <= index < |columns[FindColumnIndex(columns, columnId)].data|
      modifies this`columns, this`editingTask
      ensures editingTask == None
      ensures var c := FindColumnIndex(old(columns), columnId);
              if c != -1 && Trim(newValue) != [] then
                && columns == old(columns)[c := old(columns)[c].(data := old(columns)[c].data[index := Trim(newValue)])]
                && columns[c].data[index] == Trim(newValue)
                && (forall k :: 0 <= k < |columns[c].data| && k != index ==> columns[c].data[k] == old(columns)[c].data[k])
              else columns == old(columns)
    {
      var c := FindColumnIndex(columns, columnId);
      if c != -1 && Trim(newValue) != [] {
        columns := columns[c := columns[c].(data := columns[c].data[index := Trim(newValue)])];
      }
      editingTask := None;
    }

    /** `cancelEdit`: with a session open, the recorded value is written back at
        the recorded place (when the column still exists); the session closes. */
    method CancelEdit()
      requires editingTask.Some? && FindColumnIndex(columns, editingTask.value.columnId) != -1 ==>
                 0 <= editingTask.value.index < |columns[FindColumnIndex(columns, editingTask.value.columnId)].data|
      modifies this`columns, this`editingTask
      ensures editingTask == None
      ensures old(editingTask).None? ==> columns == old(columns)
      ensures old(editingTask).Some? ==>
                var e := old(editingTask).value;
                var c := FindColumnIndex(old(columns), e.columnId);
                if c != -1 then columns == old(columns)[c := old(columns)[c].(data := old(columns)[c].data[e.index := e.originalValue])]
                else columns == old(columns)
    {
      if editingTask.Some? {
        var e := editingTask.value;
        var c := FindColumnIndex(columns, e.columnId);
        if c != -1 {
          columns := columns[c := columns[c].(data := columns[c].data[e.index := e.originalValue])];
        }
        editingTask := None;
      }
    }

    /** `deleteTask`: `splice(index, 1)` on the column with that id; an unknown
        id changes nothing. */
    method DeleteTask(columnId: string, index: int)
      modifies this`columns
      ensures FindColumnIndex(old(columns), columnId) == -1 ==> columns == old(columns)
      ensures var c := FindColumnIndex(old(columns), columnId);
              c != -1 ==> columns == old(columns)[c := old(columns)[c].(data := SpliceOne(old(columns)[c].data, index))]
      ensures var c := FindColumnIndex(old(columns), columnId);
              c != -1 && 0 <= index < |old(columns)[c].data| ==>
                forall x :: Occurrences(columns, x) + (if x == old(columns)[c].data[index] then 1 else 0) == Occurrences(old(columns), x)
    {
      var c := FindColumnIndex(columns, columnId);
      if c != -1 {
        var rest := SpliceOne(columns[c].data, index);
        if 0 <= index < |columns[c].data| {
          SpliceRemovesOne(columns[c].data, index);
          forall x
            ensures Occurrences(columns[c := columns[c].(data := rest)], x) + (if x == columns[c].data[index] then 1 else 0)
                    == Occurrences(columns, x)
          {
            OccurrencesUpdate(columns, c, rest, x);
          }
        }
        columns := columns[c := columns[c].(data := rest)];
      }
    }

    /** `drop` between the lists of columns `pc` (source) and `cc` (target), with
        the library's list moves given as their results: the new source and
        target lists, which together hold the same entries as before. A refused
        drop changes nothing; an accepted one touches only those two lists and
        loses or duplicates no task. */
    method Drop(pc: int, cc: int, newPreviousData: seq<string>, newContainerData: seq<string>)
      requires 0 <= pc < |columns| && 0 <= cc < |columns|
      requires pc == cc ==> multiset(newContainerData) == multiset(columns[cc].data)
      requires pc != cc ==>
                 multiset(newPreviousData) + multiset(newContainerData)
                 == multiset(columns[pc].data) + multiset(columns[cc].data)
      modifies this`columns
      ensures Gate(old(columns), old(columns)[pc].id, old(columns)[cc].id) != Accepted ==> columns == old(columns)
      ensures Gate(old(columns), old(columns)[pc].id, old(columns)[cc].id) == Accepted ==>
                && |columns| == |old(columns)|
                && (forall k :: 0 <= k < |columns| && k != pc && k != cc ==> columns[k] == old(columns)[k])
                && columns[cc].data == newContainerData
                && (pc != cc ==> columns[pc].data == newPreviousData)
                && (forall x :: Occurrences(columns, x) == Occurrences(old(columns), x))
    {
      var previousColumn := FindColumnIndex(columns, columns[pc].id);
      var currentColumn := FindColumnIndex(columns, columns[cc].id);
      ghost var verdict := Gate(columns, columns[pc].id, columns[cc].id);
      // Containers are columns here, so both lookups succeed and the gate's
      // unknown-container check cannot fire.
      if columns[currentColumn].flags.isRejectColumn && !columns[currentColumn].flags.isRejectEnabled {
        assert verdict == TargetRejectOff;
        return;
      }
      if columns[previousColumn].flags.isRejectColumn && !columns[previousColumn].flags.isRejectEnabled {
        assert verdict == SourceRejectOff;
        return;
      }
      // The gate's third check (a disabled reject column reordered in place) is
      // subsumed by the target check above and cannot be reached here.
      assert verdict == Accepted;
      Rearrange(pc, cc, newPreviousData, newContainerData);
    }

    /** The accepted part of `drop`: write back the two lists the library's
        move produced. */
    method Rearrange(pc: int, cc: int, newPreviousData: seq<string>, newContainerData: seq<string>)
      requires 0 <= pc < |columns| && 0 <= cc < |columns|
      requires pc == cc ==> multiset(newContainerData) == multiset(columns[cc].data)
      requires pc != cc ==>
                 multiset(newPreviousData) + multiset(newContainerData)
                 == multiset(columns[pc].data) + multiset(columns[cc].data)
      modifies this`columns
      ensures |columns| == |old(columns)|
      ensures forall k :: 0 <= k < |columns| && k != pc && k != cc ==> columns[k] == old(columns)[k]
      ensures columns[cc].data == newContainerData
      ensures pc != cc ==> columns[pc].data == newPreviousData
      ensures forall x :: Occurrences(columns, x) == Occurrences(old(columns), x)
    {
      if pc == cc {
        forall x
          ensures Occurrences(columns[cc := columns[cc].(data := newContainerData)], x) == Occurrences(columns, x)
        {
          OccurrencesUpdate(columns, cc, newContainerData, x);
        }
        columns := columns[cc := columns[cc].(data := newContainerData)];
      } else {
        var mid := columns[pc := columns[pc].(data := newPreviousData)];
        forall x
          ensures Occurrences(mid[cc := mid[cc].(data := newContainerData)], x) == Occurrences(columns, x)
        {
          OccurrencesUpdate(columns, pc, newPreviousData, x);
          OccurrencesUpdate(mid, cc, newContainerData, x);
          assert (multiset(newPreviousData) + multiset(newContainerData))[x]
                 == (multiset(columns[pc].data) + multiset(columns[cc].data))[x];
          assert mid[cc].data == columns[cc].data;
        }
        columns := mid[cc := mid[cc].(data := newContainerData)];
      }
    }
  }

  /** Editing isolation: open an edit on an entry, overwrite the entry through
      the input binding, cancel; the board is exactly as before. */
  method EditOverwriteCancel(b: TaskBoard, c: nat, i: nat, typed: string)
    requires c < |b.columns| && i < |b.columns[c].data|
    requires FindColumnIndex(b.columns, b.columns[c].id) == c
    modifies b
    ensures b.columns == old(b.columns) && b.editingTask == None
  {
    b.EditTask(b.columns[c].id, i, b.columns[c].data[i]);
    FindIgnoresData(b.columns, c, b.columns[c].data[i := typed], b.columns[c].id);
    b.columns := b.columns[c := b.columns[c].(data := b.columns[c].data[i := typed])];
    b.CancelEdit();
    assert old(b.columns)[c].data[i := typed][i := old(b.columns)[c].data[i]] == old(b.columns)[c].data;
    assert b.columns[c] == old(b.columns)[c];
  }
}
