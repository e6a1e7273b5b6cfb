/**
 * The home grid: 20 rows of string cells keyed by column, a baseline copy of
 * them, a selected cell, a single-slot edit session, and the two-phase
 * confirmation workflow (mark changed rows while confirmation mode is on, then
 * commit the marked rows' select values into the baseline).
 */
module Home {
  import opened Options
  import opened Layout

  datatype Cell = Cell(row: int, col: int)

  /** What one keydown does, as the keyboard handler decides it. */
  datatype KeyAction =
    | Move(key: Key)
    | CycleSelect(dir: Direction)
    | OpenDropdown
    | SaveAndMoveDown
    | MoveDown
    | ToggleMark
    | CancelEdit
    | NoAction

  /** The decision tree of the keyboard handler, branch for branch. `markGate` is
      the gate a row mark must pass (see `HomeGrid.CanToggleMark`). */
  function KeyActionOf(key: Key, altKey: bool, editing: bool, onSelectColumn: bool,
                       confirmationMode: bool, markGate: bool): (a: KeyAction)
    ensures a != OpenDropdown
    ensures a.Move? <==> !altKey && (key == ArrowUp || key == ArrowDown || key == ArrowLeft || key == ArrowRight)
    ensures a.Move? ==> a.key == key
    ensures a.CycleSelect? <==> altKey && (key == ArrowUp || key == ArrowDown) && onSelectColumn && !confirmationMode
    ensures a.CycleSelect? ==> a.dir == (if key == ArrowUp then Up else Down)
    ensures a == ToggleMark <==>
              key == Enter && !editing && !(onSelectColumn && !confirmationMode) && markGate
    ensures a == SaveAndMoveDown <==> key == Enter && editing
    ensures a == MoveDown <==> key == Enter && !editing && onSelectColumn && !confirmationMode
    ensures a == CancelEdit <==> key == Escape && editing
  {
    if !altKey && (key == ArrowUp || key == ArrowDown || key == ArrowLeft || key == ArrowRight) then
      Move(key)
    else if altKey && (key == ArrowUp || key == ArrowDown) then
      if onSelectColumn && !confirmationMode then CycleSelect(if key == ArrowUp then Up else Down)
      else NoAction
    else if altKey && key == ArrowDown then
      // Alt+Down is already taken by the branch above: this one never fires.
      if onSelectColumn then OpenDropdown else NoAction
    else if key == Enter then
      if editing then SaveAndMoveDown
      else if onSelectColumn && !confirmationMode then MoveDown
      else if markGate then ToggleMark
      else NoAction
    else if key == Escape && editing then
      CancelEdit
    else
      NoAction
  }

  /** The loop of `ngOnInit`: one row built by `BuildRow` and one `false` flag
      per grid row. */
  method InitialGrid() returns (rows: seq<map<int, string>>, flags: seq<bool>)
    ensures |rows| == ROWS && |flags| == ROWS
    ensures forall r :: 0 <= r < ROWS ==> !flags[r]
    ensures forall r :: 0 <= r < ROWS ==> InitialRow(rows[r], r)
  {
    rows, flags := [], [];
    for index := 0 to ROWS
      invariant |rows| == index && |flags| == index
      invariant forall r :: 0 <= r < index ==> !flags[r]
      invariant forall r :: 0 <= r < index ==> InitialRow(rows[r], r)
    {
      flags := flags + [false];
      var rowData := BuildRow(index);
      rows := rows + [rowData];
    }
  }

  class HomeGrid {
    /** Current values, one map per row from column index to value. */
    var data: seq<map<int, string>>
    /** The baseline the current values are compared against. */
    var initialData: seq<map<int, string>>
    var isConfirmationMode: bool
    /** Per row: marked for confirmation. */
    var selectedForConfirmation: seq<bool>
    /** Per row: finalized by a confirmation. */
    var isConfirmedAndCleared: seq<bool>
    var selectedRowIndex: Option<int>
    var selectedCell: Cell
    var editingCell: Option<Cell>
    var editedValue: string

    /** The invariant: the shape is fixed, every row holds every data column, a
        marked row is never finalized and only exists in confirmation mode, and an
        open edit session sits on an input or select column of the grid. */
    ghost predicate Valid()
      reads this
    {
      && |data| == ROWS && |initialData| == ROWS
      && |selectedForConfirmation| == ROWS && |isConfirmedAndCleared| == ROWS
      && (forall r :: 0 <= r < ROWS ==> HasDataColumns(data[r]))
      && (forall r :: 0 <= r < ROWS && selectedForConfirmation[r] ==>
            isConfirmationMode && !isConfirmedAndCleared[r])
      && (editingCell.Some? ==>
            0 <= editingCell.value.row < ROWS && IsFocusable(editingCell.value.col) && editingCell.value.col < NUM_COLUMNS)
    }

    /** The gate for flipping a row's mark: a select column, confirmation mode on,
        the cell changed against its baseline, and the row not finalized. */
    predicate CanToggleMark(row: int, col: int)
      reads this
      requires Valid()
    {
      IsSelectColumn(col) && isConfirmationMode && 0 <= row < ROWS
      && IsChanged(data[row], initialData[row], col) && !isConfirmedAndCleared[row]
    }

    /** What the keyboard handler does with a key in the current state. */
    function ActionFor(key: Key, altKey: bool): KeyAction
      reads this
      requires Valid()
    {
      KeyActionOf(key, altKey, editingCell.Some?, IsSelectColumn(selectedCell.col),
                  isConfirmationMode, CanToggleMark(selectedCell.row, selectedCell.col))
    }

    /** The field initialisers and `ngOnInit`: every row built by `BuildRow`, the
        baseline a copy of the data, no marks, nothing finalized. */
    constructor ()
      ensures Valid()
      ensures data == initialData
      ensures forall r, c :: 0 <= r < ROWS ==> (c in data[r] <==> 1 <= c < NUM_COLUMNS)
      ensures forall r, c :: 0 <= r < ROWS && c in data[r] ==> data[r][c] == InitialValue(r, c)
      ensures forall r, c :: 0 <= r < ROWS ==> !IsChanged(data[r], initialData[r], c)
      ensures forall r :: 0 <= r < ROWS ==> !selectedForConfirmation[r] && !isConfirmedAndCleared[r]
      ensures !isConfirmationMode && selectedRowIndex == None
      ensures selectedCell == Cell(0, 0) && editingCell == None && editedValue == ""
    {
      var rows, flags := InitialGrid();
      data := rows;
      initialData := rows;
      isConfirmationMode := false;
      selectedForConfirmation := flags;
      isConfirmedAndCleared := flags;
      selectedRowIndex := None;
      selectedCell := Cell(0, 0);
      editingCell := None;
      editedValue := "";
    }

    /** `moveSelection` (its focus request is the separate `FocusSelectedCell`). */
    method MoveSelection(key: Key)
      requires Valid()
      modifies this`selectedCell
      ensures Valid()
      ensures selectedCell == Cell(RowAfter(old(selectedCell.row), key), ColumnAfter(old(selectedCell.col), key))
    {
      var newRow, newCol := ComputeMove(selectedCell.row, selectedCell.col, key);
      selectedCell := Cell(newRow, newCol);
    }

    /** The deferred body of `focusSelectedCell`, run after the handler returns:
        on an input column of the grid it opens an edit session; the index and
        label columns get no focus and a select column only gets DOM focus. */
    method FocusSelectedCell()
      requires Valid()
      modifies this`editingCell, this`editedValue
      ensures Valid()
      ensures if 0 <= selectedCell.row < ROWS && FocusTargetOf(selectedCell.col) == EditInput
              then editingCell == Some(selectedCell) && editedValue == data[selectedCell.row][selectedCell.col]
              else editingCell == old(editingCell) && editedValue == old(editedValue)
    {
      if 0 <= selectedCell.row < ROWS && FocusTargetOf(selectedCell.col) == EditInput {
        StartEditing(selectedCell.row, selectedCell.col);
      }
    }

    /** `startEditing`: refused only on the index and label columns; a select
        column or confirmation mode does not stop it. */
    method StartEditing(row: int, col: int)
      requires Valid()
      requires 0 <= row < ROWS && 0 <= col < NUM_COLUMNS
      modifies this`editingCell, this`editedValue
      ensures Valid()
      ensures col <= ADDED_COLUMNS_COUNT ==> editingCell == old(editingCell) && editedValue == old(editedValue)
      ensures col > ADDED_COLUMNS_COUNT ==> editingCell == Some(Cell(row, col)) && editedValue == data[row][col]
    {
      if col == 0 || (col > 0 && col <= ADDED_COLUMNS_COUNT) {
        return;
      }
      editingCell := Some(Cell(row, col));
      editedValue := data[row][col];
    }

    /** The edit input's two-way binding: typing replaces the draft only. */
    method UpdateDraft(value: string)
      requires Valid()
      modifies this`editedValue
      ensures Valid() && editedValue == value
    {
      editedValue := value;
    }

    /** `saveEditedValueAndMoveDown`. */
    method SaveEditedValueAndMoveDown()
      requires Valid()
      modifies this`data, this`editingCell, this`editedValue, this`selectedCell
      ensures Valid()
      ensures old(editingCell).None? ==> data == old(data)
      ensures old(editingCell).Some? ==>
                var e := old(editingCell).value;
                data == old(data)[e.row := old(data)[e.row][e.col := old(editedValue)]]
      ensures old(editingCell).Some? ==> editingCell == None && editedValue == ""
      ensures old(editingCell).None? ==> editingCell == None && editedValue == old(editedValue)
      ensures selectedCell == Cell(RowAfter(old(selectedCell.row), ArrowDown), old(selectedCell.col))
    {
      SaveEditedValue();
      MoveSelection(ArrowDown);
    }

    /** `saveEditedValue`: the draft goes into exactly the edited cell and the
        session closes; with no session open nothing happens. */
    method SaveEditedValue()
      requires Valid()
      modifies this`data, this`editingCell, this`editedValue
      ensures Valid()
      ensures old(editingCell).None? ==> data == old(data) && editingCell == None && editedValue == old(editedValue)
      ensures old(editingCell).Some? ==>
                var e := old(editingCell).value;
                && data == old(data)[e.row := old(data)[e.row][e.col := old(editedValue)]]
                && editingCell == None && editedValue == ""
    {
      if editingCell.Some? {
        var e := editingCell.value;
        data := data[e.row := data[e.row][e.col := editedValue]];
        editingCell := None;
        editedValue := "";
      }
    }

    /** `cancelEditing`: the draft is dropped, no cell is touched. */
    method CancelEditing()
      requires Valid()
      modifies this`editingCell, this`editedValue
      ensures Valid() && editingCell == None && editedValue == ""
    {
      editingCell := None;
      editedValue := "";
    }

    /** `changeSelectValue`: the cell steps to the next or previous option,
        wrapping around (a value that is no option counts as index -1), and the
        row's mark and finalized flags are reset. */
    method ChangeSelectValue(row: int, col: int, dir: Direction)
      requires Valid() && 0 <= row < ROWS
      modifies this`data, this`selectedForConfirmation, this`isConfirmedAndCleared
      ensures Valid()
      ensures data == old(data)[row := old(data)[row][col := CycleOption(SELECT_OPTIONS, Lookup(old(data)[row], col), dir)]]
      ensures data[row][col] in SELECT_OPTIONS
      ensures selectedForConfirmation == old(selectedForConfirmation)[row := false]
      ensures isConfirmedAndCleared == old(isConfirmedAndCleared)[row := false]
    {
      var currentStatus := Lookup(data[row], col);
      var currentIndex := IndexOf(SELECT_OPTIONS, currentStatus);
      if dir == Down {
        currentIndex := (currentIndex + 1) % |SELECT_OPTIONS|;
      } else {
        currentIndex := (currentIndex - 1 + |SELECT_OPTIONS|) % |SELECT_OPTIONS|;
      }
      data := data[row := data[row][col := SELECT_OPTIONS[currentIndex]]];
      OnStatusChange(row, col);
    }

    /** `onStatusChange`: any fresh change cancels the row's confirmation state. */
    method OnStatusChange(row: int, col: int)
      requires Valid() && 0 <= row < ROWS
      modifies this`selectedForConfirmation, this`isConfirmedAndCleared
      ensures Valid()
      ensures selectedForConfirmation == old(selectedForConfirmation)[row := false]
      ensures isConfirmedAndCleared == old(isConfirmedAndCleared)[row := false]
    {
      selectedForConfirmation := selectedForConfirmation[row := false];
      isConfirmedAndCleared := isConfirmedAndCleared[row := false];
    }

    /** `onRowClick`. */
    method OnRowClick(index: int)
      requires Valid()
      modifies this`selectedRowIndex
      ensures Valid() && selectedRowIndex == Some(index)
    {
      selectedRowIndex := Some(index);
    }

    /** `onCellClick`: the selection moves to the clicked cell without any bounds
        check, and the row's mark flips only when the gate passes. */
    method OnCellClick(row: int, col: int)
      requires Valid()
      requires IsSelectColumn(col) && isConfirmationMode ==> 0 <= row < ROWS
      modifies this`selectedCell, this`selectedForConfirmation
      ensures Valid()
      ensures selectedCell == Cell(row, col)
      ensures old(CanToggleMark(row, col)) ==>
                selectedForConfirmation == old(selectedForConfirmation)[row := !old(selectedForConfirmation)[row]]
      ensures !old(CanToggleMark(row, col)) ==> selectedForConfirmation == old(selectedForConfirmation)
    {
      selectedCell := Cell(row, col);
      if IsSelectColumn(selectedCell.col) && isConfirmationMode
         && IsChanged(data[row], initialData[row], col) && !isConfirmedAndCleared[row]
      {
        FlipMark(row);
      }
    }

    /** The mark flip shared by a click and by Enter, once the gate has passed:
        a row of the grid, confirmation mode on, the row not finalized. */
    method FlipMark(row: int)
      requires Valid()
      requires 0 <= row < ROWS && isConfirmationMode && !isConfirmedAndCleared[row]
      modifies this`selectedForConfirmation
      ensures Valid()
      ensures selectedForConfirmation == old(selectedForConfirmation)[row := !old(selectedForConfirmation)[row]]
    {
      selectedForConfirmation := selectedForConfirmation[row := !selectedForConfirmation[row]];
    }

    /** `toggleConfirmationMode`: leaving the mode clears every mark and keeps
        every finalized flag. */
    method ToggleConfirmationMode()
      requires Valid()
      modifies this`isConfirmationMode, this`selectedForConfirmation
      ensures Valid()
      ensures isConfirmationMode == !old(isConfirmationMode)
      ensures isConfirmationMode ==> selectedForConfirmation == old(selectedForConfirmation)
      ensures !isConfirmationMode ==> forall r :: 0 <= r < ROWS ==> !selectedForConfirmation[r]
      ensures |selectedForConfirmation| == ROWS
    {
      isConfirmationMode := !isConfirmationMode;
      if !isConfirmationMode {
        selectedForConfirmation := seq(|selectedForConfirmation|, _ => false);
      }
    }

    /** `finalConfirm`: every marked row becomes finalized and unmarked and its
        select values become its baseline; other rows are untouched; the mode
        ends off. It does not check that the mode was on. */
    method FinalConfirm()
      requires Valid()
      modifies this`isConfirmedAndCleared, this`initialData, this`selectedForConfirmation, this`isConfirmationMode
      ensures Valid()
      ensures !isConfirmationMode
      ensures |isConfirmedAndCleared| == ROWS && |initialData| == ROWS && |selectedForConfirmation| == ROWS
      ensures forall r :: 0 <= r < ROWS ==> !selectedForConfirmation[r]
      ensures forall r :: 0 <= r < ROWS ==>
                isConfirmedAndCleared[r] == (old(isConfirmedAndCleared[r]) || old(selectedForConfirmation[r]))
      ensures forall r :: 0 <= r < ROWS && old(selectedForConfirmation[r]) ==>
                PromotedRow(old(initialData[r]), data[r], initialData[r])
      ensures forall r :: 0 <= r < ROWS && !old(selectedForConfirmation[r]) ==> initialData[r] == old(initialData[r])
    {
      for index := 0 to ROWS
        invariant |isConfirmedAndCleared| == ROWS && |initialData| == ROWS && |selectedForConfirmation| == ROWS
        invariant forall r :: 0 <= r < index ==> !selectedForConfirmation[r]
        invariant forall r :: index <= r < ROWS ==> selectedForConfirmation[r] == old(selectedForConfirmation[r])
        invariant forall r :: 0 <= r < index ==>
                    isConfirmedAndCleared[r] == (old(isConfirmedAndCleared[r]) || old(selectedForConfirmation[r]))
        invariant forall r :: index <= r < ROWS ==> isConfirmedAndCleared[r] == old(isConfirmedAndCleared[r])
        invariant forall r :: 0 <= r < index && old(selectedForConfirmation[r]) ==>
                    PromotedRow(old(initialData[r]), data[r], initialData[r])
        invariant forall r :: 0 <= r < ROWS && !(r < index && old(selectedForConfirmation[r])) ==>
                    initialData[r] == old(initialData[r])
      {
        if selectedForConfirmation[index] {
          isConfirmedAndCleared := isConfirmedAndCleared[index := true];
          var promoted := PromoteSelectValues(initialData[index], data[index]);
          initialData := initialData[index := promoted];
          selectedForConfirmation := selectedForConfirmation[index := false];
        }
      }
      isConfirmationMode := false;
    }

    /** `handleKeyboardEvent`: the key decides one of the actions of `KeyActionOf`.
        The selected row is read only by Alt+Up/Down on a select column and by
        Enter in confirmation mode on a select column; there it must be a row of
        the grid (otherwise the source reads a property of `undefined`). */
    method HandleKeyboardEvent(key: Key, altKey: bool)
      requires Valid()
      requires IsSelectColumn(selectedCell.col)
               && ((altKey && (key == ArrowUp || key == ArrowDown) && !isConfirmationMode)
                   || (key == Enter && editingCell.None? && isConfirmationMode))
               ==> 0 <= selectedCell.row < ROWS
      modifies this
      ensures Valid()
      ensures old(ActionFor(key, altKey)) == NoAction ==> unchanged(this)
      ensures old(ActionFor(key, altKey)).Move? ==>
                && selectedCell == Cell(RowAfter(old(selectedCell.row), key), ColumnAfter(old(selectedCell.col), key))
                && unchanged(this`data, this`initialData, this`editingCell, this`editedValue)
                && unchanged(this`selectedForConfirmation, this`isConfirmedAndCleared, this`isConfirmationMode)
      ensures old(ActionFor(key, altKey)).CycleSelect? ==>
                var r, c := old(selectedCell.row), old(selectedCell.col);
                && data == old(data)[r := old(data)[r][c := CycleOption(SELECT_OPTIONS, Lookup(old(data)[r], c), old(ActionFor(key, altKey)).dir)]]
                && selectedForConfirmation == old(selectedForConfirmation)[r := false]
                && isConfirmedAndCleared == old(isConfirmedAndCleared)[r := false]
                && unchanged(this`initialData, this`selectedCell, this`editingCell, this`editedValue, this`isConfirmationMode)
      ensures old(ActionFor(key, altKey)) == SaveAndMoveDown ==>
                var e := old(editingCell).value;
                && data == old(data)[e.row := old(data)[e.row][e.col := old(editedValue)]]
                && editingCell == None && editedValue == ""
                && selectedCell == Cell(RowAfter(old(selectedCell.row), ArrowDown), old(selectedCell.col))
                && unchanged(this`initialData, this`selectedForConfirmation, this`isConfirmedAndCleared, this`isConfirmationMode)
      ensures old(ActionFor(key, altKey)) == MoveDown ==>
                && selectedCell == Cell(RowAfter(old(selectedCell.row), ArrowDown), old(selectedCell.col))
                && unchanged(this`data, this`initialData, this`editingCell, this`editedValue)
                && unchanged(this`selectedForConfirmation, this`isConfirmedAndCleared, this`isConfirmationMode)
      ensures old(ActionFor(key, altKey)) == ToggleMark ==>
                var r := old(selectedCell.row);
                && selectedForConfirmation == old(selectedForConfirmation)[r := !old(selectedForConfirmation)[r]]
                && unchanged(this`data, this`initialData, this`editingCell, this`editedValue, this`selectedCell)
                && unchanged(this`isConfirmedAndCleared, this`isConfirmationMode)
      ensures old(ActionFor(key, altKey)) == CancelEdit ==>
                && editingCell == None && editedValue == ""
                && unchanged(this`data, this`initialData, this`selectedCell)
                && unchanged(this`selectedForConfirmation, this`isConfirmedAndCleared, this`isConfirmationMode)
      ensures selectedRowIndex == old(selectedRowIndex)
    {
      if !altKey && (key == ArrowUp || key == ArrowDown || key == ArrowLeft || key == ArrowRight) {
        MoveSelection(key);
      } else if altKey && (key == ArrowUp || key == ArrowDown) {
        if IsSelectColumn(selectedCell.col) && !isConfirmationMode {
          ChangeSelectValue(selectedCell.row, selectedCell.col, if key == ArrowUp then Up else Down);
        }
      } else if key == Enter {
        if editingCell.Some? {
          SaveEditedValueAndMoveDown();
        } else if IsSelectColumn(selectedCell.col) && !isConfirmationMode {
          MoveSelection(ArrowDown);
        } else if isConfirmationMode && IsSelectColumn(selectedCell.col)
                  && IsChanged(data[selectedCell.row], initialData[selectedCell.row], selectedCell.col)
                  && !isConfirmedAndCleared[selectedCell.row]
        {
          FlipMark(selectedCell.row);
        }
      } else if key == Escape && editingCell.Some? {
        CancelEditing();
      }
    }
  }

  /** Editing isolation: open an edit, type anything, cancel; every cell is as it
      was, and editing the same cell again starts from the stored value, not the
      discarded draft. */
  method EditThenCancel(g: HomeGrid, row: int, col: int, draft: string)
    requires g.Valid() && 0 <= row < ROWS && ADDED_COLUMNS_COUNT < col < NUM_COLUMNS
    modifies g
    ensures g.Valid()
    ensures g.data == old(g.data) && g.initialData == old(g.initialData)
    ensures g.editingCell == Some(Cell(row, col)) && g.editedValue == old(g.data)[row][col]
  {
    g.StartEditing(row, col);
    g.UpdateDraft(draft);
    g.CancelEditing();
    g.StartEditing(row, col);
  }

  /** A second final confirmation finds no marked row: two confirmations have
      exactly the effect of one. */
  method ConfirmTwice(g: HomeGrid)
    requires g.Valid()
    modifies g
    ensures g.Valid() && !g.isConfirmationMode
    ensures g.data == old(g.data)
    ensures forall r :: 0 <= r < ROWS ==> !g.selectedForConfirmation[r]
    ensures forall r :: 0 <= r < ROWS ==>
              g.isConfirmedAndCleared[r] == (old(g.isConfirmedAndCleared[r]) || old(g.selectedForConfirmation[r]))
    ensures forall r :: 0 <= r < ROWS && old(g.selectedForConfirmation[r]) ==>
              PromotedRow(old(g.initialData[r]), g.data[r], g.initialData[r])
    ensures forall r :: 0 <= r < ROWS && !old(g.selectedForConfirmation[r]) ==> g.initialData[r] == old(g.initialData[r])
  {
    g.FinalConfirm();
    ghost var finalized, baseline := g.isConfirmedAndCleared, g.initialData;
    g.FinalConfirm();
    assert g.isConfirmedAndCleared == finalized;
    assert g.initialData == baseline;
  }
}
