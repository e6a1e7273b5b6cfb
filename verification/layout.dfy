/**
 * The fixed shape of the home grid and the pure decisions made on it:
 * which column is a select column, which column can take keyboard focus,
 * where an arrow key moves the selection, which focus target a column gets,
 * how a select value cycles, and how a confirmed row's select values become
 * its new baseline.
 *
 * Columns are numbered 0..NUM_COLUMNS-1: column 0 is the index column,
 * 1..ADDED_COLUMNS_COUNT are the added label columns, and the rest are
 * TRIPLETS repetitions of (input, input, select).
 */
module Layout {
  import opened Options
  import opened Text

  /** The number of rows (`items` is an array of 20 dummies). */
  const ROWS: nat := 20
  /** The number of added label columns. */
  const ADDED_COLUMNS_COUNT: nat := 10
  /** The number of (input, input, select) triplets. */
  const TRIPLETS: nat := 6
  /** The total number of columns, the index column included (29). */
  const NUM_COLUMNS: nat := ADDED_COLUMNS_COUNT + 3 * TRIPLETS + 1
  /** The options a select cell cycles through. */
  const SELECT_OPTIONS: seq<string> := ["OK", "NG"]

  /** The keys the keyboard handler distinguishes; any other key is `OtherKey`. */
  datatype Key = ArrowUp | ArrowDown | ArrowLeft | ArrowRight | Enter | Escape | OtherKey

  /** The direction in which a select value cycles. */
  datatype Direction = Up | Down

  /** Where the deferred focus step puts the input focus. */
  datatype FocusTarget = NoFocus | Chooser | EditInput

  /** The column of offset `offset` in triplet `k`, as the grid initialisation lays them out. */
  function TripletColumn(k: int, offset: int): int
  {
    ADDED_COLUMNS_COUNT + k * 3 + 1 + offset
  }

  /** A column that keyboard movement may land on. */
  predicate IsFocusable(col: int)
  {
    col > ADDED_COLUMNS_COUNT
  }

  /** A select column: offset 2 within its triplet. For a column past the label
      columns the left operand of `%` is not negative, so Dafny's `%` agrees with
      TypeScript's. */
  predicate IsSelectColumn(col: int)
  {
    col > ADDED_COLUMNS_COUNT && (col - 1 - ADDED_COLUMNS_COUNT) % 3 == 2
  }

  /** On the grid, the select columns are exactly the third column of each triplet. */
  lemma SelectColumnIsTripletChoice(col: int)
    requires 0 <= col < NUM_COLUMNS
    ensures IsSelectColumn(col) <==> exists k :: 0 <= k < TRIPLETS && col == TripletColumn(k, 2)
  {
    if IsSelectColumn(col) {
      var k := (col - 1 - ADDED_COLUMNS_COUNT) / 3;
      assert col == TripletColumn(k, 2);
    }
  }

  /** Spelled out: the select columns are 13, 16, 19, 22, 25 and 28, and no
      label or index column is one. */
  lemma SelectColumnsListed(col: int)
    requires 0 <= col < NUM_COLUMNS
    ensures IsSelectColumn(col) <==> col in {13, 16, 19, 22, 25, 28}
    ensures col <= ADDED_COLUMNS_COUNT ==> !IsSelectColumn(col)
  {
  }

  /** The key under which a row object stores a column's value. */
  function ColumnName(col: int): (name: string)
    ensures name == [] <==> col == 0
  {
    if col == 0 then "" else "Column " + IntToString(col)
  }

  /** Distinct columns have distinct keys, so a row is faithfully a map from
      column index to value. */
  lemma ColumnNameInjective(a: int, b: int)
    ensures ColumnName(a) == ColumnName(b) <==> a == b
  {
    if ColumnName(a) == ColumnName(b) && a != 0 && b != 0 {
      var p := "Column ";
      assert IntToString(a) == (p + IntToString(a))[|p|..];
      assert IntToString(b) == (p + IntToString(b))[|p|..];
      IntToStringInjective(a, b);
    }
  }

  /** The value stored under a column, or `None` where the row object has no such key. */
  function Lookup(row: map<int, string>, col: int): (v: Option<string>)
    ensures v.Some? <==> col in row
    ensures v.Some? ==> v.value == row[col]
  {
    if col in row then Some(row[col]) else None
  }

  /** `isChanged`: the current value differs from the baseline value (two missing
      values are equal, as two `undefined` are). */
  predicate IsChanged(current: map<int, string>, baseline: map<int, string>, col: int)
  {
    Lookup(current, col) != Lookup(baseline, col)
  }

  /** Change detection is relative to the baseline: writing the baseline value
      back makes a cell unchanged, writing anything else makes it changed. */
  lemma ChangedAfterWrite(current: map<int, string>, baseline: map<int, string>, col: int, v: string)
    ensures IsChanged(current[col := v], baseline, col) <==> !(col in baseline && baseline[col] == v)
    ensures forall c :: c != col ==> (IsChanged(current[col := v], baseline, c) <==> IsChanged(current, baseline, c))
  {
  }

  /** The row a vertical arrow key leads to. */
  function RowAfter(row: int, key: Key): int
  {
    match key
    case ArrowUp => if row - 1 < 0 then 0 else row - 1
    case ArrowDown => if row + 1 > ROWS - 1 then ROWS - 1 else row + 1
    case _ => row
  }

  /** The column a horizontal arrow key leads to, in closed form: Left gives
      max(11, col - 1), Right gives max(11, min(28, col + 1)). */
  function ColumnAfter(col: int, key: Key): int
  {
    match key
    case ArrowLeft => if col - 1 > ADDED_COLUMNS_COUNT then col - 1 else ADDED_COLUMNS_COUNT + 1
    case ArrowRight =>
      var c := if col + 1 > NUM_COLUMNS - 1 then NUM_COLUMNS - 1 else col + 1;
      if c > ADDED_COLUMNS_COUNT then c else ADDED_COLUMNS_COUNT + 1
    case _ => col
  }

  /** `moveSelection` without its focus side effect: clamp the row, and step the
      column one place, skipping columns that cannot take focus. */
  method ComputeMove(row: int, col: int, key: Key) returns (newRow: int, newCol: int)
    ensures newRow == RowAfter(row, key) && newCol == ColumnAfter(col, key)
    ensures (key == ArrowLeft || key == ArrowRight) ==> newRow == row
    ensures (key == ArrowUp || key == ArrowDown) ==> newCol == col
    ensures key == ArrowUp ==> 0 <= newRow
    ensures key == ArrowDown ==> newRow < ROWS
    ensures 0 <= row < ROWS ==> 0 <= newRow < ROWS
    ensures (key == ArrowLeft || key == ArrowRight) && 0 <= col < NUM_COLUMNS ==>
              IsFocusable(newCol) && newCol < NUM_COLUMNS
  {
    newRow, newCol := row, col;
    match key {
      case ArrowUp =>
        newRow := if 0 > newRow - 1 then 0 else newRow - 1;
      case ArrowDown =>
        newRow := if ROWS - 1 < newRow + 1 then ROWS - 1 else newRow + 1;
      case ArrowLeft =>
        var start := if 0 > newCol - 1 then 0 else newCol - 1;
        newCol := start;
        while newCol > 0 && !IsFocusable(newCol)
          invariant 0 <= newCol <= start
          invariant start > ADDED_COLUMNS_COUNT ==> newCol == start
        {
          newCol := newCol - 1;
        }
        if newCol == 0 && !IsFocusable(newCol) {
          newCol := ADDED_COLUMNS_COUNT + 1;
        }
      case ArrowRight =>
        var start := if NUM_COLUMNS - 1 < newCol + 1 then NUM_COLUMNS - 1 else newCol + 1;
        newCol := start;
        while newCol < NUM_COLUMNS - 1 && !IsFocusable(newCol)
          invariant start <= newCol
          invariant start > ADDED_COLUMNS_COUNT ==> newCol == start
          invariant start <= ADDED_COLUMNS_COUNT ==> newCol <= ADDED_COLUMNS_COUNT + 1
          decreases NUM_COLUMNS - newCol
        {
          newCol := newCol + 1;
        }
      case _ =>
    }
  }

  /** The focus decision of the deferred focus step: none on the index and label
      columns, the chooser on a select column, the edit input on an input column
      of the grid. */
  function FocusTargetOf(col: int): (t: FocusTarget)
    ensures t == Chooser <==> IsSelectColumn(col)
    ensures t == EditInput ==> IsFocusable(col) && col < NUM_COLUMNS
  {
    if col == 0 || (col > 0 && col <= ADDED_COLUMNS_COUNT) then NoFocus
    else if IsSelectColumn(col) then Chooser
    else if col > ADDED_COLUMNS_COUNT && col < NUM_COLUMNS && !IsSelectColumn(col) then EditInput
    else NoFocus
  }

  /** On the grid, the edit input is the target exactly for the two input columns of a triplet. */
  lemma EditInputIsTripletInput(col: int)
    requires 0 <= col < NUM_COLUMNS
    ensures FocusTargetOf(col) == EditInput <==>
              exists k, o :: 0 <= k < TRIPLETS && 0 <= o < 2 && col == TripletColumn(k, o)
    ensures FocusTargetOf(col) == NoFocus <==> col <= ADDED_COLUMNS_COUNT
  {
    if FocusTargetOf(col) == EditInput {
      var k := (col - 1 - ADDED_COLUMNS_COUNT) / 3;
      var o := (col - 1 - ADDED_COLUMNS_COUNT) % 3;
      assert col == TripletColumn(k, o);
    }
  }

  /** `indexOf`: the first position holding the value, or -1. */
  function IndexOf(options: seq<string>, v: Option<string>): (i: int)
    ensures -1 <= i < |options|
    ensures i == -1 <==> !(v.Some? && v.value in options)
    ensures 0 <= i ==> options[i] == v.value && forall k :: 0 <= k < i ==> options[k] != v.value
  {
    if options == [] then -1
    else if v.Some? && options[0] == v.value then 0
    else
      var j := IndexOf(options[1..], v);
      if j == -1 then -1 else j + 1
  }

  /** The option after (Down) or before (Up) the current value, wrapping around.
      The index is at least -1, so the left operand of `%` is negative only for
      a single option and an absent value stepping Up, where it is -1: TypeScript
      then gives -0 and Dafny 0, the same index. Otherwise both operands are
      non-negative and the two `%` agree. */
  function CycleOption(options: seq<string>, current: Option<string>, dir: Direction): (r: string)
    requires |options| > 0
    ensures r in options
    ensures !(current.Some? && current.value in options) ==>
              r == options[if dir == Down then 0 else (|options| - 2) % |options|]
  {
    var i := IndexOf(options, current);
    var n := |options|;
    options[if dir == Down then (i + 1) % n else (i - 1 + n) % n]
  }

  predicate Distinct(options: seq<string>)
  {
    forall i, j :: 0 <= i < j < |options| ==> options[i] != options[j]
  }

  lemma IndexOfDistinct(options: seq<string>, i: int)
    requires Distinct(options) && 0 <= i < |options|
    ensures IndexOf(options, Some(options[i])) == i
  {
  }

  lemma ModInRange(a: int, n: int)
    requires 0 <= a < n
    ensures a % n == a
  {
  }

  lemma ModShift(a: int, n: int)
    requires 0 <= a < n
    ensures (a + n) % n == a
  {
  }

  lemma ModSelf(n: int)
    requires 0 < n
    ensures n % n == 0
  {
    ModShift(0, n);
  }

  /** One step down from the option at position i. */
  lemma CycleDownAt(options: seq<string>, i: int)
    requires Distinct(options) && 0 <= i < |options|
    ensures CycleOption(options, Some(options[i]), Down) == options[if i + 1 < |options| then i + 1 else 0]
  {
    var n := |options|;
    IndexOfDistinct(options, i);
    if i + 1 < n {
      ModInRange(i + 1, n);
    } else {
      ModSelf(n);
    }
  }

  /** One step up from the option at position i. */
  lemma CycleUpAt(options: seq<string>, i: int)
    requires Distinct(options) && 0 <= i < |options|
    ensures CycleOption(options, Some(options[i]), Up) == options[if i == 0 then |options| - 1 else i - 1]
  {
    var n := |options|;
    IndexOfDistinct(options, i);
    if i == 0 {
      ModInRange(n - 1, n);
    } else {
      ModShift(i - 1, n);
    }
  }

  /** On a value of a list without repeats, one step down followed by one step up
      (and one step up followed by one step down) gives the value back. */
  lemma CycleRoundTrip(options: seq<string>, v: string)
    requires Distinct(options) && v in options
    ensures CycleOption(options, Some(CycleOption(options, Some(v), Down)), Up) == v
    ensures CycleOption(options, Some(CycleOption(options, Some(v), Up)), Down) == v
  {
    var n := |options|;
    var i := IndexOf(options, Some(v));
    CycleDownAt(options, i);
    CycleUpAt(options, if i + 1 < n then i + 1 else 0);
    CycleUpAt(options, i);
    CycleDownAt(options, if i == 0 then n - 1 else i - 1);
  }

  /** With the grid's options: a value outside them becomes "OK" in either
      direction, and each option steps to the other. */
  lemma SelectOptionsCycle(current: Option<string>, dir: Direction)
    ensures !(current.Some? && current.value in SELECT_OPTIONS) ==> CycleOption(SELECT_OPTIONS, current, dir) == "OK"
    ensures current == Some("OK") ==> CycleOption(SELECT_OPTIONS, current, dir) == "NG"
    ensures current == Some("NG") ==> CycleOption(SELECT_OPTIONS, current, dir) == "OK"
  {
    assert IndexOf(SELECT_OPTIONS, Some("NG")) == 1;
  }

  /** A row map holding every column from 1 to NUM_COLUMNS - 1. */
  predicate HasDataColumns(row: map<int, string>)
  {
    forall c :: 1 <= c < NUM_COLUMNS ==> c in row
  }

  /** The confirmed baseline of a row: the current value on every select column
      of the grid, the old baseline everywhere else. */
  ghost predicate PromotedRow(baseline: map<int, string>, current: map<int, string>, promoted: map<int, string>)
  {
    && (forall c :: 0 <= c < NUM_COLUMNS && IsSelectColumn(c) ==> Lookup(promoted, c) == Lookup(current, c))
    && (forall c :: !(0 <= c < NUM_COLUMNS && IsSelectColumn(c)) ==> Lookup(promoted, c) == Lookup(baseline, c))
  }

  /** The loop of `finalConfirm` over one row: copy each select column's current value into the baseline. */
  method PromoteSelectValues(baseline: map<int, string>, current: map<int, string>) returns (promoted: map<int, string>)
    requires HasDataColumns(current)
    ensures PromotedRow(baseline, current, promoted)
  {
    promoted := baseline;
    for col := ADDED_COLUMNS_COUNT + 1 to NUM_COLUMNS
      invariant forall c :: ADDED_COLUMNS_COUNT < c < col && IsSelectColumn(c) ==> Lookup(promoted, c) == Lookup(current, c)
      invariant forall c :: !(ADDED_COLUMNS_COUNT < c < col && IsSelectColumn(c)) ==> Lookup(promoted, c) == Lookup(baseline, c)
    {
      if IsSelectColumn(col) {
        promoted := promoted[col := current[col]];
      }
    }
  }

  /** After promotion no select column of the row is changed, and the baseline is
      determined: two promotions of the same row agree. */
  lemma PromotedRowSettles(baseline: map<int, string>, current: map<int, string>, p: map<int, string>, q: map<int, string>)
    requires PromotedRow(baseline, current, p) && PromotedRow(baseline, current, q)
    ensures forall c :: 0 <= c < NUM_COLUMNS && IsSelectColumn(c) ==> !IsChanged(current, p, c)
    ensures p == q
  {
    forall c ensures c in p <==> c in q {
      assert Lookup(p, c) == Lookup(q, c);
    }
    assert p.Keys == q.Keys;
    forall c | c in p ensures p[c] == q[c] {
      assert Lookup(p, c) == Lookup(q, c);
    }
  }

  /** The value `ngOnInit` stores in row `row`, column `col`. */
  function InitialValue(row: int, col: int): string
  {
    if col <= ADDED_COLUMNS_COUNT then "AddValue " + IntToString(col) + "-" + IntToString(row + 1)
    else if IsSelectColumn(col) then (if row % 2 == 0 then "OK" else "NG")
    else "Value " + IntToString(col) + "-" + IntToString(row + 1)
  }

  /** Row `row` exactly as `ngOnInit` builds it: every data column, each with its initial value. */
  ghost predicate InitialRow(rowData: map<int, string>, row: int)
  {
    && (forall c :: c in rowData <==> 1 <= c < NUM_COLUMNS)
    && (forall c :: c in rowData ==> rowData[c] == InitialValue(row, c))
  }

  /** One row as `ngOnInit` builds it: the label columns, then each triplet. */
  method BuildRow(index: nat) returns (rowData: map<int, string>)
    ensures forall c :: c in rowData <==> 1 <= c < NUM_COLUMNS
    ensures forall c :: c in rowData ==> rowData[c] == InitialValue(index, c)
  {
    rowData := map[];
    for col := 1 to ADDED_COLUMNS_COUNT + 1
      invariant forall c :: c in rowData <==> 1 <= c < col
      invariant forall c :: c in rowData ==> rowData[c] == InitialValue(index, c)
    {
      rowData := rowData[col := "AddValue " + IntToString(col) + "-" + IntToString(index + 1)];
    }
    for k := 0 to TRIPLETS
      invariant forall c :: c in rowData <==> 1 <= c < TripletColumn(k, 0)
      invariant forall c :: c in rowData ==> rowData[c] == InitialValue(index, c)
    {
      var base := ADDED_COLUMNS_COUNT + k * 3 + 1;
      assert !IsSelectColumn(base) && !IsSelectColumn(base + 1) && IsSelectColumn(base + 2);
      rowData := rowData[base := "Value " + IntToString(base) + "-" + IntToString(index + 1)];
      rowData := rowData[base + 1 := "Value " + IntToString(base + 1) + "-" + IntToString(index + 1)];
      rowData := rowData[base + 2 := if index % 2 == 0 then "OK" else "NG"];
    }
  }
}
