/**
 * Post-processing of a timed chart (`chart_analysis.py`): dropping the
 * empty rows, and marking every lane of a hold or roll between its start
 * and its end. Both work on a copy (`deepcopy`); with charts as values the
 * input is never changed.
 */
module ChartAnalysis {
  import opened Sequences
  import opened BasicTypes
  import opened Rows
  import opened SimfileParser

  // ---------------------------------------------------------------------------
  // filter_out_empty_rows
  // ---------------------------------------------------------------------------

  /** The rows that are not `is_empty`, in their original order. */
  function NonEmptyRows(field: seq<GlobalTimedRow>): (r: seq<GlobalTimedRow>)
    ensures |r| <= |field|
    ensures forall k :: 0 <= k < |r| ==> !IsEmpty(r[k].row)
  {
    if field == [] then []
    else if IsEmpty(field[0].row) then NonEmptyRows(field[1..])
    else [field[0]] + NonEmptyRows(field[1..])
  }

  /**
   * The filtered field is a subsequence of the input that keeps every
   * non-empty row as often as it occurs and drops every empty one.
   */
  lemma {:induction false} NonEmptyRowsExactly(field: seq<GlobalTimedRow>)
    ensures IsSubsequence(NonEmptyRows(field), field)
    ensures forall x :: multiset(NonEmptyRows(field))[x] == if IsEmpty(x.row) then 0 else multiset(field)[x]
  {
    if field != [] {
      NonEmptyRowsExactly(field[1..]);
      assert field == [field[0]] + field[1..];
      assert multiset(field) == multiset{field[0]} + multiset(field[1..]);
      var r := NonEmptyRows(field);
      if !IsEmpty(field[0].row) {
        assert r[0] == field[0] && r[1..] == NonEmptyRows(field[1..]);
        assert multiset(r) == multiset{field[0]} + multiset(NonEmptyRows(field[1..]));
      }
    }
  }

  /** Filtering twice is filtering once. */
  lemma {:induction false} NonEmptyRowsIdempotent(field: seq<GlobalTimedRow>)
    ensures NonEmptyRows(NonEmptyRows(field)) == NonEmptyRows(field)
  {
    if field != [] {
      NonEmptyRowsIdempotent(field[1..]);
      var r := NonEmptyRows(field[1..]);
      if !IsEmpty(field[0].row) {
        assert ([field[0]] + r)[1..] == r;
      }
    }
  }

  /** `filter_out_empty_rows`: a copy of the chart whose note field has no empty row. */
  function FilterOutEmptyRows(chart: AugmentedChart): (r: AugmentedChart)
    ensures r.stepArtist == chart.stepArtist && r.diffName == chart.diffName &&
            r.diffValue == chart.diffValue && r.offset == chart.offset
    ensures forall k :: 0 <= k < |r.noteField| ==> !IsEmpty(r.noteField[k].row)
    ensures IsSubsequence(r.noteField, chart.noteField)
  {
    NonEmptyRowsExactly(chart.noteField);
    AugmentedChart(chart.stepArtist, chart.diffName, chart.diffValue, NonEmptyRows(chart.noteField), chart.offset)
  }

  // ---------------------------------------------------------------------------
  // make_hold_roll_bodies_distinct
  // ---------------------------------------------------------------------------

  /**
   * The lanes active for long notes starting with `head` after the first
   * `n` rows: each row first adds the lanes holding `head`, then removes
   * the lanes holding `HOLD_ROLL_END` (which stands for the nonexistent
   * `HOLD_END` and `ROLL_END`).
   */
  function ActiveAfter(field: seq<GlobalTimedRow>, n: nat, head: NoteObject): set<int>
    requires n <= |field|
  {
    if n == 0 then {}
    else (ActiveAfter(field, n - 1, head) + FindObjectLanes(field[n - 1].row, head))
         - FindObjectLanes(field[n - 1].row, HoldRollEnd)
  }

  /** Row `row` holds `o` in lane `lane`. */
  predicate HasAt(row: Row, lane: int, o: NoteObject) {
    0 <= lane < |row| && row[lane] == o
  }

  /** No row after row `j` and before row `n` ends a long note in `lane`. */
  predicate OpenSince(field: seq<GlobalTimedRow>, j: nat, n: nat, lane: int)
    requires n <= |field|
  {
    forall m :: j < m < n ==> !HasAt(field[m].row, lane, HoldRollEnd)
  }

  /** Among the first `n` rows, one starts a long note with `head` in `lane` and none after it ends one there. */
  predicate StartedBy(field: seq<GlobalTimedRow>, n: nat, head: NoteObject, lane: int)
    requires n <= |field|
  {
    exists j :: 0 <= j < n && HasAt(field[j].row, lane, head) && OpenSince(field, j, n, lane)
  }

  /** One more row: a lane is active after it when it was active or starts there, and does not end there. */
  lemma ActiveAfterNext(field: seq<GlobalTimedRow>, n: nat, head: NoteObject, lane: int)
    requires 0 < n <= |field|
    ensures lane in ActiveAfter(field, n, head) <==>
      (lane in ActiveAfter(field, n - 1, head) || HasAt(field[n - 1].row, lane, head)) &&
      !HasAt(field[n - 1].row, lane, HoldRollEnd)
  {
  }

  /** An active lane was started by some row and not ended since. */
  lemma {:induction false} ActiveAfterStarted(field: seq<GlobalTimedRow>, n: nat, head: NoteObject, lane: int)
    requires n <= |field| && lane in ActiveAfter(field, n, head)
    ensures StartedBy(field, n, head, lane)
  {
    ActiveAfterNext(field, n, head, lane);
    if HasAt(field[n - 1].row, lane, head) {
      assert OpenSince(field, n - 1, n, lane);
    } else {
      ActiveAfterStarted(field, n - 1, head, lane);
      var j :| 0 <= j < n - 1 && HasAt(field[j].row, lane, head) && OpenSince(field, j, n - 1, lane);
      assert OpenSince(field, j, n, lane);
    }
  }

  /** A lane started by some row and not ended since is active. */
  lemma {:induction false} StartedActive(field: seq<GlobalTimedRow>, n: nat, head: NoteObject, lane: int, j: nat)
    requires j < n <= |field| && head != HoldRollEnd
    requires HasAt(field[j].row, lane, head) && OpenSince(field, j, n, lane)
    ensures lane in ActiveAfter(field, n, head)
  {
    ActiveAfterNext(field, n, head, lane);
    if j < n - 1 {
      assert OpenSince(field, j, n - 1, lane);
      StartedActive(field, n - 1, head, lane, j);
      assert !HasAt(field[n - 1].row, lane, HoldRollEnd);
    }
  }

  /**
   * A lane is active after `n` rows exactly when some row among them
   * starts a long note there and no later row among them ends one there.
   */
  lemma {:induction false} ActiveAfterExactly(field: seq<GlobalTimedRow>, n: nat, head: NoteObject, lane: int)
    requires n <= |field| && head != HoldRollEnd
    ensures lane in ActiveAfter(field, n, head) <==> StartedBy(field, n, head, lane)
  {
    if lane in ActiveAfter(field, n, head) {
      ActiveAfterStarted(field, n, head, lane);
    }
    if StartedBy(field, n, head, lane) {
      var j :| 0 <= j < n && HasAt(field[j].row, lane, head) && OpenSince(field, j, n, lane);
      StartedActive(field, n, head, lane, j);
    }
  }

  /**
   * The list comprehension over one row: an active-hold lane becomes
   * `HOLD_START`, otherwise an active-roll lane becomes `ROLL_START`,
   * otherwise the object stays.
   */
  function MarkLanes(row: Row, holds: set<int>, rolls: set<int>): (r: Row)
    ensures |r| == |row|
  {
    seq(|row|, lane requires 0 <= lane < |row| =>
      if lane in holds then HoldStart else if lane in rolls then RollStart else row[lane])
  }

  /** Row `k` of the result: objects marked with the lanes active after it, position and time kept. */
  function MarkedRow(field: seq<GlobalTimedRow>, k: nat): (t: GlobalTimedRow)
    requires k < |field|
    ensures t.pos == field[k].pos && t.time == field[k].time && |t.row| == |field[k].row|
  {
    GlobalTimedRow(MarkLanes(field[k].row, ActiveAfter(field, k + 1, HoldStart), ActiveAfter(field, k + 1, RollStart)),
                   field[k].pos, field[k].time)
  }

  /**
   * `make_hold_roll_bodies_distinct`: scans the rows keeping the active
   * hold and roll lanes and rebuilds each row; the new note field is the
   * old one row by row through `MarkedRow`.
   */
  method MakeHoldRollBodiesDistinct(chart: AugmentedChart) returns (r: AugmentedChart)
    ensures r.stepArtist == chart.stepArtist && r.diffName == chart.diffName &&
            r.diffValue == chart.diffValue && r.offset == chart.offset
    ensures |r.noteField| == |chart.noteField|
    ensures forall k :: 0 <= k < |chart.noteField| ==> r.noteField[k] == MarkedRow(chart.noteField, k)
  {
    var field := chart.noteField;
    var newNoteField: seq<GlobalTimedRow> := [];
    var activeHolds: set<int> := {};
    var activeRolls: set<int> := {};
    for k := 0 to |field|
      invariant activeHolds == ActiveAfter(field, k, HoldStart)
      invariant activeRolls == ActiveAfter(field, k, RollStart)
      invariant |newNoteField| == k
      invariant forall j :: 0 <= j < k ==> newNoteField[j] == MarkedRow(field, j)
    {
      var row := field[k];
      activeHolds := activeHolds + FindObjectLanes(row.row, HoldStart);
      activeRolls := activeRolls + FindObjectLanes(row.row, RollStart);
      activeHolds := activeHolds - FindObjectLanes(row.row, HoldRollEnd);
      activeRolls := activeRolls - FindObjectLanes(row.row, HoldRollEnd);
      var newPureRow := seq(|row.row|, lane requires 0 <= lane < |row.row| =>
        if lane in activeHolds then HoldStart else if lane in activeRolls then RollStart else row.row[lane]);
      newNoteField := newNoteField + [GlobalTimedRow(newPureRow, row.pos, row.time)];
    }
    r := AugmentedChart(chart.stepArtist, chart.diffName, chart.diffValue, newNoteField, chart.offset);
  }

  /** The end of a long note stays as it is: its lane is no longer active in its own row. */
  lemma EndSymbolKept(field: seq<GlobalTimedRow>, k: nat, lane: int)
    requires k < |field| && HasAt(field[k].row, lane, HoldRollEnd)
    ensures MarkedRow(field, k).row[lane] == HoldRollEnd
  {
    assert lane in FindObjectLanes(field[k].row, HoldRollEnd);
  }

  /**
   * Between a hold's start and its end every lane shows `HOLD_START`; a
   * roll's lanes show `ROLL_START` where no hold is active; other lanes
   * keep their object.
   */
  lemma MarkedLane(field: seq<GlobalTimedRow>, k: nat, lane: int)
    requires k < |field| && 0 <= lane < |field[k].row|
    ensures var obj := MarkedRow(field, k).row[lane];
      var inHold := StartedBy(field, k + 1, HoldStart, lane);
      var inRoll := StartedBy(field, k + 1, RollStart, lane);
      (inHold ==> obj == HoldStart) &&
      (!inHold && inRoll ==> obj == RollStart) &&
      (!inHold && !inRoll ==> obj == field[k].row[lane])
  {
    ActiveAfterExactly(field, k + 1, HoldStart, lane);
    ActiveAfterExactly(field, k + 1, RollStart, lane);
  }
}
