/**
 * The code as written, where it cannot do what it evidently means to do.
 * Four places of the library name something that does not exist or call
 * something that cannot be called; the rest of the model reads each of
 * them as its evident intent, and this module states what the text
 * itself does and shows an input on which the two part ways.
 */
module AsWritten {
  import opened Wrappers
  import opened Sequences
  import opened BasicTypes
  import opened Rows
  import opened ComplexTypes
  import opened ChartTiming
  import opened SimfileParser
  import opened ChartAnalysis

  // ---------------------------------------------------------------------------
  // `as_measure` is a property, called as a method
  // ---------------------------------------------------------------------------

  // `Beat(beat).as_measure()` calls the `Measure` that the property returns,
  // and `map(Beat.as_measure, ...)` calls the property object itself; either
  // way a `TypeError` is raised as soon as the first beat has been parsed.

  /** How an entry fails as written: one of the intended errors, or the call of something not callable. */
  datatype EntryError = PairFailed(error: PairError) | NotCallable(entry: nat)

  /** One entry of `MeasureValuePair.from_string_list` as written: unpacked, the beat parsed, then the call raises. */
  function ParseMeasureValuePairAsWritten(entry: string, index: nat): (r: Result<MeasureValuePair, EntryError>)
    ensures r.Failure?
    ensures ParseMeasureValuePair(entry, index).Failure? ==> r == Failure(PairFailed(ParseMeasureValuePair(entry, index).error))
    ensures ParseMeasureValuePair(entry, index).Success? ==> r == Failure(NotCallable(index))
  {
    var pieces := FirstTwo(entry);
    if |pieces| != 2 then Failure(PairFailed(ArityMismatch(index)))
    else if ParseDecimal(pieces[0]).None? then Failure(PairFailed(MalformedNumber(index)))
    else Failure(NotCallable(index))
  }

  /** One entry of `MeasureMeasurePair.from_string_list` as written: the first beat parsed, then the call raises. */
  function ParseMeasureMeasurePairAsWritten(entry: string, index: nat): (r: Result<MeasureMeasurePair, EntryError>)
    ensures r.Failure?
    ensures r == Failure(NotCallable(index)) <==> ParseDecimal(FirstTwo(entry)[0]).Some?
    ensures ParseMeasureMeasurePair(entry, index).Success? ==> r == Failure(NotCallable(index))
  {
    if ParseDecimal(FirstTwo(entry)[0]).None? then Failure(PairFailed(MalformedNumber(index)))
    else Failure(NotCallable(index))
  }

  /** One entry of `MeasureBPMPair.from_string_list` as written: unpacked, the beat parsed, then the call raises. */
  function ParseMeasureBPMPairAsWritten(entry: string, index: nat): (r: Result<MeasureBPMPair, EntryError>)
    ensures r.Failure?
    ensures ParseMeasureBPMPair(entry, index).Success? ==> r == Failure(NotCallable(index))
  {
    var pieces := FirstTwo(entry);
    if |pieces| != 2 then Failure(PairFailed(ArityMismatch(index)))
    else if ParseDecimal(pieces[0]).None? then Failure(PairFailed(MalformedNumber(index)))
    else Failure(NotCallable(index))
  }

  /** As written, every non-empty list of entries raises, at its first entry. */
  lemma AsWrittenPairListsRaise(entries: seq<string>)
    requires entries != []
    ensures ParseAllFrom(entries, ParseMeasureValuePairAsWritten, 0) == Failure(ParseMeasureValuePairAsWritten(entries[0], 0).error)
    ensures ParseAllFrom(entries, ParseMeasureMeasurePairAsWritten, 0) == Failure(ParseMeasureMeasurePairAsWritten(entries[0], 0).error)
    ensures ParseAllFrom(entries, ParseMeasureBPMPairAsWritten, 0) == Failure(ParseMeasureBPMPairAsWritten(entries[0], 0).error)
  {
  }

  /** A well-formed `beat=bpm` entry, which the intended parser reads, raises as written. */
  lemma AsWrittenBPMEntryRaises(beat: nat, bpm: nat, index: nat)
    ensures ParseMeasureBPMPair(NatText(beat) + "=" + NatText(bpm), index) ==
            Success(MeasureBPMPair(beat as real / 4.0, bpm as real))
    ensures ParseMeasureBPMPairAsWritten(NatText(beat) + "=" + NatText(bpm), index) == Failure(NotCallable(index))
  {
    BPMEntryExample(beat, bpm, index);
  }

  // ---------------------------------------------------------------------------
  // `GlobalRow.from_local_row` does not exist
  // ---------------------------------------------------------------------------

  /**
   * `ChartTransformer.measures` as written: the lookup of the missing
   * `GlobalRow.from_local_row` for the first row raises `AttributeError`;
   * a note field without rows comes out empty, as intended.
   */
  function MeasuresAsWritten(ms: seq<seq<LocalRow>>): (r: Result<seq<GlobalRow>, PyError>)
    ensures r.Success? ==> r.value == Measures(ms)
  {
    if TotalRows(ms) == 0 then Success([]) else Failure(AttributeError)
  }

  /** Any note field with a row raises as written, while the intended one places that row. */
  lemma MeasuresAsWrittenRaises(grid: seq<seq<Row>>, i: nat, k: nat)
    requires i < |grid| && k < |grid[i]|
    ensures MeasuresAsWritten(MeasureAll(grid)) == Failure(AttributeError)
    ensures TotalRows(MeasureAll(grid)[..i]) + k < |Measures(MeasureAll(grid))|
    ensures var g := Measures(MeasureAll(grid))[TotalRows(MeasureAll(grid)[..i]) + k];
      g.row == grid[i][k] && g.pos == i as real + k as real / |grid[i]| as real
  {
    NoteGridPosition(grid, i, k);
  }

  // ---------------------------------------------------------------------------
  // `GlobalTimedRow.from_global_row` does not exist
  // ---------------------------------------------------------------------------

  /** How the sweep fails as written: as intended, or at the lookup of the missing constructor. */
  datatype TimingError = SweepRaised(error: SweepError) | NoFromGlobalRow

  /**
   * `AugmentedChart.__attrs_post_init__` as written: the first row is timed
   * as intended, and then emitting it looks up the missing
   * `GlobalTimedRow.from_global_row` and raises.
   */
  function TimedNoteFieldAsWritten(noteField: seq<GlobalRow>, bpms: seq<MeasureBPMPair>,
                                   stops: seq<MeasureMeasurePair>, offset: real)
    : (r: Result<seq<GlobalTimedRow>, TimingError>)
    ensures r.Success? ==> r.value == [] && noteField == []
  {
    var sortedBpms := SortBy(bpms, BpmKey);
    if sortedBpms == [] then Failure(SweepRaised(NoBpmSegments))
    else
      var rows := SortBy(noteField, PosKey);
      if rows == [] then Success([])
      else
        match StepRow(InitialSweep(sortedBpms, SortBy(stops, StopKey)), rows[0], offset)
        case Failure(e) => Failure(SweepRaised(e))
        case Success(_) => Failure(NoFromGlobalRow)
  }

  /**
   * Wherever the intended sweep times a non-empty note field, the code as
   * written raises at the missing constructor; without rows the two agree.
   */
  lemma TimedNoteFieldAsWrittenRaises(noteField: seq<GlobalRow>, bpms: seq<MeasureBPMPair>,
                                      stops: seq<MeasureMeasurePair>, offset: real)
    ensures noteField != [] && TimedNoteField(noteField, bpms, stops, offset).Success? ==>
      TimedNoteFieldAsWritten(noteField, bpms, stops, offset) == Failure(NoFromGlobalRow)
    ensures noteField == [] && bpms != [] ==>
      TimedNoteFieldAsWritten(noteField, bpms, stops, offset) == Success([]) &&
      TimedNoteField(noteField, bpms, stops, offset) == Success([])
  {
    var sortedBpms := SortBy(bpms, BpmKey);
    var rows := SortBy(noteField, PosKey);
    if noteField != [] && TimedNoteField(noteField, bpms, stops, offset).Success? {
      var s0 := InitialSweep(sortedBpms, SortBy(stops, StopKey));
      assert SweepPrefix(s0, rows, |rows|, offset).Success?;
      if SweepPrefix(s0, rows, 1, offset).Failure? {
        FailurePersists(s0, rows, 1, |rows|, offset, SweepPrefix(s0, rows, 1, offset).error);
      }
      assert SweepPrefix(s0, rows, 0, offset) == Success((s0, []));
    }
    if noteField == [] && bpms != [] {
      assert rows == [];
      assert SweepPrefix(InitialSweep(sortedBpms, SortBy(stops, StopKey)), rows, 0, offset).Success?;
    }
  }

  // ---------------------------------------------------------------------------
  // `NoteObject.HOLD_END` and `NoteObject.ROLL_END` do not exist
  // ---------------------------------------------------------------------------

  /**
   * `make_hold_roll_bodies_distinct` as written: the loop looks up the
   * missing `NoteObject.HOLD_END` at its first row and raises
   * `AttributeError`; a chart without rows is copied unchanged.
   */
  function MakeHoldRollBodiesDistinctAsWritten(chart: AugmentedChart): (r: Result<AugmentedChart, PyError>)
    ensures r.Success? ==> r.value == chart && chart.noteField == []
  {
    if chart.noteField == [] then Success(chart) else Failure(AttributeError)
  }

  /**
   * A hold over three rows: the intended scan marks the middle row's lane
   * and keeps the end, while the code as written raises.
   */
  lemma HoldEndLookupRaises(chart: AugmentedChart)
    requires chart.noteField == [GlobalTimedRow([HoldStart], 0.0, 0.0),
                                 GlobalTimedRow([EmptyLane], 0.25, 0.5),
                                 GlobalTimedRow([HoldRollEnd], 0.5, 1.0)]
    ensures MakeHoldRollBodiesDistinctAsWritten(chart) == Failure(AttributeError)
    ensures MarkedRow(chart.noteField, 1).row == [HoldStart]
    ensures MarkedRow(chart.noteField, 2).row == [HoldRollEnd]
  {
    var field := chart.noteField;
    assert FindObjectLanes(field[0].row, HoldStart) == {0};
    assert FindObjectLanes(field[0].row, HoldRollEnd) == {};
    assert FindObjectLanes(field[1].row, HoldStart) == {};
    assert FindObjectLanes(field[1].row, HoldRollEnd) == {};
    assert ActiveAfter(field, 1, HoldStart) == {0};
    assert ActiveAfter(field, 2, HoldStart) == {0};
    assert MarkedRow(field, 1).row[0] == HoldStart;
    EndSymbolKept(field, 2, 0);
  }
}
