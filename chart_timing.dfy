/**
 * The beat-to-time sweep that builds an `AugmentedChart`'s timed note
 * field. BPM segments, stop segments and rows are sorted by position and
 * consumed front to back: the first BPM applies from measure 0, each later
 * BPM change strictly before a row ends the stretch timed at the previous
 * BPM, and each stop strictly before a row adds its pause once.
 *
 * Python raises when there is no BPM segment at all and when a BPM of zero
 * has to be converted (`Fraction(240, 0)`); both are modelled as failures.
 * Note that `measures_per_second` is 240/bpm, the seconds one measure
 * lasts, and that a stop adds its value divided by that number.
 */
module ChartTiming {
  import opened Wrappers
  import opened Sequences
  import opened BasicTypes
  import opened Rows
  import opened ComplexTypes

  /** Why the sweep raises: no BPM segment to start from, or a zero BPM to divide by. */
  datatype SweepError = NoBpmSegments | ZeroBpm

  function BpmKey(p: MeasureBPMPair): real { p.measure }
  function StopKey(p: MeasureMeasurePair): real { p.measure }
  function PosKey(g: GlobalRow): real { g.pos }

  /** Seconds that `measures` measures take at `bpm`: `bpm.measures_per_second * measures`. */
  function StretchTime(bpm: real, measures: real): real
    requires bpm != 0.0
  {
    MeasuresPerSecond(bpm) * measures
  }

  /** Seconds a stop of `value` adds at `bpm`: `Fraction(value, bpm.measures_per_second)`. */
  function StopTime(value: real, bpm: real): real
    requires bpm != 0.0
  {
    value / MeasuresPerSecond(bpm)
  }

  /**
   * The sweep's variables between rows: elapsed seconds, the measure the
   * elapsed time has been computed up to, the BPM in force, and the BPM
   * and stop segments not yet consumed (the head of `stops` is `next_stop`).
   */
  datatype Sweep = Sweep(
    elapsed: real,
    lastMeasure: real,
    lastBpm: MeasureBPMPair,
    bpms: seq<MeasureBPMPair>,
    stops: seq<MeasureMeasurePair>)

  /**
   * The first inner loop: while the next BPM change lies strictly before
   * the row, time the stretch up to it at the BPM in force and switch.
   */
  function AdvanceBpms(s: Sweep, pos: real, deltaTime: real, deltaMeasure: real)
    : Result<(Sweep, real, real), SweepError>
    decreases |s.bpms|
  {
    if s.bpms != [] && s.bpms[0].measure < pos then
      if s.lastBpm.bpm == 0.0 then Failure(ZeroBpm)
      else
        var next := s.bpms[0];
        var deltaTiming := next.measure - s.lastMeasure;
        AdvanceBpms(Sweep(s.elapsed, next.measure, next, s.bpms[1..], s.stops), pos,
                    deltaTime + StretchTime(s.lastBpm.bpm, deltaTiming), deltaMeasure - deltaTiming)
    else Success((s, deltaTime, deltaMeasure))
  }

  /** One switch of the first inner loop. */
  lemma AdvanceBpmsUnfold(s: Sweep, pos: real, deltaTime: real, deltaMeasure: real)
    requires s.bpms != [] && s.bpms[0].measure < pos && s.lastBpm.bpm != 0.0
    ensures AdvanceBpms(s, pos, deltaTime, deltaMeasure) ==
      AdvanceBpms(Sweep(s.elapsed, s.bpms[0].measure, s.bpms[0], s.bpms[1..], s.stops), pos,
                  deltaTime + StretchTime(s.lastBpm.bpm, s.bpms[0].measure - s.lastMeasure),
                  deltaMeasure - (s.bpms[0].measure - s.lastMeasure))
  {
  }

  /** The second inner loop: every stop strictly before `bound` adds its pause. */
  function ConsumeStops(stops: seq<MeasureMeasurePair>, bound: real, bpm: real, deltaTime: real)
    : (seq<MeasureMeasurePair>, real)
    requires bpm != 0.0
    decreases |stops|
  {
    if stops != [] && stops[0].measure < bound then
      ConsumeStops(stops[1..], bound, bpm, deltaTime + StopTime(stops[0].value, bpm))
    else (stops, deltaTime)
  }

  /**
   * The rest of one pass of the outer loop, after the BPM changes before
   * the row: time the remaining stretch at the BPM in force, add the stops
   * before the row, and emit the row at the new elapsed time.
   */
  function FinishRow(s: Sweep, deltaTime: real, deltaMeasure: real, row: GlobalRow, offset: real)
    : Result<(Sweep, GlobalTimedRow), SweepError>
  {
    if s.lastBpm.bpm == 0.0 then Failure(ZeroBpm)
    else
      var consumed := ConsumeStops(s.stops, s.lastMeasure + deltaMeasure, s.lastBpm.bpm,
                                   deltaTime + StretchTime(s.lastBpm.bpm, deltaMeasure));
      var elapsed := s.elapsed + consumed.1;
      Success((Sweep(elapsed, s.lastMeasure + deltaMeasure, s.lastBpm, s.bpms, consumed.0),
               GlobalToTimed(row, elapsed - offset)))
  }

  /** One pass of the outer loop: time one row and advance the sweep to its position. */
  function StepRow(s: Sweep, row: GlobalRow, offset: real): Result<(Sweep, GlobalTimedRow), SweepError> {
    match AdvanceBpms(s, row.pos, 0.0, row.pos - s.lastMeasure)
    case Failure(e) => Failure(e)
    case Success(adv) => FinishRow(adv.0, adv.1, adv.2, row, offset)
  }

  /** The sweep after the first `n` rows: its variables and the timed rows emitted so far. */
  function SweepPrefix(s0: Sweep, rows: seq<GlobalRow>, n: nat, offset: real)
    : Result<(Sweep, seq<GlobalTimedRow>), SweepError>
    requires n <= |rows|
  {
    if n == 0 then Success((s0, []))
    else match SweepPrefix(s0, rows, n - 1, offset)
      case Failure(e) => Failure(e)
      case Success(p) =>
        match StepRow(p.0, rows[n - 1], offset)
        case Failure(e) => Failure(e)
        case Success(q) => Success((q.0, p.1 + [q.1]))
  }

  /** Before the first row: no time elapsed, at measure 0, the first sorted BPM in force. */
  function InitialSweep(sortedBpms: seq<MeasureBPMPair>, sortedStops: seq<MeasureMeasurePair>): Sweep
    requires sortedBpms != []
  {
    Sweep(0.0, 0.0, sortedBpms[0], sortedBpms[1..], sortedStops)
  }

  /**
   * The note field that `__attrs_post_init__` leaves behind: the rows by
   * position, each with its time in seconds minus the offset.
   */
  function TimedNoteField(noteField: seq<GlobalRow>, bpms: seq<MeasureBPMPair>,
                          stops: seq<MeasureMeasurePair>, offset: real)
    : (r: Result<seq<GlobalTimedRow>, SweepError>)
  {
    var sortedBpms := SortBy(bpms, BpmKey);
    if sortedBpms == [] then Failure(NoBpmSegments)
    else
      var rows := SortBy(noteField, PosKey);
      match SweepPrefix(InitialSweep(sortedBpms, SortBy(stops, StopKey)), rows, |rows|, offset)
      case Failure(e) => Failure(e)
      case Success(p) => Success(p.1)
  }

  // ---------------------------------------------------------------------------
  // The sweep itself
  // ---------------------------------------------------------------------------

  lemma {:induction false} FailurePersists(s0: Sweep, rows: seq<GlobalRow>, n: nat, m: nat, offset: real, e: SweepError)
    requires n <= m <= |rows|
    requires SweepPrefix(s0, rows, n, offset) == Failure(e)
    ensures SweepPrefix(s0, rows, m, offset) == Failure(e)
    decreases m - n
  {
    if n < m {
      FailurePersists(s0, rows, n + 1, m, offset, e);
    }
  }

  /** A row whose step succeeds extends the sweep by one timed row. */
  lemma SweepPrefixStep(s0: Sweep, rows: seq<GlobalRow>, i: nat, offset: real, before: Sweep,
                        out: seq<GlobalTimedRow>, after: Sweep, t: GlobalTimedRow)
    requires i < |rows|
    requires SweepPrefix(s0, rows, i, offset) == Success((before, out))
    requires StepRow(before, rows[i], offset) == Success((after, t))
    ensures SweepPrefix(s0, rows, i + 1, offset) == Success((after, out + [t]))
  {
  }

  /** A row whose step fails makes the whole sweep fail. */
  lemma RowFails(s0: Sweep, rows: seq<GlobalRow>, i: nat, offset: real, before: Sweep, e: SweepError)
    requires i < |rows|
    requires SweepPrefix(s0, rows, i, offset).Success? && SweepPrefix(s0, rows, i, offset).value.0 == before
    requires StepRow(before, rows[i], offset) == Failure(e)
    ensures SweepPrefix(s0, rows, |rows|, offset) == Failure(e)
  {
    FailurePersists(s0, rows, i + 1, |rows|, offset, e);
  }

  /** The note field is the sweep's output over the sorted rows, or the sweep's error. */
  lemma TimedNoteFieldBySweep(noteField: seq<GlobalRow>, bpms: seq<MeasureBPMPair>,
                              stops: seq<MeasureMeasurePair>, offset: real,
                              s0: Sweep, rows: seq<GlobalRow>)
    requires SortBy(bpms, BpmKey) != []
    requires s0 == InitialSweep(SortBy(bpms, BpmKey), SortBy(stops, StopKey)) && rows == SortBy(noteField, PosKey)
    ensures SweepPrefix(s0, rows, |rows|, offset).Failure? ==>
      TimedNoteField(noteField, bpms, stops, offset) == Failure(SweepPrefix(s0, rows, |rows|, offset).error)
    ensures SweepPrefix(s0, rows, |rows|, offset).Success? ==>
      TimedNoteField(noteField, bpms, stops, offset) == Success(SweepPrefix(s0, rows, |rows|, offset).value.1)
  {
  }

  /**
   * One pass of the outer `while note_field_deque` loop of
   * `AugmentedChart.__attrs_post_init__`: the two inner `while True` loops
   * over the BPM and stop queues, then the row at its new elapsed time.
   */
  method TimeRow(sweep: Sweep, lastObject: GlobalRow, offset: real)
    returns (r: Result<(Sweep, GlobalTimedRow), SweepError>)
    ensures r == StepRow(sweep, lastObject, offset)
  {
    var elapsedTime, lastMeasure, lastBpm, bpmQueue, stopQueue :=
      sweep.elapsed, sweep.lastMeasure, sweep.lastBpm, sweep.bpms, sweep.stops;
    var deltaMeasure := lastObject.pos - lastMeasure;
    var deltaTime := 0.0;
    ghost var advanced := AdvanceBpms(sweep, lastObject.pos, 0.0, deltaMeasure);

    while bpmQueue != [] && bpmQueue[0].measure < lastObject.pos
      invariant elapsedTime == sweep.elapsed && stopQueue == sweep.stops
      invariant AdvanceBpms(Sweep(elapsedTime, lastMeasure, lastBpm, bpmQueue, stopQueue),
                            lastObject.pos, deltaTime, deltaMeasure) == advanced
      decreases |bpmQueue|
    {
      if lastBpm.bpm == 0.0 {
        return Failure(ZeroBpm);
      }
      ghost var current := Sweep(elapsedTime, lastMeasure, lastBpm, bpmQueue, stopQueue);
      ghost var dt0, dm0 := deltaTime, deltaMeasure;
      AdvanceBpmsUnfold(current, lastObject.pos, deltaTime, deltaMeasure);
      var nextBpm := bpmQueue[0];
      var deltaTiming := nextBpm.measure - lastMeasure;
      deltaTime := deltaTime + StretchTime(lastBpm.bpm, deltaTiming);
      deltaMeasure := deltaMeasure - deltaTiming;
      lastBpm := nextBpm;
      bpmQueue := bpmQueue[1..];
      lastMeasure := lastBpm.measure;
      assert Sweep(elapsedTime, lastMeasure, lastBpm, bpmQueue, stopQueue) ==
        Sweep(current.elapsed, current.bpms[0].measure, current.bpms[0], current.bpms[1..], current.stops);
      assert deltaTime == dt0 + StretchTime(current.lastBpm.bpm, current.bpms[0].measure - current.lastMeasure);
      assert deltaMeasure == dm0 - (current.bpms[0].measure - current.lastMeasure);
    }

    ghost var s1 := Sweep(elapsedTime, lastMeasure, lastBpm, bpmQueue, stopQueue);
    ghost var dt1, dm1 := deltaTime, deltaMeasure;
    assert advanced == Success((s1, dt1, dm1));
    if lastBpm.bpm == 0.0 {
      return Failure(ZeroBpm);
    }
    deltaTime := deltaTime + StretchTime(lastBpm.bpm, deltaMeasure);

    ghost var consumed := ConsumeStops(stopQueue, lastMeasure + deltaMeasure, lastBpm.bpm, deltaTime);
    while stopQueue != [] && stopQueue[0].measure < lastMeasure + deltaMeasure
      invariant ConsumeStops(stopQueue, lastMeasure + deltaMeasure, lastBpm.bpm, deltaTime) == consumed
      decreases |stopQueue|
    {
      deltaTime := deltaTime + StopTime(stopQueue[0].value, lastBpm.bpm);
      stopQueue := stopQueue[1..];
    }

    assert consumed == (stopQueue, deltaTime);
    assert StepRow(sweep, lastObject, offset) == FinishRow(s1, dt1, dm1, lastObject, offset);
    elapsedTime := elapsedTime + deltaTime;
    lastMeasure := lastMeasure + deltaMeasure;
    return Success((Sweep(elapsedTime, lastMeasure, lastBpm, bpmQueue, stopQueue),
                    GlobalToTimed(lastObject, elapsedTime - offset)));
  }

  /**
   * The outer `while note_field_deque` loop of
   * `AugmentedChart.__attrs_post_init__`: pops the rows one by one and
   * rebuilds the note field; the result is the sweep over all the rows.
   */
  method TimeRows(s0: Sweep, rows: seq<GlobalRow>, offset: real)
    returns (r: Result<seq<GlobalTimedRow>, SweepError>)
    ensures SweepPrefix(s0, rows, |rows|, offset).Failure? ==> r == Failure(SweepPrefix(s0, rows, |rows|, offset).error)
    ensures SweepPrefix(s0, rows, |rows|, offset).Success? ==> r == Success(SweepPrefix(s0, rows, |rows|, offset).value.1)
  {
    var sweep := s0;
    var rowQueue := rows;
    ghost var i := 0;
    var newNoteField: seq<GlobalTimedRow> := [];
    while rowQueue != []
      invariant 0 <= i <= |rows| && rowQueue == rows[i..]
      invariant SweepPrefix(s0, rows, i, offset) == Success((sweep, newNoteField))
      decreases |rowQueue|
    {
      var lastObject := rowQueue[0];
      rowQueue := rowQueue[1..];
      assert rows[i] == lastObject && rowQueue == rows[i + 1..];
      var step := TimeRow(sweep, lastObject, offset);
      if step.Failure? {
        RowFails(s0, rows, i, offset, sweep, step.error);
        return Failure(step.error);
      }
      SweepPrefixStep(s0, rows, i, offset, sweep, newNoteField, step.value.0, step.value.1);
      sweep := step.value.0;
      newNoteField := newNoteField + [step.value.1];
      i := i + 1;
    }
    assert i == |rows|;
    return Success(newNoteField);
  }

  /**
   * `AugmentedChart.__attrs_post_init__`: sorts the segments and rows into
   * queues, takes the first BPM, and times the rows in order; the result
   * is exactly `TimedNoteField`.
   */
  method AugmentNoteField(noteField: seq<GlobalRow>, bpmSegments: seq<MeasureBPMPair>,
                          stopSegments: seq<MeasureMeasurePair>, offset: real)
    returns (r: Result<seq<GlobalTimedRow>, SweepError>)
    ensures r == TimedNoteField(noteField, bpmSegments, stopSegments, offset)
  {
    var bpmQueue := SortBy(bpmSegments, BpmKey);
    var stopQueue := SortBy(stopSegments, StopKey);
    var rowQueue := SortBy(noteField, PosKey);
    if bpmQueue == [] {
      return Failure(NoBpmSegments);
    }
    var sweep := InitialSweep(bpmQueue, stopQueue);
    TimedNoteFieldBySweep(noteField, bpmSegments, stopSegments, offset, sweep, rowQueue);
    r := TimeRows(sweep, rowQueue, offset);
  }
}
