/**
 * What the beat-to-time sweep of `AugmentedChart.__attrs_post_init__`
 * guarantees: the timed note field is the input sorted by position with
 * times attached, it fails only for a missing or zero BPM, a single BPM and
 * its stops give a closed-form time per row, and under non-negative data
 * the emitted times never decrease.
 */
module TimingProperties {
  import opened Wrappers
  import opened Sequences
  import opened BasicTypes
  import opened Rows
  import opened ComplexTypes
  import opened ChartTiming

  /** The rows of a timed note field with their times dropped. */
  function Untimed(ts: seq<GlobalTimedRow>): (gs: seq<GlobalRow>)
    ensures |gs| == |ts|
    ensures forall k :: 0 <= k < |ts| ==> gs[k] == GlobalRow(ts[k].row, ts[k].pos)
  {
    if ts == [] then [] else Untimed(ts[..|ts| - 1]) + [GlobalRow(ts[|ts| - 1].row, ts[|ts| - 1].pos)]
  }

  // ---------------------------------------------------------------------------
  // Shape: the rows come out sorted, each at its own position
  // ---------------------------------------------------------------------------

  /** The first inner loop keeps `last_measure + delta_measure` and does not touch time or stops. */
  lemma {:induction false} AdvanceBpmsKeepsTarget(s: Sweep, pos: real, deltaTime: real, deltaMeasure: real)
    requires AdvanceBpms(s, pos, deltaTime, deltaMeasure).Success?
    ensures var a := AdvanceBpms(s, pos, deltaTime, deltaMeasure).value;
      a.0.lastMeasure + a.2 == s.lastMeasure + deltaMeasure && a.0.elapsed == s.elapsed && a.0.stops == s.stops
    decreases |s.bpms|
  {
    if s.bpms != [] && s.bpms[0].measure < pos {
      AdvanceBpmsUnfold(s, pos, deltaTime, deltaMeasure);
      var next := s.bpms[0];
      AdvanceBpmsKeepsTarget(Sweep(s.elapsed, next.measure, next, s.bpms[1..], s.stops), pos,
                             deltaTime + StretchTime(s.lastBpm.bpm, next.measure - s.lastMeasure),
                             deltaMeasure - (next.measure - s.lastMeasure));
    }
  }

  /** After a row the sweep stands at the row's position, and the row keeps its objects and position. */
  lemma StepRowShape(s: Sweep, row: GlobalRow, offset: real)
    requires StepRow(s, row, offset).Success?
    ensures StepRow(s, row, offset).value.0.lastMeasure == row.pos
    ensures StepRow(s, row, offset).value.1.row == row.row
    ensures StepRow(s, row, offset).value.1.pos == row.pos
  {
    AdvanceBpmsKeepsTarget(s, row.pos, 0.0, row.pos - s.lastMeasure);
  }

  lemma {:induction false} SweepPrefixShape(s0: Sweep, rows: seq<GlobalRow>, n: nat, offset: real)
    requires n <= |rows|
    requires SweepPrefix(s0, rows, n, offset).Success?
    ensures var p := SweepPrefix(s0, rows, n, offset).value;
      Untimed(p.1) == rows[..n] && (n > 0 ==> p.0.lastMeasure == rows[n - 1].pos)
  {
    if n > 0 {
      SweepPrefixShape(s0, rows, n - 1, offset);
      var p := SweepPrefix(s0, rows, n - 1, offset).value;
      StepRowShape(p.0, rows[n - 1], offset);
      assert rows[..n] == rows[..n - 1] + [rows[n - 1]];
    }
  }

  /**
   * A timed note field holds exactly the input rows, ordered by position
   * (Python's stable `sorted`), each with its objects and position intact.
   */
  lemma TimedNoteFieldShape(noteField: seq<GlobalRow>, bpms: seq<MeasureBPMPair>,
                            stops: seq<MeasureMeasurePair>, offset: real)
    requires TimedNoteField(noteField, bpms, stops, offset).Success?
    ensures var out := TimedNoteField(noteField, bpms, stops, offset).value;
      Untimed(out) == SortBy(noteField, PosKey) && |out| == |noteField| &&
      multiset(Untimed(out)) == multiset(noteField) &&
      forall i, j :: 0 <= i < j < |out| ==> out[i].pos <= out[j].pos
  {
    var out := TimedNoteField(noteField, bpms, stops, offset).value;
    var rows := SortBy(noteField, PosKey);
    var s0 := InitialSweep(SortBy(bpms, BpmKey), SortBy(stops, StopKey));
    assert SweepPrefix(s0, rows, |rows|, offset).value.1 == out;
    SweepPrefixShape(s0, rows, |rows|, offset);
    assert rows[..|rows|] == rows;
    assert Untimed(out) == rows;
    UntimedOrder(out, rows);
  }

  /** Timed rows whose untimed rows are sorted by position are themselves in position order. */
  lemma UntimedOrder(out: seq<GlobalTimedRow>, rows: seq<GlobalRow>)
    requires Untimed(out) == rows && SortedBy(rows, PosKey)
    ensures forall i, j :: 0 <= i < j < |out| ==> out[i].pos <= out[j].pos
  {
    forall i, j | 0 <= i < j < |out| ensures out[i].pos <= out[j].pos {
      assert Untimed(out)[i] == rows[i] && Untimed(out)[j] == rows[j];
      assert PosKey(rows[i]) <= PosKey(rows[j]);
    }
  }

  // ---------------------------------------------------------------------------
  // Failures: no BPM at all, or a zero BPM
  // ---------------------------------------------------------------------------

  /** A sweep fails only by dividing by a zero BPM. */
  lemma {:induction false} SweepFailsOnlyOnZeroBpm(s0: Sweep, rows: seq<GlobalRow>, n: nat, offset: real)
    requires n <= |rows|
    requires SweepPrefix(s0, rows, n, offset).Failure?
    ensures SweepPrefix(s0, rows, n, offset).error == ZeroBpm
  {
    if n > 0 && SweepPrefix(s0, rows, n - 1, offset).Failure? {
      SweepFailsOnlyOnZeroBpm(s0, rows, n - 1, offset);
    } else if n > 0 {
      var p := SweepPrefix(s0, rows, n - 1, offset).value;
      if AdvanceBpms(p.0, rows[n - 1].pos, 0.0, rows[n - 1].pos - p.0.lastMeasure).Failure? {
        AdvanceFailsOnlyOnZeroBpm(p.0, rows[n - 1].pos, 0.0, rows[n - 1].pos - p.0.lastMeasure);
      }
    }
  }

  lemma {:induction false} AdvanceFailsOnlyOnZeroBpm(s: Sweep, pos: real, deltaTime: real, deltaMeasure: real)
    requires AdvanceBpms(s, pos, deltaTime, deltaMeasure).Failure?
    ensures AdvanceBpms(s, pos, deltaTime, deltaMeasure).error == ZeroBpm
    decreases |s.bpms|
  {
    if s.bpms != [] && s.bpms[0].measure < pos && s.lastBpm.bpm != 0.0 {
      AdvanceBpmsUnfold(s, pos, deltaTime, deltaMeasure);
      var next := s.bpms[0];
      AdvanceFailsOnlyOnZeroBpm(Sweep(s.elapsed, next.measure, next, s.bpms[1..], s.stops), pos,
                                deltaTime + StretchTime(s.lastBpm.bpm, next.measure - s.lastMeasure),
                                deltaMeasure - (next.measure - s.lastMeasure));
    }
  }

  /** The BPM in force and every BPM still queued are nonzero. */
  predicate NonzeroBpms(s: Sweep) {
    s.lastBpm.bpm != 0.0 && forall j :: 0 <= j < |s.bpms| ==> s.bpms[j].bpm != 0.0
  }

  lemma {:induction false} AdvanceNonzero(s: Sweep, pos: real, deltaTime: real, deltaMeasure: real)
    requires NonzeroBpms(s)
    ensures AdvanceBpms(s, pos, deltaTime, deltaMeasure).Success?
    ensures NonzeroBpms(AdvanceBpms(s, pos, deltaTime, deltaMeasure).value.0)
    decreases |s.bpms|
  {
    if s.bpms != [] && s.bpms[0].measure < pos {
      AdvanceBpmsUnfold(s, pos, deltaTime, deltaMeasure);
      var next := s.bpms[0];
      AdvanceNonzero(Sweep(s.elapsed, next.measure, next, s.bpms[1..], s.stops), pos,
                     deltaTime + StretchTime(s.lastBpm.bpm, next.measure - s.lastMeasure),
                     deltaMeasure - (next.measure - s.lastMeasure));
    }
  }

  lemma {:induction false} SweepNonzero(s0: Sweep, rows: seq<GlobalRow>, n: nat, offset: real)
    requires n <= |rows| && NonzeroBpms(s0)
    ensures SweepPrefix(s0, rows, n, offset).Success?
    ensures NonzeroBpms(SweepPrefix(s0, rows, n, offset).value.0)
  {
    if n > 0 {
      SweepNonzero(s0, rows, n - 1, offset);
      var p := SweepPrefix(s0, rows, n - 1, offset).value;
      AdvanceNonzero(p.0, rows[n - 1].pos, 0.0, rows[n - 1].pos - p.0.lastMeasure);
    }
  }

  /** Every element of a sorted copy comes from the original. */
  lemma SortedFrom<T>(s: seq<T>, key: T -> real, k: nat)
    requires k < |SortBy(s, key)|
    ensures SortBy(s, key)[k] in s
  {
    var r := SortBy(s, key);
    assert r[k] in multiset(r);
  }

  /** The sweep raises for want of a BPM (`popleft` on an empty deque) exactly when there are no BPM segments. */
  lemma TimedNoteFieldNeedsBpm(noteField: seq<GlobalRow>, bpms: seq<MeasureBPMPair>,
                               stops: seq<MeasureMeasurePair>, offset: real)
    ensures TimedNoteField(noteField, bpms, stops, offset) == Failure(NoBpmSegments) <==> bpms == []
  {
    var sortedBpms := SortBy(bpms, BpmKey);
    if sortedBpms != [] {
      var rows := SortBy(noteField, PosKey);
      var s0 := InitialSweep(sortedBpms, SortBy(stops, StopKey));
      if SweepPrefix(s0, rows, |rows|, offset).Failure? {
        SweepFailsOnlyOnZeroBpm(s0, rows, |rows|, offset);
      }
    }
  }

  /** With some BPM segment, the sweep can raise only when one of them is zero. */
  lemma TimedNoteFieldFailsOnZeroBpm(noteField: seq<GlobalRow>, bpms: seq<MeasureBPMPair>,
                                     stops: seq<MeasureMeasurePair>, offset: real)
    ensures TimedNoteField(noteField, bpms, stops, offset).Failure? ==>
      bpms == [] || exists j :: 0 <= j < |bpms| && bpms[j].bpm == 0.0
  {
    var sortedBpms := SortBy(bpms, BpmKey);
    if sortedBpms != [] && forall j :: 0 <= j < |bpms| ==> bpms[j].bpm != 0.0 {
      var rows := SortBy(noteField, PosKey);
      var s0 := InitialSweep(sortedBpms, SortBy(stops, StopKey));
      forall j | 0 <= j < |sortedBpms| ensures sortedBpms[j].bpm != 0.0 {
        SortedFrom(bpms, BpmKey, j);
      }
      SweepNonzero(s0, rows, |rows|, offset);
    }
  }

  /** With some BPM segment, an empty note field stays empty. */
  lemma TimedNoteFieldEmpty(bpms: seq<MeasureBPMPair>, stops: seq<MeasureMeasurePair>, offset: real)
    requires bpms != []
    ensures TimedNoteField([], bpms, stops, offset) == Success([])
  {
    assert SortBy([], PosKey) == [];
  }

  // ---------------------------------------------------------------------------
  // One BPM: a closed form for every row's time
  // ---------------------------------------------------------------------------

  /** The pause all of `stops` add at `bpm`. */
  function StopsSum(stops: seq<MeasureMeasurePair>, bpm: real): real
    requires bpm != 0.0
  {
    if stops == [] then 0.0 else StopTime(stops[0].value, bpm) + StopsSum(stops[1..], bpm)
  }

  /** The pause the stops strictly before `bound` add at `bpm`, in any order. */
  function StopsBelow(stops: seq<MeasureMeasurePair>, bound: real, bpm: real): real
    requires bpm != 0.0
  {
    if stops == [] then 0.0
    else (if stops[0].measure < bound then StopTime(stops[0].value, bpm) else 0.0) + StopsBelow(stops[1..], bound, bpm)
  }

  lemma {:induction false} StopsSumAppend(a: seq<MeasureMeasurePair>, b: seq<MeasureMeasurePair>, bpm: real)
    requires bpm != 0.0
    ensures StopsSum(a + b, bpm) == StopsSum(a, bpm) + StopsSum(b, bpm)
  {
    if a != [] {
      assert (a + b)[1..] == a[1..] + b;
      StopsSumAppend(a[1..], b, bpm);
    } else {
      assert a + b == b;
    }
  }

  lemma {:induction false} StopsBelowAppend(a: seq<MeasureMeasurePair>, b: seq<MeasureMeasurePair>, bound: real, bpm: real)
    requires bpm != 0.0
    ensures StopsBelow(a + b, bound, bpm) == StopsBelow(a, bound, bpm) + StopsBelow(b, bound, bpm)
  {
    if a != [] {
      assert (a + b)[1..] == a[1..] + b;
      StopsBelowAppend(a[1..], b, bound, bpm);
    } else {
      assert a + b == b;
    }
  }

  /** Taking one stop out of the list takes out exactly its share. */
  lemma StopsBelowRemove(b: seq<MeasureMeasurePair>, j: nat, bound: real, bpm: real)
    requires bpm != 0.0 && j < |b|
    ensures StopsBelow(b, bound, bpm) ==
      StopsBelow([b[j]], bound, bpm) + StopsBelow(b[..j] + b[j + 1..], bound, bpm)
  {
    assert b == b[..j] + ([b[j]] + b[j + 1..]);
    StopsBelowAppend(b[..j], [b[j]] + b[j + 1..], bound, bpm);
    StopsBelowAppend([b[j]], b[j + 1..], bound, bpm);
    StopsBelowAppend(b[..j], b[j + 1..], bound, bpm);
  }

  /** The first stop's share and the rest's. */
  lemma StopsBelowFirst(a: seq<MeasureMeasurePair>, bound: real, bpm: real)
    requires bpm != 0.0 && a != []
    ensures StopsBelow(a, bound, bpm) == StopsBelow([a[0]], bound, bpm) + StopsBelow(a[1..], bound, bpm)
  {
  }

  /** Matching the first element of `a` with an equal element of `b` leaves two rearrangements of each other. */
  lemma RemoveMatched<T>(a: seq<T>, b: seq<T>, j: nat)
    requires multiset(a) == multiset(b) && a != [] && j < |b| && b[j] == a[0]
    ensures multiset(a[1..]) == multiset(b[..j] + b[j + 1..])
  {
    MultisetWithout(a, 0);
    assert a[..0] + a[1..] == a[1..];
    MultisetWithout(b, j);
  }

  /** The pause before a bound does not depend on the order of the stops. */
  lemma {:induction false} StopsBelowPermutation(a: seq<MeasureMeasurePair>, b: seq<MeasureMeasurePair>, bound: real, bpm: real)
    requires bpm != 0.0 && multiset(a) == multiset(b)
    ensures StopsBelow(a, bound, bpm) == StopsBelow(b, bound, bpm)
    decreases |a|
  {
    if a != [] {
      assert a[0] in multiset(b);
      var j :| 0 <= j < |b| && b[j] == a[0];
      var rest := b[..j] + b[j + 1..];
      RemoveMatched(a, b, j);
      StopsBelowPermutation(a[1..], rest, bound, bpm);
      StopsBelowRemove(b, j, bound, bpm);
      StopsBelowFirst(a, bound, bpm);
      assert [a[0]] == [b[j]];
    } else {
      assert |b| == |multiset(b)| == 0;
    }
  }

  /** Stops all before the bound count in full; stops none before it count nothing. */
  lemma {:induction false} StopsBelowAll(stops: seq<MeasureMeasurePair>, bound: real, bpm: real)
    requires bpm != 0.0
    requires forall k :: 0 <= k < |stops| ==> stops[k].measure < bound
    ensures StopsBelow(stops, bound, bpm) == StopsSum(stops, bpm)
  {
    if stops != [] {
      StopsBelowAll(stops[1..], bound, bpm);
    }
  }

  lemma {:induction false} StopsBelowNone(stops: seq<MeasureMeasurePair>, bound: real, bpm: real)
    requires bpm != 0.0
    requires forall k :: 0 <= k < |stops| ==> stops[k].measure >= bound
    ensures StopsBelow(stops, bound, bpm) == 0.0
  {
    if stops != [] {
      StopsBelowNone(stops[1..], bound, bpm);
    }
  }

  /** A list split into the stops before the bound and those after it. */
  lemma StopsBelowSplit(stops: seq<MeasureMeasurePair>, c: nat, bound: real, bpm: real)
    requires bpm != 0.0 && c <= |stops|
    requires forall k :: 0 <= k < c ==> stops[k].measure < bound
    requires forall k :: c <= k < |stops| ==> stops[k].measure >= bound
    ensures StopsBelow(stops, bound, bpm) == StopsSum(stops[..c], bpm)
  {
    assert stops == stops[..c] + stops[c..];
    StopsBelowAppend(stops[..c], stops[c..], bound, bpm);
    StopsBelowAll(stops[..c], bound, bpm);
    StopsBelowNone(stops[c..], bound, bpm);
  }

  /**
   * The second inner loop, run on a suffix of a stop list: it consumes the
   * stops up to the first one at or after the bound, adding their pauses.
   */
  lemma {:induction false} ConsumeStopsSuffix(all: seq<MeasureMeasurePair>, c: nat, bound: real, bpm: real, deltaTime: real)
    returns (c': nat)
    requires bpm != 0.0 && c <= |all|
    ensures c <= c' <= |all|
    ensures ConsumeStops(all[c..], bound, bpm, deltaTime) == (all[c'..], deltaTime + StopsSum(all[c..c'], bpm))
    ensures forall k :: c <= k < c' ==> all[k].measure < bound
    ensures c' < |all| ==> all[c'].measure >= bound
    decreases |all| - c
  {
    if c < |all| && all[c].measure < bound {
      assert all[c..][1..] == all[c + 1..];
      c' := ConsumeStopsSuffix(all, c + 1, bound, bpm, deltaTime + StopTime(all[c].value, bpm));
      assert all[c..c'] == [all[c]] + all[c + 1..c'];
    } else {
      c' := c;
      assert all[c..c] == [];
    }
  }

  /** `measures_per_second * x + measures_per_second * y == measures_per_second * (x + y)`. */
  lemma StretchTimeAdd(bpm: real, x: real, y: real)
    requires bpm != 0.0
    ensures StretchTime(bpm, x) + StretchTime(bpm, y) == StretchTime(bpm, x + y)
  {
    var m := MeasuresPerSecond(bpm);
    assert m * x + m * y == m * (x + y);
  }

  /**
   * With one BPM the sweep never switches: having consumed the first `c`
   * of the sorted stops, the elapsed time is the stretch up to the current
   * measure plus those stops' pauses, all of which lie before that measure.
   */
  predicate SingleBpmState(s: Sweep, all: seq<MeasureMeasurePair>, bpm: real, c: nat)
    requires bpm != 0.0
  {
    s.bpms == [] && s.lastBpm.bpm == bpm && c <= |all| && s.stops == all[c..] &&
    s.elapsed == StretchTime(bpm, s.lastMeasure) + StopsSum(all[..c], bpm) &&
    forall k :: 0 <= k < c ==> all[k].measure < s.lastMeasure
  }

  lemma SingleBpmStep(s: Sweep, all: seq<MeasureMeasurePair>, bpm: real, c: nat, row: GlobalRow, offset: real)
    returns (c': nat)
    requires bpm != 0.0 && SingleBpmState(s, all, bpm, c) && SortedBy(all, StopKey)
    requires c > 0 ==> s.lastMeasure <= row.pos
    ensures StepRow(s, row, offset).Success?
    ensures SingleBpmState(StepRow(s, row, offset).value.0, all, bpm, c')
    ensures StepRow(s, row, offset).value.0.lastMeasure == row.pos
    ensures StepRow(s, row, offset).value.1.time ==
      StretchTime(bpm, row.pos) + StopsBelow(all, row.pos, bpm) - offset
  {
    var lm := s.lastMeasure;
    var dm := row.pos - lm;
    var dt := 0.0 + StretchTime(bpm, dm);
    assert AdvanceBpms(s, row.pos, 0.0, dm) == Success((s, 0.0, dm));
    assert lm + dm == row.pos;
    c' := ConsumeStopsSuffix(all, c, row.pos, bpm, dt);
    var consumed := ConsumeStops(s.stops, lm + dm, bpm, dt);
    assert consumed == (all[c'..], dt + StopsSum(all[c..c'], bpm));
    var elapsed := s.elapsed + consumed.1;
    var after := Sweep(elapsed, lm + dm, s.lastBpm, s.bpms, consumed.0);
    assert StepRow(s, row, offset) == Success((after, GlobalToTimed(row, elapsed - offset)));
    assert all[..c'] == all[..c] + all[c..c'];
    StopsSumAppend(all[..c], all[c..c'], bpm);
    StretchTimeAdd(bpm, lm, dm);
    assert elapsed == StretchTime(bpm, row.pos) + StopsSum(all[..c'], bpm);
    forall k | c' <= k < |all| ensures all[k].measure >= row.pos {
      assert StopKey(all[c']) <= StopKey(all[k]);
    }
    StopsBelowSplit(all, c', row.pos, bpm);
    assert SingleBpmState(after, all, bpm, c');
  }

  lemma {:induction false} SingleBpmSweep(s0: Sweep, all: seq<MeasureMeasurePair>, bpm: real,
                                          rows: seq<GlobalRow>, n: nat, offset: real)
    returns (c: nat)
    requires bpm != 0.0 && n <= |rows| && SortedBy(all, StopKey) && SortedBy(rows, PosKey)
    requires SingleBpmState(s0, all, bpm, 0)
    ensures SweepPrefix(s0, rows, n, offset).Success?
    ensures SingleBpmState(SweepPrefix(s0, rows, n, offset).value.0, all, bpm, c)
    ensures n == 0 ==> c == 0
    ensures n > 0 ==> SweepPrefix(s0, rows, n, offset).value.0.lastMeasure == rows[n - 1].pos
    ensures var out := SweepPrefix(s0, rows, n, offset).value.1;
      |out| == n &&
      forall k :: 0 <= k < n ==> out[k].time == StretchTime(bpm, rows[k].pos) + StopsBelow(all, rows[k].pos, bpm) - offset
  {
    if n == 0 {
      c := 0;
    } else {
      var c0 := SingleBpmSweep(s0, all, bpm, rows, n - 1, offset);
      var p := SweepPrefix(s0, rows, n - 1, offset).value;
      if c0 > 0 {
        assert PosKey(rows[n - 2]) <= PosKey(rows[n - 1]);
      }
      c := SingleBpmStep(p.0, all, bpm, c0, rows[n - 1], offset);
    }
  }

  /** With one nonzero BPM, the sweep over sorted rows and sorted stops follows the closed form. */
  lemma SingleBpmSorted(bpm: MeasureBPMPair, all: seq<MeasureMeasurePair>, rows: seq<GlobalRow>, offset: real)
    requires bpm.bpm != 0.0 && SortedBy(all, StopKey) && SortedBy(rows, PosKey)
    ensures var r := SweepPrefix(InitialSweep([bpm], all), rows, |rows|, offset);
      r.Success? && Untimed(r.value.1) == rows &&
      forall k :: 0 <= k < |rows| ==>
        r.value.1[k].time == StretchTime(bpm.bpm, rows[k].pos) + StopsBelow(all, rows[k].pos, bpm.bpm) - offset
  {
    var s0 := InitialSweep([bpm], all);
    assert all[..0] == [] && all[0..] == all;
    assert StretchTime(bpm.bpm, 0.0) == 0.0;
    assert SingleBpmState(s0, all, bpm.bpm, 0);
    var c := SingleBpmSweep(s0, all, bpm.bpm, rows, |rows|, offset);
    SweepPrefixShape(s0, rows, |rows|, offset);
    assert rows[..|rows|] == rows;
  }

  /**
   * With a single nonzero BPM `b`, whatever its measure, a row at position
   * `p` is timed at `p * measures_per_second(b)` plus the pause of every
   * stop strictly before `p`, minus the offset.
   */
  lemma SingleBpmTimes(noteField: seq<GlobalRow>, bpm: MeasureBPMPair,
                       stops: seq<MeasureMeasurePair>, offset: real)
    requires bpm.bpm != 0.0
    ensures TimedNoteField(noteField, [bpm], stops, offset).Success?
    ensures var out := TimedNoteField(noteField, [bpm], stops, offset).value;
      |out| == |noteField| &&
      forall k :: 0 <= k < |out| ==>
        out[k].time == StretchTime(bpm.bpm, out[k].pos) + StopsBelow(stops, out[k].pos, bpm.bpm) - offset
  {
    var sortedBpms := SortBy([bpm], BpmKey);
    assert sortedBpms[0] in multiset([bpm]);
    assert sortedBpms == [bpm];
    var all := SortBy(stops, StopKey);
    var rows := SortBy(noteField, PosKey);
    SingleBpmSorted(bpm, all, rows, offset);
    TimedNoteFieldBySweep(noteField, [bpm], stops, offset, InitialSweep([bpm], all), rows);
    var out := SweepPrefix(InitialSweep([bpm], all), rows, |rows|, offset).value.1;
    StopsReordered(out, rows, all, stops, bpm.bpm, offset);
  }

  /** The closed form with the sorted stops holds with the stops in their original order. */
  lemma StopsReordered(out: seq<GlobalTimedRow>, rows: seq<GlobalRow>, all: seq<MeasureMeasurePair>,
                       stops: seq<MeasureMeasurePair>, bpm: real, offset: real)
    requires bpm != 0.0 && multiset(all) == multiset(stops) && Untimed(out) == rows
    requires forall k :: 0 <= k < |rows| ==>
      out[k].time == StretchTime(bpm, rows[k].pos) + StopsBelow(all, rows[k].pos, bpm) - offset
    ensures forall k :: 0 <= k < |out| ==>
      out[k].time == StretchTime(bpm, out[k].pos) + StopsBelow(stops, out[k].pos, bpm) - offset
  {
    forall k | 0 <= k < |out|
      ensures out[k].time == StretchTime(bpm, out[k].pos) + StopsBelow(stops, out[k].pos, bpm) - offset
    {
      assert Untimed(out)[k] == rows[k];
      StopsBelowPermutation(all, stops, rows[k].pos, bpm);
    }
  }

  /** One nonzero BPM `b` and no stops: a row at position `p` is timed at `p * 240 / b - offset`. */
  lemma SingleBpmNoStops(noteField: seq<GlobalRow>, bpm: MeasureBPMPair, offset: real)
    requires bpm.bpm != 0.0
    ensures TimedNoteField(noteField, [bpm], [], offset).Success?
    ensures var out := TimedNoteField(noteField, [bpm], [], offset).value;
      |out| == |noteField| &&
      forall k :: 0 <= k < |out| ==> out[k].time == out[k].pos * 240.0 / bpm.bpm - offset
  {
    SingleBpmTimes(noteField, bpm, [], offset);
    NoStopsTimes(TimedNoteField(noteField, [bpm], [], offset).value, bpm.bpm, offset);
  }

  /** Without stops the closed form is the stretch alone. */
  lemma NoStopsTimes(out: seq<GlobalTimedRow>, bpm: real, offset: real)
    requires bpm != 0.0
    requires forall k :: 0 <= k < |out| ==> out[k].time == StretchTime(bpm, out[k].pos) + StopsBelow([], out[k].pos, bpm) - offset
    ensures forall k :: 0 <= k < |out| ==> out[k].time == out[k].pos * 240.0 / bpm - offset
  {
    forall k | 0 <= k < |out| ensures out[k].time == out[k].pos * 240.0 / bpm - offset {
      var x := out[k];
      assert x.time == StretchTime(bpm, x.pos) + StopsBelow([], x.pos, bpm) - offset;
      assert StopsBelow([], x.pos, bpm) == 0.0;
      StretchTimeValue(bpm, x.pos);
    }
  }

  lemma StretchTimeValue(bpm: real, measures: real)
    requires bpm != 0.0
    ensures StretchTime(bpm, measures) == measures * 240.0 / bpm
  {
  }

  // ---------------------------------------------------------------------------
  // Non-negative data: times never decrease
  // ---------------------------------------------------------------------------

  /**
   * Positive BPMs, queued BPM changes sorted and none before the current
   * measure, and no negative stop left.
   */
  predicate Forward(s: Sweep) {
    s.lastBpm.bpm > 0.0 && SortedBy(s.bpms, BpmKey) &&
    (forall j :: 0 <= j < |s.bpms| ==> s.bpms[j].bpm > 0.0 && s.bpms[j].measure >= s.lastMeasure) &&
    forall j :: 0 <= j < |s.stops| ==> s.stops[j].value >= 0.0
  }

  lemma StretchTimeNonnegative(bpm: real, measures: real)
    requires bpm > 0.0 && measures >= 0.0
    ensures StretchTime(bpm, measures) >= 0.0
  {
    var m := MeasuresPerSecond(bpm);
    assert m > 0.0;
    assert m * measures >= 0.0;
  }

  lemma StopTimeNonnegative(value: real, bpm: real)
    requires bpm > 0.0 && value >= 0.0
    ensures StopTime(value, bpm) >= 0.0
  {
    var m := MeasuresPerSecond(bpm);
    assert m > 0.0;
    assert value / m >= 0.0;
  }

  /** Non-negative stops only add time, and what remains is a suffix of them. */
  lemma {:induction false} ConsumeStopsForward(stops: seq<MeasureMeasurePair>, bound: real, bpm: real, deltaTime: real)
    requires bpm > 0.0 && forall j :: 0 <= j < |stops| ==> stops[j].value >= 0.0
    ensures ConsumeStops(stops, bound, bpm, deltaTime).1 >= deltaTime
    ensures var rest := ConsumeStops(stops, bound, bpm, deltaTime).0;
      forall j :: 0 <= j < |rest| ==> rest[j].value >= 0.0
    decreases |stops|
  {
    if stops != [] && stops[0].measure < bound {
      StopTimeNonnegative(stops[0].value, bpm);
      ConsumeStopsForward(stops[1..], bound, bpm, deltaTime + StopTime(stops[0].value, bpm));
    }
  }

  /** With the measures in order, each BPM stretch of the first inner loop is non-negative. */
  lemma {:induction false} AdvanceForward(s: Sweep, pos: real, deltaTime: real, deltaMeasure: real)
    requires Forward(s) && s.lastMeasure <= pos
    ensures AdvanceBpms(s, pos, deltaTime, deltaMeasure).Success?
    ensures var a := AdvanceBpms(s, pos, deltaTime, deltaMeasure).value;
      Forward(a.0) && a.1 >= deltaTime && a.0.lastMeasure <= pos &&
      (a.0.bpms != [] ==> a.0.bpms[0].measure >= pos)
    decreases |s.bpms|
  {
    if s.bpms != [] && s.bpms[0].measure < pos {
      AdvanceBpmsUnfold(s, pos, deltaTime, deltaMeasure);
      var next := s.bpms[0];
      var s' := Sweep(s.elapsed, next.measure, next, s.bpms[1..], s.stops);
      StretchTimeNonnegative(s.lastBpm.bpm, next.measure - s.lastMeasure);
      forall j | 0 <= j < |s'.bpms| ensures s'.bpms[j].measure >= s'.lastMeasure {
        assert BpmKey(s.bpms[0]) <= BpmKey(s.bpms[j + 1]);
      }
      AdvanceForward(s', pos, deltaTime + StretchTime(s.lastBpm.bpm, next.measure - s.lastMeasure),
                     deltaMeasure - (next.measure - s.lastMeasure));
    }
  }

  lemma StepRowForward(s: Sweep, row: GlobalRow, offset: real)
    requires Forward(s) && s.lastMeasure <= row.pos
    ensures StepRow(s, row, offset).Success?
    ensures var q := StepRow(s, row, offset).value;
      Forward(q.0) && q.0.elapsed >= s.elapsed && q.1.time == q.0.elapsed - offset
  {
    AdvanceForward(s, row.pos, 0.0, row.pos - s.lastMeasure);
    AdvanceBpmsKeepsTarget(s, row.pos, 0.0, row.pos - s.lastMeasure);
    var a := AdvanceBpms(s, row.pos, 0.0, row.pos - s.lastMeasure).value;
    StretchTimeNonnegative(a.0.lastBpm.bpm, a.2);
    var start := a.1 + StretchTime(a.0.lastBpm.bpm, a.2);
    ConsumeStopsForward(a.0.stops, a.0.lastMeasure + a.2, a.0.lastBpm.bpm, start);
    forall j | 0 <= j < |a.0.bpms| ensures a.0.bpms[j].measure >= row.pos {
      assert BpmKey(a.0.bpms[0]) <= BpmKey(a.0.bpms[j]);
    }
  }

  lemma {:induction false} SweepForward(s0: Sweep, rows: seq<GlobalRow>, n: nat, offset: real)
    requires n <= |rows| && Forward(s0) && SortedBy(rows, PosKey)
    requires rows != [] ==> s0.lastMeasure <= rows[0].pos
    ensures SweepPrefix(s0, rows, n, offset).Success?
    ensures var p := SweepPrefix(s0, rows, n, offset).value;
      Forward(p.0) && |p.1| == n &&
      (forall k :: 0 <= k < n ==> p.1[k].time <= p.0.elapsed - offset) &&
      forall i, j :: 0 <= i < j < n ==> p.1[i].time <= p.1[j].time
  {
    if n > 0 {
      SweepForward(s0, rows, n - 1, offset);
      SweepPrefixShape(s0, rows, n - 1, offset);
      var p := SweepPrefix(s0, rows, n - 1, offset).value;
      if n > 1 {
        assert PosKey(rows[n - 2]) <= PosKey(rows[n - 1]);
      }
      StepRowForward(p.0, rows[n - 1], offset);
    }
  }

  /**
   * With non-negative positions and BPM measures, positive BPMs and
   * non-negative stops, the sweep succeeds and the times it emits never
   * decrease along the note field.
   */
  lemma MonotoneTimes(noteField: seq<GlobalRow>, bpms: seq<MeasureBPMPair>,
                      stops: seq<MeasureMeasurePair>, offset: real)
    requires bpms != []
    requires forall b :: b in bpms ==> b.bpm > 0.0 && b.measure >= 0.0
    requires forall st :: st in stops ==> st.value >= 0.0
    requires forall g :: g in noteField ==> g.pos >= 0.0
    ensures TimedNoteField(noteField, bpms, stops, offset).Success?
    ensures var out := TimedNoteField(noteField, bpms, stops, offset).value;
      forall i, j :: 0 <= i < j < |out| ==> out[i].time <= out[j].time
  {
    var rows := SortBy(noteField, PosKey);
    var sortedBpms := SortBy(bpms, BpmKey);
    var all := SortBy(stops, StopKey);
    SortedFromAll(bpms, BpmKey);
    SortedFromAll(stops, StopKey);
    InitialForward(sortedBpms, all);
    if rows != [] {
      SortedFrom(noteField, PosKey, 0);
    }
    SweepForward(InitialSweep(sortedBpms, all), rows, |rows|, offset);
  }

  lemma SortedFromAll<T>(s: seq<T>, key: T -> real)
    ensures forall k :: 0 <= k < |SortBy(s, key)| ==> SortBy(s, key)[k] in s
  {
    forall k | 0 <= k < |SortBy(s, key)| ensures SortBy(s, key)[k] in s {
      SortedFrom(s, key, k);
    }
  }

  lemma InitialForward(sortedBpms: seq<MeasureBPMPair>, all: seq<MeasureMeasurePair>)
    requires sortedBpms != [] && SortedBy(sortedBpms, BpmKey)
    requires forall k :: 0 <= k < |sortedBpms| ==> sortedBpms[k].bpm > 0.0 && sortedBpms[k].measure >= 0.0
    requires forall k :: 0 <= k < |all| ==> all[k].value >= 0.0
    ensures Forward(InitialSweep(sortedBpms, all))
  {
    var s0 := InitialSweep(sortedBpms, all);
    forall j | 0 <= j < |s0.bpms| ensures s0.bpms[j] == sortedBpms[j + 1] { }
    forall i, j | 0 <= i < j < |s0.bpms| ensures BpmKey(s0.bpms[i]) <= BpmKey(s0.bpms[j]) {
      assert BpmKey(sortedBpms[i + 1]) <= BpmKey(sortedBpms[j + 1]);
    }
  }
}
