/**
 * Rows of a chart: a row is one moment of the chart, a sequence holding one
 * note object per lane. This module gives the row algebra (text conversion,
 * mirroring, lane remapping, object replacement and search, the subset-based
 * row predicates, the permutations of a row), the 4-lane row classification,
 * the snap table and the row records that carry positions and times.
 */
module Rows {
  import opened Wrappers
  import opened Sequences
  import opened BasicTypes

  type Row = seq<NoteObject>

  // ---------------------------------------------------------------------------
  // Object sets
  // ---------------------------------------------------------------------------

  const FullSet: set<NoteObject> :=
    {EmptyLane, TapObject, HoldStart, HoldRollEnd, RollStart, Mine, Fake, Lift, HoldBody, RollBody}
  const EmptyLaneSet: set<NoteObject> := {EmptyLane}
  const DecorativeSet: set<NoteObject> := EmptyLaneSet + {Fake, Mine}
  const LongNoteBodySet: set<NoteObject> := {HoldBody, RollBody}
  const LongNoteEndsSet: set<NoteObject> := {HoldStart, RollStart, HoldRollEnd}
  const LongNoteSet: set<NoteObject> := LongNoteEndsSet + LongNoteBodySet
  const JudgeNonImportantSet: set<NoteObject> := DecorativeSet + LongNoteBodySet + {HoldRollEnd}
  const JudgeImportantSet: set<NoteObject> := FullSet - JudgeNonImportantSet
  const NonDecorativeSet: set<NoteObject> := FullSet - DecorativeSet

  /** The objects that must be hit are exactly taps, hold and roll heads, and lifts. */
  lemma JudgeImportantObjects()
    ensures JudgeImportantSet == {TapObject, HoldStart, RollStart, Lift}
    ensures NonDecorativeSet == {TapObject, HoldStart, HoldRollEnd, RollStart, Lift, HoldBody, RollBody}
  {
  }

  // ---------------------------------------------------------------------------
  // Row predicates
  // ---------------------------------------------------------------------------

  /** `{*row}`: the objects that occur in a row. */
  function Objects(row: Row): set<NoteObject> {
    set o | o in row
  }

  /** `not {*row} - allowed`: every lane holds an object of `allowed`. */
  predicate OnlyFrom(row: Row, allowed: set<NoteObject>) {
    Objects(row) - allowed == {}
  }

  predicate IsEmpty(row: Row) {
    OnlyFrom(row, EmptyLaneSet)
  }

  predicate IsDecorative(row: Row) {
    OnlyFrom(row, DecorativeSet)
  }

  predicate IsJudgeNonImportant(row: Row) {
    OnlyFrom(row, JudgeNonImportantSet)
  }

  predicate IsPureHoldRollBody(row: Row) {
    OnlyFrom(row, EmptyLaneSet + LongNoteBodySet)
  }

  /** The set-difference test holds exactly when every lane's object is allowed. */
  lemma OnlyFromLanewise(row: Row, allowed: set<NoteObject>)
    ensures OnlyFrom(row, allowed) <==> forall i :: 0 <= i < |row| ==> row[i] in allowed
  {
    if OnlyFrom(row, allowed) {
      forall i | 0 <= i < |row| ensures row[i] in allowed {
        assert row[i] in Objects(row);
        assert row[i] !in Objects(row) - allowed;
      }
    } else {
      var o :| o in Objects(row) - allowed;
      var i :| 0 <= i < |row| && row[i] == o;
      assert row[i] !in allowed;
    }
  }

  /** A row is empty exactly when every lane is an empty lane (the empty row included). */
  lemma IsEmptyLanewise(row: Row)
    ensures IsEmpty(row) <==> forall i :: 0 <= i < |row| ==> row[i] == EmptyLane
  {
    OnlyFromLanewise(row, EmptyLaneSet);
  }

  /**
   * Because the empty-lane set lies inside the decorative set, which lies
   * inside the judge-non-important set, the predicates imply one another;
   * an empty row is also a pure hold/roll body row.
   */
  lemma RowPredicateChain(row: Row)
    ensures IsEmpty(row) ==> IsDecorative(row)
    ensures IsDecorative(row) ==> IsJudgeNonImportant(row)
    ensures IsEmpty(row) ==> IsPureHoldRollBody(row)
  {
  }

  /** A row is judge-non-important exactly when no lane holds a judge-important object; likewise for decorative. */
  lemma {:induction false} ComplementSets(row: Row)
    ensures IsJudgeNonImportant(row) <==> forall i :: 0 <= i < |row| ==> row[i] !in JudgeImportantSet
    ensures IsDecorative(row) <==> forall i :: 0 <= i < |row| ==> row[i] !in NonDecorativeSet
  {
    OnlyFromLanewise(row, JudgeNonImportantSet);
    OnlyFromLanewise(row, DecorativeSet);
    forall i | 0 <= i < |row| ensures row[i] in FullSet {
      InFullSet(row[i]);
    }
  }

  lemma InFullSet(o: NoteObject)
    ensures o in FullSet
  {
    match o
    case EmptyLane =>
    case TapObject =>
    case HoldStart =>
    case HoldRollEnd =>
    case RollStart =>
    case Mine =>
    case Fake =>
    case Lift =>
    case HoldBody =>
    case RollBody =>
  }

  // ---------------------------------------------------------------------------
  // Text conversion
  // ---------------------------------------------------------------------------

  /**
   * `PureRow.from_str_row`: one object per character; `None` when a
   * character is not an object's character (the lookup raises).
   */
  function FromStrRow(s: string): (r: Option<Row>)
    ensures r.Some? <==> forall i :: 0 <= i < |s| ==> s[i] in NoteCharacters
    ensures r.Some? ==> |r.value| == |s|
  {
    if forall i :: 0 <= i < |s| ==> s[i] in NoteCharacters then
      Some(seq(|s|, i requires 0 <= i < |s| => FromCharacter(s[i]).value))
    else
      None
  }

  /** `PureRow.str_row`: the characters of the objects, lane by lane. */
  function StrRow(row: Row): (s: string)
    ensures |s| == |row|
  {
    seq(|row|, i requires 0 <= i < |row| => Character(row[i]))
  }

  /** Printing a row and reading it back gives the row. */
  lemma FromStrRowOfStrRow(row: Row)
    ensures FromStrRow(StrRow(row)) == Some(row)
  {
    var s := StrRow(row);
    forall i | 0 <= i < |s| ensures s[i] in NoteCharacters {
      FromCharacterOfCharacter(row[i]);
    }
    var r := FromStrRow(s).value;
    forall i | 0 <= i < |row| ensures r[i] == row[i] {
      FromCharacterOfCharacter(row[i]);
    }
    assert r == row;
  }

  /** Reading a row and printing it gives the text back; a text that does not read has a bad character. */
  lemma StrRowOfFromStrRow(s: string)
    ensures FromStrRow(s).Some? ==> StrRow(FromStrRow(s).value) == s
    ensures FromStrRow(s).None? ==> exists i :: 0 <= i < |s| && s[i] !in NoteCharacters
  {
  }

  // ---------------------------------------------------------------------------
  // Mirror and lane remapping
  // ---------------------------------------------------------------------------

  /** `mirror`: the lanes in reverse order. */
  function Mirror(row: Row): (r: Row)
    ensures |r| == |row|
  {
    seq(|row|, i requires 0 <= i < |row| => row[|row| - 1 - i])
  }

  /** Mirroring reverses the lane order: lane `i` of the mirror is lane `n-1-i` of the row. */
  lemma MirrorReverses(row: Row, i: nat)
    requires i < |row|
    ensures Mirror(row)[i] == row[|row| - 1 - i]
    ensures Mirror(row)[|row| - 1 - i] == row[i]
  {
  }

  /** Mirroring twice gives the row back. */
  lemma MirrorInvolution(row: Row)
    ensures Mirror(Mirror(row)) == row
  {
  }

  /** Mirroring keeps the set of objects, and with it every subset-based row predicate. */
  lemma MirrorKeepsObjects(row: Row)
    ensures Objects(Mirror(row)) == Objects(row)
    ensures IsEmpty(Mirror(row)) == IsEmpty(row)
    ensures IsDecorative(Mirror(row)) == IsDecorative(row)
    ensures IsJudgeNonImportant(Mirror(row)) == IsJudgeNonImportant(row)
  {
    var m := Mirror(row);
    forall o | o in Objects(row) ensures o in Objects(m) {
      var i :| 0 <= i < |row| && row[i] == o;
      assert m[|row| - 1 - i] == o;
    }
  }

  /** `lane_map.get(lane, lane)`: where lane `lane` takes its object from. */
  function LaneSource(laneMap: map<int, int>, lane: int): int {
    if lane in laneMap then laneMap[lane] else lane
  }

  /** Python sequence indexing, where a negative index counts from the end. */
  function PyIndex<T>(s: seq<T>, j: int): T
    requires -|s| <= j < |s|
  {
    if j < 0 then s[|s| + j] else s[j]
  }

  predicate LaneMapFits(row: Row, laneMap: map<int, int>) {
    forall lane :: 0 <= lane < |row| ==> -|row| <= LaneSource(laneMap, lane) < |row|
  }

  /**
   * `switch_lanes`: lane `i` of the result is `row[lane_map.get(i, i)]`;
   * `None` when some index is out of range (the indexing raises).
   */
  function SwitchLanes(row: Row, laneMap: map<int, int>): (r: Option<Row>)
    ensures r.Some? <==> LaneMapFits(row, laneMap)
    ensures r.Some? ==> |r.value| == |row|
  {
    if LaneMapFits(row, laneMap) then
      Some(seq(|row|, lane requires 0 <= lane < |row| => PyIndex(row, LaneSource(laneMap, lane))))
    else
      None
  }

  /** An empty lane map changes nothing. */
  lemma SwitchLanesEmptyMap(row: Row)
    ensures SwitchLanes(row, map[]) == Some(row)
  {
    assert LaneMapFits(row, map[]);
    var r := SwitchLanes(row, map[]).value;
    forall lane | 0 <= lane < |row| ensures r[lane] == row[lane] {
      assert LaneSource(map[], lane) == lane;
    }
    assert r == row;
  }

  /** The lane map that sends lane `i` to lane `n-1-i`. */
  function MirrorLaneMap(n: nat): map<int, int> {
    map i | i in Lanes(n) :: n - 1 - i
  }

  /** The lane indices 0 .. n-1. */
  function Lanes(n: nat): (lanes: set<int>)
    ensures forall i :: i in lanes <==> 0 <= i < n
  {
    if n == 0 then {} else Lanes(n - 1) + {n - 1}
  }

  /** Remapping with the reversing lane map is mirroring. */
  lemma SwitchLanesMirror(row: Row)
    ensures SwitchLanes(row, MirrorLaneMap(|row|)) == Some(Mirror(row))
  {
    var m := MirrorLaneMap(|row|);
    assert LaneMapFits(row, m);
    var r := SwitchLanes(row, m).value;
    forall i | 0 <= i < |row| ensures r[i] == Mirror(row)[i] {
      assert i in Lanes(|row|);
      assert LaneSource(m, i) == |row| - 1 - i;
    }
    assert r == Mirror(row);
  }

  /** A lane map that stays within the row and is its own inverse: applying it twice gives the row back. */
  lemma SwitchLanesInvolution(row: Row, laneMap: map<int, int>)
    requires forall lane :: 0 <= lane < |row| ==> 0 <= LaneSource(laneMap, lane) < |row|
    requires forall lane :: 0 <= lane < |row| ==> LaneSource(laneMap, LaneSource(laneMap, lane)) == lane
    ensures SwitchLanes(row, laneMap).Some?
    ensures SwitchLanes(SwitchLanes(row, laneMap).value, laneMap) == Some(row)
  {
    var once := SwitchLanes(row, laneMap).value;
    assert LaneMapFits(once, laneMap);
    var twice := SwitchLanes(once, laneMap).value;
    forall lane | 0 <= lane < |row| ensures twice[lane] == row[lane] {
      var j := LaneSource(laneMap, lane);
      assert twice[lane] == once[j];
    }
    assert twice == row;
  }

  // ---------------------------------------------------------------------------
  // Object search and replacement
  // ---------------------------------------------------------------------------

  /** `find_object_lanes`: the lanes holding `needle`. */
  function FindObjectLanes(row: Row, needle: NoteObject): set<int> {
    set lane | 0 <= lane < |row| && row[lane] == needle
  }

  /** The lanes found are exactly the lanes holding the object, and there are as many as its occurrences. */
  lemma {:induction false} FindObjectLanesCount(row: Row, needle: NoteObject)
    ensures forall lane :: lane in FindObjectLanes(row, needle) <==> 0 <= lane < |row| && row[lane] == needle
    ensures |FindObjectLanes(row, needle)| == Count(row, needle)
    decreases |row|
  {
    if row != [] {
      var init := row[..|row| - 1];
      FindObjectLanesCount(init, needle);
      FindObjectLanesSnoc(row, needle);
      if row[|row| - 1] == needle {
        assert |row| - 1 !in FindObjectLanes(init, needle);
        assert |FindObjectLanes(init, needle) + {|row| - 1}| == |FindObjectLanes(init, needle)| + 1;
      } else {
        assert FindObjectLanes(row, needle) == FindObjectLanes(init, needle);
      }
    }
  }

  lemma FindObjectLanesSnoc(row: Row, needle: NoteObject)
    requires row != []
    ensures FindObjectLanes(row, needle) ==
      FindObjectLanes(row[..|row| - 1], needle) + (if row[|row| - 1] == needle then {|row| - 1} else {})
  {
    var init := row[..|row| - 1];
    var extra: set<int> := if row[|row| - 1] == needle then {|row| - 1} else {};
    forall lane ensures lane in FindObjectLanes(row, needle) <==> lane in FindObjectLanes(init, needle) + extra {
      if 0 <= lane < |init| {
        assert init[lane] == row[lane];
      }
    }
  }

  /** What `replace_objects` replaces: one object, or any object of a container. */
  datatype ObjectSelector = One(obj: NoteObject) | AnyOf(objects: set<NoteObject>)

  /** A single object is treated as the singleton set of it. */
  function Selected(from: ObjectSelector): set<NoteObject> {
    match from
    case One(o) => {o}
    case AnyOf(objects) => objects
  }

  /** `replace_objects`: every lane whose object is selected becomes `to`; the rest stay. */
  function ReplaceObjects(row: Row, from: ObjectSelector, to: NoteObject): (r: Row)
    ensures |r| == |row|
  {
    seq(|row|, i requires 0 <= i < |row| => if row[i] in Selected(from) then to else row[i])
  }

  /**
   * After a replacement the selected objects are gone (unless one of them is
   * the replacement), `to` sits exactly on the lanes that held it or a
   * selected object, and every other lane is unchanged.
   */
  lemma ReplaceObjectsLanes(row: Row, from: ObjectSelector, to: NoteObject)
    ensures forall o :: o in Selected(from) && o != to ==> FindObjectLanes(ReplaceObjects(row, from, to), o) == {}
    ensures FindObjectLanes(ReplaceObjects(row, from, to), to) ==
            FindObjectLanes(row, to) + (set lane | 0 <= lane < |row| && row[lane] in Selected(from))
    ensures forall o :: o !in Selected(from) && o != to ==>
              FindObjectLanes(ReplaceObjects(row, from, to), o) == FindObjectLanes(row, o)
  {
    var r := ReplaceObjects(row, from, to);
    forall o | o in Selected(from) && o != to ensures FindObjectLanes(r, o) == {} {
      forall lane ensures lane !in FindObjectLanes(r, o) {
        if 0 <= lane < |row| {
          assert r[lane] == if row[lane] in Selected(from) then to else row[lane];
        }
      }
    }
    var hit := set lane | 0 <= lane < |row| && row[lane] in Selected(from);
    forall lane ensures lane in FindObjectLanes(r, to) <==> lane in FindObjectLanes(row, to) + hit {
      if 0 <= lane < |row| {
        assert r[lane] == if row[lane] in Selected(from) then to else row[lane];
      }
    }
    forall o | o !in Selected(from) && o != to ensures FindObjectLanes(r, o) == FindObjectLanes(row, o) {
      forall lane ensures lane in FindObjectLanes(r, o) <==> lane in FindObjectLanes(row, o) {
        if 0 <= lane < |row| {
          assert r[lane] == if row[lane] in Selected(from) then to else row[lane];
        }
      }
    }
  }

  /** Replacing twice is the same as replacing once. */
  lemma ReplaceObjectsIdempotent(row: Row, from: ObjectSelector, to: NoteObject)
    ensures ReplaceObjects(ReplaceObjects(row, from, to), from, to) == ReplaceObjects(row, from, to)
  {
  }

  /** Replacing one object is replacing the singleton set of it. */
  lemma ReplaceOneIsSingleton(row: Row, o: NoteObject, to: NoteObject)
    ensures ReplaceObjects(row, One(o), to) == ReplaceObjects(row, AnyOf({o}), to)
  {
    var a, b := ReplaceObjects(row, One(o), to), ReplaceObjects(row, AnyOf({o}), to);
    forall i | 0 <= i < |row| ensures a[i] == b[i] {
      assert Selected(One(o)) == Selected(AnyOf({o}));
    }
    assert a == b;
  }

  // ---------------------------------------------------------------------------
  // Permutations
  // ---------------------------------------------------------------------------

  function Remove<T>(s: seq<T>, i: nat): (r: seq<T>)
    requires i < |s|
    ensures |r| == |s| - 1
  {
    s[..i] + s[i + 1..]
  }

  function PrependAll<T>(x: T, ps: seq<seq<T>>): (r: seq<seq<T>>)
    ensures |r| == |ps|
    ensures forall k :: 0 <= k < |r| ==> r[k] == [x] + ps[k]
  {
    seq(|ps|, k requires 0 <= k < |ps| => [x] + ps[k])
  }

  /**
   * `itertools.permutations`: for each position in turn, its element
   * followed by every permutation of the others (the positional order in
   * which Python generates them, duplicates included).
   */
  function Permutations<T>(s: seq<T>): seq<seq<T>>
    decreases |s|, 1, 0
  {
    if |s| == 0 then [[]] else PermutationsFrom(s, 0)
  }

  /** The permutations of `s` that start with the element at position `i` or a later one. */
  function PermutationsFrom<T>(s: seq<T>, i: nat): seq<seq<T>>
    requires i <= |s|
    decreases |s|, 0, |s| - i
  {
    if i == |s| then []
    else PrependAll(s[i], Permutations(Remove(s, i))) + PermutationsFrom(s, i + 1)
  }

  lemma RemoveMultiset<T>(s: seq<T>, i: nat)
    requires i < |s|
    ensures multiset(Remove(s, i)) + multiset{s[i]} == multiset(s)
  {
    assert s == s[..i] + [s[i]] + s[i + 1..];
  }

  /** Every generated sequence is a rearrangement of the input. */
  lemma {:induction false} PermutationsRearrange<T>(s: seq<T>)
    ensures forall p :: p in Permutations(s) ==> multiset(p) == multiset(s)
    decreases |s|, 1, 0
  {
    if |s| > 0 {
      PermutationsFromRearrange(s, 0);
    }
  }

  lemma {:induction false} PermutationsFromRearrange<T>(s: seq<T>, i: nat)
    requires i <= |s|
    ensures forall p :: p in PermutationsFrom(s, i) ==> multiset(p) == multiset(s)
    decreases |s|, 0, |s| - i
  {
    if i < |s| {
      var rest := Remove(s, i);
      PermutationsRearrange(rest);
      RemoveMultiset(s, i);
      PermutationsFromRearrange(s, i + 1);
      PrependAllRearrange(s[i], Permutations(rest), multiset(rest));
      var block := PrependAll(s[i], Permutations(rest));
      var tail := PermutationsFrom(s, i + 1);
      assert PermutationsFrom(s, i) == block + tail;
      forall p | p in block + tail ensures multiset(p) == multiset(s) {
        if p !in block {
          assert p in tail;
        }
      }
    }
  }

  /** Putting `x` in front of rearrangements of one multiset gives rearrangements of it plus `x`. */
  lemma PrependAllRearrange<T>(x: T, ps: seq<seq<T>>, m: multiset<T>)
    requires forall q :: q in ps ==> multiset(q) == m
    ensures forall p :: p in PrependAll(x, ps) ==> multiset(p) == m + multiset{x}
  {
    var block := PrependAll(x, ps);
    forall p | p in block ensures multiset(p) == m + multiset{x} {
      var k :| 0 <= k < |block| && block[k] == p;
      assert ps[k] in ps;
      assert multiset([x] + ps[k]) == multiset{x} + multiset(ps[k]);
    }
  }

  /** The first permutation generated is the input itself. */
  lemma {:induction false} PermutationsStartWithInput<T>(s: seq<T>)
    ensures |Permutations(s)| > 0 && Permutations(s)[0] == s
    decreases |s|
  {
    if |s| > 0 {
      PermutationsStartWithInput(Remove(s, 0));
      assert Remove(s, 0) == s[1..];
    }
  }

  lemma {:induction false} PermutationsFromIncludesLater<T>(s: seq<T>, i: nat, j: nat, p: seq<T>)
    requires i <= j < |s|
    requires p in PrependAll(s[j], Permutations(Remove(s, j)))
    ensures p in PermutationsFrom(s, i)
    decreases j - i
  {
    if i < j {
      PermutationsFromIncludesLater(s, i + 1, j, p);
    }
  }

  /** Every rearrangement of the input is generated. */
  lemma {:induction false} PermutationsComplete<T>(s: seq<T>, p: seq<T>)
    requires multiset(p) == multiset(s)
    ensures p in Permutations(s)
    decreases |s|
  {
    assert |p| == |multiset(p)| == |s|;
    if |s| == 0 {
      assert p == [];
    } else {
      assert p[0] in multiset(s);
      var i :| 0 <= i < |s| && s[i] == p[0];
      RemoveMultiset(s, i);
      assert p == [p[0]] + p[1..];
      assert multiset(p) == multiset{p[0]} + multiset(p[1..]);
      assert multiset(p[1..]) == multiset(p) - multiset{p[0]};
      assert multiset(Remove(s, i)) == multiset(s) - multiset{s[i]};
      PermutationsComplete(Remove(s, i), p[1..]);
      var ps := Permutations(Remove(s, i));
      var k :| 0 <= k < |ps| && ps[k] == p[1..];
      assert PrependAll(s[i], ps)[k] == p;
      PermutationsFromIncludesLater(s, 0, i, p);
    }
  }

  /** `permutative_group`: the distinct rearrangements of a row, in generation order. */
  function PermutativeGroup(row: Row): (g: seq<Row>)
    ensures NoDuplicates(g)
  {
    OrderedSet(Permutations(row))
  }

  /** A non-empty sequence's ordered set starts with its first element. */
  lemma OrderedSetStartsWithFirst<T>(s: seq<T>)
    requires s != []
    ensures |OrderedSet(s)| > 0 && OrderedSet(s)[0] == s[0]
  {
    var r := OrderedSet(s);
    assert s[0] in r;
    var j :| 0 <= j < |r| && r[j] == s[0];
    OrderedSetFirstOccurrenceOrder(s);
  }

  /**
   * The permutative group has no duplicates, starts with the row itself,
   * holds only rearrangements of the row and holds every one of them.
   */
  lemma PermutativeGroupProperties(row: Row)
    ensures |PermutativeGroup(row)| > 0 && PermutativeGroup(row)[0] == row
    ensures forall p :: p in PermutativeGroup(row) ==> multiset(p) == multiset(row)
    ensures forall p :: multiset(p) == multiset(row) ==> p in PermutativeGroup(row)
  {
    var perms := Permutations(row);
    PermutationsStartWithInput(row);
    OrderedSetStartsWithFirst(perms);
    PermutationsRearrange(row);
    forall p | multiset(p) == multiset(row) ensures p in PermutativeGroup(row) {
      PermutationsComplete(row, p);
    }
  }

  // ---------------------------------------------------------------------------
  // Row records: positions and times
  // ---------------------------------------------------------------------------

  /** A row within a measure; `pos` is its local position. */
  datatype LocalRow = LocalRow(row: Row, pos: real)

  /** A row within a chart; `pos` is its global position in measures. */
  datatype GlobalRow = GlobalRow(row: Row, pos: real)

  /** A row within a chart with the time, in seconds, at which it is due. */
  datatype GlobalTimedRow = GlobalTimedRow(row: Row, pos: real, time: real)

  /** A timed row with the time to the next row. */
  datatype GlobalDeltaRow = GlobalDeltaRow(row: Row, pos: real, time: real, delta: real)

  /** `LocalRow.evolve`: place a measure's row at global position local position + measure. */
  function LocalToGlobal(l: LocalRow, globalMeasure: real): (g: GlobalRow)
    ensures g.row == l.row
    ensures g.pos - globalMeasure == l.pos
  {
    GlobalRow(l.row, l.pos + globalMeasure)
  }

  /** `GlobalRow.evolve`: attach a time, keeping row and position. */
  function GlobalToTimed(g: GlobalRow, time: real): (t: GlobalTimedRow)
    ensures t.row == g.row && t.pos == g.pos && t.time == time
  {
    GlobalTimedRow(g.row, g.pos, time)
  }

  /** `GlobalTimedRow.evolve`: attach the time to the next row; this row's time plus the delta is the next row's time. */
  function TimedToDelta(t: GlobalTimedRow, next: GlobalTimedRow): (d: GlobalDeltaRow)
    ensures d.row == t.row && d.pos == t.pos && d.time == t.time
    ensures d.time + d.delta == next.time
  {
    GlobalDeltaRow(t.row, t.pos, t.time, next.time - t.time)
  }

  /** Python's `%` on fractions: the remainder takes the sign of the divisor. */
  function PyMod(a: real, b: real): (r: real)
    requires b != 0.0
    ensures b > 0.0 ==> 0.0 <= r < b
    ensures b < 0.0 ==> b < r <= 0.0
  {
    var q := (a / b).Floor;
    FloorScaled(a, b, q);
    a - b * q as real
  }

  lemma FloorScaled(a: real, b: real, q: int)
    requires b != 0.0 && q as real <= a / b < q as real + 1.0
    ensures b > 0.0 ==> 0.0 <= a - b * q as real < b
    ensures b < 0.0 ==> b < a - b * q as real <= 0.0
  {
    var f := a / b;
    var d := f - q as real;
    assert 0.0 <= d < 1.0;
    assert a == f * b;
    assert a - b * q as real == b * d;
    assert b - b * d == b * (1.0 - d);
    if b > 0.0 {
      assert b * d >= 0.0;
      assert b * (1.0 - d) > 0.0;
    } else {
      assert b * d <= 0.0;
      assert b * (1.0 - d) < 0.0;
    }
  }

  /**
   * `HasPosition.localize`: `pos % window_factor / window_factor`, the
   * position's fraction of the way through its window, in [0, 1), for a
   * window of either sign; a zero window raises.
   */
  function Localize(pos: real, windowFactor: real): (r: real)
    requires windowFactor != 0.0
    ensures 0.0 <= r < 1.0
    ensures (pos / windowFactor - r).Floor as real == pos / windowFactor - r
  {
    var m := PyMod(pos, windowFactor);
    var q := (pos / windowFactor).Floor;
    assert m == pos - windowFactor * q as real;
    assert m / windowFactor == pos / windowFactor - q as real;
    m / windowFactor
  }

  /**
   * Placing a local row of a measure at a whole, non-negative measure and
   * splitting the global position again gives back that measure and the
   * local position; localizing to one-measure windows gives the local
   * position too.
   */
  lemma LocalToGlobalSplits(l: LocalRow, m: int)
    requires m >= 0 && 0.0 <= l.pos < 1.0
    ensures MeasureOf(LocalToGlobal(l, m as real).pos) == m
    ensures LocalPositionOf(LocalToGlobal(l, m as real).pos) == l.pos
    ensures Localize(LocalToGlobal(l, m as real).pos, 1.0) == l.pos
  {
    var p := LocalToGlobal(l, m as real).pos;
    PositionSplitUnique(p, m, l.pos);
    var r := Localize(p, 1.0);
    var k := (p - r).Floor;
    assert k as real == p - r;
    PositionSplitUnique(p, k, r);
  }

  // ---------------------------------------------------------------------------
  // Snaps
  // ---------------------------------------------------------------------------

  /** The snap colours of `basic_types.Snap`, as the row denominators they name. */
  const SnapColourValues: set<int> := {4, 8, 12, 16, 24, 32, 48, 64, 192}

  /**
   * `Snap.snap_value` as written: the comparisons with `is` against integer
   * literals are never true for a `Snap` (an `int` subclass instance is not
   * the cached literal), so only the first test can succeed.
   */
  function SnapValueAsWritten(denominator: int): (v: int)
    ensures v == 4 || v == 192
    ensures v == SnapValue(denominator) <==> denominator !in {3, 8, 12, 16, 24, 32, 48, 64}
  {
    if denominator in {1, 2, 4} then 4 else 192
  }

  /** `Snap.snap_value` as intended: the table of the source with `==` for `is`. */
  function SnapValue(denominator: int): (v: int)
    ensures v in SnapColourValues
    ensures denominator in {1, 2, 4} ==> v == 4
    ensures denominator == 3 ==> v == 12
    ensures denominator in {8, 12, 16, 24, 32, 48, 64} ==> v == denominator
    ensures denominator !in {1, 2, 3, 4, 8, 12, 16, 24, 32, 48, 64} ==> v == 192
  {
    if denominator in {1, 2, 4} then 4
    else if denominator == 3 then 12
    else if denominator == 8 then 8
    else if denominator == 12 then 12
    else if denominator == 16 then 16
    else if denominator == 24 then 24
    else if denominator == 32 then 32
    else if denominator == 48 then 48
    else if denominator == 64 then 64
    else 192
  }

  /** The listed denominators divide the snap they are given; so a row on that grid lies on the snap's grid. */
  lemma SnapValueRefinesDenominator(denominator: int)
    requires denominator in {1, 2, 3, 4, 8, 12, 16, 24, 32, 48, 64}
    ensures SnapValue(denominator) % denominator == 0
  {
  }

  /** The as-written table differs from the intended one, for instance on an eighth-note row. */
  lemma SnapValueAsWrittenDiffers()
    ensures SnapValueAsWritten(8) == 192 && SnapValue(8) == 8
    ensures SnapValueAsWritten(3) == 192 && SnapValue(3) == 12
    ensures forall d :: d in {1, 2, 4} ==> SnapValueAsWritten(d) == SnapValue(d)
  {
  }

  // ---------------------------------------------------------------------------
  // Row classification
  // ---------------------------------------------------------------------------

  /** The members of `RowFlags` other than `NONE`; a classification is a set of them (`NONE` is the empty set). */
  datatype RowFlag =
    | Single
    | OhtJump
    | ThtJump
    | Hand
    | Quad
    | Hold
    | Roll
    | OhtHold
    | OhtRoll
    | ThtHold
    | ThtRoll
    | Release

  /** The bit of each flag in the `IntFlag`. */
  function FlagBit(f: RowFlag): nat {
    match f
    case Single => 1
    case OhtJump => 2
    case ThtJump => 4
    case Hand => 8
    case Quad => 16
    case Hold => 32
    case Roll => 64
    case OhtHold => 128
    case OhtRoll => 256
    case ThtHold => 512
    case ThtRoll => 1024
    case Release => 2048
  }

  /** The flags in bit order: flag `FlagOrder[i]` is `1 << i`. */
  const FlagOrder: seq<RowFlag> :=
    [Single, OhtJump, ThtJump, Hand, Quad, Hold, Roll, OhtHold, OhtRoll, ThtHold, ThtRoll, Release]

  /** The place of a flag in `FlagOrder`. */
  function FlagIndex(f: RowFlag): (i: nat)
    ensures i < |FlagOrder| && FlagOrder[i] == f
  {
    match f
    case Single => 0
    case OhtJump => 1
    case ThtJump => 2
    case Hand => 3
    case Quad => 4
    case Hold => 5
    case Roll => 6
    case OhtHold => 7
    case OhtRoll => 8
    case ThtHold => 9
    case ThtRoll => 10
    case Release => 11
  }

  function Pow2(n: nat): (p: nat)
    ensures p >= 1
  {
    if n == 0 then 1 else 2 * Pow2(n - 1)
  }

  /** Each flag's bit is `1 << k`, `k` its place in bit order. */
  lemma FlagBitIsShift(f: RowFlag)
    ensures FlagBit(f) == Pow2(FlagIndex(f))
  {
    assert Pow2(4) == 16 && Pow2(8) == 256 && Pow2(11) == 2048;
  }

  /** `int(flags) >> i`: the bits of the flags in the set, from bit `i` up. */
  function FlagsValueFrom(flags: set<RowFlag>, i: nat): nat
    requires i <= |FlagOrder|
    decreases |FlagOrder| - i
  {
    if i == |FlagOrder| then 0
    else (if FlagOrder[i] in flags then 1 else 0) + 2 * FlagsValueFrom(flags, i + 1)
  }

  /** `int(flags)`: the `IntFlag` value of a classification. */
  function FlagsValue(flags: set<RowFlag>): nat {
    FlagsValueFrom(flags, 0)
  }

  lemma {:induction false} FlagsValueFromUnion(a: set<RowFlag>, b: set<RowFlag>, i: nat)
    requires a !! b && i <= |FlagOrder|
    ensures FlagsValueFrom(a + b, i) == FlagsValueFrom(a, i) + FlagsValueFrom(b, i)
    decreases |FlagOrder| - i
  {
    if i < |FlagOrder| {
      FlagsValueFromUnion(a, b, i + 1);
    }
  }

  /** The value of flags no set member of which lies at or above bit `i` is 0 from there on. */
  lemma {:induction false} FlagsValueFromNone(flags: set<RowFlag>, i: nat)
    requires i <= |FlagOrder|
    requires forall j :: i <= j < |FlagOrder| ==> FlagOrder[j] !in flags
    ensures FlagsValueFrom(flags, i) == 0
    decreases |FlagOrder| - i
  {
    if i < |FlagOrder| {
      FlagsValueFromNone(flags, i + 1);
    }
  }

  lemma {:induction false} FlagsValueFromOne(k: nat, i: nat)
    requires i <= k < |FlagOrder|
    ensures FlagsValueFrom({FlagOrder[k]}, i) == Pow2(k - i)
    decreases k - i
  {
    assert forall j, j' :: 0 <= j < j' < |FlagOrder| ==> FlagOrder[j] != FlagOrder[j'];
    if i == k {
      FlagsValueFromNone({FlagOrder[k]}, k + 1);
    } else {
      FlagsValueFromOne(k, i + 1);
    }
  }

  /** A single flag's value is its bit. */
  lemma FlagsValueOfOne(f: RowFlag)
    ensures FlagsValue({f}) == FlagBit(f)
  {
    FlagsValueFromOne(FlagIndex(f), 0);
    FlagBitIsShift(f);
  }

  /** Flags combine by adding their bits: a classification's value is the sum of its flags' bits. */
  lemma FlagsValueUnion(a: set<RowFlag>, b: set<RowFlag>)
    requires a !! b
    ensures FlagsValue(a + b) == FlagsValue(a) + FlagsValue(b)
  {
    FlagsValueFromUnion(a, b, 0);
  }

  /** A bit and the rest are recovered from `bit + 2 * rest`. */
  lemma LowBit(bit: nat, rest: nat)
    requires bit <= 1
    ensures (bit + 2 * rest) % 2 == bit && (bit + 2 * rest) / 2 == rest
  {
  }

  lemma {:induction false} FlagsValueFromInjective(a: set<RowFlag>, b: set<RowFlag>, i: nat)
    requires i <= |FlagOrder| && FlagsValueFrom(a, i) == FlagsValueFrom(b, i)
    ensures forall j :: i <= j < |FlagOrder| ==> (FlagOrder[j] in a <==> FlagOrder[j] in b)
    decreases |FlagOrder| - i
  {
    if i < |FlagOrder| {
      var ha := if FlagOrder[i] in a then 1 else 0;
      var hb := if FlagOrder[i] in b then 1 else 0;
      var ra, rb := FlagsValueFrom(a, i + 1), FlagsValueFrom(b, i + 1);
      LowBit(ha, ra);
      LowBit(hb, rb);
      FlagsValueFromInjective(a, b, i + 1);
    }
  }

  /** Different classifications have different values. */
  lemma FlagsValueInjective(a: set<RowFlag>, b: set<RowFlag>)
    ensures FlagsValue(a) == FlagsValue(b) <==> a == b
  {
    if FlagsValue(a) == FlagsValue(b) {
      FlagsValueFromInjective(a, b, 0);
      forall f ensures f in a <==> f in b {
        var k := FlagIndex(f);
      }
    }
  }

  /** The pair of lanes holding `x` lies on one side: lanes {0, 1} or lanes {2, 3}. */
  predicate OneSidedPair(row: Row, x: NoteObject) {
    FindObjectLanes(row, x) == {0, 1} || FindObjectLanes(row, x) == {2, 3}
  }

  /**
   * Whether a 4-lane row deserves a flag: taps give SINGLE, a jump
   * (one-sided or not), HAND or QUAD by their number; holds and rolls give
   * HOLD/ROLL for one, a one-sided or two-sided pair for two, and the
   * two-sided flag for three or more; any end gives RELEASE.
   */
  predicate FlagHolds(row: Row, f: RowFlag) {
    match f
    case Single => Count(row, TapObject) == 1
    case OhtJump => Count(row, TapObject) == 2 && OneSidedPair(row, TapObject)
    case ThtJump => Count(row, TapObject) == 2 && !OneSidedPair(row, TapObject)
    case Hand => Count(row, TapObject) == 3
    case Quad => Count(row, TapObject) == 4
    case Hold => Count(row, HoldStart) == 1
    case OhtHold => Count(row, HoldStart) == 2 && OneSidedPair(row, HoldStart)
    case ThtHold => (Count(row, HoldStart) == 2 && !OneSidedPair(row, HoldStart)) || Count(row, HoldStart) >= 3
    case Roll => Count(row, RollStart) == 1
    case OhtRoll => Count(row, RollStart) == 2 && OneSidedPair(row, RollStart)
    case ThtRoll => (Count(row, RollStart) == 2 && !OneSidedPair(row, RollStart)) || Count(row, RollStart) >= 3
    case Release => Count(row, HoldRollEnd) > 0
  }

  /** A row is classified as `flags` when `flags` holds exactly the flags the row deserves. */
  predicate ClassifiedAs(row: Row, flags: set<RowFlag>) {
    forall f :: f in flags <==> FlagHolds(row, f)
  }

  const TapFlags: set<RowFlag> := {Single, OhtJump, ThtJump, Hand, Quad}

  /** A 4-lane row's count, lane by lane. */
  lemma Count4(row: Row, x: NoteObject)
    requires |row| == 4
    ensures Count(row, x) ==
      (if row[0] == x then 1 else 0) + (if row[1] == x then 1 else 0) +
      (if row[2] == x then 1 else 0) + (if row[3] == x then 1 else 0)
  {
    var i3 := if row[3] == x then 1 else 0;
    var i2 := if row[2] == x then 1 else 0;
    var i1 := if row[1] == x then 1 else 0;
    var i0 := if row[0] == x then 1 else 0;
    assert row[..|row| - 1] == row[..3];
    assert Count(row, x) == Count(row[..3], x) + i3;
    assert row[..3][..2] == row[..2] && row[..3][2] == row[2];
    assert Count(row[..3], x) == Count(row[..2], x) + i2;
    assert row[..2][..1] == row[..1] && row[..2][1] == row[1];
    assert Count(row[..2], x) == Count(row[..1], x) + i1;
    assert row[..1][..0] == [] && row[..1][0] == row[0];
    assert Count(row[..1], x) == Count(row[..0], x) + i0;
  }

  /** For a pair, the slice comparisons of the classifier test for a one-sided pair. */
  lemma OneSidedPairBySlices(row: Row, x: NoteObject)
    requires |row| == 4 && Count(row, x) == 2
    ensures OneSidedPair(row, x) <==> row[..2] == [x, x] || Mirror(row)[..2] == [x, x]
  {
    Count4(row, x);
    var lanes := FindObjectLanes(row, x);
    if row[0] == x && row[1] == x {
      assert lanes == {0, 1};
    } else if row[2] == x && row[3] == x {
      assert lanes == {2, 3};
    } else {
      assert 0 in lanes ==> 1 !in lanes;
      assert 2 in lanes ==> 3 !in lanes;
    }
    assert Mirror(row)[..2] == [row[3], row[2]];
  }

  /** `flags` holds exactly the tap flags the row deserves. */
  predicate TapFlagsOf(row: Row, flags: set<RowFlag>) {
    forall f :: f in flags <==> f in TapFlags && FlagHolds(row, f)
  }

  /**
   * `flags` holds exactly the long-note flags the row deserves for `head`:
   * `one` for a single head, `oneSided` for a pair on one side, `twoSided`
   * for any other pair or for more heads.
   */
  predicate LongNoteFlagsOf(row: Row, head: NoteObject, one: RowFlag, oneSided: RowFlag, twoSided: RowFlag,
                            flags: set<RowFlag>)
  {
    flags <= {one, oneSided, twoSided} &&
    (one in flags <==> Count(row, head) == 1) &&
    (oneSided in flags <==> Count(row, head) == 2 && OneSidedPair(row, head)) &&
    (twoSided in flags <==> (Count(row, head) == 2 && !OneSidedPair(row, head)) || Count(row, head) >= 3)
  }

  /** The tap branch of `classify_row`: the tap flags the row deserves. */
  method ClassifyTaps(row: Row) returns (flags: set<RowFlag>)
    requires |row| == 4
    ensures TapFlagsOf(row, flags)
  {
    var taps := Count(row, TapObject);
    var ohtJump := [TapObject, TapObject];
    flags := {};
    if taps == 1 {
      flags := flags + {Single};
    } else if taps == 2 {
      OneSidedPairBySlices(row, TapObject);
      var oht := row[..2] == ohtJump || Mirror(row)[..2] == ohtJump;
      if oht {
        flags := flags + {OhtJump};
      } else {
        flags := flags + {ThtJump};
      }
    } else if taps == 3 {
      flags := flags + {Hand};
    } else if taps == 4 {
      flags := flags + {Quad};
    }
  }

  /**
   * The hold branch (and, with the roll objects and flags, the roll branch)
   * of `classify_row`: none, one, a pair judged by its sides, or more.
   */
  method ClassifyLongNotes(row: Row, head: NoteObject, one: RowFlag, oneSided: RowFlag, twoSided: RowFlag)
    returns (flags: set<RowFlag>)
    requires |row| == 4
    requires one != oneSided && one != twoSided && oneSided != twoSided
    ensures LongNoteFlagsOf(row, head, one, oneSided, twoSided, flags)
  {
    var heads := Count(row, head);
    var oht := [head, head];
    flags := {};
    if heads == 0 {
    } else if heads == 1 {
      flags := flags + {one};
    } else if heads == 2 {
      OneSidedPairBySlices(row, head);
      var isOht := row[..2] == oht || Mirror(row)[..2] == oht;
      if isOht {
        flags := flags + {oneSided};
      } else {
        flags := flags + {twoSided};
      }
    } else {
      flags := flags + {twoSided};
    }
  }

  /**
   * `RowFlags.classify_row`: accumulates flags into `klass` branch by
   * branch. Rows that are not 4 lanes wide are refused (`None`, the source
   * raises); an all-empty row is `NONE`.
   */
  method ClassifyRow(row: Row) returns (r: Option<set<RowFlag>>)
    ensures r.None? <==> |row| != 4
    ensures r.Some? ==> ClassifiedAs(row, r.value)
    ensures r.Some? && Count(row, EmptyLane) == 4 ==> r.value == {}
  {
    if |row| != 4 {
      return None;
    }
    if Count(row, EmptyLane) == 4 {
      EmptyRowHasNoFlags(row);
      return Some({});
    }
    var klass := ClassifyTaps(row);
    var tapFlags := klass;
    var holdFlags := ClassifyLongNotes(row, HoldStart, Hold, OhtHold, ThtHold);
    klass := klass + holdFlags;
    var rollFlags := ClassifyLongNotes(row, RollStart, Roll, OhtRoll, ThtRoll);
    klass := klass + rollFlags;
    var release: set<RowFlag> := {};
    if Count(row, HoldRollEnd) > 0 {
      release := {Release};
    }
    klass := klass + release;
    SectionsClassify(row, tapFlags, holdFlags, rollFlags, release);
    return Some(klass);
  }

  /** A row of four empty lanes deserves no flag. */
  lemma EmptyRowHasNoFlags(row: Row)
    requires |row| == 4 && Count(row, EmptyLane) == 4
    ensures ClassifiedAs(row, {})
  {
    Count4(row, EmptyLane);
    Count4(row, TapObject);
    Count4(row, HoldStart);
    Count4(row, RollStart);
    Count4(row, HoldRollEnd);
  }

  /** The hold section gives exactly the hold flags the row deserves. */
  lemma HoldSection(row: Row, holds: set<RowFlag>)
    requires LongNoteFlagsOf(row, HoldStart, Hold, OhtHold, ThtHold, holds)
    ensures forall f :: f in holds <==> f in {Hold, OhtHold, ThtHold} && FlagHolds(row, f)
  {
  }

  /** The roll section gives exactly the roll flags the row deserves. */
  lemma RollSection(row: Row, rolls: set<RowFlag>)
    requires LongNoteFlagsOf(row, RollStart, Roll, OhtRoll, ThtRoll, rolls)
    ensures forall f :: f in rolls <==> f in {Roll, OhtRoll, ThtRoll} && FlagHolds(row, f)
  {
  }

  /** The flags of the four branches together are exactly the flags the row deserves. */
  lemma SectionsClassify(row: Row, taps: set<RowFlag>, holds: set<RowFlag>, rolls: set<RowFlag>, release: set<RowFlag>)
    requires TapFlagsOf(row, taps)
    requires LongNoteFlagsOf(row, HoldStart, Hold, OhtHold, ThtHold, holds)
    requires LongNoteFlagsOf(row, RollStart, Roll, OhtRoll, ThtRoll, rolls)
    requires release == if Count(row, HoldRollEnd) > 0 then {Release} else {}
    ensures ClassifiedAs(row, taps + holds + rolls + release)
  {
    HoldSection(row, holds);
    RollSection(row, rolls);
    forall f ensures f in taps + holds + rolls + release <==> FlagHolds(row, f) {
      match f
      case Single =>
      case OhtJump =>
      case ThtJump =>
      case Hand =>
      case Quad =>
      case Hold =>
      case OhtHold =>
      case ThtHold =>
      case Roll =>
      case OhtRoll =>
      case ThtRoll =>
      case Release =>
    }
  }
}
