# SimfileLibrary core in Dafny

This project models the core of SimfileLibrary, a Python library that reads
StepMania `.sm` simfiles into charts of note rows with exact timing. It
proves properties of that model. Every quantity of the library is a
`fractions.Fraction`, so it is modelled as a Dafny `real`. Python exceptions
become `Option`/`Result` failures.

Modules and files:

- `Wrappers` (wrappers.dfy). `Option` and `Result`.
- `Sequences` (sequences.dfy). Counting, duplicate-freedom, subsequences, and
  a stable insertion sort `SortBy` that stands for `sorted(key=...)`.
- `BasicTypes` (basic_types.dfy). Covers:
  - the ten `NoteObject` members and their characters;
  - the `CheaperFraction` hash;
  - the `Invariant` values and how Python's operator dispatch treats them beside numbers of each class;
  - BPM and beat units;
  - splitting a `GlobalPosition` into measure and local position;
  - rounding to milliseconds;
  - `make_ordered_set`.
- `Rows` (rows.dfy). Covers:
  - the object sets and the row predicates;
  - string↔row conversion;
  - `mirror`, `switch_lanes`, `find_object_lanes`, `replace_objects` and `permutative_group`;
  - the `evolve` chain LocalRow → GlobalRow → GlobalTimedRow → GlobalDeltaRow;
  - `localize` and the snap table;
  - `RowFlags.classify_row`, written as the accumulating methods of the source, and the `IntFlag` value of a classification.
- `ComplexTypes` (complex_types.dfy). Covers:
  - `str.split('=')[:2]`;
  - a restricted decimal parser standing for `Fraction(str)`;
  - `from_string_list` of `MeasureValuePair`, `MeasureMeasurePair` and `MeasureBPMPair`.
- `ChartTiming` (chart_timing.dfy). The timing sweep of
  `AugmentedChart.__attrs_post_init__`:
  - the nested `while` loops are methods (`TimeRow` for one pass, `TimeRows` for the outer loop, `AugmentNoteField` around them);
  - each method is proved equal to a specification function (`StepRow`, `TimedNoteField`);
  - that function is defined over the prefix of rows already timed (`SweepPrefix`).
- `TimingProperties` (timing_properties.dfy). What the sweep guarantees:
  - which inputs fail;
  - rows keep their order and objects;
  - the loop invariant `last_measure + delta_measure == pos`;
  - the closed form for one BPM, with each stop counted once;
  - times never decrease for positive BPMs and non-negative stops.
- `SimfileParser` (simfile_parser.dfy). Covers:
  - the per-line `//` comment stripping of `parse`;
  - `ChartTransformer.row`, `measure`, `measures` and `notes`;
  - the `Simfile` defaults;
  - the `simfile` token fold, as the loop method `AssembleSimfile` (one pass: `FoldToken`) proved equal to `Fold`.
- `ChartAnalysis` (chart_analysis.dfy). Covers:
  - `filter_out_empty_rows`;
  - `make_hold_roll_bodies_distinct`, as a `for` loop whose active-lane sets are tied to `ActiveAfter`.
- `AsWritten` (as_written.dfy). Four places where the code names something
  that does not exist, or calls something that is not callable.
  - This module states what the text itself does.
  - Everywhere else, the model follows the evident intent (see "## Findings").

Where the code and the library's description differ, the model follows the
code.

- `classify_row` raises for a row that does not have 4 lanes, and the model returns `None` there.
- A row holding 3 or more hold or roll heads gets the two-sided flag.

## Model

| member | source | states |
|---|---|---|
| Sequences.SortBy | simfile_parser.py:39-41 | the result is ordered by the key, is a permutation of the input and has its length |
| Sequences.InsertByWithKey | simfile_parser.py:39-41 | an inserted element goes in front of every element with its key, and the others keep their order |
| Sequences.SortByStable | simfile_parser.py:39-41 | the sort is stable: for every key, the elements with that key come out in their input order |
| BasicTypes.FromCharacter | basic_types.py:171-173 | a lookup succeeds exactly for the ten value characters, and yields the member with that character |
| BasicTypes.FromCharacterOfCharacter | basic_types.py:155-173 | looking up a member's own character gives the member back |
| BasicTypes.CharacterInjective | basic_types.py:155-169 | distinct members have distinct characters (`@unique`) |
| BasicTypes.ZigZag | basic_types.py:34-36 | the code of the numerator is even exactly when the numerator is non-negative |
| BasicTypes.ZigZagInjective | basic_types.py:34-36 | different numerators get different codes |
| BasicTypes.NullGlobalPositionIsNull | basic_types.py:201 | the marker `NullGlobalPosition` (-1) is null |
| BasicTypes.ValidPositionNotNull | basic_types.py:108-122 | a position in the documented range `0 <= GlobalPosition` is not null |
| BasicTypes.FractionHash | basic_types.py:33-38 | the hash is non-negative and lies between the triangular numbers of n+d and n+d+1 |
| BasicTypes.FractionHashCollision | basic_types.py:33-38 | the hash is not injective: -1/2 and 1/3 both hash to 16 |
| BasicTypes.Apply | basic_types.py:24-57 | an Invariant on the left answers + − × ÷ with itself; on the right it does so exactly when the left operand is an `int`, a `float` or of a class the Invariant's class derives from; otherwise it counts as the fraction 0, giving a plain `Fraction`, and dividing by it raises, as does plain division by zero |
| BasicTypes.InvariantOfOtherUnit | basic_types.py:125-152 | `Time(3) + PositionInvariant` is `Fraction(3)`, `Time(3) / PositionInvariant` raises, `Measure(1) * TimeInvariant` is `Fraction(0)`, while `Time(3) + DeltaInvariant` is `DeltaInvariant` |
| BasicTypes.InvariantAbsorbsChain | basic_types.py:48-57 | any chain of operations on an Invariant gives the Invariant back |
| BasicTypes.ChainAppend | basic_types.py:48-57 | evaluating a chain over two stretches of operands is evaluating the second from the first's result |
| BasicTypes.ChainMeetsInvariant | basic_types.py:41-57 | a chain whose running value before an Invariant operand is an Invariant, or a number that Invariant absorbs, does not raise and ends in that earlier Invariant or else the operand |
| BasicTypes.MeasuresPerSecond | basic_types.py:63-65 | the result times the BPM is 240, and it is positive for a positive BPM |
| BasicTypes.RowsPerSecond | basic_types.py:67-69 | the result times the BPM is 240·192 |
| BasicTypes.BeatAsMeasure | basic_types.py:87-89 | four times the measure is the beat, with the same sign |
| BasicTypes.Truncate | basic_types.py:112-114 | `int()` rounds toward zero: the floor for non-negative input, the ceiling for negative input |
| BasicTypes.LocalPositionOf | basic_types.py:116-118 | measure plus local position is the position; the local part is in [0,1) for pos ≥ 0 and in (-1,0] otherwise |
| BasicTypes.PositionSplitUnique | basic_types.py:112-118 | for pos ≥ 0, the only split into an integer and a part in [0,1) is (measure, local_position) |
| BasicTypes.RoundHalfEven | basic_types.py:128-131 | `round()` gives the nearest integer, with ties going to the even one |
| BasicTypes.LimitedPrecision | basic_types.py:128-131 | the result is a multiple of 1/1000 within 1/2000 of the input |
| BasicTypes.LimitedPrecisionKeepsMilliseconds | basic_types.py:128-131 | a time already in whole milliseconds is unchanged |
| BasicTypes.OrderedSet | basic_types.py:204-205 | the result has no duplicates, has the same elements as the input, and is no longer than it |
| BasicTypes.OrderedSetFirstOccurrenceOrder | basic_types.py:204-205 | elements come out in the order of their first occurrence |
| BasicTypes.OrderedSetOfDistinct | basic_types.py:204-205 | a duplicate-free input is returned unchanged |
| BasicTypes.OrderedSetIdempotent | basic_types.py:204-205 | applying it twice is applying it once |
| Rows.JudgeImportantObjects | rows.py:11-20 | the important set is {TAP, HOLD_START, ROLL_START, LIFT}, and the non-decorative set is the seven non-decorative objects |
| Rows.OnlyFromLanewise | rows.py:41-55 | the `not {*row} - allowed` test holds exactly when every lane's object is allowed |
| Rows.IsEmptyLanewise | rows.py:41-43 | `is_empty` holds exactly when every lane is EMPTY_LANE |
| Rows.RowPredicateChain | rows.py:13-18 | is_empty ⇒ is_decorative ⇒ is_judge_non_important, and is_empty ⇒ is_pure_hold_roll_body |
| Rows.ComplementSets | rows.py:45-51 | judge-non-important means no important object; decorative means no non-decorative object |
| Rows.FromStrRow | rows.py:159-164 | succeeds exactly when every character is a note character, and keeps the length |
| Rows.StrRow | rows.py:166-171 | one character per lane |
| Rows.FromStrRowOfStrRow | rows.py:159-171 | parsing the string of a row gives the row back |
| Rows.StrRowOfFromStrRow | rows.py:159-171 | a parsed string prints back to itself; a failed parse has a character outside the set |
| Rows.Mirror | rows.py:185-187 | the length is kept |
| Rows.MirrorReverses | rows.py:185-187 | lane i of the mirror is lane n-1-i of the row |
| Rows.MirrorInvolution | rows.py:58-59 | mirroring twice gives the row back |
| Rows.MirrorKeepsObjects | rows.py:41-59 | the mirror has the same objects and the same predicates |
| Rows.SwitchLanes | rows.py:73-77 | succeeds exactly when every mapped index is in Python range; keeps the length |
| Rows.SwitchLanesEmptyMap | rows.py:73-77 | the empty map is the identity |
| Rows.SwitchLanesMirror | rows.py:73-77 | the map i ↦ n-1-i is the mirror |
| Rows.SwitchLanesInvolution | rows.py:73-77 | a lane map that is its own inverse, applied twice, gives the row back |
| Rows.FindObjectLanesCount | rows.py:79-84 | the lanes found are exactly those holding the object, as many as its occurrences |
| Rows.FindObjectLanesSnoc | rows.py:79-84 | appending a lane adds it to the found set exactly when it holds the object |
| Rows.ReplaceObjects | rows.py:86-94 | the length is kept |
| Rows.ReplaceObjectsLanes | rows.py:86-94 | selected lanes become `to_note`, and every other object keeps its lanes |
| Rows.ReplaceObjectsIdempotent | rows.py:86-94 | replacing twice is replacing once |
| Rows.ReplaceOneIsSingleton | rows.py:86-88 | a single object is treated as its singleton set |
| Rows.PermutationsRearrange | rows.py:61-66 | every element of `permutations` is a rearrangement of its input |
| Rows.PermutationsStartWithInput | rows.py:61-66 | the first permutation is the input itself |
| Rows.PermutationsComplete | rows.py:61-66 | every rearrangement of the input occurs |
| Rows.PermutativeGroup | rows.py:61-66 | the group has no duplicates |
| Rows.PermutativeGroupProperties | rows.py:61-66 | the row is the first element, every element is a permutation of it, and every permutation of it is present |
| Rows.LocalToGlobal | rows.py:202-203 | the row is kept, and the position is moved by the global measure |
| Rows.GlobalToTimed | rows.py:220-221 | row and position are kept, and the given time is attached |
| Rows.TimedToDelta | rows.py:231-232 | row, position and time are kept, and time plus delta is the next row's time |
| Rows.PyMod | rows.py:134-135 | Python `%` on fractions: the result has the sign of the divisor and is smaller than it in magnitude |
| Rows.Localize | rows.py:134-135 | the local position is in [0,1) and differs from pos/window by an integer |
| Rows.LocalToGlobalSplits | rows.py:202-203 | a local row placed in measure m splits back into m and its local position |
| Rows.SnapValue | rows.py:247-259 | 1, 2, 4 ↦ 4; 3 ↦ 12; the listed snaps map to themselves; anything else ↦ 192 |
| Rows.SnapValueRefinesDenominator | rows.py:247-259 | for every listed denominator, the snap value is a multiple of it |
| Rows.SnapValueAsWrittenDiffers | rows.py:247-259 | as written, 8 and 3 give 192 (intended: 8 and 12), and 1, 2, 4 agree |
| Rows.SnapValueAsWritten | rows.py:247-259 | as written, the value is 4 or 192, and it agrees with the intended table exactly on the denominators that are not compared with `is` |
| Rows.OneSidedPairBySlices | rows.py:314-315 | for two equal objects, the `row[:2]`/`mirror[:2]` test means they occupy lanes {0,1} or {2,3} |
| Rows.FlagBitIsShift | rows.py:267-280 | each flag's bit is `1 << k`, with `k` its place in the declaration |
| Rows.FlagsValueOfOne | rows.py:267-280 | a single flag's `IntFlag` value is its bit |
| Rows.FlagsValueUnion | rows.py:267-280 | disjoint flag sets combine by adding their values |
| Rows.FlagsValueInjective | rows.py:267-280 | two flag sets have the same `IntFlag` value exactly when they are the same set |
| Rows.ClassifyTaps | rows.py:311-325 | the tap flags given are exactly those the tap count and sides deserve |
| Rows.ClassifyLongNotes | rows.py:327-353 | one head gives HOLD/ROLL; two give the one-sided or two-sided flag by their lanes; three or more give two-sided |
| Rows.ClassifyRow | rows.py:293-358 | fails exactly for rows that do not have 4 lanes; otherwise returns exactly the deserved flags, with none for an all-empty row |
| Rows.EmptyRowHasNoFlags | rows.py:298-299 | an all-empty 4-lane row deserves no flag |
| Rows.SectionsClassify | rows.py:305-358 | the union of the tap, hold, roll and release sections is the row's classification |
| ComplexTypes.Split | complex_types.py:19 | `split` always yields at least one piece |
| ComplexTypes.SplitAppend | complex_types.py:19 | splitting x + '=' + y is splitting x, then y |
| ComplexTypes.SplitNoSeparator | complex_types.py:19 | text without '=' is one piece |
| ComplexTypes.SplitPiecesHaveNoSeparator | complex_types.py:19 | no piece contains the separator |
| ComplexTypes.SplitCount | complex_types.py:19 | there is one more piece than there are separators |
| ComplexTypes.JoinSplit | complex_types.py:19 | joining the pieces with '=' gives the text back |
| ComplexTypes.SplitAtFirst | complex_types.py:19 | the first piece runs up to the first separator, and the rest is the split of what follows |
| ComplexTypes.FirstTwo | complex_types.py:19 | `[:2]` keeps one or two pieces, and two exactly when the entry has '=' |
| ComplexTypes.ParseUnsigned | complex_types.py:24 | a parsed unsigned decimal is non-negative |
| ComplexTypes.ParseDecimal | complex_types.py:24 | a leading '-' parses exactly when the rest does, and negates it |
| ComplexTypes.ParseNatText | complex_types.py:24 | decimal digits text, with or without '-', parses to its value |
| ComplexTypes.ParseMeasureValuePair | complex_types.py:16-26 | no '=' is an arity error; otherwise it succeeds exactly when the beat parses; measure = beat/4, and the value is kept as raw text |
| ComplexTypes.ParseMeasureMeasurePair | complex_types.py:35-45 | the beat is parsed first, then the arity is checked; the result is both halves converted to measures (÷4) |
| ComplexTypes.ParseMeasureBPMPair | complex_types.py:54-64 | no '=' is an arity error; success exactly when both halves parse; measure = beat/4, and the BPM is kept |
| ComplexTypes.ParseAllFromProperties | complex_types.py:23-26 | the list succeeds exactly when every entry does, in order and with the same length; otherwise it fails with the first failing entry's error |
| ComplexTypes.MeasureValuePairs | complex_types.py:16-26 | the result is entry by entry, or fails with the first failing entry's error |
| ComplexTypes.MeasureMeasurePairs | complex_types.py:35-45 | the result is entry by entry, or fails with the first failing entry's error |
| ComplexTypes.MeasureBPMPairs | complex_types.py:54-64 | the result is entry by entry, or fails with the first failing entry's error |
| ComplexTypes.EntryPieces | complex_types.py:19 | `beat=value` splits into exactly [beat, value] |
| ComplexTypes.ExtraSegmentsIgnored | complex_types.py:19 | extra `=...` segments do not change any of the three pair parsers |
| ComplexTypes.BPMEntryExample | complex_types.py:54-64 | `b=v` in digits parses to (b/4, v) |
| ChartTiming.AdvanceBpmsUnfold | simfile_parser.py:54-64 | passing a BPM change before the row adds the time at the old BPM, and moves last_measure to the change |
| ChartTiming.FailurePersists | simfile_parser.py:49-80 | once the sweep has raised, it stays failed with the same error |
| ChartTiming.SweepPrefixStep | simfile_parser.py:49-80 | timing one more row extends the emitted rows by that row |
| ChartTiming.RowFails | simfile_parser.py:49-80 | a row whose step raises makes the whole sweep raise |
| ChartTiming.TimeRow | simfile_parser.py:50-80 | the two inner while loops compute exactly one step of the specification sweep |
| ChartTiming.TimedNoteFieldBySweep | simfile_parser.py:38-49 | the timed note field is the sweep's output over the sorted rows from the first sorted BPM, or the sweep's error |
| ChartTiming.TimeRows | simfile_parser.py:48-80 | the outer `while note_field_deque` loop yields the sweep's output over all the rows, or fails with the error of the first row that fails |
| ChartTiming.AugmentNoteField | simfile_parser.py:38-80 | the deque sweep computes exactly `TimedNoteField` |
| TimingProperties.AdvanceBpmsKeepsTarget | simfile_parser.py:54-64 | the loop invariant last_measure + delta_measure stays equal to its value on entry |
| TimingProperties.StepRowShape | simfile_parser.py:50-80 | after a row, last_measure is its position, and the emitted row keeps its objects and position |
| TimingProperties.SweepPrefixShape | simfile_parser.py:49-80 | the emitted rows without times are the input rows, in order |
| TimingProperties.TimedNoteFieldShape | simfile_parser.py:38-80 | the output is the input sorted by position: same length, same rows, ascending positions |
| TimingProperties.SweepFailsOnlyOnZeroBpm | simfile_parser.py:49-80 | the sweep can fail only through a zero BPM |
| TimingProperties.AdvanceFailsOnlyOnZeroBpm | simfile_parser.py:54-64 | the BPM loop can fail only through a zero BPM |
| TimingProperties.AdvanceNonzero | simfile_parser.py:54-64 | with no zero BPM, the BPM loop succeeds and keeps that property |
| TimingProperties.SweepNonzero | simfile_parser.py:49-80 | with no zero BPM, the whole sweep succeeds |
| TimingProperties.TimedNoteFieldNeedsBpm | simfile_parser.py:39-44 | fails for want of a BPM exactly when there are no BPM segments (`popleft` on an empty deque) |
| TimingProperties.TimedNoteFieldFailsOnZeroBpm | simfile_parser.py:38-80 | any failure means there is no BPM segment or some segment of BPM zero |
| TimingProperties.TimedNoteFieldEmpty | simfile_parser.py:39-49 | with some BPM segment, a chart without rows is timed to a chart without rows |
| TimingProperties.StopsBelowPermutation | simfile_parser.py:68-73 | the stop time counted below a bound does not depend on the order of the stops |
| TimingProperties.ConsumeStopsSuffix | simfile_parser.py:68-73 | the stop loop consumes exactly the stops before the bound, adding each one's time once |
| TimingProperties.SingleBpmSweep | simfile_parser.py:49-80 | with one BPM, each row's time is its stretch time plus the stops before it, minus the offset |
| TimingProperties.SingleBpmSorted | simfile_parser.py:48-80 | with one non-zero BPM, the sweep over sorted rows and sorted stops succeeds, keeps the rows and times each one as the stretch at that BPM plus the pause of every stop before it |
| TimingProperties.StopsReordered | simfile_parser.py:39-40 | that closed form holds for the stops in their given order as well as sorted |
| TimingProperties.SingleBpmTimes | simfile_parser.py:38-80 | with one non-zero BPM, the sweep succeeds and each row's time counts every earlier stop exactly once |
| TimingProperties.SingleBpmNoStops | simfile_parser.py:59-79 | with one BPM b and no stops, a row at p gets time p·240/b − offset |
| TimingProperties.StepRowForward | simfile_parser.py:50-80 | for positive BPMs and non-negative stops, elapsed time never decreases |
| TimingProperties.SweepForward | simfile_parser.py:49-80 | for sorted rows, the emitted times never decrease |
| TimingProperties.MonotoneTimes | simfile_parser.py:38-80 | for positive BPMs and non-negative positions, beats and stops, the sweep succeeds and its times are non-decreasing |
| SimfileParser.FirstSlashes | simfile_parser.py:239-242 | the index found is the first `//` |
| SimfileParser.StripFrom | simfile_parser.py:239-242 | from index `i` on, the text is left alone or cut at a `//` at or after `i` from which `.*$` matches, keeping a final newline |
| SimfileParser.StripComment | simfile_parser.py:239-242 | a line is left alone or cut at a `//` from which `.*$` matches, keeping a final newline |
| SimfileParser.StripCommentNoComment | simfile_parser.py:239-242 | a line without `//` is unchanged |
| SimfileParser.StripCommentLine | simfile_parser.py:239-242 | a line loses everything from its first `//` up to, but not including, its final newline, and no `//` is left |
| SimfileParser.StripCommentsLeavesNoComment | simfile_parser.py:239-244 | the joined stripped lines contain no `//` |
| SimfileParser.RowFromTokens | simfile_parser.py:126-128 | the joined tokens become a row exactly when they are note characters, and the row prints back to them |
| SimfileParser.Measure | simfile_parser.py:130-135 | row k of n sits at local position k/n and keeps its objects |
| SimfileParser.MeasurePositions | simfile_parser.py:130-135 | the local positions lie in [0,1) and strictly increase |
| SimfileParser.Place | simfile_parser.py:137-143 | every row of measure i is moved by i |
| SimfileParser.Measures | simfile_parser.py:137-143 | the output count is the sum of the rows over all measures |
| SimfileParser.MeasuresIndex | simfile_parser.py:137-143 | row k of measure i is output at the total of the earlier measures plus k, moved by i |
| SimfileParser.EmptyMeasure | simfile_parser.py:137-143 | an empty measure contributes nothing |
| SimfileParser.MeasuresIncreasing | simfile_parser.py:137-143 | positions strictly increase and lie in [0, number of measures) |
| SimfileParser.MeasureAll | simfile_parser.py:130-143 | every measure of the grid is laid out by `measure` |
| SimfileParser.NoteGridIncreasing | simfile_parser.py:130-143 | a note grid's global positions strictly increase |
| SimfileParser.NoteGridPosition | simfile_parser.py:130-143 | row k of n in measure i keeps its objects and gets position i + k/n |
| SimfileParser.ExtractAll | simfile_parser.py:122-124 | every token's first child, in order, or the first exception |
| SimfileParser.NotesFiveFields | simfile_parser.py:145-150 | with five tokens the chart is the first three headers and `tokens[4]` |
| SimfileParser.NotesFourFields | simfile_parser.py:145-150 | with four tokens, the step artist is '' and the rest shift left |
| SimfileParser.Notes | simfile_parser.py:145-150 | a chart needs at least four tokens, and its note field is token 3 or token 4 |
| SimfileParser.AsTime | simfile_parser.py:160-163 | `Time(...)` of a number is that number; of `None`, it raises |
| SimfileParser.FoldStep | simfile_parser.py:156-172 | one loop pass never drops an attribute |
| SimfileParser.FoldPrefix | simfile_parser.py:152-174 | the default attributes are always present |
| SimfileParser.FoldFailurePersists | simfile_parser.py:152-174 | once the fold has raised, it stays failed with the same error |
| SimfileParser.NewChart | simfile_parser.py:159-164 | a chart token becomes a chart with its header fields and with its rows timed at the converted offset; an offset that does not convert, or a failing sweep, raises |
| SimfileParser.FoldToken | simfile_parser.py:156-172 | one pass of the loop computes exactly `FoldStep` |
| SimfileParser.AssembleSimfile | simfile_parser.py:152-174 | the `for token in tokens` loop computes exactly `Fold` |
| SimfileParser.Fold | simfile_parser.py:152-174 | the simfile returned still has every attribute of `Simfile()` |
| SimfileParser.FoldLists | simfile_parser.py:165-168 | BPMS and STOPS accumulate in file order, and there is one chart per chart token |
| SimfileParser.FoldFieldAt | simfile_parser.py:165-172 | one attribute after n tokens: present exactly when written or defaulted, holding the last value written, else its default |
| SimfileParser.FoldFields | simfile_parser.py:152-174 | each scalar attribute is the last value written to it, else its `Simfile()` default |
| SimfileParser.ChartsOnlyGrow | simfile_parser.py:159-164 | charts are only ever appended: an earlier chart list is a prefix of a later one |
| SimfileParser.ChartSnapshot | simfile_parser.py:159-164 | each chart is timed with the BPMs, stops and offset read before it |
| SimfileParser.InertTokenSkipped | simfile_parser.py:156-166 | falsy tokens and childless trees change nothing |
| SimfileParser.FoldWithoutChartsSucceeds | simfile_parser.py:152-174 | without charts and without writes to file properties, the fold cannot fail |
| ChartAnalysis.NonEmptyRows | chart_analysis.py:14-18 | no row of the result is empty, and it is no longer than the input |
| ChartAnalysis.NonEmptyRowsExactly | chart_analysis.py:14-18 | the result is a subsequence of the input, keeping every non-empty row as often as it occurs and no empty row |
| ChartAnalysis.NonEmptyRowsIdempotent | chart_analysis.py:10-20 | filtering twice is filtering once |
| ChartAnalysis.FilterOutEmptyRows | chart_analysis.py:10-20 | the header is kept, and the note field is a subsequence with no empty row |
| ChartAnalysis.ActiveAfterNext | chart_analysis.py:30-34 | one more row: a lane is active when it was active or starts there, and it does not end there |
| ChartAnalysis.ActiveAfterStarted | chart_analysis.py:30-34 | an active lane was started by some row and not ended since |
| ChartAnalysis.StartedActive | chart_analysis.py:30-34 | a lane started by some row and not ended since is active |
| ChartAnalysis.ActiveAfterExactly | chart_analysis.py:30-34 | a lane is active after n rows exactly when a row among them starts a long note there and no later one ends it |
| ChartAnalysis.MarkLanes | chart_analysis.py:36-41 | the rebuilt row has the original's length |
| ChartAnalysis.MarkedRow | chart_analysis.py:43-45 | each row keeps its position and time, because only `row` is evolved |
| ChartAnalysis.MakeHoldRollBodiesDistinct | chart_analysis.py:23-48 | the header and length are kept, and row k is the row marked with the lanes active after it |
| ChartAnalysis.EndSymbolKept | chart_analysis.py:31-41 | the end of a long note is left intact in its own row |
| ChartAnalysis.MarkedLane | chart_analysis.py:36-41 | an active-hold lane becomes HOLD_START, else an active-roll lane becomes ROLL_START, and other lanes are unchanged |
| AsWritten.ParseMeasureValuePairAsWritten | complex_types.py:23-26 | as written, every entry raises: the intended error, or a call of a non-callable after a good entry |
| AsWritten.ParseMeasureMeasurePairAsWritten | complex_types.py:37-45 | as written, the call raises exactly when the first beat parses |
| AsWritten.ParseMeasureBPMPairAsWritten | complex_types.py:61-64 | as written, every entry fails, and a good entry raises at the call |
| AsWritten.AsWrittenPairListsRaise | complex_types.py:16-64 | as written, every non-empty list raises at its first entry |
| AsWritten.AsWrittenBPMEntryRaises | complex_types.py:54-64 | a digit `b=v` entry, which the intended parser reads as (b/4, v), raises as written |
| AsWritten.MeasuresAsWritten | simfile_parser.py:137-143 | as written, it succeeds only without rows, and then agrees with the intended result |
| AsWritten.MeasuresAsWrittenRaises | simfile_parser.py:137-143 | any grid with a row raises as written, while the intended one places that row at i + k/n |
| AsWritten.TimedNoteFieldAsWritten | simfile_parser.py:38-80 | as written, the sweep succeeds only for an empty note field |
| AsWritten.TimedNoteFieldAsWrittenRaises | simfile_parser.py:38-80 | wherever the intended sweep times a row, the code as written raises at the missing constructor |
| AsWritten.MakeHoldRollBodiesDistinctAsWritten | chart_analysis.py:30-34 | as written, it succeeds only for a chart without rows |
| AsWritten.HoldEndLookupRaises | chart_analysis.py:30-41 | on a three-row hold, the intended scan marks the middle row and keeps the end, while the code as written raises |

## Left out

- File I/O is not modelled. This covers `parse`'s `readlines`, `open` and `chdir` (simfile_parser.py:229-253), and the `Simfile.*_file` properties that open files (simfile_parser.py:102-116). The model starts from the lines read. Only the fact that those properties cannot be assigned is kept, as `ReadOnlyAttribute`.
- The Lark grammar and parser are not modelled, because `sm_grammar.lark` is not part of this model (simfile_parser.py:218-226). This covers tokenizing, tag dispatch and the keyword set.
  - Tokens the grammar hands over are the datatypes `Token`, `NotesToken` and `Scalar`.
  - The trivial transformers `dontcare`, `true`, `false`, `phrase`, `float` and `int`, and the aliases at simfile_parser.py:212-215, are represented by `Scalar` values.
- `Fraction(str)` is modelled by `ParseDecimal`. It accepts an optional `+` or `-`, then `digits`, `digits.digits`, `digits.`, `.digits` or `digits/digits`. Python also accepts surrounding whitespace, an exponent (`1e3`), `_` between digits and non-ASCII decimal digits; the model rejects these as `MalformedNumber`. Python raises `ZeroDivisionError` for a zero denominator (`1/0`); the model reports that as `MalformedNumber` too.
- Python object machinery is not modelled, because it does not change the values computed. This covers:
  - `ensure_simple_return_type`;
  - `CheaperFraction.__new__` returning its argument;
  - the class mutation in `Invariant.__new__` and `Invariant.hash`;
  - `_typed_evolve` and `attrs.evolve`;
  - `lru_cache` and `permutative_set`.
- The defaults of `PureChart()` (simfile_parser.py:18-24) are not modelled, because `notes` always passes all four fields.
- `calculate_maximum_combinations` (rows.py:282-290) enumerates all 10⁴ rows, and calls a `from_row` that does not exist. It is not part of this model.
- The `print` in `classify_row` is not modelled.
- `row_invariant`, `time_invariant`, `position_invariant` and `delta_invariant`, `HasTime.from_two_rows`, `HasPosition.snap`/`Snap.from_row` and `PureRow.evolve`/`TimedRow.evolve` are one-line constructors. They are not modelled separately. The arithmetic of the Invariant values with other numbers is modelled in `BasicTypes.Apply`. A `float` is taken as the exact real it stands for; its rounding is not modelled.
- `basic_types.Snap.from_position` (basic_types.py:188-198) mutates enum internals and reads the nonexistent `_lookup`. It is not part of this model.
- Sharing and deep copies are not modelled:
  - `AugmentedChart` keeps `bpm_segments`/`stop_segments` lists shared with the `Simfile` under construction, so a later BPMS tag would also extend an earlier chart's lists. The model's chart stores only the timed note field and the offset taken when it was built.
  - `deepcopy` in chart_analysis.py is not modelled, because charts are values.
  - `__attrs_post_init__` clears and refills the note-field list it was given, which the parsed token also holds.
- `SimfileParser.Notes`: a header tree in the note-field slot fails at once with `NoteFieldNotAGrid`. Python would build a `PureChart` with a tree as its note field and fail later, when timing it.
- `SimfileParser.FoldStep`: tokens that name a list attribute in a scalar tag (`WellFormedTokens`) are excluded, since the grammar never produces them.
- `TimingProperties.SingleBpmTimes`: that each stop strictly before a row's position is added exactly once is proved in closed form only for a single BPM segment. For several segments, the model states the loop invariant (`AdvanceBpmsKeepsTarget`, `ConsumeStopsSuffix`) and monotonicity (`MonotoneTimes`), not a closed form.
- `ChartAnalysis.MakeHoldRollBodiesDistinct`: marks the body lanes of holds and rolls with HOLD_START/ROLL_START, as the code does. It does not use HOLD_BODY/ROLL_BODY.
- Integers and fractions are unbounded in Python, so no wrap-around is modelled.

## Findings

| source | as written | input that shows it | evidently intended | confidence | as-written member | corrected member |
|---|---|---|---|---|---|---|
| rows.py:247-259 | `self is 3`, `self is 8`, … compare a `Snap` instance by identity with int literals, which is never true | `Snap(8).snap_value` gives 192 | `==`: 8 ↦ 8, 3 ↦ 12, and so on | not executed | Rows.SnapValueAsWrittenDiffers | Rows.SnapValueRefinesDenominator |
| complex_types.py:24, 38, 62 | `Beat(beat).as_measure()` calls the `Measure` that the property returns; `map(Beat.as_measure, …)` calls the property object | the entry `4=120` raises `TypeError` | beat × 1/4 (basic_types.py:88-89) | not executed | AsWritten.AsWrittenBPMEntryRaises | ComplexTypes.BPMEntryExample |
| simfile_parser.py:140 | `GlobalRow.from_local_row` does not exist | a note grid with one row raises `AttributeError` | `LocalRow.evolve(Measure(i))` (rows.py:202-203) | not executed | AsWritten.MeasuresAsWrittenRaises | SimfileParser.NoteGridPosition |
| simfile_parser.py:78-80 | `GlobalTimedRow.from_global_row` does not exist | any chart with one row and BPM 120 raises `AttributeError` | `GlobalRow.evolve(time)` (rows.py:220-221) | not executed | AsWritten.TimedNoteFieldAsWrittenRaises | TimingProperties.SingleBpmTimes |
| chart_analysis.py:33-34 | `NoteObject.HOLD_END` and `NoteObject.ROLL_END` do not exist | the rows `2`, `0`, `3` raise `AttributeError` | `HOLD_ROLL_END` (basic_types.py:162) ends both | not executed | AsWritten.HoldEndLookupRaises | ChartAnalysis.ActiveAfterExactly |
