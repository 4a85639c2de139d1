/**
 * The parts of `simfile_parser.py` that are not the Lark grammar: the
 * per-line comment stripping in `parse`, the `ChartTransformer` callbacks
 * that build rows, measures, note fields and charts, the chart and simfile
 * defaults, and the `simfile` fold that assembles a `Simfile`.
 */
module SimfileParser {
  import opened Wrappers
  import opened Sequences
  import opened BasicTypes
  import opened Rows
  import opened ComplexTypes
  import opened ChartTiming

  // ---------------------------------------------------------------------------
  // Comment stripping: `sub(r'(//.*$)', '', line)` on every line
  // ---------------------------------------------------------------------------

  /** `//` starts at index `i`. */
  predicate SlashesAt(s: string, i: int) {
    0 <= i && i + 1 < |s| && s[i] == '/' && s[i + 1] == '/'
  }

  predicate HasComment(s: string) {
    exists i :: 0 <= i < |s| && SlashesAt(s, i)
  }

  /** A line as `readlines` yields it: a newline, if any, only at the end. */
  predicate IsLine(s: string) {
    forall k :: 0 <= k < |s| - 1 ==> s[k] != '\n'
  }

  /**
   * `.*$` can match from `from` on: `.` stops at a newline and `$` (without
   * MULTILINE) matches only at the end or just before a final newline.
   */
  predicate RunsToEnd(s: string, from: nat) {
    forall k :: from <= k < |s| - 1 ==> s[k] != '\n'
  }

  /** What the match leaves of the end of the text: the final newline, if there is one. */
  function FinalNewline(s: string): string {
    if s != [] && s[|s| - 1] == '\n' then "\n" else ""
  }

  /**
   * `re.sub` tries the positions from left to right; the first `//` from
   * which `.*$` matches is removed up to the end of the text, keeping a
   * final newline, and nothing after it can match again.
   */
  function StripFrom(s: string, i: nat): (r: string)
    ensures r == s || exists j :: i <= j && SlashesAt(s, j) && RunsToEnd(s, j + 2) && r == s[..j] + FinalNewline(s)
    decreases |s| - i
  {
    if i + 1 >= |s| then s
    else if SlashesAt(s, i) && RunsToEnd(s, i + 2) then s[..i] + FinalNewline(s)
    else StripFrom(s, i + 1)
  }

  /**
   * One line with its comment removed: either the line itself, or the line
   * cut at a `//` from which the rest matches `.*$`, keeping a final newline.
   */
  function StripComment(line: string): (r: string)
    ensures r == line ||
      exists j :: 0 <= j && SlashesAt(line, j) && RunsToEnd(line, j + 2) && r == line[..j] + FinalNewline(line)
  {
    StripFrom(line, 0)
  }

  /** Index of the first `//`. */
  function FirstSlashes(s: string): (i: nat)
    requires HasComment(s)
    ensures SlashesAt(s, i) && forall j :: 0 <= j < i ==> !SlashesAt(s, j)
  {
    var i :| 0 <= i < |s| && SlashesAt(s, i);
    LeastSlashes(s, i)
  }

  function LeastSlashes(s: string, i: nat): (j: nat)
    requires SlashesAt(s, i)
    ensures j <= i && SlashesAt(s, j) && forall k :: 0 <= k < j ==> !SlashesAt(s, k)
  {
    if forall k :: 0 <= k < i ==> !SlashesAt(s, k) then i
    else
      var k :| 0 <= k < i && SlashesAt(s, k);
      LeastSlashes(s, k)
  }

  lemma {:induction false} StripFromNoComment(s: string, i: nat)
    requires forall j :: i <= j ==> !SlashesAt(s, j)
    ensures StripFrom(s, i) == s
    decreases |s| - i
  {
    if i + 1 < |s| {
      StripFromNoComment(s, i + 1);
    }
  }

  /** A line without `//` is left as it is. */
  lemma StripCommentNoComment(s: string)
    requires !HasComment(s)
    ensures StripComment(s) == s
  {
    StripFromNoComment(s, 0);
  }

  lemma {:induction false} StripFromLine(s: string, i: nat)
    requires IsLine(s) && HasComment(s) && i <= FirstSlashes(s)
    ensures StripFrom(s, i) == s[..FirstSlashes(s)] + FinalNewline(s)
    decreases |s| - i
  {
    if i < FirstSlashes(s) {
      StripFromLine(s, i + 1);
    }
  }

  /**
   * A line loses everything from its first `//` up to, but not including,
   * its final newline; what is left holds no `//`.
   */
  lemma StripCommentLine(s: string)
    requires IsLine(s)
    ensures HasComment(s) ==> StripComment(s) == s[..FirstSlashes(s)] + FinalNewline(s)
    ensures !HasComment(StripComment(s))
    ensures IsLine(StripComment(s)) && FinalNewline(StripComment(s)) == FinalNewline(s)
  {
    if HasComment(s) {
      StripFromLine(s, 0);
      var i := FirstSlashes(s);
      var r := StripComment(s);
      forall j | 0 <= j < |r| - 1 ensures !SlashesAt(r, j) {
        if j + 1 < i {
          assert r[j] == s[j] && r[j + 1] == s[j + 1];
          assert !SlashesAt(s, j);
        } else {
          assert r[j + 1] == '\n';
        }
      }
    } else {
      StripCommentNoComment(s);
    }
  }

  /** `''.join(strings)`. */
  function Concat(strings: seq<string>): (s: string)
    ensures strings == [] ==> s == ""
  {
    if strings == [] then "" else Concat(strings[..|strings| - 1]) + strings[|strings| - 1]
  }

  /** The text handed to the grammar: every line stripped, then joined. */
  function StripComments(lines: seq<string>): string {
    if lines == [] then "" else StripComment(lines[0]) + StripComments(lines[1..])
  }

  /** What `readlines` returns: lines, each but the last ending in a newline. */
  predicate ReadLines(lines: seq<string>) {
    forall k :: 0 <= k < |lines| ==> IsLine(lines[k]) && (k < |lines| - 1 ==> FinalNewline(lines[k]) == "\n")
  }

  /** Text ending in a newline cannot form `//` with what follows. */
  lemma NoCommentAcrossNewline(a: string, b: string)
    requires !HasComment(a) && !HasComment(b) && FinalNewline(a) == "\n"
    ensures !HasComment(a + b)
  {
    var ab := a + b;
    forall j | 0 <= j < |ab| - 1 ensures !SlashesAt(ab, j) {
      if j + 1 < |a| {
        assert ab[j] == a[j] && ab[j + 1] == a[j + 1];
        assert !SlashesAt(a, j);
      } else if j >= |a| {
        assert ab[j] == b[j - |a|] && ab[j + 1] == b[j + 1 - |a|];
        assert !SlashesAt(b, j - |a|);
      } else {
        assert ab[j] == a[|a| - 1] == '\n';
      }
    }
  }

  /** After stripping, the text of a whole file holds no `//`. */
  lemma {:induction false} StripCommentsLeavesNoComment(lines: seq<string>)
    requires ReadLines(lines)
    ensures !HasComment(StripComments(lines))
  {
    if lines != [] {
      assert ReadLines(lines[1..]) by {
        forall k | 0 <= k < |lines| - 1 ensures lines[1..][k] == lines[k + 1] { }
      }
      StripCommentsLeavesNoComment(lines[1..]);
      StripCommentLine(lines[0]);
      if |lines| > 1 {
        NoCommentAcrossNewline(StripComment(lines[0]), StripComments(lines[1..]));
      } else {
        assert lines[1..] == [];
        assert StripComments(lines) == StripComment(lines[0]) + "";
        assert StripComment(lines[0]) + "" == StripComment(lines[0]);
      }
    }
  }

  // ---------------------------------------------------------------------------
  // Rows and measures
  // ---------------------------------------------------------------------------

  /**
   * `ChartTransformer.row`: the row's characters joined and decoded; it
   * fails exactly when a character is not a note object's.
   */
  function RowFromTokens(tokens: seq<string>): (r: Option<Row>)
    ensures r.Some? <==> NoteText(Concat(tokens))
    ensures r.Some? ==> StrRow(r.value) == Concat(tokens)
  {
    StrRowOfFromStrRow(Concat(tokens));
    FromStrRow(Concat(tokens))
  }

  /** Every character is a note object's. */
  predicate NoteText(s: string) {
    forall i :: 0 <= i < |s| ==> s[i] in NoteCharacters
  }

  /** `ChartTransformer.measure`: row `k` of `n` sits at local position `k/n`. */
  function Measure(rows: seq<Row>): (m: seq<LocalRow>)
    ensures |m| == |rows|
    ensures forall k :: 0 <= k < |m| ==> m[k].row == rows[k] && m[k].pos == k as real / |rows| as real
  {
    seq(|rows|, k requires 0 <= k < |rows| => LocalRow(rows[k], k as real / |rows| as real))
  }

  predicate StrictlyIncreasingLocal(m: seq<LocalRow>) {
    forall i, j :: 0 <= i < j < |m| ==> m[i].pos < m[j].pos
  }

  predicate WithinMeasure(m: seq<LocalRow>) {
    forall k :: 0 <= k < |m| ==> 0.0 <= m[k].pos < 1.0
  }

  lemma QuotientBounds(k: nat, n: nat)
    requires k < n
    ensures 0.0 <= k as real / n as real < 1.0
  {
  }

  lemma QuotientIncreasing(i: nat, j: nat, n: nat)
    requires i < j && n > 0
    ensures i as real / n as real < j as real / n as real
  {
    var d := j as real / n as real - i as real / n as real;
    assert d * n as real == (j - i) as real;
  }

  /** A measure's rows lie in [0, 1) and strictly increase. */
  lemma MeasurePositions(rows: seq<Row>)
    ensures WithinMeasure(Measure(rows)) && StrictlyIncreasingLocal(Measure(rows))
  {
    var m := Measure(rows);
    forall k | 0 <= k < |m| ensures 0.0 <= m[k].pos < 1.0 {
      QuotientBounds(k, |rows|);
    }
    forall i, j | 0 <= i < j < |m| ensures m[i].pos < m[j].pos {
      QuotientIncreasing(i, j, |rows|);
    }
  }

  /** The rows of measure number `index` at their global positions. */
  function Place(m: seq<LocalRow>, index: nat): (g: seq<GlobalRow>)
    ensures |g| == |m|
    ensures forall k :: 0 <= k < |m| ==> g[k] == LocalToGlobal(m[k], index as real)
  {
    seq(|m|, k requires 0 <= k < |m| => LocalToGlobal(m[k], index as real))
  }

  /** Number of rows over all measures. */
  function TotalRows(ms: seq<seq<LocalRow>>): nat {
    if ms == [] then 0 else TotalRows(ms[..|ms| - 1]) + |ms[|ms| - 1]|
  }

  /**
   * `ChartTransformer.measures`: the measures flattened in order, each row
   * moved by its measure's number (`LocalRow.evolve`, standing for the
   * nonexistent `GlobalRow.from_local_row`).
   */
  function Measures(ms: seq<seq<LocalRow>>): (g: seq<GlobalRow>)
    ensures |g| == TotalRows(ms)
  {
    if ms == [] then [] else Measures(ms[..|ms| - 1]) + Place(ms[|ms| - 1], |ms| - 1)
  }

  /** Row `k` of measure `i` is output row `TotalRows(ms[..i]) + k`, at position `i` plus its local one. */
  lemma {:induction false} MeasuresIndex(ms: seq<seq<LocalRow>>, i: nat, k: nat)
    requires i < |ms| && k < |ms[i]|
    ensures TotalRows(ms[..i]) + k < |Measures(ms)|
    ensures Measures(ms)[TotalRows(ms[..i]) + k] == LocalToGlobal(ms[i][k], i as real)
    decreases |ms|
  {
    var n := |ms| - 1;
    var init := ms[..n];
    assert ms[..|ms|] == ms;
    if i < n {
      assert init[..i] == ms[..i];
      assert init[i] == ms[i];
      MeasuresIndex(init, i, k);
      TotalRowsPrefix(ms, i, n);
    } else {
      assert ms[..i] == init;
    }
  }

  lemma {:induction false} TotalRowsPrefix(ms: seq<seq<LocalRow>>, i: nat, n: nat)
    requires i < n <= |ms|
    ensures TotalRows(ms[..i]) + |ms[i]| <= TotalRows(ms[..n])
    decreases n - i
  {
    assert ms[..n][..n - 1] == ms[..n - 1];
    if i < n - 1 {
      TotalRowsPrefix(ms, i, n - 1);
    } else {
      assert ms[..n][n - 1] == ms[i];
    }
  }

  /** An empty measure adds no rows, though the measures after it keep their numbers. */
  lemma EmptyMeasure(ms: seq<seq<LocalRow>>, i: nat)
    requires i < |ms| && ms[i] == []
    ensures Measures(ms[..i + 1]) == Measures(ms[..i])
  {
    assert ms[..i + 1][..i] == ms[..i];
  }

  predicate StrictlyIncreasing(g: seq<GlobalRow>) {
    forall i, j :: 0 <= i < j < |g| ==> g[i].pos < g[j].pos
  }

  /**
   * Measures whose rows lie in [0, 1) and increase give a note field whose
   * positions strictly increase, measure `i`'s rows lying in [i, i + 1).
   */
  lemma {:induction false} MeasuresIncreasing(ms: seq<seq<LocalRow>>)
    requires forall i :: 0 <= i < |ms| ==> WithinMeasure(ms[i]) && StrictlyIncreasingLocal(ms[i])
    ensures StrictlyIncreasing(Measures(ms))
    ensures forall k :: 0 <= k < |Measures(ms)| ==> 0.0 <= Measures(ms)[k].pos < |ms| as real
  {
    if ms != [] {
      var n := |ms| - 1;
      MeasuresIncreasing(ms[..n]);
      var a := Measures(ms[..n]);
      var b := Place(ms[n], n);
      var g: seq<GlobalRow> := a + b;
      assert Measures(ms) == g;
      assert WithinMeasure(ms[n]) && StrictlyIncreasingLocal(ms[n]);
      forall i, j | 0 <= i < j < |g| ensures g[i].pos < g[j].pos {
        if j < |a| {
          assert g[i] == a[i] && g[j] == a[j];
        } else if i >= |a| {
          assert g[i] == b[i - |a|] && g[j] == b[j - |a|];
        } else {
          assert g[i] == a[i] && g[j] == b[j - |a|];
        }
      }
    }
  }

  /** `measure` over each measure of a note grid. */
  function MeasureAll(grid: seq<seq<Row>>): (ms: seq<seq<LocalRow>>)
    ensures |ms| == |grid|
    ensures forall i :: 0 <= i < |grid| ==> ms[i] == Measure(grid[i])
  {
    seq(|grid|, i requires 0 <= i < |grid| => Measure(grid[i]))
  }

  /**
   * A note grid becomes a note field with strictly increasing positions,
   * row `k` of the `n` rows of measure `i` sitting at `i + k/n`.
   */
  lemma NoteGridIncreasing(grid: seq<seq<Row>>)
    ensures StrictlyIncreasing(Measures(MeasureAll(grid)))
  {
    var ms := MeasureAll(grid);
    forall j | 0 <= j < |ms| ensures WithinMeasure(ms[j]) && StrictlyIncreasingLocal(ms[j]) {
      MeasurePositions(grid[j]);
    }
    MeasuresIncreasing(ms);
  }

  /** Row `k` of the `n` rows of measure `i` of a note grid sits at `i + k/n`. */
  lemma NoteGridPosition(grid: seq<seq<Row>>, i: nat, k: nat)
    requires i < |grid| && k < |grid[i]|
    ensures TotalRows(MeasureAll(grid)[..i]) + k < |Measures(MeasureAll(grid))|
    ensures var g := Measures(MeasureAll(grid))[TotalRows(MeasureAll(grid)[..i]) + k];
      g.row == grid[i][k] && g.pos == i as real + k as real / |grid[i]| as real
  {
    var ms := MeasureAll(grid);
    MeasuresIndex(ms, i, k);
    var m := Measure(grid[i]);
    assert ms[i] == m;
    var g := LocalToGlobal(m[k], i as real);
    assert g.pos - i as real == m[k].pos;
  }

  // ---------------------------------------------------------------------------
  // Charts: `ChartTransformer.notes` and the `PureChart` defaults
  // ---------------------------------------------------------------------------

  /** A value the grammar's transformer hands over: text, a number, a boolean or `None`. */
  datatype Scalar = Text(text: string) | Number(number: real) | Flag(flag: bool) | Nothing

  /** A token of a NOTES tag: a header field (a tree of scalars) or the note field itself. */
  datatype NotesToken = Header(children: seq<Scalar>) | NoteGrid(rows: seq<GlobalRow>)

  /** The Python exceptions `notes` can meet. */
  datatype PyError = IndexError | AttributeError

  /** Why a chart cannot be built: an exception escapes, or the note-field slot holds a header. */
  datatype NotesError = Raised(error: PyError) | NoteFieldNotAGrid

  /** A chart without timing: step artist, difficulty name and value, and the note field. */
  datatype PureChart = PureChart(stepArtist: Scalar, diffName: Scalar, diffValue: Scalar, noteField: seq<GlobalRow>)

  /** `_extract_first`: `tree.children[0]`; a note field is a list, which has no `children`. */
  function ExtractFirst(t: NotesToken): Result<Scalar, PyError> {
    match t
    case Header(children) => if children == [] then Failure(IndexError) else Success(children[0])
    case NoteGrid(_) => Failure(AttributeError)
  }

  /** `*map(_extract_first, ts)`: every token in order, the first exception escaping. */
  function ExtractAll(ts: seq<NotesToken>): (r: Result<seq<Scalar>, PyError>)
    ensures r.Success? <==> forall k :: 0 <= k < |ts| ==> ExtractFirst(ts[k]).Success?
    ensures r.Success? ==> |r.value| == |ts| && forall k :: 0 <= k < |ts| ==> r.value[k] == ExtractFirst(ts[k]).value
    ensures r.Failure? ==>
      exists k :: 0 <= k < |ts| && ExtractFirst(ts[k]) == Failure(r.error) &&
        forall j :: 0 <= j < k ==> ExtractFirst(ts[j]).Success?
  {
    if ts == [] then Success([])
    else
      match ExtractFirst(ts[0])
      case Failure(e) => Failure(e)
      case Success(v) =>
        match ExtractAll(ts[1..])
        case Failure(e) =>
          var k :| 0 <= k < |ts[1..]| && ExtractFirst(ts[1..][k]) == Failure(e) &&
            forall j :: 0 <= j < k ==> ExtractFirst(ts[1..][j]).Success?;
          assert ExtractFirst(ts[k + 1]) == Failure(e);
          assert forall j :: 1 <= j < k + 1 ==> ts[j] == ts[1..][j - 1];
          Failure(e)
        case Success(vs) => Success([v] + vs)
  }

  /** `tokens[i]` in the note-field slot. */
  function NoteFieldAt(tokens: seq<NotesToken>, i: nat): Result<seq<GlobalRow>, NotesError> {
    if i >= |tokens| then Failure(Raised(IndexError))
    else if tokens[i].NoteGrid? then Success(tokens[i].rows)
    else Failure(NoteFieldNotAGrid)
  }

  function Prefix<T>(s: seq<T>, n: nat): seq<T> {
    if |s| <= n then s else s[..n]
  }

  /** The `except IndexError` branch: no step artist, and the note field in slot 3. */
  function NotesWithoutArtist(tokens: seq<NotesToken>): Result<PureChart, NotesError> {
    match ExtractAll(Prefix(tokens, 2))
    case Failure(e) => Failure(Raised(e))
    case Success(vs) =>
      match NoteFieldAt(tokens, 3)
      case Failure(e) => Failure(e)
      case Success(rows) => Success(PureChart(Text(""), vs[0], vs[1], rows))
  }

  /**
   * `ChartTransformer.notes`: step artist, difficulty name and value from
   * the first three tokens and the note field from the fifth; an
   * `IndexError` on the way falls back to no step artist.
   */
  function Notes(tokens: seq<NotesToken>): (r: Result<PureChart, NotesError>)
    ensures r.Success? ==> |tokens| >= 4
    ensures r.Success? ==>
      (tokens[3].NoteGrid? && r.value.noteField == tokens[3].rows) ||
      (|tokens| >= 5 && tokens[4].NoteGrid? && r.value.noteField == tokens[4].rows)
  {
    match ExtractAll(Prefix(tokens, 3))
    case Failure(AttributeError) => Failure(Raised(AttributeError))
    case Failure(IndexError) => NotesWithoutArtist(tokens)
    case Success(vs) =>
      if |tokens| < 5 then NotesWithoutArtist(tokens)
      else
        match NoteFieldAt(tokens, 4)
        case Failure(e) => Failure(e)
        case Success(rows) => Success(PureChart(vs[0], vs[1], vs[2], rows))
  }

  predicate FilledHeader(t: NotesToken) {
    t.Header? && t.children != []
  }

  /** Five header-and-grid tokens: artist, name and value from the first three, rows from the fifth. */
  lemma NotesFiveFields(tokens: seq<NotesToken>)
    requires |tokens| >= 5 && FilledHeader(tokens[0]) && FilledHeader(tokens[1]) && FilledHeader(tokens[2])
    requires tokens[4].NoteGrid?
    ensures Notes(tokens) == Success(PureChart(tokens[0].children[0], tokens[1].children[0],
                                               tokens[2].children[0], tokens[4].rows))
  {
    var vs := ExtractAll(Prefix(tokens, 3));
    assert forall k :: 0 <= k < 3 ==> Prefix(tokens, 3)[k] == tokens[k];
    assert vs.Success?;
  }

  /** Four tokens: the step artist is `''` and the rest shift left, the rows coming from the fourth. */
  lemma NotesFourFields(tokens: seq<NotesToken>)
    requires |tokens| == 4 && FilledHeader(tokens[0]) && FilledHeader(tokens[1]) && tokens[2].Header?
    requires tokens[3].NoteGrid?
    ensures Notes(tokens) == Success(PureChart(Text(""), tokens[0].children[0], tokens[1].children[0], tokens[3].rows))
  {
    assert forall k :: 0 <= k < 3 ==> Prefix(tokens, 3)[k] == tokens[k];
    assert forall k :: 0 <= k < 2 ==> Prefix(tokens, 2)[k] == tokens[k];
    assert ExtractAll(Prefix(tokens, 2)).Success?;
    assert ExtractAll(Prefix(tokens, 3)) != Failure(AttributeError);
  }

  // ---------------------------------------------------------------------------
  // The `simfile` fold
  // ---------------------------------------------------------------------------

  /**
   * A timed chart. Its `bpm_segments` and `stop_segments` are the very
   * lists of the simfile that holds it (the fold passes them without
   * copying and later extends them in place), so they are not stored here;
   * its `offset` is a copy taken when the chart was built.
   */
  datatype AugmentedChart = AugmentedChart(stepArtist: Scalar, diffName: Scalar, diffValue: Scalar,
                                           noteField: seq<GlobalTimedRow>, offset: real)

  /** A `Simfile`: its scalar attributes by name, the BPM and stop lists, and the charts. */
  datatype Simfile = Simfile(fields: map<string, Scalar>, bpmSegments: seq<MeasureBPMPair>,
                             stopSegments: seq<MeasureMeasurePair>, charts: seq<AugmentedChart>)

  /** The scalar attributes of `Simfile()` and their defaults. */
  const DefaultFields: map<string, Scalar> := map[
    "title" := Text(""), "subtitle" := Text(""), "artist" := Text(""), "genre" := Text(""),
    "credit" := Text(""), "music_path" := Nothing, "banner_path" := Nothing, "bg_path" := Nothing,
    "cdtitle_path" := Nothing, "sample_start" := Number(0.0), "sample_length" := Number(10.0),
    "display_bpm" := Text("*"), "offset" := Number(0.0)]

  const DefaultSimfile := Simfile(DefaultFields, [], [], [])

  /** The list attributes, which the grammar never names in a scalar tag. */
  const ListAttributes: set<string> := {"bpms", "stops", "bpm_segments", "stop_segments", "charts"}

  /** The file properties, which have no setter: `setattr` on them raises. */
  const ReadOnlyAttributes: set<string> := {"music_file", "banner_file", "bg_file", "cdtitle_file"}

  /**
   * A token of the simfile: a falsy value, a chart, a BPMS or STOPS tree
   * (whose first child is the parsed list), or another tag's tree.
   */
  datatype Token =
    | Falsy
    | ChartToken(chart: PureChart)
    | BpmsTree(bpmLists: seq<seq<MeasureBPMPair>>)
    | StopsTree(stopLists: seq<seq<MeasureMeasurePair>>)
    | TagTree(name: string, values: seq<Scalar>)

  predicate WellFormedToken(t: Token) {
    t.TagTree? ==> t.name !in ListAttributes
  }

  predicate WellFormedTokens(tokens: seq<Token>) {
    forall k :: 0 <= k < |tokens| ==> WellFormedToken(tokens[k])
  }

  /** `Time(x)`, that is `Fraction(x)`: numbers and booleans convert, text is parsed, `None` raises. */
  function AsTime(x: Scalar): (r: Option<real>)
    ensures x.Number? ==> r == Some(x.number)
    ensures x.Nothing? ==> r.None?
  {
    match x
    case Number(v) => Some(v)
    case Flag(b) => Some(if b then 1.0 else 0.0)
    case Text(t) => ParseDecimal(t)
    case Nothing => None
  }

  /** Why the fold raises. */
  datatype FoldError = BadOffset | ReadOnlyAttribute(name: string) | SweepFailed(error: SweepError)

  /** One pass of the `for token in tokens` loop. */
  function FoldStep(sf: Simfile, t: Token): (r: Result<Simfile, FoldError>)
    requires WellFormedToken(t) && "offset" in sf.fields
    ensures r.Success? ==> sf.fields.Keys <= r.value.fields.Keys
  {
    match t
    case Falsy => Success(sf)
    case ChartToken(c) =>
      (match AsTime(sf.fields["offset"])
       case None => Failure(BadOffset)
       case Some(offset) =>
         match TimedNoteField(c.noteField, sf.bpmSegments, sf.stopSegments, offset)
         case Failure(e) => Failure(SweepFailed(e))
         case Success(timed) =>
           Success(Simfile(sf.fields, sf.bpmSegments, sf.stopSegments,
                           sf.charts + [AugmentedChart(c.stepArtist, c.diffName, c.diffValue, timed, offset)])))
    case BpmsTree(lists) =>
      if lists == [] then Success(sf)
      else Success(Simfile(sf.fields, sf.bpmSegments + lists[0], sf.stopSegments, sf.charts))
    case StopsTree(lists) =>
      if lists == [] then Success(sf)
      else Success(Simfile(sf.fields, sf.bpmSegments, sf.stopSegments + lists[0], sf.charts))
    case TagTree(name, values) =>
      if values == [] then Success(sf)
      else if name in ReadOnlyAttributes then Failure(ReadOnlyAttribute(name))
      else Success(Simfile(sf.fields[name := values[0]], sf.bpmSegments, sf.stopSegments, sf.charts))
  }

  /** The simfile after the first `n` tokens; the default attributes never go away. */
  function FoldPrefix(tokens: seq<Token>, n: nat): (r: Result<Simfile, FoldError>)
    requires n <= |tokens| && WellFormedTokens(tokens)
    ensures r.Success? ==> DefaultFields.Keys <= r.value.fields.Keys
  {
    if n == 0 then Success(DefaultSimfile)
    else
      match FoldPrefix(tokens, n - 1)
      case Failure(e) => Failure(e)
      case Success(sf) => FoldStep(sf, tokens[n - 1])
  }

  /** The simfile `ChartTransformer.simfile` returns. */
  function Fold(tokens: seq<Token>): (r: Result<Simfile, FoldError>)
    requires WellFormedTokens(tokens)
    ensures r.Success? ==> DefaultFields.Keys <= r.value.fields.Keys
  {
    FoldPrefix(tokens, |tokens|)
  }

  lemma {:induction false} FoldFailurePersists(tokens: seq<Token>, n: nat, m: nat, e: FoldError)
    requires n <= m <= |tokens| && WellFormedTokens(tokens)
    requires FoldPrefix(tokens, n) == Failure(e)
    ensures FoldPrefix(tokens, m) == Failure(e)
    decreases m - n
  {
    if n < m {
      FoldFailurePersists(tokens, n + 1, m, e);
    }
  }

  /** The fold after one more token: one more pass of the loop. */
  lemma FoldPrefixNext(tokens: seq<Token>, i: nat, sf: Simfile)
    requires i < |tokens| && WellFormedTokens(tokens)
    requires FoldPrefix(tokens, i) == Success(sf)
    ensures "offset" in sf.fields
    ensures FoldPrefix(tokens, i + 1) == FoldStep(sf, tokens[i])
  {
  }

  /**
   * `AugmentedChart(**token.__dict__, bpm_segments=..., stop_segments=...,
   * offset=Time(result.offset))`: converts the offset, then times the
   * chart's rows with the segments read so far.
   */
  method NewChart(c: PureChart, offsetField: Scalar, bpms: seq<MeasureBPMPair>, stops: seq<MeasureMeasurePair>)
    returns (r: Result<AugmentedChart, FoldError>)
    ensures AsTime(offsetField).None? ==> r == Failure(BadOffset)
    ensures AsTime(offsetField).Some? ==>
      var timed := TimedNoteField(c.noteField, bpms, stops, AsTime(offsetField).value);
      (timed.Failure? ==> r == Failure(SweepFailed(timed.error))) &&
      (timed.Success? ==> r == Success(AugmentedChart(c.stepArtist, c.diffName, c.diffValue, timed.value,
                                                      AsTime(offsetField).value)))
  {
    var offset := AsTime(offsetField);
    if offset.None? {
      return Failure(BadOffset);
    }
    var timed := AugmentNoteField(c.noteField, bpms, stops, offset.value);
    if timed.Failure? {
      return Failure(SweepFailed(timed.error));
    }
    return Success(AugmentedChart(c.stepArtist, c.diffName, c.diffValue, timed.value, offset.value));
  }

  /** One pass of the `for token in tokens` loop of `ChartTransformer.simfile`. */
  method FoldToken(sf: Simfile, token: Token) returns (r: Result<Simfile, FoldError>)
    requires WellFormedToken(token) && "offset" in sf.fields
    ensures r == FoldStep(sf, token)
  {
    var fields, bpmSegments, stopSegments, charts := sf.fields, sf.bpmSegments, sf.stopSegments, sf.charts;
    if token.Falsy? {
    } else if token.ChartToken? {
      var newChart := NewChart(token.chart, fields["offset"], bpmSegments, stopSegments);
      if newChart.Failure? {
        return Failure(newChart.error);
      }
      charts := charts + [newChart.value];
    } else if token.BpmsTree? {
      if token.bpmLists != [] {
        bpmSegments := bpmSegments + token.bpmLists[0];
      }
    } else if token.StopsTree? {
      if token.stopLists != [] {
        stopSegments := stopSegments + token.stopLists[0];
      }
    } else if token.values != [] {
      if token.name in ReadOnlyAttributes {
        return Failure(ReadOnlyAttribute(token.name));
      }
      fields := fields[token.name := token.values[0]];
    }
    return Success(Simfile(fields, bpmSegments, stopSegments, charts));
  }

  /**
   * `ChartTransformer.simfile`: starts from `Simfile()` and folds the
   * tokens in order into it; the result is exactly `Fold`.
   */
  method AssembleSimfile(tokens: seq<Token>) returns (r: Result<Simfile, FoldError>)
    requires WellFormedTokens(tokens)
    ensures r == Fold(tokens)
  {
    var sf := DefaultSimfile;
    for i := 0 to |tokens|
      invariant FoldPrefix(tokens, i) == Success(sf)
    {
      FoldPrefixNext(tokens, i, sf);
      var next := FoldToken(sf, tokens[i]);
      if next.Failure? {
        FoldFailurePersists(tokens, i + 1, |tokens|, next.error);
        return next;
      }
      sf := next.value;
    }
    return Success(sf);
  }

  // ---------------------------------------------------------------------------
  // What the fold computes, stated independently of it
  // ---------------------------------------------------------------------------

  /** The first child of every BPMS tree that has one, concatenated in order. */
  function AllBpms(tokens: seq<Token>): seq<MeasureBPMPair> {
    if tokens == [] then []
    else
      var t := tokens[|tokens| - 1];
      AllBpms(tokens[..|tokens| - 1]) + (if t.BpmsTree? && t.bpmLists != [] then t.bpmLists[0] else [])
  }

  /** The first child of every STOPS tree that has one, concatenated in order. */
  function AllStops(tokens: seq<Token>): seq<MeasureMeasurePair> {
    if tokens == [] then []
    else
      var t := tokens[|tokens| - 1];
      AllStops(tokens[..|tokens| - 1]) + (if t.StopsTree? && t.stopLists != [] then t.stopLists[0] else [])
  }

  /** The value of the last tree for attribute `name` that has a child. */
  function LastWrite(tokens: seq<Token>, name: string): Option<Scalar> {
    if tokens == [] then None
    else
      var t := tokens[|tokens| - 1];
      if t.TagTree? && t.name == name && t.values != [] then Some(t.values[0])
      else LastWrite(tokens[..|tokens| - 1], name)
  }

  /** Attribute `name` after `tokens`: the last value written to it, else its default. */
  function FieldAfter(tokens: seq<Token>, name: string): Option<Scalar> {
    match LastWrite(tokens, name)
    case Some(v) => Some(v)
    case None => if name in DefaultFields then Some(DefaultFields[name]) else None
  }

  function ChartCount(tokens: seq<Token>): nat {
    if tokens == [] then 0
    else ChartCount(tokens[..|tokens| - 1]) + (if tokens[|tokens| - 1].ChartToken? then 1 else 0)
  }

  /**
   * After the first `n` tokens the BPM and stop lists are every tree's list
   * in order (they accumulate rather than overwrite), and there is one
   * chart per chart token.
   */
  lemma {:induction false} FoldLists(tokens: seq<Token>, n: nat)
    requires n <= |tokens| && WellFormedTokens(tokens)
    requires FoldPrefix(tokens, n).Success?
    ensures var sf := FoldPrefix(tokens, n).value;
      sf.bpmSegments == AllBpms(tokens[..n]) && sf.stopSegments == AllStops(tokens[..n]) &&
      |sf.charts| == ChartCount(tokens[..n])
  {
    if n > 0 {
      var sf0 := FoldPrefix(tokens, n - 1).value;
      FoldPrefixNext(tokens, n - 1, sf0);
      FoldLists(tokens, n - 1);
      var pre := tokens[..n - 1];
      var t := tokens[n - 1];
      assert tokens[..n][..n - 1] == pre;
      assert tokens[..n][n - 1] == t;
      assert AllBpms(tokens[..n]) == AllBpms(pre) + (if t.BpmsTree? && t.bpmLists != [] then t.bpmLists[0] else []);
      assert AllStops(tokens[..n]) == AllStops(pre) + (if t.StopsTree? && t.stopLists != [] then t.stopLists[0] else []);
      assert ChartCount(tokens[..n]) == ChartCount(pre) + (if t.ChartToken? then 1 else 0);
    }
  }

  /** One pass of the loop changes the attributes only by a tree with a child. */
  lemma FoldStepFields(sf: Simfile, t: Token)
    requires WellFormedToken(t) && "offset" in sf.fields
    requires FoldStep(sf, t).Success?
    ensures FoldStep(sf, t).value.fields ==
      if t.TagTree? && t.values != [] then sf.fields[t.name := t.values[0]] else sf.fields
  {
  }

  /** The last write after one more token. */
  lemma LastWriteNext(tokens: seq<Token>, n: nat, name: string)
    requires 0 < n <= |tokens|
    ensures var t := tokens[n - 1];
      LastWrite(tokens[..n], name) ==
        if t.TagTree? && t.name == name && t.values != [] then Some(t.values[0]) else LastWrite(tokens[..n - 1], name)
  {
    assert tokens[..n][..n - 1] == tokens[..n - 1];
  }

  /** After the first `n` tokens attribute `name` holds the last value written to it, or its default. */
  lemma {:induction false} FoldFieldAt(tokens: seq<Token>, n: nat, name: string)
    requires n <= |tokens| && WellFormedTokens(tokens)
    requires FoldPrefix(tokens, n).Success?
    ensures var sf := FoldPrefix(tokens, n).value;
      (name in sf.fields <==> FieldAfter(tokens[..n], name).Some?) &&
      (name in sf.fields ==> sf.fields[name] == FieldAfter(tokens[..n], name).value)
  {
    if n > 0 {
      var sf0 := FoldPrefix(tokens, n - 1).value;
      FoldPrefixNext(tokens, n - 1, sf0);
      FoldStepFields(sf0, tokens[n - 1]);
      LastWriteNext(tokens, n, name);
      FoldFieldAt(tokens, n - 1, name);
    }
  }

  /** After the first `n` tokens each attribute holds the last value written to it, or its default. */
  lemma FoldFields(tokens: seq<Token>, n: nat)
    requires n <= |tokens| && WellFormedTokens(tokens)
    requires FoldPrefix(tokens, n).Success?
    ensures var sf := FoldPrefix(tokens, n).value;
      forall name :: (name in sf.fields <==> FieldAfter(tokens[..n], name).Some?) &&
        (name in sf.fields ==> sf.fields[name] == FieldAfter(tokens[..n], name).value)
  {
    forall name
      ensures var sf := FoldPrefix(tokens, n).value;
        (name in sf.fields <==> FieldAfter(tokens[..n], name).Some?) &&
        (name in sf.fields ==> sf.fields[name] == FieldAfter(tokens[..n], name).value)
    {
      FoldFieldAt(tokens, n, name);
    }
  }

  /** Charts are only ever appended: an earlier simfile's charts begin the later one's. */
  lemma {:induction false} ChartsOnlyGrow(tokens: seq<Token>, n: nat, m: nat)
    requires n <= m <= |tokens| && WellFormedTokens(tokens)
    requires FoldPrefix(tokens, m).Success?
    ensures FoldPrefix(tokens, n).Success?
    ensures var early := FoldPrefix(tokens, n).value.charts;
      var late := FoldPrefix(tokens, m).value.charts;
      |early| <= |late| && late[..|early|] == early
    decreases m - n
  {
    if n < m {
      ChartsOnlyGrow(tokens, n + 1, m);
      var late := FoldPrefix(tokens, m).value.charts;
      var mid := FoldPrefix(tokens, n + 1).value.charts;
      var early := FoldPrefix(tokens, n).value.charts;
      assert mid[..|early|] == early;
      assert late[..|mid|][..|early|] == late[..|early|];
    } else {
      var late := FoldPrefix(tokens, m).value.charts;
      assert late[..|late|] == late;
    }
  }

  /**
   * Chart token `i` becomes chart number `ChartCount(tokens[..i])`: its
   * header fields, and its rows timed with the offset and with the BPMs
   * and stops of the tokens before it.
   */
  lemma ChartSnapshot(tokens: seq<Token>, i: nat)
    requires i < |tokens| && WellFormedTokens(tokens) && tokens[i].ChartToken?
    requires Fold(tokens).Success?
    ensures var before := tokens[..i];
      var c := tokens[i].chart;
      var offset := AsTime(FieldAfter(before, "offset").value);
      offset.Some? && TimedNoteField(c.noteField, AllBpms(before), AllStops(before), offset.value).Success? &&
      ChartCount(before) < |Fold(tokens).value.charts| &&
      Fold(tokens).value.charts[ChartCount(before)] ==
        AugmentedChart(c.stepArtist, c.diffName, c.diffValue,
                       TimedNoteField(c.noteField, AllBpms(before), AllStops(before), offset.value).value,
                       offset.value)
  {
    ChartsOnlyGrow(tokens, i + 1, |tokens|);
    ChartsOnlyGrow(tokens, i, i + 1);
    var sf := FoldPrefix(tokens, i).value;
    FoldPrefixNext(tokens, i, sf);
    FoldLists(tokens, i);
    FoldFieldAt(tokens, i, "offset");
    assert sf.fields["offset"] == FieldAfter(tokens[..i], "offset").value;
    var late := Fold(tokens).value.charts;
    var mid := FoldPrefix(tokens, i + 1).value.charts;
    var early := FoldPrefix(tokens, i).value.charts;
    assert mid == early + [mid[|early|]];
    assert late[|early|] == late[..|mid|][|early|];
  }

  /** A falsy token or a tree without children changes nothing. */
  lemma InertTokenSkipped(tokens: seq<Token>, n: nat)
    requires 0 < n <= |tokens| && WellFormedTokens(tokens)
    requires var t := tokens[n - 1];
      t.Falsy? || (t.BpmsTree? && t.bpmLists == []) || (t.StopsTree? && t.stopLists == []) ||
      (t.TagTree? && t.values == [])
    ensures FoldPrefix(tokens, n) == FoldPrefix(tokens, n - 1)
  {
  }

  /** Without charts and without writes to a file property, the fold cannot fail. */
  lemma {:induction false} FoldWithoutChartsSucceeds(tokens: seq<Token>, n: nat)
    requires n <= |tokens| && WellFormedTokens(tokens)
    requires forall k :: 0 <= k < n ==> !tokens[k].ChartToken?
    requires forall k :: 0 <= k < n ==> tokens[k].TagTree? ==> tokens[k].name !in ReadOnlyAttributes
    ensures FoldPrefix(tokens, n).Success?
  {
    if n > 0 {
      FoldWithoutChartsSucceeds(tokens, n - 1);
    }
  }
}
