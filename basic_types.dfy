/**
 * The scalar vocabulary of the simfile library: the closed alphabet of note
 * objects, the exact-rational units (BPM, beats, measures, positions, times),
 * the "Invariant" placeholder quantities, the custom fraction hash and the
 * order-preserving de-duplication helper.
 *
 * Every quantity of the library is an exact `Fraction`, modelled here as a
 * Dafny `real`; a fraction known to be in lowest terms is modelled by its
 * numerator and denominator where that matters (the hash).
 */
module BasicTypes {
  import opened Wrappers
  import opened Sequences

  // ---------------------------------------------------------------------------
  // Note objects
  // ---------------------------------------------------------------------------

  /** One lane's content in a row; the members in declaration order. */
  datatype NoteObject =
    | EmptyLane
    | TapObject
    | HoldStart
    | HoldRollEnd
    | RollStart
    | Mine
    | Fake
    | Lift
    | HoldBody
    | RollBody

  /** The character that stands for each object in a chart's text (the enum value). */
  function Character(o: NoteObject): char {
    match o
    case EmptyLane => '0'
    case TapObject => '1'
    case HoldStart => '2'
    case HoldRollEnd => '3'
    case RollStart => '4'
    case Mine => 'M'
    case Fake => 'F'
    case Lift => 'L'
    case HoldBody => 'H'
    case RollBody => 'R'
  }

  const NoteCharacters: set<char> := {'0', '1', '2', '3', '4', 'M', 'F', 'L', 'H', 'R'}

  /**
   * Lookup of a member by its value character; `None` stands for the
   * `KeyError` raised for any other character.
   */
  function FromCharacter(c: char): (r: Option<NoteObject>)
    ensures r.Some? <==> c in NoteCharacters
    ensures r.Some? ==> Character(r.value) == c
  {
    match c
    case '0' => Some(EmptyLane)
    case '1' => Some(TapObject)
    case '2' => Some(HoldStart)
    case '3' => Some(HoldRollEnd)
    case '4' => Some(RollStart)
    case 'M' => Some(Mine)
    case 'F' => Some(Fake)
    case 'L' => Some(Lift)
    case 'H' => Some(HoldBody)
    case 'R' => Some(RollBody)
    case _ => None
  }

  /** Looking up a member's own character gives the member back. */
  lemma FromCharacterOfCharacter(o: NoteObject)
    ensures FromCharacter(Character(o)) == Some(o)
    ensures Character(o) in NoteCharacters
  {
  }

  /** The value characters are pairwise distinct (the enum is `@unique`). */
  lemma CharacterInjective(a: NoteObject, b: NoteObject)
    ensures Character(a) == Character(b) ==> a == b
  {
  }

  // ---------------------------------------------------------------------------
  // The fraction hash
  // ---------------------------------------------------------------------------

  /** The numerator encoding of the hash: `2·num` when that is not negative, `-2·num + 1` otherwise. */
  function ZigZag(num: int): (n: nat)
    ensures n % 2 == 0 <==> num >= 0
  {
    if 2 * num < 0 then -2 * num + 1 else 2 * num
  }

  /** Different numerators get different codes. */
  lemma ZigZagInjective(a: int, b: int)
    ensures ZigZag(a) == ZigZag(b) ==> a == b
  {
  }

  function Triangle(s: nat): nat {
    s * (s + 1) / 2
  }

  /**
   * `CheaperFraction.__hash__` of the fraction `num/den` in lowest terms
   * (so `den >= 1`): with `n` the zig-zag code of `num`, `((n+d)(n+d+1)+d) // 2`.
   * The result is never negative and lies on the diagonal block `n + d`
   * of the pairing plane: between the triangular numbers of `n + d` and
   * `n + d + 1`.
   */
  function FractionHash(num: int, den: int): (h: int)
    requires den >= 1
    ensures h >= 0
    ensures Triangle(ZigZag(num) + den) <= h < Triangle(ZigZag(num) + den + 1)
  {
    var n := ZigZag(num);
    var s := n + den;
    assert s * (s + 1) % 2 == 0 by { ProductOfConsecutiveIsEven(s); }
    assert (s + 1) * (s + 2) == s * (s + 1) + 2 * (s + 1);
    (s * (s + 1) + den) / 2
  }

  lemma {:induction false} ProductOfConsecutiveIsEven(s: nat)
    ensures s * (s + 1) % 2 == 0
  {
    if s > 0 {
      ProductOfConsecutiveIsEven(s - 1);
      assert s * (s + 1) == (s - 1) * s + 2 * s;
    }
  }

  /** The hash is not injective: -1/2 and 1/3 share the hash 16. */
  lemma FractionHashCollision()
    ensures FractionHash(-1, 2) == FractionHash(1, 3) == 16
  {
  }

  // ---------------------------------------------------------------------------
  // Invariant quantities
  // ---------------------------------------------------------------------------

  /** The three singleton placeholders `PositionInvariant`, `TimeInvariant` and `DeltaInvariant`. */
  datatype InvariantKind = PositionInvariant | TimeInvariant | DeltaInvariant

  /**
   * The class of an ordinary number: Python's `int` (with its subclasses
   * `bool` and `Snap`), `float`, `Fraction` itself, or one of the library's
   * fraction classes.
   */
  datatype NumClass =
    | PyInt | PyFloat | PyFraction | CheaperFractionClass | BPMClass | MeasureClass
    | BeatClass | LocalPositionClass | GlobalPositionClass | TimeClass

  /** A number of some class, or one of the Invariant placeholders. */
  datatype Quantity = Plain(cls: NumClass, value: real) | Invariant(kind: InvariantKind)

  datatype ArithOp = Add | Sub | Mul | Div

  /** The value a quantity carries; an Invariant is built as `Fraction()`, that is 0. */
  function ValueOf(q: Quantity): real {
    if q.Plain? then q.value else 0.0
  }

  /**
   * The class of Invariant `k` derives from `c`: all three from `Fraction`
   * and `CheaperFraction`, `PositionInvariant` from `GlobalPosition`, the
   * other two from `Time`.
   */
  predicate DerivesFrom(k: InvariantKind, c: NumClass) {
    c == PyFraction || c == CheaperFractionClass ||
    (c == GlobalPositionClass && k == PositionInvariant) ||
    (c == TimeClass && k != PositionInvariant)
  }

  /**
   * With an ordinary number of class `c` on the left, Python reaches the
   * Invariant's reflected operator (which answers with the Invariant):
   * first, when the Invariant's class derives from `c` and overrides it; or
   * after `int` and `float`, whose own operators give `NotImplemented` for a
   * fraction. Otherwise `Fraction`'s operator computes with the value 0.
   */
  predicate RightAbsorbs(c: NumClass, k: InvariantKind) {
    c == PyInt || c == PyFloat || DerivesFrom(k, c)
  }

  /** The class of an ordinary result: `float` wins, `int` with `int` stays `int` except under `/`, else `Fraction`. */
  function ResultClass(op: ArithOp, c: NumClass, d: NumClass): NumClass {
    if c == PyFloat || d == PyFloat then PyFloat
    else if c == PyInt && d == PyInt then (if op == Div then PyFloat else PyInt)
    else PyFraction
  }

  /** Ordinary arithmetic on two values; dividing by zero raises `ZeroDivisionError` (`None`). */
  function Compute(op: ArithOp, cls: NumClass, x: real, y: real): Option<Quantity> {
    match op
    case Add => Some(Plain(cls, x + y))
    case Sub => Some(Plain(cls, x - y))
    case Mul => Some(Plain(cls, x * y))
    case Div => if y == 0.0 then None else Some(Plain(cls, x / y))
  }

  /**
   * `a op b` under Python's operator dispatch: an Invariant on the left
   * answers with itself; an Invariant on the right answers with itself
   * when `RightAbsorbs`, and otherwise counts as the fraction 0 it is, so
   * that dividing by it raises; two ordinary numbers compute.
   */
  function Apply(op: ArithOp, a: Quantity, b: Quantity): (r: Option<Quantity>)
    ensures a.Invariant? ==> r == Some(a)
    ensures a.Plain? && b.Invariant? && RightAbsorbs(a.cls, b.kind) ==> r == Some(b)
    ensures r.None? <==>
      a.Plain? && op == Div && ValueOf(b) == 0.0 && !(b.Invariant? && RightAbsorbs(a.cls, b.kind))
    ensures r.Some? ==>
      (r.value.Invariant? <==> a.Invariant? || (b.Invariant? && RightAbsorbs(a.cls, b.kind)))
    ensures r.Some? && r.value.Plain? ==>
      a.Plain? &&
      (op == Add ==> r.value.value == a.value + ValueOf(b)) &&
      (op == Sub ==> r.value.value == a.value - ValueOf(b)) &&
      (op == Mul ==> r.value.value == a.value * ValueOf(b)) &&
      (op == Div ==> ValueOf(b) != 0.0 && r.value.value == a.value / ValueOf(b))
    ensures a.Plain? && b.Invariant? && !RightAbsorbs(a.cls, b.kind) && r.Some? ==> r.value.cls == PyFraction
  {
    match (a, b)
    case (Invariant(_), _) => Some(a)
    case (Plain(c, x), Invariant(k)) =>
      if RightAbsorbs(c, k) then Some(b) else Compute(op, PyFraction, x, 0.0)
    case (Plain(c, x), Plain(d, y)) => Compute(op, ResultClass(op, c, d), x, y)
  }

  /** `Time(3) + PositionInvariant` is `Fraction(3)`, `Time(3) / PositionInvariant` raises, `Measure(1) * TimeInvariant` is `Fraction(0)`. */
  lemma InvariantOfOtherUnit()
    ensures Apply(Add, Plain(TimeClass, 3.0), Invariant(PositionInvariant)) == Some(Plain(PyFraction, 3.0))
    ensures Apply(Div, Plain(TimeClass, 3.0), Invariant(PositionInvariant)) == None
    ensures Apply(Mul, Plain(MeasureClass, 1.0), Invariant(TimeInvariant)) == Some(Plain(PyFraction, 0.0))
    ensures Apply(Add, Plain(TimeClass, 3.0), Invariant(DeltaInvariant)) == Some(Invariant(DeltaInvariant))
  {
  }

  /** Left-to-right evaluation of `start op1 q1 op2 q2 ...`, stopping at the first raise. */
  function Chain(start: Quantity, steps: seq<(ArithOp, Quantity)>): Option<Quantity>
    decreases |steps|
  {
    if steps == [] then Some(start)
    else
      match Apply(steps[0].0, start, steps[0].1)
      case None => None
      case Some(q) => Chain(q, steps[1..])
  }

  /** Once an Invariant enters a computation, it is the result of everything that follows. */
  lemma {:induction false} InvariantAbsorbsChain(start: Quantity, steps: seq<(ArithOp, Quantity)>)
    requires start.Invariant?
    ensures Chain(start, steps) == Some(start)
  {
    if steps != [] {
      InvariantAbsorbsChain(start, steps[1..]);
    }
  }

  /** A chain over two stretches of steps is the second stretch run from the first one's result. */
  lemma {:induction false} ChainAppend(start: Quantity, a: seq<(ArithOp, Quantity)>, b: seq<(ArithOp, Quantity)>)
    ensures Chain(start, a + b) == if Chain(start, a).None? then None else Chain(Chain(start, a).value, b)
    decreases |a|
  {
    if a != [] {
      assert (a + b)[0] == a[0] && (a + b)[1..] == a[1..] + b;
      var q := Apply(a[0].0, start, a[0].1);
      if q.Some? {
        ChainAppend(q.value, a[1..], b);
      }
    } else {
      assert a + b == b;
    }
  }

  /**
   * A computation whose value just before operand `k`, an Invariant, is an
   * Invariant or a number that the Invariant absorbs, does not raise and
   * ends in an Invariant: the one it had, or else operand `k`.
   */
  lemma ChainMeetsInvariant(start: Quantity, steps: seq<(ArithOp, Quantity)>, k: nat)
    requires k < |steps| && steps[k].1.Invariant?
    requires Chain(start, steps[..k]).Some?
    requires var q := Chain(start, steps[..k]).value;
      q.Invariant? || RightAbsorbs(q.cls, steps[k].1.kind)
    ensures var q := Chain(start, steps[..k]).value;
      Chain(start, steps) == Some(if q.Invariant? then q else steps[k].1)
  {
    var q := Chain(start, steps[..k]).value;
    assert steps == steps[..k] + steps[k..];
    ChainAppend(start, steps[..k], steps[k..]);
    var rest := steps[k..];
    assert rest[0] == steps[k];
    var inv := if q.Invariant? then q else steps[k].1;
    assert Apply(rest[0].0, q, rest[0].1) == Some(inv);
    InvariantAbsorbsChain(inv, rest[1..]);
  }

  // ---------------------------------------------------------------------------
  // Units
  // ---------------------------------------------------------------------------

  /**
   * `BPM.measures_per_second`: `240 / bpm`. Despite its name this is the
   * duration of one four-beat measure in seconds, which is how the timing
   * sweep uses it. `Fraction(240, 0)` raises, hence the precondition.
   */
  function MeasuresPerSecond(bpm: real): (r: real)
    requires bpm != 0.0
    ensures r * bpm == 240.0
    ensures bpm > 0.0 ==> r > 0.0
  {
    240.0 / bpm
  }

  /** `BPM.rows_per_second`: 192 times `measures_per_second`. */
  function RowsPerSecond(bpm: real): (r: real)
    requires bpm != 0.0
    ensures r * bpm == 240.0 * 192.0
  {
    MeasuresPerSecond(bpm) * 192.0
  }

  /** `Beat.as_measure`: four beats make one measure. */
  function BeatAsMeasure(beat: real): (m: real)
    ensures 4.0 * m == beat
    ensures (m < 0.0) == (beat < 0.0)
  {
    beat * (1.0 / 4.0)
  }

  /** Python's `int()` of a fraction: rounds toward zero, unlike Dafny's `Floor`. */
  function Truncate(x: real): (i: int)
    ensures x >= 0.0 ==> i as real <= x < i as real + 1.0
    ensures x < 0.0 ==> i as real - 1.0 < x <= i as real
  {
    if x >= 0.0 then x.Floor else -((-x).Floor)
  }

  /** `GlobalPosition.measure`: the measure a global position lies in. */
  function MeasureOf(pos: real): int {
    Truncate(pos)
  }

  /**
   * `GlobalPosition.local_position`: what remains after removing the whole
   * measures. Together the two halves give back the position; for a
   * non-negative position the local part lies in [0, 1), for a negative one
   * in (-1, 0].
   */
  function LocalPositionOf(pos: real): (lp: real)
    ensures MeasureOf(pos) as real + lp == pos
    ensures pos >= 0.0 ==> 0.0 <= lp < 1.0
    ensures pos < 0.0 ==> -1.0 < lp <= 0.0
  {
    pos - MeasureOf(pos) as real
  }

  /** For a non-negative position the split into measure and local part is the only one with a local part in [0, 1). */
  lemma PositionSplitUnique(pos: real, m: int, lp: real)
    requires pos >= 0.0
    requires 0.0 <= lp < 1.0 && m as real + lp == pos
    ensures m == MeasureOf(pos) && lp == LocalPositionOf(pos)
  {
    var k := MeasureOf(pos);
    assert k as real <= pos < k as real + 1.0;
  }

  /** `GlobalPosition.is_null`: the positions before the chart starts. */
  predicate IsNull(pos: real) {
    pos < 0.0
  }

  /** `NullGlobalPosition`, the marker position -1. */
  const NullGlobalPosition: real := -1.0

  /** The marker position is null. */
  lemma NullGlobalPositionIsNull()
    ensures IsNull(NullGlobalPosition)
  {
  }

  /** A position within the documented range `0 <= GlobalPosition` is not null. */
  lemma ValidPositionNotNull(pos: real)
    requires 0.0 <= pos
    ensures !IsNull(pos)
  {
  }

  // ---------------------------------------------------------------------------
  // Rounding of times
  // ---------------------------------------------------------------------------

  /**
   * `round()` of a fraction to an integer: the nearest integer, ties going
   * to the even neighbour.
   */
  function RoundHalfEven(x: real): (k: int)
    ensures -0.5 <= x - k as real <= 0.5
    ensures (x - k as real == 0.5 || x - k as real == -0.5) ==> k % 2 == 0
  {
    var f := x.Floor;
    var rest := x - f as real;
    if rest < 0.5 then f
    else if rest > 0.5 then f + 1
    else if f % 2 == 0 then f
    else f + 1
  }

  /**
   * `Time.limited_precision`: `round(t, 3)`, a whole number of milliseconds
   * within half a millisecond of `t`.
   */
  function LimitedPrecision(t: real): (r: real)
    ensures (r * 1000.0).Floor as real == r * 1000.0
    ensures -0.0005 <= r - t <= 0.0005
  {
    var x := t * 1000.0;
    var k := RoundHalfEven(x);
    var r := k as real / 1000.0;
    assert r * 1000.0 == k as real;
    assert r - t == (k as real - x) / 1000.0;
    r
  }

  /** Times that are already whole milliseconds are kept. */
  lemma {:induction false} LimitedPrecisionKeepsMilliseconds(ms: int)
    ensures LimitedPrecision(ms as real / 1000.0) == ms as real / 1000.0
  {
    var t := ms as real / 1000.0;
    assert t * 1000.0 == ms as real;
    assert (t * 1000.0).Floor == ms;
  }

  // ---------------------------------------------------------------------------
  // Order-preserving de-duplication
  // ---------------------------------------------------------------------------

  /**
   * `make_ordered_set`: the keys of an `OrderedDict` filled from the input,
   * i.e. every distinct element once, where it first occurs.
   */
  function OrderedSet<T(==)>(s: seq<T>): (r: seq<T>)
    ensures NoDuplicates(r)
    ensures forall i :: 0 <= i < |s| ==> s[i] in r
    ensures forall i :: 0 <= i < |r| ==> r[i] in s
    ensures |r| <= |s|
    decreases |s|
  {
    if s == [] then []
    else
      var prev := OrderedSet(s[..|s| - 1]);
      var last := s[|s| - 1];
      assert s == s[..|s| - 1] + [last];
      if last in prev then prev else prev + [last]
  }

  /** The index of the first occurrence of `x` in `s`. */
  function FirstIndex<T(==)>(s: seq<T>, x: T): (i: nat)
    requires x in s
    ensures i < |s| && s[i] == x
    ensures forall j :: 0 <= j < i ==> s[j] != x
  {
    if s[0] == x then 0 else 1 + FirstIndex(s[1..], x)
  }

  lemma FirstIndexOfPrefix<T>(s: seq<T>, n: nat, x: T)
    requires n <= |s| && x in s[..n]
    ensures FirstIndex(s[..n], x) == FirstIndex(s, x)
  {
    var i := FirstIndex(s[..n], x);
    var j := FirstIndex(s, x);
    assert s[..n][i] == s[i];
    assert j <= i;
    assert s[..n][j] == s[j];
  }

  /** Two elements of `make_ordered_set`, in the order of their first occurrences. */
  lemma {:induction false} OrderedSetOrderAt<T>(s: seq<T>, i: nat, j: nat)
    requires i < j < |OrderedSet(s)|
    ensures FirstIndex(s, OrderedSet(s)[i]) < FirstIndex(s, OrderedSet(s)[j])
    decreases |s|
  {
    assert s != [];
    var init := s[..|s| - 1];
    var prev := OrderedSet(init);
    var last := s[|s| - 1];
    var r := OrderedSet(s);
    assert r[i] == prev[i];
    FirstIndexOfPrefix(s, |s| - 1, r[i]);
    if j < |prev| {
      assert r[j] == prev[j];
      OrderedSetOrderAt(init, i, j);
      FirstIndexOfPrefix(s, |s| - 1, r[j]);
    } else {
      assert r[j] == last && last !in init;
      assert FirstIndex(s, last) == |s| - 1;
    }
  }

  /** The elements of `make_ordered_set` come in the order of their first occurrences. */
  lemma {:induction false} OrderedSetFirstOccurrenceOrder<T>(s: seq<T>)
    ensures forall i, j :: 0 <= i < j < |OrderedSet(s)| ==>
      FirstIndex(s, OrderedSet(s)[i]) < FirstIndex(s, OrderedSet(s)[j])
  {
    forall i, j | 0 <= i < j < |OrderedSet(s)| {
      OrderedSetOrderAt(s, i, j);
    }
  }

  /** A duplicate-free sequence is its own ordered set. */
  lemma {:induction false} OrderedSetOfDistinct<T>(s: seq<T>)
    requires NoDuplicates(s)
    ensures OrderedSet(s) == s
    decreases |s|
  {
    if s != [] {
      var init := s[..|s| - 1];
      assert NoDuplicates(init);
      OrderedSetOfDistinct(init);
      assert s[|s| - 1] !in init;
      assert init + [s[|s| - 1]] == s;
    }
  }

  /** `make_ordered_set` is idempotent. */
  lemma OrderedSetIdempotent<T>(s: seq<T>)
    ensures OrderedSet(OrderedSet(s)) == OrderedSet(s)
  {
    OrderedSetOfDistinct(OrderedSet(s));
  }
}
