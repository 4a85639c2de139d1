/**
 * Timing-pair construction: the `beat=value` entries of the BPMS, STOPS and
 * free-form tags become measure pairs. Each entry is split on `=`, the
 * first two pieces are kept, the beat half is parsed as a fraction and
 * turned into measures (a quarter of the beats).
 *
 * Python's `Fraction(str)` is modelled by `ParseDecimal`, which accepts an
 * optional sign followed by digits, digits with a decimal point, or a
 * `numerator/denominator` pair.
 */
module ComplexTypes {
  import opened Wrappers
  import opened Sequences
  import opened BasicTypes

  // ---------------------------------------------------------------------------
  // str.split
  // ---------------------------------------------------------------------------

  /** Python's `s.split(sep)` for a one-character separator: the pieces between separators. */
  function Split(s: string, sep: char): (pieces: seq<string>)
    ensures |pieces| >= 1
  {
    if s == [] then [""]
    else
      var rest := Split(s[1..], sep);
      if s[0] == sep then [""] + rest
      else [[s[0]] + rest[0]] + rest[1..]
  }

  /** The pieces joined back with the separator (Python's `sep.join(pieces)`). */
  function Join(pieces: seq<string>, sep: char): string
    requires |pieces| >= 1
  {
    if |pieces| == 1 then pieces[0] else pieces[0] + [sep] + Join(pieces[1..], sep)
  }

  /** Position of the first `c` in `s`, or `|s|` when there is none. */
  function IndexOf(s: string, c: char): (i: nat)
    ensures i <= |s|
    ensures forall j :: 0 <= j < i ==> s[j] != c
    ensures i < |s| ==> s[i] == c
  {
    if s == [] then 0 else if s[0] == c then 0 else 1 + IndexOf(s[1..], c)
  }

  /** Splitting at a separator splits the two sides independently. */
  lemma {:induction false} SplitAppend(x: string, y: string, sep: char)
    ensures Split(x + [sep] + y, sep) == Split(x, sep) + Split(y, sep)
    decreases |x|
  {
    if x == [] {
      assert x + [sep] + y == [sep] + y;
      assert ([sep] + y)[1..] == y;
    } else {
      var s := x + [sep] + y;
      assert s[0] == x[0] && s[1..] == x[1..] + [sep] + y;
      SplitAppend(x[1..], y, sep);
      SplitConsAppend(x[0], Split(x[1..], sep), Split(y, sep), sep);
    }
  }

  /** The step of `Split` for a first character, on a piece list that is a concatenation. */
  lemma SplitConsAppend(c: char, px: seq<string>, py: seq<string>, sep: char)
    requires |px| >= 1
    ensures (if c == sep then [""] + (px + py) else [[c] + (px + py)[0]] + (px + py)[1..]) ==
            (if c == sep then [""] + px else [[c] + px[0]] + px[1..]) + py
  {
    if c != sep {
      assert (px + py)[0] == px[0] && (px + py)[1..] == px[1..] + py;
    }
  }

  /** Text without the separator is one piece. */
  lemma {:induction false} SplitNoSeparator(s: string, sep: char)
    requires sep !in s
    ensures Split(s, sep) == [s]
    decreases |s|
  {
    if s != [] {
      SplitNoSeparator(s[1..], sep);
      assert s == [s[0]] + s[1..];
    }
  }

  /** No piece contains the separator. */
  lemma {:induction false} SplitPiecesHaveNoSeparator(s: string, sep: char)
    ensures forall k :: 0 <= k < |Split(s, sep)| ==> sep !in Split(s, sep)[k]
    decreases |s|
  {
    if s != [] {
      SplitPiecesHaveNoSeparator(s[1..], sep);
      var rest := Split(s[1..], sep);
      var r := Split(s, sep);
      if s[0] != sep {
        forall k | 0 <= k < |r| ensures sep !in r[k] {
          if k > 0 {
            assert r[k] == rest[k];
          } else {
            assert r[0] == [s[0]] + rest[0];
          }
        }
      }
    }
  }

  /** There is one more piece than there are separators. */
  lemma {:induction false} SplitCount(s: string, sep: char)
    ensures |Split(s, sep)| == Count(s, sep) + 1
    decreases |s|
  {
    if s != [] {
      SplitCount(s[1..], sep);
      assert s == [s[0]] + s[1..];
      assert multiset(s) == multiset{s[0]} + multiset(s[1..]);
    }
  }

  /** Joining the pieces with the separator gives the text back. */
  lemma {:induction false} JoinSplit(s: string, sep: char)
    ensures Join(Split(s, sep), sep) == s
    decreases |s|
  {
    if s != [] {
      JoinSplit(s[1..], sep);
      var rest := Split(s[1..], sep);
      var r := Split(s, sep);
      if s[0] == sep {
        assert r[1..] == rest;
        assert s == [sep] + s[1..];
      } else {
        assert r[0] == [s[0]] + rest[0];
        if |rest| > 1 {
          assert r[1..] == rest[1..];
          assert Join(rest, sep) == rest[0] + [sep] + Join(rest[1..], sep);
        }
        assert s == [s[0]] + s[1..];
      }
    }
  }

  /** The first piece is the text before the first separator; the rest split what follows it. */
  lemma SplitAtFirst(s: string, sep: char)
    ensures Split(s, sep)[0] == s[..IndexOf(s, sep)]
    ensures IndexOf(s, sep) < |s| ==>
      Split(s, sep) == [s[..IndexOf(s, sep)]] + Split(s[IndexOf(s, sep) + 1..], sep)
    ensures IndexOf(s, sep) == |s| ==> Split(s, sep) == [s]
  {
    var i := IndexOf(s, sep);
    assert sep !in s[..i];
    SplitNoSeparator(s[..i], sep);
    if i < |s| {
      assert s == s[..i] + [sep] + s[i + 1..];
      SplitAppend(s[..i], s[i + 1..], sep);
    } else {
      assert s[..i] == s;
    }
  }

  /** `entry.split('=')[:2]`: at most the first two pieces. */
  function FirstTwo(entry: string): (pieces: seq<string>)
    ensures 1 <= |pieces| <= 2
    ensures |pieces| == 2 <==> '=' in entry
  {
    SplitCount(entry, '=');
    var all := Split(entry, '=');
    assert '=' in entry <==> multiset(entry)['='] > 0;
    if |all| >= 2 then all[..2] else all
  }

  // ---------------------------------------------------------------------------
  // Fraction text
  // ---------------------------------------------------------------------------

  predicate IsDigit(c: char) {
    '0' <= c <= '9'
  }

  predicate AllDigits(s: string) {
    forall i :: 0 <= i < |s| ==> IsDigit(s[i])
  }

  function DigitValue(c: char): nat
    requires IsDigit(c)
  {
    c as int - '0' as int
  }

  /** The value of a string of decimal digits, most significant first. */
  function DigitsValue(s: string): nat
    requires AllDigits(s)
  {
    if s == [] then 0 else DigitsValue(s[..|s| - 1]) * 10 + DigitValue(s[|s| - 1])
  }

  function Pow10(n: nat): (p: nat)
    ensures p >= 1
  {
    if n == 0 then 1 else 10 * Pow10(n - 1)
  }

  /** Unsigned fraction text: `digits`, `digits.digits` (either side may be empty, not both), or `digits/digits`. */
  function ParseUnsigned(s: string): (r: Option<real>)
    ensures r.Some? ==> r.value >= 0.0
  {
    var slash := IndexOf(s, '/');
    if slash < |s| then
      var num, den := s[..slash], s[slash + 1..];
      if num != [] && den != [] && AllDigits(num) && AllDigits(den) && DigitsValue(den) != 0
      then Some(DigitsValue(num) as real / DigitsValue(den) as real)
      else None
    else
      var dot := IndexOf(s, '.');
      if dot < |s| then
        var whole, frac := s[..dot], s[dot + 1..];
        if (whole != [] || frac != []) && AllDigits(whole) && AllDigits(frac)
        then Some(DigitsValue(whole) as real + DigitsValue(frac) as real / Pow10(|frac|) as real)
        else None
      else if s != [] && AllDigits(s) then Some(DigitsValue(s) as real)
      else None
  }

  /** `Fraction(s)` for the modelled forms: an optional `+`/`-` sign, then unsigned fraction text. */
  function ParseDecimal(s: string): (r: Option<real>)
    ensures s != [] && s[0] == '-' ==> (r.Some? <==> ParseUnsigned(s[1..]).Some?)
    ensures s != [] && s[0] == '-' && r.Some? ==> r.value == -ParseUnsigned(s[1..]).value
  {
    if s != [] && (s[0] == '-' || s[0] == '+') then
      match ParseUnsigned(s[1..])
      case None => None
      case Some(v) => Some(if s[0] == '-' then -v else v)
    else ParseUnsigned(s)
  }

  /** Decimal text of a natural number, as Python's `str(n)`. */
  function NatText(n: nat): (s: string)
    ensures s != [] && AllDigits(s)
  {
    var last := ['0' + (n % 10) as char];
    if n < 10 then last else NatText(n / 10) + last
  }

  lemma {:induction false} DigitsValueOfNatText(n: nat)
    ensures DigitsValue(NatText(n)) == n
  {
    var s := NatText(n);
    assert s[..|s| - 1] == (if n < 10 then [] else NatText(n / 10));
    if n >= 10 {
      DigitsValueOfNatText(n / 10);
    }
  }

  /** The text of a natural number parses back to that number, with or without a minus sign. */
  lemma ParseNatText(n: nat)
    ensures ParseDecimal(NatText(n)) == Some(n as real)
    ensures ParseDecimal("-" + NatText(n)) == Some(-(n as real))
  {
    var s := NatText(n);
    DigitsValueOfNatText(n);
    assert '/' !in s && '.' !in s by {
      forall i | 0 <= i < |s| ensures s[i] != '/' && s[i] != '.' {
        assert IsDigit(s[i]);
      }
    }
    assert IndexOf(s, '/') == |s|;
    assert IndexOf(s, '.') == |s|;
    assert ("-" + s)[1..] == s;
    assert IsDigit(s[0]);
  }

  // ---------------------------------------------------------------------------
  // Measure pairs
  // ---------------------------------------------------------------------------

  /** A free-form scripting duplet: a position in measures and the raw value text. */
  datatype MeasureValuePair = MeasureValuePair(measure: real, value: string)

  /** A timing duplet whose value is a length in measures (STOPS). */
  datatype MeasureMeasurePair = MeasureMeasurePair(measure: real, value: real)

  /** A BPM change at a position in measures. */
  datatype MeasureBPMPair = MeasureBPMPair(measure: real, bpm: real)

  /**
   * Why an entry cannot be turned into a pair, with its index: it has no
   * `=` (one piece where two are unpacked), or a half is not fraction text.
   */
  datatype PairError = ArityMismatch(entry: nat) | MalformedNumber(entry: nat)

  /**
   * One entry of `MeasureValuePair.from_string_list`: the two pieces are
   * unpacked first (arity), then the beat is parsed; the value stays text.
   */
  function ParseMeasureValuePair(entry: string, index: nat): (r: Result<MeasureValuePair, PairError>)
    ensures '=' !in entry ==> r == Failure(ArityMismatch(index))
    ensures '=' in entry ==> (r.Success? <==> ParseDecimal(FirstTwo(entry)[0]).Some?)
    ensures r.Failure? ==> r.error.entry == index
    ensures r.Success? ==>
      4.0 * r.value.measure == ParseDecimal(FirstTwo(entry)[0]).value && r.value.value == FirstTwo(entry)[1]
  {
    var pieces := FirstTwo(entry);
    if |pieces| != 2 then Failure(ArityMismatch(index))
    else match ParseDecimal(pieces[0])
      case None => Failure(MalformedNumber(index))
      case Some(beat) => Success(MeasureValuePair(BeatAsMeasure(beat), pieces[1]))
  }

  /**
   * One entry of `MeasureMeasurePair.from_string_list`: each piece is parsed
   * and converted to measures as the pair is unpacked, so a malformed beat
   * is reported before a missing second half.
   */
  function ParseMeasureMeasurePair(entry: string, index: nat): (r: Result<MeasureMeasurePair, PairError>)
    ensures ParseDecimal(FirstTwo(entry)[0]).None? ==> r == Failure(MalformedNumber(index))
    ensures ParseDecimal(FirstTwo(entry)[0]).Some? && '=' !in entry ==> r == Failure(ArityMismatch(index))
    ensures r.Success? <==>
      '=' in entry && ParseDecimal(FirstTwo(entry)[0]).Some? && ParseDecimal(FirstTwo(entry)[1]).Some?
    ensures r.Failure? ==> r.error.entry == index
    ensures r.Success? ==>
      4.0 * r.value.measure == ParseDecimal(FirstTwo(entry)[0]).value &&
      4.0 * r.value.value == ParseDecimal(FirstTwo(entry)[1]).value
  {
    var pieces := FirstTwo(entry);
    match ParseDecimal(pieces[0])
    case None => Failure(MalformedNumber(index))
    case Some(first) =>
      if |pieces| == 1 then Failure(ArityMismatch(index))
      else match ParseDecimal(pieces[1])
        case None => Failure(MalformedNumber(index))
        case Some(second) => Success(MeasureMeasurePair(BeatAsMeasure(first), BeatAsMeasure(second)))
  }

  /**
   * One entry of `MeasureBPMPair.from_string_list`: unpacked first (arity),
   * then the beat and then the BPM are parsed.
   */
  function ParseMeasureBPMPair(entry: string, index: nat): (r: Result<MeasureBPMPair, PairError>)
    ensures '=' !in entry ==> r == Failure(ArityMismatch(index))
    ensures r.Success? <==>
      '=' in entry && ParseDecimal(FirstTwo(entry)[0]).Some? && ParseDecimal(FirstTwo(entry)[1]).Some?
    ensures r.Failure? ==> r.error.entry == index
    ensures r.Success? ==>
      4.0 * r.value.measure == ParseDecimal(FirstTwo(entry)[0]).value &&
      r.value.bpm == ParseDecimal(FirstTwo(entry)[1]).value
  {
    var pieces := FirstTwo(entry);
    if |pieces| != 2 then Failure(ArityMismatch(index))
    else match ParseDecimal(pieces[0])
      case None => Failure(MalformedNumber(index))
      case Some(beat) =>
        match ParseDecimal(pieces[1])
        case None => Failure(MalformedNumber(index))
        case Some(bpm) => Success(MeasureBPMPair(BeatAsMeasure(beat), bpm))
  }

  /**
   * A list comprehension over entries `i..`: the first entry that fails
   * aborts the whole list with its error.
   */
  function ParseAllFrom<T, E>(entries: seq<string>, parse: (string, nat) -> Result<T, E>, i: nat)
    : Result<seq<T>, E>
    requires i <= |entries|
    decreases |entries| - i
  {
    if i == |entries| then Success([])
    else match parse(entries[i], i)
      case Failure(e) => Failure(e)
      case Success(x) =>
        match ParseAllFrom(entries, parse, i + 1)
        case Failure(e) => Failure(e)
        case Success(xs) => Success([x] + xs)
  }

  /**
   * The list succeeds exactly when every entry does, then holds one pair per
   * entry in entry order; otherwise it fails with the error of the first
   * failing entry.
   */
  lemma {:induction false} ParseAllFromProperties<T, E>(entries: seq<string>, parse: (string, nat) -> Result<T, E>, i: nat)
    requires i <= |entries|
    ensures ParseAllFrom(entries, parse, i).Success? <==>
      forall k :: i <= k < |entries| ==> parse(entries[k], k).Success?
    ensures ParseAllFrom(entries, parse, i).Success? ==>
      |ParseAllFrom(entries, parse, i).value| == |entries| - i &&
      forall k :: i <= k < |entries| ==>
        ParseAllFrom(entries, parse, i).value[k - i] == parse(entries[k], k).value
    ensures ParseAllFrom(entries, parse, i).Failure? ==>
      exists k :: i <= k < |entries| &&
        (forall j :: i <= j < k ==> parse(entries[j], j).Success?) &&
        parse(entries[k], k) == Failure(ParseAllFrom(entries, parse, i).error)
    decreases |entries| - i
  {
    if i < |entries| {
      ParseAllFromProperties(entries, parse, i + 1);
      var r := ParseAllFrom(entries, parse, i);
      if parse(entries[i], i).Success? && ParseAllFrom(entries, parse, i + 1).Failure? {
        var k :| i + 1 <= k < |entries| &&
          (forall j :: i + 1 <= j < k ==> parse(entries[j], j).Success?) &&
          parse(entries[k], k) == Failure(ParseAllFrom(entries, parse, i + 1).error);
        assert forall j :: i <= j < k ==> parse(entries[j], j).Success?;
      }
    }
  }

  /** `MeasureValuePair.from_string_list`. */
  function MeasureValuePairs(entries: seq<string>): (r: Result<seq<MeasureValuePair>, PairError>)
    ensures r.Success? <==> forall k :: 0 <= k < |entries| ==> ParseMeasureValuePair(entries[k], k).Success?
    ensures r.Success? ==> (|r.value| == |entries| &&
      forall k :: 0 <= k < |entries| ==> r.value[k] == ParseMeasureValuePair(entries[k], k).value)
    ensures r.Failure? ==>
      exists k :: 0 <= k < |entries| &&
        (forall j :: 0 <= j < k ==> ParseMeasureValuePair(entries[j], j).Success?) &&
        ParseMeasureValuePair(entries[k], k) == Failure(r.error)
  {
    ParseAllFromProperties(entries, ParseMeasureValuePair, 0);
    ParseAllFrom(entries, ParseMeasureValuePair, 0)
  }

  /** `MeasureMeasurePair.from_string_list`. */
  function MeasureMeasurePairs(entries: seq<string>): (r: Result<seq<MeasureMeasurePair>, PairError>)
    ensures r.Success? <==> forall k :: 0 <= k < |entries| ==> ParseMeasureMeasurePair(entries[k], k).Success?
    ensures r.Success? ==> (|r.value| == |entries| &&
      forall k :: 0 <= k < |entries| ==> r.value[k] == ParseMeasureMeasurePair(entries[k], k).value)
    ensures r.Failure? ==>
      exists k :: 0 <= k < |entries| &&
        (forall j :: 0 <= j < k ==> ParseMeasureMeasurePair(entries[j], j).Success?) &&
        ParseMeasureMeasurePair(entries[k], k) == Failure(r.error)
  {
    ParseAllFromProperties(entries, ParseMeasureMeasurePair, 0);
    ParseAllFrom(entries, ParseMeasureMeasurePair, 0)
  }

  /** `MeasureBPMPair.from_string_list`. */
  function MeasureBPMPairs(entries: seq<string>): (r: Result<seq<MeasureBPMPair>, PairError>)
    ensures r.Success? <==> forall k :: 0 <= k < |entries| ==> ParseMeasureBPMPair(entries[k], k).Success?
    ensures r.Success? ==> (|r.value| == |entries| &&
      forall k :: 0 <= k < |entries| ==> r.value[k] == ParseMeasureBPMPair(entries[k], k).value)
    ensures r.Failure? ==>
      exists k :: 0 <= k < |entries| &&
        (forall j :: 0 <= j < k ==> ParseMeasureBPMPair(entries[j], j).Success?) &&
        ParseMeasureBPMPair(entries[k], k) == Failure(r.error)
  {
    ParseAllFromProperties(entries, ParseMeasureBPMPair, 0);
    ParseAllFrom(entries, ParseMeasureBPMPair, 0)
  }

  /** An entry with exactly one `=` splits into the text before and after it. */
  lemma EntryPieces(beat: string, value: string)
    requires '=' !in beat && '=' !in value
    ensures FirstTwo(beat + "=" + value) == [beat, value]
  {
    SplitNoSeparator(beat, '=');
    SplitNoSeparator(value, '=');
    assert beat + "=" + value == beat + ['='] + value;
    SplitAppend(beat, value, '=');
  }

  /** Only the first two `=`-separated pieces are read: anything after a second `=` is ignored. */
  lemma ExtraSegmentsIgnored(beat: string, value: string, extra: string, index: nat)
    requires '=' !in beat && '=' !in value
    ensures ParseMeasureValuePair(beat + "=" + value + "=" + extra, index) ==
            ParseMeasureValuePair(beat + "=" + value, index)
    ensures ParseMeasureMeasurePair(beat + "=" + value + "=" + extra, index) ==
            ParseMeasureMeasurePair(beat + "=" + value, index)
    ensures ParseMeasureBPMPair(beat + "=" + value + "=" + extra, index) ==
            ParseMeasureBPMPair(beat + "=" + value, index)
  {
    SplitNoSeparator(beat, '=');
    SplitNoSeparator(value, '=');
    SplitAppend(value, extra, '=');
    assert beat + "=" + value + "=" + extra == beat + ['='] + (value + ['='] + extra);
    SplitAppend(beat, value + ['='] + extra, '=');
    EntryPieces(beat, value);
    assert FirstTwo(beat + "=" + value + "=" + extra) == [beat, value];
  }

  /** Digit text holds no character other than digits. */
  lemma NatTextHasNo(n: nat, c: char)
    requires !IsDigit(c)
    ensures c !in NatText(n)
  {
    var s := NatText(n);
    forall i | 0 <= i < |s| ensures s[i] != c {
      assert IsDigit(s[i]);
    }
  }

  /** A well-formed `beat=bpm` entry gives the BPM at a quarter of the beat. */
  lemma BPMEntryExample(beat: nat, bpm: nat, index: nat)
    ensures ParseMeasureBPMPair(NatText(beat) + "=" + NatText(bpm), index) ==
            Success(MeasureBPMPair(beat as real / 4.0, bpm as real))
  {
    var b, v := NatText(beat), NatText(bpm);
    var e := b + "=" + v;
    NatTextHasNo(beat, '=');
    NatTextHasNo(bpm, '=');
    EntryPieces(b, v);
    assert e[|b|] == '=';
    ParseNatText(beat);
    ParseNatText(bpm);
    var r := ParseMeasureBPMPair(e, index);
    assert r.Success?;
    assert r.value == MeasureBPMPair(beat as real / 4.0, bpm as real);
  }
}
