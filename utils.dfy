/**
 * Helpers shared by both front ends: file-name sanitising, the
 * `[hh:]mm:ss[.ms]` time format and its parser, title shortening, the
 * YouTube URL shape check and collision-free file naming.
 */
module Utils {
  import opened Wrappers
  import opened Text

  // ---------------------------------------------------------------------------
  // sanitize_filename

  /** Characters Windows refuses in file names. */
  const ReservedFilenameChars: set<char> := {'<', '>', ':', '"', '/', '\\', '|', '?', '*'}

  predicate IsUnsafeFilenameChar(c: char) {
    c in ReservedFilenameChars || (c as int) < 32
  }

  /** Each unsafe character replaced by `_`, one for one. */
  function ReplaceUnsafe(title: string): (r: string)
    ensures |r| == |title|
    ensures forall i | 0 <= i < |r| :: !IsUnsafeFilenameChar(r[i])
    ensures forall i | 0 <= i < |r| :: r[i] == title[i] || (r[i] == '_' && IsUnsafeFilenameChar(title[i]))
  {
    seq(|title|, i requires 0 <= i < |title| => if IsUnsafeFilenameChar(title[i]) then '_' else title[i])
  }

  /** A file-system-safe name for a video title (`sanitize_filename`). */
  function SanitizeFilename(title: string): (r: string)
    ensures r != []
    ensures forall i | 0 <= i < |r| :: !IsUnsafeFilenameChar(r[i])
    ensures r[|r| - 1] != '.' && r[|r| - 1] != ' '
    ensures r == "video" || Contains(ReplaceUnsafe(title), r)
  {
    var cleaned := ReplaceUnsafe(title);
    var lead := LStrip(cleaned, Whitespace);
    var stripped := RStrip(lead, Whitespace);
    var s := RStrip(stripped, Chars({'.', ' '}));
    if s == [] then "video"
    else
      TrimmedPiece(cleaned);
      s
  }

  /** Trimming whitespace, then dots and spaces, leaves a safe piece of a safe text. */
  lemma TrimmedPiece(x: string)
    requires forall i | 0 <= i < |x| :: !IsUnsafeFilenameChar(x[i])
    ensures var s := RStrip(RStrip(LStrip(x, Whitespace), Whitespace), Chars({'.', ' '}));
      && (forall i | 0 <= i < |s| :: !IsUnsafeFilenameChar(s[i]))
      && (s != [] ==> s[|s| - 1] != '.' && s[|s| - 1] != ' ' && Contains(x, s))
  {
    var lead := LStrip(x, Whitespace);
    var stripped := RStrip(lead, Whitespace);
    var s := RStrip(stripped, Chars({'.', ' '}));
    TrimSteps(x, lead, stripped, s);
    PieceOfSafeText(x, lead, stripped, s);
  }

  /** Each trimming step keeps a slice of what it was given. */
  lemma TrimSteps(x: string, lead: string, stripped: string, s: string)
    requires lead == LStrip(x, Whitespace) && stripped == RStrip(lead, Whitespace)
    requires s == RStrip(stripped, Chars({'.', ' '}))
    ensures |s| <= |stripped| <= |lead| <= |x|
    ensures lead == x[|x| - |lead|..] && stripped == lead[..|stripped|] && s == stripped[..|s|]
    ensures s == [] || (s[|s| - 1] != '.' && s[|s| - 1] != ' ')
  {
    LStripDropsPrefix(x, Whitespace);
    RStripDropsSuffix(lead, Whitespace);
    RStripDropsSuffix(stripped, Chars({'.', ' '}));
  }

  /** A slice of a safe text is safe and occurs in it. */
  lemma PieceOfSafeText(x: string, lead: string, stripped: string, s: string)
    requires forall i | 0 <= i < |x| :: !IsUnsafeFilenameChar(x[i])
    requires |s| <= |stripped| <= |lead| <= |x|
    requires lead == x[|x| - |lead|..] && stripped == lead[..|stripped|] && s == stripped[..|s|]
    ensures forall i | 0 <= i < |s| :: !IsUnsafeFilenameChar(s[i])
    ensures Contains(x, s)
  {
    PrefixOfSuffixOccurs(x, lead, stripped, s);
    ContainsOccurs(x, s);
    forall i | 0 <= i < |s| ensures !IsUnsafeFilenameChar(s[i]) {
      assert s[i] == x[|x| - |lead| + i];
    }
  }

  /** A prefix of a prefix of a suffix is a piece of the whole. */
  lemma PrefixOfSuffixOccurs(x: string, a: string, b: string, c: string)
    requires |c| <= |b| <= |a| <= |x|
    requires a == x[|x| - |a|..] && b == a[..|b|] && c == b[..|c|]
    ensures OccursAt(x, c, |x| - |a|)
  {
    forall i | 0 <= i < |c|
      ensures c[i] == x[|x| - |a| + i]
    {
    }
    assert x[|x| - |a|..|x| - |a| + |c|] == c;
  }

  /** A title that is already safe and trimmed is kept as it is. */
  lemma SanitizeKeepsCleanTitle(title: string)
    requires title != []
    requires forall i | 0 <= i < |title| :: !IsUnsafeFilenameChar(title[i])
    requires !IsSpace(title[0]) && !IsSpace(title[|title| - 1])
    requires title[|title| - 1] != '.'
    ensures SanitizeFilename(title) == title
  {
    assert ReplaceUnsafe(title) == title;
    StripNoOp(title);
  }

  lemma SanitizeFilenameExamples()
    ensures SanitizeFilename("a:b") == "a_b"
    ensures SanitizeFilename(" ..") == "video"
  {
    assert ReplaceUnsafe("a:b") == "a_b";
    assert ReplaceUnsafe(" ..") == " ..";
    assert LStrip(" ..", Whitespace) == "..";
    assert RStrip("..", Whitespace) == "..";
    assert RStrip("..", Chars({'.', ' '})) == RStrip(".", Chars({'.', ' '})) == "";
  }

  // ---------------------------------------------------------------------------
  // format_timestamp

  /** Python's `round` on a non-negative real: to the nearest integer, halves to even. */
  function RoundHalfEven(x: real): (r: nat)
    requires x >= 0.0
    ensures -0.5 <= r as real - x <= 0.5
    ensures r as real - x == 0.5 ==> r % 2 == 0
    ensures x - r as real == 0.5 ==> r % 2 == 0
  {
    var fl := x.Floor;
    var frac := x - fl as real;
    if frac < 0.5 then fl
    else if frac > 0.5 then fl + 1
    else if fl % 2 == 0 then fl
    else fl + 1
  }

  /** `format_timestamp` on a time already rounded to whole milliseconds. */
  function FormatTimestamp(totalMs: nat): (r: string)
    ensures totalMs < 3_600_000 && totalMs % 1000 == 0 ==>
      |r| == 5 && r[2] == ':' && AllDigits(r[..2]) && AllDigits(r[3..])
  {
    var seconds := totalMs / 1000;
    var millis := totalMs % 1000;
    var minutes := seconds / 60;
    var hours := minutes / 60;
    if hours > 0 then
      RStrip(ZeroPad(hours, 2) + ":" + ZeroPad(minutes % 60, 2) + ":" + ZeroPad(seconds % 60, 2)
             + "." + ZeroPad(millis, 3), Chars({'0', '.'}))
    else if millis > 0 then
      RStrip(ZeroPad(minutes % 60, 2) + ":" + ZeroPad(seconds % 60, 2) + "." + ZeroPad(millis, 3), Chars({'0', '.'}))
    else
      ZeroPad(minutes % 60, 2) + ":" + ZeroPad(seconds % 60, 2)
  }

  /** `format_timestamp(value)`: negative times count as zero, the rest is rounded to whole milliseconds. */
  function FormatSeconds(value: real): (r: string)
    ensures value <= 0.0 ==> r == "00:00"
    ensures value >= 0.0 && (value * 1000.0).Floor as real == value * 1000.0 ==> r == FormatTimestamp((value * 1000.0).Floor)
  {
    var ms := RoundHalfEven((if value < 0.0 then 0.0 else value) * 1000.0);
    assert value <= 0.0 ==> ms == 0;
    assert value >= 0.0 && (value * 1000.0).Floor as real == value * 1000.0 ==> ms == (value * 1000.0).Floor;
    FormatTimestampZero();
    FormatTimestamp(ms)
  }

  /** Zero, and so every negative time, is written `00:00`. */
  lemma FormatTimestampZero()
    ensures FormatTimestamp(0) == "00:00"
  {
    ZeroFields();
  }

  /**
   * Reading back what `format_timestamp` writes gives the value rounded to
   * the millisecond, for every value below an hour and every value with a
   * non-zero millisecond part.
   */
  lemma FormatSecondsRoundTrip(value: real, ms: nat)
    requires ms == RoundHalfEven((if value < 0.0 then 0.0 else value) * 1000.0)
    requires ms < 3_600_000 || ms % 1000 != 0
    ensures TimeSpec(FormatSeconds(value)) == TimeValue(ms as real / 1000.0)
  {
    FormatTimestampRoundTrip(ms);
  }

  // ---------------------------------------------------------------------------
  // parse_time_input

  /** The outcome of `parse_time_input`: `None`, a number of seconds, or `ValueError`. */
  datatype TimeInput = NoTime | TimeValue(seconds: real) | BadTime

  /** The outcome of `float(text)`: a number, or the `ValueError` it raises. */
  datatype FloatParse = NotFloat | Float(value: real)

  /** The value of a run of fractional digits: "5" is 0.5, "250" is 0.25. */
  function FracValue(s: string): real
    requires AllDigits(s)
  {
    DigitsValue(s) as real / Pow10(|s|) as real
  }

  /** The part of a `floatnumber` that `float`'s scanner is in. */
  datatype NumberPart = WholePart | FractionPart | ExponentPart

  /**
   * What the scanner has read of a `floatnumber`: the mantissa's digits as
   * one integer, how many digits it has and how many of them follow the
   * point, the exponent's sign, value and digit count, and the previous
   * character (a space before the first one).
   */
  datatype Scanned = Scanned(
    part: NumberPart, mantissa: nat, digits: nat, scale: nat,
    negative: bool, exponent: nat, expDigits: nat, previous: char)

  const ScanStart := Scanned(WholePart, 0, 0, 0, false, 0, 0, ' ')

  /**
   * One character of `floatnumber ::= number [exponent]`, where
   * `number ::= [digitpart] "." digitpart | digitpart ["."]`,
   * `exponent ::= ("e" | "E") [sign] digitpart`, and a `digitpart` is digits
   * with single underscores between two digits. None when the character
   * cannot come next.
   */
  function Step(st: Scanned, c: char): Option<Scanned> {
    if st.previous == '_' && !IsDigit(c) then None
    else if IsDigit(c) then
      if st.part == ExponentPart then
        Some(st.(exponent := st.exponent * 10 + DigitValue(c), expDigits := st.expDigits + 1, previous := c))
      else
        Some(st.(mantissa := st.mantissa * 10 + DigitValue(c), digits := st.digits + 1,
                 scale := if st.part == FractionPart then st.scale + 1 else st.scale, previous := c))
    else if c == '_' then
      if IsDigit(st.previous) then Some(st.(previous := c)) else None
    else if c == '.' then
      if st.part == WholePart then Some(st.(part := FractionPart, previous := c)) else None
    else if c == 'e' || c == 'E' then
      if st.part != ExponentPart && st.digits > 0 then Some(st.(part := ExponentPart, previous := c)) else None
    else if c == '+' || c == '-' then
      if st.previous == 'e' || st.previous == 'E' then Some(st.(negative := c == '-', previous := c)) else None
    else
      None
  }

  /** Scanning a text from the left; None once a character cannot come next. */
  function Scan(s: string): Option<Scanned> {
    if s == [] then Some(ScanStart)
    else
      match Scan(s[..|s| - 1])
      case None => None
      case Some(st) => Step(st, s[|s| - 1])
  }

  /** A whole `floatnumber` has mantissa digits, does not end in `_`, and has exponent digits after an `e`. */
  predicate Complete(st: Scanned) {
    st.digits > 0 && st.previous != '_' && (st.part == ExponentPart ==> st.expDigits > 0)
  }

  /** The number scanned: the mantissa over ten to its scale, times ten to the exponent. */
  function Value(st: Scanned): (r: real)
    ensures r >= 0.0
  {
    var m := st.mantissa as real / Pow10(st.scale) as real;
    if st.negative then m / Pow10(st.exponent) as real else m * Pow10(st.exponent) as real
  }

  /** An unsigned `floatnumber`. */
  function ParseUnsignedFloat(s: string): (r: FloatParse)
    ensures r.Float? ==> r.value >= 0.0
  {
    match Scan(s)
    case None => NotFloat
    case Some(st) => if Complete(st) then Float(Value(st)) else NotFloat
  }

  /**
   * `float(text)` for finite numbers: surrounding whitespace, an optional
   * sign, then a `floatnumber`. A number needs a non-blank text, and only a
   * leading `-` makes it negative.
   */
  function ParseFloat(text: string): (r: FloatParse)
    ensures r.Float? ==> Strip(text) != []
    ensures r.Float? && r.value < 0.0 ==> Strip(text)[0] == '-'
  {
    var t := Strip(text);
    var signed := t != [] && (t[0] == '+' || t[0] == '-');
    match ParseUnsignedFloat(if signed then t[1..] else t)
    case NotFloat => NotFloat
    case Float(v) => Float(if signed && t[0] == '-' then -v else v)
  }

  function Pow60(n: nat): (r: real)
    ensures r >= 1.0
  {
    if n == 0 then 1.0 else 60.0 * Pow60(n - 1)
  }

  /** `float` applied to each part. */
  function PartValues(parts: seq<string>): (r: seq<FloatParse>)
    ensures |r| == |parts|
    ensures forall i | 0 <= i < |parts| :: r[i] == ParseFloat(parts[i])
  {
    if parts == [] then [] else [ParseFloat(parts[0])] + PartValues(parts[1..])
  }

  /** The sum of the values, the rightmost counting in seconds, each one to its left 60 times more. */
  function SumValues(values: seq<FloatParse>): FloatParse {
    if values == [] then Float(0.0)
    else
      match values[0]
      case NotFloat => NotFloat
      case Float(v) =>
        match SumValues(values[1..])
        case NotFloat => NotFloat
        case Float(rest) => Float(v * Pow60(|values| - 1) + rest)
  }

  /** What `parse_time_input(text)` returns or raises. */
  function TimeSpec(text: string): (r: TimeInput)
    ensures r == NoTime <==> Strip(text) == []
    ensures r.TimeValue? ==> |Split(Strip(text), ':')| <= 3
  {
    var cleaned := Strip(text);
    if cleaned == [] then NoTime
    else
      var parts := Split(cleaned, ':');
      if |parts| > 3 then BadTime
      else
        match SumValues(PartValues(parts))
        case Float(t) => TimeValue(t)
        case NotFloat => BadTime
  }

  /** One part that is not a number spoils the whole sum. */
  lemma {:induction false} SumValuesFails(values: seq<FloatParse>, j: nat)
    requires j < |values| && values[j] == NotFloat
    ensures SumValues(values) == NotFloat
  {
    if j > 0 {
      SumValuesFails(values[1..], j - 1);
    }
  }

  lemma ParseFloatEmpty()
    ensures ParseFloat("") == NotFloat
  {
    assert Strip("") == "";
  }

  /** Adding the value to the left of a suffix of the values. */
  lemma SumValuesStep(values: seq<FloatParse>, j: nat, k: nat, total: real, v: real, multiplier: real)
    requires k == j + 1 && k <= |values|
    requires values[j] == Float(v) && SumValues(values[k..]) == Float(total)
    requires multiplier == Pow60(|values| - k)
    ensures SumValues(values[j..]) == Float(total + v * multiplier)
    ensures multiplier * 60.0 == Pow60(|values| - j)
  {
    SumValuesCons(values, j, k, v, total, multiplier);
    Pow60Step(|values| - j, |values| - k);
  }

  /** A suffix's sum is its first value, scaled by its position, plus the rest. */
  lemma SumValuesCons(values: seq<FloatParse>, j: nat, k: nat, v: real, rest: real, multiplier: real)
    requires k == j + 1 && k <= |values|
    requires values[j] == Float(v) && SumValues(values[k..]) == Float(rest)
    requires multiplier == Pow60(|values| - k)
    ensures SumValues(values[j..]) == Float(rest + v * multiplier)
  {
    var suffix := values[j..];
    assert suffix[0] == Float(v) && suffix[1..] == values[k..];
    assert Pow60(|suffix| - 1) == multiplier;
  }

  lemma Pow60Step(n: nat, m: nat)
    requires n == m + 1
    ensures Pow60(m) * 60.0 == Pow60(n)
  {
  }

  /** The loop of `parse_time_input`; `NotFloat` stands for the `ValueError` it raises. */
  method SumParts(parts: seq<string>) returns (r: FloatParse)
    ensures r == SumValues(PartValues(parts))
  {
    ghost var values := PartValues(parts);
    assert |values| == |parts|;
    var total := 0.0;
    var multiplier := 1.0;
    var i := |parts|;
    while i > 0
      invariant 0 <= i <= |values|
      invariant SumValues(values[i..]) == Float(total)
      invariant multiplier == Pow60(|values| - i)
    {
      ghost var k := i;
      i := i - 1;
      var component := parts[i];
      if component == [] {
        ParseFloatEmpty();
        SumValuesFails(values, i);
        return NotFloat;
      }
      var value := ParseFloat(component);
      if value.NotFloat? {
        SumValuesFails(values, i);
        return NotFloat;
      }
      var v := value.value;
      assert values[i] == Float(v);
      SumValuesStep(values, i, k, total, v, multiplier);
      total := total + v * multiplier;
      multiplier := multiplier * 60.0;
    }
    assert values[0..] == values;
    return Float(total);
  }

  /** The number whose digits are those of `m` followed by `d`. */
  function Appended(m: nat, d: string): nat
    requires AllDigits(d)
  {
    m * Pow10(|d|) + DigitsValue(d)
  }

  /** Appending a digit to `m` followed by a run worth `v` of `p`'s length. */
  lemma ShiftDigit(m: nat, p: nat, v: nat, c: nat)
    ensures (m * p + v) * 10 + c == m * (p * 10) + (v * 10 + c)
  {
  }

  /** The state after mantissa digits `d`: one more decimal place each, counted in the scale after the point. */
  function MantissaAfter(st: Scanned, d: string): Scanned
    requires d != [] && AllDigits(d)
  {
    st.(mantissa := Appended(st.mantissa, d), digits := st.digits + |d|,
        scale := if st.part == FractionPart then st.scale + |d| else st.scale, previous := d[|d| - 1])
  }

  /** Digits of the mantissa add to it, one decimal place each. */
  lemma {:induction false} ScanMantissaDigits(p: string, d: string, st: Scanned)
    requires Scan(p) == Some(st) && st.part != ExponentPart
    requires d != [] && AllDigits(d)
    ensures Scan(p + d) == Some(MantissaAfter(st, d))
  {
    var c := d[|d| - 1];
    var e := d[..|d| - 1];
    assert p + d == (p + e) + [c];
    if e == [] {
      assert p + e == p;
      ScanThen(p, c, st);
      MantissaFirstDigit(st, d);
    } else {
      ScanMantissaDigits(p, e, st);
      ScanThen(p + e, c, MantissaAfter(st, e));
      MantissaNextDigit(st, d);
    }
  }

  /** The first digit of a run starts the mantissa's new digits. */
  lemma MantissaFirstDigit(st: Scanned, d: string)
    requires st.part != ExponentPart && |d| == 1 && AllDigits(d)
    ensures Step(st, d[0]) == Some(MantissaAfter(st, d))
  {
    assert DigitsValue(d) == DigitValue(d[0]);
  }

  /** One more digit of the mantissa shifts it by one decimal place. */
  lemma MantissaNextDigit(st: Scanned, d: string)
    requires st.part != ExponentPart && |d| >= 2 && AllDigits(d)
    ensures Step(MantissaAfter(st, d[..|d| - 1]), d[|d| - 1]) == Some(MantissaAfter(st, d))
  {
    var c := d[|d| - 1];
    var e := d[..|d| - 1];
    assert DigitsValue(d) == DigitsValue(e) * 10 + DigitValue(c);
    assert Pow10(|d|) == Pow10(|e|) * 10;
    ShiftDigit(st.mantissa, Pow10(|e|), DigitsValue(e), DigitValue(c));
  }

  /** The state after exponent digits `d`. */
  function ExponentAfter(st: Scanned, d: string): Scanned
    requires d != [] && AllDigits(d)
  {
    st.(exponent := Appended(st.exponent, d), expDigits := st.expDigits + |d|, previous := d[|d| - 1])
  }

  /** Digits of the exponent add to it. */
  lemma {:induction false} ScanExponentDigits(p: string, d: string, st: Scanned)
    requires Scan(p) == Some(st) && st.part == ExponentPart
    requires d != [] && AllDigits(d)
    ensures Scan(p + d) == Some(ExponentAfter(st, d))
  {
    var c := d[|d| - 1];
    var e := d[..|d| - 1];
    assert p + d == (p + e) + [c];
    if e == [] {
      assert p + e == p;
      ScanThen(p, c, st);
      assert DigitsValue(d) == DigitValue(c);
    } else {
      ScanExponentDigits(p, e, st);
      ScanThen(p + e, c, ExponentAfter(st, e));
      ExponentNextDigit(st, d);
    }
  }

  /** One more digit of the exponent shifts it by one decimal place. */
  lemma ExponentNextDigit(st: Scanned, d: string)
    requires st.part == ExponentPart && |d| >= 2 && AllDigits(d)
    ensures Step(ExponentAfter(st, d[..|d| - 1]), d[|d| - 1]) == Some(ExponentAfter(st, d))
  {
    var c := d[|d| - 1];
    var e := d[..|d| - 1];
    assert DigitsValue(d) == DigitsValue(e) * 10 + DigitValue(c);
    assert Pow10(|d|) == Pow10(|e|) * 10;
    ShiftDigit(st.exponent, Pow10(|e|), DigitsValue(e), DigitValue(c));
  }

  /** A run of digits scans as a whole number. */
  lemma ScanDigits(s: string)
    requires s != [] && AllDigits(s)
    ensures Scan(s) == Some(ScanStart.(mantissa := DigitsValue(s), digits := |s|, previous := s[|s| - 1]))
  {
    var empty: string := [];
    assert Scan(empty) == Some(ScanStart);
    ScanMantissaDigits(empty, s, ScanStart);
    assert empty + s == s;
    assert Appended(0, s) == DigitsValue(s);
    assert MantissaAfter(ScanStart, s) == ScanStart.(mantissa := DigitsValue(s), digits := |s|, previous := s[|s| - 1]);
  }

  /** A text whose first character is a digit carries no sign. */
  lemma UnsignedText(s: string)
    requires s != [] && IsDigit(s[0]) && !IsSpace(s[|s| - 1])
    ensures ParseFloat(s) == ParseUnsignedFloat(s)
  {
    StripNoOp(s);
  }

  /** Scanning one more character is one more step. */
  lemma ScanThen(p: string, c: char, st: Scanned)
    requires Scan(p) == Some(st)
    ensures Scan(p + [c]) == Step(st, c)
  {
    assert (p + [c])[..|p + [c]| - 1] == p;
  }

  /** A number without an exponent is its mantissa over ten to its scale. */
  lemma ValueWithoutExponent(st: Scanned)
    requires !st.negative && st.exponent == 0
    ensures Value(st) == st.mantissa as real / Pow10(st.scale) as real
  {
  }

  /** A whole mantissa with a positive exponent is the mantissa times ten to the exponent. */
  lemma ValueWholeExponent(st: Scanned, m: nat, x: nat)
    requires !st.negative && st.scale == 0 && st.mantissa == m && st.exponent == x
    ensures Value(st) == m as real * Pow10(x) as real
  {
    assert Pow10(0) == 1;
    assert st.mantissa as real / 1.0 == st.mantissa as real;
  }

  /** A run of digits reads as its integer value. */
  lemma ParseFloatDigits(s: string)
    requires s != [] && AllDigits(s)
    ensures ParseFloat(s) == Float(DigitsValue(s) as real)
  {
    UnsignedText(s);
    ScanDigits(s);
    ValueWithoutExponent(ScanStart.(mantissa := DigitsValue(s), digits := |s|, previous := s[|s| - 1]));
  }

  /** A whole part over a power of ten: `(a * p + b) / p` is `a + b / p`. */
  lemma SplitScaled(a: nat, b: nat, p: nat)
    requires p >= 1
    ensures (a * p + b) as real / p as real == a as real + b as real / p as real
  {
  }

  /** Digits and a point scan as a whole number in the fraction part. */
  lemma ScanPoint(a: string)
    requires a != [] && AllDigits(a)
    ensures Scan(a + ".") == Some(ScanStart.(part := FractionPart, mantissa := DigitsValue(a), digits := |a|, previous := '.'))
  {
    ScanDigits(a);
    ScanThen(a, '.', ScanStart.(mantissa := DigitsValue(a), digits := |a|, previous := a[|a| - 1]));
  }

  /** Digits, a point and digits scan as one mantissa with the fraction's length as its scale. */
  lemma ScanDecimal(a: string, b: string)
    requires a != [] && AllDigits(a) && b != [] && AllDigits(b)
    ensures Scan(a + "." + b) == Some(ScanStart.(
      part := FractionPart, mantissa := Appended(DigitsValue(a), b),
      digits := |a| + |b|, scale := |b|, previous := b[|b| - 1]))
  {
    ScanPoint(a);
    var p := a + ".";
    var st := ScanStart.(part := FractionPart, mantissa := DigitsValue(a), digits := |a|, previous := '.');
    ScanMantissaDigits(p, b, st);
    var st' := MantissaAfter(st, b);
    assert st'.scale == |b| && st'.digits == |a| + |b| && st'.mantissa == Appended(DigitsValue(a), b);
    assert st' == ScanStart.(
      part := FractionPart, mantissa := Appended(DigitsValue(a), b),
      digits := |a| + |b|, scale := |b|, previous := b[|b| - 1]);
  }

  /** Digits, a point and digits read as the whole part plus the fraction. */
  lemma ParseFloatDecimal(a: string, b: string)
    requires a != [] && AllDigits(a) && AllDigits(b)
    ensures ParseFloat(a + "." + b) == Float(DigitsValue(a) as real + FracValue(b))
  {
    if b == [] {
      assert a + "." + b == a + ".";
      ParseFloatTrailingPoint(a);
    } else {
      ParseFloatFraction(a, b);
    }
  }

  /** Digits and a point read as the digits' value: `5.` is 5. */
  lemma ParseFloatTrailingPoint(a: string)
    requires a != [] && AllDigits(a)
    ensures ParseFloat(a + ".") == Float(DigitsValue(a) as real)
  {
    var s := a + ".";
    assert s[0] == a[0] && s[|s| - 1] == '.';
    UnsignedText(s);
    ScanPoint(a);
    ValueWithoutExponent(ScanStart.(part := FractionPart, mantissa := DigitsValue(a), digits := |a|, previous := '.'));
  }

  /** Digits, a point and at least one digit read as the whole part plus the fraction. */
  lemma ParseFloatFraction(a: string, b: string)
    requires a != [] && AllDigits(a) && b != [] && AllDigits(b)
    ensures ParseFloat(a + "." + b) == Float(DigitsValue(a) as real + FracValue(b))
  {
    var s := a + "." + b;
    assert s[0] == a[0] && s[|s| - 1] == b[|b| - 1];
    UnsignedText(s);
    ScanDecimal(a, b);
    var st := ScanStart.(
      part := FractionPart, mantissa := Appended(DigitsValue(a), b),
      digits := |a| + |b|, scale := |b|, previous := b[|b| - 1]);
    ValueWithoutExponent(st);
    SplitScaled(DigitsValue(a), DigitsValue(b), Pow10(|b|));
  }

  /** Digits and an `e` scan as a whole number in the exponent part. */
  lemma ScanMarker(a: string)
    requires a != [] && AllDigits(a)
    ensures Scan(a + "e") == Some(ScanStart.(part := ExponentPart, mantissa := DigitsValue(a), digits := |a|, previous := 'e'))
  {
    ScanDigits(a);
    ScanThen(a, 'e', ScanStart.(mantissa := DigitsValue(a), digits := |a|, previous := a[|a| - 1]));
  }

  /** Digits, `e` and digits read as the mantissa times a power of ten: `1e2` is 100. */
  lemma ParseFloatExponent(a: string, e: string, m: nat, x: nat)
    requires a != [] && AllDigits(a) && e != [] && AllDigits(e)
    requires m == DigitsValue(a) && x == DigitsValue(e)
    ensures ParseFloat(a + "e" + e) == Float(m as real * Pow10(x) as real)
  {
    var s := a + "e" + e;
    assert s[0] == a[0] && s[|s| - 1] == e[|e| - 1];
    UnsignedText(s);
    ScanMarker(a);
    var marked := ScanStart.(part := ExponentPart, mantissa := DigitsValue(a), digits := |a|, previous := 'e');
    ScanExponentDigits(a + "e", e, marked);
    var last := ExponentAfter(marked, e);
    assert Appended(0, e) == DigitsValue(e);
    assert last == marked.(exponent := DigitsValue(e), expDigits := |e|, previous := e[|e| - 1]);
    assert Complete(last);
    ValueWholeExponent(last, m, x);
  }

  /** The value of digits followed by more digits. */
  lemma {:induction false} DigitsValueAppend(a: string, b: string)
    requires AllDigits(a) && AllDigits(b)
    ensures AllDigits(a + b)
    ensures DigitsValue(a + b) == Appended(DigitsValue(a), b)
  {
    if b != [] {
      var e := b[..|b| - 1];
      assert (a + b)[..|a + b| - 1] == a + e;
      DigitsValueAppend(a, e);
      ShiftDigit(DigitsValue(a), Pow10(|e|), DigitsValue(e), DigitValue(b[|b| - 1]));
      assert Pow10(|b|) == Pow10(|e|) * 10;
    } else {
      assert a + b == a;
    }
  }

  /** An underscore between two runs of digits is ignored: `1_000` is 1000. */
  lemma ParseFloatUnderscore(a: string, b: string)
    requires a != [] && AllDigits(a) && b != [] && AllDigits(b)
    ensures AllDigits(a + b)
    ensures ParseFloat(a + "_" + b) == Float(DigitsValue(a + b) as real)
  {
    var s := a + "_" + b;
    assert s[0] == a[0] && s[|s| - 1] == b[|b| - 1];
    UnsignedText(s);
    ScanUnderscore(a, b);
    DigitsValueAppend(a, b);
    ValueWithoutExponent(ScanStart.(mantissa := Appended(DigitsValue(a), b), digits := |a| + |b|, previous := b[|b| - 1]));
  }

  /** Digits, an underscore and digits scan as one run of digits. */
  lemma ScanUnderscore(a: string, b: string)
    requires a != [] && AllDigits(a) && b != [] && AllDigits(b)
    ensures Scan(a + "_" + b) == Some(ScanStart.(mantissa := Appended(DigitsValue(a), b), digits := |a| + |b|, previous := b[|b| - 1]))
  {
    ScanDigits(a);
    var digits := ScanStart.(mantissa := DigitsValue(a), digits := |a|, previous := a[|a| - 1]);
    ScanThen(a, '_', digits);
    var joined := ScanStart.(mantissa := DigitsValue(a), digits := |a|, previous := '_');
    assert Step(digits, '_') == Some(joined);
    ScanMantissaDigits(a + "_", b, joined);
    assert MantissaAfter(joined, b) == ScanStart.(mantissa := Appended(DigitsValue(a), b), digits := |a| + |b|, previous := b[|b| - 1]);
  }

  /** Once a character cannot come next, nothing after it helps. */
  lemma ScanStuck(p: string, c: char)
    requires Scan(p) == None
    ensures Scan(p + [c]) == None
  {
    assert (p + [c])[..|p + [c]| - 1] == p;
  }

  /** `1`, then `1_`: a digit, then an underscore waiting for the next digit. */
  lemma ScanOneUnderscore()
    ensures Scan("1") == Some(ScanStart.(mantissa := 1, digits := 1, previous := '1'))
    ensures Scan("1_") == Some(ScanStart.(mantissa := 1, digits := 1, previous := '_'))
  {
    var one := ScanStart.(mantissa := 1, digits := 1, previous := '1');
    ScanDigits("1");
    ScanThen("1", '_', one);
    assert "1" + ['_'] == "1_";
  }

  /** `1__0`: a second underscore cannot follow the first. */
  lemma DoubleUnderscoreRejected()
    ensures ParseFloat("1__0") == NotFloat
  {
    ScanOneUnderscore();
    ScanThen("1_", '_', ScanStart.(mantissa := 1, digits := 1, previous := '_'));
    assert "1_" + ['_'] == "1__";
    ScanStuck("1__", '0');
    assert "1__" + ['0'] == "1__0";
    UnsignedText("1__0");
  }

  /** `_1`: an underscore needs a digit before it. */
  lemma LeadingUnderscoreRejected()
    ensures ParseFloat("_1") == NotFloat
  {
    var empty: string := [];
    assert Scan(empty) == Some(ScanStart);
    ScanThen(empty, '_', ScanStart);
    assert empty + ['_'] == "_";
    ScanStuck("_", '1');
    assert "_" + ['1'] == "_1";
    StripNoOp("_1");
  }

  /** `1_`: an underscore needs a digit after it. */
  lemma TrailingUnderscoreRejected()
    ensures ParseFloat("1_") == NotFloat
  {
    ScanOneUnderscore();
    UnsignedText("1_");
  }

  /** `1e`: an exponent needs digits. */
  lemma EmptyExponentRejected()
    ensures ParseFloat("1e") == NotFloat
  {
    ScanOneUnderscore();
    ScanThen("1", 'e', ScanStart.(mantissa := 1, digits := 1, previous := '1'));
    assert "1" + ['e'] == "1e";
    UnsignedText("1e");
  }

  /** `1.2.3`: a number has at most one point. */
  lemma SecondPointRejected()
    ensures ParseFloat("1.2.3") == NotFloat
  {
    ScanDecimal("1", "2");
    assert "1" + "." + "2" == "1.2";
    var decimal := ScanStart.(part := FractionPart, mantissa := Appended(DigitsValue("1"), "2"), digits := 2, scale := 1, previous := '2');
    ScanThen("1.2", '.', decimal);
    assert "1.2" + ['.'] == "1.2.";
    ScanStuck("1.2.", '3');
    assert "1.2." + ['3'] == "1.2.3";
    UnsignedText("1.2.3");
  }

  /**
   * Malformed numbers are refused: a doubled, leading or trailing underscore,
   * an exponent without digits, and a second point.
   */
  lemma ParseFloatRejects()
    ensures ParseFloat("1__0") == NotFloat
    ensures ParseFloat("_1") == NotFloat
    ensures ParseFloat("1_") == NotFloat
    ensures ParseFloat("1e") == NotFloat
    ensures ParseFloat("1.2.3") == NotFloat
  {
    DoubleUnderscoreRejected();
    LeadingUnderscoreRejected();
    TrailingUnderscoreRejected();
    EmptyExponentRejected();
    SecondPointRejected();
  }

  /** `1e2` reads as 100 seconds, since `float` accepts an exponent. */
  lemma TimeSpecExponentExample()
    ensures TimeSpec("1e2") == TimeValue(100.0)
  {
    var s := "1e2";
    assert s == "1" + "e" + "2";
    ParseFloatExponent("1", "2", 1, 2);
    assert Pow10(2) == 100;
    StripNoOp(s);
    SplitNoSep(s, ':');
    assert PartValues([s]) == [Float(100.0)];
    assert SumValues([Float(100.0)]) == Float(100.0);
  }

  /** Trailing zeros add nothing to a fraction. */
  lemma {:induction false} FracValueTrailingZeros(s: string)
    requires AllDigits(s)
    ensures AllDigits(RStrip(s, Chars({'0', '.'})))
    ensures FracValue(RStrip(s, Chars({'0', '.'}))) == FracValue(s)
  {
    if s != [] && s[|s| - 1] in {'0', '.'} {
      var t := s[..|s| - 1];
      FracValueTrailingZeros(t);
      assert DigitsValue(s) == DigitsValue(t) * 10;
      ScaleFraction(DigitsValue(t) as real, Pow10(|t|) as real);
    }
  }

  lemma ScaleFraction(a: real, b: real)
    requires b > 0.0
    ensures (a * 10.0) / (b * 10.0) == a / b
  {
  }

  /** Stripping the zeros of a non-zero fraction leaves a digit. */
  lemma {:induction false} RStripNonZero(s: string)
    requires AllDigits(s) && DigitsValue(s) > 0
    ensures RStrip(s, Chars({'0', '.'})) != []
  {
    if s != [] && s[|s| - 1] in {'0', '.'} {
      RStripNonZero(s[..|s| - 1]);
    }
  }

  /** A run of digits is a field of a time text that reads as its value. */
  lemma DigitsField(s: string)
    requires s != [] && AllDigits(s)
    ensures IsTimeField(s) && ParseFloat(s) == Float(DigitsValue(s) as real)
  {
    ParseFloatDigits(s);
  }

  /** `ss.f` is a field of a time text that reads as seconds plus the fraction. */
  lemma DecimalField(ss: string, f: string)
    requires ss != [] && AllDigits(ss) && f != [] && AllDigits(f)
    ensures IsTimeField(ss + "." + f)
    ensures ParseFloat(ss + "." + f) == Float(DigitsValue(ss) as real + FracValue(f))
  {
    var last := ss + "." + f;
    ParseFloatDecimal(ss, f);
    assert last[0] == ss[0] && last[|last| - 1] == f[|f| - 1];
    assert forall i | 0 <= i < |last| :: last[i] != ':' by {
      forall i | 0 <= i < |last| ensures last[i] != ':' {
        if i < |ss| { assert last[i] == ss[i]; }
        else if i > |ss| { assert last[i] == f[i - |ss| - 1]; }
      }
    }
  }

  /** `rstrip("0.")` of a text ending in a non-zero fraction only trims the fraction. */
  lemma StrippedFraction(prefix: string, frac: string)
    requires AllDigits(frac) && DigitsValue(frac) > 0
    ensures var f := RStrip(frac, Chars({'0', '.'}));
      && f != [] && AllDigits(f) && FracValue(f) == FracValue(frac)
      && RStrip(prefix + frac, Chars({'0', '.'})) == prefix + f
  {
    RStripNonZero(frac);
    FracValueTrailingZeros(frac);
    RStripAppend(prefix, frac, Chars({'0', '.'}));
  }

  /** Three digits of milliseconds read as that many thousandths. */
  lemma MillisFraction(millis: nat)
    requires 0 < millis < 1000
    ensures AllDigits(ZeroPad(millis, 3)) && DigitsValue(ZeroPad(millis, 3)) > 0
    ensures FracValue(ZeroPad(millis, 3)) == millis as real / 1000.0
  {
    assert Pow10(3) == 1000;
    assert |ZeroPad(millis, 3)| == 3;
  }

  /** A field of a time text: not empty, no colon, no whitespace at either end. */
  predicate IsTimeField(s: string) {
    s != [] && !IsSpace(s[0]) && !IsSpace(s[|s| - 1]) && forall i | 0 <= i < |s| :: s[i] != ':'
  }

  lemma SumValuesTwo(x: real, y: real)
    ensures SumValues([Float(x), Float(y)]) == Float(x * 60.0 + y)
  {
    var s := [Float(x), Float(y)];
    assert s[1..] == [Float(y)] && s[1..][1..] == [];
    var empty := SumValues(s[1..][1..]);
    assert empty.Float? && empty.value == 0.0;
    assert Pow60(0) == 1.0 && Pow60(1) == 60.0;
    var inner := SumValues(s[1..]);
    assert inner.Float? && inner.value == y;
    var sum := SumValues(s);
    assert sum.Float? && sum.value == x * 60.0 + y;
  }

  lemma SumValuesThree(x: real, y: real, z: real)
    ensures SumValues([Float(x), Float(y), Float(z)]) == Float(x * 3600.0 + y * 60.0 + z)
  {
    var s := [Float(x), Float(y), Float(z)];
    assert s[1..] == [Float(y), Float(z)];
    SumValuesTwo(y, z);
    var sum := SumValues(s);
    assert sum.Float? && sum.value == x * 3600.0 + y * 60.0 + z;
  }

  /** Text that needs no stripping reads as the sum of its parts. */
  lemma TimeSpecOfParts(text: string, parts: seq<string>, t: real)
    requires text != [] && !IsSpace(text[0]) && !IsSpace(text[|text| - 1])
    requires Split(text, ':') == parts && |parts| <= 3
    requires SumValues(PartValues(parts)) == Float(t)
    ensures TimeSpec(text) == TimeValue(t)
  {
    StripNoOp(text);
  }

  lemma SplitTwo(a: string, b: string)
    requires forall i | 0 <= i < |a| :: a[i] != ':'
    requires forall i | 0 <= i < |b| :: b[i] != ':'
    ensures Split(a + ":" + b, ':') == [a, b]
  {
    SplitAppend(a, b, ':');
    SplitNoSep(b, ':');
  }

  lemma SplitThree(a: string, b: string, c: string)
    requires forall i | 0 <= i < |a| :: a[i] != ':'
    requires forall i | 0 <= i < |b| :: b[i] != ':'
    requires forall i | 0 <= i < |c| :: c[i] != ':'
    ensures Split(a + ":" + (b + ":" + c), ':') == [a, b, c]
  {
    SplitAppend(a, b + ":" + c, ':');
    SplitTwo(b, c);
  }

  lemma PartValuesTwo(a: string, b: string, x: real, y: real)
    requires ParseFloat(a) == Float(x) && ParseFloat(b) == Float(y)
    ensures SumValues(PartValues([a, b])) == Float(x * 60.0 + y)
  {
    assert PartValues([a, b]) == [Float(x), Float(y)];
    SumValuesTwo(x, y);
  }

  lemma PartValuesThree(a: string, b: string, c: string, x: real, y: real, z: real)
    requires ParseFloat(a) == Float(x) && ParseFloat(b) == Float(y) && ParseFloat(c) == Float(z)
    ensures SumValues(PartValues([a, b, c])) == Float(x * 3600.0 + y * 60.0 + z)
  {
    assert PartValues([a, b, c]) == [Float(x), Float(y), Float(z)];
    SumValuesThree(x, y, z);
  }

  /** `mm:ss`-shaped text reads as minutes and seconds. */
  lemma TimeSpecTwoFields(a: string, b: string, x: real, y: real)
    requires IsTimeField(a) && IsTimeField(b)
    requires ParseFloat(a) == Float(x) && ParseFloat(b) == Float(y)
    ensures TimeSpec(a + ":" + b) == TimeValue(x * 60.0 + y)
  {
    var text := a + ":" + b;
    assert text[0] == a[0] && text[|text| - 1] == b[|b| - 1];
    SplitTwo(a, b);
    PartValuesTwo(a, b, x, y);
    TimeSpecOfParts(text, [a, b], x * 60.0 + y);
  }

  /** `hh:mm:ss`-shaped text reads as hours, minutes and seconds. */
  lemma TimeSpecThreeFields(a: string, b: string, c: string, x: real, y: real, z: real)
    requires IsTimeField(a) && IsTimeField(b) && IsTimeField(c)
    requires ParseFloat(a) == Float(x) && ParseFloat(b) == Float(y) && ParseFloat(c) == Float(z)
    ensures TimeSpec(a + ":" + (b + ":" + c)) == TimeValue(x * 3600.0 + y * 60.0 + z)
  {
    var text := a + ":" + (b + ":" + c);
    assert text[0] == a[0] && text[|text| - 1] == c[|c| - 1];
    SplitThree(a, b, c);
    PartValuesThree(a, b, c, x, y, z);
    TimeSpecOfParts(text, [a, b, c], x * 3600.0 + y * 60.0 + z);
  }

  /**
   * Blank text means no time; more than three fields, or an empty field
   * (`float("")` fails), is a bad time.
   */
  lemma TimeSpecRejects(text: string)
    ensures Strip(text) == [] ==> TimeSpec(text) == NoTime
    ensures Strip(text) != [] && |Split(Strip(text), ':')| > 3 ==> TimeSpec(text) == BadTime
    ensures Strip(text) != [] && [] in Split(Strip(text), ':') ==> TimeSpec(text) == BadTime
  {
    var parts := Split(Strip(text), ':');
    if Strip(text) != [] && |parts| <= 3 && [] in parts {
      var j :| 0 <= j < |parts| && parts[j] == [];
      ParseFloatEmpty();
      SumValuesFails(PartValues(parts), j);
    }
  }

  /** Equal texts read the same; stated apart so that callers need not unfold `TimeSpec`. */
  lemma SameTimeSpec(a: string, b: string)
    requires a == b
    ensures TimeSpec(a) == TimeSpec(b)
  {
  }

  /** `mm:ss` with digit fields reads as minutes and seconds. */
  lemma ReadBackWholeSeconds(mm: string, ss: string)
    requires mm != [] && AllDigits(mm) && ss != [] && AllDigits(ss)
    ensures TimeSpec(mm + ":" + ss) == TimeValue(DigitsValue(mm) as real * 60.0 + DigitsValue(ss) as real)
  {
    DigitsField(mm);
    DigitsField(ss);
    TimeSpecTwoFields(mm, ss, DigitsValue(mm) as real, DigitsValue(ss) as real);
  }

  /** `mm:ss.f` with digit fields reads as minutes, seconds and the fraction. */
  lemma MinutesText(mm: string, ss: string, f: string)
    requires mm != [] && AllDigits(mm) && ss != [] && AllDigits(ss) && f != [] && AllDigits(f)
    ensures TimeSpec(mm + ":" + (ss + "." + f))
         == TimeValue(DigitsValue(mm) as real * 60.0 + (DigitsValue(ss) as real + FracValue(f)))
  {
    DecimalField(ss, f);
    MinutesThen(mm, ss + "." + f, DigitsValue(ss) as real + FracValue(f));
  }

  /** Digit minutes followed by any seconds field. */
  lemma MinutesThen(mm: string, c: string, z: real)
    requires mm != [] && AllDigits(mm)
    requires IsTimeField(c) && ParseFloat(c) == Float(z)
    ensures TimeSpec(mm + ":" + c) == TimeValue(DigitsValue(mm) as real * 60.0 + z)
  {
    DigitsField(mm);
    TimeSpecTwoFields(mm, c, DigitsValue(mm) as real, z);
  }

  /** `hh:mm:ss.f` with digit fields reads as hours, minutes, seconds and the fraction. */
  lemma HoursText(hh: string, mm: string, ss: string, f: string)
    requires hh != [] && AllDigits(hh) && mm != [] && AllDigits(mm)
    requires ss != [] && AllDigits(ss) && f != [] && AllDigits(f)
    ensures TimeSpec(hh + ":" + (mm + ":" + (ss + "." + f)))
         == TimeValue(DigitsValue(hh) as real * 3600.0 + DigitsValue(mm) as real * 60.0
                      + (DigitsValue(ss) as real + FracValue(f)))
  {
    DecimalField(ss, f);
    HoursMinutesThen(hh, mm, ss + "." + f, DigitsValue(ss) as real + FracValue(f));
  }

  /** Digit hours and minutes followed by any seconds field. */
  lemma HoursMinutesThen(hh: string, mm: string, c: string, z: real)
    requires hh != [] && AllDigits(hh) && mm != [] && AllDigits(mm)
    requires IsTimeField(c) && ParseFloat(c) == Float(z)
    ensures TimeSpec(hh + ":" + (mm + ":" + c))
         == TimeValue(DigitsValue(hh) as real * 3600.0 + DigitsValue(mm) as real * 60.0 + z)
  {
    DigitsField(hh);
    DigitsField(mm);
    TimeSpecThreeFields(hh, mm, c, DigitsValue(hh) as real, DigitsValue(mm) as real, z);
  }

  lemma RegroupHours(a: string, b: string, c: string, d: string)
    ensures a + ":" + b + ":" + c + "." + d == a + ":" + (b + ":" + (c + "." + d))
  {
  }

  /** `hh:mm:ss.fff` with its trailing zeros stripped keeps its fields and a shorter fraction. */
  lemma StrippedHours(hh: string, mm: string, ss: string, frac: string)
    requires AllDigits(frac) && DigitsValue(frac) > 0
    ensures var f := RStrip(frac, Chars({'0', '.'}));
      && f != [] && AllDigits(f) && FracValue(f) == FracValue(frac)
      && RStrip(hh + ":" + mm + ":" + ss + "." + frac, Chars({'0', '.'})) == hh + ":" + (mm + ":" + (ss + "." + f))
  {
    StrippedFraction(hh + ":" + mm + ":" + ss + ".", frac);
    RegroupHours(hh, mm, ss, RStrip(frac, Chars({'0', '.'})));
  }

  /** A count of milliseconds is its hours, minutes, seconds and thousandths. */
  lemma SplitMillis(totalMs: nat)
    ensures var seconds := totalMs / 1000;
      totalMs as real / 1000.0
        == (seconds / 60 / 60) as real * 3600.0 + (seconds / 60 % 60) as real * 60.0
           + ((seconds % 60) as real + (totalMs % 1000) as real / 1000.0)
  {
    var seconds := totalMs / 1000;
    var minutes := seconds / 60;
    assert totalMs == seconds * 1000 + totalMs % 1000;
    assert seconds == minutes * 60 + seconds % 60;
    assert minutes == minutes / 60 * 60 + minutes % 60;
  }

  /** A count with a non-zero hour part is at least an hour. */
  lemma HoursBound(totalMs: nat)
    ensures totalMs / 1000 / 60 / 60 > 0 <==> totalMs >= 3_600_000
  {
  }

  /** The text `format_timestamp` gives a time of an hour or more with a millisecond part. */
  lemma HoursFormatted(totalMs: nat)
    requires totalMs / 1000 / 60 / 60 > 0 && totalMs % 1000 != 0
    ensures var seconds := totalMs / 1000;
      var f := RStrip(ZeroPad(totalMs % 1000, 3), Chars({'0', '.'}));
      && f != [] && AllDigits(f) && FracValue(f) == (totalMs % 1000) as real / 1000.0
      && FormatTimestamp(totalMs)
         == ZeroPad(seconds / 60 / 60, 2) + ":" + (ZeroPad(seconds / 60 % 60, 2) + ":" + (ZeroPad(seconds % 60, 2) + "." + f))
  {
    var seconds, millis := totalMs / 1000, totalMs % 1000;
    var hh, mm, ss, fff := ZeroPad(seconds / 60 / 60, 2), ZeroPad(seconds / 60 % 60, 2), ZeroPad(seconds % 60, 2), ZeroPad(millis, 3);
    assert FormatTimestamp(totalMs) == RStrip(hh + ":" + mm + ":" + ss + "." + fff, Chars({'0', '.'}));
    MillisFraction(millis);
    StrippedHours(hh, mm, ss, fff);
  }

  /** A formatted time of an hour or more with a millisecond part reads back as itself. */
  lemma RoundTripHours(totalMs: nat)
    requires totalMs / 1000 / 60 / 60 > 0 && totalMs % 1000 != 0
    ensures TimeSpec(FormatTimestamp(totalMs)) == TimeValue(totalMs as real / 1000.0)
  {
    var seconds := totalMs / 1000;
    HoursFormatted(totalMs);
    ReadsAsHours(totalMs, seconds / 60 / 60, seconds / 60 % 60, seconds % 60,
                 RStrip(ZeroPad(totalMs % 1000, 3), Chars({'0', '.'})));
    SplitMillis(totalMs);
  }

  /** A formatted `hh:mm:ss.f` reads back as those numbers. */
  lemma ReadsAsHours(totalMs: nat, h: nat, m: nat, s: nat, f: string)
    requires f != [] && AllDigits(f)
    requires FormatTimestamp(totalMs) == ZeroPad(h, 2) + ":" + (ZeroPad(m, 2) + ":" + (ZeroPad(s, 2) + "." + f))
    ensures TimeSpec(FormatTimestamp(totalMs))
         == TimeValue(h as real * 3600.0 + m as real * 60.0 + (s as real + FracValue(f)))
  {
    PaddedHoursRead(h, m, s, f);
  }

  lemma PaddedHoursRead(h: nat, m: nat, s: nat, f: string)
    requires f != [] && AllDigits(f)
    ensures TimeSpec(ZeroPad(h, 2) + ":" + (ZeroPad(m, 2) + ":" + (ZeroPad(s, 2) + "." + f)))
         == TimeValue(h as real * 3600.0 + m as real * 60.0 + (s as real + FracValue(f)))
  {
    HoursText(ZeroPad(h, 2), ZeroPad(m, 2), ZeroPad(s, 2), f);
  }

  /** Below an hour, the formatted text is `mm:ss.f` with the zeros of the milliseconds stripped. */
  lemma MinutesFormatted(totalMs: nat)
    requires totalMs / 1000 / 60 / 60 == 0 && totalMs % 1000 != 0
    ensures var seconds := totalMs / 1000;
      var f := RStrip(ZeroPad(totalMs % 1000, 3), Chars({'0', '.'}));
      && f != [] && AllDigits(f) && FracValue(f) == (totalMs % 1000) as real / 1000.0
      && FormatTimestamp(totalMs) == ZeroPad(seconds / 60 % 60, 2) + ":" + (ZeroPad(seconds % 60, 2) + "." + f)
  {
    var seconds, millis := totalMs / 1000, totalMs % 1000;
    var mm, ss, fff := ZeroPad(seconds / 60 % 60, 2), ZeroPad(seconds % 60, 2), ZeroPad(millis, 3);
    MinutesUnfolded(totalMs);
    MillisFraction(millis);
    StrippedFraction(mm + ":" + ss + ".", fff);
    RegroupMinutes(mm, ss, RStrip(fff, Chars({'0', '.'})));
  }

  /** Below an hour with a millisecond part, `format_timestamp` strips the zeros of `mm:ss.fff`. */
  lemma MinutesUnfolded(totalMs: nat)
    requires totalMs / 1000 / 60 / 60 == 0 && totalMs % 1000 != 0
    ensures var seconds := totalMs / 1000;
      FormatTimestamp(totalMs)
      == RStrip(ZeroPad(seconds / 60 % 60, 2) + ":" + ZeroPad(seconds % 60, 2) + "." + ZeroPad(totalMs % 1000, 3), Chars({'0', '.'}))
  {
  }

  lemma RegroupMinutes(a: string, b: string, c: string)
    ensures a + ":" + b + "." + c == a + ":" + (b + "." + c)
  {
  }

  /** A formatted time below an hour with a millisecond part reads back as itself. */
  lemma RoundTripMinutes(totalMs: nat)
    requires totalMs / 1000 / 60 / 60 == 0 && totalMs % 1000 != 0
    ensures TimeSpec(FormatTimestamp(totalMs)) == TimeValue(totalMs as real / 1000.0)
  {
    var seconds := totalMs / 1000;
    MinutesFormatted(totalMs);
    ReadsAsMinutes(totalMs, seconds / 60 % 60, seconds % 60, RStrip(ZeroPad(totalMs % 1000, 3), Chars({'0', '.'})));
    SplitMillis(totalMs);
  }

  /** A formatted `mm:ss.f` reads back as those numbers. */
  lemma ReadsAsMinutes(totalMs: nat, m: nat, s: nat, f: string)
    requires f != [] && AllDigits(f)
    requires FormatTimestamp(totalMs) == ZeroPad(m, 2) + ":" + (ZeroPad(s, 2) + "." + f)
    ensures TimeSpec(FormatTimestamp(totalMs)) == TimeValue(m as real * 60.0 + (s as real + FracValue(f)))
  {
    PaddedMinutesRead(m, s, f);
  }

  lemma PaddedMinutesRead(m: nat, s: nat, f: string)
    requires f != [] && AllDigits(f)
    ensures TimeSpec(ZeroPad(m, 2) + ":" + (ZeroPad(s, 2) + "." + f))
         == TimeValue(m as real * 60.0 + (s as real + FracValue(f)))
  {
    MinutesText(ZeroPad(m, 2), ZeroPad(s, 2), f);
  }

  /** A formatted time below an hour in whole seconds reads back as itself. */
  lemma RoundTripWholeSeconds(totalMs: nat)
    requires totalMs / 1000 / 60 / 60 == 0 && totalMs % 1000 == 0
    ensures TimeSpec(FormatTimestamp(totalMs)) == TimeValue(totalMs as real / 1000.0)
  {
    var seconds := totalMs / 1000;
    ReadsAsWholeSeconds(totalMs, seconds / 60 % 60, seconds % 60);
    SplitMillis(totalMs);
  }

  /** A formatted `mm:ss` reads back as those numbers. */
  lemma ReadsAsWholeSeconds(totalMs: nat, m: nat, s: nat)
    requires FormatTimestamp(totalMs) == ZeroPad(m, 2) + ":" + ZeroPad(s, 2)
    ensures TimeSpec(FormatTimestamp(totalMs)) == TimeValue(m as real * 60.0 + s as real)
  {
    PaddedWholeSecondsRead(m, s);
  }

  lemma PaddedWholeSecondsRead(m: nat, s: nat)
    ensures TimeSpec(ZeroPad(m, 2) + ":" + ZeroPad(s, 2)) == TimeValue(m as real * 60.0 + s as real)
  {
    ReadBackWholeSeconds(ZeroPad(m, 2), ZeroPad(s, 2));
  }

  /**
   * Reading back a formatted time gives the time again, to the millisecond,
   * for every time below an hour and every time with a non-zero millisecond part.
   */
  lemma FormatTimestampRoundTrip(totalMs: nat)
    requires totalMs < 3_600_000 || totalMs % 1000 != 0
    ensures TimeSpec(FormatTimestamp(totalMs)) == TimeValue(totalMs as real / 1000.0)
  {
    HoursBound(totalMs);
    if totalMs / 1000 / 60 / 60 > 0 {
      RoundTripHours(totalMs);
    } else if totalMs % 1000 != 0 {
      RoundTripMinutes(totalMs);
    } else {
      RoundTripWholeSeconds(totalMs);
    }
  }

  lemma ZeroFields()
    ensures ZeroPad(0, 2) == "00" && ZeroPad(0, 3) == "000"
  {
    ZeroTwo();
    ZeroThree();
  }

  lemma ZeroTwo()
    ensures ZeroPad(0, 2) == "00"
  {
    var two := ZeroPad(0, 2);
    assert two == [two[0]] + two[1..];
  }

  lemma ZeroThree()
    ensures ZeroPad(0, 3) == "000"
  {
    var three := ZeroPad(0, 3);
    assert three == [three[0], three[1]] + three[2..];
  }

  /** Two-digit tens: the first digit counts the tens, the second is `0`. */
  lemma TensField(s: nat)
    requires 10 <= s < 100 && s % 10 == 0
    ensures ZeroPad(s, 2) == [DigitChar(s / 10), '0'] && DigitChar(s / 10) != '0'
  {
    var r := ZeroPad(s, 2);
    assert Pow10(2) == 100;
    assert |r| == 2;
    assert r[..1][..0] == [];
    assert DigitsValue(r) == DigitValue(r[0]) * 10 + DigitValue(r[1]);
    assert DigitValue(r[1]) == 0 && DigitValue(r[0]) == s / 10;
    assert r == [r[0], r[1]];
  }

  /** A count of whole minutes has no seconds and no milliseconds. */
  lemma WholeMinuteParts(totalMs: nat)
    requires totalMs % 60_000 == 0
    ensures totalMs % 1000 == 0 && totalMs / 1000 % 60 == 0
  {
    var k := totalMs / 60_000;
    assert totalMs == k * 60 * 1000;
    assert totalMs / 1000 == k * 60;
  }

  /** A count of whole tens of seconds has a seconds field that is a multiple of ten. */
  lemma TenSecondParts(totalMs: nat)
    requires totalMs % 10_000 == 0 && totalMs % 60_000 != 0
    ensures totalMs % 1000 == 0
    ensures var s := totalMs / 1000 % 60; 10 <= s < 60 && s % 10 == 0
  {
    var k := totalMs / 10_000;
    var q, r := k / 6, k % 6;
    assert totalMs == 60_000 * q + 10_000 * r;
    DivModUnique(totalMs, 60_000, q, 10_000 * r);
    DivModUnique(totalMs, 1000, 60 * q + 10 * r, 0);
    DivModUnique(60 * q + 10 * r, 60, q, 10 * r);
  }

  /** From an hour on, `format_timestamp` writes every field and strips the text. */
  lemma HoursShape(totalMs: nat)
    requires totalMs >= 3_600_000
    ensures var seconds := totalMs / 1000;
      FormatTimestamp(totalMs)
        == RStrip(ZeroPad(seconds / 60 / 60, 2) + ":" + ZeroPad(seconds / 60 % 60, 2) + ":"
                  + ZeroPad(seconds % 60, 2) + "." + ZeroPad(totalMs % 1000, 3), Chars({'0', '.'}))
  {
    HoursBound(totalMs);
  }

  lemma StripZeroSeconds(hh: string, mm: string)
    ensures RStrip(hh + ":" + mm + ":" + "00" + "." + "000", Chars({'0', '.'})) == hh + ":" + mm + ":"
  {
    assert hh + ":" + mm + ":" + "00" + "." + "000" == (hh + ":" + mm + ":") + "00.000";
    RStripDropsClassSuffix(hh + ":" + mm + ":", "00.000", Chars({'0', '.'}));
  }

  lemma StripTensZero(hh: string, mm: string, d: char)
    requires d != '0' && d != '.'
    ensures RStrip(hh + ":" + mm + ":" + [d, '0'] + "." + "000", Chars({'0', '.'})) == hh + ":" + mm + ":" + [d]
  {
    assert hh + ":" + mm + ":" + [d, '0'] + "." + "000" == (hh + ":" + mm + ":" + [d]) + "0.000";
    RStripDropsClassSuffix(hh + ":" + mm + ":" + [d], "0.000", Chars({'0', '.'}));
  }

  /**
   * From an hour on, a time in whole minutes loses its whole seconds field
   * to `rstrip("0.")`: the text ends in the colon after the minutes.
   */
  lemma FormatTimestampDropsSeconds(totalMs: nat)
    requires totalMs >= 3_600_000 && totalMs % 60_000 == 0
    ensures FormatTimestamp(totalMs)
         == ZeroPad(totalMs / 1000 / 60 / 60, 2) + ":" + ZeroPad(totalMs / 1000 / 60 % 60, 2) + ":"
  {
    HoursShape(totalMs);
    WholeMinuteParts(totalMs);
    ZeroFields();
    StripZeroSeconds(ZeroPad(totalMs / 1000 / 60 / 60, 2), ZeroPad(totalMs / 1000 / 60 % 60, 2));
  }

  /** `hh:mm:` ends in an empty field, which is not a number. */
  lemma EmptySecondsRejected(hh: string, mm: string)
    requires hh != [] && AllDigits(hh) && mm != [] && AllDigits(mm)
    ensures TimeSpec(hh + ":" + mm + ":") == BadTime
  {
    var text := hh + ":" + mm + ":";
    assert text == hh + ":" + (mm + ":" + "");
    assert text[0] == hh[0] && text[|text| - 1] == ':';
    StripNoOp(text);
    SplitAppend(hh, mm + ":" + "", ':');
    SplitAppend(mm, "", ':');
    SplitNoSep("", ':');
    assert Split(text, ':') == [hh, mm, ""];
    ParseFloatEmpty();
    assert PartValues([hh, mm, ""])[2] == NotFloat;
    SumValuesFails(PartValues([hh, mm, ""]), 2);
  }

  /** So `parse_time_input` rejects what `format_timestamp` makes of a whole minute from an hour on. */
  lemma WholeMinuteNotReadBack(totalMs: nat)
    requires totalMs >= 3_600_000 && totalMs % 60_000 == 0
    ensures TimeSpec(FormatTimestamp(totalMs)) == BadTime
  {
    FormatTimestampDropsSeconds(totalMs);
    ReadsAsEmptySeconds(totalMs, totalMs / 1000 / 60 / 60, totalMs / 1000 / 60 % 60);
  }

  /** A formatted `hh:mm:` is rejected. */
  lemma ReadsAsEmptySeconds(totalMs: nat, h: nat, m: nat)
    requires FormatTimestamp(totalMs) == ZeroPad(h, 2) + ":" + ZeroPad(m, 2) + ":"
    ensures TimeSpec(FormatTimestamp(totalMs)) == BadTime
  {
    PaddedEmptySeconds(h, m);
  }

  lemma PaddedEmptySeconds(h: nat, m: nat)
    ensures TimeSpec(ZeroPad(h, 2) + ":" + ZeroPad(m, 2) + ":") == BadTime
  {
    EmptySecondsRejected(ZeroPad(h, 2), ZeroPad(m, 2));
  }

  /**
   * From an hour on, a time in whole tens of seconds (but not whole minutes)
   * loses the zero of its seconds field: `01:00:10` becomes `01:00:1`.
   */
  lemma FormatTimestampDropsTensZero(totalMs: nat)
    requires totalMs >= 3_600_000 && totalMs % 10_000 == 0 && totalMs % 60_000 != 0
    ensures FormatTimestamp(totalMs)
         == ZeroPad(totalMs / 1000 / 60 / 60, 2) + ":" + ZeroPad(totalMs / 1000 / 60 % 60, 2) + ":"
            + [DigitChar(totalMs / 1000 % 60 / 10)]
  {
    HoursShape(totalMs);
    TenSecondParts(totalMs);
    TensField(totalMs / 1000 % 60);
    ZeroFields();
    StripTensZero(ZeroPad(totalMs / 1000 / 60 / 60, 2), ZeroPad(totalMs / 1000 / 60 % 60, 2),
                  DigitChar(totalMs / 1000 % 60 / 10));
  }

  /** `hh:mm:d` reads as `d` seconds past `hh:mm`. */
  lemma OneDigitSecondsRead(hh: string, mm: string, d: char)
    requires hh != [] && AllDigits(hh) && mm != [] && AllDigits(mm) && IsDigit(d)
    ensures TimeSpec(hh + ":" + mm + ":" + [d])
         == TimeValue(DigitsValue(hh) as real * 3600.0 + DigitsValue(mm) as real * 60.0 + DigitValue(d) as real)
  {
    OneDigitField(d);
    HoursMinutesThen(hh, mm, [d], DigitValue(d) as real);
    RegroupFields(hh, mm, [d]);
  }

  lemma OneDigitField(d: char)
    requires IsDigit(d)
    ensures IsTimeField([d]) && ParseFloat([d]) == Float(DigitValue(d) as real)
  {
    DigitsField([d]);
    assert [d][..0] == [];
  }

  lemma RegroupFields(a: string, b: string, c: string)
    ensures a + ":" + b + ":" + c == a + ":" + (b + ":" + c)
  {
  }

  /**
   * So such a time reads back as a tenth of its seconds: `01:00:10` comes back
   * as one second past the hour, not ten.
   */
  lemma TensOfSecondsMisread(totalMs: nat)
    requires totalMs >= 3_600_000 && totalMs % 10_000 == 0 && totalMs % 60_000 != 0
    ensures var seconds := totalMs / 1000;
      TimeSpec(FormatTimestamp(totalMs))
        == TimeValue((seconds / 60 / 60) as real * 3600.0 + (seconds / 60 % 60) as real * 60.0
                     + (seconds % 60 / 10) as real)
  {
    var seconds := totalMs / 1000;
    TenSecondParts(totalMs);
    FormatTimestampDropsTensZero(totalMs);
    ReadsAsOneDigit(totalMs, seconds / 60 / 60, seconds / 60 % 60, seconds % 60 / 10);
  }

  /** A formatted `hh:mm:d` reads back as those numbers. */
  lemma ReadsAsOneDigit(totalMs: nat, h: nat, m: nat, k: nat)
    requires k < 10 && FormatTimestamp(totalMs) == ZeroPad(h, 2) + ":" + ZeroPad(m, 2) + ":" + [DigitChar(k)]
    ensures TimeSpec(FormatTimestamp(totalMs)) == TimeValue(h as real * 3600.0 + m as real * 60.0 + k as real)
  {
    PaddedOneDigitRead(h, m, k);
  }

  lemma PaddedOneDigitRead(h: nat, m: nat, k: nat)
    requires k < 10
    ensures TimeSpec(ZeroPad(h, 2) + ":" + ZeroPad(m, 2) + ":" + [DigitChar(k)])
         == TimeValue(h as real * 3600.0 + m as real * 60.0 + k as real)
  {
    OneDigitSecondsRead(ZeroPad(h, 2), ZeroPad(m, 2), DigitChar(k));
  }

  /** Hence such a time does not read back as itself. */
  lemma TensOfSecondsNotReadBack(totalMs: nat)
    requires totalMs >= 3_600_000 && totalMs % 10_000 == 0 && totalMs % 60_000 != 0
    ensures TimeSpec(FormatTimestamp(totalMs)) != TimeValue(totalMs as real / 1000.0)
  {
    TensOfSecondsMisread(totalMs);
    TenthOfSecondsDiffers(totalMs);
  }

  /** Counting a multiple of ten seconds as a tenth of itself gives another time. */
  lemma TenthOfSecondsDiffers(totalMs: nat)
    requires totalMs % 10_000 == 0 && totalMs % 60_000 != 0
    ensures var seconds := totalMs / 1000;
      (seconds / 60 / 60) as real * 3600.0 + (seconds / 60 % 60) as real * 60.0 + (seconds % 60 / 10) as real
        != totalMs as real / 1000.0
  {
    TenSecondParts(totalMs);
    SplitMillis(totalMs);
  }

  // ---------------------------------------------------------------------------
  // shorten_title

  /** How many characters of a long title survive: `max(limit - 3, 1)`, as far as the title reaches. */
  function KeptLength(length: nat, limit: int): (k: nat)
    ensures k <= length
    ensures length >= 1 ==> k >= 1
    ensures limit >= 4 ==> k <= limit - 3
  {
    var cutoff := if limit - 3 < 1 then 1 else limit - 3;
    if cutoff < length then cutoff else length
  }

  /** The default `limit` of `shorten_title`. */
  const DefaultTitleLimit := 40

  /** `shorten_title`: long titles keep a prefix and gain "...". */
  function ShortenTitle(title: string, limit: int): (r: string)
    ensures |title| <= limit ==> r == title
    ensures |title| > limit ==> |r| == KeptLength(|title|, limit) + 3
  {
    if |title| <= limit then title
    else title[..KeptLength(|title|, limit)] + "..."
  }

  /** A shortened title is a prefix of the original followed by the ellipsis. */
  lemma ShortenTitleShape(title: string, limit: int)
    requires |title| > limit
    ensures var r := ShortenTitle(title, limit);
      r[|r| - 3..] == "..." && r[..|r| - 3] <= title
  {
    var k := KeptLength(|title|, limit);
    var r := title[..k] + "...";
    assert r[|r| - 3..] == "...";
    assert r[..|r| - 3] == title[..k];
  }

  /** A shortened title never exceeds the limit, once the limit leaves room for the ellipsis. */
  lemma ShortenTitleFits(title: string, limit: int)
    requires limit >= 4
    ensures |ShortenTitle(title, limit)| <= limit
  {
  }

  // ---------------------------------------------------------------------------
  // is_youtube_video_url

  /** The parts `urlparse` splits a URL into, for the ones the check reads. */
  datatype Url = Url(scheme: string, netloc: string, path: string, query: string)

  /** `parse_qs(query).get(key, [])`: fields split on `&`, blank values dropped, `+` read as a space. */
  function QueryValues(fields: seq<string>, key: string): (r: seq<string>)
    ensures forall i | 0 <= i < |r| :: r[i] != []
  {
    if fields == [] then []
    else
      var rest := QueryValues(fields[1..], key);
      var nv := Split(fields[0], '=');
      if |nv| >= 2 && PlusToSpace(nv[0]) == key then
        var value := PlusToSpace(Join(nv[1..], "="));
        if value != [] then [value] + rest else rest
      else rest
  }

  function PlusToSpace(s: string): (r: string)
    ensures |r| == |s|
  {
    seq(|s|, i requires 0 <= i < |s| => if s[i] == '+' then ' ' else s[i])
  }

  predicate HasNonBlank(values: seq<string>) {
    exists i | 0 <= i < |values| :: Strip(values[i]) != []
  }

  /** `bool(path.split(marker, 1)[-1].strip("/"))` for a path that starts with `marker`. */
  predicate HasIdAfter(path: string, marker: string)
    requires marker <= path
  {
    StripChars(path[|marker|..], Chars({'/'})) != []
  }

  /** `is_youtube_video_url` once the stripped text has been split by `urlparse`. */
  function IsYoutubeVideoUrl(u: Url): (r: bool)
    ensures r ==> Lower(u.scheme) == "http" || Lower(u.scheme) == "https"
    ensures r ==> EndsWith(Lower(u.netloc), "youtube.com") || Lower(u.netloc) == "youtu.be"
                  || EndsWith(Lower(u.netloc), ".youtu.be")
  {
    var scheme := Lower(u.scheme);
    var host := Lower(u.netloc);
    if scheme != "http" && scheme != "https" then false
    else if EndsWith(host, "youtube.com") then
      if "/watch" <= u.path then HasNonBlank(QueryValues(Split(u.query, '&'), "v"))
      else if "/shorts/" <= u.path then HasIdAfter(u.path, "/shorts/")
      else if "/live/" <= u.path then HasIdAfter(u.path, "/live/")
      else if "/embed/" <= u.path then HasIdAfter(u.path, "/embed/")
      else false
    else if host == "youtu.be" || EndsWith(host, ".youtu.be") then
      StripChars(u.path, Chars({'/'})) != []
    else false
  }

  /** The check on the raw text: blank text is refused before it is parsed. */
  function IsYoutubeVideoText(value: string, parsed: Url): (r: bool)
    ensures Strip(value) == [] ==> !r
  {
    Strip(value) != [] && IsYoutubeVideoUrl(parsed)
  }

  /** A watch page needs a `v` value that is not blank. */
  lemma WatchNeedsVideoId(u: Url)
    requires Lower(u.scheme) == "https" && EndsWith(Lower(u.netloc), "youtube.com") && "/watch" <= u.path
    ensures IsYoutubeVideoUrl(u) <==> HasNonBlank(QueryValues(Split(u.query, '&'), "v"))
  {
  }

  /** Texts that differ at a position shared by both are not prefixes of each other. */
  lemma NotPrefix(a: string, b: string, i: nat)
    requires i < |a| && i < |b| && a[i] != b[i]
    ensures !(a <= b)
  {
  }

  /** A short link with an id is a video. */
  lemma ShortLinkAccepted()
    ensures IsYoutubeVideoUrl(Url("https", "youtu.be", "/abc123", ""))
  {
    assert Lower("https") == "https";
    assert Lower("youtu.be") == "youtu.be";
    assert !EndsWith("youtu.be", "youtube.com");
    assert LStrip("abc123", Chars({'/'})) == "abc123";
    assert LStrip("/abc123", Chars({'/'})) == "abc123";
    assert RStrip("abc123", Chars({'/'})) == "abc123";
  }

  /** A Shorts page with an id is a video. */
  lemma ShortsAccepted()
    ensures IsYoutubeVideoUrl(Url("https", "youtube.com", "/shorts/abc123", ""))
  {
    assert Lower("https") == "https";
    assert Lower("youtube.com") == "youtube.com";
    assert EndsWith("youtube.com", "youtube.com");
    NotPrefix("/watch", "/shorts/abc123", 1);
    assert "/shorts/" <= "/shorts/abc123";
    assert "/shorts/abc123"[8..] == "abc123";
    assert LStrip("abc123", Chars({'/'})) == "abc123";
    assert RStrip("abc123", Chars({'/'})) == "abc123";
  }

  /** A watch page with an empty query names no video. */
  lemma WatchWithoutQueryRejected()
    ensures !IsYoutubeVideoUrl(Url("https", "www.youtube.com", "/watch", ""))
  {
    assert Lower("https") == "https";
    assert Lower("www.youtube.com") == "www.youtube.com";
    assert "www.youtube.com"[4..] == "youtube.com";
    assert Split("", '&') == [""];
    assert Split("", '=') == [""];
    assert QueryValues([""], "v") == [];
  }

  /** Other schemes and other hosts are refused. */
  lemma ForeignUrlsRejected()
    ensures !IsYoutubeVideoUrl(Url("ftp", "youtube.com", "/watch", "v=dQw4w9WgXcQ"))
    ensures !IsYoutubeVideoUrl(Url("https", "example.com", "/watch", "v=dQw4w9WgXcQ"))
  {
    assert Lower("ftp") == "ftp";
    assert Lower("https") == "https";
    assert Lower("example.com") == "example.com";
    assert "example.com"[..] != "youtube.com";
    assert !EndsWith("example.com", "youtube.com");
    assert !EndsWith("example.com", ".youtu.be");
  }

  /** A playlist page is not a video page. */
  lemma PlaylistRejected()
    ensures !IsYoutubeVideoUrl(Url("https", "www.youtube.com", "/playlist", "list=123"))
  {
    assert Lower("https") == "https";
    assert Lower("www.youtube.com") == "www.youtube.com";
    NotPrefix("/watch", "/playlist", 1);
    NotPrefix("/shorts/", "/playlist", 1);
    NotPrefix("/live/", "/playlist", 1);
    NotPrefix("/embed/", "/playlist", 1);
  }

  // ---------------------------------------------------------------------------
  // unique_path

  datatype Path = Path(parent: string, name: string)

  /** Where `Path.suffix` starts: the last `.` when it is neither first nor last, else the end. */
  function SuffixStart(name: string): (i: nat)
    ensures i <= |name|
    ensures i < |name| ==> 0 < i < |name| - 1 && name[i] == '.'
    ensures forall j | i < j < |name| :: name[j] != '.'
  {
    var k := LastIndexOf(name, '.');
    if 0 < k < |name| - 1 then k else |name|
  }

  /** `str.rfind`: the last index of `c`, or -1. */
  function LastIndexOf(s: string, c: char): (k: int)
    ensures -1 <= k < |s|
    ensures k >= 0 ==> s[k] == c
    ensures forall j | k < j < |s| :: s[j] != c
  {
    if s == [] then -1
    else if s[|s| - 1] == c then |s| - 1
    else LastIndexOf(s[..|s| - 1], c)
  }

  /** `parent / f"{stem}_{k}{suffix}"`. */
  function Numbered(p: Path, k: nat): Path {
    var i := SuffixStart(p.name);
    Path(p.parent, p.name[..i] + "_" + NatToString(k) + p.name[i..])
  }

  lemma NumberedInjective(p: Path, j: nat, k: nat)
    requires Numbered(p, j) == Numbered(p, k)
    ensures j == k
  {
    var i := SuffixStart(p.name);
    var a, b := NatToString(j), NatToString(k);
    var x, y := Numbered(p, j).name, Numbered(p, k).name;
    assert |a| == |b|;
    assert a == x[i + 1..i + 1 + |a|] == y[i + 1..i + 1 + |b|] == b;
    NatToStringInjective(j, k);
  }

  /**
   * `unique_path`: the candidate itself when it is free, else the first free
   * `stem_k.suffix` counting from 1. `existing` stands for the file system.
   */
  method UniquePath(candidate: Path, existing: set<Path>) returns (r: Path)
    ensures r !in existing
    ensures candidate !in existing ==> r == candidate
    ensures candidate in existing ==>
      exists k :: 1 <= k && r == Numbered(candidate, k) && forall j | 1 <= j < k :: Numbered(candidate, j) in existing
  {
    if candidate !in existing {
      return candidate;
    }
    var counter := 1;
    ghost var taken: set<Path> := {};
    while true
      invariant 1 <= counter
      invariant taken <= existing && |taken| == counter - 1
      invariant forall j | 1 <= j < counter :: Numbered(candidate, j) in taken
      invariant forall q | q in taken :: exists j :: 1 <= j < counter && q == Numbered(candidate, j)
      decreases |existing| - |taken|
    {
      var next := Numbered(candidate, counter);
      if next !in existing {
        return next;
      }
      if next in taken {
        var j :| 1 <= j < counter && next == Numbered(candidate, j);
        NumberedInjective(candidate, j, counter);
        assert false;
      }
      taken := taken + {next};
      counter := counter + 1;
      if |taken| > |existing| {
        SubsetCardinality(taken, existing);
        assert false;
      }
    }
  }

  lemma SubsetCardinality<T>(a: set<T>, b: set<T>)
    requires a <= b
    ensures |a| <= |b|
  {
    if a != {} {
      var x :| x in a;
      SubsetCardinality(a - {x}, b - {x});
    }
  }

  /** The numbered names of `file.txt` keep the `.txt` suffix. */
  lemma NumberedFileTxt(k: nat)
    ensures Numbered(Path("dir", "file.txt"), k) == Path("dir", "file_" + NatToString(k) + ".txt")
  {
    assert "file.txt"[..7] == "file.tx" && "file.tx"[..6] == "file.t" && "file.t"[..5] == "file.";
    assert LastIndexOf("file.txt", '.') == 4;
    assert "file.txt"[..4] == "file" && "file.txt"[4..] == ".txt";
  }

  lemma FirstNumberedFileTxt()
    ensures Numbered(Path("dir", "file.txt"), 1) == Path("dir", "file_1.txt")
    ensures Numbered(Path("dir", "file.txt"), 2) == Path("dir", "file_2.txt")
  {
    NumberedFileTxt(1);
    NumberedFileTxt(2);
    assert NatToString(1) == "1" && NatToString(2) == "2";
  }

  /** With `file.txt` and `file_1.txt` taken, the next name is `file_2.txt`. */
  method UniquePathExample() returns (r: Path)
    ensures r == Path("dir", "file_2.txt")
  {
    var candidate := Path("dir", "file.txt");
    var first, second := Path("dir", "file_1.txt"), Path("dir", "file_2.txt");
    var existing := {candidate, first};
    FirstNumberedFileTxt();
    ExampleNamesDiffer();
    r := UniquePath(candidate, existing);
    ghost var k :| 1 <= k && r == Numbered(candidate, k)
      && forall j | 1 <= j < k :: Numbered(candidate, j) in existing;
    FirstFreeIsSecond(candidate, existing, k, first, second);
  }

  /** When the first numbered name is taken and the second is free, the first free one is the second. */
  lemma FirstFreeIsSecond(candidate: Path, existing: set<Path>, k: nat, first: Path, second: Path)
    requires Numbered(candidate, 1) == first && first in existing
    requires Numbered(candidate, 2) == second && second !in existing
    requires 1 <= k && Numbered(candidate, k) !in existing
    requires forall j | 1 <= j < k :: Numbered(candidate, j) in existing
    ensures Numbered(candidate, k) == second
  {
    if k > 2 {
      assert false;
    }
  }

  lemma ExampleNamesDiffer()
    ensures "file_2.txt" != "file_1.txt" && "file_2.txt" != "file.txt"
  {
    assert "file_2.txt"[5] != "file_1.txt"[5];
    assert |"file_2.txt"| != |"file.txt"|;
  }
}
