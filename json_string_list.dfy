/**
 * JSON text for a list of strings, as the updater passes launch arguments:
 * `json.dumps(list_of_str)` with its default `ensure_ascii=True` and `", "`
 * separator, and the part of `json.loads` that matters to its reader, which
 * keeps a decoded value only when it is a list of strings.
 */
module JsonStrings {
  import opened Wrappers
  import Text

  // ---------------------------------------------------------------------------
  // Hexadecimal digits of `\uXXXX`

  function HexDigit(d: nat): (c: char)
    requires d < 16
    ensures HexValue(c) == Some(d)
  {
    if d < 10 then ('0' as int + d) as char else ('a' as int + d - 10) as char
  }

  /** The value of a hexadecimal digit of either case. */
  function HexValue(c: char): (r: Option<nat>)
    ensures r.Some? ==> r.value < 16
  {
    if '0' <= c <= '9' then Some(c as int - '0' as int)
    else if 'a' <= c <= 'f' then Some(c as int - 'a' as int + 10)
    else if 'A' <= c <= 'F' then Some(c as int - 'A' as int + 10)
    else None
  }

  /** `format(n, "04x")` for a code unit. */
  function Hex4(n: nat): (s: string)
    requires n < 0x1_0000
    ensures |s| == 4
  {
    [HexDigit(n / 0x1000), HexDigit(n / 0x100 % 16), HexDigit(n / 16 % 16), HexDigit(n % 16)]
  }

  /** The code unit four hexadecimal digits stand for. */
  function ParseHex4(s: string): (r: Option<nat>)
    requires |s| == 4
    ensures r.Some? ==> r.value < 0x1_0000
  {
    match (HexValue(s[0]), HexValue(s[1]), HexValue(s[2]), HexValue(s[3]))
    case (Some(a), Some(b), Some(c), Some(d)) => Some(a * 0x1000 + b * 0x100 + c * 16 + d)
    case _ => None
  }

  lemma Hex4RoundTrip(n: nat)
    requires n < 0x1_0000
    ensures ParseHex4(Hex4(n)) == Some(n)
  {
    var q1, d := n / 16, n % 16;
    var q2, c := q1 / 16, q1 % 16;
    var a, b := q2 / 16, q2 % 16;
    assert n == 16 * q1 + d && q1 == 16 * q2 + c && q2 == 16 * a + b;
    Text.DivModUnique(n, 0x100, q2, 16 * c + d);
    Text.DivModUnique(n, 0x1000, a, 0x100 * b + 16 * c + d);
    assert n == a * 0x1000 + b * 0x100 + c * 16 + d;
  }

  // ---------------------------------------------------------------------------
  // Encoding

  predicate IsHighSurrogate(u: int) {
    0xD800 <= u < 0xDC00
  }

  predicate IsLowSurrogate(u: int) {
    0xDC00 <= u < 0xE000
  }

  /** How `json.dumps` writes one character of a string. */
  function EscapeChar(c: char): (s: string)
    ensures s != []
  {
    if c == '"' then "\\\""
    else if c == '\\' then "\\\\"
    else if c == '\n' then "\\n"
    else if c == '\r' then "\\r"
    else if c == '\t' then "\\t"
    else if c == 8 as char then "\\b"
    else if c == 12 as char then "\\f"
    else if ' ' <= c <= '~' then [c]
    else if c as int < 0x1_0000 then "\\u" + Hex4(c as int)
    else
      var v := c as int - 0x1_0000;
      "\\u" + Hex4(0xD800 + v / 0x400) + "\\u" + Hex4(0xDC00 + v % 0x400)
  }

  /** The body of a JSON string literal. */
  function EscapeAll(s: string): string {
    if s == [] then [] else EscapeChar(s[0]) + EscapeAll(s[1..])
  }

  function Quote(s: string): string {
    "\"" + EscapeAll(s) + "\""
  }

  /** The items of the list after the first, each preceded by `", "`. */
  function Items(xs: seq<string>): string {
    if xs == [] then [] else ", " + Quote(xs[0]) + Items(xs[1..])
  }

  /** `json.dumps(xs)` for a list of strings. */
  function DumpStrings(xs: seq<string>): (s: string)
    ensures |s| >= 2 && s[0] == '[' && s[|s| - 1] == ']'
  {
    if xs == [] then "[]" else "[" + Quote(xs[0]) + Items(xs[1..]) + "]"
  }

  /** The encoding uses printable ASCII only. */
  lemma {:induction false} EscapeAllAscii(s: string)
    ensures forall i | 0 <= i < |EscapeAll(s)| :: ' ' <= EscapeAll(s)[i] <= '~'
  {
    if s != [] {
      EscapeAllAscii(s[1..]);
      EscapeCharAscii(s[0]);
    }
  }

  lemma EscapeCharAscii(c: char)
    ensures forall i | 0 <= i < |EscapeChar(c)| :: ' ' <= EscapeChar(c)[i] <= '~'
  {
  }

  // ---------------------------------------------------------------------------
  // Decoding

  /** JSON whitespace. */
  predicate IsJsonSpace(c: char) {
    c == ' ' || c == '\t' || c == '\n' || c == '\r'
  }

  function SkipSpace(s: string): (r: string)
    ensures |r| <= |s|
  {
    if s != [] && IsJsonSpace(s[0]) then SkipSpace(s[1..]) else s
  }

  /** The character an escape after a backslash stands for, and the text after it. */
  function ParseEscape(s: string): (r: Option<(char, string)>)
    ensures r.Some? ==> |r.value.1| < |s|
  {
    if s == [] then None
    else if s[0] == '"' then Some(('"', s[1..]))
    else if s[0] == '\\' then Some(('\\', s[1..]))
    else if s[0] == '/' then Some(('/', s[1..]))
    else if s[0] == 'b' then Some((8 as char, s[1..]))
    else if s[0] == 'f' then Some((12 as char, s[1..]))
    else if s[0] == 'n' then Some(('\n', s[1..]))
    else if s[0] == 'r' then Some(('\r', s[1..]))
    else if s[0] == 't' then Some(('\t', s[1..]))
    else if s[0] == 'u' && |s| >= 5 then
      match ParseHex4(s[1..5])
      case None => None
      case Some(u) =>
        if IsHighSurrogate(u) then
          if |s| >= 11 && s[5] == '\\' && s[6] == 'u' then
            match ParseHex4(s[7..11])
            case Some(l) =>
              if IsLowSurrogate(l) then Some((Combined(u, l), s[11..])) else None
            case None => None
          else None
        else if IsLowSurrogate(u) then None
        else Some((u as char, s[5..]))
    else None
  }

  /** The character a surrogate pair stands for. */
  function Combined(high: int, low: int): char
    requires IsHighSurrogate(high) && IsLowSurrogate(low)
  {
    (0x1_0000 + (high - 0xD800) * 0x400 + (low - 0xDC00)) as char
  }

  /** The characters of a string literal up to its closing quote, and the text after the quote. */
  function ParseChars(s: string): (r: Option<(string, string)>)
    ensures r.Some? ==> |r.value.1| < |s|
    decreases |s|
  {
    if s == [] then None
    else if s[0] == '"' then Some(([], s[1..]))
    else if s[0] == '\\' then
      match ParseEscape(s[1..])
      case None => None
      case Some((c, rest)) =>
        match ParseChars(rest)
        case None => None
        case Some((cs, after)) => Some(([c] + cs, after))
    else if s[0] < ' ' then None
    else
      match ParseChars(s[1..])
      case None => None
      case Some((cs, after)) => Some(([s[0]] + cs, after))
  }

  /** A string literal, and the text after it. */
  function ParseString(s: string): (r: Option<(string, string)>)
    ensures r.Some? ==> |r.value.1| < |s|
  {
    if s != [] && s[0] == '"' then ParseChars(s[1..]) else None
  }

  /** The items after the first, up to and including the closing bracket. */
  function ParseMore(s: string): (r: Option<(seq<string>, string)>)
    ensures r.Some? ==> |r.value.1| < |s|
    decreases |s|
  {
    var t := SkipSpace(s);
    if t != [] && t[0] == ']' then Some(([], t[1..]))
    else if t != [] && t[0] == ',' then
      match ParseString(SkipSpace(t[1..]))
      case None => None
      case Some((x, rest)) =>
        match ParseMore(rest)
        case None => None
        case Some((xs, after)) => Some(([x] + xs, after))
    else None
  }

  /** A whole array of strings, and the text after it. */
  function ParseArray(s: string): (r: Option<(seq<string>, string)>) {
    if s != [] && s[0] == '[' then
      var t := SkipSpace(s[1..]);
      if t != [] && t[0] == ']' then Some(([], t[1..]))
      else
        match ParseString(t)
        case None => None
        case Some((x, rest)) =>
          match ParseMore(rest)
          case None => None
          case Some((xs, after)) => Some(([x] + xs, after))
    else None
  }

  /**
   * `json.loads(text)` when the result is a list of strings; `None` for text
   * that is not JSON and for JSON of any other shape.
   */
  function LoadStrings(text: string): Option<seq<string>> {
    match ParseArray(SkipSpace(text))
    case None => None
    case Some((xs, rest)) => if SkipSpace(rest) == [] then Some(xs) else None
  }

  // ---------------------------------------------------------------------------
  // Round trip

  /** Each escape reads back as the character it was written for. */
  lemma EscapeCharRoundTrip(c: char, rest: string)
    ensures ParseChars(EscapeChar(c) + rest) == match ParseChars(rest)
      case None => None
      case Some((cs, after)) => Some(([c] + cs, after))
  {
    var e := EscapeChar(c);
    if ' ' <= c <= '~' && c != '"' && c != '\\' {
      assert (e + rest)[1..] == rest;
    } else if c as int < 0x1_0000 && !(' ' <= c <= '~') && c != '\n' && c != '\r' && c != '\t' && c != 8 as char && c != 12 as char {
      Hex4RoundTrip(c as int);
      assert (e + rest)[1..] == "u" + Hex4(c as int) + rest;
      assert ("u" + Hex4(c as int) + rest)[1..5] == Hex4(c as int);
      assert ("u" + Hex4(c as int) + rest)[5..] == rest;
    } else if c as int >= 0x1_0000 {
      SurrogatePairRoundTrip(c, rest);
    } else {
      assert (e + rest)[1..] == e[1..] + rest;
      assert (e[1..] + rest)[1..] == rest;
    }
  }

  /** A character beyond the basic plane is written as a surrogate pair and read back whole. */
  lemma SurrogatePairRoundTrip(c: char, rest: string)
    requires c as int >= 0x1_0000
    ensures ParseChars(EscapeChar(c) + rest) == match ParseChars(rest)
      case None => None
      case Some((cs, after)) => Some(([c] + cs, after))
  {
    var v := c as int - 0x1_0000;
    var high, low := 0xD800 + v / 0x400, 0xDC00 + v % 0x400;
    var tail := "u" + Hex4(high) + "\\u" + Hex4(low) + rest;
    assert EscapeChar(c) + rest == "\\" + tail;
    assert ("\\" + tail)[1..] == tail;
    SurrogateParse(high, low, rest);
    SurrogateValue(c);
  }

  /** The pair of code units a character beyond the basic plane is split into stands for it. */
  lemma SurrogateValue(c: char)
    requires c as int >= 0x1_0000
    ensures var v := c as int - 0x1_0000;
      Combined(0xD800 + v / 0x400, 0xDC00 + v % 0x400) == c
  {
  }

  /** `\uXXXX\uXXXX` with a high and a low surrogate reads as one character. */
  lemma SurrogateParse(high: int, low: int, rest: string)
    requires IsHighSurrogate(high) && IsLowSurrogate(low)
    ensures ParseEscape("u" + Hex4(high) + "\\u" + Hex4(low) + rest) == Some((Combined(high, low), rest))
  {
    var tail := "u" + Hex4(high) + "\\u" + Hex4(low) + rest;
    Hex4RoundTrip(high);
    Hex4RoundTrip(low);
    assert tail[1..5] == Hex4(high) && tail[5] == '\\' && tail[6] == 'u';
    assert tail[7..11] == Hex4(low) && tail[11..] == rest;
  }

  lemma {:induction false} EscapeAllRoundTrip(s: string, rest: string)
    ensures ParseChars(EscapeAll(s) + "\"" + rest) == Some((s, rest))
  {
    if s == [] {
      assert EscapeAll(s) + "\"" + rest == "\"" + rest;
    } else {
      EscapeAllRoundTrip(s[1..], rest);
      assert EscapeAll(s) + "\"" + rest == EscapeChar(s[0]) + (EscapeAll(s[1..]) + "\"" + rest);
      EscapeCharRoundTrip(s[0], EscapeAll(s[1..]) + "\"" + rest);
      assert [s[0]] + s[1..] == s;
    }
  }

  lemma QuoteRoundTrip(s: string, rest: string)
    ensures ParseString(Quote(s) + rest) == Some((s, rest))
  {
    assert Quote(s) + rest == "\"" + (EscapeAll(s) + "\"" + rest);
    EscapeAllRoundTrip(s, rest);
  }

  lemma {:induction false} ItemsRoundTrip(xs: seq<string>, rest: string)
    ensures ParseMore(Items(xs) + "]" + rest) == Some((xs, rest))
  {
    if xs == [] {
      assert Items(xs) + "]" + rest == "]" + rest;
    } else {
      var tail := Items(xs[1..]) + "]" + rest;
      assert Items(xs) + "]" + rest == ", " + (Quote(xs[0]) + tail);
      ItemsRoundTrip(xs[1..], rest);
      ItemStep(xs[0], tail, xs[1..], rest);
      assert [xs[0]] + xs[1..] == xs;
    }
  }

  /** One more `", "`-separated item in front of a parsed tail. */
  lemma ItemStep(x: string, tail: string, more: seq<string>, rest: string)
    requires ParseMore(tail) == Some((more, rest))
    ensures ParseMore(", " + (Quote(x) + tail)) == Some(([x] + more, rest))
  {
    var item := Quote(x) + tail;
    assert (", " + item)[1..] == " " + item;
    assert (" " + item)[1..] == item;
    QuoteRoundTrip(x, tail);
    assert SkipSpace(" " + item) == item;
  }

  /** `json.loads(json.dumps(xs)) == xs`. */
  lemma LoadDumpStrings(xs: seq<string>)
    ensures LoadStrings(DumpStrings(xs)) == Some(xs)
  {
    var text := DumpStrings(xs);
    assert SkipSpace(text) == text;
    ArrayRoundTrip(xs);
    assert SkipSpace([]) == [];
  }

  lemma ArrayRoundTrip(xs: seq<string>)
    ensures ParseArray(DumpStrings(xs)) == Some((xs, []))
  {
    if xs == [] {
      assert DumpStrings(xs)[1..] == "]";
    } else {
      NonEmptyArrayRoundTrip(DumpStrings(xs), xs[0], xs[1..]);
      assert [xs[0]] + xs[1..] == xs;
    }
  }

  lemma NonEmptyArrayRoundTrip(text: string, first: string, more: seq<string>)
    requires text == "[" + Quote(first) + Items(more) + "]"
    ensures ParseArray(text) == Some(([first] + more, []))
  {
    var tail := Items(more) + "]";
    var t := Quote(first) + tail;
    SplitArray(first, more);
    QuoteRoundTrip(first, tail);
    ItemsRoundTrip(more, []);
    assert tail + [] == tail;
    ArrayFromParts(t, first, more, tail);
  }

  /** The text of a non-empty list is its opening bracket before the first quoted item. */
  lemma SplitArray(first: string, more: seq<string>)
    ensures "[" + Quote(first) + Items(more) + "]" == "[" + (Quote(first) + (Items(more) + "]"))
    ensures (Quote(first) + (Items(more) + "]"))[0] == '"'
  {
  }

  lemma ArrayFromParts(t: string, first: string, more: seq<string>, tail: string)
    requires t != [] && t[0] == '"'
    requires ParseString(t) == Some((first, tail)) && ParseMore(tail) == Some((more, []))
    ensures ParseArray("[" + t) == Some(([first] + more, []))
  {
    assert ("[" + t)[1..] == t;
    assert SkipSpace(t) == t;
  }
}
