/**
 * The pieces of Python's `str` behaviour the download core relies on:
 * `strip`/`lstrip`/`rstrip`, `split`, `lower`, `in`, `startswith`/`endswith`,
 * decimal digits (`int(...)`, `f"{n:02d}"`) and the `<` order on strings.
 */
module Text {
  import opened Wrappers

  // ---------------------------------------------------------------------------
  // Character classes

  /** The characters `str.strip()` removes by default (those for which `str.isspace` holds). */
  predicate IsSpace(c: char) {
    var x := c as int;
    if x <= 32 then 9 <= x <= 13 || 28 <= x
    else if x < 0x85 then false
    else
      x == 0x85 || x == 0xA0 || x == 0x1680 || (0x2000 <= x <= 0x200A) ||
      x == 0x2028 || x == 0x2029 || x == 0x202F || x == 0x205F || x == 0x3000
  }

  /** The argument of `strip`: no argument (whitespace) or a set of characters. */
  datatype CharClass = Whitespace | Chars(chars: set<char>)

  predicate InClass(c: char, cls: CharClass) {
    match cls
    case Whitespace => IsSpace(c)
    case Chars(cs) => c in cs
  }

  predicate IsDigit(c: char) {
    '0' <= c <= '9'
  }

  predicate AllDigits(s: string) {
    forall i | 0 <= i < |s| :: IsDigit(s[i])
  }

  /** `str.lower()` restricted to ASCII letters. */
  function LowerChar(c: char): (r: char)
    ensures 'A' <= c <= 'Z' ==> r as int == c as int + 32
    ensures !('A' <= c <= 'Z') ==> r == c
  {
    if 'A' <= c <= 'Z' then (c as int + 32) as char else c
  }

  function Lower(s: string): (r: string)
    ensures |r| == |s|
    ensures forall i | 0 <= i < |s| :: r[i] == LowerChar(s[i])
  {
    seq(|s|, i requires 0 <= i < |s| => LowerChar(s[i]))
  }

  // ---------------------------------------------------------------------------
  // Stripping

  /** `s.lstrip(chars)`. */
  function LStrip(s: string, chars: CharClass): (r: string)
    ensures |r| <= |s|
  {
    if s != [] && InClass(s[0], chars) then LStrip(s[1..], chars) else s
  }

  /** `s.rstrip(chars)`. */
  function RStrip(s: string, chars: CharClass): (r: string)
    ensures |r| <= |s|
  {
    if s != [] && InClass(s[|s| - 1], chars) then RStrip(s[..|s| - 1], chars) else s
  }

  /** `lstrip` drops exactly the longest prefix made of `chars`. */
  lemma {:induction false} LStripDropsPrefix(s: string, chars: CharClass)
    ensures var r := LStrip(s, chars);
      && r == s[|s| - |r|..]
      && (forall i | 0 <= i < |s| - |r| :: InClass(s[i], chars))
      && (r == [] || !InClass(r[0], chars))
  {
    if s != [] && InClass(s[0], chars) {
      LStripDropsPrefix(s[1..], chars);
    }
  }

  /** `rstrip` drops exactly the longest suffix made of `chars`. */
  lemma {:induction false} RStripDropsSuffix(s: string, chars: CharClass)
    ensures var r := RStrip(s, chars);
      && r == s[..|r|]
      && (forall i | |r| <= i < |s| :: InClass(s[i], chars))
      && (r == [] || !InClass(r[|r| - 1], chars))
  {
    if s != [] && InClass(s[|s| - 1], chars) {
      RStripDropsSuffix(s[..|s| - 1], chars);
    }
  }

  /** `s.strip(chars)`. */
  function StripChars(s: string, chars: CharClass): string {
    RStrip(LStrip(s, chars), chars)
  }

  /** `s.strip()`. */
  function Strip(s: string): string {
    StripChars(s, Whitespace)
  }

  lemma {:induction false} StripBlankIsEmpty(s: string)
    requires forall i | 0 <= i < |s| :: IsSpace(s[i])
    ensures Strip(s) == ""
  {
    if s != [] {
      StripBlankIsEmpty(s[1..]);
    }
  }

  /** Stripping a string whose ends are not whitespace changes nothing. */
  lemma StripNoOp(s: string)
    requires s == [] || (!IsSpace(s[0]) && !IsSpace(s[|s| - 1]))
    ensures Strip(s) == s
  {
    assert LStrip(s, Whitespace) == s;
  }

  /** `strip()` leaves no whitespace at either end, so stripping again changes nothing. */
  lemma StripIdempotent(s: string)
    ensures var r := Strip(s); r == [] || (!IsSpace(r[0]) && !IsSpace(r[|r| - 1]))
    ensures Strip(Strip(s)) == Strip(s)
  {
    var l := LStrip(s, Whitespace);
    var r := RStrip(l, Whitespace);
    LStripDropsPrefix(s, Whitespace);
    RStripDropsSuffix(l, Whitespace);
    if r != [] {
      assert r[0] == l[0];
    }
    StripNoOp(r);
  }

  /** `rstrip` only looks at the tail: a kept character shields everything before it. */
  lemma {:induction false} RStripAppend(a: string, b: string, chars: CharClass)
    requires RStrip(b, chars) != []
    ensures RStrip(a + b, chars) == a + RStrip(b, chars)
  {
    if b != [] && InClass(b[|b| - 1], chars) {
      assert (a + b)[..|a + b| - 1] == a + b[..|b| - 1];
      RStripAppend(a, b[..|b| - 1], chars);
    }
  }

  /** `rstrip` removes a tail made of `chars` and stops at a character outside them. */
  lemma {:induction false} RStripDropsClassSuffix(a: string, b: string, chars: CharClass)
    requires a != [] && !InClass(a[|a| - 1], chars)
    requires forall i | 0 <= i < |b| :: InClass(b[i], chars)
    ensures RStrip(a + b, chars) == a
  {
    if b == [] {
      assert a + b == a;
    } else {
      assert (a + b)[..|a + b| - 1] == a + b[..|b| - 1];
      assert (a + b)[|a + b| - 1] == b[|b| - 1];
      RStripDropsClassSuffix(a, b[..|b| - 1], chars);
    }
  }

  // ---------------------------------------------------------------------------
  // Searching

  function EndsWith(s: string, suffix: string): bool {
    |suffix| <= |s| && s[|s| - |suffix|..] == suffix
  }

  /** `sub` occurs in `s` starting at index `i`. */
  predicate OccursAt(s: string, sub: string, i: int) {
    0 <= i <= |s| - |sub| && s[i..i + |sub|] == sub
  }

  /** `sub in s`. */
  function Contains(s: string, sub: string): bool
    decreases |s|
  {
    if sub <= s then true
    else if |s| <= |sub| then false
    else Contains(s[1..], sub)
  }

  /** `sub in s` holds exactly when `sub` occurs at some index of `s`. */
  lemma {:induction false} ContainsOccurs(s: string, sub: string)
    ensures Contains(s, sub) <==> exists i :: OccursAt(s, sub, i)
    decreases |s|
  {
    if sub <= s {
      assert OccursAt(s, sub, 0);
    } else if |s| <= |sub| {
      assert forall i | OccursAt(s, sub, i) :: i == 0 && |s| == |sub|;
    } else {
      ContainsOccurs(s[1..], sub);
      if Contains(s[1..], sub) {
        var j :| OccursAt(s[1..], sub, j);
        OccursShift(s, sub, j);
      } else {
        assert forall i | OccursAt(s, sub, i) :: i > 0;
        forall i | OccursAt(s, sub, i) && i > 0
          ensures OccursAt(s[1..], sub, i - 1)
        {
          OccursUnshift(s, sub, i);
        }
      }
    }
  }

  /** An occurrence in the tail is an occurrence one place further on. */
  lemma OccursShift(s: string, sub: string, j: int)
    requires s != [] && OccursAt(s[1..], sub, j)
    ensures OccursAt(s, sub, j + 1)
  {
    assert s[j + 1..j + 1 + |sub|] == s[1..][j..j + |sub|];
  }

  /** An occurrence past the first place is an occurrence in the tail. */
  lemma OccursUnshift(s: string, sub: string, i: int)
    requires i > 0 && OccursAt(s, sub, i)
    ensures OccursAt(s[1..], sub, i - 1)
  {
    assert s[1..][i - 1..i - 1 + |sub|] == s[i..i + |sub|];
  }

  // ---------------------------------------------------------------------------
  // Splitting and joining

  /** `s.split(sep)` generalised to several one-character separators (the regex `[._-]`). */
  function SplitAny(s: string, seps: set<char>): (r: seq<string>)
    ensures |r| >= 1
  {
    if s == [] then [""]
    else
      var rest := SplitAny(s[1..], seps);
      if s[0] in seps then [""] + rest
      else [[s[0]] + rest[0]] + rest[1..]
  }

  /** `s.split(sep)` for a one-character separator. */
  function Split(s: string, sep: char): (r: seq<string>)
    ensures |r| >= 1
  {
    if s == [] then [""]
    else
      var rest := Split(s[1..], sep);
      if s[0] == sep then [""] + rest
      else [[s[0]] + rest[0]] + rest[1..]
  }

  /** `sep.join(parts)`. */
  function Join(parts: seq<string>, sep: string): string {
    if parts == [] then ""
    else if |parts| == 1 then parts[0]
    else parts[0] + sep + Join(parts[1..], sep)
  }

  /** A text without the separator is a single part. */
  lemma {:induction false} SplitNoSep(a: string, sep: char)
    requires forall i | 0 <= i < |a| :: a[i] != sep
    ensures Split(a, sep) == [a]
  {
    if a != [] {
      SplitNoSep(a[1..], sep);
      assert [a[0]] + a[1..] == a;
    }
  }

  /** The first separator ends the first part. */
  lemma {:induction false} SplitAppend(a: string, b: string, sep: char)
    requires forall i | 0 <= i < |a| :: a[i] != sep
    ensures Split(a + [sep] + b, sep) == [a] + Split(b, sep)
  {
    if a != [] {
      SplitAppend(a[1..], b, sep);
      assert (a + [sep] + b)[1..] == a[1..] + [sep] + b;
      assert [a[0]] + a[1..] == a;
    } else {
      assert (a + [sep] + b)[1..] == b;
    }
  }

  /** Splitting on one separator loses nothing: joining the parts gives the text back. */
  lemma {:induction false} SplitJoin(s: string, sep: char)
    ensures Join(Split(s, sep), [sep]) == s
  {
    if s != [] {
      SplitJoin(s[1..], sep);
      var rest := Split(s[1..], sep);
      if s[0] == sep {
        assert Split(s, sep) == [""] + rest;
      } else {
        assert Split(s, sep) == [[s[0]] + rest[0]] + rest[1..];
        if |rest| > 1 {
          assert ([[s[0]] + rest[0]] + rest[1..])[1..] == rest[1..];
        }
      }
    }
  }

  // ---------------------------------------------------------------------------
  // Decimal numbers

  function DigitValue(c: char): (r: nat)
    requires IsDigit(c)
    ensures r < 10
  {
    c as int - '0' as int
  }

  function DigitChar(d: nat): (c: char)
    requires d < 10
    ensures IsDigit(c) && DigitValue(c) == d
  {
    ('0' as int + d) as char
  }

  /** The value of a run of decimal digits (`int(s)` for plain digits). */
  function DigitsValue(s: string): nat
    requires AllDigits(s)
  {
    if s == [] then 0 else DigitsValue(s[..|s| - 1]) * 10 + DigitValue(s[|s| - 1])
  }

  function Pow10(n: nat): (r: nat)
    ensures r >= 1
  {
    if n == 0 then 1 else 10 * Pow10(n - 1)
  }

  /** `str(n)` for a natural number. */
  function NatToString(n: nat): (r: string)
    ensures r != [] && AllDigits(r) && DigitsValue(r) == n
    ensures |r| > 1 ==> r[0] != '0'
  {
    if n < 10 then [DigitChar(n)]
    else
      var r := NatToString(n / 10) + [DigitChar(n % 10)];
      assert r[..|r| - 1] == NatToString(n / 10);
      r
  }

  /** `str(i)` for an integer. */
  function IntToString(i: int): string {
    if i < 0 then "-" + NatToString(-i) else NatToString(i)
  }

  lemma NatToStringInjective(m: nat, n: nat)
    requires NatToString(m) == NatToString(n)
    ensures m == n
  {
  }

  /** `f"{n:0{width}d}"`: at least `width` digits, padded with zeros on the left. */
  function ZeroPad(n: nat, width: nat): (r: string)
    ensures AllDigits(r) && |r| >= width && r != []
    ensures DigitsValue(r) == n
    ensures 1 <= width && n < Pow10(width) ==> |r| == width
  {
    var s := NatToString(n);
    NatToStringLength(n, width);
    if |s| >= width then s else ZeroPrefixed(s, width - |s|)
  }

  /** `str(n)` has at most `k` digits when `n < 10^k`. */
  lemma {:induction false} NatToStringLength(n: nat, k: nat)
    ensures 1 <= k && n < Pow10(k) ==> |NatToString(n)| <= k
  {
    if n >= 10 && k >= 1 {
      NatToStringLength(n / 10, k - 1);
    }
  }

  function ZeroPrefixed(s: string, k: nat): (r: string)
    requires AllDigits(s)
    ensures |r| == k + |s| && r[k..] == s && forall i | 0 <= i < k :: r[i] == '0'
    ensures AllDigits(r) && DigitsValue(r) == DigitsValue(s)
  {
    if k == 0 then s
    else
      var r := ZeroPrefixed(s, k - 1);
      LeadingZeroValue(r);
      "0" + r
  }

  lemma {:induction false} LeadingZeroValue(s: string)
    requires AllDigits(s)
    ensures AllDigits("0" + s) && DigitsValue("0" + s) == DigitsValue(s)
  {
    if s != [] {
      var t := "0" + s;
      assert t[..|t| - 1] == "0" + s[..|s| - 1];
      LeadingZeroValue(s[..|s| - 1]);
    }
  }

  /** `int(s)` for an unsigned run of ASCII digits; anything else fails. */
  function ParseNat(s: string): (r: Option<nat>)
    ensures r.Some? <==> s != [] && AllDigits(s)
  {
    if s != [] && AllDigits(s) then Some(DigitsValue(s)) else None
  }

  lemma ParseNatToString(n: nat)
    ensures ParseNat(NatToString(n)) == Some(n)
  {
  }

  // ---------------------------------------------------------------------------
  // Division

  /** Euclidean division is determined by a quotient and a remainder in range. */
  lemma DivModUnique(x: int, d: int, q: int, r: int)
    requires d > 0 && x == d * q + r && 0 <= r < d
    ensures x / d == q && x % d == r
  {
    var q0, r0 := x / d, x % d;
    assert d * (q - q0) == r0 - r;
    if q > q0 {
      MulAtLeast(d, q - q0);
    } else if q < q0 {
      MulAtLeast(d, q0 - q);
    }
  }

  lemma {:induction false} MulAtLeast(d: int, n: int)
    requires d > 0 && n >= 1
    ensures d * n >= d
    decreases n
  {
    if n > 1 {
      MulAtLeast(d, n - 1);
      assert d * n == d * (n - 1) + d;
    }
  }

  // ---------------------------------------------------------------------------
  // Python's `<` on strings: lexicographic by code point

  function StrLess(a: string, b: string): bool {
    if a == [] then b != []
    else if b == [] then false
    else if a[0] != b[0] then a[0] < b[0]
    else StrLess(a[1..], b[1..])
  }

  lemma {:induction false} StrLessIrreflexive(a: string)
    ensures !StrLess(a, a)
  {
    if a != [] {
      StrLessIrreflexive(a[1..]);
    }
  }

  lemma {:induction false} StrLessTransitive(a: string, b: string, c: string)
    requires StrLess(a, b) && StrLess(b, c)
    ensures StrLess(a, c)
  {
    if a != [] && b != [] && c != [] && a[0] == b[0] && b[0] == c[0] {
      StrLessTransitive(a[1..], b[1..], c[1..]);
    }
  }

  lemma {:induction false} StrLessTotal(a: string, b: string)
    requires a != b
    ensures StrLess(a, b) || StrLess(b, a)
  {
    if a != [] && b != [] && a[0] == b[0] {
      assert a == [a[0]] + a[1..] && b == [b[0]] + b[1..];
      StrLessTotal(a[1..], b[1..]);
    }
  }

  lemma {:induction false} StrLessAsymmetric(a: string, b: string)
    requires StrLess(a, b)
    ensures !StrLess(b, a)
  {
    if a != [] && b != [] && a[0] == b[0] {
      StrLessAsymmetric(a[1..], b[1..]);
    }
  }
}
