/**
 * The Python string operations the trace decoder relies on: digit classes
 * (decimal digits as ASCII only, white space as the whole set `str.isspace`
 * accepts), `str(n)`, `bytes.hex()`,
 * `int(s, base)` on plain digit strings, `str.strip()`, `str.rstrip("\x00")`,
 * the `in` test on substrings, `str.split(c)` and `sep.join(...)`.
 */
module Text {
  import opened Wire

  predicate IsDigit(c: char) { '0' <= c <= '9' }

  predicate IsHexDigit(c: char) { IsDigit(c) || 'a' <= c <= 'f' || 'A' <= c <= 'F' }

  /** `str.isdigit()` on ASCII text: at least one character, and all of them decimal digits. */
  predicate AllDigits(s: string) { |s| > 0 && forall i :: 0 <= i < |s| ==> IsDigit(s[i]) }

  predicate AllHex(s: string) { forall i :: 0 <= i < |s| ==> IsHexDigit(s[i]) }

  function HexDigitValue(c: char): (d: nat)
    requires IsHexDigit(c)
    ensures d < 16
    ensures IsDigit(c) <==> d < 10
  {
    if IsDigit(c) then c as int - '0' as int
    else if 'a' <= c <= 'f' then c as int - 'a' as int + 10
    else c as int - 'A' as int + 10
  }

  /** The lower-case digit of value `d`. */
  function DigitChar(d: nat): (c: char)
    requires d < 16
    ensures IsHexDigit(c) && HexDigitValue(c) == d
    ensures d < 10 ==> IsDigit(c)
  {
    if d < 10 then ('0' as int + d) as char else ('a' as int + d - 10) as char
  }

  /** The value of a digit string in base `base`, most significant digit first. */
  function DigitsValue(s: string, base: nat): nat
    requires AllHex(s)
  {
    if |s| == 0 then 0 else DigitsValue(s[..|s| - 1], base) * base + HexDigitValue(s[|s| - 1])
  }

  /** `str(n)`: decimal digits without a leading zero. */
  function Decimal(n: nat): (s: string)
    ensures AllDigits(s)
    ensures |s| > 1 ==> s[0] != '0'
  {
    if n < 10 then [DigitChar(n)] else Decimal(n / 10) + [DigitChar(n % 10)]
  }

  /** `int(str(n)) == n`. */
  lemma {:induction false} DecimalRoundTrip(n: nat)
    ensures DigitsValue(Decimal(n), 10) == n
  {
    if n >= 10 {
      var s := Decimal(n);
      assert s[..|s| - 1] == Decimal(n / 10);
      DecimalRoundTrip(n / 10);
    }
  }

  /** Different numbers have different decimal texts. */
  lemma DecimalInjective(m: nat, n: nat)
    requires Decimal(m) == Decimal(n)
    ensures m == n
  {
    DecimalRoundTrip(m);
    DecimalRoundTrip(n);
  }

  /** The bytes as an unsigned number, first byte most significant. */
  function BigEndian(d: seq<byte>): nat
  {
    if |d| == 0 then 0 else BigEndian(d[..|d| - 1]) * 0x100 + d[|d| - 1]
  }

  /** `bytes.hex()`: two lower-case digits per byte. */
  function Hex(d: seq<byte>): (s: string)
    ensures |s| == 2 * |d|
    ensures AllHex(s)
  {
    if |d| == 0 then [] else Hex(d[..|d| - 1]) + [DigitChar(d[|d| - 1] / 16), DigitChar(d[|d| - 1] % 16)]
  }

  /** `int(d.hex(), 16)` is the bytes read most significant first. */
  lemma {:induction false} HexValue(d: seq<byte>)
    ensures DigitsValue(Hex(d), 16) == BigEndian(d)
  {
    if |d| > 0 {
      var p := d[..|d| - 1];
      var b := d[|d| - 1];
      var s := Hex(d);
      assert s[..|s| - 1] == Hex(p) + [DigitChar(b / 16)];
      assert s[..|s| - 1][..|s| - 2] == Hex(p);
      HexValue(p);
    }
  }

  /** The whitespace `str.strip()` removes. */
  predicate IsSpace(c: char)
  {
    var n := c as int;
    n == 0x20 || 0x09 <= n <= 0x0d || 0x1c <= n <= 0x1f || n == 0x85 || n == 0xa0 || n == 0x1680 ||
    0x2000 <= n <= 0x200a || n == 0x2028 || n == 0x2029 || n == 0x202f || n == 0x205f || n == 0x3000
  }

  predicate IsNul(c: char) { c as int == 0 }

  /** The number of characters satisfying `drop` that `s` starts with. */
  function Leading(s: string, drop: char -> bool): (n: nat)
    ensures n <= |s|
    ensures forall k :: 0 <= k < n ==> drop(s[k])
    ensures n < |s| ==> !drop(s[n])
  {
    if |s| == 0 || !drop(s[0]) then 0 else 1 + Leading(s[1..], drop)
  }

  /** The number of characters satisfying `drop` that `s` ends with. */
  function Trailing(s: string, drop: char -> bool): (n: nat)
    ensures n <= |s|
    ensures forall k :: |s| - n <= k < |s| ==> drop(s[k])
    ensures n < |s| ==> !drop(s[|s| - n - 1])
  {
    if |s| == 0 || !drop(s[|s| - 1]) then 0 else 1 + Trailing(s[..|s| - 1], drop)
  }

  /** The text without the characters satisfying `drop` at either end. */
  function Trim(s: string, drop: char -> bool): string
  {
    var t := s[Leading(s, drop)..];
    t[..|t| - Trailing(t, drop)]
  }

  /** Where the trimmed text ends in `s`. */
  function TrimEnd(s: string, drop: char -> bool): int
  {
    |s| - Trailing(s[Leading(s, drop)..], drop)
  }

  /**
   * The trimmed text is a slice of `s` with only dropped characters around
   * it, and it neither starts nor ends with one.
   */
  lemma TrimSlice(s: string, drop: char -> bool)
    ensures Leading(s, drop) <= TrimEnd(s, drop) <= |s|
    ensures Trim(s, drop) == s[Leading(s, drop)..TrimEnd(s, drop)]
    ensures forall k :: 0 <= k < Leading(s, drop) ==> drop(s[k])
    ensures forall k :: TrimEnd(s, drop) <= k < |s| ==> drop(s[k])
    ensures |Trim(s, drop)| > 0 ==> !drop(Trim(s, drop)[0]) && !drop(Trim(s, drop)[|Trim(s, drop)| - 1])
  {
    var i := Leading(s, drop);
    var t := s[i..];
    var n := Trailing(t, drop);
    var j := |s| - n;
    forall k | j <= k < |s|
      ensures drop(s[k])
    {
      assert s[k] == t[k - i];
    }
    assert t[..|t| - n] == s[i..j];
    if |Trim(s, drop)| > 0 {
      assert Trim(s, drop)[0] == t[0];
      assert Trim(s, drop)[|Trim(s, drop)| - 1] == t[|t| - n - 1];
    }
  }

  /** Text that neither starts nor ends with a dropped character is its own trim. */
  lemma TrimClean(s: string, drop: char -> bool)
    requires |s| > 0 ==> !drop(s[0]) && !drop(s[|s| - 1])
    ensures Trim(s, drop) == s
  {
  }

  /** `s.strip()`. */
  function Strip(s: string): string
  {
    Trim(s, IsSpace)
  }

  /** Stripping twice is stripping once. */
  lemma StripIdempotent(s: string)
    ensures Strip(Strip(s)) == Strip(s)
  {
    TrimSlice(s, IsSpace);
    TrimClean(Strip(s), IsSpace);
  }

  /** `s.rstrip("\x00")`. */
  function RStripNul(s: string): (t: string)
    ensures |t| <= |s| && t == s[..|t|]
    ensures forall k :: |t| <= k < |s| ==> IsNul(s[k])
    ensures |t| > 0 ==> !IsNul(t[|t| - 1])
  {
    s[..|s| - Trailing(s, IsNul)]
  }

  /** `sub` occurs in `s` starting at position `i`. */
  predicate OccursAt(s: string, sub: string, i: int)
  {
    0 <= i <= |s| - |sub| && s[i..i + |sub|] == sub
  }

  /** `sub in s`: `sub` occurs at some position of `s`. */
  predicate Contains(s: string, sub: string)
  {
    exists i | 0 <= i <= |s| - |sub| :: OccursAt(s, sub, i)
  }

  /** `sep.join(parts)`. */
  function Join(parts: seq<string>, sep: string): string
  {
    if |parts| == 0 then "" else if |parts| == 1 then parts[0] else parts[0] + sep + Join(parts[1..], sep)
  }

  /** `s.split(c)`: the pieces between occurrences of `c`, empty ones included. */
  function Split(s: string, c: char): (parts: seq<string>)
    ensures |parts| > 0
    ensures forall i :: 0 <= i < |parts| ==> c !in parts[i]
  {
    if |s| == 0 then [""]
    else if s[0] == c then [""] + Split(s[1..], c)
    else
      var r := Split(s[1..], c);
      [[s[0]] + r[0]] + r[1..]
  }

  /** Joining the pieces of a split with its separator gives back the text. */
  lemma {:induction false} JoinSplit(s: string, c: char)
    ensures Join(Split(s, c), [c]) == s
  {
    if |s| > 0 {
      JoinSplit(s[1..], c);
      var r := Split(s[1..], c);
      if s[0] != c && |r| > 1 {
        assert Join(r, [c]) == r[0] + [c] + Join(r[1..], [c]);
      }
    }
  }

  /** Text without the separator is a single piece. */
  lemma {:induction false} SplitNone(s: string, c: char)
    requires c !in s
    ensures Split(s, c) == [s]
  {
    if |s| > 0 {
      assert c !in s[1..];
      SplitNone(s[1..], c);
      assert [s[0]] + s[1..] == s;
    }
  }

  /** Joining two non-empty lists puts one separator between their joins. */
  lemma {:induction false} JoinConcat(a: seq<string>, b: seq<string>, sep: string)
    requires |a| > 0 && |b| > 0
    ensures Join(a + b, sep) == Join(a, sep) + sep + Join(b, sep)
  {
    if |a| > 1 {
      assert (a + b)[1..] == a[1..] + b;
      JoinConcat(a[1..], b, sep);
    } else {
      assert (a + b)[1..] == b;
    }
  }

  /** A piece without the separator, then the separator, splits off as the first piece. */
  lemma {:induction false} SplitFirst(a: string, c: char, t: string)
    requires c !in a
    ensures Split(a + [c] + t, c) == [a] + Split(t, c)
  {
    var s := a + [c] + t;
    if |a| == 0 {
      assert s[1..] == t;
    } else {
      assert s[1..] == a[1..] + [c] + t;
      assert c !in a[1..];
      SplitFirst(a[1..], c, t);
      assert [a[0]] + a[1..] == a;
    }
  }

  /** Splitting a join of pieces without the separator gives back the pieces. */
  lemma {:induction false} SplitJoin(parts: seq<string>, c: char)
    requires |parts| > 0
    requires forall i :: 0 <= i < |parts| ==> c !in parts[i]
    ensures Split(Join(parts, [c]), c) == parts
  {
    if |parts| == 1 {
      SplitNone(parts[0], c);
    } else {
      SplitFirst(parts[0], c, Join(parts[1..], [c]));
      SplitJoin(parts[1..], c);
    }
  }

  /** A text whose characters all pass `ok` followed by one that does not has exactly that many leading passing characters. */
  lemma {:induction false} LeadingPrefix(a: string, b: string, ok: char -> bool)
    requires forall k :: 0 <= k < |a| ==> ok(a[k])
    requires |b| > 0 ==> !ok(b[0])
    ensures Leading(a + b, ok) == |a|
  {
    if |a| > 0 {
      assert (a + b)[1..] == a[1..] + b;
      LeadingPrefix(a[1..], b, ok);
    } else {
      assert a + b == b;
    }
  }

  /** `s.startswith(p)`. */
  predicate StartsWith(s: string, p: string)
  {
    |p| <= |s| && s[..|p|] == p
  }

  /** Text that lacks one of the characters of `sub` does not contain it. */
  lemma MissingChar(s: string, sub: string, j: nat)
    requires j < |sub|
    requires forall k :: 0 <= k < |s| ==> s[k] != sub[j]
    ensures !Contains(s, sub)
  {
    forall i | 0 <= i <= |s| - |sub|
      ensures !OccursAt(s, sub, i)
    {
      assert s[i..i + |sub|][j] == s[i + j];
    }
  }
}
