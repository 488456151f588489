/** The handful of Python string operations the chat pipeline relies on:
    `str.isspace`, `str.strip`, ASCII `str.lower`, `sep.join`, decimal
    rendering of a natural number (as in an f-string) and character counts. */
module Text {

  /** Python's `str.isspace()` for a single character: the ASCII blanks
      and controls 9-13 and 28-31, plus the Unicode space separators and
      line/paragraph separators. */
  predicate IsSpace(c: char) {
    || c == ' '
    || ('\t' <= c <= '\r')
    || ('\U{1C}' <= c <= '\U{1F}')
    || c == '\U{85}'
    || c == '\U{A0}'
    || c == '\U{1680}'
    || ('\U{2000}' <= c <= '\U{200A}')
    || c == '\U{2028}'
    || c == '\U{2029}'
    || c == '\U{202F}'
    || c == '\U{205F}'
    || c == '\U{3000}'
  }

  /** Neither end of `s` is whitespace (vacuously true of ""). */
  predicate Trimmed(s: string) {
    s == [] || (!IsSpace(s[0]) && !IsSpace(s[|s| - 1]))
  }

  /** `r` is what remains of `s` once the leading and trailing whitespace
      is cut off: an infix of `s`, starting at `i`, surrounded only by
      whitespace and with no whitespace at either of its own ends. */
  ghost predicate IsStripOf(r: string, s: string) {
    exists i :: StrippedAt(r, s, i)
  }

  ghost predicate StrippedAt(r: string, s: string, i: int) {
    && 0 <= i <= |s| - |r|
    && r == s[i..i + |r|]
    && (forall k :: 0 <= k < i ==> IsSpace(s[k]))
    && (forall k :: i + |r| <= k < |s| ==> IsSpace(s[k]))
    && Trimmed(r)
  }

  /** How many whitespace characters `str.lstrip()` removes. */
  function LeadingSpace(s: string): (n: nat)
    ensures n <= |s|
    ensures forall k :: 0 <= k < n ==> IsSpace(s[k])
    ensures n < |s| ==> !IsSpace(s[n])
  {
    if |s| > 0 && IsSpace(s[0]) then 1 + LeadingSpace(s[1..]) else 0
  }

  /** How many whitespace characters `str.rstrip()` removes. */
  function TrailingSpace(s: string): (n: nat)
    ensures n <= |s|
    ensures forall k :: |s| - n <= k < |s| ==> IsSpace(s[k])
    ensures n < |s| ==> !IsSpace(s[|s| - n - 1])
  {
    if |s| > 0 && IsSpace(s[|s| - 1]) then 1 + TrailingSpace(s[..|s| - 1]) else 0
  }

  /** Python's `str.strip()`. */
  function Strip(s: string): (r: string)
    ensures IsStripOf(r, s)
  {
    var i := LeadingSpace(s);
    var j := TrailingSpace(s[i..]);
    StripWitness(s, i, j);
    s[i..|s| - j]
  }

  /** Cutting `i` leading and `j` trailing whitespace characters, where
      the characters just inside are not whitespace, leaves the strip. */
  lemma StripWitness(s: string, i: nat, j: nat)
    requires i <= |s| && j <= |s| - i
    requires forall k :: 0 <= k < i ==> IsSpace(s[k])
    requires i < |s| ==> !IsSpace(s[i])
    requires forall k :: |s| - i - j <= k < |s| - i ==> IsSpace(s[i..][k])
    requires j < |s| - i ==> !IsSpace(s[i..][|s| - i - j - 1])
    ensures StrippedAt(s[i..|s| - j], s, i)
  {
    assert j < |s| - i ==> s[i..][|s| - i - j - 1] == s[|s| - j - 1];
    StripRightSpace(s, i, j);
    StripEnds(s, i, j);
  }

  lemma StripRightSpace(s: string, i: nat, j: nat)
    requires i <= |s| && j <= |s| - i
    requires forall k :: |s| - i - j <= k < |s| - i ==> IsSpace(s[i..][k])
    ensures forall k :: |s| - j <= k < |s| ==> IsSpace(s[k])
  {
    forall k | |s| - j <= k < |s| ensures IsSpace(s[k]) {
      assert s[k] == s[i..][k - i];
    }
  }

  lemma StripEnds(s: string, i: nat, j: nat)
    requires i <= |s| && j <= |s| - i
    requires i < |s| ==> !IsSpace(s[i])
    requires j < |s| - i ==> !IsSpace(s[|s| - j - 1])
    ensures Trimmed(s[i..|s| - j])
  {
  }

  /** The strip of a string is unique: `IsStripOf` pins down one result. */
  lemma StripUnique(r1: string, r2: string, s: string)
    requires IsStripOf(r1, s) && IsStripOf(r2, s)
    ensures r1 == r2
  {
  }

  /** ASCII case folding; every other character is left unchanged. */
  function LowerChar(c: char): char {
    if 'A' <= c <= 'Z' then (c as int + 32) as char else c
  }

  function ToLower(s: string): (r: string)
    ensures |r| == |s|
    ensures forall k :: 0 <= k < |s| ==> !('A' <= r[k] <= 'Z')
    ensures forall k :: 0 <= k < |s| && !('A' <= s[k] <= 'Z') ==> r[k] == s[k]
    ensures forall k :: 0 <= k < |s| && 'A' <= s[k] <= 'Z' ==> r[k] as int == s[k] as int + 32
  {
    seq(|s|, k requires 0 <= k < |s| => LowerChar(s[k]))
  }

  /** Python's `sep.join(parts)`. */
  function Join(parts: seq<string>, sep: string): string
  {
    if |parts| == 0 then ""
    else if |parts| == 1 then parts[0]
    else parts[0] + sep + Join(parts[1..], sep)
  }

  /** The first part opens the join and the last part closes it. */
  lemma JoinEnds(parts: seq<string>, sep: string)
    requires |parts| > 0
    ensures var r, last := Join(parts, sep), parts[|parts| - 1];
      && |parts[0]| <= |r| && r[..|parts[0]|] == parts[0]
      && |last| <= |r| && r[|r| - |last|..] == last
  {
    if |parts| > 1 {
      JoinCons(parts, sep);
      JoinSnoc(parts, sep);
    }
  }

  /** Joining one more part appends the separator and that part: between
      any two neighbouring parts lies exactly one separator and nothing
      else. */
  lemma {:induction false} JoinSnoc(parts: seq<string>, sep: string)
    requires |parts| > 1
    ensures Join(parts, sep) == Join(parts[..|parts| - 1], sep) + sep + parts[|parts| - 1]
  {
    var init, last := parts[..|parts| - 1], parts[|parts| - 1];
    JoinCons(parts, sep);
    if |parts| == 2 {
      assert init == [parts[0]];
      assert parts[1..] == [last];
    } else {
      var mid := parts[1..];
      JoinSnoc(mid, sep);
      assert mid[..|mid| - 1] == init[1..];
      assert mid[|mid| - 1] == last;
      JoinCons(init, sep);
      assert init[0] == parts[0];
      Reassociate(parts[0], sep, Join(init[1..], sep), last);
    }
  }

  lemma JoinCons(parts: seq<string>, sep: string)
    requires |parts| > 1
    ensures Join(parts, sep) == parts[0] + sep + Join(parts[1..], sep)
  {
  }

  lemma Reassociate(a: string, sep: string, m: string, z: string)
    ensures a + sep + (m + sep + z) == (a + sep + m) + sep + z
  {
  }

  /** Joining parts free of the one-character separator puts exactly one
      separator between neighbours and none anywhere else. */
  lemma {:induction false} JoinSeparators(parts: seq<string>, c: char)
    requires forall k :: 0 <= k < |parts| ==> c !in parts[k]
    ensures Count(c, Join(parts, [c])) == if |parts| == 0 then 0 else |parts| - 1
  {
    if |parts| == 1 {
      CountAbsent(c, parts[0]);
    } else if |parts| > 1 {
      var tail := Join(parts[1..], [c]);
      CountAbsent(c, parts[0]);
      CountConcat(c, parts[0], [c]);
      CountConcat(c, parts[0] + [c], tail);
      JoinSeparators(parts[1..], c);
    }
  }

  predicate IsDigit(c: char) {
    '0' <= c <= '9'
  }

  predicate AllDigits(s: string) {
    forall k :: 0 <= k < |s| ==> IsDigit(s[k])
  }

  function Digit(d: nat): (c: char)
    requires d < 10
    ensures IsDigit(c)
  {
    ('0' as int + d) as char
  }

  function DigitValue(c: char): nat
    requires IsDigit(c)
  {
    c as int - '0' as int
  }

  /** The decimal rendering of `n`, as `f"{n}"` produces it. */
  function Decimal(n: nat): (r: string)
    ensures |r| > 0 && AllDigits(r)
    ensures r[0] == '0' ==> n == 0
  {
    if n < 10 then [Digit(n)] else Decimal(n / 10) + [Digit(n % 10)]
  }

  /** Reads a string of decimal digits back as a number. */
  function ParseDecimal(s: string): nat
    requires AllDigits(s)
  {
    if |s| == 0 then 0
    else ParseDecimal(s[..|s| - 1]) * 10 + DigitValue(s[|s| - 1])
  }

  lemma {:induction false} DecimalRoundTrip(n: nat)
    ensures ParseDecimal(Decimal(n)) == n
  {
    if n >= 10 {
      var d := Decimal(n);
      assert d[..|d| - 1] == Decimal(n / 10);
      DecimalRoundTrip(n / 10);
    }
  }

  /** Number of occurrences of `c` in `s`. */
  function Count(c: char, s: string): nat
  {
    if |s| == 0 then 0 else (if s[0] == c then 1 else 0) + Count(c, s[1..])
  }

  lemma {:induction false} CountConcat(c: char, a: string, b: string)
    ensures Count(c, a + b) == Count(c, a) + Count(c, b)
  {
    if |a| > 0 {
      assert (a + b)[0] == a[0];
      assert (a + b)[1..] == a[1..] + b;
      CountConcat(c, a[1..], b);
    } else {
      assert a + b == b;
    }
  }

  lemma {:induction false} CountAbsent(c: char, s: string)
    requires c !in s
    ensures Count(c, s) == 0
  {
    if |s| > 0 {
      assert s[1..] <= s[1..];
      assert forall x :: x in s[1..] ==> x in s;
      CountAbsent(c, s[1..]);
    }
  }
}
