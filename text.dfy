// The JavaScript string and number primitives the game relies on, for the
// inputs it gives them: decimal formatting of integers (`${n}`,
// `n.toString()`), `Number(s)`, `parseInt(s)`, `s.split(c)` and
// `s.padStart(n, c)`.  A string is a sequence of characters.
module JsText {

  /** A JavaScript number as far as this program produces them: an integer or NaN. */
  datatype JsNumber = Int(value: int) | NaN

  predicate IsDigit(c: char) {
    '0' <= c <= '9'
  }

  predicate AllDigits(s: string) {
    forall i | 0 <= i < |s| :: IsDigit(s[i])
  }

  function DigitChar(d: nat): (c: char)
    requires d < 10
    ensures IsDigit(c)
  {
    ('0' as int + d) as char
  }

  function DigitValue(c: char): (d: nat)
    requires IsDigit(c)
    ensures d < 10 && DigitChar(d) == c
  {
    c as int - '0' as int
  }

  /** Decimal digits of `n`, most significant first, without leading zeros. */
  function NatToString(n: nat): (s: string)
    ensures |s| > 0 && AllDigits(s)
    ensures s[0] == '0' ==> n == 0
    decreases n
  {
    if n < 10 then [DigitChar(n)] else NatToString(n / 10) + [DigitChar(n % 10)]
  }

  /** `${n}` for an integer `n`: a minus sign for negatives, then the digits. */
  function IntToString(n: int): string {
    if n < 0 then "-" + NatToString(-n) else NatToString(n)
  }

  /** `n.toString()` for a number that may be NaN. */
  function NumberToString(x: JsNumber): string {
    match x
    case Int(n) => IntToString(n)
    case NaN => "NaN"
  }

  /** The value of a string of decimal digits (leading zeros allowed). */
  function DigitsValue(s: string): nat
    requires AllDigits(s)
  {
    if |s| == 0 then 0 else DigitsValue(s[..|s| - 1]) * 10 + DigitValue(s[|s| - 1])
  }

  /**
   * `Number(s)` for the empty string (0) and for an optional sign followed
   * by decimal digits; every other string is NaN here.
   */
  function ParseNumber(s: string): JsNumber {
    if s == "" then Int(0)
    else if s[0] == '-' || s[0] == '+' then
      var digits := s[1..];
      if |digits| > 0 && AllDigits(digits) then
        var v: int := DigitsValue(digits);
        Int(if s[0] == '-' then -v else v)
      else NaN
    else if AllDigits(s) then Int(DigitsValue(s))
    else NaN
  }

  /** The longest prefix of `s` made of decimal digits. */
  function DigitPrefix(s: string): (p: string)
    ensures p <= s && AllDigits(p)
    ensures |p| < |s| ==> !IsDigit(s[|p|])
  {
    if |s| > 0 && IsDigit(s[0]) then [s[0]] + DigitPrefix(s[1..]) else ""
  }

  /**
   * `parseInt(s)` (no radix): an optional sign, then the longest run of
   * decimal digits; NaN when there is no digit.
   */
  function ParseInt(s: string): JsNumber {
    var negative := |s| > 0 && s[0] == '-';
    var body := if |s| > 0 && (s[0] == '-' || s[0] == '+') then s[1..] else s;
    var digits := DigitPrefix(body);
    if digits == "" then NaN
    else
      var v: int := DigitsValue(digits);
      Int(if negative then -v else v)
  }

  /** Number of occurrences of `c` in `s`. */
  function Count(s: string, c: char): nat {
    if |s| == 0 then 0 else (if s[0] == c then 1 else 0) + Count(s[1..], c)
  }

  /** `s.split(sep)` for a one-character separator. */
  function Split(s: string, sep: char): (parts: seq<string>)
    ensures |parts| == Count(s, sep) + 1
    ensures forall i, j | 0 <= i < |parts| && 0 <= j < |parts[i]| :: parts[i][j] != sep
  {
    if |s| == 0 then [""]
    else
      var rest := Split(s[1..], sep);
      if s[0] == sep then [""] + rest
      else [[s[0]] + rest[0]] + rest[1..]
  }

  /** The characters of `parts`, one part after another. */
  function Concat(parts: seq<string>): string {
    if |parts| == 0 then "" else parts[0] + Concat(parts[1..])
  }

  /** `s` with every occurrence of `c` taken out. */
  function Without(s: string, c: char): string {
    if |s| == 0 then "" else (if s[0] == c then "" else [s[0]]) + Without(s[1..], c)
  }

  /** `n` copies of `c`. */
  function Repeat(c: char, n: nat): (s: string)
    ensures |s| == n && forall i | 0 <= i < n :: s[i] == c
  {
    if n == 0 then "" else [c] + Repeat(c, n - 1)
  }

  /** `s.padStart(width, c)`. */
  function PadStart(s: string, width: int, c: char): string {
    if |s| >= width then s else Repeat(c, width - |s|) + s
  }

  // ---------------------------------------------------------------------
  // Decimal formatting and parsing

  lemma {:induction false} DigitsValueOfNatToString(n: nat)
    ensures DigitsValue(NatToString(n)) == n
    decreases n
  {
    if n >= 10 {
      var s := NatToString(n);
      assert s[..|s| - 1] == NatToString(n / 10);
      DigitsValueOfNatToString(n / 10);
    }
  }

  /** Leading zeros do not change the value of a digit string. */
  lemma {:induction false} DigitsValueLeadingZeros(k: nat, s: string)
    requires AllDigits(s)
    ensures AllDigits(Repeat('0', k) + s)
    ensures DigitsValue(Repeat('0', k) + s) == DigitsValue(s)
    decreases |s|
  {
    var z := Repeat('0', k) + s;
    if |s| == 0 {
      assert z == Repeat('0', k);
      ZerosValue(k);
    } else {
      assert z[..|z| - 1] == Repeat('0', k) + s[..|s| - 1];
      DigitsValueLeadingZeros(k, s[..|s| - 1]);
    }
  }

  lemma {:induction false} ZerosValue(k: nat)
    ensures AllDigits(Repeat('0', k)) && DigitsValue(Repeat('0', k)) == 0
  {
    if k > 0 {
      var z := Repeat('0', k);
      assert z[..k - 1] == Repeat('0', k - 1);
      ZerosValue(k - 1);
    }
  }

  /** `Number(`${n}`) == n`: formatting an integer and reading it back is the identity. */
  lemma ParseNumberIntToString(n: int)
    ensures ParseNumber(IntToString(n)) == Int(n)
  {
    var s := IntToString(n);
    if n < 0 {
      assert s[1..] == NatToString(-n);
      DigitsValueOfNatToString(-n);
    } else {
      DigitsValueOfNatToString(n);
    }
  }

  /** Decimal formatting is injective. */
  lemma IntToStringInjective(a: int, b: int)
    requires IntToString(a) == IntToString(b)
    ensures a == b
  {
    ParseNumberIntToString(a);
    ParseNumberIntToString(b);
  }

  /** A formatted integer holds only digits and possibly a leading minus sign. */
  lemma IntToStringChars(n: int)
    ensures |IntToString(n)| > 0
    ensures forall i | 0 <= i < |IntToString(n)| :: IsDigit(IntToString(n)[i]) || (i == 0 && IntToString(n)[i] == '-')
  {
  }

  /** `parseInt` reads back the integer at the head of a string. */
  lemma ParseIntIntToString(n: int, rest: string)
    requires |rest| > 0 ==> !IsDigit(rest[0])
    ensures ParseInt(IntToString(n) + rest) == Int(n)
  {
    var m: nat := if n < 0 then -n else n;
    var digits := NatToString(m);
    DigitsValueOfNatToString(m);
    DigitPrefixOf(digits, rest);
    if n < 0 {
      ConsTail('-', digits, rest);
      ParseIntSigned(IntToString(n) + rest);
    } else {
      assert (digits + rest)[0] == digits[0];
    }
  }

  /** `parseInt` of a string that starts with a minus sign. */
  lemma ParseIntSigned(s: string)
    requires |s| > 0 && s[0] == '-'
    ensures ParseInt(s) == (if DigitPrefix(s[1..]) == "" then NaN else Int(-(DigitsValue(DigitPrefix(s[1..])) as int)))
  {
  }

  lemma ConsTail(c: char, a: string, b: string)
    ensures ([c] + a + b)[0] == c && ([c] + a + b)[1..] == a + b
  {
  }

  lemma {:induction false} DigitPrefixOf(digits: string, rest: string)
    requires AllDigits(digits)
    requires |rest| > 0 ==> !IsDigit(rest[0])
    ensures DigitPrefix(digits + rest) == digits
    decreases |digits|
  {
    if |digits| > 0 {
      assert (digits + rest)[1..] == digits[1..] + rest;
      DigitPrefixOf(digits[1..], rest);
    }
  }

  /** Zero-padding keeps the value: `parseInt` reads a padded number back. */
  lemma ParseIntPadded(n: nat, width: int)
    ensures ParseInt(PadStart(IntToString(n), width, '0')) == Int(n)
  {
    var s := NatToString(n);
    DigitsValueOfNatToString(n);
    var padded := PadStart(s, width, '0');
    if |s| < width {
      DigitsValueLeadingZeros(width - |s|, s);
    }
    assert |padded| > 0 && AllDigits(padded) && DigitsValue(padded) == n;
    ParseIntDigits(padded);
  }

  /** `parseInt` of a non-empty string of digits is its value. */
  lemma ParseIntDigits(s: string)
    requires |s| > 0 && AllDigits(s)
    ensures ParseInt(s) == Int(DigitsValue(s))
  {
    DigitPrefixOf(s, "");
    assert s + "" == s;
  }

  // ---------------------------------------------------------------------
  // Splitting

  /** A string without the separator splits into itself alone. */
  lemma {:induction false} SplitNoSeparator(s: string, sep: char)
    requires forall i | 0 <= i < |s| :: s[i] != sep
    ensures Split(s, sep) == [s]
  {
    if |s| > 0 {
      SplitNoSeparator(s[1..], sep);
      assert [s[0]] + s[1..] == s;
    }
  }

  /** The first field is everything before the first separator. */
  lemma {:induction false} SplitAtSeparator(a: string, sep: char, b: string)
    requires forall i | 0 <= i < |a| :: a[i] != sep
    ensures Split(a + [sep] + b, sep) == [a] + Split(b, sep)
  {
    var s := a + [sep] + b;
    if |a| == 0 {
      assert s[1..] == b;
    } else {
      assert s[1..] == a[1..] + [sep] + b;
      SplitAtSeparator(a[1..], sep, b);
      assert [a[0]] + a[1..] == a;
    }
  }

  /** Splitting loses exactly the separators. */
  lemma {:induction false} ConcatSplit(s: string, sep: char)
    ensures Concat(Split(s, sep)) == Without(s, sep)
  {
    if |s| > 0 {
      var rest := Split(s[1..], sep);
      ConcatSplit(s[1..], sep);
      if s[0] == sep {
        assert ([""] + rest)[1..] == rest;
      } else {
        ConcatConsHead(s[0], rest);
      }
    }
  }

  lemma ConcatConsHead(c: char, parts: seq<string>)
    requires |parts| > 0
    ensures Concat([[c] + parts[0]] + parts[1..]) == [c] + Concat(parts)
  {
    var head, rest := parts[0], parts[1..];
    var tail := Concat(rest);
    assert ([[c] + head] + rest)[1..] == rest;
    assert ([c] + head) + tail == [c] + (head + tail);
  }

  lemma {:induction false} WithoutLength(s: string, c: char)
    ensures |Without(s, c)| == |s| - Count(s, c)
  {
    if |s| > 0 {
      WithoutLength(s[1..], c);
    }
  }

  /** Appending a part appends its characters. */
  lemma {:induction false} ConcatSnoc(parts: seq<string>, last: string)
    ensures Concat(parts + [last]) == Concat(parts) + last
  {
    if |parts| > 0 {
      assert (parts + [last])[1..] == parts[1..] + [last];
      ConcatSnoc(parts[1..], last);
    }
  }

  /** A character occurs in the concatenation exactly when it occurs in some part. */
  lemma {:induction false} ConcatMembers(parts: seq<string>, x: char)
    ensures x in Concat(parts) <==> exists c | 0 <= c < |parts| :: x in parts[c]
  {
    if |parts| > 0 {
      ConcatMembers(parts[1..], x);
      if x in parts[0] {
        assert x in Concat(parts);
      } else if exists c | 0 <= c < |parts| :: x in parts[c] {
        var c :| 0 <= c < |parts| && x in parts[c];
        assert x in parts[1..][c - 1];
      }
    }
  }

  /** Removing `c` removes exactly the occurrences of `c`. */
  lemma {:induction false} WithoutMembers(s: string, c: char, x: char)
    ensures x in Without(s, c) <==> x in s && x != c
  {
    if |s| > 0 {
      WithoutMembers(s[1..], c, x);
      assert s == [s[0]] + s[1..];
    }
  }
}
