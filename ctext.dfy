/** Helpers that give C's character, string and integer conventions a
    meaning in Dafny: NUL-terminated reads, `isspace` and `tolower` of the
    "C" locale, `%d` formatting and division that truncates toward zero. */
module CText {

  datatype Option<T> = None | Some(value: T)

  /** The character C code reads at index `k` of a NUL-terminated string:
      one past the last character it reads the terminator. Indices further
      out are treated as NUL too. */
  function At(s: string, k: nat): (c: char)
    ensures k < |s| ==> c == s[k]
    ensures k >= |s| ==> c == '\0'
  {
    if k < |s| then s[k] else '\0'
  }

  /** The part of `s` after the last `c` (all of `s` when there is none):
      what `strrchr(s, c) + 1` points to. */
  function AfterLast(s: string, c: char): (r: string)
    ensures |r| <= |s| && r == s[|s| - |r|..]
    ensures c !in r
    ensures |r| < |s| ==> s[|s| - |r| - 1] == c
    decreases |s|
  {
    if s == [] then []
    else if s[|s| - 1] == c then []
    else
      var p := s[..|s| - 1];
      var r := AfterLast(p, c);
      assert s[|s| - |r| - 1..] == p[|p| - |r|..] + [s[|s| - 1]];
      r + [s[|s| - 1]]
  }

  /** `isspace` in the "C" locale: space, tab, newline, vertical tab, form feed, carriage return. */
  predicate IsSpace(c: char)
  {
    c == ' ' || c == '\t' || c == '\n' || c == '\U{000B}' || c == '\U{000C}' || c == '\r'
  }

  predicate IsUpper(c: char)
  {
    'A' <= c <= 'Z'
  }

  /** `tolower` in the "C" locale: only the 26 ASCII capitals change. */
  function ToLower(c: char): (r: char)
    ensures IsUpper(c) ==> r as int == c as int + 32 && 'a' <= r <= 'z'
    ensures !IsUpper(c) ==> r == c
  {
    if IsUpper(c) then (c as int + 32) as char else c
  }

  /** A string with every ASCII capital lowered, as `strcasecmp` compares it. */
  function Lower(s: string): (r: string)
    ensures |r| == |s|
    ensures forall k :: 0 <= k < |s| ==> r[k] == ToLower(s[k])
  {
    seq(|s|, k requires 0 <= k < |s| => ToLower(s[k]))
  }

  /** Integer division as C (and C++) performs it, for a positive divisor:
      the quotient is truncated toward zero, so the remainder `a - q * b`
      takes the sign of `a` (Dafny's own `/` is Euclidean and differs for negative `a`). */
  function CDiv(a: int, b: int): (q: int)
    requires b > 0
    ensures a >= 0 ==> 0 <= a - q * b < b
    ensures a < 0 ==> -b < a - q * b <= 0
  {
    if a >= 0 then a / b else -((-a) / b)
  }

  /** The decimal digit character for `d`. */
  function Digit(d: nat): (c: char)
    requires d < 10
    ensures '0' <= c <= '9' && c as int - '0' as int == d
  {
    ('0' as int + d) as char
  }

  predicate IsDigit(c: char)
  {
    '0' <= c <= '9'
  }

  function DigitValue(c: char): nat
    requires IsDigit(c)
  {
    c as int - '0' as int
  }

  /** `printf("%d", n)` for a non-negative `n`: its decimal digits, most significant first, no leading zero. */
  function Decimal(n: nat): (s: string)
    ensures 1 <= |s|
    ensures forall k :: 0 <= k < |s| ==> IsDigit(s[k])
    ensures |s| > 1 ==> s[0] != '0'
    decreases n
  {
    if n < 10 then [Digit(n)] else Decimal(n / 10) + [Digit(n % 10)]
  }

  function Pow10(k: nat): (p: nat)
    ensures p >= 1 && (k >= 1 ==> p >= 10)
  {
    if k == 0 then 1 else 10 * Pow10(k - 1)
  }

  /** `%d` prints at most `k` digits exactly for the numbers below 10 to the `k`. */
  lemma {:induction false} DecimalLength(n: nat, k: nat)
    requires k >= 1
    ensures |Decimal(n)| <= k <==> n < Pow10(k)
    decreases k
  {
    if n >= 10 {
      if k == 1 {
        assert |Decimal(n)| == |Decimal(n / 10)| + 1;
      } else {
        DecimalLength(n / 10, k - 1);
      }
    }
  }

  /** The value of a string of decimal digits, read left to right. */
  function ValueOf(s: string): nat
    requires forall k :: 0 <= k < |s| ==> IsDigit(s[k])
  {
    if s == [] then 0 else 10 * ValueOf(s[..|s| - 1]) + DigitValue(s[|s| - 1])
  }

  /** Reading back what `%d` printed gives the number printed. */
  lemma {:induction false} DecimalRoundTrip(n: nat)
    ensures ValueOf(Decimal(n)) == n
    decreases n
  {
    if n >= 10 {
      DecimalRoundTrip(n / 10);
      var s := Decimal(n);
      assert s[..|s| - 1] == Decimal(n / 10);
    }
  }

  /** Reading a zero-padded string gives the same value as the unpadded one. */
  lemma {:induction false} LeadingZerosIgnored(z: nat, s: string)
    requires forall k :: 0 <= k < |s| ==> IsDigit(s[k])
    ensures ValueOf(seq(z, _ => '0') + s) == ValueOf(s)
    decreases z, |s|
  {
    var zs := seq(z, _ => '0');
    if s == [] {
      assert zs + s == zs;
      if z > 0 {
        assert zs[..z - 1] == seq(z - 1, _ => '0');
        LeadingZerosIgnored(z - 1, []);
        assert seq(z - 1, _ => '0') + [] == seq(z - 1, _ => '0');
      }
    } else {
      var t := s[..|s| - 1];
      assert (zs + s)[..|zs + s| - 1] == zs + t;
      LeadingZerosIgnored(z, t);
    }
  }
}
