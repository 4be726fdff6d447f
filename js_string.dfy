/** The JavaScript string built-ins the board relies on: `String.prototype.trim`,
    `Number.prototype.toString` on integers and `padStart(2, '0')`, with a
    decimal reader that inverts them. */
module JsString {

  /** The characters `trim` removes: WhiteSpace and LineTerminator of the
      ECMAScript grammar (section 12.2 and 12.3 of ECMA-262). */
  predicate IsWhiteSpace(c: char)
  {
    c == ' ' || c == '\t' || c == '\n' || c == '\r' || c == '\U{000B}' || c == '\U{000C}'
    || c == '\U{00A0}' || c == '\U{FEFF}' || c == '\U{1680}'
    || ('\U{2000}' <= c <= '\U{200A}')
    || c == '\U{2028}' || c == '\U{2029}' || c == '\U{202F}' || c == '\U{205F}' || c == '\U{3000}'
  }

  /** The number of white-space characters `s` starts with. */
  function LeadingWhite(s: string): (n: nat)
    ensures n <= |s|
    ensures forall i :: 0 <= i < n ==> IsWhiteSpace(s[i])
    ensures n < |s| ==> !IsWhiteSpace(s[n])
  {
    if s != [] && IsWhiteSpace(s[0]) then 1 + LeadingWhite(s[1..]) else 0
  }

  /** The number of white-space characters `s` ends with. */
  function TrailingWhite(s: string): (n: nat)
    ensures n <= |s|
    ensures forall i :: |s| - n <= i < |s| ==> IsWhiteSpace(s[i])
    ensures n < |s| ==> !IsWhiteSpace(s[|s| - n - 1])
  {
    if s != [] && IsWhiteSpace(s[|s| - 1]) then 1 + TrailingWhite(s[..|s| - 1]) else 0
  }

  /** `s.trim()`: the infix of `s` that starts at offset `k` (the length of
      the leading white space), with only white space around it; it is empty
      exactly when `s` is all white space. */
  function Trim(s: string): (r: string)
    ensures var k := LeadingWhite(s);
      && k + |r| <= |s| && r == s[k..k + |r|]
      && (forall i :: 0 <= i < k ==> IsWhiteSpace(s[i]))
      && (forall i :: k + |r| <= i < |s| ==> IsWhiteSpace(s[i]))
    ensures r == [] <==> forall i :: 0 <= i < |s| ==> IsWhiteSpace(s[i])
    ensures r != [] ==> !IsWhiteSpace(r[0]) && !IsWhiteSpace(r[|r| - 1])
  {
    var k := LeadingWhite(s);
    if k == |s| then []
    else
      var n := TrailingWhite(s);
      assert !IsWhiteSpace(s[k]);
      s[k..|s| - n]
  }

  /** A string with no white space at either end is its own trim. */
  lemma TrimOfTrimmed(s: string)
    requires s != [] ==> !IsWhiteSpace(s[0]) && !IsWhiteSpace(s[|s| - 1])
    ensures Trim(s) == s
  {
  }

  /** Trimming twice is trimming once. */
  lemma TrimIdempotent(s: string)
    ensures Trim(Trim(s)) == Trim(s)
  {
    TrimOfTrimmed(Trim(s));
  }

  function Digit(d: int): char
    requires 0 <= d < 10
  {
    (48 + d) as char
  }

  predicate IsDigit(c: char)
  {
    '0' <= c <= '9'
  }

  function DigitValue(c: char): int
  {
    c as int - 48
  }

  /** The decimal numeral of a natural number, without leading zeros. */
  function NatToString(n: nat): (r: string)
    ensures r != []
    ensures forall i :: 0 <= i < |r| ==> IsDigit(r[i])
    ensures |r| == 1 <==> n < 10
    ensures r[0] == '0' <==> n == 0
  {
    if n < 10 then [Digit(n)] else NatToString(n / 10) + [Digit(n % 10)]
  }

  /** `n.toString()` for an integer `n`: a '-' exactly for a negative
      number, then the digits of its magnitude, with no leading zero. */
  function IntToString(n: int): (r: string)
    ensures r != [] && (r[0] == '-' <==> n < 0)
    ensures forall i :: 0 <= i < |r| && (i > 0 || n >= 0) ==> IsDigit(r[i])
    ensures n >= 0 ==> (r[0] == '0' <==> n == 0)
    ensures n < 0 ==> |r| >= 2 && r[1] != '0'
  {
    if n < 0 then "-" + NatToString(-n) else NatToString(n)
  }

  /** The value of a numeral, read from its last digit back. */
  function ParseNat(s: string): int
  {
    if s == [] then 0 else ParseNat(s[..|s| - 1]) * 10 + DigitValue(s[|s| - 1])
  }

  /** Reading back the numeral of `n` gives `n`. */
  lemma {:induction false} ParseNatToString(n: nat)
    ensures ParseNat(NatToString(n)) == n
  {
    if n >= 10 {
      var s := NatToString(n / 10) + [Digit(n % 10)];
      assert s[..|s| - 1] == NatToString(n / 10);
      ParseNatToString(n / 10);
    }
  }

  /** A leading zero does not change the value of a numeral. */
  lemma {:induction false} ParseNatLeadingZero(s: string)
    ensures ParseNat(['0'] + s) == ParseNat(s)
  {
    if s != [] {
      var z := ['0'] + s;
      assert z[..|z| - 1] == ['0'] + s[..|s| - 1];
      ParseNatLeadingZero(s[..|s| - 1]);
    }
  }

  /** `n.toString().padStart(2, '0')`: never truncates, so the numeral is a
      suffix of the field, which has at least two characters. */
  function Pad(n: int): (r: string)
    ensures |r| >= 2
    ensures |r| == if |IntToString(n)| < 2 then 2 else |IntToString(n)|
    ensures |r| >= |IntToString(n)| && r[|r| - |IntToString(n)|..] == IntToString(n)
    ensures forall i :: 0 <= i < |r| - |IntToString(n)| ==> r[i] == '0'
  {
    var s := IntToString(n);
    if |s| < 2 then ['0'] + s else s
  }

  /** One digit gets a leading '0', and below 100 the field is exactly two
      characters long. */
  lemma {:induction false} PadShape(n: int)
    ensures 0 <= n < 10 ==> Pad(n) == ['0', Digit(n)]
    ensures 0 <= n < 100 ==> |Pad(n)| == 2
  {
    var s := IntToString(n);
    if 0 <= n < 10 {
      assert s == [Digit(n)];
    } else if 10 <= n < 100 {
      assert s == NatToString(n) == NatToString(n / 10) + [Digit(n % 10)];
      assert |NatToString(n / 10)| == 1;
    }
  }

  /** A padded field of a non-negative number is all digits and reads back
      as that number. */
  lemma PadParses(n: nat)
    ensures forall i :: 0 <= i < |Pad(n)| ==> IsDigit(Pad(n)[i])
    ensures ParseNat(Pad(n)) == n
  {
    ParseNatToString(n);
    ParseNatLeadingZero(NatToString(n));
  }
}
