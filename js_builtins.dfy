/** The JavaScript built-ins the two panels rely on, restricted to the values
    they are applied to there: integers, ASCII addresses and decimal inputs. */
module JsBuiltins {
  import opened Decimal

  datatype Option<T> = None | Some(value: T)

  /** A thrown error as the panels read it: an optional `reason` and a `message`. */
  datatype JsError = JsError(reason: Option<string>, message: string)

  /** The settled result of an awaited call or of a call that may throw. */
  datatype Outcome<T> = Ok(value: T) | Threw(error: JsError)

  /** `error.reason || error.message`: an absent or empty reason falls back to the message. */
  function ErrorDetail(e: JsError): (d: string)
    ensures e.reason.Some? && e.reason.value != "" ==> d == e.reason.value
    ensures e.reason.None? || e.reason.value == "" ==> d == e.message
  {
    match e.reason
    case Some(r) => if r != "" then r else e.message
    case None => e.message
  }

  /** `n.toString()` for an integer n: its digits, after a minus sign when negative. */
  function NumberToString(n: int): string {
    if n < 0 then "-" + Digits(-n) else Digits(n)
  }

  /** The text of n is a numeral worth |n|, signed when n is negative. */
  lemma NumberToStringValue(n: int)
    ensures n >= 0 ==> AllDigits(NumberToString(n)) && Value(NumberToString(n)) == n
    ensures n < 0 ==> NumberToString(n)[0] == '-' && AllDigits(NumberToString(n)[1..]) &&
                      Value(NumberToString(n)[1..]) == -n
  {
    if n < 0 {
      var d := Digits(-n);
      var s := "-" + d;
      assert s[1..] == d;
      assert NumberToString(n) == s;
      ValueOfDigits(-n);
    } else {
      ValueOfDigits(n);
    }
  }

  /** `Math.floor(a / b)` for integers a and a positive divisor b. */
  function FloorDiv(a: int, b: int): (q: int)
    requires b > 0
    ensures q * b <= a < q * b + b
  {
    a / b
  }

  /** JavaScript's `a % b`, which truncates toward zero: the result has the sign of a. */
  function Remainder(a: int, b: int): (r: int)
    requires b > 0
    ensures a >= 0 ==> 0 <= r < b && r == a - FloorDiv(a, b) * b
    ensures a < 0 ==> -b < r <= 0 && -r == -a - FloorDiv(-a, b) * b
  {
    if a >= 0 then a % b else -((-a) % b)
  }

  /** `c` repeated n times. */
  function Repeat(c: char, n: nat): (r: string)
    ensures |r| == n && forall i :: 0 <= i < n ==> r[i] == c
  {
    if n == 0 then [] else [c] + Repeat(c, n - 1)
  }

  /** `s.repeat(n)`. */
  function RepeatString(s: string, n: nat): string
  {
    if n == 0 then [] else s + RepeatString(s, n - 1)
  }

  lemma {:induction false} RepeatSingleZeros(n: nat)
    ensures RepeatString("00", n) == Repeat('0', 2 * n)
  {
    if n > 0 {
      RepeatSingleZeros(n - 1);
    }
  }

  /** `s.padStart(width, fill)` with a one-character fill. */
  function PadStart(s: string, width: nat, fill: char): string {
    if |s| >= width then s else Repeat(fill, width - |s|) + s
  }

  /** padStart pads on the left up to the width and never truncates. */
  lemma PadStartShape(s: string, width: nat, fill: char)
    ensures var r := PadStart(s, width, fill);
      |r| == (if |s| >= width then |s| else width) &&
      r == Repeat(fill, |r| - |s|) + s
  {
  }

  function LowerChar(c: char): (l: char)
    ensures 'A' <= c <= 'Z' ==> l as int == c as int + 32
    ensures !('A' <= c <= 'Z') ==> l == c
  {
    if 'A' <= c <= 'Z' then (c as int + 32) as char else c
  }

  /** `s.toLowerCase()` on the letters A to Z; every other character is kept. */
  function ToLowerCase(s: string): (r: string)
    ensures |r| == |s|
  {
    if s == [] then [] else [LowerChar(s[0])] + ToLowerCase(s[1..])
  }

  lemma {:induction false} ToLowerCaseAt(s: string, i: nat)
    requires i < |s|
    ensures ToLowerCase(s)[i] == LowerChar(s[i])
  {
    if i > 0 {
      ToLowerCaseAt(s[1..], i - 1);
    }
  }

  /** The result of `parseInt`: NaN or an integer. */
  datatype ParsedNumber = NaN | Integer(value: int)

  /** The characters parseInt skips before the number: StrWhiteSpaceChar of ECMA-262,
      that is tab, vertical tab, form feed, no-break space, byte order mark,
      the line terminators and the space separators. */
  predicate IsJsWhitespace(c: char) {
    c == '\t' || c == '\n' || c == '\U{000B}' || c == '\U{000C}' || c == '\r' || c == ' '
    || c == '\U{00A0}' || c == '\U{1680}' || ('\U{2000}' <= c <= '\U{200A}')
    || c == '\U{2028}' || c == '\U{2029}' || c == '\U{202F}' || c == '\U{205F}'
    || c == '\U{3000}' || c == '\U{FEFF}'
  }

  function TrimStart(s: string): (r: string)
    ensures |r| <= |s| && r == s[|s| - |r|..]
    ensures r == [] || !IsJsWhitespace(r[0])
    ensures forall i :: 0 <= i < |s| - |r| ==> IsJsWhitespace(s[i])
  {
    if s != [] && IsJsWhitespace(s[0]) then TrimStart(s[1..]) else s
  }

  lemma DigitIsNotWhitespace(c: char)
    requires IsDigit(c)
    ensures !IsJsWhitespace(c)
  {
  }

  /** Nothing is trimmed from a string that is empty or starts with a character
      other than whitespace. */
  lemma TrimStartAtNonWhitespace(s: string)
    requires s == [] || !IsJsWhitespace(s[0])
    ensures TrimStart(s) == s
  {
  }

  /** Nothing is trimmed from a string that starts with a digit. */
  lemma TrimStartAtDigit(s: string)
    requires s != [] && IsDigit(s[0])
    ensures TrimStart(s) == s
  {
    DigitIsNotWhitespace(s[0]);
    TrimStartAtNonWhitespace(s);
  }

  /** The longest prefix of s made of decimal digits. */
  function DigitPrefix(s: string): (r: string)
    ensures |r| <= |s| && r == s[..|r|] && AllDigits(r)
    ensures |r| < |s| ==> !IsDigit(s[|r|])
  {
    if s != [] && IsDigit(s[0]) then [s[0]] + DigitPrefix(s[1..]) else []
  }

  /** `parseInt(s, 10)`: skip leading whitespace, read one optional sign, then the
      longest run of decimal digits; NaN when that run is empty. */
  function ParseInt(s: string): ParsedNumber {
    ParseSigned(TrimStart(s))
  }

  function ParseSigned(t: string): ParsedNumber {
    if t != [] && t[0] == '-' then Negate(ParseUnsigned(t[1..]))
    else if t != [] && t[0] == '+' then ParseUnsigned(t[1..])
    else ParseUnsigned(t)
  }

  function ParseUnsigned(b: string): ParsedNumber {
    var z := DigitPrefix(b);
    if z == [] then NaN else Integer(Value(z))
  }

  function Negate(p: ParsedNumber): ParsedNumber {
    match p
    case NaN => NaN
    case Integer(v) => Integer(-v)
  }

  lemma {:induction false} DigitPrefixStops(d: string, rest: string)
    requires AllDigits(d)
    requires rest == [] || !IsDigit(rest[0])
    ensures DigitPrefix(d + rest) == d
    decreases |d|
  {
    if d == [] {
      assert d + rest == rest;
    } else {
      assert (d + rest)[1..] == d[1..] + rest;
      DigitPrefixStops(d[1..], rest);
    }
  }

  /** A numeral, followed by anything that does not start with a digit, is read as its value. */
  lemma ParseUnsignedNumeral(d: string, rest: string)
    requires AllDigits(d) && d != []
    requires rest == [] || !IsDigit(rest[0])
    ensures ParseUnsigned(d + rest) == Integer(Value(d))
  {
    DigitPrefixStops(d, rest);
  }

  /** A numeral, followed by anything that does not start with a digit, parses to its value. */
  lemma ParseNumeral(d: string, rest: string)
    requires AllDigits(d) && d != []
    requires rest == [] || !IsDigit(rest[0])
    ensures ParseInt(d + rest) == Integer(Value(d))
  {
    var s := d + rest;
    assert s[0] == d[0];
    TrimStartAtDigit(s);
    assert ParseSigned(s) == ParseUnsigned(s);
    ParseUnsignedNumeral(d, rest);
  }

  /** One digit followed by a non-digit parses to that digit. */
  lemma ParseDigitThen(c: char, rest: string)
    requires IsDigit(c)
    requires rest == [] || !IsDigit(rest[0])
    ensures ParseInt([c] + rest) == Integer(DigitValue(c))
  {
    assert [c][..0] == [];
    ParseNumeral([c], rest);
  }

  /** A minus sign and a numeral parse to the negated value. */
  lemma ParseNegativeNumeral(d: string, v: int)
    requires AllDigits(d) && d != [] && Value(d) == v
    ensures ParseInt("-" + d) == Integer(-v)
  {
    var s := "-" + d;
    assert s[0] == '-';
    TrimStartAtNonWhitespace(s);
    assert s[1..] == d;
    assert d + [] == d;
    ParseUnsignedNumeral(d, []);
  }

  /** parseInt reads the leading numeral and ignores whatever follows it. */
  lemma ParseIntIgnoresSuffix(n: nat, rest: string)
    requires rest == [] || !IsDigit(rest[0])
    ensures ParseInt(Digits(n) + rest) == Integer(n)
  {
    ParseNumeral(Digits(n), rest);
    ValueOfDigits(n);
  }

  /** parseInt reads back what toString wrote, for every integer. */
  lemma ParseIntOfNumberToString(n: int)
    ensures ParseInt(NumberToString(n)) == Integer(n)
  {
    if n < 0 {
      var d := Digits(-n);
      ValueOfDigits(-n);
      ParseNegativeNumeral(d, -n);
      assert NumberToString(n) == "-" + d;
    } else {
      var d := Digits(n);
      assert NumberToString(n) == d;
      ValueOfDigits(n);
      assert d + [] == d;
      ParseNumeral(d, []);
    }
  }
}
