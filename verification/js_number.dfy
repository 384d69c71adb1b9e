/** JavaScript's `parseInt` (no radix argument) and the decimal rendering of a
    non-negative integer that a template literal such as `${sid}` produces.
    Numbers are unbounded integers here; `None` is `NaN`. */
module JsNumber {
  import opened Wrappers
  import opened Strings

  /** Value of a digit in radices up to 36; 36 for a character that is no digit. */
  function DigitValue(c: char): nat {
    if '0' <= c <= '9' then c as int - '0' as int
    else if 'a' <= c <= 'z' then c as int - 'a' as int + 10
    else if 'A' <= c <= 'Z' then c as int - 'A' as int + 10
    else 36
  }

  predicate IsDigit(c: char, radix: nat) {
    DigitValue(c) < radix
  }

  /** Length of the longest prefix of `s` made of digits of `radix`. */
  function DigitRun(s: string, radix: nat): (k: nat)
    ensures k <= |s|
    ensures forall i :: 0 <= i < k ==> IsDigit(s[i], radix)
    ensures k < |s| ==> !IsDigit(s[k], radix)
    decreases |s|
  {
    if |s| == 0 || !IsDigit(s[0], radix) then 0 else 1 + DigitRun(s[1..], radix)
  }

  /** The number a digit string denotes in `radix`, most significant digit first. */
  function DigitsValue(z: string, radix: nat): nat
    decreases |z|
  {
    if |z| == 0 then 0 else DigitsValue(z[..|z| - 1], radix) * radix + DigitValue(z[|z| - 1])
  }

  /** `parseInt(s)`: skip leading white space, take an optional sign, switch to radix 16
      after a `0x`/`0X` prefix, then read the longest run of digits; no digit at all is `NaN`. */
  function ParseInt(s: string): Option<int> {
    ParseSigned(s[LeadingSpace(s)..])
  }

  /** An optional sign, then the unsigned part; only `-` negates. */
  function ParseSigned(t: string): Option<int> {
    if |t| > 0 && t[0] == '-' then
      match ParseUnsigned(t[1..])
      case None => None
      case Some(m) => Some(-(m as int))
    else if |t| > 0 && t[0] == '+' then ParseUnsigned(t[1..])
    else ParseUnsigned(t)
  }

  predicate HexPrefixed(u: string) {
    |u| >= 2 && u[0] == '0' && (u[1] == 'x' || u[1] == 'X')
  }

  function ParseUnsigned(u: string): Option<nat> {
    if HexPrefixed(u) then ParseDigits(u[2..], 16) else ParseDigits(u, 10)
  }

  /** The value of the longest digit prefix, or `NaN` when there is none. */
  function ParseDigits(d: string, radix: nat): Option<nat> {
    var z := d[..DigitRun(d, radix)];
    if |z| == 0 then None else Some(DigitsValue(z, radix))
  }

  function DigitChar(d: nat): (c: char)
    requires d < 10
  {
    ('0' as int + d) as char
  }

  /** Decimal rendering of `n`: digits only, no leading zero, denoting `n`. */
  function Decimal(n: nat): (r: string)
    ensures 1 <= |r|
    ensures forall i :: 0 <= i < |r| ==> IsDigit(r[i], 10)
    ensures r[0] == '0' ==> r == "0"
    ensures DigitsValue(r, 10) == n
    decreases n
  {
    if n < 10 then [DigitChar(n)]
    else
      var r := Decimal(n / 10) + [DigitChar(n % 10)];
      assert r[..|r| - 1] == Decimal(n / 10);
      r
  }

  lemma {:induction false} DigitRunOfDigits(d: string, rest: string, radix: nat)
    requires forall i :: 0 <= i < |d| ==> IsDigit(d[i], radix)
    requires rest == [] || !IsDigit(rest[0], radix)
    ensures DigitRun(d + rest, radix) == |d|
    decreases |d|
  {
    if |d| > 0 {
      assert (d + rest)[1..] == d[1..] + rest;
      DigitRunOfDigits(d[1..], rest, radix);
    }
  }

  /** A text that does not start with white space is parsed as it stands. */
  lemma ParseIntNoSpace(s: string)
    requires s == [] || !IsJsSpace(s[0])
    ensures ParseInt(s) == ParseSigned(s)
  {
    assert LeadingSpace(s) == 0;
    assert s[0..] == s;
  }

  /** A non-empty digit run followed by something that does not continue it reads as its value. */
  lemma ParseDigitsOf(d: string, rest: string, radix: nat)
    requires |d| > 0 && forall i :: 0 <= i < |d| ==> IsDigit(d[i], radix)
    requires rest == [] || !IsDigit(rest[0], radix)
    ensures ParseDigits(d + rest, radix) == Some(DigitsValue(d, radix))
  {
    DigitRunOfDigits(d, rest, radix);
    assert (d + rest)[..|d|] == d;
  }

  /** A decimal rendering never looks like a hex prefix to `parseInt`. */
  lemma DecimalNotHex(n: nat, rest: string)
    requires n == 0 && rest != [] ==> rest[0] != 'x' && rest[0] != 'X'
    ensures !HexPrefixed(Decimal(n) + rest)
  {
    var d := Decimal(n);
    if |d| >= 2 {
      assert (d + rest)[1] == d[1];
      assert IsDigit(d[1], 10);
    } else if |d + rest| >= 2 {
      assert (d + rest)[1] == rest[0];
    }
  }

  /** A rendered number followed by anything that does not continue it reads back as
      that number, the way `parseInt` reads the byte count of a `MSG` header. */
  lemma ParseIntOfDecimal(n: nat, rest: string)
    requires rest == [] || !IsDigit(rest[0], 10)
    requires n == 0 && rest != [] ==> rest[0] != 'x' && rest[0] != 'X'
    ensures ParseInt(Decimal(n) + rest) == Some(n)
    ensures ParseInt("-" + Decimal(n) + rest) == Some(-(n as int))
  {
    var d := Decimal(n);
    var s := d + rest;
    assert s[0] == d[0] && IsDigit(d[0], 10);
    ParseIntNoSpace(s);
    DecimalNotHex(n, rest);
    ParseDigitsOf(d, rest, 10);
    assert ParseSigned(s) == ParseUnsigned(s);
    var m := "-" + d + rest;
    assert m == "-" + s && m[1..] == s;
    ParseIntNoSpace(m);
  }

  /** A `0x` prefix switches `parseInt` to hexadecimal. */
  lemma ParseIntHexPrefix()
    ensures ParseInt("0x1A") == Some(26)
  {
    ParseIntNoSpace("0x1A");
    assert HexPrefixed("0x1A");
    assert "0x1A"[2..] == "1A" == "1A" + "";
    ParseDigitsOf("1A", "", 16);
    assert "1A"[..1] == "1" && "1"[..0] == "";
  }

  /** Leading white space is skipped and reading stops at the first non-digit. */
  lemma ParseIntTrailingJunk()
    ensures ParseInt(" 13abc") == Some(13)
  {
    JunkSkipsSpace();
    JunkDigits();
    assert !HexPrefixed("13abc");
    assert ParseSigned("13abc") == ParseUnsigned("13abc");
  }

  lemma JunkSkipsSpace()
    ensures ParseInt(" 13abc") == ParseSigned("13abc")
  {
    LeadingSpaceOfPadded(" ", "13abc");
    assert " " + "13abc" == " 13abc";
    assert " 13abc"[1..] == "13abc";
  }

  lemma JunkDigits()
    ensures ParseDigits("13abc", 10) == Some(13)
  {
    assert "13" + "abc" == "13abc";
    assert !IsDigit('a', 10);
    ParseDigitsOf("13", "abc", 10);
    assert "13"[..1] == "1" && "1"[..0] == "";
  }

  /** What `parseInt` reads digits from: `s` after its leading white space and one sign. */
  function Magnitude(s: string): (u: string)
    ensures IsSuffix(u, s)
  {
    var t := s[LeadingSpace(s)..];
    if |t| > 0 && (t[0] == '-' || t[0] == '+') then t[1..] else t
  }

  /** A number starts here: a decimal digit, and after a `0x`/`0X` prefix a hexadecimal one. */
  predicate StartsNumber(u: string) {
    |u| > 0 && IsDigit(u[0], 10) && (HexPrefixed(u) ==> |u| > 2 && IsDigit(u[2], 16))
  }

  /** No digit run at all exactly when the first character is no digit. */
  lemma ParseDigitsNone(d: string, radix: nat)
    ensures ParseDigits(d, radix).None? <==> d == [] || !IsDigit(d[0], radix)
  {
    var k := DigitRun(d, radix);
    assert |d[..k]| == k;
  }

  /** `parseInt` gives `NaN` exactly when no number starts after the white space and the
      sign, whatever follows: an empty field, a letter, a lone sign, or `0x` without a
      hexadecimal digit. */
  lemma ParseIntNoDigits(s: string)
    ensures ParseInt(s).None? <==> !StartsNumber(Magnitude(s))
  {
    var t := s[LeadingSpace(s)..];
    var u := Magnitude(s);
    assert ParseSigned(t).None? <==> ParseUnsigned(u).None?;
    if HexPrefixed(u) {
      ParseDigitsNone(u[2..], 16);
      assert IsDigit(u[0], 10);
      assert |u| > 2 ==> u[2..][0] == u[2];
    } else {
      ParseDigitsNone(u, 10);
    }
  }
}
