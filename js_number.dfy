/**
 * The radix-less `parseInt(string)` of ECMAScript, as the game applies it
 * to the text typed into the guess box (script.js:43).
 *
 * The text is scanned as the standard prescribes: leading white space is
 * skipped, an optional `+` or `-` is read, a `0x`/`0X` prefix switches to
 * radix 16, and then the longest run of digits of that radix is taken.
 * An empty run is NaN, modelled as `None`. The value is kept as an
 * unbounded integer rather than rounded to a double.
 */
module JsNumber {
  import opened Wrappers

  /** The two radixes a radix-less `parseInt` can pick. */
  type Radix = r: nat | r == 10 || r == 16 witness 10

  /** StrWhiteSpaceChar: TAB, VT, FF, ZWNBSP, every space separator (Zs) and every line terminator. */
  predicate IsStrWhiteSpace(c: char)
  {
    c == '\t' || c == '\n' || c == '\U{000B}' || c == '\U{000C}' || c == '\r' ||
    c == ' ' || c == '\U{00A0}' || c == '\U{1680}' || ('\U{2000}' <= c <= '\U{200A}') ||
    c == '\U{2028}' || c == '\U{2029}' || c == '\U{202F}' || c == '\U{205F}' ||
    c == '\U{3000}' || c == '\U{FEFF}'
  }

  predicate IsDigitOf(c: char, radix: Radix)
  {
    ('0' <= c <= '9') || (radix == 16 && (('a' <= c <= 'f') || ('A' <= c <= 'F')))
  }

  function DigitValue(c: char, radix: Radix): (d: nat)
    requires IsDigitOf(c, radix)
    ensures d < radix
  {
    if '0' <= c <= '9' then c as int - '0' as int
    else if 'a' <= c <= 'f' then c as int - 'a' as int + 10
    else c as int - 'A' as int + 10
  }

  /** What is left of `s` once its leading white space is skipped. */
  function TrimStart(s: string): (r: string)
    ensures |r| <= |s| && r == s[|s| - |r|..]
    ensures forall i :: 0 <= i < |s| - |r| ==> IsStrWhiteSpace(s[i])
    ensures r == [] || !IsStrWhiteSpace(r[0])
  {
    if s != [] && IsStrWhiteSpace(s[0]) then TrimStart(s[1..]) else s
  }

  /** The length of the longest prefix of `s` made of digits of `radix`. */
  function DigitRunLength(s: string, radix: Radix): (n: nat)
    ensures n <= |s|
    ensures forall i :: 0 <= i < n ==> IsDigitOf(s[i], radix)
    ensures n < |s| ==> !IsDigitOf(s[n], radix)
  {
    if s != [] && IsDigitOf(s[0], radix) then 1 + DigitRunLength(s[1..], radix) else 0
  }

  /** The value of a digit string, most significant digit first. */
  function DigitsValue(ds: string, radix: Radix): nat
    requires forall i :: 0 <= i < |ds| ==> IsDigitOf(ds[i], radix)
  {
    if ds == [] then 0
    else DigitsValue(ds[..|ds| - 1], radix) * radix + DigitValue(ds[|ds| - 1], radix)
  }

  /** The text after an optional leading `-` or `+`. */
  function Unsigned(t: string): string
  {
    if t != [] && (t[0] == '-' || t[0] == '+') then t[1..] else t
  }

  /** The `0x`/`0X` prefix that makes a radix-less `parseInt` read hexadecimal. */
  predicate HasHexPrefix(u: string)
  {
    |u| >= 2 && u[0] == '0' && (u[1] == 'x' || u[1] == 'X')
  }

  /**
   * The unsigned part of the parse: a hex prefix selects radix 16,
   * then the longest run of digits of the radix is read; none is NaN.
   */
  function ParseMagnitude(u: string): (r: Option<nat>)
    ensures r.Some? <==> if HasHexPrefix(u) then |u| > 2 && IsDigitOf(u[2], 16)
                         else u != [] && IsDigitOf(u[0], 10)
  {
    if HasHexPrefix(u) then
      var n := DigitRunLength(u[2..], 16);
      if n == 0 then None else Some(DigitsValue(u[2..][..n], 16))
    else
      var n := DigitRunLength(u, 10);
      if n == 0 then None else Some(DigitsValue(u[..n], 10))
  }

  /** `parseInt(s)` with no radix argument; `None` is NaN. */
  function ParseInt(s: string): (r: Option<int>)
    ensures TrimStart(s) == [] ==> r == None
    ensures (TrimStart(s) != [] && !IsDigitOf(TrimStart(s)[0], 10) &&
             TrimStart(s)[0] != '-' && TrimStart(s)[0] != '+') ==> r == None
    ensures r.Some? && r.value < 0 ==> TrimStart(s)[0] == '-'
    ensures var u := Unsigned(TrimStart(s));
            r.Some? <==> if HasHexPrefix(u) then |u| > 2 && IsDigitOf(u[2], 16)
                         else u != [] && IsDigitOf(u[0], 10)
  {
    ParseSigned(TrimStart(s))
  }

  /** The parse of text that no longer starts with white space: an optional sign, then the magnitude. */
  function ParseSigned(t: string): (r: Option<int>)
    ensures r.Some? <==> ParseMagnitude(Unsigned(t)).Some?
    ensures r.Some? && r.value < 0 ==> t != [] && t[0] == '-'
  {
    if t != [] && t[0] == '-' then
      match ParseMagnitude(t[1..])
      case None => None
      case Some(m) => Some(-(m as int))
    else ParseMagnitude(Unsigned(t))
  }

  function DigitChar(d: nat): (c: char)
    requires d < 10
    ensures IsDigitOf(c, 10) && DigitValue(c, 10) == d
  {
    ('0' as int + d) as char
  }

  /** The shortest decimal numeral of `n`: no sign, no leading zero. */
  function NatToDecimal(n: nat): (s: string)
    ensures IsNumeral(s)
    ensures s[0] == '0' <==> n == 0
    decreases n
  {
    if n < 10 then [DigitChar(n)] else NatToDecimal(n / 10) + [DigitChar(n % 10)]
  }

  /** The decimal numeral of `n`, with a leading `-` when it is negative. */
  function IntToDecimal(n: int): string
  {
    if n < 0 then "-" + NatToDecimal(-n) else NatToDecimal(n)
  }

  lemma {:induction false} DigitsValueOfDecimal(n: nat)
    ensures DigitsValue(NatToDecimal(n), 10) == n
    decreases n
  {
    var s := NatToDecimal(n);
    if n < 10 {
      assert s[..|s| - 1] == [];
    } else {
      DigitsValueOfDecimal(n / 10);
      assert s[..|s| - 1] == NatToDecimal(n / 10);
    }
  }

  /** A digit run stops exactly where the digits stop. */
  lemma {:induction false} DigitRunOfDigits(ds: string, rest: string, radix: Radix)
    requires forall i :: 0 <= i < |ds| ==> IsDigitOf(ds[i], radix)
    requires rest == [] || !IsDigitOf(rest[0], radix)
    ensures DigitRunLength(ds + rest, radix) == |ds|
  {
    assert forall i :: 0 <= i < |ds| ==> (ds + rest)[i] == ds[i];
    assert rest != [] ==> (ds + rest)[|ds|] == rest[0];
  }

  /** A decimal numeral: digits only, with no leading zero unless it is `0` itself. */
  ghost predicate IsNumeral(ds: string)
  {
    |ds| >= 1 && (forall i :: 0 <= i < |ds| ==> IsDigitOf(ds[i], 10)) && (ds[0] == '0' ==> |ds| == 1)
  }

  /** Decimal digits only, at least one of them; leading zeros allowed. */
  ghost predicate IsDigits(ds: string)
  {
    |ds| >= 1 && forall i :: 0 <= i < |ds| ==> IsDigitOf(ds[i], 10)
  }

  /** A digit string followed by a non-digit reads back as its value. */
  lemma {:induction false} ParseMagnitudeOfDigits(ds: string, rest: string)
    requires IsDigits(ds)
    requires rest == [] || !IsDigitOf(rest[0], 10)
    requires ds == "0" ==> rest == [] || (rest[0] != 'x' && rest[0] != 'X')
    ensures ParseMagnitude(ds + rest) == Some(DigitsValue(ds, 10))
  {
    var u := ds + rest;
    assert u[0] == ds[0];
    assert |u| >= 2 ==> u[1] == if |ds| >= 2 then ds[1] else rest[0];
    assert |ds| == 1 && ds[0] == '0' ==> ds == "0";
    DigitRunOfDigits(ds, rest, 10);
    assert u[..|ds|] == ds;
  }

  /** Unsigned digits, leading zeros included, read as their value: `"07"` is 7. */
  lemma {:induction false} ParseUnsignedDigits(ds: string, rest: string)
    requires IsDigits(ds)
    requires rest == [] || !IsDigitOf(rest[0], 10)
    requires ds == "0" ==> rest == [] || (rest[0] != 'x' && rest[0] != 'X')
    ensures ParseInt(ds + rest) == Some(DigitsValue(ds, 10))
  {
    var u := ds + rest;
    assert u[0] == ds[0];
    NotWhiteSpace(u[0]);
    TrimStartKeeps(u);
    ParseMagnitudeOfDigits(ds, rest);
  }

  /** Digits after `-` read as the negated value: `"-007"` is -7. */
  lemma {:induction false} ParseNegatedDigits(ds: string, rest: string)
    requires IsDigits(ds)
    requires rest == [] || !IsDigitOf(rest[0], 10)
    requires ds == "0" ==> rest == [] || (rest[0] != 'x' && rest[0] != 'X')
    ensures ParseInt(("-" + ds) + rest) == Some(-(DigitsValue(ds, 10) as int))
  {
    var u := ds + rest;
    var s := ("-" + ds) + rest;
    NotWhiteSpace(s[0]);
    TrimStartKeeps(s);
    assert s[1..] == u;
    ParseMagnitudeOfDigits(ds, rest);
  }

  /** Digits after `+` read as their value: `"+7"` is 7. */
  lemma {:induction false} ParsePlusDigits(ds: string, rest: string)
    requires IsDigits(ds)
    requires rest == [] || !IsDigitOf(rest[0], 10)
    requires ds == "0" ==> rest == [] || (rest[0] != 'x' && rest[0] != 'X')
    ensures ParseInt(("+" + ds) + rest) == Some(DigitsValue(ds, 10))
  {
    var u := ds + rest;
    var s := ("+" + ds) + rest;
    assert !IsStrWhiteSpace(s[0]);
    TrimStartKeeps(s);
    assert s[1..] == u;
    ParseMagnitudeOfDigits(ds, rest);
  }

  /**
   * The numeral of any integer parses back to that integer, whatever
   * follows it, provided the next character is not a digit (so "50.7"
   * parses to 50) and, for zero, is not an `x` that would make a hex prefix.
   */
  lemma {:induction false} ParseIntOfDecimal(n: int, rest: string)
    requires rest == [] || !IsDigitOf(rest[0], 10)
    requires n == 0 ==> rest == [] || (rest[0] != 'x' && rest[0] != 'X')
    ensures ParseInt(IntToDecimal(n) + rest) == Some(n)
  {
    if n < 0 {
      ParseIntOfNegativeDecimal(n, rest);
    } else {
      ParseIntOfNonNegativeDecimal(n, rest);
    }
  }

  lemma {:induction false} ParseIntOfNegativeDecimal(n: int, rest: string)
    requires n < 0
    requires rest == [] || !IsDigitOf(rest[0], 10)
    ensures ParseInt(IntToDecimal(n) + rest) == Some(n)
  {
    var ds := NatToDecimal(-n);
    DigitsValueOfDecimal(-n);
    ParseNegativeNumeral(n, ds, rest);
  }

  lemma ParseNegativeNumeral(n: int, ds: string, rest: string)
    requires n < 0 && IntToDecimal(n) == "-" + ds
    requires IsDigits(ds) && DigitsValue(ds, 10) == -n
    requires rest == [] || !IsDigitOf(rest[0], 10)
    ensures ParseInt(IntToDecimal(n) + rest) == Some(n)
  {
    ParseNegatedDigits(ds, rest);
  }

  lemma {:induction false} ParseIntOfNonNegativeDecimal(n: int, rest: string)
    requires 0 <= n
    requires rest == [] || !IsDigitOf(rest[0], 10)
    requires n == 0 ==> rest == [] || (rest[0] != 'x' && rest[0] != 'X')
    ensures ParseInt(IntToDecimal(n) + rest) == Some(n)
  {
    var ds := NatToDecimal(n);
    DigitsValueOfDecimal(n);
    ParseUnsignedDigits(ds, rest);
  }

  lemma NotWhiteSpace(c: char)
    requires c == '-' || IsDigitOf(c, 10)
    ensures !IsStrWhiteSpace(c)
  {
  }

  lemma {:induction false} TrimStartKeeps(s: string)
    requires s != [] && !IsStrWhiteSpace(s[0])
    ensures TrimStart(s) == s
  {
  }

  /** The decimal numeral of every integer parses back to it. */
  lemma ParseIntRoundTrip(n: int)
    ensures ParseInt(IntToDecimal(n)) == Some(n)
  {
    ParseIntOfDecimal(n, "");
    assert IntToDecimal(n) + "" == IntToDecimal(n);
  }

  /** Leading white space never changes what `parseInt` reads. */
  lemma {:induction false} ParseIntSkipsWhiteSpace(ws: string, s: string)
    requires forall i :: 0 <= i < |ws| ==> IsStrWhiteSpace(ws[i])
    ensures ParseInt(ws + s) == ParseInt(s)
  {
    TrimStartSkips(ws, s);
  }

  lemma {:induction false} TrimStartSkips(ws: string, s: string)
    requires forall i :: 0 <= i < |ws| ==> IsStrWhiteSpace(ws[i])
    ensures TrimStart(ws + s) == TrimStart(s)
  {
    if ws != [] {
      assert (ws + s)[0] == ws[0];
      assert (ws + s)[1..] == ws[1..] + s;
      TrimStartSkips(ws[1..], s);
    } else {
      assert ws + s == s;
    }
  }

  /** Text that does not start with a numeral is NaN. */
  lemma ParseIntWordIsNaN()
    ensures ParseInt("abc") == None
  {
    var s := "abc";
    assert s[0] == 'a' && !IsStrWhiteSpace(s[0]) && !IsDigitOf(s[0], 10);
    assert TrimStart(s) == s;
    assert DigitRunLength(s, 10) == 0;
  }

  /** A hex prefix with no hex digit after it is NaN. */
  lemma ParseIntBareHexPrefixIsNaN()
    ensures ParseInt("0x") == None
  {
    var s := "0x";
    assert s[0] == '0' && TrimStart(s) == s && s[2..] == [];
  }

  /** Only the leading numeral counts: a fraction is cut off. */
  lemma ParseIntDropsFraction()
    ensures ParseInt("50.7") == Some(50)
  {
    assert IntToDecimal(50) == "50" && "50" + ".7" == "50.7";
    ParseIntOfDecimal(50, ".7");
  }

  /** Leading blanks and trailing text around a numeral are ignored. */
  lemma ParseIntIgnoresSurroundings()
    ensures ParseInt(" 42abc") == Some(42)
  {
    var t := " 42abc";
    assert t[0] == ' ' && t[1..] == "42abc";
    assert TrimStart(t) == TrimStart("42abc");
    ParseIntStopsAtLetter();
  }

  /** The digit run ends at the first letter. */
  lemma ParseIntStopsAtLetter()
    ensures ParseInt("42abc") == Some(42)
  {
    var ds := "42";
    assert "42abc" == ds + "abc";
    assert ds[..1] == "4" && "4"[..0] == [];
    assert DigitsValue(ds, 10) == 42;
    ParseUnsignedDigits(ds, "abc");
  }

  /** A `0x` prefix makes the radix-less parse read hexadecimal. */
  lemma ParseIntHexExample()
    ensures ParseInt("0x1A") == Some(26)
  {
    var s := "0x1A";
    assert s[0] == '0' && TrimStart(s) == s;
    var body := s[2..];
    assert body == "1A" && body[0] == '1' && body[1] == 'A';
    assert DigitRunLength(body[2..], 16) == 0;
    assert DigitRunLength(body, 16) == 2;
    assert body[..2] == body && body[..1] == "1" && "1"[..0] == [];
    assert DigitsValue("1", 16) == 1;
  }
}
