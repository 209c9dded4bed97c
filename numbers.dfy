/**
 * Python's float() on the decimal spellings a DICOM decimal string uses:
 * an optional sign, digits with an optional fraction, and an optional
 * exponent. A literal is read into an exact decimal (sign, coefficient,
 * power of ten); its value is an exact real, so binary rounding is not
 * modelled.
 */
module Numbers {
  import opened Wrappers

  predicate IsDigit(c: char) {
    '0' <= c <= '9'
  }

  predicate AllDigits(s: string) {
    forall i :: 0 <= i < |s| ==> IsDigit(s[i])
  }

  function DigitValue(c: char): (d: nat)
    requires IsDigit(c)
    ensures d < 10
  {
    (c as int) - ('0' as int)
  }

  /** The natural number a run of decimal digits denotes ("" denotes 0). */
  function DigitsValue(s: string): nat
    requires AllDigits(s)
  {
    if s == [] then 0 else DigitsValue(s[..|s| - 1]) * 10 + DigitValue(s[|s| - 1])
  }

  function Pow10(n: nat): (r: nat)
    ensures r > 0
  {
    if n == 0 then 1 else 10 * Pow10(n - 1)
  }

  /** 10 raised to an integer power, as a real. */
  function Scale(e: int): (r: real)
    ensures r > 0.0
    decreases if e >= 0 then e else -e
  {
    if e == 0 then 1.0 else if e > 0 then 10.0 * Scale(e - 1) else Scale(e + 1) / 10.0
  }

  /** An exact decimal number: (-1)^negative * coefficient * 10^exponent. */
  datatype Decimal = Decimal(negative: bool, coefficient: nat, exponent: int) {
    function Value(): real {
      var magnitude := (coefficient as real) * Scale(exponent);
      if negative then -magnitude else magnitude
    }
  }

  /** Index of the first occurrence of a or b in s, or |s| when there is none. */
  function FirstOf(s: string, a: char, b: char): (i: nat)
    ensures i <= |s|
    ensures forall j :: 0 <= j < i ==> s[j] != a && s[j] != b
    ensures i < |s| ==> s[i] == a || s[i] == b
  {
    if s == [] then 0
    else if s[0] == a || s[0] == b then 0
    else 1 + FirstOf(s[1..], a, b)
  }

  function Signed(negative: bool, n: nat): int {
    if negative then -(n as int) else n
  }

  /** An optional sign followed by at least one digit. */
  function ParseExponent(s: string): Option<int>
  {
    var digits := if |s| > 0 && (s[0] == '+' || s[0] == '-') then s[1..] else s;
    if |digits| > 0 && AllDigits(digits) then
      Some(Signed(|s| > 0 && s[0] == '-', DigitsValue(digits)))
    else None
  }

  /** Cuts off the exponent: the text before the first 'e' or 'E' and the exponent after it (0 without one). */
  function SplitExponent(s: string): (string, Option<int>)
  {
    var e := FirstOf(s, 'e', 'E');
    (s[..e], if e < |s| then ParseExponent(s[e + 1..]) else Some(0))
  }

  /** Cuts a mantissa at its first point into the digits before and after it. */
  function SplitPoint(m: string): (string, string)
  {
    var d := FirstOf(m, '.', '.');
    (m[..d], if d < |m| then m[d + 1..] else [])
  }

  /**
   * Cuts an unsigned decimal into the digits before the point, the digits
   * after it and the parsed exponent.
   */
  function Lex(s: string): (string, string, Option<int>)
  {
    var (mantissa, exponent) := SplitExponent(s);
    var (whole, frac) := SplitPoint(mantissa);
    (whole, frac, exponent)
  }

  /**
   * An unsigned decimal: digits, '.', digits (one side may be empty, not
   * both), then an optional exponent; read as all its digits times 10 to
   * the exponent less the number of fraction digits.
   */
  function ScanUnsigned(s: string): Option<(nat, int)>
  {
    var (whole, frac, exponent) := Lex(s);
    if exponent.Some? && AllDigits(whole) && AllDigits(frac) && |whole| + |frac| > 0 then
      AllDigitsAppend(whole, frac);
      Some((DigitsValue(whole + frac), exponent.value - |frac|))
    else None
  }

  /** The decimal an already stripped string spells, or None where float() raises ValueError. */
  function Scan(s: string): Option<Decimal>
  {
    var negative := |s| > 0 && s[0] == '-';
    var body := if |s| > 0 && (s[0] == '+' || s[0] == '-') then s[1..] else s;
    match ScanUnsigned(body)
    case None => None
    case Some((c, e)) => Some(Decimal(negative, c, e))
  }

  /** float(s) for an already stripped s. */
  function ParseFloat(s: string): Option<real>
  {
    match Scan(s)
    case None => None
    case Some(d) => Some(d.Value())
  }

  // ---------------------------------------------------------------------
  // An independent description of the accepted literals.

  datatype Sign = NoSign | Plus | Minus

  /**
   * A decimal literal: sign, whole digits, an optional point with fraction
   * digits, and an optional exponent: marker ('E' when the flag is set,
   * else 'e'), sign and digits.
   */
  datatype Literal = Literal(sign: Sign, whole: string, point: bool, frac: string,
                             exponent: Option<(bool, Sign, string)>)

  predicate WellFormed(l: Literal) {
    && AllDigits(l.whole) && AllDigits(l.frac)
    && |l.whole| + |l.frac| > 0
    && (!l.point ==> l.frac == [])
    && (l.exponent.Some? ==> |l.exponent.value.2| > 0 && AllDigits(l.exponent.value.2))
  }

  function SignText(s: Sign): string {
    match s
    case NoSign => ""
    case Plus => "+"
    case Minus => "-"
  }

  function Mantissa(l: Literal): string {
    l.whole + (if l.point then "." else "") + l.frac
  }

  function ExponentText(l: Literal): string {
    match l.exponent
    case None => ""
    case Some((upper, s, digits)) => (if upper then "E" else "e") + SignText(s) + digits
  }

  function Render(l: Literal): string {
    SignText(l.sign) + Mantissa(l) + ExponentText(l)
  }

  function ExponentValue(l: Literal): int
    requires WellFormed(l)
  {
    match l.exponent
    case None => 0
    case Some((_, s, digits)) => Signed(s == Minus, DigitsValue(digits))
  }

  /**
   * The decimal a literal denotes: whole * 10^|frac| + frac as coefficient,
   * the written exponent less |frac| as exponent.
   */
  function Denotation(l: Literal): Decimal
    requires WellFormed(l)
  {
    Decimal(l.sign == Minus, DigitsValue(l.whole) * Pow10(|l.frac|) + DigitsValue(l.frac),
            ExponentValue(l) - |l.frac|)
  }

  // ---------------------------------------------------------------------
  // Facts about digit strings.

  lemma AllDigitsAppend(w: string, f: string)
    requires AllDigits(w) && AllDigits(f)
    ensures AllDigits(w + f)
  {
    forall i | 0 <= i < |w + f| ensures IsDigit((w + f)[i]) {
      if i >= |w| {
        assert (w + f)[i] == f[i - |w|];
      }
    }
  }

  lemma Regroup(a: int, p: int, b: int, d: int)
    ensures (a * p + b) * 10 + d == a * (p * 10) + (b * 10 + d)
  {
  }

  /** Appending digits f to w multiplies w's value by 10^|f| and adds f's value. */
  lemma {:induction false} DigitsValueAppend(w: string, f: string)
    requires AllDigits(w) && AllDigits(f)
    ensures AllDigits(w + f)
    ensures DigitsValue(w + f) == DigitsValue(w) * Pow10(|f|) + DigitsValue(f)
  {
    AllDigitsAppend(w, f);
    if f == [] {
      assert w + f == w;
    } else {
      var f', c := f[..|f| - 1], f[|f| - 1];
      assert AllDigits(f');
      assert (w + f)[..|w + f| - 1] == w + f';
      assert (w + f)[|w + f| - 1] == c;
      DigitsValueAppend(w, f');
      var a, p, b, d := DigitsValue(w), Pow10(|f'|), DigitsValue(f'), DigitValue(c);
      assert DigitsValue(w + f) == (a * p + b) * 10 + d;
      assert Pow10(|f|) == 10 * p;
      assert DigitsValue(f) == b * 10 + d;
      Regroup(a, p, b, d);
    }
  }

  /** FirstOf is determined by its three postconditions. */
  lemma FirstOfIs(s: string, a: char, b: char, i: nat)
    requires i <= |s|
    requires forall j :: 0 <= j < i ==> s[j] != a && s[j] != b
    requires i < |s| ==> s[i] == a || s[i] == b
    ensures FirstOf(s, a, b) == i
  {
  }

  /** The first a-or-b of u + v is v's first character when u holds neither. */
  lemma FirstOfAfter(u: string, v: string, a: char, b: char)
    requires forall j :: 0 <= j < |u| ==> u[j] != a && u[j] != b
    requires v == [] || v[0] == a || v[0] == b
    ensures FirstOf(u + v, a, b) == |u|
    ensures (u + v)[..|u|] == u
  {
    FirstOfIs(u + v, a, b, |u|);
  }

  // ---------------------------------------------------------------------
  // Round trip: every well-formed literal is read back as its denotation.

  lemma ExponentRoundTrip(s: Sign, digits: string)
    requires |digits| > 0 && AllDigits(digits)
    ensures ParseExponent(SignText(s) + digits) == Some(Signed(s == Minus, DigitsValue(digits)))
  {
    var t := SignText(s) + digits;
    if s != NoSign {
      assert t[1..] == digits;
    } else {
      assert t == digits;
    }
  }

  lemma ExponentPart(l: Literal)
    requires WellFormed(l)
    ensures var t := ExponentText(l);
            (if t == [] then Some(0) else ParseExponent(t[1..])) == Some(ExponentValue(l))
  {
    match l.exponent {
      case None =>
      case Some((upper, sg, digits)) =>
        assert ExponentText(l)[1..] == SignText(sg) + digits;
        ExponentRoundTrip(sg, digits);
    }
  }

  lemma MantissaPart(l: Literal)
    requires WellFormed(l)
    ensures SplitPoint(Mantissa(l)) == (l.whole, l.frac)
  {
    FirstOfAfter(l.whole, (if l.point then "." else "") + l.frac, '.', '.');
    assert Mantissa(l) == l.whole + ((if l.point then "." else "") + l.frac);
  }

  /** A mantissa holds only digits and the point, so no exponent marker. */
  lemma MantissaChars(l: Literal)
    requires WellFormed(l)
    ensures forall j :: 0 <= j < |Mantissa(l)| ==> Mantissa(l)[j] != 'e' && Mantissa(l)[j] != 'E'
  {
    var p := if l.point then "." else "";
    forall j | 0 <= j < |Mantissa(l)|
      ensures Mantissa(l)[j] != 'e' && Mantissa(l)[j] != 'E'
    {
      if j < |l.whole| {
        assert Mantissa(l)[j] == l.whole[j];
      } else if j < |l.whole| + |p| {
        assert Mantissa(l)[j] == '.';
      } else {
        assert Mantissa(l)[j] == l.frac[j - |l.whole| - |p|];
      }
    }
  }

  /** The characters a decimal literal is written with. */
  predicate IsLiteralChar(c: char) {
    IsDigit(c) || c == '+' || c == '-' || c == '.' || c == 'e' || c == 'E'
  }

  predicate LiteralText(s: string) {
    forall i :: 0 <= i < |s| ==> IsLiteralChar(s[i])
  }

  lemma LiteralTextAppend(a: string, b: string)
    requires LiteralText(a) && LiteralText(b)
    ensures LiteralText(a + b)
  {
    forall i | 0 <= i < |a + b| ensures IsLiteralChar((a + b)[i]) {
      if i < |a| {
        assert (a + b)[i] == a[i];
      } else {
        assert (a + b)[i] == b[i - |a|];
      }
    }
  }

  /** A rendered literal is written only with digits, signs, the point and the exponent marker. */
  lemma RenderChars(l: Literal)
    requires WellFormed(l)
    ensures LiteralText(Render(l))
  {
    var p := if l.point then "." else "";
    LiteralTextAppend(l.whole, p);
    LiteralTextAppend(l.whole + p, l.frac);
    var t := ExponentText(l);
    match l.exponent {
      case None =>
      case Some((upper, sg, digits)) =>
        var marker := if upper then "E" else "e";
        LiteralTextAppend(marker, SignText(sg));
        LiteralTextAppend(marker + SignText(sg), digits);
    }
    LiteralTextAppend(SignText(l.sign), Mantissa(l));
    LiteralTextAppend(SignText(l.sign) + Mantissa(l), t);
  }

  /** The exponent is cut off where the marker-free mantissa ends. */
  lemma SplitExponentAt(m: string, t: string)
    requires forall j :: 0 <= j < |m| ==> m[j] != 'e' && m[j] != 'E'
    requires t == [] || t[0] == 'e' || t[0] == 'E'
    ensures SplitExponent(m + t) == (m, if t == [] then Some(0) else ParseExponent(t[1..]))
  {
    FirstOfAfter(m, t, 'e', 'E');
    if t != [] {
      assert (m + t)[|m| + 1..] == t[1..];
    }
  }

  lemma SplitExponentRender(l: Literal)
    requires WellFormed(l)
    ensures SplitExponent(Mantissa(l) + ExponentText(l)) == (Mantissa(l), Some(ExponentValue(l)))
  {
    MantissaChars(l);
    SplitExponentAt(Mantissa(l), ExponentText(l));
    ExponentPart(l);
  }

  /** Lex finds the parts a well-formed literal was rendered from. */
  lemma LexRender(l: Literal)
    requires WellFormed(l)
    ensures Lex(Mantissa(l) + ExponentText(l)) == (l.whole, l.frac, Some(ExponentValue(l)))
  {
    SplitExponentRender(l);
    MantissaPart(l);
  }

  /** The unsigned part of a rendered literal is scanned to its denotation. */
  lemma ScanUnsignedRender(l: Literal)
    requires WellFormed(l)
    ensures ScanUnsigned(Mantissa(l) + ExponentText(l))
            == Some((Denotation(l).coefficient, Denotation(l).exponent))
  {
    LexRender(l);
    DigitsValueAppend(l.whole, l.frac);
  }

  /** A sign in front of an unsigned decimal sets the decimal's sign. */
  lemma ScanSigned(sg: Sign, u: string)
    requires sg == NoSign ==> u == [] || (u[0] != '-' && u[0] != '+')
    ensures Scan(SignText(sg) + u)
            == match ScanUnsigned(u)
               case None => None
               case Some((c, e)) => Some(Decimal(sg == Minus, c, e))
  {
    var s := SignText(sg) + u;
    if sg == NoSign {
      assert s == u;
    } else {
      assert s[1..] == u;
    }
  }

  /** Every well-formed literal is accepted and read as exactly the decimal it denotes. */
  lemma ScanRoundTrip(l: Literal)
    requires WellFormed(l)
    ensures Scan(Render(l)) == Some(Denotation(l))
  {
    var unsigned := Mantissa(l) + ExponentText(l);
    assert Render(l) == SignText(l.sign) + unsigned;
    if l.whole != [] {
      assert unsigned[0] == l.whole[0];
    } else {
      assert unsigned[0] == '.';
    }
    ScanSigned(l.sign, unsigned);
    ScanUnsignedRender(l);
  }

  /**
   * An empty piece (two adjacent separators, or a blank component) is not a
   * number. Scan itself reads already stripped text and does no trimming of
   * its own, so it also rejects a text that still begins with a space.
   */
  lemma ScanRejectsBlank(s: string)
    requires s == [] || s[0] == ' '
    ensures Scan(s) == None
  {
    if s != [] {
      var e := FirstOf(s, 'e', 'E');
      assert e > 0 ==> s[..e][0] == ' ';
    }
  }
}
