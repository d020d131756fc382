/**
 * The text `${parseFloat(x)}` produces for the attribute values the build
 * script turns into a viewBox, restricted to plain decimal literals: leading
 * white space, an optional sign, `Infinity`, or digits with an optional
 * fraction, then anything. The value is rendered as ECMAScript's
 * Number::toString renders a number of that exact decimal value in its
 * plain (non-exponent) form.
 */
module JsNumber {
  import opened Text

  predicate IsDigit(c: char) {
    '0' <= c <= '9'
  }

  predicate AllDigits(s: string) {
    forall i :: 0 <= i < |s| ==> IsDigit(s[i])
  }

  /** The length of the leading run of decimal digits. */
  function DigitPrefix(s: string): (n: nat)
    decreases |s|
    ensures n <= |s|
    ensures forall i :: 0 <= i < n ==> IsDigit(s[i])
    ensures n == |s| || !IsDigit(s[n])
  {
    if s != [] && IsDigit(s[0]) then 1 + DigitPrefix(s[1..]) else 0
  }

  /** The longest prefix that is a decimal literal, as `parseFloat` reads it. */
  datatype Parsed =
    | NotANumber
    | Infinite(negative: bool)
    | Decimal(negative: bool, whole: string, fraction: string)

  /** The text after the leading white space and an optional sign. */
  function Unsigned(s: string): string {
    var t := TrimStart(s, JsSpace);
    if t != [] && (t[0] == '-' || t[0] == '+') then t[1..] else t
  }

  predicate Negative(s: string) {
    var t := TrimStart(s, JsSpace);
    t != [] && t[0] == '-'
  }

  /** The unsigned decimal literal at the start of `u`: whole digits, then `.` and fraction digits if any follow. */
  datatype Literal = NoLiteral | InfinityLiteral | DigitsLiteral(whole: string, fraction: string)

  function ReadLiteral(u: string): (r: Literal)
    ensures r.DigitsLiteral? ==> AllDigits(r.whole) && AllDigits(r.fraction) && (r.whole != "" || r.fraction != "")
  {
    if StartsWith(u, "Infinity") then InfinityLiteral
    else
      var w := DigitPrefix(u);
      var rest := u[w..];
      var f := if rest != [] && rest[0] == '.' then DigitPrefix(rest[1..]) else 0;
      if w == 0 && f == 0 then NoLiteral
      else DigitsLiteral(u[..w], if f > 0 then rest[1..1 + f] else "")
  }

  /** `parseFloat` up to the value: the literal after the white space and sign, with that sign. */
  function ParseFloat(s: string): (r: Parsed)
    ensures r.Decimal? ==> AllDigits(r.whole) && AllDigits(r.fraction) && (r.whole != "" || r.fraction != "")
  {
    match ReadLiteral(Unsigned(s))
    case NoLiteral => NotANumber
    case InfinityLiteral => Infinite(Negative(s))
    case DigitsLiteral(w, f) => Decimal(Negative(s), w, f)
  }

  /** Drops leading zeros (all of them: `"000"` becomes `""`). */
  function StripLeadingZeros(s: string): (r: string)
    decreases |s|
    ensures |r| <= |s| && r == s[|s| - |r|..]
    ensures r == [] || r[0] != '0'
    ensures forall i :: 0 <= i < |s| - |r| ==> s[i] == '0'
  {
    if s != [] && s[0] == '0' then StripLeadingZeros(s[1..]) else s
  }

  /** Drops trailing zeros. */
  function StripTrailingZeros(s: string): (r: string)
    decreases |s|
    ensures |r| <= |s| && r == s[..|r|]
    ensures r == [] || r[|r| - 1] != '0'
    ensures forall i :: |r| <= i < |s| ==> s[i] == '0'
  {
    if s != [] && s[|s| - 1] == '0' then StripTrailingZeros(s[..|s| - 1]) else s
  }

  /** A sign, a whole part and a fraction part written out, the fraction only when present. */
  function Format(negative: bool, whole: string, fraction: string): string {
    (if negative then "-" else "") + whole + (if fraction == "" then "" else "." + fraction)
  }

  /** Number::toString of the parsed value: `NaN`, `Infinity`, or the shortest plain decimal; zero is unsigned. */
  function Render(p: Parsed): string {
    match p
    case NotANumber => "NaN"
    case Infinite(negative) => (if negative then "-" else "") + "Infinity"
    case Decimal(negative, w, f) =>
      var whole := StripLeadingZeros(w);
      var fraction := StripTrailingZeros(f);
      var zero := whole == "" && fraction == "";
      Format(negative && !zero, if whole == "" then "0" else whole, fraction)
  }

  /** `${parseFloat(s)}`. */
  function NumberText(s: string): string {
    Render(ParseFloat(s))
  }

  /** The parts of a plain decimal as Number::toString writes them. */
  predicate Canonical(negative: bool, whole: string, fraction: string) {
    whole != "" && AllDigits(whole) && (whole[0] == '0' ==> whole == "0")
    && AllDigits(fraction) && (fraction != "" ==> fraction[|fraction| - 1] != '0')
    && (negative ==> whole != "0" || fraction != "")
  }

  /** Every rendered decimal is canonical. */
  lemma RenderDecimalCanonical(negative: bool, w: string, f: string)
    requires AllDigits(w) && AllDigits(f)
    ensures exists n, wh, fr :: Canonical(n, wh, fr) && Render(Decimal(negative, w, f)) == Format(n, wh, fr)
  {
    var whole := StripLeadingZeros(w);
    var fraction := StripTrailingZeros(f);
    var zero := whole == "" && fraction == "";
    var wh := if whole == "" then "0" else whole;
    StrippedDigits(w, f);
    assert Canonical(negative && !zero, wh, fraction);
    assert Render(Decimal(negative, w, f)) == Format(negative && !zero, wh, fraction);
  }

  /** Stripping zeros from digit strings leaves digit strings. */
  lemma StrippedDigits(w: string, f: string)
    requires AllDigits(w) && AllDigits(f)
    ensures AllDigits(StripLeadingZeros(w)) && AllDigits(StripTrailingZeros(f))
  {
    var whole := StripLeadingZeros(w);
    var fraction := StripTrailingZeros(f);
    assert forall i :: 0 <= i < |whole| ==> whole[i] == w[|w| - |whole| + i];
    assert forall i :: 0 <= i < |fraction| ==> fraction[i] == f[i];
  }

  /** Reading a canonical decimal back: the parts come back unchanged. */
  lemma ParseCanonical(negative: bool, whole: string, fraction: string)
    requires Canonical(negative, whole, fraction)
    ensures ParseFloat(Format(negative, whole, fraction)) == Decimal(negative, whole, fraction)
  {
    var u := whole + (if fraction == "" then "" else "." + fraction);
    var s := Format(negative, whole, fraction);
    assert s == (if negative then "-" else "") + u;
    assert Unsigned(s) == u && Negative(s) == negative by {
      SignThen(negative, u);
    }
    assert ReadLiteral(u) == DigitsLiteral(whole, fraction) by {
      ReadDigits(whole, fraction);
    }
  }

  /** A sign-free literal after an optional minus: that is what `parseFloat` reads past the sign. */
  lemma SignThen(negative: bool, u: string)
    requires u != [] && IsDigit(u[0])
    ensures var s := (if negative then "-" else "") + u;
      Unsigned(s) == u && Negative(s) == negative
  {
    var s := (if negative then "-" else "") + u;
    assert s != [] && !JsSpace(s[0]) by {
      if negative { assert s[0] == '-'; } else { assert s[0] == u[0]; }
    }
    assert TrimStart(s, JsSpace) == s;
    if negative { assert s[1..] == u; }
  }

  /** Digits with an optional fraction read back as those parts. */
  lemma ReadDigits(whole: string, fraction: string)
    requires whole != "" && AllDigits(whole) && AllDigits(fraction)
    ensures ReadLiteral(whole + (if fraction == "" then "" else "." + fraction)) == DigitsLiteral(whole, fraction)
  {
    var tail := if fraction == "" then "" else "." + fraction;
    var u := whole + tail;
    assert !StartsWith(u, "Infinity") by {
      assert u[0] == whole[0];
    }
    DigitsThen(whole, tail);
    assert u[..|whole|] == whole;
    assert u[|whole|..] == tail;
    if fraction != "" {
      assert tail[1..] == fraction + "";
      DigitsThen(fraction, "");
      assert tail[1..1 + |fraction|] == fraction;
    }
  }

  /** The digit prefix of digits followed by a non-digit is exactly those digits. */
  lemma {:induction false} DigitsThen(d: string, x: string)
    requires AllDigits(d) && (x == [] || !IsDigit(x[0]))
    ensures DigitPrefix(d + x) == |d|
    decreases |d|
  {
    if d != [] {
      assert (d + x)[1..] == d[1..] + x;
      DigitsThen(d[1..], x);
    } else {
      assert d + x == x;
    }
  }

  /** A canonical decimal is rendered as itself. */
  lemma RenderCanonical(negative: bool, whole: string, fraction: string)
    requires Canonical(negative, whole, fraction)
    ensures NumberText(Format(negative, whole, fraction)) == Format(negative, whole, fraction)
  {
    ParseCanonical(negative, whole, fraction);
    if whole == "0" {
      assert StripLeadingZeros(whole) == "";
    } else {
      assert StripLeadingZeros(whole) == whole;
    }
    assert StripTrailingZeros(fraction) == fraction;
  }

  /** Rendering twice changes nothing: `parseFloat(String(parseFloat(x)))` is `parseFloat(x)`. */
  lemma NumberTextIdempotent(s: string)
    ensures NumberText(NumberText(s)) == NumberText(s)
  {
    match ParseFloat(s)
    case NotANumber =>
      NaNText();
    case Infinite(negative) =>
      InfinityText(negative);
    case Decimal(negative, w, f) =>
      RenderDecimalCanonical(negative, w, f);
      var n, wh, fr :| Canonical(n, wh, fr) && Render(Decimal(negative, w, f)) == Format(n, wh, fr);
      RenderCanonical(n, wh, fr);
  }

  /** `NaN` reads back as NaN. */
  lemma NaNText()
    ensures ParseFloat("NaN") == NotANumber
  {
    assert TrimStart("NaN", JsSpace) == "NaN";
    assert Unsigned("NaN") == "NaN";
    assert DigitPrefix("NaN") == 0;
    assert "NaN"[0..] == "NaN";
  }

  /** `Infinity` and `-Infinity` read back as themselves. */
  lemma InfinityText(negative: bool)
    ensures ParseFloat((if negative then "-" else "") + "Infinity") == Infinite(negative)
  {
    var s := (if negative then "-" else "") + "Infinity";
    assert s != [] && !JsSpace(s[0]) by {
      if negative { assert s[0] == '-'; } else { assert s[0] == 'I'; }
    }
    assert TrimStart(s, JsSpace) == s;
    if negative { assert s[1..] == "Infinity"; }
    assert Unsigned(s) == "Infinity";
    assert StartsWith("Infinity", "Infinity");
  }

  /** A canonical whole number such as `24` comes back as written. */
  lemma WholeNumberText(d: string)
    requires d != "" && AllDigits(d) && (d[0] == '0' ==> d == "0")
    ensures NumberText(d) == d
  {
    assert Canonical(false, d, "");
    assert Format(false, d, "") == d;
    RenderCanonical(false, d, "");
  }

  /** Text after the digits of a whole number is ignored when it does not continue the literal (`24px` reads as `24`). */
  lemma TrailingTextIgnored(d: string, x: string)
    requires d != "" && AllDigits(d)
    requires x == [] || (!IsDigit(x[0]) && x[0] != '.')
    ensures NumberText(d + x) == NumberText(d)
  {
    assert ParseFloat(d + x) == Decimal(false, d, "") by {
      SignThen(false, d + x);
      assert "" + (d + x) == d + x;
      WholeThen(d, x);
    }
    assert ParseFloat(d) == Decimal(false, d, "") by {
      SignThen(false, d);
      assert "" + d == d;
      assert d + "" == d;
      WholeThen(d, "");
    }
  }

  /** Digits followed by neither a digit nor `.` read as a whole number. */
  lemma WholeThen(d: string, x: string)
    requires d != "" && AllDigits(d)
    requires x == [] || (!IsDigit(x[0]) && x[0] != '.')
    ensures ReadLiteral(d + x) == DigitsLiteral(d, "")
  {
    var u := d + x;
    assert !StartsWith(u, "Infinity") by {
      assert u[0] == d[0];
    }
    DigitsThen(d, x);
    assert u[..|d|] == d;
    assert u[|d|..] == x;
  }

  /** With no digit, `.digit` or `Infinity` after the sign, the result is `NaN`. */
  lemma NoDigitsNaN(s: string)
    requires var u := Unsigned(s);
      !StartsWith(u, "Infinity") && (u == [] || !IsDigit(u[0]))
      && (|u| < 2 || u[0] != '.' || !IsDigit(u[1]))
    ensures NumberText(s) == "NaN"
  {
    var u := Unsigned(s);
    if u != [] && u[0] == '.' && |u| >= 2 {
      assert u[0..][1..][0] == u[1];
    }
  }
}
