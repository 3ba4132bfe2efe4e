/**
 * The C library text services the configuration front end leans on, stated
 * on `string`: ASCII case folding as `strcasecmp` does it in the C locale,
 * a decimal model of the number scanners `strtod`/`atof`/`atoi`, the decimal
 * spelling `%d` produces, and `round` (half away from zero).
 */
module CText {

  datatype Option<T> = None | Some(value: T)

  // ---------------------------------------------------------------- chars

  predicate IsDigit(c: char) { '0' <= c <= '9' }

  /** `isspace` in the C locale: blank, \t, \n, \v, \f, \r. */
  predicate IsSpace(c: char) { c == ' ' || 9 <= c as int <= 13 }

  function DigitValue(c: char): (d: nat)
    requires IsDigit(c)
    ensures d < 10
  {
    c as int - '0' as int
  }

  function DigitChar(d: nat): (c: char)
    requires d < 10
    ensures IsDigit(c) && DigitValue(c) == d
  {
    ('0' as int + d) as char
  }

  /** `tolower` in the C locale: only 'A'..'Z' change. */
  function ToLower(c: char): (r: char)
    ensures 'A' <= c <= 'Z' ==> r as int == c as int + 32
    ensures !('A' <= c <= 'Z') ==> r == c
  {
    if 'A' <= c <= 'Z' then (c as int + 32) as char else c
  }

  /** `s` with every ASCII capital replaced by its small letter. */
  function Lowered(s: string): (r: string)
    ensures |r| == |s| && forall i :: 0 <= i < |s| ==> r[i] == ToLower(s[i])
  {
    seq(|s|, i requires 0 <= i < |s| => ToLower(s[i]))
  }

  /** `strcasecmp(a, b) == 0`: the two strings agree once both are lowered. */
  predicate CaseEqual(a: string, b: string)
    ensures CaseEqual(a, b) <==> Lowered(a) == Lowered(b)
  {
    |a| == |b| && forall i :: 0 <= i < |a| ==> ToLower(a[i]) == ToLower(b[i])
  }

  // ------------------------------------------------------ prefix scanning

  /** Length of the longest prefix of `s` whose characters satisfy `p`. */
  function PrefixLength(s: string, p: char -> bool): (n: nat)
    ensures n <= |s|
    ensures forall i :: 0 <= i < n ==> p(s[i])
    ensures n < |s| ==> !p(s[n])
  {
    if s == [] || !p(s[0]) then 0 else 1 + PrefixLength(s[1..], p)
  }

  predicate AllDigits(ds: string) { forall i :: 0 <= i < |ds| ==> IsDigit(ds[i]) }

  /** The value of a string of decimal digits, most significant first. */
  function DigitsValue(ds: string): nat
    requires AllDigits(ds)
  {
    if ds == [] then 0 else DigitsValue(ds[..|ds| - 1]) * 10 + DigitValue(ds[|ds| - 1])
  }

  /** The value of the digits after a decimal point: each digit is worth a tenth of the one before it. */
  function Fraction(ds: string): (r: real)
    requires AllDigits(ds)
    ensures 0.0 <= r < 1.0
  {
    if ds == [] then 0.0 else (DigitValue(ds[0]) as real + Fraction(ds[1..])) / 10.0
  }

  /** A prefix whose characters all satisfy `p`, followed by one that does not, is the longest such prefix. */
  lemma {:induction false} PrefixOfAll(ds: string, rest: string, p: char -> bool)
    requires forall i :: 0 <= i < |ds| ==> p(ds[i])
    requires rest == [] || !p(rest[0])
    ensures PrefixLength(ds + rest, p) == |ds|
  {
    if ds != [] {
      assert (ds + rest)[1..] == ds[1..] + rest;
      PrefixOfAll(ds[1..], rest, p);
    }
  }

  // ---------------------------------------------------------- scanners

  /** What a number scanner reports: no conversion, or a value and the unread rest. */
  datatype Scan<T> = NoNumber | Number(value: T, rest: string)

  /** `t` is what is left of `s` once some leading characters are dropped. */
  predicate IsSuffix(t: string, s: string)
  {
    |t| <= |s| && t == s[|s| - |t|..]
  }

  /** `rest` is what is left of `s` after at least one character was consumed. */
  predicate IsStrictSuffix(rest: string, s: string)
  {
    |rest| < |s| && rest == s[|s| - |rest|..]
  }

  /** A strict suffix of a suffix of `s` is a strict suffix of `s`. */
  lemma SuffixOfSuffix(s: string, t: string, rest: string)
    requires IsSuffix(t, s) && IsStrictSuffix(rest, t)
    ensures IsStrictSuffix(rest, s)
  {
    assert t[|t| - |rest|..] == s[|s| - |rest|..];
  }

  /** `s` after its leading `isspace` characters. */
  function SkipSpaces(s: string): (t: string)
    ensures IsSuffix(t, s)
    ensures t == [] || !IsSpace(t[0])
  {
    s[PrefixLength(s, IsSpace)..]
  }

  /** `t` after an optional leading sign. */
  function SkipSign(t: string): (u: string)
    ensures IsSuffix(u, t)
  {
    if |t| > 0 && (t[0] == '-' || t[0] == '+') then t[1..] else t
  }

  predicate IsNegative(t: string) { |t| > 0 && t[0] == '-' }

  /** Whether a decimal number starts here: a digit, or a point followed by a digit. */
  predicate StartsDecimal(u: string)
  {
    (|u| >= 1 && IsDigit(u[0])) || (|u| >= 2 && u[0] == '.' && IsDigit(u[1]))
  }

  /** The optional sign in front of a number. */
  datatype Sign = NoSign | Plus | Minus

  function SignText(sg: Sign): string
  {
    match sg
    case NoSign => []
    case Plus => ['+']
    case Minus => ['-']
  }

  /**
   * Decimal `strtod`: leading `isspace` characters, an optional sign, digits
   * with an optional decimal point, at least one digit in all. When nothing
   * converts, `strtod` leaves its end pointer at the start of the input.
   */
  function ScanDecimal(s: string): (r: Scan<real>)
    ensures r.NoNumber? <==> !StartsDecimal(SkipSign(SkipSpaces(s)))
  {
    var t := SkipSpaces(s);
    var u := ScanUnsignedDecimal(SkipSign(t));
    if u.NoNumber? then NoNumber
    else Number(if IsNegative(t) then -u.value else u.value, u.rest)
  }

  /** `strtod`'s end pointer moves past at least one character when a number converts. */
  lemma DecimalRest(s: string)
    ensures ScanDecimal(s).Number? ==> IsStrictSuffix(ScanDecimal(s).rest, s)
  {
    var t := SkipSpaces(s);
    var u := ScanUnsignedDecimal(SkipSign(t));
    UnsignedRest(SkipSign(t));
    if u.Number? {
      SuffixOfSuffix(t, SkipSign(t), u.rest);
      SuffixOfSuffix(s, t, u.rest);
    }
  }

  /**
   * The digits, optional point and fraction digits of `strtod`, after any
   * sign: a point is consumed after whole digits even when no digit follows
   * it, but a point alone is not a number.
   */
  function ScanUnsignedDecimal(u: string): (r: Scan<real>)
    ensures r.NoNumber? <==> !StartsDecimal(u)
    ensures r.Number? ==> r.value >= 0.0
  {
    var ip := ScanDigits(u);
    var whole: real := if ip.NoNumber? then 0.0 else ip.value as real;
    var afterWhole := if ip.NoNumber? then u else ip.rest;
    if |afterWhole| > 0 && afterWhole[0] == '.' then
      var f := ScanFraction(afterWhole[1..]);
      if f.NoNumber? then
        if ip.NoNumber? then NoNumber
        else Number(whole, afterWhole[1..])
      else Number(whole + f.value, f.rest)
    else if ip.NoNumber? then NoNumber
    else Number(whole, afterWhole)
  }

  /** What `ScanUnsignedDecimal` leaves unread is a strict suffix of its input. */
  lemma UnsignedRest(u: string)
    ensures ScanUnsignedDecimal(u).Number? ==> IsStrictSuffix(ScanUnsignedDecimal(u).rest, u)
  {
    var ip := ScanDigits(u);
    DigitsRest(u);
    var afterWhole := if ip.NoNumber? then u else ip.rest;
    if |afterWhole| > 0 && afterWhole[0] == '.' {
      var f := ScanFraction(afterWhole[1..]);
      FractionRest(afterWhole[1..]);
      assert IsSuffix(afterWhole[1..], u) by {
        assert afterWhole[1..] == u[|u| - |afterWhole[1..]|..];
      }
      if f.Number? {
        SuffixOfSuffix(u, afterWhole[1..], f.rest);
      }
    }
  }

  /** What `ScanDigits` leaves unread is a strict suffix of its input. */
  lemma DigitsRest(u: string)
    ensures ScanDigits(u).Number? ==> IsStrictSuffix(ScanDigits(u).rest, u)
  {
  }

  /** What `ScanFraction` leaves unread is a strict suffix of its input. */
  lemma FractionRest(v: string)
    ensures ScanFraction(v).Number? ==> IsStrictSuffix(ScanFraction(v).rest, v)
  {
  }

  /** A run of decimal digits and its value. */
  function ScanDigits(u: string): (r: Scan<nat>)
    ensures r.NoNumber? <==> !(|u| >= 1 && IsDigit(u[0]))
  {
    var ni := PrefixLength(u, IsDigit);
    if ni == 0 then NoNumber else Number(DigitsValue(u[..ni]), u[ni..])
  }

  /** The digits after a decimal point and their value. */
  function ScanFraction(v: string): (r: Scan<real>)
    ensures r.NoNumber? <==> !(|v| >= 1 && IsDigit(v[0]))
    ensures r.Number? ==> 0.0 <= r.value < 1.0
  {
    var nf := PrefixLength(v, IsDigit);
    if nf == 0 then NoNumber else Number(Fraction(v[..nf]), v[nf..])
  }

  /** Decimal `strtol(s, &end, 10)` as `atoi` uses it: whitespace, sign, digits. */
  function ScanInteger(s: string): (r: Scan<int>)
    ensures r.NoNumber? <==> !(|SkipSign(SkipSpaces(s))| >= 1 && IsDigit(SkipSign(SkipSpaces(s))[0]))
  {
    var t := SkipSpaces(s);
    var d := ScanDigits(SkipSign(t));
    if d.NoNumber? then NoNumber
    else Number(if IsNegative(t) then -(d.value as int) else d.value, d.rest)
  }

  /** `strtol`'s end pointer moves past at least one character when a number converts. */
  lemma IntegerRest(s: string)
    ensures ScanInteger(s).Number? ==> IsStrictSuffix(ScanInteger(s).rest, s)
  {
    var t := SkipSpaces(s);
    var d := ScanDigits(SkipSign(t));
    DigitsRest(SkipSign(t));
    if d.Number? {
      SuffixOfSuffix(t, SkipSign(t), d.rest);
      SuffixOfSuffix(s, t, d.rest);
    }
  }

  /** Leading blanks are skipped up to the first character that is not one. */
  lemma SkipSpacesOf(ws: string, t: string)
    requires forall i :: 0 <= i < |ws| ==> IsSpace(ws[i])
    requires t == [] || !IsSpace(t[0])
    ensures SkipSpaces(ws + t) == t
  {
    PrefixOfAll(ws, t, IsSpace);
    assert (ws + t)[|ws|..] == t;
  }

  /** A spelled-out sign is skipped, and only a minus makes the number negative. */
  lemma SkipSignOf(sg: Sign, u: string)
    requires u == [] || (u[0] != '-' && u[0] != '+')
    ensures SkipSign(SignText(sg) + u) == u
    ensures IsNegative(SignText(sg) + u) <==> sg == Minus
  {
    assert SignText(sg) + u == if sg == NoSign then u else [SignText(sg)[0]] + u;
  }

  /** Blanks and a spelled-out sign in front of a number: what is left once both are skipped, and its sign. */
  lemma SignedPrefix(ws: string, sg: Sign, u: string)
    requires forall i :: 0 <= i < |ws| ==> IsSpace(ws[i])
    requires u != [] && (IsDigit(u[0]) || u[0] == '.')
    ensures SkipSign(SkipSpaces(ws + SignText(sg) + u)) == u
    ensures IsNegative(SkipSpaces(ws + SignText(sg) + u)) <==> sg == Minus
  {
    var t := SignText(sg) + u;
    assert t[0] == if sg == NoSign then u[0] else SignText(sg)[0];
    assert ws + SignText(sg) + u == ws + t;
    SkipSpacesOf(ws, t);
    SkipSignOf(sg, u);
  }

  /** Digits, a point and fraction digits, then a non-digit: the whole part plus the fraction. */
  lemma {:induction false} PointThenFraction(ds: string, fs: string, rest: string)
    requires AllDigits(ds) && AllDigits(fs) && |fs| >= 1
    requires rest == [] || !IsDigit(rest[0])
    ensures ScanUnsignedDecimal(ds + (['.'] + (fs + rest))) == Number(DigitsValue(ds) as real + Fraction(fs), rest)
  {
    var tail := ['.'] + (fs + rest);
    assert tail[1..] == fs + rest;
    FractionOf(fs, rest);
    if ds != [] {
      DigitsOf(ds, tail);
    } else {
      assert ds + tail == tail;
    }
  }

  /** Digits and a point with no digit after it: the point is consumed, the value is the whole part. */
  lemma {:induction false} PointThenNoFraction(ds: string, rest: string)
    requires AllDigits(ds) && |ds| >= 1
    requires rest == [] || !IsDigit(rest[0])
    ensures ScanUnsignedDecimal(ds + (['.'] + rest)) == Number(DigitsValue(ds) as real, rest)
  {
    var tail := ['.'] + rest;
    assert tail[1..] == rest;
    DigitsOf(ds, tail);
  }

  /** Digits, a point and fraction digits followed by a non-digit: their decimal value and what follows. */
  lemma {:induction false} UnsignedWithPoint(ds: string, fs: string, rest: string)
    requires AllDigits(ds) && AllDigits(fs) && |ds| + |fs| >= 1
    requires rest == [] || !IsDigit(rest[0])
    ensures ScanUnsignedDecimal(ds + ['.'] + fs + rest) == Number(DigitsValue(ds) as real + Fraction(fs), rest)
  {
    if fs != [] {
      assert ds + ['.'] + fs + rest == ds + (['.'] + (fs + rest));
      PointThenFraction(ds, fs, rest);
    } else {
      assert ds + ['.'] + fs + rest == ds + (['.'] + rest);
      PointThenNoFraction(ds, rest);
    }
  }

  /** Digits followed by neither a digit nor a point: their value and what follows. */
  lemma {:induction false} UnsignedWithoutPoint(ds: string, rest: string)
    requires AllDigits(ds) && |ds| >= 1
    requires rest == [] || (!IsDigit(rest[0]) && rest[0] != '.')
    ensures ScanUnsignedDecimal(ds + rest) == Number(DigitsValue(ds) as real, rest)
  {
    DigitsOf(ds, rest);
  }

  /** Digits followed by a non-digit: their value and what follows. */
  lemma {:induction false} DigitsOf(ds: string, rest: string)
    requires AllDigits(ds) && |ds| >= 1
    requires rest == [] || !IsDigit(rest[0])
    ensures ScanDigits(ds + rest) == Number(DigitsValue(ds), rest)
  {
    var u := ds + rest;
    PrefixOfAll(ds, rest, IsDigit);
    assert u[..|ds|] == ds;
    assert u[|ds|..] == rest;
  }

  /** Fraction digits followed by a non-digit: their value and what follows. */
  lemma {:induction false} FractionOf(fs: string, rest: string)
    requires AllDigits(fs) && |fs| >= 1
    requires rest == [] || !IsDigit(rest[0])
    ensures ScanFraction(fs + rest) == Number(Fraction(fs), rest)
  {
    var v := fs + rest;
    PrefixOfAll(fs, rest, IsDigit);
    assert v[..|fs|] == fs;
    assert v[|fs|..] == rest;
  }

  /**
   * `strtod` on a spelled-out decimal: blanks, a sign, digits, a point and
   * fraction digits, then a non-digit, read as that signed decimal.
   */
  lemma {:induction false} ScanDecimalOfSpelling(ws: string, sg: Sign, ds: string, fs: string, rest: string, x: real)
    requires forall i :: 0 <= i < |ws| ==> IsSpace(ws[i])
    requires AllDigits(ds) && AllDigits(fs) && |ds| + |fs| >= 1
    requires rest == [] || !IsDigit(rest[0])
    requires x == DigitsValue(ds) as real + Fraction(fs)
    ensures ScanDecimal(ws + SignText(sg) + (ds + ['.'] + fs + rest)) == Number(if sg == Minus then -x else x, rest)
  {
    assert (ds + ['.'] + fs + rest)[0] == if ds == [] then '.' else ds[0];
    UnsignedWithPoint(ds, fs, rest);
    SignedOf(ws, sg, ds + ['.'] + fs + rest, x, rest);
  }

  /** `strtod` on blanks, a sign and digits with no point after them: that signed whole number. */
  lemma {:induction false} ScanDecimalOfWholeSpelling(ws: string, sg: Sign, ds: string, rest: string, x: real)
    requires forall i :: 0 <= i < |ws| ==> IsSpace(ws[i])
    requires AllDigits(ds) && |ds| >= 1
    requires rest == [] || (!IsDigit(rest[0]) && rest[0] != '.')
    requires x == DigitsValue(ds) as real
    ensures ScanDecimal(ws + SignText(sg) + (ds + rest)) == Number(if sg == Minus then -x else x, rest)
  {
    UnsignedWithoutPoint(ds, rest);
    SignedOf(ws, sg, ds + rest, x, rest);
  }

  /** Blanks and a sign in front of an unsigned number: `strtod` reads the number with that sign. */
  lemma SignedOf(ws: string, sg: Sign, u: string, x: real, rest: string)
    requires forall i :: 0 <= i < |ws| ==> IsSpace(ws[i])
    requires u != [] && (IsDigit(u[0]) || u[0] == '.')
    requires ScanUnsignedDecimal(u) == Number(x, rest)
    ensures ScanDecimal(ws + SignText(sg) + u) == Number(if sg == Minus then -x else x, rest)
  {
    SignedPrefix(ws, sg, u);
    SignedScan(ws + SignText(sg) + u, x, rest);
  }

  /** Once blanks and sign are skipped, `strtod` reads the unsigned number and applies the sign. */
  lemma SignedScan(s: string, x: real, rest: string)
    requires ScanUnsignedDecimal(SkipSign(SkipSpaces(s))) == Number(x, rest)
    ensures ScanDecimal(s).Number? && ScanDecimal(s).rest == rest
    ensures ScanDecimal(s).value == if IsNegative(SkipSpaces(s)) then -x else x
  {
  }

  /** `atoi`'s scan on blanks, a sign and digits followed by a non-digit: that signed integer. */
  lemma {:induction false} ScanIntegerOfSpelling(ws: string, sg: Sign, ds: string, rest: string, n: int)
    requires forall i :: 0 <= i < |ws| ==> IsSpace(ws[i])
    requires AllDigits(ds) && |ds| >= 1
    requires rest == [] || !IsDigit(rest[0])
    requires n == DigitsValue(ds)
    ensures ScanInteger(ws + SignText(sg) + (ds + rest)) == Number(if sg == Minus then -n else n, rest)
  {
    SignedPrefix(ws, sg, ds + rest);
    DigitsOf(ds, rest);
  }

  /** `atof`: the scanned value, 0.0 when nothing converts. */
  function AtoF(s: string): (x: real)
    ensures ScanDecimal(s).NoNumber? ==> x == 0.0
    ensures ScanDecimal(s).Number? ==> x == ScanDecimal(s).value
  {
    match ScanDecimal(s)
    case NoNumber => 0.0
    case Number(v, _) => v
  }

  /** `atoi`: the scanned value, 0 when nothing converts. */
  function AtoI(s: string): (n: int)
    ensures ScanInteger(s).NoNumber? ==> n == 0
    ensures ScanInteger(s).Number? ==> n == ScanInteger(s).value
  {
    match ScanInteger(s)
    case NoNumber => 0
    case Number(v, _) => v
  }

  // ------------------------------------------------------------ printing

  /** The decimal spelling of `n`, as `%d` prints it. */
  function NatToString(n: nat): (s: string)
    ensures |s| >= 1 && AllDigits(s)
  {
    if n < 10 then [DigitChar(n)] else NatToString(n / 10) + [DigitChar(n % 10)]
  }

  lemma {:induction false} NatToStringValue(n: nat)
    ensures DigitsValue(NatToString(n)) == n
  {
    var s := NatToString(n);
    if n >= 10 {
      NatToStringValue(n / 10);
      assert s[..|s| - 1] == NatToString(n / 10);
    }
  }

  /** Reading back what `%d` printed: `strtod` and `atoi` both recover `n`. */
  lemma NatToStringScans(n: nat, rest: string)
    requires rest == [] || (!IsDigit(rest[0]) && rest[0] != '.')
    ensures ScanDecimal(NatToString(n) + rest) == Number(n as real, rest)
    ensures ScanInteger(NatToString(n) + rest) == Number(n, rest)
  {
    var ds := NatToString(n);
    var e: string := [];
    NatToStringValue(n);
    assert e + SignText(NoSign) + (ds + rest) == ds + rest;
    ScanDecimalOfWholeSpelling(e, NoSign, ds, rest, n as real);
    ScanIntegerOfSpelling(e, NoSign, ds, rest, n);
  }

  // ------------------------------------------------------------ rounding

  /** C `round`: to the nearest integer, halves away from zero. */
  function Round(x: real): (r: int)
    ensures -0.5 <= r as real - x <= 0.5
    ensures x >= 0.0 ==> r >= 0
    ensures r as real - x == 0.5 ==> x > 0.0
    ensures x - r as real == 0.5 ==> x < 0.0
    ensures x == x.Floor as real ==> r == x.Floor
  {
    if x >= 0.0 then (x + 0.5).Floor else -((-x + 0.5).Floor)
  }
}
