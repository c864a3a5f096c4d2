/** JavaScript's loose comparison `x != false`, as the seeder applies it to
    the fields of an entry. `false` converts to the number 0, so `x` is
    loosely equal to `false` exactly when `x` converts to the number 0: a
    string through the StringToNumber grammar of section 7.1.4.1.1 of
    ECMA-262, an array through the string of its elements joined by commas. */
module LooseEquality {
  import opened Text

  predicate IsDigit(c: char) { '0' <= c <= '9' }

  predicate AllDigits(s: string) {
    forall i :: 0 <= i < |s| ==> IsDigit(s[i])
  }

  /** A decimal mantissa whose value is zero: digits, all of them `0`, and
      at most one `.`, with at least one digit. */
  predicate ZeroMantissa(m: string) {
    && (m == "0" || |m| >= 2)
    && (forall i :: 0 <= i < |m| ==> m[i] == '0' || m[i] == '.')
    && (forall i, j :: 0 <= i < j < |m| && m[i] == '.' ==> m[j] != '.')
  }

  /** An optional exponent: `e` or `E`, an optional sign, one or more digits. */
  predicate ExponentPart(e: string) {
    || e == []
    || (&& |e| >= 2 && (e[0] == 'e' || e[0] == 'E')
        && var digits := if e[1] == '+' || e[1] == '-' then e[2..] else e[1..];
           digits != [] && AllDigits(digits))
  }

  /** Where the exponent of a decimal literal starts: at the first `e` or
      `E`, or at the end when there is none. */
  function ExponentStart(u: string): (k: nat)
    ensures k <= |u|
    ensures forall i :: 0 <= i < k ==> u[i] != 'e' && u[i] != 'E'
    ensures k < |u| ==> u[k] == 'e' || u[k] == 'E'
  {
    if u == [] || u[0] == 'e' || u[0] == 'E' then 0 else 1 + ExponentStart(u[1..])
  }

  /** The literal without its sign, if it has one. */
  function Unsigned(t: string): (u: string)
    ensures u == t || (t != [] && (t[0] == '+' || t[0] == '-') && u == t[1..])
  {
    if t != [] && (t[0] == '+' || t[0] == '-') then t[1..] else t
  }

  /** A StrDecimalLiteral whose value is zero: an optional sign, a zero
      mantissa and an optional exponent (the exponent of a zero mantissa
      does not matter). */
  predicate ZeroDecimal(t: string) {
    var u := Unsigned(t);
    var k := ExponentStart(u);
    ZeroMantissa(u[..k]) && ExponentPart(u[k..])
  }

  /** A NonDecimalIntegerLiteral whose value is zero: `0x`, `0o` or `0b`
      (either case) followed by one or more `0` digits. */
  predicate ZeroRadix(t: string) {
    && |t| >= 3 && t[0] == '0' && t[1] in "xXoObB"
    && forall i :: 2 <= i < |t| ==> t[i] == '0'
  }

  /** A trimmed string that converts to the number 0: empty, or a numeral
      whose value is zero. */
  predicate ZeroNumeral(t: string) {
    t == [] || ZeroDecimal(t) || ZeroRadix(t)
  }

  /** `s` converts to the number 0: once surrounding whitespace is
      trimmed it is empty or a numeral whose value is zero. */
  predicate NumberIsZero(s: string) {
    ZeroNumeral(Trim(s))
  }

  /** The characters a numeral is written with. */
  predicate NumeralChar(c: char) {
    || IsDigit(c) || c == '+' || c == '-' || c == '.' || c == 'e' || c == 'E'
    || c == 'x' || c == 'X' || c == 'o' || c == 'O' || c == 'b' || c == 'B'
  }

  predicate AllNumeral(s: string) {
    forall i :: 0 <= i < |s| ==> NumeralChar(s[i])
  }

  lemma AllNumeralAppend(a: string, b: string)
    requires AllNumeral(a) && AllNumeral(b)
    ensures AllNumeral(a + b)
  {
    forall i | 0 <= i < |a + b| ensures NumeralChar((a + b)[i]) {
      if i >= |a| { assert (a + b)[i] == b[i - |a|]; }
    }
  }

  lemma ExponentChars(e: string)
    requires ExponentPart(e)
    ensures AllNumeral(e)
  {
    if e != [] {
      var off := if e[1] == '+' || e[1] == '-' then 2 else 1;
      forall i | 0 <= i < |e| ensures NumeralChar(e[i]) {
        if i >= off { assert e[i] == e[off..][i - off]; }
      }
    }
  }

  lemma MantissaChars(m: string)
    requires ZeroMantissa(m)
    ensures AllNumeral(m)
  {
    forall i | 0 <= i < |m| ensures NumeralChar(m[i]) {
      assert m[i] == '0' || m[i] == '.';
    }
  }

  /** A numeral whose value is zero is written only with numeral characters. */
  lemma ZeroNumeralChars(t: string)
    requires ZeroNumeral(t)
    ensures AllNumeral(t)
  {
    if ZeroDecimal(t) {
      var u := Unsigned(t);
      var k := ExponentStart(u);
      ExponentChars(u[k..]);
      MantissaChars(u[..k]);
      AllNumeralAppend(u[..k], u[k..]);
      assert u == u[..k] + u[k..];
      if u != t {
        AllNumeralAppend(t[..1], u);
        assert t == t[..1] + u;
      }
    }
  }

  /** `n` as `String(n)` writes it: decimal digits, no leading zero. */
  function DecimalText(n: nat): (r: string)
    ensures r != [] && AllDigits(r)
    ensures r[0] == '0' <==> n == 0
  {
    if n < 10 then ["0123456789"[n]]
    else DecimalText(n / 10) + ["0123456789"[n % 10]]
  }

  /** `ks.join(",")`, the string an array of numbers converts to. */
  function Joined(ks: seq<nat>): (r: string)
    ensures forall i :: 0 <= i < |r| ==> IsDigit(r[i]) || r[i] == ','
    ensures ks != [] ==> r != [] && IsDigit(r[0]) && IsDigit(r[|r| - 1])
    ensures |ks| >= 2 ==> ',' in r
  {
    if ks == [] then []
    else if |ks| == 1 then DecimalText(ks[0])
    else
      var head := DecimalText(ks[0]);
      var r := head + [','] + Joined(ks[1..]);
      assert r[|head|] == ',';
      r
  }

  /** The list test the seeder applies to a book's genre indexes:
      `genre != false` is false for the empty list and for the list
      holding only index 0, and for no other list. */
  predicate LooselyFalse(ks: seq<nat>) {
    |ks| == 0 || (|ks| == 1 && ks[0] == 0)
  }

  /** A string holding a character no numeral is written with is no zero numeral. */
  lemma NonNumeralNotZero(t: string, p: nat)
    requires p < |t| && !NumeralChar(t[p])
    ensures !ZeroNumeral(t)
  {
    if ZeroNumeral(t) {
      ZeroNumeralChars(t);
    }
  }

  /** The decimal text of a number is a zero numeral exactly when the number is 0. */
  lemma DecimalTextIsZero(n: nat)
    ensures NumberIsZero(DecimalText(n)) <==> n == 0
  {
    var r := DecimalText(n);
    TrimUnspaced(r);
    assert Unsigned(r) == r;
    if n == 0 {
      assert r == "0" && ExponentStart(r) == 1;
      assert r[..1] == "0";
    } else {
      var k := ExponentStart(r);
      if k > 0 { assert r[..k][0] == r[0]; }
    }
  }

  /** The list test is loose equality with `false`: a list is loosely
      `false` exactly when its comma-joined decimal text converts to 0. */
  lemma LooselyFalseIsJs(ks: seq<nat>)
    ensures LooselyFalse(ks) <==> NumberIsZero(Joined(ks))
  {
    var r := Joined(ks);
    if |ks| == 1 {
      DecimalTextIsZero(ks[0]);
    } else if |ks| >= 2 {
      TrimUnspaced(r);
      var p :| 0 <= p < |r| && r[p] == ',';
      NonNumeralNotZero(r, p);
    }
  }

  /** A word that starts with a capital letter no numeral is written
      with, and ends with a small letter, does not convert to 0. */
  lemma CapitalisedWordNotZero(s: string)
    requires s != [] && 'A' <= s[0] <= 'Z' && !NumeralChar(s[0]) && 'a' <= s[|s| - 1] <= 'z'
    ensures !NumberIsZero(s)
  {
    NonNumeralNotZero(s, 0);
    TrimUnspaced(s);
  }
}
