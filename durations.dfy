/**
 * `calculate_duration`: the sum of the parts' duration strings read with
 * Ruby's `String#to_i` (and `nil.to_i == 0`), together with the `Integer#to_s`
 * that `set_duration!` stores the sum with.
 */
module Durations {
  import opened Wrappers

  predicate IsDigit(c: char) {
    '0' <= c <= '9'
  }

  function DigitValue(c: char): nat
    requires IsDigit(c)
  {
    c as nat - '0' as nat
  }

  /** The leading characters `String#to_i` skips: space, \t, \n, \v, \f and \r. */
  predicate IsAsciiSpace(c: char) {
    c == ' ' || c == '\t' || c == '\n' || c == '\U{0B}' || c == '\U{0C}' || c == '\r'
  }

  function SkipSpaces(s: string): (r: string)
    ensures |r| <= |s| && r == s[|s| - |r|..]
    ensures |r| > 0 ==> !IsAsciiSpace(r[0])
    ensures forall i :: 0 <= i < |s| - |r| ==> IsAsciiSpace(s[i])
  {
    if |s| > 0 && IsAsciiSpace(s[0]) then SkipSpaces(s[1..]) else s
  }

  /**
   * The digits of the longest leading numeral of `s`, a single underscore
   * being allowed between two digits (`"1_000"` reads as 1000, `"1__0"` as 1).
   */
  function Numeral(s: string): (r: seq<char>)
    ensures |r| <= |s|
    ensures forall i :: 0 <= i < |r| ==> IsDigit(r[i])
    ensures |s| > 0 && IsDigit(s[0]) ==> |r| > 0 && r[0] == s[0]
    ensures |s| == 0 || !IsDigit(s[0]) ==> r == []
  {
    if |s| == 0 || !IsDigit(s[0]) then []
    else if |s| >= 3 && s[1] == '_' && IsDigit(s[2]) then [s[0]] + Numeral(s[2..])
    else [s[0]] + Numeral(s[1..])
  }

  /** The value of a digit string, most significant digit first. */
  function Decimal(ds: seq<char>): nat
    requires forall i :: 0 <= i < |ds| ==> IsDigit(ds[i])
  {
    if |ds| == 0 then 0 else Decimal(ds[..|ds| - 1]) * 10 + DigitValue(ds[|ds| - 1])
  }

  /** Ruby's `String#to_i` in base 10: spaces, an optional sign, then a numeral; anything else reads as 0. */
  function ToI(s: string): int {
    ReadSigned(SkipSpaces(s))
  }

  /** An optional sign and a numeral, once the leading spaces are gone. */
  function ReadSigned(t: string): int {
    if |t| > 0 && t[0] == '-' then -(Decimal(Numeral(t[1..])) as int)
    else if |t| > 0 && t[0] == '+' then Decimal(Numeral(t[1..]))
    else Decimal(Numeral(t))
  }

  /** `mf.duration.to_i`, where a part without a duration has `nil`, and `nil.to_i` is 0. */
  function DurationToI(d: Option<string>): int {
    match d
    case None => 0
    case Some(s) => ToI(s)
  }

  /** `parts.map { |mf| mf.duration.to_i }.compact.sum`; `to_i` never gives nil, so `compact` drops nothing. */
  function CalculateDuration(ds: seq<Option<string>>): int {
    if |ds| == 0 then 0 else CalculateDuration(ds[..|ds| - 1]) + DurationToI(ds[|ds| - 1])
  }

  function DigitChar(d: nat): (c: char)
    requires d < 10
    ensures IsDigit(c) && DigitValue(c) == d
  {
    ('0' as nat + d) as char
  }

  /** `Integer#to_s` of a natural number: its decimal digits, without leading zeros. */
  function NatToS(n: nat): (r: string)
    ensures |r| > 0
    ensures forall i :: 0 <= i < |r| ==> IsDigit(r[i])
    ensures |r| > 1 ==> r[0] != '0'
    decreases n
  {
    if n < 10 then [DigitChar(n)] else NatToS(n / 10) + [DigitChar(n % 10)]
  }

  /** `Integer#to_s`: a minus sign and the digits of the magnitude for negative numbers. */
  function IntToS(i: int): (r: string)
    ensures |r| > 0
    ensures i < 0 <==> r[0] == '-'
  {
    if i < 0 then "-" + NatToS(-i) else NatToS(i)
  }

  /** A string of digits alone is read whole. */
  lemma {:induction false} NumeralOfDigits(s: string)
    requires forall i :: 0 <= i < |s| ==> IsDigit(s[i])
    ensures Numeral(s) == s
  {
    if |s| > 0 {
      assert !(|s| >= 3 && s[1] == '_');
      NumeralOfDigits(s[1..]);
      assert s == [s[0]] + s[1..];
    }
  }

  /** Reading the digits `to_s` writes gives the number back. */
  lemma {:induction false} DecimalOfNatToS(n: nat)
    ensures Decimal(NatToS(n)) == n
    decreases n
  {
    var r := NatToS(n);
    if n < 10 {
      assert r[..0] == [];
    } else {
      DecimalOfNatToS(n / 10);
      assert r[..|r| - 1] == NatToS(n / 10);
    }
  }

  /** `i.to_s.to_i == i`: the duration `set_duration!` stores reads back as the sum. */
  lemma ToIOfIntToS(i: int)
    ensures ToI(IntToS(i)) == i
  {
    var r := IntToS(i);
    var digits := if i < 0 then NatToS(-i) else NatToS(i);
    assert SkipSpaces(r) == r;
    if i < 0 {
      assert r[1..] == digits;
    }
    NumeralOfDigits(digits);
    DecimalOfNatToS(if i < 0 then -i else i);
  }

  /** The total over a concatenation of part lists is the sum of the totals. */
  lemma {:induction false} CalculateDurationConcat(a: seq<Option<string>>, b: seq<Option<string>>)
    ensures CalculateDuration(a + b) == CalculateDuration(a) + CalculateDuration(b)
    decreases |b|
  {
    if |b| == 0 {
      assert a + b == a;
    } else {
      assert (a + b)[..|a + b| - 1] == a + b[..|b| - 1];
      CalculateDurationConcat(a, b[..|b| - 1]);
    }
  }

  /** The plain sum of some integers. */
  function Sum(xs: seq<int>): int {
    if |xs| == 0 then 0 else Sum(xs[..|xs| - 1]) + xs[|xs| - 1]
  }

  /** Parts whose durations were written by `to_s` add up to the sum of the numbers written. */
  lemma {:induction false} CalculateDurationOfRendered(xs: seq<int>)
    ensures CalculateDuration(seq(|xs|, i requires 0 <= i < |xs| => Some(IntToS(xs[i])))) == Sum(xs)
  {
    var ds := seq(|xs|, i requires 0 <= i < |xs| => Some(IntToS(xs[i])));
    if |xs| > 0 {
      var init := xs[..|xs| - 1];
      assert ds[..|ds| - 1] == seq(|init|, i requires 0 <= i < |init| => Some(IntToS(init[i])));
      CalculateDurationOfRendered(init);
      ToIOfIntToS(xs[|xs| - 1]);
    }
  }

  /** Parts without a duration add nothing. */
  lemma {:induction false} MissingDurationsAddNothing(ds: seq<Option<string>>)
    ensures CalculateDuration(ds + [None]) == CalculateDuration(ds)
    ensures CalculateDuration([None] + ds) == CalculateDuration(ds)
  {
    CalculateDurationConcat(ds, [None]);
    CalculateDurationConcat([None], ds);
    var none: seq<Option<string>> := [None];
    assert none[..0] == [];
    assert CalculateDuration(none) == 0;
  }

  predicate AllSpaces(s: string) {
    forall i :: 0 <= i < |s| ==> IsAsciiSpace(s[i])
  }

  predicate AllDigits(s: string) {
    forall i :: 0 <= i < |s| ==> IsDigit(s[i])
  }

  /** Text that cannot continue a numeral: not a digit, nor an underscore followed by a digit. */
  predicate EndsNumeral(rest: string) {
    |rest| == 0 || (!IsDigit(rest[0]) && !(rest[0] == '_' && |rest| >= 2 && IsDigit(rest[1])))
  }

  /** Leading spaces are skipped up to the first other character. */
  lemma {:induction false} SkipSpacesPrefix(sp: string, t: string)
    requires AllSpaces(sp)
    requires |t| == 0 || !IsAsciiSpace(t[0])
    ensures SkipSpaces(sp + t) == t
  {
    if |sp| == 0 {
      assert sp + t == t;
    } else {
      assert (sp + t)[1..] == sp[1..] + t;
      SkipSpacesPrefix(sp[1..], t);
    }
  }

  /** A numeral is read up to the first character that cannot continue it. */
  lemma {:induction false} NumeralStops(ds: string, rest: string)
    requires AllDigits(ds) && |ds| > 0
    requires EndsNumeral(rest)
    ensures Numeral(ds + rest) == ds
  {
    var s := ds + rest;
    if |ds| == 1 {
      assert s[1..] == rest;
      assert !(|s| >= 3 && s[1] == '_' && IsDigit(s[2]));
      assert ds == [ds[0]];
    } else {
      assert s[1..] == ds[1..] + rest;
      NumeralStops(ds[1..], rest);
      assert ds == [ds[0]] + ds[1..];
    }
  }

  /** A single underscore between two digits is skipped. */
  lemma {:induction false} NumeralUnderscore(ds: string, rest: string)
    requires AllDigits(ds) && |ds| > 0
    requires |rest| > 0 && IsDigit(rest[0])
    ensures Numeral(ds + "_" + rest) == ds + Numeral(rest)
  {
    var s := ds + "_" + rest;
    if |ds| == 1 {
      assert s[1] == '_' && s[2] == rest[0] && s[2..] == rest;
      assert ds == [ds[0]];
    } else {
      assert s[1..] == ds[1..] + "_" + rest;
      NumeralUnderscore(ds[1..], rest);
      assert ds == [ds[0]] + ds[1..];
    }
  }

  /** The tail after a sign character. */
  lemma TailAfterSign(c: char, t: string)
    ensures ([c] + t)[1..] == t
  {
  }

  /** After an optional sign, the numeral is read up to the first character that cannot continue it. */
  lemma ReadSignedNumeral(ds: string, rest: string)
    requires AllDigits(ds) && |ds| > 0
    requires EndsNumeral(rest)
    ensures ReadSigned(ds + rest) == Decimal(ds)
    ensures ReadSigned(['-'] + (ds + rest)) == -(Decimal(ds) as int)
    ensures ReadSigned(['+'] + (ds + rest)) == Decimal(ds)
  {
    NumeralStops(ds, rest);
    TailAfterSign('-', ds + rest);
    TailAfterSign('+', ds + rest);
  }

  /** `to_i` ignores leading spaces. */
  lemma ToIAfterSpaces(sp: string, t: string)
    requires AllSpaces(sp)
    requires |t| == 0 || !IsAsciiSpace(t[0])
    ensures ToI(sp + t) == ReadSigned(t)
  {
    SkipSpacesPrefix(sp, t);
  }

  /** `to_i` reads the numeral after the leading spaces, ignoring what follows it. */
  lemma ToIOfPaddedNumeral(sp: string, ds: string, rest: string)
    requires AllSpaces(sp)
    requires AllDigits(ds) && |ds| > 0
    requires EndsNumeral(rest)
    ensures ToI(sp + (ds + rest)) == Decimal(ds)
  {
    ReadSignedNumeral(ds, rest);
    ToIAfterSpaces(sp, ds + rest);
  }

  /** A minus sign before the numeral negates it. */
  lemma ToIOfNegativeNumeral(sp: string, ds: string, rest: string)
    requires AllSpaces(sp)
    requires AllDigits(ds) && |ds| > 0
    requires EndsNumeral(rest)
    ensures ToI(sp + (['-'] + (ds + rest))) == -(Decimal(ds) as int)
  {
    ReadSignedNumeral(ds, rest);
    ToIAfterSpaces(sp, ['-'] + (ds + rest));
  }

  /** A plus sign before the numeral is dropped. */
  lemma ToIOfPositiveNumeral(sp: string, ds: string, rest: string)
    requires AllSpaces(sp)
    requires AllDigits(ds) && |ds| > 0
    requires EndsNumeral(rest)
    ensures ToI(sp + (['+'] + (ds + rest))) == Decimal(ds)
  {
    ReadSignedNumeral(ds, rest);
    ToIAfterSpaces(sp, ['+'] + (ds + rest));
  }

  /** Text whose first non-space character is neither a digit nor a sign reads as 0. */
  lemma ToIOfNonNumeric(sp: string, t: string)
    requires AllSpaces(sp)
    requires |t| == 0 || (!IsAsciiSpace(t[0]) && !IsDigit(t[0]) && t[0] != '-' && t[0] != '+')
    ensures ToI(sp + t) == 0
  {
    ToIAfterSpaces(sp, t);
  }

  /** `"1_000".to_i == 1000`: an underscore between two digit groups is skipped. */
  lemma ToIOfGroupedNumeral(a: string, b: string)
    requires AllDigits(a) && |a| > 0
    requires AllDigits(b) && |b| > 0
    ensures ToI(a + "_" + b) == Decimal(a + b)
  {
    NumeralOfDigits(b);
    NumeralUnderscore(a, b);
    assert ToI(a + "_" + b) == ReadSigned(a + "_" + b) by {
      assert (a + "_" + b)[0] == a[0];
      SkipSpacesPrefix([], a + "_" + b);
      assert [] + (a + "_" + b) == a + "_" + b;
    }
  }

  /** `"1__0".to_i == 1`: two underscores in a row end the numeral. */
  lemma DoubleUnderscoreEndsNumeral(ds: string, rest: string)
    requires AllDigits(ds) && |ds| > 0
    ensures ToI(ds + ("__" + rest)) == Decimal(ds)
  {
    ToIOfPaddedNumeral([], ds, "__" + rest);
    assert [] + (ds + ("__" + rest)) == ds + ("__" + rest);
  }
}
