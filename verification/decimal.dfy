/** Decimal rendering of integers, as Go's strconv.Itoa writes it, and the
    parse that inverts it. Participants refer to champions through this
    rendering: the store's champion key is text, a participant's champion
    id is an integer. */
module Decimal {
  import opened Wrappers

  function DigitChar(d: nat): char
    requires d < 10
  {
    "0123456789"[d]
  }

  predicate IsDigit(c: char)
  {
    '0' <= c <= '9'
  }

  function DigitValue(c: char): (d: nat)
    requires IsDigit(c)
    ensures d < 10 && DigitChar(d) == c
  {
    (c as int) - ('0' as int)
  }

  /** Digits of a natural number, most significant first, no leading zero. */
  function Digits(n: nat): (s: string)
    ensures |s| >= 1
    ensures forall i :: 0 <= i < |s| ==> IsDigit(s[i])
    ensures s[0] == '0' ==> n == 0 && s == "0"
    decreases n
  {
    if n < 10 then [DigitChar(n)] else Digits(n / 10) + [DigitChar(n % 10)]
  }

  /** strconv.Itoa: optional '-' followed by the digits of the magnitude. */
  function Itoa(n: int): string
  {
    if n < 0 then "-" + Digits(-n) else Digits(n)
  }

  /** Value of a non-empty digit string. */
  function DigitsValue(s: string): nat
    requires forall i :: 0 <= i < |s| ==> IsDigit(s[i])
    decreases |s|
  {
    if |s| == 0 then 0 else DigitsValue(s[..|s| - 1]) * 10 + DigitValue(s[|s| - 1])
  }

  /** Parses an optional '-' followed by one or more digits. */
  function ParseInt(s: string): Option<int>
  {
    if |s| > 0 && s[0] == '-' then
      if |s| > 1 && forall i :: 1 <= i < |s| ==> IsDigit(s[i]) then Some(-(DigitsValue(s[1..]) as int)) else None
    else if |s| > 0 && forall i :: 0 <= i < |s| ==> IsDigit(s[i]) then Some(DigitsValue(s) as int)
    else None
  }

  /** The texts Itoa can produce: "0", or digits without a leading zero,
      possibly after a '-'. */
  predicate Canonical(s: string)
  {
    if |s| > 0 && s[0] == '-' then
      |s| > 1 && s[1] != '0' && forall i :: 1 <= i < |s| ==> IsDigit(s[i])
    else
      |s| > 0 && (s[0] != '0' || |s| == 1) && forall i :: 0 <= i < |s| ==> IsDigit(s[i])
  }

  lemma {:induction false} DigitsRoundTrip(n: nat)
    ensures DigitsValue(Digits(n)) == n
    decreases n
  {
    if n >= 10 {
      var s := Digits(n / 10) + [DigitChar(n % 10)];
      assert s[..|s| - 1] == Digits(n / 10);
      assert DigitValue(s[|s| - 1]) == n % 10;
      DigitsRoundTrip(n / 10);
      assert n == (n / 10) * 10 + n % 10;
    }
  }

  lemma {:induction false} LeadingNonZeroIsPositive(s: string)
    requires |s| > 0 && s[0] != '0'
    requires forall i :: 0 <= i < |s| ==> IsDigit(s[i])
    ensures DigitsValue(s) >= 1
    decreases |s|
  {
    if |s| > 1 {
      LeadingNonZeroIsPositive(s[..|s| - 1]);
    }
  }

  lemma {:induction false} ValueDigitsRoundTrip(s: string)
    requires |s| > 0 && (s[0] != '0' || |s| == 1)
    requires forall i :: 0 <= i < |s| ==> IsDigit(s[i])
    ensures Digits(DigitsValue(s)) == s
    decreases |s|
  {
    if |s| > 1 {
      var init := s[..|s| - 1];
      ValueDigitsRoundTrip(init);
      LeadingNonZeroIsPositive(init);
      var v := DigitsValue(s);
      assert v / 10 == DigitsValue(init);
      assert v % 10 == DigitValue(s[|s| - 1]);
      assert s == init + [s[|s| - 1]];
    }
  }

  /** Parsing the rendering gives the integer back. */
  lemma ItoaRoundTrip(n: int)
    ensures ParseInt(Itoa(n)) == Some(n)
  {
    DigitsRoundTrip(if n < 0 then -n else n);
    if n < 0 {
      assert Itoa(n)[1..] == Digits(-n);
    }
  }

  /** The rendering is always canonical. */
  lemma ItoaCanonical(n: int)
    ensures Canonical(Itoa(n))
  {
    if n < 0 {
      var s := Itoa(n);
      assert s[1..] == Digits(-n);
      assert forall i :: 1 <= i < |s| ==> s[i] == Digits(-n)[i - 1];
    }
  }

  /** A text is the rendering of `n` exactly when it is canonical and parses
      to `n`: keys such as "01", "+1" or "-0" never match any integer. */
  lemma ItoaMatches(n: int, s: string)
    ensures Itoa(n) == s <==> Canonical(s) && ParseInt(s) == Some(n)
  {
    ItoaRoundTrip(n);
    ItoaCanonical(n);
    if Canonical(s) && ParseInt(s) == Some(n) {
      if s[0] == '-' {
        ValueDigitsRoundTrip(s[1..]);
        LeadingNonZeroIsPositive(s[1..]);
        assert s == "-" + s[1..];
      } else {
        ValueDigitsRoundTrip(s);
      }
    }
  }

  /** Distinct integers render to distinct texts. */
  lemma ItoaInjective(m: int, n: int)
    requires Itoa(m) == Itoa(n)
    ensures m == n
  {
    ItoaRoundTrip(m);
    ItoaRoundTrip(n);
  }
}
