/** The string operations the filter engine relies on: lower-casing, substring search and
    the parse of a decimal literal. They stand for `String.toLowerCase`, `String.contains`
    and `Double.parseDouble`, restricted as README describes. */
module Text {
  import opened Model

  /** ASCII lower-casing of one character; every other character is left as it is. */
  function LowerChar(c: char): char {
    if 'A' <= c <= 'Z' then (c as int + 32) as char else c
  }

  predicate IsUpper(c: char) {
    'A' <= c <= 'Z'
  }

  /** The string with every ASCII capital replaced by its small letter. */
  function ToLower(s: string): (r: string)
    ensures |r| == |s|
    ensures forall i :: 0 <= i < |s| ==> r[i] == LowerChar(s[i])
    ensures forall i :: 0 <= i < |r| ==> !IsUpper(r[i])
  {
    if s == [] then [] else [LowerChar(s[0])] + ToLower(s[1..])
  }

  /** Lower-casing gives `t` when it gives each character of `t` from the one it replaces. */
  lemma LowersTo(s: string, t: string)
    requires |s| == |t| && forall i :: 0 <= i < |s| ==> LowerChar(s[i]) == t[i]
    ensures ToLower(s) == t
  {
  }

  /** Lower-casing an already lower-cased string changes nothing. */
  lemma ToLowerIdempotent(s: string)
    ensures ToLower(ToLower(s)) == ToLower(s)
  {
    var once := ToLower(s);
    assert forall i :: 0 <= i < |once| ==> LowerChar(once[i]) == once[i];
  }

  /** `t` occurs in `s` starting at position `i`. */
  predicate OccursAt(s: string, t: string, i: int) {
    0 <= i && i + |t| <= |s| && s[i..i + |t|] == t
  }

  /** Substring search, scanning `s` from the left. */
  function Contains(s: string, t: string): (r: bool)
    ensures t == [] ==> r
    ensures r ==> |t| <= |s|
    decreases |s|
  {
    if |t| <= |s| && s[..|t|] == t then true
    else if s == [] then false
    else Contains(s[1..], t)
  }

  /** The search succeeds exactly when `t` occurs somewhere in `s`. */
  lemma {:induction false} ContainsIffOccurs(s: string, t: string)
    ensures Contains(s, t) <==> exists i :: OccursAt(s, t, i)
    decreases |s|
  {
    if |t| <= |s| && s[..|t|] == t {
      assert OccursAt(s, t, 0);
    } else if s == [] {
      assert forall i :: !OccursAt(s, t, i);
    } else {
      ContainsIffOccurs(s[1..], t);
      forall i | OccursAt(s[1..], t, i)
        ensures OccursAt(s, t, i + 1)
      {
        assert s[i + 1..i + 1 + |t|] == s[1..][i..i + |t|];
      }
      forall i | OccursAt(s, t, i)
        ensures OccursAt(s[1..], t, i - 1)
      {
        assert i != 0;
        assert s[1..][i - 1..i - 1 + |t|] == s[i..i + |t|];
      }
    }
  }

  predicate IsDigit(c: char) {
    '0' <= c <= '9'
  }

  predicate AllDigits(s: string) {
    forall i :: 0 <= i < |s| ==> IsDigit(s[i])
  }

  /** The value of a string of decimal digits, most significant first. */
  function DigitsValue(s: string): nat
    requires AllDigits(s)
  {
    if s == [] then 0 else 10 * DigitsValue(s[..|s| - 1]) + (s[|s| - 1] as int - '0' as int)
  }

  function Pow10(n: nat): (r: nat)
    ensures r >= 1
  {
    if n == 0 then 1 else 10 * Pow10(n - 1)
  }

  /** The length of the longest prefix of `s` made of digits. */
  function DigitRun(s: string): (n: nat)
    ensures n <= |s|
    ensures AllDigits(s[..n])
    ensures n < |s| ==> !IsDigit(s[n])
  {
    if s == [] || !IsDigit(s[0]) then 0
    else
      var m := DigitRun(s[1..]);
      assert s[..1 + m] == [s[0]] + s[1..][..m];
      1 + m
  }

  /** Unsigned decimal literal: digits, or digits around a single point with at least one
      digit in all. */
  ghost predicate IsUnsignedLiteral(u: string) {
    || (|u| > 0 && AllDigits(u))
    || (|u| > 1 && exists k :: 0 <= k < |u| && u[k] == '.' && AllDigits(u[..k]) && AllDigits(u[k + 1..]))
  }

  /** A decimal literal with an optional leading sign. */
  ghost predicate IsDecimalLiteral(s: string) {
    if |s| > 0 && (s[0] == '-' || s[0] == '+') then IsUnsignedLiteral(s[1..]) else IsUnsignedLiteral(s)
  }

  /** The value of an unsigned literal, or `None`. */
  function ParseUnsigned(u: string): (r: Option<real>)
    ensures u == [] ==> r.None?
    ensures r.Some? ==> r.value >= 0.0
  {
    var n := DigitRun(u);
    if n == |u| then
      if n == 0 then None else Some(DigitsValue(u) as real)
    else if u[n] != '.' || !AllDigits(u[n + 1..]) || |u| == 1 then
      None
    else
      Some(Decimal(u[..n], u[n + 1..]))
  }

  /** The value of `whole.frac` for two digit strings. */
  function Decimal(whole: string, frac: string): (x: real)
    requires AllDigits(whole) && AllDigits(frac)
    ensures x >= DigitsValue(whole) as real
  {
    DigitsValue(whole) as real + DigitsValue(frac) as real / Pow10(|frac|) as real
  }

  function Negate(r: Option<real>): Option<real> {
    match r
    case None => None
    case Some(v) => Some(-v)
  }

  /** The numeric value of a decimal literal with an optional sign, or `None`. */
  function ParseNumber(s: string): (r: Option<real>)
    ensures s == [] ==> r.None?
    ensures |s| > 0 && s[0] != '-' && r.Some? ==> r.value >= 0.0
    ensures |s| > 0 && s[0] == '-' && r.Some? ==> r.value <= 0.0
  {
    if |s| > 0 && s[0] == '-' then Negate(ParseUnsigned(s[1..]))
    else if |s| > 0 && s[0] == '+' then ParseUnsigned(s[1..])
    else ParseUnsigned(s)
  }

  /** The unsigned parse accepts exactly the unsigned literals. */
  lemma ParseUnsignedIffLiteral(u: string)
    ensures ParseUnsigned(u).Some? <==> IsUnsignedLiteral(u)
  {
    var n := DigitRun(u);
    if n == |u| {
      assert u[..n] == u;
    } else if u[n] != '.' || !AllDigits(u[n + 1..]) || |u| == 1 {
      assert !AllDigits(u) by { assert !IsDigit(u[n]); }
    } else {
      assert u[n] == '.' && AllDigits(u[..n]) && AllDigits(u[n + 1..]);
    }
  }

  /** The parse accepts exactly the decimal literals. */
  lemma ParseNumberIffLiteral(s: string)
    ensures ParseNumber(s).Some? <==> IsDecimalLiteral(s)
  {
    if |s| > 0 && (s[0] == '-' || s[0] == '+') {
      ParseUnsignedIffLiteral(s[1..]);
    } else {
      ParseUnsignedIffLiteral(s);
    }
  }

  /** Digits, a point and digits, with at least one digit in all, parse to the decimal
      value they spell. */
  lemma ParseFractionLiteral(w: string, f: string)
    requires AllDigits(w) && AllDigits(f) && |w| + |f| > 0
    ensures ParseNumber(w + "." + f) == Some(Decimal(w, f))
  {
    var s := w + "." + f;
    DigitRunBeforePoint(w, f);
    assert s[..|w|] == w && s[|w|] == '.' && s[|w| + 1..] == f;
    assert s[0] != '-' && s[0] != '+' by {
      if |w| > 0 { assert s[0] == w[0] && IsDigit(w[0]); }
    }
  }

  /** The digit run of `w.f` stops at the point. */
  lemma {:induction false} DigitRunBeforePoint(w: string, f: string)
    requires AllDigits(w)
    ensures DigitRun(w + "." + f) == |w|
  {
    var s := w + "." + f;
    if w != [] {
      assert s[1..] == w[1..] + "." + f;
      assert IsDigit(s[0]);
      assert forall i :: 0 <= i < |w| - 1 ==> w[1..][i] == w[i + 1];
      DigitRunBeforePoint(w[1..], f);
    } else {
      assert s[0] == '.';
    }
  }

  /** A plain run of digits parses to its value. */
  lemma ParseDigits(ds: string)
    requires |ds| > 0 && AllDigits(ds)
    ensures ParseNumber(ds) == Some(DigitsValue(ds) as real)
  {
    UnsignedDigits(ds);
    assert IsDigit(ds[0]);
  }

  /** A sign in front of an unsigned literal: minus negates its value, plus keeps it. */
  lemma ParseSign(u: string)
    requires |u| == 0 || (u[0] != '-' && u[0] != '+')
    ensures ParseNumber("-" + u) == Negate(ParseNumber(u))
    ensures ParseNumber("+" + u) == ParseNumber(u)
  {
    assert ("-" + u)[1..] == u;
    assert ("+" + u)[1..] == u;
  }

  lemma UnsignedDigits(ds: string)
    requires |ds| > 0 && AllDigits(ds)
    ensures ParseUnsigned(ds) == Some(DigitsValue(ds) as real)
  {
    DigitRunAll(ds);
  }

  /** On a string of digits the digit run is the whole string. */
  lemma {:induction false} DigitRunAll(ds: string)
    requires AllDigits(ds)
    ensures DigitRun(ds) == |ds|
  {
    if ds != [] {
      assert IsDigit(ds[0]);
      assert forall i :: 0 <= i < |ds| - 1 ==> ds[1..][i] == ds[i + 1];
      DigitRunAll(ds[1..]);
    }
  }
}
