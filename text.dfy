/**
 * Decimal text of integers, as C#'s `int.ToString()` / `long.ToString()` write
 * it (invariant culture), and `long.TryParse` on such text.
 */
module Text {
  import opened Wrappers

  predicate IsDigit(c: char) {
    '0' <= c <= '9'
  }

  predicate AllDigits(s: string) {
    forall i :: 0 <= i < |s| ==> IsDigit(s[i])
  }

  function DigitChar(d: int): (c: char)
    requires 0 <= d <= 9
    ensures IsDigit(c)
  {
    (48 + d) as char
  }

  function DigitValue(c: char): (d: int)
    requires IsDigit(c)
    ensures 0 <= d <= 9 && DigitChar(d) == c
  {
    c as int - 48
  }

  /** The shortest decimal numeral of `n`, without sign or leading zeros. */
  function NatToString(n: nat): (s: string)
    ensures 1 <= |s| && AllDigits(s)
    ensures s[0] == '0' ==> n == 0
    decreases n
  {
    if n < 10 then [DigitChar(n)] else NatToString(n / 10) + [DigitChar(n % 10)]
  }

  /** The value of a string of decimal digits (most significant first). */
  function DigitsValue(s: string): nat
    requires AllDigits(s)
  {
    if s == [] then 0 else DigitsValue(s[..|s| - 1]) * 10 + DigitValue(s[|s| - 1])
  }

  /** `x.ToString()` for a C# integer `x`: a minus sign before the digits of a negative value. */
  function IntToString(i: int): (s: string)
    ensures 1 <= |s|
  {
    if i < 0 then "-" + NatToString(-i) else NatToString(i)
  }

  const LongMin: int := -0x8000_0000_0000_0000
  const LongMax: int := 0x7FFF_FFFF_FFFF_FFFF

  predicate InLongRange(i: int) {
    LongMin <= i <= LongMax
  }

  /** The white-space characters `NumberStyles.Integer` lets surround a number: tab to carriage return, and space. */
  predicate IsWhite(c: char) {
    '\t' <= c <= '\r' || c == ' '
  }

  /** `s` without its leading and trailing white space: a slice `s[i..j]`. */
  function TrimSpan(s: string): (r: (nat, nat))
    ensures r.0 <= r.1 <= |s|
    ensures r.0 < r.1 ==> !IsWhite(s[r.0]) && !IsWhite(s[r.1 - 1])
    ensures forall k :: 0 <= k < r.0 ==> IsWhite(s[k])
    ensures forall k :: r.1 <= k < |s| ==> IsWhite(s[k])
  {
    if |s| == 0 then (0, 0)
    else if IsWhite(s[0]) then
      var r := TrimSpan(s[1..]);
      (r.0 + 1, r.1 + 1)
    else if IsWhite(s[|s| - 1]) then
      TrimSpan(s[..|s| - 1])
    else (0, |s|)
  }

  /**
   * `long.TryParse(s, out v)` with `NumberStyles.Integer`: optional white
   * space, an optional sign, at least one decimal digit, optional white space,
   * and a value that fits in 64 bits.
   */
  function ParseLong(s: string): (r: Option<int>)
    ensures r.Some? ==> InLongRange(r.value)
  {
    var t := s[TrimSpan(s).0..TrimSpan(s).1];
    if |t| == 0 then None
    else
      var digits := if t[0] == '-' || t[0] == '+' then t[1..] else t;
      if |digits| == 0 || !AllDigits(digits) then None
      else
        var v: int := if t[0] == '-' then 0 - DigitsValue(digits) as int else DigitsValue(digits);
        if InLongRange(v) then Some(v) else None
  }

  /** White space around a number does not change what it reads as. */
  lemma PaddedNumberParses(lead: string, s: string, trail: string)
    requires forall k :: 0 <= k < |lead| ==> IsWhite(lead[k])
    requires forall k :: 0 <= k < |trail| ==> IsWhite(trail[k])
    requires |s| > 0 && !IsWhite(s[0]) && !IsWhite(s[|s| - 1])
    ensures ParseLong(lead + s + trail) == ParseLong(s)
  {
    var u := lead + s + trail;
    var r := TrimSpan(u);
    assert u[|lead|] == s[0] && u[|lead| + |s| - 1] == s[|s| - 1];
    assert forall k :: 0 <= k < |lead| ==> u[k] == lead[k];
    assert forall k :: |lead| + |s| <= k < |u| ==> u[k] == trail[k - |lead| - |s|];
    assert r.0 == |lead| && r.1 == |lead| + |s|;
    assert u[r.0..r.1] == s;
    NoWhiteTrimsToItself(s);
    assert s[0..|s|] == s;
  }

  /** A text that neither starts nor ends with white space is its own trimmed form. */
  lemma NoWhiteTrimsToItself(s: string)
    requires |s| > 0 && !IsWhite(s[0]) && !IsWhite(s[|s| - 1])
    ensures TrimSpan(s) == (0, |s|)
  {
  }

  /** A text with no decimal digit in it never reads as a number. */
  lemma NoDigitNoNumber(s: string)
    requires forall k :: 0 <= k < |s| ==> !IsDigit(s[k])
    ensures ParseLong(s).None?
  {
    var t := s[TrimSpan(s).0..TrimSpan(s).1];
    if |t| > 0 {
      var digits := if t[0] == '-' || t[0] == '+' then t[1..] else t;
      if |digits| > 0 {
        assert digits[0] in s;
      }
    }
  }

  /** Reading back the numeral of `n` gives `n`. */
  lemma {:induction false} DigitsValueOfNatToString(n: nat)
    ensures DigitsValue(NatToString(n)) == n
    decreases n
  {
    if n >= 10 {
      var s := NatToString(n / 10);
      DigitsValueOfNatToString(n / 10);
      var t := s + [DigitChar(n % 10)];
      assert t[..|t| - 1] == s;
    }
  }

  /** Every 64-bit integer survives `ToString` followed by `long.TryParse`. */
  lemma ParseLongOfIntToString(i: int)
    requires InLongRange(i)
    ensures ParseLong(IntToString(i)) == Some(i)
  {
    var s := IntToString(i);
    NoWhiteTrimsToItself(s);
    assert s[0..|s|] == s;
    if i < 0 {
      DigitsValueOfNatToString(-i);
      assert s[1..] == NatToString(-i);
    } else {
      DigitsValueOfNatToString(i);
    }
  }

  /** `"{current}/{target}"`. */
  function ProgressText(current: int, target: int): string {
    IntToString(current) + "/" + IntToString(target)
  }

  /** The position of the first `c` in `s`, if any. */
  function IndexOf(s: string, c: char): (r: Option<nat>)
    ensures r.Some? ==> r.value < |s| && s[r.value] == c && c !in s[..r.value]
    ensures r.None? ==> c !in s
  {
    if |s| == 0 then None
    else if s[0] == c then Some(0)
    else match IndexOf(s[1..], c)
      case None => None
      case Some(i) =>
        assert s[..i + 1] == [s[0]] + s[1..][..i];
        Some(i + 1)
  }

  /** Reads a `"{current}/{target}"` text back into its two numbers. */
  function ParseProgressText(s: string): Option<(int, int)> {
    match IndexOf(s, '/')
    case None => None
    case Some(k) =>
      match (ParseLong(s[..k]), ParseLong(s[k + 1..]))
      case (Some(a), Some(b)) => Some((a, b))
      case _ => None
  }

  /** The decimal text of an integer has no slash in it. */
  lemma NoSlashInNumber(i: int)
    ensures '/' !in IntToString(i)
  {
    var s := IntToString(i);
    if i < 0 {
      assert s == "-" + NatToString(-i);
      assert forall k :: 1 <= k < |s| ==> s[k] == NatToString(-i)[k - 1];
    }
  }

  /** A progress text of 64-bit numbers reads back as the same two numbers. */
  lemma ProgressTextRoundTrip(current: int, target: int)
    requires InLongRange(current) && InLongRange(target)
    ensures ParseProgressText(ProgressText(current, target)) == Some((current, target))
  {
    var a := IntToString(current);
    var b := IntToString(target);
    var s := ProgressText(current, target);
    NoSlashInNumber(current);
    assert s == a + "/" + b;
    assert s[..|a|] == a;
    assert s[|a| + 1..] == b;
    IndexOfAfterPrefix(a, b, '/');
    ParseLongOfIntToString(current);
    ParseLongOfIntToString(target);
  }

  /** The text shown for a missing definition, `"0/0"`, reads back as zero of zero. */
  lemma ZeroProgressText()
    ensures ParseProgressText("0/0") == Some((0, 0))
  {
    ProgressTextRoundTrip(0, 0);
    assert ProgressText(0, 0) == "0/0";
  }

  /** The first `c` in `a + [c] + b` is the one right after `a`, when `a` has none. */
  lemma {:induction false} IndexOfAfterPrefix(a: string, b: string, c: char)
    requires c !in a
    ensures IndexOf(a + [c] + b, c) == Some(|a|)
  {
    if |a| > 0 {
      IndexOfAfterPrefix(a[1..], b, c);
      assert (a + [c] + b)[1..] == a[1..] + [c] + b;
    }
  }
}
