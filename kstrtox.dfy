/** The kernel's string-to-u64 conversion as the FILEIO backend calls it
    (strict_strtoull with base 0, i.e. kstrtoull), and the decimal rendering
    that sprintf's %u / %llu produce.  The parser lives in lib/kstrtox.c,
    which is not part of this model; its observable rules are written out
    here: an optional '+', a "0x" prefix (followed by a hex digit) selecting
    base 16, a leading '0' selecting base 8, base 10 otherwise, at least one
    digit, at most one trailing newline, and -ERANGE for values above
    ULLONG_MAX. */
module Kstrtox {
  import opened Kernel

  function ToLower(c: char): char {
    if 'A' <= c <= 'Z' then (c as int + 32) as char else c
  }

  /** The value of c as a digit in any base up to 16, or 16 if c is no digit. */
  function DigitValue(c: char): (d: nat)
    ensures d <= 16
    ensures d < 10 <==> '0' <= c <= '9'
  {
    if '0' <= c <= '9' then c as int - '0' as int
    else if 'a' <= ToLower(c) <= 'f' then ToLower(c) as int - 'a' as int + 10
    else 16
  }

  predicate IsXDigit(c: char) {
    DigitValue(c) < 16
  }

  /** Base selection for base 0: (base, number of prefix characters skipped). */
  function FixupRadix(s: string): (r: (nat, nat))
    ensures r.0 == 8 || r.0 == 10 || r.0 == 16
    ensures r.1 <= |s|
    ensures r.0 == 16 <==> r.1 == 2
    ensures r.0 == 10 <==> (s == [] || s[0] != '0')
  {
    if |s| > 0 && s[0] == '0' then
      if |s| > 2 && ToLower(s[1]) == 'x' && IsXDigit(s[2]) then (16, 2) else (8, 0)
    else (10, 0)
  }

  /** The number of leading characters of s that are digits in the given base. */
  function DigitRun(s: string, base: nat): (n: nat)
    ensures n <= |s|
    ensures forall i :: 0 <= i < n ==> DigitValue(s[i]) < base
    ensures n < |s| ==> DigitValue(s[n]) >= base
  {
    if s == [] || DigitValue(s[0]) >= base then 0 else 1 + DigitRun(s[1..], base)
  }

  /** The mathematical value of a digit string, most significant digit first. */
  function Value(digits: string, base: nat): nat {
    if digits == [] then 0
    else Value(digits[..|digits| - 1], base) * base + DigitValue(digits[|digits| - 1])
  }

  /** strict_strtoull(s, 0, &v): the parsed value, or -EINVAL / -ERANGE. */
  function StrictStrtoull(s: string): (r: Result<nat>)
    ensures r.Ok? ==> r.value <= ULLONG_MAX
    ensures r.Err? ==> r.code == -EINVAL || r.code == -ERANGE
    ensures s == [] ==> r == Err(-EINVAL)
  {
    var t := if |s| > 0 && s[0] == '+' then s[1..] else s;
    var (base, skip) := FixupRadix(t);
    var u := t[skip..];
    var n := DigitRun(u, base);
    var v := Value(u[..n], base);
    if v > ULLONG_MAX then Err(-ERANGE)
    else if n == 0 then Err(-EINVAL)
    else
      var rest := u[n..];
      var rest' := if |rest| > 0 && rest[0] == '\n' then rest[1..] else rest;
      if rest' != [] then Err(-EINVAL) else Ok(v)
  }

  function DecimalDigit(d: nat): (c: char)
    requires d < 10
    ensures '0' <= c <= '9' && DigitValue(c) == d
  {
    ('0' as int + d) as char
  }

  /** The decimal text sprintf prints for n: no sign, no leading zeros. */
  function Decimal(n: nat): (s: string)
    ensures |s| > 0
    ensures forall i :: 0 <= i < |s| ==> '0' <= s[i] <= '9'
    ensures s[0] == '0' <==> n == 0
  {
    if n < 10 then [DecimalDigit(n)] else Decimal(n / 10) + [DecimalDigit(n % 10)]
  }

  lemma {:induction false} DecimalValue(n: nat)
    ensures Value(Decimal(n), 10) == n
  {
    var s := Decimal(n);
    if n >= 10 {
      assert s[..|s| - 1] == Decimal(n / 10);
      DecimalValue(n / 10);
    } else {
      assert s[..|s| - 1] == [];
    }
  }

  /** Every number the size field of the status text can show is accepted back
      by the parser and yields the same number. */
  lemma DecimalRoundTrip(n: nat)
    requires n <= ULLONG_MAX
    ensures StrictStrtoull(Decimal(n)) == Ok(n)
  {
    if n == 0 {
      ZeroRoundTrip();
    } else {
      var s := Decimal(n);
      DecimalValue(n);
      assert FixupRadix(s) == (10, 0);
      assert s[0..] == s;
      assert DigitRun(s, 10) == |s|;
      assert s[..|s|] == s;
    }
  }

  /** "0" is read in base 8 (its leading zero) and still yields 0. */
  lemma ZeroRoundTrip()
    ensures StrictStrtoull(Decimal(0)) == Ok(0)
  {
    var s := Decimal(0);
    assert s == "0" && FixupRadix(s) == (8, 0);
    assert s[0..] == s && DigitRun(s, 8) == 1;
    assert s[..1] == s && Value(s, 8) == 0;
  }

  /** A number that does not fit in 64 bits is refused with -ERANGE. */
  lemma TooLargeIsRange(n: nat)
    requires n > ULLONG_MAX
    ensures StrictStrtoull(Decimal(n)) == Err(-ERANGE)
  {
    var s := Decimal(n);
    DecimalValue(n);
    assert FixupRadix(s) == (10, 0);
    assert s[0..] == s;
    assert DigitRun(s, 10) == |s|;
    assert s[..|s|] == s;
  }

  /** Leading zeros do not change a number's value. */
  lemma {:induction false} LeadingZero(d: string, base: nat)
    ensures Value(['0'] + d, base) == Value(d, base)
  {
    if d != [] {
      var z := ['0'] + d;
      assert z[..|z| - 1] == ['0'] + d[..|d| - 1];
      assert z[|z| - 1] == d[|d| - 1];
      LeadingZero(d[..|d| - 1], base);
    }
  }

  /** A "0x" (or "0X") literal is read in base 16 and yields its value. */
  lemma HexLiteral(x: char, d: string)
    requires x == 'x' || x == 'X'
    requires |d| > 0 && forall i :: 0 <= i < |d| ==> IsXDigit(d[i])
    requires Value(d, 16) <= ULLONG_MAX
    ensures StrictStrtoull(['0', x] + d) == Ok(Value(d, 16))
  {
    var s := ['0', x] + d;
    assert s[2] == d[0];
    assert FixupRadix(s) == (16, 2);
    assert s[2..] == d;
    assert DigitRun(d, 16) == |d|;
    assert d[..|d|] == d;
  }

  /** A leading '0' followed by base-8 digits is a run of base-8 digits. */
  lemma OctalRun(d: string)
    requires forall i :: 0 <= i < |d| ==> DigitValue(d[i]) < 8
    ensures DigitRun(['0'] + d, 8) == |d| + 1
  {
    var s := ['0'] + d;
    assert s[1..] == d;
    if d != [] {
      assert DigitRun(d, 8) == |d|;
    }
  }

  /** Text without a sign whose digits, after the radix prefix, are all
      digits of the selected base is read whole. */
  lemma WholeRun(s: string, base: nat, skip: nat)
    requires |s| > 0 && s[0] != '+'
    requires FixupRadix(s) == (base, skip) && skip < |s|
    requires DigitRun(s[skip..], base) == |s| - skip
    requires Value(s[skip..], base) <= ULLONG_MAX
    ensures StrictStrtoull(s) == Ok(Value(s[skip..], base))
  {
    assert s[skip..][..|s| - skip] == s[skip..];
  }

  /** A literal with a leading '0' is read in base 8 and yields its value. */
  lemma OctalLiteral(d: string)
    requires forall i :: 0 <= i < |d| ==> DigitValue(d[i]) < 8
    requires Value(d, 8) <= ULLONG_MAX
    ensures StrictStrtoull(['0'] + d) == Ok(Value(d, 8))
  {
    var s := ['0'] + d;
    assert FixupRadix(s) == (8, 0) by {
      if |s| > 2 {
        assert s[1] == d[0] && DigitValue(d[0]) < 10;
      }
    }
    assert s[0..] == s;
    OctalRun(d);
    LeadingZero(d, 8);
    WholeRun(s, 8, 0);
  }
}
