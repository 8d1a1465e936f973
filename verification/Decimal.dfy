/** Decimal integers as `strconv` and `math/big` print and parse them. */
module Decimal {
  import opened Text

  function Digit(d: int): char
    requires 0 <= d < 10
  {
    ('0' as int + d) as char
  }

  predicate IsDigit(c: char) { '0' <= c <= '9' }

  function DigitValue(c: char): int
    requires IsDigit(c)
  {
    c as int - '0' as int
  }

  function PrintNat(n: nat): (s: string)
    ensures s != "" && forall i :: 0 <= i < |s| ==> IsDigit(s[i])
  {
    if n < 10 then [Digit(n)] else PrintNat(n / 10) + [Digit(n % 10)]
  }

  function PrintInt(n: int): string {
    if n < 0 then "-" + PrintNat(-n) else PrintNat(n)
  }

  /** The value of a non-empty string of digits. */
  function ParseNat(s: string): Option<nat> {
    if s == "" || !IsDigit(s[|s| - 1]) then None
    else if |s| == 1 then Some(DigitValue(s[0]))
    else
      var high := ParseNat(s[..|s| - 1]);
      if high.None? then None else Some(10 * high.value + DigitValue(s[|s| - 1]))
  }

  function Signed(negative: bool, n: int): int { if negative then -n else n }

  /** An optional sign and digits. */
  function ParseInt(s: string): Option<int> {
    if s == "" then None
    else if s[0] == '-' || s[0] == '+' then
      var n := ParseNat(s[1..]);
      if n.None? then None else Some(Signed(s[0] == '-', n.value))
    else ParseNat(s)
  }

  predicate InInt64(n: int) { -0x8000_0000_0000_0000 <= n < 0x8000_0000_0000_0000 }

  /** `ParseInt` limited to 64 bits, as `json.Number.Int64` is. */
  function ParseInt64(s: string): Option<int> {
    var n := ParseInt(s);
    if n.Some? && InInt64(n.value) then n else None
  }

  lemma {:induction false} ParsePrintNat(n: nat)
    ensures ParseNat(PrintNat(n)) == Some(n)
  {
    if n >= 10 {
      ParsePrintNat(n / 10);
      var s := PrintNat(n);
      assert s[..|s| - 1] == PrintNat(n / 10);
    }
  }

  lemma {:induction false} ParseNegated(digits: string)
    ensures ParseInt("-" + digits) == var n := ParseNat(digits); if n.None? then None else Some(Signed(true, n.value))
  {
    var s := "-" + digits;
    assert s[0] == '-' && s[1..] == digits;
  }

  lemma {:induction false} ParseUnsigned(digits: string)
    requires digits != "" && IsDigit(digits[0])
    ensures ParseInt(digits) == ParseNat(digits)
  {
  }

  /** Parsing inverts printing for every integer. */
  lemma {:induction false} ParsePrintInt(n: int)
    ensures ParseInt(PrintInt(n)) == Some(n)
    ensures InInt64(n) ==> ParseInt64(PrintInt(n)) == Some(n)
  {
    if n < 0 {
      ParsePrintNat(-n);
      ParseNegated(PrintNat(-n));
    } else {
      ParsePrintNat(n);
      ParseUnsigned(PrintNat(n));
    }
  }

  // ---- What is read ----

  function Zeros(k: nat): string { seq(k, _ => '0') }

  lemma {:induction false} ParsePadded(k: nat, n: nat)
    ensures ParseNat(Zeros(k) + PrintNat(n)) == Some(n)
    decreases n
  {
    var s := Zeros(k) + PrintNat(n);
    if n >= 10 {
      ParsePadded(k, n / 10);
      assert s[..|s| - 1] == Zeros(k) + PrintNat(n / 10);
    } else if k > 0 {
      ParseZeros(k);
      assert s[..|s| - 1] == Zeros(k);
    } else {
      assert s == PrintNat(n);
    }
  }

  lemma {:induction false} ParseZeros(k: nat)
    requires k > 0
    ensures ParseNat(Zeros(k)) == Some(0)
  {
    if k > 1 {
      ParseZeros(k - 1);
      assert Zeros(k)[..k - 1] == Zeros(k - 1);
    }
  }

  /** Digits are the decimal form of their value, after any number of zeros. */
  lemma {:induction false} DigitsArePadded(s: string) returns (k: nat)
    requires ParseNat(s).Some?
    ensures s == Zeros(k) + PrintNat(ParseNat(s).value)
    decreases |s|
  {
    if |s| == 1 {
      k := 0;
      assert PrintNat(ParseNat(s).value) == [s[0]];
    } else {
      var before, d := s[..|s| - 1], DigitValue(s[|s| - 1]);
      var high := ParseNat(before).value;
      var j := DigitsArePadded(before);
      assert s == before + [Digit(d)];
      if high == 0 {
        k := j + 1;
        assert before == Zeros(k) && PrintNat(d) == [Digit(d)];
      } else {
        k := j;
        assert (10 * high + d) / 10 == high && (10 * high + d) % 10 == d;
        assert PrintNat(10 * high + d) == PrintNat(high) + [Digit(d)];
      }
    }
  }

  /** The decimal form of an integer, with a sign and any number of zeros allowed. */
  ghost predicate Writes(s: string, n: int) { exists k: nat :: WritesPadded(s, n, k) }

  predicate WritesPadded(s: string, n: int, k: nat) {
    if n < 0 then s == "-" + (Zeros(k) + PrintNat(-n))
    else
      var digits := Zeros(k) + PrintNat(n);
      s == digits || s == "+" + digits || (n == 0 && s == "-" + digits)
  }

  /** A text is read as an integer exactly when it is such a form of it, and as a 64-bit one when that is in range. */
  lemma {:induction false} ParseIntIff(s: string, n: int)
    ensures ParseInt(s) == Some(n) <==> Writes(s, n)
    ensures ParseInt64(s) == Some(n) <==> Writes(s, n) && -9_223_372_036_854_775_808 <= n <= 9_223_372_036_854_775_807
  {
    hide WritesPadded;
    if ParseInt(s) == Some(n) { ReadIsWritten(s, n); }
    if Writes(s, n) {
      var k: nat :| WritesPadded(s, n, k);
      WrittenIsRead(s, n, k);
    }
  }

  lemma {:induction false} ReadIsWritten(s: string, n: int)
    requires ParseInt(s) == Some(n)
    ensures Writes(s, n)
  {
    hide PrintNat, ParseNat;
    var digits := if s[0] == '-' || s[0] == '+' then s[1..] else s;
    var k := DigitsArePadded(digits);
    assert s[0] == '-' || s[0] == '+' ==> s == [s[0]] + digits;
    assert WritesPadded(s, n, k);
  }

  lemma {:induction false} PrintedIsWritten(n: int)
    ensures Writes(PrintInt(n), n)
  {
    ParsePrintInt(n);
    ParseIntIff(PrintInt(n), n);
  }

  lemma {:induction false} WrittenIsRead(s: string, n: int, k: nat)
    requires WritesPadded(s, n, k)
    ensures ParseInt(s) == Some(n)
  {
    hide PrintNat, ParseNat, Zeros;
    var v: nat := if n < 0 then -n else n;
    var digits := Zeros(k) + PrintNat(v);
    ParsePadded(k, v);
    PaddedStarts(k, v);
    assert ("+" + digits)[1..] == digits && ("-" + digits)[1..] == digits;
  }

  lemma {:induction false} PaddedStarts(k: nat, n: nat)
    ensures var digits := Zeros(k) + PrintNat(n); digits != "" && IsDigit(digits[0])
  {
    assert k > 0 ==> Zeros(k)[0] == '0';
  }
}
