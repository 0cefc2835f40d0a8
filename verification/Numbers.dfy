/** Decimal and hexadecimal numerals: what the parsers read and what they print back. */
module Numbers {

  type Base = b: int | b == 10 || b == 16 witness 10

  /** The first value that a C `int` cannot hold. */
  const INT_LIMIT: nat := 0x8000_0000

  /** Shifting a number by one digit, with a constant factor in each case. */
  function Times(base: Base, v: nat): nat {
    if base == 10 then v * 10 else v * 16
  }

  function Quotient(base: Base, n: nat): (q: nat)
    ensures n > 0 ==> q < n
    ensures q > 0 <==> n >= base
  {
    if base == 10 then n / 10 else n / 16
  }

  function Remainder(base: Base, n: nat): (r: nat)
    ensures r < base && n == Times(base, Quotient(base, n)) + r
  {
    if base == 10 then n % 10 else n % 16
  }

  /** `isdigit` and `isxdigit`. */
  predicate IsDigit(base: Base, c: char) {
    '0' <= c <= '9' || (base == 16 && ('a' <= c <= 'f' || 'A' <= c <= 'F'))
  }

  /** `hexCharToDec`. */
  function DigitValue(base: Base, c: char): (d: nat)
    requires IsDigit(base, c)
    ensures d < base
  {
    if '0' <= c <= '9' then c as int - '0' as int
    else if 'a' <= c <= 'f' then c as int - 'a' as int + 10
    else c as int - 'A' as int + 10
  }

  /** `decToHexChar`. */
  function DigitChar(base: Base, d: nat): (c: char)
    requires d < base
    ensures IsDigit(base, c) && DigitValue(base, c) == d
  {
    if d < 10 then ('0' as int + d) as char else ('A' as int + d - 10) as char
  }

  /** Where the run of digits that continues at `i` ends. */
  function DigitsEnd(base: Base, s: string, i: nat): (e: nat)
    requires i <= |s|
    ensures i <= e <= |s|
    ensures forall k :: i <= k < e ==> IsDigit(base, s[k])
    ensures e < |s| ==> !IsDigit(base, s[e])
    decreases |s| - i
  {
    if i < |s| && IsDigit(base, s[i]) then DigitsEnd(base, s, i + 1) else i
  }

  ghost predicate AllDigits(base: Base, s: string, n: nat) {
    n <= |s| && forall k :: 0 <= k < n ==> IsDigit(base, s[k])
  }

  /** The positional value of the first `n` digits of `s`. */
  function Value(base: Base, s: string, n: nat): nat
    requires AllDigits(base, s, n)
  {
    if n == 0 then 0 else Times(base, Value(base, s, n - 1)) + DigitValue(base, s[n - 1])
  }

  lemma ValueNone(base: Base, s: string)
    ensures AllDigits(base, s, 0) && Value(base, s, 0) == 0
  {
  }

  lemma ValueStep(base: Base, s: string, n: nat)
    requires AllDigits(base, s, n) && n < |s| && IsDigit(base, s[n])
    ensures AllDigits(base, s, n + 1)
    ensures Value(base, s, n + 1) == Times(base, Value(base, s, n)) + DigitValue(base, s[n])
  {
  }

  lemma {:induction false} ValueOfPrefix(base: Base, s: string, t: string, n: nat)
    requires AllDigits(base, s, n) && n <= |t| && s[..n] == t[..n]
    ensures AllDigits(base, t, n) && Value(base, s, n) == Value(base, t, n)
  {
    assert forall k :: 0 <= k < n ==> s[..n][k] == t[..n][k];
    if n > 0 {
      assert s[..n - 1] == s[..n][..n - 1] == t[..n][..n - 1] == t[..n - 1];
      ValueOfPrefix(base, s, t, n - 1);
    }
  }

  lemma {:induction false} ValueMonotone(base: Base, s: string, m: nat, n: nat)
    requires AllDigits(base, s, n) && m <= n
    ensures Value(base, s, m) <= Value(base, s, n)
  {
    if m < n {
      ValueMonotone(base, s, m, n - 1);
    }
  }

  /** The canonical numeral, in upper case and without leading zeros. */
  function Print(base: Base, n: nat): (s: string)
    ensures |s| >= 1
  {
    var last := [DigitChar(base, Remainder(base, n))];
    if n < base then last else Print(base, Quotient(base, n)) + last
  }

  /** One turn of the reverse writers: the last digit goes first. */
  lemma PrintStep(base: Base, n: nat)
    ensures var q := Quotient(base, n);
            Print(base, n) ==
              (if q > 0 then Print(base, q) else "") + [DigitChar(base, Remainder(base, n))]
  {
  }

  /** Reading back what was printed gives the number again. */
  lemma {:induction false} PrintValue(base: Base, n: nat)
    ensures AllDigits(base, Print(base, n), |Print(base, n)|)
    ensures Value(base, Print(base, n), |Print(base, n)|) == n
  {
    var s := Print(base, n);
    if n >= base {
      var t := Print(base, Quotient(base, n));
      PrintValue(base, Quotient(base, n));
      assert s[..|t|] == t == t[..|t|];
      ValueOfPrefix(base, t, s, |t|);
      assert AllDigits(base, s, |s|);
    } else {
      assert AllDigits(base, s, 1);
      assert Value(base, s, 0) == 0;
    }
  }

  function Power(base: Base, k: nat): nat {
    if k == 0 then 1 else Times(base, Power(base, k - 1))
  }

  lemma {:induction false} PrintLength(base: Base, n: nat, k: nat)
    requires k >= 1 && n < Power(base, k)
    ensures |Print(base, n)| <= k
  {
    assert Power(base, 1) == Times(base, Power(base, 0));
    if n >= base {
      PrintLength(base, Quotient(base, n), k - 1);
    }
  }

  /** An `int` prints in at most 10 decimal or 8 hexadecimal digits. */
  lemma PrintFits(base: Base, n: nat)
    requires n < INT_LIMIT
    ensures |Print(base, n)| <= if base == 10 then 10 else 8
  {
    var k := if base == 10 then 10 else 8;
    assert Power(10, 5) == 100000;
    assert Power(10, 10) == 10000000000;
    assert Power(16, 4) == 0x1_0000;
    assert Power(16, 8) == 0x1_0000_0000;
    PrintLength(base, n, k);
  }

  /** The numerals with one digit, as `strtol` would read them. */
  lemma DigitTable(k: nat)
    ensures k < 16 ==> var l, u := "0123456789abcdef"[k], "0123456789ABCDEF"[k];
                       && IsDigit(16, l) && DigitValue(16, l) == k && IsDigit(16, u) && DigitValue(16, u) == k
                       && DigitChar(16, k) == u
    ensures k < 10 ==> var d := "0123456789"[k]; IsDigit(10, d) && DigitValue(10, d) == k && DigitChar(10, k) == d
  {
  }

  /** No other byte is a digit. */
  lemma OnlyDigits(c: char)
    ensures IsDigit(10, c) <==> exists k :: 0 <= k < 10 && c == "0123456789"[k]
    ensures IsDigit(16, c) <==> exists k :: 0 <= k < 16 && (c == "0123456789abcdef"[k] || c == "0123456789ABCDEF"[k])
  {
    if IsDigit(16, c) {
      var k := DigitValue(16, c);
      DigitTable(k);
      assert c == "0123456789abcdef"[k] || c == "0123456789ABCDEF"[k];
    }
    if IsDigit(10, c) {
      DigitTable(DigitValue(10, c));
      assert c == "0123456789"[DigitValue(10, c)];
    }
  }

  /** One more digit is one more position: the value of a numeral is its positional value. */
  lemma PositionalValue(base: Base, s: string, n: nat)
    requires AllDigits(base, s, n) && n > 0
    ensures Value(base, s, n) == base * Value(base, s, n - 1) + DigitValue(base, s[n - 1])
    ensures Value(base, s, 0) == 0
  {
  }

  /** The C int that the parsers keep their numbers in has 32 bits. */
  lemma IntLimit()
    ensures 2 * INT_LIMIT == 65536 * 65536
  {
  }
}
