/** Decimal numbers of 64 bits, as the standard library prints and parses them. */
module Numbers {
  import opened Common

  const TWO_63 := 0x8000_0000_0000_0000

  predicate IsInt64(n: int) {
    -TWO_63 <= n < TWO_63
  }

  /** Two's complement. */
  function Wrap64(n: int): int {
    (n + TWO_63) % (2 * TWO_63) - TWO_63
  }

  /** The one 64-bit number that differs from n by whole turns. */
  lemma WrapPeriod(n: int, k: int)
    ensures IsInt64(Wrap64(n)) && (IsInt64(n) ==> Wrap64(n) == n)
    ensures Wrap64(n + k * 2 * TWO_63) == Wrap64(n)
  {
  }

  predicate IsDigits(s: string) {
    s != "" && forall i :: 0 <= i < |s| ==> '0' <= s[i] <= '9'
  }

  function Value(digits: string): nat
    requires digits == "" || IsDigits(digits)
  {
    if digits == "" then 0
    else Value(digits[..|digits| - 1]) * 10 + (digits[|digits| - 1] - '0') as nat
  }

  /** The library's decimal parser: an optional sign, digits, and 64 bits. */
  function Atoi(s: string): Option<int> {
    var digits := if s != "" && (s[0] == '+' || s[0] == '-') then s[1..] else s;
    if !IsDigits(digits) then None
    else
      var v: int := Value(digits);
      var n := if s[0] == '-' then -v else v;
      if IsInt64(n) then Some(n) else None
  }

  function Itoa(n: nat): (s: string)
    ensures IsDigits(s)
  {
    var last := [(n % 10) as char + '0'];
    if n < 10 then last else Itoa(n / 10) + last
  }

  lemma {:induction false} ValueOfItoa(n: nat)
    ensures Value(Itoa(n)) == n
  {
    var s := Itoa(n);
    if n < 10 {
      assert s[..0] == "";
    } else {
      ValueOfItoa(n / 10);
      assert s[..|s| - 1] == Itoa(n / 10);
    }
  }

  function Zeros(k: nat): string {
    seq(k, i => '0')
  }

  lemma ValueStep(s: string, d: char)
    requires (s == "" || IsDigits(s)) && '0' <= d <= '9'
    ensures IsDigits(s + [d]) && Value(s + [d]) == Value(s) * 10 + (d - '0') as nat
  {
    assert (s + [d])[..|s|] == s;
  }

  lemma ItoaStep(n: nat, digit: nat)
    requires digit < 10
    ensures n > 0 ==> Itoa(n * 10 + digit) == Itoa(n) + [digit as char + '0']
    ensures Itoa(digit) == [digit as char + '0']
  {
    assert (n * 10 + digit) / 10 == n && (n * 10 + digit) % 10 == digit;
  }

  lemma {:induction false} ValueOfPadded(s: string, k: nat, n: nat)
    requires s == Zeros(k) + Itoa(n)
    ensures IsDigits(s) && Value(s) == n
    decreases k
  {
    ValueOfItoa(n);
    if k == 0 {
      assert s == Itoa(n);
    } else {
      ValueOfPadded(s[1..], k - 1, n);
      assert s[1..] == Zeros(k - 1) + Itoa(n);
      LeadingZero(s[1..]);
      assert s == ['0'] + s[1..];
    }
  }

  lemma {:induction false} LeadingZero(s: string)
    requires s == "" || IsDigits(s)
    ensures IsDigits(['0'] + s) && Value(['0'] + s) == Value(s)
  {
    if s == "" {
      assert ['0'] + s == "" + ['0'];
      ValueStep("", '0');
    } else {
      var n := |s| - 1;
      LeadingZero(s[..n]);
      ValueStep(['0'] + s[..n], s[n]);
      assert ['0'] + s == (['0'] + s[..n]) + [s[n]];
    }
  }

  lemma {:induction false} DigitsArePadded(s: string) returns (k: nat)
    requires IsDigits(s)
    ensures s == Zeros(k) + Itoa(Value(s))
    decreases |s|
  {
    var n := |s| - 1;
    var before, digit := s[..n], (s[n] - '0') as nat;
    assert s == before + [s[n]];
    if n == 0 {
      k := 0;
      ItoaStep(0, digit);
    } else {
      var j := DigitsArePadded(before);
      if Value(before) == 0 {
        ZeroAppended(before, s[n], j);
        k := j + 1;
      } else {
        DigitAppended(before, s[n], j);
        k := j;
      }
    }
  }

  lemma ZeroAppended(s: string, d: char, j: nat)
    requires IsDigits(s) && '0' <= d <= '9' && s == Zeros(j) + Itoa(0) && Value(s) == 0
    ensures IsDigits(s + [d]) && s + [d] == Zeros(j + 1) + Itoa(Value(s + [d]))
  {
    ValueStep(s, d);
    ItoaStep(0, (d - '0') as nat);
    ItoaStep(0, 0);
    assert s == Zeros(j + 1);
  }

  lemma Associates(a: string, b: string, c: string)
    ensures a + b + c == a + (b + c)
  {
  }

  lemma DigitAppended(s: string, d: char, j: nat)
    requires IsDigits(s) && '0' <= d <= '9' && s == Zeros(j) + Itoa(Value(s)) && Value(s) > 0
    ensures IsDigits(s + [d]) && s + [d] == Zeros(j) + Itoa(Value(s + [d]))
  {
    ValueStep(s, d);
    ItoaStep(Value(s), (d - '0') as nat);
    Associates(Zeros(j), Itoa(Value(s)), [d]);
  }

  function Magnitude(n: int): nat {
    if n < 0 then -n else n
  }

  /** The spelling of a number: a sign, which zero may have and a positive number need not, zeros, and its digits. */
  ghost predicate Spells(s: string, n: int) {
    exists sign, k :: SpelledAs(s, n, sign, k)
  }

  predicate SpelledAs(s: string, n: int, sign: string, k: nat) {
    s == sign + (Zeros(k) + Itoa(Magnitude(n))) && SignFits(sign, n)
  }

  predicate SignFits(sign: string, n: int) {
    ((sign == "" || sign == "+") && n >= 0) || (sign == "-" && n <= 0)
  }

  lemma AtoiSigned(sign: string, digits: string, n: int)
    requires IsDigits(digits) && SignFits(sign, n) && Value(digits) == Magnitude(n)
    ensures Atoi(sign + digits) == if IsInt64(n) then Some(n) else None
  {
    var s := sign + digits;
    if sign == "" {
      assert s == digits;
    } else {
      assert s[1..] == digits;
    }
  }

  lemma AtoiReads(s: string, n: int, sign: string, k: nat)
    requires SpelledAs(s, n, sign, k) && IsInt64(n)
    ensures Atoi(s) == Some(n)
  {
    var digits := Zeros(k) + Itoa(Magnitude(n));
    ValueOfPadded(digits, k, Magnitude(n));
    AtoiSigned(sign, digits, n);
  }

  lemma AtoiMeans(s: string, n: int)
    requires Atoi(s) == Some(n)
    ensures IsInt64(n) && Spells(s, n)
  {
    var sign := if s[0] == '+' || s[0] == '-' then [s[0]] else "";
    var digits := s[|sign|..];
    assert s == sign + digits;
    assert IsDigits(digits) && Value(digits) == Magnitude(n);
    var k := DigitsArePadded(digits);
    assert SpelledAs(s, n, sign, k);
  }

  /** The parser reads exactly the spellings of the numbers that fit in 64 bits. */
  lemma AtoiIff(s: string, n: int)
    ensures Atoi(s) == Some(n) <==> IsInt64(n) && Spells(s, n)
  {
    if Atoi(s) == Some(n) {
      AtoiMeans(s, n);
    }
    if IsInt64(n) && Spells(s, n) {
      var sign, k :| SpelledAs(s, n, sign, k);
      AtoiReads(s, n, sign, k);
    }
  }

  ghost predicate SpellsInt64(s: string) {
    exists n :: IsInt64(n) && Spells(s, n)
  }

  lemma AtoiReadsIff(s: string)
    ensures Atoi(s).Some? <==> SpellsInt64(s)
  {
    if Atoi(s).Some? {
      AtoiIff(s, Atoi(s).value);
    }
    if n :| IsInt64(n) && Spells(s, n) {
      AtoiIff(s, n);
    }
  }
}
