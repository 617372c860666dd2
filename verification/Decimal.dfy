/** Decimal numerals: std::to_string, atol and std::stoi. */
module Decimal {

  const INT32: int := 0x8000_0000

  function DigitChar(d: nat): char
    requires d < 10
  {
    '0' + d as char
  }

  predicate IsDigit(c: char) {
    '0' <= c <= '9'
  }

  function Digits(n: nat): (s: string)
    ensures |s| > 0 && forall c <- s :: IsDigit(c)
  {
    if n < 10 then [DigitChar(n)] else Digits(n / 10) + [DigitChar(n % 10)]
  }

  function ToString(n: int): string {
    if n < 0 then "-" + Digits(-n) else Digits(n)
  }

  /** The value of a run of digits. */
  function Value(s: string): nat
    requires forall c <- s :: IsDigit(c)
  {
    if s == "" then 0 else
    assert IsDigit(s[|s| - 1]);
    10 * Value(s[..|s| - 1]) + (s[|s| - 1] - '0') as nat
  }

  lemma {:induction false} ValueOfDigits(n: nat)
    ensures Value(Digits(n)) == n
  {
    if n < 10 {
      assert Digits(n)[..0] == "";
    } else {
      ValueOfDigits(n / 10);
      assert Digits(n)[..|Digits(n)| - 1] == Digits(n / 10);
    }
  }

  /** Numerals have no leading zero. */
  lemma {:induction false} NoLeadingZero(n: nat)
    ensures Digits(n)[0] == '0' <==> n == 0
  {
    if n >= 10 { NoLeadingZero(n / 10); }
  }

  function Pow10(n: nat): nat {
    if n == 0 then 1 else 10 * Pow10(n - 1)
  }

  /** Numerals are decimal, the most significant digit first. */
  lemma {:induction false} ValueOfConcat(a: string, b: string)
    requires (forall c <- a :: '0' <= c <= '9') && (forall c <- b :: '0' <= c <= '9')
    ensures forall c <- a + b :: IsDigit(c)
    ensures Value(a + b) == Value(a) * Pow10(|b|) + Value(b)
    decreases |b|
  {
    if b == "" {
      assert a + b == a;
    } else {
      var init, c := b[..|b| - 1], b[|b| - 1];
      assert c in b && forall d <- init :: d in b;
      assert b == init + [c] && a + b == (a + init) + [c];
      ValueOfConcat(a, init);
      LastDigit(a + init, c);
      LastDigit(init, c);
      Distribute(Value(a), Pow10(|init|), Value(init), c as int - '0' as int);
    }
  }

  lemma Distribute(x: nat, p: nat, y: nat, d: int)
    ensures 10 * (x * p + y) + d == x * (10 * p) + (10 * y + d)
  {
  }

  lemma LastDigit(s: string, c: char)
    requires (forall d <- s :: IsDigit(d)) && IsDigit(c)
    ensures Value(s + [c]) == 10 * Value(s) + (c as int - '0' as int)
    ensures Value([c]) == c as int - '0' as int
  {
    assert (s + [c])[..|s|] == s;
    assert [c][..0] == "";
  }

  /** The digits that s starts with. */
  function LeadingDigits(s: string): (r: string)
    ensures r <= s && forall c <- r :: IsDigit(c)
  {
    if s == "" || !IsDigit(s[0]) then "" else [s[0]] + LeadingDigits(s[1..])
  }

  lemma {:induction false} LeadingDigitsAll(s: string)
    requires forall c <- s :: IsDigit(c)
    ensures LeadingDigits(s) == s
  {
    if s != "" { LeadingDigitsAll(s[1..]); }
  }

  predicate IsSpace(c: char) {
    c == ' ' || '\t' <= c <= '\r'
  }

  /** atol: white space, a sign, digits; anything after them is ignored. */
  function Atol(s: string): int {
    if s == "" then 0
    else if IsSpace(s[0]) then Atol(s[1..])
    else if s[0] == '-' then -(Value(LeadingDigits(s[1..])) as int)
    else if s[0] == '+' then Value(LeadingDigits(s[1..]))
    else Value(LeadingDigits(s))
  }

  lemma AtolOfToString(n: int)
    ensures Atol(ToString(n)) == n
  {
    var digits := Digits(if n < 0 then -n else n);
    LeadingDigitsAll(digits);
    ValueOfDigits(if n < 0 then -n else n);
    if n < 0 {
      assert ToString(n)[1..] == digits;
    } else {
      assert IsDigit(digits[0]);
    }
  }

  lemma {:induction false} LeadingDigitsOf(digits: string, rest: string)
    requires (forall c <- digits :: IsDigit(c)) && (rest == "" || !IsDigit(rest[0]))
    ensures LeadingDigits(digits + rest) == digits
  {
    if digits == "" {
      assert digits + rest == rest;
    } else {
      assert (digits + rest)[1..] == digits[1..] + rest;
      LeadingDigitsOf(digits[1..], rest);
    }
  }

  lemma AtolOfPlain(digits: string, rest: string)
    requires (forall c <- digits :: IsDigit(c)) && (rest == "" || !IsDigit(rest[0]))
    requires digits == "" ==> rest == "" || !(IsSpace(rest[0]) || rest[0] == '-' || rest[0] == '+')
    ensures Atol(digits + rest) == Value(digits)
  {
    var s := digits + rest;
    LeadingDigitsOf(digits, rest);
    if digits != "" {
      assert s[0] == digits[0] && digits[0] in digits;
    } else {
      assert s == rest;
    }
  }

  lemma AtolOfSigned(sign: string, digits: string, rest: string)
    requires sign == "" || sign == "-" || sign == "+"
    requires (forall c <- digits :: IsDigit(c)) && (rest == "" || !IsDigit(rest[0]))
    requires digits == "" && sign == "" ==> rest == "" || !(IsSpace(rest[0]) || rest[0] == '-' || rest[0] == '+')
    ensures Atol(sign + (digits + rest)) == Signed(sign == "-", Value(digits))
  {
    var s := digits + rest;
    if sign == "" {
      assert sign + s == s;
      AtolOfPlain(digits, rest);
    } else {
      LeadingDigitsOf(digits, rest);
      AfterSign(sign, s);
    }
  }

  lemma AfterSign(sign: string, s: string)
    requires sign == "-" || sign == "+"
    ensures Atol(sign + s) == Signed(sign == "-", Value(LeadingDigits(s)))
  {
    assert (sign + s)[0] == sign[0] && (sign + s)[1..] == s;
  }

  function Signed(minus: bool, n: int): int {
    if minus then -n else n
  }

  /** atol on any text: white space is skipped, one sign is heeded, the digits that follow are read, and what is
      behind them does not matter; without digits the number is 0. */
  lemma {:induction false} AtolOfText(space: string, sign: string, digits: string, rest: string)
    requires forall c <- space :: c == ' ' || 9 <= c as int <= 13
    requires sign == "" || sign == "-" || sign == "+"
    requires (forall c <- digits :: '0' <= c <= '9') && (rest == "" || !('0' <= rest[0] <= '9'))
    requires digits == "" && sign == "" ==>
      rest == "" || !(rest[0] == ' ' || 9 <= rest[0] as int <= 13 || rest[0] == '-' || rest[0] == '+')
    ensures forall c <- digits :: IsDigit(c)
    ensures Atol(space + (sign + (digits + rest))) == (if sign == "-" then -1 else 1) * (Value(digits) as int)
  {
    if space == "" {
      assert space + (sign + (digits + rest)) == sign + (digits + rest);
      AtolOfSigned(sign, digits, rest);
    } else {
      SkipSpace(space, sign + (digits + rest));
      assert forall c <- space[1..] :: c in space;
      AtolOfText(space[1..], sign, digits, rest);
    }
  }

  lemma SkipSpace(space: string, s: string)
    requires space != "" && (forall c <- space :: c == ' ' || 9 <= c as int <= 13)
    ensures Atol(space + s) == Atol(space[1..] + s)
  {
    assert space[0] in space;
    assert (space + s)[0] == space[0] && (space + s)[1..] == space[1..] + s;
  }

  /** Narrowing a long to an int keeps the low 32 bits. */
  function Narrow(n: int): (r: int)
    ensures -0x8000_0000 <= r < 0x8000_0000 && (n - r) % 0x1_0000_0000 == 0
    ensures -INT32 <= n < INT32 ==> r == n
  {
    (n + INT32) % (2 * INT32) - INT32
  }
}
