/** Decimal numbers as `strconv` writes and reads them. */
module Numbers {
  import opened Protocol

  function Digit(d: nat): char
    requires d < 10
  {
    '0' + d as char
  }

  function Digits(n: nat): string {
    if n < 10 then [Digit(n)] else Digits(n / 10) + [Digit(n % 10)]
  }

  function Decimal(n: int): string {
    if n < 0 then "-" + Digits(-n) else Digits(n)
  }

  function Power10(k: nat): nat {
    if k == 0 then 1 else 10 * Power10(k - 1)
  }

  lemma {:induction false} DigitsFit(n: nat, k: nat)
    requires k > 0 && n < Power10(k)
    ensures |Digits(n)| <= k
  {
    if n >= 10 {
      assert k > 1;
      DigitsFit(n / 10, k - 1);
    }
  }

  predicate Int64(n: int) {
    -0x8000_0000_0000_0000 <= n < 0x8000_0000_0000_0000
  }

  lemma DecimalFits(n: int)
    requires Int64(n)
    ensures |Decimal(n)| <= 20
  {
    assert Power10(7) == 10_000_000;
    assert Power10(13) == 1_000_000 * Power10(7);
    assert Power10(19) == 1_000_000 * Power10(13);
    DigitsFit(if n < 0 then -n else n, 19);
  }

  predicate IsDigit(c: char) {
    '0' <= c <= '9'
  }

  function Unsigned(s: string): Option<nat> {
    if s == "" || !IsDigit(s[|s| - 1]) then None
    else
      var d := s[|s| - 1] as int - '0' as int;
      if |s| == 1 then Some(d)
      else match Unsigned(s[..|s| - 1])
        case None => None
        case Some(n) => Some(10 * n + d)
  }

  /** An optional sign, then digits only, and a value of 64 bits. */
  function Atoi(s: string): Option<int> {
    var signed := s != "" && (s[0] == '-' || s[0] == '+');
    match Unsigned(if signed then s[1..] else s)
    case None => None
    case Some(n) =>
      var v: int := if signed && s[0] == '-' then 0 - n as int else n;
      if Int64(v) then Some(v) else None
  }

  lemma {:induction false} UnsignedReadsDigits(n: nat)
    ensures Unsigned(Digits(n)) == Some(n)
    ensures Digits(n) != "" && forall c <- Digits(n) :: IsDigit(c)
  {
    if n >= 10 {
      UnsignedReadsDigits(n / 10);
      assert Digits(n)[..|Digits(n)| - 1] == Digits(n / 10);
    }
  }

  lemma AtoiReadsDecimal(n: int)
    requires Int64(n)
    ensures Atoi(Decimal(n)) == Some(n)
    ensures Decimal(n) != "" && forall c <- Decimal(n) :: IsDigit(c) || c == '-'
  {
    var m := if n < 0 then -n else n;
    UnsignedReadsDigits(m);
    assert ("-" + Digits(m))[1..] == Digits(m);
    assert IsDigit(Digits(m)[0]);
  }

  lemma {:induction false} UnsignedExactly(s: string)
    ensures Unsigned(s).Some? <==> s != "" && forall c <- s :: IsDigit(c)
  {
    if s != "" {
      var t := s[..|s| - 1];
      assert s == t + [s[|s| - 1]];
      assert s[|s| - 1] in s && forall c <- t :: c in s;
      if t != "" {
        UnsignedExactly(t);
      }
    }
  }

  /** Digits are read in order, the last one for the units. */
  lemma UnsignedAppends(s: string, c: char)
    requires Unsigned(s).Some? && IsDigit(c)
    ensures Unsigned(s + [c]) == Some(10 * Unsigned(s).value + (c as int - '0' as int))
  {
    assert (s + [c])[..|s|] == s;
  }

  /** What is read as a number: digits with at most one sign before them, and a value of 64 bits. */
  lemma AtoiExactly(digits: string)
    requires forall c <- digits :: IsDigit(c)
    ensures digits == "" ==> Atoi(digits).None? && Atoi("+" + digits).None? && Atoi("-" + digits).None?
    ensures digits != "" ==>
              && Unsigned(digits).Some?
              && var n := Unsigned(digits).value;
                 && Atoi(digits) == Atoi("+" + digits) == (if n <= 0x7FFF_FFFF_FFFF_FFFF then Some(n) else None)
                 && Atoi("-" + digits) == (if n <= 0x8000_0000_0000_0000 then Some(0 - n as int) else None)
  {
    UnsignedExactly(digits);
    assert ("+" + digits)[1..] == digits && ("-" + digits)[1..] == digits;
    if digits != "" {
      assert digits[0] in digits;
    }
  }

  /** Nothing else is. */
  lemma AtoiNeedsDigits(s: string)
    ensures Atoi(s).Some? ==> s != "" && Int64(Atoi(s).value)
    ensures Atoi(s).Some? ==>
              (forall c <- s :: IsDigit(c)) || ((s[0] == '+' || s[0] == '-') && |s| > 1 && forall c <- s[1..] :: IsDigit(c))
  {
    UnsignedExactly(s);
    if s != "" {
      UnsignedExactly(s[1..]);
    }
  }
}
