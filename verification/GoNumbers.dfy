/** strconv.ParseInt and strconv.Atoi, with the value they give beside an error. */
module GoNumbers {
  import opened GoStrings

  /** The value of a digit or letter; letters beyond f are beyond every base used. */
  function AnyDigit(c: char): nat {
    if '0' <= c <= '9' then (c - '0') as nat
    else if 'a' <= c <= 'f' then (c - 'a') as nat + 10
    else if 'A' <= c <= 'F' then (c - 'A') as nat + 10
    else 16
  }

  datatype Scan = Malformed | TooBig | Number(n: nat)

  /** ParseUint from left to right: a number already above max ends the scan, whatever
      characters are left. */
  function ScanFrom(n: nat, s: string, radix: nat, max: nat): Scan
    decreases |s|
  {
    if s == "" then Number(n)
    else
      var d := AnyDigit(s[0]);
      if d >= radix then Malformed
      else if n * radix + d > max then TooBig
      else ScanFrom(n * radix + d, s[1..], radix, max)
  }

  /** ParseInt for a type whose values are from -limit to limit - 1: 0 for a malformed
      number, the nearest value for one that does not fit. */
  function ParseInt(s: string, radix: nat, limit: int): int
    requires limit > 0
  {
    if s == "" then 0
    else
      var signed := s[0] == '+' || s[0] == '-';
      var digits := if signed then s[1..] else s;
      if digits == "" then 0
      else
        match ScanFrom(0, digits, radix, 2 * limit - 1)
        case Malformed => 0
        case TooBig => if s[0] == '-' then -limit else limit - 1
        case Number(n) =>
          if s[0] == '-' then (if n > limit then -limit else -(n as int))
          else if n >= limit then limit - 1
          else n
  }

  const INT32_LIMIT: nat := 0x8000_0000
  const INT64_LIMIT: nat := 0x8000_0000_0000_0000

  function Atoi(s: string): int { ParseInt(s, 10, INT64_LIMIT) }

  lemma {:induction false} ScanSnoc(n: nat, s: string, c: char, radix: nat, max: nat)
    requires ScanFrom(n, s, radix, max).Number?
    ensures ScanFrom(n, s + [c], radix, max)
         == ScanFrom(ScanFrom(n, s, radix, max).n, [c], radix, max)
    decreases |s|
  {
    if s == "" {
      assert s + [c] == [c];
    } else {
      var next := n * radix + AnyDigit(s[0]);
      ScanSnoc(next, s[1..], c, radix, max);
      ScanStep(n, s, radix, max);
      assert (s + [c])[1..] == s[1..] + [c];
      ScanStep(n, s + [c], radix, max);
    }
  }

  lemma ScanStep(n: nat, s: string, radix: nat, max: nat)
    requires s != "" && AnyDigit(s[0]) < radix && n * radix + AnyDigit(s[0]) <= max
    ensures ScanFrom(n, s, radix, max) == ScanFrom(n * radix + AnyDigit(s[0]), s[1..], radix, max)
  {
  }

  lemma {:induction false} ScanItoa(n: nat, max: nat)
    requires n <= max
    ensures ScanFrom(0, Itoa(n), 10, max) == Number(n)
  {
    if n < 10 {
      assert [DigitChar(n)][1..] == "";
    } else {
      ScanItoa(n / 10, max);
      ScanSnoc(0, Itoa(n / 10), DigitChar(n % 10), 10, max);
      assert [DigitChar(n % 10)][1..] == "";
    }
  }

  lemma {:induction false} ScanHex(n: nat, max: nat)
    requires n <= max
    ensures ScanFrom(0, Hex(n), 16, max) == Number(n)
  {
    if n < 16 {
      assert [DigitChar(n)][1..] == "";
    } else {
      ScanHex(n / 16, max);
      ScanSnoc(0, Hex(n / 16), DigitChar(n % 16), 16, max);
      assert [DigitChar(n % 16)][1..] == "";
    }
  }

  /** Decimal and hexadecimal numbers that fit are read back. */
  lemma AtoiItoa(n: nat)
    requires n < INT64_LIMIT
    ensures Atoi(Itoa(n)) == n
  {
    ScanItoa(n, 2 * INT64_LIMIT - 1);
    assert IsDigit(Itoa(n)[0]);
  }

  lemma ParseHex(n: nat)
    requires n < INT32_LIMIT
    ensures ParseInt(Hex(n), 16, INT32_LIMIT) == n
  {
    ScanHex(n, 2 * INT32_LIMIT - 1);
    assert IsHexDigit(Hex(n)[0]);
  }

  lemma {:induction false} TooBigStays(n: nat, s: string, c: char, radix: nat, max: nat)
    requires ScanFrom(n, s, radix, max).TooBig?
    ensures ScanFrom(n, s + [c], radix, max).TooBig?
    decreases |s|
  {
    var next := n * radix + AnyDigit(s[0]);
    assert (s + [c])[1..] == s[1..] + [c];
    if next <= max {
      TooBigStays(next, s[1..], c, radix, max);
    }
  }

  lemma {:induction false} ScanBigItoa(n: nat, max: nat)
    requires n > max
    ensures ScanFrom(0, Itoa(n), 10, max).TooBig?
  {
    if n >= 10 {
      var s, c := Itoa(n / 10), DigitChar(n % 10);
      if n / 10 > max {
        ScanBigItoa(n / 10, max);
        TooBigStays(0, s, c, 10, max);
      } else {
        ScanItoa(n / 10, max);
        ScanSnoc(0, s, c, 10, max);
      }
    }
  }

  /** What Atoi makes of any decimal, with or without a sign: the number, or the nearest
      one of the type; and 0 of a text that does not start like one. */
  lemma AtoiOfAnything(n: nat, c: char, s: string)
    ensures Atoi(Itoa(n)) == if n < INT64_LIMIT then n else INT64_LIMIT - 1
    ensures Atoi("-" + Itoa(n)) == if n <= INT64_LIMIT then -(n as int) else -(INT64_LIMIT as int)
    ensures Atoi("+" + Itoa(n)) == Atoi(Itoa(n))
    ensures c != '+' && c != '-' && !IsDigit(c) ==> Atoi([c] + s) == 0
    ensures Atoi("") == 0
  {
    var max := 2 * INT64_LIMIT - 1;
    var digits := Itoa(n);
    if n <= max {
      ScanItoa(n, max);
    } else {
      ScanBigItoa(n, max);
    }
    assert IsDigit(digits[0]);
    assert ("-" + digits)[1..] == digits && ("+" + digits)[1..] == digits;
    assert ([c] + s)[0] == c;
  }
}
