/** Decimal rendering of integers and the scanner that reads them back. */
module Decimal {
  import opened Collections

  predicate IsDigit(c: char) {
    '0' <= c <= '9'
  }

  function Digit(d: nat): (c: char)
    requires d < 10
    ensures IsDigit(c) && c as nat - '0' as nat == d
  {
    '0' + d as char
  }

  /** Always at least one digit, and nothing but digits. */
  function Show(n: nat): (s: string)
    ensures s != [] && forall i :: 0 <= i < |s| ==> IsDigit(s[i])
  {
    if n < 10 then [Digit(n)] else Show(n / 10) + [Digit(n % 10)]
  }

  function ShowInt(i: int): string {
    if i < 0 then "-" + Show(-i) else Show(i)
  }

  predicate AllDigits(s: string) {
    forall i :: 0 <= i < |s| ==> IsDigit(s[i])
  }

  function Read(s: string): nat
    requires AllDigits(s)
  {
    if s == [] then 0 else Read(s[..|s| - 1]) * 10 + (s[|s| - 1] as nat - '0' as nat)
  }

  lemma {:induction false} ReadShow(n: nat)
    ensures Read(Show(n)) == n
  {
    if n >= 10 {
      ReadShow(n / 10);
      assert Show(n)[..|Show(n)| - 1] == Show(n / 10);
    } else {
      assert Show(n)[..0] == [];
    }
  }

  lemma ShowIntInjective(i: int, j: int)
    requires ShowInt(i) == ShowInt(j)
    ensures i == j
  {
    ReadShow(if i < 0 then -i else i);
    ReadShow(if j < 0 then -j else j);
    assert i < 0 <==> ShowInt(i)[0] == '-';
    assert j < 0 <==> ShowInt(j)[0] == '-';
    if i < 0 {
      assert ShowInt(i)[1..] == Show(-i) && ShowInt(j)[1..] == Show(-j);
    }
  }

  /** The length of the leading run of digits. */
  function DigitRun(s: string): (n: nat)
    ensures n <= |s| && AllDigits(s[..n]) && (n < |s| ==> !IsDigit(s[n]))
  {
    if s != [] && IsDigit(s[0]) then
      var n := 1 + DigitRun(s[1..]);
      assert s[..n] == [s[0]] + s[1..][..n - 1];
      n
    else 0
  }

  /** Reads an optional sign and at least one digit into 64 bits; what follows is ignored. */
  function ScanInt(s: string): Option<int> {
    var signed := s != [] && (s[0] == '-' || s[0] == '+');
    var t := if signed then s[1..] else s;
    var n := DigitRun(t);
    var digits: int := Read(t[..n]);
    var value := if signed && s[0] == '-' then -digits else digits;
    if n > 0 && -MAX_INT64 - 1 <= value <= MAX_INT64 then Some(value) else None
  }

  lemma {:induction false} RunOfDigits(s: string, rest: string)
    requires AllDigits(s) && (rest != "" ==> !IsDigit(rest[0]))
    ensures DigitRun(s + rest) == |s|
  {
    if s != [] {
      assert (s + rest)[1..] == s[1..] + rest;
      RunOfDigits(s[1..], rest);
    } else {
      assert s + rest == rest;
    }
  }

  lemma DigitsFirst(n: nat, rest: string)
    requires rest != "" ==> !IsDigit(rest[0])
    ensures var t := Show(n) + rest; DigitRun(t) > 0 && Read(t[..DigitRun(t)]) == n && IsDigit(t[0])
  {
    ReadShow(n);
    RunOfDigits(Show(n), rest);
    assert (Show(n) + rest)[..|Show(n)|] == Show(n);
  }

  lemma ScanAfterSign(sign: char, t: string, n: int)
    requires (sign == '-' || sign == '+') && DigitRun(t) > 0 && Read(t[..DigitRun(t)]) == n
    ensures sign == '-' ==> ScanInt([sign] + t) == if n <= MAX_INT64 + 1 then Some(-n) else None
    ensures sign == '+' ==> ScanInt([sign] + t) == if n <= MAX_INT64 then Some(n) else None
  {
    assert ([sign] + t)[1..] == t;
  }

  lemma ScanUnsigned(t: string, n: int)
    requires DigitRun(t) > 0 && Read(t[..DigitRun(t)]) == n && IsDigit(t[0])
    ensures ScanInt(t) == if n <= MAX_INT64 then Some(n) else None
  {
  }

  /** A number is read back whatever its sign and whatever follows it, as far as 64 bits hold
      it; a plus sign changes nothing. */
  lemma ScanSigned(n: int, rest: string)
    requires n >= 0 && (rest != "" ==> !IsDigit(rest[0]))
    ensures ScanInt(Show(n) + rest) == if n <= MAX_INT64 then Some(n) else None
    ensures ScanInt(['+'] + (Show(n) + rest)) == if n <= MAX_INT64 then Some(n) else None
    ensures ScanInt(['-'] + (Show(n) + rest)) == if n <= MAX_INT64 + 1 then Some(-n) else None
  {
    DigitsFirst(n, rest);
    ScanAfterSign('-', Show(n) + rest, n);
    ScanAfterSign('+', Show(n) + rest, n);
    ScanUnsigned(Show(n) + rest, n);
  }

  lemma ScanShow(n: nat)
    ensures ScanInt(Show(n)) == if n <= MAX_INT64 then Some(n) else None
  {
    DigitsFirst(n, "");
    assert Show(n) + "" == Show(n);
    ScanUnsigned(Show(n), n);
  }
}
