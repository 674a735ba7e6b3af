/** Decimal notation of natural numbers, as %d prints it and strconv.ParseInt reads it. */
module Decimal {

  predicate IsDigit(c: char) {
    '0' <= c <= '9'
  }

  predicate AllDigits(s: string) {
    forall i :: 0 <= i < |s| ==> IsDigit(s[i])
  }

  function Print(n: nat): (s: string)
    ensures |s| > 0 && AllDigits(s)
  {
    if n < 10 then [('0' as int + n) as char] else Print(n / 10) + [('0' as int + n % 10) as char]
  }

  function Value(s: string): nat
    requires AllDigits(s)
  {
    if s == [] then 0 else 10 * Value(s[..|s| - 1]) + (s[|s| - 1] as int - '0' as int)
  }

  /** Reading a printed number gives the number back. */
  lemma {:induction false} ValueOfPrint(n: nat)
    ensures Value(Print(n)) == n
  {
    if n < 10 {
      assert Print(n)[..0] == [];
    } else {
      ValueOfPrint(n / 10);
      assert Print(n)[..|Print(n)| - 1] == Print(n / 10);
    }
  }

  function TenTo(k: nat): (p: nat)
    ensures p > 0
  {
    if k == 0 then 1 else 10 * TenTo(k - 1)
  }

  /** A printed number has no more digits than its size in powers of ten asks for, and no leading zero. */
  lemma {:induction false} PrintIsShortest(n: nat, k: nat)
    requires k > 0
    ensures |Print(n)| <= k <==> n < TenTo(k)
    ensures Print(n)[0] == '0' ==> n == 0
  {
    if n < 10 {
      assert TenTo(1) == 10 * TenTo(0);
    } else if k == 1 {
      assert TenTo(0) == 1;
      PrintIsShortest(n / 10, 1);
    } else {
      PrintIsShortest(n / 10, k - 1);
    }
  }

  lemma PrintInjective(m: nat, n: nat)
    requires Print(m) == Print(n)
    ensures m == n
  {
    ValueOfPrint(m);
    ValueOfPrint(n);
  }

  // ---------------------------------------------------------------------------------------------------------------
  // strconv.ParseInt(s, 10, 64)
  // ---------------------------------------------------------------------------------------------------------------

  const MAX_INT64 := 0x7fff_ffff_ffff_ffff
  const TWO_TO_THE_63 := 0x8000_0000_0000_0000

  datatype ParsedInt = Int(value: int) | BadSyntax | OutOfRange

  predicate FitsInt64(n: int) {
    -TWO_TO_THE_63 <= n <= MAX_INT64
  }

  /** An optional sign and at least one digit, nothing else, within int64. */
  function ParseInt64(s: string): ParsedInt {
    var negative := s != "" && s[0] == '-';
    var digits := if s != "" && (s[0] == '-' || s[0] == '+') then s[1..] else s;
    if digits == "" || !AllDigits(digits) then BadSyntax
    else
      var n: int := Value(digits);
      if negative then (if n > TWO_TO_THE_63 then OutOfRange else Int(-n))
      else (if n > MAX_INT64 then OutOfRange else Int(n))
  }

  /** A whole number as it is written: a sign, which may be missing, and digits. */
  datatype Numeral = Numeral(sign: string, digits: string)

  predicate Proper(x: Numeral) {
    (x.sign == "" || x.sign == "+" || x.sign == "-") && x.digits != "" && AllDigits(x.digits)
  }

  function Spelled(x: Numeral): string {
    x.sign + x.digits
  }

  function Number(x: Numeral): int
    requires Proper(x)
  {
    var n: int := Value(x.digits);
    if x.sign == "-" then -n else n
  }

  /** A written number is read as that number, or as out of range if int64 does not hold it. */
  lemma ParseSpelled(x: Numeral)
    requires Proper(x)
    ensures ParseInt64(Spelled(x)) == if FitsInt64(Number(x)) then Int(Number(x)) else OutOfRange
  {
    var s := Spelled(x);
    if x.sign == "" {
      assert s == x.digits && IsDigit(s[0]);
    } else {
      assert s[0] == x.sign[0] && s[1..] == x.digits;
    }
  }

  /** And nothing else is read as a number. */
  lemma ParsedIsSpelled(s: string) returns (x: Numeral)
    requires !ParseInt64(s).BadSyntax?
    ensures Proper(x) && s == Spelled(x)
  {
    if s[0] == '-' || s[0] == '+' {
      x := Numeral(s[..1], s[1..]);
      assert s[..1] == [s[0]];
    } else {
      x := Numeral("", s);
    }
  }

  lemma ParsePrinted(n: nat)
    ensures ParseInt64(Print(n)) == if n <= MAX_INT64 then Int(n) else OutOfRange
  {
    ValueOfPrint(n);
    var x := Numeral("", Print(n));
    assert Spelled(x) == Print(n);
    ParseSpelled(x);
  }
}
