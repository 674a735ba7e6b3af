/** Memory sizes such as 512m, 2g, 1024k or a plain number of bytes, as the sandbox parses them. */
module Sizes {
  import opened Decimal

  datatype SizeError = EmptySize | UnknownSuffix | InvalidSyntax | ValueOutOfRange
  datatype Result = Ok(bytes: int) | Err(error: SizeError)

  function Message(e: SizeError): string {
    match e
    case EmptySize => "empty size"
    case UnknownSuffix => "unknown suffix"
    case InvalidSyntax => "invalid syntax"
    case ValueOutOfRange => "value out of range"
  }

  const TWO_TO_THE_64 := 0x1_0000_0000_0000_0000

  /** The int64 with the low 64 bits of n. */
  function WrapInt64(n: int): int {
    var low := n % TWO_TO_THE_64;
    if low >= TWO_TO_THE_63 then low - TWO_TO_THE_64 else low
  }

  predicate IsSpace(c: char) {
    c == ' ' || ('\t' <= c <= '\r')
  }

  function ToLowerChar(c: char): char {
    if 'A' <= c <= 'Z' then (c as int + 32) as char else c
  }

  function ToLower(s: string): (r: string)
    ensures |r| == |s| && forall i :: 0 <= i < |s| ==> r[i] == ToLowerChar(s[i])
  {
    if s == "" then "" else ToLower(s[..|s| - 1]) + [ToLowerChar(s[|s| - 1])]
  }

  function TrimLeft(s: string): string {
    if s != "" && IsSpace(s[0]) then TrimLeft(s[1..]) else s
  }

  function TrimRight(s: string): string {
    if s != "" && IsSpace(s[|s| - 1]) then TrimRight(s[..|s| - 1]) else s
  }

  function TrimSpace(s: string): string {
    TrimRight(TrimLeft(s))
  }

  /** A size as it is written, blanks and case apart. */
  datatype Size = Size(number: Numeral, unit: Unit)

  datatype Unit = Bytes | Kilo | Mega | Giga

  function UnitSize(u: Unit): nat {
    match u
    case Bytes => 1
    case Kilo => 1024
    case Mega => 1024 * 1024
    case Giga => 1024 * 1024 * 1024
  }

  function LowerSuffix(u: Unit): string {
    match u
    case Bytes => ""
    case Kilo => "k"
    case Mega => "m"
    case Giga => "g"
  }

  /** s writes the size x. */
  ghost predicate Writes(s: string, x: Size) {
    Proper(x.number) && s == Spelled(x.number) + LowerSuffix(x.unit)
  }

  predicate KnownLast(s: string)
    requires s != ""
  {
    var last := s[|s| - 1];
    IsDigit(last) || last == 'k' || last == 'm' || last == 'g'
  }

  /**
   * What parsing a trimmed lower-case text s means. Exactly the written sizes whose number int64 holds are accepted, as
   * the number times the unit in int64 arithmetic; the errors tell the rest apart.
   */
  ghost predicate Means(s: string, r: Result) {
    && (forall x :: Writes(s, x) ==>
          r == if FitsInt64(Number(x.number)) then Ok(WrapInt64(Number(x.number) * UnitSize(x.unit)))
               else Err(ValueOutOfRange))
    && (r.Ok? || r == Err(ValueOutOfRange) ==> exists x :: Writes(s, x))
    && (r == Err(EmptySize) <==> s == "")
    && (r == Err(UnknownSuffix) <==> s != "" && s[|s| - 1] !in "0123456789kmg")
  }

  method ParseBytes(input: string) returns (r: Result)
    ensures Means(TrimSpace(ToLower(input)), r) && r == Parsed(input)
  {
    hide Means, ParseInt64, WrapInt64, ToLower, TrimSpace;
    ghost var core := TrimSpace(ToLower(input));
    ParsedMeans(core);
    var s := TrimSpace(ToLower(input));
    if s == "" {
      return Err(EmptySize);
    }
    var last := s[|s| - 1];
    var mult := 1;
    if last < '0' || last > '9' {
      match last {
        case 'k' => mult := 1024;
        case 'm' => mult := 1024 * 1024;
        case 'g' => mult := 1024 * 1024 * 1024;
        case _ => return Err(UnknownSuffix);
      }
      s := s[..|s| - 1];
    }
    assert mult == UnitSize(UnitOf(last)) && s == core[..|core| - |LowerSuffix(UnitOf(last))|];
    var n := ParseInt64(s);
    match n {
      case BadSyntax => return Err(InvalidSyntax);
      case OutOfRange => return Err(ValueOutOfRange);
      case Int(value) => return Ok(WrapInt64(value * mult));
    }
  }

  function Parsed(input: string): Result {
    ParsedTrimmed(TrimSpace(ToLower(input)))
  }

  function ParsedTrimmed(s: string): Result {
    if s == "" then Err(EmptySize)
    else if !KnownLast(s) then Err(UnknownSuffix)
    else
      var u := UnitOf(s[|s| - 1]);
      Scaled(ParseInt64(s[..|s| - |LowerSuffix(u)|]), UnitSize(u))
  }

  function UnitOf(last: char): Unit {
    if last == 'k' then Kilo else if last == 'm' then Mega else if last == 'g' then Giga else Bytes
  }

  function Scaled(n: ParsedInt, mult: int): Result {
    match n
    case BadSyntax => Err(InvalidSyntax)
    case OutOfRange => Err(ValueOutOfRange)
    case Int(value) => Ok(WrapInt64(value * mult))
  }

  /** A written size is read as its number, scaled. */
  lemma ParsedWritten(s: string, x: Size)
    requires Writes(s, x)
    ensures s != "" && KnownLast(s) && ParsedTrimmed(s) == Scaled(ParseInt64(Spelled(x.number)), UnitSize(x.unit))
  {
    hide ParseInt64, Value;
    var n := Spelled(x.number);
    assert n[|n| - 1] == x.number.digits[|x.number.digits| - 1];
    if x.unit.Bytes? {
      assert s == n;
    } else {
      assert s[|s| - 1] == LowerSuffix(x.unit)[0] && s[..|s| - 1] == n;
    }
  }

  /** And nothing else is. */
  lemma ParsedIsWritten(s: string) returns (x: Size)
    requires ParsedTrimmed(s).Ok? || ParsedTrimmed(s) == Err(ValueOutOfRange)
    ensures Writes(s, x)
  {
    hide ParseInt64, Value, WrapInt64;
    var u := UnitOf(s[|s| - 1]);
    var front := s[..|s| - |LowerSuffix(u)|];
    var n := ParsedIsSpelled(front);
    x := Size(n, u);
    assert s == front + LowerSuffix(u);
  }

  lemma LastCharacter(c: char)
    ensures IsDigit(c) || c == 'k' || c == 'm' || c == 'g' <==> c in "0123456789kmg"
  {
    var known := "0123456789kmg";
    assert known[0] == '0' && known[1] == '1' && known[2] == '2' && known[3] == '3' && known[4] == '4';
    assert known[5] == '5' && known[6] == '6' && known[7] == '7' && known[8] == '8' && known[9] == '9';
    assert known[10] == 'k' && known[11] == 'm' && known[12] == 'g';
  }

  lemma ParsedMeans(s: string)
    ensures Means(s, ParsedTrimmed(s))
  {
    hide ParseInt64, Value, WrapInt64;
    var r := ParsedTrimmed(s);
    if s != "" {
      LastCharacter(s[|s| - 1]);
    }
    forall x | Writes(s, x)
      ensures r == if FitsInt64(Number(x.number)) then Ok(WrapInt64(Number(x.number) * UnitSize(x.unit)))
                   else Err(ValueOutOfRange)
    {
      ParsedWritten(s, x);
      ParseSpelled(x.number);
    }
    if r.Ok? || r == Err(ValueOutOfRange) {
      var x := ParsedIsWritten(s);
    }
  }

  // ---------------------------------------------------------------------------------------------------------------
  // Reading back a printed size
  // ---------------------------------------------------------------------------------------------------------------

  function Suffix(u: Unit, upper: bool): string {
    match u
    case Bytes => ""
    case Kilo => if upper then "K" else "k"
    case Mega => if upper then "M" else "m"
    case Giga => if upper then "G" else "g"
  }

  predicate Blank(s: string) {
    forall i :: 0 <= i < |s| ==> IsSpace(s[i])
  }

  predicate Tight(s: string) {
    s != "" && !IsSpace(s[0]) && !IsSpace(s[|s| - 1])
  }

  lemma {:induction false} TrimLeftPadded(pad: string, s: string, rest: string)
    requires Blank(pad) && s != "" && !IsSpace(s[0])
    ensures TrimLeft(pad + s + rest) == s + rest
    decreases |pad|
  {
    var whole := pad + s + rest;
    if pad == "" {
      assert whole == s + rest;
      assert whole[0] == s[0];
    } else {
      assert whole[0] == pad[0] && whole[1..] == pad[1..] + s + rest;
      TrimLeftPadded(pad[1..], s, rest);
    }
  }

  lemma {:induction false} TrimRightPadded(s: string, pad: string)
    requires Blank(pad) && s != "" && !IsSpace(s[|s| - 1])
    ensures TrimRight(s + pad) == s
    decreases |pad|
  {
    var whole := s + pad;
    if pad == "" {
      assert whole == s;
    } else {
      assert whole[|whole| - 1] == pad[|pad| - 1] && whole[..|whole| - 1] == s + pad[..|pad| - 1];
      TrimRightPadded(s, pad[..|pad| - 1]);
    }
  }

  lemma {:induction false} TrimLeftSplits(s: string) returns (pad: string)
    ensures s == pad + TrimLeft(s) && Blank(pad) && (TrimLeft(s) != "" ==> !IsSpace(TrimLeft(s)[0]))
  {
    if s != "" && IsSpace(s[0]) {
      var rest := TrimLeftSplits(s[1..]);
      pad := [s[0]] + rest;
      assert s == [s[0]] + s[1..];
    } else {
      pad := "";
    }
  }

  lemma {:induction false} TrimRightSplits(s: string) returns (pad: string)
    ensures s == TrimRight(s) + pad && Blank(pad)
    ensures TrimRight(s) != "" ==> !IsSpace(TrimRight(s)[|TrimRight(s)| - 1])
    decreases |s|
  {
    if s != "" && IsSpace(s[|s| - 1]) {
      var rest := TrimRightSplits(s[..|s| - 1]);
      pad := rest + [s[|s| - 1]];
      assert s == s[..|s| - 1] + [s[|s| - 1]];
    } else {
      pad := "";
    }
  }

  /** Trimming takes exactly the blanks around a text that begins and ends with something else, or all of it. */
  lemma TrimSpaceSplits(s: string) returns (left: string, right: string)
    ensures s == left + TrimSpace(s) + right && Blank(left) && Blank(right)
    ensures TrimSpace(s) == "" || Tight(TrimSpace(s))
  {
    left := TrimLeftSplits(s);
    right := TrimRightSplits(TrimLeft(s));
    if TrimSpace(s) != "" {
      assert TrimSpace(s)[0] == TrimLeft(s)[0];
    }
  }

  lemma TrimPadded(left: string, s: string, right: string)
    requires Blank(left) && Blank(right) && Tight(s)
    ensures TrimSpace(left + s + right) == s
  {
    TrimLeftPadded(left, s, right);
    TrimRightPadded(s, right);
  }

  lemma LowerPadded(left: string, s: string, right: string)
    requires Blank(left) && Blank(right)
    ensures ToLower(left + s + right) == left + ToLower(s) + right
  {
    var whole := left + s + right;
    forall i | 0 <= i < |whole|
      ensures ToLower(whole)[i] == (left + ToLower(s) + right)[i]
    {
      if i < |left| {
        assert whole[i] == left[i];
      } else if i < |left| + |s| {
        assert whole[i] == s[i - |left|];
      } else {
        assert whole[i] == right[i - |left| - |s|];
      }
    }
  }

  lemma {:induction false} LowerDigits(s: string)
    requires AllDigits(s)
    ensures ToLower(s) == s
  {
    assert forall i :: 0 <= i < |s| ==> IsDigit(s[i]);
  }

  lemma LowerConcat(s: string, t: string)
    ensures ToLower(s + t) == ToLower(s) + ToLower(t)
  {
    forall i | 0 <= i < |s| + |t|
      ensures ToLower(s + t)[i] == (ToLower(s) + ToLower(t))[i]
    {
    }
  }

  lemma LowerSuffixes(u: Unit, upper: bool)
    ensures ToLower(Suffix(u, upper)) == LowerSuffix(u)
  {
    assert |ToLower(Suffix(u, upper))| == |LowerSuffix(u)|;
  }

  lemma PrintedIsTight(n: nat, u: Unit)
    ensures Tight(Print(n) + LowerSuffix(u))
  {
    hide Print;
    var low := Print(n) + LowerSuffix(u);
    assert low[0] == Print(n)[0] && IsDigit(low[0]);
    assert u.Bytes? ==> low[|low| - 1] == Print(n)[|Print(n)| - 1] && IsDigit(low[|low| - 1]);
  }

  /**
   * Reading back a printed size, in either case and with blanks around it, returns n times the unit exactly when that
   * product fits an int64. A number that does not fit is an error; a product that does not fit wraps without one.
   */
  lemma ParsedPrinted(left: string, n: nat, u: Unit, upper: bool, right: string)
    requires Blank(left) && Blank(right)
    ensures var r := Parsed(left + (Print(n) + Suffix(u, upper)) + right);
      && (r == Ok(n * UnitSize(u)) <==> n * UnitSize(u) < 0x8000_0000_0000_0000)
      && (r.Err? <==> n >= 0x8000_0000_0000_0000)
      && (r.Ok? ==> r.bytes == WrapInt64(n * UnitSize(u)))
  {
    hide Print, ParseInt64, ToLower, TrimSpace, ParsedTrimmed, Suffix, WrapInt64;
    var s := Print(n) + LowerSuffix(u);
    LowerPadded(left, Print(n) + Suffix(u, upper), right);
    LowerConcat(Print(n), Suffix(u, upper));
    LowerDigits(Print(n));
    LowerSuffixes(u, upper);
    PrintedIsTight(n, u);
    TrimPadded(left, s, right);
    assert Spelled(Numeral("", Print(n))) == Print(n);
    ParsedWritten(s, Size(Numeral("", Print(n)), u));
    ParsePrinted(n);
    WrapExactly(n * UnitSize(u));
    AtLeastFactor(n, u);
  }

  lemma WrapExactly(n: nat)
    ensures WrapInt64(n) == n <==> n < TWO_TO_THE_63
  {
  }

  lemma AtLeastFactor(n: nat, u: Unit)
    ensures n * UnitSize(u) >= n
  {
  }

  /** The int64 that results is the one congruent to the product modulo 2^64. */
  lemma WrapIsCongruent(n: int)
    ensures -0x8000_0000_0000_0000 <= WrapInt64(n) < 0x8000_0000_0000_0000
    ensures (WrapInt64(n) - n) % 0x1_0000_0000_0000_0000 == 0
  {
    var q := n / TWO_TO_THE_64;
    assert n == TWO_TO_THE_64 * q + n % TWO_TO_THE_64;
  }

  function NextUnit(u: Unit): Unit
    requires !u.Giga?
  {
    match u
    case Bytes => Kilo
    case Kilo => Mega
    case Mega => Giga
  }

  /** 1024 of a unit are one of the next: both ways of writing the size are read alike, as long as both numbers fit. */
  lemma UnitsNest(n: nat, u: Unit)
    requires !u.Giga? && 1024 * n <= MAX_INT64
    ensures Parsed(Print(1024 * n) + Suffix(u, false)) == Parsed(Print(n) + Suffix(NextUnit(u), false))
  {
    hide Print, ParseInt64, ToLower, TrimSpace, ParsedTrimmed, Suffix, WrapInt64;
    ParsedPlain(1024 * n, u);
    ParsedPlain(n, NextUnit(u));
    assert 1024 * n * UnitSize(u) == n * UnitSize(NextUnit(u));
  }

  lemma ParsedPlain(n: nat, u: Unit)
    requires n <= MAX_INT64
    ensures Parsed(Print(n) + Suffix(u, false)) == Ok(WrapInt64(n * UnitSize(u)))
  {
    hide Print, ParseInt64, ToLower, TrimSpace, ParsedTrimmed, Suffix, WrapInt64;
    ParsedPrinted("", n, u, false, "");
    assert "" + (Print(n) + Suffix(u, false)) + "" == Print(n) + Suffix(u, false);
  }

  /** Blanks are the six ASCII characters of white space. */
  lemma SpaceIsAsciiSpace(c: char)
    ensures IsSpace(c) <==> c as int in [9, 10, 11, 12, 13, 32]
  {
  }
}
