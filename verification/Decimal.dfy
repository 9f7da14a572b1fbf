/**
 Decimal numbers as Go prints and parses them.
 */
module Decimal {
  import opened Basics

  const MAX_UINT64: nat := 0xFFFF_FFFF_FFFF_FFFF

  predicate IsDigit(c: char) {
    '0' <= c <= '9'
  }

  predicate AllDigits(s: string) {
    forall i :: 0 <= i < |s| ==> IsDigit(s[i])
  }

  function Digit(n: nat): (c: char)
    requires n < 10
    ensures IsDigit(c) && c as int - '0' as int == n
  {
    (n + '0' as int) as char
  }

  /** The decimal text of a number. */
  function Dec(n: nat): (s: string)
    ensures |s| > 0 && AllDigits(s)
  {
    if n < 10 then [Digit(n)] else Dec(n / 10) + [Digit(n % 10)]
  }

  function NumberOf(s: string): nat
    requires AllDigits(s)
  {
    if s == [] then 0 else 10 * NumberOf(s[..|s| - 1]) + (s[|s| - 1] as int - '0' as int)
  }

  lemma {:induction false} NumberOfDec(n: nat)
    ensures NumberOf(Dec(n)) == n
  {
    var s := Dec(n);
    if n >= 10 {
      NumberOfDec(n / 10);
      assert s[..|s| - 1] == Dec(n / 10);
    } else {
      assert s[..|s| - 1] == [];
    }
  }

  lemma DecInjective(m: nat, n: nat)
    requires Dec(m) == Dec(n)
    ensures m == n
  {
    NumberOfDec(m);
    NumberOfDec(n);
  }

  /** `strconv.ParseUint(s, 10, 64)`: digits only, at least one, no overflow. */
  function ParseUint64(s: string): Result<nat> {
    if s == "" || !AllDigits(s) then Err(Rejected("invalid syntax"))
    else if NumberOf(s) > MAX_UINT64 then Err(Rejected("value out of range"))
    else Ok(NumberOf(s))
  }

  /** Parsing inverts printing for the values of an unsigned 64-bit integer, and rejects
      the decimal text of every other number. */
  lemma ParseInvertsDec(n: nat)
    ensures ParseUint64(Dec(n)).Ok? <==> n <= MAX_UINT64
    ensures n <= MAX_UINT64 ==> ParseUint64(Dec(n)) == Ok(n)
  {
    NumberOfDec(n);
  }

  /** `strconv.ParseInt(s, 10, 32)`: an optional sign in front of digits. */
  function ParseInt32(s: string): Result<int> {
    var neg := s != "" && s[0] == '-';
    var digits := if s != "" && (s[0] == '-' || s[0] == '+') then s[1..] else s;
    if digits == "" || !AllDigits(digits) then Err(Rejected("invalid syntax"))
    else if NumberOf(digits) > 0x8000_0000 || (!neg && NumberOf(digits) == 0x8000_0000) then
      Err(Rejected("value out of range"))
    else Ok(if neg then 0 - NumberOf(digits) else NumberOf(digits))
  }

  // ---- Which texts are numbers ------------------------------------------------

  function ZeroText(k: nat): (s: string)
    ensures |s| == k && AllDigits(s)
  {
    seq(k, _ => '0')
  }

  lemma {:induction false} LeadingZeros(k: nat, s: string)
    requires AllDigits(s)
    ensures AllDigits(ZeroText(k) + s) && NumberOf(ZeroText(k) + s) == NumberOf(s)
    decreases k + |s|
  {
    var t := ZeroText(k) + s;
    if s != "" {
      LeadingZeros(k, s[..|s| - 1]);
      assert t[..|t| - 1] == ZeroText(k) + s[..|s| - 1];
    } else if k > 0 {
      LeadingZeros(k - 1, s);
      assert t[..k - 1] == ZeroText(k - 1) + s;
    }
  }

  /** Digits without a zero in front are the decimal text of their number. */
  lemma {:induction false} DecUnique(s: string)
    requires AllDigits(s) && s != "" && (s[0] != '0' || |s| == 1)
    ensures Dec(NumberOf(s)) == s
  {
    var (init, d) := (s[..|s| - 1], s[|s| - 1] as int - '0' as int);
    if |s| == 1 {
      assert NumberOf(init) == 0;
      assert s == [Digit(d)];
    } else {
      DecUnique(init);
      assert Dec(0)[0] == '0' && init[0] == s[0];
      assert NumberOf(init) > 0;
      assert NumberOf(s) / 10 == NumberOf(init) && NumberOf(s) % 10 == d;
      assert s == init + [Digit(d)];
    }
  }

  /** Any digits are zeros in front of a decimal text. */
  lemma {:induction false} ZerosInFront(s: string) returns (k: nat)
    requires AllDigits(s) && s != ""
    ensures s == ZeroText(k) + Dec(NumberOf(s))
  {
    if s[0] == '0' && |s| > 1 {
      var j := ZerosInFront(s[1..]);
      k := j + 1;
      assert s == ZeroText(1) + s[1..];
      LeadingZeros(1, s[1..]);
      assert ZeroText(k) == ZeroText(1) + ZeroText(j);
    } else {
      k := 0;
      DecUnique(s);
      assert ZeroText(0) + s == s;
    }
  }

  /** Exactly the decimal texts of the unsigned 64-bit integers, with any zeros in front, are
      parsed, each as its number. */
  lemma ParseUint64Iff(s: string, n: nat)
    ensures ParseUint64(s) == Ok(n) <==> n <= MAX_UINT64 && exists k: nat :: s == ZeroText(k) + Dec(n)
  {
    if ParseUint64(s) == Ok(n) {
      var k := ZerosInFront(s);
    }
    if k: nat :| s == ZeroText(k) + Dec(n) {
      LeadingZeros(k, Dec(n));
      NumberOfDec(n);
    }
  }

  datatype Sign = Bare | Plus | Minus

  /** A number as it can be written in front of a kstat file. */
  datatype IntText = IntText(sign: Sign, zeros: nat, mag: nat)

  function SignText(s: Sign): string {
    match s case Bare => "" case Plus => "+" case Minus => "-"
  }

  function PrintInt(t: IntText): string {
    SignText(t.sign) + (ZeroText(t.zeros) + Dec(t.mag))
  }

  function IntOf(t: IntText): int {
    if t.sign == Minus then 0 - t.mag else t.mag
  }

  /** Every way to write a number is parsed as that number if it is one of 32 bits, and is an
      error otherwise. */
  lemma ParseInt32OfPrint(t: IntText)
    ensures ParseInt32(PrintInt(t)).Ok? <==> -0x8000_0000 <= IntOf(t) <= 0x7FFF_FFFF
    ensures ParseInt32(PrintInt(t)).Ok? ==> ParseInt32(PrintInt(t)) == Ok(IntOf(t))
  {
    hide Dec, NumberOf;
    var (s, digits) := (PrintInt(t), ZeroText(t.zeros) + Dec(t.mag));
    LeadingZeros(t.zeros, Dec(t.mag));
    NumberOfDec(t.mag);
    assert IsDigit(digits[0]);
    match t.sign
    case Bare => assert s == digits;
    case Plus => assert s[0] == '+' && s[1..] == digits;
    case Minus => assert s[0] == '-' && s[1..] == digits;
  }

  /** No other text is parsed. */
  lemma ParsedIsPrinted(s: string) returns (t: IntText)
    requires ParseInt32(s).Ok?
    ensures s == PrintInt(t) && IntOf(t) == ParseInt32(s).value
  {
    hide Dec, NumberOf;
    var sign := if s[0] == '-' then Minus else if s[0] == '+' then Plus else Bare;
    var digits := if sign == Bare then s else s[1..];
    var k := ZerosInFront(digits);
    t := IntText(sign, k, NumberOf(digits));
    assert s == SignText(sign) + digits;
  }

  /** The plain decimal texts of the 32-bit integers. */
  lemma ParseInt32OfDec(n: nat)
    ensures ParseInt32(Dec(n)) == Ok(n) <==> n <= 0x7FFF_FFFF
    ensures ParseInt32("+" + Dec(n)) == Ok(n) <==> n <= 0x7FFF_FFFF
    ensures ParseInt32("-" + Dec(n)) == Ok(0 - n) <==> n <= 0x8000_0000
  {
    hide Dec, NumberOf, ParseInt32;
    assert ZeroText(0) + Dec(n) == Dec(n) && "" + Dec(n) == Dec(n);
    ParseInt32OfPrint(IntText(Bare, 0, n));
    ParseInt32OfPrint(IntText(Plus, 0, n));
    ParseInt32OfPrint(IntText(Minus, 0, n));
  }

  /** The text of a number consists of digits behind a sign. */
  lemma PrintIntChars(t: IntText)
    ensures forall i :: 0 <= i < |PrintInt(t)| ==> '+' <= PrintInt(t)[i] <= '9'
  {
    hide Dec;
    var (s, a, b) := (PrintInt(t), SignText(t.sign), ZeroText(t.zeros) + Dec(t.mag));
    forall i | 0 <= i < |s| ensures '+' <= s[i] <= '9' {
      assert s[i] == if i < |a| then a[i] else b[i - |a|];
      assert i >= |a| ==> IsDigit(b[i - |a|]);
    }
  }
}
