/** Numbers in `.reg` files: a DWord is eight hex digits, most significant first; a QWord is eight bytes, least
    significant first. Both are two's complement. */
module RegNumbers {
  import opened Wrappers
  import opened Utf16
  import opened Sequences
  import opened HexComma

  type Int32 = n: int | -0x8000_0000 <= n < 0x8000_0000
  type Int64 = n: int | -0x8000_0000_0000_0000 <= n < 0x8000_0000_0000_0000

  const TWO32 := 0x1_0000_0000
  const TWO64 := 0x1_0000_0000_0000_0000

  function Power(base: nat, exponent: nat): nat {
    if exponent == 0 then 1 else base * Power(base, exponent - 1)
  }

  /** The last `count` hex digits of `n`. */
  function Digits(n: nat, count: nat): (s: Text)
    ensures |s| == count
    ensures forall i :: 0 <= i < count ==> DigitValue(s[i]).Some?
  {
    if count == 0 then [] else Digits(n / 16, count - 1) + [Digit(n % 16)]
  }

  function NumberOf(s: Text): Option<nat> {
    if s == [] then
      Some(0)
    else
      match (NumberOf(s[..|s| - 1]), DigitValue(s[|s| - 1]))
      case (Some(high), Some(low)) => Some(16 * high + low)
      case _ => None
  }

  lemma {:induction false} NumberOfDigits(n: nat, count: nat)
    requires n < Power(16, count)
    ensures NumberOf(Digits(n, count)) == Some(n)
  {
    if count > 0 {
      NumberOfDigits(n / 16, count - 1);
      assert Digits(n, count)[..count - 1] == Digits(n / 16, count - 1);
    }
  }

  /** `string.Format("{0:x8}", n)` on a boxed `int` */
  function PrintDWord(n: Int32): Text {
    Digits(n % TWO32, 8)
  }

  /** `int.Parse(s, NumberStyles.HexNumber)` */
  function ParseDWord(s: Text): Result<Int32> {
    var digits := Trim(s, NUMBER_SPACE);
    match if digits == [] then None else NumberOf(digits)
    case None => Throws(FormatError)
    case Some(u) =>
      if u >= TWO32 then Throws(Overflow) else Ok(if u >= TWO32 / 2 then u - TWO32 else u)
  }

  lemma DWordRoundTrip(n: Int32)
    ensures ParseDWord(PrintDWord(n)) == Ok(n)
  {
    EightDigits();
    NumberOfDigits(n % TWO32, 8);
    TrimDigits(PrintDWord(n));
  }

  lemma EightDigits()
    ensures Power(16, 8) == TWO32
  {
    assert Power(16, 4) == 0x1_0000;
  }

  lemma TrimDigits(s: Text)
    requires s != [] && DigitValue(s[0]).Some? && DigitValue(s[|s| - 1]).Some?
    ensures Trim(s, NUMBER_SPACE) == s
  {
    assert TrimStart(s, NUMBER_SPACE) == s;
  }

  /** The white space allowed around a number. */
  const NUMBER_SPACE: set<Unit> := {9, 10, 11, 12, 13, 32}

  /** The `count` low bytes of `n`, lowest first. */
  function Bytes(n: nat, count: nat): (b: seq<Byte>)
    ensures |b| == count
  {
    if count == 0 then [] else [n % 0x100] + Bytes(n / 0x100, count - 1)
  }

  function NumberOfBytes(b: seq<Byte>): nat {
    if b == [] then 0 else var low: nat := b[0]; low + 0x100 * NumberOfBytes(b[1..])
  }

  lemma {:induction false} NumberOfBytesBound(b: seq<Byte>)
    ensures NumberOfBytes(b) < Power(0x100, |b|)
  {
    if b != [] {
      NumberOfBytesBound(b[1..]);
    }
  }

  lemma {:induction false} BytesRoundTrip(n: nat, count: nat)
    requires n < Power(0x100, count)
    ensures NumberOfBytes(Bytes(n, count)) == n
  {
    if count > 0 {
      BytesRoundTrip(n / 0x100, count - 1);
      assert Bytes(n, count)[1..] == Bytes(n / 0x100, count - 1);
    }
  }

  lemma EightBytes()
    ensures Power(0x100, 8) == TWO64
  {
    assert Power(0x100, 4) == TWO32;
  }

  /** `BitConverter.GetBytes(long)` */
  function QWordBytes(n: Int64): seq<Byte> {
    Bytes(n % TWO64, 8)
  }

  /** `BitConverter.ToInt64(b, 0)` */
  function QWordOf(b: seq<Byte>): Result<Int64> {
    if |b| < 8 then
      Throws(ArgumentError)
    else
      EightBytes();
      NumberOfBytesBound(b[..8]);
      var u := NumberOfBytes(b[..8]);
      Ok(if u >= TWO64 / 2 then u - TWO64 else u)
  }

  lemma QWordRoundTrip(n: Int64)
    ensures QWordOf(QWordBytes(n)) == Ok(n)
  {
    EightBytes();
    BytesRoundTrip(n % TWO64, 8);
    assert QWordBytes(n)[..8] == QWordBytes(n);
  }
}
