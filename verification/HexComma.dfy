/** Byte arrays as comma-separated hex pairs: `RegFileHelper` in PackageEditor/RegFile.cs. */
module HexComma {
  import opened Wrappers
  import opened Utf16

  const COMMA: Unit := ',' as int

  /** The lower-case hex digit of `n`. */
  function Digit(n: nat): Unit
    requires n < 16
  {
    if n < 10 then '0' as int + n else 'a' as int + (n - 10)
  }

  function DigitValue(u: Unit): Option<nat> {
    if '0' as int <= u <= '9' as int then Some(u - '0' as int)
    else if 'a' as int <= u <= 'f' as int then Some(u - 'a' as int + 10)
    else if 'A' as int <= u <= 'F' as int then Some(u - 'A' as int + 10)
    else None
  }

  /** `string.Format("{0:x2}", b)` */
  function Pair(b: Byte): Text {
    [Digit(b / 16), Digit(b % 16)]
  }

  /** `Convert.ToByte(pair, 16)` on a two-character string. */
  function ByteOfPair(high: Unit, low: Unit): (r: Option<Byte>)
    ensures r.Some? ==> high != COMMA && low != COMMA
  {
    match (DigitValue(high), DigitValue(low))
    case (Some(h), Some(l)) => Some(16 * h + l)
    case _ => None
  }

  /** The pairs of `bytes`, a comma between any two. */
  function Hex(bytes: seq<Byte>): Text {
    if bytes == [] then []
    else if |bytes| == 1 then Pair(bytes[0])
    else Pair(bytes[0]) + [COMMA] + Hex(bytes[1..])
  }

  /** What the reader makes of any text: the pairs at positions 0, 3, 6, ..., whatever stands between them. */
  function Unhex(s: Text): Option<seq<Byte>>
    decreases |s|
  {
    if |s| < 2 then
      Some([])
    else
      var b := ByteOfPair(s[0], s[1]);
      if b.None? then None else Prepend([b.value], Unhex(From(s, 3)))
  }

  function Prepend(bytes: seq<Byte>, rest: Option<seq<Byte>>): Option<seq<Byte>> {
    if rest.None? then None else Some(bytes + rest.value)
  }

  /** The text from position `n` on, empty when there is none. */
  function From(s: Text, n: nat): Text {
    if n <= |s| then s[n..] else []
  }

  lemma PairReadsBack(b: Byte)
    ensures ByteOfPair(Pair(b)[0], Pair(b)[1]) == Some(b)
  {
  }

  lemma {:induction false} HexShape(bytes: seq<Byte>)
    ensures |Hex(bytes)| == if bytes == [] then 0 else 3 * |bytes| - 1
    ensures forall i :: 0 <= i < |Hex(bytes)| ==> Hex(bytes)[i] == COMMA || DigitValue(Hex(bytes)[i]).Some?
  {
    if |bytes| > 1 {
      HexShape(bytes[1..]);
    }
  }

  lemma UnhexPair(b: Byte, separator: Unit, tail: Text)
    ensures Unhex(Pair(b)) == Some([b])
    ensures Unhex(Pair(b) + [separator] + tail) == Prepend([b], Unhex(tail))
  {
    PairReadsBack(b);
    assert From(Pair(b), 3) == [];
    assert [b] + [] == [b];
    var s := Pair(b) + [separator] + tail;
    assert s[0] == Pair(b)[0] && s[1] == Pair(b)[1];
    assert From(s, 3) == tail;
  }

  lemma PrependNothing(rest: Option<seq<Byte>>)
    ensures Prepend([], rest) == rest
  {
    if rest.Some? {
      assert [] + rest.value == rest.value;
    }
  }

  lemma PrependTwice(a: seq<Byte>, b: seq<Byte>, rest: Option<seq<Byte>>)
    ensures Prepend(a, Prepend(b, rest)) == Prepend(a + b, rest)
  {
    if rest.Some? {
      assert a + (b + rest.value) == (a + b) + rest.value;
    }
  }

  /** Text after the pairs of a non-empty array and a comma is read independently of them. */
  lemma {:induction false} UnhexAfter(bytes: seq<Byte>, tail: Text)
    requires bytes != []
    ensures Unhex(Hex(bytes) + [COMMA] + tail) == Prepend(bytes, Unhex(tail))
  {
    if |bytes| == 1 {
      UnhexPair(bytes[0], COMMA, tail);
      assert bytes == [bytes[0]];
    } else {
      UnhexAfter(bytes[1..], tail);
      UnhexPair(bytes[0], COMMA, Hex(bytes[1..]) + [COMMA] + tail);
      assert Hex(bytes) + [COMMA] + tail == Pair(bytes[0]) + [COMMA] + (Hex(bytes[1..]) + [COMMA] + tail);
      PrependTwice([bytes[0]], bytes[1..], Unhex(tail));
      assert bytes == [bytes[0]] + bytes[1..];
    }
  }

  /** Reading the printed bytes gives them back. */
  lemma {:induction false} RoundTrip(bytes: seq<Byte>)
    ensures Unhex(Hex(bytes)) == Some(bytes)
  {
    if |bytes| == 1 {
      UnhexPair(bytes[0], COMMA, []);
      assert bytes == [bytes[0]];
    } else if |bytes| > 1 {
      RoundTrip(bytes[1..]);
      UnhexPair(bytes[0], COMMA, Hex(bytes[1..]));
      assert bytes == [bytes[0]] + bytes[1..];
    }
  }

  /** The printed form of a concatenation: the two printed forms with a comma between. */
  lemma {:induction false} HexAppend(a: seq<Byte>, b: seq<Byte>)
    requires a != [] && b != []
    ensures Hex(a + b) == Hex(a) + [COMMA] + Hex(b)
  {
    assert (a + b)[1..] == a[1..] + b;
    if |a| > 1 {
      HexAppend(a[1..], b);
    } else {
      assert a[1..] + b == b;
    }
  }

  method ByteArrayToHexComma(byteArray: seq<Byte>) returns (result: Text)
    ensures result == Hex(byteArray)
  {
    result := [];
    for i := 0 to |byteArray|
      invariant result == if i == 0 then [] else Hex(byteArray[..i]) + [COMMA]
    {
      ghost var before := result;
      result := result + Pair(byteArray[i]) + [COMMA];
      assert byteArray[..i + 1] == byteArray[..i] + [byteArray[i]];
      if i > 0 {
        HexAppend(byteArray[..i], [byteArray[i]]);
      }
    }
    assert byteArray[..|byteArray|] == byteArray;
    if |byteArray| > 0 {
      result := result[..|result| - 1];
    }
  }

  method HexCommaToByteArray(strdata: Text) returns (result: Result<seq<Byte>>)
    ensures result == match Unhex(strdata) case Some(bytes) => Ok(bytes) case None => Throws(FormatError)
  {
    var length := (|strdata| + 1) / 3;
    var bytes: seq<Byte> := [];
    PrependNothing(Unhex(strdata));
    var i2 := 0;
    while i2 < length
      invariant 0 <= i2 <= length && |bytes| == i2
      invariant Unhex(strdata) == Prepend(bytes, Unhex(From(strdata, 3 * i2)))
    {
      var b := ByteOfPair(strdata[i2 * 3], strdata[i2 * 3 + 1]);
      if b.None? {
        return Throws(FormatError);
      }
      var here := From(strdata, 3 * i2);
      assert here == strdata[3 * i2..];
      assert From(strdata, 3 * i2 + 3) == From(here, 3);
      PrependTwice(bytes, [b.value], Unhex(From(here, 3)));
      bytes := bytes + [b.value];
      i2 := i2 + 1;
    }
    assert bytes + [] == bytes;
    result := Ok(bytes);
  }
}
