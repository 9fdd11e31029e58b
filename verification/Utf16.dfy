/** Strings as .NET sees them, sequences of 16-bit code units, and their little-endian UTF-16 bytes
    (`Encoding.Unicode`). Encoder and decoder both put U+FFFD in place of a surrogate that is not part of a pair. */
module Utf16 {
  type Unit = u: int | 0 <= u < 0x1_0000
  type Byte = b: int | 0 <= b < 0x100
  type Text = seq<Unit>

  const REPLACEMENT: Unit := 0xFFFD

  const BACKSLASH: Unit := '\\' as int

  /** A literal of the source, which only uses ASCII, as code units. */
  function Ascii(s: string): (t: Text)
    requires forall i :: 0 <= i < |s| ==> s[i] < 128 as char
    ensures |t| == |s| && forall i :: 0 <= i < |s| ==> t[i] == s[i] as int
  {
    seq(|s|, i requires 0 <= i < |s| => s[i] as int)
  }

  predicate IsHigh(u: Unit) { 0xD800 <= u < 0xDC00 }
  predicate IsLow(u: Unit) { 0xDC00 <= u < 0xE000 }

  /** Every surrogate stands in a high-low pair. */
  predicate WellFormed(s: Text) {
    && (forall i :: 0 <= i < |s| && IsHigh(s[i]) ==> i + 1 < |s| && IsLow(s[i + 1]))
    && (forall i :: 0 <= i < |s| && IsLow(s[i]) ==> 0 < i && IsHigh(s[i - 1]))
  }

  /** What the encoder and the decoder do to a code unit sequence. */
  function Sanitize(s: Text): Text {
    if s == [] then
      []
    else if IsHigh(s[0]) && |s| > 1 && IsLow(s[1]) then
      s[..2] + Sanitize(s[2..])
    else if IsHigh(s[0]) || IsLow(s[0]) then
      [REPLACEMENT] + Sanitize(s[1..])
    else
      [s[0]] + Sanitize(s[1..])
  }

  function ToBytes(s: Text): seq<Byte> {
    if s == [] then [] else [s[0] % 0x100, s[0] / 0x100] + ToBytes(s[1..])
  }

  /** `Encoding.Unicode.GetBytes` */
  function GetBytes(s: Text): seq<Byte> {
    ToBytes(Sanitize(s))
  }

  function ToUnits(b: seq<Byte>): Text {
    if b == [] then
      []
    else if |b| == 1 then
      [REPLACEMENT]
    else
      var low: int, high: int := b[0], b[1];
      [low + 0x100 * high] + ToUnits(b[2..])
  }

  /** `Encoding.Unicode.GetString` */
  function GetString(b: seq<Byte>): Text {
    Sanitize(ToUnits(b))
  }

  lemma {:induction false} UnitsOfBytes(s: Text)
    ensures |ToBytes(s)| == 2 * |s|
    ensures ToUnits(ToBytes(s)) == s
  {
    if s != [] {
      UnitsOfBytes(s[1..]);
      assert ToBytes(s)[2..] == ToBytes(s[1..]);
    }
  }

  lemma {:induction false} ToBytesAppend(a: Text, b: Text)
    ensures ToBytes(a + b) == ToBytes(a) + ToBytes(b)
  {
    if a == [] {
      assert a + b == b;
    } else {
      assert (a + b)[0] == a[0] && (a + b)[1..] == a[1..] + b;
      ToBytesAppend(a[1..], b);
    }
  }

  /** Sanitizing works on both sides of a code unit that is no surrogate independently. */
  lemma {:induction false} SanitizeAround(a: Text, u: Unit, b: Text)
    requires !IsHigh(u) && !IsLow(u)
    ensures Sanitize(a + [u] + b) == Sanitize(a) + [u] + Sanitize(b)
  {
    var tail := [u] + b;
    assert a + [u] + b == a + tail;
    SanitizeBefore(a, tail);
    assert tail[1..] == b;
  }

  lemma {:induction false} SanitizeBefore(a: Text, tail: Text)
    requires tail != [] && !IsHigh(tail[0]) && !IsLow(tail[0])
    ensures Sanitize(a + tail) == Sanitize(a) + Sanitize(tail)
  {
    var s := a + tail;
    if a == [] {
      assert s == tail;
    } else if IsHigh(a[0]) && |a| > 1 && IsLow(a[1]) {
      assert s[..2] == a[..2] && s[2..] == a[2..] + tail;
      SanitizeBefore(a[2..], tail);
    } else {
      assert s[0] == a[0] && s[1..] == a[1..] + tail;
      assert |a| == 1 ==> s[1] == tail[0];
      assert |a| > 1 ==> s[1] == a[1];
      SanitizeBefore(a[1..], tail);
    }
  }

  lemma {:induction false} SanitizeFixed(s: Text)
    requires WellFormed(s)
    ensures Sanitize(s) == s
  {
    if s != [] {
      if IsHigh(s[0]) {
        var rest := s[2..];
        assert forall i :: 0 <= i < |rest| ==> rest[i] == s[i + 2];
        SanitizeFixed(rest);
      } else {
        var rest := s[1..];
        assert forall i :: 0 <= i < |rest| ==> rest[i] == s[i + 1];
        SanitizeFixed(rest);
      }
    }
  }

  lemma WellFormedCons(u: Unit, rest: Text)
    requires !IsHigh(u) && !IsLow(u) && WellFormed(rest)
    ensures WellFormed([u] + rest)
  {
    var r := [u] + rest;
    assert forall i :: 1 <= i < |r| ==> r[i] == rest[i - 1];
  }

  lemma WellFormedPair(high: Unit, low: Unit, rest: Text)
    requires IsHigh(high) && IsLow(low) && WellFormed(rest)
    ensures WellFormed([high, low] + rest)
  {
    var r := [high, low] + rest;
    assert forall i :: 2 <= i < |r| ==> r[i] == rest[i - 2];
  }

  lemma {:induction false} SanitizedWellFormed(s: Text)
    ensures WellFormed(Sanitize(s))
  {
    if s == [] {
    } else if IsHigh(s[0]) && |s| > 1 && IsLow(s[1]) {
      SanitizedWellFormed(s[2..]);
      WellFormedPair(s[0], s[1], Sanitize(s[2..]));
      assert s[..2] == [s[0], s[1]];
    } else {
      SanitizedWellFormed(s[1..]);
      WellFormedCons(if IsHigh(s[0]) || IsLow(s[0]) then REPLACEMENT else s[0], Sanitize(s[1..]));
    }
  }

  /** Encoding and decoding a string always succeeds, and gives it back exactly when it is well formed. */
  lemma RoundTrip(s: Text)
    ensures GetString(GetBytes(s)) == Sanitize(s)
    ensures GetString(GetBytes(s)) == s <==> WellFormed(s)
  {
    UnitsOfBytes(Sanitize(s));
    SanitizedWellFormed(s);
    SanitizeFixed(Sanitize(s));
    if WellFormed(s) {
      SanitizeFixed(s);
    }
  }
}
