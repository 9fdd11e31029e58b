/** Reading a printed value gives it back, exactly for the values that can be written down in a `.reg` file. */
module RegValueRoundTrip {
  import opened Wrappers
  import opened Utf16
  import opened Sequences
  import opened HexComma
  import opened RegNumbers
  import opened RegText
  import opened RegValues

  /** The strings of a MultiString that come back: not empty, because an empty one is printed as two commas in a row,
      without a NUL, which would split it, and well formed. */
  predicate Storable(texts: seq<Text>) {
    forall i :: 0 <= i < |texts| ==> texts[i] != [] && 0 !in texts[i] && WellFormed(texts[i])
  }

  /** The values whose data come back. */
  predicate Survives(v: RegValue) {
    match v
    case ExpandString(s) => WellFormed(s)
    case MultiString(ss) => Storable(ss)
    case Unsupported => false
    case _ => true
  }

  predicate HasEmpty(texts: seq<Text>) {
    exists i :: 0 <= i < |texts| && texts[i] == []
  }

  function SanitizeAll(texts: seq<Text>): (r: seq<Text>)
    ensures |r| == |texts| && forall i :: 0 <= i < |r| ==> r[i] == Sanitize(texts[i])
  {
    seq(|texts|, i requires 0 <= i < |texts| => Sanitize(texts[i]))
  }

  /** What the reader gets for a printed value. */
  function Reread(v: RegValue): Result<RegValue> {
    match v
    case ExpandString(s) => Ok(ExpandString(Sanitize(s)))
    case MultiString(ss) =>
      if ss == [] then Ok(v)
      else if HasEmpty(ss) then Throws(FormatError)
      else Ok(MultiString(Split(Join(SanitizeAll(ss), 0), 0)))
    case Unsupported => Ok(Unknown)
    case _ => Ok(v)
  }

  // ----- the bytes of a MultiString -----

  /** Every string with its NUL. */
  function Terminated(texts: seq<Text>): Text {
    if texts == [] then [] else Sanitize(texts[0]) + [0] + Terminated(texts[1..])
  }

  lemma ZerosAreBytes()
    ensures ZEROS == Hex([0, 0])
    ensures ToBytes([0]) == [0, 0]
  {
    assert [0, 0][1..] == [0];
    assert ToBytes([0]) == [0, 0] + ToBytes([]);
  }

  lemma {:induction false} GetBytesEmpty(s: Text)
    ensures GetBytes(s) == [] <==> s == []
  {
  }

  /** The text printed for a non-empty string, up to its last comma, is the hex text of its bytes and its NUL. */
  lemma ElementIsHex(text: Text)
    requires text != []
    ensures MultiElement(text) == Hex(ToBytes(Sanitize(text) + [0])) + [COMMA]
  {
    ZerosAreBytes();
    ToBytesAppend(Sanitize(text), [0]);
    GetBytesEmpty(text);
    HexAppend(GetBytes(text), [0, 0]);
  }

  /** With no empty string among them, the data are the hex text of all bytes. */
  lemma {:induction false} MultiIsHex(texts: seq<Text>)
    requires !HasEmpty(texts)
    ensures MultiBody(texts) + ZEROS == Hex(ToBytes(Terminated(texts) + [0]))
  {
    ZerosAreBytes();
    if texts != [] {
      var head, tail := Sanitize(texts[0]) + [0], Terminated(texts[1..]) + [0];
      assert !HasEmpty(texts[1..]) by {
        assert forall i :: 0 <= i < |texts[1..]| ==> texts[1..][i] == texts[i + 1];
      }
      MultiIsHex(texts[1..]);
      assert texts[0] != [];
      ElementIsHex(texts[0]);
      Associate(MultiElement(texts[0]), MultiBody(texts[1..]), ZEROS);
      Associate(head, Terminated(texts[1..]), [0]);
      HexOfSum(head, tail);
    } else {
      assert [] + ZEROS == ZEROS;
      assert [] + [0] == [0];
    }
  }

  lemma HexOfSum(a: Text, b: Text)
    requires a != [] && b != []
    ensures Hex(ToBytes(a)) + [COMMA] + Hex(ToBytes(b)) == Hex(ToBytes(a + b))
  {
    UnitsOfBytes(a);
    UnitsOfBytes(b);
    ToBytesAppend(a, b);
    HexAppend(ToBytes(a), ToBytes(b));
  }

  /** An empty string puts a comma where the reader expects a digit. */
  lemma {:induction false} EmptyStringBreaks(texts: seq<Text>)
    requires HasEmpty(texts)
    ensures Unhex(MultiBody(texts) + ZEROS) == None
  {
    var rest := MultiBody(texts[1..]) + ZEROS;
    if texts[0] == [] {
      var s := MultiBody(texts) + ZEROS;
      assert s[0] == COMMA;
      assert ByteOfPair(s[0], s[1]) == None;
    } else {
      assert HasEmpty(texts[1..]) by {
        var i :| 0 <= i < |texts| && texts[i] == [];
        assert texts[1..][i - 1] == [];
      }
      EmptyStringBreaks(texts[1..]);
      ElementIsHex(texts[0]);
      var bytes := ToBytes(Sanitize(texts[0]) + [0]);
      assert MultiBody(texts) + ZEROS == Hex(bytes) + [COMMA] + rest;
      UnhexAfter(bytes, rest);
    }
  }

  lemma {:induction false} TerminatedIsJoined(texts: seq<Text>)
    requires texts != []
    ensures Terminated(texts) == Join(SanitizeAll(texts), 0) + [0]
  {
    assert SanitizeAll(texts)[1..] == SanitizeAll(texts[1..]);
    if |texts| == 1 {
      assert Terminated(texts[1..]) == [];
    } else {
      TerminatedIsJoined(texts[1..]);
    }
  }

  lemma {:induction false} TerminatedSane(texts: seq<Text>)
    ensures Sanitize(Terminated(texts) + [0]) == Terminated(texts) + [0]
  {
    if texts == [] {
      assert [] + [0] == [0];
      assert Sanitize([0]) == [0];
    } else {
      var tail := Terminated(texts[1..]) + [0];
      TerminatedSane(texts[1..]);
      SanitizeAround(Sanitize(texts[0]), 0, tail);
      SanitizedWellFormed(texts[0]);
      SanitizeFixed(Sanitize(texts[0]));
      assert Terminated(texts) + [0] == Sanitize(texts[0]) + [0] + tail;
    }
  }

  lemma MultiData(texts: seq<Text>)
    ensures ParseMultiString(MultiBody(texts) + ZEROS) == Reread(MultiString(texts))
  {
    if HasEmpty(texts) {
      EmptyStringBreaks(texts);
    } else {
      var s := Terminated(texts) + [0];
      MultiIsHex(texts);
      HexComma.RoundTrip(ToBytes(s));
      UnitsOfBytes(s);
      TerminatedSane(texts);
      assert GetString(ToBytes(s)) == s;
      SplitTerminated(texts);
    }
  }

  lemma SplitTerminated(texts: seq<Text>)
    ensures var s := Terminated(texts) + [0];
            if texts == [] then s == [0] else |s| >= 2 && s[..|s| - 2] == Join(SanitizeAll(texts), 0)
  {
    if texts == [] {
      assert [] + [0] == [0];
    } else {
      TerminatedIsJoined(texts);
      var s, joined := Terminated(texts) + [0], Join(SanitizeAll(texts), 0);
      assert s == joined + [0, 0];
      assert s[..|joined|] == joined;
    }
  }

  lemma ExpandData(s: Text)
    ensures ParseExpandString(Body(ExpandString(s))) == Reread(ExpandString(s))
  {
    var units := Sanitize(s) + [0];
    ZerosAreBytes();
    ToBytesAppend(Sanitize(s), [0]);
    var bytes := ToBytes(units);
    assert Body(ExpandString(s)) == Hex(bytes) by {
      if GetBytes(s) != [] {
        HexAppend(GetBytes(s), [0, 0]);
      } else {
        assert bytes == [0, 0];
      }
    }
    HexComma.RoundTrip(bytes);
    UnitsOfBytes(units);
    SanitizedWellFormed(s);
    SanitizeFixed(Sanitize(s));
    SanitizeAround(Sanitize(s), 0, []);
    assert Sanitize(s) + [0] + [] == units;
    assert units[..|units| - 1] == Sanitize(s);
  }

  /** What follows the `=` of a printed value is read as `Reread` says, for every value of every kind. */
  lemma ParsePrinted(v: RegValue)
    ensures ParseValue(Tag(v) + Body(v)) == Reread(v)
  {
    match v
    case String(_) => ParsePrintedString(v);
    case Binary(_) => ParsePrintedBinary(v);
    case DWord(n) => ParsePrintedDWord(v);
    case QWord(n) => ParsePrintedQWord(v);
    case ExpandString(_) => ParsePrintedExpand(v);
    case MultiString(_) => ParsePrintedMulti(v);
    case Unknown => NoPrefix(v);
    case Unsupported => NoPrefix(v);
  }

  lemma ParsePrintedExpand(v: RegValue)
    requires v.ExpandString?
    ensures ParseValue(Tag(v) + Body(v)) == Reread(v)
  {
    KindOfPrefix(Tag(v) + Body(v), 1);
    assert (Tag(v) + Body(v))[7..] == Body(v);
    ExpandData(v.text);
  }

  lemma ParsePrintedMulti(v: RegValue)
    requires v.MultiString?
    ensures ParseValue(Tag(v) + Body(v)) == Reread(v)
  {
    KindOfPrefix(Tag(v) + Body(v), 2);
    assert (Tag(v) + Body(v))[7..] == Body(v);
    MultiData(v.texts);
  }

  lemma ParsePrintedString(v: RegValue)
    requires v.String?
    ensures ParseValue(Tag(v) + Body(v)) == Ok(v)
  {
    var value := Tag(v) + Body(v);
    KindOfPrefix(value, 0);
    assert value[1..|value| - 1] == Escape(v.text);
    UnescapeEscape(v.text);
  }

  lemma ParsePrintedBinary(v: RegValue)
    requires v.Binary?
    ensures ParseValue(Tag(v) + Body(v)) == Ok(v)
  {
    KindOfPrefix(Tag(v) + Body(v), 3);
    assert (Tag(v) + Body(v))[4..] == Body(v);
    HexComma.RoundTrip(v.bytes);
  }

  lemma ParsePrintedDWord(v: RegValue)
    requires v.DWord?
    ensures ParseValue(Tag(v) + Body(v)) == Ok(v)
  {
    KindOfPrefix(Tag(v) + Body(v), 4);
    assert (Tag(v) + Body(v))[6..] == Body(v);
    DWordRoundTrip(v.dword);
  }

  lemma ParsePrintedQWord(v: RegValue)
    requires v.QWord?
    ensures ParseValue(Tag(v) + Body(v)) == Ok(v)
  {
    KindOfPrefix(Tag(v) + Body(v), 5);
    assert (Tag(v) + Body(v))[7..] == Body(v);
    HexComma.RoundTrip(QWordBytes(v.qword));
    QWordRoundTrip(v.qword);
  }

  lemma NoPrefix(v: RegValue)
    requires v.Unknown? || v.Unsupported?
    ensures KindFrom(Tag(v) + Body(v), 0) == KindUnknown
  {
    var value := Tag(v) + Body(v);
    if v.Unknown? {
      assert value == HEX_0;
      assert forall i :: 0 <= i < 6 && PREFIXES[i].0 <= value ==> value[4] == PREFIXES[i].0[4];
    }
    NoneFound(value, 0);
  }

  lemma {:induction false} NoneFound(value: Text, k: nat)
    requires k <= |PREFIXES| && forall i :: k <= i < |PREFIXES| ==> !(PREFIXES[i].0 <= value)
    ensures KindFrom(value, k) == KindUnknown
    decreases |PREFIXES| - k
  {
    if k < |PREFIXES| {
      NoneFound(value, k + 1);
    }
  }

  // ----- which values come back -----

  lemma {:induction false} SanitizeKeepsNulls(s: Text)
    ensures 0 in Sanitize(s) <==> 0 in s
  {
    if s == [] {
    } else if IsHigh(s[0]) && |s| > 1 && IsLow(s[1]) {
      SanitizeKeepsNulls(s[2..]);
      assert s == s[..2] + s[2..];
      assert 0 !in s[..2];
    } else {
      SanitizeKeepsNulls(s[1..]);
      assert s == [s[0]] + s[1..];
    }
  }

  lemma RereadMulti(texts: seq<Text>)
    ensures Reread(MultiString(texts)) == Ok(MultiString(texts)) <==> Storable(texts)
  {
    var sane := SanitizeAll(texts);
    if texts == [] || HasEmpty(texts) {
    } else if Storable(texts) {
      forall i | 0 <= i < |texts| ensures sane[i] == texts[i] { SanitizeFixed(texts[i]); }
      assert sane == texts;
      SplitJoin(texts, 0);
    } else if Split(Join(sane, 0), 0) == texts {
      JoinSplit(Join(sane, 0), 0);
      forall i | 0 <= i < |texts| ensures 0 !in sane[i] {
        SanitizeKeepsNulls(texts[i]);
      }
      SplitJoin(sane, 0);
      forall i | 0 <= i < |texts| ensures WellFormed(texts[i]) { SanitizedWellFormed(texts[i]); }
      assert false;
    }
  }

  /** A value is read back as it was exactly when it survives. */
  lemma RereadSame(v: RegValue)
    ensures Reread(v) == Ok(v) <==> Survives(v)
  {
    match v
    case ExpandString(s) => Utf16.RoundTrip(s);
    case MultiString(ss) => RereadMulti(ss);
    case _ =>
  }
}
