/** The typed values of a `.reg` file: what `writeRegKeyValues` (PackageEditor/RegistryFunctions.cs) prints for each
    kind, and what `readKey` (PackageEditor/RegFile.cs) makes of it. */
module RegValues {
  import opened Wrappers
  import opened Utf16
  import opened Sequences
  import opened TextLines
  import opened HexComma
  import opened RegNumbers
  import opened RegText
  import LineWrap

  /** A value with its kind. `Unknown` is the kind of that name, `Unsupported` any kind the writer has no case for. */
  datatype RegValue =
    | Binary(bytes: seq<Byte>)
    | DWord(dword: Int32)
    | ExpandString(text: Text)
    | MultiString(texts: seq<Text>)
    | QWord(qword: Int64)
    | String(text: Text)
    | Unknown
    | Unsupported

  datatype Kind = KindString | KindExpandString | KindMultiString | KindBinary | KindDWord | KindQWord | KindUnknown

  const HEX: Text := Ascii("hex:")
  const HEX_2: Text := Ascii("hex(2):")
  const HEX_7: Text := Ascii("hex(7):")
  const HEX_B: Text := Ascii("hex(b):")
  const HEX_0: Text := Ascii("hex(0):")
  const DWORD: Text := Ascii("dword:")
  const ZEROS: Text := Ascii("00,00")

  // ----- the writer -----

  function MultiBody(texts: seq<Text>): Text {
    if texts == [] then [] else MultiElement(texts[0]) + MultiBody(texts[1..])
  }

  function MultiElement(text: Text): Text {
    Hex(GetBytes(text)) + [COMMA] + ZEROS + [COMMA]
  }

  /** What stands in front of the data. */
  function Tag(v: RegValue): Text {
    match v
    case Binary(_) => HEX
    case DWord(_) => DWORD
    case ExpandString(_) => HEX_2
    case MultiString(_) => HEX_7
    case QWord(_) => HEX_B
    case String(_) => [QUOTE]
    case Unknown => HEX_0
    case Unsupported => []
  }

  /** The data on one line. */
  function Body(v: RegValue): Text {
    match v
    case Binary(bytes) => Hex(bytes)
    case DWord(n) => PrintDWord(n)
    case ExpandString(s) =>
      Hex(GetBytes(s)) + (if Hex(GetBytes(s)) != [] then [COMMA] else []) + ZEROS
    case MultiString(ss) => MultiBody(ss) + ZEROS
    case QWord(n) => Hex(QWordBytes(n))
    case String(s) => Escape(s) + [QUOTE]
    case Unknown => []
    case Unsupported => []
  }

  predicate Wraps(v: RegValue) {
    v.Binary? || v.ExpandString? || v.MultiString?
  }

  /** The characters of the data that go on the first line, after a printed name of the given length. */
  function Room(nameLength: nat, v: RegValue): (n: nat)
    ensures n > 0
  {
    if Wraps(v) then LineWrap.FirstLength(nameLength + 1 + |Tag(v)|) else |Body(v)| + 1
  }

  /** A value as `writeRegKeyValues` prints it, without the line break at the end. */
  function PrintEntry(name: Text, v: RegValue): Text {
    PrintName(name) + [EQUALS] + PrintedData(|PrintName(name)|, v)
  }

  /** The lines of the file that the value takes. */
  function EntryLines(name: Text, v: RegValue): seq<Text> {
    LineWrap.WrappedLines(PrintName(name) + [EQUALS] + Tag(v), Body(v), Room(|PrintName(name)|, v))
  }

  method MultiText(sa: seq<Text>) returns (regvalue: Text)
    ensures regvalue == MultiBody(sa) + ZEROS
  {
    regvalue := [];
    for m := 0 to |sa|
      invariant regvalue + MultiBody(sa[m..]) == MultiBody(sa)
    {
      ghost var before, rest := regvalue, MultiBody(sa[m + 1..]);
      assert sa[m..][1..] == sa[m + 1..];
      var pairs := ByteArrayToHexComma(GetBytes(sa[m]));
      regvalue := regvalue + pairs;
      regvalue := regvalue + ([COMMA] + ZEROS + [COMMA]);
      Accumulate(before, pairs, rest);
    }
    assert regvalue + [] == regvalue;
    regvalue := regvalue + ZEROS;
  }

  lemma Accumulate(before: Text, pairs: Text, rest: Text)
    ensures before + pairs + ([COMMA] + ZEROS + [COMMA]) + rest == before + ((pairs + [COMMA] + ZEROS + [COMMA]) + rest)
  {
    assert pairs + ([COMMA] + ZEROS + [COMMA]) == pairs + [COMMA] + ZEROS + [COMMA];
  }

  /** A value as the `switch` over the kinds prints it, after a name of the given length. */
  function PrintedData(nameLength: nat, v: RegValue): Text {
    Tag(v) + LineWrap.Wrap(Body(v), Room(nameLength, v))
  }

  method PrintBinary(nameLength: nat, x: seq<Byte>) returns (regvalue: Text)
    ensures regvalue == PrintedData(nameLength, Binary(x))
  {
    regvalue := ByteArrayToHexComma(x);
    regvalue := LineWrap.ByteArrayFormatString(regvalue, nameLength + 5);
    regvalue := HEX + regvalue;
  }

  method PrintExpandString(nameLength: nat, s: Text) returns (regvalue: Text)
    ensures regvalue == PrintedData(nameLength, ExpandString(s))
  {
    regvalue := ByteArrayToHexComma(GetBytes(s));
    regvalue := regvalue + (if regvalue != [] then [COMMA] else []) + ZEROS;
    regvalue := LineWrap.ByteArrayFormatString(regvalue, nameLength + 8);
    assert |Tag(ExpandString(s))| == 7;
    regvalue := HEX_2 + regvalue;
  }

  method PrintMultiString(nameLength: nat, sa: seq<Text>) returns (regvalue: Text)
    ensures regvalue == PrintedData(nameLength, MultiString(sa))
  {
    regvalue := MultiText(sa);
    assert |Tag(MultiString(sa))| == 7;
    regvalue := LineWrap.ByteArrayFormatString(regvalue, nameLength + 8);
    regvalue := HEX_7 + regvalue;
  }

  method PrintQWord(nameLength: nat, l: Int64) returns (regvalue: Text)
    ensures regvalue == PrintedData(nameLength, QWord(l))
  {
    regvalue := ByteArrayToHexComma(QWordBytes(l));
    regvalue := HEX_B + regvalue;
  }

  /** The kinds that are printed without a loop. */
  lemma ShortData(nameLength: nat, v: RegValue)
    requires !Wraps(v)
    ensures PrintedData(nameLength, v) == Tag(v) + Body(v)
  {
  }

  /** The `switch` over the value kinds. */
  method PrintData(nameLength: nat, v: RegValue) returns (regvalue: Text)
    ensures regvalue == PrintedData(nameLength, v)
  {
    match v
    case Binary(x) => regvalue := PrintBinary(nameLength, x);
    case ExpandString(s) => regvalue := PrintExpandString(nameLength, s);
    case MultiString(sa) => regvalue := PrintMultiString(nameLength, sa);
    case QWord(l) => regvalue := PrintQWord(nameLength, l);
    case DWord(n) =>
      ShortData(nameLength, v);
      regvalue := DWORD + PrintDWord(n);
    case String(s) =>
      ShortData(nameLength, v);
      regvalue := [QUOTE] + (Escape(s) + [QUOTE]);
    case Unknown =>
      ShortData(nameLength, v);
      regvalue := HEX_0;
    case Unsupported =>
      ShortData(nameLength, v);
      regvalue := [];
  }

  method PrintValue(name: Text, v: RegValue) returns (entry: Text)
    ensures entry == PrintEntry(name, v)
  {
    var regvaluename := Escape(name);
    EscapeStart(name);
    if |regvaluename| == 0 {
      regvaluename := [AT];
    } else {
      regvaluename := [QUOTE] + regvaluename + [QUOTE];
    }
    var regvalue := PrintData(|regvaluename|, v);
    assert regvaluename == PrintName(name);
    entry := regvaluename + [EQUALS] + regvalue;
  }

  lemma EntryIsLines(name: Text, v: RegValue)
    ensures PrintEntry(name, v) + CRLF == WriteLines(EntryLines(name, v))
  {
    var n := Room(|PrintName(name)|, v);
    LineWrap.WrapIsLines(PrintName(name) + [EQUALS] + Tag(v), Body(v), n);
    Regroup(PrintName(name) + [EQUALS], Tag(v), LineWrap.Wrap(Body(v), n));
  }

  lemma Regroup(a: Text, b: Text, c: Text)
    ensures a + (b + c) + CRLF == a + b + c + CRLF
  {
    assert a + (b + c) == a + b + c;
  }

  // ----- the reader -----

  /** The table of the reader, in the order it is searched. */
  const PREFIXES: seq<(Text, Kind)> :=
    [([QUOTE], KindString), (HEX_2, KindExpandString), (HEX_7, KindMultiString), (HEX, KindBinary),
     (DWORD, KindDWord), (HEX_B, KindQWord)]

  function KindFrom(value: Text, i: nat): Kind
    requires i <= |PREFIXES|
    decreases |PREFIXES| - i
  {
    if i == |PREFIXES| then KindUnknown
    else if PREFIXES[i].0 <= value then PREFIXES[i].1
    else KindFrom(value, i + 1)
  }

  method KindOf(value: Text) returns (kind: Kind)
    ensures kind == KindFrom(value, 0)
  {
    kind := KindUnknown;
    var i := 0;
    while i < |PREFIXES|
      invariant i <= |PREFIXES| && kind == KindUnknown
      invariant KindFrom(value, 0) == KindFrom(value, i)
    {
      if PREFIXES[i].0 <= value {
        kind := PREFIXES[i].1;
        break;
      }
      i := i + 1;
    }
  }

  /** No text starts with two of the prefixes. */
  lemma PrefixesUnambiguous(value: Text, i: nat, j: nat)
    requires i < |PREFIXES| && j < |PREFIXES|
    requires PREFIXES[i].0 <= value && PREFIXES[j].0 <= value
    ensures i == j
  {
    var a, b := PREFIXES[i].0, PREFIXES[j].0;
    assert value[0] == a[0] == b[0];
    if |a| > 4 && |b| > 4 {
      assert value[4] == a[4] == b[4];
    } else if |a| > 3 && |b| > 3 {
      assert value[3] == a[3] == b[3];
    }
  }

  /** The search finds the prefix a text starts with, whatever the order of the table. */
  lemma KindOfPrefix(value: Text, i: nat)
    requires i < |PREFIXES| && PREFIXES[i].0 <= value
    ensures KindFrom(value, 0) == PREFIXES[i].1
  {
    KindFound(value, 0, i);
  }

  lemma {:induction false} KindFound(value: Text, k: nat, i: nat)
    requires k <= i < |PREFIXES| && PREFIXES[i].0 <= value
    ensures KindFrom(value, k) == PREFIXES[i].1
    decreases i - k
  {
    if PREFIXES[k].0 <= value {
      PrefixesUnambiguous(value, k, i);
    } else {
      KindFound(value, k + 1, i);
    }
  }

  function ParseExpandString(data: Text): Result<RegValue> {
    match Unhex(data)
    case None => Throws(FormatError)
    case Some(bytes) =>
      var s := GetString(bytes);
      if s == [] then Throws(ArgumentError) else Ok(ExpandString(s[..|s| - 1]))
  }

  function ParseMultiString(data: Text): Result<RegValue> {
    match Unhex(data)
    case None => Throws(FormatError)
    case Some(bytes) =>
      var s := GetString(bytes);
      if s == [0] then Ok(MultiString([]))
      else if |s| < 2 then Throws(ArgumentError)
      else Ok(MultiString(Split(s[..|s| - 2], 0)))
  }

  /** The value a logical line holds, from what stands after the `=`. */
  function ParseValue(value: Text): Result<RegValue> {
    match KindFrom(value, 0)
    case KindString =>
      if |value| < 2 then Throws(ArgumentError) else Ok(String(Unescape(value[1..|value| - 1])))
    case KindDWord =>
      var n :- ParseDWord(value[6..]);
      Ok(DWord(n))
    case KindBinary =>
      (match Unhex(value[4..])
       case None => Throws(FormatError)
       case Some(bytes) => Ok(Binary(bytes)))
    case KindQWord =>
      (match Unhex(value[7..])
       case None => Throws(FormatError)
       case Some(bytes) =>
         var n :- QWordOf(bytes);
         Ok(QWord(n)))
    case KindExpandString => ParseExpandString(value[7..])
    case KindMultiString => ParseMultiString(value[7..])
    case KindUnknown => Ok(Unknown)
  }
}
