/** The text of a `.reg` file, letter by letter: the header, the names of the roots, the marks in front of the data, the
    digits, the order of the bytes and the broken lines (PackageEditor/RegistryFunctions.cs, PackageEditor/RegFile.cs).
    The round trips would hold for any format that writer and reader agree on; here it is this one. */
module RegFormat {
  import opened Wrappers
  import opened Utf16
  import opened Sequences
  import opened TextLines
  import opened CaseFold
  import opened HexComma
  import opened RegNumbers
  import opened RegText
  import opened RegValues
  import opened RegValueRoundTrip
  import opened RegFile
  import opened RegSections
  import opened RegRoots
  import opened RegTransfer
  import LineWrap

  // ----- digits -----

  function Lower(n: nat): Unit
    requires n < 16
  {
    "0123456789abcdef"[n] as int
  }

  function Upper(n: nat): Unit
    requires n < 16
  {
    "0123456789ABCDEF"[n] as int
  }

  predicate IsDigit(u: Unit, n: nat) {
    n < 16 && (u == Lower(n) || u == Upper(n))
  }

  lemma DigitRead(u: Unit, n: nat)
    ensures DigitValue(u) == Some(n) <==> IsDigit(u, n)
    ensures n < 16 ==> Digit(n) == Lower(n)
  {
  }

  /** Every byte is written as two lower-case digits, the high one first, and commas stand between the bytes only. */
  lemma {:induction false} BytesWritten(bytes: seq<Byte>, i: nat)
    requires i < |bytes|
    ensures var s := Hex(bytes);
            && |s| == 3 * |bytes| - 1
            && s[3 * i] == Lower(bytes[i] / 16) && s[3 * i + 1] == Lower(bytes[i] % 16)
            && (i + 1 < |bytes| ==> s[3 * i + 2] == ',' as int)
  {
    hide Lower, Digit;
    HexShape(bytes);
    DigitRead(0, bytes[i] / 16);
    DigitRead(0, bytes[i] % 16);
    if i > 0 {
      BytesWritten(bytes[1..], i - 1);
    }
  }

  /** Two characters that are the hex digits of a byte, in either case. */
  predicate IsByte(high: Unit, low: Unit, b: Byte) {
    IsDigit(high, b / 16) && IsDigit(low, b % 16)
  }

  lemma PairRead(high: Unit, low: Unit, b: Byte)
    ensures ByteOfPair(high, low) == Some(b) <==> IsByte(high, low, b)
  {
    var h, l := DigitValue(high), DigitValue(low);
    assert (h.Some? ==> h.value < 16) && (l.Some? ==> l.value < 16);
    DigitRead(high, b / 16);
    DigitRead(low, b % 16);
    hide DigitValue, IsDigit;
    if h.Some? && l.Some? { HalvesOf(h.value, l.value, b); }
  }

  lemma HalvesOf(h: nat, l: nat, b: nat)
    requires h < 16 && l < 16
    ensures 16 * h + l == b <==> h == b / 16 && l == b % 16
  {
  }

  predicate ByteAt(s: Text, i: nat, b: Byte) {
    3 * i + 1 < |s| && IsByte(s[3 * i], s[3 * i + 1], b)
  }

  /** Bytes are read from the characters 0 and 1, 3 and 4, and so on, whatever the others are. */
  lemma {:induction false} BytesRead(s: Text, bytes: seq<Byte>)
    ensures Unhex(s) == Some(bytes) <==> BytesAt(s, bytes)
    decreases |s|
  {
    hide IsByte, ByteOfPair, ByteAt;
    if |s| >= 2 && bytes != [] {
      PairRead(s[0], s[1], bytes[0]);
      assert bytes == [bytes[0]] + bytes[1..];
      BytesRead(From(s, 3), bytes[1..]);
      BytesAtCons(s, bytes);
    }
  }

  predicate BytesAt(s: Text, bytes: seq<Byte>) {
    |bytes| == (|s| + 1) / 3 && forall i :: 0 <= i < |bytes| ==> ByteAt(s, i, bytes[i])
  }

  lemma BytesAtCons(s: Text, bytes: seq<Byte>)
    requires |s| >= 2 && bytes != []
    ensures BytesAt(s, bytes) <==> IsByte(s[0], s[1], bytes[0]) && BytesAt(From(s, 3), bytes[1..])
  {
    hide IsByte;
    var rest := From(s, 3);
    if |bytes| == (|s| + 1) / 3 {
      assert ByteAt(s, 0, bytes[0]) <==> IsByte(s[0], s[1], bytes[0]);
      forall i | 0 <= i < |bytes| - 1 ensures ByteAt(rest, i, bytes[1..][i]) <==> ByteAt(s, i + 1, bytes[i + 1]) {
        assert |s| >= 3 && rest == s[3..];
      }
      if BytesAt(rest, bytes[1..]) && IsByte(s[0], s[1], bytes[0]) {
        forall i | 0 <= i < |bytes| ensures ByteAt(s, i, bytes[i]) {
          if i > 0 { assert ByteAt(rest, i - 1, bytes[1..][i - 1]); }
        }
      }
    }
  }

  /** The case of the digits makes no difference. */
  lemma {:induction false} AnyCase(s: Text, t: Text)
    requires SameLetters(s, t)
    ensures Unhex(s) == Unhex(t)
    decreases |s|
  {
    if |s| >= 2 {
      AnyCase(From(s, 3), From(t, 3));
    }
  }

  /** A number as eight lower-case digits, the most significant first; a negative one counts down from 2^32. */
  lemma DWordWritten(n: Int32)
    ensures var u := if n < 0 then n + 0x1_0000_0000 else n;
            PrintDWord(n) ==
            [Lower(u / 0x1000_0000), Lower(u / 0x100_0000 % 16), Lower(u / 0x10_0000 % 16), Lower(u / 0x1_0000 % 16),
             Lower(u / 0x1000 % 16), Lower(u / 0x100 % 16), Lower(u / 16 % 16), Lower(u % 16)]
  {
    hide Lower, Digits;
    var u := if n < 0 then n + 0x1_0000_0000 else n;
    assert PrintDWord(n) == Digits(u, 8);
    EightPlaces(u);
  }

  lemma EightPlaces(u: nat)
    requires u < 0x1_0000_0000
    ensures Digits(u, 8) ==
            [Lower(u / 0x1000_0000), Lower(u / 0x100_0000 % 16), Lower(u / 0x10_0000 % 16), Lower(u / 0x1_0000 % 16),
             Lower(u / 0x1000 % 16), Lower(u / 0x100 % 16), Lower(u / 16 % 16), Lower(u % 16)]
  {
    NoDigits(u / 0x1_0000 / 0x1_0000);
    hide *;
    HighPlaces(u);
    FourDigits(u / 0x1_0000, 0);
    FourDigits(u, 4);
  }

  lemma NoDigits(u: nat)
    ensures Digits(u, 0) == []
  {
  }

  lemma HighPlaces(u: nat)
    requires u < 0x1_0000_0000
    ensures u / 0x1_0000 / 16 == u / 0x10_0000 && u / 0x1_0000 / 0x100 == u / 0x100_0000
    ensures u / 0x1_0000 / 0x1000 == u / 0x1000_0000 && u / 0x1000_0000 % 16 == u / 0x1000_0000
  {
  }

  lemma Shifted(u: nat)
    ensures u / 16 / 16 == u / 0x100 && u / 0x100 / 16 == u / 0x1000 && u / 0x1000 / 16 == u / 0x1_0000
  {
  }

  /** The last four digits. */
  lemma FourDigits(u: nat, count: nat)
    ensures Digits(u, count + 4) ==
            Digits(u / 0x1_0000, count) +
            [Lower(u / 0x1000 % 16), Lower(u / 0x100 % 16), Lower(u / 16 % 16), Lower(u % 16)]
  {
    OneDigit(u, count + 3);
    OneDigit(u / 16, count + 2);
    OneDigit(u / 0x100, count + 1);
    OneDigit(u / 0x1000, count);
    Shifted(u);
    hide *;
    FourBehind(Digits(u / 0x1_0000, count), Lower(u / 0x1000 % 16), Lower(u / 0x100 % 16), Lower(u / 16 % 16),
               Lower(u % 16));
  }

  lemma FourBehind(s: Text, a: Unit, b: Unit, c: Unit, d: Unit)
    ensures s + [a] + [b] + [c] + [d] == s + [a, b, c, d]
  {
  }

  lemma OneDigit(u: nat, count: nat)
    ensures Digits(u, count + 1) == Digits(u / 16, count) + [Lower(u % 16)]
  {
    DigitRead(0, u % 16);
    hide Lower, Digit;
  }

  lemma {:induction false} NumberAnyCase(s: Text, t: Text)
    requires SameLetters(s, t)
    ensures NumberOf(s) == NumberOf(t)
  {
    if s != [] {
      NumberAnyCase(s[..|s| - 1], t[..|t| - 1]);
    }
  }

  /** The number is read whatever the case of its digits. */
  lemma DWordAnyCase(n: Int32, t: Text)
    requires SameLetters(PrintDWord(n), t)
    ensures ParseDWord(t) == Ok(n)
  {
    var s := PrintDWord(n);
    DWordRoundTrip(n);
    NumberAnyCase(s, t);
    TrimDigits(s);
    assert DigitValue(t[0]) == DigitValue(s[0]) && DigitValue(t[7]) == DigitValue(s[7]);
    TrimDigits(t);
    hide NumberOf, Trim, TrimStart, TrimEnd;
  }

  /** A long number as eight bytes, the least significant first. */
  lemma QWordWritten(n: Int64)
    ensures var u := if n < 0 then n + 0x1_0000_0000_0000_0000 else n;
            QWordBytes(n) ==
            [u % 0x100, u / 0x100 % 0x100, u / 0x1_0000 % 0x100, u / 0x100_0000 % 0x100, u / 0x1_0000_0000 % 0x100,
             u / 0x100_0000_0000 % 0x100, u / 0x1_0000_0000_0000 % 0x100, u / 0x100_0000_0000_0000]
  {
    hide Bytes;
    var u := if n < 0 then n + 0x1_0000_0000_0000_0000 else n;
    assert QWordBytes(n) == Bytes(u, 8);
    HighBytes(u);
    NoBytes(u / 0x1_0000_0000 / 0x1_0000_0000);
    FourBytes(u, 4);
    FourBytes(u / 0x1_0000_0000, 0);
  }

  lemma HighBytes(u: nat)
    requires u < 0x1_0000_0000_0000_0000
    ensures var v := u / 0x1_0000_0000;
            && v / 0x100 == u / 0x100_0000_0000 && v / 0x1_0000 == u / 0x1_0000_0000_0000
            && v / 0x100_0000 == u / 0x100_0000_0000_0000
            && u / 0x100_0000_0000_0000 % 0x100 == u / 0x100_0000_0000_0000
  {
  }

  lemma NoBytes(u: nat)
    ensures Bytes(u, 0) == []
  {
  }

  lemma FourBytes(u: nat, count: nat)
    ensures Bytes(u, count + 4) ==
            [u % 0x100, u / 0x100 % 0x100, u / 0x1_0000 % 0x100, u / 0x100_0000 % 0x100] +
            Bytes(u / 0x1_0000_0000, count)
  {
    OneByte(u, count + 3);
    OneByte(u / 0x100, count + 2);
    OneByte(u / 0x1_0000, count + 1);
    OneByte(u / 0x100_0000, count);
    ByteShifts(u);
    hide *;
    FourAhead(u % 0x100, u / 0x100 % 0x100, u / 0x1_0000 % 0x100, u / 0x100_0000 % 0x100,
              Bytes(u / 0x1_0000_0000, count));
  }

  lemma ByteShifts(u: nat)
    ensures u / 0x100 / 0x100 == u / 0x1_0000 && u / 0x1_0000 / 0x100 == u / 0x100_0000
    ensures u / 0x100_0000 / 0x100 == u / 0x1_0000_0000
  {
  }

  lemma FourAhead(a: Byte, b: Byte, c: Byte, d: Byte, rest: seq<Byte>)
    ensures [a] + ([b] + ([c] + ([d] + rest))) == [a, b, c, d] + rest
  {
  }

  lemma OneByte(u: nat, count: nat)
    ensures Bytes(u, count + 1) == [u % 0x100] + Bytes(u / 0x100, count)
  {
  }

  // ----- strings -----

  /** Every code unit is written with its low byte first. */
  lemma {:induction false} UnitsWritten(s: Text, i: nat)
    requires i < |s|
    ensures |ToBytes(s)| == 2 * |s|
    ensures ToBytes(s)[2 * i] == s[i] % 0x100 && ToBytes(s)[2 * i + 1] == s[i] / 0x100
  {
    var head, tail: seq<Byte> := [s[0] % 0x100, s[0] / 0x100], ToBytes(s[1..]);
    assert ToBytes(s) == head + tail;
    UnitsOfBytes(s);
    hide ToBytes, ToUnits;
    if i > 0 {
      UnitsWritten(s[1..], i - 1);
      assert (head + tail)[2 * i] == tail[2 * i - 2] && (head + tail)[2 * i + 1] == tail[2 * i - 1];
    }
  }

  /** Half of a pair whose other half is missing. */
  predicate Lone(s: Text, i: nat)
    requires i < |s|
  {
    || (0xD800 <= s[i] <= 0xDBFF && !(i + 1 < |s| && 0xDC00 <= s[i + 1] <= 0xDFFF))
    || (0xDC00 <= s[i] <= 0xDFFF && !(i > 0 && 0xD800 <= s[i - 1] <= 0xDBFF))
  }

  /** The encoder keeps every code unit, but for U+FFFD in place of lone halves. */
  lemma {:induction false} UnitsKept(s: Text, i: nat)
    requires i < |s|
    ensures |Sanitize(s)| == |s| && Sanitize(s)[i] == if Lone(s, i) then 0xFFFD else s[i]
    decreases |s|
  {
    if IsHigh(s[0]) && |s| > 1 && IsLow(s[1]) {
      if |s| > 2 {
        UnitsKept(s[2..], if i >= 2 then i - 2 else 0);
        assert i >= 2 ==> (Lone(s, i) <==> Lone(s[2..], i - 2));
      } else {
        assert Sanitize(s[2..]) == [];
      }
    } else if |s| > 1 {
      UnitsKept(s[1..], if i >= 1 then i - 1 else 0);
      assert i >= 1 ==> (Lone(s, i) <==> Lone(s[1..], i - 1));
    } else {
      assert Sanitize(s[1..]) == [];
    }
  }

  // ----- names -----

  /** A name is quoted, the name of the default value is a lone `@`. */
  lemma NameWritten(name: Text)
    ensures PrintName([]) == Ascii("@")
    ensures name != [] ==> PrintName(name) == Ascii("\"") + Escape(name) + Ascii("\"")
  {
  }

  /** Backslashes and quotes get a backslash in front, nothing else changes. */
  lemma TextEscaped(u: Unit, s: Text)
    ensures Escape([]) == []
    ensures Escape([u] + s) == (if u == 92 || u == 34 then [92, u] else [u]) + Escape(s)
  {
    EscapeCons(u, s);
  }

  // ----- lines -----

  const INDENTED: Text := Ascii("  ")
  const BROKEN: Text := Ascii("\\")

  lemma {:induction false} LaterLines(s: Text, i: nat)
    requires s != []
    ensures var lines := LineWrap.WrappedLines(INDENTED, s, 75);
            && |lines| == (|s| + 74) / 75
            && (i + 1 < |lines| ==> lines[i] == INDENTED + s[75 * i..75 * i + 75] + BROKEN)
            && (i + 1 == |lines| ==> lines[i] == INDENTED + s[75 * i..])
    decreases |s|
  {
    if |s| > 75 {
      LaterLines(s[75..], if i > 0 then i - 1 else 0);
      assert INDENTED == LineWrap.INDENT && BROKEN == [BACKSLASH];
      if i > 0 && i < |LineWrap.WrappedLines(INDENTED, s, 75)| {
        assert s[75..][75 * (i - 1)..] == s[75 * i..];
      }
    }
  }

  /** Data too long for the first line go on, 75 characters on each line behind two blanks; a backslash ends every line
      but the last. */
  lemma LinesBroken(prefix: Text, s: Text, n: nat, i: nat)
    requires n > 0
    ensures |s| <= n ==> LineWrap.WrappedLines(prefix, s, n) == [prefix + s]
    ensures |s| > n ==>
      var lines := LineWrap.WrappedLines(prefix, s, n);
      && |lines| == 1 + (|s| - n + 74) / 75 && lines[0] == prefix + s[..n] + BROKEN
      && (0 < i < |lines| - 1 ==> lines[i] == INDENTED + s[n + 75 * (i - 1)..n + 75 * i] + BROKEN)
      && lines[|lines| - 1] == INDENTED + s[n + 75 * (|lines| - 2)..]
  {
    if |s| > n {
      var lines, rest := LineWrap.WrappedLines(prefix, s, n), s[n..];
      var later := LineWrap.WrappedLines(INDENTED, rest, 75);
      assert INDENTED == LineWrap.INDENT && BROKEN == [BACKSLASH];
      assert lines == [prefix + s[..n] + BROKEN] + later;
      hide LineWrap.WrappedLines;
      LaterLines(rest, |later| - 1);
      assert rest[75 * (|later| - 1)..] == s[n + 75 * (|lines| - 2)..];
      if 0 < i < |lines| - 1 {
        LaterLines(rest, i - 1);
        assert rest[75 * (i - 1)..75 * i] == s[n + 75 * (i - 1)..n + 75 * i];
      }
    }
  }

  // ----- values -----

  /** What stands between the `=` and the data. */
  function Mark(v: RegValue): Text {
    match v
    case Binary(_) => Ascii("hex:")
    case DWord(_) => Ascii("dword:")
    case ExpandString(_) => Ascii("hex(2):")
    case MultiString(_) => Ascii("hex(7):")
    case QWord(_) => Ascii("hex(b):")
    case String(_) => Ascii("\"")
    case Unknown => Ascii("hex(0):")
    case Unsupported => []
  }

  /** Numbers, strings and values of other kinds take one line. */
  lemma ShortWritten(name: Text, v: RegValue)
    requires v.DWord? || v.QWord? || v.String? || v.Unknown? || v.Unsupported?
    ensures EntryLines(name, v) == [PrintName(name) + Ascii("=") + Mark(v) + Body(v)]
    ensures v.DWord? ==> Body(v) == PrintDWord(v.dword)
    ensures v.QWord? ==> Body(v) == Hex(QWordBytes(v.qword))
    ensures v.String? ==> Body(v) == Escape(v.text) + Ascii("\"")
    ensures v.Unknown? || v.Unsupported? ==> Body(v) == []
  {
    MarkIsTag(v);
    hide PrintName, Escape, Hex, Tag, Mark;
  }

  lemma MarkIsTag(v: RegValue)
    ensures Mark(v) == Tag(v) && Ascii("=") == [EQUALS]
  {
    match v
    case Binary(_) =>
    case DWord(_) =>
    case ExpandString(_) =>
    case MultiString(_) =>
    case QWord(_) =>
    case String(_) =>
    case Unknown =>
    case Unsupported =>
  }

  /** Bytes and texts are written as hex digits, on as many lines as they take. A text ends in a NUL, a list of texts in
      one more. */
  lemma LongWritten(name: Text, v: RegValue)
    requires v.Binary? || v.ExpandString? || v.MultiString?
    ensures var prefix := PrintName(name) + Ascii("=") + Mark(v);
            EntryLines(name, v) == LineWrap.WrappedLines(prefix, Body(v), LineWrap.FirstLength(|prefix|))
    ensures v.Binary? ==> Body(v) == Hex(v.bytes)
    ensures v.ExpandString? ==> Body(v) == Hex(GetBytes(v.text) + [0, 0])
  {
    MarkIsTag(v);
    if v.ExpandString? {
      ExpandIsHex(v.text);
    }
    RoomIs(name, v);
    hide PrintName, Hex, Tag, Mark, Room, LineWrap.WrappedLines, LineWrap.FirstLength;
  }

  lemma RoomIs(name: Text, v: RegValue)
    requires Wraps(v)
    ensures Room(|PrintName(name)|, v) == LineWrap.FirstLength(|PrintName(name) + [EQUALS] + Tag(v)|)
  {
  }

  lemma ExpandIsHex(s: Text)
    ensures Body(ExpandString(s)) == Hex(GetBytes(s) + [0, 0])
  {
    ZerosAreBytes();
    if GetBytes(s) != [] {
      HexAppend(GetBytes(s), [0, 0]);
      HexShape(GetBytes(s));
    } else {
      assert [] + [0, 0] == [0, 0];
    }
  }

  /** The texts of a list, each with its NUL; an empty one leaves its comma behind. */
  lemma ListWritten(text: Text, texts: seq<Text>)
    ensures Body(MultiString([])) == Ascii("00,00")
    ensures Body(MultiString([text] + texts)) == Hex(GetBytes(text)) + Ascii(",00,00,") + Body(MultiString(texts))
  {
    TailOfSum([text], texts);
    ElementWritten(text);
    hide MultiElement, Hex;
    Associate(MultiElement(text), MultiBody(texts), ZEROS);
  }

  lemma ElementWritten(text: Text)
    ensures MultiElement(text) == Hex(GetBytes(text)) + Ascii(",00,00,")
  {
    assert [COMMA] + ZEROS + [COMMA] == Ascii(",00,00,");
    Associate(Hex(GetBytes(text)), [COMMA], ZEROS);
    Associate(Hex(GetBytes(text)), [COMMA] + ZEROS, [COMMA]);
  }

  // ----- names of keys -----

  const VIRTUAL_CLASSES: Text := Ascii("%CurrentUser%_Classes")
  const VIRTUAL_CURRENT: Text := Ascii("%CurrentUser%")
  const VIRTUAL_MACHINE: Text := Ascii("MACHINE")
  const VIRTUAL_USERS: Text := Ascii("USER")
  const REAL_CLASSES: Text := Ascii("HKEY_CURRENT_USER\\Software\\Classes")
  const REAL_CURRENT: Text := Ascii("HKEY_CURRENT_USER")
  const REAL_MACHINE: Text := Ascii("HKEY_LOCAL_MACHINE")
  const REAL_USERS: Text := Ascii("HKEY_USERS")

  /** A key's name starts with the name of a root, in any case. */
  predicate Below(keyname: Text, root: Text) {
    |root| <= |keyname| && SameLetters(keyname[..|root|], root)
  }

  lemma BelowIsFolded(keyname: Text, i: Root)
    ensures StartsFolded(keyname, i) <==> Below(keyname, Virtual(i))
  {
    var v := Virtual(i);
    if StartsFolded(keyname, i) {
      RootFits(keyname, i);
    }
    if |v| <= |keyname| {
      FoldsSame(keyname[..|v|], v);
      hide Virtual;
      assert (keyname + SEPARATOR)[..|v|] == keyname[..|v|];
      assert Fold(keyname + SEPARATOR)[..|v|] == Fold(keyname[..|v|]);
    }
  }

  lemma RootNames()
    ensures Virtual(0) == VIRTUAL_CLASSES && Virtual(1) == VIRTUAL_CURRENT
    ensures Virtual(2) == VIRTUAL_MACHINE && Virtual(3) == VIRTUAL_USERS
    ensures Real(0) == REAL_CLASSES && Real(1) == REAL_CURRENT
    ensures Real(2) == REAL_MACHINE && Real(3) == REAL_USERS
  {
  }

  /** The four roots and their names in the file. The classes of the user have a root of their own, which is looked for
      before the user's. */
  lemma NamesWritten(keyname: Text)
    ensures ExportName(keyname) ==
            if Below(keyname, VIRTUAL_CLASSES) then Some(REAL_CLASSES + keyname[|VIRTUAL_CLASSES|..])
            else if Below(keyname, VIRTUAL_CURRENT) then Some(REAL_CURRENT + keyname[|VIRTUAL_CURRENT|..])
            else if Below(keyname, VIRTUAL_MACHINE) then Some(REAL_MACHINE + keyname[|VIRTUAL_MACHINE|..])
            else if Below(keyname, VIRTUAL_USERS) then Some(REAL_USERS + keyname[|VIRTUAL_USERS|..])
            else None
  {
    RootNames();
    BelowIsFolded(keyname, 0);
    BelowIsFolded(keyname, 1);
    BelowIsFolded(keyname, 2);
    BelowIsFolded(keyname, 3);
    FirstFolded(keyname);
    hide StartsFolded, RootOf, Below, Real, Virtual;
  }

  lemma FirstFolded(keyname: Text)
    ensures RootOf(keyname) ==
            if StartsFolded(keyname, 0) then Some(0)
            else if StartsFolded(keyname, 1) then Some(1)
            else if StartsFolded(keyname, 2) then Some(2)
            else if StartsFolded(keyname, 3) then Some(3)
            else None
  {
    hide StartsFolded;
    assert VirtualFrom(keyname, 4) == None;
    assert VirtualFrom(keyname, 3) == if StartsFolded(keyname, 3) then Some(3) else None;
    assert VirtualFrom(keyname, 2) == if StartsFolded(keyname, 2) then Some(2) else VirtualFrom(keyname, 3);
    assert VirtualFrom(keyname, 1) == if StartsFolded(keyname, 1) then Some(1) else VirtualFrom(keyname, 2);
  }

  /** The name under which a key of the file is written to the virtual registry, after a key of the given root: case
      matters here, and a root goes on for the keys below it. */
  lemma NamesRead(before: Option<Root>, keyName: Text)
    ensures var root := Choose(before, keyName);
            && (root.Some? ==> Real(root.value) <= keyName)
            && (if root.None? then None else Some(ImportName(root.value, keyName))) ==
               if REAL_CLASSES <= keyName && before != Some(1) then
                 Some(VIRTUAL_CLASSES + keyName[|REAL_CLASSES|..])
               else if REAL_CURRENT <= keyName then Some(VIRTUAL_CURRENT + keyName[|REAL_CURRENT|..])
               else if REAL_MACHINE <= keyName then Some(VIRTUAL_MACHINE + keyName[|REAL_MACHINE|..])
               else if REAL_USERS <= keyName then Some(VIRTUAL_USERS + keyName[|REAL_USERS|..])
               else None
  {
    RootNames();
    CacheAgrees(before, keyName);
  }

  // ----- the file -----

  const TITLE: Text := Ascii("Windows Registry Editor Version 5.00")

  /** Every line ends in CR and LF. */
  lemma LineWritten(line: Text, lines: seq<Text>)
    ensures WriteLines([]) == []
    ensures WriteLines([line] + lines) == line + [13, 10] + WriteLines(lines)
  {
    TailOfSum([line], lines);
  }

  /** The lines of a key are those of its values, one after the other. */
  lemma ValuesWritten(e: RegEntry, entries: seq<RegEntry>)
    ensures EntriesLines([]) == []
    ensures EntriesLines([e] + entries) == EntryLines(e.name, e.value) + EntriesLines(entries)
  {
    TailOfSum([e], entries);
  }

  /** A title and an empty line, and for each key its name in brackets, its values and an empty line. A key under no
      known root is left out. */
  lemma FileWritten(sections: seq<RegSection>, s: RegSection)
    ensures ExportText([]) == WriteLines([TITLE, []])
    ensures ExportText(sections + [s]) == ExportText(sections) + WriteLines(
              if ExportName(s.keyName).None? then []
              else [Ascii("[") + ExportName(s.keyName).value + Ascii("]")] + EntriesLines(s.values) + [[]])
  {
    OneSection(s);
    assert HEADER == TITLE;
    hide ExportName, WriteLines, SectionLines, EntriesLines, SectionsLines;
    FileOfSum([], []);
    FileOfSum(sections, [s]);
  }

  lemma FileOfSum(a: seq<RegSection>, b: seq<RegSection>)
    ensures ExportText([]) == WriteLines([HEADER, []])
    ensures ExportText(a + b) == ExportText(a) + WriteLines(SectionsLines(Exported(b)))
  {
    ExportedAppend(a, b);
    SectionsLinesAppend(Exported(a), Exported(b));
    Associate([HEADER, []], SectionsLines(Exported(a)), SectionsLines(Exported(b)));
    WriteLinesAppend(FileLines(Exported(a)), SectionsLines(Exported(b)));
    assert FileLines([]) == [HEADER, []];
  }

  lemma OneSection(s: RegSection)
    ensures SectionsLines(Exported([s])) ==
            if ExportName(s.keyName).None? then []
            else [Ascii("[") + ExportName(s.keyName).value + Ascii("]")] + EntriesLines(s.values) + [[]]
  {
    var name := ExportName(s.keyName);
    hide ExportName, EntriesLines;
    assert [s][1..] == [];
    if name.Some? {
      assert Exported([s]) == [RegSection(name.value, s.values)];
      assert Ascii("[") == [OPEN] && Ascii("]") == [CLOSE];
      assert SectionsLines(Exported([s])) == SectionLines(RegSection(name.value, s.values)) + [];
    }
  }
}
