/** Reading a printed file section by section: every section once, in order, with exactly its own values. */
module RegSections {
  import opened Wrappers
  import opened Utf16
  import opened Sequences
  import opened TextLines
  import opened HexComma
  import opened RegText
  import opened RegValues
  import opened RegValueRoundTrip
  import opened LineWrap
  import opened RegFile
  import RegNumbers

  const HEADER: Text := Ascii("Windows Registry Editor Version 5.00")

  function EntriesLines(entries: seq<RegEntry>): seq<Text> {
    if entries == [] then [] else EntryLines(entries[0].name, entries[0].value) + EntriesLines(entries[1..])
  }

  function HeaderLine(keyName: Text): Text {
    [OPEN] + keyName + [CLOSE]
  }

  /** The lines `writeRegKeyValues` prints for one key. */
  function SectionLines(section: RegSection): seq<Text> {
    [HeaderLine(section.keyName)] + EntriesLines(section.values) + [[]]
  }

  function SectionsLines(sections: seq<RegSection>): seq<Text> {
    if sections == [] then [] else SectionLines(sections[0]) + SectionsLines(sections[1..])
  }

  function FileLines(sections: seq<RegSection>): seq<Text> {
    [HEADER, []] + SectionsLines(sections)
  }

  /** What reading makes of printed sections: names lose brackets at their ends, values are reread one by one, and the
      first value that throws ends the reading. */
  function RereadEntries(entries: seq<RegEntry>): Result<seq<RegEntry>> {
    if entries == [] then
      Ok([])
    else
      var v :- Reread(entries[0].value);
      var rest :- RereadEntries(entries[1..]);
      Ok([RegEntry(entries[0].name, v)] + rest)
  }

  function RereadSections(sections: seq<RegSection>): Result<seq<RegSection>> {
    if sections == [] then
      Ok([])
    else
      var values :- RereadEntries(sections[0].values);
      var rest :- RereadSections(sections[1..]);
      Ok([RegSection(KeyNameOf(HeaderLine(sections[0].keyName)), values)] + rest)
  }

  // ----- one entry -----

  predicate HexLike(s: Text) {
    forall i :: 0 <= i < |s| ==> s[i] == COMMA || DigitValue(s[i]).Some?
  }

  lemma HexLikeSolid(s: Text)
    requires HexLike(s)
    ensures Solid(s)
  {
    forall i | 0 <= i < |s| ensures s[i] !in WHITE_SPACE && s[i] != BACKSLASH {
      assert s[i] == COMMA || DigitValue(s[i]).Some?;
    }
  }

  lemma {:induction false} MultiBodyHexLike(texts: seq<Text>)
    ensures HexLike(MultiBody(texts))
  {
    if texts != [] {
      HexShape(GetBytes(texts[0]));
      ZerosHexLike();
      MultiBodyHexLike(texts[1..]);
    }
  }

  lemma WrappedBodySolid(v: RegValue)
    requires Wraps(v)
    ensures Solid(Body(v))
  {
    hide HexLike, Solid, Body;
    match v {
      case Binary(bytes) => BinaryHexLike(bytes);
      case ExpandString(s) => ExpandHexLike(s);
      case MultiString(ss) => MultiHexLike(ss);
    }
    HexLikeSolid(Body(v));
  }

  lemma BinaryHexLike(bytes: seq<Byte>)
    ensures HexLike(Body(Binary(bytes)))
  {
    HexShape(bytes);
  }

  lemma ZerosHexLike()
    ensures HexLike(ZEROS)
  {
  }

  lemma ExpandHexLike(s: Text)
    ensures HexLike(Body(ExpandString(s)))
  {
    ZerosHexLike();
    HexShape(GetBytes(s));
  }

  lemma MultiHexLike(texts: seq<Text>)
    ensures HexLike(Body(MultiString(texts)))
  {
    ZerosHexLike();
    MultiBodyHexLike(texts);
  }

  /** The whole entry on one line. */
  function LogicalLine(name: Text, v: RegValue): Text {
    PrintName(name) + [EQUALS] + Tag(v) + Body(v)
  }

  lemma ShortEntryEnds(name: Text, v: RegValue)
    requires !Wraps(v)
    ensures !Continued(LogicalLine(name, v))
  {
    var line := LogicalLine(name, v);
    match v
    case DWord(n) =>
      assert line[|line| - 1] == RegNumbers.PrintDWord(n)[7];
    case QWord(n) =>
      var bytes := RegNumbers.QWordBytes(n);
      HexShape(bytes);
      assert line[|line| - 1] == Hex(bytes)[|Hex(bytes)| - 1];
    case String(s) =>
      assert line[|line| - 1] == QUOTE;
    case Unknown =>
      assert line[|line| - 1] == HEX_0[|HEX_0| - 1];
    case Unsupported =>
      assert line[|line| - 1] == EQUALS;
  }

  lemma JoinEntry(name: Text, v: RegValue, rest: seq<Text>)
    ensures JoinContinued(EntryLines(name, v) + rest) == Ok(Joined(LogicalLine(name, v), rest))
  {
    var prefix := PrintName(name) + [EQUALS] + Tag(v);
    if Wraps(v) {
      WrappedBodySolid(v);
      assert prefix[|prefix| - 1] == Tag(v)[|Tag(v)| - 1];
      JoinWrapped(prefix, Body(v), Room(|PrintName(name)|, v), rest);
    } else {
      ShortEntryEnds(name, v);
      var lines := EntryLines(name, v) + rest;
      assert lines[0] == LogicalLine(name, v) && lines[1..] == rest;
    }
  }

  lemma ParseLogicalLine(name: Text, v: RegValue)
    ensures ParseEntry(LogicalLine(name, v)) ==
            match Reread(v)
            case Throws(e) => Throws(e)
            case Ok(w) => Ok(RegEntry(name, w))
  {
    assert LogicalLine(name, v) == PrintName(name) + [EQUALS] + (Tag(v) + Body(v));
    ParseNamed(name, Tag(v) + Body(v));
    ParsePrinted(v);
  }

  lemma ParseNamed(name: Text, value: Text)
    ensures ParseEntry(PrintName(name) + [EQUALS] + value) ==
            match ParseValue(value)
            case Throws(e) => Throws(e)
            case Ok(w) => Ok(RegEntry(name, w))
  {
    ScanInvertsPrint(name, value);
    assert (PrintName(name) + [EQUALS] + value)[|PrintName(name)| + 1..] == value;
  }

  /** A printed entry is read as its name and its reread value, however many lines it takes. */
  lemma NextPrinted(name: Text, v: RegValue, rest: seq<Text>)
    ensures NextEntry(EntryLines(name, v) + rest) ==
            match Reread(v)
            case Throws(e) => Throws(e)
            case Ok(w) => Ok(EntryRead(RegEntry(name, w), rest))
  {
    JoinEntry(name, v, rest);
    ParseLogicalLine(name, v);
  }

  lemma EntryStart(name: Text, v: RegValue)
    ensures EntryLines(name, v)[0] != [] && EntryLines(name, v)[0][0] in {QUOTE, AT}
  {
    assert EntryLines(name, v)[0][0] == PrintName(name)[0];
  }

  // ----- sections -----

  lemma SkipLine(line: Text, rest: seq<Text>, pending: Option<Text>, values: seq<RegEntry>)
    requires line == [] || line[0] !in {OPEN, QUOTE, AT}
    ensures NextSection(ReaderState([line] + rest, pending), values) == NextSection(ReaderState(rest, pending), values)
  {
    assert ([line] + rest)[1..] == rest;
  }

  /** A header ends the section before it, if there is one. */
  lemma HeaderStep(keyName: Text, rest: seq<Text>, pending: Option<Text>, values: seq<RegEntry>)
    ensures NextSection(ReaderState([HeaderLine(keyName)] + rest, pending), values) ==
            var next := ReaderState(rest, Some(KeyNameOf(HeaderLine(keyName))));
            if pending.None? then NextSection(next, values)
            else Ok(ReadStep(Some(RegSection(pending.value, values)), next))
  {
    assert ([HeaderLine(keyName)] + rest)[1..] == rest;
    assert HeaderLine(keyName)[0] == OPEN;
  }

  /** Reading on after some values with other lines only adds what is read from those lines. */
  function After(values: seq<RegEntry>, entries: seq<RegEntry>, st: ReaderState): Result<ReadStep> {
    var more :- RereadEntries(entries);
    NextSection(st, values + more)
  }

  lemma {:induction false} ReadEntries(entries: seq<RegEntry>, st: ReaderState, values: seq<RegEntry>)
    ensures NextSection(ReaderState(EntriesLines(entries) + st.lines, st.pending), values) == After(values, entries, st)
    decreases |entries|
  {
    if entries == [] {
      assert [] + st.lines == st.lines && values + [] == values;
      assert ReaderState(st.lines, st.pending) == st;
    } else {
      var e, others := entries[0], EntriesLines(entries[1..]) + st.lines;
      Associate(EntryLines(e.name, e.value), EntriesLines(entries[1..]), st.lines);
      ReadEntry(e, others, st.pending, values);
      var reread := Reread(e.value);
      if reread.Ok? {
        var read := RegEntry(e.name, reread.value);
        ReadEntries(entries[1..], st, values + [read]);
        var more := RereadEntries(entries[1..]);
        if more.Ok? {
          Associate(values, [read], more.value);
        }
      }
    }
  }

  lemma ReadEntry(e: RegEntry, others: seq<Text>, pending: Option<Text>, values: seq<RegEntry>)
    ensures NextSection(ReaderState(EntryLines(e.name, e.value) + others, pending), values) ==
            if Reread(e.value).Throws? then Throws(Reread(e.value).error)
            else NextSection(ReaderState(others, pending), values + [RegEntry(e.name, Reread(e.value).value)])
  {
    EntryStart(e.name, e.value);
    NextPrinted(e.name, e.value, others);
    var lines := EntryLines(e.name, e.value) + others;
    assert lines[0] == EntryLines(e.name, e.value)[0];
  }

  /** The state in the middle of a file: the header of one section is read, its values and further sections are not. */
  function Midway(keyName: Text, values: seq<RegEntry>, sections: seq<RegSection>): ReaderState {
    ReaderState(EntriesLines(values) + ([[]] + SectionsLines(sections)), Some(keyName))
  }

  /** A call in that state returns the section begun, and leaves the reader in the same situation one section on. */
  lemma ReadMidway(keyName: Text, values: seq<RegEntry>, sections: seq<RegSection>)
    ensures NextSection(Midway(keyName, values, sections), []) ==
            match RereadEntries(values)
            case Throws(e) => Throws(e)
            case Ok(es) => Ok(ReadStep(Some(RegSection(keyName, es)),
              if sections == [] then ReaderState([], None)
              else Midway(KeyNameOf(HeaderLine(sections[0].keyName)), sections[0].values, sections[1..])))
  {
    var tail := SectionsLines(sections);
    ReadEntries(values, ReaderState([[]] + tail, Some(keyName)), []);
    if RereadEntries(values).Ok? {
      var es := RereadEntries(values).value;
      assert [] + es == es;
      SkipLine([], tail, Some(keyName), es);
      if sections != [] {
        SectionStart(sections);
        HeaderStep(sections[0].keyName, AfterHeader(sections), Some(keyName), es);
      }
    }
  }

  function AfterHeader(sections: seq<RegSection>): seq<Text>
    requires sections != []
  {
    EntriesLines(sections[0].values) + ([[]] + SectionsLines(sections[1..]))
  }

  lemma SectionStart(sections: seq<RegSection>)
    requires sections != []
    ensures SectionsLines(sections) == [HeaderLine(sections[0].keyName)] + AfterHeader(sections)
  {
    var header, entries := [HeaderLine(sections[0].keyName)], EntriesLines(sections[0].values);
    var rest := SectionsLines(sections[1..]);
    assert SectionsLines(sections) == header + entries + [[]] + rest;
    hide SectionsLines, EntriesLines, HeaderLine;
    Associate(header + entries, [[]], rest);
    Associate(header, entries, [[]] + rest);
  }

  lemma {:induction false} ReadAllMidway(keyName: Text, values: seq<RegEntry>, sections: seq<RegSection>)
    ensures ReadAll(Midway(keyName, values, sections)) ==
            match RereadEntries(values)
            case Throws(e) => Throws(e)
            case Ok(es) =>
              match RereadSections(sections)
              case Throws(e) => Throws(e)
              case Ok(rest) => Ok([RegSection(keyName, es)] + rest)
    decreases |sections|
  {
    ReadMidway(keyName, values, sections);
    if RereadEntries(values).Ok? {
      if sections == [] {
        assert ReadAll(ReaderState([], None)) == Ok([]);
      } else {
        ReadAllMidway(KeyNameOf(HeaderLine(sections[0].keyName)), sections[0].values, sections[1..]);
      }
    }
  }

  /** Calling `readKey` until it returns false on a printed file gives every section once and in order, each with its
      own values, although each call reads one header too many. */
  lemma ReadPrintedFile(sections: seq<RegSection>)
    ensures ReadAll(ReaderState(FileLines(sections), None)) == RereadSections(sections)
  {
    var tail := SectionsLines(sections);
    assert [HEADER, []] + tail == [HEADER] + ([[]] + tail);
    SkipLine(HEADER, [[]] + tail, None, []);
    SkipLine([], tail, None, []);
    if sections == [] {
      assert NextSection(ReaderState([], None), []) == Ok(ReadStep(None, ReaderState([], None)));
    } else {
      var s := sections[0];
      SectionStart(sections);
      HeaderStep(s.keyName, AfterHeader(sections), None, []);
      ReadAllMidway(KeyNameOf(HeaderLine(s.keyName)), s.values, sections[1..]);
    }
  }

  // ----- which sections come back -----

  /** No bracket at either end, where trimming would remove it. */
  predicate KeepsBrackets(keyName: Text) {
    keyName != [] ==> keyName[0] !in {OPEN, CLOSE} && keyName[|keyName| - 1] !in {OPEN, CLOSE}
  }

  lemma KeyNameRead(keyName: Text)
    ensures KeyNameOf(HeaderLine(keyName)) == keyName <==> KeepsBrackets(keyName)
  {
    var brackets := {OPEN, CLOSE};
    var line := HeaderLine(keyName);
    assert line[0] == OPEN && line[1..] == keyName + [CLOSE];
    if KeepsBrackets(keyName) {
      var s := keyName + [CLOSE];
      if keyName == [] {
        assert s == [CLOSE] && s[1..] == [];
        assert TrimStart(s, brackets) == [];
        assert TrimStart(line, brackets) == [];
      } else {
        assert TrimStart(s, brackets) == s;
        assert s[..|s| - 1] == keyName;
        assert TrimEnd(keyName, brackets) == keyName;
      }
    } else {
      var t := TrimStart(line, brackets);
      var trimmed := TrimEnd(t, brackets);
      assert trimmed != [] ==> trimmed[0] == t[0];
      assert trimmed != keyName;
    }
  }

  predicate EntriesSurvive(entries: seq<RegEntry>) {
    forall i :: 0 <= i < |entries| ==> Survives(entries[i].value)
  }

  predicate SectionsSurvive(sections: seq<RegSection>) {
    forall i :: 0 <= i < |sections| ==> KeepsBrackets(sections[i].keyName) && EntriesSurvive(sections[i].values)
  }

  lemma {:induction false} RereadEntriesSame(entries: seq<RegEntry>)
    ensures RereadEntries(entries) == Ok(entries) <==> EntriesSurvive(entries)
  {
    if entries != [] {
      var head, tail := entries[0], entries[1..];
      assert entries == [head] + tail;
      RereadSame(head.value);
      RereadEntriesSame(tail);
      assert EntriesSurvive(entries) <==> Survives(head.value) && EntriesSurvive(tail);
      if RereadEntries(entries) == Ok(entries) {
        var r := RereadEntries(entries).value;
        assert r[0] == head && r[1..] == tail;
        assert [RegEntry(head.name, Reread(head.value).value)] + RereadEntries(tail).value == r;
        assert RereadEntries(tail).value == tail;
      } else if EntriesSurvive(entries) {
        assert false;
      }
    }
  }

  /** Printed sections are read back as they were exactly when all their names and values survive. */
  lemma {:induction false} RereadSectionsSame(sections: seq<RegSection>)
    ensures RereadSections(sections) == Ok(sections) <==> SectionsSurvive(sections)
  {
    if sections != [] {
      var head, tail := sections[0], sections[1..];
      assert sections == [head] + tail;
      KeyNameRead(head.keyName);
      RereadEntriesSame(head.values);
      RereadSectionsSame(tail);
      assert SectionsSurvive(sections) <==>
        KeepsBrackets(head.keyName) && EntriesSurvive(head.values) && SectionsSurvive(tail);
      if RereadSections(sections) == Ok(sections) {
        var r := RereadSections(sections).value;
        assert r[0] == head && r[1..] == tail;
        assert RereadSections(tail).value == r[1..];
      }
    }
  }
}
