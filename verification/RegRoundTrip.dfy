/** Import undoes export: exactly which registries come back from a `.reg` file as they went in. */
module RegRoundTrip {
  import opened Wrappers
  import opened Utf16
  import opened Sequences
  import opened TextLines
  import opened RegText
  import opened RegValues
  import opened RegValueRoundTrip
  import opened LineWrap
  import opened RegFile
  import opened RegSections
  import opened RegRoots
  import opened RegTransfer
  import HexComma
  import RegNumbers

  // ----- what an exported registry has to look like -----

  /** A value that can be kept in a file: a known kind, data that survive, and no line break outside hex data. */
  predicate GoodEntry(e: RegEntry) {
    && OneLine(e.name)
    && Survives(e.value) && !e.value.Unknown?
    && (e.value.String? ==> OneLine(e.value.text))
  }

  /** A key whose name can be kept in a file. */
  predicate GoodName(keyName: Text) {
    && OneLine(keyName)
    && Canonical(keyName)
    && (keyName != [] ==> keyName[|keyName| - 1] !in {OPEN, CLOSE})
  }

  predicate GoodSection(s: RegSection) {
    GoodName(s.keyName) && forall i :: 0 <= i < |s.values| ==> GoodEntry(s.values[i])
  }

  /** The root of the key before the `i`-th. */
  function Before(sections: seq<RegSection>, first: Option<Root>, i: nat): Option<Root>
    requires i < |sections|
  {
    if i == 0 then first else RootOf(sections[i - 1].keyName)
  }

  predicate InOrder(sections: seq<RegSection>, first: Option<Root>) {
    forall i :: 0 <= i < |sections| ==> InTurn(Before(sections, first, i), sections[i].keyName)
  }

  predicate GoodSections(sections: seq<RegSection>) {
    forall i :: 0 <= i < |sections| ==> GoodSection(sections[i])
  }

  lemma GoodCons(sections: seq<RegSection>)
    requires sections != []
    ensures GoodSections(sections) <==> GoodSection(sections[0]) && GoodSections(sections[1..])
  {
    var tail := sections[1..];
    assert forall i :: 0 <= i < |tail| ==> tail[i] == sections[i + 1];
    if GoodSection(sections[0]) && GoodSections(tail) {
      forall i | 0 <= i < |sections| ensures GoodSection(sections[i]) {
        if i > 0 { assert sections[i] == tail[i - 1]; }
      }
    }
  }

  lemma InOrderCons(sections: seq<RegSection>, first: Option<Root>)
    requires sections != []
    ensures InOrder(sections, first) <==>
            InTurn(first, sections[0].keyName) && InOrder(sections[1..], RootOf(sections[0].keyName))
  {
    var tail, next := sections[1..], RootOf(sections[0].keyName);
    forall i | 0 <= i < |tail|
      ensures InTurn(Before(tail, next, i), tail[i].keyName) <==>
              InTurn(Before(sections, first, i + 1), sections[i + 1].keyName)
    {
      assert tail[i] == sections[i + 1];
    }
    if InTurn(first, sections[0].keyName) && InOrder(tail, next) {
      forall i | 0 <= i < |sections| ensures InTurn(Before(sections, first, i), sections[i].keyName) {
        if i > 0 { assert InTurn(Before(tail, next, i - 1), tail[i - 1].keyName); }
      }
    }
  }

  // ----- whatever is read fits on one line -----

  predicate OneLineEntry(e: RegEntry) {
    OneLine(e.name) && (e.value.String? ==> OneLine(e.value.text)) && !e.value.Unsupported?
  }

  predicate OneLineSection(s: RegSection) {
    OneLine(s.keyName) && forall i :: 0 <= i < |s.values| ==> OneLineEntry(s.values[i])
  }

  predicate OneLineSections(sections: seq<RegSection>) {
    forall i :: 0 <= i < |sections| ==> OneLineSection(sections[i])
  }

  lemma {:induction false} TrimOneLine(s: Text, chars: set<Unit>)
    requires OneLine(s)
    ensures OneLine(Trim(s, chars))
  {
    TrimStartOneLine(s, chars);
  }

  lemma {:induction false} TrimStartOneLine(s: Text, chars: set<Unit>)
    requires OneLine(s)
    ensures OneLine(TrimStart(s, chars))
  {
    if s != [] && s[0] in chars {
      TrimStartOneLine(s[1..], chars);
    }
  }

  lemma {:induction false} ContinueOneLine(data: Text, lines: seq<Text>)
    requires OneLine(data) && AllOneLine(lines)
    requires Continue(data, lines).Ok?
    ensures var j := Continue(data, lines).value; OneLine(j.line) && AllOneLine(j.rest)
    decreases |lines|
  {
    if Continued(lines[0]) {
      var extra := lines[0][..|lines[0]| - 1];
      TrimOneLine(extra, WHITE_SPACE);
      ContinueOneLine(data + Trim(extra, WHITE_SPACE), lines[1..]);
    } else {
      TrimOneLine(lines[0], WHITE_SPACE);
    }
  }

  lemma {:induction false} ScanOneLine(line: Text, inString: bool)
    requires OneLine(line) && Scan(line, inString).Ok?
    ensures OneLine(Scan(line, inString).value.name)
    decreases |line|
  {
    if !inString && line[0] == EQUALS {
    } else if line[0] == QUOTE {
      ScanOneLine(line[1..], !inString);
    } else if line[0] == BACKSLASH {
      ScanOneLine(line[2..], inString);
    } else {
      ScanOneLine(line[1..], inString);
    }
  }

  lemma NextEntryOneLine(lines: seq<Text>)
    requires lines != [] && AllOneLine(lines) && NextEntry(lines).Ok?
    ensures var n := NextEntry(lines).value; OneLineEntry(n.entry) && AllOneLine(n.rest)
  {
    if Continued(lines[0]) {
      ContinueOneLine(lines[0][..|lines[0]| - 1], lines[1..]);
    }
    var line := JoinContinued(lines).value.line;
    ScanOneLine(line, false);
    var value := line[Scan(line, false).value.end + 1..];
    ValueOneLine(value);
  }

  lemma ValueOneLine(value: Text)
    requires OneLine(value) && ParseValue(value).Ok?
    ensures !ParseValue(value).value.Unsupported?
    ensures ParseValue(value).value.String? ==> OneLine(ParseValue(value).value.text)
  {
    if KindFrom(value, 0) == KindString && |value| >= 2 {
      UnescapeOneLine(value[1..|value| - 1]);
    }
  }

  lemma {:induction false} NextSectionOneLine(st: ReaderState, values: seq<RegEntry>)
    requires AllOneLine(st.lines) && (st.pending.Some? ==> OneLine(st.pending.value))
    requires forall i :: 0 <= i < |values| ==> OneLineEntry(values[i])
    requires NextSection(st, values).Ok?
    ensures var step := NextSection(st, values).value;
            && AllOneLine(step.after.lines) && (step.after.pending.Some? ==> OneLine(step.after.pending.value))
            && (step.section.Some? ==> OneLineSection(step.section.value))
    decreases |st.lines|
  {
    if st.lines != [] {
      var line, rest := st.lines[0], st.lines[1..];
      if line == [] {
        NextSectionOneLine(st.(lines := rest), values);
      } else if line[0] == OPEN {
        TrimOneLine(line, {OPEN, CLOSE});
        if st.pending.None? {
          NextSectionOneLine(ReaderState(rest, Some(KeyNameOf(line))), values);
        }
      } else if line[0] == QUOTE || line[0] == AT {
        NextEntryOneLine(st.lines);
        var next := NextEntry(st.lines).value;
        NextSectionOneLine(st.(lines := next.rest), values + [next.entry]);
      } else {
        NextSectionOneLine(st.(lines := rest), values);
      }
    }
  }

  lemma {:induction false} ReadAllOneLine(st: ReaderState)
    requires AllOneLine(st.lines) && (st.pending.Some? ==> OneLine(st.pending.value))
    requires ReadAll(st).Ok?
    ensures OneLineSections(ReadAll(st).value)
    decreases st.Left()
  {
    NextSectionOneLine(st, []);
    var step := NextSection(st, []).value;
    if step.section.Some? {
      ReadAllOneLine(step.after);
    }
  }

  lemma {:induction false} KnownOneLine(entries: seq<RegEntry>)
    requires forall i :: 0 <= i < |entries| ==> OneLineEntry(entries[i])
    ensures forall i :: 0 <= i < |Known(entries)| ==>
              OneLineEntry(Known(entries)[i]) && !Known(entries)[i].value.Unknown?
  {
    if entries != [] {
      KnownOneLine(entries[1..]);
    }
  }

  lemma {:induction false} ImportedOneLine(sections: seq<RegSection>, cache: Option<Root>)
    requires OneLineSections(sections)
    ensures forall i :: 0 <= i < |Imported(sections, cache)| ==>
              OneLineSection(Imported(sections, cache)[i])
    ensures forall i, j :: 0 <= i < |Imported(sections, cache)| && 0 <= j < |Imported(sections, cache)[i].values| ==>
              !Imported(sections, cache)[i].values[j].value.Unknown?
  {
    if sections != [] {
      var s := sections[0];
      var root := Choose(cache, s.keyName);
      assert OneLineSection(s);
      KnownOneLine(s.values);
      ImportedOneLine(sections[1..], root);
      if root.Some? {
        VirtualOneLine(root.value);
      }
    }
  }

  lemma VirtualOneLine(i: Root)
    ensures OneLine(Virtual(i)) && OneLine(Real(i))
  {
    assert OneLine(CLASSES) && OneLine(REAL_USER) && OneLine(VIRTUAL_USER);
  }

  // ----- what is written fits on its lines -----

  /** A registry whose names and strings have no line breaks and whose values are all of known kinds. */
  predicate Plain(sections: seq<RegSection>) {
    && OneLineSections(sections)
    && forall i, j :: 0 <= i < |sections| && 0 <= j < |sections[i].values| ==> !sections[i].values[j].value.Unknown?
  }

  lemma SolidOneLine(s: Text)
    requires Solid(s)
    ensures OneLine(s)
  {
  }

  lemma BodyOneLine(v: RegValue)
    requires v.String? ==> OneLine(v.text)
    ensures OneLine(Body(v)) && OneLine(Tag(v))
  {
    TagOneLine(v);
    match v
    case String(s) => EscapeOneLine(s);
    case DWord(n) => HexLikeOneLine(Body(v));
    case QWord(n) =>
      HexComma.HexShape(RegNumbers.QWordBytes(n));
      HexLikeOneLine(Body(v));
    case Unknown =>
    case Unsupported =>
    case _ =>
      WrappedBodySolid(v);
      SolidOneLine(Body(v));
  }

  lemma HexLikeOneLine(s: Text)
    requires HexLike(s)
    ensures OneLine(s)
  {
    HexLikeSolid(s);
    SolidOneLine(s);
  }

  lemma TagOneLine(v: RegValue)
    ensures OneLine(Tag(v))
  {
  }

  lemma {:induction false} EntriesLinesOneLine(entries: seq<RegEntry>)
    requires forall i :: 0 <= i < |entries| ==> OneLineEntry(entries[i])
    ensures AllOneLine(EntriesLines(entries))
  {
    if entries != [] {
      var e := entries[0];
      assert OneLineEntry(e);
      EscapeOneLine(e.name);
      BodyOneLine(e.value);
      WrappedOneLine(PrintName(e.name) + [EQUALS] + Tag(e.value), Body(e.value), Room(|PrintName(e.name)|, e.value));
      EntriesLinesOneLine(entries[1..]);
    }
  }

  lemma {:induction false} ExportedOneLine(sections: seq<RegSection>)
    requires OneLineSections(sections)
    ensures AllOneLine(SectionsLines(Exported(sections)))
  {
    if sections != [] {
      ExportedHead(sections);
      assert OneLineSection(sections[0]);
      SectionsLinesAppend(Exported([sections[0]]), Exported(sections[1..]));
      OneExportedLine(sections[0]);
      ExportedOneLine(sections[1..]);
    }
  }

  lemma OneExportedLine(s: RegSection)
    requires OneLineSection(s)
    ensures AllOneLine(SectionsLines(Exported([s])))
  {
    assert [s][1..] == [];
    if RootOf(s.keyName).Some? {
      var section := RegSection(ExportName(s.keyName).value, s.values);
      VirtualOneLine(RootOf(s.keyName).value);
      assert OneLine(section.keyName);
      EntriesLinesOneLine(s.values);
      assert Exported([s]) == [section] && [section][1..] == [];
      assert SectionsLines([section]) == SectionLines(section);
    }
  }

  /** The file of a plain registry is read back line by line, and then section by section. */
  lemma ReadExported(sections: seq<RegSection>)
    requires OneLineSections(sections)
    ensures ReadAll(ReaderState(ReadLines(ExportText(sections)), None)) == RereadSections(Exported(sections))
  {
    ExportedOneLine(sections);
    HeaderOneLine();
    WriteReadLines(FileLines(Exported(sections)));
    ReadPrintedFile(Exported(sections));
  }

  lemma HeaderOneLine()
    ensures OneLine(HEADER)
  {
  }

  // ----- one key there and back -----

  lemma {:induction false} TrimEndKeeps(a: Text, b: Text, chars: set<Unit>)
    requires a != [] && a[|a| - 1] !in chars
    ensures a <= TrimEnd(a + b, chars)
    decreases |b|
  {
    if b != [] {
      assert (a + b)[..|a + b| - 1] == a + b[..|b| - 1];
      TrimEndKeeps(a, b[..|b| - 1], chars);
    } else {
      assert a + b == a;
    }
  }

  /** What is left of the end of a real name after reading its header. */
  function Kept(i: Root, rest: Text): Text {
    var name := KeyNameOf(HeaderLine(Real(i) + rest));
    if |Real(i)| <= |name| then name[|Real(i)|..] else []
  }

  lemma TrimmedHeader(i: Root, rest: Text)
    ensures Real(i) <= KeyNameOf(HeaderLine(Real(i) + rest)) <= Real(i) + rest
  {
    hide Real, TrimEnd, KeyNameOf, HeaderLine;
    var name := Real(i) + rest;
    RealStart(i);
    RealEnd(i);
    assert name[0] == Real(i)[0];
    HeaderTrimmed(name);
    Associate(Real(i), rest, [CLOSE]);
    TrimEndKeeps(Real(i), rest + [CLOSE], {OPEN, CLOSE});
  }

  lemma RealStart(i: Root)
    ensures Real(i) != [] && Real(i)[0] !in {OPEN, CLOSE}
  {
    assert Real(i)[0] == 'H' as int;
  }

  /** A name that does not start with a bracket only loses brackets at its end. */
  lemma HeaderTrimmed(name: Text)
    requires name != [] && name[0] !in {OPEN, CLOSE}
    ensures KeyNameOf(HeaderLine(name)) == TrimEnd(name + [CLOSE], {OPEN, CLOSE})
    ensures TrimEnd(name + [CLOSE], {OPEN, CLOSE}) <= name
  {
    var line, s, brackets := HeaderLine(name), name + [CLOSE], {OPEN, CLOSE};
    assert line[0] == OPEN && line[1..] == s && s[0] == name[0];
    assert TrimStart(s, brackets) == s && TrimStart(line, brackets) == s;
    assert s[..|s| - 1] == name;
    assert TrimEnd(s, brackets) == TrimEnd(name, brackets);
  }

  lemma HeaderKeepsRoot(i: Root, rest: Text)
    ensures KeyNameOf(HeaderLine(Real(i) + rest)) == Real(i) + Kept(i, rest)
    ensures Kept(i, rest) <= rest
    ensures Kept(i, rest) == rest <==> (rest != [] ==> rest[|rest| - 1] !in {OPEN, CLOSE})
  {
    TrimmedHeader(i, rest);
    Between(Real(i), rest, KeyNameOf(HeaderLine(Real(i) + rest)));
    KeyNameRead(Real(i) + rest);
    BracketsAtEnd(i, rest);
  }

  lemma Between(a: Text, b: Text, t: Text)
    requires a <= t <= a + b
    ensures t == a + t[|a|..]
    ensures t[|a|..] <= b
    ensures t[|a|..] == b <==> t == a + b
  {
    assert (a + b)[|a|..] == b;
    assert t == (a + b)[..|t|];
    assert t[|a|..] == b[..|t| - |a|];
  }

  lemma BracketsAtEnd(i: Root, rest: Text)
    ensures KeepsBrackets(Real(i) + rest) <==> (rest != [] ==> rest[|rest| - 1] !in {OPEN, CLOSE})
  {
    var name := Real(i) + rest;
    RealEnd(i);
    assert name[0] == Real(i)[0] == 'H' as int;
    assert name[|name| - 1] == if rest != [] then rest[|rest| - 1] else Real(i)[|Real(i)| - 1];
  }

  lemma RealEnd(i: Root)
    ensures Real(i)[|Real(i)| - 1] !in {OPEN, CLOSE}
    ensures Virtual(i)[|Virtual(i)| - 1] !in {OPEN, CLOSE}
  {
  }

  lemma {:induction false} RereadKnown(entries: seq<RegEntry>)
    requires RereadEntries(entries).Ok?
    requires forall i :: 0 <= i < |entries| ==> !entries[i].value.Unknown? && !entries[i].value.Unsupported?
    ensures Known(RereadEntries(entries).value) == RereadEntries(entries).value
  {
    if entries != [] {
      var tail := RereadEntries(entries[1..]).value;
      RereadKnown(entries[1..]);
      assert RereadEntries(entries).value[1..] == tail;
    }
  }

  lemma GoodNameOf(keyName: Text)
    requires OneLine(keyName) && RootOf(keyName).Some?
    ensures GoodName(keyName) <==> Canonical(keyName) && Kept(RootOf(keyName).value, RestOf(keyName)) == RestOf(keyName)
  {
    var i := RootOf(keyName).value;
    HeaderKeepsRoot(i, RestOf(keyName));
    RootFits(keyName, i);
    if Canonical(keyName) {
      LastOfSum(Virtual(i), keyName);
      RealEnd(i);
    }
  }

  lemma LastOfSum(head: Text, whole: Text)
    requires head <= whole && head != []
    ensures whole[|whole| - 1] == if |whole| > |head| then whole[|head|..][|whole| - |head| - 1] else head[|head| - 1]
  {
  }

  lemma {:induction false} BackAgain(sections: seq<RegSection>, cache: Option<Root>)
    requires Plain(sections)
    ensures match RereadSections(Exported(sections))
            case Throws(_) => !GoodSections(sections)
            case Ok(read) => Imported(read, cache) == sections <==> GoodSections(sections) && InOrder(sections, cache)
  {
    if sections != [] {
      var s, tail := sections[0], sections[1..];
      assert OneLineSection(s);
      assert Plain(tail);
      hide InOrder, GoodSections, Plain, OneLineSection, Kept, Choose, RestOf, RereadEntries, Known, ImportName,
           Imported;
      GoodCons(sections);
      InOrderCons(sections, cache);
      if RootOf(s.keyName).None? {
        RootlessLost(sections, cache);
      } else {
        HeadBack(s, cache);
        var i := RootOf(s.keyName).value;
        var section := RegSection(ExportName(s.keyName).value, s.values);
        assert Exported(sections) == [section] + Exported(tail);
        assert Exported(sections)[1..] == Exported(tail);
        if RereadEntries(s.values).Ok? && RereadSections(Exported(tail)).Ok? {
          var rest := RereadSections(Exported(tail)).value;
          var read := RegSection(Real(i) + Kept(i, RestOf(s.keyName)), RereadEntries(s.values).value);
          HeaderKeepsRoot(i, RestOf(s.keyName));
          assert RereadSections(Exported(sections)) == Ok([read] + rest);
          hide RereadSections, Exported;
          var root := Choose(cache, read.keyName);
          BackAgain(tail, root);
          KeyBack(cache, s.keyName, Kept(i, RestOf(s.keyName)));
          ConsBack(s, tail, read, rest, cache);
          assert sections == [s] + tail;
        } else {
          BackAgain(tail, cache);
        }
      }
    }
  }

  /** A key under no known root is not in the file, so something is missing afterwards. */
  lemma RootlessLost(sections: seq<RegSection>, cache: Option<Root>)
    requires sections != [] && RootOf(sections[0].keyName).None?
    ensures !GoodSection(sections[0])
    ensures var r := RereadSections(Exported(sections)); r.Ok? ==> Imported(r.value, cache) != sections
  {
    var tail := sections[1..];
    assert Exported(sections) == Exported(tail);
    if RereadSections(Exported(tail)).Ok? {
      RereadLength(Exported(tail));
    }
  }

  /** A section and the rest come back separately. */
  lemma ConsBack(s: RegSection, tail: seq<RegSection>, read: RegSection, rest: seq<RegSection>, cache: Option<Root>)
    requires Choose(cache, read.keyName).Some?
    ensures var root := Choose(cache, read.keyName);
            Imported([read] + rest, cache) == [s] + tail <==>
            RegSection(ImportName(root.value, read.keyName), Known(read.values)) == s && Imported(rest, root) == tail
  {
    var root := Choose(cache, read.keyName);
    var imported := RegSection(ImportName(root.value, read.keyName), Known(read.values));
    assert ([read] + rest)[1..] == rest;
    SameCons(imported, Imported(rest, root), s, tail);
  }

  lemma SameCons(a: RegSection, x: seq<RegSection>, b: RegSection, y: seq<RegSection>)
    ensures [a] + x == [b] + y <==> a == b && x == y
  {
    assert ([a] + x)[1..] == x && ([b] + y)[1..] == y && ([a] + x)[0] == a && ([b] + y)[0] == b;
  }

  lemma {:induction false} RereadLength(sections: seq<RegSection>)
    requires RereadSections(sections).Ok?
    ensures |RereadSections(sections).value| == |sections|
  {
    if sections != [] {
      RereadLength(sections[1..]);
    }
  }

  /** One section comes back exactly when it is good and its turn is right. */
  lemma HeadBack(s: RegSection, cache: Option<Root>)
    requires OneLineSection(s) && RootOf(s.keyName).Some?
    requires forall j :: 0 <= j < |s.values| ==> !s.values[j].value.Unknown?
    ensures match RereadEntries(s.values)
            case Throws(_) => !GoodSection(s)
            case Ok(values) =>
              var i := RootOf(s.keyName).value;
              var name := Real(i) + Kept(i, RestOf(s.keyName));
              var root := Choose(cache, name);
              && root.Some?
              && (RegSection(ImportName(root.value, name), Known(values)) == s <==>
                  GoodSection(s) && InTurn(cache, s.keyName))
  {
    var i := RootOf(s.keyName).value;
    HeaderKeepsRoot(i, RestOf(s.keyName));
    KeyBack(cache, s.keyName, Kept(i, RestOf(s.keyName)));
    GoodNameOf(s.keyName);
    RereadEntriesSame(s.values);
    assert (forall j :: 0 <= j < |s.values| ==> GoodEntry(s.values[j])) <==> EntriesSurvive(s.values) by {
      assert forall j :: 0 <= j < |s.values| ==> OneLineEntry(s.values[j]);
    }
    if RereadEntries(s.values).Ok? {
      RereadKnown(s.values);
    }
  }

  // ----- the whole way -----

  /** Import undoes export exactly for the registries whose every key and value can be kept in a file and whose classes
      root is found by the search: for all listings of keys, whatever their names, values and order. */
  lemma ImportUndoesExport(sections: seq<RegSection>)
    ensures ImportText(ExportText(sections)) == Ok(sections) <==> GoodSections(sections) && InOrder(sections, None)
  {
    if GoodSections(sections) {
      GoodIsPlain(sections);
      PlainBack(sections);
    } else if ImportText(ExportText(sections)) == Ok(sections) {
      ImportedIsPlain(ExportText(sections));
      PlainBack(sections);
    }
  }

  lemma ImportedIsPlain(contents: Text)
    requires ImportText(contents).Ok?
    ensures Plain(ImportText(contents).value)
  {
    var st := ReaderState(ReadLines(contents), None);
    ReadAllOneLine(st);
    ImportedOneLine(ReadAll(st).value, None);
  }

  lemma PlainBack(sections: seq<RegSection>)
    requires Plain(sections)
    ensures ImportText(ExportText(sections)) == Ok(sections) <==> GoodSections(sections) && InOrder(sections, None)
  {
    ReadExported(sections);
    BackAgain(sections, None);
  }

  lemma GoodIsPlain(sections: seq<RegSection>)
    requires GoodSections(sections)
    ensures Plain(sections)
  {
    forall i | 0 <= i < |sections|
      ensures OneLineSection(sections[i])
      ensures forall j :: 0 <= j < |sections[i].values| ==> !sections[i].values[j].value.Unknown?
    {
      assert GoodSection(sections[i]);
    }
  }
}
