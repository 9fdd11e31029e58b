/** Export of a registry tree to a `.reg` file and import from one (PackageEditor/RegistryFunctions.cs). */
module RegTransfer {
  import opened Wrappers
  import opened Utf16
  import opened Sequences
  import opened TextLines
  import opened RegValues
  import opened RegFile
  import opened RegSections
  import opened RegRoots

  /** A registry key as the export walks it. `name` is the full name, which the key below it continues. */
  datatype RegKey = RegKey(name: Text, values: seq<RegEntry>, subkeys: seq<RegKey>)

  // ----- export -----

  /** The key itself, named relative to the root; the root has no name and is left out. */
  function OwnSection(rootKeyLen: nat, key: RegKey): seq<RegSection> {
    if rootKeyLen >= |key.name| then [] else [RegSection(key.name[rootKeyLen..], key.values)]
  }

  /** All keys of a tree, each before the keys below it. */
  function Listing(rootKeyLen: nat, key: RegKey): seq<RegSection>
    decreases key, |key.subkeys| + 1
  {
    OwnSection(rootKeyLen, key) + ListingFrom(rootKeyLen, key, 0)
  }

  function ListingFrom(rootKeyLen: nat, key: RegKey, t: nat): seq<RegSection>
    requires t <= |key.subkeys|
    decreases key, |key.subkeys| - t
  {
    if t == |key.subkeys| then []
    else Listing(rootKeyLen, key.subkeys[t]) + ListingFrom(rootKeyLen, key, t + 1)
  }

  /** The sections in the file: real names, and nothing for a key under no known root. */
  function Exported(sections: seq<RegSection>): (r: seq<RegSection>)
    ensures |r| <= |sections|
  {
    if sections == [] then
      []
    else
      (if ExportName(sections[0].keyName).None? then []
       else [RegSection(ExportName(sections[0].keyName).value, sections[0].values)]) + Exported(sections[1..])
  }

  lemma ExportedHead(sections: seq<RegSection>)
    requires sections != []
    ensures Exported(sections) == Exported([sections[0]]) + Exported(sections[1..])
  {
    assert [sections[0]][1..] == [];
    assert Exported([sections[0]]) ==
      if ExportName(sections[0].keyName).None? then []
      else [RegSection(ExportName(sections[0].keyName).value, sections[0].values)];
  }

  lemma {:induction false} ExportedAppend(a: seq<RegSection>, b: seq<RegSection>)
    ensures Exported(a + b) == Exported(a) + Exported(b)
  {
    if a == [] {
      assert a + b == b;
    } else {
      var first := Exported([a[0]]);
      ExportedHead(a);
      ExportedHead(a + b);
      TailOfSum(a, b);
      ExportedAppend(a[1..], b);
      Associate(first, Exported(a[1..]), Exported(b));
    }
  }

  lemma {:induction false} SectionsLinesAppend(a: seq<RegSection>, b: seq<RegSection>)
    ensures SectionsLines(a + b) == SectionsLines(a) + SectionsLines(b)
  {
    if a == [] {
      assert a + b == b;
    } else {
      TailOfSum(a, b);
      SectionsLinesAppend(a[1..], b);
      Associate(SectionLines(a[0]), SectionsLines(a[1..]), SectionsLines(b));
    }
  }

  /** The text that exporting some keys adds to the file. */
  function PrintSections(sections: seq<RegSection>): Text {
    WriteLines(SectionsLines(Exported(sections)))
  }

  lemma PrintSectionsAppend(a: seq<RegSection>, b: seq<RegSection>)
    ensures PrintSections([]) == []
    ensures PrintSections(a + b) == PrintSections(a) + PrintSections(b)
  {
    ExportedAppend(a, b);
    SectionsLinesAppend(Exported(a), Exported(b));
    WriteLinesAppend(SectionsLines(Exported(a)), SectionsLines(Exported(b)));
  }

  function ExportText(sections: seq<RegSection>): Text {
    WriteLines(FileLines(Exported(sections)))
  }

  lemma {:induction false} EntriesLinesAppend(a: seq<RegEntry>, b: seq<RegEntry>)
    ensures EntriesLines(a + b) == EntriesLines(a) + EntriesLines(b)
  {
    if a == [] {
      assert a + b == b;
    } else {
      TailOfSum(a, b);
      EntriesLinesAppend(a[1..], b);
      Associate(EntryLines(a[0].name, a[0].value), EntriesLines(a[1..]), EntriesLines(b));
    }
  }

  lemma OneMoreEntry(done: seq<RegEntry>, e: RegEntry)
    ensures WriteLines(EntriesLines(done + [e])) ==
            WriteLines(EntriesLines(done)) + (PrintEntry(e.name, e.value) + CRLF)
  {
    var lines := EntryLines(e.name, e.value);
    EntriesLinesAppend(done, [e]);
    assert [e][1..] == [];
    assert EntriesLines([e]) == lines + [];
    assert EntriesLines(done + [e]) == EntriesLines(done) + lines;
    WriteLinesAppend(EntriesLines(done), lines);
    EntryIsLines(e.name, e.value);
  }

  lemma EntryWritten(before: Text, values: seq<RegEntry>, i: nat)
    requires i < |values|
    ensures before + WriteLines(EntriesLines(values[..i + 1])) ==
            before + WriteLines(EntriesLines(values[..i])) + (PrintEntry(values[i].name, values[i].value) + CRLF)
  {
    hide WriteLines, EntriesLines, PrintEntry;
    OneMoreEntry(values[..i], values[i]);
    assert values[..i + 1] == values[..i] + [values[i]];
    Associate(before, WriteLines(EntriesLines(values[..i])), PrintEntry(values[i].name, values[i].value) + CRLF);
  }

  lemma WriteOneLine(line: Text)
    ensures WriteLines([line]) == line + CRLF
  {
    assert [line][1..] == [];
    assert line + CRLF + [] == line + CRLF;
  }

  lemma PrintOneSection(s: RegSection, name: Text)
    requires ExportName(s.keyName) == Some(name)
    ensures PrintSections([s]) == (HeaderLine(name) + CRLF) + WriteLines(EntriesLines(s.values)) + ([] + CRLF)
  {
    var section := RegSection(name, s.values);
    var entries := EntriesLines(s.values);
    assert [s][1..] == [] && [section][1..] == [];
    assert Exported([s]) == [section];
    assert SectionsLines([section]) == SectionLines(section);
    WriteLinesAppend([HeaderLine(name)] + entries, [[]]);
    WriteLinesAppend([HeaderLine(name)], entries);
    WriteOneLine(HeaderLine(name));
    WriteOneLine([]);
  }

  lemma PrintNoSection(s: RegSection)
    requires ExportName(s.keyName).None?
    ensures PrintSections([s]) == []
  {
    assert [s][1..] == [];
    assert Exported([s]) == [];
  }

  class RegWriter {
    var sw: Text

    constructor ()
      ensures sw == []
    {
      sw := [];
    }

    method WriteLine(line: Text)
      modifies this
      ensures sw == old(sw) + (line + CRLF)
    {
      sw := sw + (line + CRLF);
    }

    method WriteRegKeyValues(rootKeyLen: nat, key: RegKey)
      modifies this
      ensures sw == old(sw) + PrintSections(OwnSection(rootKeyLen, key))
    {
      PrintSectionsAppend([], []);
      if rootKeyLen > |key.name| {
        return;
      }
      var keyname := key.name[rootKeyLen..];
      if |keyname| == 0 {
        return;
      }
      var found := FindExportName(keyname);
      assert OwnSection(rootKeyLen, key) == [RegSection(keyname, key.values)];
      if found.None? {
        PrintNoSection(RegSection(keyname, key.values));
        return;
      }
      PrintOneSection(RegSection(keyname, key.values), found.value);
      WriteLine(HeaderLine(found.value));
      WriteValues(key.values);
      WriteLine([]);
      var header, entries := HeaderLine(found.value) + CRLF, WriteLines(EntriesLines(key.values));
      Associate(old(sw), header, entries);
      Associate(old(sw), header + entries, [] + CRLF);
    }

    method WriteValues(values: seq<RegEntry>)
      modifies this
      ensures sw == old(sw) + WriteLines(EntriesLines(values))
    {
      assert values[..0] == [] && old(sw) + WriteLines(EntriesLines([])) == old(sw);
      hide WriteLines, EntriesLines;
      for i := 0 to |values|
        invariant sw == old(sw) + WriteLines(EntriesLines(values[..i]))
      {
        var entry := PrintValue(values[i].name, values[i].value);
        EntryWritten(old(sw), values, i);
        WriteLine(entry);
      }
      assert values[..|values|] == values;
    }

    method WriteRegKeys(rootKeyLen: nat, key: RegKey)
      modifies this
      ensures sw == old(sw) + PrintSections(Listing(rootKeyLen, key))
      decreases key
    {
      hide PrintSections, OwnSection;
      WriteRegKeyValues(rootKeyLen, key);
      ghost var own, below := OwnSection(rootKeyLen, key), ListingFrom(rootKeyLen, key, 0);
      PrintSectionsAppend(own, below);
      Associate(old(sw), PrintSections(own), PrintSections(below));
      for t := 0 to |key.subkeys|
        invariant old(sw) + PrintSections(Listing(rootKeyLen, key)) ==
                  sw + PrintSections(ListingFrom(rootKeyLen, key, t))
      {
        ghost var here, later := Listing(rootKeyLen, key.subkeys[t]), ListingFrom(rootKeyLen, key, t + 1);
        PrintSectionsAppend(here, later);
        Associate(sw, PrintSections(here), PrintSections(later));
        WriteRegKeys(rootKeyLen, key.subkeys[t]);
      }
      PrintSectionsAppend([], []);
      assert sw + [] == sw;
    }
  }

  lemma HeaderLines(lines: seq<Text>)
    ensures WriteLines([HEADER, []] + lines) == [] + (HEADER + CRLF) + ([] + CRLF) + WriteLines(lines)
  {
    assert [HEADER, []] + lines == [HEADER] + ([[]] + lines);
    WriteLinesAppend([HEADER], [[]] + lines);
    WriteLinesAppend([[]], lines);
    WriteOneLine(HEADER);
    WriteOneLine([]);
    Associate(HEADER + CRLF, [] + CRLF, WriteLines(lines));
  }

  /** The file written for the keys at and below `key`, named relative to the root of the virtual registry. */
  method ExportVirtualRegistryToFile(root: RegKey, key: RegKey) returns (contents: Text)
    ensures contents == ExportText(Listing(|root.name| + 1, key))
  {
    var rootKeyLen := |root.name| + 1;
    var writer := new RegWriter();
    writer.WriteLine(HEADER);
    writer.WriteLine([]);
    writer.WriteRegKeys(rootKeyLen, key);
    contents := writer.sw;
    HeaderLines(SectionsLines(Exported(Listing(rootKeyLen, key))));
  }

  // ----- import -----

  /** Values of an unknown kind are not written to the registry. */
  function Known(entries: seq<RegEntry>): (r: seq<RegEntry>)
    ensures |r| <= |entries|
  {
    if entries == [] then []
    else (if entries[0].value.Unknown? then [] else [entries[0]]) + Known(entries[1..])
  }

  /** Exactly these are left out, and the order stays. */
  lemma {:induction false} KnownKept(a: seq<RegEntry>, b: seq<RegEntry>)
    ensures Known(a + b) == Known(a) + Known(b)
    ensures (forall i :: 0 <= i < |a| ==> a[i].value.Unknown?) ==> Known(a) == []
    ensures (forall i :: 0 <= i < |a| ==> !a[i].value.Unknown?) ==> Known(a) == a
  {
    if a == [] {
      assert a + b == b;
    } else {
      TailOfSum(a, b);
      HeadTail(a);
      assert forall i :: 0 <= i < |a[1..]| ==> a[1..][i] == a[i + 1];
      KnownKept(a[1..], b);
      var first := if a[0].value.Unknown? then [] else [a[0]];
      Associate(first, Known(a[1..]), Known(b));
    }
  }

  /** The keys an import writes, by their virtual names, when the previous key had root `cache`. */
  function Imported(sections: seq<RegSection>, cache: Option<Root>): (r: seq<RegSection>)
    ensures |r| <= |sections|
  {
    if sections == [] then
      []
    else
      var keyName := sections[0].keyName;
      var root := Choose(cache, keyName);
      (if root.None? then [] else [RegSection(ImportName(root.value, keyName), Known(sections[0].values))]) +
        Imported(sections[1..], root)
  }

  function ImportText(contents: Text): Result<seq<RegSection>> {
    var sections :- ReadAll(ReaderState(ReadLines(contents), None));
    Ok(Imported(sections, None))
  }

  /** A registry: the values of every key, by the name of the key. */
  type Registry = map<Text, map<Text, RegValue>>

  /** The key, or one below it: the names go on with a backslash. */
  predicate AtOrBelow(base: Text, keyName: Text) {
    keyName == base || base + SEPARATOR <= keyName
  }

  /** `CreateSubKey`: the key and the keys above it exist afterwards; those that are new have no values. */
  function CreateSubKey(store: Registry, keyName: Text): (r: Registry)
    ensures keyName in r && forall k :: k in r <==> k in store || AtOrBelow(k, keyName)
    ensures forall k :: k in r ==> r[k] == if k in store then store[k] else map[]
  {
    (map k | k in AtAndAbove(keyName) :: map[]) + store
  }

  lemma OnTheWay(k: Text, keyName: Text)
    ensures AtOrBelow(k, keyName) <==>
            |k| <= |keyName| && k == keyName[..|k|] && (|k| == |keyName| || keyName[|k|] == BACKSLASH)
  {
    if k + SEPARATOR <= keyName {
      assert (k + SEPARATOR)[|k|] == BACKSLASH;
      assert keyName[..|k|] == (k + SEPARATOR)[..|k|];
    }
    if |k| < |keyName| && k == keyName[..|k|] && keyName[|k|] == BACKSLASH {
      assert keyName[..|k| + 1] == k + SEPARATOR;
    }
  }

  /** The names of a key and of all keys above it. */
  function AtAndAbove(keyName: Text): (r: set<Text>)
    ensures forall k :: k in r <==> AtOrBelow(k, keyName)
  {
    var r := set i | 0 <= i <= |keyName| && (i == |keyName| || keyName[i] == BACKSLASH) :: keyName[..i];
    assert forall k :: k in r <==> AtOrBelow(k, keyName) by {
      forall k ensures k in r <==> AtOrBelow(k, keyName) {
        OnTheWay(k, keyName);
      }
    }
    r
  }

  function SetValues(store: Registry, keyName: Text, entries: seq<RegEntry>): (r: Registry)
    requires keyName in store
    ensures r.Keys == store.Keys
    decreases |entries|
  {
    if entries == [] then store
    else SetValues(store[keyName := store[keyName][entries[0].name := entries[0].value]], keyName, entries[1..])
  }

  /** The registry after some keys are written. */
  function Stored(store: Registry, sections: seq<RegSection>): Registry
    decreases |sections|
  {
    if sections == [] then store
    else
      var section := sections[0];
      Stored(SetValues(CreateSubKey(store, section.keyName), section.keyName, section.values), sections[1..])
  }

  lemma NoRootBehindDash(keyName: Text)
    requires [DASH, BACKSLASH] <= keyName
    ensures FirstMatch(keyName) == None
  {
    assert keyName[0] == DASH;
    forall j: Root ensures !(Real(j) <= keyName) { assert Real(j)[0] == 'H' as int; }
  }

  const DASH: Unit := '-' as int

  class RegImporter {
    var store: Registry

    constructor (store: Registry)
      ensures this.store == store
    {
      this.store := store;
    }

    /** The root for the next key: the previous one, or the first that starts the key. A dash stands for no root. */
    method ChooseRoot(virtReplaceKey: Option<Root>, keyName: Text) returns (root: Option<Root>)
      ensures root == Choose(virtReplaceKey, keyName)
    {
      root := virtReplaceKey;
      var current := if root.None? then [DASH] else ROOTS[root.value].0;
      if !(current + SEPARATOR <= keyName) {
        root := None;
        var i := 0;
        while i < |ROOTS|
          invariant 0 <= i <= 4 && root == None
          invariant FirstMatch(keyName) == RealFrom(keyName, i)
        {
          if ROOTS[i].0 <= keyName {
            root := Some(i);
            break;
          }
          i := i + 1;
        }
      } else if root.None? {
        NoRootBehindDash(keyName);
      }
    }

    method SetKnownValues(keyName: Text, values: seq<RegEntry>)
      requires keyName in store
      modifies this
      ensures store == SetValues(old(store), keyName, Known(values))
    {
      for i := 0 to |values|
        invariant keyName in store
        invariant SetValues(old(store), keyName, Known(values)) == SetValues(store, keyName, Known(values[i..]))
      {
        assert values[i..][1..] == values[i + 1..];
        if values[i].value.Unknown? {
          assert Known(values[i..]) == Known(values[i + 1..]);
        } else {
          assert Known(values[i..]) == [values[i]] + Known(values[i + 1..]);
          assert Known(values[i..])[1..] == Known(values[i + 1..]);
          store := store[keyName := store[keyName][values[i].name := values[i].value]];
        }
      }
    }

    method ImportVirtualRegistryFromFile(contents: Text) returns (r: Result<()>)
      modifies this
      ensures r.Throws? <==> ImportText(contents).Throws?
      ensures r.Ok? ==> store == Stored(old(store), ImportText(contents).value)
      ensures store == Stored(old(store), Imported(ReadUntilError(ReaderState(ReadLines(contents), None)), None))
    {
      var regFile := new RegFileReader(contents);
      var virtReplaceKey: Option<Root> := None;
      ghost var all := ReadAll(regFile.State());
      ghost var goal := Stored(store, Imported(ReadUntilError(regFile.State()), None));
      while true
        invariant fresh(regFile)
        invariant all.Throws? <==> ReadAll(regFile.State()).Throws?
        invariant goal == Stored(store, Imported(ReadUntilError(regFile.State()), virtReplaceKey))
        decreases regFile.State().Left()
      {
        ghost var before, cache := regFile.State(), virtReplaceKey;
        var next := regFile.ReadKey();
        if next.Throws? {
          return Throws(next.error);
        }
        if next.value.None? {
          break;
        }
        var section := next.value.value;
        virtReplaceKey := ChooseRoot(virtReplaceKey, section.keyName);
        StoredCons(store, section, ReadUntilError(regFile.State()), cache);
        ghost var start := store;
        if virtReplaceKey.Some? {
          var virtKey := ImportName(virtReplaceKey.value, section.keyName);
          store := CreateSubKey(store, virtKey);
          SetKnownValues(virtKey, section.values);
        }
        assert store == StoreSection(start, virtReplaceKey, section);
      }
      r := Ok(());
    }
  }

  /** What reading one section does to the registry. */
  function StoreSection(store: Registry, root: Option<Root>, section: RegSection): Registry
    requires root.Some? ==> Real(root.value) <= section.keyName
  {
    if root.None? then
      store
    else
      var virtKey := ImportName(root.value, section.keyName);
      SetValues(CreateSubKey(store, virtKey), virtKey, Known(section.values))
  }

  lemma StoredCons(store: Registry, section: RegSection, rest: seq<RegSection>, cache: Option<Root>)
    ensures var root := Choose(cache, section.keyName);
            Stored(store, Imported([section] + rest, cache)) ==
            Stored(StoreSection(store, root, section), Imported(rest, root))
  {
    ImportedCons(section, rest, cache);
    hide Imported, Stored, SetValues, CreateSubKey, Known;
    var root := Choose(cache, section.keyName);
    if root.Some? {
      var written := RegSection(ImportName(root.value, section.keyName), Known(section.values));
      StoredWritten(store, written, Imported(rest, root));
    }
  }

  lemma ImportedCons(section: RegSection, rest: seq<RegSection>, cache: Option<Root>)
    ensures var root := Choose(cache, section.keyName);
            Imported([section] + rest, cache) ==
            if root.None? then Imported(rest, root)
            else [RegSection(ImportName(root.value, section.keyName), Known(section.values))] + Imported(rest, root)
  {
    TailOfSum([section], rest);
    var root := Choose(cache, section.keyName);
    assert [] + Imported(rest, root) == Imported(rest, root);
  }

  lemma StoredWritten(store: Registry, written: RegSection, rest: seq<RegSection>)
    ensures Stored(store, [written] + rest) ==
            Stored(SetValues(CreateSubKey(store, written.keyName), written.keyName, written.values), rest)
  {
    TailOfSum([written], rest);
  }
}
