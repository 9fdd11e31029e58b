/** Exporting the whole virtual registry, and what an import leaves in an empty one. */
module RegTrees {
  import opened Wrappers
  import opened Utf16
  import opened CaseFold
  import opened RegValues
  import opened RegFile
  import opened RegRoots
  import opened RegTransfer
  import opened RegRoundTrip
  import opened RegPlaces

  /** Every subkey is named by its parent's name, a backslash and a name of its own without backslashes. */
  predicate WellNamed(key: RegKey) {
    forall t :: 0 <= t < |key.subkeys| ==>
      && key.name + SEPARATOR < key.subkeys[t].name
      && BACKSLASH !in Leaf(key, t)
      && WellNamed(key.subkeys[t])
  }

  /** The own name of a subkey. */
  function Leaf(key: RegKey, t: nat): Text
    requires t < |key.subkeys|
  {
    if |key.name| + 1 <= |key.subkeys[t].name| then key.subkeys[t].name[|key.name| + 1..] else []
  }

  lemma BelowTrans(base: Text, keyName: Text, lower: Text)
    requires AtOrBelow(base, keyName) && keyName + SEPARATOR <= lower
    ensures AtOrBelow(base, lower)
  {
    assert lower[..|keyName|] == keyName;
  }

  /** The listing of a subtree starts with its top and stays at or below it. */
  lemma {:induction false} ListingBelow(len: nat, key: RegKey, base: Text)
    requires WellNamed(key) && len < |key.name| && AtOrBelow(base, key.name[len..])
    ensures Listing(len, key) != [] && Listing(len, key)[0].keyName == key.name[len..]
    ensures forall i :: 0 <= i < |Listing(len, key)| ==> AtOrBelow(base, Listing(len, key)[i].keyName)
    decreases key, |key.subkeys| + 1
  {
    ListingFromBelow(len, key, base, 0);
  }

  lemma {:induction false} ListingFromBelow(len: nat, key: RegKey, base: Text, t: nat)
    requires WellNamed(key) && len < |key.name| && AtOrBelow(base, key.name[len..]) && t <= |key.subkeys|
    ensures forall i :: 0 <= i < |ListingFrom(len, key, t)| ==> AtOrBelow(base, ListingFrom(len, key, t)[i].keyName)
    decreases key, |key.subkeys| - t
  {
    if t < |key.subkeys| {
      var sub := key.subkeys[t];
      assert key.name[len..] + SEPARATOR == (key.name + SEPARATOR)[len..] == sub.name[len..|key.name| + 1];
      assert key.name[len..] + SEPARATOR <= sub.name[len..];
      BelowTrans(base, key.name[len..], sub.name[len..]);
      ListingBelow(len, sub, base);
      ListingFromBelow(len, key, base, t + 1);
    }
  }

  /** Keys below a top key have its root. */
  lemma SameRoot(top: Text, keyName: Text)
    requires AtOrBelow(top, keyName)
    ensures RootOf(keyName) == RootOf(top)
  {
    if keyName != top {
      StartsSame(top, keyName, 0);
      StartsSame(top, keyName, 1);
      StartsSame(top, keyName, 2);
      StartsSame(top, keyName, 3);
      VirtualFromSame(top, keyName, 0);
    }
  }

  lemma {:induction false} VirtualFromSame(a: Text, b: Text, i: nat)
    requires i <= 4 && forall j: Root :: StartsFolded(a, j) <==> StartsFolded(b, j)
    ensures VirtualFrom(a, i) == VirtualFrom(b, i)
    decreases 4 - i
  {
    if i < 4 {
      VirtualFromSame(a, b, i + 1);
    }
  }

  lemma StartsSame(top: Text, keyName: Text, i: Root)
    requires top + SEPARATOR <= keyName
    ensures StartsFolded(top, i) <==> StartsFolded(keyName, i)
  {
    var v, a, b := Fold(Virtual(i)), Fold(top + SEPARATOR), Fold(keyName + SEPARATOR);
    assert forall p :: 0 <= p < |a| ==> a[p] == b[p];
    assert a == b[..|a|];
    if |Virtual(i)| > |top| {
      assert FoldUnit(Virtual(i)[|top|]) != BACKSLASH;
      assert v[|top|] != a[|top|] == b[|top|];
    } else {
      assert v <= b ==> v == a[..|v|];
    }
  }

  lemma InOrderHead(head: RegSection, tail: seq<RegSection>, first: Option<Root>)
    ensures InOrder([head] + tail, first) <==> InTurn(first, head.keyName) && InOrder(tail, RootOf(head.keyName))
  {
    assert ([head] + tail)[1..] == tail;
    InOrderCons([head] + tail, first);
  }

  lemma {:induction false} InOrderAppend(a: seq<RegSection>, b: seq<RegSection>, first: Option<Root>)
    ensures InOrder(a + b, first) <==>
            InOrder(a, first) && InOrder(b, if a == [] then first else RootOf(a[|a| - 1].keyName))
  {
    if a == [] {
      assert a + b == b;
    } else {
      var head, tail := a[0], a[1..];
      assert a + b == [head] + (tail + b) && a == [head] + tail;
      InOrderAppend(tail, b, RootOf(head.keyName));
      InOrderHead(head, tail + b, first);
      InOrderHead(head, tail, first);
    }
  }

  /** Within the keys of one root, each key after the first is in its turn. */
  lemma {:induction false} BlockInOrder(block: seq<RegSection>, top: Text, before: Option<Root>)
    requires block != [] && forall i :: 0 <= i < |block| ==> AtOrBelow(top, block[i].keyName)
    ensures InOrder(block, before) <==> InTurn(before, block[0].keyName)
  {
    forall i | 0 <= i < |block|
      ensures RootOf(block[i].keyName) == RootOf(top)
    {
      SameRoot(top, block[i].keyName);
    }
    assert forall i :: 1 <= i < |block| ==> InTurn(Before(block, before, i), block[i].keyName);
    if InTurn(before, block[0].keyName) {
      forall i | 0 <= i < |block| ensures InTurn(Before(block, before, i), block[i].keyName) {}
    } else {
      assert !InTurn(Before(block, before, 0), block[0].keyName);
    }
  }

  /** The root of the top key before the `t`-th. */
  function TopBefore(root: RegKey, t: nat): Option<Root>
    requires t <= |root.subkeys|
  {
    if t == 0 then None else RootOf(Leaf(root, t - 1))
  }

  /** No top key of the classes root directly follows one of the user root. */
  predicate ClassesApart(root: RegKey, t: nat) {
    forall u :: t <= u < |root.subkeys| && RootOf(Leaf(root, u)) == Some(USER_CLASSES) ==>
      TopBefore(root, u) != Some(USER)
  }

  lemma TopInTurn(before: Option<Root>, top: Text)
    requires BACKSLASH !in top
    ensures InTurn(before, top) <==> (RootOf(top) == Some(USER_CLASSES) ==> before != Some(USER))
  {
    if RootOf(top) == Some(USER) {
      RootFits(top, USER);
      assert CLASSES[0] == BACKSLASH;
      assert RestOf(top) != [] ==> RestOf(top)[0] in top;
    }
  }

  /** The keys of one top key, in front of others. */
  lemma BlockThenRest(block: seq<RegSection>, top: Text, before: Option<Root>, rest: seq<RegSection>)
    requires BACKSLASH !in top && block != [] && block[0].keyName == top
    requires forall i :: 0 <= i < |block| ==> AtOrBelow(top, block[i].keyName)
    ensures InOrder(block + rest, before) <==>
            (RootOf(top) == Some(USER_CLASSES) ==> before != Some(USER)) && InOrder(rest, RootOf(top))
  {
    BlockInOrder(block, top, before);
    SameRoot(top, block[|block| - 1].keyName);
    InOrderAppend(block, rest, before);
    TopInTurn(before, top);
  }

  lemma TopStep(root: RegKey, t: nat)
    requires WellNamed(root) && t < |root.subkeys|
    ensures InOrder(ListingFrom(|root.name| + 1, root, t), TopBefore(root, t)) <==>
            && (RootOf(Leaf(root, t)) == Some(USER_CLASSES) ==> TopBefore(root, t) != Some(USER))
            && InOrder(ListingFrom(|root.name| + 1, root, t + 1), RootOf(Leaf(root, t)))
  {
    var len, sub := |root.name| + 1, root.subkeys[t];
    assert WellNamed(sub) && BACKSLASH !in Leaf(root, t);
    ListingBelow(len, sub, Leaf(root, t));
    BlockThenRest(Listing(len, sub), Leaf(root, t), TopBefore(root, t), ListingFrom(len, root, t + 1));
  }

  lemma {:induction false} TreeInOrder(root: RegKey, t: nat)
    requires WellNamed(root) && t <= |root.subkeys|
    ensures InOrder(ListingFrom(|root.name| + 1, root, t), TopBefore(root, t)) <==> ClassesApart(root, t)
    decreases |root.subkeys| - t
  {
    hide *;
    if t == |root.subkeys| {
      NoneLeft(root);
    } else {
      TopStep(root, t);
      ApartFrom(root, t);
      TreeInOrder(root, t + 1);
      NextTop(root, t);
    }
  }

  lemma NoneLeft(root: RegKey)
    ensures InOrder(ListingFrom(|root.name| + 1, root, |root.subkeys|), TopBefore(root, |root.subkeys|))
    ensures ClassesApart(root, |root.subkeys|)
  {
  }

  lemma NextTop(root: RegKey, t: nat)
    requires t < |root.subkeys|
    ensures TopBefore(root, t + 1) == RootOf(Leaf(root, t))
  {
  }

  lemma ApartFrom(root: RegKey, t: nat)
    requires t < |root.subkeys|
    ensures ClassesApart(root, t) <==>
            && (RootOf(Leaf(root, t)) == Some(USER_CLASSES) ==> TopBefore(root, t) != Some(USER))
            && ClassesApart(root, t + 1)
  {
  }

  lemma RootNotListed(root: RegKey)
    ensures Listing(|root.name| + 1, root) == ListingFrom(|root.name| + 1, root, 0)
  {
    assert OwnSection(|root.name| + 1, root) == [];
  }

  /** Every key of the tree can be kept in a file, with its values. */
  ghost predicate GoodTree(len: nat, key: RegKey) {
    forall p :: Named(len, key, p) ==> GoodSection(RegSection(KeyAt(key, p).name[len..], KeyAt(key, p).values))
  }

  lemma GoodListing(len: nat, key: RegKey)
    ensures GoodSections(Listing(len, key)) <==> GoodTree(len, key)
  {
    hide GoodSection;
    TreeListed(len, key);
    var listing, places := Listing(len, key), Places(len, key);
    if GoodSections(listing) {
      forall p | Named(len, key, p)
        ensures GoodSection(RegSection(KeyAt(key, p).name[len..], KeyAt(key, p).values))
      {
        var i :| 0 <= i < |places| && places[i] == p;
        assert SectionAt(len, key, p, listing[i]);
      }
    }
    if GoodTree(len, key) {
      forall i | 0 <= i < |listing| ensures GoodSection(listing[i]) {
        assert SectionAt(len, key, places[i], listing[i]);
      }
    }
  }

  /** Exporting a tree and importing the file gives back each of its keys, once, with its own name and values. */
  ghost predicate ComesBack(len: nat, key: RegKey) {
    var read := ImportText(ExportText(Listing(len, key)));
    read.Ok? && GivesBack(len, key, read.value)
  }

  lemma ComesBackWhen(len: nat, key: RegKey)
    ensures ComesBack(len, key) <==> GoodTree(len, key) && InOrder(Listing(len, key), None)
  {
    hide ImportText, ExportText, Listing, GivesBack, GoodTree, GoodSections, InOrder;
    var listing := Listing(len, key);
    ImportUndoesExport(listing);
    GoodListing(len, key);
    if ImportText(ExportText(listing)).Ok? {
      OnlyListing(len, key, ImportText(ExportText(listing)).value);
    }
  }

  /** Exporting a whole registry and importing the file gives back every key with its values exactly when each of them
      can be kept in a file and the classes of the user do not come right after the user's other keys. */
  lemma WholeRegistry(root: RegKey)
    requires WellNamed(root)
    ensures ComesBack(|root.name| + 1, root) <==> GoodTree(|root.name| + 1, root) && ClassesApart(root, 0)
  {
    hide ComesBack, GoodTree, ClassesApart, InOrder;
    RootNotListed(root);
    ComesBackWhen(|root.name| + 1, root);
    TreeInOrder(root, 0);
  }

  /** Exporting one key with all below it: here the classes of the user are never read after another key of the user,
      but a key of the user's own that starts with `Software\Classes` is, for the same reason, not taken for one. */
  lemma AnyKey(rootKeyLen: nat, key: RegKey)
    requires WellNamed(key) && rootKeyLen < |key.name|
    ensures var name := key.name[rootKeyLen..];
            ComesBack(rootKeyLen, key) <==>
            GoodTree(rootKeyLen, key) && !(RootOf(name) == Some(USER) && CLASSES <= RestOf(name))
  {
    hide ComesBack, GoodTree, InOrder;
    var listing, name := Listing(rootKeyLen, key), key.name[rootKeyLen..];
    ListingBelow(rootKeyLen, key, name);
    ComesBackWhen(rootKeyLen, key);
    BlockInOrder(listing, name, None);
  }

  /** What happens otherwise: a key of the classes root that is read after one of the user root ends up among the user's
      own keys. */
  lemma ClassesMoved(rest: Text)
    ensures var keyName := Virtual(USER_CLASSES) + rest;
            && ExportName(keyName).Some?
            && Choose(Some(USER), ExportName(keyName).value) == Some(USER)
            && ImportName(USER, ExportName(keyName).value) == VIRTUAL_USER + CLASSES + rest
  {
    var keyName := Virtual(USER_CLASSES) + rest;
    var v := Virtual(USER_CLASSES);
    var s := keyName + SEPARATOR;
    assert forall p :: 0 <= p < |v| ==> Fold(s)[p] == Fold(v)[p];
    assert Fold(s)[..|v|] == Fold(v);
    assert RootOf(keyName) == Some(USER_CLASSES);
    assert RestOf(keyName) == rest;
    var name := Real(USER_CLASSES) + rest;
    assert ExportName(keyName) == Some(name);
    ChooseAfter(Some(USER), USER_CLASSES, rest);
    assert name == REAL_USER + (CLASSES + rest);
    assert name[|REAL_USER|..] == CLASSES + rest;
  }

  // ----- the imported registry -----

  function EntryMap(entries: seq<RegEntry>): map<Text, RegValue> {
    if entries == [] then map[] else map[entries[0].name := entries[0].value] + EntryMap(entries[1..])
  }

  function ValuesAt(store: Registry, keyName: Text): map<Text, RegValue> {
    if keyName in store then store[keyName] else map[]
  }

  lemma {:induction false} SetValuesAt(store: Registry, keyName: Text, entries: seq<RegEntry>)
    requires keyName in store
    ensures SetValues(store, keyName, entries) == store[keyName := store[keyName] + EntryMap(entries)]
    decreases |entries|
  {
    if entries != [] {
      var e := entries[0];
      var next := store[keyName := store[keyName][e.name := e.value]];
      SetValuesAt(next, keyName, entries[1..]);
      var values := store[keyName] + EntryMap(entries);
      assert next[keyName] + EntryMap(entries[1..]) == values;
      assert next[keyName := values] == store[keyName := values];
    } else {
      assert store[keyName] + map[] == store[keyName];
      assert store[keyName := store[keyName]] == store;
    }
  }

  /** Writing one section makes its key and those above it, and changes the values of its own key only. */
  lemma WriteSection(store: Registry, s: RegSection, keyName: Text)
    ensures var r := SetValues(CreateSubKey(store, s.keyName), s.keyName, s.values);
            && (keyName in r <==> keyName in store || AtOrBelow(keyName, s.keyName))
            && ValuesAt(r, keyName) ==
               if keyName == s.keyName then ValuesAt(store, keyName) + EntryMap(s.values) else ValuesAt(store, keyName)
  {
    SetValuesAt(CreateSubKey(store, s.keyName), s.keyName, s.values);
    assert ValuesAt(CreateSubKey(store, s.keyName), keyName) == ValuesAt(store, keyName);
  }

  /** The keys an import leaves, and the values of the keys it does not write. */
  lemma {:induction false} StoredKeys(store: Registry, sections: seq<RegSection>, keyName: Text)
    ensures keyName in Stored(store, sections) <==>
            keyName in store || exists i :: 0 <= i < |sections| && AtOrBelow(keyName, sections[i].keyName)
    ensures (forall i :: 0 <= i < |sections| ==> sections[i].keyName != keyName) ==>
            ValuesAt(Stored(store, sections), keyName) == ValuesAt(store, keyName)
    decreases |sections|
  {
    hide SetValues, CreateSubKey, EntryMap, AtOrBelow, ValuesAt;
    if sections != [] {
      var s, tail := sections[0], sections[1..];
      WriteSection(store, s, keyName);
      StoredKeys(SetValues(CreateSubKey(store, s.keyName), s.keyName, s.values), tail, keyName);
      assert forall i :: 0 <= i < |tail| ==> tail[i] == sections[i + 1];
      if i :| 0 <= i < |sections| && AtOrBelow(keyName, sections[i].keyName) {
        assert i > 0 ==> AtOrBelow(keyName, tail[i - 1].keyName);
      }
    }
  }

  predicate DistinctKeys(sections: seq<RegSection>) {
    forall i, j :: 0 <= i < j < |sections| ==> sections[i].keyName != sections[j].keyName
  }

  /** Every key written has its old values, overridden by those in the file. */
  lemma {:induction false} StoredValues(store: Registry, sections: seq<RegSection>, i: nat)
    requires DistinctKeys(sections) && i < |sections|
    ensures sections[i].keyName in Stored(store, sections)
    ensures ValuesAt(Stored(store, sections), sections[i].keyName) ==
            ValuesAt(store, sections[i].keyName) + EntryMap(sections[i].values)
    decreases |sections|
  {
    var s, tail, keyName := sections[0], sections[1..], sections[i].keyName;
    var next := SetValues(CreateSubKey(store, s.keyName), s.keyName, s.values);
    WriteSection(store, s, keyName);
    TailDistinct(sections);
    if i == 0 {
      StoredKeys(next, tail, keyName);
    } else {
      StoredValues(next, tail, i - 1);
    }
  }

  lemma TailDistinct(sections: seq<RegSection>)
    requires DistinctKeys(sections) && sections != []
    ensures DistinctKeys(sections[1..])
    ensures forall i :: 1 <= i < |sections| ==>
              sections[1..][i - 1] == sections[i] && sections[i].keyName != sections[0].keyName
  {
  }

  predicate DistinctNames(entries: seq<RegEntry>) {
    forall i, j :: 0 <= i < j < |entries| ==> entries[i].name != entries[j].name
  }

  lemma {:induction false} EntryMapOf(entries: seq<RegEntry>, name: Text)
    ensures name in EntryMap(entries) <==> exists i :: 0 <= i < |entries| && entries[i].name == name
    ensures DistinctNames(entries) ==>
              forall i :: 0 <= i < |entries| && entries[i].name == name ==> EntryMap(entries)[name] == entries[i].value
  {
    if entries != [] {
      var tail := entries[1..];
      assert forall k :: 0 <= k < |tail| ==> tail[k] == entries[k + 1];
      EntryMapOf(tail, name);
      if name in EntryMap(tail) {
        var k :| 0 <= k < |tail| && tail[k].name == name;
        assert entries[k + 1].name == name;
      }
      forall i | 0 <= i < |entries| && entries[i].name == name
        ensures name in EntryMap(entries)
        ensures DistinctNames(entries) ==> EntryMap(entries)[name] == entries[i].value
      {
        if i > 0 { assert tail[i - 1].name == name; }
      }
    }
  }

  /** A registry holds exactly the given names, kinds and data under a key. */
  predicate Holds(store: Registry, keyName: Text, entries: seq<RegEntry>) {
    && keyName in store
    && (forall j :: 0 <= j < |entries| ==>
          entries[j].name in store[keyName] && store[keyName][entries[j].name] == entries[j].value)
    && (forall name :: name in store[keyName] ==> exists j :: 0 <= j < |entries| && entries[j].name == name)
  }

  lemma StoredHolds(sections: seq<RegSection>, i: nat)
    requires DistinctKeys(sections) && i < |sections| && DistinctNames(sections[i].values)
    ensures Holds(Stored(map[], sections), sections[i].keyName, sections[i].values)
  {
    StoredAt(sections, i);
    MapHolds(Stored(map[], sections), sections[i].keyName, sections[i].values);
  }

  lemma StoredAt(sections: seq<RegSection>, i: nat)
    requires DistinctKeys(sections) && i < |sections|
    ensures sections[i].keyName in Stored(map[], sections)
    ensures Stored(map[], sections)[sections[i].keyName] == EntryMap(sections[i].values)
  {
    hide Stored, EntryMap;
    StoredValues(map[], sections, i);
    assert map[] + EntryMap(sections[i].values) == EntryMap(sections[i].values);
  }

  lemma MapHolds(store: Registry, keyName: Text, entries: seq<RegEntry>)
    requires keyName in store && store[keyName] == EntryMap(entries) && DistinctNames(entries)
    ensures Holds(store, keyName, entries)
  {
    forall name
      ensures name in EntryMap(entries) <==> exists j :: 0 <= j < |entries| && entries[j].name == name
      ensures forall j :: 0 <= j < |entries| && entries[j].name == name ==> EntryMap(entries)[name] == entries[j].value
    {
      EntryMapOf(entries, name);
    }
  }

  /** Importing an exported file into an empty registry leaves the exported keys and those above them, and each exported
      key with exactly its names, kinds and data. */
  lemma ImportedRegistry(sections: seq<RegSection>)
    requires GoodSections(sections) && InOrder(sections, None) && DistinctKeys(sections)
    requires forall i :: 0 <= i < |sections| ==> DistinctNames(sections[i].values)
    ensures ImportText(ExportText(sections)).Ok?
    ensures var store := Stored(map[], ImportText(ExportText(sections)).value);
            && (forall k :: k in store <==> exists j :: 0 <= j < |sections| && AtOrBelow(k, sections[j].keyName))
            && (forall i :: 0 <= i < |sections| ==> Holds(store, sections[i].keyName, sections[i].values))
  {
    hide GoodSections, InOrder, ImportText, ExportText, Stored, Holds, DistinctNames, DistinctKeys, AtOrBelow;
    ImportUndoesExport(sections);
    var store := Stored(map[], sections);
    forall k ensures k in store <==> exists j :: 0 <= j < |sections| && AtOrBelow(k, sections[j].keyName) {
      StoredKeys(map[], sections, k);
    }
    forall i | 0 <= i < |sections| ensures Holds(store, sections[i].keyName, sections[i].values) {
      StoredHolds(sections, i);
    }
  }

  // ----- a tree in an empty registry -----

  /** The subkeys of a key have different names, and each value name is used once. */
  predicate OwnNames(key: RegKey) {
    && DistinctNames(key.values)
    && (forall t, u :: 0 <= t < u < |key.subkeys| ==> key.subkeys[t].name != key.subkeys[u].name)
    && (forall t :: 0 <= t < |key.subkeys| ==> OwnNames(key.subkeys[t]))
  }

  lemma {:induction false} OwnNamesAt(key: RegKey, p: Place)
    requires OwnNames(key) && IsPlace(key, p)
    ensures DistinctNames(KeyAt(key, p).values)
    decreases |p|
  {
    if p != [] { OwnNamesAt(key.subkeys[p[0]], p[1..]); }
  }

  lemma {:induction false} NameAt(key: RegKey, p: Place)
    requires WellNamed(key) && IsPlace(key, p)
    ensures AtOrBelow(key.name, KeyAt(key, p).name)
    ensures p != [] ==> |key.name| < |KeyAt(key, p).name|
    decreases |p|
  {
    if p != [] {
      var sub := key.subkeys[p[0]];
      assert WellNamed(sub);
      NameAt(sub, p[1..]);
      assert key.name + SEPARATOR <= sub.name;
      var name := KeyAt(sub, p[1..]).name;
      assert sub.name <= name;
      assert name[..|key.name| + 1] == sub.name[..|key.name| + 1];
    }
  }

  /** Two names without backslashes that stand at the same place in front of the end or a backslash are the same. */
  lemma SameLeaf(base: Text, a: Text, b: Text, name: Text)
    requires BACKSLASH !in a && BACKSLASH !in b && AtOrBelow(base + a, name) && AtOrBelow(base + b, name)
    ensures a == b
  {
    LeafIn(base, a, name);
    LeafIn(base, b, name);
    var rest := name[|base|..];
    assert forall i :: 0 <= i < |a| ==> rest[i] == a[i] && rest[i] != BACKSLASH;
    assert forall i :: 0 <= i < |b| ==> rest[i] == b[i] && rest[i] != BACKSLASH;
    assert |a| == |b|;
  }

  lemma LeafIn(base: Text, a: Text, name: Text)
    requires AtOrBelow(base + a, name)
    ensures |base| + |a| <= |name|
    ensures var rest := name[|base|..]; a <= rest && (|a| < |rest| ==> rest[|a|] == BACKSLASH)
  {
    var s := base + a;
    assert s[|base|..] == a;
    if name != s {
      assert (s + SEPARATOR)[|s|] == BACKSLASH;
      assert name[..|s|] == (s + SEPARATOR)[..|s|] == s;
      assert name[|base|..][..|a|] == name[..|s|][|base|..];
    }
  }

  lemma SubName(key: RegKey, t: nat)
    requires WellNamed(key) && t < |key.subkeys|
    ensures key.subkeys[t].name == key.name + SEPARATOR + Leaf(key, t) && BACKSLASH !in Leaf(key, t)
  {
    var n := key.subkeys[t].name;
    assert n == n[..|key.name| + 1] + n[|key.name| + 1..];
  }

  /** Different places have different names. */
  lemma {:induction false} PlaceOfName(key: RegKey, p: Place, q: Place)
    requires WellNamed(key) && OwnNames(key) && IsPlace(key, p) && IsPlace(key, q)
    requires KeyAt(key, p).name == KeyAt(key, q).name
    ensures p == q
    decreases |p|
  {
    NameAt(key, p);
    NameAt(key, q);
    if p != [] && q != [] {
      var t, u, name := p[0], q[0], KeyAt(key, p).name;
      assert WellNamed(key.subkeys[t]) && WellNamed(key.subkeys[u]);
      NameAt(key.subkeys[t], p[1..]);
      NameAt(key.subkeys[u], q[1..]);
      SubName(key, t);
      SubName(key, u);
      SameLeaf(key.name + SEPARATOR, Leaf(key, t), Leaf(key, u), name);
      assert t == u;
      PlaceOfName(key.subkeys[t], p[1..], q[1..]);
      assert p == [t] + p[1..] && q == [u] + q[1..];
    }
  }

  lemma ListingDistinct(len: nat, key: RegKey)
    requires WellNamed(key) && OwnNames(key) && (|key.name| < len ==> len == |key.name| + 1)
    ensures DistinctKeys(Listing(len, key))
    ensures forall i :: 0 <= i < |Listing(len, key)| ==> DistinctNames(Listing(len, key)[i].values)
  {
    var listing, places := Listing(len, key), Places(len, key);
    TreeListed(len, key);
    forall i | 0 <= i < |listing| ensures DistinctNames(listing[i].values) {
      assert SectionAt(len, key, places[i], listing[i]);
      OwnNamesAt(key, places[i]);
    }
    forall i, j | 0 <= i < j < |listing| ensures listing[i].keyName != listing[j].keyName {
      assert SectionAt(len, key, places[i], listing[i]) && SectionAt(len, key, places[j], listing[j]);
      if listing[i].keyName == listing[j].keyName {
        SameFullName(len, key, places[i], places[j]);
        NotBoth(places[i], places[j]);
      }
    }
  }

  /** Keys of a tree that have the same name below the root have the same full name. */
  lemma SameFullName(len: nat, key: RegKey, p: Place, q: Place)
    requires WellNamed(key) && OwnNames(key) && Named(len, key, p) && Named(len, key, q)
    requires |key.name| < len ==> len == |key.name| + 1
    requires KeyAt(key, p).name[len..] == KeyAt(key, q).name[len..]
    ensures p == q
  {
    var a, b := KeyAt(key, p).name, KeyAt(key, q).name;
    NameAt(key, p);
    NameAt(key, q);
    assert a[..len] == b[..len] by {
      assert forall i :: 0 <= i < len ==> a[i] == b[i];
    }
    assert a == a[..len] + a[len..] && b == b[..len] + b[len..];
    PlaceOfName(key, p, q);
  }

  /** A tree that is exported, and imported into an empty registry: the registry has its keys and those above them, and
      each key of the tree with exactly its names, kinds and data. */
  lemma TreeImported(len: nat, key: RegKey)
    requires WellNamed(key) && OwnNames(key) && (|key.name| < len ==> len == |key.name| + 1) && ComesBack(len, key)
    ensures ImportText(ExportText(Listing(len, key))).Ok?
    ensures var store := Stored(map[], ImportText(ExportText(Listing(len, key))).value);
            && (forall k :: k in store <==> exists p :: Named(len, key, p) && AtOrBelow(k, KeyAt(key, p).name[len..]))
            && (forall p :: Named(len, key, p) ==> Holds(store, KeyAt(key, p).name[len..], KeyAt(key, p).values))
  {
    hide WellNamed, OwnNames, ComesBack, GoodTree, GoodSections, InOrder, ImportText, ExportText, Listing, Stored,
         Holds, DistinctKeys, DistinctNames, AtOrBelow, IsPlace, KeyAt;
    var listing, places := Listing(len, key), Places(len, key);
    ComesBackWhen(len, key);
    GoodListing(len, key);
    ListingDistinct(len, key);
    ImportedRegistry(listing);
    TreeListed(len, key);
    var store := Stored(map[], ImportText(ExportText(listing)).value);
    forall p | Named(len, key, p) ensures Holds(store, KeyAt(key, p).name[len..], KeyAt(key, p).values) {
      var i :| 0 <= i < |places| && places[i] == p;
      assert SectionAt(len, key, p, listing[i]);
    }
    forall k
      ensures k in store <==> exists p :: Named(len, key, p) && AtOrBelow(k, KeyAt(key, p).name[len..])
    {
      if i :| 0 <= i < |listing| && AtOrBelow(k, listing[i].keyName) {
        assert SectionAt(len, key, places[i], listing[i]);
      }
      if p :| Named(len, key, p) && AtOrBelow(k, KeyAt(key, p).name[len..]) {
        var i :| 0 <= i < |places| && places[i] == p;
        assert SectionAt(len, key, p, listing[i]);
      }
    }
  }
}
