/** The roots of the virtual registry and the names they have in a `.reg` file (PackageEditor/RegistryFunctions.cs).
    The writer takes the first root whose virtual name starts the key, ignoring case; the reader keeps the root of the
    previous key as long as it fits and searches only otherwise. */
module RegRoots {
  import opened Wrappers
  import opened Utf16
  import opened CaseFold

  const SEPARATOR: Text := [BACKSLASH]
  const CLASSES: Text := Ascii("\\Software\\Classes")
  const REAL_USER: Text := Ascii("HKEY_CURRENT_USER")
  const VIRTUAL_USER: Text := Ascii("%CurrentUser%")

  /** `virtualKeys`: the name in the file and the virtual name, in the order they are searched. */
  const ROOTS: seq<(Text, Text)> :=
    [(REAL_USER + CLASSES, VIRTUAL_USER + Ascii("_Classes")), (REAL_USER, VIRTUAL_USER),
     (Ascii("HKEY_LOCAL_MACHINE"), Ascii("MACHINE")), (Ascii("HKEY_USERS"), Ascii("USER"))]

  type Root = i: nat | i < 4
  const USER_CLASSES: Root := 0
  const USER: Root := 1

  function Real(i: Root): Text { ROOTS[i].0 }
  function Virtual(i: Root): Text { ROOTS[i].1 }

  // ----- the writer -----

  predicate StartsFolded(keyname: Text, i: Root) {
    Fold(Virtual(i)) <= Fold(keyname + SEPARATOR)
  }

  function VirtualFrom(keyname: Text, i: nat): (r: Option<Root>)
    requires i <= 4
    ensures r.Some? ==> StartsFolded(keyname, r.value)
    ensures forall k: Root :: i <= k && (r.Some? ==> k < r.value) ==> !StartsFolded(keyname, k)
    decreases 4 - i
  {
    if i == 4 then None else if StartsFolded(keyname, i) then Some(i) else VirtualFrom(keyname, i + 1)
  }

  /** The root of a virtual key. */
  function RootOf(keyname: Text): Option<Root> {
    VirtualFrom(keyname, 0)
  }

  /** The separator put behind the key does not help to match: no virtual name has one. */
  lemma RootFits(keyname: Text, i: Root)
    requires StartsFolded(keyname, i)
    ensures |Virtual(i)| <= |keyname| && Fold(Virtual(i)) == Fold(keyname[..|Virtual(i)|])
  {
    var v := Virtual(i);
    var last := |v| - 1;
    assert Fold(v)[last] == Fold(keyname + SEPARATOR)[last];
    assert FoldUnit(v[last]) != BACKSLASH;
    assert last < |keyname|;
    forall j | 0 <= j < |v| ensures Fold(v)[j] == Fold(keyname[..|v|])[j] {
      assert Fold(v)[j] == Fold(keyname + SEPARATOR)[j];
    }
  }

  /** What stands behind the root. */
  function RestOf(keyname: Text): Text
    requires RootOf(keyname).Some?
  {
    var i := RootOf(keyname).value;
    RootFits(keyname, i);
    keyname[|Virtual(i)|..]
  }

  /** The name of a virtual key in the file, none if it has no root. */
  function ExportName(keyname: Text): Option<Text> {
    if RootOf(keyname).None? then None else Some(Real(RootOf(keyname).value) + RestOf(keyname))
  }

  method FindExportName(keyname: Text) returns (r: Option<Text>)
    ensures r == ExportName(keyname)
  {
    var i := 0;
    while i < |ROOTS|
      invariant 0 <= i <= 4 && RootOf(keyname) == VirtualFrom(keyname, i)
    {
      if Fold(ROOTS[i].1) <= Fold(keyname + SEPARATOR) {
        RootFits(keyname, i);
        return Some(ROOTS[i].0 + keyname[|ROOTS[i].1|..]);
      }
      i := i + 1;
    }
    r := None;
  }

  // ----- the reader -----

  function RealFrom(keyName: Text, i: nat): (r: Option<Root>)
    requires i <= 4
    ensures r.Some? ==> Real(r.value) <= keyName
    decreases 4 - i
  {
    if i == 4 then None else if Real(i) <= keyName then Some(i) else RealFrom(keyName, i + 1)
  }

  /** The first root that starts the key. */
  function FirstMatch(keyName: Text): (r: Option<Root>)
    ensures r.Some? ==> Real(r.value) <= keyName
  {
    RealFrom(keyName, 0)
  }

  /** The root the reader uses after a key with root `cache`. */
  function Choose(cache: Option<Root>, keyName: Text): (r: Option<Root>)
    ensures r.Some? ==> Real(r.value) <= keyName
  {
    if cache.Some? && Real(cache.value) + SEPARATOR <= keyName then
      assert keyName[..|Real(cache.value)|] == Real(cache.value);
      cache
    else
      FirstMatch(keyName)
  }

  function ImportName(root: Root, keyName: Text): Text
    requires Real(root) <= keyName
  {
    Virtual(root) + keyName[|Real(root)|..]
  }

  // ----- how the names are told apart -----

  /** Which roots start the real name of a key under root `i`. */
  predicate Starts(j: Root, i: Root, rest: Text) {
    j == i || (i == USER_CLASSES && j == USER) || (i == USER && j == USER_CLASSES && CLASSES <= rest)
  }

  lemma RealStarts(j: Root, i: Root, rest: Text)
    ensures Real(j) <= Real(i) + rest <==> Starts(j, i, rest)
  {
    var name := Real(i) + rest;
    if i == USER && j == USER_CLASSES {
      PrefixBehind(REAL_USER, CLASSES, rest);
    } else if i == USER_CLASSES && j == USER {
      assert name == REAL_USER + (CLASSES + rest);
    } else if i != j {
      assert name[5] == Real(i)[5] != Real(j)[5];
    } else {
      assert Real(i) <= name;
    }
  }

  lemma PrefixBehind(a: Text, b: Text, c: Text)
    ensures a + b <= a + c <==> b <= c
  {
    assert (a + b)[|a|..] == b;
    assert |b| <= |c| ==> (a + c)[..|a + b|][|a|..] == c[..|b|];
    assert |b| <= |c| && b == c[..|b|] ==> (a + c)[..|a + b|] == a + b;
  }

  lemma FirstMatchOf(i: Root, rest: Text)
    ensures FirstMatch(Real(i) + rest) == Some(if i == USER && CLASSES <= rest then USER_CLASSES else i)
  {
    RealStarts(0, i, rest);
    RealStarts(1, i, rest);
    RealStarts(2, i, rest);
    RealStarts(3, i, rest);
    var name := Real(i) + rest;
    assert RealFrom(name, 3) == if Real(3) <= name then Some(3) else RealFrom(name, 4);
    assert RealFrom(name, 2) == if Real(2) <= name then Some(2) else RealFrom(name, 3);
    assert RealFrom(name, 1) == if Real(1) <= name then Some(1) else RealFrom(name, 2);
  }

  /** The remembered root differs from a fresh search exactly when the reader is below `HKEY_CURRENT_USER` and the key
      belongs to its classes, which have a root of their own. */
  lemma CacheAgrees(cache: Option<Root>, keyName: Text)
    ensures Choose(cache, keyName) == FirstMatch(keyName) <==>
            !(cache == Some(USER) && Real(USER_CLASSES) <= keyName)
  {
    if cache.Some? && Real(cache.value) + SEPARATOR <= keyName {
      var i := cache.value;
      var rest := keyName[|Real(i)|..];
      assert Real(i) <= Real(i) + SEPARATOR;
      assert keyName == Real(i) + rest;
      FirstMatchOf(i, rest);
      RealStarts(0, i, rest);
    } else {
      assert Real(USER) + SEPARATOR <= Real(USER_CLASSES);
    }
  }

  // ----- from the virtual name to the file and back -----

  /** The root is written as the table has it. */
  predicate Canonical(keyname: Text) {
    RootOf(keyname).Some? && Virtual(RootOf(keyname).value) <= keyname
  }

  /** A key after one with root `before` comes back under its own root: the classes have to be found by a search, a key
      that only looks like one of them must not be searched for. */
  predicate InTurn(before: Option<Root>, keyname: Text) {
    RootOf(keyname).Some? ==>
      && (RootOf(keyname).value == USER_CLASSES ==> before != Some(USER))
      && (RootOf(keyname).value == USER && CLASSES <= RestOf(keyname) ==> before == Some(USER))
  }

  lemma ChooseAfter(before: Option<Root>, i: Root, rest: Text)
    ensures Choose(before, Real(i) + rest) ==
            if before == Some(USER) && (i == USER_CLASSES || (i == USER && CLASSES <= rest)) then Some(USER)
            else if i == USER && CLASSES <= rest then Some(USER_CLASSES)
            else Some(i)
  {
    var name := Real(i) + rest;
    FirstMatchOf(i, rest);
    CacheAgrees(before, name);
    RealStarts(0, i, rest);
    if before == Some(USER) && Real(USER_CLASSES) <= name {
      assert FirstMatch(name) == Some(USER_CLASSES);
    }
  }

  /** A key taken for one of the other root is not the same key. */
  lemma WrongRoot(keyname: Text, rest: Text)
    ensures RootOf(keyname) == Some(USER_CLASSES) ==> keyname != Virtual(USER) + (CLASSES + rest)
    ensures RootOf(keyname) == Some(USER) ==> keyname != Virtual(USER_CLASSES) + rest
  {
    var s := keyname + SEPARATOR;
    if RootOf(keyname) == Some(USER_CLASSES) {
      assert Fold(Virtual(0))[13] == Fold(s)[13] == FoldUnit(s[13]);
    }
    if keyname == Virtual(USER_CLASSES) + rest {
      var v := Virtual(USER_CLASSES);
      assert Fold(s)[..|v|] == Fold(v);
    }
  }

  /** The key comes back exactly when its root is canonical and its turn is right, and nothing is lost at its end. */
  lemma KeyBack(before: Option<Root>, keyname: Text, kept: Text)
    requires RootOf(keyname).Some? && kept <= RestOf(keyname)
    ensures var name := Real(RootOf(keyname).value) + kept;
            var root := Choose(before, name);
            && root.Some?
            && (ImportName(root.value, name) == keyname ==> root == RootOf(keyname))
            && (ImportName(root.value, name) == keyname <==>
                Canonical(keyname) && InTurn(before, keyname) && kept == RestOf(keyname))
  {
    var i := RootOf(keyname).value;
    ChooseAfter(before, i, kept);
    var root := Choose(before, Real(i) + kept).value;
    if root == i {
      OwnRoot(keyname, kept);
    } else if i == USER_CLASSES {
      Behind(REAL_USER, CLASSES, kept);
      WrongRoot(keyname, kept);
    } else {
      var tail := kept[|CLASSES|..];
      assert kept == CLASSES + tail;
      Behind(REAL_USER, CLASSES, tail);
      Behind(Real(USER_CLASSES), tail, []);
      WrongRoot(keyname, tail);
    }
  }

  lemma Behind(a: Text, b: Text, c: Text)
    ensures a + b + c == a + (b + c)
    ensures (a + (b + c))[|a|..] == b + c
  {
    assert a + b + c == a + (b + c);
  }

  lemma OwnRoot(keyname: Text, kept: Text)
    requires RootOf(keyname).Some? && kept <= RestOf(keyname)
    ensures var i := RootOf(keyname).value;
            ImportName(i, Real(i) + kept) == keyname <==> Canonical(keyname) && kept == RestOf(keyname)
  {
    var i := RootOf(keyname).value;
    RootFits(keyname, i);
    assert (Real(i) + kept)[|Real(i)|..] == kept;
    assert keyname == keyname[..|Virtual(i)|] + RestOf(keyname);
    assert Virtual(i) <= keyname <==> Virtual(i) == keyname[..|Virtual(i)|];
    if Virtual(i) + kept == keyname {
      assert (Virtual(i) + kept)[|Virtual(i)|..] == kept;
    }
  }

  /** Without the remembered root, export and import of names are inverse exactly outside
      `%CurrentUser%\Software\Classes`. */
  lemma FirstMatchInverts(keyname: Text)
    requires RootOf(keyname).Some?
    ensures var name := ExportName(keyname).value;
            && FirstMatch(name).Some?
            && (ImportName(FirstMatch(name).value, name) == keyname <==>
                Canonical(keyname) && !(RootOf(keyname) == Some(USER) && CLASSES <= RestOf(keyname)))
  {
    KeyBack(None, keyname, RestOf(keyname));
  }
}
