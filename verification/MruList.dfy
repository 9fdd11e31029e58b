/** The list of recently used files (class `MRU` in PackageEditor/MainForm.cs): numbered registry values "0" to "7", the
    most recent file first. */
module MruList {
  import opened Utf16
  import opened CaseFold
  import opened Sequences

  const MAX_ITEMS: nat := 8

  predicate SameFile(a: Text, b: Text) {
    Fold(a) == Fold(b)
  }

  /** The list without a file, its other entries in order. */
  function Without(items: seq<Text>, file: Text): (r: seq<Text>)
    ensures |r| <= |items|
  {
    if items == [] then []
    else (if SameFile(items[0], file) then [] else [items[0]]) + Without(items[1..], file)
  }

  predicate Distinct(items: seq<Text>) {
    forall i, j :: 0 <= i < j < |items| ==> !SameFile(items[i], items[j])
  }

  function Take(items: seq<Text>, n: nat): seq<Text> {
    if |items| <= n then items else items[..n]
  }

  /** One use of a file: it goes to the front. The entry in the last slot is dropped even when there is room for it. */
  function MoveToFront(items: seq<Text>, file: Text): seq<Text> {
    [file] + Without(Take(items, MAX_ITEMS - 1), file)
  }

  // ----- the registry values -----

  /** The registry key has exactly the values "0" to "n-1", and they are the list. */
  ghost predicate Represents(regKey: map<nat, Text>, items: seq<Text>) {
    && (forall i: nat :: i in regKey <==> i < |items|)
    && (forall i :: 0 <= i < |items| ==> regKey[i] == items[i])
  }

  /** The values when the entries up to the empty slot `hole` move up by one and a file gets slot 0. */
  ghost predicate Inserted(before: map<nat, Text>, hole: nat, file: Text, after: map<nat, Text>) {
    && (forall i: nat :: i in after <==> i <= hole || i in before)
    && 0 in after && after[0] == file
    && (forall i: nat :: 0 < i <= hole && i - 1 in before ==> i in after && after[i] == before[i - 1])
    && (forall i: nat :: i in before && i > hole ==> i in after && after[i] == before[i])
  }

  ghost predicate FirstHole(regKey: map<nat, Text>, hole: nat) {
    hole < MAX_ITEMS && hole !in regKey && forall i: nat :: i < hole ==> i in regKey
  }

  /** The entries from `low` to before `high` have moved up by one. */
  ghost predicate Renamed(was: map<nat, Text>, low: nat, high: nat, now: map<nat, Text>) {
    forall k: nat :: SlotRenamed(was, low, high, now, k)
  }

  predicate SlotRenamed(was: map<nat, Text>, low: nat, high: nat, now: map<nat, Text>, k: nat) {
    if low < k <= high then k - 1 in was && k in now && now[k] == was[k - 1]
    else (k in now <==> k in was) && (k in was ==> now[k] == was[k])
  }

  lemma OneRenamed(was: map<nat, Text>, i: nat, high: nat, now: map<nat, Text>)
    requires Renamed(was, i + 1, high, now) && i in was && i < high
    ensures i in now && Renamed(was, i, high, now[i + 1 := now[i]])
  {
    assert SlotRenamed(was, i + 1, high, now, i);
    var next := now[i + 1 := now[i]];
    forall k: nat ensures SlotRenamed(was, i, high, next, k) {
      assert SlotRenamed(was, i + 1, high, now, k);
    }
  }

  lemma AllRenamed(was: map<nat, Text>, high: nat, now: map<nat, Text>)
    requires Renamed(was, 0, high, now) && forall k: nat :: k < high ==> k in was
    ensures forall k: nat :: k in now <==> k in was || 0 < k <= high
    ensures forall k: nat :: 0 < k <= high ==> now[k] == was[k - 1]
    ensures forall k: nat :: k in was && k > high ==> k in now && now[k] == was[k]
  {
    forall k: nat ensures k in now <==> k in was || 0 < k <= high {
      assert SlotRenamed(was, 0, high, now, k);
    }
    forall k: nat | 0 < k <= high ensures now[k] == was[k - 1] {
      assert SlotRenamed(was, 0, high, now, k);
    }
    forall k: nat | k in was && k > high ensures k in now && now[k] == was[k] {
      assert SlotRenamed(was, 0, high, now, k);
    }
  }

  class MRU {
    var maxItems: nat
    var regKey: map<nat, Text>
    ghost var items: seq<Text>

    ghost predicate Valid()
      reads this
    {
      maxItems == MAX_ITEMS && |items| <= MAX_ITEMS && Distinct(items) && Represents(regKey, items)
    }

    constructor ()
      ensures Valid() && items == []
    {
      maxItems := MAX_ITEMS;
      regKey := map[];
      items := [];
    }

    /** The first empty slot, -1 when there is none. */
    method FindHole() returns (moveTo: int)
      ensures moveTo == -1 ==> forall k: nat :: k < maxItems ==> k in regKey
      ensures moveTo != -1 ==>
                0 <= moveTo < maxItems && moveTo !in regKey && forall k: nat :: k < moveTo ==> k in regKey
    {
      moveTo := -1;
      for i := 0 to maxItems
        invariant moveTo == -1 && forall k: nat :: k < i ==> k in regKey
      {
        if i !in regKey {
          moveTo := i;
          break;
        }
      }
    }

    /** Renames the entries before `moveTo` one by one, from the last. */
    method MoveUp(moveTo: nat)
      requires moveTo <= maxItems && forall k: nat :: k < moveTo ==> k in regKey
      modifies this`regKey
      ensures forall k: nat :: k in regKey <==> k in old(regKey) || (moveTo > 0 && k == moveTo)
      ensures forall k: nat :: 0 < k <= moveTo ==> regKey[k] == old(regKey)[k - 1]
      ensures forall k: nat :: k in old(regKey) && k > moveTo ==> regKey[k] == old(regKey)[k]
    {
      var i := moveTo - 1;
      while i >= 0
        invariant -1 <= i < moveTo
        invariant Renamed(old(regKey), i + 1, moveTo, regKey)
      {
        OneRenamed(old(regKey), i, moveTo, regKey);
        var fileNameValue := regKey[i];
        if i < maxItems {
          regKey := regKey[i + 1 := fileNameValue];
        }
        i := i - 1;
      }
      AllRenamed(old(regKey), moveTo, regKey);
    }

    method InsertTopItem(fileName: Text) returns (ghost hole: nat)
      requires maxItems == MAX_ITEMS
      modifies this`regKey
      ensures FirstHole(old(regKey) - {MAX_ITEMS - 1}, hole)
      ensures Inserted(old(regKey) - {MAX_ITEMS - 1}, hole, fileName, regKey)
    {
      regKey := regKey - {maxItems - 1};
      assert maxItems - 1 !in regKey;
      var moveTo := FindHole();
      hole := moveTo;
      if moveTo > 0 {
        MoveUp(moveTo);
      }
      regKey := regKey[0 := fileName];
    }

    /** Entries for the same file go, whatever the order in which the values are enumerated. */
    method DeleteEntries(fileName: Text)
      modifies this`regKey
      ensures forall i :: i in regKey <==> i in old(regKey) && !SameFile(old(regKey)[i], fileName)
      ensures forall i :: i in regKey ==> regKey[i] == old(regKey)[i]
    {
      var names := regKey.Keys;
      while names != {}
        invariant names <= regKey.Keys <= old(regKey).Keys
        invariant forall i :: i in regKey ==> regKey[i] == old(regKey)[i]
        invariant forall i :: i in old(regKey) ==>
                    (i in regKey <==> i in names || !SameFile(old(regKey)[i], fileName))
      {
        var name :| name in names;
        names := names - {name};
        if SameFile(regKey[name], fileName) {
          regKey := regKey - {name};
        }
      }
    }

    method AddFile(fileName: Text)
      requires Valid()
      modifies this
      ensures Valid()
      ensures items == MoveToFront(old(items), fileName)
    {
      hide MoveToFront, Inserted, FirstHole, Distinct, SameFile;
      DeleteEntries(fileName);
      ghost var kept := regKey - {MAX_ITEMS - 1};
      ghost var hole := InsertTopItem(fileName);
      MovedToFront(items, fileName, kept, hole, regKey);
      FrontDistinct(items, fileName);
      items := MoveToFront(items, fileName);
    }

    /** The numbers of the values, in the order of their sorted names. */
    method SortedNames() returns (list: seq<nat>)
      ensures forall i, j :: 0 <= i < j < |list| ==> list[i] < list[j]
      ensures forall i :: i in list <==> i in regKey
    {
      list := [];
      var rest := regKey.Keys;
      while rest != {}
        invariant rest <= regKey.Keys
        invariant forall i, j :: 0 <= i < j < |list| ==> list[i] < list[j]
        invariant forall i :: i in regKey <==> i in list || i in rest
        invariant forall i, j :: i in list && j in rest ==> i < j
      {
        var name := Least(rest);
        assert forall i :: 0 <= i < |list| ==> list[i] in list;
        list := list + [name];
        rest := rest - {name};
      }
    }

    /** The files to show: those of the list that still exist, in order. */
    method GetItems(disk: set<Text>) returns (result: seq<(nat, Text)>)
      requires Valid()
      ensures result == Existing(items, 0, disk)
    {
      result := [];
      var list := SortedNames();
      SortedFrom(list, |items|);
      for i := 0 to |list|
        invariant result + Existing(items, i, disk) == Existing(items, 0, disk)
      {
        NextExisting(result, items, i, disk);
        if list[i] in regKey && regKey[list[i]] in disk {
          result := result + [(list[i], regKey[list[i]])];
        }
      }
    }
  }

  function Existing(items: seq<Text>, i: nat, disk: set<Text>): seq<(nat, Text)>
    decreases |items| - i
  {
    if i >= |items| then []
    else (if items[i] in disk then [(i, items[i])] else []) + Existing(items, i + 1, disk)
  }

  lemma NextExisting(result: seq<(nat, Text)>, items: seq<Text>, i: nat, disk: set<Text>)
    requires i < |items|
    ensures result + Existing(items, i, disk) ==
            (if items[i] in disk then result + [(i, items[i])] else result) + Existing(items, i + 1, disk)
  {
    Associate(result, [(i, items[i])], Existing(items, i + 1, disk));
    assert [] + Existing(items, i + 1, disk) == Existing(items, i + 1, disk);
  }

  method Least(s: set<nat>) returns (least: nat)
    requires s != {}
    ensures least in s && forall i :: i in s ==> least <= i
  {
    least :| least in s;
    var rest := s - {least};
    while rest != {}
      invariant least in s && rest <= s
      invariant forall i :: i in s ==> i in rest || least <= i
    {
      var i :| i in rest;
      rest := rest - {i};
      if i < least {
        least := i;
      }
    }
  }

  lemma HeadIn(list: seq<nat>)
    requires list != []
    ensures list[0] in list
  {
  }

  /** A sorted enumeration of the numbers below `n` is the numbers in order. */
  lemma {:induction false} SortedFrom(list: seq<nat>, n: nat)
    requires forall i, j :: 0 <= i < j < |list| ==> list[i] < list[j]
    requires forall i: nat :: i in list <==> i < n
    ensures |list| == n && forall i :: 0 <= i < n ==> list[i] == i
  {
    if n == 0 {
      if list != [] { HeadIn(list); }
    } else {
      var last := |list| - 1;
      assert n - 1 in list;
      var p :| 0 <= p < |list| && list[p] == n - 1;
      assert list[last] in list;
      assert p == last;
      var init := list[..last];
      forall i: nat ensures i in init <==> i < n - 1 {
        if i in init {
          var q :| 0 <= q < last && init[q] == i;
          assert list[q] < list[last];
        }
        if i < n - 1 {
          assert i in list;
        }
      }
      SortedFrom(init, n - 1);
    }
  }

  // ----- the slots and the list -----

  lemma {:induction false} WithoutNone(items: seq<Text>, file: Text)
    requires forall i :: 0 <= i < |items| ==> !SameFile(items[i], file)
    ensures Without(items, file) == items
  {
    if items != [] {
      WithoutNone(items[1..], file);
    }
  }

  lemma {:induction false} WithoutOne(items: seq<Text>, file: Text, j: nat)
    requires Distinct(items) && j < |items| && SameFile(items[j], file)
    ensures Without(items, file) == items[..j] + items[j + 1..]
  {
    var tail := items[1..];
    assert forall i :: 0 <= i < |tail| ==> tail[i] == items[i + 1];
    if j == 0 {
      WithoutNone(tail, file);
    } else {
      WithoutOne(tail, file, j - 1);
      assert items[..j] == [items[0]] + tail[..j - 1];
      assert items[j + 1..] == tail[j..];
    }
  }

  /** The values left when the entries for a file and the last entry are deleted. */
  ghost predicate Kept(items: seq<Text>, file: Text, kept: map<nat, Text>) {
    && (forall i: nat :: i in kept <==> i < |items| && i != MAX_ITEMS - 1 && !SameFile(items[i], file))
    && (forall i: nat :: i in kept ==> kept[i] == items[i])
  }

  lemma MovedToFront(items: seq<Text>, file: Text, kept: map<nat, Text>, hole: nat, after: map<nat, Text>)
    requires |items| <= MAX_ITEMS && Distinct(items) && Kept(items, file, kept)
    requires FirstHole(kept, hole) && Inserted(kept, hole, file, after)
    ensures Represents(after, MoveToFront(items, file))
    ensures |MoveToFront(items, file)| <= MAX_ITEMS
  {
    hide Distinct, Represents, Inserted, SameFile, Without;
    var front := Take(items, MAX_ITEMS - 1);
    assert forall i: nat :: i in kept <==> i < |front| && !SameFile(front[i], file);
    DistinctFront(items);
    if hole < |front| {
      assert SameFile(front[hole], file);
      WithoutOne(front, file, hole);
      OnlyHole(front, file, hole);
      FilledHole(front, file, kept, hole, after);
    } else {
      assert forall i: nat :: i < |front| ==> i in kept;
      HoleAtEnd(front, kept, hole);
      WithoutNone(front, file);
      KeptAll(front, kept);
      FilledEnd(front, file, kept, after);
    }
  }

  lemma HoleAtEnd(front: seq<Text>, kept: map<nat, Text>, hole: nat)
    requires FirstHole(kept, hole) && hole >= |front| && forall i: nat :: i in kept ==> i < |front|
    ensures hole == |front|
  {
    assert hole == |front| || |front| in kept;
  }

  lemma DistinctFront(items: seq<Text>)
    requires Distinct(items)
    ensures Distinct(Take(items, MAX_ITEMS - 1))
  {
  }

  lemma OnlyHole(front: seq<Text>, file: Text, hole: nat)
    requires Distinct(front) && hole < |front| && SameFile(front[hole], file)
    ensures forall i :: 0 <= i < |front| && SameFile(front[i], file) ==> i == hole
  {
  }

  lemma KeptAll(front: seq<Text>, kept: map<nat, Text>)
    requires forall i: nat :: i in kept <==> i < |front|
    requires forall i: nat :: i in kept ==> kept[i] == front[i]
    ensures Represents(kept, front)
  {
  }

  lemma FilledHole(front: seq<Text>, file: Text, kept: map<nat, Text>, hole: nat, after: map<nat, Text>)
    requires hole < |front| && Inserted(kept, hole, file, after)
    requires forall i: nat :: i in kept <==> i < |front| && i != hole
    requires forall i: nat :: i in kept ==> kept[i] == front[i]
    ensures Represents(after, [file] + (front[..hole] + front[hole + 1..]))
  {
    var items := [file] + (front[..hole] + front[hole + 1..]);
    forall i | 0 <= i < |items| ensures after[i] == items[i] {
      if 0 < i <= hole { assert i - 1 in kept && items[i] == front[i - 1]; }
    }
  }

  lemma FilledEnd(front: seq<Text>, file: Text, kept: map<nat, Text>, after: map<nat, Text>)
    requires Inserted(kept, |front|, file, after) && Represents(kept, front)
    ensures Represents(after, [file] + front)
  {
    var items := [file] + front;
    forall i | 0 <= i < |items| ensures after[i] == items[i] {
      if i > 0 { assert i - 1 in kept; }
    }
  }

  lemma {:induction false} WithoutMembers(items: seq<Text>, file: Text)
    requires Distinct(items)
    ensures Distinct(Without(items, file))
    ensures forall x :: x in Without(items, file) ==> x in items && !SameFile(x, file)
  {
    if items != [] {
      var tail := items[1..];
      assert forall i :: 0 <= i < |tail| ==> tail[i] == items[i + 1];
      WithoutMembers(tail, file);
      var rest := Without(tail, file);
      forall i | 0 <= i < |rest| ensures !SameFile(items[0], rest[i]) {
        assert rest[i] in tail;
      }
    }
  }

  lemma FrontDistinct(items: seq<Text>, file: Text)
    requires Distinct(items)
    ensures Distinct(MoveToFront(items, file))
  {
    var front := Take(items, MAX_ITEMS - 1);
    WithoutMembers(front, file);
    var rest := Without(front, file);
    forall i | 0 <= i < |rest| ensures !SameFile(file, rest[i]) {
      assert rest[i] in rest;
    }
  }

  // ----- whole runs -----

  /** The list after using some files, from an empty one. */
  function Replay(files: seq<Text>): seq<Text> {
    if files == [] then [] else MoveToFront(Replay(files[..|files| - 1]), files[|files| - 1])
  }

  /** All files used, each once, the latest use first. */
  function Recency(files: seq<Text>): seq<Text> {
    if files == [] then []
    else [files[|files| - 1]] + Without(Recency(files[..|files| - 1]), files[|files| - 1])
  }

  lemma {:induction false} RecencyDistinct(files: seq<Text>)
    ensures Distinct(Recency(files))
  {
    if files != [] {
      var last, before := files[|files| - 1], Recency(files[..|files| - 1]);
      RecencyDistinct(files[..|files| - 1]);
      WithoutMembers(before, last);
      var rest := Without(before, last);
      forall i | 0 <= i < |rest| ensures !SameFile(last, rest[i]) {
        assert rest[i] in rest;
      }
    }
  }

  /** Removing a file from the start of a list gives a start of the list with the file removed. */
  lemma {:induction false} WithoutPrefix(items: seq<Text>, n: nat, file: Text)
    requires Distinct(items) && n <= |items|
    ensures Without(items[..n], file) <= Without(items, file)
    ensures |Without(items[..n], file)| >= n - 1
    ensures n == |items| ==> Without(items[..n], file) == Without(items, file)
  {
    if n > 0 {
      var tail := items[1..];
      assert forall i :: 0 <= i < |tail| ==> tail[i] == items[i + 1];
      assert items[..n][1..] == tail[..n - 1];
      if SameFile(items[0], file) {
        WithoutNone(tail, file);
        WithoutNone(tail[..n - 1], file);
      } else {
        WithoutPrefix(tail, n - 1, file);
      }
    }
  }

  /** After any uses the list is the start of the list of all files by recency. It holds at most eight of them and never
      fewer than seven while there are so many, although the last slot is sometimes given up too early. */
  lemma {:induction false} HoldsMostRecent(files: seq<Text>)
    ensures Replay(files) <= Recency(files)
    ensures |Replay(files)| <= MAX_ITEMS
    ensures |Replay(files)| >= if |Recency(files)| < MAX_ITEMS - 1 then |Recency(files)| else MAX_ITEMS - 1
    ensures Distinct(Replay(files))
  {
    RecencyDistinct(files);
    if files != [] {
      var last, before := files[|files| - 1], files[..|files| - 1];
      HoldsMostRecent(before);
      RecencyDistinct(before);
      var all, items := Recency(before), Replay(before);
      var front := Take(items, MAX_ITEMS - 1);
      assert front == all[..|front|];
      WithoutPrefix(all, |front|, last);
      assert |Without(all, last)| <= |all|;
    }
  }

  // ----- when the list is too short -----

  /** The file is among the first `n`. */
  predicate AmongFirst(items: seq<Text>, n: nat, file: Text) {
    exists j :: 0 <= j < |items| && j < n && SameFile(items[j], file)
  }

  lemma WithoutLength(items: seq<Text>, file: Text)
    requires Distinct(items)
    ensures |Without(items, file)| == if AmongFirst(items, |items|, file) then |items| - 1 else |items|
  {
    if AmongFirst(items, |items|, file) {
      var j :| 0 <= j < |items| && SameFile(items[j], file);
      WithoutOne(items, file, j);
    } else {
      WithoutNone(items, file);
    }
  }

  lemma FrontLength(items: seq<Text>, file: Text)
    requires Distinct(items) && |items| <= MAX_ITEMS
    ensures var front := Take(items, MAX_ITEMS - 1);
            |MoveToFront(items, file)| == |front| + if AmongFirst(items, MAX_ITEMS - 1, file) then 0 else 1
  {
    var front := Take(items, MAX_ITEMS - 1);
    assert Distinct(front);
    WithoutLength(front, file);
    if AmongFirst(front, |front|, file) {
      var j :| 0 <= j < |front| && SameFile(front[j], file);
      assert SameFile(items[j], file);
    }
    if AmongFirst(items, MAX_ITEMS - 1, file) {
      var j :| 0 <= j < |items| && j < MAX_ITEMS - 1 && SameFile(items[j], file);
      assert SameFile(front[j], file);
    }
  }

  /** A use makes the list shorter exactly when it is full and the file is not in the last slot, but in one before. */
  lemma Shrinks(items: seq<Text>, file: Text)
    requires Distinct(items) && |items| <= MAX_ITEMS
    ensures |MoveToFront(items, file)| < |items| <==> |items| == MAX_ITEMS && AmongFirst(items, MAX_ITEMS - 1, file)
  {
    FrontLength(items, file);
  }

  /** Over whole runs: the list lacks the eighth of the most recent files exactly when there is one and the file used
      last was already among the first seven. */
  lemma TooShort(files: seq<Text>, file: Text)
    ensures |Replay(files + [file])| < |Take(Recency(files + [file]), MAX_ITEMS)| <==>
            |Recency(files + [file])| >= MAX_ITEMS && AmongFirst(Recency(files), MAX_ITEMS - 1, file)
  {
    var all, items := Recency(files), Replay(files);
    assert (files + [file])[..|files|] == files;
    HoldsMostRecent(files);
    HoldsMostRecent(files + [file]);
    RecencyDistinct(files);
    FrontLength(items, file);
    WithoutLength(all, file);
    SameFront(items, all, file);
  }

  lemma SameFront(items: seq<Text>, all: seq<Text>, file: Text)
    requires items <= all && |items| >= if |all| < MAX_ITEMS - 1 then |all| else MAX_ITEMS - 1
    ensures AmongFirst(items, MAX_ITEMS - 1, file) <==> AmongFirst(all, MAX_ITEMS - 1, file)
    ensures AmongFirst(all, MAX_ITEMS - 1, file) ==> AmongFirst(all, |all|, file)
  {
    if AmongFirst(all, MAX_ITEMS - 1, file) {
      var j :| 0 <= j < |all| && j < MAX_ITEMS - 1 && SameFile(all[j], file);
      assert SameFile(items[j], file);
    }
  }

  // ----- one entry for a file, in any case -----

  /** Using a file that stands in one of the first seven slots, written in any case, moves its one entry to the front
      and changes nothing else, except that an eighth entry is dropped. */
  lemma UsedAgain(items: seq<Text>, file: Text, j: nat)
    requires Distinct(items) && |items| <= MAX_ITEMS && j < |items| && j < 7 && SameLetters(items[j], file)
    ensures MoveToFront(items, file) == [file] + items[..j] + items[j + 1..if |items| < 7 then |items| else 7]
    ensures forall i :: 0 <= i < |MoveToFront(items, file)| && SameLetters(MoveToFront(items, file)[i], file) ==> i == 0
  {
    var front, r := Take(items, MAX_ITEMS - 1), MoveToFront(items, file);
    FoldsSame(items[j], file);
    DistinctFront(items);
    WithoutOne(front, file, j);
    assert front[j + 1..] == items[j + 1..|front|];
    Associate([file], items[..j], front[j + 1..]);
    OneEntry(items, file);
  }

  /** Using a file that stands in none of them puts it before the first seven. */
  lemma UsedNew(items: seq<Text>, file: Text)
    requires Distinct(items) && |items| <= MAX_ITEMS
    requires forall j :: 0 <= j < |items| && j < 7 ==> !SameLetters(items[j], file)
    ensures MoveToFront(items, file) == [file] + items[..if |items| < 7 then |items| else 7]
    ensures forall i :: 0 <= i < |MoveToFront(items, file)| && SameLetters(MoveToFront(items, file)[i], file) ==> i == 0
  {
    var front := Take(items, MAX_ITEMS - 1);
    forall j | 0 <= j < |front| ensures !SameFile(front[j], file) {
      FoldsSame(front[j], file);
    }
    WithoutNone(front, file);
    OneEntry(items, file);
  }

  lemma OneEntry(items: seq<Text>, file: Text)
    requires Distinct(items)
    ensures forall i :: 0 <= i < |MoveToFront(items, file)| && SameLetters(MoveToFront(items, file)[i], file) ==> i == 0
  {
    var r := MoveToFront(items, file);
    FrontDistinct(items, file);
    forall i | 0 <= i < |r| && SameLetters(r[i], file) ensures i == 0 {
      FoldsSame(r[i], file);
      assert i > 0 ==> !SameFile(r[0], r[i]);
    }
  }

  // ----- recency by the last use -----

  /** The entries are the files at the given uses, latest first, and every use is of a file whose entry stands for the
      same or a later use. */
  ghost predicate LastUses(files: seq<Text>, items: seq<Text>, uses: seq<nat>) {
    && |uses| == |items|
    && (forall i, j :: 0 <= i < j < |uses| ==> uses[i] > uses[j])
    && (forall i :: 0 <= i < |uses| ==> uses[i] < |files| && items[i] == files[uses[i]])
    && (forall k :: 0 <= k < |files| ==> UsedLater(files, items, uses, k))
  }

  predicate UsedLater(files: seq<Text>, items: seq<Text>, uses: seq<nat>, k: nat)
    requires k < |files| && |uses| == |items|
  {
    exists i :: 0 <= i < |uses| && uses[i] >= k && SameFile(files[k], items[i])
  }

  /** `Recency` lists the files by their last use. */
  lemma {:induction false} RecencyIs(files: seq<Text>) returns (uses: seq<nat>)
    ensures LastUses(files, Recency(files), uses)
    decreases |files|
  {
    if files == [] {
      uses := [];
    } else {
      var init, last := files[..|files| - 1], files[|files| - 1];
      var before := RecencyIs(init);
      RecencyDistinct(init);
      var items := Recency(init);
      if j :| 0 <= j < |items| && SameFile(items[j], last) {
        WithoutOne(items, last, j);
        uses := [|init|] + (before[..j] + before[j + 1..]);
        UsedInstead(init, last, items, before, j);
      } else {
        WithoutNone(items, last);
        uses := [|init|] + before;
        UsedFirst(init, last, items, before);
      }
      assert files == init + [last];
    }
  }

  lemma UsedFirst(init: seq<Text>, last: Text, items: seq<Text>, before: seq<nat>)
    requires LastUses(init, items, before)
    ensures LastUses(init + [last], [last] + items, [|init|] + before)
  {
    hide SameFile;
    SameSelf(last);
    var files, list, uses := init + [last], [last] + items, [|init|] + before;
    forall k | 0 <= k < |files| ensures UsedLater(files, list, uses, k) {
      if k < |init| {
        assert UsedLater(init, items, before, k);
        var i :| 0 <= i < |before| && before[i] >= k && SameFile(init[k], items[i]);
        assert uses[i + 1] >= k && SameFile(files[k], list[i + 1]);
      } else {
        assert uses[0] >= k && SameFile(files[k], list[0]);
      }
    }
  }

  lemma SameSelf(a: Text)
    ensures SameFile(a, a)
  {
  }

  lemma SameTwice(a: Text, b: Text, c: Text)
    requires SameFile(a, b) && SameFile(b, c)
    ensures SameFile(a, c)
  {
  }

  lemma UsedInstead(init: seq<Text>, last: Text, items: seq<Text>, before: seq<nat>, j: nat)
    requires LastUses(init, items, before) && j < |items| && SameFile(items[j], last)
    ensures LastUses(init + [last], [last] + (items[..j] + items[j + 1..]), [|init|] + (before[..j] + before[j + 1..]))
  {
    hide SameFile, UsedLater;
    var files, list := init + [last], [last] + (items[..j] + items[j + 1..]);
    var uses := [|init|] + (before[..j] + before[j + 1..]);
    forall k | 0 <= k < |files| ensures UsedLater(files, list, uses, k) {
      if k < |init| { assert UsedLater(init, items, before, k); }
      LaterInstead(init, last, items, before, j, k);
    }
  }

  lemma LaterInstead(init: seq<Text>, last: Text, items: seq<Text>, before: seq<nat>, j: nat, k: nat)
    requires |before| == |items| && j < |items| && SameFile(items[j], last) && k <= |init|
    requires k < |init| ==> UsedLater(init, items, before, k)
    ensures UsedLater(init + [last], [last] + (items[..j] + items[j + 1..]), [|init|] + (before[..j] + before[j + 1..]),
                      k)
  {
    hide SameFile;
    var files, list := init + [last], [last] + (items[..j] + items[j + 1..]);
    var uses := [|init|] + (before[..j] + before[j + 1..]);
    SameSelf(last);
    assert uses[0] >= k && list[0] == last;
    if k < |init| {
      var i :| 0 <= i < |before| && before[i] >= k && SameFile(init[k], items[i]);
      if i == j {
        SameTwice(init[k], items[j], last);
      } else {
        var p := if i < j then i + 1 else i;
        assert uses[p] == before[i] && list[p] == items[i];
      }
    }
  }
}
