/** The files of one folder in the package editor, and the package they are saved to
    (PackageEditor/FileSystemEditor.cs). A name is the list of its components, the package knows names ignoring
    case. */
module FileLists {
  import opened Utf16
  import opened CaseFold
  import Flags = FileFlags

  type Path = seq<Text>

  function FoldPath(p: Path): (r: Path)
    ensures |r| == |p| && forall i :: 0 <= i < |p| ==> r[i] == Fold(p[i])
  {
    seq(|p|, i requires 0 <= i < |p| => Fold(p[i]))
  }

  lemma FoldPathAppend(a: Path, name: Text)
    ensures FoldPath(a + [name]) == FoldPath(a) + [Fold(name)]
  {
  }

  lemma FoldPathPrefix(p: Path, k: nat)
    requires k <= |p|
    ensures FoldPath(p[..k]) == FoldPath(p)[..k]
  {
  }

  /** A file of a folder. `addedFrom` is the file on disk it comes from, empty for a file of the package. */
  datatype FileData = FileData(path: Path, flags: Flags.Word, size: nat, addedFrom: Text, deleted: bool) {
    predicate Added() { addedFrom != [] }
    function Key(): Path { FoldPath(path) }
  }

  type Files = seq<FileData>

  // ----- what a folder has under a name -----

  predicate EntryAt(files: Files, i: nat, q: Path) {
    i < |files| && files[i].Key() == q
  }

  predicate LiveEntryAt(files: Files, i: nat, q: Path) {
    EntryAt(files, i, q) && !files[i].deleted
  }

  predicate HasEntry(files: Files, q: Path) {
    exists i :: 0 <= i < |files| && EntryAt(files, i, q)
  }

  predicate LiveAt(files: Files, q: Path) {
    exists i :: 0 <= i < |files| && LiveEntryAt(files, i, q)
  }

  /** The live file comes from disk. */
  predicate AddedAt(files: Files, q: Path) {
    exists i :: 0 <= i < |files| && LiveEntryAt(files, i, q) && files[i].Added()
  }

  /** The name was removed and not added again. */
  predicate DeadAt(files: Files, q: Path) {
    HasEntry(files, q) && !LiveAt(files, q)
  }

  /** The live file has these flags and comes from this file on disk. */
  predicate HoldsAt(files: Files, q: Path, flags: Flags.Word, from: Text) {
    exists i :: 0 <= i < |files| && LiveEntryAt(files, i, q) && files[i].flags == flags && files[i].addedFrom == from
  }

  /** Behind a live file no other file of its name follows; so there is at most one live file per name. */
  predicate OneLive(files: Files) {
    forall i, j :: 0 <= i < j < |files| && !files[i].deleted ==> files[i].Key() != files[j].Key()
  }

  /** All files are in the folder. */
  predicate InFolder(files: Files, folder: Path) {
    forall i :: 0 <= i < |files| ==> |files[i].path| == |folder| + 1 && files[i].path[..|folder|] == folder
  }

  // ----- editing a folder -----

  /** The first live file with a name, the number of files if there is none. */
  function FindLive(files: Files, q: Path): (i: nat)
    ensures i <= |files|
    ensures i < |files| ==> LiveEntryAt(files, i, q)
    ensures forall k :: 0 <= k < i ==> !LiveEntryAt(files, k, q)
  {
    if files == [] then 0
    else if LiveEntryAt(files, 0, q) then 0
    else
      var i := FindLive(files[1..], q);
      assert forall k :: 1 <= k < |files| ==> (LiveEntryAt(files, k, q) <==> LiveEntryAt(files[1..], k - 1, q));
      i + 1
  }

  /** The files after adding one from disk over a possible live file of its name: a file from disk is overwritten in
      place, one of the package is marked as deleted and stays in the list. */
  function Replaced(files: Files, file: FileData): Files {
    var i := FindLive(files, file.Key());
    if i == |files| then files + [file]
    else if files[i].Added() then files[i := file.(addedFrom := files[i].addedFrom)]
    else files[i := files[i].(deleted := true)] + [file]
  }

  function AllDeleted(files: Files): (r: Files)
    ensures |r| == |files| && forall i :: 0 <= i < |files| ==> r[i] == files[i].(deleted := true)
  {
    seq(|files|, i requires 0 <= i < |files| => files[i].(deleted := true))
  }

  /** The files of the package, without those from disk. */
  function FromPackage(files: Files): Files {
    if files == [] then []
    else FromPackage(files[..|files| - 1]) + (if files[|files| - 1].Added() then [] else [files[|files| - 1]])
  }

  /** The last file with exactly the given name, -1 if there is none. */
  function FindLast(files: Files, path: Path): (i: int)
    ensures -1 <= i < |files|
    ensures i >= 0 ==> files[i].path == path
    ensures forall k :: i < k < |files| ==> files[k].path != path
  {
    if files == [] then -1
    else if files[|files| - 1].path == path then |files| - 1
    else FindLast(files[..|files| - 1], path)
  }

  /** The files after removing one: a file from disk disappears, one of the package is marked. */
  function Removed(files: Files, path: Path): Files {
    var i := FindLast(files, path);
    if i < 0 then files
    else if files[i].Added() then files[..i] + files[i + 1..]
    else files[i := files[i].(deleted := true)]
  }

  // ----- what editing keeps -----

  /** The names of the files of the package that are in the list, deleted or not. */
  function PackagePaths(files: Files): set<Path> {
    set f | f in files && !f.Added() :: f.path
  }

  /** A list a folder may have. */
  predicate Proper(files: Files, folder: Path) {
    OneLive(files) && InFolder(files, folder)
  }

  lemma UpdateOne(files: Files, i: nat, f: FileData, folder: Path)
    requires Proper(files, folder) && i < |files|
    requires f.Key() == files[i].Key() && InFolder([f], folder) && (files[i].deleted ==> f.deleted)
    ensures Proper(files[i := f], folder)
    ensures forall q :: q != f.Key() ==> (LiveAt(files[i := f], q) <==> LiveAt(files, q))
  {
    var r := files[i := f];
    assert [f][0] == f;
    forall q | q != f.Key() ensures LiveAt(r, q) <==> LiveAt(files, q) {
      assert forall k :: 0 <= k < |files| ==> (LiveEntryAt(r, k, q) <==> LiveEntryAt(files, k, q));
    }
  }

  lemma UpdatePaths(files: Files, i: nat, f: FileData)
    requires i < |files| && f.Added() == files[i].Added() && (f.Added() || f.path == files[i].path)
    ensures PackagePaths(files[i := f]) == PackagePaths(files)
  {
    var r := files[i := f];
    forall p ensures p in PackagePaths(r) <==> p in PackagePaths(files) {
      if p in PackagePaths(r) {
        var k :| 0 <= k < |r| && !r[k].Added() && r[k].path == p;
        assert files[k] in files && files[k].path == p && !files[k].Added();
      }
      if p in PackagePaths(files) {
        var k :| 0 <= k < |files| && !files[k].Added() && files[k].path == p;
        assert r[k] in r && r[k].path == p && !r[k].Added();
      }
    }
  }

  lemma AppendOne(files: Files, f: FileData, folder: Path)
    requires Proper(files, folder) && InFolder([f], folder) && f.Added() && !f.deleted && !LiveAt(files, f.Key())
    ensures Proper(files + [f], folder) && PackagePaths(files + [f]) == PackagePaths(files)
    ensures LiveAt(files + [f], f.Key())
    ensures forall q :: q != f.Key() ==> (LiveAt(files + [f], q) <==> LiveAt(files, q))
  {
    var r := files + [f];
    assert r[|files|] == f == [f][0] && forall k :: 0 <= k < |files| ==> r[k] == files[k];
    forall k | 0 <= k < |files| && !files[k].deleted ensures files[k].Key() != f.Key() {
      assert !LiveEntryAt(files, k, f.Key());
    }
    assert LiveEntryAt(r, |files|, f.Key());
    forall q | q != f.Key() ensures LiveAt(r, q) <==> LiveAt(files, q) {
      assert forall k :: 0 <= k < |files| ==> (LiveEntryAt(r, k, q) <==> LiveEntryAt(files, k, q));
    }
    assert forall g :: g in r <==> g in files || g == f;
  }

  lemma NoneLeft(files: Files, i: nat)
    requires OneLive(files) && i < |files| && !files[i].deleted
    ensures !LiveAt(files[i := files[i].(deleted := true)], files[i].Key())
  {
    var r := files[i := files[i].(deleted := true)];
    forall k | 0 <= k < |r| ensures !LiveEntryAt(r, k, files[i].Key()) {}
  }

  /** Adding a file makes its name live and touches no other name. */
  lemma ReplacedKeeps(files: Files, file: FileData, folder: Path)
    requires Proper(files, folder) && InFolder([file], folder) && file.Added() && !file.deleted
    ensures Proper(Replaced(files, file), folder) && PackagePaths(Replaced(files, file)) == PackagePaths(files)
    ensures LiveAt(Replaced(files, file), file.Key())
    ensures forall q :: q != file.Key() ==> (LiveAt(Replaced(files, file), q) <==> LiveAt(files, q))
  {
    var i := FindLive(files, file.Key());
    assert [file][0] == file;
    if i == |files| {
      assert !LiveAt(files, file.Key());
      AppendOne(files, file, folder);
    } else if files[i].Added() {
      var placed := file.(addedFrom := files[i].addedFrom);
      assert [placed][0] == placed;
      UpdateOne(files, i, placed, folder);
      UpdatePaths(files, i, placed);
      assert LiveEntryAt(files[i := placed], i, file.Key());
    } else {
      var marked := files[i].(deleted := true);
      assert [marked][0] == marked;
      UpdateOne(files, i, marked, folder);
      UpdatePaths(files, i, marked);
      NoneLeft(files, i);
      AppendOne(files[i := marked], file, folder);
    }
  }

  lemma AllDeletedKeeps(files: Files, folder: Path)
    requires InFolder(files, folder)
    ensures Proper(AllDeleted(files), folder) && PackagePaths(AllDeleted(files)) == PackagePaths(files)
    ensures forall q :: !LiveAt(AllDeleted(files), q)
  {
    var r := AllDeleted(files);
    forall p ensures p in PackagePaths(r) <==> p in PackagePaths(files) {
      if p in PackagePaths(r) {
        var k :| 0 <= k < |r| && !r[k].Added() && r[k].path == p;
        assert files[k] in files && files[k].path == p && !files[k].Added();
      }
      if p in PackagePaths(files) {
        var k :| 0 <= k < |files| && !files[k].Added() && files[k].path == p;
        assert r[k] in r && r[k].path == p && !r[k].Added();
      }
    }
  }

  lemma DropOne(files: Files, i: nat, folder: Path)
    requires Proper(files, folder) && i < |files| && files[i].Added()
    ensures Proper(files[..i] + files[i + 1..], folder)
    ensures PackagePaths(files[..i] + files[i + 1..]) == PackagePaths(files)
    ensures forall q :: LiveAt(files[..i] + files[i + 1..], q) ==> LiveAt(files, q)
  {
    var r := files[..i] + files[i + 1..];
    assert forall k :: 0 <= k < |r| ==> r[k] == files[if k < i then k else k + 1];
    forall q | LiveAt(r, q) ensures LiveAt(files, q) {
      var k :| 0 <= k < |r| && LiveEntryAt(r, k, q);
      assert LiveEntryAt(files, if k < i then k else k + 1, q);
    }
    assert files == files[..i] + [files[i]] + files[i + 1..];
    assert forall g :: g in files <==> g in r || g == files[i];
  }

  /** Removing a file makes no name live. */
  lemma RemovedKeeps(files: Files, path: Path, folder: Path)
    requires Proper(files, folder)
    ensures Proper(Removed(files, path), folder) && PackagePaths(Removed(files, path)) == PackagePaths(files)
    ensures forall q :: LiveAt(Removed(files, path), q) ==> LiveAt(files, q)
  {
    var i := FindLast(files, path);
    if i >= 0 {
      if files[i].Added() {
        DropOne(files, i, folder);
      } else {
        var marked := files[i].(deleted := true);
        assert [marked][0] == marked;
        UpdateOne(files, i, marked, folder);
        UpdatePaths(files, i, marked);
        if LiveAt(files[i := marked], marked.Key()) {
          var k :| 0 <= k < |files| && LiveEntryAt(files[i := marked], k, marked.Key());
          assert LiveEntryAt(files, k, marked.Key());
        }
      }
    }
  }

  /** `kept` are the files of the package in `files`, in order, found at the given positions. */
  ghost predicate PickedAt(files: Files, kept: Files, places: seq<nat>) {
    && |places| == |kept|
    && (forall i, j :: 0 <= i < j < |places| ==> places[i] < places[j])
    && (forall i :: 0 <= i < |places| ==> places[i] < |files| && kept[i] == files[places[i]])
    && (forall k :: 0 <= k < |files| ==> (k in places <==> !files[k].Added()))
  }

  ghost predicate Picked(files: Files, kept: Files) {
    exists places :: PickedAt(files, kept, places)
  }

  lemma {:induction false} FromPackagePicked(files: Files) returns (places: seq<nat>)
    ensures PickedAt(files, FromPackage(files), places)
    decreases |files|
  {
    if files == [] {
      places := [];
    } else {
      var init := files[..|files| - 1];
      var before := FromPackagePicked(init);
      assert forall i :: 0 <= i < |before| ==> before[i] in before;
      places := before + if files[|init|].Added() then [] else [|init|];
      forall k | 0 <= k < |files| ensures k in places <==> !files[k].Added() {
        assert k < |init| ==> init[k] == files[k];
        assert !files[|init|].Added() ==> places[|before|] == |init|;
      }
    }
  }

  lemma FromPackageKeeps(files: Files, folder: Path)
    requires Proper(files, folder)
    ensures Proper(FromPackage(files), folder) && PackagePaths(FromPackage(files)) == PackagePaths(files)
    ensures forall f :: f in FromPackage(files) <==> f in files && !f.Added()
  {
    var kept := FromPackage(files);
    var places := FromPackagePicked(files);
    hide FromPackage;
    assert forall i :: 0 <= i < |places| ==> places[i] in places && !files[places[i]].Added();
    forall f ensures f in kept <==> f in files && !f.Added() {
      if f in files && !f.Added() {
        var k :| 0 <= k < |files| && files[k] == f;
        var i :| 0 <= i < |places| && places[i] == k;
        assert kept[i] == f;
      }
    }
  }

  /** The files after removing some, one after the other. */
  function RemovedAll(files: Files, folder: Path, names: seq<Text>): Files {
    if names == [] then files
    else Removed(RemovedAll(files, folder, names[..|names| - 1]), folder + [names[|names| - 1]])
  }

  lemma {:induction false} RemovedAllKeeps(files: Files, folder: Path, names: seq<Text>)
    requires Proper(files, folder)
    ensures Proper(RemovedAll(files, folder, names), folder)
    ensures PackagePaths(RemovedAll(files, folder, names)) == PackagePaths(files)
    ensures forall q :: LiveAt(RemovedAll(files, folder, names), q) ==> LiveAt(files, q)
    decreases |names|
  {
    if names != [] {
      var before := RemovedAll(files, folder, names[..|names| - 1]);
      RemovedAllKeeps(files, folder, names[..|names| - 1]);
      RemovedKeeps(before, folder + [names[|names| - 1]], folder);
    }
  }

  /** Removing takes away the live file of exactly the name, if there is one, and leaves the others as they are. */
  lemma RemovedExact(files: Files, path: Path, f: FileData)
    requires OneLive(files) && !f.deleted
    ensures f in Removed(files, path) <==> f in files && f.path != path
  {
    var r, i := Removed(files, path), FindLast(files, path);
    if i >= 0 {
      forall k | 0 <= k < |files| && !files[k].deleted && files[k].path == path ensures k == i {
        assert files[k].Key() == files[i].Key();
      }
      if files[i].Added() {
        assert forall k :: 0 <= k < |r| ==> r[k] == files[if k < i then k else k + 1];
      }
      if k :| 0 <= k < |files| && files[k] == f && f.path != path {
        assert r[if files[i].Added() && k > i then k - 1 else k] == f;
      }
      if k :| 0 <= k < |r| && r[k] == f {
        assert files[if files[i].Added() && k >= i then k + 1 else k] == f;
      }
    }
  }

  /** The name is one of the selected ones. */
  predicate Selected(folder: Path, names: seq<Text>, path: Path) {
    exists k :: 0 <= k < |names| && path == folder + [names[k]]
  }

  /** Removing several selected files takes away exactly the live files of these names. */
  lemma {:induction false} RemovedAllExact(files: Files, folder: Path, names: seq<Text>, f: FileData)
    requires Proper(files, folder) && !f.deleted
    ensures f in RemovedAll(files, folder, names) <==> f in files && !Selected(folder, names, f.path)
    decreases |names|
  {
    if names != [] {
      var init, last := names[..|names| - 1], names[|names| - 1];
      RemovedAllExact(files, folder, init, f);
      RemovedAllKeeps(files, folder, init);
      RemovedExact(RemovedAll(files, folder, init), folder + [last], f);
      assert Selected(folder, names, f.path) <==> Selected(folder, init, f.path) || f.path == folder + [last] by {
        assert forall k :: 0 <= k < |init| ==> names[k] == init[k];
      }
    }
  }

  lemma DropOther(files: Files, i: nat, q: Path)
    requires i < |files| && files[i].Key() != q
    ensures LiveAt(files[..i] + files[i + 1..], q) <==> LiveAt(files, q)
  {
    var r := files[..i] + files[i + 1..];
    assert forall k :: 0 <= k < |r| ==> r[k] == files[if k < i then k else k + 1];
    if LiveAt(files, q) {
      var k :| 0 <= k < |files| && LiveEntryAt(files, k, q);
      assert LiveEntryAt(r, if k < i then k else k - 1, q);
    }
    if LiveAt(r, q) {
      var k :| 0 <= k < |r| && LiveEntryAt(r, k, q);
      assert LiveEntryAt(files, if k < i then k else k + 1, q);
    }
  }

  lemma MarkOther(files: Files, i: nat, f: FileData, q: Path)
    requires i < |files| && f.Key() == files[i].Key() != q
    ensures LiveAt(files[i := f], q) <==> LiveAt(files, q)
  {
    var r := files[i := f];
    if LiveAt(files, q) {
      var k :| 0 <= k < |files| && LiveEntryAt(files, k, q);
      assert LiveEntryAt(r, k, q);
    }
    if LiveAt(r, q) {
      var k :| 0 <= k < |r| && LiveEntryAt(r, k, q);
      assert LiveEntryAt(files, k, q);
    }
  }

  lemma DropLast(files: Files, i: nat)
    requires OneLive(files) && i < |files| && !files[i].deleted
    ensures !LiveAt(files[..i] + files[i + 1..], files[i].Key())
  {
    var r := files[..i] + files[i + 1..];
    assert forall k :: 0 <= k < |r| ==> r[k] == files[if k < i then k else k + 1];
    forall k | 0 <= k < |r| ensures !LiveEntryAt(r, k, files[i].Key()) {}
  }

  /** Removing takes the name away if the last file called exactly so is live, and changes no other name. */
  lemma RemovedIsDead(files: Files, path: Path, folder: Path, q: Path)
    requires Proper(files, folder)
    ensures var i := FindLast(files, path);
            i >= 0 && !files[i].deleted ==> !LiveAt(Removed(files, path), FoldPath(path))
    ensures q != FoldPath(path) ==> (LiveAt(Removed(files, path), q) <==> LiveAt(files, q))
  {
    var i := FindLast(files, path);
    if i >= 0 {
      if !files[i].deleted {
        DropLast(files, i);
        NoneLeft(files, i);
      }
      if q != FoldPath(path) {
        DropOther(files, i, q);
        MarkOther(files, i, files[i].(deleted := true), q);
      }
    }
  }

  lemma {:induction false} FromPackageHead(f: FileData, files: Files)
    ensures FromPackage([f] + files) == (if f.Added() then [] else [f]) + FromPackage(files)
    decreases |files|
  {
    if files == [] {
      assert [f] + files == [f] && [f][..0] == [];
    } else {
      var init, last := files[..|files| - 1], files[|files| - 1];
      assert ([f] + files)[..|files|] == [f] + init;
      FromPackageHead(f, init);
    }
  }

  lemma FromPackageOfNone(files: Files)
    ensures files == files[..|files|] + FromPackage(files[|files|..])
  {
    assert files[|files|..] == [];
  }

  /** Going backwards through a list, a file from disk is taken out where it stands. */
  lemma TakenOut(files: Files, i: nat, rest: Files)
    requires i < |files|
    ensures var r := files[..i + 1] + rest;
            && i < |r| && r == files[..i] + ([files[i]] + rest)
            && r[..i] + r[i + 1..] == files[..i] + ([] + rest)
    ensures files[i..] == [files[i]] + files[i + 1..]
  {
    assert files[..i + 1] == files[..i] + [files[i]];
  }

  // ----- saving a folder -----

  /** A file of a package: its flags, and the file on disk whose bytes it has. */
  datatype PackedFile = PackedFile(flags: Flags.Word, origin: Text)

  /** The files of a package by their folded names. */
  type Contents = map<Path, PackedFile>

  /** `DeleteFile` on a name removes it and everything below it. */
  function Delete(m: Contents, q: Path): Contents {
    map k | k in m && !(q <= k) :: m[k]
  }

  function Add(m: Contents, q: Path, origin: Text, flags: Flags.Word): Contents {
    m[q := PackedFile(flags, origin)]
  }

  function SetFlags(m: Contents, q: Path, flags: Flags.Word): Contents {
    if q in m then m[q := m[q].(flags := flags)] else m
  }

  /** What saving one file of a folder does. */
  function SaveOne(files: Files, f: FileData, m: Contents): Contents {
    if f.deleted then
      if LiveAt(files, f.Key()) then m else Delete(m, f.Key())
    else
      SetFlags(if f.Added() then Add(m, f.Key(), f.addedFrom, f.flags) else m, f.Key(), f.flags)
  }

  /** The package after the first `n` files. */
  function SaveFirst(files: Files, n: nat, m: Contents): Contents
    requires n <= |files|
  {
    if n == 0 then m else SaveOne(files, files[n - 1], SaveFirst(files, n - 1, m))
  }

  /** What is saved of a live file: its flags, and its bytes from disk or as the package had them. */
  predicate SavedFrom(f: FileData, m: Contents, q: Path, e: PackedFile) {
    e.flags == f.flags && if f.Added() then e.origin == f.addedFrom else q in m && e.origin == m[q].origin
  }

  predicate KeptAt(files: Files, q: Path, m: Contents, e: PackedFile) {
    exists i :: 0 <= i < |files| && LiveEntryAt(files, i, q) && SavedFrom(files[i], m, q, e)
  }

  /** A dead name of the folder stands above the name. */
  predicate Shadowed(files: Files, q: Path) {
    exists k :: 0 <= k < |q| && DeadAt(files, q[..k])
  }

  /** The package after saving the files of a folder. */
  ghost predicate FilesSaved(files: Files, m: Contents, m': Contents) {
    && (forall q :: HasEntry(files, q) ==>
          (q in m' <==> AddedAt(files, q) || (LiveAt(files, q) && q in m)) && (q in m' ==> KeptAt(files, q, m, m'[q])))
    && (forall q :: !HasEntry(files, q) && Shadowed(files, q) ==> q !in m')
    && (forall q :: !HasEntry(files, q) && !Shadowed(files, q) ==> SameAt(m, m', q))
  }

  predicate SameAt(m: Contents, m': Contents, q: Path) {
    (q in m <==> q in m') && (q in m ==> m[q] == m'[q])
  }

  /** The state of one name of the folder when some of its files are saved. */
  ghost predicate EntrySaved(files: Files, n: nat, m: Contents, m': Contents, q: Path)
    requires n <= |files|
  {
    if exists i :: 0 <= i < n && LiveEntryAt(files, i, q) then
      (q in m' <==> AddedAt(files, q) || q in m) && (q in m' ==> KeptAt(files, q, m, m'[q]))
    else if DeadAt(files, q) && exists i :: 0 <= i < n && EntryAt(files, i, q) then
      q !in m'
    else
      SameAt(m, m', q)
  }

  ghost predicate OtherSaved(files: Files, n: nat, m: Contents, m': Contents, q: Path)
    requires n <= |files|
  {
    if exists i :: 0 <= i < n && DeadAt(files, files[i].Key()) && files[i].Key() < q then q !in m' else SameAt(m, m', q)
  }

  lemma SameLength(files: Files, folder: Path, i: nat, j: nat)
    requires InFolder(files, folder) && i < |files| && j < |files|
    ensures |files[i].Key()| == |files[j].Key()| == |folder| + 1
    ensures files[i].Key() <= files[j].Key() ==> files[i].Key() == files[j].Key()
  {
  }

  lemma {:induction false} EntrySteps(files: Files, folder: Path, n: nat, m: Contents, q: Path)
    requires Proper(files, folder) && n <= |files| && HasEntry(files, q)
    ensures EntrySaved(files, n, m, SaveFirst(files, n, m), q)
  {
    if n > 0 {
      EntrySteps(files, folder, n - 1, m, q);
      if files[n - 1].Key() != q {
        OtherNameStep(files, folder, n, m, q);
      } else if files[n - 1].deleted {
        DeletedStep(files, n, m, q);
      } else {
        LiveStep(files, n, m, q);
      }
    }
  }

  lemma OtherNameSame(files: Files, folder: Path, n: nat, m: Contents, q: Path)
    requires Proper(files, folder) && 0 < n <= |files| && HasEntry(files, q) && files[n - 1].Key() != q
    ensures SameAt(SaveFirst(files, n - 1, m), SaveFirst(files, n, m), q)
    ensures !EntryAt(files, n - 1, q) && !LiveEntryAt(files, n - 1, q)
  {
    var e :| 0 <= e < |files| && EntryAt(files, e, q);
    SameLength(files, folder, n - 1, e);
  }

  lemma OtherNameStep(files: Files, folder: Path, n: nat, m: Contents, q: Path)
    requires Proper(files, folder) && 0 < n <= |files| && HasEntry(files, q) && files[n - 1].Key() != q
    requires EntrySaved(files, n - 1, m, SaveFirst(files, n - 1, m), q)
    ensures EntrySaved(files, n, m, SaveFirst(files, n, m), q)
  {
    hide Proper, HasEntry, EntryAt, LiveEntryAt, DeadAt, AddedAt, KeptAt, SaveFirst;
    OtherNameSame(files, folder, n, m, q);
    assert forall i :: 0 <= i < n && EntryAt(files, i, q) ==> i < n - 1;
    assert forall i :: 0 <= i < n && LiveEntryAt(files, i, q) ==> i < n - 1;
  }

  lemma DeletedStep(files: Files, n: nat, m: Contents, q: Path)
    requires 0 < n <= |files| && HasEntry(files, q) && files[n - 1].Key() == q && files[n - 1].deleted
    requires EntrySaved(files, n - 1, m, SaveFirst(files, n - 1, m), q)
    ensures EntrySaved(files, n, m, SaveFirst(files, n, m), q)
  {
    assert EntryAt(files, n - 1, q) && !LiveEntryAt(files, n - 1, q);
    if LiveAt(files, q) {
      assert SaveFirst(files, n, m) == SaveFirst(files, n - 1, m);
      assert !DeadAt(files, q);
      assert forall i :: 0 <= i < n && LiveEntryAt(files, i, q) ==> i < n - 1;
    } else {
      assert forall i :: 0 <= i < |files| ==> !LiveEntryAt(files, i, q);
      assert q !in SaveFirst(files, n, m);
    }
  }

  lemma LiveStep(files: Files, n: nat, m: Contents, q: Path)
    requires OneLive(files) && 0 < n <= |files| && LiveEntryAt(files, n - 1, q)
    requires EntrySaved(files, n - 1, m, SaveFirst(files, n - 1, m), q)
    ensures EntrySaved(files, n, m, SaveFirst(files, n, m), q)
  {
    var f := files[n - 1];
    assert forall i :: 0 <= i < n - 1 ==> !LiveEntryAt(files, i, q);
    assert LiveAt(files, q) && !DeadAt(files, q);
    assert SameAt(m, SaveFirst(files, n - 1, m), q);
    if AddedAt(files, q) {
      var i :| 0 <= i < |files| && LiveEntryAt(files, i, q) && files[i].Added();
      assert i == n - 1;
    }
    assert f.Added() ==> AddedAt(files, q);
    var m' := SaveFirst(files, n, m);
    assert q in m' ==> SavedFrom(f, m, q, m'[q]);
  }

  lemma {:induction false} OtherSteps(files: Files, folder: Path, n: nat, m: Contents, q: Path)
    requires Proper(files, folder) && n <= |files| && !HasEntry(files, q)
    ensures OtherSaved(files, n, m, SaveFirst(files, n, m), q)
  {
    if n > 0 {
      OtherSteps(files, folder, n - 1, m, q);
      var f := files[n - 1];
      assert EntryAt(files, n - 1, f.Key());
      assert HasEntry(files, f.Key()) && f.Key() != q;
      assert f.deleted && !LiveAt(files, f.Key()) <==> DeadAt(files, f.Key()) by {
        if !f.deleted { assert LiveEntryAt(files, n - 1, f.Key()); }
      }
    }
  }

  /** Saving all files of a folder makes each of its names in the package what the list says, whatever the order of the
      list; all other names stay, except those below a removed one. */
  lemma AllSaved(files: Files, folder: Path, m: Contents)
    requires Proper(files, folder)
    ensures FilesSaved(files, m, SaveFirst(files, |files|, m))
  {
    var m' := SaveFirst(files, |files|, m);
    forall q
      ensures HasEntry(files, q) ==>
                && (q in m' <==> AddedAt(files, q) || (LiveAt(files, q) && q in m))
                && (q in m' ==> KeptAt(files, q, m, m'[q]))
      ensures !HasEntry(files, q) && Shadowed(files, q) ==> q !in m'
      ensures !HasEntry(files, q) && !Shadowed(files, q) ==> SameAt(m, m', q)
    {
      if HasEntry(files, q) {
        EntrySteps(files, folder, |files|, m, q);
        assert AddedAt(files, q) ==> LiveAt(files, q);
      } else {
        OtherSteps(files, folder, |files|, m, q);
        ShadowedByEntry(files, q);
      }
    }
  }

  lemma ShadowedByEntry(files: Files, q: Path)
    ensures Shadowed(files, q) <==> exists i :: 0 <= i < |files| && DeadAt(files, files[i].Key()) && files[i].Key() < q
  {
    if Shadowed(files, q) {
      var k :| 0 <= k < |q| && DeadAt(files, q[..k]);
      var i :| 0 <= i < |files| && EntryAt(files, i, q[..k]);
      assert DeadAt(files, files[i].Key()) && files[i].Key() < q;
    }
    if i :| 0 <= i < |files| && DeadAt(files, files[i].Key()) && files[i].Key() < q {
      assert q[..|files[i].Key()|] == files[i].Key();
    }
  }
}
