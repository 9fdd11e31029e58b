/** The single steps of adding files and folders from disk (PackageEditor/FileSystemEditor.cs). */
module DiskAdd {
  import opened Utf16
  import opened CaseFold
  import opened FileLists
  import opened FolderTree
  import opened SaveTree
  import opened EditTree
  import opened DiskTree
  import Flags = FileFlags

  /** The entry of a file from disk. */
  function FileOf(parent: FolderTreeNode, d: Disk): FileData
    requires d.File?
  {
    FileData(parent.FileName + [d.name], DiskFlags(d.name), d.size, d.source, false)
  }

  // ----- a file -----

  /** The live file of a name marked as deleted. */
  function Marked(files: Files, q: Path): Files {
    var i := FindLive(files, q);
    if i == |files| then files else files[i := files[i].(deleted := true)]
  }

  /** The folder has a live file of this name that comes from disk. */
  predicate InPlace(files: Files, q: Path) {
    var i := FindLive(files, q);
    i < |files| && files[i].Added()
  }

  /** The files of a folder after adding one, if a folder of exactly this name is in the way or not. */
  function FilesWith(files: Files, file: FileData, occupied: bool): Files {
    if occupied && !InPlace(files, file.Key()) then Marked(files, file.Key()) else Replaced(files, file)
  }

  /** The tree after adding a file. */
  ghost function FilePut(v: View, parent: FolderTreeNode, file: FileData): View
    requires parent in v.lists && file.path != []
  {
    var occupied := Occupied(v.nodes, parent, file.path);
    var w := WithFiles(v, parent, FilesWith(v.lists[parent], file, occupied));
    if occupied || InPlace(v.lists[parent], file.Key()) then w else WithSize(w, parent, file.size)
  }

  lemma FilePutCases(v: View, parent: FolderTreeNode, file: FileData)
    requires Good(v) && parent in v.nodes && file.path != []
    ensures var files := v.lists[parent];
            var i := FindLive(files, file.Key());
            var marked := WithFiles(v, parent, Marked(files, file.Key()));
            && (InPlace(files, file.Key()) ==>
                  FilePut(v, parent, file) == WithFiles(v, parent, files[i := file.(addedFrom := files[i].addedFrom)]))
            && (!InPlace(files, file.Key()) && Occupied(v.nodes, parent, file.path) ==>
                  FilePut(v, parent, file) == marked)
            && (!InPlace(files, file.Key()) && !Occupied(v.nodes, parent, file.path) ==>
                  FilePut(v, parent, file) == FileAdded(marked, parent, file))
  {
    var files := v.lists[parent];
    var a, b := Marked(files, file.Key()), Replaced(files, file);
    assert v.lists[parent := a][parent := b] == v.lists[parent := b];
  }

  /** The file may be added to the list after a live one of its name is marked. */
  lemma MarkedFirst(v: View, parent: FolderTreeNode, file: FileData)
    requires Good(v) && Wired(v) && parent in v.nodes && InFolder([file], parent.FileName)
    requires file.Added() && !file.deleted && !InPlace(v.lists[parent], file.Key())
    ensures var marked := Marked(v.lists[parent], file.Key());
            && Good(WithFiles(v, parent, marked)) && Wired(WithFiles(v, parent, marked))
            && Proper(marked + [file], parent.FileName)
  {
    var marked := Marked(v.lists[parent], file.Key());
    MarkedKeeps(v.lists[parent], file.Key(), parent.FileName);
    WithFilesKeeps(v, parent, marked);
    AppendOne(marked, file, parent.FileName);
  }

  lemma InPlaceAdded(files: Files, q: Path)
    requires OneLive(files)
    ensures InPlace(files, q) <==> AddedAt(files, q)
    ensures FindLive(files, q) == |files| <==> !LiveAt(files, q)
  {
    var i := FindLive(files, q);
    if LiveAt(files, q) {
      var k :| 0 <= k < |files| && LiveEntryAt(files, k, q);
      assert !(k < i);
      assert i < |files| && LiveEntryAt(files, i, q);
    }
    if AddedAt(files, q) {
      var k :| 0 <= k < |files| && LiveEntryAt(files, k, q) && files[k].Added();
      assert i == k;
    }
  }

  lemma MarkedKeeps(files: Files, q: Path, folder: Path)
    requires Proper(files, folder)
    ensures Proper(Marked(files, q), folder) && PackagePaths(Marked(files, q)) == PackagePaths(files)
    ensures !LiveAt(Marked(files, q), q)
    ensures forall r :: r != q ==> (LiveAt(Marked(files, q), r) <==> LiveAt(files, r))
  {
    var i := FindLive(files, q);
    if i < |files| {
      var marked := files[i].(deleted := true);
      assert [marked][0] == marked;
      UpdateOne(files, i, marked, folder);
      UpdatePaths(files, i, marked);
      NoneLeft(files, i);
    }
  }

  lemma FilesWithKeeps(files: Files, file: FileData, occupied: bool, folder: Path)
    requires Proper(files, folder) && InFolder([file], folder) && file.Added() && !file.deleted
    ensures Proper(FilesWith(files, file, occupied), folder)
    ensures PackagePaths(FilesWith(files, file, occupied)) == PackagePaths(files)
    ensures LiveAt(FilesWith(files, file, occupied), file.Key()) <==> !occupied || AddedAt(files, file.Key())
    ensures forall r :: r != file.Key() ==> (LiveAt(FilesWith(files, file, occupied), r) <==> LiveAt(files, r))
  {
    InPlaceAdded(files, file.Key());
    MarkedKeeps(files, file.Key(), folder);
    ReplacedKeeps(files, file, folder);
  }

  /** Where the live files come from stays the same for all other names, and the file itself comes from disk. The list
      is longer by one if the file is at its end. */
  lemma FilesWithAdded(files: Files, file: FileData, occupied: bool)
    requires OneLive(files) && file.Added() && !file.deleted
    ensures var r := FilesWith(files, file, occupied);
            && (forall q :: q != file.Key() ==> (AddedAt(r, q) <==> AddedAt(files, q)))
            && (LiveAt(r, file.Key()) ==> AddedAt(r, file.Key()))
            && (forall q, flags, from :: q != file.Key() ==>
                  (HoldsAt(r, q, flags, from) <==> HoldsAt(files, q, flags, from)))
            && |r| == |files| + (if occupied || InPlace(files, file.Key()) then 0 else 1)
  {
    var r, i := FilesWith(files, file, occupied), FindLive(files, file.Key());
    assert i < |files| ==> files[i].Key() == file.Key();
    forall k | 0 <= k < |files| && k != i ensures r[k] == files[k] && !LiveEntryAt(files, k, file.Key()) {}
    forall q | q != file.Key() ensures AddedAt(r, q) <==> AddedAt(files, q) {
      assert forall k :: 0 <= k < |files| ==> (LiveEntryAt(r, k, q) <==> LiveEntryAt(files, k, q));
    }
    forall q, flags, from | q != file.Key() ensures HoldsAt(r, q, flags, from) <==> HoldsAt(files, q, flags, from) {
      assert forall k :: 0 <= k < |files| ==> (LiveEntryAt(r, k, q) <==> LiveEntryAt(files, k, q));
    }
    if LiveAt(r, file.Key()) {
      var k :| 0 <= k < |r| && LiveEntryAt(r, k, file.Key());
      assert r[k].Added();
    }
  }

  /** A file that is overwritten in place keeps the file on disk it came from; any other is the new one. */
  lemma FilesWithNew(files: Files, file: FileData, occupied: bool)
    requires OneLive(files) && file.Added() && !file.deleted && LiveAt(FilesWith(files, file, occupied), file.Key())
    ensures var r := FilesWith(files, file, occupied);
            if AddedAt(files, file.Key()) then
              exists flags, from :: HoldsAt(files, file.Key(), flags, from) && HoldsAt(r, file.Key(), file.flags, from)
            else HoldsAt(r, file.Key(), file.flags, file.addedFrom)
  {
    var r, i := FilesWith(files, file, occupied), FindLive(files, file.Key());
    InPlaceAdded(files, file.Key());
    if AddedAt(files, file.Key()) {
      assert LiveEntryAt(r, i, file.Key()) && r[i].flags == file.flags && r[i].addedFrom == files[i].addedFrom;
      assert HoldsAt(files, file.Key(), files[i].flags, files[i].addedFrom);
    } else {
      var k :| 0 <= k < |r| && LiveEntryAt(r, k, file.Key());
      assert k == |files| && r[k] == file;
    }
  }

  /** The tree with new sizes for some folders. */
  lemma WithSizeKeeps(v: View, n: FolderTreeNode, size: nat)
    requires Good(v) && Wired(v)
    ensures Good(WithSize(v, n, size)) && Wired(WithSize(v, n, size)) && SamePackage(v, WithSize(v, n, size))
    ensures forall q :: LiveIn(WithSize(v, n, size), q) <==> LiveIn(v, q)
    ensures forall q :: AddedIn(WithSize(v, n, size), q) <==> AddedIn(v, q)
    ensures forall q :: SameHolds(v, WithSize(v, n, size), q)
  {
  }

  lemma SameHoldsTwice(v: View, w: View, x: View, q: Path)
    requires SameHolds(v, w, q) && SameHolds(w, x, q)
    ensures SameHolds(v, x, q)
  {
  }

  /** Live names of the folder are those of the tree directly below it. */
  lemma LiveOfFolder(v: View, n: FolderTreeNode, q: Path)
    requires Good(v) && n in v.nodes && q != [] && Above(q) == n.Key()
    ensures LiveIn(v, q) <==> LiveAt(v.lists[n], q)
    ensures AddedIn(v, q) <==> AddedAt(v.lists[n], q)
    ensures forall flags, from :: HoldsIn(v, q, flags, from) <==> HoldsAt(v.lists[n], q, flags, from)
  {
    forall k | k in v.nodes && HasEntry(v.lists[k], q) ensures k == n {
      EntryFolder(v, k, q);
      SameNode(v.nodes, v.root, k, n);
    }
    forall k | k in v.nodes && LiveAt(v.lists[k], q) ensures HasEntry(v.lists[k], q) {
      var i :| 0 <= i < |v.lists[k]| && LiveEntryAt(v.lists[k], i, q);
      assert EntryAt(v.lists[k], i, q);
    }
    forall k | k in v.nodes && AddedAt(v.lists[k], q) ensures LiveAt(v.lists[k], q) {
      var i :| 0 <= i < |v.lists[k]| && LiveEntryAt(v.lists[k], i, q) && v.lists[k][i].Added();
    }
    forall k, flags, from | k in v.nodes && HoldsAt(v.lists[k], q, flags, from) ensures k == n {
      HoldsIsLive(v.lists[k], q, flags, from);
    }
  }

  lemma HoldsIsLive(files: Files, q: Path, flags: Flags.Word, from: Text)
    ensures HoldsAt(files, q, flags, from) ==> LiveAt(files, q)
  {
  }

  /** What a list of another folder says about live names stays. */
  lemma LiveElsewhere(v: View, n: FolderTreeNode, files: Files, q: Path)
    requires Good(v) && n in v.nodes && (LiveAt(files, q) <==> LiveAt(v.lists[n], q))
    ensures LiveIn(WithFiles(v, n, files), q) <==> LiveIn(v, q)
  {
    var w := WithFiles(v, n, files);
    assert forall k :: k in v.nodes ==> (LiveAt(w.lists[k], q) <==> LiveAt(v.lists[k], q));
  }

  lemma AddedElsewhere(v: View, n: FolderTreeNode, files: Files, q: Path)
    requires Good(v) && n in v.nodes && (AddedAt(files, q) <==> AddedAt(v.lists[n], q))
    ensures AddedIn(WithFiles(v, n, files), q) <==> AddedIn(v, q)
  {
    var w := WithFiles(v, n, files);
    assert forall k :: k in v.nodes ==> (AddedAt(w.lists[k], q) <==> AddedAt(v.lists[k], q));
  }

  lemma HoldsElsewhere(v: View, n: FolderTreeNode, files: Files, q: Path)
    requires Good(v) && n in v.nodes
    requires forall flags, from :: HoldsAt(files, q, flags, from) <==> HoldsAt(v.lists[n], q, flags, from)
    ensures SameHolds(v, WithFiles(v, n, files), q)
  {
    var w := WithFiles(v, n, files);
    assert forall k, flags, from :: k in v.nodes ==>
      (HoldsAt(w.lists[k], q, flags, from) <==> HoldsAt(v.lists[k], q, flags, from));
  }

  lemma BlockedOccupied(v: View, parent: FolderTreeNode, name: Text)
    requires Good(v) && parent in v.nodes
    ensures BlockedAt(v, parent.Key() + [Fold(name)], name) <==> Occupied(v.nodes, parent, parent.FileName + [name])
  {
    var q := parent.Key() + [Fold(name)];
    forall n | n in v.nodes && n.text == name ensures n.Key() == q <==> n.Parent == parent {
      Up(v.nodes, v.root, n);
      if n.Key() == q {
        assert n.Key()[..|q| - 1] == parent.Key();
        SameNode(v.nodes, v.root, n.Parent, parent);
      }
    }
    assert (parent.FileName + [name])[|parent.FileName|] == name;
  }

  lemma FilePutKeeps(v: View, parent: FolderTreeNode, file: FileData)
    requires Good(v) && Wired(v) && parent in v.nodes && InFolder([file], parent.FileName) && file.path != []
    requires file.Added() && !file.deleted
    ensures Good(FilePut(v, parent, file)) && Wired(FilePut(v, parent, file))
    ensures SamePackage(v, FilePut(v, parent, file))
    ensures forall q :: q != file.Key() ==> (LiveIn(FilePut(v, parent, file), q) <==> LiveIn(v, q))
    ensures forall q :: q != file.Key() ==> (AddedIn(FilePut(v, parent, file), q) <==> AddedIn(v, q))
    ensures forall q :: q != file.Key() ==> SameHolds(v, FilePut(v, parent, file), q)
    ensures forall n :: n in v.nodes ==> NotShorter(v, FilePut(v, parent, file), n)
  {
    hide Shape, Closed, Proper, LiveIn, AddedIn, SameHolds, FilesWith;
    var occupied := Occupied(v.nodes, parent, file.path);
    var files := FilesWith(v.lists[parent], file, occupied);
    assert Proper(v.lists[parent], parent.FileName);
    FilesWithKeeps(v.lists[parent], file, occupied, parent.FileName);
    ProperOneLive(v.lists[parent], parent.FileName);
    FilesWithAdded(v.lists[parent], file, occupied);
    WithFilesKeeps(v, parent, files);
    WithFilesPackage(v, parent, files);
    WithSizeKeeps(WithFiles(v, parent, files), parent, file.size);
    forall q | q != file.Key()
      ensures LiveIn(WithFiles(v, parent, files), q) <==> LiveIn(v, q)
      ensures AddedIn(WithFiles(v, parent, files), q) <==> AddedIn(v, q)
      ensures SameHolds(v, FilePut(v, parent, file), q)
    {
      LiveElsewhere(v, parent, files, q);
      AddedElsewhere(v, parent, files, q);
      HoldsElsewhere(v, parent, files, q);
      SameHoldsTwice(v, WithFiles(v, parent, files), WithSize(WithFiles(v, parent, files), parent, file.size), q);
    }
  }

  lemma ProperOneLive(files: Files, folder: Path)
    requires Proper(files, folder)
    ensures OneLive(files)
  {
  }

  /** The file is the one from disk. */
  predicate IsFrom(file: FileData, parent: FolderTreeNode, d: Disk) {
    && d.File? && file.path == parent.FileName + [d.name] && !file.deleted
    && file.flags == DiskFlags(d.name) && file.addedFrom == d.source != []
  }

  lemma FilePutLive(v: View, parent: FolderTreeNode, file: FileData, d: Disk)
    requires Good(v) && Wired(v) && parent in v.nodes && IsFrom(file, parent, d) && InFolder([file], parent.FileName)
    requires file.Key() == parent.Key() + [Fold(d.name)] && Good(FilePut(v, parent, file))
    ensures var w, q := FilePut(v, parent, file), file.Key();
            && (LiveIn(w, q) <==> !BlockedAt(v, q, d.name) || AddedIn(v, q))
            && Fetched(v, w, d, q, d)
  {
    hide DiskFlags, FilesWith, HoldsAt, LiveAt, AddedAt, LiveIn, AddedIn, HoldsIn, Occupied, BlockedAt, Shape, Closed;
    var files, occupied := v.lists[parent], Occupied(v.nodes, parent, file.path);
    assert Proper(files, parent.FileName);
    FilesWithAdded(files, file, occupied);
    FilesWithKeeps(files, file, occupied, parent.FileName);
    if LiveAt(FilesWith(files, file, occupied), file.Key()) { FilesWithNew(files, file, occupied); }
    LiveOfFolder(v, parent, file.Key());
    LiveOfFolder(FilePut(v, parent, file), parent, file.Key());
    BlockedOccupied(v, parent, d.name);
    assert FilePut(v, parent, file).lists[parent] == FilesWith(files, file, occupied);
  }

  /** Only the live state of one name changes. */
  lemma Putting(v: View, w: View, base: Path, d: Disk)
    requires Good(w) && Wired(w) && SamePackage(v, w) && w.root == v.root && w.nodes == v.nodes && w.gone == v.gone
    requires d.File?
    requires forall q :: q != KeyOf(base, d) ==> (LiveIn(w, q) <==> LiveIn(v, q)) && (AddedIn(w, q) <==> AddedIn(v, q))
    requires forall q :: q != KeyOf(base, d) ==> SameHolds(v, w, q)
    requires Fetched(v, w, d, KeyOf(base, d), d) && forall n :: n in v.nodes ==> NotShorter(v, w, n)
    requires LiveIn(w, KeyOf(base, d)) <==> !BlockedAt(v, KeyOf(base, d), d.name) || AddedIn(v, KeyOf(base, d))
    ensures Step(v, w, KeyOf(base, d)) && Put(v, w, base, d)
  {
    hide LiveIn, AddedIn, SameHolds, Fetched, BlockedAt, SamePackage, Good, Wired, NotShorter;
    forall q ensures LiveIn(w, q) <==> LiveAfter(v, base, d, q) {}
    forall q, f | FileIn(d, base, q, f) ensures Fetched(v, w, d, q, f) {}
    forall q | !(KeyOf(base, d) <= q) ensures SameLive(v, w, q) {}
    forall p ensures !FolderIn(d, base, p) {}
  }

  /** Adding a file is a step that puts it. */
  lemma FileIsPut(v: View, parent: FolderTreeNode, file: FileData, d: Disk)
    requires Good(v) && Wired(v) && parent in v.nodes && IsFrom(file, parent, d)
    ensures Step(v, FilePut(v, parent, file), KeyOf(parent.Key(), d))
    ensures Put(v, FilePut(v, parent, file), parent.Key(), d)
  {
    hide Shape, Closed, Proper, Wired, SamePackage, LiveIn, AddedIn, SameHolds, BlockedAt, Fetched, NotShorter;
    FoldPathAppend(parent.FileName, d.name);
    assert [file][0] == file;
    FilePutKeeps(v, parent, file);
    FilePutLive(v, parent, file, d);
    var w := FilePut(v, parent, file);
    assert w.root == v.root && w.nodes == v.nodes && w.gone == v.gone;
    Putting(v, w, parent.Key(), d);
  }

  /** The entry of a file from disk is that file, live, in this folder, with its length. */
  lemma FileOfIs(parent: FolderTreeNode, d: Disk)
    requires d.File? && d.source != []
    ensures IsFrom(FileOf(parent, d), parent, d) && FileOf(parent, d).size == d.size
  {
  }

  /** Adding a file makes its folder and those above it larger by its length, modulo 2^64, unless it overwrites one from
      disk or is not added at all. */
  lemma FilePutSizes(v: View, parent: FolderTreeNode, file: FileData, k: FolderTreeNode)
    requires Good(v) && parent in v.nodes && file.path != [] && k in v.sizes
    ensures var w := FilePut(v, parent, file);
            && w.sizes.Keys == v.sizes.Keys
            && w.sizes[k] ==
               if k.FileName <= parent.FileName && !Occupied(v.nodes, parent, file.path)
                  && !AddedAt(v.lists[parent], file.Key())
               then (v.sizes[k] + file.size) % 0x1_0000_0000_0000_0000
               else v.sizes[k]
  {
    hide Shape, Closed, Occupied;
    assert Proper(v.lists[parent], parent.FileName);
    InPlaceAdded(v.lists[parent], file.Key());
  }

  // ----- a folder -----

  ghost predicate HasLiveChild(v: View, parent: FolderTreeNode, name: Text) {
    exists c :: c in v.nodes && c.Parent == parent && Fold(c.text) == Fold(name) && c !in v.gone
  }

  /** The tree after adding a folder over an existing one: it comes back, and its files are deleted. */
  function Entered(v: View, c: FolderTreeNode): View
    requires c in v.lists
  {
    WithFiles(Revived(v, c), c, AllDeleted(v.lists[c]))
  }

  lemma EnteredKeeps(v: View, c: FolderTreeNode)
    requires Good(v) && Wired(v) && c in v.nodes && (c.Parent == null || c.Parent !in v.gone)
    ensures Good(Entered(v, c)) && Wired(Entered(v, c)) && SamePackage(v, Entered(v, c))
    ensures forall q :: LiveIn(Entered(v, c), q) <==> LiveIn(v, q) && Above(q) != c.Key()
    ensures forall q :: AddedIn(Entered(v, c), q) <==> AddedIn(v, q) && Above(q) != c.Key()
    ensures forall q :: Above(q) != c.Key() ==> SameHolds(v, Entered(v, c), q)
    ensures forall n :: n in v.nodes ==> NotShorter(v, Entered(v, c), n)
  {
    hide Shape, LiveIn, AddedIn, SameHolds, LiveAt;
    var r := Revived(v, c);
    RevivedKeeps(v, c);
    AllDeletedKeeps(v.lists[c], c.FileName);
    WithFilesKeeps(r, c, AllDeleted(v.lists[c]));
    WithFilesPackage(r, c, AllDeleted(v.lists[c]));
    forall q
      ensures LiveIn(Entered(v, c), q) <==> LiveIn(v, q) && Above(q) != c.Key()
      ensures AddedIn(Entered(v, c), q) <==> AddedIn(v, q) && Above(q) != c.Key()
      ensures Above(q) != c.Key() ==> SameHolds(v, Entered(v, c), q)
    {
      EnteredLive(v, c, q);
      if Above(q) != c.Key() { EnteredHolds(v, c, q); }
    }
  }

  lemma EnteredLive(v: View, c: FolderTreeNode, q: Path)
    requires Good(v) && c in v.nodes
    requires forall p :: !LiveAt(AllDeleted(v.lists[c]), p)
    ensures LiveIn(Entered(v, c), q) <==> LiveIn(v, q) && Above(q) != c.Key()
    ensures AddedIn(Entered(v, c), q) <==> AddedIn(v, q) && Above(q) != c.Key()
  {
    var w := Entered(v, c);
    forall k | k in v.nodes && LiveAt(v.lists[k], q) ensures Above(q) == k.Key() {
      LiveInFolder(v, k, q);
    }
    AddedIsLive(AllDeleted(v.lists[c]), q);
    forall k | k in v.nodes && AddedAt(v.lists[k], q) ensures LiveAt(v.lists[k], q) {
      AddedIsLive(v.lists[k], q);
    }
    forall k | k in v.nodes && k != c ensures k.Key() != c.Key() {
      if k.Key() == c.Key() { SameNode(v.nodes, v.root, k, c); }
    }
    assert forall k :: k in v.nodes && k != c ==> w.lists[k] == v.lists[k];
  }

  /** Outside the folder that is entered, files stay as they are. */
  lemma EnteredHolds(v: View, c: FolderTreeNode, q: Path)
    requires Good(v) && c in v.nodes && Above(q) != c.Key()
    ensures SameHolds(v, Entered(v, c), q)
  {
    var w := Entered(v, c);
    forall flags, from ensures !HoldsAt(w.lists[c], q, flags, from) && !HoldsAt(v.lists[c], q, flags, from) {
      HoldsIsLive(v.lists[c], q, flags, from);
      if LiveAt(v.lists[c], q) { LiveInFolder(v, c, q); }
    }
    assert forall k :: k in v.nodes && k != c ==> w.lists[k] == v.lists[k];
  }

  lemma AddedIsLive(files: Files, q: Path)
    ensures AddedAt(files, q) ==> LiveAt(files, q)
  {
  }

  lemma LiveInFolder(v: View, k: FolderTreeNode, q: Path)
    requires Good(v) && k in v.nodes && LiveAt(v.lists[k], q)
    ensures q != [] && Above(q) == k.Key()
  {
    var i :| 0 <= i < |v.lists[k]| && LiveEntryAt(v.lists[k], i, q);
    assert EntryAt(v.lists[k], i, q);
    EntryFolder(v, k, q);
  }

  /** A folder is entered: it is there, not deleted, and has no live files. */
  lemma Entering(v: View, w: View, top: Path, entries: seq<Disk>)
    requires Good(w) && Wired(w) && SamePackage(v, w) && w.root == v.root && v.nodes <= w.nodes && w.gone <= v.gone
    requires forall n :: n in w.nodes && n !in v.nodes ==> n.Key() == top
    requires forall n :: n in v.nodes ==> (n in w.gone <==> n in v.gone && n.Key() != top)
    requires forall q :: LiveIn(w, q) <==> LiveIn(v, q) && Above(q) != top
    requires forall q :: AddedIn(w, q) <==> AddedIn(v, q) && Above(q) != top
    requires forall q :: Above(q) != top ==> SameHolds(v, w, q)
    requires forall n :: n in v.nodes ==> NotShorter(v, w, n)
    requires v.gone <= v.nodes && top != [] && HasFolder(w, top)
    ensures Step(v, w, top) && Midway(v, w, top, entries, 0)
  {
    forall q | !(top <= q) ensures SameLive(v, w, q) {
      assert Above(q) != top;
    }
    forall p ensures FolderMidway(top, entries, 0, p) <==> p == top {}
    forall q ensures LiveMidway(v, top, entries, 0, q) <==> LiveIn(v, q) && Above(q) != top {}
  }

  lemma EnteredMidway(v: View, c: FolderTreeNode, entries: seq<Disk>)
    requires Good(v) && Wired(v) && c in v.nodes && c.Parent != null && c.Parent !in v.gone
    ensures Step(v, Entered(v, c), c.Key()) && Midway(v, Entered(v, c), c.Key(), entries, 0)
  {
    EnteredKeeps(v, c);
    Up(v.nodes, v.root, c);
    forall n | n in v.nodes && n.Key() == c.Key() ensures n == c {
      SameNode(v.nodes, v.root, n, c);
    }
    assert HasFolder(Entered(v, c), c.Key());
    Entering(v, Entered(v, c), c.Key(), entries);
  }

  lemma NewKeeps(v: View, c: FolderTreeNode, size: nat)
    requires Good(v) && Wired(v) && c !in v.nodes && Hangs(v.nodes, c) && c.Parent !in v.gone
    requires forall d :: d in v.nodes && d.Parent == c.Parent ==> Fold(d.text) != Fold(c.text)
    ensures Good(FolderAdded(v, c, size)) && Wired(FolderAdded(v, c, size)) && SamePackage(v, FolderAdded(v, c, size))
    ensures forall q :: LiveIn(FolderAdded(v, c, size), q) <==> LiveIn(v, q) && Above(q) != c.Key()
    ensures forall q :: AddedIn(FolderAdded(v, c, size), q) <==> AddedIn(v, q) && Above(q) != c.Key()
    ensures forall q :: SameHolds(v, FolderAdded(v, c, size), q)
    ensures forall n :: n in v.nodes ==> NotShorter(v, FolderAdded(v, c, size), n)
  {
    hide LiveIn, AddedIn, SameHolds, Shape, Closed, Proper;
    FolderKeeps(v, c, size);
    WithFolderPackage(v, c, size);
    WithSizeKeeps(WithFolder(v, c, size), c, size);
    forall q
      ensures LiveIn(WithFolder(v, c, size), q) <==> LiveIn(v, q) && Above(q) != c.Key()
      ensures AddedIn(WithFolder(v, c, size), q) <==> AddedIn(v, q) && Above(q) != c.Key()
      ensures SameHolds(v, FolderAdded(v, c, size), q)
    {
      NewLive(v, c, size, q);
      NewHolds(v, c, size, q);
      SameHoldsTwice(v, WithFolder(v, c, size), WithSize(WithFolder(v, c, size), c, size), q);
    }
  }

  lemma NewMidway(v: View, c: FolderTreeNode, size: nat, entries: seq<Disk>)
    requires Good(v) && Wired(v) && c !in v.nodes && Hangs(v.nodes, c) && c.Parent !in v.gone
    requires forall d :: d in v.nodes && d.Parent == c.Parent ==> Fold(d.text) != Fold(c.text)
    ensures Step(v, FolderAdded(v, c, size), c.Key()) && Midway(v, FolderAdded(v, c, size), c.Key(), entries, 0)
  {
    NewKeeps(v, c, size);
    forall n | n in v.nodes ensures n.Key() != c.Key() {
      NewName(v.nodes, v.root, c, n);
    }
    assert HasFolder(FolderAdded(v, c, size), c.Key());
    Entering(v, FolderAdded(v, c, size), c.Key(), entries);
  }

  lemma NewHolds(v: View, c: FolderTreeNode, size: nat, q: Path)
    requires Good(v) && Wired(v) && c !in v.nodes && Hangs(v.nodes, c)
    ensures SameHolds(v, WithFolder(v, c, size), q)
  {
    var w := WithFolder(v, c, size);
    assert w.lists[c] == [] && forall flags, from :: !HoldsAt([], q, flags, from);
    assert forall k :: k in v.nodes ==> k != c && w.lists[k] == v.lists[k];
  }

  lemma NewLive(v: View, c: FolderTreeNode, size: nat, q: Path)
    requires Good(v) && Wired(v) && c !in v.nodes && Hangs(v.nodes, c)
    requires forall d :: d in v.nodes && d.Parent == c.Parent ==> Fold(d.text) != Fold(c.text)
    ensures LiveIn(WithFolder(v, c, size), q) <==> LiveIn(v, q) && Above(q) != c.Key()
    ensures AddedIn(WithFolder(v, c, size), q) <==> AddedIn(v, q) && Above(q) != c.Key()
  {
    var w := WithFolder(v, c, size);
    assert w.lists[c] == [] && !LiveAt([], q) && !AddedAt([], q);
    forall k | k in v.nodes && AddedAt(v.lists[k], q) ensures LiveAt(v.lists[k], q) {
      AddedIsLive(v.lists[k], q);
    }
    forall k | k in v.nodes ensures k != c && w.lists[k] == v.lists[k] {}
    forall k | k in v.nodes && LiveAt(v.lists[k], q) ensures Above(q) != c.Key() {
      LiveInFolder(v, k, q);
      NewName(v.nodes, v.root, c, k);
    }
  }

  // ----- questions -----

  lemma FileConflict(v: View, parent: FolderTreeNode, d: Disk)
    requires Good(v) && parent in v.nodes && d.File? && LiveAt(v.lists[parent], KeyOf(parent.Key(), d))
    ensures Conflict(v, parent.Key(), d)
  {
    assert FileIn(d, parent.Key(), KeyOf(parent.Key(), d), d) && LiveIn(v, KeyOf(parent.Key(), d));
  }

  lemma FolderConflict(v: View, parent: FolderTreeNode, d: Disk)
    requires Good(v) && parent in v.nodes && d.Folder? && HasLiveChild(v, parent, d.name)
    ensures Conflict(v, parent.Key(), d)
  {
    var c :| c in v.nodes && c.Parent == parent && Fold(c.text) == Fold(d.name) && c !in v.gone;
    Up(v.nodes, v.root, c);
    assert FolderIn(d, parent.Key(), KeyOf(parent.Key(), d)) && HasFolder(v, KeyOf(parent.Key(), d));
  }

  // ----- an empty folder -----

  const UNDERSCORE: Unit := '_' as int
  const PERCENT: Unit := '%' as int

  /** In the top folder, names other than those of drives and variables are asked back. */
  predicate OddRootName(name: Text) {
    || |name| < 2
    || (|name| == 2 && name[1] != UNDERSCORE)
    || (|name| > 2 && name[0] != PERCENT)
  }

  /** Drives are a letter and an underscore, variables start with a percent sign. */
  lemma UsualRootName(name: Text)
    ensures !OddRootName(name) <==> (|name| == 2 && name[1] == '_' as int) || (|name| > 2 && name[0] == '%' as int)
  {
  }

  /** No folder may be added: the parent is deleted, the name is empty or has a backslash, or there is such a folder. */
  ghost predicate Refused(v: View, parent: FolderTreeNode, name: Text) {
    || parent in v.gone || name == [] || BACKSLASH in name
    || HasLiveChild(v, parent, name)
  }
}
