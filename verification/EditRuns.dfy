/** Whole sessions of the package editor: opening, editing and saving in any order (PackageEditor/FileSystemEditor.cs
    and PackageEditor/MainForm.cs). */
module EditRuns {
  import opened Utf16
  import opened FileLists
  import opened FolderTree
  import opened SaveTree
  import opened EditTree
  import opened DiskTree
  import opened DiskAdd
  import opened OpenTree
  import Flags = FileFlags

  /** What one edit may do to the tree: add something at one place, show a folder, or remove files or a folder. */
  ghost predicate Edit(v: View, w: View) {
    || (exists top :: Step(v, w, top))
    || (exists n :: n in v.nodes && n in v.lists && w == Shown(v, n))
    || (exists n, names :: n in v.nodes && n in v.lists && w == FilesRemoved(v, n, names))
    || (exists n :: n in v.nodes && n in v.lists && w == FolderRemoved(v, n))
  }

  lemma EditKeeps(v: View, w: View)
    requires Good(v) && Wired(v) && Edit(v, w)
    ensures Good(w) && Wired(w) && SamePackage(v, w)
  {
    hide Shape, Closed, Proper, Wired, SamePackage, SameLive, NotShorter, Shown, FilesRemoved, FolderRemoved;
    if top :| Step(v, w, top) {
    } else if n :| n in v.nodes && n in v.lists && w == Shown(v, n) {
      ShownKeeps(v, n);
    } else if n, names :| n in v.nodes && n in v.lists && w == FilesRemoved(v, n, names) {
      FilesRemovedKeep(v, n, names);
    } else {
      var n :| n in v.nodes && n in v.lists && w == FolderRemoved(v, n);
      FolderRemovedKeeps(v, n);
    }
  }

  // ----- sessions -----

  /** The tree in the editor and the package in memory. */
  datatype Session = Session(tree: View, package: Contents)

  /** A package is opened: the tree is that of its listing. */
  ghost predicate Opened(s: Session) {
    exists es :: Listing(es) && Lists(es, s.package) && LoadedAs(s.tree, es)
  }

  ghost predicate Edited(s: Session, t: Session) {
    Edit(s.tree, t.tree) && t.package == s.package
  }

  /** The tree is saved and kept, as by Save As, or by a save that fails behind this step. The Save command opens the
      package again after it. */
  ghost predicate SavedAs(s: Session, t: Session) {
    t.tree == s.tree && Saved(s.tree, Saveable(s.tree), s.package, t.package)
  }

  ghost predicate Run(states: seq<Session>) {
    && states != [] && Opened(states[0])
    && forall i :: 0 <= i < |states| - 1 ==>
         Edited(states[i], states[i + 1]) || SavedAs(states[i], states[i + 1]) || Opened(states[i + 1])
  }

  /** From `j` to `k` no package is opened. */
  ghost predicate OneOpening(states: seq<Session>, j: nat, k: nat) {
    && j <= k < |states| && Opened(states[j])
    && forall i :: j <= i < k ==> Edited(states[i], states[i + 1]) || SavedAs(states[i], states[i + 1])
  }

  /** From `j` to `k` the tree is only edited. */
  ghost predicate OnlyEdited(states: seq<Session>, j: nat, k: nat) {
    j <= k < |states| && Opened(states[j]) && forall i :: j <= i < k ==> Edited(states[i], states[i + 1])
  }

  lemma OpenedCovers(s: Session)
    requires Opened(s)
    ensures Good(s.tree) && Wired(s.tree) && Covers(s.tree, s.package)
  {
    var es :| Listing(es) && Lists(es, s.package) && LoadedAs(s.tree, es);
    LoadedCovers(s.tree, es, s.package);
  }

  /** Every state of a session has the invariant. */
  lemma {:induction false} EveryState(states: seq<Session>, k: nat)
    requires Run(states) && k < |states|
    ensures Good(states[k].tree) && Wired(states[k].tree)
  {
    if Opened(states[k]) {
      OpenedCovers(states[k]);
    } else {
      EveryState(states, k - 1);
      if Edited(states[k - 1], states[k]) {
        EditKeeps(states[k - 1].tree, states[k].tree);
      }
    }
  }

  /** Until the next opening, the tree lists the files of the package that was opened, whatever is saved on the way. */
  lemma {:induction false} StillCovers(states: seq<Session>, j: nat, k: nat)
    requires OneOpening(states, j, k)
    ensures Good(states[k].tree) && Wired(states[k].tree) && Covers(states[k].tree, states[j].package)
    decreases k
  {
    hide Opened, Edit, Saved, Good, Wired, Covers, SamePackage;
    if k == j {
      OpenedCovers(states[k]);
    } else {
      StillCovers(states, j, k - 1);
      if Edited(states[k - 1], states[k]) {
        EditKeeps(states[k - 1].tree, states[k].tree);
        SameCovers(states[k - 1].tree, states[k].tree, states[j].package);
      }
    }
  }

  lemma {:induction false} SameUntilSaved(states: seq<Session>, j: nat, k: nat)
    requires OnlyEdited(states, j, k)
    ensures states[k].package == states[j].package
    decreases k
  {
    hide Opened, Edit;
    if k > j {
      SameUntilSaved(states, j, k - 1);
    }
  }

  /** Whatever was edited since the package was opened, the first save leaves in the folders exactly the live files
      that do not clash, with their flags, and with the bytes they had in that package or those of the file on disk they
      come from. */
  lemma WholeSession(states: seq<Session>, j: nat, k: nat, m': Contents, q: Path)
    requires OnlyEdited(states, j, k) && |q| >= 2
    requires var s := states[k]; Saved(s.tree, Saveable(s.tree), s.package, m')
    ensures var v := states[k].tree;
            && (q in m' <==> LiveName(v, q) && !Clash(v, q))
            && (q in m' ==>
                  exists n :: n in v.nodes && n !in v.gone && n in v.lists
                              && KeptAt(v.lists[n], q, states[j].package, m'[q]))
  {
    StillCovers(states, j, k);
    SameUntilSaved(states, j, k);
    SavedName(states[k].tree, states[k].package, m', q);
  }

  /** Any save in any session, however often the tree was saved before: when it is right, and what can be wrong
      otherwise. A name that is kept although it is not live was added from disk since the package was opened; a live
      name that is lost without a clash was in that package, and a save before had lost it. */
  lemma LaterSave(states: seq<Session>, j: nat, k: nat, m': Contents)
    requires OneOpening(states, j, k)
    requires var s := states[k]; Saved(s.tree, Saveable(s.tree), s.package, m')
    ensures var v, m := states[k].tree, states[k].package;
            (forall q :: |q| >= 2 ==> (q in m' <==> LiveName(v, q))) <==>
            && (forall q :: |q| >= 2 && LiveName(v, q) ==> !Clash(v, q) && (AddedName(v, q) || q in m))
            && (forall q :: |q| >= 2 && q in m && !LiveName(v, q) ==> Seen(v, q))
    ensures var v := states[k].tree;
            forall q :: |q| >= 2 && q in m' && !LiveName(v, q) ==> q !in states[j].package && q in states[k].package
    ensures var v := states[k].tree;
            forall q :: |q| >= 2 && q !in m' && LiveName(v, q) && !Clash(v, q) ==>
              q in states[j].package && q !in states[k].package
  {
    var v, m := states[k].tree, states[k].package;
    StillCovers(states, j, k);
    SaveAgain(v, m, m');
    forall q | |q| >= 2 && q in m' && !LiveName(v, q) ensures q !in states[j].package && q in m {
      KeptIsNew(v, m, m', q);
    }
    forall q | |q| >= 2 && q !in m' && LiveName(v, q) && !Clash(v, q) ensures q in states[j].package && q !in m {
      LostIsPackaged(v, m, m', q);
    }
  }

  lemma KeptIsNew(v: View, m: Contents, m': Contents, q: Path)
    requires Good(v) && Saved(v, Saveable(v), m, m') && |q| >= 2 && q in m' && !LiveName(v, q)
    ensures !PackagedIn(v, q) && q in m
  {
    SavedAny(v, m, m', q);
    AddedNameLive(v, q);
    PackagedIsSeen(v, q);
  }

  lemma LostIsPackaged(v: View, m: Contents, m': Contents, q: Path)
    requires Good(v) && Saved(v, Saveable(v), m, m') && |q| >= 2 && q !in m' && LiveName(v, q) && !Clash(v, q)
    ensures PackagedIn(v, q) && q !in m
  {
    SavedAny(v, m, m', q);
    var n :| n in Saveable(v) && n !in v.gone && n in v.lists && LiveAt(v.lists[n], q);
    PackagedEntry(v.lists[n], q);
  }

  /** The listing tells the flags of the files. */
  ghost predicate ListsFlags(es: seq<VirtFsNode>, m: Contents) {
    forall i :: 0 <= i < |es| && es[i].IsFile() ==> es[i].Key() in m && m[es[i].Key()].flags == es[i].flags
  }

  /** A session without edits gives the package back, with all flags and bytes. */
  lemma SavedUnedited(es: seq<VirtFsNode>, v: View, m: Contents, m': Contents, q: Path)
    requires Listing(es) && Lists(es, m) && LoadedAs(v, es) && Saved(v, Saveable(v), m, m')
    ensures q in m' <==> q in m
    ensures ListsFlags(es, m) && q in m ==> m'[q] == m[q]
    ensures EmptyKeys(v, Saveable(v)) == {}
  {
    SameNames(es, v, m, m', q);
    if ListsFlags(es, m) && q in m {
      if n :| n in Saveable(v) && EntryIn(v, Saveable(v), n, q) {
        SavedFlags(es, v, m, m', q, n);
      } else {
        NotEdited(es, v, m, m', q);
      }
    }
  }

  lemma NotEdited(es: seq<VirtFsNode>, v: View, m: Contents, m': Contents, q: Path)
    requires LoadedAs(v, es) && Saved(v, Saveable(v), m, m')
    requires forall n :: n in Saveable(v) ==> !EntryIn(v, Saveable(v), n, q)
    ensures SameAt(m, m', q)
  {
    hide Shape, Closed, Proper, Wired, HasFolderEntry, HasNode;
    assert SavedAt(v, Saveable(v), m, m', q);
    forall n | n in v.nodes ensures !Shadowed(v.lists[n], q) {
      NoShadow(v, es, n, q);
    }
  }

  lemma SavedFlags(es: seq<VirtFsNode>, v: View, m: Contents, m': Contents, q: Path, n: FolderTreeNode)
    requires LoadedAs(v, es) && Saved(v, Saveable(v), m, m') && ListsFlags(es, m)
    requires EntryIn(v, Saveable(v), n, q) && q in m' && q in m
    ensures m'[q] == m[q]
  {
    hide Shape, Closed, Proper, Wired, HasFolderEntry, HasNode;
    assert SavedAt(v, Saveable(v), m, m', q);
    assert EntryKept(v, Saveable(v), m, m', q, n);
    assert KeptAt(v.lists[n], q, m, m'[q]);
    assert LoadedNode(v, es, n);
    var i :| 0 <= i < |v.lists[n]| && LiveEntryAt(v.lists[n], i, q) && SavedFrom(v.lists[n][i], m, q, m'[q]);
    var places := LoadedList(v, es, n);
    assert AsListed(v.lists[n][i], es[places[i]]) && places[i] in places;
  }

  lemma SameNames(es: seq<VirtFsNode>, v: View, m: Contents, m': Contents, q: Path)
    requires Listing(es) && Lists(es, m) && LoadedAs(v, es) && Saved(v, Saveable(v), m, m')
    ensures q in m' <==> q in m
  {
    hide Shape, Closed, Proper, Wired, Listing, Lists, LoadedAs, LoadedNode, HasFolderEntry, HasNode, Packaged, KeptAt;
    LoadedCovers(v, es, m);
    LoadedGood(v, es);
    assert SavedAt(v, Saveable(v), m, m', q);
    forall n | n in v.nodes && HasEntry(v.lists[n], q)
      ensures LiveAt(v.lists[n], q) && !AddedAt(v.lists[n], q) && q in m
    {
      AllLive(v, es, n, q);
      PackagedEntry(v.lists[n], q);
    }
    forall n | n in v.nodes ensures !Shadowed(v.lists[n], q) {
      NoShadow(v, es, n, q);
    }
  }

  lemma LoadedGood(v: View, es: seq<VirtFsNode>)
    requires LoadedAs(v, es)
    ensures Good(v) && v.gone == {}
  {
  }

  lemma AllLive(v: View, es: seq<VirtFsNode>, n: FolderTreeNode, q: Path)
    requires LoadedAs(v, es) && n in v.nodes && HasEntry(v.lists[n], q)
    ensures LiveAt(v.lists[n], q) && !AddedAt(v.lists[n], q)
  {
    assert LoadedNode(v, es, n);
    var i :| 0 <= i < |v.lists[n]| && EntryAt(v.lists[n], i, q);
    FilesFrom(es, n.FileName, i);
    assert LiveEntryAt(v.lists[n], i, q);
    forall k | 0 <= k < |v.lists[n]| ensures !v.lists[n][k].Added() {
      FilesFrom(es, n.FileName, k);
    }
  }

  lemma NoShadow(v: View, es: seq<VirtFsNode>, n: FolderTreeNode, q: Path)
    requires LoadedAs(v, es) && n in v.nodes
    ensures !Shadowed(v.lists[n], q)
  {
    forall k | 0 <= k < |q| ensures !DeadAt(v.lists[n], q[..k]) {
      if HasEntry(v.lists[n], q[..k]) { AllLive(v, es, n, q[..k]); }
    }
  }

  // ----- a file that was added -----

  lemma AddedNameIn(w: View, q: Path)
    requires Good(w) && AddedIn(w, q) && HasFolder(w, Above(q)) && |q| >= 2
    ensures AddedName(w, q)
  {
    var n :| n in w.nodes && n in w.lists && AddedAt(w.lists[n], q);
    AddedIsLive(w.lists[n], q);
    LiveInFolder(w, n, q);
    var k :| k in w.nodes && k !in w.gone && k.Key() == Above(q);
    SameNode(w.nodes, w.root, n, k);
    assert n != w.root;
  }

  /** The folder of a file from disk is there after adding. */
  lemma FolderThere(v: View, w: View, base: Path, d: Disk, q: Path, f: Disk)
    requires HasFolder(v, base) && Step(v, w, KeyOf(base, d)) && Put(v, w, base, d) && FileIn(d, base, q, f)
    ensures HasFolder(w, Above(q))
  {
    hide Good, Wired, SamePackage, LiveIn, AddedIn, Fetched, NotShorter;
    FolderOfFile(d, base, q, f);
    if d.File? {
      var n :| n in v.nodes && n !in v.gone && n.Key() == base;
      assert n in w.nodes && n !in w.gone;
    }
  }

  lemma LiveNameThere(w: View, q: Path)
    requires LiveName(w, q)
    ensures LiveIn(w, q)
  {
  }

  /** A file added from disk is in the saved package unless a folder of exactly its name was in the way when it was
      added, or a deleted folder has its name when it is saved. This holds for every save; for the first one after
      opening, the file in the way keeps it out, too. */
  lemma AddedSaved(v: View, w: View, base: Path, d: Disk, m: Contents, m': Contents, q: Path, f: Disk)
    requires HasFolder(v, base) && Step(v, w, KeyOf(base, d)) && Put(v, w, base, d) && FileIn(d, base, q, f) && |q| >= 2
    requires Saved(w, Saveable(w), m, m')
    ensures LiveAfter(v, base, d, q) ==> (q in m' <==> !GoneAt(w, Saveable(w), q))
    ensures Covers(w, m) ==> (q in m' <==> LiveAfter(v, base, d, q) && !GoneAt(w, Saveable(w), q))
  {
    hide Saved, GoneAt, ShadowIn, LiveAfter, FileIn, Listed, LiveName, AddedName, AddedIn, LiveIn, HoldsIn, Covers,
         NotShorter, SamePackage, Wired, HasFolder;
    assert Fetched(v, w, d, q, f) && (LiveIn(w, q) <==> LiveAfter(v, base, d, q));
    FolderThere(v, w, base, d, q, f);
    if LiveIn(w, q) {
      AddedNameIn(w, q);
      SavedAny(w, m, m', q);
    } else if Covers(w, m) {
      SavedName(w, m, m', q);
      if LiveName(w, q) { LiveNameThere(w, q); }
    }
  }

  lemma KeptHolds(files: Files, q: Path, m: Contents, e: PackedFile, flags: Flags.Word, from: Text)
    requires OneLive(files) && KeptAt(files, q, m, e) && HoldsAt(files, q, flags, from) && AddedAt(files, q)
    ensures e == PackedFile(flags, from) && from != []
  {
    var i :| 0 <= i < |files| && LiveEntryAt(files, i, q) && SavedFrom(files[i], m, q, e);
    var k :| 0 <= k < |files| && LiveEntryAt(files, k, q) && files[k].flags == flags && files[k].addedFrom == from;
    var l :| 0 <= l < |files| && LiveEntryAt(files, l, q) && files[l].Added();
    assert i == k == l;
  }

  /** A live file from disk is saved with its flags and its bytes. */
  lemma HoldsSaved(w: View, m: Contents, m': Contents, q: Path, flags: Flags.Word, from: Text)
    requires Good(w) && Saved(w, Saveable(w), m, m') && q in m' && |q| >= 2 && HasFolder(w, Above(q))
    requires HoldsIn(w, q, flags, from) && AddedIn(w, q)
    ensures m'[q] == PackedFile(flags, from)
  {
    hide Saved, Closed, KeptAt, HoldsAt, AddedAt, LiveAt;
    var n :| n in w.nodes && n in w.lists && HoldsAt(w.lists[n], q, flags, from);
    HoldsIsLive(w.lists[n], q, flags, from);
    LiveInFolder(w, n, q);
    LiveHas(w.lists[n], q);
    LiveOfFolder(w, n, q);
    var k :| k in w.nodes && k !in w.gone && k.Key() == Above(q);
    SameNode(w.nodes, w.root, n, k);
    assert n != w.root && EntryIn(w, Saveable(w), n, q);
    SavedContent(w, m, m', q);
    assert Proper(w.lists[n], n.FileName);
    KeptHolds(w.lists[n], q, m, m'[q], flags, from);
  }

  /** The flags of a file added from disk are saved, and its bytes, unless it was added over one from disk: then the
      bytes of that one are. */
  lemma AddedContent(v: View, w: View, base: Path, d: Disk, m: Contents, m': Contents, q: Path, f: Disk)
    requires HasFolder(v, base) && Step(v, w, KeyOf(base, d)) && Put(v, w, base, d) && FileIn(d, base, q, f) && |q| >= 2
    requires Saved(w, Saveable(w), m, m') && q in m' && LiveAfter(v, base, d, q)
    ensures m'[q].flags == DiskFlags(f.name)
    ensures d.File? && AddedIn(v, q) ==> exists flags :: HoldsIn(v, q, flags, m'[q].origin)
    ensures !(d.File? && AddedIn(v, q)) ==> m'[q].origin == f.source
  {
    hide Saved, LiveAfter, FileIn, AddedIn, LiveIn, HoldsIn, NotShorter, SamePackage, Wired, HasFolder, DiskFlags;
    assert Fetched(v, w, d, q, f) && LiveIn(w, q);
    FolderThere(v, w, base, d, q, f);
    if d.File? && AddedIn(v, q) {
      var flags, from :| HoldsIn(v, q, flags, from) && HoldsIn(w, q, DiskFlags(f.name), from);
      HoldsSaved(w, m, m', q, DiskFlags(f.name), from);
    } else {
      HoldsSaved(w, m, m', q, DiskFlags(f.name), f.source);
    }
  }

  lemma OneOrigin(v: View, q: Path, flags: Flags.Word, from: Text, flags': Flags.Word, from': Text)
    requires Good(v) && HoldsIn(v, q, flags, from) && HoldsIn(v, q, flags', from')
    ensures from == from'
  {
    hide Shape, Closed;
    var n :| n in v.nodes && n in v.lists && HoldsAt(v.lists[n], q, flags, from);
    HoldsIsLive(v.lists[n], q, flags, from);
    LiveInFolder(v, n, q);
    LiveOfFolder(v, n, q);
    assert Proper(v.lists[n], n.FileName);
    var i :| 0 <= i < |v.lists[n]| && LiveEntryAt(v.lists[n], i, q) && v.lists[n][i].addedFrom == from;
    var k :| 0 <= k < |v.lists[n]| && LiveEntryAt(v.lists[n], k, q) && v.lists[n][k].addedFrom == from';
    assert i == k;
  }

  /** Choosing another file on disk for one that was added before has no effect on what is saved: the bytes of the file
      just added are saved exactly when it is not added over one from disk, or that one comes from the same place. */
  lemma NewBytesSaved(v: View, w: View, base: Path, d: Disk, m: Contents, m': Contents, q: Path, f: Disk)
    requires Good(v) && HasFolder(v, base) && Step(v, w, KeyOf(base, d)) && Put(v, w, base, d)
    requires FileIn(d, base, q, f) && |q| >= 2
    requires Saved(w, Saveable(w), m, m') && q in m' && LiveAfter(v, base, d, q)
    ensures m'[q].origin == f.source <==>
            !(d.File? && AddedIn(v, q)) || exists flags :: HoldsIn(v, q, flags, f.source)
  {
    hide Good, Saved, Step, Put, FileIn, HasFolder, LiveAfter, AddedIn, HoldsIn, DiskFlags;
    AddedContent(v, w, base, d, m, m', q, f);
    if d.File? && AddedIn(v, q) {
      var flags :| HoldsIn(v, q, flags, m'[q].origin);
      if flags' :| HoldsIn(v, q, flags', f.source) {
        OneOrigin(v, q, flags, m'[q].origin, flags', f.source);
      }
    }
  }

  // ----- a file that was removed -----

  /** The file `i` of the list is the only one of its name. */
  predicate OnlyOne(files: Files, i: nat)
    requires i < |files|
  {
    forall k :: 0 <= k < |files| && k != i ==> files[k].Key() != files[i].Key()
  }

  lemma DropTrace(files: Files, i: nat)
    requires i < |files|
    ensures !HasEntry(files[..i] + files[i + 1..], files[i].Key()) <==> OnlyOne(files, i)
  {
    var r, q := files[..i] + files[i + 1..], files[i].Key();
    assert forall k :: 0 <= k < |r| ==> r[k] == files[if k < i then k else k + 1];
    if k :| 0 <= k < |files| && k != i && files[k].Key() == q {
      assert EntryAt(r, if k < i then k else k - 1, q);
    }
    if k :| 0 <= k < |r| && EntryAt(r, k, q) {
      assert files[if k < i then k else k + 1].Key() == q;
    }
  }

  /** Removing a file leaves no trace of it in the list if and only if it is from disk and the only one of its name. */
  lemma NoTrace(files: Files, path: Path)
    requires var i := FindLast(files, path); i >= 0
    ensures var i := FindLast(files, path);
            !HasEntry(Removed(files, path), FoldPath(path)) <==> files[i].Added() && OnlyOne(files, i)
  {
    hide OnlyOne, FindLast;
    var i := FindLast(files, path);
    DropTrace(files, i);
    if !files[i].Added() {
      assert EntryAt(Removed(files, path), i, FoldPath(path));
    }
  }

  lemma RemovedOne(v: View, n: FolderTreeNode, name: Text)
    requires Good(v) && n in v.nodes && n !in v.gone
    ensures FilesRemoved(v, n, [name]) == WithFiles(v, n, Removed(v.lists[n], n.FileName + [name]))
  {
    var none: seq<Text> := [name][..0];
    assert none == [];
    assert RemovedAll(v.lists[n], n.FileName, [name]) == Removed(v.lists[n], n.FileName + [name]);
  }

  /** Removed files of the folder itself do not stand above its names, so another list for it changes no shadow. */
  lemma ShadowElsewhere(v: View, n: FolderTreeNode, files: Files, q: Path)
    requires Good(v) && n in v.nodes && Proper(files, n.FileName) && |q| == |n.FileName| + 1
    ensures var w := WithFiles(v, n, files); ShadowIn(w, Saveable(w), q) <==> ShadowIn(v, Saveable(v), q)
  {
    var w := WithFiles(v, n, files);
    WithFilesKeeps(v, n, files);
    if Shadowed(v.lists[n], q) { ShadowFolder(v, n, q); }
    if Shadowed(w.lists[n], q) { ShadowFolder(w, n, q); }
    assert forall k :: k in v.nodes && k != n ==> w.lists[k] == v.lists[k];
  }

  lemma ListedHere(w: View, n: FolderTreeNode, q: Path)
    requires Good(w) && n in Saveable(w) && n !in w.gone && q != [] && n.Key() == Above(q)
    ensures Listed(w, q) <==> HasEntry(w.lists[n], q)
    ensures LiveName(w, q) ==> LiveAt(w.lists[n], q)
  {
    forall k | k in w.nodes && HasEntry(w.lists[k], q) ensures k == n {
      EntryFolder(w, k, q);
      SameNode(w.nodes, w.root, k, n);
    }
    forall k | k in w.nodes && LiveAt(w.lists[k], q) ensures HasEntry(w.lists[k], q) {
      LiveHas(w.lists[k], q);
    }
    if HasEntry(w.lists[n], q) { assert EntryIn(w, Saveable(w), n, q); }
  }

  /** After a live file was removed, what the next save finds under its name. */
  lemma RemovedView(v: View, n: FolderTreeNode, name: Text)
    requires Good(v) && n in Saveable(v) && n !in v.gone
    requires var i := FindLast(v.lists[n], n.FileName + [name]); i >= 0 && !v.lists[n][i].deleted
    ensures var w, q := FilesRemoved(v, n, [name]), FoldPath(n.FileName + [name]);
            var i := FindLast(v.lists[n], n.FileName + [name]);
            && Good(w) && Saveable(w) == Saveable(v) && w.gone == v.gone
            && (ShadowIn(w, Saveable(w), q) <==> ShadowIn(v, Saveable(v), q))
            && !LiveName(w, q) && (!Listed(w, q) <==> v.lists[n][i].Added() && OnlyOne(v.lists[n], i))
  {
    hide Shape, Closed, FilesRemoved, ShadowIn, LiveName, Listed, Removed, OnlyOne;
    var path := n.FileName + [name];
    var q, files := FoldPath(path), Removed(v.lists[n], path);
    FoldPathAppend(n.FileName, name);
    assert Proper(v.lists[n], n.FileName);
    RemovedOne(v, n, name);
    RemovedKeeps(v.lists[n], path, n.FileName);
    RemovedIsDead(v.lists[n], path, n.FileName, q);
    WithFilesKeeps(v, n, files);
    ShadowElsewhere(v, n, files, q);
    NoTrace(v.lists[n], path);
    ListedHere(WithFiles(v, n, files), n, q);
  }

  /** A live file that is removed stays in the package at the next save exactly when it is there, came from disk, is
      the only one of its name in the list, and no deleted folder or removed file stands in the name. */
  lemma RemovedSaved(v: View, n: FolderTreeNode, name: Text, m: Contents, m': Contents)
    requires Good(v) && n in Saveable(v)
    requires var i := FindLast(v.lists[n], n.FileName + [name]); i >= 0 && !v.lists[n][i].deleted
    requires var w := FilesRemoved(v, n, [name]); Good(w) && Saved(w, Saveable(w), m, m')
    ensures var q, i := FoldPath(n.FileName + [name]), FindLast(v.lists[n], n.FileName + [name]);
            q in m' <==> q in m && v.lists[n][i].Added() && OnlyOne(v.lists[n], i)
                         && !GoneAt(v, Saveable(v), q) && !ShadowIn(v, Saveable(v), q)
  {
    hide Shape, Closed, Saved, SavedAt, FilesRemoved, ShadowIn, LiveName, AddedName, Listed, OnlyOne;
    var w, q := FilesRemoved(v, n, [name]), FoldPath(n.FileName + [name]);
    FoldPathAppend(n.FileName, name);
    assert n.Key() <= q;
    Up(v.nodes, v.root, n);
    if n in v.gone {
      GoneHere(v, n, [name], q);
      SavedAny(w, m, m', q);
    } else {
      RemovedView(v, n, name);
      SavedAny(w, m, m', q);
      AddedNameLive(w, q);
    }
  }

  lemma GoneHere(v: View, n: FolderTreeNode, names: seq<Text>, q: Path)
    requires Good(v) && n in Saveable(v) && n in v.gone && n.Key() <= q
    ensures var w := FilesRemoved(v, n, names); GoneAt(v, Saveable(v), q) && GoneAt(w, Saveable(w), q)
  {
    var w := FilesRemoved(v, n, names);
    assert n in Saveable(w) && n in w.gone;
  }

  /** As long as the tree lists the files of the package, a removed file is not in the saved package. */
  lemma RemovedInTime(v: View, n: FolderTreeNode, name: Text, m: Contents, m': Contents)
    requires Good(v) && Covers(v, m) && n in Saveable(v)
    requires var i := FindLast(v.lists[n], n.FileName + [name]); i >= 0 && !v.lists[n][i].deleted
    requires var w := FilesRemoved(v, n, [name]); Good(w) && Saved(w, Saveable(w), m, m')
    ensures FoldPath(n.FileName + [name]) !in m'
  {
    var i, q := FindLast(v.lists[n], n.FileName + [name]), FoldPath(n.FileName + [name]);
    RemovedSaved(v, n, name, m, m');
    if v.lists[n][i].Added() && OnlyOne(v.lists[n], i) {
      assert EntryAt(v.lists[n], i, q);
      forall k | k in v.nodes ensures !Packaged(v.lists[k], q) {
        PackagedEntry(v.lists[k], q);
        if HasEntry(v.lists[k], q) { OneFolder(v, k, n, q); }
        NotPackaged(v.lists[n], i);
      }
    }
  }

  lemma NotPackaged(files: Files, i: nat)
    requires i < |files| && files[i].Added() && OnlyOne(files, i)
    ensures !Packaged(files, files[i].Key())
  {
    forall f | f in files && !f.Added() ensures f.Key() != files[i].Key() {
      var k :| 0 <= k < |files| && files[k] == f;
    }
  }

  /** The same after the tree was saved and kept: a file from disk that only the list knew is forgotten, and stays. */
  lemma RemovedTooLate(states: seq<Session>, k: nat, n: FolderTreeNode, name: Text, m': Contents)
    requires Run(states) && k + 1 < |states| && SavedAs(states[k], states[k + 1])
    requires var v := states[k + 1].tree;
             && n in Saveable(v) && n in v.lists
             && var i := FindLast(v.lists[n], n.FileName + [name]); i >= 0 && !v.lists[n][i].deleted
    requires var w := FilesRemoved(states[k + 1].tree, n, [name]); Saved(w, Saveable(w), states[k + 1].package, m')
    ensures var v, q := states[k + 1].tree, FoldPath(n.FileName + [name]);
            var i := FindLast(v.lists[n], n.FileName + [name]);
            q in m' <==> v.lists[n][i].Added() && OnlyOne(v.lists[n], i)
                         && !GoneAt(v, Saveable(v), q) && !ShadowIn(v, Saveable(v), q)
  {
    hide Run, Good, Wired, Saved, SavedAt, OnlyOne, ShadowIn, FilesRemoved;
    var v, q := states[k + 1].tree, FoldPath(n.FileName + [name]);
    var i := FindLast(v.lists[n], n.FileName + [name]);
    EveryState(states, k + 1);
    FilesRemovedKeep(v, n, [name]);
    RemovedSaved(v, n, name, states[k + 1].package, m');
    FoldPathAppend(n.FileName, name);
    Nested(v, n);
    if v.lists[n][i].Added() && !GoneAt(v, Saveable(v), q) {
      SavedAny(v, states[k].package, states[k + 1].package, q);
      assert LiveEntryAt(v.lists[n], i, q);
      assert AddedName(v, q);
    }
  }

  lemma Nested(v: View, n: FolderTreeNode)
    requires Good(v) && n in Saveable(v)
    ensures n in v.nodes && n in v.lists && |n.FileName| >= 1
    ensures forall q :: n in v.gone && n.Key() <= q ==> GoneAt(v, Saveable(v), q)
  {
    Up(v.nodes, v.root, n);
  }

  // ----- a folder that was removed -----

  /** Above a name that is not in the folder, nothing of the folder stands. */
  lemma OutsideFolder(v: View, n: FolderTreeNode, k: FolderTreeNode, q: Path)
    requires !(n.Key() <= q) && k.Key() <= q
    ensures !(n.Key() <= k.Key())
  {
    if n.Key() <= k.Key() { Longer(n.Key(), k.Key(), q); }
  }

  lemma SeenOutside(v: View, w: View, n: FolderTreeNode, q: Path)
    requires Good(v) && Good(w) && WholeRemoved(v, w, n) && !(n.Key() <= q)
    ensures GoneAt(w, Saveable(w), q) <==> GoneAt(v, Saveable(v), q)
    ensures ShadowIn(w, Saveable(w), q) <==> ShadowIn(v, Saveable(v), q)
  {
    hide Picked, Shape, Closed, Proper;
    forall k | k in v.nodes && k.Key() <= q ensures k in w.gone <==> k in v.gone {
      OutsideFolder(v, n, k, q);
    }
    forall k | k in v.nodes && (Shadowed(v.lists[k], q) || Shadowed(w.lists[k], q))
      ensures k.Key() <= q && k != n && !(n.Key() <= k.Key())
    {
      if Shadowed(v.lists[k], q) { ShadowFolder(v, k, q); } else { ShadowFolder(w, k, q); }
      OutsideFolder(v, n, k, q);
    }
  }

  lemma ListedOutside(v: View, w: View, n: FolderTreeNode, q: Path)
    requires Good(v) && Good(w) && WholeRemoved(v, w, n) && !(n.Key() <= q)
    ensures Listed(w, q) <==> Listed(v, q)
    ensures LiveName(w, q) <==> LiveName(v, q)
    ensures AddedName(w, q) <==> AddedName(v, q)
    ensures forall k :: EntryIn(w, Saveable(w), k, q) ==> EntryIn(v, Saveable(v), k, q) && w.lists[k] == v.lists[k]
  {
    hide Picked, Shape, Closed, Proper;
    forall k | k in v.nodes && (HasEntry(v.lists[k], q) || HasEntry(w.lists[k], q))
      ensures k != n && (k in w.gone <==> k in v.gone)
    {
      if HasEntry(v.lists[k], q) { EntryFolder(v, k, q); } else { EntryFolder(w, k, q); }
      OutsideFolder(v, n, k, q);
    }
    forall k | k in v.nodes
      ensures LiveAt(v.lists[k], q) ==> HasEntry(v.lists[k], q)
      ensures LiveAt(w.lists[k], q) ==> HasEntry(w.lists[k], q)
      ensures AddedAt(v.lists[k], q) ==> HasEntry(v.lists[k], q)
      ensures AddedAt(w.lists[k], q) ==> HasEntry(w.lists[k], q)
    {
      LiveHas(v.lists[k], q);
      LiveHas(w.lists[k], q);
    }
    assert forall k :: k in Saveable(v) && EntryIn(v, Saveable(v), k, q) ==> EntryIn(w, Saveable(w), k, q);
    assert forall k :: k in Saveable(w) && EntryIn(w, Saveable(w), k, q) ==> EntryIn(v, Saveable(v), k, q);
  }

  /** Once a folder is removed, nothing in it is in the saved package, whatever was there before, and every other name
      is saved as it would have been. */
  lemma FolderRemovedSaved(v: View, n: FolderTreeNode, m: Contents, m1: Contents, m2: Contents, q: Path)
    requires Good(v) && Wired(v) && n in Saveable(v) && Saved(v, Saveable(v), m, m1)
    requires n in v.lists
    requires var w := FolderRemoved(v, n); Saved(w, Saveable(w), m, m2)
    ensures n.Key() <= q ==> q !in m2
    ensures !(n.Key() <= q) && |q| >= 2 ==> (q in m2 <==> q in m1) && (q in m2 ==> m2[q] == m1[q])
  {
    hide Shape, Closed, Proper, Wired, Saved, SavedAt, GoneAt, ShadowIn, Listed, LiveName, AddedName, Picked;
    var w := FolderRemoved(v, n);
    FolderRemovedKeeps(v, n);
    FolderRemovedIs(v, n);
    if n.Key() <= q {
      RemovedIsGone(w, n, m, m2, q);
    } else if |q| >= 2 {
      SeenOutside(v, w, n, q);
      ListedOutside(v, w, n, q);
      SavedAny(v, m, m1, q);
      SavedAny(w, m, m2, q);
      if q in m2 { SavedSame(v, w, m, m1, m2, q); }
    }
  }

  lemma SavedSame(v: View, w: View, m: Contents, m1: Contents, m2: Contents, q: Path)
    requires Good(v) && Good(w) && Saved(v, Saveable(v), m, m1) && Saved(w, Saveable(w), m, m2) && q in m1 && q in m2
    requires Listed(w, q) <==> Listed(v, q)
    requires forall k :: EntryIn(w, Saveable(w), k, q) ==> EntryIn(v, Saveable(v), k, q) && w.lists[k] == v.lists[k]
    ensures m2[q] == m1[q]
  {
    hide Shape, Closed, Saved, EntryIn, KeptAt;
    SavedContent(v, m, m1, q);
    SavedContent(w, m, m2, q);
    if Listed(w, q) {
      var k :| k in Saveable(w) && EntryIn(w, Saveable(w), k, q);
      assert Proper(w.lists[k], k.FileName);
      KeptOnce(w.lists[k], q, m, m1[q], m2[q]);
    }
  }

  lemma RemovedIsGone(w: View, n: FolderTreeNode, m: Contents, m': Contents, q: Path)
    requires n in Saveable(w) && n in w.gone && n.Key() <= q && Saved(w, Saveable(w), m, m')
    ensures q !in m'
  {
    assert SavedAt(w, Saveable(w), m, m', q);
  }
}
