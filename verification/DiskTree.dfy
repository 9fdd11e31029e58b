/** Files and folders on disk, and what adding them makes of the folder tree (PackageEditor/FileSystemEditor.cs). */
module DiskTree {
  import opened Utf16
  import opened CaseFold
  import opened FileLists
  import opened FolderTree
  import opened SaveTree
  import opened EditTree
  import opened Sequences
  import Flags = FileFlags

  const DLL: Text := Ascii(".dll")

  /** The flags of a file from disk: it is a file, and libraries are deployed ahead. */
  function DiskFlags(name: Text): Flags.Word {
    var flags: Flags.Word := {Flags.IS_FILE};
    if EndsWith(name, DLL) then flags + {Flags.DEPLOY_UPON_PRELOAD} else flags
  }

  /** Bit 0 for every file, bit 3 exactly for names with `.dll` at the end, in lower case, and no other. */
  lemma DiskFlagsAre(name: Text, flag: Flags.Bit)
    ensures flag in DiskFlags(name) <==>
            flag == 0 || (flag == 3 && |name| >= 4 && name[|name| - 4..] == Ascii(".dll"))
  {
  }

  /** What a path on disk leads to. The entries of a folder are its files, then its folders. */
  datatype Disk =
    | File(source: Text, name: Text, size: nat)
    | Folder(source: Text, name: Text, entries: seq<Disk>)

  /** The name an entry gets in a folder, ignoring case. */
  function KeyOf(base: Path, d: Disk): Path {
    base + [Fold(d.name)]
  }

  function Above(q: Path): Path {
    if q == [] then [] else q[..|q| - 1]
  }

  /** The entry brings the file `f` under the name `q`. */
  predicate FileIn(d: Disk, base: Path, q: Path, f: Disk) {
    match d
    case File(_, _, _) => q == KeyOf(base, d) && f == d
    case Folder(_, _, entries) => exists i :: 0 <= i < |entries| && FileIn(entries[i], KeyOf(base, d), q, f)
  }

  /** The entry brings a folder called `p`. */
  predicate FolderIn(d: Disk, base: Path, p: Path) {
    match d
    case File(_, _, _) => false
    case Folder(_, _, entries) =>
      p == KeyOf(base, d) || exists i :: 0 <= i < |entries| && FolderIn(entries[i], KeyOf(base, d), p)
  }

  /** As on disk: no two entries of a folder have the same name. */
  predicate OwnNames(d: Disk) {
    d.Folder? ==>
      && (forall i, j :: 0 <= i < j < |d.entries| ==> Fold(d.entries[i].name) != Fold(d.entries[j].name))
      && (forall i :: 0 <= i < |d.entries| ==> OwnNames(d.entries[i]))
  }

  /** Every entry comes from somewhere. */
  predicate Sourced(d: Disk) {
    d.source != [] && (d.Folder? ==> forall i :: 0 <= i < |d.entries| ==> Sourced(d.entries[i]))
  }

  lemma {:induction false} FilesBelow(d: Disk, base: Path, q: Path, f: Disk)
    requires FileIn(d, base, q, f)
    ensures KeyOf(base, d) <= q && (d.Folder? ==> KeyOf(base, d) <= Above(q))
  {
    if d.Folder? {
      var i :| 0 <= i < |d.entries| && FileIn(d.entries[i], KeyOf(base, d), q, f);
      FilesBelow(d.entries[i], KeyOf(base, d), q, f);
    }
  }

  /** A file of an entry is in the folder the entry goes to, or in one of the entry. */
  lemma {:induction false} FolderOfFile(d: Disk, base: Path, q: Path, f: Disk)
    requires FileIn(d, base, q, f)
    ensures q != [] && if d.File? then Above(q) == base else FolderIn(d, base, Above(q))
  {
    if d.Folder? {
      var i :| 0 <= i < |d.entries| && FileIn(d.entries[i], KeyOf(base, d), q, f);
      FolderOfFile(d.entries[i], KeyOf(base, d), q, f);
    }
  }

  lemma {:induction false} FoldersBelow(d: Disk, base: Path, p: Path)
    requires FolderIn(d, base, p)
    ensures KeyOf(base, d) <= p
  {
    if p != KeyOf(base, d) {
      var i :| 0 <= i < |d.entries| && FolderIn(d.entries[i], KeyOf(base, d), p);
      FoldersBelow(d.entries[i], KeyOf(base, d), p);
    }
  }

  // ----- names in the tree -----

  ghost predicate LiveIn(v: View, q: Path) {
    exists n :: n in v.nodes && n in v.lists && LiveAt(v.lists[n], q)
  }

  ghost predicate AddedIn(v: View, q: Path) {
    exists n :: n in v.nodes && n in v.lists && AddedAt(v.lists[n], q)
  }

  /** There is a live file with these flags that comes from this file on disk. */
  ghost predicate HoldsIn(v: View, q: Path, flags: Flags.Word, from: Text) {
    exists n :: n in v.nodes && n in v.lists && HoldsAt(v.lists[n], q, flags, from)
  }

  /** A folder has exactly this name. */
  ghost predicate BlockedAt(v: View, q: Path, t: Text) {
    exists n :: n in v.nodes && n.Key() == q && n.text == t
  }

  ghost predicate HasFolder(v: View, p: Path) {
    exists n :: n in v.nodes && n !in v.gone && n.Key() == p
  }

  // ----- one step -----

  /** A live file of this name is the same in both trees, with its flags and where it comes from. */
  ghost predicate SameLive(v: View, w: View, q: Path) {
    (LiveIn(w, q) <==> LiveIn(v, q)) && (AddedIn(w, q) <==> AddedIn(v, q)) && SameHolds(v, w, q)
  }

  ghost predicate SameHolds(v: View, w: View, q: Path) {
    forall flags, from :: HoldsIn(w, q, flags, from) <==> HoldsIn(v, q, flags, from)
  }

  /** The list of a folder has not become shorter. */
  predicate NotShorter(v: View, w: View, n: FolderTreeNode) {
    n in v.lists && n in w.lists && |v.lists[n]| <= |w.lists[n]|
  }

  /** A step that adds only below `top`: everything else stays, no folder disappears, no folder gets deleted, and no
      list gets shorter. */
  ghost predicate Step(v: View, w: View, top: Path) {
    && Good(w) && Wired(w) && SamePackage(v, w) && w.root == v.root
    && v.nodes <= w.nodes && (forall n :: n in w.nodes && n !in v.nodes ==> top <= n.Key())
    && w.gone <= v.gone && (forall n :: n in v.gone && n !in w.gone ==> top <= n.Key())
    && (forall q :: !(top <= q) ==> SameLive(v, w, q))
    && (forall n :: n in v.nodes ==> NotShorter(v, w, n))
  }

  lemma NoStep(v: View, top: Path)
    requires Good(v) && Wired(v)
    ensures Step(v, v, top)
  {
  }

  lemma Longer(a: Path, b: Path, q: Path)
    requires a <= b && b <= q
    ensures a <= q
  {
  }

  lemma TwoSteps(v: View, w: View, x: View, top: Path, below: Path)
    requires Step(v, w, top) && Step(w, x, below) && top <= below
    ensures Step(v, x, top)
  {
    hide Good, Wired, PackagedIn, LiveIn, AddedIn, HoldsIn;
    forall q | !(top <= q) ensures SameLive(v, x, q) {
      if below <= q { Longer(top, below, q); }
      assert SameLive(v, w, q) && SameLive(w, x, q);
    }
    forall n | n in v.nodes ensures NotShorter(v, x, n) {
      assert NotShorter(v, w, n) && NotShorter(w, x, n);
    }
    forall n | n in x.nodes && n !in v.nodes ensures top <= n.Key() {
      if n !in w.nodes { Longer(top, below, n.Key()); }
    }
    forall n | n in v.gone && n !in x.gone ensures top <= n.Key() {
      if n in w.gone { Longer(top, below, n.Key()); }
    }
  }

  // ----- what adding an entry leaves -----

  /** The names that are live after adding: those of the entry, unless a folder is in the way, and all that were live
      and are not directly in a folder that was added again. */
  ghost predicate LiveAfter(v: View, base: Path, d: Disk, q: Path) {
    if d.File? then
      if q == KeyOf(base, d) then !BlockedAt(v, q, d.name) || AddedIn(v, q) else LiveIn(v, q)
    else
      (exists f :: FileIn(d, base, q, f) && !BlockedAt(v, q, f.name)) || (LiveIn(v, q) && !FolderIn(d, base, Above(q)))
  }

  /** If there is a live file of this name, it is the one from disk. */
  ghost predicate FromDisk(v: View, q: Path, f: Disk) {
    LiveIn(v, q) ==> AddedIn(v, q) && HoldsIn(v, q, DiskFlags(f.name), f.source)
  }

  /** The live file has the flags of the one from disk, but comes from where the one before came from. */
  ghost predicate Overwritten(v: View, w: View, q: Path, f: Disk) {
    LiveIn(w, q) ==>
      AddedIn(w, q) && exists flags, from :: HoldsIn(v, q, flags, from) && HoldsIn(w, q, DiskFlags(f.name), from)
  }

  /** A file that is added over one from disk overwrites it, any other comes in itself. In a folder that is added, none
      is in the way: its files are deleted first. */
  ghost predicate Fetched(v: View, w: View, d: Disk, q: Path, f: Disk) {
    if d.File? && AddedIn(v, q) then Overwritten(v, w, q, f) else FromDisk(w, q, f)
  }

  /** The tree after adding an entry to a folder: its files are live and come from disk, its folders are there and not
      deleted. */
  ghost predicate Put(v: View, w: View, base: Path, d: Disk) {
    && (forall q :: LiveIn(w, q) <==> LiveAfter(v, base, d, q))
    && (forall q, f :: FileIn(d, base, q, f) ==> Fetched(v, w, d, q, f))
    && (forall n :: n in v.nodes ==> (n in w.gone <==> n in v.gone && !FolderIn(d, base, n.Key())))
    && (forall p :: FolderIn(d, base, p) ==> HasFolder(w, p))
  }

  /** The names that are live after adding the first `k` entries of a folder. */
  ghost predicate LiveMidway(v: View, top: Path, entries: seq<Disk>, k: nat, q: Path)
    requires k <= |entries|
  {
    || (exists j, f :: 0 <= j < k && FileIn(entries[j], top, q, f) && !BlockedAt(v, q, f.name))
    || (LiveIn(v, q) && Above(q) != top && forall j :: 0 <= j < k ==> !FolderIn(entries[j], top, Above(q)))
  }

  predicate FolderMidway(top: Path, entries: seq<Disk>, k: nat, p: Path)
    requires k <= |entries|
  {
    p == top || exists j :: 0 <= j < k && FolderIn(entries[j], top, p)
  }

  ghost predicate Midway(v: View, w: View, top: Path, entries: seq<Disk>, k: nat)
    requires k <= |entries|
  {
    && (forall q :: LiveIn(w, q) <==> LiveMidway(v, top, entries, k, q))
    && (forall j, q, f :: 0 <= j < k && FileIn(entries[j], top, q, f) ==> FromDisk(w, q, f))
    && (forall n :: n in v.nodes ==> (n in w.gone <==> n in v.gone && !FolderMidway(top, entries, k, n.Key())))
    && (forall p :: FolderMidway(top, entries, k, p) ==> HasFolder(w, p))
    && (forall n :: n in w.nodes && n !in v.nodes ==> n.Key() == top || ByEntry(top, entries, k, n.Key()))
  }

  predicate ByEntry(top: Path, entries: seq<Disk>, k: nat, p: Path)
    requires k <= |entries|
  {
    exists j :: 0 <= j < k && KeyOf(top, entries[j]) <= p
  }

  /** Different entries have nothing below them in common. */
  lemma Apart(top: Path, a: Disk, b: Disk, q: Path)
    requires KeyOf(top, a) <= q && KeyOf(top, b) <= q
    ensures Fold(a.name) == Fold(b.name)
  {
    assert q[|top|] == Fold(a.name);
  }

  /** The folders in the way of an entry are those from before the first entry. */
  lemma SameBlocked(v: View, w: View, top: Path, entries: seq<Disk>, k: nat, q: Path, t: Text)
    requires v.nodes <= w.nodes && k < |entries| && Midway(v, w, top, entries, k) && KeyOf(top, entries[k]) <= q
    requires forall j :: 0 <= j < k ==> Fold(entries[j].name) != Fold(entries[k].name)
    ensures BlockedAt(w, q, t) <==> BlockedAt(v, q, t)
  {
    if n :| n in w.nodes && n.Key() == q && n.text == t && n !in v.nodes {
      assert n.Key() != top;
      var j :| 0 <= j < k && KeyOf(top, entries[j]) <= n.Key();
      Apart(top, entries[j], entries[k], q);
    }
  }

  // ----- one entry after the other -----

  /** The names of the entries before `k` are not that of entry `k`. */
  predicate NewNameAt(entries: seq<Disk>, k: nat)
    requires k < |entries|
  {
    forall j :: 0 <= j < k ==> Fold(entries[j].name) != Fold(entries[k].name)
  }

  /** No file of an earlier entry is at or below the name of entry `k`. */
  lemma NotEarlier(top: Path, entries: seq<Disk>, k: nat, j: nat, q: Path, f: Disk)
    requires k < |entries| && NewNameAt(entries, k) && j < k && FileIn(entries[j], top, q, f)
    ensures !(KeyOf(top, entries[k]) <= q)
  {
    FilesBelow(entries[j], top, q, f);
    if KeyOf(top, entries[k]) <= q {
      Apart(top, entries[j], entries[k], q);
    }
  }

  lemma MidwayMore(v: View, top: Path, entries: seq<Disk>, k: nat, q: Path)
    requires k < |entries|
    ensures LiveMidway(v, top, entries, k + 1, q) <==>
            || (exists f :: FileIn(entries[k], top, q, f) && !BlockedAt(v, q, f.name))
            || (exists j, f :: 0 <= j < k && FileIn(entries[j], top, q, f) && !BlockedAt(v, q, f.name))
            || (LiveIn(v, q) && Above(q) != top && !FolderIn(entries[k], top, Above(q))
                && forall j :: 0 <= j < k ==> !FolderIn(entries[j], top, Above(q)))
  {
    if f :| FileIn(entries[k], top, q, f) && !BlockedAt(v, q, f.name) {
      assert 0 <= k < k + 1 && FileIn(entries[k], top, q, f) && !BlockedAt(v, q, f.name);
    }
  }

  lemma NextFile(v: View, w: View, x: View, top: Path, entries: seq<Disk>, k: nat, q: Path)
    requires v.nodes <= w.nodes && k < |entries| && Midway(v, w, top, entries, k) && NewNameAt(entries, k)
    requires entries[k].File?
    requires LiveIn(x, q) <==> LiveAfter(w, top, entries[k], q)
    ensures LiveIn(x, q) <==> LiveMidway(v, top, entries, k + 1, q)
  {
    MidwayMore(v, top, entries, k, q);
    var e := entries[k];
    if q == KeyOf(top, e) {
      assert Above(q) == top;
      SameBlocked(v, w, top, entries, k, q, e.name);
      forall j, f | 0 <= j < k && FileIn(entries[j], top, q, f) ensures false {
        NotEarlier(top, entries, k, j, q, f);
      }
      assert !LiveIn(w, q) && !AddedIn(w, q);
      assert FileIn(e, top, q, e);
    } else {
      assert forall f :: !FileIn(e, top, q, f);
      assert LiveIn(x, q) <==> LiveMidway(v, top, entries, k, q);
    }
  }

  lemma NextFolder(v: View, w: View, x: View, top: Path, entries: seq<Disk>, k: nat, q: Path)
    requires v.nodes <= w.nodes && k < |entries| && Midway(v, w, top, entries, k) && NewNameAt(entries, k)
    requires entries[k].Folder?
    requires LiveIn(x, q) <==> LiveAfter(w, top, entries[k], q)
    ensures LiveIn(x, q) <==> LiveMidway(v, top, entries, k + 1, q)
  {
    MidwayMore(v, top, entries, k, q);
    var e := entries[k];
    assert LiveIn(w, q) <==> LiveMidway(v, top, entries, k, q);
    forall f | FileIn(e, top, q, f) ensures BlockedAt(w, q, f.name) <==> BlockedAt(v, q, f.name) {
      FilesBelow(e, top, q, f);
      SameBlocked(v, w, top, entries, k, q, f.name);
    }
    if FolderIn(e, top, Above(q)) {
      FoldersBelow(e, top, Above(q));
      assert KeyOf(top, e) <= q;
      forall j, f | 0 <= j < k && FileIn(entries[j], top, q, f) ensures false {
        NotEarlier(top, entries, k, j, q, f);
      }
    }
  }

  lemma FolderMore(top: Path, entries: seq<Disk>, k: nat, p: Path)
    requires k < |entries|
    ensures FolderMidway(top, entries, k + 1, p) <==> FolderMidway(top, entries, k, p) || FolderIn(entries[k], top, p)
  {
  }

  lemma NextFolders(v: View, w: View, x: View, top: Path, entries: seq<Disk>, k: nat)
    requires v.nodes <= w.nodes && k < |entries| && Midway(v, w, top, entries, k)
    requires Put(w, x, top, entries[k]) && Step(w, x, KeyOf(top, entries[k]))
    ensures forall n :: n in v.nodes ==> (n in x.gone <==> n in v.gone && !FolderMidway(top, entries, k + 1, n.Key()))
    ensures forall p :: FolderMidway(top, entries, k + 1, p) ==> HasFolder(x, p)
  {
    forall n | n in v.nodes ensures n in x.gone <==> n in v.gone && !FolderMidway(top, entries, k + 1, n.Key()) {
      FolderMore(top, entries, k, n.Key());
    }
    forall p | FolderMidway(top, entries, k + 1, p) ensures HasFolder(x, p) {
      FolderMore(top, entries, k, p);
      if FolderMidway(top, entries, k, p) {
        assert HasFolder(w, p);
        var n :| n in w.nodes && n !in w.gone && n.Key() == p;
        assert n in x.nodes && n !in x.gone;
      }
    }
  }

  lemma NextNew(v: View, w: View, x: View, top: Path, entries: seq<Disk>, k: nat, n: FolderTreeNode)
    requires k < |entries| && Midway(v, w, top, entries, k) && Step(w, x, KeyOf(top, entries[k]))
    requires n in x.nodes && n !in v.nodes
    ensures n.Key() == top || ByEntry(top, entries, k + 1, n.Key())
  {
    hide Good, Wired, SamePackage, LiveIn, AddedIn, LiveMidway, HasFolder, FolderMidway, FileIn, FolderIn, FromDisk;
    if n in w.nodes && n.Key() != top {
      var j :| 0 <= j < k && KeyOf(top, entries[j]) <= n.Key();
      assert 0 <= j < k + 1;
    } else if n !in w.nodes {
      assert KeyOf(top, entries[k]) <= n.Key();
    }
  }

  /** What an earlier entry brought stays. */
  lemma NextFromDisk(w: View, x: View, top: Path, entries: seq<Disk>, k: nat, j: nat, q: Path, f: Disk)
    requires k < |entries| && NewNameAt(entries, k) && j < k && FileIn(entries[j], top, q, f)
    requires FromDisk(w, q, f)
    requires !(KeyOf(top, entries[k]) <= q) ==> SameLive(w, x, q)
    ensures FromDisk(x, q, f)
  {
    hide NewNameAt, FileIn, LiveIn, AddedIn, HoldsIn, DiskFlags;
    NotEarlier(top, entries, k, j, q, f);
  }

  /** The next entry comes in as it is: in the folder that was entered, it is over no live file. */
  lemma NextFetched(v: View, w: View, x: View, top: Path, entries: seq<Disk>, k: nat, q: Path, f: Disk)
    requires k < |entries| && Midway(v, w, top, entries, k) && NewNameAt(entries, k) && FileIn(entries[k], top, q, f)
    requires Fetched(w, x, entries[k], q, f)
    ensures FromDisk(x, q, f)
  {
    hide FromDisk, Overwritten, BlockedAt;
    if entries[k].File? && AddedIn(w, q) {
      AddedInLive(w, q);
      assert Above(q) == top && LiveMidway(v, top, entries, k, q);
      var j, g :| 0 <= j < k && FileIn(entries[j], top, q, g) && !BlockedAt(v, q, g.name);
      NotEarlier(top, entries, k, j, q, g);
    }
  }

  lemma AddedInLive(v: View, q: Path)
    ensures AddedIn(v, q) ==> LiveIn(v, q)
  {
    if n :| n in v.nodes && n in v.lists && AddedAt(v.lists[n], q) {
      LiveHas(v.lists[n], q);
    }
  }

  /** After the next entry. */
  lemma NextMidway(v: View, w: View, x: View, top: Path, entries: seq<Disk>, k: nat)
    requires v.nodes <= w.nodes && k < |entries| && Midway(v, w, top, entries, k) && NewNameAt(entries, k)
    requires Put(w, x, top, entries[k]) && Step(w, x, KeyOf(top, entries[k]))
    ensures Midway(v, x, top, entries, k + 1)
  {
    hide Good, Wired, SamePackage, LiveIn, AddedIn, FromDisk, LiveMidway, LiveAfter, HasFolder, FolderMidway, NewNameAt,
         ByEntry, FileIn;
    forall q ensures LiveIn(x, q) <==> LiveMidway(v, top, entries, k + 1, q) {
      if entries[k].File? {
        NextFile(v, w, x, top, entries, k, q);
      } else {
        NextFolder(v, w, x, top, entries, k, q);
      }
    }
    NextFolders(v, w, x, top, entries, k);
    forall j, q, f | 0 <= j < k + 1 && FileIn(entries[j], top, q, f) ensures FromDisk(x, q, f) {
      if j < k {
        NextFromDisk(w, x, top, entries, k, j, q, f);
      } else {
        NextFetched(v, w, x, top, entries, k, q, f);
      }
    }
    forall n | n in x.nodes && n !in v.nodes ensures n.Key() == top || ByEntry(top, entries, k + 1, n.Key()) {
      NextNew(v, w, x, top, entries, k, n);
    }
  }

  /** The user is asked only about files that are live and folders that are not deleted. */
  ghost predicate Conflict(v: View, base: Path, d: Disk) {
    || (exists q, f :: FileIn(d, base, q, f) && LiveIn(v, q))
    || (exists p :: FolderIn(d, base, p) && HasFolder(v, p))
  }

  /** Nothing is asked about an entry because of the entries before it. */
  lemma ConflictBefore(v: View, w: View, base: Path, d: Disk, k: nat)
    requires d.Folder? && k < |d.entries| && NewNameAt(d.entries, k) && Midway(v, w, KeyOf(base, d), d.entries, k)
    requires Conflict(w, KeyOf(base, d), d.entries[k])
    ensures Conflict(v, base, d)
  {
    var top := KeyOf(base, d);
    if q, f :| FileIn(d.entries[k], top, q, f) && LiveIn(w, q) {
      FileBefore(v, w, top, d.entries, k, q, f);
      assert FileIn(d, base, q, f);
    } else {
      var p :| FolderIn(d.entries[k], top, p) && HasFolder(w, p);
      FolderBefore(v, w, top, d.entries, k, p);
      assert FolderIn(d, base, p);
    }
  }

  /** An entry of a folder was given up. */
  lemma GivenUp(v: View, w: View, base: Path, d: Disk, k: nat)
    requires d.Folder? && k < |d.entries| && (OwnNames(d) ==> Midway(v, w, KeyOf(base, d), d.entries, k))
    requires OwnNames(d.entries[k]) ==> Conflict(w, KeyOf(base, d), d.entries[k])
    ensures OwnNames(d) ==> Conflict(v, base, d)
  {
    if OwnNames(d) {
      ConflictBefore(v, w, base, d, k);
    }
  }

  lemma FileBefore(v: View, w: View, top: Path, entries: seq<Disk>, k: nat, q: Path, f: Disk)
    requires k < |entries| && NewNameAt(entries, k) && Midway(v, w, top, entries, k)
    requires FileIn(entries[k], top, q, f) && LiveIn(w, q)
    ensures LiveIn(v, q)
  {
    FilesBelow(entries[k], top, q, f);
    assert LiveMidway(v, top, entries, k, q);
    if j, g :| 0 <= j < k && FileIn(entries[j], top, q, g) && !BlockedAt(v, q, g.name) {
      NotEarlier(top, entries, k, j, q, g);
    }
  }

  lemma FolderBefore(v: View, w: View, top: Path, entries: seq<Disk>, k: nat, p: Path)
    requires k < |entries| && NewNameAt(entries, k) && Midway(v, w, top, entries, k)
    requires FolderIn(entries[k], top, p) && HasFolder(w, p)
    ensures HasFolder(v, p)
  {
    FoldersBelow(entries[k], top, p);
    var n :| n in w.nodes && n !in w.gone && n.Key() == p;
    if n !in v.nodes {
      var j :| 0 <= j < k && KeyOf(top, entries[j]) <= p;
      Apart(top, entries[j], entries[k], p);
    } else if n in v.gone {
      var j :| 0 <= j < k && FolderIn(entries[j], top, p);
      FoldersBelow(entries[j], top, p);
      Apart(top, entries[j], entries[k], p);
    }
  }

  /** What adding an entry may do: all of it is there, or the user gave up at something in the way. */
  ghost predicate Added(v: View, w: View, base: Path, d: Disk, ok: bool) {
    && Step(v, w, KeyOf(base, d)) && w.empty == v.empty
    && (OwnNames(d) ==> if ok then Put(v, w, base, d) else Conflict(v, base, d))
  }

  lemma AddedStep(v: View, w: View, base: Path, d: Disk, ok: bool)
    requires Added(v, w, base, d, ok)
    ensures Step(v, w, KeyOf(base, d))
  {
  }

  lemma EmptyKeeps(w: View, n: FolderTreeNode, q: Path)
    requires Good(w) && Wired(w) && n in w.nodes
    ensures var x := WithEmpty(w, n);
            && Good(x) && Wired(x) && (PackagedIn(x, q) <==> PackagedIn(w, q)) && (HasFolder(x, q) <==> HasFolder(w, q))
            && SameLive(w, x, q)
  {
  }

  lemma EmptyStep(v: View, w: View, n: FolderTreeNode, top: Path)
    requires Step(v, w, top) && n in w.nodes
    ensures Step(v, WithEmpty(w, n), top)
  {
    hide LiveIn, AddedIn, HoldsIn, PackagedIn, HasFolder, Good, Wired;
    var x := WithEmpty(w, n);
    EmptyKeeps(w, n, top);
    forall q
      ensures PackagedIn(x, q) <==> PackagedIn(w, q)
      ensures SameLive(v, w, q) ==> SameLive(v, x, q)
    {
      EmptyKeeps(w, n, q);
    }
    forall k | k in v.nodes ensures NotShorter(v, x, k) {
      assert NotShorter(v, w, k);
    }
  }

  lemma SameMidway(v: View, w: View, x: View, top: Path)
    requires Midway(v, w, top, [], 0) && x.nodes == w.nodes && x.gone == w.gone
    requires forall q :: SameLive(w, x, q)
    requires forall p :: HasFolder(w, p) ==> HasFolder(x, p)
    ensures Midway(v, x, top, [], 0)
  {
    hide LiveIn, AddedIn, HoldsIn, HasFolder, LiveMidway, FolderMidway, ByEntry, FileIn;
    forall q ensures LiveIn(x, q) <==> LiveIn(w, q) { assert SameLive(w, x, q); }
  }

  /** A new folder is noted as one the user added. */
  lemma EmptyMidway(v: View, w: View, n: FolderTreeNode, top: Path)
    requires Step(v, w, top) && Midway(v, w, top, [], 0) && n in w.nodes
    ensures Step(v, WithEmpty(w, n), top) && Midway(v, WithEmpty(w, n), top, [], 0)
  {
    hide LiveIn, AddedIn, HoldsIn, SamePackage, HasFolder, Good, Wired, NotShorter, Midway;
    EmptyStep(v, w, n, top);
    var x := WithEmpty(w, n);
    forall q
      ensures SameLive(w, x, q)
      ensures HasFolder(w, q) ==> HasFolder(x, q)
    {
      EmptyKeeps(w, n, q);
    }
    SameMidway(v, w, x, top);
  }

  /** Entries added to a folder one after the other, with the tree after each. */
  ghost predicate AddedAll(v: View, w: View, base: Path, ds: seq<Disk>, run: seq<View>, oks: seq<bool>) {
    && |run| == |ds| + 1 && |oks| == |ds| && run[0] == v && run[|ds|] == w
    && forall k :: 0 <= k < |ds| ==> Added(run[k], run[k + 1], base, ds[k], oks[k])
  }

  /** An entry that was added, or given up on the way. */
  lemma AfterEntry(v: View, w: View, x: View, top: Path, d: Disk, k: nat)
    requires d.Folder? && k < |d.entries| && Step(v, w, top) && Step(w, x, KeyOf(top, d.entries[k]))
    ensures Step(v, x, top)
    ensures OwnNames(d) && Midway(v, w, top, d.entries, k) && Put(w, x, top, d.entries[k]) ==>
              Midway(v, x, top, d.entries, k + 1)
  {
    hide Good, Wired, SamePackage, SameLive, NotShorter, Midway, Put;
    TwoSteps(v, w, x, top, KeyOf(top, d.entries[k]));
    if OwnNames(d) && Midway(v, w, top, d.entries, k) && Put(w, x, top, d.entries[k]) {
      NextMidway(v, w, x, top, d.entries, k);
    }
  }

  /** After the last entry. */
  lemma LastMidway(v: View, w: View, base: Path, d: Disk)
    requires d.Folder? && Midway(v, w, KeyOf(base, d), d.entries, |d.entries|)
    ensures Put(v, w, base, d)
  {
    hide LiveIn, AddedIn, HoldsIn, DiskFlags;
    var top := KeyOf(base, d);
    forall q ensures LiveIn(w, q) <==> LiveAfter(v, base, d, q) {
      assert LiveIn(w, q) <==> LiveMidway(v, top, d.entries, |d.entries|, q);
      if j, f :| 0 <= j < |d.entries| && FileIn(d.entries[j], top, q, f) && !BlockedAt(v, q, f.name) {
        assert FileIn(d, base, q, f);
      }
    }
    forall p ensures FolderIn(d, base, p) <==> FolderMidway(top, d.entries, |d.entries|, p) {}
  }
}
