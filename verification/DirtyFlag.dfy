/** When adding from disk sets the flag that asks the user to save (`dirty` in PackageEditor/FileSystemEditor.cs). */
module DirtyFlag {
  import opened Utf16
  import opened CaseFold
  import opened FileLists
  import opened FolderTree
  import opened SaveTree
  import opened EditTree
  import opened DiskTree
  import opened DiskAdd

  /** A folder is new, or a list has become longer. */
  ghost predicate Grew(v: View, w: View) {
    || (exists n :: n in w.nodes && n !in v.nodes)
    || (exists n :: n in v.nodes && ListGrew(v, w, n))
  }

  predicate ListGrew(v: View, w: View, n: FolderTreeNode) {
    n in v.lists && n in w.lists && |v.lists[n]| < |w.lists[n]|
  }

  /** The tree has a folder of this name, deleted or not. */
  ghost predicate NodeAt(v: View, p: Path) {
    exists n :: n in v.nodes && n.Key() == p
  }

  ghost predicate HasFile(d: Disk, base: Path) {
    exists q, f :: FileIn(d, base, q, f)
  }

  ghost predicate HasNewFolder(v: View, base: Path, d: Disk) {
    exists p :: FolderIn(d, base, p) && !NodeAt(v, p)
  }

  /** The entry has a file, or a folder that the tree does not have. */
  ghost predicate Brings(v: View, base: Path, d: Disk) {
    HasFile(d, base) || HasNewFolder(v, base, d)
  }

  /** Adding all of the entry sets the flag: a file over a live one from disk does not, and neither does a folder
      without files whose folders are all in the tree, even when it brings deleted ones back. */
  ghost predicate Touches(v: View, base: Path, d: Disk) {
    if d.File? then !AddedIn(v, KeyOf(base, d)) else Brings(v, base, d)
  }

  /** A folder of the tree has exactly the name of a file of the entry. */
  ghost predicate BlockedFile(v: View, base: Path, d: Disk) {
    exists q, f :: FileIn(d, base, q, f) && BlockedAt(v, q, f.name)
  }

  /** What adding an entry does to the flag: it is set whenever the tree grew. For entries as on disk, it is set only
      then if no file is blocked, and, if the entry was not given up, exactly when the entry touches the tree. */
  ghost predicate Dirtied(was: bool, dirty: bool, v: View, w: View, base: Path, d: Disk, ok: bool) {
    && (was || Grew(v, w) ==> dirty)
    && (OwnNames(d) && !BlockedFile(v, base, d) && dirty ==> was || Grew(v, w))
    && (OwnNames(d) && ok ==> (dirty <==> was || Touches(v, base, d)))
  }

  // ----- two steps -----

  /** No folder disappears, and no list gets shorter. */
  ghost predicate Grows(v: View, w: View) {
    v.nodes <= w.nodes && forall n :: n in v.nodes ==> NotShorter(v, w, n)
  }

  lemma StepGrows(v: View, w: View, top: Path)
    requires Step(v, w, top)
    ensures Grows(v, w)
  {
  }

  lemma GrewTwice(v: View, w: View, x: View)
    requires Grows(v, w) && Grows(w, x)
    ensures Grew(v, x) <==> Grew(v, w) || Grew(w, x)
  {
    forall n | n in v.nodes ensures ListGrew(v, x, n) <==> ListGrew(v, w, n) || ListGrew(w, x, n) {
      assert NotShorter(v, w, n) && NotShorter(w, x, n);
    }
  }

  lemma GrewNot(v: View)
    ensures !Grew(v, v)
  {
  }

  // ----- a file -----

  lemma FileGrew(v: View, parent: FolderTreeNode, file: FileData)
    requires Good(v) && parent in v.nodes && file.path != [] && file.Added() && !file.deleted
    ensures Grew(v, FilePut(v, parent, file)) <==>
            !Occupied(v.nodes, parent, file.path) && !AddedAt(v.lists[parent], file.Key())
  {
    hide Shape, Closed, Occupied;
    var occupied := Occupied(v.nodes, parent, file.path);
    assert Proper(v.lists[parent], parent.FileName);
    FilesWithAdded(v.lists[parent], file, occupied);
    InPlaceAdded(v.lists[parent], file.Key());
    var w := FilePut(v, parent, file);
    assert w.nodes == v.nodes && w.lists == v.lists[parent := FilesWith(v.lists[parent], file, occupied)];
    assert ListGrew(v, w, parent) <==> !occupied && !InPlace(v.lists[parent], file.Key());
  }

  /** After adding a file, or giving it up. */
  lemma FileDirtied(was: bool, v: View, parent: FolderTreeNode, file: FileData, d: Disk, ok: bool)
    requires Good(v) && parent in v.nodes && d.File? && file.path == parent.FileName + [d.name]
    requires file.Added() && !file.deleted
    ensures var w := if ok then FilePut(v, parent, file) else v;
            Dirtied(was, was || (ok && !AddedAt(v.lists[parent], file.Key())), v, w, parent.Key(), d, ok)
  {
    hide Good, FilePut, Grew, LiveIn, AddedIn, BlockedAt;
    FoldPathAppend(parent.FileName, d.name);
    FileGrew(v, parent, file);
    GrewNot(v);
    LiveOfFolder(v, parent, file.Key());
    BlockedOccupied(v, parent, d.name);
    assert FileIn(d, parent.Key(), file.Key(), d);
    assert BlockedFile(v, parent.Key(), d) <==> BlockedAt(v, file.Key(), d.name);
  }

  /** What adding a file, or refusing it, does to the tree and to the flag. */
  lemma FileDone(was: bool, v: View, parent: FolderTreeNode, d: Disk, ok: bool)
    requires Good(v) && Wired(v) && parent in v.nodes && d.File? && d.source != []
    requires !ok ==> LiveAt(v.lists[parent], FileOf(parent, d).Key())
    ensures var w := if ok then FilePut(v, parent, FileOf(parent, d)) else v;
            && w.nodes == v.nodes && Added(v, w, parent.Key(), d, ok)
            && Dirtied(was, was || (ok && !AddedAt(v.lists[parent], FileOf(parent, d).Key())), v, w,
                       parent.Key(), d, ok)
  {
    hide Good, Wired, Put, Conflict, Step, Dirtied;
    FoldPathAppend(parent.FileName, d.name);
    FileDirtied(was, v, parent, FileOf(parent, d), d, ok);
    if ok {
      FileIsPut(v, parent, FileOf(parent, d), d);
    } else {
      NoStep(v, KeyOf(parent.Key(), d));
      FileConflict(v, parent, d);
    }
  }

  // ----- a folder -----

  /** The flag after the first `k` entries of a folder. */
  ghost predicate DirtiedMidway(was: bool, dirty: bool, v: View, w: View, top: Path, entries: seq<Disk>, k: nat)
    requires k <= |entries|
  {
    && ((forall j :: 0 <= j < |entries| ==> !BlockedFile(v, top, entries[j])) && dirty ==> was || Grew(v, w))
    && (dirty <==> was || !NodeAt(v, top) || exists j :: 0 <= j < k && Brings(v, top, entries[j]))
  }

  /** A folder that is at or below the name of entry `k` was there before. */
  lemma NodeBefore(v: View, w: View, top: Path, entries: seq<Disk>, k: nat, p: Path)
    requires v.nodes <= w.nodes && k < |entries| && Midway(v, w, top, entries, k) && NewNameAt(entries, k)
    requires KeyOf(top, entries[k]) <= p
    ensures NodeAt(w, p) <==> NodeAt(v, p)
  {
    hide LiveIn, AddedIn, FromDisk, LiveMidway, HasFolder, FolderMidway, FileIn, FolderIn;
    if n :| n in w.nodes && n.Key() == p && n !in v.nodes {
      assert n.Key() != top;
      var j :| 0 <= j < k && KeyOf(top, entries[j]) <= n.Key();
      Apart(top, entries[j], entries[k], p);
    }
  }

  lemma BringsBefore(v: View, w: View, top: Path, entries: seq<Disk>, k: nat)
    requires v.nodes <= w.nodes && k < |entries| && Midway(v, w, top, entries, k) && NewNameAt(entries, k)
    ensures HasNewFolder(w, top, entries[k]) <==> HasNewFolder(v, top, entries[k])
    ensures BlockedFile(w, top, entries[k]) ==> BlockedFile(v, top, entries[k])
  {
    hide Midway, NewNameAt, NodeAt, BlockedAt, FileIn, FolderIn;
    forall p | FolderIn(entries[k], top, p) ensures NodeAt(w, p) <==> NodeAt(v, p) {
      FoldersBelow(entries[k], top, p);
      NodeBefore(v, w, top, entries, k, p);
    }
    if q, f :| FileIn(entries[k], top, q, f) && BlockedAt(w, q, f.name) {
      FilesBelow(entries[k], top, q, f);
      BlockedBefore(v, w, top, entries, k, q, f.name);
    }
  }

  lemma BlockedBefore(v: View, w: View, top: Path, entries: seq<Disk>, k: nat, q: Path, t: Text)
    requires v.nodes <= w.nodes && k < |entries| && Midway(v, w, top, entries, k) && NewNameAt(entries, k)
    requires KeyOf(top, entries[k]) <= q
    ensures BlockedAt(w, q, t) <==> BlockedAt(v, q, t)
  {
    hide Midway;
    SameBlocked(v, w, top, entries, k, q, t);
  }

  /** In a folder that was entered, no file of the entry is over a live one. */
  lemma TouchesBefore(v: View, w: View, top: Path, entries: seq<Disk>, k: nat)
    requires v.nodes <= w.nodes && k < |entries| && Midway(v, w, top, entries, k) && NewNameAt(entries, k)
    ensures Touches(w, top, entries[k]) <==> Brings(v, top, entries[k])
  {
    var e := entries[k];
    BringsBefore(v, w, top, entries, k);
    if e.File? {
      var q := KeyOf(top, e);
      assert FileIn(e, top, q, e) && Above(q) == top;
      if LiveIn(w, q) {
        assert LiveMidway(v, top, entries, k, q);
        var j, f :| 0 <= j < k && FileIn(entries[j], top, q, f) && !BlockedAt(v, q, f.name);
        NotEarlier(top, entries, k, j, q, f);
      }
      AddedInLive(w, q);
    }
  }

  /** After the next entry. */
  lemma NextDirtied(was: bool, between: bool, dirty: bool, v: View, w: View, x: View, top: Path, entries: seq<Disk>,
                    k: nat, ok: bool)
    requires k < |entries| && OwnNames(entries[k]) && (Grew(v, x) <==> Grew(v, w) || Grew(w, x))
    requires BlockedFile(w, top, entries[k]) ==> BlockedFile(v, top, entries[k])
    requires Touches(w, top, entries[k]) <==> Brings(v, top, entries[k])
    requires DirtiedMidway(was, between, v, w, top, entries, k) && Dirtied(between, dirty, w, x, top, entries[k], ok)
    ensures (forall j :: 0 <= j < |entries| ==> !BlockedFile(v, top, entries[j])) && dirty ==> was || Grew(v, x)
    ensures ok ==> DirtiedMidway(was, dirty, v, x, top, entries, k + 1)
  {
    hide Grew, BlockedFile, Brings, Touches, NodeAt, OwnNames;
  }

  lemma EnteredGrew(v: View, c: FolderTreeNode)
    requires Good(v) && c in v.nodes
    ensures !Grew(v, Entered(v, c)) && NodeAt(v, c.Key())
    ensures var w := Entered(v, c); w.nodes == v.nodes && c !in w.gone && w.empty == v.empty
  {
    var w := Entered(v, c);
    forall n | n in v.nodes ensures !ListGrew(v, w, n) {
      assert n != c ==> w.lists[n] == v.lists[n];
    }
  }

  lemma NewGrew(v: View, c: FolderTreeNode, size: nat)
    requires Good(v) && c !in v.nodes && Hangs(v.nodes, c) && c.Parent in v.children
    requires forall d :: d in v.nodes && d.Parent == c.Parent ==> Fold(d.text) != Fold(c.text)
    ensures Grew(v, FolderAdded(v, c, size)) && !NodeAt(v, c.Key())
    ensures var w := FolderAdded(v, c, size); w.nodes == v.nodes + {c} && c !in w.gone && w.empty == v.empty
  {
    forall n | n in v.nodes ensures n.Key() != c.Key() {
      NewName(v.nodes, v.root, c, n);
    }
    assert c in FolderAdded(v, c, size).nodes;
  }

  /** A folder is entered. */
  lemma EnteredDirtied(was: bool, dirty: bool, v: View, w: View, top: Path, entries: seq<Disk>)
    requires dirty == (was || Grew(v, w)) && (Grew(v, w) <==> !NodeAt(v, top))
    ensures DirtiedMidway(was, dirty, v, w, top, entries, 0)
  {
  }

  lemma FolderFiles(d: Disk, base: Path)
    requires d.Folder?
    ensures HasFile(d, base) <==> exists j :: 0 <= j < |d.entries| && HasFile(d.entries[j], KeyOf(base, d))
  {
    var top := KeyOf(base, d);
    if q, f :| FileIn(d, base, q, f) {
      var j :| 0 <= j < |d.entries| && FileIn(d.entries[j], top, q, f);
      assert HasFile(d.entries[j], top);
    }
    if j :| 0 <= j < |d.entries| && HasFile(d.entries[j], top) {
      var q, f :| FileIn(d.entries[j], top, q, f);
      assert FileIn(d, base, q, f);
    }
  }

  lemma FolderBlocked(v: View, base: Path, d: Disk)
    requires d.Folder?
    ensures BlockedFile(v, base, d) <==>
            exists j :: 0 <= j < |d.entries| && BlockedFile(v, KeyOf(base, d), d.entries[j])
  {
    hide BlockedAt;
    var top := KeyOf(base, d);
    if q, f :| FileIn(d, base, q, f) && BlockedAt(v, q, f.name) {
      var j :| 0 <= j < |d.entries| && FileIn(d.entries[j], top, q, f);
      assert BlockedFile(v, top, d.entries[j]);
    }
    if j :| 0 <= j < |d.entries| && BlockedFile(v, top, d.entries[j]) {
      var q, f :| FileIn(d.entries[j], top, q, f) && BlockedAt(v, q, f.name);
      assert FileIn(d, base, q, f);
    }
  }

  lemma FolderFolders(v: View, base: Path, d: Disk)
    requires d.Folder?
    ensures HasNewFolder(v, base, d) <==>
            || !NodeAt(v, KeyOf(base, d))
            || exists j :: 0 <= j < |d.entries| && HasNewFolder(v, KeyOf(base, d), d.entries[j])
  {
    hide NodeAt;
    var top := KeyOf(base, d);
    assert FolderIn(d, base, top);
    forall j, p | 0 <= j < |d.entries| && FolderIn(d.entries[j], top, p) ensures FolderIn(d, base, p) {}
    if p :| FolderIn(d, base, p) && !NodeAt(v, p) {
      if p != top {
        var j :| 0 <= j < |d.entries| && FolderIn(d.entries[j], top, p);
        assert HasNewFolder(v, top, d.entries[j]);
      }
    }
  }

  lemma FolderTouches(v: View, base: Path, d: Disk)
    requires d.Folder?
    ensures Touches(v, base, d) <==>
            !NodeAt(v, KeyOf(base, d)) || exists j :: 0 <= j < |d.entries| && Brings(v, KeyOf(base, d), d.entries[j])
  {
    hide HasFile, HasNewFolder, NodeAt;
    FolderFiles(d, base);
    FolderFolders(v, base, d);
  }

  /** After the last entry, or after one that was given up. */
  lemma LastDirtied(was: bool, dirty: bool, v: View, w: View, base: Path, d: Disk, ok: bool)
    requires d.Folder? && (was || Grew(v, w) ==> dirty)
    requires OwnNames(d) && dirty ==>
               was || Grew(v, w) || exists j :: 0 <= j < |d.entries| && BlockedFile(v, KeyOf(base, d), d.entries[j])
    requires OwnNames(d) && ok ==> DirtiedMidway(was, dirty, v, w, KeyOf(base, d), d.entries, |d.entries|)
    ensures Dirtied(was, dirty, v, w, base, d, ok)
  {
    hide Grew, BlockedFile, Touches, Brings, NodeAt, OwnNames;
    FolderBlocked(v, base, d);
    FolderTouches(v, base, d);
  }

  /** All entries were added. */
  lemma AllDirtied(was: bool, dirty: bool, v: View, w: View, base: Path, d: Disk)
    requires d.Folder? && (was || Grew(v, w) ==> dirty)
    requires OwnNames(d) ==> DirtiedMidway(was, dirty, v, w, KeyOf(base, d), d.entries, |d.entries|)
    ensures Dirtied(was, dirty, v, w, base, d, true)
  {
    hide Grew, BlockedFile, Touches, Brings, NodeAt, OwnNames;
    LastDirtied(was, dirty, v, w, base, d, true);
  }

  /** The folder was refused. */
  lemma FolderRefused(was: bool, v: View, parent: FolderTreeNode, d: Disk)
    requires Good(v) && Wired(v) && parent in v.nodes && d.Folder? && HasLiveChild(v, parent, d.name)
    ensures Added(v, v, parent.Key(), d, false) && Dirtied(was, was, v, v, parent.Key(), d, false)
  {
    NoStep(v, KeyOf(parent.Key(), d));
    FolderConflict(v, parent, d);
    GrewNot(v);
  }

  /** The folder was added as a whole. */
  lemma FolderComplete(was: bool, dirty: bool, v: View, w: View, base: Path, d: Disk)
    requires d.Folder? && Step(v, w, KeyOf(base, d)) && w.empty == v.empty && (was || Grew(v, w) ==> dirty)
    requires OwnNames(d) ==> Midway(v, w, KeyOf(base, d), d.entries, |d.entries|)
    requires OwnNames(d) ==> DirtiedMidway(was, dirty, v, w, KeyOf(base, d), d.entries, |d.entries|)
    ensures Added(v, w, base, d, true) && Dirtied(was, dirty, v, w, base, d, true)
  {
    hide Step, Put, Midway, DirtiedMidway, Dirtied, Grew, OwnNames;
    if OwnNames(d) { LastMidway(v, w, base, d); }
    AllDirtied(was, dirty, v, w, base, d);
  }

  /** An entry of the folder was added, or given up, and with it the folder. */
  lemma NextEntry(was: bool, between: bool, dirty: bool, v: View, w: View, x: View, base: Path, d: Disk, k: nat,
                  ok: bool)
    requires d.Folder? && k < |d.entries| && Step(v, w, KeyOf(base, d)) && (was || Grew(v, w) ==> between)
    requires OwnNames(d) ==> Midway(v, w, KeyOf(base, d), d.entries, k)
    requires OwnNames(d) ==> DirtiedMidway(was, between, v, w, KeyOf(base, d), d.entries, k)
    requires w.empty == v.empty && Added(w, x, KeyOf(base, d), d.entries[k], ok)
    requires Dirtied(between, dirty, w, x, KeyOf(base, d), d.entries[k], ok)
    ensures Step(v, x, KeyOf(base, d)) && x.empty == v.empty && (was || Grew(v, x) ==> dirty)
    ensures OwnNames(d) && ok ==> Midway(v, x, KeyOf(base, d), d.entries, k + 1)
    ensures OwnNames(d) && ok ==> DirtiedMidway(was, dirty, v, x, KeyOf(base, d), d.entries, k + 1)
    ensures !ok ==> Added(v, x, base, d, false) && Dirtied(was, dirty, v, x, base, d, false)
  {
    hide Step, Put, Conflict, Midway, NewNameAt, DirtiedMidway, Grows, Grew, BlockedFile, Brings, Touches;
    var top := KeyOf(base, d);
    AfterEntry(v, w, x, top, d, k);
    StepGrows(v, w, top);
    StepGrows(w, x, KeyOf(top, d.entries[k]));
    GrewTwice(v, w, x);
    if OwnNames(d) {
      FirstOfName(d, k);
      StepNodes(v, w, top);
      BringsBefore(v, w, top, d.entries, k);
      TouchesBefore(v, w, top, d.entries, k);
      NextDirtied(was, between, dirty, v, w, x, top, d.entries, k, ok);
    }
    if !ok {
      GivenUp(v, w, base, d, k);
      LastDirtied(was, dirty, v, x, base, d, false);
    }
  }

  lemma FirstOfName(d: Disk, k: nat)
    requires d.Folder? && OwnNames(d) && k < |d.entries|
    ensures NewNameAt(d.entries, k) && OwnNames(d.entries[k])
  {
  }

  lemma StepNodes(v: View, w: View, top: Path)
    requires Step(v, w, top)
    ensures v.nodes <= w.nodes
  {
  }

  /** A deleted folder that comes back because an empty one of its name is added does not set the flag: closing the
      package then drops the change without a question. */
  lemma QuietReturn(v: View, w: View, base: Path, d: Disk, n: FolderTreeNode, dirty: bool)
    requires n in v.gone && n in v.nodes && n.Key() == KeyOf(base, d) && d.Folder? && d.entries == []
    requires Good(v) && Put(v, w, base, d) && Dirtied(false, dirty, v, w, base, d, true)
    ensures !dirty && n !in w.gone && !HasFolder(v, n.Key()) && HasFolder(w, n.Key())
  {
    hide LiveIn, AddedIn;
    assert NodeAt(v, n.Key()) && FolderIn(d, base, n.Key());
    forall k | k in v.nodes && k.Key() == n.Key() ensures k == n {
      SameNode(v.nodes, v.root, k, n);
    }
    assert !HasFile(d, base) && !HasNewFolder(v, base, d);
  }

  // ----- several entries -----

  /** The flag after adding entries one after the other. */
  ghost predicate DirtiedAll(was: bool, dirty: bool, base: Path, ds: seq<Disk>, run: seq<View>, oks: seq<bool>)
    requires |run| == |ds| + 1 && |oks| == |ds|
  {
    && (was || Grew(run[0], run[|ds|]) ==> dirty)
    && ((forall k :: 0 <= k < |ds| ==> OwnNames(ds[k]) && !BlockedFile(run[k], base, ds[k])) && dirty ==>
          was || Grew(run[0], run[|ds|]))
    && ((forall k :: 0 <= k < |ds| ==> OwnNames(ds[k]) && oks[k]) ==>
          (dirty <==> was || exists k :: 0 <= k < |ds| && Touches(run[k], base, ds[k])))
  }

  lemma NoneDirtied(was: bool, base: Path, v: View)
    ensures DirtiedAll(was, was, base, [], [v], [])
  {
    GrewNot(v);
  }

  lemma NextOfAll(was: bool, between: bool, dirty: bool, base: Path, ds: seq<Disk>, run: seq<View>, oks: seq<bool>,
                  d: Disk, x: View, ok: bool)
    requires |run| == |ds| + 1 && |oks| == |ds| && DirtiedAll(was, between, base, ds, run, oks)
    requires Grows(run[0], run[|ds|]) && Grows(run[|ds|], x)
    requires Dirtied(between, dirty, run[|ds|], x, base, d, ok)
    ensures DirtiedAll(was, dirty, base, ds + [d], run + [x], oks + [ok])
  {
    hide Grows, Grew, BlockedFile, Touches, OwnNames;
    GrewTwice(run[0], run[|ds|], x);
    var ds', run', oks' := ds + [d], run + [x], oks + [ok];
    assert forall k :: 0 <= k < |ds| ==> ds'[k] == ds[k] && run'[k] == run[k] && oks'[k] == oks[k];
    assert ds'[|ds|] == d && run'[|ds|] == run[|ds|] && oks'[|ds|] == ok && run'[|ds'|] == x;
    if forall k :: 0 <= k < |ds'| ==> OwnNames(ds'[k]) && !BlockedFile(run'[k], base, ds'[k]) {
      assert forall k :: 0 <= k < |ds| ==> OwnNames(ds[k]) && !BlockedFile(run[k], base, ds[k]);
      assert OwnNames(d) && !BlockedFile(run[|ds|], base, d);
    }
    if forall k :: 0 <= k < |ds'| ==> OwnNames(ds'[k]) && oks'[k] {
      assert forall k :: 0 <= k < |ds| ==> OwnNames(ds[k]) && oks[k];
      assert OwnNames(d) && ok;
    }
  }
}
