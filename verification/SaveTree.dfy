/** What saving the folder tree does to the package, name by name (PackageEditor/FileSystemEditor.cs). */
module SaveTree {
  import opened FileLists
  import opened FolderTree

  /** The tree at one moment: its folders, the files of each, the folders marked as deleted, the children of each
      folder in order, the sizes of the folders, and those the user added as new empty folders. */
  datatype View = View(nodes: Folders, root: FolderTreeNode, lists: map<FolderTreeNode, Files>, gone: Folders,
                       children: map<FolderTreeNode, seq<FolderTreeNode>>, sizes: Sizes, empty: Folders)

  /** The children are the folders with this parent. */
  ghost predicate Wired(v: View) {
    && v.children.Keys == v.nodes && v.sizes.Keys == v.nodes
    && forall n :: n in v.nodes ==> ChildrenOf(v.nodes, n, v.children[n])
  }

  ghost predicate Good(v: View) {
    && Shape(v.nodes, v.root)
    && v.lists.Keys == v.nodes && (forall n :: n in v.nodes ==> Proper(v.lists[n], n.FileName))
    && v.gone <= v.nodes && Closed(v.nodes, v.gone) && v.empty <= v.nodes
  }

  // ----- what a part of the tree says about a name -----

  /** A deleted folder has the name or stands above it. */
  ghost predicate GoneAt(v: View, scope: Folders, q: Path) {
    exists n :: n in scope && n in v.gone && n.Key() <= q
  }

  /** The folder lists the name, and it is not deleted. */
  predicate EntryIn(v: View, scope: Folders, n: FolderTreeNode, q: Path) {
    n in scope && n !in v.gone && n in v.lists && HasEntry(v.lists[n], q)
  }

  /** A file that was removed and not added again stands above the name. */
  ghost predicate ShadowIn(v: View, scope: Folders, q: Path) {
    exists n :: n in scope && n !in v.gone && n in v.lists && Shadowed(v.lists[n], q)
  }

  /** The package `m'` has under `q` what saving these folders makes of `m`. */
  ghost predicate SavedAt(v: View, scope: Folders, m: Contents, m': Contents, q: Path) {
    && (GoneAt(v, scope, q) ==> q !in m')
    && (!GoneAt(v, scope, q) ==>
          && (forall n :: n in scope && EntryIn(v, scope, n, q) ==> EntryKept(v, scope, m, m', q, n))
          && ((forall n :: n in scope ==> !EntryIn(v, scope, n, q)) ==>
                if ShadowIn(v, scope, q) then q !in m' else SameAt(m, m', q)))
  }

  ghost predicate EntryKept(v: View, scope: Folders, m: Contents, m': Contents, q: Path, n: FolderTreeNode)
    requires n in v.lists
  {
    && (q in m' <==> AddedAt(v.lists[n], q) || (LiveAt(v.lists[n], q) && q in m && !ShadowIn(v, scope, q)))
    && (q in m' ==> KeptAt(v.lists[n], q, m, m'[q]))
  }

  // ----- where names are -----

  lemma EntryFolder(v: View, n: FolderTreeNode, q: Path)
    requires Good(v) && n in v.nodes && HasEntry(v.lists[n], q)
    ensures q != [] && n.Key() == q[..|q| - 1]
  {
    var i :| 0 <= i < |v.lists[n]| && EntryAt(v.lists[n], i, q);
    var f := v.lists[n][i];
    assert Proper(v.lists[n], n.FileName);
    FoldPathPrefix(f.path, |n.FileName|);
  }

  lemma ShadowFolder(v: View, n: FolderTreeNode, q: Path)
    requires Good(v) && n in v.nodes && Shadowed(v.lists[n], q)
    ensures n.Key() < q && |n.Key()| + 1 < |q|
  {
    var k :| 0 <= k < |q| && DeadAt(v.lists[n], q[..k]);
    EntryFolder(v, n, q[..k]);
    assert n.Key() == q[..k][..k - 1] == q[..k - 1];
  }

  /** A name is listed by one folder only. */
  lemma OneFolder(v: View, m: FolderTreeNode, n: FolderTreeNode, q: Path)
    requires Good(v) && m in v.nodes && n in v.nodes && HasEntry(v.lists[m], q) && HasEntry(v.lists[n], q)
    ensures m == n
  {
    EntryFolder(v, m, q);
    EntryFolder(v, n, q);
    SameNode(v.nodes, v.root, m, n);
  }

  lemma Prefixes(a: Path, b: Path, q: Path)
    requires a <= q && b <= q && |a| <= |b|
    ensures a <= b
  {
    assert a == q[..|b|][..|a|];
  }

  // ----- one part after the other -----

  /** No folder of the second part is above one of the first. */
  ghost predicate InOrder(first: Folders, second: Folders) {
    forall a, b :: a in first && b in second ==> a != b && !(b.Key() < a.Key())
  }

  /** A name listed by the second part is not touched by the deleted folders of the first. */
  lemma NotGoneBefore(v: View, first: Folders, second: Folders, n: FolderTreeNode, q: Path)
    requires Good(v) && first <= v.nodes && second <= v.nodes && InOrder(first, second)
    requires EntryIn(v, second, n, q)
    ensures !GoneAt(v, first, q)
  {
    if a :| a in first && a in v.gone && a.Key() <= q {
      EntryFolder(v, n, q);
      if |a.Key()| <= |n.Key()| {
        Prefixes(a.Key(), n.Key(), q);
        MarkedBelow(v.nodes, v.root, v.gone, a, n);
      }
    }
  }

  /** A name listed by the first part is not touched by the removed files of the second. */
  lemma NotShadowedAfter(v: View, first: Folders, second: Folders, n: FolderTreeNode, q: Path)
    requires Good(v) && first <= v.nodes && second <= v.nodes && InOrder(first, second)
    requires EntryIn(v, first, n, q)
    ensures !ShadowIn(v, second, q)
  {
    if b :| b in second && b !in v.gone && b in v.lists && Shadowed(v.lists[b], q) {
      EntryFolder(v, n, q);
      ShadowFolder(v, b, q);
    }
  }

  lemma Parts(v: View, first: Folders, second: Folders, q: Path)
    ensures GoneAt(v, first + second, q) <==> GoneAt(v, first, q) || GoneAt(v, second, q)
    ensures ShadowIn(v, first + second, q) <==> ShadowIn(v, first, q) || ShadowIn(v, second, q)
    ensures forall n :: n in first + second ==>
              (EntryIn(v, first + second, n, q) <==> EntryIn(v, first, n, q) || EntryIn(v, second, n, q))
  {
  }

  lemma EntryInFirst(v: View, first: Folders, second: Folders, m: Contents, m1: Contents, m2: Contents, q: Path,
                     n: FolderTreeNode)
    requires Good(v) && first <= v.nodes && second <= v.nodes && InOrder(first, second)
    requires SavedAt(v, first, m, m1, q) && SavedAt(v, second, m1, m2, q) && EntryIn(v, first, n, q)
    requires !GoneAt(v, first, q) && !GoneAt(v, second, q)
    ensures EntryKept(v, first + second, m, m2, q, n)
  {
    Parts(v, first, second, q);
    NotShadowedAfter(v, first, second, n, q);
    assert EntryKept(v, first, m, m1, q, n);
    forall b | b in second ensures !EntryIn(v, second, b, q) {
      if EntryIn(v, second, b, q) { OneFolder(v, n, b, q); }
    }
    assert SameAt(m1, m2, q);
  }

  lemma EntryInSecond(v: View, first: Folders, second: Folders, m: Contents, m1: Contents, m2: Contents, q: Path,
                      n: FolderTreeNode)
    requires Good(v) && first <= v.nodes && second <= v.nodes && InOrder(first, second)
    requires SavedAt(v, first, m, m1, q) && SavedAt(v, second, m1, m2, q) && EntryIn(v, second, n, q)
    requires !GoneAt(v, second, q)
    ensures EntryKept(v, first + second, m, m2, q, n)
  {
    Parts(v, first, second, q);
    NotGoneBefore(v, first, second, n, q);
    assert EntryKept(v, second, m1, m2, q, n);
    forall a | a in first ensures !EntryIn(v, first, a, q) {
      if EntryIn(v, first, a, q) { OneFolder(v, n, a, q); }
    }
    assert if ShadowIn(v, first, q) then q !in m1 else SameAt(m, m1, q);
    if q in m2 { KeptSame(v.lists[n], q, m, m1, m2[q]); }
  }

  lemma KeptSame(files: Files, q: Path, m: Contents, m1: Contents, e: PackedFile)
    requires KeptAt(files, q, m1, e) && (q in m1 ==> SameAt(m, m1, q))
    ensures KeptAt(files, q, m, e)
  {
    var i :| 0 <= i < |files| && LiveEntryAt(files, i, q) && SavedFrom(files[i], m1, q, e);
    assert SavedFrom(files[i], m, q, e);
  }

  lemma NoEntries(v: View, first: Folders, second: Folders, m: Contents, m1: Contents, m2: Contents, q: Path)
    requires SavedAt(v, first, m, m1, q) && SavedAt(v, second, m1, m2, q)
    requires !GoneAt(v, first, q) && !GoneAt(v, second, q)
    requires forall n :: n in first + second ==> !EntryIn(v, first + second, n, q)
    ensures if ShadowIn(v, first + second, q) then q !in m2 else SameAt(m, m2, q)
  {
    Parts(v, first, second, q);
    forall a | a in first ensures !EntryIn(v, first, a, q) { assert a in first + second; }
    forall b | b in second ensures !EntryIn(v, second, b, q) { assert b in first + second; }
  }

  lemma GoneFirst(v: View, first: Folders, second: Folders, m: Contents, m1: Contents, m2: Contents, q: Path)
    requires Good(v) && first <= v.nodes && second <= v.nodes && InOrder(first, second)
    requires SavedAt(v, first, m, m1, q) && SavedAt(v, second, m1, m2, q) && GoneAt(v, first, q)
    ensures q !in m2
  {
    forall b | b in second ensures !EntryIn(v, second, b, q) {
      if EntryIn(v, second, b, q) { NotGoneBefore(v, first, second, b, q); }
    }
  }

  /** Saving one part and then the other is saving both. */
  lemma OneAfterTheOther(v: View, first: Folders, second: Folders, m: Contents, m1: Contents, m2: Contents, q: Path)
    requires Good(v) && first <= v.nodes && second <= v.nodes && InOrder(first, second)
    requires SavedAt(v, first, m, m1, q) && SavedAt(v, second, m1, m2, q)
    ensures SavedAt(v, first + second, m, m2, q)
  {
    Parts(v, first, second, q);
    if GoneAt(v, first, q) {
      GoneFirst(v, first, second, m, m1, m2, q);
    } else if !GoneAt(v, second, q) {
      forall n | EntryIn(v, first + second, n, q) ensures EntryKept(v, first + second, m, m2, q, n) {
        if EntryIn(v, first, n, q) {
          EntryInFirst(v, first, second, m, m1, m2, q, n);
        } else {
          EntryInSecond(v, first, second, m, m1, m2, q, n);
        }
      }
      if forall n :: n in first + second ==> !EntryIn(v, first + second, n, q) {
        NoEntries(v, first, second, m, m1, m2, q);
      }
    }
  }

  // ----- one folder -----

  /** Saving the files of a folder that is not deleted. */
  lemma OneFolderSaved(v: View, d: FolderTreeNode, m: Contents, q: Path)
    requires Good(v) && d in v.nodes && d !in v.gone
    ensures SavedAt(v, {d}, m, SaveFirst(v.lists[d], |v.lists[d]|, m), q)
  {
    assert Proper(v.lists[d], d.FileName);
    AllSaved(v.lists[d], d.FileName, m);
    assert EntryIn(v, {d}, d, q) <==> HasEntry(v.lists[d], q);
    assert ShadowIn(v, {d}, q) <==> Shadowed(v.lists[d], q);
    if HasEntry(v.lists[d], q) && Shadowed(v.lists[d], q) {
      EntryFolder(v, d, q);
      ShadowFolder(v, d, q);
    }
  }

  /** The folder and everything in it. */
  function Below(nodes: Folders, d: FolderTreeNode): Folders {
    set n | n in nodes && d.Key() <= n.Key()
  }

  /** Deleting a deleted folder. */
  lemma GoneFolderSaved(v: View, d: FolderTreeNode, m: Contents, q: Path)
    requires Good(v) && d in v.gone
    ensures SavedAt(v, Below(v.nodes, d), m, Delete(m, d.Key()), q)
  {
    var scope := Below(v.nodes, d);
    forall n | n in scope ensures n in v.gone {
      MarkedBelow(v.nodes, v.root, v.gone, d, n);
    }
    assert d in scope;
  }

  // ----- the children of a folder -----

  /** The first `n` children of a folder with everything in them. */
  function BelowFirst(nodes: Folders, children: seq<FolderTreeNode>, n: nat): Folders
    requires n <= |children|
  {
    if n == 0 then {} else BelowFirst(nodes, children, n - 1) + Below(nodes, children[n - 1])
  }

  lemma {:induction false} InBelowFirst(nodes: Folders, children: seq<FolderTreeNode>, n: nat, m: FolderTreeNode)
    requires n <= |children|
    ensures m in BelowFirst(nodes, children, n) <==>
            m in nodes && exists i :: 0 <= i < n && children[i].Key() <= m.Key()
  {
    if n > 0 {
      InBelowFirst(nodes, children, n - 1, m);
    }
  }

  /** A folder is below one child at most. */
  lemma ChildrenInOrder(v: View, d: FolderTreeNode, children: seq<FolderTreeNode>, n: nat)
    requires Good(v) && ChildrenOf(v.nodes, d, children) && n < |children|
    ensures InOrder(BelowFirst(v.nodes, children, n), Below(v.nodes, children[n]))
  {
    forall a, b | a in BelowFirst(v.nodes, children, n) && b in Below(v.nodes, children[n])
      ensures a != b && !(b.Key() < a.Key())
    {
      InBelowFirst(v.nodes, children, n, a);
      var i :| 0 <= i < n && children[i].Key() <= a.Key();
      assert children[i] != children[n];
      if children[n].Key() <= a.Key() {
        Siblings(v.nodes, v.root, children[i], children[n], a.Key());
      }
    }
  }

  lemma InSomeChild(v: View, d: FolderTreeNode, children: seq<FolderTreeNode>, m: FolderTreeNode)
    requires Good(v) && d in v.nodes && ChildrenOf(v.nodes, d, children) && m in v.nodes
    ensures m in BelowFirst(v.nodes, children, |children|) <==> d.Key() < m.Key()
  {
    InBelowFirst(v.nodes, children, |children|, m);
    if d.Key() < m.Key() {
      var c := ChildTowards(v.nodes, v.root, d, m);
      assert c in children;
    }
    if i :| 0 <= i < |children| && children[i].Key() <= m.Key() {
      Up(v.nodes, v.root, children[i]);
    }
  }

  /** Everything in a folder is in one of its children. */
  lemma AllChildren(v: View, d: FolderTreeNode, children: seq<FolderTreeNode>)
    requires Good(v) && d in v.nodes && ChildrenOf(v.nodes, d, children)
    ensures Below(v.nodes, d) == {d} + BelowFirst(v.nodes, children, |children|)
    ensures InOrder({d}, BelowFirst(v.nodes, children, |children|))
  {
    hide Good, ChildrenOf, BelowFirst;
    var rest := BelowFirst(v.nodes, children, |children|);
    forall m | m in v.nodes ensures m in rest <==> d.Key() < m.Key() {
      InSomeChild(v, d, children, m);
    }
    BelowFirstIn(v.nodes, children, |children|);
    forall m | m in v.nodes && d.Key() <= m.Key() ensures m == d || m in rest {
      if m !in rest { OnlyItself(v, d, m); }
    }
  }

  lemma OnlyItself(v: View, d: FolderTreeNode, m: FolderTreeNode)
    requires Good(v) && d in v.nodes && m in v.nodes && d.Key() <= m.Key() && !(d.Key() < m.Key())
    ensures m == d
  {
    SameNode(v.nodes, v.root, d, m);
  }

  /** The package after saving some folders. */
  ghost predicate Saved(v: View, scope: Folders, m: Contents, m': Contents) {
    forall q :: SavedAt(v, scope, m, m', q)
  }

  lemma NextChildSaved(v: View, d: FolderTreeNode, children: seq<FolderTreeNode>, n: nat, m: Contents, m1: Contents,
                       m2: Contents)
    requires Good(v) && d in v.nodes && ChildrenOf(v.nodes, d, children) && n < |children|
    requires Saved(v, BelowFirst(v.nodes, children, n), m, m1) && Saved(v, Below(v.nodes, children[n]), m1, m2)
    ensures Saved(v, BelowFirst(v.nodes, children, n + 1), m, m2)
  {
    ChildrenInOrder(v, d, children, n);
    BelowFirstIn(v.nodes, children, n);
    var scope := BelowFirst(v.nodes, children, n + 1);
    forall q ensures SavedAt(v, scope, m, m2, q) {
      OneAfterTheOther(v, BelowFirst(v.nodes, children, n), Below(v.nodes, children[n]), m, m1, m2, q);
    }
  }

  lemma FolderSaved(v: View, d: FolderTreeNode, children: seq<FolderTreeNode>, m: Contents, m2: Contents)
    requires Good(v) && d in v.nodes && d !in v.gone && ChildrenOf(v.nodes, d, children)
    requires Saved(v, BelowFirst(v.nodes, children, |children|), SaveFirst(v.lists[d], |v.lists[d]|, m), m2)
    ensures Saved(v, Below(v.nodes, d), m, m2)
  {
    AllChildren(v, d, children);
    BelowFirstIn(v.nodes, children, |children|);
    forall q ensures SavedAt(v, Below(v.nodes, d), m, m2, q) {
      OneFolderSaved(v, d, m, q);
      var m1 := SaveFirst(v.lists[d], |v.lists[d]|, m);
      OneAfterTheOther(v, {d}, BelowFirst(v.nodes, children, |children|), m, m1, m2, q);
    }
  }

  lemma GoneSaved(v: View, d: FolderTreeNode, m: Contents)
    requires Good(v) && d in v.gone
    ensures Saved(v, Below(v.nodes, d), m, Delete(m, d.Key()))
  {
    forall q ensures SavedAt(v, Below(v.nodes, d), m, Delete(m, d.Key()), q) {
      GoneFolderSaved(v, d, m, q);
    }
  }

  /** The folders that saving makes in the package: those added as empty ones and not deleted since. */
  function EmptyKeys(v: View, scope: Folders): set<Path> {
    set n | n in scope && n in v.empty && n !in v.gone :: n.Key()
  }

  lemma NextChildEmpty(v: View, children: seq<FolderTreeNode>, n: nat)
    requires n < |children|
    ensures EmptyKeys(v, BelowFirst(v.nodes, children, n + 1)) ==
            EmptyKeys(v, BelowFirst(v.nodes, children, n)) + EmptyKeys(v, Below(v.nodes, children[n]))
  {
  }

  lemma FolderEmpty(v: View, d: FolderTreeNode, children: seq<FolderTreeNode>)
    requires Good(v) && d in v.nodes && d !in v.gone && ChildrenOf(v.nodes, d, children)
    ensures EmptyKeys(v, Below(v.nodes, d)) ==
            (if d in v.empty then {d.Key()} else {}) + EmptyKeys(v, BelowFirst(v.nodes, children, |children|))
  {
    hide Good, ChildrenOf, BelowFirst, InOrder;
    AllChildren(v, d, children);
  }

  /** No folder is made in a deleted one. */
  lemma GoneEmpty(v: View, d: FolderTreeNode)
    requires Good(v) && d in v.gone
    ensures EmptyKeys(v, Below(v.nodes, d)) == {}
  {
    forall n | n in Below(v.nodes, d) ensures n in v.gone {
      MarkedBelow(v.nodes, v.root, v.gone, d, n);
    }
  }

  lemma NothingSaved(v: View, m: Contents)
    ensures Saved(v, {}, m, m)
  {
  }

  /** The package after saving some folders: its files, and the empty folders it was asked for. */
  ghost predicate SavedTo(v: View, scope: Folders, m: Contents, dirs: set<Path>, m': Contents, dirs': set<Path>) {
    Saved(v, scope, m, m') && dirs' == dirs + EmptyKeys(v, scope)
  }

  lemma NextChildDone(v: View, d: FolderTreeNode, n: nat, m: Contents, dirs: set<Path>, m1: Contents, dirs1: set<Path>,
                      m2: Contents, dirs2: set<Path>)
    requires Good(v) && Wired(v) && d in v.nodes && n < |v.children[d]|
    requires SavedTo(v, BelowFirst(v.nodes, v.children[d], n), m, dirs, m1, dirs1)
    requires SavedTo(v, Below(v.nodes, v.children[d][n]), m1, dirs1, m2, dirs2)
    ensures SavedTo(v, BelowFirst(v.nodes, v.children[d], n + 1), m, dirs, m2, dirs2)
  {
    hide Good, Saved, Below, BelowFirst, EmptyKeys;
    NextChildSaved(v, d, v.children[d], n, m, m1, m2);
    NextChildEmpty(v, v.children[d], n);
  }

  lemma FolderDone(v: View, d: FolderTreeNode, m: Contents, dirs: set<Path>, m': Contents, dirs': set<Path>)
    requires Good(v) && Wired(v) && d in v.nodes && d !in v.gone
    requires SavedTo(v, BelowFirst(v.nodes, v.children[d], |v.children[d]|), SaveFirst(v.lists[d], |v.lists[d]|, m),
                     if d in v.empty then dirs + {d.Key()} else dirs, m', dirs')
    ensures SavedTo(v, Below(v.nodes, d), m, dirs, m', dirs')
  {
    hide Good, Saved, Below, BelowFirst, EmptyKeys, SaveFirst;
    FolderSaved(v, d, v.children[d], m, m');
    FolderEmpty(v, d, v.children[d]);
  }

  lemma GoneDone(v: View, d: FolderTreeNode, m: Contents, dirs: set<Path>)
    requires Good(v) && d in v.gone
    ensures SavedTo(v, Below(v.nodes, d), m, dirs, Delete(m, d.Key()), dirs)
  {
    GoneSaved(v, d, m);
    GoneEmpty(v, d);
  }

  lemma NothingDone(v: View, m: Contents, dirs: set<Path>)
    ensures SavedTo(v, {}, m, dirs, m, dirs)
  {
    NothingSaved(v, m);
  }

  lemma ChildBelow(v: View, parent: FolderTreeNode, children: seq<FolderTreeNode>, i: nat)
    requires Good(v) && parent in v.nodes && ChildrenOf(v.nodes, parent, children) && i < |children|
    ensures children[i] in v.nodes && Below(v.nodes, children[i]) < Below(v.nodes, parent)
  {
    Up(v.nodes, v.root, children[i]);
    assert parent in Below(v.nodes, parent) && parent !in Below(v.nodes, children[i]);
  }

  lemma {:induction false} BelowFirstIn(nodes: Folders, children: seq<FolderTreeNode>, n: nat)
    requires n <= |children|
    ensures BelowFirst(nodes, children, n) <= nodes
  {
    if n > 0 { BelowFirstIn(nodes, children, n - 1); }
  }

  // ----- the whole tree -----

  /** The folders that are saved: all but the top one. */
  function Saveable(v: View): Folders {
    v.nodes - {v.root}
  }

  /** These are the children of the top folder with everything in them. */
  lemma AllSaveable(v: View, children: seq<FolderTreeNode>)
    requires Good(v) && ChildrenOf(v.nodes, v.root, children)
    ensures BelowFirst(v.nodes, children, |children|) == Saveable(v)
  {
    AllChildren(v, v.root, children);
    assert Below(v.nodes, v.root) == v.nodes;
  }

  /** A folder that is not deleted has a live file of this name. */
  ghost predicate LiveName(v: View, q: Path) {
    exists n :: n in Saveable(v) && n !in v.gone && n in v.lists && LiveAt(v.lists[n], q)
  }

  ghost predicate AddedName(v: View, q: Path) {
    exists n :: n in Saveable(v) && n !in v.gone && n in v.lists && AddedAt(v.lists[n], q)
  }

  /** The list has a file of the package with this name, deleted or not. */
  ghost predicate Packaged(files: Files, q: Path) {
    exists p :: p in PackagePaths(files) && FoldPath(p) == q
  }

  /** The files that are not from disk are those of the package. */
  ghost predicate Covers(v: View, m: Contents) {
    forall q :: q in m <==> PackagedIn(v, q)
  }

  ghost predicate PackagedIn(v: View, q: Path) {
    exists n :: n in v.nodes && n in v.lists && Packaged(v.lists[n], q)
  }

  lemma PackagedEntry(files: Files, q: Path)
    ensures Packaged(files, q) ==> HasEntry(files, q)
    ensures LiveAt(files, q) && !AddedAt(files, q) ==> Packaged(files, q)
  {
    if Packaged(files, q) {
      var p :| p in PackagePaths(files) && FoldPath(p) == q;
      var i :| 0 <= i < |files| && files[i].path == p;
      assert EntryAt(files, i, q);
    }
    if LiveAt(files, q) && !AddedAt(files, q) {
      var i :| 0 <= i < |files| && LiveEntryAt(files, i, q);
      assert files[i].path in PackagePaths(files);
    }
  }

  /** A deleted folder has the name of the file, or a removed file has the name of a folder above it and the file is
      not from disk. */
  ghost predicate Clash(v: View, q: Path) {
    GoneAt(v, Saveable(v), q) || (ShadowIn(v, Saveable(v), q) && !AddedName(v, q))
  }

  lemma LiveNameIn(v: View, q: Path, n: FolderTreeNode)
    requires Good(v) && EntryIn(v, Saveable(v), n, q)
    ensures LiveName(v, q) <==> LiveAt(v.lists[n], q)
    ensures AddedName(v, q) <==> AddedAt(v.lists[n], q)
  {
    forall k | k in Saveable(v) && LiveAt(v.lists[k], q) ensures k == n {
      OneFolder(v, k, n, q);
    }
  }

  lemma NotListed(v: View, m: Contents, q: Path)
    requires Good(v) && Covers(v, m) && |q| >= 2 && q in m && !GoneAt(v, Saveable(v), q)
    ensures exists n :: n in Saveable(v) && EntryIn(v, Saveable(v), n, q)
  {
    var n :| n in v.nodes && n in v.lists && Packaged(v.lists[n], q);
    PackagedEntry(v.lists[n], q);
    EntryFolder(v, n, q);
    assert n != v.root;
    assert n.Key() <= q;
    assert EntryIn(v, Saveable(v), n, q);
  }

  /** In the folders, the package has exactly the live files after a save, except for those that clash, with the flags
      they have in the tree, and the bytes they had or those of the file on disk they come from. */
  lemma SavedName(v: View, m: Contents, m': Contents, q: Path)
    requires Good(v) && Covers(v, m) && Saved(v, Saveable(v), m, m') && |q| >= 2
    ensures q in m' <==> LiveName(v, q) && !Clash(v, q)
    ensures q in m' ==> exists n :: n in v.nodes && n !in v.gone && KeptAt(v.lists[n], q, m, m'[q])
  {
    assert SavedAt(v, Saveable(v), m, m', q);
    if !GoneAt(v, Saveable(v), q) {
      if n :| n in Saveable(v) && EntryIn(v, Saveable(v), n, q) {
        LiveNameIn(v, q, n);
        PackagedEntry(v.lists[n], q);
        assert EntryKept(v, Saveable(v), m, m', q, n);
      } else {
        if q in m { NotListed(v, m, q); }
        if n :| n in Saveable(v) && n !in v.gone && n in v.lists && LiveAt(v.lists[n], q) {
          assert EntryIn(v, Saveable(v), n, q);
        }
      }
    }
  }

  /** Files directly in the top folder are not saved: there, the package only loses what a deleted folder takes with
      it. */
  lemma SavedTopName(v: View, m: Contents, m': Contents, q: Path)
    requires Good(v) && Saved(v, Saveable(v), m, m') && |q| == 1
    ensures q in m' <==> q in m && !GoneAt(v, Saveable(v), q)
  {
    assert SavedAt(v, Saveable(v), m, m', q);
    forall n | n in Saveable(v) ensures !EntryIn(v, Saveable(v), n, q) && !Shadowed(v.lists[n], q) {
      Up(v.nodes, v.root, n);
      if HasEntry(v.lists[n], q) { EntryFolder(v, n, q); }
      if Shadowed(v.lists[n], q) { ShadowFolder(v, n, q); }
    }
  }

  /** Saving leaves in the folders exactly the live files if and only if none of them clashes. */
  lemma SaveIsRight(v: View, m: Contents, m': Contents)
    requires Good(v) && Covers(v, m) && Saved(v, Saveable(v), m, m')
    ensures (forall q :: |q| >= 2 ==> (q in m' <==> LiveName(v, q))) <==>
            (forall q :: |q| >= 2 && LiveName(v, q) ==> !Clash(v, q))
  {
    forall q | |q| >= 2 ensures q in m' <==> LiveName(v, q) && !Clash(v, q) {
      SavedName(v, m, m', q);
    }
  }

  // ----- any save -----

  /** A folder that is not deleted lists the name. */
  ghost predicate Listed(v: View, q: Path) {
    exists n :: n in Saveable(v) && EntryIn(v, Saveable(v), n, q)
  }

  /** Saving looks at the name at all: a deleted folder, a removed file above it, or a list has it. */
  ghost predicate Seen(v: View, q: Path) {
    GoneAt(v, Saveable(v), q) || ShadowIn(v, Saveable(v), q) || Listed(v, q)
  }

  /** What any save leaves in the folders, for a tree that need not list the files of the package. */
  lemma SavedAny(v: View, m: Contents, m': Contents, q: Path)
    requires Good(v) && Saved(v, Saveable(v), m, m') && |q| >= 2
    ensures q in m' <==>
            && !GoneAt(v, Saveable(v), q)
            && (AddedName(v, q) || (q in m && !ShadowIn(v, Saveable(v), q) && (LiveName(v, q) || !Listed(v, q))))
  {
    assert SavedAt(v, Saveable(v), m, m', q);
    if !GoneAt(v, Saveable(v), q) {
      if n :| n in Saveable(v) && EntryIn(v, Saveable(v), n, q) {
        LiveNameIn(v, q, n);
        assert EntryKept(v, Saveable(v), m, m', q, n);
      } else {
        NotLive(v, q);
      }
    }
  }

  lemma NotLive(v: View, q: Path)
    requires !Listed(v, q)
    ensures !LiveName(v, q) && !AddedName(v, q)
  {
    forall n | n in Saveable(v) && n !in v.gone && n in v.lists
      ensures !LiveAt(v.lists[n], q) && !AddedAt(v.lists[n], q)
    {
      assert !EntryIn(v, Saveable(v), n, q);
      LiveHas(v.lists[n], q);
    }
  }

  lemma LiveHas(files: Files, q: Path)
    ensures LiveAt(files, q) ==> HasEntry(files, q)
    ensures AddedAt(files, q) ==> LiveAt(files, q)
  {
    if i :| 0 <= i < |files| && LiveEntryAt(files, i, q) {
      assert EntryAt(files, i, q);
    }
  }

  /** Any save leaves in the folders exactly the live files if and only if no live file clashes, each of them is from
      disk or in the package before, and no other name of the package is one that saving does not see. */
  lemma SaveAgain(v: View, m: Contents, m': Contents)
    requires Good(v) && Saved(v, Saveable(v), m, m')
    ensures (forall q :: |q| >= 2 ==> (q in m' <==> LiveName(v, q))) <==>
            && (forall q :: |q| >= 2 && LiveName(v, q) ==> !Clash(v, q) && (AddedName(v, q) || q in m))
            && (forall q :: |q| >= 2 && q in m && !LiveName(v, q) ==> Seen(v, q))
  {
    hide Good, Saved, GoneAt, ShadowIn, LiveName, AddedName, Listed;
    forall q | |q| >= 2
      ensures LiveName(v, q) ==> (q in m' <==> !Clash(v, q) && (AddedName(v, q) || q in m))
      ensures !LiveName(v, q) ==> (q in m' <==> q in m && !Seen(v, q))
    {
      SavedAny(v, m, m', q);
      AddedNameLive(v, q);
    }
  }

  lemma AddedNameLive(v: View, q: Path)
    ensures AddedName(v, q) ==> LiveName(v, q)
  {
    if n :| n in Saveable(v) && n !in v.gone && n in v.lists && AddedAt(v.lists[n], q) {
      assert LiveAt(v.lists[n], q);
    }
  }

  /** What a save leaves under a listed name is what the list says, under any other what was there before. */
  lemma SavedContent(v: View, m: Contents, m': Contents, q: Path)
    requires Good(v) && Saved(v, Saveable(v), m, m') && q in m'
    ensures Listed(v, q) ==> forall n :: EntryIn(v, Saveable(v), n, q) ==> KeptAt(v.lists[n], q, m, m'[q])
    ensures !Listed(v, q) ==> q in m && m'[q] == m[q]
  {
    assert SavedAt(v, Saveable(v), m, m', q);
    forall n | EntryIn(v, Saveable(v), n, q) ensures KeptAt(v.lists[n], q, m, m'[q]) {
      assert EntryKept(v, Saveable(v), m, m', q, n);
    }
  }

  /** Saving twice in a row is saving once. */
  lemma SavedTwice(v: View, m: Contents, m1: Contents, m2: Contents, q: Path)
    requires Good(v) && Saved(v, Saveable(v), m, m1) && Saved(v, Saveable(v), m1, m2) && |q| >= 2
    ensures q in m2 <==> q in m1
    ensures q in m2 ==> m2[q] == m1[q]
  {
    hide Saved, GoneAt, ShadowIn, LiveName, AddedName, EntryIn, KeptAt, Shape, Closed;
    SavedAny(v, m, m1, q);
    SavedAny(v, m1, m2, q);
    if q in m2 {
      SavedContent(v, m, m1, q);
      SavedContent(v, m1, m2, q);
      if n :| n in Saveable(v) && EntryIn(v, Saveable(v), n, q) {
        assert n in v.nodes && Proper(v.lists[n], n.FileName);
        KeptTwice(v.lists[n], q, m, m1, m2[q]);
      }
    }
  }

  lemma KeptTwice(files: Files, q: Path, m: Contents, m1: Contents, e: PackedFile)
    requires OneLive(files) && q in m1 && KeptAt(files, q, m, m1[q]) && KeptAt(files, q, m1, e)
    ensures e == m1[q]
  {
    var i :| 0 <= i < |files| && LiveEntryAt(files, i, q) && SavedFrom(files[i], m, q, m1[q]);
    var k :| 0 <= k < |files| && LiveEntryAt(files, k, q) && SavedFrom(files[k], m1, q, e);
    assert i == k;
  }

  lemma KeptOnce(files: Files, q: Path, m: Contents, a: PackedFile, b: PackedFile)
    requires OneLive(files) && KeptAt(files, q, m, a) && KeptAt(files, q, m, b)
    ensures a == b
  {
    var i :| 0 <= i < |files| && LiveEntryAt(files, i, q) && SavedFrom(files[i], m, q, a);
    var k :| 0 <= k < |files| && LiveEntryAt(files, k, q) && SavedFrom(files[k], m, q, b);
    assert i == k;
  }

  /** Saving sees every file of the package the tree was opened from. */
  lemma PackagedIsSeen(v: View, q: Path)
    requires Good(v) && |q| >= 2
    ensures PackagedIn(v, q) ==> Seen(v, q)
  {
    if n :| n in v.nodes && n in v.lists && Packaged(v.lists[n], q) {
      PackagedEntry(v.lists[n], q);
      EntryFolder(v, n, q);
      assert n != v.root && n.Key() <= q;
      assert n !in v.gone ==> EntryIn(v, Saveable(v), n, q);
    }
  }

  /** No name is used for a file and for a folder. */
  ghost predicate NamesApart(v: View) {
    forall n, d :: n in v.nodes && d in v.nodes && n in v.lists ==> !HasEntry(v.lists[n], d.Key())
  }

  /** A folder deleted with the name of a live file, or above it: the former, if there is one. */
  lemma GoneOnlyAt(v: View, n: FolderTreeNode, d: FolderTreeNode, q: Path)
    requires Good(v) && EntryIn(v, v.nodes, n, q) && d in v.gone && d.Key() <= q
    ensures d.Key() == q
  {
    EntryFolder(v, n, q);
    if |d.Key()| < |q| {
      Prefixes(d.Key(), n.Key(), q);
      MarkedBelow(v.nodes, v.root, v.gone, d, n);
    }
  }

  /** The names above a listed one are those of folders. */
  lemma FolderAbove(v: View, n: FolderTreeNode, q: Path, k: nat) returns (d: FolderTreeNode)
    requires Good(v) && EntryIn(v, v.nodes, n, q) && k < |q|
    ensures d in v.nodes && d.Key() == q[..k]
  {
    EntryFolder(v, n, q);
    d := Ancestor(v.nodes, v.root, n, k);
  }

  lemma ApartNoClash(v: View, q: Path)
    requires Good(v) && NamesApart(v) && LiveName(v, q)
    ensures !Clash(v, q)
  {
    var n :| n in Saveable(v) && n !in v.gone && n in v.lists && LiveAt(v.lists[n], q);
    assert EntryIn(v, v.nodes, n, q);
    if d :| d in Saveable(v) && d in v.gone && d.Key() <= q {
      GoneOnlyAt(v, n, d, q);
    }
    if b :| b in Saveable(v) && b !in v.gone && b in v.lists && Shadowed(v.lists[b], q) {
      var k :| 0 <= k < |q| && DeadAt(v.lists[b], q[..k]);
      var d := FolderAbove(v, n, q, k);
    }
  }
}
