/** What the edits of the folder tree keep (PackageEditor/FileSystemEditor.cs). */
module EditTree {
  import opened Utf16
  import opened CaseFold
  import opened FileLists
  import opened FolderTree
  import opened SaveTree

  /** The tree with other files in a folder. */
  function WithFiles(v: View, n: FolderTreeNode, files: Files): View {
    v.(lists := v.lists[n := files])
  }

  /** The tree with a new, empty folder. */
  function WithFolder(v: View, c: FolderTreeNode, size: nat): View
    requires c.Parent != null && c.Parent in v.children
  {
    v.(nodes := v.nodes + {c}, lists := v.lists[c := []],
       children := v.children[c.Parent := v.children[c.Parent] + [c]][c := []], sizes := v.sizes[c := size])
  }

  /** The tree with the size of an entry added to a folder and all folders above it. */
  function WithSize(v: View, n: FolderTreeNode, size: nat): View {
    v.(sizes := Grown(v.sizes, n, size))
  }

  /** The tree with a new file, or a new folder, and their sizes. */
  function FileAdded(v: View, n: FolderTreeNode, file: FileData): View
    requires n in v.lists
  {
    WithSize(WithFiles(v, n, v.lists[n] + [file]), n, file.size)
  }

  function FolderAdded(v: View, c: FolderTreeNode, size: nat): View
    requires c.Parent != null && c.Parent in v.children
  {
    WithSize(WithFolder(v, c, size), c, size)
  }

  /** The folder has a child with exactly the text of the last component. */
  ghost predicate Occupied(nodes: Folders, parent: FolderTreeNode, path: Path)
    requires path != []
  {
    exists c :: c in nodes && c.Parent == parent && c.text == path[|path| - 1]
  }

  /** The folder has no child with this text, not even in another case. */
  ghost predicate FreeName(nodes: Folders, parent: FolderTreeNode, path: Path)
    requires path != []
  {
    forall c :: c in nodes && c.Parent == parent ==> Fold(c.text) != Fold(path[|path| - 1])
  }

  /** The tree with a folder that is no longer deleted; what is in it stays deleted. */
  function Revived(v: View, n: FolderTreeNode): View {
    v.(gone := v.gone - {n})
  }

  /** The tree with a folder the user added as a new empty one. */
  function WithEmpty(v: View, n: FolderTreeNode): View {
    v.(empty := v.empty + {n})
  }

  /** The tree with a folder and everything in it deleted. */
  function Dropped(v: View, n: FolderTreeNode): View {
    v.(gone := v.gone + Below(v.nodes, n))
  }

  /** The trees list the same files of the package. */
  ghost predicate SamePackage(v: View, w: View) {
    forall q :: PackagedIn(v, q) <==> PackagedIn(w, q)
  }

  lemma SamePackaged(a: Files, b: Files, q: Path)
    requires PackagePaths(a) == PackagePaths(b)
    ensures Packaged(a, q) <==> Packaged(b, q)
  {
  }

  /** Another proper list keeps the form of the tree. */
  lemma WithFilesKeeps(v: View, n: FolderTreeNode, files: Files)
    requires Good(v) && n in v.nodes && Proper(files, n.FileName)
    ensures Good(WithFiles(v, n, files))
  {
  }

  lemma WithFilesPackage(v: View, n: FolderTreeNode, files: Files)
    requires Good(v) && n in v.nodes && PackagePaths(files) == PackagePaths(v.lists[n])
    ensures SamePackage(v, WithFiles(v, n, files))
  {
    var w := WithFiles(v, n, files);
    forall q ensures PackagedIn(v, q) <==> PackagedIn(w, q) {
      SamePackaged(files, v.lists[n], q);
      assert forall k :: k in v.nodes ==> (Packaged(w.lists[k], q) <==> Packaged(v.lists[k], q));
    }
  }

  /** A new folder with a name of its own in a folder that is not deleted keeps the form of the tree. */
  lemma FolderKeeps(v: View, c: FolderTreeNode, size: nat)
    requires Good(v) && Wired(v) && c !in v.nodes && Hangs(v.nodes, c) && c.Parent !in v.gone
    requires forall d :: d in v.nodes && d.Parent == c.Parent ==> Fold(d.text) != Fold(c.text)
    ensures Good(WithFolder(v, c, size)) && Wired(WithFolder(v, c, size))
  {
    hide Shape, Wired, Proper;
    NewFolder(v.nodes, v.root, c);
    NotAbove(v, c);
    FolderWired(v, c, size);
    ProperEmpty(c.FileName);
  }

  lemma WiredKeys(v: View)
    requires Wired(v)
    ensures v.children.Keys == v.nodes && v.sizes.Keys == v.nodes
  {
  }

  lemma ProperEmpty(folder: Path)
    ensures Proper([], folder)
  {
  }

  lemma SizeKeeps(v: View, n: FolderTreeNode, size: nat)
    requires Good(v) && Wired(v)
    ensures Good(WithSize(v, n, size)) && Wired(WithSize(v, n, size))
  {
  }

  lemma FileAddedKeeps(v: View, n: FolderTreeNode, file: FileData)
    requires Good(v) && Wired(v) && n in v.nodes && n in v.lists && Proper(v.lists[n] + [file], n.FileName)
    ensures Good(FileAdded(v, n, file)) && Wired(FileAdded(v, n, file))
  {
    WithFilesKeeps(v, n, v.lists[n] + [file]);
    SizeKeeps(WithFiles(v, n, v.lists[n] + [file]), n, file.size);
  }

  lemma FolderAddedKeeps(v: View, c: FolderTreeNode, size: nat)
    requires Good(v) && Wired(v) && c !in v.nodes && Hangs(v.nodes, c) && c.Parent !in v.gone && c.Parent in v.children
    requires forall d :: d in v.nodes && d.Parent == c.Parent ==> Fold(d.text) != Fold(c.text)
    ensures Good(FolderAdded(v, c, size)) && Wired(FolderAdded(v, c, size))
  {
    FolderKeeps(v, c, size);
    SizeKeeps(WithFolder(v, c, size), c, size);
  }

  lemma WithFolderPackage(v: View, c: FolderTreeNode, size: nat)
    requires Good(v) && Wired(v) && c !in v.nodes && Hangs(v.nodes, c)
    ensures SamePackage(v, WithFolder(v, c, size))
  {
    var w := WithFolder(v, c, size);
    forall q ensures PackagedIn(v, q) <==> PackagedIn(w, q) {
      assert !Packaged([], q);
      assert forall k :: k in v.nodes ==> (Packaged(w.lists[k], q) <==> Packaged(v.lists[k], q));
    }
  }

  lemma FolderWired(v: View, c: FolderTreeNode, size: nat)
    requires Good(v) && Wired(v) && c !in v.nodes && Hangs(v.nodes, c)
    ensures Wired(WithFolder(v, c, size))
  {
    var w := WithFolder(v, c, size);
    NotAbove(v, c);
    forall n | n in w.nodes ensures ChildrenOf(w.nodes, n, w.children[n]) {
      if n != c { WithChild(v, c, n); }
    }
  }

  /** The new folder is the last child of its parent. */
  lemma WithChild(v: View, c: FolderTreeNode, n: FolderTreeNode)
    requires Wired(v) && c !in v.nodes && n in v.nodes
    ensures ChildrenOf(v.nodes + {c}, n, if c.Parent == n then v.children[n] + [c] else v.children[n])
  {
    assert c !in v.children[n];
  }

  /** Children with the same text are the same. */
  lemma SameText(v: View, parent: FolderTreeNode, c: FolderTreeNode, d: FolderTreeNode)
    requires Good(v) && parent in v.nodes && c in v.nodes && d in v.nodes && c.Parent == d.Parent == parent
    requires Fold(c.text) == Fold(d.text)
    ensures c == d
  {
    Up(v.nodes, v.root, c);
    Up(v.nodes, v.root, d);
    SameNode(v.nodes, v.root, c, d);
  }

  lemma NotAbove(v: View, c: FolderTreeNode)
    requires Good(v) && c !in v.nodes
    ensures forall n :: n in v.nodes ==> n.Parent != c
  {
    forall n | n in v.nodes ensures n.Parent != c {
      Up(v.nodes, v.root, n);
    }
  }

  /** A folder in one that is not deleted may come back. */
  lemma RevivedKeeps(v: View, n: FolderTreeNode)
    requires Good(v) && n in v.nodes && (n.Parent == null || n.Parent !in v.gone)
    ensures Good(Revived(v, n)) && SamePackage(v, Revived(v, n))
  {
  }

  /** A folder is deleted with everything in it. */
  lemma DroppedKeeps(v: View, n: FolderTreeNode)
    requires Good(v) && n in v.nodes
    ensures Good(Dropped(v, n)) && SamePackage(v, Dropped(v, n))
  {
    var w := Dropped(v, n);
    forall k | k in w.nodes && k.Parent != null && k.Parent in w.gone ensures k in w.gone {
      Up(v.nodes, v.root, k);
    }
  }

  /** The tree with these folders deleted. */
  function WithGone(v: View, gone: Folders): View {
    v.(gone := gone)
  }

  lemma BelowIs(v: View, n: FolderTreeNode)
    requires Good(v) && Wired(v) && n in v.nodes
    ensures Below(v.nodes, n) == {n} + BelowFirst(v.nodes, v.children[n], |v.children[n]|)
  {
    AllChildren(v, n, v.children[n]);
  }

  lemma WiredChild(v: View, n: FolderTreeNode, i: nat)
    requires Good(v) && Wired(v) && n in v.nodes && i < |v.children[n]|
    ensures v.children[n][i] in v.nodes && Below(v.nodes, v.children[n][i]) < Below(v.nodes, n)
  {
    ChildBelow(v, n, v.children[n], i);
  }

  // ----- removing -----

  /** The tree after showing a folder. */
  function Shown(v: View, n: FolderTreeNode): View
    requires n in v.lists
  {
    if n in v.gone then WithFiles(v, n, FromPackage(v.lists[n])) else v
  }

  lemma SameCovers(v: View, w: View, m: Contents)
    requires SamePackage(v, w) && Covers(v, m)
    ensures Covers(w, m)
  {
  }

  lemma SameTwice(v: View, w: View, x: View)
    requires SamePackage(v, w) && SamePackage(w, x)
    ensures SamePackage(v, x)
  {
  }

  lemma ShownKeeps(v: View, n: FolderTreeNode)
    requires Good(v) && Wired(v) && n in v.nodes
    ensures Shown(v, n).root == v.root && Shown(v, n).nodes == v.nodes
    ensures Good(Shown(v, n)) && Wired(Shown(v, n)) && SamePackage(v, Shown(v, n))
  {
    if n in v.gone {
      FromPackageKeeps(v.lists[n], n.FileName);
      WithFilesKeeps(v, n, FromPackage(v.lists[n]));
      WithFilesPackage(v, n, FromPackage(v.lists[n]));
    }
  }

  /** The tree without some files of a folder, which is then shown. */
  function FilesRemoved(v: View, n: FolderTreeNode, names: seq<Text>): View
    requires n in v.lists
  {
    Shown(WithFiles(v, n, RemovedAll(v.lists[n], n.FileName, names)), n)
  }

  lemma FilesRemovedKeep(v: View, n: FolderTreeNode, names: seq<Text>)
    requires Good(v) && Wired(v) && n in v.nodes
    ensures FilesRemoved(v, n, names).root == v.root && FilesRemoved(v, n, names).nodes == v.nodes
    ensures Good(FilesRemoved(v, n, names)) && Wired(FilesRemoved(v, n, names))
    ensures SamePackage(v, FilesRemoved(v, n, names))
  {
    var files := RemovedAll(v.lists[n], n.FileName, names);
    RemovedAllKeeps(v.lists[n], n.FileName, names);
    WithFilesKeeps(v, n, files);
    WithFilesPackage(v, n, files);
    ShownKeeps(WithFiles(v, n, files), n);
    SameTwice(v, WithFiles(v, n, files), FilesRemoved(v, n, names));
  }

  /** The tree without a folder, which is then shown. */
  function FolderRemoved(v: View, n: FolderTreeNode): View
    requires n in v.lists
  {
    Shown(Dropped(v, n), n)
  }

  lemma FolderRemovedKeeps(v: View, n: FolderTreeNode)
    requires Good(v) && Wired(v) && n in v.nodes
    ensures FolderRemoved(v, n).root == v.root && FolderRemoved(v, n).nodes == v.nodes
    ensures Good(FolderRemoved(v, n)) && Wired(FolderRemoved(v, n)) && SamePackage(v, FolderRemoved(v, n))
  {
    DroppedKeeps(v, n);
    ShownKeeps(Dropped(v, n), n);
    SameTwice(v, Dropped(v, n), FolderRemoved(v, n));
  }

  /** The list of a folder without the live files of the given names. */
  ghost predicate WithoutSelected(files: Files, rest: Files, folder: Path, names: seq<Text>) {
    && PackagePaths(rest) == PackagePaths(files)
    && forall f: FileData :: !f.deleted ==> (f in rest <==> f in files && !Selected(folder, names, f.path))
  }

  /** What removing selected files is: the folder loses exactly the live files of these names, and, if it is deleted,
      its files from disk; nothing else changes. */
  ghost predicate SomeRemoved(v: View, w: View, n: FolderTreeNode, names: seq<Text>) {
    && OnlyList(v, w, n)
    && exists rest :: WithoutSelected(v.lists[n], rest, n.FileName, names)
                      && if n in v.gone then Picked(rest, w.lists[n]) else w.lists[n] == rest
  }

  /** The trees differ at most in the list of one folder. */
  ghost predicate OnlyList(v: View, w: View, n: FolderTreeNode) {
    && w.nodes == v.nodes && w.root == v.root && w.gone == v.gone && w.children == v.children && w.sizes == v.sizes
    && w.empty == v.empty && n in v.lists && n in w.lists
    && (forall k :: k in v.nodes && k != n ==> k in v.lists && k in w.lists && w.lists[k] == v.lists[k])
  }

  lemma FilesRemovedIs(v: View, n: FolderTreeNode, names: seq<Text>)
    requires Good(v) && n in v.nodes
    ensures SomeRemoved(v, FilesRemoved(v, n, names), n, names)
  {
    var files, rest := v.lists[n], RemovedAll(v.lists[n], n.FileName, names);
    RemovedAllKeeps(files, n.FileName, names);
    forall f: FileData | !f.deleted ensures f in rest <==> f in files && !Selected(n.FileName, names, f.path) {
      RemovedAllExact(files, n.FileName, names, f);
    }
    assert WithoutSelected(files, rest, n.FileName, names);
    var places := FromPackagePicked(rest);
  }

  /** What showing a folder is: a deleted one keeps its files of the package, in order, and loses the others. */
  ghost predicate OnlyShown(v: View, w: View, n: FolderTreeNode) {
    && OnlyList(v, w, n)
    && if n in v.gone then Picked(v.lists[n], w.lists[n]) else w.lists[n] == v.lists[n]
  }

  lemma ShownIs(v: View, n: FolderTreeNode)
    requires Good(v) && n in v.nodes
    ensures OnlyShown(v, Shown(v, n), n)
  {
    var places := FromPackagePicked(v.lists[n]);
  }

  /** What removing a folder is: it and everything in it is deleted, it keeps its files of the package in order and
      loses the others, and nothing else changes. */
  ghost predicate WholeRemoved(v: View, w: View, n: FolderTreeNode) {
    && w.nodes == v.nodes && w.root == v.root && w.children == v.children && w.sizes == v.sizes && w.empty == v.empty
    && (forall k :: k in v.nodes ==> (k in w.gone <==> k in v.gone || n.Key() <= k.Key()))
    && n in v.lists && n in w.lists && Picked(v.lists[n], w.lists[n])
    && (forall k :: k in v.nodes && k != n ==> k in v.lists && k in w.lists && w.lists[k] == v.lists[k])
  }

  lemma FolderRemovedIs(v: View, n: FolderTreeNode)
    requires Good(v) && n in v.nodes
    ensures WholeRemoved(v, FolderRemoved(v, n), n)
  {
    var places := FromPackagePicked(v.lists[n]);
  }
}
