/** The listing of a package and the tree that opening it gives (PackageEditor/FileSystemEditor.cs). */
module OpenTree {
  import opened CaseFold
  import opened FileLists
  import opened FolderTree
  import opened SaveTree
  import opened EditTree
  import opened DiskTree
  import Flags = FileFlags

  /** An entry of the listing. */
  datatype VirtFsNode = VirtFsNode(FileName: Path, flags: Flags.Word, size: nat) {
    predicate IsFile() { Flags.IS_FILE in flags }
    function Key(): Path { FoldPath(FileName) }
    function AsFile(): FileData { FileData(FileName, flags, size, [], false) }
  }

  /** The folder of an entry comes before it. */
  predicate ParentBefore(es: seq<VirtFsNode>, i: nat)
    requires i < |es|
  {
    && es[i].FileName != []
    && (|es[i].FileName| == 1 || exists j :: 0 <= j < i && !es[j].IsFile() && es[j].FileName == Above(es[i].FileName))
  }

  /** A listing names every folder before what is in it, and no two entries have the same name ignoring case. */
  predicate Listing(es: seq<VirtFsNode>) {
    && (forall i :: 0 <= i < |es| ==> ParentBefore(es, i))
    && (forall i, j :: 0 <= i < j < |es| ==> es[i].Key() != es[j].Key())
  }

  predicate HasFolderEntry(es: seq<VirtFsNode>, p: Path) {
    exists i :: 0 <= i < |es| && !es[i].IsFile() && es[i].FileName == p
  }

  predicate HasFileEntry(es: seq<VirtFsNode>, q: Path) {
    exists i :: 0 <= i < |es| && es[i].IsFile() && es[i].Key() == q
  }

  /** The files of a folder, in the order of the listing. */
  function FilesIn(es: seq<VirtFsNode>, p: Path): Files {
    if es == [] then []
    else
      var e := es[|es| - 1];
      FilesIn(es[..|es| - 1], p) + (if e.IsFile() && Above(e.FileName) == p then [e.AsFile()] else [])
  }

  /** What an entry adds to the size of a folder. A folder gets its own listed size twice. */
  function Share(e: VirtFsNode, p: Path): nat {
    if e.IsFile() then if p <= Above(e.FileName) then e.size else 0
    else if p == e.FileName then 2 * e.size
    else if p <= e.FileName then e.size
    else 0
  }

  function Total(es: seq<VirtFsNode>, p: Path): nat {
    if es == [] then 0 else Total(es[..|es| - 1], p) + Share(es[|es| - 1], p)
  }

  /** The tree has the folders of the listing, each with its files in order and the size of all that is in it. */
  ghost predicate LoadedAs(v: View, es: seq<VirtFsNode>) {
    && Good(v) && Wired(v) && v.gone == {} && v.empty == {}
    && (forall n :: n in v.nodes && n != v.root ==> HasFolderEntry(es, n.FileName))
    && (forall i :: 0 <= i < |es| && !es[i].IsFile() ==> HasNode(v, es[i].FileName))
    && (forall n :: n in v.nodes ==> LoadedNode(v, es, n))
  }

  /** A folder has its files in order, and the size of all that is in it. */
  predicate LoadedNode(v: View, es: seq<VirtFsNode>, n: FolderTreeNode) {
    && n in v.lists && v.lists[n] == FilesIn(es, n.FileName)
    && n in v.sizes && v.sizes[n] == Size64(Total(es, n.FileName))
  }

  function Size64(total: nat): nat {
    total % TWO64
  }

  ghost predicate HasNode(v: View, p: Path) {
    exists n :: n in v.nodes && n.FileName == p
  }

  /** The folder an entry goes to. */
  lemma ParentNode(v: View, es: seq<VirtFsNode>, i: nat) returns (parent: FolderTreeNode)
    requires i < |es| && LoadedAs(v, es[..i]) && ParentBefore(es, i)
    ensures parent in v.nodes && parent.FileName == Above(es[i].FileName)
  {
    if |es[i].FileName| == 1 {
      parent := v.root;
    } else {
      var j :| 0 <= j < i && !es[j].IsFile() && es[j].FileName == Above(es[i].FileName);
      assert es[..i][j] == es[j];
      assert HasNode(v, es[j].FileName);
      parent :| parent in v.nodes && parent.FileName == Above(es[i].FileName);
    }
  }

  /** No folder of the tree is called like the next entry. */
  lemma NameIsNew(v: View, es: seq<VirtFsNode>, i: nat, n: FolderTreeNode)
    requires i < |es| && LoadedAs(v, es[..i]) && Listing(es) && n in v.nodes
    ensures n.Key() != es[i].Key()
  {
    hide Wired, Closed, Proper, LoadedNode, HasNode;
    assert ParentBefore(es, i);
    if n != v.root {
      var j :| 0 <= j < |es[..i]| && !es[..i][j].IsFile() && es[..i][j].FileName == n.FileName;
      assert es[j].Key() == n.Key();
    }
  }

  lemma {:induction false} FilesFrom(es: seq<VirtFsNode>, p: Path, k: nat)
    requires k < |FilesIn(es, p)|
    ensures exists i :: 0 <= i < |es| && es[i].IsFile() && Above(es[i].FileName) == p
                        && FilesIn(es, p)[k] == es[i].AsFile()
    decreases |es|
  {
    var init := es[..|es| - 1];
    if k < |FilesIn(init, p)| {
      FilesFrom(init, p, k);
      var i :| 0 <= i < |init| && init[i].IsFile() && Above(init[i].FileName) == p
               && FilesIn(init, p)[k] == init[i].AsFile();
      assert es[i] == init[i];
    }
  }

  lemma {:induction false} FilesHave(es: seq<VirtFsNode>, p: Path, i: nat)
    requires i < |es| && es[i].IsFile() && Above(es[i].FileName) == p
    ensures es[i].AsFile() in FilesIn(es, p)
    decreases |es|
  {
    if i < |es| - 1 {
      FilesHave(es[..|es| - 1], p, i);
    }
  }

  lemma OneMore(es: seq<VirtFsNode>, i: nat, p: Path)
    requires i < |es|
    ensures FilesIn(es[..i + 1], p) ==
            FilesIn(es[..i], p) + (if es[i].IsFile() && Above(es[i].FileName) == p then [es[i].AsFile()] else [])
    ensures Total(es[..i + 1], p) == Total(es[..i], p) + Share(es[i], p)
  {
    assert es[..i + 1][..i] == es[..i];
  }

  // ----- a file -----

  lemma TwiceSize(size: nat)
    ensures Plus(size, size) == Size64(2 * size)
  {
  }

  lemma PlusTotal(total: nat, size: nat)
    ensures Plus(Size64(total), size) == Size64(total + size)
  {
  }

  /** The next entry is not called like a file before it. */
  lemma NewFileKey(es: seq<VirtFsNode>, i: nat, p: Path, k: nat)
    requires i < |es| && Listing(es) && k < |FilesIn(es[..i], p)|
    ensures FilesIn(es[..i], p)[k].Key() != es[i].Key()
  {
    FilesFrom(es[..i], p, k);
    var j :| 0 <= j < |es[..i]| && es[..i][j].IsFile() && FilesIn(es[..i], p)[k] == es[..i][j].AsFile();
    assert es[..i][j] == es[j];
  }

  lemma ProperMore(files: Files, file: FileData, folder: Path)
    requires Proper(files, folder) && file.path != [] && Above(file.path) == folder
    requires forall k :: 0 <= k < |files| ==> files[k].Key() != file.Key()
    ensures Proper(files + [file], folder)
  {
    var r := files + [file];
    assert r[|files|] == file && forall k :: 0 <= k < |files| ==> r[k] == files[k];
    assert file.path[..|folder|] == folder;
  }

  lemma LoadedFiles(v: View, es: seq<VirtFsNode>, n: FolderTreeNode)
    requires LoadedAs(v, es) && n in v.nodes
    ensures n in v.lists && v.lists[n] == FilesIn(es, n.FileName) && Proper(v.lists[n], n.FileName)
  {
    assert LoadedNode(v, es, n);
  }

  /** The new file has a name of its own in its folder. */
  lemma FileProper(v: View, es: seq<VirtFsNode>, i: nat, parent: FolderTreeNode)
    requires i < |es| && LoadedAs(v, es[..i]) && Listing(es) && es[i].IsFile()
    requires parent in v.nodes && parent.FileName == Above(es[i].FileName)
    ensures Proper(v.lists[parent] + [es[i].AsFile()], parent.FileName)
  {
    LoadedFiles(v, es[..i], parent);
    assert ParentBefore(es, i);
    hide Proper, LoadedAs, Listing, FilesIn;
    forall k | 0 <= k < |v.lists[parent]| ensures v.lists[parent][k].Key() != es[i].AsFile().Key() {
      NewFileKey(es, i, parent.FileName, k);
    }
    ProperMore(v.lists[parent], es[i].AsFile(), parent.FileName);
  }

  lemma SameFolder(v: View, m: FolderTreeNode, n: FolderTreeNode)
    requires Good(v) && m in v.nodes && n in v.nodes && m.FileName == n.FileName
    ensures m == n
  {
    SameNode(v.nodes, v.root, m, n);
  }

  lemma FileNode(v: View, es: seq<VirtFsNode>, i: nat, parent: FolderTreeNode, n: FolderTreeNode)
    requires i < |es| && LoadedAs(v, es[..i]) && es[i].IsFile()
    requires parent in v.nodes && parent.FileName == Above(es[i].FileName) && n in v.nodes
    ensures LoadedNode(FileAdded(v, parent, es[i].AsFile()), es[..i + 1], n)
  {
    hide Good, Wired, Plus, Size64, ParentBefore;
    assert LoadedNode(v, es[..i], n);
    OneMore(es, i, n.FileName);
    PlusTotal(Total(es[..i], n.FileName), es[i].size);
    if n.FileName == parent.FileName { SameFolder(v, n, parent); }
  }

  lemma MoreEntries(v: View, w: View, es: seq<VirtFsNode>, i: nat)
    requires i < |es| && v.nodes <= w.nodes && LoadedAs(v, es[..i])
    ensures forall n :: n in v.nodes && n != v.root ==> HasFolderEntry(es[..i + 1], n.FileName)
    ensures forall j :: 0 <= j < i && !es[j].IsFile() ==> HasNode(w, es[j].FileName)
  {
    hide Good, Wired, LoadedNode;
    forall n | n in v.nodes && n != v.root ensures HasFolderEntry(es[..i + 1], n.FileName) {
      var j :| 0 <= j < |es[..i]| && !es[..i][j].IsFile() && es[..i][j].FileName == n.FileName;
      assert es[..i + 1][j] == es[..i][j];
    }
    forall j | 0 <= j < i && !es[j].IsFile() ensures HasNode(w, es[j].FileName) {
      assert es[..i][j] == es[j];
      assert HasNode(v, es[j].FileName);
    }
  }

  /** After a file of the listing. */
  lemma FileLoaded(v: View, es: seq<VirtFsNode>, i: nat, parent: FolderTreeNode)
    requires i < |es| && LoadedAs(v, es[..i]) && Listing(es) && es[i].IsFile()
    requires parent in v.nodes && parent.FileName == Above(es[i].FileName)
    ensures LoadedAs(FileAdded(v, parent, es[i].AsFile()), es[..i + 1])
  {
    hide LoadedNode, Listing, ParentBefore, Wired, HasNode, HasFolderEntry, Shape, Closed, Proper;
    var w := FileAdded(v, parent, es[i].AsFile());
    FileProper(v, es, i, parent);
    FileAddedKeeps(v, parent, es[i].AsFile());
    MoreEntries(v, w, es, i);
    forall n | n in w.nodes
      ensures LoadedNode(w, es[..i + 1], n)
    {
      FileNode(v, es, i, parent, n);
    }
  }

  // ----- a folder -----

  /** No entry before that of a folder is in it. */
  lemma NotYetBelow(v: View, es: seq<VirtFsNode>, i: nat, j: nat)
    requires i < |es| && LoadedAs(v, es[..i]) && Listing(es) && j < i
    ensures es[j].IsFile() ==> !(es[i].FileName <= Above(es[j].FileName))
    ensures !es[j].IsFile() ==> !(es[i].FileName <= es[j].FileName)
  {
    hide Good, Wired, LoadedNode, HasFolderEntry;
    var p := es[i].FileName;
    assert ParentBefore(es, j) && ParentBefore(es, i);
    assert es[..i][j] == es[j];
    if es[j].IsFile() && p <= Above(es[j].FileName) {
      var k :| 0 <= k < j && !es[k].IsFile() && es[k].FileName == Above(es[j].FileName);
      assert es[..i][k] == es[k];
      NodeAbove(v, es, i, Above(es[j].FileName));
    }
    if !es[j].IsFile() && p <= es[j].FileName {
      NodeAbove(v, es, i, es[j].FileName);
    }
  }

  lemma NodeAbove(v: View, es: seq<VirtFsNode>, i: nat, q: Path)
    requires i < |es| && LoadedAs(v, es[..i]) && Listing(es) && HasNode(v, q)
    ensures !(es[i].FileName <= q)
  {
    hide Wired, Closed, Proper, Listing, LoadedNode, HasFolderEntry;
    if es[i].FileName <= q {
      var n :| n in v.nodes && n.FileName == q;
      var a := Ancestor(v.nodes, v.root, n, |es[i].FileName|);
      NameIsNew(v, es, i, a);
    }
  }

  lemma {:induction false} NothingBelow(v: View, es: seq<VirtFsNode>, i: nat, k: nat)
    requires k <= i < |es| && LoadedAs(v, es[..i]) && Listing(es)
    ensures FilesIn(es[..k], es[i].FileName) == [] && Total(es[..k], es[i].FileName) == 0
  {
    hide LoadedAs, Listing;
    if k > 0 {
      NothingBelow(v, es, i, k - 1);
      OneMore(es, k - 1, es[i].FileName);
      NotYetBelow(v, es, i, k - 1);
    }
  }

  /** What a new folder is itself. */
  lemma NewNode(v: View, c: FolderTreeNode, size: nat)
    requires c !in v.nodes && c.Parent != null && c.Parent in v.children
    ensures var w := FolderAdded(v, c, size);
            c in w.lists && w.lists[c] == [] && c in w.sizes && w.sizes[c] == Plus(size, size)
  {
  }

  lemma NewNodeLoaded(w: View, es: seq<VirtFsNode>, i: nat, c: FolderTreeNode)
    requires i < |es| && !es[i].IsFile() && c.FileName == es[i].FileName
    requires FilesIn(es[..i], c.FileName) == [] && Total(es[..i], c.FileName) == 0
    requires c in w.lists && w.lists[c] == [] && c in w.sizes && w.sizes[c] == Plus(es[i].size, es[i].size)
    ensures LoadedNode(w, es[..i + 1], c)
  {
    hide Plus, Size64;
    OneMore(es, i, c.FileName);
    TwiceSize(es[i].size);
  }

  lemma FolderItself(v: View, es: seq<VirtFsNode>, i: nat, c: FolderTreeNode)
    requires i < |es| && LoadedAs(v, es[..i]) && Listing(es) && !es[i].IsFile()
    requires c !in v.nodes && c.Parent != null && c.FileName == es[i].FileName && c.Parent in v.children
    ensures LoadedNode(FolderAdded(v, c, es[i].size), es[..i + 1], c)
  {
    hide *;
    NothingBelow(v, es, i, i);
    NewNode(v, c, es[i].size);
    NewNodeLoaded(FolderAdded(v, c, es[i].size), es, i, c);
  }

  /** What a new folder does to the others. */
  lemma OldNode(v: View, c: FolderTreeNode, size: nat, n: FolderTreeNode)
    requires c !in v.nodes && n in v.nodes && n in v.lists && n in v.sizes && c.Parent != null && c.Parent in v.children
    ensures var w := FolderAdded(v, c, size);
            && n in w.lists && w.lists[n] == v.lists[n] && n in w.sizes
            && w.sizes[n] == if n.FileName <= c.FileName then Plus(v.sizes[n], size) else v.sizes[n]
  {
  }

  lemma LoadedHere(v: View, es: seq<VirtFsNode>, n: FolderTreeNode)
    requires LoadedAs(v, es) && n in v.nodes
    ensures LoadedNode(v, es, n) && n in v.lists && n in v.sizes
  {
  }

  lemma OldNodeLoaded(v: View, w: View, es: seq<VirtFsNode>, i: nat, n: FolderTreeNode)
    requires i < |es| && LoadedNode(v, es[..i], n) && !es[i].IsFile() && n.Key() != es[i].Key()
    requires n in w.lists && w.lists[n] == v.lists[n] && n in w.sizes
    requires w.sizes[n] == if n.FileName <= es[i].FileName then Plus(v.sizes[n], es[i].size) else v.sizes[n]
    ensures LoadedNode(w, es[..i + 1], n)
  {
    hide Plus, Size64;
    OneMore(es, i, n.FileName);
    PlusTotal(Total(es[..i], n.FileName), es[i].size);
  }

  lemma FolderNode(v: View, es: seq<VirtFsNode>, i: nat, c: FolderTreeNode, n: FolderTreeNode)
    requires i < |es| && LoadedAs(v, es[..i]) && Listing(es) && !es[i].IsFile()
    requires c !in v.nodes && c.Parent != null && c.FileName == es[i].FileName && c.Parent in v.children
    requires n in v.nodes
    ensures LoadedNode(FolderAdded(v, c, es[i].size), es[..i + 1], n)
  {
    hide *;
    LoadedHere(v, es[..i], n);
    NameIsNew(v, es, i, n);
    OldNode(v, c, es[i].size, n);
    OldNodeLoaded(v, FolderAdded(v, c, es[i].size), es, i, n);
  }

  lemma AnyNode(v: View, es: seq<VirtFsNode>, i: nat, c: FolderTreeNode, n: FolderTreeNode)
    requires i < |es| && LoadedAs(v, es[..i]) && Listing(es) && !es[i].IsFile()
    requires c !in v.nodes && c.Parent != null && c.FileName == es[i].FileName && c.Parent in v.children
    requires n in v.nodes || n == c
    ensures LoadedNode(FolderAdded(v, c, es[i].size), es[..i + 1], n)
  {
    hide *;
    if n == c {
      FolderItself(v, es, i, c);
    } else {
      FolderNode(v, es, i, c, n);
    }
  }

  lemma FolderListed(es: seq<VirtFsNode>, i: nat, c: FolderTreeNode, w: View)
    requires i < |es| && !es[i].IsFile() && c.FileName == es[i].FileName && c in w.nodes
    ensures HasFolderEntry(es[..i + 1], c.FileName) && HasNode(w, es[i].FileName)
  {
    assert es[..i + 1][i] == es[i];
  }

  /** After a folder of the listing. */
  lemma FolderLoaded(v: View, es: seq<VirtFsNode>, i: nat, c: FolderTreeNode)
    requires i < |es| && LoadedAs(v, es[..i]) && Listing(es) && !es[i].IsFile()
    requires c !in v.nodes && Hangs(v.nodes, c) && c.FileName == es[i].FileName
    requires c.Parent in v.children && forall d :: d in v.nodes && d.Parent == c.Parent ==> Fold(d.text) != Fold(c.text)
    ensures LoadedAs(FolderAdded(v, c, es[i].size), es[..i + 1])
  {
    hide Listing, Good, Wired, HasNode, HasFolderEntry, LoadedNode;
    var w := FolderAdded(v, c, es[i].size);
    FolderAddedKeeps(v, c, es[i].size);
    FolderAddedSame(v, c, es[i].size);
    assert v.gone == {} && v.empty == {};
    hide FolderAdded, Hangs, LoadedAs;
    MoreEntries(v, w, es, i);
    FolderListed(es, i, c, w);
    forall n | n in w.nodes ensures LoadedNode(w, es[..i + 1], n) {
      AnyNode(v, es, i, c, n);
    }
    OneMoreLoaded(w, es, i);
  }

  lemma OneMoreLoaded(w: View, es: seq<VirtFsNode>, i: nat)
    requires i < |es| && Good(w) && Wired(w) && w.gone == {} && w.empty == {}
    requires forall n :: n in w.nodes && n != w.root ==> HasFolderEntry(es[..i + 1], n.FileName)
    requires forall j :: 0 <= j <= i && !es[j].IsFile() ==> HasNode(w, es[j].FileName)
    requires forall n :: n in w.nodes ==> LoadedNode(w, es[..i + 1], n)
    ensures LoadedAs(w, es[..i + 1])
  {
    hide Good, Wired, HasNode, HasFolderEntry, LoadedNode;
    assert forall j :: 0 <= j <= i ==> es[..i + 1][j] == es[j];
  }

  lemma FolderAddedSame(v: View, c: FolderTreeNode, size: nat)
    requires c.Parent != null && c.Parent in v.children
    ensures var w := FolderAdded(v, c, size);
            w.nodes == v.nodes + {c} && w.root == v.root && w.gone == v.gone && w.empty == v.empty
  {
  }

  /** No child of the parent is called like the next entry. */
  lemma NameIsFree(v: View, es: seq<VirtFsNode>, i: nat, parent: FolderTreeNode)
    requires i < |es| && LoadedAs(v, es[..i]) && Listing(es)
    requires parent in v.nodes && es[i].FileName != [] && parent.FileName == Above(es[i].FileName)
    ensures FreeName(v.nodes, parent, es[i].FileName) && !Occupied(v.nodes, parent, es[i].FileName)
  {
    hide Good, Wired, Listing, LoadedNode, HasFolderEntry, HasNode;
    var p := es[i].FileName;
    forall c | c in v.nodes && c.Parent == parent ensures Fold(c.text) != Fold(p[|p| - 1]) {
      NameIsNew(v, es, i, c);
      ChildKey(v, c, p);
    }
  }

  lemma ChildKey(v: View, c: FolderTreeNode, p: Path)
    requires Good(v) && c in v.nodes && c.Parent != null && p != [] && c.Parent.FileName == Above(p)
    requires c.Key() != FoldPath(p)
    ensures Fold(c.text) != Fold(p[|p| - 1])
  {
    Up(v.nodes, v.root, c);
    assert p == Above(p) + [p[|p| - 1]];
    FoldPathAppend(Above(p), p[|p| - 1]);
  }

  // ----- the whole listing -----

  /** The package has exactly the files of the listing. */
  ghost predicate Lists(es: seq<VirtFsNode>, m: Contents) {
    forall q :: q in m <==> HasFileEntry(es, q)
  }

  lemma PackagedListed(v: View, es: seq<VirtFsNode>, n: FolderTreeNode, q: Path)
    requires LoadedNode(v, es, n) && Packaged(v.lists[n], q)
    ensures HasFileEntry(es, q)
  {
    var p :| p in PackagePaths(v.lists[n]) && FoldPath(p) == q;
    var k :| 0 <= k < |v.lists[n]| && v.lists[n][k].path == p;
    FilesFrom(es, n.FileName, k);
  }

  lemma ListedPackaged(v: View, es: seq<VirtFsNode>, n: FolderTreeNode, i: nat)
    requires LoadedNode(v, es, n) && i < |es| && es[i].IsFile() && Above(es[i].FileName) == n.FileName
    ensures n in v.lists && Packaged(v.lists[n], es[i].Key())
  {
    FilesHave(es, n.FileName, i);
    assert es[i].FileName in PackagePaths(v.lists[n]);
  }

  lemma PackagedFromList(v: View, es: seq<VirtFsNode>, q: Path)
    requires LoadedAs(v, es) && Listing(es)
    ensures PackagedIn(v, q) <==> HasFileEntry(es, q)
  {
    hide Good, Wired, Packaged, LoadedNode;
    if n :| n in v.nodes && n in v.lists && Packaged(v.lists[n], q) {
      PackagedListed(v, es, n, q);
    }
    if i :| 0 <= i < |es| && es[i].IsFile() && es[i].Key() == q {
      var n := FolderOf(v, es, i);
      ListedPackaged(v, es, n, i);
    }
  }

  lemma FolderOf(v: View, es: seq<VirtFsNode>, i: nat) returns (n: FolderTreeNode)
    requires i < |es| && LoadedAs(v, es) && ParentBefore(es, i)
    ensures n in v.nodes && n.FileName == Above(es[i].FileName)
  {
    if |es[i].FileName| == 1 {
      n := v.root;
    } else {
      assert HasNode(v, Above(es[i].FileName));
      n :| n in v.nodes && n.FileName == Above(es[i].FileName);
    }
  }

  /** The opened tree lists the files of the package. */
  lemma LoadedCovers(v: View, es: seq<VirtFsNode>, m: Contents)
    requires LoadedAs(v, es) && Listing(es) && Lists(es, m)
    ensures Covers(v, m)
  {
    forall q ensures q in m <==> PackagedIn(v, q) {
      PackagedFromList(v, es, q);
    }
  }

  lemma TopLoaded(v: View, top: FolderTreeNode, es: seq<VirtFsNode>)
    requires v == View({top}, top, map[top := []], {}, map[top := []], map[top := 0], {})
    requires top.Parent == null && top.FileName == []
    ensures LoadedAs(v, es[..0])
  {
    assert es[..0] == [];
  }

  lemma AllLoaded(v: View, es: seq<VirtFsNode>, m: Contents)
    requires LoadedAs(v, es[..|es|]) && Listing(es) && Lists(es, m)
    ensures LoadedAs(v, es) && Good(v) && Wired(v) && Covers(v, m)
  {
    assert es[..|es|] == es;
    LoadedCovers(v, es, m);
  }

  /** A file as it is listed: a live file of the package with all the listing says. */
  predicate AsListed(f: FileData, e: VirtFsNode) {
    f.path == e.FileName && f.flags == e.flags && f.size == e.size && f.addedFrom == [] && !f.deleted
  }

  predicate InFolderAt(es: seq<VirtFsNode>, p: Path, i: nat) {
    i < |es| && es[i].IsFile() && Above(es[i].FileName) == p
  }

  /** The list is that of the files of a folder in the listing, in order, found at the given positions. */
  ghost predicate ListedAt(es: seq<VirtFsNode>, p: Path, files: Files, places: seq<nat>) {
    && |places| == |files|
    && (forall i, j :: 0 <= i < j < |places| ==> places[i] < places[j])
    && (forall k :: 0 <= k < |places| ==> InFolderAt(es, p, places[k]) && AsListed(files[k], es[places[k]]))
    && (forall i :: 0 <= i < |es| && InFolderAt(es, p, i) ==> i in places)
  }

  lemma {:induction false} FilesInOrder(es: seq<VirtFsNode>, p: Path) returns (places: seq<nat>)
    ensures ListedAt(es, p, FilesIn(es, p), places)
    decreases |es|
  {
    hide ListedAt;
    if es == [] {
      places := [];
      NoneListed(p);
    } else {
      var init, e := es[..|es| - 1], es[|es| - 1];
      var before := FilesInOrder(init, p);
      assert es == init + [e];
      if e.IsFile() && Above(e.FileName) == p {
        places := before + [|init|];
        FileListed(init, e, p, FilesIn(init, p), before);
      } else {
        places := before;
        OtherListed(init, e, p, FilesIn(init, p), before);
        assert FilesIn(init, p) + [] == FilesIn(init, p);
      }
    }
  }

  lemma NoneListed(p: Path)
    ensures ListedAt([], p, [], [])
  {
  }

  lemma SameBefore(init: seq<VirtFsNode>, e: VirtFsNode, p: Path)
    ensures var es := init + [e];
            && es[|init|] == e
            && forall i :: 0 <= i < |init| ==>
                 es[i] == init[i] && (InFolderAt(es, p, i) <==> InFolderAt(init, p, i))
  {
  }

  lemma FileListed(init: seq<VirtFsNode>, e: VirtFsNode, p: Path, files: Files, before: seq<nat>)
    requires ListedAt(init, p, files, before) && e.IsFile() && Above(e.FileName) == p
    ensures ListedAt(init + [e], p, files + [e.AsFile()], before + [|init|])
  {
    SameBefore(init, e, p);
    assert InFolderAt(init + [e], p, |init|) && AsListed(e.AsFile(), e);
    hide Above, AsListed;
    var es, places, list := init + [e], before + [|init|], files + [e.AsFile()];
    forall k | 0 <= k < |places| ensures InFolderAt(es, p, places[k]) && AsListed(list[k], es[places[k]]) {
      if k < |before| { assert InFolderAt(init, p, before[k]); }
    }
    assert places[|before|] == |init|;
  }

  lemma OtherListed(init: seq<VirtFsNode>, e: VirtFsNode, p: Path, files: Files, before: seq<nat>)
    requires ListedAt(init, p, files, before) && !(e.IsFile() && Above(e.FileName) == p)
    ensures ListedAt(init + [e], p, files, before)
  {
    SameBefore(init, e, p);
    assert !InFolderAt(init + [e], p, |init|);
    hide Above, AsListed;
    forall k | 0 <= k < |before|
      ensures InFolderAt(init + [e], p, before[k]) && AsListed(files[k], (init + [e])[before[k]])
    {
      assert InFolderAt(init, p, before[k]);
    }
  }

  /** The list of a folder is that of its files in the listing, in order. */
  lemma LoadedList(v: View, es: seq<VirtFsNode>, n: FolderTreeNode) returns (places: seq<nat>)
    requires LoadedAs(v, es) && n in v.nodes
    ensures n in v.lists && ListedAt(es, n.FileName, v.lists[n], places)
  {
    assert LoadedNode(v, es, n);
    places := FilesInOrder(es, n.FileName);
  }

  /** Every folder of the tree lists its files of the listing, in order. */
  ghost predicate ListsAre(v: View, es: seq<VirtFsNode>) {
    forall n :: n in v.nodes ==> n in v.lists && exists places :: ListedAt(es, n.FileName, v.lists[n], places)
  }

  lemma LoadedLists(v: View, es: seq<VirtFsNode>)
    requires LoadedAs(v, es)
    ensures ListsAre(v, es)
  {
    hide ListedAt, LoadedAs;
    forall n | n in v.nodes
      ensures n in v.lists && exists places :: ListedAt(es, n.FileName, v.lists[n], places)
    {
      var places := LoadedList(v, es, n);
    }
  }

  /** Each entry is in the tree exactly once, as it is listed. */
  lemma EachOnce(v: View, es: seq<VirtFsNode>, i: nat)
    requires LoadedAs(v, es) && Listing(es) && i < |es|
    ensures es[i].IsFile() ==>
              exists n, k :: n in v.nodes && n.FileName == Above(es[i].FileName) && 0 <= k < |v.lists[n]|
                && AsListed(v.lists[n][k], es[i])
                && forall m, l :: m in v.nodes && 0 <= l < |v.lists[m]| && v.lists[m][l].Key() == es[i].Key() ==>
                     m == n && l == k
    ensures !es[i].IsFile() ==>
              exists n :: n in v.nodes && n.FileName == es[i].FileName
                && forall m :: m in v.nodes && m.Key() == es[i].Key() ==> m == n
  {
    hide Wired, Closed, Proper;
    if es[i].IsFile() {
      var n := FolderOf(v, es, i);
      FilesHave(es, n.FileName, i);
      var k :| 0 <= k < |v.lists[n]| && v.lists[n][k] == es[i].AsFile();
      forall m, l | m in v.nodes && 0 <= l < |v.lists[m]| && v.lists[m][l].Key() == es[i].Key()
        ensures m == n && l == k
      {
        OnlyEntry(v, es, n, k, m, l);
      }
    } else {
      var n :| n in v.nodes && n.FileName == es[i].FileName;
      forall m | m in v.nodes && m.Key() == es[i].Key() ensures m == n {
        SameNode(v.nodes, v.root, m, n);
      }
    }
  }

  lemma OnlyEntry(v: View, es: seq<VirtFsNode>, n: FolderTreeNode, k: nat, m: FolderTreeNode, l: nat)
    requires LoadedAs(v, es) && n in v.nodes && k < |v.lists[n]| && m in v.nodes && l < |v.lists[m]|
    requires v.lists[n][k].Key() == v.lists[m][l].Key()
    ensures m == n && l == k
  {
    var q := v.lists[n][k].Key();
    assert EntryAt(v.lists[n], k, q) && EntryAt(v.lists[m], l, q);
    OneFolder(v, m, n, q);
    FilesFrom(es, n.FileName, k);
    FilesFrom(es, n.FileName, l);
    assert Proper(v.lists[n], n.FileName);
  }

  // ----- sizes -----

  /** The sizes of all files in a folder and below it. */
  function FileTotal(es: seq<VirtFsNode>, p: Path): nat {
    if es == [] then 0
    else
      var e := es[|es| - 1];
      FileTotal(es[..|es| - 1], p) + (if e.IsFile() && p <= Above(e.FileName) then e.size else 0)
  }

  /** The folder and all folders in it are listed with size 0. */
  predicate NoFolderSizes(es: seq<VirtFsNode>, p: Path) {
    forall i :: 0 <= i < |es| && !es[i].IsFile() && p <= es[i].FileName ==> es[i].size == 0
  }

  lemma NoFolderSizesMore(es: seq<VirtFsNode>, p: Path)
    requires es != []
    ensures var e := es[|es| - 1];
            NoFolderSizes(es, p) <==>
            NoFolderSizes(es[..|es| - 1], p) && (!e.IsFile() && p <= e.FileName ==> e.size == 0)
  {
    var init := es[..|es| - 1];
    assert forall i :: 0 <= i < |init| ==> init[i] == es[i];
  }

  /** The size of a folder is the sum of the files in it and below exactly when it and the folders in it are listed with
      size 0; otherwise it is more. */
  lemma {:induction false} TotalIsFiles(es: seq<VirtFsNode>, p: Path)
    ensures Total(es, p) >= FileTotal(es, p)
    ensures Total(es, p) == FileTotal(es, p) <==> NoFolderSizes(es, p)
    decreases |es|
  {
    if es != [] {
      TotalIsFiles(es[..|es| - 1], p);
      NoFolderSizesMore(es, p);
    }
  }
}
