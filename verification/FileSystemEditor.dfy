/** The file system tab of the package editor (PackageEditor/FileSystemEditor.cs): editing the folder tree and saving
    it to the package. */
module FileSystemEditor {
  import opened Utf16
  import opened CaseFold
  import opened FileLists
  import opened FolderTree
  import opened SaveTree
  import opened EditTree
  import opened DiskTree
  import opened DiskAdd
  import opened DirtyFlag
  import opened OpenTree
  import opened Paths
  import opened Sequences
  import opened Wrappers
  import Flags = FileFlags

  /** The opened package: its files by their folded names, and the empty folders it was asked for. */
  class VirtPackage {
    var files: Contents
    var emptyDirs: set<Path>

    constructor (files: Contents)
      ensures this.files == files && emptyDirs == {}
    {
      this.files, emptyDirs := files, {};
    }

    method AddEmptyDir(name: Path)
      modifies this`emptyDirs
      ensures emptyDirs == old(emptyDirs) + {FoldPath(name)}
    {
      emptyDirs := emptyDirs + {FoldPath(name)};
    }

    method DeleteFile(name: Path)
      modifies this`files
      ensures files == Delete(old(files), FoldPath(name))
    {
      files := Delete(files, FoldPath(name));
    }

    method AddFileEx(source: Text, name: Path, flags: Flags.Word)
      modifies this`files
      ensures files == Add(old(files), FoldPath(name), source, flags)
    {
      files := Add(files, FoldPath(name), source, flags);
    }

    method SetFileFlags(name: Path, flags: Flags.Word)
      modifies this`files
      ensures files == SetFlags(old(files), FoldPath(name), flags)
    {
      files := SetFlags(files, FoldPath(name), flags);
    }
  }

  /** The child with exactly this text. */
  method FindChild(parent: FolderTreeNode, text: Text) returns (node: FolderTreeNode?)
    ensures node != null ==> node in parent.Nodes && node.text == text
    ensures node == null ==> forall c :: c in parent.Nodes ==> c.text != text
  {
    node := null;
    for i := 0 to |parent.Nodes|
      invariant forall k :: 0 <= k < i ==> parent.Nodes[k].text != text
    {
      if parent.Nodes[i].text == text {
        return parent.Nodes[i];
      }
    }
  }

  /** The child with this text, ignoring case. */
  method FindChildIgnoringCase(parent: FolderTreeNode, text: Text) returns (node: FolderTreeNode?)
    ensures node != null ==> node in parent.Nodes && Fold(node.text) == Fold(text)
    ensures node == null ==> forall c :: c in parent.Nodes ==> Fold(c.text) != Fold(text)
  {
    node := null;
    for i := 0 to |parent.Nodes|
      invariant forall k :: 0 <= k < i ==> Fold(parent.Nodes[k].text) != Fold(text)
    {
      if Fold(parent.Nodes[i].text) == Fold(text) {
        return parent.Nodes[i];
      }
    }
  }

  // ----- the nodes and the tree as a value -----

  /** A node holds what the value says. */
  ghost predicate Holds(v: View, n: FolderTreeNode)
    reads n`childFiles, n`Nodes, n`EndOfFile, n`deleted, n`addedEmpty
  {
    && n in v.lists && n.childFiles == v.lists[n] && n in v.children && n.Nodes == v.children[n]
    && n in v.sizes && n.EndOfFile == v.sizes[n] && (n.deleted <==> n in v.gone) && (n.addedEmpty <==> n in v.empty)
  }

  ghost predicate Agrees(v: View)
    reads v.nodes`childFiles, v.nodes`Nodes, v.nodes`EndOfFile, v.nodes`deleted, v.nodes`addedEmpty
  {
    forall n :: n in v.nodes ==> Holds(v, n)
  }

  /** Other files for a folder. */
  method SetFiles(ghost v: View, n: FolderTreeNode, files: Files)
    requires Agrees(v) && n in v.nodes
    modifies n`childFiles
    ensures Agrees(WithFiles(v, n, files))
  {
    n.childFiles := files;
  }

  /** A folder that is no longer deleted. */
  method Revive(ghost v: View, n: FolderTreeNode)
    requires Agrees(v) && n in v.nodes
    modifies n`deleted
    ensures Agrees(Revived(v, n))
  {
    n.deleted := false;
  }

  /** A folder the user added as a new empty one. */
  method SetAddedEmpty(ghost v: View, n: FolderTreeNode)
    requires Agrees(v) && n in v.nodes
    modifies n`addedEmpty
    ensures Agrees(WithEmpty(v, n))
  {
    n.addedEmpty := true;
  }

  method IsDeleted(ghost v: View, n: FolderTreeNode) returns (deleted: bool)
    requires Agrees(v) && n in v.nodes
    ensures deleted <==> n in v.gone
  {
    deleted := n.deleted;
  }

  /** A new node at the end of its folder. */
  method AddNode(ghost v: View, parent: FolderTreeNode, c: FolderTreeNode)
    requires Agrees(v) && v.children.Keys == v.nodes && parent in v.nodes && c !in v.nodes && c.Parent == parent
    requires c.Nodes == [] && c.childFiles == [] && !c.deleted && c !in v.gone && !c.addedEmpty && c !in v.empty
    modifies parent`Nodes
    ensures Agrees(WithFolder(v, c, c.EndOfFile))
  {
    parent.Nodes := parent.Nodes + [c];
  }

  /** The size of an entry is added to a folder and all folders above it. */
  method ClimbWithSize(ghost nodes: Folders, ghost root: FolderTreeNode, node: FolderTreeNode, size: nat)
    requires Shape(nodes, root) && node in nodes
    modifies nodes`EndOfFile
    ensures forall m :: m in nodes ==>
              m.EndOfFile == if m.FileName <= node.FileName then Plus(old(m.EndOfFile), size) else old(m.EndOfFile)
  {
    var upperParent: FolderTreeNode? := node;
    while upperParent != null
      invariant upperParent != null ==> upperParent in nodes && upperParent.FileName <= node.FileName
      invariant forall m :: m in nodes && Passed(m, node, upperParent) ==> m.EndOfFile == Plus(old(m.EndOfFile), size)
      invariant forall m :: m in nodes && !Passed(m, node, upperParent) ==> m.EndOfFile == old(m.EndOfFile)
      decreases if upperParent == null then 0 else |upperParent.FileName| + 1
    {
      OneUp(nodes, root, node, upperParent);
      upperParent.EndOfFile := Plus(upperParent.EndOfFile, size);
      upperParent := upperParent.Parent;
    }
  }

  method AddSize(ghost v: View, node: FolderTreeNode, size: nat)
    requires Agrees(v) && Good(v) && Wired(v) && node in v.nodes
    modifies v.nodes`EndOfFile
    ensures Agrees(WithSize(v, node, size))
  {
    ClimbWithSize(v.nodes, v.root, node, size);
    forall n | n in v.nodes ensures Holds(WithSize(v, node, size), n) {}
  }

  // ----- adding an entry -----

  /** The walk down from the top along the name of a folder. */
  method Walk(ghost v: View, root: FolderTreeNode, path: Path, ghost parent: FolderTreeNode)
    returns (curParent: FolderTreeNode)
    requires Agrees(v) && Good(v) && Wired(v) && root == v.root && parent in v.nodes && parent.FileName == path
    ensures curParent == parent
  {
    curParent := root;
    for k := 0 to |path|
      invariant curParent in v.nodes && curParent.FileName == path[..k]
    {
      ghost var c := NextStep(v.nodes, root, parent, curParent, path, k);
      var node := FindChild(curParent, path[k]);
      SameText(v, curParent, c, node);
      curParent := node;
    }
    SameNode(v.nodes, root, curParent, parent);
  }

  method AddFolder(ghost v: View, parent: FolderTreeNode, text: Text, path: Path, size: nat)
    returns (newNode: FolderTreeNode)
    requires Agrees(v) && Good(v) && Wired(v) && parent in v.nodes && path == parent.FileName + [text]
    requires parent !in v.gone && forall d :: d in v.nodes && d.Parent == parent ==> Fold(d.text) != Fold(text)
    modifies parent`Nodes, v.nodes`EndOfFile
    ensures fresh(newNode) && newNode.FileName == path && newNode.Parent == parent && newNode.text == text
    ensures Agrees(FolderAdded(v, newNode, size))
  {
    WiredKeys(v);
    hide Shape, Closed, Proper, Wired, Agrees, WithFolder, WithSize;
    newNode := new FolderTreeNode(text, path, size, parent);
    FolderKeeps(v, newNode, size);
    AddNode(v, parent, newNode);
    AddSize(WithFolder(v, newNode, size), newNode, size);
  }

  method AddFile(ghost v: View, parent: FolderTreeNode, file: FileData)
    requires Agrees(v) && Good(v) && Wired(v) && parent in v.nodes && Proper(v.lists[parent] + [file], parent.FileName)
    modifies parent`childFiles, v.nodes`EndOfFile
    ensures Agrees(FileAdded(v, parent, file))
  {
    WithFilesKeeps(v, parent, parent.childFiles + [file]);
    SetFiles(v, parent, parent.childFiles + [file]);
    AddSize(WithFiles(v, parent, v.lists[parent] + [file]), parent, file.size);
  }

  /** `AddFileOrFolder` for a name in an existing folder: a new node for a folder, a new entry in the list of the folder
      for a file, unless the folder has a child of exactly this name. */
  method AddEntry(ghost v: View, root: FolderTreeNode, path: Path, flags: Flags.Word, size: nat, sourceFileName: Text,
                  ghost parent: FolderTreeNode) returns (newNode: FolderTreeNode?)
    requires Agrees(v) && Good(v) && Wired(v) && root == v.root
    requires parent in v.nodes && path != [] && parent.FileName == path[..|path| - 1]
    requires Flags.IS_FILE !in flags ==>
               parent !in v.gone && (Occupied(v.nodes, parent, path) || FreeName(v.nodes, parent, path))
    requires Flags.IS_FILE in flags && !Occupied(v.nodes, parent, path) ==>
               Proper(v.lists[parent] + [FileData(path, flags, size, sourceFileName, false)], parent.FileName)
    modifies parent`childFiles, parent`Nodes, v.nodes`EndOfFile
    ensures newNode == null || fresh(newNode)
    ensures Occupied(v.nodes, parent, path) ==> newNode == null && Agrees(v)
    ensures !Occupied(v.nodes, parent, path) && Flags.IS_FILE in flags ==>
              newNode == null && Agrees(FileAdded(v, parent, FileData(path, flags, size, sourceFileName, false)))
    ensures !Occupied(v.nodes, parent, path) && Flags.IS_FILE !in flags ==>
              && newNode != null && newNode.FileName == path && newNode.Parent == parent
              && newNode.text == path[|path| - 1] && Agrees(FolderAdded(v, newNode, size))
  {
    newNode := null;
    var curParent := Walk(v, root, path[..|path| - 1], parent);
    var last := path[|path| - 1];
    var node := FindChild(curParent, last);
    if node == null {
      if Flags.IS_FILE !in flags {
        newNode := AddFolder(v, curParent, last, path, size);
      } else {
        AddFile(v, curParent, FileData(path, flags, size, sourceFileName, false));
      }
    }
  }

  /** `GetFullNodeName`: the texts on the way up to the top node, which has no part in the name. */
  method GetFullNodeName(ghost v: View, node: FolderTreeNode) returns (fullName: Text)
    requires Good(v) && node in v.nodes && Free(node.FileName, BACKSLASH)
    ensures fullName == JoinAll(NonEmpty(node.FileName))
  {
    hide Closed, Proper, Padded, FullPath, JoinAll, NonEmpty;
    ghost var path := node.FileName;
    PaddedNone();
    assert path[|path|..] == [];
    fullName := [];
    var n := node;
    while n.Parent != null
      invariant n in v.nodes && n.FileName <= path && fullName == Padded(path[|n.FileName|..])
      decreases |n.FileName|
    {
      Up(v.nodes, v.root, n);
      PaddedUp(path, |n.FileName| - 1);
      assert path[|n.FileName| - 1] == n.FileName[|n.FileName| - 1] == n.text;
      fullName := FullPath(Some(n.text), fullName);
      n := n.Parent;
    }
    Up(v.nodes, v.root, n);
    assert path[0..] == path;
    TrimPadded(path);
    fullName := Trim(fullName, {BACKSLASH});
  }

  // ----- opening a package -----

  /** An entry of the listing is added to the tree. */
  method LoadEntry(ghost v: View, root: FolderTreeNode, ghost es: seq<VirtFsNode>, ghost i: nat, e: VirtFsNode)
    returns (ghost w: View)
    requires i < |es| && e == es[i] && Listing(es) && LoadedAs(v, es[..i]) && Agrees(v) && root == v.root
    modifies v.nodes`childFiles, v.nodes`Nodes, v.nodes`EndOfFile
    ensures Agrees(w) && LoadedAs(w, es[..i + 1]) && w.root == root
    ensures forall n :: n in w.nodes ==> n in v.nodes || fresh(n)
  {
    hide LoadedNode, HasFolderEntry, HasNode, Agrees, Shape, Closed, Proper, Occupied;
    assert ParentBefore(es, i);
    ghost var parent := ParentNode(v, es, i);
    NameIsFree(v, es, i, parent);
    if e.IsFile() { FileProper(v, es, i, parent); }
    var newNode := AddEntry(v, root, e.FileName, e.flags, e.size, [], parent);
    if e.IsFile() {
      FileLoaded(v, es, i, parent);
      w := FileAdded(v, parent, e.AsFile());
    } else {
      FolderLoaded(v, es, i, newNode);
      w := FolderAdded(v, newNode, e.size);
    }
  }

  // ----- adding from disk -----

  /** The first live file with a name, ignoring case. */
  method FirstLive(childFiles: Files, path: Path) returns (i: nat)
    ensures i == FindLive(childFiles, FoldPath(path))
  {
    i := 0;
    while i < |childFiles| && !LiveEntryAt(childFiles, i, FoldPath(path))
      invariant i <= |childFiles| && forall k :: 0 <= k < i ==> !LiveEntryAt(childFiles, k, FoldPath(path))
    {
      i := i + 1;
    }
  }

  /** The new file at the end of the list, unless a folder of its name is in the way. */
  method AddMarked(ghost v: View, root: FolderTreeNode, parentNode: FolderTreeNode, marked: Files, file: FileData)
    requires Agrees(v) && Good(v) && Wired(v) && root == v.root && parentNode in v.nodes
    requires file.path != [] && InFolder([file], parentNode.FileName)
    requires file.Added() && !file.deleted && Flags.IS_FILE in file.flags
    requires marked == Marked(v.lists[parentNode], file.Key()) && !InPlace(v.lists[parentNode], file.Key())
    modifies parentNode`childFiles, parentNode`Nodes, v.nodes`EndOfFile
    ensures var w := WithFiles(v, parentNode, marked);
            Agrees(if Occupied(v.nodes, parentNode, file.path) then w else FileAdded(w, parentNode, file))
  {
    assert [file][0] == file;
    MarkedFirst(v, parentNode, file);
    SetFiles(v, parentNode, marked);
    var _ := AddEntry(WithFiles(v, parentNode, marked), root, file.path, file.flags, file.size, file.addedFrom,
                      parentNode);
  }

  /** A file from disk overwrites one from disk in place; one of the package is marked and the new file added to the
      list. */
  method PutFile(ghost v: View, root: FolderTreeNode, parentNode: FolderTreeNode, i: nat, file: FileData)
    requires Agrees(v) && Good(v) && Wired(v) && root == v.root && parentNode in v.nodes
    requires file.path != [] && InFolder([file], parentNode.FileName) && file.Added() && !file.deleted
    requires Flags.IS_FILE in file.flags && i == FindLive(parentNode.childFiles, file.Key())
    modifies parentNode`childFiles, parentNode`Nodes, v.nodes`EndOfFile
    ensures Agrees(FilePut(v, parentNode, file))
  {
    FilePutCases(v, parentNode, file);
    var childFiles := parentNode.childFiles;
    if i < |childFiles| && childFiles[i].addedFrom != [] {
      SetFiles(v, parentNode, childFiles[i := file.(addedFrom := childFiles[i].addedFrom)]);
    } else {
      var marked := childFiles;
      if i < |childFiles| {
        marked := childFiles[i := childFiles[i].(deleted := true)];
      }
      AddMarked(v, root, parentNode, marked, file);
    }
  }

  /** A folder from disk over an existing one: it is no longer deleted, and its files are. */
  method EnterExisting(ghost v: View, childNode: FolderTreeNode, ghost entries: seq<Disk>)
    requires Agrees(v) && Good(v) && Wired(v) && childNode in v.nodes
    requires childNode.Parent != null && childNode.Parent !in v.gone
    modifies childNode`deleted, childNode`childFiles
    ensures Agrees(Entered(v, childNode)) && Step(v, Entered(v, childNode), childNode.Key())
    ensures Midway(v, Entered(v, childNode), childNode.Key(), entries, 0)
  {
    Revive(v, childNode);
    SetFiles(Revived(v, childNode), childNode, AllDeleted(childNode.childFiles));
    EnteredMidway(v, childNode, entries);
  }

  /** A new folder from disk. */
  method EnterNew(ghost v: View, root: FolderTreeNode, parentNode: FolderTreeNode, name: Text, ghost entries: seq<Disk>)
    returns (c: FolderTreeNode)
    requires Agrees(v) && Good(v) && Wired(v) && root == v.root && parentNode in v.nodes && parentNode !in v.gone
    requires forall d :: d in v.nodes && d.Parent == parentNode ==> Fold(d.text) != Fold(name)
    modifies parentNode`childFiles, parentNode`Nodes, v.nodes`EndOfFile
    ensures fresh(c) && c.Parent == parentNode && c.text == name && Hangs(v.nodes, c)
    ensures c.Key() == parentNode.Key() + [Fold(name)]
    ensures Agrees(FolderAdded(v, c, 0)) && Step(v, FolderAdded(v, c, 0), c.Key())
    ensures Midway(v, FolderAdded(v, c, 0), c.Key(), entries, 0)
  {
    var path := parentNode.FileName + [name];
    FoldPathAppend(parentNode.FileName, name);
    assert path[|path| - 1] == name;
    c := AddEntry(v, root, path, {}, 0, [], parentNode);
    NewMidway(v, c, 0, entries);
  }

  /** The folder of the tree that a folder from disk goes to. The user may refuse to overwrite one that is not
      deleted. */
  method EnterFolder(ghost v: View, root: FolderTreeNode, parentNode: FolderTreeNode, name: Text,
                     ghost entries: seq<Disk>)
    returns (subdir: FolderTreeNode?, isNew: bool, ghost w: View)
    requires Agrees(v) && Good(v) && Wired(v) && root == v.root && parentNode in v.nodes && parentNode !in v.gone
    modifies v.nodes`childFiles, v.nodes`Nodes, v.nodes`EndOfFile, v.nodes`deleted
    ensures Agrees(w) && (forall n :: n in w.nodes ==> n in v.nodes || fresh(n))
    ensures subdir == null ==> w == v && HasLiveChild(v, parentNode, name)
    ensures subdir != null ==> subdir in w.nodes && subdir !in w.gone && subdir.Key() == parentNode.Key() + [Fold(name)]
    ensures subdir != null ==> Step(v, w, subdir.Key()) && Midway(v, w, subdir.Key(), entries, 0)
    ensures subdir != null ==> w.empty == v.empty && w.nodes == if isNew then v.nodes + {subdir} else v.nodes
    ensures subdir != null ==> (isNew <==> Grew(v, w)) && (isNew <==> !NodeAt(v, subdir.Key()))
    ensures subdir != null && isNew ==> fresh(subdir)
  {
    hide Proper, Closed, Entered, FolderAdded, Step, Midway, Grew, NodeAt;
    subdir := FindChildIgnoringCase(parentNode, name);
    isNew, w := false, v;
    if subdir != null {
      if !subdir.deleted {
        var yes: bool := *;
        if !yes {
          return null, false, v;
        }
      }
      Up(v.nodes, v.root, subdir);
      w := Entered(v, subdir);
      EnterExisting(v, subdir, entries);
      EnteredGrew(v, subdir);
    } else {
      subdir := EnterNew(v, root, parentNode, name, entries);
      isNew, w := true, FolderAdded(v, subdir, 0);
      NewGrew(v, subdir, 0);
    }
  }

  /** A folder has a child of this name that is not deleted. */
  method FindLiveChild(ghost v: View, parentNode: FolderTreeNode, name: Text) returns (found: bool)
    requires Agrees(v) && Good(v) && Wired(v) && parentNode in v.nodes
    ensures found <==> HasLiveChild(v, parentNode, name)
  {
    var c := FindChildIgnoringCase(parentNode, name);
    found := c != null && !c.deleted;
    if c != null {
      forall d | d in v.nodes && d.Parent == parentNode && Fold(d.text) == Fold(name) ensures d == c {
        SameText(v, parentNode, c, d);
      }
    }
  }

  /** A new folder that the user adds, or a deleted one that comes back. */
  method EnterEmpty(ghost v: View, root: FolderTreeNode, parentNode: FolderTreeNode, name: Text)
    returns (isNew: bool, ghost w: View)
    requires Agrees(v) && Good(v) && Wired(v) && root == v.root && parentNode in v.nodes && parentNode !in v.gone
    requires !HasLiveChild(v, parentNode, name)
    modifies v.nodes`childFiles, v.nodes`Nodes, v.nodes`EndOfFile, v.nodes`deleted
    ensures Agrees(w) && (isNew <==> w.nodes != v.nodes) && w.empty == v.empty + (w.nodes - v.nodes)
    ensures var key := parentNode.Key() + [Fold(name)]; Step(v, w, key) && Midway(v, w, key, [], 0)
  {
    hide Agrees, Good, Wired, SamePackage, SameLive, NotShorter, Midway, Grew, NodeAt, HasLiveChild;
    var newNode;
    newNode, isNew, w := EnterFolder(v, root, parentNode, name, []);
    if isNew {
      assert newNode in w.nodes && newNode !in v.nodes;
      SetAddedEmpty(w, newNode);
      EmptyMidway(v, w, newNode, newNode.Key());
      w := WithEmpty(w, newNode);
    }
  }

  // ----- removing -----

  method MarkOne(ghost v: View, ghost gone: Folders, folder: FolderTreeNode) returns (children: seq<FolderTreeNode>)
    requires folder in v.nodes && Agrees(WithGone(v, gone))
    modifies folder`deleted
    ensures folder in v.children && children == v.children[folder] && Agrees(WithGone(v, gone + {folder}))
  {
    folder.deleted := true;
    children := folder.Nodes;
  }

  /** The folder and everything in it is marked as deleted. */
  method MarkDeleted(ghost v: View, ghost gone: Folders, folder: FolderTreeNode)
    requires Good(v) && Wired(v) && folder in v.nodes && Agrees(WithGone(v, gone))
    modifies v.nodes`deleted
    ensures Agrees(WithGone(v, gone + Below(v.nodes, folder)))
    decreases Below(v.nodes, folder)
  {
    hide Agrees, Good, Wired;
    var children := MarkOne(v, gone, folder);
    ghost var marked := {folder};
    for i := 0 to |children|
      invariant marked == {folder} + BelowFirst(v.nodes, children, i)
      invariant Agrees(WithGone(v, gone + marked))
    {
      WiredChild(v, folder, i);
      MarkDeleted(v, gone + marked, children[i]);
      marked := marked + Below(v.nodes, children[i]);
      assert gone + marked == gone + ({folder} + BelowFirst(v.nodes, children, i)) + Below(v.nodes, children[i]);
    }
    BelowIs(v, folder);
  }

  /** `OnFolderTreeSelect`: a deleted folder that is shown loses its files from disk. */
  method WithoutAdded(childFiles: Files) returns (r: Files)
    ensures r == FromPackage(childFiles)
  {
    r := childFiles;
    var i := |childFiles|;
    FromPackageOfNone(childFiles);
    hide FromPackage;
    while i > 0
      invariant 0 <= i <= |childFiles| && r == childFiles[..i] + FromPackage(childFiles[i..])
    {
      i := i - 1;
      TakenOut(childFiles, i, FromPackage(childFiles[i + 1..]));
      FromPackageHead(childFiles[i], childFiles[i + 1..]);
      if childFiles[i].addedFrom != [] {
        r := r[..i] + r[i + 1..];
      }
    }
    assert childFiles[0..] == childFiles;
    assert childFiles[..0] + FromPackage(childFiles[0..]) == FromPackage(childFiles[0..]);
  }

  /** The files of a folder without the selected ones; each is the last one of exactly its name. */
  method RemoveItems(childFiles: Files, folder: Path, items: seq<Text>) returns (r: Files)
    requires InFolder(childFiles, folder)
    ensures r == RemovedAll(childFiles, folder, items)
  {
    r := childFiles;
    assert items[..0] == [];
    for k := 0 to |items|
      invariant r == RemovedAll(childFiles, folder, items[..k])
    {
      assert items[..k + 1][..k] == items[..k];
      var i := LastNamed(r, folder + [items[k]]);
      if i >= 0 {
        if r[i].addedFrom != [] {
          r := r[..i] + r[i + 1..];
        } else {
          r := r[i := r[i].(deleted := true)];
        }
      }
    }
    assert items[..|items|] == items;
  }

  method LastNamed(childFiles: Files, path: Path) returns (i: int)
    ensures i == FindLast(childFiles, path)
  {
    i := |childFiles| - 1;
    while i >= 0 && childFiles[i].path != path
      invariant -1 <= i < |childFiles| && forall k :: i < k < |childFiles| ==> childFiles[k].path != path
    {
      i := i - 1;
    }
  }

  /** `OnFolderTreeSelect`: a deleted folder that is shown loses its files from disk. */
  method ShowFolder(ghost v: View, folderNode: FolderTreeNode)
    requires Agrees(v) && folderNode in v.nodes
    modifies folderNode`childFiles
    ensures folderNode in v.lists && Agrees(Shown(v, folderNode))
  {
    if folderNode.deleted {
      var childFiles := WithoutAdded(folderNode.childFiles);
      SetFiles(v, folderNode, childFiles);
    }
  }

  method RemoveFrom(ghost v: View, folderNode: FolderTreeNode, items: seq<Text>)
    requires Agrees(v) && Good(v) && folderNode in v.nodes
    modifies folderNode`childFiles
    ensures folderNode in v.lists && Agrees(FilesRemoved(v, folderNode, items))
  {
    assert Proper(v.lists[folderNode], folderNode.FileName);
    var childFiles := RemoveItems(folderNode.childFiles, folderNode.FileName, items);
    SetFiles(v, folderNode, childFiles);
    ShowFolder(WithFiles(v, folderNode, childFiles), folderNode);
  }

  method RemoveWhole(ghost v: View, folderNode: FolderTreeNode)
    requires Agrees(v) && Good(v) && Wired(v) && folderNode in v.nodes
    modifies v.nodes`deleted, folderNode`childFiles
    ensures folderNode in v.lists && Agrees(FolderRemoved(v, folderNode))
  {
    assert WithGone(v, v.gone) == v;
    MarkDeleted(v, v.gone, folderNode);
    ShowFolder(Dropped(v, folderNode), folderNode);
  }

  // ----- saving -----

  /** `OnPackageSaveRecursive`: the children of a folder, one after the other. */
  method SaveFolders(ghost v: View, virtPackage: VirtPackage, children: seq<FolderTreeNode>,
                     ghost parent: FolderTreeNode)
    requires Agrees(v) && Good(v) && Wired(v) && parent in v.nodes && children == v.children[parent]
    modifies virtPackage
    ensures SavedTo(v, BelowFirst(v.nodes, children, |children|), old(virtPackage.files), old(virtPackage.emptyDirs),
                    virtPackage.files, virtPackage.emptyDirs)
    decreases Below(v.nodes, parent), 0
  {
    hide Good, SavedTo, Holds, Below;
    NothingDone(v, virtPackage.files, virtPackage.emptyDirs);
    for i := 0 to |children|
      invariant Agrees(v)
      invariant SavedTo(v, BelowFirst(v.nodes, children, i), old(virtPackage.files), old(virtPackage.emptyDirs),
                        virtPackage.files, virtPackage.emptyDirs)
    {
      ghost var files, dirs := virtPackage.files, virtPackage.emptyDirs;
      WiredChild(v, parent, i);
      SaveFolder(v, virtPackage, children[i]);
      NextChildDone(v, parent, i, old(virtPackage.files), old(virtPackage.emptyDirs), files, dirs,
                    virtPackage.files, virtPackage.emptyDirs);
    }
  }

  method SaveFolder(ghost v: View, virtPackage: VirtPackage, folder: FolderTreeNode)
    requires Agrees(v) && Good(v) && Wired(v) && folder in v.nodes
    modifies virtPackage
    ensures Agrees(v)
    ensures SavedTo(v, Below(v.nodes, folder), old(virtPackage.files), old(virtPackage.emptyDirs), virtPackage.files,
                    virtPackage.emptyDirs)
    decreases Below(v.nodes, folder), 1
  {
    hide Shape, Closed, Proper, Wired, SavedTo, Below, BelowFirst, SaveFirst;
    if folder.deleted {
      virtPackage.DeleteFile(folder.FileName);
      GoneDone(v, folder, old(virtPackage.files), virtPackage.emptyDirs);
    } else {
      SaveFiles(virtPackage, folder.childFiles);
      if folder.addedEmpty {
        virtPackage.AddEmptyDir(folder.FileName);
      }
      SaveFolders(v, virtPackage, folder.Nodes, folder);
      FolderDone(v, folder, old(virtPackage.files), old(virtPackage.emptyDirs), virtPackage.files,
                 virtPackage.emptyDirs);
    }
  }

  /** The files of a folder. */
  method SaveFiles(virtPackage: VirtPackage, childFiles: Files)
    modifies virtPackage`files
    ensures virtPackage.files == SaveFirst(childFiles, |childFiles|, old(virtPackage.files))
  {
    for i := 0 to |childFiles|
      invariant virtPackage.files == SaveFirst(childFiles, i, old(virtPackage.files))
    {
      var child := childFiles[i];
      if child.deleted {
        if !ExistsLive(childFiles, child.path) {
          virtPackage.DeleteFile(child.path);
        }
      } else {
        if child.addedFrom != [] {
          virtPackage.AddFileEx(child.addedFrom, child.path, child.flags);
        }
        virtPackage.SetFileFlags(child.path, child.flags);
      }
    }
  }

  /** A live file has the same name, ignoring case. */
  predicate ExistsLive(childFiles: Files, findFile: Path) {
    LiveAt(childFiles, FoldPath(findFile))
  }

  const FILE_SYSTEM: Text := Ascii("FileSystem")

  /** The tree of an empty package: the top node alone. */
  method NewTree() returns (top: FolderTreeNode, ghost w: View)
    ensures fresh(top) && top.Parent == null && top.FileName == [] && top.text == FILE_SYSTEM
    ensures w == View({top}, top, map[top := []], {}, map[top := []], map[top := 0], {}) && Agrees(w)
  {
    top := new FolderTreeNode(FILE_SYSTEM, [], 0, null);
    w := View({top}, top, map[top := []], {}, map[top := []], map[top := 0], {});
  }

  class FileSystemEditor {
    const virtPackage: VirtPackage
    var root: FolderTreeNode
    var dirty: bool
    /** The tree as a value. */
    ghost var tree: View

    constructor (virtPackage: VirtPackage)
      ensures this.virtPackage == virtPackage && !dirty && Valid()
      ensures fresh(root) && tree == View({root}, root, map[root := []], {}, map[root := []], map[root := 0], {})
    {
      this.virtPackage, dirty := virtPackage, false;
      var top; ghost var w;
      top, w := NewTree();
      root, tree := top, w;
    }

    /** What every step keeps: the folders form a tree without two names that differ in case only, everything in a
        deleted folder is deleted, and no folder has two live files of the same name. */
    ghost predicate Valid()
      reads this, tree.nodes
    {
      root == tree.root && Agrees(tree) && Good(tree) && Wired(tree)
    }

    /** `OnPackageOpen`: the tree of the listing of the package, and nothing else of what was there. */
    method OnPackageOpen(virtFsNodes: seq<VirtFsNode>)
      requires Listing(virtFsNodes) && Lists(virtFsNodes, virtPackage.files)
      modifies this`root, this`tree, this`dirty
      ensures Valid() && !dirty && LoadedAs(tree, virtFsNodes) && fresh(tree.nodes)
      ensures ListsAre(tree, virtFsNodes) && Covers(tree, virtPackage.files)
    {
      hide Agrees, Good, Wired, Covers, Lists, Listing, LoadedAs, ListsAre;
      var top; ghost var w;
      top, w := NewTree();
      TopLoaded(w, top, virtFsNodes);
      for i := 0 to |virtFsNodes|
        invariant Agrees(w) && LoadedAs(w, virtFsNodes[..i]) && w.root == top && fresh(w.nodes)
      {
        w := LoadEntry(w, top, virtFsNodes, i, virtFsNodes[i]);
      }
      AllLoaded(w, virtFsNodes, virtPackage.files);
      LoadedLists(w, virtFsNodes);
      root, tree, dirty := top, w, false;
    }

    /** `OnFolderTreeSelect`: showing a folder, which does not count as a change. */
    method OnFolderTreeSelect(folderNode: FolderTreeNode)
      requires Valid() && folderNode in tree.nodes
      modifies this`tree, folderNode`childFiles
      ensures Valid() && tree == Shown(old(tree), folderNode) && SamePackage(old(tree), tree)
      ensures OnlyShown(old(tree), tree, folderNode)
    {
      hide Good, Wired, SamePackage, Shown, OnlyShown;
      ghost var v := tree;
      ShownIs(v, folderNode);
      ShownKeeps(v, folderNode);
      ShowFolder(v, folderNode);
      tree := Shown(v, folderNode);
    }

    /** `OnRemoveBtnClick` with files selected. */
    method RemoveFiles(folderNode: FolderTreeNode, items: seq<Text>)
      requires Valid() && folderNode in tree.nodes
      modifies this`tree, this`dirty, folderNode`childFiles
      ensures Valid() && dirty && tree == FilesRemoved(old(tree), folderNode, items) && SamePackage(old(tree), tree)
      ensures SomeRemoved(old(tree), tree, folderNode, items)
    {
      hide Agrees, Good, Wired, SamePackage, FilesRemoved, SomeRemoved;
      ghost var v := tree;
      FilesRemovedIs(v, folderNode, items);
      FilesRemovedKeep(v, folderNode, items);
      RemoveFrom(v, folderNode, items);
      tree := FilesRemoved(v, folderNode, items);
      dirty := true;
    }

    /** `OnRemoveBtnClick` with only a folder selected. */
    method RemoveFolder(folderNode: FolderTreeNode)
      requires Valid() && folderNode in tree.nodes
      modifies this`tree, this`dirty, tree.nodes`deleted, folderNode`childFiles
      ensures Valid() && dirty && tree == FolderRemoved(old(tree), folderNode) && SamePackage(old(tree), tree)
      ensures WholeRemoved(old(tree), tree, folderNode)
    {
      hide Agrees, Good, Wired, SamePackage, FolderRemoved, WholeRemoved;
      ghost var v := tree;
      FolderRemovedIs(v, folderNode);
      FolderRemovedKeeps(v, folderNode);
      RemoveWhole(v, folderNode);
      tree := FolderRemoved(v, folderNode);
      dirty := true;
    }

    /** `OnPackageSave`: the top folder itself is not saved. */
    method OnPackageSave() returns (ret: bool)
      requires Valid()
      modifies virtPackage
      ensures Valid() && ret && Saved(tree, Saveable(tree), old(virtPackage.files), virtPackage.files)
      ensures virtPackage.emptyDirs == old(virtPackage.emptyDirs) + EmptyKeys(tree, Saveable(tree))
      ensures forall p :: p in virtPackage.emptyDirs <==>
                p in old(virtPackage.emptyDirs)
                || exists n :: n in tree.nodes && n != tree.root && n in tree.empty && n !in tree.gone && n.Key() == p
    {
      AllSaveable(tree, root.Nodes);
      if |root.Nodes| == 0 {
        NothingDone(tree, virtPackage.files, virtPackage.emptyDirs);
        return true;
      }
      SaveFolders(tree, virtPackage, root.Nodes, root);
      ret := true;
    }

    // ----- adding from disk -----

    /** `AddFileOrFolderRecursive` for a file. The user may refuse to overwrite a live one. */
    method AddDiskFile(ghost v: View, parentNode: FolderTreeNode, d: Disk) returns (ok: bool)
      requires Agrees(v) && Good(v) && Wired(v) && root == v.root && parentNode in v.nodes && d.File? && d.source != []
      modifies this`dirty, parentNode`childFiles, parentNode`Nodes, v.nodes`EndOfFile
      ensures ok ==> Agrees(FilePut(v, parentNode, FileOf(parentNode, d)))
      ensures !ok ==> Agrees(v) && LiveAt(v.lists[parentNode], FileOf(parentNode, d).Key())
      ensures dirty == (old(dirty) || (ok && !AddedAt(v.lists[parentNode], FileOf(parentNode, d).Key())))
    {
      hide FilePut, Wired, Shape, Closed;
      var path := parentNode.FileName + [d.name];
      var childFiles := parentNode.childFiles;
      var i := FirstLive(childFiles, path);
      InPlaceAdded(childFiles, FoldPath(path));
      if i < |childFiles| {
        var yes: bool := *;
        if !yes {
          return false;
        }
      }
      var file := FileOf(parentNode, d);
      assert [file][0] == file;
      dirty := dirty || i == |childFiles| || childFiles[i].addedFrom == [];
      PutFile(v, root, parentNode, i, file);
      ok := true;
    }

    /** `AddFileOrFolderRecursive`: whatever the user answers, nothing outside the new entry changes; if it is not
        given up, the tree has the entry. The result says whether it was, and `Dirtied` when the user will be asked to
        save. */
    method AddFileOrFolderRecursive(ghost v: View, parentNode: FolderTreeNode, d: Disk)
      returns (ok: bool, ghost w: View)
      requires Agrees(v) && Good(v) && Wired(v) && root == v.root
      requires parentNode in v.nodes && parentNode !in v.gone && Sourced(d)
      modifies this`dirty, v.nodes`childFiles, v.nodes`Nodes, v.nodes`EndOfFile, v.nodes`deleted
      ensures Agrees(w) && (forall n :: n in w.nodes ==> n in v.nodes || fresh(n))
      ensures Added(v, w, parentNode.Key(), d, ok)
      ensures Dirtied(old(dirty), dirty, v, w, parentNode.Key(), d, ok)
      decreases d, 2
    {
      hide Shape, Closed, Proper, Wired, Holds, FilePut, Put, Conflict, Dirtied, OwnNames;
      if d.File? {
        ok := AddDiskFile(v, parentNode, d);
        w := if ok then FilePut(v, parentNode, FileOf(parentNode, d)) else v;
        FileDone(old(dirty), v, parentNode, d, ok);
      } else {
        ok, w := AddDiskFolder(v, parentNode, d);
      }
    }

    method AddDiskFolder(ghost v: View, parentNode: FolderTreeNode, d: Disk) returns (ok: bool, ghost w: View)
      requires Agrees(v) && Good(v) && Wired(v) && root == v.root
      requires parentNode in v.nodes && parentNode !in v.gone && Sourced(d) && d.Folder?
      modifies this`dirty, v.nodes`childFiles, v.nodes`Nodes, v.nodes`EndOfFile, v.nodes`deleted
      ensures Agrees(w) && (forall n :: n in w.nodes ==> n in v.nodes || fresh(n))
      ensures Added(v, w, parentNode.Key(), d, ok)
      ensures Dirtied(old(dirty), dirty, v, w, parentNode.Key(), d, ok)
      decreases d, 0
    {
      hide Agrees, Good, Wired, SamePackage, SameLive, NotShorter, Midway, Grew, Dirtied, DirtiedMidway, Put,
           Conflict, NodeAt, OwnNames, HasLiveChild;
      ghost var top := KeyOf(parentNode.Key(), d);
      var subdir, isNew;
      subdir, isNew, w := EnterFolder(v, root, parentNode, d.name, d.entries);
      if subdir == null {
        FolderRefused(dirty, v, parentNode, d);
        return false, w;
      }
      dirty := dirty || isNew;
      EnteredDirtied(old(dirty), dirty, v, w, top, d.entries);
      for k := 0 to |d.entries|
        invariant Agrees(w) && (forall n :: n in w.nodes ==> n in v.nodes || fresh(n))
        invariant Step(v, w, top) && w.empty == v.empty && subdir in w.nodes && subdir !in w.gone
        invariant old(dirty) || Grew(v, w) ==> dirty
        invariant OwnNames(d) ==> Midway(v, w, top, d.entries, k)
        invariant OwnNames(d) ==> DirtiedMidway(old(dirty), dirty, v, w, top, d.entries, k)
      {
        ghost var x; ghost var between := dirty;
        ok, x := AddFileOrFolderRecursive(w, subdir, d.entries[k]);
        NextEntry(old(dirty), between, dirty, v, w, x, parentNode.Key(), d, k, ok);
        w := x;
        if !ok {
          return;
        }
      }
      ok := true;
      FolderComplete(old(dirty), dirty, v, w, parentNode.Key(), d);
    }

    /** `OnAddBtnClick`, `OnAddDirBtnClick` and dropped files: a deleted folder takes nothing, another one the entries
        one after the other. `run` is the tree after each of them, `oks` says which were not given up. */
    method AddPaths(parentNode: FolderTreeNode, paths: seq<Disk>) returns (ghost run: seq<View>, ghost oks: seq<bool>)
      requires Valid() && parentNode in tree.nodes && forall k :: 0 <= k < |paths| ==> Sourced(paths[k])
      modifies this`tree, this`dirty, tree.nodes`childFiles, tree.nodes`Nodes, tree.nodes`EndOfFile, tree.nodes`deleted
      ensures Valid()
      ensures parentNode in old(tree).gone ==> tree == old(tree) && dirty == old(dirty)
      ensures parentNode !in old(tree).gone ==>
                && AddedAll(old(tree), tree, parentNode.Key(), paths, run, oks)
                && Step(old(tree), tree, parentNode.Key())
                && DirtiedAll(old(dirty), dirty, parentNode.Key(), paths, run, oks)
    {
      hide Agrees, Good, Wired, SamePackage, AddedAll, DirtiedAll;
      ghost var v := tree;
      run, oks := [], [];
      var deleted := IsDeleted(v, parentNode);
      if !deleted {
        ghost var w;
        w, run, oks := AddAll(v, parentNode, paths);
        tree := w;
      }
    }

    method AddAll(ghost v: View, parentNode: FolderTreeNode, paths: seq<Disk>)
      returns (ghost w: View, ghost run: seq<View>, ghost oks: seq<bool>)
      requires Agrees(v) && Good(v) && Wired(v) && root == v.root && parentNode in v.nodes && parentNode !in v.gone
      requires forall k :: 0 <= k < |paths| ==> Sourced(paths[k])
      modifies this`dirty, v.nodes`childFiles, v.nodes`Nodes, v.nodes`EndOfFile, v.nodes`deleted
      ensures Agrees(w) && Step(v, w, parentNode.Key()) && AddedAll(v, w, parentNode.Key(), paths, run, oks)
      ensures DirtiedAll(old(dirty), dirty, parentNode.Key(), paths, run, oks)
    {
      hide Agrees, Good, Wired, SamePackage, SameLive, NotShorter, Added, Grows, DirtiedAll, Dirtied;
      w, run, oks := v, [v], [];
      NoStep(v, parentNode.Key());
      assert paths[..0] == [];
      NoneDirtied(dirty, parentNode.Key(), v);
      for k := 0 to |paths|
        invariant Agrees(w) && (forall n :: n in w.nodes ==> n in v.nodes || fresh(n)) && Step(v, w, parentNode.Key())
        invariant parentNode in w.nodes && parentNode !in w.gone
        invariant |run| == k + 1 && |oks| == k && run[0] == v && run[k] == w
        invariant forall j :: 0 <= j < k ==> Added(run[j], run[j + 1], parentNode.Key(), paths[j], oks[j])
        invariant DirtiedAll(old(dirty), dirty, parentNode.Key(), paths[..k], run, oks)
      {
        ghost var between := dirty;
        var ok; ghost var x;
        ok, x := AddFileOrFolderRecursive(w, parentNode, paths[k]);
        AddedStep(w, x, parentNode.Key(), paths[k], ok);
        TwoSteps(v, w, x, parentNode.Key(), KeyOf(parentNode.Key(), paths[k]));
        StepGrows(v, w, parentNode.Key());
        StepGrows(w, x, KeyOf(parentNode.Key(), paths[k]));
        NextOfAll(old(dirty), between, dirty, parentNode.Key(), paths[..k], run, oks, paths[k], x, ok);
        assert paths[..k + 1] == paths[..k] + [paths[k]];
        w, run, oks := x, run + [x], oks + [ok];
      }
      assert paths[..|paths|] == paths;
    }

    /** `OnAddEmptyDirBtnClick`: a new folder, or a deleted one that comes back without its files. */
    method AddEmptyDir(parentNode: FolderTreeNode, newFolderName: Text) returns (added: bool)
      requires Valid() && parentNode in tree.nodes
      modifies this`tree, this`dirty, tree.nodes
      ensures Valid() && (!added ==> tree == old(tree))
      ensures added ==> var key := parentNode.Key() + [Fold(newFolderName)];
                Step(old(tree), tree, key) && Midway(old(tree), tree, key, [], 0)
      ensures tree.empty == old(tree).empty + (tree.nodes - old(tree).nodes)
      ensures dirty == (old(dirty) || tree.nodes != old(tree).nodes)
      ensures Refused(old(tree), parentNode, newFolderName) ==> !added
      ensures added || Refused(old(tree), parentNode, newFolderName)
              || (parentNode.Parent == null && OddRootName(newFolderName))
    {
      hide Agrees, Good, Wired, SamePackage, SameLive, NotShorter, Midway, HasLiveChild;
      ghost var v := tree;
      var deleted := IsDeleted(v, parentNode);
      if deleted || newFolderName == [] {
        return false;
      }
      if parentNode.Parent == null && OddRootName(newFolderName) {
        var yes: bool := *;
        if !yes {
          return false;
        }
      }
      if BACKSLASH in newFolderName {
        return false;
      }
      var found := FindLiveChild(v, parentNode, newFolderName);
      if found {
        return false;
      }
      var isNew; ghost var w;
      isNew, w := EnterEmpty(v, root, parentNode, newFolderName);
      dirty := dirty || isNew;
      tree := w;
      added := true;
    }
  }
}
