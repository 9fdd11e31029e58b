/** The folder tree of the package editor (PackageEditor/FileSystemEditor.cs): its nodes, how they are linked and
    named. */
module FolderTree {
  import opened Utf16
  import opened CaseFold
  import opened FileLists

  /** A folder. Its text, its full name and its parent are given when it is put into the tree and never change. */
  class FolderTreeNode {
    const text: Text
    const FileName: Path
    const Parent: FolderTreeNode?
    var EndOfFile: nat
    var childFiles: Files
    var Nodes: seq<FolderTreeNode>
    var deleted: bool
    var addedEmpty: bool

    constructor (text: Text, fileName: Path, size: nat, parent: FolderTreeNode?)
      ensures this.text == text && FileName == fileName && EndOfFile == size && Parent == parent
      ensures childFiles == [] && Nodes == [] && !deleted && !addedEmpty
    {
      this.text, FileName, EndOfFile, Parent := text, fileName, size, parent;
      childFiles, Nodes, deleted, addedEmpty := [], [], false, false;
    }

    /** Names are compared ignoring case. */
    function Key(): Path {
      FoldPath(FileName)
    }
  }

  type Folders = set<FolderTreeNode>

  predicate Hangs(nodes: Folders, n: FolderTreeNode) {
    n.Parent != null && n.Parent in nodes && n.FileName == n.Parent.FileName + [n.text]
  }

  /** A folder is called as its parent and one component more, and no two folders have the same name ignoring case. */
  ghost predicate Shape(nodes: Folders, root: FolderTreeNode) {
    && root in nodes && root.Parent == null && root.FileName == []
    && (forall n {:trigger Hangs(nodes, n)} :: n in nodes && n != root ==> Hangs(nodes, n))
    && (forall m, n {:trigger m.Key(), n.Key()} :: m in nodes && n in nodes && m.Key() == n.Key() ==> m == n)
  }

  predicate NoRepeats(s: seq<FolderTreeNode>) {
    forall i, j :: 0 <= i < j < |s| ==> s[i] != s[j]
  }

  /** The children of a node. */
  ghost predicate ChildrenOf(nodes: Folders, n: FolderTreeNode, children: seq<FolderTreeNode>) {
    && NoRepeats(children)
    && (forall c :: c in children ==> c in nodes && c.Parent == n)
    && (forall c :: c in nodes && c.Parent == n ==> c in children)
  }

  lemma KeyLast(p: Path, x: Text, q: Path)
    requires FoldPath(p + [x]) == q
    ensures q != [] && FoldPath(p) == q[..|q| - 1] && q[|q| - 1] == Fold(x)
  {
    FoldPathAppend(p, x);
  }

  /** What a node has from its parent. */
  lemma Up(nodes: Folders, root: FolderTreeNode, n: FolderTreeNode)
    requires Shape(nodes, root) && n in nodes
    ensures n == root <==> n.Parent == null
    ensures n == root <==> n.FileName == []
    ensures n != root ==>
              && Hangs(nodes, n) && |n.FileName| == |n.Parent.FileName| + 1
              && n.Key() == n.Parent.Key() + [Fold(n.text)] && n.Parent.Key() == n.Key()[..|n.FileName| - 1]
  {
    if n != root {
      assert Hangs(nodes, n);
      FoldPathAppend(n.Parent.FileName, n.text);
      KeyLast(n.Parent.FileName, n.text, n.Key());
    }
  }

  lemma SameNode(nodes: Folders, root: FolderTreeNode, m: FolderTreeNode, n: FolderTreeNode)
    requires Shape(nodes, root) && m in nodes && n in nodes && m.Key() == n.Key()
    ensures m == n
  {
  }

  /** The folder above another at a given depth. */
  lemma {:induction false} Ancestor(nodes: Folders, root: FolderTreeNode, m: FolderTreeNode, k: nat)
    returns (a: FolderTreeNode)
    requires Shape(nodes, root) && m in nodes && k <= |m.FileName|
    ensures a in nodes && a.FileName == m.FileName[..k] && a.Key() == m.Key()[..k]
    decreases |m.FileName|
  {
    if k == |m.FileName| {
      a := m;
    } else {
      Up(nodes, root, m);
      a := Ancestor(nodes, root, m.Parent, k);
      assert m.FileName[..k] == m.Parent.FileName[..k];
    }
  }

  /** The child of `n` on the way to a folder below it. */
  lemma ChildTowards(nodes: Folders, root: FolderTreeNode, n: FolderTreeNode, m: FolderTreeNode)
    returns (c: FolderTreeNode)
    requires Shape(nodes, root) && n in nodes && m in nodes && n.Key() < m.Key()
    ensures c in nodes && c.Parent == n && c.Key() <= m.Key()
  {
    var k := |n.FileName|;
    c := Ancestor(nodes, root, m, k + 1);
    Up(nodes, root, c);
    assert c.Parent.Key() == m.Key()[..k] == n.Key();
    SameNode(nodes, root, c.Parent, n);
  }

  /** Siblings have nothing below them in common. */
  lemma Siblings(nodes: Folders, root: FolderTreeNode, c: FolderTreeNode, d: FolderTreeNode, q: Path)
    requires Shape(nodes, root) && c in nodes && d in nodes && c.Parent == d.Parent != null
    requires c.Key() <= q && d.Key() <= q
    ensures c == d
  {
    Up(nodes, root, c);
    Up(nodes, root, d);
    assert c.Key() == q[..|c.Key()|] == d.Key();
    SameNode(nodes, root, c, d);
  }

  // ----- marks that go down -----

  /** All folders in a marked one are marked. */
  ghost predicate Closed(nodes: Folders, marked: Folders) {
    forall n :: n in nodes && n.Parent != null && n.Parent in marked ==> n in marked
  }

  lemma {:induction false} MarkedBelow(nodes: Folders, root: FolderTreeNode, marked: Folders, n: FolderTreeNode,
                                       m: FolderTreeNode)
    requires Shape(nodes, root) && Closed(nodes, marked) && n in nodes && m in nodes
    requires n in marked && n.Key() <= m.Key()
    ensures m in marked
    decreases |m.FileName|
  {
    if |m.FileName| > |n.FileName| {
      Up(nodes, root, m);
      assert n.Key() <= m.Parent.Key();
      MarkedBelow(nodes, root, marked, n, m.Parent);
    } else {
      SameNode(nodes, root, n, m);
    }
  }

  // ----- a new folder -----

  /** A new folder whose name no sibling has, not even in another case, keeps the shape. */
  lemma NewFolder(nodes: Folders, root: FolderTreeNode, c: FolderTreeNode)
    requires Shape(nodes, root) && c !in nodes && Hangs(nodes, c)
    requires forall d :: d in nodes && d.Parent == c.Parent ==> Fold(d.text) != Fold(c.text)
    ensures Shape(nodes + {c}, root)
  {
    forall m | m in nodes ensures m.Key() != c.Key() {
      NewName(nodes, root, c, m);
    }
    forall n | n in nodes + {c} && n != root ensures Hangs(nodes + {c}, n) {
      if n != c { assert Hangs(nodes, n); }
    }
  }

  /** Folders of the same name are in the same folder. */
  lemma SameName(nodes: Folders, root: FolderTreeNode, c: FolderTreeNode, m: FolderTreeNode)
    requires Shape(nodes, root) && Hangs(nodes, c) && m in nodes && m.Key() == c.Key()
    ensures m.Parent == c.Parent && Fold(m.text) == Fold(c.text)
  {
    Up(nodes, root, m);
    KeyLast(c.Parent.FileName, c.text, c.Key());
    KeyLast(m.Parent.FileName, m.text, c.Key());
    SameNode(nodes, root, m.Parent, c.Parent);
  }

  lemma NewName(nodes: Folders, root: FolderTreeNode, c: FolderTreeNode, m: FolderTreeNode)
    requires Shape(nodes, root) && Hangs(nodes, c) && m in nodes
    requires forall d :: d in nodes && d.Parent == c.Parent ==> Fold(d.text) != Fold(c.text)
    ensures m.Key() != c.Key()
  {
    if m.Key() == c.Key() {
      SameName(nodes, root, c, m);
    }
  }

  // ----- the way down -----

  /** On the way to an existing folder there is always a next one. */
  lemma NextStep(nodes: Folders, root: FolderTreeNode, parent: FolderTreeNode, node: FolderTreeNode, path: Path, k: nat)
    returns (c: FolderTreeNode)
    requires Shape(nodes, root) && parent in nodes && node in nodes && k < |path|
    requires parent.FileName == path && node.FileName == path[..k]
    ensures c in nodes && c.Parent == node && c.text == path[k] && c.FileName == path[..k + 1]
  {
    FoldPathPrefix(path, k);
    c := Ancestor(nodes, root, parent, k + 1);
    Up(nodes, root, c);
    assert c.FileName[..k] == c.Parent.FileName;
    assert path[..k + 1][..k] == path[..k];
    SameNode(nodes, root, c.Parent, node);
    assert c.FileName[k] == c.text;
  }

  // ----- the way up -----

  const TWO64: nat := 0x1_0000_0000_0000_0000

  /** Sizes are unsigned 64-bit numbers. */
  function Plus(a: nat, b: nat): nat {
    (a + b) % TWO64
  }

  type Sizes = map<FolderTreeNode, nat>

  /** The sizes after adding one to a folder and all folders above it. */
  function Grown(sizes: Sizes, node: FolderTreeNode, size: nat): Sizes {
    map m | m in sizes :: if m.FileName <= node.FileName then Plus(sizes[m], size) else sizes[m]
  }

  /** The folder is on the way up from `node`, and before `upper`. */
  predicate Passed(m: FolderTreeNode, node: FolderTreeNode, upper: FolderTreeNode?) {
    m.FileName <= node.FileName && (upper == null || |m.FileName| > |upper.FileName|)
  }

  lemma OneUp(nodes: Folders, root: FolderTreeNode, node: FolderTreeNode, upper: FolderTreeNode)
    requires Shape(nodes, root) && node in nodes && upper in nodes && upper.FileName <= node.FileName
    ensures upper.Parent != null ==> upper.Parent in nodes && upper.Parent.FileName <= node.FileName
    ensures upper.Parent != null ==> |upper.Parent.FileName| < |upper.FileName|
    ensures forall m :: m in nodes ==> (Passed(m, node, upper.Parent) <==> Passed(m, node, upper) || m == upper)
  {
    Up(nodes, root, upper);
    if upper != root {
      assert upper.Parent.FileName == upper.FileName[..|upper.Parent.FileName|];
    }
    forall m | m in nodes && m.FileName <= node.FileName && |m.FileName| == |upper.FileName| ensures m == upper {
      assert m.FileName == node.FileName[..|m.FileName|] == upper.FileName;
      SameNode(nodes, root, m, upper);
    }
  }
}
