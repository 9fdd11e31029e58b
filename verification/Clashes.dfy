/** Edits after which a live file clashes and is lost when the tree is saved (PackageEditor/FileSystemEditor.cs). */
module Clashes {
  import opened Utf16
  import opened CaseFold
  import opened FileLists
  import opened FolderTree
  import opened SaveTree
  import opened EditTree
  import opened DiskTree
  import opened DiskAdd

  /** The name of a deleted folder in another case only. */
  predicate OtherCase(d: FolderTreeNode, name: Text) {
    Fold(name) == Fold(d.text) && name != d.text
  }

  lemma NotOccupied(v: View, d: FolderTreeNode, name: Text)
    requires Good(v) && d in v.nodes && d != v.root && OtherCase(d, name)
    ensures d.Parent != null && d.Parent in v.nodes && !Occupied(v.nodes, d.Parent, d.Parent.FileName + [name])
  {
    Up(v.nodes, v.root, d);
    var path := d.Parent.FileName + [name];
    assert path[|path| - 1] == name;
    forall c | c in v.nodes && c.Parent == d.Parent ensures c.text != name {
      if c.text == name { SameText(v, d.Parent, c, d); }
    }
  }

  /** A file called like a deleted folder of the same folder, but for the case, is added, live, and lost: saving
      deletes it with the folder. */
  lemma FolderTakesFile(v: View, d: FolderTreeNode, file: Disk, m: Contents, m': Contents)
    requires Good(v) && Wired(v) && d in v.gone && d != v.root && d.Parent != v.root && d.Parent !in v.gone
    requires file.File? && file.source != [] && OtherCase(d, file.name)
    requires d.Parent in v.lists
    requires var w := FilePut(v, d.Parent, FileOf(d.Parent, file)); Saved(w, Saveable(w), m, m')
    ensures var w := FilePut(v, d.Parent, FileOf(d.Parent, file));
            && Step(v, w, KeyOf(d.Parent.Key(), file)) && LiveName(w, d.Key()) && Clash(w, d.Key()) && d.Key() !in m'
  {
    hide Shape, Closed, Wired, Put, Step, FilesWith, Saved, SavedAt;
    var parent, f := d.Parent, FileOf(d.Parent, file);
    var w := FilePut(v, parent, f);
    Up(v.nodes, v.root, d);
    Up(v.nodes, v.root, parent);
    FoldPathAppend(parent.FileName, file.name);
    assert f.Key() == d.Key();
    NotOccupied(v, d, file.name);
    FileIsPut(v, parent, f, file);
    assert Proper(v.lists[parent], parent.FileName) && [f][0] == f;
    FilesWithKeeps(v.lists[parent], f, false, parent.FileName);
    assert w.nodes == v.nodes && w.root == v.root && w.gone == v.gone;
    assert parent in Saveable(w) && w.lists[parent] == FilesWith(v.lists[parent], f, false);
    assert d in Saveable(w) && GoneAt(w, Saveable(w), d.Key());
    assert SavedAt(w, Saveable(w), m, m', d.Key()) by { Here(w, Saveable(w), m, m', d.Key()); }
    GoneIsLost(w, Saveable(w), m, m', d.Key());
  }

  lemma Here(v: View, scope: Folders, m: Contents, m': Contents, q: Path)
    requires Saved(v, scope, m, m')
    ensures SavedAt(v, scope, m, m', q)
  {
  }

  lemma GoneIsLost(v: View, scope: Folders, m: Contents, m': Contents, q: Path)
    requires SavedAt(v, scope, m, m', q) && GoneAt(v, scope, q)
    ensures q !in m'
  {
  }

  /** A folder is added again that has a file called like one of its folders, but for the case: its files are then
      removed ones, and saving takes the files of the package in that inner folder away, although they are live. */
  lemma FileTakesFolder(v: View, p: FolderTreeNode, c: FolderTreeNode, q: Path, m: Contents, m': Contents)
    requires Good(v) && Wired(v) && p in v.nodes && p != v.root && p.Parent !in v.gone
    requires c in v.nodes && c.Parent == p && c !in v.gone && LiveAt(v.lists[p], c.Key())
    requires LiveAt(v.lists[c], q) && !AddedAt(v.lists[c], q)
    requires var w := Entered(v, p); Saved(w, Saveable(w), m, m')
    ensures var w := Entered(v, p);
            && Step(v, w, p.Key()) && LiveName(w, q) && Clash(w, q) && q !in m'
  {
    hide Shape, Closed, Wired, Midway, Step, Saved, SavedAt, Proper;
    var w := Entered(v, p);
    Up(v.nodes, v.root, p);
    Up(v.nodes, v.root, c);
    EnteredMidway(v, p, []);
    StepGood(v, w, p.Key());
    LiveInFolder(v, c, q);
    assert c != p && w.lists[c] == v.lists[c] && c in Saveable(w) && c !in w.gone;
    LiveHas(v.lists[c], q);
    assert EntryIn(w, Saveable(w), c, q);
    LiveNameIn(w, q, c);
    DeadAfter(v.lists[p], c.Key());
    assert w.lists[p] == AllDeleted(v.lists[p]) && p in Saveable(w) && p !in w.gone;
    assert q[..|q| - 1] == c.Key();
    assert Shadowed(w.lists[p], q);
    assert ShadowIn(w, Saveable(w), q);
    assert |q| >= 2;
    SavedAny(w, m, m', q);
  }

  lemma StepGood(v: View, w: View, top: Path)
    requires Step(v, w, top)
    ensures Good(w)
  {
  }

  lemma DeadAfter(files: Files, q: Path)
    requires LiveAt(files, q)
    ensures DeadAt(AllDeleted(files), q)
  {
    var i :| 0 <= i < |files| && LiveEntryAt(files, i, q);
    assert EntryAt(AllDeleted(files), i, q);
  }
}
