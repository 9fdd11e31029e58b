/** Editing the flags of several files at once (PackageEditor/FilesEditing/FileProperties.cs): a check box for each
    flag shows whether all, none or some of the files have it, and accepting the dialog writes the boxes back to every
    file. A flag word is the set of its bits, so that `&`, `|` and `& ~` are intersection, union and difference. */
module FileFlags {
  type Bit = b: nat | b < 32
  type Word = set<Bit>

  // `VIRT_FILE_FLAGS` in CameyoSDK.NET/PackageAPI.cs
  const IS_FILE: Bit := 0
  const DELETED: Bit := 1
  const DEPLOY_UPON_PRELOAD: Bit := 3
  const DISCONNECTED: Bit := 4
  const PKG_FILE: Bit := 5
  const DEPLOY_RAM_MODE: Bit := 9
  const ALL_FLAGS: Word := {IS_FILE, DELETED, DEPLOY_UPON_PRELOAD, DISCONNECTED, PKG_FILE, DEPLOY_RAM_MODE}
  const NO_FLAGS: Word := {}

  datatype CheckState = Checked | Unchecked | Indeterminate

  /** The check boxes of the dialog. */
  datatype Boxes = Boxes(deployed: CheckState, deployedRam: CheckState, deleted: CheckState, isFile: CheckState,
                         pkgFile: CheckState, disconnected: CheckState)
  {
    function Of(flag: Bit): CheckState
      requires flag in ALL_FLAGS
    {
      if flag == DEPLOY_UPON_PRELOAD then deployed
      else if flag == DEPLOY_RAM_MODE then deployedRam
      else if flag == DELETED then deleted
      else if flag == IS_FILE then isFile
      else if flag == PKG_FILE then pkgFile
      else disconnected
    }
  }

  class FileData {
    var FileFlags: Word

    constructor (flags: Word)
      ensures FileFlags == flags
    {
      FileFlags := flags;
    }
  }

  /** The flags of some files. */
  function FlagsOf(files: seq<FileData>): (r: seq<Word>)
    reads files
    ensures |r| == |files| && forall i :: 0 <= i < |files| ==> r[i] == files[i].FileFlags
  {
    seq(|files|, i requires 0 <= i < |files| reads files => files[i].FileFlags)
  }

  predicate AllHave(words: seq<Word>, flag: Bit) {
    forall i :: 0 <= i < |words| ==> flag in words[i]
  }

  predicate NoneHas(words: seq<Word>, flag: Bit) {
    forall i :: 0 <= i < |words| ==> flag !in words[i]
  }

  /** What the box of a flag has to show. */
  function StateOf(words: seq<Word>, flag: Bit): CheckState {
    if AllHave(words, flag) then Checked else if NoneHas(words, flag) then Unchecked else Indeterminate
  }

  // ----- opening the dialog -----

  function GetCheckedState(flag: Bit, min: Word, max: Word): CheckState {
    if min * {flag} == max * {flag} then
      if min * {flag} == {flag} then Checked else Unchecked
    else
      Indeterminate
  }

  /** The loop over the files: the flags that all have, and those that some have. */
  method MinMax(files: seq<FileData>) returns (min: Word, max: Word)
    ensures forall flag: Bit :: flag in min <==> flag in ALL_FLAGS && AllHave(FlagsOf(files), flag)
    ensures forall flag: Bit :: flag in max <==> !NoneHas(FlagsOf(files), flag)
  {
    min, max := ALL_FLAGS, NO_FLAGS;
    ghost var words := FlagsOf(files);
    for i := 0 to |files|
      invariant forall flag: Bit :: flag in min <==> flag in ALL_FLAGS && AllHave(words[..i], flag)
      invariant forall flag: Bit :: flag in max <==> !NoneHas(words[..i], flag)
    {
      forall flag: Bit
        ensures AllHave(words[..i + 1], flag) <==> AllHave(words[..i], flag) && flag in words[i]
        ensures NoneHas(words[..i + 1], flag) <==> NoneHas(words[..i], flag) && flag !in words[i]
      {
        OneMore(words, i, flag);
      }
      min := min * files[i].FileFlags;
      max := max + files[i].FileFlags;
    }
    assert words[..|files|] == words;
  }

  lemma OneMore(words: seq<Word>, i: nat, flag: Bit)
    requires i < |words|
    ensures AllHave(words[..i + 1], flag) <==> AllHave(words[..i], flag) && flag in words[i]
    ensures NoneHas(words[..i + 1], flag) <==> NoneHas(words[..i], flag) && flag !in words[i]
  {
    var before, more := words[..i], words[..i + 1];
    assert more[i] == words[i] && forall k :: 0 <= k < i ==> more[k] == before[k];
  }

  lemma StateFromMasks(words: seq<Word>, flag: Bit, min: Word, max: Word)
    requires words != [] && flag in ALL_FLAGS
    requires flag in min <==> AllHave(words, flag)
    requires flag in max <==> !NoneHas(words, flag)
    ensures GetCheckedState(flag, min, max) == StateOf(words, flag)
  {
    assert flag in min * {flag} <==> flag in min;
    assert flag in max * {flag} <==> flag in max;
    assert flag in min <==> min * {flag} == {flag};
    assert flag !in min <==> min * {flag} == {};
    assert flag !in max <==> max * {flag} == {};
    assert flag in max <==> max * {flag} == {flag};
    assert AllHave(words, flag) ==> flag in words[0];
  }

  /** The boxes when the dialog opens. */
  method OpenBoxes(files: seq<FileData>) returns (boxes: Boxes)
    requires files != []
    ensures forall flag: Bit :: flag in ALL_FLAGS ==> boxes.Of(flag) == StateOf(FlagsOf(files), flag)
    ensures boxes.isFile == StateOf(FlagsOf(files), 0) && boxes.deleted == StateOf(FlagsOf(files), 1)
    ensures boxes.deployed == StateOf(FlagsOf(files), 3) && boxes.disconnected == StateOf(FlagsOf(files), 4)
    ensures boxes.pkgFile == StateOf(FlagsOf(files), 5) && boxes.deployedRam == StateOf(FlagsOf(files), 9)
  {
    var min, max := MinMax(files);
    boxes := Boxes(
      GetCheckedState(DEPLOY_UPON_PRELOAD, min, max), GetCheckedState(DEPLOY_RAM_MODE, min, max),
      GetCheckedState(DELETED, min, max), GetCheckedState(IS_FILE, min, max),
      GetCheckedState(PKG_FILE, min, max), GetCheckedState(DISCONNECTED, min, max));
    forall flag: Bit | flag in ALL_FLAGS ensures boxes.Of(flag) == StateOf(FlagsOf(files), flag) {
      StateFromMasks(FlagsOf(files), flag, min, max);
    }
  }

  // ----- accepting it -----

  /** What becomes of one flag word. */
  function Edited(boxes: Boxes, word: Word): Word {
    set flag: Bit | flag in ALL_FLAGS &&
      (boxes.Of(flag).Checked? || (boxes.Of(flag).Indeterminate? && flag in word)) :: flag
  }

  /** The flags the boxes set, and the flags they do not clear. */
  method Masks(boxes: Boxes) returns (min: Word, max: Word)
    ensures forall flag: Bit :: flag in min <==> flag in ALL_FLAGS && boxes.Of(flag).Checked?
    ensures forall flag: Bit :: flag in max <==> flag in ALL_FLAGS && !boxes.Of(flag).Unchecked?
  {
    min, max := NO_FLAGS, ALL_FLAGS;
    if boxes.deployed == Checked { min := min + {DEPLOY_UPON_PRELOAD}; }
    if boxes.deployed == Unchecked { max := max - {DEPLOY_UPON_PRELOAD}; }
    if boxes.deployedRam == Checked { min := min + {DEPLOY_RAM_MODE}; }
    if boxes.deployedRam == Unchecked { max := max - {DEPLOY_RAM_MODE}; }
    if boxes.deleted == Checked { min := min + {DELETED}; }
    if boxes.deleted == Unchecked { max := max - {DELETED}; }
    if boxes.isFile == Checked { min := min + {IS_FILE}; }
    if boxes.isFile == Unchecked { max := max - {IS_FILE}; }
    if boxes.pkgFile == Checked { min := min + {PKG_FILE}; }
    if boxes.pkgFile == Unchecked { max := max - {PKG_FILE}; }
    if boxes.disconnected == Checked { min := min + {DISCONNECTED}; }
    if boxes.disconnected == Unchecked { max := max - {DISCONNECTED}; }
  }

  /** Accepting the dialog, also when a file is listed twice. */
  method Accept(files: seq<FileData>, boxes: Boxes)
    modifies files
    ensures forall f :: f in files ==> f.FileFlags == Edited(boxes, old(f.FileFlags))
  {
    var min, max := Masks(boxes);
    for i := 0 to |files|
      invariant forall f :: f in files ==>
                  f.FileFlags == old(f.FileFlags) || f.FileFlags == Edited(boxes, old(f.FileFlags))
      invariant forall f :: f in files[..i] ==> f.FileFlags == Edited(boxes, old(f.FileFlags))
    {
      var flags := files[i].FileFlags;
      flags := flags + min;
      flags := flags * max;
      assert flags == Edited(boxes, files[i].FileFlags);
      EditedTwice(boxes, old(files[i].FileFlags));
      files[i].FileFlags := flags;
      assert files[..i + 1] == files[..i] + [files[i]];
    }
  }

  lemma EditedTwice(boxes: Boxes, word: Word)
    ensures Edited(boxes, Edited(boxes, word)) == Edited(boxes, word)
  {
  }

  function EditedAll(boxes: Boxes, words: seq<Word>): (r: seq<Word>)
    ensures |r| == |words| && forall i :: 0 <= i < |words| ==> r[i] == Edited(boxes, words[i])
  {
    seq(|words|, i requires 0 <= i < |words| => Edited(boxes, words[i]))
  }

  /** Accepting the boxes as they were opened leaves a file alone exactly when its word has no bits beside the flags
      of the dialog; any such bits are lost. */
  lemma UnchangedBoxes(boxes: Boxes, words: seq<Word>, i: nat)
    requires i < |words| && forall flag: Bit :: flag in ALL_FLAGS ==> boxes.Of(flag) == StateOf(words, flag)
    ensures Edited(boxes, words[i]) == words[i] * ALL_FLAGS
    ensures Edited(boxes, words[i]) == words[i] <==> words[i] <= ALL_FLAGS
  {
    forall flag: Bit
      ensures flag in Edited(boxes, words[i]) <==> flag in words[i] * ALL_FLAGS
    {
      if flag in ALL_FLAGS {
        assert AllHave(words, flag) ==> flag in words[i];
        assert NoneHas(words, flag) ==> flag !in words[i];
      }
    }
    assert Edited(boxes, words[i]) == words[i] * ALL_FLAGS;
  }

  /** A flag that a box decides on: set, cleared, or as it was. */
  predicate Decided(state: CheckState, before: bool, after: bool) {
    after == if state.Checked? then true else if state.Unchecked? then false else before
  }

  /** Which box decides on which bit of the word. */
  lemma BoxesAreBits(boxes: Boxes, word: Word)
    ensures Decided(boxes.isFile, 0 in word, 0 in Edited(boxes, word))
    ensures Decided(boxes.deleted, 1 in word, 1 in Edited(boxes, word))
    ensures Decided(boxes.deployed, 3 in word, 3 in Edited(boxes, word))
    ensures Decided(boxes.disconnected, 4 in word, 4 in Edited(boxes, word))
    ensures Decided(boxes.pkgFile, 5 in word, 5 in Edited(boxes, word))
    ensures Decided(boxes.deployedRam, 9 in word, 9 in Edited(boxes, word))
    ensures forall flag: Bit :: flag in Edited(boxes, word) ==> flag in {0, 1, 3, 4, 5, 9}
  {
  }

  /** Opening the dialog again shows every box that was checked or unchecked as it was set, and a box that was left
      undecided as it was before. */
  lemma ShownAgain(boxes: Boxes, words: seq<Word>, flag: Bit)
    requires words != [] && flag in ALL_FLAGS
    ensures StateOf(EditedAll(boxes, words), flag) ==
            if boxes.Of(flag).Indeterminate? then StateOf(words, flag) else boxes.Of(flag)
  {
    var edited := EditedAll(boxes, words);
    assert forall i :: 0 <= i < |words| ==>
      (flag in edited[i] <==> boxes.Of(flag).Checked? || (boxes.Of(flag).Indeterminate? && flag in words[i]));
    assert edited[0] == Edited(boxes, words[0]);
  }
}
