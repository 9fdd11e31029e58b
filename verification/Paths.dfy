/** The names of folders as strings (`TreeHelper` in PackageEditor/FileSystemEditor.cs): when a name put together from
    its components is the same as the components joined by backslashes. */
module Paths {
  import opened Wrappers
  import opened Utf16
  import opened Sequences

  /** `FullPath`; the top folder has no name at all. */
  function FullPath(dir: Option<Text>, file: Text): Text {
    if dir.None? then file
    else if EndsWith(dir.value, [BACKSLASH]) || [BACKSLASH] <= file then dir.value + file
    else dir.value + [BACKSLASH] + file
  }

  function JoinAll(p: seq<Text>): Text {
    if p == [] then [] else Join(p, BACKSLASH)
  }

  /** The components joined, with a backslash at the end, and one before them if the first is empty. */
  function Padded(p: seq<Text>): Text {
    if p == [] then []
    else if NonEmpty(p) == [] then [BACKSLASH]
    else (if p[0] == [] then [BACKSLASH] else []) + Join(NonEmpty(p), BACKSLASH) + [BACKSLASH]
  }

  lemma PaddedNone()
    ensures Padded([]) == []
  {
  }

  lemma {:induction false} NonEmptyParts(p: seq<Text>)
    requires Free(p, BACKSLASH)
    ensures Free(NonEmpty(p), BACKSLASH)
    ensures forall i :: 0 <= i < |NonEmpty(p)| ==> NonEmpty(p)[i] != []
    ensures NonEmpty(p) == p <==> forall i :: 0 <= i < |p| ==> p[i] != []
    ensures |NonEmpty(p)| <= |p|
  {
    if p != [] {
      NonEmptyParts(p[1..]);
      assert forall i :: 0 <= i < |p[1..]| ==> p[1..][i] == p[i + 1];
      assert p == [p[0]] + p[1..];
      assert [p[0]][0] == p[0];
    }
  }

  /** The ends of joined components are those of the first and the last one. */
  lemma {:induction false} JoinEnds(p: seq<Text>)
    requires p != [] && Free(p, BACKSLASH) && forall i :: 0 <= i < |p| ==> p[i] != []
    ensures var s := Join(p, BACKSLASH); s != [] && s[0] != BACKSLASH && s[|s| - 1] != BACKSLASH
  {
    if |p| > 1 {
      JoinEnds(p[1..]);
    }
  }

  lemma JoinCons(x: Text, p: seq<Text>)
    requires p != []
    ensures Join([x] + p, BACKSLASH) == x + [BACKSLASH] + Join(p, BACKSLASH)
  {
    assert ([x] + p)[1..] == p;
  }

  lemma NotAtEnd(x: Text)
    requires BACKSLASH !in x
    ensures !EndsWith(x, [BACKSLASH])
  {
    if x != [] { assert x[|x| - 1..][0] == x[|x| - 1]; }
  }

  /** One component more in front. */
  lemma PaddedMore(x: Text, p: seq<Text>)
    requires Free([x] + p, BACKSLASH)
    ensures FullPath(Some(x), Padded(p)) == Padded([x] + p)
  {
    hide NonEmpty, Padded, FullPath, EndsWith, Join;
    assert ([x] + p)[1..] == p && ([x] + p)[0] == x;
    NotAtEnd(x);
    assert forall i :: 0 <= i < |p| ==> p[i] == ([x] + p)[i + 1];
    NonEmptyParts(p);
    if NonEmpty(p) == [] {
      PaddedAlone(x, p);
    } else {
      NoneOfNone();
      PaddedJoined(x, p);
    }
  }

  lemma NoneOfNone()
    ensures NonEmpty<Unit>([]) == []
  {
  }

  lemma PaddedAlone(x: Text, p: seq<Text>)
    requires NonEmpty(p) == [] && ([x] + p)[1..] == p && ([x] + p)[0] == x && !EndsWith(x, [BACKSLASH])
    ensures FullPath(Some(x), Padded(p)) == Padded([x] + p)
  {
    Around(x);
    assert x + [BACKSLASH] + [] == x + [BACKSLASH];
    assert x == [] ==> x + [BACKSLASH] == [BACKSLASH];
    assert NonEmpty([x] + p) == if x == [] then [] else [x];
  }

  lemma PaddedJoined(x: Text, p: seq<Text>)
    requires p != [] && NonEmpty(p) != [] && Free(p, BACKSLASH) && Free(NonEmpty(p), BACKSLASH)
    requires !EndsWith(x, [BACKSLASH]) && ([x] + p)[1..] == p && ([x] + p)[0] == x
    requires forall i :: 0 <= i < |NonEmpty(p)| ==> NonEmpty(p)[i] != []
    ensures FullPath(Some(x), Padded(p)) == Padded([x] + p)
  {
    var r := NonEmpty(p);
    var joined := Join(r, BACKSLASH);
    JoinEnds(r);
    JoinCons(x, r);
    Around(joined);
    Around(x + [BACKSLASH] + joined);
    assert NonEmpty([x] + p) == if x == [] then r else [x] + r by {
      assert [] + r == r;
    }
    if p[0] == [] {
      PaddedBehind(x, joined);
    } else {
      PaddedBefore(x, joined);
    }
  }

  lemma Around(s: Text)
    ensures [] + s + [BACKSLASH] == s + [BACKSLASH]
  {
  }

  lemma PaddedBehind(x: Text, joined: Text)
    ensures var padded := [BACKSLASH] + joined + [BACKSLASH];
            && FullPath(Some(x), padded) == x + padded
            && x + padded == x + [BACKSLASH] + joined + [BACKSLASH]
            && (x == [] ==> x + padded == padded)
  {
  }

  lemma PaddedBefore(x: Text, joined: Text)
    requires joined != [] && joined[0] != BACKSLASH && !EndsWith(x, [BACKSLASH])
    ensures FullPath(Some(x), joined + [BACKSLASH]) == x + [BACKSLASH] + joined + [BACKSLASH]
    ensures x == [] ==> x + [BACKSLASH] + joined + [BACKSLASH] == [BACKSLASH] + joined + [BACKSLASH]
  {
    assert (joined + [BACKSLASH])[0] == joined[0];
    assert x + [BACKSLASH] + (joined + [BACKSLASH]) == x + [BACKSLASH] + joined + [BACKSLASH];
  }

  /** `Trim` takes the padding away. */
  lemma TrimPadded(p: seq<Text>)
    requires Free(p, BACKSLASH)
    ensures Trim(Padded(p), {BACKSLASH}) == JoinAll(NonEmpty(p))
  {
    NonEmptyParts(p);
    var r := NonEmpty(p);
    if r == [] {
      assert TrimStart([BACKSLASH], {BACKSLASH}) == [] by { assert [BACKSLASH][1..] == []; }
    } else {
      JoinEnds(r);
      TrimOne(Join(r, BACKSLASH));
    }
  }

  lemma TrimOne(s: Text)
    requires s != [] && s[0] != BACKSLASH && s[|s| - 1] != BACKSLASH
    ensures Trim(s + [BACKSLASH], {BACKSLASH}) == s
    ensures Trim([BACKSLASH] + s + [BACKSLASH], {BACKSLASH}) == s
    ensures [] + s + [BACKSLASH] == s + [BACKSLASH]
  {
    var t := s + [BACKSLASH];
    assert t[0] == s[0] && t[..|t| - 1] == s;
    assert TrimEnd(s, {BACKSLASH}) == s;
    assert TrimEnd(t, {BACKSLASH}) == s;
    assert [BACKSLASH] + s + [BACKSLASH] == [BACKSLASH] + t && ([BACKSLASH] + t)[1..] == t;
    assert TrimStart(t, {BACKSLASH}) == t;
    assert TrimStart([BACKSLASH] + t, {BACKSLASH}) == t;
  }

  /** The walk up from a node has the components of its name from `k` on; one step more. */
  lemma PaddedUp(p: seq<Text>, k: nat)
    requires Free(p, BACKSLASH) && k < |p|
    ensures FullPath(Some(p[k]), Padded(p[k + 1..])) == Padded(p[k..])
  {
    assert [p[k]] + p[k + 1..] == p[k..];
    assert Free(p[k..], BACKSLASH);
    PaddedMore(p[k], p[k + 1..]);
  }

  /** The name of a node is its listed name if and only if the listed name has no empty component, or is empty. */
  lemma NameKept(texts: seq<Text>)
    requires texts != [] && Free(texts, BACKSLASH)
    ensures JoinAll(NonEmpty(texts)) == Join(texts, BACKSLASH) <==>
            texts == [[]] || forall i :: 0 <= i < |texts| ==> texts[i] != []
  {
    NonEmptyParts(texts);
    SplitJoin(texts, BACKSLASH);
    if NonEmpty(texts) != [] {
      SplitJoin(NonEmpty(texts), BACKSLASH);
    } else {
      assert Split<Unit>([], BACKSLASH) == [[]];
    }
  }

  lemma JoinedBetween(folder: seq<Text>, name: Text)
    requires folder != [] && Free(folder, BACKSLASH) && BACKSLASH !in name && name != []
    requires forall i :: 0 <= i < |folder| ==> folder[i] != []
    ensures FullPath(Some(Join(folder, BACKSLASH)), name) == Join(folder + [name], BACKSLASH)
  {
    hide Join, FullPath;
    JoinEnds(folder);
    JoinLast(folder, name);
    PathBetween(Join(folder, BACKSLASH), name);
  }

  lemma FreeWith(folder: seq<Text>, name: Text)
    requires Free(folder, BACKSLASH) && BACKSLASH !in name
    ensures Free(folder + [name], BACKSLASH)
  {
  }

  /** The name of a new entry is that of its folder and one component more. */
  lemma NameOfChild(folder: seq<Text>, name: Text)
    requires Free(folder, BACKSLASH) && BACKSLASH !in name && name != []
    requires forall i :: 0 <= i < |folder| ==> folder[i] != []
    ensures FullPath(if folder == [] then None else Some(Join(folder, BACKSLASH)), name) ==
            Join(folder + [name], BACKSLASH)
    ensures Split(Join(folder + [name], BACKSLASH), BACKSLASH) == folder + [name]
  {
    hide Join, Split, FullPath, Free;
    FreeWith(folder, name);
    SplitJoin(folder + [name], BACKSLASH);
    if folder == [] {
      assert folder + [name] == [name];
      JoinOne(name);
      PathAtTop(name);
    } else {
      JoinedBetween(folder, name);
    }
  }

  lemma PathBetween(s: Text, name: Text)
    requires s != [] && s[|s| - 1] != BACKSLASH && name != [] && BACKSLASH !in name
    ensures FullPath(Some(s), name) == s + [BACKSLASH] + name
  {
    assert s[|s| - 1..] == [s[|s| - 1]];
    assert name[0] in name;
  }

  lemma PathAtTop(name: Text)
    ensures FullPath(None, name) == name
  {
  }

  lemma JoinOne(name: Text)
    ensures Join([name], BACKSLASH) == name
  {
  }

  lemma {:induction false} JoinLast(folder: seq<Text>, name: Text)
    requires folder != []
    ensures Join(folder + [name], BACKSLASH) == Join(folder, BACKSLASH) + [BACKSLASH] + name
  {
    assert (folder + [name])[1..] == folder[1..] + [name];
    if |folder| > 1 {
      JoinLast(folder[1..], name);
    }
  }
}
