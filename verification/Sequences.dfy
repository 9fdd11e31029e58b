/** The string operations of the .NET library that the modelled code relies on, over sequences of any element type:
    ordinal `Replace`, `Split` with its partner `Join`, and `Trim` with an explicit set of characters. */
module Sequences {

  /** `String.Replace`: every occurrence of `pat`, scanning left to right without overlap, becomes `sub`. */
  function Replace<T(==)>(s: seq<T>, pat: seq<T>, sub: seq<T>): seq<T>
    requires pat != []
  {
    if s == [] then
      []
    else if pat <= s then
      sub + Replace(s[|pat|..], pat, sub)
    else
      [s[0]] + Replace(s[1..], pat, sub)
  }

  /** `String.Split` with one separator: an empty string gives one empty part. */
  function Split<T(==)>(s: seq<T>, sep: T): (parts: seq<seq<T>>)
    ensures parts != []
  {
    if s == [] then
      [[]]
    else
      var parts := Split(s[1..], sep);
      if s[0] == sep then [[]] + parts else [[s[0]] + parts[0]] + parts[1..]
  }

  function Join<T>(parts: seq<seq<T>>, sep: T): seq<T>
    requires parts != []
  {
    if |parts| == 1 then parts[0] else parts[0] + [sep] + Join(parts[1..], sep)
  }

  /** The parts that are not empty, in order. */
  function NonEmpty<T(==)>(parts: seq<seq<T>>): seq<seq<T>> {
    if parts == [] then []
    else (if parts[0] == [] then [] else [parts[0]]) + NonEmpty(parts[1..])
  }

  predicate Free<T(==)>(parts: seq<seq<T>>, sep: T) {
    forall i :: 0 <= i < |parts| ==> sep !in parts[i]
  }

  /** The parts of a split contain no separator, and joining them gives the string back. */
  lemma {:induction false} JoinSplit<T>(s: seq<T>, sep: T)
    ensures Free(Split(s, sep), sep)
    ensures Join(Split(s, sep), sep) == s
  {
    if s != [] {
      JoinSplit(s[1..], sep);
      var rest := Split(s[1..], sep);
      var parts := Split(s, sep);
      if s[0] == sep {
        assert parts[1..] == rest;
      } else if |rest| > 1 {
        assert parts[1..] == rest[1..];
      }
    }
  }

  /** A part without separators is split off whole. */
  lemma {:induction false} SplitHead<T>(part: seq<T>, sep: T, rest: seq<T>)
    requires sep !in part
    ensures Split(part, sep) == [part]
    ensures Split(part + [sep] + rest, sep) == [part] + Split(rest, sep)
  {
    if part == [] {
      assert part + [sep] + rest == [sep] + rest;
      assert ([sep] + rest)[1..] == rest;
    } else {
      SplitHead(part[1..], sep, rest);
      assert [part[0]] + part[1..] == part;
      assert (part + [sep] + rest)[1..] == part[1..] + [sep] + rest;
    }
  }

  /** Splitting inverts joining exactly when no part contains the separator. */
  lemma {:induction false} SplitJoin<T>(parts: seq<seq<T>>, sep: T)
    requires parts != []
    ensures Split(Join(parts, sep), sep) == parts <==> Free(parts, sep)
  {
    JoinSplit(Join(parts, sep), sep);
    if Free(parts, sep) {
      SplitJoinFree(parts, sep);
    }
  }

  lemma {:induction false} SplitJoinFree<T>(parts: seq<seq<T>>, sep: T)
    requires parts != [] && Free(parts, sep)
    ensures Split(Join(parts, sep), sep) == parts
  {
    if |parts| == 1 {
      SplitHead(parts[0], sep, []);
    } else {
      assert Free(parts[1..], sep);
      SplitJoinFree(parts[1..], sep);
      SplitHead(parts[0], sep, Join(parts[1..], sep));
    }
  }

  /** `String.Trim(params char[])`, one end at a time. */
  function TrimStart<T(==)>(s: seq<T>, chars: set<T>): (r: seq<T>)
    ensures r == [] || r[0] !in chars
  {
    if s != [] && s[0] in chars then TrimStart(s[1..], chars) else s
  }

  function TrimEnd<T(==)>(s: seq<T>, chars: set<T>): (r: seq<T>)
    ensures r <= s
    ensures r == [] || r[|r| - 1] !in chars
  {
    if s != [] && s[|s| - 1] in chars then TrimEnd(s[..|s| - 1], chars) else s
  }

  function Trim<T(==)>(s: seq<T>, chars: set<T>): seq<T> {
    TrimEnd(TrimStart(s, chars), chars)
  }

  predicate EndsWith<T(==)>(s: seq<T>, tail: seq<T>) {
    |tail| <= |s| && s[|s| - |tail|..] == tail
  }

  lemma Associate<T>(a: seq<T>, b: seq<T>, c: seq<T>)
    ensures a + b + c == a + (b + c)
  {
  }

  /** The rest of a concatenation whose first part is not empty. */
  lemma TailOfSum<T>(a: seq<T>, b: seq<T>)
    requires a != []
    ensures (a + b)[0] == a[0] && (a + b)[1..] == a[1..] + b
  {
  }

  lemma HeadTail<T>(s: seq<T>)
    requires s != []
    ensures s == [s[0]] + s[1..]
  {
  }
}
