/** Lines of a text file, as `StreamWriter.WriteLine` ends them and `StreamReader.ReadLine` finds them again. */
module TextLines {
  import opened Utf16

  const CR: Unit := 13
  const LF: Unit := 10
  const CRLF: Text := [CR, LF]
  const SPACE: Unit := ' ' as int

  predicate OneLine(s: Text) {
    CR !in s && LF !in s
  }

  predicate AllOneLine(ss: seq<Text>) {
    forall i :: 0 <= i < |ss| ==> OneLine(ss[i])
  }

  /** The position of the first line break, or the end of the text. */
  function LineEnd(s: Text): (n: nat)
    ensures n <= |s| && OneLine(s[..n])
    ensures n < |s| ==> s[n] == CR || s[n] == LF
  {
    if s == [] || s[0] == CR || s[0] == LF then
      0
    else
      var n := LineEnd(s[1..]);
      assert s[..n + 1] == [s[0]] + s[1..][..n];
      n + 1
  }

  function AfterBreak(s: Text, n: nat): (rest: Text)
    requires n <= |s|
    ensures n < |s| ==> |rest| < |s|
  {
    if n == |s| then []
    else if s[n] == CR && n + 1 < |s| && s[n + 1] == LF then s[n + 2..]
    else s[n + 1..]
  }

  /** What successive calls of `ReadLine` return: CR, LF and CR LF all end a line. */
  function ReadLines(s: Text): (lines: seq<Text>)
    ensures AllOneLine(lines)
    decreases |s|
  {
    if s == [] then
      []
    else
      var n := LineEnd(s);
      [s[..n]] + if n == |s| then [] else ReadLines(AfterBreak(s, n))
  }

  lemma {:induction false} LineEndAt(line: Text, rest: Text)
    requires OneLine(line)
    requires rest != [] && rest[0] == CR
    ensures LineEnd(line + rest) == |line|
  {
    if line == [] {
      assert line + rest == rest;
    } else {
      LineEndAt(line[1..], rest);
      assert (line + rest)[1..] == line[1..] + rest;
    }
  }

  /** A written line is read back whole. */
  lemma WriteThenRead(line: Text, rest: Text)
    requires OneLine(line)
    ensures ReadLines(line + CRLF + rest) == [line] + ReadLines(rest)
  {
    var s := line + CRLF + rest;
    assert s == line + (CRLF + rest);
    LineEndAt(line, CRLF + rest);
    assert s[..|line|] == line;
    assert AfterBreak(s, |line|) == rest;
  }

  /** Every line on its own line. */
  function WriteLines(lines: seq<Text>): Text {
    if lines == [] then [] else lines[0] + CRLF + WriteLines(lines[1..])
  }

  lemma {:induction false} WriteLinesAppend(a: seq<Text>, b: seq<Text>)
    ensures WriteLines(a + b) == WriteLines(a) + WriteLines(b)
  {
    if a == [] {
      assert a + b == b;
    } else {
      WriteLinesAppend(a[1..], b);
      assert (a + b)[1..] == a[1..] + b;
    }
  }

  /** Reading inverts writing for lines without line breaks. */
  lemma {:induction false} WriteReadLines(lines: seq<Text>)
    requires AllOneLine(lines)
    ensures ReadLines(WriteLines(lines)) == lines
  {
    if lines != [] {
      assert AllOneLine(lines[1..]);
      WriteReadLines(lines[1..]);
      WriteThenRead(lines[0], WriteLines(lines[1..]));
    }
  }

  /** The characters `String.Trim()` removes. */
  const WHITE_SPACE: set<Unit> :=
    {9, 10, 11, 12, 13, 0x20, 0x85, 0xA0, 0x1680, 0x2000, 0x2001, 0x2002, 0x2003, 0x2004, 0x2005, 0x2006, 0x2007,
     0x2008, 0x2009, 0x200A, 0x2028, 0x2029, 0x202F, 0x205F, 0x3000}

  /** Lines come back from a file exactly when none of them has a line break inside. */
  lemma LinesKept(lines: seq<Text>)
    ensures ReadLines(WriteLines(lines)) == lines <==> AllOneLine(lines)
  {
    if AllOneLine(lines) {
      WriteReadLines(lines);
    }
  }
}
