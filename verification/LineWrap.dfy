/** Long hex values are broken into continued lines by the writer (`RegFile.ByteArrayFormatString`) and joined again by
    the reader (the `more` loop of `RegFile.readKey`). */
module LineWrap {
  import opened Wrappers
  import opened Utf16
  import opened TextLines
  import opened Sequences
  import HexComma

  const CONTINUATION: Text := [BACKSLASH, CR, LF, SPACE, SPACE]
  const INDENT: Text := [SPACE, SPACE]

  /** Characters on each line after the first, without the indent and the backslash. */
  const NEXT_LENGTH := 75
  const COLUMNS := 80

  /** Integer division of C#: it truncates towards zero. */
  function TruncDiv(a: int, b: int): int
    requires b > 0
  {
    if a >= 0 then a / b else -(-a / b)
  }

  /** Characters of the value that stay on the first line, after a prefix of the given length. */
  function FirstLength(prefixLength: nat): (n: nat)
    ensures n >= 3 && n % 3 == 0
    ensures prefixLength <= 76 ==> 76 < prefixLength + n <= 79
    ensures prefixLength > 76 ==> n == 3
  {
    var n := TruncDiv(79 - prefixLength, 3) * 3;
    if n < 3 then 3 else n
  }

  /** The text with a continuation after `n` characters and then after every 75. */
  function Wrap(s: Text, n: nat): Text
    requires n > 0
    decreases |s|
  {
    if |s| <= n then s else s[..n] + CONTINUATION + Wrap(s[n..], NEXT_LENGTH)
  }

  /** One more continuation. */
  lemma Inserted(done: Text, tail: Text, cut: nat)
    requires 0 < cut < |tail|
    ensures var s := done + tail;
            s[..|done| + cut] + CONTINUATION + s[|done| + cut..] == done + tail[..cut] + CONTINUATION + tail[cut..]
    ensures done + Wrap(tail, cut) == done + tail[..cut] + CONTINUATION + Wrap(tail[cut..], NEXT_LENGTH)
  {
    var s := done + tail;
    assert s[..|done| + cut] == done + tail[..cut] && s[|done| + cut..] == tail[cut..];
    Associate(done, tail[..cut], CONTINUATION);
    Associate(done, tail[..cut] + CONTINUATION, Wrap(tail[cut..], NEXT_LENGTH));
  }

  method ByteArrayFormatString(byteArray: Text, firstPrefixLen: nat) returns (result: Text)
    ensures result == Wrap(byteArray, FirstLength(firstPrefixLen))
  {
    result := byteArray;
    var count := |result|;
    var i := TruncDiv(79 - firstPrefixLen, 3) * 3;
    i := if i < 3 then 3 else i;
    ghost var done: Text, tail := [], byteArray;
    assert [] + byteArray == byteArray && [] + Wrap(byteArray, i) == Wrap(byteArray, i);
    while i < count
      invariant count == |result| && result == done + tail
      invariant i > |done|
      invariant Wrap(byteArray, FirstLength(firstPrefixLen)) == done + Wrap(tail, i - |done|)
      decreases |tail|
    {
      ghost var cut := i - |done|;
      Inserted(done, tail, cut);
      result := result[..i] + CONTINUATION + result[i..];
      done, tail := done + tail[..cut] + CONTINUATION, tail[cut..];
      count := count + 5;
      i := i + 80;
    }
  }

  /** The lines of the file that a value takes: `prefix` stands before its first character. */
  function WrappedLines(prefix: Text, s: Text, n: nat): (lines: seq<Text>)
    requires n > 0
    ensures lines != []
    decreases |s|
  {
    if |s| <= n then
      [prefix + s]
    else
      [prefix + s[..n] + [BACKSLASH]] + WrappedLines(INDENT, s[n..], NEXT_LENGTH)
  }

  lemma {:induction false} WrapIsLines(prefix: Text, s: Text, n: nat)
    requires n > 0
    ensures prefix + Wrap(s, n) + CRLF == WriteLines(WrappedLines(prefix, s, n))
    decreases |s|
  {
    if |s| <= n {
      assert WriteLines([prefix + s]) == prefix + s + CRLF + [];
    } else {
      var tail := s[n..];
      WrapIsLines(INDENT, tail, NEXT_LENGTH);
      var others := WrappedLines(INDENT, tail, NEXT_LENGTH);
      assert WrappedLines(prefix, s, n)[1..] == others;
      Regroup(prefix, s[..n], Wrap(tail, NEXT_LENGTH));
    }
  }

  lemma Regroup(prefix: Text, head: Text, tail: Text)
    ensures prefix + (head + CONTINUATION + tail) + CRLF ==
            prefix + head + [BACKSLASH] + CRLF + (INDENT + tail + CRLF)
  {
    assert CONTINUATION == [BACKSLASH] + CRLF + INDENT;
    assert head + ([BACKSLASH] + CRLF + INDENT) + tail == head + [BACKSLASH] + CRLF + INDENT + tail;
  }

  lemma {:induction false} WrappedOneLine(prefix: Text, s: Text, n: nat)
    requires n > 0 && OneLine(prefix) && OneLine(s)
    ensures AllOneLine(WrappedLines(prefix, s, n))
    decreases |s|
  {
    if |s| > n {
      WrappedOneLine(INDENT, s[n..], NEXT_LENGTH);
    }
  }

  // ----- the reader -----

  datatype Joined = Joined(line: Text, rest: seq<Text>)

  predicate Continued(line: Text) {
    line != [] && line[|line| - 1] == BACKSLASH
  }

  /** One logical line: a line that ends in a backslash takes the trimmed next line with it. */
  function JoinContinued(lines: seq<Text>): (r: Result<Joined>)
    requires lines != []
    ensures r.Ok? ==> |r.value.rest| < |lines|
  {
    if Continued(lines[0]) then
      Continue(lines[0][..|lines[0]| - 1], lines[1..])
    else
      Ok(Joined(lines[0], lines[1..]))
  }

  function Continue(data: Text, lines: seq<Text>): (r: Result<Joined>)
    ensures r.Ok? ==> |r.value.rest| < |lines|
    decreases |lines|
  {
    if lines == [] then
      Throws(NullReference)
    else if Continued(lines[0]) then
      Continue(data + Trim(lines[0][..|lines[0]| - 1], WHITE_SPACE), lines[1..])
    else
      Ok(Joined(data + Trim(lines[0], WHITE_SPACE), lines[1..]))
  }

  /** Nothing in the text is touched by trimming or taken for a continuation. */
  predicate Solid(s: Text) {
    forall i :: 0 <= i < |s| ==> s[i] !in WHITE_SPACE && s[i] != BACKSLASH
  }

  lemma TrimIndented(s: Text)
    requires Solid(s) && s != []
    ensures Trim(INDENT + s, WHITE_SPACE) == s
  {
    assert (INDENT + s)[1..] == [SPACE] + s;
    assert ([SPACE] + s)[1..] == s;
    assert TrimStart(s, WHITE_SPACE) == s;
    assert TrimStart([SPACE] + s, WHITE_SPACE) == s;
    assert TrimStart(INDENT + s, WHITE_SPACE) == s;
  }

  lemma {:induction false} ContinueWrapped(data: Text, s: Text, rest: seq<Text>)
    requires Solid(s) && s != []
    ensures Continue(data, WrappedLines(INDENT, s, NEXT_LENGTH) + rest) == Ok(Joined(data + s, rest))
    decreases |s|
  {
    var lines := WrappedLines(INDENT, s, NEXT_LENGTH) + rest;
    if |s| <= NEXT_LENGTH {
      assert lines[0] == INDENT + s && lines[1..] == rest;
      assert lines[0][|lines[0]| - 1] == s[|s| - 1];
      TrimIndented(s);
    } else {
      var chunk, tail := s[..NEXT_LENGTH], s[NEXT_LENGTH..];
      assert lines[0] == INDENT + chunk + [BACKSLASH];
      assert lines[0][..|lines[0]| - 1] == INDENT + chunk;
      assert lines[1..] == WrappedLines(INDENT, tail, NEXT_LENGTH) + rest;
      TrimIndented(chunk);
      ContinueWrapped(data + chunk, tail, rest);
      assert data + chunk + tail == data + s;
    }
  }

  /** The reader puts together exactly the line that the writer broke, and leaves the following lines alone. */
  lemma JoinWrapped(prefix: Text, s: Text, n: nat, rest: seq<Text>)
    requires n > 0 && Solid(s) && !Continued(prefix)
    ensures JoinContinued(WrappedLines(prefix, s, n) + rest) == Ok(Joined(prefix + s, rest))
  {
    var lines := WrappedLines(prefix, s, n) + rest;
    if |s| <= n {
      assert lines[0] == prefix + s && lines[1..] == rest;
      if s != [] {
        assert lines[0][|lines[0]| - 1] == s[|s| - 1];
      } else {
        assert prefix + s == prefix;
      }
    } else {
      assert lines[0] == prefix + s[..n] + [BACKSLASH];
      assert lines[0][..|lines[0]| - 1] == prefix + s[..n];
      assert lines[1..] == WrappedLines(INDENT, s[n..], NEXT_LENGTH) + rest;
      ContinueWrapped(prefix + s[..n], s[n..], rest);
      assert prefix + s[..n] + s[n..] == prefix + s;
    }
  }

  // ----- where the lines break, and how long they are -----

  /** The lines of a hex value when whole bytes are dealt out to them: `n` to the first, 25 to each other. */
  function ByteLines(prefix: Text, bytes: seq<Byte>, n: nat): seq<Text>
    requires n > 0
    decreases |bytes|
  {
    if |bytes| <= n then
      [prefix + HexComma.Hex(bytes)]
    else
      [prefix + HexComma.Hex(bytes[..n]) + [HexComma.COMMA, BACKSLASH]] + ByteLines(INDENT, bytes[n..], NEXT_LENGTH / 3)
  }

  /** A hex value is broken between bytes only. */
  lemma {:induction false} BreaksBetweenBytes(prefix: Text, bytes: seq<Byte>, n: nat)
    requires n > 0
    ensures WrappedLines(prefix, HexComma.Hex(bytes), 3 * n) == ByteLines(prefix, bytes, n)
    decreases |bytes|
  {
    HexComma.HexShape(bytes);
    if |bytes| > n {
      var head, tail := bytes[..n], bytes[n..];
      HexComma.HexShape(head);
      HexComma.HexAppend(head, tail);
      assert bytes == head + tail;
      var s := HexComma.Hex(bytes);
      assert s[..3 * n] == HexComma.Hex(head) + [HexComma.COMMA];
      assert s[3 * n..] == HexComma.Hex(tail);
      assert prefix + s[..3 * n] + [BACKSLASH] == prefix + HexComma.Hex(head) + [HexComma.COMMA, BACKSLASH];
      BreaksBetweenBytes(INDENT, tail, NEXT_LENGTH / 3);
    }
  }

  predicate FitsColumns(lines: seq<Text>) {
    forall i :: 0 <= i < |lines| ==> |lines[i]| <= COLUMNS
  }

  lemma {:induction false} NextLinesFit(s: Text)
    ensures FitsColumns(WrappedLines(INDENT, s, NEXT_LENGTH))
    decreases |s|
  {
    if |s| > NEXT_LENGTH {
      NextLinesFit(s[NEXT_LENGTH..]);
    }
  }

  /** No line is longer than 80 columns, unless the prefix takes more than 76 and leaves no room for the first byte. */
  lemma ColumnLimit(prefix: Text, s: Text)
    ensures FitsColumns(WrappedLines(prefix, s, FirstLength(|prefix|))) <==>
            |prefix| <= 76 || (|s| <= 3 && |prefix| + |s| <= COLUMNS)
  {
    WrappedFit(prefix, s, FirstLength(|prefix|));
  }

  lemma WrappedFit(prefix: Text, s: Text, n: nat)
    requires n > 0
    ensures FitsColumns(WrappedLines(prefix, s, n)) <==> |prefix| + (if |s| <= n then |s| else n + 1) <= COLUMNS
  {
    if |s| > n {
      NextLinesFit(s[n..]);
      FitsCons(prefix + s[..n] + [BACKSLASH], WrappedLines(INDENT, s[n..], NEXT_LENGTH));
    } else {
      FitsCons(prefix + s, []);
    }
  }

  lemma FitsCons(line: Text, lines: seq<Text>)
    ensures FitsColumns([line] + lines) <==> |line| <= COLUMNS && FitsColumns(lines)
  {
    var all := [line] + lines;
    assert all[0] == line;
    assert forall i :: 0 <= i < |lines| ==> lines[i] == all[i + 1];
  }
}
