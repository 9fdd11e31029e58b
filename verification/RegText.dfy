/** Quoting in `.reg` files: value names and string values are escaped by the writer
    (PackageEditor/RegistryFunctions.cs), scanned and unescaped by the reader (PackageEditor/RegFile.cs). */
module RegText {
  import opened Wrappers
  import opened Utf16
  import opened Sequences
  import opened TextLines

  const QUOTE: Unit := '"' as int
  const EQUALS: Unit := '=' as int
  const AT: Unit := '@' as int

  /** The writer's two passes: backslashes are doubled, then every quote gets a backslash. */
  function Escape(s: Text): Text {
    Replace(Replace(s, [BACKSLASH], [BACKSLASH, BACKSLASH]), [QUOTE], [BACKSLASH, QUOTE])
  }

  /** The reader's two passes, over the whole string each: `\"` to a quote, then `\\` to a backslash. */
  function Unescape(s: Text): Text {
    Replace(Replace(s, [BACKSLASH, QUOTE], [QUOTE]), [BACKSLASH, BACKSLASH], [BACKSLASH])
  }

  function EscapeUnit(u: Unit): Text {
    if u == BACKSLASH then [BACKSLASH, BACKSLASH] else if u == QUOTE then [BACKSLASH, QUOTE] else [u]
  }

  lemma {:induction false} ReplaceUnit(s: Text, u: Unit, sub: Text)
    requires s != []
    ensures Replace(s, [u], sub) == (if s[0] == u then sub else [s[0]]) + Replace(s[1..], [u], sub)
  {
    assert [u] <= s <==> s[0] == u;
  }

  lemma {:induction false} ReplaceUnitAppend(a: Text, b: Text, u: Unit, sub: Text)
    ensures Replace(a + b, [u], sub) == Replace(a, [u], sub) + Replace(b, [u], sub)
  {
    if a == [] {
      assert a + b == b;
    } else {
      var first := if a[0] == u then sub else [a[0]];
      assert (a + b)[1..] == a[1..] + b;
      ReplaceUnit(a, u, sub);
      ReplaceUnit(a + b, u, sub);
      ReplaceUnitAppend(a[1..], b, u, sub);
      Associate(first, Replace(a[1..], [u], sub), Replace(b, [u], sub));
    }
  }

  lemma QuotesOfUnit(u: Unit)
    ensures Replace([u], [QUOTE], [BACKSLASH, QUOTE]) == if u == QUOTE then [BACKSLASH, QUOTE] else [u]
  {
    ReplaceUnit([u], QUOTE, [BACKSLASH, QUOTE]);
    assert [u][1..] == [];
  }

  /** The two escaping passes together work unit by unit. */
  lemma EscapeCons(u: Unit, s: Text)
    ensures Escape([]) == []
    ensures Escape([u] + s) == EscapeUnit(u) + Escape(s)
  {
    var doubled, escaped := [BACKSLASH, BACKSLASH], [BACKSLASH, QUOTE];
    assert ([u] + s)[1..] == s;
    ReplaceUnit([u] + s, BACKSLASH, doubled);
    var first := if u == BACKSLASH then doubled else [u];
    ReplaceUnitAppend(first, Replace(s, [BACKSLASH], doubled), QUOTE, escaped);
    QuotesOfUnit(u);
    if u == BACKSLASH {
      assert doubled == [BACKSLASH] + [BACKSLASH];
      ReplaceUnitAppend([BACKSLASH], [BACKSLASH], QUOTE, escaped);
    }
    assert Replace(first, [QUOTE], escaped) == EscapeUnit(u);
  }

  /** An escaped string never starts with a quote of its own. */
  lemma EscapeStart(s: Text)
    ensures Escape(s) != [] ==> Escape(s)[0] != QUOTE
    ensures Escape(s) == [] <==> s == []
  {
    if s != [] {
      EscapeCons(s[0], s[1..]);
      assert s == [s[0]] + s[1..];
    } else {
      EscapeCons(QUOTE, []);
    }
  }

  /** The first pass of the reader undoes the second pass of the writer, although runs of backslashes stand before the
      quotes: it only finds the last backslash of a run, because no other is followed by a quote. */
  lemma {:induction false} FirstPass(s: Text)
    ensures Replace(Escape(s), [BACKSLASH, QUOTE], [QUOTE]) == Replace(s, [BACKSLASH], [BACKSLASH, BACKSLASH])
  {
    var pat, doubled := [BACKSLASH, QUOTE], [BACKSLASH, BACKSLASH];
    if s == [] {
      EscapeCons(QUOTE, []);
    } else {
      var u, rest := s[0], s[1..];
      assert s == [u] + rest;
      EscapeCons(u, rest);
      EscapeStart(rest);
      FirstPass(rest);
      ReplaceUnit(s, BACKSLASH, doubled);
      var e := EscapeUnit(u) + Escape(rest);
      if u == BACKSLASH {
        var e' := [BACKSLASH] + Escape(rest);
        assert e[1..] == e' && e'[1..] == Escape(rest);
        assert !(pat <= e) by { assert e[1] == BACKSLASH; }
        assert !(pat <= e');
      } else if u == QUOTE {
        assert pat <= e && e[2..] == Escape(rest);
      } else {
        assert e[1..] == Escape(rest);
        assert !(pat <= e) by { assert e[0] == u; }
      }
    }
  }

  lemma {:induction false} SecondPass(s: Text)
    ensures Replace(Replace(s, [BACKSLASH], [BACKSLASH, BACKSLASH]), [BACKSLASH, BACKSLASH], [BACKSLASH]) == s
  {
    var doubled := [BACKSLASH, BACKSLASH];
    if s != [] {
      var rest := Replace(s[1..], [BACKSLASH], doubled);
      SecondPass(s[1..]);
      ReplaceUnit(s, BACKSLASH, doubled);
      var e := Replace(s, [BACKSLASH], doubled);
      if s[0] == BACKSLASH {
        assert doubled <= e && e[2..] == rest;
      } else {
        assert e[0] == s[0] && e[1..] == rest;
      }
      assert s == [s[0]] + s[1..];
    }
  }

  /** Unescaping inverts escaping on every string. */
  lemma UnescapeEscape(s: Text)
    ensures Unescape(Escape(s)) == s
  {
    FirstPass(s);
    SecondPass(s);
  }

  lemma {:induction false} EscapeOneLine(s: Text)
    requires OneLine(s)
    ensures OneLine(Escape(s))
  {
    if s == [] {
      EscapeCons(QUOTE, []);
    } else {
      EscapeCons(s[0], s[1..]);
      EscapeOneLine(s[1..]);
      assert s == [s[0]] + s[1..];
    }
  }

  lemma {:induction false} ReplaceOneLine(s: Text, pat: Text, sub: Text)
    requires OneLine(s) && OneLine(sub) && pat != []
    ensures OneLine(Replace(s, pat, sub))
  {
    if s != [] {
      if pat <= s {
        ReplaceOneLine(s[|pat|..], pat, sub);
      } else {
        ReplaceOneLine(s[1..], pat, sub);
      }
    }
  }

  lemma UnescapeOneLine(s: Text)
    requires OneLine(s)
    ensures OneLine(Unescape(s))
  {
    ReplaceOneLine(s, [BACKSLASH, QUOTE], [QUOTE]);
    ReplaceOneLine(Replace(s, [BACKSLASH, QUOTE], [QUOTE]), [BACKSLASH, BACKSLASH], [BACKSLASH]);
  }

  // ----- value names -----

  /** How a value name is written: `@` for the default value, quoted otherwise. */
  function PrintName(name: Text): (r: Text)
    ensures r != []
  {
    if name == [] then [AT] else [QUOTE] + Escape(name) + [QUOTE]
  }

  datatype Scanned = Scanned(name: Text, end: nat)

  /** The name at the start of a line, up to the first `=` outside quotes, and the position of that `=`. Quotes toggle
      and disappear, a backslash keeps whatever follows it. */
  function Scan(line: Text, inString: bool): (r: Result<Scanned>)
    ensures r.Ok? ==> r.value.end < |line|
    decreases |line|
  {
    if line == [] then
      Throws(IndexOutOfRange)
    else if !inString && line[0] == EQUALS then
      Ok(Scanned([], 0))
    else if line[0] == QUOTE then
      Skip(1, [], Scan(line[1..], !inString))
    else if line[0] == BACKSLASH then
      if |line| == 1 then Throws(IndexOutOfRange) else Skip(2, [line[1]], Scan(line[2..], inString))
    else
      Skip(1, [line[0]], Scan(line[1..], inString))
  }

  function Skip(n: nat, name: Text, r: Result<Scanned>): Result<Scanned> {
    if r.Throws? then r else Ok(Scanned(name + r.value.name, n + r.value.end))
  }

  /** A lone unquoted `@` stands for the empty name. */
  function ValueName(s: Scanned): Text {
    if s.name == [AT] && s.end == 1 then [] else s.name
  }

  lemma SkipTwice(n: nat, m: nat, a: Text, b: Text, r: Result<Scanned>)
    ensures Skip(n, a, Skip(m, b, r)) == Skip(n + m, a + b, r)
  {
    if r.Ok? {
      assert a + (b + r.value.name) == (a + b) + r.value.name;
    }
  }

  lemma SkipNothing(r: Result<Scanned>)
    ensures Skip(0, [], r) == r
  {
    if r.Ok? {
      assert [] + r.value.name == r.value.name;
    }
  }

  method ScanName(line: Text) returns (r: Result<Scanned>)
    ensures r == Scan(line, false)
  {
    var i := 0;
    var isInString := false;
    var valueName: Text := [];
    SkipNothing(Scan(line, false));
    assert line[0..] == line;
    while true
      invariant 0 <= i <= |line|
      invariant Scan(line, false) == Skip(i, valueName, Scan(line[i..], isInString))
      decreases |line| - i
    {
      if i == |line| {
        return Throws(IndexOutOfRange);
      }
      if !isInString && line[i] == EQUALS {
        assert valueName + [] == valueName;
        return Ok(Scanned(valueName, i));
      }
      ghost var here := line[i..];
      if line[i] == QUOTE {
        assert here[1..] == line[i + 1..];
        SkipTwice(i, 1, valueName, [], Scan(here[1..], !isInString));
        assert valueName + [] == valueName;
        isInString := !isInString;
      } else {
        if line[i] == BACKSLASH {
          i := i + 1;
          if i == |line| {
            return Throws(IndexOutOfRange);
          }
          assert here[2..] == line[i + 1..];
          SkipTwice(i - 1, 2, valueName, [line[i]], Scan(here[2..], isInString));
        } else {
          assert here[1..] == line[i + 1..];
          SkipTwice(i, 1, valueName, [line[i]], Scan(here[1..], isInString));
        }
        valueName := valueName + [line[i]];
      }
      i := i + 1;
    }
  }

  lemma {:induction false} ScanEscaped(name: Text, tail: Text)
    ensures Scan(Escape(name) + tail, true) == Skip(|Escape(name)|, name, Scan(tail, true))
  {
    if name == [] {
      EscapeCons(QUOTE, []);
      assert [] + tail == tail;
      SkipNothing(Scan(tail, true));
    } else {
      var u, rest := name[0], name[1..];
      assert name == [u] + rest;
      EscapeCons(u, rest);
      var line := EscapeUnit(u) + Escape(rest) + tail;
      var after := Escape(rest) + tail;
      assert line == EscapeUnit(u) + after;
      assert line[|EscapeUnit(u)|..] == after;
      assert Scan(line, true) == Skip(|EscapeUnit(u)|, [u], Scan(after, true));
      ScanEscaped(rest, tail);
      SkipTwice(|EscapeUnit(u)|, |Escape(rest)|, [u], rest, Scan(tail, true));
    }
  }

  lemma ScanClosing(tail: Text)
    ensures Scan([EQUALS] + tail, false) == Ok(Scanned([], 0))
    ensures Scan([QUOTE, EQUALS] + tail, true) == Ok(Scanned([], 1))
  {
    var closing := [QUOTE, EQUALS] + tail;
    assert closing[1..] == [EQUALS] + tail;
    var nothing: Text := [];
    assert nothing + nothing == nothing;
    assert Scan(closing, true) == Skip(1, nothing, Scan(closing[1..], false));
  }

  lemma ScanQuoted(name: Text, tail: Text)
    ensures Scan([QUOTE] + (Escape(name) + ([QUOTE, EQUALS] + tail)), false) == Ok(Scanned(name, |Escape(name)| + 2))
  {
    var closing := [QUOTE, EQUALS] + tail;
    var line := [QUOTE] + (Escape(name) + closing);
    assert line[1..] == Escape(name) + closing;
    ScanEscaped(name, closing);
    ScanClosing(tail);
    assert Skip(|Escape(name)|, name, Ok(Scanned([], 1))) == Ok(Scanned(name, |Escape(name)| + 1)) by {
      assert name + [] == name;
    }
    assert Skip(1, [], Ok(Scanned(name, |Escape(name)| + 1))) == Ok(Scanned(name, |Escape(name)| + 2)) by {
      assert [] + name == name;
    }
  }

  /** The scanner finds exactly the printed name, whatever follows the `=`, for every name: empty, `@`, and with quotes,
      backslashes or `=` in it. */
  lemma ScanInvertsPrint(name: Text, tail: Text)
    ensures var r := Scan(PrintName(name) + [EQUALS] + tail, false);
            r.Ok? && ValueName(r.value) == name && r.value.end == |PrintName(name)|
  {
    var line := PrintName(name) + [EQUALS] + tail;
    if name == [] {
      assert line[1..] == [EQUALS] + tail;
      ScanClosing(tail);
      assert Scan(line, false) == Skip(1, [AT], Scan(line[1..], false));
      assert [AT] + [] == [AT];
    } else {
      assert line == [QUOTE] + (Escape(name) + ([QUOTE, EQUALS] + tail));
      ScanQuoted(name, tail);
    }
  }
}
