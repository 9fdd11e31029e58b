/** The reader of `.reg` files, PackageEditor/RegFile.cs. It returns one section per call and has to read the header
    of the next section to know that the current one is over, so it keeps that header for the next call. */
module RegFile {
  import opened Wrappers
  import opened Utf16
  import opened Sequences
  import opened TextLines
  import opened RegText
  import opened RegValues
  import opened LineWrap
  import HexComma
  import RegNumbers

  const OPEN: Unit := '[' as int
  const CLOSE: Unit := ']' as int

  datatype RegEntry = RegEntry(name: Text, value: RegValue)
  datatype RegSection = RegSection(keyName: Text, values: seq<RegEntry>)

  /** `line.Trim('[', ']')` */
  function KeyNameOf(line: Text): Text {
    Trim(line, {OPEN, CLOSE})
  }

  /** Name and value of a logical line. */
  function ParseEntry(line: Text): Result<RegEntry> {
    var scanned :- Scan(line, false);
    var value :- ParseValue(line[scanned.end + 1..]);
    Ok(RegEntry(ValueName(scanned), value))
  }

  datatype EntryRead = EntryRead(entry: RegEntry, rest: seq<Text>)

  /** The entry that starts on the first line, and the lines after it. */
  function NextEntry(lines: seq<Text>): (r: Result<EntryRead>)
    requires lines != []
    ensures r.Ok? ==> |r.value.rest| < |lines|
  {
    var joined :- JoinContinued(lines);
    var entry :- ParseEntry(joined.line);
    Ok(EntryRead(entry, joined.rest))
  }

  /** The lines not yet read, and the section header that was read ahead. */
  datatype ReaderState = ReaderState(lines: seq<Text>, pending: Option<Text>) {
    function Left(): nat {
      2 * |lines| + if pending.Some? then 1 else 0
    }
  }

  /** The section a call returns, none at the end of the file, and the state it leaves. */
  datatype ReadStep = ReadStep(section: Option<RegSection>, after: ReaderState)

  /** One call of `readKey` that has already collected `values`. Each call that returns a section uses up lines or the
      header read ahead. */
  function NextSection(st: ReaderState, values: seq<RegEntry>): (r: Result<ReadStep>)
    ensures r.Ok? && r.value.section.Some? ==> r.value.after.Left() < st.Left()
    decreases |st.lines|
  {
    if st.lines == [] then
      if st.pending.None? then Ok(ReadStep(None, st))
      else Ok(ReadStep(Some(RegSection(st.pending.value, values)), ReaderState([], None)))
    else
      var line, rest := st.lines[0], st.lines[1..];
      if line == [] then
        NextSection(st.(lines := rest), values)
      else if line[0] == OPEN then
        var next := ReaderState(rest, Some(KeyNameOf(line)));
        if st.pending.None? then NextSection(next, values)
        else Ok(ReadStep(Some(RegSection(st.pending.value, values)), next))
      else if line[0] == QUOTE || line[0] == AT then
        var next :- NextEntry(st.lines);
        NextSection(st.(lines := next.rest), values + [next.entry])
      else
        NextSection(st.(lines := rest), values)
  }

  /** All sections, from calling `readKey` until it returns false. */
  function ReadAll(st: ReaderState): Result<seq<RegSection>>
    decreases st.Left()
  {
    var step :- NextSection(st, []);
    if step.section.None? then
      Ok([])
    else
      var rest :- ReadAll(step.after);
      Ok([step.section.value] + rest)
  }

  /** The sections that are read before reading ends or fails. */
  function ReadUntilError(st: ReaderState): (r: seq<RegSection>)
    ensures ReadAll(st).Ok? ==> ReadAll(st).value == r
    decreases st.Left()
  {
    match NextSection(st, [])
    case Throws(_) => []
    case Ok(step) => if step.section.None? then [] else [step.section.value] + ReadUntilError(step.after)
  }

  /** The typed value of a logical line: the switch over the recognised prefixes. */
  method ReadValue(valueValue: Text) returns (r: Result<RegValue>)
    ensures r == ParseValue(valueValue)
  {
    var kind := KindOf(valueValue);
    if kind.KindUnknown? {
      return Ok(Unknown);
    } else if kind.KindString? {
      if |valueValue| < 2 {
        return Throws(ArgumentError);
      }
      var strValue := valueValue[1..|valueValue| - 1];
      strValue := Replace(strValue, [BACKSLASH, QUOTE], [QUOTE]);
      strValue := Replace(strValue, [BACKSLASH, BACKSLASH], [BACKSLASH]);
      return Ok(String(strValue));
    } else if kind.KindDWord? {
      var n := RegNumbers.ParseDWord(valueValue[6..]);
      return if n.Throws? then Throws(n.error) else Ok(DWord(n.value));
    }
    var strdata := valueValue[(if kind.KindBinary? then 4 else 7)..];
    var byteArray := HexComma.HexCommaToByteArray(strdata);
    if byteArray.Throws? {
      return Throws(byteArray.error);
    } else if kind.KindBinary? {
      return Ok(Binary(byteArray.value));
    } else if kind.KindQWord? {
      var l := RegNumbers.QWordOf(byteArray.value);
      return if l.Throws? then Throws(l.error) else Ok(QWord(l.value));
    }
    var regString := GetString(byteArray.value);
    if kind.KindExpandString? {
      if |regString| < 1 {
        return Throws(ArgumentError);
      }
      regString := regString[..|regString| - 1];
      return Ok(ExpandString(regString));
    }
    if regString == [0] {
      return Ok(MultiString([]));
    } else if |regString| < 2 {
      return Throws(ArgumentError);
    }
    regString := regString[..|regString| - 2];
    var value := Split(regString, 0);
    r := Ok(MultiString(value));
  }

  class RegFileReader {
    var sr: seq<Text>
    var NextMasterKey: Option<Text>

    function State(): ReaderState
      reads this
    {
      ReaderState(sr, NextMasterKey)
    }

    constructor (contents: Text)
      ensures State() == ReaderState(ReadLines(contents), None)
    {
      sr := ReadLines(contents);
      NextMasterKey := None;
    }

    /** The `more` loop. */
    method ReadContinuation(line: Text) returns (r: Result<Text>)
      requires Continued(line)
      modifies this`sr
      ensures Continue(line[..|line| - 1], old(sr)) ==
              if r.Throws? then Throws(r.error) else Ok(Joined(r.value, sr))
    {
      var more := true;
      var data := line[..|line| - 1];
      while more
        invariant Continue(line[..|line| - 1], old(sr)) == if more then Continue(data, sr) else Ok(Joined(data, sr))
        decreases |sr|, more
      {
        if sr == [] {
          return Throws(NullReference);
        }
        var extra := sr[0];
        sr := sr[1..];
        more := Continued(extra);
        if more {
          extra := extra[..|extra| - 1];
        }
        data := data + Trim(extra, WHITE_SPACE);
      }
      r := Ok(data);
    }

    /** The branch of `readKey` for a line that starts with a quote or an `@`. */
    method ReadEntry(first: Text) returns (r: Result<RegEntry>)
      modifies this`sr
      ensures match NextEntry([first] + old(sr))
              case Throws(e) => r == Throws(e)
              case Ok(next) => r == Ok(next.entry) && sr == next.rest
    {
      hide Continued, Continue, ParseValue, Scan, ValueName;
      ghost var lines := [first] + sr;
      assert lines[0] == first && lines[1..] == sr;
      var line := first;
      if Continued(line) {
        var whole := ReadContinuation(line);
        if whole.Throws? {
          return Throws(whole.error);
        }
        line := whole.value;
      }
      assert JoinContinued(lines) == Ok(Joined(line, sr));
      var scanned := ScanName(line);
      if scanned.Throws? {
        return Throws(scanned.error);
      }
      var value := ReadValue(line[scanned.value.end + 1..]);
      if value.Throws? {
        return Throws(value.error);
      }
      r := Ok(RegEntry(ValueName(scanned.value), value.value));
    }

    method ReadKey() returns (r: Result<Option<RegSection>>)
      modifies this
      ensures match NextSection(old(State()), [])
              case Throws(e) => r == Throws(e)
              case Ok(step) => r == Ok(step.section) && State() == step.after
    {
      var values := [];
      while sr != []
        invariant NextSection(old(State()), []) == NextSection(State(), values)
        decreases |sr|
      {
        ghost var before := State();
        var line := sr[0];
        sr := sr[1..];
        assert before.lines == [line] + sr;
        if line == [] {
          continue;
        }
        if line[0] == OPEN {
          var keyName := KeyNameOf(line);
          if NextMasterKey.Some? {
            r := Ok(Some(RegSection(NextMasterKey.value, values)));
            NextMasterKey := Some(keyName);
            return;
          } else {
            NextMasterKey := Some(keyName);
          }
        } else if line[0] == QUOTE || line[0] == AT {
          var entry := ReadEntry(line);
          if entry.Throws? {
            return Throws(entry.error);
          }
          values := values + [entry.value];
        }
      }
      if NextMasterKey.Some? {
        r := Ok(Some(RegSection(NextMasterKey.value, values)));
        NextMasterKey := None;
      } else {
        r := Ok(None);
      }
    }
  }
}
