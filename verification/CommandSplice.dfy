/** The package properties `OnStartUnvirtualized` and `OnStopUnvirtualized` are `;`-separated commands, one of which the
    package editor owns. Saving edits that one by string replacement (PackageEditor/MainForm.cs). */
module CommandSplice {
  import opened Sequences

  const SEPARATOR: char := ';'

  function Items(property: string): (items: seq<string>)
    ensures items != []
  {
    Split(property, SEPARATOR)
  }

  // ----- saving -----

  /** The property with the editor's command changed from `oldCommand` to `newCommand`; an empty one is none. */
  function Save(property: string, oldCommand: string, newCommand: string): string {
    if oldCommand == "" && newCommand != "" then
      property + ";" + newCommand
    else
      var str := Replace(";" + property + ";", ";" + oldCommand + ";", ";" + newCommand + ";");
      Trim(Replace(str, ";;", ";"), {SEPARATOR})
  }

  /** The items that are not empty, in order. */
  function Commands(property: string): seq<string> {
    NonEmpty(Items(property))
  }

  /** What the replacement does to the items: an occurrence directly behind a replaced one is passed over, because its
      leading separator was part of the match. */
  function ReplaceItems(items: seq<string>, oldCommand: string, newCommand: string): seq<string>
    decreases |items|
  {
    if items == [] then []
    else if items[0] != oldCommand then [items[0]] + ReplaceItems(items[1..], oldCommand, newCommand)
    else if |items| == 1 then [newCommand]
    else [newCommand, items[1]] + ReplaceItems(items[2..], oldCommand, newCommand)
  }

  /** Every item with its separator. */
  function Flat(items: seq<string>): string {
    if items == [] then "" else items[0] + ";" + Flat(items[1..])
  }

  lemma {:induction false} FlatIsJoin(items: seq<string>)
    requires items != []
    ensures Flat(items) == Join(items, SEPARATOR) + ";"
  {
    if |items| == 1 {
      assert Flat(items[1..]) == "";
      assert items[0] + ";" + "" == items[0] + ";";
    } else {
      FlatIsJoin(items[1..]);
      assert items[0] + ";" + (Join(items[1..], SEPARATOR) + ";") ==
        items[0] + [SEPARATOR] + Join(items[1..], SEPARATOR) + ";";
    }
  }

  /** A pattern that starts with the separator cannot match inside an item. */
  lemma {:induction false} ReplaceBehindItem(item: string, tail: string, pat: string, sub: string)
    requires SEPARATOR !in item && pat != "" && pat[0] == SEPARATOR
    ensures Replace(item + tail, pat, sub) == item + Replace(tail, pat, sub)
  {
    if item == "" {
      assert item + tail == tail;
    } else {
      TailOfSum(item, tail);
      assert !(pat <= item + tail) by { assert (item + tail)[0] != pat[0]; }
      ReplaceBehindItem(item[1..], tail, pat, sub);
      HeadTail(item);
      Associate([item[0]], item[1..], Replace(tail, pat, sub));
    }
  }

  lemma PrefixCons(a: char, b: char, x: string, y: string)
    ensures [a] + x <= [b] + y <==> a == b && x <= y
  {
    assert ([a] + x)[1..] == x && ([b] + y)[1..] == y;
    if a == b && x <= y {
      assert y == x + y[|x|..];
      assert [b] + y == ([a] + x) + y[|x|..];
    }
    if [a] + x <= [b] + y {
      assert ([b] + y)[..1 + |x|] == [a] + x;
      assert y[..|x|] == ([b] + y)[..1 + |x|][1..] == x;
      assert ([b] + y)[0] == ([a] + x)[0] == a;
    }
  }

  lemma {:induction false} MatchToEnd(item: string, tail: string, oldCommand: string)
    requires SEPARATOR !in item && SEPARATOR !in oldCommand
    ensures oldCommand + ";" <= item + ";" + tail <==> item == oldCommand
  {
    if item == "" || oldCommand == "" {
      assert (oldCommand + ";")[0] == if oldCommand == "" then ';' else oldCommand[0];
      assert (item + ";" + tail)[0] == if item == "" then ';' else item[0];
    } else {
      MatchToEnd(item[1..], tail, oldCommand[1..]);
      HeadTail(item);
      HeadTail(oldCommand);
      assert oldCommand + ";" == [oldCommand[0]] + (oldCommand[1..] + ";");
      assert item + ";" + tail == [item[0]] + (item[1..] + ";" + tail);
      PrefixCons(oldCommand[0], item[0], oldCommand[1..] + ";", item[1..] + ";" + tail);
    }
  }

  /** The pattern is found in front of an item exactly when it is that item. */
  lemma MatchItem(item: string, tail: string, oldCommand: string)
    requires SEPARATOR !in item && SEPARATOR !in oldCommand
    ensures ";" + oldCommand + ";" <= ";" + (item + ";" + tail) <==> item == oldCommand
  {
    MatchToEnd(item, tail, oldCommand);
    Associate(";", oldCommand, ";");
    PrefixCons(';', ';', oldCommand + ";", item + ";" + tail);
  }

  lemma {:induction false} ReplaceFlat(items: seq<string>, oldCommand: string, newCommand: string)
    requires Free(items, SEPARATOR) && SEPARATOR !in oldCommand && oldCommand != ""
    ensures Replace(";" + Flat(items), ";" + oldCommand + ";", ";" + newCommand + ";") ==
            ";" + Flat(ReplaceItems(items, oldCommand, newCommand))
    decreases |items|
  {
    var pat, sub := ";" + oldCommand + ";", ";" + newCommand + ";";
    if items == [] {
      assert ";" + Flat(items) == ";";
      assert !(pat <= ";");
      assert Replace(";"[1..], pat, sub) == "";
    } else {
      var item, rest := items[0], Flat(items[1..]);
      MatchItem(item, rest, oldCommand);
      var s := ";" + (item + ";" + rest);
      assert s == ";" + Flat(items);
      if item != oldCommand {
        ReplaceOther(items, oldCommand, newCommand);
      } else {
        assert s == pat + rest;
        assert s[|pat|..] == rest;
        assert Replace(s, pat, sub) == sub + Replace(rest, pat, sub);
        ReplaceAfterMatch(items[1..], oldCommand, newCommand);
        FlatAfterMatch(items, oldCommand, newCommand);
      }
    }
  }

  lemma FlatCons(item: string, items: seq<string>)
    ensures Flat([item] + items) == item + ";" + Flat(items)
  {
    assert ([item] + items)[1..] == items;
  }

  lemma ReplaceMiss(c: char, s: string, pat: string, sub: string)
    requires pat != "" && !(pat <= [c] + s)
    ensures Replace([c] + s, pat, sub) == [c] + Replace(s, pat, sub)
  {
    assert ([c] + s)[1..] == s;
  }

  lemma OtherItems(items: seq<string>, oldCommand: string, newCommand: string)
    requires items != [] && items[0] != oldCommand
    ensures ReplaceItems(items, oldCommand, newCommand) == [items[0]] + ReplaceItems(items[1..], oldCommand, newCommand)
    ensures Flat(items) == items[0] + ";" + Flat(items[1..])
  {
  }

  lemma ReplaceOther(items: seq<string>, oldCommand: string, newCommand: string)
    requires Free(items, SEPARATOR) && SEPARATOR !in oldCommand && oldCommand != ""
    requires items != [] && items[0] != oldCommand
    ensures Replace(";" + Flat(items), ";" + oldCommand + ";", ";" + newCommand + ";") ==
            ";" + Flat(ReplaceItems(items, oldCommand, newCommand))
    decreases |items|, 0
  {
    hide Replace, Flat, ReplaceItems;
    var pat, sub := ";" + oldCommand + ";", ";" + newCommand + ";";
    var item, rest, others := items[0], Flat(items[1..]), ReplaceItems(items[1..], oldCommand, newCommand);
    OtherItems(items, oldCommand, newCommand);
    MatchItem(item, rest, oldCommand);
    ReplaceMiss(';', item + ";" + rest, pat, sub);
    Associate(item, ";", rest);
    ReplaceBehindItem(item, ";" + rest, pat, sub);
    ReplaceFlat(items[1..], oldCommand, newCommand);
    FlatCons(item, others);
    Associate(item, ";", Flat(others));
  }

  /** What stands behind a match starts with an item that lost its separator. */
  lemma ReplaceAfterMatch(items: seq<string>, oldCommand: string, newCommand: string)
    requires Free(items, SEPARATOR) && SEPARATOR !in oldCommand && oldCommand != ""
    ensures Replace(Flat(items), ";" + oldCommand + ";", ";" + newCommand + ";") ==
            if items == [] then "" else Flat([items[0]] + ReplaceItems(items[1..], oldCommand, newCommand))
    decreases |items|, 1
  {
    if items != [] {
      var pat, sub := ";" + oldCommand + ";", ";" + newCommand + ";";
      Associate(items[0], ";", Flat(items[1..]));
      ReplaceBehindItem(items[0], ";" + Flat(items[1..]), pat, sub);
      assert Free(items[1..], SEPARATOR);
      ReplaceFlat(items[1..], oldCommand, newCommand);
      var others := ReplaceItems(items[1..], oldCommand, newCommand);
      TailOfSum([items[0]], others);
      Associate(items[0], ";", Flat(others));
    }
  }

  lemma MatchedItems(items: seq<string>, oldCommand: string, newCommand: string)
    requires items != [] && items[0] == oldCommand
    ensures ReplaceItems(items, oldCommand, newCommand) == [newCommand] +
            if |items| == 1 then [] else [items[1]] + ReplaceItems(items[2..], oldCommand, newCommand)
  {
  }

  lemma FlatAfterMatch(items: seq<string>, oldCommand: string, newCommand: string)
    requires items != [] && items[0] == oldCommand
    ensures ";" + Flat(ReplaceItems(items, oldCommand, newCommand)) == ";" + newCommand + ";" +
            if |items| == 1 then "" else Flat([items[1]] + ReplaceItems(items[2..], oldCommand, newCommand))
  {
    hide Flat, ReplaceItems;
    var behind := if |items| == 1 then [] else [items[1]] + ReplaceItems(items[2..], oldCommand, newCommand);
    MatchedItems(items, oldCommand, newCommand);
    FlatCons(newCommand, behind);
    FlatOfNothing();
    Associate(";", newCommand, ";");
    Associate(";", newCommand + ";", Flat(behind));
  }

  lemma FlatOfNothing()
    ensures Flat([]) == ""
  {
  }

  // ----- the commands of a changed property -----

  lemma {:induction false} NonEmptyAppend(a: seq<string>, b: seq<string>)
    ensures NonEmpty(a + b) == NonEmpty(a) + NonEmpty(b)
  {
    if a == [] {
      assert a + b == b;
    } else {
      TailOfSum(a, b);
      NonEmptyAppend(a[1..], b);
    }
  }

  lemma {:induction false} SplitAt(a: string, b: string)
    ensures Items(a + ";" + b) == Items(a) + Items(b)
  {
    if a == "" {
      assert a + ";" + b == ";" + b && (";" + b)[1..] == b;
    } else {
      SplitAt(a[1..], b);
      Associate(a, ";", b);
      TailOfSum(a, ";" + b);
      Associate(a[1..], ";", b);
      var parts := Items(a[1..]);
      TailOfSum(parts, Items(b));
    }
  }

  /** Separators only separate. */
  lemma CommandsAt(a: string, b: string)
    ensures Commands(a + ";" + b) == Commands(a) + Commands(b)
    ensures Commands("") == []
  {
    SplitAt(a, b);
    NonEmptyAppend(Items(a), Items(b));
    assert Items("") == [""] && [""][1..] == [];
  }

  lemma {:induction false} CommandsOfFlat(items: seq<string>)
    requires Free(items, SEPARATOR)
    ensures Commands(Flat(items)) == NonEmpty(items)
  {
    CommandsAt("", "");
    if items != [] {
      assert Free(items[1..], SEPARATOR);
      CommandsOfFlat(items[1..]);
      CommandsAt(items[0], Flat(items[1..]));
      SplitHead(items[0], SEPARATOR, "");
      assert [items[0]][1..] == [];
    }
  }

  /** Collapsing double separators changes neither the first item nor the commands behind it. */
  lemma {:induction false} Collapse(s: string)
    ensures Items(Replace(s, ";;", ";"))[0] == Items(s)[0]
    ensures NonEmpty(Items(Replace(s, ";;", ";"))[1..]) == NonEmpty(Items(s)[1..])
    decreases |s|
  {
    if s == "" {
    } else if ";;" <= s {
      var t := Replace(s[2..], ";;", ";");
      Collapse(s[2..]);
      assert (";" + t)[1..] == t;
      assert Items(";" + t) == [""] + Items(t);
      assert s[0] == ';' && s[1] == ';' && s[1..][0] == ';' && s[1..][1..] == s[2..];
      assert Items(s[1..]) == [""] + Items(s[2..]);
      assert Items(s) == [""] + Items(s[1..]);
      assert NonEmpty([""] + Items(s[2..])) == NonEmpty(Items(s[2..])) by {
        assert ([""] + Items(s[2..]))[1..] == Items(s[2..]);
      }
      SameCommands(Items(t), Items(s[2..]));
    } else {
      var t := Replace(s[1..], ";;", ";");
      Collapse(s[1..]);
      assert ([s[0]] + t)[1..] == t;
      SameCommands(Items(t), Items(s[1..]));
    }
  }

  lemma SameCommands(a: seq<string>, b: seq<string>)
    requires a != [] && b != [] && a[0] == b[0] && NonEmpty(a[1..]) == NonEmpty(b[1..])
    ensures NonEmpty(a) == NonEmpty(b)
  {
  }

  lemma {:induction false} TrimStartCommands(s: string)
    ensures Commands(TrimStart(s, {SEPARATOR})) == Commands(s)
  {
    if s != "" && s[0] == SEPARATOR {
      TrimStartCommands(s[1..]);
      CommandsAt("", s[1..]);
      assert s == "" + ";" + s[1..];
    }
  }

  lemma CommandsBefore(s: string)
    ensures Commands(s + ";") == Commands(s)
  {
    CommandsAt(s, "");
    assert s + ";" + "" == s + ";";
    assert Commands(s) + [] == Commands(s);
  }

  lemma {:induction false} TrimEndCommands(s: string)
    ensures Commands(TrimEnd(s, {SEPARATOR})) == Commands(s)
  {
    hide Commands;
    if s != "" && s[|s| - 1] == SEPARATOR {
      TrimEndCommands(s[..|s| - 1]);
      CommandsBefore(s[..|s| - 1]);
      assert s == s[..|s| - 1] + ";";
    }
  }

  /** The clean-up after the replacement removes empty items only. */
  lemma TidyKeepsCommands(s: string)
    ensures Commands(Trim(Replace(s, ";;", ";"), {SEPARATOR})) == Commands(s)
  {
    var t := Replace(s, ";;", ";");
    Collapse(s);
    SameCommands(Items(t), Items(s));
    TrimStartCommands(t);
    TrimEndCommands(TrimStart(t, {SEPARATOR}));
  }

  lemma {:induction false} ReplaceNothing(s: string, pat: string)
    requires pat != ""
    ensures Replace(s, pat, pat) == s
    decreases |s|
  {
    if s != "" {
      if pat <= s {
        ReplaceNothing(s[|pat|..], pat);
        assert s == pat + s[|pat|..];
      } else {
        ReplaceNothing(s[1..], pat);
      }
    }
  }

  /** What saving makes of the commands, for every property and every pair of commands: a missing one is added at the
      end, a present one is replaced or removed where it stands, and all others stay as they are and in order. */
  lemma SavedCommands(property: string, oldCommand: string, newCommand: string)
    requires SEPARATOR !in oldCommand && SEPARATOR !in newCommand
    ensures Commands(Save(property, oldCommand, newCommand)) ==
            if oldCommand == "" then Commands(property) + NonEmpty([newCommand])
            else NonEmpty(ReplaceItems(Items(property), oldCommand, newCommand))
  {
    if oldCommand != "" {
      SavedOverOld(property, oldCommand, newCommand);
    } else if newCommand != "" {
      SplitHead(newCommand, SEPARATOR, "");
      CommandsAt(property, newCommand);
    } else {
      SavedNothing(property);
    }
  }

  lemma SavedNothing(property: string)
    ensures Commands(Save(property, "", "")) == Commands(property) + NonEmpty([""])
  {
    ReplaceNothing(";" + property + ";", ";;");
    assert ";" + "" + ";" == ";;";
    TidyKeepsCommands(";" + property + ";");
    CommandsAt("", property);
    CommandsAt(";" + property, "");
    assert "" + ";" + property == ";" + property;
    assert ";" + property + ";" + "" == ";" + property + ";";
    assert [""][1..] == [];
    assert NonEmpty([""]) == [];
    assert [] + Commands(property) + [] == Commands(property) + [];
  }

  lemma SavedOverOld(property: string, oldCommand: string, newCommand: string)
    requires SEPARATOR !in oldCommand && SEPARATOR !in newCommand && oldCommand != ""
    ensures Commands(Save(property, oldCommand, newCommand)) ==
            NonEmpty(ReplaceItems(Items(property), oldCommand, newCommand))
  {
    var items := Items(property);
    JoinSplit(property, SEPARATOR);
    FlatIsJoin(items);
    Associate(";", property, ";");
    ReplaceFlat(items, oldCommand, newCommand);
    var replaced := ReplaceItems(items, oldCommand, newCommand);
    ReplacedFree(items, oldCommand, newCommand);
    TidyKeepsCommands(";" + Flat(replaced));
    CommandsAt("", Flat(replaced));
    assert "" + ";" + Flat(replaced) == ";" + Flat(replaced);
    CommandsOfFlat(replaced);
    assert [] + Commands(Flat(replaced)) == Commands(Flat(replaced));
  }

  lemma {:induction false} ReplacedFree(items: seq<string>, oldCommand: string, newCommand: string)
    requires Free(items, SEPARATOR) && SEPARATOR !in newCommand
    ensures Free(ReplaceItems(items, oldCommand, newCommand), SEPARATOR)
    decreases |items|
  {
    if items == [] {
    } else if items[0] != oldCommand {
      assert Free(items[1..], SEPARATOR);
      ReplacedFree(items[1..], oldCommand, newCommand);
    } else if |items| > 1 {
      assert Free(items[2..], SEPARATOR);
      ReplacedFree(items[2..], oldCommand, newCommand);
    }
  }

  /** With no two occurrences next to each other the replacement is item by item. */
  predicate Apart(items: seq<string>, oldCommand: string) {
    forall i :: 0 <= i < |items| - 1 ==> !(items[i] == oldCommand && items[i + 1] == oldCommand)
  }

  lemma {:induction false} ReplacedEach(items: seq<string>, oldCommand: string, newCommand: string)
    requires Apart(items, oldCommand)
    ensures |ReplaceItems(items, oldCommand, newCommand)| == |items|
    ensures forall i :: 0 <= i < |items| ==>
              ReplaceItems(items, oldCommand, newCommand)[i] == if items[i] == oldCommand then newCommand else items[i]
    decreases |items|
  {
    if items == [] {
    } else if items[0] != oldCommand {
      var tail := items[1..];
      assert forall i :: 0 <= i < |tail| ==> tail[i] == items[i + 1];
      ReplacedEach(tail, oldCommand, newCommand);
    } else if |items| > 1 {
      var tail := items[2..];
      assert forall i :: 0 <= i < |tail| ==> tail[i] == items[i + 2];
      ReplacedEach(tail, oldCommand, newCommand);
      assert items[1] != oldCommand;
      var replaced := ReplaceItems(items, oldCommand, newCommand);
      assert replaced == [newCommand, items[1]] + ReplaceItems(tail, oldCommand, newCommand);
    }
  }

  // ----- the editor's own command -----

  const EXE: string := "%MyExe%"

  datatype Hook = OnStart | OnStop

  /** `RemoveIfStartswith`: leading blanks go only together with the value behind them. */
  function RemoveIfStartsWith(str: string, value: string): string {
    var newStr := TrimStart(str, {' '});
    if value <= newStr then newStr[|value|..] else str
  }

  function Peel(str: string, values: seq<string>): string
    decreases |values|
  {
    if values == [] then str else Peel(RemoveIfStartsWith(str, values[0]), values[1..])
  }

  function Endings(hook: Hook): (string, string) {
    if hook.OnStart? then ("-Integrate:once", "-Vintegrate") else ("-Remove", "-Remove:Reg")
  }

  function Parts(hook: Hook): seq<string> {
    if hook.OnStart? then [EXE, ">", "-Quiet", "-Integrate:once", "-Vintegrate"]
    else [EXE, ">", "-Confirm", "-Quiet", "-Remove:Reg", "-Remove"]
  }

  /** The editor takes a command for its own when it runs the package itself and has nothing but known options. */
  predicate IsOwn(hook: Hook, command: string) {
    && EXE + ">" <= command
    && (EndsWith(command, Endings(hook).0) || EndsWith(command, Endings(hook).1))
    && Peel(command, Parts(hook)) == ""
  }

  /** The first own command, empty when there is none. */
  function FirstOwn(hook: Hook, items: seq<string>): (r: string)
    ensures r != "" ==> IsOwn(hook, r) && r in items
  {
    if items == [] then "" else if IsOwn(hook, items[0]) then items[0] else FirstOwn(hook, items[1..])
  }

  lemma {:induction false} FirstOwnNone(hook: Hook, items: seq<string>)
    ensures FirstOwn(hook, items) == "" <==> forall i :: 0 <= i < |items| ==> !IsOwn(hook, items[i])
  {
    if items != [] {
      FirstOwnNone(hook, items[1..]);
      if forall i :: 0 <= i < |items[1..]| ==> !IsOwn(hook, items[1..][i]) {
        assert forall i :: 1 <= i < |items| ==> items[i] == items[1..][i - 1];
      } else {
        var i :| 0 <= i < |items[1..]| && IsOwn(hook, items[1..][i]);
        assert items[i + 1] == items[1..][i];
      }
    }
  }

  lemma {:induction false} FirstOwnNonEmpty(hook: Hook, items: seq<string>)
    ensures FirstOwn(hook, NonEmpty(items)) == FirstOwn(hook, items)
  {
    if items != [] {
      FirstOwnNonEmpty(hook, items[1..]);
      if items[0] != "" {
        assert NonEmpty(items)[1..] == NonEmpty(items[1..]);
      } else {
        assert NonEmpty(items) == NonEmpty(items[1..]);
      }
    }
  }

  lemma {:induction false} FirstOwnAppend(hook: Hook, a: seq<string>, b: seq<string>)
    ensures FirstOwn(hook, a + b) == if FirstOwn(hook, a) != "" then FirstOwn(hook, a) else FirstOwn(hook, b)
  {
    if a == [] {
      assert a + b == b;
    } else {
      TailOfSum(a, b);
      FirstOwnAppend(hook, a[1..], b);
    }
  }

  /** Replacing the first own command by another makes that one the first. */
  lemma {:induction false} FirstOwnReplaced(hook: Hook, items: seq<string>, newCommand: string)
    requires FirstOwn(hook, items) != "" && IsOwn(hook, newCommand)
    ensures FirstOwn(hook, ReplaceItems(items, FirstOwn(hook, items), newCommand)) == newCommand
  {
    var oldCommand := FirstOwn(hook, items);
    var replaced := ReplaceItems(items, oldCommand, newCommand);
    if items[0] != oldCommand {
      FirstOwnReplaced(hook, items[1..], newCommand);
      assert replaced[1..] == ReplaceItems(items[1..], oldCommand, newCommand);
    } else {
      assert replaced[0] == newCommand;
    }
  }

  /** Whether removing a command leaves no other that the editor takes for its own: each own one is that command, and no
      two stand next to each other. */
  predicate RemovesAll(hook: Hook, items: seq<string>, oldCommand: string) {
    && Apart(items, oldCommand)
    && forall i :: 0 <= i < |items| && IsOwn(hook, items[i]) ==> items[i] == oldCommand
  }

  lemma {:induction false} FirstOwnRemoved(hook: Hook, items: seq<string>, oldCommand: string)
    requires IsOwn(hook, oldCommand)
    ensures FirstOwn(hook, ReplaceItems(items, oldCommand, "")) == "" <==> RemovesAll(hook, items, oldCommand)
    decreases |items|
  {
    hide RemovesAll, IsOwn;
    if items == [] {
      NothingOwn(hook, oldCommand);
    } else if items[0] != oldCommand {
      FirstOwnRemoved(hook, items[1..], oldCommand);
      OtherItems(items, oldCommand, "");
      FirstOwnCons(hook, items[0], ReplaceItems(items[1..], oldCommand, ""));
      RemovesAllCons(hook, items, oldCommand);
    } else {
      RemovedFirst(hook, items, oldCommand);
    }
  }

  lemma NothingOwn(hook: Hook, oldCommand: string)
    ensures RemovesAll(hook, [], oldCommand) && FirstOwn(hook, []) == "" && !IsOwn(hook, "")
  {
  }

  lemma FirstOwnCons(hook: Hook, item: string, items: seq<string>)
    ensures FirstOwn(hook, [item] + items) == if IsOwn(hook, item) then item else FirstOwn(hook, items)
    ensures IsOwn(hook, item) ==> item != ""
  {
    assert ([item] + items)[1..] == items;
  }

  lemma RemovedFirst(hook: Hook, items: seq<string>, oldCommand: string)
    requires IsOwn(hook, oldCommand) && items != [] && items[0] == oldCommand
    ensures FirstOwn(hook, ReplaceItems(items, oldCommand, "")) == "" <==> RemovesAll(hook, items, oldCommand)
    decreases |items|, 0
  {
    hide RemovesAll, IsOwn, FirstOwn, ReplaceItems;
    MatchedItems(items, oldCommand, "");
    NothingOwn(hook, oldCommand);
    RemovesAllCons(hook, items, oldCommand);
    if |items| == 1 {
      FirstOwnCons(hook, "", []);
      assert items[1..] == [];
    } else {
      var rest := ReplaceItems(items[2..], oldCommand, "");
      FirstOwnRemoved(hook, items[2..], oldCommand);
      FirstOwnCons(hook, "", [items[1]] + rest);
      FirstOwnCons(hook, items[1], rest);
      RemovesAllCons(hook, items[1..], oldCommand);
      assert items[1..][0] == items[1] && items[1..][1..] == items[2..];
    }
  }

  lemma RemovesAllCons(hook: Hook, items: seq<string>, oldCommand: string)
    requires items != []
    ensures RemovesAll(hook, items, oldCommand) <==>
            && (IsOwn(hook, items[0]) ==> items[0] == oldCommand)
            && !(|items| > 1 && items[0] == oldCommand && items[1] == oldCommand)
            && RemovesAll(hook, items[1..], oldCommand)
  {
    var tail := items[1..];
    assert forall i :: 0 <= i < |tail| ==> tail[i] == items[i + 1];
    if RemovesAll(hook, tail, oldCommand) && (IsOwn(hook, items[0]) ==> items[0] == oldCommand) &&
       !(|items| > 1 && items[0] == oldCommand && items[1] == oldCommand)
    {
      forall i | 0 <= i < |items| && IsOwn(hook, items[i]) ensures items[i] == oldCommand {
        if i > 0 { assert tail[i - 1] == items[i]; }
      }
      forall i | 0 <= i < |items| - 1 ensures !(items[i] == oldCommand && items[i + 1] == oldCommand) {
        if i > 0 { assert !(tail[i - 1] == oldCommand && tail[i] == oldCommand); }
      }
    }
    if RemovesAll(hook, items, oldCommand) {
      forall i | 0 <= i < |tail| - 1 ensures !(tail[i] == oldCommand && tail[i + 1] == oldCommand) {
        assert tail[i + 1] == items[i + 2];
      }
    }
  }

  /** Reading the property again gives the command that was saved, except when one is removed and others that the editor
      takes for its own stay behind. */
  lemma Reread(hook: Hook, property: string, newCommand: string)
    requires SEPARATOR !in newCommand && (newCommand != "" ==> IsOwn(hook, newCommand))
    ensures var oldCommand := FirstOwn(hook, Items(property));
            FirstOwn(hook, Items(Save(property, oldCommand, newCommand))) == newCommand <==>
            newCommand != "" || oldCommand == "" || RemovesAll(hook, Items(property), oldCommand)
  {
    var items, oldCommand := Items(property), FirstOwn(hook, Items(property));
    OldFree(hook, property);
    SavedCommands(property, oldCommand, newCommand);
    FirstOwnNonEmpty(hook, Items(Save(property, oldCommand, newCommand)));
    if oldCommand == "" {
      FirstOwnNonEmpty(hook, items);
      FirstOwnAppend(hook, NonEmpty(items), NonEmpty([newCommand]));
      assert [newCommand][1..] == [];
    } else {
      FirstOwnNonEmpty(hook, ReplaceItems(items, oldCommand, newCommand));
      if newCommand != "" {
        FirstOwnReplaced(hook, items, newCommand);
      } else {
        FirstOwnRemoved(hook, items, oldCommand);
      }
    }
  }

  lemma OldFree(hook: Hook, property: string)
    ensures SEPARATOR !in FirstOwn(hook, Items(property))
  {
    JoinSplit(property, SEPARATOR);
    var items, oldCommand := Items(property), FirstOwn(hook, Items(property));
    if oldCommand != "" {
      var i :| 0 <= i < |items| && items[i] == oldCommand;
    }
  }
}
