/** The integration and clean-up choices of the package editor and the commands that stand for them
    (PackageEditor/MainForm.cs). */
module CommandChoices {
  import opened Sequences
  import opened CommandSplice
  import opened OwnCommands
  import opened Wrappers

  datatype Integration = NoIntegration | Standard | Virtual

  datatype Cleanup = NoCleanup | Cleanup(ask: bool, doneDialog: bool, regOnly: bool)

  function StartCommand(choice: Integration): string {
    if choice.NoIntegration? then ""
    else EXE + ">" + Trim(" " + "-Quiet" + " " + (if choice.Standard? then "-Integrate:once" else "-Vintegrate"), BLANK)
  }

  function StopCommand(choice: Cleanup): string {
    if choice.NoCleanup? then ""
    else
      EXE + ">" +
      Trim((if choice.ask then " " + "-Confirm" else "") + (if choice.doneDialog then "" else " " + "-Quiet") + " " +
           (if choice.regOnly then "-Remove:Reg" else "-Remove"), BLANK)
  }

  predicate PartAt(s: string, i: nat, part: string) {
    i + |part| <= |s| && s[i..i + |part|] == part
  }

  predicate Contains(s: string, part: string) {
    exists i: nat :: i <= |s| && PartAt(s, i, part)
  }

  /** The choice shown for a command. */
  function ShownIntegration(command: string): Integration {
    if command == "" then NoIntegration
    else if EndsWith(command, "-Integrate:once") then Standard
    else Virtual
  }

  function ShownCleanup(command: string): Cleanup {
    if command == "" then NoCleanup
    else Cleanup(Contains(command, "-Confirm"), !Contains(command, "-Quiet"), EndsWith(command, "-Remove:Reg"))
  }

  // ----- what is shown for any command of the editor -----

  lemma EndsWithTail(head: string, tail: string)
    ensures EndsWith(head + tail, tail)
  {
  }

  /** Two endings that differ in the third character from the end. */
  lemma OtherEnding(head: string, tail: string, other: string)
    requires |tail| >= 3 && |other| >= 3 && tail[|tail| - 3] != other[|other| - 3]
    ensures !EndsWith(head + tail, other)
  {
    var s := head + tail;
    assert s[|s| - 3] == tail[|tail| - 3];
    assert |other| <= |s| ==> s[|s| - |other|..][|other| - 3] == s[|s| - 3];
  }

  /** No dash is followed by the character. */
  predicate NoOption(s: string, c: char) {
    forall i :: 0 <= i < |s| - 1 ==> s[i] != '-' || s[i + 1] != c
  }

  lemma NoOptionInSum(a: string, b: string, c: char)
    requires NoOption(a, c) && NoOption(b, c) && (a != "" ==> a[|a| - 1] != '-')
    ensures NoOption(a + b, c)
  {
    var s := a + b;
    forall i | 0 <= i < |s| - 1 ensures s[i] != '-' || s[i + 1] != c {
      if i >= |a| { assert s[i] == b[i - |a|] && s[i + 1] == b[i + 1 - |a|]; }
    }
  }

  lemma NotContained(s: string, part: string)
    requires |part| >= 2 && part[0] == '-' && NoOption(s, part[1])
    ensures !Contains(s, part)
  {
    forall i: nat | i <= |s| ensures !PartAt(s, i, part) {
      assert i + |part| <= |s| ==> s[i] == s[i..i + |part|][0] && s[i + 1] == s[i..i + |part|][1];
    }
  }

  lemma Contained(head: string, part: string, tail: string)
    ensures Contains(head + part + tail, part)
  {
    var s := head + part + tail;
    assert s[|head|..|head| + |part|] == part;
    assert PartAt(s, |head|, part);
  }

  /** Any start command of the editor is shown by its last option, however it is spelled. */
  lemma StartShapeShown(c: string, quiet: Option<nat>, once: Option<nat>, virtual: Option<nat>)
    requires StartShape(c, quiet, once, virtual)
    ensures ShownIntegration(c) == if virtual.Some? then Virtual else Standard
  {
    hide Opt;
    var a, b, d := Opt(quiet, "-Quiet"), Opt(once, "-Integrate:once"), Opt(virtual, "-Vintegrate");
    if virtual.Some? {
      OptEnds(virtual, "-Vintegrate");
      Associate(a, b, d);
      Associate("%MyExe%>", a + b, d);
      var head := "%MyExe%>" + (a + b) + Blanks(virtual.value);
      Associate("%MyExe%>" + (a + b), Blanks(virtual.value), "-Vintegrate");
      OtherEnding(head, "-Vintegrate", "-Integrate:once");
    } else {
      OptEnds(once, "-Integrate:once");
      OptNone("-Vintegrate");
      assert b + d == b;
      Associate("%MyExe%>", a, b);
      Associate("%MyExe%>" + a, Blanks(once.value), "-Integrate:once");
      EndsWithTail("%MyExe%>" + a + Blanks(once.value), "-Integrate:once");
    }
  }

  /** No dash with the character behind it, and no dash at the end. */
  predicate Without(s: string, c: char) {
    NoOption(s, c) && (s != "" ==> s[|s| - 1] != '-')
  }

  lemma WithoutOpt(blanks: Option<nat>, option: string, c: char)
    requires Without(option, c)
    ensures Without(Opt(blanks, option), c)
  {
    if blanks.Some? {
      NoOptionInSum(Blanks(blanks.value), option, c);
    }
  }

  lemma WithoutSum(a: string, b: string, c: char)
    requires Without(a, c) && Without(b, c)
    ensures Without(a + b, c)
  {
    NoOptionInSum(a, b, c);
  }

  lemma WithoutAll(a: Option<nat>, q: Option<nat>, r: Option<nat>, w: Option<nat>, c: char)
    requires (c == 'C' && a.None?) || (c == 'Q' && q.None?)
    ensures var options := Opt(a, "-Confirm") + (Opt(q, "-Quiet") + (Opt(r, "-Remove:Reg") + Opt(w, "-Remove")));
            NoOption("%MyExe%>" + options, c)
  {
    WithoutTexts(c);
    if a.Some? { WithoutOpt(a, "-Confirm", c); }
    if q.Some? { WithoutOpt(q, "-Quiet", c); }
    WithoutOpt(r, "-Remove:Reg", c);
    WithoutOpt(w, "-Remove", c);
    WithoutNone(a, q, c);
    hide Without, Opt;
    var x, y, b, d := Opt(a, "-Confirm"), Opt(q, "-Quiet"), Opt(r, "-Remove:Reg"), Opt(w, "-Remove");
    WithoutSum(b, d, c);
    WithoutSum(y, b + d, c);
    WithoutSum(x, y + (b + d), c);
    WithoutSum("%MyExe%>", x + (y + (b + d)), c);
    WithoutIs("%MyExe%>" + (x + (y + (b + d))), c);
  }

  lemma WithoutIs(s: string, c: char)
    requires Without(s, c)
    ensures NoOption(s, c)
  {
  }

  lemma WithoutNone(a: Option<nat>, q: Option<nat>, c: char)
    ensures a.None? ==> Without(Opt(a, "-Confirm"), c)
    ensures q.None? ==> Without(Opt(q, "-Quiet"), c)
  {
  }

  lemma WithoutTexts(c: char)
    requires c in {'C', 'Q'}
    ensures Without("-Remove:Reg", c) && Without("-Remove", c) && Without("%MyExe%>", c)
    ensures c == 'Q' ==> Without("-Confirm", c)
    ensures c == 'C' ==> Without("-Quiet", c)
  {
  }

  lemma OptContained(before: string, blanks: nat, option: string, after: string)
    ensures Contains(before + (Opt(Some(blanks), option) + after), option)
  {
    Associate(before, Opt(Some(blanks), option), after);
    Associate(before, Blanks(blanks), option);
    Contained(before + Blanks(blanks), option, after);
  }

  /** Any clean-up command of the editor is shown with exactly the options it has; of the two last ones, the last
      counts. */
  lemma StopShapeShown(c: string, ask: Option<nat>, quiet: Option<nat>, regOnly: Option<nat>, all: Option<nat>)
    requires StopShape(c, ask, quiet, regOnly, all)
    ensures ShownCleanup(c) == Cleanup(ask.Some?, quiet.None?, all.None?)
  {
    hide Opt, Contains, NoOption;
    var x, y, b, d := Opt(ask, "-Confirm"), Opt(quiet, "-Quiet"), Opt(regOnly, "-Remove:Reg"), Opt(all, "-Remove");
    if ask.Some? {
      OptContained("%MyExe%>", ask.value, "-Confirm", y + (b + d));
    } else {
      WithoutAll(ask, quiet, regOnly, all, 'C');
      NotContained(c, "-Confirm");
    }
    if quiet.Some? {
      OptContained("%MyExe%>" + x, quiet.value, "-Quiet", b + d);
      Associate("%MyExe%>", x, y + (b + d));
    } else {
      WithoutAll(ask, quiet, regOnly, all, 'Q');
      NotContained(c, "-Quiet");
    }
    StopShapeEnds("%MyExe%>" + x + y, regOnly, all);
    Associate("%MyExe%>", x, y + (b + d));
    Associate("%MyExe%>" + x, y, b + d);
  }

  lemma StopShapeEnds(head: string, regOnly: Option<nat>, all: Option<nat>)
    requires regOnly.Some? || all.Some?
    ensures EndsWith(head + (Opt(regOnly, "-Remove:Reg") + Opt(all, "-Remove")), "-Remove:Reg") <==> all.None?
  {
    hide Opt, EndsWith;
    var b, d := Opt(regOnly, "-Remove:Reg"), Opt(all, "-Remove");
    OptEnds(regOnly, "-Remove:Reg");
    OptEnds(all, "-Remove");
    Associate(head, b, d);
    if all.Some? {
      Associate(head + b, Blanks(all.value), "-Remove");
      OtherEnding(head + b + Blanks(all.value), "-Remove", "-Remove:Reg");
    } else {
      OptNone("-Remove");
      assert b + d == b;
      Associate(head, Blanks(regOnly.value), "-Remove:Reg");
      EndsWithTail(head + Blanks(regOnly.value), "-Remove:Reg");
    }
  }

  lemma OptEnds(blanks: Option<nat>, option: string)
    ensures blanks.Some? ==> Opt(blanks, option) == Blanks(blanks.value) + option
  {
  }

  lemma OptNone(option: string)
    ensures Opt(None, option) == ""
  {
  }

  // ----- integration -----

  lemma TrimBlank(t: string)
    requires t != "" && t[0] != ' ' && t[|t| - 1] != ' '
    ensures TrimStart(t, BLANK) == t && TrimStart(" " + t, BLANK) == t
    ensures Trim(" " + t, BLANK) == t
  {
    assert (" " + t)[0] == ' ' && (" " + t)[1..] == t;
  }

  function StartOption(choice: Integration): string {
    if choice.Standard? then "-Integrate:once" else "-Vintegrate"
  }

  lemma StartCommandIs(choice: Integration)
    requires !choice.NoIntegration?
    ensures StartCommand(choice) == EXE + ">" + ("-Quiet" + (" " + StartOption(choice)))
  {
    var t := "-Quiet" + (" " + StartOption(choice));
    assert t[|t| - 1] == StartOption(choice)[|StartOption(choice)| - 1];
    assert " " + "-Quiet" + " " + StartOption(choice) == " " + t;
    TrimBlank(t);
  }

  /** What stands in front of the option. */
  const START_HEAD: string := EXE + ">" + ("-Quiet" + " ")

  lemma StartEnds(choice: Integration)
    requires !choice.NoIntegration?
    ensures StartCommand(choice) == START_HEAD + StartOption(choice)
  {
    StartCommandIs(choice);
    Associate("-Quiet", " ", StartOption(choice));
    Associate(EXE + ">", "-Quiet" + " ", StartOption(choice));
  }

  lemma OptNow(option: string)
    ensures Opt(Some(0), option) == option && Opt(Some(1), option) == " " + option && Opt(None, option) == ""
  {
    assert Blanks(0) == "" && Blanks(1) == " ";
    assert "" + option == option;
  }

  lemma StartOwn(choice: Integration)
    requires !choice.NoIntegration?
    ensures IsOwn(OnStart, StartCommand(choice)) && ShownIntegration(StartCommand(choice)) == choice
  {
    hide Opt, ShownIntegration;
    var option := StartOption(choice);
    StartCommandIs(choice);
    OwnStart(StartCommand(choice));
    OptNow("-Quiet");
    OptNow("-Integrate:once");
    OptNow("-Vintegrate");
    assert EXE + ">" == "%MyExe%>";
    if choice.Standard? {
      assert " " + option + "" == " " + option;
      assert StartShape(StartCommand(choice), Some(0), Some(1), None);
      StartShapeShown(StartCommand(choice), Some(0), Some(1), None);
    } else {
      assert "" + (" " + option) == " " + option;
      assert StartShape(StartCommand(choice), Some(0), None, Some(1));
      StartShapeShown(StartCommand(choice), Some(0), None, Some(1));
    }
  }

  predicate NoSeparator(s: string) { SEPARATOR !in s }

  /** The command for a choice is one the editor takes for its own, and it is shown as that choice. */
  lemma StartChoice(choice: Integration)
    ensures NoSeparator(StartCommand(choice))
    ensures choice.NoIntegration? <==> StartCommand(choice) == ""
    ensures !choice.NoIntegration? ==> IsOwn(OnStart, StartCommand(choice))
    ensures ShownIntegration(StartCommand(choice)) == choice
  {
    if !choice.NoIntegration? {
      StartCommandIs(choice);
      assert NoSeparator(EXE + ">") && NoSeparator("-Quiet") && NoSeparator(StartOption(choice));
      StartOwn(choice);
    }
  }

  // ----- clean-up -----

  function StopOption(choice: Cleanup): string
    requires choice.Cleanup?
  {
    if choice.regOnly then "-Remove:Reg" else "-Remove"
  }

  function StopQuiet(choice: Cleanup): string
    requires choice.Cleanup?
  {
    if choice.doneDialog then StopOption(choice) else "-Quiet" + (" " + StopOption(choice))
  }

  function StopText(choice: Cleanup): string
    requires choice.Cleanup?
  {
    if choice.ask then "-Confirm" + (" " + StopQuiet(choice)) else StopQuiet(choice)
  }

  lemma StopCommandIs(choice: Cleanup)
    requires choice.Cleanup?
    ensures StopCommand(choice) == EXE + ">" + StopText(choice)
  {
    StopEnds(choice);
    StopParts(choice);
    TrimBlank(StopText(choice));
  }

  lemma StopParts(choice: Cleanup)
    requires choice.Cleanup?
    ensures (if choice.ask then " " + "-Confirm" else "") + (if choice.doneDialog then "" else " " + "-Quiet") +
              " " + (if choice.regOnly then "-Remove:Reg" else "-Remove") == " " + StopText(choice)
  {
    var option := StopOption(choice);
    var quiet := if choice.doneDialog then "" else " " + "-Quiet";
    assert quiet + " " + option == " " + StopQuiet(choice) by {
      if !choice.doneDialog {
        Associate(" ", "-Quiet", " " + option);
      } else {
        assert "" + " " + option == " " + option;
      }
    }
    if choice.ask {
      assert " " + "-Confirm" + quiet + " " + option == " " + "-Confirm" + (quiet + " " + option);
      Associate(" ", "-Confirm", " " + StopQuiet(choice));
    } else {
      assert "" + quiet + " " + option == quiet + " " + option;
    }
  }

  /** What stands in front of the last option. */
  function StopHead(choice: Cleanup): string
    requires choice.Cleanup?
  {
    (if choice.ask then "-Confirm" + " " else "") + (if choice.doneDialog then "" else "-Quiet" + " ")
  }

  lemma StopEnds(choice: Cleanup)
    requires choice.Cleanup?
    ensures StopText(choice) == StopHead(choice) + StopOption(choice)
    ensures StopText(choice)[0] == '-'
    ensures StopText(choice)[|StopText(choice)| - 1] != ' '
  {
    var option, quiet := StopOption(choice), StopQuiet(choice);
    assert quiet == (if choice.doneDialog then "" else "-Quiet" + " ") + option by {
      if choice.doneDialog { assert "" + option == option; } else { Associate("-Quiet", " ", option); }
    }
    StopHeadOf(choice);
    assert StopText(choice)[|StopText(choice)| - 1] == option[|option| - 1];
  }

  lemma StopHeadOf(choice: Cleanup)
    requires choice.Cleanup?
    requires StopQuiet(choice) == (if choice.doneDialog then "" else "-Quiet" + " ") + StopOption(choice)
    ensures StopText(choice) == StopHead(choice) + StopOption(choice)
  {
    var middle := if choice.doneDialog then "" else "-Quiet" + " ";
    if choice.ask {
      Associate("-Confirm", " ", StopQuiet(choice));
      Associate("-Confirm" + " ", middle, StopOption(choice));
    } else {
      assert "" + middle == middle;
    }
  }

  /** The last option with its blank, when others stand before it or not. */
  lemma LastOption(choice: Cleanup, blank: nat)
    requires choice.Cleanup? && blank <= 1
    ensures var r, w := if choice.regOnly then Some(blank) else None, if choice.regOnly then None else Some(blank);
            Opt(r, "-Remove:Reg") + Opt(w, "-Remove") == (if blank == 1 then " " else "") + StopOption(choice)
  {
    OptNow("-Remove:Reg");
    OptNow("-Remove");
    assert "" + StopOption(choice) == StopOption(choice);
    assert StopOption(choice) + "" == StopOption(choice);
    assert " " + StopOption(choice) + "" == " " + StopOption(choice);
    assert "" + (" " + StopOption(choice)) == " " + StopOption(choice);
  }

  lemma StopOwn(choice: Cleanup)
    requires choice.Cleanup?
    ensures IsOwn(OnStop, StopCommand(choice)) && ShownCleanup(StopCommand(choice)) == choice
  {
    hide Opt, ShownCleanup;
    var n := if choice.ask || !choice.doneDialog then 1 else 0;
    var a := if choice.ask then Some(0) else None;
    var q := if choice.doneDialog then None else Some(if choice.ask then 1 else 0);
    var r, w := if choice.regOnly then Some(n) else None, if choice.regOnly then None else Some(n);
    StopCommandIs(choice);
    OwnStop(StopCommand(choice));
    LastOption(choice, n);
    QuietOption(choice, n);
    OptNow("-Confirm");
    var text := Opt(a, "-Confirm") + (Opt(q, "-Quiet") + (Opt(r, "-Remove:Reg") + Opt(w, "-Remove")));
    assert text == StopText(choice) by {
      if choice.ask {
        assert text == "-Confirm" + (" " + StopQuiet(choice));
      } else {
        assert "" + StopQuiet(choice) == StopQuiet(choice);
      }
    }
    assert EXE + ">" == "%MyExe%>";
    assert StopShape(StopCommand(choice), a, q, r, w);
    StopShapeShown(StopCommand(choice), a, q, r, w);
  }

  lemma QuietOption(choice: Cleanup, n: nat)
    requires choice.Cleanup? && n == if choice.ask || !choice.doneDialog then 1 else 0
    ensures var q := if choice.doneDialog then None else Some(if choice.ask then 1 else 0);
            Opt(q, "-Quiet") + ((if n == 1 then " " else "") + StopOption(choice)) ==
            (if choice.ask then " " else "") + StopQuiet(choice)
  {
    hide Opt;
    OptNow("-Quiet");
    var option := StopOption(choice);
    assert "" + option == option && "" + ("" + option) == option && "" + (" " + option) == " " + option;
    assert " " + "-Quiet" + (" " + option) == " " + ("-Quiet" + (" " + option));
    assert "" + ("-Quiet" + (" " + option)) == "-Quiet" + (" " + option);
  }

  /** The same for the clean-up choices: the three options are read off the command as they were set. */
  lemma StopChoice(choice: Cleanup)
    ensures NoSeparator(StopCommand(choice))
    ensures choice.NoCleanup? <==> StopCommand(choice) == ""
    ensures choice.Cleanup? ==> IsOwn(OnStop, StopCommand(choice))
    ensures ShownCleanup(StopCommand(choice)) == choice
  {
    if choice.Cleanup? {
      StopCommandIs(choice);
      assert NoSeparator(EXE + ">") && NoSeparator("-Confirm") && NoSeparator("-Quiet");
      assert NoSeparator(StopOption(choice));
      StopOwn(choice);
    }
  }

  // ----- the texts -----

  /** The commands as they stand in the package. */
  lemma StartText(choice: Integration)
    ensures StartCommand(choice) ==
            match choice
            case NoIntegration => ""
            case Standard => "%MyExe%>-Quiet -Integrate:once"
            case Virtual => "%MyExe%>-Quiet -Vintegrate"
  {
    if !choice.NoIntegration? {
      StartEnds(choice);
      assert START_HEAD == "%MyExe%>-Quiet ";
    }
  }

  lemma CleanupText(choice: Cleanup)
    ensures StopCommand(choice) ==
            if choice.NoCleanup? then ""
            else "%MyExe%>" + (CleanupOptions(choice) + (if choice.regOnly then "-Remove:Reg" else "-Remove"))
  {
    if choice.Cleanup? {
      HeadText(choice);
      assert EXE + ">" == "%MyExe%>";
      StopCommandIs(choice);
      StopEnds(choice);
      hide StopCommand, StopText, StopHead, CleanupOptions;
    }
  }

  /** The options in front of the last one. */
  function CleanupOptions(choice: Cleanup): string
    requires choice.Cleanup?
  {
    if choice.ask then (if choice.doneDialog then "-Confirm " else "-Confirm -Quiet ")
    else if choice.doneDialog then ""
    else "-Quiet "
  }

  lemma HeadText(choice: Cleanup)
    requires choice.Cleanup?
    ensures StopHead(choice) == CleanupOptions(choice)
  {
    assert "-Confirm" + " " == "-Confirm " && "-Quiet" + " " == "-Quiet ";
    assert "" + "" == "" && "" + "-Quiet " == "-Quiet " && "-Confirm " + "" == "-Confirm ";
    assert "-Confirm " + "-Quiet " == "-Confirm -Quiet ";
  }

  // ----- the package properties -----

  /** The first item of the form of the editor's own commands. */
  ghost predicate FirstShaped(hook: Hook, items: seq<string>, i: nat) {
    i < |items| && Shaped(hook, items[i]) && forall j :: 0 <= j < i ==> !Shaped(hook, items[j])
  }

  /** `GetIntegrateStartCommand` and `GetCleanupStopCommand`: the loop over the items. */
  method GetCommand(hook: Hook, property: string) returns (command: string)
    ensures command == FirstOwn(hook, Items(property))
    ensures command == "" <==> forall i :: 0 <= i < |Items(property)| ==> !Shaped(hook, Items(property)[i])
    ensures command != "" ==> exists i: nat :: FirstShaped(hook, Items(property), i) && command == Items(property)[i]
  {
    hide IsOwn, Shaped;
    var items := Items(property);
    NotEmpty(hook);
    for i := 0 to |items|
      invariant FirstOwn(hook, items) == FirstOwn(hook, items[i..])
      invariant forall j :: 0 <= j < i ==> !Shaped(hook, items[j])
    {
      assert items[i..][1..] == items[i + 1..];
      OwnIsShaped(hook, items[i]);
      if IsOwn(hook, items[i]) {
        assert FirstShaped(hook, items, i);
        return items[i];
      }
    }
    command := "";
  }

  lemma NotEmpty(hook: Hook)
    ensures !Shaped(hook, "") && !IsOwn(hook, "")
  {
    OwnIsShaped(hook, "");
  }

  class Package {
    var onStartUnvirtualized: string
    var onStopUnvirtualized: string

    constructor (onStart: string, onStop: string)
      ensures onStartUnvirtualized == onStart && onStopUnvirtualized == onStop
    {
      onStartUnvirtualized, onStopUnvirtualized := onStart, onStop;
    }

    /** The part of `OnPackageSave` for the two properties. */
    method OnPackageSave(integration: Integration, cleanup: Cleanup)
      modifies this
      ensures onStartUnvirtualized ==
              Save(old(onStartUnvirtualized), FirstOwn(OnStart, Items(old(onStartUnvirtualized))),
                   StartCommand(integration))
      ensures onStopUnvirtualized ==
              Save(old(onStopUnvirtualized), FirstOwn(OnStop, Items(old(onStopUnvirtualized))), StopCommand(cleanup))
      ensures Others(OnStart, Commands(onStartUnvirtualized)) == Others(OnStart, Commands(old(onStartUnvirtualized)))
      ensures Others(OnStop, Commands(onStopUnvirtualized)) == Others(OnStop, Commands(old(onStopUnvirtualized)))
    {
      StartChoice(integration);
      StopChoice(cleanup);
      OthersKept(OnStart, onStartUnvirtualized, StartCommand(integration));
      OthersKept(OnStop, onStopUnvirtualized, StopCommand(cleanup));
      var oldCommand := GetCommand(OnStart, onStartUnvirtualized);
      onStartUnvirtualized := Splice(onStartUnvirtualized, oldCommand, StartCommand(integration));
      oldCommand := GetCommand(OnStop, onStopUnvirtualized);
      onStopUnvirtualized := Splice(onStopUnvirtualized, oldCommand, StopCommand(cleanup));
    }
  }

  /** The old command is the one found in the property, and the new one, if any, is one of the editor's own. */
  predicate Edits(hook: Hook, property: string, oldCommand: string, newCommand: string) {
    && oldCommand == FirstOwn(hook, Items(property))
    && SEPARATOR !in newCommand && (newCommand != "" ==> IsOwn(hook, newCommand))
  }

  /** The edit of one property in place. What the commands are afterwards, and what is found on reading again. */
  method Splice(property: string, oldCommand: string, newCommand: string) returns (str: string)
    ensures str == Save(property, oldCommand, newCommand)
    ensures SEPARATOR !in oldCommand && SEPARATOR !in newCommand ==>
              Commands(str) == if oldCommand == "" then Commands(property) + NonEmpty([newCommand])
                               else NonEmpty(ReplaceItems(Items(property), oldCommand, newCommand))
    ensures forall hook: Hook :: Edits(hook, property, oldCommand, newCommand) ==>
              (FirstOwn(hook, Items(str)) == newCommand <==>
               newCommand != "" || oldCommand == "" || RemovesAll(hook, Items(property), oldCommand))
  {
    str := property;
    if oldCommand == "" && newCommand != "" {
      str := str + (";" + newCommand);
      Associate(property, ";", newCommand);
    } else {
      str := ";" + str + ";";
      str := Replace(str, ";" + oldCommand + ";", ";" + newCommand + ";");
      str := Replace(str, ";;", ";");
      str := Trim(str, {SEPARATOR});
    }
    if SEPARATOR !in oldCommand && SEPARATOR !in newCommand {
      SavedCommands(property, oldCommand, newCommand);
    }
    forall hook: Hook | Edits(hook, property, oldCommand, newCommand)
      ensures FirstOwn(hook, Items(str)) == newCommand <==>
              newCommand != "" || oldCommand == "" || RemovesAll(hook, Items(property), oldCommand)
    {
      Reread(hook, property, newCommand);
    }
  }

  /** What the editor shows after saving and opening again: the choices that were saved, unless a command was to be
      removed and the property had further ones that the editor takes for its own. */
  lemma ShownAfterSave(onStart: string, onStop: string, integration: Integration, cleanup: Cleanup)
    ensures var own := FirstOwn(OnStart, Items(onStart));
            ShownIntegration(FirstOwn(OnStart, Items(Save(onStart, own, StartCommand(integration)))))
              == integration <==>
            !integration.NoIntegration? || own == "" || RemovesAll(OnStart, Items(onStart), own)
    ensures var own := FirstOwn(OnStop, Items(onStop));
            ShownCleanup(FirstOwn(OnStop, Items(Save(onStop, own, StopCommand(cleanup))))) == cleanup <==>
            !cleanup.NoCleanup? || own == "" || RemovesAll(OnStop, Items(onStop), own)
  {
    StartChoice(integration);
    StopChoice(cleanup);
    Reread(OnStart, onStart, StartCommand(integration));
    Reread(OnStop, onStop, StopCommand(cleanup));
  }
}
