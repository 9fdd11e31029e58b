/** Which commands the package editor takes for its own: those with the known options in their order, and no others. All
    other commands of a property stay when it is saved (PackageEditor/MainForm.cs). */
module OwnCommands {
  import opened Wrappers
  import opened Sequences
  import opened CommandSplice

  const BLANK: set<char> := {' '}

  function Blanks(n: nat): (s: string)
    ensures |s| == n && forall i :: 0 <= i < n ==> s[i] == ' '
  {
    seq(n, i => ' ')
  }

  /** An option with some blanks before it, or nothing. */
  function Opt(blanks: Option<nat>, option: string): string {
    if blanks.None? then "" else Blanks(blanks.value) + option
  }

  /** `%MyExe%>`, then the options of the start command, each at most once and in this order, the last two not both
      missing. */
  predicate StartShape(c: string, quiet: Option<nat>, once: Option<nat>, virtual: Option<nat>) {
    && c == "%MyExe%>" + (Opt(quiet, "-Quiet") + (Opt(once, "-Integrate:once") + Opt(virtual, "-Vintegrate")))
    && (once.Some? || virtual.Some?)
  }

  predicate StopShape(c: string, ask: Option<nat>, quiet: Option<nat>, regOnly: Option<nat>, all: Option<nat>) {
    && c == "%MyExe%>" +
            (Opt(ask, "-Confirm") + (Opt(quiet, "-Quiet") + (Opt(regOnly, "-Remove:Reg") + Opt(all, "-Remove"))))
    && (regOnly.Some? || all.Some?)
  }

  ghost predicate Shaped(hook: Hook, c: string) {
    match hook
    case OnStart => exists quiet, once, virtual :: StartShape(c, quiet, once, virtual)
    case OnStop => exists ask, quiet, regOnly, all :: StopShape(c, ask, quiet, regOnly, all)
  }

  // ----- options one after the other -----

  function Spelled(blanks: seq<Option<nat>>, options: seq<string>): string
    requires |blanks| == |options|
  {
    if options == [] then "" else Opt(blanks[0], options[0]) + Spelled(blanks[1..], options[1..])
  }

  /** No option can be taken for a later one: they differ behind the dash, or the later one is shorter and the last. */
  predicate Separable(options: seq<string>) {
    && (forall i :: 0 <= i < |options| ==> |options[i]| >= 2 && options[i][0] == '-')
    && forall i, j :: 0 <= i < j < |options| ==>
         options[i][1] != options[j][1] || (j == |options| - 1 && |options[j]| < |options[i]|)
  }

  lemma {:induction false} TrimBlanks(n: nat, t: string)
    requires t == "" || t[0] != ' '
    ensures TrimStart(Blanks(n) + t, BLANK) == t
  {
    if n == 0 {
      assert Blanks(0) + t == t;
    } else {
      TrimBlanks(n - 1, t);
      assert (Blanks(n) + t)[1..] == Blanks(n - 1) + t;
    }
  }

  /** What `TrimStart` takes away are blanks. */
  lemma {:induction false} TrimmedBlanks(s: string) returns (n: nat)
    ensures s == Blanks(n) + TrimStart(s, BLANK)
  {
    if s != "" && s[0] == ' ' {
      var m := TrimmedBlanks(s[1..]);
      n := m + 1;
      assert s == [' '] + s[1..];
      assert Blanks(n) == [' '] + Blanks(m);
    } else {
      n := 0;
      assert Blanks(0) + s == s;
    }
  }

  lemma SeparableTail(options: seq<string>)
    requires Separable(options) && options != []
    ensures Separable(options[1..]) && options[0] != "" && options[0][0] == '-'
  {
    assert forall i :: 0 <= i < |options[1..]| ==> options[1..][i] == options[i + 1];
  }

  /** The first option that is there, the number of options if there is none. */
  lemma {:induction false} FirstThere(blanks: seq<Option<nat>>, options: seq<string>) returns (j: nat)
    requires |blanks| == |options| && Separable(options)
    ensures j <= |options|
    ensures j == |options| ==> Spelled(blanks, options) == ""
    ensures j < |options| ==>
              TrimStart(Spelled(blanks, options), BLANK) == options[j] + Spelled(blanks[j + 1..], options[j + 1..])
  {
    if options == [] {
      j := 0;
    } else {
      SeparableTail(options);
      FirstOrNot(blanks, options);
      hide *;
      if blanks[0].Some? {
        j := 0;
      } else {
        var i := FirstThere(blanks[1..], options[1..]);
        j := i + 1;
        if i < |options[1..]| {
          assert blanks[1..][i + 1..] == blanks[j + 1..] && options[1..][i + 1..] == options[j + 1..];
        }
      }
    }
  }

  lemma FirstOrNot(blanks: seq<Option<nat>>, options: seq<string>)
    requires |blanks| == |options| && options != [] && options[0] != "" && options[0][0] == '-'
    ensures var s, rest := Spelled(blanks, options), Spelled(blanks[1..], options[1..]);
            if blanks[0].Some? then TrimStart(s, BLANK) == options[0] + rest else s == rest
  {
    var rest := Spelled(blanks[1..], options[1..]);
    if blanks[0].Some? {
      Associate(Blanks(blanks[0].value), options[0], rest);
      TrimBlanks(blanks[0].value, options[0] + rest);
    } else {
      assert "" + rest == rest;
    }
  }

  /** Spelled options are peeled off completely. */
  lemma {:induction false} PeelSpelled(blanks: seq<Option<nat>>, options: seq<string>)
    requires |blanks| == |options| && Separable(options)
    ensures Peel(Spelled(blanks, options), options) == ""
  {
    if options != [] {
      var rest := Spelled(blanks[1..], options[1..]);
      PeelSpelled(blanks[1..], options[1..]);
      if blanks[0].Some? {
        TrimBlanks(blanks[0].value, options[0] + rest);
        assert Spelled(blanks, options) == Blanks(blanks[0].value) + (options[0] + rest);
        assert RemoveIfStartsWith(Spelled(blanks, options), options[0]) == rest;
      } else {
        assert Spelled(blanks, options) == rest;
        NotTaken(blanks, options);
      }
    }
  }

  lemma NotTaken(blanks: seq<Option<nat>>, options: seq<string>)
    requires |blanks| == |options| && Separable(options) && options != []
    ensures var rest := Spelled(blanks[1..], options[1..]); RemoveIfStartsWith(rest, options[0]) == rest
  {
    var rest := Spelled(blanks[1..], options[1..]);
    var j := FirstThere(blanks[1..], options[1..]);
    if j < |options[1..]| {
      var t, behind := TrimStart(rest, BLANK), Spelled(blanks[1..][j + 1..], options[1..][j + 1..]);
      assert t == options[j + 1] + behind && t[1] == options[j + 1][1];
      assert j + 1 == |options| - 1 ==> behind == "";
      assert !(options[0] <= t);
    }
  }

  /** What is peeled off completely is spelled options. */
  lemma {:induction false} SpelledFromPeel(s: string, options: seq<string>) returns (blanks: seq<Option<nat>>)
    requires Peel(s, options) == ""
    ensures |blanks| == |options| && s == Spelled(blanks, options)
    decreases |options|
  {
    if options == [] {
      blanks := [];
    } else {
      var n := TrimmedBlanks(s);
      var t := TrimStart(s, BLANK);
      var rest := RemoveIfStartsWith(s, options[0]);
      var more := SpelledFromPeel(rest, options[1..]);
      if options[0] <= t {
        blanks := [Some(n)] + more;
        assert t == options[0] + rest;
        Associate(Blanks(n), options[0], rest);
      } else {
        blanks := [None] + more;
        assert "" + rest == s;
      }
      assert blanks[1..] == more;
    }
  }

  // ----- own commands -----

  lemma PeelBehind(rest: string, options: seq<string>)
    ensures Peel("%MyExe%>" + rest, [EXE, ">"] + options) == Peel(rest, options)
  {
    var c := "%MyExe%>" + rest;
    assert ([EXE, ">"] + options)[1..] == [">"] + options && ([">"] + options)[1..] == options;
    assert c[0] == '%' && TrimStart(c, BLANK) == c && c[..7] == EXE;
    var d := ">" + rest;
    assert c[7..] == d && d[1..] == rest;
    assert TrimStart(d, BLANK) == d;
  }

  /** A command that the editor may own: the program itself and the options. */
  lemma OwnSpelled(hook: Hook, options: seq<string>, c: string)
    requires Parts(hook) == [EXE, ">"] + options && Separable(options)
    ensures EXE + ">" <= c && Peel(c, Parts(hook)) == "" <==>
            exists blanks :: |blanks| == |options| && c == "%MyExe%>" + Spelled(blanks, options)
  {
    hide Peel, Spelled, Parts, Separable;
    if EXE + ">" <= c && Peel(c, Parts(hook)) == "" {
      BehindExe(c);
      PeelBehind(c[8..], options);
      var blanks := SpelledFromPeel(c[8..], options);
    }
    if blanks :| |blanks| == |options| && c == "%MyExe%>" + Spelled(blanks, options) {
      PeelBehind(Spelled(blanks, options), options);
      PeelSpelled(blanks, options);
      StartsWithExe(Spelled(blanks, options));
    }
  }

  lemma BehindExe(c: string)
    requires EXE + ">" <= c
    ensures |c| >= 8 && c == "%MyExe%>" + c[8..]
  {
  }

  lemma StartsWithExe(rest: string)
    ensures EXE + ">" <= "%MyExe%>" + rest
  {
    assert ("%MyExe%>" + rest)[..8] == EXE + ">";
  }

  lemma EndsLike(head: string, tail: string)
    ensures EndsWith(head + tail, tail)
  {
  }

  lemma EndsSum(a: string, b: string, tail: string)
    requires EndsWith(b, tail)
    ensures EndsWith(a + b, tail)
  {
    assert (a + b)[|a + b| - |tail|..] == b[|b| - |tail|..];
  }

  /** The last character is one of these. */
  predicate LastIn(s: string, chars: set<char>) {
    s != "" && s[|s| - 1] in chars
  }

  lemma LastInSum(a: string, b: string, chars: set<char>)
    requires LastIn(b, chars) || (b == "" && LastIn(a, chars))
    ensures LastIn(a + b, chars)
  {
  }

  lemma OtherLast(s: string, tail: string, chars: set<char>)
    requires LastIn(s, chars) && tail != "" && tail[|tail| - 1] !in chars
    ensures !EndsWith(s, tail)
  {
    assert |tail| <= |s| ==> s[|s| - |tail|..][|tail| - 1] == s[|s| - 1];
  }

  lemma LastOfOpt(blanks: Option<nat>, option: string, chars: set<char>)
    requires LastIn(option, chars)
    ensures Opt(blanks, option) == "" || LastIn(Opt(blanks, option), chars)
  {
  }

  const START_OPTIONS: seq<string> := ["-Quiet", "-Integrate:once", "-Vintegrate"]
  const STOP_OPTIONS: seq<string> := ["-Confirm", "-Quiet", "-Remove:Reg", "-Remove"]

  lemma SpelledStart(k: seq<Option<nat>>)
    requires |k| == 3
    ensures Spelled(k, START_OPTIONS) ==
            Opt(k[0], "-Quiet") + (Opt(k[1], "-Integrate:once") + Opt(k[2], "-Vintegrate"))
  {
    SpelledOne(k, START_OPTIONS);
    SpelledOne(k[1..], START_OPTIONS[1..]);
    SpelledOne(k[2..], START_OPTIONS[2..]);
    assert k[1..][1..] == k[2..] && START_OPTIONS[1..][1..] == START_OPTIONS[2..];
    assert Opt(k[2], "-Vintegrate") + "" == Opt(k[2], "-Vintegrate");
  }

  lemma SpelledStop(k: seq<Option<nat>>)
    requires |k| == 4
    ensures Spelled(k, STOP_OPTIONS) ==
            Opt(k[0], "-Confirm") + (Opt(k[1], "-Quiet") + (Opt(k[2], "-Remove:Reg") + Opt(k[3], "-Remove")))
  {
    SpelledOne(k, STOP_OPTIONS);
    SpelledOne(k[1..], STOP_OPTIONS[1..]);
    SpelledOne(k[2..], STOP_OPTIONS[2..]);
    SpelledOne(k[3..], STOP_OPTIONS[3..]);
    assert k[1..][1..] == k[2..] && STOP_OPTIONS[1..][1..] == STOP_OPTIONS[2..];
    assert k[2..][1..] == k[3..] && STOP_OPTIONS[2..][1..] == STOP_OPTIONS[3..];
    assert Opt(k[3], "-Remove") + "" == Opt(k[3], "-Remove");
  }

  lemma SpelledOne(k: seq<Option<nat>>, options: seq<string>)
    requires |k| == |options| && options != []
    ensures Spelled(k, options) == Opt(k[0], options[0]) + Spelled(k[1..], options[1..])
  {
  }

  const PLAIN_ENDS: set<char> := {'>', 'm', 't'}

  /** A command with neither of the last two options has neither ending. */
  lemma NoEnding(a: Option<nat>, first: string, b: Option<nat>, second: string)
    requires LastIn(first, PLAIN_ENDS) && LastIn(second, PLAIN_ENDS)
    ensures LastIn("%MyExe%>" + (Opt(a, first) + Opt(b, second)), PLAIN_ENDS)
  {
    LastOfOpt(a, first, PLAIN_ENDS);
    LastOfOpt(b, second, PLAIN_ENDS);
    hide Opt;
    var x, y := Opt(a, first), Opt(b, second);
    if x != "" || y != "" { LastInSum(x, y, PLAIN_ENDS); }
    LastInSum("%MyExe%>", x + y, PLAIN_ENDS);
  }

  lemma StartEnding(c: string, q: Option<nat>, i: Option<nat>, v: Option<nat>)
    requires c == "%MyExe%>" + (Opt(q, "-Quiet") + (Opt(i, "-Integrate:once") + Opt(v, "-Vintegrate")))
    ensures EndsWith(c, "-Integrate:once") || EndsWith(c, "-Vintegrate") <==> i.Some? || v.Some?
  {
    hide EndsWith, Blanks, LastIn;
    var a, b, d := Opt(q, "-Quiet"), Opt(i, "-Integrate:once"), Opt(v, "-Vintegrate");
    if v.Some? {
      EndsLike(Blanks(v.value), "-Vintegrate");
      EndsSum(b, d, "-Vintegrate");
      EndsSum(a, b + d, "-Vintegrate");
      EndsSum("%MyExe%>", a + (b + d), "-Vintegrate");
    } else if i.Some? {
      EndsLike(Blanks(i.value), "-Integrate:once");
      assert b + d == b;
      EndsSum(a, b, "-Integrate:once");
      EndsSum("%MyExe%>", a + b, "-Integrate:once");
    } else {
      assert LastIn("-Quiet", PLAIN_ENDS) by { QuietEnd(); }
      NoEnding(q, "-Quiet", None, "-Quiet");
      assert b + d == "" && Opt(None, "-Quiet") == "";
      OtherLast(c, "-Integrate:once", PLAIN_ENDS);
      OtherLast(c, "-Vintegrate", PLAIN_ENDS);
    }
  }

  lemma QuietEnd()
    ensures LastIn("-Quiet", PLAIN_ENDS) && LastIn("-Confirm", PLAIN_ENDS)
  {
  }

  lemma StopEnding(c: string, a: Option<nat>, q: Option<nat>, r: Option<nat>, w: Option<nat>)
    requires c == "%MyExe%>" + (Opt(a, "-Confirm") + (Opt(q, "-Quiet") + (Opt(r, "-Remove:Reg") + Opt(w, "-Remove"))))
    ensures EndsWith(c, "-Remove") || EndsWith(c, "-Remove:Reg") <==> r.Some? || w.Some?
  {
    hide EndsWith, Blanks, LastIn;
    var x, y, b, d := Opt(a, "-Confirm"), Opt(q, "-Quiet"), Opt(r, "-Remove:Reg"), Opt(w, "-Remove");
    if w.Some? {
      EndsLike(Blanks(w.value), "-Remove");
      EndsSum(b, d, "-Remove");
      EndsSum(y, b + d, "-Remove");
      EndsSum(x, y + (b + d), "-Remove");
      EndsSum("%MyExe%>", x + (y + (b + d)), "-Remove");
    } else if r.Some? {
      EndsLike(Blanks(r.value), "-Remove:Reg");
      assert b + d == b;
      EndsSum(y, b, "-Remove:Reg");
      EndsSum(x, y + b, "-Remove:Reg");
      EndsSum("%MyExe%>", x + (y + b), "-Remove:Reg");
    } else {
      QuietEnd();
      NoEnding(a, "-Confirm", q, "-Quiet");
      assert b + d == "" && y + (b + d) == y;
      OtherLast(c, "-Remove", PLAIN_ENDS);
      OtherLast(c, "-Remove:Reg", PLAIN_ENDS);
    }
  }

  /** The start commands the editor takes for its own. */
  lemma OwnStart(c: string)
    ensures IsOwn(OnStart, c) <==> exists quiet, once, virtual :: StartShape(c, quiet, once, virtual)
  {
    hide Peel, Spelled, EndsWith, Opt;
    OwnSpelled(OnStart, START_OPTIONS, c);
    if blanks :| |blanks| == 3 && c == "%MyExe%>" + Spelled(blanks, START_OPTIONS) {
      SpelledStart(blanks);
      StartEnding(c, blanks[0], blanks[1], blanks[2]);
      if IsOwn(OnStart, c) { assert StartShape(c, blanks[0], blanks[1], blanks[2]); }
    }
    if quiet, once, virtual :| StartShape(c, quiet, once, virtual) {
      SpelledStart([quiet, once, virtual]);
      StartEnding(c, quiet, once, virtual);
    }
  }

  /** The clean-up commands the editor takes for its own. */
  lemma OwnStop(c: string)
    ensures IsOwn(OnStop, c) <==> exists ask, quiet, regOnly, all :: StopShape(c, ask, quiet, regOnly, all)
  {
    hide Peel, Spelled, EndsWith, Opt;
    OwnSpelled(OnStop, STOP_OPTIONS, c);
    if blanks :| |blanks| == 4 && c == "%MyExe%>" + Spelled(blanks, STOP_OPTIONS) {
      SpelledStop(blanks);
      StopEnding(c, blanks[0], blanks[1], blanks[2], blanks[3]);
      if IsOwn(OnStop, c) { assert StopShape(c, blanks[0], blanks[1], blanks[2], blanks[3]); }
    }
    if ask, quiet, regOnly, all :| StopShape(c, ask, quiet, regOnly, all) {
      SpelledStop([ask, quiet, regOnly, all]);
      StopEnding(c, ask, quiet, regOnly, all);
    }
  }

  lemma OwnIsShaped(hook: Hook, c: string)
    ensures IsOwn(hook, c) <==> Shaped(hook, c)
  {
    if hook.OnStart? { OwnStart(c); } else { OwnStop(c); }
  }

  // ----- other words -----

  /** Blanks are followed by blanks or a dash, and so is the beginning. */
  predicate Dashed(s: string) {
    && (s != "" ==> s[0] in {' ', '-'})
    && forall i :: 0 <= i < |s| && s[i] == ' ' ==> i + 1 < |s| && s[i + 1] in {' ', '-'}
  }

  lemma DashedOption(blanks: Option<nat>, option: string, rest: string)
    requires option != "" && option[0] == '-' && ' ' !in option && Dashed(rest)
    ensures Dashed(Opt(blanks, option) + rest)
  {
    if blanks.Some? {
      var s, n := Opt(blanks, option) + rest, blanks.value;
      assert s == Blanks(n) + option + rest && s[n] == '-';
      forall i | 0 <= i < |s| && s[i] == ' ' ensures i + 1 < |s| && s[i + 1] in {' ', '-'} {
        if i >= n {
          assert i >= n + |option|;
          assert s[i] == rest[i - n - |option|];
        }
      }
    } else {
      assert "" + rest == rest;
    }
  }

  lemma DashedStart(c: string, quiet: Option<nat>, once: Option<nat>, virtual: Option<nat>)
    requires StartShape(c, quiet, once, virtual)
    ensures "%MyExe%>" <= c && Dashed(c[8..])
  {
    hide Dashed, Opt;
    var d := Opt(virtual, "-Vintegrate");
    NothingDashed();
    DashedOption(virtual, "-Vintegrate", "");
    assert d + "" == d;
    DashedOption(once, "-Integrate:once", d);
    DashedOption(quiet, "-Quiet", Opt(once, "-Integrate:once") + d);
    assert c[8..] == Opt(quiet, "-Quiet") + (Opt(once, "-Integrate:once") + d);
  }

  lemma DashedStop(c: string, ask: Option<nat>, quiet: Option<nat>, regOnly: Option<nat>, all: Option<nat>)
    requires StopShape(c, ask, quiet, regOnly, all)
    ensures "%MyExe%>" <= c && Dashed(c[8..])
  {
    hide Dashed, Opt;
    var d := Opt(all, "-Remove");
    NothingDashed();
    DashedOption(all, "-Remove", "");
    assert d + "" == d;
    DashedOption(regOnly, "-Remove:Reg", d);
    DashedOption(quiet, "-Quiet", Opt(regOnly, "-Remove:Reg") + d);
    DashedOption(ask, "-Confirm", Opt(quiet, "-Quiet") + (Opt(regOnly, "-Remove:Reg") + d));
    assert c[8..] == Opt(ask, "-Confirm") + (Opt(quiet, "-Quiet") + (Opt(regOnly, "-Remove:Reg") + d));
  }

  lemma NothingDashed()
    ensures Dashed("")
  {
  }

  lemma DashedOwn(hook: Hook, c: string)
    ensures IsOwn(hook, c) ==> "%MyExe%>" <= c && Dashed(c[8..])
  {
    hide Dashed, IsOwn;
    OwnIsShaped(hook, c);
    if Shaped(hook, c) {
      if hook.OnStart? {
        var quiet, once, virtual :| StartShape(c, quiet, once, virtual);
        DashedStart(c, quiet, once, virtual);
      } else {
        var ask, quiet, regOnly, all :| StopShape(c, ask, quiet, regOnly, all);
        DashedStop(c, ask, quiet, regOnly, all);
      }
    }
  }

  /** A command with any other word in it, directly behind `%MyExe%>` or behind a blank, is not the editor's. */
  lemma OtherWord(hook: Hook, c: string, i: nat)
    requires "%MyExe%>" <= c && 7 <= i < |c| - 1 && (i == 7 || c[i] == ' ') && c[i + 1] !in {' ', '-'}
    ensures !IsOwn(hook, c)
  {
    hide IsOwn;
    DashedOwn(hook, c);
    var rest := c[8..];
    assert rest[i - 7] == c[i + 1] && (i > 7 ==> rest[i - 8] == c[i]);
    assert !Dashed(rest);
  }

  // ----- the other commands stay -----

  /** The commands of a property that are not the editor's. */
  ghost function Others(hook: Hook, commands: seq<string>): seq<string> {
    if commands == [] then []
    else (if Shaped(hook, commands[0]) then [] else [commands[0]]) + Others(hook, commands[1..])
  }

  lemma NonEmptyOne(item: string, items: seq<string>)
    ensures NonEmpty([item] + items) == (if item == "" then [] else [item]) + NonEmpty(items)
  {
    assert ([item] + items)[1..] == items;
  }

  lemma OthersOne(hook: Hook, item: string, items: seq<string>)
    ensures Others(hook, NonEmpty([item] + items)) ==
            (if item == "" || IsOwn(hook, item) then [] else [item]) + Others(hook, NonEmpty(items))
  {
    NonEmptyOne(item, items);
    OwnIsShaped(hook, item);
    hide Shaped, IsOwn, NonEmpty;
    var rest := NonEmpty(items);
    if item == "" {
      assert [] + rest == rest && [] + Others(hook, rest) == Others(hook, rest);
    } else {
      assert ([item] + rest)[1..] == rest;
    }
  }

  lemma {:induction false} OthersReplaced(hook: Hook, items: seq<string>, oldCommand: string, newCommand: string)
    requires IsOwn(hook, oldCommand) && (newCommand == "" || IsOwn(hook, newCommand))
    ensures Others(hook, NonEmpty(ReplaceItems(items, oldCommand, newCommand))) == Others(hook, NonEmpty(items))
    decreases |items|
  {
    hide IsOwn, Others, NonEmpty, ReplaceItems;
    if items == [] {
      NothingReplaced(oldCommand, newCommand);
    } else {
      HeadTail(items);
      OthersOne(hook, items[0], items[1..]);
      if items[0] != oldCommand {
        OtherItems(items, oldCommand, newCommand);
        OthersReplaced(hook, items[1..], oldCommand, newCommand);
        OthersOne(hook, items[0], ReplaceItems(items[1..], oldCommand, newCommand));
      } else {
        MatchedItems(items, oldCommand, newCommand);
        if |items| == 1 {
          OthersOne(hook, newCommand, []);
          assert items[1..] == [] && [newCommand] + [] == [newCommand];
        } else {
          var rest := ReplaceItems(items[2..], oldCommand, newCommand);
          OthersReplaced(hook, items[2..], oldCommand, newCommand);
          OthersOne(hook, newCommand, [items[1]] + rest);
          OthersOne(hook, items[1], rest);
          assert items[1..] == [items[1]] + items[2..];
          OthersOne(hook, items[1], items[2..]);
        }
      }
    }
  }

  lemma NothingReplaced(oldCommand: string, newCommand: string)
    ensures ReplaceItems([], oldCommand, newCommand) == []
  {
  }

  lemma {:induction false} OthersAppend(hook: Hook, a: seq<string>, b: seq<string>)
    ensures Others(hook, a + b) == Others(hook, a) + Others(hook, b)
  {
    if a == [] {
      assert a + b == b;
    } else {
      TailOfSum(a, b);
      OthersAppend(hook, a[1..], b);
    }
  }

  /** Whatever is chosen, saving keeps every command that is not the editor's, in order. */
  lemma OthersKept(hook: Hook, property: string, newCommand: string)
    requires SEPARATOR !in newCommand && (newCommand == "" || IsOwn(hook, newCommand))
    ensures var saved := Save(property, FirstOwn(hook, Items(property)), newCommand);
            Others(hook, Commands(saved)) == Others(hook, Commands(property))
  {
    hide IsOwn, Shaped, Save, ReplaceItems;
    var oldCommand := FirstOwn(hook, Items(property));
    OldFree(hook, property);
    SavedCommands(property, oldCommand, newCommand);
    if oldCommand == "" {
      OthersAppend(hook, Commands(property), NonEmpty([newCommand]));
      OthersOne(hook, newCommand, []);
      assert [newCommand] + [] == [newCommand] && NonEmpty<char>([]) == [];
      assert Others(hook, Commands(property)) + [] == Others(hook, Commands(property));
    } else {
      OthersReplaced(hook, Items(property), oldCommand, newCommand);
    }
  }

  /** With no command of the editor in it, and none chosen, a property keeps all its commands. */
  lemma NothingChosen(hook: Hook, property: string)
    requires forall i :: 0 <= i < |Items(property)| ==> !Shaped(hook, Items(property)[i])
    ensures Commands(Save(property, FirstOwn(hook, Items(property)), "")) == Commands(property)
  {
    hide IsOwn, Shaped, Save;
    forall i | 0 <= i < |Items(property)| ensures !IsOwn(hook, Items(property)[i]) {
      OwnIsShaped(hook, Items(property)[i]);
    }
    FirstOwnNone(hook, Items(property));
    SavedCommands(property, "", "");
    assert [""][1..] == [];
    assert Commands(property) + NonEmpty([""]) == Commands(property);
  }
}
