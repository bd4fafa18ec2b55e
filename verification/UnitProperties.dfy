/** What the unit rewriter promises: refusal, frame, arguments and idempotence. */
module UnitProperties {
  import opened Prelude
  import opened Text
  import opened UnitFile

  // ------------------------------------------------------------ refusal, frame

  /** The rewrite refuses exactly a unit with no ExecStart line, with an
      ExecStart line that names no executable, or with an Environment line that
      sets a recovery variable among others. */
  lemma RefusesExactly(unit: string, binary: string, config: string)
    ensures Rewritten(unit, binary, config).Failure? <==>
              var lines := Lines(unit);
              || (forall i :: 0 <= i < |lines| ==> !IsExecStart(lines[i]))
              || (exists i :: 0 <= i < |lines| && IsExecStart(lines[i]) && ExecArgs(lines[i]) == [])
              || (exists i :: 0 <= i < |lines| && !IsExecStart(lines[i]) && IsEnvironment(lines[i])
                              && MentionsRecovery(lines[i]) && !OnlyRecovery(lines[i]))
  {
    hide IsExecStart, IsEnvironment, MentionsRecovery, OnlyRecovery, ExecArgs, Kept, NewLines, Join;
    var lines := Lines(unit);
    if FirstRefusal(lines).Some? {
      var i :| 0 <= i < |lines| && LineRefusal(lines[i]).Some?;
      assert IsExecStart(lines[i]) || !IsExecStart(lines[i]);
    }
  }

  lemma {:induction false} TrimRightKeeps(p: string, rest: string)
    requires p != "" && !IsSpace(p[|p| - 1])
    ensures p <= TrimRightSpace(p + rest)
  {
    var s := p + rest;
    if rest != "" && IsSpace(s[|s| - 1]) {
      assert s[..|s| - 1] == p + rest[..|rest| - 1];
      TrimRightKeeps(p, rest[..|rest| - 1]);
    } else if rest == "" {
      assert s == p;
    }
  }

  lemma {:induction false} TrimLeftOf(indent: string, body: string)
    requires forall i :: 0 <= i < |indent| ==> IsSpace(indent[i])
    requires body != "" && !IsSpace(body[0])
    ensures TrimLeftSpace(indent + body) == body
  {
    if indent == "" {
      assert indent + body == body;
    } else {
      assert (indent + body)[1..] == indent[1..] + body;
      TrimLeftOf(indent[1..], body);
    }
  }

  /** A rewritten line is again an ExecStart line, whatever the paths are. */
  lemma RewrittenIsExecStart(line: string, binary: string, config: string)
    requires IsExecStart(line) && ExecArgs(line) != []
    ensures IsExecStart(RewrittenExecStart(line, binary, config))
  {
    hide NewArgs, Join, ExecArgs, ExecPrefix;
    var rest := ExecPrefix(line) + Join(NewArgs(ExecArgs(line), binary, config), " ");
    var body := EXEC_START + rest;
    assert RewrittenExecStart(line, binary, config) == Indent(line) + body;
    assert body[0] == EXEC_START[0];
    TrimLeftOf(Indent(line), body);
    TrimRightKeeps(EXEC_START, rest);
  }

  lemma NotBoth(line: string)
    requires IsExecStart(line)
    ensures !IsEnvironment(line) && !Dropped(line)
  {
    hide TrimSpace, MentionsRecovery;
    var t := TrimSpace(line);
    assert t[1] == EXEC_START[1] == 'x';
    assert "Environment="[1] == 'n' && "Environment "[1] == 'n';
  }

  lemma NewLineNotDropped(line: string, binary: string, config: string)
    requires !Dropped(line)
    ensures !Dropped(NewLine(line, binary, config))
    ensures IsExecStart(NewLine(line, binary, config)) == IsExecStart(line)
    ensures IsEnvironment(NewLine(line, binary, config)) ==> !MentionsRecovery(NewLine(line, binary, config))
    ensures !IsExecStart(line) ==> NewLine(line, binary, config) == line
  {
    hide MentionsRecovery, ExecArgs, RewrittenExecStart;
    if IsExecStart(line) && ExecArgs(line) != [] {
      RewrittenIsExecStart(line, binary, config);
      NotBoth(RewrittenExecStart(line, binary, config));
    } else if IsExecStart(line) {
      NotBoth(line);
    }
  }

  lemma {:induction false} KeptProperties(lines: seq<string>)
    ensures forall i :: 0 <= i < |Kept(lines)| ==> !Dropped(Kept(lines)[i]) && Kept(lines)[i] in lines
    ensures forall i :: 0 <= i < |lines| && !Dropped(lines[i]) ==> lines[i] in Kept(lines)
    ensures (forall i :: 0 <= i < |lines| ==> !Dropped(lines[i])) ==> Kept(lines) == lines
  {
    hide Dropped;
    if lines != [] {
      var init, last := lines[..|lines| - 1], lines[|lines| - 1];
      assert lines == init + [last];
      KeptProperties(init);
      forall i | 0 <= i < |lines| && !Dropped(lines[i])
        ensures lines[i] in Kept(lines)
      {
        if i < |lines| - 1 { assert lines[i] == init[i]; }
      }
    }
  }

  lemma {:induction false} IndentOf(indent: string, rest: string)
    requires forall i :: 0 <= i < |indent| ==> indent[i] == ' ' || indent[i] == '\t'
    requires rest != "" && rest[0] != ' ' && rest[0] != '\t'
    ensures Indent(indent + rest) == indent
  {
    if indent == "" {
      assert indent + rest == rest;
    } else {
      assert (indent + rest)[1..] == indent[1..] + rest;
      IndentOf(indent[1..], rest);
    }
  }

  lemma {:induction false} RetargetNoNewline(args: seq<string>, config: string)
    requires forall i :: 0 <= i < |args| ==> NoNewline(args[i])
    requires NoNewline(FlagFor(config)) && NoNewline(config)
    ensures forall i :: 0 <= i < |args| ==> NoNewline(Retarget(args, config)[i])
  {
    hide EqualsFlag, BareFlag, FlagFor;
    if args != [] {
      if EqualsFlag(args[0]) || !(BareFlag(args[0]) && |args| > 1) {
        RetargetNoNewline(args[1..], config);
      } else {
        RetargetNoNewline(args[2..], config);
      }
    }
  }

  lemma WordNoNewline(w: string)
    requires IsWord(w)
    ensures NoNewline(w)
  {
    assert IsSpace('\n');
  }

  lemma ExecArgsAreWords(line: string)
    requires IsExecStart(line)
    ensures forall i :: 0 <= i < |ExecArgs(line)| ==> IsWord(ExecArgs(line)[i])
  {
    hide Fields, TrimSpace, Prefixes, IsWord;
    FieldsAreWords(ValueOf(line)[|ExecPrefix(line)|..]);
  }

  lemma NewLineNoNewline(line: string, binary: string, config: string)
    requires NoNewline(line) && NoNewline(binary) && NoNewline(config)
    ensures NoNewline(NewLine(line, binary, config))
  {
    hide IsExecStart, Fields, TrimSpace, Prefixes, Retarget, ConfigValues, Join;
    if IsExecStart(line) && ExecArgs(line) != [] {
      var args := ExecArgs(line);
      ExecArgsAreWords(line);
      forall i | 0 <= i < |args|
        ensures NoNewline(args[i])
      {
        WordNoNewline(args[i]);
      }
      RetargetNoNewline(args[0 := binary], config);
      JoinNoNewline(NewArgs(args, binary, config));
      forall i | 0 <= i < |ExecPrefix(line)|
        ensures ExecPrefix(line)[i] != '\n'
      {
        assert IsExecPrefix(ExecPrefix(line)[i]);
      }
    }
  }

  /** On success the output lines are the input lines that are not
      recovery-only, in order, each unchanged unless it is an ExecStart line;
      the number of ExecStart lines is what it was; and no output line sets a
      recovery variable. */
  lemma RewriteFrame(unit: string, binary: string, config: string)
    requires NoNewline(binary) && NoNewline(config)
    requires Rewritten(unit, binary, config).Success?
    ensures var kept := Kept(Lines(unit));
            var out := Lines(Rewritten(unit, binary, config).value);
            && |out| == |kept|
            && (forall i :: 0 <= i < |out| ==>
                  && IsExecStart(out[i]) == IsExecStart(kept[i])
                  && (!IsExecStart(kept[i]) ==> out[i] == kept[i])
                  && (IsEnvironment(out[i]) ==> !MentionsRecovery(out[i])))
            && out == NewLines(kept, binary, config)
  {
    hide Dropped, IsExecStart, IsEnvironment, MentionsRecovery, Lines, Join, NewLine, LineRefusal, Kept;
    var lines := Lines(unit);
    var kept := Kept(lines);
    KeptProperties(lines);
    forall i | 0 <= i < |kept|
      ensures NoNewline(NewLine(kept[i], binary, config))
      ensures IsExecStart(NewLine(kept[i], binary, config)) == IsExecStart(kept[i])
      ensures IsEnvironment(NewLine(kept[i], binary, config)) ==> !MentionsRecovery(NewLine(kept[i], binary, config))
      ensures !IsExecStart(kept[i]) ==> NewLine(kept[i], binary, config) == kept[i]
    {
      NewLineNotDropped(kept[i], binary, config);
      NewLineNoNewline(kept[i], binary, config);
    }
    var e :| 0 <= e < |lines| && IsExecStart(lines[e]);
    assert !Dropped(lines[e]) by { NotBoth(lines[e]); }
    assert kept != [];
    LinesOfJoin(NewLines(kept, binary, config));
  }

  // ----------------------------------------------------------------- arguments

  /** Absolute and free of white space. */
  predicate CleanPath(path: string) {
    IsWord(path) && path[0] == '/'
  }

  /** The arguments end in a bare config flag that has no value, and carry no
      other config argument for the rewrite to replace. */
  predicate Dangling(args: seq<string>) {
    args != [] && BareFlag(args[|args| - 1]) && ConfigValues(args) == []
  }

  /** Retargeting changes every config value to the new one, keeps how many
      there are, leaves every other argument alone, and is done once. */
  lemma {:induction false} RetargetEffect(args: seq<string>, config: string)
    ensures |ConfigValues(Retarget(args, config))| == |ConfigValues(args)|
    ensures forall i :: 0 <= i < |ConfigValues(Retarget(args, config))| ==>
              ConfigValues(Retarget(args, config))[i] == config
    ensures OtherArgs(Retarget(args, config)) == OtherArgs(args)
    ensures Retarget(Retarget(args, config), config) == Retarget(args, config)
  {
    hide EqualsFlag, BareFlag, FlagValue, FlagFor;
    if args != [] {
      var r := Retarget(args, config);
      if EqualsFlag(args[0]) {
        RetargetEffect(args[1..], config);
        FlagForIs(config);
        assert r[1..] == Retarget(args[1..], config);
      } else if BareFlag(args[0]) && |args| > 1 {
        RetargetEffect(args[2..], config);
        assert r[2..] == Retarget(args[2..], config);
      } else {
        RetargetEffect(args[1..], config);
        assert r[1..] == Retarget(args[1..], config);
      }
    }
  }

  lemma FlagForIs(config: string)
    ensures EqualsFlag(FlagFor(config)) && FlagValue(FlagFor(config)) == config
  {
  }

  lemma AppendedFlag(config: string)
    ensures BareFlag("--config") && !EqualsFlag("--config")
    ensures ConfigValues(["--config", config]) == [config] && OtherArgs(["--config", config]) == []
  {
    assert "--config"[1] != "-c="[1];
    assert ["--config", config][2..] == [];
  }

  /** Appending a config argument to arguments that carry none gives exactly one,
      unless they end in a bare flag, which then swallows the appended flag. */
  lemma {:induction false} AppendEffect(args: seq<string>, flag: string, config: string)
    requires ConfigValues(args) == [] && BareFlag(flag) && !EqualsFlag(flag)
    ensures args == [] || !BareFlag(args[|args| - 1]) ==>
              && ConfigValues(args + [flag, config]) == [config]
              && OtherArgs(args + [flag, config]) == OtherArgs(args)
              && Retarget(args + [flag, config], config) == args + [flag, config]
    ensures args != [] && BareFlag(args[|args| - 1]) ==>
              ConfigValues(args + [flag, config]) != [] && ConfigValues(args + [flag, config])[0] == flag
  {
    hide EqualsFlag, BareFlag, FlagValue, FlagFor;
    var all := args + [flag, config];
    if args == [] {
      assert all == [flag, config] && all[2..] == [];
    } else if BareFlag(args[0]) {
      assert |args| == 1;
      assert all[1] == flag;
    } else {
      assert all[0] == args[0] && all[1..] == args[1..] + [flag, config];
      AppendEffect(args[1..], flag, config);
    }
  }

  /** Clean paths are not flags. */
  lemma CleanIsNoFlag(path: string)
    requires CleanPath(path)
    ensures !EqualsFlag(path) && !BareFlag(path) && path != "--config" && path != "-c"
  {
    assert "--config="[0] == '-' && "-c="[0] == '-' && "--config"[0] == '-' && "-c"[0] == '-';
  }

  /** What the rewritten arguments say about the config. */
  ghost predicate ConfigCarried(args: seq<string>, binary: string, config: string)
    requires args != []
  {
    var after := NewArgs(args, binary, config);
    && ConfigValues(after) != []
    && (forall i :: 0 <= i < |ConfigValues(after)| ==> ConfigValues(after)[i] == config)
    && OtherArgs(after) == [binary] + OtherArgs(args[1..])
  }

  lemma OtherArgsHead(args: seq<string>, binary: string)
    requires args != [] && CleanPath(binary)
    ensures OtherArgs(args[0 := binary]) == [binary] + OtherArgs(args[1..])
    ensures ConfigValues(args[0 := binary]) == ConfigValues(args[1..])
  {
    hide EqualsFlag, BareFlag, FlagValue, CleanPath;
    CleanIsNoFlag(binary);
    assert args[0 := binary][1..] == args[1..];
  }

  /** The new arguments carry the new config in every config argument, at least
      one, and every other argument in order, exactly when the old ones do not
      dangle. */
  lemma ArgsCarryConfig(args: seq<string>, binary: string, config: string)
    requires args != [] && CleanPath(binary) && CleanPath(config)
    ensures ConfigCarried(args, binary, config) <==> !Dangling(args[1..])
  {
    hide EqualsFlag, BareFlag, FlagValue, FlagFor, CleanPath, ConfigValues, OtherArgs, Retarget;
    var a := args[0 := binary];
    CleanIsNoFlag(binary);
    CleanIsNoFlag(config);
    CleanNotEmpty(config);
    OtherArgsHead(args, binary);
    RetargetEffect(a, config);
    AppendedFlag(config);
    if ConfigValues(a) == [] {
      AppendEffect(a, "--config", config);
      if |args| > 1 {
        assert a[|a| - 1] == args[1..][|args| - 2];
      }
    }
  }

  lemma CleanNotEmpty(path: string)
    requires CleanPath(path)
    ensures path != ""
  {
  }

  /** A line that dangles: "/old --config" becomes "/new --config --config /c",
      whose reader takes "--config" itself for the config. */
  lemma DanglingExample()
    ensures Dangling(["/old", "--config"][1..])
    ensures NewArgs(["/old", "--config"], "/new", "/c") == ["/new", "--config", "--config", "/c"]
    ensures ConfigValues(["/new", "--config", "--config", "/c"]) == ["--config"]
  {
    CleanIsNoFlag("/new");
    CleanIsNoFlag("/c");
    AppendedFlag("/c");
    var args := ["/old", "--config"];
    assert args[1..] == ["--config"] && ["--config"][1..] == [];
    assert args[0 := "/new"][1..] == ["--config"];
    var all := ["/new", "--config", "--config", "/c"];
    assert all[1..][2..] == ["/c"] && ["/c"][1..] == [];
  }

  /** Rewriting the arguments a second time changes nothing, exactly when the
      old ones do not dangle. */
  lemma ArgsSettle(args: seq<string>, binary: string, config: string)
    requires args != [] && CleanPath(binary) && (config == "" || CleanPath(config))
    ensures NewArgs(args, binary, config) != []
    ensures NewArgs(NewArgs(args, binary, config), binary, config) == NewArgs(args, binary, config)
            <==> (config == "" || !Dangling(args[1..]))
  {
    hide EqualsFlag, BareFlag, FlagValue, FlagFor, CleanPath, ConfigValues, OtherArgs, Retarget;
    var a := args[0 := binary];
    var after := NewArgs(args, binary, config);
    CleanIsNoFlag(binary);
    OtherArgsHead(args, binary);
    RetargetHead(a, config);
    assert after[0 := binary] == after;
    if config != "" {
      CleanIsNoFlag(config);
      RetargetEffect(a, config);
      AppendedFlag(config);
      if ConfigValues(a) == [] {
        AppendEffect(a, "--config", config);
        RetargetEffect(after, config);
        if |args| > 1 {
          assert a[|a| - 1] == args[1..][|args| - 2];
        }
      }
    }
  }

  lemma RetargetHead(args: seq<string>, config: string)
    requires args != [] && !EqualsFlag(args[0]) && !BareFlag(args[0])
    ensures Retarget(args, config)[0] == args[0]
  {
  }

  // ------------------------------------------------------------- whole line

  lemma {:induction false} PrefixesOf(prefix: string, rest: string)
    requires forall i :: 0 <= i < |prefix| ==> IsExecPrefix(prefix[i])
    requires rest != "" && !IsExecPrefix(rest[0])
    ensures Prefixes(prefix + rest) == prefix
  {
    hide IsExecPrefix;
    if prefix == "" {
      assert prefix + rest == rest;
    } else {
      assert (prefix + rest)[1..] == prefix[1..] + rest;
      PrefixesOf(prefix[1..], rest);
      assert prefix == [prefix[0]] + prefix[1..];
    }
  }

  lemma {:induction false} RetargetWords(args: seq<string>, config: string)
    requires forall i :: 0 <= i < |args| ==> IsWord(args[i])
    requires IsWord(config) && IsWord(FlagFor(config))
    ensures forall i :: 0 <= i < |args| ==> IsWord(Retarget(args, config)[i])
  {
    hide EqualsFlag, BareFlag, FlagFor, IsWord;
    if args != [] {
      if EqualsFlag(args[0]) || !(BareFlag(args[0]) && |args| > 1) {
        RetargetWords(args[1..], config);
      } else {
        RetargetWords(args[2..], config);
      }
    }
  }

  lemma FlagForIsWord(config: string)
    requires IsWord(config)
    ensures IsWord(FlagFor(config)) && IsWord("--config")
  {
  }

  lemma NewArgsWords(args: seq<string>, binary: string, config: string)
    requires args != [] && forall i :: 0 <= i < |args| ==> IsWord(args[i])
    requires CleanPath(binary) && (config == "" || CleanPath(config))
    ensures forall i :: 0 <= i < |NewArgs(args, binary, config)| ==> IsWord(NewArgs(args, binary, config)[i])
    ensures NewArgs(args, binary, config) != [] && NewArgs(args, binary, config)[0] == binary
  {
    hide IsWord, EqualsFlag, BareFlag, FlagFor, Retarget, ConfigValues;
    if config != "" {
      FlagForIsWord(config);
      CleanIsNoFlag(binary);
      RetargetWords(args[0 := binary], config);
      RetargetHead(args[0 := binary], config);
    }
  }

  lemma LineParts(indent: string, prefix: string, text: string)
    requires forall i :: 0 <= i < |indent| ==> indent[i] == ' ' || indent[i] == '\t'
    requires text != "" && !IsSpace(text[|text| - 1])
    ensures var line := indent + EXEC_START + prefix + text;
            IsExecStart(line) && Indent(line) == indent && ValueOf(line) == prefix + text
  {
    hide TrimSpace, Indent;
    var line := indent + EXEC_START + prefix + text;
    var body := EXEC_START + (prefix + text);
    assert line == indent + body;
    assert body[0] == 'E' && body[|body| - 1] == text[|text| - 1];
    IndentOf(indent, body);
    TrimSpaceOf(indent, body);
    assert body[|EXEC_START|..] == prefix + text;
  }

  /** A rewritten line reads back as the same indentation, the same systemd
      prefix characters and the new arguments. */
  lemma ReadBack(line: string, binary: string, config: string)
    requires IsExecStart(line) && ExecArgs(line) != []
    requires CleanPath(binary) && (config == "" || CleanPath(config))
    ensures var out := RewrittenExecStart(line, binary, config);
            && IsExecStart(out)
            && Indent(out) == Indent(line)
            && ExecPrefix(out) == ExecPrefix(line)
            && ExecArgs(out) == NewArgs(ExecArgs(line), binary, config)
  {
    hide IsExecStart, NewArgs, Fields, Join, Indent, Prefixes, ValueOf;
    var out := RewrittenExecStart(line, binary, config);
    var args := NewArgs(ExecArgs(line), binary, config);
    ExecArgsAreWords(line);
    NewArgsWords(ExecArgs(line), binary, config);
    JoinEnds(args);
    FieldsOfJoin(args);
    var prefix, text := ExecPrefix(line), Join(args, " ");
    LineParts(Indent(line), prefix, text);
    PrefixesOf(prefix, text);
    assert (prefix + text)[|prefix|..] == text;
  }

  /** An ExecStart line whose arguments dangle. */
  predicate DanglingLine(line: string) {
    IsExecStart(line) && ExecArgs(line) != [] && Dangling(ExecArgs(line)[1..])
  }

  /** The rewritten line keeps its systemd prefix characters; and it carries the
      new config in every config argument, at least one, with every other
      argument in order, exactly when the old line does not dangle. */
  lemma ExecStartArguments(line: string, binary: string, config: string)
    requires IsExecStart(line) && ExecArgs(line) != []
    requires CleanPath(binary) && CleanPath(config)
    ensures var out := RewrittenExecStart(line, binary, config);
            && IsExecStart(out)
            && ExecPrefix(out) == ExecPrefix(line)
            && ((&& ConfigValues(ExecArgs(out)) != []
                 && (forall i :: 0 <= i < |ConfigValues(ExecArgs(out))| ==> ConfigValues(ExecArgs(out))[i] == config)
                 && OtherArgs(ExecArgs(out)) == [binary] + OtherArgs(ExecArgs(line)[1..]))
                <==> !DanglingLine(line))
  {
    hide IsExecStart, ExecArgs, NewArgs, ConfigValues, OtherArgs, CleanPath, Dangling;
    ReadBack(line, binary, config);
    ArgsCarryConfig(ExecArgs(line), binary, config);
  }

  lemma SameStart(start: string, a: string, b: string)
    ensures start + a == start + b <==> a == b
  {
    assert (start + a)[|start|..] == a && (start + b)[|start|..] == b;
  }

  /** Rewriting a line twice is rewriting it once, unless it dangles. */
  lemma LineSettles(line: string, binary: string, config: string)
    requires CleanPath(binary) && (config == "" || CleanPath(config))
    requires LineRefusal(line).None?
    ensures var out := NewLine(line, binary, config);
            && (IsExecStart(line) ==> IsExecStart(out) && ExecArgs(out) != [])
            && (NewLine(out, binary, config) == out <==> config == "" || !DanglingLine(line))
  {
    hide IsExecStart, ExecArgs, ExecPrefix, Indent, NewArgs, Join, Fields, CleanPath, Dangling, IsEnvironment,
         MentionsRecovery, OnlyRecovery;
    var out := NewLine(line, binary, config);
    if IsExecStart(line) {
      var args := ExecArgs(line);
      ReadBack(line, binary, config);
      ArgsSettle(args, binary, config);
      var once := NewArgs(args, binary, config);
      var twice := NewArgs(once, binary, config);
      ExecArgsAreWords(line);
      NewArgsWords(args, binary, config);
      NewArgsWords(once, binary, config);
      FieldsOfJoin(once);
      FieldsOfJoin(twice);
      SameStart(Indent(line) + EXEC_START + ExecPrefix(line), Join(once, " "), Join(twice, " "));
    }
  }

  lemma LineStaysAccepted(line: string, binary: string, config: string)
    requires CleanPath(binary) && (config == "" || CleanPath(config))
    requires LineRefusal(line).None? && !Dropped(line)
    ensures LineRefusal(NewLine(line, binary, config)).None?
  {
    hide NewLine, IsExecStart, IsEnvironment, MentionsRecovery, OnlyRecovery, ExecArgs;
    LineSettles(line, binary, config);
    NewLineNotDropped(line, binary, config);
  }

  lemma JoinInjective(a: seq<string>, b: seq<string>)
    requires a != [] && b != []
    requires forall i :: 0 <= i < |a| ==> NoNewline(a[i])
    requires forall i :: 0 <= i < |b| ==> NoNewline(b[i])
    requires Join(a, "\n") == Join(b, "\n")
    ensures a == b
  {
    hide NoNewline, Join;
    LinesOfJoin(a);
    LinesOfJoin(b);
  }

  lemma CleanNoNewline(path: string)
    requires path == "" || CleanPath(path)
    ensures NoNewline(path)
  {
    if path != "" {
      WordNoNewline(path);
    }
  }

  /** Rewriting a rewritten unit succeeds, and returns it unchanged exactly when
      no ExecStart line of the original dangles. */
  lemma Idempotent(unit: string, binary: string, config: string)
    requires CleanPath(binary) && (config == "" || CleanPath(config))
    requires Rewritten(unit, binary, config).Success?
    ensures var once := Rewritten(unit, binary, config).value;
            && Rewritten(once, binary, config).Success?
            && (Rewritten(once, binary, config).value == once
                <==> config == "" || forall i :: 0 <= i < |Lines(unit)| ==> !DanglingLine(Lines(unit)[i]))
  {
    hide CleanPath, IsExecStart, DanglingLine, LineRefusal, Dropped, NewLine, Join, Lines, NoNewline, Kept,
         IsEnvironment, MentionsRecovery;
    var lines := Lines(unit);
    var kept := Kept(lines);
    var once := NewLines(kept, binary, config);
    var twice := NewLines(once, binary, config);
    CleanNoNewline(binary);
    CleanNoNewline(config);
    KeptProperties(lines);
    RewriteFrame(unit, binary, config);
    forall i | 0 <= i < |kept|
      ensures LineRefusal(once[i]).None? && !Dropped(once[i]) && NoNewline(once[i]) && NoNewline(twice[i])
      ensures IsExecStart(kept[i]) == IsExecStart(once[i])
      ensures twice[i] == once[i] <==> config == "" || !DanglingLine(kept[i])
    {
      LineStaysAccepted(kept[i], binary, config);
      NewLineNotDropped(kept[i], binary, config);
      LineSettles(kept[i], binary, config);
      NewLineNoNewline(kept[i], binary, config);
      NewLineNoNewline(once[i], binary, config);
    }
    KeptProperties(once);
    KeptExecStart(lines);
    assert HasExecStart(once);
    if Join(twice, "\n") == Join(once, "\n") {
      JoinInjective(twice, once);
    } else {
      assert twice != once;
    }
    KeptDangling(lines);
  }

  lemma KeptExecStart(lines: seq<string>)
    requires HasExecStart(lines)
    ensures HasExecStart(Kept(lines))
  {
    hide IsExecStart, Dropped, Kept, IsEnvironment;
    var i :| 0 <= i < |lines| && IsExecStart(lines[i]);
    NotBoth(lines[i]);
    KeptProperties(lines);
    var k :| 0 <= k < |Kept(lines)| && Kept(lines)[k] == lines[i];
  }

  lemma KeptDangling(lines: seq<string>)
    ensures (forall i :: 0 <= i < |lines| ==> !DanglingLine(lines[i]))
            <==> (forall i :: 0 <= i < |Kept(lines)| ==> !DanglingLine(Kept(lines)[i]))
  {
    hide IsExecStart, Dropped, Kept, DanglingLine, IsEnvironment;
    KeptProperties(lines);
    forall i | 0 <= i < |lines| && DanglingLine(lines[i])
      ensures lines[i] in Kept(lines)
    {
      DanglingKept(lines[i]);
    }
  }

  lemma DanglingKept(line: string)
    requires DanglingLine(line)
    ensures !Dropped(line)
  {
    NotBoth(line);
  }
}
