/** What the rewrite does to a unit, said of lines written out from their parts. */
module UnitText {
  import opened Prelude
  import opened Text
  import opened UnitFile
  import opened UnitProperties

  // ---------------------------------------------------------- Environment lines

  predicate AllQuotes(q: string) {
    forall i :: 0 <= i < |q| ==> q[i] == '"' || q[i] == '\''
  }

  /** The word assigns a recovery variable, perhaps behind quotes. */
  ghost predicate AssignsRecovery(w: string) {
    exists q, v :: AllQuotes(q)
                   && (w == q + "STALWART_RECOVERY_MODE=" + v || w == q + "STALWART_RECOVERY_ADMIN=" + v)
  }

  /** The start of a line that sets variables. */
  ghost predicate StartsEnvironment(head: string) {
    head == "Environment=" || exists x :: '=' !in x && head == "Environment " + x + "="
  }

  predicate Blank(s: string) {
    forall i :: 0 <= i < |s| ==> s[i] == ' ' || s[i] == '\t'
  }

  predicate Words(words: seq<string>) {
    forall i :: 0 <= i < |words| ==> IsWord(words[i])
  }

  function EnvironmentLine(indent: string, head: string, words: seq<string>, tail: string): string {
    indent + head + Join(words, " ") + tail
  }

  lemma {:induction false} QuotesGo(q: string, name: string, v: string)
    requires AllQuotes(q) && name != "" && !IsQuote(name[0]) && !IsQuote(name[|name| - 1])
    ensures HasPrefix(TrimQuotes(q + name + v), name)
    decreases |q| + |v|
  {
    var s := q + name + v;
    if q != "" {
      assert s[0] == q[0] && s[1..] == q[1..] + name + v;
      QuotesGo(q[1..], name, v);
    } else {
      assert s == name + v && s[0] == name[0];
      if v != "" && IsQuote(v[|v| - 1]) {
        assert s[|s| - 1] == v[|v| - 1] && s[..|s| - 1] == q + name + v[..|v| - 1];
        QuotesGo(q, name, v[..|v| - 1]);
      } else if v == "" {
        assert s == name;
      }
    }
  }

  /** Trimming quotes removes quotes at both ends. */
  lemma {:induction false} TrimQuotesOf(s: string) returns (q: string, r: string)
    ensures AllQuotes(q) && s == q + TrimQuotes(s) + r
    decreases |s|
  {
    if s != "" && IsQuote(s[0]) {
      q, r := TrimQuotesOf(s[1..]);
      q := [s[0]] + q;
      assert s == [s[0]] + s[1..];
    } else if s != "" && IsQuote(s[|s| - 1]) {
      q, r := TrimQuotesOf(s[..|s| - 1]);
      r := r + [s[|s| - 1]];
      assert s == s[..|s| - 1] + [s[|s| - 1]];
    } else {
      q, r := "", "";
    }
  }

  lemma RecoveryExactly(w: string)
    ensures SetsRecovery(w) <==> AssignsRecovery(w)
  {
    hide TrimQuotes;
    if SetsRecovery(w) {
      var q, r := TrimQuotesOf(w);
      var t := TrimQuotes(w);
      var name := if HasPrefix(t, RECOVERY_MODE) then RECOVERY_MODE else RECOVERY_ADMIN;
      assert t == name + t[|name|..];
      assert w == q + name + (t[|name|..] + r);
    }
    if q, v :| AllQuotes(q) && (w == q + "STALWART_RECOVERY_MODE=" + v || w == q + "STALWART_RECOVERY_ADMIN=" + v) {
      if w == q + "STALWART_RECOVERY_MODE=" + v {
        QuotesGo(q, "STALWART_RECOVERY_MODE=", v);
      } else {
        QuotesGo(q, "STALWART_RECOVERY_ADMIN=", v);
      }
    }
  }

  lemma {:induction false} AfterFirstEquals(head: string, rest: string)
    requires '=' !in head
    ensures AfterEquals(head + "=" + rest) == rest
  {
    var s := head + "=" + rest;
    if head == "" {
      assert s == ['='] + rest;
    } else {
      assert s[0] == head[0] && s[1..] == head[1..] + "=" + rest;
      assert s[|head|] == '=';
      AfterFirstEquals(head[1..], rest);
    }
  }

  lemma {:induction false} TrimRightOf(body: string, tail: string)
    requires Blank(tail) && (body != "" ==> !IsSpace(body[|body| - 1]))
    ensures TrimRightSpace(body + tail) == body
  {
    if tail == "" {
      assert body + tail == body;
    } else {
      assert (body + tail)[..|body + tail| - 1] == body + tail[..|tail| - 1];
      TrimRightOf(body, tail[..|tail| - 1]);
    }
  }

  lemma TrimBoth(indent: string, body: string, tail: string)
    requires Blank(indent) && Blank(tail)
    requires body != "" && !IsSpace(body[0]) && !IsSpace(body[|body| - 1])
    ensures TrimSpace(indent + body + tail) == body
  {
    hide TrimLeftSpace, TrimRightSpace;
    assert indent + body + tail == indent + (body + tail);
    TrimLeftOf(indent, body + tail);
    TrimRightOf(body, tail);
  }

  lemma ShortHead(rest: string)
    ensures HasPrefix("Environment=" + rest, "Environment=") && !HasPrefix("Environment=" + rest, "ExecStart=")
    ensures AfterEquals("Environment=" + rest) == rest
  {
    hide AfterEquals;
    assert "ExecStart="[1] == 'x' && "Environment="[1] == 'n';
    assert "Environment=" + rest == "Environment" + "=" + rest;
    AfterFirstEquals("Environment", rest);
  }

  lemma LongHead(x: string, rest: string)
    requires '=' !in x
    ensures var s := "Environment " + x + "=" + rest;
            HasPrefix(s, "Environment ") && !HasPrefix(s, "ExecStart=") && AfterEquals(s) == rest
  {
    hide AfterEquals;
    assert "ExecStart="[1] == 'x' && "Environment "[1] == 'n';
    assert "Environment " + x + "=" + rest == "Environment " + (x + "=" + rest);
    AfterFirstEquals("Environment " + x, rest);
  }

  lemma HeadFacts(head: string, rest: string)
    requires StartsEnvironment(head)
    ensures |head| > 0 && head[0] == 'E' && head[|head| - 1] == '='
    ensures HasPrefix(head + rest, "Environment=") || HasPrefix(head + rest, "Environment ")
    ensures !HasPrefix(head + rest, "ExecStart=")
    ensures AfterEquals(head + rest) == rest
  {
    hide AfterEquals, HasPrefix;
    if head == "Environment=" {
      ShortHead(rest);
    } else {
      var x :| '=' !in x && head == "Environment " + x + "=";
      LongHead(x, rest);
    }
  }

  /** The parts of an Environment line read back: its assignments are its words. */
  lemma LineReads(indent: string, head: string, words: seq<string>, tail: string)
    requires Blank(indent) && StartsEnvironment(head) && Words(words) && Blank(tail)
    ensures var line := EnvironmentLine(indent, head, words, tail);
            && TrimSpace(line) == head + Join(words, " ")
            && !IsExecStart(line) && IsEnvironment(line) && Assignments(line) == words
  {
    hide Join, Fields, AfterEquals, TrimSpace, StartsEnvironment, IsSpace;
    var rest := Join(words, " ");
    var line, body := EnvironmentLine(indent, head, words, tail), head + Join(words, " ");
    HeadFacts(head, rest);
    FieldsOfJoin(words);
    if words == [] {
      NoJoin();
    } else {
      JoinEnds(words);
      assert body[|body| - 1] == rest[|rest| - 1];
    }
    NotSpaces();
    assert line == indent + body + tail;
    TrimBoth(indent, body, tail);
  }

  lemma NoJoin()
    ensures Join([], " ") == ""
  {
  }

  lemma NotSpaces()
    ensures !IsSpace('E') && !IsSpace('=')
  {
  }

  ghost predicate SomeRecovery(words: seq<string>) {
    exists i :: 0 <= i < |words| && AssignsRecovery(words[i])
  }

  ghost predicate AllRecovery(words: seq<string>) {
    forall i :: 0 <= i < |words| ==> AssignsRecovery(words[i])
  }

  /** A line that assigns recovery variables only, and one at least, is dropped; one that
      assigns them among others makes the rewrite refuse; any other is kept as it is. */
  lemma EnvironmentLineRewritten(indent: string, head: string, words: seq<string>, tail: string, binary: string,
        config: string)
    requires Blank(indent) && StartsEnvironment(head) && Words(words) && Blank(tail)
    ensures var line := EnvironmentLine(indent, head, words, tail);
            && (LineRefusal(line).Some? <==> SomeRecovery(words) && !AllRecovery(words))
            && (LineRefusal(line).Some? ==> LineRefusal(line) == Some(MixedEnvironment(head + Join(words, " "))))
            && (LineRefusal(line).None? ==> (Dropped(line) <==> words != [] && AllRecovery(words)))
            && (!Dropped(line) ==> !SomeRecovery(words) && NewLine(line, binary, config) == line)
  {
    hide Join, Assignments, TrimSpace, StartsEnvironment, IsWord, SetsRecovery, AssignsRecovery, EnvironmentLine,
         IsExecStart, IsEnvironment;
    LineReads(indent, head, words, tail);
    forall i | 0 <= i < |words|
      ensures SetsRecovery(words[i]) <==> AssignsRecovery(words[i])
    {
      RecoveryExactly(words[i]);
    }
    var line := EnvironmentLine(indent, head, words, tail);
    assert MentionsRecovery(line) <==> SomeRecovery(words);
    assert OnlyRecovery(line) <==> words != [] && AllRecovery(words);
    if words != [] && AllRecovery(words) {
      assert AssignsRecovery(words[0]);
    }
  }

  /** No line of a rewritten unit assigns a recovery variable. */
  lemma RecoveryIsGone(unit: string, binary: string, config: string, i: nat, indent: string, head: string,
        words: seq<string>, tail: string)
    requires NoNewline(binary) && NoNewline(config) && Rewritten(unit, binary, config).Success?
    requires i < |Lines(Rewritten(unit, binary, config).value)|
    requires Blank(indent) && StartsEnvironment(head) && Words(words) && Blank(tail)
    requires Lines(Rewritten(unit, binary, config).value)[i] == EnvironmentLine(indent, head, words, tail)
    ensures !SomeRecovery(words)
  {
    hide Rewritten, Lines, Kept, Assignments, SetsRecovery, AssignsRecovery, StartsEnvironment, IsWord,
         EnvironmentLine, IsEnvironment, IsExecStart;
    RewriteFrame(unit, binary, config);
    LineReads(indent, head, words, tail);
    forall k | 0 <= k < |words|
      ensures SetsRecovery(words[k]) <==> AssignsRecovery(words[k])
    {
      RecoveryExactly(words[k]);
    }
  }

  /** A unit with a line that assigns recovery variables among others is refused. */
  lemma MixedIsRefused(unit: string, binary: string, config: string, i: nat, indent: string, head: string,
        words: seq<string>, tail: string)
    requires i < |Lines(unit)| && Lines(unit)[i] == EnvironmentLine(indent, head, words, tail)
    requires Blank(indent) && StartsEnvironment(head) && Words(words) && Blank(tail)
    requires SomeRecovery(words) && !AllRecovery(words)
    ensures Rewritten(unit, binary, config).Failure?
  {
    hide LineRefusal, Dropped, NewLine, Lines, SomeRecovery, AllRecovery, StartsEnvironment, EnvironmentLine, IsWord;
    EnvironmentLineRewritten(indent, head, words, tail, binary, config);
  }

  /** Any other line is kept as it is. */
  lemma OtherLineKept(indent: string, body: string, tail: string, binary: string, config: string)
    requires Blank(indent) && Blank(tail)
    requires body != "" ==> !IsSpace(body[0]) && !IsSpace(body[|body| - 1])
    requires !("ExecStart=" <= body) && !("Environment=" <= body) && !("Environment " <= body)
    ensures var line := indent + body + tail;
            LineRefusal(line).None? && !Dropped(line) && NewLine(line, binary, config) == line
  {
    hide TrimSpace, MentionsRecovery, OnlyRecovery, ExecArgs;
    if body == "" {
      BlankLine(indent + body + tail);
    } else {
      TrimBoth(indent, body, tail);
    }
  }

  lemma BlankLine(line: string)
    requires Blank(line)
    ensures TrimSpace(line) == ""
  {
    if line != "" {
      assert Blank(line[1..]);
      BlankLine(line[1..]);
    }
  }

  /** The refusal is that of the first line that has one; without one, a unit is refused
      exactly when it has no ExecStart line, and for that. */
  lemma RefusalSays(unit: string, binary: string, config: string)
    ensures forall i :: 0 <= i < |Lines(unit)| && LineRefusal(Lines(unit)[i]).Some?
                        && (forall k :: 0 <= k < i ==> LineRefusal(Lines(unit)[k]).None?) ==>
              Rewritten(unit, binary, config) == Failure(LineRefusal(Lines(unit)[i]).value)
    ensures (forall i :: 0 <= i < |Lines(unit)| ==> LineRefusal(Lines(unit)[i]).None?) ==>
              if exists i :: 0 <= i < |Lines(unit)| && IsExecStart(Lines(unit)[i])
              then Rewritten(unit, binary, config).Success?
              else Rewritten(unit, binary, config) == Failure(NoExecStart)
  {
    hide LineRefusal, IsExecStart, Lines, Kept, NewLines, Join;
    var lines := Lines(unit);
    forall i | 0 <= i < |lines| && LineRefusal(lines[i]).Some?
               && (forall k :: 0 <= k < i ==> LineRefusal(lines[k]).None?)
      ensures Rewritten(unit, binary, config) == Failure(LineRefusal(lines[i]).value)
    {
      FirstRefusalAt(lines, i);
    }
  }

  // ------------------------------------------------------------ ExecStart lines

  predicate Prefixing(prefix: string) {
    forall i :: 0 <= i < |prefix| ==> prefix[i] in "-@:+!"
  }

  function StartLine(indent: string, prefix: string, args: seq<string>, tail: string): string {
    indent + "ExecStart=" + prefix + Join(args, " ") + tail
  }

  lemma PrefixCharacters(c: char)
    ensures IsExecPrefix(c) <==> c in "-@:+!"
  {
    var all := "-@:+!";
    assert all[0] == '-' && all[1] == '@' && all[2] == ':' && all[3] == '+' && all[4] == '!';
    if c in all {
      var i :| 0 <= i < 5 && all[i] == c;
    }
  }

  /** The parts of an ExecStart line read back. */
  lemma StartReads(indent: string, prefix: string, args: seq<string>, tail: string)
    requires Blank(indent) && Blank(tail) && Prefixing(prefix)
    requires args != [] && Words(args) && args[0][0] !in "-@:+!"
    ensures var line := StartLine(indent, prefix, args, tail);
            && IsExecStart(line) && Indent(line) == indent && ExecPrefix(line) == prefix && ExecArgs(line) == args
  {
    hide TrimSpace, Indent, Prefixes, Fields, Join, IsSpace, IsExecPrefix;
    var text := Join(args, " ");
    var line, body := StartLine(indent, prefix, args, tail), "ExecStart=" + (prefix + text);
    JoinEnds(args);
    FieldsOfJoin(args);
    NotSpaces();
    assert body[0] == 'E' && body[|body| - 1] == text[|text| - 1];
    assert line == indent + body + tail;
    TrimBoth(indent, body, tail);
    assert line == indent + (body + tail);
    IndentOf(indent, body + tail);
    assert body[|EXEC_START|..] == prefix + text;
    forall i | 0 <= i < |prefix|
      ensures IsExecPrefix(prefix[i])
    {
      PrefixCharacters(prefix[i]);
    }
    PrefixCharacters(text[0]);
    PrefixesOf(prefix, text);
    assert (prefix + text)[|prefix|..] == text;
  }

  /** The line that replaces it: the same but for its arguments. */
  lemma StartRewritten(indent: string, prefix: string, args: seq<string>, tail: string, binary: string,
        config: string)
    requires Blank(indent) && Blank(tail) && Prefixing(prefix)
    requires args != [] && Words(args) && args[0][0] !in "-@:+!"
    ensures var line := StartLine(indent, prefix, args, tail);
            && LineRefusal(line).None? && !Dropped(line)
            && NewLine(line, binary, config) == StartLine(indent, prefix, NewArgs(args, binary, config), "")
  {
    hide Join, NewArgs, IsExecStart, Indent, ExecPrefix, ExecArgs, IsEnvironment, MentionsRecovery, OnlyRecovery,
         Prefixing;
    StartReads(indent, prefix, args, tail);
    NotBoth(StartLine(indent, prefix, args, tail));
  }

  /** A line that names no executable is refused. */
  lemma EmptyStartRefused(indent: string, prefix: string, tail: string)
    requires Blank(indent) && Blank(tail) && Prefixing(prefix)
    ensures LineRefusal(StartLine(indent, prefix, [], tail)) == Some(EmptyExecStart)
  {
    hide TrimSpace, IsSpace;
    var line, body := StartLine(indent, prefix, [], tail), "ExecStart=" + prefix;
    NotSpaces();
    forall c | c in "-@:+!"
      ensures IsExecPrefix(c) && !IsSpace(c)
    {
      PrefixCharacters(c);
      PrefixIsNoSpace(c);
    }
    assert body[|body| - 1] == if prefix == "" then '=' else prefix[|prefix| - 1];
    assert line == indent + body + tail;
    TrimBoth(indent, body, tail);
    assert body[|EXEC_START|..] == prefix;
    AllPrefix(prefix);
    assert prefix[|prefix|..] == "";
    FieldsOfNothing();
  }

  lemma PrefixIsNoSpace(c: char)
    requires IsExecPrefix(c)
    ensures !IsSpace(c)
  {
  }

  lemma {:induction false} AllPrefix(prefix: string)
    requires forall i :: 0 <= i < |prefix| ==> IsExecPrefix(prefix[i])
    ensures Prefixes(prefix) == prefix
  {
    if prefix != "" {
      AllPrefix(prefix[1..]);
      assert prefix == [prefix[0]] + prefix[1..];
    }
  }

  // ------------------------------------------------------------- the arguments

  /** The argument is no config argument, in any of the four ways to write one. */
  predicate Plain(arg: string) {
    arg != "--config" && arg != "-c" && !("--config=" <= arg) && !("-c=" <= arg)
  }

  predicate AllPlain(args: seq<string>) {
    forall i :: 0 <= i < |args| ==> Plain(args[i])
  }

  lemma {:induction false} PlainScan(plain: seq<string>, rest: seq<string>, config: string)
    requires AllPlain(plain)
    ensures Retarget(plain + rest, config) == plain + Retarget(rest, config)
    ensures ConfigValues(plain + rest) == ConfigValues(rest)
  {
    if plain == [] {
      assert plain + rest == rest;
    } else {
      assert (plain + rest)[0] == plain[0] && (plain + rest)[1..] == plain[1..] + rest;
      PlainScan(plain[1..], rest, config);
    }
  }

  lemma NoFlags(plain: seq<string>, config: string)
    requires AllPlain(plain)
    ensures Retarget(plain, config) == plain && ConfigValues(plain) == []
  {
    PlainScan(plain, [], config);
    assert plain + [] == plain;
    EmptyScan(config);
  }

  /** Without a config path the executable changes and no argument does. */
  lemma OnlyTheBinary(args: seq<string>, binary: string)
    requires args != []
    ensures NewArgs(args, binary, "") == [binary] + args[1..]
  {
  }

  /** Where no argument is a config argument one is appended. */
  lemma ConfigAppended(exe: string, args: seq<string>, binary: string, config: string)
    requires AllPlain(args) && Plain(binary) && config != ""
    ensures NewArgs([exe] + args, binary, config) == [binary] + args + ["--config", config]
  {
    hide Retarget, ConfigValues, Plain;
    assert ([exe] + args)[0 := binary] == [binary] + args;
    NoFlags([binary] + args, config);
  }

  lemma Around(exe: string, before: seq<string>, middle: seq<string>, after: seq<string>, binary: string)
    ensures ([exe] + before + middle + after)[0 := binary] == ([binary] + before) + (middle + after)
    ensures ([binary] + before) + (middle + after) == [binary] + before + middle + after
    ensures [exe] + before + middle + after != []
  {
  }

  lemma OneWord(flag: string, value: string, after: seq<string>, config: string)
    requires flag == "--config=" || flag == "-c="
    ensures Retarget([flag + value] + after, config) == ["--config=" + config] + Retarget(after, config)
    ensures ConfigValues([flag + value] + after) != []
  {
    var rest := [flag + value] + after;
    assert flag <= flag + value && rest[0] == flag + value && rest[1..] == after;
  }

  lemma TwoWords(flag: string, value: string, after: seq<string>, config: string)
    requires flag == "--config" || flag == "-c"
    ensures Retarget([flag, value] + after, config) == [flag, config] + Retarget(after, config)
    ensures ConfigValues([flag, value] + after) != []
  {
    var rest := [flag, value] + after;
    assert |"--config"| < |"--config="| && |"-c"| < |"-c="| && "--config"[1] != "-c="[1];
    assert rest[0] == flag && rest[2..] == after;
  }

  /** Where one is, in one word, its value is replaced. */
  lemma ConfigReplaced(exe: string, before: seq<string>, flag: string, value: string, after: seq<string>,
        binary: string, config: string)
    requires AllPlain(before) && AllPlain(after) && Plain(binary) && config != ""
    requires flag == "--config=" || flag == "-c="
    ensures NewArgs([exe] + before + [flag + value] + after, binary, config)
            == [binary] + before + ["--config=" + config] + after
  {
    hide Plain, Retarget, ConfigValues;
    Around(exe, before, [flag + value], after, binary);
    Around(exe, before, ["--config=" + config], after, binary);
    PlainScan([binary] + before, [flag + value] + after, config);
    OneWord(flag, value, after, config);
    NoFlags(after, config);
  }

  /** And so it is where flag and value are two words. */
  lemma NextConfigReplaced(exe: string, before: seq<string>, flag: string, value: string, after: seq<string>,
        binary: string, config: string)
    requires AllPlain(before) && AllPlain(after) && Plain(binary) && config != ""
    requires flag == "--config" || flag == "-c"
    ensures NewArgs([exe] + before + [flag, value] + after, binary, config)
            == [binary] + before + [flag, config] + after
  {
    hide Plain, Retarget, ConfigValues;
    Around(exe, before, [flag, value], after, binary);
    Around(exe, before, [flag, config], after, binary);
    PlainScan([binary] + before, [flag, value] + after, config);
    TwoWords(flag, value, after, config);
    NoFlags(after, config);
  }
}
