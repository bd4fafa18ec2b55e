/** internal/cutover/unit.go: repointing a systemd unit at the new binary. */
module UnitFile {
  import opened Prelude
  import opened Text

  datatype Refusal = NoExecStart | EmptyExecStart | MixedEnvironment(line: string)

  const EXEC_START := "ExecStart="

  predicate IsExecPrefix(c: char) {
    c == '-' || c == '@' || c == ':' || c == '+' || c == '!'
  }

  // ---------------------------------------------------------------- ExecStart

  predicate IsExecStart(line: string) {
    HasPrefix(TrimSpace(line), EXEC_START)
  }

  /** The leading blanks and tabs of a line. */
  function Indent(line: string): (r: string)
    ensures r <= line
    ensures forall i :: 0 <= i < |r| ==> r[i] == ' ' || r[i] == '\t'
    ensures |r| < |line| ==> line[|r|] != ' ' && line[|r|] != '\t'
  {
    if line != "" && (line[0] == ' ' || line[0] == '\t') then [line[0]] + Indent(line[1..]) else ""
  }

  function ValueOf(line: string): string
    requires IsExecStart(line)
  {
    TrimSpace(line)[|EXEC_START|..]
  }

  /** The systemd prefix characters directly after "ExecStart=". */
  function Prefixes(value: string): (r: string)
    ensures r <= value
    ensures forall i :: 0 <= i < |r| ==> IsExecPrefix(r[i])
  {
    if value != "" && IsExecPrefix(value[0]) then [value[0]] + Prefixes(value[1..]) else ""
  }

  function ExecPrefix(line: string): string
    requires IsExecStart(line)
  {
    Prefixes(ValueOf(line))
  }

  /** The executable and its arguments. */
  function ExecArgs(line: string): seq<string>
    requires IsExecStart(line)
  {
    Fields(ValueOf(line)[|ExecPrefix(line)|..])
  }

  predicate EqualsFlag(arg: string) {
    HasPrefix(arg, "--config=") || HasPrefix(arg, "-c=")
  }

  predicate BareFlag(arg: string) {
    arg == "--config" || arg == "-c"
  }

  /** What follows the '=' of a config argument in its one-word form. */
  function FlagValue(arg: string): string
    requires EqualsFlag(arg)
  {
    if HasPrefix(arg, "--config=") then arg[|"--config="|..] else arg[|"-c="|..]
  }

  /** The one-word config argument with a given value. */
  function FlagFor(config: string): string {
    "--config=" + config
  }

  /** The values a left-to-right reader of the arguments finds for the config flag. */
  function ConfigValues(args: seq<string>): seq<string> {
    if args == [] then []
    else if EqualsFlag(args[0]) then [FlagValue(args[0])] + ConfigValues(args[1..])
    else if BareFlag(args[0]) && |args| > 1 then [args[1]] + ConfigValues(args[2..])
    else ConfigValues(args[1..])
  }

  /** The arguments that reader does not take for config arguments. */
  function OtherArgs(args: seq<string>): seq<string> {
    if args == [] then []
    else if EqualsFlag(args[0]) then OtherArgs(args[1..])
    else if BareFlag(args[0]) && |args| > 1 then OtherArgs(args[2..])
    else [args[0]] + OtherArgs(args[1..])
  }

  /** Every config argument given the value config, in one pass. */
  function Retarget(args: seq<string>, config: string): (r: seq<string>)
    ensures |r| == |args|
  {
    if args == [] then []
    else if EqualsFlag(args[0]) then [FlagFor(config)] + Retarget(args[1..], config)
    else if BareFlag(args[0]) && |args| > 1 then [args[0], config] + Retarget(args[2..], config)
    else [args[0]] + Retarget(args[1..], config)
  }

  function NewArgs(args: seq<string>, binary: string, config: string): seq<string>
    requires args != []
  {
    var a := args[0 := binary];
    if config == "" then a
    else if ConfigValues(a) != [] then Retarget(a, config)
    else a + ["--config", config]
  }

  function RewrittenExecStart(line: string, binary: string, config: string): string
    requires IsExecStart(line) && ExecArgs(line) != []
  {
    Indent(line) + EXEC_START + ExecPrefix(line) + Join(NewArgs(ExecArgs(line), binary, config), " ")
  }

  lemma EmptyScan(config: string)
    ensures Retarget([], config) == [] && ConfigValues([]) == []
  {
  }

  /** One step of a left-to-right scan from position i. */
  lemma ScanStep(args: seq<string>, i: nat, config: string)
    requires i < |args|
    ensures EqualsFlag(args[i]) ==>
              && Retarget(args[i..], config) == [FlagFor(config)] + Retarget(args[i + 1..], config)
              && ConfigValues(args[i..]) != []
    ensures !EqualsFlag(args[i]) && BareFlag(args[i]) && i + 1 < |args| ==>
              && Retarget(args[i..], config) == [args[i], config] + Retarget(args[i + 2..], config)
              && ConfigValues(args[i..]) != []
    ensures !EqualsFlag(args[i]) && !(BareFlag(args[i]) && i + 1 < |args|) ==>
              && Retarget(args[i..], config) == [args[i]] + Retarget(args[i + 1..], config)
              && ConfigValues(args[i..]) == ConfigValues(args[i + 1..])
  {
    hide EqualsFlag, BareFlag, FlagValue, FlagFor;
    var rest := args[i..];
    assert rest[0] == args[i] && rest[1..] == args[i + 1..];
    if i + 1 < |args| {
      assert rest[2..] == args[i + 2..];
    }
  }

  /** Overwrites config arguments while scanning, or appends one. */
  method SetConfig(args: seq<string>, config: string) returns (fields: seq<string>)
    ensures fields == if ConfigValues(args) != [] then Retarget(args, config) else args + ["--config", config]
  {
    hide EqualsFlag, BareFlag, FlagFor, Retarget, ConfigValues;
    fields := args;
    assert args[0..] == args;
    var replaced := false;
    var i := 0;
    while i < |fields|
      invariant 0 <= i <= |fields| == |args|
      invariant fields[i..] == args[i..]
      invariant Retarget(args, config) == fields[..i] + Retarget(args[i..], config)
      invariant replaced ==> ConfigValues(args) != []
      invariant !replaced ==> fields == args && ConfigValues(args[i..]) == ConfigValues(args)
    {
      ghost var before := fields[..i];
      assert args[i..][0] == fields[i..][0];
      ScanStep(args, i, config);
      if EqualsFlag(fields[i]) {
        fields := fields[i := FlagFor(config)];
        replaced := true;
        assert fields[..i + 1] == before + [FlagFor(config)];
        i := i + 1;
      } else if BareFlag(fields[i]) && i + 1 < |fields| {
        fields := fields[i + 1 := config];
        replaced := true;
        assert fields[..i + 2] == before + [args[i], config];
        i := i + 2;
      } else {
        assert fields[..i + 1] == before + [args[i]];
        i := i + 1;
      }
    }
    assert fields[..i] == fields && args[i..] == [];
    EmptyScan(config);
    if !replaced {
      fields := fields + ["--config", config];
    }
  }

  method StripPrefixes(text: string) returns (prefix: string, value: string)
    ensures prefix == Prefixes(text) && value == text[|prefix|..]
  {
    hide IsExecPrefix;
    prefix, value := [], text;
    while |value| > 0 && IsExecPrefix(value[0])
      invariant prefix + value == text
      invariant Prefixes(text) == prefix + Prefixes(value)
    {
      assert Prefixes(value) == [value[0]] + Prefixes(value[1..]);
      assert value == [value[0]] + value[1..];
      prefix := prefix + [value[0]];
      value := value[1..];
    }
  }

  /** Rewrites one ExecStart line in the source's way: strip prefix characters
      one by one, then overwrite fields while scanning. */
  method RewriteExecStart(line: string, binary: string, config: string) returns (r: Result<string, Refusal>)
    requires IsExecStart(line)
    ensures r == if ExecArgs(line) == [] then Failure(EmptyExecStart)
                 else Success(RewrittenExecStart(line, binary, config))
  {
    hide ConfigValues, Retarget, Fields, Join, TrimSpace, Prefixes;
    var indent := Indent(line);
    var value := TrimSpace(line)[|EXEC_START|..];
    var prefix;
    prefix, value := StripPrefixes(value);
    var fields := Fields(value);
    if |fields| == 0 {
      return Failure(EmptyExecStart);
    }
    fields := fields[0 := binary];
    if config != "" {
      fields := SetConfig(fields, config);
    }
    return Success(indent + EXEC_START + prefix + Join(fields, " "));
  }

  // -------------------------------------------------------------- Environment

  const RECOVERY_MODE := "STALWART_RECOVERY_MODE="
  const RECOVERY_ADMIN := "STALWART_RECOVERY_ADMIN="

  predicate IsEnvironment(line: string) {
    HasPrefix(TrimSpace(line), "Environment=") || HasPrefix(TrimSpace(line), "Environment ")
  }

  /** What follows the first '=', or everything when there is none. */
  function AfterEquals(s: string): string {
    if '=' !in s then s
    else if s[0] == '=' then s[1..]
    else AfterEquals(s[1..])
  }

  function Assignments(line: string): seq<string> {
    Fields(AfterEquals(TrimSpace(line)))
  }

  predicate IsQuote(c: char) {
    c == '"' || c == '\''
  }

  /** strings.Trim with the two quote characters. */
  function TrimQuotes(s: string): string {
    if s != "" && IsQuote(s[0]) then TrimQuotes(s[1..])
    else if s != "" && IsQuote(s[|s| - 1]) then TrimQuotes(s[..|s| - 1])
    else s
  }

  predicate SetsRecovery(assignment: string) {
    HasPrefix(TrimQuotes(assignment), RECOVERY_MODE) || HasPrefix(TrimQuotes(assignment), RECOVERY_ADMIN)
  }

  predicate MentionsRecovery(line: string) {
    exists i :: 0 <= i < |Assignments(line)| && SetsRecovery(Assignments(line)[i])
  }

  predicate OnlyRecovery(line: string) {
    Assignments(line) != [] && forall i :: 0 <= i < |Assignments(line)| ==> SetsRecovery(Assignments(line)[i])
  }

  /** How many of the two recovery variables an assignment sets. */
  method CountNames(assignment: string) returns (found: nat)
    ensures found == if SetsRecovery(assignment) then 1 else 0
  {
    var a := TrimQuotes(assignment);
    found := 0;
    if HasPrefix(a, RECOVERY_MODE) {
      found := found + 1;
      assert a[18] == RECOVERY_MODE[18];
    }
    if HasPrefix(a, RECOVERY_ADMIN) {
      assert a[18] == RECOVERY_ADMIN[18];
      found := found + 1;
    }
  }

  /** Counts recovery assignments; no assignment can set both variables, so the
      count reaches the number of assignments exactly when all of them are. */
  method ClassifyEnvironmentLine(line: string) returns (mentions: bool, only: bool)
    ensures mentions <==> MentionsRecovery(line)
    ensures only <==> OnlyRecovery(line)
  {
    hide Assignments, SetsRecovery;
    var assignments := Assignments(line);
    if |assignments| == 0 {
      return false, false;
    }
    var recoveryCount := 0;
    for i := 0 to |assignments|
      invariant 0 <= recoveryCount <= i
      invariant recoveryCount > 0 <==> exists k :: 0 <= k < i && SetsRecovery(assignments[k])
      invariant recoveryCount == i <==> forall k :: 0 <= k < i ==> SetsRecovery(assignments[k])
    {
      var found := CountNames(assignments[i]);
      recoveryCount := recoveryCount + found;
    }
    return recoveryCount > 0, recoveryCount == |assignments|;
  }

  // --------------------------------------------------------------- whole unit

  /** Why a line makes the whole rewrite refuse, if it does. */
  function LineRefusal(line: string): Option<Refusal> {
    if IsExecStart(line) then
      if ExecArgs(line) == [] then Some(EmptyExecStart) else None
    else if IsEnvironment(line) && MentionsRecovery(line) && !OnlyRecovery(line) then
      Some(MixedEnvironment(TrimSpace(line)))
    else None
  }

  predicate Dropped(line: string) {
    !IsExecStart(line) && IsEnvironment(line) && MentionsRecovery(line)
  }

  /** The lines that are not recovery-only, in order. */
  function Kept(lines: seq<string>): seq<string> {
    if lines == [] then []
    else Kept(lines[..|lines| - 1]) + if Dropped(lines[|lines| - 1]) then [] else [lines[|lines| - 1]]
  }

  function NewLine(line: string, binary: string, config: string): string {
    if IsExecStart(line) && ExecArgs(line) != [] then RewrittenExecStart(line, binary, config) else line
  }

  function NewLines(lines: seq<string>, binary: string, config: string): seq<string> {
    seq(|lines|, i requires 0 <= i < |lines| => NewLine(lines[i], binary, config))
  }

  /** The refusal of the first line that has one. */
  function FirstRefusal(lines: seq<string>): (r: Option<Refusal>)
    ensures r.None? <==> forall i :: 0 <= i < |lines| ==> LineRefusal(lines[i]).None?
  {
    if lines == [] then None
    else if LineRefusal(lines[0]).Some? then LineRefusal(lines[0])
    else FirstRefusal(lines[1..])
  }

  predicate HasExecStart(lines: seq<string>) {
    exists i :: 0 <= i < |lines| && IsExecStart(lines[i])
  }

  function Rewritten(unit: string, binary: string, config: string): Result<string, Refusal> {
    var lines := Lines(unit);
    match FirstRefusal(lines)
    case Some(refusal) => Failure(refusal)
    case None =>
      if HasExecStart(lines) then Success(Join(NewLines(Kept(lines), binary, config), "\n"))
      else Failure(NoExecStart)
  }

  lemma {:induction false} FirstRefusalAt(lines: seq<string>, i: nat)
    requires i < |lines| && LineRefusal(lines[i]).Some?
    requires forall k :: 0 <= k < i ==> LineRefusal(lines[k]).None?
    ensures FirstRefusal(lines) == LineRefusal(lines[i])
  {
    hide LineRefusal;
    if i > 0 {
      FirstRefusalAt(lines[1..], i - 1);
    }
  }

  lemma KeptNext(lines: seq<string>, i: nat, binary: string, config: string)
    requires i < |lines|
    ensures NewLines(Kept(lines[..i + 1]), binary, config)
            == NewLines(Kept(lines[..i]), binary, config)
               + if Dropped(lines[i]) then [] else [NewLine(lines[i], binary, config)]
  {
    hide Dropped, NewLine;
    assert lines[..i + 1][..i] == lines[..i];
    assert Kept(lines[..i + 1]) == Kept(lines[..i]) + if Dropped(lines[i]) then [] else [lines[i]];
  }

  lemma HasExecStartNext(lines: seq<string>, i: nat)
    requires i < |lines|
    ensures HasExecStart(lines[..i + 1]) <==> HasExecStart(lines[..i]) || IsExecStart(lines[i])
  {
    hide IsExecStart;
    assert lines[..i + 1] == lines[..i] + [lines[i]];
  }

  lemma NoLines(binary: string, config: string)
    ensures NewLines(Kept([]), binary, config) == [] && !HasExecStart([])
  {
  }

  /** The body of the loop over lines: the line to append, none, or a refusal. */
  method RewriteLine(line: string, binary: string, config: string) returns (r: Result<Option<string>, Refusal>)
    ensures r == match LineRefusal(line)
                 case Some(refusal) => Failure(refusal)
                 case None => Success(if Dropped(line) then None else Some(NewLine(line, binary, config)))
  {
    if IsExecStart(line) {
      var rewritten := RewriteExecStart(line, binary, config);
      return match rewritten
        case Failure(e) => Failure(e)
        case Success(text) => Success(Some(text));
    }
    if IsEnvironment(line) {
      var mentions, only := ClassifyEnvironmentLine(line);
      if mentions && !only {
        return Failure(MixedEnvironment(TrimSpace(line)));
      }
      if mentions {
        return Success(None);
      }
    }
    return Success(Some(line));
  }

  /** The rewrite of a whole unit: one pass over its lines. */
  method RewriteUnit(unit: string, binary: string, config: string) returns (r: Result<string, Refusal>)
    ensures r == Rewritten(unit, binary, config)
  {
    hide LineRefusal, Dropped, NewLine, NewLines, Kept, HasExecStart, IsExecStart, Lines, Join;
    var lines := Lines(unit);
    var out := [];
    var execStarts := 0;
    NoLines(binary, config);
    for i := 0 to |lines|
      invariant out == NewLines(Kept(lines[..i]), binary, config)
      invariant forall k :: 0 <= k < i ==> LineRefusal(lines[k]).None?
      invariant execStarts >= 0 && (execStarts > 0 <==> HasExecStart(lines[..i]))
    {
      var line := lines[i];
      KeptNext(lines, i, binary, config);
      HasExecStartNext(lines, i);
      var rewritten := RewriteLine(line, binary, config);
      if rewritten.Failure? {
        FirstRefusalAt(lines, i);
        return Failure(rewritten.error);
      }
      if rewritten.value.Some? {
        out := out + [rewritten.value.value];
      }
      if IsExecStart(line) {
        execStarts := execStarts + 1;
      }
    }
    assert lines[..|lines|] == lines;
    if execStarts == 0 {
      return Failure(NoExecStart);
    }
    return Success(Join(out, "\n"));
  }
}
