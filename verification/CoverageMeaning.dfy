/** What a built plan holds, in terms of what each generator made of the settings, and
    what a listener's settings come to. */
module CoverageMeaning {
  import opened Prelude
  import opened Text
  import opened Order
  import opened PlanBuild
  import opened ListenerGenerator
  import opened ListenerOrder

  // ------------------------------------------------------------- generators in turn

  /** The settings a generator is given: the unmigrated ones under its prefix. */
  ghost predicate IsHanded(given: Settings, settings: Settings, unmigrated: set<string>, prefix: string) {
    && (forall k :: k in given <==> k in settings && k in unmigrated && prefix <= k)
    && (forall k :: k in given ==> given[k] == settings[k])
  }

  /** What one generator made: nothing when there is nothing for it. */
  ghost predicate IsMade(made: Generated, settings: Settings, unmigrated: set<string>, g: Generator) {
    exists given ::
      && IsHanded(given, settings, unmigrated, g.prefix)
      && if given == map[] then made == Generated([], [], []) else g.generate(given) == Success(made)
  }

  function Operations(made: seq<Generated>): seq<Operation> {
    if made == [] then [] else Operations(made[..|made| - 1]) + made[|made| - 1].ops
  }

  function Cautions(made: seq<Generated>): seq<Warning> {
    if made == [] then [] else Cautions(made[..|made| - 1]) + made[|made| - 1].warnings
  }

  /** Some generator claims the key. */
  predicate IsClaimed(made: seq<Generated>, k: string) {
    exists i :: 0 <= i < |made| && k in made[i].covered
  }

  lemma NothingClaimed()
    ensures forall k :: !IsClaimed([], k)
  {
  }

  lemma ClaimedNext(made: seq<Generated>, more: Generated, k: string)
    ensures IsClaimed(made + [more], k) <==> IsClaimed(made, k) || k in more.covered
  {
    var all := made + [more];
    assert all[|made|] == more;
    if i :| 0 <= i < |made| && k in made[i].covered {
      assert k in all[i].covered;
    }
  }

  lemma HandedOnce(given: Settings, settings: Settings, unmigrated: set<string>, prefix: string)
    ensures IsHanded(given, settings, unmigrated, prefix) <==> given == Subset(settings, unmigrated, prefix)
  {
  }

  /** A plan is built exactly when every generator succeeds, and then it is what they made,
      one after another. */
  lemma {:induction false} BuiltFromAll(settings: Settings, unmigrated: set<string>, generators: seq<Generator>,
        out: Generated)
    returns (made: seq<Generated>)
    requires Produced(settings, unmigrated, generators) == Success(out)
    ensures |made| == |generators|
    ensures forall i :: 0 <= i < |made| ==> IsMade(made[i], settings, unmigrated, generators[i])
    ensures out.ops == Operations(made) && out.warnings == Cautions(made)
    ensures forall k :: k in out.covered <==> IsClaimed(made, k)
  {
    hide Subset, IsMade, IsClaimed;
    if generators == [] {
      made := [];
      NothingClaimed();
    } else {
      var before, g := generators[..|generators| - 1], generators[|generators| - 1];
      var sofar := Produced(settings, unmigrated, before).value;
      made := BuiltFromAll(settings, unmigrated, before, sofar);
      var given := Subset(settings, unmigrated, g.prefix);
      var more := if given == map[] then Generated([], [], []) else g.generate(given).value;
      MadeFrom(more, given, settings, unmigrated, g);
      assert (made + [more])[..|made|] == made;
      forall k
        ensures IsClaimed(made + [more], k) <==> IsClaimed(made, k) || k in more.covered
      {
        ClaimedNext(made, more, k);
      }
      made := made + [more];
    }
  }

  lemma MadeFrom(made: Generated, given: Settings, settings: Settings, unmigrated: set<string>, g: Generator)
    requires given == Subset(settings, unmigrated, g.prefix)
    requires if given == map[] then made == Generated([], [], []) else g.generate(given) == Success(made)
    ensures IsMade(made, settings, unmigrated, g)
  {
    HandedOnce(given, settings, unmigrated, g.prefix);
  }

  /** The first generator that fails ends the build with its error. */
  lemma {:induction false} FirstErrorEnds(settings: Settings, unmigrated: set<string>, generators: seq<Generator>,
        error: BuildError)
    returns (n: nat, given: Settings)
    requires Produced(settings, unmigrated, generators) == Failure(error)
    ensures n < |generators| && Produced(settings, unmigrated, generators[..n]).Success?
    ensures IsHanded(given, settings, unmigrated, generators[n].prefix) && given != map[]
    ensures error.prefix == generators[n].prefix && generators[n].generate(given) == Failure(error.message)
  {
    hide Subset;
    n := |generators| - 1;
    var g := generators[n];
    if Produced(settings, unmigrated, generators[..n]).Failure? {
      n, given := FirstErrorEnds(settings, unmigrated, generators[..n], error);
      assert generators[..|generators| - 1][..n] == generators[..n];
    } else {
      given := Subset(settings, unmigrated, g.prefix);
      HandedOnce(given, settings, unmigrated, g.prefix);
    }
  }

  /** The number of objects of a kind. */
  function CountOf(ops: seq<Operation>, kind: string): nat {
    var objects := ObjectCounts(ops);
    if kind in objects then objects[kind] else 0
  }

  /** Counts of objects: none in none, an operation's own in one, and they add up. */
  lemma ObjectsOfOne(op: Operation, kind: string)
    ensures CountOf([], kind) == 0
    ensures CountOf([op], kind) == if op.kind == kind then |op.values| else 0
  {
    assert [op][..0] == [];
  }

  lemma {:induction false} ObjectsAddUp(a: seq<Operation>, b: seq<Operation>, kind: string)
    ensures CountOf(a + b, kind) == CountOf(a, kind) + CountOf(b, kind)
  {
    if b == [] {
      assert a + b == a;
    } else {
      assert (a + b)[..|a + b| - 1] == a + b[..|b| - 1];
      ObjectsAddUp(a, b[..|b| - 1], kind);
    }
  }

  /** The remaining groups come largest first, and equal ones by prefix. */
  lemma RankedLargestFirst(s: seq<PrefixCount>, keys: set<string>, i: nat, j: nat)
    requires IsHistogram(s, keys) && i < j < |s|
    ensures s[i].keys >= s[j].keys
    ensures s[i].keys == s[j].keys ==> Less(s[i].prefix, s[j].prefix)
  {
    assert Ahead(s[i], s[j]);
  }

  // --------------------------------------------------------------------- listeners

  /** The setting of a listener's field. */
  function KeyFor(n: string, field: string): string {
    "server.listener." + n + "." + field
  }

  predicate IsName(n: string) {
    n != "" && '.' !in n
  }

  /** The address is one the settings bind the listener to. */
  ghost predicate BindsTo(s: Settings, n: string, address: string) {
    address != "" && exists field :: (field == "bind" || "bind." <= field) && KeyFor(n, field) in s
                                     && s[KeyFor(n, field)] == address
  }

  lemma KeyParses(n: string, field: string)
    requires IsName(n)
    ensures Parse(KeyFor(n, field)) == Some(Setting(n, field)) && HasPrefix(KeyFor(n, field), PREFIX)
  {
    hide Parse;
    ParseOfKey(n, field);
    assert KeyFor(n, field) == PREFIX + (n + "." + field);
  }

  lemma ParsedIsKey(s: Settings, k: string)
    requires AllPrefixed(s) && k in s && Parse(k).Some?
    ensures k == KeyFor(Parse(k).value.listener, Parse(k).value.field)
  {
  }

  lemma BindsExactly(s: Settings, n: string, address: string)
    requires AllPrefixed(s) && IsName(n)
    ensures address in Binds(s, n) <==> BindsTo(s, n, address)
  {
    hide Parse, KeyFor, HasPrefix;
    if address in Binds(s, n) {
      var k :| k in s && IsBind(k, s[k], n) && s[k] == address;
      ParsedIsKey(s, k);
      BindFields(Parse(k).value.field);
    }
    if BindsTo(s, n, address) {
      var field :| (field == "bind" || "bind." <= field) && KeyFor(n, field) in s && s[KeyFor(n, field)] == address;
      KeyParses(n, field);
      BindFields(field);
      assert IsBind(KeyFor(n, field), address, n);
    }
  }

  lemma BindFields(field: string)
    ensures KindOf(field).Bind? <==> field == "bind" || "bind." <= field
  {
  }

  /** With prefixed keys the value that counts is the one under the setting's key. */
  lemma ValueExactly(s: Settings, pick: Pick, n: string, field: string)
    requires AllPrefixed(s) && IsPick(s, pick) && IsName(n)
    ensures ValueOf(s, pick, n, field)
            == if KeyFor(n, field) in s then Some(s[KeyFor(n, field)]) else None
  {
    hide Parse, KeyFor, HasPrefix;
    var st, key := Setting(n, field), KeyFor(n, field);
    KeyParses(n, field);
    if st in pick {
      ParsedIsKey(s, pick[st]);
    }
  }

  /** The text is "true", in any case and with white space around it or not. */
  ghost predicate IsTrue(text: string) {
    exists left, w, right :: IsPadded(text, left, w, right) && |w| == 4
                             && w[0] in "tT" && w[1] in "rR" && w[2] in "uU" && w[3] in "eE"
  }

  lemma LetterFolds(c: char, low: char, up: char)
    requires 'a' <= low <= 'z' && up as int == low as int - 32
    ensures ToLower([c]) == [low] <==> c == low || c == up
  {
    assert |ToLower([c])| == 1 && ToLower([c])[0] == if 'A' <= c <= 'Z' then (c as int + 32) as char else c;
    assert ToLower([c]) == [ToLower([c])[0]];
  }

  lemma EitherOf(c: char, low: char, up: char)
    ensures c in [low, up] <==> c == low || c == up
  {
    assert [low, up][0] == low && [low, up][1] == up;
  }

  lemma FoldsToTrue(w: string)
    ensures ToLower(w) == "true"
            <==> |w| == 4 && w[0] in "tT" && w[1] in "rR" && w[2] in "uU" && w[3] in "eE"
  {
    hide ToLower;
    LowerLength(w);
    if |w| == 4 {
      LetterFolds(w[0], 't', 'T');
      LetterFolds(w[1], 'r', 'R');
      LetterFolds(w[2], 'u', 'U');
      LetterFolds(w[3], 'e', 'E');
      EitherOf(w[0], 't', 'T');
      EitherOf(w[1], 'r', 'R');
      EitherOf(w[2], 'u', 'U');
      EitherOf(w[3], 'e', 'E');
      LowerByLetter(w);
      var low := ToLower(w);
      assert [low[0]] == ['t'] <==> low[0] == 't';
      assert low == [low[0], low[1], low[2], low[3]];
    }
  }

  lemma LowerLength(w: string)
    ensures |ToLower(w)| == |w|
  {
  }

  lemma LowerByLetter(w: string)
    ensures |ToLower(w)| == |w| && forall i :: 0 <= i < |w| ==> ToLower([w[i]]) == [ToLower(w)[i]]
  {
  }

  lemma TrueExactly(text: string)
    ensures TlsIn(text) <==> IsTrue(text)
  {
    hide ToLower, TrimSpace, IsWord, AllSpace;
    TrueIsLow();
    FoldsToTrue(TrimSpace(text));
    if TlsIn(text) {
      var left, right := Padding(text);
      TrueIsWord(TrimSpace(text));
      assert IsPadded(text, left, TrimSpace(text), right);
    }
    if left, w, right :| IsPadded(text, left, w, right) && |w| == 4
                         && w[0] in "tT" && w[1] in "rR" && w[2] in "uU" && w[3] in "eE" {
      PaddedTrims(text, left, w, right);
    }
  }

  lemma TrueIsLow()
    ensures ToLower("true") == "true"
  {
  }

  lemma TrueIsWord(w: string)
    requires ToLower(w) == "true"
    ensures IsWord(w)
  {
    forall i | 0 <= i < |w|
      ensures !IsSpace(w[i])
    {
      assert 'a' <= ToLower(w)[i] <= 'z';
    }
  }

  // ------------------------------------------------------------ the listener made

  /** The settings say this of the listener's protocol; "" is nothing. */
  ghost predicate SaysProtocol(s: Settings, n: string, protocol: string) {
    if KeyFor(n, "protocol") !in s || AllSpace(s[KeyFor(n, "protocol")]) then protocol == ""
    else exists left, w, right :: IsPadded(s[KeyFor(n, "protocol")], left, w, right) && ToLower(w) == protocol
  }

  ghost predicate SaysTls(s: Settings, n: string, tls: Option<bool>) {
    if KeyFor(n, "tls.implicit") !in s then tls == None
    else tls.Some? && (tls.value <==> IsTrue(s[KeyFor(n, "tls.implicit")]))
  }

  lemma SpaceTrims(text: string)
    requires AllSpace(text)
    ensures TrimSpace(text) == ""
  {
    hide IsSpace;
    TrimLeftPadding(text, "");
    assert text + "" == text;
  }

  lemma ProtocolExactly(s: Settings, pick: Pick, n: string, protocol: string)
    requires AllPrefixed(s) && IsPick(s, pick) && IsName(n) && SaysProtocol(s, n, protocol)
    ensures ProtocolOf(s, pick, n) == protocol
  {
    hide TrimSpace, IsPadded, AllSpace, KeyFor, ValueOf, IsPick, ToLower;
    ValueExactly(s, pick, n, "protocol");
    LowerNothing();
    if KeyFor(n, "protocol") in s {
      var text := s[KeyFor(n, "protocol")];
      if AllSpace(text) {
        SpaceTrims(text);
      } else {
        var left, w, right :| IsPadded(text, left, w, right) && ToLower(w) == protocol;
        PaddedTrims(text, left, w, right);
      }
    }
  }

  lemma LowerNothing()
    ensures ToLower("") == ""
  {
  }

  lemma TlsExactly(s: Settings, pick: Pick, n: string, tls: Option<bool>)
    requires AllPrefixed(s) && IsPick(s, pick) && IsName(n) && SaysTls(s, n, tls)
    ensures TlsOf(s, pick, n) == tls
  {
    hide TlsIn, KeyFor, ValueOf, IsPick, IsTrue;
    ValueExactly(s, pick, n, "tls.implicit");
    if KeyFor(n, "tls.implicit") in s {
      TrueExactly(s[KeyFor(n, "tls.implicit")]);
    }
  }

  /** The protocols v0.16 has, under its own names for them; none stands for smtp. */
  ghost predicate Becomes(protocol: string, target: string) {
    || (protocol in {"smtp", "lmtp", "http", "imap", "pop3"} && target == protocol)
    || (protocol == "managesieve" && target == "manageSieve")
    || (protocol == "" && target == "smtp")
  }

  lemma BecomesExactly(protocol: string, target: string)
    ensures Becomes(protocol, target) <==>
              (protocol == "" || protocol in PROTOCOLS)
              && target == if protocol in PROTOCOLS then PROTOCOLS[protocol] else "smtp"
  {
  }

  /** What Generate makes of the settings, on keys under its prefix: an object for each
      listener that is bound and whose protocol is known or not said, with its addresses,
      its protocol under the new name and its TLS mode if that is said. */
  lemma ListenerMade(s: Settings, pick: Pick, n: string, protocol: string, target: string, tls: Option<bool>,
        addresses: set<string>)
    requires AllPrefixed(s) && IsPick(s, pick) && IsName(n)
    requires SaysProtocol(s, n, protocol) && Becomes(protocol, target) && SaysTls(s, n, tls)
    requires addresses != {} && forall v :: v in addresses <==> BindsTo(s, n, v)
    ensures Operation("NetworkListener", ["name"], map["listener-" + n := Listener(n, addresses, target, tls)])
            in ListenersOf(s, pick).ops
    ensures protocol == "" ==> NoProtocol(n) in ListenersOf(s, pick).warnings
  {
    hide BindsTo, SaysProtocol, SaysTls, ProtocolOf, TlsOf, Binds, Names, IsPick, Becomes, Sorted, Consumed, OpsOf,
         WarningsOf;
    forall v
      ensures v in Binds(s, n) <==> BindsTo(s, n, v)
    {
      BindsExactly(s, n, v);
    }
    assert Binds(s, n) == addresses;
    ProtocolExactly(s, pick, n, protocol);
    TlsExactly(s, pick, n, tls);
    BecomesExactly(protocol, target);
    ListenerIsNamed(s, n);
    OpsIn(s, pick, Sorted(Names(s)));
    WarningsIn(s, pick, Sorted(Names(s)));
  }

  /** And a listener that is named but not bound, or whose protocol is not known, is
      reported and gets none. */
  lemma ListenerSkipped(s: Settings, pick: Pick, n: string, field: string, protocol: string)
    requires AllPrefixed(s) && IsPick(s, pick) && IsName(n) && KeyFor(n, field) in s && SaysProtocol(s, n, protocol)
    requires (forall v :: !BindsTo(s, n, v)) || forall target :: !Becomes(protocol, target)
    ensures (forall v :: !BindsTo(s, n, v)) ==> NoBind(n) in ListenersOf(s, pick).warnings
    ensures (exists v :: BindsTo(s, n, v)) ==> UnknownProtocol(n, protocol) in ListenersOf(s, pick).warnings
    ensures forall op :: op in ListenersOf(s, pick).ops ==> "listener-" + n !in op.values
  {
    hide BindsTo, SaysProtocol, SaysTls, ProtocolOf, TlsOf, Binds, Names, IsPick, Becomes, Sorted, Consumed, OpsOf,
         WarningsOf, KeyFor;
    forall v
      ensures v in Binds(s, n) <==> BindsTo(s, n, v)
    {
      BindsExactly(s, n, v);
    }
    ProtocolExactly(s, pick, n, protocol);
    forall target
      ensures Becomes(protocol, target) <==>
                (protocol == "" || protocol in PROTOCOLS)
                && target == if protocol in PROTOCOLS then PROTOCOLS[protocol] else "smtp"
    {
      BecomesExactly(protocol, target);
    }
    assert protocol == "" || protocol in PROTOCOLS ==>
        Becomes(protocol, if protocol in PROTOCOLS then PROTOCOLS[protocol] else "smtp");
    KeyNames(s, n, field);
    OpsIn(s, pick, Sorted(Names(s)));
    WarningsIn(s, pick, Sorted(Names(s)));
    forall op | op in ListenersOf(s, pick).ops
      ensures "listener-" + n !in op.values
    {
      var m :| m in Sorted(Names(s)) && Emits(s, pick, m) && op == OperationOf(s, pick, m);
      OperationNames(s, pick, m, n);
    }
  }

  lemma SamePart(start: string, m: string, n: string)
    ensures start + m == start + n <==> m == n
  {
    assert (start + m)[|start|..] == m && (start + n)[|start|..] == n;
  }

  lemma KeyNames(s: Settings, n: string, field: string)
    requires IsName(n) && KeyFor(n, field) in s
    ensures n in Names(s)
  {
    hide Parse, KeyFor;
    KeyParses(n, field);
    assert Parse(KeyFor(n, field)).value.listener == n;
  }

  /** The listener has an object in the plan. */
  ghost predicate IsMadeOf(ops: seq<Operation>, n: string) {
    exists op :: op in ops && "listener-" + n in op.values
  }

  lemma OperationNames(s: Settings, pick: Pick, m: string, n: string)
    ensures "listener-" + n in OperationOf(s, pick, m).values <==> m == n
  {
    assert OperationOf(s, pick, m).values.Keys == {"listener-" + m};
    SamePart("listener-", m, n);
  }

  lemma MadeExactly(s: Settings, pick: Pick, n: string)
    ensures IsMadeOf(ListenersOf(s, pick).ops, n) <==> n in Names(s) && Emits(s, pick, n)
  {
    hide Names, Emits, Sorted, Consumed, WarningsOf, OpsOf, OperationOf;
    OpsIn(s, pick, Sorted(Names(s)));
    OperationNames(s, pick, n, n);
    if IsMadeOf(ListenersOf(s, pick).ops, n) {
      var op :| op in ListenersOf(s, pick).ops && "listener-" + n in op.values;
      var m :| m in Sorted(Names(s)) && Emits(s, pick, m) && op == OperationOf(s, pick, m);
      OperationNames(s, pick, m, n);
    }
  }

  /** A key is covered exactly when its listener has an object and it is an address, the
      protocol or the TLS mode of it; whatever else is said of a listener is left as not
      covered. */
  lemma CoveredExactly(s: Settings, pick: Pick, n: string, field: string)
    requires AllPrefixed(s) && IsPick(s, pick) && IsName(n) && KeyFor(n, field) in s
    ensures KeyFor(n, field) in ListenersOf(s, pick).covered <==>
              && IsMadeOf(ListenersOf(s, pick).ops, n)
              && (|| ((field == "bind" || "bind." <= field) && s[KeyFor(n, field)] != "")
                  || field == "protocol" || field == "tls.implicit")
  {
    hide Parse, KeyFor, Names, Emits, Sorted, WarningsOf, OpsOf, IsMadeOf, IsPick, KindOf;
    KeyParses(n, field);
    KeyNames(s, n, field);
    MadeExactly(s, pick, n);
    BindFields(field);
    OtherFields(field);
  }

  lemma OtherFields(field: string)
    ensures KindOf(field).Protocol? <==> field == "protocol"
    ensures KindOf(field).TlsImplicit? <==> field == "tls.implicit"
  {
    assert "protocol"[0] != "bind"[0] && "protocol"[0] != "bind."[0] && |"protocol"| == 8;
    assert "tls.implicit"[0] != "bind"[0] && "tls.implicit"[0] != "bind."[0] && "tls.implicit"[0] != "protocol"[0];
  }

  /** Objects and warnings come listener by listener. */
  lemma {:induction false} ListenersInTurn(s: Settings, pick: Pick, names: seq<string>, more: seq<string>)
    ensures OpsOf(s, pick, names + more) == OpsOf(s, pick, names) + OpsOf(s, pick, more)
    ensures WarningsOf(s, pick, names + more) == WarningsOf(s, pick, names) + WarningsOf(s, pick, more)
  {
    hide Emits, OperationOf, WarningOf;
    if more == [] {
      assert names + more == names;
    } else {
      assert (names + more)[..|names + more| - 1] == names + more[..|more| - 1];
      ListenersInTurn(s, pick, names, more[..|more| - 1]);
    }
  }
}
