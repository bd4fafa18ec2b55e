/** internal/applyplan/listener.go: v0.15 listener settings to v0.16 NetworkListener
    objects. */
module ListenerGenerator {
  import opened Prelude
  import opened Text
  import opened Order
  import opened PlanBuild

  const PREFIX := "server.listener."
  const PROTOCOL := "protocol"
  const TLS_IMPLICIT := "tls.implicit"

  /** The protocols v0.16 knows, under the names it gives them. */
  const PROTOCOLS: map<string, string> :=
    map["smtp" := "smtp", "lmtp" := "lmtp", "http" := "http", "imap" := "imap", "pop3" := "pop3",
        "managesieve" := "manageSieve"]

  /** A setting of one listener. */
  datatype Setting = Setting(listener: string, field: string)

  predicate AllPrefixed(s: Settings) {
    forall k :: k in s ==> HasPrefix(k, PREFIX)
  }

  /** strings.TrimPrefix and strings.Cut: the listener and field a key names, if it
      names both. A key without the prefix is read as if it had it. */
  function Parse(key: string): (r: Option<Setting>)
    ensures r.Some? && HasPrefix(key, PREFIX) ==> key == PREFIX + r.value.listener + "." + r.value.field
    ensures r.Some? && !HasPrefix(key, PREFIX) ==> key == r.value.listener + "." + r.value.field
  {
    var rest := if HasPrefix(key, PREFIX) then key[|PREFIX|..] else key;
    var dot := DotFrom(rest, 0);
    if dot == |rest| || dot == 0 then None
    else
      assert rest == rest[..dot] + "." + rest[dot + 1..];
      Some(Setting(rest[..dot], rest[dot + 1..]))
  }

  datatype Kind = Bind | Protocol | TlsImplicit | Other

  function KindOf(field: string): Kind {
    if field == "bind" || HasPrefix(field, "bind.") then Bind
    else if field == PROTOCOL then Protocol
    else if field == TLS_IMPLICIT then TlsImplicit
    else Other
  }

  /** The setting is one the generator uses. */
  predicate Uses(field: string, value: string) {
    match KindOf(field)
    case Bind => value != ""
    case Protocol => true
    case TlsImplicit => true
    case Other => false
  }

  predicate IsOf(key: string, n: string) {
    Parse(key).Some? && Parse(key).value.listener == n
  }

  predicate IsBind(key: string, value: string, n: string) {
    IsOf(key, n) && KindOf(Parse(key).value.field).Bind? && value != ""
  }

  // ------------------------------------------------ what the settings say of a listener

  /** For each setting that keys name, the key whose value counts: the last one read.
      Only a key with the prefix and the same key without it name one setting. */
  type Pick = map<Setting, string>

  ghost predicate IsPick(s: Settings, pick: Pick) {
    && (forall k :: k in s && Parse(k).Some? ==> Parse(k).value in pick)
    && (forall st :: st in pick ==> pick[st] in s && Parse(pick[st]) == Some(st))
  }

  function Names(s: Settings): set<string> {
    set k | k in s && Parse(k).Some? :: Parse(k).value.listener
  }

  function Binds(s: Settings, n: string): set<string> {
    set k | k in s && IsBind(k, s[k], n) :: s[k]
  }

  function ProtocolIn(value: string): string {
    ToLower(TrimSpace(value))
  }

  predicate TlsIn(value: string) {
    EqualFold(TrimSpace(value), "true")
  }

  function ValueOf(s: Settings, pick: Pick, n: string, field: string): Option<string> {
    var st := Setting(n, field);
    if st in pick && pick[st] in s then Some(s[pick[st]]) else None
  }

  function ProtocolOf(s: Settings, pick: Pick, n: string): string {
    match ValueOf(s, pick, n, PROTOCOL)
    case Some(v) => ProtocolIn(v)
    case None => ""
  }

  function TlsOf(s: Settings, pick: Pick, n: string): Option<bool> {
    match ValueOf(s, pick, n, TLS_IMPLICIT)
    case Some(v) => Some(TlsIn(v))
    case None => None
  }

  /** The keys a listener's object is made from. */
  function KeysOf(s: Settings, n: string): set<string> {
    set k | k in s && IsOf(k, n) && Uses(Parse(k).value.field, s[k])
  }

  predicate Emits(s: Settings, pick: Pick, n: string) {
    Binds(s, n) != {} && (ProtocolOf(s, pick, n) == "" || ProtocolOf(s, pick, n) in PROTOCOLS)
  }

  function OperationOf(s: Settings, pick: Pick, n: string): Operation {
    var protocol := ProtocolOf(s, pick, n);
    var target := if protocol in PROTOCOLS then PROTOCOLS[protocol] else "smtp";
    Operation("NetworkListener", ["name"], map["listener-" + n := Listener(n, Binds(s, n), target, TlsOf(s, pick, n))])
  }

  function WarningOf(s: Settings, pick: Pick, n: string): seq<Warning> {
    var protocol := ProtocolOf(s, pick, n);
    if Binds(s, n) == {} then [NoBind(n)]
    else if protocol == "" then [NoProtocol(n)]
    else if protocol !in PROTOCOLS then [UnknownProtocol(n, protocol)]
    else []
  }

  function OpsOf(s: Settings, pick: Pick, names: seq<string>): seq<Operation> {
    if names == [] then []
    else
      var n := names[|names| - 1];
      OpsOf(s, pick, names[..|names| - 1]) + if Emits(s, pick, n) then [OperationOf(s, pick, n)] else []
  }

  function WarningsOf(s: Settings, pick: Pick, names: seq<string>): seq<Warning> {
    if names == [] then [] else WarningsOf(s, pick, names[..|names| - 1]) + WarningOf(s, pick, names[|names| - 1])
  }

  /** The keys consumed by the listeners that are emitted. */
  function Consumed(s: Settings, pick: Pick): set<string> {
    set k | k in s && Parse(k).Some? && Uses(Parse(k).value.field, s[k]) && Emits(s, pick, Parse(k).value.listener)
  }

  /** Everything generated is a function of the settings and of which keys count. */
  ghost function ListenersOf(s: Settings, pick: Pick): Generated {
    var names := Sorted(Names(s));
    Generated(OpsOf(s, pick, names), Sorted(Consumed(s, pick)), WarningsOf(s, pick, names))
  }

  // ------------------------------------------------------------------- collecting

  datatype Draft = Draft(binds: seq<string>, protocol: string, tls: Option<bool>, keys: seq<string>)

  const BLANK := Draft([], "", None, [])

  function Absorb(d: Draft, field: string, key: string, value: string): Draft {
    match KindOf(field)
    case Bind => if value != "" then d.(binds := d.binds + [value], keys := d.keys + [key]) else d
    case Protocol => d.(protocol := ProtocolIn(value), keys := d.keys + [key])
    case TlsImplicit => d.(tls := Some(TlsIn(value)), keys := d.keys + [key])
    case Other => d
  }

  ghost predicate IsDraft(s: Settings, pick: Pick, n: string, d: Draft) {
    && (forall v :: v in d.binds <==> v in Binds(s, n))
    && d.protocol == ProtocolOf(s, pick, n) && d.tls == TlsOf(s, pick, n)
    && (forall k :: k in d.keys <==> k in KeysOf(s, n))
    && (forall i, j :: 0 <= i < j < |d.keys| ==> d.keys[i] != d.keys[j])
  }

  lemma BlankDraft(s: Settings, pick: Pick, n: string)
    requires IsPick(s, pick) && n !in Names(s)
    ensures IsDraft(s, pick, n, BLANK)
  {
    hide ProtocolIn, TlsIn, Parse;
  }

  /** Every such key parses to its parts, with the prefix and without. */
  lemma ParseOfKey(n: string, field: string)
    requires n != "" && '.' !in n
    ensures Parse(PREFIX + n + "." + field) == Some(Setting(n, field))
    ensures !HasPrefix(n + "." + field, PREFIX) ==> Parse(n + "." + field) == Some(Setting(n, field))
  {
    hide DotFrom;
    var rest := n + "." + field;
    assert (PREFIX + n + "." + field)[|PREFIX|..] == rest;
    var dot := DotFrom(rest, 0);
    assert forall i :: 0 <= i < |n| ==> rest[i] == n[i] && n[i] in n;
    assert rest[|n|] == '.';
    assert rest[..dot] == n && rest[dot + 1..] == field;
  }

  /** Reading a key makes it the one that counts for its setting. */
  function Picked(pick: Pick, key: string): Pick {
    match Parse(key)
    case Some(st) => pick[st := key]
    case None => pick
  }

  lemma PickNext(s: Settings, pick: Pick, key: string, value: string)
    requires IsPick(s, pick)
    ensures IsPick(s[key := value], Picked(pick, key))
  {
    hide Parse;
  }

  /** A setting of another listener changes nothing. */
  lemma OthersKeepDraft(s: Settings, pick: Pick, key: string, value: string, n: string, d: Draft)
    requires IsPick(s, pick) && key !in s && !IsOf(key, n) && IsDraft(s, pick, n, d)
    ensures IsDraft(s[key := value], Picked(pick, key), n, d)
  {
    hide ProtocolIn, TlsIn, Parse;
    var t := s[key := value];
    BindsNext(s, key, value, n);
    assert KeysOf(t, n) == KeysOf(s, n);
    assert forall field :: ValueOf(t, Picked(pick, key), n, field) == ValueOf(s, pick, n, field);
  }

  /** A setting of this listener is absorbed. */
  lemma AbsorbKeepsDraft(s: Settings, pick: Pick, key: string, value: string, n: string, d: Draft)
    requires IsPick(s, pick) && key !in s && IsOf(key, n) && IsDraft(s, pick, n, d)
    ensures IsDraft(s[key := value], Picked(pick, key), n, Absorb(d, Parse(key).value.field, key, value))
  {
    hide ProtocolIn, TlsIn, Parse, KindOf, ValueOf, IsPick;
    AbsorbKeepsBinds(s, pick, key, value, n, d);
    AbsorbKeepsValues(s, pick, key, value, n, d);
    AbsorbKeepsKeys(s, pick, key, value, n, d);
  }

  lemma AbsorbKeepsBinds(s: Settings, pick: Pick, key: string, value: string, n: string, d: Draft)
    requires key !in s && IsOf(key, n) && IsDraft(s, pick, n, d)
    ensures forall v :: v in Absorb(d, Parse(key).value.field, key, value).binds <==> v in Binds(s[key := value], n)
  {
    hide ProtocolIn, TlsIn, Parse, KindOf, ValueOf;
    BindsNext(s, key, value, n);
  }

  lemma BindsNext(s: Settings, key: string, value: string, n: string)
    requires key !in s
    ensures Binds(s[key := value], n) == Binds(s, n) + if IsBind(key, value, n) then {value} else {}
  {
    hide Parse, KindOf;
    var t := s[key := value];
    forall v
      ensures v in Binds(t, n) <==> v in Binds(s, n) || (IsBind(key, value, n) && v == value)
    {
      if v in Binds(s, n) {
        var k :| k in s && IsBind(k, s[k], n) && s[k] == v;
        assert k in t && t[k] == v;
      }
      if v in Binds(t, n) {
        var k :| k in t && IsBind(k, t[k], n) && t[k] == v;
        assert k == key || (k in s && s[k] == v);
      }
      if IsBind(key, value, n) && v == value {
        assert key in t && t[key] == v;
      }
    }
  }

  lemma AbsorbKeepsValues(s: Settings, pick: Pick, key: string, value: string, n: string, d: Draft)
    requires IsPick(s, pick) && key !in s && IsOf(key, n) && IsDraft(s, pick, n, d)
    ensures var t, pick', e := s[key := value], Picked(pick, key), Absorb(d, Parse(key).value.field, key, value);
            e.protocol == ProtocolOf(t, pick', n) && e.tls == TlsOf(t, pick', n)
  {
    hide ProtocolIn, TlsIn, Parse, Binds, KeysOf;
    var field := Parse(key).value.field;
    FieldsDiffer();
    assert forall f :: f != field ==> ValueOf(s[key := value], Picked(pick, key), n, f) == ValueOf(s, pick, n, f);
  }

  lemma FieldsDiffer()
    ensures KindOf(PROTOCOL).Protocol? && KindOf(TLS_IMPLICIT).TlsImplicit?
  {
    assert PROTOCOL[0] != "bind"[0] && PROTOCOL[0] != "bind."[0] && |PROTOCOL| == 8;
    assert TLS_IMPLICIT[0] != "bind"[0] && TLS_IMPLICIT[0] != "bind."[0] && TLS_IMPLICIT[0] != PROTOCOL[0];
  }

  lemma AbsorbKeepsKeys(s: Settings, pick: Pick, key: string, value: string, n: string, d: Draft)
    requires key !in s && IsOf(key, n) && IsDraft(s, pick, n, d)
    ensures var e := Absorb(d, Parse(key).value.field, key, value);
            && (forall k :: k in e.keys <==> k in KeysOf(s[key := value], n))
            && (forall i, j :: 0 <= i < j < |e.keys| ==> e.keys[i] != e.keys[j])
  {
    hide ProtocolIn, TlsIn, Parse, KindOf, ValueOf;
    assert forall i :: 0 <= i < |d.keys| ==> d.keys[i] in d.keys;
    assert KeysOf(s[key := value], n) == KeysOf(s, n) + if Uses(Parse(key).value.field, value) then {key} else {};
  }

  ghost predicate AreDrafts(s: Settings, pick: Pick, drafts: map<string, Draft>) {
    drafts.Keys == Names(s) && forall n :: n in drafts ==> IsDraft(s, pick, n, drafts[n])
  }

  function Restrict(s: Settings, keys: set<string>): Settings {
    map k | k in s && k in keys :: s[k]
  }

  lemma CollectOne(s: Settings, pick: Pick, key: string, value: string, drafts: map<string, Draft>)
    requires IsPick(s, pick) && key !in s && AreDrafts(s, pick, drafts)
    ensures Parse(key).None? ==> AreDrafts(s[key := value], Picked(pick, key), drafts)
    ensures Parse(key).Some? ==>
              var p := Parse(key).value;
              var d := if p.listener in drafts then drafts[p.listener] else BLANK;
              AreDrafts(s[key := value], Picked(pick, key), drafts[p.listener := Absorb(d, p.field, key, value)])
  {
    hide IsDraft, Absorb, Parse, IsPick, Picked;
    var t := s[key := value];
    forall m | m in drafts && !IsOf(key, m)
      ensures IsDraft(t, Picked(pick, key), m, drafts[m])
    {
      OthersKeepDraft(s, pick, key, value, m, drafts[m]);
    }
    if Parse(key).Some? {
      var p := Parse(key).value;
      assert Names(t) == Names(s) + {p.listener};
      if p.listener !in drafts {
        BlankDraft(s, pick, p.listener);
        AbsorbKeepsDraft(s, pick, key, value, p.listener, BLANK);
      } else {
        AbsorbKeepsDraft(s, pick, key, value, p.listener, drafts[p.listener]);
      }
    } else {
      assert Names(t) == Names(s);
    }
  }

  /** The first loop of Generate, over the settings in any order. */
  method CollectDrafts(s: Settings) returns (drafts: map<string, Draft>, ghost pick: Pick)
    ensures IsPick(s, pick) && AreDrafts(s, pick, drafts)
  {
    hide AreDrafts, Parse, KindOf, IsPick, Picked;
    drafts, pick := map[], map[];
    var rest := s.Keys;
    assert Restrict(s, s.Keys - rest) == map[];
    NoDrafts();
    while rest != {}
      invariant rest <= s.Keys
      invariant IsPick(Restrict(s, s.Keys - rest), pick) && AreDrafts(Restrict(s, s.Keys - rest), pick, drafts)
      decreases rest
    {
      var key :| key in rest;
      var value := s[key];
      ghost var before := Restrict(s, s.Keys - rest);
      rest := rest - {key};
      assert Restrict(s, s.Keys - rest) == before[key := value];
      CollectOne(before, pick, key, value, drafts);
      PickNext(before, pick, key, value);
      pick := Picked(pick, key);
      var parsed := Parse(key);
      if parsed.Some? {
        var d := if parsed.value.listener in drafts then drafts[parsed.value.listener] else BLANK;
        drafts := drafts[parsed.value.listener := Absorb(d, parsed.value.field, key, value)];
      }
    }
    assert Restrict(s, s.Keys - rest) == s;
  }

  lemma NoDrafts()
    ensures IsPick(map[], map[]) && AreDrafts(map[], map[], map[])
  {
  }

  // ---------------------------------------------------------------------- emitting

  /** The value-keyed set v0.16 wants. */
  method BindSet(binds: seq<string>) returns (bind: set<string>)
    ensures bind == set v | v in binds
  {
    bind := {};
    for i := 0 to |binds|
      invariant bind == set v | v in binds[..i]
    {
      assert binds[..i + 1] == binds[..i] + [binds[i]];
      bind := bind + {binds[i]};
    }
    assert binds[..|binds|] == binds;
  }

  /** One turn of the second loop: an object, a reason for none, or a caution. */
  method EmitOne(ghost s: Settings, ghost pick: Pick, n: string, d: Draft) returns (op: Option<Operation>,
        warnings: seq<Warning>)
    requires IsDraft(s, pick, n, d)
    ensures op == if Emits(s, pick, n) then Some(OperationOf(s, pick, n)) else None
    ensures warnings == WarningOf(s, pick, n)
  {
    hide ProtocolOf, TlsOf, KeysOf, Parse;
    if d.binds == [] {
      return None, [NoBind(n)];
    }
    assert d.binds[0] in d.binds;
    warnings := [];
    var target := "smtp";
    if d.protocol in PROTOCOLS {
      target := PROTOCOLS[d.protocol];
    }
    if d.protocol == "" {
      target, warnings := "smtp", [NoProtocol(n)];
    } else if d.protocol !in PROTOCOLS {
      return None, [UnknownProtocol(n, d.protocol)];
    }
    var bind := BindSet(d.binds);
    assert bind == Binds(s, n);
    NoEmptyProtocol();
    op := Some(Operation("NetworkListener", ["name"], map["listener-" + n := Listener(n, bind, target, d.tls)]));
  }

  lemma NoEmptyProtocol()
    ensures "" !in PROTOCOLS
  {
  }

  /** The keys taken from the first listeners, each once. */
  ghost predicate IsCovered(s: Settings, pick: Pick, names: seq<string>, covered: seq<string>) {
    && (forall k :: k in covered <==> k in Consumed(s, pick) && Parse(k).value.listener in names)
    && (forall i, j :: 0 <= i < j < |covered| ==> covered[i] != covered[j])
  }

  lemma CoverOne(s: Settings, pick: Pick, names: seq<string>, covered: seq<string>, n: string, d: Draft)
    requires IsCovered(s, pick, names, covered) && n !in names && IsDraft(s, pick, n, d)
    ensures IsCovered(s, pick, names + [n], covered + if Emits(s, pick, n) then d.keys else [])
  {
    hide Parse, Emits, Uses, Binds, ProtocolOf, TlsOf;
    assert forall i :: 0 <= i < |d.keys| ==> d.keys[i] in d.keys;
    assert forall i :: 0 <= i < |covered| ==> covered[i] in covered;
    assert forall m :: m in names + [n] <==> m in names || m == n;
  }

  /** Generate. The ghost result says which key counts where two name one setting. */
  method Generate(s: Settings) returns (g: Generated, ghost pick: Pick)
    ensures IsPick(s, pick) && g == ListenersOf(s, pick)
  {
    hide IsDraft, IsPick, Emits, OperationOf, WarningOf, Sorted, Less, Ascending, IsCovered, Names, Consumed;
    var drafts;
    drafts, pick := CollectDrafts(s);
    var names := SortKeys(drafts.Keys);
    SortedIn(drafts.Keys);
    var ops, covered, warnings := [], [], [];
    NothingCovered(s, pick);
    for i := 0 to |names|
      invariant ops == OpsOf(s, pick, names[..i]) && warnings == WarningsOf(s, pick, names[..i])
      invariant IsCovered(s, pick, names[..i], covered)
    {
      var n := names[i];
      AscendingIsFresh(names, i);
      var op, cautions := EmitOne(s, pick, n, drafts[n]);
      CoverOne(s, pick, names[..i], covered, n, drafts[n]);
      warnings := warnings + cautions;
      if op.Some? {
        ops := ops + [op.value];
        covered := covered + drafts[n].keys;
      } else {
        assert covered + [] == covered;
      }
    }
    assert names[..|names|] == names;
    AllCovered(s, pick, names, covered);
    covered := SortStrings(covered);
    g := Generated(ops, covered, warnings);
  }

  lemma NothingCovered(s: Settings, pick: Pick)
    ensures IsCovered(s, pick, [], [])
  {
  }

  lemma AllCovered(s: Settings, pick: Pick, names: seq<string>, covered: seq<string>)
    requires IsCovered(s, pick, names, covered) && forall n :: n in names <==> n in Names(s)
    ensures forall i, j :: 0 <= i < j < |covered| ==> covered[i] != covered[j]
    ensures (set k | k in covered) == Consumed(s, pick)
  {
    hide Parse, Emits, Uses;
    assert forall k :: k in Consumed(s, pick) ==> Parse(k).value.listener in Names(s);
  }

  // -------------------------------------------------------------------- properties

  /** A key is covered exactly when an emitted listener is made from it. */
  lemma CoveredIsConsumed(s: Settings, pick: Pick, k: string)
    requires k in s
    ensures k in ListenersOf(s, pick).covered <==>
            exists n :: n in Names(s) && Emits(s, pick, n) && k in KeysOf(s, n)
  {
    hide Parse, Emits, Uses;
    if k in Consumed(s, pick) {
      assert Parse(k).value.listener in Names(s) && k in KeysOf(s, Parse(k).value.listener);
    }
  }

  lemma {:induction false} OpsIn(s: Settings, pick: Pick, names: seq<string>)
    ensures forall op :: op in OpsOf(s, pick, names)
                         <==> exists n :: n in names && Emits(s, pick, n) && op == OperationOf(s, pick, n)
  {
    hide Emits, OperationOf;
    if names != [] {
      var before, last := names[..|names| - 1], names[|names| - 1];
      OpsIn(s, pick, before);
      assert forall n :: n in names <==> n in before || n == last;
    }
  }

  lemma {:induction false} WarningsIn(s: Settings, pick: Pick, names: seq<string>)
    ensures forall w :: w in WarningsOf(s, pick, names) <==> exists n :: n in names && w in WarningOf(s, pick, n)
  {
    hide WarningOf;
    if names != [] {
      var before, last := names[..|names| - 1], names[|names| - 1];
      WarningsIn(s, pick, before);
      assert forall n :: n in names <==> n in before || n == last;
    }
  }

  ghost predicate IsBoundBy(op: Operation, v: string) {
    exists id :: id in op.values && op.values[id].Listener? && v in op.values[id].bind
  }

  lemma OperationBinds(s: Settings, pick: Pick, n: string, v: string)
    ensures IsBoundBy(OperationOf(s, pick, n), v) <==> v in Binds(s, n)
  {
    hide Binds, ProtocolOf, TlsOf;
    if v in Binds(s, n) {
      assert v in OperationOf(s, pick, n).values["listener-" + n].bind;
    }
  }

  /** Every address a covered key gives is bound by the object of its listener, and
      the objects bind no other address. */
  lemma BindsAreServed(s: Settings, pick: Pick, v: string)
    ensures (exists op :: op in ListenersOf(s, pick).ops && IsBoundBy(op, v))
            <==> exists k :: k in ListenersOf(s, pick).covered && s[k] == v && IsBind(k, v, Parse(k).value.listener)
  {
    hide Parse, Sorted, OperationOf, IsBoundBy, Emits, KindOf;
    OpsIn(s, pick, Sorted(Names(s)));
    if op :| op in ListenersOf(s, pick).ops && IsBoundBy(op, v) {
      var n :| n in Names(s) && Emits(s, pick, n) && op == OperationOf(s, pick, n);
      OperationBinds(s, pick, n, v);
      var k :| k in s && IsBind(k, s[k], n) && s[k] == v;
      assert k in Consumed(s, pick);
    }
    if k :| k in ListenersOf(s, pick).covered && s[k] == v && IsBind(k, v, Parse(k).value.listener) {
      var n := Parse(k).value.listener;
      OperationBinds(s, pick, n, v);
      assert n in Names(s) && OperationOf(s, pick, n) in ListenersOf(s, pick).ops;
    }
  }

  /** A listener named in the settings is either emitted or reported as skipped. */
  lemma NoSilentSkip(s: Settings, pick: Pick, n: string)
    requires n in Names(s)
    ensures Emits(s, pick, n) <==> OperationOf(s, pick, n) in ListenersOf(s, pick).ops
    ensures !Emits(s, pick, n) <==> (|| NoBind(n) in ListenersOf(s, pick).warnings
                                     || UnknownProtocol(n, ProtocolOf(s, pick, n)) in ListenersOf(s, pick).warnings)
  {
    hide Parse, Names, Consumed, Sorted, OperationOf, Emits, WarningOf;
    var names := Sorted(Names(s));
    OpsIn(s, pick, names);
    WarningsIn(s, pick, names);
    if OperationOf(s, pick, n) in ListenersOf(s, pick).ops {
      var m :| m in Names(s) && Emits(s, pick, m) && OperationOf(s, pick, n) == OperationOf(s, pick, m);
      SameOperation(s, pick, pick, m, n);
    }
    WarningsName(s, pick, n, n);
    forall w | w in ListenersOf(s, pick).warnings
      ensures w.listener == n ==> w in WarningOf(s, pick, n)
    {
      var m :| m in names && w in WarningOf(s, pick, m);
      WarningsName(s, pick, m, n);
    }
  }

  lemma WarningsName(s: Settings, pick: Pick, m: string, n: string)
    ensures forall w :: w in WarningOf(s, pick, m) ==> w.listener == m
    ensures !Emits(s, pick, n) <==>
              NoBind(n) in WarningOf(s, pick, n) || UnknownProtocol(n, ProtocolOf(s, pick, n)) in WarningOf(s, pick, n)
  {
    hide Binds, ProtocolOf;
    NoEmptyProtocol();
  }

  lemma SameOperation(s: Settings, p: Pick, q: Pick, m: string, n: string)
    requires OperationOf(s, p, m) == OperationOf(s, q, n)
    ensures m == n
  {
    var a, b := OperationOf(s, p, m).values, OperationOf(s, q, n).values;
    assert "listener-" + m in a.Keys;
    assert a["listener-" + m].name == m;
    assert b.Keys == {"listener-" + n};
    assert b["listener-" + n].name == n;
  }

  /** As a plan generator it claims only keys it was given. */
  lemma ListenerGeneratorIsHonest(g: Generator)
    requires forall s, out :: g.generate(s) == Success(out) ==>
               exists pick :: IsPick(s, pick) && out == ListenersOf(s, pick)
    ensures Honest(g)
  {
    hide Parse, Emits, Uses, IsPick;
    forall s, out | g.generate(s) == Success(out)
      ensures forall k :: k in out.covered ==> k in s
    {
      var pick :| IsPick(s, pick) && out == ListenersOf(s, pick);
    }
  }
}
