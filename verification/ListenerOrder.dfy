/** When what the listener generator produces depends on the order in which a map
    yields the settings. */
module ListenerOrder {
  import opened Prelude
  import opened Text
  import opened Order
  import opened PlanBuild
  import opened ListenerGenerator

  predicate NamesSetting(k: string, n: string, field: string) {
    Parse(k) == Some(Setting(n, field))
  }

  /** All keys that name the listener's protocol give one. */
  predicate OneProtocol(s: Settings, n: string) {
    forall k, l :: k in s && l in s && NamesSetting(k, n, PROTOCOL) && NamesSetting(l, n, PROTOCOL) ==>
                     ProtocolIn(s[k]) == ProtocolIn(s[l])
  }

  predicate OneTls(s: Settings, n: string) {
    forall k, l :: k in s && l in s && NamesSetting(k, n, TLS_IMPLICIT) && NamesSetting(l, n, TLS_IMPLICIT) ==>
                     TlsIn(s[k]) == TlsIn(s[l])
  }

  /** Every key that names the listener's protocol gives none, or one v0.16 knows. */
  predicate Usable(s: Settings, n: string) {
    forall k :: k in s && NamesSetting(k, n, PROTOCOL) ==> ProtocolIn(s[k]) == "" || ProtocolIn(s[k]) in PROTOCOLS
  }

  /** A listener with an address has one protocol, and if that can be used one TLS mode. */
  predicate Determined(s: Settings, n: string) {
    Binds(s, n) != {} ==> OneProtocol(s, n) && (Usable(s, n) ==> OneTls(s, n))
  }

  // -------------------------------------------------------------------- sufficient

  lemma SameKeys(s: Settings, p: Pick, q: Pick, st: Setting)
    requires IsPick(s, p) && IsPick(s, q)
    ensures st in p <==> st in q
    ensures st in p ==> p[st] in s && q[st] in s && Parse(p[st]) == Parse(q[st]) == Some(st)
  {
    hide Parse;
  }

  /** The turn of the second loop for a listener is the same whichever keys count. */
  lemma SameTurn(s: Settings, p: Pick, q: Pick, n: string)
    requires IsPick(s, p) && IsPick(s, q) && Determined(s, n)
    ensures Emits(s, p, n) == Emits(s, q, n) && WarningOf(s, p, n) == WarningOf(s, q, n)
    ensures Emits(s, p, n) ==> OperationOf(s, p, n) == OperationOf(s, q, n)
  {
    hide Parse, ProtocolIn, TlsIn, Binds, IsPick;
    SameKeys(s, p, q, Setting(n, PROTOCOL));
    SameKeys(s, p, q, Setting(n, TLS_IMPLICIT));
    NoEmptyProtocol();
    if Emits(s, p, n) {
      SameProtocol(s, p, n);
    }
  }

  /** Where there is one protocol, the one that counts says whether all can be used. */
  lemma SameProtocol(s: Settings, p: Pick, n: string)
    requires IsPick(s, p) && OneProtocol(s, n) && (ProtocolOf(s, p, n) == "" || ProtocolOf(s, p, n) in PROTOCOLS)
    ensures Usable(s, n)
  {
    hide Parse, ProtocolIn;
    forall k | k in s && NamesSetting(k, n, PROTOCOL)
      ensures ProtocolIn(s[k]) == ProtocolOf(s, p, n)
    {
      assert Setting(n, PROTOCOL) in p;
    }
  }

  lemma {:induction false} SameTurns(s: Settings, p: Pick, q: Pick, names: seq<string>)
    requires IsPick(s, p) && IsPick(s, q) && forall n :: n in names ==> Determined(s, n)
    ensures OpsOf(s, p, names) == OpsOf(s, q, names) && WarningsOf(s, p, names) == WarningsOf(s, q, names)
  {
    hide IsPick, Determined, Emits, OperationOf, WarningOf;
    if names != [] {
      var last := names[|names| - 1];
      SameTurns(s, p, q, names[..|names| - 1]);
      SameTurn(s, p, q, last);
    }
  }

  lemma SameListeners(s: Settings, p: Pick, q: Pick)
    requires IsPick(s, p) && IsPick(s, q) && forall n :: n in Names(s) ==> Determined(s, n)
    ensures ListenersOf(s, p) == ListenersOf(s, q)
  {
    hide Parse, IsPick, Determined, Emits, Uses, OpsOf, WarningsOf;
    SameTurns(s, p, q, Sorted(Names(s)));
    forall k | k in s && Parse(k).Some?
      ensures Emits(s, p, Parse(k).value.listener) == Emits(s, q, Parse(k).value.listener)
    {
      assert Parse(k).value.listener in Names(s);
      SameTurn(s, p, q, Parse(k).value.listener);
    }
    assert Consumed(s, p) == Consumed(s, q);
  }

  // --------------------------------------------------------------------- necessary

  /** Equal results come from equal turns. */
  lemma TurnsShow(s: Settings, p: Pick, q: Pick, n: string)
    requires ListenersOf(s, p) == ListenersOf(s, q) && n in Names(s)
    ensures Emits(s, p, n) ==> Emits(s, q, n) && OperationOf(s, p, n) == OperationOf(s, q, n)
    ensures forall w :: w in WarningOf(s, p, n) ==> w in WarningOf(s, q, n)
  {
    hide Emits, OperationOf, WarningOf, Names, Consumed, Sorted, OpsOf, WarningsOf;
    var names := Sorted(Names(s));
    OpsIn(s, p, names);
    OpsIn(s, q, names);
    if Emits(s, p, n) {
      assert OperationOf(s, p, n) in OpsOf(s, q, names);
      var m :| m in names && Emits(s, q, m) && OperationOf(s, p, n) == OperationOf(s, q, m);
      SameOperation(s, p, q, n, m);
    }
    WarningsIn(s, p, names);
    WarningsIn(s, q, names);
    forall w | w in WarningOf(s, p, n)
      ensures w in WarningOf(s, q, n)
    {
      assert w in WarningsOf(s, q, names);
      var m :| m in names && w in WarningOf(s, q, m);
      WarningsName(s, p, n, n);
      WarningsName(s, q, m, m);
    }
  }

  /** No two protocols v0.16 knows have one name there. */
  lemma TargetsDiffer(a: string, b: string)
    requires a in PROTOCOLS && b in PROTOCOLS && PROTOCOLS[a] == PROTOCOLS[b]
    ensures a == b
  {
    assert "managesieve"[6] != "manageSieve"[6];
  }

  /** Equal results for a listener with an address show one protocol. */
  lemma ProtocolShows(s: Settings, p: Pick, q: Pick, n: string)
    requires ListenersOf(s, p) == ListenersOf(s, q) && Binds(s, n) != {} && n in Names(s)
    ensures ProtocolOf(s, p, n) == ProtocolOf(s, q, n)
    ensures Emits(s, p, n) ==> TlsOf(s, p, n) == TlsOf(s, q, n)
  {
    hide Binds, Names, ProtocolOf, TlsOf, ListenersOf;
    TurnsShow(s, p, q, n);
    TurnsShow(s, q, p, n);
    NoEmptyProtocol();
    var a, b := ProtocolOf(s, p, n), ProtocolOf(s, q, n);
    if Emits(s, p, n) {
      var key := "listener-" + n;
      assert OperationOf(s, p, n).values[key] == OperationOf(s, q, n).values[key];
      if a == "" || b == "" {
        assert a == "" ==> NoProtocol(n) in WarningOf(s, p, n);
        assert b == "" ==> NoProtocol(n) in WarningOf(s, q, n);
      } else {
        TargetsDiffer(a, b);
      }
    } else {
      assert UnknownProtocol(n, a) in WarningOf(s, p, n);
    }
  }

  lemma ListenerIsNamed(s: Settings, n: string)
    requires Binds(s, n) != {}
    ensures n in Names(s)
  {
    hide Parse, KindOf;
    var v :| v in Binds(s, n);
    var k :| k in s && IsBind(k, s[k], n) && s[k] == v;
  }

  /** Some choice of keys that count has a given key among them. */
  lemma PickKey(s: Settings, base: Pick, k: string)
    requires IsPick(s, base) && k in s && Parse(k).Some?
    ensures IsPick(s, base[Parse(k).value := k])
  {
    hide Parse;
  }

  lemma {:induction false} SomePick(s: Settings) returns (pick: Pick)
    ensures IsPick(s, pick)
    decreases |s|
  {
    hide Parse;
    if s == map[] {
      pick := map[];
    } else {
      var k :| k in s;
      var rest := s - {k};
      assert rest.Keys == s.Keys - {k};
      pick := SomePick(rest);
      PickNext(rest, pick, k, s[k]);
      assert rest[k := s[k]] == s;
      pick := Picked(pick, k);
    }
  }

  ghost predicate OneResult(s: Settings) {
    forall p, q :: IsPick(s, p) && IsPick(s, q) ==> ListenersOf(s, p) == ListenersOf(s, q)
  }

  lemma ResultShowsProtocol(s: Settings, n: string, k: string, l: string)
    requires OneResult(s) && Binds(s, n) != {} && k in s && l in s
    requires NamesSetting(k, n, PROTOCOL) && NamesSetting(l, n, PROTOCOL)
    ensures ProtocolIn(s[k]) == ProtocolIn(s[l])
  {
    hide Parse, Binds, Names, ListenersOf, ProtocolIn, IsPick;
    ListenerIsNamed(s, n);
    var base := SomePick(s);
    PickKey(s, base, k);
    PickKey(s, base, l);
    var p, q := base[Setting(n, PROTOCOL) := k], base[Setting(n, PROTOCOL) := l];
    ProtocolShows(s, p, q, n);
  }

  lemma ResultShowsTls(s: Settings, n: string, k: string, l: string)
    requires OneResult(s) && Binds(s, n) != {} && Usable(s, n) && k in s && l in s
    requires NamesSetting(k, n, TLS_IMPLICIT) && NamesSetting(l, n, TLS_IMPLICIT)
    ensures TlsIn(s[k]) == TlsIn(s[l])
  {
    hide Parse, Binds, Names, ListenersOf, ProtocolIn, TlsIn;
    ListenerIsNamed(s, n);
    var base := SomePick(s);
    PickKey(s, base, k);
    PickKey(s, base, l);
    var p, q := base[Setting(n, TLS_IMPLICIT) := k], base[Setting(n, TLS_IMPLICIT) := l];
    ProtocolShows(s, p, q, n);
  }

  /** Whatever order the settings are read in the result is one, exactly when every
      listener with an address has one protocol and, if that can be used, one TLS mode. */
  lemma OrderIsIrrelevantExactly(s: Settings)
    ensures OneResult(s) <==> forall n :: Determined(s, n)
  {
    hide Parse, Binds, ListenersOf, ProtocolIn, TlsIn, IsPick, Usable, Names;
    if OneResult(s) {
      forall n, k, l | Binds(s, n) != {} && k in s && l in s
                       && NamesSetting(k, n, PROTOCOL) && NamesSetting(l, n, PROTOCOL)
        ensures ProtocolIn(s[k]) == ProtocolIn(s[l])
      {
        ResultShowsProtocol(s, n, k, l);
      }
      forall n, k, l | Binds(s, n) != {} && Usable(s, n) && k in s && l in s
                       && NamesSetting(k, n, TLS_IMPLICIT) && NamesSetting(l, n, TLS_IMPLICIT)
        ensures TlsIn(s[k]) == TlsIn(s[l])
      {
        ResultShowsTls(s, n, k, l);
      }
    }
    if forall n :: Determined(s, n) {
      forall p, q | IsPick(s, p) && IsPick(s, q)
        ensures ListenersOf(s, p) == ListenersOf(s, q)
      {
        SameListeners(s, p, q);
      }
    }
  }

  lemma PrefixedNameOne(k: string, l: string, n: string, field: string)
    requires HasPrefix(k, PREFIX) && HasPrefix(l, PREFIX) && NamesSetting(k, n, field) && NamesSetting(l, n, field)
    ensures k == l
  {
  }

  /** On keys under its prefix Generate has one result, whatever order it reads them in. */
  lemma GenerateIsAFunction(s: Settings)
    requires AllPrefixed(s)
    ensures OneResult(s)
  {
    hide NamesSetting, HasPrefix, Usable, Binds, ProtocolIn, TlsIn, OneResult;
    forall k, l, n, field | k in s && l in s && NamesSetting(k, n, field) && NamesSetting(l, n, field)
      ensures k == l
    {
      PrefixedNameOne(k, l, n, field);
    }
    OrderIsIrrelevantExactly(s);
  }

  // ------------------------------------------------------------- orders of reading

  /** The keys that count once these have been read one after another. */
  function ReadIn(order: seq<string>): Pick {
    if order == [] then map[] else Picked(ReadIn(order[..|order| - 1]), order[|order| - 1])
  }

  lemma {:induction false} LastRead(order: seq<string>, st: Setting, i: nat)
    requires i < |order| && Parse(order[i]) == Some(st)
    requires forall j :: i < j < |order| ==> Parse(order[j]) != Some(st)
    ensures st in ReadIn(order) && ReadIn(order)[st] == order[i]
  {
    hide Parse;
    if i < |order| - 1 {
      LastRead(order[..|order| - 1], st, i);
    }
  }

  lemma {:induction false} ReadFrom(order: seq<string>, st: Setting)
    requires st in ReadIn(order)
    ensures exists k :: k in order && Parse(k) == Some(st)
  {
    hide Parse;
    if Parse(order[|order| - 1]) != Some(st) {
      ReadFrom(order[..|order| - 1], st);
    }
  }

  ghost predicate Lists(order: seq<string>, keys: set<string>) {
    && (forall k :: k in order <==> k in keys)
    && (forall i, j :: 0 <= i < j < |order| ==> order[i] != order[j])
  }

  lemma ListTwo(a: set<string>, b: set<string>)
    requires a !! b
    ensures Lists(Sorted(b), b) && Lists(Sorted(a) + Sorted(b), a + b)
  {
    hide Less;
    forall x, y | Less(x, y)
      ensures x != y
    {
      LessIsStrict(x, y);
    }
    SortedIn(a);
    SortedIn(b);
  }

  /** With the keys that are to count read last, each is the last of its setting. */
  lemma ReadLast(s: Settings, pick: Pick, first: seq<string>, last: seq<string>, st: Setting)
    requires IsPick(s, pick) && st in pick && Lists(last, pick.Values)
    ensures st in ReadIn(first + last) && ReadIn(first + last)[st] == pick[st]
  {
    hide Parse, ReadIn;
    assert pick[st] in last;
    var i :| 0 <= i < |last| && last[i] == pick[st];
    forall j | |first| + i < j < |first + last|
      ensures Parse((first + last)[j]) != Some(st)
    {
      assert last[j - |first|] in last;
    }
    LastRead(first + last, st, |first| + i);
  }

  /** Every choice of keys that count comes of some order of reading the settings. */
  lemma EveryPickIsRead(s: Settings, pick: Pick) returns (order: seq<string>)
    requires IsPick(s, pick)
    ensures Lists(order, s.Keys) && ReadIn(order) == pick
  {
    hide Parse, ReadIn, Sorted;
    var first, last := Sorted(s.Keys - pick.Values), Sorted(pick.Values);
    order := first + last;
    ListTwo(s.Keys - pick.Values, pick.Values);
    assert (s.Keys - pick.Values) + pick.Values == s.Keys;
    forall st | st in pick
      ensures st in ReadIn(order) && ReadIn(order)[st] == pick[st]
    {
      ReadLast(s, pick, first, last, st);
    }
    forall st | st in ReadIn(order)
      ensures st in pick
    {
      ReadFrom(order, st);
    }
  }

  /** Two protocols for one listener, one key with the prefix and one without: two
      orders of reading give two results. */
  lemma TwoProtocols(s: Settings)
    requires s == map[PREFIX + "a" + "." + "bind" := "x", PREFIX + "a" + "." + PROTOCOL := "imap",
                      "a" + "." + PROTOCOL := "smtp"]
    ensures exists p, q :: IsPick(s, p) && IsPick(s, q) && ListenersOf(s, p) != ListenersOf(s, q)
  {
    hide Parse, ListenersOf, IsPick, ToLower, TrimSpace;
    var bind, k, l := PREFIX + "a" + "." + "bind", PREFIX + "a" + "." + PROTOCOL, "a" + "." + PROTOCOL;
    assert 'a' != '.' && l[0] != PREFIX[0];
    ParseOfKey("a", "bind");
    ParseOfKey("a", PROTOCOL);
    assert |bind| != |k| && |l| < |bind|;
    assert s[bind] == "x" && IsBind(bind, "x", "a");
    assert "x" in Binds(s, "a");
    ProtocolsDiffer();
    assert s[k] == "imap" && s[l] == "smtp" && NamesSetting(k, "a", PROTOCOL) && NamesSetting(l, "a", PROTOCOL);
    assert !Determined(s, "a");
    OrderIsIrrelevantExactly(s);
  }

  lemma ProtocolsDiffer()
    ensures ProtocolIn("imap") != ProtocolIn("smtp")
  {
    TrimSpaceOf("", "imap");
    TrimSpaceOf("", "smtp");
    assert "" + "imap" == "imap" && "" + "smtp" == "smtp";
    assert ToLower("imap")[0] != ToLower("smtp")[0];
  }
}
