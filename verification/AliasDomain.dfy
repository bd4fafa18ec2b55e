/** A plan whose account is on a second domain through an alias only: reconciliation
    gives that domain the account's tenant. */
module AliasDomain {
  import opened Order
  import opened ApplyPlan
  import opened Reconcile
  import opened ReconcileProperties
  import opened PlanMeaning
  import T = TwoSpellings

  /** Of tenant t, on domain d, with an alias on domain e. */
  function Account(t: string, d: string, e: string): Body {
    map["memberTenantId" := Str("#" + t), "domainId" := Str("#" + d),
        "aliases" := Obj(map["0" := Obj(map["domainId" := Str("#" + e)])])]
  }

  /** Tenant t, its domain d, domain e without one, and that account. */
  function Plan(t: string, d: string, e: string): seq<Op> {
    [T.Create("Tenant", map[t := map[]]),
     T.Create("Domain", map[d := map["memberTenantId" := Str("#" + t)], e := map[]]),
     T.Create("Account", map["a" := Account(t, d, e)])]
  }

  lemma FieldsDiffer()
    ensures "memberTenantId" != "domainId" && "memberTenantId" != "aliases" && "domainId" != "aliases"
  {
    assert |"memberTenantId"| == 14 && |"domainId"| == 8 && |"aliases"| == 7;
  }

  lemma AccountRefers(t: string, d: string, e: string, c: string)
    requires d != "" && e != ""
    ensures RefersTo(Account(t, d, e), c) <==> c == d || c == e
    ensures forall u :: Says(Account(t, d, e), "memberTenantId", u) <==> u == "#" + t
  {
    FieldsDiffer();
    var body := Account(t, d, e);
    assert body["domainId"] == Str("#" + d) && body["memberTenantId"] == Str("#" + t);
    SpellsItself(d, c);
    SpellsItself(e, c);
    var aliases := body["aliases"].fields;
    assert "0" in aliases && aliases["0"] == Obj(map["domainId" := Str("#" + e)]);
    assert NamesDomain(aliases["0"].fields, c) <==> c == e;
  }

  lemma SpellsItself(d: string, c: string)
    ensures Spells("#" + d, c) <==> c == d
  {
    assert ("#" + d)[1..] == d && ("#" + c)[1..] == c;
  }

  lemma CreateIs(kind: string, bodies: map<string, Body>, cid: string, other: string)
    ensures Creates(T.Create(kind, bodies), other, cid) <==> other == kind && cid in bodies
    ensures cid in bodies ==> Creates(T.Create(kind, bodies), kind, cid)
                              && BodyIn(T.Create(kind, bodies), cid) == bodies[cid]
  {
    assert |"object"| != |"value"|;
  }

  lemma PlanReads(t: string, d: string, e: string)
    requires t != "" && d != "" && e != "" && d != e
    ensures forall c :: Created(Plan(t, d, e), "Domain", c) <==> c == d || c == e
    ensures forall u :: Owns(Plan(t, d, e), d, u) <==> u == "#" + t
    ensures forall u :: Owns(Plan(t, d, e), e, u) <==> u == ""
    ensures Creates(Plan(t, d, e)[0], "Tenant", t)
  {
    hide Creates, BodyIn, T.Create, Says;
    var ops := Plan(t, d, e);
    T.KindsDiffer();
    var domains: map<string, Body> := map[d := map["memberTenantId" := Str("#" + t)], e := map[]];
    forall c
      ensures Creates(ops[1], "Domain", c) <==> c == d || c == e
      ensures !Creates(ops[0], "Domain", c) && !Creates(ops[2], "Domain", c)
    {
      CreateIs("Domain", domains, c, "Domain");
      CreateIs("Tenant", map[t := map[]], c, "Domain");
      CreateIs("Account", map["a" := Account(t, d, e)], c, "Domain");
    }
    CreateIs("Tenant", map[t := map[]], t, "Tenant");
    OwnerIs(ops, d, domains[d]) by { CreateIs("Domain", domains, d, "Domain"); }
    OwnerIs(ops, e, domains[e]) by { CreateIs("Domain", domains, e, "Domain"); }
    DomainSays(t);
  }

  lemma DomainSays(t: string)
    ensures forall u :: Says(map["memberTenantId" := Str("#" + t)], "memberTenantId", u) <==> u == "#" + t
    ensures forall u :: Says(map[], "memberTenantId", u) <==> u == ""
  {
  }

  lemma OwnerIs(ops: seq<Op>, c: string, body: Body)
    requires |ops| == 3 && Creates(ops[1], "Domain", c) && BodyIn(ops[1], c) == body
    requires !Creates(ops[0], "Domain", c) && !Creates(ops[2], "Domain", c)
    ensures forall u :: Owns(ops, c, u) <==> Says(body, "memberTenantId", u)
  {
    hide BodyIn, Says;
    assert CreatedLast(ops, c, 1);
    assert forall i :: CreatedLast(ops, c, i) ==> i == 1;
  }

  lemma PlanSits(t: string, d: string, e: string)
    requires t != "" && d != "" && e != ""
    ensures forall u, c :: Sits(Plan(t, d, e), u, c) <==> u == "#" + t && (c == d || c == e)
  {
    hide RefersTo, Says, T.Create, Account;
    var ops := Plan(t, d, e);
    T.KindsDiffer();
    assert |"Account"| != |"MailingList"|;
    forall cid
      ensures !Creates(ops[0], "Account", cid) && !Creates(ops[0], "MailingList", cid)
      ensures !Creates(ops[1], "Account", cid) && !Creates(ops[1], "MailingList", cid)
      ensures !Creates(ops[2], "MailingList", cid) && (Creates(ops[2], "Account", cid) <==> cid == "a")
    {
      var domains: map<string, Body> := map[d := map["memberTenantId" := Str("#" + t)], e := map[]];
      CreateIs("Tenant", map[t := map[]], cid, "Account");
      CreateIs("Tenant", map[t := map[]], cid, "MailingList");
      CreateIs("Domain", domains, cid, "Account");
      CreateIs("Domain", domains, cid, "MailingList");
      CreateIs("Account", map["a" := Account(t, d, e)], cid, "Account");
      CreateIs("Account", map["a" := Account(t, d, e)], cid, "MailingList");
    }
    CreateIs("Account", map["a" := Account(t, d, e)], "a", "Account");
    forall u, c
      ensures Sits(ops, u, c) <==> u == "#" + t && (c == d || c == e)
    {
      AccountRefers(t, d, e, c);
      if u == "#" + t && (c == d || c == e) {
        assert Scoped(ops, 2, "a", u);
      }
    }
  }

  /** The alias's domain is adopted, and nothing is reported. */
  lemma AliasIsAdopted(t: string, d: string, e: string)
    requires t != "" && d != "" && e != "" && d != e
    ensures e in Adopters(Plan(t, d, e), Used(Plan(t, d, e)))
    ensures Owns(After(Plan(t, d, e)), e, "#" + t)
    ensures NoConflict(Plan(t, d, e))
  {
    hide Owns, Created, Sits, Used, After, Plan, Adopters, Conflicting, Creates, Spells;
    var ops := Plan(t, d, e);
    PlanReads(t, d, e);
    PlanSits(t, d, e);
    ThreeOps(t, d, e);
    SpellsItself(t, "");
    assert ShouldAdopt(ops, e, "#" + t);
    DecidedExactly(ops, e);
    forall c
      ensures c !in Conflicting(ops, Used(ops))
    {
      DecidedExactly(ops, c);
      SpellsItself(t, t);
    }
    NonEmptyHas(Conflicting(ops, Used(ops)));
  }

  lemma ThreeOps(t: string, d: string, e: string)
    ensures |Plan(t, d, e)| == 3
  {
  }
}
