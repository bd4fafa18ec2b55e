/** A plan that reconciliation reports as a conflict though its tenants fit: two
    accounts name one tenant in two spellings. */
module TwoSpellings {
  import opened Prelude
  import opened ApplyPlan
  import opened Reconcile
  import opened ReconcileProperties

  function Create(kind: string, bodies: map<string, Body>): Op {
    map[OBJECT := Str(kind), VALUE := Obj(map cid | cid in bodies :: Obj(bodies[cid]))]
  }

  function Account(tenant: string, domain: string): Body {
    map[MEMBER_TENANT := Str(tenant), DOMAIN_ID := Str(domain)]
  }

  /** Tenant t, domain d without an owner, and two accounts of t on it. */
  function Plan(t: string, d: string): seq<Op> {
    [Create("Tenant", map[t := map[]]),
     Create("Domain", map[d := map[]]),
     Create("Account", map["a" := Account("#" + t, d), "b" := Account(t, d)])]
  }

  lemma CreateReads(kind: string, bodies: map<string, Body>)
    ensures ObjectName(Create(kind, bodies)) == kind && CreateBodies(Create(kind, bodies)) == bodies
  {
    assert |OBJECT| != |VALUE|;
    var op := Create(kind, bodies);
    assert forall cid :: cid in bodies ==> op[VALUE].fields[cid] == Obj(bodies[cid]);
  }

  lemma KindsDiffer()
    ensures "Tenant" != "Domain" && "Tenant" != "Account" && "Domain" != "Account"
    ensures "Tenant" != "MailingList" && "Domain" != "MailingList"
  {
    assert "Tenant"[0] != "Domain"[0] && |"Tenant"| != |"Account"| && |"Tenant"| != |"MailingList"|;
  }

  lemma AccountWants(tenant: string, domain: string)
    requires tenant != "" && domain != "" && domain[0] != '#'
    ensures WantsOfBody(Account(tenant, domain)) == {Want(domain, tenant)}
  {
    var body := Account(tenant, domain);
    assert |MEMBER_TENANT| != |DOMAIN_ID| && |ALIASES| != |DOMAIN_ID| && |ALIASES| != |MEMBER_TENANT|;
    assert StringField(body, DOMAIN_ID) == domain && StringField(body, MEMBER_TENANT) == tenant;
    assert DomainRefs(body) == {domain};
  }

  lemma PlanWants(t: string, d: string)
    requires t != "" && d != "" && d[0] != '#'
    ensures Wants(Plan(t, d)) == {Want(d, "#" + t), Want(d, t)}
  {
    hide WantsOfBody, CreateBodies, ObjectName;
    var ops := Plan(t, d);
    KindsDiffer();
    AccountWants("#" + t, d);
    AccountWants(t, d);
    CreateReads("Tenant", map[t := map[]]);
    CreateReads("Domain", map[d := map[]]);
    var accounts := map["a" := Account("#" + t, d), "b" := Account(t, d)];
    CreateReads("Account", accounts);
    assert "a"[0] != "b"[0];
    assert accounts["a"] == Account("#" + t, d) && accounts["b"] == Account(t, d);
    assert WantsOfOp(ops[0]) == {} && WantsOfOp(ops[1]) == {};
    TwoAccounts(ops[2], t, d);
    assert WantsUpTo(ops, 1) == {} && WantsUpTo(ops, 2) == {};
  }

  lemma TwoAccounts(op: Op, t: string, d: string)
    requires IsPrincipalOp(op) && CreateBodies(op) == map["a" := Account("#" + t, d), "b" := Account(t, d)]
    requires WantsOfBody(Account("#" + t, d)) == {Want(d, "#" + t)} && WantsOfBody(Account(t, d)) == {Want(d, t)}
    ensures WantsOfOp(op) == {Want(d, "#" + t), Want(d, t)}
  {
    hide WantsOfBody, CreateBodies, ObjectName;
    assert "a"[0] != "b"[0];
    var bodies := CreateBodies(op);
    assert bodies["a"] == Account("#" + t, d) && bodies["b"] == Account(t, d);
    forall w
      ensures w in WantsOfOp(op) <==> w == Want(d, "#" + t) || w == Want(d, t)
    {
      if w == Want(d, "#" + t) { assert "a" in bodies && w in WantsOfBody(bodies["a"]); }
      if w == Want(d, t) { assert "b" in bodies && w in WantsOfBody(bodies["b"]); }
    }
  }

  lemma PlanDomains(t: string, d: string)
    ensures TenantNames(Plan(t, d)) != map[]
    ensures forall e :: IsDomain(Plan(t, d), e) <==> e == d
    ensures IsDomain(Plan(t, d), d) && DomainTenant(Plan(t, d), d) == ""
  {
    hide CreateBodies, ObjectName;
    var ops := Plan(t, d);
    KindsDiffer();
    CreateReads("Tenant", map[t := map[]]);
    CreateReads("Domain", map[d := map[]]);
    CreateReads("Account", map["a" := Account("#" + t, d), "b" := Account(t, d)]);
    assert t in TenantsOfOp(ops[0]);
    assert TenantsOfOp(ops[1]) == map[] && TenantsOfOp(ops[2]) == map[];
    assert t in TenantNamesUpTo(ops, 1) && t in TenantNamesUpTo(ops, 2) && t in TenantNamesUpTo(ops, 3);
    forall e
      ensures DomainOpOf(ops, e, 3) == if e == d then 1 else -1
    {
      assert DomainOpOf(ops, e, 0) == -1 && DomainOpOf(ops, e, 1) == -1;
      assert DomainOpOf(ops, e, 2) == if e == d then 1 else -1;
    }
  }

  /** Some assignment keeps every owner and suits every account, and a conflict is
      reported all the same. */
  lemma TwoSpellingsConflict(t: string, d: string)
    requires t != "" && t[0] != '#' && d != "" && d[0] != '#'
    ensures TenantNames(Plan(t, d)) != map[]
    ensures exists a :: Accepts(Plan(t, d), a)
    ensures !NoConflict(Plan(t, d))
  {
    hide TenantNames, IsDomain, DomainTenant, Wants, NoConflict, Plan;
    var ops := Plan(t, d);
    PlanDomains(t, d);
    PlanWants(t, d);
    assert ("#" + t)[1..] == t;
    assert Want(d, t) in Wants(ops) && Want(d, "#" + t) in Wants(ops);
    assert t in Wanted(ops, d) && ("#" + t) in Wanted(ops, d);
    assert Accepts(ops, x => t);
    assert !OneSpelling(ops);
    ReconcileExact(ops);
  }
}
