/** What reconciliation reads off a plan and promises of it, said of the JSON itself:
    which fields refer to a domain, which plans v0.16 accepts, and what is adopted and
    reported. */
module PlanMeaning {
  import opened Prelude
  import opened Order
  import opened ApplyPlan
  import opened Reconcile
  import opened ReconcileProperties

  // ----------------------------------------------------------- references, in JSON

  /** A reference names a client-id with a leading "#" or without. */
  predicate Spells(text: string, cid: string) {
    text == "#" + cid || (text == cid && (cid == "" || cid[0] != '#'))
  }

  /** And every reference names exactly one. */
  lemma SpellsOne(text: string, cid: string)
    ensures Spells(text, cid) <==> RefCid(text) == cid
  {
    if Spells(text, cid) && text == "#" + cid {
      assert text[1..] == cid;
    }
    if RefCid(text) == cid && text != "" && text[0] == '#' {
      assert text == ['#'] + text[1..] && "#" + cid == ['#'] + cid;
    }
  }

  predicate NamesDomain(fields: map<string, Json>, c: string) {
    "domainId" in fields && fields["domainId"].Str? && Spells(fields["domainId"].s, c)
  }

  /** The body's own domain, or that of one of its aliases. */
  predicate RefersTo(body: Body, c: string) {
    c != ""
    && (|| NamesDomain(body, c)
        || (&& "aliases" in body && body["aliases"].Obj?
            && exists a :: a in body["aliases"].fields && body["aliases"].fields[a].Obj?
                           && NamesDomain(body["aliases"].fields[a].fields, c)))
  }

  lemma RefersExactly(body: Body, c: string)
    ensures c in DomainRefs(body) <==> RefersTo(body, c)
  {
    hide RefCid, Spells;
    if "domainId" in body && body["domainId"].Str? {
      SpellsOne(body["domainId"].s, c);
    }
    EmptyIsNone();
    if "aliases" in body && body["aliases"].Obj? {
      var aliases := body["aliases"].fields;
      forall a | a in aliases
        ensures AliasRef(aliases[a]) == c && c != "" <==>
                  aliases[a].Obj? && c != "" && NamesDomain(aliases[a].fields, c)
      {
        if aliases[a].Obj? && "domainId" in aliases[a].fields && aliases[a].fields["domainId"].Str? {
          SpellsOne(aliases[a].fields["domainId"].s, c);
        }
      }
    }
  }

  lemma EmptyIsNone()
    ensures RefCid("") == ""
  {
  }

  // -------------------------------------------------------------- objects, in JSON

  predicate Creates(op: Op, kind: string, cid: string) {
    && "object" in op && op["object"] == Str(kind)
    && "value" in op && op["value"].Obj? && cid in op["value"].fields && op["value"].fields[cid].Obj?
  }

  function BodyIn(op: Op, cid: string): Body
    requires "value" in op && op["value"].Obj? && cid in op["value"].fields && op["value"].fields[cid].Obj?
  {
    op["value"].fields[cid].fields
  }

  /** The field's text, "" where there is none. */
  predicate Says(body: Body, key: string, text: string) {
    if key in body && body[key].Str? then text == body[key].s else text == ""
  }

  lemma SaysOne(body: Body, key: string, text: string)
    ensures Says(body, key, text) <==> StringField(body, key) == text
  {
  }

  lemma CreatesExactly(op: Op, kind: string, cid: string)
    requires kind != ""
    ensures Creates(op, kind, cid) <==> ObjectName(op) == kind && cid in CreateBodies(op)
    ensures Creates(op, kind, cid) ==> CreateBodies(op)[cid] == BodyIn(op, cid)
  {
  }

  /** Operation i makes a principal cid of tenant t. */
  predicate Scoped(ops: seq<Op>, i: int, cid: string, t: string) {
    && 0 <= i < |ops| && t != ""
    && (Creates(ops[i], "Account", cid) || Creates(ops[i], "MailingList", cid))
    && Says(BodyIn(ops[i], cid), "memberTenantId", t)
  }

  /** Some principal of tenant t is on domain d. */
  ghost predicate Sits(ops: seq<Op>, t: string, d: string) {
    exists i, cid :: Scoped(ops, i, cid, t) && RefersTo(BodyIn(ops[i], cid), d)
  }

  ghost predicate IsPrincipalBody(ops: seq<Op>, i: nat, cid: string) {
    i < |ops| && IsPrincipalOp(ops[i]) && cid in CreateBodies(ops[i])
  }

  lemma {:induction false} InWants(ops: seq<Op>, n: nat, w: Want)
    requires n <= |ops|
    ensures w in WantsUpTo(ops, n) <==>
              exists j: nat, cid :: j < n && IsPrincipalBody(ops, j, cid) && w in WantsOfBody(CreateBodies(ops[j])[cid])
  {
    hide CreateBodies, IsPrincipalOp, WantsOfBody;
    if n > 0 {
      InWants(ops, n - 1, w);
      if w in WantsOfOp(ops[n - 1]) {
        var cid :| cid in CreateBodies(ops[n - 1]) && w in WantsOfBody(CreateBodies(ops[n - 1])[cid]);
        assert IsPrincipalBody(ops, n - 1, cid);
      }
    }
  }

  lemma PrincipalExactly(ops: seq<Op>, i: nat, cid: string, t: string)
    ensures t != "" && IsPrincipalBody(ops, i, cid) && StringField(CreateBodies(ops[i])[cid], MEMBER_TENANT) == t
            <==> Scoped(ops, i, cid, t)
    ensures Scoped(ops, i, cid, t) ==> CreateBodies(ops[i])[cid] == BodyIn(ops[i], cid)
  {
    hide ObjectName, CreateBodies, StringField, Creates;
    if i < |ops| {
      CreatesExactly(ops[i], "Account", cid);
      CreatesExactly(ops[i], "MailingList", cid);
      if IsPrincipalBody(ops, i, cid) || Creates(ops[i], "Account", cid) || Creates(ops[i], "MailingList", cid) {
        SaysOne(CreateBodies(ops[i])[cid], "memberTenantId", t);
      }
    }
  }

  lemma WantInBody(body: Body, d: string, t: string)
    ensures Want(d, t) in WantsOfBody(body) <==> t != "" && StringField(body, MEMBER_TENANT) == t && RefersTo(body, d)
  {
    hide StringField, DomainRefs, RefersTo;
    RefersExactly(body, d);
  }

  /** A tenant is wanted for a domain exactly when a principal of it is on the domain. */
  lemma WantedExactly(ops: seq<Op>, d: string, t: string)
    ensures t in Wanted(ops, d) <==> Sits(ops, t, d)
  {
    hide StringField, WantsOfBody, CreateBodies, WantsUpTo, RefersTo, ObjectName, Says;
    var w := Want(d, t);
    InWants(ops, |ops|, w);
    assert t in Wanted(ops, d) <==> w in Wants(ops);
    if w in Wants(ops) {
      var j: nat, cid :| j < |ops| && IsPrincipalBody(ops, j, cid) && w in WantsOfBody(CreateBodies(ops[j])[cid]);
      WantInBody(CreateBodies(ops[j])[cid], d, t);
      PrincipalExactly(ops, j, cid, t);
    }
    if Sits(ops, t, d) {
      var i, cid :| Scoped(ops, i, cid, t) && RefersTo(BodyIn(ops[i], cid), d);
      PrincipalExactly(ops, i, cid, t);
      WantInBody(CreateBodies(ops[i])[cid], d, t);
    }
  }

  // --------------------------------------------------------------- domains, in JSON

  ghost predicate Created(ops: seq<Op>, kind: string, cid: string) {
    exists i :: 0 <= i < |ops| && Creates(ops[i], kind, cid)
  }

  /** The operation that counts for a domain: the last one that creates it. */
  ghost predicate CreatedLast(ops: seq<Op>, d: string, i: int) {
    0 <= i < |ops| && Creates(ops[i], "Domain", d) && forall j :: i < j < |ops| ==> !Creates(ops[j], "Domain", d)
  }

  /** The tenant a domain's body gives it, "" for none. */
  ghost predicate Owns(ops: seq<Op>, d: string, u: string) {
    exists i :: CreatedLast(ops, d, i) && Says(BodyIn(ops[i], d), "memberTenantId", u)
  }

  lemma {:induction false} LastCreator(ops: seq<Op>, d: string, n: nat)
    requires n <= |ops|
    ensures var i := DomainOpOf(ops, d, n);
            && (i < 0 <==> forall j :: 0 <= j < n ==> !Creates(ops[j], "Domain", d))
            && (i >= 0 ==> Creates(ops[i], "Domain", d) && forall j :: i < j < n ==> !Creates(ops[j], "Domain", d))
  {
    hide Creates, CreateBodies, ObjectName;
    if n > 0 {
      LastCreator(ops, d, n - 1);
      CreatesExactly(ops[n - 1], "Domain", d);
    }
  }

  lemma DomainExactly(ops: seq<Op>, d: string)
    ensures IsDomain(ops, d) <==> Created(ops, "Domain", d)
    ensures forall u :: IsDomain(ops, d) && DomainTenant(ops, d) == u <==> Owns(ops, d, u)
  {
    hide Creates, CreateBodies, ObjectName, StringField, Says;
    LastCreator(ops, d, |ops|);
    var i := DomainOpOf(ops, d, |ops|);
    if i >= 0 {
      CreatesExactly(ops[i], "Domain", d);
      assert CreatedLast(ops, d, i);
      assert forall j :: CreatedLast(ops, d, j) ==> j == i;
      forall u
        ensures DomainTenant(ops, d) == u <==> Owns(ops, d, u)
      {
        CreatesIsBody(ops[i], d);
        SaysOne(BodyIn(ops[i], d), "memberTenantId", u);
      }
    }
  }

  lemma CreatesIsBody(op: Op, cid: string)
    requires Creates(op, "Domain", cid)
    ensures "value" in op && op["value"].Obj? && cid in op["value"].fields && op["value"].fields[cid].Obj?
  {
  }

  /** Tenants are created at all. */
  lemma {:induction false} TenantsCreated(ops: seq<Op>, n: nat)
    requires n <= |ops|
    ensures TenantNamesUpTo(ops, n) != map[] <==> exists i, cid :: 0 <= i < n && Creates(ops[i], "Tenant", cid)
  {
    hide Creates, CreateBodies, ObjectName;
    if n > 0 {
      TenantsCreated(ops, n - 1);
      TenantsOfOpExactly(ops[n - 1]);
      var before, own := TenantNamesUpTo(ops, n - 1), TenantsOfOp(ops[n - 1]);
      if own != map[] {
        var t :| t in own;
        assert t in before + own && Creates(ops[n - 1], "Tenant", t);
      } else {
        assert before + own == before;
      }
    }
  }

  lemma TenantsOfOpExactly(op: Op)
    ensures forall cid :: cid in TenantsOfOp(op) <==> Creates(op, "Tenant", cid)
  {
    hide Creates, CreateBodies, ObjectName;
    forall cid
      ensures cid in TenantsOfOp(op) <==> Creates(op, "Tenant", cid)
    {
      CreatesExactly(op, "Tenant", cid);
    }
  }

  lemma Read(ops: seq<Op>, d: string)
    ensures Created(ops, "Domain", d) <==> IsDomain(ops, d)
    ensures forall u :: IsDomain(ops, d) && DomainTenant(ops, d) == u <==> Owns(ops, d, u)
    ensures forall t :: t in Wanted(ops, d) <==> Sits(ops, t, d)
  {
    hide Created, Owns, Sits, IsDomain, Wanted, DomainTenant;
    DomainExactly(ops, d);
    forall t
      ensures t in Wanted(ops, d) <==> Sits(ops, t, d)
    {
      WantedExactly(ops, d, t);
    }
  }

  // ------------------------------------------------------------------- acceptance

  /** v0.16 accepts the plan with the domains' tenants set to those of a: it keeps every
      tenant a domain has, and every principal of a tenant is on domains of that tenant. */
  ghost predicate Valid(ops: seq<Op>, a: Assignment) {
    forall d :: Created(ops, "Domain", d) ==>
                  && (forall u :: Owns(ops, d, u) && u != "" ==> Spells(u, a(d)))
                  && (forall t :: Sits(ops, t, d) ==> Spells(t, a(d)))
  }

  lemma AcceptsAt(ops: seq<Op>, d: string, a: string)
    requires IsDomain(ops, d)
    ensures DomainTenant(ops, d) != "" ==> (a == RefCid(DomainTenant(ops, d)) <==> Spells(DomainTenant(ops, d), a))
    ensures (forall u :: Owns(ops, d, u) && u != "" ==> Spells(u, a))
            <==> (DomainTenant(ops, d) != "" ==> a == RefCid(DomainTenant(ops, d)))
    ensures (forall t :: Sits(ops, t, d) ==> Spells(t, a)) <==> (forall t :: t in Wanted(ops, d) ==> a == RefCid(t))
  {
    hide Owns, Sits, IsDomain, Wanted, DomainTenant, RefCid, Spells;
    Read(ops, d);
    SpellsOne(DomainTenant(ops, d), a);
    assert Owns(ops, d, DomainTenant(ops, d));
    forall t
      ensures Spells(t, a) <==> RefCid(t) == a
    {
      SpellsOne(t, a);
    }
  }

  lemma AcceptsExactly(ops: seq<Op>, a: Assignment)
    ensures Accepts(ops, a) <==> Valid(ops, a)
  {
    hide Created, Owns, Sits, IsDomain, Wanted, DomainTenant, RefCid, Spells;
    forall d
      ensures IsDomain(ops, d) <==> Created(ops, "Domain", d)
    {
      Read(ops, d);
    }
    forall d | IsDomain(ops, d)
      ensures (forall u :: Owns(ops, d, u) && u != "" ==> Spells(u, a(d)))
              <==> (DomainTenant(ops, d) != "" ==> a(d) == RefCid(DomainTenant(ops, d)))
      ensures (forall t :: Sits(ops, t, d) ==> Spells(t, a(d)))
              <==> (forall t :: t in Wanted(ops, d) ==> a(d) == RefCid(t))
    {
      AcceptsAt(ops, d, a(d));
    }
  }

  /** No two principals on one domain write one tenant differently. */
  ghost predicate SpelledOneWay(ops: seq<Op>) {
    forall d, t, u, c | Created(ops, "Domain", d) && Sits(ops, t, d) && Sits(ops, u, d) && Spells(t, c) && Spells(u, c)
      :: t == u
  }

  lemma OneSpellingExactly(ops: seq<Op>)
    ensures OneSpelling(ops) <==> SpelledOneWay(ops)
  {
    hide Created, Sits, IsDomain, Wanted, RefCid, Spells;
    forall d
      ensures IsDomain(ops, d) <==> Created(ops, "Domain", d)
      ensures forall t :: t in Wanted(ops, d) <==> Sits(ops, t, d)
    {
      Read(ops, d);
    }
    forall t, c
      ensures Spells(t, c) <==> RefCid(t) == c
    {
      SpellsOne(t, c);
    }
    if SpelledOneWay(ops) {
      forall d, t, u | IsDomain(ops, d) && t in Wanted(ops, d) && u in Wanted(ops, d) && RefCid(t) == RefCid(u)
        ensures t == u
      {
        assert Sits(ops, t, d) && Sits(ops, u, d) && Spells(t, RefCid(t)) && Spells(u, RefCid(t));
      }
    }
  }

  /** On a plan that creates a tenant, reconciliation reports no conflict exactly when
      v0.16 accepts the plan under some tenants for its domains, and no tenant is spelled
      two ways on one domain. */
  lemma ReconcileMeans(ops: seq<Op>)
    requires exists i, cid :: 0 <= i < |ops| && Creates(ops[i], "Tenant", cid)
    ensures NoConflict(ops) <==> (exists a :: Valid(ops, a)) && SpelledOneWay(ops)
  {
    hide NoConflict, Valid, SpelledOneWay, Accepts, OneSpelling, Creates;
    TenantsCreated(ops, |ops|);
    ReconcileExact(ops);
    OneSpellingExactly(ops);
    forall a
      ensures Accepts(ops, a) <==> Valid(ops, a)
    {
      AcceptsExactly(ops, a);
    }
  }

  /** Every principal of a tenant is on domains whose bodies give them that tenant. */
  ghost predicate Consistent(ops: seq<Op>) {
    forall d, t, u, c | Created(ops, "Domain", d) && Sits(ops, t, d) && Owns(ops, d, u) && Spells(t, c)
      :: Spells(u, c)
  }

  /** And then the plan left behind is one v0.16 accepts as it stands, with the same
      principals on the same domains. */
  lemma RepairedMeans(ops: seq<Op>)
    requires (exists i, cid :: 0 <= i < |ops| && Creates(ops[i], "Tenant", cid)) && NoConflict(ops)
    ensures Consistent(After(ops))
    ensures forall t, d :: Sits(After(ops), t, d) <==> Sits(ops, t, d)
    ensures forall d :: Created(After(ops), "Domain", d) <==> Created(ops, "Domain", d)
    ensures forall d, u :: Owns(ops, d, u) && u != "" ==> Owns(After(ops), d, u)
  {
    hide NoConflict, Creates, Created, Sits, Owns, Spells, RefCid, DomainTenant, IsDomain, Wants, After, Used,
         VerdictOf;
    var after := After(ops);
    TenantsCreated(ops, |ops|);
    LeastRepair(ops);
    WantsAfter(ops);
    forall d
      ensures Created(after, "Domain", d) <==> IsDomain(after, d)
      ensures Created(ops, "Domain", d) <==> IsDomain(ops, d)
      ensures forall u :: IsDomain(after, d) && DomainTenant(after, d) == u <==> Owns(after, d, u)
      ensures forall u :: IsDomain(ops, d) && DomainTenant(ops, d) == u <==> Owns(ops, d, u)
      ensures forall t :: t in Wanted(after, d) <==> Sits(after, t, d)
      ensures forall t :: t in Wanted(ops, d) <==> Sits(ops, t, d)
    {
      Read(ops, d);
      Read(after, d);
    }
    forall t, c
      ensures Spells(t, c) <==> RefCid(t) == c
    {
      SpellsOne(t, c);
    }
    forall d, u | Owns(ops, d, u) && u != ""
      ensures Owns(after, d, u)
    {
      TenantAfter(ops, d);
      KeptOwner(ops, d);
    }
  }

  lemma WantsAfter(ops: seq<Op>)
    ensures Wants(After(ops)) == Wants(ops)
    ensures forall d :: IsDomain(After(ops), d) <==> IsDomain(ops, d)
  {
    hide IsDomain, Wants, Used, Repaired, SameShape, DomainBody, TenantNames;
    RepairedFrame(ops, Used(ops));
  }

  /** A domain that has a tenant does not adopt one. */
  lemma KeptOwner(ops: seq<Op>, d: string)
    requires IsDomain(ops, d) && DomainTenant(ops, d) != ""
    ensures !VerdictOf(ops, d).Adopt?
  {
    hide IsDomain, DomainTenant, Wanted;
  }

  /** Every assignment v0.16 accepts gives a domain the tenant the repair leaves it with. */
  lemma RepairIsLeast(ops: seq<Op>, a: Assignment, d: string, u: string)
    requires (exists i, cid :: 0 <= i < |ops| && Creates(ops[i], "Tenant", cid)) && NoConflict(ops)
    requires Valid(ops, a) && Owns(After(ops), d, u) && u != ""
    ensures Spells(u, a(d))
  {
    hide NoConflict, Creates, Created, Sits, Spells, RefCid, DomainTenant, IsDomain, Wanted, After, Used, VerdictOf,
         Says, BodyIn, CreatedLast, Stated;
    TenantsCreated(ops, |ops|);
    Read(ops, d);
    Read(After(ops), d);
    WantsAfter(ops);
    OwnsIsCreated(After(ops), d, u);
    AcceptsExactly(ops, a);
    AcceptsAt(ops, d, a(d));
    SpellsOne(u, a(d));
    TenantAfter(ops, d);
    if d in Used(ops) && VerdictOf(ops, d).Adopt? {
      UsedMembers(ops, d);
      VerdictMeans(ops, d);
      assert u in Wanted(ops, d);
    }
  }

  lemma OwnsIsCreated(ops: seq<Op>, d: string, u: string)
    requires Owns(ops, d, u)
    ensures Created(ops, "Domain", d)
  {
    hide Says;
    var i :| CreatedLast(ops, d, i) && Says(BodyIn(ops[i], d), "memberTenantId", u);
    assert 0 <= i < |ops| && Creates(ops[i], "Domain", d);
  }

  // ------------------------------------------------- what is adopted and reported

  /** The domain has no tenant, and every principal on it writes one and the same. */
  ghost predicate ShouldAdopt(ops: seq<Op>, d: string, t: string) {
    && Created(ops, "Domain", d) && Owns(ops, d, "")
    && Sits(ops, t, d) && !Spells(t, "") && forall u :: Sits(ops, u, d) ==> u == t
  }

  /** Principals of two references are on the domain, or one of another tenant than its own. */
  ghost predicate ShouldConflict(ops: seq<Op>, d: string) {
    && Created(ops, "Domain", d)
    && (|| (exists t, u :: Sits(ops, t, d) && Sits(ops, u, d) && t != u)
        || (exists t, u :: Sits(ops, t, d) && Owns(ops, d, u) && u != "" && OtherTenant(t, u)))
  }

  ghost predicate OtherTenant(t: string, u: string) {
    forall c :: Spells(t, c) ==> !Spells(u, c)
  }

  lemma OtherExactly(t: string, u: string)
    ensures OtherTenant(t, u) <==> RefCid(t) != RefCid(u)
  {
    hide RefCid, Spells;
    SpellsOne(t, RefCid(t));
    SpellsOne(u, RefCid(t));
    forall c
      ensures Spells(t, c) <==> c == RefCid(t)
    {
      SpellsOne(t, c);
    }
  }

  /** The verdict on one domain that principals are on. */
  lemma VerdictExactly(ops: seq<Op>, d: string)
    requires IsDomain(ops, d) && Wanted(ops, d) != {}
    ensures forall t :: VerdictOf(ops, d) == Adopt(t) <==> ShouldAdopt(ops, d, t)
    ensures IsConflict(VerdictOf(ops, d)) <==> ShouldConflict(ops, d)
  {
    hide Created, Owns, Sits, IsDomain, DomainTenant, RefCid, Spells, Wanted, OtherTenant;
    Read(ops, d);
    var wanted, current := Wanted(ops, d), DomainTenant(ops, d);
    assert Owns(ops, d, current);
    forall t, u
      ensures OtherTenant(t, u) <==> RefCid(t) != RefCid(u)
      ensures Spells(t, "") <==> RefCid(t) == ""
    {
      OtherExactly(t, u);
      SpellsOne(t, "");
    }
    EmptyIsNone();
    var t :| t in wanted;
    if |wanted| == 1 {
      OnlyElement(wanted, t);
      assert forall u :: Sits(ops, u, d) <==> u == t;
      assert VerdictOf(ops, d) == Judge(current, t);
    } else {
      var rest := wanted - {t};
      assert |rest| == |wanted| - 1;
      var u :| u in rest;
      assert Sits(ops, t, d) && Sits(ops, u, d) && t != u;
    }
  }

  /** On a plan that creates a tenant, the domains adopted and the ones in conflict are
      exactly those that should be. */
  lemma DecidedExactly(ops: seq<Op>, d: string)
    requires exists i, cid :: 0 <= i < |ops| && Creates(ops[i], "Tenant", cid)
    ensures d in Adopters(ops, Used(ops)) <==> exists t :: ShouldAdopt(ops, d, t)
    ensures d in Conflicting(ops, Used(ops)) <==> ShouldConflict(ops, d)
    ensures forall t :: ShouldAdopt(ops, d, t) ==> Owns(After(ops), d, t)
  {
    hide Creates, Created, Owns, Sits, IsDomain, DomainTenant, Spells, Wanted, VerdictOf, Used, After, Adopters,
         Conflicting, OtherTenant;
    TenantsCreated(ops, |ops|);
    PickedMembers(ops, Used(ops));
    UsedMembers(ops, d);
    Read(ops, d);
    if Wanted(ops, d) == {} {
      assert forall t :: !Sits(ops, t, d);
    } else {
      VerdictDomain(ops, d);
      if IsDomain(ops, d) {
        VerdictExactly(ops, d);
        Read(After(ops), d);
        TenantAfter(ops, d);
        assert forall t :: VerdictOf(ops, d) == Adopt(t) ==> VerdictOf(ops, d).Adopt?;
        assert VerdictOf(ops, d).Adopt? ==> ShouldAdopt(ops, d, VerdictOf(ops, d).tenant);
      }
    }
  }

  /** A plan without tenants is left alone. */
  lemma NothingWithoutTenants(ops: seq<Op>)
    requires !exists i, cid :: 0 <= i < |ops| && Creates(ops[i], "Tenant", cid)
    ensures After(ops) == ops && Adopters(ops, Used(ops)) == [] && Conflicting(ops, Used(ops)) == []
  {
    hide Creates, Used, Adopters, Conflicting, Repaired;
    TenantsCreated(ops, |ops|);
    NothingUsed(ops);
  }

  // ---------------------------------------------------------------- what is said

  /** Of the first n operations the one that last creates the object. */
  ghost predicate LastOf(ops: seq<Op>, kind: string, cid: string, n: nat, i: int)
    requires n <= |ops|
  {
    0 <= i < n && Creates(ops[i], kind, cid) && forall j :: i < j < n ==> !Creates(ops[j], kind, cid)
  }

  /** The name an object goes by: its body's, where the last operation that creates it
      gives one, and else its client-id. */
  ghost predicate Called(ops: seq<Op>, kind: string, cid: string, name: string) {
    if Created(ops, kind, cid) then
      exists i, n :: LastOf(ops, kind, cid, |ops|, i) && Says(BodyIn(ops[i], cid), "name", n)
                     && name == (if n == "" then cid else n)
    else name == cid
  }

  lemma {:induction false} TenantNamed(ops: seq<Op>, n: nat, cid: string) returns (i: int)
    requires n <= |ops|
    ensures -1 <= i < n && (cid in TenantNamesUpTo(ops, n) <==> i >= 0)
    ensures i == -1 ==> forall j :: 0 <= j < n ==> !Creates(ops[j], "Tenant", cid)
    ensures i >= 0 ==> LastOf(ops, "Tenant", cid, n, i)
                       && Says(BodyIn(ops[i], cid), "name", TenantNamesUpTo(ops, n)[cid])
  {
    hide CreateBodies, ObjectName, Says, TenantsOfOp;
    if n == 0 {
      i := -1;
    } else {
      i := TenantNamed(ops, n - 1, cid);
      TenantsOfOpExactly(ops[n - 1]);
      if cid in TenantsOfOp(ops[n - 1]) {
        TenantNameIn(ops[n - 1], cid);
        i := n - 1;
      }
    }
  }

  lemma TenantNameIn(op: Op, cid: string)
    requires Creates(op, "Tenant", cid) && cid in TenantsOfOp(op)
    ensures Says(BodyIn(op, cid), "name", TenantsOfOp(op)[cid])
  {
    CreatesExactly(op, "Tenant", cid);
    SaysOne(BodyIn(op, cid), "name", TenantsOfOp(op)[cid]);
  }

  lemma TenantCalled(ops: seq<Op>, ref: string, cid: string)
    requires Spells(ref, cid)
    ensures Called(ops, "Tenant", cid, TenantName(TenantNames(ops), ref))
  {
    hide Says, BodyIn, Spells, RefCid, TenantNamesUpTo;
    SpellsOne(ref, cid);
    var i := TenantNamed(ops, |ops|, cid);
    if i >= 0 {
      assert Created(ops, "Tenant", cid);
      var n := TenantNames(ops)[cid];
      assert Says(BodyIn(ops[i], cid), "name", n);
    }
  }

  lemma DomainCalled(ops: seq<Op>, d: string)
    requires IsDomain(ops, d)
    ensures Called(ops, "Domain", d, DomainName(ops, d))
  {
    hide Says, ObjectName, CreateBodies, StringField;
    LastCreator(ops, d, |ops|);
    var i := DomainOpOf(ops, d, |ops|);
    CreatesExactly(ops[i], "Domain", d);
    SaysOne(BodyIn(ops[i], d), "name", StringField(BodyIn(ops[i], d), "name"));
    assert LastOf(ops, "Domain", d, |ops|, i);
  }

  /** A principal of tenant t on domain d, by its kind and name. */
  ghost predicate Exemplifies(ops: seq<Op>, t: string, d: string, who: Label) {
    exists i, cid ::
      && Scoped(ops, i, cid, t) && RefersTo(BodyIn(ops[i], cid), d)
      && Creates(ops[i], who.kind, cid) && Says(BodyIn(ops[i], cid), "name", who.name)
  }

  lemma ExampleExactly(ops: seq<Op>, t: string, d: string, who: Label)
    requires IsExample(ops, Want(d, t), who)
    ensures Exemplifies(ops, t, d, who)
  {
    hide StringField, RefersTo, WantsOfBody, Says, ObjectName, CreateBodies;
    var i, cid :| 0 <= i < |ops| && IsPrincipalOp(ops[i]) && cid in CreateBodies(ops[i])
      && Want(d, t) in WantsOfBody(CreateBodies(ops[i])[cid])
      && who == Label(ObjectName(ops[i]), StringField(CreateBodies(ops[i])[cid], NAME));
    WantInBody(CreateBodies(ops[i])[cid], d, t);
    PrincipalExactly(ops, i, cid, t);
    PrincipalKinds(ops[i]);
    CreatesExactly(ops[i], who.kind, cid);
    SaysOne(BodyIn(ops[i], cid), "name", who.name);
  }

  lemma PrincipalKinds(op: Op)
    requires IsPrincipalOp(op)
    ensures ObjectName(op) != ""
  {
  }

  /** An adoption names its domain and tenant as the plan does, and a principal that
      wants it. */
  lemma AdoptionSays(ops: seq<Op>, d: string, t: string, cid: string, a: Adoption)
    requires Reports(ops, d, a) && ShouldAdopt(ops, d, t) && Spells(t, cid)
    ensures Called(ops, "Domain", d, a.domain) && Called(ops, "Tenant", cid, a.tenant)
    ensures Exemplifies(ops, t, d, a.because)
  {
    hide Called, Created, Owns, Spells, IsExample, Exemplifies, DomainName, TenantName, IsDomain, Wanted, Sits,
         DomainTenant;
    Read(ops, d);
    VerdictExactly(ops, d);
    DomainCalled(ops, d);
    TenantCalled(ops, t, cid);
    ExampleExactly(ops, t, d, a.because);
  }

  ghost predicate TenantCalls(ops: seq<Op>, t: string, name: string) {
    forall cid :: Spells(t, cid) ==> Called(ops, "Tenant", cid, name)
  }

  lemma TenantCallsIt(ops: seq<Op>, t: string)
    ensures TenantCalls(ops, t, TenantName(TenantNames(ops), t))
  {
    hide Called, TenantName, Spells;
    forall cid | Spells(t, cid)
      ensures Called(ops, "Tenant", cid, TenantName(TenantNames(ops), t))
    {
      TenantCalled(ops, t, cid);
    }
  }

  /** A conflict names its domain as the plan does, and: every tenant on it, once per
      spelling and in order, each with a principal; or its owner, the other tenant on it
      and a principal of that. */
  lemma ConflictSays(ops: seq<Op>, d: string, c: Conflict)
    requires Explains(ops, d, c)
    ensures Called(ops, "Domain", d, c.domain)
    ensures c.Contested? ==>
              exists ts ::
                && Ascending(ts) && (forall t :: t in ts <==> Sits(ops, t, d)) && |c.tenants| == |c.examples| == |ts|
                && forall i :: 0 <= i < |ts| ==>
                     TenantCalls(ops, ts[i], c.tenants[i]) && Exemplifies(ops, ts[i], d, c.examples[i])
    ensures c.OwnedByOther? ==>
              exists u, t ::
                && Owns(ops, d, u) && Sits(ops, t, d) && OtherTenant(t, u) && |c.tenants| == 2
                && TenantCalls(ops, u, c.tenants[0]) && TenantCalls(ops, t, c.tenants[1])
                && Exemplifies(ops, t, d, c.because)
  {
    hide Called, Created, Owns, Spells, IsExample, Exemplifies, DomainName, TenantName, IsDomain, Wanted, Sits,
         DomainTenant, TenantCalls, OtherTenant, Ascending, TenantNames;
    Read(ops, d);
    VerdictDomain(ops, d);
    DomainCalled(ops, d);
    if c.Contested? {
      var ts := Sorted(Wanted(ops, d));
      forall i | 0 <= i < |ts|
        ensures TenantCalls(ops, ts[i], c.tenants[i]) && Exemplifies(ops, ts[i], d, c.examples[i])
      {
        TenantCallsIt(ops, ts[i]);
        ExampleExactly(ops, ts[i], d, c.examples[i]);
      }
    } else {
      var u, t := VerdictOf(ops, d).current, VerdictOf(ops, d).want;
      TenantCallsIt(ops, u);
      TenantCallsIt(ops, t);
      ExampleExactly(ops, t, d, c.because);
      OtherExactly(t, u);
      assert t in Wanted(ops, d);
    }
  }

  /** Adoptions and conflicts come in the order of their domains' client-ids. */
  lemma {:induction false} PickedAscending(ops: seq<Op>, ds: seq<string>)
    requires Ascending(ds)
    ensures Ascending(Adopters(ops, ds)) && Ascending(Conflicting(ops, ds))
  {
    hide VerdictOf, Less, Ascending;
    if ds == [] {
      NothingAscends();
    } else {
      var before, last := ds[..|ds| - 1], ds[|ds| - 1];
      assert ds == before + [last];
      LastIsGreatest(before, last);
      assert Adopters(ops, before) + [] == Adopters(ops, before);
      assert Conflicting(ops, before) + [] == Conflicting(ops, before);
      PickedAscending(ops, before);
      PickedMembers(ops, before);
      if VerdictOf(ops, last).Adopt? {
        AscendingNext(Adopters(ops, before), last);
      }
      if IsConflict(VerdictOf(ops, last)) {
        AscendingNext(Conflicting(ops, before), last);
      }
    }
  }

  lemma NothingAscends()
    ensures Ascending([])
  {
  }
}
