/** The predictor and the repair are one rule: on every layout and every plan
    that represents it, Analyze foresees exactly what reconciliation does. */
module TenantAgreement {
  import opened Order
  import opened ApplyPlan
  import opened PlanMeaning
  import opened Reconcile
  import opened ReconcileProperties
  import opened TenantLayout

  /** Client-ids by name: what the converter assigned. */
  datatype Ids = Ids(tenants: map<string, string>, domains: map<string, string>)

  ghost predicate Injective(m: map<string, string>) {
    forall x, y :: x in m && y in m && m[x] == m[y] ==> x == y
  }

  /** How a plan refers to a tenant by name. */
  function TenantRef(ids: Ids, name: string): string {
    if name in ids.tenants then "#" + ids.tenants[name] else ""
  }

  function DomainIds(ids: Ids, names: seq<string>): set<string> {
    set n | n in names && n in ids.domains :: ids.domains[n]
  }

  function Elements(s: seq<string>): set<string> {
    set x | x in s
  }

  /** A principal's body, as it is read. */
  ghost predicate ReadsLike(ids: Ids, p: Principal, body: Body) {
    && StringField(body, MEMBER_TENANT) == TenantRef(ids, p.tenant)
    && DomainRefs(body) == DomainIds(ids, p.domains)
  }

  /** The names a layout mentions have client-ids, one each and none shared. */
  ghost predicate NamesKnown(l: Layout, ids: Ids) {
    && Injective(ids.tenants) && Injective(ids.domains)
    && "" !in ids.tenants
    && (forall n :: n in ids.tenants ==> ids.tenants[n] != "")
    && (forall n :: n in l.tenants ==> n in ids.tenants)
    && (forall d :: d in l.domainTenant ==> l.domainTenant[d] == "" || l.domainTenant[d] in ids.tenants)
    && (forall i :: 0 <= i < |l.principals| ==>
          && (l.principals[i].tenant == "" || l.principals[i].tenant in ids.tenants)
          && forall d :: d in l.principals[i].domains ==> d in ids.domains)
  }

  /** A principal's body in the plan: its tenant and its domains, by client-id. */
  ghost predicate Matches(ids: Ids, p: Principal, body: Body) {
    && Says(body, "memberTenantId", if p.tenant in ids.tenants then "#" + ids.tenants[p.tenant] else "")
    && forall c :: RefersTo(body, c) <==> exists n :: n in p.domains && n in ids.domains && ids.domains[n] == c
  }

  ghost predicate IsPrincipal(ops: seq<Op>, j: nat, cid: string) {
    j < |ops| && (Creates(ops[j], "Account", cid) || Creates(ops[j], "MailingList", cid))
  }

  /** The plan's domains, each with the tenant it declares, and with none where it
      declares none or only an address mentions it. */
  ghost predicate DomainsIn(l: Layout, ops: seq<Op>, ids: Ids) {
    forall d :: d in ids.domains ==>
                  && Created(ops, "Domain", ids.domains[d])
                  && if d in l.domainTenant && l.domainTenant[d] in ids.tenants
                     then Owns(ops, ids.domains[d], "#" + ids.tenants[l.domainTenant[d]])
                     else Owns(ops, ids.domains[d], "")
  }

  /** Operation j gives a principal the body cid. */
  ghost predicate BodyMatches(ops: seq<Op>, ids: Ids, p: Principal, j: nat, cid: string) {
    IsPrincipal(ops, j, cid) && Matches(ids, p, BodyIn(ops[j], cid))
  }

  ghost predicate HasBody(ops: seq<Op>, ids: Ids, p: Principal) {
    exists j: nat, cid :: BodyMatches(ops, ids, p, j, cid)
  }

  /** A body for every principal, and no other. */
  ghost predicate PrincipalsIn(l: Layout, ops: seq<Op>, ids: Ids) {
    && (forall i :: 0 <= i < |l.principals| ==> HasBody(ops, ids, l.principals[i]))
    && (forall j: nat, cid :: IsPrincipal(ops, j, cid) ==>
          exists i :: 0 <= i < |l.principals| && BodyMatches(ops, ids, l.principals[i], j, cid))
  }

  /** The plan the converter makes of a layout: its tenants, domains and principals. */
  ghost predicate Represents(l: Layout, ops: seq<Op>, ids: Ids) {
    && NamesKnown(l, ids)
    && ((exists i, cid :: 0 <= i < |ops| && Creates(ops[i], "Tenant", cid)) <==> l.tenants != [])
    && DomainsIn(l, ops, ids) && PrincipalsIn(l, ops, ids)
  }

  ghost predicate BodyReads(ops: seq<Op>, ids: Ids, p: Principal, j: nat, cid: string) {
    IsPrincipalBody(ops, j, cid) && ReadsLike(ids, p, CreateBodies(ops[j])[cid])
  }

  ghost predicate IsRead(ops: seq<Op>, ids: Ids, p: Principal) {
    exists j: nat, cid :: BodyReads(ops, ids, p, j, cid)
  }

  /** A plan that represents a layout, as it is read. */
  ghost predicate ReadsAs(l: Layout, ops: seq<Op>, ids: Ids) {
    && NamesKnown(l, ids)
    && (TenantNames(ops) == map[] <==> l.tenants == [])
    && (forall d :: d in ids.domains ==>
          && IsDomain(ops, ids.domains[d])
          && DomainTenant(ops, ids.domains[d]) == TenantRef(ids, Declared(l, d)))
    && (forall i :: 0 <= i < |l.principals| ==> IsRead(ops, ids, l.principals[i]))
    && (forall j: nat, cid :: IsPrincipalBody(ops, j, cid) ==>
          exists i :: 0 <= i < |l.principals| && BodyReads(ops, ids, l.principals[i], j, cid))
  }

  lemma MatchesReads(ids: Ids, p: Principal, body: Body)
    requires Matches(ids, p, body)
    ensures ReadsLike(ids, p, body)
  {
    hide DomainRefs, RefersTo, StringField, Says;
    SaysOne(body, "memberTenantId", TenantRef(ids, p.tenant));
    forall c
      ensures c in DomainRefs(body) <==> c in DomainIds(ids, p.domains)
    {
      RefersExactly(body, c);
    }
    assert DomainRefs(body) == DomainIds(ids, p.domains);
  }

  lemma PrincipalReads(ops: seq<Op>, j: nat, cid: string)
    ensures IsPrincipal(ops, j, cid) <==> IsPrincipalBody(ops, j, cid)
    ensures IsPrincipal(ops, j, cid) ==> CreateBodies(ops[j])[cid] == BodyIn(ops[j], cid)
  {
    hide ObjectName, CreateBodies;
    if j < |ops| {
      CreatesExactly(ops[j], "Account", cid);
      CreatesExactly(ops[j], "MailingList", cid);
    }
  }

  lemma DomainsRead(l: Layout, ops: seq<Op>, ids: Ids)
    requires NamesKnown(l, ids) && DomainsIn(l, ops, ids)
    ensures forall d :: d in ids.domains ==>
                          && IsDomain(ops, ids.domains[d])
                          && DomainTenant(ops, ids.domains[d]) == TenantRef(ids, Declared(l, d))
  {
    hide NamesKnown, Created, Owns, IsDomain, DomainTenant;
    NoNameless(l, ids);
    forall d | d in ids.domains
      ensures IsDomain(ops, ids.domains[d])
      ensures DomainTenant(ops, ids.domains[d]) == TenantRef(ids, Declared(l, d))
    {
      DomainExactly(ops, ids.domains[d]);
    }
  }

  lemma BodyFor(l: Layout, ops: seq<Op>, ids: Ids, i: nat) returns (j: nat, cid: string)
    requires PrincipalsIn(l, ops, ids) && i < |l.principals|
    ensures BodyReads(ops, ids, l.principals[i], j, cid)
  {
    hide BodyMatches, BodyReads;
    j, cid :| BodyMatches(ops, ids, l.principals[i], j, cid);
    MatchedReads(ops, ids, l.principals[i], j, cid);
  }

  lemma MatchedReads(ops: seq<Op>, ids: Ids, p: Principal, j: nat, cid: string)
    requires BodyMatches(ops, ids, p, j, cid)
    ensures BodyReads(ops, ids, p, j, cid)
  {
    hide Matches, ReadsLike, CreateBodies, ObjectName;
    PrincipalReads(ops, j, cid);
    MatchesReads(ids, p, CreateBodies(ops[j])[cid]);
  }

  lemma PrincipalsRead(l: Layout, ops: seq<Op>, ids: Ids)
    requires PrincipalsIn(l, ops, ids)
    ensures forall i :: 0 <= i < |l.principals| ==> IsRead(ops, ids, l.principals[i])
    ensures forall j: nat, cid :: IsPrincipalBody(ops, j, cid) ==>
              exists i :: 0 <= i < |l.principals| && BodyReads(ops, ids, l.principals[i], j, cid)
  {
    hide BodyMatches, BodyReads, IsPrincipalBody, PrincipalsIn;
    forall i | 0 <= i < |l.principals|
      ensures IsRead(ops, ids, l.principals[i])
    {
      var j, cid := BodyFor(l, ops, ids, i);
      assert BodyReads(ops, ids, l.principals[i], j, cid);
    }
    forall j: nat, cid | IsPrincipalBody(ops, j, cid)
      ensures exists i :: 0 <= i < |l.principals| && BodyReads(ops, ids, l.principals[i], j, cid)
    {
      var i := PrincipalFor(l, ops, ids, j, cid);
      assert 0 <= i < |l.principals| && BodyReads(ops, ids, l.principals[i], j, cid);
    }
  }

  lemma PrincipalFor(l: Layout, ops: seq<Op>, ids: Ids, j: nat, cid: string) returns (i: nat)
    requires PrincipalsIn(l, ops, ids) && IsPrincipalBody(ops, j, cid)
    ensures i < |l.principals| && BodyReads(ops, ids, l.principals[i], j, cid)
  {
    hide BodyMatches, BodyReads, CreateBodies, ObjectName, IsPrincipalOp, Creates;
    PrincipalReads(ops, j, cid);
    i :| 0 <= i < |l.principals| && BodyMatches(ops, ids, l.principals[i], j, cid);
    MatchedReads(ops, ids, l.principals[i], j, cid);
  }

  /** A plan that represents a layout reads as it. */
  lemma RepresentsReads(l: Layout, ops: seq<Op>, ids: Ids)
    requires Represents(l, ops, ids)
    ensures ReadsAs(l, ops, ids)
  {
    hide NamesKnown, DomainsIn, PrincipalsIn, IsDomain, DomainTenant, TenantNames, BodyReads, IsRead, IsPrincipalBody,
         Creates, TenantRef, Declared;
    TenantsCreated(ops, |ops|);
    NamesAreAll(ops);
    DomainsRead(l, ops, ids);
    PrincipalsRead(l, ops, ids);
  }

  lemma NamesAreAll(ops: seq<Op>)
    ensures TenantNames(ops) == TenantNamesUpTo(ops, |ops|)
  {
  }

  lemma NoNameless(l: Layout, ids: Ids)
    requires NamesKnown(l, ids)
    ensures "" !in ids.tenants
  {
  }

  lemma {:induction false} InLayoutWants(l: Layout, n: nat, w: Want)
    requires n <= |l.principals|
    ensures w in LayoutWantsUpTo(l, n) <==> exists i :: 0 <= i < n && w in PrincipalWants(l.principals[i])
  {
    hide PrincipalWants;
    if n > 0 {
      InLayoutWants(l, n - 1, w);
    }
  }

  function Image(ids: Ids, w: Want): Want {
    Want(if w.domain in ids.domains then ids.domains[w.domain] else "", TenantRef(ids, w.tenant))
  }

  /** A principal and its body want the same, up to naming. */
  lemma SameWants(l: Layout, ids: Ids, i: nat, body: Body)
    requires NamesKnown(l, ids) && i < |l.principals| && ReadsLike(ids, l.principals[i], body)
    ensures forall w :: w in PrincipalWants(l.principals[i]) ==> Image(ids, w) in WantsOfBody(body)
    ensures forall v :: v in WantsOfBody(body) ==>
              exists w :: w in PrincipalWants(l.principals[i]) && Image(ids, w) == v
  {
    hide DomainRefs, StringField;
    var p := l.principals[i];
    TenantRefFacts(l, ids, p.tenant);
    forall w | w in PrincipalWants(p)
      ensures Image(ids, w) in WantsOfBody(body)
    {
      assert ids.domains[w.domain] in DomainIds(ids, p.domains);
    }
    forall v | v in WantsOfBody(body)
      ensures exists w :: w in PrincipalWants(p) && Image(ids, w) == v
    {
      assert v.domain in DomainIds(ids, p.domains);
      var n :| n in p.domains && n in ids.domains && ids.domains[n] == v.domain;
      assert Want(n, p.tenant) in PrincipalWants(p);
      assert Image(ids, Want(n, p.tenant)) == v;
    }
  }

  lemma TenantRefFacts(l: Layout, ids: Ids, name: string)
    requires NamesKnown(l, ids) && (name == "" || name in ids.tenants)
    ensures TenantRef(ids, name) == "" <==> name == ""
    ensures name != "" ==> RefCid(TenantRef(ids, name)) == ids.tenants[name] != ""
  {
    if name != "" {
      assert TenantRef(ids, name)[1..] == ids.tenants[name];
    }
  }

  lemma BodyOf(l: Layout, ops: seq<Op>, ids: Ids, i: nat) returns (j: nat, cid: string)
    requires ReadsAs(l, ops, ids) && i < |l.principals|
    ensures NamesKnown(l, ids)
    ensures IsPrincipalBody(ops, j, cid) && ReadsLike(ids, l.principals[i], CreateBodies(ops[j])[cid])
  {
    hide ReadsLike, CreateBodies, IsPrincipalOp, NamesKnown, IsDomain, DomainTenant, TenantNames;
    var p := l.principals[i];
    j, cid :| BodyReads(ops, ids, p, j, cid);
  }

  lemma PrincipalOf(l: Layout, ops: seq<Op>, ids: Ids, j: nat, cid: string) returns (i: nat)
    requires ReadsAs(l, ops, ids) && IsPrincipalBody(ops, j, cid)
    ensures NamesKnown(l, ids)
    ensures i < |l.principals| && ReadsLike(ids, l.principals[i], CreateBodies(ops[j])[cid])
  {
    hide ReadsLike, CreateBodies, IsPrincipalOp;
    i :| 0 <= i < |l.principals| && BodyReads(ops, ids, l.principals[i], j, cid);
  }

  /** A plan's wants are the layout's, up to naming. */
  lemma WantsAgree(l: Layout, ops: seq<Op>, ids: Ids, w: Want)
    requires ReadsAs(l, ops, ids)
    ensures w in LayoutWantsUpTo(l, |l.principals|) ==>
              Image(ids, w) in Wants(ops) && w.domain in ids.domains && w.tenant in ids.tenants
    ensures w in Wants(ops) ==> exists v :: v in LayoutWantsUpTo(l, |l.principals|) && Image(ids, v) == w
  {
    hide CreateBodies, IsPrincipalBody, ReadsLike, WantsOfBody, ReadsAs, Image, Wants, NamesKnown, LayoutWantsUpTo;
    InLayoutWants(l, |l.principals|, w);
    if w in LayoutWantsUpTo(l, |l.principals|) {
      var i: nat :| i < |l.principals| && w in PrincipalWants(l.principals[i]);
      var j, cid := BodyOf(l, ops, ids, i);
      SameWants(l, ids, i, CreateBodies(ops[j])[cid]) by { BodyIsThere(ops, j, cid); }
      WantIn(ops, j, cid, Image(ids, w));
      WantIsNamed(l, ids, i, w);
    }
    if w in Wants(ops) {
      PlanWantComesFrom(l, ops, ids, w);
    }
  }

  lemma BodyIsThere(ops: seq<Op>, j: nat, cid: string)
    requires IsPrincipalBody(ops, j, cid)
    ensures j < |ops| && cid in CreateBodies(ops[j])
  {
  }

  lemma WantIsNamed(l: Layout, ids: Ids, i: nat, w: Want)
    requires NamesKnown(l, ids) && i < |l.principals| && w in PrincipalWants(l.principals[i])
    ensures w.domain in ids.domains && w.tenant in ids.tenants
  {
    assert w.domain in l.principals[i].domains;
  }

  lemma PlanWantComesFrom(l: Layout, ops: seq<Op>, ids: Ids, w: Want)
    requires ReadsAs(l, ops, ids) && w in Wants(ops)
    ensures exists v :: v in LayoutWantsUpTo(l, |l.principals|) && Image(ids, v) == w
  {
    hide CreateBodies, ReadsLike, WantsOfBody, ReadsAs, Image, NamesKnown, LayoutWantsUpTo;
    InWants(ops, |ops|, w);
    var j: nat, cid :| j < |ops| && IsPrincipalBody(ops, j, cid) && w in WantsOfBody(CreateBodies(ops[j])[cid]);
    var i := PrincipalOf(l, ops, ids, j, cid);
    SameWants(l, ids, i, CreateBodies(ops[j])[cid]);
    var v :| v in PrincipalWants(l.principals[i]) && Image(ids, v) == w;
    InLayoutWants(l, |l.principals|, v);
  }

  lemma WantIn(ops: seq<Op>, j: nat, cid: string, w: Want)
    requires IsPrincipalBody(ops, j, cid) && w in WantsOfBody(CreateBodies(ops[j])[cid])
    ensures w in Wants(ops)
  {
    hide CreateBodies, WantsOfBody, IsPrincipalOp;
    InWants(ops, |ops|, w);
  }

  /** The tenants wanted for a domain correspond one to one. */
  lemma WantedAgree(l: Layout, ops: seq<Op>, ids: Ids, d: string)
    requires Represents(l, ops, ids) && d in ids.domains
    ensures forall t :: t in LayoutWanted(l, d) ==> t in ids.tenants
    ensures Wanted(ops, ids.domains[d]) == set t | t in LayoutWanted(l, d) :: TenantRef(ids, t)
    ensures |Wanted(ops, ids.domains[d])| == |LayoutWanted(l, d)|
  {
    hide LayoutWantsUpTo, Wants, IsDomain, DomainTenant, TenantNames, Declared, IsPrincipalBody, ReadsLike,
         Represents;
    RepresentsReads(l, ops, ids);
    var dc := ids.domains[d];
    forall t | t in LayoutWanted(l, d)
      ensures t in ids.tenants && TenantRef(ids, t) in Wanted(ops, dc)
    {
      WantsAgree(l, ops, ids, Want(d, t));
      assert Image(ids, Want(d, t)) == Want(dc, TenantRef(ids, t));
    }
    forall r | r in Wanted(ops, dc)
      ensures exists t :: t in LayoutWanted(l, d) && TenantRef(ids, t) == r
    {
      assert Want(dc, r) in Wants(ops);
      WantsAgree(l, ops, ids, Want(dc, r));
      var v :| v in LayoutWantsUpTo(l, |l.principals|) && Image(ids, v) == Want(dc, r);
      WantsAgree(l, ops, ids, v);
      assert v.domain == d;
      assert v.tenant in LayoutWanted(l, d);
    }
    SameSize(l, ids, LayoutWanted(l, d));
  }

  lemma SameSize(l: Layout, ids: Ids, s: set<string>)
    requires NamesKnown(l, ids) && forall t :: t in s ==> t in ids.tenants
    ensures |set t | t in s :: TenantRef(ids, t)| == |s|
  {
    hide NamesKnown;
    if s == {} {
      assert (set t | t in s :: TenantRef(ids, t)) == {};
    } else {
      var x :| x in s;
      var rest := s - {x};
      SameSize(l, ids, rest);
      forall t | t in rest
        ensures TenantRef(ids, t) != TenantRef(ids, x)
      {
        RefsDiffer(l, ids, t, x);
      }
      assert (set t | t in s :: TenantRef(ids, t)) == (set t | t in rest :: TenantRef(ids, t)) + {TenantRef(ids, x)};
    }
  }

  lemma RefsDiffer(l: Layout, ids: Ids, t: string, u: string)
    requires NamesKnown(l, ids) && t in ids.tenants && u in ids.tenants && t != u
    ensures TenantRef(ids, t) != TenantRef(ids, u) && RefCid(TenantRef(ids, t)) != RefCid(TenantRef(ids, u))
  {
    assert TenantRef(ids, t)[1..] == ids.tenants[t] && TenantRef(ids, u)[1..] == ids.tenants[u];
  }

  /** The verdict on a domain is its forecast. */
  lemma VerdictAgrees(l: Layout, ops: seq<Op>, ids: Ids, d: string)
    requires Represents(l, ops, ids) && d in ids.domains && LayoutWanted(l, d) != {}
    ensures var v, f := VerdictOf(ops, ids.domains[d]), ForecastOf(l, d);
            && (v.Adopt? <==> f.Adoption?)
            && (IsConflict(v) <==> f.Shared? || f.Foreign?)
  {
    hide Wanted, LayoutWanted, IsDomain, DomainTenant, TenantNames, Declared, IsPrincipalBody, ReadsLike, TenantRef,
         Represents;
    RepresentsReads(l, ops, ids);
    WantedAgree(l, ops, ids, d);
    assert IsDomain(ops, ids.domains[d]);
    if |LayoutWanted(l, d)| == 1 {
      var want :| want in LayoutWanted(l, d);
      OnlyElement(LayoutWanted(l, d), want);
      assert TenantRef(ids, want) in Wanted(ops, ids.domains[d]);
      OnlyElement(Wanted(ops, ids.domains[d]), TenantRef(ids, want));
      WantedIsNamed(l, ids, d, want);
      DeclaredIsNamed(l, ids, d);
      TenantRefFacts(l, ids, want);
      TenantRefFacts(l, ids, Declared(l, d));
      if Declared(l, d) != "" && Declared(l, d) != want {
        RefsDiffer(l, ids, Declared(l, d), want);
      }
    }
  }

  lemma DeclaredIsNamed(l: Layout, ids: Ids, d: string)
    requires NamesKnown(l, ids)
    ensures Declared(l, d) == "" || Declared(l, d) in ids.tenants
  {
  }

  lemma WantedIsNamed(l: Layout, ids: Ids, d: string, t: string)
    requires NamesKnown(l, ids) && t in ids.tenants
    ensures t != ""
  {
  }

  lemma LayoutUsedMembers(l: Layout, d: string)
    requires l.tenants != []
    ensures d in LayoutUsed(l) <==> LayoutWanted(l, d) != {}
  {
    hide LayoutWantsUpTo;
    if LayoutWanted(l, d) != {} {
      var t :| t in LayoutWanted(l, d);
      assert Want(d, t) in LayoutWantsUpTo(l, |l.principals|);
    }
    if d in LayoutUsed(l) {
      var w :| w in LayoutWantsUpTo(l, |l.principals|) && w.domain == d;
      assert w.tenant in LayoutWanted(l, d);
    }
  }

  lemma {:induction false} LayoutPicked(l: Layout, ds: seq<string>)
    ensures forall d :: d in Adopted(l, ds) <==> d in ds && ForecastOf(l, d).Adoption?
    ensures forall d :: d in Troubled(l, ds) <==> d in ds && (ForecastOf(l, d).Shared? || ForecastOf(l, d).Foreign?)
  {
    hide ForecastOf;
    if ds != [] {
      var n := |ds| - 1;
      LayoutPicked(l, ds[..n]);
      assert forall d :: d in ds <==> d == ds[n] || d in ds[..n];
    }
  }

  /** A used domain of the plan is the client-id of a used domain of the layout. */
  lemma UsedAgree(l: Layout, ops: seq<Op>, ids: Ids)
    requires ReadsAs(l, ops, ids)
    ensures forall d :: d in LayoutUsed(l) ==> d in ids.domains && ids.domains[d] in Used(ops)
    ensures forall c :: c in Used(ops) ==> exists d :: d in LayoutUsed(l) && d in ids.domains && ids.domains[d] == c
  {
    hide LayoutWantsUpTo, Wants, IsDomain, DomainTenant, TenantNames, Declared, IsPrincipalBody, ReadsLike, Sorted;
    if l.tenants != [] {
      forall d | d in LayoutUsed(l)
        ensures d in ids.domains && ids.domains[d] in Used(ops)
      {
        LayoutUsedMembers(l, d);
        var t :| t in LayoutWanted(l, d);
        WantsAgree(l, ops, ids, Want(d, t));
        UsedMembers(ops, ids.domains[d]);
        assert TenantRef(ids, t) in Wanted(ops, ids.domains[d]);
      }
      forall c | c in Used(ops)
        ensures exists d :: d in LayoutUsed(l) && d in ids.domains && ids.domains[d] == c
      {
        UsedMembers(ops, c);
        var t :| t in Wanted(ops, c);
        WantsAgree(l, ops, ids, Want(c, t));
        var v :| v in LayoutWantsUpTo(l, |l.principals|) && Image(ids, v) == Want(c, t);
        WantsAgree(l, ops, ids, v);
        assert v.tenant in LayoutWanted(l, v.domain);
        LayoutUsedMembers(l, v.domain);
      }
    } else {
      NothingUsedAtAll(l, ops);
    }
  }

  lemma NothingUsedAtAll(l: Layout, ops: seq<Op>)
    requires l.tenants == [] && TenantNames(ops) == map[]
    ensures LayoutUsed(l) == [] && Used(ops) == []
  {
    SortedSize({});
  }

  /** The domains Analyze lists as adoptions are exactly those reconciliation
      adopts, and the ones it lists as problems exactly those that conflict. */
  lemma PredictorAgrees(l: Layout, ops: seq<Op>, ids: Ids)
    requires Represents(l, ops, ids)
    ensures forall d :: d in Adopted(l, LayoutUsed(l)) || d in Troubled(l, LayoutUsed(l)) ==> d in ids.domains
    ensures Elements(Adopters(ops, Used(ops))) == DomainIds(ids, Adopted(l, LayoutUsed(l)))
    ensures Elements(Conflicting(ops, Used(ops))) == DomainIds(ids, Troubled(l, LayoutUsed(l)))
  {
    hide LayoutUsed, Used, Adopters, Conflicting, Adopted, Troubled, VerdictOf, ForecastOf, LayoutWanted, ReadsAs,
         Represents;
    RepresentsReads(l, ops, ids);
    UsedAgree(l, ops, ids);
    PickedMembers(ops, Used(ops));
    LayoutPicked(l, LayoutUsed(l));
    forall d | d in LayoutUsed(l)
      ensures VerdictOf(ops, ids.domains[d]).Adopt? <==> ForecastOf(l, d).Adoption?
      ensures IsConflict(VerdictOf(ops, ids.domains[d])) <==> ForecastOf(l, d).Shared? || ForecastOf(l, d).Foreign?
    {
      UsedIsWantedHere(l, d);
      VerdictAgrees(l, ops, ids, d);
    }
  }

  lemma UsedIsWantedHere(l: Layout, d: string)
    requires d in LayoutUsed(l)
    ensures LayoutWanted(l, d) != {}
  {
    var k :| 0 <= k < |LayoutUsed(l)| && LayoutUsed(l)[k] == d;
    LayoutUsedWanted(l, LayoutUsed(l), k);
  }

  /** Preflight passes the layout exactly when the converted plan can be made
      consistent. */
  lemma PreflightDecides(l: Layout, ops: seq<Op>, ids: Ids)
    requires Represents(l, ops, ids)
    ensures Troubled(l, LayoutUsed(l)) == [] <==> NoConflict(ops)
  {
    hide ReadsAs, Represents, LayoutUsed, Used, Troubled, Conflicting;
    RepresentsReads(l, ops, ids);
    PredictorAgrees(l, ops, ids);
    var a, b := Troubled(l, LayoutUsed(l)), Conflicting(ops, Used(ops));
    EmptyImage(ids, a);
    EmptyElements(b);
  }

  lemma EmptyImage(ids: Ids, a: seq<string>)
    requires forall d :: d in a ==> d in ids.domains
    ensures DomainIds(ids, a) == {} <==> a == []
  {
    if a != [] {
      assert a[0] in a;
      assert ids.domains[a[0]] in DomainIds(ids, a);
    } else {
      assert DomainIds(ids, a) == {};
    }
  }

  lemma EmptyElements(b: seq<string>)
    ensures Elements(b) == {} <==> b == []
  {
    if b != [] {
      assert b[0] in Elements(b);
    } else {
      assert Elements(b) == {};
    }
  }
}
