/** ReconcileDomainTenants: making every domain's tenant agree with the
    principals that use it, in place (internal/applyplan/tenants.go). */
module Reconcile {
  import opened Prelude
  import opened Order
  import opened ApplyPlan

  /** A principal, as results name it. */
  datatype Label = Label(kind: string, name: string)

  datatype Adoption = Adoption(domain: string, tenant: string, because: Label)

  /** Why a domain conflicts: its users disagree, or its owner disagrees with them. */
  datatype Conflict =
    | Contested(domain: string, tenants: seq<string>, examples: seq<Label>)
    | OwnedByOther(domain: string, tenants: seq<string>, because: Label)

  /** What reconciliation decides about a domain that tenant-scoped principals use. */
  datatype Verdict =
    | NotInPlan
    | Split
    | Agrees
    | Owned(current: string, want: string)
    | Adopt(tenant: string)

  function Judge(current: string, want: string): Verdict {
    if RefCid(current) == RefCid(want) then Agrees
    else if current != "" then Owned(current, want)
    else Adopt(want)
  }

  ghost function TheOnly(s: set<string>): string
    requires |s| == 1
  {
    var t :| t in s; t
  }

  /** The tenants wanted for d by the principals of a plan. */
  function Wanted(ops: seq<Op>, d: string): set<string> {
    WantedOf(Wants(ops), d)
  }

  ghost function VerdictOf(ops: seq<Op>, d: string): Verdict {
    if !IsDomain(ops, d) then NotInPlan
    else if |Wanted(ops, d)| != 1 then Split
    else Judge(DomainTenant(ops, d), TheOnly(Wanted(ops, d)))
  }

  /** The domains reconciliation looks at, in the order it does: none when the
      plan creates no tenant, since then nothing can mismatch. */
  ghost function Used(ops: seq<Op>): seq<string> {
    Sorted(if TenantNames(ops) == map[] then {} else set w | w in Wants(ops) :: w.domain)
  }

  /** The domains of ds that adopt a tenant. */
  ghost function Adopters(ops: seq<Op>, ds: seq<string>): seq<string> {
    if ds == [] then []
    else
      var d := ds[|ds| - 1];
      Adopters(ops, ds[..|ds| - 1]) + if VerdictOf(ops, d).Adopt? then [d] else []
  }

  predicate IsConflict(v: Verdict) {
    v.Split? || v.Owned?
  }

  ghost function Conflicting(ops: seq<Op>, ds: seq<string>): seq<string> {
    if ds == [] then []
    else
      var d := ds[|ds| - 1];
      Conflicting(ops, ds[..|ds| - 1]) + if IsConflict(VerdictOf(ops, d)) then [d] else []
  }

  /** The plan once the domains of ds that adopt a tenant have been given it. */
  ghost function Repaired(ops: seq<Op>, ds: seq<string>): seq<Op> {
    if ds == [] then ops
    else
      var d := ds[|ds| - 1];
      var before := Repaired(ops, ds[..|ds| - 1]);
      if VerdictOf(ops, d).Adopt? && IsDomain(before, d) then SetTenant(before, d, VerdictOf(ops, d).tenant) else before
  }

  function DomainName(ops: seq<Op>, d: string): string
    requires IsDomain(ops, d)
  {
    var name := StringField(DomainBody(ops, d), NAME);
    if name == "" then d else name
  }

  function TenantName(names: map<string, string>, ref: string): string {
    var cid := RefCid(ref);
    if cid in names && names[cid] != "" then names[cid] else cid
  }

  /** Whether who is a principal that makes the want. */
  ghost predicate IsExample(ops: seq<Op>, w: Want, who: Label) {
    exists i, cid :: 0 <= i < |ops| && IsPrincipalOp(ops[i]) && cid in CreateBodies(ops[i])
      && w in WantsOfBody(CreateBodies(ops[i])[cid])
      && who == Label(ObjectName(ops[i]), StringField(CreateBodies(ops[i])[cid], NAME))
  }

  /** What an adoption reports. */
  ghost predicate Reports(ops: seq<Op>, d: string, a: Adoption) {
    && VerdictOf(ops, d).Adopt?
    && a.domain == DomainName(ops, d)
    && a.tenant == TenantName(TenantNames(ops), VerdictOf(ops, d).tenant)
    && IsExample(ops, Want(d, VerdictOf(ops, d).tenant), a.because)
  }

  ghost function NamesOf(ops: seq<Op>, ts: seq<string>): seq<string> {
    seq(|ts|, i requires 0 <= i < |ts| => TenantName(TenantNames(ops), ts[i]))
  }

  /** What a conflict reports: every tenant wanted, each with an example, or the
      owner and the tenant wanted instead. */
  ghost predicate Explains(ops: seq<Op>, d: string, c: Conflict) {
    match VerdictOf(ops, d)
    case Split =>
      var ts := Sorted(Wanted(ops, d));
      && c.Contested? && c.domain == DomainName(ops, d) && c.tenants == NamesOf(ops, ts) && |c.examples| == |ts|
      && forall i :: 0 <= i < |ts| ==> IsExample(ops, Want(d, ts[i]), c.examples[i])
    case Owned(current, want) =>
      && c.OwnedByOther? && c.domain == DomainName(ops, d) && c.tenants == NamesOf(ops, [current, want])
      && IsExample(ops, Want(d, want), c.because)
    case _ => false
  }

  ghost predicate AllReported(ops: seq<Op>, ds: seq<string>, adoptions: seq<Adoption>) {
    |adoptions| == |ds| && forall i :: 0 <= i < |ds| ==> Reports(ops, ds[i], adoptions[i])
  }

  ghost predicate AllExplained(ops: seq<Op>, ds: seq<string>, conflicts: seq<Conflict>) {
    |conflicts| == |ds| && forall i :: 0 <= i < |ds| ==> Explains(ops, ds[i], conflicts[i])
  }

  // ------------------------------------------------------------ repair, framed

  lemma SameShapeTransitive(a: seq<Op>, b: seq<Op>, c: seq<Op>)
    requires SameShape(a, b) && SameShape(b, c)
    ensures SameShape(a, c)
  {
    hide ObjectName, CreateBodies;
    forall i | 0 <= i < |a| && !IsDomainOp(a[i])
      ensures a[i] == c[i]
    {
      SameNameSameKind(a[i], b[i]);
    }
  }

  /** The repair keeps every read but the tenants of the adopting domains, and of
      those it changes that one field. */
  lemma {:induction false} RepairedFrame(ops: seq<Op>, ds: seq<string>)
    ensures SameShape(ops, Repaired(ops, ds))
    ensures forall e :: IsDomain(Repaired(ops, ds), e) == IsDomain(ops, e)
    ensures TenantNames(Repaired(ops, ds)) == TenantNames(ops)
    ensures Wants(Repaired(ops, ds)) == Wants(ops)
    ensures forall e :: IsDomain(ops, e) ==>
              DomainBody(Repaired(ops, ds), e)
              == if e in ds && VerdictOf(ops, e).Adopt?
                 then DomainBody(ops, e)[MEMBER_TENANT := Str(VerdictOf(ops, e).tenant)]
                 else DomainBody(ops, e)
  {
    hide DomainBody, IsDomain, SetTenant, Wants, TenantNames, VerdictOf, SameShape;
    if ds == [] {
      SameShapeItself(ops);
    } else {
      var n := |ds| - 1;
      var d, before := ds[n], Repaired(ops, ds[..n]);
      RepairedFrame(ops, ds[..n]);
      assert forall e :: e in ds <==> e == d || e in ds[..n];
      if VerdictOf(ops, d).Adopt? && IsDomain(before, d) {
        var t := VerdictOf(ops, d).tenant;
        SetTenantFrame(before, d, t);
        SameShapeTransitive(ops, before, SetTenant(before, d, t));
        assert DomainBody(ops, d)[MEMBER_TENANT := Str(t)][MEMBER_TENANT := Str(t)]
               == DomainBody(ops, d)[MEMBER_TENANT := Str(t)];
      } else {
        VerdictDomain(ops, d);
      }
    }
  }

  lemma SameShapeItself(ops: seq<Op>)
    ensures SameShape(ops, ops)
  {
  }

  lemma VerdictDomain(ops: seq<Op>, d: string)
    ensures IsDomain(ops, d) <==> !VerdictOf(ops, d).NotInPlan?
  {
  }

  // ----------------------------------------------------------------- the pass

  /** What the principals seen so far want: per want, an example. */
  type Required = map<Want, Label>

  ghost predicate Exemplified(ops: seq<Op>, required: Required) {
    forall w :: w in required ==> IsExample(ops, w, required[w])
  }

  function BodyWants(bodies: map<string, Body>, cids: set<string>): set<Want> {
    set cid, w | cid in cids && cid in bodies && w in WantsOfBody(bodies[cid]) :: w
  }

  function WantsFor(refs: set<string>, tenant: string): set<Want> {
    set d | d in refs :: Want(d, tenant)
  }

  lemma WantsForNext(refs: set<string>, d: string, tenant: string)
    ensures WantsFor(refs + {d}, tenant) == WantsFor(refs, tenant) + {Want(d, tenant)}
  {
  }

  /** Every want of a principal's body has that principal as an example. */
  lemma BodyIsExample(ops: seq<Op>, i: nat, cid: string)
    requires i < |ops| && IsPrincipalOp(ops[i]) && cid in CreateBodies(ops[i])
    ensures var body := CreateBodies(ops[i])[cid];
            forall w :: w in WantsOfBody(body) ==> IsExample(ops, w, Label(ObjectName(ops[i]), StringField(body, NAME)))
  {
    hide IsPrincipalOp, ObjectName, CreateBodies, WantsOfBody, StringField;
  }

  lemma WantsOfBodyAre(body: Body)
    ensures WantsOfBody(body)
            == if StringField(body, MEMBER_TENANT) == "" then {}
               else WantsFor(DomainRefs(body), StringField(body, MEMBER_TENANT))
  {
    hide DomainRefs, StringField;
  }

  /** Adds the wants of one body, keeping the first example of each. */
  method CollectBody(ghost ops: seq<Op>, ghost i: nat, kind: string, cid: string, body: Body, before: Required)
    returns (required: Required)
    requires i < |ops| && IsPrincipalOp(ops[i]) && kind == ObjectName(ops[i])
    requires cid in CreateBodies(ops[i]) && body == CreateBodies(ops[i])[cid]
    requires Exemplified(ops, before)
    ensures Exemplified(ops, required)
    ensures required.Keys == before.Keys + WantsOfBody(body)
  {
    hide IsPrincipalOp, ObjectName, CreateBodies, DomainRefs, StringField, IsExample, WantsOfBody, WantsFor;
    BodyIsExample(ops, i, cid);
    WantsOfBodyAre(body);
    required := before;
    var tenant := StringField(body, MEMBER_TENANT);
    if tenant == "" {
      return;
    }
    var who := Label(kind, StringField(body, NAME));
    var rest := DomainRefs(body);
    ghost var done := {};
    assert WantsFor({}, tenant) == {} by { NoWantsFor(tenant); }
    while rest != {}
      invariant done + rest == DomainRefs(body)
      invariant Exemplified(ops, required)
      invariant required.Keys == before.Keys + WantsFor(done, tenant)
      decreases rest
    {
      var d :| d in rest;
      WantsForNext(done, d, tenant);
      InWantsFor(DomainRefs(body), d, tenant);
      rest := rest - {d};
      done := done + {d};
      if Want(d, tenant) !in required {
        required := required[Want(d, tenant) := who];
      }
    }
  }

  lemma NoWantsFor(tenant: string)
    ensures WantsFor({}, tenant) == {}
  {
  }

  lemma InWantsFor(refs: set<string>, d: string, tenant: string)
    requires d in refs
    ensures Want(d, tenant) in WantsFor(refs, tenant)
  {
  }

  /** Adds the wants of every body of one operation, in any order. */
  method CollectOp(ghost ops: seq<Op>, ghost i: nat, op: Op, before: Required) returns (required: Required)
    requires i < |ops| && op == ops[i] && IsPrincipalOp(op)
    requires Exemplified(ops, before)
    ensures Exemplified(ops, required)
    ensures required.Keys == before.Keys + WantsOfOp(op)
  {
    hide IsPrincipalOp, ObjectName, CreateBodies, WantsOfBody, IsExample, BodyWants, WantsOfOp;
    required := before;
    var bodies := CreateBodies(op);
    var rest := bodies.Keys;
    ghost var done := {};
    NoBodyWants(bodies);
    while rest != {}
      invariant done + rest == bodies.Keys
      invariant Exemplified(ops, required)
      invariant required.Keys == before.Keys + BodyWants(bodies, done)
      decreases rest
    {
      var cid :| cid in rest;
      required := CollectBody(ops, i, ObjectName(op), cid, bodies[cid], required);
      BodyWantsNext(bodies, done, cid);
      rest := rest - {cid};
      done := done + {cid};
    }
    AllBodyWants(op);
  }

  lemma NoBodyWants(bodies: map<string, Body>)
    ensures BodyWants(bodies, {}) == {}
  {
  }

  lemma BodyWantsNext(bodies: map<string, Body>, done: set<string>, cid: string)
    requires cid in bodies
    ensures BodyWants(bodies, done + {cid}) == BodyWants(bodies, done) + WantsOfBody(bodies[cid])
  {
    hide WantsOfBody;
  }

  lemma AllBodyWants(op: Op)
    requires IsPrincipalOp(op)
    ensures WantsOfOp(op) == BodyWants(CreateBodies(op), CreateBodies(op).Keys)
  {
    hide IsPrincipalOp, WantsOfBody, CreateBodies;
  }

  method Collect(ops: seq<Op>) returns (required: Required)
    ensures Exemplified(ops, required)
    ensures required.Keys == Wants(ops)
  {
    hide IsPrincipalOp, IsExample, ObjectName, CreateBodies, WantsOfBody;
    required := map[];
    for i := 0 to |ops|
      invariant Exemplified(ops, required)
      invariant required.Keys == WantsUpTo(ops, i)
    {
      if IsPrincipalOp(ops[i]) {
        required := CollectOp(ops, i, ops[i], required);
      } else {
        assert WantsOfOp(ops[i]) == {};
      }
    }
  }

  /** The index of the domains and the tenant names: one pass over the plan. */
  method Index(ops: seq<Op>) returns (domains: map<string, nat>, names: map<string, string>)
    ensures forall d :: d in domains <==> IsDomain(ops, d)
    ensures forall d :: d in domains ==> domains[d] == DomainOpOf(ops, d, |ops|)
    ensures names == TenantNames(ops)
  {
    hide ObjectName, CreateBodies, StringField, IsDomainOp, IsTenantOp;
    domains, names := map[], map[];
    for i := 0 to |ops|
      invariant forall d :: d in domains <==> DomainOpOf(ops, d, i) >= 0
      invariant forall d :: d in domains ==> domains[d] == DomainOpOf(ops, d, i)
      invariant names == TenantNamesUpTo(ops, i)
    {
      OpKinds(ops[i]);
      if IsDomainOp(ops[i]) {
        var bodies := CreateBodies(ops[i]);
        domains := domains + map d | d in bodies :: i;
      } else if IsTenantOp(ops[i]) {
        names := names + TenantsOfOp(ops[i]);
      }
    }
  }

  lemma OpKinds(op: Op)
    ensures IsDomainOp(op) ==> !IsTenantOp(op)
    ensures !IsTenantOp(op) ==> forall names: map<string, string> :: names + TenantsOfOp(op) == names
  {
    if IsDomainOp(op) {
      DomainOpOnly(op);
    }
  }

  lemma NotBefore(ds: seq<string>, k: nat)
    requires Ascending(ds) && k < |ds|
    ensures ds[k] !in ds[..k]
  {
    if ds[k] in ds[..k] {
      var i :| 0 <= i < k && ds[i] == ds[k];
      AscendingDistinct(ds, i, k);
      assert false;
    }
  }

  lemma {:induction false} NoDomains(ops: seq<Op>, ds: seq<string>)
    requires forall d :: !IsDomain(ops, d)
    ensures Repaired(ops, ds) == ops && Adopters(ops, ds) == [] && Conflicting(ops, ds) == []
  {
    hide IsDomain;
    if ds != [] {
      NoDomains(ops, ds[..|ds| - 1]);
    }
  }

  /** The tenants a map of wants has for one domain. */
  method TenantsFor(required: Required, d: string) returns (tenants: seq<string>)
    ensures tenants == Sorted(WantedOf(required.Keys, d))
  {
    tenants := SortKeys(set w | w in required && w.domain == d :: w.tenant);
    assert (set w | w in required && w.domain == d :: w.tenant) == WantedOf(required.Keys, d);
  }

  /** Decides one domain: adopt a tenant, report a conflict, or leave it. */
  method Decide(ghost ops: seq<Op>, d: string, body: Body, names: map<string, string>, required: Required)
    returns (verdict: Verdict, adoption: Option<Adoption>, conflict: Option<Conflict>)
    requires IsDomain(ops, d) && body == DomainBody(ops, d) && names == TenantNames(ops)
    requires required.Keys == Wants(ops) && Exemplified(ops, required) && Wanted(ops, d) != {}
    ensures verdict == VerdictOf(ops, d)
    ensures verdict.Adopt? <==> adoption.Some?
    ensures adoption.Some? ==> Reports(ops, d, adoption.value)
    ensures IsConflict(verdict) <==> conflict.Some?
    ensures conflict.Some? ==> Explains(ops, d, conflict.value)
  {
    hide Wants, DomainBody, IsDomain, TenantNames, TenantName, Sorted, IsExample, StringField;
    adoption, conflict := None, None;
    var name := StringField(body, NAME);
    if name == "" {
      name := d;
    }
    assert name == DomainName(ops, d);
    var wanted := TenantsFor(required, d);
    SortedSize(Wanted(ops, d));
    assert forall t :: t in wanted ==> Want(d, t) in required;
    if |wanted| > 1 {
      var tenants, examples := [], [];
      for i := 0 to |wanted|
        invariant tenants == NamesOf(ops, wanted[..i])
        invariant |examples| == i
        invariant forall j :: 0 <= j < i ==> IsExample(ops, Want(d, wanted[j]), examples[j])
      {
        assert wanted[i] in wanted;
        assert Want(d, wanted[i]) in required;
        tenants := tenants + [TenantName(names, wanted[i])];
        examples := examples + [required[Want(d, wanted[i])]];
      }
      assert wanted[..|wanted|] == wanted;
      verdict := Split;
      conflict := Some(Contested(name, tenants, examples));
      return;
    }
    var tenant := wanted[0];
    assert tenant in wanted;
    OnlyElement(Wanted(ops, d), tenant);
    assert Want(d, tenant) in required;
    var because := required[Want(d, tenant)];
    var current := StringField(body, MEMBER_TENANT);
    verdict := Judge(current, tenant);
    if RefCid(current) == RefCid(tenant) {
      return;
    }
    if current != "" {
      conflict := Some(OwnedByOther(name, [TenantName(names, current), TenantName(names, tenant)], because));
      return;
    }
    adoption := Some(Adoption(name, TenantName(names, tenant), because));
  }

  lemma PrefixNext(ops: seq<Op>, ds: seq<string>, k: nat)
    requires k < |ds|
    ensures var d, before := ds[k], Repaired(ops, ds[..k]);
            Repaired(ops, ds[..k + 1])
            == if VerdictOf(ops, d).Adopt? && IsDomain(before, d) then SetTenant(before, d, VerdictOf(ops, d).tenant)
               else before
    ensures var a := Adopters(ops, ds[..k]);
            Adopters(ops, ds[..k + 1]) == if VerdictOf(ops, ds[k]).Adopt? then a + [ds[k]] else a
    ensures var c := Conflicting(ops, ds[..k]);
            Conflicting(ops, ds[..k + 1]) == if IsConflict(VerdictOf(ops, ds[k])) then c + [ds[k]] else c
  {
    hide VerdictOf, IsDomain, SetTenant;
    assert ds[..k + 1][..k] == ds[..k];
  }

  /** Before domain k is decided its body is as the plan had it. */
  lemma UntouchedSoFar(ops: seq<Op>, ds: seq<string>, k: nat, domains: map<string, nat>)
    requires Ascending(ds) && k < |ds| && ds[k] in domains
    requires IsDomain(ops, ds[k]) && domains[ds[k]] == DomainOpOf(ops, ds[k], |ops|)
    ensures var now := Repaired(ops, ds[..k]);
            && |now| == |ops| && domains[ds[k]] < |now|
            && ds[k] in CreateBodies(now[domains[ds[k]]])
            && CreateBodies(now[domains[ds[k]]])[ds[k]] == DomainBody(ops, ds[k])
            && IsDomain(now, ds[k])
  {
    hide CreateBodies, VerdictOf, Repaired, WantsUpTo, TenantNamesUpTo;
    NotBefore(ds, k);
    RepairedFrame(ops, ds[..k]);
    SameShapeReads(ops, Repaired(ops, ds[..k]), |ops|);
  }

  /** The pass has decided the domains ds. */
  ghost predicate Settled(start: seq<Op>, ds: seq<string>, ops: seq<Op>, adoptions: seq<Adoption>,
        conflicts: seq<Conflict>) {
    && ops == Repaired(start, ds)
    && AllReported(start, Adopters(start, ds), adoptions)
    && AllExplained(start, Conflicting(start, ds), conflicts)
  }

  /** The body of the loop over domains: decides one and applies the decision. */
  method ReconcileOne(ghost start: seq<Op>, cids: seq<string>, k: nat, ops: seq<Op>,
                      domains: map<string, nat>, names: map<string, string>, required: Required,
                      ghost adoptions: seq<Adoption>, ghost conflicts: seq<Conflict>)
    returns (after: seq<Op>, adoption: seq<Adoption>, conflict: seq<Conflict>)
    requires k < |cids| && cids == Used(start)
    requires forall d :: d in domains <==> IsDomain(start, d)
    requires forall d :: d in domains ==> domains[d] == DomainOpOf(start, d, |start|)
    requires names == TenantNames(start) && required.Keys == Wants(start) && Exemplified(start, required)
    requires Settled(start, cids[..k], ops, adoptions, conflicts)
    ensures Settled(start, cids[..k + 1], after, adoptions + adoption, conflicts + conflict)
  {
    hide Wants, DomainBody, IsDomain, TenantNames, Sorted, Explains, Reports, VerdictOf, DomainOpOf, Repaired,
         Adopters, Conflicting,
      CreateBodies, SetTenant, AllReported, AllExplained, Used, Wanted, Exemplified;
    var d := cids[k];
    after, adoption, conflict := ops, [], [];
    assert adoptions + [] == adoptions && conflicts + [] == conflicts;
    PrefixNext(start, cids, k);
    if d in domains {
      UsedAscending(start);
      UntouchedSoFar(start, cids, k, domains);
      UsedIsWanted(start, cids, k);
      var verdict, a, c := Decide(start, d, CreateBodies(ops[domains[d]])[d], names, required);
      if a.Some? {
        after := SetTenant(ops, d, verdict.tenant);
        adoption := [a.value];
        ReportedNext(start, Adopters(start, cids[..k]), adoptions, d, a.value);
      } else if c.Some? {
        conflict := [c.value];
        ExplainedNext(start, Conflicting(start, cids[..k]), conflicts, d, c.value);
      }
    } else {
      VerdictDomain(start, d);
    }
  }

  class Plan {
    var ops: seq<Op>

    constructor (ops: seq<Op>)
      ensures this.ops == ops
    {
      this.ops := ops;
    }

    /** Repairs the plan in place and reports what it did and could not do. */
    method ReconcileDomainTenants() returns (adoptions: seq<Adoption>, conflicts: seq<Conflict>)
      modifies this
      ensures ops == Repaired(old(ops), Used(old(ops)))
      ensures AllReported(old(ops), Adopters(old(ops), Used(old(ops))), adoptions)
      ensures AllExplained(old(ops), Conflicting(old(ops), Used(old(ops))), conflicts)
    {
      hide Wants, IsDomain, TenantNames, Sorted, DomainOpOf, Repaired, Adopters, Conflicting, AllReported,
           AllExplained, Used, Exemplified;
      adoptions, conflicts := [], [];
      var domains, names := Index(ops);
      NothingReported(ops);
      if names == map[] {
        NothingUsed(ops);
        return;
      }
      if domains == map[] {
        NoDomains(ops, Used(ops));
        return;
      }
      var required := Collect(ops);
      var cids := SortKeys(set w | w in required :: w.domain);
      UsedIs(ops, required);
      EmptyPrefix(ops);

      ghost var start := ops;
      for k := 0 to |cids|
        invariant Settled(start, cids[..k], ops, adoptions, conflicts)
      {
        var adoption, conflict;
        ops, adoption, conflict := ReconcileOne(start, cids, k, ops, domains, names, required, adoptions, conflicts);
        adoptions := adoptions + adoption;
        conflicts := conflicts + conflict;
      }
      assert cids[..|cids|] == cids;
    }
  }

  lemma ReportedNext(ops: seq<Op>, ds: seq<string>, adoptions: seq<Adoption>, d: string, a: Adoption)
    requires AllReported(ops, ds, adoptions) && Reports(ops, d, a)
    ensures AllReported(ops, ds + [d], adoptions + [a])
  {
    hide Reports;
  }

  lemma ExplainedNext(ops: seq<Op>, ds: seq<string>, conflicts: seq<Conflict>, d: string, c: Conflict)
    requires AllExplained(ops, ds, conflicts) && Explains(ops, d, c)
    ensures AllExplained(ops, ds + [d], conflicts + [c])
  {
    hide Explains;
  }

  lemma NothingReported(ops: seq<Op>)
    ensures AllReported(ops, [], []) && AllExplained(ops, [], [])
  {
  }

  lemma UsedAscending(ops: seq<Op>)
    ensures Ascending(Used(ops))
  {
  }

  lemma NothingUsed(ops: seq<Op>)
    requires TenantNames(ops) == map[]
    ensures Used(ops) == []
    ensures Repaired(ops, []) == ops && Adopters(ops, []) == [] && Conflicting(ops, []) == []
  {
    SortedSize({});
  }

  lemma EmptyPrefix(ops: seq<Op>)
    ensures Repaired(ops, []) == ops && Adopters(ops, []) == [] && Conflicting(ops, []) == []
  {
  }

  lemma UsedIs(ops: seq<Op>, required: Required)
    requires TenantNames(ops) != map[] && required.Keys == Wants(ops)
    ensures Used(ops) == Sorted(set w | w in required :: w.domain)
  {
    hide Sorted, Wants, TenantNames;
    assert (set w | w in required :: w.domain) == (set w | w in Wants(ops) :: w.domain);
  }

  lemma UsedIsWanted(ops: seq<Op>, ds: seq<string>, k: nat)
    requires ds == Used(ops) && k < |ds|
    ensures Wanted(ops, ds[k]) != {} && TenantNames(ops) != map[]
  {
    hide Wants, TenantNames;
    assert ds[k] in ds;
    var w :| w in Wants(ops) && w.domain == ds[k];
    assert w.tenant in Wanted(ops, ds[k]);
  }
}
