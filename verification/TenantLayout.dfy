/** The preflight predictor: who belongs to which tenant on a v0.15 instance, and
    what the conversion will have to do about it
    (internal/stalwartapi/tenantlayout.go). */
module TenantLayout {
  import opened Prelude
  import opened Text
  import opened Order
  import opened ApplyPlan

  datatype Principal = Principal(name: string, kind: string, tenant: string, domains: seq<string>)

  /** Domains that exist only inside an address are absent from domainTenant. */
  datatype Layout = Layout(tenants: seq<string>, domainTenant: map<string, string>, principals: seq<Principal>)

  // ------------------------------------------------------------------ domainsOf

  /** What follows the last '@', or the whole string when there is none. */
  function AfterLastAt(s: string): string {
    if '@' !in s then s
    else if s[|s| - 1] == '@' then ""
    else AfterLastAt(s[..|s| - 1]) + [s[|s| - 1]]
  }

  /** The domain an address names, "" when it names none. */
  function DomainPart(address: string): string {
    if '@' !in address then "" else ToLower(TrimSpace(AfterLastAt(address)))
  }

  function DomainSet(addresses: seq<string>): set<string> {
    set a | a in addresses && DomainPart(a) != "" :: DomainPart(a)
  }

  /** Every domain a principal touches, once each, in order. */
  method DomainsOf(name: string, emails: seq<string>) returns (domains: seq<string>)
    ensures domains == Sorted(DomainSet([name] + emails))
  {
    hide DomainPart;
    var addresses := [name] + emails;
    var seen := {};
    for i := 0 to |addresses|
      invariant seen == DomainSet(addresses[..i])
    {
      var d := DomainPart(addresses[i]);
      assert addresses[..i + 1] == addresses[..i] + [addresses[i]];
      if d != "" && d !in seen {
        seen := seen + {d};
      }
    }
    assert addresses[..|addresses|] == addresses;
    domains := SortKeys(seen);
  }

  // -------------------------------------------------------------------- Analyze

  function PrincipalWants(p: Principal): set<Want> {
    if p.tenant == "" then {} else set d | d in p.domains :: Want(d, p.tenant)
  }

  function LayoutWantsUpTo(l: Layout, n: nat): set<Want>
    requires n <= |l.principals|
  {
    if n == 0 then {} else LayoutWantsUpTo(l, n - 1) + PrincipalWants(l.principals[n - 1])
  }

  /** The tenants that the layout's principals need domain d to have. */
  function LayoutWanted(l: Layout, d: string): set<string> {
    WantedOf(LayoutWantsUpTo(l, |l.principals|), d)
  }

  function Declared(l: Layout, d: string): string {
    if d in l.domainTenant then l.domainTenant[d] else ""
  }

  datatype Forecast = Shared | Foreign | Fine | Adoption

  ghost function ForecastOf(l: Layout, d: string): Forecast {
    if |LayoutWanted(l, d)| != 1 then Shared
    else
      var want :| want in LayoutWanted(l, d);
      if Declared(l, d) == "" then Adoption
      else if Declared(l, d) != want then Foreign
      else Fine
  }

  ghost function LayoutUsed(l: Layout): seq<string> {
    Sorted(if l.tenants == [] then {} else set w | w in LayoutWantsUpTo(l, |l.principals|) :: w.domain)
  }

  ghost function Adopted(l: Layout, ds: seq<string>): seq<string> {
    if ds == [] then []
    else
      var d := ds[|ds| - 1];
      Adopted(l, ds[..|ds| - 1]) + if ForecastOf(l, d).Adoption? then [d] else []
  }

  ghost function Troubled(l: Layout, ds: seq<string>): seq<string> {
    if ds == [] then []
    else
      var d := ds[|ds| - 1];
      Troubled(l, ds[..|ds| - 1]) + if ForecastOf(l, d).Shared? || ForecastOf(l, d).Foreign? then [d] else []
  }

  /** The name of a principal that makes a want. */
  ghost predicate NamesPrincipal(l: Layout, w: Want, name: string) {
    exists i :: 0 <= i < |l.principals| && w in PrincipalWants(l.principals[i]) && l.principals[i].name == name
  }

  datatype Problem =
    | SharedDomain(domain: string, tenants: seq<string>, examples: seq<string>)
    | ForeignDomain(domain: string, declared: string, want: string, because: string)

  ghost predicate Describes(l: Layout, d: string, p: Problem) {
    match p
    case SharedDomain(domain, tenants, examples) =>
      && ForecastOf(l, d).Shared? && domain == d && tenants == Sorted(LayoutWanted(l, d)) && |examples| == |tenants|
      && forall i :: 0 <= i < |tenants| ==> NamesPrincipal(l, Want(d, tenants[i]), examples[i])
    case ForeignDomain(domain, declared, want, because) =>
      && ForecastOf(l, d).Foreign? && domain == d && declared == Declared(l, d) && LayoutWanted(l, d) == {want}
      && NamesPrincipal(l, Want(d, want), because)
  }

  ghost predicate AllDescribed(l: Layout, ds: seq<string>, ps: seq<Problem>) {
    |ps| == |ds| && forall i :: 0 <= i < |ds| ==> Describes(l, ds[i], ps[i])
  }

  type Named = map<Want, string>

  ghost predicate AllNamed(l: Layout, required: Named) {
    forall w :: w in required ==> NamesPrincipal(l, w, required[w])
  }

  /** One pass over the principals: who wants what. */
  method CollectLayout(l: Layout) returns (required: Named)
    ensures required.Keys == LayoutWantsUpTo(l, |l.principals|)
    ensures AllNamed(l, required)
  {
    required := map[];
    for i := 0 to |l.principals|
      invariant required.Keys == LayoutWantsUpTo(l, i)
      invariant AllNamed(l, required)
    {
      required := CollectPrincipal(l, i, required);
    }
  }

  method CollectPrincipal(l: Layout, i: nat, before: Named) returns (required: Named)
    requires i < |l.principals| && AllNamed(l, before)
    ensures required.Keys == before.Keys + PrincipalWants(l.principals[i])
    ensures AllNamed(l, required)
  {
    hide NamesPrincipal;
    var p := l.principals[i];
    required := before;
    if p.tenant == "" {
      return;
    }
    for k := 0 to |p.domains|
      invariant required.Keys == before.Keys + set d | d in p.domains[..k] :: Want(d, p.tenant)
      invariant AllNamed(l, required)
    {
      var w := Want(p.domains[k], p.tenant);
      assert p.domains[..k + 1] == p.domains[..k] + [p.domains[k]];
      NamedBy(l, i, p.domains[k]);
      if w !in required {
        required := required[w := p.name];
      }
    }
    assert p.domains[..|p.domains|] == p.domains;
  }

  lemma NamedBy(l: Layout, i: nat, d: string)
    requires i < |l.principals| && l.principals[i].tenant != "" && d in l.principals[i].domains
    ensures NamesPrincipal(l, Want(d, l.principals[i].tenant), l.principals[i].name)
  {
    assert Want(d, l.principals[i].tenant) in PrincipalWants(l.principals[i]);
  }

  lemma PickNext(l: Layout, ds: seq<string>, k: nat)
    requires k < |ds|
    ensures var a := Adopted(l, ds[..k]);
            Adopted(l, ds[..k + 1]) == if ForecastOf(l, ds[k]).Adoption? then a + [ds[k]] else a
    ensures var t := Troubled(l, ds[..k]);
            Troubled(l, ds[..k + 1]) == if ForecastOf(l, ds[k]).Shared? || ForecastOf(l, ds[k]).Foreign? then t +
                [ds[k]] else t
  {
    hide ForecastOf;
    assert ds[..k + 1][..k] == ds[..k];
  }

  lemma LayoutUsedWanted(l: Layout, ds: seq<string>, k: nat)
    requires ds == LayoutUsed(l) && k < |ds|
    ensures LayoutWanted(l, ds[k]) != {}
  {
    hide LayoutWantsUpTo;
    assert ds[k] in ds;
    var w :| w in LayoutWantsUpTo(l, |l.principals|) && w.domain == ds[k];
    assert w.tenant in LayoutWanted(l, ds[k]);
  }

  /** Forecasts one domain, in the source's order of tests. */
  method Foresee(l: Layout, d: string, required: Named) returns (adopts: bool, problem: Option<Problem>)
    requires required.Keys == LayoutWantsUpTo(l, |l.principals|) && AllNamed(l, required) && LayoutWanted(l, d) != {}
    ensures adopts <==> ForecastOf(l, d).Adoption?
    ensures problem.Some? <==> ForecastOf(l, d).Shared? || ForecastOf(l, d).Foreign?
    ensures problem.Some? ==> Describes(l, d, problem.value)
  {
    hide LayoutWantsUpTo, Sorted, NamesPrincipal;
    adopts, problem := false, None;
    var wanted := set w | w in required && w.domain == d :: w.tenant;
    assert wanted == LayoutWanted(l, d);
    var names := SortKeys(wanted);
    SortedSize(wanted);
    SortedIn(wanted);
    if |names| > 1 {
      var examples := [];
      for i := 0 to |names|
        invariant |examples| == i
        invariant forall j :: 0 <= j < i ==> NamesPrincipal(l, Want(d, names[j]), examples[j])
      {
        assert names[i] in LayoutWanted(l, d);
        assert Want(d, names[i]) in required;
        examples := examples + [required[Want(d, names[i])]];
      }
      problem := Some(SharedDomain(d, names, examples));
      return;
    }
    var want := names[0];
    assert want in LayoutWanted(l, d);
    OnlyElement(LayoutWanted(l, d), want);
    assert Want(d, want) in required;
    if d !in l.domainTenant || l.domainTenant[d] == "" {
      adopts := true;
    } else if l.domainTenant[d] != want {
      problem := Some(ForeignDomain(d, l.domainTenant[d], want, required[Want(d, want)]));
    }
  }

  lemma DescribedNext(l: Layout, ds: seq<string>, ps: seq<Problem>, d: string, p: Problem)
    requires AllDescribed(l, ds, ps) && Describes(l, d, p)
    ensures AllDescribed(l, ds + [d], ps + [p])
  {
    hide Describes;
  }

  lemma NothingPicked(l: Layout)
    ensures Adopted(l, []) == [] && Troubled(l, []) == [] && AllDescribed(l, [], [])
  {
  }

  /** The forecast for a whole layout. */
  method Analyze(l: Layout) returns (adoptions: seq<string>, problems: seq<Problem>)
    ensures adoptions == Adopted(l, LayoutUsed(l))
    ensures AllDescribed(l, Troubled(l, LayoutUsed(l)), problems)
  {
    hide LayoutWantsUpTo, Sorted, Describes, ForecastOf, AllNamed, LayoutWanted, AllDescribed, Adopted, Troubled;
    NothingPicked(l);
    adoptions, problems := [], [];
    if |l.tenants| == 0 {
      SortedSize({});
      return;
    }
    var required := CollectLayout(l);
    var domains := SortKeys(set w | w in required :: w.domain);
    assert (set w | w in required :: w.domain) == (set w | w in LayoutWantsUpTo(l, |l.principals|) :: w.domain);
    for k := 0 to |domains|
      invariant adoptions == Adopted(l, domains[..k])
      invariant AllDescribed(l, Troubled(l, domains[..k]), problems)
    {
      PickNext(l, domains, k);
      LayoutUsedWanted(l, domains, k);
      var adopts, problem := Foresee(l, domains[k], required);
      if problem.Some? {
        DescribedNext(l, Troubled(l, domains[..k]), problems, domains[k], problem.value);
        problems := problems + [problem.value];
      } else if adopts {
        adoptions := adoptions + [domains[k]];
      }
    }
    assert domains[..|domains|] == domains;
  }
}
