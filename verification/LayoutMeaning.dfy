/** The preflight forecast in the layout's own terms: which domains it lists, and why. */
module LayoutMeaning {
  import opened Text
  import opened Order
  import opened ApplyPlan
  import opened PlanMeaning
  import opened Reconcile
  import opened ReconcileProperties
  import opened TenantLayout
  import opened TenantAgreement

  /** The principal of this name belongs to tenant t and uses the domain. */
  ghost predicate UsedBy(l: Layout, t: string, d: string, name: string) {
    t != "" && exists i :: 0 <= i < |l.principals| && l.principals[i].tenant == t && d in l.principals[i].domains
                           && l.principals[i].name == name
  }

  /** Some principal of tenant t uses the domain. */
  ghost predicate Uses(l: Layout, t: string, d: string) {
    t != "" && exists i :: 0 <= i < |l.principals| && l.principals[i].tenant == t && d in l.principals[i].domains
  }

  /** Principals of two tenants use the domain, or one of another tenant than it declares. */
  ghost predicate IsProblem(l: Layout, d: string) {
    || (exists t, u :: Uses(l, t, d) && Uses(l, u, d) && t != u)
    || (exists t :: Uses(l, t, d) && d in l.domainTenant && l.domainTenant[d] != "" && l.domainTenant[d] != t)
  }

  /** Principals of one tenant use the domain, and it declares none. */
  ghost predicate IsAdoption(l: Layout, d: string) {
    && (d in l.domainTenant ==> l.domainTenant[d] == "")
    && exists t :: Uses(l, t, d) && forall u :: Uses(l, u, d) ==> u == t
  }

  lemma WantedIsUsed(l: Layout, d: string, t: string)
    ensures t in LayoutWanted(l, d) <==> Uses(l, t, d)
  {
    hide LayoutWantsUpTo;
    var w := Want(d, t);
    InLayoutWants(l, |l.principals|, w);
    assert t in LayoutWanted(l, d) <==> w in LayoutWantsUpTo(l, |l.principals|);
    forall i | 0 <= i < |l.principals|
      ensures w in PrincipalWants(l.principals[i]) <==>
                t != "" && l.principals[i].tenant == t && d in l.principals[i].domains
    {
    }
  }

  /** The forecast for a domain that is used. */
  lemma ForecastExactly(l: Layout, d: string)
    requires LayoutWanted(l, d) != {}
    ensures ForecastOf(l, d).Adoption? <==> IsAdoption(l, d)
    ensures ForecastOf(l, d).Shared? || ForecastOf(l, d).Foreign? <==> IsProblem(l, d)
  {
    hide LayoutWanted, Uses;
    forall t
      ensures t in LayoutWanted(l, d) <==> Uses(l, t, d)
    {
      WantedIsUsed(l, d, t);
    }
    var t :| t in LayoutWanted(l, d);
    if |LayoutWanted(l, d)| == 1 {
      OnlyElement(LayoutWanted(l, d), t);
      assert forall u :: Uses(l, u, d) <==> u == t;
    } else {
      var rest := LayoutWanted(l, d) - {t};
      assert |rest| == |LayoutWanted(l, d)| - 1;
      var u :| u in rest;
      assert Uses(l, t, d) && Uses(l, u, d) && t != u;
    }
  }

  /** Analyze lists exactly the adoptions and the problems, and none where there is no
      tenant. */
  lemma ListedExactly(l: Layout, d: string)
    ensures d in Adopted(l, LayoutUsed(l)) <==> l.tenants != [] && IsAdoption(l, d)
    ensures d in Troubled(l, LayoutUsed(l)) <==> l.tenants != [] && IsProblem(l, d)
  {
    hide LayoutUsed, LayoutWanted, ForecastOf, Uses, Adopted, Troubled;
    LayoutPicked(l, LayoutUsed(l));
    if l.tenants == [] {
      NoneUsed(l);
    } else {
      LayoutUsedMembers(l, d);
      if LayoutWanted(l, d) == {} {
        forall t
          ensures !Uses(l, t, d)
        {
          WantedIsUsed(l, d, t);
        }
      } else {
        ForecastExactly(l, d);
      }
    }
  }

  lemma NoneUsed(l: Layout)
    requires l.tenants == []
    ensures LayoutUsed(l) == []
  {
    SortedSize({});
  }

  /** A problem names every tenant that uses the domain, each with a principal; or the
      tenant the domain declares, the only one that uses it, and a principal of that. */
  ghost predicate Tells(l: Layout, p: Problem) {
    match p
    case SharedDomain(d, tenants, examples) =>
      && Ascending(tenants) && (forall t :: t in tenants <==> Uses(l, t, d)) && |examples| == |tenants| != 1
      && forall i :: 0 <= i < |tenants| ==> UsedBy(l, tenants[i], d, examples[i])
    case ForeignDomain(d, declared, want, because) =>
      && d in l.domainTenant && l.domainTenant[d] == declared != "" && declared != want
      && (forall t :: Uses(l, t, d) <==> t == want) && UsedBy(l, want, d, because)
  }

  lemma NamedIsUsedBy(l: Layout, t: string, d: string, name: string)
    ensures NamesPrincipal(l, Want(d, t), name) <==> UsedBy(l, t, d, name)
  {
    forall i | 0 <= i < |l.principals|
      ensures Want(d, t) in PrincipalWants(l.principals[i]) <==>
                t != "" && l.principals[i].tenant == t && d in l.principals[i].domains
    {
    }
  }

  lemma DescribesTells(l: Layout, d: string, p: Problem)
    requires Describes(l, d, p)
    ensures p.domain == d && Tells(l, p)
  {
    hide LayoutWanted, Uses, UsedBy, NamesPrincipal, Ascending;
    forall t
      ensures t in LayoutWanted(l, d) <==> Uses(l, t, d)
      ensures forall name :: NamesPrincipal(l, Want(d, t), name) <==> UsedBy(l, t, d, name)
    {
      WantedIsUsed(l, d, t);
      forall name
        ensures NamesPrincipal(l, Want(d, t), name) <==> UsedBy(l, t, d, name)
      {
        NamedIsUsedBy(l, t, d, name);
      }
    }
    if p.SharedDomain? {
      SortedSize(LayoutWanted(l, d));
    } else {
      assert p.want in LayoutWanted(l, d);
    }
  }

  predicate HasProblem(problems: seq<Problem>, d: string) {
    exists p :: p in problems && p.domain == d
  }

  lemma DescribedDomains(l: Layout, ds: seq<string>, problems: seq<Problem>, d: string)
    requires AllDescribed(l, ds, problems)
    ensures HasProblem(problems, d) <==> d in ds
    ensures forall p :: p in problems ==> Tells(l, p)
  {
    hide Tells, Describes;
    forall i | 0 <= i < |problems|
      ensures problems[i].domain == ds[i] && Tells(l, problems[i])
    {
      DescribesTells(l, ds[i], problems[i]);
    }
    if d in ds {
      var i :| 0 <= i < |ds| && ds[i] == d;
      assert problems[i] in problems && problems[i].domain == d;
    }
  }

  /** What Analyze returns: the adoptions are exactly the domains that should be adopted,
      and there is a problem, which tells its domain's story, for exactly each domain
      that has one. */
  lemma AnalyzeMeans(l: Layout, adoptions: seq<string>, problems: seq<Problem>)
    requires adoptions == Adopted(l, LayoutUsed(l)) && AllDescribed(l, Troubled(l, LayoutUsed(l)), problems)
    ensures forall d :: d in adoptions <==> l.tenants != [] && IsAdoption(l, d)
    ensures forall d :: HasProblem(problems, d) <==> l.tenants != [] && IsProblem(l, d)
    ensures forall p :: p in problems ==> Tells(l, p)
  {
    hide Adopted, Troubled, LayoutUsed, IsAdoption, IsProblem, Tells, AllDescribed, HasProblem;
    DescribedDomains(l, Troubled(l, LayoutUsed(l)), problems, "");
    forall d
      ensures d in adoptions <==> l.tenants != [] && IsAdoption(l, d)
      ensures HasProblem(problems, d) <==> l.tenants != [] && IsProblem(l, d)
    {
      ListedExactly(l, d);
      DescribedDomains(l, Troubled(l, LayoutUsed(l)), problems, d);
    }
  }

  /** And both come in the order of the domains' names. */
  lemma {:induction false} ForeseenAscending(l: Layout, ds: seq<string>)
    requires Ascending(ds)
    ensures Ascending(Adopted(l, ds)) && Ascending(Troubled(l, ds))
  {
    hide ForecastOf, Less, Ascending;
    if ds == [] {
      NothingAscends();
    } else {
      var before, last := ds[..|ds| - 1], ds[|ds| - 1];
      assert ds == before + [last];
      LastIsGreatest(before, last);
      assert Adopted(l, before) + [] == Adopted(l, before) && Troubled(l, before) + [] == Troubled(l, before);
      ForeseenAscending(l, before);
      LayoutPicked(l, before);
      if ForecastOf(l, last).Adoption? {
        AscendingNext(Adopted(l, before), last);
      } else if ForecastOf(l, last).Shared? || ForecastOf(l, last).Foreign? {
        AscendingNext(Troubled(l, before), last);
      }
    }
  }

  /** On every layout and every plan that represents it, the domains foreseen are those
      reconciliation adopts and reports. */
  lemma ForecastComesTrue(l: Layout, ops: seq<Op>, ids: Ids, d: string)
    requires Represents(l, ops, ids) && d in ids.domains && l.tenants != []
    ensures IsAdoption(l, d) <==> exists t :: ShouldAdopt(ops, ids.domains[d], t)
    ensures IsProblem(l, d) <==> ShouldConflict(ops, ids.domains[d])
  {
    hide Adopted, Troubled, LayoutUsed, IsAdoption, IsProblem, Adopters, Conflicting, Used, ShouldAdopt,
         ShouldConflict, Creates, DomainsIn, PrincipalsIn;
    ListedExactly(l, d);
    DecidedExactly(ops, ids.domains[d]);
    PredictorAgrees(l, ops, ids);
    Distinct(l, ops, ids);
    assert ids.domains[d] in Elements(Adopters(ops, Used(ops))) <==> d in Adopted(l, LayoutUsed(l));
    assert ids.domains[d] in Elements(Conflicting(ops, Used(ops))) <==> d in Troubled(l, LayoutUsed(l));
  }

  lemma Distinct(l: Layout, ops: seq<Op>, ids: Ids)
    requires Represents(l, ops, ids)
    ensures Injective(ids.domains)
  {
  }

  // ----------------------------------------------------------- domains of addresses

  /** The address has the domain behind its last "@", in some case and with white space
      around it or not. */
  ghost predicate HasDomain(address: string, d: string) {
    exists x, left, body, right ::
      && address == x + "@" + (left + body + right) && '@' !in left + body + right
      && AllSpace(left) && AllSpace(right)
      && body != "" && !IsSpace(body[0]) && !IsSpace(body[|body| - 1]) && ToLower(body) == d
  }

  lemma {:induction false} AfterLastAtOf(x: string, y: string)
    requires '@' !in y
    ensures AfterLastAt(x + "@" + y) == y
  {
    var s := x + "@" + y;
    assert s[|x|] == '@';
    if y == "" {
      assert s[|s| - 1] == '@';
    } else {
      assert s[|s| - 1] == y[|y| - 1] && s[..|s| - 1] == x + "@" + y[..|y| - 1];
      AfterLastAtOf(x, y[..|y| - 1]);
    }
  }

  lemma {:induction false} LastAtSplits(s: string) returns (x: string)
    requires '@' in s
    ensures s == x + "@" + AfterLastAt(s) && '@' !in AfterLastAt(s)
  {
    if s[|s| - 1] == '@' {
      x := s[..|s| - 1];
    } else {
      assert s == s[..|s| - 1] + [s[|s| - 1]];
      x := LastAtSplits(s[..|s| - 1]);
    }
  }

  lemma DomainOfAddress(x: string, left: string, body: string, right: string)
    requires '@' !in left + body + right && AllSpace(left) && AllSpace(right)
    requires body != "" && !IsSpace(body[0]) && !IsSpace(body[|body| - 1])
    ensures DomainPart(x + "@" + (left + body + right)) == ToLower(body)
  {
    hide IsSpace, TrimLeftSpace, TrimRightSpace, AfterLastAt, ToLower;
    var text := left + body + right;
    AfterLastAtOf(x, text);
    assert (x + "@" + text)[|x|] == '@';
    assert text == left + (body + right);
    TrimLeftPadding(left, body + right);
    TrimRightPadding(body, right);
  }

  /** The domain found in an address is the one it has. */
  lemma DomainPartExactly(address: string, d: string)
    requires d != ""
    ensures DomainPart(address) == d <==> HasDomain(address, d)
  {
    hide IsSpace, AfterLastAt, TrimSpace, AllSpace;
    if DomainPart(address) == d {
      var x := LastAtSplits(address);
      var text := AfterLastAt(address);
      var left, right := Padding(text);
      Trimmed(text);
      assert left + TrimSpace(text) + right == text;
    }
    if x, left, body, right :|
        && address == x + "@" + (left + body + right) && '@' !in left + body + right
        && AllSpace(left) && AllSpace(right)
        && body != "" && !IsSpace(body[0]) && !IsSpace(body[|body| - 1]) && ToLower(body) == d {
      DomainOfAddress(x, left, body, right);
    }
  }

  lemma Trimmed(s: string)
    ensures TrimSpace(s) != "" ==> !IsSpace(TrimSpace(s)[0]) && !IsSpace(TrimSpace(s)[|TrimSpace(s)| - 1])
  {
    var t := TrimLeftSpace(s);
    assert TrimRightSpace(t) <= t;
  }

  /** A principal's domains are those of its name and its emails. */
  lemma DomainsAre(name: string, emails: seq<string>, d: string)
    ensures d in Sorted(DomainSet([name] + emails))
            <==> d != "" && (HasDomain(name, d) || exists e :: e in emails && HasDomain(e, d))
  {
    hide DomainPart, HasDomain, Sorted;
    var all := [name] + emails;
    assert forall a :: a in all <==> a == name || a in emails;
    forall a
      ensures d != "" ==> (DomainPart(a) == d <==> HasDomain(a, d))
    {
      if d != "" {
        DomainPartExactly(a, d);
      }
    }
  }
}
