/** What reconciliation promises: it finds an assignment exactly when there is
    one, the least one, in one pass, touching nothing else. */
module ReconcileProperties {
  import opened Order
  import opened AtomicFile
  import opened ApplyPlan
  import opened Reconcile

  /** A tenant client-id for every domain, "" for none. */
  type Assignment = string -> string

  /** v0.16 accepts the plan under an assignment that keeps every declared owner:
      every tenant-scoped principal is on domains of its own tenant. */
  ghost predicate Accepts(ops: seq<Op>, a: Assignment) {
    forall d :: IsDomain(ops, d) ==>
      && (DomainTenant(ops, d) != "" ==> a(d) == RefCid(DomainTenant(ops, d)))
      && forall t :: t in Wanted(ops, d) ==> a(d) == RefCid(t)
  }

  /** The assignment a plan states. */
  function Stated(ops: seq<Op>): Assignment {
    d => if IsDomain(ops, d) then RefCid(DomainTenant(ops, d)) else ""
  }

  /** No domain is wanted under two spellings of one tenant. */
  ghost predicate OneSpelling(ops: seq<Op>) {
    forall d, t, u :: IsDomain(ops, d) && t in Wanted(ops, d) && u in Wanted(ops, d) && RefCid(t) == RefCid(u) ==>
        t == u
  }

  ghost predicate NoConflict(ops: seq<Op>) {
    Conflicting(ops, Used(ops)) == []
  }

  ghost function After(ops: seq<Op>): seq<Op> {
    Repaired(ops, Used(ops))
  }

  lemma {:induction false} PickedMembers(ops: seq<Op>, ds: seq<string>)
    ensures forall d :: d in Adopters(ops, ds) <==> d in ds && VerdictOf(ops, d).Adopt?
    ensures forall d :: d in Conflicting(ops, ds) <==> d in ds && IsConflict(VerdictOf(ops, d))
  {
    hide VerdictOf;
    if ds != [] {
      var n := |ds| - 1;
      PickedMembers(ops, ds[..n]);
      assert forall d :: d in ds <==> d == ds[n] || d in ds[..n];
    }
  }

  lemma UsedMembers(ops: seq<Op>, d: string)
    requires TenantNames(ops) != map[]
    ensures d in Used(ops) <==> Wanted(ops, d) != {}
  {
    hide Wants, TenantNames;
    if Wanted(ops, d) != {} {
      var t :| t in Wanted(ops, d);
      assert Want(d, t) in Wants(ops);
    }
    if d in Used(ops) {
      var w :| w in Wants(ops) && w.domain == d;
      assert w.tenant in Wanted(ops, d);
    }
  }

  /** The verdict on one domain, seen by the assignments v0.16 accepts. */
  lemma VerdictMeans(ops: seq<Op>, d: string)
    requires IsDomain(ops, d) && Wanted(ops, d) != {}
    ensures var v, current := VerdictOf(ops, d), DomainTenant(ops, d);
            && (v.Agrees? ==> forall t :: t in Wanted(ops, d) ==> RefCid(t) == RefCid(current))
            && (v.Adopt? ==> current == "" && Wanted(ops, d) == {v.tenant} && RefCid(v.tenant) != "")
            && (v.Owned? ==> current != "" && exists t :: t in Wanted(ops, d) && RefCid(t) != RefCid(current))
            && (v.Split? ==> exists t, u :: t in Wanted(ops, d) && u in Wanted(ops, d) && t != u)
  {
    hide Wanted, IsDomain, DomainTenant;
    var wanted := Wanted(ops, d);
    var t :| t in wanted;
    if |wanted| == 1 {
      OnlyElement(wanted, t);
    } else {
      var rest := wanted - {t};
      assert |rest| == |wanted| - 1;
      var u :| u in rest;
      assert u in wanted && u != t;
    }
  }

  lemma VerdictOnDomain(ops: seq<Op>, d: string)
    requires TenantNames(ops) != map[]
    ensures NoConflict(ops) && Wanted(ops, d) != {} && IsDomain(ops, d) ==>
              VerdictOf(ops, d).Agrees? || VerdictOf(ops, d).Adopt?
  {
    hide VerdictOf, Wanted, Used, Conflicting, IsDomain;
    PickedMembers(ops, Used(ops));
    UsedMembers(ops, d);
    VerdictDomain(ops, d);
    if Wanted(ops, d) != {} && IsConflict(VerdictOf(ops, d)) {
      assert d in Conflicting(ops, Used(ops));
    }
  }

  /** After the pass a domain's tenant is the one adopted, or what it was. */
  lemma TenantAfter(ops: seq<Op>, d: string)
    requires IsDomain(ops, d)
    ensures IsDomain(After(ops), d)
    ensures DomainTenant(After(ops), d)
            == if d in Used(ops) && VerdictOf(ops, d).Adopt? then VerdictOf(ops, d).tenant else DomainTenant(ops, d)
  {
    hide DomainBody, IsDomain, VerdictOf, Used, Repaired;
    RepairedFrame(ops, Used(ops));
  }

  /** Without a conflict, the plan left behind states an assignment v0.16 accepts,
      and it is the least: every accepted assignment agrees with it wherever it
      states a tenant, so in particular on every adopted domain. */
  lemma LeastRepair(ops: seq<Op>)
    requires TenantNames(ops) != map[] && NoConflict(ops)
    ensures Accepts(ops, Stated(After(ops)))
    ensures forall a, d :: Accepts(ops, a) && IsDomain(ops, d) ==>
              Stated(After(ops))(d) == "" || a(d) == Stated(After(ops))(d)
  {
    hide Wanted, IsDomain, DomainTenant, VerdictOf, Used, Repaired, Conflicting;
    forall d | IsDomain(ops, d)
      ensures DomainTenant(ops, d) != "" ==> Stated(After(ops))(d) == RefCid(DomainTenant(ops, d))
      ensures forall t :: t in Wanted(ops, d) ==> Stated(After(ops))(d) == RefCid(t)
      ensures forall a :: Accepts(ops, a) ==> Stated(After(ops))(d) == "" || a(d) == Stated(After(ops))(d)
    {
      TenantAfter(ops, d);
      UsedMembers(ops, d);
      VerdictOnDomain(ops, d);
      if Wanted(ops, d) != {} {
        VerdictMeans(ops, d);
        if VerdictOf(ops, d).Adopt? {
          assert VerdictOf(ops, d).tenant in Wanted(ops, d);
        }
      } else {
        assert d !in Used(ops);
      }
    }
  }

  /** Reconciliation reports no conflict exactly when some assignment that keeps
      every declared owner is accepted, and no domain is wanted under two
      spellings of one tenant. */
  lemma ReconcileExact(ops: seq<Op>)
    requires TenantNames(ops) != map[]
    ensures NoConflict(ops) <==> (exists a :: Accepts(ops, a)) && OneSpelling(ops)
  {
    hide Wanted, IsDomain, DomainTenant, VerdictOf, Used, Repaired, Conflicting;
    if NoConflict(ops) {
      LeastRepair(ops);
      assert Accepts(ops, Stated(After(ops)));
      forall d, t, u | IsDomain(ops, d) && t in Wanted(ops, d) && u in Wanted(ops, d)
        ensures t == u || VerdictOf(ops, d).Agrees?
      {
        VerdictOnDomain(ops, d);
        VerdictMeans(ops, d);
      }
      forall d, t, u | IsDomain(ops, d) && t in Wanted(ops, d) && u in Wanted(ops, d)
        ensures t == u
      {
        NoConflictOneTenant(ops, d, t, u);
      }
    }
    if OneSpelling(ops) && exists a :: Accepts(ops, a) {
      var a :| Accepts(ops, a);
      PickedMembers(ops, Used(ops));
      forall d | d in Used(ops)
        ensures !IsConflict(VerdictOf(ops, d))
      {
        UsedMembers(ops, d);
        VerdictDomain(ops, d);
        if IsDomain(ops, d) {
          VerdictMeans(ops, d);
        }
      }
      NonEmptyHas(Conflicting(ops, Used(ops)));
    }
  }

  lemma NoConflictOneTenant(ops: seq<Op>, d: string, t: string, u: string)
    requires TenantNames(ops) != map[] && NoConflict(ops)
    requires IsDomain(ops, d) && t in Wanted(ops, d) && u in Wanted(ops, d)
    ensures t == u
  {
    hide Wanted, IsDomain, DomainTenant, Used, Repaired, Conflicting;
    VerdictOnDomain(ops, d);
    assert |Wanted(ops, d)| == 1;
    OnlyElement(Wanted(ops, d), t);
  }

  /** Uniformly written references, "#" and a non-empty client-id, are one
      spelling. */
  lemma UniformIsOneSpelling(ops: seq<Op>)
    requires forall w :: w in Wants(ops) ==> |w.tenant| > 1 && w.tenant[0] == '#'
    ensures OneSpelling(ops)
  {
    hide Wants, IsDomain;
    forall d, t, u | t in Wanted(ops, d) && u in Wanted(ops, d) && RefCid(t) == RefCid(u)
      ensures t == u
    {
      assert Want(d, t) in Wants(ops) && Want(d, u) in Wants(ops);
      assert t == ['#'] + t[1..] && u == ['#'] + u[1..];
    }
  }

  /** Outside the bodies that create the domains, two plans say the same. */
  ghost predicate SameElsewhere(ops: seq<Op>, a: seq<Op>, b: seq<Op>) {
    && |ops| == |a| == |b|
    && (forall i :: 0 <= i < |a| ==> a[i] - {VALUE} == b[i] - {VALUE})
    && (forall i, cid :: 0 <= i < |a| && cid in CreateBodies(a[i]) && DomainOpOf(ops, cid, |ops|) != i ==>
          cid in CreateBodies(b[i]) && CreateBodies(b[i])[cid] == CreateBodies(a[i])[cid])
  }

  lemma SetTenantElsewhere(ops: seq<Op>, a: seq<Op>, d: string, t: string)
    requires |a| == |ops| && IsDomain(a, d) && DomainOpOf(a, d, |a|) == DomainOpOf(ops, d, |ops|)
    ensures SameElsewhere(ops, a, SetTenant(a, d, t))
  {
    hide CreateBodies, DomainOpOf, SetTenant, ObjectName, IsDomainOp;
    SetTenantShape(a, d, t);
  }

  lemma SameElsewhereTransitive(ops: seq<Op>, a: seq<Op>, b: seq<Op>, c: seq<Op>)
    requires SameElsewhere(ops, a, b) && SameElsewhere(ops, b, c)
    ensures SameElsewhere(ops, a, c)
  {
    hide CreateBodies, DomainOpOf;
  }

  lemma {:induction false} RepairedElsewhere(ops: seq<Op>, ds: seq<string>)
    ensures SameElsewhere(ops, ops, Repaired(ops, ds))
  {
    hide VerdictOf, SetTenant, CreateBodies, DomainOpOf;
    if ds != [] {
      var n := |ds| - 1;
      var before := Repaired(ops, ds[..n]);
      RepairedElsewhere(ops, ds[..n]);
      if VerdictOf(ops, ds[n]).Adopt? && IsDomain(before, ds[n]) {
        RepairedFrame(ops, ds[..n]);
        SameShapeReads(ops, before, |ops|);
        SetTenantElsewhere(ops, before, ds[n], VerdictOf(ops, ds[n]).tenant);
        SameElsewhereTransitive(ops, ops, before, Repaired(ops, ds));
      }
    }
  }

  /** Only a domain's tenant is ever written, only where the plan states none,
      and everything else a plan says is left as it was. */
  lemma RepairFrame(ops: seq<Op>)
    ensures SameShape(ops, After(ops)) && SameElsewhere(ops, ops, After(ops))
    ensures forall d :: IsDomain(After(ops), d) == IsDomain(ops, d)
    ensures forall d :: IsDomain(ops, d) && DomainBody(After(ops), d) != DomainBody(ops, d) ==>
              && d in Used(ops) && VerdictOf(ops, d).Adopt? && DomainTenant(ops, d) == ""
              && DomainBody(After(ops), d) == DomainBody(ops, d)[MEMBER_TENANT := Str(VerdictOf(ops, d).tenant)]
  {
    hide DomainBody, IsDomain, Repaired, SameShape, SameElsewhere, Used, Wanted;
    RepairedFrame(ops, Used(ops));
    RepairedElsewhere(ops, Used(ops));
  }

  lemma UsedAfter(ops: seq<Op>)
    ensures Used(After(ops)) == Used(ops)
  {
    hide Wants, TenantNames, Sorted, Repaired;
    UsedReads(ops, After(ops)) by { RepairedFrame(ops, Used(ops)); }
  }

  lemma UsedReads(a: seq<Op>, b: seq<Op>)
    requires TenantNames(a) == TenantNames(b) && Wants(a) == Wants(b)
    ensures Used(a) == Used(b)
  {
    hide Wants, TenantNames, Sorted;
  }

  lemma VerdictAfter(ops: seq<Op>, d: string)
    requires d in Used(ops)
    ensures VerdictOf(After(ops), d) == if VerdictOf(ops, d).Adopt? then Agrees else VerdictOf(ops, d)
  {
    hide Wants, TenantNames, Sorted, Repaired, Used, DomainBody, IsDomain;
    RepairedFrame(ops, Used(ops));
    assert Wanted(After(ops), d) == Wanted(ops, d);
    if IsDomain(ops, d) {
      TenantAfter(ops, d);
    }
  }

  lemma {:induction false} PicksAfter(ops: seq<Op>, ds: seq<string>)
    requires forall d :: d in ds ==> d in Used(ops)
    ensures Adopters(After(ops), ds) == []
    ensures Conflicting(After(ops), ds) == Conflicting(ops, ds)
    ensures Repaired(After(ops), ds) == After(ops)
  {
    hide After, VerdictOf, Used;
    if ds != [] {
      var n := |ds| - 1;
      assert ds[n] in ds && forall d :: d in ds[..n] ==> d in ds;
      PicksAfter(ops, ds[..n]);
      VerdictAfter(ops, ds[n]);
    }
  }

  /** A second pass adopts nothing, reports the same conflicts and leaves the
      plan as it is. */
  lemma SecondPass(ops: seq<Op>)
    ensures Adopters(After(ops), Used(After(ops))) == []
    ensures Conflicting(After(ops), Used(After(ops))) == Conflicting(ops, Used(ops))
    ensures After(After(ops)) == After(ops)
  {
    hide VerdictOf, Used, Adopters, Conflicting, Repaired;
    UsedAfter(ops);
    PicksAfter(ops, Used(ops));
  }

  // -------------------------------------------------------------- the plan file

  /** How ReconcileDomainTenantsFile ends. */
  datatype FileResult = Unreadable | Inconsistent | NothingToDo | Rewritten | NotWritten | Died

  /** The plan file, replaced by a temporary file, sync and rename. (The source also
      sets the mode between close and rename; its failure is that of the close.) */
  class PlanFile {
    const path: string
    const dir: Dir<seq<Op>>

    constructor (path: string, dir: Dir<seq<Op>>)
      ensures this.path == path && this.dir == dir
    {
      this.path, this.dir := path, dir;
    }

    ghost predicate HasPlan()
      reads this, dir
    {
      path in dir.files && dir.files[path].Intact?
    }

    ghost function Ops(): seq<Op>
      requires HasPlan()
      reads this, dir
    {
      dir.files[path].value
    }

    /** Rewrites the file only when something was adopted and nothing conflicted;
        wherever the write fails or the process dies, the file holds the old plan or
        the whole repaired one, and on success a plan without conflict. */
    method ReconcileFile(readErrs: bool, temp: string, fault: Fault)
      returns (r: FileResult, adoptions: seq<Adoption>, conflicts: seq<Conflict>)
      requires temp !in dir.temps
      modifies dir
      ensures r.Unreadable? <==> !old(HasPlan()) || readErrs
      ensures r.Unreadable? ==> dir.files == old(dir.files)
      ensures !r.Unreadable? ==>
                var ops := old(Ops());
                var adopters := Adopters(ops, Used(ops));
                && AllReported(ops, adopters, adoptions)
                && AllExplained(ops, Conflicting(ops, Used(ops)), conflicts)
                && (r.Inconsistent? <==> !NoConflict(ops))
                && (r.NothingToDo? <==> NoConflict(ops) && adopters == [])
                && dir.files == (if NoConflict(ops) && adopters != [] && Lands(fault) then
                                   old(dir.files)[path := Intact(After(ops))] else old(dir.files))
                && (r.Rewritten? || r.NothingToDo? ==> HasPlan() && Ops() == After(ops))
                && (r.Rewritten? <==> NoConflict(ops) && adopters != [] && fault.NoFault?)
                && (r.NotWritten? <==> NoConflict(ops) && adopters != [] && fault.FailAt?)
                && (r.Died? <==> NoConflict(ops) && adopters != [] && (fault.KillAt? || fault.KillAfterRename?))
                && (r.NotWritten? ==> dir.files == old(dir.files))
    {
      hide Used, AllExplained, Repaired, Adopters, Conflicting;
      if path !in dir.files || dir.files[path].Torn? || readErrs {
        return Unreadable, [], [];
      }
      var plan := new Plan(dir.files[path].value);
      ghost var ops := plan.ops;
      adoptions, conflicts := plan.ReconcileDomainTenants();
      NothingAdopted(ops);
      ExplainedLength(ops, Conflicting(ops, Used(ops)), conflicts);
      if |conflicts| != 0 {
        return Inconsistent, adoptions, conflicts;
      }
      if |adoptions| == 0 {
        return NothingToDo, adoptions, conflicts;
      }
      var w := dir.WriteAtomic(path, temp, plan.ops, fault);
      r := match w
        case Written => Rewritten
        case WriteError => NotWritten
        case Killed => Died;
    }
  }

  lemma ExplainedLength(ops: seq<Op>, ds: seq<string>, conflicts: seq<Conflict>)
    requires AllExplained(ops, ds, conflicts)
    ensures |conflicts| == |ds|
  {
  }

  lemma {:induction false} NothingRepaired(ops: seq<Op>, ds: seq<string>)
    requires Adopters(ops, ds) == []
    ensures Repaired(ops, ds) == ops
  {
    hide VerdictOf, IsDomain, SetTenant;
    if ds != [] {
      var n := |ds| - 1;
      assert |Adopters(ops, ds)| == |Adopters(ops, ds[..n])| + if VerdictOf(ops, ds[n]).Adopt? then 1 else 0;
      NothingRepaired(ops, ds[..n]);
    }
  }

  lemma NothingAdopted(ops: seq<Op>)
    ensures Adopters(ops, Used(ops)) == [] ==> After(ops) == ops
  {
    if Adopters(ops, Used(ops)) == [] {
      NothingRepaired(ops, Used(ops));
    }
  }
}
