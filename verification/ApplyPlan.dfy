/** An apply plan in the generic form it is read in, and what tenant
    reconciliation reads off it: internal/applyplan/tenants.go. */
module ApplyPlan {

  datatype Json =
    | Null
    | Bool(b: bool)
    | Number(text: string)
    | Str(s: string)
    | Arr(items: seq<Json>)
    | Obj(fields: map<string, Json>)

  type Body = map<string, Json>

  /** One line of a plan. */
  type Op = map<string, Json>

  const OBJECT := "object"
  const VALUE := "value"
  const NAME := "name"
  const DOMAIN_ID := "domainId"
  const ALIASES := "aliases"
  const MEMBER_TENANT := "memberTenantId"

  function StringField(body: Body, key: string): string {
    if key in body && body[key].Str? then body[key].s else ""
  }

  function ObjectName(op: Op): string {
    StringField(op, OBJECT)
  }

  /** The client-id-keyed objects an operation carries; none when its value is flat. */
  function CreateBodies(op: Op): map<string, Body> {
    if VALUE in op && op[VALUE].Obj? then
      map cid | cid in op[VALUE].fields && op[VALUE].fields[cid].Obj? :: op[VALUE].fields[cid].fields
    else map[]
  }

  /** refCID: a reference without its leading "#". */
  function RefCid(ref: string): string {
    if ref != "" && ref[0] == '#' then ref[1..] else ref
  }

  /** The domains an account or mailing list refers to: its own and one per alias. */
  function DomainRefs(body: Body): set<string> {
    var own := RefCid(StringField(body, DOMAIN_ID));
    (if own == "" then {} else {own}) + AliasRefs(body)
  }

  function AliasRef(alias: Json): string {
    if alias.Obj? then RefCid(StringField(alias.fields, DOMAIN_ID)) else ""
  }

  function AliasRefs(body: Body): set<string> {
    if ALIASES in body && body[ALIASES].Obj? then
      var aliases := body[ALIASES].fields;
      set a | a in aliases && AliasRef(aliases[a]) != "" :: AliasRef(aliases[a])
    else {}
  }

  predicate IsDomainOp(op: Op) {
    ObjectName(op) == "Domain"
  }

  predicate IsTenantOp(op: Op) {
    ObjectName(op) == "Tenant"
  }

  predicate IsPrincipalOp(op: Op) {
    ObjectName(op) == "Account" || ObjectName(op) == "MailingList"
  }

  lemma DomainOpOnly(op: Op)
    requires IsDomainOp(op)
    ensures !IsTenantOp(op) && !IsPrincipalOp(op)
  {
    assert |"Domain"| != |"Account"| && |"Domain"| != |"MailingList"| && "Domain"[0] != "Tenant"[0];
  }

  /** The operation among the first n that creates domain d, the last one when
      several do, or -1. */
  function DomainOpOf(ops: seq<Op>, d: string, n: nat): (i: int)
    requires n <= |ops|
    ensures -1 <= i < n
    ensures i >= 0 ==> IsDomainOp(ops[i]) && d in CreateBodies(ops[i])
  {
    if n == 0 then -1
    else if IsDomainOp(ops[n - 1]) && d in CreateBodies(ops[n - 1]) then n - 1
    else DomainOpOf(ops, d, n - 1)
  }

  predicate IsDomain(ops: seq<Op>, d: string) {
    DomainOpOf(ops, d, |ops|) >= 0
  }

  function DomainBody(ops: seq<Op>, d: string): Body
    requires IsDomain(ops, d)
  {
    CreateBodies(ops[DomainOpOf(ops, d, |ops|)])[d]
  }

  /** The tenant a domain declares, "" for none. */
  function DomainTenant(ops: seq<Op>, d: string): string
    requires IsDomain(ops, d)
  {
    StringField(DomainBody(ops, d), MEMBER_TENANT)
  }

  function TenantsOfOp(op: Op): map<string, string> {
    if IsTenantOp(op) then map t | t in CreateBodies(op) :: StringField(CreateBodies(op)[t], NAME) else map[]
  }

  function TenantNamesUpTo(ops: seq<Op>, n: nat): map<string, string>
    requires n <= |ops|
  {
    if n == 0 then map[] else TenantNamesUpTo(ops, n - 1) + TenantsOfOp(ops[n - 1])
  }

  function TenantNames(ops: seq<Op>): map<string, string> {
    TenantNamesUpTo(ops, |ops|)
  }

  /** A domain and a tenant reference that some principal needs it to have. */
  datatype Want = Want(domain: string, tenant: string)

  function WantsOfBody(body: Body): set<Want> {
    var t := StringField(body, MEMBER_TENANT);
    if t == "" then {} else set d | d in DomainRefs(body) :: Want(d, t)
  }

  function WantsOfOp(op: Op): set<Want> {
    if IsPrincipalOp(op) then
      set cid, w | cid in CreateBodies(op) && w in WantsOfBody(CreateBodies(op)[cid]) :: w
    else {}
  }

  function WantsUpTo(ops: seq<Op>, n: nat): set<Want>
    requires n <= |ops|
  {
    if n == 0 then {} else WantsUpTo(ops, n - 1) + WantsOfOp(ops[n - 1])
  }

  function Wants(ops: seq<Op>): set<Want> {
    WantsUpTo(ops, |ops|)
  }

  /** The tenants that principals need domain d to have. */
  function WantedOf(wants: set<Want>, d: string): set<string> {
    set w | w in wants && w.domain == d :: w.tenant
  }

  /** Sets the tenant of a domain in place: one field of one body. */
  function SetTenant(ops: seq<Op>, d: string, t: string): seq<Op>
    requires IsDomain(ops, d)
  {
    var i := DomainOpOf(ops, d, |ops|);
    var body := DomainBody(ops, d)[MEMBER_TENANT := Str(t)];
    ops[i := ops[i][VALUE := Obj(ops[i][VALUE].fields[d := Obj(body)])]]
  }

  /** Operations that create the same objects under the same names have their
      domains in the same places, and read the same tenants and wants where they
      are equal. */
  ghost predicate SameShape(a: seq<Op>, b: seq<Op>) {
    && |a| == |b|
    && (forall i :: 0 <= i < |a| ==>
          ObjectName(a[i]) == ObjectName(b[i]) && CreateBodies(a[i]).Keys == CreateBodies(b[i]).Keys)
    && (forall i :: 0 <= i < |a| && !IsDomainOp(a[i]) ==> a[i] == b[i])
  }

  lemma SameOpReads(x: Op, y: Op)
    requires ObjectName(x) == ObjectName(y) && CreateBodies(x).Keys == CreateBodies(y).Keys
    requires !IsDomainOp(x) ==> x == y
    ensures IsDomainOp(x) == IsDomainOp(y)
    ensures TenantsOfOp(x) == TenantsOfOp(y)
    ensures WantsOfOp(x) == WantsOfOp(y)
  {
    if IsDomainOp(x) {
      DomainOpOnly(x);
      DomainOpOnly(y);
      hide CreateBodies, ObjectName;
    }
  }

  lemma {:induction false} SameShapeReads(a: seq<Op>, b: seq<Op>, n: nat)
    requires SameShape(a, b) && n <= |a|
    ensures forall d :: DomainOpOf(a, d, n) == DomainOpOf(b, d, n)
    ensures TenantNamesUpTo(a, n) == TenantNamesUpTo(b, n)
    ensures WantsUpTo(a, n) == WantsUpTo(b, n)
  {
    hide ObjectName, IsDomainOp, CreateBodies, TenantsOfOp, WantsOfOp;
    if n > 0 {
      SameShapeReads(a, b, n - 1);
      SameOpReads(a[n - 1], b[n - 1]);
    }
  }

  lemma SameNameSameKind(x: Op, y: Op)
    requires ObjectName(x) == ObjectName(y)
    ensures IsDomainOp(x) == IsDomainOp(y)
  {
  }

  /** Replacing one body of an operation. */
  lemma ReplaceBody(op: Op, d: string, body: Body)
    requires d in CreateBodies(op)
    ensures var after := op[VALUE := Obj(op[VALUE].fields[d := Obj(body)])];
            && ObjectName(after) == ObjectName(op)
            && CreateBodies(after) == CreateBodies(op)[d := body]
  {
    assert |OBJECT| != |VALUE|;
  }

  lemma SetTenantShape(ops: seq<Op>, d: string, t: string)
    requires IsDomain(ops, d)
    ensures SameShape(ops, SetTenant(ops, d, t))
    ensures var i := DomainOpOf(ops, d, |ops|);
            && CreateBodies(SetTenant(ops, d, t)[i])
               == CreateBodies(ops[i])[d := DomainBody(ops, d)[MEMBER_TENANT := Str(t)]]
            && SetTenant(ops, d, t)[i] - {VALUE} == ops[i] - {VALUE}
            && forall j :: 0 <= j < |ops| && j != i ==> SetTenant(ops, d, t)[j] == ops[j]
  {
    var after := SetTenant(ops, d, t);
    var i := DomainOpOf(ops, d, |ops|);
    ReplaceBody(ops[i], d, DomainBody(ops, d)[MEMBER_TENANT := Str(t)]);
    SameNameSameKind(after[i], ops[i]);
    assert IsDomainOp(ops[i]);
    hide CreateBodies, ObjectName, StringField, IsDomainOp;
  }

  /** Setting a domain's tenant changes that field of that body and nothing else. */
  lemma SetTenantFrame(ops: seq<Op>, d: string, t: string)
    requires IsDomain(ops, d)
    ensures SameShape(ops, SetTenant(ops, d, t))
    ensures forall e :: IsDomain(SetTenant(ops, d, t), e) == IsDomain(ops, e)
    ensures TenantNames(SetTenant(ops, d, t)) == TenantNames(ops)
    ensures Wants(SetTenant(ops, d, t)) == Wants(ops)
    ensures DomainBody(SetTenant(ops, d, t), d) == DomainBody(ops, d)[MEMBER_TENANT := Str(t)]
    ensures forall e :: IsDomain(ops, e) && e != d ==> DomainBody(SetTenant(ops, d, t), e) == DomainBody(ops, e)
  {
    SetTenantShape(ops, d, t);
    SameShapeReads(ops, SetTenant(ops, d, t), |ops|);
    hide CreateBodies, WantsUpTo, TenantNamesUpTo, StringField, IsDomainOp, SameShape, SetTenant;
  }
}
