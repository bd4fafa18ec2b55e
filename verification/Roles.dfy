/** internal/applyplan/roles.go: restoring the admin roles a migration drops. */
module Roles {
  import opened Text
  import opened Order
  import opened PlanBuild

  datatype Principal = Principal(kind: string, name: string, emails: seq<string>, roles: seq<string>)

  const ADMIN := "Admin"
  const USER := "User"

  predicate Individual(p: Principal) {
    EqualFold(p.kind, "individual")
  }

  /** The position of the first '@', or the length of the name. */
  function AtSign(name: string): (i: nat)
    ensures i <= |name| && (i < |name| ==> name[i] == '@') && '@' !in name[..i]
  {
    if name == "" || name[0] == '@' then 0
    else
      var i := AtSign(name[1..]);
      assert name[..i + 1] == [name[0]] + name[1..][..i];
      1 + i
  }

  /** The account name v0.16 will hold. */
  function LocalPart(p: Principal): string {
    var name := if p.name == "" && |p.emails| > 0 then p.emails[0] else p.name;
    if 0 < AtSign(name) then name[..AtSign(name)] else name
  }

  // ------------------------------------------------------------------- roleVariant

  function RoleName(r: string): string {
    ToLower(TrimSpace(r))
  }

  predicate IsAdminRole(r: string) {
    RoleName(r) == "admin" || RoleName(r) == "administrator"
  }

  predicate IsUserRole(r: string) {
    RoleName(r) == "user"
  }

  ghost predicate HoldsAdmin(roles: seq<string>) {
    exists r :: r in roles && IsAdminRole(r)
  }

  function Unknown(roles: seq<string>): seq<string> {
    if roles == [] then []
    else
      var r := roles[|roles| - 1];
      Unknown(roles[..|roles| - 1]) + if IsAdminRole(r) || IsUserRole(r) then [] else [r]
  }

  /** What the operator is told about an account's roles; empty when neither part says anything. */
  datatype Note = Note(unknown: seq<string>, collapsed: bool)

  const SILENT := Note([], false)

  /** One v0.16 variant for a list of v0.15 roles: admin wins. */
  method RoleVariant(roles: seq<string>) returns (variant: string, note: Note)
    ensures variant == VariantOf(roles)
    ensures note == NoteOf(roles)
  {
    hide IsAdminRole, IsUserRole;
    if |roles| == 0 {
      return "", SILENT;
    }
    var hasAdmin, hasUser := false, false;
    var unknown := [];
    for i := 0 to |roles|
      invariant hasAdmin <==> HoldsAdmin(roles[..i])
      invariant hasUser <==> exists r :: r in roles[..i] && IsUserRole(r)
      invariant unknown == Unknown(roles[..i])
    {
      var r := roles[i];
      assert roles[..i + 1] == roles[..i] + [r];
      AdminIsNotUser(r);
      if IsAdminRole(r) {
        hasAdmin := true;
      } else if IsUserRole(r) {
        hasUser := true;
      } else {
        unknown := unknown + [r];
      }
    }
    assert roles[..|roles|] == roles;
    UnknownIn(roles);
    OthersHeld(roles);
    if hasAdmin {
      return ADMIN, Note(unknown, hasUser || |unknown| > 0);
    } else if hasUser {
      return USER, Note(unknown, false);
    }
    return "", Note(unknown, false);
  }

  lemma AdminIsNotUser(r: string)
    ensures !(IsAdminRole(r) && IsUserRole(r))
  {
    assert "user"[0] != "admin"[0] && "user"[0] != "administrator"[0];
  }

  ghost function VariantOf(roles: seq<string>): string {
    if HoldsAdmin(roles) then ADMIN else if exists r :: r in roles && IsUserRole(r) then USER else ""
  }

  ghost function NoteOf(roles: seq<string>): Note {
    Note(Unknown(roles), HoldsAdmin(roles) && exists r :: r in roles && !IsAdminRole(r))
  }

  lemma {:induction false} UnknownIn(roles: seq<string>)
    ensures forall r :: r in Unknown(roles) <==> r in roles && !IsAdminRole(r) && !IsUserRole(r)
  {
    hide IsAdminRole, IsUserRole;
    if roles != [] {
      var before, last := roles[..|roles| - 1], roles[|roles| - 1];
      UnknownIn(before);
      assert forall r :: r in roles <==> r in before || r == last;
    }
  }

  lemma OthersHeld(roles: seq<string>)
    ensures (exists r :: r in roles && !IsAdminRole(r))
            <==> (exists r :: r in roles && IsUserRole(r)) || |Unknown(roles)| > 0
  {
    hide IsAdminRole, IsUserRole, Unknown;
    UnknownIn(roles);
    if r :| r in roles && !IsAdminRole(r) {
      assert !IsUserRole(r) ==> r in Unknown(roles);
    }
    if r :| r in roles && IsUserRole(r) {
      AdminIsNotUser(r);
    }
    if |Unknown(roles)| > 0 {
      assert Unknown(roles)[0] in Unknown(roles);
    }
  }

  // --------------------------------------------------------- AccountRoleOperations

  datatype RoleWarning =
    | RoleNote(account: string, note: Note)
    | Ambiguous(account: string, count: nat, localPart: string)

  datatype Change = Change(localPart: string, variant: string, source: string)

  /** How many individuals will be accounts of this name. */
  function Sharing(ps: seq<Principal>, local: string): nat {
    if ps == [] then 0
    else
      var p := ps[|ps| - 1];
      Sharing(ps[..|ps| - 1], local) + if Individual(p) && LocalPart(p) == local then 1 else 0
  }

  /** The individual held an admin role and its account name is its own. */
  ghost predicate Restorable(all: seq<Principal>, p: Principal) {
    Individual(p) && HoldsAdmin(p.roles) && Sharing(all, LocalPart(p)) <= 1
  }

  ghost function WarningsFor(all: seq<Principal>, p: Principal): seq<RoleWarning> {
    if !Individual(p) then []
    else
      var local := LocalPart(p);
      (if NoteOf(p.roles) == SILENT then [] else [RoleNote(p.name, NoteOf(p.roles))])
      + if HoldsAdmin(p.roles) && Sharing(all, local) > 1 then [Ambiguous(p.name, Sharing(all, local), local)] else []
  }

  ghost function WarningsOf(all: seq<Principal>, ps: seq<Principal>): seq<RoleWarning> {
    if ps == [] then [] else WarningsOf(all, ps[..|ps| - 1]) + WarningsFor(all, ps[|ps| - 1])
  }

  ghost function ChangesFor(all: seq<Principal>, p: Principal): seq<Change> {
    if Restorable(all, p) then [Change(LocalPart(p), ADMIN, p.name)] else []
  }

  ghost function ChangesOf(all: seq<Principal>, ps: seq<Principal>): seq<Change> {
    if ps == [] then [] else ChangesOf(all, ps[..|ps| - 1]) + ChangesFor(all, ps[|ps| - 1])
  }

  function OperationOf(c: Change): Operation {
    Operation("Account", ["name"], map["role-" + c.localPart := AccountRole(c.localPart, c.variant)])
  }

  function OperationsOf(cs: seq<Change>): seq<Operation> {
    seq(|cs|, i requires 0 <= i < |cs| => OperationOf(cs[i]))
  }

  function CoveredBy(cs: seq<Change>): seq<string> {
    seq(|cs|, i requires 0 <= i < |cs| => "principal:" + cs[i].source + ":roles")
  }

  predicate SortedByLocalPart(cs: seq<Change>) {
    forall i, j :: 0 <= i < j < |cs| ==> Less(cs[i].localPart, cs[j].localPart)
  }

  predicate DistinctLocalParts(cs: seq<Change>) {
    forall i, j :: 0 <= i < j < |cs| ==> cs[i].localPart != cs[j].localPart
  }

  /** The changes in the order they are emitted. */
  ghost predicate IsPlanned(ps: seq<Principal>, cs: seq<Change>) {
    SortedByLocalPart(cs) && forall c :: c in cs <==> c in ChangesOf(ps, ps)
  }

  method CountLocalParts(ps: seq<Principal>) returns (count: map<string, nat>)
    ensures forall x :: (if x in count then count[x] else 0) == Sharing(ps, x)
  {
    hide Individual, LocalPart;
    count := map[];
    for i := 0 to |ps|
      invariant forall x :: (if x in count then count[x] else 0) == Sharing(ps[..i], x)
    {
      assert ps[..i + 1][..i] == ps[..i];
      if Individual(ps[i]) {
        var local := LocalPart(ps[i]);
        count := count[local := (if local in count then count[local] else 0) + 1];
      }
    }
    assert ps[..|ps|] == ps;
  }

  /** The turn of the second loop for one principal. */
  method Consider(ghost all: seq<Principal>, p: Principal, count: map<string, nat>)
    returns (changes: seq<Change>, warnings: seq<RoleWarning>)
    requires forall x :: (if x in count then count[x] else 0) == Sharing(all, x)
    ensures changes == ChangesFor(all, p) && warnings == WarningsFor(all, p)
  {
    hide Individual, LocalPart, HoldsAdmin, NoteOf, Sharing;
    changes, warnings := [], [];
    if !Individual(p) {
      return;
    }
    var variant, note := RoleVariant(p.roles);
    if note != SILENT {
      warnings := [RoleNote(p.name, note)];
    }
    if variant == "" || variant == USER {
      return;
    }
    var local := LocalPart(p);
    var sharing := if local in count then count[local] else 0;
    if sharing > 1 {
      warnings := warnings + [Ambiguous(p.name, sharing, local)];
      return;
    }
    changes := [Change(local, variant, p.name)];
  }

  method ChangesAndWarnings(ps: seq<Principal>, count: map<string, nat>) returns (changes: seq<Change>,
        warnings: seq<RoleWarning>)
    requires forall x :: (if x in count then count[x] else 0) == Sharing(ps, x)
    ensures changes == ChangesOf(ps, ps) && warnings == WarningsOf(ps, ps)
  {
    hide ChangesFor, WarningsFor, Sharing;
    changes, warnings := [], [];
    for i := 0 to |ps|
      invariant changes == ChangesOf(ps, ps[..i]) && warnings == WarningsOf(ps, ps[..i])
    {
      assert ps[..i + 1][..i] == ps[..i];
      var more, cautions := Consider(ps, ps[i], count);
      changes, warnings := changes + more, warnings + cautions;
    }
    assert ps[..|ps|] == ps;
  }

  /** sort.Slice on changes whose local parts are all different. */
  method SortChanges(cs: seq<Change>) returns (r: seq<Change>)
    requires DistinctLocalParts(cs)
    ensures SortedByLocalPart(r) && forall c :: c in r <==> c in cs
  {
    hide Less, Sorted;
    var locals := SortKeys(set c | c in cs :: c.localPart);
    r := [];
    for i := 0 to |locals|
      invariant |r| == i && forall k :: 0 <= k < i ==> r[k] in cs && r[k].localPart == locals[k]
    {
      assert locals[i] in locals;
      var c :| c in cs && c.localPart == locals[i];
      r := r + [c];
    }
    forall c | c in cs
      ensures c in r
    {
      assert c.localPart in locals;
      var k :| 0 <= k < |locals| && locals[k] == c.localPart;
      assert r[k] == c;
    }
  }

  method AccountRoleOperations(ps: seq<Principal>)
    returns (ops: seq<Operation>, covered: seq<string>, warnings: seq<RoleWarning>, ghost planned: seq<Change>)
    ensures IsPlanned(ps, planned)
    ensures ops == OperationsOf(planned) && covered == CoveredBy(planned)
    ensures warnings == WarningsOf(ps, ps)
  {
    hide Individual, LocalPart, HoldsAdmin, NoteOf, Sharing, Less;
    var count := CountLocalParts(ps);
    var changes;
    changes, warnings := ChangesAndWarnings(ps, count);
    ChangesAreDistinct(ps, ps);
    changes := SortChanges(changes);
    planned := changes;
    ops, covered := [], [];
    for i := 0 to |changes|
      invariant |ops| == |covered| == i
      invariant forall k :: 0 <= k < i ==> ops[k] == OperationsOf(changes)[k] && covered[k] == CoveredBy(changes)[k]
    {
      var c := changes[i];
      ops := ops + [Operation("Account", ["name"], map["role-" + c.localPart := AccountRole(c.localPart, c.variant)])];
      covered := covered + ["principal:" + c.source + ":roles"];
    }
  }

  lemma {:induction false} SharingGrows(ps: seq<Principal>, n: nat, local: string)
    requires n <= |ps|
    ensures Sharing(ps[..n], local) <= Sharing(ps, local)
  {
    hide Individual, LocalPart;
    if n == |ps| {
      assert ps[..n] == ps;
    } else {
      SharingGrows(ps[..|ps| - 1], n, local);
      assert ps[..|ps| - 1][..n] == ps[..n];
    }
  }

  lemma {:induction false} SharingSees(ps: seq<Principal>, i: nat)
    requires i < |ps| && Individual(ps[i])
    ensures Sharing(ps[..i + 1], LocalPart(ps[i])) == Sharing(ps[..i], LocalPart(ps[i])) + 1
    ensures Sharing(ps, LocalPart(ps[i])) >= 1
  {
    hide Individual, LocalPart;
    assert ps[..i + 1][..i] == ps[..i];
    SharingGrows(ps, i + 1, LocalPart(ps[i]));
  }

  /** Two different individuals of the same local part make it shared. */
  lemma SharedIsAmbiguous(ps: seq<Principal>, i: nat, j: nat)
    requires i < j < |ps| && Individual(ps[i]) && Individual(ps[j]) && LocalPart(ps[i]) == LocalPart(ps[j])
    ensures Sharing(ps, LocalPart(ps[i])) > 1
  {
    hide Individual, LocalPart, Sharing;
    var local := LocalPart(ps[i]);
    SharingSees(ps[..j], i);
    SharingSees(ps, j);
    SharingGrows(ps, j + 1, local);
  }

  /** Every planned change comes from one principal, and every restorable one is planned. */
  lemma {:induction false} ChangesIn(all: seq<Principal>, ps: seq<Principal>)
    ensures forall c :: c in ChangesOf(all, ps) <==>
                        exists p :: p in ps && Restorable(all, p) && c == Change(LocalPart(p), ADMIN, p.name)
  {
    hide Restorable, LocalPart;
    if ps != [] {
      var before, last := ps[..|ps| - 1], ps[|ps| - 1];
      ChangesIn(all, before);
      assert forall p :: p in ps <==> p in before || p == last;
    }
  }

  lemma {:induction false} ChangesAreDistinct(all: seq<Principal>, ps: seq<Principal>)
    requires ps <= all
    ensures DistinctLocalParts(ChangesOf(all, ps))
  {
    hide Individual, LocalPart, HoldsAdmin, Sharing;
    if ps != [] {
      var n := |ps| - 1;
      var before, last := ps[..n], ps[n];
      ChangesAreDistinct(all, before);
      ChangesIn(all, before);
      var cs := ChangesOf(all, before);
      if Restorable(all, last) {
        forall i | 0 <= i < |cs|
          ensures cs[i].localPart != LocalPart(last)
        {
          assert cs[i] in cs;
          var p :| p in before && Restorable(all, p) && cs[i] == Change(LocalPart(p), ADMIN, p.name);
          var k :| 0 <= k < n && before[k] == p;
          assert all[k] == p && all[n] == last;
          if LocalPart(p) == LocalPart(last) {
            SharedIsAmbiguous(all, k, n);
          }
        }
        assert ChangesOf(all, ps) == cs + [Change(LocalPart(last), ADMIN, last.name)];
      } else {
        assert ChangesOf(all, ps) == cs;
      }
    }
  }

  // ------------------------------------------------------------- applying the plan

  /** A migrated account: v0.16 matches the upserts on the name alone. */
  datatype Account = Account(name: string, role: string)

  ghost predicate Sets(op: Operation, name: string, variant: string) {
    && op.kind == "Account" && op.matchOn == ["name"]
    && |op.values| == 1 && forall id :: id in op.values ==> op.values[id] == AccountRole(name, variant)
  }

  /** The role an account has after the operations, in order. */
  ghost function RoleAfter(a: Account, ops: seq<Operation>): string {
    if ops == [] then a.role
    else
      var last := ops[|ops| - 1];
      if exists v :: Sets(last, a.name, v) then
        var v :| Sets(last, a.name, v); v
      else RoleAfter(a, ops[..|ops| - 1])
  }

  lemma OperationSets(c: Change, name: string, variant: string)
    ensures Sets(OperationOf(c), name, variant) <==> name == c.localPart && variant == c.variant
  {
    var key := "role-" + c.localPart;
    var op := OperationOf(c);
    assert op.values.Keys == {key} && op.values[key] == AccountRole(c.localPart, c.variant);
  }

  lemma {:induction false} RoleAfterChanges(a: Account, cs: seq<Change>)
    requires forall c :: c in cs ==> c.variant == ADMIN
    ensures RoleAfter(a, OperationsOf(cs)) == if exists c :: c in cs && c.localPart == a.name then ADMIN else a.role
  {
    hide Sets, OperationOf;
    if cs != [] {
      var before, last := cs[..|cs| - 1], cs[|cs| - 1];
      assert OperationsOf(cs)[..|cs| - 1] == OperationsOf(before);
      RoleAfterChanges(a, before);
      assert last in cs;
      forall v
        ensures Sets(OperationOf(last), a.name, v) <==> a.name == last.localPart && v == ADMIN
      {
        OperationSets(last, a.name, v);
      }
      assert forall c :: c in cs <==> c in before || c == last;
      assert OperationsOf(cs)[|cs| - 1] == OperationOf(last);
      if a.name == last.localPart {
        assert Sets(OperationOf(last), a.name, ADMIN);
      } else {
        assert forall v :: !Sets(OperationOf(last), a.name, v);
        assert RoleAfter(a, OperationsOf(cs)) == RoleAfter(a, OperationsOf(before));
      }
    }
  }

  /** Applying the plan to the account of individual i makes it Admin exactly when
      that individual was an admin whose local part is its own; otherwise it keeps its role. */
  lemma RolesReachTheRightAccounts(ps: seq<Principal>, cs: seq<Change>, i: nat, role: string)
    requires IsPlanned(ps, cs) && i < |ps| && Individual(ps[i])
    ensures RoleAfter(Account(LocalPart(ps[i]), role), OperationsOf(cs))
            == if HoldsAdmin(ps[i].roles) && Sharing(ps, LocalPart(ps[i])) == 1 then ADMIN else role
  {
    hide Individual, LocalPart, HoldsAdmin, Sharing, OperationsOf, RoleAfter, SortedByLocalPart;
    ChangesIn(ps, ps);
    var a := Account(LocalPart(ps[i]), role);
    RoleAfterChanges(a, cs);
    SharingSees(ps, i);
    if Restorable(ps, ps[i]) {
      assert ps[i] in ps && Change(a.name, ADMIN, ps[i].name) in cs;
    }
    if c :| c in cs && c.localPart == a.name {
      var p :| p in ps && Restorable(ps, p) && c == Change(LocalPart(p), ADMIN, p.name);
      var k :| 0 <= k < |ps| && ps[k] == p;
      if k < i { SharedIsAmbiguous(ps, k, i); }
      if i < k { SharedIsAmbiguous(ps, i, k); }
      assert k == i;
    }
  }

  /** No operation creates an account: each names one individual, and that one only. */
  lemma NoAccountIsCreated(ps: seq<Principal>, cs: seq<Change>, n: nat)
    requires IsPlanned(ps, cs) && n < |cs|
    ensures exists i :: 0 <= i < |ps| && Individual(ps[i]) && Sets(OperationsOf(cs)[n], LocalPart(ps[i]), ADMIN)
                        && forall j :: 0 <= j < |ps| && Individual(ps[j]) && LocalPart(ps[j]) == LocalPart(ps[i]) ==>
                                         j == i
  {
    hide Individual, LocalPart, HoldsAdmin, Sharing, Sets, OperationOf, SortedByLocalPart;
    ChangesIn(ps, ps);
    var c := cs[n];
    assert c in cs;
    var p :| p in ps && Restorable(ps, p) && c == Change(LocalPart(p), ADMIN, p.name);
    var i :| 0 <= i < |ps| && ps[i] == p;
    OperationSets(c, LocalPart(p), ADMIN);
    forall j | 0 <= j < |ps| && Individual(ps[j]) && LocalPart(ps[j]) == LocalPart(ps[i])
      ensures j == i
    {
      if j < i { SharedIsAmbiguous(ps, j, i); }
      if i < j { SharedIsAmbiguous(ps, i, j); }
    }
  }

  lemma {:induction false} WarningsIn(all: seq<Principal>, ps: seq<Principal>)
    ensures forall w :: w in WarningsOf(all, ps) <==> exists p :: p in ps && w in WarningsFor(all, p)
  {
    hide WarningsFor;
    if ps != [] {
      var before, last := ps[..|ps| - 1], ps[|ps| - 1];
      WarningsIn(all, before);
      assert forall p :: p in ps <==> p in before || p == last;
    }
  }

  /** Every admin whose role was not restored is reported, and no one else is. */
  lemma EveryAmbiguousAdminIsReported(ps: seq<Principal>, name: string, count: nat, local: string)
    ensures Ambiguous(name, count, local) in WarningsOf(ps, ps)
            <==> exists p :: p in ps && Individual(p) && HoldsAdmin(p.roles) && !Restorable(ps, p)
                             && p.name == name && LocalPart(p) == local && count == Sharing(ps, local)
  {
    hide Individual, LocalPart, HoldsAdmin, Sharing, NoteOf;
    WarningsIn(ps, ps);
    if p :| p in ps && Individual(p) && HoldsAdmin(p.roles) && !Restorable(ps, p)
            && p.name == name && LocalPart(p) == local && count == Sharing(ps, local) {
      assert Ambiguous(name, count, local) in WarningsFor(ps, p);
    }
  }

  // ------------------------------------------------------- said of the names alone

  /** What v0.15 calls the principal: its name, or else its first email. */
  predicate IsCalled(p: Principal, raw: string) {
    if p.name != "" then raw == p.name else if p.emails != [] then raw == p.emails[0] else raw == ""
  }

  /** The account name for it: what stands before the first "@", if anything does. */
  ghost predicate Becomes(raw: string, local: string) {
    || (exists d :: '@' !in local && local != "" && raw == local + "@" + d)
    || (raw == local && ('@' !in raw || raw[0] == '@'))
  }

  /** No character before the first "@" is one. */
  lemma BeforeAtSign(raw: string)
    ensures forall k :: 0 <= k < AtSign(raw) ==> raw[k] != '@'
  {
    hide AtSign;
    var i := AtSign(raw);
    assert forall k :: 0 <= k < i ==> raw[..i][k] == raw[k] && raw[..i][k] in raw[..i];
  }

  lemma AtSignOf(local: string, d: string)
    requires '@' !in local
    ensures AtSign(local + "@" + d) == |local|
  {
    hide AtSign;
    var raw := local + "@" + d;
    BeforeAtSign(raw);
    assert forall k :: 0 <= k < |local| ==> raw[k] == local[k] && local[k] in local;
    assert raw[|local|] == '@';
  }

  /** A name with something before its first "@". */
  lemma CutName(raw: string, local: string)
    requires 0 < AtSign(raw) < |raw|
    ensures raw[..AtSign(raw)] == local <==> Becomes(raw, local)
  {
    hide AtSign;
    var i := AtSign(raw);
    BeforeAtSign(raw);
    assert raw == raw[..i] + "@" + raw[i + 1..];
    assert raw[i] in raw;
    if d :| '@' !in local && local != "" && raw == local + "@" + d {
      AtSignOf(local, d);
      assert raw[..|local|] == local;
    }
  }

  /** A name without "@", or that starts with it. */
  lemma WholeName(raw: string, local: string)
    requires AtSign(raw) == 0 || AtSign(raw) == |raw|
    ensures raw == local <==> Becomes(raw, local)
  {
    hide AtSign;
    BeforeAtSign(raw);
    if d :| '@' !in local && local != "" && raw == local + "@" + d {
      AtSignOf(local, d);
    }
  }

  lemma NameExactly(p: Principal, raw: string, local: string)
    requires IsCalled(p, raw)
    ensures LocalPart(p) == local <==> Becomes(raw, local)
  {
    hide AtSign, Becomes;
    if 0 < AtSign(raw) < |raw| {
      CutName(raw, local);
    } else {
      WholeName(raw, local);
      assert raw[..|raw|] == raw;
    }
  }

  /** The role is an admin's, whatever white space surrounds it and whatever its case. */
  ghost predicate SaysAdmin(role: string) {
    exists left, w, right :: IsPadded(role, left, w, right) && (ToLower(w) == "admin" || ToLower(w) == "administrator")
  }

  lemma AdminExactly(role: string)
    ensures IsAdminRole(role) <==> SaysAdmin(role)
  {
    hide TrimSpace, ToLower, IsWord, AllSpace;
    if IsAdminRole(role) {
      AdminIsWord(TrimSpace(role));
      var left, right := Padding(role);
      assert IsPadded(role, left, TrimSpace(role), right);
    }
    if left, w, right :| IsPadded(role, left, w, right) && (ToLower(w) == "admin" || ToLower(w) == "administrator") {
      PaddedTrims(role, left, w, right);
    }
  }

  lemma AdminIsWord(w: string)
    requires ToLower(w) == "admin" || ToLower(w) == "administrator"
    ensures IsWord(w)
  {
    forall i | 0 <= i < |w|
      ensures !IsSpace(w[i])
    {
      assert 'a' <= ToLower(w)[i] <= 't';
    }
  }

  /** How many individuals share an account name is how many there are of it. */
  ghost function Sharers(ps: seq<Principal>, local: string): set<nat> {
    set j: nat | j < |ps| && Individual(ps[j]) && LocalPart(ps[j]) == local
  }

  lemma {:induction false} SharingCounts(ps: seq<Principal>, local: string)
    ensures Sharing(ps, local) == |Sharers(ps, local)|
  {
    hide Individual, LocalPart;
    if ps == [] {
      assert Sharers(ps, local) == {};
    } else {
      var n := |ps| - 1;
      SharingCounts(ps[..n], local);
      var own := if Individual(ps[n]) && LocalPart(ps[n]) == local then {n} else {};
      assert Sharers(ps, local) == Sharers(ps[..n], local) + own;
      assert n !in Sharers(ps[..n], local);
    }
  }

  lemma SharedOnce(ps: seq<Principal>, i: nat)
    requires i < |ps| && Individual(ps[i])
    ensures Sharing(ps, LocalPart(ps[i])) == 1
            <==> forall j :: 0 <= j < |ps| && j != i && Individual(ps[j]) ==> LocalPart(ps[j]) != LocalPart(ps[i])
  {
    hide Individual, LocalPart, Sharing;
    var local := LocalPart(ps[i]);
    var sharers := Sharers(ps, local);
    SharingCounts(ps, local);
    assert i in sharers;
    var rest := sharers - {i};
    assert |rest| == |sharers| - 1;
    if |sharers| == 1 {
      assert rest == {};
      forall j | 0 <= j < |ps| && j != i && Individual(ps[j])
        ensures LocalPart(ps[j]) != local
      {
        assert j !in rest;
      }
    } else {
      var j :| j in rest;
      assert j != i && Individual(ps[j]) && LocalPart(ps[j]) == local;
    }
  }

  predicate IsIndividual(p: Principal) {
    ToLower(p.kind) == "individual"
  }

  lemma IndividualExactly(p: Principal)
    ensures Individual(p) <==> IsIndividual(p)
  {
    LowerIsLow("individual") by {
      assert forall i :: 0 <= i < |"individual"| ==> 'a' <= "individual"[i] <= 'z';
      NoCapital("individual");
    }
  }

  lemma NoCapital(s: string)
    requires forall i :: 0 <= i < |s| ==> 'a' <= s[i] <= 'z'
    ensures forall i :: 0 <= i < |s| ==> s[i] !in "ABCDEFGHIJKLMNOPQRSTUVWXYZ"
  {
    var all := "ABCDEFGHIJKLMNOPQRSTUVWXYZ";
    assert forall k :: 0 <= k < |all| ==> 'A' <= all[k] <= 'Z';
  }

  /** Applying the plan to the account an individual becomes makes it Admin exactly when
      that individual held an admin role and no other becomes an account of that name. */
  lemma AdminsKeepTheirRole(ps: seq<Principal>, cs: seq<Change>, i: nat, local: string, role: string,
        names: seq<string>)
    requires IsPlanned(ps, cs) && i < |ps| && IsIndividual(ps[i])
    requires |names| == |ps| && (forall j :: 0 <= j < |ps| ==> IsCalled(ps[j], names[j])) && Becomes(names[i], local)
    ensures RoleAfter(Account(local, role), OperationsOf(cs))
            == if (exists r :: r in ps[i].roles && SaysAdmin(r))
                  && (forall j :: 0 <= j < |ps| && j != i && IsIndividual(ps[j]) ==> !Becomes(names[j], local))
               then "Admin" else role
  {
    hide Individual, LocalPart, Sharing, OperationsOf, RoleAfter, SortedByLocalPart, IsPlanned, IsAdminRole, SaysAdmin,
         Becomes, IsCalled, IsIndividual;
    forall j | 0 <= j < |ps|
      ensures Individual(ps[j]) <==> IsIndividual(ps[j])
      ensures LocalPart(ps[j]) == local <==> Becomes(names[j], local)
    {
      IndividualExactly(ps[j]);
      NameExactly(ps[j], names[j], local);
    }
    forall r
      ensures IsAdminRole(r) <==> SaysAdmin(r)
    {
      AdminExactly(r);
    }
    SharedOnce(ps, i);
    RolesReachTheRightAccounts(ps, cs, i, role);
  }

  ghost predicate SaysUser(role: string) {
    exists left, w, right :: IsPadded(role, left, w, right) && ToLower(w) == "user"
  }

  lemma UserExactly(role: string)
    ensures IsUserRole(role) <==> SaysUser(role)
  {
    hide TrimSpace, ToLower, IsWord, AllSpace;
    if IsUserRole(role) {
      UserIsWord(TrimSpace(role));
      var left, right := Padding(role);
      assert IsPadded(role, left, TrimSpace(role), right);
    }
    if left, w, right :| IsPadded(role, left, w, right) && ToLower(w) == "user" {
      PaddedTrims(role, left, w, right);
    }
  }

  lemma UserIsWord(w: string)
    requires ToLower(w) == "user"
    ensures IsWord(w)
  {
    forall i | 0 <= i < |w|
      ensures !IsSpace(w[i])
    {
      assert 'a' <= ToLower(w)[i] <= 'u';
    }
  }

  /** What an account's note says: the roles that are neither an admin's nor a user's,
      and whether an admin's were not its only ones. */
  lemma NoteMeans(roles: seq<string>)
    ensures forall r :: r in NoteOf(roles).unknown <==> r in roles && !SaysAdmin(r) && !SaysUser(r)
    ensures NoteOf(roles).collapsed <==>
              (exists r :: r in roles && SaysAdmin(r)) && exists r :: r in roles && !SaysAdmin(r)
  {
    hide IsAdminRole, IsUserRole, SaysAdmin, SaysUser, Unknown;
    UnknownIn(roles);
    forall r
      ensures IsAdminRole(r) <==> SaysAdmin(r)
      ensures IsUserRole(r) <==> SaysUser(r)
    {
      AdminExactly(r);
      UserExactly(r);
    }
  }

  /** The entries reported as covered: one per individual that keeps its admin role. */
  lemma CoveredMeans(ps: seq<Principal>, cs: seq<Change>, entry: string)
    requires IsPlanned(ps, cs)
    ensures entry in CoveredBy(cs) <==>
              exists p :: p in ps && Restorable(ps, p) && entry == "principal:" + p.name + ":roles"
  {
    hide Restorable, LocalPart, SortedByLocalPart;
    ChangesIn(ps, ps);
    if entry in CoveredBy(cs) {
      var k :| 0 <= k < |cs| && CoveredBy(cs)[k] == entry;
      assert cs[k] in cs;
    }
    if p :| p in ps && Restorable(ps, p) && entry == "principal:" + p.name + ":roles" {
      var c := Change(LocalPart(p), ADMIN, p.name);
      assert c in ChangesOf(ps, ps);
      var k :| 0 <= k < |cs| && cs[k] == c;
      assert CoveredBy(cs)[k] == entry;
    }
  }

  /** The operations: one upsert per individual that keeps its admin role. */
  lemma OperationsMean(ps: seq<Principal>, cs: seq<Change>, op: Operation)
    requires IsPlanned(ps, cs)
    ensures op in OperationsOf(cs) <==>
              exists p :: p in ps && Restorable(ps, p)
                          && op == Operation("Account", ["name"],
                                             map["role-" + LocalPart(p) := AccountRole(LocalPart(p), "Admin")])
  {
    hide Restorable, LocalPart, SortedByLocalPart;
    ChangesIn(ps, ps);
    if op in OperationsOf(cs) {
      var k :| 0 <= k < |cs| && OperationsOf(cs)[k] == op;
      assert cs[k] in cs;
    }
    if p :| p in ps && Restorable(ps, p)
            && op == Operation("Account", ["name"], map["role-" + LocalPart(p) := AccountRole(LocalPart(p), "Admin")]) {
      var c := Change(LocalPart(p), ADMIN, p.name);
      assert c in ChangesOf(ps, ps);
      var k :| 0 <= k < |cs| && cs[k] == c;
      assert OperationsOf(cs)[k] == op;
    }
  }

  /** Warnings come in the order of the principals. */
  lemma {:induction false} WarningsInTurn(all: seq<Principal>, ps: seq<Principal>, more: seq<Principal>)
    ensures WarningsOf(all, ps + more) == WarningsOf(all, ps) + WarningsOf(all, more)
  {
    hide WarningsFor;
    if more == [] {
      assert ps + more == ps;
    } else {
      assert (ps + more)[..|ps + more| - 1] == ps + more[..|more| - 1];
      WarningsInTurn(all, ps, more[..|more| - 1]);
    }
  }
}
