/** The content comparison in terms of account names and lists of mailboxes. */
module ContentMeaning {
  import opened Order
  import opened ContentIntegrity
  import opened ContentProperties

  /** The name stands for an account of this local part: itself, or before its first "@". */
  predicate IsLocal(name: string, local: string) {
    '@' !in local && (name == local || local + "@" <= name)
  }

  lemma {:induction false} LocalExactly(name: string, local: string)
    ensures LocalPart(name) == local <==> IsLocal(name, local)
  {
    if name == "" {
    } else if name[0] == '@' {
      assert local != "" && local + "@" <= name ==> local[0] == '@' && local[0] in local;
      assert local == "" ==> local + "@" == "@";
    } else if local == "" {
      assert local + "@" == "@";
    } else {
      LocalExactly(name[1..], local[1..]);
      assert local == [local[0]] + local[1..] && name == [name[0]] + name[1..];
      assert local + "@" == [local[0]] + (local[1..] + "@");
      LocalStarts(name);
    }
  }

  lemma LocalStarts(name: string)
    requires name != "" && name[0] != '@'
    ensures LocalPart(name) == [name[0]] + LocalPart(name[1..])
  {
  }

  /** The two names have one local part. */
  ghost predicate SameLocal(x: string, y: string) {
    exists local :: IsLocal(x, local) && IsLocal(y, local)
  }

  lemma SameLocalExactly(x: string, y: string)
    ensures LocalPart(x) == LocalPart(y) <==> SameLocal(x, y)
  {
    hide LocalPart, IsLocal;
    forall local
      ensures LocalPart(x) == local <==> IsLocal(x, local)
      ensures LocalPart(y) == local <==> IsLocal(y, local)
    {
      LocalExactly(x, local);
      LocalExactly(y, local);
    }
    if LocalPart(x) == LocalPart(y) {
      assert IsLocal(x, LocalPart(x)) && IsLocal(y, LocalPart(x));
    }
  }

  /** The account is there after the migration, under its own name or a rewritten one. */
  ghost predicate IsThere(a: After, x: string) {
    exists y :: (y in a.counts || y in a.used || y in a.errors) && SameLocal(y, x)
  }

  /** Everything the source could count of the account is there: the account itself, and
      where mail was counted at all, its every mailbox with as many messages. */
  ghost predicate Survived(b: Before, a: After, x: string) {
    if b.counts == map[] then IsThere(a, x)
    else exists y :: y in a.counts && SameLocal(y, x)
                     && (x in b.counts ==> forall m :: m in b.counts[x] ==> m in a.counts[y])
  }

  lemma KeptExactly(b: Before, a: After, x: string)
    ensures Kept(b, a, x) <==> Survived(b, a, x)
  {
    hide LocalPart, SameLocal;
    forall y
      ensures LocalPart(y) == LocalPart(x) <==> SameLocal(y, x)
    {
      SameLocalExactly(y, x);
    }
  }

  /** With migrated accounts of different local parts and mailboxes of different names,
      the verdict is OK exactly when every account survived. */
  lemma OKMeans(b: Before, a: After, r: Outcome, readings: map<string, Reading>)
    requires IsOutcome(b, a, r, readings)
    requires forall x :: x in a.counts ==> DistinctNames(a.counts[x])
    requires forall x, y :: x in a.counts && y in a.counts && SameLocal(x, y) ==> x == y
    ensures r.OK() <==> forall x :: x in b.counts || x in b.used ==> Survived(b, a, x)
  {
    hide IsOutcome, DistinctNames, SameLocal, LocalPart, Survived, Kept;
    forall x, y
      ensures LocalPart(x) == LocalPart(y) <==> SameLocal(x, y)
    {
      SameLocalExactly(x, y);
    }
    OKIsExact(b, a, r, readings);
    forall x
      ensures Kept(b, a, x) <==> Survived(b, a, x)
    {
      KeptExactly(b, a, x);
    }
  }

  /** An account is reported missing exactly when it is not there, or when mail was
      counted and none was read for an account of its local part. */
  lemma MissingMeans(b: Before, a: After, r: Outcome, readings: map<string, Reading>, x: string)
    requires IsOutcome(b, a, r, readings)
    ensures x in r.missing <==>
              && (x in b.counts || x in b.used)
              && (!IsThere(a, x) || (b.counts != map[] && forall y :: y in a.counts ==> !SameLocal(y, x)))
  {
    hide IsOutcome, SameLocal, LocalPart;
    EachAccountOnce(b, a, r, readings);
    forall y
      ensures LocalPart(y) == LocalPart(x) <==> SameLocal(y, x)
    {
      SameLocalExactly(y, x);
    }
  }

  /** The comparison is inconclusive exactly when an account is missing and fewer are
      visible than were checked. */
  lemma InconclusiveMeans(b: Before, a: After, r: Outcome, readings: map<string, Reading>)
    requires IsOutcome(b, a, r, readings)
    ensures r.Inconclusive() <==>
              && (exists x :: x in r.missing)
              && |a.counts.Keys + a.used + a.errors| < |b.counts.Keys + b.used|
  {
    hide LocalPart, Less;
    EachAccountOnce(b, a, r, readings);
    NonEmptyHas(r.missing);
  }

  // -------------------------------------------------------------------- mismatches

  /** What is found for a mailbox in a list: its count, and none where it is not there. */
  predicate Finds(list: seq<MailboxCount>, name: string, n: int) {
    if exists i :: 0 <= i < |list| && list[i].mailbox == name then MailboxCount(name, n) in list else n == 0
  }

  lemma {:induction false} DiffersExactly(account: string, order: seq<MailboxCount>, after: map<string, int>)
    ensures forall delta :: delta in Differing(account, order, after) <==>
              && delta.account == account && MailboxCount(delta.mailbox, delta.before) in order
              && delta.after == (if delta.mailbox in after then after[delta.mailbox] else 0)
              && (delta.mailbox in after ==> after[delta.mailbox] != delta.before)
  {
    if order != [] {
      var last := order[|order| - 1];
      DiffersExactly(account, order[..|order| - 1], after);
      assert forall m :: m in order <==> m in order[..|order| - 1] || m == last;
    }
  }

  lemma {:induction false} MismatchIn(a: After, accounts: seq<string>, readings: map<string, Reading>,
        delta: MailboxDelta)
    requires forall x :: x in readings ==> readings[x].account in a.counts
    ensures delta in MismatchesOf(a, accounts, readings)
            <==> exists x :: x in accounts && x in readings
                             && delta in Differing(x, readings[x].order, ByName(a.counts[readings[x].account]))
  {
    hide Differing, ByName;
    if accounts != [] {
      var last := accounts[|accounts| - 1];
      MismatchIn(a, accounts[..|accounts| - 1], readings, delta);
      assert forall x :: x in accounts <==> x in accounts[..|accounts| - 1] || x == last;
    }
  }

  /** A mailbox is reported exactly when its account had it, with the count reported as
      before, and the migrated account read for it has it with another count or not at
      all: what is reported as after. */
  lemma MismatchMeans(b: Before, a: After, r: Outcome, readings: map<string, Reading>, delta: MailboxDelta)
    requires IsOutcome(b, a, r, readings)
    requires forall x :: x in a.counts ==> DistinctNames(a.counts[x])
    ensures delta in r.mismatches <==>
              var x := delta.account;
              && x in readings && x in b.counts && MailboxCount(delta.mailbox, delta.before) in b.counts[x]
              && readings[x].account in a.counts
              && Finds(a.counts[readings[x].account], delta.mailbox, delta.after)
              && MailboxCount(delta.mailbox, delta.before) !in a.counts[readings[x].account]
  {
    hide LocalPart, Differing, ByName, DistinctNames, InOrder, Less, Finds;
    var accounts := Sorted(AccountsBefore(b));
    MismatchIn(a, accounts, readings, delta);
    forall x | x in readings
      ensures delta in Differing(x, readings[x].order, ByName(a.counts[readings[x].account])) <==>
                && x == delta.account && x in b.counts && MailboxCount(delta.mailbox, delta.before) in b.counts[x]
                && Finds(a.counts[readings[x].account], delta.mailbox, delta.after)
                && MailboxCount(delta.mailbox, delta.before) !in a.counts[readings[x].account]
    {
      ReadMismatch(b, a, x, readings[x], delta);
    }
  }

  lemma ReadMismatch(b: Before, a: After, x: string, r: Reading, delta: MailboxDelta)
    requires IsReading(b, a, x, r) && DistinctNames(a.counts[r.account])
    ensures delta in Differing(x, r.order, ByName(a.counts[r.account])) <==>
              && x == delta.account && x in b.counts && MailboxCount(delta.mailbox, delta.before) in b.counts[x]
              && Finds(a.counts[r.account], delta.mailbox, delta.after)
              && MailboxCount(delta.mailbox, delta.before) !in a.counts[r.account]
  {
    hide LocalPart, Differing, ByName, DistinctNames, InOrder;
    var list, m := a.counts[r.account], MailboxCount(delta.mailbox, delta.before);
    DiffersExactly(x, r.order, ByName(list));
    ByNameFinds(list);
    assert m in r.order <==> m in multiset(r.order);
    assert m in ListOf(b, x) <==> m in multiset(ListOf(b, x));
    var found := MailboxCount(delta.mailbox, delta.after);
    assert found in list <==> delta.mailbox in ByName(list) && ByName(list)[delta.mailbox] == delta.after;
  }

  // ------------------------------------------------------------- account by account

  /** What is reported of some accounts and then of others is reported in that order, and
      their mailboxes add up. */
  lemma {:induction false} ReportedInTurn(b: Before, a: After, accounts: seq<string>, more: seq<string>,
        readings: map<string, Reading>)
    requires forall x :: x in readings ==> readings[x].account in a.counts
    ensures MissingOf(b, a, accounts + more) == MissingOf(b, a, accounts) + MissingOf(b, a, more)
    ensures MismatchesOf(a, accounts + more, readings)
            == MismatchesOf(a, accounts, readings) + MismatchesOf(a, more, readings)
    ensures MailboxesOf(accounts + more, readings) == MailboxesOf(accounts, readings) + MailboxesOf(more, readings)
  {
    hide IsMissing, Differing, ByName;
    if more == [] {
      assert accounts + more == accounts;
    } else {
      assert (accounts + more)[..|accounts + more| - 1] == accounts + more[..|more| - 1];
      ReportedInTurn(b, a, accounts, more[..|more| - 1], readings);
    }
  }

  /** Of one account that is read, every mailbox it had is counted, and those reported
      come in name order. */
  lemma ReportedOfOne(b: Before, a: After, x: string, readings: map<string, Reading>)
    requires x in readings && IsReading(b, a, x, readings[x])
    requires forall y :: y in readings ==> readings[y].account in a.counts
    ensures MailboxesOf([x], readings) == if x in b.counts then |b.counts[x]| else 0
    ensures ByMailbox(MismatchesOf(a, [x], readings))
  {
    hide LocalPart, ByName, Less;
    var order, after := readings[x].order, ByName(a.counts[readings[x].account]);
    assert [x][..0] == [];
    assert |multiset(order)| == |order| && |multiset(ListOf(b, x))| == |ListOf(b, x)|;
    DiffersInOrder(x, order, after);
    assert MismatchesOf(a, [x], readings) == Differing(x, order, after);
  }

  predicate ByMailbox(ds: seq<MailboxDelta>) {
    forall i, j :: 0 <= i < j < |ds| ==> !Less(ds[j].mailbox, ds[i].mailbox)
  }

  lemma ByMailboxNext(ds: seq<MailboxDelta>, x: MailboxDelta)
    requires ByMailbox(ds) && forall d :: d in ds ==> !Less(x.mailbox, d.mailbox)
    ensures ByMailbox(ds + [x])
  {
    hide Less;
    assert forall i :: 0 <= i < |ds| ==> ds[i] in ds;
  }

  lemma {:induction false} DiffersInOrder(account: string, order: seq<MailboxCount>, after: map<string, int>)
    requires InOrder(order)
    ensures ByMailbox(Differing(account, order, after))
  {
    hide Less, ByMailbox;
    if order == [] {
      NoneByMailbox();
    } else {
      var before, last := order[..|order| - 1], order[|order| - 1];
      DiffersInOrder(account, before, after);
      DiffersExactly(account, before, after);
      var ds := Differing(account, before, after);
      forall d | d in ds
        ensures !Less(last.mailbox, d.mailbox)
      {
        var k :| 0 <= k < |before| && before[k] == MailboxCount(d.mailbox, d.before);
        assert order[k] == before[k];
      }
      var found := if last.mailbox in after then after[last.mailbox] else 0;
      ByMailboxNext(ds, MailboxDelta(account, last.mailbox, last.messages, found));
      assert ds + [] == ds;
    }
  }

  lemma NoneByMailbox()
    ensures ByMailbox([])
  {
  }
}
