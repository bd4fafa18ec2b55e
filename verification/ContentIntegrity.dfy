/** internal/validate/content_integrity.go: did every account and every message
    survive the migration? */
module ContentIntegrity {
  import opened Prelude
  import opened Order

  datatype MailboxCount = MailboxCount(mailbox: string, messages: int)

  /** The pre-migration facts: counts is empty when the source reports none. */
  datatype Before = Before(domains: seq<string>, counts: map<string, seq<MailboxCount>>, used: set<string>)

  /** What the migrated instance shows; errors are accounts whose mailboxes could not be read. */
  datatype After = After(domains: seq<string>, counts: map<string, seq<MailboxCount>>, used: set<string>,
        errors: set<string>)

  datatype MailboxDelta = MailboxDelta(account: string, mailbox: string, before: int, after: int)

  datatype Outcome = Outcome(accountsChecked: nat, mailboxesChecked: nat, missing: seq<string>,
                             mismatches: seq<MailboxDelta>, missingDomains: seq<string>, compared: bool,
                                 visibleAfter: nat) {
    predicate OK() {
      missing == [] && mismatches == []
    }

    predicate DomainsOK() {
      missingDomains == []
    }

    predicate Inconclusive() {
      missing != [] && visibleAfter < accountsChecked
    }
  }

  /** An account name up to its first '@'. */
  function LocalPart(account: string): string {
    if account == "" || account[0] == '@' then "" else [account[0]] + LocalPart(account[1..])
  }

  function AccountsBefore(b: Before): set<string> {
    b.counts.Keys + b.used
  }

  function Visible(a: After): set<string> {
    a.counts.Keys + a.used + a.errors
  }

  predicate Compared(b: Before) {
    |b.counts| > 0
  }

  /** The account is among the given ones, perhaps under its rewritten name. */
  ghost predicate Among(accounts: set<string>, account: string) {
    exists x :: x in accounts && LocalPart(x) == LocalPart(account)
  }

  ghost predicate IsMissing(b: Before, a: After, account: string) {
    !Among(Visible(a), account) || (Compared(b) && !Among(a.counts.Keys, account))
  }

  function ListOf(b: Before, account: string): seq<MailboxCount> {
    if account in b.counts then b.counts[account] else []
  }

  /** Counts by mailbox name; a later entry of the same name replaces an earlier one. */
  function ByName(list: seq<MailboxCount>): map<string, int> {
    if list == [] then map[]
    else
      var m := list[|list| - 1];
      ByName(list[..|list| - 1])[m.mailbox := m.messages]
  }

  function Differing(account: string, order: seq<MailboxCount>, after: map<string, int>): seq<MailboxDelta> {
    if order == [] then []
    else
      var m := order[|order| - 1];
      var found := if m.mailbox in after then after[m.mailbox] else 0;
      Differing(account, order[..|order| - 1], after)
      + if m.mailbox in after && found == m.messages then [] else [MailboxDelta(account, m.mailbox, m.messages, found)]
  }

  /** Which migrated account was read for a before-account, and the order in which
      its before-mailboxes were gone through. */
  datatype Reading = Reading(account: string, order: seq<MailboxCount>)

  /** The lookup may read migrated account x for this account: the account itself if
      its counts are there, and otherwise any of its local part. */
  predicate Candidate(a: After, account: string, x: string) {
    x in a.counts && LocalPart(x) == LocalPart(account) && (account in a.counts ==> x == account)
  }

  predicate IsReading(b: Before, a: After, account: string, r: Reading) {
    && Candidate(a, account, r.account)
    && multiset(r.order) == multiset(ListOf(b, account)) && InOrder(r.order)
  }

  predicate InOrder(s: seq<MailboxCount>) {
    forall i, j :: 0 <= i < j < |s| ==> !Less(s[j].mailbox, s[i].mailbox)
  }

  ghost function MissingOf(b: Before, a: After, accounts: seq<string>): seq<string> {
    if accounts == [] then []
    else
      var x := accounts[|accounts| - 1];
      MissingOf(b, a, accounts[..|accounts| - 1]) + if IsMissing(b, a, x) then [x] else []
  }

  function MismatchesOf(a: After, accounts: seq<string>, readings: map<string, Reading>): seq<MailboxDelta>
    requires forall x :: x in readings ==> readings[x].account in a.counts
  {
    if accounts == [] then []
    else
      var x := accounts[|accounts| - 1];
      MismatchesOf(a, accounts[..|accounts| - 1], readings)
      + if x in readings then Differing(x, readings[x].order, ByName(a.counts[readings[x].account])) else []
  }

  function MailboxesOf(accounts: seq<string>, readings: map<string, Reading>): nat {
    if accounts == [] then 0
    else
      var x := accounts[|accounts| - 1];
      MailboxesOf(accounts[..|accounts| - 1], readings) + if x in readings then |readings[x].order| else 0
  }

  function DomainsLost(before: seq<string>, after: seq<string>): seq<string> {
    if before == [] then []
    else
      var d := before[|before| - 1];
      DomainsLost(before[..|before| - 1], after) + if d in after then [] else [d]
  }

  /** What a comparison of the given accounts reports, in order. */
  ghost predicate Reports(b: Before, a: After, accounts: seq<string>, r: Outcome, readings: map<string, Reading>) {
    && (forall x :: x in readings <==> x in accounts && Compared(b) && !IsMissing(b, a, x))
    && (forall x :: x in readings ==> IsReading(b, a, x, readings[x]))
    && r.accountsChecked == |accounts|
    && r.missing == MissingOf(b, a, accounts)
    && r.mismatches == MismatchesOf(a, accounts, readings)
    && r.mailboxesChecked == MailboxesOf(accounts, readings)
    && r.missingDomains == DomainsLost(b.domains, a.domains)
    && r.compared == Compared(b) && r.visibleAfter == |Visible(a)|
  }

  // -------------------------------------------------------------- the comparison

  /** accountPresent. */
  method AccountPresent(accounts: set<string>, account: string) returns (present: bool)
    ensures present <==> Among(accounts, account)
  {
    if account in accounts {
      return true;
    }
    var rest := accounts;
    while rest != {}
      invariant rest <= accounts && forall x :: x in accounts - rest ==> LocalPart(x) != LocalPart(account)
      decreases rest
    {
      var x :| x in rest;
      if LocalPart(x) == LocalPart(account) {
        return true;
      }
      rest := rest - {x};
    }
    return false;
  }

  /** findByLocalPart: the first match in whatever order the map is read. */
  method FindByLocalPart(counts: map<string, seq<MailboxCount>>, account: string) returns (found: Option<string>)
    ensures found.Some? ==> found.value in counts && LocalPart(found.value) == LocalPart(account)
    ensures found.None? <==> !Among(counts.Keys, account)
  {
    var rest := counts.Keys;
    while rest != {}
      invariant rest <= counts.Keys && forall x :: x in counts.Keys - rest ==> LocalPart(x) != LocalPart(account)
      decreases rest
    {
      var x :| x in rest;
      if LocalPart(x) == LocalPart(account) {
        return Some(x);
      }
      rest := rest - {x};
    }
    return None;
  }

  lemma NotLessIsTransitive(x: string, y: string, z: string)
    requires !Less(y, x) && !Less(z, y)
    ensures !Less(z, x)
  {
    hide Less;
    if Less(z, x) {
      LessIsTotal(x, y);
      if x != y {
        LessIsTransitive(z, x, y);
      }
    }
  }

  method SortMailboxes(list: seq<MailboxCount>) returns (r: seq<MailboxCount>)
    ensures multiset(r) == multiset(list) && InOrder(r)
  {
    hide Less, InOrder;
    NothingInOrder();
    r := [];
    for i := 0 to |list|
      invariant multiset(r) == multiset(list[..i]) && InOrder(r)
    {
      assert list[..i + 1] == list[..i] + [list[i]];
      r := Insert(r, list[i]);
    }
    assert list[..|list|] == list;
  }

  lemma NothingInOrder()
    ensures InOrder([])
  {
  }

  method Insert(r: seq<MailboxCount>, m: MailboxCount) returns (s: seq<MailboxCount>)
    requires InOrder(r)
    ensures multiset(s) == multiset(r) + multiset{m} && InOrder(s)
  {
    hide Less, InOrder;
    var k: nat := |r|;
    while k > 0 && Less(m.mailbox, r[k - 1].mailbox)
      invariant k <= |r| && forall j :: k <= j < |r| ==> Less(m.mailbox, r[j].mailbox)
    {
      k := k - 1;
    }
    InsertKeepsOrder(r, k, m);
    assert r == r[..k] + r[k..];
    s := r[..k] + [m] + r[k..];
  }

  lemma InsertKeepsOrder(r: seq<MailboxCount>, k: nat, m: MailboxCount)
    requires k <= |r| && InOrder(r)
    requires k > 0 ==> !Less(m.mailbox, r[k - 1].mailbox)
    requires forall j :: k <= j < |r| ==> Less(m.mailbox, r[j].mailbox)
    ensures InOrder(r[..k] + [m] + r[k..])
  {
    hide Less;
    var s := r[..k] + [m] + r[k..];
    forall i, j | 0 <= i < j < |s|
      ensures !Less(s[j].mailbox, s[i].mailbox)
    {
      if j == k {
        if i < k - 1 { NotLessIsTransitive(r[i].mailbox, r[k - 1].mailbox, m.mailbox); }
      } else if i == k {
        LessIsStrict(m.mailbox, r[j - 1].mailbox);
      } else if i < k < j {
        assert s[i] == r[i] && s[j] == r[j - 1];
      }
    }
  }

  method CompareMailboxes(account: string, order: seq<MailboxCount>, after: seq<MailboxCount>)
    returns (checked: nat, mismatches: seq<MailboxDelta>)
    ensures checked == |order| && mismatches == Differing(account, order, ByName(after))
  {
    var byName: map<string, int> := map[];
    for i := 0 to |after|
      invariant byName == ByName(after[..i])
    {
      assert after[..i + 1] == after[..i] + [after[i]];
      byName := byName[after[i].mailbox := after[i].messages];
    }
    assert after[..|after|] == after;
    checked, mismatches := 0, [];
    for i := 0 to |order|
      invariant checked == i && mismatches == Differing(account, order[..i], byName)
    {
      var m := order[i];
      assert order[..i + 1] == order[..i] + [m];
      checked := checked + 1;
      var found := if m.mailbox in byName then byName[m.mailbox] else 0;
      if m.mailbox !in byName || found != m.messages {
        mismatches := mismatches + [MailboxDelta(account, m.mailbox, m.messages, found)];
      }
    }
    assert order[..|order|] == order;
  }

  method LostDomains(before: seq<string>, after: seq<string>) returns (lost: seq<string>)
    ensures lost == DomainsLost(before, after)
  {
    lost := [];
    for i := 0 to |before|
      invariant lost == DomainsLost(before[..i], after)
    {
      assert before[..i + 1] == before[..i] + [before[i]];
      if before[i] !in after {
        lost := lost + [before[i]];
      }
    }
    assert before[..|before|] == before;
  }

  lemma Extend(a: After, accounts: seq<string>, x: string, readings: map<string, Reading>, r: Reading)
    requires x !in accounts && x !in readings
    requires forall y :: y in readings ==> readings[y].account in a.counts
    requires r.account in a.counts
    ensures MismatchesOf(a, accounts + [x], readings[x := r])
            == MismatchesOf(a, accounts, readings) + Differing(x, r.order, ByName(a.counts[r.account]))
    ensures MailboxesOf(accounts + [x], readings[x := r]) == MailboxesOf(accounts, readings) + |r.order|
  {
    hide Differing, ByName;
    OthersUnread(a, accounts, x, readings, r);
    assert (accounts + [x])[..|accounts|] == accounts;
  }

  lemma {:induction false} OthersUnread(a: After, accounts: seq<string>, x: string, readings: map<string,
        Reading>, r: Reading)
    requires x !in accounts
    requires forall y :: y in readings ==> readings[y].account in a.counts
    requires r.account in a.counts
    ensures MismatchesOf(a, accounts, readings[x := r]) == MismatchesOf(a, accounts, readings)
    ensures MailboxesOf(accounts, readings[x := r]) == MailboxesOf(accounts, readings)
  {
    hide Differing, ByName;
    if accounts != [] {
      OthersUnread(a, accounts[..|accounts| - 1], x, readings, r);
      assert accounts[|accounts| - 1] in accounts;
    }
  }

  lemma ExtendUnread(b: Before, a: After, accounts: seq<string>, x: string, readings: map<string, Reading>)
    requires x !in readings
    requires forall y :: y in readings ==> readings[y].account in a.counts
    ensures MissingOf(b, a, accounts + [x]) == MissingOf(b, a, accounts) + if IsMissing(b, a, x) then [x] else []
    ensures MismatchesOf(a, accounts + [x], readings) == MismatchesOf(a, accounts, readings)
    ensures MailboxesOf(accounts + [x], readings) == MailboxesOf(accounts, readings)
  {
    hide Differing, ByName, IsMissing;
    assert (accounts + [x])[..|accounts|] == accounts;
  }

  lemma NothingReported(b: Before, a: After, r: Outcome)
    requires r == Outcome(0, 0, [], [], DomainsLost(b.domains, a.domains), Compared(b), |Visible(a)|)
    ensures Reports(b, a, [], r, map[])
  {
    hide Visible, DomainsLost;
  }

  /** The body of the loop over accounts: one more before-account is checked. */
  method CheckAccount(b: Before, a: After, ghost done: seq<string>, account: string, r0: Outcome,
        ghost readings0: map<string, Reading>)
    returns (r: Outcome, ghost readings: map<string, Reading>)
    requires Reports(b, a, done, r0, readings0) && account !in done
    ensures Reports(b, a, done + [account], r, readings)
  {
    hide Less, LocalPart, Differing, ByName, InOrder, MissingOf, MismatchesOf, MailboxesOf, DomainsLost, Visible;
    r, readings := r0.(accountsChecked := r0.accountsChecked + 1), readings0;
    ExtendUnread(b, a, done, account, readings);
    var present := AccountPresent(Visible(a), account);
    if !present {
      r := r.(missing := r.missing + [account]);
      return;
    }
    if !r.compared {
      return;
    }
    var found := if account in a.counts then Some(account) else None;
    if found.None? {
      found := FindByLocalPart(a.counts, account);
    }
    if found.None? {
      r := r.(missing := r.missing + [account]);
      return;
    }
    assert Among(a.counts.Keys, account);
    var order := SortMailboxes(ListOf(b, account));
    var checked, mismatches := CompareMailboxes(account, order, a.counts[found.value]);
    ghost var reading := Reading(found.value, order);
    Extend(a, done, account, readings0, reading);
    r := r.(mailboxesChecked := r.mailboxesChecked + checked, mismatches := r.mismatches + mismatches);
    readings := readings0[account := reading];
  }

  /** compareContentIntegrity, once the migrated instance has been read. */
  method Compare(b: Before, a: After) returns (r: Outcome, ghost readings: map<string, Reading>)
    ensures Reports(b, a, Sorted(AccountsBefore(b)), r, readings)
    ensures r.accountsChecked == |AccountsBefore(b)| && r.visibleAfter == |Visible(a)|
    ensures r.missing == MissingOf(b, a, Sorted(AccountsBefore(b)))
            && r.missingDomains == DomainsLost(b.domains, a.domains)
  {
    hide Less, Ascending, Reports, Sorted, DomainsLost, Visible, MissingOf;
    var accounts := SortKeys(AccountsBefore(b));
    var lost := LostDomains(b.domains, a.domains);
    r, readings := Outcome(0, 0, [], [], lost, |b.counts| > 0, |Visible(a)|), map[];
    NothingReported(b, a, r);
    for i := 0 to |accounts|
      invariant Reports(b, a, accounts[..i], r, readings)
    {
      AscendingIsFresh(accounts, i);
      r, readings := CheckAccount(b, a, accounts[..i], accounts[i], r, readings);
    }
    assert accounts[..|accounts|] == accounts;
    SortedSize(AccountsBefore(b));
    ReportedFacts(b, a, accounts, r, readings);
  }

  lemma ReportedFacts(b: Before, a: After, accounts: seq<string>, r: Outcome, readings: map<string, Reading>)
    requires Reports(b, a, accounts, r, readings)
    ensures r.accountsChecked == |accounts| && r.visibleAfter == |Visible(a)|
    ensures r.missing == MissingOf(b, a, accounts) && r.missingDomains == DomainsLost(b.domains, a.domains)
  {
  }
}
