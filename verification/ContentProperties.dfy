/** What the content comparison's verdict means. */
module ContentProperties {
  import opened Order
  import opened ContentIntegrity

  ghost predicate DistinctLocals(accounts: set<string>) {
    forall x, y :: x in accounts && y in accounts && LocalPart(x) == LocalPart(y) ==> x == y
  }

  predicate DistinctNames(list: seq<MailboxCount>) {
    forall i, j :: 0 <= i < j < |list| ==> list[i].mailbox != list[j].mailbox
  }

  /** Every mailbox the account had is under migrated account x, with its count. */
  predicate Agrees(b: Before, a: After, account: string, x: string) {
    x in a.counts && forall m :: m in ListOf(b, account) ==> m in a.counts[x]
  }

  /** Nothing of a before-account was lost, as far as the source can tell. */
  ghost predicate Kept(b: Before, a: After, account: string) {
    if Compared(b) then exists x :: x in a.counts && LocalPart(x) == LocalPart(account) && Agrees(b, a, account, x)
    else Among(Visible(a), account)
  }

  ghost predicate IsOutcome(b: Before, a: After, r: Outcome, readings: map<string, Reading>) {
    Reports(b, a, Sorted(AccountsBefore(b)), r, readings)
  }

  lemma {:induction false} MissingIn(b: Before, a: After, accounts: seq<string>)
    ensures forall x :: x in MissingOf(b, a, accounts) <==> x in accounts && IsMissing(b, a, x)
  {
    hide IsMissing;
    if accounts != [] {
      var x := accounts[|accounts| - 1];
      MissingIn(b, a, accounts[..|accounts| - 1]);
      assert forall y :: y in accounts <==> y in accounts[..|accounts| - 1] || y == x;
    }
  }

  lemma {:induction false} MissingAscending(b: Before, a: After, accounts: seq<string>)
    requires Ascending(accounts)
    ensures Ascending(MissingOf(b, a, accounts))
  {
    hide IsMissing, Less;
    if accounts != [] {
      var before, x := accounts[..|accounts| - 1], accounts[|accounts| - 1];
      MissingAscending(b, a, before);
      MissingIn(b, a, before);
      var m := MissingOf(b, a, before);
      forall i | 0 <= i < |m|
        ensures Less(m[i], x)
      {
        assert m[i] in m;
        var k :| 0 <= k < |before| && before[k] == m[i];
        assert accounts[k] == m[i];
      }
    }
  }

  lemma {:induction false} NothingDiffers(account: string, order: seq<MailboxCount>, after: map<string, int>)
    ensures Differing(account, order, after) == []
            <==> forall m :: m in order ==> m.mailbox in after && after[m.mailbox] == m.messages
  {
    if order != [] {
      var last := order[|order| - 1];
      NothingDiffers(account, order[..|order| - 1], after);
      assert forall m :: m in order <==> m in order[..|order| - 1] || m == last;
    }
  }

  lemma {:induction false} ByNameFinds(list: seq<MailboxCount>)
    requires DistinctNames(list)
    ensures forall m: MailboxCount :: m in list <==> m.mailbox in ByName(list) && ByName(list)[m.mailbox] == m.messages
    ensures forall name :: name in ByName(list) <==> exists i :: 0 <= i < |list| && list[i].mailbox == name
  {
    if list != [] {
      var before, last := list[..|list| - 1], list[|list| - 1];
      ByNameFinds(before);
      assert forall m :: m in list <==> m in before || m == last;
      forall m | m in before
        ensures m.mailbox != last.mailbox
      {
        var i :| 0 <= i < |before| && before[i] == m;
        assert list[i] == m;
      }
      forall name
        ensures name in ByName(list) <==> exists i :: 0 <= i < |list| && list[i].mailbox == name
      {
        if name in ByName(before) {
          var i :| 0 <= i < |before| && before[i].mailbox == name;
          assert list[i].mailbox == name;
        }
        if i :| 0 <= i < |list| && list[i].mailbox == name {
          if i < |before| { assert before[i].mailbox == name; }
        }
      }
    }
  }

  lemma {:induction false} NoMismatches(a: After, accounts: seq<string>, readings: map<string, Reading>)
    requires forall x :: x in readings ==> readings[x].account in a.counts
    ensures MismatchesOf(a, accounts, readings) == []
            <==> forall x :: x in accounts && x in readings ==>
                               Differing(x, readings[x].order, ByName(a.counts[readings[x].account])) == []
  {
    hide Differing, ByName;
    if accounts != [] {
      var last := accounts[|accounts| - 1];
      NoMismatches(a, accounts[..|accounts| - 1], readings);
      assert forall x :: x in accounts <==> x in accounts[..|accounts| - 1] || x == last;
    }
  }

  lemma ReadingAgrees(b: Before, a: After, account: string, r: Reading)
    requires IsReading(b, a, account, r) && DistinctNames(a.counts[r.account])
    ensures Differing(account, r.order, ByName(a.counts[r.account])) == [] <==> Agrees(b, a, account, r.account)
  {
    hide Differing, ByName, InOrder, LocalPart;
    NothingDiffers(account, r.order, ByName(a.counts[r.account]));
    ByNameFinds(a.counts[r.account]);
    forall m
      ensures m in r.order <==> m in ListOf(b, account)
    {
      assert m in r.order <==> m in multiset(r.order);
      assert m in ListOf(b, account) <==> m in multiset(ListOf(b, account));
    }
  }

  /** OK says, of the accounts that were actually read, that nothing was lost. */
  lemma OKMeansReadAccountsAgree(b: Before, a: After, r: Outcome, readings: map<string, Reading>)
    requires IsOutcome(b, a, r, readings)
    requires forall x :: x in a.counts ==> DistinctNames(a.counts[x])
    ensures r.OK() <==> forall x :: x in AccountsBefore(b) ==>
                                      !IsMissing(b, a, x) && (Compared(b) ==> Agrees(b, a, x, readings[x].account))
  {
    hide Differing, ByName, IsMissing, Agrees, DistinctNames, Less;
    var accounts := Sorted(AccountsBefore(b));
    MissingIn(b, a, accounts);
    NonEmptyHas(r.missing);
    NoMismatches(a, accounts, readings);
    forall x | x in readings
      ensures Differing(x, readings[x].order, ByName(a.counts[readings[x].account])) == []
              <==> Agrees(b, a, x, readings[x].account)
    {
      ReadingAgrees(b, a, x, readings[x]);
    }
  }

  /** When migrated accounts differ in their local parts, OK is exact: it holds
      just when every account, and every count the source could report, survived. */
  lemma OKIsExact(b: Before, a: After, r: Outcome, readings: map<string, Reading>)
    requires IsOutcome(b, a, r, readings)
    requires forall x :: x in a.counts ==> DistinctNames(a.counts[x])
    requires DistinctLocals(a.counts.Keys)
    ensures r.OK() <==> forall x :: x in AccountsBefore(b) ==> Kept(b, a, x)
  {
    hide Agrees, DistinctNames, Less, LocalPart;
    OKMeansReadAccountsAgree(b, a, r, readings);
    forall x | x in AccountsBefore(b)
      ensures Kept(b, a, x) <==> !IsMissing(b, a, x) && (Compared(b) ==> Agrees(b, a, x, readings[x].account))
    {
      KeptWhenRead(b, a, x, r, readings);
    }
  }

  lemma KeptWhenRead(b: Before, a: After, x: string, r: Outcome, readings: map<string, Reading>)
    requires IsOutcome(b, a, r, readings) && x in AccountsBefore(b)
    requires DistinctLocals(a.counts.Keys)
    ensures Kept(b, a, x) <==> !IsMissing(b, a, x) && (Compared(b) ==> Agrees(b, a, x, readings[x].account))
  {
    hide Agrees, Less, LocalPart, AccountsBefore;
    if Compared(b) && !IsMissing(b, a, x) {
      assert x in readings && IsReading(b, a, x, readings[x]);
    }
  }

  /** Each account is checked once and is either missing, once, or read. */
  lemma EachAccountOnce(b: Before, a: After, r: Outcome, readings: map<string, Reading>)
    requires IsOutcome(b, a, r, readings)
    ensures r.accountsChecked == |AccountsBefore(b)|
    ensures Ascending(r.missing)
    ensures forall x :: x in r.missing <==> x in AccountsBefore(b) && IsMissing(b, a, x)
    ensures Compared(b) ==> forall x :: x in AccountsBefore(b) ==> (x in readings <==> x !in r.missing)
    ensures forall x :: x in readings ==> x in AccountsBefore(b)
  {
    hide IsMissing, Less, IsReading, AccountsBefore;
    SortedSize(AccountsBefore(b));
    MissingIn(b, a, Sorted(AccountsBefore(b)));
    MissingAscending(b, a, Sorted(AccountsBefore(b)));
  }

  // -------------------------------------------------------------------- pigeonhole

  ghost function Locals(accounts: set<string>): set<string> {
    set x | x in accounts :: LocalPart(x)
  }

  lemma {:induction false} LocalsAreFewer(accounts: set<string>)
    ensures |Locals(accounts)| <= |accounts|
    ensures DistinctLocals(accounts) ==> |Locals(accounts)| == |accounts|
    decreases |accounts|
  {
    hide LocalPart;
    if accounts != {} {
      var x :| x in accounts;
      var rest := accounts - {x};
      LocalsAreFewer(rest);
      assert Locals(accounts) == Locals(rest) + {LocalPart(x)};
    }
  }

  lemma SubsetIsFewer(s: set<string>, t: set<string>)
    requires s <= t
    ensures |s| <= |t|
  {
    assert t == s + (t - s);
  }

  /** Fewer accounts visible than checked means some account is reported missing,
      so Inconclusive is nothing more than that comparison. */
  lemma InconclusiveIsFewerVisible(b: Before, a: After, r: Outcome, readings: map<string, Reading>)
    requires IsOutcome(b, a, r, readings)
    requires DistinctLocals(AccountsBefore(b))
    ensures r.Inconclusive() <==> r.visibleAfter < r.accountsChecked
  {
    hide LocalPart, Less;
    EachAccountOnce(b, a, r, readings);
    NonEmptyHas(r.missing);
    if r.missing == [] {
      forall x | x in AccountsBefore(b)
        ensures LocalPart(x) in Locals(Visible(a))
      {
        assert !IsMissing(b, a, x);
        var y :| y in Visible(a) && LocalPart(y) == LocalPart(x);
      }
      LocalsAreFewer(AccountsBefore(b));
      LocalsAreFewer(Visible(a));
      SubsetIsFewer(Locals(AccountsBefore(b)), Locals(Visible(a)));
    }
  }

  lemma {:induction false} LostDomainsIn(before: seq<string>, after: seq<string>)
    ensures forall d :: d in DomainsLost(before, after) <==> d in before && d !in after
  {
    if before != [] {
      var last := before[|before| - 1];
      LostDomainsIn(before[..|before| - 1], after);
      assert forall d :: d in before <==> d in before[..|before| - 1] || d == last;
    }
  }

  /** The domain verdict, which does not affect OK. */
  lemma DomainsOKIsExact(b: Before, a: After, r: Outcome, readings: map<string, Reading>)
    requires IsOutcome(b, a, r, readings)
    ensures r.DomainsOK() <==> forall d :: d in b.domains ==> d in a.domains
  {
    LostDomainsIn(b.domains, a.domains);
    NonEmptyHas(r.missingDomains);
  }

  // ----------------------------------------------------- without distinct local parts

  lemma Position(r: seq<MailboxCount>, m: MailboxCount, k: nat) returns (j: nat)
    requires k <= |r| && forall i :: k <= i < |r| ==> Less(m.mailbox, r[i].mailbox)
    ensures j <= k && (j > 0 ==> !Less(m.mailbox, r[j - 1].mailbox))
    ensures forall i :: j <= i < |r| ==> Less(m.mailbox, r[i].mailbox)
  {
    hide Less;
    j := k;
    if k > 0 && Less(m.mailbox, r[k - 1].mailbox) {
      j := Position(r, m, k - 1);
    }
  }

  lemma {:induction false} OrderExists(list: seq<MailboxCount>) returns (r: seq<MailboxCount>)
    ensures multiset(r) == multiset(list) && InOrder(r)
  {
    hide Less;
    if list == [] {
      r := [];
    } else {
      var m, rest := list[|list| - 1], list[..|list| - 1];
      var before := OrderExists(rest);
      var k := Position(before, m, |before|);
      InsertKeepsOrder(before, k, m);
      assert before == before[..k] + before[k..] && list == rest + [m];
      r := before[..k] + [m] + before[k..];
    }
  }

  ghost function Ordered(list: seq<MailboxCount>): (r: seq<MailboxCount>)
    ensures multiset(r) == multiset(list) && InOrder(r)
  {
    assert exists r :: multiset(r) == multiset(list) && InOrder(r) by {
      var r := OrderExists(list);
    }
    var r :| multiset(r) == multiset(list) && InOrder(r);
    r
  }

  /** Which migrated account is read for each before-account. */
  type Choice = string -> string

  ghost predicate Possible(b: Before, a: After, choose: Choice) {
    forall x :: x in AccountsBefore(b) && Compared(b) && !IsMissing(b, a, x) ==> Candidate(a, x, choose(x))
  }

  ghost function ReadingsOf(b: Before, a: After, choose: Choice): map<string, Reading> {
    map x | x in AccountsBefore(b) && Compared(b) && !IsMissing(b, a, x) :: Reading(choose(x), Ordered(ListOf(b, x)))
  }

  lemma ReadingsAre(b: Before, a: After, choose: Choice)
    requires Possible(b, a, choose)
    ensures forall x :: x in ReadingsOf(b, a, choose) <==> x in AccountsBefore(b) && Compared(b) && !IsMissing(b, a, x)
    ensures forall x :: x in ReadingsOf(b, a, choose) ==>
              IsReading(b, a, x, ReadingsOf(b, a, choose)[x]) && ReadingsOf(b, a, choose)[x].account in a.counts
  {
    hide IsMissing, InOrder, LocalPart;
  }

  /** Every possible choice is one that some comparison makes. */
  lemma OutcomeOf(b: Before, a: After, choose: Choice) returns (r: Outcome)
    requires Possible(b, a, choose)
    ensures IsOutcome(b, a, r, ReadingsOf(b, a, choose))
  {
    hide ReadingsOf, IsReading, IsMissing, MissingOf, MismatchesOf, MailboxesOf, DomainsLost, AccountsBefore,
         Visible, Compared, Less;
    ReadingsAre(b, a, choose);
    var accounts, readings := Sorted(AccountsBefore(b)), ReadingsOf(b, a, choose);
    r := Outcome(|accounts|, MailboxesOf(accounts, readings), MissingOf(b, a, accounts),
                 MismatchesOf(a, accounts, readings), DomainsLost(b.domains, a.domains), Compared(b), |Visible(a)|);
  }

  ghost predicate AllPresent(b: Before, a: After) {
    forall x :: x in AccountsBefore(b) ==> !IsMissing(b, a, x)
  }

  ghost predicate SomeCandidateAgrees(b: Before, a: After, x: string) {
    exists y :: Candidate(a, x, y) && Agrees(b, a, x, y)
  }

  ghost predicate EveryCandidateAgrees(b: Before, a: After, x: string) {
    forall y :: Candidate(a, x, y) ==> Agrees(b, a, x, y)
  }

  /** A candidate that agrees if there is one, and otherwise any. */
  ghost function Best(b: Before, a: After, x: string): string {
    if SomeCandidateAgrees(b, a, x) then
      var y :| Candidate(a, x, y) && Agrees(b, a, x, y); y
    else if exists y :: Candidate(a, x, y) then
      var y :| Candidate(a, x, y); y
    else ""
  }

  lemma BestIsPossible(b: Before, a: After)
    ensures Possible(b, a, x => Best(b, a, x))
  {
    hide LocalPart, Agrees;
    forall x | x in AccountsBefore(b) && Compared(b) && !IsMissing(b, a, x)
      ensures exists y :: Candidate(a, x, y)
    {
      var y :| y in a.counts.Keys && LocalPart(y) == LocalPart(x);
      assert if x in a.counts then Candidate(a, x, x) else Candidate(a, x, y);
    }
  }

  /** The verdict of a comparison that makes a given choice. */
  lemma VerdictOfChoice(b: Before, a: After, choose: Choice) returns (r: Outcome)
    requires Possible(b, a, choose) && forall x :: x in a.counts ==> DistinctNames(a.counts[x])
    ensures IsOutcome(b, a, r, ReadingsOf(b, a, choose))
    ensures r.OK() <==> AllPresent(b, a)
                        && forall x :: x in AccountsBefore(b) && Compared(b) && !IsMissing(b, a, x) ==>
                                         Agrees(b, a, x, choose(x))
  {
    hide IsOutcome, IsMissing, Agrees, DistinctNames, Candidate;
    r := OutcomeOf(b, a, choose);
    OKMeansReadAccountsAgree(b, a, r, ReadingsOf(b, a, choose));
  }

  lemma ReadIsCandidate(b: Before, a: After, r: Outcome, readings: map<string, Reading>, x: string)
    requires IsOutcome(b, a, r, readings) && x in AccountsBefore(b) && Compared(b) && !IsMissing(b, a, x)
    ensures x in readings && Candidate(a, x, readings[x].account)
  {
    hide IsMissing, Candidate, InOrder, AccountsBefore;
  }

  /** Some comparison says OK exactly when no account is missing and each has, among
      the migrated accounts that may be read for it, one with all its mail. */
  lemma SomeOutcomeOK(b: Before, a: After)
    requires forall x :: x in a.counts ==> DistinctNames(a.counts[x])
    ensures (exists r: Outcome, readings :: IsOutcome(b, a, r, readings) && r.OK())
            <==> AllPresent(b, a)
                 && (Compared(b) ==> forall x :: x in AccountsBefore(b) ==> SomeCandidateAgrees(b, a, x))
  {
    hide IsOutcome, IsMissing, Agrees, DistinctNames, Candidate, AccountsBefore;
    if r: Outcome, readings: map<string, Reading> :| IsOutcome(b, a, r, readings) && r.OK() {
      OKMeansReadAccountsAgree(b, a, r, readings);
      forall x | x in AccountsBefore(b) && Compared(b)
        ensures SomeCandidateAgrees(b, a, x)
      {
        ReadIsCandidate(b, a, r, readings, x);
      }
    }
    if AllPresent(b, a) && (Compared(b) ==> forall x :: x in AccountsBefore(b) ==> SomeCandidateAgrees(b, a, x)) {
      BestIsPossible(b, a);
      var r := VerdictOfChoice(b, a, x => Best(b, a, x));
    }
  }

  /** Every comparison says OK exactly when no account is missing and all that may
      be read for each have all its mail. */
  lemma EveryOutcomeOK(b: Before, a: After)
    requires forall x :: x in a.counts ==> DistinctNames(a.counts[x])
    ensures (forall r: Outcome, readings :: IsOutcome(b, a, r, readings) ==> r.OK())
            <==> AllPresent(b, a)
                 && (Compared(b) ==> forall x :: x in AccountsBefore(b) ==> EveryCandidateAgrees(b, a, x))
  {
    hide IsOutcome, IsMissing, Agrees, DistinctNames, Candidate, AccountsBefore;
    if AllPresent(b, a) && (Compared(b) ==> forall x :: x in AccountsBefore(b) ==> EveryCandidateAgrees(b, a, x)) {
      forall r: Outcome, readings: map<string, Reading> | IsOutcome(b, a, r, readings)
        ensures r.OK()
      {
        OKMeansReadAccountsAgree(b, a, r, readings);
        forall x | x in AccountsBefore(b) && Compared(b)
          ensures x in readings && Agrees(b, a, x, readings[x].account)
        {
          ReadIsCandidate(b, a, r, readings, x);
        }
      }
    } else {
      var choose := WorstChoice(b, a);
      var r := VerdictOfChoice(b, a, choose);
    }
  }

  /** When not all candidates agree, a possible choice that reads one that does not. */
  lemma WorstChoice(b: Before, a: After) returns (choose: Choice)
    requires !(AllPresent(b, a)
               && (Compared(b) ==> forall x :: x in AccountsBefore(b) ==> EveryCandidateAgrees(b, a, x)))
    ensures Possible(b, a, choose)
    ensures !(AllPresent(b, a)
              && forall x :: x in AccountsBefore(b) && Compared(b) && !IsMissing(b, a, x) ==>
                               Agrees(b, a, x, choose(x)))
  {
    hide IsMissing, Agrees, Candidate, AccountsBefore, Best;
    BestIsPossible(b, a);
    choose := x => Best(b, a, x);
    if AllPresent(b, a) {
      var x0 :| x0 in AccountsBefore(b) && !EveryCandidateAgrees(b, a, x0);
      var y0 :| Candidate(a, x0, y0) && !Agrees(b, a, x0, y0);
      choose := x => if x == x0 then y0 else Best(b, a, x);
      assert choose(x0) == y0;
    }
  }

  /** So the verdict depends on the order of a map exactly when nothing is missing,
      every account has a candidate that agrees, and some account has one that does not. */
  lemma OrderMattersExactly(b: Before, a: After)
    requires forall x :: x in a.counts ==> DistinctNames(a.counts[x])
    ensures (exists r: Outcome, readings :: IsOutcome(b, a, r, readings) && r.OK())
            && (exists r: Outcome, readings :: IsOutcome(b, a, r, readings) && !r.OK())
            <==> AllPresent(b, a) && Compared(b)
                 && (forall x :: x in AccountsBefore(b) ==> SomeCandidateAgrees(b, a, x))
                 && exists x :: x in AccountsBefore(b) && !EveryCandidateAgrees(b, a, x)
  {
    hide IsOutcome, AllPresent, SomeCandidateAgrees, EveryCandidateAgrees, DistinctNames, AccountsBefore;
    SomeOutcomeOK(b, a);
    EveryOutcomeOK(b, a);
  }

  const INBOX := MailboxCount("INBOX", 1)

  /** Two migrated accounts x and y of one local part, one with the mail and one
      without: the verdict depends on which of them the map yields first. */
  lemma AmbiguousLocalPart(j: string, x: string, y: string, b: Before, a: After)
    requires LocalPart(j) == LocalPart(x) == LocalPart(y) && x != j && j != y && x != y
    requires b == Before([], map[j := [INBOX]], {})
    requires a == After([], map[x := [INBOX], y := []], {}, {})
    ensures exists r: Outcome, readings :: IsOutcome(b, a, r, readings) && r.OK()
    ensures exists r: Outcome, readings :: IsOutcome(b, a, r, readings) && !r.OK()
  {
    hide LocalPart, IsOutcome;
    assert x in a.counts.Keys && j in b.counts.Keys;
    assert Candidate(a, j, x) && Agrees(b, a, j, x);
    assert INBOX in ListOf(b, j);
    assert Candidate(a, j, y) && !Agrees(b, a, j, y);
    assert AccountsBefore(b) == {j};
    OrderMattersExactly(b, a);
  }
}
