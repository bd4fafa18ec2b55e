/** Go's order on strings, and sorting a set of them: sort.Strings on the keys of
    a map. */
module Order {

  predicate Less(a: string, b: string) {
    if b == "" then false
    else if a == "" then true
    else a[0] < b[0] || (a[0] == b[0] && Less(a[1..], b[1..]))
  }

  lemma {:induction false} LessIsStrict(a: string, b: string)
    ensures Less(a, b) ==> !Less(b, a) && a != b
  {
    if a != "" && b != "" {
      LessIsStrict(a[1..], b[1..]);
    }
  }

  lemma {:induction false} LessAtDifference(a: string, b: string, i: nat)
    requires i < |a| && i < |b| && a[..i] == b[..i] && a[i] < b[i]
    ensures Less(a, b)
  {
    if i > 0 {
      assert a[0] == a[..i][0] == b[..i][0] == b[0];
      assert a[1..][..i - 1] == a[..i][1..] && b[1..][..i - 1] == b[..i][1..];
      LessAtDifference(a[1..], b[1..], i - 1);
    }
  }

  lemma {:induction false} LessThanLonger(a: string, b: string)
    requires a < b
    ensures Less(a, b)
  {
    if a != "" {
      LessThanLonger(a[1..], b[1..]);
    }
  }

  lemma {:induction false} WhereLess(a: string, b: string) returns (i: nat)
    requires Less(a, b)
    ensures a < b || (i < |a| && i < |b| && a[..i] == b[..i] && a[i] < b[i])
  {
    i := 0;
    if a != "" && a[0] == b[0] {
      var k := WhereLess(a[1..], b[1..]);
      i := k + 1;
      assert a == [a[0]] + a[1..] && b == [b[0]] + b[1..];
      if !(a < b) {
        assert a[..i] == [a[0]] + a[1..][..k] && b[..i] == [b[0]] + b[1..][..k];
      }
    }
  }

  /** One string comes before another where they first differ, or as a prefix of it. */
  lemma LessExactly(a: string, b: string)
    ensures Less(a, b) <==> a < b || exists i :: 0 <= i < |a| && i < |b| && a[..i] == b[..i] && a[i] < b[i]
  {
    hide Less;
    if Less(a, b) {
      var i := WhereLess(a, b);
    }
    if i :| 0 <= i < |a| && i < |b| && a[..i] == b[..i] && a[i] < b[i] {
      LessAtDifference(a, b, i);
    }
    if a < b {
      LessThanLonger(a, b);
    }
  }

  lemma {:induction false} LessIsTotal(a: string, b: string)
    ensures a == b || Less(a, b) || Less(b, a)
  {
    if a != "" && b != "" && a[0] == b[0] {
      LessIsTotal(a[1..], b[1..]);
      assert a == [a[0]] + a[1..] && b == [b[0]] + b[1..];
    }
  }

  lemma {:induction false} LessIsTransitive(a: string, b: string, c: string)
    requires Less(a, b) && Less(b, c)
    ensures Less(a, c)
  {
    if a != "" && a[0] == b[0] == c[0] {
      LessIsTransitive(a[1..], b[1..], c[1..]);
    }
  }

  predicate Ascending(s: seq<string>) {
    forall i, j :: 0 <= i < j < |s| ==> Less(s[i], s[j])
  }

  ghost predicate IsLeast(m: string, s: set<string>) {
    m in s && forall x :: x in s && x != m ==> Less(m, x)
  }

  lemma HasLeast(s: set<string>)
    requires s != {}
    ensures exists m :: IsLeast(m, s)
  {
    var x :| x in s;
    var rest := s - {x};
    if rest == {} {
      assert s == {x};
      assert IsLeast(x, s);
    } else {
      HasLeast(rest);
      var m :| IsLeast(m, rest);
      LessIsTotal(x, m);
      if Less(m, x) {
        assert IsLeast(m, s);
      } else {
        forall y | y in s && y != x
          ensures Less(x, y)
        {
          if y != m { LessIsTransitive(x, m, y); }
        }
        assert IsLeast(x, s);
      }
    }
  }

  /** The elements of a set in ascending order. */
  ghost function Sorted(s: set<string>): (r: seq<string>)
    ensures Ascending(r)
    ensures forall x :: x in r <==> x in s
    decreases |s|
  {
    if s == {} then []
    else
      HasLeast(s);
      var m :| IsLeast(m, s);
      assert |s - {m}| < |s|;
      var rest := Sorted(s - {m});
      assert forall i :: 0 <= i < |rest| ==> rest[i] in rest;
      assert forall x :: x in [m] + rest <==> x == m || x in rest;
      [m] + rest
  }

  lemma OnlyElement(s: set<string>, x: string)
    requires x in s && |s| <= 1
    ensures s == {x} && |s| == 1
  {
    var rest := s - {x};
    assert |rest| == |s| - 1;
    assert forall y :: y in s ==> y == x || y in rest;
  }

  lemma NonEmptyHas(s: seq<string>)
    ensures s != [] ==> exists x :: x in s
  {
    if s != [] {
      assert s[0] in s;
    }
  }

  lemma AscendingNext(s: seq<string>, x: string)
    requires Ascending(s) && forall y :: y in s ==> Less(y, x)
    ensures Ascending(s + [x])
  {
    hide Less;
    assert forall i :: 0 <= i < |s| ==> s[i] in s;
  }

  /** The last element of an ascending sequence comes after the others. */
  lemma LastIsGreatest(before: seq<string>, last: string)
    requires Ascending(before + [last])
    ensures Ascending(before) && forall x :: x in before ==> Less(x, last)
  {
    hide Less;
    var s := before + [last];
    assert s[|before|] == last && forall i :: 0 <= i < |before| ==> s[i] == before[i];
    forall i | 0 <= i < |before|
      ensures Less(before[i], last)
    {
      assert Less(s[i], s[|before|]);
    }
  }

  /** Two ascending sequences of the same elements are equal. */
  lemma {:induction false} AscendingIsUnique(a: seq<string>, b: seq<string>)
    requires Ascending(a) && Ascending(b)
    requires forall x :: x in a <==> x in b
    ensures a == b
  {
    hide Less;
    if a == [] {
      NonEmptyHas(b);
    } else {
      NonEmptyHas(a);
      assert a[0] in a && a[0] in b;
      assert b[0] in b && b[0] in a;
      var i :| 0 <= i < |a| && a[i] == b[0];
      var j :| 0 <= j < |b| && b[j] == a[0];
      LessIsStrict(a[0], b[0]);
      assert a[0] == b[0];
      forall x
        ensures x in a[1..] <==> x in b[1..]
      {
        LessIsStrict(a[0], x);
        if x in a[1..] {
          var k :| 0 <= k < |a[1..]| && a[1..][k] == x;
          assert x in a && Less(a[0], a[k + 1]) && x in b;
        }
        if x in b[1..] {
          var k :| 0 <= k < |b[1..]| && b[1..][k] == x;
          assert x in b && Less(b[0], b[k + 1]) && x in a;
        }
      }
      AscendingIsUnique(a[1..], b[1..]);
      assert a == [a[0]] + a[1..] && b == [b[0]] + b[1..];
    }
  }

  lemma SortedSize(s: set<string>)
    ensures |Sorted(s)| == |s|
    decreases |s|
  {
    if s == {} {
    } else {
      HasLeast(s);
      var r := Sorted(s);
      NonEmptyHas(r);
      assert r != [];
      SortedTail(s);
      SortedSize(s - {r[0]});
    }
  }

  lemma SortedTail(s: set<string>)
    requires s != {}
    ensures Sorted(s) != [] && Sorted(s)[0] in s && Sorted(s)[1..] == Sorted(s - {Sorted(s)[0]})
  {
    HasLeast(s);
  }

  lemma SortedIn(s: set<string>)
    ensures forall i :: 0 <= i < |Sorted(s)| ==> Sorted(s)[i] in s
  {
    assert forall i :: 0 <= i < |Sorted(s)| ==> Sorted(s)[i] in Sorted(s);
  }

  lemma AscendingDistinct(s: seq<string>, i: nat, j: nat)
    requires Ascending(s) && i < j < |s|
    ensures s[i] != s[j]
  {
    LessIsStrict(s[i], s[j]);
  }

  lemma AscendingIsFresh(s: seq<string>, i: nat)
    requires Ascending(s) && i < |s|
    ensures s[i] !in s[..i] && s[..i + 1] == s[..i] + [s[i]]
  {
    hide Less;
    forall j | 0 <= j < i
      ensures s[j] != s[i]
    {
      AscendingDistinct(s, j, i);
    }
  }

  method Least(s: set<string>) returns (m: string)
    requires s != {}
    ensures IsLeast(m, s)
  {
    hide Less;
    m :| m in s;
    var rest := s - {m};
    while rest != {}
      invariant rest <= s && m in s && m !in rest
      invariant forall x :: x in s - rest && x != m ==> Less(m, x)
      decreases rest
    {
      var y :| y in rest;
      rest := rest - {y};
      LessIsTotal(m, y);
      if Less(y, m) {
        forall x | x in s - rest && x != y
          ensures Less(y, x)
        {
          if x != m { LessIsTransitive(y, m, x); }
        }
        m := y;
      }
    }
  }

  /** Sorts the keys of a map, whatever order they are read in. */
  method SortKeys(s: set<string>) returns (r: seq<string>)
    ensures r == Sorted(s)
  {
    hide Less;
    r := [];
    var rest := s;
    while rest != {}
      invariant rest <= s
      invariant forall x :: x in r <==> x in s - rest
      invariant Ascending(r)
      invariant forall x, y :: x in r && y in rest ==> Less(x, y)
      decreases rest
    {
      var m := Least(rest);
      r := r + [m];
      rest := rest - {m};
    }
    AscendingIsUnique(r, Sorted(s));
  }

  /** sort.Strings on distinct strings. */
  method SortStrings(s: seq<string>) returns (r: seq<string>)
    requires forall i, j :: 0 <= i < j < |s| ==> s[i] != s[j]
    ensures r == Sorted(set x | x in s)
  {
    r := SortKeys(set x | x in s);
  }
}
