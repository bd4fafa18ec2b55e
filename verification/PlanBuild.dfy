/** internal/applyplan/plan.go: running the generators, and the accounting of what
    they covered. */
module PlanBuild {
  import opened Prelude
  import opened Text
  import opened Order

  type Settings = map<string, string>

  datatype Value =
    | Listener(name: string, bind: set<string>, protocol: string, tlsImplicit: Option<bool>)
    | AccountRole(name: string, variant: string)

  datatype Operation = Operation(kind: string, matchOn: seq<string>, values: map<string, Value>)

  datatype Warning = NoBind(listener: string) | NoProtocol(listener: string) | UnknownProtocol(listener: string,
        protocol: string)

  datatype Generated = Generated(ops: seq<Operation>, covered: seq<string>, warnings: seq<Warning>)

  /** A generator claims a key prefix, and is handed the settings under it. */
  datatype Generator = Generator(prefix: string, generate: Settings -> Result<Generated, string>)

  datatype PrefixCount = PrefixCount(prefix: string, keys: nat)

  datatype Coverage = Coverage(total: nat, covered: nat, remaining: seq<PrefixCount>, warnings: seq<Warning>,
                               objects: map<string, nat>)

  datatype Built = Built(ops: seq<Operation>, covered: seq<string>, warnings: seq<Warning>, coverage: Coverage)

  datatype BuildError = BuildError(prefix: string, message: string)

  function Subset(settings: Settings, unmigrated: set<string>, prefix: string): Settings {
    map k | k in settings && k in unmigrated && HasPrefix(k, prefix) :: settings[k]
  }

  /** What the generators produce together, or the first error. */
  function Produced(settings: Settings, unmigrated: set<string>, generators: seq<Generator>): Result<Generated,
        BuildError> {
    if generators == [] then Success(Generated([], [], []))
    else
      match Produced(settings, unmigrated, generators[..|generators| - 1])
      case Failure(e) => Failure(e)
      case Success(sofar) =>
        var g := generators[|generators| - 1];
        var subset := Subset(settings, unmigrated, g.prefix);
        if subset == map[] then Success(sofar)
        else
          match g.generate(subset)
          case Failure(e) => Failure(BuildError(g.prefix, e))
          case Success(more) =>
            Success(Generated(sofar.ops + more.ops, sofar.covered + more.covered, sofar.warnings + more.warnings))
  }

  function Claims(g: Generated): set<string> {
    set k | k in g.covered
  }

  function Add(objects: map<string, nat>, op: Operation): map<string, nat> {
    objects[op.kind := (if op.kind in objects then objects[op.kind] else 0) + |op.values|]
  }

  function ObjectCounts(ops: seq<Operation>): map<string, nat> {
    if ops == [] then map[] else Add(ObjectCounts(ops[..|ops| - 1]), ops[|ops| - 1])
  }

  // ---------------------------------------------------------------- groups of keys

  /** The first '.' at or after i, or the end of the key. */
  function DotFrom(key: string, i: nat): (d: nat)
    requires i <= |key|
    ensures i <= d <= |key| && (d < |key| ==> key[d] == '.')
    ensures forall j :: i <= j < d ==> key[j] != '.'
    decreases |key| - i
  {
    if i == |key| || key[i] == '.' then i else DotFrom(key, i + 1)
  }

  /** The first two dotted segments of a key. */
  function GroupPrefix(key: string): (r: string)
    ensures r <= key && (r != key ==> key[|r|] == '.' && '.' in r)
    ensures forall i, j :: 0 <= i < j < |r| ==> r[i] != '.' || r[j] != '.'
  {
    var first := DotFrom(key, 0);
    if first == |key| then key
    else
      var second := DotFrom(key, first + 1);
      assert second < |key| ==> key[..second][first] == '.';
      key[..second]
  }

  function Group(keys: set<string>, prefix: string): set<string> {
    set k | k in keys && GroupPrefix(k) == prefix
  }

  /** The order of the report: largest group first, then by prefix. */
  predicate Ahead(a: PrefixCount, b: PrefixCount) {
    a.keys > b.keys || (a.keys == b.keys && Less(a.prefix, b.prefix))
  }

  predicate Ranked(s: seq<PrefixCount>) {
    forall i, j :: 0 <= i < j < |s| ==> Ahead(s[i], s[j])
  }

  /** The ranked histogram of a set of keys by group. */
  ghost predicate IsHistogram(s: seq<PrefixCount>, keys: set<string>) {
    && Ranked(s)
    && (forall i, j :: 0 <= i < j < |s| ==> s[i].prefix != s[j].prefix)
    && (forall c :: c in s ==> c.keys == |Group(keys, c.prefix)| > 0)
    && (forall k :: k in keys ==> exists c :: c in s && c.prefix == GroupPrefix(k))
  }

  predicate Counts(m: map<string, nat>, keys: set<string>) {
    && (forall k :: k in keys ==> GroupPrefix(k) in m)
    && (forall p :: p in m ==> m[p] == |Group(keys, p)| && m[p] > 0)
  }

  lemma CountOne(m: map<string, nat>, keys: set<string>, k: string)
    requires Counts(m, keys) && k !in keys
    ensures var p := GroupPrefix(k);
            Counts(m[p := (if p in m then m[p] else 0) + 1], keys + {k})
  {
    hide GroupPrefix;
    var p := GroupPrefix(k);
    assert Group(keys + {k}, p) == Group(keys, p) + {k};
    if p !in m {
      assert Group(keys, p) == {};
    }
    forall q | q != p
      ensures Group(keys + {k}, q) == Group(keys, q)
    {
    }
  }

  method CountGroups(keys: set<string>) returns (m: map<string, nat>)
    ensures Counts(m, keys)
  {
    hide Counts, GroupPrefix;
    m := map[];
    var rest := keys;
    NothingCounted();
    assert keys - rest == {};
    while rest != {}
      invariant rest <= keys && Counts(m, keys - rest)
      decreases rest
    {
      var k :| k in rest;
      var p := GroupPrefix(k);
      CountOne(m, keys - rest, k);
      assert keys - rest + {k} == keys - (rest - {k});
      m := m[p := (if p in m then m[p] else 0) + 1];
      rest := rest - {k};
    }
    assert keys - rest == keys;
  }

  lemma NothingCounted()
    ensures Counts(map[], {})
  {
  }

  lemma AheadIsTransitive(a: PrefixCount, b: PrefixCount, c: PrefixCount)
    requires Ahead(a, b) && Ahead(b, c)
    ensures Ahead(a, c)
  {
    if a.keys == b.keys == c.keys {
      LessIsTransitive(a.prefix, b.prefix, c.prefix);
    }
  }

  method Rank(s: seq<PrefixCount>, c: PrefixCount) returns (r: seq<PrefixCount>)
    requires Ranked(s) && forall d :: d in s ==> d.prefix != c.prefix
    ensures Ranked(r) && forall d :: d in r <==> d in s || d == c
  {
    hide Less, Ahead;
    var k: nat := |s|;
    while k > 0 && Ahead(c, s[k - 1])
      invariant k <= |s| && forall j :: k <= j < |s| ==> Ahead(c, s[j])
    {
      k := k - 1;
    }
    if k > 0 {
      assert s[k - 1] in s;
      AheadIsTotal(c, s[k - 1]);
    }
    RankKeepsOrder(s, k, c);
    r := s[..k] + [c] + s[k..];
    assert s == s[..k] + s[k..];
  }

  lemma AheadIsTotal(a: PrefixCount, b: PrefixCount)
    requires a.prefix != b.prefix
    ensures Ahead(a, b) || Ahead(b, a)
  {
    LessIsTotal(a.prefix, b.prefix);
  }

  lemma RankKeepsOrder(s: seq<PrefixCount>, k: nat, c: PrefixCount)
    requires k <= |s| && Ranked(s)
    requires k > 0 ==> Ahead(s[k - 1], c)
    requires forall j :: k <= j < |s| ==> Ahead(c, s[j])
    ensures Ranked(s[..k] + [c] + s[k..])
  {
    hide Ahead;
    var r := s[..k] + [c] + s[k..];
    forall i, j | 0 <= i < j < |r|
      ensures Ahead(r[i], r[j])
    {
      if j == k {
        if i < k - 1 { AheadIsTransitive(s[i], s[k - 1], c); }
      } else if i < k < j {
        assert r[i] == s[i] && r[j] == s[j - 1];
      }
    }
  }

  method Histogram(keys: set<string>) returns (s: seq<PrefixCount>)
    ensures IsHistogram(s, keys)
  {
    hide GroupPrefix, Less, Ahead, Group;
    var m := CountGroups(keys);
    s := [];
    var rest := m.Keys;
    while rest != {}
      invariant rest <= m.Keys && Ranked(s)
      invariant forall c :: c in s <==> c.prefix in m.Keys - rest && c.keys == m[c.prefix]
      decreases rest
    {
      var p :| p in rest;
      s := Rank(s, PrefixCount(p, m[p]));
      rest := rest - {p};
    }
    RankedIsDistinct(s, m);
    forall k | k in keys
      ensures exists c :: c in s && c.prefix == GroupPrefix(k)
    {
      assert PrefixCount(GroupPrefix(k), m[GroupPrefix(k)]) in s;
    }
  }

  lemma RankedIsDistinct(s: seq<PrefixCount>, m: map<string, nat>)
    requires Ranked(s) && forall c :: c in s ==> c.prefix in m && c.keys == m[c.prefix]
    ensures forall i, j :: 0 <= i < j < |s| ==> s[i].prefix != s[j].prefix
  {
    forall i, j | 0 <= i < j < |s|
      ensures s[i].prefix != s[j].prefix
    {
      assert s[i] in s && s[j] in s && Ahead(s[i], s[j]);
      LessIsStrict(s[i].prefix, s[j].prefix);
    }
  }

  // ------------------------------------------------------------------------- Build

  method SubsetOf(settings: Settings, unmigrated: set<string>, prefix: string) returns (subset: Settings)
    ensures subset == Subset(settings, unmigrated, prefix)
  {
    hide HasPrefix;
    subset := map[];
    var rest := settings.Keys;
    while rest != {}
      invariant rest <= settings.Keys
      invariant subset == map k | k in settings && k !in rest && k in unmigrated && HasPrefix(k, prefix) :: settings[k]
      decreases rest
    {
      var k :| k in rest;
      rest := rest - {k};
      if k in unmigrated && HasPrefix(k, prefix) {
        subset := subset[k := settings[k]];
      }
    }
  }

  method CountObjects(objects0: map<string, nat>, done: seq<Operation>,
        more: seq<Operation>) returns (objects: map<string, nat>)
    requires objects0 == ObjectCounts(done)
    ensures objects == ObjectCounts(done + more)
  {
    hide Add;
    objects := objects0;
    assert done + more[..0] == done;
    for i := 0 to |more|
      invariant objects == ObjectCounts(done + more[..i])
    {
      assert (done + more[..i + 1])[..|done| + i] == done + more[..i];
      objects := Add(objects, more[i]);
    }
    assert done + more[..|more|] == done + more;
  }

  ghost predicate IsBuilt(b: Built, unmigrated: set<string>, g: Generated) {
    && b.ops == g.ops && b.warnings == g.warnings && b.covered == Sorted(Claims(g))
    && b.coverage.warnings == g.warnings && b.coverage.objects == ObjectCounts(g.ops)
    && b.coverage.total == |unmigrated| && b.coverage.covered == |Claims(g)|
    && IsHistogram(b.coverage.remaining, unmigrated - Claims(g))
  }

  method Build(settings: Settings, unmigrated: set<string>,
        generators: seq<Generator>) returns (r: Result<Built, BuildError>)
    ensures match Produced(settings, unmigrated, generators)
            case Failure(e) => r == Failure(e)
            case Success(g) => r.Success? && IsBuilt(r.value, unmigrated, g)
  {
    hide Subset, ObjectCounts, IsHistogram, Sorted;
    var done := Generated([], [], []);
    var objects: map<string, nat> := map[];
    var covered: set<string> := {};
    assert objects == ObjectCounts([]) by { NoObjects(); }
    for i := 0 to |generators|
      invariant Produced(settings, unmigrated, generators[..i]) == Success(done)
      invariant objects == ObjectCounts(done.ops) && covered == Claims(done)
    {
      ProducedNext(settings, unmigrated, generators, i);
      var g := generators[i];
      var subset := SubsetOf(settings, unmigrated, g.prefix);
      if subset != map[] {
        var result := g.generate(subset);
        if result.Failure? {
          FailureLasts(settings, unmigrated, generators, i + 1);
          return Failure(BuildError(g.prefix, result.error));
        }
        var more := result.value;
        objects := CountObjects(objects, done.ops, more.ops);
        covered := covered + (set k | k in more.covered);
        done := Generated(done.ops + more.ops, done.covered + more.covered, done.warnings + more.warnings);
      }
    }
    assert generators[..|generators|] == generators;
    var keys := SortKeys(covered);
    var remaining := Histogram(unmigrated - covered);
    r := Success(Built(done.ops, keys, done.warnings,
                       Coverage(|unmigrated|, |covered|, remaining, done.warnings, objects)));
  }

  lemma NoObjects()
    ensures ObjectCounts([]) == map[]
  {
  }

  lemma ProducedNext(settings: Settings, unmigrated: set<string>, generators: seq<Generator>, i: nat)
    requires i < |generators|
    ensures generators[..i + 1][..i] == generators[..i] && generators[..i + 1][i] == generators[i]
  {
  }

  lemma {:induction false} FailureLasts(settings: Settings, unmigrated: set<string>, generators: seq<Generator>, n: nat)
    requires n <= |generators| && Produced(settings, unmigrated, generators[..n]).Failure?
    ensures Produced(settings, unmigrated, generators) == Produced(settings, unmigrated, generators[..n])
    decreases |generators| - n
  {
    if n == |generators| {
      assert generators[..n] == generators;
    } else {
      ProducedNext(settings, unmigrated, generators, n);
      FailureLasts(settings, unmigrated, generators, n + 1);
    }
  }

  // ------------------------------------------------------------------ conservation

  function Sum(s: seq<PrefixCount>): nat {
    if s == [] then 0 else s[0].keys + Sum(s[1..])
  }

  ghost function KeysUnder(s: seq<PrefixCount>, keys: set<string>): set<string> {
    set k | k in keys && exists c :: c in s && c.prefix == GroupPrefix(k)
  }

  /** The groups of a histogram are disjoint, so its counts add up. */
  lemma {:induction false} SumCountsKeys(s: seq<PrefixCount>, keys: set<string>)
    requires forall i, j :: 0 <= i < j < |s| ==> s[i].prefix != s[j].prefix
    requires forall c :: c in s ==> c.keys == |Group(keys, c.prefix)|
    ensures Sum(s) == |KeysUnder(s, keys)|
  {
    hide GroupPrefix;
    if s == [] {
      assert KeysUnder(s, keys) == {};
    } else {
      SumCountsKeys(s[1..], keys);
      var first, others := Group(keys, s[0].prefix), KeysUnder(s[1..], keys);
      forall k
        ensures k in KeysUnder(s, keys) <==> k in first || k in others
      {
        assert s == [s[0]] + s[1..];
        assert forall c :: c in s <==> c == s[0] || c in s[1..];
      }
      assert first !! others;
      assert KeysUnder(s, keys) == first + others;
    }
  }

  lemma HistogramIsComplete(s: seq<PrefixCount>, keys: set<string>)
    requires IsHistogram(s, keys)
    ensures Sum(s) == |keys|
  {
    hide GroupPrefix, Ahead;
    SumCountsKeys(s, keys);
    assert KeysUnder(s, keys) == keys;
  }

  /** The report accounts for every unmigrated key exactly when the generators
      claimed no key outside the unmigrated ones; every further claim is one too many. */
  lemma CoverageConserves(b: Built, unmigrated: set<string>, g: Generated)
    requires IsBuilt(b, unmigrated, g)
    ensures b.coverage.covered + Sum(b.coverage.remaining) == b.coverage.total + |Claims(g) - unmigrated|
    ensures b.coverage.covered + Sum(b.coverage.remaining) == b.coverage.total <==> Claims(g) <= unmigrated
  {
    hide IsHistogram, ObjectCounts, Claims, Sum, Sorted;
    HistogramIsComplete(b.coverage.remaining, unmigrated - Claims(g));
    UnionBothWays(Claims(g), unmigrated);
  }

  lemma UnionBothWays(s: set<string>, t: set<string>)
    ensures |s| + |t - s| == |t| + |s - t|
    ensures |s - t| == 0 <==> s <= t
  {
    var both := s * t;
    assert s == (s - t) + both && t == (t - s) + both;
    assert |s| == |s - t| + |both|;
    assert |t| == |t - s| + |both|;
    if s <= t {
      assert s - t == {};
    } else {
      var k :| k in s && k !in t;
      assert k in s - t;
    }
  }

  /** Given settings under its prefix, it claims only keys among them. */
  ghost predicate Honest(g: Generator) {
    forall s, out :: (forall k :: k in s ==> HasPrefix(k, g.prefix)) && g.generate(s) == Success(out) ==>
                       forall k :: k in out.covered ==> k in s
  }

  lemma {:induction false} HonestClaims(settings: Settings, unmigrated: set<string>,
        generators: seq<Generator>, g: Generated)
    requires Produced(settings, unmigrated, generators) == Success(g)
    requires forall i :: 0 <= i < |generators| ==> Honest(generators[i])
    ensures forall k :: k in g.covered ==>
              k in settings && k in unmigrated
              && exists i :: 0 <= i < |generators| && HasPrefix(k, generators[i].prefix)
  {
    if generators != [] {
      var before, last := generators[..|generators| - 1], generators[|generators| - 1];
      var sofar := Produced(settings, unmigrated, before).value;
      HonestClaims(settings, unmigrated, before, sofar);
      forall k | k in sofar.covered
        ensures exists i :: 0 <= i < |generators| && HasPrefix(k, generators[i].prefix)
      {
        var i :| 0 <= i < |before| && HasPrefix(k, before[i].prefix);
        assert generators[i] == before[i];
      }
    }
  }

  /** With honest generators no key is lost or counted twice. */
  lemma HonestCoverage(settings: Settings, unmigrated: set<string>, generators: seq<Generator>, g: Generated, b: Built)
    requires Produced(settings, unmigrated, generators) == Success(g) && IsBuilt(b, unmigrated, g)
    requires forall i :: 0 <= i < |generators| ==> Honest(generators[i])
    ensures b.coverage.covered + Sum(b.coverage.remaining) == b.coverage.total
    ensures forall k :: k in b.covered ==> k in settings && k in unmigrated
  {
    hide IsHistogram, ObjectCounts, Honest, HasPrefix;
    HonestClaims(settings, unmigrated, generators, g);
    CoverageConserves(b, unmigrated, g);
  }

  /** What the official conversion already handles is invisible to the generators. */
  lemma {:induction false} OnlyUnmigratedMatters(s: Settings, t: Settings, unmigrated: set<string>,
        generators: seq<Generator>)
    requires forall k :: k in unmigrated ==> (k in s <==> k in t) && (k in s ==> s[k] == t[k])
    ensures Produced(s, unmigrated, generators) == Produced(t, unmigrated, generators)
  {
    if generators != [] {
      var last := generators[|generators| - 1];
      OnlyUnmigratedMatters(s, t, unmigrated, generators[..|generators| - 1]);
      assert Subset(s, unmigrated, last.prefix) == Subset(t, unmigrated, last.prefix);
    }
  }

  /** A generator that claims a key it was not given: the key it leaves is counted as
      remaining, and its claim as covered, so the report has one key too many. */
  lemma OverclaimBreaksTheSum(key: string, claim: string, b: Built)
    requires key != claim
    requires var g := Generator(key, s => Success(Generated([], [claim], [])));
             && Produced(map[key := ""], {key}, [g]).Success?
             && IsBuilt(b, {key}, Produced(map[key := ""], {key}, [g]).value)
    ensures b.coverage.total == 1 && b.coverage.covered + Sum(b.coverage.remaining) == 2
  {
    hide IsHistogram, ObjectCounts, Sum, Sorted;
    var g := Generator(key, s => Success(Generated([], [claim], [])));
    var subset := Subset(map[key := ""], {key}, key);
    assert key in subset;
    assert [g][..0] == [];
    var out := Produced(map[key := ""], {key}, [g]).value;
    assert out.covered == [claim];
    assert Claims(out) == {claim};
    assert {claim} - {key} == {claim};
    CoverageConserves(b, {key}, out);
  }
}
