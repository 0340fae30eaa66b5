/** Families of type-dispatch sites and of discriminator sites: sites whose variant sets overlap
    enough belong together, directly or through other sites. */
module DispatchFamilies {
  import opened Ordering
  import opened UnionFind
  import opened Components

  datatype DispatchSite = DispatchSite(typeAssertion: bool, variants: seq<string>, positionKey: string,
                                       fileLine: string)

  datatype DiscriminatorSite = DiscriminatorSite(values: seq<string>, positionKey: string)

  // ---------- String sets kept as sorted lists ----------

  /** The different non-empty values. */
  ghost function Distinct(values: seq<string>): set<string> { set v | v in values && v != "" }

  ghost predicate SortedSet(s: seq<string>, elements: set<string>) {
    && SortedBy(s, StringLeq)
    && (forall i, j :: 0 <= i < j < |s| ==> s[i] != s[j])
    && Elements(s) == elements
  }

  method UniqueSorted(values: seq<string>) returns (out: seq<string>)
    ensures SortedSet(out, Distinct(values))
    ensures |out| == |Distinct(values)|
  {
    var present: set<string> := {};
    for i := 0 to |values|
      invariant present == Distinct(values[..i])
    {
      assert values[..i + 1] == values[..i] + [values[i]];
      if values[i] != "" {
        present := present + {values[i]};
      }
    }
    assert values[..|values|] == values;
    var listed: seq<string> := [];
    var left := present;
    while left != {}
      invariant left <= present
      invariant forall v :: v in listed <==> v in present && v !in left
      invariant forall i, j :: 0 <= i < j < |listed| ==> listed[i] != listed[j]
      decreases left
    {
      var v :| v in left;
      left := left - {v};
      listed := listed + [v];
    }
    StringOrder();
    out := SortSlice(listed, StringLeq);
    SameMultisetSameElements(out, listed);
    KeysStayDistinct(listed, out, (v: string) => v);
    assert Elements(out) == present;
    DistinctSize(out);
  }

  /** The different non-empty values the two lists have in common, sorted. */
  method Intersection(a: seq<string>, b: seq<string>) returns (out: seq<string>)
    ensures SortedSet(out, Distinct(a) * Distinct(b))
    ensures |out| == |Distinct(a) * Distinct(b)|
  {
    var inA: set<string> := {};
    for i := 0 to |a|
      invariant forall v :: v in inA <==> v in a[..i]
    {
      inA := inA + {a[i]};
    }
    var common: seq<string> := [];
    for i := 0 to |b|
      invariant forall v :: v in common <==> v in inA && v in b[..i]
    {
      if b[i] in inA {
        common := common + [b[i]];
      }
    }
    assert a[..|a|] == a && b[..|b|] == b;
    assert Distinct(common) == Distinct(a) * Distinct(b);
    out := UniqueSorted(common);
  }

  /** A truncated percentage, 0 of an empty whole. */
  function Percentage(part: nat, whole: nat): nat { if whole == 0 then 0 else 100 * part / whole }

  /** The share of all variants of the two sites that both have. */
  ghost function Overlap(a: seq<string>, b: seq<string>): nat {
    Percentage(|Distinct(a) * Distinct(b)|, |Distinct(a) + Distinct(b)|)
  }

  method OverlapPercent(a: seq<string>, b: seq<string>) returns (percent: nat)
    ensures percent == Overlap(a, b)
  {
    var shared := Intersection(a, b);
    var union := UniqueSorted(a + b);
    assert Distinct(a + b) == Distinct(a) + Distinct(b);
    percent := Percentage(|shared|, |union|);
  }

  /** The overlap is a symmetric percentage; it is full exactly for equal, non-empty variant sets. */
  lemma OverlapRange(a: seq<string>, b: seq<string>)
    ensures Overlap(a, b) <= 100 && Overlap(a, b) == Overlap(b, a)
    ensures Overlap(a, b) == 100 <==> Distinct(a) == Distinct(b) && Distinct(a) != {}
    ensures Overlap(a, b) > 0 ==> exists v :: v in a && v in b && v != ""
  {
    var x, y := Distinct(a), Distinct(b);
    assert x * y == y * x && x + y == y + x;
    SubsetSize(x * y, x + y);
    var shared, union := |x * y|, |x + y|;
    if union > 0 {
      PercentRange(shared, union);
      if shared == union {
        assert x == x * y && y == x * y;
      }
      if x == y { assert x * y == x && x + y == x; }
      if shared > 0 {
        var v :| v in x * y;
        assert v in a && v in b && v != "";
      }
    } else {
      assert x + y == {};
      assert x == {};
    }
  }

  lemma Times(a: nat, b: nat, c: nat)
    requires a <= b
    ensures a * c <= b * c
  {
  }

  lemma QuotientBelow(x: nat, w: nat, k: nat)
    requires 0 < w && x < k * w
    ensures x / w < k
  {
    if k <= x / w { Times(k, x / w, w); }
  }

  lemma {:induction false} QuotientExact(k: nat, w: nat)
    requires 0 < w
    ensures k * w / w == k
  {
    assert (k + 1) * w == k * w + w;
    QuotientBelow(k * w, w, k + 1);
    var q := k * w / w;
    assert (q + 1) * w == q * w + w;
    if q + 1 <= k { Times(q + 1, k, w); }
  }

  lemma PercentRange(part: nat, whole: nat)
    requires 0 < whole && part <= whole
    ensures 100 * part / whole <= 100
    ensures 100 * part / whole == 100 <==> part == whole
    ensures part == 0 ==> 100 * part / whole == 0
  {
    if part == whole {
      QuotientExact(100, whole);
    } else {
      QuotientBelow(100 * part, whole, 100);
      if part == 0 { QuotientBelow(0, whole, 1); }
    }
  }

  // ---------- Dispatch families ----------

  /** Two sites belong together: both are standalone type assertions, or they share enough variants. */
  ghost predicate DispatchLinked(a: DispatchSite, b: DispatchSite, minShared: int, minOverlap: int) {
    || (a.typeAssertion && b.typeAssertion)
    || (|Distinct(a.variants) * Distinct(b.variants)| >= minShared && Overlap(a.variants, b.variants) >= minOverlap)
  }

  ghost function DispatchTest(sites: seq<DispatchSite>, minShared: int, minOverlap: int): (nat, nat) -> bool {
    (i: nat, j: nat) => i < |sites| && j < |sites| && DispatchLinked(sites[i], sites[j], minShared, minOverlap)
  }

  /** The link test of one pair, from the variants as listed. */
  method DispatchPair(sites: seq<DispatchSite>, minShared: int, minOverlap: int, i: nat, j: nat) returns (linked: bool)
    requires i < |sites| && j < |sites|
    ensures linked == DispatchTest(sites, minShared, minOverlap)(i, j)
  {
    var shared := Intersection(sites[i].variants, sites[j].variants);
    var overlap := OverlapPercent(sites[i].variants, sites[j].variants);
    var standalone := sites[i].typeAssertion && sites[j].typeAssertion;
    linked := standalone || (|shared| >= minShared && overlap >= minOverlap);
  }

  method JoinDispatchSites(sites: seq<DispatchSite>, minShared: int, minOverlap: int) returns (forest: Forest)
    ensures fresh(forest) && fresh(forest.parent) && forest.Valid() && forest.parent.Length == |sites|
    ensures forest.links == PassingPairs(|sites|, DispatchTest(sites, minShared, minOverlap))
  {
    var n := |sites|;
    ghost var test := DispatchTest(sites, minShared, minOverlap);
    forest := new Forest(n);
    for i := 0 to n
      invariant fresh(forest) && fresh(forest.parent) && forest.Valid() && forest.parent.Length == n
      invariant forest.links == PassingBefore(n, test, i, 0)
    {
      PassingRow(n, test, i);
      for j := i + 1 to n
        invariant fresh(forest) && fresh(forest.parent) && forest.Valid() && forest.parent.Length == n
        invariant forest.links == PassingBefore(n, test, i, j)
      {
        var linked := DispatchPair(sites, minShared, minOverlap, i, j);
        JoinOne(forest, test, i, j, linked);
      }
    }
    PassingAll(n, test);
  }

  /** The families partition the sites by connectedness; each is sorted by position, and they are
      ordered by file and line of their first site. */
  method DispatchComponents(sites: seq<DispatchSite>, minShared: int, minOverlap: int) returns (families: seq<seq<nat>>)
    ensures Families(families, |sites|, PassingPairs(|sites|, DispatchTest(sites, minShared, minOverlap)))
    ensures forall family :: family in families ==> SortedBy(family, ByKey(PositionKeys(sites)))
    ensures SortedBy(families, ByFirst(FileLines(sites)))
  {
    var forest := JoinDispatchSites(sites, minShared, minOverlap);
    var unordered := KeyedFamilies(forest, PositionKeys(sites));
    ByFirstOrder(FileLines(sites));
    families := SortSlice(unordered, ByFirst(FileLines(sites)));
    FamiliesReordered(unordered, families, |sites|, forest.links);
    SameMultisetSameElements(unordered, families);
  }

  function PositionKeys(sites: seq<DispatchSite>): seq<string> {
    seq(|sites|, i requires 0 <= i < |sites| => sites[i].positionKey)
  }

  function FileLines(sites: seq<DispatchSite>): seq<string> {
    seq(|sites|, i requires 0 <= i < |sites| => sites[i].fileLine)
  }

  function ByFirst(keys: seq<string>): (seq<nat>, seq<nat>) -> bool {
    (a: seq<nat>, b: seq<nat>) => StringLeq(KeyAt(keys, First(a)), KeyAt(keys, First(b)))
  }

  lemma {:induction false} ByFirstOrder(keys: seq<string>)
    ensures TotalPreorder(ByFirst(keys))
  {
    StringOrder();
  }

  lemma FamiliesReordered(a: seq<seq<nat>>, b: seq<seq<nat>>, n: nat, links: set<(nat, nat)>)
    requires Families(a, n, links) && multiset(a) == multiset(b)
    ensures Families(b, n, links)
  {
    SameMultisetSameElements(a, b);
    forall x: nat | x < n ensures Covered(b, x) {
      assert Covered(a, x);
      var family :| family in a && x in family;
      assert family in b;
    }
    forall i, j | 0 <= i < j < |a| ensures First(a[i]) != First(a[j]) {
      assert a[i] in a && a[j] in a;
      assert a[i][0] in a[i] && a[j][0] in a[j];
    }
    KeysStayDistinct(a, b, First);
    forall i, j, x | 0 <= i < j < |b| && x in b[i] ensures x !in b[j] {
      assert b[i] in b && b[j] in b;
      var k :| 0 <= k < |a| && a[k] == b[i];
      var m :| 0 <= m < |a| && a[m] == b[j];
      assert k != m;
    }
  }

  /** A truncated percentage reaches a bound exactly when the ratio does. */
  lemma PercentageReaches(part: nat, whole: nat, bound: int)
    requires part <= whole
    ensures Percentage(part, whole) >= bound <==> 100 * part >= bound * whole && (whole == 0 ==> bound <= 0)
  {
    if whole > 0 {
      var x := 100 * part;
      var q := x / whole;
      assert x == q * whole + x % whole;
      if bound <= q {
        TimesInt(bound, q, whole);
      } else {
        TimesInt(q + 1, bound, whole);
        assert (q + 1) * whole == q * whole + whole;
      }
    }
  }

  lemma TimesInt(a: int, b: int, c: nat)
    requires a <= b
    ensures a * c <= b * c
  {
  }

  /** The link test in terms of what the two sites have in common and have at all: both are standalone type
      assertions, or the common variants are many enough and at least the given percentage of all. */
  lemma LinkMeans(a: DispatchSite, b: DispatchSite, minShared: int, minOverlap: int, common: set<string>,
                  all: set<string>)
    requires forall v :: v in common <==> v in a.variants && v in b.variants && v != ""
    requires forall v :: v in all <==> (v in a.variants || v in b.variants) && v != ""
    ensures DispatchLinked(a, b, minShared, minOverlap) <==>
      || (a.typeAssertion && b.typeAssertion)
      || (|common| >= minShared && 100 * |common| >= minOverlap * |all| && (all == {} ==> minOverlap <= 0))
  {
    assert common == Distinct(a.variants) * Distinct(b.variants);
    assert all == Distinct(a.variants) + Distinct(b.variants);
    SubsetSize(common, all);
    PercentageReaches(|common|, |all|, minOverlap);
  }

  /** Nodes of one family are in order exactly when their keys are the same or ascend byte by byte. */
  lemma KeyOrderMeans(keys: seq<string>, a: nat, b: nat)
    requires a < |keys| && b < |keys|
    ensures ByKey(keys)(a, b) <==> keys[a] == keys[b] || ByteBefore(keys[a], keys[b])
  {
    StringLeqMeans(keys[a], keys[b]);
  }

  /** Families are in order exactly when the file lines of their first sites are. */
  lemma FamilyOrderMeans(keys: seq<string>, a: seq<nat>, b: seq<nat>)
    requires a != [] && b != [] && a[0] < |keys| && b[0] < |keys|
    ensures ByFirst(keys)(a, b) <==> keys[a[0]] == keys[b[0]] || ByteBefore(keys[a[0]], keys[b[0]])
  {
    StringLeqMeans(keys[a[0]], keys[b[0]]);
  }

  // ---------- Discriminator families ----------

  ghost predicate ValuesLinked(a: DiscriminatorSite, b: DiscriminatorSite, minShared: int) {
    |Distinct(a.values) * Distinct(b.values)| >= minShared
  }

  ghost function ValuesTest(sites: seq<DiscriminatorSite>, minShared: int): (nat, nat) -> bool {
    (i: nat, j: nat) => i < |sites| && j < |sites| && ValuesLinked(sites[i], sites[j], minShared)
  }

  function ValueKeys(sites: seq<DiscriminatorSite>): seq<string> {
    seq(|sites|, i requires 0 <= i < |sites| => sites[i].positionKey)
  }

  method ValuesPair(sites: seq<DiscriminatorSite>, minShared: int, i: nat, j: nat) returns (linked: bool)
    requires i < |sites| && j < |sites|
    ensures linked == ValuesTest(sites, minShared)(i, j)
  {
    var shared := Intersection(sites[i].values, sites[j].values);
    linked := |shared| >= minShared;
  }

  lemma ValuesMean(a: DiscriminatorSite, b: DiscriminatorSite, minShared: int, common: set<string>)
    requires forall v :: v in common <==> v in a.values && v in b.values && v != ""
    ensures ValuesLinked(a, b, minShared) <==> |common| >= minShared
  {
    assert common == Distinct(a.values) * Distinct(b.values);
  }

  method JoinDiscriminatorSites(sites: seq<DiscriminatorSite>, minShared: int) returns (forest: Forest)
    ensures fresh(forest) && fresh(forest.parent) && forest.Valid() && forest.parent.Length == |sites|
    ensures forest.links == PassingPairs(|sites|, ValuesTest(sites, minShared))
  {
    var n := |sites|;
    ghost var test := ValuesTest(sites, minShared);
    forest := new Forest(n);
    for i := 0 to n
      invariant fresh(forest) && fresh(forest.parent) && forest.Valid() && forest.parent.Length == n
      invariant forest.links == PassingBefore(n, test, i, 0)
    {
      PassingRow(n, test, i);
      for j := i + 1 to n
        invariant fresh(forest) && fresh(forest.parent) && forest.Valid() && forest.parent.Length == n
        invariant forest.links == PassingBefore(n, test, i, j)
      {
        var linked := ValuesPair(sites, minShared, i, j);
        JoinOne(forest, test, i, j, linked);
      }
    }
    PassingAll(n, test);
  }

  /** The families partition the discriminator sites; the families themselves come in map order. */
  method DiscriminatorComponents(sites: seq<DiscriminatorSite>, minShared: int) returns (families: seq<seq<nat>>)
    ensures Families(families, |sites|, PassingPairs(|sites|, ValuesTest(sites, minShared)))
    ensures forall family :: family in families ==> SortedBy(family, ByKey(ValueKeys(sites)))
  {
    var forest := JoinDiscriminatorSites(sites, minShared);
    families := KeyedFamilies(forest, ValueKeys(sites));
  }
}
