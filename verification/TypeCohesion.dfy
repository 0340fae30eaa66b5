/** Method cohesion of a type: its LCOM4 components, its tight class cohesion (TCC), and the clusters
    of methods that share external imports. Methods are numbered in declaration order. */
module TypeCohesion {
  import opened UnionFind
  import opened Components
  import opened Ordering

  /** The method numbers that use each field, and the calls between methods. */
  datatype Profile = Profile(methods: nat, fieldUsers: map<string, set<nat>>, callEdges: set<(nat, nat)>) {
    ghost predicate Valid() {
      && (forall f, i :: f in fieldUsers && i in fieldUsers[f] ==> i < methods)
      && (forall e :: e in callEdges ==> e.0 < methods && e.1 < methods)
    }

    /** Two different methods use one field. */
    ghost predicate ShareField(i: nat, j: nat) {
      exists f :: f in fieldUsers && i in fieldUsers[f] && j in fieldUsers[f]
    }

    /** The relation LCOM4 is about: sharing a field or calling one another. */
    ghost function Related(): set<(nat, nat)> {
      (set f, i, j | f in fieldUsers && i in fieldUsers[f] && j in fieldUsers[f] :: (i, j)) + callEdges
    }
  }

  function Everything(): nat -> bool { (i: nat) => true }

  /** A map's or set's elements in an unspecified order. */
  method InSomeOrder(s: set<nat>) returns (order: seq<nat>)
    ensures forall i :: i in order <==> i in s
    ensures forall j, k :: 0 <= j < k < |order| ==> order[j] != order[k]
  {
    order := [];
    var left := s;
    while left != {}
      invariant left <= s
      invariant forall i :: i in order <==> i in s && i !in left
      invariant forall j, k :: 0 <= j < k < |order| ==> order[j] != order[k]
      decreases left
    {
      var i :| i in left;
      left := left - {i};
      order := order + [i];
    }
  }

  /** Users of one field are joined to whichever user comes first. */
  method JoinUsers(forest: Forest, p: Profile, field: string)
    requires forest.Valid() && p.Valid() && forest.parent.Length == p.methods && field in p.fieldUsers
    requires forall a: nat, b: nat :: (a, b) in forest.links ==> (a, b) in p.Related()
    modifies forest, forest.parent
    ensures forest.Valid()
    ensures forall a: nat, b: nat :: (a, b) in forest.links ==> (a, b) in p.Related()
    ensures old(forest.links) <= forest.links
    ensures forall i: nat, j: nat :: i in p.fieldUsers[field] && j in p.fieldUsers[field] ==>
      Connected(forest.links, i, j)
  {
    var indices := InSomeOrder(p.fieldUsers[field]);
    var i := 1;
    while i < |indices|
      invariant 1 <= i && forest.Valid()
      invariant forall a: nat, b: nat :: (a, b) in forest.links ==> (a, b) in p.Related()
      invariant old(forest.links) <= forest.links
      invariant forall k :: 1 <= k < i && k < |indices| ==> (indices[0], indices[k]) in forest.links
    {
      assert indices[0] in indices && indices[i] in indices;
      forest.Union(indices[0], indices[i]);
      i := i + 1;
    }
    forall i: nat, j: nat | i in p.fieldUsers[field] && j in p.fieldUsers[field] ensures Connected(forest.links, i, j) {
      StarConnects(forest.links, indices, i);
      StarConnects(forest.links, indices, j);
      ConnectedSymmetric(forest.links, indices[0], i);
      ConnectedTransitive(forest.links, i, indices[0], j);
    }
  }

  lemma StarConnects(links: set<(nat, nat)>, indices: seq<nat>, i: nat)
    requires i in indices
    requires forall k :: 1 <= k < |indices| ==> (indices[0], indices[k]) in links
    ensures Connected(links, indices[0], i)
  {
    var k :| 0 <= k < |indices| && indices[k] == i;
    if k == 0 { ConnectedSelf(links, i); } else { ConnectedLink(links, indices[0], i); }
  }

  method JoinAllFields(forest: Forest, p: Profile)
    requires forest.Valid() && p.Valid() && forest.parent.Length == p.methods && forest.links == {}
    modifies forest, forest.parent
    ensures forest.Valid()
    ensures forall a: nat, b: nat :: (a, b) in forest.links ==> (a, b) in p.Related()
    ensures forall i: nat, j: nat :: p.ShareField(i, j) ==> Connected(forest.links, i, j)
  {
    var left := p.fieldUsers.Keys;
    while left != {}
      invariant forest.Valid() && left <= p.fieldUsers.Keys
      invariant forall a: nat, b: nat :: (a, b) in forest.links ==> (a, b) in p.Related()
      invariant forall f, i: nat, j: nat ::
        f in p.fieldUsers && f !in left && i in p.fieldUsers[f] && j in p.fieldUsers[f] ==>
        Connected(forest.links, i, j)
      decreases left
    {
      var field :| field in left;
      left := left - {field};
      ghost var before := forest.links;
      JoinUsers(forest, p, field);
      forall f, i: nat, j: nat | f in p.fieldUsers && f !in left && i in p.fieldUsers[f] && j in p.fieldUsers[f]
        ensures Connected(forest.links, i, j)
      {
        if f != field { Grow(before, forest.links, i, j); }
      }
    }
  }

  method JoinCalls(forest: Forest, p: Profile)
    requires forest.Valid() && p.Valid() && forest.parent.Length == p.methods
    requires forall a: nat, b: nat :: (a, b) in forest.links ==> (a, b) in p.Related()
    modifies forest, forest.parent
    ensures forest.Valid()
    ensures forall a: nat, b: nat :: (a, b) in forest.links ==> (a, b) in p.Related()
    ensures old(forest.links) <= forest.links && p.callEdges <= forest.links
  {
    var left := p.callEdges;
    while left != {}
      invariant forest.Valid() && left <= p.callEdges
      invariant forall a: nat, b: nat :: (a, b) in forest.links ==> (a, b) in p.Related()
      invariant old(forest.links) <= forest.links && p.callEdges - left <= forest.links
      decreases left
    {
      var edge :| edge in left;
      left := left - {edge};
      forest.Union(edge.0, edge.1);
      assert (edge.0, edge.1) == edge;
    }
  }

  /** LCOM4 is the canonical partition of all methods under "shares a field with or calls". The maps
      are ranged over in any order. */
  method ComponentsOf(p: Profile) returns (lcom4: seq<seq<nat>>)
    requires p.Valid()
    ensures Canonical(lcom4, p.methods, p.Related(), Everything(), 0)
  {
    var forest := new Forest(p.methods);
    JoinAllFields(forest, p);
    ghost var fields := forest.links;
    JoinCalls(forest, p);
    ghost var links := forest.links;
    forall x: nat, y: nat ensures Connected(links, x, y) <==> Connected(p.Related(), x, y) {
      SameConnection(p, fields, links, x, y);
    }
    lcom4 := SortedComponents(forest, Everything(), 0);
    CanonicalSameConnection(lcom4, p.methods, links, p.Related(), Everything(), 0);
  }

  lemma SameConnection(p: Profile, fields: set<(nat, nat)>, links: set<(nat, nat)>, x: nat, y: nat)
    requires fields <= links && p.callEdges <= links
    requires forall a: nat, b: nat :: (a, b) in links ==> (a, b) in p.Related()
    requires forall i: nat, j: nat :: p.ShareField(i, j) ==> Connected(fields, i, j)
    ensures Connected(links, x, y) <==> Connected(p.Related(), x, y)
  {
    var related := p.Related();
    forall a: nat, b: nat | (a, b) in links ensures Connected(related, a, b) { ConnectedLink(related, a, b); }
    forall a: nat, b: nat | (a, b) in related ensures Connected(links, a, b) {
      if (a, b) in p.callEdges {
        ConnectedLink(links, a, b);
      } else {
        assert p.ShareField(a, b);
        Grow(fields, links, a, b);
      }
    }
    if Connected(links, x, y) { ConnectedSubsumes(links, related, x, y); }
    if Connected(related, x, y) { ConnectedSubsumes(related, links, x, y); }
  }

  /** Neighbours in the chain use one field, or one of them calls the other. */
  ghost predicate TouchChain(p: Profile, chain: seq<nat>, i: nat, j: nat) {
    && chain != [] && chain[0] == i && chain[|chain| - 1] == j
    && forall k :: 0 <= k < |chain| - 1 ==> Touch(p, chain[k], chain[k + 1])
  }

  ghost predicate Touch(p: Profile, a: nat, b: nat) {
    || (exists f :: f in p.fieldUsers && a in p.fieldUsers[f] && b in p.fieldUsers[f])
    || (a, b) in p.callEdges
    || (b, a) in p.callEdges
  }

  lemma TouchMeans(p: Profile, a: nat, b: nat)
    ensures Touch(p, a, b) <==> (a, b) in p.Related() || (b, a) in p.Related()
  {
  }

  lemma TouchChainMeans(p: Profile, chain: seq<nat>, i: nat, j: nat)
    ensures TouchChain(p, chain, i, j) <==> ChainFrom(p.Related(), chain, i, j)
  {
    forall k | 0 <= k < |chain| - 1
      ensures Touch(p, chain[k], chain[k + 1]) <==>
        (chain[k], chain[k + 1]) in p.Related() || (chain[k + 1], chain[k]) in p.Related()
    {
      TouchMeans(p, chain[k], chain[k + 1]);
    }
  }

  /** Two methods are listed in one component exactly when a chain of methods leads from one to the other in
      which each uses a field of the next, calls it or is called by it; and every method is listed. */
  lemma ComponentsMean(p: Profile, lcom4: seq<seq<nat>>, i: nat, j: nat)
    requires p.Valid() && Canonical(lcom4, p.methods, p.Related(), Everything(), 0)
    requires i < p.methods && j < p.methods
    ensures Together(lcom4, i, j) <==> exists chain :: TouchChain(p, chain, i, j)
    ensures Together(lcom4, i, i)
  {
    TogetherMeans(lcom4, p.methods, p.Related(), Everything(), 0, i, j);
    TogetherMeans(lcom4, p.methods, p.Related(), Everything(), 0, i, i);
    ConnectedSelf(p.Related(), i);
    ConnectedMeans(p.Related(), i, j);
    if chain :| ChainFrom(p.Related(), chain, i, j) { TouchChainMeans(p, chain, i, j); }
    if chain :| TouchChain(p, chain, i, j) { TouchChainMeans(p, chain, i, j); }
  }

  /** The list itself: every component ascends strictly, and so do the components by their first methods. */
  lemma ComponentsListed(p: Profile, lcom4: seq<seq<nat>>)
    requires Canonical(lcom4, p.methods, p.Related(), Everything(), 0)
    ensures forall a, k :: 0 <= a < |lcom4| && 0 <= k < |lcom4[a]| ==> lcom4[a][k] < p.methods
    ensures forall a, k, m :: 0 <= a < |lcom4| && 0 <= k < m < |lcom4[a]| ==> lcom4[a][k] < lcom4[a][m]
    ensures forall a, b :: 0 <= a < b < |lcom4| ==>
      lcom4[a] != [] && lcom4[b] != [] && lcom4[a][0] < lcom4[b][0]
  {
    forall a | 0 <= a < |lcom4|
      ensures forall k :: 0 <= k < |lcom4[a]| ==> lcom4[a][k] < p.methods
      ensures forall k, m :: 0 <= k < m < |lcom4[a]| ==> lcom4[a][k] < lcom4[a][m]
    {
      assert lcom4[a] in lcom4;
      assert IsComponent(lcom4[a], p.methods, p.Related(), Everything());
      assert forall k :: 0 <= k < |lcom4[a]| ==> lcom4[a][k] in lcom4[a];
    }
  }

  // ---------- Tight class cohesion ----------

  ghost function PairsBelow(n: nat): set<(nat, nat)> { set i: nat, j: nat | i < j < n :: (i, j) }

  /** Unordered pairs of different methods that share a field. */
  ghost function SharedPairs(p: Profile): set<(nat, nat)> {
    set q | q in PairsBelow(p.methods) && p.ShareField(q.0, q.1)
  }

  function PairCount(n: nat): nat { n * (n - 1) / 2 }

  lemma PairCountStep(n: nat)
    requires n > 0
    ensures PairCount(n) == PairCount(n - 1) + (n - 1)
  {
    assert n * (n - 1) == (n - 1) * (n - 2) + 2 * (n - 1);
  }

  ghost function Row(k: nat, n: nat): set<(nat, nat)> { set i: nat | i < k :: (i, n) }

  lemma {:induction false} RowCount(k: nat, n: nat)
    ensures |Row(k, n)| == k
  {
    if k == 0 {
    } else {
      RowCount(k - 1, n);
      assert Row(k, n) == Row(k - 1, n) + {(k - 1, n)};
    }
  }

  lemma {:induction false} PairsBelowCount(n: nat)
    ensures |PairsBelow(n)| == PairCount(n)
  {
    if n == 0 {
      assert PairsBelow(0) == {};
    } else {
      PairsBelowCount(n - 1);
      RowCount(n - 1, n - 1);
      assert PairsBelow(n) == PairsBelow(n - 1) + Row(n - 1, n - 1);
      PairCountStep(n);
    }
  }

  /** Field by field, in any order: every unordered pair of its users, the smaller number first. */
  method CollectSharedPairs(p: Profile) returns (pairs: set<(nat, nat)>)
    requires p.Valid()
    ensures pairs == SharedPairs(p)
  {
    pairs := {};
    var left := p.fieldUsers.Keys;
    while left != {}
      invariant left <= p.fieldUsers.Keys
      invariant pairs <= SharedPairs(p)
      invariant forall f, i: nat, j: nat ::
        f in p.fieldUsers && f !in left && i in p.fieldUsers[f] && j in p.fieldUsers[f] && i < j ==>
        (i, j) in pairs
      decreases left
    {
      var field :| field in left;
      left := left - {field};
      var added := PairsOfUsers(p.fieldUsers[field]);
      forall q | q in added ensures q in SharedPairs(p) {
        assert p.ShareField(q.0, q.1) && q in PairsBelow(p.methods);
      }
      pairs := pairs + added;
    }
    forall q | q in SharedPairs(p) ensures q in pairs {
      assert p.ShareField(q.0, q.1);
    }
  }

  method PairsOfUsers(users: set<nat>) returns (pairs: set<(nat, nat)>)
    ensures forall i: nat, j: nat :: (i, j) in pairs <==> i in users && j in users && i < j
  {
    var indices := InSomeOrder(users);
    pairs := {};
    for i := 0 to |indices|
      invariant forall a: nat, b: nat :: (a, b) in pairs ==> a in users && b in users && a < b
      invariant forall k, m :: 0 <= k < i && k < m < |indices| ==> Ordered(indices[k], indices[m]) in pairs
    {
      for j := i + 1 to |indices|
        invariant forall a: nat, b: nat :: (a, b) in pairs ==> a in users && b in users && a < b
        invariant forall k, m :: 0 <= k < i && k < m < |indices| ==> Ordered(indices[k], indices[m]) in pairs
        invariant forall m :: i < m < j ==> Ordered(indices[i], indices[m]) in pairs
      {
        var left, right := indices[i], indices[j];
        assert left in indices && right in indices;
        if left > right {
          left, right := right, left;
        }
        pairs := pairs + {(left, right)};
      }
    }
    forall a: nat, b: nat | a in users && b in users && a < b ensures (a, b) in pairs {
      var k :| 0 <= k < |indices| && indices[k] == a;
      var m :| 0 <= m < |indices| && indices[m] == b;
      if k < m {
        assert Ordered(indices[k], indices[m]) == (a, b);
      } else {
        assert Ordered(indices[m], indices[k]) == (a, b);
      }
    }
  }

  function Ordered(a: nat, b: nat): (nat, nat) { if a > b then (b, a) else (a, b) }

  /** The percentage of method pairs that share a field. */
  ghost function Tcc(p: Profile): real {
    if p.methods > 1 then
      assert PairCount(p.methods) > 0 by { PairCountPositive(p.methods); }
      100.0 * |SharedPairs(p)| as real / PairCount(p.methods) as real
    else 0.0
  }

  lemma PairCountPositive(n: nat)
    requires n > 1
    ensures PairCount(n) > 0
  {
    assert n * (n - 1) >= 2;
  }

  /** How a factor compares with a bound, told from the product. */
  lemma FactorFromProduct(q: real, bound: real, w: real)
    requires w > 0.0
    ensures q < bound ==> q * w < bound * w
    ensures q == bound ==> q * w == bound * w
    ensures q > bound ==> q * w > bound * w
  {
    if q < bound { TimesLess(q, bound, w); }
    if q > bound { TimesLess(bound, q, w); }
  }

  lemma TimesLess(a: real, b: real, c: real)
    requires a < b && c > 0.0
    ensures a * c < b * c
  {
    assert (b - a) * c > 0.0;
  }

  lemma QuotientTimes(x: real, w: real)
    requires w > 0.0
    ensures x == x / w * w
  {
  }

  lemma PercentOf(q: real, part: real, whole: real)
    requires 0.0 <= part <= whole && whole > 0.0 && 100.0 * part == q * whole
    ensures 0.0 <= q <= 100.0 && (q == 100.0 <==> part == whole)
  {
    FactorFromProduct(q, 0.0, whole);
    FactorFromProduct(q, 100.0, whole);
  }

  /** A ratio of counts as a percentage. */
  lemma Percent(part: nat, whole: nat)
    requires 0 < whole && part <= whole
    ensures 0.0 <= 100.0 * part as real / whole as real <= 100.0
    ensures 100.0 * part as real / whole as real == 100.0 <==> part == whole
  {
    var p, w := part as real, whole as real;
    QuotientTimes(100.0 * p, w);
    PercentOf(100.0 * p / w, p, w);
  }

  /** The clamp to 0..100 never fires, and full cohesion means that every pair shares a field. */
  lemma TccRange(p: Profile)
    ensures 0.0 <= Tcc(p) <= 100.0
    ensures p.methods > 1 ==> (Tcc(p) == 100.0 <==> forall i: nat, j: nat :: i < j < p.methods ==> p.ShareField(i, j))
  {
    if p.methods > 1 {
      PairCountPositive(p.methods);
      PairsBelowCount(p.methods);
      SubsetSize(SharedPairs(p), PairsBelow(p.methods));
      Percent(|SharedPairs(p)|, PairCount(p.methods));
      if SharedPairs(p) == PairsBelow(p.methods) {
        forall i: nat, j: nat | i < j < p.methods ensures p.ShareField(i, j) {
          assert (i, j) in PairsBelow(p.methods);
        }
      }
      if forall i: nat, j: nat :: i < j < p.methods ==> p.ShareField(i, j) {
        assert forall q :: q in PairsBelow(p.methods) ==> q in SharedPairs(p);
        assert SharedPairs(p) == PairsBelow(p.methods);
      }
    }
  }

  // ---------- Disconnected types cannot be cohesive ----------

  /** With `c` in one component and `d` in another, each method other than `c` misses a pair. */
  function MissedPair(side: set<nat>, c: nat, d: nat, x: nat): (nat, nat) {
    if x in side then Ordered(x, d) else Ordered(c, x)
  }

  ghost function MissedPairs(n: nat, side: set<nat>, c: nat, d: nat, k: nat): set<(nat, nat)> {
    set x: nat | x < k && x < n && x != c :: MissedPair(side, c, d, x)
  }

  lemma MissedPairInjective(side: set<nat>, c: nat, d: nat, x: nat, y: nat)
    requires c in side && d !in side && x != c && y != c && x != y
    ensures MissedPair(side, c, d, x) != MissedPair(side, c, d, y)
  {
  }

  lemma MissedPairNext(n: nat, side: set<nat>, c: nat, d: nat, k: nat)
    requires c in side && d !in side && k < n && k != c
    ensures MissedPairs(n, side, c, d, k + 1) == MissedPairs(n, side, c, d, k) + {MissedPair(side, c, d, k)}
    ensures MissedPair(side, c, d, k) !in MissedPairs(n, side, c, d, k)
  {
    forall x: nat | x < k && x != c ensures MissedPair(side, c, d, x) != MissedPair(side, c, d, k) {
      MissedPairInjective(side, c, d, x, k);
    }
  }

  lemma OneMorePair(pairs: set<(nat, nat)>, pair: (nat, nat))
    requires pair !in pairs
    ensures |pairs + {pair}| == |pairs| + 1
  {
  }

  lemma {:induction false} MissedPairCount(n: nat, side: set<nat>, c: nat, d: nat, k: nat)
    requires c in side && d !in side && c < n && k <= n
    ensures |MissedPairs(n, side, c, d, k)| == if c < k then k - 1 else k
  {
    if k == 0 {
      assert MissedPairs(n, side, c, d, 0) == {};
    } else {
      MissedPairCount(n, side, c, d, k - 1);
      var before := MissedPairs(n, side, c, d, k - 1);
      if k - 1 == c {
        assert MissedPairs(n, side, c, d, k) == before;
      } else {
        MissedPairNext(n, side, c, d, k - 1);
        OneMorePair(before, MissedPair(side, c, d, k - 1));
      }
    }
  }

  lemma SharingConnects(p: Profile, i: nat, j: nat)
    requires p.ShareField(i, j)
    ensures Connected(p.Related(), i, j) && Connected(p.Related(), j, i)
  {
    assert (i, j) in p.Related();
    ConnectedLink(p.Related(), i, j);
    ConnectedLink(p.Related(), j, i);
  }

  /** The pairs missed because `c` and `d` are not connected are not shared. */
  lemma MissedPairsUnshared(p: Profile, c: nat, d: nat)
    requires c < p.methods && d < p.methods && !Connected(p.Related(), c, d)
    ensures var side := Class(p.methods, p.Related(), Everything(), c);
      MissedPairs(p.methods, side, c, d, p.methods) <= PairsBelow(p.methods) - SharedPairs(p)
  {
    var related := p.Related();
    var side := Class(p.methods, related, Everything(), c);
    forall x: nat | x < p.methods && x != c
      ensures MissedPair(side, c, d, x) in PairsBelow(p.methods) - SharedPairs(p)
    {
      var q := MissedPair(side, c, d, x);
      if p.ShareField(q.0, q.1) {
        SharingConnects(p, q.0, q.1);
        if x in side { ConnectedTransitive(related, c, x, d); }
        assert false;
      }
      ConnectedSelf(related, c);
      assert q.0 != q.1;
    }
  }

  lemma SeparatedMethods(p: Profile, lcom4: seq<seq<nat>>) returns (c: nat, d: nat)
    requires p.Valid() && Canonical(lcom4, p.methods, p.Related(), Everything(), 0) && |lcom4| >= 2
    ensures c < p.methods && d < p.methods && !Connected(p.Related(), c, d)
  {
    c, d := lcom4[0][0], lcom4[1][0];
    assert lcom4[0] in lcom4 && lcom4[1] in lcom4;
    assert c in lcom4[0] && d in lcom4[1];
    if d in lcom4[0] {
      ComponentUnique(lcom4[0], lcom4[1], p.methods, p.Related(), Everything(), d);
    }
  }

  lemma CountSplit<T>(all: set<T>, part: set<T>, missed: set<T>)
    requires part <= all && missed <= all - part
    ensures |part| + |missed| <= |all|
  {
    SubsetSize(missed, all - part);
    assert all == part + (all - part);
  }

  /** Two separated methods leave n - 1 pairs unshared. */
  lemma SeparationLeavesPairs(p: Profile, c: nat, d: nat)
    requires c < p.methods && d < p.methods && !Connected(p.Related(), c, d)
    ensures |SharedPairs(p)| + (p.methods - 1) <= PairCount(p.methods)
  {
    var n := p.methods;
    var side := Class(n, p.Related(), Everything(), c);
    assert c in side && d !in side by { ConnectedSelf(p.Related(), c); }
    MissedPairsUnshared(p, c, d);
    MissedPairCount(n, side, c, d, n);
    CountSplit(PairsBelow(n), SharedPairs(p), MissedPairs(n, side, c, d, n));
    PairsBelowCount(n);
  }

  lemma TccFromCount(p: Profile)
    requires p.methods >= 2 && |SharedPairs(p)| + (p.methods - 1) <= PairCount(p.methods)
    ensures Tcc(p) <= 100.0 * (p.methods - 2) as real / p.methods as real
  {
    BoundFromCount(|SharedPairs(p)|, p.methods);
  }

  /** The percentage is a hundred times the pairs of different methods that use a common field, over all
      n(n-1)/2 pairs; a type with fewer than two methods has none. */
  lemma TccMeans(p: Profile, sharing: set<(nat, nat)>)
    requires forall i: nat, j: nat :: (i, j) in sharing <==>
      i < j < p.methods && exists f :: f in p.fieldUsers && i in p.fieldUsers[f] && j in p.fieldUsers[f]
    ensures p.methods >= 2 ==> Tcc(p) * (p.methods * (p.methods - 1)) as real == 200.0 * |sharing| as real
    ensures p.methods < 2 ==> Tcc(p) == 0.0
  {
    forall q ensures q in sharing <==> q in SharedPairs(p) {
      assert (q.0, q.1) == q;
    }
    assert sharing == SharedPairs(p);
    if p.methods >= 2 {
      PairCountPositive(p.methods);
      PairCountDouble(p.methods);
      var whole := PairCount(p.methods);
      assert Tcc(p) * whole as real == 100.0 * |sharing| as real;
      assert (p.methods * (p.methods - 1)) as real == 2.0 * whole as real;
    }
  }

  /** A type whose methods fall into two or more components is at most 100(n-2)/n percent cohesive. */
  lemma DisconnectedBoundsTcc(p: Profile, lcom4: seq<seq<nat>>)
    requires p.Valid() && Canonical(lcom4, p.methods, p.Related(), Everything(), 0)
    requires |lcom4| >= 2
    ensures p.methods >= 2
    ensures Tcc(p) <= 100.0 * (p.methods - 2) as real / p.methods as real
  {
    var c, d := SeparatedMethods(p, lcom4);
    assert c != d by { ConnectedSelf(p.Related(), c); }
    SeparationLeavesPairs(p, c, d);
    TccFromCount(p);
  }

  lemma BoundFromCount(shared: nat, n: nat)
    requires n >= 2 && shared + (n - 1) <= PairCount(n)
    ensures PairCount(n) > 0
    ensures 100.0 * shared as real / PairCount(n) as real <= 100.0 * (n - 2) as real / n as real
  {
    PairCountPositive(n);
    PairCountStep(n);
    PairCountDouble(n);
    var whole := PairCount(n);
    assert 2 * shared <= (n - 1) * (n - 2);
    assert shared * n <= (n - 2) * whole by {
      assert 2 * shared * n <= (n - 1) * (n - 2) * n;
      assert (n - 2) * (2 * whole) == (n - 2) * (n * (n - 1));
    }
    RatioLeq(shared, whole, n - 2, n);
  }

  lemma {:induction false} PairCountDouble(n: nat)
    ensures 2 * PairCount(n) == n * (n - 1)
  {
    if n == 0 {
    } else {
      PairCountDouble(n - 1);
      PairCountStep(n);
      assert n * (n - 1) == (n - 1) * (n - 2) + 2 * (n - 1);
    }
  }

  lemma RatioLeq(a: nat, b: nat, c: nat, d: nat)
    requires b > 0 && d > 0 && a * d <= c * b
    ensures 100.0 * a as real / b as real <= 100.0 * c as real / d as real
  {
    var x, y := 100.0 * a as real / b as real, 100.0 * c as real / d as real;
    var rb, rd := b as real, d as real;
    assert x * rb == 100.0 * a as real && y * rd == 100.0 * c as real;
    assert (a * d) as real == a as real * rd && (c * b) as real == c as real * rb;
    assert x * (rb * rd) <= y * (rb * rd);
    assert rb * rd > 0.0;
  }

  /** A type profile and the two measures computed for it. */
  class SrpTypeProfile {
    const profile: Profile
    var lcom4: seq<seq<nat>>
    var tcc: real

    constructor (profile: Profile)
      ensures this.profile == profile && lcom4 == [] && tcc == 0.0
    {
      this.profile := profile;
      lcom4, tcc := [], 0.0;
    }

    /** The methods partitioned by "share a field or call", canonically listed. */
    ghost predicate IsLcom4(parts: seq<seq<nat>>) {
      Canonical(parts, profile.methods, profile.Related(), Everything(), 0)
    }

    /** The components are added to those already there, which are none on a fresh profile, and the
        whole list is sorted. */
    method AddComponents()
      requires profile.Valid() && forall part :: part in lcom4 ==> part != []
      modifies this`lcom4
      ensures SortedBy(lcom4, FirstLeq)
      ensures exists parts ::
        IsLcom4(parts) && multiset(lcom4) == multiset(old(lcom4)) + multiset(parts)
      ensures old(lcom4) == [] ==> IsLcom4(lcom4)
    {
      var parts := ComponentsOf(profile);
      ghost var before := lcom4;
      lcom4 := SortSlice(lcom4 + parts, FirstLeq);
      if before == [] { CanonicalSorted(parts, lcom4, profile.methods, profile.Related(), Everything(), 0); }
    }

    /** The clamped percentage; a single method leaves it as it was. */
    method SetTcc()
      requires profile.Valid()
      modifies this`tcc
      ensures tcc == if profile.methods > 1 then Tcc(profile) else old(tcc)
    {
      var n := profile.methods;
      var shared := CollectSharedPairs(profile);
      if n > 1 {
        PairCountPositive(n);
        tcc := 100.0 * |shared| as real / PairCount(n) as real;
        if tcc < 0.0 {
          tcc := 0.0;
        } else if tcc > 100.0 {
          tcc := 100.0;
        }
        TccRange(profile);
      }
    }

    method ComputeCohesion()
      requires profile.Valid() && forall part :: part in lcom4 ==> part != []
      modifies this
      ensures profile.methods == 0 ==> lcom4 == old(lcom4)
      ensures profile.methods > 0 ==> SortedBy(lcom4, FirstLeq)
      ensures profile.methods > 0 ==>
        exists parts :: IsLcom4(parts) && multiset(lcom4) == multiset(old(lcom4)) + multiset(parts)
      ensures old(lcom4) == [] ==> IsLcom4(lcom4)
      ensures tcc == if profile.methods > 1 then Tcc(profile) else old(tcc)
    {
      if profile.methods == 0 {
        return;
      }
      AddComponents();
      SetTcc();
    }
  }

  // ---------- Import clusters ----------

  predicate ImportsOverlap(a: set<string>, b: set<string>) { exists path :: path in a && path in b }

  function OverlapTest(imports: seq<set<string>>): (nat, nat) -> bool {
    (i: nat, j: nat) => i < |imports| && j < |imports| && ImportsOverlap(imports[i], imports[j])
  }

  function Importing(imports: seq<set<string>>): nat -> bool { (i: nat) => i < |imports| && imports[i] != {} }

  /** Two methods are linked when they import a common external path. */
  ghost function OverlapPairs(imports: seq<set<string>>): set<(nat, nat)> {
    PassingPairs(|imports|, OverlapTest(imports))
  }

  /** The clusters are the components, in canonical order, of at least `minMethods` importing methods. */
  method ImportClusterComponents(imports: seq<set<string>>, minMethods: int) returns (clusters: seq<seq<nat>>)
    ensures Canonical(clusters, |imports|, OverlapPairs(imports), Importing(imports), minMethods)
  {
    if |imports| == 0 {
      return [];
    }
    var forest := JoinPairs(|imports|, OverlapTest(imports));
    clusters := SortedComponents(forest, Importing(imports), minMethods);
  }

  /** Methods of different clusters import nothing in common. */
  lemma ClustersDisjoint(imports: seq<set<string>>, minMethods: int, clusters: seq<seq<nat>>, a: nat, b: nat, i: nat,
                         j: nat)
    requires Canonical(clusters, |imports|, OverlapPairs(imports), Importing(imports), minMethods)
    requires a < b < |clusters| && i in clusters[a] && j in clusters[b]
    ensures i < |imports| && j < |imports| && imports[i] !! imports[j]
  {
    var links := OverlapPairs(imports);
    assert clusters[a] in clusters && clusters[b] in clusters;
    if i != j && ImportsOverlap(imports[i], imports[j]) {
      assert OverlapTest(imports)(i, j) && OverlapTest(imports)(j, i);
      assert if i < j then (i, j) in links else (j, i) in links;
      ConnectedLink(links, i, j);
    }
    ConnectedSelf(links, i);
    if Connected(links, i, j) {
      assert j in clusters[a];
      ComponentUnique(clusters[a], clusters[b], |imports|, links, Importing(imports), j);
      assert false;
    }
    assert !ImportsOverlap(imports[i], imports[j]);
  }

  /** Neighbours in the chain import something in common. */
  ghost predicate ImportChain(imports: seq<set<string>>, chain: seq<nat>, i: nat, j: nat) {
    && chain != [] && chain[0] == i && chain[|chain| - 1] == j
    && forall k :: 0 <= k < |chain| - 1 ==> ImportTouch(imports, chain[k], chain[k + 1])
  }

  ghost predicate ImportTouch(imports: seq<set<string>>, a: nat, b: nat) {
    a < |imports| && b < |imports| && a != b && exists path :: path in imports[a] && path in imports[b]
  }

  ghost predicate ImportLinked(imports: seq<set<string>>, i: nat, j: nat) {
    exists chain :: ImportChain(imports, chain, i, j)
  }

  lemma ImportChainMeans(imports: seq<set<string>>, chain: seq<nat>, i: nat, j: nat)
    ensures ImportChain(imports, chain, i, j) <==> ChainFrom(OverlapPairs(imports), chain, i, j)
  {
    forall k | 0 <= k < |chain| - 1
      ensures ImportTouch(imports, chain[k], chain[k + 1]) <==>
        (chain[k], chain[k + 1]) in OverlapPairs(imports) || (chain[k + 1], chain[k]) in OverlapPairs(imports)
    {
      ImportTouchMeans(imports, chain[k], chain[k + 1]);
    }
  }

  lemma ImportTouchMeans(imports: seq<set<string>>, a: nat, b: nat)
    ensures ImportTouch(imports, a, b) <==> (a, b) in OverlapPairs(imports) || (b, a) in OverlapPairs(imports)
  {
  }

  lemma ImportLinkedMeans(imports: seq<set<string>>, i: nat, j: nat)
    ensures ImportLinked(imports, i, j) <==> Connected(OverlapPairs(imports), i, j)
  {
    ConnectedMeans(OverlapPairs(imports), i, j);
    if chain :| ChainFrom(OverlapPairs(imports), chain, i, j) { ImportChainMeans(imports, chain, i, j); }
    if chain :| ImportChain(imports, chain, i, j) { ImportChainMeans(imports, chain, i, j); }
  }

  /** Two importing methods share a cluster exactly when a chain of methods with common imports leads from one
      to the other, and enough importing methods are linked to them in this way. */
  lemma {:induction false} ClustersMean(imports: seq<set<string>>, minMethods: int, clusters: seq<seq<nat>>, i: nat,
                                        j: nat, linked: set<nat>)
    requires Canonical(clusters, |imports|, OverlapPairs(imports), Importing(imports), minMethods)
    requires i < |imports| && j < |imports| && imports[i] != {} && imports[j] != {}
    requires forall k: nat :: k in linked <==> k < |imports| && imports[k] != {} && ImportLinked(imports, i, k)
    ensures Together(clusters, i, j) <==> j in linked && |linked| >= minMethods
  {
    var links, keep := OverlapPairs(imports), Importing(imports);
    forall k: nat ensures k in linked <==> k in Class(|imports|, links, keep, i) {
      ImportLinkedMeans(imports, i, k);
    }
    assert linked == Class(|imports|, links, keep, i);
    TogetherMeans(clusters, |imports|, links, keep, minMethods, i, j);
    ImportLinkedMeans(imports, i, j);
  }

  /** Methods without imports are in no cluster. */
  lemma ClustersImport(imports: seq<set<string>>, minMethods: int, clusters: seq<seq<nat>>, i: nat)
    requires Canonical(clusters, |imports|, OverlapPairs(imports), Importing(imports), minMethods)
    ensures Covered(clusters, i) ==> i < |imports| && imports[i] != {}
  {
  }
}
