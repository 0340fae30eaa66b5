/** The connected components of a union-find forest as the structural checks report them: each
    component ascending, components ordered by first member, small ones dropped on request. */
module Components {
  import opened Ordering
  import opened UnionFind

  // ---------- Partitions into components ----------

  ghost predicate Ascending(s: seq<nat>) { forall i, j :: 0 <= i < j < |s| ==> s[i] < s[j] }

  /** `part` is the whole component of each of its nodes, in ascending order. */
  ghost predicate IsComponent(part: seq<nat>, n: nat, links: set<(nat, nat)>, keep: nat -> bool) {
    && part != [] && Ascending(part)
    && (forall x :: x in part ==> x < n && keep(x))
    && (forall x, y: nat :: x in part && y < n && keep(y) ==> (y in part <==> Connected(links, x, y)))
  }

  ghost predicate FirstsAscend(parts: seq<seq<nat>>) {
    && (forall i :: 0 <= i < |parts| ==> parts[i] != [])
    && (forall i, j :: 0 <= i < j < |parts| ==> parts[i][0] < parts[j][0])
  }

  /** The included nodes connected to `x`. */
  ghost function Class(n: nat, links: set<(nat, nat)>, keep: nat -> bool, x: nat): set<nat> {
    set y: nat | y < n && keep(y) && Connected(links, x, y)
  }

  /** The one canonical list of the components with at least `min` nodes: each component ascending,
      the components ordered by their first nodes. */
  ghost predicate Canonical(parts: seq<seq<nat>>, n: nat, links: set<(nat, nat)>, keep: nat -> bool, min: int) {
    && FirstsAscend(parts)
    && (forall part :: part in parts ==> IsComponent(part, n, links, keep) && |part| >= min)
    && (forall x: nat :: x < n && keep(x) && |Class(n, links, keep, x)| >= min ==> Covered(parts, x))
  }

  ghost predicate Covered(parts: seq<seq<nat>>, x: nat) { exists part :: part in parts && x in part }

  lemma AscendingUnique(a: seq<nat>, b: seq<nat>)
    requires Ascending(a) && Ascending(b)
    requires forall x :: x in a <==> x in b
    ensures a == b
  {
    StrictlySortedUnique(a, b, (x: nat, y: nat) => x < y);
  }

  lemma FirstsUnique(a: seq<seq<nat>>, b: seq<seq<nat>>)
    requires FirstsAscend(a) && FirstsAscend(b)
    requires forall part :: part in a <==> part in b
    ensures a == b
  {
    StrictlySortedUnique(a, b, (p: seq<nat>, q: seq<nat>) => First(p) < First(q));
  }

  lemma ComponentSize(part: seq<nat>, n: nat, links: set<(nat, nat)>, keep: nat -> bool, x: nat)
    requires IsComponent(part, n, links, keep) && x in part
    ensures |part| == |Class(n, links, keep, x)|
  {
    DistinctSize(part);
    assert Elements(part) == Class(n, links, keep, x);
  }

  lemma ComponentUnique(a: seq<nat>, b: seq<nat>, n: nat, links: set<(nat, nat)>, keep: nat -> bool, x: nat)
    requires IsComponent(a, n, links, keep) && IsComponent(b, n, links, keep) && x in a && x in b
    ensures a == b
  {
    AscendingUnique(a, b);
  }

  lemma CanonicalContains(a: seq<seq<nat>>, b: seq<seq<nat>>, n: nat, links: set<(nat, nat)>, keep: nat -> bool,
                          min: int, part: seq<nat>)
    requires Canonical(a, n, links, keep, min) && Canonical(b, n, links, keep, min) && part in a
    ensures part in b
  {
    var x := part[0];
    ComponentSize(part, n, links, keep, x);
    assert Covered(b, x);
    var other :| other in b && x in other;
    ComponentUnique(part, other, n, links, keep, x);
  }

  /** Whatever order maps were ranged over, there is one canonical result. */
  lemma CanonicalUnique(a: seq<seq<nat>>, b: seq<seq<nat>>, n: nat, links: set<(nat, nat)>, keep: nat -> bool, min: int)
    requires Canonical(a, n, links, keep, min) && Canonical(b, n, links, keep, min)
    ensures a == b
  {
    forall part ensures part in a <==> part in b {
      if part in a { CanonicalContains(a, b, n, links, keep, min, part); }
      if part in b { CanonicalContains(b, a, n, links, keep, min, part); }
    }
    FirstsUnique(a, b);
  }

  ghost predicate Together(parts: seq<seq<nat>>, x: nat, y: nat) {
    exists part :: part in parts && x in part && y in part
  }

  /** Two nodes are listed together exactly when they are connected and their component is large enough. */
  lemma TogetherMeans(parts: seq<seq<nat>>, n: nat, links: set<(nat, nat)>, keep: nat -> bool, min: int, x: nat, y: nat)
    requires Canonical(parts, n, links, keep, min) && x < n && y < n && keep(x) && keep(y)
    ensures Together(parts, x, y) <==> Connected(links, x, y) && |Class(n, links, keep, x)| >= min
  {
    if Together(parts, x, y) {
      var part :| part in parts && x in part && y in part;
      ComponentSize(part, n, links, keep, x);
    }
    if Connected(links, x, y) && |Class(n, links, keep, x)| >= min {
      assert Covered(parts, x);
      var part :| part in parts && x in part;
      assert y in part;
    }
  }

  /** Equally connected link sets have the same canonical lists. */
  lemma {:induction false} CanonicalSameConnection(parts: seq<seq<nat>>, n: nat, a: set<(nat, nat)>,
                                                   b: set<(nat, nat)>, keep: nat -> bool, min: int)
    requires Canonical(parts, n, a, keep, min)
    requires forall x: nat, y: nat :: Connected(a, x, y) <==> Connected(b, x, y)
    ensures Canonical(parts, n, b, keep, min)
  {
    forall x: nat ensures Class(n, a, keep, x) == Class(n, b, keep, x) {
    }
  }

  // ---------- Collecting the components of a forest ----------

  /** The nodes below `i` that are included and have root `r`, ascending. */
  ghost function WithRoot(root: seq<nat>, keep: nat -> bool, r: nat, i: nat): seq<nat>
    requires i <= |root|
  {
    if i == 0 then []
    else WithRoot(root, keep, r, i - 1) + (if keep(i - 1) && root[i - 1] == r then [i - 1] else [])
  }

  lemma {:induction false} WithRootMembers(root: seq<nat>, keep: nat -> bool, r: nat, i: nat)
    requires i <= |root|
    ensures forall x: nat :: x in WithRoot(root, keep, r, i) <==> x < i && keep(x) && root[x] == r
    ensures Ascending(WithRoot(root, keep, r, i))
  {
    if i == 0 {
    } else {
      WithRootMembers(root, keep, r, i - 1);
      var before := WithRoot(root, keep, r, i - 1);
      assert forall k :: 0 <= k < |before| ==> before[k] in before;
    }
  }

  lemma RootGroupIsComponent(root: seq<nat>, links: set<(nat, nat)>, keep: nat -> bool, r: nat)
    requires Faithful(root, links)
    requires WithRoot(root, keep, r, |root|) != []
    ensures IsComponent(WithRoot(root, keep, r, |root|), |root|, links, keep)
  {
    var part := WithRoot(root, keep, r, |root|);
    WithRootMembers(root, keep, r, |root|);
    forall x, y: nat | x in part && y < |root| && keep(y) ensures y in part <==> Connected(links, x, y) {
      RootsAreComponents(root, links, x, y);
    }
  }

  function GroupAt(groups: map<nat, seq<nat>>, r: nat): seq<nat> { if r in groups then groups[r] else [] }

  /** The included nodes below `i`, grouped by root. */
  ghost predicate RootGroups(root: seq<nat>, keep: nat -> bool, groups: map<nat, seq<nat>>, i: nat) {
    && i <= |root|
    && (forall r :: GroupAt(groups, r) == WithRoot(root, keep, r, i))
    && (forall r :: r in groups ==> groups[r] != [])
  }

  function GroupWith(groups: map<nat, seq<nat>>, r: nat, i: nat): map<nat, seq<nat>> {
    groups[r := GroupAt(groups, r) + [i]]
  }

  lemma GroupNext(root: seq<nat>, keep: nat -> bool, groups: map<nat, seq<nat>>, i: nat)
    requires RootGroups(root, keep, groups, i) && i < |root|
    ensures RootGroups(root, keep, if keep(i) then GroupWith(groups, root[i], i) else groups, i + 1)
  {
    var after := if keep(i) then GroupWith(groups, root[i], i) else groups;
    forall r ensures GroupAt(after, r) == WithRoot(root, keep, r, i + 1) {
      assert GroupAt(groups, r) == WithRoot(root, keep, r, i);
    }
  }

  method GroupByRoot(forest: Forest, keep: nat -> bool) returns (groups: map<nat, seq<nat>>)
    requires forest.Valid()
    modifies forest.parent
    ensures forest.Valid() && RootGroups(forest.root, keep, groups, |forest.root|)
  {
    groups := map[];
    ghost var root := forest.root;
    for i := 0 to forest.parent.Length
      invariant forest.Valid() && forest.root == root && RootGroups(root, keep, groups, i)
    {
      GroupNext(root, keep, groups, i);
      if !keep(i) {
        continue;
      }
      var r := forest.Find(i);
      groups := GroupWith(groups, r, i);
    }
  }

  function First(part: seq<nat>): nat { if part == [] then 0 else part[0] }

  predicate FirstLeq(a: seq<nat>, b: seq<nat>) { First(a) <= First(b) }

  predicate NatLeq(a: nat, b: nat) { a <= b }

  /** The groups kept so far, in the order the map yielded them; `order` lists their roots. */
  ghost predicate KeptGroups(groups: map<nat, seq<nat>>, left: set<nat>, min: int, out: seq<seq<nat>>, order: seq<nat>)
  {
    && |out| == |order| && left <= groups.Keys
    && (forall k :: 0 <= k < |out| ==> order[k] in groups && out[k] == groups[order[k]] && |out[k]| >= min)
    && (forall j, k :: 0 <= j < k < |order| ==> order[j] != order[k])
    && (forall k :: 0 <= k < |order| ==> order[k] !in left)
    && (forall r :: r in groups && r !in left && |groups[r]| >= min ==> groups[r] in out)
  }

  lemma {:induction false} SortedGroupsCanonical(root: seq<nat>, links: set<(nat, nat)>, keep: nat -> bool, min: int,
                              groups: map<nat, seq<nat>>, out: seq<seq<nat>>, order: seq<nat>, parts: seq<seq<nat>>)
    requires Faithful(root, links) && RootGroups(root, keep, groups, |root|)
    requires KeptGroups(groups, {}, min, out, order)
    requires SortedBy(parts, FirstLeq) && multiset(parts) == multiset(out)
    ensures Canonical(parts, |root|, links, keep, min)
  {
    SameMultisetSameElements(parts, out);
    forall part | part in parts ensures IsComponent(part, |root|, links, keep) && |part| >= min {
      var k :| 0 <= k < |out| && out[k] == part;
      assert GroupAt(groups, order[k]) == WithRoot(root, keep, order[k], |root|);
      RootGroupIsComponent(root, links, keep, order[k]);
    }
    forall j, k | 0 <= j < k < |out| ensures First(out[j]) != First(out[k]) {
      WithRootMembers(root, keep, order[j], |root|);
      WithRootMembers(root, keep, order[k], |root|);
      assert out[j][0] in out[j] && out[k][0] in out[k];
    }
    KeysStayDistinct(out, parts, First);
    forall i, j | 0 <= i < j < |parts| ensures parts[i][0] < parts[j][0] {
      assert parts[i] in parts && parts[j] in parts;
      assert FirstLeq(parts[i], parts[j]) && First(parts[i]) != First(parts[j]);
    }
    forall x: nat | x < |root| && keep(x) && |Class(|root|, links, keep, x)| >= min ensures Covered(parts, x) {
      var r := root[x];
      WithRootMembers(root, keep, r, |root|);
      var group := WithRoot(root, keep, r, |root|);
      assert x in group && GroupAt(groups, r) == group;
      RootGroupIsComponent(root, links, keep, r);
      ComponentSize(group, |root|, links, keep, x);
      assert group in out;
    }
  }

  lemma SortChangesNothing(root: seq<nat>, keep: nat -> bool, groups: map<nat, seq<nat>>, r: nat, sorted: seq<nat>)
    requires RootGroups(root, keep, groups, |root|) && r in groups
    requires SortedBy(sorted, NatLeq) && multiset(sorted) == multiset(groups[r])
    ensures sorted == groups[r]
  {
    assert GroupAt(groups, r) == WithRoot(root, keep, r, |root|);
    WithRootMembers(root, keep, r, |root|);
    SortedUnique(sorted, groups[r], NatLeq);
  }

  lemma KeepNext(groups: map<nat, seq<nat>>, left: set<nat>, min: int, out: seq<seq<nat>>, order: seq<nat>, r: nat)
    requires KeptGroups(groups, left, min, out, order) && r in left
    ensures if |groups[r]| >= min then KeptGroups(groups, left - {r}, min, out + [groups[r]], order + [r])
            else KeptGroups(groups, left - {r}, min, out, order)
  {
  }

  /** Sorting a canonical list leaves it as it is. */
  lemma CanonicalSorted(parts: seq<seq<nat>>, sorted: seq<seq<nat>>, n: nat, links: set<(nat, nat)>, keep: nat -> bool,
                        min: int)
    requires Canonical(parts, n, links, keep, min) && SortedBy(sorted, FirstLeq) && multiset(sorted) == multiset(parts)
    ensures sorted == parts
  {
    forall x, y | x in parts && y in parts && FirstLeq(x, y) && FirstLeq(y, x) ensures x == y {
      var i :| 0 <= i < |parts| && parts[i] == x;
      var j :| 0 <= j < |parts| && parts[j] == y;
    }
    SortedUnique(parts, sorted, FirstLeq);
  }

  /** Ranges over the groups in any order, keeps those of at least `min` nodes, and sorts. */
  method SortedComponents(forest: Forest, keep: nat -> bool, min: int) returns (parts: seq<seq<nat>>)
    requires forest.Valid()
    modifies forest.parent
    ensures forest.Valid()
    ensures Canonical(parts, forest.parent.Length, forest.links, keep, min)
  {
    var groups := GroupByRoot(forest, keep);
    var out: seq<seq<nat>> := [];
    ghost var order: seq<nat> := [];
    var left := groups.Keys;
    while left != {}
      invariant forest.Valid() && RootGroups(forest.root, keep, groups, |forest.root|)
      invariant KeptGroups(groups, left, min, out, order)
      decreases left
    {
      var r :| r in left;
      KeepNext(groups, left, min, out, order, r);
      left := left - {r};
      if |groups[r]| >= min {
        var component := SortSlice(groups[r], NatLeq);
        SortChangesNothing(forest.root, keep, groups, r, component);
        out, order := out + [component], order + [r];
      }
    }
    parts := SortSlice(out, FirstLeq);
    SortedGroupsCanonical(forest.root, forest.links, keep, min, groups, out, order, parts);
  }

  // ---------- Joining all pairs that pass a test ----------

  /** The pairs of a double loop over i < j that pass the test. */
  ghost function PassingPairs(n: nat, test: (nat, nat) -> bool): set<(nat, nat)> {
    set i: nat, j: nat | i < j < n && test(i, j) :: (i, j)
  }

  /** The pairs reached before position (i, j) of the double loop. */
  ghost function PassingBefore(n: nat, test: (nat, nat) -> bool, i: nat, j: nat): set<(nat, nat)> {
    set a: nat, b: nat | a < b < n && test(a, b) && (a < i || (a == i && b < j)) :: (a, b)
  }

  /** A row starts where the rows before it end. */
  lemma PassingRow(n: nat, test: (nat, nat) -> bool, i: nat)
    requires i < n
    ensures PassingBefore(n, test, i, i + 1) == PassingBefore(n, test, i, 0)
    ensures PassingBefore(n, test, i, n) == PassingBefore(n, test, i + 1, 0)
  {
  }

  lemma PassingAll(n: nat, test: (nat, nat) -> bool)
    ensures PassingBefore(n, test, n, 0) == PassingPairs(n, test) && PassingBefore(n, test, 0, 0) == {}
  {
  }

  lemma PassingNext(n: nat, test: (nat, nat) -> bool, i: nat, j: nat)
    requires i < j < n
    ensures PassingBefore(n, test, i, j + 1) == PassingBefore(n, test, i, j) + (if test(i, j) then {(i, j)} else {})
  {
  }

  /** One pair of the inner loop: joined when it passes. */
  method JoinOne(forest: Forest, ghost test: (nat, nat) -> bool, i: nat, j: nat, passes: bool)
    requires forest.Valid() && i < j < forest.parent.Length && passes == test(i, j)
    requires forest.links == PassingBefore(forest.parent.Length, test, i, j)
    modifies forest, forest.parent
    ensures forest.Valid()
    ensures forest.links == PassingBefore(forest.parent.Length, test, i, j + 1)
  {
    PassingNext(forest.parent.Length, test, i, j);
    if passes {
      forest.Union(i, j);
    }
  }

  method JoinPairs(n: nat, test: (nat, nat) -> bool) returns (forest: Forest)
    ensures fresh(forest) && fresh(forest.parent) && forest.Valid() && forest.parent.Length == n
    ensures forest.links == PassingPairs(n, test)
  {
    forest := new Forest(n);
    for i := 0 to n
      invariant fresh(forest) && fresh(forest.parent) && forest.Valid() && forest.parent.Length == n
      invariant forest.links == PassingBefore(n, test, i, 0)
    {
      PassingRow(n, test, i);
      for j := i + 1 to n
        invariant fresh(forest) && fresh(forest.parent) && forest.Valid() && forest.parent.Length == n
        invariant forest.links == PassingBefore(n, test, i, j)
      {
        JoinOne(forest, test, i, j, test(i, j));
      }
    }
    PassingAll(n, test);
  }

  // ---------- Families: partitions in which the order is given by keys ----------

  ghost predicate IsFamily(family: seq<nat>, n: nat, links: set<(nat, nat)>) {
    && family != []
    && (forall i, j :: 0 <= i < j < |family| ==> family[i] != family[j])
    && (forall x :: x in family ==> x < n)
    && (forall x, y: nat :: x in family && y < n ==> (y in family <==> Connected(links, x, y)))
  }

  /** Every node is in exactly one family, and a family is exactly one component. */
  ghost predicate Families(families: seq<seq<nat>>, n: nat, links: set<(nat, nat)>) {
    && (forall family :: family in families ==> IsFamily(family, n, links))
    && (forall x: nat :: x < n ==> Covered(families, x))
    && (forall i, j, x :: 0 <= i < j < |families| && x in families[i] ==> x !in families[j])
  }

  predicate ListedAt(families: seq<seq<nat>>, a: int, k: int, x: nat) {
    0 <= a < |families| && 0 <= k < |families[a]| && families[a][k] == x
  }

  /** Two nodes are in one family exactly when a chain of links leads from one to the other; every node is in a
      family, once and in no other. */
  lemma FamiliesMean(families: seq<seq<nat>>, n: nat, links: set<(nat, nat)>, x: nat, y: nat)
    requires Families(families, n, links) && x < n && y < n
    ensures Together(families, x, y) <==> exists chain :: ChainFrom(links, chain, x, y)
    ensures exists a, k :: ListedAt(families, a, k, x)
    ensures forall a, k, b, m :: ListedAt(families, a, k, x) && ListedAt(families, b, m, x) ==> a == b && k == m
  {
    ConnectedMeans(links, x, y);
    assert Covered(families, x);
    var family :| family in families && x in family;
    assert IsFamily(family, n, links);
    var i :| 0 <= i < |families| && families[i] == family;
    var h :| 0 <= h < |family| && family[h] == x;
    assert ListedAt(families, i, h, x);
    if Together(families, x, y) {
      var other :| other in families && x in other && y in other;
      assert IsFamily(other, n, links);
    }
    forall a, k, b, m | ListedAt(families, a, k, x) && ListedAt(families, b, m, x) ensures a == b && k == m {
      assert families[a] in families && IsFamily(families[a], n, links);
      assert x in families[a] && x in families[b];
    }
  }

  function KeyAt(keys: seq<string>, i: nat): string { if i < |keys| then keys[i] else "" }

  function ByKey(keys: seq<string>): (nat, nat) -> bool {
    (a: nat, b: nat) => StringLeq(KeyAt(keys, a), KeyAt(keys, b))
  }

  lemma {:induction false} ByKeyOrder(keys: seq<string>)
    ensures TotalPreorder(ByKey(keys))
  {
    StringOrder();
  }

  /** Groups all nodes by component; the groups come in any order, each sorted by its nodes' keys. */
  method KeyedFamilies(forest: Forest, keys: seq<string>) returns (families: seq<seq<nat>>)
    requires forest.Valid() && |keys| == forest.parent.Length
    modifies forest.parent
    ensures forest.Valid() && Families(families, forest.parent.Length, forest.links)
    ensures forall family :: family in families ==> SortedBy(family, ByKey(keys))
  {
    var all := (i: nat) => true;
    var groups := GroupByRoot(forest, all);
    families := [];
    ghost var order: seq<nat> := [];
    var left := groups.Keys;
    while left != {}
      invariant forest.Valid() && RootGroups(forest.root, all, groups, |forest.root|)
      invariant FamiliesSoFar(groups, left, families, order)
      invariant forall family :: family in families ==> SortedBy(family, ByKey(keys))
      decreases left
    {
      var r :| r in left;
      left := left - {r};
      ByKeyOrder(keys);
      var family := SortSlice(groups[r], ByKey(keys));
      families, order := families + [family], order + [r];
    }
    GroupsAreFamilies(forest.root, forest.links, all, groups, families, order);
  }

  ghost predicate FamiliesSoFar(groups: map<nat, seq<nat>>, left: set<nat>, families: seq<seq<nat>>, order: seq<nat>) {
    && |families| == |order| && left <= groups.Keys
    && (forall k :: 0 <= k < |order| ==> order[k] in groups && multiset(families[k]) == multiset(groups[order[k]]))
    && (forall j, k :: 0 <= j < k < |order| ==> order[j] != order[k])
    && (forall r :: r in groups ==> (r in left <==> r !in order))
  }

  lemma GroupIsFamily(root: seq<nat>, links: set<(nat, nat)>, all: nat -> bool, r: nat, family: seq<nat>)
    requires Faithful(root, links) && (forall i: nat :: all(i))
    requires WithRoot(root, all, r, |root|) != []
    requires multiset(family) == multiset(WithRoot(root, all, r, |root|))
    ensures IsFamily(family, |root|, links)
    ensures forall x: nat :: x in family <==> x < |root| && root[x] == r
  {
    var group := WithRoot(root, all, r, |root|);
    WithRootMembers(root, all, r, |root|);
    SameMultisetSameElements(family, group);
    KeysStayDistinct(group, family, (x: nat) => x);
    forall x, y: nat | x in family && y < |root| ensures y in family <==> Connected(links, x, y) {
      RootsAreComponents(root, links, x, y);
    }
  }

  lemma GroupsAreFamilies(root: seq<nat>, links: set<(nat, nat)>, all: nat -> bool, groups: map<nat, seq<nat>>,
                          families: seq<seq<nat>>, order: seq<nat>)
    requires Faithful(root, links) && (forall i: nat :: all(i)) && RootGroups(root, all, groups, |root|)
    requires FamiliesSoFar(groups, {}, families, order)
    ensures Families(families, |root|, links)
  {
    forall k | 0 <= k < |families|
      ensures IsFamily(families[k], |root|, links)
      ensures forall x: nat :: x in families[k] <==> x < |root| && root[x] == order[k]
    {
      assert GroupAt(groups, order[k]) == WithRoot(root, all, order[k], |root|);
      GroupIsFamily(root, links, all, order[k], families[k]);
    }
    forall x: nat | x < |root| ensures Covered(families, x) {
      var r := root[x];
      WithRootMembers(root, all, r, |root|);
      assert GroupAt(groups, r) == WithRoot(root, all, r, |root|);
      assert x in GroupAt(groups, r);
      var k :| 0 <= k < |order| && order[k] == r;
      assert families[k] in families && x in families[k];
    }
  }
}
