/** Union-find with recursive path compression, as the cohesion, import-cluster and dispatch checks
    write it: `find` re-parents every node on its way to the root. */
module UnionFind {

  /** Connectedness through undirected links. */
  predicate Linked(links: set<(nat, nat)>, a: nat, b: nat) { (a, b) in links || (b, a) in links }

  ghost predicate ConnectedIn(links: set<(nat, nat)>, a: nat, b: nat, steps: nat)
    decreases steps
  {
    if steps == 0 then a == b
    else exists c :: Linked(links, a, c) && ConnectedIn(links, c, b, steps - 1)
  }

  ghost predicate Connected(links: set<(nat, nat)>, a: nat, b: nat) {
    exists steps: nat :: ConnectedIn(links, a, b, steps)
  }

  lemma {:induction false} ConnectedCompose(links: set<(nat, nat)>, a: nat, b: nat, c: nat, m: nat, n: nat)
    requires ConnectedIn(links, a, b, m) && ConnectedIn(links, b, c, n)
    ensures ConnectedIn(links, a, c, m + n)
    decreases m
  {
    if m == 0 {
    } else {
      var d :| Linked(links, a, d) && ConnectedIn(links, d, b, m - 1);
      ConnectedCompose(links, d, b, c, m - 1, n);
      assert Linked(links, a, d) && ConnectedIn(links, d, c, m - 1 + n);
    }
  }

  lemma {:induction false} ConnectedReverse(links: set<(nat, nat)>, a: nat, b: nat, n: nat)
    requires ConnectedIn(links, a, b, n)
    ensures ConnectedIn(links, b, a, n)
    decreases n
  {
    if n == 0 {
    } else {
      var c :| Linked(links, a, c) && ConnectedIn(links, c, b, n - 1);
      ConnectedReverse(links, c, b, n - 1);
      assert Linked(links, c, a) && ConnectedIn(links, a, a, 0);
      assert ConnectedIn(links, c, a, 1);
      ConnectedCompose(links, b, c, a, n - 1, 1);
    }
  }

  lemma ConnectedSelf(links: set<(nat, nat)>, a: nat)
    ensures Connected(links, a, a)
  {
    assert ConnectedIn(links, a, a, 0);
  }

  lemma ConnectedLink(links: set<(nat, nat)>, a: nat, b: nat)
    requires Linked(links, a, b)
    ensures Connected(links, a, b)
  {
    assert ConnectedIn(links, b, b, 0);
    assert ConnectedIn(links, a, b, 1);
  }

  lemma ConnectedSymmetric(links: set<(nat, nat)>, a: nat, b: nat)
    requires Connected(links, a, b)
    ensures Connected(links, b, a)
  {
    var n: nat :| ConnectedIn(links, a, b, n);
    ConnectedReverse(links, a, b, n);
  }

  lemma ConnectedTransitive(links: set<(nat, nat)>, a: nat, b: nat, c: nat)
    requires Connected(links, a, b) && Connected(links, b, c)
    ensures Connected(links, a, c)
  {
    var m: nat :| ConnectedIn(links, a, b, m);
    var n: nat :| ConnectedIn(links, b, c, n);
    ConnectedCompose(links, a, b, c, m, n);
  }

  /** Consecutive nodes are linked, in either direction. */
  ghost predicate Chain(links: set<(nat, nat)>, chain: seq<nat>) {
    && chain != []
    && forall k :: 0 <= k < |chain| - 1 ==> (chain[k], chain[k + 1]) in links || (chain[k + 1], chain[k]) in links
  }

  ghost predicate ChainFrom(links: set<(nat, nat)>, chain: seq<nat>, a: nat, b: nat) {
    Chain(links, chain) && chain[0] == a && chain[|chain| - 1] == b
  }

  lemma {:induction false} ChainOf(links: set<(nat, nat)>, a: nat, b: nat, n: nat) returns (chain: seq<nat>)
    requires ConnectedIn(links, a, b, n)
    ensures ChainFrom(links, chain, a, b)
    decreases n
  {
    if n == 0 {
      chain := [a];
    } else {
      var c :| Linked(links, a, c) && ConnectedIn(links, c, b, n - 1);
      var rest := ChainOf(links, c, b, n - 1);
      chain := [a] + rest;
    }
  }

  lemma {:induction false} ChainConnects(links: set<(nat, nat)>, chain: seq<nat>)
    requires Chain(links, chain)
    ensures ConnectedIn(links, chain[0], chain[|chain| - 1], |chain| - 1)
  {
    if |chain| == 1 {
    } else {
      ChainConnects(links, chain[1..]);
      assert Linked(links, chain[0], chain[1]);
    }
  }

  /** Nodes are connected exactly when a chain of links leads from one to the other. */
  lemma ConnectedMeans(links: set<(nat, nat)>, a: nat, b: nat)
    ensures Connected(links, a, b) <==> exists chain :: ChainFrom(links, chain, a, b)
  {
    if Connected(links, a, b) {
      var n: nat :| ConnectedIn(links, a, b, n);
      var chain := ChainOf(links, a, b, n);
    }
    if chain :| ChainFrom(links, chain, a, b) {
      ChainConnects(links, chain);
    }
  }

  /** An equivalence that contains every link contains connectedness. */
  lemma {:induction false} ConnectedLeast(links: set<(nat, nat)>, same: (nat, nat) -> bool, a: nat, b: nat, n: nat)
    requires forall x, y :: Linked(links, x, y) ==> same(x, y)
    requires forall x, y, z :: same(x, y) && same(y, z) ==> same(x, z)
    requires same(b, b)
    requires ConnectedIn(links, a, b, n)
    ensures same(a, b)
    decreases n
  {
    if n == 0 {
    } else {
      var c :| Linked(links, a, c) && ConnectedIn(links, c, b, n - 1);
      ConnectedLeast(links, same, c, b, n - 1);
    }
  }

  /** If every link of one set is connected in another, so is everything connected in the first. */
  lemma {:induction false} ConnectedSubsumes(fine: set<(nat, nat)>, coarse: set<(nat, nat)>, a: nat, b: nat)
    requires forall x: nat, y: nat :: (x, y) in fine ==> Connected(coarse, x, y)
    requires Connected(fine, a, b)
    ensures Connected(coarse, a, b)
  {
    var n: nat :| ConnectedIn(fine, a, b, n);
    SubsumesIn(fine, coarse, a, b, n);
  }

  lemma {:induction false} SubsumesIn(fine: set<(nat, nat)>, coarse: set<(nat, nat)>, a: nat, b: nat, n: nat)
    requires forall x: nat, y: nat :: (x, y) in fine ==> Connected(coarse, x, y)
    requires ConnectedIn(fine, a, b, n)
    ensures Connected(coarse, a, b)
    decreases n
  {
    if n == 0 {
      ConnectedSelf(coarse, a);
    } else {
      var c: nat :| Linked(fine, a, c) && ConnectedIn(fine, c, b, n - 1);
      SubsumesIn(fine, coarse, c, b, n - 1);
      if (a, c) !in fine { ConnectedSymmetric(coarse, c, a); }
      ConnectedTransitive(coarse, a, c, b);
    }
  }

  /** One node of a forest: its parent leads to its root, and heights fall on the way. */
  ghost predicate Sound(parent: seq<nat>, root: seq<nat>, height: seq<nat>, i: nat)
    requires |root| == |height| == |parent| && i < |parent|
  {
    && parent[i] < |parent| && root[i] < |parent|
    && root[parent[i]] == root[i] && root[root[i]] == root[i] && parent[root[i]] == root[i]
    && (parent[i] == i <==> root[i] == i)
    && (parent[i] != i ==> height[parent[i]] < height[i])
    && (root[i] != i ==> height[root[i]] < height[i])
  }

  ghost predicate Shape(parent: seq<nat>, root: seq<nat>, height: seq<nat>) {
    && |root| == |height| == |parent|
    && (forall i {:trigger Sound(parent, root, height, i)} :: 0 <= i < |parent| ==> Sound(parent, root, height, i))
  }

  /** Nodes with one root are connected, and the ends of every link have one root. */
  ghost predicate Faithful(root: seq<nat>, links: set<(nat, nat)>) {
    && (forall a: nat, b: nat :: (a, b) in links ==> a < |root| && b < |root| && root[a] == root[b])
    && (forall i, j :: 0 <= i < |root| && 0 <= j < |root| && root[i] == root[j] ==> Connected(links, i, j))
  }

  /** Under a faithful root function, nodes have the same root exactly when links connect them. */
  lemma RootsAreComponents(root: seq<nat>, links: set<(nat, nat)>, i: nat, j: nat)
    requires Faithful(root, links) && i < |root| && j < |root|
    ensures root[i] == root[j] <==> Connected(links, i, j)
  {
    if Connected(links, i, j) {
      var n: nat :| ConnectedIn(links, i, j, n);
      var same := (x: nat, y: nat) => x < |root| && y < |root| && root[x] == root[y];
      ConnectedLeast(links, same, i, j, n);
    }
  }

  lemma CompressKeepsShape(parent: seq<nat>, root: seq<nat>, height: seq<nat>, x: nat)
    requires Shape(parent, root, height) && x < |parent|
    ensures root[x] < |parent| && Shape(parent[x := root[x]], root, height)
  {
    assert Sound(parent, root, height, x);
    var p := parent[x := root[x]];
    forall i: nat | i < |parent| ensures Sound(p, root, height, i) {
      assert Sound(parent, root, height, i);
    }
  }

  function Merged(root: seq<nat>, ra: nat, rb: nat): seq<nat> {
    seq(|root|, i requires 0 <= i < |root| => if root[i] == rb then ra else root[i])
  }

  function Raised(root: seq<nat>, height: seq<nat>, ra: nat, rb: nat): seq<nat>
    requires |height| == |root| && ra < |root|
  {
    seq(|root|, i requires 0 <= i < |root| => if root[i] == rb then height[i] + height[ra] + 1 else height[i])
  }

  lemma MergeKeepsShape(parent: seq<nat>, root: seq<nat>, height: seq<nat>, ra: nat, rb: nat)
    requires Shape(parent, root, height) && ra < |parent| && rb < |parent| && ra != rb
    requires root[ra] == ra && root[rb] == rb
    ensures Shape(parent[rb := ra], Merged(root, ra, rb), Raised(root, height, ra, rb))
  {
    assert Sound(parent, root, height, ra) && Sound(parent, root, height, rb);
    var p, r, h := parent[rb := ra], Merged(root, ra, rb), Raised(root, height, ra, rb);
    forall i: nat | i < |parent| ensures Sound(p, r, h, i) {
      assert Sound(parent, root, height, i);
      assert Sound(parent, root, height, parent[i]);
    }
  }

  lemma {:induction false} MergeKeepsFaithful(root: seq<nat>, links: set<(nat, nat)>, a: nat, b: nat)
    requires Faithful(root, links) && a < |root| && b < |root|
    ensures Faithful(Merged(root, root[a], root[b]), links + {(a, b)})
  {
    var after := links + {(a, b)};
    var r := Merged(root, root[a], root[b]);
    ConnectedLink(after, a, b);
    forall i, j | 0 <= i < |root| && 0 <= j < |root| && root[i] == root[j] ensures Connected(after, i, j) {
      Grow(links, after, i, j);
    }
    forall i, j | 0 <= i < |r| && 0 <= j < |r| && r[i] == r[j] ensures Connected(after, i, j) {
      Joined(after, root, a, b, i, j);
    }
  }

  class Forest {
    const parent: array<nat>
    ghost var root: seq<nat>
    ghost var height: seq<nat>
    ghost var links: set<(nat, nat)>    // the unions made so far

    ghost predicate Valid()
      reads this, parent
    {
      Shape(parent[..], root, height) && Faithful(root, links)
    }

    constructor (n: nat)
      ensures Valid() && parent.Length == n && links == {} && fresh(parent)
    {
      parent := new nat[n](i => i);
      root := seq(n, i => i);
      height := seq(n, i => 0);
      links := {};
      new;
      forall i: nat | i < n ensures Connected({}, i, i) { ConnectedSelf({}, i); }
    }

    /** Follows the path to the root and re-parents every node on it; no root changes. */
    method Find(x: nat) returns (r: nat)
      requires Valid() && x < parent.Length
      modifies parent
      ensures Valid() && r == root[x]
      decreases height[x]
    {
      assert Sound(parent[..], root, height, x);
      if parent[x] != x {
        var up := Find(parent[x]);
        CompressKeepsShape(parent[..], root, height, x);
        parent[x] := up;
      }
      assert Sound(parent[..], root, height, x);
      return parent[x];
    }

    method Union(a: nat, b: nat)
      requires Valid() && a < parent.Length && b < parent.Length
      modifies parent, this`root, this`height, this`links
      ensures Valid() && links == old(links) + {(a, b)}
    {
      var ra := Find(a);
      var rb := Find(b);
      assert Sound(parent[..], root, height, a) && Sound(parent[..], root, height, b);
      MergeKeepsFaithful(root, links, a, b);
      if ra != rb {
        MergeKeepsShape(parent[..], root, height, ra, rb);
        parent[rb] := ra;
        height := Raised(root, height, ra, rb);
        root := Merged(root, ra, rb);
      } else {
        assert Merged(root, ra, rb) == root;
      }
      links := links + {(a, b)};
    }
  }

  lemma Grow(links: set<(nat, nat)>, after: set<(nat, nat)>, i: nat, j: nat)
    requires links <= after && Connected(links, i, j)
    ensures Connected(after, i, j)
  {
    forall x, y | (x, y) in links ensures Connected(after, x, y) { ConnectedLink(after, x, y); }
    ConnectedSubsumes(links, after, i, j);
  }

  lemma Joined(links: set<(nat, nat)>, root: seq<nat>, a: nat, b: nat, i: nat, j: nat)
    requires a < |root| && b < |root| && i < |root| && j < |root|
    requires forall x, y :: 0 <= x < |root| && 0 <= y < |root| && root[x] == root[y] ==> Connected(links, x, y)
    requires Connected(links, a, b)
    requires (if root[i] == root[b] then root[a] else root[i]) == (if root[j] == root[b] then root[a] else root[j])
    ensures Connected(links, i, j)
  {
    ConnectedSymmetric(links, a, b);
    if root[i] == root[j] {
    } else if root[i] == root[b] {
      ConnectedTransitive(links, i, b, a);
      ConnectedTransitive(links, i, a, j);
    } else {
      ConnectedTransitive(links, i, a, b);
      ConnectedTransitive(links, i, b, j);
    }
  }
}
