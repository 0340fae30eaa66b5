/** Total preorders, sorting and the byte order of strings, shared by the components that sort. */
module Ordering {

  ghost predicate TotalPreorder<T(!new)>(leq: (T, T) -> bool) {
    && (forall x, y :: leq(x, y) || leq(y, x))
    && (forall x, y, z :: leq(x, y) && leq(y, z) ==> leq(x, z))
  }

  ghost predicate AntiSymmetric<T(!new)>(leq: (T, T) -> bool) {
    forall x, y :: leq(x, y) && leq(y, x) ==> x == y
  }

  function InsertSorted<T>(s: seq<T>, x: T, leq: (T, T) -> bool): seq<T> {
    if s == [] || leq(x, s[0]) then [x] + s else [s[0]] + InsertSorted(s[1..], x, leq)
  }

  /** A sorted arrangement, as a value. */
  function Sorted<T>(s: seq<T>, leq: (T, T) -> bool): seq<T> {
    if s == [] then [] else InsertSorted(Sorted(s[1..], leq), s[0], leq)
  }

  lemma {:induction false} InsertSortedMultiset<T>(s: seq<T>, x: T, leq: (T, T) -> bool)
    ensures multiset(InsertSorted(s, x, leq)) == multiset(s) + multiset{x}
  {
    if s == [] || leq(x, s[0]) {
    } else {
      InsertSortedMultiset(s[1..], x, leq);
      assert s == [s[0]] + s[1..];
    }
  }

  lemma {:induction false} InsertSortedSorted<T(!new)>(s: seq<T>, x: T, leq: (T, T) -> bool)
    requires TotalPreorder(leq) && SortedBy(s, leq)
    ensures SortedBy(InsertSorted(s, x, leq), leq)
  {
    if s == [] || leq(x, s[0]) {
    } else {
      InsertSortedSorted(s[1..], x, leq);
      InsertSortedMultiset(s[1..], x, leq);
      var rest := InsertSorted(s[1..], x, leq);
      forall k | 0 <= k < |rest| ensures leq(s[0], rest[k]) {
        assert rest[k] in multiset(rest);
        assert rest[k] == x || rest[k] in s[1..];
      }
    }
  }

  lemma {:induction false} SortedSorts<T(!new)>(s: seq<T>, leq: (T, T) -> bool)
    requires TotalPreorder(leq)
    ensures SortedBy(Sorted(s, leq), leq) && multiset(Sorted(s, leq)) == multiset(s)
  {
    if s == [] {
    } else {
      SortedSorts(s[1..], leq);
      InsertSortedSorted(Sorted(s[1..], leq), s[0], leq);
      InsertSortedMultiset(Sorted(s[1..], leq), s[0], leq);
      assert s == [s[0]] + s[1..];
    }
  }

  /** Whatever order the sort leaves ties in, distinct keys have one sorted arrangement. */
  lemma SortedIsTheOnly<T(!new)>(s: seq<T>, r: seq<T>, leq: (T, T) -> bool)
    requires TotalPreorder(leq)
    requires forall x, y :: x in s && y in s && leq(x, y) && leq(y, x) ==> x == y
    requires SortedBy(r, leq) && multiset(r) == multiset(s)
    ensures r == Sorted(s, leq)
  {
    SortedSorts(s, leq);
    SameMultisetSameElements(r, s);
    SortedUnique(r, Sorted(s, leq), leq);
  }

  ghost predicate SortedBy<T>(s: seq<T>, leq: (T, T) -> bool) {
    forall i, j :: 0 <= i < j < |s| ==> leq(s[i], s[j])
  }

  lemma InsertAt<T>(r: seq<T>, k: nat, x: T, leq: (T, T) -> bool)
    requires k <= |r| && SortedBy(r, leq)
    requires (forall j :: 0 <= j < k ==> leq(r[j], x)) && (forall j :: k <= j < |r| ==> leq(x, r[j]))
    ensures SortedBy(r[..k] + [x] + r[k..], leq)
    ensures multiset(r[..k] + [x] + r[k..]) == multiset(r) + multiset{x}
  {
    assert r == r[..k] + r[k..];
  }

  lemma PrefixMultiset<T>(s: seq<T>, i: nat)
    requires i < |s|
    ensures multiset(s[..i + 1]) == multiset(s[..i]) + multiset{s[i]}
  {
    assert s[..i + 1] == s[..i] + [s[i]];
  }

  /** The place for the next element, from the right. */
  method InsertionPoint<T(!new)>(r: seq<T>, x: T, leq: (T, T) -> bool) returns (k: nat)
    requires TotalPreorder(leq) && SortedBy(r, leq)
    ensures k <= |r|
    ensures forall j :: 0 <= j < k ==> leq(r[j], x)
    ensures forall j :: k <= j < |r| ==> leq(x, r[j])
  {
    k := |r|;
    while k > 0 && !leq(r[k - 1], x)
      invariant k <= |r|
      invariant forall j :: k <= j < |r| ==> leq(x, r[j])
    {
      k := k - 1;
    }
    if k > 0 {
      forall j | 0 <= j < k ensures leq(r[j], x) {
        assert j == k - 1 || leq(r[j], r[k - 1]);
      }
    }
  }

  /** Go's sort.Slice: the result is sorted, and which of two equal elements comes first is unspecified. */
  method SortSlice<T(!new)>(s: seq<T>, leq: (T, T) -> bool) returns (r: seq<T>)
    requires TotalPreorder(leq)
    ensures SortedBy(r, leq)
    ensures multiset(r) == multiset(s)
    ensures |r| == |s|
  {
    r := [];
    for i := 0 to |s|
      invariant SortedBy(r, leq)
      invariant multiset(r) == multiset(s[..i])
      invariant |r| == i
    {
      var k := InsertionPoint(r, s[i], leq);
      InsertAt(r, k, s[i], leq);
      PrefixMultiset(s, i);
      r := r[..k] + [s[i]] + r[k..];
    }
    assert s[..|s|] == s;
  }

  lemma SameMultisetSameElements<T>(a: seq<T>, b: seq<T>)
    requires multiset(a) == multiset(b)
    ensures |a| == |b|
    ensures forall x :: x in a <==> x in b
  {
    assert |a| == |multiset(a)| == |multiset(b)| == |b|;
    forall x ensures x in a <==> x in b {
      assert x in a <==> x in multiset(a);
      assert x in b <==> x in multiset(b);
    }
  }

  /** What occurs twice in one arrangement occurs twice in every other. */
  lemma TwoCopies<T>(a: seq<T>, b: seq<T>, i: int, j: int)
    requires multiset(a) == multiset(b) && 0 <= i < j < |b| && b[i] == b[j]
    ensures exists m, n :: 0 <= m < n < |a| && a[m] == a[n] == b[i]
  {
    assert b == b[..j] + [b[j]] + b[j + 1..];
    assert b[i] in b[..j];
    assert multiset(b)[b[i]] >= 2;
    assert b[i] in multiset(a);
    var m :| 0 <= m < |a| && a[m] == b[i];
    assert a == a[..m] + [a[m]] + a[m + 1..];
    if b[i] in a[..m] {
      var k :| 0 <= k < m && a[..m][k] == b[i];
      assert a[k] == a[m] == b[i];
    } else {
      assert b[i] in multiset(a[m + 1..]);
      var k :| 0 <= k < |a[m + 1..]| && a[m + 1..][k] == b[i];
      assert a[m] == a[m + 1 + k] == b[i];
    }
  }

  /** Values that are pairwise different stay so in every arrangement. */
  lemma KeysStayDistinct<T, K>(a: seq<T>, b: seq<T>, key: T -> K)
    requires multiset(a) == multiset(b)
    requires forall i, j :: 0 <= i < j < |a| ==> key(a[i]) != key(a[j])
    ensures forall i, j :: 0 <= i < j < |b| ==> key(b[i]) != key(b[j])
  {
    SameMultisetSameElements(a, b);
    forall i, j | 0 <= i < j < |b| ensures key(b[i]) != key(b[j]) {
      assert b[i] in b && b[j] in b;
      var m :| 0 <= m < |a| && a[m] == b[i];
      var n :| 0 <= n < |a| && a[n] == b[j];
      if b[i] == b[j] { TwoCopies(a, b, i, j); }
    }
  }

  /** A sorted arrangement is unique when ties are only between equal elements. */
  lemma {:induction false} SortedUnique<T>(a: seq<T>, b: seq<T>, leq: (T, T) -> bool)
    requires forall x, y :: x in a && y in a && leq(x, y) && leq(y, x) ==> x == y
    requires SortedBy(a, leq) && SortedBy(b, leq)
    requires multiset(a) == multiset(b)
    ensures a == b
  {
    SameMultisetSameElements(a, b);
    if a == [] {
    } else {
      assert a[0] in a && b[0] in b && a[0] in b && b[0] in a;
      FirstIsLeast(a, b[0], leq);
      FirstIsLeast(b, a[0], leq);
      WithoutFirst(a);
      WithoutFirst(b);
      SortedUnique(a[1..], b[1..], leq);
    }
  }

  lemma FirstIsLeast<T>(s: seq<T>, x: T, leq: (T, T) -> bool)
    requires SortedBy(s, leq) && x in s
    ensures x == s[0] || leq(s[0], x)
  {
  }

  lemma WithoutFirst<T>(s: seq<T>)
    requires s != []
    ensures s == [s[0]] + s[1..] && multiset(s[1..]) == multiset(s) - multiset{s[0]}
    ensures forall x :: x in s[1..] ==> x in s
  {
    assert s == [s[0]] + s[1..];
  }

  function Map<A, B>(f: A -> B, s: seq<A>): (r: seq<B>)
    ensures |r| == |s| && forall i :: 0 <= i < |s| ==> r[i] == f(s[i])
  {
    seq(|s|, i requires 0 <= i < |s| => f(s[i]))
  }

  lemma MapElement<A, B>(f: A -> B, s: seq<A>, y: B)
    ensures y in Map(f, s) <==> exists x :: x in s && f(x) == y
  {
    if y in Map(f, s) {
      var i :| 0 <= i < |s| && Map(f, s)[i] == y;
      assert s[i] in s && f(s[i]) == y;
    }
    if x :| x in s && f(x) == y {
      var i :| 0 <= i < |s| && s[i] == x;
      assert Map(f, s)[i] == y;
    }
  }

  lemma MapConcat<A, B>(f: A -> B, a: seq<A>, b: seq<A>)
    ensures Map(f, a + b) == Map(f, a) + Map(f, b)
  {
  }

  lemma MapNext<A, B>(f: A -> B, s: seq<A>, i: nat)
    requires i < |s|
    ensures Map(f, s[..i + 1]) == Map(f, s[..i]) + [f(s[i])]
  {
    MapConcat(f, s[..i], [s[i]]);
    assert s[..i + 1] == s[..i] + [s[i]];
  }

  function Without<T>(s: seq<T>, k: nat): (r: seq<T>)
    requires k < |s|
    ensures |r| == |s| - 1
  {
    s[..k] + s[k + 1..]
  }

  lemma WithoutMultiset<T>(s: seq<T>, k: nat)
    requires k < |s|
    ensures multiset(Without(s, k)) == multiset(s) - multiset{s[k]}
    ensures multiset(s) == multiset(Without(s, k)) + multiset{s[k]}
  {
    var before, after := s[..k], s[k + 1..];
    assert s == before + ([s[k]] + after);
    assert multiset([s[k]] + after) == multiset{s[k]} + multiset(after);
  }

  lemma MapWithout<A, B>(f: A -> B, s: seq<A>, k: nat)
    requires k < |s|
    ensures Map(f, Without(s, k)) == Without(Map(f, s), k)
  {
  }

  lemma {:induction false} MapMultiset<A, B>(f: A -> B, a: seq<A>, b: seq<A>)
    requires multiset(a) == multiset(b)
    ensures multiset(Map(f, a)) == multiset(Map(f, b))
    decreases |a|
  {
    SameMultisetSameElements(a, b);
    if a == [] {
    } else {
      assert a[0] in b;
      var k :| 0 <= k < |b| && b[k] == a[0];
      WithoutMultiset(a, 0);
      WithoutMultiset(b, k);
      MapMultiset(f, Without(a, 0), Without(b, k));
      MapWithout(f, a, 0);
      MapWithout(f, b, k);
      WithoutMultiset(Map(f, a), 0);
      WithoutMultiset(Map(f, b), k);
    }
  }

  function Elements<T>(s: seq<T>): set<T> { set x | x in s }

  lemma {:induction false} DistinctSize<T>(s: seq<T>)
    requires forall i, j :: 0 <= i < j < |s| ==> s[i] != s[j]
    ensures |Elements(s)| == |s|
  {
    if s == [] {
    } else {
      var init, last := s[..|s| - 1], s[|s| - 1];
      DistinctSize(init);
      assert last !in init;
      assert Elements(s) == Elements(init) + {last} by {
        assert s == init + [last];
      }
    }
  }

  lemma {:induction false} SubsetSize<T>(a: set<T>, b: set<T>)
    requires a <= b
    ensures |a| <= |b|
    ensures |a| == |b| ==> a == b
  {
    if a == {} {
      assert |b| == 0 ==> b == {};
    } else {
      var x :| x in a;
      SubsetSize(a - {x}, b - {x});
      assert a == (a - {x}) + {x} && b == (b - {x}) + {x};
    }
  }

  ghost predicate StrictlySorted<T>(s: seq<T>, less: (T, T) -> bool) {
    forall i, j :: 0 <= i < j < |s| ==> less(s[i], s[j])
  }

  /** A strictly sorted sequence is determined by its elements. */
  lemma {:induction false} StrictlySortedUnique<T(!new)>(a: seq<T>, b: seq<T>, less: (T, T) -> bool)
    requires forall x, y :: less(x, y) ==> !less(y, x)
    requires StrictlySorted(a, less) && StrictlySorted(b, less)
    requires forall x :: x in a <==> x in b
    ensures a == b
  {
    if a != [] { assert a[0] in a; }
    if b != [] { assert b[0] in b; }
    if a == [] {
    } else {
      assert a == [a[0]] + a[1..] && b == [b[0]] + b[1..];
      assert a[0] == b[0];
      forall x ensures x in a[1..] <==> x in b[1..] {
        assert x in a <==> x in b;
        assert x in a[1..] ==> less(a[0], x);
        assert x in b[1..] ==> less(b[0], x);
      }
      StrictlySortedUnique(a[1..], b[1..], less);
    }
  }

  /** Byte-wise string comparison, as Go compares strings. */
  predicate StringLeq(a: string, b: string) {
    a == [] || (b != [] && (a[0] < b[0] || (a[0] == b[0] && StringLeq(a[1..], b[1..]))))
  }

  lemma StringLeqTotal(a: string, b: string)
    ensures StringLeq(a, b) || StringLeq(b, a)
  {
  }

  lemma {:induction false} StringLeqAntiSymmetric(a: string, b: string)
    requires StringLeq(a, b) && StringLeq(b, a)
    ensures a == b
  {
    if a == [] {
    } else {
      StringLeqAntiSymmetric(a[1..], b[1..]);
      assert a == [a[0]] + a[1..] && b == [b[0]] + b[1..];
    }
  }

  lemma StringLeqTransitive(a: string, b: string, c: string)
    requires StringLeq(a, b) && StringLeq(b, c)
    ensures StringLeq(a, c)
  {
  }

  lemma StringOrder()
    ensures TotalPreorder(StringLeq) && AntiSymmetric(StringLeq)
  {
    forall x, y ensures StringLeq(x, y) || StringLeq(y, x) { StringLeqTotal(x, y); }
    forall x, y, z | StringLeq(x, y) && StringLeq(y, z) ensures StringLeq(x, z) { StringLeqTransitive(x, y, z); }
    forall x, y | StringLeq(x, y) && StringLeq(y, x) ensures x == y { StringLeqAntiSymmetric(x, y); }
  }

  /** The first byte in which the strings differ is smaller in `a`, or `a` is a proper prefix of `b`. */
  ghost predicate ByteBefore(a: string, b: string) {
    exists k: nat :: k <= |a| && k < |b| && a[..k] == b[..k] && (k < |a| ==> a[k] < b[k])
  }

  lemma {:induction false} ByteOrder(a: string, b: string, k: nat)
    requires k <= |a| && k < |b| && a[..k] == b[..k] && (k < |a| ==> a[k] < b[k])
    ensures StringLeq(a, b) && !StringLeq(b, a)
  {
    if k == 0 {
    } else {
      assert a[0] == a[..k][0] == b[..k][0] == b[0];
      assert a[1..][..k - 1] == a[..k][1..] == b[..k][1..] == b[1..][..k - 1];
      ByteOrder(a[1..], b[1..], k - 1);
    }
  }

  lemma {:induction false} FirstDifference(a: string, b: string) returns (k: nat)
    requires StringLeq(a, b) && a != b
    ensures k <= |a| && k < |b| && a[..k] == b[..k] && (k < |a| ==> a[k] < b[k])
  {
    if a == [] || a[0] != b[0] {
      k := 0;
    } else {
      assert a == [a[0]] + a[1..] && b == [b[0]] + b[1..];
      k := FirstDifference(a[1..], b[1..]);
      assert a[..k + 1] == [a[0]] + a[1..][..k] && b[..k + 1] == [b[0]] + b[1..][..k];
      k := k + 1;
    }
  }

  /** Strings are ordered by the first byte in which they differ, and a proper prefix comes first. */
  lemma StringLeqMeans(a: string, b: string)
    ensures StringLeq(a, b) <==> a == b || ByteBefore(a, b)
    ensures !(ByteBefore(a, b) && ByteBefore(b, a))
  {
    StringOrder();
    if StringLeq(a, b) && a != b {
      var k := FirstDifference(a, b);
    }
    if ByteBefore(a, b) {
      var k: nat :| k <= |a| && k < |b| && a[..k] == b[..k] && (k < |a| ==> a[k] < b[k]);
      ByteOrder(a, b, k);
    }
    if ByteBefore(b, a) {
      var k: nat :| k <= |b| && k < |a| && b[..k] == a[..k] && (k < |b| ==> b[k] < a[k]);
      ByteOrder(b, a, k);
    }
  }

  // ---------- Picking elements ----------

  /** `kept` lists the elements of `all` at the positions `at`. */
  ghost predicate PickedAt<T>(all: seq<T>, p: T -> bool, kept: seq<T>, at: seq<nat>) {
    && |at| == |kept|
    && (forall i :: 0 <= i < |at| ==> at[i] < |all| && kept[i] == all[at[i]])
    && (forall i, j :: 0 <= i < j < |at| ==> at[i] < at[j])
    && (forall k: nat :: k < |all| ==> (p(all[k]) <==> k in at))
  }

  /** `kept` lists the elements of `all` that satisfy `p`, each as often as it occurs and in the same order. */
  ghost predicate Picked<T>(all: seq<T>, p: T -> bool, kept: seq<T>) {
    exists at: seq<nat> :: PickedAt(all, p, kept, at)
  }

  lemma PickedNone<T>(p: T -> bool)
    ensures Picked([], p, [])
  {
    assert PickedAt([], p, [], []);
  }

  lemma PickedAtSnoc<T>(all: seq<T>, p: T -> bool, kept: seq<T>, at: seq<nat>, x: T)
    requires PickedAt(all, p, kept, at)
    ensures p(x) ==> PickedAt(all + [x], p, kept + [x], at + [|all|])
    ensures !p(x) ==> PickedAt(all + [x], p, kept, at)
  {
    var longer := all + [x];
    assert forall k: nat :: k < |all| ==> longer[k] == all[k];
    if p(x) {
      var more := at + [|all|];
      forall k: nat | k < |longer| ensures p(longer[k]) <==> k in more {
        assert k in more <==> k in at || k == |all|;
      }
    } else {
      assert |all| !in at;
    }
  }

  lemma PickedSnoc<T>(all: seq<T>, p: T -> bool, kept: seq<T>, x: T)
    requires Picked(all, p, kept)
    ensures Picked(all + [x], p, kept + if p(x) then [x] else [])
  {
    var at: seq<nat> :| PickedAt(all, p, kept, at);
    PickedAtSnoc(all, p, kept, at, x);
    assert kept + [] == kept;
  }

  lemma PickedPositions<T>(all: seq<T>, p: T -> bool, kept: seq<T>, at: seq<nat>, kept': seq<T>, at': seq<nat>)
    requires PickedAt(all, p, kept, at) && PickedAt(all, p, kept', at')
    ensures at == at'
  {
    forall k: nat ensures k in at <==> k in at' {
      if k in at { assert k < |all|; }
      if k in at' { assert k < |all|; }
    }
    StrictlySortedUnique(at, at', (a: nat, b: nat) => a < b);
  }

  /** There is only one way to pick. */
  lemma PickedUnique<T>(all: seq<T>, p: T -> bool, kept: seq<T>, kept': seq<T>)
    requires Picked(all, p, kept) && Picked(all, p, kept')
    ensures kept == kept'
  {
    var at: seq<nat> :| PickedAt(all, p, kept, at);
    var at': seq<nat> :| PickedAt(all, p, kept', at');
    PickedPositions(all, p, kept, at, kept', at');
  }
}
