/** Data clumps: groups of parameters that several functions repeat. The scan over pairs of functions
    looks only at possible right-hand partners; subsumed clumps are deleted from the map while it is
    being ranged over. */
module ParameterClumps {
  import opened Ordering
  import Text

  const NUL: char := '\0'

  datatype Parameter = Parameter(name: string, typeKey: string) {
    function Key(): string { name + "\0" + typeKey }

    predicate NulFree() { NUL !in name && NUL !in typeKey }
  }

  /** The parameters of a function, and whether another check already reported it. Functions are told
      apart by their index. */
  datatype Profile = Profile(parameters: seq<Parameter>, reported: bool)

  datatype Clump = Clump(params: seq<Parameter>, funcs: seq<nat>)

  type Clumps = map<string, Clump>

  // ---------- What two functions share ----------

  function KeysOf(params: seq<Parameter>): set<string> { set p | p in params :: p.Key() }

  function KeyList(params: seq<Parameter>): (keys: seq<string>)
    ensures |keys| == |params| && forall k :: 0 <= k < |params| ==> keys[k] == params[k].Key()
  {
    seq(|params|, k requires 0 <= k < |params| => params[k].Key())
  }

  /** The parameters whose key is among `keys`, in order. */
  function Shared(keys: set<string>, params: seq<Parameter>): (shared: seq<Parameter>)
    ensures |shared| <= |params|
    ensures forall p :: p in shared <==> p in params && p.Key() in keys
  {
    if params == [] then []
    else
      var last := params[|params| - 1];
      assert params == params[..|params| - 1] + [last];
      Shared(keys, params[..|params| - 1]) + if last.Key() in keys then [last] else []
  }

  /** The sorted keys, joined: the name of a clump. */
  function Signature(params: seq<Parameter>): string { Text.Join(Sorted(KeyList(params), StringLeq), NUL) }

  method ParameterKeySet(profile: Profile) returns (keys: set<string>)
    ensures keys == KeysOf(profile.parameters)
  {
    keys := {};
    for i := 0 to |profile.parameters|
      invariant keys == KeysOf(profile.parameters[..i])
    {
      assert profile.parameters[..i + 1] == profile.parameters[..i] + [profile.parameters[i]];
      keys := keys + {profile.parameters[i].Key()};
    }
    assert profile.parameters[..|profile.parameters|] == profile.parameters;
  }

  method SharedParameters(leftKeys: set<string>, right: Profile) returns (shared: seq<Parameter>)
    ensures shared == Shared(leftKeys, right.parameters)
  {
    var params := right.parameters;
    shared := [];
    for i := 0 to |params|
      invariant shared == Shared(leftKeys, params[..i])
    {
      assert params[..i + 1][..i] == params[..i];
      if params[i].Key() in leftKeys {
        shared := shared + [params[i]];
      }
    }
    assert params[..|params|] == params;
  }

  method ParameterSetContains(super: seq<Parameter>, subset: seq<Parameter>) returns (contains: bool)
    ensures contains <==> KeysOf(subset) <= KeysOf(super)
  {
    var keys := ParameterKeySet(Profile(super, false));
    for i := 0 to |subset|
      invariant KeysOf(subset[..i]) <= KeysOf(super)
    {
      if subset[i].Key() !in keys {
        assert subset[i].Key() in KeysOf(subset);
        return false;
      }
      assert subset[..i + 1] == subset[..i] + [subset[i]];
    }
    assert subset[..|subset|] == subset;
    return true;
  }

  method SignatureOf(shared: seq<Parameter>) returns (signature: string)
    ensures signature == Signature(shared)
  {
    StringOrder();
    var keys := SortSlice(KeyList(shared), StringLeq);
    SortedIsTheOnly(KeyList(shared), keys, StringLeq);
    signature := Text.Join(keys, NUL);
  }

  // ---------- A signature names its parameters ----------

  predicate IsKey(k: string) {
    var cut := Text.IndexOf(k, NUL);
    cut < |k| && NUL !in k[cut + 1..]
  }

  lemma KeyIsKey(p: Parameter)
    requires p.NulFree()
    ensures IsKey(p.Key())
  {
    assert p.Key() == p.name + ([NUL] + p.typeKey);
    Text.IndexOfConcat(p.name, [NUL] + p.typeKey, NUL);
    assert p.Key()[|p.name| + 1..] == p.typeKey;
  }

  /** What follows the first of the joined keys. */
  function AfterFirst(keys: seq<string>): string {
    if |keys| <= 1 then [] else [NUL] + Text.Join(keys[1..], NUL)
  }

  lemma {:induction false} JoinFirstKey(keys: seq<string>, name: string, typeKey: string)
    requires keys != [] && keys[0] == name + [NUL] + typeKey
    ensures Text.Join(keys, NUL) == name + [NUL] + (typeKey + AfterFirst(keys))
  {
    if |keys| > 1 {
      var rest := Text.Join(keys[1..], NUL);
      assert name + [NUL] + typeKey + [NUL] + rest == name + [NUL] + (typeKey + ([NUL] + rest));
    } else {
      assert typeKey + [] == typeKey;
    }
  }

  /** A key has exactly one separator, so the first one is told apart although the same separator joins them. */
  lemma {:induction false} FirstKeyUnique(a: seq<string>, b: seq<string>)
    requires a != [] && b != [] && IsKey(a[0]) && IsKey(b[0]) && Text.Join(a, NUL) == Text.Join(b, NUL)
    ensures a[0] == b[0] && AfterFirst(a) == AfterFirst(b)
  {
    var i, j := Text.IndexOf(a[0], NUL), Text.IndexOf(b[0], NUL);
    var n, t, n', t' := a[0][..i], a[0][i + 1..], b[0][..j], b[0][j + 1..];
    assert a[0] == n + [NUL] + t && b[0] == n' + [NUL] + t';
    JoinFirstKey(a, n, t);
    JoinFirstKey(b, n', t');
    Text.CutUnique(n, t + AfterFirst(a), n', t' + AfterFirst(b), NUL);
    TailUnique(t, AfterFirst(a), t', AfterFirst(b));
  }

  lemma RestUnique(a: seq<string>, b: seq<string>)
    requires a != [] && b != [] && a[0] == b[0] && AfterFirst(a) == AfterFirst(b)
    ensures |a| == 1 <==> |b| == 1
    ensures Text.Join(a[1..], NUL) == Text.Join(b[1..], NUL)
  {
    if |a| > 1 && |b| > 1 {
      assert AfterFirst(a)[1..] == Text.Join(a[1..], NUL) && AfterFirst(b)[1..] == Text.Join(b[1..], NUL);
    }
  }

  /** Joined keys are recovered. */
  lemma {:induction false} JoinKeysUnique(a: seq<string>, b: seq<string>)
    requires forall k :: k in a ==> IsKey(k)
    requires forall k :: k in b ==> IsKey(k)
    requires Text.Join(a, NUL) == Text.Join(b, NUL)
    ensures a == b
  {
    JoinedEmpty(a);
    JoinedEmpty(b);
    if a == [] || b == [] {
    } else {
      FirstKeyUnique(a, b);
      RestUnique(a, b);
      JoinKeysUnique(a[1..], b[1..]);
      assert a == [a[0]] + a[1..] && b == [b[0]] + b[1..];
    }
  }

  lemma JoinedEmpty(keys: seq<string>)
    requires forall k :: k in keys ==> IsKey(k)
    ensures Text.Join(keys, NUL) == "" <==> keys == []
  {
    if keys != [] { assert IsKey(keys[0]); }
  }

  lemma {:induction false} TailCut(t: string, u: string)
    requires NUL !in t && (u == [] || u[0] == NUL)
    ensures Text.IndexOf(t + u, NUL) == |t|
  {
    if u == [] { assert t + u == t; } else { Text.IndexOfConcat(t, u, NUL); }
  }

  lemma TailUnique(t: string, u: string, t': string, u': string)
    requires NUL !in t && NUL !in t' && t + u == t' + u'
    requires u == [] || u[0] == NUL
    requires u' == [] || u'[0] == NUL
    ensures t == t' && u == u'
  {
    TailCut(t, u);
    TailCut(t', u');
    var s := t + u;
    assert t == s[..|t|] && t' == s[..|t|];
    assert u == s[|t|..] && u' == s[|t|..];
  }

  lemma KeyInjective(p: Parameter, q: Parameter)
    requires p.NulFree() && q.NulFree() && p.Key() == q.Key()
    ensures p == q
  {
    Text.CutUnique(p.name, p.typeKey, q.name, q.typeKey, NUL);
  }

  /** Keys of a list occur as often as the parameters they stand for. */
  lemma {:induction false} KeyCount(params: seq<Parameter>, p: Parameter)
    requires p.NulFree() && forall q :: q in params ==> q.NulFree()
    ensures multiset(KeyList(params))[p.Key()] == multiset(params)[p]
  {
    if params == [] {
    } else {
      var before, last := params[..|params| - 1], params[|params| - 1];
      assert params == before + [last];
      assert KeyList(params) == KeyList(before) + [last.Key()];
      KeyCount(before, p);
      if last.Key() == p.Key() { KeyInjective(last, p); }
    }
  }

  /** Two groups of parameters have the same signature exactly when they hold the same parameters. */
  lemma SignatureUnique(a: seq<Parameter>, b: seq<Parameter>)
    requires forall p :: p in a ==> p.NulFree()
    requires forall p :: p in b ==> p.NulFree()
    ensures Signature(a) == Signature(b) <==> multiset(a) == multiset(b)
  {
    StringOrder();
    var ka, kb := KeyList(a), KeyList(b);
    SortedSorts(ka, StringLeq);
    SortedSorts(kb, StringLeq);
    if Signature(a) == Signature(b) {
      SortedKeysAreKeys(a);
      SortedKeysAreKeys(b);
      JoinKeysUnique(Sorted(ka, StringLeq), Sorted(kb, StringLeq));
      forall p ensures multiset(a)[p] == multiset(b)[p] { SameCount(a, b, p); }
    }
    if multiset(a) == multiset(b) {
      forall k ensures multiset(ka)[k] == multiset(kb)[k] { SameKeyCount(a, b, k); }
      SortedUnique(Sorted(ka, StringLeq), Sorted(kb, StringLeq), StringLeq);
    }
  }

  lemma SortedKeysAreKeys(params: seq<Parameter>)
    requires forall p :: p in params ==> p.NulFree()
    ensures forall k :: k in Sorted(KeyList(params), StringLeq) ==> IsKey(k)
  {
    StringOrder();
    var keys := KeyList(params);
    SortedSorts(keys, StringLeq);
    SameMultisetSameElements(keys, Sorted(keys, StringLeq));
    forall k | k in keys ensures IsKey(k) {
      var i :| 0 <= i < |keys| && keys[i] == k;
      assert params[i] in params;
      KeyIsKey(params[i]);
    }
  }

  lemma SameCount(a: seq<Parameter>, b: seq<Parameter>, p: Parameter)
    requires forall q :: q in a ==> q.NulFree()
    requires forall q :: q in b ==> q.NulFree()
    requires multiset(KeyList(a)) == multiset(KeyList(b))
    ensures multiset(a)[p] == multiset(b)[p]
  {
    if p.NulFree() {
      KeyCount(a, p);
      KeyCount(b, p);
    } else {
      assert p !in a && p !in b;
    }
  }

  lemma SameKeyCount(a: seq<Parameter>, b: seq<Parameter>, k: string)
    requires forall q :: q in a ==> q.NulFree()
    requires multiset(a) == multiset(b)
    ensures multiset(KeyList(a))[k] == multiset(KeyList(b))[k]
  {
    SameMultisetSameElements(a, b);
    if i :| 0 <= i < |a| && a[i].Key() == k {
      assert a[i] in a && a[i] in b;
      KeyCount(a, a[i]);
      KeyCount(b, a[i]);
    } else {
      assert k !in KeyList(a);
      forall i | 0 <= i < |b| ensures KeyList(b)[i] != k { assert b[i] in b && b[i] in a; }
      assert k !in KeyList(b);
    }
  }

  // ---------- The plain scan over all pairs ----------

  function SharedOf(ps: seq<Profile>, i: nat, j: nat): seq<Parameter>
    requires i < |ps| && j < |ps|
  {
    Shared(KeysOf(ps[i].parameters), ps[j].parameters)
  }

  /** Two unreported functions share more parameters than the limit. */
  predicate Qualifies(ps: seq<Profile>, max: int, i: nat, j: nat) {
    i < j < |ps| && !ps[i].reported && !ps[j].reported && |SharedOf(ps, i, j)| > max
  }

  function AddMember(funcs: seq<nat>, f: nat): seq<nat> { if f in funcs then funcs else funcs + [f] }

  function WithPair(clumps: Clumps, shared: seq<Parameter>, i: nat, j: nat): Clumps {
    var s := Signature(shared);
    var c := if s in clumps then clumps[s] else Clump(shared, []);
    clumps[s := Clump(c.params, AddMember(AddMember(c.funcs, i), j))]
  }

  function AddPair(ps: seq<Profile>, max: int, clumps: Clumps, i: nat, j: nat): Clumps {
    if Qualifies(ps, max, i, j) then WithPair(clumps, SharedOf(ps, i, j), i, j) else clumps
  }

  /** After the pairs (i, i+1) to (i, j-1). */
  function Row(ps: seq<Profile>, max: int, start: Clumps, i: nat, j: nat): Clumps {
    if j <= i + 1 then start else AddPair(ps, max, Row(ps, max, start, i, j - 1), i, j - 1)
  }

  /** After all pairs whose left function is before `i`. */
  function Rows(ps: seq<Profile>, max: int, i: nat): Clumps {
    if i == 0 then map[] else Row(ps, max, Rows(ps, max, i - 1), i - 1, |ps|)
  }

  function PlainScan(ps: seq<Profile>, max: int): Clumps { Rows(ps, max, |ps|) }

  // ---------- What the plain scan computes ----------

  /** The pair (i, j) belongs to the clump named `s`. */
  predicate Makes(ps: seq<Profile>, max: int, i: nat, j: nat, s: string) {
    Qualifies(ps, max, i, j) && Signature(SharedOf(ps, i, j)) == s
  }

  predicate Visited(a: nat, b: nat, i: nat, j: nat) { a < i || (a == i && b < j) }

  /** Some pair visited before (i, j) belongs to the clump. */
  ghost predicate Made(ps: seq<Profile>, max: int, s: string, i: nat, j: nat) {
    exists a, b :: Visited(a, b, i, j) && Makes(ps, max, a, b, s)
  }

  /** `f` is in a pair of the clump visited before (i, j). */
  ghost predicate Joins(ps: seq<Profile>, max: int, s: string, f: nat, i: nat, j: nat) {
    exists a, b :: Visited(a, b, i, j) && Makes(ps, max, a, b, s) && (f == a || f == b)
  }

  /** The parameters of some pair of the clump. */
  ghost predicate FromPair(ps: seq<Profile>, max: int, s: string, params: seq<Parameter>) {
    exists a, b :: Makes(ps, max, a, b, s) && params == SharedOf(ps, a, b)
  }

  predicate Distinct(funcs: seq<nat>) { forall u, v :: 0 <= u < v < |funcs| ==> funcs[u] != funcs[v] }

  ghost predicate Described(ps: seq<Profile>, max: int, clumps: Clumps, s: string, f: nat, i: nat, j: nat) {
    && (s in clumps <==> Made(ps, max, s, i, j))
    && (s in clumps ==> Distinct(clumps[s].funcs) && FromPair(ps, max, s, clumps[s].params))
    && (s in clumps ==> (f in clumps[s].funcs <==> Joins(ps, max, s, f, i, j)))
  }

  lemma MadeNext(ps: seq<Profile>, max: int, s: string, i: nat, j: nat)
    ensures Made(ps, max, s, i, j + 1) <==> Made(ps, max, s, i, j) || Makes(ps, max, i, j, s)
  {
    if Made(ps, max, s, i, j) {
      var a, b :| Visited(a, b, i, j) && Makes(ps, max, a, b, s);
      assert Visited(a, b, i, j + 1);
    }
    if Makes(ps, max, i, j, s) { assert Visited(i, j, i, j + 1); }
    if Made(ps, max, s, i, j + 1) {
      var a, b :| Visited(a, b, i, j + 1) && Makes(ps, max, a, b, s);
      assert Visited(a, b, i, j) || (a == i && b == j);
    }
  }

  lemma JoinsNext(ps: seq<Profile>, max: int, s: string, f: nat, i: nat, j: nat)
    ensures Joins(ps, max, s, f, i, j + 1) <==>
      Joins(ps, max, s, f, i, j) || (Makes(ps, max, i, j, s) && (f == i || f == j))
  {
    if Joins(ps, max, s, f, i, j) {
      var a, b :| Visited(a, b, i, j) && Makes(ps, max, a, b, s) && (f == a || f == b);
      assert Visited(a, b, i, j + 1);
    }
    if Makes(ps, max, i, j, s) { assert Visited(i, j, i, j + 1); }
    if Joins(ps, max, s, f, i, j + 1) {
      var a, b :| Visited(a, b, i, j + 1) && Makes(ps, max, a, b, s) && (f == a || f == b);
      assert Visited(a, b, i, j) || (a == i && b == j);
    }
  }

  lemma AddMemberDistinct(funcs: seq<nat>, f: nat)
    requires Distinct(funcs)
    ensures Distinct(AddMember(funcs, f)) && forall g :: g in AddMember(funcs, f) <==> g in funcs || g == f
  {
  }

  /** The entry for a signature changes only with a pair that has it. */
  lemma {:induction false} EntryAfter(ps: seq<Profile>, max: int, clumps: Clumps, i: nat, j: nat, s: string)
    requires i < j < |ps|
    ensures var after := AddPair(ps, max, clumps, i, j);
      if Makes(ps, max, i, j, s) then
        && s in after
        && after[s].funcs == AddMember(AddMember(if s in clumps then clumps[s].funcs else [], i), j)
        && after[s].params == if s in clumps then clumps[s].params else SharedOf(ps, i, j)
      else (s in after <==> s in clumps) && (s in clumps ==> after[s] == clumps[s])
  {
  }

  lemma {:induction false} DescribeNext(ps: seq<Profile>, max: int, clumps: Clumps, s: string, f: nat, i: nat, j: nat)
    requires i < j < |ps| && Described(ps, max, clumps, s, f, i, j)
    ensures Described(ps, max, AddPair(ps, max, clumps, i, j), s, f, i, j + 1)
  {
    var after := AddPair(ps, max, clumps, i, j);
    EntryAfter(ps, max, clumps, i, j, s);
    MadeNext(ps, max, s, i, j);
    JoinsNext(ps, max, s, f, i, j);
    if Makes(ps, max, i, j, s) {
      var funcs := if s in clumps then clumps[s].funcs else [];
      if s !in clumps { NoneJoins(ps, max, s, f, i, j); }
      AddMemberDistinct(funcs, i);
      AddMemberDistinct(AddMember(funcs, i), j);
      assert FromPair(ps, max, s, after[s].params);
    }
  }

  lemma NoneJoins(ps: seq<Profile>, max: int, s: string, f: nat, i: nat, j: nat)
    requires !Made(ps, max, s, i, j)
    ensures !Joins(ps, max, s, f, i, j)
  {
  }

  /** What holds at the start of a row and is kept by each pair holds after the row. */
  lemma {:induction false} RowInduction(ps: seq<Profile>, max: int, start: Clumps, i: nat, j: nat,
                                        holds: (Clumps, nat) -> bool)
    requires i < j <= |ps| && holds(start, i + 1)
    requires forall clumps, k :: i < k < |ps| && holds(clumps, k) ==> holds(AddPair(ps, max, clumps, i, k), k + 1)
    ensures holds(Row(ps, max, start, i, j), j)
  {
    if j == i + 1 {
      assert Row(ps, max, start, i, j) == start;
    } else {
      RowInduction(ps, max, start, i, j - 1, holds);
      RowNext(ps, max, start, i, j - 1);
    }
  }

  lemma {:induction false} DescribeRow(ps: seq<Profile>, max: int, start: Clumps, s: string, f: nat, i: nat)
    requires i < |ps| && Described(ps, max, start, s, f, i, i + 1)
    ensures Described(ps, max, Row(ps, max, start, i, |ps|), s, f, i, |ps|)
  {
    var holds := (clumps: Clumps, k: nat) => Described(ps, max, clumps, s, f, i, k);
    forall clumps, k | i < k < |ps| && holds(clumps, k) ensures holds(AddPair(ps, max, clumps, i, k), k + 1) {
      DescribeNext(ps, max, clumps, s, f, i, k);
    }
    RowInduction(ps, max, start, i, |ps|, holds);
  }

  /** Pairs out of range aside, a finished row is the start of the next one. */
  lemma RowDone(ps: seq<Profile>, max: int, clumps: Clumps, s: string, f: nat, i: nat)
    requires Described(ps, max, clumps, s, f, i, |ps|)
    ensures Described(ps, max, clumps, s, f, i + 1, i + 2)
  {
    forall a, b | Makes(ps, max, a, b, s) ensures Visited(a, b, i, |ps|) <==> Visited(a, b, i + 1, i + 2) {}
    assert Made(ps, max, s, i, |ps|) <==> Made(ps, max, s, i + 1, i + 2);
    assert Joins(ps, max, s, f, i, |ps|) <==> Joins(ps, max, s, f, i + 1, i + 2);
  }

  lemma NothingMade(ps: seq<Profile>, max: int, s: string, f: nat)
    ensures Described(ps, max, map[], s, f, 0, 1)
  {
    assert forall a, b :: Makes(ps, max, a, b, s) ==> !Visited(a, b, 0, 1);
  }

  /** What holds at the start and is kept by each row holds after any number of rows. */
  lemma {:induction false} RowsInduction(ps: seq<Profile>, max: int, i: nat, holds: (Clumps, nat) -> bool)
    requires i <= |ps| && holds(map[], 0)
    requires forall clumps, k: nat :: k < |ps| && holds(clumps, k) ==> holds(Row(ps, max, clumps, k, |ps|), k + 1)
    ensures holds(Rows(ps, max, i), i)
  {
    if i == 0 {
    } else {
      RowsInduction(ps, max, i - 1, holds);
      assert Rows(ps, max, i) == Row(ps, max, Rows(ps, max, i - 1), i - 1, |ps|);
    }
  }

  lemma {:induction false} DescribeRows(ps: seq<Profile>, max: int, s: string, f: nat, i: nat)
    requires i <= |ps|
    ensures Described(ps, max, Rows(ps, max, i), s, f, i, i + 1)
  {
    var holds := (clumps: Clumps, k: nat) => Described(ps, max, clumps, s, f, k, k + 1);
    NothingMade(ps, max, s, f);
    forall clumps, k: nat | k < |ps| && holds(clumps, k) ensures holds(Row(ps, max, clumps, k, |ps|), k + 1) {
      DescribeRow(ps, max, clumps, s, f, k);
      RowDone(ps, max, Row(ps, max, clumps, k, |ps|), s, f, k);
    }
    RowsInduction(ps, max, i, holds);
  }

  /** There is a clump for exactly the signatures of qualifying pairs. Its members are exactly the
      functions in those pairs, each once, and there are at least two. */
  lemma {:induction false} ClumpsOfPairs(ps: seq<Profile>, max: int, s: string)
    ensures s in PlainScan(ps, max) <==> exists i, j :: Makes(ps, max, i, j, s)
    ensures s in PlainScan(ps, max) ==>
      && (forall f :: f in PlainScan(ps, max)[s].funcs <==>
        exists i, j :: Makes(ps, max, i, j, s) && (f == i || f == j))
      && Distinct(PlainScan(ps, max)[s].funcs) && |PlainScan(ps, max)[s].funcs| >= 2
      && FromPair(ps, max, s, PlainScan(ps, max)[s].params)
  {
    ClumpAtEnd(ps, max, s);
    if s in PlainScan(ps, max) {
      forall f
        ensures f in PlainScan(ps, max)[s].funcs <==> exists i, j :: Makes(ps, max, i, j, s) && (f == i || f == j)
      {
        MemberAtEnd(ps, max, s, f);
      }
      TwoMembers(ps, max, s, PlainScan(ps, max)[s].funcs);
    }
  }

  lemma {:induction false} ClumpAtEnd(ps: seq<Profile>, max: int, s: string)
    ensures s in PlainScan(ps, max) <==> exists i, j :: Makes(ps, max, i, j, s)
    ensures s in PlainScan(ps, max) ==>
      Distinct(PlainScan(ps, max)[s].funcs) && FromPair(ps, max, s, PlainScan(ps, max)[s].params)
  {
    DescribeRows(ps, max, s, 0, |ps|);
    MadeAtEnd(ps, max, s);
  }

  lemma {:induction false} MemberAtEnd(ps: seq<Profile>, max: int, s: string, f: nat)
    requires s in PlainScan(ps, max)
    ensures f in PlainScan(ps, max)[s].funcs <==> exists i, j :: Makes(ps, max, i, j, s) && (f == i || f == j)
  {
    DescribeRows(ps, max, s, f, |ps|);
    JoinsAtEnd(ps, max, s, f);
  }

  lemma TwoMembers(ps: seq<Profile>, max: int, s: string, funcs: seq<nat>)
    requires exists i, j :: Makes(ps, max, i, j, s)
    requires forall i, j :: Makes(ps, max, i, j, s) ==> i in funcs && j in funcs
    ensures |funcs| >= 2
  {
    var i, j :| Makes(ps, max, i, j, s);
    var u :| 0 <= u < |funcs| && funcs[u] == i;
    var v :| 0 <= v < |funcs| && funcs[v] == j;
    assert u != v;
  }

  lemma MadeAtEnd(ps: seq<Profile>, max: int, s: string)
    ensures Made(ps, max, s, |ps|, |ps| + 1) <==> exists i, j :: Makes(ps, max, i, j, s)
  {
    if i, j :| Makes(ps, max, i, j, s) {
      assert Visited(i, j, |ps|, |ps| + 1);
    }
  }

  lemma JoinsAtEnd(ps: seq<Profile>, max: int, s: string, f: nat)
    ensures Joins(ps, max, s, f, |ps|, |ps| + 1) <==> exists i, j :: Makes(ps, max, i, j, s) && (f == i || f == j)
  {
    if i, j :| Makes(ps, max, i, j, s) && (f == i || f == j) {
      assert Visited(i, j, |ps|, |ps| + 1);
    }
  }

  /** The same parameters stand behind every pair of a clump. */
  lemma ClumpParameters(ps: seq<Profile>, max: int, i: nat, j: nat)
    requires Qualifies(ps, max, i, j)
    requires forall k, p :: 0 <= k < |ps| && p in ps[k].parameters ==> p.NulFree()
    ensures Signature(SharedOf(ps, i, j)) in PlainScan(ps, max)
    ensures multiset(PlainScan(ps, max)[Signature(SharedOf(ps, i, j))].params) == multiset(SharedOf(ps, i, j))
  {
    var s := Signature(SharedOf(ps, i, j));
    assert Makes(ps, max, i, j, s);
    ClumpsOfPairs(ps, max, s);
    var a, b :| Makes(ps, max, a, b, s) && PlainScan(ps, max)[s].params == SharedOf(ps, a, b);
    SignatureUnique(SharedOf(ps, a, b), SharedOf(ps, i, j));
  }

  // ---------- What two functions share, on the parameters themselves ----------

  /** Parameters as Go declares them. */
  ghost predicate AllNulFree(params: seq<Parameter>) { forall p :: p in params ==> p.NulFree() }

  lemma KeyAmong(params: seq<Parameter>, q: Parameter)
    requires AllNulFree(params) && q.NulFree()
    ensures q.Key() in KeysOf(params) <==> q in params
  {
    if q.Key() in KeysOf(params) {
      var p :| p in params && p.Key() == q.Key();
      KeyInjective(p, q);
    }
  }

  lemma {:induction false} SharedInOrder(left: seq<Parameter>, right: seq<Parameter>)
    requires AllNulFree(left) && AllNulFree(right)
    ensures Picked(right, (q: Parameter) => q in left, Shared(KeysOf(left), right))
  {
    var among := (q: Parameter) => q in left;
    if right == [] {
      PickedNone(among);
    } else {
      var init, last := right[..|right| - 1], right[|right| - 1];
      assert right == init + [last];
      SharedInOrder(left, init);
      KeyAmong(left, last);
      PickedSnoc(init, among, Shared(KeysOf(left), init), last);
    }
  }

  /** Two functions make a clump exactly when neither is reported and more than the limit of the later one's
      parameters, each as often as it is declared, are parameters of the earlier one; those are what they share. */
  lemma {:induction false} QualifiesMeans(ps: seq<Profile>, max: int, i: nat, j: nat, shared: seq<Parameter>)
    requires i < |ps| && j < |ps| && AllNulFree(ps[i].parameters) && AllNulFree(ps[j].parameters)
    requires Picked(ps[j].parameters, (q: Parameter) => q in ps[i].parameters, shared)
    ensures SharedOf(ps, i, j) == shared
    ensures Qualifies(ps, max, i, j) <==> i < j && !ps[i].reported && !ps[j].reported && |shared| > max
  {
    var among := (q: Parameter) => q in ps[i].parameters;
    SharedInOrder(ps[i].parameters, ps[j].parameters);
    assert Picked(ps[j].parameters, among, shared) && Picked(ps[j].parameters, among, SharedOf(ps, i, j));
    PickedUnique(ps[j].parameters, among, shared, SharedOf(ps, i, j));
  }

  // ---------- Subsumed clumps ----------

  /** Another clump has strictly more parameters, this one's among them. */
  ghost predicate Covers(clumps: Clumps, o: string, s: string) {
    o in clumps && s in clumps && |clumps[s].params| < |clumps[o].params|
    && KeysOf(clumps[s].params) <= KeysOf(clumps[o].params)
  }

  /** A clump covers another when it lists strictly more parameters, all of the other's among them. */
  lemma CoversMeans(clumps: Clumps, o: string, s: string)
    requires o in clumps && s in clumps && AllNulFree(clumps[o].params) && AllNulFree(clumps[s].params)
    ensures Covers(clumps, o, s) <==>
      |clumps[s].params| < |clumps[o].params| && forall p :: p in clumps[s].params ==> p in clumps[o].params
  {
    forall p | p in clumps[s].params ensures p.Key() in KeysOf(clumps[o].params) <==> p in clumps[o].params {
      KeyAmong(clumps[o].params, p);
    }
  }

  ghost predicate Subsumed(clumps: Clumps, s: string) { exists o :: Covers(clumps, o, s) }

  ghost function Maximal(clumps: Clumps): Clumps { map s | s in clumps && !Subsumed(clumps, s) :: clumps[s] }

  ghost function Larger(clumps: Clumps, s: string): set<string>
    requires s in clumps
  {
    set t | t in clumps && |clumps[t].params| > |clumps[s].params|
  }

  /** A subsumed clump is covered by one that stays, so nothing is lost when the first cover goes. */
  lemma {:induction false} CoveredByMaximal(clumps: Clumps, s: string) returns (o: string)
    requires Subsumed(clumps, s)
    ensures o in Maximal(clumps) && Covers(clumps, o, s)
    decreases if s in clumps then Larger(clumps, s) else {}
  {
    o :| Covers(clumps, o, s);
    if !Subsumed(clumps, o) {
    } else {
      assert o in Larger(clumps, s) && o !in Larger(clumps, o) && Larger(clumps, o) <= Larger(clumps, s);
      var top := CoveredByMaximal(clumps, o);
      o := top;
    }
  }

  ghost predicate Within(current: Clumps, clumps: Clumps) {
    forall s :: s in current ==> s in clumps && current[s] == clumps[s]
  }

  /** Deleting clumps that are not maximal does not change which of the others are. */
  lemma DeletionsDoNotMatter(clumps: Clumps, current: Clumps, s: string)
    requires Within(current, clumps) && Maximal(clumps).Keys <= current.Keys && s in current
    ensures Subsumed(current, s) <==> Subsumed(clumps, s)
  {
    if Subsumed(clumps, s) {
      var o := CoveredByMaximal(clumps, s);
      assert Covers(current, o, s);
    }
    if Subsumed(current, s) {
      var o :| Covers(current, o, s);
      assert Covers(clumps, o, s);
    }
  }

  /** What stays still stands for every clump. */
  lemma KeptRepresents(clumps: Clumps, s: string) returns (o: string)
    requires s in clumps
    ensures o in Maximal(clumps) && KeysOf(clumps[s].params) <= KeysOf(clumps[o].params)
  {
    if Subsumed(clumps, s) { o := CoveredByMaximal(clumps, s); } else { o := s; }
  }

  lemma KeptUncovered(clumps: Clumps, s: string)
    requires s in Maximal(clumps)
    ensures !Subsumed(Maximal(clumps), s)
  {
    DeletionsDoNotMatter(clumps, Maximal(clumps), s);
  }

  /** Pruning again changes nothing. */
  lemma {:induction false} PruneTwice(clumps: Clumps)
    ensures Maximal(Maximal(clumps)) == Maximal(clumps)
  {
    forall s | s in Maximal(clumps) ensures !Subsumed(Maximal(clumps), s) { KeptUncovered(clumps, s); }
  }

  // ---------- The code ----------

  /** The indices below `n` that can be a right-hand partner. */
  predicate Candidate(ps: seq<Profile>, max: int, j: nat)
    requires j < |ps|
  {
    !ps[j].reported && |ps[j].parameters| > max
  }

  /** Functions between candidates add nothing to a row. */
  lemma {:induction false} SkipRow(ps: seq<Profile>, max: int, start: Clumps, i: nat, lo: nat, hi: nat)
    requires i < lo <= hi <= |ps|
    requires ps[i].reported || forall j :: lo <= j < hi ==> !Candidate(ps, max, j)
    ensures Row(ps, max, start, i, hi) == Row(ps, max, start, i, lo)
    decreases hi
  {
    if lo >= hi {
    } else {
      SkipRow(ps, max, start, i, lo, hi - 1);
      assert ps[i].reported || !Candidate(ps, max, hi - 1);
    }
  }

  /** `right` lists the candidates in order. */
  ghost predicate Listing(ps: seq<Profile>, max: int, right: seq<nat>, n: nat) {
    && n <= |ps|
    && (forall k :: 0 <= k < |right| ==> right[k] < n && Candidate(ps, max, right[k]))
    && (forall j :: 0 <= j < n && Candidate(ps, max, j) ==> j in right)
    && (forall k, l :: 0 <= k < l < |right| ==> right[k] < right[l])
  }

  method RightCandidates(ps: seq<Profile>, max: int) returns (right: seq<nat>)
    ensures Listing(ps, max, right, |ps|)
  {
    right := [];
    for index := 0 to |ps|
      invariant Listing(ps, max, right, index)
    {
      if !ps[index].reported && |ps[index].parameters| > max {
        right := right + [index];
      }
    }
  }

  /** sort.SearchInts: the first position whose value is at least `x`. */
  method SearchInts(a: seq<nat>, x: nat) returns (k: nat)
    requires forall u, v :: 0 <= u < v < |a| ==> a[u] < a[v]
    ensures k <= |a|
    ensures forall u :: 0 <= u < k ==> a[u] < x
    ensures forall u :: k <= u < |a| ==> x <= a[u]
  {
    var i, j := 0, |a|;
    while i < j
      invariant 0 <= i <= j <= |a|
      invariant forall u :: 0 <= u < i ==> a[u] < x
      invariant forall u :: j <= u < |a| ==> x <= a[u]
    {
      var h := (i + j) / 2;
      if a[h] < x { i := h + 1; } else { j := h; }
    }
    k := i;
  }

  method ContainsProfile(funcs: seq<nat>, target: nat) returns (found: bool)
    ensures found <==> target in funcs
  {
    for i := 0 to |funcs|
      invariant target !in funcs[..i]
    {
      if funcs[i] == target { return true; }
    }
    return false;
  }

  method AppendMember(funcs: seq<nat>, f: nat) returns (r: seq<nat>)
    ensures r == AddMember(funcs, f)
  {
    var found := ContainsProfile(funcs, f);
    r := if found then funcs else funcs + [f];
  }

  /** Up to the next candidate, or to the end. */
  function Bound(ps: seq<Profile>, right: seq<nat>, k: nat): nat { if k < |right| then right[k] else |ps| }

  lemma NoneBetween(ps: seq<Profile>, max: int, right: seq<nat>, k: nat, j: nat)
    requires Listing(ps, max, right, |ps|) && k <= |right| && j < |ps|
    requires k == 0 || right[k - 1] < j
    requires j < Bound(ps, right, k)
    ensures !Candidate(ps, max, j)
  {
    if Candidate(ps, max, j) {
      var l :| 0 <= l < |right| && right[l] == j;
      assert false;
    }
  }

  lemma {:induction false} SkipToCandidate(ps: seq<Profile>, max: int, start: Clumps, right: seq<nat>, i: nat, j: nat,
                                           k: nat)
    requires Listing(ps, max, right, |ps|) && k <= |right| && i < j <= |ps|
    requires (k == 0 || right[k - 1] < j) && j <= Bound(ps, right, k)
    ensures Row(ps, max, start, i, Bound(ps, right, k)) == Row(ps, max, start, i, j)
  {
    forall l | j <= l < Bound(ps, right, k) ensures !Candidate(ps, max, l) {
      NoneBetween(ps, max, right, k, l);
    }
    SkipRow(ps, max, start, i, j, Bound(ps, right, k));
  }

  /** Between two candidates nothing counts. */
  lemma {:induction false} SkipToNext(ps: seq<Profile>, max: int, start: Clumps, right: seq<nat>, i: nat, k: nat)
    requires Listing(ps, max, right, |ps|) && k < |right| && i < right[k]
    ensures right[k] < |ps| && !ps[right[k]].reported
    ensures Row(ps, max, start, i, Bound(ps, right, k + 1)) == Row(ps, max, start, i, right[k] + 1)
  {
    ListingAt(ps, max, right, k);
    SkipToCandidate(ps, max, start, right, i, right[k] + 1, k + 1);
  }

  /** From one candidate to the next only the pair with the candidate counts. */
  lemma {:induction false} Advance(ps: seq<Profile>, max: int, start: Clumps, right: seq<nat>, i: nat, k: nat)
    requires Listing(ps, max, right, |ps|) && k < |right| && i < right[k]
    ensures right[k] < |ps| && !ps[right[k]].reported
    ensures Row(ps, max, start, i, Bound(ps, right, k + 1))
      == AddPair(ps, max, Row(ps, max, start, i, Bound(ps, right, k)), i, right[k])
  {
    SkipToNext(ps, max, start, right, i, k);
    RowNext(ps, max, start, i, right[k]);
    assert Bound(ps, right, k) == right[k];
  }

  lemma ListingAt(ps: seq<Profile>, max: int, right: seq<nat>, k: nat)
    requires Listing(ps, max, right, |ps|) && k < |right|
    ensures right[k] < |ps| && Candidate(ps, max, right[k]) && right[k] + 1 <= Bound(ps, right, k + 1)
  {
  }

  lemma {:induction false} RowNext(ps: seq<Profile>, max: int, start: Clumps, i: nat, j: nat)
    requires i < j < |ps|
    ensures Row(ps, max, start, i, j + 1) == AddPair(ps, max, Row(ps, max, start, i, j), i, j)
  {
  }

  class ClumpTable {
    var clumps: Clumps

    constructor ()
      ensures clumps == map[]
    {
      clumps := map[];
    }

    method RecordPair(shared: seq<Parameter>, left: nat, right: nat)
      modifies this
      ensures clumps == WithPair(old(clumps), shared, left, right)
    {
      var signature := SignatureOf(shared);
      if signature !in clumps {
        clumps := clumps[signature := Clump(shared, [])];
      }
      var funcs := AppendMember(clumps[signature].funcs, left);
      funcs := AppendMember(funcs, right);
      clumps := clumps[signature := Clump(clumps[signature].params, funcs)];
    }

    /** One left-hand function against the candidates after it: the same as against all functions after it. */
    method BuildRow(ps: seq<Profile>, max: int, right: seq<nat>, i: nat)
      requires i < |ps| && Listing(ps, max, right, |ps|)
      modifies this
      ensures clumps == Row(ps, max, old(clumps), i, |ps|)
    {
      if ps[i].reported {
        SkipRow(ps, max, clumps, i, i + 1, |ps|);
        return;
      }
      var start := SearchInts(right, i + 1);
      ghost var before := clumps;
      SkipToCandidate(ps, max, before, right, i, i + 1, start);
      if start == |right| {
        return;
      }
      var leftKeys := ParameterKeySet(ps[i]);
      for k := start to |right|
        invariant clumps == Row(ps, max, before, i, Bound(ps, right, k))
      {
        MatchNext(ps, max, leftKeys, right, i, k, before);
      }
    }

    method MatchNext(ps: seq<Profile>, max: int, leftKeys: set<string>, right: seq<nat>, i: nat, k: nat,
                     ghost before: Clumps)
      requires Listing(ps, max, right, |ps|) && k < |right| && i < right[k] && i < |ps| && !ps[i].reported
      requires leftKeys == KeysOf(ps[i].parameters) && clumps == Row(ps, max, before, i, Bound(ps, right, k))
      modifies this
      ensures clumps == Row(ps, max, before, i, Bound(ps, right, k + 1))
    {
      Advance(ps, max, before, right, i, k);
      MatchOne(ps, max, leftKeys, i, right[k]);
    }

    method MatchOne(ps: seq<Profile>, max: int, leftKeys: set<string>, i: nat, j: nat)
      requires i < j < |ps| && leftKeys == KeysOf(ps[i].parameters)
      requires !ps[i].reported && !ps[j].reported
      modifies this
      ensures clumps == AddPair(ps, max, old(clumps), i, j)
    {
      var shared := SharedParameters(leftKeys, ps[j]);
      if |shared| > max {
        RecordPair(shared, i, j);
      }
    }

    /** The scan over candidates gives the clumps of the plain scan over all pairs, members in the same order. */
    method BuildParameterClumps(ps: seq<Profile>, max: int)
      requires clumps == map[]
      modifies this
      ensures clumps == PlainScan(ps, max)
    {
      var right := RightCandidates(ps, max);
      for i := 0 to |ps|
        invariant clumps == Rows(ps, max, i)
      {
        BuildRow(ps, max, right, i);
      }
    }

    /** Is a larger clump in the table now? The table is ranged over in any order. */
    method CoveredNow(signature: string) returns (covered: bool)
      requires signature in clumps
      ensures covered <==> Subsumed(clumps, signature)
    {
      var others := clumps.Keys;
      while others != {}
        invariant others <= clumps.Keys
        invariant forall o :: o in clumps && o !in others ==> !Covers(clumps, o, signature)
        decreases |others|
      {
        var other :| other in others;
        others := others - {other};
        if signature != other && |clumps[signature].params| < |clumps[other].params| {
          var contains := ParameterSetContains(clumps[other].params, clumps[signature].params);
          if contains {
            assert Covers(clumps, other, signature);
            return true;
          }
        }
      }
      return false;
    }

    /** Deleting while ranging, in any order, leaves exactly the clumps without a larger one around them. */
    method PruneSubsumedClumps()
      modifies this
      ensures clumps == Maximal(old(clumps))
    {
      ghost var all := clumps;
      var todo := clumps.Keys;
      while todo != {}
        invariant todo <= clumps.Keys && Within(clumps, all) && Maximal(all).Keys <= clumps.Keys
        invariant forall s :: s in clumps && s !in todo ==> !Subsumed(all, s)
        decreases |todo|
      {
        var signature :| signature in todo;
        todo := todo - {signature};
        var covered := CoveredNow(signature);
        DeletionsDoNotMatter(all, clumps, signature);
        if covered {
          clumps := clumps - {signature};
        }
      }
    }
  }

  /** The clumps reported: those of the plain scan that no larger one covers. */
  method ParameterDataClumps(ps: seq<Profile>, max: int) returns (clumps: Clumps)
    ensures clumps == Maximal(PlainScan(ps, max))
  {
    var table := new ClumpTable();
    table.BuildParameterClumps(ps, max);
    table.PruneSubsumedClumps();
    clumps := table.clumps;
  }
}
