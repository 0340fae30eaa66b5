/** The spelling suggestion for unknown configuration fields: two-row edit distance over bytes and
    the nearest known name. */
module EditDistance {
  import Text

  // ---------- Edit scripts: what a distance means ----------

  datatype Edit =
    | Insert(at: nat, c: char)
    | Delete(at: nat)
    | Substitute(at: nat, c: char)

  predicate Fits(s: string, e: Edit) {
    match e
    case Insert(at, _) => at <= |s|
    case Delete(at) => at < |s|
    case Substitute(at, _) => at < |s|
  }

  function Apply(s: string, e: Edit): string
    requires Fits(s, e)
  {
    match e
    case Insert(at, c) => s[..at] + [c] + s[at..]
    case Delete(at) => s[..at] + s[at + 1..]
    case Substitute(at, c) => s[..at] + [c] + s[at + 1..]
  }

  /** Applying the edits one after the other turns `a` into `b`. */
  predicate Leads(a: string, script: seq<Edit>, b: string)
    decreases |script|
  {
    if script == [] then a == b else Fits(a, script[0]) && Leads(Apply(a, script[0]), script[1..], b)
  }

  lemma {:induction false} LeadsConcat(a: string, s: seq<Edit>, b: string, t: seq<Edit>, c: string)
    requires Leads(a, s, b) && Leads(b, t, c)
    ensures Leads(a, s + t, c)
    decreases |s|
  {
    if s == [] {
      assert s + t == t;
    } else {
      assert (s + t)[1..] == s[1..] + t;
      LeadsConcat(Apply(a, s[0]), s[1..], b, t, c);
    }
  }

  lemma ApplyBefore(a: string, e: Edit, end: string)
    requires Fits(a, e)
    ensures Fits(a + end, e) && Apply(a + end, e) == Apply(a, e) + end
  {
    match e
    case Insert(at, c) =>
      assert (a + end)[..at] == a[..at] && (a + end)[at..] == a[at..] + end;
    case Delete(at) =>
      assert (a + end)[..at] == a[..at] && (a + end)[at + 1..] == a[at + 1..] + end;
    case Substitute(at, c) =>
      assert (a + end)[..at] == a[..at] && (a + end)[at + 1..] == a[at + 1..] + end;
  }

  lemma LeadsThen(a: string, s: seq<Edit>, m: string, e: Edit)
    requires Leads(a, s, m) && Fits(m, e)
    ensures Leads(a, s + [e], Apply(m, e))
  {
    assert [e][1..] == [];
    assert Leads(Apply(m, e), [e][1..], Apply(m, e));
    assert Leads(m, [e], Apply(m, e));
    LeadsConcat(a, s, m, [e], Apply(m, e));
  }

  /** A script also works on a longer text and leaves the added end alone. */
  lemma {:induction false} LeadsBefore(a: string, s: seq<Edit>, b: string, end: string)
    requires Leads(a, s, b)
    ensures Leads(a + end, s, b + end)
    decreases |s|
  {
    if s == [] {
    } else {
      ApplyBefore(a, s[0], end);
      LeadsBefore(Apply(a, s[0]), s[1..], b, end);
    }
  }

  lemma UndoInsert(a: string, at: nat, c: char)
    requires at <= |a|
    ensures Apply(Apply(a, Insert(at, c)), Delete(at)) == a
  {
    var b := Apply(a, Insert(at, c));
    assert b[..at] == a[..at] && b[at + 1..] == a[at..];
  }

  lemma UndoDelete(a: string, at: nat)
    requires at < |a|
    ensures Apply(Apply(a, Delete(at)), Insert(at, a[at])) == a
  {
    var b := Apply(a, Delete(at));
    assert b[..at] == a[..at] && b[at..] == a[at + 1..];
  }

  lemma UndoSubstitute(a: string, at: nat, c: char)
    requires at < |a|
    ensures Apply(Apply(a, Substitute(at, c)), Substitute(at, a[at])) == a
  {
    var b := Apply(a, Substitute(at, c));
    assert b[..at] == a[..at] && b[at + 1..] == a[at + 1..];
  }

  /** Each edit can be taken back by one edit. */
  lemma Undo(a: string, e: Edit) returns (back: Edit)
    requires Fits(a, e)
    ensures Fits(Apply(a, e), back) && Apply(Apply(a, e), back) == a
  {
    match e
    case Insert(at, c) =>
      UndoInsert(a, at, c);
      back := Delete(at);
    case Delete(at) =>
      UndoDelete(a, at);
      back := Insert(at, a[at]);
    case Substitute(at, c) =>
      UndoSubstitute(a, at, c);
      back := Substitute(at, a[at]);
  }

  lemma {:induction false} ReverseScript(a: string, s: seq<Edit>, b: string) returns (back: seq<Edit>)
    requires Leads(a, s, b)
    ensures Leads(b, back, a) && |back| == |s|
    decreases |s|
  {
    if s == [] {
      back := [];
    } else {
      var rest := ReverseScript(Apply(a, s[0]), s[1..], b);
      var last := Undo(a, s[0]);
      assert Leads(Apply(a, s[0]), [last], a);
      LeadsConcat(b, rest, Apply(a, s[0]), [last], a);
      back := rest + [last];
    }
  }

  // ---------- The recurrence behind the two rows ----------

  function Init(s: string): string
    requires s != []
  { s[..|s| - 1] }

  function Last(s: string): char
    requires s != []
  { s[|s| - 1] }

  function Min(a: nat, b: nat): nat { if a < b then a else b }

  function Cost(a: char, b: char): nat { if a == b then 0 else 1 }

  function Dist(a: string, b: string): nat
    decreases |a| + |b|
  {
    if a == [] then |b|
    else if b == [] then |a|
    else Min(Min(Dist(a, Init(b)) + 1, Dist(Init(a), b) + 1), Dist(Init(a), Init(b)) + Cost(Last(a), Last(b)))
  }

  lemma {:induction false} DistSelf(a: string)
    ensures Dist(a, a) == 0
  {
    if a == [] {
    } else {
      DistSelf(Init(a));
    }
  }

  lemma Snoc(p: string, c: char)
    ensures p + [c] != [] && Init(p + [c]) == p && Last(p + [c]) == c
  {
  }

  /** Adding or removing the last byte changes the distance by at most one. */
  lemma {:induction false} LastByte(p: string, c: char, b: string)
    ensures Dist(p + [c], b) <= Dist(p, b) + 1
    ensures Dist(p, b) <= Dist(p + [c], b) + 1
    decreases |b|
  {
    Snoc(p, c);
    if b == [] {
    } else {
      LastByte(p, c, Init(b));
      assert Dist(p, b) <= Dist(p, Init(b)) + 1;
    }
  }

  /** So does adding or removing a byte anywhere. */
  lemma {:induction false} AnyByte(p: string, c: char, s: string, b: string)
    ensures Dist(p + [c] + s, b) <= Dist(p + s, b) + 1
    ensures Dist(p + s, b) <= Dist(p + [c] + s, b) + 1
    decreases |s| + |b|
  {
    if s == [] {
      assert p + [c] + s == p + [c] && p + s == p;
      LastByte(p, c, b);
    } else {
      var x, y := p + [c] + Init(s), p + Init(s);
      assert p + [c] + s == x + [Last(s)] && p + s == y + [Last(s)];
      Snoc(x, Last(s));
      Snoc(y, Last(s));
      if b != [] {
        AnyByte(p, c, Init(s), b);
        AnyByte(p, c, s, Init(b));
        AnyByte(p, c, Init(s), Init(b));
      }
    }
  }

  /** So does replacing a byte. */
  lemma {:induction false} OtherByte(p: string, c: char, d: char, s: string, b: string)
    ensures Dist(p + [c] + s, b) <= Dist(p + [d] + s, b) + 1
    decreases |s| + |b|
  {
    if s == [] {
      assert p + [c] + s == p + [c] && p + [d] + s == p + [d];
      Snoc(p, c);
      Snoc(p, d);
      if b != [] { OtherByte(p, c, d, s, Init(b)); }
    } else {
      var x, y := p + [c] + Init(s), p + [d] + Init(s);
      assert p + [c] + s == x + [Last(s)] && p + [d] + s == y + [Last(s)];
      Snoc(x, Last(s));
      Snoc(y, Last(s));
      if b != [] {
        OtherByte(p, c, d, Init(s), b);
        OtherByte(p, c, d, s, Init(b));
        OtherByte(p, c, d, Init(s), Init(b));
      }
    }
  }

  lemma OneEdit(a: string, e: Edit, b: string)
    requires Fits(a, e)
    ensures Dist(a, b) <= Dist(Apply(a, e), b) + 1
  {
    match e
    case Insert(at, c) =>
      assert a == a[..at] + a[at..];
      AnyByte(a[..at], c, a[at..], b);
    case Delete(at) =>
      assert a == a[..at] + [a[at]] + a[at + 1..];
      AnyByte(a[..at], a[at], a[at + 1..], b);
    case Substitute(at, c) =>
      assert a == a[..at] + [a[at]] + a[at + 1..];
      OtherByte(a[..at], a[at], c, a[at + 1..], b);
  }

  /** No script is shorter than the distance. */
  lemma {:induction false} NoShorterScript(a: string, script: seq<Edit>, b: string)
    requires Leads(a, script, b)
    ensures Dist(a, b) <= |script|
    decreases |script|
  {
    if script == [] {
      DistSelf(a);
    } else {
      NoShorterScript(Apply(a, script[0]), script[1..], b);
      OneEdit(a, script[0], b);
    }
  }

  /** Some script is exactly as long as the distance. */
  lemma {:induction false} ShortestScript(a: string, b: string) returns (script: seq<Edit>)
    ensures Leads(a, script, b) && |script| == Dist(a, b)
    decreases |a| + |b|
  {
    if a == [] && b == [] {
      script := [];
    } else if a == [] || (b != [] && Dist(a, b) == Dist(a, Init(b)) + 1) {
      var before := ShortestScript(a, Init(b));
      script := LeadsThenInsert(a, before, b);
    } else if b == [] || Dist(a, b) == Dist(Init(a), b) + 1 {
      var after := ShortestScript(Init(a), b);
      script := LeadsAfterDelete(a, after, b);
    } else {
      var before := ShortestScript(Init(a), Init(b));
      script := LeadsWithLast(a, before, b);
    }
  }

  lemma InsertLast(p: string, c: char)
    ensures Apply(p, Insert(|p|, c)) == p + [c]
  {
    assert p[..|p|] == p && p[|p|..] == [];
  }

  lemma SubstituteLast(p: string, c: char, d: char)
    ensures Apply(p + [c], Substitute(|p|, d)) == p + [d]
  {
    assert (p + [c])[..|p|] == p && (p + [c])[|p| + 1..] == [];
  }

  lemma InitLast(s: string)
    requires s != []
    ensures Init(s) + [Last(s)] == s
  {
  }

  lemma {:induction false} LeadsThenInsert(a: string, before: seq<Edit>, b: string) returns (script: seq<Edit>)
    requires b != [] && Leads(a, before, Init(b))
    ensures Leads(a, script, b) && |script| == |before| + 1
  {
    InsertLast(Init(b), Last(b));
    InitLast(b);
    LeadsThen(a, before, Init(b), Insert(|Init(b)|, Last(b)));
    script := before + [Insert(|Init(b)|, Last(b))];
  }

  lemma {:induction false} LeadsAfterDelete(a: string, after: seq<Edit>, b: string) returns (script: seq<Edit>)
    requires a != [] && Leads(Init(a), after, b)
    ensures Leads(a, script, b) && |script| == |after| + 1
  {
    var e := Delete(|a| - 1);
    assert Apply(a, e) == Init(a);
    script := [e] + after;
    assert script[1..] == after;
  }

  lemma {:induction false} LeadsWithLast(a: string, before: seq<Edit>, b: string) returns (script: seq<Edit>)
    requires a != [] && b != [] && Leads(Init(a), before, Init(b))
    ensures Leads(a, script, b) && |script| == |before| + Cost(Last(a), Last(b))
  {
    LeadsBefore(Init(a), before, Init(b), [Last(a)]);
    InitLast(a);
    InitLast(b);
    if Last(a) == Last(b) {
      script := before;
    } else {
      script := LeadsThenSubstitute(a, before, Init(b), Last(a), Last(b));
    }
  }

  lemma {:induction false} LeadsThenSubstitute(a: string, before: seq<Edit>, p: string, c: char,
                                               d: char)
    returns (script: seq<Edit>)
    requires Leads(a, before, p + [c])
    ensures Leads(a, script, p + [d]) && |script| == |before| + 1
  {
    SubstituteLast(p, c, d);
    LeadsThen(a, before, p + [c], Substitute(|p|, d));
    script := before + [Substitute(|p|, d)];
  }

  /** The distance is a metric on byte strings. */
  lemma {:induction false} Metric(a: string, b: string, c: string)
    ensures Dist(a, b) == 0 <==> a == b
    ensures Dist(a, b) == Dist(b, a)
    ensures Dist(a, c) <= Dist(a, b) + Dist(b, c)
  {
    var ab := ShortestScript(a, b);
    DistSelf(a);
    var back := ReverseScript(a, ab, b);
    NoShorterScript(b, back, a);
    var ba := ShortestScript(b, a);
    var forth := ReverseScript(b, ba, a);
    NoShorterScript(a, forth, b);
    var bc := ShortestScript(b, c);
    LeadsConcat(a, ab, b, bc, c);
    NoShorterScript(a, ab + bc, c);
  }

  // ---------- The two-row algorithm ----------

  method Compute(left: string, right: string) returns (distance: nat)
    ensures distance == Dist(left, right)
  {
    if left == right {
      DistSelf(left);
      return 0;
    }
    if |left| == 0 {
      return |right|;
    }
    if |right| == 0 {
      return |left|;
    }
    var previous := new nat[|right| + 1](i => i);
    var current := new nat[|right| + 1](i => 0);
    assert left[..0] == [];
    for i := 1 to |left| + 1
      invariant previous[..] == Row(left[..i - 1], right)
    {
      RowRecurrence(left, right, i);
      FillRow(left[i - 1], right, i, previous, current, Row(left[..i], right));
      forall k | 0 <= k < previous.Length {
        previous[k] := current[k];
      }
      assert previous[..] == current[..];
    }
    assert left[..|left|] == left && right[..|right|] == right;
    assert previous[|right|] == previous[..][|right|];
    return previous[|right|];
  }

  /** A row of the table: the distances from one prefix to every prefix of `right`. */
  ghost function Row(prefix: string, right: string): seq<nat> {
    seq(|right| + 1, j requires 0 <= j <= |right| => Dist(prefix, right[..j]))
  }

  /** `row` follows from the row above it when one byte `c` is added to the prefix. */
  ghost predicate Follows(row: seq<nat>, above: seq<nat>, c: char, right: string, i: nat) {
    && |row| == |above| == |right| + 1
    && row[0] == i
    && (forall j {:trigger row[j]} :: 1 <= j <= |right| ==> CellFollows(row, above, c, right, j))
  }

  ghost predicate CellFollows(row: seq<nat>, above: seq<nat>, c: char, right: string, j: nat)
    requires |row| == |above| == |right| + 1 && 1 <= j <= |right|
  {
    row[j] == Min(Min(row[j - 1] + 1, above[j] + 1), above[j - 1] + Cost(c, right[j - 1]))
  }

  lemma {:induction false} RowCell(left: string, right: string, i: nat, j: nat)
    requires 1 <= i <= |left| && 1 <= j <= |right|
    ensures CellFollows(Row(left[..i], right), Row(left[..i - 1], right), left[i - 1], right, j)
  {
    CellFromNeighbours(left, right, i, j);
  }

  lemma {:induction false} RowRecurrence(left: string, right: string, i: nat)
    requires 1 <= i <= |left|
    ensures Follows(Row(left[..i], right), Row(left[..i - 1], right), left[i - 1], right, i)
  {
    assert right[..0] == [];
    var row, above, c := Row(left[..i], right), Row(left[..i - 1], right), left[i - 1];
    forall j: nat | 1 <= j <= |right| ensures CellFollows(row, above, c, right, j) {
      RowCell(left, right, i, j);
    }
  }

  /** One pass of the inner loop computes the next row. */
  method FillRow(c: char, right: string, i: nat, previous: array<nat>, current: array<nat>, ghost row: seq<nat>)
    requires previous != current && current.Length == |right| + 1
    requires Follows(row, previous[..], c, right, i)
    modifies current
    ensures current[..] == row
  {
    current[0] := i;
    for j := 1 to |right| + 1
      invariant forall k :: 0 <= k < j ==> current[k] == row[k]
    {
      assert CellFollows(row, previous[..], c, right, j);
      var cost := 1;
      if c == right[j - 1] {
        cost := 0;
      }
      current[j] := Min(Min(current[j - 1] + 1, previous[j] + 1), previous[j - 1] + cost);
    }
  }

  lemma PrefixEnd(s: string, i: nat)
    requires 1 <= i <= |s|
    ensures s[..i] != [] && Init(s[..i]) == s[..i - 1] && Last(s[..i]) == s[i - 1]
  {
  }

  lemma {:induction false} DistStep(a: string, b: string)
    requires a != [] && b != []
    ensures Dist(a, b)
            == Min(Min(Dist(a, Init(b)) + 1, Dist(Init(a), b) + 1), Dist(Init(a), Init(b)) + Cost(Last(a), Last(b)))
  {
  }

  lemma {:induction false} CellFromNeighbours(left: string, right: string, i: nat, j: nat)
    requires 1 <= i <= |left| && 1 <= j <= |right|
    ensures Dist(left[..i], right[..j])
            == Min(Min(Dist(left[..i], right[..j - 1]) + 1, Dist(left[..i - 1], right[..j]) + 1),
                   Dist(left[..i - 1], right[..j - 1]) + Cost(left[i - 1], right[j - 1]))
  {
    PrefixEnd(left, i);
    PrefixEnd(right, j);
    DistStep(left[..i], right[..j]);
  }

  // ---------- The nearest known field ----------

  function Underscored(s: string): string {
    seq(|s|, i requires 0 <= i < |s| => if s[i] == '-' then '_' else s[i])
  }

  predicate SameBarHyphens(c: char, d: char) { c == d || (c == '-' && d == '_') || (c == '_' && d == '-') }

  /** Names that differ only in hyphens for underscores count as one. */
  lemma UnderscoredMeans(a: string, b: string)
    ensures Underscored(a) == Underscored(b) <==>
      |a| == |b| && forall i :: 0 <= i < |a| ==> SameBarHyphens(a[i], b[i])
  {
    if Underscored(a) == Underscored(b) {
      assert |a| == |Underscored(a)| == |Underscored(b)| == |b|;
      forall i | 0 <= i < |a| ensures SameBarHyphens(a[i], b[i]) {
        assert Underscored(a)[i] == Underscored(b)[i];
      }
    }
  }

  /** `k` is the first candidate at the least distance, and that distance is below `limit`. */
  ghost predicate FirstNearest(query: string, names: seq<string>, limit: nat, k: nat) {
    && k < |names|
    && Dist(query, names[k]) < limit
    && (forall m :: 0 <= m < |names| ==> Dist(query, names[k]) <= Dist(query, names[m]))
    && (forall m :: 0 <= m < k ==> Dist(query, names[k]) < Dist(query, names[m]))
  }

  ghost function Normalized(lower: string -> string, known: seq<string>): seq<string> {
    seq(|known|, i requires 0 <= i < |known| => lower(Underscored(known[i])))
  }

  /** Among the first `n` names, `k` is the first at the least distance `best`, or none is below 3. */
  ghost predicate NearestSoFar(query: string, names: seq<string>, n: nat, best: nat, k: nat) {
    && n <= |names| && best <= 3
    && (best < 3 ==> k < n && Dist(query, names[k]) == best)
    && (forall m :: 0 <= m < n ==> best <= Dist(query, names[m]))
    && (best < 3 ==> forall m :: 0 <= m < k ==> best < Dist(query, names[m]))
  }

  lemma NearestNext(query: string, names: seq<string>, n: nat, best: nat, k: nat)
    requires NearestSoFar(query, names, n, best, k) && n < |names|
    ensures var d := Dist(query, names[n]);
      NearestSoFar(query, names, n + 1, if d < best then d else best, if d < best then n else k)
  {
  }

  lemma NearestIff(query: string, names: seq<string>, best: nat, k: nat)
    requires NearestSoFar(query, names, |names|, best, k)
    ensures best < 3 <==> exists m :: 0 <= m < |names| && Dist(query, names[m]) <= 2
    ensures best < 3 ==> FirstNearest(query, names, 3, k)
  {
  }

  /** The first known name of minimal normalised distance, if the input is not blank and some name is
      within two edits; otherwise the empty string. */
  method NearestKnownField(lower: string -> string, input: string, known: seq<string>) returns (best: string)
    ensures var query := lower(Underscored(Text.TrimSpace(input)));
      var names := Normalized(lower, known);
      if query != "" && exists k :: 0 <= k < |names| && Dist(query, names[k]) <= 2
      then exists k: nat :: FirstNearest(query, names, 3, k) && best == known[k]
      else best == ""
  {
    var normalized := lower(Underscored(Text.TrimSpace(input)));
    if normalized == "" {
      return "";
    }
    best := "";
    var bestDistance := 3;
    ghost var names := Normalized(lower, known);
    ghost var nearest := 0;
    for i := 0 to |known|
      invariant NearestSoFar(normalized, names, i, bestDistance, nearest)
      invariant best == if bestDistance < 3 then known[nearest] else ""
    {
      NearestNext(normalized, names, i, bestDistance, nearest);
      var candidate := lower(Underscored(known[i]));
      var distance := Compute(normalized, candidate);
      if distance < bestDistance {
        bestDistance := distance;
        best := known[i];
        nearest := i;
      }
    }
    NearestIff(normalized, names, bestDistance, nearest);
  }
}
