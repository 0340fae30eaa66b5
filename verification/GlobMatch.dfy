/** Exclusion patterns: a backtracking matcher over path segments in which "**" stands for any run of
    segments, and the textual shortcut for patterns that end in a slash followed by "**". */
module GlobMatch {
  import Text

  /** filepath.Match on one segment, errors counted as no match. */
  type SegmentMatch = (string, string) -> bool

  const ANY := "**"

  // ---------- What a pattern means ----------

  function Concat(chunks: seq<seq<string>>): seq<string> {
    if chunks == [] then [] else chunks[0] + Concat(chunks[1..])
  }

  /** Part by part, a chunk of the value: any run for "**", one matching segment otherwise. */
  ghost predicate Tiles(m: SegmentMatch, pattern: seq<string>, chunks: seq<seq<string>>) {
    && |chunks| == |pattern|
    && forall i :: 0 <= i < |pattern| ==> pattern[i] == ANY || (|chunks[i]| == 1 && m(pattern[i], chunks[i][0]))
  }

  ghost predicate Matches(m: SegmentMatch, pattern: seq<string>, value: seq<string>) {
    exists chunks :: Tiles(m, pattern, chunks) && Concat(chunks) == value
  }

  lemma MatchesEmpty(m: SegmentMatch, value: seq<string>)
    ensures Matches(m, [], value) <==> value == []
  {
    var none: seq<seq<string>> := [];
    assert Tiles(m, [], none) && Concat(none) == [];
  }

  lemma MatchesAny(m: SegmentMatch, pattern: seq<string>, value: seq<string>)
    requires pattern != [] && pattern[0] == ANY
    ensures Matches(m, pattern, value) <==> exists k :: 0 <= k <= |value| && Matches(m, pattern[1..], value[k..])
  {
    if Matches(m, pattern, value) {
      var chunks :| Tiles(m, pattern, chunks) && Concat(chunks) == value;
      assert Tiles(m, pattern[1..], chunks[1..]);
      assert value[|chunks[0]|..] == Concat(chunks[1..]);
      assert Matches(m, pattern[1..], value[|chunks[0]|..]);
    }
    if k :| 0 <= k <= |value| && Matches(m, pattern[1..], value[k..]) {
      var rest :| Tiles(m, pattern[1..], rest) && Concat(rest) == value[k..];
      var chunks := [value[..k]] + rest;
      assert chunks[1..] == rest;
      assert forall i :: 1 <= i < |pattern| ==> pattern[i] == pattern[1..][i - 1] && chunks[i] == rest[i - 1];
      assert Tiles(m, pattern, chunks);
      assert Concat(chunks) == value;
    }
  }

  lemma MatchesSegment(m: SegmentMatch, pattern: seq<string>, value: seq<string>)
    requires pattern != [] && pattern[0] != ANY
    ensures Matches(m, pattern, value) <==>
      value != [] && m(pattern[0], value[0]) && Matches(m, pattern[1..], value[1..])
  {
    if Matches(m, pattern, value) {
      var chunks :| Tiles(m, pattern, chunks) && Concat(chunks) == value;
      assert Tiles(m, pattern[1..], chunks[1..]);
      assert value[0] == chunks[0][0] && value[1..] == Concat(chunks[1..]);
    }
    if value != [] && m(pattern[0], value[0]) && Matches(m, pattern[1..], value[1..]) {
      var rest :| Tiles(m, pattern[1..], rest) && Concat(rest) == value[1..];
      var chunks := [[value[0]]] + rest;
      assert chunks[1..] == rest;
      assert forall i :: 1 <= i < |pattern| ==> pattern[i] == pattern[1..][i - 1] && chunks[i] == rest[i - 1];
      assert Tiles(m, pattern, chunks);
      assert Concat(chunks) == value;
    }
  }

  // ---------- The backtracking matcher ----------

  /** The pattern from part `p` on matches the value from segment `v` on. */
  ghost predicate MatchesFrom(m: SegmentMatch, pattern: seq<string>, value: seq<string>, p: nat, v: nat)
    requires p <= |pattern| && v <= |value|
  {
    Matches(m, pattern[p..], value[v..])
  }

  /** ... or from some segment after `v` on. */
  ghost predicate MatchesLater(m: SegmentMatch, pattern: seq<string>, value: seq<string>, p: nat, v: nat)
    requires p <= |pattern|
  {
    exists k :: v <= k <= |value| && MatchesFrom(m, pattern, value, p, k)
  }

  lemma FromEnd(m: SegmentMatch, pattern: seq<string>, value: seq<string>, v: nat)
    requires v <= |value|
    ensures MatchesFrom(m, pattern, value, |pattern|, v) <==> v == |value|
  {
    assert pattern[|pattern|..] == [];
    MatchesEmpty(m, value[v..]);
  }

  lemma FromAny(m: SegmentMatch, pattern: seq<string>, value: seq<string>, p: nat, v: nat)
    requires p < |pattern| && v <= |value| && pattern[p] == ANY
    ensures MatchesFrom(m, pattern, value, p, v) <==> MatchesLater(m, pattern, value, p + 1, v)
  {
    var part, rest := pattern[p..], value[v..];
    assert part[1..] == pattern[p + 1..];
    MatchesAny(m, part, rest);
    if k :| 0 <= k <= |rest| && Matches(m, part[1..], rest[k..]) {
      assert rest[k..] == value[v + k..];
      assert MatchesFrom(m, pattern, value, p + 1, v + k);
    }
    if MatchesLater(m, pattern, value, p + 1, v) {
      var q := p + 1;
      var k :| v <= k <= |value| && MatchesFrom(m, pattern, value, q, k);
      assert rest[k - v..] == value[k..];
    }
  }

  lemma FromSegment(m: SegmentMatch, pattern: seq<string>, value: seq<string>, p: nat, v: nat)
    requires p < |pattern| && v <= |value| && pattern[p] != ANY
    ensures MatchesFrom(m, pattern, value, p, v) <==>
      v < |value| && m(pattern[p], value[v]) && MatchesFrom(m, pattern, value, p + 1, v + 1)
  {
    assert pattern[p..][1..] == pattern[p + 1..];
    if v < |value| { assert value[v..][1..] == value[v + 1..]; }
    MatchesSegment(m, pattern[p..], value[v..]);
  }

  /** Walks plain parts in a loop and recurses only at "**". */
  method Match(m: SegmentMatch, pattern: seq<string>, value: seq<string>, pi: nat, vi: nat) returns (matched: bool)
    requires pi <= |pattern| && vi <= |value|
    ensures matched == MatchesFrom(m, pattern, value, pi, vi)
    decreases |pattern| - pi
  {
    var p, v := pi, vi;
    while p < |pattern|
      invariant pi <= p <= |pattern| && vi <= v <= |value|
      invariant MatchesFrom(m, pattern, value, pi, vi) == MatchesFrom(m, pattern, value, p, v)
    {
      var part := pattern[p];
      if part == ANY {
        FromAny(m, pattern, value, p, v);
        if p == |pattern| - 1 {
          FromEnd(m, pattern, value, |value|);
          return true;
        }
        var rest := p + 1;
        for next := v to |value| + 1
          invariant forall k :: v <= k < next ==> !MatchesFrom(m, pattern, value, rest, k)
        {
          var found := Match(m, pattern, value, rest, next);
          if found {
            return true;
          }
        }
        return false;
      }
      FromSegment(m, pattern, value, p, v);
      if v >= |value| {
        return false;
      }
      if !m(part, value[v]) {
        return false;
      }
      p := p + 1;
      v := v + 1;
    }
    FromEnd(m, pattern, value, v);
    return v == |value|;
  }

  predicate IsSlash(c: char) { c == '/' }

  function Trimmed(s: string): string { Text.Trim(s, IsSlash) }

  function Parts(s: string): (parts: seq<string>)
    ensures parts != []
  { Text.Split(Trimmed(s), '/') }

  /** The trimmed texts are equal, or the pattern matches the value from some segment on. */
  ghost predicate DoublestarMatches(m: SegmentMatch, pattern: string, value: string) {
    || Trimmed(pattern) == Trimmed(value)
    || exists i :: 0 <= i < |Parts(value)| && Matches(m, Parts(pattern), Parts(value)[i..])
  }

  method DoublestarMatch(m: SegmentMatch, pattern: string, value: string) returns (matched: bool)
    ensures matched == DoublestarMatches(m, pattern, value)
  {
    if Trimmed(pattern) == Trimmed(value) {
      return true;
    }
    var patternParts, valueParts := Parts(pattern), Parts(value);
    assert patternParts[0..] == patternParts && valueParts[0..] == valueParts;
    matched := Match(m, patternParts, valueParts, 0, 0);
    if matched {
      return true;
    }
    for index := 1 to |valueParts|
      invariant forall i :: 0 <= i < index ==> !Matches(m, patternParts, valueParts[i..])
    {
      var found := Match(m, patternParts, valueParts, 0, index);
      if found {
        return true;
      }
    }
    return false;
  }

  // ---------- Excluding paths ----------

  const TAIL := "/**"

  function DirPrefix(pattern: string): string
    requires Text.HasSuffix(pattern, TAIL)
  { pattern[..|pattern| - |TAIL|] }

  /** The shortcut: the path is the directory, lies below it, or holds it between slashes. */
  ghost predicate PathMatchesDirPrefix(path: string, prefix: string) {
    var dir := Trimmed(prefix);
    dir != "" && (path == dir || Text.HasPrefix(path, dir + "/") || Text.Contains(path, "/" + dir + "/"))
  }

  ghost predicate ExcludedBy(m: SegmentMatch, path: string, raw: string) {
    var pattern := Text.TrimSpace(raw);
    pattern != "" &&
    ((Text.HasSuffix(pattern, TAIL) && PathMatchesDirPrefix(path, DirPrefix(pattern))) ||
      DoublestarMatches(m, pattern, path))
  }

  method FindText(s: string, part: string) returns (found: bool)
    ensures found == Text.Contains(s, part)
  {
    var i := 0;
    while i + |part| <= |s|
      invariant forall k :: 0 <= k < i ==> !Text.OccursAt(s, part, k)
    {
      if s[i..i + |part|] == part {
        assert Text.OccursAt(s, part, i);
        return true;
      }
      i := i + 1;
    }
    return false;
  }

  method Excluded(m: SegmentMatch, path: string, patterns: seq<string>) returns (excluded: bool)
    ensures excluded <==> exists i :: 0 <= i < |patterns| && ExcludedBy(m, path, patterns[i])
  {
    for i := 0 to |patterns|
      invariant forall k :: 0 <= k < i ==> !ExcludedBy(m, path, patterns[k])
    {
      var pattern := Text.TrimSpace(patterns[i]);
      if pattern == "" {
        continue;
      }
      if Text.HasSuffix(pattern, TAIL) {
        var dir := Trimmed(DirPrefix(pattern));
        var inside := FindText(path, "/" + dir + "/");
        if dir != "" && (path == dir || Text.HasPrefix(path, dir + "/") || inside) {
          assert ExcludedBy(m, path, patterns[i]);
          return true;
        }
      }
      var matched := DoublestarMatch(m, pattern, path);
      if matched {
        assert ExcludedBy(m, path, patterns[i]);
        return true;
      }
    }
    return false;
  }

  // ---------- The shortcut against the matcher ----------

  lemma SplitAppendPlain(a: string, b: string)
    requires '/' !in a
    ensures Text.Split(a + "/" + b, '/') == Text.Split(a, '/') + Text.Split(b, '/')
  {
    Text.SplitCons(a, b, '/');
    Text.SplitWhole(a, '/');
    assert a + "/" + b == a + ['/'] + b;
  }

  lemma {:induction false} SplitAppend(a: string, b: string)
    ensures Text.Split(a + "/" + b, '/') == Text.Split(a, '/') + Text.Split(b, '/')
    decreases |a|
  {
    if '/' !in a {
      SplitAppendPlain(a, b);
    } else {
      var head, rest := CutAtSlash(a);
      SplitAppend(rest, b);
      SplitAppendStep(head, rest, rest + "/" + b, Text.Split(b, '/'));
      Reassociate(a, head, rest, b);
    }
  }

  lemma Reassociate(a: string, head: string, rest: string, b: string)
    requires a == head + ['/'] + rest
    ensures a + "/" + b == head + ['/'] + (rest + "/" + b)
  {
  }

  lemma {:induction false} CutAtSlash(a: string) returns (head: string, rest: string)
    requires '/' in a
    ensures a == head + ['/'] + rest && '/' !in head
  {
    var i := Text.IndexOf(a, '/');
    assert a[..|a|] == a;
    head, rest := a[..i], a[i + 1..];
  }

  lemma Prepend(head: string, parts: seq<string>, more: seq<string>)
    ensures [head] + (parts + more) == ([head] + parts) + more
  {
  }

  lemma {:induction false} SplitAppendStep(head: string, rest: string, longer: string, more: seq<string>)
    requires '/' !in head && Text.Split(longer, '/') == Text.Split(rest, '/') + more
    ensures Text.Split(head + ['/'] + longer, '/') == Text.Split(head + ['/'] + rest, '/') + more
  {
    Text.SplitCons(head, longer, '/');
    Text.SplitCons(head, rest, '/');
    Prepend(head, Text.Split(rest, '/'), more);
  }

  /** Text without slashes at its ends. */
  predicate Bare(s: string) { s != "" && s[0] != '/' && s[|s| - 1] != '/' }

  predicate Slashes(s: string) { forall i :: 0 <= i < |s| ==> s[i] == '/' }

  lemma {:induction false} TrimLeftSkips(a: string, b: string)
    requires b != "" && b[0] != '/'
    ensures Text.TrimLeft(a + b, IsSlash) == Text.TrimLeft(a, IsSlash) + b
  {
    if a == "" {
      assert a + b == b;
    } else {
      assert (a + b)[1..] == a[1..] + b;
      if a[0] == '/' { TrimLeftSkips(a[1..], b); }
    }
  }

  lemma {:induction false} TrimRightSkips(a: string, b: string)
    requires a != "" && a[|a| - 1] != '/'
    ensures Text.TrimRight(a + b, IsSlash) == a + Text.TrimRight(b, IsSlash)
    decreases |b|
  {
    if b == "" {
      assert a + b == a;
    } else {
      var s := a + b;
      assert s[|s| - 1] == b[|b| - 1];
      assert s[..|s| - 1] == a + b[..|b| - 1];
      if b[|b| - 1] == '/' { TrimRightSkips(a, b[..|b| - 1]); }
    }
  }

  lemma {:induction false} TrimAround(before: string, dir: string, after: string)
    requires Bare(dir)
    ensures Trimmed(before + dir + after) == Text.TrimLeft(before, IsSlash) + dir + Text.TrimRight(after, IsSlash)
  {
    Text.Assoc(before, dir, after);
    TrimLeftSkips(before, dir + after);
    var l := Text.TrimLeft(before, IsSlash);
    Text.Assoc(l, dir, after);
    TrimRightSkips(l + dir, after);
  }

  /** A directory is accepted itself, with anything below it, and wherever it stands between slashes; slashes
      around the directory of the pattern do not matter. */
  lemma ShortcutMeans(path: string, before: string, dir: string, after: string)
    requires Slashes(before) && Bare(dir) && Slashes(after)
    ensures PathMatchesDirPrefix(path, before + dir + after) <==>
      || path == dir
      || (exists rest :: path == (dir + ['/']) + rest)
      || (exists left, right :: Text.Around(path, left, ['/'] + dir + ['/'], right))
  {
    TrimAround(before, dir, after);
    OnlySlashesTrimmed(before);
    OnlySlashesTrimmed(after);
    assert "/" + dir + "/" == ['/'] + dir + ['/'] && dir + "/" == dir + ['/'];
    assert "" + dir + "" == dir && Trimmed(before + dir + after) == dir;
    Text.PrefixMeans(path, dir + ['/']);
    Text.ContainsMeans(path, ['/'] + dir + ['/']);
  }

  lemma OnlySlashesTrimmed(s: string)
    requires Slashes(s)
    ensures Text.TrimLeft(s, IsSlash) == Text.TrimRight(s, IsSlash) == Trimmed(s) == ""
  {
    var n := Text.TrimLeftDrops(s, IsSlash);
    Text.TrimRightDrops(s, IsSlash);
  }

  /** Without a directory the shortcut accepts nothing, and a blank pattern excludes nothing at all. */
  lemma NothingExcluded(m: SegmentMatch, path: string, slashes: string, blank: string)
    requires Slashes(slashes) && Text.Blank(blank)
    ensures !PathMatchesDirPrefix(path, slashes) && !ExcludedBy(m, path, blank)
  {
    OnlySlashesTrimmed(slashes);
    var before, after := Text.TrimSpaceMeans(blank);
  }

  /** Every part other than "**" matches its own text; "[x]" is one that does not. */
  ghost predicate SelfMatching(m: SegmentMatch, parts: seq<string>) {
    forall i :: 0 <= i < |parts| ==> parts[i] == ANY || m(parts[i], parts[i])
  }

  ghost predicate Plain(parts: seq<string>) { forall i :: 0 <= i < |parts| ==> parts[i] != ANY }

  lemma AnyMatches(m: SegmentMatch, value: seq<string>)
    ensures Matches(m, [ANY], value)
  {
    MatchesAny(m, [ANY], value);
    assert [ANY][1..] == [] && value[|value|..] == [];
    MatchesEmpty(m, value[|value|..]);
  }

  /** What follows a matched value is absorbed by a final "**". */
  lemma {:induction false} MoreMatches(m: SegmentMatch, parts: seq<string>, value: seq<string>, more: seq<string>)
    requires Matches(m, parts + [ANY], value)
    ensures Matches(m, parts + [ANY], value + more)
    decreases |parts|
  {
    var pattern := parts + [ANY];
    if parts == [] {
      assert pattern == [ANY];
      AnyMatches(m, value + more);
    } else if parts[0] == ANY {
      assert pattern[1..] == parts[1..] + [ANY];
      MatchesAny(m, pattern, value);
      var k :| 0 <= k <= |value| && Matches(m, pattern[1..], value[k..]);
      MoreMatches(m, parts[1..], value[k..], more);
      assert (value + more)[k..] == value[k..] + more;
      MatchesAny(m, pattern, value + more);
    } else {
      assert pattern[1..] == parts[1..] + [ANY];
      MatchesSegment(m, pattern, value);
      MoreMatches(m, parts[1..], value[1..], more);
      assert (value + more)[1..] == value[1..] + more;
      MatchesSegment(m, pattern, value + more);
    }
  }

  lemma {:induction false} SelfMatches(m: SegmentMatch, parts: seq<string>)
    requires SelfMatching(m, parts)
    ensures Matches(m, parts + [ANY], parts)
  {
    var pattern := parts + [ANY];
    if parts == [] {
      assert pattern == [ANY];
      AnyMatches(m, parts);
    } else {
      assert pattern[1..] == parts[1..] + [ANY];
      SelfMatches(m, parts[1..]);
      if parts[0] == ANY { MatchesAny(m, pattern, parts); } else { MatchesSegment(m, pattern, parts); }
    }
  }

  /** Without "**" among the parts there is no other way for them to match themselves. */
  lemma {:induction false} MatchesItself(m: SegmentMatch, parts: seq<string>)
    requires Plain(parts) && Matches(m, parts + [ANY], parts)
    ensures SelfMatching(m, parts)
  {
    if parts == [] {
    } else {
      var pattern := parts + [ANY];
      assert pattern[1..] == parts[1..] + [ANY];
      MatchesSegment(m, pattern, parts);
      MatchesItself(m, parts[1..]);
      forall i | 0 <= i < |parts| ensures m(parts[i], parts[i]) {
        if i > 0 { assert parts[i] == parts[1..][i - 1]; }
      }
    }
  }

  lemma SegmentsBefore(l: string, s: string) returns (i: nat)
    requires l == "" || l[|l| - 1] == '/'
    ensures i < |Text.Split(l + s, '/')| && Text.Split(l + s, '/')[i..] == Text.Split(s, '/')
  {
    if l == "" {
      assert l + s == s;
      return 0;
    }
    var init := l[..|l| - 1];
    assert l + s == init + "/" + s;
    SplitAppend(init, s);
    i := |Text.Split(init, '/')|;
  }

  lemma SegmentsAfter(dir: string, r: string) returns (more: seq<string>)
    requires r == "" || r[0] == '/'
    ensures Text.Split(dir + r, '/') == Text.Split(dir, '/') + more
  {
    if r == "" {
      assert dir + r == dir;
      return [];
    }
    assert dir + r == dir + "/" + r[1..];
    SplitAppend(dir, r[1..]);
    more := Text.Split(r[1..], '/');
  }

  /** Wherever a bare directory stands between slashes in a path, the trimmed path's segments hold its. */
  lemma SegmentsOfDir(before: string, dir: string, after: string) returns (i: nat, more: seq<string>)
    requires Bare(dir)
    requires before == "" || before[|before| - 1] == '/'
    requires after == "" || after[0] == '/'
    ensures i < |Parts(before + dir + after)|
    ensures Parts(before + dir + after)[i..] == Text.Split(dir, '/') + more
  {
    TrimAround(before, dir, after);
    TrimEnds(before, after);
    i, more := SegmentsInside(Text.TrimLeft(before, IsSlash), dir, Text.TrimRight(after, IsSlash));
  }

  lemma SegmentsInside(l: string, dir: string, r: string) returns (i: nat, more: seq<string>)
    requires l == "" || l[|l| - 1] == '/'
    requires r == "" || r[0] == '/'
    ensures i < |Text.Split(l + dir + r, '/')| && Text.Split(l + dir + r, '/')[i..] == Text.Split(dir, '/') + more
  {
    more := SegmentsAfter(dir, r);
    i := SegmentsBefore(l, dir + r);
    assert l + dir + r == l + (dir + r);
  }

  lemma TrimEnds(before: string, after: string)
    requires before == "" || before[|before| - 1] == '/'
    requires after == "" || after[0] == '/'
    ensures var l := Text.TrimLeft(before, IsSlash); l == "" || l[|l| - 1] == '/'
    ensures var r := Text.TrimRight(after, IsSlash); r == "" || r[0] == '/'
  {
    var n := Text.TrimLeftDrops(before, IsSlash);
    Text.TrimRightDrops(after, IsSlash);
  }

  /** How a path that the shortcut accepts holds the directory. */
  lemma DirInPath(path: string, prefix: string) returns (before: string, after: string)
    requires PathMatchesDirPrefix(path, prefix)
    ensures path == before + Trimmed(prefix) + after
    ensures before == "" || before[|before| - 1] == '/'
    ensures after == "" || after[0] == '/'
  {
    var dir := Trimmed(prefix);
    if path == dir {
      return "", "";
    }
    if Text.HasPrefix(path, dir + "/") {
      StartsWithDir(path, dir);
      return "", "/" + path[|dir| + 1..];
    }
    var i :| Text.OccursAt(path, "/" + dir + "/", i);
    HoldsDir(path, dir, i);
    return path[..i] + "/", "/" + path[i + |dir| + 2..];
  }

  lemma StartsWithDir(path: string, dir: string)
    requires Text.HasPrefix(path, dir + "/")
    ensures path == "" + dir + ("/" + path[|dir| + 1..])
  {
    assert path == (dir + "/") + path[|dir| + 1..];
  }

  lemma HoldsDir(path: string, dir: string, i: nat)
    requires Text.OccursAt(path, "/" + dir + "/", i)
    ensures path == path[..i] + "/" + dir + ("/" + path[i + |dir| + 2..])
  {
    var w := "/" + dir + "/";
    assert path == path[..i] + w + path[i + |w|..];
  }

  lemma BareTrim(prefix: string)
    requires Trimmed(prefix) != ""
    ensures Bare(Trimmed(prefix))
  {
    Text.TrimStretch(prefix, IsSlash);
  }

  /** The parts of a pattern whose directory text does not end in a slash. */
  lemma TightPatternParts(prefix: string)
    requires Trimmed(prefix) != "" && prefix[|prefix| - 1] != '/'
    ensures Parts(prefix + TAIL) == Text.Split(Trimmed(prefix), '/') + [ANY]
  {
    var l := Text.TrimLeft(prefix, IsSlash);
    TightTrim(prefix);
    TrimLeftOfAppend(prefix, TAIL);
    BareTrim(prefix);
    TrimRightSkips(l, TAIL);
    TrimTail();
    Text.Assoc(l, "/", ANY);
    SplitAppend(l, ANY);
    Text.SplitWhole(ANY, '/');
  }

  /** A text that does not end in a slash is trimmed on the left only. */
  lemma {:induction false} TightTrim(prefix: string)
    requires prefix != "" && prefix[|prefix| - 1] != '/'
    ensures Text.TrimLeft(prefix, IsSlash) != "" && Trimmed(prefix) == Text.TrimLeft(prefix, IsSlash)
  {
    var n := Text.TrimLeftDrops(prefix, IsSlash);
    assert n < |prefix|;
  }

  lemma TrimTail()
    ensures Text.TrimRight(TAIL, IsSlash) == TAIL && TAIL == "/" + ANY
  {
  }

  lemma {:induction false} TrimLeftOfAppend(a: string, b: string)
    requires Text.TrimLeft(a, IsSlash) != ""
    ensures Text.TrimLeft(a + b, IsSlash) == Text.TrimLeft(a, IsSlash) + b
  {
    assert (a + b)[0] == a[0] && (a + b)[1..] == a[1..] + b;
    if a[0] != '/' {
    } else {
      TrimLeftOfAppend(a[1..], b);
    }
  }

  // ---------- When the shortcut agrees with the matcher ----------

  /** A match needs a segment for every part before the first "**". */
  lemma {:induction false} MatchLength(m: SegmentMatch, pattern: seq<string>, value: seq<string>, k: nat)
    requires k <= |pattern| && forall i :: 0 <= i < k ==> pattern[i] != ANY
    requires Matches(m, pattern, value)
    ensures |value| >= k
  {
    if k == 0 {
    } else {
      MatchesSegment(m, pattern, value);
      MatchLength(m, pattern[1..], value[1..], k - 1);
    }
  }

  lemma {:induction false} SlashParts(s: string)
    requires Slashes(s)
    ensures forall i :: 0 <= i < |Text.Split(s, '/')| ==> Text.Split(s, '/')[i] == ""
    decreases |s|
  {
    if s == "" {
    } else {
      SlashParts(s[1..]);
    }
  }

  lemma {:induction false} TrimRightTail(s: string)
    ensures var r := Text.TrimRight(s, IsSlash); r <= s && Slashes(s[|r|..])
  {
    if s == "" || s[|s| - 1] != '/' {
    } else {
      var init := s[..|s| - 1];
      TrimRightTail(init);
      var r := Text.TrimRight(init, IsSlash);
      assert s[|r|..] == init[|r|..] + ['/'];
    }
  }

  lemma {:induction false} TrimLeftEnd(s: string)
    requires s != "" && s[|s| - 1] == '/' && Text.TrimLeft(s, IsSlash) != ""
    ensures var l := Text.TrimLeft(s, IsSlash); l[|l| - 1] == '/'
  {
    if s[0] != '/' {
    } else {
      TrimLeftEnd(s[1..]);
    }
  }

  lemma LooseDir(prefix: string) returns (slashes: string)
    requires Trimmed(prefix) != "" && prefix[|prefix| - 1] == '/'
    ensures Text.TrimLeft(prefix, IsSlash) == Trimmed(prefix) + "/" + slashes && Slashes(slashes)
  {
    var l, dir := Text.TrimLeft(prefix, IsSlash), Trimmed(prefix);
    TrimRightTail(l);
    TrimLeftEnd(prefix);
    var rest := l[|dir|..];
    assert l == dir + rest && rest != "" && rest[0] == '/';
    slashes := rest[1..];
  }

  lemma TrimPattern(prefix: string)
    requires Text.TrimLeft(prefix, IsSlash) != ""
    ensures Trimmed(prefix + TAIL) == Text.TrimLeft(prefix, IsSlash) + "/" + ANY
  {
    TrimLeftOfAppend(prefix, TAIL);
    var l := Text.TrimLeft(prefix, IsSlash);
    assert l + TAIL == l + "/" + ANY;
  }

  /** With a slash at the end of the directory text the pattern keeps empty parts. */
  lemma LoosePatternParts(prefix: string) returns (empty: seq<string>)
    requires Trimmed(prefix) != "" && prefix[|prefix| - 1] == '/'
    ensures empty != [] && forall i :: 0 <= i < |empty| ==> empty[i] == ""
    ensures Parts(prefix + TAIL) == Text.Split(Trimmed(prefix), '/') + empty + [ANY]
    ensures |Trimmed(prefix + TAIL)| > |Trimmed(prefix)|
  {
    var slashes := LooseDir(prefix);
    SplitAppend(Trimmed(prefix), slashes);
    SlashParts(slashes);
    empty := Text.Split(slashes, '/');
    TrimPattern(prefix);
    SplitAppend(Text.TrimLeft(prefix, IsSlash), ANY);
    Text.SplitWhole(ANY, '/');
  }

  lemma NoSuffixMatches(m: SegmentMatch, pattern: seq<string>, value: seq<string>)
    requires |value| < |pattern| && forall i :: 0 <= i <= |value| ==> pattern[i] != ANY
    ensures forall i :: 0 <= i < |value| ==> !Matches(m, pattern, value[i..])
  {
    forall i | 0 <= i < |value| ensures !Matches(m, pattern, value[i..]) {
      if Matches(m, pattern, value[i..]) { MatchLength(m, pattern, value[i..], |value| + 1); }
    }
  }

  lemma TrimBare(dir: string)
    requires Bare(dir)
    ensures Trimmed(dir) == dir
  {
    TrimAround("", dir, "");
    assert "" + dir + "" == dir;
  }

  lemma AcceptsDirectory(prefix: string)
    requires Trimmed(prefix) != ""
    ensures PathMatchesDirPrefix(Trimmed(prefix), prefix) && Trimmed(Trimmed(prefix)) == Trimmed(prefix)
  {
    BareTrim(prefix);
    TrimBare(Trimmed(prefix));
  }

  /** The pattern's parts: those of the directory, an empty one for each further slash, and "**". */
  lemma PatternParts(prefix: string) returns (empty: seq<string>)
    requires Trimmed(prefix) != ""
    ensures Plain(empty) && (empty == [] <==> prefix[|prefix| - 1] != '/')
    ensures Parts(prefix + TAIL) == Text.Split(Trimmed(prefix), '/') + empty + [ANY]
  {
    if prefix[|prefix| - 1] == '/' {
      empty := LoosePatternParts(prefix);
    } else {
      TightPatternParts(prefix);
      empty := [];
    }
  }

  /** A match of the directory is a match of the parts, from some part on. */
  lemma DirectoryMatch(m: SegmentMatch, prefix: string) returns (empty: seq<string>, j: nat)
    requires Trimmed(prefix) != "" && DoublestarMatches(m, prefix + TAIL, Trimmed(prefix))
    ensures Parts(prefix + TAIL) == Text.Split(Trimmed(prefix), '/') + empty + [ANY]
    ensures j < |Text.Split(Trimmed(prefix), '/')|
    ensures Matches(m, Text.Split(Trimmed(prefix), '/') + empty + [ANY], Text.Split(Trimmed(prefix), '/')[j..])
  {
    AcceptsDirectory(prefix);
    empty := PatternParts(prefix);
    assert Parts(Trimmed(prefix)) == Text.Split(Trimmed(prefix), '/');
    j :| 0 <= j < |Parts(Trimmed(prefix))| && Matches(m, Parts(prefix + TAIL), Parts(Trimmed(prefix))[j..]);
  }

  lemma SkipBoth(s: seq<string>, i: nat, a: seq<string>, more: seq<string>, j: nat)
    requires i < |s| && s[i..] == a + more && j < |a|
    ensures i + j < |s| && s[i + j..] == a[j..] + more
  {
    assert s[i + j..] == s[i..][j..];
  }

  /** Where the matcher accepts the directory itself, it accepts whatever the shortcut accepts. */
  lemma {:induction false} DirectoryDecides(m: SegmentMatch, prefix: string, path: string)
    requires PathMatchesDirPrefix(path, prefix) && DoublestarMatches(m, prefix + TAIL, Trimmed(prefix))
    ensures DoublestarMatches(m, prefix + TAIL, path)
  {
    var parts := Text.Split(Trimmed(prefix), '/');
    var empty, j := DirectoryMatch(m, prefix);
    BareTrim(prefix);
    var before, after := DirInPath(path, prefix);
    var i, more := SegmentsOfDir(before, Trimmed(prefix), after);
    MoreMatches(m, parts + empty, parts[j..], more);
    SkipBoth(Parts(path), i, parts, more, j);
  }

  /** For every pattern at all: the shortcut accepts nothing the matcher rejects exactly when the
      matcher accepts the directory named by the pattern, if the pattern names one. */
  lemma ShortcutSubsumedIff(m: SegmentMatch, prefix: string)
    ensures (forall path :: PathMatchesDirPrefix(path, prefix) ==> DoublestarMatches(m, prefix + TAIL, path))
            <==> Trimmed(prefix) == "" || DoublestarMatches(m, prefix + TAIL, Trimmed(prefix))
  {
    if Trimmed(prefix) != "" { AcceptsDirectory(prefix); }
    if DoublestarMatches(m, prefix + TAIL, Trimmed(prefix)) {
      forall path | PathMatchesDirPrefix(path, prefix) ensures DoublestarMatches(m, prefix + TAIL, path) {
        DirectoryDecides(m, prefix, path);
      }
    }
  }

  /** With a slash at the end of the directory text, the shortcut accepts the directory itself and the
      matcher does not. */
  lemma ShortcutWider(m: SegmentMatch, prefix: string)
    requires Trimmed(prefix) != "" && prefix[|prefix| - 1] == '/' && Plain(Text.Split(Trimmed(prefix), '/'))
    ensures PathMatchesDirPrefix(Trimmed(prefix), prefix)
    ensures !DoublestarMatches(m, prefix + TAIL, Trimmed(prefix))
  {
    AcceptsDirectory(prefix);
    var empty := PatternParts(prefix);
    NoSuffixMatches(m, Parts(prefix + TAIL), Text.Split(Trimmed(prefix), '/'));
  }

  /** A directory whose parts match their own text, "**" allowed among them, written without a slash at
      its end: the matcher accepts it. */
  lemma DirectoryMatches(m: SegmentMatch, prefix: string)
    requires Trimmed(prefix) != "" && prefix[|prefix| - 1] != '/'
    requires SelfMatching(m, Text.Split(Trimmed(prefix), '/'))
    ensures DoublestarMatches(m, prefix + TAIL, Trimmed(prefix))
  {
    AcceptsDirectory(prefix);
    TightPatternParts(prefix);
    var parts := Text.Split(Trimmed(prefix), '/');
    SelfMatches(m, parts);
    assert Parts(Trimmed(prefix))[0..] == parts;
  }

  /** ... and then the shortcut accepts nothing the matcher rejects. */
  lemma ShortcutSubsumed(m: SegmentMatch, prefix: string, path: string)
    requires prefix != "" && prefix[|prefix| - 1] != '/'
    requires SelfMatching(m, Text.Split(Trimmed(prefix), '/'))
    requires PathMatchesDirPrefix(path, prefix)
    ensures DoublestarMatches(m, prefix + TAIL, path)
  {
    DirectoryMatches(m, prefix);
    DirectoryDecides(m, prefix, path);
  }

  lemma DirectoryMatchesOnlySo(m: SegmentMatch, prefix: string)
    requires Trimmed(prefix) != "" && prefix[|prefix| - 1] != '/' && Plain(Text.Split(Trimmed(prefix), '/'))
    requires DoublestarMatches(m, prefix + TAIL, Trimmed(prefix))
    ensures SelfMatching(m, Text.Split(Trimmed(prefix), '/'))
  {
    AcceptsDirectory(prefix);
    TightPatternParts(prefix);
    var parts, pattern := Text.Split(Trimmed(prefix), '/'), Parts(prefix + TAIL);
    assert Parts(Trimmed(prefix)) == parts;
    var i :| 0 <= i < |parts| && Matches(m, pattern, parts[i..]);
    MatchLength(m, pattern, parts[i..], |parts|);
    assert parts[0..] == parts;
    MatchesItself(m, parts);
  }

  /** Without "**" in the directory: the shortcut accepts nothing the matcher rejects exactly when there is
      no directory, or its text does not end in a slash and each of its parts matches its own text. */
  lemma ShortcutExact(m: SegmentMatch, prefix: string)
    requires Plain(Text.Split(Trimmed(prefix), '/'))
    ensures (forall path :: PathMatchesDirPrefix(path, prefix) ==> DoublestarMatches(m, prefix + TAIL, path))
            <==> (Trimmed(prefix) != "" ==>
              prefix[|prefix| - 1] != '/' && SelfMatching(m, Text.Split(Trimmed(prefix), '/')))
  {
    ShortcutSubsumedIff(m, prefix);
    if Trimmed(prefix) == "" {
    } else if prefix[|prefix| - 1] == '/' {
      ShortcutWider(m, prefix);
    } else if SelfMatching(m, Text.Split(Trimmed(prefix), '/')) {
      DirectoryMatches(m, prefix);
    } else if DoublestarMatches(m, prefix + TAIL, Trimmed(prefix)) {
      DirectoryMatchesOnlySo(m, prefix);
    }
  }

  /** For instance: a class such as [x] does not match its own text, so of the pattern [x] followed by
      the tail the shortcut accepts the path [x] and the matcher does not. */
  lemma BracketsVisible(m: SegmentMatch)
    requires !m("[x]", "[x]")
    ensures PathMatchesDirPrefix("[x]", "[x]") && !DoublestarMatches(m, "[x]" + TAIL, "[x]")
  {
    TrimBare("[x]");
    Text.SplitWhole("[x]", '/');
    assert !SelfMatching(m, ["[x]"]) by { assert ["[x]"][0] == "[x]"; }
    if DoublestarMatches(m, "[x]" + TAIL, Trimmed("[x]")) {
      DirectoryMatchesOnlySo(m, "[x]");
    }
  }
}
