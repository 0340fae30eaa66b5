/** How many source lines a type and its methods occupy: line intervals grouped by file, sorted and
    merged. */
module LineIntervals {
  import opened Ordering

  datatype Position = Position(filename: string, line: int)

  /** A declaration from its first to its last position. */
  datatype Span = Span(start: Position, end: Position) {
    /** Declarations without a position, or across files, are not counted. */
    predicate Counted() {
      start.filename != "" && start.filename == end.filename && start.line > 0 && end.line >= start.line
    }
  }

  datatype Interval = Interval(start: int, end: int)

  // ---------- The specification ----------

  predicate Between(a: int, line: int, b: int) { a <= line <= b }

  ghost function Range(a: int, b: int): set<int> { set line | a <= line <= b && Between(a, line, b) }

  /** The distinct (file, line) pairs that the declarations cover. */
  ghost function CoveredLines(spans: seq<Span>): set<(string, int)> {
    set span, line | span in spans && span.Counted() && line in Range(span.start.line, span.end.line)
      :: (span.start.filename, line)
  }

  ghost function LinesIn(spans: seq<Span>, file: string): set<int> {
    set span, line | span in spans && span.Counted() && span.start.filename == file
      && line in Range(span.start.line, span.end.line) :: line
  }

  ghost function CoveredIn(spans: seq<Span>, files: set<string>): set<(string, int)> {
    set p | p in CoveredLines(spans) && p.0 in files
  }

  /** A line of a file is covered exactly when a declaration that starts and ends in that file, at or after
      its first line, spans it. */
  lemma CoveredMeans(spans: seq<Span>, file: string, line: int)
    ensures (file, line) in CoveredLines(spans) <==>
      exists s :: && s in spans && file != "" && s.start.filename == file && s.end.filename == file
                   && 0 < s.start.line <= line <= s.end.line
  {
  }

  // ---------- Sets of lines ----------

  lemma {:induction false} RangeSize(a: int, b: int)
    requires a <= b + 1
    ensures |Range(a, b)| == b - a + 1
    decreases b - a + 1
  {
    if a > b {
      assert Range(a, b) == {};
    } else {
      RangeSize(a, b - 1);
      assert Range(a, b) == Range(a, b - 1) + {b};
    }
  }

  /** Ranges that overlap or touch make one range. */
  lemma RangeUnion(a: int, b: int, c: int, d: int)
    requires a <= c <= b + 1
    ensures Range(a, b) + Range(c, d) == Range(a, if d > b then d else b)
  {
  }

  ghost function Lines(intervals: seq<Interval>): set<int> {
    set v, line | v in intervals && line in Range(v.start, v.end) :: line
  }

  lemma LinesSnoc(intervals: seq<Interval>, v: Interval)
    ensures Lines(intervals + [v]) == Lines(intervals) + Range(v.start, v.end)
  {
    forall line ensures line in Lines(intervals + [v]) <==> line in Lines(intervals) + Range(v.start, v.end) {
      if line in Lines(intervals) {
        var w :| w in intervals && line in Range(w.start, w.end);
        assert w in intervals + [v];
      }
      if line in Range(v.start, v.end) { assert v in intervals + [v]; }
    }
  }

  // ---------- Merging ----------

  predicate StartLeq(a: Interval, b: Interval) { a.start <= b.start }

  /** The lines of the intervals from the `k`-th on. */
  ghost function LinesFrom(intervals: seq<Interval>, k: nat): set<int>
    requires k <= |intervals|
    decreases |intervals| - k
  {
    if k == |intervals| then {} else Range(intervals[k].start, intervals[k].end) + LinesFrom(intervals, k + 1)
  }

  lemma {:induction false} LinesFromMeans(intervals: seq<Interval>, k: nat, line: int)
    requires k <= |intervals|
    ensures line in LinesFrom(intervals, k) <==>
      exists i :: k <= i < |intervals| && intervals[i].start <= line <= intervals[i].end
    decreases |intervals| - k
  {
    if k == |intervals| {
    } else {
      LinesFromMeans(intervals, k + 1, line);
    }
  }

  lemma LinesMean(intervals: seq<Interval>, line: int)
    ensures line in Lines(intervals) <==>
      exists i :: 0 <= i < |intervals| && intervals[i].start <= line <= intervals[i].end
  {
    if line in Lines(intervals) {
      var v :| v in intervals && line in Range(v.start, v.end);
      var i :| 0 <= i < |intervals| && intervals[i] == v;
    }
    if i :| 0 <= i < |intervals| && intervals[i].start <= line <= intervals[i].end {
      assert intervals[i] in intervals && line in Range(intervals[i].start, intervals[i].end);
    }
  }

  lemma LinesFromStart(intervals: seq<Interval>)
    ensures LinesFrom(intervals, 0) == Lines(intervals)
  {
    forall line ensures line in LinesFrom(intervals, 0) <==> line in Lines(intervals) {
      LinesFromMeans(intervals, 0, line);
      LinesMean(intervals, line);
    }
  }

  lemma LinesNotBefore(intervals: seq<Interval>, k: nat, line: int)
    requires k < |intervals| && SortedBy(intervals, StartLeq) && line in LinesFrom(intervals, k)
    ensures line >= intervals[k].start
  {
    LinesFromMeans(intervals, k, line);
    var i :| k <= i < |intervals| && intervals[i].start <= line <= intervals[i].end;
    assert k < i ==> StartLeq(intervals[k], intervals[i]);
  }

  /** An interval that overlaps or touches the current run extends it. */
  lemma Absorb(a: int, b: int, c: int, d: int, rest: set<int>)
    requires a <= c <= b + 1
    ensures Range(a, b) + (Range(c, d) + rest) == Range(a, if d > b then d else b) + rest
  {
    RangeUnion(a, b, c, d);
    assert Range(a, b) + (Range(c, d) + rest) == (Range(a, b) + Range(c, d)) + rest;
  }

  /** Lines behind the current run are counted apart from it. */
  lemma Restart(a: int, b: int, rest: set<int>)
    requires a <= b + 1 && forall line :: line in rest ==> line > b
    ensures |Range(a, b) + rest| == b - a + 1 + |rest|
  {
    RangeSize(a, b);
    assert Range(a, b) !! rest;
  }

  /** What the loop adds up to from interval `k` on. */
  function Merged(intervals: seq<Interval>, k: nat, merged: Interval, total: int): int
    requires k <= |intervals|
    decreases |intervals| - k
  {
    if k == |intervals| then total + merged.end - merged.start + 1
    else if intervals[k].start > merged.end + 1 then
      Merged(intervals, k + 1, intervals[k], total + merged.end - merged.start + 1)
    else if intervals[k].end > merged.end then
      Merged(intervals, k + 1, Interval(merged.start, intervals[k].end), total)
    else Merged(intervals, k + 1, merged, total)
  }

  /** The current run, and the intervals that start in it or behind it. */
  ghost predicate Runs(intervals: seq<Interval>, k: nat, merged: Interval) {
    && k <= |intervals| && merged.start <= merged.end
    && forall i :: k <= i < |intervals| ==> merged.start <= intervals[i].start <= intervals[i].end
  }

  lemma NextRun(intervals: seq<Interval>, k: nat, merged: Interval)
    requires SortedBy(intervals, StartLeq) && Runs(intervals, k, merged) && k < |intervals|
    ensures merged.start <= intervals[k].start
    ensures Runs(intervals, k + 1, intervals[k])
  {
    assert forall i :: k < i < |intervals| ==> StartLeq(intervals[k], intervals[i]);
  }

  /** The lines of the current run and of all intervals still to come. */
  ghost function Ahead(intervals: seq<Interval>, k: nat, merged: Interval): int
    requires k <= |intervals|
  {
    |Range(merged.start, merged.end) + LinesFrom(intervals, k)|
  }

  lemma AheadLast(intervals: seq<Interval>, merged: Interval)
    requires merged.start <= merged.end
    ensures Ahead(intervals, |intervals|, merged) == merged.end - merged.start + 1
  {
    Restart(merged.start, merged.end, {});
  }

  lemma AheadBehind(intervals: seq<Interval>, k: nat, merged: Interval)
    requires SortedBy(intervals, StartLeq) && k < |intervals| && merged.start <= merged.end
    requires intervals[k].start > merged.end + 1
    ensures Ahead(intervals, k, merged) == merged.end - merged.start + 1 + Ahead(intervals, k + 1, intervals[k])
  {
    forall line | line in LinesFrom(intervals, k) ensures line > merged.end { LinesNotBefore(intervals, k, line); }
    Restart(merged.start, merged.end, LinesFrom(intervals, k));
  }

  lemma AheadWithin(intervals: seq<Interval>, k: nat, merged: Interval, end: int)
    requires k < |intervals| && merged.start <= intervals[k].start <= merged.end + 1
    requires end == if intervals[k].end > merged.end then intervals[k].end else merged.end
    ensures Ahead(intervals, k, merged) == Ahead(intervals, k + 1, Interval(merged.start, end))
  {
    Absorb(merged.start, merged.end, intervals[k].start, intervals[k].end, LinesFrom(intervals, k + 1));
  }

  lemma {:induction false} MergedCounts(intervals: seq<Interval>, k: nat, merged: Interval, total: int)
    requires SortedBy(intervals, StartLeq) && Runs(intervals, k, merged)
    ensures Merged(intervals, k, merged, total) == total + Ahead(intervals, k, merged)
    decreases |intervals| - k
  {
    if k == |intervals| {
      AheadLast(intervals, merged);
    } else {
      var current := intervals[k];
      NextRun(intervals, k, merged);
      if current.start > merged.end + 1 {
        AheadBehind(intervals, k, merged);
        MergedCounts(intervals, k + 1, current, total + merged.end - merged.start + 1);
      } else {
        var longer := Interval(merged.start, if current.end > merged.end then current.end else merged.end);
        AheadWithin(intervals, k, merged, longer.end);
        MergedCounts(intervals, k + 1, longer, total);
      }
    }
  }

  /** Sorted intervals, merged while they overlap or touch, count each line once. */
  method MergedLength(intervals: seq<Interval>) returns (total: int)
    requires intervals != [] && forall v :: v in intervals ==> v.start <= v.end
    requires SortedBy(intervals, StartLeq)
    ensures total == |Lines(intervals)|
  {
    total := 0;
    var merged := intervals[0];
    for k := 1 to |intervals|
      invariant Merged(intervals, k, merged, total) == Merged(intervals, 1, intervals[0], 0)
    {
      var current := intervals[k];
      if current.start <= merged.end + 1 {
        if current.end > merged.end {
          merged := Interval(merged.start, current.end);
        }
      } else {
        total := total + merged.end - merged.start + 1;
        merged := current;
      }
    }
    total := total + merged.end - merged.start + 1;
    MergedAll(intervals);
  }

  lemma MergedAll(intervals: seq<Interval>)
    requires intervals != [] && (forall v :: v in intervals ==> v.start <= v.end) && SortedBy(intervals, StartLeq)
    ensures Merged(intervals, 1, intervals[0], 0) == |Lines(intervals)|
  {
    forall i | 1 <= i < |intervals| ensures intervals[0].start <= intervals[i].start <= intervals[i].end {
      assert StartLeq(intervals[0], intervals[i]) && intervals[i] in intervals;
    }
    assert intervals[0] in intervals;
    MergedCounts(intervals, 1, intervals[0], 0);
    LinesFromStart(intervals);
  }

  lemma LinesSame(a: seq<Interval>, b: seq<Interval>)
    requires forall v :: v in a <==> v in b
    ensures Lines(a) == Lines(b)
  {
    forall line ensures line in Lines(a) <==> line in Lines(b) {
      if line in Lines(a) { var v :| v in a && line in Range(v.start, v.end); assert v in b; }
      if line in Lines(b) { var v :| v in b && line in Range(v.start, v.end); assert v in a; }
    }
  }

  // ---------- By file ----------

  type ByFile = map<string, seq<Interval>>

  ghost predicate GroupOf(intervals: seq<Interval>, spans: seq<Span>, f: string) {
    intervals != [] && Lines(intervals) == LinesIn(spans, f) && forall v :: v in intervals ==> v.start <= v.end
  }

  /** The intervals of each file with counted declarations, and of no other file. */
  ghost predicate Grouped(byFile: ByFile, spans: seq<Span>) {
    && (forall p :: p in CoveredLines(spans) ==> p.0 in byFile)
    && (forall f :: f in byFile ==> GroupOf(byFile[f], spans, f))
  }

  lemma LinesInSnoc(spans: seq<Span>, span: Span, f: string)
    ensures LinesIn(spans + [span], f) == LinesIn(spans, f) +
      if span.Counted() && span.start.filename == f then Range(span.start.line, span.end.line) else {}
  {
    var after := LinesIn(spans + [span], f);
    forall line | line in LinesIn(spans, f) ensures line in after {
      var s :| s in spans && s.Counted() && s.start.filename == f && line in Range(s.start.line, s.end.line);
      assert s in spans + [span];
    }
    if span.Counted() && span.start.filename == f {
      assert span in spans + [span];
      assert forall line :: line in Range(span.start.line, span.end.line) ==> line in after;
    }
  }

  lemma CoveredSnoc(spans: seq<Span>, span: Span, p: (string, int))
    requires p in CoveredLines(spans + [span])
    ensures p in CoveredLines(spans) || (span.Counted() && p.0 == span.start.filename)
  {
  }

  /** No line of a file without intervals is covered. */
  lemma NothingIn(byFile: ByFile, spans: seq<Span>, f: string)
    requires Grouped(byFile, spans)
    ensures f in byFile || LinesIn(spans, f) == {}
  {
    if line :| line in LinesIn(spans, f) {
      assert (f, line) in CoveredLines(spans);
    }
  }

  method Add(byFile: ByFile, span: Span, ghost spans: seq<Span>) returns (grown: ByFile)
    requires Grouped(byFile, spans)
    ensures Grouped(grown, spans + [span])
  {
    forall p | p in CoveredLines(spans + [span])
      ensures p.0 in byFile || (span.Counted() && p.0 == span.start.filename)
    {
      CoveredSnoc(spans, span, p);
    }
    forall f ensures LinesIn(spans + [span], f) == LinesIn(spans, f) +
      if span.Counted() && span.start.filename == f then Range(span.start.line, span.end.line) else {}
    {
      LinesInSnoc(spans, span, f);
    }
    if span.start.filename == "" || span.start.filename != span.end.filename || span.start.line <= 0
      || span.end.line < span.start.line {
      return byFile;
    }
    var file := span.start.filename;
    var known := if file in byFile then byFile[file] else [];
    NothingIn(byFile, spans, file);
    assert Lines([]) == {};
    LinesSnoc(known, Interval(span.start.line, span.end.line));
    grown := byFile[file := known + [Interval(span.start.line, span.end.line)]];
  }

  // ---------- Adding up the files ----------

  ghost function Tagged<T(!new)>(f: string, lines: set<T>): set<(string, T)> { set line | line in lines :: (f, line) }

  lemma {:induction false} TaggedSize<T(!new)>(f: string, lines: set<T>)
    ensures |Tagged(f, lines)| == |lines|
  {
    if lines == {} {
      assert Tagged(f, lines) == {};
    } else {
      var x :| x in lines;
      TaggedSize(f, lines - {x});
      assert Tagged(f, lines) == Tagged(f, lines - {x}) + {(f, x)};
    }
  }

  lemma InFile(spans: seq<Span>, f: string, line: int)
    ensures (f, line) in CoveredLines(spans) <==> line in LinesIn(spans, f)
  {
  }

  lemma OneMoreFile(spans: seq<Span>, files: set<string>, f: string)
    requires f !in files
    ensures |CoveredIn(spans, files + {f})| == |CoveredIn(spans, files)| + |LinesIn(spans, f)|
  {
    var tagged := Tagged(f, LinesIn(spans, f));
    forall p ensures p in CoveredIn(spans, files + {f}) <==> p in CoveredIn(spans, files) + tagged {
      InFile(spans, p.0, p.1);
    }
    assert CoveredIn(spans, files + {f}) == CoveredIn(spans, files) + tagged;
    assert CoveredIn(spans, files) !! tagged;
    TaggedSize(f, LinesIn(spans, f));
  }

  /** Overlapping, nested, adjacent or separate declarations, listed in any order over any files, with
      the files visited in any order: every covered line counts exactly once. */
  method ProfileTypeLines(declaration: Span, methods: seq<Span>) returns (total: int)
    ensures total == |CoveredLines([declaration] + methods)|
  {
    var byFile := Add(map[], declaration, []);
    assert [] + [declaration] == [declaration] + methods[..0];
    for k := 0 to |methods|
      invariant Grouped(byFile, [declaration] + methods[..k])
    {
      assert [declaration] + methods[..k + 1] == [declaration] + methods[..k] + [methods[k]];
      byFile := Add(byFile, methods[k], [declaration] + methods[..k]);
    }
    ghost var spans := [declaration] + methods;
    assert methods[..|methods|] == methods;
    total := 0;
    var todo := byFile.Keys;
    assert CoveredIn(spans, byFile.Keys - todo) == {};
    while todo != {}
      invariant todo <= byFile.Keys
      invariant total == |CoveredIn(spans, byFile.Keys - todo)|
      decreases |todo|
    {
      var file :| file in todo;
      OneMoreFile(spans, byFile.Keys - todo, file);
      assert byFile.Keys - (todo - {file}) == byFile.Keys - todo + {file};
      todo := todo - {file};
      var intervals := SortSlice(byFile[file], StartLeq);
      SameMultisetSameElements(intervals, byFile[file]);
      LinesSame(intervals, byFile[file]);
      var length := MergedLength(intervals);
      total := total + length;
    }
    assert CoveredIn(spans, byFile.Keys) == CoveredLines(spans);
    assert byFile.Keys - {} == byFile.Keys;
  }
}
