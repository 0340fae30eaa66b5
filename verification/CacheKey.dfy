/** What a cache entry is keyed by: the byte stream written into the package and program hashes.
    Every component ends in a NUL byte; the stream can be read in only one way. */
module CacheKey {
  import opened Ordering
  import Text

  /** The contents of a source file, or why it could not be read. */
  datatype Source = Readable(bytes: string) | Unreadable(error: string)

  datatype File = File(filename: string, generated: bool, source: Source)

  datatype Package = Package(
    pkgPath: string, dir: string, modulePath: string, dependencyDigest: string,
    analysisRoot: string, files: seq<File>, removedFiles: seq<File>)

  /** One file as the hash sees it: its name relative to the analysis root. */
  datatype Line = Line(name: string, generated: bool, source: Source)

  /** Everything about a package that its hash covers. */
  datatype Material = Material(
    pkgPath: string, modulePath: string, dependencyDigest: string, kept: seq<Line>, removed: seq<Line>)

  /** SHA-256 in hexadecimal, idealised as collision-free on texts of any length, and the policy that
      makes file names relative to a root. */
  datatype Hashing = Hashing(sha: string -> string, portable: (string, string) -> string) {
    ghost predicate Valid() {
      && (forall s :: sha(s) != "" && Hexadecimal(sha(s)))
      && (forall s, t :: sha(s) == sha(t) ==> s == t)
    }
  }

  predicate Hexadecimal(s: string) { forall c :: c in s ==> '0' <= c <= '9' || 'a' <= c <= 'f' }

  predicate NulFree(s: string) { '\0' !in s }

  const UNREADABLE := "unreadable-source"
  const GENERATED := "generated"
  const REMOVED := "removed"

  function DigestText(h: Hashing, source: Source): string {
    match source
    case Readable(bytes) => h.sha(bytes)
    case Unreadable(error) => UNREADABLE + error
  }

  function Flag(line: Line): string { if line.generated then GENERATED else "" }

  // ---------- From packages to material ----------

  predicate ByFilename(a: File, b: File) { StringLeq(a.filename, b.filename) }

  lemma {:induction false} FilenameOrder()
    ensures TotalPreorder(ByFilename)
  {
    StringOrder();
  }

  ghost predicate DistinctNames(files: seq<File>) {
    forall a, b :: a in files && b in files && a.filename == b.filename ==> a == b
  }

  function Lines(h: Hashing, root: string, files: seq<File>): seq<Line> {
    seq(|files|, i requires 0 <= i < |files| =>
      Line(h.portable(root, files[i].filename), files[i].generated, files[i].source))
  }

  function MaterialOf(h: Hashing, p: Package): Material {
    Material(p.pkgPath, p.modulePath, p.dependencyDigest,
             Lines(h, p.analysisRoot, Sorted(p.files, ByFilename)),
             Lines(h, p.analysisRoot, Sorted(p.removedFiles, ByFilename)))
  }

  ghost predicate CleanLine(line: Line) {
    NulFree(line.name) && (line.source.Unreadable? ==> NulFree(line.source.error))
  }

  /** No component holds a NUL byte: paths, module paths, digests and file-system errors never do. */
  ghost predicate Clean(m: Material) {
    && NulFree(m.pkgPath) && NulFree(m.modulePath) && NulFree(m.dependencyDigest)
    && (forall line :: line in m.kept ==> CleanLine(line))
    && (forall line :: line in m.removed ==> CleanLine(line))
  }

  // ---------- The stream ----------

  /** Tokens, each ended by a NUL byte. */
  function Stream(tokens: seq<string>): string {
    if tokens == [] then "" else tokens[0] + ['\0'] + Stream(tokens[1..])
  }

  function LineTokens(h: Hashing, lines: seq<Line>): seq<string> {
    if lines == [] then []
    else [lines[0].name, Flag(lines[0]), DigestText(h, lines[0].source)] + LineTokens(h, lines[1..])
  }

  function Tokens(h: Hashing, m: Material): seq<string> {
    [m.pkgPath, m.modulePath, m.dependencyDigest]
    + (LineTokens(h, m.kept) + [REMOVED] + LineTokens(h, m.removed))
  }

  function PackageHash(h: Hashing, p: Package): string { h.sha(Stream(Tokens(h, MaterialOf(h, p)))) }

  lemma {:induction false} StreamConcat(a: seq<string>, b: seq<string>)
    ensures Stream(a + b) == Stream(a) + Stream(b)
  {
    if a == [] {
      assert a + b == b;
    } else {
      assert (a + b)[1..] == a[1..] + b;
      StreamConcat(a[1..], b);
    }
  }

  ghost predicate AllNulFree(tokens: seq<string>) { forall i :: 0 <= i < |tokens| ==> NulFree(tokens[i]) }

  /** A stream of NUL-free tokens is read in only one way. */
  lemma {:induction false} StreamUnique(a: seq<string>, b: seq<string>)
    requires AllNulFree(a) && AllNulFree(b)
    requires Stream(a) == Stream(b)
    ensures a == b
  {
    if a == [] || b == [] {
    } else {
      Text.CutUnique(a[0], Stream(a[1..]), b[0], Stream(b[1..]), '\0');
      StreamUnique(a[1..], b[1..]);
      assert a == [a[0]] + a[1..] && b == [b[0]] + b[1..];
    }
  }

  /** A digest is never a flag, and digests of different sources differ. */
  lemma DigestFacts(h: Hashing, s: Source, t: Source)
    requires h.Valid()
    ensures DigestText(h, s) != "" && DigestText(h, s) != GENERATED
    ensures DigestText(h, s) == DigestText(h, t) ==> s == t
    ensures s.Readable? || NulFree(s.error) ==> NulFree(DigestText(h, s))
  {
    HexFacts(h, s);
    HexFacts(h, t);
    if s.Unreadable? && t.Unreadable? && UNREADABLE + s.error == UNREADABLE + t.error {
      assert s.error == (UNREADABLE + s.error)[|UNREADABLE|..];
      assert t.error == (UNREADABLE + t.error)[|UNREADABLE|..];
    }
  }

  lemma HexFacts(h: Hashing, s: Source)
    requires h.Valid()
    ensures DigestText(h, s) != ""
    ensures s.Unreadable? <==> DigestText(h, s)[0] == 'u'
    ensures DigestText(h, s)[0] != 'g'
    ensures s.Readable? ==> NulFree(DigestText(h, s))
  {
    if s.Readable? {
      var digest := h.sha(s.bytes);
      assert digest[0] in digest;
      assert Hexadecimal(digest);
    }
  }

  lemma {:induction false} LineTokensLength(h: Hashing, lines: seq<Line>)
    ensures |LineTokens(h, lines)| == 3 * |lines|
  {
    if lines == [] {
    } else {
      LineTokensLength(h, lines[1..]);
    }
  }

  lemma {:induction false} LineTokensNulFree(h: Hashing, lines: seq<Line>)
    requires h.Valid() && forall line :: line in lines ==> CleanLine(line)
    ensures AllNulFree(LineTokens(h, lines))
  {
    if lines == [] {
    } else {
      assert lines[0] in lines;
      DigestFacts(h, lines[0].source, lines[0].source);
      LineTokensNulFree(h, lines[1..]);
    }
  }

  /** The tokens of a kept file can never be taken for the end of the kept files. */
  lemma EmptyKeptOnly(h: Hashing, removed: seq<Line>, kept': seq<Line>, removed': seq<Line>)
    requires h.Valid()
    requires [REMOVED] + LineTokens(h, removed) == LineTokens(h, kept') + [REMOVED] + LineTokens(h, removed')
    ensures kept' == []
  {
    LineTokensLength(h, removed);
    LineTokensLength(h, kept');
    LineTokensLength(h, removed');
    if kept' != [] {
      var left := [REMOVED] + LineTokens(h, removed);
      assert left[2] == DigestText(h, kept'[0].source);
      DigestFacts(h, kept'[0].source, kept'[0].source);
    }
  }

  /** The tokens of kept and removed lines with the mark between them. */
  ghost function Marked(h: Hashing, kept: seq<Line>, removed: seq<Line>): seq<string> {
    LineTokens(h, kept) + [REMOVED] + LineTokens(h, removed)
  }

  lemma {:induction false} MarkedAtStart(h: Hashing, removed: seq<Line>)
    ensures Marked(h, [], removed) == [REMOVED] + LineTokens(h, removed)
  {
    assert [] + [REMOVED] == [REMOVED];
  }

  lemma {:induction false} MarkedAfterLine(h: Hashing, kept: seq<Line>, removed: seq<Line>)
    requires kept != []
    ensures Marked(h, kept, removed) ==
      [kept[0].name, Flag(kept[0]), DigestText(h, kept[0].source)] + Marked(h, kept[1..], removed)
  {
  }

  lemma {:induction false} SplitUnique(h: Hashing, kept: seq<Line>, removed: seq<Line>, kept': seq<Line>,
                                       removed': seq<Line>)
    requires h.Valid()
    requires Marked(h, kept, removed) == Marked(h, kept', removed')
    ensures kept == kept' && removed == removed'
    decreases |kept| + |removed|
  {
    var left, right := Marked(h, kept, removed), Marked(h, kept', removed');
    if kept == [] {
      MarkedAtStart(h, removed);
      EmptyKeptOnly(h, removed, kept', removed');
      MarkedAtStart(h, removed');
      assert LineTokens(h, removed) == left[1..] == right[1..] == LineTokens(h, removed');
      LinesUnique(h, removed, removed');
    } else if kept' == [] {
      MarkedAtStart(h, removed');
      EmptyKeptOnly(h, removed', kept, removed);
    } else {
      MarkedAfterLine(h, kept, removed);
      MarkedAfterLine(h, kept', removed');
      assert left[3..] == Marked(h, kept[1..], removed) && right[3..] == Marked(h, kept'[1..], removed');
      SplitUnique(h, kept[1..], removed, kept'[1..], removed');
      assert left[0] == right[0] && left[1] == right[1] && left[2] == right[2];
      LineUnique(h, kept[0], kept'[0]);
      assert kept == [kept[0]] + kept[1..] && kept' == [kept'[0]] + kept'[1..];
    }
  }

  lemma LineUnique(h: Hashing, a: Line, b: Line)
    requires h.Valid() && a.name == b.name && Flag(a) == Flag(b) && DigestText(h, a.source) == DigestText(h, b.source)
    ensures a == b
  {
    DigestFacts(h, a.source, b.source);
  }

  lemma {:induction false} LinesUnique(h: Hashing, a: seq<Line>, b: seq<Line>)
    requires h.Valid() && LineTokens(h, a) == LineTokens(h, b)
    ensures a == b
  {
    LineTokensLength(h, a);
    LineTokensLength(h, b);
    if a == [] {
    } else {
      var left, right := LineTokens(h, a), LineTokens(h, b);
      assert left[3..] == LineTokens(h, a[1..]) && right[3..] == LineTokens(h, b[1..]);
      LinesUnique(h, a[1..], b[1..]);
      assert left[0] == right[0] && left[1] == right[1] && left[2] == right[2];
      LineUnique(h, a[0], b[0]);
      assert a == [a[0]] + a[1..] && b == [b[0]] + b[1..];
    }
  }

  lemma TokensNulFree(h: Hashing, m: Material)
    requires h.Valid() && Clean(m)
    ensures AllNulFree(Tokens(h, m))
  {
    LineTokensNulFree(h, m.kept);
    LineTokensNulFree(h, m.removed);
  }

  /** The framing is uniquely decodable: packages with the same hash have the same material, even if
      a file is itself named like the separator. */
  lemma HashDeterminesMaterial(h: Hashing, p: Package, q: Package)
    requires h.Valid() && Clean(MaterialOf(h, p)) && Clean(MaterialOf(h, q))
    ensures PackageHash(h, p) == PackageHash(h, q) <==> MaterialOf(h, p) == MaterialOf(h, q)
  {
    var m, n := MaterialOf(h, p), MaterialOf(h, q);
    if PackageHash(h, p) == PackageHash(h, q) {
      TokensNulFree(h, m);
      TokensNulFree(h, n);
      var a, b := Tokens(h, m), Tokens(h, n);
      StreamUnique(a, b);
      assert a[0] == b[0] && a[1] == b[1] && a[2] == b[2];
      assert a[3..] == LineTokens(h, m.kept) + [REMOVED] + LineTokens(h, m.removed);
      assert b[3..] == LineTokens(h, n.kept) + [REMOVED] + LineTokens(h, n.removed);
      SplitUnique(h, m.kept, m.removed, n.kept, n.removed);
    }
  }

  // ---------- What the hash says of a package's own fields ----------

  /** Paths, digests, file names below the root and read errors hold no NUL byte. */
  ghost predicate CleanPackage(h: Hashing, p: Package) {
    && NulFree(p.pkgPath) && NulFree(p.modulePath) && NulFree(p.dependencyDigest)
    && (forall f :: f in p.files || f in p.removedFiles ==>
          NulFree(h.portable(p.analysisRoot, f.filename)) && (f.source.Unreadable? ==> NulFree(f.source.error)))
    && DistinctNames(p.files) && DistinctNames(p.removedFiles)
  }

  /** The files in the byte order of their names. */
  ghost predicate InNameOrder(sorted: seq<File>, files: seq<File>) {
    && multiset(sorted) == multiset(files)
    && forall i, j :: 0 <= i < j < |sorted| ==>
         sorted[i].filename == sorted[j].filename || ByteBefore(sorted[i].filename, sorted[j].filename)
  }

  /** One after the other, the files have the same names below their roots, flags and contents. */
  predicate SameFiles(h: Hashing, root: string, a: seq<File>, root': string, b: seq<File>) {
    |a| == |b| && forall i :: 0 <= i < |a| ==>
      && h.portable(root, a[i].filename) == h.portable(root', b[i].filename)
      && a[i].generated == b[i].generated && a[i].source == b[i].source
  }

  lemma SortedInNameOrder(files: seq<File>)
    ensures InNameOrder(Sorted(files, ByFilename), files)
  {
    FilenameOrder();
    SortedSorts(files, ByFilename);
    var sorted := Sorted(files, ByFilename);
    forall i, j | 0 <= i < j < |sorted|
      ensures sorted[i].filename == sorted[j].filename || ByteBefore(sorted[i].filename, sorted[j].filename)
    {
      assert ByFilename(sorted[i], sorted[j]);
      StringLeqMeans(sorted[i].filename, sorted[j].filename);
    }
  }

  /** One of the files has the same name below its root, flag and contents as `f`. */
  ghost predicate HasLike(h: Hashing, root: string, f: File, root': string, files: seq<File>) {
    exists g :: && g in files && g.generated == f.generated && g.source == f.source
                && h.portable(root', g.filename) == h.portable(root, f.filename)
  }

  lemma InNameOrderIsSorted(sorted: seq<File>, files: seq<File>)
    requires InNameOrder(sorted, files) && DistinctNames(files)
    ensures sorted == Sorted(files, ByFilename)
  {
    FilenameOrder();
    forall i, j | 0 <= i < j < |sorted| ensures ByFilename(sorted[i], sorted[j]) {
      StringLeqMeans(sorted[i].filename, sorted[j].filename);
    }
    forall x, y | x in files && y in files && ByFilename(x, y) && ByFilename(y, x) ensures x == y {
      StringLeqAntiSymmetric(x.filename, y.filename);
    }
    SortedIsTheOnly(files, sorted, ByFilename);
  }

  lemma SameLines(h: Hashing, root: string, a: seq<File>, root': string, b: seq<File>)
    ensures Lines(h, root, a) == Lines(h, root', b) <==> SameFiles(h, root, a, root', b)
  {
    var x, y := Lines(h, root, a), Lines(h, root', b);
    if x == y {
      assert |a| == |x| == |y| == |b|;
      forall i | 0 <= i < |a|
        ensures h.portable(root, a[i].filename) == h.portable(root', b[i].filename)
        ensures a[i].generated == b[i].generated && a[i].source == b[i].source
      {
        assert x[i] == y[i];
      }
    }
  }

  lemma CleanSorted(h: Hashing, p: Package)
    requires CleanPackage(h, p)
    ensures Clean(MaterialOf(h, p))
  {
    FilenameOrder();
    SortedSorts(p.files, ByFilename);
    SortedSorts(p.removedFiles, ByFilename);
    SameMultisetSameElements(Sorted(p.files, ByFilename), p.files);
    SameMultisetSameElements(Sorted(p.removedFiles, ByFilename), p.removedFiles);
    CleanLines(h, p.analysisRoot, Sorted(p.files, ByFilename));
    CleanLines(h, p.analysisRoot, Sorted(p.removedFiles, ByFilename));
  }

  lemma CleanLines(h: Hashing, root: string, files: seq<File>)
    requires forall f :: f in files ==>
      NulFree(h.portable(root, f.filename)) && (f.source.Unreadable? ==> NulFree(f.source.error))
    ensures forall line :: line in Lines(h, root, files) ==> CleanLine(line)
  {
    forall line | line in Lines(h, root, files) ensures CleanLine(line) {
      var i :| 0 <= i < |files| && Lines(h, root, files)[i] == line;
      assert files[i] in files;
    }
  }

  /** Two packages have the same hash exactly when they agree on path, module and dependency digest, and
      their kept and their removed files, each in name order, on names below the root, flags and contents. */
  lemma HashTellsPackages(h: Hashing, p: Package, q: Package, kept: seq<File>, removed: seq<File>,
                          kept': seq<File>, removed': seq<File>)
    requires h.Valid() && CleanPackage(h, p) && CleanPackage(h, q)
    requires InNameOrder(kept, p.files) && InNameOrder(removed, p.removedFiles)
    requires InNameOrder(kept', q.files) && InNameOrder(removed', q.removedFiles)
    ensures PackageHash(h, p) == PackageHash(h, q) <==>
      && p.pkgPath == q.pkgPath && p.modulePath == q.modulePath && p.dependencyDigest == q.dependencyDigest
      && SameFiles(h, p.analysisRoot, kept, q.analysisRoot, kept')
      && SameFiles(h, p.analysisRoot, removed, q.analysisRoot, removed')
  {
    InNameOrderIsSorted(kept, p.files);
    InNameOrderIsSorted(removed, p.removedFiles);
    InNameOrderIsSorted(kept', q.files);
    InNameOrderIsSorted(removed', q.removedFiles);
    CleanSorted(h, p);
    CleanSorted(h, q);
    SameLines(h, p.analysisRoot, kept, q.analysisRoot, kept');
    SameLines(h, p.analysisRoot, removed, q.analysisRoot, removed');
    HashDeterminesMaterial(h, p, q);
  }

  /** Every file of one package, kept or removed, has its like in a package with the same hash. */
  lemma HashTellsFile(h: Hashing, p: Package, q: Package, f: File)
    requires h.Valid() && CleanPackage(h, p) && CleanPackage(h, q) && PackageHash(h, p) == PackageHash(h, q)
    ensures f in p.files ==> HasLike(h, p.analysisRoot, f, q.analysisRoot, q.files)
    ensures f in p.removedFiles ==> HasLike(h, p.analysisRoot, f, q.analysisRoot, q.removedFiles)
  {
    SortedInNameOrder(p.files);
    SortedInNameOrder(p.removedFiles);
    SortedInNameOrder(q.files);
    SortedInNameOrder(q.removedFiles);
    var kept, removed := Sorted(p.files, ByFilename), Sorted(p.removedFiles, ByFilename);
    var kept', removed' := Sorted(q.files, ByFilename), Sorted(q.removedFiles, ByFilename);
    HashTellsPackages(h, p, q, kept, removed, kept', removed');
    if f in p.files { LikeOf(h, p.analysisRoot, kept, q.analysisRoot, kept', p.files, q.files, f); }
    if f in p.removedFiles {
      LikeOf(h, p.analysisRoot, removed, q.analysisRoot, removed', p.removedFiles, q.removedFiles, f);
    }
  }

  lemma LikeOf(h: Hashing, root: string, a: seq<File>, root': string, b: seq<File>,
               files: seq<File>, files': seq<File>, f: File)
    requires SameFiles(h, root, a, root', b) && f in files
    requires multiset(a) == multiset(files) && multiset(b) == multiset(files')
    ensures HasLike(h, root, f, root', files')
  {
    SameMultisetSameElements(a, files);
    SameMultisetSameElements(b, files');
    var i :| 0 <= i < |a| && a[i] == f;
    assert b[i] in b;
  }

  // ---------- Writing the stream ----------

  lemma AppendToken(written: string, tokens: seq<string>, token: string)
    ensures written + Stream(tokens) + token + ['\0'] == written + Stream(tokens + [token])
  {
    StreamConcat(tokens, [token]);
    assert Stream([token]) == token + ['\0'];
  }

  lemma {:induction false} LineTokensConcat(h: Hashing, a: seq<Line>, b: seq<Line>)
    ensures LineTokens(h, a + b) == LineTokens(h, a) + LineTokens(h, b)
  {
    if a == [] {
      assert a + b == b;
    } else {
      assert (a + b)[1..] == a[1..] + b;
      LineTokensConcat(h, a[1..], b);
    }
  }

  lemma LineTokensSnoc(h: Hashing, lines: seq<Line>, line: Line)
    ensures LineTokens(h, lines + [line])
            == LineTokens(h, lines) + [line.name] + [Flag(line)] + [DigestText(h, line.source)]
  {
    LineTokensConcat(h, lines, [line]);
    assert LineTokens(h, [line]) == [line.name] + [Flag(line)] + [DigestText(h, line.source)];
  }

  /** What has been written after `start` once the lines are written. */
  ghost function Written(h: Hashing, start: string, lines: seq<Line>): string { start + Stream(LineTokens(h, lines)) }

  /** One file: its name, its flag and its digest, each followed by a NUL byte. */
  method WriteLine(h: Hashing, written: string, root: string, file: File, ghost start: string, ghost before: seq<Line>)
    returns (out: string)
    requires written == Written(h, start, before)
    ensures out == Written(h, start, before + [Line(h.portable(root, file.filename), file.generated, file.source)])
  {
    ghost var line := Line(h.portable(root, file.filename), file.generated, file.source);
    ghost var tokens := LineTokens(h, before);
    LineTokensSnoc(h, before, line);
    out := written + h.portable(root, file.filename);
    out := out + ['\0'];
    AppendToken(start, tokens, line.name);
    if file.generated {
      out := out + GENERATED;
    }
    assert out == start + Stream(tokens + [line.name]) + Flag(line);
    out := out + ['\0'];
    AppendToken(start, tokens + [line.name], Flag(line));
    out := out + DigestText(h, file.source);
    out := out + ['\0'];
    AppendToken(start, tokens + [line.name] + [Flag(line)], DigestText(h, line.source));
  }

  method SortFiles(files: seq<File>) returns (sorted: seq<File>)
    requires DistinctNames(files)
    ensures sorted == Sorted(files, ByFilename)
  {
    FilenameOrder();
    SortsByName(files);
    sorted := SortSlice(files, ByFilename);
    SortedIsTheOnly(files, sorted, ByFilename);
  }

  method WriteSourceDigests(h: Hashing, written: string, root: string, files: seq<File>) returns (out: string)
    requires DistinctNames(files)
    ensures out == Written(h, written, Lines(h, root, Sorted(files, ByFilename)))
  {
    var sorted := SortFiles(files);
    ghost var lines := Lines(h, root, sorted);
    assert written + "" == written;
    out := written;
    for i := 0 to |sorted|
      invariant out == Written(h, written, lines[..i])
    {
      assert lines[..i + 1] == lines[..i] + [lines[i]];
      out := WriteLine(h, out, root, sorted[i], written, lines[..i]);
    }
    assert lines[..|sorted|] == lines;
  }

  lemma SortsByName(files: seq<File>)
    requires DistinctNames(files)
    ensures forall x, y :: x in files && y in files && ByFilename(x, y) && ByFilename(y, x) ==> x == y
  {
    StringOrder();
  }

  method ComputePackageHash(h: Hashing, p: Package) returns (hash: string)
    requires DistinctNames(p.files) && DistinctNames(p.removedFiles)
    ensures hash == PackageHash(h, p)
  {
    ghost var m := MaterialOf(h, p);
    var header := p.pkgPath + ['\0'] + p.modulePath + ['\0'] + p.dependencyDigest + ['\0'];
    var kept := WriteSourceDigests(h, header, p.analysisRoot, p.files);
    var separated := kept + REMOVED + ['\0'];
    var written := WriteSourceDigests(h, separated, p.analysisRoot, p.removedFiles);
    HeaderStream(m.pkgPath, m.modulePath, m.dependencyDigest);
    StreamOfParts([m.pkgPath, m.modulePath, m.dependencyDigest], LineTokens(h, m.kept), LineTokens(h, m.removed));
    hash := h.sha(written);
  }

  lemma HeaderStream(a: string, b: string, c: string)
    ensures Stream([a, b, c]) == a + ['\0'] + b + ['\0'] + c + ['\0']
  {
    assert [a, b, c][1..] == [b, c] && [b, c][1..] == [c] && [c][1..] == [];
    assert Stream([c]) == c + ['\0'];
  }

  lemma {:induction false} StreamOfParts(header: seq<string>, kept: seq<string>, removed: seq<string>)
    ensures Stream(header + (kept + [REMOVED] + removed))
            == Stream(header) + Stream(kept) + REMOVED + ['\0'] + Stream(removed)
  {
    StreamConcat(header, kept + [REMOVED] + removed);
    StreamConcat(kept + [REMOVED], removed);
    AppendToken(Stream(header), kept, REMOVED);
    Nested(Stream(header), Stream(kept + [REMOVED]), Stream(removed));
  }

  lemma Nested(a: string, b: string, c: string)
    ensures a + (b + c) == a + b + c
  {
  }
}
