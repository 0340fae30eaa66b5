/** Accepted findings: documents of fingerprints with a reason and perhaps an expiry date, their update
    from a report, and the filtering of reports by them. */
module Baseline {
  import opened Options
  import opened Ordering
  import Dates = ExpiryDates
  import Identity
  import Paths
  import Text

  type Issue = Identity.Issue

  const VERSION := 5
  const LEGACY_VERSION := 4

  datatype Entry = Entry(
    fingerprint: string, checkId: string, path: string, subject: string,
    reason: string, owner: string, expires: string)

  datatype Document = Document(version: int, entries: seq<Entry>)

  datatype Annotation = Annotation(reason: string, owner: string, expires: string)

  datatype DiffResult = DiffResult(added: seq<Issue>, stale: seq<Entry>, live: seq<Entry>)

  /** What baselines depend on besides the documents: the environment of identities, SHA-256 in
      hexadecimal, the path that goes into a fingerprint, the registered checks, and the form every
      fingerprint has. */
  datatype Environment = Environment(
    identity: Identity.Environment,
    sha: string -> string,
    fingerprintPath: (string, string) -> string,
    known: string -> bool,
    wellFormed: string -> bool)
  {
    ghost predicate Valid() {
      && (forall s, t :: sha(s) == sha(t) ==> s == t)
      && (forall s :: wellFormed(sha(s)))
    }

    function Path(x: Issue): string { identity.portable(x.root, x.pos.filename) }

    function FingerprintPath(x: Issue): string { fingerprintPath(x.root, x.pos.filename) }

    function Fingerprint(x: Issue): string {
      sha(Framed(x.ID(), FingerprintPath(x), x.subject, x.identity))
    }
  }

  // ---------- Fingerprints ----------

  function Framed(id: string, path: string, subject: string, identity: string): string {
    "solidlint/v4\0" + id + "\0" + path + "\0" + subject + "\0" + identity
  }

  lemma FramedNested(id: string, path: string, subject: string, identity: string)
    ensures Framed(id, path, subject, identity)
      == "solidlint/v4" + ['\0'] + (id + ['\0'] + (path + ['\0'] + (subject + ['\0'] + identity)))
  {
  }

  lemma FramedUnique(id: string, path: string, subject: string, identity: string,
                     id': string, path': string, subject': string, identity': string)
    requires '\0' !in id && '\0' !in path && '\0' !in subject
    requires '\0' !in id' && '\0' !in path' && '\0' !in subject'
    requires Framed(id, path, subject, identity) == Framed(id', path', subject', identity')
    ensures id == id' && path == path' && subject == subject' && identity == identity'
  {
    FramedNested(id, path, subject, identity);
    FramedNested(id', path', subject', identity');
    var s, s' := subject + ['\0'] + identity, subject' + ['\0'] + identity';
    var p, p' := path + ['\0'] + s, path' + ['\0'] + s';
    Text.CutUnique("solidlint/v4", id + ['\0'] + p, "solidlint/v4", id' + ['\0'] + p', '\0');
    Text.CutUnique(id, p, id', p', '\0');
    Text.CutUnique(path, s, path', s', '\0');
    Text.CutUnique(subject, identity, subject', identity', '\0');
  }

  predicate NulFree(env: Environment, x: Issue) {
    '\0' !in x.ID() && '\0' !in env.FingerprintPath(x) && '\0' !in x.subject
  }

  /** What goes into the fingerprints of two findings is the same. */
  predicate SameFingerprinted(env: Environment, x: Issue, y: Issue) {
    x.ID() == y.ID() && env.FingerprintPath(x) == env.FingerprintPath(y) && x.subject == y.subject &&
      x.identity == y.identity
  }

  /** Fingerprints agree exactly when check, fingerprint path, subject and identity do; where the portable
      paths agree too, so do the keys. */
  lemma FingerprintUnique(env: Environment, x: Issue, y: Issue)
    requires env.Valid() && NulFree(env, x) && NulFree(env, y)
    ensures env.Fingerprint(x) == env.Fingerprint(y) <==> SameFingerprinted(env, x, y)
    ensures env.Fingerprint(x) == env.Fingerprint(y) && env.Path(x) == env.Path(y) ==>
      Identity.Key(env.identity, x) == Identity.Key(env.identity, y)
  {
    if env.Fingerprint(x) == env.Fingerprint(y) {
      FramedUnique(x.ID(), env.FingerprintPath(x), x.subject, x.identity,
        y.ID(), env.FingerprintPath(y), y.subject, y.identity);
    }
  }

  /** In this report the fingerprint path tells as much as the portable path: findings that only differ
      in the latter do not occur. */
  ghost predicate PathsTold(env: Environment, issues: seq<Issue>) {
    forall x, y :: x in issues && y in issues && SameFingerprinted(env, x, y) ==> env.Path(x) == env.Path(y)
  }

  ghost predicate DistinctFindings(env: Environment, issues: seq<Issue>) {
    forall i, j :: 0 <= i < j < |issues| ==> env.Fingerprint(issues[i]) != env.Fingerprint(issues[j])
  }

  ghost predicate Identified(env: Environment, current: seq<Issue>) {
    Identity.AllIdentified(current) && Identity.KeysDistinct(env.identity, current)
  }

  /** A report that the final check accepts has as many fingerprints as findings exactly when fingerprint
      paths tell its findings apart as well as portable paths do. */
  lemma IdentifiedDistinct(env: Environment, issues: seq<Issue>)
    requires env.Valid() && Identified(env, issues) && forall x :: x in issues ==> NulFree(env, x)
    ensures DistinctFindings(env, issues) <==> PathsTold(env, issues)
  {
    if PathsTold(env, issues) {
      forall i, j | 0 <= i < j < |issues| ensures env.Fingerprint(issues[i]) != env.Fingerprint(issues[j]) {
        assert issues[i] in issues && issues[j] in issues;
        FingerprintUnique(env, issues[i], issues[j]);
      }
    } else {
      var x, y :| x in issues && y in issues && SameFingerprinted(env, x, y) && env.Path(x) != env.Path(y);
      FingerprintUnique(env, x, y);
      var i :| 0 <= i < |issues| && issues[i] == x;
      var j :| 0 <= j < |issues| && issues[j] == y;
      assert i < j || j < i;
    }
  }

  /** Both forms of a file name are the ones of the path policy. */
  ghost predicate FollowsNaming(env: Environment, naming: Paths.Naming) {
    forall root, filename ::
      && env.identity.portable(root, filename) == naming.Portable(root, filename)
      && env.fingerprintPath(root, filename) == naming.FingerprintPath(root, filename)
  }

  /** The finding is placed without drive letters, and in a Go file if it is inside the root. */
  predicate InGoFile(env: Environment, naming: Paths.Naming, x: Issue) {
    && Paths.Plain(Paths.Place(x.root, x.pos.filename))
    && (naming.Inside(x.root, x.pos.filename) ==> Paths.GoFile(env.Path(x)))
  }

  /** The path policy tells the findings of Go files apart, wherever the files outside the root lie. */
  lemma GoFilesPathsTold(env: Environment, naming: Paths.Naming, issues: seq<Issue>)
    requires naming.Valid() && FollowsNaming(env, naming)
    requires forall x :: x in issues ==> InGoFile(env, naming, x)
    ensures PathsTold(env, issues)
  {
    forall x, y | x in issues && y in issues && SameFingerprinted(env, x, y) ensures env.Path(x) == env.Path(y) {
      Paths.GoFilesTold(naming, Paths.Place(x.root, x.pos.filename), Paths.Place(y.root, y.pos.filename));
    }
  }

  /** For instance a finding outside the root, and the same one in a file of the root that is named like
      the digest of the first one's path: the final check accepts both, and they share a fingerprint. */
  lemma ExternalClash(env: Environment, x: Issue, digest: string) returns (y: Issue)
    requires env.Valid() && NulFree(env, x) && '\0' !in digest && x.subject != "" && x.identity != ""
    requires x.root == "/repo" && x.pos.filename == "/elsewhere/a.go" && env.Path(x) == "/elsewhere/a.go"
    requires env.FingerprintPath(x) == "external:" + digest
    requires env.identity.portable("/repo", "/repo/external:" + digest) == "external:" + digest
    requires env.fingerprintPath("/repo", "/repo/external:" + digest) == "external:" + digest
    ensures y == x.(pos := x.pos.(filename := "/repo/external:" + digest))
    ensures Identified(env, [x, y]) && env.Fingerprint(x) == env.Fingerprint(y) && !PathsTold(env, [x, y])
  {
    y := x.(pos := x.pos.(filename := "/repo/external:" + digest));
    assert env.Path(x)[0] != env.Path(y)[0];
    Identity.KeyParts(env.identity, x, y);
    assert [x, y][0] in [x, y] && [x, y][1] in [x, y];
    assert SameFingerprinted(env, x, y);
  }

  // ---------- Reasons and valid entries ----------

  const PLACEHOLDERS := ["accepted for now", "todo", "ignore", "temporary"]

  /** At least twelve characters once trimmed, and not a placeholder. */
  predicate ReasonAccepted(reason: string) {
    var r := Text.TrimSpace(reason);
    |r| >= 12 && Text.Lower(r) !in PLACEHOLDERS
  }

  predicate ValidEntry(env: Environment, e: Entry) {
    && env.wellFormed(e.fingerprint) && env.known(e.checkId)
    && Text.TrimSpace(e.path) != "" && Text.TrimSpace(e.subject) != ""
    && ReasonAccepted(e.reason)
    && (e.expires == "" || Dates.Parse(e.expires).Some?)
  }

  ghost predicate DistinctFingerprints(entries: seq<Entry>) {
    forall i, j :: 0 <= i < j < |entries| ==> entries[i].fingerprint != entries[j].fingerprint
  }

  ghost predicate ValidEntries(env: Environment, entries: seq<Entry>) {
    (forall e :: e in entries ==> ValidEntry(env, e)) && DistinctFingerprints(entries)
  }

  function Fingerprints(entries: seq<Entry>): set<string> { set e | e in entries :: e.fingerprint }

  function CurrentSet(env: Environment, issues: seq<Issue>): set<string> { set x | x in issues :: env.Fingerprint(x) }

  // ---------- Validating, loading and reading ----------

  datatype Result<T> = Success(value: T) | Failure(at: nat)

  lemma FingerprintsSnoc(entries: seq<Entry>, e: Entry)
    ensures Fingerprints(entries + [e]) == Fingerprints(entries) + {e.fingerprint}
  {
    forall f | f in Fingerprints(entries) ensures f in Fingerprints(entries + [e]) {
      var x :| x in entries && x.fingerprint == f;
      assert x in entries + [e];
    }
    assert e in entries + [e];
  }

  lemma DistinctSnoc(entries: seq<Entry>, e: Entry)
    ensures DistinctFingerprints(entries + [e]) <==>
      DistinctFingerprints(entries) && e.fingerprint !in Fingerprints(entries)
  {
    var all := entries + [e];
    if DistinctFingerprints(all) {
      forall i, j | 0 <= i < j < |entries| ensures entries[i].fingerprint != entries[j].fingerprint {
        assert all[i] == entries[i] && all[j] == entries[j];
      }
      forall x | x in entries ensures x.fingerprint != e.fingerprint {
        var i :| 0 <= i < |entries| && entries[i] == x;
        assert all[i] == x && all[|entries|] == e;
      }
    }
  }

  lemma ValidSnoc(env: Environment, entries: seq<Entry>, e: Entry)
    ensures ValidEntries(env, entries + [e]) <==>
      ValidEntries(env, entries) && ValidEntry(env, e) && e.fingerprint !in Fingerprints(entries)
  {
    DistinctSnoc(entries, e);
    assert forall x :: x in entries + [e] <==> x in entries || x == e;
  }

  /** The index of the first entry that is malformed or repeats a fingerprint, if any. */
  method ValidateDocument(env: Environment, entries: seq<Entry>) returns (result: Result<()>)
    ensures result.Success? <==> ValidEntries(env, entries)
    ensures result.Failure? ==> result.at < |entries|
    ensures result.Failure? ==> ValidEntries(env, entries[..result.at]) && !ValidEntries(env, entries[..result.at + 1])
  {
    var seen: set<string> := {};
    for index := 0 to |entries|
      invariant ValidEntries(env, entries[..index])
      invariant seen == Fingerprints(entries[..index])
    {
      var entry := entries[index];
      assert entries[..index + 1] == entries[..index] + [entry];
      ValidSnoc(env, entries[..index], entry);
      FingerprintsSnoc(entries[..index], entry);
      if entry.fingerprint in seen || !ValidEntry(env, entry) {
        ValidPrefix(env, entries, index + 1);
        return Failure(index);
      }
      seen := seen + {entry.fingerprint};
    }
    assert entries[..|entries|] == entries;
    return Success(());
  }

  lemma ValidPrefix(env: Environment, entries: seq<Entry>, n: nat)
    requires n <= |entries|
    ensures ValidEntries(env, entries) ==> ValidEntries(env, entries[..n])
  {
  }

  predicate FingerprintLeq(a: Entry, b: Entry) { StringLeq(a.fingerprint, b.fingerprint) }

  lemma FingerprintOrder()
    ensures TotalPreorder(FingerprintLeq)
  {
    StringOrder();
  }

  /** With distinct fingerprints there is one sorted arrangement, whatever the sort does with ties. */
  lemma SortedEntries(entries: seq<Entry>, sorted: seq<Entry>)
    requires DistinctFingerprints(entries)
    requires SortedBy(sorted, FingerprintLeq) && multiset(sorted) == multiset(entries)
    ensures sorted == Sorted(entries, FingerprintLeq)
  {
    FingerprintOrder();
    forall x, y | x in entries && y in entries && FingerprintLeq(x, y) && FingerprintLeq(y, x) ensures x == y {
      StringLeqAntiSymmetric(x.fingerprint, y.fingerprint);
      var i :| 0 <= i < |entries| && entries[i] == x;
      var j :| 0 <= j < |entries| && entries[j] == y;
    }
    SortedIsTheOnly(entries, sorted, FingerprintLeq);
  }

  lemma ValidPermuted(env: Environment, a: seq<Entry>, b: seq<Entry>)
    requires multiset(a) == multiset(b) && ValidEntries(env, a)
    ensures ValidEntries(env, b)
  {
    SameMultisetSameElements(a, b);
    KeysStayDistinct(a, b, (e: Entry) => e.fingerprint);
  }

  /** A stored document, once decoded: of the old form, of the present form, or of another version. */
  datatype Stored = Legacy(fingerprints: seq<string>) | Present(entries: seq<Entry>) | Unsupported(version: int)

  datatype Loaded =
    | Loaded(document: Document)
    | MalformedFingerprint(at: nat)
    | InvalidEntry(at: nat)
    | UnsupportedVersion

  function Unannotated(fingerprint: string): Entry { Entry(fingerprint, "", "", "", "", "", "") }

  /** What loading an old document yields: well-formed fingerprints, none of them with a reason. */
  ghost predicate FromLegacy(env: Environment, document: Document) {
    && document.version == LEGACY_VERSION
    && forall e :: e in document.entries ==> env.wellFormed(e.fingerprint) && e == Unannotated(e.fingerprint)
  }

  lemma LoadedLegacy(env: Environment, fingerprints: seq<string>, sorted: seq<Entry>)
    requires forall f :: f in fingerprints ==> env.wellFormed(f)
    requires multiset(sorted) == multiset(Map(Unannotated, fingerprints))
    ensures FromLegacy(env, Document(LEGACY_VERSION, sorted))
  {
    SameMultisetSameElements(sorted, Map(Unannotated, fingerprints));
    forall e | e in sorted ensures env.wellFormed(e.fingerprint) && e == Unannotated(e.fingerprint) {
      MapElement(Unannotated, fingerprints, e);
    }
  }

  /** Old documents become entries without a reason; present ones must be valid. Both come out sorted. */
  method Load(env: Environment, stored: Stored) returns (loaded: Loaded)
    ensures stored.Legacy? ==> (loaded.Loaded? <==> forall f :: f in stored.fingerprints ==> env.wellFormed(f))
    ensures stored.Present? ==> (loaded.Loaded? <==> ValidEntries(env, stored.entries))
    ensures stored.Unsupported? ==> !loaded.Loaded?
    ensures loaded.Loaded? ==> SortedBy(loaded.document.entries, FingerprintLeq)
    ensures loaded.Loaded? ==> loaded.document.version == if stored.Legacy? then LEGACY_VERSION else VERSION
    ensures loaded.Loaded? && stored.Legacy? ==>
      multiset(loaded.document.entries) == multiset(Map(Unannotated, stored.fingerprints)) &&
        FromLegacy(env, loaded.document)
    ensures loaded.Loaded? && stored.Present? ==> loaded.document.entries == Sorted(stored.entries, FingerprintLeq)
  {
    FingerprintOrder();
    match stored
    case Legacy(fingerprints) =>
      var entries: seq<Entry> := [];
      for index := 0 to |fingerprints|
        invariant forall f :: f in fingerprints[..index] ==> env.wellFormed(f)
        invariant entries == Map(Unannotated, fingerprints[..index])
      {
        if !env.wellFormed(fingerprints[index]) { return MalformedFingerprint(index); }
        assert fingerprints[..index + 1] == fingerprints[..index] + [fingerprints[index]];
        entries := entries + [Unannotated(fingerprints[index])];
      }
      assert fingerprints[..|fingerprints|] == fingerprints;
      var sorted := SortSlice(entries, FingerprintLeq);
      LoadedLegacy(env, fingerprints, sorted);
      return Loaded(Document(LEGACY_VERSION, sorted));
    case Present(entries) =>
      var result := ValidateDocument(env, entries);
      if result.Failure? { return InvalidEntry(result.at); }
      var sorted := SortSlice(entries, FingerprintLeq);
      SortedEntries(entries, sorted);
      return Loaded(Document(VERSION, sorted));
    case Unsupported(_) =>
      return UnsupportedVersion;
  }

  // ---------- Expiry ----------

  predicate Expired(e: Entry, today: string) {
    e.expires != "" && StringLeq(e.expires, today) && e.expires != today
  }

  /** An entry is active through its expiry date and expired from the next day on. */
  lemma ActiveThroughExpiry(e: Entry, expiry: Dates.Date, today: Dates.Date)
    requires Dates.Parse(e.expires) == Some(expiry) && today.Valid()
    ensures Expired(e, today.Format()) <==> expiry.Before(today)
  {
    Dates.ParseIffFormat(e.expires, expiry);
    Dates.DateOrder(expiry, today);
  }

  ghost function AcceptedAt(entries: seq<Entry>, today: string): set<string> {
    set e | e in entries && !Expired(e, today) :: e.fingerprint
  }

  function ExpiredAt(entries: seq<Entry>, today: string): seq<Entry> {
    if entries == [] then []
    else
      var last := entries[|entries| - 1];
      ExpiredAt(entries[..|entries| - 1], today) + if Expired(last, today) then [last] else []
  }

  lemma AcceptedSnoc(entries: seq<Entry>, e: Entry, today: string)
    ensures AcceptedAt(entries + [e], today) ==
      AcceptedAt(entries, today) + if Expired(e, today) then {} else {e.fingerprint}
  {
    forall f | f in AcceptedAt(entries, today) ensures f in AcceptedAt(entries + [e], today) {
      var x :| x in entries && !Expired(x, today) && x.fingerprint == f;
      assert x in entries + [e];
    }
    assert e in entries + [e];
  }

  /** The accepted fingerprints of a loaded document on a day, and its expired entries in order. */
  method ReadAt(document: Document, today: string) returns (accepted: set<string>, expired: seq<Entry>)
    ensures accepted == AcceptedAt(document.entries, today)
    ensures expired == ExpiredAt(document.entries, today)
  {
    var entries := document.entries;
    accepted, expired := {}, [];
    for i := 0 to |entries|
      invariant accepted == AcceptedAt(entries[..i], today)
      invariant expired == ExpiredAt(entries[..i], today)
    {
      var entry := entries[i];
      assert entries[..i + 1] == entries[..i] + [entry];
      assert entries[..i + 1][..i] == entries[..i];
      AcceptedSnoc(entries[..i], entry, today);
      if Expired(entry, today) {
        expired := expired + [entry];
      } else {
        accepted := accepted + {entry.fingerprint};
      }
    }
    assert entries[..|entries|] == entries;
  }

  // ---------- Diff ----------

  /** The entries whose fingerprint is, or is not, among `fingerprints`, in order. */
  function Matching(entries: seq<Entry>, fingerprints: set<string>, among: bool): (r: seq<Entry>)
    ensures forall e :: e in r <==> e in entries && (e.fingerprint in fingerprints) == among
  {
    if entries == [] then []
    else
      var last := entries[|entries| - 1];
      assert entries == entries[..|entries| - 1] + [last];
      Matching(entries[..|entries| - 1], fingerprints, among)
      + if (last.fingerprint in fingerprints) == among then [last] else []
  }

  /** The findings whose fingerprint is not among `fingerprints`, in order. */
  function Missing(env: Environment, issues: seq<Issue>, fingerprints: set<string>): (r: seq<Issue>)
    ensures forall x :: x in r <==> x in issues && env.Fingerprint(x) !in fingerprints
  {
    if issues == [] then []
    else
      var last := issues[|issues| - 1];
      assert issues == issues[..|issues| - 1] + [last];
      Missing(env, issues[..|issues| - 1], fingerprints) + if env.Fingerprint(last) in fingerprints then [] else [last]
  }

  /** The findings by fingerprint; a later one wins. */
  function ByFingerprint(env: Environment, issues: seq<Issue>): (lookup: map<string, Issue>)
    ensures forall f :: f in lookup ==> lookup[f] in issues && env.Fingerprint(lookup[f]) == f
    ensures forall x :: x in issues ==> env.Fingerprint(x) in lookup
  {
    if issues == [] then map[]
    else
      var last := issues[|issues| - 1];
      assert issues == issues[..|issues| - 1] + [last];
      ByFingerprint(env, issues[..|issues| - 1])[env.Fingerprint(last) := last]
  }

  function IssueLeq(env: Environment): (Issue, Issue) -> bool {
    (x, y) => StringLeq(env.Fingerprint(x), env.Fingerprint(y))
  }

  method IndexIssues(env: Environment, issues: seq<Issue>) returns (lookup: map<string, Issue>)
    ensures lookup == ByFingerprint(env, issues)
  {
    lookup := map[];
    for i := 0 to |issues|
      invariant lookup == ByFingerprint(env, issues[..i])
    {
      assert issues[..i + 1][..i] == issues[..i];
      lookup := lookup[env.Fingerprint(issues[i]) := issues[i]];
    }
    assert issues[..|issues|] == issues;
  }

  method SplitEntries(entries: seq<Entry>, current: set<string>)
    returns (live: seq<Entry>, stale: seq<Entry>, existing: set<string>)
    ensures live == Matching(entries, current, true) && stale == Matching(entries, current, false)
    ensures existing == Fingerprints(entries)
  {
    live, stale, existing := [], [], {};
    for i := 0 to |entries|
      invariant live == Matching(entries[..i], current, true)
      invariant stale == Matching(entries[..i], current, false)
      invariant existing == Fingerprints(entries[..i])
    {
      var entry := entries[i];
      assert entries[..i + 1][..i] == entries[..i];
      assert entries[..i + 1] == entries[..i] + [entry];
      FingerprintsSnoc(entries[..i], entry);
      existing := existing + {entry.fingerprint};
      if entry.fingerprint in current {
        live := live + [entry];
      } else {
        stale := stale + [entry];
      }
    }
    assert entries[..|entries|] == entries;
  }

  /** The three parts of the comparison, each sorted by fingerprint. */
  ghost predicate Compared(env: Environment, document: Document, current: seq<Issue>, d: DiffResult) {
    && SortedBy(d.live, FingerprintLeq) && SortedBy(d.stale, FingerprintLeq) && SortedBy(d.added, IssueLeq(env))
    && multiset(d.live) == multiset(Matching(document.entries, CurrentSet(env, current), true))
    && multiset(d.stale) == multiset(Matching(document.entries, CurrentSet(env, current), false))
    && multiset(d.added) == multiset(Missing(env, current, Fingerprints(document.entries)))
  }

  /** The findings that have no entry. */
  method NewFindings(env: Environment, current: seq<Issue>, existing: set<string>) returns (added: seq<Issue>)
    ensures added == Missing(env, current, existing)
  {
    added := [];
    for i := 0 to |current|
      invariant added == Missing(env, current[..i], existing)
    {
      MissingNext(env, current, i, existing);
      if env.Fingerprint(current[i]) !in existing {
        added := added + [current[i]];
      }
    }
    assert current[..|current|] == current;
  }

  lemma IssueOrder(env: Environment)
    ensures TotalPreorder(IssueLeq(env))
  {
    StringOrder();
  }

  method Diff(env: Environment, document: Document, current: seq<Issue>) returns (d: DiffResult)
    ensures Compared(env, document, current, d)
  {
    FingerprintOrder();
    IssueOrder(env);
    var lookup := IndexIssues(env, current);
    assert lookup.Keys == CurrentSet(env, current);
    var live, stale, existing := SplitEntries(document.entries, lookup.Keys);
    var added := NewFindings(env, current, existing);
    added := SortSlice(added, IssueLeq(env));
    stale := SortSlice(stale, FingerprintLeq);
    live := SortSlice(live, FingerprintLeq);
    d := DiffResult(added, stale, live);
  }

  // ---------- Update ----------

  function EntryOf(env: Environment, annotation: Annotation, x: Issue): Entry {
    Entry(env.Fingerprint(x), x.check, env.Path(x), x.subject,
      Text.TrimSpace(annotation.reason), Text.TrimSpace(annotation.owner), Text.TrimSpace(annotation.expires))
  }

  /** A live entry after the update: one without a reason gets the annotation, any other keeps its own. */
  function Refreshed(env: Environment, lookup: map<string, Issue>, annotation: Annotation, e: Entry): Entry {
    if e.fingerprint !in lookup then e
    else
      var x := lookup[e.fingerprint];
      if e.reason == "" then EntryOf(env, annotation, x)
      else e.(checkId := x.check, path := env.Path(x), subject := x.subject)
  }

  function EntryFor(env: Environment, annotation: Annotation): Issue -> Entry { x => EntryOf(env, annotation, x) }

  function Refresh(env: Environment, lookup: map<string, Issue>, annotation: Annotation): Entry -> Entry {
    e => Refreshed(env, lookup, annotation, e)
  }

  function Candidates(env: Environment, document: Document, current: seq<Issue>, annotation: Annotation,
                      prune: bool): seq<Entry>
  {
    var fingerprints := CurrentSet(env, current);
    Map(Refresh(env, ByFingerprint(env, current), annotation), Matching(document.entries, fingerprints, true))
    + Map(EntryFor(env, annotation), Missing(env, current, Fingerprints(document.entries)))
    + if prune then [] else Matching(document.entries, fingerprints, false)
  }

  /** New findings need a reason, and so do the live ones of an old document. */
  predicate NeedsReason(env: Environment, document: Document, current: seq<Issue>) {
    || Missing(env, current, Fingerprints(document.entries)) != []
    || (document.version == LEGACY_VERSION && Matching(document.entries, CurrentSet(env, current), true) != [])
  }

  ghost predicate Successful(env: Environment, document: Document, current: seq<Issue>, annotation: Annotation,
                             prune: bool)
  {
    && Identified(env, current)
    && (NeedsReason(env, document, current) ==> ReasonAccepted(annotation.reason))
    && ValidEntries(env, Candidates(env, document, current, annotation, prune))
  }

  function UpdateOf(env: Environment, document: Document, current: seq<Issue>, annotation: Annotation,
                    prune: bool): Document
  {
    Document(VERSION, Sorted(Candidates(env, document, current, annotation, prune), FingerprintLeq))
  }

  datatype Outcome =
    | Updated(document: Document, diff: DiffResult)
    | Collides(verdict: Identity.Verdict)
    | ReasonMissing(diff: DiffResult)
    | Malformed(at: nat, diff: DiffResult)

  method BuildEntries(env: Environment, d: DiffResult, current: seq<Issue>, annotation: Annotation, prune: bool)
    returns (entries: seq<Entry>)
    ensures entries == Map(Refresh(env, ByFingerprint(env, current), annotation), d.live)
      + Map(EntryFor(env, annotation), d.added) + if prune then [] else d.stale
  {
    var lookup := IndexIssues(env, current);
    var refreshed: seq<Entry> := [];
    for i := 0 to |d.live|
      invariant refreshed == Map(Refresh(env, lookup, annotation), d.live[..i])
    {
      MapNext(Refresh(env, lookup, annotation), d.live, i);
      refreshed := refreshed + [Refreshed(env, lookup, annotation, d.live[i])];
    }
    var created: seq<Entry> := [];
    for i := 0 to |d.added|
      invariant created == Map(EntryFor(env, annotation), d.added[..i])
    {
      MapNext(EntryFor(env, annotation), d.added, i);
      created := created + [EntryOf(env, annotation, d.added[i])];
    }
    assert d.live[..|d.live|] == d.live && d.added[..|d.added|] == d.added;
    entries := refreshed + created + if prune then [] else d.stale;
  }

  lemma {:induction false} BuiltFromSorted(env: Environment, document: Document, current: seq<Issue>,
                                           annotation: Annotation, prune: bool,
                        d: DiffResult, entries: seq<Entry>)
    requires Compared(env, document, current, d)
    requires entries == Map(Refresh(env, ByFingerprint(env, current), annotation), d.live)
      + Map(EntryFor(env, annotation), d.added) + if prune then [] else d.stale
    ensures multiset(entries) == multiset(Candidates(env, document, current, annotation, prune))
  {
    MapMultiset(Refresh(env, ByFingerprint(env, current), annotation), d.live,
      Matching(document.entries, CurrentSet(env, current), true));
    MapMultiset(EntryFor(env, annotation), d.added, Missing(env, current, Fingerprints(document.entries)));
  }

  lemma ReasonNeededIff(env: Environment, document: Document, current: seq<Issue>, d: DiffResult)
    requires Compared(env, document, current, d)
    ensures NeedsReason(env, document, current) <==>
      |d.added| > 0 || (document.version == LEGACY_VERSION && |d.live| > 0)
  {
    SameMultisetSameElements(d.added, Missing(env, current, Fingerprints(document.entries)));
    SameMultisetSameElements(d.live, Matching(document.entries, CurrentSet(env, current), true));
  }

  /** Finalizes the report in place, then computes the new document or says why there is none. */
  method Update(env: Environment, document: Document, current: array<Issue>, annotation: Annotation, prune: bool)
    returns (outcome: Outcome)
    modifies current
    ensures var all := Identity.CompletedAll(env.identity, old(current[..]), "workspace");
      && (outcome.Collides? <==> !Identified(env, all))
      && (outcome.ReasonMissing? <==>
            Identified(env, all) && NeedsReason(env, document, all) && !ReasonAccepted(annotation.reason))
      && (outcome.Updated? <==> Successful(env, document, all, annotation, prune))
      && (outcome.Updated? ==> current[..] == all && Compared(env, document, all, outcome.diff))
      && (outcome.Updated? ==> outcome.document == UpdateOf(env, document, all, annotation, prune))
  {
    ghost var all := Identity.CompletedAll(env.identity, current[..], "workspace");
    var verdict := Identity.FinalizeIssues(env.identity, current, "workspace");
    Identity.AcceptedIff(env.identity, all, verdict);
    if !verdict.Accepted? {
      return Collides(verdict);
    }
    var issues := current[..];
    var diff := Diff(env, document, issues);
    ReasonNeededIff(env, document, issues, diff);
    if |diff.added| > 0 || (document.version == LEGACY_VERSION && |diff.live| > 0) {
      if !ReasonAccepted(annotation.reason) {
        return ReasonMissing(diff);
      }
    }
    var entries := BuildEntries(env, diff, issues, annotation, prune);
    ghost var candidates := Candidates(env, document, issues, annotation, prune);
    BuiltFromSorted(env, document, issues, annotation, prune, diff, entries);
    FingerprintOrder();
    entries := SortSlice(entries, FingerprintLeq);
    if ValidEntries(env, candidates) { ValidPermuted(env, candidates, entries); }
    var result := ValidateDocument(env, entries);
    if result.Failure? {
      return Malformed(result.at, diff);
    }
    ValidPermuted(env, entries, candidates);
    SortedEntries(candidates, entries);
    return Updated(Document(VERSION, entries), diff);
  }

  // ---------- Filter and stale ----------

  /** Filters in place: the findings that are not accepted move to the front of the same array,
      whose first `n` cells are the result. */
  method Filter(env: Environment, issues: array<Issue>, accepted: set<string>) returns (n: nat)
    modifies issues
    ensures n <= issues.Length && issues[..n] == Missing(env, old(issues[..]), accepted)
  {
    ghost var was := issues[..];
    n := 0;
    for i := 0 to issues.Length
      invariant n <= i && issues[..n] == Missing(env, was[..i], accepted)
      invariant forall k :: i <= k < issues.Length ==> issues[k] == was[k]
    {
      MissingNext(env, was, i, accepted);
      var issue := issues[i];
      if env.Fingerprint(issue) !in accepted {
        Put(issues, n, issue);
        n := n + 1;
      }
    }
    assert was[..issues.Length] == was;
  }

  method Put(issues: array<Issue>, n: nat, x: Issue)
    requires n < issues.Length
    modifies issues
    ensures issues[..n + 1] == old(issues[..n]) + [x]
    ensures forall k :: n < k < issues.Length ==> issues[k] == old(issues[k])
  {
    issues[n] := x;
  }

  lemma {:induction false} MissingNext(env: Environment, issues: seq<Issue>, i: nat, fingerprints: set<string>)
    requires i < |issues|
    ensures Missing(env, issues[..i + 1], fingerprints) == Missing(env, issues[..i], fingerprints)
      + if env.Fingerprint(issues[i]) in fingerprints then [] else [issues[i]]
  {
    assert issues[..i + 1][..i] == issues[..i];
  }

  /** The accepted fingerprints that no finding has, sorted; the set is ranged over in any order. */
  method Stale(env: Environment, accepted: set<string>, current: seq<Issue>) returns (stale: seq<string>)
    ensures SortedBy(stale, StringLeq) && forall i, j :: 0 <= i < j < |stale| ==> stale[i] != stale[j]
    ensures forall f :: f in stale <==> f in accepted && f !in CurrentSet(env, current)
  {
    StringOrder();
    var present: set<string> := {};
    for i := 0 to |current|
      invariant present == CurrentSet(env, current[..i])
    {
      assert current[..i + 1] == current[..i] + [current[i]];
      assert forall x :: x in current[..i + 1] <==> x in current[..i] || x == current[i];
      present := present + {env.Fingerprint(current[i])};
    }
    assert current[..|current|] == current;
    var todo, found := accepted, [];
    while todo != {}
      invariant todo <= accepted
      invariant forall f :: f in found <==> f in accepted && f !in todo && f !in present
      invariant forall i, j :: 0 <= i < j < |found| ==> found[i] != found[j]
      decreases |todo|
    {
      var fingerprint :| fingerprint in todo;
      todo := todo - {fingerprint};
      if fingerprint !in present {
        found := found + [fingerprint];
      }
    }
    stale := SortSlice(found, StringLeq);
    KeysStayDistinct(found, stale, (f: string) => f);
    SameMultisetSameElements(found, stale);
  }
}
