/** What baseline entries, reasons and expiry dates mean on the texts themselves, and in which order and
    how often entries and findings appear in what the baseline operations return. */
module EntryLaws {
  import opened Baseline
  import opened Options
  import opened Ordering
  import Dates = ExpiryDates
  import Text

  // ---------- Reasons and entries ----------

  lemma PlaceholderLower(p: string)
    requires p in PLACEHOLDERS
    ensures Text.Lower(p) == p
  {
    assert forall i :: 0 <= i < |p| ==> !('A' <= p[i] <= 'Z');
  }

  /** A reason is accepted exactly when, trimmed, it has twelve characters and is not a spelling of the one
      placeholder of that length. */
  lemma ReasonMeans(reason: string)
    ensures ReasonAccepted(reason) <==>
      |Text.TrimSpace(reason)| >= 12 && !Text.SameBarCase(Text.TrimSpace(reason), "accepted for now")
  {
    var r, p := Text.TrimSpace(reason), "accepted for now";
    assert PLACEHOLDERS[0] == p;
    PlaceholderLower(p);
    Text.LowerMeans(r, p);
    assert |Text.Lower(r)| == |r|;
    assert forall q :: q in PLACEHOLDERS ==> q == p || |q| < 12;
  }

  /** The text names a day of the calendar in the form YYYY-MM-DD. */
  ghost predicate NamesDay(s: string) { exists d: Dates.Date :: d.Valid() && d.Format() == s }

  /** An entry is valid exactly when its fingerprint is well formed, its check is registered, its path and
      subject are not blank, its reason is accepted, and it names the day of its expiry if it has one. */
  lemma EntryMeans(env: Environment, e: Entry)
    ensures ValidEntry(env, e) <==>
      && env.wellFormed(e.fingerprint) && env.known(e.checkId)
      && !Text.Blank(e.path) && !Text.Blank(e.subject)
      && |Text.TrimSpace(e.reason)| >= 12 && !Text.SameBarCase(Text.TrimSpace(e.reason), "accepted for now")
      && (e.expires == "" || NamesDay(e.expires))
  {
    var _, _ := Text.TrimSpaceMeans(e.path);
    var _, _ := Text.TrimSpaceMeans(e.subject);
    ReasonMeans(e.reason);
    if Dates.Parse(e.expires).Some? {
      Dates.ParseIffFormat(e.expires, Dates.Parse(e.expires).value);
    }
    if d: Dates.Date :| d.Valid() && d.Format() == e.expires {
      Dates.ParseIffFormat(e.expires, d);
    }
  }

  /** An entry without an expiry never expires; any other does on the days written after it. */
  lemma ExpiredMeans(e: Entry, today: string)
    ensures Expired(e, today) <==> e.expires != "" && ByteBefore(e.expires, today)
  {
    StringLeqMeans(e.expires, today);
  }

  // ---------- Order and number ----------

  /** The texts ascend byte by byte. */
  ghost predicate InByteOrder(texts: seq<string>) {
    forall i, j :: 0 <= i < j < |texts| ==> texts[i] == texts[j] || ByteBefore(texts[i], texts[j])
  }

  lemma EntriesInByteOrder(entries: seq<Entry>)
    ensures SortedBy(entries, FingerprintLeq) <==> InByteOrder(Map((e: Entry) => e.fingerprint, entries))
  {
    forall i, j | 0 <= i < j < |entries|
      ensures FingerprintLeq(entries[i], entries[j]) <==>
        entries[i].fingerprint == entries[j].fingerprint ||
        ByteBefore(entries[i].fingerprint, entries[j].fingerprint)
    {
      StringLeqMeans(entries[i].fingerprint, entries[j].fingerprint);
    }
    var texts := Map((e: Entry) => e.fingerprint, entries);
    assert |texts| == |entries| && forall i :: 0 <= i < |entries| ==> texts[i] == entries[i].fingerprint;
  }

  lemma FindingsInByteOrder(env: Environment, issues: seq<Issue>)
    ensures SortedBy(issues, IssueLeq(env)) <==> InByteOrder(Map((x: Issue) => env.Fingerprint(x), issues))
  {
    forall i, j | 0 <= i < j < |issues|
      ensures IssueLeq(env)(issues[i], issues[j]) <==>
        env.Fingerprint(issues[i]) == env.Fingerprint(issues[j]) ||
        ByteBefore(env.Fingerprint(issues[i]), env.Fingerprint(issues[j]))
    {
      StringLeqMeans(env.Fingerprint(issues[i]), env.Fingerprint(issues[j]));
    }
    var texts := Map((x: Issue) => env.Fingerprint(x), issues);
    assert |texts| == |issues| && forall i :: 0 <= i < |issues| ==> texts[i] == env.Fingerprint(issues[i]);
  }

  /** What a comparison says: live entries have a finding, stale ones have none, new findings have no entry. */
  lemma DiffMeans(env: Environment, document: Document, current: seq<Issue>, d: DiffResult)
    requires Compared(env, document, current, d)
    ensures forall e :: e in d.live <==> e in document.entries && HasFinding(env, current, e.fingerprint)
    ensures forall e :: e in d.stale <==> e in document.entries && !HasFinding(env, current, e.fingerprint)
    ensures forall x :: x in d.added <==> x in current && !HasEntry(document, env.Fingerprint(x))
  {
    var fingerprints := CurrentSet(env, current);
    SameMultisetSameElements(d.live, Matching(document.entries, fingerprints, true));
    SameMultisetSameElements(d.stale, Matching(document.entries, fingerprints, false));
    SameMultisetSameElements(d.added, Missing(env, current, Fingerprints(document.entries)));
  }

  ghost predicate HasFinding(env: Environment, current: seq<Issue>, fingerprint: string) {
    exists x :: x in current && env.Fingerprint(x) == fingerprint
  }

  ghost predicate HasEntry(document: Document, fingerprint: string) {
    exists e :: e in document.entries && e.fingerprint == fingerprint
  }

  /** A successful update writes version 5, with fingerprints strictly ascending byte by byte. */
  lemma {:induction false} UpdatedInByteOrder(env: Environment, document: Document, current: seq<Issue>,
                                              annotation: Annotation, prune: bool, i: nat, j: nat)
    requires Successful(env, document, current, annotation, prune)
    requires i < j < |UpdateOf(env, document, current, annotation, prune).entries|
    ensures var updated := UpdateOf(env, document, current, annotation, prune);
      updated.version == 5 && ByteBefore(updated.entries[i].fingerprint, updated.entries[j].fingerprint)
  {
    var entries := UpdateOf(env, document, current, annotation, prune).entries;
    var candidates := Candidates(env, document, current, annotation, prune);
    FingerprintOrder();
    SortedSorts(candidates, FingerprintLeq);
    ValidPermuted(env, candidates, entries);
    StringLeqMeans(entries[i].fingerprint, entries[j].fingerprint);
  }

  /** What loading an old document yields, entry by entry. */
  lemma LegacyEntries(env: Environment, document: Document, e: Entry)
    requires FromLegacy(env, document) && e in document.entries
    ensures document.version == 4 && env.wellFormed(e.fingerprint)
    ensures e.checkId == e.path == e.subject == e.reason == e.owner == e.expires == ""
  {
  }

  /** The expired entries of a document: all of them, as often and in the order they are listed. */
  lemma {:induction false} ExpiredInOrder(entries: seq<Entry>, today: string)
    ensures Picked(entries, (e: Entry) => e.expires != "" && ByteBefore(e.expires, today), ExpiredAt(entries, today))
  {
    var expired := (e: Entry) => e.expires != "" && ByteBefore(e.expires, today);
    if entries == [] {
      PickedNone(expired);
    } else {
      var init, last := entries[..|entries| - 1], entries[|entries| - 1];
      ExpiredInOrder(init, today);
      ExpiredMeans(last, today);
      PickedSnoc(init, expired, ExpiredAt(init, today), last);
      assert entries == init + [last];
    }
  }

  lemma {:induction false} MatchingInOrder(entries: seq<Entry>, fingerprints: set<string>, among: bool)
    ensures Picked(entries, (e: Entry) => (e.fingerprint in fingerprints) == among,
                   Matching(entries, fingerprints, among))
  {
    var matches := (e: Entry) => (e.fingerprint in fingerprints) == among;
    if entries == [] {
      PickedNone(matches);
    } else {
      var init, last := entries[..|entries| - 1], entries[|entries| - 1];
      MatchingInOrder(init, fingerprints, among);
      PickedSnoc(init, matches, Matching(init, fingerprints, among), last);
      assert entries == init + [last];
    }
  }

  /** Filtering a report keeps the findings that are not accepted, as often and in the order they came. */
  lemma {:induction false} MissingInOrder(env: Environment, issues: seq<Issue>, fingerprints: set<string>)
    ensures Picked(issues, (x: Issue) => env.Fingerprint(x) !in fingerprints, Missing(env, issues, fingerprints))
  {
    var missing := (x: Issue) => env.Fingerprint(x) !in fingerprints;
    if issues == [] {
      PickedNone(missing);
    } else {
      var init, last := issues[..|issues| - 1], issues[|issues| - 1];
      MissingInOrder(env, init, fingerprints);
      PickedSnoc(init, missing, Missing(env, init, fingerprints), last);
      assert issues == init + [last];
    }
  }

  /** Of several findings with one fingerprint the last one describes its entry. */
  lemma {:induction false} LastFindingCounts(env: Environment, issues: seq<Issue>, k: nat)
    requires k < |issues|
    requires forall i :: k < i < |issues| ==> env.Fingerprint(issues[i]) != env.Fingerprint(issues[k])
    ensures env.Fingerprint(issues[k]) in ByFingerprint(env, issues)
    ensures ByFingerprint(env, issues)[env.Fingerprint(issues[k])] == issues[k]
  {
    if k == |issues| - 1 {
    } else {
      LastFindingCounts(env, issues[..|issues| - 1], k);
    }
  }
}
