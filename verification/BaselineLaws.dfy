/** What a successful update of a baseline guarantees, and what filtering by its result leaves. */
module BaselineLaws {
  import opened Ordering
  import opened Baseline
  import Dates = ExpiryDates
  import Identity
  import Text

  // ---------- What the updated document holds ----------

  lemma UpdatedPermutes(env: Environment, document: Document, current: seq<Issue>, annotation: Annotation, prune: bool)
    requires Successful(env, document, current, annotation, prune)
    ensures var updated := UpdateOf(env, document, current, annotation, prune).entries;
      && multiset(updated) == multiset(Candidates(env, document, current, annotation, prune))
      && (forall e :: e in updated <==> e in Candidates(env, document, current, annotation, prune))
      && ValidEntries(env, updated) && SortedBy(updated, FingerprintLeq)
  {
    var candidates := Candidates(env, document, current, annotation, prune);
    FingerprintOrder();
    SortedSorts(candidates, FingerprintLeq);
    SameMultisetSameElements(candidates, Sorted(candidates, FingerprintLeq));
    ValidPermuted(env, candidates, Sorted(candidates, FingerprintLeq));
  }

  /** The entry a live entry `o` becomes: annotated if it had no reason, otherwise with its own reason,
      owner and expiry, and the check, path and subject of the finding. */
  predicate Carries(env: Environment, annotation: Annotation, o: Entry, x: Issue, e: Entry) {
    && e.fingerprint == o.fingerprint
    && e.checkId == x.check && e.path == env.Path(x) && e.subject == x.subject
    && if o.reason == "" then Annotated(annotation, e)
       else e.reason == o.reason && e.owner == o.owner && e.expires == o.expires
  }

  predicate Annotated(annotation: Annotation, e: Entry) {
    && e.reason == Text.TrimSpace(annotation.reason) && e.owner == Text.TrimSpace(annotation.owner)
    && e.expires == Text.TrimSpace(annotation.expires)
  }

  ghost predicate FromLive(env: Environment, document: Document, current: seq<Issue>, annotation: Annotation, e: Entry)
  {
    exists o, x :: o in document.entries && x in current && env.Fingerprint(x) == o.fingerprint &&
      Carries(env, annotation, o, x, e)
  }

  ghost predicate FromAdded(env: Environment, document: Document, current: seq<Issue>, annotation: Annotation, e: Entry)
  {
    exists x :: x in current && env.Fingerprint(x) == e.fingerprint && e.fingerprint !in Fingerprints(document.entries)
      && e.checkId == x.check && e.path == env.Path(x) && e.subject == x.subject && Annotated(annotation, e)
  }

  predicate FromStale(env: Environment, document: Document, current: seq<Issue>, prune: bool, e: Entry) {
    !prune && e in document.entries && e.fingerprint !in CurrentSet(env, current)
  }

  /** Every entry is a refreshed live entry, a new finding's entry, or a stale entry kept. */
  lemma {:induction false} EntriesExplained(env: Environment, document: Document, current: seq<Issue>,
                                            annotation: Annotation, prune: bool, e: Entry)
    requires e in Candidates(env, document, current, annotation, prune)
    ensures FromLive(env, document, current, annotation, e) || FromAdded(env, document, current, annotation, e)
      || FromStale(env, document, current, prune, e)
  {
    var fingerprints := CurrentSet(env, current);
    var refresh := Refresh(env, ByFingerprint(env, current), annotation);
    var live := Matching(document.entries, fingerprints, true);
    var added := Missing(env, current, Fingerprints(document.entries));
    if e in Map(refresh, live) {
      MapElement(refresh, live, e);
      var o :| o in live && refresh(o) == e;
      var x := ByFingerprint(env, current)[o.fingerprint];
      assert Carries(env, annotation, o, x, e);
    } else if e in Map(EntryFor(env, annotation), added) {
      MapElement(EntryFor(env, annotation), added, e);
      var x :| x in added && EntryOf(env, annotation, x) == e;
      assert x in current && env.Fingerprint(x) == e.fingerprint;
    }
  }

  lemma LiveCandidate(env: Environment, document: Document, current: seq<Issue>, annotation: Annotation, prune: bool,
                      o: Entry)
    requires o in document.entries && o.fingerprint in CurrentSet(env, current)
    ensures Refreshed(env, ByFingerprint(env, current), annotation, o)
      in Candidates(env, document, current, annotation, prune)
  {
    var refresh := Refresh(env, ByFingerprint(env, current), annotation);
    MapElement(refresh, Matching(document.entries, CurrentSet(env, current), true), refresh(o));
  }

  lemma AddedCandidate(env: Environment, document: Document, current: seq<Issue>, annotation: Annotation, prune: bool,
                       x: Issue)
    requires x in current && env.Fingerprint(x) !in Fingerprints(document.entries)
    ensures EntryOf(env, annotation, x) in Candidates(env, document, current, annotation, prune)
  {
    MapElement(EntryFor(env, annotation), Missing(env, current, Fingerprints(document.entries)),
      EntryOf(env, annotation, x));
  }

  /** A live entry with a reason keeps its reason, owner and expiry through every successful update;
      without pruning a stale entry is kept unchanged. */
  lemma {:induction false} AnnotationsSurvive(env: Environment, document: Document, current: seq<Issue>,
                                              annotation: Annotation, prune: bool, o: Entry)
    requires Successful(env, document, current, annotation, prune) && o in document.entries
    ensures o.fingerprint in CurrentSet(env, current) && o.reason != "" ==>
      exists e :: e in UpdateOf(env, document, current, annotation, prune).entries
        && e.fingerprint == o.fingerprint && e.reason == o.reason && e.owner == o.owner && e.expires == o.expires
    ensures o.fingerprint !in CurrentSet(env, current) ==>
      (o in UpdateOf(env, document, current, annotation, prune).entries <==> !prune)
  {
    UpdatedPermutes(env, document, current, annotation, prune);
    if o.fingerprint in CurrentSet(env, current) {
      LiveCandidate(env, document, current, annotation, prune, o);
    } else if o in Candidates(env, document, current, annotation, prune) {
      EntriesExplained(env, document, current, annotation, prune, o);
    }
  }

  /** The updated fingerprints are the current ones, and without pruning the previous ones too. */
  lemma {:induction false} UpdatedFingerprints(env: Environment, document: Document, current: seq<Issue>,
                                               annotation: Annotation, prune: bool)
    requires Successful(env, document, current, annotation, prune)
    ensures Fingerprints(UpdateOf(env, document, current, annotation, prune).entries)
      == CurrentSet(env, current) + if prune then {} else Fingerprints(document.entries)
    ensures ValidEntries(env, UpdateOf(env, document, current, annotation, prune).entries)
    ensures SortedBy(UpdateOf(env, document, current, annotation, prune).entries, FingerprintLeq)
  {
    UpdatedPermutes(env, document, current, annotation, prune);
    var updated := UpdateOf(env, document, current, annotation, prune).entries;
    var expected := CurrentSet(env, current) + if prune then {} else Fingerprints(document.entries);
    forall f ensures f in Fingerprints(updated) <==> f in expected {
      FingerprintUpdated(env, document, current, annotation, prune, f);
    }
  }

  lemma {:induction false} FingerprintUpdated(env: Environment, document: Document, current: seq<Issue>,
                                              annotation: Annotation, prune: bool, f: string)
    ensures f in Fingerprints(Candidates(env, document, current, annotation, prune)) <==>
      f in CurrentSet(env, current) || (!prune && f in Fingerprints(document.entries))
  {
    var candidates := Candidates(env, document, current, annotation, prune);
    if f in Fingerprints(candidates) {
      var e :| e in candidates && e.fingerprint == f;
      EntriesExplained(env, document, current, annotation, prune, e);
    }
    if f in CurrentSet(env, current) {
      if o :| o in document.entries && o.fingerprint == f {
        LiveCandidate(env, document, current, annotation, prune, o);
        assert Refreshed(env, ByFingerprint(env, current), annotation, o).fingerprint == f;
      } else {
        var x :| x in current && env.Fingerprint(x) == f;
        AddedCandidate(env, document, current, annotation, prune, x);
        assert EntryOf(env, annotation, x).fingerprint == f;
      }
    } else if !prune && f in Fingerprints(document.entries) {
      var o :| o in document.entries && o.fingerprint == f;
      assert o in candidates;
    }
  }

  // ---------- Repeating an update ----------

  const NOTHING := Annotation("", "", "")

  lemma SamePosition(entries: seq<Entry>, a: Entry, b: Entry)
    requires DistinctFingerprints(entries) && a in entries && b in entries && a.fingerprint == b.fingerprint
    ensures a == b
  {
    var i :| 0 <= i < |entries| && entries[i] == a;
    var j :| 0 <= j < |entries| && entries[j] == b;
  }

  /** The entry names the check, path and subject of the finding. */
  predicate Names(env: Environment, e: Entry, x: Issue) {
    e.checkId == x.check && e.path == env.Path(x) && e.subject == x.subject
  }

  lemma RefreshNames(env: Environment, lookup: map<string, Issue>, annotation: Annotation, o: Entry)
    requires o.fingerprint in lookup && env.Fingerprint(lookup[o.fingerprint]) == o.fingerprint
    ensures Refreshed(env, lookup, annotation, o).fingerprint == o.fingerprint
    ensures Names(env, Refreshed(env, lookup, annotation, o), lookup[o.fingerprint])
  {
  }

  lemma RefreshFixed(env: Environment, lookup: map<string, Issue>, annotation: Annotation, e: Entry)
    requires e.fingerprint in lookup && e.reason != "" && Names(env, e, lookup[e.fingerprint])
    ensures Refreshed(env, lookup, annotation, e) == e
  {
  }

  lemma {:induction false} CandidateNames(env: Environment, document: Document, current: seq<Issue>,
                                          annotation: Annotation, prune: bool, f: string)
      returns (e: Entry)
    requires f in CurrentSet(env, current)
    ensures e in Candidates(env, document, current, annotation, prune)
    ensures e.fingerprint == f && Names(env, e, ByFingerprint(env, current)[f])
  {
    var lookup := ByFingerprint(env, current);
    if o :| o in document.entries && o.fingerprint == f {
      LiveCandidate(env, document, current, annotation, prune, o);
      RefreshNames(env, lookup, annotation, o);
      e := Refreshed(env, lookup, annotation, o);
    } else {
      AddedCandidate(env, document, current, annotation, prune, lookup[f]);
      e := EntryOf(env, annotation, lookup[f]);
    }
  }

  /** In an updated document every live entry already names the finding it stands for. */
  lemma {:induction false} LiveUpToDate(env: Environment, document: Document, current: seq<Issue>,
                                        annotation: Annotation, prune: bool, e: Entry)
    requires Successful(env, document, current, annotation, prune)
    requires e in UpdateOf(env, document, current, annotation, prune).entries &&
      e.fingerprint in CurrentSet(env, current)
    ensures Refreshed(env, ByFingerprint(env, current), NOTHING, e) == e
  {
    UpdatedPermutes(env, document, current, annotation, prune);
    var o := CandidateNames(env, document, current, annotation, prune, e.fingerprint);
    SamePosition(Candidates(env, document, current, annotation, prune), e, o);
    assert ValidEntry(env, e);
    RefreshFixed(env, ByFingerprint(env, current), NOTHING, e);
  }

  lemma MapIdentity<T>(f: T -> T, s: seq<T>)
    requires forall x :: x in s ==> f(x) == x
    ensures Map(f, s) == s
  {
  }

  lemma OneMore(a: seq<Entry>, b: seq<Entry>, e: Entry)
    ensures multiset(a + [e] + b) == multiset(a + b) + multiset{e}
    ensures multiset(a + (b + [e])) == multiset(a + b) + multiset{e}
  {
  }

  lemma MatchingNext(init: seq<Entry>, e: Entry, fingerprints: set<string>, among: bool)
    ensures Matching(init + [e], fingerprints, among)
      == if (e.fingerprint in fingerprints) == among then Matching(init, fingerprints, among) + [e]
         else Matching(init, fingerprints, among)
  {
    assert (init + [e])[..|init|] == init;
  }

  /** Live and stale entries together are all entries. */
  lemma {:induction false} MatchingPartition(entries: seq<Entry>, fingerprints: set<string>)
    ensures multiset(Matching(entries, fingerprints, true) + Matching(entries, fingerprints, false)) ==
      multiset(entries)
  {
    if entries == [] {
    } else {
      var init, last := entries[..|entries| - 1], entries[|entries| - 1];
      assert entries == init + [last];
      MatchingPartition(init, fingerprints);
      MatchingNext(init, last, fingerprints, true);
      MatchingNext(init, last, fingerprints, false);
      OneMore(Matching(init, fingerprints, true), Matching(init, fingerprints, false), last);
    }
  }

  lemma {:induction false} NoneMatching(entries: seq<Entry>, fingerprints: set<string>)
    requires Fingerprints(entries) <= fingerprints
    ensures Matching(entries, fingerprints, false) == []
  {
    if entries == [] {
    } else {
      var init := entries[..|entries| - 1];
      assert forall e :: e in init ==> e.fingerprint in Fingerprints(entries);
      NoneMatching(init, fingerprints);
      assert entries[|entries| - 1].fingerprint in Fingerprints(entries);
    }
  }

  lemma {:induction false} NoneMissing(env: Environment, current: seq<Issue>, fingerprints: set<string>)
    requires CurrentSet(env, current) <= fingerprints
    ensures Missing(env, current, fingerprints) == []
  {
    if current == [] {
    } else {
      var init := current[..|current| - 1];
      assert forall x :: x in init ==> env.Fingerprint(x) in CurrentSet(env, current);
      NoneMissing(env, init, fingerprints);
      assert env.Fingerprint(current[|current| - 1]) in CurrentSet(env, current);
    }
  }

  lemma {:induction false} LiveStays(env: Environment, document: Document, current: seq<Issue>, annotation: Annotation,
                                     prune: bool)
    requires Successful(env, document, current, annotation, prune)
    ensures var updated := UpdateOf(env, document, current, annotation, prune).entries;
      var live := Matching(updated, CurrentSet(env, current), true);
      Map(Refresh(env, ByFingerprint(env, current), NOTHING), live) == live
  {
    var live := Matching(UpdateOf(env, document, current, annotation, prune).entries, CurrentSet(env, current), true);
    var refresh := Refresh(env, ByFingerprint(env, current), NOTHING);
    forall e | e in live ensures refresh(e) == e { LiveUpToDate(env, document, current, annotation, prune, e); }
    MapIdentity(refresh, live);
  }

  lemma CandidatesWithoutNew(env: Environment, document: Document, current: seq<Issue>, annotation: Annotation,
                             prune: bool)
    requires Missing(env, current, Fingerprints(document.entries)) == []
    ensures Candidates(env, document, current, annotation, prune)
      == Map(Refresh(env, ByFingerprint(env, current), annotation),
        Matching(document.entries, CurrentSet(env, current), true))
        + if prune then [] else Matching(document.entries, CurrentSet(env, current), false)
  {
  }

  lemma {:induction false} AgainCandidates(env: Environment, document: Document, current: seq<Issue>,
                                           annotation: Annotation, prune: bool, again: bool)
    requires Successful(env, document, current, annotation, prune) && (again ==> prune)
    ensures var updated := UpdateOf(env, document, current, annotation, prune);
      multiset(Candidates(env, updated, current, NOTHING, again)) == multiset(updated.entries)
  {
    var updated := UpdateOf(env, document, current, annotation, prune);
    var fingerprints := CurrentSet(env, current);
    UpdatedFingerprints(env, document, current, annotation, prune);
    NoneMissing(env, current, Fingerprints(updated.entries));
    CandidatesWithoutNew(env, updated, current, NOTHING, again);
    LiveStays(env, document, current, annotation, prune);
    MatchingPartition(updated.entries, fingerprints);
    if again { NoneMatching(updated.entries, fingerprints); }
  }

  /** Updating again with an empty annotation succeeds and changes nothing, with the report as the first
      update left it. */
  lemma {:induction false} UpdateTwice(env: Environment, document: Document, current: seq<Issue>,
                                       annotation: Annotation, prune: bool, again: bool)
    requires Successful(env, document, current, annotation, prune) && (again ==> prune)
    ensures var updated := UpdateOf(env, document, current, annotation, prune);
      && Identity.CompletedAll(env.identity, current, "workspace") == current
      && Successful(env, updated, current, NOTHING, again)
      && UpdateOf(env, updated, current, NOTHING, again) == updated
  {
    var updated := UpdateOf(env, document, current, annotation, prune);
    UpdatedFingerprints(env, document, current, annotation, prune);
    AgainCandidates(env, document, current, annotation, prune, again);
    var candidates := Candidates(env, updated, current, NOTHING, again);
    ValidPermuted(env, updated.entries, candidates);
    SortedEntries(candidates, updated.entries);
    NoneMissing(env, current, Fingerprints(updated.entries));
  }

  // ---------- Filtering by an updated document ----------

  /** After an update the filter leaves exactly the findings whose entry has expired, and each finding
      has one entry. */
  lemma {:induction false} FilterAfterUpdate(env: Environment, document: Document, current: seq<Issue>,
                                             annotation: Annotation, prune: bool,
                          x: Issue, today: string)
    returns (e: Entry)
    requires Successful(env, document, current, annotation, prune) && x in current
    ensures e in UpdateOf(env, document, current, annotation, prune).entries && e.fingerprint == env.Fingerprint(x)
    ensures x in Missing(env, current, AcceptedAt(UpdateOf(env, document, current, annotation, prune).entries, today))
      <==> Expired(e, today)
  {
    var entries := UpdateOf(env, document, current, annotation, prune).entries;
    UpdatedFingerprints(env, document, current, annotation, prune);
    assert env.Fingerprint(x) in Fingerprints(entries);
    e :| e in entries && e.fingerprint == env.Fingerprint(x);
    if o :| o in entries && !Expired(o, today) && o.fingerprint == e.fingerprint {
      SamePosition(entries, e, o);
    }
  }

  /** After an update nothing is new; after pruning nothing is stale either, and no accepted fingerprint
      is without a finding. */
  lemma {:induction false} NothingLeft(env: Environment, document: Document, current: seq<Issue>,
                                       annotation: Annotation, prune: bool, today: string)
    requires Successful(env, document, current, annotation, prune)
    ensures var entries := UpdateOf(env, document, current, annotation, prune).entries;
      && Missing(env, current, Fingerprints(entries)) == []
      && (prune ==> Matching(entries, CurrentSet(env, current), false) == [])
      && (prune ==> AcceptedAt(entries, today) <= CurrentSet(env, current))
  {
    var entries := UpdateOf(env, document, current, annotation, prune).entries;
    UpdatedFingerprints(env, document, current, annotation, prune);
    NoneMissing(env, current, Fingerprints(entries));
    if prune { NoneMatching(entries, CurrentSet(env, current)); }
    assert AcceptedAt(entries, today) <= Fingerprints(entries);
  }

  // ---------- When an update succeeds ----------

  /** A finding that can be accepted: of a registered check, with a path and a subject. */
  predicate Acceptable(env: Environment, x: Issue) {
    env.known(x.check) && Text.TrimSpace(env.Path(x)) != "" && Text.TrimSpace(x.subject) != ""
  }

  predicate AnnotationAccepted(annotation: Annotation) {
    && ReasonAccepted(annotation.reason)
    && (Text.TrimSpace(annotation.expires) == "" || Dates.Parse(Text.TrimSpace(annotation.expires)).Some?)
  }

  lemma {:induction false} MatchingDistinct(entries: seq<Entry>, fingerprints: set<string>, among: bool)
    requires DistinctFingerprints(entries)
    ensures DistinctFingerprints(Matching(entries, fingerprints, among))
  {
    if entries == [] {
    } else {
      var init, last := entries[..|entries| - 1], entries[|entries| - 1];
      assert entries == init + [last];
      DistinctSnoc(init, last);
      MatchingDistinct(init, fingerprints, among);
      DistinctSnoc(Matching(init, fingerprints, among), last);
      assert Matching(init, fingerprints, among) + [] == Matching(init, fingerprints, among);
    }
  }

  lemma {:induction false} MissingDistinct(env: Environment, current: seq<Issue>, fingerprints: set<string>)
    requires DistinctFindings(env, current)
    ensures DistinctFindings(env, Missing(env, current, fingerprints))
  {
    if current == [] {
    } else {
      var init, last := current[..|current| - 1], current[|current| - 1];
      MissingDistinct(env, init, fingerprints);
      forall x | x in init ensures env.Fingerprint(x) != env.Fingerprint(last) {
        var i :| 0 <= i < |init| && init[i] == x;
        assert current[i] == x;
      }
    }
  }

  lemma AddedDistinct(env: Environment, annotation: Annotation, added: seq<Issue>)
    requires DistinctFindings(env, added)
    ensures DistinctFingerprints(Map(EntryFor(env, annotation), added))
  {
  }

  lemma DistinctConcat(a: seq<Entry>, b: seq<Entry>)
    requires DistinctFingerprints(a) && DistinctFingerprints(b)
    requires forall x, y :: x in a && y in b ==> x.fingerprint != y.fingerprint
    ensures DistinctFingerprints(a + b)
  {
  }

  lemma RefreshedFingerprint(env: Environment, lookup: map<string, Issue>, annotation: Annotation, o: Entry)
    requires forall f :: f in lookup ==> env.Fingerprint(lookup[f]) == f
    ensures Refreshed(env, lookup, annotation, o).fingerprint == o.fingerprint
  {
  }

  lemma {:induction false} RefreshedFingerprints(env: Environment, current: seq<Issue>, annotation: Annotation,
                                                 live: seq<Entry>)
    requires DistinctFingerprints(live)
    ensures var r := Map(Refresh(env, ByFingerprint(env, current), annotation), live);
      DistinctFingerprints(r) && forall e :: e in r ==> e.fingerprint in Fingerprints(live)
  {
    var lookup := ByFingerprint(env, current);
    var r := Map(Refresh(env, lookup, annotation), live);
    forall i | 0 <= i < |live| ensures r[i].fingerprint == live[i].fingerprint {
      RefreshedFingerprint(env, lookup, annotation, live[i]);
    }
    forall e | e in r ensures e.fingerprint in Fingerprints(live) {
      var i :| 0 <= i < |r| && r[i] == e;
      assert live[i] in live;
    }
  }

  lemma CandidatesDistinct(env: Environment, document: Document, current: seq<Issue>, annotation: Annotation,
                           prune: bool)
    requires DistinctFingerprints(Matching(document.entries, CurrentSet(env, current), true))
    requires prune || DistinctFingerprints(Matching(document.entries, CurrentSet(env, current), false))
    requires DistinctFindings(env, Missing(env, current, Fingerprints(document.entries)))
    ensures DistinctFingerprints(Candidates(env, document, current, annotation, prune))
  {
    var fingerprints := CurrentSet(env, current);
    var live := Matching(document.entries, fingerprints, true);
    var stale := if prune then [] else Matching(document.entries, fingerprints, false);
    var added := Missing(env, current, Fingerprints(document.entries));
    var refreshed := Map(Refresh(env, ByFingerprint(env, current), annotation), live);
    var created := Map(EntryFor(env, annotation), added);
    AddedDistinct(env, annotation, added);
    RefreshedFingerprints(env, current, annotation, live);
    assert Fingerprints(live) <= Fingerprints(document.entries) &&
      Fingerprints(stale) <= Fingerprints(document.entries);
    forall e: Entry | e in created
      ensures e.fingerprint !in Fingerprints(document.entries) && e.fingerprint in fingerprints
    {
      MapElement(EntryFor(env, annotation), added, e);
    }
    DistinctConcat(refreshed, created);
    forall x: Entry, y: Entry | x in refreshed + created && y in stale ensures x.fingerprint != y.fingerprint {
      assert x.fingerprint in fingerprints;
    }
    DistinctConcat(refreshed + created, stale);
  }

  lemma TrimmedReason(reason: string)
    ensures ReasonAccepted(Text.TrimSpace(reason)) <==> ReasonAccepted(reason)
  {
    Text.TrimAgain(reason);
  }

  /** The finding's entry is valid exactly when finding and annotation are. */
  lemma NewEntryValid(env: Environment, annotation: Annotation, x: Issue)
    requires env.Valid()
    ensures ValidEntry(env, EntryOf(env, annotation, x)) <==> Acceptable(env, x) && AnnotationAccepted(annotation)
  {
    TrimmedReason(annotation.reason);
  }

  lemma RefreshedValid(env: Environment, lookup: map<string, Issue>, annotation: Annotation, o: Entry)
    requires ValidEntry(env, o) && o.fingerprint in lookup
    ensures ValidEntry(env, Refreshed(env, lookup, annotation, o)) <==> Acceptable(env, lookup[o.fingerprint])
  {
  }

  /** New findings have different fingerprints, and so many of the report's findings are acceptable as get
      an entry: all new ones, and of those that share a live entry the last. */
  ghost predicate Enterable(env: Environment, document: Document, current: seq<Issue>) {
    var added := Missing(env, current, Fingerprints(document.entries));
    && DistinctFindings(env, added)
    && (forall x :: x in added ==> Acceptable(env, x))
    && (forall o :: o in document.entries && o.fingerprint in CurrentSet(env, current) ==>
          Acceptable(env, ByFingerprint(env, current)[o.fingerprint]))
  }

  lemma DistinctParts(a: seq<Entry>, b: seq<Entry>, c: seq<Entry>)
    requires DistinctFingerprints(a + b + c)
    ensures DistinctFingerprints(a) && DistinctFingerprints(b)
  {
    var all := a + b + c;
    assert forall i :: 0 <= i < |a| ==> all[i] == a[i];
    assert forall i :: 0 <= i < |b| ==> all[|a| + i] == b[i];
  }

  lemma LiveTold(env: Environment, lookup: map<string, Issue>, annotation: Annotation, live: seq<Entry>)
    requires forall f :: f in lookup ==> env.Fingerprint(lookup[f]) == f
    requires DistinctFingerprints(Map(Refresh(env, lookup, annotation), live))
    ensures DistinctFingerprints(live)
  {
    var refreshed := Map(Refresh(env, lookup, annotation), live);
    forall i | 0 <= i < |live| ensures refreshed[i].fingerprint == live[i].fingerprint {
      RefreshedFingerprint(env, lookup, annotation, live[i]);
    }
  }

  lemma AddedTold(env: Environment, annotation: Annotation, added: seq<Issue>)
    requires DistinctFingerprints(Map(EntryFor(env, annotation), added))
    ensures DistinctFindings(env, added)
  {
    var created := Map(EntryFor(env, annotation), added);
    assert forall i :: 0 <= i < |added| ==> created[i].fingerprint == env.Fingerprint(added[i]);
  }

  /** Distinct entries mean that live entries and new findings are distinct. */
  lemma {:induction false} CandidatesTell(env: Environment, document: Document, current: seq<Issue>,
                                          annotation: Annotation, prune: bool)
    requires DistinctFingerprints(Candidates(env, document, current, annotation, prune))
    ensures DistinctFingerprints(Matching(document.entries, CurrentSet(env, current), true))
    ensures DistinctFindings(env, Missing(env, current, Fingerprints(document.entries)))
  {
    var lookup := ByFingerprint(env, current);
    var live := Matching(document.entries, CurrentSet(env, current), true);
    var added := Missing(env, current, Fingerprints(document.entries));
    var stale := if prune then [] else Matching(document.entries, CurrentSet(env, current), false);
    DistinctParts(Map(Refresh(env, lookup, annotation), live), Map(EntryFor(env, annotation), added), stale);
    LiveTold(env, lookup, annotation, live);
    AddedTold(env, annotation, added);
  }

  lemma {:induction false} CandidateValid(env: Environment, document: Document, current: seq<Issue>,
                                          annotation: Annotation, prune: bool, e: Entry)
    requires env.Valid() && ValidEntries(env, document.entries) && Enterable(env, document, current)
    requires e in Candidates(env, document, current, annotation, prune)
    requires Missing(env, current, Fingerprints(document.entries)) != [] ==> AnnotationAccepted(annotation)
    ensures ValidEntry(env, e)
  {
    var lookup := ByFingerprint(env, current);
    var live := Matching(document.entries, CurrentSet(env, current), true);
    var added := Missing(env, current, Fingerprints(document.entries));
    MapElement(Refresh(env, lookup, annotation), live, e);
    MapElement(EntryFor(env, annotation), added, e);
    if o :| o in live && Refreshed(env, lookup, annotation, o) == e {
      RefreshedValid(env, lookup, annotation, o);
    } else if x :| x in added && EntryOf(env, annotation, x) == e {
      NewEntryValid(env, annotation, x);
    }
  }

  /** What valid candidates say of a valid document's live entries and of new findings. */
  lemma {:induction false} CandidatesNeed(env: Environment, document: Document, current: seq<Issue>,
                                          annotation: Annotation, prune: bool)
    requires env.Valid() && ValidEntries(env, document.entries)
    requires DistinctFindings(env, Missing(env, current, Fingerprints(document.entries)))
    requires forall e :: e in Candidates(env, document, current, annotation, prune) ==> ValidEntry(env, e)
    ensures Enterable(env, document, current)
    ensures Missing(env, current, Fingerprints(document.entries)) == [] || AnnotationAccepted(annotation)
  {
    var lookup := ByFingerprint(env, current);
    var added := Missing(env, current, Fingerprints(document.entries));
    forall x | x in added ensures Acceptable(env, x) && AnnotationAccepted(annotation) {
      AddedCandidate(env, document, current, annotation, prune, x);
      NewEntryValid(env, annotation, x);
    }
    assert added == [] || added[0] in added;
    forall o | o in document.entries && o.fingerprint in CurrentSet(env, current)
      ensures Acceptable(env, lookup[o.fingerprint])
    {
      LiveCandidate(env, document, current, annotation, prune, o);
      RefreshedValid(env, lookup, annotation, o);
    }
  }

  lemma {:induction false} CandidatesValidIff(env: Environment, document: Document, current: seq<Issue>,
                                              annotation: Annotation, prune: bool)
    requires env.Valid() && ValidEntries(env, document.entries)
    requires DistinctFindings(env, Missing(env, current, Fingerprints(document.entries)))
    ensures (forall e :: e in Candidates(env, document, current, annotation, prune) ==> ValidEntry(env, e)) <==>
      && Enterable(env, document, current)
      && (Missing(env, current, Fingerprints(document.entries)) == [] || AnnotationAccepted(annotation))
  {
    var added := Missing(env, current, Fingerprints(document.entries));
    if forall e :: e in Candidates(env, document, current, annotation, prune) ==> ValidEntry(env, e) {
      CandidatesNeed(env, document, current, annotation, prune);
    } else if Enterable(env, document, current) && (added == [] || AnnotationAccepted(annotation)) {
      forall e | e in Candidates(env, document, current, annotation, prune) ensures ValidEntry(env, e) {
        CandidateValid(env, document, current, annotation, prune, e);
      }
    }
  }

  /** On a valid document an update succeeds exactly when the report has no collision, what it enters is
      acceptable and told apart by fingerprints, and the annotation is acceptable, unless nothing is new. */
  lemma {:induction false} SucceedsIff(env: Environment, document: Document, current: seq<Issue>,
                                       annotation: Annotation, prune: bool)
    requires env.Valid() && document.version == VERSION && ValidEntries(env, document.entries)
    ensures Successful(env, document, current, annotation, prune) <==>
      && Identified(env, current)
      && Enterable(env, document, current)
      && (CurrentSet(env, current) <= Fingerprints(document.entries) || AnnotationAccepted(annotation))
  {
    AddedIff(env, document, current);
    if DistinctFindings(env, Missing(env, current, Fingerprints(document.entries))) {
      MatchingDistinct(document.entries, CurrentSet(env, current), true);
      MatchingDistinct(document.entries, CurrentSet(env, current), false);
      CandidatesDistinct(env, document, current, annotation, prune);
      CandidatesValidIff(env, document, current, annotation, prune);
    } else if DistinctFingerprints(Candidates(env, document, current, annotation, prune)) {
      CandidatesTell(env, document, current, annotation, prune);
    }
  }

  lemma AddedIff(env: Environment, document: Document, current: seq<Issue>)
    ensures Missing(env, current, Fingerprints(document.entries)) == [] <==>
      CurrentSet(env, current) <= Fingerprints(document.entries)
  {
    var added := Missing(env, current, Fingerprints(document.entries));
    if added != [] { assert added[0] in added; }
  }

  lemma OneFinding(env: Environment, current: seq<Issue>, x: Issue)
    requires DistinctFindings(env, current) && x in current
    ensures ByFingerprint(env, current)[env.Fingerprint(x)] == x
  {
    var y := ByFingerprint(env, current)[env.Fingerprint(x)];
    var i :| 0 <= i < |current| && current[i] == x;
    var j :| 0 <= j < |current| && current[j] == y;
  }

  /** Where no two findings share a fingerprint, every finding must be acceptable. */
  lemma {:induction false} EnterableWhenDistinct(env: Environment, document: Document, current: seq<Issue>)
    requires DistinctFindings(env, current)
    ensures Enterable(env, document, current) <==> forall x :: x in current ==> Acceptable(env, x)
  {
    MissingDistinct(env, current, Fingerprints(document.entries));
    if Enterable(env, document, current) {
      forall x | x in current ensures Acceptable(env, x) {
        OneFinding(env, current, x);
        if o :| o in document.entries && o.fingerprint == env.Fingerprint(x) {
          assert o.fingerprint in CurrentSet(env, current);
        }
      }
    }
  }

  /** For reports whose findings fingerprint paths tell apart as portable paths do, an update of a valid
      document succeeds exactly when there is no collision, every finding is acceptable, and the
      annotation is, unless nothing is new. */
  lemma {:induction false} SucceedsWhenTold(env: Environment, document: Document, current: seq<Issue>,
                                            annotation: Annotation, prune: bool)
    requires env.Valid() && document.version == VERSION && ValidEntries(env, document.entries)
    requires PathsTold(env, current) && forall x :: x in current ==> NulFree(env, x)
    ensures Successful(env, document, current, annotation, prune) <==>
      && Identified(env, current)
      && (forall x :: x in current ==> Acceptable(env, x))
      && (CurrentSet(env, current) <= Fingerprints(document.entries) || AnnotationAccepted(annotation))
  {
    SucceedsIff(env, document, current, annotation, prune);
    if Identified(env, current) {
      IdentifiedDistinct(env, current);
      EnterableWhenDistinct(env, document, current);
    }
  }

  lemma PrefixClash(env: Environment, a: seq<Issue>, b: seq<Issue>)
    requires !DistinctFindings(env, a)
    ensures !DistinctFindings(env, a + b)
  {
    var k, l :| 0 <= k < l < |a| && env.Fingerprint(a[k]) == env.Fingerprint(a[l]);
    assert (a + b)[k] == a[k] && (a + b)[l] == a[l];
  }

  lemma LastClash(env: Environment, a: seq<Issue>, x: Issue, y: Issue)
    requires x in a && env.Fingerprint(x) == env.Fingerprint(y)
    ensures !DistinctFindings(env, a + [y])
  {
    var k :| 0 <= k < |a| && a[k] == x;
    assert (a + [y])[k] == x && (a + [y])[|a|] == y;
  }

  lemma {:induction false} MissingClash(env: Environment, current: seq<Issue>, fingerprints: set<string>,
                                        i: nat, j: nat)
    requires i < j < |current| && env.Fingerprint(current[i]) == env.Fingerprint(current[j])
    requires env.Fingerprint(current[i]) !in fingerprints
    ensures !DistinctFindings(env, Missing(env, current, fingerprints))
  {
    var init, last := current[..|current| - 1], current[|current| - 1];
    var before := Missing(env, init, fingerprints);
    if j == |init| {
      assert init[i] in init;
      LastClash(env, before, init[i], last);
    } else {
      MissingClash(env, init, fingerprints, i, j);
      PrefixClash(env, before, if env.Fingerprint(last) in fingerprints then [] else [last]);
    }
  }

  /** Two findings with one fingerprint that has no entry yet are never entered together, whatever the
      annotation: the update adds both and finds its own document invalid. */
  lemma {:induction false} ClashRefused(env: Environment, document: Document, current: seq<Issue>,
                                        annotation: Annotation, prune: bool, i: nat, j: nat)
    requires i < j < |current| && env.Fingerprint(current[i]) == env.Fingerprint(current[j])
    requires env.Fingerprint(current[i]) !in Fingerprints(document.entries)
    ensures !Successful(env, document, current, annotation, prune)
  {
    MissingClash(env, current, Fingerprints(document.entries), i, j);
    if DistinctFingerprints(Candidates(env, document, current, annotation, prune)) {
      CandidatesTell(env, document, current, annotation, prune);
    }
  }

  // ---------- Documents of the old version ----------

  /** A live entry of an old document becomes the finding's new entry. */
  lemma LegacyRefreshed(env: Environment, current: seq<Issue>, annotation: Annotation, o: Entry)
    requires o == Unannotated(o.fingerprint) && o.fingerprint in CurrentSet(env, current)
    ensures Refreshed(env, ByFingerprint(env, current), annotation, o)
      == EntryOf(env, annotation, ByFingerprint(env, current)[o.fingerprint])
  {
  }

  lemma {:induction false} LegacyCandidateValid(env: Environment, document: Document, current: seq<Issue>,
                                                annotation: Annotation, prune: bool, e: Entry)
    requires env.Valid() && FromLegacy(env, document) && Enterable(env, document, current)
    requires e in Candidates(env, document, current, annotation, prune)
    requires current == [] || AnnotationAccepted(annotation)
    requires prune || Matching(document.entries, CurrentSet(env, current), false) == []
    ensures ValidEntry(env, e)
  {
    var lookup := ByFingerprint(env, current);
    var live := Matching(document.entries, CurrentSet(env, current), true);
    var added := Missing(env, current, Fingerprints(document.entries));
    MapElement(Refresh(env, lookup, annotation), live, e);
    MapElement(EntryFor(env, annotation), added, e);
    if o :| o in live && Refreshed(env, lookup, annotation, o) == e {
      LegacyRefreshed(env, current, annotation, o);
      NewEntryValid(env, annotation, lookup[o.fingerprint]);
    } else {
      var x :| x in added && EntryOf(env, annotation, x) == e;
      NewEntryValid(env, annotation, x);
    }
  }

  /** What valid candidates say of an old document's live entries and of new findings. */
  lemma {:induction false} LegacyNeedsValid(env: Environment, document: Document, current: seq<Issue>,
                                            annotation: Annotation, prune: bool)
    requires env.Valid() && FromLegacy(env, document)
    requires DistinctFindings(env, Missing(env, current, Fingerprints(document.entries)))
    requires forall e :: e in Candidates(env, document, current, annotation, prune) ==> ValidEntry(env, e)
    ensures Enterable(env, document, current) && (current == [] || AnnotationAccepted(annotation))
  {
    var lookup := ByFingerprint(env, current);
    var added := Missing(env, current, Fingerprints(document.entries));
    forall x | x in added ensures Acceptable(env, x) && AnnotationAccepted(annotation) {
      AddedCandidate(env, document, current, annotation, prune, x);
      NewEntryValid(env, annotation, x);
    }
    forall o | o in document.entries && o.fingerprint in CurrentSet(env, current)
      ensures Acceptable(env, lookup[o.fingerprint]) && AnnotationAccepted(annotation)
    {
      LiveCandidate(env, document, current, annotation, prune, o);
      LegacyRefreshed(env, current, annotation, o);
      NewEntryValid(env, annotation, lookup[o.fingerprint]);
    }
    if current != [] {
      assert current[0] in current;
      if o :| o in document.entries && o.fingerprint == env.Fingerprint(current[0]) {
      } else {
        assert current[0] in added;
      }
    }
  }

  lemma {:induction false} LegacyValidIff(env: Environment, document: Document, current: seq<Issue>,
                                          annotation: Annotation, prune: bool)
    requires env.Valid() && FromLegacy(env, document)
    requires DistinctFindings(env, Missing(env, current, Fingerprints(document.entries)))
    ensures (forall e :: e in Candidates(env, document, current, annotation, prune) ==> ValidEntry(env, e)) <==>
      && Enterable(env, document, current)
      && (current == [] || AnnotationAccepted(annotation))
      && (prune || Matching(document.entries, CurrentSet(env, current), false) == [])
  {
    var stale := Matching(document.entries, CurrentSet(env, current), false);
    if forall e :: e in Candidates(env, document, current, annotation, prune) ==> ValidEntry(env, e) {
      LegacyNeedsValid(env, document, current, annotation, prune);
      if !prune && stale != [] {
        assert stale[0] in stale && stale[0] in Candidates(env, document, current, annotation, prune);
        assert stale[0].path == "";
      }
    } else if Enterable(env, document, current) && (current == [] || AnnotationAccepted(annotation))
              && (prune || stale == []) {
      forall e | e in Candidates(env, document, current, annotation, prune) ensures ValidEntry(env, e) {
        LegacyCandidateValid(env, document, current, annotation, prune, e);
      }
    }
  }

  lemma LegacyReason(env: Environment, document: Document, current: seq<Issue>)
    requires document.version == LEGACY_VERSION
    ensures NeedsReason(env, document, current) <==> current != []
  {
    var live := Matching(document.entries, CurrentSet(env, current), true);
    var added := Missing(env, current, Fingerprints(document.entries));
    assert live == [] || live[0].fingerprint in CurrentSet(env, current);
    assert added == [] || added[0] in current;
    if current != [] {
      var x := current[0];
      assert x in current;
      if o :| o in document.entries && o.fingerprint == env.Fingerprint(x) {
        assert o in live;
      } else {
        assert x in added;
      }
    }
  }

  lemma StaleIff(entries: seq<Entry>, fingerprints: set<string>)
    ensures Matching(entries, fingerprints, false) == [] <==> Fingerprints(entries) <= fingerprints
  {
    if Fingerprints(entries) <= fingerprints {
      NoneMatching(entries, fingerprints);
    } else {
      var e :| e in entries && e.fingerprint !in fingerprints;
      assert e in Matching(entries, fingerprints, false);
    }
  }

  /** On an old document an update succeeds exactly when the report has no collision, what it enters is
      acceptable and told apart by fingerprints, the annotation is acceptable unless there are no
      findings, no live fingerprint is listed twice, and stale entries are absent or pruned. */
  lemma {:induction false} LegacySucceedsIff(env: Environment, document: Document, current: seq<Issue>,
                                             annotation: Annotation, prune: bool)
    requires env.Valid() && FromLegacy(env, document)
    ensures Successful(env, document, current, annotation, prune) <==>
      && Identified(env, current)
      && Enterable(env, document, current)
      && (current == [] || AnnotationAccepted(annotation))
      && DistinctFingerprints(Matching(document.entries, CurrentSet(env, current), true))
      && (prune || Fingerprints(document.entries) <= CurrentSet(env, current))
  {
    LegacyReason(env, document, current);
    StaleIff(document.entries, CurrentSet(env, current));
    if DistinctFindings(env, Missing(env, current, Fingerprints(document.entries))) {
      LegacyValidIff(env, document, current, annotation, prune);
    }
    if DistinctFingerprints(Candidates(env, document, current, annotation, prune)) {
      CandidatesTell(env, document, current, annotation, prune);
    } else if DistinctFingerprints(Matching(document.entries, CurrentSet(env, current), true)) {
      if prune || Matching(document.entries, CurrentSet(env, current), false) == [] {
        if DistinctFindings(env, Missing(env, current, Fingerprints(document.entries))) {
          CandidatesDistinct(env, document, current, annotation, prune);
        }
      }
    }
  }

  /** The same for reports whose findings fingerprint paths tell apart: every finding must be acceptable. */
  lemma {:induction false} LegacySucceedsWhenTold(env: Environment, document: Document, current: seq<Issue>,
                                                  annotation: Annotation, prune: bool)
    requires env.Valid() && FromLegacy(env, document)
    requires PathsTold(env, current) && forall x :: x in current ==> NulFree(env, x)
    ensures Successful(env, document, current, annotation, prune) <==>
      && Identified(env, current)
      && (forall x :: x in current ==> Acceptable(env, x))
      && (current == [] || AnnotationAccepted(annotation))
      && DistinctFingerprints(Matching(document.entries, CurrentSet(env, current), true))
      && (prune || Fingerprints(document.entries) <= CurrentSet(env, current))
  {
    LegacySucceedsIff(env, document, current, annotation, prune);
    if Identified(env, current) {
      IdentifiedDistinct(env, current);
      EnterableWhenDistinct(env, document, current);
    }
  }

  /** For instance: an old document with one fingerprint and a report without findings. The document
      migrates with pruning, and with no annotation at all without it. */
  lemma StaleLegacyRefused(env: Environment, f: string, annotation: Annotation)
    requires env.Valid() && env.wellFormed(f)
    ensures var document := Document(LEGACY_VERSION, [Unannotated(f)]);
      && FromLegacy(env, document)
      && Successful(env, document, [], annotation, true)
      && !Successful(env, document, [], annotation, false)
  {
    var document := Document(LEGACY_VERSION, [Unannotated(f)]);
    assert document.entries[0] in document.entries;
    LegacySucceedsIff(env, document, [], annotation, true);
    LegacySucceedsIff(env, document, [], annotation, false);
    assert f in Fingerprints(document.entries) && CurrentSet(env, []) == {};
    assert Matching(document.entries, {}, true) == [];
  }
}
