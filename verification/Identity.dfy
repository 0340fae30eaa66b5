/** Stable identities of findings: how they are derived from evidence, how colliding ones are told
    apart, and when the final uniqueness check rejects a report. */
module Identity {
  import opened Ordering
  import Text

  datatype Position = Position(filename: string, offset: int)

  datatype Issue = Issue(
    rule: string, check: string, root: string, pos: Position,
    evidence: string, subject: string, identity: string)
  {
    function ID(): string { if check != "" then check else rule }
  }

  /** What identities depend on besides the findings: the portable form of a path under a root, the
      receiver type of the method enclosing an offset ("" outside methods), and which evidence
      values are numeric. */
  datatype Environment = Environment(
    portable: (string, string) -> string,
    receiver: (string, int) -> string,
    numeric: string -> bool)
  {
    /** Receivers are Go identifiers. */
    ghost predicate Valid() { forall file, offset :: ';' !in receiver(file, offset) }
  }

  function Key(env: Environment, x: Issue): string {
    x.ID() + "\0" + env.portable(x.root, x.pos.filename) + "\0" + x.subject + "\0" + x.identity
  }

  // ---------- Deriving subject and identity from evidence ----------

  const SUBJECT_KEYS: seq<string> :=
    ["type", "function", "method", "interface", "package", "field", "factory", "source", "from"]

  const IDENTITY_KEYS: seq<string> :=
    ["type", "function", "method", "interface", "package", "field", "factory", "source", "from", "to", "peer",
     "parameter", "parameters", "dependency", "import", "kind", "variants", "shared", "methods"]

  /** The text before the first colon of the first part, and the parts that may hold fields. */
  function EvidenceParts(evidence: string): (r: (string, seq<string>))
    ensures ';' !in r.0
    ensures forall part :: part in r.1 ==> ';' !in part
  {
    var parts := Text.Split(evidence, ';');
    var prefix := Text.TrimSpace(parts[0]);
    assert parts[0] in parts;
    var colon := Text.IndexOf(prefix, ':');
    if colon < |prefix| then (prefix[..colon], [prefix[colon + 1..]] + parts[1..])
    else (prefix, parts)
  }

  /** The key=value fields of the parts; a later part wins. */
  function FieldsOf(parts: seq<string>): map<string, string> {
    if parts == [] then map[] else WithField(FieldsOf(parts[..|parts| - 1]), parts[|parts| - 1])
  }

  function WithField(fields: map<string, string>, part: string): map<string, string> {
    var eq := Text.IndexOf(part, '=');
    if eq < |part| then fields[Text.TrimSpace(part[..eq]) := Text.TrimSpace(part[eq + 1..])] else fields
  }

  lemma {:induction false} FieldsPlain(parts: seq<string>, key: string)
    requires forall part :: part in parts ==> ';' !in part
    requires key in FieldsOf(parts)
    ensures ';' !in FieldsOf(parts)[key]
  {
    var last := parts[|parts| - 1];
    var before := FieldsOf(parts[..|parts| - 1]);
    assert last in parts;
    if key !in before {
    } else {
      FieldsPlain(parts[..|parts| - 1], key);
    }
  }

  function Field(fields: map<string, string>, key: string): string { if key in fields then fields[key] else "" }

  function FirstField(fields: map<string, string>, keys: seq<string>): string {
    if keys == [] then ""
    else if Field(fields, keys[0]) != "" then Field(fields, keys[0])
    else FirstField(fields, keys[1..])
  }

  function SubjectOf(evidence: string, packagePath: string): string {
    var (prefix, parts) := EvidenceParts(evidence);
    var first := FirstField(FieldsOf(parts), SUBJECT_KEYS);
    var subjectKey := if first == "" then prefix else first;
    Qualify(if packagePath == "" then "package" else packagePath, subjectKey)
  }

  /** The package before the key, unless it is there already. */
  function Qualify(package: string, subjectKey: string): string {
    if Text.HasPrefix(subjectKey, package + ".") then subjectKey else package + "." + subjectKey
  }

  /** The prefix followed by ";key=value" for each listed field that is present and not numeric. */
  function Assembled(env: Environment, prefix: string, fields: map<string, string>, keys: seq<string>): string {
    if keys == [] then prefix
    else
      var key := keys[|keys| - 1];
      var before := Assembled(env, prefix, fields, keys[..|keys| - 1]);
      if Field(fields, key) == "" || env.numeric(Field(fields, key)) then before
      else before + ";" + key + "=" + Field(fields, key)
  }

  function IdentityOf(env: Environment, evidence: string): string {
    var (prefix, parts) := EvidenceParts(evidence);
    Assembled(env, prefix, FieldsOf(parts), IDENTITY_KEYS)
  }

  method ParseFields(parts: seq<string>) returns (fields: map<string, string>)
    ensures fields == FieldsOf(parts)
  {
    fields := map[];
    for i := 0 to |parts|
      invariant fields == FieldsOf(parts[..i])
    {
      assert parts[..i + 1][..i] == parts[..i];
      fields := WithField(fields, parts[i]);
    }
    assert parts[..|parts|] == parts;
  }

  method Assemble(env: Environment, prefix: string, fields: map<string, string>, keys: seq<string>)
    returns (identity: string)
    ensures identity == Assembled(env, prefix, fields, keys)
  {
    var pieces := [prefix];
    for k := 0 to |keys|
      invariant pieces != []
      invariant Text.Join(pieces, ';') == Assembled(env, prefix, fields, keys[..k])
    {
      var key := keys[k];
      var value := Field(fields, key);
      assert keys[..k + 1][..k] == keys[..k];
      if value == "" || env.numeric(value) {
        continue;
      }
      Text.JoinSnoc(pieces, key + "=" + value, ';');
      assert Text.Join(pieces, ';') + ";" + key + "=" + value == Text.Join(pieces, ';') + [';'] + (key + "=" + value);
      pieces := pieces + [key + "=" + value];
    }
    assert keys[..|keys|] == keys;
    identity := Text.Join(pieces, ';');
    if identity == "" {
      identity := prefix;
      PrefixAtStart(env, prefix, fields, keys);
    }
  }

  method DeriveIssueIdentity(env: Environment, issue: Issue, packagePath: string)
    returns (subject: string, identity: string)
    ensures subject == SubjectOf(issue.evidence, packagePath) && subject != ""
    ensures identity == IdentityOf(env, issue.evidence)
  {
    var (prefix, parts) := EvidenceParts(issue.evidence);
    var fields := ParseFields(parts);
    var subjectKey := FirstField(fields, SUBJECT_KEYS);
    if subjectKey == "" {
      subjectKey := prefix;
    }
    var package := if packagePath == "" then "package" else packagePath;
    subject := package + "." + subjectKey;
    if Text.HasPrefix(subjectKey, package + ".") {
      subject := subjectKey;
    }
    identity := Assemble(env, prefix, fields, IDENTITY_KEYS);
  }

  lemma {:induction false} PrefixAtStart(env: Environment, prefix: string, fields: map<string, string>,
                                         keys: seq<string>)
    ensures Text.HasPrefix(Assembled(env, prefix, fields, keys), prefix)
  {
    if keys == [] {
    } else {
      PrefixAtStart(env, prefix, fields, keys[..|keys| - 1]);
    }
  }

  // ---------- Qualifiers never occur in derived identities ----------

  const RECEIVER := ";receiver="
  const OCCURRENCE := ";occurrence="

  ghost predicate Unqualified(s: string) { !Text.Contains(s, RECEIVER) && !Text.Contains(s, OCCURRENCE) }

  /** A word that starts with ';' and holds no other cannot straddle a ';'. */
  lemma WordInConcat(s: string, u: string, w: string, i: int)
    requires u != [] && u[0] == ';' && w != [] && w[0] == ';' && ';' !in w[1..]
    requires Text.OccursAt(s + u, w, i)
    ensures Text.OccursAt(s, w, i) || (i >= |s| && Text.OccursAt(u, w, i - |s|))
  {
    var t := s + u;
    Text.OccursMeans(t, w, i);
    Text.OccursMeans(s, w, i);
    Text.OccursMeans(u, w, i - |s|);
    assert forall k :: 1 <= k < |w| ==> w[k] in w[1..] && w[k] != ';';
    forall m | i < m < i + |w| ensures t[m] != ';' {
      assert t[i + (m - i)] == w[m - i];
    }
    assert t[|s|] == u[0];
  }

  lemma StartsField(body: string, word: string, i: int)
    requires ';' !in body && word != "" && word[0] == ';' && Text.OccursAt(";" + body, word, i)
    ensures i == 0 && |word| <= |body| + 1 && body[..|word| - 1] == word[1..]
  {
    var u := ";" + body;
    assert u[i..i + |word|][0] == u[i];
    assert u[..|word|][1..] == body[..|word| - 1];
  }

  lemma WordInField(key: string, value: string, word: string, i: int)
    requires ';' !in key && ';' !in value && '=' !in key && '=' !in word
    requires Text.OccursAt(";" + key + "=" + value, ";" + word + "=", i)
    ensures i == 0 && key == word
  {
    var body, w := key + ['='] + value, ";" + word + "=";
    assert ";" + key + "=" + value == ";" + body && w[1..] == word + ['='];
    StartsField(body, w, i);
    var rest := body[|w| - 1..];
    assert body == word + ['='] + rest;
    Text.CutUnique(key, value, word, rest, '=');
  }

  /** Putting one field after a text adds no other word. */
  lemma FieldAddsNoWord(s: string, key: string, value: string, word: string)
    requires !Text.Contains(s, ";" + word + "=")
    requires ';' !in key && ';' !in value && ';' !in word && '=' !in key && '=' !in word && key != word
    ensures !Text.Contains(s + ";" + key + "=" + value, ";" + word + "=")
  {
    var w, u := ";" + word + "=", ";" + key + "=" + value;
    assert s + ";" + key + "=" + value == s + u;
    assert w[1..] == word + "=";
    forall i ensures !Text.OccursAt(s + u, w, i) {
      if Text.OccursAt(s + u, w, i) {
        WordInConcat(s, u, w, i);
        if !Text.OccursAt(s, w, i) {
          WordInField(key, value, word, i - |s|);
        }
      }
    }
  }

  lemma NoSemicolonNoWord(s: string, w: string)
    requires ';' !in s && w != [] && w[0] == ';'
    ensures !Text.Contains(s, w)
  {
    forall i ensures !Text.OccursAt(s, w, i) {
      assert 0 <= i <= |s| - |w| ==> s[i..i + |w|][0] == s[i];
    }
  }

  predicate PlainKey(key: string) { ';' !in key && '=' !in key && key != "receiver" && key != "occurrence" }

  lemma IdentityKeysPlain(k: int)
    requires 0 <= k < |IDENTITY_KEYS|
    ensures PlainKey(IDENTITY_KEYS[k])
  {
  }

  lemma {:induction false} AssembledUnqualified(env: Environment, prefix: string, fields: map<string, string>,
                                                keys: seq<string>)
    requires ';' !in prefix
    requires forall key :: key in fields ==> ';' !in fields[key]
    requires forall k :: 0 <= k < |keys| ==> PlainKey(keys[k])
    ensures Unqualified(Assembled(env, prefix, fields, keys))
  {
    if keys == [] {
      NoSemicolonNoWord(prefix, RECEIVER);
      NoSemicolonNoWord(prefix, OCCURRENCE);
    } else {
      var key := keys[|keys| - 1];
      assert PlainKey(key);
      var before := Assembled(env, prefix, fields, keys[..|keys| - 1]);
      AssembledUnqualified(env, prefix, fields, keys[..|keys| - 1]);
      assert RECEIVER == ";" + "receiver" + "=" && OCCURRENCE == ";" + "occurrence" + "=";
      FieldAddsNoWord(before, key, Field(fields, key), "receiver");
      FieldAddsNoWord(before, key, Field(fields, key), "occurrence");
    }
  }

  /** Whatever the evidence says, the identity derived from it carries no qualifier. */
  lemma DerivedUnqualified(env: Environment, evidence: string)
    ensures Unqualified(IdentityOf(env, evidence))
  {
    var (prefix, parts) := EvidenceParts(evidence);
    var fields := FieldsOf(parts);
    forall key | key in fields ensures ';' !in fields[key] { FieldsPlain(parts, key); }
    forall k | 0 <= k < |IDENTITY_KEYS| ensures PlainKey(IDENTITY_KEYS[k]) { IdentityKeysPlain(k); }
    AssembledUnqualified(env, prefix, fields, IDENTITY_KEYS);
  }

  // ---------- Qualifying colliding identities ----------

  function Receiver(env: Environment, x: Issue): string { env.receiver(x.pos.filename, x.pos.offset) }

  function ReceiverSuffix(receiver: string): string { if receiver != "" then RECEIVER + receiver else "" }

  function OccurrenceSuffix(n: nat): string { if n > 1 then OCCURRENCE + Text.Decimal(n) else "" }

  /** The identity with its receiver. */
  function Base(env: Environment, x: Issue): string { x.identity + ReceiverSuffix(Receiver(env, x)) }

  predicate PositionLess(x: Position, y: Position) {
    if x.filename != y.filename then StringLeq(x.filename, y.filename) else x.offset < y.offset
  }

  /** The order of the stable sort by position: equal positions stay in report order. */
  predicate Before(issues: seq<Issue>, j: int, i: int)
    requires 0 <= j < |issues| && 0 <= i < |issues|
  {
    PositionLess(issues[j].pos, issues[i].pos) || (issues[j].pos == issues[i].pos && j < i)
  }

  predicate SameBase(env: Environment, x: Issue, y: Issue) {
    Key(env, x) == Key(env, y) && Base(env, x) == Base(env, y)
  }

  ghost predicate Shared(env: Environment, issues: seq<Issue>, i: int)
    requires 0 <= i < |issues|
  {
    exists j :: 0 <= j < |issues| && j != i && Key(env, issues[j]) == Key(env, issues[i])
  }

  /** Offsets at which the same base identity occurs earlier. */
  ghost function Earlier(env: Environment, issues: seq<Issue>, i: int): set<int>
    requires 0 <= i < |issues|
  {
    set j | 0 <= j < |issues| && SameBase(env, issues[j], issues[i]) && Before(issues, j, i) :: issues[j].pos.offset
  }

  ghost function FinalIdentity(env: Environment, issues: seq<Issue>, i: int): string
    requires 0 <= i < |issues|
  {
    var earlier := Earlier(env, issues, i);
    if !Shared(env, issues, i) then issues[i].identity
    else if issues[i].pos.offset in earlier then Base(env, issues[i])
    else Base(env, issues[i]) + OccurrenceSuffix(|earlier| + 1)
  }

  ghost function Disambiguated(env: Environment, issues: seq<Issue>): (r: seq<Issue>) {
    seq(|issues|, i requires 0 <= i < |issues| => issues[i].(identity := FinalIdentity(env, issues, i)))
  }

  // ---------- A qualified identity has one reading ----------

  function Suffix(receiver: string, n: nat): string { ReceiverSuffix(receiver) + OccurrenceSuffix(n) }

  predicate EmptyOrSemicolon(s: string) { s == "" || s[0] == ';' }

  lemma PlainPartUnique(r: string, o: string, r': string, o': string)
    requires ';' !in r && ';' !in r' && EmptyOrSemicolon(o) && EmptyOrSemicolon(o')
    requires r + o == r' + o'
    ensures r == r' && o == o'
  {
    var t := r + o;
    assert forall k :: 0 <= k < |r| ==> t[k] == r[k] && r[k] in r;
    assert t == r' + o';
    assert forall k :: 0 <= k < |r'| ==> t[k] == r'[k] && r'[k] in r';
    assert o != "" ==> t[|r|] == ';';
    assert o' != "" ==> t[|r'|] == ';';
    assert |r| == |r'|;
    assert r == t[..|r|] == r' && o == t[|r|..] == o';
  }

  lemma OccurrenceSuffixUnique(n: nat, n': nat)
    requires OccurrenceSuffix(n) == OccurrenceSuffix(n')
    ensures n == n' || (n <= 1 && n' <= 1)
  {
    if n > 1 && n' > 1 {
      assert OccurrenceSuffix(n)[|OCCURRENCE|..] == Text.Decimal(n);
      assert OccurrenceSuffix(n')[|OCCURRENCE|..] == Text.Decimal(n');
      Text.DecimalInjective(n, n');
    }
  }

  lemma SuffixShowsReceiver(r: string, n: nat)
    ensures r != "" <==> |Suffix(r, n)| > 1 && Suffix(r, n)[1] == 'r'
  {
  }

  lemma SuffixBody(r: string, n: nat)
    ensures r != "" ==> |Suffix(r, n)| >= |RECEIVER| && Suffix(r, n)[|RECEIVER|..] == r + OccurrenceSuffix(n)
    ensures r == "" ==> Suffix(r, n) == r + OccurrenceSuffix(n)
  {
    if r != "" {
      assert Suffix(r, n) == RECEIVER + (r + OccurrenceSuffix(n));
    }
  }

  lemma SuffixUnique(r: string, n: nat, r': string, n': nat)
    requires ';' !in r && ';' !in r' && Suffix(r, n) == Suffix(r', n')
    ensures r == r'
    ensures n == n' || (n <= 1 && n' <= 1)
  {
    SuffixShowsReceiver(r, n);
    SuffixShowsReceiver(r', n');
    SuffixBody(r, n);
    SuffixBody(r', n');
    PlainPartUnique(r, OccurrenceSuffix(n), r', OccurrenceSuffix(n'));
    OccurrenceSuffixUnique(n, n');
  }

  /** The first qualifier of a non-empty suffix. */
  lemma SuffixWord(r: string, n: nat) returns (w: string)
    requires Suffix(r, n) != ""
    ensures w == RECEIVER || w == OCCURRENCE
    ensures Text.HasPrefix(Suffix(r, n), w)
    ensures forall k :: 1 <= k < |w| ==> w[k] != ';'
  {
    w := if r != "" then RECEIVER else OCCURRENCE;
  }

  lemma OverhangHoldsWord(a: string, b: string, q: string, q': string, w: string)
    requires |a| < |b| && a + q == b + q'
    requires Text.HasPrefix(q, w) && (forall k :: 1 <= k < |w| ==> w[k] != ';') && EmptyOrSemicolon(q')
    ensures Text.Contains(b, w)
  {
    var t := a + q;
    assert t == b + q';
    assert forall k :: |a| <= k < |a| + |w| ==> t[k] == q[..|w|][k - |a|] == w[k - |a|];
    assert q' != "" ==> t[|b|] == ';';
    assert |b| >= |a| + |w|;
    assert b[|a|..|a| + |w|] == t[|a|..|a| + |w|] == w;
    assert Text.OccursAt(b, w, |a|);
  }

  /** Where two qualified texts agree and one identity is longer, the longer holds a qualifier. */
  lemma LongerIsQualified(a: string, b: string, r: string, n: nat, r': string, n': nat)
    requires |a| < |b|
    requires a + Suffix(r, n) == b + Suffix(r', n')
    ensures !Unqualified(b)
  {
    assert |a + Suffix(r, n)| == |b + Suffix(r', n')|;
    var w := SuffixWord(r, n);
    OverhangHoldsWord(a, b, Suffix(r, n), Suffix(r', n'), w);
  }

  /** Unqualified identities with qualifiers added are equal only when everything is. */
  lemma QualifiedUnique(a: string, b: string, r: string, n: nat, r': string, n': nat)
    requires Unqualified(a) && Unqualified(b) && ';' !in r && ';' !in r'
    requires a + Suffix(r, n) == b + Suffix(r', n')
    ensures a == b && r == r'
    ensures n == n' || (n <= 1 && n' <= 1)
  {
    if |a| < |b| {
      LongerIsQualified(a, b, r, n, r', n');
    } else if |b| < |a| {
      LongerIsQualified(b, a, r', n', r, n);
    }
    var t := a + Suffix(r, n);
    assert a == t[..|a|] && Suffix(r, n) == t[|a|..];
    assert t == b + Suffix(r', n');
    assert b == t[..|a|] && Suffix(r', n') == t[|a|..];
    SuffixUnique(r, n, r', n');
  }

  // ---------- Main results ----------

  /** Paths, check names and subjects hold no NUL, and the identity no qualifier yet. */
  ghost predicate WellFormed(env: Environment, x: Issue) {
    && '\0' !in x.ID() && '\0' !in env.portable(x.root, x.pos.filename) && '\0' !in x.subject
    && Unqualified(x.identity)
  }

  ghost predicate AllWellFormed(env: Environment, issues: seq<Issue>) {
    forall i :: 0 <= i < |issues| ==> WellFormed(env, issues[i])
  }

  predicate SameFinding(env: Environment, x: Issue, y: Issue) {
    && x.ID() == y.ID()
    && env.portable(x.root, x.pos.filename) == env.portable(y.root, y.pos.filename)
    && x.subject == y.subject
    && x.identity == y.identity
  }

  lemma KeyParts(env: Environment, x: Issue, y: Issue)
    requires '\0' !in x.ID() && '\0' !in env.portable(x.root, x.pos.filename) && '\0' !in x.subject
    requires '\0' !in y.ID() && '\0' !in env.portable(y.root, y.pos.filename) && '\0' !in y.subject
    ensures Key(env, x) == Key(env, y) <==> SameFinding(env, x, y)
  {
    if Key(env, x) == Key(env, y) {
      var px, py := env.portable(x.root, x.pos.filename), env.portable(y.root, y.pos.filename);
      var sx, sy := x.subject + "\0" + x.identity, y.subject + "\0" + y.identity;
      assert Key(env, x) == x.ID() + ['\0'] + (px + ['\0'] + sx);
      assert Key(env, y) == y.ID() + ['\0'] + (py + ['\0'] + sy);
      Text.CutUnique(x.ID(), px + ['\0'] + sx, y.ID(), py + ['\0'] + sy, '\0');
      Text.CutUnique(px, sx, py, sy, '\0');
      Text.CutUnique(x.subject, x.identity, y.subject, y.identity, '\0');
    }
  }

  /** Two findings nothing can tell apart: same check, path, subject, identity, receiver and offset. */
  predicate Twins(env: Environment, x: Issue, y: Issue) {
    SameFinding(env, x, y) && Receiver(env, x) == Receiver(env, y) && x.pos.offset == y.pos.offset
  }

  ghost predicate NoTwins(env: Environment, issues: seq<Issue>) {
    forall i, j :: 0 <= i < j < |issues| ==> !Twins(env, issues[i], issues[j])
  }

  ghost predicate KeysDistinct(env: Environment, issues: seq<Issue>) {
    forall i, j :: 0 <= i < j < |issues| ==> Key(env, issues[i]) != Key(env, issues[j])
  }

  lemma PositionOrder(x: Position, y: Position, z: Position)
    ensures !PositionLess(x, x)
    ensures PositionLess(x, y) && PositionLess(y, z) ==> PositionLess(x, z)
    ensures PositionLess(x, y) || PositionLess(y, x) || x == y
    ensures !(PositionLess(x, y) && PositionLess(y, x))
  {
    StringOrder();
  }

  lemma BeforeOrder(issues: seq<Issue>, i: int, j: int, k: int)
    requires 0 <= i < |issues| && 0 <= j < |issues| && 0 <= k < |issues|
    ensures Before(issues, i, j) && Before(issues, j, k) ==> Before(issues, i, k)
    ensures i != j ==> Before(issues, i, j) || Before(issues, j, i)
    ensures !(Before(issues, i, j) && Before(issues, j, i))
  {
    PositionOrder(issues[i].pos, issues[j].pos, issues[k].pos);
    PositionOrder(issues[j].pos, issues[k].pos, issues[i].pos);
    PositionOrder(issues[i].pos, issues[k].pos, issues[j].pos);
  }

  ghost function Predecessors(issues: seq<Issue>, i: int): set<int>
    requires 0 <= i < |issues|
  {
    set j | 0 <= j < |issues| && Before(issues, j, i)
  }

  /** Among the findings with one base identity, some finding comes first. */
  lemma {:induction false} FirstOfBase(env: Environment, issues: seq<Issue>, i: int) returns (k: int)
    requires 0 <= i < |issues|
    ensures 0 <= k < |issues| && SameBase(env, issues[k], issues[i]) && Earlier(env, issues, k) == {}
    ensures k == i || Before(issues, k, i)
    decreases Predecessors(issues, i)
  {
    if Earlier(env, issues, i) == {} {
      return i;
    }
    var offset :| offset in Earlier(env, issues, i);
    var j :| 0 <= j < |issues| && SameBase(env, issues[j], issues[i]) && Before(issues, j, i) &&
      issues[j].pos.offset == offset;
    forall m | 0 <= m < |issues| && Before(issues, m, j) ensures Before(issues, m, i) { BeforeOrder(issues, m, j, i); }
    BeforeOrder(issues, j, j, i);
    assert j in Predecessors(issues, i) && j !in Predecessors(issues, j);
    k := FirstOfBase(env, issues, j);
    BeforeOrder(issues, k, j, i);
  }

  lemma TwinsCollide(env: Environment, issues: seq<Issue>, i: int, j: int)
    requires AllWellFormed(env, issues)
    requires 0 <= i < |issues| && 0 <= j < |issues| && Before(issues, i, j) && Twins(env, issues[i], issues[j])
    ensures !KeysDistinct(env, Disambiguated(env, issues))
  {
    BeforeOrder(issues, i, j, j);
    assert issues[i].pos.offset in Earlier(env, issues, j);
    var k := FirstOfBase(env, issues, j);
    assert k != j;
    KeyParts(env, issues[k], issues[j]);
    assert Shared(env, issues, j) && Shared(env, issues, k);
    var final := Disambiguated(env, issues);
    assert Base(env, issues[k]) + OccurrenceSuffix(1) == Base(env, issues[k]);
    assert final[k].identity == Base(env, issues[j]) == final[j].identity;
    assert Key(env, final[k]) == Key(env, final[j]);
    assert KeysDistinct(env, final) ==> k == j;
  }

  /** The qualifiers a finding ends up with. */
  ghost function FinalReceiver(env: Environment, issues: seq<Issue>, i: int): string
    requires 0 <= i < |issues|
  {
    if Shared(env, issues, i) then Receiver(env, issues[i]) else ""
  }

  ghost function FinalOccurrence(env: Environment, issues: seq<Issue>, i: int): nat
    requires 0 <= i < |issues|
  {
    var earlier := Earlier(env, issues, i);
    if !Shared(env, issues, i) || issues[i].pos.offset in earlier then 1 else |earlier| + 1
  }

  lemma FinalIdentityShape(env: Environment, issues: seq<Issue>, i: int)
    requires 0 <= i < |issues|
    ensures FinalIdentity(env, issues, i)
            == issues[i].identity + Suffix(FinalReceiver(env, issues, i), FinalOccurrence(env, issues, i))
    ensures FinalOccurrence(env, issues, i) >= 1
  {
    var x := issues[i];
    if Shared(env, issues, i) {
      assert Base(env, x) + OccurrenceSuffix(FinalOccurrence(env, issues, i))
             == x.identity + (ReceiverSuffix(Receiver(env, x)) + OccurrenceSuffix(FinalOccurrence(env, issues, i)));
    }
  }

  lemma {:induction false} NoTwinsSeparated(env: Environment, issues: seq<Issue>, i: int, j: int)
    requires env.Valid() && AllWellFormed(env, issues) && NoTwins(env, issues)
    requires 0 <= i < |issues| && 0 <= j < |issues| && Before(issues, i, j)
    ensures Key(env, Disambiguated(env, issues)[i]) != Key(env, Disambiguated(env, issues)[j])
  {
    var final := Disambiguated(env, issues);
    BeforeOrder(issues, i, j, j);
    KeyParts(env, final[i], final[j]);
    if SameFinding(env, final[i], final[j]) {
      FinalIdentityShape(env, issues, i);
      FinalIdentityShape(env, issues, j);
      QualifiedUnique(issues[i].identity, issues[j].identity,
                      FinalReceiver(env, issues, i), FinalOccurrence(env, issues, i),
                      FinalReceiver(env, issues, j), FinalOccurrence(env, issues, j));
      KeyParts(env, issues[i], issues[j]);
      assert Shared(env, issues, i) && Shared(env, issues, j);
      OccurrencesGrow(env, issues, i, j);
      assert false;
    }
  }

  lemma OffsetNotEarlier(env: Environment, issues: seq<Issue>, i: int)
    requires env.Valid() && AllWellFormed(env, issues) && NoTwins(env, issues)
    requires 0 <= i < |issues|
    ensures issues[i].pos.offset !in Earlier(env, issues, i)
  {
    forall j | 0 <= j < |issues| && SameBase(env, issues[j], issues[i]) && Before(issues, j, i)
      ensures issues[j].pos.offset != issues[i].pos.offset
    {
      BeforeOrder(issues, j, i, i);
      SameBaseParts(env, issues[j], issues[i]);
      assert !Twins(env, issues[j], issues[i]) && !Twins(env, issues[i], issues[j]);
    }
  }

  lemma SameBaseParts(env: Environment, x: Issue, y: Issue)
    requires env.Valid() && WellFormed(env, x) && WellFormed(env, y)
    ensures SameBase(env, x, y) <==> SameFinding(env, x, y) && Receiver(env, x) == Receiver(env, y)
  {
    KeyParts(env, x, y);
    if SameBase(env, x, y) {
      assert Suffix(Receiver(env, x), 1) == ReceiverSuffix(Receiver(env, x));
      assert Suffix(Receiver(env, y), 1) == ReceiverSuffix(Receiver(env, y));
      QualifiedUnique(x.identity, y.identity, Receiver(env, x), 1, Receiver(env, y), 1);
    }
  }

  /** Of two findings with one base identity, the later has the higher occurrence number. */
  lemma {:induction false} OccurrencesGrow(env: Environment, issues: seq<Issue>, i: int, j: int)
    requires env.Valid() && AllWellFormed(env, issues) && NoTwins(env, issues)
    requires 0 <= i < |issues| && 0 <= j < |issues| && Before(issues, i, j)
    requires SameFinding(env, issues[i], issues[j]) && Receiver(env, issues[i]) == Receiver(env, issues[j])
    requires Shared(env, issues, i) && Shared(env, issues, j)
    ensures FinalOccurrence(env, issues, i) < FinalOccurrence(env, issues, j)
  {
    OffsetNotEarlier(env, issues, i);
    OffsetNotEarlier(env, issues, j);
    SameBaseParts(env, issues[i], issues[j]);
    forall k | 0 <= k < |issues| && SameBase(env, issues[k], issues[i]) && Before(issues, k, i)
      ensures issues[k].pos.offset in Earlier(env, issues, j)
    {
      BeforeOrder(issues, k, i, j);
    }
    SubsetSize(Earlier(env, issues, i), Earlier(env, issues, j));
  }

  // ---------- Occurrences are numbered in source order ----------

  /** `j` stands before `i` in the sources and has the same check, path, subject, identity and receiver. */
  ghost predicate SameBefore(env: Environment, issues: seq<Issue>, j: int, i: int)
    requires 0 <= j < |issues| && 0 <= i < |issues|
  {
    && SameFinding(env, issues[j], issues[i]) && Receiver(env, issues[j]) == Receiver(env, issues[i])
    && if issues[j].pos.filename == issues[i].pos.filename then issues[j].pos.offset < issues[i].pos.offset
       else StringLeq(issues[j].pos.filename, issues[i].pos.filename)
  }

  ghost function CountBefore(env: Environment, issues: seq<Issue>, i: int): nat
    requires 0 <= i < |issues|
  {
    |set j | 0 <= j < |issues| && SameBefore(env, issues, j, i)|
  }

  lemma {:induction false} SameSize<S, T>(indices: set<S>, image: set<T>, f: S -> T)
    requires image == set j | j in indices :: f(j)
    requires forall j, k :: j in indices && k in indices && f(j) == f(k) ==> j == k
    ensures |indices| == |image|
    decreases indices
  {
    if indices == {} {
    } else {
      var j :| j in indices;
      assert image - {f(j)} == set k | k in indices - {j} :: f(k);
      SameSize(indices - {j}, image - {f(j)}, f);
    }
  }

  lemma EarlierOffsets(env: Environment, issues: seq<Issue>, i: int, indices: set<int>, f: int -> int)
    requires 0 <= i < |issues|
    requires forall j :: j in indices <==>
      0 <= j < |issues| && SameBase(env, issues[j], issues[i]) && Before(issues, j, i)
    requires forall j :: 0 <= j < |issues| ==> f(j) == issues[j].pos.offset
    ensures Earlier(env, issues, i) == set j | j in indices :: f(j)
  {
    forall y | y in Earlier(env, issues, i) ensures y in set j | j in indices :: f(j) {
      var j :| 0 <= j < |issues| && SameBase(env, issues[j], issues[i]) && Before(issues, j, i) &&
        issues[j].pos.offset == y;
      assert j in indices && f(j) == y;
    }
    forall y | y in (set j | j in indices :: f(j)) ensures y in Earlier(env, issues, i) {
      var j :| j in indices && f(j) == y;
    }
  }

  /** Without twins each earlier occurrence has an offset of its own. */
  lemma {:induction false} EarlierCounted(env: Environment, issues: seq<Issue>, i: int)
    requires env.Valid() && AllWellFormed(env, issues) && NoTwins(env, issues) && 0 <= i < |issues|
    ensures |Earlier(env, issues, i)| == CountBefore(env, issues, i)
  {
    var indices := set j | 0 <= j < |issues| && SameBefore(env, issues, j, i);
    var f := (j: int) => if 0 <= j < |issues| then issues[j].pos.offset else 0;
    forall j | 0 <= j < |issues| && j != i
      ensures SameBefore(env, issues, j, i) <==> SameBase(env, issues[j], issues[i]) && Before(issues, j, i)
    {
      SameBaseParts(env, issues[j], issues[i]);
      if SameBase(env, issues[j], issues[i]) { BeforeIsLess(env, issues, i, j); }
    }
    BeforeOrder(issues, i, i, i);
    assert !SameBefore(env, issues, i, i);
    forall j, k | j in indices && k in indices && f(j) == f(k) ensures j == k {
      assert Twins(env, issues[j], issues[k]) && Twins(env, issues[k], issues[j]);
    }
    EarlierOffsets(env, issues, i, indices, f);
    SameSize(indices, Earlier(env, issues, i), f);
  }

  lemma SharedMeans(env: Environment, issues: seq<Issue>, i: int)
    requires AllWellFormed(env, issues) && 0 <= i < |issues|
    ensures Shared(env, issues, i) <==>
      exists j :: 0 <= j < |issues| && j != i && SameFinding(env, issues[j], issues[i])
  {
    forall j | 0 <= j < |issues| && j != i
      ensures Key(env, issues[j]) == Key(env, issues[i]) <==> SameFinding(env, issues[j], issues[i])
    {
      KeyParts(env, issues[j], issues[i]);
    }
  }

  lemma QualifiedText(env: Environment, x: Issue, before: nat)
    ensures Base(env, x) + OccurrenceSuffix(before + 1) == x.identity
      + (if env.receiver(x.pos.filename, x.pos.offset) == "" then ""
         else ";receiver=" + env.receiver(x.pos.filename, x.pos.offset))
      + (if before == 0 then "" else ";occurrence=" + Text.Decimal(before + 1))
  {
  }

  /** What the disambiguated identity of a finding reads: its own while no other finding shares its key;
      otherwise its own with the receiver, and with a number if it is not the first one in source order. */
  lemma {:induction false} FinalText(env: Environment, issues: seq<Issue>, i: int)
    requires env.Valid() && AllWellFormed(env, issues) && NoTwins(env, issues) && 0 <= i < |issues|
    ensures (forall j :: 0 <= j < |issues| && j != i ==> !SameFinding(env, issues[j], issues[i])) ==>
      Disambiguated(env, issues)[i].identity == issues[i].identity
    ensures (exists j :: 0 <= j < |issues| && j != i && SameFinding(env, issues[j], issues[i])) ==>
      Disambiguated(env, issues)[i].identity == issues[i].identity
        + (if env.receiver(issues[i].pos.filename, issues[i].pos.offset) == "" then ""
           else ";receiver=" + env.receiver(issues[i].pos.filename, issues[i].pos.offset))
        + (if CountBefore(env, issues, i) == 0 then ""
           else ";occurrence=" + Text.Decimal(CountBefore(env, issues, i) + 1))
    ensures |Disambiguated(env, issues)| == |issues|
    ensures Disambiguated(env, issues)[i].(identity := issues[i].identity) == issues[i]
  {
    SharedMeans(env, issues, i);
    OffsetNotEarlier(env, issues, i);
    EarlierCounted(env, issues, i);
    QualifiedText(env, issues[i], |Earlier(env, issues, i)|);
  }

  /** Further down in one file means a higher number, and so does a later file. */
  lemma {:induction false} SourceOrder(env: Environment, issues: seq<Issue>, i: int, j: int)
    requires env.Valid() && AllWellFormed(env, issues) && NoTwins(env, issues)
    requires 0 <= i < |issues| && 0 <= j < |issues|
    requires SameFinding(env, issues[i], issues[j]) && Receiver(env, issues[i]) == Receiver(env, issues[j])
    requires if issues[i].pos.filename == issues[j].pos.filename then issues[i].pos.offset < issues[j].pos.offset
             else StringLeq(issues[i].pos.filename, issues[j].pos.filename)
    ensures CountBefore(env, issues, i) < CountBefore(env, issues, j)
  {
    var a := set k | 0 <= k < |issues| && SameBefore(env, issues, k, i);
    var b := set k | 0 <= k < |issues| && SameBefore(env, issues, k, j);
    forall k | k in a ensures k in b {
      StringOrder();
      StringOrderStrict(issues[k].pos.filename, issues[i].pos.filename, issues[j].pos.filename);
    }
    assert i in b && i !in a;
    SubsetSize(a, b);
  }

  lemma StringOrderStrict(a: string, b: string, c: string)
    ensures StringLeq(a, b) && StringLeq(b, c) && a == c ==> a == b
    ensures StringLeq(a, b) && StringLeq(b, c) ==> StringLeq(a, c)
  {
    StringOrder();
  }

  /** The uniqueness theorem: after qualification all keys differ exactly when no two findings shared
      check, path, subject, identity, receiver and offset. */
  lemma DistinctIffNoTwins(env: Environment, issues: seq<Issue>)
    requires env.Valid() && AllWellFormed(env, issues)
    ensures KeysDistinct(env, Disambiguated(env, issues)) <==> NoTwins(env, issues)
  {
    if NoTwins(env, issues) {
      forall i, j | 0 <= i < j < |issues|
        ensures Key(env, Disambiguated(env, issues)[i]) != Key(env, Disambiguated(env, issues)[j])
      {
        BeforeOrder(issues, i, j, j);
        if Before(issues, i, j) { NoTwinsSeparated(env, issues, i, j); } else { NoTwinsSeparated(env, issues, j, i); }
      }
    } else {
      var i, j :| 0 <= i < j < |issues| && Twins(env, issues[i], issues[j]);
      BeforeOrder(issues, i, j, j);
      if Before(issues, i, j) { TwinsCollide(env, issues, i, j); } else { TwinsCollide(env, issues, j, i); }
    }
  }

  /** The same check, path, subject, identity and offset. */
  predicate SamePlace(env: Environment, x: Issue, y: Issue) { SameFinding(env, x, y) && x.pos.offset == y.pos.offset }

  predicate SamePath(env: Environment, x: Issue, y: Issue) {
    env.portable(x.root, x.pos.filename) == env.portable(y.root, y.pos.filename)
  }

  ghost predicate NoSamePlace(env: Environment, issues: seq<Issue>) {
    forall i, j :: 0 <= i < j < |issues| ==> !SamePlace(env, issues[i], issues[j])
  }

  lemma TwinsShareTheirPlace(env: Environment, issues: seq<Issue>)
    requires forall x, y :: x in issues && y in issues && SamePath(env, x, y) ==> x.pos.filename == y.pos.filename
    ensures NoTwins(env, issues) <==> NoSamePlace(env, issues)
  {
    forall i, j | 0 <= i < j < |issues|
      ensures Twins(env, issues[i], issues[j]) <==> SamePlace(env, issues[i], issues[j])
    {
      assert issues[i] in issues && issues[j] in issues;
    }
  }

  /** Where the portable path of a finding determines its file, the receiver adds nothing: all final
      keys differ exactly when no two findings agree on check, path, subject, identity and offset. */
  lemma {:induction false} DistinctWithoutReceiver(env: Environment, issues: seq<Issue>)
    requires env.Valid() && AllWellFormed(env, issues)
    requires forall x, y :: x in issues && y in issues && SamePath(env, x, y) ==> x.pos.filename == y.pos.filename
    ensures KeysDistinct(env, Disambiguated(env, issues)) <==> NoSamePlace(env, issues)
  {
    DistinctIffNoTwins(env, issues);
    TwinsShareTheirPlace(env, issues);
  }

  /** The outcome for one finding, told from the set of findings alone. */
  ghost function FinalIn(env: Environment, all: set<Issue>, x: Issue): string {
    if !SharedIn(env, all, x) then x.identity else Base(env, x) + OccurrenceSuffix(|EarlierIn(env, all, x)| + 1)
  }

  ghost function EarlierIn(env: Environment, all: set<Issue>, x: Issue): set<int> {
    set y | y in all && SameBase(env, y, x) && PositionLess(y.pos, x.pos) :: y.pos.offset
  }

  ghost predicate SharedIn(env: Environment, all: set<Issue>, x: Issue) {
    exists y :: y in all && y != x && Key(env, y) == Key(env, x)
  }

  /** Among twin-free findings of one base identity, stable position order is position order. */
  lemma BeforeIsLess(env: Environment, issues: seq<Issue>, i: int, j: int)
    requires env.Valid() && AllWellFormed(env, issues) && NoTwins(env, issues)
    requires 0 <= i < |issues| && 0 <= j < |issues| && SameBase(env, issues[j], issues[i])
    ensures Before(issues, j, i) <==> PositionLess(issues[j].pos, issues[i].pos)
  {
    SameBaseParts(env, issues[j], issues[i]);
    PositionOrder(issues[i].pos, issues[i].pos, issues[i].pos);
    if issues[j].pos == issues[i].pos && j != i {
      assert Twins(env, issues[j], issues[i]) && Twins(env, issues[i], issues[j]);
    }
  }

  lemma {:induction false} EarlierFromSet(env: Environment, issues: seq<Issue>, i: int)
    requires env.Valid() && AllWellFormed(env, issues) && NoTwins(env, issues) && 0 <= i < |issues|
    ensures Earlier(env, issues, i) == EarlierIn(env, Elements(issues), issues[i])
  {
    forall j | 0 <= j < |issues| && SameBase(env, issues[j], issues[i])
      ensures Before(issues, j, i) <==> PositionLess(issues[j].pos, issues[i].pos)
    {
      BeforeIsLess(env, issues, i, j);
    }
  }

  lemma {:induction false} SharedFromSet(env: Environment, issues: seq<Issue>, i: int)
    requires env.Valid() && AllWellFormed(env, issues) && NoTwins(env, issues) && 0 <= i < |issues|
    ensures Shared(env, issues, i) <==> SharedIn(env, Elements(issues), issues[i])
  {
    var x := issues[i];
    forall j | 0 <= j < |issues| && j != i && Key(env, issues[j]) == Key(env, x) ensures issues[j] != x {
      KeyParts(env, issues[j], x);
      assert !Twins(env, issues[j], x) || !Twins(env, x, issues[j]);
    }
    if y :| y in Elements(issues) && y != x && Key(env, y) == Key(env, x) {
      var j :| 0 <= j < |issues| && issues[j] == y;
      assert Shared(env, issues, i);
    }
  }

  lemma {:induction false} FinalFromSet(env: Environment, issues: seq<Issue>, i: int)
    requires env.Valid() && AllWellFormed(env, issues) && NoTwins(env, issues) && 0 <= i < |issues|
    ensures FinalIdentity(env, issues, i) == FinalIn(env, Elements(issues), issues[i])
  {
    OffsetNotEarlier(env, issues, i);
    EarlierFromSet(env, issues, i);
    SharedFromSet(env, issues, i);
  }

  /** Without twins, report order does not matter: in every permutation each finding gets the same
      identity, and a finding with a key of its own keeps the identity it had. */
  lemma OrderIndependent(env: Environment, a: seq<Issue>, b: seq<Issue>)
    requires env.Valid() && AllWellFormed(env, a) && NoTwins(env, a)
    requires multiset(a) == multiset(b)
    ensures NoTwins(env, b)
    ensures forall i, j :: 0 <= i < |a| && 0 <= j < |b| && a[i] == b[j] ==>
      Disambiguated(env, a)[i] == Disambiguated(env, b)[j]
    ensures forall i :: 0 <= i < |a| && (forall k :: 0 <= k < |a| && k != i ==> Key(env, a[k]) != Key(env, a[i])) ==>
      Disambiguated(env, a)[i] == a[i]
  {
    SameMultisetSameElements(a, b);
    forall j | 0 <= j < |b| ensures WellFormed(env, b[j]) {
      assert b[j] in a;
    }
    forall i, j | 0 <= i < j < |b| ensures !Twins(env, b[i], b[j]) {
      if Twins(env, b[i], b[j]) { TwinsTransfer(env, a, b, i, j); }
    }
    assert Elements(a) == Elements(b);
    forall i, j | 0 <= i < |a| && 0 <= j < |b| && a[i] == b[j]
      ensures Disambiguated(env, a)[i] == Disambiguated(env, b)[j]
    {
      FinalFromSet(env, a, i);
      FinalFromSet(env, b, j);
    }
  }

  ghost function FinalForm(env: Environment, all: set<Issue>): Issue -> Issue {
    (x: Issue) => x.(identity := FinalIn(env, all, x))
  }

  lemma DisambiguatedIsMap(env: Environment, all: set<Issue>, issues: seq<Issue>)
    requires env.Valid() && AllWellFormed(env, issues) && NoTwins(env, issues) && Elements(issues) == all
    ensures Disambiguated(env, issues) == Map(FinalForm(env, all), issues)
  {
    forall i | 0 <= i < |issues| ensures FinalIdentity(env, issues, i) == FinalIn(env, all, issues[i]) {
      FinalFromSet(env, issues, i);
    }
  }

  /** A permutation of a report is accepted or rejected as the report is, and without twins it is
      disambiguated to a permutation. */
  lemma {:induction false} PermutedReport(env: Environment, a: seq<Issue>, b: seq<Issue>)
    requires env.Valid() && AllWellFormed(env, a) && multiset(a) == multiset(b)
    ensures NoTwins(env, a) <==> NoTwins(env, b)
    ensures KeysDistinct(env, Disambiguated(env, a)) <==> NoTwins(env, a)
    ensures KeysDistinct(env, Disambiguated(env, b)) <==> NoTwins(env, a)
    ensures NoTwins(env, a) ==> multiset(Disambiguated(env, a)) == multiset(Disambiguated(env, b))
  {
    SameMultisetSameElements(a, b);
    forall j | 0 <= j < |b| ensures WellFormed(env, b[j]) {
      assert b[j] in a;
    }
    if NoTwins(env, a) {
      OrderIndependent(env, a, b);
      assert Elements(a) == Elements(b);
      DisambiguatedIsMap(env, Elements(a), a);
      DisambiguatedIsMap(env, Elements(a), b);
      MapMultiset(FinalForm(env, Elements(a)), a, b);
    } else if NoTwins(env, b) {
      OrderIndependent(env, b, a);
    }
    DistinctIffNoTwins(env, a);
    DistinctIffNoTwins(env, b);
  }

  lemma TwinsTransfer(env: Environment, a: seq<Issue>, b: seq<Issue>, i: int, j: int)
    requires multiset(a) == multiset(b)
    requires 0 <= i < j < |b| && Twins(env, b[i], b[j])
    ensures !NoTwins(env, a)
  {
    SameMultisetSameElements(a, b);
    if b[i] == b[j] {
      TwoCopies(a, b, i, j);
      var m, n :| 0 <= m < n < |a| && a[m] == a[n] == b[i];
      assert Twins(env, a[m], a[n]);
    } else {
      assert b[i] in b && b[j] in b;
      var k :| 0 <= k < |a| && a[k] == b[i];
      var m :| 0 <= m < |a| && a[m] == b[j];
      assert Twins(env, a[k], a[m]) && Twins(env, a[m], a[k]);
    }
  }

  // ---------- The in-place algorithms ----------

  datatype Member = Member(pos: Position, index: nat)

  predicate MemberLeq(x: Member, y: Member) {
    PositionLess(x.pos, y.pos) || (x.pos == y.pos && x.index <= y.index)
  }

  lemma MemberOrder()
    ensures TotalPreorder(MemberLeq)
  {
    forall x, y ensures MemberLeq(x, y) || MemberLeq(y, x) { PositionOrder(x.pos, y.pos, x.pos); }
    forall x, y, z | MemberLeq(x, y) && MemberLeq(y, z) ensures MemberLeq(x, z) { PositionOrder(x.pos, y.pos, z.pos); }
  }

  /** The members of one key in position order: exactly the findings with that key, each once. */
  ghost predicate Arranged(env: Environment, was: seq<Issue>, sorted: seq<Member>) {
    && (forall t :: 0 <= t < |sorted| ==> sorted[t].index < |was| && was[sorted[t].index].pos == sorted[t].pos)
    && (forall t, u :: 0 <= t < u < |sorted| ==> sorted[t].index != sorted[u].index && MemberLeq(sorted[t], sorted[u]))
    && (forall t, u :: 0 <= t < |sorted| && 0 <= u < |sorted| ==>
      Key(env, was[sorted[t].index]) == Key(env, was[sorted[u].index]))
    && (forall i, t :: 0 <= i < |was| && 0 <= t < |sorted| && Key(env, was[i]) == Key(env, was[sorted[t].index]) ==>
      Listed(sorted, i))
  }

  ghost predicate Listed(sorted: seq<Member>, i: int) { exists u :: 0 <= u < |sorted| && sorted[u].index == i }

  /** The offsets seen for a base identity among the first `t` members. */
  ghost function SeenOffsets(env: Environment, was: seq<Issue>, sorted: seq<Member>, t: nat, base: string): set<int>
    requires Arranged(env, was, sorted) && t <= |sorted|
  {
    set k | 0 <= k < t && Base(env, was[sorted[k].index]) == base :: sorted[k].pos.offset
  }

  lemma ListedBefore(env: Environment, was: seq<Issue>, sorted: seq<Member>, k: nat, t: nat)
    requires Arranged(env, was, sorted) && k < t < |sorted|
    ensures Before(was, sorted[k].index, sorted[t].index)
  {
    assert MemberLeq(sorted[k], sorted[t]);
  }

  lemma BeforeListed(env: Environment, was: seq<Issue>, sorted: seq<Member>, t: nat, j: nat) returns (k: nat)
    requires Arranged(env, was, sorted) && t < |sorted| && j < |was|
    requires SameBase(env, was[j], was[sorted[t].index]) && Before(was, j, sorted[t].index)
    ensures k < t && sorted[k].index == j
  {
    assert Listed(sorted, j);
    k :| 0 <= k < |sorted| && sorted[k].index == j;
    BeforeOrder(was, j, sorted[t].index, j);
    assert k > t ==> MemberLeq(sorted[t], sorted[k]);
  }

  lemma SeenIsEarlier(env: Environment, was: seq<Issue>, sorted: seq<Member>, t: nat)
    requires Arranged(env, was, sorted) && t < |sorted|
    ensures SeenOffsets(env, was, sorted, t, Base(env, was[sorted[t].index])) == Earlier(env, was, sorted[t].index)
  {
    var i := sorted[t].index;
    var seen := SeenOffsets(env, was, sorted, t, Base(env, was[i]));
    forall offset | offset in seen ensures offset in Earlier(env, was, i) {
      var k :| 0 <= k < t && Base(env, was[sorted[k].index]) == Base(env, was[i]) && sorted[k].pos.offset == offset;
      ListedBefore(env, was, sorted, k, t);
      assert SameBase(env, was[sorted[k].index], was[i]);
    }
    forall offset | offset in Earlier(env, was, i) ensures offset in seen {
      var j: nat :| 0 <= j < |was| && SameBase(env, was[j], was[i]) && Before(was, j, i) && was[j].pos.offset == offset;
      var k := BeforeListed(env, was, sorted, t, j);
    }
  }

  lemma SharedIffSeveral(env: Environment, was: seq<Issue>, sorted: seq<Member>, t: nat)
    requires Arranged(env, was, sorted) && t < |sorted|
    ensures Shared(env, was, sorted[t].index) <==> |sorted| > 1
  {
    if |sorted| > 1 {
      var u := if t == 0 then 1 else 0;
      assert sorted[u].index != sorted[t].index;
      assert Key(env, was[sorted[u].index]) == Key(env, was[sorted[t].index]);
    }
    forall j | 0 <= j < |was| && j != sorted[t].index && Key(env, was[j]) == Key(env, was[sorted[t].index])
      ensures |sorted| > 1
    {
      assert Listed(sorted, j);
    }
  }

  /** `members` lists, in report order, the findings before `n` whose key is `key`. */
  ghost predicate IndexedBy(env: Environment, was: seq<Issue>, members: seq<nat>, key: string, n: nat) {
    && n <= |was|
    && (forall k :: 0 <= k < |members| ==> members[k] < n && Key(env, was[members[k]]) == key)
    && (forall j, k :: 0 <= j < k < |members| ==> members[j] < members[k])
    && (forall i :: 0 <= i < n && Key(env, was[i]) == key ==> i in members)
  }

  ghost predicate Listing(was: seq<Issue>, members: seq<nat>, listed: seq<Member>) {
    && |listed| == |members|
    && (forall k :: 0 <= k < |listed| ==> listed[k].index == members[k] < |was| && listed[k].pos == was[members[k]].pos)
  }

  lemma SortedIsArranged(env: Environment, was: seq<Issue>, members: seq<nat>, key: string, listed: seq<Member>,
                         sorted: seq<Member>)
    requires IndexedBy(env, was, members, key, |was|) && Listing(was, members, listed)
    requires SortedBy(sorted, MemberLeq) && multiset(sorted) == multiset(listed)
    ensures Arranged(env, was, sorted) && |sorted| == |members|
    ensures forall i :: 0 <= i < |was| ==> (Listed(sorted, i) <==> Key(env, was[i]) == key)
  {
    SameMultisetSameElements(sorted, listed);
    forall t | 0 <= t < |sorted|
      ensures sorted[t].index < |was| && was[sorted[t].index].pos == sorted[t].pos &&
        Key(env, was[sorted[t].index]) == key
    {
      assert sorted[t] in listed;
      var k :| 0 <= k < |listed| && listed[k] == sorted[t];
    }
    forall i | 0 <= i < |was| && Key(env, was[i]) == key ensures Listed(sorted, i) {
      var k :| 0 <= k < |members| && members[k] == i;
      assert listed[k] in listed;
      var u :| 0 <= u < |sorted| && sorted[u] == listed[k];
      assert sorted[u].index == i;
    }
    forall t, u | 0 <= t < u < |sorted| ensures sorted[t].index != sorted[u].index {
      if sorted[t] == sorted[u] {
        TwoCopies(listed, sorted, t, u);
      }
    }
  }

  method SortMembers(env: Environment, issues: array<Issue>, members: seq<nat>, ghost was: seq<Issue>,
                     ghost key: string)
    returns (sorted: seq<Member>)
    requires |was| == issues.Length && IndexedBy(env, was, members, key, |was|)
    requires forall k :: 0 <= k < |members| ==> issues[members[k]] == was[members[k]]
    ensures Arranged(env, was, sorted) && |sorted| == |members|
    ensures forall i :: 0 <= i < |was| ==> (Listed(sorted, i) <==> Key(env, was[i]) == key)
  {
    var listed: seq<Member> := [];
    for k := 0 to |members|
      invariant Listing(was, members[..k], listed)
    {
      listed := listed + [Member(issues[members[k]].pos, members[k])];
    }
    assert members[..|members|] == members;
    MemberOrder();
    sorted := SortSlice(listed, MemberLeq);
    SortedIsArranged(env, was, members, key, listed, sorted);
  }

  /** What the array holds for a group: `done` members rewritten to `to`, the rest still `from`. */
  ghost predicate Rewritten(current: seq<Issue>, from: seq<Issue>, to: seq<Issue>, sorted: seq<Member>, done: nat) {
    && |current| == |from| == |to|
    && (forall u :: 0 <= u < |sorted| ==> sorted[u].index < |current|)
    && (forall u :: 0 <= u < done && u < |sorted| ==> current[sorted[u].index] == to[sorted[u].index])
    && (forall u :: done <= u < |sorted| ==> current[sorted[u].index] == from[sorted[u].index])
  }

  ghost predicate UnlistedSame(current: seq<Issue>, before: seq<Issue>, sorted: seq<Member>) {
    && |current| == |before|
    && (forall i :: 0 <= i < |current| && !Listed(sorted, i) ==> current[i] == before[i])
  }

  ghost function WithReceivers(env: Environment, was: seq<Issue>): seq<Issue> {
    seq(|was|, i requires 0 <= i < |was| => was[i].(identity := Base(env, was[i])))
  }

  lemma RewriteOne(before: seq<Issue>, from: seq<Issue>, to: seq<Issue>, sorted: seq<Member>, t: nat, start: seq<Issue>)
    requires Rewritten(before, from, to, sorted, t) && t < |sorted|
    requires UnlistedSame(before, start, sorted)
    requires forall t, u :: 0 <= t < u < |sorted| ==> sorted[t].index != sorted[u].index
    ensures var after := before[sorted[t].index := to[sorted[t].index]];
      Rewritten(after, from, to, sorted, t + 1) && UnlistedSame(after, start, sorted)
  {
    var after := before[sorted[t].index := to[sorted[t].index]];
    forall i | 0 <= i < |after| && !Listed(sorted, i) ensures after[i] == start[i] {
      assert i != sorted[t].index;
    }
  }

  /** The first loop over a group: receivers are appended. */
  method AddReceivers(env: Environment, issues: array<Issue>, sorted: seq<Member>, ghost was: seq<Issue>)
    requires |was| == issues.Length && Arranged(env, was, sorted)
    requires Rewritten(issues[..], was, WithReceivers(env, was), sorted, 0)
    modifies issues
    ensures Rewritten(issues[..], was, WithReceivers(env, was), sorted, |sorted|)
    ensures UnlistedSame(issues[..], old(issues[..]), sorted)
  {
    for t := 0 to |sorted|
      invariant Rewritten(issues[..], was, WithReceivers(env, was), sorted, t)
      invariant UnlistedSame(issues[..], old(issues[..]), sorted)
    {
      ghost var before := issues[..];
      var index := sorted[t].index;
      var receiver := Receiver(env, issues[index]);
      assert before[index].identity + "" == before[index].identity;
      if receiver != "" {
        issues[index] := issues[index].(identity := issues[index].identity + (RECEIVER + receiver));
      }
      RewriteOne(before, was, WithReceivers(env, was), sorted, t, old(issues[..]));
      assert issues[..] == before[index := WithReceivers(env, was)[index]];
    }
  }

  function OffsetsAt(positions: map<string, set<int>>, identity: string): set<int> {
    if identity in positions then positions[identity] else {}
  }

  lemma SeenGrows(env: Environment, was: seq<Issue>, sorted: seq<Member>, t: nat, base: string)
    requires Arranged(env, was, sorted) && t < |sorted|
    ensures SeenOffsets(env, was, sorted, t + 1, base)
            == SeenOffsets(env, was, sorted, t, base)
               + (if base == Base(env, was[sorted[t].index]) then {sorted[t].pos.offset} else {})
  {
  }

  ghost predicate Recorded(env: Environment, was: seq<Issue>, sorted: seq<Member>, t: nat,
                           positions: map<string, set<int>>)
  {
    Arranged(env, was, sorted) && t <= |sorted| &&
      forall base :: OffsetsAt(positions, base) == SeenOffsets(env, was, sorted, t, base)
  }

  lemma {:induction false} RecordOne(env: Environment, was: seq<Issue>, sorted: seq<Member>, t: nat,
                                     positions: map<string, set<int>>, after: map<string, set<int>>)
    requires Recorded(env, was, sorted, t, positions) && t < |sorted|
    requires var base := Base(env, was[sorted[t].index]);
      after == positions[base := OffsetsAt(positions, base) + {sorted[t].pos.offset}]
      || (after == positions && sorted[t].pos.offset in OffsetsAt(positions, base))
    ensures Recorded(env, was, sorted, t + 1, after)
  {
    forall base ensures OffsetsAt(after, base) == SeenOffsets(env, was, sorted, t + 1, base) {
      SeenGrows(env, was, sorted, t, base);
      assert OffsetsAt(positions, base) == SeenOffsets(env, was, sorted, t, base);
    }
  }

  lemma OneMoreOffset(offsets: set<int>, offset: int)
    requires offset !in offsets
    ensures |offsets + {offset}| == |offsets| + 1
  {
  }

  lemma {:induction false} SharedFinal(env: Environment, issues: seq<Issue>, i: nat, earlier: set<int>)
    requires i < |issues| && Shared(env, issues, i) && earlier == Earlier(env, issues, i)
    ensures FinalIdentity(env, issues, i)
      == if issues[i].pos.offset in earlier then Base(env, issues[i])
         else Base(env, issues[i]) + OccurrenceSuffix(|earlier + {issues[i].pos.offset}|)
  {
    if issues[i].pos.offset !in earlier { OneMoreOffset(earlier, issues[i].pos.offset); }
  }

  lemma {:induction false} NextIdentity(env: Environment, was: seq<Issue>, sorted: seq<Member>, t: nat,
                                        positions: map<string, set<int>>)
    requires Recorded(env, was, sorted, t, positions) && t < |sorted| && |sorted| > 1
    ensures var index := sorted[t].index;
      var base := Base(env, was[index]);
      var offsets := OffsetsAt(positions, base);
      FinalIdentity(env, was, index)
      == if sorted[t].pos.offset in offsets then base else base + OccurrenceSuffix(|offsets + {sorted[t].pos.offset}|)
  {
    SeenIsEarlier(env, was, sorted, t);
    SharedIffSeveral(env, was, sorted, t);
    SharedFinal(env, was, sorted[t].index, OffsetsAt(positions, Base(env, was[sorted[t].index])));
  }

  function PositionsAfter(positions: map<string, set<int>>, identity: string, offset: int): map<string, set<int>> {
    if offset in OffsetsAt(positions, identity) then positions
    else positions[identity := OffsetsAt(positions, identity) + {offset}]
  }

  function Numbered(positions: map<string, set<int>>, identity: string, offset: int): string {
    if offset in OffsetsAt(positions, identity) then identity
    else identity + OccurrenceSuffix(|OffsetsAt(positions, identity) + {offset}|)
  }

  /** One member numbered: it now holds its final identity, and its offset is recorded. */
  lemma {:induction false} NumberNext(env: Environment, was: seq<Issue>, sorted: seq<Member>, t: nat,
                                      positions: map<string, set<int>>, current: seq<Issue>, start: seq<Issue>)
    requires Recorded(env, was, sorted, t, positions) && t < |sorted| && |sorted| > 1
    requires Rewritten(current, WithReceivers(env, was), Disambiguated(env, was), sorted, t)
    requires UnlistedSame(current, start, sorted)
    ensures sorted[t].index < |current|
    ensures var x := current[sorted[t].index];
      var after := current[sorted[t].index := x.(identity := Numbered(positions, x.identity, x.pos.offset))];
      && Rewritten(after, WithReceivers(env, was), Disambiguated(env, was), sorted, t + 1)
      && UnlistedSame(after, start, sorted)
      && Recorded(env, was, sorted, t + 1, PositionsAfter(positions, x.identity, x.pos.offset))
  {
    var index := sorted[t].index;
    var base := Base(env, was[index]);
    assert current[index] == was[index].(identity := base);
    NextIdentity(env, was, sorted, t, positions);
    RecordOne(env, was, sorted, t, positions, PositionsAfter(positions, base, sorted[t].pos.offset));
    RewriteOne(current, WithReceivers(env, was), Disambiguated(env, was), sorted, t, start);
    assert Disambiguated(env, was)[index] ==
      current[index].(identity := Numbered(positions, base, sorted[t].pos.offset));
  }

  /** One pass of the second loop: a new offset of a known identity gets the next number. */
  method NumberOne(positions: map<string, set<int>>, identity: string, offset: int)
    returns (after: map<string, set<int>>, final: string)
    ensures after == PositionsAfter(positions, identity, offset)
    ensures final == Numbered(positions, identity, offset)
  {
    after, final := positions, identity;
    if offset in OffsetsAt(positions, identity) {
      return;
    }
    after := positions[identity := OffsetsAt(positions, identity) + {offset}];
    var count := |after[identity]|;
    if count > 1 {
      final := identity + (OCCURRENCE + Text.Decimal(count));
    }
    assert identity + "" == identity;
  }

  /** The second loop over a group: later offsets of one identity are numbered. */
  method NumberOccurrences(env: Environment, issues: array<Issue>, sorted: seq<Member>, ghost was: seq<Issue>)
    requires |was| == issues.Length && Arranged(env, was, sorted) && |sorted| > 1
    requires Rewritten(issues[..], WithReceivers(env, was), Disambiguated(env, was), sorted, 0)
    modifies issues
    ensures Rewritten(issues[..], WithReceivers(env, was), Disambiguated(env, was), sorted, |sorted|)
    ensures UnlistedSame(issues[..], old(issues[..]), sorted)
  {
    var positions: map<string, set<int>> := map[];
    ghost var from, to := WithReceivers(env, was), Disambiguated(env, was);
    for t := 0 to |sorted|
      invariant Rewritten(issues[..], from, to, sorted, t)
      invariant UnlistedSame(issues[..], old(issues[..]), sorted)
      invariant Recorded(env, was, sorted, t, positions)
    {
      ghost var current := issues[..];
      NumberNext(env, was, sorted, t, positions, current, old(issues[..]));
      var index := sorted[t].index;
      assert issues[index] == current[index];
      var final;
      positions, final := NumberOne(positions, issues[index].identity, issues[index].pos.offset);
      issues[index] := issues[index].(identity := final);
      assert issues[..] == current[index := current[index].(identity := final)];
    }
  }

  /** One group of findings with a common key; the other groups keep what they hold. */
  method QualifyGroup(env: Environment, issues: array<Issue>, members: seq<nat>, ghost was: seq<Issue>,
                      ghost key: string)
    requires |was| == issues.Length && IndexedBy(env, was, members, key, |was|) && |members| >= 2
    requires forall i :: 0 <= i < issues.Length && Key(env, was[i]) == key ==> issues[i] == was[i]
    modifies issues
    ensures forall i :: 0 <= i < issues.Length ==>
      issues[i] == if Key(env, was[i]) == key then Disambiguated(env, was)[i] else old(issues[i])
  {
    var sorted := SortMembers(env, issues, members, was, key);
    forall u | 0 <= u < |sorted| ensures issues[sorted[u].index] == was[sorted[u].index] {
      assert Listed(sorted, sorted[u].index);
    }
    AddReceivers(env, issues, sorted, was);
    ghost var middle := issues[..];
    NumberOccurrences(env, issues, sorted, was);
    forall i | 0 <= i < issues.Length
      ensures issues[i] == if Key(env, was[i]) == key then Disambiguated(env, was)[i] else old(issues[i])
    {
      assert middle[i] == middle[..][i] && issues[i] == issues[..][i];
    }
  }

  ghost predicate KeysListed(groups: map<string, seq<nat>>, keys: seq<string>) {
    && (forall key :: key in keys <==> key in groups)
    && (forall j, k :: 0 <= j < k < |keys| ==> keys[j] != keys[k])
    && (forall key :: key in groups ==> groups[key] != [])
  }

  /** Grouping so far: each key once, in order of first appearance, with its findings. */
  ghost predicate Grouped(env: Environment, was: seq<Issue>, groups: map<string, seq<nat>>, keys: seq<string>, n: nat) {
    n <= |was| && KeysListed(groups, keys) && AllIndexed(env, was, groups, n) && AllKeyed(env, was, groups, n)
  }

  ghost predicate AllIndexed(env: Environment, was: seq<Issue>, groups: map<string, seq<nat>>, n: nat) {
    forall key :: key in groups ==> IndexedBy(env, was, groups[key], key, n)
  }

  ghost predicate AllKeyed(env: Environment, was: seq<Issue>, groups: map<string, seq<nat>>, n: nat) {
    n <= |was| && forall i :: 0 <= i < n ==> Key(env, was[i]) in groups
  }

  function MembersOf(groups: map<string, seq<nat>>, key: string): seq<nat> { if key in groups then groups[key] else [] }

  lemma {:induction false} ExtendIndexed(env: Environment, was: seq<Issue>, members: seq<nat>, key: string, index: nat)
    requires index < |was|
    requires IndexedBy(env, was, members, key, index)
    ensures IndexedBy(env, was, if Key(env, was[index]) == key then members + [index] else members, key, index + 1)
  {
    var extended := members + [index];
    forall i | 0 <= i < index + 1 && Key(env, was[i]) == key ensures i in extended {
      assert i == index ==> extended[|members|] == i;
    }
  }

  function GroupsWith(groups: map<string, seq<nat>>, key: string, index: nat): map<string, seq<nat>> {
    groups[key := MembersOf(groups, key) + [index]]
  }

  function KeysWith(groups: map<string, seq<nat>>, keys: seq<string>, key: string): seq<string> {
    if |MembersOf(groups, key)| == 0 then keys + [key] else keys
  }

  lemma ExtendKeys(groups: map<string, seq<nat>>, keys: seq<string>, key: string, index: nat)
    requires KeysListed(groups, keys)
    ensures KeysListed(GroupsWith(groups, key, index), KeysWith(groups, keys, key))
  {
  }

  /** Each group gets the next finding if it has its key. */
  lemma {:induction false} ExtendEach(env: Environment, was: seq<Issue>, groups: map<string, seq<nat>>, n: nat,
                                      other: string)
    requires n < |was| && other in GroupsWith(groups, Key(env, was[n]), n)
    requires IndexedBy(env, was, MembersOf(groups, other), other, n)
    ensures IndexedBy(env, was, GroupsWith(groups, Key(env, was[n]), n)[other], other, n + 1)
  {
    ExtendIndexed(env, was, MembersOf(groups, other), other, n);
  }

  lemma NoneIndexed(env: Environment, was: seq<Issue>, groups: map<string, seq<nat>>, n: nat, key: string)
    requires n <= |was| && key !in groups && forall i :: 0 <= i < n ==> Key(env, was[i]) in groups
    ensures IndexedBy(env, was, MembersOf(groups, key), key, n)
  {
  }

  lemma {:induction false} ExtendAll(env: Environment, was: seq<Issue>, groups: map<string, seq<nat>>, n: nat)
    requires n < |was| && AllIndexed(env, was, groups, n) && AllKeyed(env, was, groups, n)
    ensures AllIndexed(env, was, GroupsWith(groups, Key(env, was[n]), n), n + 1)
  {
    var after := GroupsWith(groups, Key(env, was[n]), n);
    forall other | other in after ensures IndexedBy(env, was, after[other], other, n + 1) {
      if other !in groups { NoneIndexed(env, was, groups, n, other); }
      ExtendEach(env, was, groups, n, other);
    }
  }

  lemma ExtendKeyed(env: Environment, was: seq<Issue>, groups: map<string, seq<nat>>, n: nat)
    requires n < |was| && AllKeyed(env, was, groups, n)
    ensures AllKeyed(env, was, GroupsWith(groups, Key(env, was[n]), n), n + 1)
  {
  }

  lemma {:induction false} ExtendGrouped(env: Environment, was: seq<Issue>, groups: map<string, seq<nat>>,
                                         keys: seq<string>, n: nat)
    requires Grouped(env, was, groups, keys, n) && n < |was|
    ensures var key := Key(env, was[n]);
      Grouped(env, was, GroupsWith(groups, key, n), KeysWith(groups, keys, key), n + 1)
  {
    ExtendKeys(groups, keys, Key(env, was[n]), n);
    ExtendAll(env, was, groups, n);
    ExtendKeyed(env, was, groups, n);
  }

  method GroupByKey(env: Environment, issues: array<Issue>) returns (groups: map<string, seq<nat>>, keys: seq<string>)
    ensures Grouped(env, issues[..], groups, keys, issues.Length)
  {
    groups, keys := map[], [];
    ghost var was := issues[..];
    for index := 0 to issues.Length
      invariant Grouped(env, was, groups, keys, index)
    {
      assert issues[index] == was[index];
      ExtendGrouped(env, was, groups, keys, index);
      var key := Key(env, issues[index]);
      keys := KeysWith(groups, keys, key);
      groups := GroupsWith(groups, key, index);
    }
  }

  /** The findings with the keys handled so far have their final identity, the others are as they were. */
  ghost predicate KeysHandled(env: Environment, was: seq<Issue>, current: seq<Issue>, keys: seq<string>) {
    && |current| == |was|
    && (forall i :: 0 <= i < |was| ==>
          current[i] == if Key(env, was[i]) in keys then Disambiguated(env, was)[i] else was[i])
  }

  lemma SingleStays(env: Environment, was: seq<Issue>, members: seq<nat>, key: string, i: nat)
    requires IndexedBy(env, was, members, key, |was|) && |members| < 2
    requires i < |was| && Key(env, was[i]) == key
    ensures Disambiguated(env, was)[i] == was[i]
  {
    assert !Shared(env, was, i);
  }

  lemma HandleNext(env: Environment, was: seq<Issue>, before: seq<Issue>, after: seq<Issue>, keys: seq<string>, t: nat)
    requires t < |keys| && KeysHandled(env, was, before, keys[..t]) && |after| == |was|
    requires forall i :: 0 <= i < |was| ==>
      after[i] == if Key(env, was[i]) == keys[t] then Disambiguated(env, was)[i] else before[i]
    ensures KeysHandled(env, was, after, keys[..t + 1])
  {
    assert keys[..t + 1] == keys[..t] + [keys[t]];
  }

  method DisambiguateIdentities(env: Environment, issues: array<Issue>)
    modifies issues
    ensures issues[..] == Disambiguated(env, old(issues[..]))
  {
    ghost var was := issues[..];
    var groups, keys := GroupByKey(env, issues);
    for t := 0 to |keys|
      invariant KeysHandled(env, was, issues[..], keys[..t])
    {
      var members := groups[keys[t]];
      ghost var before := issues[..];
      if |members| < 2 {
        forall i | 0 <= i < |was| && Key(env, was[i]) == keys[t] ensures Disambiguated(env, was)[i] == was[i] {
          SingleStays(env, was, members, keys[t], i);
        }
        HandleNext(env, was, before, before, keys, t);
        continue;
      }
      assert keys[t] !in keys[..t];
      QualifyGroup(env, issues, members, was, keys[t]);
      HandleNext(env, was, before, issues[..], keys, t);
    }
    assert keys[..|keys|] == keys;
    assert issues[..] == Disambiguated(env, was);
  }

  // ---------- The final check ----------

  datatype Verdict = Accepted | EmptyIdentity(at: nat) | Collision(previous: nat, at: nat)

  /** Subject and identity are derived together when either is missing. */
  function Completed(env: Environment, x: Issue, packagePath: string): Issue {
    if x.subject == "" || x.identity == ""
    then x.(subject := SubjectOf(x.evidence, packagePath), identity := IdentityOf(env, x.evidence))
    else x
  }

  function CompletedAll(env: Environment, issues: seq<Issue>, packagePath: string): seq<Issue> {
    seq(|issues|, i requires 0 <= i < |issues| => Completed(env, issues[i], packagePath))
  }

  ghost predicate AllIdentified(issues: seq<Issue>) {
    forall i :: 0 <= i < |issues| ==> issues[i].subject != "" && issues[i].identity != ""
  }

  /** The first `n` keys are different, and `seen` maps each to its finding. */
  ghost predicate SeenKeys(env: Environment, all: seq<Issue>, seen: map<string, nat>, n: nat) {
    && n <= |all|
    && (forall key :: key in seen ==> seen[key] < n && Key(env, all[seen[key]]) == key)
    && (forall i :: 0 <= i < n ==> Key(env, all[i]) in seen && seen[Key(env, all[i])] == i)
  }

  lemma SeenKeysDistinct(env: Environment, all: seq<Issue>, seen: map<string, nat>)
    requires SeenKeys(env, all, seen, |all|)
    ensures KeysDistinct(env, all)
  {
  }

  lemma SeeKey(env: Environment, all: seq<Issue>, seen: map<string, nat>, n: nat)
    requires SeenKeys(env, all, seen, n) && n < |all| && Key(env, all[n]) !in seen
    ensures SeenKeys(env, all, seen[Key(env, all[n]) := n], n + 1)
  {
  }

  /** The first `n` findings would be accepted on their own. */
  ghost predicate AcceptedUpTo(env: Environment, all: seq<Issue>, n: nat) {
    n <= |all| && AllIdentified(all[..n]) && KeysDistinct(env, all[..n])
  }

  /** Accepted reports are identified and have different keys. A rejection names the first finding that
      spoils this: one that is not identified, or one with the key of an earlier finding. */
  ghost predicate Justified(env: Environment, all: seq<Issue>, verdict: Verdict) {
    match verdict
    case Accepted => AllIdentified(all) && KeysDistinct(env, all)
    case EmptyIdentity(at) =>
      at < |all| && AcceptedUpTo(env, all, at) && (all[at].subject == "" || all[at].identity == "")
    case Collision(previous, at) =>
      previous < at < |all| && AcceptedUpTo(env, all, at) && all[at].subject != "" && all[at].identity != ""
      && Key(env, all[previous]) == Key(env, all[at])
  }

  lemma AcceptedIff(env: Environment, all: seq<Issue>, verdict: Verdict)
    requires Justified(env, all, verdict)
    ensures verdict.Accepted? <==> AllIdentified(all) && KeysDistinct(env, all)
  {
  }

  /** The loop of the final check stands before finding `n`: the earlier ones are identified, and their
      keys are different and recorded. */
  ghost predicate Standing(env: Environment, all: seq<Issue>, seen: map<string, nat>, n: nat) {
    && SeenKeys(env, all, seen, n)
    && forall i :: 0 <= i < n ==> all[i].subject != "" && all[i].identity != ""
  }

  lemma SeenIsAccepted(env: Environment, all: seq<Issue>, seen: map<string, nat>, n: nat)
    requires Standing(env, all, seen, n)
    ensures AcceptedUpTo(env, all, n)
  {
  }

  method CompleteOne(env: Environment, x: Issue, packagePath: string) returns (y: Issue)
    ensures y == Completed(env, x, packagePath)
  {
    y := x;
    if x.subject == "" || x.identity == "" {
      var subject, identity := DeriveIssueIdentity(env, x, packagePath);
      y := x.(subject := subject, identity := identity);
    }
  }

  /** Findings up to and including the rejected one are completed, the rest are as they were. */
  ghost predicate CompletedUpTo(current: seq<Issue>, was: seq<Issue>, all: seq<Issue>, n: nat) {
    && |current| == |was| == |all| && n <= |all|
    && (forall i :: 0 <= i < n ==> current[i] == all[i])
    && (forall i :: n <= i < |was| ==> current[i] == was[i])
  }

  function Handled(verdict: Verdict, n: nat): nat {
    match verdict
    case Accepted => n
    case EmptyIdentity(at) => at + 1
    case Collision(_, at) => at + 1
  }

  lemma RejectEmpty(env: Environment, all: seq<Issue>, seen: map<string, nat>, n: nat)
    requires Standing(env, all, seen, n) && n < |all| && (all[n].subject == "" || all[n].identity == "")
    ensures Justified(env, all, EmptyIdentity(n))
  {
    SeenIsAccepted(env, all, seen, n);
  }

  lemma RejectCollision(env: Environment, all: seq<Issue>, seen: map<string, nat>, n: nat)
    requires Standing(env, all, seen, n) && n < |all| && all[n].subject != "" && all[n].identity != ""
    requires Key(env, all[n]) in seen
    ensures Justified(env, all, Collision(seen[Key(env, all[n])], n))
  {
    SeenIsAccepted(env, all, seen, n);
  }

  lemma StandNext(env: Environment, all: seq<Issue>, seen: map<string, nat>, n: nat)
    requires Standing(env, all, seen, n) && n < |all| && all[n].subject != "" && all[n].identity != ""
    requires Key(env, all[n]) !in seen
    ensures Standing(env, all, seen[Key(env, all[n]) := n], n + 1)
  {
    SeeKey(env, all, seen, n);
  }

  lemma StandAccepted(env: Environment, all: seq<Issue>, seen: map<string, nat>)
    requires Standing(env, all, seen, |all|)
    ensures Justified(env, all, Accepted)
  {
    SeenKeysDistinct(env, all, seen);
  }

  /** Rejects finding `n`, or records its key. */
  method Judge(env: Environment, ghost all: seq<Issue>, x: Issue, seen: map<string, nat>, n: nat)
    returns (verdict: Verdict, recorded: map<string, nat>)
    requires Standing(env, all, seen, n) && n < |all| && x == all[n]
    ensures verdict.Accepted? ==> Standing(env, all, recorded, n + 1)
    ensures !verdict.Accepted? ==> Justified(env, all, verdict) && Handled(verdict, |all|) == n + 1
  {
    if x.subject == "" || x.identity == "" {
      RejectEmpty(env, all, seen, n);
      return EmptyIdentity(n), seen;
    }
    var key := Key(env, x);
    if key in seen {
      RejectCollision(env, all, seen, n);
      return Collision(seen[key], n), seen;
    }
    StandNext(env, all, seen, n);
    return Accepted, seen[key := n];
  }

  method CompleteAt(env: Environment, issues: array<Issue>, index: nat, packagePath: string, ghost was: seq<Issue>)
    returns (completed: Issue)
    requires index < issues.Length && CompletedUpTo(issues[..], was, CompletedAll(env, was, packagePath), index)
    modifies issues
    ensures CompletedUpTo(issues[..], was, CompletedAll(env, was, packagePath), index + 1)
    ensures completed == CompletedAll(env, was, packagePath)[index]
  {
    assert issues[index] == issues[..][index] == was[index];
    completed := CompleteOne(env, issues[index], packagePath);
    ghost var current := issues[..];
    issues[index] := completed;
    assert issues[..] == current[index := completed];
  }

  method FinalizeEach(env: Environment, issues: array<Issue>, packagePath: string) returns (verdict: Verdict)
    modifies issues
    ensures Justified(env, CompletedAll(env, old(issues[..]), packagePath), verdict)
    ensures CompletedUpTo(issues[..], old(issues[..]), CompletedAll(env, old(issues[..]), packagePath),
      Handled(verdict, issues.Length))
  {
    ghost var was := issues[..];
    ghost var all := CompletedAll(env, was, packagePath);
    var seen: map<string, nat> := map[];
    for index := 0 to issues.Length
      invariant CompletedUpTo(issues[..], was, all, index)
      invariant Standing(env, all, seen, index)
    {
      var completed := CompleteAt(env, issues, index, packagePath, was);
      verdict, seen := Judge(env, all, completed, seen, index);
      if !verdict.Accepted? { return; }
    }
    StandAccepted(env, all, seen);
    return Accepted;
  }

  /** Completes in place; accepts exactly the reports whose findings are all identified by different keys. */
  method FinalizeIssues(env: Environment, issues: array<Issue>, packagePath: string) returns (verdict: Verdict)
    modifies issues
    ensures var all := CompletedAll(env, old(issues[..]), packagePath);
      && Justified(env, all, verdict)
      && (verdict.Accepted? <==> AllIdentified(all) && KeysDistinct(env, all))
      && (verdict.Accepted? ==> issues[..] == all)
      && CompletedUpTo(issues[..], old(issues[..]), all, Handled(verdict, issues.Length))
  {
    ghost var all := CompletedAll(env, issues[..], packagePath);
    verdict := FinalizeEach(env, issues, packagePath);
    AcceptedIff(env, all, verdict);
  }

  lemma {:induction false} DerivedNulFree(env: Environment, evidence: string, packagePath: string)
    requires '\0' !in evidence && '\0' !in packagePath
    ensures '\0' !in SubjectOf(evidence, packagePath)
    ensures SubjectOf(evidence, packagePath) != ""
  {
    var (prefix, parts) := EvidenceParts(evidence);
    PartsNulFree(evidence);
    forall key | key in FieldsOf(parts) ensures '\0' !in FieldsOf(parts)[key] { FieldNulFree(parts, key); }
    FirstFieldNulFree(FieldsOf(parts), SUBJECT_KEYS);
    var first := FirstField(FieldsOf(parts), SUBJECT_KEYS);
    QualifyNulFree(if packagePath == "" then "package" else packagePath, if first == "" then prefix else first);
  }

  lemma QualifyNulFree(package: string, subjectKey: string)
    requires '\0' !in package && '\0' !in subjectKey
    ensures '\0' !in Qualify(package, subjectKey) && Qualify(package, subjectKey) != ""
  {
  }

  lemma {:induction false} SplitMembers(s: string, sep: char, c: char)
    requires c !in s
    ensures forall part :: part in Text.Split(s, sep) ==> c !in part
    decreases |s|
  {
    var i := Text.IndexOf(s, sep);
    if i >= |s| {
    } else {
      SplitMembers(s[i + 1..], sep, c);
    }
  }

  lemma PartsNulFree(evidence: string)
    requires '\0' !in evidence
    ensures '\0' !in EvidenceParts(evidence).0
    ensures forall part :: part in EvidenceParts(evidence).1 ==> '\0' !in part
  {
    SplitMembers(evidence, ';', '\0');
    var parts := Text.Split(evidence, ';');
    assert parts[0] in parts;
  }

  lemma {:induction false} FieldNulFree(parts: seq<string>, key: string)
    requires forall part :: part in parts ==> '\0' !in part
    requires key in FieldsOf(parts)
    ensures '\0' !in FieldsOf(parts)[key]
  {
    var last := parts[|parts| - 1];
    var before := FieldsOf(parts[..|parts| - 1]);
    assert last in parts;
    if key !in before {
    } else {
      FieldNulFree(parts[..|parts| - 1], key);
    }
  }

  lemma {:induction false} FirstFieldNulFree(fields: map<string, string>, keys: seq<string>)
    requires forall key :: key in fields ==> '\0' !in fields[key]
    ensures '\0' !in FirstField(fields, keys)
  {
    if keys == [] {
    } else {
      FirstFieldNulFree(fields, keys[1..]);
    }
  }

  lemma DerivedIdentityStartsWithPrefix(env: Environment, evidence: string)
    requires EvidenceParts(evidence).0 != ""
    ensures IdentityOf(env, evidence) != ""
  {
    var (prefix, parts) := EvidenceParts(evidence);
    PrefixAtStart(env, prefix, FieldsOf(parts), IDENTITY_KEYS);
  }

  /** A finding as checks report it: no subject or identity yet, a named check, text without NUL. */
  ghost predicate Reported(env: Environment, x: Issue) {
    && (x.subject == "" || x.identity == "")
    && '\0' !in x.ID() && '\0' !in env.portable(x.root, x.pos.filename) && '\0' !in x.evidence
    && EvidenceParts(x.evidence).0 != ""
  }

  lemma ReportedDerives(env: Environment, x: Issue, packagePath: string)
    requires Reported(env, x) && '\0' !in packagePath
    ensures var y := Completed(env, x, packagePath);
      WellFormed(env, y) && y.subject != "" && y.identity != ""
  {
    DerivedNulFree(env, x.evidence, packagePath);
    DerivedUnqualified(env, x.evidence);
    DerivedIdentityStartsWithPrefix(env, x.evidence);
  }

  ghost function Derived(env: Environment, raw: seq<Issue>, packageOf: Issue -> string): seq<Issue> {
    seq(|raw|, i requires 0 <= i < |raw| => Completed(env, raw[i], packageOf(raw[i])))
  }

  /** From raw reports to the verdict: the final check accepts a report exactly when no two of its
      findings agree on check, path, subject, derived identity, receiver and offset, and it then
      changes nothing any more. */
  lemma {:induction false} VerdictOnReports(env: Environment, raw: seq<Issue>, packageOf: Issue -> string,
                                            workspace: string)
    requires env.Valid()
    requires forall i :: 0 <= i < |raw| ==> Reported(env, raw[i]) && '\0' !in packageOf(raw[i])
    ensures var final := Disambiguated(env, Derived(env, raw, packageOf));
      && CompletedAll(env, final, workspace) == final
      && (forall verdict :: Justified(env, final, verdict) ==>
            (verdict.Accepted? <==> NoTwins(env, Derived(env, raw, packageOf))))
  {
    var derived := Derived(env, raw, packageOf);
    forall i | 0 <= i < |raw|
      ensures WellFormed(env, derived[i]) && derived[i].subject != "" && derived[i].identity != ""
    {
      ReportedDerives(env, raw[i], packageOf(raw[i]));
    }
    FinalIdentified(env, derived, workspace);
    DistinctIffNoTwins(env, derived);
    forall verdict | Justified(env, Disambiguated(env, derived), verdict)
      ensures verdict.Accepted? <==> NoTwins(env, derived)
    {
      AcceptedIff(env, Disambiguated(env, derived), verdict);
    }
  }

  lemma FinalIdentified(env: Environment, derived: seq<Issue>, workspace: string)
    requires AllIdentified(derived)
    ensures AllIdentified(Disambiguated(env, derived))
    ensures CompletedAll(env, Disambiguated(env, derived), workspace) == Disambiguated(env, derived)
  {
    var final := Disambiguated(env, derived);
    forall i | 0 <= i < |derived| ensures final[i].subject != "" && final[i].identity != "" {
      FinalIdentityShape(env, derived, i);
    }
  }
}
