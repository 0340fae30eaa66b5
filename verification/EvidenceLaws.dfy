/** What subject and identity say of the evidence they are derived from, on the text that checks write:
    a prefix, a colon, and key=value fields separated by semicolons. */
module EvidenceLaws {
  import opened Identity
  import Text

  function Part(pair: (string, string)): string { pair.0 + "=" + pair.1 }

  function Parts(pairs: seq<(string, string)>): seq<string> {
    seq(|pairs|, i requires 0 <= i < |pairs| => Part(pairs[i]))
  }

  /** `prefix:key=value;...;key=value`. */
  function Written(prefix: string, pairs: seq<(string, string)>): string {
    prefix + ":" + Text.Join(Parts(pairs), ';')
  }

  predicate PlainPrefix(prefix: string) { ';' !in prefix && ':' !in prefix && Text.TrimSpace(prefix) == prefix }

  predicate PlainPair(pair: (string, string)) {
    && ';' !in pair.0 && '=' !in pair.0 && Text.TrimSpace(pair.0) == pair.0
    && ';' !in pair.1 && Text.TrimSpace(pair.1) == pair.1
  }

  ghost predicate Plain(prefix: string, pairs: seq<(string, string)>) {
    PlainPrefix(prefix) && forall pair :: pair in pairs ==> PlainPair(pair)
  }

  /** The value of the last field with the key, or blank if there is none. */
  ghost predicate Says(pairs: seq<(string, string)>, key: string, value: string) {
    if forall i :: 0 <= i < |pairs| ==> pairs[i].0 != key then value == ""
    else exists i :: 0 <= i < |pairs| && pairs[i] == (key, value) && forall j :: i < j < |pairs| ==> pairs[j].0 != key
  }

  // ---------- Reading the fields ----------

  lemma Untrimmed(s: string)
    requires s != "" ==> !Text.IsSpace(s[0]) && !Text.IsSpace(s[|s| - 1])
    ensures Text.TrimSpace(s) == s
  {
  }

  lemma TrimmedEnds(s: string)
    requires Text.TrimSpace(s) == s && s != ""
    ensures !Text.IsSpace(s[0]) && !Text.IsSpace(s[|s| - 1])
  {
    Text.TrimStretch(s, Text.IsSpace);
  }

  lemma PartEnd(pair: (string, string))
    requires PlainPair(pair)
    ensures !Text.IsSpace(Part(pair)[|Part(pair)| - 1]) && ';' !in Part(pair)
  {
    if pair.1 != "" {
      TrimmedEnds(pair.1);
      assert Part(pair)[|Part(pair)| - 1] == pair.1[|pair.1| - 1];
    }
  }

  lemma FirstPartEnds(prefix: string, part: string)
    requires PlainPrefix(prefix) && (part != "" ==> !Text.IsSpace(part[|part| - 1]))
    ensures !Text.IsSpace((prefix + ":" + part)[0]) && !Text.IsSpace((prefix + ":" + part)[|prefix + ":" + part| - 1])
  {
    var s := prefix + ":" + part;
    if prefix != "" {
      TrimmedEnds(prefix);
      assert s[0] == prefix[0];
    } else {
      assert s[0] == ':';
    }
    assert s[|s| - 1] == if part == "" then ':' else part[|part| - 1];
  }

  lemma FirstPartCut(prefix: string, part: string)
    requires ':' !in prefix
    ensures Text.IndexOf(prefix + ":" + part, ':') == |prefix|
    ensures (prefix + ":" + part)[..|prefix|] == prefix && (prefix + ":" + part)[|prefix| + 1..] == part
  {
    assert prefix + ":" + part == prefix + (":" + part);
    Text.IndexOfConcat(prefix, ":" + part, ':');
  }

  lemma FirstPart(prefix: string, part: string)
    requires PlainPrefix(prefix) && (part != "" ==> !Text.IsSpace(part[|part| - 1]))
    ensures Text.TrimSpace(prefix + ":" + part) == prefix + ":" + part
    ensures Text.IndexOf(prefix + ":" + part, ':') == |prefix|
    ensures (prefix + ":" + part)[..|prefix|] == prefix && (prefix + ":" + part)[|prefix| + 1..] == part
  {
    FirstPartEnds(prefix, part);
    FirstPartCut(prefix, part);
    Untrimmed(prefix + ":" + part);
  }

  /** Splitting the evidence gives the prefix with the first part, and the other parts. */
  lemma WrittenSplit(prefix: string, parts: seq<string>)
    requires ';' !in prefix && parts != [] && forall k :: 0 <= k < |parts| ==> ';' !in parts[k]
    ensures Text.Split(prefix + ":" + Text.Join(parts, ';'), ';') == [prefix + ":" + parts[0]] + parts[1..]
  {
    var first := prefix + ":" + parts[0];
    if |parts| == 1 {
      Text.SplitWhole(first, ';');
      assert parts[1..] == [];
    } else {
      var rest := Text.Join(parts[1..], ';');
      assert prefix + ":" + Text.Join(parts, ';') == first + [';'] + rest;
      Text.SplitCons(first, rest, ';');
      Text.SplitJoin(parts[1..], ';');
    }
  }

  lemma WrittenRead(prefix: string, parts: seq<string>)
    requires PlainPrefix(prefix) && parts != [] && forall k :: 0 <= k < |parts| ==> ';' !in parts[k]
    requires parts[0] != "" ==> !Text.IsSpace(parts[0][|parts[0]| - 1])
    ensures EvidenceParts(prefix + ":" + Text.Join(parts, ';')) == (prefix, parts)
  {
    WrittenSplit(prefix, parts);
    FirstPart(prefix, parts[0]);
    assert [parts[0]] + parts[1..] == parts;
  }

  lemma PartsPlain(pairs: seq<(string, string)>)
    requires forall pair :: pair in pairs ==> PlainPair(pair)
    ensures forall k :: 0 <= k < |pairs| ==> ';' !in Parts(pairs)[k]
    ensures pairs != [] ==> !Text.IsSpace(Parts(pairs)[0][|Parts(pairs)[0]| - 1])
  {
    forall k | 0 <= k < |pairs|
      ensures ';' !in Parts(pairs)[k] && !Text.IsSpace(Parts(pairs)[k][|Parts(pairs)[k]| - 1])
    {
      assert pairs[k] in pairs;
      PartEnd(pairs[k]);
    }
  }

  /** What the parser sees: the prefix, and the fields as they were written. */
  lemma {:induction false} PartsRead(prefix: string, pairs: seq<(string, string)>)
    requires Plain(prefix, pairs)
    ensures EvidenceParts(Written(prefix, pairs)) == (prefix, if pairs == [] then [""] else Parts(pairs))
  {
    if pairs == [] {
      assert Text.Join([""], ';') == Text.Join(Parts(pairs), ';') == "";
      WrittenRead(prefix, [""]);
    } else {
      PartsPlain(pairs);
      WrittenRead(prefix, Parts(pairs));
    }
  }

  lemma PairRead(fields: map<string, string>, pair: (string, string))
    requires PlainPair(pair)
    ensures WithField(fields, Part(pair)) == fields[pair.0 := pair.1]
  {
    var part := Part(pair);
    assert part == pair.0 + ("=" + pair.1);
    Text.IndexOfConcat(pair.0, "=" + pair.1, '=');
    assert part[..|pair.0|] == pair.0 && part[|pair.0| + 1..] == pair.1;
  }

  /** White space around keys and values does not matter. */
  lemma PaddedRead(fields: map<string, string>, pair: (string, string), key: string, value: string)
    requires PlainPair(pair) && '=' !in key
    requires exists before, after :: Padded(key, before, pair.0, after)
    requires exists before, after :: Padded(value, before, pair.1, after)
    ensures WithField(fields, key + ("=" + value)) == fields[pair.0 := pair.1]
  {
    var part := key + ("=" + value);
    var a, b :| Padded(key, a, pair.0, b);
    var c, d :| Padded(value, c, pair.1, d);
    Text.IndexOfConcat(key, "=" + value, '=');
    assert part[..|key|] == key && part[|key| + 1..] == value;
    Text.TrimPadded(a, pair.0, b);
    Text.TrimPadded(c, pair.1, d);
  }

  predicate Padded(text: string, before: string, core: string, after: string) {
    text == before + core + after && Text.Blank(before) && Text.Blank(after)
  }

  /** A part without an equals sign is no field. */
  lemma NoField(fields: map<string, string>, part: string)
    requires '=' !in part
    ensures WithField(fields, part) == fields
  {
  }

  /** Evidence without a colon in its first part is its own prefix, and that part may be a field too. */
  lemma NoColon(parts: seq<string>, prefix: string, before: string, after: string)
    requires parts != [] && (forall k :: 0 <= k < |parts| ==> ';' !in parts[k])
    requires ':' !in parts[0] && Padded(parts[0], before, prefix, after) && Text.TrimSpace(prefix) == prefix
    ensures EvidenceParts(Text.Join(parts, ';')) == (prefix, parts)
  {
    Text.SplitJoin(parts, ';');
    Text.TrimPadded(before, prefix, after);
  }

  lemma NextRead(pairs: seq<(string, string)>)
    requires pairs != [] && forall pair :: pair in pairs ==> PlainPair(pair)
    ensures var init, last := pairs[..|pairs| - 1], pairs[|pairs| - 1];
      FieldsOf(Parts(pairs)) == FieldsOf(Parts(init))[last.0 := last.1]
  {
    var init, last := pairs[..|pairs| - 1], pairs[|pairs| - 1];
    assert Parts(pairs)[..|pairs| - 1] == Parts(init) && last in pairs;
    PairRead(FieldsOf(Parts(init)), last);
  }

  lemma {:induction false} LastRead(pairs: seq<(string, string)>, i: nat)
    requires (forall pair :: pair in pairs ==> PlainPair(pair)) && i < |pairs|
    requires forall j :: i < j < |pairs| ==> pairs[j].0 != pairs[i].0
    ensures pairs[i].0 in FieldsOf(Parts(pairs)) && FieldsOf(Parts(pairs))[pairs[i].0] == pairs[i].1
  {
    var init, last := pairs[..|pairs| - 1], pairs[|pairs| - 1];
    NextRead(pairs);
    if i == |pairs| - 1 {
    } else {
      assert forall j :: 0 <= j < |init| ==> init[j] == pairs[j];
      LastRead(init, i);
    }
  }

  lemma {:induction false} SilentRead(pairs: seq<(string, string)>, key: string)
    requires (forall pair :: pair in pairs ==> PlainPair(pair)) && forall i :: 0 <= i < |pairs| ==> pairs[i].0 != key
    ensures key !in FieldsOf(Parts(pairs))
  {
    if pairs == [] {
    } else {
      NextRead(pairs);
      SilentRead(pairs[..|pairs| - 1], key);
    }
  }

  function ReadFields(prefix: string, pairs: seq<(string, string)>): map<string, string> {
    FieldsOf(EvidenceParts(Written(prefix, pairs)).1)
  }

  /** A key reads as the value of the last field that has it. */
  lemma {:induction false} FieldRead(prefix: string, pairs: seq<(string, string)>, key: string, value: string)
    requires Plain(prefix, pairs) && Says(pairs, key, value)
    ensures Field(ReadFields(prefix, pairs), key) == value
  {
    PartsRead(prefix, pairs);
    if pairs == [] {
      assert [""][..0] == [];
      assert FieldsOf([""]) == map[];
    } else if forall i :: 0 <= i < |pairs| ==> pairs[i].0 != key {
      SilentRead(pairs, key);
    } else {
      var i :| 0 <= i < |pairs| && pairs[i] == (key, value) && forall j :: i < j < |pairs| ==> pairs[j].0 != key;
      LastRead(pairs, i);
    }
  }

  // ---------- Subjects ----------

  lemma {:induction false} FirstListed(fields: map<string, string>, keys: seq<string>, n: nat)
    requires n < |keys| && Field(fields, keys[n]) != "" && forall k :: 0 <= k < n ==> Field(fields, keys[k]) == ""
    ensures FirstField(fields, keys) == Field(fields, keys[n])
  {
    if n == 0 {
    } else {
      FirstListed(fields, keys[1..], n - 1);
    }
  }

  lemma {:induction false} NoneListed(fields: map<string, string>, keys: seq<string>)
    requires forall k :: 0 <= k < |keys| ==> Field(fields, keys[k]) == ""
    ensures FirstField(fields, keys) == ""
  {
    if keys == [] {
    } else {
      NoneListed(fields, keys[1..]);
    }
  }

  /** The subject is the value of the first listed field that has one, after the package's path. */
  lemma {:induction false} SubjectRead(prefix: string, pairs: seq<(string, string)>, packagePath: string, n: nat,
                                       value: string)
    requires Plain(prefix, pairs) && packagePath != ""
    requires n < |SUBJECT_KEYS| && Says(pairs, SUBJECT_KEYS[n], value) && value != ""
    requires forall k :: 0 <= k < n ==> Says(pairs, SUBJECT_KEYS[k], "")
    ensures SubjectOf(Written(prefix, pairs), packagePath) ==
      if Text.HasPrefix(value, packagePath + ".") then value else packagePath + "." + value
  {
    FieldRead(prefix, pairs, SUBJECT_KEYS[n], value);
    forall k | 0 <= k < n ensures Field(ReadFields(prefix, pairs), SUBJECT_KEYS[k]) == "" {
      FieldRead(prefix, pairs, SUBJECT_KEYS[k], "");
    }
    FirstListed(ReadFields(prefix, pairs), SUBJECT_KEYS, n);
  }

  /** Without such a field the prefix takes its place. */
  lemma {:induction false} SubjectFromPrefix(prefix: string, pairs: seq<(string, string)>, packagePath: string)
    requires Plain(prefix, pairs) && packagePath != ""
    requires forall k :: 0 <= k < |SUBJECT_KEYS| ==> Says(pairs, SUBJECT_KEYS[k], "")
    ensures SubjectOf(Written(prefix, pairs), packagePath) ==
      if Text.HasPrefix(prefix, packagePath + ".") then prefix else packagePath + "." + prefix
  {
    forall k | 0 <= k < |SUBJECT_KEYS| ensures Field(ReadFields(prefix, pairs), SUBJECT_KEYS[k]) == "" {
      FieldRead(prefix, pairs, SUBJECT_KEYS[k], "");
    }
    NoneListed(ReadFields(prefix, pairs), SUBJECT_KEYS);
    PartsRead(prefix, pairs);
  }

  /** Without a package path the word "package" takes its place. */
  lemma SubjectWithoutPackage(evidence: string)
    ensures SubjectOf(evidence, "") == SubjectOf(evidence, "package")
  {
  }

  // ---------- Identities ----------

  /** What an identity shows of a value. */
  function Shown(env: Environment, value: string): string { if env.numeric(value) then "" else value }

  ghost predicate DistinctKeys(keys: seq<string>) {
    (forall k :: 0 <= k < |keys| ==> PlainKey(keys[k])) && forall j, k :: 0 <= j < k < |keys| ==> keys[j] != keys[k]
  }

  lemma IdentityKeysApart(j: nat, k: nat)
    requires j < k < |IDENTITY_KEYS|
    ensures IDENTITY_KEYS[j] != IDENTITY_KEYS[k]
  {
  }

  lemma IdentityKeysDistinct()
    ensures DistinctKeys(IDENTITY_KEYS)
  {
    forall k | 0 <= k < |IDENTITY_KEYS| ensures PlainKey(IDENTITY_KEYS[k]) { IdentityKeysPlain(k); }
    forall j, k | 0 <= j < k < |IDENTITY_KEYS| ensures IDENTITY_KEYS[j] != IDENTITY_KEYS[k] { IdentityKeysApart(j, k); }
  }

  ghost predicate PlainFields(fields: map<string, string>) { forall key :: key in fields ==> ';' !in fields[key] }

  lemma ContainsExtended(s: string, tail: string, word: string)
    requires Text.Contains(s, word)
    ensures Text.Contains(s + tail, word)
  {
    var i :| Text.OccursAt(s, word, i);
    assert (s + tail)[i..i + |word|] == s[i..i + |word|];
    assert Text.OccursAt(s + tail, word, i);
  }

  lemma ContainsAtEnd(s: string, word: string, tail: string)
    ensures Text.Contains(s + word + tail, word)
  {
    assert (s + word + tail)[|s|..|s| + |word|] == word;
    assert Text.OccursAt(s + word + tail, word, |s|);
  }

  /** A key without a value to show, or not listed at all, leaves no trace. */
  lemma {:induction false} NotShown(env: Environment, prefix: string, fields: map<string, string>, keys: seq<string>,
                                    key: string)
    requires ';' !in prefix && PlainFields(fields) && DistinctKeys(keys) && ';' !in key && '=' !in key
    requires key in keys ==> Shown(env, Field(fields, key)) == ""
    ensures !Text.Contains(Assembled(env, prefix, fields, keys), ";" + key + "=")
  {
    if keys == [] {
      NoSemicolonNoWord(prefix, ";" + key + "=");
    } else {
      var init, last := keys[..|keys| - 1], keys[|keys| - 1];
      NotShown(env, prefix, fields, init, key);
      if Shown(env, Field(fields, last)) != "" {
        assert last != key && PlainKey(last);
        FieldAddsNoWord(Assembled(env, prefix, fields, init), last, Field(fields, last), key);
      }
    }
  }

  lemma {:induction false} IsShown(env: Environment, prefix: string, fields: map<string, string>, keys: seq<string>,
                                   key: string)
    requires key in keys && Shown(env, Field(fields, key)) != ""
    ensures Text.Contains(Assembled(env, prefix, fields, keys), ";" + key + "=" + Field(fields, key))
  {
    var init, last := keys[..|keys| - 1], keys[|keys| - 1];
    var before, word := Assembled(env, prefix, fields, init), ";" + key + "=" + Field(fields, key);
    if last == key {
      assert before + ";" + key + "=" + Field(fields, key) == before + word + "";
      ContainsAtEnd(before, word, "");
    } else {
      assert key in init;
      IsShown(env, prefix, fields, init, key);
      var tail := ";" + last + "=" + Field(fields, last);
      assert before + ";" + last + "=" + Field(fields, last) == before + tail;
      ContainsExtended(before, tail, word);
    }
  }

  lemma NoneBehind(a: string, v: string, k: nat)
    requires ';' !in v && k < |a + [';'] + v| && (a + [';'] + v)[k] == ';'
    ensures k <= |a|
  {
    var t := a + [';'] + v;
    forall j | |a| < j < |t| ensures t[j] != ';' {
      assert t[j] == v[j - |a| - 1] && v[j - |a| - 1] in v;
    }
  }

  lemma LastFieldUnique(a: string, v: string, b: string, w: string)
    requires ';' !in v && ';' !in w && a + [';'] + v == b + [';'] + w
    ensures a == b && v == w
  {
    var t := a + [';'] + v;
    assert t[|a|] == ';' && (b + [';'] + w)[|b|] == ';';
    NoneBehind(a, v, |b|);
    NoneBehind(b, w, |a|);
    assert a == t[..|a|] && b == t[..|a|] && v == t[|a| + 1..] && w == t[|a| + 1..];
  }

  lemma SameKeyUnique(key: string, v: string, w: string)
    requires key + "=" + v == key + "=" + w
    ensures v == w
  {
    assert (key + "=" + v)[|key| + 1..] == v && (key + "=" + w)[|key| + 1..] == w;
  }

  ghost predicate ShowAlike(env: Environment, fields: map<string, string>, fields': map<string, string>,
                            keys: seq<string>) {
    forall key :: key in keys ==> Shown(env, Field(fields, key)) == Shown(env, Field(fields', key))
  }

  lemma AlikeNext(env: Environment, fields: map<string, string>, fields': map<string, string>,
                  init: seq<string>, last: string)
    ensures ShowAlike(env, fields, fields', init + [last]) <==>
      ShowAlike(env, fields, fields', init) && Shown(env, Field(fields, last)) == Shown(env, Field(fields', last))
  {
    assert forall key :: key in init + [last] <==> key in init || key == last;
  }

  /** Assembled texts agree exactly when prefixes and shown values do. */
  lemma {:induction false} AssembledTells(env: Environment, prefix: string, fields: map<string, string>,
                                          prefix': string, fields': map<string, string>, keys: seq<string>)
    requires ';' !in prefix && ';' !in prefix' && PlainFields(fields) && PlainFields(fields') && DistinctKeys(keys)
    ensures Assembled(env, prefix, fields, keys) == Assembled(env, prefix', fields', keys) <==>
      prefix == prefix' && ShowAlike(env, fields, fields', keys)
  {
    if keys == [] {
    } else {
      var init, last := keys[..|keys| - 1], keys[|keys| - 1];
      assert keys == init + [last];
      AssembledTells(env, prefix, fields, prefix', fields', init);
      AlikeNext(env, fields, fields', init, last);
      LastTells(env, prefix, fields, prefix', fields', init, last);
    }
  }

  lemma {:induction false} LastTells(env: Environment, prefix: string, fields: map<string, string>,
                                     prefix': string, fields': map<string, string>, init: seq<string>, last: string)
    requires ';' !in prefix && ';' !in prefix' && PlainFields(fields) && PlainFields(fields')
    requires DistinctKeys(init + [last])
    ensures Assembled(env, prefix, fields, init + [last]) == Assembled(env, prefix', fields', init + [last]) <==>
      && Assembled(env, prefix, fields, init) == Assembled(env, prefix', fields', init)
      && Shown(env, Field(fields, last)) == Shown(env, Field(fields', last))
  {
    var keys := init + [last];
    assert keys[|init|] == last && keys[..|init|] == init && last in keys;
    assert forall k :: 0 <= k < |init| ==> keys[k] == init[k];
    var a, b := Assembled(env, prefix, fields, init), Assembled(env, prefix', fields', init);
    var v, w := Field(fields, last), Field(fields', last);
    if Shown(env, v) != "" && Shown(env, w) != "" {
      assert a + ";" + last + "=" + v == a + [';'] + (last + "=" + v);
      assert b + ";" + last + "=" + w == b + [';'] + (last + "=" + w);
      if a + [';'] + (last + "=" + v) == b + [';'] + (last + "=" + w) {
        LastFieldUnique(a, last + "=" + v, b, last + "=" + w);
        SameKeyUnique(last, v, w);
      }
    } else if Shown(env, v) != "" {
      IsShown(env, prefix, fields, keys, last);
      ShowsKey(Assembled(env, prefix, fields, keys), last, v);
      NotShown(env, prefix', fields', keys, last);
    } else if Shown(env, w) != "" {
      IsShown(env, prefix', fields', keys, last);
      ShowsKey(Assembled(env, prefix', fields', keys), last, w);
      NotShown(env, prefix, fields, keys, last);
    }
  }

  lemma ShowsKey(s: string, key: string, value: string)
    requires Text.Contains(s, ";" + key + "=" + value)
    ensures Text.Contains(s, ";" + key + "=")
  {
    var word, whole := ";" + key + "=", ";" + key + "=" + value;
    var i :| Text.OccursAt(s, whole, i);
    assert s[i..i + |word|] == s[i..i + |whole|][..|word|];
    assert Text.OccursAt(s, word, i);
  }

  lemma ReadPlain(prefix: string, pairs: seq<(string, string)>)
    requires Plain(prefix, pairs)
    ensures PlainFields(ReadFields(prefix, pairs)) && EvidenceParts(Written(prefix, pairs)).0 == prefix
  {
    PartsRead(prefix, pairs);
    var (_, parts) := EvidenceParts(Written(prefix, pairs));
    forall key | key in FieldsOf(parts) ensures ';' !in FieldsOf(parts)[key] { FieldsPlain(parts, key); }
  }

  /** A listed field is written out with its value, unless that is blank or numeric. */
  lemma {:induction false} IdentityShows(env: Environment, prefix: string, pairs: seq<(string, string)>, key: string,
                                         value: string)
    requires Plain(prefix, pairs) && key in IDENTITY_KEYS && Says(pairs, key, value)
    ensures value != "" && !env.numeric(value) ==>
      Text.Contains(IdentityOf(env, Written(prefix, pairs)), ";" + key + "=" + value)
    ensures value == "" || env.numeric(value) ==>
      !Text.Contains(IdentityOf(env, Written(prefix, pairs)), ";" + key + "=")
  {
    ReadPlain(prefix, pairs);
    FieldRead(prefix, pairs, key, value);
    IdentityKeysDistinct();
    var k :| 0 <= k < |IDENTITY_KEYS| && IDENTITY_KEYS[k] == key;
    assert PlainKey(IDENTITY_KEYS[k]);
    if value != "" && !env.numeric(value) {
      IsShown(env, prefix, ReadFields(prefix, pairs), IDENTITY_KEYS, key);
    } else {
      NotShown(env, prefix, ReadFields(prefix, pairs), IDENTITY_KEYS, key);
    }
  }

  /** Other fields do not show. */
  lemma {:induction false} UnlistedHidden(env: Environment, prefix: string, pairs: seq<(string, string)>, key: string)
    requires Plain(prefix, pairs) && key !in IDENTITY_KEYS && ';' !in key && '=' !in key
    ensures !Text.Contains(IdentityOf(env, Written(prefix, pairs)), ";" + key + "=")
  {
    ReadPlain(prefix, pairs);
    IdentityKeysDistinct();
    NotShown(env, prefix, ReadFields(prefix, pairs), IDENTITY_KEYS, key);
  }

  ghost predicate SayAlike(env: Environment, pairs: seq<(string, string)>, pairs': seq<(string, string)>, key: string) {
    forall v, w :: Says(pairs, key, v) && Says(pairs', key, w) ==> Shown(env, v) == Shown(env, w)
  }

  lemma {:induction false} LastWith(pairs: seq<(string, string)>, key: string, some: nat) returns (i: nat)
    requires some < |pairs| && pairs[some].0 == key
    ensures i < |pairs| && pairs[i].0 == key && forall j :: i < j < |pairs| ==> pairs[j].0 != key
  {
    if pairs[|pairs| - 1].0 == key {
      i := |pairs| - 1;
    } else {
      var init := pairs[..|pairs| - 1];
      i := LastWith(init, key, some);
      assert forall j :: i < j < |init| ==> pairs[j] == init[j];
    }
  }

  lemma SaysSomething(pairs: seq<(string, string)>, key: string) returns (value: string)
    ensures Says(pairs, key, value)
  {
    if some: nat :| some < |pairs| && pairs[some].0 == key {
      var i := LastWith(pairs, key, some);
      value := pairs[i].1;
      assert pairs[i] == (key, value);
    } else {
      value := "";
    }
  }

  /** Two pieces of evidence have the same identity exactly when they have the same prefix and show the same
      values for the listed keys. */
  lemma {:induction false} IdentityTells(env: Environment, prefix: string, pairs: seq<(string, string)>,
                                         prefix': string, pairs': seq<(string, string)>)
    requires Plain(prefix, pairs) && Plain(prefix', pairs')
    ensures IdentityOf(env, Written(prefix, pairs)) == IdentityOf(env, Written(prefix', pairs')) <==>
      prefix == prefix' && forall key :: key in IDENTITY_KEYS ==> SayAlike(env, pairs, pairs', key)
  {
    ReadPlain(prefix, pairs);
    ReadPlain(prefix', pairs');
    IdentityKeysDistinct();
    AssembledTells(env, prefix, ReadFields(prefix, pairs), prefix', ReadFields(prefix', pairs'), IDENTITY_KEYS);
    forall key | key in IDENTITY_KEYS
      ensures SayAlike(env, pairs, pairs', key) <==>
        Shown(env, Field(ReadFields(prefix, pairs), key)) == Shown(env, Field(ReadFields(prefix', pairs'), key))
    {
      var v := SaysSomething(pairs, key);
      var w := SaysSomething(pairs', key);
      FieldRead(prefix, pairs, key, v);
      FieldRead(prefix', pairs', key, w);
      forall x, y | Says(pairs, key, x) && Says(pairs', key, y) ensures x == v && y == w {
        FieldRead(prefix, pairs, key, x);
        FieldRead(prefix', pairs', key, y);
      }
    }
  }

  // ---------- The order of fields ----------

  lemma {:induction false} SkipsHidden(env: Environment, prefix: string, fields: map<string, string>, keys: seq<string>,
                                       n: nat)
    requires n <= |keys| && forall k :: n <= k < |keys| ==> Shown(env, Field(fields, keys[k])) == ""
    ensures Assembled(env, prefix, fields, keys) == Assembled(env, prefix, fields, keys[..n])
    decreases |keys|
  {
    if n == |keys| {
      assert keys[..n] == keys;
    } else {
      var init := keys[..|keys| - 1];
      SkipsHidden(env, prefix, fields, init, n);
      assert init[..n] == keys[..n];
    }
  }

  lemma ShowsLast(env: Environment, prefix: string, fields: map<string, string>, keys: seq<string>, n: nat)
    requires n < |keys| && Shown(env, Field(fields, keys[n])) != ""
    ensures Assembled(env, prefix, fields, keys[..n + 1]) ==
      Assembled(env, prefix, fields, keys[..n]) + ";" + keys[n] + "=" + Field(fields, keys[n])
  {
    assert keys[..n + 1][..n] == keys[..n];
  }

  lemma {:induction false} AssembledOne(env: Environment, prefix: string, fields: map<string, string>,
                                        keys: seq<string>, a: nat)
    requires a < |keys| && Shown(env, Field(fields, keys[a])) != ""
    requires forall k :: 0 <= k < |keys| && k != a ==> Shown(env, Field(fields, keys[k])) == ""
    ensures Assembled(env, prefix, fields, keys) == prefix + ";" + keys[a] + "=" + Field(fields, keys[a])
  {
    SkipsHidden(env, prefix, fields, keys, a + 1);
    ShowsLast(env, prefix, fields, keys, a);
    SkipsHidden(env, prefix, fields, keys[..a], 0);
    assert keys[..a][..0] == [];
  }

  lemma {:induction false} AssembledTwo(env: Environment, prefix: string, fields: map<string, string>,
                                        keys: seq<string>, a: nat, b: nat)
    requires a < b < |keys| && Shown(env, Field(fields, keys[a])) != "" && Shown(env, Field(fields, keys[b])) != ""
    requires forall k :: 0 <= k < |keys| && k != a && k != b ==> Shown(env, Field(fields, keys[k])) == ""
    ensures Assembled(env, prefix, fields, keys) ==
      prefix + ";" + keys[a] + "=" + Field(fields, keys[a]) + ";" + keys[b] + "=" + Field(fields, keys[b])
  {
    SkipsHidden(env, prefix, fields, keys, b + 1);
    ShowsLast(env, prefix, fields, keys, b);
    AssembledOne(env, prefix, fields, keys[..b], a);
  }

  /** With exactly two fields to show, they come in the order of the list, however the check wrote them. */
  lemma {:induction false} TwoFields(env: Environment, prefix: string, pairs: seq<(string, string)>, a: nat, b: nat,
                                     v: string, w: string)
    requires Plain(prefix, pairs) && a < b < |IDENTITY_KEYS|
    requires Says(pairs, IDENTITY_KEYS[a], v) && v != "" && !env.numeric(v)
    requires Says(pairs, IDENTITY_KEYS[b], w) && w != "" && !env.numeric(w)
    requires forall k :: 0 <= k < |IDENTITY_KEYS| && k != a && k != b ==> Says(pairs, IDENTITY_KEYS[k], "")
    ensures IdentityOf(env, Written(prefix, pairs)) ==
      prefix + ";" + IDENTITY_KEYS[a] + "=" + v + ";" + IDENTITY_KEYS[b] + "=" + w
  {
    ReadPlain(prefix, pairs);
    FieldRead(prefix, pairs, IDENTITY_KEYS[a], v);
    FieldRead(prefix, pairs, IDENTITY_KEYS[b], w);
    forall k | 0 <= k < |IDENTITY_KEYS| && k != a && k != b
      ensures Field(ReadFields(prefix, pairs), IDENTITY_KEYS[k]) == ""
    {
      FieldRead(prefix, pairs, IDENTITY_KEYS[k], "");
    }
    AssembledTwo(env, prefix, ReadFields(prefix, pairs), IDENTITY_KEYS, a, b);
  }

  lemma {:induction false} OneField(env: Environment, prefix: string, pairs: seq<(string, string)>, a: nat, v: string)
    requires Plain(prefix, pairs) && a < |IDENTITY_KEYS|
    requires Says(pairs, IDENTITY_KEYS[a], v) && v != "" && !env.numeric(v)
    requires forall k :: 0 <= k < |IDENTITY_KEYS| && k != a ==> Says(pairs, IDENTITY_KEYS[k], "")
    ensures IdentityOf(env, Written(prefix, pairs)) == prefix + ";" + IDENTITY_KEYS[a] + "=" + v
  {
    ReadPlain(prefix, pairs);
    FieldRead(prefix, pairs, IDENTITY_KEYS[a], v);
    forall k | 0 <= k < |IDENTITY_KEYS| && k != a ensures Field(ReadFields(prefix, pairs), IDENTITY_KEYS[k]) == "" {
      FieldRead(prefix, pairs, IDENTITY_KEYS[k], "");
    }
    AssembledOne(env, prefix, ReadFields(prefix, pairs), IDENTITY_KEYS, a);
  }

  const STORE: (string, string) := ("type", "Store")

  lemma StoreWritten()
    ensures Written("large-type", [STORE]) == "large-type:type=Store"
  {
    assert "type" + "=" + "Store" == "type=Store";
    assert Parts([STORE]) == [Part(STORE)];
    assert "large-type" + ":" + "type=Store" == "large-type:type=Store";
  }

  lemma StorePlain()
    ensures Plain("large-type", [STORE])
  {
    Untrimmed("large-type");
    Untrimmed("type");
    Untrimmed("Store");
  }

  lemma StoreSays(k: nat)
    requires k < |IDENTITY_KEYS|
    ensures Says([STORE], IDENTITY_KEYS[k], if k == 0 then "Store" else "")
  {
    assert [STORE][0] == ("type", "Store");
    if k > 0 { IdentityKeysApart(0, k); }
  }

  lemma {:induction false} StoreSubject(subject: string)
    requires subject == "app" + "." + "Store"
    ensures SubjectOf(Written("large-type", [STORE]), "app") == subject
  {
    StorePlain();
    StoreSays(0);
    assert SUBJECT_KEYS[0] == IDENTITY_KEYS[0];
    SubjectRead("large-type", [STORE], "app", 0, "Store");
    assert "Store"[0] != ("app" + ".")[0];
  }

  lemma {:induction false} StoreIdentity(env: Environment, identity: string)
    requires !env.numeric("Store") && identity == "large-type" + ";" + IDENTITY_KEYS[0] + "=" + "Store"
    ensures IdentityOf(env, Written("large-type", [STORE])) == identity
  {
    StorePlain();
    forall k: nat | k < |IDENTITY_KEYS| ensures Says([STORE], IDENTITY_KEYS[k], if k == 0 then "Store" else "") {
      StoreSays(k);
    }
    OneField(env, "large-type", [STORE], 0, "Store");
  }

  lemma StoreTexts()
    ensures "app" + "." + "Store" == "app.Store"
    ensures "large-type" + ";" + IDENTITY_KEYS[0] + "=" + "Store" == "large-type;type=Store"
  {
  }

  /** For instance a large type of a package. */
  lemma {:induction false} LargeType(env: Environment)
    requires !env.numeric("Store")
    ensures Written("large-type", [("type", "Store")]) == "large-type:type=Store"
    ensures SubjectOf(Written("large-type", [("type", "Store")]), "app") == "app.Store"
    ensures IdentityOf(env, Written("large-type", [("type", "Store")])) == "large-type;type=Store"
  {
    StoreWritten();
    StoreTexts();
    StoreSubject("app.Store");
    StoreIdentity(env, "large-type;type=Store");
  }

  /** Completing a report, finding by finding: one that has both a subject and an identity is left alone; any
      other gets both from its evidence, and nothing else of it changes. */
  lemma KeptOrDerived(env: Environment, issues: seq<Issue>, packagePath: string, i: nat)
    requires i < |issues|
    ensures |CompletedAll(env, issues, packagePath)| == |issues|
    ensures CompletedAll(env, issues, packagePath)[i] == Completed(env, issues[i], packagePath)
    ensures var x, y := issues[i], CompletedAll(env, issues, packagePath)[i];
      if x.subject != "" && x.identity != "" then y == x
      else
        && y.subject == SubjectOf(x.evidence, packagePath) && y.identity == IdentityOf(env, x.evidence)
        && y.(subject := x.subject, identity := x.identity) == x
  {
  }

  /** A finding is known by its check, or by its rule when it names no check. */
  lemma KnownBy(x: Issue)
    ensures x.check != "" ==> x.ID() == x.check
    ensures x.check == "" ==> x.ID() == x.rule
  {
  }
}
