/** The string operations of Go's standard library that the components rely on. */
module Text {

  /** The first index of `c` in `s`, or |s| when it does not occur. */
  function IndexOf(s: string, c: char): (i: nat)
    ensures i <= |s|
    ensures c !in s[..i]
    ensures i < |s| ==> s[i] == c
  {
    if s == [] || s[0] == c then 0
    else
      var i := 1 + IndexOf(s[1..], c);
      assert s[..i] == [s[0]] + s[1..][..i - 1];
      i
  }

  /** strings.Split for a one-character separator. */
  function Split(s: string, sep: char): (parts: seq<string>)
    ensures parts != []
    ensures forall part :: part in parts ==> sep !in part
    decreases |s|
  {
    var i := IndexOf(s, sep);
    if i == |s| then
      assert s[..i] == s;
      [s]
    else [s[..i]] + Split(s[i + 1..], sep)
  }

  /** strings.Join for a one-character separator. */
  function Join(parts: seq<string>, sep: char): string {
    if parts == [] then ""
    else if |parts| == 1 then parts[0]
    else parts[0] + [sep] + Join(parts[1..], sep)
  }

  lemma {:induction false} JoinSnoc(parts: seq<string>, last: string, sep: char)
    requires parts != []
    ensures Join(parts + [last], sep) == Join(parts, sep) + [sep] + last
  {
    if |parts| <= 1 {
    } else {
      assert (parts + [last])[1..] == parts[1..] + [last];
      JoinSnoc(parts[1..], last, sep);
      assert Join(parts, sep) == parts[0] + [sep] + Join(parts[1..], sep);
    }
  }

  lemma JoinCons(part: string, parts: seq<string>, sep: char)
    requires parts != []
    ensures Join([part] + parts, sep) == part + [sep] + Join(parts, sep)
  {
    assert ([part] + parts)[1..] == parts;
  }

  lemma {:induction false} JoinSplit(s: string, sep: char)
    ensures Join(Split(s, sep), sep) == s
    decreases |s|
  {
    var i := IndexOf(s, sep);
    if i == |s| {
    } else {
      JoinSplit(s[i + 1..], sep);
      JoinCons(s[..i], Split(s[i + 1..], sep), sep);
      assert s == s[..i] + [sep] + s[i + 1..];
    }
  }

  lemma IndexOfConcat(a: string, b: string, c: char)
    requires c !in a && b != [] && b[0] == c
    ensures IndexOf(a + b, c) == |a|
  {
    if a == [] {
      assert a + b == b;
    } else {
      assert (a + b)[1..] == a[1..] + b;
      IndexOfConcat(a[1..], b, c);
    }
  }

  /** A part free of the separator is recovered from what follows it. */
  lemma CutUnique(a: string, s: string, b: string, t: string, sep: char)
    requires sep !in a && sep !in b
    requires a + [sep] + s == b + [sep] + t
    ensures a == b && s == t
  {
    var u := a + [sep] + s;
    assert u == a + ([sep] + s);
    assert u == b + ([sep] + t);
    IndexOfConcat(a, [sep] + s, sep);
    IndexOfConcat(b, [sep] + t, sep);
    assert a == u[..|a|] && b == u[..|a|];
    assert s == u[|a| + 1..] && t == u[|a| + 1..];
  }

  lemma SplitWhole(s: string, sep: char)
    requires sep !in s
    ensures Split(s, sep) == [s]
  {
  }

  lemma SplitCons(head: string, rest: string, sep: char)
    requires sep !in head
    ensures Split(head + [sep] + rest, sep) == [head] + Split(rest, sep)
  {
    var s := head + [sep] + rest;
    assert s == head + ([sep] + rest);
    IndexOfConcat(head, [sep] + rest, sep);
    assert s[..|head|] == head && s[|head| + 1..] == rest;
  }

  /** Splitting undoes joining, so a joined string has one list of parts and no other. */
  lemma {:induction false} SplitJoin(parts: seq<string>, sep: char)
    requires parts != [] && forall k :: 0 <= k < |parts| ==> sep !in parts[k]
    ensures Split(Join(parts, sep), sep) == parts
    decreases |parts|
  {
    if |parts| == 1 {
      SplitWhole(parts[0], sep);
    } else {
      SplitJoin(parts[1..], sep);
      SplitCons(parts[0], Join(parts[1..], sep), sep);
    }
  }

  function TrimLeft(s: string, drop: char -> bool): (r: string)
    ensures r == [] || !drop(r[0])
  {
    if s == [] then s else if drop(s[0]) then TrimLeft(s[1..], drop) else s
  }

  function TrimRight(s: string, drop: char -> bool): (r: string)
    ensures r == [] || !drop(r[|r| - 1])
  {
    if s == [] then s else if drop(s[|s| - 1]) then TrimRight(s[..|s| - 1], drop) else s
  }

  /** What is trimmed on the left is a run of dropped characters. */
  lemma {:induction false} TrimLeftDrops(s: string, drop: char -> bool) returns (n: nat)
    ensures n <= |s| && TrimLeft(s, drop) == s[n..] && forall k :: 0 <= k < n ==> drop(s[k])
  {
    n := 0;
    if s == [] || !drop(s[0]) {
    } else {
      var rest := TrimLeftDrops(s[1..], drop);
      n := rest + 1;
      forall k | 0 <= k < n ensures drop(s[k]) { if k > 0 { assert s[k] == s[1..][k - 1]; } }
    }
  }

  /** What is trimmed on the right is a run of dropped characters. */
  lemma {:induction false} TrimRightDrops(s: string, drop: char -> bool)
    ensures TrimRight(s, drop) <= s && forall k :: |TrimRight(s, drop)| <= k < |s| ==> drop(s[k])
  {
    if s == [] || !drop(s[|s| - 1]) {
    } else {
      TrimRightDrops(s[..|s| - 1], drop);
    }
  }

  /** strings.Trim and, with white space dropped, strings.TrimSpace. */
  function Trim(s: string, drop: char -> bool): string { TrimRight(TrimLeft(s, drop), drop) }

  /** The trimmed text is a stretch of the text, and neither end can be dropped. */
  lemma TrimStretch(s: string, drop: char -> bool)
    ensures forall c :: c in Trim(s, drop) ==> c in s
    ensures Trim(s, drop) == [] || (!drop(Trim(s, drop)[0]) && !drop(Trim(s, drop)[|Trim(s, drop)| - 1]))
  {
    var n := TrimLeftDrops(s, drop);
    TrimRightDrops(TrimLeft(s, drop), drop);
  }

  /** The ASCII white space that strings.TrimSpace removes. */
  predicate IsSpace(c: char) { c == ' ' || c == '\t' || c == '\n' || c == '\r' || c == 11 as char || c == 12 as char }

  function TrimSpace(s: string): (r: string)
    ensures forall c :: c in r ==> c in s
  {
    TrimStretch(s, IsSpace);
    Trim(s, IsSpace)
  }

  lemma TrimAgain(s: string)
    ensures TrimSpace(TrimSpace(s)) == TrimSpace(s)
  {
    TrimStretch(s, IsSpace);
  }

  lemma Assoc(a: string, b: string, c: string)
    ensures a + b + c == a + (b + c)
  {
  }

  predicate HasPrefix(s: string, prefix: string) { |prefix| <= |s| && s[..|prefix|] == prefix }

  predicate HasSuffix(s: string, suffix: string) { |suffix| <= |s| && s[|s| - |suffix|..] == suffix }

  predicate OccursAt(s: string, part: string, i: int) {
    0 <= i <= |s| - |part| && s[i..i + |part|] == part
  }

  /** Character by character. */
  lemma OccursMeans(s: string, part: string, i: int)
    ensures OccursAt(s, part, i) <==>
      0 <= i && i + |part| <= |s| && forall k :: 0 <= k < |part| ==> s[i + k] == part[k]
  {
    if 0 <= i <= |s| - |part| {
      var piece := s[i..i + |part|];
      assert forall k :: 0 <= k < |part| ==> piece[k] == s[i + k];
    }
  }

  /** strings.Contains. */
  ghost predicate Contains(s: string, part: string) {
    exists i :: OccursAt(s, part, i)
  }

  /** A text starts with another exactly when it is that text with something after it. */
  lemma PrefixMeans(s: string, part: string)
    ensures HasPrefix(s, part) <==> exists rest :: s == part + rest
  {
    if HasPrefix(s, part) {
      assert s == part + s[|part|..];
    }
  }

  lemma SuffixMeans(s: string, part: string)
    ensures HasSuffix(s, part) <==> exists rest :: s == rest + part
  {
    if HasSuffix(s, part) {
      assert s == s[..|s| - |part|] + part;
    }
  }

  predicate Around(s: string, before: string, part: string, after: string) { s == before + part + after }

  /** A text contains another exactly when it is that text with something before and after it. */
  lemma ContainsMeans(s: string, part: string)
    ensures Contains(s, part) <==> exists before, after :: Around(s, before, part, after)
  {
    if Contains(s, part) {
      var i :| OccursAt(s, part, i);
      assert Around(s, s[..i], part, s[i + |part|..]);
    }
    if before, after :| Around(s, before, part, after) {
      assert OccursAt(s, part, |before|);
    }
  }

  predicate Dropped(s: string, drop: char -> bool) { forall i :: 0 <= i < |s| ==> drop(s[i]) }

  lemma {:induction false} TrimLeftPadding(before: string, s: string, drop: char -> bool)
    requires Dropped(before, drop) && (s == "" || !drop(s[0]))
    ensures TrimLeft(before + s, drop) == s
  {
    if before == "" {
      assert before + s == s;
    } else {
      assert (before + s)[1..] == before[1..] + s;
      TrimLeftPadding(before[1..], s, drop);
    }
  }

  lemma {:induction false} TrimRightPadding(s: string, after: string, drop: char -> bool)
    requires Dropped(after, drop) && (s == "" || !drop(s[|s| - 1]))
    ensures TrimRight(s + after, drop) == s
  {
    if after == "" {
      assert s + after == s;
    } else {
      var init := after[..|after| - 1];
      assert (s + after)[..|s + after| - 1] == s + init;
      TrimRightPadding(s, init, drop);
    }
  }

  /** The six ASCII characters that count as white space. */
  predicate Blank(s: string) { forall c :: c in s ==> c in [' ', '\t', '\n', '\r', 11 as char, 12 as char] }

  /** Trimming takes white space off both ends and nothing more. */
  lemma TrimSpaceMeans(s: string) returns (before: string, after: string)
    ensures s == before + TrimSpace(s) + after && Blank(before) && Blank(after)
    ensures TrimSpace(s) != "" ==> !Blank(TrimSpace(s)[..1]) && !Blank(TrimSpace(s)[|TrimSpace(s)| - 1..])
    ensures TrimSpace(s) == "" <==> Blank(s)
  {
    var n := TrimLeftDrops(s, IsSpace);
    var rest := TrimLeft(s, IsSpace);
    TrimRightDrops(rest, IsSpace);
    TrimStretch(s, IsSpace);
    var r := TrimSpace(s);
    before, after := s[..n], rest[|r|..];
    assert rest == r + after;
    if r != "" {
      assert r[0] in r[..1] && r[|r| - 1] in r[|r| - 1..];
      assert r[0] in s;
    } else {
      assert s == before + after;
    }
  }

  /** White space around a trimmed text is all that trimming removes. */
  lemma TrimPadded(before: string, s: string, after: string)
    requires Blank(before) && Blank(after) && TrimSpace(s) == s
    ensures TrimSpace(before + s + after) == s
  {
    if s == "" {
      var _, _ := TrimSpaceMeans(before + s + after);
    } else {
      TrimStretch(s, IsSpace);
      assert forall i :: 0 <= i < |before| ==> before[i] in before;
      assert forall i :: 0 <= i < |after| ==> after[i] in after;
      Assoc(before, s, after);
      TrimLeftPadding(before, s + after, IsSpace);
      TrimRightPadding(s, after, IsSpace);
    }
  }

  // ---------- ASCII case ----------

  function Lower(s: string): string {
    seq(|s|, i requires 0 <= i < |s| => if 'A' <= s[i] <= 'Z' then s[i] - 'A' + 'a' else s[i])
  }

  /** The characters are equal, or the same letter in different case. */
  predicate SameLetter(c: char, d: char) {
    c == d || ('A' <= c <= 'Z' && d as int == c as int + 32) || ('A' <= d <= 'Z' && c as int == d as int + 32)
  }

  predicate SameBarCase(a: string, b: string) {
    |a| == |b| && forall i :: 0 <= i < |a| ==> SameLetter(a[i], b[i])
  }

  lemma LowerMeans(a: string, b: string)
    ensures Lower(a) == Lower(b) <==> SameBarCase(a, b)
  {
    if Lower(a) == Lower(b) {
      assert |a| == |Lower(a)| == |Lower(b)| == |b|;
      forall i | 0 <= i < |a| ensures SameLetter(a[i], b[i]) {
        assert Lower(a)[i] == Lower(b)[i];
      }
    } else if |a| == |b| {
      assert |Lower(a)| == |Lower(b)|;
      var i :| 0 <= i < |a| && Lower(a)[i] != Lower(b)[i];
      assert !SameLetter(a[i], b[i]);
    }
  }

  // ---------- Decimal numbers, as %d prints them ----------

  function Digit(n: nat): char
    requires n < 10
  { '0' + n as char }

  predicate Digits(s: string) { forall i :: 0 <= i < |s| ==> '0' <= s[i] <= '9' }

  function Decimal(n: nat): (s: string)
    ensures s != [] && Digits(s)
  {
    if n < 10 then [Digit(n)] else Decimal(n / 10) + [Digit(n % 10)]
  }

  function Value(s: string): nat
    requires Digits(s)
  {
    if s == [] then 0
    else Value(s[..|s| - 1]) * 10 + (s[|s| - 1] as int - '0' as int)
  }

  lemma {:induction false} ValueDecimal(n: nat)
    ensures Value(Decimal(n)) == n
  {
    if n < 10 {
    } else {
      ValueDecimal(n / 10);
      var s := Decimal(n);
      assert s[..|s| - 1] == Decimal(n / 10);
    }
  }

  lemma DecimalInjective(m: nat, n: nat)
    requires Decimal(m) == Decimal(n)
    ensures m == n
  {
    ValueDecimal(m);
    ValueDecimal(n);
  }
}
