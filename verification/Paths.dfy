/** The portable form of a file name, the one that goes into fingerprints, and which names the second
    form confuses although the first does not. Unix separators; relative names stay relative. */
module Paths {
  import Text

  /** Lexical cleaning of slash-separated names, and SHA-256 in hexadecimal. */
  datatype Naming = Naming(clean: string -> string, sha: string -> string) {
    ghost predicate Valid() {
      && (forall s :: clean(s) != "" && (Rooted(clean(s)) <==> Rooted(s)))
      && (forall s, t :: sha(s) == sha(t) ==> s == t)
      && (forall s :: forall c :: c in sha(s) ==> '0' <= c <= '9' || 'a' <= c <= 'f')
    }

    /** A root-relative name for files inside the root, a normalized one for others, and which of the two. */
    function Normalized(root: string, filename: string): (string, bool) {
      if WindowsStyle(root) || WindowsStyle(filename) then NormalizedWindows(root, filename)
      else if Rooted(root) || Rooted(filename) then NormalizedSlash(root, filename)
      else if clean(filename) == "." || clean(filename) == "" then ("", false)
      else (clean(filename), true)
    }

    function NormalizedSlash(root: string, filename: string): (string, bool) {
      var r, f := clean(root), clean(filename);
      if f == "." || f == "" then ("", false)
      else if r == "." || r == "" then (f, !Rooted(f))
      else if !Rooted(f) then (f, true)
      else if f == r then (".", true)
      else
        var prefix := (if Text.HasSuffix(r, "/") then r[..|r| - 1] else r) + "/";
        if Text.HasPrefix(f, prefix) then (f[|prefix|..], true) else (f, false)
    }

    function Portable(root: string, filename: string): string { Normalized(root, filename).0 }

    predicate Inside(root: string, filename: string) { Normalized(root, filename).1 }

    /** Files outside the root appear as a digest of their cleaned name. */
    function FingerprintPath(root: string, filename: string): string {
      if Inside(root, filename) then Portable(root, filename) else EXTERNAL + sha(clean(filename))
    }
  }

  const EXTERNAL := "external:"

  predicate Rooted(s: string) { s != "" && s[0] == '/' }

  function ToSlash(s: string): string {
    seq(|s|, i requires 0 <= i < |s| => if s[i] == '\\' then '/' else s[i])
  }

  /** A drive letter, a colon and a separator. */
  predicate WindowsStyle(path: string) {
    && |path| >= 3 && ('a' <= path[0] <= 'z' || 'A' <= path[0] <= 'Z')
    && path[1] == ':' && (path[2] == '/' || path[2] == '\\')
  }

  predicate Slash(c: char) { c == '/' }

  /** Names with a drive are compared without case, and are not cleaned. */
  function NormalizedWindows(root: string, filename: string): (string, bool) {
    var r, f := Text.TrimRight(ToSlash(root), Slash), ToSlash(filename);
    if r == "" then (f, false)
    else if Text.Lower(f) == Text.Lower(r) then (".", true)
    else if |f| > |r| && Text.Lower(f[..|r|]) == Text.Lower(r) && f[|r|] == '/' then (f[|r| + 1..], true)
    else (f, false)
  }

  /** A file as a finding names it. */
  datatype Place = Place(root: string, filename: string)

  predicate Plain(p: Place) { !WindowsStyle(p.root) && !WindowsStyle(p.filename) }

  function WithSlash(dir: string): string { if dir != "" && dir[|dir| - 1] == '/' then dir else dir + ['/'] }

  /** Without drive letters: blank names stay blank, relative ones and those below the root are relative to
      it, the root itself is a dot, and all others are outside and keep their cleaned name. */
  lemma Located(n: Naming, p: Place, name: string)
    requires n.Valid() && Plain(p)
    ensures var r, f := n.clean(p.root), n.clean(p.filename);
      && (f == "." ==> n.Normalized(p.root, p.filename) == ("", false))
      && (f != "." && !Rooted(f) ==> n.Normalized(p.root, p.filename) == (f, true))
      && (Rooted(f) && f == r ==> n.Normalized(p.root, p.filename) == (".", true))
      && (Rooted(f) && f != r && f == WithSlash(r) + name ==> n.Normalized(p.root, p.filename) == (name, true))
      && (Rooted(f) && f != r && (forall below :: f != WithSlash(r) + below) ==>
            n.Normalized(p.root, p.filename) == (f, false))
  {
    var r, f := n.clean(p.root), n.clean(p.filename);
    if Rooted(f) && f != r && Text.HasPrefix(f, WithSlash(r)) {
      assert f == WithSlash(r) + f[|WithSlash(r)|..];
    }
  }

  /** The text with forward slashes only. */
  predicate Slashed(s: string, t: string) {
    |s| == |t| && forall i :: 0 <= i < |s| ==> t[i] == if s[i] == '\\' then '/' else s[i]
  }

  predicate OnlySlashes(s: string) { forall i :: 0 <= i < |s| ==> s[i] == '/' }

  /** The name starts with the root, in whatever case, and a slash. */
  predicate BelowRoot(r: string, f: string) { |f| > |r| && f[|r|] == '/' && Text.SameBarCase(f[..|r|], r) }

  /** With a drive letter, names are compared with the root without regard to case and to the kind and number
      of its closing separators. */
  lemma LocatedOnDrive(n: Naming, p: Place, r: string, slashes: string, f: string, dir: string, name: string)
    requires !Plain(p) && Slashed(p.root, r + slashes) && Slashed(p.filename, f)
    requires (r == "" || r[|r| - 1] != '/') && OnlySlashes(slashes)
    ensures r == "" ==> n.Normalized(p.root, p.filename) == (f, false)
    ensures r != "" && Text.SameBarCase(f, r) ==> n.Normalized(p.root, p.filename) == (".", true)
    ensures r != "" && f == dir + (['/'] + name) && Text.SameBarCase(dir, r) ==>
      n.Normalized(p.root, p.filename) == (name, true)
    ensures r != "" && !Text.SameBarCase(f, r) && !BelowRoot(r, f) ==> n.Normalized(p.root, p.filename) == (f, false)
  {
    assert ToSlash(p.root) == r + slashes && ToSlash(p.filename) == f;
    Text.TrimRightPadding(r, slashes, Slash);
    Text.LowerMeans(f, r);
    if |f| > |r| { Text.LowerMeans(f[..|r|], r); }
    if f == dir + (['/'] + name) && Text.SameBarCase(dir, r) {
      assert f[..|r|] == dir && f[|r| + 1..] == name;
      assert |f| != |r|;
    }
  }

  /** A drive is a letter, a colon and a separator at the start of a name. */
  lemma DriveMeans(path: string, letter: char, slash: char, rest: string)
    requires path == [letter] + ([':'] + ([slash] + rest))
    ensures WindowsStyle(path) <==>
      (Text.SameLetter(letter, 'a') || ('b' <= letter <= 'z') || ('B' <= letter <= 'Z')) && slash in ['/', '\\']
  {
  }

  lemma NoDrive(path: string)
    ensures |path| < 3 || path[1] != ':' ==> !WindowsStyle(path)
  {
  }

  /** Outside the root the portable name is determined by the cleaned one, and it is rooted or blank. */
  lemma OutsideName(n: Naming, p: Place)
    requires n.Valid() && Plain(p) && !n.Inside(p.root, p.filename)
    ensures n.Portable(p.root, p.filename) == if n.clean(p.filename) == "." then "" else n.clean(p.filename)
    ensures n.Portable(p.root, p.filename) == "" || Rooted(n.Portable(p.root, p.filename))
  {
  }

  /** `p` is inside its root, under the very name that stands for `q` in fingerprints. */
  predicate NamedLike(n: Naming, p: Place, q: Place) {
    && n.Inside(p.root, p.filename) && !n.Inside(q.root, q.filename)
    && n.Portable(p.root, p.filename) == EXTERNAL + n.sha(n.clean(q.filename))
  }

  lemma SameDigest(a: string, b: string)
    requires EXTERNAL + a == EXTERNAL + b
    ensures a == b
  {
    assert (EXTERNAL + a)[|EXTERNAL|..] == a && (EXTERNAL + b)[|EXTERNAL|..] == b;
  }

  lemma NamedLikeClashes(n: Naming, p: Place, q: Place)
    requires n.Valid() && Plain(q) && NamedLike(n, p, q)
    ensures n.FingerprintPath(p.root, p.filename) == n.FingerprintPath(q.root, q.filename)
    ensures n.Portable(p.root, p.filename) != n.Portable(q.root, q.filename)
  {
    OutsideName(n, q);
    assert n.Portable(p.root, p.filename)[0] == 'e';
  }

  /** Without drive letters, the form in fingerprints confuses two files that the portable form tells apart
      exactly when one lies in its root under a name made of the other one's digest. */
  lemma ConfusedIff(n: Naming, p: Place, q: Place)
    requires n.Valid() && Plain(p) && Plain(q)
    ensures n.FingerprintPath(p.root, p.filename) == n.FingerprintPath(q.root, q.filename)
        && n.Portable(p.root, p.filename) != n.Portable(q.root, q.filename)
      <==> NamedLike(n, p, q) || NamedLike(n, q, p)
  {
    if NamedLike(n, p, q) {
      NamedLikeClashes(n, p, q);
    } else if NamedLike(n, q, p) {
      NamedLikeClashes(n, q, p);
    } else if n.FingerprintPath(p.root, p.filename) == n.FingerprintPath(q.root, q.filename) {
      if !n.Inside(p.root, p.filename) && !n.Inside(q.root, q.filename) {
        SameDigest(n.sha(n.clean(p.filename)), n.sha(n.clean(q.filename)));
        OutsideName(n, p);
        OutsideName(n, q);
      }
    }
  }

  /** The name is that of a Go file. */
  predicate GoFile(name: string) { Text.HasSuffix(name, ".go") }

  /** Go files inside their root are never named like a digest. */
  lemma GoFilesTold(n: Naming, p: Place, q: Place)
    requires n.Valid() && Plain(p) && Plain(q)
    requires n.Inside(p.root, p.filename) ==> GoFile(n.Portable(p.root, p.filename))
    requires n.Inside(q.root, q.filename) ==> GoFile(n.Portable(q.root, q.filename))
    ensures n.FingerprintPath(p.root, p.filename) == n.FingerprintPath(q.root, q.filename) ==>
      n.Portable(p.root, p.filename) == n.Portable(q.root, q.filename)
  {
    ConfusedIff(n, p, q);
    DigestIsNoGoFile(n, n.clean(p.filename));
    DigestIsNoGoFile(n, n.clean(q.filename));
  }

  lemma DigestIsNoGoFile(n: Naming, name: string)
    requires n.Valid()
    ensures !GoFile(EXTERNAL + n.sha(name))
  {
    var s := EXTERNAL + n.sha(name);
    assert '.' !in s;
    assert s[|s| - 3..][0] == s[|s| - 3] && s[|s| - 3] in s;
  }

  /** With drive letters two spellings of one external file are confused, since only one form cleans. */
  lemma DrivesConfused(n: Naming)
    requires n.clean("D:/lib//a.go") == n.clean("D:/lib/a.go")
    ensures n.FingerprintPath("C:/repo", "D:/lib//a.go") == n.FingerprintPath("C:/repo", "D:/lib/a.go")
    ensures n.Portable("C:/repo", "D:/lib//a.go") != n.Portable("C:/repo", "D:/lib/a.go")
  {
    DriveOutside("D:/lib//a.go");
    DriveOutside("D:/lib/a.go");
    assert ToSlash("D:/lib//a.go")[7] != ToSlash("D:/lib/a.go")[7];
  }

  lemma DriveOutside(filename: string)
    requires |filename| >= 7 && filename[0] == 'D'
    ensures NormalizedWindows("C:/repo", filename) == (ToSlash(filename), false)
  {
    var r, f := Text.TrimRight(ToSlash("C:/repo"), c => c == '/'), ToSlash(filename);
    assert ToSlash("C:/repo") == "C:/repo" && r == "C:/repo";
    assert Text.Lower(f)[0] == 'd' && Text.Lower(r)[0] == 'c' && Text.Lower(f[..|r|])[0] == 'd';
  }
}
