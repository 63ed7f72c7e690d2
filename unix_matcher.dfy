/** The Unix token classifier `is_dylib_path` and the library-path regex
    `lib([^/]+?)(?:\.dylib|\.so|\.so.\d+|\.so.\d+.\d+|\.so.\d+.\d+.\d+)$`
    it applies. The regex is written out as predicates; the search for the
    match Rust's regex engine reports is a pair of recursive functions. */
module UnixMatcher {
  import opened Wrappers
  import opened Text
  import opened LinkArgs

  /** `t` is exactly `groups` repetitions of `.\d+`, where the unescaped `.`
      stands for any character except a newline and `\d` for an ASCII digit */
  predicate VersionGroups(t: string, groups: nat)
    decreases |t|, groups, 0
  {
    if groups == 0 then |t| == 0
    else 2 <= |t| && t[0] != '\n' && IsDigit(t[1]) && MoreDigits(t[2..], groups)
  }

  /** the rest of a group whose first digit is consumed, then `groups - 1` groups */
  predicate MoreDigits(t: string, groups: nat)
    requires groups >= 1
    decreases |t|, groups, 1
  {
    VersionGroups(t, groups - 1) || (1 <= |t| && IsDigit(t[0]) && MoreDigits(t[1..], groups))
  }

  /** `(?:\.dylib|\.so|\.so.\d+|\.so.\d+.\d+|\.so.\d+.\d+.\d+)$` matches all of `t` */
  predicate IsLibSuffix(t: string) {
    t == ".dylib" || t == ".so"
    || (StartsWith(t, ".so")
        && (VersionGroups(t[3..], 1) || VersionGroups(t[3..], 2) || VersionGroups(t[3..], 3)))
  }

  /** the name group is `s[n0..n0 + k]`: non-empty, slash-free, followed by a suffix to the end */
  predicate NameMatches(s: string, n0: nat, k: nat) {
    1 <= k && n0 + k <= |s|
    && (forall j :: n0 <= j < n0 + k ==> s[j] != '/')
    && IsLibSuffix(s[n0 + k..])
  }

  /** the regex matches `s[i..]` with a name of `k` characters */
  predicate MatchesAt(s: string, i: nat, k: nat) {
    i + 3 <= |s| && s[i..i + 3] == "lib" && NameMatches(s, i + 3, k)
  }

  /** the match the engine reports: the leftmost start, then the shortest
      name (the group is lazy) */
  ghost predicate IsLeftmostShortest(s: string, i: nat, k: nat) {
    MatchesAt(s, i, k)
    && (forall i': nat, k': nat :: i' < i ==> !MatchesAt(s, i', k'))
    && (forall k': nat :: k' < k ==> !MatchesAt(s, i, k'))
  }

  /** The lazy `[^/]+?`: the shortest name at `n0` of at least `k` characters */
  function ShortestName(s: string, n0: nat, k: nat): (r: Option<nat>)
    requires 1 <= k
    requires forall j :: n0 <= j < n0 + k - 1 && j < |s| ==> s[j] != '/'
    ensures r.Some? ==> k <= r.value && NameMatches(s, n0, r.value)
    ensures r.Some? ==> forall k': nat :: k <= k' < r.value ==> !NameMatches(s, n0, k')
    ensures r.None? ==> forall k': nat :: k <= k' ==> !NameMatches(s, n0, k')
    decreases |s| - n0 - k
  {
    if n0 + k > |s| then None
    else if s[n0 + k - 1] == '/' then SlashEndsName(s, n0, k); None
    else if IsLibSuffix(s[n0 + k..]) then Some(k)
    else
      assert !NameMatches(s, n0, k);
      ShortestName(s, n0, k + 1)
  }

  /** a slash inside the first `k` characters rules out every longer name */
  lemma SlashEndsName(s: string, n0: nat, k: nat)
    requires 1 <= k && n0 + k <= |s| && s[n0 + k - 1] == '/'
    ensures forall k': nat :: k <= k' ==> !NameMatches(s, n0, k')
  {
    forall k': nat | k <= k' ensures !NameMatches(s, n0, k') {
      assert n0 <= n0 + k - 1 < n0 + k';
    }
  }

  /** The leftmost start at or after `i` where the regex matches, with its name length */
  function LeftmostMatch(s: string, i: nat): (r: Option<(nat, nat)>)
    ensures r.Some? ==> i <= r.value.0 && MatchesAt(s, r.value.0, r.value.1)
    ensures r.Some? ==> forall i': nat, k': nat :: i <= i' < r.value.0 ==> !MatchesAt(s, i', k')
    ensures r.Some? ==> forall k': nat :: k' < r.value.1 ==> !MatchesAt(s, r.value.0, k')
    ensures r.None? ==> forall i': nat, k': nat :: i <= i' ==> !MatchesAt(s, i', k')
    decreases |s| - i
  {
    if i + 3 > |s| then None
    else if s[i..i + 3] == "lib" && ShortestName(s, i + 3, 1).Some? then
      Some((i, ShortestName(s, i + 3, 1).value))
    else LeftmostMatch(s, i + 1)
  }

  /** `re.captures_iter(s).next()`: the first match and its group */
  function LibPathCaptures(s: string): (r: Option<Captures>)
    ensures r.None? <==> forall i: nat, k: nat :: !MatchesAt(s, i, k)
    ensures r.Some? ==> exists i: nat, k: nat :: IsLeftmostShortest(s, i, k)
                          && r.value == Captures(s[i..], s[i + 3..i + 3 + k])
  {
    match LeftmostMatch(s, 0)
    case None => None
    case Some((i, k)) =>
      assert IsLeftmostShortest(s, i, k);
      Some(Captures(s[i..], s[i + 3..i + 3 + k]))
  }

  /** `is_dylib_path`: a `-l` flag, a `-L` flag, a library file, or nothing.
      The prefix tests come first, so a flag is never tested against the regex. */
  function IsDylibPath(s: string): (r: Option<LinkArg>)
    ensures StartsWith(s, "-l") ==> r == Some(LinkLib(s[2..]))
    ensures !StartsWith(s, "-l") && StartsWith(s, "-L") ==> r == Some(LinkDir(s[2..]))
    ensures !StartsWith(s, "-l") && !StartsWith(s, "-L") ==>
              && (r.Some? <==> exists i: nat, k: nat :: MatchesAt(s, i, k))
              && (r.Some? ==> r.value.Path?)
    ensures r.Some? && r.value.Path? ==>
              && r.value.info.path == s
              && exists i: nat, k: nat :: IsLeftmostShortest(s, i, k)
                   && r.value.info.basename == s[i..]
                   && r.value.info.libname == s[i + 3..i + 3 + k]
  {
    FindAtZero(s, "-l");
    FindAtZero(s, "-L");
    if Find(s, "-l") == Some(0) then Some(LinkLib(s[2..]))
    else if Find(s, "-L") == Some(0) then Some(LinkDir(s[2..]))
    else match LibPathCaptures(s)
      case Some(c) => Some(Path(DylibPathInfo(s, c.group0, c.group1)))
      case None => None
  }
}

/** What the Unix classifier promises about library file names. */
module UnixMatcherFacts {
  import opened Wrappers
  import opened Text
  import opened LinkArgs
  import opened UnixMatcher

  /** The number of characters of `t` that are not digits */
  function NonDigits(t: string): (n: nat)
    ensures n <= |t|
  {
    if |t| == 0 then 0 else (if IsDigit(t[0]) then 0 else 1) + NonDigits(t[1..])
  }

  lemma {:induction false} NonDigitsSuffix(t: string, x: nat)
    requires x <= |t|
    ensures NonDigits(t[x..]) <= NonDigits(t)
    decreases x
  {
    if x > 0 {
      NonDigitsSuffix(t[1..], x - 1);
      assert t[1..][x - 1..] == t[x..];
    }
  }

  /** each `.\d+` group holds at most one non-digit: its `.` */
  lemma {:induction false} VersionGroupsNonDigits(t: string, groups: nat)
    requires VersionGroups(t, groups)
    ensures NonDigits(t) <= groups
    decreases |t|, groups, 0
  {
    if groups > 0 {
      MoreDigitsNonDigits(t[2..], groups);
      assert t[1..][1..] == t[2..];
    }
  }

  lemma {:induction false} MoreDigitsNonDigits(t: string, groups: nat)
    requires groups >= 1 && MoreDigits(t, groups)
    ensures NonDigits(t) <= groups - 1
    decreases |t|, groups, 1
  {
    if VersionGroups(t, groups - 1) {
      VersionGroupsNonDigits(t, groups - 1);
    } else {
      MoreDigitsNonDigits(t[1..], groups);
    }
  }

  /** groups never put two non-digits side by side */
  lemma {:induction false} VersionGroupsAdjacent(t: string, groups: nat, j: nat)
    requires VersionGroups(t, groups) && j + 1 < |t|
    ensures IsDigit(t[j]) || IsDigit(t[j + 1])
    decreases |t|, groups, 0
  {
    if j >= 2 {
      MoreDigitsAdjacent(t[2..], groups, j - 2);
    }
  }

  lemma {:induction false} MoreDigitsAdjacent(t: string, groups: nat, j: nat)
    requires groups >= 1 && MoreDigits(t, groups) && j + 1 < |t|
    ensures IsDigit(t[j]) || IsDigit(t[j + 1])
    decreases |t|, groups, 1
  {
    if VersionGroups(t, groups - 1) {
      VersionGroupsAdjacent(t, groups - 1, j);
    } else if j >= 1 {
      MoreDigitsAdjacent(t[1..], groups, j - 1);
    }
  }

  /** A directory prefix of a link.txt token: empty, or ending in a slash and
      not starting like a `-l`/`-L` flag */
  predicate IsDirPrefix(dir: string) {
    |dir| == 0 || (dir[|dir| - 1] == '/' && dir[0] != '-')
  }

  /** no match can start inside a directory prefix: it would have to carry the
      file's `lib` through the version groups */
  lemma NoMatchInDir(s: string, dir: string, rest: string, i: nat, k: nat)
    requires s == dir + rest && IsDirPrefix(dir) && StartsWith(rest, "li") && |rest| > 6
    requires i < |dir|
    ensures !MatchesAt(s, i, k)
  {
    if MatchesAt(s, i, k) {
      var a := |dir|;
      var x := i + 3 + k;
      assert s[a - 1] == '/' && s[a] == 'l' && s[a + 1] == 'i';
      assert i + 3 <= a - 1 by {
        assert forall j :: i <= j < i + 3 ==> s[j] == s[i..i + 3][j - i];
      }
      assert x <= a - 1 by {
        assert forall j :: i + 3 <= j < x ==> s[j] != '/';
      }
      var t := s[x..];
      assert t[a - x] == 'l' && t[a - x + 1] == 'i';
      var g: nat :| 1 <= g <= 3 && VersionGroups(t[3..], g) && t[..3] == ".so" by {
        assert |t| > 6;
      }
      assert a - x >= 3 by {
        assert t[0] == '.' && t[1] == 's' && t[2] == 'o' by {
          assert t[..3][0] == t[0] && t[..3][1] == t[1] && t[..3][2] == t[2];
        }
      }
      assert t[3..][a - x - 3] == t[a - x] && t[3..][a - x - 2] == t[a - x + 1];
      VersionGroupsAdjacent(t[3..], g, a - x - 3);
      assert false;
    }
  }

  /** the regex reports one match at most */
  lemma LeftmostShortestUnique(s: string, i: nat, k: nat, i2: nat, k2: nat)
    requires IsLeftmostShortest(s, i, k) && IsLeftmostShortest(s, i2, k2)
    ensures i == i2 && k == k2
  {
    assert MatchesAt(s, i, k) && MatchesAt(s, i2, k2);
    assert !(i2 < i);
    assert !(i < i2);
    assert !(k2 < k);
    assert !(k < k2);
  }

  /** A token that is not a `-l`/`-L` flag and has no `lib` in it is dropped */
  lemma NoLibNotClassified(s: string)
    requires !StartsWith(s, "-l") && !StartsWith(s, "-L") && !Contains(s, "lib")
    ensures IsDylibPath(s) == None
  {
    forall i: nat, k: nat ensures !MatchesAt(s, i, k) {
      assert !OccursAt(s, "lib", i);
    }
  }

  /** the leftmost-shortest match decides the classification */
  lemma ClassifiedByMatch(s: string, i: nat, k: nat)
    requires !StartsWith(s, "-l") && !StartsWith(s, "-L")
    requires IsLeftmostShortest(s, i, k)
    ensures IsDylibPath(s) == Some(Path(DylibPathInfo(s, s[i..], s[i + 3..i + 3 + k])))
  {
    CapturedByMatch(s, i, k);
    FindAtZero(s, "-l");
    FindAtZero(s, "-L");
  }

  /** the leftmost-shortest match gives the captures */
  lemma CapturedByMatch(s: string, i: nat, k: nat)
    requires IsLeftmostShortest(s, i, k)
    ensures LibPathCaptures(s) == Some(Captures(s[i..], s[i + 3..i + 3 + k]))
  {
    var c := LibPathCaptures(s);
    assert MatchesAt(s, i, k);
    assert c.Some?;
    var i2: nat, k2: nat :| IsLeftmostShortest(s, i2, k2) && c.value == Captures(s[i2..], s[i2 + 3..i2 + 3 + k2]);
    LeftmostShortestUnique(s, i, k, i2, k2);
  }

  /** A library file `lib<name><suffix>` after a directory prefix, with a name
      free of `/` and `.`, classifies as a path whose `basename` is the file
      name and whose `libname` is the name. */
  lemma UnixLibraryFile(dir: string, name: string, suffix: string)
    requires IsDirPrefix(dir) && |name| > 0
    requires forall j :: 0 <= j < |name| ==> name[j] != '/' && name[j] != '.'
    requires IsLibSuffix(suffix)
    ensures IsDylibPath(dir + "lib" + name + suffix)
              == Some(Path(DylibPathInfo(dir + "lib" + name + suffix, "lib" + name + suffix, name)))
  {
    var s := dir + "lib" + name + suffix;
    LibraryFilePieces(s, dir, name, suffix);
    LibraryFileReported(s, dir, name, suffix);
    ClassifiedByMatch(s, |dir|, |name|);
  }

  /** the file name and the name inside it, and the token is no flag */
  lemma LibraryFilePieces(s: string, dir: string, name: string, suffix: string)
    requires s == dir + "lib" + name + suffix && IsDirPrefix(dir)
    ensures s[|dir|..] == "lib" + name + suffix
    ensures s[|dir| + 3..|dir| + 3 + |name|] == name
    ensures !StartsWith(s, "-l") && !StartsWith(s, "-L")
  {
    PiecesOfConcat(dir, "lib", name, suffix);
    DirPrefixNoFlag(s, dir, "lib" + name + suffix);
  }

  /** the pieces of a four-part concatenation, by position */
  lemma PiecesOfConcat<T>(a: seq<T>, b: seq<T>, c: seq<T>, d: seq<T>)
    ensures (a + b + c + d)[|a|..] == b + c + d
    ensures (a + b + c + d)[|a| + |b|..|a| + |b| + |c|] == c
  {
    assert a + b + c + d == a + (b + c + d);
    assert (a + b + c + d)[|a| + |b|..|a| + |b| + |c|] == (b + c + d)[|b|..|b| + |c|];
  }

  /** the match right after the directory is the one reported */
  lemma LibraryFileReported(s: string, dir: string, name: string, suffix: string)
    requires s == dir + "lib" + name + suffix && IsDirPrefix(dir) && |name| > 0
    requires forall j :: 0 <= j < |name| ==> name[j] != '/' && name[j] != '.'
    requires IsLibSuffix(suffix)
    ensures IsLeftmostShortest(s, |dir|, |name|)
  {
    var rest := "lib" + name + suffix;
    assert s == dir + rest;
    assert StartsWith(rest, "li") && |rest| > 6 by {
      assert |suffix| >= 3;
      assert rest[..2] == "li";
    }
    LibraryFileMatches(s, dir, name, suffix);
    forall i: nat, k: nat | i < |dir| ensures !MatchesAt(s, i, k) {
      NoMatchInDir(s, dir, rest, i, k);
    }
  }

  /** a token that starts with a directory prefix or with `lib` is no flag */
  lemma DirPrefixNoFlag(s: string, dir: string, rest: string)
    requires s == dir + rest && IsDirPrefix(dir) && |rest| >= 2 && rest[0] == 'l'
    ensures !StartsWith(s, "-l") && !StartsWith(s, "-L")
  {
    if |dir| == 0 { assert s[0] == rest[0]; } else { assert s[0] == dir[0]; }
    assert s[..2][0] == s[0];
  }

  /** the file name matches right after the directory, and no shorter name does */
  lemma LibraryFileMatches(s: string, dir: string, name: string, suffix: string)
    requires s == dir + "lib" + name + suffix && |name| > 0
    requires forall j :: 0 <= j < |name| ==> name[j] != '/' && name[j] != '.'
    requires IsLibSuffix(suffix)
    ensures MatchesAt(s, |dir|, |name|)
    ensures forall k: nat :: k < |name| ==> !MatchesAt(s, |dir|, k)
    ensures s[|dir| + 3..|dir| + 3 + |name|] == name
  {
    var a := |dir|;
    assert s[a..a + 3] == "lib";
    assert s[a + 3..a + 3 + |name|] == name;
    assert s[a + 3 + |name|..] == suffix;
    forall k: nat | k < |name| ensures !MatchesAt(s, a, k) {
      if 1 <= k {
        assert s[a + 3..a + 3 + |name|][k] == s[a + 3 + k];
        assert s[a + 3 + k..][0] == name[k];
        NoDotNoSuffix(s[a + 3 + k..]);
      }
    }
  }

  /** every library suffix starts with a dot */
  lemma NoDotNoSuffix(t: string)
    requires |t| > 0 && t[0] != '.'
    ensures !IsLibSuffix(t)
  {
    assert !StartsWith(t, ".so") by {
      if |t| >= 3 {
        assert t[..3][0] == t[0];
      }
    }
  }

  lemma VersionedSuffix(t: string)
    requires t == ".so.2.1.0"
    ensures IsLibSuffix(t)
  {
    assert MoreDigits("", 1);
    assert ".0"[2..] == "";
    assert VersionGroups(".0", 1);
    assert MoreDigits(".0", 2);
    assert ".1.0"[2..] == ".0";
    assert VersionGroups(".1.0", 2);
    assert MoreDigits(".1.0", 3);
    assert ".2.1.0"[2..] == ".1.0";
    assert VersionGroups(".2.1.0", 3);
    assert t[3..] == ".2.1.0";
  }

  /** `/usr/local/lib/libfoo.so.2.1.0` links `foo`; its file name is `libfoo.so.2.1.0` */
  lemma UnixVersionedExample(dir: string, name: string, suffix: string)
    requires dir == "/usr/local/lib/" && name == "foo" && suffix == ".so.2.1.0"
    ensures IsDylibPath(dir + "lib" + name + suffix)
              == Some(Path(DylibPathInfo(dir + "lib" + name + suffix, "lib" + name + suffix, name)))
  {
    VersionedSuffix(suffix);
    UnixLibraryFile(dir, name, suffix);
  }

  /** a text made of dots and digits: every character is `.` or a digit */
  predicate IsDottedNumber(v: string) {
    forall j :: 0 <= j < |v| ==> v[j] == '.' || IsDigit(v[j])
  }

  /** version groups that end with `v` have at least as many non-digits as `v` */
  lemma CoveringGroups(u: string, v: string, y: nat)
    requires y <= |u| && u[y..] == v && NonDigits(v) >= 4
    ensures forall g: nat :: 1 <= g <= 3 ==> !VersionGroups(u, g)
  {
    NonDigitsSuffix(u, y);
    forall g: nat | 1 <= g <= 3 ensures !VersionGroups(u, g) {
      if VersionGroups(u, g) { VersionGroupsNonDigits(u, g); }
    }
  }

  /** starting at or before the `.so`, the version groups would have to
      cover all of `v` */
  lemma NoSuffixBeforeSo(s: string, v: string, x: nat)
    requires EndsWith(s, ".so" + v) && NonDigits(v) >= 4
    requires x + 3 + |v| <= |s|
    ensures !IsLibSuffix(s[x..])
  {
    var b := |s| - |v| - 3;
    var u := s[x + 3..];
    assert u[b - x..] == v by {
      assert s[b..] == ".so" + v;
      assert s[b + 3..] == s[b..][3..];
      assert u[b - x..] == s[b + 3..];
    }
    CoveringGroups(u, v, b - x);
    var t := s[x..];
    assert t[3..] == u && |t| >= 7;
    NoGroupsNoSuffix(t);
  }

  /** a long token whose tail after three characters holds no version groups is no suffix */
  lemma NoGroupsNoSuffix(t: string)
    requires |t| >= 7
    requires forall g: nat :: 1 <= g <= 3 ==> !VersionGroups(t[3..], g)
    ensures !IsLibSuffix(t)
  {
    assert !VersionGroups(t[3..], 1) && !VersionGroups(t[3..], 2) && !VersionGroups(t[3..], 3);
  }

  /** starting after the `.` of `.so`, there is no `s` to begin `.so` with */
  lemma NoSuffixAfterSo(s: string, v: string, x: nat)
    requires EndsWith(s, ".so" + v) && IsDottedNumber(v) && |v| > 0
    requires |s| - |v| - 3 < x <= |s|
    ensures !IsLibSuffix(s[x..])
  {
    var t := s[x..];
    var b := |s| - |v| - 3;
    assert s[b + 3..] == v && s[b + 2] == 'o';
    assert s[|s| - 1] == v[|v| - 1];
    if |t| > 0 {
      assert t[|t| - 1] == s[|s| - 1];
    }
    if |t| >= 2 {
      assert t[1] == s[x + 1];
      if x + 1 >= b + 3 {
        assert s[x + 1] == v[x + 1 - b - 3];
      }
    }
  }

  /** A token that is no flag and ends in `.so` followed by four or more
      dotted numbers is not a library path */
  lemma TooManyVersionComponents(s: string, v: string)
    requires EndsWith(s, ".so" + v) && IsDottedNumber(v) && NonDigits(v) >= 4
    requires !StartsWith(s, "-l") && !StartsWith(s, "-L")
    ensures IsDylibPath(s) == None
  {
    assert |v| > 0;
    forall i: nat, k: nat ensures !MatchesAt(s, i, k) {
      var x := i + 3 + k;
      if x + 3 + |v| <= |s| {
        NoSuffixBeforeSo(s, v, x);
      } else if x <= |s| {
        NoSuffixAfterSo(s, v, x);
      }
    }
  }

  /** `/usr/local/lib/libfoo.so.2.1.0.4` has four version components and is ignored */
  lemma UnixFourComponentsExample(stem: string, v: string)
    requires stem == "/usr/local/lib/libfoo" && v == ".2.1.0.4"
    ensures IsDylibPath(stem + ".so" + v) == None
  {
    var s := stem + ".so" + v;
    assert s[|s| - |".so" + v|..] == ".so" + v;
    assert NonDigits("4") == 0;
    assert NonDigits(".4") == 1;
    assert NonDigits("0.4") == 1;
    assert NonDigits(".0.4") == 2;
    assert NonDigits("1.0.4") == 2;
    assert NonDigits(".1.0.4") == 3;
    assert NonDigits("2.1.0.4") == 3;
    assert NonDigits(v) == 4;
    assert s[0] == '/';
    TooManyVersionComponents(s, v);
  }

  /** the last character of version groups is a digit */
  lemma {:induction false} VersionGroupsEnd(t: string, groups: nat)
    requires groups >= 1 && VersionGroups(t, groups)
    ensures IsDigit(t[|t| - 1])
    decreases |t|, groups, 0
  {
    MoreDigitsEnd(t[2..], groups);
    if |t| > 2 {
      assert t[2..][|t[2..]| - 1] == t[|t| - 1];
    }
  }

  lemma {:induction false} MoreDigitsEnd(t: string, groups: nat)
    requires groups >= 1 && MoreDigits(t, groups)
    ensures |t| > 0 ==> IsDigit(t[|t| - 1])
    decreases |t|, groups, 1
  {
    if VersionGroups(t, groups - 1) {
      if groups - 1 >= 1 { VersionGroupsEnd(t, groups - 1); }
    } else {
      MoreDigitsEnd(t[1..], groups);
      if |t| > 1 {
        assert t[1..][|t[1..]| - 1] == t[|t| - 1];
      }
    }
  }

  /** a library suffix ends in `b`, `o` or a digit, never in a line break */
  lemma LibSuffixEnd(t: string)
    requires IsLibSuffix(t)
    ensures |t| > 0 && t[|t| - 1] != '\n'
  {
    if t != ".dylib" && t != ".so" {
      var g :| 1 <= g <= 3 && VersionGroups(t[3..], g);
      VersionGroupsEnd(t[3..], g);
      assert t[3..][|t[3..]| - 1] == t[|t| - 1];
    }
  }

  /** A token that still carries a line break at its end (the last token of a
      link.txt that ends with a newline) is never reported as a library path */
  lemma TrailingNewlineNotPath(s: string)
    requires |s| > 0 && s[|s| - 1] == '\n'
    ensures IsDylibPath(s).None? || !IsDylibPath(s).value.Path?
  {
    forall i: nat, k: nat ensures !MatchesAt(s, i, k) {
      var x := i + 3 + k;
      if x < |s| {
        var t := s[x..];
        assert t[|t| - 1] == s[|s| - 1];
        if IsLibSuffix(t) { LibSuffixEnd(t); }
      }
    }
    assert !exists i: nat, k: nat :: MatchesAt(s, i, k);
  }
}
