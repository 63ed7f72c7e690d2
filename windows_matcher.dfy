/** The Windows token classifier `is_dll_lib_path` and the regex
    `(?:.*\\(.*))(\.lib)$` it applies, whose `.` stands for any character
    except a newline. */
module WindowsMatcher {
  import opened Wrappers
  import opened Text
  import opened LinkArgs

  /** the regex matches `s[p..]` with its backslash at `q` */
  predicate MatchesAt(s: string, p: nat, q: nat) {
    p <= q && q + 5 <= |s| && s[q] == '\\' && s[|s| - 4..] == ".lib"
    && forall j :: p <= j < |s| ==> s[j] != '\n'
  }

  /** the match the engine reports: the leftmost start, and the greedy `.*`
      puts the backslash as far right as it can go */
  ghost predicate IsLeftmostGreedy(s: string, p: nat, q: nat) {
    MatchesAt(s, p, q)
    && (forall p': nat, q': nat :: p' < p ==> !MatchesAt(s, p', q'))
    && (forall q': nat :: q < q' ==> !MatchesAt(s, p, q'))
  }

  /** The start of the last line of `s` */
  function LineStart(s: string): (p: nat)
    ensures p <= |s| && forall j :: p <= j < |s| ==> s[j] != '\n'
    ensures p > 0 ==> s[p - 1] == '\n'
  {
    match LastIndexOf(s, '\n')
    case None => 0
    case Some(n) => n + 1
  }

  /** `re.captures_iter(s).next()` */
  function LibCaptures(s: string): (r: Option<Captures>)
    ensures r.None? <==> forall p: nat, q: nat :: !MatchesAt(s, p, q)
    ensures r.Some? ==> exists p: nat, q: nat :: IsLeftmostGreedy(s, p, q)
                          && r.value == Captures(s[p..], s[q + 1..|s| - 4])
    ensures r.Some? ==> GroupShapes(s, r.value)
  {
    if !EndsWith(s, ".lib") then
      assert forall p: nat, q: nat :: !MatchesAt(s, p, q);
      None
    else LastLineCaptures(s)
  }

  /** The captures of a token that ends in `.lib`: the match starts at its
      last line and its backslash is the last one before the `.lib` */
  function LastLineCaptures(s: string): (r: Option<Captures>)
    requires EndsWith(s, ".lib")
    ensures r.None? <==> forall p: nat, q: nat :: !MatchesAt(s, p, q)
    ensures r.Some? ==> exists p: nat, q: nat :: IsLeftmostGreedy(s, p, q)
                          && r.value == Captures(s[p..], s[q + 1..|s| - 4])
    ensures r.Some? ==> GroupShapes(s, r.value)
  {
    var p := LineStart(s);
    match LastIndexOf(s[..|s| - 4], '\\')
    case None =>
      NoBackslashNoMatch(s);
      None
    case Some(q) =>
      if q < p then
        BackslashOnEarlierLine(s, p, q);
        None
      else
        ReportedMatch(s, p, q);
        Some(Captures(s[p..], s[q + 1..|s| - 4]))
  }

  /** The match at the start of the last line, with the last backslash before
      `.lib`, is the one reported */
  lemma ReportedMatch(s: string, p: nat, q: nat)
    requires EndsWith(s, ".lib") && p == LineStart(s) && LastIndexOf(s[..|s| - 4], '\\') == Some(q)
    requires p <= q
    ensures !forall p': nat, q': nat :: !MatchesAt(s, p', q')
    ensures exists p': nat, q': nat :: IsLeftmostGreedy(s, p', q')
              && Captures(s[p..], s[q + 1..|s| - 4]) == Captures(s[p'..], s[q' + 1..|s| - 4])
    ensures GroupShapes(s, Captures(s[p..], s[q + 1..|s| - 4]))
  {
    LastBackslashMatches(s, p, q);
    LeftmostGreedyShapes(s, p, q);
    assert MatchesAt(s, p, q);
  }

  lemma NoBackslashNoMatch(s: string)
    requires EndsWith(s, ".lib") && LastIndexOf(s[..|s| - 4], '\\').None?
    ensures forall p: nat, q: nat :: !MatchesAt(s, p, q)
  {
    forall p: nat, q: nat ensures !MatchesAt(s, p, q) {
      if q + 5 <= |s| {
        assert s[..|s| - 4][q] == s[q];
      }
    }
  }

  lemma BackslashOnEarlierLine(s: string, p: nat, q: nat)
    requires EndsWith(s, ".lib") && p == LineStart(s) && LastIndexOf(s[..|s| - 4], '\\') == Some(q)
    requires q < p
    ensures forall p': nat, q': nat :: !MatchesAt(s, p', q')
  {
    forall p': nat, q': nat ensures !MatchesAt(s, p', q') {
      if p' <= q' && q' + 5 <= |s| && s[q'] == '\\' {
        assert s[..|s| - 4][q'] == s[q'];
        assert p' <= p - 1 < |s|;
      }
    }
  }

  lemma LastBackslashMatches(s: string, p: nat, q: nat)
    requires EndsWith(s, ".lib") && p == LineStart(s) && LastIndexOf(s[..|s| - 4], '\\') == Some(q)
    requires p <= q
    ensures IsLeftmostGreedy(s, p, q)
  {
    forall q': nat | q < q' && q' + 5 <= |s| ensures s[q'] != '\\' {
      assert s[..|s| - 4][q'] == s[q'];
    }
    forall p': nat, q': nat | p' < p ensures !MatchesAt(s, p', q') {
      assert s[p - 1] == '\n';
    }
  }

  /** What the groups of the reported match look like: the first group is
      the text between the last backslash and the final `.lib`, and the whole
      match is the last line of the token */
  predicate GroupShapes(s: string, c: Captures) {
    EndsWith(s, "\\" + c.group1 + ".lib") && '\\' !in c.group1
    && EndsWith(s, c.group0) && '\n' !in c.group0
    && (|c.group0| < |s| ==> s[|s| - |c.group0| - 1] == '\n')
  }

  lemma LeftmostGreedyShapes(s: string, p: nat, q: nat)
    requires IsLeftmostGreedy(s, p, q)
    ensures GroupShapes(s, Captures(s[p..], s[q + 1..|s| - 4]))
  {
    var g1 := s[q + 1..|s| - 4];
    assert s[q..] == "\\" + g1 + ".lib";
    forall j | q < j <= |s| - 5 ensures s[j] != '\\' {
      assert !MatchesAt(s, p, j);
    }
    assert forall j :: 0 <= j < |g1| ==> g1[j] == s[q + 1 + j];
    if p > 0 {
      assert !MatchesAt(s, p - 1, q);
      assert s[p - 1] == '\n';
    }
  }

  /** `is_dll_lib_path`: only ever a library path. `libname` is the text
      between the last backslash and the final `.lib`, and `basename` is the
      whole last line of the token. */
  function IsDllLibPath(s: string): (r: Option<LinkArg>)
    ensures r.Some? <==> exists p: nat, q: nat :: MatchesAt(s, p, q)
    ensures r.Some? ==> r.value.Path? && r.value.info.path == s
    ensures r.Some? ==> EndsWith(s, "\\" + r.value.info.libname + ".lib")
                        && '\\' !in r.value.info.libname
    ensures r.Some? ==> EndsWith(s, r.value.info.basename) && '\n' !in r.value.info.basename
                        && (|r.value.info.basename| < |s| ==> s[|s| - |r.value.info.basename| - 1] == '\n')
  {
    match LibCaptures(s)
    case None => None
    case Some(c) =>
      assert GroupShapes(s, c);
      Some(Path(DylibPathInfo(s, c.group0, c.group1)))
  }
}

/** What the Windows classifier promises about tokens and lists of tokens. */
module WindowsMatcherFacts {
  import opened Wrappers
  import opened Text
  import opened LinkArgs
  import opened WindowsMatcher

  /** A library file `<dir>\<name>.lib` on one line links `name`, and the
      whole token is its `basename` */
  lemma WindowsLibraryFile(dir: string, name: string)
    requires '\n' !in dir && '\n' !in name && '\\' !in name
    ensures IsDllLibPath(dir + "\\" + name + ".lib")
              == Some(Path(DylibPathInfo(dir + "\\" + name + ".lib", dir + "\\" + name + ".lib", name)))
  {
    var s := dir + "\\" + name + ".lib";
    var a := |dir|;
    assert s[a] == '\\' && s[|s| - 4..] == ".lib";
    assert forall j :: 0 <= j < |s| ==> s[j] != '\n' by {
      forall j | 0 <= j < |s| ensures s[j] != '\n' {
        if j < a { assert s[j] == dir[j]; }
        else if a < j < a + 1 + |name| { assert s[j] == name[j - a - 1]; }
      }
    }
    assert MatchesAt(s, 0, a);
    var r := IsDllLibPath(s);
    var info := r.value.info;
    var l := info.libname;
    assert s[..|s| - 4] == dir + ['\\'] + name;
    StripEnding(s, l);
    LastSegmentUnique(dir, name, s[..|s| - 5 - |l|], l);
    var b := info.basename;
    assert |b| == |s|;
    assert b == s[|s| - |b|..] == s;
    assert info == DylibPathInfo(s, s, name);
  }

  /** A token ending in `\<l>.lib` is its prefix, a backslash and `l`, before the `.lib` */
  lemma StripEnding(s: string, l: string)
    requires EndsWith(s, "\\" + l + ".lib")
    ensures s[..|s| - 4] == s[..|s| - 5 - |l|] + ['\\'] + l
  {
    var e := s[|s| - 5 - |l|..];
    assert e == ['\\'] + l + ".lib";
    assert e[..|e| - 4] == ['\\'] + l;
    assert s[..|s| - 4] == s[..|s| - 5 - |l|] + e[..|e| - 4];
  }

  /** Two ways of writing a text as a prefix, a backslash and a last segment
      free of backslashes agree on the segment */
  lemma LastSegmentUnique(u: string, x: string, v: string, y: string)
    requires u + ['\\'] + x == v + ['\\'] + y
    requires '\\' !in x && '\\' !in y
    ensures x == y
  {
    var t := u + ['\\'] + x;
    assert forall j :: |u| < j < |t| ==> t[j] != '\\' by {
      forall j | |u| < j < |t| ensures t[j] != '\\' {
        assert t[j] == x[j - |u| - 1];
      }
    }
    assert forall j :: |v| < j < |t| ==> t[j] != '\\' by {
      forall j | |v| < j < |t| ensures t[j] != '\\' {
        assert t[j] == y[j - |v| - 1];
      }
    }
    assert t[|u|] == '\\' && t[|v|] == '\\';
    assert |u| == |v|;
    assert x == t[|u| + 1..] == y;
  }

  /** `C:\libs\bar.lib` links `bar` */
  lemma WindowsLibExample(dir: string, name: string)
    requires dir == "C:\\libs" && name == "bar"
    ensures IsDllLibPath(dir + "\\" + name + ".lib")
              == Some(Path(DylibPathInfo(dir + "\\" + name + ".lib", dir + "\\" + name + ".lib", "bar")))
  {
    WindowsLibraryFile(dir, name);
  }

  /** A token without a backslash, such as a bare `bar.lib`, is ignored */
  lemma BareLibIgnored(s: string)
    requires '\\' !in s
    ensures IsDllLibPath(s) == None
  {
    forall p: nat, q: nat ensures !MatchesAt(s, p, q) {
      if q < |s| { assert s[q] in s; }
    }
  }

  /** Classifying a list of tokens only ever yields library paths */
  lemma {:induction false} OnlyPathsFromTokens(tokens: seq<string>)
    ensures OnlyPaths(FilterMap(IsDllLibPath, tokens))
    decreases |tokens|
  {
    forall t ensures IsDllLibPath(t).Some? ==> IsDllLibPath(t).value.Path? {
    }
    FilterMapOnlyPaths(IsDllLibPath, tokens);
  }
}
