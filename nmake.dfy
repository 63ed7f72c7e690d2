/** `get_linking_from_nmake`: the NMake `build.make` of the wrapper library
    holds the linker's response file inline, between the `/dll` option and
    the `<<` that closes it; the entries there are the libraries. */
module NMake {
  import opened Wrappers
  import opened Text
  import opened LinkArgs
  import opened WindowsMatcher
  import WindowsMatcherFacts

  const Marker := "/dll"
  const Close := "<<"

  /** The tokens after the first `marker`; none when it does not occur */
  function AfterFirst(tokens: seq<string>, marker: string): (rest: seq<string>)
    ensures |rest| <= |tokens| && rest == tokens[|tokens| - |rest|..]
    decreases |tokens|
  {
    if |tokens| == 0 then []
    else if tokens[0] == marker then tokens[1..]
    else AfterFirst(tokens[1..], marker)
  }

  /** The tokens before the first `stop`; all of them when it does not occur */
  function UpTo(tokens: seq<string>, stop: string): (prefix: seq<string>)
    ensures stop !in prefix
    ensures |prefix| <= |tokens| && prefix == tokens[..|prefix|]
    decreases |tokens|
  {
    if |tokens| == 0 || tokens[0] == stop then []
    else [tokens[0]] + UpTo(tokens[1..], stop)
  }

  /** The tokens other than `t`, in order */
  function Without(tokens: seq<string>, t: string): (rest: seq<string>)
    ensures t !in rest
    ensures forall x :: x in rest ==> x in tokens
    decreases |tokens|
  {
    if |tokens| == 0 then []
    else if tokens[0] == t then Without(tokens[1..], t)
    else [tokens[0]] + Without(tokens[1..], t)
  }

  /** What is left of the response file once the marker has been seen: the
      tokens up to the closing `<<`, repeated markers skipped */
  function Remainder(tokens: seq<string>): (rest: seq<string>)
    ensures Marker !in rest && Close !in rest
    ensures forall x :: x in rest ==> x in tokens
  {
    assert forall x :: x in UpTo(tokens, Close) ==> x in tokens;
    Without(UpTo(tokens, Close), Marker)
  }

  /** The tokens of the response file: after the first `/dll`, before the
      first `<<` that follows it, with no `/dll` among them */
  function Section(tokens: seq<string>): (section: seq<string>)
    ensures Marker !in section && Close !in section
    ensures forall x :: x in section ==> x in tokens
  {
    assert forall x :: x in AfterFirst(tokens, Marker) ==> x in tokens;
    Remainder(AfterFirst(tokens, Marker))
  }

  /** The libraries of a readable `build.make`: the classified entries of
      the response file found among its whitespace-separated tokens */
  function NMakeLibs(text: string): (libs: seq<LinkArg>)
    ensures OnlyPaths(libs)
  {
    WindowsMatcherFacts.OnlyPathsFromTokens(Section(SplitWhitespace(text)));
    FilterMap(IsDllLibPath, Section(SplitWhitespace(text)))
  }

  /** What `get_linking_from_nmake` gives for the contents of `build.make`,
      `None` when it cannot be read */
  function NMakeLinking(buildMake: Option<string>): (r: Option<seq<LinkArg>>)
    ensures r.Some? <==> buildMake.Some?
    ensures r.Some? ==> OnlyPaths(r.value)
  {
    match buildMake
    case None => None
    case Some(text) =>
      WindowsMatcherFacts.OnlyPathsFromTokens(Section(SplitWhitespace(text)));
      Some(NMakeLibs(text))
  }

  /** The scan over the tokens of `build.make` with the `found_slash_dll` flag */
  method GetLinkingFromNMake(buildMake: Option<string>) returns (r: Option<seq<LinkArg>>)
    ensures r == NMakeLinking(buildMake)
  {
    if buildMake.None? {
      return None;
    }
    var libs := ScanTokens(IsDllLibPath, SplitWhitespace(buildMake.value));
    return Some(libs);
  }

  /** The loop over the whitespace-separated tokens of `build.make`, for the
      classifier `classify` (`is_dll_lib_path` in the scanner itself) */
  method ScanTokens(classify: string -> Option<LinkArg>, tokens: seq<string>) returns (libs: seq<LinkArg>)
    ensures libs == FilterMap(classify, Section(tokens))
  {
    var foundSlashDll := false;
    libs := [];
    var i := 0;
    while i < |tokens|
      invariant 0 <= i <= |tokens|
      invariant libs + Scanned(classify, tokens[i..], foundSlashDll) == Scanned(classify, tokens, false)
    {
      var tok := tokens[i];
      assert tokens[i..][1..] == tokens[i + 1..];
      if foundSlashDll && tok == Close {
        break;
      }
      ghost var next := Scanned(classify, tokens[i + 1..], foundSlashDll || tok == Marker);
      AppendAssociative(libs, Emitted(classify, tok, foundSlashDll), next);
      foundSlashDll, libs := ScanToken(classify, tok, foundSlashDll, libs);
      i := i + 1;
    }
    assert libs + [] == libs;
    ScannedIsSection(classify, tokens, false);
  }

  /** One token other than a `<<` that closes the response file: the marker
      sets the flag; after it, an entry is classified and kept if it is a
      library */
  method ScanToken(classify: string -> Option<LinkArg>, tok: string, found: bool, libs: seq<LinkArg>)
    returns (found': bool, libs': seq<LinkArg>)
    requires !(found && tok == Close)
    ensures found' == (found || tok == Marker)
    ensures libs' == libs + Emitted(classify, tok, found)
  {
    found', libs' := found, libs;
    if tok == Marker {
      found' := true;
    } else if found {
      var dlp := classify(tok);
      if dlp.Some? {
        libs' := libs + [dlp.value];
      }
    }
  }

  /** What one token adds to the collection: the classification of an entry
      of the response file, nothing for any other token */
  function Emitted(classify: string -> Option<LinkArg>, tok: string, found: bool): seq<LinkArg> {
    if found && tok != Marker && classify(tok).Some? then [classify(tok).value] else []
  }

  /** The scan as a recursive function: what the loop collects from the
      tokens on, given whether the marker has been seen */
  function Scanned(classify: string -> Option<LinkArg>, tokens: seq<string>, found: bool): seq<LinkArg>
    decreases |tokens|
  {
    if |tokens| == 0 || (found && tokens[0] == Close) then []
    else Emitted(classify, tokens[0], found) + Scanned(classify, tokens[1..], found || tokens[0] == Marker)
  }

  /** The tokens still to be collected from `tokens` on, given whether the
      marker has been seen */
  function Pending(tokens: seq<string>, found: bool): seq<string> {
    if found then Remainder(tokens) else Section(tokens)
  }

  /** The scan collects exactly the classified entries of the section */
  lemma {:induction false} ScannedIsSection(classify: string -> Option<LinkArg>, tokens: seq<string>, found: bool)
    ensures Scanned(classify, tokens, found) == FilterMap(classify, Pending(tokens, found))
    decreases |tokens|
  {
    if |tokens| == 0 {
    } else if found && tokens[0] == Close {
      PendingAtClose(tokens);
    } else {
      Turn(classify, tokens, found);
      ScannedIsSection(classify, tokens[1..], found || tokens[0] == Marker);
    }
  }

  /** One turn of the scan, for any token but the `<<` that ends the section */
  lemma Turn(classify: string -> Option<LinkArg>, tokens: seq<string>, found: bool)
    requires |tokens| > 0 && !(found && tokens[0] == Close)
    ensures FilterMap(classify, Pending(tokens, found))
            == Emitted(classify, tokens[0], found) + FilterMap(classify, Pending(tokens[1..], found || tokens[0] == Marker))
  {
    if tokens[0] == Marker {
      assert Pending(tokens, found) == Pending(tokens[1..], true);
    } else if found {
      assert Pending(tokens, true) == [tokens[0]] + Remainder(tokens[1..]);
      FilterMapCons(classify, tokens[0], Remainder(tokens[1..]));
    } else {
      assert Pending(tokens, false) == Pending(tokens[1..], false);
    }
  }

  /** A `<<` after the marker ends the section */
  lemma PendingAtClose(tokens: seq<string>)
    requires |tokens| > 0 && tokens[0] == Close
    ensures Pending(tokens, true) == []
  {
  }
}

/** What the `build.make` scanner promises. */
module NMakeFacts {
  import opened Wrappers
  import opened Text
  import opened LinkArgs
  import opened WindowsMatcher
  import opened WindowsMatcherFacts
  import opened NMake

  /** Without a `/dll` marker nothing is collected */
  lemma {:induction false} NoMarkerNoSection(tokens: seq<string>)
    requires Marker !in tokens
    ensures Section(tokens) == []
    decreases |tokens|
  {
    if |tokens| > 0 {
      assert tokens[0] != Marker;
      assert forall t :: t in tokens[1..] ==> t in tokens;
      NoMarkerNoSection(tokens[1..]);
    }
  }

  /** Tokens before the first `/dll` are ignored */
  lemma {:induction false} BeforeMarkerIgnored(head: seq<string>, rest: seq<string>)
    requires Marker !in head
    ensures Section(head + [Marker] + rest) == Remainder(rest)
    decreases |head|
  {
    var tokens := head + [Marker] + rest;
    if |head| == 0 {
      assert tokens == [Marker] + rest && tokens[1..] == rest;
    } else {
      assert head[0] in head;
      assert tokens[1..] == head[1..] + [Marker] + rest;
      assert forall t :: t in head[1..] ==> t in head;
      BeforeMarkerIgnored(head[1..], rest);
    }
  }

  /** Collection stops at the first `<<`: nothing after it is read */
  lemma {:induction false} CloseEndsSection(entries: seq<string>, post: seq<string>)
    requires Close !in entries
    ensures Remainder(entries + [Close] + post) == Without(entries, Marker)
    decreases |entries|
  {
    var tokens := entries + [Close] + post;
    if |entries| == 0 {
      assert tokens[0] == Close;
    } else {
      assert entries[0] in entries;
      assert tokens[0] == entries[0];
      assert tokens[1..] == entries[1..] + [Close] + post;
      assert forall t :: t in entries[1..] ==> t in entries;
      CloseEndsSection(entries[1..], post);
    }
  }

  /** The section of a response file: the entries between the first `/dll`
      and the `<<` after it, markers left out, in order */
  lemma ResponseFileSection(head: seq<string>, entries: seq<string>, post: seq<string>)
    requires Marker !in head && Close !in entries
    ensures Section(head + [Marker] + entries + [Close] + post) == Without(entries, Marker)
  {
    var rest := entries + [Close] + post;
    CloseEndsSection(entries, post);
    BeforeMarkerIgnored(head, rest);
    AppendAssociative(head + [Marker], entries + [Close], post);
    AppendAssociative(head + [Marker], entries, [Close]);
  }

  /** The marker itself would never classify as a library either */
  lemma MarkerIsNoLibrary()
    ensures IsDllLibPath(Marker) == None
  {
    assert forall j :: 0 <= j < |Marker| ==> Marker[j] != '\\';
    BareLibIgnored(Marker);
  }

  /** A `build.make` laid out as words with any whitespace between them
      (spaces, tabs, line breaks, runs of them) is scanned word by word */
  lemma LibsOfWords(lead: string, words: seq<string>, gaps: seq<string>)
    requires IsLayout(lead, words, gaps)
    ensures NMakeLibs(lead + Spaced(words, gaps)) == FilterMap(IsDllLibPath, Section(words))
  {
    SplitWhitespaceOfLayout(lead, words, gaps);
  }

  /** The response file `foo.obj /dll C:\libs\bar.lib kernel32.lib` closed by
      `<<` links `bar` only: `kernel32.lib` has no directory, and what
      follows `<<` is not read */
  lemma NMakeExample(tokens: seq<string>, dir: string, name: string, post: seq<string>)
    requires dir == "C:\\libs" && name == "bar"
    requires tokens == ["link.exe", "/nologo", "@<<", "foo.obj", Marker, dir + "\\" + name + ".lib",
                        "kernel32.lib", Close] + post
    ensures FilterMap(IsDllLibPath, Section(tokens))
            == [Path(DylibPathInfo(dir + "\\" + name + ".lib", dir + "\\" + name + ".lib", "bar"))]
  {
    var path := dir + "\\" + name + ".lib";
    var head := ["link.exe", "/nologo", "@<<", "foo.obj"];
    var entries := [path, "kernel32.lib"];
    assert tokens == head + [Marker] + entries + [Close] + post;
    assert Marker !in head && Close !in entries by {
      assert path[0] == 'C';
    }
    ResponseFileSection(head, entries, post);
    ExampleEntries(dir, name, entries);
  }

  lemma ExampleEntries(dir: string, name: string, entries: seq<string>)
    requires dir == "C:\\libs" && name == "bar"
    requires entries == [dir + "\\" + name + ".lib", "kernel32.lib"]
    ensures FilterMap(IsDllLibPath, Without(entries, Marker))
            == [Path(DylibPathInfo(dir + "\\" + name + ".lib", dir + "\\" + name + ".lib", "bar"))]
  {
    var path := dir + "\\" + name + ".lib";
    assert entries[1..] == ["kernel32.lib"] && entries[1..][1..] == [];
    assert path != Marker by {
      assert path[0] != Marker[0];
    }
    assert Without(["kernel32.lib"], Marker) == ["kernel32.lib"];
    assert Without(entries, Marker) == entries;
    WindowsLibExample(dir, name);
    KernelLibIgnored("kernel32.lib");
    assert FilterMap(IsDllLibPath, entries[1..]) == [];
  }

  lemma KernelLibIgnored(t: string)
    requires t == "kernel32.lib"
    ensures IsDllLibPath(t) == None
  {
    assert forall j :: 0 <= j < |t| ==> t[j] != '\\';
    BareLibIgnored(t);
  }
}
