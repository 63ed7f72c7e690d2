/** The Unix `get_linking_from_cmake`: CMake writes the link command of the
    wrapper library to `link.txt`; the arguments after the output file are
    classified one by one with `is_dylib_path`. */
module LinkTxt {
  import opened Wrappers
  import opened Text
  import opened LinkArgs
  import opened UnixMatcher

  /** The tokens that follow the first `-o` and the output file after it.
      With no `-o` every token is consumed, and likewise when `-o` is last. */
  function AfterOutput(tokens: seq<string>): (rest: seq<string>)
    ensures |rest| <= |tokens|
    decreases |tokens|
  {
    if |tokens| == 0 then []
    else if tokens[0] == "-o" then (if |tokens| >= 2 then tokens[2..] else [])
    else AfterOutput(tokens[1..])
  }

  /** The link arguments of a readable `link.txt`: its `' '`-separated tokens
      after the output file, classified in order, unclassified ones dropped */
  function LinkTxtArgs(text: string): (args: seq<LinkArg>)
    ensures |args| <= |Split(text, ' ')|
  {
    FilterMap(IsDylibPath, AfterOutput(Split(text, ' ')))
  }

  /** What `get_linking_from_cmake` gives on Unix for the contents of
      `link.txt`, `None` when the file cannot be read */
  function UnixLinking(linkTxt: Option<string>): (r: Outcome<seq<LinkArg>>)
    ensures r.Panic? <==> linkTxt.None?
    ensures r.Panic? ==> r.reason == LinkTxtUnreadable
  {
    match linkTxt
    case None => Panic(LinkTxtUnreadable)
    case Some(text) => Return(LinkTxtArgs(text))
  }

  /** The Unix `get_linking_from_cmake`: an iterator over the tokens is
      advanced past `-o <file>`, and what remains is classified */
  method GetLinkingFromCMakeUnix(linkTxt: Option<string>) returns (r: Outcome<seq<LinkArg>>)
    ensures r == UnixLinking(linkTxt)
  {
    if linkTxt.None? {
      return Panic(LinkTxtUnreadable);
    }
    var tokens := Split(linkTxt.value, ' ');
    var i := SkipOutput(tokens);
    var args := Collect(IsDylibPath, tokens[i..]);
    return Return(args);
  }

  /** The `while let` loop: the position just after `-o <file>` */
  method SkipOutput(tokens: seq<string>) returns (i: nat)
    ensures i <= |tokens| && tokens[i..] == AfterOutput(tokens)
  {
    i := 0;
    while i < |tokens|
      invariant 0 <= i <= |tokens|
      invariant AfterOutput(tokens[i..]) == AfterOutput(tokens)
    {
      var s := tokens[i];
      assert tokens[i..][1..] == tokens[i + 1..];
      i := i + 1;
      if s == "-o" {
        if i < |tokens| {
          // the token after `-o` names the output and is skipped too
          i := i + 1;
        }
        assert tokens[i..] == AfterOutput(tokens);
        break;
      }
    }
  }
}

/** What the `link.txt` parser promises. */
module LinkTxtFacts {
  import opened Wrappers
  import opened Text
  import opened LinkArgs
  import opened UnixMatcher
  import opened UnixMatcherFacts
  import opened LinkTxt

  /** Without an `-o` nothing is kept */
  lemma {:induction false} NoOutputFlag(tokens: seq<string>)
    requires "-o" !in tokens
    ensures AfterOutput(tokens) == []
    decreases |tokens|
  {
    if |tokens| > 0 {
      assert tokens[0] != "-o";
      assert forall t :: t in tokens[1..] ==> t in tokens;
      NoOutputFlag(tokens[1..]);
    }
  }

  /** Everything up to the first `-o`, the `-o` and the output file are
      dropped, and what follows is kept untouched */
  lemma {:induction false} FirstOutputFlag(head: seq<string>, output: string, rest: seq<string>)
    requires "-o" !in head
    ensures AfterOutput(head + ["-o", output] + rest) == rest
    decreases |head|
  {
    var tokens := head + ["-o", output] + rest;
    if |head| == 0 {
      assert tokens == ["-o", output] + rest;
      assert tokens[2..] == rest;
    } else {
      assert head[0] in head;
      assert tokens[1..] == head[1..] + ["-o", output] + rest;
      assert forall t :: t in head[1..] ==> t in head;
      FirstOutputFlag(head[1..], output, rest);
    }
  }

  /** An `-o` that ends the command line leaves nothing to classify */
  lemma {:induction false} OutputFlagLast(head: seq<string>)
    requires "-o" !in head
    ensures AfterOutput(head + ["-o"]) == []
    decreases |head|
  {
    var tokens := head + ["-o"];
    if |head| > 0 {
      assert head[0] in head;
      assert tokens[1..] == head[1..] + ["-o"];
      assert forall t :: t in head[1..] ==> t in head;
      OutputFlagLast(head[1..]);
    }
  }

  /** Only a later `-o` is skipped over: an `-o` after the first one is
      an ordinary argument */
  lemma LaterOutputFlagKept(head: seq<string>, output: string, rest: seq<string>)
    requires "-o" !in head
    ensures "-o" in rest ==> "-o" in AfterOutput(head + ["-o", output] + rest)
  {
    FirstOutputFlag(head, output, rest);
  }

  /** The kept tokens are classified in order: the arguments of two stretches
      of the command line are the arguments of the first, then of the second */
  lemma ClassifiedInOrder(head: seq<string>, output: string, xs: seq<string>, ys: seq<string>)
    requires "-o" !in head
    ensures FilterMap(IsDylibPath, AfterOutput(head + ["-o", output] + xs + ys))
            == FilterMap(IsDylibPath, xs) + FilterMap(IsDylibPath, ys)
  {
    assert head + ["-o", output] + xs + ys == head + ["-o", output] + (xs + ys);
    FirstOutputFlag(head, output, xs + ys);
    FilterMapAppend(IsDylibPath, xs, ys);
  }

  /** The text is split on single spaces only: a tab does not separate
      arguments, and two spaces in a row give an empty token, which is dropped */
  lemma SingleSpaceSeparator(a: string, b: string)
    requires ' ' !in a && ' ' !in b
    ensures Split(a + "\t" + b, ' ') == [a + "\t" + b]
    ensures Split(a + "  " + b, ' ') == [a, "", b]
    ensures IsDylibPath("") == None
  {
    SplitNoSeparator(a + "\t" + b, ' ');
    DoubleSpace(a, b);
    EmptyTokenDropped();
  }

  lemma DoubleSpace(a: string, b: string)
    requires ' ' !in a && ' ' !in b
    ensures Split(a + "  " + b, ' ') == [a, "", b]
  {
    var t := [' '] + b;
    assert Split(t, ' ') == ["", b] by {
      assert t == "" + [' '] + b;
      SplitAfterPiece("", ' ', b);
      SplitNoSeparator(b, ' ');
    }
    assert Split(a + "  " + b, ' ') == [a] + Split(t, ' ') by {
      assert a + "  " + b == a + [' '] + t;
      SplitAfterPiece(a, ' ', t);
    }
  }

  lemma EmptyTokenDropped()
    ensures IsDylibPath("") == None
  {
    assert !StartsWith("", "-l") && !StartsWith("", "-L");
  }

  /** Every argument of a readable `link.txt` is the classification of one
      of its tokens */
  lemma ArgumentsFromTokens(text: string, k: nat)
    requires k < |LinkTxtArgs(text)|
    ensures exists j :: 0 <= j < |Split(text, ' ')| && IsDylibPath(Split(text, ' ')[j]) == Some(LinkTxtArgs(text)[k])
  {
    var tokens := Split(text, ' ');
    var rest := AfterOutput(tokens);
    FilterMapFrom(IsDylibPath, rest, k);
    var j :| 0 <= j < |rest| && IsDylibPath(rest[j]) == Some(LinkTxtArgs(text)[k]);
    AfterOutputSuffix(tokens);
    var d := |tokens| - |rest|;
    assert tokens[d..] == rest;
    assert tokens[d + j] == rest[j];
  }

  /** What is kept is a final stretch of the tokens */
  lemma {:induction false} AfterOutputSuffix(tokens: seq<string>)
    ensures tokens[|tokens| - |AfterOutput(tokens)|..] == AfterOutput(tokens)
    decreases |tokens|
  {
    if |tokens| > 0 && tokens[0] != "-o" {
      AfterOutputSuffix(tokens[1..]);
      assert tokens[1..][|tokens| - 1 - |AfterOutput(tokens[1..])|..]
             == tokens[|tokens| - |AfterOutput(tokens)|..];
    }
  }

  /** `cc -o out.so a.o -L/x -lfoo /y/libbar.so -Wall` links the directory
      `/x`, the library `foo` and the file of the library `bar` */
  lemma LinkTxtExample(tokens: seq<string>, dir: string, name: string, suffix: string)
    requires dir == "/y/" && name == "bar" && suffix == ".so"
    requires tokens == ["cc", "-o", "out.so", "a.o", "-L/x", "-lfoo", dir + "lib" + name + suffix, "-Wall"]
    ensures FilterMap(IsDylibPath, AfterOutput(tokens))
            == [LinkDir("/x"), LinkLib("foo"),
                Path(DylibPathInfo(dir + "lib" + name + suffix, "lib" + name + suffix, "bar"))]
  {
    var path := dir + "lib" + name + suffix;
    var p := Path(DylibPathInfo(path, "lib" + name + suffix, "bar"));
    var rest := ["a.o", "-L/x", "-lfoo", path, "-Wall"];
    assert tokens == ["cc"] + ["-o", "out.so"] + rest;
    FirstOutputFlag(["cc"], "out.so", rest);
    NotClassifiedExample("a.o");
    NotClassifiedExample("-Wall");
    FlagExamples("-L/x", "-lfoo");
    ExamplePath(dir, name, suffix);
    ExampleArguments(rest, p);
  }

  lemma ExamplePath(dir: string, name: string, suffix: string)
    requires dir == "/y/" && name == "bar" && suffix == ".so"
    ensures IsDylibPath(dir + "lib" + name + suffix)
            == Some(Path(DylibPathInfo(dir + "lib" + name + suffix, "lib" + name + suffix, "bar")))
  {
    assert IsLibSuffix(suffix) by {
      assert suffix[..3] == ".so" && |suffix| == 3;
    }
    UnixLibraryFile(dir, name, suffix);
  }

  lemma ExampleArguments(rest: seq<string>, p: LinkArg)
    requires |rest| == 5 && IsDylibPath(rest[0]) == None && IsDylibPath(rest[4]) == None
    requires IsDylibPath(rest[1]) == Some(LinkDir("/x")) && IsDylibPath(rest[2]) == Some(LinkLib("foo"))
    requires IsDylibPath(rest[3]) == Some(p)
    ensures FilterMap(IsDylibPath, rest) == [LinkDir("/x"), LinkLib("foo"), p]
  {
    assert FilterMap(IsDylibPath, rest[4..]) == [] by {
      assert rest[4..][1..] == [];
    }
    assert FilterMap(IsDylibPath, rest[3..]) == [p] by {
      assert rest[3..][1..] == rest[4..];
    }
    assert FilterMap(IsDylibPath, rest[2..]) == [LinkLib("foo"), p] by {
      assert rest[2..][1..] == rest[3..];
    }
    assert FilterMap(IsDylibPath, rest[1..]) == [LinkDir("/x"), LinkLib("foo"), p] by {
      assert rest[1..][1..] == rest[2..];
    }
  }

  lemma NotClassifiedExample(t: string)
    requires t == "a.o" || t == "-Wall"
    ensures IsDylibPath(t) == None
  {
    assert forall i: nat :: !OccursAt(t, "lib", i) by {
      forall i: nat ensures !OccursAt(t, "lib", i) {
        if i + 3 <= |t| {
          assert t[i] != 'l';
        }
      }
    }
    assert t[..2] != "-l" && t[..2] != "-L" by {
      assert t[1] != 'l' && t[1] != 'L';
    }
    NoLibNotClassified(t);
  }

  lemma FlagExamples(dirFlag: string, libFlag: string)
    requires dirFlag == "-L/x" && libFlag == "-lfoo"
    ensures IsDylibPath(dirFlag) == Some(LinkDir("/x"))
    ensures IsDylibPath(libFlag) == Some(LinkLib("foo"))
  {
    assert dirFlag[..2] == "-L" && dirFlag[2..] == "/x";
    assert libFlag[..2] == "-l" && libFlag[2..] == "foo";
  }
}
