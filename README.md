# cppmm-build link-argument extraction, modelled in Dafny

`cppmm-build` is the build-script library of the cppmm crates. When CMake has
built a C wrapper library, `build` has to tell cargo which libraries that
wrapper links against. To find them it reads CMake's own output files.

- **Unix.** The `link.txt` link command is split into tokens. Everything up
  to and including `-o <output>` is dropped. The other tokens are classified
  by `is_dylib_path`, which returns one of:
  - a `-l` flag;
  - a `-L` flag;
  - a library file matching
    `lib([^/]+?)(?:\.dylib|\.so|\.so.\d+|\.so.\d+.\d+|\.so.\d+.\d+.\d+)$`.
- **Windows.** The parser first reads the Visual Studio project. It walks the
  XML events and keeps three flags: inside `ItemDefinitionGroup` for the build
  type, inside `Link`, inside `AdditionalDependencies`. Each flag is raised
  by its start tag and lowered by its own end tag. `Link` is taken only
  inside a selected group, and `AdditionalDependencies` only inside both.
  At a text event only the third flag is tested. So the first text seen
  while it is up gives the libraries, even when `Link` or the group has
  closed since `AdditionalDependencies` opened. If the project file
  cannot be read, or holds no such text, the Windows `get_linking_from_cmake`
  selector turns to the NMake `build.make`. There it collects the tokens between `/dll` and `<<`. Windows
  tokens are classified by `is_dll_lib_path` with the regex
  `(?:.*\\(.*))(\.lib)$`.
- **`build`.** It makes four small decisions and translates the link
  arguments into cargo directives:
  - whether the bundled dependencies are built;
  - the build type;
  - the versioned names of the wrapper library;
  - the cargo directive for each link argument.

Modules, file by file:

- `wrappers.dfy`: `Option`.
- `text.dfy`: the `str` operations the code uses. These are `find`,
  `contains`, `split` on one character and `split_whitespace`, with their
  round-trip lemmas.
- `link_args.dfy`: `DylibPathInfo` and `LinkArg`, the panics as an `Outcome`,
  `Iterator::filter_map` and the loop that collects it.
- `unix_matcher.dfy`, `windows_matcher.dfy`: the two classifiers with their
  regexes. Each regex is written out as predicates for "matches at this
  position". The match the engine reports is characterised as well. For Unix
  that is the leftmost start and the shortest name, because the group is
  lazy. For Windows it is the leftmost start and the last backslash, because
  `.*` is greedy. The search functions are proved to find exactly that match.
- `link_txt.dfy`, `vsproj.dfy`, `nmake.dfy`: the three parsers. Each loop of
  the source is a `method` with a loop. Each is proved equal to a
  function, and the lemmas about the parser are stated on that function.
- `backend.dfy`: both `get_linking_from_cmake` variants.
- `build_settings.dfy`: the decisions of `build` and the directives it
  prints for each link argument.

File contents are `Option<string>`, where `None` means the file cannot be
read. The environment is a `map`. The vcxproj file is the sequence of events
the XML reader delivers.

Points where the code decides, and the model follows it:

- **The captures.** `basename` receives the whole match (the regex's group 0)
  and `libname` receives the name (group 1) (`src/lib.rs:83-84`, `103-104`).
  The doc comment at `src/lib.rs:45-46` describes these two fields the other
  way round. The directives link `libname` (`src/lib.rs:440`), so
  `/usr/local/lib/libfoo.so.2.1.0` links `foo`.
- **Splitting `link.txt`.** The text is split on single `' '` characters, not
  on whitespace in general (`src/lib.rs:279`).
  - A tab does not separate two tokens.
  - Two spaces in a row give an empty token, which is then dropped.
  - The last token keeps a trailing line break and can then never be a
    library file.
- **Bare Windows file names.** The Windows regex needs a backslash. A bare
  `bar.lib` therefore gives nothing.
- **A `build.make` without a response file.** A readable `build.make` always
  gives a list, empty when there is no `/dll` (`src/lib.rs:223`). The Windows
  selector therefore panics for want of a backend only when the project
  parser finds nothing and `build.make` cannot be read. A malformed project
  file panics regardless (`src/lib.rs:184`).

## Model

| member | source | states |
|---|---|---|
| Text.Contains | src/lib.rs:149 | `str::contains`: true exactly when the pattern occurs at some index |
| Text.Find | src/lib.rs:68 | `find` gives the first index where the pattern occurs, or `None` when it occurs nowhere |
| Text.FindAtZero | src/lib.rs:68-70 | `s.find(p) == Some(0)` exactly when `s` starts with `p`, so the two prefix tests are prefix tests |
| Text.Split | src/lib.rs:279 | `split` on one character gives at least one piece, and no piece holds the separator |
| Text.JoinSplit | src/lib.rs:279 | joining the pieces of `split` with the separator gives the text back |
| Text.SplitJoin | src/lib.rs:176 | splitting a join of separator-free pieces gives those pieces back |
| Text.IsWhitespace | src/lib.rs:209 | the separators of `split_whitespace`: the Unicode White_Space characters that `char::is_whitespace` accepts |
| Text.SplitWhitespace | src/lib.rs:209 | `split_whitespace` gives non-empty words free of whitespace |
| Text.SplitWhitespaceOfLayout | src/lib.rs:209 | words laid out with optional leading and trailing whitespace and any non-empty whitespace between them split back into those words |
| Text.LayoutOfSplitWhitespace | src/lib.rs:209 | every text is such a layout of the words `split_whitespace` finds in it, so the split loses only whitespace |
| LinkArgs.FilterMap | src/lib.rs:290 | `filter_map`: `f`'s `Some` results in input order, never more of them than inputs |
| LinkArgs.FilterMapAppend | src/lib.rs:290 | `filter_map` distributes over concatenation, so order is preserved |
| LinkArgs.FilterMapFrom | src/lib.rs:290 | every result of `filter_map` is `f` of one of the inputs |
| LinkArgs.FilterMapOnlyPaths | src/lib.rs:176-179 | a classifier that only yields paths gives a list of paths |
| LinkArgs.Collect | src/lib.rs:176-180 | the loop that pushes each `Some` result gives exactly `filter_map` of the inputs |
| UnixMatcher.ShortestName | src/lib.rs:271 | the lazy `[^/]+?`: the shortest slash-free name followed by a suffix to the end, or none when no length works |
| UnixMatcher.LeftmostMatch | src/lib.rs:271 | the leftmost start with a match, and its shortest name; none when no start matches |
| UnixMatcher.LibPathCaptures | src/lib.rs:75 | `captures_iter(s).next()` is `None` exactly when the regex matches nowhere, and is otherwise the leftmost-shortest match with its name group |
| UnixMatcher.IsDylibPath | src/lib.rs:63-94 | a token whose `-l` is at index 0 gives `LinkLib(s[2..])`; otherwise one starting with `-L` gives `LinkDir(s[2..])`; any other token gives a path exactly when the regex matches, with `path` the token, `basename` the whole match and `libname` the name |
| UnixMatcherFacts.LeftmostShortestUnique | src/lib.rs:75 | the engine reports at most one match |
| UnixMatcherFacts.ClassifiedByMatch | src/lib.rs:75-85 | a token that is no flag classifies by its leftmost-shortest match |
| UnixMatcherFacts.NoLibNotClassified | src/lib.rs:75-93 | a token that is no flag and holds no `lib` gives `None` |
| UnixMatcherFacts.UnixLibraryFile | src/lib.rs:75-85 | `<dir>lib<name><suffix>`, after an empty directory or one ending in `/` that does not start with `-`, with a name free of `/` and `.` and a suffix the regex accepts, is a path with `basename` the file name and `libname` the name |
| UnixMatcherFacts.UnixVersionedExample | src/lib.rs:271 | `/usr/local/lib/libfoo.so.2.1.0` gives `libname` `foo` and `basename` `libfoo.so.2.1.0` |
| UnixMatcherFacts.TooManyVersionComponents | src/lib.rs:271 | a token that is no `-l`/`-L` flag and ends in `.so` and four or more dotted numbers gives `None` |
| UnixMatcherFacts.UnixFourComponentsExample | src/lib.rs:271 | `/usr/local/lib/libfoo.so.2.1.0.4` gives `None` |
| UnixMatcherFacts.LibSuffixEnd | src/lib.rs:271 | every suffix the regex accepts ends in something other than a line break |
| UnixMatcherFacts.TrailingNewlineNotPath | src/lib.rs:271 | a token ending in a line break is never a library path |
| WindowsMatcher.LineStart | src/lib.rs:128 | the start of the last line: no line break after it, one just before it |
| WindowsMatcher.LibCaptures | src/lib.rs:98 | `captures_iter(s).next()` is `None` exactly when the regex matches nowhere, and is otherwise the leftmost match with the greedy backslash; the whole match is the last line, and it ends the token |
| WindowsMatcher.IsDllLibPath | src/lib.rs:97-111 | a token gives a result exactly when the regex matches, and that result is always a path; `libname` is the text between a backslash and the final `.lib`, free of backslashes; `basename` is the token's last line |
| WindowsMatcherFacts.WindowsLibraryFile | src/lib.rs:97-111 | `<dir>\<name>.lib` on one line, with a name free of backslashes, is a path with `libname` the name and `basename` the whole token |
| WindowsMatcherFacts.LastSegmentUnique | src/lib.rs:128 | the text after the last backslash is uniquely determined |
| WindowsMatcherFacts.WindowsLibExample | src/lib.rs:204 | `C:\libs\bar.lib` links `bar` |
| WindowsMatcherFacts.BareLibIgnored | src/lib.rs:128 | a token without a backslash, such as `bar.lib`, gives `None` |
| WindowsMatcherFacts.OnlyPathsFromTokens | src/lib.rs:97-111 | classifying any list of tokens yields only paths, never `-l` or `-L` arguments |
| LinkTxt.AfterOutput | src/lib.rs:280-286 | the tokens left after the `while let` loop: those after the first `-o` and its argument, none without a `-o`, never more than there were |
| LinkTxt.LinkTxtArgs | src/lib.rs:279-290 | the arguments of a `link.txt`: the classified tokens after the output file, at most one per `' '`-separated token |
| LinkTxt.SkipOutput | src/lib.rs:279-286 | the `while let` loop stops just after the first `-o` and the token after it |
| LinkTxt.UnixLinking | src/lib.rs:261-264 | an unreadable `link.txt` panics, and nothing else does |
| LinkTxt.GetLinkingFromCMakeUnix | src/lib.rs:252-291 | the Unix `get_linking_from_cmake` is the classification of the tokens after `-o <file>`, or the panic |
| LinkTxtFacts.NoOutputFlag | src/lib.rs:280-286 | without an `-o` no token is kept |
| LinkTxtFacts.FirstOutputFlag | src/lib.rs:280-285 | the tokens up to the first `-o`, the `-o` and the token after it are dropped, and the rest is kept whole |
| LinkTxtFacts.OutputFlagLast | src/lib.rs:283 | an `-o` that ends the command leaves nothing |
| LinkTxtFacts.LaterOutputFlagKept | src/lib.rs:280-286 | an `-o` after the first one is kept |
| LinkTxtFacts.ClassifiedInOrder | src/lib.rs:290 | the kept tokens are classified in order |
| LinkTxtFacts.AfterOutputSuffix | src/lib.rs:279-286 | what is kept is a final stretch of the tokens |
| LinkTxtFacts.SingleSpaceSeparator | src/lib.rs:279 | a tab does not separate tokens; two spaces give an empty token, and the empty token is dropped |
| LinkTxtFacts.ArgumentsFromTokens | src/lib.rs:279-290 | every argument of a readable `link.txt` is the classification of one of its tokens |
| LinkTxtFacts.LinkTxtExample | src/lib.rs:252-291 | the tokens of `cc -o out.so a.o -L/x -lfoo /y/libbar.so -Wall`, as `split(' ')` gives them, give the directory `/x`, the library `foo` and the path to `bar`, in that order |
| Vsproj.SelectsBuildType | src/lib.rs:145-149 | an attribute selects the build type when its key is `Condition` and its value contains the build type |
| Vsproj.ConditionMatches | src/lib.rs:143-154 | a start tag selects the build type when some attribute does |
| Vsproj.Dependencies | src/lib.rs:175-181 | the `;`-separated entries of the text that `is_dll_lib_path` classifies, in order; all paths |
| Vsproj.ScanConditions | src/lib.rs:143-154 | the attribute loop sets the flag exactly when some well-formed `Condition` contains the build type, and keeps a flag already set |
| Vsproj.Step | src/lib.rs:140-186 | the loop leaves on `Eof`, on an error and on text inside `AdditionalDependencies`; only the error panics; only the text gives `Some` |
| Vsproj.Run | src/lib.rs:139-189 | what the loop returns from given flags: only paths, and only the malformed-XML panic |
| Vsproj.VsprojLinking | src/lib.rs:114-190 | an unreadable project gives `None`; any libraries returned are paths |
| Vsproj.GetLinkingFromVsproj | src/lib.rs:139-189 | the event loop with its three flags computes the fold over the events from all flags unset |
| VsprojFacts.RunContinues | src/lib.rs:139-187 | an event that does not end the loop only changes the flags for the rest of the stream |
| VsprojFacts.NoSelectingGroupNoDependencies | src/lib.rs:141-163 | without an `ItemDefinitionGroup` for the build type, no dependencies are ever read: `None` or the panic |
| VsprojFacts.DependenciesFromText | src/lib.rs:174-182 | returned libraries are the classified `;`-separated entries of one text event, with no `Eof` or error before it |
| VsprojFacts.StopEventEndsStream | src/lib.rs:183-184 | nothing after an `Eof` or an error is read |
| VsprojFacts.ClosedDependenciesIgnoreText | src/lib.rs:171 | `</AdditionalDependencies>` resets its flag whatever the other flags are, so a following text is ignored |
| VsprojFacts.ClosedLinkIgnoresDependencies | src/lib.rs:156-169 | when `inDeps` is down, after `</Link>` an `AdditionalDependencies` element and its text are ignored |
| VsprojFacts.TakenFrom | src/lib.rs:139-182 | the loop run from any event returns libraries only from a later text event reached with `inDeps` up, and they are that text's entries |
| VsprojFacts.DependenciesOpened | src/lib.rs:156-171 | `inDeps` is up only after an `AdditionalDependencies` start taken with `inItemDefinition` and `inLink` up, with no `</AdditionalDependencies>` since |
| VsprojFacts.LinkOpened | src/lib.rs:156-169 | `inLink` is up only after a `Link` start taken with `inItemDefinition` up, with no `</Link>` since |
| VsprojFacts.GroupOpened | src/lib.rs:141-166 | `inItemDefinition` is up only after an `ItemDefinitionGroup` start whose `Condition` contains the build type, with no `</ItemDefinitionGroup>` since |
| VsprojFacts.TakenAtInside | src/lib.rs:141-182 | a text taken with `inDeps` up lies after a selecting group start, a `Link` start and an `AdditionalDependencies` start, in the order the flags demand |
| VsprojFacts.DependenciesTakenInside | src/lib.rs:139-182 | any libraries the parser returns come from such a text; `Link` and the group need not be open at the text |
| VsprojFacts.DependenciesOutliveLink | src/lib.rs:156-181 | only `inDeps` is tested: text after `</Link>` inside a still-open `AdditionalDependencies` is taken |
| VsprojFacts.RunToFirstStop | src/lib.rs:139-186 | for any stream, the loop run from any event gives exactly what its first stopping event gives |
| VsprojFacts.RunWithoutStop | src/lib.rs:139-189 | from any event, with no stopping event left, the loop runs off the end and gives `None` |
| VsprojFacts.FirstTakenReturned | src/lib.rs:174-181 | for any stream, the first text reached with `inDeps` up, with no `Eof` or error before it, gives `Some` of its classified entries |
| VsprojFacts.FirstEofReturnsNone | src/lib.rs:183 | for any stream, an `Eof` before any stopping event gives `None` |
| VsprojFacts.FirstErrorPanics | src/lib.rs:184 | for any stream, an error before any stopping event is the malformed-project panic |
| VsprojFacts.NoStopReturnsNone | src/lib.rs:189 | a stream with no stopping event gives `None` |
| VsprojFacts.Group | src/lib.rs:141-172 | the seven events of one `ItemDefinitionGroup` with a `Link` holding `AdditionalDependencies` |
| VsprojFacts.SkippedGroup | src/lib.rs:142-166 | a group whose `Condition` does not contain the build type is passed over |
| VsprojFacts.SelectedGroup | src/lib.rs:141-182 | a stream that begins with the group for the build type gives `Some` of its dependencies, whatever follows (any stream is covered by `FirstTakenReturned`) |
| VsprojFacts.BuildTypePicksGroup | src/lib.rs:141-182 | with a Debug and a Release group, each build type gets its own group's dependencies |
| NMake.Section | src/lib.rs:206-221 | the collected entries hold neither `/dll` nor `<<`, and each is a token of the file |
| NMake.ScanToken | src/lib.rs:210-220 | one token of the scan: `/dll` sets the flag; after it, an entry adds its classification, if any |
| NMake.ScanTokens | src/lib.rs:206-221 | the loop with `found_slash_dll` collects exactly the classified tokens between the first `/dll` and the next `<<` |
| NMake.ScannedIsSection | src/lib.rs:209-221 | the scan from any flag collects the classified entries still pending |
| NMake.NMakeLibs | src/lib.rs:209-221 | the libraries of a readable `build.make`: the classified entries of the response-file section of its whitespace-separated tokens; all paths |
| NMake.NMakeLinking | src/lib.rs:202-223 | a readable `build.make` always gives `Some`, and only paths; an unreadable one gives `None` |
| NMake.GetLinkingFromNMake | src/lib.rs:193-224 | `get_linking_from_nmake` is the classification of the response-file section of the whitespace-split file |
| NMakeFacts.NoMarkerNoSection | src/lib.rs:210-212 | without a `/dll` nothing is collected |
| NMakeFacts.BeforeMarkerIgnored | src/lib.rs:209-212 | tokens before the first `/dll` are ignored |
| NMakeFacts.CloseEndsSection | src/lib.rs:213-214 | collection stops at the first `<<`: nothing after it is read |
| NMakeFacts.ResponseFileSection | src/lib.rs:206-221 | the section of `… /dll <entries> << …` is the entries other than `/dll` |
| NMakeFacts.MarkerIsNoLibrary | src/lib.rs:210 | `/dll` classifies as nothing either |
| NMakeFacts.LibsOfWords | src/lib.rs:209 | a file of words with any whitespace between them (spaces, tabs, line breaks, runs of them) is scanned word by word |
| NMakeFacts.NMakeExample | src/lib.rs:206-223 | the tokens of `link.exe /nologo @<< foo.obj /dll C:\libs\bar.lib kernel32.lib << …`, as `split_whitespace` gives them, give only the path to `bar` |
| NMakeFacts.KernelLibIgnored | src/lib.rs:204 | `kernel32.lib` has no backslash and gives nothing |
| Backend.WindowsLinking | src/lib.rs:238-248 | the Windows selector returns only paths |
| Backend.CMakeLinking | src/lib.rs:233-291 | on Unix only an unreadable `link.txt` panics; on Windows only paths come back |
| Backend.GetLinkingFromCMakeWindows | src/lib.rs:233-249 | the Windows `get_linking_from_cmake` tries the project file, then `build.make`, then panics |
| Backend.GetLinkingFromCMake | src/lib.rs:233-291 | `get_linking_from_cmake` as built for the platform |
| BackendFacts.VsprojFirst | src/lib.rs:238-241 | a project-file result wins, whatever `build.make` holds |
| BackendFacts.NMakeFallback | src/lib.rs:242-245 | when the project parser gives `None`, a readable `build.make` decides |
| BackendFacts.WindowsPanics | src/lib.rs:238-248 | the selector panics for want of a backend exactly when the project parser gives `None` and `build.make` cannot be read; every other panic is the XML error |
| BackendFacts.NoResponseFileNoPanic | src/lib.rs:223 | when the project gives nothing, a readable `build.make` without `/dll` gives an empty list, not a panic |
| BackendFacts.UnixUsesLinkTxtOnly | src/lib.rs:252-264 | on Unix the build type and the Windows files play no part, and an unreadable `link.txt` panics |
| BuildSettings.AsciiUpper | src/lib.rs:327 | one character of `to_ascii_uppercase`: `a`-`z` become `A`-`Z`, everything else is kept |
| BuildSettings.ToAsciiUppercase | src/lib.rs:327 | upper-cases the ASCII letters and keeps every other character, position by position |
| BuildSettings.BuildLibrariesVar | src/lib.rs:327 | the variable `CPPMM_<PROJECT>_BUILD_LIBRARIES`, the project name upper-cased |
| BuildSettings.BuildTypeVar | src/lib.rs:328 | the variable `CPPMM_<PROJECT>_BUILD_TYPE`, the project name upper-cased |
| BuildSettings.BuildLibraries | src/lib.rs:332-340 | true when `CMAKE_PREFIX_PATH` is unset; otherwise true exactly when the project's `BUILD_LIBRARIES` variable is `1` |
| BuildSettings.BuildType | src/lib.rs:356-361 | the project's `BUILD_TYPE` variable, `Release` when it is unset |
| BuildSettings.ClibName | src/lib.rs:345 | the C library's name `<project>-c` |
| BuildSettings.Decimal | src/lib.rs:346-347 | a version number is written as decimal digits with no leading zero |
| BuildSettings.ParseDecimalOfDecimal | src/lib.rs:346-347 | the written number reads back as the number |
| BuildSettings.ClibVersionedName | src/lib.rs:346-347 | `<project>-c-<major>_<minor>`, the versions in decimal |
| BuildSettings.ClibSharedVersionedName | src/lib.rs:348-349 | `<project>-c-<major>_<minor>-shared` |
| BuildSettings.SharedNameExtendsVersioned | src/lib.rs:346-349 | the shared name is the versioned name followed by `-shared` |
| BuildSettings.VersionedNamesExtendClibName | src/lib.rs:345-347 | the versioned name begins with `<project>-c` |
| BuildSettings.VersionedNameDeterminesVersion | src/lib.rs:346-347 | different versions of one project get different names |
| BuildSettings.DirectivesOf | src/lib.rs:436-448 | the `cargo:` lines for one argument: a path's parent directory as a search path and its libname as a dylib, a `-L` directory as a search path, a `-l` name as a dylib |
| BuildSettings.Directives | src/lib.rs:434-449 | the `cargo:` lines for all arguments, each argument's lines in argument order |
| BuildSettings.DirectivesLinkLibraries | src/lib.rs:434-449 | the libraries linked are, in order, the `libname` of each path and the name of each `-l` |
| BuildSettings.DirectivesAppend | src/lib.rs:434-449 | the directives of two lists of arguments are the directives of the first followed by those of the second |
| BuildSettings.PathDirectives | src/lib.rs:437-441 | a path is searched for in its parent directory and linked by its `libname` |
| BuildSettingsFacts.OpenExrVariables | src/lib.rs:327-328 | the project `openexr` answers to `CPPMM_OPENEXR_BUILD_LIBRARIES` and `CPPMM_OPENEXR_BUILD_TYPE` |
| BuildSettingsFacts.CaseOfProjectNameIgnored | src/lib.rs:327-328 | the two variables do not depend on the ASCII case of the project name |
| BuildSettingsFacts.OnlyOneBuildsLibraries | src/lib.rs:332-337 | with `CMAKE_PREFIX_PATH` set, any value other than `1` keeps the bundled libraries from being built |
| BuildSettingsFacts.VersionedLibraryDirectives | src/lib.rs:437-441 | `/usr/local/lib/libfoo.so.2.1.0` is linked as `foo` and searched for in its parent directory, which is given by assumption as `/usr/local/lib` (`Path::parent` is a parameter) |

## Left out

- `\d` is taken to be an ASCII digit. Rust's regex crate also accepts the
  other Unicode decimal digits. No CMake output uses them.
- Debug output is not modelled. This covers the `CPPMM_DEBUG_BUILD` checks
  and their `println!` lines (`src/lib.rs:64-66`, `71-73`, `78-80`, `89-91`,
  `266-268`). They only print.
- The `cargo:` lines that `build` prints are modelled as a list of
  directives. The printing itself is output and is not modelled.
- `Path::parent` is a parameter of the directive translation. Its `unwrap`
  panic for a path without a parent is not modelled.
- File locations are not modelled. This covers the `Path::join` of
  `link.txt`, of the `.vcxproj` and of `build.make`, and the `OUT_DIR`
  ancestor walk. Each file is given by its contents. As a consequence the
  model does not show one quirk. `build` passes the `-shared` name to
  `get_linking_from_cmake` (`src/lib.rs:386`). The `build.make` directory
  therefore ends in `-shared-shared.dir` (`src/lib.rs:199`).
- The XML reader is not modelled. This covers `quick_xml` tokenisation,
  entity unescaping, `trim_text`, and the UTF-8 `unwrap` panics on attribute
  values and text. The model starts from the events the reader delivers, with
  text already decoded. An event sequence that runs out is read as `Eof`.
- The build steps are not modelled. These are `build_thirdparty`, the
  `cmake::Config` builds, and the `abigen` and `insert_abi.py` subprocesses
  (`src/lib.rs:7-41`, `363-380`, `470-500`). They are foreign calls and
  process launches.
- Environment values that are not valid Unicode are not modelled. The
  environment maps names to strings. `std::env::var` would report an error
  for such a value, which `build` would treat as an unset variable.
- The `Debug` impl of `Dependency` and the placeholder test are not
  modelled. Neither computes anything.
