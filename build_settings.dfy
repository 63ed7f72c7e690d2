/** The small decisions `build` takes before and after running CMake: whether
    to build the bundled dependencies, the build type, the names of the C
    library, and the cargo directives for the link arguments found. */
module BuildSettings {
  import opened Wrappers
  import opened Text
  import opened LinkArgs

  /** The environment of the build script: the variables that are set */
  type Environment = map<string, string>

  /** `char::to_ascii_uppercase` */
  function AsciiUpper(c: char): (u: char)
    ensures 'a' <= c <= 'z' ==> 'A' <= u <= 'Z' && u as int == c as int - 32
    ensures !('a' <= c <= 'z') ==> u == c
  {
    if 'a' <= c <= 'z' then (c as int - 32) as char else c
  }

  /** `str::to_ascii_uppercase` */
  function ToAsciiUppercase(s: string): (u: string)
    ensures |u| == |s| && forall i :: 0 <= i < |s| ==> u[i] == AsciiUpper(s[i])
  {
    seq(|s|, i requires 0 <= i < |s| => AsciiUpper(s[i]))
  }

  /** `CPPMM_<PROJECT>_BUILD_LIBRARIES` */
  function BuildLibrariesVar(projectName: string): string {
    "CPPMM_" + ToAsciiUppercase(projectName) + "_BUILD_LIBRARIES"
  }

  /** `CPPMM_<PROJECT>_BUILD_TYPE` */
  function BuildTypeVar(projectName: string): string {
    "CPPMM_" + ToAsciiUppercase(projectName) + "_BUILD_TYPE"
  }

  /** Whether the bundled dependencies are built: always when
      `CMAKE_PREFIX_PATH` is unset, and otherwise only when the project's
      `BUILD_LIBRARIES` variable is exactly `1` */
  function BuildLibraries(env: Environment, projectName: string): (b: bool)
    ensures "CMAKE_PREFIX_PATH" !in env ==> b
    ensures "CMAKE_PREFIX_PATH" in env ==>
              (b <==> BuildLibrariesVar(projectName) in env && env[BuildLibrariesVar(projectName)] == "1")
  {
    if "CMAKE_PREFIX_PATH" in env then
      var name := BuildLibrariesVar(projectName);
      if name in env then env[name] == "1" else false
    else true
  }

  const DefaultBuildType := "Release"

  /** The build type: the project's `BUILD_TYPE` variable, `Release` when unset */
  function BuildType(env: Environment, projectName: string): (t: string)
    ensures BuildTypeVar(projectName) !in env ==> t == DefaultBuildType
    ensures BuildTypeVar(projectName) in env ==> t == env[BuildTypeVar(projectName)]
  {
    var name := BuildTypeVar(projectName);
    if name in env then env[name] else DefaultBuildType
  }

  /** The crate version numbers */
  newtype u32 = x: int | 0 <= x < 0x1_0000_0000

  /** `u32` as `format!` writes it: decimal digits, no leading zero */
  function Decimal(n: nat): (s: string)
    ensures |s| > 0 && forall i :: 0 <= i < |s| ==> IsDigit(s[i])
    ensures |s| > 1 ==> s[0] != '0'
    decreases n
  {
    if n < 10 then [('0' as int + n) as char]
    else Decimal(n / 10) + [('0' as int + n % 10) as char]
  }

  /** The number a string of decimal digits stands for */
  function ParseDecimal(s: string): nat
    requires forall i :: 0 <= i < |s| ==> IsDigit(s[i])
    decreases |s|
  {
    if |s| == 0 then 0
    else
      assert IsDigit(s[|s| - 1]);
      10 * ParseDecimal(s[..|s| - 1]) + (s[|s| - 1] as int - '0' as int)
  }

  /** The numbers in the library names can be read back */
  lemma {:induction false} ParseDecimalOfDecimal(n: nat)
    ensures ParseDecimal(Decimal(n)) == n
    decreases n
  {
    if n >= 10 {
      var s := Decimal(n);
      ParseDecimalOfDecimal(n / 10);
      assert s[..|s| - 1] == Decimal(n / 10);
    }
  }

  /** `<project>-c` */
  function ClibName(projectName: string): string {
    projectName + "-c"
  }

  /** `<project>-c-<major>_<minor>` */
  function ClibVersionedName(projectName: string, major: u32, minor: u32): string {
    projectName + "-c-" + Decimal(major as nat) + "_" + Decimal(minor as nat)
  }

  /** `<project>-c-<major>_<minor>-shared` */
  function ClibSharedVersionedName(projectName: string, major: u32, minor: u32): string {
    projectName + "-c-" + Decimal(major as nat) + "_" + Decimal(minor as nat) + "-shared"
  }

  /** The shared library's name is the versioned name with `-shared` after it */
  lemma SharedNameExtendsVersioned(projectName: string, major: u32, minor: u32)
    ensures ClibSharedVersionedName(projectName, major, minor)
            == ClibVersionedName(projectName, major, minor) + "-shared"
  {
  }

  /** Both names begin with the library's name */
  lemma VersionedNamesExtendClibName(projectName: string, major: u32, minor: u32)
    ensures ClibVersionedName(projectName, major, minor)[..|ClibName(projectName)|] == ClibName(projectName)
  {
    var v := ClibVersionedName(projectName, major, minor);
    assert v == ClibName(projectName) + ("-" + Decimal(major as nat) + "_" + Decimal(minor as nat));
  }

  /** Different versions of one project get different library names */
  lemma VersionedNameDeterminesVersion(projectName: string, major: u32, minor: u32, major': u32, minor': u32)
    requires ClibVersionedName(projectName, major, minor) == ClibVersionedName(projectName, major', minor')
    ensures major == major' && minor == minor'
  {
    var p := projectName + "-c-";
    var a, b := Decimal(major as nat), Decimal(minor as nat);
    var a', b' := Decimal(major' as nat), Decimal(minor' as nat);
    var v := ClibVersionedName(projectName, major, minor);
    assert v == p + (a + "_" + b);
    assert v == p + (a' + "_" + b');
    assert a + "_" + b == v[|p|..] == a' + "_" + b';
    DigitsUnderscoreDigits(a, b, a', b');
    ParseDecimalOfDecimal(major as nat);
    ParseDecimalOfDecimal(major' as nat);
    ParseDecimalOfDecimal(minor as nat);
    ParseDecimalOfDecimal(minor' as nat);
  }

  /** The `_` between two numbers is where they split */
  lemma DigitsUnderscoreDigits(a: string, b: string, a': string, b': string)
    requires forall i :: 0 <= i < |a| ==> IsDigit(a[i])
    requires forall i :: 0 <= i < |a'| ==> IsDigit(a'[i])
    requires a + "_" + b == a' + "_" + b'
    ensures a == a' && b == b'
  {
    var t := a + "_" + b;
    assert t[|a|] == '_' && t[|a'|] == '_';
    assert forall i :: 0 <= i < |a| ==> t[i] == a[i];
    assert forall i :: 0 <= i < |a'| ==> t[i] == a'[i];
    assert |a| == |a'|;
    assert a == t[..|a|] == a';
    assert b == t[|a| + 1..] == b';
  }

  /** A cargo directive written for a link argument */
  datatype Directive =
    | LinkSearch(dir: string)   // cargo:rustc-link-search=native=<dir>
    | LinkDylib(name: string)   // cargo:rustc-link-lib=dylib=<name>

  /** The directives for one link argument; `parent` is `Path::parent` */
  function DirectivesOf(arg: LinkArg, parent: string -> string): seq<Directive> {
    match arg
    case Path(d) => [LinkSearch(parent(d.path)), LinkDylib(d.libname)]
    case LinkDir(dir) => [LinkSearch(dir)]
    case LinkLib(lib) => [LinkDylib(lib)]
  }

  /** The directives for the link arguments, in order */
  function Directives(args: seq<LinkArg>, parent: string -> string): (ds: seq<Directive>)
    decreases |args|
  {
    if |args| == 0 then [] else DirectivesOf(args[0], parent) + Directives(args[1..], parent)
  }

  /** The library each argument brings in, if any: a `LinkLib`'s name, or
      the `libname` of a library found as a file */
  function LibraryOf(arg: LinkArg): Option<string> {
    match arg
    case Path(d) => Some(d.libname)
    case LinkLib(lib) => Some(lib)
    case LinkDir(_) => None
  }

  /** The names in the `rustc-link-lib` directives */
  function LinkedNames(ds: seq<Directive>): seq<string>
    decreases |ds|
  {
    if |ds| == 0 then []
    else if ds[0].LinkDylib? then [ds[0].name] + LinkedNames(ds[1..])
    else LinkedNames(ds[1..])
  }

  lemma {:induction false} LinkedNamesAppend(xs: seq<Directive>, ys: seq<Directive>)
    ensures LinkedNames(xs + ys) == LinkedNames(xs) + LinkedNames(ys)
    decreases |xs|
  {
    if |xs| == 0 {
      assert xs + ys == ys;
    } else {
      assert (xs + ys)[0] == xs[0];
      assert (xs + ys)[1..] == xs[1..] + ys;
      LinkedNamesAppend(xs[1..], ys);
    }
  }

  /** The libraries linked are those the arguments bring in, in order: the
      `libname` of each file and the name of each `-l` */
  lemma {:induction false} DirectivesLinkLibraries(args: seq<LinkArg>, parent: string -> string)
    ensures LinkedNames(Directives(args, parent)) == FilterMap(LibraryOf, args)
    decreases |args|
  {
    if |args| > 0 {
      var first := DirectivesOf(args[0], parent);
      LinkedNamesAppend(first, Directives(args[1..], parent));
      DirectivesLinkLibraries(args[1..], parent);
      match args[0]
      case Path(d) =>
        assert first[1..] == [LinkDylib(d.libname)] && first[1..][1..] == [];
      case LinkLib(lib) =>
        assert first[1..] == [];
      case LinkDir(dir) =>
        assert first[1..] == [];
    }
  }

  /** Directives of a concatenation are the concatenation of the directives */
  lemma {:induction false} DirectivesAppend(xs: seq<LinkArg>, ys: seq<LinkArg>, parent: string -> string)
    ensures Directives(xs + ys, parent) == Directives(xs, parent) + Directives(ys, parent)
    decreases |xs|
  {
    if |xs| == 0 {
      assert xs + ys == ys;
    } else {
      assert (xs + ys)[0] == xs[0];
      assert (xs + ys)[1..] == xs[1..] + ys;
      DirectivesAppend(xs[1..], ys, parent);
    }
  }

  /** A library found as a file is searched for in its directory and linked
      by its `libname` */
  lemma PathDirectives(d: DylibPathInfo, parent: string -> string)
    ensures Directives([Path(d)], parent) == [LinkSearch(parent(d.path)), LinkDylib(d.libname)]
  {
    assert [Path(d)][1..] == [];
  }
}

/** The settings and directives at work on the names of a real project. */
module BuildSettingsFacts {
  import opened Wrappers
  import opened LinkArgs
  import opened UnixMatcher
  import opened UnixMatcherFacts
  import opened BuildSettings

  /** The project `openexr` answers to `CPPMM_OPENEXR_BUILD_LIBRARIES` and
      `CPPMM_OPENEXR_BUILD_TYPE` */
  lemma OpenExrVariables(projectName: string)
    requires projectName == "openexr"
    ensures BuildLibrariesVar(projectName) == "CPPMM_OPENEXR_BUILD_LIBRARIES"
    ensures BuildTypeVar(projectName) == "CPPMM_OPENEXR_BUILD_TYPE"
  {
    OpenExrLibrariesVar(projectName);
    OpenExrTypeVar(projectName);
  }

  lemma OpenExrLibrariesVar(projectName: string)
    requires projectName == "openexr"
    ensures BuildLibrariesVar(projectName) == "CPPMM_OPENEXR_BUILD_LIBRARIES"
  {
    OpenExrUppercase(projectName);
  }

  lemma OpenExrTypeVar(projectName: string)
    requires projectName == "openexr"
    ensures BuildTypeVar(projectName) == "CPPMM_OPENEXR_BUILD_TYPE"
  {
    OpenExrUppercase(projectName);
  }

  lemma OpenExrUppercase(projectName: string)
    requires projectName == "openexr"
    ensures ToAsciiUppercase(projectName) == "OPENEXR"
  {
    var u := ToAsciiUppercase(projectName);
    assert u[0] == 'O' && u[1] == 'P' && u[2] == 'E' && u[3] == 'N';
    assert u[4] == 'E' && u[5] == 'X' && u[6] == 'R';
  }

  /** The variables do not depend on the case of the project name */
  lemma CaseOfProjectNameIgnored(env: Environment, p: string, q: string)
    requires |p| == |q| && forall i :: 0 <= i < |p| ==> AsciiUpper(p[i]) == AsciiUpper(q[i])
    ensures BuildLibraries(env, p) == BuildLibraries(env, q)
    ensures BuildType(env, p) == BuildType(env, q)
  {
    assert ToAsciiUppercase(p) == ToAsciiUppercase(q);
  }

  /** With `CMAKE_PREFIX_PATH` set, any value other than `1`, `true`
      included, keeps the system dependencies */
  lemma OnlyOneBuildsLibraries(env: Environment, projectName: string, value: string)
    requires "CMAKE_PREFIX_PATH" in env && value != "1"
    ensures !BuildLibraries(env[BuildLibrariesVar(projectName) := value], projectName)
  {
  }

  /** The versioned file `/usr/local/lib/libfoo.so.2.1.0` is linked as `foo`
      from `/usr/local/lib`: the directive uses the regex group, not the file
      name */
  lemma VersionedLibraryDirectives(dir: string, name: string, suffix: string, parent: string -> string)
    requires dir == "/usr/local/lib/" && name == "foo" && suffix == ".so.2.1.0"
    requires parent(dir + "lib" + name + suffix) == "/usr/local/lib"
    ensures IsDylibPath(dir + "lib" + name + suffix).Some?
    ensures Directives([IsDylibPath(dir + "lib" + name + suffix).value], parent)
            == [LinkSearch("/usr/local/lib"), LinkDylib("foo")]
  {
    UnixVersionedExample(dir, name, suffix);
    var d := IsDylibPath(dir + "lib" + name + suffix).value.info;
    PathDirectives(d, parent);
  }
}
