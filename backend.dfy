/** `get_linking_from_cmake`: on Unix the `link.txt` parser; on Windows the
    vcxproj parser, falling back to the NMake scanner, and a panic when
    neither project file can be read. */
module Backend {
  import opened Wrappers
  import opened LinkArgs
  import opened LinkTxt
  import opened Vsproj
  import opened NMake

  /** The two builds of `get_linking_from_cmake`, chosen by `target_os` */
  datatype Platform = Unix | Windows

  /** The Windows selector over the two parsers' outcomes */
  function WindowsLinking(project: Option<seq<XmlEvent>>, buildMake: Option<string>, buildType: string)
    : (r: Outcome<seq<LinkArg>>)
    ensures r.Return? ==> OnlyPaths(r.value)
  {
    match VsprojLinking(project, buildType)
    case Panic(reason) => Panic(reason)
    case Return(Some(libs)) => Return(libs)
    case Return(None) =>
      match NMakeLinking(buildMake)
      case Some(libs) => Return(libs)
      case None => Panic(NoWindowsBackend)
  }

  /** `get_linking_from_cmake` for the platform, given what each of its
      files holds (`None` for a file that cannot be read) */
  function CMakeLinking(platform: Platform, linkTxt: Option<string>, project: Option<seq<XmlEvent>>,
                        buildMake: Option<string>, buildType: string): (r: Outcome<seq<LinkArg>>)
    ensures platform == Windows && r.Return? ==> OnlyPaths(r.value)
    ensures platform == Unix ==> (r.Panic? <==> linkTxt.None?)
  {
    match platform
    case Unix => UnixLinking(linkTxt)
    case Windows => WindowsLinking(project, buildMake, buildType)
  }

  /** The Windows `get_linking_from_cmake` */
  method GetLinkingFromCMakeWindows(project: Option<seq<XmlEvent>>, buildMake: Option<string>, buildType: string)
    returns (r: Outcome<seq<LinkArg>>)
    ensures r == WindowsLinking(project, buildMake, buildType)
  {
    var fromVsproj := GetLinkingFromVsproj(project, buildType);
    if fromVsproj.Panic? {
      return Panic(fromVsproj.reason);
    }
    if fromVsproj.value.Some? {
      return Return(fromVsproj.value.value);
    }
    var fromNMake := GetLinkingFromNMake(buildMake);
    if fromNMake.Some? {
      return Return(fromNMake.value);
    }
    return Panic(NoWindowsBackend);
  }

  /** `get_linking_from_cmake` as built for the platform */
  method GetLinkingFromCMake(platform: Platform, linkTxt: Option<string>, project: Option<seq<XmlEvent>>,
                             buildMake: Option<string>, buildType: string)
    returns (r: Outcome<seq<LinkArg>>)
    ensures r == CMakeLinking(platform, linkTxt, project, buildMake, buildType)
  {
    match platform {
      case Unix =>
        r := GetLinkingFromCMakeUnix(linkTxt);
      case Windows =>
        r := GetLinkingFromCMakeWindows(project, buildMake, buildType);
    }
  }
}

/** What the selector promises. */
module BackendFacts {
  import opened Wrappers
  import opened Text
  import opened LinkArgs
  import opened LinkTxt
  import opened Vsproj
  import opened NMake
  import opened NMakeFacts
  import opened Backend

  /** A vcxproj result wins, whatever `build.make` holds */
  lemma VsprojFirst(project: Option<seq<XmlEvent>>, buildMake: Option<string>, buildType: string, libs: seq<LinkArg>)
    requires VsprojLinking(project, buildType) == Return(Some(libs))
    ensures WindowsLinking(project, buildMake, buildType) == Return(libs)
  {
  }

  /** When the vcxproj parser finds nothing, or the project file is missing,
      the NMake scanner decides */
  lemma NMakeFallback(project: Option<seq<XmlEvent>>, text: string, buildType: string)
    requires VsprojLinking(project, buildType) == Return(None)
    ensures WindowsLinking(project, Some(text), buildType) == Return(NMakeLibs(text))
  {
  }

  /** The Windows selector panics for want of a backend exactly when the
      vcxproj parser finds nothing and `build.make` cannot be read; any other
      panic is the vcxproj parser's */
  lemma WindowsPanics(project: Option<seq<XmlEvent>>, buildMake: Option<string>, buildType: string)
    ensures WindowsLinking(project, buildMake, buildType) == Panic(NoWindowsBackend)
            <==> VsprojLinking(project, buildType) == Return(None) && buildMake.None?
    ensures WindowsLinking(project, buildMake, buildType).Panic?
            <==> VsprojLinking(project, buildType).Panic?
                 || (VsprojLinking(project, buildType) == Return(None) && buildMake.None?)
  {
    match VsprojLinking(project, buildType)
    case Panic(reason) =>
      assert reason == VsprojMalformed;
    case Return(_) =>
  }

  /** A readable `build.make` without a response file gives an empty list,
      not a panic */
  lemma NoResponseFileNoPanic(project: Option<seq<XmlEvent>>, text: string, buildType: string)
    requires VsprojLinking(project, buildType) == Return(None)
    requires Marker !in SplitWhitespace(text)
    ensures WindowsLinking(project, Some(text), buildType) == Return([])
  {
    NoMarkerNoSection(SplitWhitespace(text));
  }

  /** On Unix only `link.txt` matters: the build type and the Windows files
      play no part */
  lemma UnixUsesLinkTxtOnly(linkTxt: Option<string>, project: Option<seq<XmlEvent>>, buildMake: Option<string>,
                            buildType: string, project': Option<seq<XmlEvent>>, buildMake': Option<string>,
                            buildType': string)
    ensures CMakeLinking(Unix, linkTxt, project, buildMake, buildType)
            == CMakeLinking(Unix, linkTxt, project', buildMake', buildType')
    ensures linkTxt.None? ==> CMakeLinking(Unix, linkTxt, project, buildMake, buildType) == Panic(LinkTxtUnreadable)
  {
  }
}
