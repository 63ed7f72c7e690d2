/** `get_linking_from_vsproj`: the Visual Studio project file of the wrapper
    library is read as a stream of XML events, and the text of the first
    `AdditionalDependencies` element under the `Link` settings of the
    `ItemDefinitionGroup` for the build type gives the libraries. */
module Vsproj {
  import opened Wrappers
  import opened Text
  import opened LinkArgs
  import opened WindowsMatcher
  import WindowsMatcherFacts

  /** An attribute of a start tag; `MalformedAttribute` is one the reader
      could not parse, which the loop skips */
  datatype Attribute = Attribute(key: string, value: string) | MalformedAttribute

  /** The events the XML reader delivers, text already unescaped. `Other`
      stands for the events the loop ignores (empty elements, comments,
      declarations, CDATA, processing instructions). */
  datatype XmlEvent =
    | Start(name: string, attributes: seq<Attribute>)
    | End(name: string)
    | Text(content: string)
    | Eof
    | Error
    | Other

  /** The three booleans of the loop */
  datatype Flags = Flags(inItemDefinition: bool, inLink: bool, inDeps: bool)

  const Initial := Flags(false, false, false)

  /** A `Condition` attribute whose value contains the build type */
  predicate SelectsBuildType(a: Attribute, buildType: string) {
    a.Attribute? && a.key == "Condition" && Contains(a.value, buildType)
  }

  predicate ConditionMatches(attributes: seq<Attribute>, buildType: string) {
    exists k :: 0 <= k < |attributes| && SelectsBuildType(attributes[k], buildType)
  }

  /** The libraries listed in the text of `AdditionalDependencies`: its
      `;`-separated entries that classify, in order */
  function Dependencies(text: string): (dlls: seq<LinkArg>)
    ensures OnlyPaths(dlls)
  {
    WindowsMatcherFacts.OnlyPathsFromTokens(Split(text, ';'));
    FilterMap(IsDllLibPath, Split(text, ';'))
  }

  /** One turn of the loop: go on with new flags, or leave it with a result */
  datatype Next =
    | Continue(flags: Flags)
    | Stop(result: Outcome<Option<seq<LinkArg>>>)

  function Step(flags: Flags, e: XmlEvent, buildType: string): (n: Next)
    ensures n.Stop? <==> e.Eof? || e.Error? || (e.Text? && flags.inDeps)
    ensures n.Stop? ==> (n.result.Panic? <==> e.Error?)
    ensures n.Stop? && n.result.Return? ==> (n.result.value.Some? <==> e.Text?)
    ensures n.Stop? && n.result.Panic? ==> n.result.reason == VsprojMalformed
  {
    match e
    case Start(name, attributes) =>
      if name == "ItemDefinitionGroup" then
        Continue(flags.(inItemDefinition := flags.inItemDefinition || ConditionMatches(attributes, buildType)))
      else if name == "Link" && flags.inItemDefinition then
        Continue(flags.(inLink := true))
      else if name == "AdditionalDependencies" && flags.inItemDefinition && flags.inLink then
        Continue(flags.(inDeps := true))
      else Continue(flags)
    case End(name) =>
      if name == "ItemDefinitionGroup" then Continue(flags.(inItemDefinition := false))
      else if name == "Link" then Continue(flags.(inLink := false))
      else if name == "AdditionalDependencies" then Continue(flags.(inDeps := false))
      else Continue(flags)
    case Text(content) =>
      if flags.inDeps then Stop(Return(Some(Dependencies(content)))) else Continue(flags)
    case Eof => Stop(Return(None))
    case Error => Stop(Panic(VsprojMalformed))
    case Other => Continue(flags)
  }

  /** The loop run over the events from the given flags; a stream that ends
      without `Eof` ends the loop as `Eof` does */
  function Run(events: seq<XmlEvent>, buildType: string, flags: Flags): (r: Outcome<Option<seq<LinkArg>>>)
    ensures r.Return? && r.value.Some? ==> OnlyPaths(r.value.value)
    ensures r.Panic? ==> r.reason == VsprojMalformed
    decreases |events|
  {
    if |events| == 0 then Return(None)
    else match Step(flags, events[0], buildType)
      case Stop(result) => result
      case Continue(next) => Run(events[1..], buildType, next)
  }

  /** What `get_linking_from_vsproj` gives for the project file, `None`
      when it cannot be read */
  function VsprojLinking(project: Option<seq<XmlEvent>>, buildType: string): (r: Outcome<Option<seq<LinkArg>>>)
    ensures project.None? ==> r == Return(None)
    ensures r.Return? && r.value.Some? ==> OnlyPaths(r.value.value)
  {
    match project
    case None => Return(None)
    case Some(events) => Run(events, buildType, Initial)
  }

  /** The event loop of `get_linking_from_vsproj` */
  method GetLinkingFromVsproj(project: Option<seq<XmlEvent>>, buildType: string)
    returns (r: Outcome<Option<seq<LinkArg>>>)
    ensures r == VsprojLinking(project, buildType)
  {
    if project.None? {
      return Return(None);
    }
    var events := project.value;
    var inItemDefinition, inLink, inDeps := false, false, false;
    var i := 0;
    while i < |events|
      invariant 0 <= i <= |events|
      invariant Run(events[i..], buildType, Flags(inItemDefinition, inLink, inDeps))
                == Run(events, buildType, Initial)
    {
      assert events[i..][1..] == events[i + 1..];
      match events[i] {
        case Start(name, attributes) =>
          if name == "ItemDefinitionGroup" {
            inItemDefinition := ScanConditions(attributes, buildType, inItemDefinition);
          } else if name == "Link" && inItemDefinition {
            inLink := true;
          } else if name == "AdditionalDependencies" && inItemDefinition && inLink {
            inDeps := true;
          }
        case End(name) =>
          if name == "ItemDefinitionGroup" {
            inItemDefinition := false;
          } else if name == "Link" {
            inLink := false;
          } else if name == "AdditionalDependencies" {
            inDeps := false;
          }
        case Text(content) =>
          if inDeps {
            var dlls := Collect(IsDllLibPath, Split(content, ';'));
            return Return(Some(dlls));
          }
        case Eof =>
          break;
        case Error =>
          return Panic(VsprojMalformed);
        case Other =>
      }
      i := i + 1;
    }
    return Return(None);
  }

  /** The loop over the attributes of an `ItemDefinitionGroup` start tag:
      the flag is set by a `Condition` naming the build type, never cleared */
  method ScanConditions(attributes: seq<Attribute>, buildType: string, inItemDefinition: bool)
    returns (b: bool)
    ensures b == (inItemDefinition || ConditionMatches(attributes, buildType))
  {
    b := inItemDefinition;
    for k := 0 to |attributes|
      invariant b == (inItemDefinition || exists j :: 0 <= j < k && SelectsBuildType(attributes[j], buildType))
    {
      var a := attributes[k];
      if a.Attribute? && a.key == "Condition" {
        if Contains(a.value, buildType) {
          b := true;
        }
      }
    }
  }
}

/** What the vcxproj event loop promises. */
module VsprojFacts {
  import opened Wrappers
  import opened Text
  import opened LinkArgs
  import opened Vsproj

  /** One turn of the loop that does not leave it */
  lemma RunContinues(events: seq<XmlEvent>, buildType: string, flags: Flags, next: Flags)
    requires |events| > 0 && Step(flags, events[0], buildType) == Continue(next)
    ensures Run(events, buildType, flags) == Run(events[1..], buildType, next)
  {
  }

  /** One turn of the loop that does not leave it, on the first event of a stream */
  lemma RunCons(e: XmlEvent, rest: seq<XmlEvent>, buildType: string, flags: Flags, next: Flags)
    requires Step(flags, e, buildType) == Continue(next)
    ensures Run([e] + rest, buildType, flags) == Run(rest, buildType, next)
  {
    assert ([e] + rest)[0] == e && ([e] + rest)[1..] == rest;
  }

  /** A turn of the loop that leaves it */
  lemma RunStops(events: seq<XmlEvent>, buildType: string, flags: Flags, result: Outcome<Option<seq<LinkArg>>>)
    requires |events| > 0 && Step(flags, events[0], buildType) == Stop(result)
    ensures Run(events, buildType, flags) == result
  {
  }

  /** No `ItemDefinitionGroup` of the stream has a `Condition` naming the build type */
  predicate NoSelectingGroup(events: seq<XmlEvent>, buildType: string) {
    forall k :: 0 <= k < |events| && events[k].Start? && events[k].name == "ItemDefinitionGroup"
      ==> !ConditionMatches(events[k].attributes, buildType)
  }

  /** Without a group for the build type no dependencies are ever read:
      the flags stay down and the result is `None` or the parse-error panic */
  lemma {:induction false} NoSelectingGroupNoDependencies(events: seq<XmlEvent>, buildType: string)
    requires NoSelectingGroup(events, buildType)
    ensures Run(events, buildType, Initial) == Return(None)
            || Run(events, buildType, Initial) == Panic(VsprojMalformed)
    decreases |events|
  {
    if |events| > 0 {
      var e := events[0];
      var n := Step(Initial, e, buildType);
      assert n.Continue? ==> n.flags == Initial by {
        if e.Start? && e.name == "ItemDefinitionGroup" {
          assert !ConditionMatches(e.attributes, buildType);
        }
      }
      assert NoSelectingGroup(events[1..], buildType) by {
        forall k | 0 <= k < |events[1..]| ensures events[1..][k] == events[k + 1] {
        }
      }
      NoSelectingGroupNoDependencies(events[1..], buildType);
    }
  }

  /** `events[k]` is a `Text` event whose entries are `dlls`, and neither
      `Eof` nor an error comes before it */
  predicate TextBeforeAnyStop(events: seq<XmlEvent>, k: int, dlls: seq<LinkArg>) {
    0 <= k < |events| && events[k].Text? && dlls == Dependencies(events[k].content)
    && forall j :: 0 <= j < k ==> !events[j].Eof? && !events[j].Error?
  }

  /** Libraries returned come from one `Text` event, the first that arrives
      while inside `AdditionalDependencies`, with no `Eof` or error before it */
  lemma {:induction false} DependenciesFromText(events: seq<XmlEvent>, buildType: string, flags: Flags, dlls: seq<LinkArg>)
    requires Run(events, buildType, flags) == Return(Some(dlls))
    ensures exists k :: TextBeforeAnyStop(events, k, dlls)
    decreases |events|
  {
    var n := Step(flags, events[0], buildType);
    if n.Stop? {
      assert TextBeforeAnyStop(events, 0, dlls);
    } else {
      DependenciesFromText(events[1..], buildType, n.flags, dlls);
      var k :| TextBeforeAnyStop(events[1..], k, dlls);
      TextBeforeAnyStopShift(events, k, dlls);
    }
  }

  lemma TextBeforeAnyStopShift(events: seq<XmlEvent>, k: int, dlls: seq<LinkArg>)
    requires |events| > 0 && !events[0].Eof? && !events[0].Error?
    requires TextBeforeAnyStop(events[1..], k, dlls)
    ensures TextBeforeAnyStop(events, k + 1, dlls)
  {
    assert events[k + 1] == events[1..][k];
    assert forall j :: 1 <= j < k + 1 ==> events[j] == events[1..][j - 1];
  }

  /** The flags after one event; an event that ends the loop leaves them as they were */
  function Advance(flags: Flags, e: XmlEvent, buildType: string): Flags {
    match Step(flags, e, buildType)
    case Continue(next) => next
    case Stop(_) => flags
  }

  /** The flags the loop holds when it reaches `events[k]`, having started with all three down */
  function FlagsAt(events: seq<XmlEvent>, buildType: string, k: nat): Flags
    requires k <= |events|
    decreases k
  {
    if k == 0 then Initial else Advance(FlagsAt(events, buildType, k - 1), events[k - 1], buildType)
  }

  /** `e` opens the element `name`; an `ItemDefinitionGroup` only with a
      `Condition` naming the build type */
  predicate Opens(e: XmlEvent, name: string, buildType: string) {
    e.Start? && e.name == name
    && (name == "ItemDefinitionGroup" ==> ConditionMatches(e.attributes, buildType))
  }

  predicate Closes(e: XmlEvent, name: string) {
    e.End? && e.name == name
  }

  /** `events[c]` opens `name`, and no `End` of `name` comes after it before `events[k]` */
  predicate OpenAt(events: seq<XmlEvent>, buildType: string, name: string, c: int, k: int) {
    0 <= c < k <= |events| && Opens(events[c], name, buildType)
    && forall j :: c < j < k ==> !Closes(events[j], name)
  }

  /** `events[k]` is a text event reached with `inDeps` set, and `dlls` are its entries */
  predicate TakenAt(events: seq<XmlEvent>, buildType: string, k: int, dlls: seq<LinkArg>) {
    0 <= k < |events| && events[k].Text? && FlagsAt(events, buildType, k).inDeps
    && dlls == Dependencies(events[k].content)
  }

  /** How each flag can be up after an event: the event raised it, or it was
      up before and the event is not its `End` tag */
  lemma AdvanceFlags(f: Flags, e: XmlEvent, buildType: string)
    ensures Advance(f, e, buildType).inDeps ==>
              (e.Start? && e.name == "AdditionalDependencies" && f.inItemDefinition && f.inLink)
              || (f.inDeps && !Closes(e, "AdditionalDependencies"))
    ensures Advance(f, e, buildType).inLink ==>
              (e.Start? && e.name == "Link" && f.inItemDefinition) || (f.inLink && !Closes(e, "Link"))
    ensures Advance(f, e, buildType).inItemDefinition ==>
              Opens(e, "ItemDefinitionGroup", buildType) || (f.inItemDefinition && !Closes(e, "ItemDefinitionGroup"))
  {
  }

  /** An element still open before `events[k]` stays open past it unless it is its `End` */
  lemma OpenAtExtend(events: seq<XmlEvent>, buildType: string, name: string, c: int, k: int)
    requires OpenAt(events, buildType, name, c, k) && k < |events| && !Closes(events[k], name)
    ensures OpenAt(events, buildType, name, c, k + 1)
  {
  }

  /** The loop run from `events[j]` on returns libraries only from a text
      event reached with `inDeps` set */
  lemma {:induction false} TakenFrom(events: seq<XmlEvent>, buildType: string, j: nat, dlls: seq<LinkArg>)
    requires j <= |events| && Run(events[j..], buildType, FlagsAt(events, buildType, j)) == Return(Some(dlls))
    ensures exists k :: j <= k && TakenAt(events, buildType, k, dlls)
    decreases |events| - j
  {
    var f := FlagsAt(events, buildType, j);
    var e := events[j];
    assert events[j..][0] == e;
    match Step(f, e, buildType)
    case Stop(result) =>
      assert TakenAt(events, buildType, j, dlls);
    case Continue(next) =>
      assert FlagsAt(events, buildType, j + 1) == next;
      assert events[j..][1..] == events[j + 1..];
      TakenFrom(events, buildType, j + 1, dlls);
  }

  /** `inDeps` is up only after an `AdditionalDependencies` start taken while
      `inItemDefinition` and `inLink` were up, and not yet closed */
  lemma {:induction false} DependenciesOpened(events: seq<XmlEvent>, buildType: string, k: nat)
    requires k <= |events| && FlagsAt(events, buildType, k).inDeps
    ensures exists c :: OpenAt(events, buildType, "AdditionalDependencies", c, k)
              && FlagsAt(events, buildType, c).inItemDefinition && FlagsAt(events, buildType, c).inLink
    decreases k
  {
    if k > 0 {
      var f := FlagsAt(events, buildType, k - 1);
      var e := events[k - 1];
      AdvanceFlags(f, e, buildType);
      if e.Start? && e.name == "AdditionalDependencies" && f.inItemDefinition && f.inLink {
        assert OpenAt(events, buildType, "AdditionalDependencies", k - 1, k);
      } else {
        DependenciesOpened(events, buildType, k - 1);
        var c :| OpenAt(events, buildType, "AdditionalDependencies", c, k - 1)
                 && FlagsAt(events, buildType, c).inItemDefinition && FlagsAt(events, buildType, c).inLink;
        OpenAtExtend(events, buildType, "AdditionalDependencies", c, k - 1);
      }
    }
  }

  /** `inLink` is up only after a `Link` start taken while `inItemDefinition`
      was up, and not yet closed */
  lemma {:induction false} LinkOpened(events: seq<XmlEvent>, buildType: string, k: nat)
    requires k <= |events| && FlagsAt(events, buildType, k).inLink
    ensures exists c :: OpenAt(events, buildType, "Link", c, k) && FlagsAt(events, buildType, c).inItemDefinition
    decreases k
  {
    if k > 0 {
      var f := FlagsAt(events, buildType, k - 1);
      var e := events[k - 1];
      AdvanceFlags(f, e, buildType);
      if e.Start? && e.name == "Link" && f.inItemDefinition {
        assert OpenAt(events, buildType, "Link", k - 1, k);
      } else {
        LinkOpened(events, buildType, k - 1);
        var c :| OpenAt(events, buildType, "Link", c, k - 1) && FlagsAt(events, buildType, c).inItemDefinition;
        OpenAtExtend(events, buildType, "Link", c, k - 1);
      }
    }
  }

  /** `inItemDefinition` is up only after an `ItemDefinitionGroup` start whose
      `Condition` names the build type, and not yet closed */
  lemma {:induction false} GroupOpened(events: seq<XmlEvent>, buildType: string, k: nat)
    requires k <= |events| && FlagsAt(events, buildType, k).inItemDefinition
    ensures exists c :: OpenAt(events, buildType, "ItemDefinitionGroup", c, k)
    decreases k
  {
    if k > 0 {
      var f := FlagsAt(events, buildType, k - 1);
      var e := events[k - 1];
      AdvanceFlags(f, e, buildType);
      if Opens(e, "ItemDefinitionGroup", buildType) {
        assert OpenAt(events, buildType, "ItemDefinitionGroup", k - 1, k);
      } else {
        GroupOpened(events, buildType, k - 1);
        var c :| OpenAt(events, buildType, "ItemDefinitionGroup", c, k - 1);
        OpenAtExtend(events, buildType, "ItemDefinitionGroup", c, k - 1);
      }
    }
  }

  /** Libraries are returned from a text event `events[k]` reached with
      `inDeps` set. That flag was raised by an `AdditionalDependencies` start
      at `c`, not closed since, taken while `inItemDefinition` and `inLink`
      were up. Those two were raised by a `Link` start at `l` and by an
      `ItemDefinitionGroup` start at `g` whose `Condition` names the build
      type, neither closed before `c`. Nothing requires `Link` or the group
      to be still open at the text itself. */
  predicate TakenInside(events: seq<XmlEvent>, buildType: string, dlls: seq<LinkArg>, k: int, c: int, l: int, g: int) {
    TakenAt(events, buildType, k, dlls)
    && OpenAt(events, buildType, "AdditionalDependencies", c, k)
    && FlagsAt(events, buildType, c).inItemDefinition && FlagsAt(events, buildType, c).inLink
    && OpenAt(events, buildType, "Link", l, c) && FlagsAt(events, buildType, l).inItemDefinition
    && OpenAt(events, buildType, "ItemDefinitionGroup", g, c)
  }

  /** A text event taken with `inDeps` up lies inside the elements the flags stand for */
  lemma {:induction false} TakenAtInside(events: seq<XmlEvent>, buildType: string, dlls: seq<LinkArg>, k: int)
    requires TakenAt(events, buildType, k, dlls)
    ensures exists c, l, g :: TakenInside(events, buildType, dlls, k, c, l, g)
  {
    DependenciesOpened(events, buildType, k);
    var c :| OpenAt(events, buildType, "AdditionalDependencies", c, k)
             && FlagsAt(events, buildType, c).inItemDefinition && FlagsAt(events, buildType, c).inLink;
    LinkOpened(events, buildType, c);
    var l :| OpenAt(events, buildType, "Link", l, c) && FlagsAt(events, buildType, l).inItemDefinition;
    GroupOpened(events, buildType, c);
    var g :| OpenAt(events, buildType, "ItemDefinitionGroup", g, c);
    assert TakenInside(events, buildType, dlls, k, c, l, g);
  }

  /** Whatever libraries the parser returns were taken inside the elements
      the flags stand for */
  lemma DependenciesTakenInside(events: seq<XmlEvent>, buildType: string, dlls: seq<LinkArg>)
    requires Run(events, buildType, Initial) == Return(Some(dlls))
    ensures exists k, c, l, g :: TakenInside(events, buildType, dlls, k, c, l, g)
  {
    assert events[0..] == events;
    TakenFrom(events, buildType, 0, dlls);
    var k :| TakenAt(events, buildType, k, dlls);
    TakenAtInside(events, buildType, dlls, k);
  }

  /** `events[i]` ends the loop: `Eof`, an error, or a text reached with `inDeps` up */
  predicate StopsAt(events: seq<XmlEvent>, buildType: string, i: nat)
    requires i < |events|
  {
    events[i].Eof? || events[i].Error? || (events[i].Text? && FlagsAt(events, buildType, i).inDeps)
  }

  /** No event in `events[j..k]` ends the loop */
  predicate NoStopBetween(events: seq<XmlEvent>, buildType: string, j: nat, k: nat)
    requires j <= k <= |events|
  {
    forall i :: j <= i < k ==> !StopsAt(events, buildType, i)
  }

  /** An event that does not end the loop hands on the flags `FlagsAt` gives */
  lemma RunPastEvent(events: seq<XmlEvent>, buildType: string, j: nat)
    requires j < |events| && !StopsAt(events, buildType, j)
    ensures Run(events[j..], buildType, FlagsAt(events, buildType, j))
            == Run(events[j + 1..], buildType, FlagsAt(events, buildType, j + 1))
  {
    var f := FlagsAt(events, buildType, j);
    assert events[j..][0] == events[j];
    assert events[j..][1..] == events[j + 1..];
    assert Step(f, events[j], buildType).Continue?;
  }

  /** Run from `events[j]` on, the loop gives what its first stopping event
      `events[k]` gives */
  lemma {:induction false} RunToFirstStop(events: seq<XmlEvent>, buildType: string, j: nat, k: nat)
    requires j <= k < |events| && NoStopBetween(events, buildType, j, k) && StopsAt(events, buildType, k)
    ensures Run(events[j..], buildType, FlagsAt(events, buildType, j))
            == Step(FlagsAt(events, buildType, k), events[k], buildType).result
    decreases k - j
  {
    if j < k {
      RunPastEvent(events, buildType, j);
      RunToFirstStop(events, buildType, j + 1, k);
    } else {
      assert events[j..][0] == events[j];
    }
  }

  /** Run from `events[j]` on with no stopping event left, the loop runs off
      the end and gives `None` */
  lemma {:induction false} RunWithoutStop(events: seq<XmlEvent>, buildType: string, j: nat)
    requires j <= |events| && NoStopBetween(events, buildType, j, |events|)
    ensures Run(events[j..], buildType, FlagsAt(events, buildType, j)) == Return(None)
    decreases |events| - j
  {
    if j < |events| {
      RunPastEvent(events, buildType, j);
      RunWithoutStop(events, buildType, j + 1);
    }
  }

  /** The first text reached with `inDeps` up, with no `Eof` or error before
      it, gives `Some` of its classified entries */
  lemma FirstTakenReturned(events: seq<XmlEvent>, buildType: string, k: nat)
    requires k < |events| && events[k].Text? && FlagsAt(events, buildType, k).inDeps
    requires NoStopBetween(events, buildType, 0, k)
    ensures Run(events, buildType, Initial) == Return(Some(Dependencies(events[k].content)))
  {
    assert events[0..] == events;
    RunToFirstStop(events, buildType, 0, k);
  }

  /** An `Eof` before any text is taken gives `None` */
  lemma FirstEofReturnsNone(events: seq<XmlEvent>, buildType: string, k: nat)
    requires k < |events| && events[k].Eof? && NoStopBetween(events, buildType, 0, k)
    ensures Run(events, buildType, Initial) == Return(None)
  {
    assert events[0..] == events;
    RunToFirstStop(events, buildType, 0, k);
  }

  /** An error before any text is taken and before `Eof` is the malformed-project panic */
  lemma FirstErrorPanics(events: seq<XmlEvent>, buildType: string, k: nat)
    requires k < |events| && events[k].Error? && NoStopBetween(events, buildType, 0, k)
    ensures Run(events, buildType, Initial) == Panic(VsprojMalformed)
  {
    assert events[0..] == events;
    RunToFirstStop(events, buildType, 0, k);
  }

  /** A stream with no stopping event at all gives `None` */
  lemma NoStopReturnsNone(events: seq<XmlEvent>, buildType: string)
    requires NoStopBetween(events, buildType, 0, |events|)
    ensures Run(events, buildType, Initial) == Return(None)
  {
    assert events[0..] == events;
    RunWithoutStop(events, buildType, 0);
  }

  /** Only `inDeps` is tested at a text event: closing `Link` after opening
      `AdditionalDependencies` does not stop its text from being taken */
  lemma DependenciesOutliveLink(condition: string, deps: string, buildType: string, rest: seq<XmlEvent>)
    requires Contains(condition, buildType)
    ensures Run([Start("ItemDefinitionGroup", [Attribute("Condition", condition)]), Start("Link", []),
                 Start("AdditionalDependencies", []), End("Link"), Text(deps)] + rest, buildType, Initial)
            == Return(Some(Dependencies(deps)))
  {
    var attrs := [Attribute("Condition", condition)];
    assert ConditionMatches(attrs, buildType) by { assert SelectsBuildType(attrs[0], buildType); }
    var e4 := [Text(deps)] + rest;
    var e3 := [End("Link")] + e4;
    var e2 := [Start("AdditionalDependencies", [])] + e3;
    var e1 := [Start("Link", [])] + e2;
    var e0 := [Start("ItemDefinitionGroup", attrs)] + e1;
    assert [Start("ItemDefinitionGroup", attrs), Start("Link", []),
            Start("AdditionalDependencies", []), End("Link"), Text(deps)] + rest == e0;
    RunCons(Start("ItemDefinitionGroup", attrs), e1, buildType, Initial, Flags(true, false, false));
    RunCons(Start("Link", []), e2, buildType, Flags(true, false, false), Flags(true, true, false));
    RunCons(Start("AdditionalDependencies", []), e3, buildType, Flags(true, true, false), Flags(true, true, true));
    RunCons(End("Link"), e4, buildType, Flags(true, true, true), Flags(true, false, true));
    RunStops(e4, buildType, Flags(true, false, true), Return(Some(Dependencies(deps))));
  }

  /** The loop never looks past an `Eof` or an error */
  lemma {:induction false} StopEventEndsStream(pre: seq<XmlEvent>, e: XmlEvent, post: seq<XmlEvent>, buildType: string, flags: Flags)
    requires e.Eof? || e.Error?
    ensures Run(pre + [e] + post, buildType, flags) == Run(pre + [e], buildType, flags)
    decreases |pre|
  {
    if |pre| == 0 {
      assert (pre + [e] + post)[0] == e && (pre + [e])[0] == e;
    } else {
      assert (pre + [e] + post)[0] == pre[0] && (pre + [e])[0] == pre[0];
      assert (pre + [e] + post)[1..] == pre[1..] + [e] + post;
      assert (pre + [e])[1..] == pre[1..] + [e];
      match Step(flags, pre[0], buildType)
      case Stop(_) =>
      case Continue(next) => StopEventEndsStream(pre[1..], e, post, buildType, next);
    }
  }

  /** An `End` tag resets its own flag whatever the other flags are: text
      after `</AdditionalDependencies>` is not read */
  lemma ClosedDependenciesIgnoreText(flags: Flags, buildType: string, content: string, rest: seq<XmlEvent>)
    ensures Run([End("AdditionalDependencies"), Text(content)] + rest, buildType, flags)
            == Run(rest, buildType, flags.(inDeps := false))
  {
    assert [End("AdditionalDependencies"), Text(content)] + rest
           == [End("AdditionalDependencies")] + ([Text(content)] + rest);
    var f := flags.(inDeps := false);
    RunCons(End("AdditionalDependencies"), [Text(content)] + rest, buildType, flags, f);
    RunCons(Text(content), rest, buildType, f, f);
  }

  /** `AdditionalDependencies` counts only inside `Link`: after `</Link>` its
      start tag leaves the dependencies flag down */
  lemma ClosedLinkIgnoresDependencies(flags: Flags, buildType: string, attributes: seq<Attribute>, content: string, rest: seq<XmlEvent>)
    requires !flags.inDeps
    ensures Run([End("Link"), Start("AdditionalDependencies", attributes), Text(content)] + rest, buildType, flags)
            == Run(rest, buildType, flags.(inLink := false))
  {
    var e2 := [Text(content)] + rest;
    var e1 := [Start("AdditionalDependencies", attributes)] + e2;
    assert [End("Link"), Start("AdditionalDependencies", attributes), Text(content)] + rest == [End("Link")] + e1;
    var f := flags.(inLink := false);
    RunCons(End("Link"), e1, buildType, flags, f);
    RunCons(Start("AdditionalDependencies", attributes), e2, buildType, f, f);
    RunCons(Text(content), rest, buildType, f, f);
  }

  /** The events of one `ItemDefinitionGroup` with the given `Condition`
      (such as `'$(Configuration)|$(Platform)'=='Release|x64'`) that lists
      the given linker dependencies */
  function Group(condition: string, deps: string): (events: seq<XmlEvent>)
    ensures |events| == 7 && events[0] == Start("ItemDefinitionGroup", [Attribute("Condition", condition)])
  {
    [Start("ItemDefinitionGroup", [Attribute("Condition", condition)]),
     Start("Link", []), Start("AdditionalDependencies", []), Text(deps),
     End("AdditionalDependencies"), End("Link"), End("ItemDefinitionGroup")]
  }

  /** A group for another build type is passed over */
  lemma SkippedGroup(condition: string, deps: string, buildType: string, rest: seq<XmlEvent>)
    requires !Contains(condition, buildType)
    ensures Run(Group(condition, deps) + rest, buildType, Initial) == Run(rest, buildType, Initial)
  {
    var g := Group(condition, deps);
    var events := g + rest;
    var attributes := [Attribute("Condition", condition)];
    assert !ConditionMatches(attributes, buildType) by {
      assert forall k :: 0 <= k < |attributes| ==> attributes[k] == Attribute("Condition", condition);
    }
    assert events[0] == g[0];
    RunContinues(events, buildType, Initial, Initial);
    var e1 := events[1..];
    assert e1 == g[1..] + rest;
    assert e1[0] == Start("Link", []);
    RunContinues(e1, buildType, Initial, Initial);
    var e2 := e1[1..];
    assert e2 == g[2..] + rest;
    assert e2[0] == Start("AdditionalDependencies", []);
    RunContinues(e2, buildType, Initial, Initial);
    var e3 := e2[1..];
    assert e3 == g[3..] + rest;
    assert e3[0] == Text(deps);
    RunContinues(e3, buildType, Initial, Initial);
    assert e3[1..] == g[4..] + rest;
    SkippedGroupEnd(condition, deps, buildType, rest);
  }

  lemma SkippedGroupEnd(condition: string, deps: string, buildType: string, rest: seq<XmlEvent>)
    ensures Run(Group(condition, deps)[4..] + rest, buildType, Initial) == Run(rest, buildType, Initial)
  {
    var g := Group(condition, deps);
    var e4 := g[4..] + rest;
    assert e4[0] == End("AdditionalDependencies");
    RunContinues(e4, buildType, Initial, Initial);
    var e5 := e4[1..];
    assert e5 == g[5..] + rest;
    assert e5[0] == End("Link");
    RunContinues(e5, buildType, Initial, Initial);
    var e6 := e5[1..];
    assert e6 == g[6..] + rest;
    assert e6[0] == End("ItemDefinitionGroup");
    RunContinues(e6, buildType, Initial, Initial);
    assert e6[1..] == rest;
  }

  /** The group for the build type gives its dependencies */
  lemma SelectedGroup(condition: string, deps: string, buildType: string, rest: seq<XmlEvent>)
    requires Contains(condition, buildType)
    ensures Run(Group(condition, deps) + rest, buildType, Initial) == Return(Some(Dependencies(deps)))
  {
    var g := Group(condition, deps);
    SelectedGroupOpen(condition, deps, buildType, rest);
    var e3 := g[3..] + rest;
    assert e3[0] == Text(deps);
    RunStops(e3, buildType, Flags(true, true, true), Return(Some(Dependencies(deps))));
  }

  /** The three openings of the selected group set all three flags */
  lemma SelectedGroupOpen(condition: string, deps: string, buildType: string, rest: seq<XmlEvent>)
    requires Contains(condition, buildType)
    ensures Run(Group(condition, deps) + rest, buildType, Initial)
            == Run(Group(condition, deps)[3..] + rest, buildType, Flags(true, true, true))
  {
    var g := Group(condition, deps);
    var events := g + rest;
    var attributes := [Attribute("Condition", condition)];
    assert SelectsBuildType(attributes[0], buildType);
    assert ConditionMatches(attributes, buildType);
    assert events[0] == Start("ItemDefinitionGroup", attributes);
    var f1 := Flags(true, false, false);
    RunContinues(events, buildType, Initial, f1);
    var e1 := events[1..];
    assert e1 == g[1..] + rest;
    assert e1[0] == Start("Link", []);
    var f2 := Flags(true, true, false);
    RunContinues(e1, buildType, f1, f2);
    var e2 := e1[1..];
    assert e2 == g[2..] + rest;
    assert e2[0] == Start("AdditionalDependencies", []);
    RunContinues(e2, buildType, f2, Flags(true, true, true));
    assert e2[1..] == g[3..] + rest;
  }

  /** A project with a Debug and a Release group: the build type picks the
      group whose `Condition` names it */
  lemma BuildTypePicksGroup(debugCondition: string, debugDeps: string,
                            releaseCondition: string, releaseDeps: string, tail: seq<XmlEvent>)
    requires Contains(debugCondition, "Debug") && !Contains(debugCondition, "Release")
    requires Contains(releaseCondition, "Release")
    ensures Run(Group(debugCondition, debugDeps) + Group(releaseCondition, releaseDeps) + tail, "Release", Initial)
            == Return(Some(Dependencies(releaseDeps)))
    ensures Run(Group(debugCondition, debugDeps) + Group(releaseCondition, releaseDeps) + tail, "Debug", Initial)
            == Return(Some(Dependencies(debugDeps)))
  {
    var d := Group(debugCondition, debugDeps);
    var r := Group(releaseCondition, releaseDeps);
    assert d + r + tail == d + (r + tail);
    SkippedGroup(debugCondition, debugDeps, "Release", r + tail);
    SelectedGroup(releaseCondition, releaseDeps, "Release", tail);
    SelectedGroup(debugCondition, debugDeps, "Debug", r + tail);
  }
}
