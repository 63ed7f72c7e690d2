/** The link arguments recovered from CMake's output files, and the outcome
    of a recovery attempt. */
module LinkArgs {
  import opened Wrappers

  /** Where a library found as a file came from. As in the code, `basename`
      holds the whole regex match and `libname` the match's first group. */
  datatype DylibPathInfo = DylibPathInfo(path: string, basename: string, libname: string)

  /** What a library-path regex captures: the whole match (group 0) and its
      first group (group 1) */
  datatype Captures = Captures(group0: string, group1: string)

  datatype LinkArg =
    | LinkDir(dir: string)
    | LinkLib(lib: string)
    | Path(info: DylibPathInfo)

  /** The panics of the extraction core */
  datatype Fatal =
    | LinkTxtUnreadable   // "Could not read link_txt_path: …"
    | VsprojMalformed     // "Error parsing vsproj xml"
    | NoWindowsBackend    // "Could not open either vsproj or nmake build"

  /** What a call gives back: the returned value, or the panic that ends the build */
  datatype Outcome<+T> = Return(value: T) | Panic(reason: Fatal)

  /** Every argument is a library found as a file path */
  predicate OnlyPaths(args: seq<LinkArg>) {
    forall k :: 0 <= k < |args| ==> args[k].Path?
  }

  /** `Iterator::filter_map`: the `Some` results of `f` over `xs`, in order */
  function FilterMap<A, B>(f: A -> Option<B>, xs: seq<A>): (ys: seq<B>)
    ensures |ys| <= |xs|
    decreases |xs|
  {
    if |xs| == 0 then []
    else match f(xs[0])
      case Some(y) => [y] + FilterMap(f, xs[1..])
      case None => FilterMap(f, xs[1..])
  }

  /** Filtering distributes over concatenation, so order is preserved */
  lemma {:induction false} FilterMapAppend<A, B>(f: A -> Option<B>, xs: seq<A>, zs: seq<A>)
    ensures FilterMap(f, xs + zs) == FilterMap(f, xs) + FilterMap(f, zs)
    decreases |xs|
  {
    if |xs| == 0 {
      assert xs + zs == zs;
    } else {
      assert (xs + zs)[0] == xs[0];
      assert (xs + zs)[1..] == xs[1..] + zs;
      FilterMapAppend(f, xs[1..], zs);
    }
  }

  /** One more input in front adds its result, if any, in front */
  lemma FilterMapCons<A, B>(f: A -> Option<B>, x: A, xs: seq<A>)
    ensures FilterMap(f, [x] + xs) == (if f(x).Some? then [f(x).value] else []) + FilterMap(f, xs)
  {
    assert ([x] + xs)[0] == x && ([x] + xs)[1..] == xs;
  }

  /** Every result is the image under `f` of one of the inputs */
  lemma {:induction false} FilterMapFrom<A, B>(f: A -> Option<B>, xs: seq<A>, k: nat)
    requires k < |FilterMap(f, xs)|
    ensures exists j :: 0 <= j < |xs| && f(xs[j]) == Some(FilterMap(f, xs)[k])
    decreases |xs|
  {
    var ys := FilterMap(f, xs);
    match f(xs[0])
    case Some(y) =>
      if k == 0 {
        assert f(xs[0]) == Some(ys[0]);
      } else {
        FilterMapFrom(f, xs[1..], k - 1);
        var j :| 0 <= j < |xs[1..]| && f(xs[1..][j]) == Some(FilterMap(f, xs[1..])[k - 1]);
        assert f(xs[j + 1]) == Some(ys[k]);
      }
    case None =>
      FilterMapFrom(f, xs[1..], k);
      var j :| 0 <= j < |xs[1..]| && f(xs[1..][j]) == Some(FilterMap(f, xs[1..])[k]);
      assert f(xs[j + 1]) == Some(ys[k]);
  }

  /** A classifier that only yields library paths gives a list of them */
  lemma {:induction false} FilterMapOnlyPaths<A>(f: A -> Option<LinkArg>, xs: seq<A>)
    requires forall x :: f(x).Some? ==> f(x).value.Path?
    ensures OnlyPaths(FilterMap(f, xs))
    decreases |xs|
  {
    if |xs| > 0 {
      FilterMapOnlyPaths(f, xs[1..]);
    }
  }

  /** The loop that pushes `f`'s results over `xs` onto a vector */
  method Collect<A, B>(f: A -> Option<B>, xs: seq<A>) returns (ys: seq<B>)
    ensures ys == FilterMap(f, xs)
  {
    ys := [];
    var j := 0;
    while j < |xs|
      invariant 0 <= j <= |xs|
      invariant ys + FilterMap(f, xs[j..]) == FilterMap(f, xs)
    {
      assert xs[j..][1..] == xs[j + 1..];
      var y := f(xs[j]);
      if y.Some? {
        ys := ys + [y.value];
      }
      j := j + 1;
    }
    assert xs[j..] == [];
    assert ys + [] == ys;
  }
}
