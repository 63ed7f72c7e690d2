/** The operations of Rust's `str` that the link-argument code relies on,
    written over `seq<char>`. */
module Text {
  import opened Wrappers

  predicate StartsWith(s: string, prefix: string) {
    |prefix| <= |s| && s[..|prefix|] == prefix
  }

  predicate EndsWith(s: string, suffix: string) {
    |suffix| <= |s| && s[|s| - |suffix|..] == suffix
  }

  /** `pat` occurs in `s` starting at index `i` */
  predicate OccursAt(s: string, pat: string, i: nat) {
    i + |pat| <= |s| && s[i..i + |pat|] == pat
  }

  /** `str::find`: the index of the first occurrence of `pat` in `s` */
  function Find(s: string, pat: string): (r: Option<nat>)
    ensures r.Some? ==> OccursAt(s, pat, r.value)
    ensures r.Some? ==> forall j: nat :: j < r.value ==> !OccursAt(s, pat, j)
    ensures r.None? ==> forall j: nat :: !OccursAt(s, pat, j)
  {
    FindFrom(s, pat, 0)
  }

  function FindFrom(s: string, pat: string, i: nat): (r: Option<nat>)
    ensures r.Some? ==> i <= r.value && OccursAt(s, pat, r.value)
    ensures r.Some? ==> forall j: nat :: i <= j < r.value ==> !OccursAt(s, pat, j)
    ensures r.None? ==> forall j: nat :: i <= j ==> !OccursAt(s, pat, j)
    decreases |s| - i
  {
    if i + |pat| > |s| then None
    else if s[i..i + |pat|] == pat then Some(i)
    else FindFrom(s, pat, i + 1)
  }

  /** `s.find(pat)` is `Some(0)` exactly when `s` starts with `pat` */
  lemma FindAtZero(s: string, pat: string)
    ensures Find(s, pat) == Some(0) <==> StartsWith(s, pat)
  {
    if StartsWith(s, pat) {
      assert OccursAt(s, pat, 0);
    }
  }

  /** `str::contains` */
  predicate Contains(s: string, sub: string)
    ensures Contains(s, sub) <==> exists i: nat :: OccursAt(s, sub, i)
  {
    Find(s, sub).Some?
  }

  /** The index of the first `c` in `s`, or `|s|` when there is none */
  function IndexOf(s: string, c: char): (i: nat)
    ensures i <= |s| && (i < |s| ==> s[i] == c)
    ensures forall j :: 0 <= j < i ==> s[j] != c
  {
    if |s| == 0 || s[0] == c then 0 else 1 + IndexOf(s[1..], c)
  }

  /** The index of the last `c` in `s` */
  function LastIndexOf(s: string, c: char): (r: Option<nat>)
    ensures r.Some? ==> r.value < |s| && s[r.value] == c
    ensures r.Some? ==> forall j :: r.value < j < |s| ==> s[j] != c
    ensures r.None? ==> forall j :: 0 <= j < |s| ==> s[j] != c
  {
    if |s| == 0 then None
    else if s[|s| - 1] == c then Some(|s| - 1)
    else LastIndexOf(s[..|s| - 1], c)
  }

  /** `str::split` on one character: the pieces between the occurrences of
      `sep`. There is always at least one piece, and empty pieces are kept. */
  function Split(s: string, sep: char): (pieces: seq<string>)
    ensures |pieces| >= 1
    ensures forall k :: 0 <= k < |pieces| ==> sep !in pieces[k]
    decreases |s|
  {
    var i := IndexOf(s, sep);
    if i == |s| then [s] else [s[..i]] + Split(s[i + 1..], sep)
  }

  /** The pieces put back together with `sep` between them */
  function Join(pieces: seq<string>, sep: char): string
    requires |pieces| >= 1
  {
    if |pieces| == 1 then pieces[0] else pieces[0] + [sep] + Join(pieces[1..], sep)
  }

  /** Splitting loses nothing: joining the pieces restores the text */
  lemma {:induction false} JoinSplit(s: string, sep: char)
    ensures Join(Split(s, sep), sep) == s
    decreases |s|
  {
    var i := IndexOf(s, sep);
    if i < |s| {
      var tail := Split(s[i + 1..], sep);
      JoinSplit(s[i + 1..], sep);
      JoinCons(s[..i], tail, sep);
      assert s == s[..i] + [sep] + s[i + 1..] by {
        assert s[i] == sep;
      }
    }
  }

  lemma JoinCons(p: string, tail: seq<string>, sep: char)
    requires |tail| >= 1
    ensures Join([p] + tail, sep) == p + [sep] + Join(tail, sep)
  {
    assert ([p] + tail)[1..] == tail;
  }

  /** Splitting a join of separator-free pieces gives those pieces back */
  lemma {:induction false} SplitJoin(pieces: seq<string>, sep: char)
    requires |pieces| >= 1
    requires forall k :: 0 <= k < |pieces| ==> sep !in pieces[k]
    ensures Split(Join(pieces, sep), sep) == pieces
    decreases |pieces|
  {
    if |pieces| == 1 {
      assert IndexOf(pieces[0], sep) == |pieces[0]|;
    } else {
      SplitAfterPiece(pieces[0], sep, Join(pieces[1..], sep));
      SplitJoin(pieces[1..], sep);
      assert pieces == [pieces[0]] + pieces[1..];
    }
  }

  /** A text without the separator is one piece */
  lemma SplitNoSeparator(s: string, sep: char)
    requires sep !in s
    ensures Split(s, sep) == [s]
  {
    assert IndexOf(s, sep) == |s|;
  }

  /** A separator-free first piece is split off whole */
  lemma SplitAfterPiece(p: string, sep: char, rest: string)
    requires sep !in p
    ensures Split(p + [sep] + rest, sep) == [p] + Split(rest, sep)
  {
    var s := p + [sep] + rest;
    assert s[|p|] == sep;
    assert forall j :: 0 <= j < |p| ==> s[j] == p[j];
    assert IndexOf(s, sep) == |p|;
    assert s[..|p|] == p;
    assert s[|p| + 1..] == rest;
  }

  /** `char::is_ascii_digit` */
  predicate IsDigit(c: char) {
    '0' <= c <= '9'
  }

  /** `char::is_whitespace`: the Unicode White_Space characters */
  predicate IsWhitespace(c: char) {
    ('\t' <= c <= '\r') || c == ' ' || c == '\U{85}' || c == '\U{A0}' || c == '\U{1680}'
    || ('\U{2000}' <= c <= '\U{200A}') || c == '\U{2028}' || c == '\U{2029}'
    || c == '\U{202F}' || c == '\U{205F}' || c == '\U{3000}'
  }

  /** A non-empty run of non-whitespace characters */
  predicate IsWord(w: string) {
    |w| > 0 && forall j :: 0 <= j < |w| ==> !IsWhitespace(w[j])
  }

  /** The length of the leading run of non-whitespace characters of `s` */
  function WordLength(s: string): (n: nat)
    ensures n <= |s| && (n < |s| ==> IsWhitespace(s[n]))
    ensures forall j :: 0 <= j < n ==> !IsWhitespace(s[j])
  {
    if |s| == 0 || IsWhitespace(s[0]) then 0 else 1 + WordLength(s[1..])
  }

  /** `str::split_whitespace`: the maximal runs of non-whitespace characters */
  function SplitWhitespace(s: string): (words: seq<string>)
    ensures forall k :: 0 <= k < |words| ==> IsWord(words[k])
    decreases |s|
  {
    if |s| == 0 then []
    else if IsWhitespace(s[0]) then SplitWhitespace(s[1..])
    else
      var n := WordLength(s);
      [s[..n]] + SplitWhitespace(s[n..])
  }

  /** Whitespace only, possibly none */
  predicate IsBlank(g: string) {
    forall j :: 0 <= j < |g| ==> IsWhitespace(g[j])
  }

  /** Each word followed by the whitespace after it */
  function Spaced(words: seq<string>, gaps: seq<string>): string
    requires |gaps| == |words|
    decreases |words|
  {
    if |words| == 0 then [] else words[0] + gaps[0] + Spaced(words[1..], gaps[1..])
  }

  /** `lead + Spaced(words, gaps)` lays out `words`: leading whitespace, then
      each word and its whitespace, a non-empty gap between two words, and
      possibly trailing whitespace after the last */
  predicate IsLayout(lead: string, words: seq<string>, gaps: seq<string>) {
    IsBlank(lead) && |gaps| == |words|
    && (forall k :: 0 <= k < |words| ==> IsWord(words[k]) && IsBlank(gaps[k]))
    && (forall k :: 0 <= k < |words| - 1 ==> |gaps[k]| > 0)
  }

  /** Splitting a layout of words, whatever whitespace separates them, gives
      the words back in order */
  lemma {:induction false} SplitWhitespaceOfLayout(lead: string, words: seq<string>, gaps: seq<string>)
    requires IsLayout(lead, words, gaps)
    ensures SplitWhitespace(lead + Spaced(words, gaps)) == words
    decreases |words|
  {
    SkipBlank(lead, Spaced(words, gaps));
    if |words| > 0 {
      var rest := Spaced(words[1..], gaps[1..]);
      LayoutRest(lead, words, gaps);
      SplitAfterWord(words[0], gaps[0] + rest);
      SkipBlank(gaps[0], rest);
      SplitWhitespaceOfLayout("", words[1..], gaps[1..]);
      assert "" + rest == rest;
      assert words == [words[0]] + words[1..];
    }
  }

  /** Past its first word, a layout is a layout of the other words with no
      leading whitespace, and the first word is followed by whitespace or
      by nothing */
  lemma LayoutRest(lead: string, words: seq<string>, gaps: seq<string>)
    requires IsLayout(lead, words, gaps) && |words| > 0
    ensures IsLayout("", words[1..], gaps[1..])
    ensures Spaced(words, gaps) == words[0] + (gaps[0] + Spaced(words[1..], gaps[1..]))
    ensures var tail := gaps[0] + Spaced(words[1..], gaps[1..]); |tail| == 0 || IsWhitespace(tail[0])
  {
    var rest := Spaced(words[1..], gaps[1..]);
    var tail := gaps[0] + rest;
    AppendAssociative(words[0], gaps[0], rest);
    if |gaps[0]| == 0 {
      assert |words| == 1 && rest == [];
    } else {
      assert tail[0] == gaps[0][0];
    }
  }

  /** Leading whitespace is skipped */
  lemma {:induction false} SkipBlank(g: string, t: string)
    requires IsBlank(g)
    ensures SplitWhitespace(g + t) == SplitWhitespace(t)
    decreases |g|
  {
    if |g| > 0 {
      var s := g + t;
      assert s[0] == g[0] && IsWhitespace(s[0]);
      assert s[1..] == g[1..] + t;
      assert IsBlank(g[1..]) by {
        forall j | 0 <= j < |g[1..]| ensures IsWhitespace(g[1..][j]) {
          assert g[1..][j] == g[j + 1];
        }
      }
      SkipBlank(g[1..], t);
    } else {
      assert g + t == t;
    }
  }

  /** Every text is a layout of the words `split_whitespace` finds in it:
      nothing but those words and whitespace, in that order */
  lemma {:induction false} LayoutOfSplitWhitespace(s: string)
    ensures exists lead, gaps :: IsLayout(lead, SplitWhitespace(s), gaps)
              && s == lead + Spaced(SplitWhitespace(s), gaps)
    decreases |s|
  {
    if |s| == 0 {
      assert IsLayout([], SplitWhitespace(s), []) && s == [] + Spaced(SplitWhitespace(s), []);
    } else if IsWhitespace(s[0]) {
      var words := SplitWhitespace(s[1..]);
      LayoutOfSplitWhitespace(s[1..]);
      var lead, gaps :| IsLayout(lead, words, gaps) && s[1..] == lead + Spaced(words, gaps);
      LayoutAfterBlank(s[0], s[1..], lead, words, gaps);
      assert s == [s[0]] + s[1..];
      assert SplitWhitespace(s) == words;
    } else {
      var n := WordLength(s);
      var words := SplitWhitespace(s[n..]);
      LayoutOfSplitWhitespace(s[n..]);
      var lead, gaps :| IsLayout(lead, words, gaps) && s[n..] == lead + Spaced(words, gaps);
      LayoutAfterWord(s[..n], s[n..], lead, words, gaps);
      assert s == s[..n] + s[n..];
      assert SplitWhitespace(s) == [s[..n]] + words;
    }
  }

  /** A whitespace character in front of a layout joins its leading whitespace */
  lemma LayoutAfterBlank(c: char, rest: string, lead: string, words: seq<string>, gaps: seq<string>)
    requires IsWhitespace(c) && IsLayout(lead, words, gaps) && rest == lead + Spaced(words, gaps)
    ensures IsLayout([c] + lead, words, gaps) && [c] + rest == ([c] + lead) + Spaced(words, gaps)
  {
    assert IsBlank([c] + lead) by {
      forall j | 0 <= j < |[c] + lead| ensures IsWhitespace(([c] + lead)[j]) {
        if j > 0 { assert ([c] + lead)[j] == lead[j - 1]; }
      }
    }
    AppendAssociative([c], lead, Spaced(words, gaps));
  }

  /** A word in front of a layout, followed by whitespace or by nothing, is
      its first word; the layout's leading whitespace becomes the word's gap */
  lemma LayoutAfterWord(w: string, rest: string, lead: string, words: seq<string>, gaps: seq<string>)
    requires IsWord(w) && IsLayout(lead, words, gaps) && rest == lead + Spaced(words, gaps)
    requires |rest| == 0 || IsWhitespace(rest[0])
    ensures IsLayout("", [w] + words, [lead] + gaps)
    ensures w + rest == "" + Spaced([w] + words, [lead] + gaps)
  {
    var words2 := [w] + words;
    var gaps2 := [lead] + gaps;
    assert words2[1..] == words && gaps2[1..] == gaps;
    assert Spaced(words2, gaps2) == w + lead + Spaced(words, gaps);
    AppendAssociative(w, lead, Spaced(words, gaps));
    assert |words| > 0 ==> |lead| > 0 by {
      if |words| > 0 {
        var spaced := Spaced(words, gaps);
        assert spaced == words[0] + (gaps[0] + Spaced(words[1..], gaps[1..]));
        assert spaced[0] == words[0][0];
        HeadOfConcat(lead, spaced);
      }
    }
    forall k | 0 <= k < |words2| ensures IsWord(words2[k]) && IsBlank(gaps2[k]) {
      if k > 0 { assert words2[k] == words[k - 1] && gaps2[k] == gaps[k - 1]; }
    }
    forall k | 0 <= k < |words2| - 1 ensures |gaps2[k]| > 0 {
      if k > 0 { assert gaps2[k] == gaps[k - 1]; }
    }
    assert "" + Spaced(words2, gaps2) == Spaced(words2, gaps2);
  }

  /** Behind an empty prefix the first element is the second part's; kept as
      a lemma so the proofs that use it stay small */
  lemma HeadOfConcat<T>(a: seq<T>, b: seq<T>)
    requires |b| > 0
    ensures |a| == 0 ==> (a + b)[0] == b[0]
  {
  }

  /** Concatenation is associative; kept as a lemma so the proofs that use
      it stay small */
  lemma AppendAssociative<T>(a: seq<T>, b: seq<T>, c: seq<T>)
    ensures a + b + c == a + (b + c)
  {
  }

  /** A word followed by whitespace or by nothing is split off whole */
  lemma SplitAfterWord(w: string, tail: string)
    requires IsWord(w)
    requires |tail| == 0 || IsWhitespace(tail[0])
    ensures SplitWhitespace(w + tail) == [w] + SplitWhitespace(tail)
  {
    var s := w + tail;
    WordLengthOfWord(w, tail);
    assert !IsWhitespace(s[0]);
    assert s[..|w|] == w && s[|w|..] == tail;
  }

  lemma WordLengthOfWord(w: string, tail: string)
    requires IsWord(w)
    requires |tail| == 0 || IsWhitespace(tail[0])
    ensures WordLength(w + tail) == |w|
  {
    assert forall j :: 0 <= j < |w| ==> (w + tail)[j] == w[j];
    assert |tail| > 0 ==> (w + tail)[|w|] == tail[0];
  }
}
