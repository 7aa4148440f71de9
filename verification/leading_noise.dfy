/** What `stripLeadingNoise` removes in front of significant text: leading
    whitespace, and leading whitespace followed by one complete comment of
    each of the four kinds. In every case exactly that prefix is removed and
    the significant text after it is kept whole. */
module LeadingNoise {
  import opened Wrappers
  import opened LanguageUtils

  // ---------------------------------------------------------------------
  // The first occurrence of a pattern, seen through a prefix or a suffix
  // ---------------------------------------------------------------------

  /** Searching `x + y` from inside `y` finds what searching `y` finds, moved by `|x|`. */
  lemma {:induction false} IndexOfShift(x: string, y: string, pat: string, j: nat)
    requires |pat| > 0
    ensures var r := IndexOf(y, pat, j);
      IndexOf(x + y, pat, |x| + j) == if r == -1 then -1 else |x| + r
    decreases |y| - j
  {
    var t := x + y;
    if j + |pat| <= |y| {
      assert t[|x| + j..] == y[j..];
      if !StartsAt(y, pat, j) {
        IndexOfShift(x, y, pat, j + 1);
      }
    }
  }

  /** Text appended after an occurrence does not move the first occurrence. */
  lemma {:induction false} IndexOfExtend(y: string, z: string, pat: string, j: nat)
    requires |pat| > 0 && IndexOf(y, pat, j) != -1
    ensures IndexOf(y + z, pat, j) == IndexOf(y, pat, j)
    decreases |y| - j
  {
    var t := y + z;
    assert StartsAt(t, pat, j) == StartsAt(y, pat, j) by {
      if j + |pat| <= |y| {
        assert t[j..][..|pat|] == y[j..][..|pat|];
      }
    }
    if !StartsAt(y, pat, j) {
      IndexOfExtend(y, z, pat, j + 1);
    }
  }

  /** A comment body `c` that is closed by the `close` written after it, and
      not by an earlier occurrence inside it or straddling its end. */
  predicate ClosedAtEnd(c: string, close: string)
    requires |close| > 0
  {
    IndexOf(c + close, close, 0) == |c|
  }

  /** Where `c + close` is followed by anything, the search from the start of
      `c` inside a larger text stops at the `close` written after `c`. */
  lemma CloseFound(x: string, c: string, close: string, s: string)
    requires |close| > 0 && ClosedAtEnd(c, close)
    ensures IndexOf(x + (c + close + s), close, |x|) == |x| + |c|
  {
    IndexOfExtend(c + close, s, close, 0);
    IndexOfShift(x, c + close + s, close, 0);
  }

  // ---------------------------------------------------------------------
  // One pass of the loop body
  // ---------------------------------------------------------------------

  /** A whitespace character hands the scan on to the next position. */
  lemma WhitespaceContinues(t: string, i: nat)
    requires i < |t| && IsWhitespace(t[i])
    ensures NoiseEnd(t, i) == NoiseEnd(t, i + 1)
  {
    assert SkipWhitespace(t, i) == SkipWhitespace(t, i + 1);
    if i + 1 < |t| {
      assert ScanStep(t, i) == ScanStep(t, i + 1);
    }
  }

  /** The scan starting at significant text stops there. */
  lemma SignificantStops(t: string, i: nat)
    requires i < |t| && Significant(t[i..])
    ensures NoiseEnd(t, i) == Some(i)
  {
    assert t[i..][0] == t[i];
    assert SkipWhitespace(t, i) == i;
  }

  /** One comment skipped by the first pass, then significant text: the
      comment is all that is removed. */
  lemma AdvanceThenSignificant(t: string, k: nat, s: string)
    requires 0 < k < |t| && ScanStep(t, 0) == Advance(k) && t[k..] == s && Significant(s)
    ensures StripLeadingNoise(t) == s
  {
    AdvanceContinues(t, 0);
    SignificantStops(t, k);
  }

  /** One line comment skipped by the first pass, its line feed, then
      significant text: the comment and the line feed are all that is removed. */
  lemma AdvanceThenLineFeed(t: string, m: nat, s: string)
    requires 0 < m && m + 1 < |t| && ScanStep(t, 0) == Advance(m) && t[m] == '\n'
    requires t[m + 1..] == s && Significant(s)
    ensures StripLeadingNoise(t) == s
  {
    AdvanceContinues(t, 0);
    WhitespaceContinues(t, m);
    SignificantStops(t, m + 1);
  }

  /** After whitespace, a text that starts with `<!--` opens a markup comment. */
  lemma MarkupOpens(w: string, rest: string)
    requires AllWhitespace(w) && "<!--" <= rest
    ensures var t := w + rest;
      SkipWhitespace(t, 0) == |w| && |w| + 3 < |t| && t[|w|] != '#' && StartsAt(t, "<!--", |w|)
  {
    var t := w + rest;
    SkipsWhitespacePrefix(w, rest);
    assert t[|w|..] == rest;
  }

  /** After whitespace, a text that starts with a block-comment opener opens a block comment and nothing else. */
  lemma BlockOpens(w: string, rest: string)
    requires AllWhitespace(w) && "/*" <= rest
    ensures var t := w + rest;
      && SkipWhitespace(t, 0) == |w| && |w| + 1 < |t| && t[|w|] != '#'
      && !StartsAt(t, "<!--", |w|) && !StartsAt(t, "//", |w|) && StartsAt(t, "/*", |w|)
  {
    var t := w + rest;
    SkipsWhitespacePrefix(w, rest);
    assert t[|w|..] == rest;
    assert rest[0] == '/' && rest[1] == '*';
  }

  /** The first pass over whitespace and a closed `<!--` comment skips both. */
  lemma MarkupCommentStep(w: string, c: string, s: string)
    requires AllWhitespace(w) && ClosedAtEnd(c, "-->")
    ensures ScanStep(w + "<!--" + c + "-->" + s, 0) == Advance(|w| + |c| + 7)
  {
    var t := w + "<!--" + c + "-->" + s;
    var x := w + "<!--";
    assert t == w + ("<!--" + c + "-->" + s) == x + (c + "-->" + s);
    MarkupOpens(w, "<!--" + c + "-->" + s);
    CloseFound(x, c, "-->", s);
  }

  /** The first pass over whitespace and a closed block comment skips both. */
  lemma BlockCommentStep(w: string, c: string, s: string)
    requires AllWhitespace(w) && ClosedAtEnd(c, "*/")
    ensures ScanStep(w + "/*" + c + "*/" + s, 0) == Advance(|w| + |c| + 4)
  {
    var t := w + "/*" + c + "*/" + s;
    var x := w + "/*";
    assert t == w + ("/*" + c + "*/" + s) == x + (c + "*/" + s);
    BlockOpens(w, "/*" + c + "*/" + s);
    CloseFound(x, c, "*/", s);
  }

  // ---------------------------------------------------------------------
  // What stripLeadingNoise removes
  // ---------------------------------------------------------------------

  /** Leading whitespace alone is removed, and nothing after it. */
  lemma StripWhitespaceThenSignificant(w: string, s: string)
    requires AllWhitespace(w) && Significant(s)
    ensures StripLeadingNoise(w + s) == s
  {
    var t := w + s;
    SkipsWhitespacePrefix(w, s);
    assert t[|w|..] == s;
    assert ScanStep(t, 0) == Stop(|w|);
  }

  /** Whitespace and one `#` comment line are removed, and nothing after them. */
  lemma StripHashCommentThenSignificant(w: string, c: string, s: string)
    requires AllWhitespace(w) && '\n' !in c && Significant(s)
    ensures StripLeadingNoise(w + "#" + c + "\n" + s) == s
  {
    var t := w + "#" + c + "\n" + s;
    var m := |w| + 1 + |c|;
    HashCommentStep(w, c, s);
    assert t[m + 1..] == s;
    AdvanceThenLineFeed(t, m, s);
  }

  /** Whitespace and one `//` comment line are removed, and nothing after them. */
  lemma StripSlashCommentThenSignificant(w: string, c: string, s: string)
    requires AllWhitespace(w) && '\n' !in c && Significant(s)
    ensures StripLeadingNoise(w + "//" + c + "\n" + s) == s
  {
    var t := w + "//" + c + "\n" + s;
    var m := |w| + 2 + |c|;
    SlashCommentStep(w, c, s);
    assert t[m + 1..] == s;
    AdvanceThenLineFeed(t, m, s);
  }

  /** Whitespace and one closed `<!--` comment are removed, and nothing after them. */
  lemma StripMarkupCommentThenSignificant(w: string, c: string, s: string)
    requires AllWhitespace(w) && ClosedAtEnd(c, "-->") && Significant(s)
    ensures StripLeadingNoise(w + "<!--" + c + "-->" + s) == s
  {
    var t := w + "<!--" + c + "-->" + s;
    var k := |w| + |c| + 7;
    MarkupCommentStep(w, c, s);
    assert t[k..] == s;
    AdvanceThenSignificant(t, k, s);
  }

  /** Whitespace and one closed block comment are removed, and nothing after them. */
  lemma StripBlockCommentThenSignificant(w: string, c: string, s: string)
    requires AllWhitespace(w) && ClosedAtEnd(c, "*/") && Significant(s)
    ensures StripLeadingNoise(w + "/*" + c + "*/" + s) == s
  {
    var t := w + "/*" + c + "*/" + s;
    var k := |w| + |c| + 4;
    BlockCommentStep(w, c, s);
    assert t[k..] == s;
    AdvanceThenSignificant(t, k, s);
  }
}
