/** The encoding sniffer: skip leading whitespace and comments, then classify
    a snippet by its first significant token. */
module LanguageUtils {
  import opened Wrappers
  import opened SupportedLanguages

  // ---------------------------------------------------------------------
  // Character classes
  // ---------------------------------------------------------------------

  /** `Character.isWhitespace`: the space, line and paragraph separators other
      than the non-breaking ones, plus tab, line feed, vertical tab, form feed,
      carriage return and the four information separators U+001C..U+001F. */
  predicate IsWhitespace(c: char) {
    var k := c as int;
    (9 <= k <= 13) || (28 <= k <= 32) || k == 0x1680
    || (0x2000 <= k <= 0x2006) || (0x2008 <= k <= 0x200A)
    || k == 0x2028 || k == 0x2029 || k == 0x205F || k == 0x3000
  }

  /** Regex `\s` (default flags): space, tab, line feed, vertical tab, form feed, carriage return. */
  predicate IsRegexSpace(c: char) {
    c == ' ' || ('\t' as int <= c as int <= '\r' as int)
  }

  /** Regex `[A-Za-z_]`. */
  predicate IsIdentStart(c: char) {
    ('A' <= c <= 'Z') || ('a' <= c <= 'z') || c == '_'
  }

  /** Regex `[\w-]` (default flags: ASCII word characters). */
  predicate IsWordOrDash(c: char) {
    IsIdentStart(c) || ('0' <= c <= '9') || c == '-'
  }

  /** The characters regex `.` does not match: the line terminators. */
  predicate IsLineTerminator(c: char) {
    c == '\n' || c == '\r' || c as int == 0x85 || c as int == 0x2028 || c as int == 0x2029
  }

  // ---------------------------------------------------------------------
  // String helpers with the semantics of java.lang.String
  // ---------------------------------------------------------------------

  /** `text.startsWith(pat, i)`. */
  predicate StartsAt(text: string, pat: string, i: nat) {
    i <= |text| && pat <= text[i..]
  }

  /** `text.indexOf(pat, from)`: the first occurrence at or after `from`, or -1
      (the lemma `IndexOfFindsFirst` states which occurrence). */
  function IndexOf(text: string, pat: string, from: nat): (r: int)
    requires |pat| > 0
    ensures r == -1 || (from <= r && r + |pat| <= |text|)
    decreases |text| - from
  {
    if from + |pat| > |text| then -1
    else if StartsAt(text, pat, from) then from
    else IndexOf(text, pat, from + 1)
  }

  lemma {:induction false} IndexOfFindsFirst(text: string, pat: string, from: nat)
    requires |pat| > 0
    ensures var r := IndexOf(text, pat, from);
      && (r != -1 ==> StartsAt(text, pat, r))
      && (r == -1 ==> forall k :: from <= k ==> !StartsAt(text, pat, k))
      && (r != -1 ==> forall k :: from <= k < r ==> !StartsAt(text, pat, k))
    decreases |text| - from
  {
    if from + |pat| <= |text| && !StartsAt(text, pat, from) {
      IndexOfFindsFirst(text, pat, from + 1);
    }
  }

  /** The end of the whitespace run starting at `i`. */
  function SkipWhitespace(text: string, i: nat): (r: nat)
    requires i <= |text|
    ensures i <= r <= |text|
    ensures forall k :: i <= k < r ==> IsWhitespace(text[k])
    ensures r < |text| ==> !IsWhitespace(text[r])
    decreases |text| - i
  {
    if i < |text| && IsWhitespace(text[i]) then SkipWhitespace(text, i + 1) else i
  }

  /** The position of the next line feed at or after `i`, or the end of text. */
  function LineEnd(text: string, i: nat): (r: nat)
    requires i <= |text|
    ensures i <= r <= |text|
    ensures forall k :: i <= k < r ==> text[k] != '\n'
    ensures r < |text| ==> text[r] == '\n'
    decreases |text| - i
  {
    if i < |text| && text[i] != '\n' then LineEnd(text, i + 1) else i
  }

  // ---------------------------------------------------------------------
  // stripLeadingNoise
  // ---------------------------------------------------------------------

  /** A string that starts with something other than whitespace or a comment opener. */
  predicate Significant(s: string) {
    |s| > 0 && !IsWhitespace(s[0]) && s[0] != '#'
    && !("<!--" <= s) && !("//" <= s) && !("/*" <= s)
  }

  /** What one pass of the source's outer loop body does from position `i`. */
  datatype Scan =
    | Advance(next: nat)     // a comment was skipped: `continue` from `next`
    | Stop(at: nat)          // `break` at `at` (possibly the end of text)
    | Unterminated           // `return ""`: a block comment without terminator

  /** One pass of the loop body: skip whitespace, then skip one comment. */
  function ScanStep(text: string, i: nat): (s: Scan)
    requires i < |text|
    ensures s.Advance? ==> i < s.next <= |text|
    ensures s.Stop? ==> i <= s.at <= |text| && (s.at < |text| ==> Significant(text[s.at..]))
  {
    CommentAt(text, SkipWhitespace(text, i))
  }

  /** The comment branches of the loop body, at the first non-whitespace position `j`. */
  function CommentAt(text: string, j: nat): (s: Scan)
    requires j <= |text|
    ensures s.Advance? ==> j < s.next <= |text|
    ensures s.Stop? ==> s.at == j && (j < |text| && !IsWhitespace(text[j]) ==> Significant(text[j..]))
  {
    if j < |text| && text[j] == '#' then Advance(LineEnd(text, j))
    else if j + 3 < |text| && StartsAt(text, "<!--", j) then
      var end := IndexOf(text, "-->", j + 4);
      if end == -1 then Unterminated else Advance(end + 3)
    else if j + 1 < |text| && StartsAt(text, "//", j) then Advance(LineEnd(text, j))
    else if j + 1 < |text| && StartsAt(text, "/*", j) then
      var end := IndexOf(text, "*/", j + 2);
      if end == -1 then Unterminated else Advance(end + 2)
    else Stop(j)
  }

  /** The source's outer loop from position `i`: `Some(k)` when scanning ends
      at `k`, `None` when a block comment has no terminator. */
  function NoiseEnd(text: string, i: nat): (r: Option<nat>)
    requires i <= |text|
    ensures r.Some? ==> i <= r.value <= |text|
    ensures r.Some? && r.value < |text| ==> Significant(text[r.value..])
    decreases |text| - i
  {
    if i == |text| then Some(i)
    else
      match ScanStep(text, i)
      case Advance(k) => NoiseEnd(text, k)
      case Stop(k) => Some(k)
      case Unterminated => None
  }

  /** `stripLeadingNoise(text)`: the suffix of `text` that follows the leading
      whitespace and comments, or "" when a block comment is unterminated. */
  function StripLeadingNoise(text: string): (r: string)
    ensures |r| <= |text| && r == text[|text| - |r|..]
    ensures r == [] || Significant(r)
  {
    match NoiseEnd(text, 0)
    case None => ""
    case Some(k) => text[k..]
  }

  /** The source's inner whitespace loop. */
  method SkipWhitespaceLoop(text: string, start: nat) returns (i: nat)
    requires start <= |text|
    ensures i == SkipWhitespace(text, start)
  {
    i := start;
    while i < |text| && IsWhitespace(text[i])
      invariant start <= i <= |text|
      invariant SkipWhitespace(text, i) == SkipWhitespace(text, start)
    {
      i := i + 1;
    }
  }

  /** The source's inner loop that runs a `#` or `//` comment up to the next line feed. */
  method SkipLineLoop(text: string, start: nat) returns (i: nat)
    requires start <= |text|
    ensures i == LineEnd(text, start)
  {
    i := start;
    while i < |text| && text[i] != '\n'
      invariant start <= i <= |text|
      invariant LineEnd(text, i) == LineEnd(text, start)
    {
      i := i + 1;
    }
  }

  /** The body of the source's outer loop, from `start`: what it does next. */
  method ScanStepLoop(text: string, start: nat) returns (s: Scan)
    requires start < |text|
    ensures s == ScanStep(text, start)
  {
    var n := |text|;
    var i := SkipWhitespaceLoop(text, start);

    if i < n && text[i] == '#' {
      i := SkipLineLoop(text, i);
      return Advance(i);
    }

    if i + 3 < n && StartsAt(text, "<!--", i) {
      var end := IndexOf(text, "-->", i + 4);
      if end == -1 {
        return Unterminated;
      }
      return Advance(end + 3);
    }

    if i + 1 < n && StartsAt(text, "//", i) {
      i := SkipLineLoop(text, i);
      return Advance(i);
    }

    if i + 1 < n && StartsAt(text, "/*", i) {
      var end := IndexOf(text, "*/", i + 2);
      if end == -1 {
        return Unterminated;
      }
      return Advance(end + 2);
    }

    return Stop(i);
  }

  /** The source's outer index loop, proved to compute `StripLeadingNoise`. */
  method StripLeadingNoiseLoop(text: string) returns (r: string)
    ensures r == StripLeadingNoise(text)
  {
    var i: nat := 0;
    var n := |text|;
    while i < n
      invariant i <= n
      invariant NoiseEnd(text, i) == NoiseEnd(text, 0)
      decreases n - i
    {
      var step := ScanStepLoop(text, i);
      match step
      case Advance(next) =>
        i := next;
      case Unterminated =>
        return "";
      case Stop(at) =>
        i := at;
        break;
    }
    r := text[i..];
  }

  // ---------------------------------------------------------------------
  // Properties of stripLeadingNoise
  // ---------------------------------------------------------------------

  /** Stripping an already stripped string changes nothing. */
  lemma StripIdempotent(text: string)
    ensures StripLeadingNoise(StripLeadingNoise(text)) == StripLeadingNoise(text)
  {
    var r := StripLeadingNoise(text);
    if r != [] {
      assert r[0..] == r;
      assert SkipWhitespace(r, 0) == 0;
      assert ScanStep(r, 0) == Stop(0);
      assert NoiseEnd(r, 0) == Some(0);
    }
  }

  predicate AllWhitespace(w: string) {
    forall k :: 0 <= k < |w| ==> IsWhitespace(w[k])
  }

  lemma SkipsWhitespacePrefix(w: string, rest: string)
    requires AllWhitespace(w) && rest != [] && !IsWhitespace(rest[0])
    ensures SkipWhitespace(w + rest, 0) == |w|
  {
    var text := w + rest;
    assert forall k :: 0 <= k < |w| ==> text[k] == w[k];
    assert text[|w|] == rest[0];
  }

  /** A comment skipped by one pass of the loop body hands over to the next pass. */
  lemma AdvanceContinues(text: string, i: nat)
    requires i < |text| && ScanStep(text, i).Advance?
    ensures NoiseEnd(text, i) == NoiseEnd(text, ScanStep(text, i).next)
  {
  }

  /** A `#` comment runs up to, but not including, the next line feed: one
      pass of the loop body stops exactly on it. */
  lemma HashCommentStep(w: string, c: string, rest: string)
    requires AllWhitespace(w) && '\n' !in c
    ensures var text := w + "#" + c + "\n" + rest;
      var m := |w| + 1 + |c|;
      text[m] == '\n' && ScanStep(text, 0) == Advance(m)
  {
    var text := w + "#" + c + "\n" + rest;
    assert text == w + ("#" + c + "\n" + rest);
    SkipsWhitespacePrefix(w, "#" + c + "\n" + rest);
    var m := |w| + 1 + |c|;
    assert text[m] == '\n';
    assert forall k :: |w| <= k < m ==> text[k] == ("#" + c)[k - |w|];
    assert LineEnd(text, |w|) == m;
  }

  /** A `#` comment with no line feed after it consumes the rest of the input. */
  lemma HashCommentWithoutLineFeed(w: string, c: string)
    requires AllWhitespace(w) && '\n' !in c
    ensures StripLeadingNoise(w + "#" + c) == ""
  {
    var text := w + "#" + c;
    SkipsWhitespacePrefix(w, "#" + c);
    assert forall k :: |w| <= k < |text| ==> text[k] == ("#" + c)[k - |w|];
    assert LineEnd(text, |w|) == |text|;
    assert ScanStep(text, 0) == Advance(|text|);
  }

  /** A `//` comment runs up to, but not including, the next line feed: one
      pass of the loop body stops exactly on it. */
  lemma SlashCommentStep(w: string, c: string, rest: string)
    requires AllWhitespace(w) && '\n' !in c
    ensures var text := w + "//" + c + "\n" + rest;
      var m := |w| + 2 + |c|;
      text[m] == '\n' && ScanStep(text, 0) == Advance(m)
  {
    var text := w + "//" + c + "\n" + rest;
    assert text == w + ("//" + c + "\n" + rest);
    SkipsWhitespacePrefix(w, "//" + c + "\n" + rest);
    var m := |w| + 2 + |c|;
    assert text[m] == '\n';
    assert forall k :: |w| <= k < m ==> text[k] == ("//" + c)[k - |w|];
    assert LineEnd(text, |w|) == m;
    assert text[|w|..][..2] == "//";
    assert !StartsAt(text, "<!--", |w|) by { assert text[|w|] == '/'; }
  }

  /** A `//` comment with no line feed after it consumes the rest of the input. */
  lemma SlashCommentWithoutLineFeed(w: string, c: string)
    requires AllWhitespace(w) && '\n' !in c
    ensures StripLeadingNoise(w + "//" + c) == ""
  {
    var text := w + "//" + c;
    SkipsWhitespacePrefix(w, "//" + c);
    assert forall k :: |w| <= k < |text| ==> text[k] == ("//" + c)[k - |w|];
    assert LineEnd(text, |w|) == |text|;
    assert text[|w|..][..2] == "//";
    assert !StartsAt(text, "<!--", |w|) by { assert text[|w|] == '/'; }
    assert ScanStep(text, 0) == Advance(|text|);
  }

  lemma NoOccurrenceAfterOpener(opener: string, rest: string, w: string, pat: string)
    requires |pat| > 0 && forall k :: !StartsAt(rest, pat, k)
    ensures IndexOf(w + opener + rest, pat, |w| + |opener|) == -1
  {
    var text := w + opener + rest;
    var off := |w| + |opener|;
    forall k | off <= k ensures !StartsAt(text, pat, k) {
      if k <= |text| {
        assert text[k..] == rest[k - off..];
        assert !StartsAt(rest, pat, k - off);
      }
    }
    IndexOfFindsFirst(text, pat, off);
  }

  /** An `<!--` with no `-->` after it makes the whole result empty. */
  lemma UnterminatedMarkupComment(w: string, rest: string)
    requires AllWhitespace(w) && forall k :: !StartsAt(rest, "-->", k)
    ensures StripLeadingNoise(w + "<!--" + rest) == ""
  {
    var text := w + "<!--" + rest;
    assert text == w + ("<!--" + rest);
    SkipsWhitespacePrefix(w, "<!--" + rest);
    assert text[|w|..][..4] == "<!--";
    NoOccurrenceAfterOpener("<!--", rest, w, "-->");
    assert ScanStep(text, 0) == Unterminated;
  }

  /** A `/*` with no `*/` after it makes the whole result empty. */
  lemma UnterminatedBlockComment(w: string, rest: string)
    requires AllWhitespace(w) && forall k :: !StartsAt(rest, "*/", k)
    ensures StripLeadingNoise(w + "/*" + rest) == ""
  {
    var text := w + "/*" + rest;
    assert text == w + ("/*" + rest);
    SkipsWhitespacePrefix(w, "/*" + rest);
    assert text[|w|..][..2] == "/*";
    assert !StartsAt(text, "<!--", |w|) by { assert text[|w|] == '/'; }
    assert !StartsAt(text, "//", |w|) by { assert text[|w| + 1] == '*'; }
    NoOccurrenceAfterOpener("/*", rest, w, "*/");
    assert ScanStep(text, 0) == Unterminated;
  }

  // ---------------------------------------------------------------------
  // The YAML mapping-key regex `^[A-Za-z_][\w-]*\s*:.*`
  // ---------------------------------------------------------------------

  function WordRunEnd(s: string, i: nat): (r: nat)
    requires i <= |s|
    ensures i <= r <= |s|
    ensures forall k :: i <= k < r ==> IsWordOrDash(s[k])
    ensures r < |s| ==> !IsWordOrDash(s[r])
    decreases |s| - i
  {
    if i < |s| && IsWordOrDash(s[i]) then WordRunEnd(s, i + 1) else i
  }

  function SpaceRunEnd(s: string, i: nat): (r: nat)
    requires i <= |s|
    ensures i <= r <= |s|
    ensures forall k :: i <= k < r ==> IsRegexSpace(s[k])
    ensures r < |s| ==> !IsRegexSpace(s[r])
    decreases |s| - i
  {
    if i < |s| && IsRegexSpace(s[i]) then SpaceRunEnd(s, i + 1) else i
  }

  predicate NoLineTerminator(s: string) {
    forall k :: 0 <= k < |s| ==> !IsLineTerminator(s[k])
  }

  /** `s.matches("^[A-Za-z_][\\w-]*\\s*:.*")`: the character classes of the
      three parts are disjoint, so greedy runs find the only split. */
  predicate MatchesYamlKey(s: string): (b: bool)
    ensures b ==> |s| >= 2 && IsIdentStart(s[0]) && ':' in s && !IsLineTerminator(s[|s| - 1])
    ensures ':' !in s ==> !b
  {
    |s| > 0 && IsIdentStart(s[0]) &&
    var k := WordRunEnd(s, 1);
    var m := SpaceRunEnd(s, k);
    m < |s| && s[m] == ':' && NoLineTerminator(s[m + 1..])
  }

  /** The regex language: an identifier `s[..k]`, spaces `s[k..m]`, a colon at
      `m`, and a tail without line terminators that `.*` consumes. */
  ghost predicate YamlKeyShape(s: string, k: nat, m: nat) {
    1 <= k <= m < |s| && IsIdentStart(s[0])
    && (forall p :: 1 <= p < k ==> IsWordOrDash(s[p]))
    && (forall p :: k <= p < m ==> IsRegexSpace(s[p]))
    && s[m] == ':'
    && (forall p :: m < p < |s| ==> !IsLineTerminator(s[p]))
  }

  ghost predicate InYamlKeyLanguage(s: string) {
    exists k: nat, m: nat :: YamlKeyShape(s, k, m)
  }

  /** The scanner accepts exactly the strings of the regex language. */
  lemma MatchesYamlKeyIff(s: string)
    ensures MatchesYamlKey(s) <==> InYamlKeyLanguage(s)
  {
    if MatchesYamlKey(s) {
      var k := WordRunEnd(s, 1);
      var m := SpaceRunEnd(s, k);
      forall p | m < p < |s| ensures !IsLineTerminator(s[p]) {
        assert s[m + 1..][p - m - 1] == s[p];
      }
      assert YamlKeyShape(s, k, m);
    }
    if InYamlKeyLanguage(s) {
      var k: nat, m: nat :| YamlKeyShape(s, k, m);
      assert !IsWordOrDash(s[k]);
      assert WordRunEnd(s, 1) == k;
      assert !IsRegexSpace(s[m]);
      assert SpaceRunEnd(s, k) == m;
      var tail := s[m + 1..];
      forall p | 0 <= p < |tail| ensures !IsLineTerminator(tail[p]) {
        assert tail[p] == s[m + 1 + p];
      }
    }
  }

  /** Java's `.` stops at line terminators, so a colon followed later by a line
      terminator keeps a string out of the regex language: a multi-line
      mapping is not recognised this way. */
  lemma MultiLineIsNotYamlKey(s: string, q: nat, p: nat)
    requires q < p < |s| && s[q] == ':' && IsLineTerminator(s[p])
    ensures !InYamlKeyLanguage(s)
  {
    MatchesYamlKeyIff(s);
    var k := WordRunEnd(s, 1);
    var m := SpaceRunEnd(s, k);
    if IsIdentStart(s[0]) && m < |s| && s[m] == ':' {
      assert m <= q;
      assert s[m + 1..][p - m - 1] == s[p];
    }
  }

  // ---------------------------------------------------------------------
  // detectLanguage
  // ---------------------------------------------------------------------

  /** `detectLanguage(text)`: `None` is the source's `null`. */
  function DetectLanguage(text: string): (r: Option<SupportedLanguage>)
    ensures var s := StripLeadingNoise(text);
      && (s == [] ==> r == None)
      && (r == Some(XML) <==> s != [] && s[0] == '<')
      && (r == Some(JSON) <==> s != [] && (s[0] == '{' || s[0] == '['))
      && (r == Some(YAML) <==> "---" <= s || InYamlKeyLanguage(s))
  {
    var s := StripLeadingNoise(text);
    MatchesYamlKeyIff(s);
    if s == [] then None
    else if s[0] == '<' then Some(XML)
    else if s[0] == '{' || s[0] == '[' then Some(JSON)
    else if "---" <= s || MatchesYamlKey(s) then Some(YAML)
    else None
  }

  /** Leading noise never changes the classification. */
  lemma DetectIgnoresLeadingNoise(text: string)
    ensures DetectLanguage(text) == DetectLanguage(StripLeadingNoise(text))
  {
    StripIdempotent(text);
  }

  /** A snippet whose significant part is a multi-line mapping without a
      leading `---` is not recognised at all. */
  lemma MultiLineMappingUndetected(text: string, q: nat, p: nat)
    requires var s := StripLeadingNoise(text);
      q < p < |s| && s[q] == ':' && IsLineTerminator(s[p])
      && s[0] != '<' && s[0] != '{' && s[0] != '[' && !("---" <= s)
    ensures DetectLanguage(text) == None
  {
    MultiLineIsNotYamlKey(StripLeadingNoise(text), q, p);
  }
}
