/**
 * The deterministic text handling of the article-port script: reading the
 * title, date and body window out of the extracted page, cleaning the body
 * markdown, reading the language-model reply, the slug and the assembled
 * post with its file name.
 */
module PortArticles {
  import opened Wrappers
  import opened Strings
  import opened Dedup
  import opened Pipeline
  import opened Slugs
  import opened PostFormat

  // ---------------------------------------------------------------------------
  // Dates

  /** A calendar date as `datetime.strptime` returns it. */
  datatype Date = Date(year: nat, month: nat, day: nat)

  predicate ValidDate(d: Date) {
    1 <= d.year <= 9999 && 1 <= d.month <= 12 && 1 <= d.day <= 31
  }

  const FallbackDate: String := "2024-01-01"

  /** The date part of the file name and front matter: `YYYY-MM-DD`, or the fallback date. */
  function DateString(d: Option<Date>): (r: String)
    requires d.Some? ==> ValidDate(d.value)
    ensures d.None? ==> r == FallbackDate
    ensures |r| == 10 && r[4] == '-' && r[7] == '-'
    ensures AllDigits(r[..4]) && AllDigits(r[5..7]) && AllDigits(r[8..])
    ensures d.Some? ==>
      && ParseDigits(r[..4]) == d.value.year
      && ParseDigits(r[5..7]) == d.value.month
      && ParseDigits(r[8..]) == d.value.day
  {
    match d
    case None =>
      var r := FallbackDate;
      assert r[..4] == "2024" && r[5..7] == "01" && r[8..] == "01";
      r
    case Some(date) =>
      var y, m, dd := ZeroPad(date.year, 4), ZeroPad(date.month, 2), ZeroPad(date.day, 2);
      DateParts(y, m, dd);
      y + "-" + m + "-" + dd
  }

  /** Where the year, month and day fields sit in `YYYY-MM-DD`. */
  lemma DateParts(y: String, m: String, dd: String)
    requires |y| == 4 && |m| == 2 && |dd| == 2
    ensures var r := y + "-" + m + "-" + dd;
      |r| == 10 && r[4] == '-' && r[7] == '-' && r[..4] == y && r[5..7] == m && r[8..] == dd
  {
    var r := y + "-" + m + "-" + dd;
    assert r[..4] == y && r[5..7] == m && r[8..] == dd;
  }

  // ---------------------------------------------------------------------------
  // Title, date and body window

  const BuilderSuffix: String := "AWS Builder Center"

  /**
   * `re.sub(r"\s*\|\s*AWS Builder Center$", "", title)`: a `|` followed by
   * optional whitespace and `AWS Builder Center` at the very end is removed,
   * together with the whitespace around the `|`.
   */
  function StripBuilderSuffix(t: String): (r: String)
    ensures |r| <= |t| && r == t[..|r|]
    ensures !EndsWith(t, BuilderSuffix) ==> r == t
    ensures EndsWith(t, BuilderSuffix) && !EndsWith(DropWhileEnd(t[..|t| - |BuilderSuffix|], IsSpace), "|") ==> r == t
  {
    if !EndsWith(t, BuilderSuffix) then t
    else
      var before := DropWhileEnd(t[..|t| - |BuilderSuffix|], IsSpace);
      if before != [] && before[|before| - 1] == '|' then
        var r := DropWhileEnd(before[..|before| - 1], IsSpace);
        assert before == t[..|before|];
        assert r == t[..|r|];
        r
      else t
  }

  predicate AllSpace(s: String) {
    forall i :: 0 <= i < |s| ==> IsSpace(s[i])
  }

  /** The suffix goes, and with it the whitespace on both sides of its `|`. */
  lemma StripBuilderSuffixRemoves(x: String, ws: String)
    requires AllSpace(ws)
    ensures StripBuilderSuffix(x + "|" + ws + BuilderSuffix) == DropWhileEnd(x, IsSpace)
  {
    var t := x + "|" + ws + BuilderSuffix;
    assert t[|t| - |BuilderSuffix|..] == BuilderSuffix;
    assert t[..|t| - |BuilderSuffix|] == (x + "|") + ws;
    DropWhileEndAppend(x + "|", ws, IsSpace);
    assert (x + "|")[..|x|] == x;
  }

  /** The heading found by the title search and where its `===` underline ends. */
  datatype TitleMatch = TitleMatch(heading: String, end: nat)

  /** The outcome of the `Published …` search and the month-name date parsing. */
  datatype DateMatch =
    | NoDateMatch            // no `Published …` in the page
    | ParsedDate(date: Date) // a date in either month format
    | UnparsableDate         // found, but neither format parses it: `ValueError`

  /**
   * What the regular-expression searches find in the raw page: the title
   * heading, the published date, the end of each start marker's first
   * match and the start of each end marker's first match (in the order of
   * the marker lists), and the Builder Center tags.
   */
  datatype ArticleSearches = ArticleSearches(
    title: Option<TitleMatch>,
    published: DateMatch,
    startMarkerEnds: seq<Option<nat>>,
    endMarkerStarts: seq<Option<nat>>,
    builderTags: seq<String>)

  datatype Article = Article(title: String, date: Option<Date>, body: String, builderTags: seq<String>)

  datatype ArticleError = BadPublishedDate

  /** The article title: the heading text, trimmed, without the Builder Center suffix; `""` without a heading. */
  function ArticleTitle(m: Option<TitleMatch>): String {
    if m.Some? then StripBuilderSuffix(Strip(m.value.heading)) else ""
  }

  /** The position of the first marker that matched, or `|ms|` when none did. */
  function FirstMatchIndex(ms: seq<Option<nat>>): (i: nat)
    ensures i <= |ms|
    ensures forall k :: 0 <= k < i ==> ms[k].None?
    ensures i < |ms| ==> ms[i].Some?
  {
    if ms == [] || ms[0].Some? then 0 else 1 + FirstMatchIndex(ms[1..])
  }

  /** Where the body starts: the end of the first start marker that matched, else just past the title block. */
  function BodyStart(searches: ArticleSearches): Option<nat> {
    var i := FirstMatchIndex(searches.startMarkerEnds);
    if i < |searches.startMarkerEnds| then searches.startMarkerEnds[i]
    else if searches.title.Some? then Some(searches.title.value.end + 1)
    else None
  }

  /** The earliest start among the end markers that matched, and `limit` when that is earlier. */
  function EarliestStart(ms: seq<Option<nat>>, limit: nat): (r: nat)
    ensures r <= limit
    ensures forall i :: 0 <= i < |ms| && ms[i].Some? ==> r <= ms[i].value
    ensures r == limit || exists i :: 0 <= i < |ms| && ms[i] == Some(r)
  {
    if ms == [] then limit
    else
      var rest := EarliestStart(ms[..|ms| - 1], limit);
      var last := ms[|ms| - 1];
      if last.Some? && last.value < rest then last.value else rest
  }

  /** The trimmed text between the two positions; `""` when there is no start, or it is 0. */
  function BodyText(raw: String, start: Option<nat>, end: nat): String {
    if start.Some? && start.value != 0 then Strip(Slice(raw, start.value, end)) else ""
  }

  /** The start-marker loop: the end of the first marker that matched, else just past the title block. */
  method FindBodyStart(searches: ArticleSearches) returns (bodyStart: Option<nat>)
    ensures bodyStart == BodyStart(searches)
  {
    bodyStart := None;
    var i := 0;
    while i < |searches.startMarkerEnds|
      invariant i <= |searches.startMarkerEnds|
      invariant forall k :: 0 <= k < i ==> searches.startMarkerEnds[k].None?
    {
      var m := searches.startMarkerEnds[i];
      if m.Some? {
        bodyStart := m;
        break;
      }
      i := i + 1;
    }
    if bodyStart.None? {
      if searches.title.Some? {
        bodyStart := Some(searches.title.value.end + 1);
      }
    }
  }

  /** The end-marker loop: a running minimum that starts at `limit`. */
  method FindBodyEnd(ends: seq<Option<nat>>, limit: nat) returns (bodyEnd: nat)
    ensures bodyEnd == EarliestStart(ends, limit)
  {
    bodyEnd := limit;
    for j := 0 to |ends|
      invariant bodyEnd == EarliestStart(ends[..j], limit)
    {
      assert ends[..j + 1][..j] == ends[..j];
      var m := ends[j];
      if m.Some? && m.value < bodyEnd {
        bodyEnd := m.value;
      }
    }
    assert ends[..|ends|] == ends;
  }

  /** `extract_article`: title, date, body window and tags, or the error of an unparsable date. */
  method ExtractArticle(raw: String, searches: ArticleSearches) returns (r: Result<Article, ArticleError>)
    requires searches.published.ParsedDate? ==> ValidDate(searches.published.date)
    ensures r.Failure? <==> searches.published.UnparsableDate?
    ensures r.Success? && r.value.date.Some? ==> ValidDate(r.value.date.value)
    ensures r.Success? ==>
      && r.value.title == ArticleTitle(searches.title)
      && r.value.date == (if searches.published.ParsedDate? then Some(searches.published.date) else None)
      && r.value.body == BodyText(raw, BodyStart(searches), EarliestStart(searches.endMarkerStarts, |raw|))
      && r.value.builderTags == searches.builderTags
  {
    var title := if searches.title.Some? then Strip(searches.title.value.heading) else "";
    title := StripBuilderSuffix(title);
    assert StripBuilderSuffix("") == "";
    var date: Option<Date>;
    match searches.published {
      case NoDateMatch => date := None;
      case ParsedDate(d) => date := Some(d);
      case UnparsableDate => return Failure(BadPublishedDate);
    }
    var bodyStart := FindBodyStart(searches);
    var bodyEnd := FindBodyEnd(searches.endMarkerStarts, |raw|);
    var body := if bodyStart.Some? && bodyStart.value != 0 then Strip(Slice(raw, bodyStart.value, bodyEnd)) else "";
    return Success(Article(title, date, body, searches.builderTags));
  }

  /** Without a start marker and without a title the body is empty. */
  lemma NoStartNoBody(raw: String, searches: ArticleSearches)
    requires forall k :: 0 <= k < |searches.startMarkerEnds| ==> searches.startMarkerEnds[k].None?
    requires searches.title.None?
    ensures BodyStart(searches).None?
    ensures BodyText(raw, BodyStart(searches), EarliestStart(searches.endMarkerStarts, |raw|)) == ""
  {
  }

  /**
   * Inside the page, the body is the text between start and end with its
   * surrounding whitespace removed, and it is empty when the end comes first.
   */
  lemma BodyIsTrimmedWindow(raw: String, start: nat, end: nat)
    requires 0 < start <= |raw|
    ensures start <= end <= |raw| ==> BodyText(raw, Some(start), end) == Strip(raw[start..end])
    ensures end <= start ==> BodyText(raw, Some(start), end) == ""
  {
    if end <= start {
      assert Slice(raw, start, end) == [];
      assert Strip([]) == [];
    }
  }

  // ---------------------------------------------------------------------------
  // Body cleanup: navigation lines

  /** Navigation fragments recognised by how the trimmed line starts. */
  const NavigationPrefixes: seq<String> := [
    "Sign in to comment", "No more comments", "[About]", "[Builder Center]",
    "*   [Home]", "*   [Learn]", "*   [Build]", "*   [Connect]", "*   [Community]",
    "*   [Wishlist]", "Explore AWS"]

  /** Navigation fragments recognised only as the whole trimmed line. */
  const NavigationLines: set<String> := {
    "Sign in", "Newest", "Sort by", "Cookie preferences", "Your Privacy Choices",
    "Follow", "AWS Employee"}

  /** Whether a trimmed line matches one of the navigation skip patterns. */
  predicate IsNavigationLine(t: String) {
    t in NavigationLines || exists i :: 0 <= i < |NavigationPrefixes| && StartsWith(t, NavigationPrefixes[i])
  }

  function NavigationContribution(line: String): seq<String> {
    if IsNavigationLine(Strip(line)) then [] else [line]
  }

  /** The lines of the first cleanup pass: every line that is not navigation, in order. */
  function NavigationFiltered(lines: seq<String>): seq<String> {
    Collect(lines, NavigationContribution)
  }

  /** A line survives the first pass exactly when its trimmed text is not navigation. */
  lemma NavigationFilteredMembership(lines: seq<String>, line: String)
    ensures line in NavigationFiltered(lines) <==> line in lines && !IsNavigationLine(Strip(line))
  {
    CollectMembership(lines, NavigationContribution, line);
    if line in lines && !IsNavigationLine(Strip(line)) {
      var j :| 0 <= j < |lines| && lines[j] == line;
      assert Contributes(NavigationContribution, lines[j], line);
    }
  }

  /** No surviving line is navigation. */
  lemma NavigationFilteredClean(lines: seq<String>)
    ensures forall i :: 0 <= i < |NavigationFiltered(lines)| ==> !IsNavigationLine(Strip(NavigationFiltered(lines)[i]))
  {
    var r := NavigationFiltered(lines);
    forall i | 0 <= i < |r| ensures !IsNavigationLine(Strip(r[i])) {
      NavigationFilteredMembership(lines, r[i]);
    }
  }

  /** The surviving lines keep their order: the result for `a + b` is that of `a`, then that of `b`. */
  lemma NavigationFilteredOrder(a: seq<String>, b: seq<String>)
    ensures NavigationFiltered(a + b) == NavigationFiltered(a) + NavigationFiltered(b)
  {
    CollectConcat(a, b, NavigationContribution);
  }

  // ---------------------------------------------------------------------------
  // Body cleanup: blank-line runs

  predicate IsNewline(c: char) { c == '\n' }

  /** Three newlines in a row start at `i`. */
  predicate BlankRunAt(s: String, i: nat) {
    i + 3 <= |s| && s[i] == '\n' && s[i + 1] == '\n' && s[i + 2] == '\n'
  }

  /** `s` has no run of three or more newlines. */
  predicate NoBlankRun(s: String) {
    forall i: nat :: i < |s| ==> !BlankRunAt(s, i)
  }

  lemma NoBlankRunIsNoTriple(s: String)
    ensures NoBlankRun(s) <==> !Contains(s, "\n\n\n")
  {
    forall i: nat ensures BlankRunAt(s, i) <==> OccursAt(s, "\n\n\n", i) {
      if i + 3 <= |s| {
        assert s[i..i + 3] == [s[i], s[i + 1], s[i + 2]];
      }
    }
  }

  /** `re.sub(r"\n{3,}", "\n\n", s)`: every run of three or more newlines becomes two. */
  function CollapseBlankRuns(s: String): (r: String)
    ensures |r| <= |s|
    decreases |s|
  {
    if BlankRunAt(s, 0) then "\n\n" + CollapseBlankRuns(DropWhile(s[3..], IsNewline))
    else if s == [] then []
    else [s[0]] + CollapseBlankRuns(s[1..])
  }

  /** The collapse keeps the first character. */
  lemma CollapseBlankRunsFirst(s: String)
    requires s != []
    ensures CollapseBlankRuns(s) != [] && CollapseBlankRuns(s)[0] == s[0]
  {
  }

  /** A run of three or more newlines, however long, becomes exactly two. */
  lemma CollapseBlankRunsRun(nl: String, b: String)
    requires |nl| >= 3 && forall i :: 0 <= i < |nl| ==> nl[i] == '\n'
    requires b == [] || b[0] != '\n'
    ensures CollapseBlankRuns(nl + b) == "\n\n" + CollapseBlankRuns(b)
  {
    var s := nl + b;
    assert BlankRunAt(s, 0);
    assert s[3..] == nl[3..] + b;
    assert DropWhile(nl[3..] + b, IsNewline) == b by {
      forall i | 0 <= i < |nl[3..]| ensures IsNewline(nl[3..][i]) {
        assert nl[3..][i] == nl[i + 3];
      }
      DropWhilePrefix(nl[3..], b, IsNewline);
    }
  }

  /** Text in which no run of three newlines starts is copied as it is, and the collapse goes on behind it. */
  lemma {:induction false} CollapseBlankRunsKeep(a: String, b: String)
    requires forall i :: 0 <= i < |a| ==> !BlankRunAt(a + b, i)
    ensures CollapseBlankRuns(a + b) == a + CollapseBlankRuns(b)
    decreases |a|
  {
    if a == [] {
      assert a + b == b;
    } else {
      CollapseBlankRunsKeepTail(a, b);
      CollapseBlankRunsKeep(a[1..], b);
      CollapseBlankRunsKeepHead(a, b);
      ConsAppend(a, CollapseBlankRuns(b));
    }
  }

  /** The premise of `CollapseBlankRunsKeep` carries over from `a` to `a[1..]`. */
  lemma CollapseBlankRunsKeepTail(a: String, b: String)
    requires a != [] && forall i :: 0 <= i < |a| ==> !BlankRunAt(a + b, i)
    ensures forall i :: 0 <= i < |a[1..]| ==> !BlankRunAt(a[1..] + b, i)
  {
    forall i | 0 <= i < |a[1..]| ensures !BlankRunAt(a[1..] + b, i) {
      assert !BlankRunAt(a + b, i + 1);
      assert a[1..] + b == (a + b)[1..];
    }
  }

  /** One step of `CollapseBlankRunsKeep`: the first character of `a` is copied. */
  lemma CollapseBlankRunsKeepHead(a: String, b: String)
    requires a != [] && !BlankRunAt(a + b, 0)
    ensures CollapseBlankRuns(a + b) == [a[0]] + CollapseBlankRuns(a[1..] + b)
  {
    var s := a + b;
    assert s[0] == a[0] && s[1..] == a[1..] + b;
  }

  /** Text without a run of three newlines is left unchanged. */
  lemma {:induction false} CollapseBlankRunsUnchanged(s: String)
    requires NoBlankRun(s)
    ensures CollapseBlankRuns(s) == s
    decreases |s|
  {
    if s != [] {
      assert !BlankRunAt(s, 0);
      forall i: nat | i < |s[1..]| ensures !BlankRunAt(s[1..], i) {
        assert !BlankRunAt(s, i + 1);
      }
      CollapseBlankRunsUnchanged(s[1..]);
    }
  }

  /** After the collapse there is no run of three newlines. */
  lemma {:induction false} CollapseBlankRunsNoRun(s: String)
    ensures NoBlankRun(CollapseBlankRuns(s))
    decreases |s|
  {
    if BlankRunAt(s, 0) {
      var t := DropWhile(s[3..], IsNewline);
      CollapseBlankRunsNoRun(t);
      if t != [] { CollapseBlankRunsFirst(t); }
      NoRunAfterPair(CollapseBlankRuns(t));
    } else if s != [] {
      var c := CollapseBlankRuns(s[1..]);
      CollapseBlankRunsNoRun(s[1..]);
      if |s| >= 3 && s[0] == '\n' && s[1] == '\n' {
        assert !BlankRunAt(s[1..], 0);
        assert s[1..][1..] == s[2..];
        CollapseBlankRunsFirst(s[2..]);
        assert c == [s[1]] + CollapseBlankRuns(s[2..]);
      } else if |s| >= 2 && s[0] == '\n' && s[1] == '\n' {
        assert s[1..] == [s[1]];
      } else if |s| >= 2 {
        CollapseBlankRunsFirst(s[1..]);
      }
      NoRunAfterChar(s[0], c);
    }
  }

  /** Two newlines before text that does not start with one make no run of three. */
  lemma NoRunAfterPair(c: String)
    requires NoBlankRun(c) && (c == [] || c[0] != '\n')
    ensures NoBlankRun("\n\n" + c)
  {
    var r := "\n\n" + c;
    forall i: nat | i < |r| ensures !BlankRunAt(r, i) {
      if i >= 2 {
        assert !BlankRunAt(c, i - 2);
      }
    }
  }

  /** One character before text without a run makes a run only as a third newline. */
  lemma NoRunAfterChar(x: char, c: String)
    requires NoBlankRun(c) && !(x == '\n' && |c| >= 2 && c[0] == '\n' && c[1] == '\n')
    ensures NoBlankRun([x] + c)
  {
    var r := [x] + c;
    forall i: nat | i < |r| ensures !BlankRunAt(r, i) {
      if i >= 1 {
        assert !BlankRunAt(c, i - 1);
      }
    }
  }

  /** The text with its newlines left out. */
  function WithoutNewlines(s: String): String {
    if s == [] then [] else (if s[0] == '\n' then [] else [s[0]]) + WithoutNewlines(s[1..])
  }

  lemma NewlineLeftOut(s: String)
    ensures WithoutNewlines(['\n'] + s) == WithoutNewlines(s)
  {
    assert (['\n'] + s)[1..] == s;
  }

  lemma TwoNewlinesLeftOut(s: String)
    ensures WithoutNewlines("\n\n" + s) == WithoutNewlines(s)
  {
    NewlineLeftOut(['\n'] + s);
    NewlineLeftOut(s);
    assert "\n\n" + s == ['\n'] + (['\n'] + s);
  }

  lemma {:induction false} LeadingNewlinesLeftOut(s: String, k: nat)
    requires k <= |s| && forall i :: 0 <= i < k ==> s[i] == '\n'
    ensures WithoutNewlines(s) == WithoutNewlines(s[k..])
    decreases k
  {
    if k > 0 {
      LeadingNewlinesLeftOut(s[1..], k - 1);
      assert s[1..][k - 1..] == s[k..];
    }
  }

  lemma {:induction false} WithoutNewlinesDrop(s: String)
    ensures WithoutNewlines(DropWhile(s, IsNewline)) == WithoutNewlines(s)
    decreases |s|
  {
    if s != [] && s[0] == '\n' {
      WithoutNewlinesDrop(s[1..]);
    }
  }

  /** The collapse removes newlines and nothing else. */
  lemma {:induction false} CollapseKeepsText(s: String)
    ensures WithoutNewlines(CollapseBlankRuns(s)) == WithoutNewlines(s)
    decreases |s|
  {
    if BlankRunAt(s, 0) {
      CollapseKeepsText(DropWhile(s[3..], IsNewline));
      CollapseKeepsTextRun(s);
    } else if s != [] {
      CollapseKeepsText(s[1..]);
      CollapseKeepsTextChar(s);
    }
  }

  /** One step of `CollapseKeepsText`: a run of newlines becomes two of them. */
  lemma CollapseKeepsTextRun(s: String)
    requires BlankRunAt(s, 0)
    requires var t := DropWhile(s[3..], IsNewline);
      WithoutNewlines(CollapseBlankRuns(t)) == WithoutNewlines(t)
    ensures WithoutNewlines(CollapseBlankRuns(s)) == WithoutNewlines(s)
  {
    var t := DropWhile(s[3..], IsNewline);
    assert CollapseBlankRuns(s) == "\n\n" + CollapseBlankRuns(t);
    TwoNewlinesLeftOut(CollapseBlankRuns(t));
    WithoutNewlinesDrop(s[3..]);
    LeadingNewlinesLeftOut(s, 3);
  }

  /** One step of `CollapseKeepsText`: a character outside a run is copied. */
  lemma CollapseKeepsTextChar(s: String)
    requires s != [] && !BlankRunAt(s, 0)
    requires WithoutNewlines(CollapseBlankRuns(s[1..])) == WithoutNewlines(s[1..])
    ensures WithoutNewlines(CollapseBlankRuns(s)) == WithoutNewlines(s)
  {
    var c := CollapseBlankRuns(s[1..]);
    assert CollapseBlankRuns(s) == [s[0]] + c;
    assert ([s[0]] + c)[1..] == c;
  }

  // ---------------------------------------------------------------------------
  // Body cleanup: image alt text

  /** How many digits `s` starts with. */
  function DigitRun(s: String): (n: nat)
    ensures n <= |s| && AllDigits(s[..n])
    ensures n < |s| ==> !IsDigit(s[n])
  {
    if s != [] && IsDigit(s[0]) then
      var n := 1 + DigitRun(s[1..]);
      assert s[..n] == [s[0]] + s[1..][..n - 1];
      n
    else 0
  }

  const ImagePrefix: String := "![Image "

  /** The length of an `![Image N: ` match at the start of `s`, or 0 when there is none. */
  function ImageNumberMatch(s: String): (m: nat)
    ensures m <= |s|
    ensures m > 0 ==> StartsWith(s, ImagePrefix) && m >= |ImagePrefix| + 3
  {
    if StartsWith(s, ImagePrefix) then
      var n := DigitRun(s[|ImagePrefix|..]);
      var after := s[|ImagePrefix| + n..];
      if n > 0 && StartsWith(after, ": ") then |ImagePrefix| + n + 2 else 0
    else 0
  }

  /** `re.sub(r"!\[Image \d+: ", "![", s)`: the numbered alt-text prefix is removed, left to right. */
  function StripImageNumbers(s: String): (r: String)
    ensures |r| <= |s|
    decreases |s|
  {
    if s == [] then []
    else
      var m := ImageNumberMatch(s);
      if m > 0 then "![" + StripImageNumbers(s[m..]) else [s[0]] + StripImageNumbers(s[1..])
  }

  /** An image whose alt text carries a number prefix loses the prefix and keeps everything else. */
  lemma StripImageNumberPrefix(digits: String, rest: String)
    requires digits != [] && AllDigits(digits)
    ensures StripImageNumbers(ImagePrefix + digits + ": " + rest) == "![" + StripImageNumbers(rest)
  {
    var s := ImagePrefix + digits + ": " + rest;
    ImageNumberMatchOf(digits, rest);
    assert s[|ImagePrefix| + |digits| + 2..] == rest;
  }

  /** `![Image `, digits and `: ` are matched as a whole. */
  lemma ImageNumberMatchOf(digits: String, rest: String)
    requires digits != [] && AllDigits(digits)
    ensures ImageNumberMatch(ImagePrefix + digits + ": " + rest) == |ImagePrefix| + |digits| + 2
  {
    var s := ImagePrefix + digits + ": " + rest;
    var tail := digits + (": " + rest);
    assert s == ImagePrefix + tail;
    assert s[..|ImagePrefix|] == ImagePrefix && s[|ImagePrefix|..] == tail;
    DigitRunOf(digits, ": " + rest);
    assert tail[|digits|..] == ": " + rest;
    assert s[|ImagePrefix| + |digits|..] == ": " + rest;
  }

  /** A run of digits followed by a non-digit is measured exactly. */
  lemma {:induction false} DigitRunOf(digits: String, after: String)
    requires AllDigits(digits) && (after == [] || !IsDigit(after[0]))
    ensures DigitRun(digits + after) == |digits|
    decreases |digits|
  {
    if digits != [] {
      assert (digits + after)[1..] == digits[1..] + after;
      DigitRunOf(digits[1..], after);
    }
  }

  /** Text where no numbered image prefix starts is copied as it is, and the cleanup goes on behind it. */
  lemma {:induction false} StripImageNumbersKeeps(a: String, b: String)
    requires forall i :: 0 <= i < |a| ==> ImageNumberMatch((a + b)[i..]) == 0
    ensures StripImageNumbers(a + b) == a + StripImageNumbers(b)
    decreases |a|
  {
    if a == [] {
      assert a + b == b;
    } else {
      StripImageNumbersKeepsTail(a, b);
      StripImageNumbersKeeps(a[1..], b);
      assert ImageNumberMatch(a + b) == 0 by { assert (a + b)[0..] == a + b; }
      StripImageNumbersKeepsHead(a, b);
      ConsAppend(a, StripImageNumbers(b));
    }
  }

  /** The premise of `StripImageNumbersKeeps` carries over from `a` to `a[1..]`. */
  lemma StripImageNumbersKeepsTail(a: String, b: String)
    requires a != [] && forall i :: 0 <= i < |a| ==> ImageNumberMatch((a + b)[i..]) == 0
    ensures forall i :: 0 <= i < |a[1..]| ==> ImageNumberMatch((a[1..] + b)[i..]) == 0
  {
    forall i | 0 <= i < |a[1..]| ensures ImageNumberMatch((a[1..] + b)[i..]) == 0 {
      assert (a[1..] + b)[i..] == (a + b)[i + 1..];
    }
  }

  /** One step of `StripImageNumbersKeeps`: the first character of `a` is copied. */
  lemma StripImageNumbersKeepsHead(a: String, b: String)
    requires a != [] && ImageNumberMatch(a + b) == 0
    ensures StripImageNumbers(a + b) == [a[0]] + StripImageNumbers(a[1..] + b)
  {
    var s := a + b;
    StripImageNumbersCopy(s);
    assert s[0] == a[0] && s[1..] == a[1..] + b;
  }

  /** Where no numbered prefix starts, the first character is copied. */
  lemma StripImageNumbersCopy(s: String)
    requires s != [] && ImageNumberMatch(s) == 0
    ensures StripImageNumbers(s) == [s[0]] + StripImageNumbers(s[1..])
  {
  }

  /** Text without `![Image ` anywhere is left as it is. */
  lemma {:induction false} StripImageNumbersUnchanged(s: String)
    requires !Contains(s, ImagePrefix)
    ensures StripImageNumbers(s) == s
    decreases |s|
  {
    if s != [] {
      assert !OccursAt(s, ImagePrefix, 0);
      assert ImageNumberMatch(s) == 0;
      OccursAtTail(s, ImagePrefix);
      StripImageNumbersUnchanged(s[1..]);
    }
  }

  // ---------------------------------------------------------------------------
  // Body cleanup: duplicate images

  /**
   * `re.match(r"!\[.*?\]\((.*?)\)", t)`: the URL of an image reference at
   * the start of `t` — the text after the first `](` up to the next `)`.
   */
  function ImageUrl(t: String): (r: Option<String>)
    ensures r.Some? ==> StartsWith(t, "![") && ')' !in r.value
  {
    if !StartsWith(t, "![") then None
    else
      match FindSub(t[2..], "](")
      case None => None
      case Some(j) =>
        var rest := t[2 + j + 2..];
        if ')' in rest then Some(rest[..IndexOf(rest, ')')]) else None
  }

  /** A URL is found only in a line of the form `![alt](url)…` whose alt text has no `](`. */
  lemma ImageUrlIsImage(t: String)
    ensures ImageUrl(t).Some? ==>
      exists alt, tail :: t == "![" + alt + "](" + ImageUrl(t).value + ")" + tail && !Contains(alt, "](")
  {
    if ImageUrl(t).Some? {
      var j := FindSub(t[2..], "](").value;
      var rest := t[2 + j + 2..];
      var k := IndexOf(rest, ')');
      ImageLineSplit(t, j, k);
      var alt, tail := t[2..2 + j], rest[k + 1..];
      FindSubBefore(t[2..], "](");
      assert t[2..][..j] == alt;
      assert t == "![" + alt + "](" + ImageUrl(t).value + ")" + tail && !Contains(alt, "](");
    }
  }

  /** An image line splits at a `](` and at a `)` after it. */
  lemma ImageLineSplit(t: String, j: nat, k: nat)
    requires StartsWith(t, "![") && OccursAt(t[2..], "](", j)
    requires k < |t[2 + j + 2..]| && t[2 + j + 2..][k] == ')'
    ensures var rest := t[2 + j + 2..];
      t == "![" + t[2..2 + j] + "](" + rest[..k] + ")" + rest[k + 1..]
  {
    var rest := t[2 + j + 2..];
    var url, alt, tail := rest[..k], t[2..2 + j], rest[k + 1..];
    var mid := t[2 + j..];
    assert mid == "](" + rest by {
      assert t[2..][j..j + 2] == "](";
      assert mid[..2] == t[2..][j..j + 2] && mid[2..] == rest;
      assert mid == mid[..2] + mid[2..];
    }
    assert rest == url + ")" + tail by {
      assert rest == rest[..k] + [rest[k]] + rest[k + 1..];
    }
    assert t[2..] == alt + mid;
    ImageLineParts(t, alt, mid, rest, url, tail);
  }

  /** Puts an image line back together from its parts. */
  lemma ImageLineParts(t: String, alt: String, mid: String, rest: String, url: String, tail: String)
    requires StartsWith(t, "![") && t[2..] == alt + mid
    requires mid == "](" + rest && rest == url + ")" + tail
    ensures t == "![" + alt + "](" + url + ")" + tail
  {
    assert t == t[..2] + t[2..];
  }

  /** A rendered image reference reads back as its URL. */
  lemma ImageUrlOfImage(alt: String, url: String, tail: String)
    requires !Contains(alt, "](") && ')' !in url
    ensures ImageUrl("![" + alt + "](" + url + ")" + tail) == Some(url)
  {
    var t := "![" + alt + "](" + url + ")" + tail;
    var u := t[2..];
    assert StartsWith(t, "![") by {
      assert t[..2] == "![";
    }
    assert FindSub(u, "](") == Some(|alt|) by {
      assert u == alt + "](" + (url + ")" + tail);
      FindSubAfter(alt, "](", url + ")" + tail);
    }
    var rest := t[2 + |alt| + 2..];
    assert IndexOf(rest, ')') == |url| && rest[..|url|] == url by {
      assert rest == url + [')'] + tail;
      IndexOfAfter(url, ')', tail);
    }
  }

  /** The de-duplication key of a body line: the URL of the image it starts with, once trimmed. */
  function ImageKey(line: String): Option<String> {
    ImageUrl(Strip(line))
  }

  // ---------------------------------------------------------------------------
  // Body cleanup: the whole pass

  /** The body after the navigation filter, the trim and the blank-run collapse. */
  function CollapsedBody(body: String): String {
    CollapseBlankRuns(Strip(Join("\n", NavigationFiltered(Split(body, '\n')))))
  }

  /** The lines the image de-duplication walks over. */
  function ImageLines(body: String): seq<String> {
    Split(StripImageNumbers(CollapsedBody(body)), '\n')
  }

  /** The cleaned body: the first occurrence of each image kept, every other line kept. */
  function CleanedBody(body: String): String {
    Join("\n", KeepFirst(ImageLines(body), ImageKey))
  }

  /** The first loop of `clean_body`: the lines whose trimmed text is not navigation. */
  method FilterNavigation(lines: seq<String>) returns (cleaned: seq<String>)
    ensures cleaned == NavigationFiltered(lines)
  {
    cleaned := [];
    for i := 0 to |lines|
      invariant cleaned == NavigationFiltered(lines[..i])
    {
      var line := lines[i];
      CollectPrefix(lines, i, NavigationContribution);
      if IsNavigationLine(Strip(line)) {
        continue;
      }
      cleaned := cleaned + [line];
    }
    assert lines[..|lines|] == lines;
  }

  /**
   * `clean_body`: the navigation loop, the regular-expression passes, and
   * the loop that drops a line whose image URL was seen before.
   */
  method CleanBody(body: String) returns (result: String)
    ensures result == CleanedBody(body)
  {
    var cleaned := FilterNavigation(Split(body, '\n'));
    var text := Strip(Join("\n", cleaned));
    text := CollapseBlankRuns(text);
    text := StripImageNumbers(text);
    var finalLines := KeepFirstLoop(Split(text, '\n'), ImageKey);
    result := Join("\n", finalLines);
  }

  /**
   * What the image pass keeps: no image URL twice, the first line of each
   * URL, and every line that is not an image, in the original order.
   */
  lemma CleanedBodyImages(body: String)
    ensures var kept := KeepFirst(ImageLines(body), ImageKey);
      && (forall i, j :: 0 <= i < j < |kept| && ImageKey(kept[i]).Some? ==> ImageKey(kept[i]) != ImageKey(kept[j]))
      && kept == FirstOccurrences(ImageLines(body), ImageKey)
      && Unkeyed(kept, ImageKey) == Unkeyed(ImageLines(body), ImageKey)
      && KeysOf(kept, ImageKey) == KeysOf(ImageLines(body), ImageKey)
  {
    KeepFirstDistinct(ImageLines(body), ImageKey);
    KeepFirstIsFirstOccurrences(ImageLines(body), ImageKey);
    KeepFirstKeepsUnkeyed(ImageLines(body), ImageKey);
    KeepFirstKeys(ImageLines(body), ImageKey);
  }

  /** Right after the collapse step the body has no run of three newlines. */
  lemma CollapsedBodyHasNoBlankRun(body: String)
    ensures !Contains(CollapsedBody(body), "\n\n\n")
  {
    CollapseBlankRunsNoRun(Strip(Join("\n", NavigationFiltered(Split(body, '\n')))));
    NoBlankRunIsNoTriple(CollapsedBody(body));
  }

  // ---------------------------------------------------------------------------
  // The language-model reply

  datatype ArticleMetadata = ArticleMetadata(description: String, categories: seq<String>, tags: seq<String>)

  const DefaultArticleTags: seq<String> := ["amazon-bedrock"]

  /**
   * The reply-reading half of `generate_metadata`: each field comes from its
   * section when the reply has one, and otherwise falls back to the article
   * title, the default categories or the default tag.
   */
  function ParseMetadata(title: String, reply: ReplySections): (m: ArticleMetadata)
    ensures reply.seoDescription.None? ==> m.description == title
    ensures reply.seoDescription.Some? ==> m.description == Strip(reply.seoDescription.value)
    ensures reply.categories.None? ==> m.categories == DefaultCategories
    ensures reply.categories.Some? ==> m.categories == reply.categories.value
    ensures reply.tags.None? ==> m.tags == DefaultArticleTags
    ensures reply.tags.Some? ==> m.tags == reply.tags.value
  {
    ArticleMetadata(
      if reply.seoDescription.Some? then Strip(reply.seoDescription.value) else title,
      reply.categories.GetOr(DefaultCategories),
      reply.tags.GetOr(DefaultArticleTags))
  }

  // ---------------------------------------------------------------------------
  // Slug

  /** `re.sub(r"[^a-z0-9\s]", " ", s)`: every other character becomes a space, hyphens included. */
  function SpaceOutSymbols(s: String): String {
    seq(|s|, i requires 0 <= i < |s| => if IsLowerAlnum(s[i]) || IsSpace(s[i]) then s[i] else ' ')
  }

  /** `re.sub(r"-{2,}", "-", s)`: every run of hyphens becomes one. */
  function CollapseHyphens(s: String): (r: String)
    ensures |r| <= |s|
    decreases |s|
  {
    if s == [] then []
    else if s[0] == '-' then "-" + CollapseHyphens(DropWhile(s[1..], IsHyphen))
    else [s[0]] + CollapseHyphens(s[1..])
  }

  /** A run of hyphens, however long, becomes a single hyphen. */
  lemma CollapseHyphensRun(hs: String, b: String)
    requires hs != [] && forall i :: 0 <= i < |hs| ==> hs[i] == '-'
    requires b == [] || b[0] != '-'
    ensures CollapseHyphens(hs + b) == "-" + CollapseHyphens(b)
  {
    assert forall i :: 0 <= i < |hs| ==> IsHyphen(hs[i]);
    DropWhileRun(hs, b, IsHyphen);
  }

  /** A character other than a hyphen is copied, and the collapse goes on behind it. */
  lemma CollapseHyphensKeep(c: char, b: String)
    requires c != '-'
    ensures CollapseHyphens([c] + b) == [c] + CollapseHyphens(b)
  {
    assert ([c] + b)[1..] == b;
  }

  /** No two hyphens in a row. */
  predicate SingleHyphens(s: String) {
    forall i :: 0 <= i < |s| - 1 ==> !(s[i] == '-' && s[i + 1] == '-')
  }

  /** A slug of this script: `[a-z0-9]` runs joined by single hyphens, or empty. */
  predicate IsSlug(s: String) {
    SlugChars(s) && SingleHyphens(s) && (s == [] || (s[0] != '-' && s[|s| - 1] != '-'))
  }

  /** `slugify` of the article-port script: never longer than `maxLength`. */
  function Slugify(title: String, maxLength: nat): (r: String)
    ensures |r| <= maxLength
  {
    var spaced := SpaceOutSymbols(Lower(title));
    CutAtHyphen(CollapseHyphens(StripHyphens(ReplaceSpaceRuns(spaced))), maxLength)
  }

  /** The hyphen collapse keeps the first character. */
  lemma CollapseHyphensFirst(s: String)
    requires s != []
    ensures CollapseHyphens(s) != [] && CollapseHyphens(s)[0] == s[0]
  {
  }

  /** The hyphen collapse keeps a last character that is not a hyphen. */
  lemma {:induction false} CollapseHyphensLast(s: String)
    requires s != [] && s[|s| - 1] != '-'
    ensures var r := CollapseHyphens(s); r != [] && r[|r| - 1] == s[|s| - 1]
    decreases |s|
  {
    var u := s[1..];
    if s[0] == '-' {
      var t := CollapseHyphensDrop(s);
      CollapseHyphensLast(t);
      LastOfAppend("-", CollapseHyphens(t));
    } else if u == [] {
      CollapseHyphensSingle1(s);
    } else {
      assert s == [s[0]] + u;
      CollapseHyphensKeep(s[0], u);
      CollapseHyphensLast(u);
      LastOfAppend([s[0]], CollapseHyphens(u));
    }
  }

  /**
   * A leading hyphen is kept once and the hyphens behind it are dropped; what
   * is left, `t`, still ends in the last character when that is not a hyphen.
   */
  lemma CollapseHyphensDrop(s: String) returns (t: String)
    requires |s| > 1 && s[0] == '-' && s[|s| - 1] != '-'
    ensures t == DropWhile(s[1..], IsHyphen) && |t| < |s|
    ensures CollapseHyphens(s) == "-" + CollapseHyphens(t)
    ensures t != [] && t[|t| - 1] == s[|s| - 1]
  {
    t := DropWhile(s[1..], IsHyphen);
    HyphenRunEndsBefore(s[1..]);
  }

  /** A single character other than a hyphen is its own collapse. */
  lemma CollapseHyphensSingle1(s: String)
    requires |s| == 1 && s[0] != '-'
    ensures CollapseHyphens(s) == s
  {
    assert s[1..] == [];
  }

  /** Dropping leading hyphens stops before a last character that is not a hyphen. */
  lemma HyphenRunEndsBefore(u: String)
    requires u != [] && u[|u| - 1] != '-'
    ensures var t := DropWhile(u, IsHyphen); t != [] && t[|t| - 1] == u[|u| - 1]
  {
    assert !IsHyphen(u[|u| - 1]);
  }

  /** The last character of `h + r` is that of a non-empty `r`. */
  lemma LastOfAppend(h: String, r: String)
    requires r != []
    ensures |h + r| > 0 && (h + r)[|h + r| - 1] == r[|r| - 1]
  {
  }

  /** The hyphen collapse keeps the slug alphabet. */
  lemma {:induction false} CollapseHyphensSlugChars(s: String)
    requires SlugChars(s)
    ensures SlugChars(CollapseHyphens(s))
    decreases |s|
  {
    if s != [] {
      var t := if s[0] == '-' then DropWhile(s[1..], IsHyphen) else s[1..];
      assert SlugChars(t);
      CollapseHyphensSlugChars(t);
    }
  }

  /** After the collapse no two hyphens are adjacent. */
  lemma {:induction false} CollapseHyphensSingle(s: String)
    ensures SingleHyphens(CollapseHyphens(s))
    decreases |s|
  {
    if s != [] {
      var r := CollapseHyphens(s);
      if s[0] == '-' {
        var t := DropWhile(s[1..], IsHyphen);
        CollapseHyphensSingle(t);
        if t != [] {
          CollapseHyphensFirst(t);
        }
        assert r == "-" + CollapseHyphens(t);
      } else {
        CollapseHyphensSingle(s[1..]);
        assert r == [s[0]] + CollapseHyphens(s[1..]);
      }
    }
  }

  /** Text that already has single hyphens goes through the collapse unchanged. */
  lemma {:induction false} CollapseHyphensUnchanged(s: String)
    requires SingleHyphens(s)
    ensures CollapseHyphens(s) == s
    decreases |s|
  {
    if s != [] {
      assert SingleHyphens(s[1..]);
      if s[0] == '-' {
        assert |s| == 1 || s[1] != '-';
        assert DropWhile(s[1..], IsHyphen) == s[1..];
      }
      CollapseHyphensUnchanged(s[1..]);
    }
  }

  /** Cutting a slug at a hyphen gives a slug again. */
  lemma CutAtHyphenKeepsSlug(s: String, maxLength: nat)
    requires IsSlug(s)
    ensures IsSlug(CutAtHyphen(s, maxLength))
  {
    CutAtHyphenKeepsShape(s, maxLength);
    var r := CutAtHyphen(s, maxLength);
    assert forall i :: 0 <= i < |r| ==> r[i] == s[i];
    if r != [] && |r| < |s| {
      assert s[|r|] == '-' || |r| == maxLength;
    }
  }

  /** A slug has only `[a-z0-9]` runs joined by single hyphens and fits the maximum length. */
  lemma SlugifyIsSlug(title: String, maxLength: nat)
    ensures IsSlug(Slugify(title, maxLength)) && |Slugify(title, maxLength)| <= maxLength
  {
    var stripped := StripHyphens(ReplaceSpaceRuns(SpaceOutSymbols(Lower(title))));
    StrippedSlugChars(title);
    CollapsedIsSlug(stripped);
    CutAtHyphenKeepsSlug(CollapseHyphens(stripped), maxLength);
  }

  /** Collapsing the hyphens of slug characters without a hyphen at either end gives a slug. */
  lemma CollapsedIsSlug(s: String)
    requires SlugChars(s) && (s == [] || (s[0] != '-' && s[|s| - 1] != '-'))
    ensures IsSlug(CollapseHyphens(s))
  {
    CollapseHyphensSlugChars(s);
    CollapseHyphensSingle(s);
    if s != [] {
      CollapseHyphensFirst(s);
      CollapseHyphensLast(s);
    }
  }

  /** Before the hyphen collapse the slug uses `[a-z0-9-]` only and has no hyphen at either end. */
  lemma StrippedSlugChars(title: String)
    ensures var stripped := StripHyphens(ReplaceSpaceRuns(SpaceOutSymbols(Lower(title))));
      SlugChars(stripped) && (stripped == [] || (stripped[0] != '-' && stripped[|stripped| - 1] != '-'))
  {
    var spaced := SpaceOutSymbols(Lower(title));
    var hyphenated := ReplaceSpaceRuns(spaced);
    assert forall i :: 0 <= i < |spaced| ==> IsLowerAlnum(spaced[i]) || IsSpace(spaced[i]);
    assert forall c :: c in spaced ==> IsLowerAlnum(c) || IsSpace(c);
    ReplaceSpaceRunsChars(spaced);
    assert forall i :: 0 <= i < |hyphenated| ==> hyphenated[i] in hyphenated;
    assert SlugChars(hyphenated);
  }

  /** A slug with its hyphens turned into spaces reads back as the slug once spaces become hyphens again. */
  lemma {:induction false} RespacedSlug(s: String)
    requires SlugChars(s) && SingleHyphens(s) && (s == [] || s[|s| - 1] != '-')
    ensures ReplaceSpaceRuns(SpaceOutSymbols(s)) == s
    decreases |s|
  {
    if s != [] {
      var t := SpaceOutSymbols(s);
      var rest := SpaceOutSymbols(s[1..]);
      assert t == [t[0]] + rest;
      assert SingleHyphens(s[1..]);
      RespacedSlug(s[1..]);
      if s[0] == '-' {
        assert t[0] == ' ';
        assert s[1..] != [] && s[1] != '-';
        assert rest[0] == s[1];
        ReplaceSpaceRunsSpace(' ', rest);
      } else {
        assert t[0] == s[0] && !IsSpace(s[0]);
        ReplaceSpaceRunsKeep(s[0], rest);
      }
    }
  }

  /** Slugifying a slug that fits changes nothing. */
  lemma SlugifyFixesSlugs(s: String, maxLength: nat)
    requires IsSlug(s) && |s| <= maxLength
    ensures Slugify(s, maxLength) == s
  {
    assert Lower(s) == s;
    RespacedSlug(s);
    StripUnchanged(s, IsHyphen);
    CollapseHyphensUnchanged(s);
  }

  /** Slugifying twice gives the same slug as slugifying once. */
  lemma SlugifyIdempotent(title: String, maxLength: nat)
    ensures Slugify(Slugify(title, maxLength), maxLength) == Slugify(title, maxLength)
  {
    SlugifyIsSlug(title, maxLength);
    SlugifyFixesSlugs(Slugify(title, maxLength), maxLength);
  }

  // ---------------------------------------------------------------------------
  // The post file

  const PortSlugLength: nat := 60

  /** The note under the front matter that links back to the original article. */
  function OriginNote(sourceUrl: String): String {
    "> This article was originally published on the [AWS Builder Center](" + sourceUrl + ")."
  }

  /** `{date_str}-{slug}.md`. */
  function PostFileName(date: Option<Date>, title: String): String
    requires date.Some? ==> ValidDate(date.value)
  {
    DateString(date) + "-" + Slugify(title, PortSlugLength) + ".md"
  }

  /** The lines of the written post: front matter, the origin note and the cleaned body, each after a blank line. */
  function ArticlePostLines(article: Article, metadata: ArticleMetadata, sourceUrl: String): seq<String>
    requires article.date.Some? ==> ValidDate(article.date.value)
  {
    FrontMatterLines(article.title, DateString(article.date), metadata.categories, metadata.tags,
                     metadata.description)
    + ["", OriginNote(sourceUrl), "", CleanedBody(article.body), ""]
  }

  /** `write_post` without the file system: the file name and the text written to it. */
  method WritePost(article: Article, metadata: ArticleMetadata, sourceUrl: String)
    returns (fileName: String, content: String)
    requires article.date.Some? ==> ValidDate(article.date.value)
    ensures fileName == PostFileName(article.date, article.title)
    ensures content == Join("\n", ArticlePostLines(article, metadata, sourceUrl))
  {
    var dateStr := DateString(article.date);
    var body := CleanBody(article.body);
    var frontMatter := FrontMatterLines(article.title, dateStr, metadata.categories, metadata.tags,
                                        metadata.description);
    content := Join("\n", frontMatter + ["", OriginNote(sourceUrl), "", body, ""]);
    var slug := Slugify(article.title, PortSlugLength);
    fileName := dateStr + "-" + slug + ".md";
  }

  /**
   * The file name is the ten-character date, a hyphen, a slug of at most
   * sixty characters and `.md`; an article without a date is filed under
   * the fallback date.
   */
  lemma PostFileNameShape(date: Option<Date>, title: String)
    requires date.Some? ==> ValidDate(date.value)
    ensures var name := PostFileName(date, title);
      && |name| <= 10 + 1 + PortSlugLength + 3
      && name[..10] == DateString(date) && name[10] == '-'
      && IsSlug(name[11..|name| - 3]) && name[|name| - 3..] == ".md"
      && (date.None? ==> name[..10] == FallbackDate)
  {
    SlugifyIsSlug(title, PortSlugLength);
    FileNameParts(DateString(date), Slugify(title, PortSlugLength));
  }

  /** The pieces of `<date>-<slug>.md` can be read back from their positions. */
  lemma FileNameParts(date: String, slug: String)
    requires |date| == 10
    ensures var name := date + "-" + slug + ".md";
      && |name| == 14 + |slug| && name[..10] == date && name[10] == '-'
      && name[11..|name| - 3] == slug && name[|name| - 3..] == ".md"
  {
  }

  /** Joining lines ending in `["", note, "", body, ""]` puts a blank line before the note and the body and a newline at the end. */
  lemma {:induction false} NoteAndBodyLayout(head: seq<String>, note: String, body: String)
    requires |head| > 0
    ensures Join("\n", head + ["", note, "", body, ""])
            == Join("\n", head) + "\n\n" + note + "\n\n" + body + "\n"
  {
    var tail := ["", note, "", body, ""];
    JoinConcat("\n", head, tail);
    assert tail[1..] == [note, "", body, ""];
    assert tail[1..][1..] == ["", body, ""];
    assert tail[1..][1..][1..] == [body, ""];
    assert tail[1..][1..][1..][1..] == [""];
    assert Join("\n", [body, ""]) == body + "\n";
    assert Join("\n", ["", body, ""]) == "\n" + body + "\n";
    assert Join("\n", [note, "", body, ""]) == note + "\n\n" + body + "\n";
  }

  /** The written text: the front matter, a blank line, the origin note, a blank line, the body and a final newline. */
  lemma ArticlePostText(article: Article, metadata: ArticleMetadata, sourceUrl: String)
    requires article.date.Some? ==> ValidDate(article.date.value)
    ensures var frontMatter := FrontMatterLines(article.title, DateString(article.date), metadata.categories,
                                                metadata.tags, metadata.description);
      Join("\n", ArticlePostLines(article, metadata, sourceUrl))
      == Join("\n", frontMatter) + "\n\n" + OriginNote(sourceUrl) + "\n\n" + CleanedBody(article.body) + "\n"
  {
    var frontMatter := FrontMatterLines(article.title, DateString(article.date), metadata.categories,
                                        metadata.tags, metadata.description);
    NoteAndBodyLayout(frontMatter, OriginNote(sourceUrl), CleanedBody(article.body));
  }

  /** Lines that start with a `---` line and end in `["", body, ""]` join to text that opens with `---` and ends with the body and a newline. */
  lemma {:induction false} DelimitedEnds(head: seq<String>, note: String, body: String)
    requires |head| > 1 && head[0] == "---"
    ensures var content := Join("\n", head + ["", note, "", body, ""]);
      StartsWith(content, "---\n") && EndsWith(content, body + "\n")
  {
    NoteAndBodyLayout(head, note, body);
    assert head == ["---"] + head[1..];
    JoinConcat("\n", ["---"], head[1..]);
    var content := Join("\n", head + ["", note, "", body, ""]);
    var prefix := Join("\n", head) + "\n\n" + note + "\n\n";
    assert content == prefix + (body + "\n");
    assert content[|prefix|..] == body + "\n";
  }

  /** The text opens with the front-matter delimiter and ends with the body and a newline. */
  lemma ArticlePostEnds(article: Article, metadata: ArticleMetadata, sourceUrl: String)
    requires article.date.Some? ==> ValidDate(article.date.value)
    ensures var content := Join("\n", ArticlePostLines(article, metadata, sourceUrl));
      StartsWith(content, "---\n") && EndsWith(content, CleanedBody(article.body) + "\n")
  {
    var frontMatter := FrontMatterLines(article.title, DateString(article.date), metadata.categories,
                                        metadata.tags, metadata.description);
    DelimitedEnds(frontMatter, OriginNote(sourceUrl), CleanedBody(article.body));
  }
}
