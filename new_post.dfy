/**
 * The deterministic text handling of the video-post script: the video ID
 * from a URL, caption cleanup, reading the language-model reply, chapter
 * and link extraction from the video description, the slug, the upload
 * date and the assembled markdown post.
 */
module NewPost {
  import opened Wrappers
  import opened Strings
  import opened Dedup
  import opened Slugs
  import opened PostFormat
  import opened Pipeline

  // ---------------------------------------------------------------------------
  // Video ID

  /**
   * What `urlparse` and `parse_qs` make of a URL: the host name, the path and
   * the query parameters with all their values.
   */
  datatype ParsedUrl = ParsedUrl(hostname: Option<String>, path: String, query: map<String, seq<String>>)

  /** `parse_qs` never maps a parameter to an empty list of values. */
  predicate WellFormedQuery(query: map<String, seq<String>>) {
    forall k :: k in query ==> query[k] != []
  }

  datatype VideoIdError =
    | Unrecognised           // ValueError: no known URL shape
    | MissingVideoParameter  // KeyError: a /watch URL without `v`

  const ShortHost: String := "youtu.be"
  const LongHosts: set<String> := {"www.youtube.com", "youtube.com"}

  predicate IsLongHost(u: ParsedUrl) { u.hostname.Some? && u.hostname.value in LongHosts }

  /** The length of the `/embed/` or `/v/` prefix of an embed path, 0 for any other path. */
  function EmbedPrefixLength(path: String): nat {
    if StartsWith(path, "/embed/") then 7 else if StartsWith(path, "/v/") then 3 else 0
  }

  /** `seg` is the path segment that starts at `at`: it runs up to the next `/` or the end. */
  predicate SegmentAt(path: String, at: nat, seg: String) {
    at + |seg| <= |path| && path[at..at + |seg|] == seg && '/' !in seg
    && (at + |seg| == |path| || path[at + |seg|] == '/')
  }

  /** The first field of `rest` is a segment starting at its beginning. */
  lemma FirstFieldIsSegment(rest: String)
    ensures SegmentAt(rest, 0, Split(rest, '/')[0])
  {
    SplitHead(rest, '/');
  }

  /** `/word/rest` splits into an empty field, `word` and the fields of `rest`. */
  lemma SplitBehindWord(word: String, rest: String)
    requires '/' !in word
    ensures Split("/" + word + "/" + rest, '/') == [[], word] + Split(rest, '/')
  {
    var x := word + ['/'] + rest;
    var s := "/" + word + "/" + rest;
    var tail := Split(rest, '/');
    assert Split(x, '/') == [word] + tail by {
      SplitAfter(word, '/', rest);
    }
    assert Split(s, '/') == [[]] + Split(x, '/') by {
      assert s == [] + ['/'] + x;
      SplitAfter([], '/', x);
    }
    assert [[]] + ([word] + tail) == [[], word] + tail;
  }

  /** After a prefix `/word/` with no other `/`, the third field of the path is the segment that follows. */
  lemma ThirdField(path: String, n: nat)
    requires 2 <= n <= |path| && path[0] == '/' && path[n - 1] == '/'
    requires '/' !in path[1..n - 1]
    ensures |Split(path, '/')| > 2
    ensures SegmentAt(path, n, Split(path, '/')[2])
  {
    var word, rest := path[1..n - 1], path[n..];
    assert path == "/" + word + "/" + rest;
    SplitBehindWord(word, rest);
    FirstFieldIsSegment(rest);
    SegmentBehind(path, n, Split(rest, '/')[0]);
  }

  /** A segment at the start of `path[n..]` is a segment of `path` at `n`. */
  lemma SegmentBehind(path: String, n: nat, seg: String)
    requires n <= |path| && SegmentAt(path[n..], 0, seg)
    ensures SegmentAt(path, n, seg)
  {
    assert path[n..n + |seg|] == path[n..][0..|seg|];
  }

  /** The third `/`-separated field of an embed path is the segment after its prefix. */
  lemma EmbedSegment(path: String)
    requires EmbedPrefixLength(path) > 0
    ensures |Split(path, '/')| > 2
    ensures SegmentAt(path, EmbedPrefixLength(path), Split(path, '/')[2])
  {
    var n := EmbedPrefixLength(path);
    if StartsWith(path, "/embed/") {
      assert path[..7] == "/embed/";
      assert path[1..6] == "embed";
    } else {
      assert path[..3] == "/v/";
      assert path[1..2] == "v";
    }
    ThirdField(path, n);
  }

  /** `extract_video_id`: the three URL shapes that carry a video ID, and the two ways to fail. */
  function ExtractVideoId(u: ParsedUrl): (r: Result<String, VideoIdError>)
    requires WellFormedQuery(u.query)
    // youtu.be/ID: the path without its leading slashes
    ensures u.hostname == Some(ShortHost) ==>
      && r.Success?
      && (r.value == [] || r.value[0] != '/')
      && |r.value| <= |u.path| && u.path[|u.path| - |r.value|..] == r.value
      && forall i :: 0 <= i < |u.path| - |r.value| ==> u.path[i] == '/'
    // youtube.com/watch?v=ID: the first value of `v`, or a missing-key error
    ensures IsLongHost(u) && u.path == "/watch" ==>
      r == if "v" in u.query then Success(u.query["v"][0]) else Failure(MissingVideoParameter)
    // youtube.com/embed/ID and youtube.com/v/ID: the path segment after the prefix
    ensures IsLongHost(u) && u.path != "/watch" && EmbedPrefixLength(u.path) > 0 ==>
      r.Success? && SegmentAt(u.path, EmbedPrefixLength(u.path), r.value)
    // every other URL is rejected
    ensures r == Failure(Unrecognised) <==>
      !(u.hostname == Some(ShortHost) || (IsLongHost(u) && (u.path == "/watch" || EmbedPrefixLength(u.path) > 0)))
  {
    if u.hostname == Some(ShortHost) then
      Success(DropWhile(u.path, c => c == '/'))
    else if IsLongHost(u) && u.path == "/watch" then
      if "v" in u.query then Success(u.query["v"][0]) else Failure(MissingVideoParameter)
    else if IsLongHost(u) && (StartsWith(u.path, "/embed/") || StartsWith(u.path, "/v/")) then
      EmbedSegment(u.path);
      Success(Split(u.path, '/')[2])
    else
      Failure(Unrecognised)
  }

  // ---------------------------------------------------------------------------
  // Captions

  /** `s` starts with a tag `<[^>]+>`: a `<`, at least one character, then a `>`. */
  predicate TagAt(s: String) {
    |s| >= 2 && s[0] == '<' && s[1] != '>' && '>' in s[1..]
  }

  /** No tag starts anywhere in `s`. */
  predicate NoTags(s: String) {
    forall i :: 0 <= i < |s| ==> !TagAt(s[i..])
  }

  /** `re.sub(r"<[^>]+>", "", s)`: tags are removed left to right, each up to its first `>`. */
  function StripTags(s: String): (r: String)
    ensures |r| <= |s|
    decreases |s|
  {
    if s == [] then []
    else if TagAt(s) then StripTags(s[1 + IndexOf(s[1..], '>') + 1..])
    else [s[0]] + StripTags(s[1..])
  }

  /** Removing tags keeps a first character that does not open a tag, a lone `<` included. */
  lemma StripTagsFirst(s: String)
    requires s != [] && !TagAt(s)
    ensures StripTags(s) != [] && StripTags(s)[0] == s[0]
  {
  }

  /** A first character that opens no tag is copied, and tag removal goes on behind it. */
  lemma StripTagsKeep(s: String)
    requires s != [] && !TagAt(s)
    ensures StripTags(s) == [s[0]] + StripTags(s[1..])
  {
  }

  /** Removing tags only drops characters: what is left comes from the input. */
  lemma {:induction false} StripTagsChars(s: String)
    ensures forall c :: c in StripTags(s) ==> c in s
    decreases |s|
  {
    if s != [] {
      var t := if TagAt(s) then s[1 + IndexOf(s[1..], '>') + 1..] else s[1..];
      StripTagsChars(t);
      assert forall c :: c in t ==> c in s;
    }
  }

  /** Text without a tag goes through unchanged. */
  lemma {:induction false} StripTagsUnchanged(s: String)
    requires NoTags(s)
    ensures StripTags(s) == s
    decreases |s|
  {
    if s != [] {
      assert !TagAt(s[0..]) && s[0..] == s;
      forall i | 0 <= i < |s| - 1 ensures !TagAt(s[1..][i..]) {
        assert s[1..][i..] == s[i + 1..];
      }
      StripTagsUnchanged(s[1..]);
    }
  }

  /** After removing tags no tag starts anywhere. */
  lemma {:induction false} StripTagsNoTags(s: String)
    ensures NoTags(StripTags(s))
    decreases |s|
  {
    if s != [] && !TagAt(s) {
      StripTagsNoTags(s[1..]);
      StripTagsChars(s[1..]);
      var rest := StripTags(s[1..]);
      var r := [s[0]] + rest;
      if |s| >= 2 && s[0] == '<' && s[1] == '>' {
        StripTagsFirst(s[1..]);
        assert r[1] == '>';
      }
      assert !TagAt(r);
      forall i | 1 <= i < |r| ensures !TagAt(r[i..]) {
        assert r[i..] == rest[i - 1..];
      }
    } else if s != [] {
      StripTagsNoTags(s[1 + IndexOf(s[1..], '>') + 1..]);
    }
  }

  /** A tag is removed as a whole and the text before it is kept: `a<w>b` becomes `a` and the cleaned `b`. */
  lemma {:induction false} StripTagsSkipsTag(a: String, w: String, b: String)
    requires '<' !in a && w != [] && '>' !in w
    ensures StripTags(a + "<" + w + ">" + b) == a + StripTags(b)
    decreases |a|
  {
    var s := a + "<" + w + ">" + b;
    if a == [] {
      assert s == ['<'] + (w + ['>'] + b);
      assert s[1..] == w + ['>'] + b;
      IndexOfAfter(w, '>', b);
      assert s[1 + |w| + 1..] == b;
    } else {
      assert s[0] == a[0] && s[1..] == a[1..] + "<" + w + ">" + b;
      assert StripTags(s) == [a[0]] + StripTags(s[1..]) by { assert a[0] in a; }
      StripTagsSkipsTag(a[1..], w, b);
      assert a == [a[0]] + a[1..];
    }
  }

  /**
   * What is left after removing tags: no tag, only characters of the input,
   * the input itself when it has no tag, and its first character when that
   * character does not open a tag (a `<` without a closing `>` after it, or
   * followed at once by `>`, is kept).
   */
  lemma StripTagsSpec(s: String)
    ensures var r := StripTags(s);
      && NoTags(r)
      && (NoTags(s) ==> r == s)
      && (forall c :: c in r ==> c in s)
      && (s != [] && !TagAt(s) ==> r != [] && r[0] == s[0])
  {
    StripTagsNoTags(s);
    StripTagsChars(s);
    if NoTags(s) {
      StripTagsUnchanged(s);
    }
    if s != [] && !TagAt(s) {
      StripTagsFirst(s);
    }
  }

  /** The caption lines `clean_vtt` skips: headers, cue timings and blank lines. */
  predicate IsCaptionNoise(line: String) {
    || StartsWith(line, "WEBVTT")
    || StartsWith(line, "Kind:")
    || StartsWith(line, "Language:")
    || Contains(line, "-->")
    || Strip(line) == []
  }

  /** The text of a caption line: tags removed, then surrounding whitespace. */
  function CaptionText(line: String): String {
    Strip(StripTags(line))
  }

  /** A caption line that carries words: not noise, and with text left once tags and spaces are gone. */
  predicate Speaks(line: String) {
    !IsCaptionNoise(line) && CaptionText(line) != []
  }

  /** What a line contributes to the transcript: its text, or nothing. */
  function LineContribution(line: String): seq<String> {
    if Speaks(line) then [CaptionText(line)] else []
  }

  /** The texts of the caption lines, in order, before de-duplication. */
  function CaptionTexts(lines: seq<String>): seq<String> {
    Collect(lines, LineContribution)
  }

  /** A caption text is the text of some line that speaks, and every such line's text is one. */
  lemma CaptionTextsMembership(lines: seq<String>, w: String)
    ensures w in CaptionTexts(lines) <==> exists j :: 0 <= j < |lines| && Speaks(lines[j]) && CaptionText(lines[j]) == w
  {
    CollectMembership(lines, LineContribution, w);
    if exists j :: 0 <= j < |lines| && Speaks(lines[j]) && CaptionText(lines[j]) == w {
      var j :| 0 <= j < |lines| && Speaks(lines[j]) && CaptionText(lines[j]) == w;
      assert Contributes(LineContribution, lines[j], w);
    }
  }

  /** A header, timing or blank line contributes nothing, wherever it stands. */
  lemma CaptionNoiseContributesNothing(before: seq<String>, line: String, after: seq<String>)
    requires IsCaptionNoise(line)
    ensures CaptionTexts(before + [line] + after) == CaptionTexts(before + after)
  {
    SilentElement(before, line, after, LineContribution);
  }

  /** Every caption text is its own key: two lines are duplicates when their texts are equal. */
  function TextKey(w: String): Option<String> { Some(w) }

  lemma KeysOfTexts(s: seq<String>, w: String)
    ensures w in KeysOf(s, TextKey) <==> w in s
  {
    KeysOfMembership(s, TextKey, w);
    if w in s {
      var i :| 0 <= i < |s| && s[i] == w;
      assert HasKey(TextKey, s[i], w);
    }
  }

  /**
   * The words of the cleaned transcript: each is the non-empty text of a
   * line that is not noise, every such text appears, no text appears twice,
   * and the texts keep the order of their first appearance.
   */
  lemma CleanVttWords(lines: seq<String>)
    ensures var words := KeepFirst(CaptionTexts(lines), TextKey);
      && (forall i :: 0 <= i < |words| ==>
            (words[i] != [] && exists j :: 0 <= j < |lines| && Speaks(lines[j]) && CaptionText(lines[j]) == words[i]))
      && (forall j :: 0 <= j < |lines| && Speaks(lines[j]) ==> CaptionText(lines[j]) in words)
      && (forall i, k :: 0 <= i < k < |words| ==> words[i] != words[k])
      && words == FirstOccurrences(CaptionTexts(lines), TextKey)
  {
    var texts := CaptionTexts(lines);
    var words := KeepFirst(texts, TextKey);
    KeepFirstKeys(texts, TextKey);
    KeepFirstDistinct(texts, TextKey);
    KeepFirstIsFirstOccurrences(texts, TextKey);
    forall w ensures w in words <==> w in texts {
      KeysOfTexts(words, w);
      KeysOfTexts(texts, w);
    }
    forall i | 0 <= i < |words|
      ensures words[i] != [] && exists j :: 0 <= j < |lines| && Speaks(lines[j]) && CaptionText(lines[j]) == words[i]
    {
      assert words[i] in texts;
      CaptionTextsMembership(lines, words[i]);
    }
    forall j | 0 <= j < |lines| && Speaks(lines[j])
      ensures CaptionText(lines[j]) in words
    {
      CaptionTextsMembership(lines, CaptionText(lines[j]));
    }
  }

  /** `clean_vtt`: caption text to de-duplicated plain text, one space between line texts. */
  method CleanVtt(vttText: String) returns (text: String)
    ensures text == Join(" ", KeepFirst(CaptionTexts(SplitLines(vttText)), TextKey))
  {
    var all := SplitLines(vttText);
    var lines: seq<String> := [];
    var seen: set<String> := {};
    for i := 0 to |all|
      invariant lines == KeepFirst(CaptionTexts(all[..i]), TextKey)
      invariant seen == KeysOf(lines, TextKey)
    {
      var line := all[i];
      CollectPrefix(all, i, LineContribution);
      ghost var texts := CaptionTexts(all[..i]);
      if IsCaptionNoise(line) {
        assert CaptionTexts(all[..i + 1]) == texts;
        continue;
      }
      var cleaned := Strip(StripTags(line));
      assert cleaned == CaptionText(line);
      if cleaned != [] && cleaned !in seen {
        assert CaptionTexts(all[..i + 1]) == texts + [cleaned];
        KeepFirstAppend(texts, cleaned, TextKey);
        KeysOfAppend(lines, cleaned, TextKey);
        seen := seen + {cleaned};
        lines := lines + [cleaned];
      } else if cleaned == [] {
        assert CaptionTexts(all[..i + 1]) == texts;
      } else {
        assert CaptionTexts(all[..i + 1]) == texts + [cleaned];
        KeepFirstAppend(texts, cleaned, TextKey);
      }
    }
    assert all[..|all|] == all;
    text := Join(" ", lines);
  }

  // ---------------------------------------------------------------------------
  // The language-model reply

  /** The fields `parse_bedrock_response` returns. */
  datatype VideoPostFields = VideoPostFields(
    summary: String,
    seoDescription: String,
    categories: seq<String>,
    tags: seq<String>)

  const VideoTag: String := "video"

  /**
   * `parse_bedrock_response`: trimmed summary and SEO description (empty when
   * their section is missing), categories and tags from their arrays or the
   * defaults, and `"video"` added to the tags when it is not already there.
   */
  method ParseBedrockResponse(reply: ReplySections) returns (fields: VideoPostFields)
    ensures fields.summary == if reply.summary.Some? then Strip(reply.summary.value) else ""
    ensures fields.seoDescription == if reply.seoDescription.Some? then Strip(reply.seoDescription.value) else ""
    ensures fields.categories == reply.categories.GetOr(DefaultCategories)
    ensures VideoTag in fields.tags
    ensures reply.tags.None? ==> fields.tags == [VideoTag]
    ensures reply.tags.Some? ==>
      var given := reply.tags.value;
      && |given| <= |fields.tags| <= |given| + 1
      && fields.tags[..|given|] == given
      && (fields.tags == given <==> VideoTag in given)
      && (|fields.tags| > |given| ==> fields.tags[|given|] == VideoTag)
  {
    var summary := if reply.summary.Some? then Strip(reply.summary.value) else "";
    var seo := if reply.seoDescription.Some? then Strip(reply.seoDescription.value) else "";
    var categories := if reply.categories.Some? then reply.categories.value else DefaultCategories;
    var tags := AddVideoTag(if reply.tags.Some? then reply.tags.value else [VideoTag]);
    fields := VideoPostFields(summary, seo, categories, tags);
  }

  /** `"video"` is appended to the tags unless it is already one of them. */
  method AddVideoTag(given: seq<String>) returns (tags: seq<String>)
    ensures VideoTag in tags
    ensures |given| <= |tags| <= |given| + 1 && tags[..|given|] == given
    ensures tags == given <==> VideoTag in given
    ensures |tags| > |given| ==> tags[|given|] == VideoTag
  {
    tags := given;
    if VideoTag !in tags {
      tags := tags + [VideoTag];
      assert tags[..|given|] == given;
    }
  }

  // ---------------------------------------------------------------------------
  // Chapters

  /**
   * One `finditer` match of the chapter pattern in the video description:
   * the timestamp group and the rest of the line.
   */
  datatype ChapterMatch = ChapterMatch(timestamp: String, rest: String)

  datatype Chapter = Chapter(timestamp: String, title: String)

  /** What the timestamp group can match: `M:SS`, `MM:SS`, `H:MM:SS` or `HH:MM:SS`, ASCII digits. */
  predicate IsTimestamp(t: String) {
    var parts := Split(t, ':');
    && (|parts| == 2 || |parts| == 3)
    && 1 <= |parts[0]| <= 2 && AllDigits(parts[0])
    && forall k :: 1 <= k < |parts| ==> |parts[k]| == 2 && AllDigits(parts[k])
  }

  /** The two fields of a two-part timestamp, with the `:` between them. */
  lemma TwoPartTimestamp(t: String)
    requires |Split(t, ':')| == 2
    ensures t == Split(t, ':')[0] + ":" + Split(t, ':')[1]
  {
    var parts := Split(t, ':');
    SplitJoinsBack(t, ':');
    assert parts[1..] == [parts[1]];
  }

  /**
   * Normalises a two-part timestamp to `MM:SS` with `{:02d}` on both
   * fields; a three-part timestamp is kept as it is.
   */
  function NormaliseTimestamp(t: String): String
    requires IsTimestamp(t)
  {
    var parts := Split(t, ':');
    if |parts| == 2 then
      ZeroPad(ParseDigits(parts[0]), 2) + ":" + ZeroPad(ParseDigits(parts[1]), 2)
    else
      t
  }

  /**
   * A two-part timestamp gets a leading zero on one-digit minutes and keeps
   * both values; a three-part one is unchanged.
   */
  lemma NormaliseTimestampSpec(t: String)
    requires IsTimestamp(t)
    ensures var r := NormaliseTimestamp(t);
      && (|Split(t, ':')| == 3 ==> r == t)
      && (|Split(t, ':')| == 2 ==>
        && r == (if |Split(t, ':')[0]| == 1 then "0" + t else t)
        && |r| == 5 && r[2] == ':' && AllDigits(r[..2]) && AllDigits(r[3..])
        && ParseDigits(r[..2]) == ParseDigits(Split(t, ':')[0])
        && ParseDigits(r[3..]) == ParseDigits(Split(t, ':')[1]))
  {
    var parts := Split(t, ':');
    if |parts| == 2 {
      TwoPartTimestamp(t);
      PaddedFields(parts[0], parts[1]);
    }
  }

  /** Minutes and seconds re-formatted as `{:02d}:{:02d}`: five characters, same values. */
  lemma PaddedFields(minutes: String, seconds: String)
    requires 1 <= |minutes| <= 2 && AllDigits(minutes) && |seconds| == 2 && AllDigits(seconds)
    ensures var r := ZeroPad(ParseDigits(minutes), 2) + ":" + ZeroPad(ParseDigits(seconds), 2);
      && r == (if |minutes| == 1 then "0" + minutes else minutes) + ":" + seconds
      && |r| == 5 && r[2] == ':' && AllDigits(r[..2]) && AllDigits(r[3..])
      && ParseDigits(r[..2]) == ParseDigits(minutes)
      && ParseDigits(r[3..]) == ParseDigits(seconds)
  {
    var mm, ss := ZeroPad(ParseDigits(minutes), 2), ZeroPad(ParseDigits(seconds), 2);
    TwoDigitsRoundTrip(minutes);
    TwoDigitsRoundTrip(seconds);
    var r := mm + ":" + ss;
    assert r[..2] == mm && r[3..] == ss;
  }

  /** The chapter a match yields: the normalised timestamp and the trimmed title. */
  function ChapterOf(m: ChapterMatch): Chapter
    requires IsTimestamp(m.timestamp)
  {
    Chapter(NormaliseTimestamp(m.timestamp), Strip(m.rest))
  }

  /** `extract_chapters`: one chapter per match, in match order. */
  method ExtractChapters(matches: seq<ChapterMatch>) returns (chapters: seq<Chapter>)
    requires forall i :: 0 <= i < |matches| ==> IsTimestamp(matches[i].timestamp)
    ensures |chapters| == |matches|
    ensures forall i :: 0 <= i < |matches| ==> chapters[i] == ChapterOf(matches[i])
  {
    chapters := [];
    for i := 0 to |matches|
      invariant |chapters| == i
      invariant forall k :: 0 <= k < i ==> chapters[k] == ChapterOf(matches[k])
    {
      chapters := chapters + [ChapterOf(matches[i])];
    }
  }

  // ---------------------------------------------------------------------------
  // Links

  /**
   * One `finditer` match of the link pattern: the label text group, the URL group,
   * and the host name `urlparse` finds in the URL.
   */
  datatype LinkMatch = LinkMatch(text: String, url: String, hostname: Option<String>)

  datatype Link = Link(text: String, url: String)

  /** `SOCIAL_DOMAINS`: the social-media hosts whose links are not listed. */
  const SocialDomains: set<String> :=
    {"instagram.com", "twitter.com", "x.com", "linkedin.com",
     "twitch.tv", "facebook.com", "tiktok.com", "discord.gg"}

  /** The host name without a leading `www.`, or `""` when the URL has none. */
  function LinkDomain(m: LinkMatch): String {
    RemovePrefix(m.hostname.GetOr(""), "www.")
  }

  predicate MentionsYouTube(url: String) {
    Contains(url, "youtube.com") || Contains(url, "youtu.be")
  }

  /** A match is listed unless its URL mentions YouTube or its domain is a social one. */
  predicate IsKeptLink(m: LinkMatch) {
    !MentionsYouTube(Strip(m.url)) && LinkDomain(m) !in SocialDomains
  }

  function LinkOf(m: LinkMatch): Link {
    Link(Strip(m.text), Strip(m.url))
  }

  /** What a match contributes to the link list. */
  function LinkContribution(m: LinkMatch): seq<Link> {
    if IsKeptLink(m) then [LinkOf(m)] else []
  }

  /** The links listed for a sequence of matches. */
  function KeptLinks(matches: seq<LinkMatch>): seq<Link> {
    Collect(matches, LinkContribution)
  }

  /** `extract_links`: the labelled links that survive the YouTube and social-media filters. */
  method ExtractLinks(matches: seq<LinkMatch>) returns (links: seq<Link>)
    ensures links == KeptLinks(matches)
  {
    links := [];
    for i := 0 to |matches|
      invariant links == KeptLinks(matches[..i])
    {
      var m := matches[i];
      CollectPrefix(matches, i, LinkContribution);
      var text := Strip(m.text);
      var url := Strip(m.url);
      var domain := RemovePrefix(m.hostname.GetOr(""), "www.");
      if Contains(url, "youtube.com") || Contains(url, "youtu.be") {
        assert LinkContribution(m) == [];
        continue;
      }
      if domain in SocialDomains {
        assert LinkContribution(m) == [];
        continue;
      }
      assert LinkContribution(m) == [Link(text, url)];
      links := links + [Link(text, url)];
    }
    assert matches[..|matches|] == matches;
  }

  /**
   * Exactly the kept matches are listed: every listed link comes from a
   * match whose URL does not mention YouTube and whose domain is not a
   * social one, and every such match is listed.
   */
  lemma KeptLinksFiltered(matches: seq<LinkMatch>, l: Link)
    ensures l in KeptLinks(matches) <==>
      exists j :: 0 <= j < |matches| && IsKeptLink(matches[j]) && LinkOf(matches[j]) == l
  {
    CollectMembership(matches, LinkContribution, l);
    if exists j :: 0 <= j < |matches| && IsKeptLink(matches[j]) && LinkOf(matches[j]) == l {
      var j :| 0 <= j < |matches| && IsKeptLink(matches[j]) && LinkOf(matches[j]) == l;
      assert Contributes(LinkContribution, matches[j], l);
    }
  }

  /** No listed URL mentions YouTube. */
  lemma KeptLinksAvoidYouTube(matches: seq<LinkMatch>)
    ensures forall l :: l in KeptLinks(matches) ==> !MentionsYouTube(l.url)
  {
    forall l | l in KeptLinks(matches) ensures !MentionsYouTube(l.url) {
      KeptLinksFiltered(matches, l);
    }
  }

  /** Filtering keeps the order of the matches: the links of `a + b` are those of `a`, then those of `b`. */
  lemma KeptLinksOrder(a: seq<LinkMatch>, b: seq<LinkMatch>)
    ensures KeptLinks(a + b) == KeptLinks(a) + KeptLinks(b)
  {
    CollectConcat(a, b, LinkContribution);
  }

  // ---------------------------------------------------------------------------
  // Slug

  /** What `[^a-z0-9\s-]` leaves in place. */
  predicate IsSlugSourceChar(c: char) {
    IsLowerAlnum(c) || IsSpace(c) || c == '-'
  }

  /** `re.sub(r"[^a-z0-9\s-]", "", s)`. */
  function KeepSlugSourceChars(s: String): (r: String)
    ensures forall i :: 0 <= i < |r| ==> IsSlugSourceChar(r[i])
    ensures (forall i :: 0 <= i < |s| ==> IsSlugSourceChar(s[i])) ==> r == s
  {
    if s == [] then []
    else if IsSlugSourceChar(s[0]) then [s[0]] + KeepSlugSourceChars(s[1..])
    else KeepSlugSourceChars(s[1..])
  }

  /** The filter keeps every slug-source character as often as the input has it, and drops every other one. */
  lemma {:induction false} KeepSlugSourceCharsCounts(s: String)
    ensures forall c :: multiset(KeepSlugSourceChars(s))[c] == if IsSlugSourceChar(c) then multiset(s)[c] else 0
    decreases |s|
  {
    if s != [] {
      KeepSlugSourceCharsCounts(s[1..]);
      assert s == [s[0]] + s[1..];
      assert multiset(s) == multiset([s[0]]) + multiset(s[1..]);
    }
  }

  /** The filter works character by character in order: it distributes over concatenation. */
  lemma {:induction false} KeepSlugSourceCharsAppend(a: String, b: String)
    ensures KeepSlugSourceChars(a + b) == KeepSlugSourceChars(a) + KeepSlugSourceChars(b)
    decreases |a|
  {
    if a == [] {
      assert a + b == b;
    } else {
      assert (a + b)[0] == a[0] && (a + b)[1..] == a[1..] + b;
      KeepSlugSourceCharsAppend(a[1..], b);
    }
  }

  /** The slug before the length cut: lower case, filtered, whitespace runs to hyphens, hyphens stripped. */
  function SlugBody(title: String): String {
    StripHyphens(ReplaceSpaceRuns(KeepSlugSourceChars(Lower(title))))
  }

  /** Before the cut the slug uses `[a-z0-9-]` only and has no hyphen at either end. */
  lemma SlugBodyShape(title: String)
    ensures var r := SlugBody(title);
      SlugChars(r) && (r == [] || (r[0] != '-' && r[|r| - 1] != '-'))
  {
    var kept := KeepSlugSourceChars(Lower(title));
    var hyphenated := ReplaceSpaceRuns(kept);
    ReplaceSpaceRunsChars(kept);
    assert forall c :: c in kept ==> IsSlugSourceChar(c);
    assert forall i :: 0 <= i < |hyphenated| ==> hyphenated[i] in hyphenated;
    assert SlugChars(hyphenated);
  }

  /** `slugify` of the video-post script: the uncut slug, or a prefix of it that fits `maxLength`. */
  function Slugify(title: String, maxLength: nat): (r: String)
    ensures |r| <= maxLength && r <= SlugBody(title)
    ensures |SlugBody(title)| <= maxLength ==> r == SlugBody(title)
  {
    CutAtHyphen(SlugBody(title), maxLength)
  }

  /** A slug uses `[a-z0-9-]` only, fits `maxLength` and does not start with a hyphen. */
  lemma SlugifyShape(title: String, maxLength: nat)
    ensures var slug := Slugify(title, maxLength);
      SlugChars(slug) && |slug| <= maxLength && (slug == [] || slug[0] != '-')
  {
    SlugBodyShape(title);
    CutAtHyphenKeepsShape(SlugBody(title), maxLength);
  }

  /** Slug characters all survive the character filter. */
  lemma SlugCharsKept(s: String)
    requires SlugChars(s)
    ensures KeepSlugSourceChars(s) == s
  {
    assert forall i :: 0 <= i < |s| ==> IsSlugSourceChar(s[i]);
  }

  /** Slug text goes through the steps before the hyphen strip unchanged. */
  lemma SlugCharsFixed(s: String)
    requires SlugChars(s)
    ensures ReplaceSpaceRuns(KeepSlugSourceChars(Lower(s))) == s
  {
    LowerUnchanged(s);
    SlugCharsKept(s);
    SlugCharsHaveNoSpace(s);
  }

  /** A lower-case slug without end hyphens goes through the steps before the cut unchanged. */
  lemma SlugBodyFixes(s: String)
    requires SlugChars(s) && (s == [] || (s[0] != '-' && s[|s| - 1] != '-'))
    ensures SlugBody(s) == s
  {
    SlugCharsFixed(s);
    StripUnchanged(s, IsHyphen);
  }

  /** Without truncation the slug has no trailing hyphen and slugifying it again changes nothing. */
  lemma SlugifyIdempotentWithoutCut(title: String, maxLength: nat)
    requires |SlugBody(title)| <= maxLength
    ensures var slug := Slugify(title, maxLength);
      && (slug == [] || slug[|slug| - 1] != '-')
      && Slugify(slug, maxLength) == slug
  {
    var s := SlugBody(title);
    SlugBodyShape(title);
    assert Slugify(title, maxLength) == s;
    SlugBodyFixes(s);
    assert Slugify(s, maxLength) == CutAtHyphen(s, maxLength);
  }

  /** `"a--bbbb"` is already made of slug characters, so only the cut changes it. */
  lemma DoubledHyphenBody()
    ensures SlugBody("a--bbbb") == "a--bbbb"
  {
    SlugBodyFixes("a--bbbb");
  }

  lemma StripTrailingHyphen(x: String)
    requires x == "a-"
    ensures StripHyphens(x) == "a"
  {
    assert x == "a" + "-";
    DropWhileEndAppend("a", "-", IsHyphen);
    assert DropWhile(x, IsHyphen) == x;
  }

  lemma TrailingHyphenStripped(t: String)
    requires t == "a-"
    ensures Slugify(t, 4) == "a"
  {
    SlugCharsFixed(t);
    StripTrailingHyphen(t);
  }

  lemma DoubledHyphenCut(title: String)
    requires title == "a--bbbb"
    ensures Slugify(title, 4) == "a-"
  {
    DoubledHyphenBody();
    CutAtDoubledHyphen(title);
  }

  lemma CutAtDoubledHyphen(s: String)
    requires s == "a--bbbb"
    ensures CutAtHyphen(s, 4) == "a-"
  {
    var head := s[..4];
    assert head == "a--b";
    var k := LastIndexOf(head, '-');
    assert k == 2;
  }

  /**
   * The cut can stop at a hyphen of a doubled `--`, leaving a trailing
   * hyphen that a second pass strips: `"a--bbbb"` with a maximum of 4 gives
   * `"a-"`, whose slug is `"a"`.
   */
  lemma SlugifyCutLeavesHyphen(title: String)
    requires title == "a--bbbb"
    ensures Slugify(title, 4) == "a-"
    ensures Slugify(Slugify(title, 4), 4) == "a"
  {
    DoubledHyphenCut(title);
    TrailingHyphenStripped(Slugify(title, 4));
  }

  // ---------------------------------------------------------------------------
  // Upload date

  /**
   * The `YYYYMMDD` upload date as `YYYY-MM-DD`, cut with Python's clamped
   * slices; an empty date falls back to `today`.
   */
  function UploadDate(raw: String, today: String): (r: String)
    ensures raw == [] ==> r == today
    ensures |raw| >= 8 ==>
      && |r| == 10 && r[4] == '-' && r[7] == '-'
      && r[..4] + r[5..7] + r[8..] == raw[..8]
    ensures 0 < |raw| < 8 ==>
      var a := if |raw| < 4 then |raw| else 4;
      var b := if |raw| < 6 then |raw| else 6;
      && |r| == |raw| + 2 && r[a] == '-' && r[b + 1] == '-'
      && r[..a] + r[a + 1..b + 1] + r[b + 2..] == raw
  {
    if raw == [] then today
    else
      var r := Slice(raw, 0, 4) + "-" + Slice(raw, 4, 6) + "-" + Slice(raw, 6, 8);
      assert |raw| >= 8 ==> r[..4] == raw[..4] && r[5..7] == raw[4..6] && r[8..] == raw[6..8];
      assert |raw| >= 8 ==> raw[..8] == raw[..4] + raw[4..6] + raw[6..8];
      ShortUploadDate(raw, r);
      r
  }

  /** A date shorter than eight characters keeps all of them, with the two hyphens at the clamped positions. */
  lemma ShortUploadDate(raw: String, r: String)
    requires r == Slice(raw, 0, 4) + "-" + Slice(raw, 4, 6) + "-" + Slice(raw, 6, 8)
    ensures 0 < |raw| < 8 ==>
      var a := if |raw| < 4 then |raw| else 4;
      var b := if |raw| < 6 then |raw| else 6;
      && |r| == |raw| + 2 && r[a] == '-' && r[b + 1] == '-'
      && r[..a] + r[a + 1..b + 1] + r[b + 2..] == raw
  {
    if 0 < |raw| < 8 {
      var a := if |raw| < 4 then |raw| else 4;
      var b := if |raw| < 6 then |raw| else 6;
      assert Slice(raw, 0, 4) == raw[..a] && Slice(raw, 4, 6) == raw[a..b] && Slice(raw, 6, 8) == raw[b..];
      assert r[..a] == raw[..a] && r[a + 1..b + 1] == raw[a..b] && r[b + 2..] == raw[b..];
      assert raw == raw[..a] + raw[a..b] + raw[b..];
    }
  }

  // ---------------------------------------------------------------------------
  // The post

  function ChapterLine(ch: Chapter): String {
    "- **" + ch.timestamp + "** - " + ch.title
  }

  function LinkLine(l: Link): String {
    "- [" + l.text + "](" + l.url + ")"
  }

  function ChapterLines(chapters: seq<Chapter>): (r: seq<String>)
    ensures |r| == |chapters|
  {
    seq(|chapters|, k requires 0 <= k < |chapters| => ChapterLine(chapters[k]))
  }

  function LinkLines(links: seq<Link>): (r: seq<String>)
    ensures |r| == |links|
  {
    seq(|links|, k requires 0 <= k < |links| => LinkLine(links[k]))
  }

  /** A section: nothing when it has no items, else a blank line, its heading, a blank line and the items. */
  function Section(heading: String, items: seq<String>): seq<String> {
    if items == [] then [] else ["", heading, ""] + items
  }

  const ChaptersHeading: String := "## Chapters"
  const LinksHeading: String := "## Links & Resources"

  function EmbedLine(videoId: String): String {
    "{% include embed/youtube.html id='" + videoId + "' %}"
  }

  /** The head of the post: front matter, the embedded video and the summary. */
  function PostHead(videoId: String, title: String, uploadDate: String, fields: VideoPostFields): seq<String> {
    FrontMatterLines(title, uploadDate, fields.categories, fields.tags, fields.seoDescription)
      + ["", EmbedLine(videoId), "", fields.summary]
  }

  /** The lines of the post, before they are joined with newlines. */
  function PostLines(videoId: String, title: String, uploadDate: String, fields: VideoPostFields,
                     chapters: seq<Chapter>, links: seq<Link>): seq<String>
  {
    PostHead(videoId, title, uploadDate, fields)
      + Section(ChaptersHeading, ChapterLines(chapters))
      + Section(LinksHeading, LinkLines(links))
      + [""]
  }

  /** The chapter loop of `build_post`: one `- **ts** - title` line per chapter, appended in order. */
  method AppendChapterLines(lines: seq<String>, chapters: seq<Chapter>) returns (out: seq<String>)
    ensures out == lines + ChapterLines(chapters)
  {
    out := lines;
    for i := 0 to |chapters|
      invariant out == lines + ChapterLines(chapters[..i])
    {
      assert ChapterLines(chapters[..i + 1]) == ChapterLines(chapters[..i]) + [ChapterLine(chapters[i])];
      out := out + [ChapterLine(chapters[i])];
    }
    assert chapters[..|chapters|] == chapters;
  }

  /** The link loop of `build_post`: one `- [label](url)` line per link, appended in order. */
  method AppendLinkLines(lines: seq<String>, links: seq<Link>) returns (out: seq<String>)
    ensures out == lines + LinkLines(links)
  {
    out := lines;
    for i := 0 to |links|
      invariant out == lines + LinkLines(links[..i])
    {
      assert LinkLines(links[..i + 1]) == LinkLines(links[..i]) + [LinkLine(links[i])];
      out := out + [LinkLine(links[i])];
    }
    assert links[..|links|] == links;
  }

  /** `build_post`: the post text, built line by line and joined with newlines. */
  method BuildPost(videoId: String, title: String, uploadDate: String, fields: VideoPostFields,
                   chapters: seq<Chapter>, links: seq<Link>) returns (post: String)
    ensures post == Join("\n", PostLines(videoId, title, uploadDate, fields, chapters, links))
  {
    var lines := FrontMatterLines(title, uploadDate, fields.categories, fields.tags, fields.seoDescription);
    lines := lines + ["", EmbedLine(videoId), "", fields.summary];
    ghost var head := lines;
    if |chapters| > 0 {
      lines := AppendChapterLines(lines + ["", ChaptersHeading, ""], chapters);
    }
    assert lines == head + Section(ChaptersHeading, ChapterLines(chapters));
    ghost var middle := lines;
    if |links| > 0 {
      lines := AppendLinkLines(lines + ["", LinksHeading, ""], links);
    }
    assert lines == middle + Section(LinksHeading, LinkLines(links));
    lines := lines + [""];
    post := Join("\n", lines);
  }

  /** The post starts with the front matter, followed by the embedded video and the summary. */
  lemma PostStartsWithFrontMatter(videoId: String, title: String, uploadDate: String, fields: VideoPostFields,
                                  chapters: seq<Chapter>, links: seq<Link>)
    ensures var lines := PostLines(videoId, title, uploadDate, fields, chapters, links);
      && |lines| >= 12
      && lines[..7] == FrontMatterLines(title, uploadDate, fields.categories, fields.tags, fields.seoDescription)
      && lines[8] == EmbedLine(videoId) && lines[10] == fields.summary
  {
  }

  /** The post text ends with a newline. */
  lemma PostEndsWithNewline(videoId: String, title: String, uploadDate: String, fields: VideoPostFields,
                            chapters: seq<Chapter>, links: seq<Link>)
    ensures EndsWith(Join("\n", PostLines(videoId, title, uploadDate, fields, chapters, links)), "\n")
  {
    var lines := PostLines(videoId, title, uploadDate, fields, chapters, links);
    var init := lines[..|lines| - 1];
    assert lines == init + [""];
    JoinAppend("\n", init, "");
  }

  /** No line of the post head starts with `#`, apart from possibly the summary. */
  lemma HeadHasNoHeading(videoId: String, title: String, uploadDate: String, fields: VideoPostFields)
    ensures var head := PostHead(videoId, title, uploadDate, fields);
      |head| == 11 && forall i :: 0 <= i < 10 ==> head[i] == [] || head[i][0] != '#'
  {
    var head := PostHead(videoId, title, uploadDate, fields);
    assert head[1][0] == 't' && head[2][0] == 'd' && head[3][0] == 'c';
    assert head[4][0] == 't' && head[5][0] == 'd' && head[8][0] == '{';
  }

  /** Item lines of either section start with `-`. */
  lemma ItemLinesStartWithDash(chapters: seq<Chapter>, links: seq<Link>)
    ensures forall i :: 0 <= i < |chapters| ==> ChapterLines(chapters)[i][0] == '-'
    ensures forall i :: 0 <= i < |links| ==> LinkLines(links)[i][0] == '-'
  {
  }

  /**
   * The post has a `## Chapters` line exactly when there are chapters, and a
   * `## Links & Resources` line exactly when there are links, as long as the
   * summary is not itself one of those headings.
   */
  lemma SectionsPresentIffItems(videoId: String, title: String, uploadDate: String, fields: VideoPostFields,
                                chapters: seq<Chapter>, links: seq<Link>)
    requires fields.summary != ChaptersHeading && fields.summary != LinksHeading
    ensures var lines := PostLines(videoId, title, uploadDate, fields, chapters, links);
      && (ChaptersHeading in lines <==> chapters != [])
      && (LinksHeading in lines <==> links != [])
  {
    var head := PostHead(videoId, title, uploadDate, fields);
    var cs := Section(ChaptersHeading, ChapterLines(chapters));
    var ls := Section(LinksHeading, LinkLines(links));
    var lines := PostLines(videoId, title, uploadDate, fields, chapters, links);
    assert lines == head + cs + ls + [""];
    HeadHasNoHeading(videoId, title, uploadDate, fields);
    ItemLinesStartWithDash(chapters, links);
    assert ChaptersHeading[0] == '#' && LinksHeading[0] == '#' && ChaptersHeading != LinksHeading;
    assert ChaptersHeading !in head && LinksHeading !in head;
    assert LinksHeading !in cs;
    assert ChaptersHeading !in ls;
    assert chapters != [] ==> cs[1] == ChaptersHeading;
    assert links != [] ==> ls[1] == LinksHeading;
  }
}
