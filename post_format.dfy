/**
 * The YAML front matter both scripts put at the head of a post, and the
 * quote escaping they apply to the values written between double quotes.
 */
module PostFormat {
  import opened Wrappers
  import opened Strings

  /**
   * What the section searches find in a language-model reply: the text
   * captured after `SUMMARY:` and `SEO_DESCRIPTION:` (up to the next marker),
   * and the JSON arrays after `CATEGORIES:` and `TAGS:`, already decoded.
   * `None` stands for a search that found nothing.
   */
  datatype ReplySections = ReplySections(
    summary: Option<String>,
    seoDescription: Option<String>,
    categories: Option<seq<String>>,
    tags: Option<seq<String>>)

  /** The categories both scripts fall back to when the reply has no `CATEGORIES:` array. */
  const DefaultCategories: seq<String> := ["AI", "Tutorials"]

  /** `s.replace('"', '\\"')`: every double quote gets a backslash in front of it. */
  function EscapeQuotes(s: String): (r: String)
    ensures r == [] || r[0] != '\"'
    ensures forall i :: 0 <= i < |r| && r[i] == '\"' ==> 0 < i && r[i - 1] == '\\'
    ensures |r| >= |s|
  {
    if s == [] then []
    else
      var head := if s[0] == '\"' then "\\\"" else [s[0]];
      var r := head + EscapeQuotes(s[1..]);
      assert r[|head|..] == EscapeQuotes(s[1..]);
      r
  }

  /**
   * The inverse the escaping is built for: `\"` stands for `"` and every other
   * character stands for itself. This is not a YAML reader: YAML also gives
   * meaning to other backslash sequences, which the escaping leaves alone.
   */
  function UnescapeQuotes(s: String): String {
    if s == [] then []
    else if |s| >= 2 && s[0] == '\\' && s[1] == '\"' then "\"" + UnescapeQuotes(s[2..])
    else [s[0]] + UnescapeQuotes(s[1..])
  }

  /** Escaping loses nothing: the escaped text reads back under `UnescapeQuotes` as the original. */
  lemma {:induction false} EscapeQuotesRoundTrip(s: String)
    ensures UnescapeQuotes(EscapeQuotes(s)) == s
  {
    if s != [] {
      var e := EscapeQuotes(s);
      var rest := EscapeQuotes(s[1..]);
      EscapeQuotesRoundTrip(s[1..]);
      if s[0] == '\"' {
        assert e == "\\\"" + rest && e[2..] == rest;
      } else {
        assert e == [s[0]] + rest && e[1..] == rest;
        assert |e| >= 2 ==> e[1] == rest[0];
      }
      assert s == [s[0]] + s[1..];
    }
  }

  /** The seven front-matter lines: delimiters, title, date, categories, tags, description. */
  function FrontMatterLines(title: String, date: String, categories: seq<String>,
                            tags: seq<String>, description: String): seq<String>
  {
    [ "---",
      "title: \"" + EscapeQuotes(title) + "\"",
      "date: " + date,
      "categories: [" + Join(", ", categories) + "]",
      "tags: [" + Join(", ", tags) + "]",
      "description: \"" + EscapeQuotes(description) + "\"",
      "---" ]
  }

  /** A double-quoted scalar line whose value contains no unescaped quote. */
  predicate QuotedLine(line: String, name: String, value: String) {
    var prefix := name + ": \"";
    && |line| >= |prefix| + 1
    && line[..|prefix|] == prefix && line[|line| - 1] == '\"'
    && var inner := line[|prefix|..|line| - 1];
       && UnescapeQuotes(inner) == value
       && forall i :: 0 <= i < |inner| && inner[i] == '\"' ==> 0 < i && inner[i - 1] == '\\'
  }

  /**
   * The front matter is delimited by `---` lines and its title and
   * description lines are quoted values with no unescaped `"` inside that
   * read back under `UnescapeQuotes` as the given text.
   */
  lemma FrontMatterShape(title: String, date: String, categories: seq<String>,
                         tags: seq<String>, description: String)
    ensures var lines := FrontMatterLines(title, date, categories, tags, description);
      && |lines| == 7 && lines[0] == "---" && lines[6] == "---"
      && QuotedLine(lines[1], "title", title)
      && lines[2] == "date: " + date
      && QuotedLine(lines[5], "description", description)
  {
    EscapeQuotesRoundTrip(title);
    EscapeQuotesRoundTrip(description);
    var lines := FrontMatterLines(title, date, categories, tags, description);
    assert lines[1][|"title: \""|..|lines[1]| - 1] == EscapeQuotes(title);
    assert lines[5][|"description: \""|..|lines[5]| - 1] == EscapeQuotes(description);
  }
}
