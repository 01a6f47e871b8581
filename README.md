# Blog tooling string helpers, modelled in Dafny

The blog has two content scripts. `tools/new-post/new_post.py` turns a
YouTube video into a markdown post. `tools/port_builder_articles.py` ports
AWS Builder Center articles into the blog. Both fetch content and ask a
language model for metadata. Between those calls sit small deterministic
text transforms, and this project models those transforms and proves
their properties:

- the video ID taken from a URL;
- caption (VTT) cleanup with global de-duplication;
- reading the model's reply, with its fallback rules;
- chapter and link extraction from a video description;
- the two slug functions;
- the upload-date formatting;
- the assembled video post;
- the article extraction window;
- the four passes of article-body cleanup;
- the article metadata defaults;
- the article post text and its file name.

Layout:

| file | module | contents |
|---|---|---|
| `wrappers.dfy` | `Wrappers` | `Option` and `Result` |
| `strings.dfy` | `Strings` | the Python `str` operations the scripts use, over ASCII: strip, split, splitlines, join, startswith, find, zero-padded decimals |
| `dedup.dfy` | `Dedup` | keeping the first element per key, the `seen`-set loop shared by `clean_vtt` and `clean_body`, with an independent first-occurrence definition |
| `pipeline.dfy` | `Pipeline` | `Collect`, the filter-and-map of a loop that appends zero or one item per input |
| `slugs.dfy` | `Slugs` | the whitespace-to-hyphen, hyphen-strip and length-cut steps both slug functions share |
| `post_format.dfy` | `PostFormat` | the reply sections, quote escaping and the seven front-matter lines both posts begin with |
| `new_post.dfy` | `NewPost` | the video-post helpers |
| `port_articles.dfy` | `PortArticles` | the article-port helpers |

Where the scripts change state step by step, the model is a method.
These methods run a loop and are proved equal to a specification function:

- `CleanVtt`, `ExtractChapters` and `ExtractLinks`;
- `AppendChapterLines` and `AppendLinkLines`, the item loops of `BuildPost`;
- `FindBodyStart` and `FindBodyEnd`, the first-hit `break` loop and the running-minimum loop of `ExtractArticle`;
- `FilterNavigation`, the first pass of `CleanBody`;
- `Dedup.KeepFirstLoop`, the `seen`-set loop of the image pass of `CleanBody` (`CleanVtt` runs its own `seen`-set loop).

These methods are straight-line: `ParseBedrockResponse`, `AddVideoTag`,
`BuildPost`, `ExtractArticle`, `CleanBody` and `WritePost`. Each has an
`ensures` that gives its whole result in terms of the loops above and the
specification functions.

The properties are proved about those specification functions.

Regular expressions are handled in two ways:

- The small fixed patterns are written out as scanners:
  - `<[^>]+>`;
  - `\n{3,}`;
  - `!\[Image \d+: `;
  - `!\[.*?\]\((.*?)\)`;
  - the slug character classes;
  - `\s+` and `-{2,}`.
- The large searches are inputs to the model:
  - the reply sections;
  - the title heading;
  - the `Published` date;
  - the article start and end markers;
  - the `[# tag]` list;
  - the chapter and link `finditer` matches.

  Each is given as captured text or a match position. What the model
  proves is the selection and fallback logic built on top of them.

## Model

| member | source | states |
|---|---|---|
| `NewPost.ExtractVideoId` | tools/new-post/new_post.py:21-31 | `youtu.be` gives the path without its leading slashes; a YouTube `/watch` URL gives the first `v` value or fails for a missing `v`; an `/embed/` or `/v/` path gives the segment after that prefix; the result is the unrecognised-URL error exactly when none of the three shapes applies |
| `NewPost.EmbedSegment` | tools/new-post/new_post.py:29-30 | for an `/embed/` or `/v/` path, the third `/`-separated field is the whole segment that starts after the prefix |
| `NewPost.StripTagsSpec` | tools/new-post/new_post.py:64 | after tag removal no `<…>` tag is left, every character comes from the line, a line without tags is unchanged, and a first character that opens no tag (a lone `<` included) is kept |
| `NewPost.StripTags` | tools/new-post/new_post.py:64 | removing tags never makes the line longer |
| `NewPost.StripTagsKeep` | tools/new-post/new_post.py:64 | a first character that opens no tag, a literal `<>` or a lone `<` included, is copied and removal goes on behind it |
| `NewPost.StripTagsSkipsTag` | tools/new-post/new_post.py:64 | text before the first `<` is kept as it is, a tag `<w>` with non-empty `w` up to its first `>` is dropped, and removal goes on behind it |
| `NewPost.CaptionTextsMembership` | tools/new-post/new_post.py:53-67 | a text enters the transcript list exactly when some line that is not noise has that text, non-empty, after tag removal and trimming |
| `NewPost.CaptionNoiseContributesNothing` | tools/new-post/new_post.py:55-62 | a `WEBVTT`, `Kind:` or `Language:` line, a cue timing with `-->` or a blank line can be removed from anywhere in the input without changing the transcript |
| `NewPost.CleanVttWords` | tools/new-post/new_post.py:64-68 | the kept texts are non-empty, come from speaking lines, include every speaking line's text, are pairwise distinct across the whole transcript, and are exactly the first occurrences in order |
| `NewPost.CleanVtt` | tools/new-post/new_post.py:49-68 | the loop over `splitlines` with its `seen` set returns the first occurrences of the caption texts joined by single spaces |
| `NewPost.ParseBedrockResponse` | tools/new-post/new_post.py:149-177 | summary and SEO description are the trimmed sections or `""`; categories are the parsed array or `["AI", "Tutorials"]`; `"video"` is always among the tags; tags are `["video"]` without a tags section; otherwise the given tags, unchanged when `"video"` was already there and with `"video"` appended when it was not |
| `NewPost.AddVideoTag` | tools/new-post/new_post.py:173-175 | `"video"` ends up among the tags; the given tags stay a prefix, and one `"video"` is appended exactly when it was missing |
| `NewPost.TwoPartTimestamp` | tools/new-post/new_post.py:189 | a timestamp with two `:`-fields is those two fields joined by `:` |
| `NewPost.PaddedFields` | tools/new-post/new_post.py:191 | minutes and seconds formatted with `:02d` give five characters `MM:SS`, a zero added only to one-digit minutes, values unchanged |
| `NewPost.NormaliseTimestampSpec` | tools/new-post/new_post.py:186-192 | a three-part timestamp is kept verbatim; a two-part one becomes five characters `MM:SS` of digits, a zero added only for one-digit minutes, with the minute and second values unchanged |
| `NewPost.ExtractChapters` | tools/new-post/new_post.py:180-193 | one chapter per match, in match order, each with the normalised timestamp and the trimmed title |
| `NewPost.ExtractLinks` | tools/new-post/new_post.py:208-224 | the loop returns the links of the matches that pass both filters, in order |
| `NewPost.KeptLinksFiltered` | tools/new-post/new_post.py:217-223 | a link is listed exactly when some match yields it whose URL mentions neither `youtube.com` nor `youtu.be` and whose host, without `www.`, is not one of the eight social domains |
| `NewPost.KeptLinksAvoidYouTube` | tools/new-post/new_post.py:219-220 | no listed URL mentions YouTube |
| `NewPost.KeptLinksOrder` | tools/new-post/new_post.py:210-224 | the links found in `a + b` are those of `a` followed by those of `b`, so order is kept |
| `NewPost.KeepSlugSourceChars` | tools/new-post/new_post.py:230 | only `[a-z0-9]`, whitespace and `-` remain, and text made of those alone is unchanged |
| `NewPost.KeepSlugSourceCharsCounts` | tools/new-post/new_post.py:230 | each `[a-z0-9]`, whitespace or `-` character is kept as often as the title has it, and every other character is dropped |
| `NewPost.KeepSlugSourceCharsAppend` | tools/new-post/new_post.py:230 | the filter distributes over concatenation, so the kept characters stay in their input order |
| `Slugs.ReplaceSpaceRunsChars` | tools/new-post/new_post.py:231 | no whitespace is left after the runs become `-`, and every other character comes from the input |
| `Slugs.ReplaceSpaceRunsUnchanged` | tools/new-post/new_post.py:231 | text without whitespace is unchanged |
| `Slugs.ReplaceSpaceRunsRun` | tools/new-post/new_post.py:231 | a whole run of whitespace, of any length, becomes one `-` and the rest is processed behind it |
| `Slugs.StripHyphens` | tools/new-post/new_post.py:231 | the result neither starts nor ends with `-`, every character comes from the input, and it is no longer than the input |
| `Slugs.CutAtHyphen` | tools/new-post/new_post.py:233-234 | the result is a prefix of the slug; a slug within `max_length` is unchanged; a longer one is cut to at most `max_length`: just before a `-` in its first `max_length` characters after which those characters hold no further `-` (the last one), or to exactly `max_length` characters when they hold no `-` |
| `NewPost.SlugBodyShape` | tools/new-post/new_post.py:229-231 | before the cut the slug uses `[a-z0-9-]` only and neither starts nor ends with `-` |
| `NewPost.Slugify` | tools/new-post/new_post.py:227-235 | the slug fits `max_length` and is a prefix of the uncut slug, and equals it when that already fits |
| `NewPost.SlugifyShape` | tools/new-post/new_post.py:227-235 | the slug uses `[a-z0-9-]` only, is at most `max_length` long and never starts with `-` |
| `NewPost.SlugBodyFixes` | tools/new-post/new_post.py:229-231 | text already in slug form passes the steps before the cut unchanged |
| `NewPost.SlugifyIdempotentWithoutCut` | tools/new-post/new_post.py:227-235 | when no cut happens, the slug has no trailing `-` and slugifying it again returns it unchanged |
| `NewPost.SlugifyCutLeavesHyphen` | tools/new-post/new_post.py:233-234 | a cut inside `--` leaves a trailing `-`: `"a--bbbb"` with maximum 4 gives `"a-"`, and slugifying that gives `"a"`, so the function is not idempotent after a cut |
| `NewPost.UploadDate` | tools/new-post/new_post.py:306-311 | an empty date gives the supplied current date; a date of at least eight characters becomes ten characters with `-` at positions 4 and 7, and the characters in between are its first eight in order; a shorter non-empty date keeps all its characters, with the two `-` inserted where the clamped slices `[:4]` and `[4:6]` end |
| `NewPost.ShortUploadDate` | tools/new-post/new_post.py:306-311 | for a non-empty date shorter than eight characters, the three clamped slices joined by `-` hold every input character once, in order, with a `-` at each slice end |
| `NewPost.BuildPost` | tools/new-post/new_post.py:238-287 | the post is the line list (front matter, embed, summary, the sections, a final empty line) joined by newlines |
| `NewPost.AppendChapterLines` | tools/new-post/new_post.py:275-276 | the loop appends one `- **timestamp** - title` item line per chapter, in order, after the existing lines |
| `NewPost.AppendLinkLines` | tools/new-post/new_post.py:283-284 | the loop appends one `- [label](url)` item line per link, in order, after the existing lines |
| `NewPost.PostStartsWithFrontMatter` | tools/new-post/new_post.py:256-268 | the post lines begin with the seven front-matter lines, a blank line, the embed line, a blank line and the summary |
| `NewPost.PostEndsWithNewline` | tools/new-post/new_post.py:286-287 | the post text ends with a newline |
| `NewPost.HeadHasNoHeading` | tools/new-post/new_post.py:256-268 | none of the first ten lines is a markdown heading |
| `NewPost.ItemLinesStartWithDash` | tools/new-post/new_post.py:275-284 | every chapter and link item line starts with `-` |
| `NewPost.SectionsPresentIffItems` | tools/new-post/new_post.py:270-284 | the `## Chapters` line is present exactly when there are chapters, and `## Links & Resources` exactly when there are links |
| `PostFormat.EscapeQuotes` | tools/new-post/new_post.py:249-250 | after escaping, every `"` is preceded by a backslash |
| `PostFormat.EscapeQuotesRoundTrip` | tools/port_builder_articles.py:240-241 | `UnescapeQuotes` of the escaped text gives back the original |
| `PostFormat.FrontMatterShape` | tools/port_builder_articles.py:247-254 | seven lines between `---` delimiters; the title and description lines hold no unescaped `"` and read back under `UnescapeQuotes` (not a YAML reader) as the given text; the date line carries the given date |
| `PortArticles.DateString` | tools/port_builder_articles.py:239 | no date gives `"2024-01-01"`; a date gives ten characters `YYYY-MM-DD` whose digit fields read back as its year, month and day |
| `PortArticles.StripBuilderSuffix` | tools/port_builder_articles.py:56 | the result is a prefix of the title; a title not ending in `AWS Builder Center` is unchanged, and so is one whose text before the suffix, trailing whitespace dropped, does not end in `|` |
| `PortArticles.StripBuilderSuffixRemoves` | tools/port_builder_articles.py:56 | `x | AWS Builder Center`, with any whitespace after the bar, becomes `x` without its trailing whitespace |
| `PortArticles.FirstMatchIndex` | tools/port_builder_articles.py:76-80 | the index of the first start marker that matched: all before it failed, and it matched |
| `PortArticles.FindBodyStart` | tools/port_builder_articles.py:75-84 | the loop with `break` and the title fallback find the same start as the first matching marker, else one past the title |
| `PortArticles.EarliestStart` | tools/port_builder_articles.py:94-98 | the end is at most `len(raw)` and at most every end-marker match, and it is `len(raw)` or one of the matches |
| `PortArticles.FindBodyEnd` | tools/port_builder_articles.py:93-98 | the running minimum over the end markers is the earliest marker start, or `len(raw)` |
| `PortArticles.ExtractArticle` | tools/port_builder_articles.py:50-110 | fails exactly when a `Published` date parses in neither format; otherwise the date it passes on is valid, the title is the trimmed heading without the suffix (`""` without a heading), the date is the parsed one or none, the body is the trimmed window from the first start marker (else after the title block) to the earliest end marker, and the tags are those found |
| `PortArticles.NoStartNoBody` | tools/port_builder_articles.py:81-100 | without a start marker and without a title there is no start and the body is `""` |
| `PortArticles.BodyIsTrimmedWindow` | tools/port_builder_articles.py:100 | with a positive start the body is the trimmed slice to the end, and `""` when the end comes first |
| `PortArticles.NavigationFilteredMembership` | tools/port_builder_articles.py:141-144 | a line survives the first pass exactly when it is an input line whose trimmed text matches no skip pattern |
| `PortArticles.NavigationFilteredClean` | tools/port_builder_articles.py:141-144 | no surviving line matches a skip pattern once trimmed |
| `PortArticles.NavigationFilteredOrder` | tools/port_builder_articles.py:141-144 | the lines kept from `a + b` are those kept from `a`, then those from `b` |
| `PortArticles.FilterNavigation` | tools/port_builder_articles.py:120-144 | the loop keeps exactly the filtered lines, in order |
| `PortArticles.NoBlankRunIsNoTriple` | tools/port_builder_articles.py:148-149 | having no run of three newlines is the same as not containing `"\n\n\n"` |
| `PortArticles.CollapseBlankRuns` | tools/port_builder_articles.py:149 | the collapse never makes the text longer |
| `PortArticles.CollapseBlankRunsRun` | tools/port_builder_articles.py:149 | a run of three or more newlines becomes exactly two, and the rest is processed behind it |
| `PortArticles.CollapseBlankRunsKeep` | tools/port_builder_articles.py:149 | text in which no run of three newlines starts is copied as it is, and the collapse goes on behind it, so a run anywhere becomes exactly two newlines |
| `PortArticles.CollapseBlankRunsUnchanged` | tools/port_builder_articles.py:149 | text without three newlines in a row is unchanged |
| `PortArticles.CollapseBlankRunsNoRun` | tools/port_builder_articles.py:149 | after the collapse no three newlines are adjacent |
| `PortArticles.CollapseKeepsText` | tools/port_builder_articles.py:149 | the collapse removes newlines only: the text without its newlines is unchanged |
| `PortArticles.CollapsedBodyHasNoBlankRun` | tools/port_builder_articles.py:146-149 | right after the collapse step the body contains no `"\n\n\n"` |
| `PortArticles.DigitRun` | tools/port_builder_articles.py:152 | the length of the leading digit run: all digits up to it, and no digit at it |
| `PortArticles.StripImageNumbers` | tools/port_builder_articles.py:152 | the result is never longer than the input |
| `PortArticles.StripImageNumberPrefix` | tools/port_builder_articles.py:152 | `![Image N: rest` becomes `![` followed by the cleaned rest |
| `PortArticles.StripImageNumbersKeeps` | tools/port_builder_articles.py:152 | text where no `![Image N: ` match starts is copied as it is, and the cleanup goes on behind it |
| `PortArticles.StripImageNumbersUnchanged` | tools/port_builder_articles.py:152 | text without `![Image ` is unchanged |
| `PortArticles.ImageUrl` | tools/port_builder_articles.py:159-161 | a URL is found only in a line starting with `![`, and it contains no `)` |
| `PortArticles.ImageUrlIsImage` | tools/port_builder_articles.py:159-161 | a URL is found only when the line is `![alt](url)…` with `url` the found URL and no `](` in `alt` |
| `PortArticles.ImageUrlOfImage` | tools/port_builder_articles.py:159-161 | a rendered `![alt](url)` line reads back as its URL |
| `PortArticles.CleanedBodyImages` | tools/port_builder_articles.py:156-166 | among image lines each URL is kept at most once; the result is exactly the first occurrences in order; every non-image line is kept; no URL is lost |
| `PortArticles.CleanBody` | tools/port_builder_articles.py:113-168 | the two loops and the text passes return the cleaned body: navigation filtered, trimmed, collapsed, alt prefixes removed and repeated images dropped |
| `PortArticles.ParseMetadata` | tools/port_builder_articles.py:212-222 | the description is the trimmed section or else the article title; categories are the parsed array or else `["AI", "Tutorials"]`; tags are the parsed array or else `["amazon-bedrock"]` |
| `PortArticles.CollapseHyphens` | tools/port_builder_articles.py:231 | the collapse never makes the slug longer |
| `PortArticles.CollapseHyphensRun` | tools/port_builder_articles.py:231 | a run of hyphens of any length becomes exactly one `-`, and the rest is processed behind it |
| `PortArticles.CollapseHyphensKeep` | tools/port_builder_articles.py:231 | a character other than `-` is copied and the collapse goes on behind it, so a hyphen run anywhere becomes one `-` |
| `PortArticles.CollapseHyphensSingle` | tools/port_builder_articles.py:231 | after collapsing hyphen runs no two hyphens are adjacent |
| `PortArticles.CollapseHyphensUnchanged` | tools/port_builder_articles.py:231 | text without a doubled hyphen is unchanged |
| `PortArticles.CollapseHyphensLast` | tools/port_builder_articles.py:231 | a last character other than `-` stays last |
| `PortArticles.CollapseHyphensSlugChars` | tools/port_builder_articles.py:231 | the collapse keeps the `[a-z0-9-]` alphabet |
| `PortArticles.CutAtHyphenKeepsSlug` | tools/port_builder_articles.py:232-233 | cutting a slug at its last hyphen within the limit gives a slug again |
| `PortArticles.Slugify` | tools/port_builder_articles.py:225-234 | the slug is never longer than `max_length` |
| `PortArticles.SlugifyIsSlug` | tools/port_builder_articles.py:225-234 | the slug is empty or `[a-z0-9]` runs joined by single hyphens, with no leading, trailing or doubled `-`, and it fits `max_length` |
| `PortArticles.RespacedSlug` | tools/port_builder_articles.py:228-229 | a slug with its hyphens turned into spaces turns back into the same slug |
| `PortArticles.SlugifyFixesSlugs` | tools/port_builder_articles.py:225-234 | a slug that fits `max_length` is its own slug |
| `PortArticles.SlugifyIdempotent` | tools/port_builder_articles.py:225-234 | slugifying twice gives the same result as slugifying once |
| `PortArticles.WritePost` | tools/port_builder_articles.py:237-264 | the file name is `<date>-<slug>.md` and the text is the front matter, the origin note and the cleaned body joined by newlines |
| `PortArticles.PostFileNameShape` | tools/port_builder_articles.py:239-261 | the name is the ten-character date, `-`, a single-hyphen slug of at most 60 characters and `.md`; without a date it starts with `2024-01-01` |
| `PortArticles.ArticlePostText` | tools/port_builder_articles.py:247-258 | the text is the front matter, a blank line, the origin note linking the source URL, a blank line, the cleaned body and a final newline |
| `PortArticles.ArticlePostEnds` | tools/port_builder_articles.py:247-258 | the text opens with `---` and a newline and ends with the cleaned body and a newline |
| `Dedup.KeepFirstLoop` | tools/port_builder_articles.py:156-166 | the `seen`-set loop returns the keep-first de-duplication of its input |
| `Dedup.KeepFirstIsFirstOccurrences` | tools/new-post/new_post.py:65-67 | keeping the first element per key equals the independent definition: the elements that are unkeyed or first with their key |
| `Dedup.KeepFirstDistinct` | tools/port_builder_articles.py:162-164 | no two kept elements share a key |
| `Dedup.KeepFirstKeys` | tools/port_builder_articles.py:162-164 | the kept elements carry exactly the keys of the input |
| `Dedup.KeepFirstKeepsUnkeyed` | tools/port_builder_articles.py:160-165 | elements without a key are never dropped and keep their order |
| `Strings.SplitJoinsBack` | tools/port_builder_articles.py:117 | joining the pieces of `split` with the separator gives the text back |
| `Strings.SplitPiecesLackSeparator` | tools/port_builder_articles.py:117 | no piece of `split` contains the separator |
| `Strings.SplitLines` | tools/new-post/new_post.py:53 | no line that `splitlines` returns contains a line break |
| `Strings.SplitLinesJoin` | tools/new-post/new_post.py:53 | lines without breaks, the last one non-empty, joined by `\n` split back into the same lines |
| `Strings.TwoDigitsRoundTrip` | tools/new-post/new_post.py:191 | formatting the value of one or two digits with `:02d` adds a zero to one digit and keeps two digits |

## Left out

- Network and SDK calls are not modelled. These are `fetch_metadata` (yt-dlp), `get_transcript`, `download_thumbnail`, `call_bedrock`, the Bedrock call in `generate_metadata` and `fetch_articles` (Tavily). They are foreign services with no behaviour that can be stated here.
- `main` of both scripts is not modelled: argument checks, printing, directory creation, writing files. `date.today()` is the `today` parameter of `UploadDate`. The empty-title skip at tools/port_builder_articles.py:284-286 is outside the model; `ExtractArticle` returns an empty title in that case.
- The prompt texts sent to the language model are not modelled.
- `urlparse` and `parse_qs` are not modelled. Their result is the `ParsedUrl` record.
- `json.loads` is not modelled. Its result is an optional list of strings. An array that does not parse, or that holds something other than strings, raises in the scripts and is outside the model.
- `datetime.strptime` is not modelled. Its outcome is the `DateMatch` input, with `UnparsableDate` for a date that neither format accepts. `ExtractArticle` requires a parsed date to be a valid calendar-range date, as `strptime` only ever returns one, and passes that on to its result, which `WritePost` requires.
- The regular-expression engine's searches are not modelled. This covers the title heading, `Published`, the start and end markers, the reply sections, `[# tag]` and the chapter and link matches. They are inputs of the model: captured text, or the position of the first match.
- Characters are ASCII. Python's `lower`, `strip`, `\s`, `\d` and `splitlines` also act on Unicode letters, spaces and line breaks. The model treats only the ASCII ones.
- `ExtractVideoId` requires a well-formed query map. `parse_qs` never produces a parameter with no values.
- `ExtractChapters` requires each timestamp to have the digit shape the chapter pattern guarantees.
- `DateString` zero-pads years below 1000 to four digits. For such years `strftime("%Y")` depends on the platform.
- `SectionsPresentIffItems` requires that the summary is not itself one of the two headings. Otherwise the heading line appears without the section.
- `StripBuilderSuffix` covers the `$` anchor at the very end of the title only. The title is trimmed before the substitution, so it has no trailing newline for `$` to skip.
- `NewPost.Slugify` is not idempotent after a cut. `SlugifyCutLeavesHyphen` shows that a cut inside `--` leaves a trailing hyphen. Idempotence is proved only when no cut happens.
- The categories list from the reply can be empty (`[]`). No contract claims it is non-empty.
- `CleanedBody` promises no blank-run bound. Dropping a repeated image line between two blank lines can bring back three newlines in a row, so only the text right after the collapse step is proved free of them.
- `FrontMatterShape` states that the title and description read back under `UnescapeQuotes`, not under a YAML parser. The scripts escape `"` but not `\`. A title that already holds a backslash sequence such as `\n` or `\\` is therefore read differently by YAML's double-quoted scalar rules. YAML parsing is not part of this model.
- `EscapeQuotesRoundTrip` is stated against `UnescapeQuotes`, the inverse of the escaping alone. It is not stated against a YAML reader, for the reason given on the line above.
