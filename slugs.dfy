/**
 * The steps the two `slugify` functions share: whitespace runs to hyphens,
 * hyphens stripped from both ends, and the cut at the last hyphen that
 * keeps a long slug within its maximum length.
 */
module Slugs {
  import opened Strings

  predicate IsHyphen(c: char) { c == '-' }

  /** The characters a slug is made of: `[a-z0-9-]`. */
  predicate SlugChars(s: String) {
    forall i :: 0 <= i < |s| ==> IsLowerAlnum(s[i]) || s[i] == '-'
  }

  /** `re.sub(r"\s+", "-", s)`: each run of whitespace becomes a single hyphen. */
  function ReplaceSpaceRuns(s: String): String
    decreases |s|
  {
    if s == [] then []
    else if IsSpace(s[0]) then "-" + ReplaceSpaceRuns(DropWhile(s[1..], IsSpace))
    else [s[0]] + ReplaceSpaceRuns(s[1..])
  }

  /** No whitespace is left, every character is a hyphen or comes from the input. */
  lemma {:induction false} ReplaceSpaceRunsChars(s: String)
    ensures forall c :: c in ReplaceSpaceRuns(s) ==> !IsSpace(c) && (c == '-' || c in s)
    decreases |s|
  {
    if s != [] {
      var k, head := ReplaceSpaceRunsStep(s);
      ReplaceSpaceRunsChars(s[k..]);
      SuffixChars(s, k);
      ConsChars(head, ReplaceSpaceRuns(s[k..]), s[k..], s);
    }
  }

  /** One step of the replacement: a first character, then the rest of a suffix. */
  lemma ReplaceSpaceRunsStep(s: String) returns (k: nat, head: char)
    requires s != []
    ensures 1 <= k <= |s| && ReplaceSpaceRuns(s) == [head] + ReplaceSpaceRuns(s[k..])
    ensures !IsSpace(head) && (head == '-' || head == s[0])
  {
    if IsSpace(s[0]) {
      var rest := DropWhile(s[1..], IsSpace);
      k, head := |s| - |rest|, '-';
      assert s[k..] == rest by {
        assert s[1..][|s[1..]| - |rest|..] == s[k..];
      }
    } else {
      k, head := 1, s[0];
    }
  }

  lemma ConsChars(head: char, tail: String, rest: String, s: String)
    requires !IsSpace(head) && (head == '-' || head in s)
    requires forall c :: c in tail ==> !IsSpace(c) && (c == '-' || c in rest)
    requires forall c :: c in rest ==> c in s
    ensures forall c :: c in [head] + tail ==> !IsSpace(c) && (c == '-' || c in s)
  {
  }

  lemma SuffixChars(s: String, k: nat)
    requires k <= |s|
    ensures forall c :: c in s[k..] ==> c in s
  {
    forall c | c in s[k..] ensures c in s {
      var j :| 0 <= j < |s| - k && s[k..][j] == c;
      assert s[k + j] == c;
    }
  }

  /** Text without whitespace is unchanged. */
  lemma {:induction false} ReplaceSpaceRunsUnchanged(s: String)
    requires forall i :: 0 <= i < |s| ==> !IsSpace(s[i])
    ensures ReplaceSpaceRuns(s) == s
    decreases |s|
  {
    if s != [] {
      ReplaceSpaceRunsUnchanged(s[1..]);
    }
  }

  /** A single space before a non-space becomes one hyphen. */
  lemma ReplaceSpaceRunsSpace(c: char, rest: String)
    requires IsSpace(c) && (rest == [] || !IsSpace(rest[0]))
    ensures ReplaceSpaceRuns([c] + rest) == "-" + ReplaceSpaceRuns(rest)
  {
    assert ([c] + rest)[1..] == rest;
  }

  /** A whole run of whitespace, however long, becomes a single hyphen. */
  lemma ReplaceSpaceRunsRun(ws: String, rest: String)
    requires ws != [] && forall i :: 0 <= i < |ws| ==> IsSpace(ws[i])
    requires rest == [] || !IsSpace(rest[0])
    ensures ReplaceSpaceRuns(ws + rest) == "-" + ReplaceSpaceRuns(rest)
  {
    DropWhileRun(ws, rest, IsSpace);
    var s := ws + rest;
    assert ReplaceSpaceRuns(s) == "-" + ReplaceSpaceRuns(DropWhile(s[1..], IsSpace));
  }

  /** A character that is not whitespace is kept. */
  lemma ReplaceSpaceRunsKeep(c: char, rest: String)
    requires !IsSpace(c)
    ensures ReplaceSpaceRuns([c] + rest) == [c] + ReplaceSpaceRuns(rest)
  {
    assert ([c] + rest)[1..] == rest;
  }

  /** Slug characters contain no whitespace, so the whitespace step leaves them alone. */
  lemma SlugCharsHaveNoSpace(s: String)
    requires SlugChars(s)
    ensures ReplaceSpaceRuns(s) == s
  {
    assert forall i :: 0 <= i < |s| ==> !IsSpace(s[i]);
    ReplaceSpaceRunsUnchanged(s);
  }

  /** `s.strip("-")`. */
  function StripHyphens(s: String): (r: String)
    ensures r == [] || (r[0] != '-' && r[|r| - 1] != '-')
    ensures forall i :: 0 <= i < |r| ==> r[i] in s
    ensures |r| <= |s|
  {
    var r := StripWhere(s, IsHyphen);
    SliceChars(s, StripStart(s, IsHyphen), r);
    r
  }

  /** `s[:max_length].rsplit("-", 1)[0]` when `s` is longer than `max_length`, else `s`. */
  function CutAtHyphen(s: String, maxLength: nat): (r: String)
    ensures |r| <= |s| && r == s[..|r|]
    ensures |s| <= maxLength ==> r == s
    ensures |s| > maxLength ==> |r| <= maxLength
    ensures |s| > maxLength && '-' in s[..maxLength] ==> |r| < maxLength && s[|r|] == '-'
    ensures |s| > maxLength && '-' !in s[..maxLength] ==> r == s[..maxLength]
    ensures |s| > maxLength && '-' in s[..maxLength] ==> '-' !in s[|r| + 1..maxLength]
  {
    if |s| <= maxLength then s
    else
      var head := s[..maxLength];
      if '-' in head then
        var i := LastIndexOf(head, '-');
        assert s[i + 1..maxLength] == head[i + 1..];
        head[..i]
      else head
  }

  /** Cutting keeps the slug alphabet and never exposes a leading hyphen. */
  lemma CutAtHyphenKeepsShape(s: String, maxLength: nat)
    requires SlugChars(s) && (s == [] || s[0] != '-')
    ensures var r := CutAtHyphen(s, maxLength);
      SlugChars(r) && (|r| <= maxLength || r == s) && (r == [] || r[0] != '-')
  {
    var r := CutAtHyphen(s, maxLength);
    assert forall i :: 0 <= i < |r| ==> r[i] == s[i];
  }
}
