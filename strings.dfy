/**
 * The part of Python's `str` that the two scripts rely on, over ASCII:
 * character classes, `lower`, `strip`, `startswith`, `in`, `split`,
 * `splitlines`, `join`, slicing, `int` on digit strings and zero-padded
 * decimal formatting.
 */
module Strings {
  import opened Wrappers

  type String = seq<char>

  // ---------------------------------------------------------------------------
  // Character classes

  /** `str.isspace()` and the regular-expression class `\s`, restricted to ASCII. */
  predicate IsSpace(c: char) {
    c == ' ' || c == '\t' || c == '\n' || c == '\r' || c == '\U{0B}' || c == '\U{0C}'
    || ('\U{1C}' <= c <= '\U{1F}')
  }

  /** The characters at which `str.splitlines()` ends a line. */
  predicate IsLineBreak(c: char) {
    c == '\n' || c == '\r' || c == '\U{0B}' || c == '\U{0C}'
    || c == '\U{1C}' || c == '\U{1D}' || c == '\U{1E}'
    || c == '\U{85}' || c == '\U{2028}' || c == '\U{2029}'
  }

  predicate IsDigit(c: char) { '0' <= c <= '9' }

  /** The class `[a-z0-9]`. */
  predicate IsLowerAlnum(c: char) { 'a' <= c <= 'z' || IsDigit(c) }

  predicate AllDigits(s: String) { forall i :: 0 <= i < |s| ==> IsDigit(s[i]) }

  // ---------------------------------------------------------------------------
  // Case and stripping

  /** `str.lower()` on one character: ASCII capitals move to lower case. */
  function LowerChar(c: char): (d: char)
    ensures 'A' <= c <= 'Z' ==> 'a' <= d <= 'z'
    ensures !('A' <= c <= 'Z') ==> d == c
  {
    if 'A' <= c <= 'Z' then (c as int + 32) as char else c
  }

  function Lower(s: String): (r: String)
    ensures |r| == |s|
    ensures forall i :: 0 <= i < |s| ==> r[i] == LowerChar(s[i])
  {
    seq(|s|, i requires 0 <= i < |s| => LowerChar(s[i]))
  }

  /** Text without capitals is its own lower case. */
  lemma LowerUnchanged(s: String)
    requires forall i :: 0 <= i < |s| ==> !('A' <= s[i] <= 'Z')
    ensures Lower(s) == s
  {
  }

  /** Drops the longest prefix whose characters satisfy `p` (`str.lstrip`). */
  function DropWhile(s: String, p: char -> bool): (r: String)
    ensures |r| <= |s| && r == s[|s| - |r|..]
    ensures forall i :: 0 <= i < |s| - |r| ==> p(s[i])
    ensures r == [] || !p(r[0])
  {
    if |s| > 0 && p(s[0]) then
      var r := DropWhile(s[1..], p);
      assert s[1..][|s| - 1 - |r|..] == s[|s| - |r|..];
      assert forall i :: 1 <= i < |s| - |r| ==> s[i] == s[1..][i - 1];
      r
    else s
  }

  /** Drops the longest suffix whose characters satisfy `p` (`str.rstrip`). */
  function DropWhileEnd(s: String, p: char -> bool): (r: String)
    ensures |r| <= |s| && r == s[..|r|]
    ensures forall i :: |r| <= i < |s| ==> p(s[i])
    ensures r == [] || !p(r[|r| - 1])
  {
    if |s| > 0 && p(s[|s| - 1]) then DropWhileEnd(s[..|s| - 1], p) else s
  }

  /** A tail of `p` characters after a character that is not one is exactly what `DropWhileEnd` drops. */
  lemma {:induction false} DropWhileEndAppend(a: String, b: String, p: char -> bool)
    requires a == [] || !p(a[|a| - 1])
    requires forall i :: 0 <= i < |b| ==> p(b[i])
    ensures DropWhileEnd(a + b, p) == a
    decreases |b|
  {
    if b == [] {
      assert a + b == a;
    } else {
      assert (a + b)[..|a + b| - 1] == a + b[..|b| - 1];
      DropWhileEndAppend(a, b[..|b| - 1], p);
    }
  }

  /** A leading run of `p` characters before one that is not `p` is exactly what `DropWhile` drops. */
  lemma {:induction false} DropWhilePrefix(a: String, b: String, p: char -> bool)
    requires forall i :: 0 <= i < |a| ==> p(a[i])
    requires b == [] || !p(b[0])
    ensures DropWhile(a + b, p) == b
    decreases |a|
  {
    if a == [] {
      assert a + b == b;
    } else {
      assert (a + b)[1..] == a[1..] + b;
      DropWhilePrefix(a[1..], b, p);
    }
  }

  /** Putting the first element back in front of the rest of `a` gives `a`. */
  lemma ConsAppend(a: String, r: String)
    requires a != []
    ensures [a[0]] + (a[1..] + r) == a + r
  {
    assert [a[0]] + a[1..] == a;
  }

  /** After the first character of a non-empty run of `p` characters, the rest of the run is dropped. */
  lemma DropWhileRun(a: String, b: String, p: char -> bool)
    requires a != [] && forall i :: 0 <= i < |a| ==> p(a[i])
    requires b == [] || !p(b[0])
    ensures a + b != [] && p((a + b)[0]) && DropWhile((a + b)[1..], p) == b
  {
    var tail := a[1..];
    assert (a + b)[0] == a[0] && (a + b)[1..] == tail + b;
    assert DropWhile(tail + b, p) == b by {
      forall i | 0 <= i < |tail| ensures p(tail[i]) {
        assert tail[i] == a[i + 1];
      }
      DropWhilePrefix(tail, b, p);
    }
  }

  /** How many characters `StripWhere(s, p)` removes from the front of `s`. */
  function StripStart(s: String, p: char -> bool): nat {
    |s| - |DropWhile(s, p)|
  }

  /** Both ends of `s` lose every character satisfying `p` (`str.strip(chars)`). */
  function StripWhere(s: String, p: char -> bool): (r: String)
    ensures r == [] || (!p(r[0]) && !p(r[|r| - 1]))
    ensures StripStart(s, p) + |r| <= |s| && r == s[StripStart(s, p)..StripStart(s, p) + |r|]
    ensures forall k :: 0 <= k < StripStart(s, p) ==> p(s[k])
    ensures forall k :: StripStart(s, p) + |r| <= k < |s| ==> p(s[k])
  {
    var t := DropWhile(s, p);
    var r := DropWhileEnd(t, p);
    assert r == s[|s| - |t|..|s| - |t| + |r|];
    r
  }

  /** Every character of a slice of `s` occurs in `s`. */
  lemma SliceChars(s: String, a: nat, r: String)
    requires a + |r| <= |s| && r == s[a..a + |r|]
    ensures forall i :: 0 <= i < |r| ==> r[i] in s
  {
    assert forall i :: 0 <= i < |r| ==> r[i] == s[a + i];
  }

  /** `str.strip()`: surrounding whitespace removed. */
  function Strip(s: String): String { StripWhere(s, IsSpace) }

  lemma StripUnchanged(s: String, p: char -> bool)
    requires s == [] || (!p(s[0]) && !p(s[|s| - 1]))
    ensures StripWhere(s, p) == s
  {
  }

  // ---------------------------------------------------------------------------
  // Searching

  predicate StartsWith(s: String, p: String) { |p| <= |s| && s[..|p|] == p }

  predicate EndsWith(s: String, p: String) { |p| <= |s| && s[|s| - |p|..] == p }

  /** Python's `p in s` for strings. */
  predicate Contains(s: String, p: String) {
    exists i :: 0 <= i <= |s| && OccursAt(s, p, i)
  }

  /** `p` occurs in `s` starting at position `i`. */
  predicate OccursAt(s: String, p: String, i: nat) {
    i + |p| <= |s| && s[i..i + |p|] == p
  }

  /** `str.removeprefix(p)`. */
  function RemovePrefix(s: String, p: String): (r: String)
    ensures StartsWith(s, p) ==> s == p + r
    ensures !StartsWith(s, p) ==> r == s
  {
    if StartsWith(s, p) then s[|p|..] else s
  }

  /** The position of the first `c` in `s` (`str.index`). */
  function IndexOf(s: String, c: char): (i: nat)
    requires c in s
    ensures i < |s| && s[i] == c && c !in s[..i]
  {
    if s[0] == c then 0 else 1 + IndexOf(s[1..], c)
  }

  /** The position of the last `c` in `s` (`str.rindex`). */
  function LastIndexOf(s: String, c: char): (i: nat)
    requires c in s
    ensures i < |s| && s[i] == c && c !in s[i + 1..]
  {
    if s[|s| - 1] == c then |s| - 1 else LastIndexOf(s[..|s| - 1], c)
  }

  /** The position of the first occurrence of `p` in `s` (`str.find`), if any. */
  function FindSub(s: String, p: String): (r: Option<nat>)
    ensures r.Some? ==> OccursAt(s, p, r.value) && forall j :: 0 <= j < r.value ==> !OccursAt(s, p, j)
    ensures r.None? ==> forall j :: 0 <= j <= |s| ==> !OccursAt(s, p, j)
    decreases |s|
  {
    if OccursAt(s, p, 0) then Some(0)
    else if s == [] then None
    else
      OccursAtTail(s, p);
      match FindSub(s[1..], p)
      case Some(j) => Some(j + 1)
      case None => None
  }

  /** The text before the first occurrence of `p` does not contain `p`. */
  lemma FindSubBefore(s: String, p: String)
    requires p != [] && FindSub(s, p).Some?
    ensures !Contains(s[..FindSub(s, p).value], p)
  {
    var j := FindSub(s, p).value;
    var a := s[..j];
    forall i | 0 <= i <= |a| ensures !OccursAt(a, p, i) {
      if i + |p| <= |a| {
        assert !OccursAt(s, p, i);
        assert a[i..i + |p|] == s[i..i + |p|];
      }
    }
  }

  /** The first occurrence is where `p` occurs with no occurrence before it. */
  lemma FindSubAt(s: String, p: String, k: nat)
    requires OccursAt(s, p, k) && forall j :: 0 <= j < k ==> !OccursAt(s, p, j)
    ensures FindSub(s, p) == Some(k)
  {
    var r := FindSub(s, p);
    assert r.Some?;
  }

  /** A two-character pattern with distinct characters is first found right after text that lacks it. */
  lemma FindSubAfter(a: String, p: String, b: String)
    requires |p| == 2 && p[0] != p[1] && !Contains(a, p)
    ensures FindSub(a + p + b, p) == Some(|a|)
  {
    var s := a + p + b;
    assert s[|a|..|a| + 2] == p;
    forall j | 0 <= j < |a| ensures !OccursAt(s, p, j) {
      if j + 2 <= |a| {
        assert s[j..j + 2] == a[j..j + 2];
        assert !OccursAt(a, p, j);
      } else {
        assert s[j + 1] == p[0];
      }
    }
    FindSubAt(s, p, |a|);
  }

  /** The first `c` of `a + [c] + b` is the one after `a` when `a` has none. */
  lemma IndexOfAfter(a: String, c: char, b: String)
    requires c !in a
    ensures IndexOf(a + [c] + b, c) == |a| && (a + [c] + b)[..|a|] == a
  {
    var s := a + [c] + b;
    assert s[..|a|] == a && s[|a|] == c;
    assert c in s;
  }

  lemma OccursAtTail(s: String, p: String)
    requires s != []
    ensures forall k: nat :: OccursAt(s, p, k + 1) <==> OccursAt(s[1..], p, k)
    ensures forall k: nat :: 1 <= k ==> (OccursAt(s, p, k) <==> OccursAt(s[1..], p, k - 1))
  {
    forall k: nat ensures OccursAt(s, p, k + 1) <==> OccursAt(s[1..], p, k) {
      OccursAtShift(s, p, k);
    }
    forall k: nat | 1 <= k ensures OccursAt(s, p, k) <==> OccursAt(s[1..], p, k - 1) {
      OccursAtShift(s, p, k - 1);
    }
  }

  lemma OccursAtShift(s: String, p: String, k: nat)
    requires s != []
    ensures OccursAt(s, p, k + 1) <==> OccursAt(s[1..], p, k)
  {
    if k + 1 + |p| <= |s| {
      assert s[k + 1..k + 1 + |p|] == s[1..][k..k + |p|];
    }
  }

  /** Python's `s[i:j]` for non-negative `i` and `j`: both bounds are clamped. */
  function Slice(s: String, i: nat, j: nat): (r: String)
    ensures |r| <= |s|
    ensures i <= j <= |s| ==> r == s[i..j]
    ensures i >= |s| || j <= i ==> r == []
  {
    var lo := if i < |s| then i else |s|;
    var hi := if j < lo then lo else if j < |s| then j else |s|;
    s[lo..hi]
  }

  // ---------------------------------------------------------------------------
  // Joining and splitting

  /** `sep.join(parts)`. */
  function Join(sep: String, parts: seq<String>): String {
    if |parts| == 0 then []
    else if |parts| == 1 then parts[0]
    else parts[0] + sep + Join(sep, parts[1..])
  }

  lemma {:induction false} JoinAppend(sep: String, parts: seq<String>, x: String)
    requires |parts| > 0
    ensures Join(sep, parts + [x]) == Join(sep, parts) + sep + x
    decreases |parts|
  {
    if |parts| > 1 {
      assert (parts + [x])[1..] == parts[1..] + [x];
      JoinAppend(sep, parts[1..], x);
    }
  }

  lemma {:induction false} JoinConcat(sep: String, a: seq<String>, b: seq<String>)
    requires |a| > 0 && |b| > 0
    ensures Join(sep, a + b) == Join(sep, a) + sep + Join(sep, b)
    decreases |a|
  {
    if |a| == 1 {
      assert (a + b)[1..] == b;
    } else {
      assert (a + b)[1..] == a[1..] + b;
      JoinConcat(sep, a[1..], b);
    }
  }

  /** `s.split(c)` for a one-character separator `c`. */
  function Split(s: String, c: char): (r: seq<String>)
    ensures |r| >= 1
    decreases |s|
  {
    if c in s then
      var k := IndexOf(s, c);
      [s[..k]] + Split(s[k + 1..], c)
    else
      [s]
  }

  /** No piece of a split contains the separator. */
  lemma {:induction false} SplitPiecesLackSeparator(s: String, c: char)
    ensures forall i :: 0 <= i < |Split(s, c)| ==> c !in Split(s, c)[i]
    decreases |s|
  {
    if c in s {
      var k := IndexOf(s, c);
      SplitPiecesLackSeparator(s[k + 1..], c);
    }
  }

  /** Joining the pieces of a split with the separator gives back the text. */
  lemma {:induction false} SplitJoinsBack(s: String, c: char)
    ensures Join([c], Split(s, c)) == s
    decreases |s|
  {
    if c in s {
      var k := IndexOf(s, c);
      var rest := Split(s[k + 1..], c);
      SplitJoinsBack(s[k + 1..], c);
      assert ([s[..k]] + rest)[1..] == rest;
      assert s == s[..k] + [c] + s[k + 1..];
    }
  }

  /** Splitting text that was joined with `c` gives back the pieces. */
  lemma {:induction false} SplitJoin(parts: seq<String>, c: char)
    requires |parts| >= 1
    requires forall i :: 0 <= i < |parts| ==> c !in parts[i]
    ensures Split(Join([c], parts), c) == parts
    decreases |parts|
  {
    if |parts| > 1 {
      var s := Join([c], parts);
      var tail := Join([c], parts[1..]);
      assert s == parts[0] + [c] + tail;
      SplitAfter(parts[0], c, tail);
      SplitJoin(parts[1..], c);
      assert parts == [parts[0]] + parts[1..];
    }
  }

  /** The first piece of `a + [c] + b` is `a` when `a` holds no `c`. */
  lemma SplitAfter(a: String, c: char, b: String)
    requires c !in a
    ensures Split(a + [c] + b, c) == [a] + Split(b, c)
  {
    var s := a + [c] + b;
    assert s[..|a|] == a && s[|a|] == c;
    var k := IndexOf(s, c);
    assert k == |a|;
    assert s[k + 1..] == b;
  }

  /** At the first `c`, the split puts the text before it first and continues after it. */
  lemma SplitAtFirst(s: String, c: char, k: nat)
    requires k < |s| && s[k] == c && c !in s[..k]
    ensures Split(s, c) == [s[..k]] + Split(s[k + 1..], c)
  {
    assert c in s;
    var j := IndexOf(s, c);
    assert j == k;
  }

  /** The first piece of `Split(s, c)` is the text before the first `c`. */
  lemma SplitHead(s: String, c: char)
    ensures StartsWith(s, Split(s, c)[0])
    ensures |Split(s, c)[0]| < |s| ==> s[|Split(s, c)[0]|] == c
  {
  }

  /** Where `str.splitlines()` ends the first line: the first line break, or `|s|`. */
  function BreakIndex(s: String): (i: nat)
    ensures i <= |s|
    ensures forall k :: 0 <= k < i ==> !IsLineBreak(s[k])
    ensures i < |s| ==> IsLineBreak(s[i])
  {
    if s == [] || IsLineBreak(s[0]) then 0 else 1 + BreakIndex(s[1..])
  }

  /**
   * `str.splitlines()`: lines end at any line break, `\r\n` counts as one
   * break, and a break at the very end does not open an empty last line.
   */
  function SplitLines(s: String): (r: seq<String>)
    ensures forall i, k :: 0 <= i < |r| && 0 <= k < |r[i]| ==> !IsLineBreak(r[i][k])
    decreases |s|
  {
    if s == [] then []
    else
      var k := BreakIndex(s);
      if k == |s| then [s]
      else
        var width := if s[k] == '\r' && k + 1 < |s| && s[k + 1] == '\n' then 2 else 1;
        [s[..k]] + SplitLines(s[k + width..])
  }

  /** Lines joined with `\n` split back into the same lines, unless the last one is empty. */
  lemma {:induction false} SplitLinesJoin(lines: seq<String>)
    requires |lines| >= 1 && lines[|lines| - 1] != []
    requires forall i, k :: 0 <= i < |lines| && 0 <= k < |lines[i]| ==> !IsLineBreak(lines[i][k])
    ensures SplitLines(Join("\n", lines)) == lines
    decreases |lines|
  {
    var s := Join("\n", lines);
    if |lines| == 1 {
      BreakIndexOf(lines[0], "");
      assert s == lines[0] + "";
    } else {
      var line, tail := lines[0], Join("\n", lines[1..]);
      assert s == line + ("\n" + tail);
      BreakIndexOf(line, "\n" + tail);
      SplitLinesJoin(lines[1..]);
      SplitLinesAtNewline(line, tail);
      assert lines == [line] + lines[1..];
    }
  }

  /** The first line break of `line + rest` is the first of `rest` when `line` has none. */
  lemma {:induction false} BreakIndexOf(line: String, rest: String)
    requires forall k :: 0 <= k < |line| ==> !IsLineBreak(line[k])
    requires rest == [] || IsLineBreak(rest[0])
    ensures BreakIndex(line + rest) == |line|
    decreases |line|
  {
    if line != [] {
      assert (line + rest)[1..] == line[1..] + rest;
      BreakIndexOf(line[1..], rest);
    }
  }

  /** A line ended by `\n` splits off as the first line; the rest is split on its own. */
  lemma SplitLinesAtNewline(line: String, tail: String)
    requires BreakIndex(line + ("\n" + tail)) == |line|
    ensures SplitLines(line + ("\n" + tail)) == [line] + SplitLines(tail)
  {
    var s := line + ("\n" + tail);
    assert s[|line|] == '\n';
    assert s[..|line|] == line && s[|line| + 1..] == tail;
  }

  // ---------------------------------------------------------------------------
  // Decimal numbers

  function DigitChar(d: nat): (c: char)
    requires d < 10
    ensures IsDigit(c)
  {
    ('0' as int + d) as char
  }

  function DigitValue(c: char): (d: nat)
    requires IsDigit(c)
    ensures d < 10 && DigitChar(d) == c
  {
    c as int - '0' as int
  }

  /** `int(s)` for a string of ASCII digits. */
  function ParseDigits(s: String): nat
    requires AllDigits(s)
  {
    if s == [] then 0 else 10 * ParseDigits(s[..|s| - 1]) + DigitValue(s[|s| - 1])
  }

  /** `str(n)`: the decimal digits of `n`, without leading zeros. */
  function Decimal(n: nat): (r: String)
    ensures 1 <= |r| && AllDigits(r)
    ensures ParseDigits(r) == n
    ensures n < 10 ==> |r| == 1
    ensures 10 <= n < 100 ==> |r| == 2
    ensures n < 10000 ==> |r| <= 4
  {
    if n < 10 then
      var r := [DigitChar(n)];
      assert r[..0] == [];
      r
    else
      var r := Decimal(n / 10) + [DigitChar(n % 10)];
      assert r[..|r| - 1] == Decimal(n / 10);
      r
  }

  function Zeros(k: nat): (r: String)
    ensures |r| == k && forall i :: 0 <= i < k ==> r[i] == '0'
  {
    seq(k, _ => '0')
  }

  /** Leading zeros do not change the value `int` reads. */
  lemma {:induction false} ParseLeadingZeros(k: nat, s: String)
    requires AllDigits(s)
    ensures AllDigits(Zeros(k) + s) && ParseDigits(Zeros(k) + s) == ParseDigits(s)
    decreases |s|
  {
    var t := Zeros(k) + s;
    assert AllDigits(t) by {
      forall i | 0 <= i < |t| ensures IsDigit(t[i]) {
        if i < k { assert t[i] == '0'; } else { assert t[i] == s[i - k]; }
      }
    }
    if s == [] {
      ParseZeros(k);
      assert t == Zeros(k);
    } else {
      assert t[..|t| - 1] == Zeros(k) + s[..|s| - 1];
      ParseLeadingZeros(k, s[..|s| - 1]);
    }
  }

  lemma {:induction false} ParseZeros(k: nat)
    ensures AllDigits(Zeros(k)) && ParseDigits(Zeros(k)) == 0
  {
    if k > 0 {
      assert Zeros(k)[..k - 1] == Zeros(k - 1);
      ParseZeros(k - 1);
    }
  }

  /** `f"{n:0{width}d}"`: `n` in decimal, padded on the left with zeros to `width`. */
  function ZeroPad(n: nat, width: nat): (r: String)
    ensures AllDigits(r) && ParseDigits(r) == n
    ensures |r| == if |Decimal(n)| < width then width else |Decimal(n)|
    ensures n < 100 && width == 2 ==> |r| == 2
    ensures n < 10000 && width == 4 ==> |r| == 4
  {
    var d := Decimal(n);
    var k := if |d| < width then width - |d| else 0;
    ParseLeadingZeros(k, d);
    Zeros(k) + d
  }

  /** Re-formatting a one- or two-digit field as two digits adds a leading zero or keeps it. */
  lemma TwoDigitsRoundTrip(p: String)
    requires AllDigits(p) && 1 <= |p| <= 2
    ensures ZeroPad(ParseDigits(p), 2) == if |p| == 1 then "0" + p else p
  {
    if |p| == 1 {
      OneDigit(p);
    } else {
      TwoDigits(p);
    }
  }

  lemma OneDigit(p: String)
    requires AllDigits(p) && |p| == 1
    ensures ParseDigits(p) == DigitValue(p[0]) && Decimal(ParseDigits(p)) == p
  {
    assert p[..0] == [];
  }

  lemma TwoDigits(p: String)
    requires AllDigits(p) && |p| == 2
    ensures ZeroPad(ParseDigits(p), 2) == p
  {
    OneDigit(p[..1]);
    assert ParseDigits(p) == 10 * DigitValue(p[0]) + DigitValue(p[1]);
    if p[0] == '0' {
      TwoDigitsLeadingZero(p);
    } else {
      TwoDigitsNoZero(p);
    }
  }

  lemma TwoDigitsLeadingZero(p: String)
    requires AllDigits(p) && |p| == 2 && p[0] == '0'
    requires ParseDigits(p) == DigitValue(p[1])
    ensures ZeroPad(ParseDigits(p), 2) == p
  {
    assert Decimal(DigitValue(p[1])) == [p[1]];
    assert Zeros(1) == "0";
  }

  lemma TwoDigitsNoZero(p: String)
    requires AllDigits(p) && |p| == 2 && p[0] != '0'
    requires ParseDigits(p) == 10 * DigitValue(p[0]) + DigitValue(p[1])
    ensures ZeroPad(ParseDigits(p), 2) == p
  {
    DecimalOfTwoDigits(DigitValue(p[0]), DigitValue(p[1]));
    assert p == [p[0], p[1]];
  }

  lemma DecimalOfTwoDigits(a: nat, b: nat)
    requires 1 <= a < 10 && b < 10
    ensures Decimal(10 * a + b) == [DigitChar(a), DigitChar(b)]
  {
    var n := 10 * a + b;
    DivModTen(a, b);
    DecimalStep(n);
    assert Decimal(a) == [DigitChar(a)];
    assert [DigitChar(a)] + [DigitChar(b)] == [DigitChar(a), DigitChar(b)];
  }

  /** One unfolding of `Decimal` for a number of two or more digits. */
  lemma DecimalStep(n: nat)
    requires n >= 10
    ensures Decimal(n) == Decimal(n / 10) + [DigitChar(n % 10)]
  {
  }

  lemma DivModTen(a: nat, b: nat)
    requires b < 10
    ensures (10 * a + b) / 10 == a && (10 * a + b) % 10 == b
  {
  }
}
