/**
 * The list comprehensions the scripts build line by line: each input item
 * contributes zero or more output items, in input order.
 */
module Pipeline {
  /** The items contributed by each element of `s`, concatenated in order. */
  function Collect<T, U>(s: seq<T>, f: T -> seq<U>): seq<U> {
    if s == [] then [] else Collect(s[..|s| - 1], f) + f(s[|s| - 1])
  }

  lemma CollectAppend<T, U>(s: seq<T>, x: T, f: T -> seq<U>)
    ensures Collect(s + [x], f) == Collect(s, f) + f(x)
  {
    assert (s + [x])[..|s|] == s;
  }

  /** One more element of `s` adds what that element contributes. */
  lemma CollectPrefix<T, U>(s: seq<T>, i: nat, f: T -> seq<U>)
    requires i < |s|
    ensures Collect(s[..i + 1], f) == Collect(s[..i], f) + f(s[i])
  {
    assert s[..i + 1][..i] == s[..i];
  }

  lemma {:induction false} CollectConcat<T, U>(a: seq<T>, b: seq<T>, f: T -> seq<U>)
    ensures Collect(a + b, f) == Collect(a, f) + Collect(b, f)
    decreases |b|
  {
    if b == [] {
      assert a + b == a;
    } else {
      assert (a + b)[..|a + b| - 1] == a + b[..|b| - 1];
      CollectConcat(a, b[..|b| - 1], f);
    }
  }

  predicate Contributes<T, U(==)>(f: T -> seq<U>, x: T, u: U) {
    u in f(x)
  }

  /** An output item comes from some input element, and everything any element contributes is output. */
  lemma {:induction false} CollectMembership<T, U>(s: seq<T>, f: T -> seq<U>, u: U)
    ensures u in Collect(s, f) <==> exists j :: 0 <= j < |s| && Contributes(f, s[j], u)
    decreases |s|
  {
    if s != [] {
      var init, x := s[..|s| - 1], s[|s| - 1];
      CollectMembership(init, f, u);
      assert u in Collect(s, f) <==> u in Collect(init, f) || Contributes(f, x, u);
      if exists j :: 0 <= j < |init| && Contributes(f, init[j], u) {
        var j :| 0 <= j < |init| && Contributes(f, init[j], u);
        assert s[j] == init[j];
      }
      if exists j :: 0 <= j < |s| && Contributes(f, s[j], u) {
        var j :| 0 <= j < |s| && Contributes(f, s[j], u);
        if j < |init| { assert init[j] == s[j]; }
      }
    }
  }

  /** An element that contributes nothing can be dropped from the input. */
  lemma SilentElement<T, U>(before: seq<T>, x: T, after: seq<T>, f: T -> seq<U>)
    requires f(x) == []
    ensures Collect(before + [x] + after, f) == Collect(before + after, f)
  {
    CollectConcat(before + [x], after, f);
    CollectAppend(before, x, f);
    CollectConcat(before, after, f);
  }
}
