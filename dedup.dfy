/**
 * Keeping the first element for each key, the de-duplication both scripts
 * perform with a `seen` set inside a loop: an element whose key was already
 * seen is dropped, and elements without a key are always kept.
 */
module Dedup {
  import opened Wrappers

  function KeySet<K(==)>(k: Option<K>): set<K> {
    match k
    case Some(v) => {v}
    case None => {}
  }

  /** The keys carried by the elements of `s` (the `seen` set after visiting `s`). */
  function KeysOf<T, K(==)>(s: seq<T>, key: T -> Option<K>): set<K> {
    if s == [] then {} else KeysOf(s[..|s| - 1], key) + KeySet(key(s[|s| - 1]))
  }

  predicate HasKey<T, K(==)>(key: T -> Option<K>, x: T, k: K) {
    key(x) == Some(k)
  }

  lemma {:induction false} KeysOfMembership<T, K>(s: seq<T>, key: T -> Option<K>, k: K)
    ensures k in KeysOf(s, key) <==> exists i :: 0 <= i < |s| && HasKey(key, s[i], k)
    decreases |s|
  {
    if s != [] {
      var init := s[..|s| - 1];
      KeysOfMembership(init, key, k);
      if exists i :: 0 <= i < |init| && HasKey(key, init[i], k) {
        var i :| 0 <= i < |init| && HasKey(key, init[i], k);
        assert HasKey(key, s[i], k);
      }
      if exists i :: 0 <= i < |s| && HasKey(key, s[i], k) {
        var i :| 0 <= i < |s| && HasKey(key, s[i], k);
        if i < |init| { assert HasKey(key, init[i], k); }
      }
    }
  }

  lemma KeysOfAppend<T, K>(s: seq<T>, x: T, key: T -> Option<K>)
    ensures KeysOf(s + [x], key) == KeysOf(s, key) + KeySet(key(x))
  {
    assert (s + [x])[..|s|] == s;
  }

  /** Walks `s` from left to right, dropping each element whose key was seen before. */
  function KeepFirst<T, K(==)>(s: seq<T>, key: T -> Option<K>): seq<T> {
    if s == [] then []
    else
      var d := KeepFirst(s[..|s| - 1], key);
      var x := s[|s| - 1];
      if key(x).Some? && key(x).value in KeysOf(d, key) then d else d + [x]
  }

  /** One step of the loop: the next element is kept exactly when its key is new. */
  lemma KeepFirstAppend<T, K>(s: seq<T>, x: T, key: T -> Option<K>)
    ensures KeepFirst(s + [x], key) ==
      if key(x).Some? && key(x).value in KeysOf(KeepFirst(s, key), key) then KeepFirst(s, key)
      else KeepFirst(s, key) + [x]
  {
    assert (s + [x])[..|s|] == s;
  }

  /**
   * The loop itself: a `seen` set of keys, and each element kept unless it
   * has a key that is already in the set.
   */
  method KeepFirstLoop<T, K(==)>(s: seq<T>, key: T -> Option<K>) returns (kept: seq<T>)
    ensures kept == KeepFirst(s, key)
  {
    var seen: set<K> := {};
    kept := [];
    for i := 0 to |s|
      invariant kept == KeepFirst(s[..i], key)
      invariant seen == KeysOf(kept, key)
    {
      var x := s[i];
      assert s[..i + 1] == s[..i] + [x];
      KeepFirstAppend(s[..i], x, key);
      var k := key(x);
      if k.Some? {
        if k.value in seen {
          continue;
        }
        seen := seen + {k.value};
      }
      KeysOfAppend(kept, x, key);
      kept := kept + [x];
    }
    assert s[..|s|] == s;
  }

  /** `s[i]` has no key, or no element before it has the same key. */
  predicate IsFirstWithKey<T, K(==)>(s: seq<T>, i: nat, key: T -> Option<K>)
    requires i < |s|
  {
    key(s[i]).None? || forall j :: 0 <= j < i ==> key(s[j]) != key(s[i])
  }

  /**
   * An independent description of the result: the elements of `s`, in their
   * order, that have no key or are the first with their key.
   */
  function FirstOccurrences<T, K(==)>(s: seq<T>, key: T -> Option<K>): seq<T> {
    if s == [] then []
    else
      FirstOccurrences(s[..|s| - 1], key)
      + (if IsFirstWithKey(s, |s| - 1, key) then [s[|s| - 1]] else [])
  }

  /** De-duplication loses no key: the keys kept are exactly the keys of the input. */
  lemma {:induction false} KeepFirstKeys<T, K>(s: seq<T>, key: T -> Option<K>)
    ensures KeysOf(KeepFirst(s, key), key) == KeysOf(s, key)
    decreases |s|
  {
    if s != [] {
      var init, x := s[..|s| - 1], s[|s| - 1];
      var d := KeepFirst(init, key);
      KeepFirstKeys(init, key);
      KeysOfAppend(d, x, key);
    }
  }

  /** The result keeps exactly the first element for each key, and every element without one. */
  lemma {:induction false} KeepFirstIsFirstOccurrences<T, K>(s: seq<T>, key: T -> Option<K>)
    ensures KeepFirst(s, key) == FirstOccurrences(s, key)
    decreases |s|
  {
    if s != [] {
      var init, x := s[..|s| - 1], s[|s| - 1];
      KeepFirstIsFirstOccurrences(init, key);
      if key(x).Some? {
        var k := key(x).value;
        KeepFirstKeys(init, key);
        KeysOfMembership(init, key, k);
        if k in KeysOf(init, key) {
          var j :| 0 <= j < |init| && HasKey(key, init[j], k);
          assert key(s[j]) == key(s[|s| - 1]);
          assert !IsFirstWithKey(s, |s| - 1, key);
        } else {
          forall j | 0 <= j < |s| - 1 ensures key(s[j]) != key(s[|s| - 1]) {
            assert s[j] == init[j];
            assert !HasKey(key, init[j], k);
          }
        }
      }
    }
  }

  /** No two kept elements share a key. */
  lemma {:induction false} KeepFirstDistinct<T, K>(s: seq<T>, key: T -> Option<K>)
    ensures forall i, j :: 0 <= i < j < |KeepFirst(s, key)| && key(KeepFirst(s, key)[i]).Some?
              ==> key(KeepFirst(s, key)[i]) != key(KeepFirst(s, key)[j])
    decreases |s|
  {
    if s != [] {
      var init, x := s[..|s| - 1], s[|s| - 1];
      var d := KeepFirst(init, key);
      KeepFirstDistinct(init, key);
      if !(key(x).Some? && key(x).value in KeysOf(d, key)) {
        var r := d + [x];
        forall i | 0 <= i < |d| && key(r[i]).Some? ensures key(r[i]) != key(x) {
          var k := key(r[i]).value;
          KeysOfMembership(d, key, k);
          assert HasKey(key, d[i], k);
        }
      }
    }
  }

  /** The elements of `s` that have no key, in order. */
  function Unkeyed<T, K(==)>(s: seq<T>, key: T -> Option<K>): seq<T> {
    if s == [] then []
    else Unkeyed(s[..|s| - 1], key) + (if key(s[|s| - 1]).None? then [s[|s| - 1]] else [])
  }

  lemma UnkeyedAppend<T, K>(s: seq<T>, x: T, key: T -> Option<K>)
    ensures Unkeyed(s + [x], key) == Unkeyed(s, key) + (if key(x).None? then [x] else [])
  {
    assert (s + [x])[..|s|] == s;
  }

  /** An element without a key is never dropped: the unkeyed elements pass through unchanged. */
  lemma {:induction false} KeepFirstKeepsUnkeyed<T, K>(s: seq<T>, key: T -> Option<K>)
    ensures Unkeyed(KeepFirst(s, key), key) == Unkeyed(s, key)
    decreases |s|
  {
    if s != [] {
      var init, x := s[..|s| - 1], s[|s| - 1];
      var d := KeepFirst(init, key);
      KeepFirstKeepsUnkeyed(init, key);
      UnkeyedAppend(d, x, key);
    }
  }
}
