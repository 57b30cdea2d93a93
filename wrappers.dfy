/** Optional values, used for JavaScript's `null`/`undefined` and for skipped entries. */
module Wrappers {

  datatype Option<+T> = None | Some(value: T)

  /** The prefix of a sequence's full length is the sequence. */
  lemma PrefixAll<T>(s: seq<T>)
    ensures s[..|s|] == s
  {
  }

  /** A prefix one element longer is the prefix and that element. */
  lemma PrefixNext<T>(s: seq<T>, i: nat)
    requires i < |s|
    ensures s[..i] + [s[i]] == s[..i + 1]
    ensures i + 1 == |s| ==> s[..i] + [s[i]] == s
  {
  }

  /** `f` applied to every element of `xs`, in order: JavaScript's `xs.map(f)`. */
  function Mapped<T, U>(xs: seq<T>, f: T -> U): (r: seq<U>)
    ensures |r| == |xs|
  {
    seq(|xs|, k requires 0 <= k < |xs| => f(xs[k]))
  }

  /** The value of `o` as a list of zero or one element. */
  function Keep<T>(o: Option<T>): seq<T> {
    if o.Some? then [o.value] else []
  }

  /** The present values of `xs`, in order: what a loop that skips the absent ones collects. */
  function Somes<T>(xs: seq<Option<T>>): (r: seq<T>)
    ensures |r| <= |xs|
  {
    if xs == [] then [] else Somes(xs[..|xs| - 1]) + Keep(xs[|xs| - 1])
  }

  /** One more element of a prefix adds its value, if it has one. */
  lemma SomesPrefix<T>(xs: seq<Option<T>>, i: nat)
    requires i < |xs|
    ensures Somes(xs[..i + 1]) == Somes(xs[..i]) + Keep(xs[i])
  {
    assert xs[..i + 1][..i] == xs[..i];
  }

  lemma {:induction false} SomesAppend<T>(a: seq<Option<T>>, b: seq<Option<T>>)
    ensures Somes(a + b) == Somes(a) + Somes(b)
  {
    if b == [] {
      assert a + b == a;
    } else {
      var b' := b[..|b| - 1];
      assert (a + b)[..|a + b| - 1] == a + b';
      SomesAppend(a, b');
    }
  }

  /** When every value is present, nothing is dropped. */
  lemma {:induction false} SomesAll<T>(xs: seq<Option<T>>, ys: seq<T>)
    requires |xs| == |ys| && forall k :: 0 <= k < |xs| ==> xs[k] == Some(ys[k])
    ensures Somes(xs) == ys
  {
    if xs != [] {
      var n := |xs| - 1;
      SomesAll(xs[..n], ys[..n]);
      assert ys == ys[..n] + [ys[n]];
    }
  }

  /** When no value is present, nothing is collected. */
  lemma {:induction false} SomesNone<T>(xs: seq<Option<T>>)
    requires forall k :: 0 <= k < |xs| ==> xs[k].None?
    ensures Somes(xs) == []
  {
    if xs != [] {
      SomesNone(xs[..|xs| - 1]);
    }
  }

  /** A value is collected exactly when it occurs present in the list. */
  lemma {:induction false} SomesMembers<T>(xs: seq<Option<T>>, y: T)
    ensures y in Somes(xs) <==> Some(y) in xs
  {
    if xs != [] {
      var n := |xs| - 1;
      SomesMembers(xs[..n], y);
      assert xs == xs[..n] + [xs[n]];
    }
  }
}
