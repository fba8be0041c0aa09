/**
 * Lodash's `_.uniq`: drop every element already seen, keeping the first
 * occurrence of each, in order.
 */
module Seqs {
  import opened Wrappers

  predicate NoDuplicates<T(==)>(s: seq<T>)
  {
    forall i, j :: 0 <= i < j < |s| ==> s[i] != s[j]
  }

  /** Position of the first occurrence of `x` in `s`. */
  function IndexOf<T(==)>(s: seq<T>, x: T): (k: nat)
    requires x in s
    ensures k < |s| && s[k] == x && x !in s[..k]
  {
    if s[0] == x then 0
    else
      var k := 1 + IndexOf(s[1..], x);
      assert s[..k] == [s[0]] + s[1..][..k - 1];
      k
  }

  /**
   * `_.uniq(s)`: the elements of `s` without repetition. Written as the
   * left-to-right scan lodash performs, seen from its last step: the last
   * element is kept only when the earlier ones did not already yield it.
   */
  function Uniq<T(==)>(s: seq<T>): (r: seq<T>)
    ensures forall i :: 0 <= i < |r| ==> r[i] in s
    ensures forall i :: 0 <= i < |s| ==> s[i] in r
    ensures NoDuplicates(r)
    decreases |s|
  {
    if |s| == 0 then []
    else
      var init, x := s[..|s| - 1], s[|s| - 1];
      assert s == init + [x];
      var u := Uniq(init);
      if x in u then u else u + [x]
  }

  /** A first occurrence in a prefix is the first occurrence in any extension of it. */
  lemma {:induction false} IndexOfExtend<T>(s: seq<T>, t: seq<T>, x: T)
    requires x in s
    ensures x in s + t && IndexOf(s + t, x) == IndexOf(s, x)
  {
    if s[0] != x {
      assert (s + t)[1..] == s[1..] + t;
      IndexOfExtend(s[1..], t, x);
    }
  }

  /**
   * Order of first appearance: an element kept before another one first
   * occurs in `s` before that other one first does.
   */
  lemma {:induction false} UniqFirstSeenOrder<T>(s: seq<T>)
    ensures forall i, j :: 0 <= i < j < |Uniq(s)| ==> IndexOf(s, Uniq(s)[i]) < IndexOf(s, Uniq(s)[j])
  {
    if |s| > 0 {
      var init, x := s[..|s| - 1], s[|s| - 1];
      assert s == init + [x];
      var u := Uniq(init);
      UniqFirstSeenOrder(init);
      forall y | y in u
        ensures IndexOf(s, y) == IndexOf(init, y) < |init|
      {
        IndexOfExtend(init, [x], y);
      }
      if x !in u {
        assert x !in init;
        assert IndexOf(s, x) == |init|;
      }
    }
  }

  /** `_.uniq` leaves a sequence without repetitions as it is; in particular it is idempotent. */
  lemma {:induction false} UniqOfDistinct<T>(s: seq<T>)
    requires NoDuplicates(s)
    ensures Uniq(s) == s
  {
    if |s| > 0 {
      var init, x := s[..|s| - 1], s[|s| - 1];
      assert s == init + [x];
      UniqOfDistinct(init);
      assert x !in init;
    }
  }

  /** The present values of a sequence of options, in order. */
  function Somes<T>(opts: seq<Option<T>>): (r: seq<T>)
  {
    if opts == [] then []
    else (match opts[0] case Some(v) => [v] case None => []) + Somes(opts[1..])
  }

  /** A value is kept exactly when it is present somewhere. */
  lemma {:induction false} SomesMembership<T>(opts: seq<Option<T>>, x: T)
    ensures x in Somes(opts) <==> Some(x) in opts
  {
    if opts != [] {
      SomesMembership(opts[1..], x);
      assert opts == [opts[0]] + opts[1..];
    }
  }

  /**
   * Keeping the present values preserves the order of first occurrences: one
   * value first occurs before another among the kept values exactly when it
   * does among the options.
   */
  lemma {:induction false} SomesOrder<T>(opts: seq<Option<T>>, a: T, b: T)
    requires a in Somes(opts) && b in Somes(opts)
    ensures Some(a) in opts && Some(b) in opts
    ensures IndexOf(Somes(opts), a) < IndexOf(Somes(opts), b) <==>
            IndexOf(opts, Some(a)) < IndexOf(opts, Some(b))
  {
    SomesMembership(opts, a);
    SomesMembership(opts, b);
    var ks, rest := Somes(opts), Somes(opts[1..]);
    match opts[0]
    case None =>
      assert ks == rest;
      SomesOrder(opts[1..], a, b);
    case Some(v) =>
      assert ks == [v] + rest && ks[1..] == rest;
      if a != v && b != v {
        SomesMembership(opts[1..], a);
        SomesMembership(opts[1..], b);
        SomesOrder(opts[1..], a, b);
      }
  }

  /** Deduplicating the present values lists them in the order of their first presence. */
  lemma UniqSomesOrder<T>(opts: seq<Option<T>>)
    ensures forall i :: 0 <= i < |Uniq(Somes(opts))| ==> Some(Uniq(Somes(opts))[i]) in opts
    ensures forall i, j :: 0 <= i < j < |Uniq(Somes(opts))| ==>
      IndexOf(opts, Some(Uniq(Somes(opts))[i])) < IndexOf(opts, Some(Uniq(Somes(opts))[j]))
  {
    var ks := Somes(opts);
    var r := Uniq(ks);
    UniqFirstSeenOrder(ks);
    forall i | 0 <= i < |r|
      ensures Some(r[i]) in opts
    {
      SomesMembership(opts, r[i]);
    }
    forall i, j | 0 <= i < j < |r|
      ensures IndexOf(opts, Some(r[i])) < IndexOf(opts, Some(r[j]))
    {
      SomesOrder(opts, r[i], r[j]);
    }
  }
}
