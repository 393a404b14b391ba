/**
 * Counting with a Python `defaultdict`: distinct keys in the order they were
 * first inserted, and how often each key occurs.
 */
module Counting {

  /** Number of occurrences of `x` in `s`. */
  function Occurrences<T(==)>(s: seq<T>, x: T): nat
    decreases |s|
  {
    if s == [] then 0
    else Occurrences(s[..|s| - 1], x) + (if s[|s| - 1] == x then 1 else 0)
  }

  lemma {:induction false} OccurrencesAbsent<T>(s: seq<T>, x: T)
    requires x !in s
    ensures Occurrences(s, x) == 0
    decreases |s|
  {
    if s != [] {
      assert x !in s[..|s| - 1] by {
        assert forall y :: y in s[..|s| - 1] ==> y in s;
      }
      OccurrencesAbsent(s[..|s| - 1], x);
    }
  }

  predicate NoDuplicates<T(==)>(s: seq<T>) {
    forall i, j :: 0 <= i < j < |s| ==> s[i] != s[j]
  }

  /** In a sequence without duplicates an element that occurs at all occurs once. */
  lemma {:induction false} OccurrencesOnce<T>(s: seq<T>, x: T)
    requires NoDuplicates(s) && x in s
    ensures Occurrences(s, x) == 1
    decreases |s|
  {
    var p := s[..|s| - 1];
    if s[|s| - 1] == x {
      assert x !in p by {
        forall i | 0 <= i < |p| ensures p[i] != x {
          assert s[i] != s[|s| - 1];
        }
      }
      OccurrencesAbsent(p, x);
    } else {
      assert x in p by {
        var i :| 0 <= i < |s| && s[i] == x;
        assert i < |s| - 1 && p[i] == x;
      }
      OccurrencesOnce(p, x);
    }
  }

  /**
   * The keys of a `defaultdict` filled from `s`, in insertion order: each
   * element is appended the first time it is seen.
   */
  function Distinct<T(==)>(s: seq<T>): seq<T>
    decreases |s|
  {
    if s == [] then []
    else
      var p := Distinct(s[..|s| - 1]);
      if s[|s| - 1] in p then p else p + [s[|s| - 1]]
  }

  /** The keys are exactly the elements of `s`. */
  lemma {:induction false} DistinctMembers<T>(s: seq<T>)
    ensures forall x :: x in Distinct(s) <==> x in s
    decreases |s|
  {
    if s != [] {
      var p := s[..|s| - 1];
      DistinctMembers(p);
      assert s == p + [s[|s| - 1]];
      assert forall x :: x in s <==> x in p || x == s[|s| - 1];
    }
  }

  /** No key is repeated. */
  lemma {:induction false} DistinctNoDuplicates<T>(s: seq<T>)
    ensures NoDuplicates(Distinct(s))
    decreases |s|
  {
    if s != [] {
      DistinctNoDuplicates(s[..|s| - 1]);
    }
  }

  function Sum(s: seq<nat>): nat
    decreases |s|
  {
    if s == [] then 0 else Sum(s[..|s| - 1]) + s[|s| - 1]
  }

  /** For each key, how often it occurs in `s` (the `values()` aligned with `keys`). */
  function CountsOf<T(==)>(keys: seq<T>, s: seq<T>): (c: seq<nat>)
    ensures |c| == |keys|
    ensures forall i :: 0 <= i < |keys| ==> c[i] == Occurrences(s, keys[i])
  {
    seq(|keys|, i requires 0 <= i < |keys| => Occurrences(s, keys[i]))
  }

  /** One more element adds, over all keys, as many counts as it matches keys. */
  lemma {:induction false} SumCountsAppend<T>(keys: seq<T>, s: seq<T>, x: T)
    ensures Sum(CountsOf(keys, s + [x])) == Sum(CountsOf(keys, s)) + Occurrences(keys, x)
    decreases |keys|
  {
    if keys != [] {
      var k := keys[..|keys| - 1];
      assert CountsOf(keys, s + [x])[..|keys| - 1] == CountsOf(k, s + [x]);
      assert CountsOf(keys, s)[..|keys| - 1] == CountsOf(k, s);
      assert (s + [x])[..|s|] == s;
      SumCountsAppend(k, s, x);
    }
  }

  /** The counts of a `defaultdict` filled from `s` add up to the length of `s`. */
  lemma {:induction false} SumCountsDistinct<T>(s: seq<T>)
    ensures Sum(CountsOf(Distinct(s), s)) == |s|
    decreases |s|
  {
    if s != [] {
      var p, x := s[..|s| - 1], s[|s| - 1];
      var dp := Distinct(p);
      assert s == p + [x];
      SumCountsDistinct(p);
      SumCountsAppend(dp, p, x);
      if x in dp {
        DistinctNoDuplicates(p);
        OccurrencesOnce(dp, x);
      } else {
        DistinctMembers(p);
        OccurrencesAbsent(dp, x);
        OccurrencesAbsent(p, x);
        var d := dp + [x];
        assert CountsOf(d, s)[..|dp|] == CountsOf(dp, s);
        assert Sum(CountsOf(d, s)) == Sum(CountsOf(dp, s)) + Occurrences(s, x);
      }
    }
  }
}
