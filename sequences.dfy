/** The array searches the features use: `Array.prototype.findIndex`, `find` and `filter`,
    for a predicate given as a function. */
module Sequences {
  import opened Wrappers

  /** `s.findIndex(p)`: the position of the first element satisfying `p`, or -1. */
  function FindIndex<T>(s: seq<T>, p: T -> bool): (r: int)
    ensures -1 <= r < |s|
  {
    if s == [] then -1
    else if p(s[0]) then 0
    else
      var k := FindIndex(s[1..], p);
      if k == -1 then -1 else k + 1
  }

  /** The index found satisfies `p` and no element before it does; -1 means no element does. */
  lemma {:induction false} FindIndexIsFirst<T>(s: seq<T>, p: T -> bool)
    ensures FindIndex(s, p) >= 0 ==> p(s[FindIndex(s, p)]) && forall j :: 0 <= j < FindIndex(s, p) ==> !p(s[j])
    ensures FindIndex(s, p) == -1 <==> forall j :: 0 <= j < |s| ==> !p(s[j])
  {
    if s != [] && !p(s[0]) {
      FindIndexIsFirst(s[1..], p);
      assert forall j :: 1 <= j < |s| ==> s[j] == s[1..][j - 1];
    }
  }

  /** `s.find(p)`. */
  function Find<T>(s: seq<T>, p: T -> bool): (r: Option<T>)
  {
    var k := FindIndex(s, p);
    if k == -1 then None else Some(s[k])
  }

  /** What `find` returns is an element of `s` satisfying `p` with none before it; it returns
      `undefined` exactly when no element satisfies `p`. */
  lemma FindIsFirst<T>(s: seq<T>, p: T -> bool)
    ensures Find(s, p).Some? ==> Find(s, p).value in s && p(Find(s, p).value)
    ensures Find(s, p).Some? ==> exists i :: 0 <= i < |s| && s[i] == Find(s, p).value &&
                                            forall j :: 0 <= j < i ==> !p(s[j])
    ensures Find(s, p).None? <==> forall x :: x in s ==> !p(x)
  {
    FindIndexIsFirst(s, p);
    var k := FindIndex(s, p);
    if k == -1 {
      forall x | x in s ensures !p(x) {
        var i :| 0 <= i < |s| && s[i] == x;
      }
    }
  }

  /** Two predicates that agree on every element find the same element. */
  lemma {:induction false} FindAgreeing<T>(s: seq<T>, p: T -> bool, q: T -> bool)
    requires forall i :: 0 <= i < |s| ==> p(s[i]) == q(s[i])
    ensures Find(s, p) == Find(s, q)
    ensures FindIndex(s, p) == FindIndex(s, q)
  {
    if s != [] {
      assert forall i :: 0 <= i < |s| - 1 ==> s[1..][i] == s[i + 1];
      FindAgreeing(s[1..], p, q);
    }
  }

  /** `s.filter(p)`: the elements satisfying `p`, in order. */
  function Filter<T>(s: seq<T>, p: T -> bool): (r: seq<T>)
    ensures |r| <= |s|
  {
    if s == [] then [] else (if p(s[0]) then [s[0]] else []) + Filter(s[1..], p)
  }

  /** The filter keeps every element satisfying `p` as often as it occurs, drops all others,
      and keeps the order. */
  lemma {:induction false} FilterKeeps<T>(s: seq<T>, p: T -> bool)
    ensures forall x :: multiset(Filter(s, p))[x] == if p(x) then multiset(s)[x] else 0
    ensures forall i :: 0 <= i < |Filter(s, p)| ==> p(Filter(s, p)[i])
    ensures forall x :: x in Filter(s, p) <==> x in s && p(x)
  {
    FilterCounts(s, p);
    FilterSatisfies(s, p);
    var f := Filter(s, p);
    forall x ensures x in f <==> x in s && p(x) {
      assert x in f <==> x in multiset(f);
      assert x in s <==> x in multiset(s);
    }
  }

  /** The filter keeps each satisfying element as often as it occurs and drops the others. */
  lemma {:induction false} FilterCounts<T>(s: seq<T>, p: T -> bool)
    ensures forall x :: multiset(Filter(s, p))[x] == if p(x) then multiset(s)[x] else 0
  {
    if s != [] {
      FilterCounts(s[1..], p);
      assert s == [s[0]] + s[1..];
      assert multiset(s) == multiset{s[0]} + multiset(s[1..]);
    }
  }

  /** Every element the filter keeps satisfies `p`. */
  lemma {:induction false} FilterSatisfies<T>(s: seq<T>, p: T -> bool)
    ensures forall i :: 0 <= i < |Filter(s, p)| ==> p(Filter(s, p)[i])
  {
    if s != [] {
      FilterSatisfies(s[1..], p);
    }
  }

  /** Filtering a concatenation filters each part in turn. */
  lemma {:induction false} FilterAppend<T>(a: seq<T>, b: seq<T>, p: T -> bool)
    ensures Filter(a + b, p) == Filter(a, p) + Filter(b, p)
  {
    if a != [] {
      assert (a + b)[1..] == a[1..] + b;
      FilterAppend(a[1..], b, p);
    } else {
      assert a + b == b;
    }
  }
}
