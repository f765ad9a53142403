/** The JavaScript array primitives the extension uses: `findIndex`, `find`, `splice(k, 1)`, `filter`, `map`. */
module Sequences {
  import opened Wrappers

  /** `s.findIndex(p)`: the first index whose element satisfies `p`, or -1. */
  function FirstIndex<T>(s: seq<T>, p: T -> bool): (r: int)
    ensures -1 <= r < |s|
    ensures r == -1 <==> forall j :: 0 <= j < |s| ==> !p(s[j])
    ensures r != -1 ==> p(s[r]) && forall j :: 0 <= j < r ==> !p(s[j])
  {
    if s == [] then -1
    else if p(s[0]) then 0
    else
      var r := FirstIndex(s[1..], p);
      if r == -1 then -1 else r + 1
  }

  /** `s.find(p)`: the first element satisfying `p`, or `None`. */
  function Find<T>(s: seq<T>, p: T -> bool): (r: Option<T>)
    ensures r.None? <==> forall j :: 0 <= j < |s| ==> !p(s[j])
    ensures r.Some? ==> exists i :: 0 <= i < |s| && s[i] == r.value && p(s[i]) && forall j :: 0 <= j < i ==> !p(s[j])
  {
    var i := FirstIndex(s, p);
    if i == -1 then None else Some(s[i])
  }

  /** `s.splice(k, 1)`: `s` without its element at `k`, the rest in order. */
  function RemoveAt<T>(s: seq<T>, k: int): (r: seq<T>)
    requires 0 <= k < |s|
    ensures |r| == |s| - 1
    ensures forall j :: 0 <= j < k ==> r[j] == s[j]
    ensures forall j :: k <= j < |r| ==> r[j] == s[j + 1]
    ensures multiset(r) + multiset{s[k]} == multiset(s)
  {
    assert s == s[..k] + [s[k]] + s[k + 1..];
    s[..k] + s[k + 1..]
  }

  /** `s.filter(p)`. */
  function Filter<T>(s: seq<T>, p: T -> bool): (r: seq<T>)
    ensures |r| <= |s|
  {
    if s == [] then []
    else
      var rest := Filter(s[1..], p);
      if p(s[0]) then [s[0]] + rest else rest
  }

  /**
   * `Filter` keeps exactly the elements that satisfy `p`: everything it returns comes from
   * `s` and passes, everything in `s` that passes is returned, and when all pass nothing is dropped.
   */
  lemma {:induction false} FilterSpec<T>(s: seq<T>, p: T -> bool)
    ensures forall j :: 0 <= j < |Filter(s, p)| ==> Filter(s, p)[j] in s && p(Filter(s, p)[j])
    ensures forall j :: 0 <= j < |s| && p(s[j]) ==> s[j] in Filter(s, p)
    ensures (forall j :: 0 <= j < |s| ==> p(s[j])) ==> Filter(s, p) == s
    decreases |s|
  {
    if s != [] {
      var tail := s[1..];
      FilterSpec(tail, p);
      assert forall x :: x in tail ==> x in s;
      assert forall j :: 1 <= j < |s| ==> s[j] == tail[j - 1];
    }
  }

  /** Filtering keeps the original order: it distributes over concatenation. */
  lemma {:induction false} FilterConcat<T>(a: seq<T>, b: seq<T>, p: T -> bool)
    ensures Filter(a + b, p) == Filter(a, p) + Filter(b, p)
    decreases |a|
  {
    if a != [] {
      assert (a + b)[1..] == a[1..] + b;
      FilterConcat(a[1..], b, p);
    } else {
      assert a + b == b;
    }
  }

  /** Filtering around position `k`: the part before, `s[k]` if it passes, the part after. */
  lemma {:induction false} FilterAround<T>(s: seq<T>, k: int, p: T -> bool)
    requires 0 <= k < |s|
    ensures Filter(s, p) == Filter(s[..k], p) + (if p(s[k]) then [s[k]] else []) + Filter(s[k + 1..], p)
    decreases k
  {
    var middle := if p(s[k]) then [s[k]] else [];
    if k == 0 {
      assert s[..k] == [];
      assert s[1..] == s[k + 1..];
    } else {
      var tail := s[1..];
      FilterAround(tail, k - 1, p);
      assert tail[k - 1] == s[k] && tail[k..] == s[k + 1..];
      assert s[..k][1..] == tail[..k - 1];
      var first := if p(s[0]) then [s[0]] else [];
      var before, after := Filter(tail[..k - 1], p), Filter(s[k + 1..], p);
      assert Filter(s[..k], p) == first + before;
      assert Filter(s, p) == first + (before + middle + after);
      assert first + (before + middle + after) == first + before + middle + after;
    }
  }

  /** Nothing passes the filter when no element satisfies the predicate. */
  lemma {:induction false} FilterNone<T>(s: seq<T>, p: T -> bool)
    requires forall j :: 0 <= j < |s| ==> !p(s[j])
    ensures Filter(s, p) == []
    decreases |s|
  {
    if s != [] {
      FilterNone(s[1..], p);
    }
  }

  /** `s.map(f)`. */
  function Map<T, U>(s: seq<T>, f: T -> U): (r: seq<U>)
    ensures |r| == |s|
    ensures forall j :: 0 <= j < |s| ==> r[j] == f(s[j])
  {
    if s == [] then [] else [f(s[0])] + Map(s[1..], f)
  }

  /** Mapping distributes over concatenation. */
  lemma MapConcat<T, U>(a: seq<T>, b: seq<T>, f: T -> U)
    ensures Map(a + b, f) == Map(a, f) + Map(b, f)
  {
    assert forall j :: 0 <= j < |a + b| ==> Map(a + b, f)[j] == (Map(a, f) + Map(b, f))[j];
  }
}
