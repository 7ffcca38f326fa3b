/** `Array.prototype.filter` and `Array.prototype.map` on sequences. Both are
    defined from the back, which is the order a left-to-right loop extends them in. */
module Seqs {

  function Filter<T>(s: seq<T>, p: T -> bool): (r: seq<T>)
    ensures |r| <= |s|
    ensures forall i :: 0 <= i < |r| ==> r[i] in s && p(r[i])
    ensures forall i :: 0 <= i < |s| && p(s[i]) ==> s[i] in r
    decreases |s|
  {
    if s == [] then []
    else Filter(s[..|s| - 1], p) + (if p(s[|s| - 1]) then [s[|s| - 1]] else [])
  }

  function Map<T, U>(s: seq<T>, f: T -> U): (r: seq<U>)
    ensures |r| == |s|
    ensures forall i :: 0 <= i < |s| ==> r[i] == f(s[i])
    decreases |s|
  {
    if s == [] then [] else Map(s[..|s| - 1], f) + [f(s[|s| - 1])]
  }

  /** One more element of a left-to-right `map`. */
  lemma MapSnoc<T, U>(s: seq<T>, f: T -> U, i: nat)
    requires i < |s|
    ensures Map(s[..i + 1], f) == Map(s[..i], f) + [f(s[i])]
  {
    assert s[..i + 1][..i] == s[..i];
  }

  /** The indices of `s` whose element satisfies `p`. */
  function Indices<T>(s: seq<T>, p: T -> bool): set<nat> {
    set i: nat | i < |s| && p(s[i])
  }

  lemma {:induction false} FilterAppend<T>(a: seq<T>, b: seq<T>, p: T -> bool)
    ensures Filter(a + b, p) == Filter(a, p) + Filter(b, p)
    decreases |b|
  {
    if b == [] {
      assert a + b == a;
    } else {
      var b' := b[..|b| - 1];
      assert (a + b)[..|a + b| - 1] == a + b';
      FilterAppend(a, b', p);
    }
  }

  /** Filtering keeps every element when all of them pass. */
  lemma {:induction false} FilterAll<T>(s: seq<T>, p: T -> bool)
    requires forall i :: 0 <= i < |s| ==> p(s[i])
    ensures Filter(s, p) == s
    decreases |s|
  {
    if s != [] {
      FilterAll(s[..|s| - 1], p);
    }
  }

  lemma IndicesSnoc<T>(s: seq<T>, p: T -> bool)
    requires s != []
    ensures Indices(s, p) == Indices(s[..|s| - 1], p) + (if p(s[|s| - 1]) then {|s| - 1} else {})
    ensures |s| - 1 !in Indices(s[..|s| - 1], p)
  {
    var s' := s[..|s| - 1];
    forall i | i in Indices(s', p) ensures i in Indices(s, p) {
      assert s'[i] == s[i];
    }
    forall i | i in Indices(s, p) && i < |s| - 1 ensures i in Indices(s', p) {
      assert s'[i] == s[i];
    }
  }

  /** Filtering keeps nothing when no element passes. */
  lemma {:induction false} FilterNone<T>(t: seq<T>, p: T -> bool)
    requires forall i :: 0 <= i < |t| ==> !p(t[i])
    ensures Filter(t, p) == []
    decreases |t|
  {
    if t != [] {
      FilterNone(t[..|t| - 1], p);
    }
  }

  lemma FilterSingleton<T>(x: T, p: T -> bool)
    ensures Filter([x], p) == if p(x) then [x] else []
  {
    assert [x][..0] == [];
  }

  /** `filter(p).length` is the number of positions whose element satisfies `p`. */
  lemma {:induction false} FilterCountsIndices<T>(s: seq<T>, p: T -> bool)
    ensures |Filter(s, p)| == |Indices(s, p)|
    decreases |s|
  {
    if s == [] {
      assert Indices(s, p) == {};
    } else {
      FilterCountsIndices(s[..|s| - 1], p);
      IndicesSnoc(s, p);
    }
  }

  /** Mapping then filtering equals filtering then mapping when `f` does not
      change whether an element passes `p`. */
  lemma {:induction false} FilterMapCommute<T>(s: seq<T>, f: T -> T, p: T -> bool)
    requires forall x :: p(f(x)) == p(x)
    ensures Filter(Map(s, f), p) == Map(Filter(s, p), f)
    decreases |s|
  {
    if s != [] {
      var s' := s[..|s| - 1];
      FilterMapCommute(s', f, p);
      assert Map(s, f)[..|s| - 1] == Map(s', f);
      var x := s[|s| - 1];
      if p(x) {
        assert Filter(s, p) == Filter(s', p) + [x];
        assert Filter(s, p)[..|Filter(s, p)| - 1] == Filter(s', p);
      }
    }
  }
}
