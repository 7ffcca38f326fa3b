/** Newest-first ordering, as a sort whose comparator subtracts the first
    timestamp from the second produces it.
    `Array.prototype.sort` is stable (ECMA-262 since its 2019 edition), so the
    result is fixed by the comparator: keys never increase, and elements with
    equal keys keep their original order. `NewestFirst` is that result, built
    by stable insertion. */
module Ordering {
  import opened Seqs

  predicate Descending<T>(s: seq<T>, key: T -> int) {
    forall i, j :: 0 <= i < j < |s| ==> key(s[i]) >= key(s[j])
  }

  /** The elements whose key is `k`. */
  function KeyIs<T>(key: T -> int, k: int): T -> bool {
    y => key(y) == k
  }

  /** Puts `x` after every element whose key is at least `key(x)`. */
  function Insert<T>(t: seq<T>, x: T, key: T -> int): seq<T>
    decreases |t|
  {
    if t == [] then [x]
    else if key(t[0]) < key(x) then [x] + t
    else [t[0]] + Insert(t[1..], x, key)
  }

  function NewestFirst<T>(s: seq<T>, key: T -> int): seq<T>
    decreases |s|
  {
    if s == [] then [] else Insert(NewestFirst(s[..|s| - 1], key), s[|s| - 1], key)
  }

  lemma {:induction false} InsertPermutes<T>(t: seq<T>, x: T, key: T -> int)
    ensures multiset(Insert(t, x, key)) == multiset(t) + multiset{x}
    decreases |t|
  {
    if t != [] && key(t[0]) >= key(x) {
      InsertPermutes(t[1..], x, key);
      assert t == [t[0]] + t[1..];
    }
  }

  lemma {:induction false} InsertDescending<T>(t: seq<T>, x: T, key: T -> int)
    requires Descending(t, key)
    ensures Descending(Insert(t, x, key), key)
    decreases |t|
  {
    if t != [] && key(t[0]) >= key(x) {
      var tail := t[1..];
      InsertDescending(tail, x, key);
      var r := Insert(tail, x, key);
      InsertPermutes(tail, x, key);
      forall j | 0 <= j < |r| ensures key(r[j]) <= key(t[0]) {
        assert r[j] in multiset(r);
        if r[j] != x {
          assert r[j] in multiset(tail);
          var m :| 0 <= m < |tail| && tail[m] == r[j];
          assert tail[m] == t[m + 1];
        }
      }
    }
  }

  lemma DescendingTail<T>(t: seq<T>, key: T -> int)
    requires t != [] && Descending(t, key)
    ensures Descending(t[1..], key)
    ensures forall i :: 0 <= i < |t| ==> key(t[i]) <= key(t[0])
  {
    forall i, j | 0 <= i < j < |t| - 1 ensures key(t[1..][i]) >= key(t[1..][j]) {
      assert t[1..][i] == t[i + 1] && t[1..][j] == t[j + 1];
    }
  }

  /** `x` goes in front: every element of `t` has a smaller key, so none is in `x`'s class. */
  lemma InsertStableFront<T>(t: seq<T>, x: T, key: T -> int, k: int)
    requires forall i :: 0 <= i < |t| ==> key(t[i]) < key(x)
    ensures Filter([x] + t, KeyIs(key, k))
         == Filter(t, KeyIs(key, k)) + (if key(x) == k then [x] else [])
  {
    var p := KeyIs(key, k);
    FilterAppend([x], t, p);
    FilterSingleton(x, p);
    if key(x) == k {
      FilterNone(t, p);
    }
  }

  /** Inserting `x` adds it to the end of its own key class and changes no other class. */
  lemma {:induction false} InsertStable<T>(t: seq<T>, x: T, key: T -> int, k: int)
    requires Descending(t, key)
    ensures Filter(Insert(t, x, key), KeyIs(key, k))
         == Filter(t, KeyIs(key, k)) + (if key(x) == k then [x] else [])
    decreases |t|
  {
    var p := KeyIs(key, k);
    if t == [] {
      FilterSingleton(x, p);
    } else if key(t[0]) < key(x) {
      DescendingTail(t, key);
      InsertStableFront(t, x, key, k);
    } else {
      var tail := t[1..];
      DescendingTail(t, key);
      InsertStable(tail, x, key, k);
      FilterAppend([t[0]], Insert(tail, x, key), p);
      FilterAppend([t[0]], tail, p);
      assert t == [t[0]] + tail;
    }
  }

  /** Where `Insert` puts `x` in a descending sequence: at the first index whose key is smaller. */
  lemma {:induction false} InsertAt<T>(t: seq<T>, x: T, key: T -> int, j: nat)
    requires j <= |t|
    requires forall i :: 0 <= i < j ==> key(t[i]) >= key(x)
    requires j < |t| ==> key(t[j]) < key(x)
    ensures Insert(t, x, key) == t[..j] + [x] + t[j..]
    decreases j
  {
    if j > 0 {
      InsertAt(t[1..], x, key, j - 1);
      assert t[..j] == [t[0]] + t[1..][..j - 1];
      assert t[j..] == t[1..][j - 1..];
    }
  }

  /** The shape an in-place insertion leaves behind: `t[..j]`, then `x`, then
      `t[j..]` shifted right by one. */
  lemma ShiftedPrefix<T>(t: seq<T>, x: T, j: nat, b: seq<T>)
    requires j <= |t| < |b|
    requires forall k :: 0 <= k < j ==> b[k] == t[k]
    requires b[j] == x
    requires forall k :: j < k <= |t| ==> b[k] == t[k - 1]
    ensures b[..|t| + 1] == t[..j] + [x] + t[j..]
  {
    var r := t[..j] + [x] + t[j..];
    forall k | 0 <= k <= |t| ensures b[k] == r[k] {
      if k < j {
        assert r[k] == t[k];
      } else if k > j {
        assert r[k] == t[k - 1];
      }
    }
  }

  /** An insertion that stops at the first smaller key, in a descending sequence, is `Insert`. */
  lemma InsertStopsAt<T>(t: seq<T>, x: T, key: T -> int, j: nat)
    requires Descending(t, key)
    requires j <= |t|
    requires j > 0 ==> key(t[j - 1]) >= key(x)
    requires j < |t| ==> key(t[j]) < key(x)
    ensures Insert(t, x, key) == t[..j] + [x] + t[j..]
  {
    forall k | 0 <= k < j ensures key(t[k]) >= key(x) {
      assert key(t[k]) >= key(t[j - 1]);
    }
    InsertAt(t, x, key, j);
  }

  lemma NewestFirstSnoc<T>(s: seq<T>, key: T -> int, i: nat)
    requires i < |s|
    ensures NewestFirst(s[..i + 1], key) == Insert(NewestFirst(s[..i], key), s[i], key)
  {
    assert s[..i + 1][..i] == s[..i];
  }

  /** The newest-first order is non-increasing in the key and a permutation of the input. */
  lemma {:induction false} NewestFirstSorts<T>(s: seq<T>, key: T -> int)
    ensures Descending(NewestFirst(s, key), key)
    ensures multiset(NewestFirst(s, key)) == multiset(s)
    decreases |s|
  {
    if s != [] {
      var s' := s[..|s| - 1];
      NewestFirstSorts(s', key);
      InsertDescending(NewestFirst(s', key), s[|s| - 1], key);
      InsertPermutes(NewestFirst(s', key), s[|s| - 1], key);
      assert s == s' + [s[|s| - 1]];
    }
  }

  /** Stability: for every key, the elements with that key appear in the
      newest-first order exactly as they appear in the input. */
  lemma {:induction false} NewestFirstStable<T>(s: seq<T>, key: T -> int, k: int)
    ensures Filter(NewestFirst(s, key), KeyIs(key, k)) == Filter(s, KeyIs(key, k))
    decreases |s|
  {
    if s != [] {
      var s' := s[..|s| - 1];
      NewestFirstStable(s', key, k);
      NewestFirstSorts(s', key);
      InsertStable(NewestFirst(s', key), s[|s| - 1], key, k);
    }
  }
}
