/**
 * Python's `list.sort(key=...)` and `sorted(..., key=..., reverse=...)`: a
 * stable sort. The model is an insertion sort parameterised by a key function
 * and the order on keys; its three properties are proved once here: the
 * result is a permutation, it is ordered by key, and for every key the
 * elements carrying that key keep their original relative order.
 */
module Sorting {
  import Text
  import opened Common

  /** The order on keys is a total preorder (reflexive, total, transitive). */
  ghost predicate TotalPreorder<K(!new)>(le: (K, K) -> bool)
  {
    && (forall a :: le(a, a))
    && (forall a, b :: le(a, b) || le(b, a))
    && (forall a, b, c :: le(a, b) && le(b, c) ==> le(a, c))
  }

  /** Every earlier element's key is at most every later element's key. */
  ghost predicate SortedBy<T, K>(s: seq<T>, key: T -> K, le: (K, K) -> bool)
  {
    forall i, j | 0 <= i < j < |s| :: le(key(s[i]), key(s[j]))
  }

  /** The subsequence of the elements of `s` whose key is `k`. */
  function WithKey<T, K(==)>(s: seq<T>, key: T -> K, k: K): seq<T>
  {
    if s == [] then [] else (if key(s[0]) == k then [s[0]] else []) + WithKey(s[1..], key, k)
  }

  /**
   * Places `x` after the last element of `r` whose key is at most `x`'s key,
   * so that `x` follows every element with an equal key.
   */
  function Insert<T, K>(x: T, r: seq<T>, key: T -> K, le: (K, K) -> bool): seq<T>
  {
    if r == [] then [x]
    else if le(key(r[|r| - 1]), key(x)) then r + [x]
    else Insert(x, r[..|r| - 1], key, le) + [r[|r| - 1]]
  }

  /** The stable sort of `s` by `key`: each element is inserted in turn, in input order. */
  function SortBy<T, K>(s: seq<T>, key: T -> K, le: (K, K) -> bool): seq<T>
  {
    if s == [] then [] else Insert(s[|s| - 1], SortBy(s[..|s| - 1], key, le), key, le)
  }

  lemma {:induction false} WithKeyAppend<T, K>(a: seq<T>, b: seq<T>, key: T -> K, k: K)
    ensures WithKey(a + b, key, k) == WithKey(a, key, k) + WithKey(b, key, k)
  {
    if a == [] {
      assert a + b == b;
    } else {
      assert (a + b)[0] == a[0];
      assert (a + b)[1..] == a[1..] + b;
      WithKeyAppend(a[1..], b, key, k);
      var head := if key(a[0]) == k then [a[0]] else [];
      AppendAssoc(head, WithKey(a[1..], key, k), WithKey(b, key, k));
    }
  }

  lemma {:induction false} InsertPermutes<T, K>(x: T, r: seq<T>, key: T -> K, le: (K, K) -> bool)
    ensures multiset(Insert(x, r, key, le)) == multiset(r) + multiset{x}
  {
    if r != [] && !le(key(r[|r| - 1]), key(x)) {
      InsertPermutes(x, r[..|r| - 1], key, le);
      assert r == r[..|r| - 1] + [r[|r| - 1]];
    }
  }

  lemma {:induction false} InsertSorted<T, K(!new)>(x: T, r: seq<T>, key: T -> K, le: (K, K) -> bool)
    requires TotalPreorder(le) && SortedBy(r, key, le)
    ensures SortedBy(Insert(x, r, key, le), key, le)
  {
    if r != [] {
      var last := r[|r| - 1];
      if le(key(last), key(x)) {
        var out := r + [x];
        forall i, j | 0 <= i < j < |out|
          ensures le(key(out[i]), key(out[j]))
        {
          if j == |r| && i < |r| - 1 {
            assert le(key(r[i]), key(last));
          }
        }
      } else {
        var init := r[..|r| - 1];
        InsertSorted(x, init, key, le);
        InsertPermutes(x, init, key, le);
        var ins := Insert(x, init, key, le);
        assert le(key(x), key(last));
        forall i | 0 <= i < |ins|
          ensures le(key(ins[i]), key(last))
        {
          assert ins[i] in multiset(ins);
          if ins[i] != x {
            assert ins[i] in multiset(init);
            var m :| 0 <= m < |init| && init[m] == ins[i];
            assert le(key(r[m]), key(r[|r| - 1]));
          }
        }
        var out := ins + [last];
        assert Insert(x, r, key, le) == out;
        forall i, j | 0 <= i < j < |out|
          ensures le(key(out[i]), key(out[j]))
        {
          if j < |ins| {
            assert out[i] == ins[i] && out[j] == ins[j];
          } else {
            assert out[i] == ins[i] && out[j] == last;
          }
        }
      }
    }
  }

  lemma {:induction false} InsertStable<T, K(!new)>(x: T, r: seq<T>, key: T -> K, le: (K, K) -> bool, k: K)
    requires forall a :: le(a, a)
    ensures WithKey(Insert(x, r, key, le), key, k) == WithKey(r, key, k) + WithKey([x], key, k)
  {
    if r == [] {
    } else if le(key(r[|r| - 1]), key(x)) {
      WithKeyAppend(r, [x], key, k);
    } else {
      var init, last := r[..|r| - 1], r[|r| - 1];
      assert le(key(x), key(x));
      assert key(last) != key(x);
      InsertStable(x, init, key, le, k);
      WithKeyAppend(Insert(x, init, key, le), [last], key, k);
      WithKeyAppend(init, [last], key, k);
      assert init + [last] == r;
    }
  }

  /** Sorting keeps the length. */
  lemma {:induction false} SortByLength<T, K>(s: seq<T>, key: T -> K, le: (K, K) -> bool)
    ensures |SortBy(s, key, le)| == |s|
  {
    if s != [] {
      SortByLength(s[..|s| - 1], key, le);
      InsertPermutes(s[|s| - 1], SortBy(s[..|s| - 1], key, le), key, le);
      assert |Insert(s[|s| - 1], SortBy(s[..|s| - 1], key, le), key, le)| == |SortBy(s[..|s| - 1], key, le)| + 1 by {
        assert |multiset(Insert(s[|s| - 1], SortBy(s[..|s| - 1], key, le), key, le))| == |multiset(SortBy(s[..|s| - 1], key, le))| + 1;
      }
    }
  }

  /** Sorting only rearranges: the result is a permutation of the input. */
  lemma {:induction false} SortByPermutes<T, K>(s: seq<T>, key: T -> K, le: (K, K) -> bool)
    ensures multiset(SortBy(s, key, le)) == multiset(s)
    ensures |SortBy(s, key, le)| == |s|
  {
    if s != [] {
      var init := s[..|s| - 1];
      SortByPermutes(init, key, le);
      InsertPermutes(s[|s| - 1], SortBy(init, key, le), key, le);
      assert s == init + [s[|s| - 1]];
      assert multiset(s) == multiset(init) + multiset{s[|s| - 1]};
    }
    SortByLength(s, key, le);
  }

  /** Under a total preorder the result is ordered by key. */
  lemma {:induction false} SortBySorted<T, K(!new)>(s: seq<T>, key: T -> K, le: (K, K) -> bool)
    requires TotalPreorder(le)
    ensures SortedBy(SortBy(s, key, le), key, le)
  {
    if s != [] {
      SortBySorted(s[..|s| - 1], key, le);
      InsertSorted(s[|s| - 1], SortBy(s[..|s| - 1], key, le), key, le);
    }
  }

  /** Stability: the elements with any given key appear in the result in their input order. */
  lemma {:induction false} SortByStable<T, K(!new)>(s: seq<T>, key: T -> K, le: (K, K) -> bool, k: K)
    requires forall a :: le(a, a)
    ensures WithKey(SortBy(s, key, le), key, k) == WithKey(s, key, k)
  {
    if s != [] {
      var init := s[..|s| - 1];
      SortByStable(init, key, le, k);
      InsertStable(s[|s| - 1], SortBy(init, key, le), key, le, k);
      WithKeyAppend(init, [s[|s| - 1]], key, k);
      assert init + [s[|s| - 1]] == s;
    }
  }

  /** The first element with key `k` heads the subsequence of the elements with key `k`. */
  lemma {:induction false} WithKeyHead<T, K>(s: seq<T>, key: T -> K, k: K, i: int)
    requires 0 <= i < |s| && key(s[i]) == k
    requires forall j | 0 <= j < i :: key(s[j]) != k
    ensures WithKey(s, key, k) != [] && WithKey(s, key, k)[0] == s[i]
  {
    if i > 0 {
      assert s[1..][i - 1] == s[i];
      assert forall j | 0 <= j < i - 1 :: key(s[1..][j]) != k by {
        forall j | 0 <= j < i - 1 ensures key(s[1..][j]) != k { assert s[1..][j] == s[j + 1]; }
      }
      WithKeyHead(s[1..], key, k, i - 1);
    }
  }

  /** The index of the first element with key `k`, given any element with that key. */
  lemma FirstIndexWithKey<T, K>(s: seq<T>, key: T -> K, k: K, w: int) returns (i: int)
    requires 0 <= w < |s| && key(s[w]) == k
    ensures 0 <= i <= w && key(s[i]) == k
    ensures forall j | 0 <= j < i :: key(s[j]) != k
  {
    i := 0;
    while key(s[i]) != k
      invariant 0 <= i <= w
      invariant forall j | 0 <= j < i :: key(s[j]) != k
      decreases w - i
    {
      i := i + 1;
    }
  }

  /** A sequence whose elements all have key `k` is its own subsequence for `k`, and has none for any other key. */
  lemma {:induction false} WithKeyUniform<T, K>(s: seq<T>, key: T -> K, k: K, other: K)
    requires forall x | x in s :: key(x) == k
    ensures WithKey(s, key, k) == s
    ensures other != k ==> WithKey(s, key, other) == []
  {
    if s != [] {
      WithKeyUniform(s[1..], key, k, other);
      assert [s[0]] + s[1..] == s;
    }
  }

  /**
   * When every element of `f(x)` carries the key of `x`, the elements of
   * `ConcatMap(s, keep, f)` with key `k` are those contributed by the elements
   * of `s` with key `k`, in order.
   */
  lemma {:induction false} ConcatMapWithKey<T, U, K>(s: seq<T>, keep: T -> bool, f: T -> seq<U>, keyOf: T -> K, key: U -> K, k: K)
    requires forall x, u | u in f(x) :: key(u) == keyOf(x)
    ensures WithKey(ConcatMap(s, keep, f), key, k) == ConcatMap(WithKey(s, keyOf, k), keep, f)
  {
    if s != [] {
      var init := s[..|s| - 1];
      var last := s[|s| - 1];
      ConcatMapWithKey(init, keep, f, keyOf, key, k);
      assert init + [last] == s;
      WithKeyAppend(init, [last], keyOf, k);
      ConcatMapAppend(WithKey(init, keyOf, k), WithKey([last], keyOf, k), keep, f);
      assert WithKey([last], keyOf, k) == if keyOf(last) == k then [last] else [];
      assert ConcatMap([last], keep, f) == ConcatMap([], keep, f) + (if keep(last) then f(last) else [])
        by { assert [last][..0] == []; }
      if keep(last) {
        WithKeyAppend(ConcatMap(init, keep, f), f(last), key, k);
        WithKeyUniform(f(last), key, keyOf(last), k);
      }
      if keyOf(last) != k {
        AppendEmpty(ConcatMap(WithKey(init, keyOf, k), keep, f));
      }
    }
  }

  /** `a <= b` on `int`. */
  predicate IntLe(a: int, b: int) { a <= b }

  /** `a >= b` on `int`: the order of `sorted(..., reverse=True)`. */
  predicate IntGe(a: int, b: int) { a >= b }

  lemma IntOrdersArePreorders()
    ensures TotalPreorder(IntLe) && TotalPreorder(IntGe)
  {
  }

  /** Python's `str` comparison is a total preorder, so sorting by name is well defined. */
  lemma NameOrderIsPreorder()
    ensures TotalPreorder(Text.LexLe)
  {
    forall a: string ensures Text.LexLe(a, a) { Text.LexLeReflexive(a); }
    forall a: string, b: string ensures Text.LexLe(a, b) || Text.LexLe(b, a) { Text.LexLeTotal(a, b); }
    forall a: string, b: string, c: string | Text.LexLe(a, b) && Text.LexLe(b, c)
      ensures Text.LexLe(a, c)
    {
      Text.LexLeTransitive(a, b, c);
    }
  }
}
