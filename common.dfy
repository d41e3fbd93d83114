/** Small shared definitions. */
module Common {
  datatype Option<T> = None | Some(value: T)

  /** `d.get(key, default)` on an optional value. */
  function GetOr<T>(o: Option<T>, default: T): T
  {
    match o
    case Some(v) => v
    case None => default
  }

  /** Concatenation regrouped; stated once for every element type. */
  lemma AppendAssoc<T>(a: seq<T>, b: seq<T>, c: seq<T>)
    ensures a + (b + c) == (a + b) + c
  {
  }

  lemma AppendEmpty<T>(a: seq<T>)
    ensures a + [] == a
  {
  }

  /** Two maps with the same keys and the same value at every key are equal. */
  lemma MapExtensional<K, V>(a: map<K, V>, b: map<K, V>)
    requires a.Keys == b.Keys
    requires forall k | k in a :: a[k] == b[k]
    ensures a == b
  {
  }

  /** The concatenation of `f(x)` for every element `x` of `s` that passes `keep`, in order. */
  function ConcatMap<T, U>(s: seq<T>, keep: T -> bool, f: T -> seq<U>): seq<U>
  {
    if s == [] then []
    else if keep(s[|s| - 1]) then ConcatMap(s[..|s| - 1], keep, f) + f(s[|s| - 1])
    else ConcatMap(s[..|s| - 1], keep, f)
  }

  /** `ConcatMap` distributes over concatenation. */
  lemma {:induction false} ConcatMapAppend<T, U>(a: seq<T>, b: seq<T>, keep: T -> bool, f: T -> seq<U>)
    ensures ConcatMap(a + b, keep, f) == ConcatMap(a, keep, f) + ConcatMap(b, keep, f)
    decreases |b|
  {
    if b == [] {
      assert a + b == a;
    } else {
      var init := b[..|b| - 1];
      assert (a + b)[..|a + b| - 1] == a + init;
      assert (a + b)[|a + b| - 1] == b[|b| - 1];
      ConcatMapAppend(a, init, keep, f);
      if keep(b[|b| - 1]) {
        AppendAssoc(ConcatMap(a, keep, f), ConcatMap(init, keep, f), f(b[|b| - 1]));
      }
    }
  }

  /** An element of `ConcatMap(s, keep, f)` comes from some kept `x` of `s`, and every kept `x` contributes all of `f(x)`. */
  lemma {:induction false} ConcatMapMembers<T, U>(s: seq<T>, keep: T -> bool, f: T -> seq<U>, u: U)
    ensures u in ConcatMap(s, keep, f) <==> exists x | x in s :: keep(x) && u in f(x)
  {
    if s != [] {
      var init := s[..|s| - 1];
      var last := s[|s| - 1];
      ConcatMapMembers(init, keep, f, u);
      assert s == init + [last];
      if exists x | x in s :: keep(x) && u in f(x) {
        var x :| x in s && keep(x) && u in f(x);
        if x != last {
          assert x in init;
        }
      }
    }
  }

  /** Adding a fresh element to a set adds one to its intersection with `p` exactly when the element is in `p`. */
  lemma IntersectionGrows<T>(a: set<T>, x: T, p: set<T>)
    requires x !in a
    ensures |(a + {x}) * p| == |a * p| + if x in p then 1 else 0
  {
    if x in p {
      assert (a + {x}) * p == a * p + {x};
    } else {
      assert (a + {x}) * p == a * p;
    }
  }
}
