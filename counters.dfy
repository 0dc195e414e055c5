/**
 * Python's `defaultdict(int)` and `Counter`, as maps whose missing keys read as 0,
 * and the sum of a function over a finite set (what `sum(...)` over a set or a
 * dictionary computes, whatever order Python iterates it in).
 */
module Counters {

  /** Reading `m[k]` from a `defaultdict(int)`: a missing key reads as 0. */
  function Get<K>(m: map<K, int>, k: K): int
  {
    if k in m then m[k] else 0
  }

  /** `m[k] += q` on a `defaultdict(int)`: the key is created even when `q` is 0. */
  function Add<K(!new)>(m: map<K, int>, k: K, q: int): (r: map<K, int>)
    ensures r.Keys == m.Keys + {k}
    ensures Get(r, k) == Get(m, k) + q
    ensures forall j :: j != k ==> Get(r, j) == Get(m, j)
  {
    m[k := Get(m, k) + q]
  }

  /** Some element of a non-empty set (the order of a Python set's iteration is arbitrary). */
  ghost function Pick<T>(s: set<T>): (x: T)
    requires s != {}
    ensures x in s
  {
    var x :| x in s; x
  }

  /** The sum of `f` over the elements of `s`. */
  ghost function SumSet<T>(s: set<T>, f: T -> int): int
    decreases |s|
  {
    if s == {} then 0 else var x := Pick(s); f(x) + SumSet(s - {x}, f)
  }

  /** The sum does not depend on the element taken first. */
  lemma {:induction false} SumSetRemove<T>(s: set<T>, f: T -> int, y: T)
    requires y in s
    ensures SumSet(s, f) == f(y) + SumSet(s - {y}, f)
    decreases |s|
  {
    var x := Pick(s);
    if x != y {
      calc {
        SumSet(s, f);
        f(x) + SumSet(s - {x}, f);
        { SumSetRemove(s - {x}, f, y); }
        f(x) + f(y) + SumSet(s - {x} - {y}, f);
        { assert s - {x} - {y} == s - {y} - {x}; }
        f(y) + (f(x) + SumSet(s - {y} - {x}, f));
        { SumSetRemove(s - {y}, f, x); }
        f(y) + SumSet(s - {y}, f);
      }
    }
  }

  /** Adding an element that is not yet in the set adds its term. */
  lemma SumSetInsert<T>(s: set<T>, f: T -> int, y: T)
    requires y !in s
    ensures SumSet(s + {y}, f) == f(y) + SumSet(s, f)
  {
    SumSetRemove(s + {y}, f, y);
    assert s + {y} - {y} == s;
  }

  /** Two functions that agree on `s` have the same sum over `s`. */
  lemma {:induction false} SumSetExt<T>(s: set<T>, f: T -> int, g: T -> int)
    requires forall x :: x in s ==> f(x) == g(x)
    ensures SumSet(s, f) == SumSet(s, g)
    decreases |s|
  {
    if s != {} {
      var x := Pick(s);
      SumSetExt(s - {x}, f, g);
    }
  }

  /** A sum of zeros is zero. */
  lemma {:induction false} SumSetZero<T>(s: set<T>, f: T -> int)
    requires forall x :: x in s ==> f(x) == 0
    ensures SumSet(s, f) == 0
    decreases |s|
  {
    if s != {} {
      SumSetZero(s - {Pick(s)}, f);
    }
  }

  /** A sum of non-negative terms is non-negative. */
  lemma {:induction false} SumSetNonNegative<T>(s: set<T>, f: T -> int)
    requires forall x :: x in s ==> f(x) >= 0
    ensures SumSet(s, f) >= 0
    decreases |s|
  {
    if s != {} {
      SumSetNonNegative(s - {Pick(s)}, f);
    }
  }

  /** A `defaultdict(int)` seen as a function from keys to values. */
  function Lookup<K>(m: map<K, int>): K -> int
  {
    k => Get(m, k)
  }

  /** The sum of the values of a `Counter`. */
  ghost function Total<K>(m: map<K, int>): int
  {
    SumSet(m.Keys, Lookup(m))
  }

  /** `m[k] += q` adds `q` to the total. */
  lemma TotalAdd<K(!new)>(m: map<K, int>, k: K, q: int)
    ensures Total(Add(m, k, q)) == Total(m) + q
  {
    var r := Add(m, k, q);
    var f, g := Lookup(m), Lookup(r);
    if k in m {
      assert r.Keys == m.Keys;
      SumSetRemove(m.Keys, f, k);
      SumSetRemove(r.Keys, g, k);
      SumSetExt(m.Keys - {k}, f, g);
    } else {
      SumSetInsert(m.Keys, g, k);
      SumSetExt(m.Keys, f, g);
    }
  }

  /** Two maps with the same keys and the same values there are equal. */
  lemma MapExt<K, V>(m: map<K, V>, n: map<K, V>)
    requires m.Keys == n.Keys
    requires forall k :: k in m ==> m[k] == n[k]
    ensures m == n
  {
  }

  /** Taking one more element out of `remaining` adds it to what has been done. */
  lemma MoveOne<T>(all: set<T>, remaining: set<T>, x: T)
    requires x in remaining && remaining <= all
    ensures (all - remaining) + {x} == all - (remaining - {x})
  {
  }

  /** The union of `f` over the elements of `s`. */
  ghost function UnionSet<T, U>(s: set<T>, f: T -> set<U>): set<U>
    decreases |s|
  {
    if s == {} then {} else var x := Pick(s); f(x) + UnionSet(s - {x}, f)
  }

  /** The union does not depend on the element taken first. */
  lemma {:induction false} UnionSetRemove<T, U>(s: set<T>, f: T -> set<U>, y: T)
    requires y in s
    ensures UnionSet(s, f) == f(y) + UnionSet(s - {y}, f)
    decreases |s|
  {
    var x := Pick(s);
    if x != y {
      UnionSetRemove(s - {x}, f, y);
      UnionSetRemove(s - {y}, f, x);
      assert s - {x} - {y} == s - {y} - {x};
    }
  }

  /** Adding an element that is not yet in the set adds its part. */
  lemma UnionSetInsert<T, U>(s: set<T>, f: T -> set<U>, y: T)
    requires y !in s
    ensures UnionSet(s + {y}, f) == f(y) + UnionSet(s, f)
  {
    UnionSetRemove(s + {y}, f, y);
    assert s + {y} - {y} == s;
  }
}
