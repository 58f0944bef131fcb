/**
 * `Array.prototype.sort` with a comparator, as the loaders use it.
 *
 * The sort is stable, and it reads a comparator result that is not a
 * number (NaN) as 0. For a comparator that orders the elements
 * consistently, by some integer key, every stable sort gives the same
 * result; insertion sort is the one modelled here.
 */
module Sorting {

  /** Insertion of `x` into `t`: it goes after the last element not greater than it. */
  function Insert<T>(x: T, t: seq<T>, cmp: (T, T) -> int): (r: seq<T>)
    ensures multiset(r) == multiset(t) + multiset{x}
  {
    if t == [] then [x]
    else if cmp(t[|t| - 1], x) > 0 then
      assert t == t[..|t| - 1] + [t[|t| - 1]];
      Insert(x, t[..|t| - 1], cmp) + [t[|t| - 1]]
    else t + [x]
  }

  /** The elements in the order the comparator gives them; a permutation of `s`. */
  function SortWith<T>(s: seq<T>, cmp: (T, T) -> int): (r: seq<T>)
    ensures multiset(r) == multiset(s)
  {
    if s == [] then []
    else
      assert s == s[..|s| - 1] + [s[|s| - 1]];
      Insert(s[|s| - 1], SortWith(s[..|s| - 1], cmp), cmp)
  }

  /** `cmp` puts `a` after `b` exactly when `a` has the greater key, for all elements of `s`. */
  ghost predicate PutsAfterBy<T>(s: seq<T>, cmp: (T, T) -> int, key: T -> int) {
    forall a, b :: a in s && b in s ==> (cmp(a, b) > 0 <==> key(a) > key(b))
  }

  /**
   * `cmp` is a consistent comparator on `s`, ordering it by `key`: positive
   * exactly when `a` has the greater key, negative exactly when it has the
   * smaller one, and so zero exactly for equal keys.
   */
  ghost predicate OrdersBy<T>(s: seq<T>, cmp: (T, T) -> int, key: T -> int) {
    && PutsAfterBy(s, cmp, key)
    && forall a, b :: a in s && b in s ==> (cmp(a, b) < 0 <==> key(a) < key(b))
  }

  predicate SortedBy<T>(s: seq<T>, key: T -> int) {
    forall i, j :: 0 <= i < j < |s| ==> key(s[i]) <= key(s[j])
  }

  /** The elements of `s` whose key is `v`, in their order in `s`. */
  function WithKey<T>(s: seq<T>, key: T -> int, v: int): (r: seq<T>)
    ensures |r| <= |s|
  {
    if s == [] then []
    else WithKey(s[..|s| - 1], key, v) + (if key(s[|s| - 1]) == v then [s[|s| - 1]] else [])
  }

  lemma PutsAfterBySub<T>(s: seq<T>, t: seq<T>, cmp: (T, T) -> int, key: T -> int)
    requires PutsAfterBy(s, cmp, key)
    requires forall a :: a in t ==> a in s
    ensures PutsAfterBy(t, cmp, key)
  {
  }

  lemma WithKeySnoc<T>(s: seq<T>, x: T, key: T -> int, v: int)
    ensures WithKey(s + [x], key, v) == WithKey(s, key, v) + (if key(x) == v then [x] else [])
  {
    assert (s + [x])[..|s|] == s;
  }

  /** The elements of an insertion are those inserted into and the one inserted. */
  lemma InsertMembers<T>(x: T, t: seq<T>, cmp: (T, T) -> int)
    ensures forall a :: a in Insert(x, t, cmp) <==> a in t || a == x
  {
    var r := Insert(x, t, cmp);
    forall a ensures a in r <==> a in t || a == x {
      assert a in r <==> a in multiset(r);
      assert a in t <==> a in multiset(t);
    }
  }

  /** A bound on the keys of `t` and of `x` bounds the keys of the insertion. */
  lemma InsertBounded<T>(x: T, t: seq<T>, cmp: (T, T) -> int, key: T -> int, bound: int)
    requires forall a :: a in t ==> key(a) <= bound
    requires key(x) <= bound
    ensures forall a :: a in Insert(x, t, cmp) ==> key(a) <= bound
  {
    InsertMembers(x, t, cmp);
  }

  /** In a sorted sequence no element before the last has a greater key. */
  lemma SortedUpToLast<T>(t: seq<T>, key: T -> int)
    requires t != [] && SortedBy(t, key)
    ensures forall a :: a in t[..|t| - 1] ==> key(a) <= key(t[|t| - 1])
  {
    forall a | a in t[..|t| - 1] ensures key(a) <= key(t[|t| - 1]) {
      var k :| 0 <= k < |t| - 1 && t[..|t| - 1][k] == a;
      assert t[k] == a;
    }
  }

  /** Appending an element whose key is at least every other key keeps a sequence sorted. */
  lemma SnocSorted<T>(u: seq<T>, y: T, key: T -> int)
    requires SortedBy(u, key)
    requires forall a :: a in u ==> key(a) <= key(y)
    ensures SortedBy(u + [y], key)
  {
    var r := u + [y];
    forall i, j | 0 <= i < j < |r| ensures key(r[i]) <= key(r[j]) {
      assert r[i] == u[i];
      if j < |u| {
        assert r[j] == u[j];
      }
    }
  }

  /** Inserting into a sorted sequence keeps it sorted. */
  lemma {:induction false} InsertSorted<T>(x: T, t: seq<T>, cmp: (T, T) -> int, key: T -> int)
    requires SortedBy(t, key) && PutsAfterBy(t + [x], cmp, key)
    ensures SortedBy(Insert(x, t, cmp), key)
    decreases |t|
  {
    if t != [] {
      var init, last := t[..|t| - 1], t[|t| - 1];
      assert last in t + [x] && x in t + [x];
      SortedUpToLast(t, key);
      if cmp(last, x) > 0 {
        assert SortedBy(init, key);
        PutsAfterBySub(t + [x], init + [x], cmp, key);
        InsertSorted(x, init, cmp, key);
        assert key(x) < key(last);
        InsertBounded(x, init, cmp, key, key(last));
        SnocSorted(Insert(x, init, cmp), last, key);
      } else {
        SnocSorted(t, x, key);
      }
    }
  }

  /** Inserting keeps the elements of each key in order: the inserted one comes after those already there. */
  lemma {:induction false} InsertStable<T>(x: T, t: seq<T>, cmp: (T, T) -> int, key: T -> int, v: int)
    requires PutsAfterBy(t + [x], cmp, key)
    ensures WithKey(Insert(x, t, cmp), key, v) == WithKey(t + [x], key, v)
    decreases |t|
  {
    if t != [] {
      var init, last := t[..|t| - 1], t[|t| - 1];
      assert last in t + [x] && x in t + [x];
      if cmp(last, x) > 0 {
        assert key(x) < key(last);
        PutsAfterBySub(t + [x], init + [x], cmp, key);
        InsertStable(x, init, cmp, key, v);
        var u := Insert(x, init, cmp);
        var xs := if key(x) == v then [x] else [];
        var ls := if key(last) == v then [last] else [];
        WithKeySnoc(u, last, key, v);
        WithKeySnoc(init, x, key, v);
        WithKeySnoc(t, x, key, v);
        assert WithKey(t, key, v) == WithKey(init, key, v) + ls;
        SwapDisjoint(WithKey(init, key, v), xs, ls);
      } else {
        WithKeySnoc(t, x, key, v);
      }
    }
  }

  lemma SwapDisjoint<T>(w: seq<T>, a: seq<T>, b: seq<T>)
    requires a == [] || b == []
    ensures w + a + b == w + b + a
  {
    if a == [] {
      assert w + a == w && w + b + a == w + b;
    } else {
      assert w + b == w && w + a + b == w + a;
    }
  }

  /** With a comparator that orders by `key`, the result is sorted by `key`, and elements with equal keys keep their input order. */
  lemma {:induction false} SortWithSorted<T>(s: seq<T>, cmp: (T, T) -> int, key: T -> int)
    requires PutsAfterBy(s, cmp, key)
    ensures SortedBy(SortWith(s, cmp), key)
    ensures forall v :: WithKey(SortWith(s, cmp), key, v) == WithKey(s, key, v)
    decreases |s|
  {
    if s != [] {
      var init, last := s[..|s| - 1], s[|s| - 1];
      PutsAfterBySub(s, init, cmp, key);
      SortWithSorted(init, cmp, key);
      var t := SortWith(init, cmp);
      assert forall a :: a in t + [last] ==> a in s by {
        forall a | a in t + [last] ensures a in s {
          if a != last {
            assert a in multiset(t);
          }
        }
      }
      PutsAfterBySub(s, t + [last], cmp, key);
      InsertSorted(last, t, cmp, key);
      forall v ensures WithKey(SortWith(s, cmp), key, v) == WithKey(s, key, v) {
        InsertStable(last, t, cmp, key, v);
        WithKeySnoc(t, last, key, v);
      }
    }
  }

  /** Sorted, a permutation, and stable: what the sort promises under a consistent comparator. */
  lemma SortWithSpec<T>(s: seq<T>, cmp: (T, T) -> int, key: T -> int)
    requires OrdersBy(s, cmp, key)
    ensures var r := SortWith(s, cmp);
      multiset(r) == multiset(s) && SortedBy(r, key)
      && forall v :: WithKey(r, key, v) == WithKey(s, key, v)
  {
    SortWithSorted(s, cmp, key);
  }

  /** Every element has its own key: the elements with key `key(x)` are all there is. */
  lemma {:induction false} WithKeyConstant<T>(s: seq<T>, key: T -> int, v: int)
    requires forall a :: a in s ==> key(a) == v
    ensures WithKey(s, key, v) == s
    decreases |s|
  {
    if s != [] {
      assert s[|s| - 1] in s;
      WithKeyConstant(s[..|s| - 1], key, v);
      assert s == s[..|s| - 1] + [s[|s| - 1]];
    }
  }

  /** A comparator that finds every two elements equal leaves the order as it is. */
  lemma SortWithAllEqual<T>(s: seq<T>, cmp: (T, T) -> int)
    requires forall a, b :: a in s && b in s ==> cmp(a, b) == 0
    ensures SortWith(s, cmp) == s
  {
    var key: T -> int := _ => 0;
    SortWithSorted(s, cmp, key);
    var r := SortWith(s, cmp);
    forall a | a in r ensures key(a) == 0 {
    }
    WithKeyConstant(s, key, 0);
    WithKeyConstant(r, key, 0);
  }
}
