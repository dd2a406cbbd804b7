/** `Array.prototype.sort` with a numeric comparator `(a, b) => key(a) - key(b)`.
    The ECMAScript sort is stable, so its result is the unique sequence that is sorted by
    the key and keeps, for every key value, the input order of the elements carrying it
    (`SortedUnique`). `SortBy` is one such sort: a stable insertion sort. */
module Sorting {

  /** Non-decreasing by `key`. */
  predicate SortedBy<T>(s: seq<T>, key: T -> int) {
    forall i, j :: 0 <= i < j < |s| ==> key(s[i]) <= key(s[j])
  }

  /** The elements of `s` whose key is `k`, in their order in `s`. */
  function WithKey<T>(s: seq<T>, key: T -> int, k: int): seq<T> {
    if s == [] then [] else (if key(s[0]) == k then [s[0]] else []) + WithKey(s[1..], key, k)
  }

  lemma {:induction false} WithKeyMember<T>(s: seq<T>, key: T -> int, k: int, x: T)
    requires x in WithKey(s, key, k)
    ensures x in s && key(x) == k
  {
    if s != [] && !(key(s[0]) == k && x == s[0]) {
      WithKeyMember(s[1..], key, k, x);
    }
  }

  /** Inserts `x` before the first element whose key is not below `key(x)`. */
  function Insert<T>(x: T, s: seq<T>, key: T -> int): (r: seq<T>)
    ensures multiset(r) == multiset(s) + multiset{x}
  {
    if s == [] then [x]
    else if key(x) <= key(s[0]) then [x] + s
    else
      assert s == [s[0]] + s[1..];
      [s[0]] + Insert(x, s[1..], key)
  }

  lemma {:induction false} InsertSorted<T>(x: T, s: seq<T>, key: T -> int)
    requires SortedBy(s, key)
    ensures SortedBy(Insert(x, s, key), key)
  {
    if s != [] && key(x) > key(s[0]) {
      var t := Insert(x, s[1..], key);
      InsertSorted(x, s[1..], key);
      assert t[0] == x || t[0] == s[1..][0];
      assert key(s[0]) <= key(t[0]);
      var r := [s[0]] + t;
      assert Insert(x, s, key) == r;
      forall i, j | 0 <= i < j < |r| ensures key(r[i]) <= key(r[j]) {
        assert r[j] == t[j - 1];
        if i > 0 {
          assert r[i] == t[i - 1];
        } else {
          assert key(t[0]) <= key(t[j - 1]);
        }
      }
    }
  }

  /** The stable sort of `s` by `key`. */
  function SortBy<T>(s: seq<T>, key: T -> int): (r: seq<T>)
    ensures multiset(r) == multiset(s) && |r| == |s|
    ensures SortedBy(r, key)
  {
    if s == [] then []
    else
      assert s == [s[0]] + s[1..];
      InsertSorted(s[0], SortBy(s[1..], key), key);
      Insert(s[0], SortBy(s[1..], key), key)
  }

  /** `k`-elements of a sequence with one element in front. */
  lemma WithKeyCons<T>(y: T, s: seq<T>, key: T -> int, k: int)
    ensures WithKey([y] + s, key, k) == (if key(y) == k then [y] else []) + WithKey(s, key, k)
  {
    assert ([y] + s)[0] == y && ([y] + s)[1..] == s;
  }

  /** Two blocks of which one is empty may be swapped. */
  lemma SwapEmpty<T>(h: seq<T>, e: seq<T>, rest: seq<T>)
    requires h == [] || e == []
    ensures h + (e + rest) == e + (h + rest)
  {
    if h == [] {
      assert h + (e + rest) == e + rest && h + rest == rest;
    } else {
      assert e + (h + rest) == h + rest && e + rest == rest;
    }
  }

  /** One step of `InsertWithKey`: `x` travels past `s[0]`, whose key is smaller. */
  lemma InsertWithKeyStep<T>(x: T, s: seq<T>, key: T -> int, k: int)
    requires s != [] && key(x) > key(s[0])
    requires WithKey(Insert(x, s[1..], key), key, k)
             == (if key(x) == k then [x] else []) + WithKey(s[1..], key, k)
    ensures WithKey(Insert(x, s, key), key, k) == (if key(x) == k then [x] else []) + WithKey(s, key, k)
  {
    var t, rest := Insert(x, s[1..], key), WithKey(s[1..], key, k);
    var e: seq<T> := if key(x) == k then [x] else [];
    var h: seq<T> := if key(s[0]) == k then [s[0]] else [];
    assert Insert(x, s, key) == [s[0]] + t;
    WithKeyCons(s[0], t, key, k);
    assert WithKey(Insert(x, s, key), key, k) == h + (e + rest);
    assert WithKey(s, key, k) == h + rest;
    SwapEmpty(h, e, rest);
  }

  lemma {:induction false} InsertWithKey<T>(x: T, s: seq<T>, key: T -> int, k: int)
    ensures WithKey(Insert(x, s, key), key, k) == (if key(x) == k then [x] else []) + WithKey(s, key, k)
  {
    if s == [] || key(x) <= key(s[0]) {
      WithKeyCons(x, s, key, k);
    } else {
      InsertWithKey(x, s[1..], key, k);
      InsertWithKeyStep(x, s, key, k);
    }
  }

  /** Stability: the elements sharing a key keep their relative input order. */
  lemma {:induction false} SortByStable<T>(s: seq<T>, key: T -> int, k: int)
    ensures WithKey(SortBy(s, key), key, k) == WithKey(s, key, k)
  {
    if s != [] {
      SortByStable(s[1..], key, k);
      InsertWithKey(s[0], SortBy(s[1..], key), key, k);
    }
  }

  /** The head of a sorted sequence has the smallest key. */
  lemma SortedHead<T>(s: seq<T>, key: T -> int, x: T)
    requires SortedBy(s, key) && x in s
    ensures key(s[0]) <= key(x)
  {
    var i :| 0 <= i < |s| && s[i] == x;
    if i > 0 {
      assert key(s[0]) <= key(s[i]);
    }
  }

  lemma SortedTail<T>(s: seq<T>, key: T -> int)
    requires SortedBy(s, key) && s != []
    ensures SortedBy(s[1..], key)
  {
    forall i, j | 0 <= i < j < |s| - 1 ensures key(s[1..][i]) <= key(s[1..][j]) {
      assert s[1..][i] == s[i + 1] && s[1..][j] == s[j + 1];
    }
  }

  /** Two sequences, both sorted by `key`, that agree on the order of every key class are
      equal: a stable sort has exactly one possible result. */
  lemma {:induction false} SortedUnique<T>(a: seq<T>, b: seq<T>, key: T -> int)
    requires SortedBy(a, key) && SortedBy(b, key)
    requires forall k :: WithKey(a, key, k) == WithKey(b, key, k)
    ensures a == b
  {
    if a != [] {
      assert WithKey(a, key, key(a[0])) == [a[0]] + WithKey(a[1..], key, key(a[0]));
      WithKeyMember(b, key, key(a[0]), a[0]);
    }
    if b != [] {
      assert WithKey(b, key, key(b[0])) == [b[0]] + WithKey(b[1..], key, key(b[0]));
      WithKeyMember(a, key, key(b[0]), b[0]);
    }
    if a != [] {
      var ka := key(a[0]);
      SortedHead(b, key, a[0]);
      SortedHead(a, key, b[0]);
      assert key(b[0]) == ka;
      assert WithKey(a, key, ka)[0] == a[0] && WithKey(b, key, ka)[0] == b[0];
      forall k ensures WithKey(a[1..], key, k) == WithKey(b[1..], key, k) {
        var wa, wb := WithKey(a[1..], key, k), WithKey(b[1..], key, k);
        if k == ka {
          assert WithKey(a, key, k) == [a[0]] + wa && WithKey(b, key, k) == [b[0]] + wb;
          assert wa == ([a[0]] + wa)[1..] && wb == ([b[0]] + wb)[1..];
        } else {
          assert WithKey(a, key, k) == wa && WithKey(b, key, k) == wb;
        }
      }
      SortedTail(a, key);
      SortedTail(b, key);
      SortedUnique(a[1..], b[1..], key);
      assert a == [a[0]] + a[1..] && b == [b[0]] + b[1..];
    }
  }

  /** Any sequence that is sorted by `key` and keeps the input order within each key class
      is `SortBy(s, key)`. */
  lemma StableSortIsSortBy<T>(s: seq<T>, r: seq<T>, key: T -> int)
    requires SortedBy(r, key)
    requires forall k :: WithKey(r, key, k) == WithKey(s, key, k)
    ensures r == SortBy(s, key)
  {
    forall k ensures WithKey(r, key, k) == WithKey(SortBy(s, key), key, k) {
      SortByStable(s, key, k);
    }
    SortedUnique(r, SortBy(s, key), key);
  }
}
