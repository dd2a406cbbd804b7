/** Sequences used as ordered sets: a JavaScript `Map`'s key order and a `Set`'s
    insertion order. */
module Seqs {

  predicate Distinct<T(==)>(s: seq<T>) {
    forall i, j :: 0 <= i < j < |s| ==> s[i] != s[j]
  }

  /** `set.delete(x)` / `map.delete(x)` on the insertion order. */
  function Remove<T(==,!new)>(s: seq<T>, x: T): (r: seq<T>)
    ensures forall y :: y in r <==> y in s && y != x
    ensures |r| <= |s|
  {
    if s == [] then [] else (if s[0] == x then [] else [s[0]]) + Remove(s[1..], x)
  }

  lemma {:induction false} RemoveDistinct<T(!new)>(s: seq<T>, x: T)
    requires Distinct(s)
    ensures Distinct(Remove(s, x))
  {
    if s != [] {
      assert Distinct(s[1..]) by {
        forall i, j | 0 <= i < j < |s[1..]| ensures s[1..][i] != s[1..][j] {
          assert s[1..][i] == s[i + 1] && s[1..][j] == s[j + 1];
        }
      }
      RemoveDistinct(s[1..], x);
      var t := Remove(s[1..], x);
      if s[0] != x {
        assert s[0] !in s[1..] by {
          forall k | 0 <= k < |s[1..]| ensures s[1..][k] != s[0] {
            assert s[1..][k] == s[k + 1];
          }
        }
        assert s[0] !in t;
        var r := [s[0]] + t;
        forall i, j | 0 <= i < j < |r| ensures r[i] != r[j] {
          if i == 0 {
            assert r[j] == t[j - 1] && r[j] in t;
          } else {
            assert r[i] == t[i - 1] && r[j] == t[j - 1];
          }
        }
      } else {
        assert Remove(s, x) == t;
      }
    }
  }

  /** The key order after `map.set(x, …)`: a new key goes last, an existing key keeps its
      place. */
  function Upsert<T(==,!new)>(s: seq<T>, x: T): (r: seq<T>)
    ensures forall y :: y in r <==> y in s || y == x
    ensures Distinct(s) ==> Distinct(r)
  {
    if x in s then s else s + [x]
  }

  /** `xs.flatMap(f)`, or a loop pushing `...f(x)` for every `x` in turn. */
  function Flatten<S, T>(xs: seq<S>, f: S -> seq<T>): seq<T> {
    if xs == [] then [] else f(xs[0]) + Flatten(xs[1..], f)
  }

  lemma {:induction false} FlattenAppend<S, T>(xs: seq<S>, ys: seq<S>, f: S -> seq<T>)
    ensures Flatten(xs + ys, f) == Flatten(xs, f) + Flatten(ys, f)
  {
    if xs == [] {
      assert xs + ys == ys;
    } else {
      assert (xs + ys)[1..] == xs[1..] + ys;
      FlattenAppend(xs[1..], ys, f);
    }
  }

  /** Appending two elements one at a time appends the pair. */
  lemma AppendPair<T>(s: seq<T>, a: T, b: T)
    ensures s + [a] + [b] == s + [a, b]
    ensures [a] + [b] == [a, b]
  {
  }

  /** Membership in a non-empty sequence: in its front or its last element. */
  lemma InFront<T>(xs: seq<T>, x: T)
    requires xs != []
    ensures x in xs <==> x in xs[..|xs| - 1] || x == xs[|xs| - 1]
  {
    assert xs == xs[..|xs| - 1] + [xs[|xs| - 1]];
  }

  /** Concatenation is associative: a step the proofs about logs and filters name
      where the solver does not regroup a concatenation by itself. */
  lemma Assoc<T>(a: seq<T>, b: seq<T>, c: seq<T>)
    ensures (a + b) + c == a + (b + c)
  {
  }

  /** One more step of a loop that appends `f(xs[i])` for every `xs[i]` in turn. */
  lemma FlattenAt<S, T>(xs: seq<S>, i: nat, f: S -> seq<T>)
    requires i < |xs|
    ensures Flatten(xs[..i + 1], f) == Flatten(xs[..i], f) + f(xs[i])
  {
    FlattenAppend(xs[..i], [xs[i]], f);
    assert xs[..i + 1] == xs[..i] + [xs[i]];
    assert [xs[i]][1..] == [];
  }

  /** An element of the flattening comes from some input, and every element of every
      input's image is in it. */
  lemma {:induction false} FlattenMember<S, T>(xs: seq<S>, f: S -> seq<T>, y: T)
    ensures y in Flatten(xs, f) <==> exists i :: 0 <= i < |xs| && y in f(xs[i])
  {
    if xs != [] {
      FlattenMember(xs[1..], f, y);
      if y in Flatten(xs[1..], f) {
        var i :| 0 <= i < |xs[1..]| && y in f(xs[1..][i]);
        assert xs[1..][i] == xs[i + 1];
      }
      if exists i :: 0 <= i < |xs| && y in f(xs[i]) {
        var i :| 0 <= i < |xs| && y in f(xs[i]);
        if i > 0 {
          assert xs[1..][i - 1] == xs[i];
        }
      }
    }
  }

  /** `xs.filter(p)`. */
  function Filter<T(!new)>(xs: seq<T>, p: T -> bool): (r: seq<T>)
    ensures |r| <= |xs|
    ensures forall x :: x in r <==> x in xs && p(x)
  {
    if xs == [] then [] else (if p(xs[0]) then [xs[0]] else []) + Filter(xs[1..], p)
  }

  /** `a` is `b` with some elements left out, the rest in their order. */
  predicate IsSubsequence<T(==)>(a: seq<T>, b: seq<T>)
    decreases |b|
  {
    a == [] || (b != [] && ((a[0] == b[0] && IsSubsequence(a[1..], b[1..])) || IsSubsequence(a, b[1..])))
  }

  lemma {:induction false} FilterSubsequence<T(!new)>(xs: seq<T>, p: T -> bool)
    ensures IsSubsequence(Filter(xs, p), xs)
  {
    if xs != [] {
      FilterSubsequence(xs[1..], p);
      var a := Filter(xs, p);
      if p(xs[0]) {
        assert a == [xs[0]] + Filter(xs[1..], p);
        assert a[0] == xs[0] && a[1..] == Filter(xs[1..], p);
      } else {
        assert a == Filter(xs[1..], p);
      }
    }
  }

  /** Filtering one more element at the end. */
  lemma {:induction false} FilterSnoc<T(!new)>(xs: seq<T>, x: T, p: T -> bool)
    ensures Filter(xs + [x], p) == Filter(xs, p) + (if p(x) then [x] else [])
  {
    if xs == [] {
      assert xs + [x] == [x] && [x][1..] == [];
    } else {
      assert (xs + [x])[0] == xs[0] && (xs + [x])[1..] == xs[1..] + [x];
      FilterSnoc(xs[1..], x, p);
    }
  }

  /** One more step of a loop that keeps the elements `p` accepts. */
  lemma FilterAt<T(!new)>(xs: seq<T>, i: nat, p: T -> bool)
    requires i < |xs|
    ensures Filter(xs[..i + 1], p) == Filter(xs[..i], p) + (if p(xs[i]) then [xs[i]] else [])
  {
    assert xs[..i + 1] == xs[..i] + [xs[i]];
    FilterSnoc(xs[..i], xs[i], p);
  }

  /** A filter keeps every copy of an element it accepts and none of one it rejects. */
  lemma {:induction false} FilterMultiset<T(!new)>(xs: seq<T>, p: T -> bool)
    ensures forall x :: multiset(Filter(xs, p))[x] == if p(x) then multiset(xs)[x] else 0
  {
    if xs != [] {
      FilterMultiset(xs[1..], p);
      assert xs == [xs[0]] + xs[1..];
      assert Filter(xs, p) == (if p(xs[0]) then [xs[0]] else []) + Filter(xs[1..], p);
    }
  }

  /** A filter keeping every element is the identity. */
  lemma {:induction false} FilterAll<T(!new)>(xs: seq<T>, p: T -> bool)
    requires forall i :: 0 <= i < |xs| ==> p(xs[i])
    ensures Filter(xs, p) == xs
  {
    if xs != [] {
      assert forall i :: 0 <= i < |xs[1..]| ==> xs[1..][i] == xs[i + 1];
      FilterAll(xs[1..], p);
    }
  }

  /** A filter keeping no element gives the empty sequence. */
  lemma {:induction false} FilterNone<T(!new)>(xs: seq<T>, p: T -> bool)
    requires forall i :: 0 <= i < |xs| ==> !p(xs[i])
    ensures Filter(xs, p) == []
  {
    if xs != [] {
      assert forall i :: 0 <= i < |xs[1..]| ==> xs[1..][i] == xs[i + 1];
      FilterNone(xs[1..], p);
    }
  }

  lemma {:induction false} SubsequenceSkip<T>(c: seq<T>, e: seq<T>, d: seq<T>)
    requires IsSubsequence(c, d)
    ensures IsSubsequence(c, e + d)
    decreases |e|
  {
    if e != [] {
      assert (e + d)[1..] == e[1..] + d;
      SubsequenceSkip(c, e[1..], d);
    } else {
      assert e + d == d;
    }
  }

  /** Subsequences of two sequences concatenate to a subsequence of their concatenation. */
  lemma {:induction false} SubsequenceAppend<T>(a: seq<T>, b: seq<T>, c: seq<T>, d: seq<T>)
    requires IsSubsequence(a, b) && IsSubsequence(c, d)
    ensures IsSubsequence(a + c, b + d)
    decreases |b|
  {
    if b == [] {
      assert a + c == c && b + d == d;
    } else if a == [] {
      assert a + c == c;
      SubsequenceSkip(c, b, d);
    } else {
      assert (b + d)[1..] == b[1..] + d && (b + d)[0] == b[0];
      assert (a + c)[1..] == a[1..] + c && (a + c)[0] == a[0];
      if a[0] == b[0] && IsSubsequence(a[1..], b[1..]) {
        SubsequenceAppend(a[1..], b[1..], c, d);
      } else {
        SubsequenceAppend(a, b[1..], c, d);
      }
    }
  }

  /** A record filled by `record[k] = v` for each pair in turn: the last write to a key wins. */
  function Assign<K(!new), V>(kvs: seq<(K, V)>): (r: map<K, V>)
    ensures forall k :: k in r <==> exists i :: 0 <= i < |kvs| && kvs[i].0 == k
    decreases |kvs|
  {
    if kvs == [] then map[]
    else
      var r := Assign(kvs[..|kvs| - 1]);
      assert forall i :: 0 <= i < |kvs| - 1 ==> kvs[..|kvs| - 1][i] == kvs[i];
      r[kvs[|kvs| - 1].0 := kvs[|kvs| - 1].1]
  }

  /** The record's key order: where each key was first written. */
  function KeyOrder<K(==,!new), V>(kvs: seq<(K, V)>): (r: seq<K>)
    ensures Distinct(r)
    ensures forall k :: k in r <==> k in Assign(kvs)
    decreases |kvs|
  {
    if kvs == [] then [] else Upsert(KeyOrder(kvs[..|kvs| - 1]), kvs[|kvs| - 1].0)
  }

  /** `kvs[i]` writes `v` to `k`, and no later pair writes `k`. */
  predicate LastWrite<K(==), V(==)>(kvs: seq<(K, V)>, i: nat, k: K, v: V) {
    i < |kvs| && kvs[i] == (k, v) && forall j :: i < j < |kvs| ==> kvs[j].0 != k
  }

  /** A key holds the value of its last write. */
  lemma {:induction false} AssignLast<K(!new), V>(kvs: seq<(K, V)>, k: K)
    requires k in Assign(kvs)
    ensures exists i :: LastWrite(kvs, i, k, Assign(kvs)[k])
    decreases |kvs|
  {
    var n := |kvs| - 1;
    var before := kvs[..n];
    if kvs[n].0 != k {
      assert Assign(kvs)[k] == Assign(before)[k];
      AssignLast(before, k);
      var i: nat :| LastWrite(before, i, k, Assign(before)[k]);
      assert kvs[i] == before[i];
      assert forall j :: i < j < n ==> kvs[j] == before[j];
      assert LastWrite(kvs, i, k, Assign(kvs)[k]);
    } else {
      assert LastWrite(kvs, n, k, Assign(kvs)[k]);
    }
  }
  /** One more write to the record: its step on the map and on the key order. */
  lemma AssignStep<K(!new), V>(kvs: seq<(K, V)>, n: nat)
    requires n < |kvs|
    ensures Assign(kvs[..n + 1]) == Assign(kvs[..n])[kvs[n].0 := kvs[n].1]
    ensures KeyOrder(kvs[..n + 1]) == Upsert(KeyOrder(kvs[..n]), kvs[n].0)
  {
    assert kvs[..n + 1][..n] == kvs[..n];
  }
}
