/** The ordering the queries sort their results by, and a stable sort
    (JavaScript's `Array.prototype.sort` is stable) that the results are
    built with. */
module Sorting {
  import opened Text

  /** Sort key: ascending `rank` first, then ascending `name`. Configurations
      rank every entry equally; presets rank by negated priority so that the
      higher priority comes first. */
  datatype SortKey = SortKey(rank: int, name: string)

  predicate KeyLe(a: SortKey, b: SortKey) {
    a.rank < b.rank || (a.rank == b.rank && StrLe(a.name, b.name))
  }

  /** `a` sorts strictly before `b`. */
  predicate KeyLt(a: SortKey, b: SortKey) {
    KeyLe(a, b) && a != b
  }

  lemma KeyLeTotal(a: SortKey, b: SortKey)
    ensures KeyLe(a, b) || KeyLe(b, a)
  {
    StrLeTotal(a.name, b.name);
  }

  lemma KeyLeAntisymmetric(a: SortKey, b: SortKey)
    requires KeyLe(a, b) && KeyLe(b, a)
    ensures a == b
  {
    if a.rank == b.rank {
      StrLeAntisymmetric(a.name, b.name);
    }
  }

  lemma KeyLeTransitive(a: SortKey, b: SortKey, c: SortKey)
    requires KeyLe(a, b) && KeyLe(b, c)
    ensures KeyLe(a, c)
  {
    if a.rank == b.rank == c.rank {
      StrLeTransitive(a.name, b.name, c.name);
    }
  }

  /** `s` is in ascending order of `key`. */
  ghost predicate SortedBy<T>(s: seq<T>, key: T -> SortKey) {
    forall i, j :: 0 <= i < j < |s| ==> KeyLe(key(s[i]), key(s[j]))
  }

  /** The entries of `s` whose key is `k`, in their order in `s`; a sort is
      stable when it keeps this subsequence for every key. */
  function WithKey<T>(s: seq<T>, key: T -> SortKey, k: SortKey): (r: seq<T>)
    ensures |r| <= |s|
    ensures forall x :: x in r ==> x in s && key(x) == k
  {
    if s == [] then []
    else (if key(s[0]) == k then [s[0]] else []) + WithKey(s[1..], key, k)
  }

  lemma {:induction false} WithKeyAppend<T>(a: seq<T>, b: seq<T>, key: T -> SortKey, k: SortKey)
    ensures WithKey(a + b, key, k) == WithKey(a, key, k) + WithKey(b, key, k)
    decreases |a|
  {
    if a != [] {
      var head := if key(a[0]) == k then [a[0]] else [];
      assert (a + b)[0] == a[0];
      assert (a + b)[1..] == a[1..] + b;
      WithKeyAppend(a[1..], b, key, k);
      calc {
        WithKey(a + b, key, k);
        head + WithKey(a[1..] + b, key, k);
        head + (WithKey(a[1..], key, k) + WithKey(b, key, k));
        (head + WithKey(a[1..], key, k)) + WithKey(b, key, k);
        WithKey(a, key, k) + WithKey(b, key, k);
      }
    } else {
      assert a + b == b;
    }
  }

  /** Every entry of `s` sorts strictly after `k`, so none has key `k`. */
  lemma {:induction false} WithKeyAbsent<T>(s: seq<T>, key: T -> SortKey, k: SortKey)
    requires forall y :: y in s ==> KeyLt(k, key(y))
    ensures WithKey(s, key, k) == []
    decreases |s|
  {
    if s != [] {
      WithKeyAbsent(s[1..], key, k);
    }
  }

  /** Inserts `x` after every entry whose key does not sort strictly after its own. */
  function InsertBy<T>(x: T, s: seq<T>, key: T -> SortKey): (r: seq<T>)
    ensures |r| == |s| + 1
  {
    if s == [] then [x]
    else if KeyLt(key(x), key(s[0])) then [x] + s
    else [s[0]] + InsertBy(x, s[1..], key)
  }

  lemma {:induction false} InsertByMultiset<T>(x: T, s: seq<T>, key: T -> SortKey)
    ensures multiset(InsertBy(x, s, key)) == multiset(s) + multiset{x}
    decreases |s|
  {
    if s != [] && !KeyLt(key(x), key(s[0])) {
      InsertByMultiset(x, s[1..], key);
      assert s == [s[0]] + s[1..];
    }
  }

  lemma {:induction false} InsertBySorted<T>(x: T, s: seq<T>, key: T -> SortKey)
    requires SortedBy(s, key)
    ensures SortedBy(InsertBy(x, s, key), key)
    decreases |s|
  {
    var r := InsertBy(x, s, key);
    if s == [] {
    } else if KeyLt(key(x), key(s[0])) {
      forall i, j | 0 <= i < j < |r| ensures KeyLe(key(r[i]), key(r[j])) {
        if i == 0 && j > 1 {
          assert r[j] == s[j - 1];
          KeyLeTransitive(key(x), key(s[0]), key(r[j]));
        }
      }
    } else {
      var t := InsertBy(x, s[1..], key);
      InsertBySorted(x, s[1..], key);
      InsertByMultiset(x, s[1..], key);
      KeyLeTotal(key(x), key(s[0]));
      forall j | 0 <= j < |t| ensures KeyLe(key(s[0]), key(t[j])) {
        assert t[j] in multiset(t);
        if t[j] != x {
          assert t[j] in s[1..];
          var m :| 0 <= m < |s[1..]| && s[1..][m] == t[j];
          assert s[m + 1] == t[j];
        }
      }
      assert r == [s[0]] + t;
    }
  }

  /** Inserting keeps, for every key, the entries with that key in their old
      order and puts `x` last among those sharing its key. */
  lemma {:induction false} InsertByStable<T>(x: T, s: seq<T>, key: T -> SortKey, k: SortKey)
    requires SortedBy(s, key)
    ensures WithKey(InsertBy(x, s, key), key, k)
         == WithKey(s, key, k) + WithKey([x], key, k)
    decreases |s|
  {
    if s == [] {
    } else if KeyLt(key(x), key(s[0])) {
      InsertFrontStable(x, s, key, k);
    } else {
      InsertByStable(x, s[1..], key, k);
      assert InsertBy(x, s, key) == [s[0]] + InsertBy(x, s[1..], key);
      WithKeyAppend([s[0]], InsertBy(x, s[1..], key), key, k);
      assert s == [s[0]] + s[1..];
      WithKeyAppend([s[0]], s[1..], key, k);
    }
  }

  /** The case of `InsertByStable` where `x` goes in front: nothing in `s`
      shares its key. */
  lemma InsertFrontStable<T>(x: T, s: seq<T>, key: T -> SortKey, k: SortKey)
    requires SortedBy(s, key)
    requires s != [] && KeyLt(key(x), key(s[0]))
    ensures WithKey([x] + s, key, k) == WithKey(s, key, k) + WithKey([x], key, k)
  {
    WithKeyAppend([x], s, key, k);
    if key(x) == k {
      forall y | y in s ensures KeyLt(k, key(y)) {
        var m :| 0 <= m < |s| && s[m] == y;
        if m > 0 {
          KeyLeTransitive(key(x), key(s[0]), key(y));
          if k == key(y) {
            KeyLeAntisymmetric(key(x), key(s[0]));
          }
        }
      }
      WithKeyAbsent(s, key, k);
    }
  }

  /** No entry occurs twice. */
  ghost predicate Distinct<T>(s: seq<T>) {
    forall i, j :: 0 <= i < j < |s| ==> s[i] != s[j]
  }

  lemma {:induction false} InsertByDistinct<T>(x: T, s: seq<T>, key: T -> SortKey)
    requires Distinct(s) && x !in s
    ensures Distinct(InsertBy(x, s, key))
    decreases |s|
  {
    if s != [] && !KeyLt(key(x), key(s[0])) {
      var t := InsertBy(x, s[1..], key);
      InsertByDistinct(x, s[1..], key);
      InsertByMultiset(x, s[1..], key);
      assert s[0] !in multiset(t) by {
        assert s[0] !in s[1..];
      }
      forall i, j | 0 <= i < j < |t| + 1 ensures ([s[0]] + t)[i] != ([s[0]] + t)[j] {
        if i == 0 {
          assert t[j - 1] in multiset(t);
        }
      }
    }
  }

  /** Insertion sort of `s` by `key`: the result is ordered, holds exactly the
      entries of `s`, and entries with equal keys keep their relative order. */
  method SortBy<T>(s: seq<T>, key: T -> SortKey) returns (r: seq<T>)
    ensures SortedBy(r, key)
    ensures multiset(r) == multiset(s)
    ensures forall k :: WithKey(r, key, k) == WithKey(s, key, k)
  {
    r := [];
    for i := 0 to |s|
      invariant SortedBy(r, key)
      invariant multiset(r) == multiset(s[..i])
      invariant forall k :: WithKey(r, key, k) == WithKey(s[..i], key, k)
    {
      assert s[..i + 1] == s[..i] + [s[i]];
      InsertBySorted(s[i], r, key);
      InsertByMultiset(s[i], r, key);
      forall k ensures WithKey(InsertBy(s[i], r, key), key, k) == WithKey(s[..i + 1], key, k) {
        InsertByStable(s[i], r, key, k);
        WithKeyAppend(s[..i], [s[i]], key, k);
      }
      r := InsertBy(s[i], r, key);
    }
    assert s[..|s|] == s;
  }
}
