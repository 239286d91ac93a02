/** Keep-first de-duplication of a sequence by a key: what the de-duplication
    loop of the search and pandas' drop_duplicates both do. */
module Seqs {

  /** The keys of the elements of s. */
  function KeySet<T, K>(s: seq<T>, key: T -> K): set<K> {
    set i | 0 <= i < |s| :: key(s[i])
  }

  lemma KeySetCons<T, K>(s: seq<T>, key: T -> K)
    requires s != []
    ensures KeySet(s, key) == {key(s[0])} + KeySet(s[1..], key)
  {
    forall k | k in KeySet(s, key) ensures k in {key(s[0])} + KeySet(s[1..], key) {
      var i :| 0 <= i < |s| && key(s[i]) == k;
      if i > 0 { assert key(s[1..][i - 1]) == k; }
    }
    forall k | k in KeySet(s[1..], key) ensures k in KeySet(s, key) {
      var i :| 0 <= i < |s| - 1 && key(s[1..][i]) == k;
      assert key(s[i + 1]) == k;
    }
  }

  /** Sequences with the same elements have the same keys. */
  lemma KeySetOfSameElements<T, K>(s: seq<T>, t: seq<T>, key: T -> K)
    requires forall x :: x in s <==> x in t
    ensures KeySet(s, key) == KeySet(t, key)
  {
    forall k | k in KeySet(s, key) ensures k in KeySet(t, key) {
      var i :| 0 <= i < |s| && key(s[i]) == k;
      assert s[i] in t;
    }
    forall k | k in KeySet(t, key) ensures k in KeySet(s, key) {
      var i :| 0 <= i < |t| && key(t[i]) == k;
      assert t[i] in s;
    }
  }

  /** Scans s left to right and keeps an element exactly when its key has not
      been seen yet, counting the keys in seen as already seen. */
  function DedupFrom<T(==), K(==)>(s: seq<T>, key: T -> K, seen: set<K>): (r: seq<T>)
    ensures |r| <= |s|
    ensures forall x :: x in r ==> x in s && key(x) !in seen
    ensures forall i, j :: 0 <= i < j < |r| ==> key(r[i]) != key(r[j])
    decreases |s|
  {
    if s == [] then []
    else if key(s[0]) in seen then DedupFrom(s[1..], key, seen)
    else [s[0]] + DedupFrom(s[1..], key, seen + {key(s[0])})
  }

  /** One step of the scan: the head is kept exactly when its key is new. */
  lemma DedupFromStep<T, K>(s: seq<T>, i: nat, key: T -> K, seen: set<K>)
    requires i < |s|
    ensures DedupFrom(s[i..], key, seen)
      == if key(s[i]) in seen then DedupFrom(s[i + 1..], key, seen)
         else [s[i]] + DedupFrom(s[i + 1..], key, seen + {key(s[i])})
  {
    assert s[i..][1..] == s[i + 1..];
  }

  /** Distinct keys: as many keys as elements. */
  lemma {:induction false} KeySetOfDistinct<T, K>(s: seq<T>, key: T -> K)
    requires forall i, j :: 0 <= i < j < |s| ==> key(s[i]) != key(s[j])
    ensures |KeySet(s, key)| == |s|
  {
    if s != [] {
      KeySetCons(s, key);
      KeySetOfDistinct(s[1..], key);
      assert key(s[0]) !in KeySet(s[1..], key);
    }
  }

  /** Every key not already seen survives, once: the output carries exactly
      the new keys of the input, one element per key. */
  lemma DedupKeys<T, K>(s: seq<T>, key: T -> K, seen: set<K>)
    ensures KeySet(DedupFrom(s, key, seen), key) == KeySet(s, key) - seen
    ensures |DedupFrom(s, key, seen)| == |KeySet(s, key) - seen|
  {
    DedupKeySet(s, key, seen);
    KeySetOfDistinct(DedupFrom(s, key, seen), key);
  }

  /** Every key of the input survives de-duplication, on some kept element. */
  lemma DedupKeepsEveryKey<T, K>(s: seq<T>, key: T -> K, x: T)
    requires x in s
    ensures exists y :: y in DedupBy(s, key) && key(y) == key(x)
  {
    var i :| 0 <= i < |s| && s[i] == x;
    assert key(x) in KeySet(s, key);
    DedupKeys(s, key, {});
    assert key(x) in KeySet(DedupBy(s, key), key);
    var j :| 0 <= j < |DedupBy(s, key)| && key(DedupBy(s, key)[j]) == key(x);
    assert DedupBy(s, key)[j] in DedupBy(s, key);
  }

  /** The keys of the output are the keys of the input not already seen. */
  lemma {:induction false} DedupKeySet<T, K>(s: seq<T>, key: T -> K, seen: set<K>)
    ensures KeySet(DedupFrom(s, key, seen), key) == KeySet(s, key) - seen
    decreases |s|
  {
    if s != [] {
      KeySetCons(s, key);
      var k0 := key(s[0]);
      if k0 in seen {
        DedupKeySet(s[1..], key, seen);
      } else {
        var r := DedupFrom(s, key, seen);
        var rest := DedupFrom(s[1..], key, seen + {k0});
        assert r == [s[0]] + rest;
        DedupKeySet(s[1..], key, seen + {k0});
        KeySetCons(r, key);
        assert r[1..] == rest;
      }
    }
  }

  /** Keep-first de-duplication. */
  function DedupBy<T(==), K(==)>(s: seq<T>, key: T -> K): seq<T> {
    DedupFrom(s, key, {})
  }

  /** The first element of s carrying a given key (one not yet seen) is kept. */
  lemma {:induction false} DedupKeepsFirst<T, K>(s: seq<T>, key: T -> K, seen: set<K>, i: nat)
    requires i < |s| && key(s[i]) !in seen
    requires forall j :: 0 <= j < i ==> key(s[j]) != key(s[i])
    ensures s[i] in DedupFrom(s, key, seen)
    decreases |s|
  {
    if i == 0 {
    } else if key(s[0]) in seen {
      DedupKeepsFirst(s[1..], key, seen, i - 1);
    } else {
      DedupKeepsFirst(s[1..], key, seen + {key(s[0])}, i - 1);
    }
  }

  /** rank never increases along s. */
  ghost predicate NonIncreasing<T>(s: seq<T>, rank: T -> real) {
    forall i, j :: 0 <= i < j < |s| ==> rank(s[i]) >= rank(s[j])
  }

  /** De-duplication keeps a non-increasing ranking non-increasing. */
  lemma {:induction false} DedupKeepsOrder<T, K>(s: seq<T>, key: T -> K, seen: set<K>, rank: T -> real)
    requires NonIncreasing(s, rank)
    ensures NonIncreasing(DedupFrom(s, key, seen), rank)
    decreases |s|
  {
    if s != [] {
      var rest := s[1..];
      assert NonIncreasing(rest, rank) by {
        forall i, j | 0 <= i < j < |rest| ensures rank(rest[i]) >= rank(rest[j]) {
          assert rest[i] == s[i + 1] && rest[j] == s[j + 1];
        }
      }
      if key(s[0]) in seen {
        DedupKeepsOrder(rest, key, seen, rank);
      } else {
        var tail := DedupFrom(rest, key, seen + {key(s[0])});
        DedupKeepsOrder(rest, key, seen + {key(s[0])}, rank);
        HeadDominates(s, tail, rank);
        ConsNonIncreasing(s[0], tail, rank);
      }
    }
  }

  /** The tail of a non-increasing sequence is non-increasing. */
  lemma TailNonIncreasing<T>(s: seq<T>, rank: T -> real)
    requires s != [] && NonIncreasing(s, rank)
    ensures NonIncreasing(s[1..], rank)
  {
    var rest := s[1..];
    forall i, j | 0 <= i < j < |rest| ensures rank(rest[i]) >= rank(rest[j]) {
      assert rest[i] == s[i + 1] && rest[j] == s[j + 1];
    }
  }

  lemma HeadDominates<T>(s: seq<T>, tail: seq<T>, rank: T -> real)
    requires s != [] && NonIncreasing(s, rank)
    requires forall x :: x in tail ==> x in s[1..]
    ensures forall j :: 0 <= j < |tail| ==> rank(s[0]) >= rank(tail[j])
  {
    forall j | 0 <= j < |tail| ensures rank(s[0]) >= rank(tail[j]) {
      assert tail[j] in s[1..];
      var m :| 0 <= m < |s| - 1 && s[1..][m] == tail[j];
      assert s[1..][m] == s[m + 1];
    }
  }

  lemma ConsNonIncreasing<T>(x: T, tail: seq<T>, rank: T -> real)
    requires NonIncreasing(tail, rank)
    requires forall j :: 0 <= j < |tail| ==> rank(x) >= rank(tail[j])
    ensures NonIncreasing([x] + tail, rank)
  {
    var r := [x] + tail;
    forall i, j | 0 <= i < j < |r| ensures rank(r[i]) >= rank(r[j]) {
      if i == 0 { assert r[j] == tail[j - 1]; } else { assert r[i] == tail[i - 1] && r[j] == tail[j - 1]; }
    }
  }

  /** A subset is no larger than its superset. */
  lemma {:induction false} SubsetSize<T>(a: set<T>, b: set<T>)
    requires a <= b
    ensures |a| <= |b|
    decreases |b|
  {
    if b != {} {
      var x :| x in b;
      SubsetSize(a - {x}, b - {x});
    }
  }
}
