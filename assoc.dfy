/**
 * Python's insertion-ordered `dict`, as a sequence of (key, value) entries.
 * Assigning to an existing key keeps its position; a new key goes last.
 */
module Assoc {
  import opened Wrappers
  import opened Seqs

  type Dict<K, V> = seq<(K, V)>

  function Keys<K(!new), V>(d: Dict<K, V>): (ks: seq<K>)
    ensures |ks| == |d|
    ensures forall i :: 0 <= i < |d| ==> ks[i] == d[i].0
  {
    seq(|d|, i requires 0 <= i < |d| => d[i].0)
  }

  /** Position of the first entry for `k`, or `|d|` when there is none. */
  function IndexOfKey<K(==,!new), V>(d: Dict<K, V>, k: K): (i: nat)
    ensures i <= |d|
    ensures forall j :: 0 <= j < i ==> d[j].0 != k
    ensures i < |d| ==> d[i].0 == k
  {
    if d == [] then 0 else if d[0].0 == k then 0 else 1 + IndexOfKey(d[1..], k)
  }

  /** The first-occurrence properties pin the position down. */
  lemma IndexOfKeyIs<K(!new), V>(d: Dict<K, V>, k: K, i: nat)
    requires i <= |d|
    requires forall j :: 0 <= j < i ==> d[j].0 != k
    requires i < |d| ==> d[i].0 == k
    ensures IndexOfKey(d, k) == i
  {
  }

  /** `k in d`. */
  predicate HasKey<K(==,!new), V>(d: Dict<K, V>, k: K) {
    IndexOfKey(d, k) < |d|
  }

  /** `d.get(k)`. */
  function Get<K(==,!new), V>(d: Dict<K, V>, k: K): (r: Option<V>)
    ensures r.Some? <==> HasKey(d, k)
  {
    var i := IndexOfKey(d, k);
    if i < |d| then Some(d[i].1) else None
  }

  /** `d.get(k, default)`. */
  function GetOr<K(==,!new), V>(d: Dict<K, V>, k: K, default: V): V {
    Get(d, k).GetOr(default)
  }

  /** What every Python dict satisfies: no key twice. */
  predicate UniqueKeys<K(==,!new), V>(d: Dict<K, V>) {
    forall i, j :: 0 <= i < j < |d| ==> d[i].0 != d[j].0
  }

  lemma HasKeyAt<K(!new), V>(d: Dict<K, V>, i: nat)
    requires i < |d|
    ensures HasKey(d, d[i].0)
    ensures UniqueKeys(d) ==> Get(d, d[i].0) == Some(d[i].1)
  {
  }

  lemma HasKeyIffInKeys<K(!new), V>(d: Dict<K, V>, k: K)
    ensures HasKey(d, k) <==> k in Keys(d)
  {
    if k in Keys(d) {
      var i :| 0 <= i < |d| && Keys(d)[i] == k;
      HasKeyAt(d, i);
    }
  }

  /** Looking up in a non-empty dict: the head entry, else the rest. */
  lemma GetCons<K(!new), V>(d: Dict<K, V>, k: K)
    requires d != []
    ensures HasKey(d, k) <==> d[0].0 == k || HasKey(d[1..], k)
    ensures Get(d, k) == if d[0].0 == k then Some(d[0].1) else Get(d[1..], k)
  {
  }

  lemma UniqueTail<K(!new), V>(d: Dict<K, V>)
    requires d != [] && UniqueKeys(d)
    ensures UniqueKeys(d[1..]) && !HasKey(d[1..], d[0].0)
  {
  }

  /** `d[k] = v`: overwrite in place, or append a new entry. */
  function Put<K(==,!new), V>(d: Dict<K, V>, k: K, v: V): (r: Dict<K, V>)
    ensures Get(r, k) == Some(v)
    ensures forall k' :: k' != k ==> Get(r, k') == Get(d, k')
    ensures Keys(r) == if HasKey(d, k) then Keys(d) else Keys(d) + [k]
    ensures UniqueKeys(d) ==> UniqueKeys(r)
    ensures forall e :: e in r ==> e == (k, v) || e in d
  {
    var i := IndexOfKey(d, k);
    if i < |d| then
      var r := d[i := (k, v)];
      assert forall e :: e in r ==> e == (k, v) || e in d by {
        forall e | e in r ensures e == (k, v) || e in d {
          var j :| 0 <= j < |r| && r[j] == e;
          if j != i {
            assert d[j] == e;
          }
        }
      }
      PutOverwrite(d, k, v, i);
      r
    else
      var r := d + [(k, v)];
      PutAppend(d, k, v);
      r
  }

  lemma PutOverwrite<K(!new), V>(d: Dict<K, V>, k: K, v: V, i: nat)
    requires i == IndexOfKey(d, k) < |d|
    ensures Get(d[i := (k, v)], k) == Some(v)
    ensures forall k' :: k' != k ==> Get(d[i := (k, v)], k') == Get(d, k')
    ensures Keys(d[i := (k, v)]) == Keys(d)
  {
    var r := d[i := (k, v)];
    IndexOfKeyIs(r, k, i);
    forall k' | k' != k ensures Get(r, k') == Get(d, k') {
      IndexOfKeyIs(r, k', IndexOfKey(d, k'));
    }
  }

  lemma PutAppend<K(!new), V>(d: Dict<K, V>, k: K, v: V)
    requires !HasKey(d, k)
    ensures Get(d + [(k, v)], k) == Some(v)
    ensures forall k' :: k' != k ==> Get(d + [(k, v)], k') == Get(d, k')
    ensures Keys(d + [(k, v)]) == Keys(d) + [k]
    ensures UniqueKeys(d) ==> UniqueKeys(d + [(k, v)])
  {
    var r := d + [(k, v)];
    IndexOfKeyIs(r, k, |d|);
    forall k' | k' != k ensures Get(r, k') == Get(d, k') {
      var n := IndexOfKey(d, k');
      IndexOfKeyIs(r, k', if n < |d| then n else |r|);
    }
  }

  /** `result = dict(a); result.update(b)`, also `{**a, **b}`. */
  function Update<K(==,!new), V>(a: Dict<K, V>, b: Dict<K, V>): (r: Dict<K, V>)
    ensures UniqueKeys(a) ==> UniqueKeys(r)
    decreases |b|
  {
    if b == [] then a else Update(Put(a, b[0].0, b[0].1), b[1..])
  }

  /** A key is in the update exactly when it was in either side. */
  lemma {:induction false} UpdateHasKey<K(!new), V>(a: Dict<K, V>, b: Dict<K, V>, k: K)
    ensures HasKey(Update(a, b), k) <==> HasKey(a, k) || HasKey(b, k)
    decreases |b|
  {
    if b != [] {
      var a' := Put(a, b[0].0, b[0].1);
      GetCons(b, k);
      assert HasKey(a', k) <==> k == b[0].0 || HasKey(a, k) by {
        if k != b[0].0 {
          assert Get(a', k) == Get(a, k);
        }
      }
      UpdateHasKey(a', b[1..], k);
    }
  }

  /** The right-hand side wins. */
  lemma {:induction false} UpdateGet<K(!new), V>(a: Dict<K, V>, b: Dict<K, V>, k: K)
    requires UniqueKeys(b)
    ensures Get(Update(a, b), k) == if HasKey(b, k) then Get(b, k) else Get(a, k)
    decreases |b|
  {
    if b != [] {
      GetCons(b, k);
      UniqueTail(b);
      UpdateGet(Put(a, b[0].0, b[0].1), b[1..], k);
    }
  }

  /** The keys of `b` not in `a`, in `b`'s order. */
  function NewKeys<K(==,!new), V>(a: Dict<K, V>, b: Dict<K, V>): seq<K> {
    if b == [] then []
    else (if HasKey(a, b[0].0) then [] else [b[0].0]) + NewKeys(a, b[1..])
  }

  lemma {:induction false} NewKeysFrame<K(!new), V>(a: Dict<K, V>, a': Dict<K, V>, b: Dict<K, V>)
    requires forall i :: 0 <= i < |b| ==> (HasKey(a, b[i].0) <==> HasKey(a', b[i].0))
    ensures NewKeys(a, b) == NewKeys(a', b)
    decreases |b|
  {
    if b != [] {
      assert forall i :: 0 <= i < |b[1..]| ==> b[1..][i] == b[i + 1];
      NewKeysFrame(a, a', b[1..]);
    }
  }

  /**
   * The order `update` leaves: `a`'s keys where they were (overridden ones
   * too), then `b`'s new keys in `b`'s order.
   */
  lemma {:induction false} UpdateKeyOrder<K(!new), V>(a: Dict<K, V>, b: Dict<K, V>)
    requires UniqueKeys(b)
    ensures Keys(Update(a, b)) == Keys(a) + NewKeys(a, b)
    decreases |b|
  {
    if b != [] {
      var k := b[0].0;
      var a' := Put(a, k, b[0].1);
      var b' := b[1..];
      UniqueTail(b);
      UpdateKeyOrder(a', b');
      NewKeysPut(a, k, b[0].1, b');
      var head := if HasKey(a, k) then [] else [k];
      assert NewKeys(a, b) == head + NewKeys(a, b');
      assert Keys(a') == Keys(a) + head;
      assert Update(a, b) == Update(a', b');
      ConcatAssoc(Keys(a), head, NewKeys(a, b'));
    }
  }

  /** Adding a key that `b` lacks changes nothing about which of `b`'s keys are new. */
  lemma NewKeysPut<K(!new), V>(a: Dict<K, V>, k: K, v: V, b: Dict<K, V>)
    requires !HasKey(b, k)
    ensures NewKeys(Put(a, k, v), b) == NewKeys(a, b)
  {
    forall i | 0 <= i < |b| ensures HasKey(a, b[i].0) <==> HasKey(Put(a, k, v), b[i].0) {
      HasKeyAt(b, i);
      PutOther(a, k, v, b[i].0);
    }
    NewKeysFrame(a, Put(a, k, v), b);
  }

  lemma PutOther<K(!new), V>(d: Dict<K, V>, k: K, v: V, k': K)
    requires k' != k
    ensures HasKey(Put(d, k, v), k') <==> HasKey(d, k')
  {
    assert Get(Put(d, k, v), k') == Get(d, k');
  }

  /** `d.pop(k)`: the entry for `k` goes, the others keep their order. */
  function Remove<K(==,!new), V>(d: Dict<K, V>, k: K): (r: Dict<K, V>)
    ensures HasKey(d, k) ==> |r| == |d| - 1
    ensures !HasKey(d, k) ==> r == d
    ensures forall k' :: k' != k ==> Get(r, k') == Get(d, k')
    ensures UniqueKeys(d) ==> !HasKey(r, k) && UniqueKeys(r)
  {
    var i := IndexOfKey(d, k);
    if i < |d| then
      var r := d[..i] + d[i + 1..];
      DropAt(d, i, r);
      RemoveAt(d, r, i);
      r
    else d
  }

  lemma DropAt<T>(s: seq<T>, i: nat, r: seq<T>)
    requires i < |s| && r == s[..i] + s[i + 1..]
    ensures |r| == |s| - 1
    ensures forall j :: 0 <= j < |r| ==> r[j] == s[if j < i then j else j + 1]
  {
  }

  lemma RemoveAt<K(!new), V>(d: Dict<K, V>, r: Dict<K, V>, i: nat)
    requires i < |d| && |r| == |d| - 1
    requires forall j :: 0 <= j < |r| ==> r[j] == d[if j < i then j else j + 1]
    ensures forall k' :: k' != d[i].0 ==> Get(r, k') == Get(d, k')
    ensures UniqueKeys(d) ==> !HasKey(r, d[i].0) && UniqueKeys(r)
  {
    forall k' | k' != d[i].0 ensures Get(r, k') == Get(d, k') {
      RemoveAtOther(d, r, i, k');
    }
    if UniqueKeys(d) {
      forall j | 0 <= j < |r| ensures r[j].0 != d[i].0 {
        assert r[j] == d[if j < i then j else j + 1];
      }
      IndexOfKeyIs(r, d[i].0, |r|);
    }
  }

  lemma RemoveAtOther<K(!new), V>(d: Dict<K, V>, r: Dict<K, V>, i: nat, k': K)
    requires i < |d| && d[i].0 != k' && |r| == |d| - 1
    requires forall j :: 0 <= j < |r| ==> r[j] == d[if j < i then j else j + 1]
    ensures Get(r, k') == Get(d, k')
  {
    var n := IndexOfKey(d, k');
    if n < i {
      IndexOfKeyIs(r, k', n);
    } else if n < |d| {
      assert forall j :: 0 <= j < n - 1 ==> r[j].0 != k' by {
        forall j | 0 <= j < n - 1 ensures r[j].0 != k' {
          assert r[j] == d[if j < i then j else j + 1];
        }
      }
      assert r[n - 1] == d[n];
      IndexOfKeyIs(r, k', n - 1);
    } else {
      assert forall j :: 0 <= j < |r| ==> r[j].0 != k' by {
        forall j | 0 <= j < |r| ensures r[j].0 != k' {
          assert r[j] == d[if j < i then j else j + 1];
        }
      }
      IndexOfKeyIs(r, k', |r|);
    }
  }
}
