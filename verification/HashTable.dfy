/** The contents of a chained hash table as a value: a sequence of buckets, each a sequence of pairs. */
module HashTable {

  datatype Pair<K, V> = Pair(key: K, value: V)

  type Bucket<K, V> = seq<Pair<K, V>>

  /** One bucket agrees with a finite map: it holds exactly the pairs whose key hashes to it, once. */
  ghost predicate BucketOk<K(!new), V>(b: Bucket<K, V>, i: nat, n: nat, hash: K -> nat, m: map<K, V>)
    requires n > 0
  {
    && (forall j | 0 <= j < |b| :: hash(b[j].key) % n == i && b[j].key in m && m[b[j].key] == b[j].value)
    && (forall j, k | 0 <= j < k < |b| :: b[j].key != b[k].key)
    && (forall k | k in m && hash(k) % n == i :: Holds(b, k))
  }

  ghost predicate Holds<K, V>(b: Bucket<K, V>, k: K) {
    exists j :: 0 <= j < |b| && b[j].key == k
  }

  ghost predicate Represents<K(!new), V>(t: seq<Bucket<K, V>>, hash: K -> nat, m: map<K, V>) {
    |t| > 0 && forall i | 0 <= i < |t| :: BucketOk(t[i], i, |t|, hash, m)
  }

  ghost function TotalLength<K, V>(t: seq<Bucket<K, V>>): nat {
    if t == [] then 0 else |t[0]| + TotalLength(t[1..])
  }

  lemma {:induction false} TotalLengthUpdate<K, V>(t: seq<Bucket<K, V>>, i: nat, b: Bucket<K, V>)
    requires i < |t|
    ensures TotalLength(t[i := b]) == TotalLength(t) - |t[i]| + |b|
  {
    if i == 0 {
      assert t[i := b][1..] == t[1..];
    } else {
      assert t[i := b][1..] == t[1..][i - 1 := b];
      TotalLengthUpdate(t[1..], i - 1, b);
    }
  }

  lemma {:induction false} TotalLengthEmpty<K, V>(t: seq<Bucket<K, V>>)
    requires forall i | 0 <= i < |t| :: t[i] == []
    ensures TotalLength(t) == 0
  {
    if t != [] {
      TotalLengthEmpty(t[1..]);
    }
  }

  lemma EmptyRepresents<K(!new), V>(t: seq<Bucket<K, V>>, hash: K -> nat)
    requires |t| > 0 && forall i | 0 <= i < |t| :: t[i] == []
    ensures Represents(t, hash, map[]) && TotalLength(t) == 0
  {
    TotalLengthEmpty(t);
  }

  /** Looking up a key in its bucket answers for the whole map. */
  lemma Lookup<K(!new), V>(t: seq<Bucket<K, V>>, hash: K -> nat, m: map<K, V>, key: K, i: nat)
    requires Represents(t, hash, m) && i == hash(key) % |t|
    ensures key in m <==> Holds(t[i], key)
    ensures forall j | 0 <= j < |t[i]| && t[i][j].key == key :: key in m && t[i][j].value == m[key]
  {
    assert BucketOk(t[i], i, |t|, hash, m);
  }

  /** Appending a pair with a new key to its bucket adds it to the map. */
  lemma Append<K(!new), V>(t: seq<Bucket<K, V>>, hash: K -> nat, m: map<K, V>, key: K, value: V, i: nat)
    requires Represents(t, hash, m) && key !in m && i == hash(key) % |t|
    ensures Represents(t[i := t[i] + [Pair(key, value)]], hash, m[key := value])
    ensures TotalLength(t[i := t[i] + [Pair(key, value)]]) == TotalLength(t) + 1
    ensures |m[key := value]| == |m| + 1
  {
    var b, m' := t[i] + [Pair(key, value)], m[key := value];
    var t' := t[i := b];
    forall i' | 0 <= i' < |t| ensures BucketOk(t'[i'], i', |t|, hash, m') {
      assert BucketOk(t[i'], i', |t|, hash, m);
      if i' == i {
        BucketAppend(t[i], i, |t|, hash, m, key, value);
      }
    }
    TotalLengthUpdate(t, i, b);
    assert m'.Keys == m.Keys + {key};
  }

  lemma BucketAppend<K(!new), V>(b: Bucket<K, V>, i: nat, n: nat, hash: K -> nat, m: map<K, V>, key: K, value: V)
    requires n > 0 && BucketOk(b, i, n, hash, m) && key !in m && hash(key) % n == i
    ensures BucketOk(b + [Pair(key, value)], i, n, hash, m[key := value])
  {
    var b', m' := b + [Pair(key, value)], m[key := value];
    assert b'[|b|] == Pair(key, value);
    forall k | k in m' && hash(k) % n == i ensures Holds(b', k) {
      if k != key {
        var j :| 0 <= j < |b| && b[j].key == k;
        assert b'[j].key == k;
      }
    }
  }

  /** Taking a pair out of its bucket takes its key out of the map. */
  lemma TakeOut<K(!new), V>(t: seq<Bucket<K, V>>, hash: K -> nat, m: map<K, V>, i: nat, j: nat)
    requires Represents(t, hash, m) && i < |t| && j < |t[i]|
    ensures Represents(t[i := t[i][..j] + t[i][j + 1..]], hash, m - {t[i][j].key})
    ensures TotalLength(t[i := t[i][..j] + t[i][j + 1..]]) == TotalLength(t) - 1
    ensures t[i][j].key in m && |m - {t[i][j].key}| == |m| - 1
  {
    var b, key := t[i][..j] + t[i][j + 1..], t[i][j].key;
    var m', t' := m - {key}, t[i := b];
    assert BucketOk(t[i], i, |t|, hash, m);
    forall i' | 0 <= i' < |t| ensures BucketOk(t'[i'], i', |t|, hash, m') {
      assert BucketOk(t[i'], i', |t|, hash, m);
      if i' == i {
        BucketTakeOut(t[i], i, |t|, hash, m, j);
      }
    }
    TotalLengthUpdate(t, i, b);
    assert m.Keys == m'.Keys + {key};
  }

  lemma BucketTakeOut<K(!new), V>(b: Bucket<K, V>, i: nat, n: nat, hash: K -> nat, m: map<K, V>, j: nat)
    requires n > 0 && BucketOk(b, i, n, hash, m) && j < |b|
    ensures BucketOk(b[..j] + b[j + 1..], i, n, hash, m - {b[j].key})
  {
    var b' := b[..j] + b[j + 1..];
    assert forall k | 0 <= k < |b'| :: b'[k] == b[if k < j then k else k + 1];
    forall k | k in m - {b[j].key} && hash(k) % n == i ensures Holds(b', k) {
      var l :| 0 <= l < |b| && b[l].key == k;
      assert b'[if l < j then l else l - 1].key == k;
    }
  }

  /** A finite map contained in another. */
  ghost predicate SubMap<K, V>(a: map<K, V>, b: map<K, V>) {
    forall k | k in a :: k in b && a[k] == b[k]
  }

  lemma SubMapSize<K, V>(a: map<K, V>, b: map<K, V>)
    requires SubMap(a, b)
    ensures |a| <= |b|
    ensures forall k | k in b && k !in a :: |a| + 1 <= |b|
  {
    SubsetSize(a.Keys, b.Keys);
    forall k | k in b && k !in a ensures |a| + 1 <= |b| {
      SubsetSize(a.Keys + {k}, b.Keys);
    }
  }

  lemma {:induction false} SubsetSize<T>(a: set<T>, b: set<T>)
    requires a <= b
    ensures |a| <= |b|
    decreases |a|
  {
    if x :| x in a {
      SubsetSize(a - {x}, b - {x});
    }
  }

  /** A part of the map that has the keys of all buckets is the whole map. */
  lemma AllBucketsIn<K(!new), V>(t: seq<Bucket<K, V>>, hash: K -> nat, m: map<K, V>, part: map<K, V>)
    requires Represents(t, hash, m) && SubMap(part, m)
    requires forall i | 0 <= i < |t| :: BucketIn(t[i], part)
    ensures part == m
  {
    forall k | k in m ensures k in part {
      var i := hash(k) % |t|;
      assert BucketOk(t[i], i, |t|, hash, m) && BucketIn(t[i], part);
      assert Holds(t[i], k);
    }
  }

  ghost predicate BucketIn<K, V>(b: Bucket<K, V>, part: map<K, V>) {
    forall j | 0 <= j < |b| :: b[j].key in part
  }

  ghost predicate BucketOf<K, V>(b: Bucket<K, V>, m: map<K, V>) {
    forall j | 0 <= j < |b| :: b[j].key in m && m[b[j].key] == b[j].value
  }

  lemma BucketsOf<K(!new), V>(t: seq<Bucket<K, V>>, hash: K -> nat, m: map<K, V>, i: nat)
    requires Represents(t, hash, m) && i < |t|
    ensures BucketOf(t[i], m)
  {
    assert BucketOk(t[i], i, |t|, hash, m);
  }

  /** The threshold of the load factor 0.75. */
  predicate Overloaded(size: nat, hmax: nat) {
    4 * size >= 3 * hmax
  }

  lemma OverloadedIs(size: nat, hmax: nat)
    ensures Overloaded(size, hmax) <==> 4 * size >= 3 * hmax
  {
  }

  /** The test of the code, where size and hmax are divided as real numbers. */
  lemma LoadFactor(size: nat, hmax: nat)
    requires hmax > 0
    ensures Overloaded(size, hmax) <==> size as real / hmax as real >= 0.75
  {
  }

  /** A table that has just reached the threshold stays under it, by itself and all the way there,
      once the number of buckets is doubled. */
  lemma DoublingSuffices(size: nat, hmax: nat, n: nat)
    requires size > 0 && !Overloaded(size - 1, hmax) && hmax > 0 && n <= size
    ensures !Overloaded(n, 2 * hmax)
  {
  }
}
