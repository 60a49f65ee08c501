/** The chained hash map of hashmap.c: an array of linked lists that doubles when the load reaches 0.75. */
module HashMap {
  import opened HashTable
  import opened LinkedList
  import opened Options

  /** A comparison that returns 0 exactly on equal keys, as strcmp and compare_uints do; keys that
      compare equal then have the same hash. */
  ghost predicate Compares<K(!new)>(compare: (K, K) -> int) {
    forall a, b :: compare(a, b) == 0 <==> a == b
  }

  class HashMap<K(==, !new), V> {
    var buckets: array<List<Pair<K, V>>>
    var size: nat
    var hmax: nat
    const hash: K -> nat
    const compare: (K, K) -> int

    ghost var contents: map<K, V>
    ghost var Repr: set<object>

    /** The lists are valid, and disjoint from each other and from the rest. */
    ghost predicate ListsOk()
      reads this, Repr
    {
      && this in Repr && buckets in Repr
      && buckets.Length == hmax
      && (forall i | 0 <= i < hmax ::
            && buckets[i] in Repr && buckets[i].Repr <= Repr && buckets[i].Valid()
            && this !in buckets[i].Repr && buckets !in buckets[i].Repr)
      && (forall i, j | 0 <= i < j < hmax :: buckets[i].Repr !! buckets[j].Repr)
    }

    ghost function Table(): (t: seq<Bucket<K, V>>)
      requires ListsOk()
      reads this, Repr
      ensures |t| == hmax && forall i | 0 <= i < hmax :: t[i] == buckets[i].contents
    {
      seq(hmax, i requires ListsOk() && 0 <= i < hmax reads this, Repr => buckets[i].contents)
    }

    /** The map proper, at any load. */
    ghost predicate Consistent()
      reads this, Repr
    {
      && ListsOk()
      && hmax > 0
      && Compares(compare)
      && Represents(Table(), hash, contents)
      && size == TotalLength(Table()) == |contents|
    }

    /** The object invariant between calls. */
    ghost predicate Valid()
      reads this, Repr
      ensures Valid() ==> this in Repr
    {
      Consistent() && !Overloaded(size, hmax)
    }

    /** ht_create. */
    constructor (hmax: nat, hash: K -> nat, compare: (K, K) -> int)
      requires hmax > 0 && Compares(compare)
      ensures Valid() && fresh(Repr) && contents == map[] && this.hmax == hmax
      ensures this.hash == hash && this.compare == compare
    {
      this.hash := hash;
      this.compare := compare;
      this.hmax := hmax;
      buckets := new List<Pair<K, V>>[0];
      new;
      hide *;
      Reset(hmax);
      EmptyNotOverloaded(hmax);
      ValidIntro();
    }

    lemma Bucket(i: nat)
      requires ListsOk() && i < hmax
      ensures this in Repr && buckets in Repr && i < buckets.Length && buckets[i].Valid()
      ensures buckets[i] in Repr && buckets[i].Repr <= Repr && Table()[i] == buckets[i].contents && |Table()| == hmax
      ensures this !in buckets[i].Repr && buckets !in buckets[i].Repr
      ensures forall j {:trigger buckets[j]} | 0 <= j < hmax && j != i :: buckets[j].Repr !! buckets[i].Repr
      ensures forall j {:trigger buckets[j]} | 0 <= j < hmax ::
                buckets[j].Repr <= Repr && buckets[j].Valid() && buckets[j] in buckets[j].Repr
      ensures forall j {:trigger buckets[j]} | 0 <= j < hmax :: this !in buckets[j].Repr
      ensures forall j {:trigger buckets[j]} | 0 <= j < hmax :: Table()[j] == buckets[j].contents
    {
    }

    lemma Parts()
      requires Consistent()
      ensures ListsOk() && hmax > 0 && Compares(compare) && Represents(Table(), hash, contents) && |Table()| == hmax
      ensures size == TotalLength(Table()) == |contents| && this in Repr && buckets in Repr
      ensures buckets.Length == hmax
    {
    }

    lemma Load()
      requires Valid()
      ensures size == |contents| && 4 * |contents| < 3 * hmax
    {
    }

    /** Each pair is in the bucket that its key hashes to, and in no other. */
    lemma InItsBucket(key: K, i: nat)
      requires Consistent() && i < hmax
      ensures i < buckets.Length
      ensures Holds(buckets[i].contents, key) <==> key in contents && i == hash(key) % hmax
      ensures forall j | 0 <= j < |buckets[i].contents| && buckets[i].contents[j].key == key ::
                key in contents && buckets[i].contents[j].value == contents[key]
    {
    }

    /** ht_has_key. */
    method HasKey(key: K) returns (found: bool)
      requires Consistent()
      ensures found <==> key in contents
    {
      hide *;
      Parts();
      var index := hash(key) % hmax;
      Bucket(index);
      Lookup(Table(), hash, contents, key, index);
      var list := buckets[index];
      var current := list.head;
      ghost var j := 0;
      list.Chain(0);
      while current != null
        invariant j <= list.size && current == list.At(j)
        invariant forall k | 0 <= k < j :: list.contents[k].key != key
        decreases list.size - j
      {
        list.Chain(j);
        Comparing(compare, current.data.key, key);
        if compare(current.data.key, key) == 0 {
          HoldsAt(list.contents, key, j);
          return true;
        }
        current := current.next;
        j := j + 1;
      }
      list.Chain(j);
      HoldsNowhere(list.contents, key);
      return false;
    }

    /** ht_get: the value of the key, or nothing. */
    method Get(key: K) returns (found: Option<V>)
      requires Consistent()
      ensures found == if key in contents then Some(contents[key]) else None
    {
      hide *;
      Parts();
      var index := hash(key) % hmax;
      Bucket(index);
      Lookup(Table(), hash, contents, key, index);
      var list := buckets[index];
      var current := list.head;
      ghost var j := 0;
      list.Chain(0);
      while current != null
        invariant j <= list.size && current == list.At(j)
        invariant forall k | 0 <= k < j :: list.contents[k].key != key
        decreases list.size - j
      {
        list.Chain(j);
        Comparing(compare, current.data.key, key);
        if compare(current.data.key, key) == 0 {
          return Some(current.data.value);
        }
        current := current.next;
        j := j + 1;
      }
      list.Chain(j);
      HoldsNowhere(list.contents, key);
      return None;
    }

    /** After a change to the list of bucket i alone. */
    twostate lemma ListsAfterChange(new i: nat)
      requires old(ListsOk()) && i < hmax
      requires hmax == old(hmax) && buckets == old(buckets) && buckets[..] == old(buckets[..])
      requires buckets[i].Valid() && Repr == old(Repr) + buckets[i].Repr
      requires forall o | o in buckets[i].Repr :: o in old(buckets[i].Repr) || !old(allocated(o))
      requires forall j {:trigger buckets[j]} | 0 <= j < hmax && j != i :: buckets[j].Valid()
      requires forall j {:trigger buckets[j]} | 0 <= j < hmax && j != i :: buckets[j].Repr == old(buckets[j].Repr)
      requires forall j {:trigger buckets[j]} | 0 <= j < hmax && j != i ::
                 buckets[j].contents == old(buckets[j].contents)
      ensures ListsOk() && Table() == old(Table())[i := buckets[i].contents]
    {
      assert forall j | 0 <= j < hmax :: buckets[j] == buckets[..][j] == old(buckets[..])[j] == old(buckets[j]);
    }

    /** Puts a pair with a new key at the end of its list. */
    method Append(index: nat, pair: Pair<K, V>)
      requires Consistent() && pair.key !in contents && index == hash(pair.key) % hmax
      modifies Repr
      ensures Consistent() && fresh(Repr - old(Repr)) && old(Repr) <= Repr
      ensures contents == old(contents)[pair.key := pair.value]
      ensures hmax == old(hmax)
    {
      hide *;
      Parts();
      Bucket(index);
      var list := buckets[index];
      HashTable.Append(Table(), hash, contents, pair.key, pair.value, index);
      list.AddNth(list.size, pair);
      assert list.contents == old(list.contents) + [pair];
      size := size + 1;
      contents := contents[pair.key := pair.value];
      Repr := Repr + list.Repr;
      ListsAfterChange(index);
      Assemble();
    }

    lemma Assemble()
      requires ListsOk() && hmax > 0 && Compares(compare) && Represents(Table(), hash, contents)
      requires size == TotalLength(Table()) == |contents|
      ensures Consistent()
    {
    }

    /** Takes the pair at a position out of its list. */
    method DropAt(index: nat, pos: nat)
      requires Consistent() && index < hmax && pos < |Table()[index]|
      modifies Repr
      ensures Consistent() && Repr == old(Repr)
      ensures contents == old(contents) - {old(Table())[index][pos].key}
      ensures size == old(size) - 1 && hmax == old(hmax)
    {
      hide *;
      Parts();
      Bucket(index);
      var list := buckets[index];
      list.Chain(0);
      TakeOut(Table(), hash, contents, index, pos);
      ghost var key := list.contents[pos].key;
      var _ := list.RemoveNth(pos);
      size := size - 1;
      contents := contents - {key};
      ListsAfterChange(index);
      Assemble();
    }

    /** ht_remove_entry: the key is no longer there; an absent key is left alone. */
    method RemoveEntry(key: K)
      requires Consistent()
      modifies Repr
      ensures Consistent() && Repr == old(Repr)
      ensures contents == old(contents) - {key} && hmax == old(hmax)
      ensures size == old(size) - if key in old(contents) then 1 else 0
      ensures old(Valid()) ==> Valid()
    {
      hide *;
      Parts();
      WasValid();
      var index := hash(key) % hmax;
      Bucket(index);
      Lookup(Table(), hash, contents, key, index);
      var list := buckets[index];
      var current := list.head;
      var pos := 0;
      list.Chain(0);
      while current != null
        modifies {}
        invariant pos <= list.size && current == list.At(pos)
        invariant forall k | 0 <= k < pos :: list.contents[k].key != key
        invariant pos < list.size || current == null
        decreases list.size - pos
      {
        list.Chain(pos);
        Comparing(compare, current.data.key, key);
        if compare(current.data.key, key) == 0 {
          break;
        }
        current := current.next;
        pos := pos + 1;
        list.Chain(pos);
      }
      list.Chain(pos);
      if current != null {
        HoldsAt(list.contents, key, pos);
        DropAt(index, pos);
        StillValid(old(size), old(hmax));
      } else {
        HoldsNowhere(list.contents, key);
        assert contents - {key} == contents;
      }
    }

    lemma ValidParts()
      requires Valid()
      ensures Consistent() && !Overloaded(size, hmax) && this in Repr
    {
    }

    lemma ValidIntro()
      requires Consistent() && !Overloaded(size, hmax)
      ensures Valid()
    {
    }

    lemma WasValid()
      ensures Valid() ==> !Overloaded(size, hmax)
    {
    }

    lemma StillValid(size: nat, hmax: nat)
      requires Consistent() && this.size <= size && this.hmax == hmax
      ensures !Overloaded(size, hmax) ==> Valid()
    {
    }

    /** ht_put: stores the value under the key. When that brings the load to the threshold the number of
        buckets doubles, once: the puts that doubling makes itself stay under the threshold. */
    method Put(key: K, value: V)
      requires Valid()
      modifies Repr
      ensures Valid() && fresh(Repr - old(Repr))
      ensures contents == old(contents)[key := value]
      ensures hmax == if 4 * |contents| >= 3 * old(hmax) then 2 * old(hmax) else old(hmax)
      ensures 4 * |contents| < 3 * hmax
      decreases if Overloaded(|contents[key := value]|, hmax) then 3 else 0
    {
      hide *;
      ValidParts();
      Parts();
      var found := HasKey(key);
      if found {
        RemoveEntry(key);
      }
      Parts();
      var index := hash(key) % hmax;
      Append(index, Pair(key, value));
      assert contents == old(contents)[key := value];
      Parts();
      OverloadedIs(size, hmax);
      if Overloaded(size, hmax) {
        OneMorePair(size - 1, old(size), hmax);
        DoubleHmax();
      } else {
        ValidIntro();
      }
      Load();
    }

    /** The emptied table with n fresh buckets, as ht_create and ht_double_hmax make it. */
    method Reset(n: nat)
      requires n > 0 && Compares(compare)
      modifies this
      ensures Consistent() && fresh(Repr - {this})
      ensures contents == map[] && size == 0 && hmax == n
    {
      hide *;
      ghost var repr;
      size := 0;
      hmax := n;
      buckets, repr := FreshBuckets(n);
      contents := map[];
      Repr := {this} + repr;
      EmptyLists();
      EmptyRepresents(Table(), hash);
      Assemble();
    }

    lemma EmptyLists()
      requires this in Repr && buckets in Repr && buckets.Length == hmax
      requires forall i {:trigger buckets[i]} | 0 <= i < hmax :: buckets[i].Valid() && buckets[i].contents == []
      requires forall i {:trigger buckets[i]} | 0 <= i < hmax :: buckets[i] in Repr && buckets[i].Repr <= Repr
      requires forall i {:trigger buckets[i]} | 0 <= i < hmax :: this !in buckets[i].Repr && buckets !in buckets[i].Repr
      requires forall i, j | 0 <= i < j < hmax :: buckets[i].Repr !! buckets[j].Repr
      ensures ListsOk() && |Table()| == hmax && forall i | 0 <= i < |Table()| :: Table()[i] == []
    {
    }

    /** ht_double_hmax: the same map in twice as many buckets. */
    method DoubleHmax()
      requires Consistent() && Overloaded(size, hmax) && size > 0 && !Overloaded(size - 1, hmax)
      modifies Repr
      ensures Valid() && fresh(Repr - old(Repr))
      ensures contents == old(contents) && hmax == 2 * old(hmax)
      decreases 2
    {
      hide *;
      Parts();
      ghost var m, t, was := contents, Table(), Repr;
      var oldBuckets, oldHmax := buckets, hmax;
      Bucket(0);
      Reset(2 * hmax);
      DoublingSuffices(old(size), oldHmax, |m|);
      DoublingSuffices(old(size), oldHmax, 0);
      ValidIntro();
      EmptySubMap(contents, m);
      for i := 0 to oldHmax
        invariant Valid() && fresh(Repr - {this}) && hmax == 2 * oldHmax
        invariant SubMap(contents, m)
        invariant forall j | 0 <= j < i :: BucketIn(t[j], contents)
        invariant forall j {:trigger oldBuckets[j]} | 0 <= j < oldHmax ::
                    oldBuckets[j].Valid() && oldBuckets[j].contents == t[j]
        invariant forall j {:trigger oldBuckets[j]} | 0 <= j < oldHmax ::
                    oldBuckets[j].Repr <= was && this !in oldBuckets[j].Repr
      {
        ValidParts();
        ghost var before := contents;
        BucketsOf(t, hash, m, i);
        PutAll(oldBuckets[i], m);
        forall j | 0 <= j < i ensures BucketIn(t[j], contents) {
          BucketInMore(t[j], before, contents);
        }
      }
      AllBucketsIn(t, hash, m, contents);
    }

    /** The inner loop of ht_double_hmax: puts every pair of an old list back. */
    method PutAll(list: List<Pair<K, V>>, ghost m: map<K, V>)
      requires Valid() && list.Valid() && list.Repr !! Repr
      requires SubMap(contents, m) && BucketOf(list.contents, m) && !Overloaded(|m|, hmax)
      modifies Repr
      ensures Valid() && fresh(Repr - old(Repr)) && hmax == old(hmax)
      ensures SubMap(contents, m) && old(contents).Keys <= contents.Keys && BucketIn(list.contents, contents)
      decreases 1
    {
      hide *;
      var current := list.head;
      ghost var j := 0;
      list.Chain(0);
      while current != null
        invariant Valid() && fresh(Repr - old(Repr)) && hmax == old(hmax) && list.Repr !! Repr
        invariant list.Valid() && list.contents == old(list.contents) && j <= list.size && current == list.At(j)
        invariant SubMap(contents, m) && old(contents).Keys <= contents.Keys
        invariant forall k | 0 <= k < j :: list.contents[k].key in contents
        decreases list.size - j
      {
        list.Chain(j);
        SubMapPut(list.contents, contents, m, j);
        OverloadedIs(|contents[current.data.key := current.data.value]|, hmax);
        OneMorePair(|contents[current.data.key := current.data.value]|, |m|, hmax);
        Put(current.data.key, current.data.value);
        list.Chain(j);
        current := current.next;
        j := j + 1;
      }
      list.Chain(j);
      BucketInIntro(list.contents, contents);
    }
  }

  lemma EmptySubMap<K, V>(a: map<K, V>, m: map<K, V>)
    requires a == map[]
    ensures SubMap(a, m)
  {
  }

  lemma SubMapPut<K, V>(b: Bucket<K, V>, part: map<K, V>, m: map<K, V>, j: nat)
    requires SubMap(part, m) && BucketOf(b, m) && j < |b|
    ensures SubMap(part[b[j].key := b[j].value], m) && |part[b[j].key := b[j].value]| <= |m|
  {
    SubMapSize(part[b[j].key := b[j].value], m);
  }

  lemma BucketInMore<K, V>(b: Bucket<K, V>, part: map<K, V>, more: map<K, V>)
    requires BucketIn(b, part) && part.Keys <= more.Keys
    ensures BucketIn(b, more)
  {
  }

  lemma BucketInIntro<K, V>(b: Bucket<K, V>, part: map<K, V>)
    requires forall j | 0 <= j < |b| :: b[j].key in part
    ensures BucketIn(b, part)
  {
  }

  lemma EmptyNotOverloaded(hmax: nat)
    requires hmax > 0
    ensures !Overloaded(0, hmax)
  {
  }

  lemma OneMorePair(a: nat, b: nat, hmax: nat)
    requires a <= b && !Overloaded(b, hmax)
    ensures !Overloaded(a, hmax)
  {
  }

  /** A fresh empty list for each bucket. */
  method FreshBuckets<T>(n: nat) returns (buckets: array<List<T>>, ghost repr: set<object>)
    ensures fresh(repr) && buckets in repr && buckets.Length == n
    ensures forall i {:trigger buckets[i]} | 0 <= i < n :: buckets[i].Valid() && buckets[i].contents == []
    ensures forall i {:trigger buckets[i]} | 0 <= i < n :: buckets[i] in repr && buckets[i].Repr <= repr
    ensures forall i {:trigger buckets[i]} | 0 <= i < n :: buckets !in buckets[i].Repr
    ensures forall i, j | 0 <= i < j < n :: buckets[i].Repr !! buckets[j].Repr
  {
    hide *;
    var filler := new List<T>();
    buckets := new List<T>[n](_ => filler);
    repr := {buckets};
    for i := 0 to n
      invariant fresh(repr) && buckets in repr
      invariant forall k {:trigger buckets[k]} | 0 <= k < i :: buckets[k].Valid() && buckets[k].contents == []
      invariant forall k {:trigger buckets[k]} | 0 <= k < i :: buckets[k] in repr && buckets[k].Repr <= repr
      invariant forall k {:trigger buckets[k]} | 0 <= k < i :: buckets !in buckets[k].Repr
      invariant forall j, k | 0 <= j < k < i :: buckets[j].Repr !! buckets[k].Repr
    {
      buckets[i] := new List<T>();
      buckets[i].Chain(0);
      repr := repr + buckets[i].Repr;
    }
  }

  lemma Comparing<K(!new)>(compare: (K, K) -> int, a: K, b: K)
    requires Compares(compare)
    ensures compare(a, b) == 0 <==> a == b
  {
  }

  lemma HoldsAt<K, V>(b: Bucket<K, V>, key: K, j: nat)
    requires j < |b| && b[j].key == key
    ensures Holds(b, key)
  {
  }

  lemma HoldsNowhere<K, V>(b: Bucket<K, V>, key: K)
    requires forall j | 0 <= j < |b| :: b[j].key != key
    ensures !Holds(b, key)
  {
  }
}
