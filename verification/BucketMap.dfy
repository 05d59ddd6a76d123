/**
 * The bucketed hash map of the masters: a fixed array of buckets, each an unordered map, with an
 * iterator that walks the buckets one after the other. A bucket is the list of its entries in
 * iteration order, which is arbitrary.
 */
module BucketMaps {
  import opened Base

  type Bucket<K, V> = seq<(K, V)>

  // ---------------------------------------------------------------- one bucket

  ghost predicate Distinct<K(!new), V(!new)>(b: Bucket<K, V>) { forall i, j :: 0 <= i < j < |b| ==> b[i].0 != b[j].0 }

  /** The position of a key, or the length. */
  function At<K(==), V>(b: Bucket<K, V>, k: K): (r: nat)
    ensures r <= |b| && (r < |b| ==> b[r].0 == k) && forall i :: 0 <= i < r ==> b[i].0 != k
  {
    if b == [] then 0 else if b[0].0 == k then 0 else
      var r := At(b[1..], k);
      assert forall i :: 0 < i < 1 + r ==> b[i] == b[1..][i-1];
      1 + r
  }

  function ToMap<K(==), V>(b: Bucket<K, V>): map<K, V> {
    if b == [] then map[] else ToMap(b[..|b|-1])[b[|b|-1].0 := b[|b|-1].1]
  }

  lemma {:induction false} ToMapAt<K(!new), V(!new)>(b: Bucket<K, V>, k: K)
    requires Distinct(b)
    ensures k in ToMap(b) <==> At(b, k) < |b|
    ensures k in ToMap(b) ==> ToMap(b)[k] == b[At(b, k)].1
  {
    if b != [] {
      var n := |b| - 1;
      ToMapAt(b[..n], k);
      var r, r' := At(b[..n], k), At(b, k);
      if r < n {
        assert b[r].0 == k && r == r';
      } else if b[n].0 == k {
        assert r' == n;
      } else {
        assert r' == n + 1;
      }
    }
  }

  /** An entry is found where it is, when no key is there twice. */
  lemma ToMapEntry<K(!new), V(!new)>(b: Bucket<K, V>, i: nat)
    requires Distinct(b) && i < |b|
    ensures At(b, b[i].0) == i && b[i].0 in ToMap(b) && ToMap(b)[b[i].0] == b[i].1
  {
    ToMapAt(b, b[i].0);
  }

  lemma {:induction false} ToMapSize<K(!new), V(!new)>(b: Bucket<K, V>)
    requires Distinct(b)
    ensures |ToMap(b)| == |b|
  {
    if b != [] {
      var n := |b| - 1;
      ToMapSize(b[..n]);
      ToMapAt(b[..n], b[n].0);
    }
  }

  // ---------------------------------------------------------------- all buckets

  /** Every entry is in the bucket its key hashes to, and no key is there twice. */
  ghost predicate Placed<K(!new), V(!new)>(bs: seq<Bucket<K, V>>, hash: K -> nat, size: nat) {
    && size > 0 && |bs| <= size
    && (forall i :: 0 <= i < |bs| ==> Distinct(bs[i]))
    && (forall i, j :: 0 <= i < |bs| && 0 <= j < |bs[i]| ==> hash(bs[i][j].0) % size == i)
  }

  /** The plain map the buckets stand for. */
  function Contents<K(==), V>(bs: seq<Bucket<K, V>>): map<K, V> {
    if bs == [] then map[] else Contents(bs[..|bs|-1]) + ToMap(bs[|bs|-1])
  }

  function TotalSize<K, V>(bs: seq<Bucket<K, V>>): nat {
    if bs == [] then 0 else TotalSize(bs[..|bs|-1]) + |bs[|bs|-1]|
  }

  /** A key found in a bucket hashes to it. */
  lemma InItsBucket<K(!new), V(!new)>(bs: seq<Bucket<K, V>>, hash: K -> nat, size: nat, i: nat, k: K)
    requires Placed(bs, hash, size) && i < |bs| && k in ToMap(bs[i])
    ensures hash(k) % size == i
  {
    ToMapAt(bs[i], k);
    assert bs[i][At(bs[i], k)].0 == k;
  }

  /** Looking a key up in its own bucket is looking it up in the plain map. */
  lemma {:induction false} ContentsLookup<K(!new), V(!new)>(bs: seq<Bucket<K, V>>, hash: K -> nat, size: nat, k: K)
    requires Placed(bs, hash, size)
    ensures var i := hash(k) % size;
            && (k in Contents(bs) <==> i < |bs| && k in ToMap(bs[i]))
            && (k in Contents(bs) ==> Contents(bs)[k] == ToMap(bs[i])[k])
  {
    if bs != [] {
      var n := |bs| - 1;
      ContentsLookup(bs[..n], hash, size, k);
      if k in ToMap(bs[n]) { InItsBucket(bs, hash, size, n, k); }
    }
  }

  lemma {:induction false} ContentsSize<K(!new), V(!new)>(bs: seq<Bucket<K, V>>, hash: K -> nat, size: nat)
    requires Placed(bs, hash, size)
    ensures |Contents(bs)| == TotalSize(bs)
  {
    if bs != [] {
      var n := |bs| - 1;
      ContentsSize(bs[..n], hash, size);
      ToMapSize(bs[n]);
      LastBucketIsNew(bs, hash, size);
      var a, b := Contents(bs[..n]), ToMap(bs[n]);
      assert (a + b).Keys == a.Keys + b.Keys;
      assert |(a + b).Keys| == |a.Keys| + |b.Keys|;
    }
  }

  lemma LastBucketIsNew<K(!new), V(!new)>(bs: seq<Bucket<K, V>>, hash: K -> nat, size: nat)
    requires Placed(bs, hash, size) && bs != []
    ensures Contents(bs[..|bs|-1]).Keys !! ToMap(bs[|bs|-1]).Keys
  {
    var n := |bs| - 1;
    forall k | k in ToMap(bs[n]) ensures k !in Contents(bs[..n]) {
      InItsBucket(bs, hash, size, n, k);
      ContentsLookup(bs[..n], hash, size, k);
    }
  }

  // ---------------------------------------------------------------- iteration

  /** A list of all entries of a map, each once. */
  ghost predicate Lists<K(!new), V(!new)>(s: seq<(K, V)>, m: map<K, V>) {
    && |s| == |m| && Distinct(s)
    && (forall e :: e in s ==> e.0 in m && m[e.0] == e.1)
    && (forall k :: k in m ==> (k, m[k]) in s)
  }

  function Flat<K, V>(bs: seq<Bucket<K, V>>): seq<(K, V)> {
    if bs == [] then [] else bs[0] + Flat(bs[1..])
  }

  /** An iterator: the bucket it is in, and the position in that bucket. */
  datatype Iter = Iter(bucket: nat, pos: nat)

  function End<K, V>(bs: seq<Bucket<K, V>>): Iter
    requires bs != []
  {
    Iter(|bs|, |bs[|bs|-1]|)
  }

  /** The first entry from bucket `i` on, or the end. */
  function FirstFrom<K, V>(bs: seq<Bucket<K, V>>, i: nat): (it: Iter)
    requires bs != [] && i <= |bs|
    ensures it == End(bs) || (i <= it.bucket < |bs| && it.pos == 0 && bs[it.bucket] != [])
    decreases |bs| - i
  {
    if i == |bs| then End(bs) else if bs[i] != [] then Iter(i, 0) else FirstFrom(bs, i + 1)
  }

  /** At an entry. */
  predicate OnEntry<K, V>(bs: seq<Bucket<K, V>>, it: Iter) { it.bucket < |bs| && it.pos < |bs[it.bucket]| }

  /** The entry after this one, or the end. */
  function Next<K, V>(bs: seq<Bucket<K, V>>, it: Iter): (next: Iter)
    requires OnEntry(bs, it)
    ensures next == End(bs) || OnEntry(bs, next)
  {
    if it.pos + 1 < |bs[it.bucket]| then Iter(it.bucket, it.pos + 1) else FirstFrom(bs, it.bucket + 1)
  }

  /** What is still to be visited from an iterator on. */
  function Remaining<K, V>(bs: seq<Bucket<K, V>>, it: Iter): seq<(K, V)>
    requires bs != [] && (it == End(bs) || OnEntry(bs, it))
  {
    if it == End(bs) then [] else bs[it.bucket][it.pos..] + Flat(bs[it.bucket + 1..])
  }

  lemma {:induction false} FirstFromRemaining<K, V>(bs: seq<Bucket<K, V>>, i: nat)
    requires bs != [] && i <= |bs|
    ensures Remaining(bs, FirstFrom(bs, i)) == Flat(bs[i..])
    decreases |bs| - i
  {
    if i < |bs| {
      assert bs[i..][1..] == bs[i+1..] && bs[i..][0] == bs[i];
      if bs[i] == [] {
        FirstFromRemaining(bs, i + 1);
      } else {
        assert bs[i][0..] == bs[i];
      }
    }
  }

  class MTHashMap<K(==, !new), V(==, !new)> {
    const hash: K -> nat
    const buckets: array<Bucket<K, V>>

    ghost predicate Valid()
      reads this, buckets
    {
      buckets.Length > 0 && Placed(buckets[..], hash, buckets.Length)
    }

    ghost function View(): map<K, V>
      reads this, buckets
    {
      Contents(buckets[..])
    }

    constructor (h: K -> nat)
      ensures Valid() && View() == map[] && hash == h && buckets.Length == 1024 && fresh(buckets)
    {
      hash := h;
      buckets := new Bucket<K, V>[1024](_ => []);
      new;
      EmptyContents(buckets[..]);
    }

    function BucketIdx(k: K): (i: nat)
      requires buckets.Length > 0
      ensures i < buckets.Length
    {
      hash(k) % buckets.Length
    }

    /** Inserts unless the key is there; says whether it did, and where the key's entry is. */
    method Insert(k: K, v: V) returns (it: Iter, inserted: bool)
      requires Valid()
      modifies buckets
      ensures Valid()
      ensures inserted == (k !in old(View()))
      ensures View() == if inserted then old(View())[k := v] else old(View())
      ensures OnEntry(buckets[..], it) && k in View() && buckets[it.bucket][it.pos] == (k, View()[k])
    {
      var i := BucketIdx(k);
      ContentsLookup(buckets[..], hash, buckets.Length, k);
      ToMapAt(buckets[i], k);
      it := Iter(i, At(buckets[i], k));
      inserted := it.pos == |buckets[i]|;
      if inserted {
        ghost var before := buckets[..];
        buckets[i] := buckets[i] + [(k, v)];
        assert buckets[..] == before[i := before[i] + [(k, v)]];
        InsertedContents(before, hash, buckets.Length, k, v);
      }
    }

    /** Erases a key and returns how many entries went. */
    method Erase(k: K) returns (count: nat)
      requires Valid()
      modifies buckets
      ensures Valid()
      ensures count == if k in old(View()) then 1 else 0
      ensures View() == old(View()) - {k}
    {
      var i := BucketIdx(k);
      ContentsLookup(buckets[..], hash, buckets.Length, k);
      ToMapAt(buckets[i], k);
      var at := At(buckets[i], k);
      if at == |buckets[i]| {
        return 0;
      }
      ghost var before := buckets[..];
      buckets[i] := buckets[i][..at] + buckets[i][at + 1..];
      assert buckets[..] == before[i := before[i][..at] + before[i][at + 1..]];
      ErasedContents(before, hash, buckets.Length, k, at);
      return 1;
    }

    /** The iterator at a key's entry, or the end. */
    method Find(k: K) returns (it: Iter)
      requires Valid()
      ensures k in View() ==> it.bucket < buckets.Length && it.pos < |buckets[it.bucket]| &&
                              buckets[it.bucket][it.pos] == (k, View()[k])
      ensures k !in View() ==> it == End(buckets[..])
    {
      var i := BucketIdx(k);
      ContentsLookup(buckets[..], hash, buckets.Length, k);
      ToMapAt(buckets[i], k);
      var at := At(buckets[i], k);
      if at == |buckets[i]| {
        return Iter(buckets.Length, |buckets[buckets.Length - 1]|);
      }
      return Iter(i, at);
    }

    method Size() returns (n: nat)
      requires Valid()
      ensures n == |View()|
    {
      n := 0;
      for i := 0 to buckets.Length
        invariant n == TotalSize(buckets[..i])
      {
        assert buckets[..i+1][..i] == buckets[..i];
        n := n + |buckets[i]|;
      }
      assert buckets[..buckets.Length] == buckets[..];
      ContentsSize(buckets[..], hash, buckets.Length);
    }

    method Begin() returns (it: Iter)
      requires buckets.Length > 0
      ensures it == FirstFrom(buckets[..], 0)
    {
      var i := 0;
      while i < buckets.Length
        invariant 0 <= i <= buckets.Length && FirstFrom(buckets[..], i) == FirstFrom(buckets[..], 0)
      {
        if buckets[i] != [] {
          return Iter(i, 0);
        }
        i := i + 1;
      }
      return Iter(buckets.Length, |buckets[buckets.Length - 1]|);
    }

    /** Moves on by one entry, skipping empty buckets; at the end it stays. */
    method Increment(it: Iter) returns (next: Iter)
      requires it.bucket < buckets.Length ==> it.pos < |buckets[it.bucket]|
      ensures next == if it.bucket < buckets.Length then Next(buckets[..], it) else it
    {
      if it.bucket >= buckets.Length {
        return it;
      }
      if it.pos + 1 < |buckets[it.bucket]| {
        return Iter(it.bucket, it.pos + 1);
      }
      var i := it.bucket + 1;
      while i < buckets.Length
        invariant it.bucket < i <= buckets.Length
        invariant FirstFrom(buckets[..], i) == FirstFrom(buckets[..], it.bucket + 1)
      {
        if buckets[i] != [] {
          return Iter(i, 0);
        }
        i := i + 1;
      }
      return Iter(buckets.Length, |buckets[buckets.Length - 1]|);
    }

    method Walk() returns (visited: seq<(K, V)>)
      requires buckets.Length > 0
      ensures visited == Flat(buckets[..])
    {
      visited := [];
      ghost var bs := buckets[..];
      var it := Begin();
      FirstFromRemaining(bs, 0);
      assert bs[0..] == bs;
      while it.bucket < buckets.Length
        invariant it == End(bs) || OnEntry(bs, it)
        invariant visited + Remaining(bs, it) == Flat(bs)
        decreases |Remaining(bs, it)|
      {
        AdvanceRemaining(bs, it, visited);
        visited := visited + [buckets[it.bucket][it.pos]];
        it := Increment(it);
      }
    }

    /** Walking from the beginning to the end visits every entry of the map once, and nothing else. */
    method Traverse() returns (visited: seq<(K, V)>)
      requires Valid()
      ensures Lists(visited, View())
    {
      visited := Walk();
      FlatListsContents(buckets[..], hash, buckets.Length);
    }

    /** Comparing bucket by bucket is comparing the maps, for maps over the same hash function. */
    method Equal(other: MTHashMap<K, V>) returns (same: bool)
      requires Valid() && other.Valid() && hash == other.hash && buckets.Length == other.buckets.Length
      ensures same <==> View() == other.View()
    {
      for i := 0 to buckets.Length
        invariant forall j :: 0 <= j < i ==> ToMap(buckets[j]) == ToMap(other.buckets[j])
      {
        if View() == other.View() {
          BucketOfContents(buckets[..], other.buckets[..], hash, buckets.Length, i);
        }
        if ToMap(buckets[i]) != ToMap(other.buckets[i]) {
          return false;
        }
      }
      SameBuckets(buckets[..], other.buckets[..]);
      return true;
    }
  }

  // ---------------------------------------------------------------- lemmas about the buckets

  lemma {:induction false} EmptyContents<K(!new), V(!new)>(bs: seq<Bucket<K, V>>)
    requires forall i :: 0 <= i < |bs| ==> bs[i] == []
    ensures Contents(bs) == map[]
  {
    if bs != [] { EmptyContents(bs[..|bs|-1]); }
  }

  /** Replacing one bucket by entries that belong there keeps the placement. */
  lemma BucketReplaced<K(!new), V(!new)>(bs: seq<Bucket<K, V>>, hash: K -> nat, size: nat, i: nat, b: Bucket<K, V>)
    requires Placed(bs, hash, size) && i < |bs|
    requires Distinct(b) && forall e :: e in b ==> hash(e.0) % size == i
    ensures Placed(bs[i := b], hash, size)
  {
  }

  lemma BucketLookup<K(!new), V(!new)>(bs: seq<Bucket<K, V>>, hash: K -> nat, size: nat, i: nat, b: Bucket<K, V>, x: K)
    requires Placed(bs, hash, size) && |bs| == size && i < size && Placed(bs[i := b], hash, size)
    ensures var m := if hash(x) % size == i then ToMap(b) else Contents(bs);
            && (x in Contents(bs[i := b]) <==> x in m)
            && (x in m ==> Contents(bs[i := b])[x] == m[x])
  {
    ContentsLookup(bs, hash, size, x);
    ContentsLookup(bs[i := b], hash, size, x);
  }

  lemma AppendedBucket<K(!new), V(!new)>(b: Bucket<K, V>, k: K, v: V)
    requires Distinct(b) && k !in ToMap(b)
    ensures Distinct(b + [(k, v)]) && ToMap(b + [(k, v)]) == ToMap(b)[k := v]
  {
    ToMapAt(b, k);
    assert (b + [(k, v)])[..|b|] == b;
  }

  lemma InsertedContents<K(!new), V(!new)>(bs: seq<Bucket<K, V>>, hash: K -> nat, size: nat, k: K, v: V)
    requires Placed(bs, hash, size) && |bs| == size && k !in Contents(bs)
    ensures var i := hash(k) % size;
            var bs' := bs[i := bs[i] + [(k, v)]];
            Placed(bs', hash, size) && Contents(bs') == Contents(bs)[k := v]
  {
    var i := hash(k) % size;
    ContentsLookup(bs, hash, size, k);
    AppendedBucket(bs[i], k, v);
    BucketReplaced(bs, hash, size, i, bs[i] + [(k, v)]);
    var after, want := Contents(bs[i := bs[i] + [(k, v)]]), Contents(bs)[k := v];
    forall x ensures x in after <==> x in want
      ensures x in after ==> after[x] == want[x]
    {
      ContentsLookup(bs, hash, size, x);
      BucketLookup(bs, hash, size, i, bs[i] + [(k, v)], x);
    }
  }

  lemma ErasedContents<K(!new), V(!new)>(bs: seq<Bucket<K, V>>, hash: K -> nat, size: nat, k: K, at: nat)
    requires Placed(bs, hash, size) && |bs| == size
    requires var b := bs[hash(k) % size]; at < |b| && b[at].0 == k
    ensures var i := hash(k) % size;
            var bs' := bs[i := bs[i][..at] + bs[i][at + 1..]];
            Placed(bs', hash, size) && Contents(bs') == Contents(bs) - {k}
  {
    var i := hash(k) % size;
    var b' := bs[i][..at] + bs[i][at + 1..];
    ErasedBucket(bs[i], b', at);
    BucketReplaced(bs, hash, size, i, b');
    var after, want := Contents(bs[i := b']), Contents(bs) - {k};
    forall x ensures x in after <==> x in want
      ensures x in after ==> after[x] == want[x]
    {
      ContentsLookup(bs, hash, size, x);
      BucketLookup(bs, hash, size, i, b', x);
    }
  }

  lemma ErasedBucket<K(!new), V(!new)>(b: Bucket<K, V>, b': Bucket<K, V>, at: nat)
    requires Distinct(b) && at < |b| && b' == b[..at] + b[at + 1..]
    ensures Distinct(b') && ToMap(b') == ToMap(b) - {b[at].0}
  {
    var want := ToMap(b) - {b[at].0};
    forall x ensures x in ToMap(b') <==> x in want
      ensures x in want ==> ToMap(b')[x] == want[x]
    {
      ErasedLookup(b, b', at, x);
    }
  }

  lemma ErasedLookup<K(!new), V(!new)>(b: Bucket<K, V>, b': Bucket<K, V>, at: nat, x: K)
    requires Distinct(b) && Distinct(b') && at < |b| && b' == b[..at] + b[at + 1..]
    ensures x in ToMap(b') <==> x in ToMap(b) && x != b[at].0
    ensures x in ToMap(b') ==> ToMap(b')[x] == ToMap(b)[x]
  {
    var r := At(b, x);
    ToMapAt(b, x);
    ToMapAt(b', x);
    if r == at {
      assert At(b', x) == |b'|;
    } else if r < |b| {
      ToMapEntry(b', if r < at then r else r - 1);
    } else {
      assert At(b', x) == |b'|;
    }
  }

  lemma NextRemaining<K, V>(bs: seq<Bucket<K, V>>, it: Iter)
    requires OnEntry(bs, it)
    ensures Remaining(bs, Next(bs, it)) == bs[it.bucket][it.pos + 1..] + Flat(bs[it.bucket + 1..])
  {
    var b, tail := bs[it.bucket], Flat(bs[it.bucket + 1..]);
    if it.pos + 1 == |b| {
      FirstFromRemaining(bs, it.bucket + 1);
      assert b[it.pos + 1..] + tail == tail;
    } else {
      assert Next(bs, it) == Iter(it.bucket, it.pos + 1);
    }
  }

  lemma AdvanceRemaining<K, V>(bs: seq<Bucket<K, V>>, it: Iter, visited: seq<(K, V)>)
    requires OnEntry(bs, it)
    ensures |Remaining(bs, Next(bs, it))| < |Remaining(bs, it)|
    ensures visited + [bs[it.bucket][it.pos]] + Remaining(bs, Next(bs, it)) == visited + Remaining(bs, it)
  {
    NextRemaining(bs, it);
    var b := bs[it.bucket];
    assert b[it.pos..] == [b[it.pos]] + b[it.pos + 1..];
    MoveFirst(visited, b[it.pos], b[it.pos + 1..], Flat(bs[it.bucket + 1..]));
  }

  lemma MoveFirst<T>(a: seq<T>, x: T, b: seq<T>, c: seq<T>)
    ensures a + [x] + (b + c) == a + ([x] + b + c)
  {
  }

  lemma {:induction false} FlatBack<K, V>(bs: seq<Bucket<K, V>>)
    requires bs != []
    ensures Flat(bs) == Flat(bs[..|bs|-1]) + bs[|bs|-1]
  {
    var n := |bs| - 1;
    if n == 0 {
      assert bs[1..] == [] && Flat(bs[..0]) == [];
    } else {
      FlatBack(bs[1..]);
      assert bs[1..][..n-1] == bs[..n][1..] && bs[1..][n-1] == bs[n];
    }
  }

  /** The entries of all buckets are the entries of the plain map, each once. */
  lemma {:induction false} FlatListsContents<K(!new), V(!new)>(bs: seq<Bucket<K, V>>, hash: K -> nat, size: nat)
    requires Placed(bs, hash, size)
    ensures Lists(Flat(bs), Contents(bs))
  {
    if bs != [] {
      var n := |bs| - 1;
      FlatListsContents(bs[..n], hash, size);
      FlatBack(bs);
      LastBucketIsNew(bs, hash, size);
      BucketLists(bs[n]);
      ListsAppend(Flat(bs[..n]), Contents(bs[..n]), bs[n], ToMap(bs[n]));
    }
  }

  lemma BucketLists<K(!new), V(!new)>(b: Bucket<K, V>)
    requires Distinct(b)
    ensures Lists(b, ToMap(b))
  {
    ToMapSize(b);
    forall e | e in b ensures e.0 in ToMap(b) && ToMap(b)[e.0] == e.1 {
      var j :| 0 <= j < |b| && b[j] == e;
      ToMapEntry(b, j);
    }
    forall k | k in ToMap(b) ensures (k, ToMap(b)[k]) in b {
      ToMapAt(b, k);
      assert b[At(b, k)] in b;
    }
  }

  lemma ListsAppend<K(!new), V(!new)>(a: seq<(K, V)>, m: map<K, V>, b: seq<(K, V)>, m': map<K, V>)
    requires Lists(a, m) && Lists(b, m') && m.Keys !! m'.Keys
    ensures Lists(a + b, m + m')
  {
    forall i, j | 0 <= i < |a| && 0 <= j < |b| ensures a[i].0 != b[j].0 {
      assert a[i] in a && b[j] in b;
    }
    assert (m + m').Keys == m.Keys + m'.Keys;
    assert |(m + m').Keys| == |m.Keys| + |m'.Keys|;
  }

  lemma {:induction false} SameBuckets<K(!new), V(!new)>(a: seq<Bucket<K, V>>, b: seq<Bucket<K, V>>)
    requires |a| == |b| && forall i :: 0 <= i < |a| ==> ToMap(a[i]) == ToMap(b[i])
    ensures Contents(a) == Contents(b)
  {
    if a != [] { SameBuckets(a[..|a|-1], b[..|b|-1]); }
  }

  /** Equal maps over the same hash function have equal buckets. */
  lemma BucketOfContents<K(!new), V(!new)>(a: seq<Bucket<K, V>>, b: seq<Bucket<K, V>>, hash: K -> nat, size: nat, i: nat)
    requires Placed(a, hash, size) && Placed(b, hash, size) && |a| == |b| == size && i < size
    requires Contents(a) == Contents(b)
    ensures ToMap(a[i]) == ToMap(b[i])
  {
    forall k ensures k in ToMap(a[i]) <==> k in ToMap(b[i])
      ensures k in ToMap(a[i]) ==> ToMap(a[i])[k] == ToMap(b[i])[k]
    {
      ContentsLookup(a, hash, size, k);
      ContentsLookup(b, hash, size, k);
      if k in ToMap(a[i]) { InItsBucket(a, hash, size, i, k); }
      if k in ToMap(b[i]) { InItsBucket(b, hash, size, i, k); }
    }
  }
}
