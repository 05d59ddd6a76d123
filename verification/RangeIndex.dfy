/**
 * The in-memory range index: a mutable ordered map from key to a set of object ids, with
 * batch updates, the bounded ordered scan, and the split around the median object id.
 */
module RangeIndexes {
  import opened Base
  import opened Numerals
  import opened IndexOps
  import opened Selection

  /** A range query as the RPC carries it: textual bounds, an empty one meaning "none". */
  datatype RpcRangeQuery = RpcRangeQuery(lower: string, lowerOpen: bool, upper: string, upperOpen: bool)

  /** A range of keys with each end open or closed. */
  datatype KeyRange = KeyRange(lower: int, lowerOpen: bool, upper: int, upperOpen: bool) {
    predicate Above(k: int) { if lowerOpen then lower < k else lower <= k }
    predicate Contains(k: int) { Above(k) && (if upperOpen then k < upper else k <= upper) }
  }

  /** The bounds a query text stands for; a missing bound falls back to the limit of the key type. */
  function Bounds(t: IntType, q: RpcRangeQuery): Option<KeyRange> {
    var lower := if q.lower == "" then Some(t.min) else LexicalCast(t, q.lower);
    var upper := if q.upper == "" then Some(t.max) else LexicalCast(t, q.upper);
    match (lower, upper)
    case (Some(lo), Some(hi)) => Some(KeyRange(lo, q.lowerOpen, hi, q.upperOpen))
    case _ => None
  }

  /** Among `keys`, those an object is filed under. */
  function KeysOf(idx: Index, keys: set<int>, o: int): set<int> {
    set k | k in keys && k in idx && o in idx[k]
  }

  function KeysIn(idx: Index, range: KeyRange): set<int> {
    set k | k in idx && range.Contains(k)
  }

  /** A search answer lists every object once for each of its keys in the range, and nothing else. */
  ghost predicate Answers(idx: Index, range: KeyRange, results: seq<int>) {
    forall o :: multiset(results)[o] == |KeysOf(idx, KeysIn(idx, range), o)|
  }

  /** The objects of the first key, then those of the next, and so on. */
  ghost predicate KeyByKey(idx: Index, keys: seq<int>, results: seq<int>)
    decreases |keys|
  {
    if keys == [] then results == []
    else
      var k := keys[|keys|-1];
      && k in idx && |idx[k]| <= |results|
      && (var n := |results| - |idx[k]|;
          multiset(results[n..]) == multiset(idx[k]) && KeyByKey(idx, keys[..|keys|-1], results[..n]))
  }

  ghost predicate Rising(keys: seq<int>) { forall i, j :: 0 <= i < j < |keys| ==> keys[i] < keys[j] }

  /** A search answer comes in the order of the keys. */
  ghost predicate InKeyOrder(idx: Index, range: KeyRange, results: seq<int>) {
    exists keys :: Rising(keys) && (forall k :: k in keys <==> k in KeysIn(idx, range)) && KeyByKey(idx, keys, results)
  }

  lemma KeyByKeyMore(idx: Index, keys: seq<int>, results: seq<int>, k: int, ids: seq<int>)
    requires KeyByKey(idx, keys, results) && k in idx && multiset(ids) == multiset(idx[k])
    ensures KeyByKey(idx, keys + [k], results + ids)
  {
    assert |ids| == |multiset(ids)| == |idx[k]|;
    assert (keys + [k])[..|keys|] == keys;
    assert (results + ids)[..|results|] == results && (results + ids)[|results|..] == ids;
  }

  lemma RisingMore(keys: seq<int>, k: int)
    requires Rising(keys) && forall x :: x in keys ==> x < k
    ensures Rising(keys + [k])
  {
    forall i | 0 <= i < |keys| ensures keys[i] < k { assert keys[i] in keys; }
  }

  lemma AnswersMembership(idx: Index, range: KeyRange, results: seq<int>, o: int)
    requires Answers(idx, range, results)
    ensures o in results <==> exists k :: range.Contains(k) && Has(idx, k, o)
  {
    var keys := KeysOf(idx, KeysIn(idx, range), o);
    assert o in results <==> multiset(results)[o] > 0;
    if o in results {
      var k := Pick(keys);
      assert Has(idx, k, o);
    }
    if k :| range.Contains(k) && Has(idx, k, o) {
      assert k in keys;
    }
  }

  lemma PairsOfOneKey(idx: Index, k: int)
    requires k in idx
    ensures |Pairs(idx)| == |idx[k]| + |Pairs(idx - {k})|
  {
    var here := set o | o in idx[k] :: (k, o);
    assert Pairs(idx) == here + Pairs(idx - {k});
    assert here !! Pairs(idx - {k});
    TaggedSize(k, idx[k]);
  }

  lemma {:induction false} TaggedSize(k: int, s: set<int>)
    ensures |set o | o in s :: (k, o)| == |s|
    decreases |s|
  {
    if s == {} {
      assert (set o | o in s :: (k, o)) == {};
    } else {
      var x := Pick(s);
      TaggedSize(k, s - {x});
      assert (set o | o in s :: (k, o)) == (set o | o in s - {x} :: (k, o)) + {(k, x)};
    }
  }

  /** Where an ordered iterator stands: the least of the keys not yet visited. */
  method Least(s: set<int>) returns (m: int)
    requires s != {}
    ensures m in s && forall x :: x in s ==> m <= x
  {
    ghost var least := LeastExists(s);
    m :| m in s && forall x :: x in s ==> m <= x;
  }

  lemma VisitKey(idx: Index, done: set<int>, k: int, results: seq<int>, ids: seq<int>)
    requires k in idx && k !in done && multiset(ids) == multiset(idx[k])
    requires forall o :: multiset(results)[o] == |KeysOf(idx, done, o)|
    ensures forall o :: multiset(results + ids)[o] == |KeysOf(idx, done + {k}, o)|
  {
    forall o ensures multiset(results + ids)[o] == |KeysOf(idx, done + {k}, o)| {
      assert multiset(results + ids)[o] == multiset(results)[o] + multiset(ids)[o];
      var more := if o in idx[k] then {k} else {};
      assert KeysOf(idx, done + {k}, o) == KeysOf(idx, done, o) + more;
      assert k !in KeysOf(idx, done, o);
    }
  }

  /** Iterating over an unordered set: every element once, in some order. */
  method Elements(s: set<int>) returns (r: seq<int>)
    ensures multiset(r) == multiset(s)
  {
    r := [];
    var rest := s;
    while rest != {}
      invariant rest <= s
      invariant multiset(r) == multiset(s) - multiset(rest)
      decreases |rest|
    {
      ghost var w := Pick(rest);
      var x :| x in rest;
      r := r + [x];
      rest := rest - {x};
    }
  }

  /** The pairs at or above the median are copied, except for those of the keys still to come. */
  ghost predicate Copied(idx: Index, copy: Index, keys: set<int>, median: int) {
    forall k, o :: Has(copy, k, o) <==> Has(idx, k, o) && median <= o && k !in keys
  }

  lemma CopyKey(idx: Index, copy: Index, keys: set<int>, median: int, k: int, moved: set<int>)
    requires Copied(idx, copy, keys, median) && k in keys && k in idx && moved == set o | o in idx[k] && o >= median
    ensures Copied(idx, if moved == {} then copy else copy[k := moved], keys - {k}, median)
  {
    var copy' := if moved == {} then copy else copy[k := moved];
    forall j, o ensures Has(copy', j, o) <==> Has(idx, j, o) && median <= o && j !in keys - {k} {
      assert Has(copy, j, o) <==> Has(idx, j, o) && median <= o && j !in keys;
      if j == k { assert o in moved <==> o in idx[k] && o >= median; }
    }
  }

  /** Of the keys above the lower bound some are done, all of them in the range and smaller than those left. */
  ghost predicate ScanState(idx: Index, range: KeyRange, rest: set<int>, done: set<int>) {
    && (forall k :: k in idx && range.Above(k) <==> k in rest || k in done)
    && (forall k :: k in done ==> range.Contains(k))
    && (forall j, k :: j in done && k in rest ==> j < k)
  }

  lemma ScanOn(idx: Index, range: KeyRange, rest: set<int>, done: set<int>, k: int)
    requires ScanState(idx, range, rest, done) && k in rest && (forall x :: x in rest ==> k <= x) && range.Contains(k)
    ensures ScanState(idx, range, rest - {k}, done + {k})
  {
  }

  /** At the end of the keys, or at the first past the upper bound, what is done is exactly what is in the range. */
  lemma ScanEnds(idx: Index, range: KeyRange, rest: set<int>, done: set<int>)
    requires ScanState(idx, range, rest, done)
    requires rest == {} || exists k :: k in rest && (forall x :: x in rest ==> k <= x) && !range.Contains(k)
    ensures done == KeysIn(idx, range)
  {
    forall k ensures k in done <==> k in KeysIn(idx, range) {
    }
  }

  /** One more update: it is applied on top of those before, or it ends the batch. */
  lemma DecodeStep(t: IntType, us: seq<RecordUpdate>, i: nat, idx: Index)
    requires i < |us| && DecodeAll(t, us[..i]).ok
    ensures Decode(t, us[i]).None? ==> DecodeAll(t, us) == Batch(DecodeAll(t, us[..i]).writes, false)
    ensures Decode(t, us[i]).Some? ==>
              && DecodeAll(t, us[..i+1]).ok
              && ApplyAll(idx, DecodeAll(t, us[..i+1]).writes) ==
                 Apply(ApplyAll(idx, DecodeAll(t, us[..i]).writes), Decode(t, us[i]).value)
  {
    var before := DecodeAll(t, us[..i]).writes;
    assert us == us[..i] + us[i..];
    DecodeAllConcat(t, us[..i], us[i..]);
    assert before + [] == before;
    if Decode(t, us[i]).Some? {
      var w := Decode(t, us[i]).value;
      assert us[..i+1] == us[..i] + [us[i]];
      DecodeAllConcat(t, us[..i], [us[i]]);
      assert [us[i]][1..] == [] && [w] + [] == [w];
      assert DecodeAll(t, [us[i]]) == Batch([w], true);
      assert (before + [w])[..|before|] == before;
    }
  }

  class RangeIndex {
    const keyType: IntType
    var index: Index

    ghost predicate Valid()
      reads this
    {
      keyType.Valid() && Tight(index)
    }

    constructor (t: IntType)
      requires t.Valid()
      ensures Valid() && keyType == t && index == map[]
    {
      keyType := t;
      index := map[];
    }

    method Insert(k: int, o: int)
      requires Valid()
      modifies this
      ensures Valid() && index == Apply(old(index), Write(k, o, true))
    {
      if k !in index {
        index := index[k := {}];
      }
      index := index[k := index[k] + {o}];
    }

    /** Drops one pair, and the key with it once no object is left. */
    method Erase(k: int, o: int)
      requires Valid()
      modifies this
      ensures Valid() && index == Apply(old(index), Write(k, o, false))
    {
      if k in index {
        index := index[k := index[k] - {o}];
        if index[k] == {} {
          index := index - {k};
        }
      }
    }

    /** Applies a batch, stopping at the first malformed update with the earlier ones in place. */
    method ApplyUpdates(us: seq<RecordUpdate>) returns (ok: bool)
      requires Valid()
      modifies this
      ensures Valid()
      ensures ok == DecodeAll(keyType, us).ok
      ensures index == ApplyAll(old(index), DecodeAll(keyType, us).writes)
    {
      var i := 0;
      assert us[..0] == [];
      while i < |us|
        invariant 0 <= i <= |us|
        invariant Valid()
        invariant DecodeAll(keyType, us[..i]).ok
        invariant index == ApplyAll(old(index), DecodeAll(keyType, us[..i]).writes)
      {
        var u := us[i];
        var key, obj := LexicalCast(keyType, u.key), LexicalCast(INT64, u.value);
        DecodeStep(keyType, us, i, old(index));
        if key.None? || obj.None? {
          return false;
        }
        match u.op {
          case INSERT => Insert(key.value, obj.value);
          case UPDATE => Insert(key.value, obj.value);
          case REMOVE => Erase(key.value, obj.value);
          case UNKNOWN => return false;
        }
        i := i + 1;
      }
      assert us[..i] == us;
      return true;
    }

    /** The number of records: one per (key, object) pair. */
    method Size() returns (n: nat)
      ensures n == |Pairs(index)|
    {
      n := 0;
      var rest := index;
      while rest.Keys != {}
        invariant rest.Keys <= index.Keys && forall k :: k in rest ==> rest[k] == index[k]
        invariant n + |Pairs(rest)| == |Pairs(index)|
        decreases |rest|
      {
        ghost var w := Pick(rest.Keys);
        var k :| k in rest.Keys;
        PairsOfOneKey(rest, k);
        n := n + |rest[k]|;
        rest := rest - {k};
      }
      assert Pairs(rest) == {};
    }

    /** The bounded scan: from the first key past the lower bound, in key order, until the upper bound is passed. */
    method Scan(range: KeyRange) returns (results: seq<int>)
      requires Valid()
      ensures Answers(index, range, results) && InKeyOrder(index, range, results)
    {
      results := [];
      var rest := set k | k in index && range.Above(k);
      ghost var keys: seq<int> := [];
      ghost var done: set<int> := {};
      forall o ensures |KeysOf(index, done, o)| == 0 { assert KeysOf(index, done, o) == {}; }
      while rest != {}
        invariant ScanState(index, range, rest, done)
        invariant forall o :: multiset(results)[o] == |KeysOf(index, done, o)|
        invariant Rising(keys) && (forall k :: k in keys <==> k in done) && KeyByKey(index, keys, results)
        decreases |rest|
      {
        var k := Least(rest);
        if k > range.upper || (range.upperOpen && k >= range.upper) {
          break;
        }
        var ids := Elements(index[k]);
        VisitKey(index, done, k, results, ids);
        KeyByKeyMore(index, keys, results, k, ids);
        RisingMore(keys, k);
        ScanOn(index, range, rest, done, k);
        results, keys := results + ids, keys + [k];
        rest, done := rest - {k}, done + {k};
      }
      ScanEnds(index, range, rest, done);
    }

    /** A search by query text; fails when a bound does not read as a key. */
    method Search(q: RpcRangeQuery) returns (results: Option<seq<int>>)
      requires Valid()
      ensures results.None? <==> Bounds(keyType, q).None?
      ensures results.Some? ==> Answers(index, Bounds(keyType, q).value, results.value)
      ensures results.Some? ==> InKeyOrder(index, Bounds(keyType, q).value, results.value)
    {
      var lower, upper := Some(keyType.min), Some(keyType.max);
      if q.lower != "" {
        lower := LexicalCast(keyType, q.lower);
      }
      if q.upper != "" {
        upper := LexicalCast(keyType, q.upper);
      }
      if lower.None? || upper.None? {
        return None;
      }
      var found := Scan(KeyRange(lower.value, q.lowerOpen, upper.value, q.upperOpen));
      return Some(found);
    }

    /**
     * Splits around the median object id: pairs whose id is below it stay, the others move to `other`.
     * Nothing is lost or doubled, no empty key remains, and at most half of the records stay:
     * exactly half, rounded down, when no object is filed under two keys.
     */
    method Split(other: RangeIndex) returns (median: int)
      requires Valid() && other.Valid() && other != this
      requires other.index == map[] && index != map[]
      modifies this, other
      ensures Valid() && other.Valid()
      ensures forall k, o :: Has(index, k, o) <==> old(Has(index, k, o)) && o < median
      ensures forall k, o :: Has(other.index, k, o) <==> old(Has(index, k, o)) && median <= o
      ensures exists k :: old(Has(index, k, median))
      ensures |Pairs(index)| <= |old(Pairs(index))| / 2
      ensures (forall p, q :: p in old(Pairs(index)) && q in old(Pairs(index)) && p.1 == q.1 ==> p == q) ==>
              |Pairs(index)| == |old(Pairs(index))| / 2
    {
      ghost var whole := index;
      var total := Size();
      var ids, src := CollectIds();
      assert total > 0 by {
        var k := Pick(index.Keys);
        var o := Pick(index[k]);
        assert (k, o) in Pairs(index);
      }
      ghost var collected := ids;
      var pos := total / 2;
      ids := NthElement(ids, pos);
      median := ids[pos];
      assert multiset(ids)[median] > 0;
      MoveAbove(other, median);
      RemoveMoved(other, median, whole);
      assert Pairs(index) == set p | p in src && p.1 < median by {
        forall p: (int, int) ensures p in Pairs(index) <==> p in src && p.1 < median {
          assert p in Pairs(index) <==> Has(index, p.0, p.1);
          assert p in Pairs(whole) <==> Has(whole, p.0, p.1);
        }
      }
      KeptCount(src, collected, ids, median);
      assert median in collected;
      ghost var at :| 0 <= at < |collected| && collected[at] == median;
      assert src[at] in Pairs(whole);
      assert Has(whole, src[at].0, median);
    }

    /** All object ids, one per record, together with the records they come from. */
    method CollectIds() returns (ids: seq<int>, ghost src: seq<(int, int)>)
      requires Valid()
      ensures |ids| == |src| == |Pairs(index)| && Listing(src, Pairs(index))
      ensures forall i :: 0 <= i < |src| ==> src[i].1 == ids[i]
    {
      ids, src := [], [];
      var keys := index.Keys;
      ghost var seen: set<(int, int)> := {};
      while keys != {}
        invariant keys <= index.Keys
        invariant |ids| == |src| && Listing(src, seen)
        invariant seen == set p | p in Pairs(index) && p.0 !in keys
        invariant forall i :: 0 <= i < |src| ==> src[i].1 == ids[i]
        decreases |keys|
      {
        ghost var w := Pick(keys);
        var k :| k in keys;
        var rest := index[k];
        while rest != {}
          invariant rest <= index[k]
          invariant |ids| == |src| && Listing(src, seen)
          invariant seen == set p | p in Pairs(index) && (p.0 !in keys || (p.0 == k && p.1 !in rest))
          invariant forall i :: 0 <= i < |src| ==> src[i].1 == ids[i]
          decreases |rest|
        {
          ghost var v := Pick(rest);
          var o :| o in rest;
          ids, src := ids + [o], src + [(k, o)];
          seen := seen + {(k, o)};
          rest := rest - {o};
        }
        keys := keys - {k};
      }
      assert seen == Pairs(index);
      ListingSize(src, seen);
    }

    /** Copies every pair at or above the median to `other`. */
    method MoveAbove(other: RangeIndex, median: int)
      requires Valid() && other.Valid() && other != this && other.index == map[]
      modifies other
      ensures other.Valid()
      ensures forall k, o :: Has(other.index, k, o) <==> Has(index, k, o) && median <= o
    {
      var keys := index.Keys;
      while keys != {}
        invariant keys <= index.Keys && other.Valid()
        invariant Copied(index, other.index, keys, median)
        decreases |keys|
      {
        ghost var w := Pick(keys);
        var k :| k in keys;
        var moved := set o | o in index[k] && o >= median;
        CopyKey(index, other.index, keys, median, k, moved);
        if moved != {} {
          other.index := other.index[k := moved];
        }
        keys := keys - {k};
      }
    }

    /** Removes from this index every pair that `other` received. */
    method RemoveMoved(other: RangeIndex, median: int, ghost whole: Index)
      requires Valid() && other.Valid() && other != this && whole == index
      requires forall k, o :: Has(other.index, k, o) <==> Has(index, k, o) && median <= o
      modifies this
      ensures Valid()
      ensures forall k, o :: Has(index, k, o) <==> Has(whole, k, o) && o < median
    {
      var keys := other.index.Keys;
      while keys != {}
        invariant keys <= other.index.Keys && Valid()
        invariant forall k, o :: Has(index, k, o) <==>
                    Has(whole, k, o) && (median <= o ==> k in keys)
        decreases |keys|
      {
        ghost var w := Pick(keys);
        var k :| k in keys;
        ghost var some := Pick(other.index[k]);
        assert Has(other.index, k, some) && Has(whole, k, some) && Has(index, k, some);
        var rest := other.index[k];
        ghost var before := index;
        while rest != {}
          invariant rest <= other.index[k]
          invariant k in index && (forall j :: j in index && j != k ==> index[j] != {})
          invariant forall j, o :: Has(index, j, o) <==>
                      Has(before, j, o) && !(j == k && o in other.index[k] && o !in rest)
          decreases |rest|
        {
          ghost var v := Pick(rest);
          var o :| o in rest;
          index := index[k := index[k] - {o}];
          rest := rest - {o};
        }
        if index[k] == {} {
          index := index - {k};
        }
        keys := keys - {k};
        forall j, o ensures Has(index, j, o) <==> Has(whole, j, o) && (median <= o ==> j in keys) {
          assert Has(other.index, k, o) <==> Has(whole, k, o) && median <= o;
        }
      }
      forall j, o ensures Has(index, j, o) <==> Has(whole, j, o) && o < median {
        assert Has(other.index, j, o) <==> Has(whole, j, o) && median <= o;
      }
    }
  }
}

/** Selection of the n-th smallest element and the counting behind the split. */
module Selection {
  import opened Base

  /** `a` lists the elements of `s` without repetition. */
  ghost predicate Listing<T(!new)>(a: seq<T>, s: set<T>) {
    && (forall i, j :: 0 <= i < j < |a| ==> a[i] != a[j])
    && (forall x :: x in s <==> x in a)
  }

  lemma {:induction false} ListingSize<T(!new)>(a: seq<T>, s: set<T>)
    requires Listing(a, s)
    ensures |a| == |s|
  {
    if a == [] {
      NoMembers(s);
    } else {
      var n := |a| - 1;
      var s' := s - {a[n]};
      forall x ensures x in s' <==> x in a[..n] {
        assert a == a[..n] + [a[n]];
      }
      ListingSize(a[..n], s');
    }
  }

  ghost predicate Ascending(a: seq<int>) { forall i, j :: 0 <= i < j < |a| ==> a[i] <= a[j] }

  /** Inserts before the first element that is not smaller. */
  function Place(x: int, a: seq<int>): (r: seq<int>)
    ensures multiset(r) == multiset(a) + multiset{x}
  {
    if a == [] then [x]
    else if x <= a[0] then [x] + a
    else
      assert a == [a[0]] + a[1..];
      [a[0]] + Place(x, a[1..])
  }

  lemma {:induction false} PlaceBound(x: int, a: seq<int>, m: int)
    requires m <= x && forall i :: 0 <= i < |a| ==> m <= a[i]
    ensures forall i :: 0 <= i < |Place(x, a)| ==> m <= Place(x, a)[i]
  {
    if a != [] { PlaceBound(x, a[1..], m); }
  }

  lemma {:induction false} PlaceAscending(x: int, a: seq<int>)
    requires Ascending(a)
    ensures Ascending(Place(x, a))
  {
    if a != [] && a[0] < x {
      PlaceAscending(x, a[1..]);
      PlaceBound(x, a[1..], a[0]);
    }
  }

  function Sorted(a: seq<int>): (r: seq<int>)
    ensures multiset(r) == multiset(a) && Ascending(r)
  {
    if a == [] then [] else
      assert a == [a[0]] + a[1..];
      PlaceAscending(a[0], Sorted(a[1..]));
      Place(a[0], Sorted(a[1..]))
  }

  /** Rearranges so that the element at `n` is in its sorted place: the guarantee of `std::nth_element`. */
  method NthElement(a: seq<int>, n: nat) returns (r: seq<int>)
    requires n < |a|
    ensures multiset(r) == multiset(a) && |r| == |a|
    ensures forall i :: 0 <= i < n ==> r[i] <= r[n]
    ensures forall i :: n <= i < |r| ==> r[n] <= r[i]
  {
    r := Sorted(a);
    assert |r| == |multiset(r)| == |multiset(a)|;
  }

  function Below(a: seq<int>, m: int): nat {
    if a == [] then 0 else Below(a[..|a|-1], m) + (if a[|a|-1] < m then 1 else 0)
  }

  lemma {:induction false} BelowConcat(a: seq<int>, b: seq<int>, m: int)
    ensures Below(a + b, m) == Below(a, m) + Below(b, m)
  {
    if b == [] {
      assert a + b == a;
    } else {
      assert (a + b)[..|a + b|-1] == a + b[..|b|-1];
      BelowConcat(a, b[..|b|-1], m);
    }
  }

  /** Counting does not depend on the order. */
  lemma {:induction false} BelowPermutation(a: seq<int>, b: seq<int>, m: int)
    requires multiset(a) == multiset(b)
    ensures Below(a, m) == Below(b, m)
    decreases |a|
  {
    if a == [] {
      assert |b| == |multiset(b)| == |multiset(a)| == 0;
    } else {
      var x := a[|a|-1];
      assert x in multiset(a);
      assert x in b;
      var j :| 0 <= j < |b| && b[j] == x;
      var b' := b[..j] + b[j+1..];
      assert a == a[..|a|-1] + [x];
      assert b == b[..j] + [x] + b[j+1..];
      assert multiset(b') == multiset(b) - multiset{x};
      BelowPermutation(a[..|a|-1], b', m);
      BelowConcat(b[..j], [x], m);
      BelowConcat(b[..j] + [x], b[j+1..], m);
      BelowConcat(b[..j], b[j+1..], m);
      assert [x][..0] == [];
    }
  }

  lemma {:induction false} BelowBounds(a: seq<int>, m: int)
    ensures Below(a, m) <= |a|
    ensures (forall i :: 0 <= i < |a| ==> m <= a[i]) ==> Below(a, m) == 0
    ensures (forall i :: 0 <= i < |a| ==> a[i] < m) ==> Below(a, m) == |a|
  {
    if a != [] { BelowBounds(a[..|a|-1], m); }
  }

  /** The records whose id is below `m` are as many as the ids below `m`. */
  lemma {:induction false} BelowIsCardinality(src: seq<(int, int)>, ids: seq<int>, m: int)
    requires |src| == |ids| && forall i :: 0 <= i < |src| ==> src[i].1 == ids[i]
    requires forall i, j :: 0 <= i < j < |src| ==> src[i] != src[j]
    ensures Below(ids, m) == |set p | p in src && p.1 < m|
  {
    if src == [] {
      assert (set p | p in src && p.1 < m) == {};
    } else {
      var n := |src| - 1;
      BelowIsCardinality(src[..n], ids[..n], m);
      assert src == src[..n] + [src[n]];
      var before := set p | p in src[..n] && p.1 < m;
      assert (set p | p in src && p.1 < m) == before + (if src[n].1 < m then {src[n]} else {});
      assert src[n] !in before;
    }
  }

  /** How many records a split around the median keeps. */
  lemma KeptCount(src: seq<(int, int)>, ids: seq<int>, v: seq<int>, median: int)
    requires |src| == |ids| == |v| && |v| > 0 && multiset(v) == multiset(ids)
    requires forall i :: 0 <= i < |src| ==> src[i].1 == ids[i]
    requires forall i, j :: 0 <= i < j < |src| ==> src[i] != src[j]
    requires v[|v| / 2] == median
    requires forall i :: 0 <= i < |v| / 2 ==> v[i] <= median
    requires forall i :: |v| / 2 <= i < |v| ==> median <= v[i]
    ensures |set p | p in src && p.1 < median| <= |src| / 2
    ensures (forall p, q :: p in src && q in src && p.1 == q.1 ==> p == q) ==>
            |set p | p in src && p.1 < median| == |src| / 2
  {
    var h := |v| / 2;
    BelowIsCardinality(src, ids, median);
    BelowPermutation(ids, v, median);
    BelowInHalf(v, h, median);
    if forall p, q :: p in src && q in src && p.1 == q.1 ==> p == q {
      OnceInSequence(src, ids, median);
      BelowMedian(v, h, median);
    }
  }

  lemma BelowInHalf(v: seq<int>, h: nat, median: int)
    requires h <= |v| && forall i :: h <= i < |v| ==> median <= v[i]
    ensures Below(v, median) <= h
    ensures (forall i :: 0 <= i < h ==> v[i] < median) ==> Below(v, median) == h
  {
    assert v == v[..h] + v[h..];
    BelowConcat(v[..h], v[h..], median);
    BelowBounds(v[..h], median);
    BelowBounds(v[h..], median);
  }

  lemma BelowMedian(v: seq<int>, h: nat, median: int)
    requires h < |v| && v[h] == median && multiset(v)[median] <= 1 && forall i :: 0 <= i < h ==> v[i] <= median
    ensures forall i :: 0 <= i < h ==> v[i] < median
  {
    forall i | 0 <= i < h ensures v[i] < median {
      if v[i] == median { TwiceInSequence(v, i, h); }
    }
  }

  lemma TwiceInSequence(v: seq<int>, i: nat, j: nat)
    requires i < j < |v| && v[i] == v[j]
    ensures multiset(v)[v[i]] >= 2
  {
    assert v == v[..i] + [v[i]] + v[i+1..j] + [v[j]] + v[j+1..];
  }

  lemma {:induction false} OnceInSequence(src: seq<(int, int)>, ids: seq<int>, x: int)
    requires |src| == |ids| && forall i :: 0 <= i < |src| ==> src[i].1 == ids[i]
    requires forall i, j :: 0 <= i < j < |src| ==> src[i] != src[j]
    requires forall p, q :: p in src && q in src && p.1 == q.1 ==> p == q
    ensures multiset(ids)[x] <= 1
  {
    if ids != [] {
      var n := |ids| - 1;
      assert forall p :: p in src[..n] ==> p in src;
      OnceInSequence(src[..n], ids[..n], x);
      assert ids == ids[..n] + [ids[n]];
      forall i | 0 <= i < n ensures ids[i] != ids[n] {
        assert src[i] != src[n] && src[i] in src && src[n] in src;
      }
      assert ids[n] !in ids[..n];
    }
  }
}
