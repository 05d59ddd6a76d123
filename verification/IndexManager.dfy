/**
 * The index manager of an index server: all its indices, and the search over several of them,
 * whose answers are concatenated.
 */
module IndexManagers {
  import opened Base
  import opened Numerals
  import opened IndexOps
  import opened RangeIndexes
  import opened LogManagers
  import opened IndexWrappers

  /** One range query on one index. */
  datatype SubQuery = SubQuery(indexPath: string, range: RpcRangeQuery)

  datatype Found = Complete | NoSuchIndex | Failed(outcome: Outcome)

  function Concat(parts: seq<seq<int>>): seq<int> {
    if parts == [] then [] else Concat(parts[..|parts|-1]) + parts[|parts|-1]
  }

  lemma ConcatMore(parts: seq<seq<int>>, p: seq<int>)
    ensures Concat(parts + [p]) == Concat(parts) + p
  {
    assert (parts + [p])[..|parts|] == parts;
  }

  lemma {:induction false} InConcat(parts: seq<seq<int>>, o: int)
    ensures o in Concat(parts) <==> exists i :: 0 <= i < |parts| && o in parts[i]
  {
    if parts != [] {
      var n := |parts| - 1;
      InConcat(parts[..n], o);
      if o in Concat(parts[..n]) {
        var i :| 0 <= i < n && o in parts[..n][i];
        assert o in parts[i];
      }
      if i :| 0 <= i < |parts| && o in parts[i] {
        if i < n { assert o in parts[..n][i]; }
      }
    }
  }

  /** Merging twice up to the same id is merging once. */
  lemma MergeTwice(t: IntType, w: Wrapper, txn: nat)
    requires Tight(w.index) && MergeState(t, w, txn).1.Done?
    ensures MergeState(t, MergeState(t, w, txn).0, txn) == MergeState(t, w, txn)
  {
    Idempotent(w.index, Writes(t, w.log.records[..Upto(w.log.records, txn)]).writes);
  }

  /** The indices of a server by path: key types, and states before a search. */
  datatype Server = Server(types: map<string, IntType>, states: map<string, Wrapper>) {
    /** The merge a search starts with, on one index. */
    function Merge(path: string, txn: nat): (Wrapper, Outcome)
      requires path in types && path in states
    {
      MergeState(types[path], states[path], txn)
    }

    function With(path: string, w: Wrapper): Server { Server(types, states[path := w]) }

    ghost predicate Whole() { types.Keys == states.Keys && forall k :: k in states ==> Tight(states[k].index) }

    /** The sub-query names an index that can be merged. */
    predicate Can(q: SubQuery, txn: nat) { q.indexPath in types && q.indexPath in states && Merge(q.indexPath, txn).1.Done? }

    /** The part is the answer to a sub-query, from the index as merged. */
    ghost predicate IsPart(q: SubQuery, txn: nat, part: seq<int>) {
      Can(q, txn) && Part(types[q.indexPath], Merge(q.indexPath, txn).0.index, q.range, part)
    }

    /** The results are the answers to all sub-queries, one after the other. */
    ghost predicate Results(qs: seq<SubQuery>, txn: nat, results: seq<int>) {
      exists parts :: AreParts(qs, txn, parts) && results == Concat(parts)
    }

    ghost predicate AreParts(qs: seq<SubQuery>, txn: nat, parts: seq<seq<int>>) {
      |parts| == |qs| && forall i :: 0 <= i < |qs| ==> IsPart(qs[i], txn, parts[i])
    }
  }

  /** An object is in the answer exactly when some sub-query's merged index has it under a key in that range: a union. */
  lemma ResultsAreUnion(s: Server, qs: seq<SubQuery>, txn: nat, results: seq<int>, o: int)
    requires s.Results(qs, txn, results)
    ensures o in results <==>
            exists i :: 0 <= i < |qs| && Finds(s, qs[i], txn, o)
  {
    var parts :| s.AreParts(qs, txn, parts) && results == Concat(parts);
    InConcat(parts, o);
    forall i | 0 <= i < |qs| ensures o in parts[i] <==> Finds(s, qs[i], txn, o) {
      assert s.IsPart(qs[i], txn, parts[i]);
      PartFinds(s, qs[i], txn, parts[i], o);
    }
  }

  lemma ResultsCan(s: Server, qs: seq<SubQuery>, txn: nat, results: seq<int>, i: nat)
    requires s.Results(qs, txn, results) && i < |qs|
    ensures s.Can(qs[i], txn)
  {
    var parts :| s.AreParts(qs, txn, parts) && results == Concat(parts);
    assert s.IsPart(qs[i], txn, parts[i]);
  }

  /** The merged index has the object under a key in the range. */
  ghost predicate Finds(s: Server, q: SubQuery, txn: nat, o: int) {
    && s.Can(q, txn) && Bounds(s.types[q.indexPath], q.range).Some?
    && exists k :: Bounds(s.types[q.indexPath], q.range).value.Contains(k) && Has(s.Merge(q.indexPath, txn).0.index, k, o)
  }

  lemma PartFinds(s: Server, q: SubQuery, txn: nat, part: seq<int>, o: int)
    requires s.IsPart(q, txn, part)
    ensures o in part <==> Finds(s, q, txn, o)
  {
    var b := Bounds(s.types[q.indexPath], q.range);
    if b.Some? { AnswersMembership(s.Merge(q.indexPath, txn).0.index, b.value, part, o); }
  }

  class IndexManager {
    const indices: map<string, RangeIndexWrapper>

    /** What a search may change: the logs it only reads. */
    ghost function Merging(): set<object>
      reads this
    {
      (set k | k in indices :: indices[k]) + (set k | k in indices :: indices[k].index)
    }

    ghost function Objects(): set<object>
      reads this
    {
      Merging() + (set k | k in indices :: indices[k].logManager)
    }

    /** The indices are valid, and no two share an object. */
    ghost predicate Valid()
      reads this, Merging()
    {
      && (forall k :: k in indices ==> indices[k].Valid())
      && (forall j, k :: j in indices && k in indices && j != k ==> indices[j] != indices[k] && indices[j].index != indices[k].index)
    }

    ghost function View(): Server
      reads this, Objects()
    {
      Server(map k | k in indices :: indices[k].index.keyType, map k | k in indices :: indices[k].View())
    }

    constructor (ws: map<string, RangeIndexWrapper>)
      requires forall k :: k in ws ==> ws[k].Valid()
      requires forall j, k :: j in ws && k in ws && j != k ==> ws[j] != ws[k] && ws[j].index != ws[k].index
      ensures Valid() && indices == ws
    {
      indices := ws;
    }

    /** One sub-query: merges its index and scans it, and touches no other. */
    method SearchOne(txn: nat, q: SubQuery) returns (outcome: Outcome, part: seq<int>)
      requires Valid() && q.indexPath in indices
      modifies Merging()
      ensures Valid() && View() == old(View()).With(q.indexPath, old(View()).Merge(q.indexPath, txn).0)
      ensures outcome == old(View()).Merge(q.indexPath, txn).1
      ensures outcome.Done? ==> old(View()).IsPart(q, txn, part)
    {
      var w := indices[q.indexPath];
      outcome, part := w.Search(txn, q.range);
      OneChanged(q.indexPath);
    }

    /** A step that leaves all other indices alone changes the state at one path. */
    twostate lemma OneChanged(path: string)
      requires path in indices
      requires forall k :: k in indices && k != path ==> unchanged(indices[k]) && unchanged(indices[k].index)
      requires forall k :: k in indices ==> unchanged(indices[k].logManager)
      ensures View() == old(View()).With(path, indices[path].View())
    {
      forall k | k in indices && k != path ensures indices[k].View() == old(indices[k].View()) {
        OneUnchanged(indices[k]);
      }
      assert View().states == old(View()).states[path := indices[path].View()];
    }

    twostate lemma OneUnchanged(w: RangeIndexWrapper)
      requires unchanged(w) && unchanged(w.index) && unchanged(w.logManager)
      ensures w.View() == old(w.View())
    {
    }

    /**
     * Searches index after index, and stops at the first that is missing or cannot be merged. An index named twice
     * answers twice, from the same merged state. When it stops, what was answered and merged by then stays.
     */
    method Search(txn: nat, qs: seq<SubQuery>) returns (found: Found, results: seq<int>, ghost stop: nat)
      requires Valid()
      modifies Merging()
      ensures Valid() && Searched(old(View()), View(), txn, qs, stop, found, results)
      ensures found.Complete? <==> forall i :: 0 <= i < |qs| ==> old(View()).Can(qs[i], txn)
      ensures found.Complete? ==> old(View()).Results(qs, txn, results)
    {
      results := [];
      ghost var start := View();
      ghost var parts: seq<seq<int>> := [];
      for n := 0 to |qs|
        invariant Valid() && Progress(start, View(), txn, qs[..n], parts, results)
      {
        if qs[n].indexPath !in indices {
          StoppedAt(start, View(), txn, qs, n, parts, results);
          return NoSuchIndex, results, n;
        }
        ghost var before := View();
        var outcome, part := SearchOne(txn, qs[n]);
        MergeAgain(start, before, txn, PathsIn(qs[..n]), qs[n].indexPath);
        if !outcome.Done? {
          StoppedAt(start, before, txn, qs, n, parts, results);
          return Failed(outcome), results, n;
        }
        ProgressMore(start, before, txn, qs, n, parts, results, part);
        results, parts := results + part, parts + [part];
      }
      RanThrough(start, View(), txn, qs, parts, results);
      return Complete, results, |qs|;
    }
  }

  /** Why a search stops at the sub-query `n`, or that it does not. */
  function Reason(s: Server, txn: nat, qs: seq<SubQuery>, n: nat): Found {
    if n >= |qs| then Complete
    else if qs[n].indexPath !in s.types || qs[n].indexPath !in s.states then NoSuchIndex
    else Failed(s.Merge(qs[n].indexPath, txn).1)
  }

  /** The state once the sub-query `n` has stopped a search: a merge that fails has applied what came before the bad update. */
  function Leaves(s: Server, mid: Server, txn: nat, qs: seq<SubQuery>, n: nat): Server {
    if Reason(s, txn, qs, n).Failed? then mid.With(qs[n].indexPath, s.Merge(qs[n].indexPath, txn).0) else mid
  }

  /**
   * What a search did: the first `n` sub-queries could be answered and were, their indices are merged, and it stopped
   * because of the next one, or came to the end.
   */
  ghost predicate Searched(start: Server, now: Server, txn: nat, qs: seq<SubQuery>, n: nat, found: Found, results: seq<int>) {
    && n <= |qs| && start.Results(qs[..n], txn, results)
    && (n < |qs| ==> !start.Can(qs[n], txn))
    && found == Reason(start, txn, qs, n)
    && exists mid :: MergedSince(start, mid, txn, PathsIn(qs[..n])) && now == Leaves(start, mid, txn, qs, n)
  }

  lemma StoppedAt(start: Server, mid: Server, txn: nat, qs: seq<SubQuery>, n: nat, parts: seq<seq<int>>, results: seq<int>)
    requires n < |qs| && Progress(start, mid, txn, qs[..n], parts, results) && !start.Can(qs[n], txn)
    ensures Searched(start, Leaves(start, mid, txn, qs, n), txn, qs, n, Reason(start, txn, qs, n), results)
    ensures exists i :: 0 <= i < |qs| && !start.Can(qs[i], txn)
  {
  }

  lemma RanThrough(start: Server, now: Server, txn: nat, qs: seq<SubQuery>, parts: seq<seq<int>>, results: seq<int>)
    requires Progress(start, now, txn, qs[..|qs|], parts, results)
    ensures Searched(start, now, txn, qs, |qs|, Complete, results) && start.Results(qs, txn, results)
    ensures forall i :: 0 <= i < |qs| ==> start.Can(qs[i], txn)
  {
    assert qs[..|qs|] == qs;
    AllCan(start, qs, txn, parts);
  }

  /** These sub-queries have been answered. */
  ghost predicate Progress(start: Server, now: Server, txn: nat, qs: seq<SubQuery>, parts: seq<seq<int>>, results: seq<int>) {
    MergedSince(start, now, txn, PathsIn(qs)) && start.AreParts(qs, txn, parts) && results == Concat(parts)
  }

  lemma ProgressMore(start: Server, before: Server, txn: nat, qs: seq<SubQuery>, n: nat, parts: seq<seq<int>>, results: seq<int>, part: seq<int>)
    requires n < |qs| && Progress(start, before, txn, qs[..n], parts, results) && qs[n].indexPath in start.types
    requires qs[n].indexPath in before.types && qs[n].indexPath in before.states && before.IsPart(qs[n], txn, part)
    ensures Progress(start, before.With(qs[n].indexPath, before.Merge(qs[n].indexPath, txn).0), txn, qs[..n+1], parts + [part], results + part)
  {
    MergeAgain(start, before, txn, PathsIn(qs[..n]), qs[n].indexPath);
    assert start.IsPart(qs[n], txn, part);
    PathsMore(qs, n);
    PartsMore(start, qs, n, txn, parts, part);
  }

  function PathsIn(qs: seq<SubQuery>): set<string> { set q | q in qs :: q.indexPath }

  lemma PathsMore(qs: seq<SubQuery>, n: nat)
    requires n < |qs|
    ensures PathsIn(qs[..n+1]) == PathsIn(qs[..n]) + {qs[n].indexPath}
  {
    assert qs[..n+1] == qs[..n] + [qs[n]];
  }

  /** The indices with these paths have been merged since the start, the others are as they were. */
  ghost predicate MergedSince(start: Server, now: Server, txn: nat, visited: set<string>) {
    && start.Whole() && now.types == start.types && now.states.Keys == start.states.Keys
    && (forall k :: k in visited ==> k in start.types && start.Merge(k, txn).1.Done?)
    && (forall k :: k in start.types ==> now.states[k] == if k in visited then start.Merge(k, txn).0 else start.states[k])
  }

  /** Merging one more index, or one of them again, comes to what merging it at the start would have. */
  lemma MergeAgain(start: Server, now: Server, txn: nat, visited: set<string>, path: string)
    requires MergedSince(start, now, txn, visited) && path in start.types
    ensures path in now.states && now.Merge(path, txn) == start.Merge(path, txn)
    ensures start.Merge(path, txn).1.Done? ==>
              MergedSince(start, now.With(path, now.Merge(path, txn).0), txn, visited + {path})
  {
    assert Tight(start.states[path].index);
    if path in visited { MergeTwice(start.types[path], start.states[path], txn); }
  }

  lemma PartsMore(s: Server, qs: seq<SubQuery>, n: nat, txn: nat, parts: seq<seq<int>>, part: seq<int>)
    requires n < |qs| && s.AreParts(qs[..n], txn, parts) && s.IsPart(qs[n], txn, part)
    ensures s.AreParts(qs[..n+1], txn, parts + [part]) && Concat(parts + [part]) == Concat(parts) + part
  {
    ConcatMore(parts, part);
    forall i | 0 <= i < n + 1 ensures s.IsPart(qs[..n+1][i], txn, (parts + [part])[i]) {
      if i < n { assert s.IsPart(qs[..n][i], txn, parts[i]); }
    }
  }

  lemma AllCan(s: Server, qs: seq<SubQuery>, txn: nat, parts: seq<seq<int>>)
    requires s.AreParts(qs, txn, parts)
    ensures forall i :: 0 <= i < |qs| ==> s.Can(qs[i], txn)
  {
    forall i | 0 <= i < |qs| ensures s.Can(qs[i], txn) { assert s.IsPart(qs[i], txn, parts[i]); }
  }
}
