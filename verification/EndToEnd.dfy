/**
 * Updating and then searching: an update that the client was told has gone through is found by
 * the next search that its key satisfies, because both sides mean the same partition.
 */
module EndToEnd {
  import opened Base
  import opened Numerals
  import opened IndexOps
  import opened LogManagers
  import opened IndexWrappers
  import opened Paths
  import opened IndexPaths
  import opened ComplexQueries
  import QP = QueryPath
  import FQ = FieldQueries
  import DI = DeferredIndex
  import IN = IndexNamespaces
  import SG = ScatterGather
  import UT = UpdateTasks
  import CS = ClientSearches

  /** The partition an update is sent to is the one a search asks about. */
  lemma SamePartition(getattr: string -> IN.Attr, r: UT.UpdateRequest, d: string)
    requires Normal(r.path) && r.path != "/" && UT.IndexOf(getattr, r) == IN.Found(IndexPath(d, r.indexName))
    ensures UT.PartitionOf(getattr, r) == CS.PartitionPath(d, r.indexName)
    ensures UT.PartitionOf(getattr, r) == IndexPath(d, r.indexName) + "/0"
  {
  }

  // ---------------------------------------------------------------- from log records to updates

  /** The updates of a history, one after the other. */
  function AllUpdates(h: seq<LogRecord>): seq<RecordUpdate> {
    if h == [] then [] else h[0].updates + AllUpdates(h[1..])
  }

  lemma {:induction false} WritesAreDecoded(t: IntType, h: seq<LogRecord>)
    ensures Writes(t, h) == DecodeAll(t, AllUpdates(h))
  {
    if h != [] {
      WritesAreDecoded(t, h[1..]);
      DecodeAllConcat(t, h[0].updates, AllUpdates(h[1..]));
    }
  }

  /** The last request of a partition about a pair has the last word on it. */
  lemma {:induction false} LastRequestWins(rows: seq<UT.Row>, ws: seq<Write>, p: string, i: nat)
    requires |rows| == |ws| && i < |rows| && rows[i].partition == p
    requires forall j :: i < j < |rows| && rows[j].partition == p ==> !(ws[j].key == ws[i].key && ws[j].obj == ws[i].obj)
    ensures LastWrite(UT.WritesFor(rows, ws, p), ws[i].key, ws[i].obj) == Some(ws[i].present)
  {
    var n := |rows| - 1;
    if i < n {
      LastRequestWins(rows[..n], ws[..n], p, i);
      if rows[n].partition != p { assert UT.WritesFor(rows, ws, p) == UT.WritesFor(rows[..n], ws[..n], p); }
    }
    if rows[n].partition == p {
      var before := UT.WritesFor(rows[..n], ws[..n], p);
      assert (before + [ws[n]])[..|before|] == before;
    }
  }

  /** No later request of the task is about the same key and file in the same partition. */
  ghost predicate IsLast(t: IntType, getattr: string -> IN.Attr, files: UT.Files, reqs: seq<UT.UpdateRequest>, i: nat)
    requires UT.OnFiles(reqs) && i < |reqs|
  {
    forall j :: i < j < |reqs| && UT.PartitionOf(getattr, reqs[j]) == UT.PartitionOf(getattr, reqs[i]) ==>
      !(UT.WriteOf(t, files, reqs[j]).key == UT.WriteOf(t, files, reqs[i]).key &&
        UT.WriteOf(t, files, reqs[j]).obj == UT.WriteOf(t, files, reqs[i]).obj)
  }

  lemma RequestHasLastWord(t: IntType, getattr: string -> IN.Attr, files: UT.Files, reqs: seq<UT.UpdateRequest>, i: nat)
    requires UT.OnFiles(reqs) && i < |reqs| && IsLast(t, getattr, files, reqs, i)
    ensures var w := UT.WriteOf(t, files, reqs[i]);
            LastWrite(UT.WritesFor(UT.Rows(getattr, files, reqs), UT.WritesOf(t, files, reqs), UT.PartitionOf(getattr, reqs[i])),
                      w.key, w.obj) == Some(w.present)
  {
    LastRequestWins(UT.Rows(getattr, files, reqs), UT.WritesOf(t, files, reqs), UT.PartitionOf(getattr, reqs[i]), i);
  }

  /** The requests of a partition are sound, and so was what its log held before. */
  ghost predicate AllSound(t: IntType, getattr: string -> IN.Attr, files: UT.Files, reqs: seq<UT.UpdateRequest>, p: string,
                           before: seq<RecordUpdate>)
    requires UT.OnFiles(reqs)
  {
    && DecodeAll(t, before).ok
    && (forall i :: 0 <= i < |reqs| ==> INT64.Contains(files.Id(reqs[i].path)))
    && (forall i :: 0 <= i < |reqs| && UT.PartitionOf(getattr, reqs[i]) == p ==> UT.Sound(t, reqs[i]))
  }

  /**
   * Once a task has delivered its records, the plain index of the partition has the pair of a request exactly when the
   * request was not a removal, unless a later request of the task says otherwise.
   */
  lemma DeliveredIsIndexed(t: IntType, getattr: string -> IN.Attr, files: UT.Files, reqs: seq<UT.UpdateRequest>, i: nat,
                           p: string, before: seq<RecordUpdate>, evs: seq<DI.Event>, txn: nat)
    requires UT.OnFiles(reqs) && i < |reqs| && UT.PartitionOf(getattr, reqs[i]) == p
    requires AllSound(t, getattr, files, reqs, p, before) && IsLast(t, getattr, files, reqs, i)
    requires DI.Possible(t, evs) && Upto(DI.Run(t, evs).history, txn) == |DI.Run(t, evs).history|
    requires AllUpdates(DI.Run(t, evs).history) == before + UT.Intended(getattr, files, reqs, p)
    ensures var w := UT.WriteOf(t, files, reqs[i]);
            Has(CS.EagerIndex(t, evs, txn), w.key, w.obj) <==> !reqs[i].op.REMOVE?
  {
    var h, w := DI.Run(t, evs).history, UT.WriteOf(t, files, reqs[i]);
    var later := UT.WritesFor(UT.Rows(getattr, files, reqs), UT.WritesOf(t, files, reqs), p);
    assert h[..|h|] == h;
    WritesAreDecoded(t, h);
    DecodeAllConcat(t, before, UT.Intended(getattr, files, reqs, p));
    UT.IntendedDecodes(t, getattr, files, reqs, p);
    RequestHasLastWord(t, getattr, files, reqs, i);
    LastWriteConcat(DecodeAll(t, before).writes, later, w.key, w.obj);
    LastWriterWins(map[], DecodeAll(t, before).writes + later, w.key, w.obj);
  }

  // ---------------------------------------------------------------- from the update to the answer

  /** The key of a request satisfies the conditions on its field, and is not the extreme key of an open side. */
  ghost predicate Wanted(t: IntType, cs: seq<QP.Cond>, f: string, k: int)
    requires QP.AllWell(t, cs)
  {
    && f in FQ.Fields(cs) && QP.Satisfies(t, cs, f, k)
    && (QP.LastLower(cs, f).None? ==> k != t.min) && (QP.LastUpper(cs, f).None? ==> k != t.max)
  }

  /**
   * An acknowledged insert is found. A task delivered its records (`RunUpdates`), the index servers have logged them
   * and been through any merges, flushes and trims since, and a search (`SearchFiles`) succeeds at a transaction id
   * that covers them. If the index of a request is the one on directory `d`, a master knows that index, `d` is under the
   * root of the query and the key satisfies the conditions on that field, then the file's object is among those found.
   */
  lemma UpdateIsFound(t: IntType, getattr: string -> IN.Attr, files: UT.Files, reqs: seq<UT.UpdateRequest>, i: nat, d: string,
                      logs: SG.Logs, logs': SG.Logs, dir: string, cs: seq<QP.Cond>, nodes: map<string, IN.Nodes>, m: string,
                      server: string -> string, cluster: CS.Cluster, runs: string -> seq<DI.Event>, txn: nat,
                      network: CS.Network, located: set<string>, objects: seq<int>)
    requires UT.OnFiles(reqs) && i < |reqs| && UT.IndexOf(getattr, reqs[i]) == IN.Found(IndexPath(d, reqs[i].indexName))
    requires IsLast(t, getattr, files, reqs, i) && !reqs[i].op.REMOVE?
    // what the update task promises
    requires forall p :: SG.LogOf(logs', p) == SG.LogOf(logs, p) + UT.Intended(getattr, files, reqs, p)
    // what the server of the partition has logged
    requires var p := CS.PartitionPath(d, reqs[i].indexName);
             && AllSound(t, getattr, files, reqs, p, SG.LogOf(logs, p)) && DI.Possible(t, runs(p))
             && AllUpdates(DI.Run(t, runs(p)).history) == SG.LogOf(logs', p)
             && Upto(DI.Run(t, runs(p)).history, txn) == |DI.Run(t, runs(p)).history|
    // what the search promises
    requires dir != "" && dir[0] == '/' && forall j :: 0 <= j < |dir| ==> dir[j] != '?'
    requires t.Valid() && cs != [] && QP.AllWell(t, cs) && CS.NormalNodes(nodes)
    requires forall f :: f in FQ.Fields(cs) ==> IsName(f) && QP.OnePerSide(cs, f)
    requires var q := ParseQuery(dir + "?" + QP.ShowConds(cs));
             && (forall p :: p in located <==> CS.Located(nodes, q.root, q.ranges.Keys, p))
             && CS.Searchable(located, server, cluster, q.ranges, txn, network)
             && CS.AreFound(located, server, cluster, q.ranges, txn, objects)
             && StartsWith(d, q.root)
    requires forall p :: p in located ==> CS.Serves(cluster, server, t, runs, txn, p)
    // the query is about the update
    requires m in nodes && IN.Carries(nodes[m], d, reqs[i].indexName)
    requires Wanted(t, cs, reqs[i].indexName, UT.WriteOf(t, files, reqs[i]).key)
    ensures files.Id(reqs[i].path) in objects
  {
    var f, o, p := reqs[i].indexName, files.Id(reqs[i].path), CS.PartitionPath(d, reqs[i].indexName);
    var root := ParseQuery(dir + "?" + QP.ShowConds(cs)).root;
    SamePartition(getattr, reqs[i], d);
    DeliveredIsIndexed(t, getattr, files, reqs, i, p, SG.LogOf(logs, p), runs(p), txn);
    MeetsBy(t, cs, f, CS.EagerIndex(t, runs(p), txn), UT.WriteOf(t, files, reqs[i]).key, o);
    assert CS.HasIt(t, cs, nodes, root, runs, txn, m, d, f, o);
    CS.SearchAnswersQuery(t, dir, cs, nodes, server, cluster, runs, txn, network, located, objects, o);
  }

  lemma MeetsBy(t: IntType, cs: seq<QP.Cond>, f: string, idx: Index, k: int, o: int)
    requires QP.AllWell(t, cs) && Has(idx, k, o) && Wanted(t, cs, f, k)
    ensures FQ.Meets(t, cs, f, idx, o)
  {
  }

  /** And if the master that owns the object id knows its path, that path is among the results of the search. */
  lemma FoundIsReturned(objects: seq<int>, owner: int -> string, tables: map<string, map<int, string>>, paths: seq<string>, o: int)
    requires o in objects && multiset(paths) == multiset(SG.EachPath(objects, owner, tables))
    ensures SG.PathOf(SG.TableOf(tables, owner(o)), o) in paths
  {
    var each := SG.EachPath(objects, owner, tables);
    var i :| 0 <= i < |objects| && objects[i] == o;
    assert each[i] in multiset(each);
    assert each[i] in multiset(paths);
  }
}
