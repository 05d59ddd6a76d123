/**
 * A whole index update task of the client: find the index of every request, find the object id
 * of every file, group by server and partition, and send.
 */
module UpdateTasks {
  import opened Base
  import opened Numerals
  import opened IndexOps
  import opened Paths
  import opened IndexPaths
  import opened IndexNamespaces
  import opened ScatterGather

  /** A request as the user makes it: file it under this key in the index of that name. */
  datatype UpdateRequest = UpdateRequest(op: OpCode, path: string, key: string, indexName: string)

  predicate OnFiles(reqs: seq<UpdateRequest>) {
    forall i :: 0 <= i < |reqs| ==> Normal(reqs[i].path) && reqs[i].path != "/"
  }

  // ---------------------------------------------------------------- the indices of the requests

  /** The index the client finds for a request, from the parent of its file upwards. */
  function IndexOf(getattr: string -> Attr, r: UpdateRequest): Walk
    requires Normal(r.path) && r.path != "/"
  {
    JoinSplit(r.path);
    WalkUp(getattr, ParentPath(r.path), r.indexName)
  }

  /** The partition its record goes to: an index has one. */
  function PartitionOf(getattr: string -> Attr, r: UpdateRequest): string
    requires Normal(r.path) && r.path != "/"
  {
    match IndexOf(getattr, r) case Found(p) => p + "/0" case _ => ""
  }

  /** The requests with their partitions. */
  function Routed(getattr: string -> Attr, reqs: seq<UpdateRequest>): (rs: seq<Request>)
    requires OnFiles(reqs)
    ensures |rs| == |reqs|
    ensures forall i :: 0 <= i < |reqs| ==> rs[i] == Request(reqs[i].op, reqs[i].key, PartitionOf(getattr, reqs[i]))
  {
    seq(|reqs|, i requires 0 <= i < |reqs| => Request(reqs[i].op, reqs[i].key, PartitionOf(getattr, reqs[i])))
  }

  /** Where a directory's index of a name is found, for the pairs looked up so far. */
  type IndexMap = map<(string, string), string>

  function PairOf(r: UpdateRequest): (string, string) { (ParentPath(r.path), r.indexName) }

  ghost predicate AllTrue(found: IndexMap, getattr: string -> Attr) {
    forall p :: p in found ==> Normal(p.0) && WalkUp(getattr, p.0, p.1) == Found(found[p])
  }

  /** The map knows the index of a request. */
  ghost predicate Knows(found: IndexMap, getattr: string -> Attr, r: UpdateRequest)
    requires Normal(r.path) && r.path != "/"
  {
    PairOf(r) in found && IndexOf(getattr, r) == Found(found[PairOf(r)])
  }

  /** One request: a walk, unless its pair of a parent and an index name is already known. */
  method FindIndex(r: UpdateRequest, getattr: string -> Attr, known: IndexMap) returns (ok: bool, found: IndexMap)
    requires Normal(r.path) && r.path != "/" && AllTrue(known, getattr)
    ensures ok <==> IndexOf(getattr, r).Found?
    ensures ok ==> AllTrue(found, getattr) && Knows(found, getattr, r) && known.Keys <= found.Keys
  {
    JoinSplit(r.path);
    var parent, name := ParentPath(r.path), r.indexName;
    found := known;
    if (parent, name) in known {
      return true, found;
    }
    var walk := WalkParents(parent, name, getattr);
    if !walk.Found? {
      return false, found;
    }
    return true, known[(parent, name) := walk.path];
  }

  /** The indices of all requests; the first that is not found ends the task. */
  method FindIndices(reqs: seq<UpdateRequest>, getattr: string -> Attr) returns (ok: bool, found: IndexMap)
    requires OnFiles(reqs)
    ensures ok <==> forall i :: 0 <= i < |reqs| ==> IndexOf(getattr, reqs[i]).Found?
    ensures ok ==> forall i :: 0 <= i < |reqs| ==> Knows(found, getattr, reqs[i])
  {
    found := map[];
    for k := 0 to |reqs|
      invariant AllTrue(found, getattr)
      invariant forall i :: 0 <= i < k ==> PairOf(reqs[i]) in found
    {
      ok, found := FindIndex(reqs[k], getattr, found);
      if !ok {
        return false, found;
      }
    }
    KnowsAll(reqs, getattr, found);
    return true, found;
  }

  lemma KnowsAll(reqs: seq<UpdateRequest>, getattr: string -> Attr, found: IndexMap)
    requires OnFiles(reqs) && AllTrue(found, getattr) && forall i :: 0 <= i < |reqs| ==> PairOf(reqs[i]) in found
    ensures forall i :: 0 <= i < |reqs| ==> Knows(found, getattr, reqs[i])
  {
  }

  method Route(reqs: seq<UpdateRequest>, getattr: string -> Attr, found: IndexMap) returns (rs: seq<Request>)
    requires OnFiles(reqs) && forall i :: 0 <= i < |reqs| ==> Knows(found, getattr, reqs[i])
    ensures rs == Routed(getattr, reqs)
  {
    rs := [];
    for k := 0 to |reqs|
      invariant |rs| == k
      invariant forall i :: 0 <= i < k ==> rs[i] == Request(reqs[i].op, reqs[i].key, PartitionOf(getattr, reqs[i]))
    {
      assert Knows(found, getattr, reqs[k]);
      rs := rs + [Request(reqs[k].op, reqs[k].key, found[PairOf(reqs[k])] + "/0")];
    }
  }

  // ---------------------------------------------------------------- what a partition should receive

  /** The masters' tables of object ids, and which master owns a path. */
  datatype Files = Files(owner: string -> string, masters: map<string, map<string, int>>) {
    function Id(path: string): int { if owner(path) in masters then IdOf(masters[owner(path)], path) else 0 }
  }

  /** The record of a request: its own operation and key, and the object id of its own file. */
  function RecordOf(files: Files, r: UpdateRequest): RecordUpdate { RecordUpdate(r.op, r.key, ShowInt(files.Id(r.path))) }

  /** A record and the partition it is for. */
  datatype Row = Row(partition: string, record: RecordUpdate)

  function Rows(getattr: string -> Attr, files: Files, reqs: seq<UpdateRequest>): (rows: seq<Row>)
    requires OnFiles(reqs)
    ensures |rows| == |reqs|
    ensures forall i :: 0 <= i < |reqs| ==> rows[i] == Row(PartitionOf(getattr, reqs[i]), RecordOf(files, reqs[i]))
  {
    seq(|reqs|, i requires 0 <= i < |reqs| => Row(PartitionOf(getattr, reqs[i]), RecordOf(files, reqs[i])))
  }

  /** The records for a partition, in order. */
  function For(rows: seq<Row>, p: string): seq<RecordUpdate> {
    if rows == [] then []
    else
      var n := |rows| - 1;
      For(rows[..n], p) + if rows[n].partition == p then [rows[n].record] else []
  }

  /** What a partition should receive: the records of its requests, in request order. */
  function Intended(getattr: string -> Attr, files: Files, reqs: seq<UpdateRequest>, p: string): seq<RecordUpdate>
    requires OnFiles(reqs)
  {
    For(Rows(getattr, files, reqs), p)
  }

  lemma {:induction false} ShareIsFor(rs: seq<Request>, oids: seq<int>, rows: seq<Row>, p: string)
    requires |rs| == |oids| == |rows|
    requires forall i :: 0 <= i < |rs| ==> rows[i] == Row(rs[i].partition, ToRecord(rs[i], oids[i]))
    ensures Share(rs, oids, p) == For(rows, p)
  {
    if rs == [] {
      NoShare(rs, oids, p);
    } else {
      var n := |rs| - 1;
      ShareIsFor(rs[..n], oids[..n], rows[..n], p);
      ShareOneMore(rs, oids, p);
    }
  }

  lemma ShareIsIntended(getattr: string -> Attr, files: Files, reqs: seq<UpdateRequest>, oids: seq<int>, p: string)
    requires OnFiles(reqs) && |oids| == |reqs| && forall i :: 0 <= i < |reqs| ==> oids[i] == files.Id(reqs[i].path)
    ensures Share(Routed(getattr, reqs), oids, p) == Intended(getattr, files, reqs, p)
  {
    ShareIsFor(Routed(getattr, reqs), oids, Rows(getattr, files, reqs), p);
  }

  // ---------------------------------------------------------------- the task

  function PathsOf(reqs: seq<UpdateRequest>): (ps: seq<string>)
    ensures |ps| == |reqs| && forall i :: 0 <= i < |reqs| ==> ps[i] == reqs[i].path
  {
    seq(|reqs|, i requires 0 <= i < |reqs| => reqs[i].path)
  }

  /** What can go wrong: a missing index, an unreachable master, an unreachable index server. */
  ghost predicate Goes(reqs: seq<UpdateRequest>, getattr: string -> Attr, files: Files, masterFails: string -> bool,
                       server: string -> string, serverFails: string -> bool)
    requires OnFiles(reqs)
  {
    forall i :: 0 <= i < |reqs| ==>
      && IndexOf(getattr, reqs[i]).Found?
      && !masterFails(files.owner(reqs[i].path))
      && !serverFails(server(PartitionOf(getattr, reqs[i])))
  }

  /**
   * The task succeeds exactly when every index is found and every server it needs answers. Then each partition has
   * received, in request order, the records of its requests, each with the object id of its own file. Otherwise a
   * partition has received all of them or nothing.
   */
  method RunUpdates(index: IndexServers, reqs: seq<UpdateRequest>, getattr: string -> Attr, files: Files,
                    masterFails: string -> bool, server: string -> string, serverFails: string -> bool)
    returns (ok: bool)
    requires OnFiles(reqs) && forall i :: 0 <= i < |reqs| ==> files.owner(reqs[i].path) in files.masters
    modifies index
    ensures ok <==> Goes(reqs, getattr, files, masterFails, server, serverFails)
    ensures ok ==> forall p :: LogOf(index.logs, p) == LogOf(old(index.logs), p) + Intended(getattr, files, reqs, p)
    ensures forall p :: LogOf(index.logs, p) == LogOf(old(index.logs), p) ||
                        LogOf(index.logs, p) == LogOf(old(index.logs), p) + Intended(getattr, files, reqs, p)
  {
    var allFound, found := FindIndices(reqs, getattr);
    if !allFound {
      return false;
    }
    var rs := Route(reqs, getattr, found);
    var asked, oids := FindIds(reqs, files, masterFails);
    if !asked {
      return false;
    }
    ok := Send(index, reqs, rs, oids, getattr, files, server, serverFails);
    Outcome(ok, reqs, getattr, files, masterFails, server, serverFails);
  }

  /** The object ids of the files of all requests. */
  method FindIds(reqs: seq<UpdateRequest>, files: Files, masterFails: string -> bool) returns (ok: bool, oids: seq<int>)
    requires forall i :: 0 <= i < |reqs| ==> files.owner(reqs[i].path) in files.masters
    ensures ok <==> forall i :: 0 <= i < |reqs| ==> !masterFails(files.owner(reqs[i].path))
    ensures ok ==> |oids| == |reqs| && forall i :: 0 <= i < |reqs| ==> oids[i] == files.Id(reqs[i].path)
  {
    var paths := PathsOf(reqs);
    var objects: array<int>;
    ok, objects := FindObjects(paths, files.owner, files.masters, masterFails);
    oids := objects[..];
    if !ok {
      ghost var i :| 0 <= i < |paths| && masterFails(files.owner(paths[i]));
      assert masterFails(files.owner(reqs[i].path));
    }
  }

  method Send(index: IndexServers, reqs: seq<UpdateRequest>, rs: seq<Request>, oids: seq<int>, getattr: string -> Attr,
              files: Files, server: string -> string, serverFails: string -> bool)
    returns (ok: bool)
    requires OnFiles(reqs) && rs == Routed(getattr, reqs) && |oids| == |reqs|
    requires forall i :: 0 <= i < |reqs| ==> oids[i] == files.Id(reqs[i].path)
    modifies index
    ensures ok <==> forall i :: 0 <= i < |reqs| ==> !serverFails(server(rs[i].partition))
    ensures ok ==> forall p :: LogOf(index.logs, p) == LogOf(old(index.logs), p) + Intended(getattr, files, reqs, p)
    ensures forall p :: LogOf(index.logs, p) == LogOf(old(index.logs), p) ||
                        LogOf(index.logs, p) == LogOf(old(index.logs), p) + Intended(getattr, files, reqs, p)
  {
    ghost var before := index.logs;
    ghost var reached: set<string>;
    ok, reached := RunTask(index, rs, oids, server, serverFails);
    TaskDelivers(before, index.logs, reqs, getattr, files, oids, server, serverFails, reached);
  }

  lemma Outcome(ok: bool, reqs: seq<UpdateRequest>, getattr: string -> Attr, files: Files, masterFails: string -> bool,
                server: string -> string, serverFails: string -> bool)
    requires OnFiles(reqs)
    requires forall i :: 0 <= i < |reqs| ==> IndexOf(getattr, reqs[i]).Found?
    requires forall i :: 0 <= i < |reqs| ==> !masterFails(files.owner(reqs[i].path))
    requires ok <==> forall i :: 0 <= i < |reqs| ==> !serverFails(server(Routed(getattr, reqs)[i].partition))
    ensures ok <==> Goes(reqs, getattr, files, masterFails, server, serverFails)
  {
    forall i | 0 <= i < |reqs|
      ensures Routed(getattr, reqs)[i].partition == PartitionOf(getattr, reqs[i])
    {
    }
  }

  lemma TaskDelivers(before: Logs, after: Logs, reqs: seq<UpdateRequest>, getattr: string -> Attr, files: Files, oids: seq<int>,
                     server: string -> string, serverFails: string -> bool, reached: set<string>)
    requires OnFiles(reqs) && |oids| == |reqs| && forall i :: 0 <= i < |reqs| ==> oids[i] == files.Id(reqs[i].path)
    requires Delivered(before, after, Routed(getattr, reqs), oids, server, reached)
    requires forall s :: s in reached <==> IsReached(Routed(getattr, reqs), server, serverFails, s)
    ensures forall p :: LogOf(after, p) == LogOf(before, p) || LogOf(after, p) == LogOf(before, p) + Intended(getattr, files, reqs, p)
    ensures (forall i :: 0 <= i < |reqs| ==> !serverFails(server(Routed(getattr, reqs)[i].partition))) ==>
            forall p :: LogOf(after, p) == LogOf(before, p) + Intended(getattr, files, reqs, p)
  {
    var rs := Routed(getattr, reqs);
    forall p
      ensures LogOf(after, p) == LogOf(before, p) || LogOf(after, p) == LogOf(before, p) + Intended(getattr, files, reqs, p)
    {
      ShareIsIntended(getattr, files, reqs, oids, p);
      assert LogOf(before, p) + [] == LogOf(before, p);
    }
    if forall i :: 0 <= i < |reqs| ==> !serverFails(server(rs[i].partition)) {
      forall p ensures LogOf(after, p) == LogOf(before, p) + Intended(getattr, files, reqs, p) {
        ShareIsIntended(getattr, files, reqs, oids, p);
        if server(p) !in reached { UnreachedShare(rs, oids, server, serverFails, p); }
      }
    }
  }

  // ---------------------------------------------------------------- what the records say

  /** The request has an operation and a key that reads as one of type `t`. */
  predicate Sound(t: IntType, r: UpdateRequest) { LexicalCast(t, r.key).Some? && !r.op.UNKNOWN? }

  /** The write a request asks for. */
  function WriteOf(t: IntType, files: Files, r: UpdateRequest): Write {
    Write(if Sound(t, r) then LexicalCast(t, r.key).value else 0, files.Id(r.path), !r.op.REMOVE?)
  }

  /** The record of a request decodes to the write it asks for if and only if the request is sound. */
  lemma RecordDecodesIff(t: IntType, files: Files, r: UpdateRequest)
    requires INT64.Contains(files.Id(r.path))
    ensures Decode(t, RecordOf(files, r)) == if Sound(t, r) then Some(WriteOf(t, files, r)) else None
  {
    CastShow(INT64, files.Id(r.path));
  }

  function WritesOf(t: IntType, files: Files, reqs: seq<UpdateRequest>): (ws: seq<Write>)
    ensures |ws| == |reqs| && forall i :: 0 <= i < |reqs| ==> ws[i] == WriteOf(t, files, reqs[i])
  {
    seq(|reqs|, i requires 0 <= i < |reqs| => WriteOf(t, files, reqs[i]))
  }

  /** The writes for a partition, in order. */
  function WritesFor(rows: seq<Row>, ws: seq<Write>, p: string): seq<Write>
    requires |rows| == |ws|
  {
    if rows == [] then []
    else
      var n := |rows| - 1;
      WritesFor(rows[..n], ws[..n], p) + if rows[n].partition == p then [ws[n]] else []
  }

  lemma {:induction false} ForDecodes(t: IntType, rows: seq<Row>, ws: seq<Write>, p: string)
    requires |rows| == |ws| && forall i :: 0 <= i < |rows| && rows[i].partition == p ==> Decode(t, rows[i].record) == Some(ws[i])
    ensures DecodeAll(t, For(rows, p)) == Batch(WritesFor(rows, ws, p), true)
  {
    if rows != [] {
      var n := |rows| - 1;
      ForDecodes(t, rows[..n], ws[..n], p);
      if rows[n].partition == p {
        DecodeOne(t, For(rows[..n], p), rows[n].record, ws[n]);
      } else {
        assert For(rows, p) == For(rows[..n], p);
      }
    }
  }

  lemma DecodeOne(t: IntType, us: seq<RecordUpdate>, u: RecordUpdate, w: Write)
    requires DecodeAll(t, us).ok && Decode(t, u) == Some(w)
    ensures DecodeAll(t, us + [u]) == Batch(DecodeAll(t, us).writes + [w], true)
  {
    DecodeAllConcat(t, us, [u]);
    assert [u][1..] == [] && [w] + [] == [w];
    assert DecodeAll(t, [u]) == Batch([w], true);
  }

  /** What a partition receives decodes, without a malformed update, to the writes its requests ask for, in order. */
  lemma IntendedDecodes(t: IntType, getattr: string -> Attr, files: Files, reqs: seq<UpdateRequest>, p: string)
    requires OnFiles(reqs) && forall i :: 0 <= i < |reqs| ==> INT64.Contains(files.Id(reqs[i].path))
    requires forall i :: 0 <= i < |reqs| && PartitionOf(getattr, reqs[i]) == p ==> Sound(t, reqs[i])
    ensures DecodeAll(t, Intended(getattr, files, reqs, p)) ==
            Batch(WritesFor(Rows(getattr, files, reqs), WritesOf(t, files, reqs), p), true)
  {
    var rows, ws := Rows(getattr, files, reqs), WritesOf(t, files, reqs);
    forall i | 0 <= i < |rows| && rows[i].partition == p ensures Decode(t, rows[i].record) == Some(ws[i]) {
      RecordDecodesIff(t, files, reqs[i]);
    }
    ForDecodes(t, rows, ws, p);
  }
}
