/**
 * How the client scatters a batch of index updates over the index servers, and gathers object
 * ids from the masters: grouped by server, answered in any order, put back by position.
 */
module ScatterGather {
  import opened Base
  import opened Numerals
  import opened IndexOps
  import opened Paths

  /** One update request of a task, once the index partition for its file and index name is known. */
  datatype Request = Request(op: OpCode, key: string, partition: string)

  // ---------------------------------------------------------------- gathering object ids

  /** The positions, in ascending order, of a label in a list of labels. */
  function Positions(labels: seq<string>, l: string): seq<nat> {
    if labels == [] then []
    else
      var n := |labels| - 1;
      Positions(labels[..n], l) + if labels[n] == l then [n] else []
  }

  lemma {:induction false} PositionsSpec(labels: seq<string>, l: string)
    ensures forall j :: 0 <= j < |Positions(labels, l)| ==> Positions(labels, l)[j] < |labels| && labels[Positions(labels, l)[j]] == l
    ensures forall j, k :: 0 <= j < k < |Positions(labels, l)| ==> Positions(labels, l)[j] < Positions(labels, l)[k]
    ensures forall i :: 0 <= i < |labels| && labels[i] == l ==> i in Positions(labels, l)
  {
    if labels != [] {
      var n := |labels| - 1;
      PositionsSpec(labels[..n], l);
      var before, ps := Positions(labels[..n], l), Positions(labels, l);
      forall j | 0 <= j < |ps| ensures ps[j] < |labels| && labels[ps[j]] == l {
        if j < |before| { assert ps[j] == before[j]; }
      }
      forall i | 0 <= i < |labels| && labels[i] == l ensures i in ps {
        if i < n { assert labels[..n][i] == labels[i]; assert i in before; } else { assert ps[|ps|-1] == n; }
      }
    }
  }

  lemma {:induction false} NoPositions(labels: seq<string>, l: string)
    requires l !in labels
    ensures Positions(labels, l) == []
  {
    if labels != [] { NoPositions(labels[..|labels|-1], l); }
  }

  function OwnersOf(paths: seq<string>, owner: string -> string): (labels: seq<string>)
    ensures |labels| == |paths| && forall i :: 0 <= i < |paths| ==> labels[i] == owner(paths[i])
  {
    seq(|paths|, i requires 0 <= i < |paths| => owner(paths[i]))
  }

  /** Every label that occurs has its positions, and only those labels do. */
  ghost predicate Grouped(plan: map<string, seq<nat>>, labels: seq<string>) {
    && (forall s :: s in plan <==> s in labels)
    && (forall s :: s in plan ==> plan[s] == Positions(labels, s))
  }

  lemma GroupedOneMore(plan: map<string, seq<nat>>, labels: seq<string>, i: nat)
    requires i < |labels| && Grouped(plan, labels[..i])
    ensures Grouped(plan[labels[i] := (if labels[i] in plan then plan[labels[i]] else []) + [i]], labels[..i+1])
  {
    var l := labels[i];
    assert labels[..i+1] == labels[..i] + [l] && labels[..i+1][..i] == labels[..i];
    if l !in plan { NoPositions(labels[..i], l); }
  }

  /** Groups positions by the server that owns each path. */
  method GroupByServer(paths: seq<string>, owner: string -> string) returns (plan: map<string, seq<nat>>)
    ensures forall s :: s in plan <==> s in OwnersOf(paths, owner)
    ensures forall s :: s in plan ==> plan[s] == Positions(OwnersOf(paths, owner), s)
  {
    plan := map[];
    ghost var labels := OwnersOf(paths, owner);
    for i := 0 to |paths|
      invariant Grouped(plan, labels[..i])
    {
      var addr := owner(paths[i]);
      GroupedOneMore(plan, labels, i);
      plan := plan[addr := (if addr in plan then plan[addr] else []) + [i]];
    }
    assert labels[..|paths|] == labels;
  }

  /** What a master answers for one path: the object id, or 0. */
  function IdOf(table: map<string, int>, path: string): int { if path in table then table[path] else 0 }

  /**
   * `find_objects`: asks each server once for all of its paths and puts the answers back by position, so every
   * position gets the answer of its own path's master, whatever the order of the servers. It succeeds exactly when
   * no server it needs fails.
   */
  method FindObjects(paths: seq<string>, owner: string -> string, masters: map<string, map<string, int>>, fails: string -> bool)
    returns (ok: bool, objects: array<int>)
    requires forall p :: p in paths ==> owner(p) in masters
    ensures objects.Length == |paths| && (ok <==> forall i :: 0 <= i < |paths| ==> !fails(owner(paths[i])))
    ensures ok ==> forall i :: 0 <= i < |paths| ==> objects[i] == IdOf(masters[owner(paths[i])], paths[i])
  {
    objects := new int[|paths|];
    var plan := GroupByServer(paths, owner);
    var servers := plan.Keys;
    while servers != {}
      invariant servers <= plan.Keys
      invariant forall i :: 0 <= i < |paths| && owner(paths[i]) !in servers ==>
                  !fails(owner(paths[i])) && objects[i] == IdOf(masters[owner(paths[i])], paths[i])
      decreases |servers|
    {
      ghost var w := Pick(servers);
      var s :| s in servers;
      if fails(s) {
        ghost var labels := OwnersOf(paths, owner);
        ghost var i :| 0 <= i < |labels| && labels[i] == s;
        assert owner(paths[i]) == s;
        return false, objects;
      }
      ghost var others := servers - {s};
      Scatter(objects, plan[s], paths, s, owner, masters, others);
      servers := servers - {s};
    }
    return true, objects;
  }

  /** One server: collect its paths, ask, and store the answers at their positions. */
  method Scatter(objects: array<int>, positions: seq<nat>, paths: seq<string>, s: string, owner: string -> string,
                 masters: map<string, map<string, int>>, ghost others: set<string>)
    requires objects.Length == |paths| && s in masters && s !in others
    requires positions == Positions(OwnersOf(paths, owner), s)
    requires forall p :: p in paths ==> owner(p) in masters
    requires forall i :: 0 <= i < |paths| && owner(paths[i]) !in others + {s} ==>
               objects[i] == IdOf(masters[owner(paths[i])], paths[i])
    modifies objects
    ensures forall i :: 0 <= i < |paths| && owner(paths[i]) !in others ==>
              objects[i] == IdOf(masters[owner(paths[i])], paths[i])
  {
    PositionsSpec(OwnersOf(paths, owner), s);
    var files := [];
    for k := 0 to |positions|
      invariant |files| == k && forall j :: 0 <= j < k ==> files[j] == paths[positions[j]]
    {
      files := files + [paths[positions[k]]];
    }
    var answers := seq(|files|, j requires 0 <= j < |files| => IdOf(masters[s], files[j]));
    for k := 0 to |files|
      invariant forall i :: 0 <= i < |paths| && owner(paths[i]) !in others + {s} ==>
                  objects[i] == IdOf(masters[owner(paths[i])], paths[i])
      invariant forall j :: 0 <= j < k ==> objects[positions[j]] == IdOf(masters[s], paths[positions[j]])
    {
      objects[positions[k]] := answers[k];
    }
    forall i | 0 <= i < |paths| && owner(paths[i]) == s ensures objects[i] == IdOf(masters[s], paths[i]) {
      assert i in positions;
      var j :| 0 <= j < |positions| && positions[j] == i;
    }
  }

  // ---------------------------------------------------------------- resolving found objects

  /** What a master answers for an object id: its path, or the empty path. */
  function PathOf(table: map<int, string>, o: int): string { if o in table then table[o] else "" }

  function TableOf(masters: map<string, map<int, string>>, s: string): map<int, string> {
    if s in masters then masters[s] else map[]
  }

  /** The objects that a server owns. */
  function OwnedBy(objects: seq<int>, owner: int -> string, s: string): seq<int> {
    if objects == [] then []
    else
      var n := |objects| - 1;
      OwnedBy(objects[..n], owner, s) + if owner(objects[n]) == s then [objects[n]] else []
  }

  /** What some servers answer for the objects they own. */
  function PathsBy(objects: seq<int>, owner: int -> string, servers: set<string>, masters: map<string, map<int, string>>): seq<string> {
    if objects == [] then []
    else
      var n := |objects| - 1;
      PathsBy(objects[..n], owner, servers, masters) +
      if owner(objects[n]) in servers then [PathOf(TableOf(masters, owner(objects[n])), objects[n])] else []
  }

  /** The answers one server gives to a list of objects. */
  function FilesOf(table: map<int, string>, objects: seq<int>): seq<string> {
    if objects == [] then [] else FilesOf(table, objects[..|objects|-1]) + [PathOf(table, objects[|objects|-1])]
  }

  lemma {:induction false} OneServerAnswers(objects: seq<int>, owner: int -> string, s: string, masters: map<string, map<int, string>>)
    ensures FilesOf(TableOf(masters, s), OwnedBy(objects, owner, s)) == PathsBy(objects, owner, {s}, masters)
  {
    if objects != [] {
      var n := |objects| - 1;
      OneServerAnswers(objects[..n], owner, s, masters);
      var before := OwnedBy(objects[..n], owner, s);
      assert (before + [objects[n]])[..|before|] == before;
      assert before + [] == before;
    }
  }

  lemma {:induction false} OneMoreServer(objects: seq<int>, owner: int -> string, done: set<string>, s: string, masters: map<string, map<int, string>>)
    requires s !in done
    ensures multiset(PathsBy(objects, owner, done + {s}, masters)) ==
            multiset(PathsBy(objects, owner, done, masters)) + multiset(PathsBy(objects, owner, {s}, masters))
  {
    if objects != [] {
      OneMoreServer(objects[..|objects|-1], owner, done, s, masters);
    }
  }

  /** Asking one more server adds its answers for its own objects. */
  lemma AskOne(objects: seq<int>, owner: int -> string, done: set<string>, s: string, masters: map<string, map<int, string>>)
    requires s !in done
    ensures multiset(PathsBy(objects, owner, done + {s}, masters)) ==
            multiset(PathsBy(objects, owner, done, masters)) + multiset(FilesOf(TableOf(masters, s), OwnedBy(objects, owner, s)))
  {
    OneServerAnswers(objects, owner, s, masters);
    OneMoreServer(objects, owner, done, s, masters);
  }

  /** Every owner has its objects, in their order, and nobody else has any. */
  ghost predicate Planned(plan: map<string, seq<int>>, objects: seq<int>, owner: int -> string) {
    && (forall s :: s in plan ==> plan[s] == OwnedBy(objects, owner, s) && plan[s] != [])
    && (forall s :: s !in plan ==> OwnedBy(objects, owner, s) == [])
    && (forall i :: 0 <= i < |objects| ==> owner(objects[i]) in plan)
  }

  lemma OwnedOneMore(objects: seq<int>, o: int, owner: int -> string, s: string)
    ensures OwnedBy(objects + [o], owner, s) == OwnedBy(objects, owner, s) + if owner(o) == s then [o] else []
  {
    assert (objects + [o])[..|objects|] == objects;
  }

  lemma PlannedOneMore(plan: map<string, seq<int>>, objects: seq<int>, o: int, owner: int -> string, bucket: seq<int>)
    requires Planned(plan, objects, owner) && bucket == if owner(o) in plan then plan[owner(o)] else []
    ensures Planned(plan[owner(o) := bucket + [o]], objects + [o], owner)
  {
    var plan' := plan[owner(o) := bucket + [o]];
    forall s ensures OwnedBy(objects + [o], owner, s) == OwnedBy(objects, owner, s) + if owner(o) == s then [o] else [] {
      OwnedOneMore(objects, o, owner, s);
    }
    assert bucket == OwnedBy(objects, owner, owner(o));
  }

  /** Groups objects by the server that owns each id. */
  method GroupObjects(objects: seq<int>, owner: int -> string) returns (plan: map<string, seq<int>>)
    ensures Planned(plan, objects, owner)
  {
    plan := map[];
    for i := 0 to |objects|
      invariant Planned(plan, objects[..i], owner)
    {
      var addr := owner(objects[i]);
      var bucket := if addr in plan then plan[addr] else [];
      PlannedOneMore(plan, objects[..i], objects[i], owner, bucket);
      assert objects[..i+1] == objects[..i] + [objects[i]];
      plan := plan[addr := bucket + [objects[i]]];
    }
    assert objects[..|objects|] == objects;
  }

  /** The reference: each object by itself, answered by its own master. */
  function EachPath(objects: seq<int>, owner: int -> string, masters: map<string, map<int, string>>): seq<string> {
    seq(|objects|, i requires 0 <= i < |objects| => PathOf(TableOf(masters, owner(objects[i])), objects[i]))
  }

  lemma {:induction false} AllServers(objects: seq<int>, owner: int -> string, servers: set<string>, masters: map<string, map<int, string>>)
    requires forall i :: 0 <= i < |objects| ==> owner(objects[i]) in servers
    ensures PathsBy(objects, owner, servers, masters) == EachPath(objects, owner, masters)
  {
    if objects != [] {
      var n := |objects| - 1;
      AllServers(objects[..n], owner, servers, masters);
      assert EachPath(objects, owner, masters) ==
             EachPath(objects[..n], owner, masters) + [PathOf(TableOf(masters, owner(objects[n])), objects[n])];
    }
  }

  /** Asks the servers of a plan one after the other, up to one that fails. */
  method AskServers(plan: map<string, seq<int>>, objects: seq<int>, owner: int -> string, masters: map<string, map<int, string>>,
                    fails: string -> bool)
    returns (ok: bool, paths: seq<string>)
    requires forall s :: s in plan ==> plan[s] == OwnedBy(objects, owner, s)
    ensures ok <==> forall s :: s in plan ==> !fails(s)
    ensures ok ==> multiset(paths) == multiset(PathsBy(objects, owner, plan.Keys, masters))
  {
    paths := [];
    var rest := plan.Keys;
    ghost var done: set<string> := {};
    NoServers(objects, owner, masters);
    while rest != {}
      invariant rest <= plan.Keys && done == plan.Keys - rest && forall s :: s in done ==> !fails(s)
      invariant multiset(paths) == multiset(PathsBy(objects, owner, done, masters))
      decreases |rest|
    {
      var s := LeastKey(rest);
      if fails(s) {
        return false, paths;
      }
      AskOne(objects, owner, done, s, masters);
      paths := AskServer(paths, TableOf(masters, s), plan[s]);
      rest, done := rest - {s}, done + {s};
    }
    assert done == plan.Keys;
    return true, paths;
  }

  /**
   * `get_file_paths_from_objects`: one RPC per server. The order is that of the servers, but the paths are exactly
   * what each object's own master answers for it, as often as the object was found. It succeeds exactly when no
   * server it needs fails.
   */
  method ResolvePaths(objects: seq<int>, owner: int -> string, masters: map<string, map<int, string>>, fails: string -> bool)
    returns (ok: bool, paths: seq<string>)
    ensures ok <==> forall i :: 0 <= i < |objects| ==> !fails(owner(objects[i]))
    ensures ok ==> multiset(paths) == multiset(EachPath(objects, owner, masters))
  {
    var plan := GroupObjects(objects, owner);
    ok, paths := AskServers(plan, objects, owner, masters, fails);
    AllServers(objects, owner, plan.Keys, masters);
    PlanOwners(plan, objects, owner, fails);
  }

  lemma PlanOwners(plan: map<string, seq<int>>, objects: seq<int>, owner: int -> string, fails: string -> bool)
    requires Planned(plan, objects, owner)
    ensures (forall s :: s in plan ==> !fails(s)) <==> forall i :: 0 <= i < |objects| ==> !fails(owner(objects[i]))
  {
    forall s | s in plan ensures exists i :: 0 <= i < |objects| && owner(objects[i]) == s {
      OwnedIsOwned(objects, owner, s);
    }
  }

  lemma {:induction false} OwnedIsOwned(objects: seq<int>, owner: int -> string, s: string)
    requires OwnedBy(objects, owner, s) != []
    ensures exists i :: 0 <= i < |objects| && owner(objects[i]) == s
  {
    var n := |objects| - 1;
    if owner(objects[n]) != s {
      OwnedIsOwned(objects[..n], owner, s);
      var i :| 0 <= i < n && owner(objects[..n][i]) == s;
      assert owner(objects[i]) == s;
    }
  }

  /** One `find_files` RPC, its answers added to those already there. */
  method AskServer(paths: seq<string>, table: map<int, string>, objects: seq<int>) returns (all: seq<string>)
    ensures multiset(all) == multiset(paths) + multiset(FilesOf(table, objects))
  {
    all := paths + FilesOf(table, objects);
  }

  lemma {:induction false} NoServers(objects: seq<int>, owner: int -> string, masters: map<string, map<int, string>>)
    ensures PathsBy(objects, owner, {}, masters) == []
  {
    if objects != [] { NoServers(objects[..|objects|-1], owner, masters); }
  }

  // ---------------------------------------------------------------- scattering updates

  type Logs = map<string, seq<RecordUpdate>>

  function LogOf(logs: Logs, partition: string): seq<RecordUpdate> {
    if partition in logs then logs[partition] else []
  }

  function Append(logs: Logs, partition: string, more: seq<RecordUpdate>): Logs {
    logs[partition := LogOf(logs, partition) + more]
  }

  lemma LogOfAppend(logs: Logs, q: string, more: seq<RecordUpdate>, p: string)
    ensures LogOf(Append(logs, q, more), p) == if p == q then LogOf(logs, p) + more else LogOf(logs, p)
  {
  }

  /** The update sent for a request: its own operation and key, and the object id found for its own file. */
  function ToRecord(r: Request, oid: int): RecordUpdate { RecordUpdate(r.op, r.key, ShowInt(oid)) }

  /** The records of some positions, in that order. */
  function Records(reqs: seq<Request>, oids: seq<int>, ps: seq<nat>): seq<RecordUpdate>
    requires |reqs| == |oids| && forall j :: 0 <= j < |ps| ==> ps[j] < |reqs|
  {
    seq(|ps|, j requires 0 <= j < |ps| => ToRecord(reqs[ps[j]], oids[ps[j]]))
  }

  /** The reference: every request applied by itself, in order. */
  function OneByOne(logs: Logs, reqs: seq<Request>, oids: seq<int>): Logs
    requires |reqs| == |oids|
  {
    if reqs == [] then logs
    else
      var n := |reqs| - 1;
      Append(OneByOne(logs, reqs[..n], oids[..n]), reqs[n].partition, [ToRecord(reqs[n], oids[n])])
  }

  function PartitionsOf(reqs: seq<Request>): (labels: seq<string>)
    ensures |labels| == |reqs| && forall i :: 0 <= i < |reqs| ==> labels[i] == reqs[i].partition
  {
    seq(|reqs|, i requires 0 <= i < |reqs| => reqs[i].partition)
  }

  function OfPartition(reqs: seq<Request>, p: string): seq<nat> { Positions(PartitionsOf(reqs), p) }

  lemma OfPartitionOneMore(reqs: seq<Request>, n: nat, p: string)
    requires n < |reqs|
    ensures OfPartition(reqs[..n+1], p) == OfPartition(reqs[..n], p) + if reqs[n].partition == p then [n] else []
  {
    assert PartitionsOf(reqs[..n+1])[..n] == PartitionsOf(reqs[..n]);
  }

  /** What a partition should have received: the records of its requests, in request order. */
  ghost function Share(reqs: seq<Request>, oids: seq<int>, p: string): seq<RecordUpdate>
    requires |reqs| == |oids|
  {
    PositionsSpec(PartitionsOf(reqs), p);
    Records(reqs, oids, OfPartition(reqs, p))
  }

  lemma {:induction false} OneByOneShare(logs: Logs, reqs: seq<Request>, oids: seq<int>, p: string)
    requires |reqs| == |oids|
    ensures LogOf(OneByOne(logs, reqs, oids), p) == LogOf(logs, p) + Share(reqs, oids, p)
  {
    if reqs == [] {
      assert Share(reqs, oids, p) == [];
    } else {
      var n := |reqs| - 1;
      var more := [ToRecord(reqs[n], oids[n])];
      OneByOneShare(logs, reqs[..n], oids[..n], p);
      LogOfAppend(OneByOne(logs, reqs[..n], oids[..n]), reqs[n].partition, more, p);
      ShareOneMore(reqs, oids, p);
      assert LogOf(logs, p) + Share(reqs[..n], oids[..n], p) + more == LogOf(logs, p) + (Share(reqs[..n], oids[..n], p) + more);
    }
  }

  lemma ShareOneMore(reqs: seq<Request>, oids: seq<int>, p: string)
    requires |reqs| == |oids| && reqs != []
    ensures var n := |reqs| - 1;
            Share(reqs, oids, p) == Share(reqs[..n], oids[..n], p) + if reqs[n].partition == p then [ToRecord(reqs[n], oids[n])] else []
  {
    var n := |reqs| - 1;
    PositionsSpec(PartitionsOf(reqs), p);
    PositionsSpec(PartitionsOf(reqs[..n]), p);
    var before, all := OfPartition(reqs[..n], p), OfPartition(reqs, p);
    OfPartitionOneMore(reqs, n, p);
    assert reqs[..n+1] == reqs;
    assert all == before + if reqs[n].partition == p then [n] else [];
    assert Records(reqs, oids, before) == Records(reqs[..n], oids[..n], before);
    assert Records(reqs, oids, all) == Records(reqs, oids, before) + if reqs[n].partition == p then [ToRecord(reqs[n], oids[n])] else [];
  }

  type Plan = map<string, map<string, seq<nat>>>

  /** The plan has, for each server, the partitions it owns that have requests, each with exactly its positions in order. */
  ghost predicate Groups(plan: Plan, reqs: seq<Request>, server: string -> string) {
    && (forall s, p :: s in plan && p in plan[s] ==> server(p) == s && plan[s][p] == OfPartition(reqs, p))
    && (forall i :: 0 <= i < |reqs| ==> server(reqs[i].partition) in plan && reqs[i].partition in plan[server(reqs[i].partition)])
    && (forall s :: s in plan ==> Needs(reqs, server, s))
  }

  /** Some request goes to that server. */
  ghost predicate Needs(reqs: seq<Request>, server: string -> string, s: string) {
    exists i :: 0 <= i < |reqs| && server(reqs[i].partition) == s
  }

  /** Groups the requests of a task by server and partition. */
  method ReorderRequests(reqs: seq<Request>, server: string -> string) returns (plan: Plan)
    ensures Groups(plan, reqs, server)
  {
    plan := map[];
    for pos := 0 to |reqs|
      invariant Groups(plan, reqs[..pos], server)
    {
      var p := reqs[pos].partition;
      var addr := server(p);
      GroupOneMore(plan, reqs, pos, server);
      var inner := if addr in plan then plan[addr] else map[];
      var bucket := if p in inner then inner[p] else [];
      plan := plan[addr := inner[p := bucket + [pos]]];
    }
    assert reqs[..|reqs|] == reqs;
  }

  /** A partition without a bucket has no requests. */
  lemma NoRequests(plan: Plan, reqs: seq<Request>, server: string -> string, p: string)
    requires Groups(plan, reqs, server) && (server(p) !in plan || p !in plan[server(p)])
    ensures OfPartition(reqs, p) == []
  {
    assert forall i :: 0 <= i < |reqs| ==> reqs[i].partition != p;
    NoPositions(PartitionsOf(reqs), p);
  }

  /** The plan with one more position in the bucket of a partition. */
  function WithPosition(plan: Plan, addr: string, p: string, pos: nat): Plan {
    var inner := if addr in plan then plan[addr] else map[];
    plan[addr := inner[p := (if p in inner then inner[p] else []) + [pos]]]
  }

  lemma GroupOneMore(plan: Plan, reqs: seq<Request>, pos: nat, server: string -> string)
    requires pos < |reqs| && Groups(plan, reqs[..pos], server)
    ensures Groups(WithPosition(plan, server(reqs[pos].partition), reqs[pos].partition, pos), reqs[..pos+1], server)
  {
    var p, rs := reqs[pos].partition, reqs[..pos+1];
    var plan' := WithPosition(plan, server(p), p, pos);
    forall s, q | s in plan' && q in plan'[s] ensures server(q) == s && plan'[s][q] == OfPartition(rs, q) {
      BucketOneMore(plan, reqs, pos, server, s, q);
    }
    forall i | 0 <= i < |rs| ensures server(rs[i].partition) in plan' && rs[i].partition in plan'[server(rs[i].partition)] {
      if i < pos { assert reqs[..pos][i] == rs[i]; }
    }
    forall s | s in plan' ensures Needs(rs, server, s) {
      if s == server(p) { assert rs[pos] == reqs[pos]; } else { NeedsMore(reqs, pos, server, s); }
    }
  }

  lemma BucketOneMore(plan: Plan, reqs: seq<Request>, pos: nat, server: string -> string, s: string, q: string)
    requires pos < |reqs| && Groups(plan, reqs[..pos], server)
    requires var plan' := WithPosition(plan, server(reqs[pos].partition), reqs[pos].partition, pos); s in plan' && q in plan'[s]
    ensures server(q) == s
    ensures WithPosition(plan, server(reqs[pos].partition), reqs[pos].partition, pos)[s][q] == OfPartition(reqs[..pos+1], q)
  {
    OfPartitionOneMore(reqs, pos, q);
    var p := reqs[pos].partition;
    if q == p && s == server(p) && (s !in plan || p !in plan[s]) {
      NoRequests(plan, reqs[..pos], server, p);
    }
  }

  lemma NeedsMore(reqs: seq<Request>, pos: nat, server: string -> string, s: string)
    requires pos < |reqs| && Needs(reqs[..pos], server, s)
    ensures Needs(reqs[..pos+1], server, s)
  {
    var i :| 0 <= i < pos && server(reqs[..pos][i].partition) == s;
    assert reqs[..pos+1][i] == reqs[..pos][i];
  }

  /** Every request position is in exactly one bucket, that of its own partition. */
  lemma EachPositionInOneBucket(plan: Plan, reqs: seq<Request>, server: string -> string, i: nat, s: string, p: string)
    requires Groups(plan, reqs, server) && i < |reqs| && s in plan && p in plan[s]
    ensures i in plan[s][p] <==> p == reqs[i].partition && s == server(p)
  {
    assert server(p) == s && plan[s][p] == OfPartition(reqs, p);
    InOfPartition(reqs, p, i);
  }

  lemma InOfPartition(reqs: seq<Request>, p: string, i: nat)
    requires i < |reqs|
    ensures i in OfPartition(reqs, p) <==> reqs[i].partition == p
  {
    PositionsSpec(PartitionsOf(reqs), p);
    assert PartitionsOf(reqs)[i] == reqs[i].partition;
    if i in OfPartition(reqs, p) {
      var j :| 0 <= j < |OfPartition(reqs, p)| && OfPartition(reqs, p)[j] == i;
    }
  }

  /** All lists but the remaining ones have been appended. */
  ghost predicate Received(before: Logs, logs: Logs, lists: map<string, seq<RecordUpdate>>, rest: set<string>) {
    forall p :: LogOf(logs, p) == LogOf(before, p) + if p in lists && p !in rest then lists[p] else []
  }

  lemma ReceiveOne(before: Logs, logs: Logs, lists: map<string, seq<RecordUpdate>>, rest: set<string>, q: string)
    requires Received(before, logs, lists, rest) && q in rest && q in lists
    ensures Received(before, Append(logs, q, lists[q]), lists, rest - {q})
  {
    forall p ensures LogOf(Append(logs, q, lists[q]), p) ==
                     LogOf(before, p) + if p in lists && p !in rest - {q} then lists[p] else []
    {
      LogOfAppend(logs, q, lists[q], p);
      if p == q { assert LogOf(before, q) + [] == LogOf(before, q); }
    }
  }

  /** The index servers' logs, as the task's RPCs find and leave them. */
  class IndexServers {
    var logs: Logs

    constructor (l: Logs)
      ensures logs == l
    {
      logs := l;
    }

    /** One `update` RPC: every record list is appended to the log of its partition. */
    method Update(lists: map<string, seq<RecordUpdate>>)
      modifies this
      ensures forall p :: LogOf(logs, p) == LogOf(old(logs), p) + if p in lists then lists[p] else []
    {
      var rest := lists.Keys;
      while rest != {}
        invariant rest <= lists.Keys
        invariant Received(old(logs), logs, lists, rest)
        decreases |rest|
      {
        ghost var w := Pick(rest);
        var q :| q in rest;
        ReceiveOne(old(logs), logs, lists, rest, q);
        logs := Append(logs, q, lists[q]);
        rest := rest - {q};
      }
    }
  }

  /** The record lists of one server's RPC. */
  method BuildLists(reqs: seq<Request>, oids: seq<int>, buckets: map<string, seq<nat>>) returns (lists: map<string, seq<RecordUpdate>>)
    requires |reqs| == |oids| && forall p, j :: p in buckets && 0 <= j < |buckets[p]| ==> buckets[p][j] < |reqs|
    ensures lists.Keys == buckets.Keys && forall p :: p in buckets ==> lists[p] == Records(reqs, oids, buckets[p])
  {
    lists := map[];
    var rest := buckets.Keys;
    while rest != {}
      invariant rest <= buckets.Keys && lists.Keys == buckets.Keys - rest
      invariant forall p :: p in lists ==> lists[p] == Records(reqs, oids, buckets[p])
      decreases |rest|
    {
      ghost var w := Pick(rest);
      var p :| p in rest;
      var list := [];
      for j := 0 to |buckets[p]|
        invariant list == Records(reqs, oids, buckets[p][..j])
      {
        var pos := buckets[p][j];
        assert Records(reqs, oids, buckets[p][..j+1]) == Records(reqs, oids, buckets[p][..j]) + [ToRecord(reqs[pos], oids[pos])];
        list := list + [ToRecord(reqs[pos], oids[pos])];
      }
      assert buckets[p][..|buckets[p]|] == buckets[p];
      lists := lists[p := list];
      rest := rest - {p};
    }
  }

  /** The partitions of the servers reached have received their share, the others nothing. */
  ghost predicate Delivered(before: Logs, after: Logs, reqs: seq<Request>, oids: seq<int>, server: string -> string,
                            reached: set<string>)
    requires |reqs| == |oids|
  {
    forall p :: LogOf(after, p) == LogOf(before, p) + if server(p) in reached then Share(reqs, oids, p) else []
  }

  /** A server is reached if it is needed and every needed server up to it in key order answers. */
  ghost predicate IsReached(reqs: seq<Request>, server: string -> string, fails: string -> bool, s: string) {
    Needs(reqs, server, s) && forall f :: Needs(reqs, server, f) && fails(f) ==> !Leq(f, s)
  }

  /**
   * Sends a task: one RPC per server in key order, stopping at the first that fails. Every partition of a server
   * that was reached gets all its requests, in request order and with their own object ids; the others get none.
   */
  method RunTask(index: IndexServers, reqs: seq<Request>, oids: seq<int>, server: string -> string, fails: string -> bool)
    returns (ok: bool, ghost reached: set<string>)
    requires |reqs| == |oids|
    modifies index
    ensures Delivered(old(index.logs), index.logs, reqs, oids, server, reached)
    ensures forall s :: s in reached <==> IsReached(reqs, server, fails, s)
    ensures ok <==> forall i :: 0 <= i < |reqs| ==> !fails(server(reqs[i].partition))
  {
    var plan := ReorderRequests(reqs, server);
    NeededAreKeys(plan, reqs, server);
    ok, reached := SendAll(index, plan, reqs, oids, server, fails);
    ReachedAre(plan.Keys, reached, reqs, server, fails);
    NoneFailsIff(plan, reqs, server, fails);
  }

  method SendAll(index: IndexServers, plan: Plan, reqs: seq<Request>, oids: seq<int>, server: string -> string, fails: string -> bool)
    returns (ok: bool, ghost reached: set<string>)
    requires |reqs| == |oids| && Groups(plan, reqs, server)
    modifies index
    ensures Delivered(old(index.logs), index.logs, reqs, oids, server, reached)
    ensures UpToFailure(plan.Keys, reached, fails)
    ensures ok <==> forall s :: s in plan ==> !fails(s)
  {
    var todo := plan.Keys;
    reached := {};
    NothingDelivered(index.logs, reqs, oids, server);
    while todo != {}
      invariant Passed(plan.Keys, todo, reached, fails)
      invariant Delivered(old(index.logs), index.logs, reqs, oids, server, reached)
      decreases |todo|
    {
      var s := LeastKey(todo);
      if fails(s) {
        StoppedAt(plan.Keys, todo, reached, fails, s);
        return false, reached;
      }
      PassOne(plan.Keys, todo, reached, fails, s);
      SendTo(index, plan, reqs, oids, server, s, old(index.logs), reached);
      todo, reached := todo - {s}, reached + {s};
    }
    AllPassed(plan.Keys, todo, reached, fails);
    return true, reached;
  }

  /** One server's RPC. */
  method SendTo(index: IndexServers, plan: Plan, reqs: seq<Request>, oids: seq<int>, server: string -> string, s: string,
                ghost before: Logs, ghost reached: set<string>)
    requires Groups(plan, reqs, server) && s in plan && |reqs| == |oids|
    requires s !in reached && Delivered(before, index.logs, reqs, oids, server, reached)
    modifies index
    ensures Delivered(before, index.logs, reqs, oids, server, reached + {s})
  {
    BucketBounds(plan, reqs, server, s);
    var lists := BuildLists(reqs, oids, plan[s]);
    ListsAreShares(plan, reqs, oids, server, s, lists);
    ghost var mid := index.logs;
    index.Update(lists);
    DeliverOne(before, mid, index.logs, reqs, oids, server, reached, s);
  }

  lemma NothingDelivered(logs: Logs, reqs: seq<Request>, oids: seq<int>, server: string -> string)
    requires |reqs| == |oids|
    ensures Delivered(logs, logs, reqs, oids, server, {})
  {
    forall p ensures LogOf(logs, p) == LogOf(logs, p) + [] {}
  }

  lemma DeliverOne(before: Logs, mid: Logs, after: Logs, reqs: seq<Request>, oids: seq<int>, server: string -> string,
                   reached: set<string>, s: string)
    requires |reqs| == |oids| && Delivered(before, mid, reqs, oids, server, reached) && s !in reached
    requires forall p :: LogOf(after, p) == LogOf(mid, p) + if server(p) == s then Share(reqs, oids, p) else []
    ensures Delivered(before, after, reqs, oids, server, reached + {s})
  {
    forall p ensures LogOf(after, p) == LogOf(before, p) + if server(p) in reached + {s} then Share(reqs, oids, p) else [] {
      assert LogOf(mid, p) == LogOf(before, p) + if server(p) in reached then Share(reqs, oids, p) else [];
      assert LogOf(before, p) + [] == LogOf(before, p) && LogOf(mid, p) + [] == LogOf(mid, p);
    }
  }

  /** The servers passed so far: none of them fails, and they come before those still to do. */
  ghost predicate Passed(all: set<string>, todo: set<string>, reached: set<string>, fails: string -> bool) {
    && todo <= all && reached == all - todo
    && (forall s :: s in reached ==> !fails(s))
    && (forall s, f :: s in reached && f in todo ==> !Leq(f, s))
  }

  lemma PassOne(all: set<string>, todo: set<string>, reached: set<string>, fails: string -> bool, s: string)
    requires Passed(all, todo, reached, fails) && s in todo && !fails(s) && forall x :: x in todo ==> Leq(s, x)
    ensures Passed(all, todo - {s}, reached + {s}, fails)
  {
    forall f | f in todo - {s} ensures !Leq(f, s) {
      if Leq(f, s) { LeqAntisymmetric(f, s); }
    }
  }

  /** Reached are the servers with no failing one at or before them. */
  ghost predicate UpToFailure(all: set<string>, reached: set<string>, fails: string -> bool) {
    forall s :: s in reached <==> s in all && forall f :: f in all && fails(f) ==> !Leq(f, s)
  }

  lemma StoppedAt(all: set<string>, todo: set<string>, reached: set<string>, fails: string -> bool, s: string)
    requires Passed(all, todo, reached, fails) && s in todo && fails(s) && forall x :: x in todo ==> Leq(s, x)
    ensures UpToFailure(all, reached, fails)
  {
    forall x ensures x in reached <==> x in all && forall f :: f in all && fails(f) ==> !Leq(f, x) {
      if x in todo { assert Leq(s, x); }
    }
  }

  lemma AllPassed(all: set<string>, todo: set<string>, reached: set<string>, fails: string -> bool)
    requires Passed(all, todo, reached, fails) && todo == {}
    ensures UpToFailure(all, reached, fails) && reached == all
  {
  }

  lemma NeededAreKeys(plan: Plan, reqs: seq<Request>, server: string -> string)
    requires Groups(plan, reqs, server)
    ensures forall s :: s in plan.Keys <==> Needs(reqs, server, s)
  {
  }

  lemma ReachedAre(all: set<string>, reached: set<string>, reqs: seq<Request>, server: string -> string, fails: string -> bool)
    requires UpToFailure(all, reached, fails) && forall s :: s in all <==> Needs(reqs, server, s)
    ensures forall s :: s in reached <==> IsReached(reqs, server, fails, s)
  {
  }

  lemma NoneFailsIff(plan: Plan, reqs: seq<Request>, server: string -> string, fails: string -> bool)
    requires Groups(plan, reqs, server)
    ensures (forall s :: s in plan ==> !fails(s)) <==> forall i :: 0 <= i < |reqs| ==> !fails(server(reqs[i].partition))
  {
  }

  lemma BucketBounds(plan: Plan, reqs: seq<Request>, server: string -> string, s: string)
    requires Groups(plan, reqs, server) && s in plan
    ensures forall p, j :: p in plan[s] && 0 <= j < |plan[s][p]| ==> plan[s][p][j] < |reqs|
  {
    forall p, j | p in plan[s] && 0 <= j < |plan[s][p]| ensures plan[s][p][j] < |reqs| {
      PositionsSpec(PartitionsOf(reqs), p);
      assert plan[s][p] == OfPartition(reqs, p);
    }
  }

  /** What one server is sent is, for every partition it owns, that partition's share. */
  lemma ListsAreShares(plan: Plan, reqs: seq<Request>, oids: seq<int>, server: string -> string, s: string,
                       lists: map<string, seq<RecordUpdate>>)
    requires Groups(plan, reqs, server) && s in plan && |reqs| == |oids|
    requires lists.Keys == plan[s].Keys
    requires forall p, j :: p in plan[s] && 0 <= j < |plan[s][p]| ==> plan[s][p][j] < |reqs|
    requires forall p :: p in plan[s] ==> lists[p] == Records(reqs, oids, plan[s][p])
    ensures forall p :: (if p in lists then lists[p] else []) == if server(p) == s then Share(reqs, oids, p) else []
  {
    forall p ensures (if p in lists then lists[p] else []) == if server(p) == s then Share(reqs, oids, p) else [] {
      if server(p) == s && p !in plan[s] {
        NoRequests(plan, reqs, server, p);
        assert Share(reqs, oids, p) == [];
      }
    }
  }

  lemma NoShare(reqs: seq<Request>, oids: seq<int>, p: string)
    requires |reqs| == |oids| && forall i :: 0 <= i < |reqs| ==> reqs[i].partition != p
    ensures Share(reqs, oids, p) == []
  {
    NoPositions(PartitionsOf(reqs), p);
  }

  /** When no server that is needed fails, the servers end up as if the requests had been applied one by one. */
  lemma TaskEqualsOneByOne(before: Logs, after: Logs, reqs: seq<Request>, oids: seq<int>, server: string -> string,
                           fails: string -> bool, reached: set<string>)
    requires |reqs| == |oids| && Delivered(before, after, reqs, oids, server, reached)
    requires forall s :: s in reached <==> IsReached(reqs, server, fails, s)
    requires forall i :: 0 <= i < |reqs| ==> !fails(server(reqs[i].partition))
    ensures forall p :: LogOf(after, p) == LogOf(OneByOne(before, reqs, oids), p)
  {
    forall p ensures LogOf(after, p) == LogOf(OneByOne(before, reqs, oids), p) {
      OneByOneShare(before, reqs, oids, p);
      if server(p) !in reached { UnreachedShare(reqs, oids, server, fails, p); }
    }
  }

  lemma UnreachedShare(reqs: seq<Request>, oids: seq<int>, server: string -> string, fails: string -> bool, p: string)
    requires |reqs| == |oids| && !IsReached(reqs, server, fails, server(p))
    requires forall i :: 0 <= i < |reqs| ==> !fails(server(reqs[i].partition))
    ensures Share(reqs, oids, p) == []
  {
    assert forall i :: 0 <= i < |reqs| ==> Needs(reqs, server, server(reqs[i].partition));
    NoShare(reqs, oids, p);
  }
}
