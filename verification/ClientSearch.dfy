/**
 * The client's search from end to end: the masters say where the indices are, the index servers
 * are asked for each of them, and the masters turn the objects found into paths.
 */
module ClientSearches {
  import opened Base
  import opened Numerals
  import opened IndexOps
  import opened RangeIndexes
  import opened LogManagers
  import opened IndexWrappers
  import DI = DeferredIndex
  import opened IndexManagers
  import opened ComplexQueries
  import QP = QueryPath
  import FQ = FieldQueries
  import opened Paths
  import opened IndexPaths
  import IN = IndexNamespaces
  import SG = ScatterGather

  // ---------------------------------------------------------------- partitions

  /** The one partition of the index of that name on a directory. */
  function PartitionPath(dir: string, name: string): string { IndexPath(dir, name) + "/0" }

  /** How the client reads the index name back from a partition. */
  function NameOf(part: string): string { FileName(ParentPath(part)) }

  lemma NameOfPartition(dir: string, name: string)
    requires Normal(dir) && IsName(name)
    ensures NameOf(PartitionPath(dir, name)) == name
  {
    SplitJoined(dir, ".vsfs");
    SplitJoined(Join(dir, ".vsfs"), name);
    ParentOfPartition(IndexPath(dir, name));
  }

  lemma ParentOfPartition(ip: string)
    requires Normal(ip) && ip != "/"
    ensures ParentPath(ip + "/0") == ip
  {
    assert ip[|ip|-1] != '/' && Join(ip, "0") == ip + "/" + "0";
    assert ip + "/" + "0" == ip + "/0";
    SplitJoined(ip, "0");
  }

  // ---------------------------------------------------------------- where the indices are

  /** A master knows an index of that name under the root, with this partition. */
  ghost predicate LocatedBy(nodes: IN.Nodes, root: string, name: string, part: string) {
    exists d :: IN.Carries(nodes, d, name) && StartsWith(d, root) && part == PartitionPath(d, name)
  }

  method LocateName(ns: IN.IndexNamespace, root: string, name: string) returns (parts: set<string>)
    ensures forall p :: p in parts <==> LocatedBy(ns.nodes, root, name, p)
  {
    var dirs := ns.Collect(root, name);
    parts := {};
    for i := 0 to |dirs|
      invariant forall p :: p in parts <==> exists j :: 0 <= j < i && p == PartitionPath(dirs[j], name)
    {
      parts := parts + {PartitionPath(dirs[i], name)};
    }
    forall p ensures p in parts <==> LocatedBy(ns.nodes, root, name, p) {
      if LocatedBy(ns.nodes, root, name, p) {
        var d :| IN.Carries(ns.nodes, d, name) && StartsWith(d, root) && p == PartitionPath(d, name);
        assert d in dirs;
      }
    }
  }

  /** The partitions of all indices of these names on one master. */
  method LocateOn(ns: IN.IndexNamespace, root: string, names: set<string>) returns (parts: set<string>)
    ensures forall p :: p in parts <==> exists f :: f in names && LocatedBy(ns.nodes, root, f, p)
  {
    parts := {};
    var rest := names;
    while rest != {}
      invariant rest <= names
      invariant forall p :: p in parts <==> exists f :: f in names && f !in rest && LocatedBy(ns.nodes, root, f, p)
      decreases |rest|
    {
      var f := LeastKey(rest);
      var more := LocateName(ns, root, f);
      parts := parts + more;
      rest := rest - {f};
    }
  }

  /** A located partition, on any of the masters. */
  ghost predicate Located(nodes: map<string, IN.Nodes>, root: string, names: set<string>, part: string) {
    exists m, f :: m in nodes && f in names && LocatedBy(nodes[m], root, f, part)
  }

  /** Asks every master; the first that fails ends the search. */
  method Locate(masters: map<string, IN.IndexNamespace>, root: string, names: set<string>, fails: string -> bool, ghost nodes: map<string, IN.Nodes>)
    returns (ok: bool, parts: set<string>)
    requires nodes.Keys == masters.Keys && forall m :: m in masters ==> nodes[m] == masters[m].nodes
    ensures ok <==> forall m :: m in masters ==> !fails(m)
    ensures ok ==> forall p :: p in parts <==> Located(nodes, root, names, p)
  {
    parts := {};
    var rest := masters.Keys;
    while rest != {}
      invariant rest <= masters.Keys && forall m :: m in masters && m !in rest ==> !fails(m)
      invariant forall p :: p in parts <==> exists m, f :: m in nodes && m !in rest && f in names && LocatedBy(nodes[m], root, f, p)
      decreases |rest|
    {
      var m := LeastKey(rest);
      if fails(m) {
        return false, parts;
      }
      var more := LocateOn(masters[m], root, names);
      parts := parts + more;
      rest := rest - {m};
    }
    return true, parts;
  }

  // ---------------------------------------------------------------- asking the index servers

  type Plan = map<string, set<string>>

  /** Every partition is with the server it hashes to, and nothing else is. */
  ghost predicate Groups(plan: Plan, parts: set<string>, server: string -> string) {
    && (forall p :: p in parts ==> server(p) in plan && p in plan[server(p)])
    && (forall a, p :: a in plan && p in plan[a] ==> p in parts && server(p) == a)
    && (forall a :: a in plan ==> plan[a] != {})
  }

  lemma GroupsMore(plan: Plan, parts: set<string>, server: string -> string, p: string)
    requires Groups(plan, parts, server)
    ensures Groups(plan[server(p) := (if server(p) in plan then plan[server(p)] else {}) + {p}], parts + {p}, server)
  {
    var plan' := plan[server(p) := (if server(p) in plan then plan[server(p)] else {}) + {p}];
    assert p in plan'[server(p)];
    forall a | a in plan' ensures plan'[a] != {} { if a == server(p) { assert p in plan'[a]; } }
  }

  method MakePlan(parts: set<string>, server: string -> string) returns (plan: Plan)
    ensures Groups(plan, parts, server)
  {
    plan := map[];
    var rest := parts;
    while rest != {}
      invariant rest <= parts && Groups(plan, parts - rest, server)
      decreases |rest|
    {
      var p := LeastKey(rest);
      var a := server(p);
      GroupsMore(plan, parts - rest, server, p);
      assert parts - (rest - {p}) == parts - rest + {p};
      plan := plan[a := (if a in plan then plan[a] else {}) + {p}];
      rest := rest - {p};
    }
    assert parts - rest == parts;
  }

  /** The sub-query for a partition: the range of the field it is an index of. */
  function QueryFor(ranges: Ranges, part: string): SubQuery { SubQuery(part, QP.ToRpc(Get(ranges, NameOf(part)))) }

  /** The sub-queries are those of the partitions. */
  ghost predicate AsksFor(qs: seq<SubQuery>, parts: set<string>, ranges: Ranges) {
    forall q :: q in qs <==> exists p :: p in parts && q == QueryFor(ranges, p)
  }

  method BuildQueries(parts: set<string>, ranges: Ranges) returns (qs: seq<SubQuery>)
    ensures AsksFor(qs, parts, ranges)
  {
    var order := IN.SortedNames(parts);
    ghost var all := InOrder(ranges, order);
    qs := [];
    for i := 0 to |order|
      invariant qs == all[..i]
    {
      var q := QueryFor(ranges, order[i]);
      assert q == all[i];
      TakeOneMore(all, i);
      qs := qs + [q];
    }
    assert all[..|all|] == all;
    AsksInOrder(all, order, parts, ranges);
  }

  lemma TakeOneMore(all: seq<SubQuery>, i: nat)
    requires i < |all|
    ensures all[..i+1] == all[..i] + [all[i]]
  {
  }

  function InOrder(ranges: Ranges, order: seq<string>): (qs: seq<SubQuery>)
    ensures |qs| == |order| && forall j :: 0 <= j < |qs| ==> qs[j] == QueryFor(ranges, order[j])
  {
    seq(|order|, j requires 0 <= j < |order| => QueryFor(ranges, order[j]))
  }

  lemma AsksInOrder(qs: seq<SubQuery>, order: seq<string>, parts: set<string>, ranges: Ranges)
    requires |qs| == |order| && (forall p :: p in order <==> p in parts)
    requires forall j :: 0 <= j < |qs| ==> qs[j] == QueryFor(ranges, order[j])
    ensures AsksFor(qs, parts, ranges)
  {
    forall q ensures q in qs <==> exists p :: p in parts && q == QueryFor(ranges, p) {
      if q in qs {
        var j :| 0 <= j < |qs| && qs[j] == q;
        assert order[j] in parts;
      }
      if p :| p in parts && q == QueryFor(ranges, p) {
        var j :| 0 <= j < |order| && order[j] == p;
        assert qs[j] == q;
      }
    }
  }

  /** What a server finds for some partitions: an object is found exactly when one of their merged indices matches. */
  lemma ServerFinds(s: Server, parts: set<string>, ranges: Ranges, qs: seq<SubQuery>, txn: nat, results: seq<int>, o: int)
    requires s.Results(qs, txn, results) && AsksFor(qs, parts, ranges)
    ensures o in results <==> exists p :: p in parts && Finds(s, QueryFor(ranges, p), txn, o)
  {
    ResultsAreUnion(s, qs, txn, results, o);
    if p :| p in parts && Finds(s, QueryFor(ranges, p), txn, o) {
      assert QueryFor(ranges, p) in qs;
      var i :| 0 <= i < |qs| && qs[i] == QueryFor(ranges, p);
      assert Finds(s, qs[i], txn, o);
    }
    if i :| 0 <= i < |qs| && Finds(s, qs[i], txn, o) {
      assert qs[i] in qs;
    }
  }

  /** The states of all index servers. */
  type Cluster = map<string, Server>

  /** A server's answer about some partitions. */
  ghost predicate Answered(s: Server, parts: set<string>, ranges: Ranges, txn: nat, results: seq<int>) {
    exists qs :: s.Results(qs, txn, results) && AsksFor(qs, parts, ranges)
  }

  ghost predicate CanSearch(s: Server, parts: set<string>, ranges: Ranges, txn: nat) {
    forall p :: p in parts ==> s.Can(QueryFor(ranges, p), txn)
  }

  /** The queries for a server can be answered exactly when its partitions can be searched. */
  lemma CanAnswer(s: Server, parts: set<string>, ranges: Ranges, qs: seq<SubQuery>, txn: nat)
    requires AsksFor(qs, parts, ranges)
    ensures (forall i :: 0 <= i < |qs| ==> s.Can(qs[i], txn)) <==> CanSearch(s, parts, ranges, txn)
  {
    forall i | 0 <= i < |qs| ensures exists p :: p in parts && qs[i] == QueryFor(ranges, p) { assert qs[i] in qs; }
    forall p | p in parts ensures exists i :: 0 <= i < |qs| && qs[i] == QueryFor(ranges, p) {
      assert QueryFor(ranges, p) in qs;
    }
  }

  /** What a server replies about some partitions: an answer exactly when all of them can be searched. */
  ghost predicate RightReply(s: Server, parts: set<string>, ranges: Ranges, txn: nat, reply: Option<seq<int>>) {
    && (reply.Some? <==> CanSearch(s, parts, ranges, txn))
    && (reply.Some? ==> Answered(s, parts, ranges, txn, reply.value))
  }

  /** Any index manager gives such replies. */
  method Reply(manager: IndexManager, parts: set<string>, ranges: Ranges, txn: nat) returns (reply: Option<seq<int>>)
    requires manager.Valid()
    modifies manager.Merging()
    ensures RightReply(old(manager.View()), parts, ranges, txn, reply)
  {
    var qs := BuildQueries(parts, ranges);
    CanAnswer(manager.View(), parts, ranges, qs, txn);
    var found, results, stop := manager.Search(txn, qs);
    reply := if found.Complete? then Some(results) else None;
  }

  /** The index servers as the client reaches them: which do not answer, and what the others reply. */
  datatype Network = Network(fails: string -> bool, reply: (string, set<string>) -> Option<seq<int>>) {
    ghost predicate Right(cluster: Cluster, ranges: Ranges, txn: nat) {
      forall a, parts :: a in cluster && !fails(a) ==> RightReply(cluster[a], parts, ranges, txn, reply(a, parts))
    }
  }

  /** The partition's server answers, and can merge the index. */
  ghost predicate IsSearchable(p: string, server: string -> string, cluster: Cluster, ranges: Ranges, txn: nat, network: Network) {
    !network.fails(server(p)) && server(p) in cluster && cluster[server(p)].Can(QueryFor(ranges, p), txn)
  }

  /** Every one of the partitions can be searched. */
  ghost predicate Searchable(parts: set<string>, server: string -> string, cluster: Cluster, ranges: Ranges, txn: nat, network: Network) {
    forall p :: p in parts ==> IsSearchable(p, server, cluster, ranges, txn, network)
  }

  /** Some of the partitions, once merged, has the object under a key in its range. */
  ghost predicate FoundIn(parts: set<string>, server: string -> string, cluster: Cluster, ranges: Ranges, txn: nat, o: int) {
    exists p :: p in parts && FoundAt(p, server, cluster, ranges, txn, o)
  }

  ghost predicate FoundAt(p: string, server: string -> string, cluster: Cluster, ranges: Ranges, txn: nat, o: int) {
    server(p) in cluster && Finds(cluster[server(p)], QueryFor(ranges, p), txn, o)
  }

  /** The objects are those found in these partitions. */
  ghost predicate AreFound(parts: set<string>, server: string -> string, cluster: Cluster, ranges: Ranges, txn: nat, objects: seq<int>) {
    forall o :: o in objects <==> FoundIn(parts, server, cluster, ranges, txn, o)
  }

  /** One server's answer. */
  lemma AnswerIsFound(more: set<string>, a: string, server: string -> string, cluster: Cluster, ranges: Ranges, txn: nat, results: seq<int>)
    requires a in cluster && (forall p :: p in more ==> server(p) == a) && Answered(cluster[a], more, ranges, txn, results)
    ensures AreFound(more, server, cluster, ranges, txn, results)
  {
    var qs :| cluster[a].Results(qs, txn, results) && AsksFor(qs, more, ranges);
    forall o ensures o in results <==> FoundIn(more, server, cluster, ranges, txn, o) {
      ServerFinds(cluster[a], more, ranges, qs, txn, results, o);
      if o in results {
        var p :| p in more && Finds(cluster[a], QueryFor(ranges, p), txn, o);
        assert FoundAt(p, server, cluster, ranges, txn, o);
      }
      if FoundIn(more, server, cluster, ranges, txn, o) {
        var p :| p in more && FoundAt(p, server, cluster, ranges, txn, o);
        assert Finds(cluster[a], QueryFor(ranges, p), txn, o);
      }
    }
  }

  /** Putting two answers together. */
  lemma FoundTogether(parts: set<string>, more: set<string>, server: string -> string, cluster: Cluster, ranges: Ranges, txn: nat,
                      objects: seq<int>, results: seq<int>)
    requires AreFound(parts, server, cluster, ranges, txn, objects) && AreFound(more, server, cluster, ranges, txn, results)
    ensures AreFound(parts + more, server, cluster, ranges, txn, objects + results)
  {
    forall o ensures o in objects + results <==> FoundIn(parts + more, server, cluster, ranges, txn, o) {
      assert o in objects <==> FoundIn(parts, server, cluster, ranges, txn, o);
      assert o in results <==> FoundIn(more, server, cluster, ranges, txn, o);
    }
  }

  /** One server's partitions can be searched exactly when it answers about them. */
  lemma ServerCan(more: set<string>, a: string, server: string -> string, cluster: Cluster, ranges: Ranges, txn: nat, network: Network)
    requires a in cluster && more != {} && forall p :: p in more ==> server(p) == a
    ensures Searchable(more, server, cluster, ranges, txn, network) <==> !network.fails(a) && CanSearch(cluster[a], more, ranges, txn)
  {
    var q := Pick(more);
    forall p | p in more
      ensures IsSearchable(p, server, cluster, ranges, txn, network) <==> !network.fails(a) && cluster[a].Can(QueryFor(ranges, p), txn)
    {
    }
  }

  /** Asks server after server for the partitions it has; the first that fails ends the search. */
  method AskServers(network: Network, plan: Plan, ranges: Ranges, txn: nat, ghost parts: set<string>, ghost server: string -> string, ghost cluster: Cluster)
    returns (ok: bool, objects: seq<int>)
    requires Groups(plan, parts, server) && (forall p :: server(p) in cluster) && network.Right(cluster, ranges, txn)
    ensures ok <==> Searchable(parts, server, cluster, ranges, txn, network)
    ensures ok ==> AreFound(parts, server, cluster, ranges, txn, objects)
  {
    var jobs := Jobs(plan, parts, server, cluster);
    objects := [];
    ghost var done: set<string> := {};
    for i := 0 to |jobs|
      invariant done == Union(jobs[..i])
      invariant Asked(done, server, cluster, ranges, txn, network, objects)
    {
      var job := jobs[i];
      UnionMore(jobs, i);
      assert OneServer(job, server, cluster);
      var reply := Ask(network, job.addr, job.parts, ranges, txn, server, cluster);
      if reply.None? {
        NotAll(job.parts, parts, server, cluster, ranges, txn, network);
        return false, objects;
      }
      AskedMore(done, job.parts, server, cluster, ranges, txn, network, objects, reply.value);
      objects, done := objects + reply.value, done + job.parts;
    }
    assert jobs[..|jobs|] == jobs;
    return true, objects;
  }

  /** A server and the partitions it is asked about. */
  datatype Job = Job(addr: string, parts: set<string>)

  ghost predicate OneServer(job: Job, server: string -> string, cluster: Cluster) {
    job.addr in cluster && job.parts != {} && forall p :: p in job.parts ==> server(p) == job.addr
  }

  function Union(jobs: seq<Job>): set<string> { set i, p | 0 <= i < |jobs| && p in jobs[i].parts :: p }

  lemma UnionMore(jobs: seq<Job>, i: nat)
    requires i < |jobs|
    ensures Union(jobs[..i+1]) == Union(jobs[..i]) + jobs[i].parts && jobs[i].parts <= Union(jobs)
  {
    var more, less := jobs[..i+1], jobs[..i];
    forall p ensures p in Union(more) <==> p in Union(less) || p in jobs[i].parts {
      if p in Union(more) { var j :| 0 <= j < |more| && p in more[j].parts; if j < i { assert p in less[j].parts; } }
      if p in Union(less) { var j :| 0 <= j < |less| && p in less[j].parts; assert p in more[j].parts; }
      if p in jobs[i].parts { assert p in more[i].parts; }
    }
  }

  /** The servers of a plan in key order. */
  method Jobs(plan: Plan, ghost parts: set<string>, ghost server: string -> string, ghost cluster: Cluster) returns (jobs: seq<Job>)
    requires Groups(plan, parts, server) && forall p :: server(p) in cluster
    ensures Union(jobs) == parts && forall i :: 0 <= i < |jobs| ==> OneServer(jobs[i], server, cluster)
  {
    var order := IN.SortedNames(plan.Keys);
    jobs := [];
    for i := 0 to |order|
      invariant |jobs| == i && forall j :: 0 <= j < i ==> jobs[j] == Job(order[j], plan[order[j]])
    {
      jobs := jobs + [Job(order[i], plan[order[i]])];
    }
    JobsCover(plan, parts, server, cluster, order, jobs);
  }

  lemma JobsCover(plan: Plan, parts: set<string>, server: string -> string, cluster: Cluster, order: seq<string>, jobs: seq<Job>)
    requires Groups(plan, parts, server) && (forall p :: server(p) in cluster) && forall a :: a in order <==> a in plan.Keys
    requires |jobs| == |order| && forall j :: 0 <= j < |jobs| ==> order[j] in plan && jobs[j] == Job(order[j], plan[order[j]])
    ensures Union(jobs) == parts && forall i :: 0 <= i < |jobs| ==> OneServer(jobs[i], server, cluster)
  {
    forall i | 0 <= i < |jobs| ensures OneServer(jobs[i], server, cluster) && jobs[i].parts <= parts {
      PartsOfServer(plan, parts, server, cluster, order[i]);
    }
    forall p | p in parts ensures p in Union(jobs) {
      assert server(p) in plan.Keys;
      var j :| 0 <= j < |order| && order[j] == server(p);
      assert p in jobs[j].parts;
    }
  }

  /** These partitions could be searched, and this is what was found in them. */
  ghost predicate Asked(parts: set<string>, server: string -> string, cluster: Cluster, ranges: Ranges, txn: nat, network: Network, objects: seq<int>) {
    Searchable(parts, server, cluster, ranges, txn, network) && AreFound(parts, server, cluster, ranges, txn, objects)
  }

  /** One server, about the partitions it has. */
  method Ask(network: Network, a: string, more: set<string>, ranges: Ranges, txn: nat, ghost server: string -> string, ghost cluster: Cluster)
    returns (reply: Option<seq<int>>)
    requires a in cluster && more != {} && (forall p :: p in more ==> server(p) == a) && network.Right(cluster, ranges, txn)
    ensures reply.Some? <==> Searchable(more, server, cluster, ranges, txn, network)
    ensures reply.Some? ==> Asked(more, server, cluster, ranges, txn, network, reply.value)
  {
    ServerCan(more, a, server, cluster, ranges, txn, network);
    if network.fails(a) {
      return None;
    }
    reply := network.reply(a, more);
    assert RightReply(cluster[a], more, ranges, txn, reply);
    if reply.Some? { AnswerIsFound(more, a, server, cluster, ranges, txn, reply.value); }
  }

  lemma AskedMore(parts: set<string>, more: set<string>, server: string -> string, cluster: Cluster, ranges: Ranges, txn: nat,
                  network: Network, objects: seq<int>, results: seq<int>)
    requires Asked(parts, server, cluster, ranges, txn, network, objects) && Asked(more, server, cluster, ranges, txn, network, results)
    ensures Asked(parts + more, server, cluster, ranges, txn, network, objects + results)
  {
    FoundTogether(parts, more, server, cluster, ranges, txn, objects, results);
  }

  lemma NotAll(more: set<string>, parts: set<string>, server: string -> string, cluster: Cluster, ranges: Ranges, txn: nat, network: Network)
    requires more <= parts && !Searchable(more, server, cluster, ranges, txn, network)
    ensures !Searchable(parts, server, cluster, ranges, txn, network)
  {
  }

  lemma PartsOfServer(plan: Plan, parts: set<string>, server: string -> string, cluster: Cluster, a: string)
    requires Groups(plan, parts, server) && (forall p :: server(p) in cluster) && a in plan
    ensures plan[a] <= parts && plan[a] != {} && a in cluster && forall p :: p in plan[a] ==> server(p) == a
  {
    var p := SomePart(plan, parts, server, a);
  }

  lemma SomePart(plan: Plan, parts: set<string>, server: string -> string, a: string) returns (p: string)
    requires Groups(plan, parts, server) && a in plan
    ensures p in plan[a] && p in parts && server(p) == a
  {
    p := Pick(plan[a]);
  }

  // ---------------------------------------------------------------- the whole search

  /** The masters: which do not answer, who owns an object id, and the paths each knows. */
  datatype Masters = Masters(fails: string -> bool, owner: int -> string, tables: map<string, map<int, string>>)

  /**
   * The client's search. It succeeds exactly when all masters answer, every located index can be searched, and the
   * masters that own the objects found answer again. The objects found are then exactly those that some located index
   * has under a key in its range, and the result is the path of each, as often as it was found.
   */
  method SearchFiles(root: string, ranges: Ranges, namespaces: map<string, IN.IndexNamespace>, masters: Masters,
                     server: string -> string, network: Network, txn: nat,
                     ghost nodes: map<string, IN.Nodes>, ghost cluster: Cluster)
    returns (ok: bool, paths: seq<string>, ghost located: set<string>, ghost objects: seq<int>)
    requires nodes.Keys == namespaces.Keys && forall m :: m in namespaces ==> nodes[m] == namespaces[m].nodes
    requires (forall p :: server(p) in cluster) && network.Right(cluster, ranges, txn)
    ensures ok ==> (forall p :: p in located <==> Located(nodes, root, ranges.Keys, p))
    ensures ok ==> (forall m :: m in namespaces ==> !masters.fails(m)) && forall i :: 0 <= i < |objects| ==> !masters.fails(masters.owner(objects[i]))
    ensures ok ==> Searchable(located, server, cluster, ranges, txn, network)
    ensures ok ==> AreFound(located, server, cluster, ranges, txn, objects)
    ensures ok ==> multiset(paths) == multiset(SG.EachPath(objects, masters.owner, masters.tables))
    ensures !ok ==> || (exists m :: m in namespaces && masters.fails(m))
                    || ((forall p :: p in located <==> Located(nodes, root, ranges.Keys, p)) &&
                        (!Searchable(located, server, cluster, ranges, txn, network) ||
                         exists i :: 0 <= i < |objects| && masters.fails(masters.owner(objects[i]))))
  {
    located, objects, paths := {}, [], [];
    var parts: set<string>;
    ok, parts := Locate(namespaces, root, ranges.Keys, masters.fails, nodes);
    if !ok {
      return;
    }
    located := parts;
    var plan := MakePlan(parts, server);
    var found: seq<int>;
    ok, found := AskServers(network, plan, ranges, txn, parts, server, cluster);
    objects := found;
    if !ok {
      return;
    }
    ok, paths := SG.ResolvePaths(found, masters.owner, masters.tables, masters.fails);
  }

  // ---------------------------------------------------------------- from the query text to the objects

  /** The plain index of a partition: its updates with ids up to `txn`, applied once, in order. */
  function EagerIndex(t: IntType, evs: seq<DI.Event>, txn: nat): Index
    requires DI.Possible(t, evs)
  {
    var h := DI.Run(t, evs).history;
    Eager(Writes(t, h[..Upto(h, txn)]).writes)
  }

  /** The server of a partition has it in the state that some run of updates, merges, flushes and trims has led to. */
  ghost predicate Serves(cluster: Cluster, server: string -> string, t: IntType, runs: string -> seq<DI.Event>, txn: nat, p: string) {
    && server(p) in cluster && p in cluster[server(p)].types && p in cluster[server(p)].states
    && cluster[server(p)].types[p] == t && DI.Possible(t, runs(p))
    && cluster[server(p)].states[p] == DI.Run(t, runs(p)).w
    && DI.Run(t, runs(p)).w.status.NORMAL? && DI.Run(t, runs(p)).highest <= txn
  }

  lemma {:induction false} DecodedKeysFit(t: IntType, us: seq<RecordUpdate>)
    ensures forall i :: 0 <= i < |DecodeAll(t, us).writes| ==> t.Contains(DecodeAll(t, us).writes[i].key)
  {
    if us != [] { DecodedKeysFit(t, us[1..]); }
  }

  lemma {:induction false} WrittenKeysFit(t: IntType, rs: seq<LogRecord>)
    ensures forall i :: 0 <= i < |Writes(t, rs).writes| ==> t.Contains(Writes(t, rs).writes[i].key)
  {
    if rs != [] {
      DecodedKeysFit(t, rs[0].updates);
      WrittenKeysFit(t, rs[1..]);
    }
  }

  lemma {:induction false} AppliedKeysFit(t: IntType, idx: Index, ws: seq<Write>)
    requires (forall k :: k in idx ==> t.Contains(k)) && forall i :: 0 <= i < |ws| ==> t.Contains(ws[i].key)
    ensures forall k :: k in ApplyAll(idx, ws) ==> t.Contains(k)
  {
    if ws != [] { AppliedKeysFit(t, idx, ws[..|ws|-1]); }
  }

  lemma EagerKeysFit(t: IntType, evs: seq<DI.Event>, txn: nat)
    requires DI.Possible(t, evs)
    ensures forall k :: k in EagerIndex(t, evs, txn) ==> t.Contains(k)
  {
    var h := DI.Run(t, evs).history;
    WrittenKeysFit(t, h[..Upto(h, txn)]);
    AppliedKeysFit(t, map[], Writes(t, h[..Upto(h, txn)]).writes);
  }

  /** What a search finds in a partition is what its plain index has under keys that meet the conditions. */
  lemma PartitionFinds(t: IntType, cs: seq<QP.Cond>, cluster: Cluster, server: string -> string, runs: string -> seq<DI.Event>,
                       txn: nat, p: string, o: int)
    requires t.Valid() && QP.AllWell(t, cs) && QP.OnePerSide(cs, NameOf(p)) && NameOf(p) in FQ.Fields(cs)
    requires Serves(cluster, server, t, runs, txn, p) && cluster[server(p)].Can(QueryFor(QP.Collect(map[], cs), p), txn)
    ensures Finds(cluster[server(p)], QueryFor(QP.Collect(map[], cs), p), txn, o) <==>
            FQ.Meets(t, cs, NameOf(p), EagerIndex(t, runs(p), txn), o)
  {
    DI.MergeEqualsEager(t, runs(p), txn);
    EagerKeysFit(t, runs(p), txn);
    FQ.FieldMeets(t, cs, NameOf(p), EagerIndex(t, runs(p), txn), o);
    assert cluster[server(p)].Merge(p, txn).0.index == EagerIndex(t, runs(p), txn);
  }

  /** Directories are normalised paths wherever an index is. */
  ghost predicate NormalNodes(nodes: map<string, IN.Nodes>) { forall m, d, f :: m in nodes && IN.Carries(nodes[m], d, f) ==> Normal(d) }

  /** An index of the field on a directory under the root has the object under a key that meets its conditions. */
  ghost predicate HasIt(t: IntType, cs: seq<QP.Cond>, nodes: map<string, IN.Nodes>, root: string, runs: string -> seq<DI.Event>,
                        txn: nat, m: string, d: string, f: string, o: int)
    requires QP.AllWell(t, cs)
  {
    && m in nodes && f in FQ.Fields(cs) && IN.Carries(nodes[m], d, f) && StartsWith(d, root)
    && DI.Possible(t, runs(PartitionPath(d, f)))
    && FQ.Meets(t, cs, f, EagerIndex(t, runs(PartitionPath(d, f)), txn), o)
  }

  /** What the text of a query comes to, and what the search of its ranges then knows. */
  ghost predicate Knows(t: IntType, cs: seq<QP.Cond>, nodes: map<string, IN.Nodes>, root: string, located: set<string>,
                        server: string -> string, cluster: Cluster, runs: string -> seq<DI.Event>, txn: nat) {
    && t.Valid() && QP.AllWell(t, cs) && NormalNodes(nodes)
    && (forall f :: f in FQ.Fields(cs) ==> IsName(f) && QP.OnePerSide(cs, f))
    && (forall p :: p in located <==> Located(nodes, root, FQ.Fields(cs), p))
    && (forall p :: p in located ==> Serves(cluster, server, t, runs, txn, p) &&
                                     cluster[server(p)].Can(QueryFor(QP.Collect(map[], cs), p), txn))
  }

  lemma SearchKnows(t: IntType, cs: seq<QP.Cond>, nodes: map<string, IN.Nodes>, root: string, located: set<string>,
                    server: string -> string, cluster: Cluster, runs: string -> seq<DI.Event>, txn: nat, network: Network)
    requires t.Valid() && QP.AllWell(t, cs) && NormalNodes(nodes)
    requires forall f :: f in FQ.Fields(cs) ==> IsName(f) && QP.OnePerSide(cs, f)
    requires forall p :: p in located <==> Located(nodes, root, FQ.Fields(cs), p)
    requires Searchable(located, server, cluster, QP.Collect(map[], cs), txn, network)
    requires forall p :: p in located ==> Serves(cluster, server, t, runs, txn, p)
    ensures Knows(t, cs, nodes, root, located, server, cluster, runs, txn)
  {
    forall p | p in located ensures cluster[server(p)].Can(QueryFor(QP.Collect(map[], cs), p), txn) {
      assert IsSearchable(p, server, cluster, QP.Collect(map[], cs), txn, network);
    }
  }

  lemma FoundHasIt(t: IntType, cs: seq<QP.Cond>, nodes: map<string, IN.Nodes>, root: string, located: set<string>,
                   server: string -> string, cluster: Cluster, runs: string -> seq<DI.Event>, txn: nat, o: int)
    requires Knows(t, cs, nodes, root, located, server, cluster, runs, txn)
    requires FoundIn(located, server, cluster, QP.Collect(map[], cs), txn, o)
    ensures exists m, d, f :: HasIt(t, cs, nodes, root, runs, txn, m, d, f, o)
  {
    var p :| p in located && FoundAt(p, server, cluster, QP.Collect(map[], cs), txn, o);
    assert Located(nodes, root, FQ.Fields(cs), p);
    var m, f :| m in nodes && f in FQ.Fields(cs) && LocatedBy(nodes[m], root, f, p);
    var d :| IN.Carries(nodes[m], d, f) && StartsWith(d, root) && p == PartitionPath(d, f);
    NameOfPartition(d, f);
    assert Serves(cluster, server, t, runs, txn, p);
    PartitionFinds(t, cs, cluster, server, runs, txn, p, o);
    assert HasIt(t, cs, nodes, root, runs, txn, m, d, f, o);
  }

  lemma HasItIsFound(t: IntType, cs: seq<QP.Cond>, nodes: map<string, IN.Nodes>, root: string, located: set<string>,
                     server: string -> string, cluster: Cluster, runs: string -> seq<DI.Event>, txn: nat,
                     m: string, d: string, f: string, o: int)
    requires Knows(t, cs, nodes, root, located, server, cluster, runs, txn) && HasIt(t, cs, nodes, root, runs, txn, m, d, f, o)
    ensures FoundIn(located, server, cluster, QP.Collect(map[], cs), txn, o)
  {
    var p := PartitionPath(d, f);
    assert LocatedBy(nodes[m], root, f, p);
    assert Located(nodes, root, FQ.Fields(cs), p);
    assert p in located && Serves(cluster, server, t, runs, txn, p);
    NameOfPartition(d, f);
    PartitionFinds(t, cs, cluster, server, runs, txn, p, o);
    assert FoundAt(p, server, cluster, QP.Collect(map[], cs), txn, o);
  }

  /**
   * From the query text to the objects. Whatever updates, merges, flushes and trims the index servers have been
   * through: the objects a successful search finds are exactly those that, for some field of the query and some
   * directory under its root that carries an index of that name, the plain replay of that index's updates has under
   * a key that satisfies every condition on the field.
   */
  lemma SearchAnswersQuery(t: IntType, dir: string, cs: seq<QP.Cond>, nodes: map<string, IN.Nodes>, server: string -> string,
                           cluster: Cluster, runs: string -> seq<DI.Event>, txn: nat, network: Network,
                           located: set<string>, objects: seq<int>, o: int)
    requires dir != "" && dir[0] == '/' && forall i :: 0 <= i < |dir| ==> dir[i] != '?'
    requires t.Valid() && cs != [] && QP.AllWell(t, cs) && NormalNodes(nodes)
    requires forall f :: f in FQ.Fields(cs) ==> IsName(f) && QP.OnePerSide(cs, f)
    requires var q := ParseQuery(dir + "?" + QP.ShowConds(cs));
             && (forall p :: p in located <==> Located(nodes, q.root, q.ranges.Keys, p))
             && Searchable(located, server, cluster, q.ranges, txn, network)
             && (o in objects <==> FoundIn(located, server, cluster, q.ranges, txn, o))
    requires forall p :: p in located ==> Serves(cluster, server, t, runs, txn, p)
    ensures o in objects <==>
            exists m, d, f :: HasIt(t, cs, nodes, ParseQuery(dir + "?" + QP.ShowConds(cs)).root, runs, txn, m, d, f, o)
  {
    var q := ParseQuery(dir + "?" + QP.ShowConds(cs));
    QP.ParseText(t, dir, cs);
    FQ.CollectFields(map[], cs);
    SearchKnows(t, cs, nodes, q.root, located, server, cluster, runs, txn, network);
    if o in objects { FoundHasIt(t, cs, nodes, q.root, located, server, cluster, runs, txn, o); }
    if m, d, f :| HasIt(t, cs, nodes, q.root, runs, txn, m, d, f, o) {
      HasItIsFound(t, cs, nodes, q.root, located, server, cluster, runs, txn, m, d, f, o);
    }
  }
}
