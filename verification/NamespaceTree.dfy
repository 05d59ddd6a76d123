/**
 * What a master namespace means to its clients: a tree of records and directory entries. The
 * three maps, the store and the object ids are a faithful implementation of it, step by step.
 * These are the RPC outcomes and effects the client protocol builds on.
 */
module NamespaceTree {
  import opened Base
  import opened Paths
  import opened ObjectIds
  import opened Namespaces
  import opened NamespaceRuns

  datatype Node = Node(isDir: bool, attrs: nat)

  datatype Tree = Tree(nodes: map<string, Node>, entries: set<(string, string)>)

  const NO_TREE := Tree(map[], {})

  /** Whether an operation succeeds. */
  ghost predicate Succeeds(t: Tree, ev: Event) {
    ev.storeOk &&
    match ev
    case Create(p, _, _) => p !in t.nodes
    case Remove(p, _) => p in t.nodes && !t.nodes[p].isDir
    case Mkdir(p, _, _) => p !in t.nodes
    case Rmdir(p, _) => p in t.nodes && t.nodes[p].isDir && forall x :: (p, x) !in t.entries
    case AddSubfile(d, x, _) => d in t.nodes && t.nodes[d].isDir && (d, x) !in t.entries
    case RemoveSubfile(d, x, _) => (d, x) in t.entries
  }

  /** What it then does; one that fails does nothing. */
  ghost function TreeStep(t: Tree, ev: Event): Tree {
    if !Succeeds(t, ev) then t
    else match ev
      case Create(p, attrs, _) => t.(nodes := t.nodes[p := Node(false, attrs)])
      case Remove(p, _) => t.(nodes := t.nodes - {p})
      case Mkdir(p, attrs, _) => t.(nodes := t.nodes[p := Node(true, attrs)])
      case Rmdir(p, _) => t.(nodes := t.nodes - {p})
      case AddSubfile(d, x, _) => t.(entries := t.entries + {(d, x)})
      case RemoveSubfile(d, x, _) => t.(entries := t.entries - {(d, x)})
  }

  ghost function TreeRun(evs: seq<Event>): Tree {
    if evs == [] then NO_TREE else TreeStep(TreeRun(evs[..|evs|-1]), evs[|evs|-1])
  }

  /** What the namespace reports. */
  function Report(hash: string -> int, n: Ns, ev: Event): Result {
    match ev
    case Create(p, attrs, storeOk) => CreateNs(n, p, hash(p), attrs, storeOk).1
    case Remove(p, storeOk) => RemoveNs(n, p, storeOk).1
    case Mkdir(p, attrs, storeOk) => MkdirNs(n, p, attrs, storeOk).1
    case Rmdir(p, storeOk) => RmdirNs(n, p, storeOk).1
    case AddSubfile(d, x, storeOk) => AddSubfileNs(n, d, x, storeOk).1
    case RemoveSubfile(d, x, storeOk) => RemoveSubfileNs(n, d, x, storeOk).1
  }

  ghost predicate SameNodes(metadata: map<string, Meta>, nodes: map<string, Node>) {
    && (forall p :: p in metadata <==> p in nodes)
    && (forall p :: p in metadata ==> nodes[p] == Node(metadata[p].isDir, metadata[p].attrs))
  }

  ghost predicate SameEntries(directories: map<string, set<string>>, entries: set<(string, string)>) {
    forall d, x :: (d in directories && x in directories[d]) <==> (d, x) in entries
  }

  ghost predicate Means(n: Ns, t: Tree) { SameNodes(n.metadata, t.nodes) && SameEntries(n.directories, t.entries) }

  lemma RecordStep(hash: string -> int, n: Ns, t: Tree, ev: Event)
    requires Inv(n) && Means(n, t) && (ev.Remove? || ev.Mkdir?)
    ensures Means(Step(hash, n, ev), TreeStep(t, ev)) && (Report(hash, n, ev).Ok? <==> Succeeds(t, ev))
  {
    if ev.Mkdir? && ev.path !in n.metadata { assert ev.path !in n.directories; }
  }

  lemma CreateStepMeans(hash: string -> int, n: Ns, t: Tree, ev: Event)
    requires Inv(n) && Means(n, t) && ev.Create? && ObjectId(hash(ev.path), n.nextId) !in n.ids
    ensures Means(Step(hash, n, ev), TreeStep(t, ev)) && (Report(hash, n, ev).Ok? <==> Succeeds(t, ev))
  {
  }

  lemma RmdirStepMeans(hash: string -> int, n: Ns, t: Tree, ev: Event)
    requires Inv(n) && Means(n, t) && ev.Rmdir?
    ensures Means(Step(hash, n, ev), TreeStep(t, ev)) && (Report(hash, n, ev).Ok? <==> Succeeds(t, ev))
  {
    var p := ev.path;
    assert p in n.directories <==> p in t.nodes && t.nodes[p].isDir;
    if p in n.directories {
      assert n.directories[p] == {} <==> forall x :: (p, x) !in t.entries by {
        if forall x :: (p, x) !in t.entries { NoMembers(n.directories[p]); }
      }
    }
  }

  lemma EntryStep(hash: string -> int, n: Ns, t: Tree, ev: Event)
    requires Inv(n) && Means(n, t) && (ev.AddSubfile? || ev.RemoveSubfile?)
    ensures Means(Step(hash, n, ev), TreeStep(t, ev)) && (Report(hash, n, ev).Ok? <==> Succeeds(t, ev))
  {
    assert ev.dir in n.directories <==> ev.dir in t.nodes && t.nodes[ev.dir].isDir;
    assert (ev.dir, ev.name) in t.entries <==> ev.dir in n.directories && ev.name in n.directories[ev.dir];
    if ev.dir in n.directories {
      EntriesChange(n.directories, t.entries, ev.dir, ev.name);
    }
  }

  lemma EntriesChange(directories: map<string, set<string>>, entries: set<(string, string)>, d: string, x: string)
    requires SameEntries(directories, entries) && d in directories
    ensures SameEntries(directories[d := directories[d] + {x}], entries + {(d, x)})
    ensures SameEntries(directories[d := directories[d] - {x}], entries - {(d, x)})
  {
  }

  /** One step: success is reported exactly when the tree allows it, and the maps then mean the new tree. */
  lemma StepMeans(hash: string -> int, n: Ns, t: Tree, ev: Event)
    requires Inv(n) && Means(n, t) && (ev.Create? ==> ObjectId(hash(ev.path), n.nextId) !in n.ids)
    ensures Means(Step(hash, n, ev), TreeStep(t, ev)) && (Report(hash, n, ev).Ok? <==> Succeeds(t, ev))
  {
    match ev {
      case Create(_, _, _) => CreateStepMeans(hash, n, t, ev);
      case Rmdir(_, _) => RmdirStepMeans(hash, n, t, ev);
      case AddSubfile(_, _, _) => EntryStep(hash, n, t, ev);
      case RemoveSubfile(_, _, _) => EntryStep(hash, n, t, ev);
      case _ => RecordStep(hash, n, t, ev);
    }
  }

  /** What an operation is to report, and why it is refused. */
  ghost function Expected(t: Tree, ev: Event): Result {
    var taken := if ev.storeOk then Ok else StoreFailed;
    match ev
    case Create(p, _, _) => if p in t.nodes then Exists else taken
    case Remove(p, _) => if p !in t.nodes then Missing else if t.nodes[p].isDir then IsDirectory else taken
    case Mkdir(p, _, _) => if p in t.nodes then Exists else taken
    case Rmdir(p, _) =>
      if p !in t.nodes || !t.nodes[p].isDir then Missing
      else if exists x :: (p, x) in t.entries then NotEmpty else taken
    case AddSubfile(d, x, _) =>
      if d !in t.nodes || !t.nodes[d].isDir then Missing else if (d, x) in t.entries then Exists else taken
    case RemoveSubfile(d, x, _) => if (d, x) in t.entries then taken else Missing
  }

  lemma StepReports(hash: string -> int, n: Ns, t: Tree, ev: Event)
    requires Inv(n) && Means(n, t) && (ev.Create? ==> ObjectId(hash(ev.path), n.nextId) !in n.ids)
    ensures Report(hash, n, ev) == Expected(t, ev)
  {
    match ev {
      case Rmdir(p, _) => RmdirReports(hash, n, t, ev);
      case AddSubfile(d, x, _) => EntryReports(hash, n, t, ev);
      case RemoveSubfile(d, x, _) => EntryReports(hash, n, t, ev);
      case Remove(p, storeOk) => RemoveKeepsInv(n, p, storeOk);
      case _ =>
    }
  }

  lemma RmdirReports(hash: string -> int, n: Ns, t: Tree, ev: Event)
    requires Inv(n) && Means(n, t) && ev.Rmdir?
    ensures Report(hash, n, ev) == Expected(t, ev)
  {
    var p := ev.path;
    assert p in n.directories <==> p in t.nodes && t.nodes[p].isDir;
    if p in n.directories {
      if forall x :: (p, x) !in t.entries { NoMembers(n.directories[p]); }
    }
  }

  lemma EntryReports(hash: string -> int, n: Ns, t: Tree, ev: Event)
    requires Inv(n) && Means(n, t) && (ev.AddSubfile? || ev.RemoveSubfile?)
    ensures Report(hash, n, ev) == Expected(t, ev)
  {
    assert ev.dir in n.directories <==> ev.dir in t.nodes && t.nodes[ev.dir].isDir;
    assert (ev.dir, ev.name) in t.entries <==> ev.dir in n.directories && ev.name in n.directories[ev.dir];
  }

  /** The same within a process lifetime, where ids are fresh and nothing aborts. */
  lemma LifetimeStep(hash: string -> int, n: Ns, t: Tree, ev: Event, start: int)
    requires Inv(n) && Means(n, t) && IdsFromCounter(n, start) && n.nextId - start < P48
    requires ev.Create? ==> IsInt64(hash(ev.path))
    ensures Means(Step(hash, n, ev), TreeStep(t, ev))
    ensures (Report(hash, n, ev).Ok? <==> Succeeds(t, ev)) && Report(hash, n, ev) == Expected(t, ev)
  {
    if ev.Create? { FreshWithinLifetime(n, start, hash(ev.path)); }
    StepMeans(hash, n, t, ev);
    StepReports(hash, n, t, ev);
  }

  /** After any run within one process lifetime the namespace means the tree its successful operations built. */
  lemma {:induction false} RunMeans(hash: string -> int, counter: int, evs: seq<Event>)
    requires (forall p :: IsInt64(hash(p))) && (forall i :: 0 <= i < |evs| ==> WellFormed(evs[i])) && Creates(evs) < P48
    ensures Means(Run(hash, EmptyNs(counter), evs), TreeRun(evs))
  {
    if evs != [] {
      var before := evs[..|evs|-1];
      RunMeans(hash, counter, before);
      RunKeepsInv(hash, counter, before);
      LifetimeStep(hash, Run(hash, EmptyNs(counter), before), TreeRun(before), evs[|evs|-1], counter);
    }
  }

  /** And every operation reports success, or why it was refused, as the tree at that point has it; none aborts. */
  lemma ReportsAreRight(hash: string -> int, counter: int, evs: seq<Event>, ev: Event)
    requires (forall p :: IsInt64(hash(p))) && (forall i :: 0 <= i < |evs| ==> WellFormed(evs[i])) && WellFormed(ev)
    requires Creates(evs) < P48
    ensures var r := Report(hash, Run(hash, EmptyNs(counter), evs), ev);
            (r.Ok? <==> Succeeds(TreeRun(evs), ev)) && r == Expected(TreeRun(evs), ev)
  {
    RunMeans(hash, counter, evs);
    RunKeepsInv(hash, counter, evs);
    LifetimeStep(hash, Run(hash, EmptyNs(counter), evs), TreeRun(evs), ev, counter);
  }
}
