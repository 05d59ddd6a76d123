/**
 * The client protocol on real masters: every RPC is an operation of the master that owns its
 * path, and its reply is what that master's namespace reports. This refines the protocol of
 * `ClientProtocol`, so what is safe there is safe here, in the masters' own maps.
 */
module MasterProtocol {
  import opened Base
  import opened Paths
  import opened ObjectIds
  import opened Namespaces
  import NR = NamespaceRuns
  import opened NamespaceTree
  import CP = ClientProtocol

  /** Every master's operations so far, and where the clients stand. */
  datatype World = World(logs: map<int, seq<NR.Event>>, clients: map<nat, CP.Phase>)

  /** A client starts a call, its RPC is carried out by the master, or the RPC gets lost. */
  datatype Event = Start(client: nat, call: CP.Call) | Deliver(client: nat, attrs: nat, storeOk: bool) | Lose(client: nat)

  const NO_WORLD := World(map[], map[])

  function LogOf(w: World, m: int): seq<NR.Event> { if m in w.logs then w.logs[m] else [] }

  ghost function TreeOf(w: World, m: int): Tree { TreeRun(LogOf(w, m)) }

  function PhaseOf(w: World, c: nat): CP.Phase { if c in w.clients then w.clients[c] else CP.Idle(CP.Nothing) }

  /** The path whose master an RPC goes to: the file's own for records, its parent for entries. */
  function Target(ph: CP.Phase): string
    requires !ph.Idle?
  {
    if ph.AddRpc? || ph.RemoveEntryRpc? then ParentPath(ph.path) else ph.path
  }

  /** The operation an RPC asks of the master. */
  function Operation(ph: CP.Phase, attrs: nat, storeOk: bool): NR.Event
    requires !ph.Idle?
  {
    match ph
    case CreateRpc(p, _, _) => NR.Create(p, attrs, storeOk)
    case MkdirRpc(p) => NR.Mkdir(p, attrs, storeOk)
    case AddRpc(p, _, _) => NR.AddSubfile(ParentPath(p), FileName(p), storeOk)
    case RollbackRpc(p) => NR.Remove(p, storeOk)
    case RemoveEntryRpc(p, _, _) => NR.RemoveSubfile(ParentPath(p), FileName(p), storeOk)
    case RemoveRecordRpc(p) => NR.Remove(p, storeOk)
  }

  predicate Enabled(w: World, e: Event) {
    match e
    case Start(c, call) => PhaseOf(w, c).Idle? && Normal(call.path)
    case Deliver(c, _, _) => !PhaseOf(w, c).Idle?
    case Lose(c) => !PhaseOf(w, c).Idle?
  }

  /** What a client sees: the reply is the master's. */
  ghost function Seen(owner: string -> int, w: World, e: Event): CP.Event
    requires Enabled(w, e)
  {
    match e
    case Start(c, call) => CP.Start(c, call)
    case Lose(c) => CP.Answer(c, CP.TransportError)
    case Deliver(c, attrs, storeOk) =>
      var ph := PhaseOf(w, c);
      CP.Answer(c, if Succeeds(TreeOf(w, owner(Target(ph))), Operation(ph, attrs, storeOk)) then CP.Ok else CP.InvalidOp)
  }

  ghost function Step(owner: string -> int, w: World, e: Event, sticky: bool): World
    requires Enabled(w, e)
  {
    match e
    case Start(c, call) => w.(clients := w.clients[c := CP.Begin(call)])
    case Lose(c) => w.(clients := w.clients[c := CP.Next(PhaseOf(w, c), CP.TransportError, sticky)])
    case Deliver(c, attrs, storeOk) =>
      var ph := PhaseOf(w, c);
      var m := owner(Target(ph));
      World(w.logs[m := LogOf(w, m) + [Operation(ph, attrs, storeOk)]],
            w.clients[c := CP.Next(ph, Seen(owner, w, e).reply, sticky)])
  }

  ghost predicate Possible(owner: string -> int, es: seq<Event>, sticky: bool)
    decreases |es|, 0
  {
    es == [] || (Possible(owner, es[..|es|-1], sticky) && Enabled(Run(owner, es[..|es|-1], sticky), es[|es|-1]))
  }

  ghost function Run(owner: string -> int, es: seq<Event>, sticky: bool): World
    requires Possible(owner, es, sticky)
    decreases |es|, 1
  {
    if es == [] then NO_WORLD else Step(owner, Run(owner, es[..|es|-1], sticky), es[|es|-1], sticky)
  }

  /** The run as the abstract protocol sees it. */
  ghost function Trace(owner: string -> int, es: seq<Event>, sticky: bool): (t: seq<CP.Event>)
    requires Possible(owner, es, sticky)
    ensures |t| == |es|
  {
    if es == [] then []
    else Trace(owner, es[..|es|-1], sticky) + [Seen(owner, Run(owner, es[..|es|-1], sticky), es[|es|-1])]
  }

  // ---------------------------------------------------------------- the refinement

  /** The records of the abstract state are those on the masters that own them. */
  ghost predicate SameRecords(owner: string -> int, w: World, records: map<string, CP.Kind>) {
    forall p :: SameRecord(TreeOf(w, owner(p)), records, p)
  }

  ghost predicate SameRecord(t: Tree, records: map<string, CP.Kind>, p: string) {
    && (p in records <==> p in t.nodes)
    && (p in records ==> (records[p].Dir? <==> t.nodes[p].isDir))
  }

  /** And so are the entries, on the masters that own their directories. */
  ghost predicate SameEntries(owner: string -> int, w: World, entries: set<string>) {
    forall p :: p in entries <==> IsEntered(owner, w, p)
  }

  ghost predicate IsEntered(owner: string -> int, w: World, p: string) {
    Normal(p) && p != "/" && (ParentPath(p), FileName(p)) in TreeOf(w, owner(ParentPath(p))).entries
  }

  /** Clients work on normalised paths, and never on the entry of the root directory. */
  ghost predicate PathsAreNormal(clients: map<nat, CP.Phase>) {
    forall c :: c in clients && !clients[c].Idle? ==>
      Normal(clients[c].path) && (clients[c].AddRpc? || clients[c].RemoveEntryRpc? ==> clients[c].path != "/")
  }

  ghost predicate Refines(owner: string -> int, w: World, s: CP.State) {
    && s.clients == w.clients && PathsAreNormal(w.clients)
    && SameRecords(owner, w, s.records) && SameEntries(owner, w, s.entries)
  }

  lemma TreeGrows(log: seq<NR.Event>, op: NR.Event)
    ensures TreeRun(log + [op]) == TreeStep(TreeRun(log), op)
  {
    assert (log + [op])[..|log|] == log;
  }

  /** An operation that fails leaves every tree as it was; one that succeeds changes one tree. */
  lemma TreesAfter(owner: string -> int, w: World, e: Event, sticky: bool, m: int)
    requires Enabled(w, e) && e.Deliver?
    ensures var ph := PhaseOf(w, e.client);
            TreeOf(Step(owner, w, e, sticky), m) ==
            if m == owner(Target(ph)) then TreeStep(TreeOf(w, m), Operation(ph, e.attrs, e.storeOk)) else TreeOf(w, m)
  {
    var ph := PhaseOf(w, e.client);
    if m == owner(Target(ph)) { TreeGrows(LogOf(w, m), Operation(ph, e.attrs, e.storeOk)); }
  }

  /** What the master allows, the abstract protocol allows. */
  lemma MasterAllows(owner: string -> int, w: World, s: CP.State, c: nat, attrs: nat, storeOk: bool)
    requires Refines(owner, w, s) && c in w.clients && !w.clients[c].Idle?
    requires var ph := w.clients[c]; Succeeds(TreeOf(w, owner(Target(ph))), Operation(ph, attrs, storeOk))
    ensures CP.CanSucceed(s, w.clients[c])
  {
    var ph := w.clients[c];
    assert SameRecord(TreeOf(w, owner(ph.path)), s.records, ph.path);
    assert ph.path in s.entries <==> IsEntered(owner, w, ph.path);
  }

  /** Two paths have the same parent and file name only if they are the same. */
  lemma SplitsApart(p: string, q: string)
    requires Normal(p) && Normal(q) && p != "/" && q != "/" && p != q
    ensures (ParentPath(p), FileName(p)) != (ParentPath(q), FileName(q))
  {
    JoinSplit(p);
    JoinSplit(q);
  }

  /** The abstract state once a master has answered. */
  function Answered(s: CP.State, ph: CP.Phase, ok: bool): CP.State { if ok then CP.Effect(s, ph) else s }

  /** A tree after an operation that may have been for another master. */
  ghost function TreeAfter(t: Tree, op: NR.Event, here: bool): Tree { if here then TreeStep(t, op) else t }

  /** A successful RPC does on the masters what it does in the abstract protocol: for the record of any path, */
  lemma RecordAfter(s: CP.State, ph: CP.Phase, t: Tree, attrs: nat, storeOk: bool, p: string, here: bool, ok: bool)
    requires !ph.Idle? && SameRecord(t, s.records, p) && (!here ==> p != Target(ph))
    requires here ==> (ok <==> Succeeds(t, Operation(ph, attrs, storeOk)))
    ensures SameRecord(TreeAfter(t, Operation(ph, attrs, storeOk), here), Answered(s, ph, ok).records, p)
  {
    var op := Operation(ph, attrs, storeOk);
    if here && ok {
      NodesAfter(t, op);
    } else {
      assert TreeAfter(t, op, here) == t;
    }
  }

  /** Only operations on records change the nodes of a tree, each at its own path. */
  lemma NodesAfter(t: Tree, op: NR.Event)
    requires Succeeds(t, op)
    ensures TreeStep(t, op).nodes ==
            match op
            case Create(p, attrs, _) => t.nodes[p := Node(false, attrs)]
            case Mkdir(p, attrs, _) => t.nodes[p := Node(true, attrs)]
            case Remove(p, _) => t.nodes - {p}
            case Rmdir(p, _) => t.nodes - {p}
            case _ => t.nodes
  {
  }

  /** and for its entry. */
  lemma EntryAfter(s: CP.State, ph: CP.Phase, t: Tree, attrs: nat, storeOk: bool, p: string, here: bool, ok: bool)
    requires !ph.Idle? && Normal(ph.path) && (ph.AddRpc? || ph.RemoveEntryRpc? ==> ph.path != "/")
    requires p in s.entries <==> Normal(p) && p != "/" && (ParentPath(p), FileName(p)) in t.entries
    requires (!here ==> ParentPath(p) != Target(ph)) && (here ==> (ok <==> Succeeds(t, Operation(ph, attrs, storeOk))))
    ensures p in Answered(s, ph, ok).entries <==>
            Normal(p) && p != "/" && (ParentPath(p), FileName(p)) in TreeAfter(t, Operation(ph, attrs, storeOk), here).entries
  {
    if Normal(p) && p != "/" && ph.path != "/" && p != ph.path { SplitsApart(p, ph.path); }
  }

  lemma RecordsAfter(owner: string -> int, w: World, s: CP.State, e: Event, sticky: bool, p: string)
    requires Enabled(w, e) && e.Deliver? && SameRecord(TreeOf(w, owner(p)), s.records, p)
    ensures SameRecord(TreeOf(Step(owner, w, e, sticky), owner(p)),
                       Answered(s, PhaseOf(w, e.client), Seen(owner, w, e).reply.Ok?).records, p)
  {
    var ph := PhaseOf(w, e.client);
    var here := owner(p) == owner(Target(ph));
    TreesAfter(owner, w, e, sticky, owner(p));
    RecordAfter(s, ph, TreeOf(w, owner(p)), e.attrs, e.storeOk, p, here, Seen(owner, w, e).reply.Ok?);
  }

  lemma EntriesAfter(owner: string -> int, w: World, s: CP.State, e: Event, sticky: bool, p: string)
    requires Enabled(w, e) && e.Deliver? && PathsAreNormal(w.clients) && (p in s.entries <==> IsEntered(owner, w, p))
    ensures p in Answered(s, PhaseOf(w, e.client), Seen(owner, w, e).reply.Ok?).entries <==>
            IsEntered(owner, Step(owner, w, e, sticky), p)
  {
    var ph, m := PhaseOf(w, e.client), owner(ParentPath(p));
    TreesAfter(owner, w, e, sticky, m);
    EntryAfter(s, ph, TreeOf(w, m), e.attrs, e.storeOk, p, m == owner(Target(ph)), Seen(owner, w, e).reply.Ok?);
  }

  /** What the masters hold after an RPC. */
  lemma MastersAfter(owner: string -> int, w: World, s: CP.State, e: Event, sticky: bool)
    requires Enabled(w, e) && e.Deliver? && Refines(owner, w, s) && CP.Enabled(s, Seen(owner, w, e))
    ensures SameRecords(owner, Step(owner, w, e, sticky), CP.Step(s, Seen(owner, w, e), sticky).records)
    ensures SameEntries(owner, Step(owner, w, e, sticky), CP.Step(s, Seen(owner, w, e), sticky).entries)
  {
    var after := Answered(s, PhaseOf(w, e.client), Seen(owner, w, e).reply.Ok?);
    forall p ensures SameRecord(TreeOf(Step(owner, w, e, sticky), owner(p)), after.records, p) {
      RecordsAfter(owner, w, s, e, sticky, p);
    }
    forall p ensures p in after.entries <==> IsEntered(owner, Step(owner, w, e, sticky), p) {
      EntriesAfter(owner, w, s, e, sticky, p);
    }
  }

  lemma ClientsAfter(owner: string -> int, w: World, s: CP.State, e: Event, sticky: bool)
    requires Enabled(w, e) && Refines(owner, w, s) && CP.Enabled(s, Seen(owner, w, e))
    ensures CP.Step(s, Seen(owner, w, e), sticky).clients == Step(owner, w, e, sticky).clients
    ensures PathsAreNormal(Step(owner, w, e, sticky).clients)
  {
  }

  /** One step of the real system is one enabled step of the abstract protocol. */
  lemma StepRefines(owner: string -> int, w: World, s: CP.State, e: Event, sticky: bool)
    requires Enabled(w, e) && Refines(owner, w, s)
    ensures CP.Enabled(s, Seen(owner, w, e))
    ensures Refines(owner, Step(owner, w, e, sticky), CP.Step(s, Seen(owner, w, e), sticky))
  {
    if e.Deliver? && Seen(owner, w, e).reply.Ok? {
      MasterAllows(owner, w, s, e.client, e.attrs, e.storeOk);
    }
    ClientsAfter(owner, w, s, e, sticky);
    if e.Deliver? {
      MastersAfter(owner, w, s, e, sticky);
    } else {
      Untouched(owner, w, s, e, sticky);
    }
  }

  lemma Untouched(owner: string -> int, w: World, s: CP.State, e: Event, sticky: bool)
    requires Enabled(w, e) && !e.Deliver? && Refines(owner, w, s) && CP.Enabled(s, Seen(owner, w, e))
    ensures var s', w' := CP.Step(s, Seen(owner, w, e), sticky), Step(owner, w, e, sticky);
            SameRecords(owner, w', s'.records) && SameEntries(owner, w', s'.entries)
  {
    var w' := Step(owner, w, e, sticky);
    forall m ensures TreeOf(w', m) == TreeOf(w, m) { assert LogOf(w', m) == LogOf(w, m); }
    forall p ensures p in s.entries <==> IsEntered(owner, w', p) {
      assert p in s.entries <==> IsEntered(owner, w, p);
    }
  }

  /** An add that the master refuses is asked for again, as often as before; one that is lost, once less. */
  lemma RefusedAddIsRepeated(owner: string -> int, w: World, c: nat, attrs: nat, storeOk: bool, sticky: bool)
    requires PhaseOf(w, c).AddRpc?
    requires !Succeeds(TreeOf(w, owner(Target(PhaseOf(w, c)))), Operation(PhaseOf(w, c), attrs, storeOk))
    ensures var ph := PhaseOf(w, c);
            && PhaseOf(Step(owner, w, Deliver(c, attrs, storeOk), sticky), c) == CP.AddRpc(ph.path, ph.backoff, true)
            && (ph.backoff > 1 ==> PhaseOf(Step(owner, w, Lose(c), sticky), c) == CP.AddRpc(ph.path, ph.backoff - 1, true))
  {
  }

  /** Every run of the real system is a run of the abstract protocol, in corresponding states. */
  lemma {:induction false} RunRefines(owner: string -> int, es: seq<Event>, sticky: bool)
    requires Possible(owner, es, sticky)
    ensures var t := Trace(owner, es, sticky);
            CP.Possible(t, sticky) && Refines(owner, Run(owner, es, sticky), CP.Run(t, sticky))
  {
    if es == [] {
      assert TreeRun([]) == NO_TREE;
    } else {
      var before, e := es[..|es|-1], es[|es|-1];
      RunRefines(owner, before, sticky);
      var t, w := Trace(owner, before, sticky), Run(owner, before, sticky);
      StepRefines(owner, w, CP.Run(t, sticky), e, sticky);
      assert Trace(owner, es, sticky)[..|t|] == t;
    }
  }

  // ---------------------------------------------------------------- in the masters' own maps

  /** A log's operations are well formed. */
  predicate WellFormedLog(log: seq<NR.Event>) { forall i :: 0 <= i < |log| ==> NR.WellFormed(log[i]) }

  lemma {:induction false} LogsAreWellFormed(owner: string -> int, es: seq<Event>, sticky: bool, m: int)
    requires Possible(owner, es, sticky)
    ensures WellFormedLog(LogOf(Run(owner, es, sticky), m))
  {
    if es != [] {
      var before, e := es[..|es|-1], es[|es|-1];
      LogsAreWellFormed(owner, before, sticky, m);
      RunRefines(owner, before, sticky);
      LogGrows(owner, Run(owner, before, sticky), e, sticky, m);
    }
  }

  lemma LogGrows(owner: string -> int, w: World, e: Event, sticky: bool, m: int)
    requires Enabled(w, e) && PathsAreNormal(w.clients) && WellFormedLog(LogOf(w, m))
    ensures WellFormedLog(LogOf(Step(owner, w, e, sticky), m))
  {
    if e.Deliver? { OperationIsWellFormed(PhaseOf(w, e.client), e.attrs, e.storeOk); }
  }

  lemma OperationIsWellFormed(ph: CP.Phase, attrs: nat, storeOk: bool)
    requires !ph.Idle? && Normal(ph.path) && (ph.AddRpc? || ph.RemoveEntryRpc? ==> ph.path != "/")
    ensures NR.WellFormed(Operation(ph, attrs, storeOk))
  {
    if ph.AddRpc? { JoinSplit(ph.path); }
  }

  /** The namespace of a master after a run. */
  ghost function NamespaceOf(hash: string -> int, counters: int -> int, w: World, m: int): Ns {
    NR.Run(hash, NR.EmptyNs(counters(m)), LogOf(w, m))
  }

  /** No client takes an add for failed that went through. */
  ghost predicate Clean(owner: string -> int, es: seq<Event>, sticky: bool)
    requires Possible(owner, es, sticky)
  {
    var t := Trace(owner, es, sticky);
    CP.Possible(t, sticky) && CP.Clean(t, sticky)
  }

  /** When the retry loops go by the last attempt, every run is clean. */
  lemma LastAttemptRunsAreClean(owner: string -> int, es: seq<Event>)
    requires Possible(owner, es, false)
    ensures Clean(owner, es, false)
  {
    RunRefines(owner, es, false);
    CP.LastAttemptRunsAreClean(Trace(owner, es, false));
  }

  lemma EnteredIsRecorded(owner: string -> int, es: seq<Event>, sticky: bool, p: string)
    requires Possible(owner, es, sticky) && Clean(owner, es, sticky) && IsEntered(owner, Run(owner, es, sticky), p)
    ensures p in TreeOf(Run(owner, es, sticky), owner(p)).nodes
  {
    RunRefines(owner, es, sticky);
    var t := Trace(owner, es, sticky);
    CP.EveryInterleavingIsSafeIff(t, sticky);
    assert CP.Inv(CP.Run(t, sticky));
    assert p in CP.Run(t, sticky).entries;
    assert SameRecord(TreeOf(Run(owner, es, sticky), owner(p)), CP.Run(t, sticky).records, p);
  }

  /**
   * After any clean run of any number of clients over any number of masters, with arbitrary store failures and lost
   * RPCs: whatever a directory lists on the master that owns the directory has a metadata record on the master that
   * owns the path.
   */
  lemma EntriesHaveRecords(owner: string -> int, hash: string -> int, counters: int -> int, es: seq<Event>, sticky: bool,
                           d: string, x: string)
    requires Possible(owner, es, sticky) && Clean(owner, es, sticky) && forall p :: IsInt64(hash(p))
    requires forall m :: NR.Creates(LogOf(Run(owner, es, sticky), m)) < P48
    requires var n := NamespaceOf(hash, counters, Run(owner, es, sticky), owner(d)); d in n.directories && x in n.directories[d]
    ensures var p := Join(d, x); p in NamespaceOf(hash, counters, Run(owner, es, sticky), owner(p)).metadata
  {
    var w, p := Run(owner, es, sticky), Join(d, x);
    LogsAreWellFormed(owner, es, sticky, owner(d));
    LogsAreWellFormed(owner, es, sticky, owner(p));
    ListedIsEntered(owner, hash, counters, w, d, x);
    EnteredIsRecorded(owner, es, sticky, p);
    MasterMeans(hash, counters, w, owner(p));
  }

  lemma ListedIsEntered(owner: string -> int, hash: string -> int, counters: int -> int, w: World, d: string, x: string)
    requires WellFormedLog(LogOf(w, owner(d))) && (forall p :: IsInt64(hash(p))) && NR.Creates(LogOf(w, owner(d))) < P48
    requires var n := NamespaceOf(hash, counters, w, owner(d)); d in n.directories && x in n.directories[d]
    ensures IsEntered(owner, w, Join(d, x))
  {
    MasterMeans(hash, counters, w, owner(d));
    ListedInWorld(owner, w, NamespaceOf(hash, counters, w, owner(d)), d, x);
  }

  lemma ListedInWorld(owner: string -> int, w: World, n: Ns, d: string, x: string)
    requires Means(n, TreeOf(w, owner(d))) && NR.DirectoriesMatch(n.metadata, n.directories)
    requires d in n.directories && x in n.directories[d]
    ensures IsEntered(owner, w, Join(d, x))
  {
    SplitJoined(d, x);
  }

  lemma MasterMeans(hash: string -> int, counters: int -> int, w: World, m: int)
    requires WellFormedLog(LogOf(w, m)) && (forall p :: IsInt64(hash(p))) && NR.Creates(LogOf(w, m)) < P48
    ensures Means(NamespaceOf(hash, counters, w, m), TreeOf(w, m)) && NR.Inv(NamespaceOf(hash, counters, w, m))
  {
    RunMeans(hash, counters(m), LogOf(w, m));
    NR.RunKeepsInv(hash, counters(m), LogOf(w, m));
  }
}
