/**
 * The client protocol for creating and unlinking files: each call touches two master servers
 * in separate RPCs, in any interleaving with the calls of other clients.
 *
 * A file has a metadata record on the master of its path and an entry in its directory, on the
 * master of the parent. `create` makes the record, then the entry; `unlink` removes them in the
 * opposite order. An RPC is one atomic step on a master; a failed one has no effect there.
 */
module ClientProtocol {
  import opened Base

  datatype Kind = File | Dir

  datatype Call = CreateFile(path: string) | MakeDir(path: string) | Unlink(path: string)

  datatype Reply = Ok | InvalidOp | TransportError

  datatype Report = Nothing | Success | Failure

  /** Where a client stands: idle since a call that reported something, or waiting for the reply to an RPC. */
  datatype Phase =
    | Idle(report: Report)
    | CreateRpc(path: string, backoff: nat, failed: bool)
    | MkdirRpc(path: string)
    | AddRpc(path: string, backoff: nat, failed: bool)
    | RollbackRpc(path: string)
    | RemoveEntryRpc(path: string, backoff: nat, failed: bool)
    | RemoveRecordRpc(path: string)

  datatype State = State(records: map<string, Kind>, entries: set<string>, clients: map<nat, Phase>)

  datatype Event = Start(client: nat, call: Call) | Answer(client: nat, reply: Reply)

  const INITIAL := State(map[], {}, map[])

  const NUM_BACKOFFS: nat := 3

  function PhaseOf(s: State, c: nat): Phase { if c in s.clients then s.clients[c] else Idle(Nothing) }

  /** A master can only answer success when the operation is possible in its state; it can always fail. */
  predicate CanSucceed(s: State, ph: Phase) {
    match ph
    case Idle(_) => false
    case CreateRpc(p, _, _) => p !in s.records
    case MkdirRpc(p) => p !in s.records
    case AddRpc(p, _, _) => p !in s.entries
    case RollbackRpc(p) => p in s.records && s.records[p].File?
    case RemoveEntryRpc(p, _, _) => p in s.entries
    case RemoveRecordRpc(p) => p in s.records && s.records[p].File?
  }

  predicate Enabled(s: State, ev: Event) {
    match ev
    case Start(c, _) => PhaseOf(s, c).Idle?
    case Answer(c, reply) => !PhaseOf(s, c).Idle? && (reply.Ok? ==> CanSucceed(s, PhaseOf(s, c)))
  }

  /** `add_subfile` and `remove_subfile` do nothing for the root directory. */
  function BeginAdd(p: string): Phase { if p == "/" then Idle(Success) else AddRpc(p, NUM_BACKOFFS, false) }

  function Begin(call: Call): Phase {
    match call
    case CreateFile(p) => CreateRpc(p, NUM_BACKOFFS, false)
    case MakeDir(p) => MkdirRpc(p)
    case Unlink(p) => if p == "/" then RemoveRecordRpc(p) else RemoveEntryRpc(p, NUM_BACKOFFS, false)
  }

  /**
   * What a client does on a reply. With `sticky` the retry loops keep an earlier attempt's error after a later
   * success, as the client does; without it they go by the last attempt.
   */
  function Next(ph: Phase, reply: Reply, sticky: bool): Phase {
    match ph
    case Idle(_) => ph
    case CreateRpc(p, b, failed) =>
      if reply.Ok? then (if sticky && failed then Idle(Failure) else BeginAdd(p))
      else if b <= 1 then Idle(Failure) else CreateRpc(p, b - 1, true)
    case MkdirRpc(p) => if reply.Ok? then BeginAdd(p) else Idle(Failure)
    case AddRpc(p, b, failed) =>
      if reply.Ok? then (if sticky && failed then RollbackRpc(p) else Idle(Success))
      else if reply.InvalidOp? then AddRpc(p, b, true)
      else if b <= 1 then RollbackRpc(p) else AddRpc(p, b - 1, true)
    case RollbackRpc(p) => Idle(if reply.Ok? then Success else Failure)
    case RemoveEntryRpc(p, b, failed) =>
      if reply.Ok? then (if sticky && failed then Idle(Failure) else RemoveRecordRpc(p))
      else if reply.InvalidOp? then RemoveEntryRpc(p, b, true)
      else if b <= 1 then Idle(Failure) else RemoveEntryRpc(p, b - 1, true)
    case RemoveRecordRpc(p) => Idle(if reply.Ok? then Success else Failure)
  }

  /** What a successful RPC does on the masters. */
  function Effect(s: State, ph: Phase): State {
    match ph
    case Idle(_) => s
    case CreateRpc(p, _, _) => s.(records := s.records[p := File])
    case MkdirRpc(p) => s.(records := s.records[p := Dir])
    case AddRpc(p, _, _) => s.(entries := s.entries + {p})
    case RollbackRpc(p) => s.(records := s.records - {p})
    case RemoveEntryRpc(p, _, _) => s.(entries := s.entries - {p})
    case RemoveRecordRpc(p) => s.(records := s.records - {p})
  }

  function Step(s: State, ev: Event, sticky: bool): State
    requires Enabled(s, ev)
  {
    match ev
    case Start(c, call) => s.(clients := s.clients[c := Begin(call)])
    case Answer(c, reply) =>
      var ph := PhaseOf(s, c);
      var s' := if reply.Ok? then Effect(s, ph) else s;
      s'.(clients := s.clients[c := Next(ph, reply, sticky)])
  }

  /** An entry is added although the client will take the call for failed, because of an earlier attempt. */
  predicate StaleAdd(s: State, ev: Event, sticky: bool) {
    ev.Answer? && ev.reply.Ok? && PhaseOf(s, ev.client).AddRpc? && PhaseOf(s, ev.client).failed && sticky
  }

  predicate Possible(evs: seq<Event>, sticky: bool)
    decreases |evs|, 0
  {
    evs == [] || (Possible(evs[..|evs|-1], sticky) && Enabled(Run(evs[..|evs|-1], sticky), evs[|evs|-1]))
  }

  function Run(evs: seq<Event>, sticky: bool): State
    requires Possible(evs, sticky)
    decreases |evs|, 1
  {
    if evs == [] then INITIAL else Step(Run(evs[..|evs|-1], sticky), evs[|evs|-1], sticky)
  }

  /** No step of the run is a stale add. */
  predicate Clean(evs: seq<Event>, sticky: bool)
    requires Possible(evs, sticky)
  {
    evs == [] || (Clean(evs[..|evs|-1], sticky) && !StaleAdd(Run(evs[..|evs|-1], sticky), evs[|evs|-1], sticky))
  }

  // ---------------------------------------------------------------- ownership

  /** The client is between its two RPCs: it made the record, or took the entry, and has to finish or undo. */
  predicate Holds(ph: Phase, p: string) { (ph.AddRpc? || ph.RollbackRpc? || ph.RemoveRecordRpc?) && ph.path == p }

  function Holders(s: State, p: string): set<nat> { set c | c in s.clients && Holds(s.clients[c], p) }

  /** Every entry has its record, and a record has at most one owner: its entry or one client in the middle of a call. */
  ghost predicate Inv(s: State) {
    && (forall p :: p in s.entries ==> p in s.records)
    && (forall c :: c in s.clients && s.clients[c].AddRpc? ==> s.clients[c].path != "/")
    && (forall c, p :: p != "/" && c in s.clients && Holds(s.clients[c], p) ==> p in s.records && p !in s.entries)
    && (forall c, d, p :: p != "/" && c in s.clients && d in s.clients && Holds(s.clients[c], p) && Holds(s.clients[d], p) ==> c == d)
    && "/" !in s.entries
  }

  /** In numbers: per path, the entry and the clients that hold it are no more than the one record. */
  lemma OwnersAreAtMostOne(s: State, p: string)
    requires Inv(s) && p != "/"
    ensures |Holders(s, p)| + (if p in s.entries then 1 else 0) <= if p in s.records then 1 else 0
  {
    var hs := Holders(s, p);
    if hs == {} {
    } else {
      var c := Pick(hs);
      assert Holds(s.clients[c], p);
      assert forall d :: d in hs ==> d == c;
      assert hs == {c};
    }
  }

  lemma StepInv(s: State, ev: Event, sticky: bool)
    requires Inv(s) && Enabled(s, ev) && !StaleAdd(s, ev, sticky)
    ensures Inv(Step(s, ev, sticky))
  {
    match ev {
      case Start(c, call) =>
      case Answer(c, reply) =>
        assert c in s.clients;
        var ph := s.clients[c];
        if !reply.Ok? {
          FailureInv(s, c, Next(ph, reply, sticky));
        } else if ph.CreateRpc? || ph.MkdirRpc? {
          MadeRecordInv(s, c, ph, Next(ph, reply, sticky));
        } else if ph.AddRpc? {
          AddedEntryInv(s, c, ph.path, Next(ph, reply, sticky));
        } else if ph.RemoveEntryRpc? {
          TookEntryInv(s, c, ph.path, Next(ph, reply, sticky));
        } else {
          DroppedRecordInv(s, c, ph.path, Next(ph, reply, sticky));
        }
    }
  }

  /** A stale add is the one step that breaks the invariant. */
  lemma StepInvIff(s: State, ev: Event, sticky: bool)
    requires Inv(s) && Enabled(s, ev)
    ensures Inv(Step(s, ev, sticky)) <==> !StaleAdd(s, ev, sticky)
  {
    if StaleAdd(s, ev, sticky) {
      var ph, s' := s.clients[ev.client], Step(s, ev, sticky);
      assert Holds(s'.clients[ev.client], ph.path) && ph.path in s'.entries && ph.path != "/";
    } else {
      StepInv(s, ev, sticky);
    }
  }

  lemma FailureInv(s: State, c: nat, next: Phase)
    requires Inv(s) && c in s.clients && (next.AddRpc? ==> next.path != "/")
    requires forall p :: Holds(next, p) ==> Holds(s.clients[c], p)
    ensures Inv(s.(clients := s.clients[c := next]))
  {
  }

  lemma MadeRecordInv(s: State, c: nat, ph: Phase, next: Phase)
    requires Inv(s) && c in s.clients && s.clients[c] == ph && (ph.CreateRpc? || ph.MkdirRpc?) && ph.path !in s.records
    requires next.Idle? || next == BeginAdd(ph.path)
    ensures Inv(Effect(s, ph).(clients := s.clients[c := next]))
  {
  }

  lemma AddedEntryInv(s: State, c: nat, p: string, next: Phase)
    requires Inv(s) && c in s.clients && s.clients[c].AddRpc? && s.clients[c].path == p && next.Idle?
    ensures Inv(s.(entries := s.entries + {p}, clients := s.clients[c := next]))
  {
    assert Holds(s.clients[c], p);
  }

  lemma TookEntryInv(s: State, c: nat, p: string, next: Phase)
    requires Inv(s) && c in s.clients && p in s.entries && (next.Idle? || next == RemoveRecordRpc(p))
    requires s.clients[c].RemoveEntryRpc?
    ensures Inv(s.(entries := s.entries - {p}, clients := s.clients[c := next]))
  {
  }

  lemma DroppedRecordInv(s: State, c: nat, p: string, next: Phase)
    requires Inv(s) && c in s.clients && Holds(s.clients[c], p) && p in s.records && next.Idle?
    ensures Inv(s.(records := s.records - {p}, clients := s.clients[c := next]))
  {
  }

  /** The invariant holds after every step of the run. */
  ghost predicate SafeThroughout(evs: seq<Event>, sticky: bool)
    requires Possible(evs, sticky)
  {
    Inv(Run(evs, sticky)) && (evs == [] || SafeThroughout(evs[..|evs|-1], sticky))
  }

  /**
   * In every interleaving of any number of clients: at every step every entry names a path with a record, no two
   * clients own the same path, and no client owns a path that is entered in its directory, if and only if no stale
   * add happens. None can when the retry loops go by the last attempt.
   */
  lemma {:induction false} EveryInterleavingIsSafeIff(evs: seq<Event>, sticky: bool)
    requires Possible(evs, sticky)
    ensures SafeThroughout(evs, sticky) <==> Clean(evs, sticky)
  {
    if evs != [] {
      var before := evs[..|evs|-1];
      EveryInterleavingIsSafeIff(before, sticky);
      if SafeThroughout(before, sticky) {
        assert Inv(Run(before, sticky));
        StepInvIff(Run(before, sticky), evs[|evs|-1], sticky);
      }
    }
  }

  lemma {:induction false} LastAttemptRunsAreClean(evs: seq<Event>)
    requires Possible(evs, false)
    ensures Clean(evs, false)
  {
    if evs != [] { LastAttemptRunsAreClean(evs[..|evs|-1]); }
  }

  /** So the second RPC of a call never finds its file gone, and never finds the entry already there. */
  lemma SecondRpcFindsItsFile(evs: seq<Event>, sticky: bool, c: nat)
    requires Possible(evs, sticky) && Clean(evs, sticky)
    ensures var s := Run(evs, sticky);
            var ph := PhaseOf(s, c);
            && (ph.AddRpc? ==> CanSucceed(s, ph) && ph.path in s.records)
            && ((ph.RollbackRpc? || ph.RemoveRecordRpc?) && ph.path != "/" ==> ph.path in s.records)
  {
    EveryInterleavingIsSafeIff(evs, sticky);
    assert Inv(Run(evs, sticky));
    var ph := PhaseOf(Run(evs, sticky), c);
    if ph.AddRpc? || ph.RollbackRpc? || ph.RemoveRecordRpc? { assert Holds(ph, ph.path); }
  }

  // ---------------------------------------------------------------- what the sticky status costs

  /**
   * The state once a client whose entry was just added has finished its call, with every RPC answered. A rollback
   * cannot remove the record of a directory.
   */
  function FinishAdd(s: State, c: nat, sticky: bool): State
    requires PhaseOf(s, c).AddRpc? && CanSucceed(s, PhaseOf(s, c))
  {
    var s1 := Step(s, Answer(c, Ok), sticky);
    var ph := PhaseOf(s1, c);
    if ph.RollbackRpc? then Step(s1, Answer(c, if CanSucceed(s1, ph) then Ok else InvalidOp), sticky) else s1
  }

  /**
   * From any safe state, a create or mkdir whose entry is added keeps every entry backed by a record if and only if
   * the client goes by the last attempt, or no earlier attempt of the same call had failed, or it was a mkdir.
   */
  lemma FinishAddIsSafeIff(s: State, c: nat, sticky: bool)
    requires Inv(s) && PhaseOf(s, c).AddRpc? && CanSucceed(s, PhaseOf(s, c))
    ensures PhaseOf(s, c).path in s.records
    ensures (forall p :: p in FinishAdd(s, c, sticky).entries ==> p in FinishAdd(s, c, sticky).records) <==>
            !sticky || !PhaseOf(s, c).failed || s.records[PhaseOf(s, c).path].Dir?
  {
    var ph := PhaseOf(s, c);
    assert Holds(s.clients[c], ph.path);
    var s1 := Step(s, Answer(c, Ok), sticky);
    assert ph.path in s1.entries;
    if sticky && ph.failed {
      var s2 := FinishAdd(s, c, sticky);
      assert ph.path in s2.entries && (ph.path in s2.records <==> s.records[ph.path].Dir?);
    }
  }

  /** One client, one path, one attempt that failed: the directory lists a file that has no record. */
  lemma StaleAddLeavesADanglingEntry(p: string)
    requires p != "/"
    ensures var evs := [Start(0, CreateFile(p)), Answer(0, Ok), Answer(0, TransportError), Answer(0, Ok), Answer(0, Ok)];
            Possible(evs, true) && p in Run(evs, true).entries && p !in Run(evs, true).records &&
            PhaseOf(Run(evs, true), 0) == Idle(Success)
  {
    var e1, e2, e3 := Start(0, CreateFile(p)), Answer(0, Ok), Answer(0, TransportError);
    RunMore([], e1);
    assert [] + [e1] == [e1] && [e1] + [e2] == [e1, e2] && [e1, e2] + [e3] == [e1, e2, e3];
    RunMore([e1], e2);
    RunMore([e1, e2], e3);
    var s := Run([e1, e2, e3], true);
    assert PhaseOf(s, 0) == AddRpc(p, NUM_BACKOFFS - 1, true) && p !in s.entries && s.records == map[p := File];
    FinishStale([e1, e2, e3], p);
    assert [e1, e2, e3] + [e2] + [e2] == [e1, e2, e3, e2, e2];
  }

  /** The last two replies of such a run. */
  lemma FinishStale(evs: seq<Event>, p: string)
    requires Possible(evs, true)
    requires var s := Run(evs, true); PhaseOf(s, 0).AddRpc? && PhaseOf(s, 0).failed && PhaseOf(s, 0).path == p
    requires var s := Run(evs, true); p !in s.entries && p in s.records && s.records[p].File?
    ensures var evs' := evs + [Answer(0, Ok)] + [Answer(0, Ok)];
            Possible(evs', true) && p in Run(evs', true).entries && p !in Run(evs', true).records &&
            PhaseOf(Run(evs', true), 0) == Idle(Success)
  {
    RunMore(evs, Answer(0, Ok));
    RunMore(evs + [Answer(0, Ok)], Answer(0, Ok));
  }

  lemma RunMore(evs: seq<Event>, ev: Event)
    requires Possible(evs, true) && Enabled(Run(evs, true), ev)
    ensures Possible(evs + [ev], true) && Run(evs + [ev], true) == Step(Run(evs, true), ev, true)
  {
    assert (evs + [ev])[..|evs|] == evs;
  }

  /** A create that had to roll back reports success exactly when it has removed the record again. */
  lemma RollbackReportsSuccessIffUndone(s: State, c: nat, reply: Reply, sticky: bool)
    requires Inv(s) && PhaseOf(s, c).RollbackRpc? && Enabled(s, Answer(c, reply)) && PhaseOf(s, c).path != "/"
    ensures var s' := Step(s, Answer(c, reply), sticky);
            PhaseOf(s', c) == Idle(Success) <==> PhaseOf(s, c).path !in s'.records
  {
    assert Holds(s.clients[c], PhaseOf(s, c).path);
  }

  // ---------------------------------------------------------------- what a report means

  /** The client is making a path: it has asked for the record or for the entry. */
  predicate Making(ph: Phase, p: string) { (ph.CreateRpc? || ph.MkdirRpc? || ph.AddRpc?) && ph.path == p }

  /**
   * A create or mkdir that reports success has made its path: the record is there, and so is the entry, except for
   * the root directory, which has none.
   */
  lemma SuccessMeansMade(s: State, c: nat, reply: Reply, sticky: bool, p: string)
    requires Inv(s) && Enabled(s, Answer(c, reply)) && Making(PhaseOf(s, c), p)
    requires PhaseOf(Step(s, Answer(c, reply), sticky), c) == Idle(Success)
    ensures var s' := Step(s, Answer(c, reply), sticky);
            reply.Ok? && p in s'.records && (p in s'.entries <==> p != "/")
  {
    if PhaseOf(s, c).AddRpc? { assert Holds(s.clients[c], p); }
  }

  /** One that reports failure without having come to a rollback has changed nothing, or was answered Ok too late. */
  lemma FailureMeansNothingDone(s: State, c: nat, reply: Reply, sticky: bool, p: string)
    requires Inv(s) && Enabled(s, Answer(c, reply)) && Making(PhaseOf(s, c), p)
    requires PhaseOf(Step(s, Answer(c, reply), sticky), c) == Idle(Failure)
    ensures var s' := Step(s, Answer(c, reply), sticky);
            (s'.records == s.records && s'.entries == s.entries) <==> !reply.Ok?
    ensures reply.Ok? ==> sticky && PhaseOf(s, c).CreateRpc? && PhaseOf(s, c).failed
  {
  }

  /**
   * A create whose record is made goes on to the entry if and only if it goes by the last attempt or no attempt had
   * failed. Otherwise it reports failure, and the record stays behind with neither an entry nor an owner.
   */
  lemma LateRecordIsOrphanedIff(s: State, c: nat, sticky: bool)
    requires Inv(s) && PhaseOf(s, c).CreateRpc? && Enabled(s, Answer(c, Ok)) && PhaseOf(s, c).path != "/"
    ensures var p, s' := PhaseOf(s, c).path, Step(s, Answer(c, Ok), sticky);
            && p in s'.records && s'.records[p].File? && p !in s'.entries
            && (Holders(s', p) == {} <==> sticky && PhaseOf(s, c).failed)
            && (Holders(s', p) == {} ==> PhaseOf(s', c) == Idle(Failure))
  {
    var p, s' := PhaseOf(s, c).path, Step(s, Answer(c, Ok), sticky);
    assert forall d :: d in s.clients ==> !Holds(s.clients[d], p);
    forall d | d in Holders(s', p) ensures d == c && PhaseOf(s', c).AddRpc? {
      assert Holds(s'.clients[d], p);
    }
    if !(sticky && PhaseOf(s, c).failed) { assert c in Holders(s', p); }
  }

  /**
   * An unlink whose entry is removed goes on to the record if and only if it goes by the last attempt or no attempt had
   * failed. Otherwise it reports failure, and again the record stays behind without an owner.
   */
  lemma LateRemovalOrphansIff(s: State, c: nat, sticky: bool)
    requires Inv(s) && PhaseOf(s, c).RemoveEntryRpc? && Enabled(s, Answer(c, Ok)) && PhaseOf(s, c).path != "/"
    ensures var p, s' := PhaseOf(s, c).path, Step(s, Answer(c, Ok), sticky);
            && p in s'.records && p !in s'.entries
            && (Holders(s', p) == {} <==> sticky && PhaseOf(s, c).failed)
            && (Holders(s', p) == {} ==> PhaseOf(s', c) == Idle(Failure))
  {
    var p, s' := PhaseOf(s, c).path, Step(s, Answer(c, Ok), sticky);
    assert forall d :: d in s.clients ==> !Holds(s.clients[d], p);
    forall d | d in Holders(s', p) ensures d == c && PhaseOf(s', c).RemoveRecordRpc? {
      assert Holds(s'.clients[d], p);
    }
    if !(sticky && PhaseOf(s, c).failed) { assert c in Holders(s', p); }
  }

  /** The root directory has no entry: making it ends with its record, and unlinking it starts there. */
  lemma RootHasNoEntry(sticky: bool)
    ensures Next(Begin(MakeDir("/")), Ok, sticky) == Idle(Success) && Begin(Unlink("/")) == RemoveRecordRpc("/")
    ensures Next(Begin(CreateFile("/")), Ok, sticky) == Idle(Success)
  {
  }

  /** An unlink that reports success has removed its path: neither the record nor the entry is left. */
  lemma SuccessMeansRemoved(s: State, c: nat, reply: Reply, sticky: bool)
    requires Inv(s) && Enabled(s, Answer(c, reply)) && (PhaseOf(s, c).RemoveEntryRpc? || PhaseOf(s, c).RemoveRecordRpc?)
    requires PhaseOf(Step(s, Answer(c, reply), sticky), c) == Idle(Success)
    ensures var p, s' := PhaseOf(s, c).path, Step(s, Answer(c, reply), sticky);
            reply.Ok? && p !in s'.records && p !in s'.entries
  {
    if PhaseOf(s, c).RemoveRecordRpc? { assert Holds(s.clients[c], PhaseOf(s, c).path); }
  }

  /** Where a client stands once the same reply has come a number of times, or it has given up. */
  function Retried(ph: Phase, reply: Reply, n: nat, sticky: bool): Phase {
    if n == 0 then ph
    else
      var before := Retried(ph, reply, n - 1, sticky);
      if before.Idle? then before else Next(before, reply, sticky)
  }

  /** A create gives up after three failures of either kind, and a mkdir after one. */
  lemma {:induction false} CreateGivesUp(p: string, reply: Reply, n: nat, sticky: bool)
    requires !reply.Ok?
    ensures Retried(Begin(CreateFile(p)), reply, n, sticky) == if n >= 3 then Idle(Failure) else CreateRpc(p, 3 - n, n > 0)
    ensures Retried(Begin(MakeDir(p)), reply, n, sticky) == if n >= 1 then Idle(Failure) else MkdirRpc(p)
  {
    if n > 0 { CreateGivesUp(p, reply, n - 1, sticky); }
  }

  /**
   * Adding an entry is given up after three transport errors, and the record is then rolled back; removing one
   * likewise, and the call has failed. But while the master refuses, both ask again for ever.
   */
  lemma {:induction false} EntryGivesUp(p: string, n: nat, sticky: bool)
    requires p != "/"
    ensures n <= 3 ==> Retried(BeginAdd(p), TransportError, n, sticky) == if n == 3 then RollbackRpc(p) else AddRpc(p, 3 - n, n > 0)
    ensures Retried(BeginAdd(p), InvalidOp, n, sticky) == AddRpc(p, 3, n > 0)
    ensures Retried(Begin(Unlink(p)), TransportError, n, sticky) == if n >= 3 then Idle(Failure) else RemoveEntryRpc(p, 3 - n, n > 0)
    ensures Retried(Begin(Unlink(p)), InvalidOp, n, sticky) == RemoveEntryRpc(p, 3, n > 0)
  {
    if n > 0 { EntryGivesUp(p, n - 1, sticky); }
  }

  // ---------------------------------------------------------------- unlink undoes create

  function Answered(s: State, c: nat, sticky: bool): State
    requires Enabled(s, Answer(c, Ok))
  {
    Step(s, Answer(c, Ok), sticky)
  }

  /** An undisturbed create followed by an undisturbed unlink leaves the masters as they were. */
  lemma UnlinkUndoesCreate(s: State, c: nat, p: string, sticky: bool)
    requires Inv(s) && PhaseOf(s, c).Idle? && p !in s.records && p != "/"
    ensures var s1 := Step(s, Start(c, CreateFile(p)), sticky);
            Enabled(s1, Answer(c, Ok)) &&
            var s2 := Answered(s1, c, sticky);
            Enabled(s2, Answer(c, Ok)) &&
            var s3 := Answered(s2, c, sticky);
            s3.records == s.records[p := File] && s3.entries == s.entries + {p} &&
            PhaseOf(s3, c) == Idle(Success) &&
            var s4 := Step(s3, Start(c, Unlink(p)), sticky);
            Enabled(s4, Answer(c, Ok)) &&
            var s5 := Answered(s4, c, sticky);
            Enabled(s5, Answer(c, Ok)) &&
            var s6 := Answered(s5, c, sticky);
            s6.records == s.records && s6.entries == s.entries && PhaseOf(s6, c) == Idle(Success)
  {
    assert s.records[p := File] - {p} == s.records;
    assert s.entries + {p} - {p} == s.entries;
  }
}
