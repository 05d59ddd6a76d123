/**
 * One index on an index server: the range index, its write log and the log file, behind
 * `update`, `merge`, `search` and `flush_log`.
 */
module IndexWrappers {
  import opened Base
  import opened Numerals
  import opened IndexOps
  import opened RangeIndexes
  import opened LogManagers

  datatype Status = NORMAL | MIGRATING

  /** What an operation reports. */
  datatype Outcome = Done | UnderMigration | BadUpdate | NotOpened

  /** The state of a wrapper. `chunks` is the content of the log file. */
  datatype Wrapper = Wrapper(index: Index, log: Log, status: Status, dirty: bool, lastMerged: nat,
                             chunks: seq<seq<LogRecord>>)

  const FRESH: Wrapper := Wrapper(map[], Log([], [], 0), NORMAL, false, 0, [])

  /** What a list of log records does to an index: the updates of each in turn, up to the first malformed one. */
  function Writes(t: IntType, rs: seq<LogRecord>): Batch {
    if rs == [] then Batch([], true)
    else DecodeAll(t, rs[0].updates).Then(Writes(t, rs[1..]))
  }

  lemma {:induction false} WritesConcat(t: IntType, a: seq<LogRecord>, b: seq<LogRecord>)
    ensures Writes(t, a + b) == Writes(t, a).Then(Writes(t, b))
  {
    if a == [] {
      assert a + b == b;
    } else {
      assert (a + b)[1..] == a[1..] + b;
      WritesConcat(t, a[1..], b);
      var d, x, y := DecodeAll(t, a[0].updates), Writes(t, a[1..]), Writes(t, b);
      assert d.writes + (x.writes + y.writes) == (d.writes + x.writes) + y.writes;
    }
  }

  lemma WritesOneMore(t: IntType, rs: seq<LogRecord>, i: nat)
    requires i < |rs| && Writes(t, rs[..i]).ok
    ensures var here := DecodeAll(t, rs[i].updates);
            var upto := Batch(Writes(t, rs[..i]).writes + here.writes, here.ok);
            Writes(t, rs[..i+1]) == upto && (!here.ok ==> Writes(t, rs) == upto)
  {
    var here := DecodeAll(t, rs[i].updates);
    assert here.writes + [] == here.writes;
    assert Writes(t, [rs[i]]) == here;
    assert rs[..i+1] == rs[..i] + [rs[i]];
    WritesConcat(t, rs[..i], [rs[i]]);
    assert rs == rs[..i+1] + rs[i+1..];
    WritesConcat(t, rs[..i+1], rs[i+1..]);
  }

  /** Updates are only appended to the log, unless the server was told to apply them at once. */
  function UpdateState(t: IntType, immediately: bool, w: Wrapper, r: LogRecord): (Wrapper, Outcome) {
    if immediately then
      var b := DecodeAll(t, r.updates);
      (w.(index := ApplyAll(w.index, b.writes), dirty := w.dirty || b.ok), if b.ok then Done else BadUpdate)
    else (w.(log := w.log.(records := w.log.records + [r]), dirty := true), Done)
  }

  /** A merge applies every logged record with an id of at most `txn`, and keeps all of them in the log. */
  function MergeState(t: IntType, w: Wrapper, txn: nat): (Wrapper, Outcome) {
    if w.status.MIGRATING? then (w, UnderMigration)
    else
      var b := Writes(t, w.log.records[..Upto(w.log.records, txn)]);
      var applied := w.(index := ApplyAll(w.index, b.writes));
      if b.ok then (applied.(lastMerged := txn, dirty := true), Done) else (applied, BadUpdate)
  }

  function FlushState(w: Wrapper, bytes: nat, force: bool): Wrapper
    requires CanFlush(w.log, bytes, force)
  {
    var (l, chunk) := FlushLog(w.log, bytes, force);
    w.(log := l, chunks := if chunk.Some? then w.chunks + [chunk.value] else w.chunks)
  }

  /** Trimming: only records both merged and flushed may go. */
  function TrimState(w: Wrapper): Wrapper {
    w.(log := EraseUpto(w.log, Min(w.lastMerged, w.log.lastFlushed)))
  }

  /** What a search of an index answers: the scan of the bounds, or nothing when a bound does not parse. */
  ghost predicate Part(t: IntType, idx: Index, q: RpcRangeQuery, results: seq<int>) {
    match Bounds(t, q)
    case Some(range) => Answers(idx, range, results) && InKeyOrder(idx, range, results)
    case None => results == []
  }

  class RangeIndexWrapper {
    const index: RangeIndex
    const logManager: LogManager
    const updateImmediately: bool
    var status: Status
    var dirty: bool
    var lastMerged: nat
    var file: seq<seq<LogRecord>>

    ghost predicate Valid()
      reads this, index
    {
      index.Valid()
    }

    ghost function View(): Wrapper
      reads this, index, logManager
    {
      Wrapper(index.index, logManager.View(), status, dirty, lastMerged, file)
    }

    constructor (t: IntType, immediately: bool, dty: bool)
      requires t.Valid()
      ensures Valid() && index.keyType == t && updateImmediately == immediately
      ensures View() == FRESH.(dirty := dty)
      ensures fresh(index) && fresh(logManager)
    {
      index := new RangeIndex(t);
      logManager := new LogManager();
      updateImmediately := immediately;
      status, dirty, lastMerged, file := NORMAL, dty, 0, [];
    }

    method SetStatus(s: Status)
      requires Valid()
      modifies this`status
      ensures Valid() && View() == old(View()).(status := s)
    {
      status := s;
    }

    method Update(r: LogRecord) returns (outcome: Outcome)
      requires Valid()
      modifies this, index, logManager
      ensures Valid()
      ensures (View(), outcome) == UpdateState(index.keyType, updateImmediately, old(View()), r)
      ensures outcome.Done? ==> dirty
    {
      if updateImmediately {
        var ok := index.ApplyUpdates(r.updates);
        if !ok {
          return BadUpdate;
        }
        dirty := true;
      } else {
        logManager.Append(r);
        dirty := true;
      }
      return Done;
    }

    /** Applies records one after the other, stopping at a malformed update. */
    method ApplyRecords(records: seq<LogRecord>) returns (ok: bool)
      requires Valid()
      modifies index
      ensures Valid()
      ensures ok == Writes(index.keyType, records).ok
      ensures index.index == ApplyAll(old(index.index), Writes(index.keyType, records).writes)
    {
      ghost var t := index.keyType;
      var i := 0;
      assert records[..0] == [];
      while i < |records|
        invariant 0 <= i <= |records| && Valid()
        invariant Writes(t, records[..i]).ok
        invariant index.index == ApplyAll(old(index.index), Writes(t, records[..i]).writes)
      {
        ghost var before, here := Writes(t, records[..i]).writes, DecodeAll(t, records[i].updates);
        var good := index.ApplyUpdates(records[i].updates);
        ApplyAllConcat(old(index.index), before, here.writes);
        WritesOneMore(t, records, i);
        if !good {
          return false;
        }
        i := i + 1;
      }
      assert records[..i] == records;
      return true;
    }

    method Merge(txn: nat) returns (outcome: Outcome)
      requires Valid()
      modifies this, index
      ensures Valid()
      ensures (View(), outcome) == MergeState(index.keyType, old(View()), txn)
      ensures old(status).MIGRATING? ==> outcome.UnderMigration? && View() == old(View())
      ensures outcome.Done? ==> dirty && lastMerged == txn
      ensures !outcome.Done? ==> dirty == old(dirty) && lastMerged == old(lastMerged)
    {
      if status.MIGRATING? {
        return UnderMigration;
      }
      var records := logManager.ScanThrough(txn);
      var ok := ApplyRecords(records);
      if !ok {
        return BadUpdate;
      }
      lastMerged := txn;
      dirty := true;
      return Done;
    }

    /** Merges, then scans. A query whose bounds do not parse still reports success, with nothing found. */
    method Search(txn: nat, q: RpcRangeQuery) returns (outcome: Outcome, results: seq<int>)
      requires Valid()
      modifies this, index
      ensures Valid()
      ensures (View(), outcome) == MergeState(index.keyType, old(View()), txn)
      ensures outcome.Done? ==> Part(index.keyType, View().index, q, results)
      ensures !outcome.Done? ==> results == []
    {
      results := [];
      outcome := Merge(txn);
      if outcome.Done? {
        var found := index.Search(q);
        if found.Some? {
          results := found.value;
        }
      }
    }

    /** Writes part of the log to the log file and trims what is both flushed and merged. */
    method FlushToFile(bytes: nat, force: bool, canOpen: bool) returns (outcome: Outcome)
      requires Valid() && CanFlush(View().log, bytes, force)
      modifies this`file, logManager
      ensures Valid()
      ensures outcome == (if canOpen then Done else NotOpened)
      ensures View() == if canOpen then TrimState(FlushState(old(View()), bytes, force)) else old(View())
    {
      if !canOpen {
        return NotOpened;
      }
      var chunk := logManager.Flush(bytes, force);
      if chunk.Some? {
        file := file + [chunk.value];
      }
      logManager.EraseThrough(if lastMerged < logManager.lastFlushed then lastMerged else logManager.lastFlushed);
      return Done;
    }
  }
}
