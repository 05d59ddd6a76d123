/**
 * The write log of one index: records are appended in transaction order, scanned by merges,
 * queued into a buffer and written out in chunks by flushes, and finally trimmed.
 */
module LogManagers {
  import opened Base
  import opened IndexOps

  /** A log record; `size` is the length of its serialised update list. */
  datatype LogRecord = LogRecord(txnId: nat, updates: seq<RecordUpdate>, size: nat)

  /** The state of a log manager: the list, the buffer of queued entities, the id flushed last. */
  datatype Log = Log(records: seq<LogRecord>, buffer: seq<LogRecord>, lastFlushed: nat)

  /** How many records at the front of the list have an id of at most `t`. */
  function Upto(rs: seq<LogRecord>, t: nat): (n: nat)
    ensures n <= |rs|
  {
    if rs == [] || rs[0].txnId > t then 0 else 1 + Upto(rs[1..], t)
  }

  /** An entity takes eight bytes for its id besides its data. */
  function EntitySize(r: LogRecord): nat { 8 + r.size }

  function BufferSize(b: seq<LogRecord>): nat {
    if b == [] then 0 else BufferSize(b[..|b|-1]) + EntitySize(b[|b|-1])
  }

  /** How many of the records a flush queues: it stops after the one that reaches `bytes`. */
  function Fill(rs: seq<LogRecord>, have: nat, bytes: nat): (n: nat)
    ensures n <= |rs|
    ensures rs != [] ==> n > 0
  {
    if rs == [] then 0
    else if have + EntitySize(rs[0]) >= bytes then 1
    else 1 + Fill(rs[1..], have + EntitySize(rs[0]), bytes)
  }

  /** Where a flush starts: past the records already flushed, unless nothing ever was. */
  function FlushStart(l: Log): (n: nat)
    ensures n <= |l.records|
  {
    if l.lastFlushed == 0 then 0 else Upto(l.records, l.lastFlushed)
  }

  function Queued(l: Log, bytes: nat): seq<LogRecord> {
    var unflushed := l.records[FlushStart(l)..];
    l.buffer + unflushed[..Fill(unflushed, BufferSize(l.buffer), bytes)]
  }

  predicate WritesChunk(l: Log, bytes: nat, force: bool) {
    BufferSize(Queued(l, bytes)) >= bytes || force
  }

  /** A flush that writes must have something to write: the code takes the last element of the buffer. */
  predicate CanFlush(l: Log, bytes: nat, force: bool) {
    WritesChunk(l, bytes, force) ==> Queued(l, bytes) != []
  }

  /** The log after a flush, and the chunk written, if any. */
  function FlushLog(l: Log, bytes: nat, force: bool): (Log, Option<seq<LogRecord>>)
    requires CanFlush(l, bytes, force)
  {
    var q := Queued(l, bytes);
    if WritesChunk(l, bytes, force) then (Log(l.records, [], q[|q|-1].txnId), Some(q))
    else (Log(l.records, q, l.lastFlushed), None)
  }

  function EraseUpto(l: Log, t: nat): Log { l.(records := l.records[Upto(l.records, t)..]) }

  lemma {:induction false} UptoSpec(rs: seq<LogRecord>, t: nat)
    ensures forall i :: 0 <= i < Upto(rs, t) ==> rs[i].txnId <= t
    ensures Upto(rs, t) < |rs| ==> t < rs[Upto(rs, t)].txnId
  {
    if rs != [] && rs[0].txnId <= t {
      UptoSpec(rs[1..], t);
      forall i | 0 <= i < Upto(rs, t) ensures rs[i].txnId <= t {
        if i > 0 { assert rs[i] == rs[1..][i-1]; }
      }
    }
  }

  lemma {:induction false} UptoStep(rs: seq<LogRecord>, t: nat, i: nat)
    requires i <= |rs| && forall j :: 0 <= j < i ==> rs[j].txnId <= t
    ensures i <= Upto(rs, t)
    ensures i < |rs| && rs[i].txnId > t ==> Upto(rs, t) == i
    ensures i == |rs| ==> Upto(rs, t) == i
  {
    if i > 0 {
      UptoStep(rs[1..], t, i - 1);
    }
  }

  lemma BufferSizeStep(b: seq<LogRecord>, r: LogRecord)
    ensures BufferSize(b + [r]) == BufferSize(b) + EntitySize(r)
  {
    assert (b + [r])[..|b|] == b;
  }

  /** Queueing one record after the other. */
  function Enqueue(b: seq<LogRecord>, rs: seq<LogRecord>, bytes: nat): seq<LogRecord>
    decreases |rs|
  {
    if rs == [] then b
    else if BufferSize(b) + EntitySize(rs[0]) >= bytes then b + [rs[0]]
    else Enqueue(b + [rs[0]], rs[1..], bytes)
  }

  lemma {:induction false} EnqueueFills(b: seq<LogRecord>, rs: seq<LogRecord>, bytes: nat)
    ensures Enqueue(b, rs, bytes) == b + rs[..Fill(rs, BufferSize(b), bytes)]
    decreases |rs|
  {
    if rs != [] {
      BufferSizeStep(b, rs[0]);
      if BufferSize(b) + EntitySize(rs[0]) < bytes {
        EnqueueFills(b + [rs[0]], rs[1..], bytes);
        var n := Fill(rs[1..], BufferSize(b + [rs[0]]), bytes);
        assert [rs[0]] + rs[1..][..n] == rs[..n+1];
      }
    }
  }

  /** A flush queues at least one record if there is one, stops at the first that fills the buffer, and not before. */
  lemma {:induction false} FillStops(rs: seq<LogRecord>, have: nat, bytes: nat)
    ensures var n := Fill(rs, have, bytes);
            && (forall i :: 0 < i < n ==> have + BufferSize(rs[..i]) < bytes)
            && (n < |rs| ==> have + BufferSize(rs[..n]) >= bytes)
  {
    if rs != [] {
      var first, n := have + EntitySize(rs[0]), Fill(rs, have, bytes);
      assert rs[..1] == [] + [rs[0]];
      BufferSizeStep([], rs[0]);
      if first < bytes {
        FillStops(rs[1..], first, bytes);
        forall i | 0 < i <= n ensures BufferSize(rs[..i]) == EntitySize(rs[0]) + BufferSize(rs[1..][..i-1]) {
          FirstEntity(rs, i);
        }
      }
    }
  }

  lemma {:induction false} FirstEntity(rs: seq<LogRecord>, i: nat)
    requires 0 < i <= |rs|
    ensures BufferSize(rs[..i]) == EntitySize(rs[0]) + BufferSize(rs[1..][..i-1])
  {
    if i == 1 {
      assert rs[..1] == [] + [rs[0]];
      BufferSizeStep([], rs[0]);
    } else {
      FirstEntity(rs, i - 1);
      assert rs[..i] == rs[..i-1] + [rs[i-1]] && rs[1..][..i-1] == rs[1..][..i-2] + [rs[i-1]];
      BufferSizeStep(rs[..i-1], rs[i-1]);
      BufferSizeStep(rs[1..][..i-2], rs[i-1]);
    }
  }

  class LogManager {
    var log: seq<LogRecord>
    var buffer: seq<LogRecord>
    var lastFlushed: nat

    ghost function View(): Log
      reads this
    {
      Log(log, buffer, lastFlushed)
    }

    constructor ()
      ensures View() == Log([], [], 0)
    {
      log, buffer, lastFlushed := [], [], 0;
    }

    method Append(r: LogRecord)
      modifies this
      ensures View() == old(View()).(records := old(log) + [r])
    {
      log := log + [r];
    }

    /** Erases the records with an id of at most `t`, from the front. */
    method EraseThrough(t: nat)
      modifies this
      ensures View() == EraseUpto(old(View()), t)
    {
      var i := 0;
      while i < |log| && log[i].txnId <= t
        invariant 0 <= i <= |log|
        invariant forall j :: 0 <= j < i ==> log[j].txnId <= t
      {
        i := i + 1;
      }
      UptoStep(log, t, i);
      log := log[i..];
    }

    method ScanThrough(t: nat) returns (found: seq<LogRecord>)
      ensures found == log[..Upto(log, t)]
    {
      found := [];
      var i := 0;
      while i < |log| && log[i].txnId <= t
        invariant 0 <= i <= |log| && found == log[..i]
        invariant forall j :: 0 <= j < i ==> log[j].txnId <= t
      {
        found := found + [log[i]];
        i := i + 1;
      }
      UptoStep(log, t, i);
    }

    method GetLogBufferSize() returns (n: nat)
      ensures n == BufferSize(buffer)
    {
      n := 0;
      for i := 0 to |buffer|
        invariant n == BufferSize(buffer[..i])
      {
        assert buffer[..i+1][..i] == buffer[..i];
        n := n + EntitySize(buffer[i]);
      }
      assert buffer[..|buffer|] == buffer;
    }

    method SkipFlushed() returns (it: nat)
      ensures it == FlushStart(View())
    {
      it := 0;
      if lastFlushed != 0 {
        while it < |log| && log[it].txnId <= lastFlushed
          invariant 0 <= it <= |log|
          invariant forall j :: 0 <= j < it ==> log[j].txnId <= lastFlushed
        {
          it := it + 1;
        }
        UptoStep(log, lastFlushed, it);
      }
    }

    /** Queues the records from position `begin` on, until `bytes` are buffered. */
    method QueueFrom(begin: nat, bytes: nat) returns (existing: nat)
      requires begin <= |log|
      modifies this`buffer
      ensures buffer == old(buffer) + log[begin..][..Fill(log[begin..], BufferSize(old(buffer)), bytes)]
      ensures existing == BufferSize(buffer)
    {
      existing := GetLogBufferSize();
      EnqueueFills(buffer, log[begin..], bytes);
      var it := begin;
      while it < |log|
        invariant begin <= it <= |log| && existing == BufferSize(buffer)
        invariant Enqueue(buffer, log[it..], bytes) == Enqueue(old(buffer), log[begin..], bytes)
      {
        assert log[it..][1..] == log[it+1..];
        BufferSizeStep(buffer, log[it]);
        buffer := buffer + [log[it]];
        existing := existing + EntitySize(log[it]);
        it := it + 1;
        if existing >= bytes {
          return;
        }
      }
    }

    /** Queues unflushed records until `bytes` are buffered, and writes the buffer when it is full or on demand. */
    method Flush(bytes: nat, force: bool) returns (chunk: Option<seq<LogRecord>>)
      requires CanFlush(View(), bytes, force)
      modifies this
      ensures (View(), chunk) == FlushLog(old(View()), bytes, force)
      ensures chunk.Some? <==> force || BufferSize(Queued(old(View()), bytes)) >= bytes
      ensures chunk.Some? ==> chunk.value == Queued(old(View()), bytes) && buffer == [] && lastFlushed == chunk.value[|chunk.value|-1].txnId
    {
      var it := SkipFlushed();
      var existing := QueueFrom(it, bytes);
      assert buffer == Queued(old(View()), bytes);
      chunk := None;
      if existing >= bytes || force {
        lastFlushed := buffer[|buffer|-1].txnId;
        chunk := Some(buffer);
        buffer := [];
      }
    }
  }
}
