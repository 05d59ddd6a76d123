/**
 * Runs of one index: updates that are only logged, merges that re-apply records which are
 * still in the log, flushes that may queue a record twice, and trimming. Over every run the
 * lazy, repeating scheme agrees with a plain eager index.
 */
module DeferredIndex {
  import opened Base
  import opened Numerals
  import opened IndexOps
  import opened RangeIndexes
  import opened LogManagers
  import opened IndexWrappers

  /** The atomic steps of a wrapper. `flush_log` is a flush followed by a trim; a search starts with a merge. */
  datatype Event =
    | Update(record: LogRecord)
    | Merge(txn: nat)
    | Flush(bytes: nat, force: bool)
    | Trim
    | SetStatus(status: Status)

  /**
   * A wrapper with history variables, which no step reads to decide anything:
   * every record ever appended, and positions in it. The first `erased` have left the log; `flushed` and
   * `trusted` are where the last written flush and the last successful merge ended; `merged` is the furthest
   * any merge has reached and `highest` the highest id of a merge; `rounds` are the ends of the queueing
   * rounds since the last written flush.
   */
  datatype Sys = Sys(w: Wrapper, history: seq<LogRecord>, erased: nat, flushed: nat, trusted: nat, merged: nat,
                     highest: nat, rounds: seq<nat>)

  const START: Sys := Sys(FRESH, [], 0, 0, 0, 0, 0, [])

  /** The least transaction id that may come next: ids start at 1 and increase. */
  function NextId(h: seq<LogRecord>): nat { if h == [] then 1 else h[|h|-1].txnId + 1 }

  /**
   * What callers owe: increasing transaction ids, an update that is newer than the last merge,
   * and a flush that is to write has a record to write.
   */
  predicate Allowed(s: Sys, ev: Event) {
    match ev
    case Update(r) => NextId(s.history) <= r.txnId && s.w.lastMerged < r.txnId
    case Flush(bytes, force) => CanFlush(s.w.log, bytes, force)
    case _ => true
  }

  function Larger(a: nat, b: nat): nat { if a < b then b else a }

  function LastOr(ks: seq<nat>, f: nat): nat { if ks == [] then f else ks[|ks|-1] }

  /** Where the queueing of a flush ends, if it queues anything. */
  function NextRounds(s: Sys, bytes: nat): seq<nat> {
    var n := Fill(s.w.log.records[FlushStart(s.w.log)..], BufferSize(s.w.log.buffer), bytes);
    if n == 0 then s.rounds else s.rounds + [s.flushed + n]
  }

  function Step(t: IntType, s: Sys, ev: Event): Sys
    requires Allowed(s, ev)
  {
    match ev
    case Update(r) => s.(w := UpdateState(t, false, s.w, r).0, history := s.history + [r])
    case Merge(txn) =>
      var reached := s.erased + Upto(s.w.log.records, txn);
      var (w, outcome) := MergeState(t, s.w, txn);
      if outcome.UnderMigration? then s
      else s.(w := w, merged := Larger(s.merged, reached), highest := Larger(s.highest, txn),
              trusted := if outcome.Done? then reached else s.trusted)
    case Flush(bytes, force) =>
      var w, rounds := FlushState(s.w, bytes, force), NextRounds(s, bytes);
      if WritesChunk(s.w.log, bytes, force) then s.(w := w, flushed := LastOr(rounds, s.flushed), rounds := [])
      else s.(w := w, rounds := rounds)
    case Trim => s.(w := TrimState(s.w),
                    erased := s.erased + Upto(s.w.log.records, Min(s.w.lastMerged, s.w.log.lastFlushed)))
    case SetStatus(st) => s.(w := s.w.(status := st))
  }

  predicate Possible(t: IntType, evs: seq<Event>)
    decreases |evs|, 0
  {
    evs == [] || (Possible(t, evs[..|evs|-1]) && Allowed(Run(t, evs[..|evs|-1]), evs[|evs|-1]))
  }

  function Run(t: IntType, evs: seq<Event>): Sys
    requires Possible(t, evs)
    decreases |evs|, 1
  {
    if evs == [] then START else Step(t, Run(t, evs[..|evs|-1]), evs[|evs|-1])
  }

  // ---------------------------------------------------------------- the log against the history

  predicate Increasing(h: seq<LogRecord>) {
    h == [] || (Increasing(h[..|h|-1]) && NextId(h[..|h|-1]) <= h[|h|-1].txnId)
  }

  lemma {:induction false} IncreasingPair(h: seq<LogRecord>, i: nat, j: nat)
    requires Increasing(h) && i < j < |h|
    ensures h[i].txnId < h[j].txnId
  {
    if j < |h| - 1 {
      IncreasingPair(h[..|h|-1], i, j);
    } else if i < j - 1 {
      IncreasingPair(h[..|h|-1], i, j - 1);
    }
  }

  /** The log is what is left of the history, and positions agree with the ids the wrapper keeps. */
  predicate Fits(records: seq<LogRecord>, lastFlushed: nat, lastMerged: nat, h: seq<LogRecord>,
                 erased: nat, flushed: nat, trusted: nat, merged: nat, highest: nat) {
    && erased <= trusted <= merged <= |h|
    && erased <= flushed <= |h|
    && records == h[erased..]
    && (trusted < |h| ==> lastMerged < h[trusted].txnId)
    && (merged > 0 ==> h[merged-1].txnId <= highest)
    && lastFlushed == (if flushed == 0 then 0 else h[flushed-1].txnId)
  }

  predicate LogInv(s: Sys) {
    Fits(s.w.log.records, s.w.log.lastFlushed, s.w.lastMerged, s.history,
         s.erased, s.flushed, s.trusted, s.merged, s.highest)
  }

  lemma UptoIs(h: seq<LogRecord>, t: nat, n: nat)
    requires n <= |h| && (forall i :: 0 <= i < n ==> h[i].txnId <= t) && (n < |h| ==> t < h[n].txnId)
    ensures Upto(h, t) == n
  {
    UptoStep(h, t, n);
  }

  /** Looking up, in what is left of an increasing history, the id at its position `f`. */
  lemma UptoPosition(h: seq<LogRecord>, e: nat, f: nat)
    requires Increasing(h) && e <= f <= |h| && f > 0
    ensures Upto(h[e..], h[f-1].txnId) == f - e
  {
    forall i | 0 <= i < f - e ensures h[e..][i].txnId <= h[f-1].txnId {
      if e + i < f - 1 { IncreasingPair(h, e + i, f - 1); }
    }
    if f < |h| { IncreasingPair(h, f - 1, f); }
    UptoIs(h[e..], h[f-1].txnId, f - e);
  }

  /** Looking up an id in the history, once the trimmed records are known to be older. */
  lemma UptoShift(h: seq<LogRecord>, e: nat, t: nat)
    requires Increasing(h) && e <= |h| && (e > 0 ==> h[e-1].txnId <= t)
    ensures Upto(h, t) == e + Upto(h[e..], t)
  {
    var n := Upto(h[e..], t);
    UptoSpec(h[e..], t);
    forall i | 0 <= i < e + n ensures h[i].txnId <= t {
      if i < e - 1 { IncreasingPair(h, i, e - 1); }
      if e <= i { assert h[i] == h[e..][i - e]; }
    }
    if e + n < |h| { assert h[e..][n] == h[e + n]; }
    UptoIs(h, t, e + n);
  }

  lemma FlushStartIs(s: Sys)
    requires Increasing(s.history) && LogInv(s)
    ensures s.w.log.records[FlushStart(s.w.log)..] == s.history[s.flushed..]
  {
    FlushPosition(s.history, s.erased, s.flushed, s.w.log.lastFlushed);
    DropTwice(s.history, s.erased, s.flushed);
  }

  lemma FlushPosition(h: seq<LogRecord>, e: nat, f: nat, lastFlushed: nat)
    requires Increasing(h) && e <= f <= |h| && lastFlushed == if f == 0 then 0 else h[f-1].txnId
    ensures (if lastFlushed == 0 then 0 else Upto(h[e..], lastFlushed)) == f - e
  {
    if f > 0 {
      UptoPosition(h, e, f);
      IncreasingPositive(h, f - 1);
    }
  }

  lemma DropTwice(h: seq<LogRecord>, e: nat, f: nat)
    requires e <= f <= |h|
    ensures h[e..][f - e..] == h[f..]
  {
  }

  lemma {:induction false} IncreasingPositive(h: seq<LogRecord>, i: nat)
    requires Increasing(h) && i < |h|
    ensures 0 < h[i].txnId
  {
    if i < |h| - 1 { IncreasingPositive(h[..|h|-1], i); }
  }

  /** Scanning the log for a merge, in terms of the history. */
  lemma ScanReaches(h: seq<LogRecord>, e: nat, txn: nat)
    requires e <= |h|
    ensures var j := e + Upto(h[e..], txn);
            && e <= j <= |h|
            && (j < |h| ==> txn < h[j].txnId)
            && (e < j ==> h[j-1].txnId <= txn)
  {
    UptoSpec(h[e..], txn);
  }

  // ---------------------------------------------------------------- merging

  /** The writes of a stretch of the history. */
  function W(t: IntType, h: seq<LogRecord>, i: nat, j: nat): Batch
    requires i <= j <= |h|
  {
    Writes(t, h[i..j])
  }

  lemma WSplit(t: IntType, h: seq<LogRecord>, i: nat, j: nat, k: nat)
    requires i <= j <= k <= |h|
    ensures W(t, h, i, k) == W(t, h, i, j).Then(W(t, h, j, k))
  {
    assert h[i..k] == h[i..j] + h[j..k];
    WritesConcat(t, h[i..j], h[j..k]);
  }

  /**
   * The merge invariant: the index becomes the eager index of the first `m` records once those from the
   * trusted point `g` to `m` are applied to it.
   */
  ghost predicate Settles(t: IntType, idx: Index, h: seq<LogRecord>, g: nat, m: nat)
    requires g <= m <= |h|
  {
    && Tight(idx)
    && W(t, h, 0, g).ok
    && ApplyAll(idx, W(t, h, g, m).writes) == Eager(W(t, h, 0, m).writes)
  }

  /** Starting further back changes nothing: the older records are absorbed. */
  lemma SettlesFrom(t: IntType, idx: Index, h: seq<LogRecord>, e: nat, g: nat, m: nat)
    requires e <= g <= m <= |h| && Settles(t, idx, h, g, m)
    ensures Settles(t, idx, h, e, m)
  {
    var base := Eager(W(t, h, 0, e).writes);
    WSplit(t, h, 0, e, g);
    WSplit(t, h, 0, g, m);
    WSplit(t, h, 0, e, m);
    WSplit(t, h, e, g, m);
    ApplyAllTight(map[], W(t, h, 0, e).writes);
    ApplyAllConcat(map[], W(t, h, 0, e).writes, W(t, h, e, m).writes);
    Absorb(idx, base, W(t, h, e, g).writes, W(t, h, g, m).writes);
  }

  /** And so does going on further. */
  lemma SettlesUpto(t: IntType, idx: Index, h: seq<LogRecord>, e: nat, m: nat, m': nat)
    requires e <= m <= m' <= |h| && Settles(t, idx, h, e, m)
    ensures Settles(t, idx, h, e, m')
  {
    WSplit(t, h, 0, m, m');
    WSplit(t, h, 0, e, m);
    WSplit(t, h, e, m, m');
    if W(t, h, e, m).ok {
      ApplyAllConcat(idx, W(t, h, e, m).writes, W(t, h, m, m').writes);
      ApplyAllConcat(map[], W(t, h, 0, m).writes, W(t, h, m, m').writes);
    }
  }

  /** Applying the records from `e` to `j` moves the trusted point to `j`, if they are well formed. */
  lemma SettlesApply(t: IntType, idx: Index, h: seq<LogRecord>, e: nat, j: nat, m: nat)
    requires e <= j <= m <= |h| && Settles(t, idx, h, e, m) && W(t, h, e, j).ok
    ensures Settles(t, ApplyAll(idx, W(t, h, e, j).writes), h, j, m)
  {
    ApplyAllTight(idx, W(t, h, e, j).writes);
    WSplit(t, h, 0, e, j);
    WSplit(t, h, e, j, m);
    ApplyAllConcat(idx, W(t, h, e, j).writes, W(t, h, j, m).writes);
  }

  /** If they are not, everything before the malformed update is in place, for good. */
  lemma SettlesStuck(t: IntType, idx: Index, h: seq<LogRecord>, e: nat, g: nat, j: nat, m: nat)
    requires e <= j <= m <= |h| && e <= g <= m && W(t, h, 0, g).ok && Settles(t, idx, h, e, m) && !W(t, h, e, j).ok
    ensures ApplyAll(idx, W(t, h, e, j).writes) == Eager(W(t, h, 0, m).writes)
    ensures Settles(t, ApplyAll(idx, W(t, h, e, j).writes), h, g, m)
  {
    ApplyAllTight(idx, W(t, h, e, j).writes);
    WSplit(t, h, e, j, m);
    WSplit(t, h, 0, g, m);
    ApplyAllConcat(map[], W(t, h, 0, g).writes, W(t, h, g, m).writes);
    ApplyAllTight(map[], W(t, h, 0, g).writes);
    Idempotent(Eager(W(t, h, 0, g).writes), W(t, h, g, m).writes);
  }

  ghost predicate MergeInv(t: IntType, s: Sys)
    requires LogInv(s)
  {
    Settles(t, s.w.index, s.history, s.trusted, s.merged)
  }

  /** Where the scan of a merge ends. */
  ghost predicate Reaches(s: Sys, txn: nat, j: nat) {
    && s.erased <= j <= |s.history|
    && (j < |s.history| ==> txn < s.history[j].txnId)
    && (s.erased < j ==> s.history[j-1].txnId <= txn)
  }

  /** What a merge does to the history variables. */
  ghost predicate Merged(t: IntType, s: Sys, s': Sys, txn: nat, j: nat)
    requires s.erased <= j <= |s.history|
  {
    var b := W(t, s.history, s.erased, j);
    && s' == s.(w := s'.w, merged := Larger(s.merged, j), highest := Larger(s.highest, txn),
                trusted := if b.ok then j else s.trusted)
    && s'.w == s.w.(index := ApplyAll(s.w.index, b.writes), lastMerged := if b.ok then txn else s.w.lastMerged,
                    dirty := s'.w.dirty)
  }

  lemma MergeFields(t: IntType, s: Sys, txn: nat) returns (j: nat)
    requires LogInv(s) && s.w.status.NORMAL?
    ensures Reaches(s, txn, j) && Merged(t, s, Step(t, s, Merge(txn)), txn, j)
    ensures j == s.erased + Upto(s.w.log.records, txn)
  {
    j := s.erased + Upto(s.w.log.records, txn);
    ScanReaches(s.history, s.erased, txn);
    LogSlice(s, j);
    MergeIs(t, s, txn, j);
  }

  lemma MergeIs(t: IntType, s: Sys, txn: nat, j: nat)
    requires s.w.status.NORMAL? && s.erased <= j <= |s.history| && j == s.erased + Upto(s.w.log.records, txn)
    requires s.w.log.records[..j - s.erased] == s.history[s.erased..j]
    ensures Merged(t, s, Step(t, s, Merge(txn)), txn, j)
  {
  }

  lemma MergeKeepsLogInv(t: IntType, s: Sys, s': Sys, txn: nat, j: nat)
    requires LogInv(s) && Reaches(s, txn, j) && Merged(t, s, s', txn, j)
    ensures LogInv(s')
  {
  }

  lemma MergeKeepsMergeInv(t: IntType, s: Sys, s': Sys, txn: nat, j: nat)
    requires LogInv(s) && MergeInv(t, s) && Reaches(s, txn, j) && Merged(t, s, s', txn, j) && LogInv(s')
    ensures MergeInv(t, s')
  {
    var h, e := s.history, s.erased;
    SettlesFrom(t, s.w.index, h, e, s.trusted, s.merged);
    SettlesUpto(t, s.w.index, h, e, s.merged, s'.merged);
    if W(t, h, e, j).ok {
      SettlesApply(t, s.w.index, h, e, j, s'.merged);
    } else {
      SettlesStuck(t, s.w.index, h, e, s.trusted, j, s'.merged);
    }
  }

  /** A trim cannot pass a record newer than its bound. */
  lemma TrimStops(h: seq<LogRecord>, e: nat, bound: nat, limit: nat)
    requires e <= limit <= |h| && (limit < |h| ==> bound < h[limit].txnId)
    ensures e + Upto(h[e..], bound) <= limit
    ensures h[e..][Upto(h[e..], bound)..] == h[e + Upto(h[e..], bound)..]
  {
    UptoSpec(h[e..], bound);
    if limit < |h| { assert h[e..][limit - e] == h[limit]; }
  }

  lemma TrimKeepsLogInv(s: Sys, s': Sys, n: nat)
    requires LogInv(s) && s.erased + n <= s.trusted && s.erased + n <= s.flushed
    requires s' == Trimmed(s, n)
    ensures LogInv(s')
  {
  }

  function Trimmed(s: Sys, n: nat): Sys
    requires s.erased + n <= |s.history|
  {
    s.(w := s.w.(log := s.w.log.(records := s.history[s.erased + n..])), erased := s.erased + n)
  }

  lemma TrimIs(t: IntType, s: Sys, n: nat)
    requires n == Upto(s.w.log.records, Min(s.w.lastMerged, s.w.log.lastFlushed)) && s.erased + n <= |s.history|
    requires s.w.log.records[n..] == s.history[s.erased + n..]
    ensures Step(t, s, Trim) == Trimmed(s, n)
  {
  }

  /** Every record past the flushed point is newer than the last flushed id. */
  lemma UnflushedIsNewer(s: Sys)
    requires Increasing(s.history) && LogInv(s) && s.flushed < |s.history|
    ensures s.w.log.lastFlushed < s.history[s.flushed].txnId
  {
    if s.flushed > 0 {
      IncreasingPair(s.history, s.flushed - 1, s.flushed);
    } else {
      IncreasingPositive(s.history, 0);
    }
  }

  lemma TrimBounds(s: Sys) returns (n: nat)
    requires Increasing(s.history) && LogInv(s)
    ensures n == Upto(s.w.log.records, Min(s.w.lastMerged, s.w.log.lastFlushed))
    ensures s.erased + n <= s.trusted && s.erased + n <= s.flushed
    ensures s.w.log.records[n..] == s.history[s.erased + n..]
  {
    if s.flushed < |s.history| { UnflushedIsNewer(s); }
    n := Trims(s.history, s.erased, s.flushed, s.trusted, s.w.lastMerged, s.w.log.lastFlushed);
  }

  lemma Trims(h: seq<LogRecord>, e: nat, f: nat, g: nat, lastMerged: nat, lastFlushed: nat) returns (n: nat)
    requires e <= f <= |h| && (f < |h| ==> lastFlushed < h[f].txnId)
    requires e <= g <= |h| && (g < |h| ==> lastMerged < h[g].txnId)
    ensures n == Upto(h[e..], Min(lastMerged, lastFlushed)) && e + n <= f && e + n <= g && h[e..][n..] == h[e + n..]
  {
    var bound := Min(lastMerged, lastFlushed);
    n := Upto(h[e..], bound);
    TrimStops(h, e, bound, f);
    TrimStops(h, e, bound, g);
  }

  lemma UpdateKeepsLogInv(s: Sys, s': Sys, r: LogRecord)
    requires LogInv(s) && NextId(s.history) <= r.txnId && s.w.lastMerged < r.txnId
    requires s' == s.(w := s.w.(log := s.w.log.(records := s.w.log.records + [r]), dirty := true), history := s.history + [r])
    ensures LogInv(s')
  {
    assert s.history[s.erased..] + [r] == s'.history[s.erased..];
  }

  lemma UpdateKeepsMergeInv(t: IntType, idx: Index, h: seq<LogRecord>, r: LogRecord, g: nat, m: nat)
    requires g <= m <= |h| && Settles(t, idx, h, g, m)
    ensures Settles(t, idx, h + [r], g, m)
  {
    var h' := h + [r];
    assert h'[0..g] == h[0..g] && h'[g..m] == h[g..m] && h'[0..m] == h[0..m];
  }

  // ---------------------------------------------------------------- flushing

  /** Two batches that no index can tell apart, whatever follows them. */
  ghost predicate Same(a: Batch, b: Batch) {
    a.ok == b.ok && forall k, o :: LastWrite(a.writes, k, o) == LastWrite(b.writes, k, o)
  }

  lemma SameEager(a: Batch, b: Batch)
    requires Same(a, b)
    ensures Eager(a.writes) == Eager(b.writes)
  {
    ApplyAllTight(map[], a.writes);
    ApplyAllTight(map[], b.writes);
    forall k, o ensures Has(Eager(a.writes), k, o) <==> Has(Eager(b.writes), k, o) {
      LastWriterWins(map[], a.writes, k, o);
      LastWriterWins(map[], b.writes, k, o);
    }
    SamePairsSameIndex(Eager(a.writes), Eager(b.writes));
  }

  lemma SameThen(a: Batch, b: Batch, c: Batch)
    requires Same(a, b)
    ensures Same(a.Then(c), b.Then(c))
  {
    forall k, o ensures LastWrite(a.Then(c).writes, k, o) == LastWrite(b.Then(c).writes, k, o) {
      LastWriteConcat(a.writes, c.writes, k, o);
      LastWriteConcat(b.writes, c.writes, k, o);
    }
  }

  /** Records that are about to be replayed anyway may be replayed once more before. */
  lemma AbsorbRecords(t: IntType, x: seq<LogRecord>, p: seq<LogRecord>, q: seq<LogRecord>)
    ensures Same(Writes(t, (x + p) + (p + q)), Writes(t, x + (p + q)))
  {
    var bx, bp, bq := Writes(t, x), Writes(t, p), Writes(t, q);
    WritesConcat(t, x + p, p + q);
    WritesConcat(t, x, p);
    WritesConcat(t, x, p + q);
    WritesConcat(t, p, q);
    var twice, once := Writes(t, (x + p) + (p + q)), Writes(t, x + (p + q));
    if bx.ok && bp.ok {
      forall k, o ensures LastWrite(twice.writes, k, o) == LastWrite(once.writes, k, o) {
        LastWriteConcat(bx.writes + bp.writes, bp.writes + bq.writes, k, o);
        LastWriteConcat(bx.writes, bp.writes, k, o);
        LastWriteConcat(bx.writes, bp.writes + bq.writes, k, o);
        LastWriteConcat(bp.writes, bq.writes, k, o);
      }
    }
  }

  function Flatten(chunks: seq<seq<LogRecord>>): seq<LogRecord> {
    if chunks == [] then [] else Flatten(chunks[..|chunks|-1]) + chunks[|chunks|-1]
  }

  predicate RoundsFit(h: seq<LogRecord>, f: nat, ks: seq<nat>) {
    f <= |h| && forall i :: 0 <= i < |ks| ==> f < ks[i] <= |h|
  }

  /** What the pending rounds have queued: each one started again from the first unflushed record. */
  function Rounds(h: seq<LogRecord>, f: nat, ks: seq<nat>): seq<LogRecord>
    requires RoundsFit(h, f, ks)
  {
    if ks == [] then [] else Rounds(h, f, ks[..|ks|-1]) + h[f..ks[|ks|-1]]
  }

  /**
   * The flush invariant: the buffer is what the pending rounds queued, the written records `c` followed by the
   * unflushed ones replay like the history, and every flushed record is among the written ones.
   */
  ghost predicate Persisted(t: IntType, h: seq<LogRecord>, f: nat, ks: seq<nat>, buffer: seq<LogRecord>,
                            c: seq<LogRecord>) {
    && RoundsFit(h, f, ks)
    && buffer == Rounds(h, f, ks)
    && Same(Writes(t, c + h[f..]), Writes(t, h))
    && (forall i :: 0 <= i < f ==> h[i] in c)
  }

  ghost predicate FlushInv(t: IntType, s: Sys) {
    Persisted(t, s.history, s.flushed, s.rounds, s.w.log.buffer, Flatten(s.w.chunks))
  }

  /** Queueing rounds written out before the unflushed records do not change the replay. */
  lemma {:induction false} Collapse(t: IntType, c: seq<LogRecord>, h: seq<LogRecord>, f: nat, ks: seq<nat>)
    requires RoundsFit(h, f, ks)
    ensures Same(Writes(t, (c + Rounds(h, f, ks)) + h[f..]), Writes(t, c + h[f..]))
    decreases |ks|
  {
    if ks == [] {
      assert c + Rounds(h, f, ks) == c;
    } else {
      var n := |ks| - 1;
      Collapse(t, c, h, f, ks[..n]);
      CollapseMore(t, c + Rounds(h, f, ks[..n]), c + h[f..], h, f, ks[n]);
      RoundsLast(h, f, ks);
      Associate(c, Rounds(h, f, ks[..n]), h[f..ks[n]]);
    }
  }

  lemma RoundsLast(h: seq<LogRecord>, f: nat, ks: seq<nat>)
    requires RoundsFit(h, f, ks) && ks != []
    ensures Rounds(h, f, ks) == Rounds(h, f, ks[..|ks|-1]) + h[f..ks[|ks|-1]]
  {
  }

  lemma Associate(a: seq<LogRecord>, b: seq<LogRecord>, c: seq<LogRecord>)
    ensures a + (b + c) == (a + b) + c
  {
  }

  lemma CollapseMore(t: IntType, x: seq<LogRecord>, y: seq<LogRecord>, h: seq<LogRecord>, f: nat, k: nat)
    requires f <= k <= |h| && Same(Writes(t, x + h[f..]), Writes(t, y))
    ensures Same(Writes(t, (x + h[f..k]) + h[f..]), Writes(t, y))
  {
    CollapseRound(t, x, h, f, k);
    SameTransitive(Writes(t, (x + h[f..k]) + h[f..]), Writes(t, x + h[f..]), Writes(t, y));
  }

  lemma CollapseRound(t: IntType, x: seq<LogRecord>, h: seq<LogRecord>, f: nat, k: nat)
    requires f <= k <= |h|
    ensures Same(Writes(t, (x + h[f..k]) + h[f..]), Writes(t, x + h[f..]))
  {
    assert h[f..] == h[f..k] + h[k..];
    AbsorbRecords(t, x, h[f..k], h[k..]);
  }

  lemma {:induction false} RoundsPrefix(h: seq<LogRecord>, r: LogRecord, f: nat, ks: seq<nat>)
    requires RoundsFit(h, f, ks)
    ensures Rounds(h + [r], f, ks) == Rounds(h, f, ks)
  {
    if ks != [] {
      var n := |ks| - 1;
      RoundsPrefix(h, r, f, ks[..n]);
      assert (h + [r])[f..ks[n]] == h[f..ks[n]];
    }
  }

  lemma PersistedAppend(t: IntType, h: seq<LogRecord>, f: nat, ks: seq<nat>, buffer: seq<LogRecord>,
                        c: seq<LogRecord>, r: LogRecord)
    requires Persisted(t, h, f, ks, buffer, c)
    ensures Persisted(t, h + [r], f, ks, buffer, c)
  {
    RoundsPrefix(h, r, f, ks);
    assert c + (h + [r])[f..] == (c + h[f..]) + [r];
    WritesConcat(t, c + h[f..], [r]);
    WritesConcat(t, h, [r]);
    SameThen(Writes(t, c + h[f..]), Writes(t, h), Writes(t, [r]));
  }

  /** Writing the queued rounds out moves the flushed point to the end of the last of them. */
  lemma PersistedWrite(t: IntType, h: seq<LogRecord>, f: nat, ks: seq<nat>, buffer: seq<LogRecord>, c: seq<LogRecord>)
    requires Persisted(t, h, f, ks, buffer, c) && ks != []
    ensures Persisted(t, h, ks[|ks|-1], [], [], c + buffer)
    ensures buffer != [] && buffer[|buffer|-1] == h[ks[|ks|-1] - 1]
  {
    WriteReplays(t, h, f, ks, c);
    WrittenPart(h, f, ks, c);
    PersistedAt(t, h, ks[|ks|-1], c + buffer);
  }

  /** Rounds written out hold every record up to the end of the last of them, and end with it. */
  lemma WrittenPart(h: seq<LogRecord>, f: nat, ks: seq<nat>, c: seq<LogRecord>)
    requires RoundsFit(h, f, ks) && ks != [] && forall i :: 0 <= i < f ==> h[i] in c
    ensures forall i :: 0 <= i < ks[|ks|-1] ==> h[i] in c + Rounds(h, f, ks)
    ensures var q := Rounds(h, f, ks); q != [] && q[|q|-1] == h[ks[|ks|-1] - 1]
  {
    var n := |ks| - 1;
    RoundsLast(h, f, ks);
    WrittenRecords(h, f, ks[n], c, Rounds(h, f, ks[..n]));
    LastQueued(h, f, ks[n], Rounds(h, f, ks[..n]), Rounds(h, f, ks));
  }

  lemma PersistedAt(t: IntType, h: seq<LogRecord>, k: nat, c: seq<LogRecord>)
    requires k <= |h| && Same(Writes(t, c + h[k..]), Writes(t, h)) && forall i :: 0 <= i < k ==> h[i] in c
    ensures Persisted(t, h, k, [], [], c)
  {
  }

  lemma LastQueued(h: seq<LogRecord>, f: nat, k: nat, r: seq<LogRecord>, buffer: seq<LogRecord>)
    requires f < k <= |h| && buffer == r + h[f..k]
    ensures buffer != [] && buffer[|buffer|-1] == h[k-1]
  {
  }

  lemma WriteReplays(t: IntType, h: seq<LogRecord>, f: nat, ks: seq<nat>, c: seq<LogRecord>)
    requires RoundsFit(h, f, ks) && ks != [] && Same(Writes(t, c + h[f..]), Writes(t, h))
    ensures Same(Writes(t, (c + Rounds(h, f, ks)) + h[ks[|ks|-1]..]), Writes(t, h))
  {
    var n := |ks| - 1;
    var r := Rounds(h, f, ks[..n]);
    Regroup(c, r, h, f, ks[n]);
    Collapse(t, c, h, f, ks[..n]);
    SameTransitive(Writes(t, (c + r) + h[f..]), Writes(t, c + h[f..]), Writes(t, h));
  }

  lemma Regroup(c: seq<LogRecord>, r: seq<LogRecord>, h: seq<LogRecord>, f: nat, k: nat)
    requires f <= k <= |h|
    ensures (c + (r + h[f..k])) + h[k..] == (c + r) + h[f..]
  {
    assert h[f..] == h[f..k] + h[k..];
  }

  lemma SameTransitive(a: Batch, b: Batch, c: Batch)
    requires Same(a, b) && Same(b, c)
    ensures Same(a, c)
  {
  }

  lemma WrittenRecords(h: seq<LogRecord>, f: nat, k: nat, c: seq<LogRecord>, r: seq<LogRecord>)
    requires f <= k <= |h| && forall i :: 0 <= i < f ==> h[i] in c
    ensures forall i :: 0 <= i < k ==> h[i] in c + (r + h[f..k])
  {
    forall i | 0 <= i < k ensures h[i] in c + (r + h[f..k]) {
      if f <= i { assert h[f..k][i - f] == h[i]; }
    }
  }

  lemma PersistedQueue(t: IntType, h: seq<LogRecord>, f: nat, ks: seq<nat>, buffer: seq<LogRecord>,
                       c: seq<LogRecord>, n: nat)
    requires Persisted(t, h, f, ks, buffer, c) && n <= |h| - f
    ensures Persisted(t, h, f, if n == 0 then ks else ks + [f + n], buffer + h[f..][..n], c)
  {
    assert h[f..][..n] == h[f..f + n];
    if n == 0 {
      assert buffer + h[f..][..n] == buffer;
    } else {
      assert (ks + [f + n])[..|ks|] == ks;
    }
  }

  lemma FlushTerms(s: Sys, bytes: nat) returns (n: nat)
    requires Increasing(s.history) && LogInv(s)
    ensures n <= |s.history| - s.flushed
    ensures NextRounds(s, bytes) == if n == 0 then s.rounds else s.rounds + [s.flushed + n]
    ensures Queued(s.w.log, bytes) == s.w.log.buffer + s.history[s.flushed..][..n]
  {
    FlushStartIs(s);
    n := QueuedCount(s, s.history[s.flushed..], bytes);
  }

  lemma QueuedCount(s: Sys, unflushed: seq<LogRecord>, bytes: nat) returns (n: nat)
    requires s.w.log.records[FlushStart(s.w.log)..] == unflushed
    ensures n <= |unflushed|
    ensures NextRounds(s, bytes) == if n == 0 then s.rounds else s.rounds + [s.flushed + n]
    ensures Queued(s.w.log, bytes) == s.w.log.buffer + unflushed[..n]
  {
    n := Fill(unflushed, BufferSize(s.w.log.buffer), bytes);
  }

  lemma FlushKeepsLogInv(s: Sys, s': Sys, k: nat)
    requires LogInv(s) && s.flushed < k <= |s.history|
    requires s'.history == s.history && s'.erased == s.erased && s'.trusted == s.trusted && s'.merged == s.merged
    requires s'.highest == s.highest && s'.w.lastMerged == s.w.lastMerged && s'.w.log.records == s.w.log.records
    requires s'.flushed == k && s'.w.log.lastFlushed == s.history[k-1].txnId
    ensures LogInv(s')
  {
  }

  lemma FlattenMore(chunks: seq<seq<LogRecord>>, q: seq<LogRecord>)
    ensures Flatten(chunks + [q]) == Flatten(chunks) + q
  {
    assert (chunks + [q])[..|chunks|] == chunks;
  }

  /** A flush that writes: the queued rounds become a chunk. */
  lemma WriteStep(t: IntType, s: Sys, s': Sys, ks: seq<nat>, q: seq<LogRecord>)
    requires LogInv(s) && Persisted(t, s.history, s.flushed, ks, q, Flatten(s.w.chunks)) && q != []
    requires s' == Written(s, ks, q)
    ensures LogInv(s') && FlushInv(t, s')
  {
    PersistedWrite(t, s.history, s.flushed, ks, q, Flatten(s.w.chunks));
    FlattenMore(s.w.chunks, q);
    WriteKeepsLogInv(s, s', ks, q);
  }

  lemma WriteKeepsLogInv(s: Sys, s': Sys, ks: seq<nat>, q: seq<LogRecord>)
    requires LogInv(s) && q != [] && ks != [] && s.flushed < ks[|ks|-1] <= |s.history|
    requires q[|q|-1] == s.history[ks[|ks|-1] - 1] && s' == Written(s, ks, q)
    ensures LogInv(s')
  {
    FlushKeepsLogInv(s, s', ks[|ks|-1]);
  }

  function Written(s: Sys, ks: seq<nat>, q: seq<LogRecord>): Sys
    requires q != []
  {
    s.(w := s.w.(log := Log(s.w.log.records, [], q[|q|-1].txnId), chunks := s.w.chunks + [q]),
       flushed := LastOr(ks, s.flushed), rounds := [])
  }

  /** A flush that only queues. */
  lemma QueueStep(t: IntType, s: Sys, s': Sys, ks: seq<nat>, q: seq<LogRecord>)
    requires LogInv(s) && Persisted(t, s.history, s.flushed, ks, q, Flatten(s.w.chunks))
    requires s' == s.(w := s.w.(log := s.w.log.(buffer := q)), rounds := ks)
    ensures LogInv(s') && FlushInv(t, s')
  {
  }

  lemma FlushFields(t: IntType, s: Sys, bytes: nat, force: bool, ks: seq<nat>, q: seq<LogRecord>)
    requires CanFlush(s.w.log, bytes, force) && ks == NextRounds(s, bytes) && q == Queued(s.w.log, bytes)
    ensures WritesChunk(s.w.log, bytes, force) ==> q != [] && Step(t, s, Flush(bytes, force)) == Written(s, ks, q)
    ensures !WritesChunk(s.w.log, bytes, force) ==>
              Step(t, s, Flush(bytes, force)) == s.(w := s.w.(log := s.w.log.(buffer := q)), rounds := ks)
  {
  }

  lemma FlushStep(t: IntType, s: Sys, s': Sys, n: nat, ks: seq<nat>, q: seq<LogRecord>, writes: bool)
    requires LogInv(s) && FlushInv(t, s) && n <= |s.history| - s.flushed
    requires ks == if n == 0 then s.rounds else s.rounds + [s.flushed + n]
    requires q == s.w.log.buffer + s.history[s.flushed..][..n]
    requires writes ==> q != [] && s' == Written(s, ks, q)
    requires !writes ==> s' == s.(w := s.w.(log := s.w.log.(buffer := q)), rounds := ks)
    ensures LogInv(s') && FlushInv(t, s')
  {
    PersistedQueue(t, s.history, s.flushed, s.rounds, s.w.log.buffer, Flatten(s.w.chunks), n);
    if writes {
      WriteStep(t, s, s', ks, q);
    } else {
      QueueStep(t, s, s', ks, q);
    }
  }

  // ---------------------------------------------------------------- every run

  ghost predicate Inv(t: IntType, s: Sys) { Increasing(s.history) && LogInv(s) && MergeInv(t, s) && FlushInv(t, s) }

  lemma UpdateStepInv(t: IntType, s: Sys, r: LogRecord, s': Sys)
    requires Inv(t, s) && Allowed(s, Update(r)) && s' == Step(t, s, Update(r))
    ensures Inv(t, s')
  {
    assert s'.history[..|s.history|] == s.history;
    UpdateKeepsLogInv(s, s', r);
    UpdateKeepsMergeInv(t, s.w.index, s.history, r, s.trusted, s.merged);
    PersistedAppend(t, s.history, s.flushed, s.rounds, s.w.log.buffer, Flatten(s.w.chunks), r);
  }

  lemma MergeStepInv(t: IntType, s: Sys, txn: nat, s': Sys)
    requires Inv(t, s) && s' == Step(t, s, Merge(txn))
    ensures Inv(t, s')
  {
    if s.w.status.NORMAL? {
      var j := MergeFields(t, s, txn);
      MergeKeepsLogInv(t, s, s', txn, j);
      MergeKeepsMergeInv(t, s, s', txn, j);
    }
  }

  lemma TrimStepInv(t: IntType, s: Sys, s': Sys)
    requires Inv(t, s) && s' == Step(t, s, Trim)
    ensures Inv(t, s')
  {
    var n := TrimBounds(s);
    TrimIs(t, s, n);
    TrimKeepsLogInv(s, s', n);
    TrimKeepsTheRest(t, s, s', n);
  }

  lemma TrimKeepsTheRest(t: IntType, s: Sys, s': Sys, n: nat)
    requires LogInv(s) && LogInv(s') && MergeInv(t, s) && FlushInv(t, s)
    requires s.erased + n <= |s.history| && s' == Trimmed(s, n)
    ensures MergeInv(t, s') && FlushInv(t, s')
  {
  }

  lemma FlushStepInv(t: IntType, s: Sys, bytes: nat, force: bool, s': Sys)
    requires Inv(t, s) && CanFlush(s.w.log, bytes, force) && s' == Step(t, s, Flush(bytes, force))
    ensures Inv(t, s')
  {
    var n := FlushTerms(s, bytes);
    var ks, q := NextRounds(s, bytes), Queued(s.w.log, bytes);
    FlushFields(t, s, bytes, force, ks, q);
    FlushStep(t, s, s', n, ks, q, WritesChunk(s.w.log, bytes, force));
  }

  lemma StepInv(t: IntType, s: Sys, ev: Event, s': Sys)
    requires Inv(t, s) && Allowed(s, ev) && s' == Step(t, s, ev)
    ensures Inv(t, s')
  {
    match ev {
      case Update(r) => UpdateStepInv(t, s, r, s');
      case Merge(txn) => MergeStepInv(t, s, txn, s');
      case Flush(bytes, force) => FlushStepInv(t, s, bytes, force, s');
      case Trim => TrimStepInv(t, s, s');
      case SetStatus(_) =>
    }
  }

  /** Every step of every run keeps the invariant. */
  lemma {:induction false} RunInv(t: IntType, evs: seq<Event>)
    requires Possible(t, evs)
    ensures Inv(t, Run(t, evs))
  {
    if evs != [] {
      RunInv(t, evs[..|evs|-1]);
      StepInv(t, Run(t, evs[..|evs|-1]), evs[|evs|-1], Run(t, evs));
    }
  }

  /** A merge not older than the earlier ones scans from the log what a look-up in the history finds. */
  lemma ScanOfLatest(s: Sys, txn: nat)
    requires Increasing(s.history) && LogInv(s) && s.highest <= txn
    ensures Upto(s.history, txn) == s.erased + Upto(s.w.log.records, txn)
    ensures s.merged <= Upto(s.history, txn)
  {
    LatestUpto(s.history, s.erased, s.merged, txn);
  }

  lemma LatestUpto(h: seq<LogRecord>, e: nat, m: nat, txn: nat)
    requires Increasing(h) && e <= m <= |h| && (m > 0 ==> h[m-1].txnId <= txn)
    ensures Upto(h, txn) == e + Upto(h[e..], txn) && m <= Upto(h, txn)
  {
    if 0 < e < m { IncreasingPair(h, e - 1, m - 1); }
    UptoShift(h, e, txn);
    UptoShift(h, m, txn);
  }

  lemma MergeOfLatest(t: IntType, s: Sys, j: nat)
    requires LogInv(s) && MergeInv(t, s) && s.merged <= j <= |s.history|
    ensures var scanned := Writes(t, s.w.log.records[..j - s.erased]);
            var all := Writes(t, s.history[..j]);
            ApplyAll(s.w.index, scanned.writes) == Eager(all.writes) && scanned.ok == all.ok
  {
    LogSlice(s, j);
    SettlesFrom(t, s.w.index, s.history, s.erased, s.trusted, s.merged);
    SettlesUpto(t, s.w.index, s.history, s.erased, s.merged, j);
    WSplit(t, s.history, 0, s.erased, j);
  }

  /**
   * After any run, a merge whose id is not below that of an earlier merge leaves exactly the eager index of
   * every update ever logged with an id of at most `txn` (up to the first malformed one), even though the
   * records still in the log have been applied before; and it succeeds exactly when none of them is malformed.
   */
  lemma MergeEqualsEager(t: IntType, evs: seq<Event>, txn: nat)
    requires Possible(t, evs)
    requires Run(t, evs).w.status.NORMAL? && Run(t, evs).highest <= txn
    ensures var s := Run(t, evs);
            var all := Writes(t, s.history[..Upto(s.history, txn)]);
            var (w, outcome) := MergeState(t, s.w, txn);
            w.index == Eager(all.writes) && (outcome.Done? <==> all.ok)
  {
    RunInv(t, evs);
    MergeFromInv(t, Run(t, evs), txn);
  }

  lemma MergeFromInv(t: IntType, s: Sys, txn: nat)
    requires Increasing(s.history) && LogInv(s) && MergeInv(t, s) && s.w.status.NORMAL? && s.highest <= txn
    ensures MergeState(t, s.w, txn).0.index == Eager(Writes(t, s.history[..Upto(s.history, txn)]).writes)
    ensures MergeState(t, s.w, txn).1.Done? <==> Writes(t, s.history[..Upto(s.history, txn)]).ok
  {
    ScanOfLatest(s, txn);
    MergeReaching(t, s, txn, Upto(s.history, txn));
  }

  lemma MergeReaching(t: IntType, s: Sys, txn: nat, j: nat)
    requires LogInv(s) && MergeInv(t, s) && s.w.status.NORMAL?
    requires s.merged <= j <= |s.history| && j == s.erased + Upto(s.w.log.records, txn)
    ensures MergeState(t, s.w, txn).0.index == Eager(Writes(t, s.history[..j]).writes)
    ensures MergeState(t, s.w, txn).1.Done? <==> Writes(t, s.history[..j]).ok
  {
    MergeScans(t, s.w, txn, j - s.erased);
    MergeOfLatest(t, s, j);
  }

  lemma MergeScans(t: IntType, w: Wrapper, txn: nat, n: nat)
    requires w.status.NORMAL? && n == Upto(w.log.records, txn)
    ensures MergeState(t, w, txn).0.index == ApplyAll(w.index, Writes(t, w.log.records[..n]).writes)
    ensures MergeState(t, w, txn).1.Done? <==> Writes(t, w.log.records[..n]).ok
  {
  }

  lemma LogSlice(s: Sys, j: nat)
    requires LogInv(s) && s.erased <= j <= |s.history|
    ensures s.w.log.records[..j - s.erased] == s.history[s.erased..j] && s.history[..j] == s.history[0..j]
  {
  }

  /** So a search, after any run, answers as if it had scanned the plain eager index. */
  lemma SearchEqualsEager(t: IntType, evs: seq<Event>, txn: nat, q: RpcRangeQuery, results: seq<int>)
    requires Possible(t, evs)
    requires Run(t, evs).w.status.NORMAL? && Run(t, evs).highest <= txn
    requires Bounds(t, q).Some? && Answers(MergeState(t, Run(t, evs).w, txn).0.index, Bounds(t, q).value, results)
    ensures var h := Run(t, evs).history;
            Answers(Eager(Writes(t, h[..Upto(h, txn)]).writes), Bounds(t, q).value, results)
  {
    MergeEqualsEager(t, evs, txn);
  }

  /**
   * After any run, replaying the written chunks and then the log records newer than the last flushed id gives
   * the index of the whole append history, although a flush may have queued and written a record several times.
   */
  lemma ChunksAndLogReplayTheHistory(t: IntType, evs: seq<Event>)
    requires Possible(t, evs)
    ensures var s := Run(t, evs);
            var l := s.w.log;
            var replay := Writes(t, Flatten(s.w.chunks) + l.records[FlushStart(l)..]);
            Eager(replay.writes) == Eager(Writes(t, s.history).writes) && replay.ok == Writes(t, s.history).ok
  {
    RunInv(t, evs);
    var s := Run(t, evs);
    FlushStartIs(s);
    SameEager(Writes(t, Flatten(s.w.chunks) + s.history[s.flushed..]), Writes(t, s.history));
  }

  /**
   * After any run, applying the records still in the log to the index gives the eager index of the whole append
   * history: nothing that left the log is missing from the index.
   */
  lemma IndexAndLogReplayTheHistory(t: IntType, evs: seq<Event>)
    requires Possible(t, evs)
    ensures var s := Run(t, evs);
            ApplyAll(s.w.index, Writes(t, s.w.log.records).writes) == Eager(Writes(t, s.history).writes)
  {
    RunInv(t, evs);
    var s := Run(t, evs);
    SettlesFrom(t, s.w.index, s.history, s.erased, s.trusted, s.merged);
    SettlesUpto(t, s.w.index, s.history, s.erased, s.merged, |s.history|);
    LogSlice(s, |s.history|);
    assert s.history[..|s.history|] == s.history && s.w.log.records[..|s.w.log.records|] == s.w.log.records;
  }

  /**
   * After any run, a record that has left the log is one of those the last successful merge had applied, all of
   * them well formed, and is in a written chunk.
   */
  lemma TrimmedRecordsAreSafe(t: IntType, evs: seq<Event>, i: nat)
    requires Possible(t, evs) && i < |Run(t, evs).history|
    ensures var s := Run(t, evs);
            s.history[i] !in s.w.log.records ==>
              && i < s.trusted <= |s.history| && Writes(t, s.history[..s.trusted]).ok
              && s.history[i] in Flatten(s.w.chunks)
  {
    RunInv(t, evs);
    FlushedIsWritten(t, Run(t, evs));
    TrimmedIsSafe(t, Run(t, evs), i);
  }

  lemma FlushedIsWritten(t: IntType, s: Sys)
    requires FlushInv(t, s)
    ensures s.flushed <= |s.history| && forall i :: 0 <= i < s.flushed ==> s.history[i] in Flatten(s.w.chunks)
  {
  }

  lemma TrimmedIsSafe(t: IntType, s: Sys, i: nat)
    requires LogInv(s) && MergeInv(t, s) && i < |s.history|
    requires forall j :: 0 <= j < s.flushed ==> s.history[j] in Flatten(s.w.chunks)
    ensures s.history[i] in s.w.log.records ||
            (i < s.trusted <= |s.history| && Writes(t, s.history[..s.trusted]).ok && s.history[i] in Flatten(s.w.chunks))
  {
    if i < s.erased {
      assert s.history[0..s.trusted] == s.history[..s.trusted];
    } else {
      assert s.w.log.records[i - s.erased] == s.history[i];
    }
  }

  // ---------------------------------------------------------------- what an update owes the last merge

  lemma LastSurvivesIff(rs: seq<LogRecord>, r: LogRecord, lastMerged: nat)
    requires forall i :: 0 <= i < |rs| ==> rs[i].txnId <= r.txnId
    ensures r in (rs + [r])[Upto(rs + [r], Min(lastMerged, r.txnId))..] <==> lastMerged < r.txnId
  {
    var all, bound := rs + [r], Min(lastMerged, r.txnId);
    var n := Upto(all, bound);
    UptoSpec(all, bound);
    if lastMerged < r.txnId {
      assert all[|rs|] == r;
      assert all[n..][|rs| - n] == r;
    } else {
      UptoIs(all, bound, |all|);
      assert all[|all|..] == [];
    }
  }

  /**
   * On any wrapper whose log has no id above that of the new record, repeated ids included: append the record and
   * flush through it, and it survives trimming if and only if its id is above that of the last merge.
   */
  lemma RecordSurvivesIff(t: IntType, w: Wrapper, r: LogRecord, bytes: nat, force: bool)
    requires forall i :: 0 <= i < |w.log.records| ==> w.log.records[i].txnId <= r.txnId
    requires var u := UpdateState(t, false, w, r).0;
             CanFlush(u.log, bytes, force) && FlushState(u, bytes, force).log.lastFlushed == r.txnId
    ensures var w' := TrimState(FlushState(UpdateState(t, false, w, r).0, bytes, force));
            w'.index == w.index && (r in w'.log.records <==> w.lastMerged < r.txnId)
  {
    LastSurvivesIff(w.log.records, r, w.lastMerged);
  }

  /** Increasing ids alone do not protect a record: the same after any run. */
  lemma NewRecordSurvivesIff(t: IntType, evs: seq<Event>, r: LogRecord, bytes: nat, force: bool)
    requires Possible(t, evs) && NextId(Run(t, evs).history) <= r.txnId
    requires var w := UpdateState(t, false, Run(t, evs).w, r).0;
             CanFlush(w.log, bytes, force) && FlushState(w, bytes, force).log.lastFlushed == r.txnId
    ensures var w := UpdateState(t, false, Run(t, evs).w, r).0;
            var w' := TrimState(FlushState(w, bytes, force));
            && w'.index == Run(t, evs).w.index
            && (r in w'.log.records <==> Run(t, evs).w.lastMerged < r.txnId)
  {
    RunInv(t, evs);
    LogIsOlder(Run(t, evs), r);
    RecordSurvivesIff(t, Run(t, evs).w, r, bytes, force);
  }

  lemma LogIsOlder(s: Sys, r: LogRecord)
    requires Increasing(s.history) && LogInv(s) && NextId(s.history) <= r.txnId
    ensures forall i :: 0 <= i < |s.w.log.records| ==> s.w.log.records[i].txnId < r.txnId
  {
    var rs, h := s.w.log.records, s.history;
    forall i | 0 <= i < |rs| ensures rs[i].txnId < r.txnId {
      assert rs[i] == h[s.erased + i];
      if s.erased + i < |h| - 1 { IncreasingPair(h, s.erased + i, |h| - 1); }
    }
  }

  /** Appending one record to an empty log, forcing a flush and trimming, when its id is not above the last merge id. */
  lemma OnlyRecordIsLost(w: Wrapper, r: LogRecord)
    requires w.log.records == [] && w.log.buffer == [] && r.txnId <= w.lastMerged && w.log.lastFlushed == 0
    ensures var u := UpdateState(INT64, false, w, r).0;
            CanFlush(u.log, 1, true) && TrimState(FlushState(u, 1, true)).log.records == [] &&
            TrimState(FlushState(u, 1, true)).index == w.index
  {
    var u := UpdateState(INT64, false, w, r).0;
    assert u.log.records == [r];
    assert [r][1..] == [] && [r][0..] == [r] && [r][..1] == [r];
    assert Fill([r], 0, 1) == 1;
    assert Queued(u.log, 1) == [r];
    UptoIs([r], r.txnId, 1);
  }

  /** A record lost that way: merge at 100 on an empty log, update 50, flush. The pair never reaches the index. */
  lemma StaleUpdateIsLost()
    ensures var r := LogRecord(50, [RecordUpdate(INSERT, "1", "2")], 1);
            var w := UpdateState(INT64, false, MergeState(INT64, FRESH, 100).0, r).0;
            && CanFlush(w.log, 1, true)
            && (var w' := TrimState(FlushState(w, 1, true));
               && w'.log.records == []
               && MergeState(INT64, w', 100).0.index == map[]
               && Eager(Writes(INT64, [r]).writes) == map[1 := {2}])
  {
    var r := LogRecord(50, [RecordUpdate(INSERT, "1", "2")], 1);
    EmptyMerge(FRESH, 100);
    OnlyRecordIsLost(MergeState(INT64, FRESH, 100).0, r);
    EmptyMerge(TrimState(FlushState(UpdateState(INT64, false, MergeState(INT64, FRESH, 100).0, r).0, 1, true)), 100);
    OneInsert(r);
  }

  /** With the id 0 that every update of the client carries, a flush before the first merge is enough. */
  lemma UpdateWithoutIdIsLost()
    ensures var r := LogRecord(0, [RecordUpdate(INSERT, "1", "2")], 1);
            var w := UpdateState(INT64, false, FRESH, r).0;
            && CanFlush(w.log, 1, true)
            && (var w' := TrimState(FlushState(w, 1, true));
               && w'.log.records == []
               && MergeState(INT64, w', 0).0.index == map[]
               && Eager(Writes(INT64, [r]).writes) == map[1 := {2}])
  {
    var r := LogRecord(0, [RecordUpdate(INSERT, "1", "2")], 1);
    OnlyRecordIsLost(FRESH, r);
    EmptyMerge(TrimState(FlushState(UpdateState(INT64, false, FRESH, r).0, 1, true)), 0);
    OneInsert(r);
  }

  lemma EmptyMerge(w: Wrapper, txn: nat)
    requires w.log.records == [] && w.status.NORMAL?
    ensures MergeState(INT64, w, txn).0 == w.(lastMerged := txn, dirty := true)
  {
    assert w.log.records[..0] == [] && Writes(INT64, []) == Batch([], true);
  }

  lemma OneInsert(r: LogRecord)
    requires r.updates == [RecordUpdate(INSERT, "1", "2")]
    ensures Eager(Writes(INT64, [r]).writes) == map[1 := {2}]
  {
    var u := RecordUpdate(INSERT, "1", "2");
    var w := Write(1, 2, true);
    assert "1"[..0] == [] && "2"[..0] == [];
    assert DigitsValue("1") == 1 && DigitsValue("2") == 2;
    assert Decode(INT64, u) == Some(w);
    assert [u][1..] == [] && DecodeAll(INT64, [u]) == Batch([w] + [], true);
    assert [r][1..] == [] && Writes(INT64, [r]).writes == [w] + [] + [];
    assert Writes(INT64, [r]).writes == [w] && [w][..0] == [];
    assert ApplyAll(map[], [w]) == Apply(ApplyAll(map[], []), w);
    var none: set<int> := {};
    assert none + {2} == {2};
    assert Apply(map[], w) == map[1 := none + {2}];
  }

  // ---------------------------------------------------------------- the immediate mode

  /** The index of a server that applies each batch when it arrives. */
  function ImmediateIndex(t: IntType, rs: seq<LogRecord>): Index {
    if rs == [] then map[]
    else UpdateState(t, true, FRESH.(index := ImmediateIndex(t, rs[..|rs|-1])), rs[|rs|-1]).0.index
  }

  /** What the immediate mode applies: of every batch the updates before its first malformed one. */
  function AppliedAtOnce(t: IntType, rs: seq<LogRecord>): seq<Write> {
    if rs == [] then [] else AppliedAtOnce(t, rs[..|rs|-1]) + DecodeAll(t, rs[|rs|-1].updates).writes
  }

  lemma {:induction false} ImmediateIsEager(t: IntType, rs: seq<LogRecord>)
    ensures ImmediateIndex(t, rs) == Eager(AppliedAtOnce(t, rs))
  {
    if rs != [] {
      var n := |rs| - 1;
      ImmediateIsEager(t, rs[..n]);
      ApplyAllConcat(map[], AppliedAtOnce(t, rs[..n]), DecodeAll(t, rs[n].updates).writes);
    }
  }

  lemma {:induction false} AppliedAtOnceIsAll(t: IntType, rs: seq<LogRecord>)
    requires Writes(t, rs).ok
    ensures AppliedAtOnce(t, rs) == Writes(t, rs).writes
  {
    if rs != [] {
      var n := |rs| - 1;
      assert rs == rs[..n] + [rs[n]];
      WritesConcat(t, rs[..n], [rs[n]]);
      LastBatch(t, rs[n]);
      AppliedAtOnceIsAll(t, rs[..n]);
    }
  }

  lemma LastBatch(t: IntType, r: LogRecord)
    ensures Writes(t, [r]) == DecodeAll(t, r.updates)
  {
    var d := DecodeAll(t, r.updates);
    assert d.writes + [] == d.writes && [r][1..] == [];
  }

  /** Both modes hold the same index after one more well-formed batch. */
  ghost predicate AgreeAfter(t: IntType, rs: seq<LogRecord>, r: LogRecord) {
    ImmediateIndex(t, rs + [r]) == Eager(Writes(t, rs + [r]).writes)
  }

  /**
   * Deferring is unobservable exactly as long as nothing was malformed: the immediate mode and the eager index agree
   * after every next well-formed batch if and only if all batches so far were well formed.
   */
  lemma ImmediateEqualsEagerIff(t: IntType, rs: seq<LogRecord>)
    requires t.Valid()
    ensures (forall r: LogRecord :: DecodeAll(t, r.updates).ok ==> AgreeAfter(t, rs, r)) <==> Writes(t, rs).ok
  {
    if Writes(t, rs).ok {
      forall r: LogRecord | DecodeAll(t, r.updates).ok ensures AgreeAfter(t, rs, r) { AgreeWhenWell(t, rs, r); }
    } else {
      var r := Toggle(t, Eager(Writes(t, rs).writes));
      DisagreeAfter(t, rs, r);
    }
  }

  lemma AgreeWhenWell(t: IntType, rs: seq<LogRecord>, r: LogRecord)
    requires Writes(t, rs).ok && DecodeAll(t, r.updates).ok
    ensures AgreeAfter(t, rs, r)
  {
    WritesConcat(t, rs, [r]);
    LastBatch(t, r);
    ImmediateIsEager(t, rs + [r]);
    AppliedAtOnceIsAll(t, rs + [r]);
  }

  /** A batch that changes the pair (0, 0) of an index. */
  lemma Toggle(t: IntType, idx: Index) returns (r: LogRecord)
    requires t.Valid()
    ensures DecodeAll(t, r.updates) == Batch([Write(0, 0, !Has(idx, 0, 0))], true)
  {
    var u := RecordUpdate(if Has(idx, 0, 0) then REMOVE else INSERT, "0", "0");
    var w := Write(0, 0, !Has(idx, 0, 0));
    assert "0"[..0] == [] && DigitsValue("0") == 0 && LexicalCast(t, "0") == Some(0) && LexicalCast(INT64, "0") == Some(0);
    assert Decode(t, u) == Some(w);
    assert [u][1..] == [] && DecodeAll(t, [u]) == Batch([w] + [], true);
    r := LogRecord(0, [u], 0);
  }

  lemma DisagreeAfter(t: IntType, rs: seq<LogRecord>, r: LogRecord)
    requires !Writes(t, rs).ok
    requires DecodeAll(t, r.updates) == Batch([Write(0, 0, !Has(Eager(Writes(t, rs).writes), 0, 0))], true)
    ensures !AgreeAfter(t, rs, r)
  {
    WritesConcat(t, rs, [r]);
    ImmediateIsEager(t, rs + [r]);
    assert (rs + [r])[..|rs|] == rs;
    var w := Write(0, 0, !Has(Eager(Writes(t, rs).writes), 0, 0));
    var ws := AppliedAtOnce(t, rs) + [w];
    assert ws[|ws|-1] == w;
    LastWriterWins(map[], ws, 0, 0);
  }
}
