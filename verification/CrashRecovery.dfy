/**
 * What the log file alone is worth after a crash, when records were still unflushed. A flush that
 * only queues leaves records in the buffer that the next flush queues again, from the start and
 * perhaps not as far; a file written that way need not replay to any prefix of the history.
 */
module CrashRecovery {
  import opened Base
  import opened Numerals
  import opened IndexOps
  import opened LogManagers
  import opened IndexWrappers
  import opened DeferredIndex
  import opened LogStreams

  /** No queueing round went further than the last one. */
  predicate LastIsFurthest(ks: seq<nat>) { forall i :: 0 <= i < |ks| ==> ks[i] <= ks[|ks|-1] }

  /** In every flush of the run that wrote a chunk, the last queueing round went as far as any before it. */
  predicate Tidy(t: IntType, evs: seq<Event>)
    requires Possible(t, evs)
  {
    evs == [] ||
    (Tidy(t, evs[..|evs|-1]) &&
     match evs[|evs|-1]
     case Flush(bytes, force) =>
       var s := Run(t, evs[..|evs|-1]);
       WritesChunk(s.w.log, bytes, force) ==> LastIsFurthest(NextRounds(s, bytes))
     case _ => true)
  }

  /** The written chunks replay like the flushed part of the history. */
  ghost predicate ChunksReplay(t: IntType, h: seq<LogRecord>, f: nat, c: seq<LogRecord>) {
    f <= |h| && Same(Writes(t, c), Writes(t, h[..f]))
  }

  lemma {:induction false} RoundsWithin(h: seq<LogRecord>, f: nat, ks: seq<nat>, k: nat)
    requires RoundsFit(h, f, ks) && f <= k <= |h| && forall i :: 0 <= i < |ks| ==> ks[i] <= k
    ensures RoundsFit(h[..k], f, ks) && Rounds(h[..k], f, ks) == Rounds(h, f, ks)
  {
    if ks != [] {
      var n := |ks| - 1;
      RoundsWithin(h, f, ks[..n], k);
      assert h[..k][f..ks[n]] == h[f..ks[n]];
    }
  }

  lemma ReplayFurther(t: IntType, h: seq<LogRecord>, f: nat, k: nat, c: seq<LogRecord>)
    requires f <= k <= |h| && Same(Writes(t, c), Writes(t, h[..f]))
    ensures Same(Writes(t, c + h[f..k]), Writes(t, h[..k]))
  {
    assert h[..f] + h[f..k] == h[..k];
    WritesConcat(t, c, h[f..k]);
    WritesConcat(t, h[..f], h[f..k]);
    SameThen(Writes(t, c), Writes(t, h[..f]), Writes(t, h[f..k]));
  }

  /** Earlier rounds written ahead of the last, furthest one do not change the replay. */
  lemma CollapseWithin(t: IntType, h: seq<LogRecord>, f: nat, ks: seq<nat>, k: nat, c: seq<LogRecord>)
    requires RoundsFit(h, f, ks) && f <= k <= |h| && forall i :: 0 <= i < |ks| ==> ks[i] <= k
    ensures Same(Writes(t, (c + Rounds(h, f, ks)) + h[f..k]), Writes(t, c + h[f..k]))
  {
    RoundsWithin(h, f, ks, k);
    Collapse(t, c, h[..k], f, ks);
    assert h[..k][f..] == h[f..k];
  }

  /** Writing out rounds of which the last went furthest extends the replay to its end. */
  lemma WriteExtends(t: IntType, h: seq<LogRecord>, f: nat, ks: seq<nat>, c: seq<LogRecord>)
    requires ChunksReplay(t, h, f, c) && RoundsFit(h, f, ks) && ks != [] && LastIsFurthest(ks)
    ensures ChunksReplay(t, h, ks[|ks|-1], c + Rounds(h, f, ks))
  {
    var n := |ks| - 1;
    var k, r := ks[n], Rounds(h, f, ks[..n]);
    assert c + Rounds(h, f, ks) == (c + r) + h[f..k];
    LastRoundExtends(t, h, f, ks[..n], k, c);
  }

  lemma LastRoundExtends(t: IntType, h: seq<LogRecord>, f: nat, ks: seq<nat>, k: nat, c: seq<LogRecord>)
    requires ChunksReplay(t, h, f, c) && RoundsFit(h, f, ks) && f <= k <= |h| && forall i :: 0 <= i < |ks| ==> ks[i] <= k
    ensures Same(Writes(t, (c + Rounds(h, f, ks)) + h[f..k]), Writes(t, h[..k]))
  {
    CollapseWithin(t, h, f, ks, k, c);
    ReplayFurther(t, h, f, k, c);
    SameTransitive(Writes(t, (c + Rounds(h, f, ks)) + h[f..k]), Writes(t, c + h[f..k]), Writes(t, h[..k]));
  }

  ghost predicate ReplayInv(t: IntType, s: Sys) { ChunksReplay(t, s.history, s.flushed, Flatten(s.w.chunks)) }

  /** A flush either leaves the chunks alone, or writes the rounds it has queued. */
  lemma FlushShape(s: Sys, bytes: nat, ks: seq<nat>, q: seq<LogRecord>)
    requires Increasing(s.history) && LogInv(s) && ks == NextRounds(s, bytes) && q == Queued(s.w.log, bytes)
    requires RoundsFit(s.history, s.flushed, s.rounds) && s.w.log.buffer == Rounds(s.history, s.flushed, s.rounds)
    ensures RoundsFit(s.history, s.flushed, ks) && q == Rounds(s.history, s.flushed, ks)
  {
    var n := FlushTerms(s, bytes);
    ShapeOf(s.history, s.flushed, s.rounds, n, s.w.log.buffer, ks, q);
  }

  lemma ShapeOf(h: seq<LogRecord>, f: nat, rounds: seq<nat>, n: nat, buffer: seq<LogRecord>, ks: seq<nat>, q: seq<LogRecord>)
    requires RoundsFit(h, f, rounds) && buffer == Rounds(h, f, rounds) && n <= |h| - f
    requires q == buffer + h[f..][..n] && (n == 0 ==> ks == rounds) && (n > 0 ==> ks == rounds + [f + n])
    ensures RoundsFit(h, f, ks) && q == Rounds(h, f, ks)
  {
    if n == 0 {
      NothingMore(buffer, h[f..]);
    } else {
      RoundsQueued(h, f, rounds, n, buffer);
    }
  }

  lemma FlushReplays(t: IntType, s: Sys, bytes: nat, force: bool, ks: seq<nat>, q: seq<LogRecord>)
    requires ReplayInv(t, s) && CanFlush(s.w.log, bytes, force) && ks == NextRounds(s, bytes) && q == Queued(s.w.log, bytes)
    requires RoundsFit(s.history, s.flushed, ks) && q == Rounds(s.history, s.flushed, ks)
    requires WritesChunk(s.w.log, bytes, force) ==> LastIsFurthest(ks)
    ensures ReplayInv(t, Step(t, s, Flush(bytes, force)))
  {
    FlushFields(t, s, bytes, force, ks, q);
    FlushReplaysTo(t, s, Step(t, s, Flush(bytes, force)), ks, q, WritesChunk(s.w.log, bytes, force));
  }

  lemma FlushReplaysTo(t: IntType, s: Sys, s': Sys, ks: seq<nat>, q: seq<LogRecord>, writes: bool)
    requires ReplayInv(t, s) && RoundsFit(s.history, s.flushed, ks) && q == Rounds(s.history, s.flushed, ks)
    requires writes ==> LastIsFurthest(ks) && q != [] && s' == Written(s, ks, q)
    requires !writes ==> s' == s.(w := s.w.(log := s.w.log.(buffer := q)), rounds := ks)
    ensures ReplayInv(t, s')
  {
    if writes { WriteReplaysTo(t, s, ks, q); }
  }

  lemma PendingRounds(t: IntType, s: Sys)
    requires FlushInv(t, s)
    ensures RoundsFit(s.history, s.flushed, s.rounds) && s.w.log.buffer == Rounds(s.history, s.flushed, s.rounds)
  {
  }

  lemma RoundsQueued(h: seq<LogRecord>, f: nat, rounds: seq<nat>, n: nat, buffer: seq<LogRecord>)
    requires RoundsFit(h, f, rounds) && buffer == Rounds(h, f, rounds) && 0 < n <= |h| - f
    ensures RoundsFit(h, f, rounds + [f + n]) && buffer + h[f..][..n] == Rounds(h, f, rounds + [f + n])
  {
    DropTake(h, f, n);
    OneMoreRound(h, f, rounds, f + n);
  }

  lemma DropTake(h: seq<LogRecord>, f: nat, n: nat)
    requires f + n <= |h|
    ensures h[f..][..n] == h[f..f + n]
  {
  }

  lemma NothingMore(a: seq<LogRecord>, b: seq<LogRecord>)
    ensures a + b[..0] == a
  {
  }

  lemma OneMoreRound(h: seq<LogRecord>, f: nat, ks: seq<nat>, k: nat)
    requires RoundsFit(h, f, ks) && f < k <= |h|
    ensures RoundsFit(h, f, ks + [k]) && Rounds(h, f, ks + [k]) == Rounds(h, f, ks) + h[f..k]
  {
    assert (ks + [k])[..|ks|] == ks && (ks + [k])[|ks|] == k;
    RoundsLast(h, f, ks + [k]);
  }

  lemma WriteReplaysTo(t: IntType, s: Sys, ks: seq<nat>, q: seq<LogRecord>)
    requires ReplayInv(t, s) && RoundsFit(s.history, s.flushed, ks) && q == Rounds(s.history, s.flushed, ks) && q != []
    requires LastIsFurthest(ks)
    ensures ReplayInv(t, Written(s, ks, q))
  {
    WriteExtends(t, s.history, s.flushed, ks, Flatten(s.w.chunks));
    FlattenMore(s.w.chunks, q);
  }

  lemma OtherReplays(t: IntType, s: Sys, ev: Event)
    requires ReplayInv(t, s) && Allowed(s, ev) && !ev.Flush?
    ensures ReplayInv(t, Step(t, s, ev))
  {
    var s' := Step(t, s, ev);
    assert s'.flushed == s.flushed && s'.w.chunks == s.w.chunks;
    assert s'.history[..s.flushed] == s.history[..s.flushed];
  }

  lemma {:induction false} TidyReplays(t: IntType, evs: seq<Event>)
    requires Possible(t, evs) && Tidy(t, evs)
    ensures ReplayInv(t, Run(t, evs))
  {
    if evs != [] {
      var before, ev := evs[..|evs|-1], evs[|evs|-1];
      TidyReplays(t, before);
      RunInv(t, before);
      match ev {
        case Flush(bytes, force) =>
          var s := Run(t, before);
          PendingRounds(t, s);
          FlushShape(s, bytes, NextRounds(s, bytes), Queued(s.w.log, bytes));
          FlushReplays(t, s, bytes, force, NextRounds(s, bytes), Queued(s.w.log, bytes));
        case _ => OtherReplays(t, Run(t, before), ev);
      }
    }
  }

  /** The flushed part of the history, by the id the log manager keeps. */
  lemma FlushedById(s: Sys)
    requires Increasing(s.history) && LogInv(s)
    ensures s.history[..s.flushed] == s.history[..Upto(s.history, s.w.log.lastFlushed)]
  {
    FlushPosition(s.history, 0, s.flushed, s.w.log.lastFlushed);
    assert s.history[0..] == s.history;
    if s.flushed == 0 && s.history != [] {
      IncreasingPositive(s.history, 0);
    }
  }

  /**
   * After any tidy run, crashing at any point: loading the log file and replaying what was loaded gives the index of
   * exactly the updates appended up to the last flushed id.
   */
  lemma CrashRestoresFlushed(t: IntType, evs: seq<Event>, show: seq<LogRecord> -> string,
                             parse: string -> Option<seq<LogRecord>>)
    requires Possible(t, evs) && Tidy(t, evs) && Serialises(show, parse, Run(t, evs).w.chunks)
    ensures var s := Run(t, evs);
            var (loaded, ok) := Loaded(ReadChunks(WriteChunks(ShowAll(show, s.w.chunks))), parse);
            var flushed := s.history[..Upto(s.history, s.w.log.lastFlushed)];
            ok && Eager(Writes(t, loaded).writes) == Eager(Writes(t, flushed).writes)
  {
    var s := Run(t, evs);
    LoadInvertsWrite(show, parse, s.w.chunks);
    TidyReplays(t, evs);
    RunInv(t, evs);
    FlushedById(s);
    SameEager(Writes(t, Flatten(s.w.chunks)), Writes(t, s.history[..s.flushed]));
  }

  // ---------------------------------------------------------------- which runs are tidy

  /** A run whose flushes are all forced is tidy: nothing is ever left in the buffer. */
  lemma {:induction false} ForcedRunsAreTidy(t: IntType, evs: seq<Event>)
    requires Possible(t, evs) && forall i :: 0 <= i < |evs| && evs[i].Flush? ==> evs[i].force
    ensures Tidy(t, evs) && Run(t, evs).rounds == []
  {
    if evs != [] {
      ForcedRunsAreTidy(t, evs[..|evs|-1]);
    }
  }

  // ---------------------------------------------------------------- a run that is not

  /** A record of one update that decodes to one write, and takes 30 bytes in the buffer. */
  predicate Small(r: LogRecord, id: nat, w: Write) {
    r.txnId == id && r.size == 22 && DecodeAll(INT64, r.updates) == Batch([w], true)
  }

  /** An unforced flush of 100 bytes queues three such records, and the next one queues the first again and writes. */
  lemma SecondRoundIsShorter(r1: LogRecord, r2: LogRecord, r3: LogRecord, w: Wrapper)
    requires r1.size == r2.size == r3.size == 22
    requires w.log == Log([r1, r2, r3], [], 0) && w.chunks == []
    ensures CanFlush(w.log, 100, false) && CanFlush(FlushState(w, 100, false).log, 100, false)
    ensures var w' := FlushState(FlushState(w, 100, false), 100, false);
            w'.chunks == [[r1, r2, r3, r1]] && w'.log.lastFlushed == r1.txnId
  {
    var rs := [r1, r2, r3];
    assert rs[0..] == rs && rs[1..] == [r2, r3] && rs[2..] == [r3] && [r2, r3][1..] == [r3] && [r3][1..] == [];
    assert Fill([r3], 60, 100) == 1 && Fill([r2, r3], 30, 100) == 2 && Fill(rs, 0, 100) == 3;
    assert rs[..3] == rs && Queued(w.log, 100) == rs;
    ThreeRecords(r1, r2, r3);
    assert Fill(rs, 90, 100) == 1 && rs[..1] == [r1];
    var w1 := FlushState(w, 100, false);
    assert w1.log == Log(rs, rs, 0);
    assert Queued(w1.log, 100) == rs + [r1] == [r1, r2, r3, r1];
    BufferSizeStep(rs, r1);
  }

  lemma ThreeRecords(r1: LogRecord, r2: LogRecord, r3: LogRecord)
    requires r1.size == r2.size == r3.size == 22
    ensures BufferSize([r1, r2, r3]) == 90
  {
    BufferSizeStep([], r1);
    BufferSizeStep([r1], r2);
    BufferSizeStep([r1, r2], r3);
    assert [] + [r1] == [r1] && [r1] + [r2] == [r1, r2] && [r1, r2] + [r3] == [r1, r2, r3];
  }

  /**
   * With a record that inserts a pair, one that removes it and one that inserts another, the file written that way
   * replays to an index with both pairs, which the history never had.
   */
  lemma UntidyFileReplaysToNoPrefix(r1: LogRecord, r2: LogRecord, r3: LogRecord, n: nat)
    requires Small(r1, 1, Write(1, 2, true)) && Small(r2, 2, Write(1, 2, false)) && Small(r3, 3, Write(3, 4, true)) && n <= 3
    ensures Eager(Writes(INT64, [r1, r2, r3, r1]).writes) != Eager(Writes(INT64, [r1, r2, r3][..n]).writes)
  {
    var a, b, c := Write(1, 2, true), Write(1, 2, false), Write(3, 4, true);
    WritesOf(r1, r2, r3);
    var all := [a, b, c, a];
    assert all[..3] == [a, b, c] && [a, b, c][..2] == [a, b];
    LastWriterWins(map[], all, 1, 2);
    LastWriterWins(map[], all, 3, 4);
    var rs, ws := [r1, r2, r3], [a, b, c];
    var some := ws[..n];
    assert Writes(INT64, rs[..n]).writes == some by {
      assert rs[..0] == [] && rs[..1] == [r1] && rs[..2] == [r1, r2] && rs[..3] == rs;
      assert ws[..0] == [] && ws[..1] == [a] && ws[..2] == [a, b] && ws[..3] == ws;
    }
    LastWriterWins(map[], some, 1, 2);
    LastWriterWins(map[], some, 3, 4);
    LastOfSome(ws, n, a, b, c);
  }

  lemma LastOfSome(ws: seq<Write>, n: nat, a: Write, b: Write, c: Write)
    requires a == Write(1, 2, true) && b == Write(1, 2, false) && c == Write(3, 4, true) && ws == [a, b, c] && n <= 3
    ensures LastWrite(ws[..n], 1, 2) != Some(true) || LastWrite(ws[..n], 3, 4) == None
  {
    assert ws[..1] == [a] && ws[..2] == [a, b] && ws[..3] == ws && [a][..0] == [] && [a, b][..1] == [a] && ws[..0] == [];
  }

  lemma WritesOf(r1: LogRecord, r2: LogRecord, r3: LogRecord)
    requires Small(r1, 1, Write(1, 2, true)) && Small(r2, 2, Write(1, 2, false)) && Small(r3, 3, Write(3, 4, true))
    ensures var a, b, c := Write(1, 2, true), Write(1, 2, false), Write(3, 4, true);
            && Writes(INT64, []).writes == [] && Writes(INT64, [r1]).writes == [a] && Writes(INT64, [r1, r2]).writes == [a, b]
            && Writes(INT64, [r1, r2, r3]).writes == [a, b, c] && Writes(INT64, [r1, r2, r3, r1]).writes == [a, b, c, a]
  {
    WritesMore([], r1);
    WritesMore([r1], r2);
    WritesMore([r1, r2], r3);
    WritesMore([r1, r2, r3], r1);
    assert [] + [r1] == [r1] && [r1] + [r2] == [r1, r2] && [r1, r2] + [r3] == [r1, r2, r3];
    assert [r1, r2, r3] + [r1] == [r1, r2, r3, r1];
  }

  lemma WritesMore(rs: seq<LogRecord>, r: LogRecord)
    ensures Writes(INT64, rs + [r]) == Writes(INT64, rs).Then(DecodeAll(INT64, r.updates))
  {
    WritesConcat(INT64, rs, [r]);
    LastBatch(INT64, r);
  }

  /** There are such records. */
  lemma SmallRecord(id: nat, k: char, o: char, present: bool) returns (r: LogRecord)
    requires IsDigit(k) && IsDigit(o)
    ensures Small(r, id, Write(DigitValue(k), DigitValue(o), present))
  {
    var u := RecordUpdate(if present then INSERT else REMOVE, [k], [o]);
    var w := Write(DigitValue(k), DigitValue(o), present);
    OneDigit(k);
    OneDigit(o);
    assert Decode(INT64, u) == Some(w);
    assert [u][1..] == [] && DecodeAll(INT64, [u]) == Batch([w] + [], true);
    r := LogRecord(id, [u], 22);
  }

  lemma OneDigit(c: char)
    requires IsDigit(c)
    ensures LexicalCast(INT64, [c]) == Some(DigitValue(c))
  {
    assert [c][..0] == [] && DigitsValue([c]) == DigitValue(c);
    assert AllDigits([c]) && c != '-' && c != '+';
  }

  /** Such a run: three updates and two unforced flushes, and then the file replays to no prefix of the history. */
  lemma CrashCanRestoreNoPrefix() returns (r1: LogRecord, r2: LogRecord, r3: LogRecord)
    ensures r1.txnId == 1 && r2.txnId == 2 && r3.txnId == 3
    ensures var w := UpdateState(INT64, false, UpdateState(INT64, false, UpdateState(INT64, false, FRESH, r1).0, r2).0, r3).0;
            && CanFlush(w.log, 100, false) && CanFlush(FlushState(w, 100, false).log, 100, false)
            && (var file := Flatten(FlushState(FlushState(w, 100, false), 100, false).chunks);
                forall n :: 0 <= n <= 3 ==> Eager(Writes(INT64, file).writes) != Eager(Writes(INT64, [r1, r2, r3][..n]).writes))
  {
    r1 := SmallRecord(1, '1', '2', true);
    r2 := SmallRecord(2, '1', '2', false);
    r3 := SmallRecord(3, '3', '4', true);
    var w := UpdateState(INT64, false, UpdateState(INT64, false, UpdateState(INT64, false, FRESH, r1).0, r2).0, r3).0;
    assert [] + [r1] + [r2] + [r3] == [r1, r2, r3] && w.log == Log([r1, r2, r3], [], 0);
    SecondRoundIsShorter(r1, r2, r3, w);
    var file := [r1, r2, r3, r1];
    FlattenMore([], file);
    assert [] + [file] == [file] && Flatten([]) + file == file;
    forall n | 0 <= n <= 3 ensures Eager(Writes(INT64, file).writes) != Eager(Writes(INT64, [r1, r2, r3][..n]).writes) {
      UntidyFileReplaysToNoPrefix(r1, r2, r3, n);
    }
  }
}
