/**
 * The log file: each flushed chunk is written as its decimal length immediately followed by
 * its bytes, with no separator, and read back by `load` with formatted input.
 */
module LogStreams {
  import opened Base
  import opened Numerals
  import opened IndexOps
  import opened LogManagers
  import opened IndexWrappers
  import opened DeferredIndex

  // ---------------------------------------------------------------- the format

  function WriteChunks(ps: seq<string>): string {
    if ps == [] then "" else ShowNat(|ps[0]|) + ps[0] + WriteChunks(ps[1..])
  }

  function SkipSpace(s: string): (r: string)
    ensures |r| <= |s|
    ensures s != [] && !IsSpace(s[0]) ==> r == s
  {
    if s != [] && IsSpace(s[0]) then SkipSpace(s[1..]) else s
  }

  /** The length of the longest run of digits at the front. */
  function DigitRun(s: string): (n: nat)
    ensures n <= |s| && AllDigits(s[..n])
  {
    if s == [] || !IsDigit(s[0]) then 0
    else
      var n := DigitRun(s[1..]);
      assert s[..n+1] == [s[0]] + s[1..][..n];
      n + 1
  }

  /** Formatted input of a size: fails without digits, on overflow, and when the digits touch the end of the stream. */
  function ReadSize(s: string): (r: Option<(nat, string)>)
    ensures r.Some? ==> |r.value.1| < |s|
  {
    var t := SkipSpace(s);
    var n := DigitRun(t);
    if n == 0 || n == |t| || DigitsValue(t[..n]) >= P64 then None
    else Some((DigitsValue(t[..n]), t[n..]))
  }

  function ReadChunks(s: string): seq<string>
    decreases |s|
  {
    match ReadSize(s)
    case None => []
    case Some((n, rest)) => if |rest| < n then [] else [rest[..n]] + ReadChunks(rest[n..])
  }

  // ---------------------------------------------------------------- when reading inverts writing

  /** A payload the format can carry: not empty, and not starting with a digit. */
  predicate Carried(p: string) { p != "" && !IsDigit(p[0]) }

  lemma {:induction false} DigitRunConcat(a: string, b: string)
    requires AllDigits(a)
    ensures DigitRun(a + b) == |a| + DigitRun(b)
  {
    if a == [] {
      assert a + b == b;
    } else {
      assert (a + b)[1..] == a[1..] + b;
      DigitRunConcat(a[1..], b);
    }
  }

  lemma {:induction false} DigitsValueGrows(a: string, b: string)
    requires AllDigits(a) && AllDigits(b) && AllDigits(a + b)
    ensures DigitsValue(a + b) >= DigitsValue(a)
    ensures b != [] ==> DigitsValue(a + b) >= 10 * DigitsValue(a)
  {
    if b == [] {
      assert a + b == a;
    } else {
      var n := |b| - 1;
      assert (a + b)[..|a + b| - 1] == a + b[..n];
      DigitsValueGrows(a, b[..n]);
    }
  }

  /** What `load` reads first from a stream that starts with digits `a`. */
  lemma FirstSize(a: string, b: string)
    requires a != [] && AllDigits(a)
    ensures DigitRun(a + b) == |a| + DigitRun(b) && AllDigits(a + b[..DigitRun(b)])
    ensures var run := a + b[..DigitRun(b)];
            ReadSize(a + b) == if DigitRun(b) == |b| || DigitsValue(run) >= P64 then None
                               else Some((DigitsValue(run), b[DigitRun(b)..]))
  {
    DigitRunConcat(a, b);
    var n := DigitRun(b);
    assert (a + b)[0] == a[0] && !IsSpace(a[0]);
    TakeConcat(a, b, n);
    ReadSizeAt(a + b, |a| + n);
  }

  lemma TakeConcat(a: string, b: string, n: nat)
    requires n <= |b|
    ensures (a + b)[..|a| + n] == a + b[..n] && (a + b)[|a| + n..] == b[n..]
  {
  }

  lemma ReadSizeAt(s: string, n: nat)
    requires s != "" && !IsSpace(s[0]) && DigitRun(s) == n && n > 0
    ensures ReadSize(s) == if n == |s| || DigitsValue(s[..n]) >= P64 then None else Some((DigitsValue(s[..n]), s[n..]))
  {
  }

  lemma ReadFirstCarried(p: string, rest: string)
    requires Carried(p) && |p| < P64
    ensures ReadChunks(ShowNat(|p|) + (p + rest)) == [p] + ReadChunks(rest)
  {
    FirstSize(ShowNat(|p|), p + rest);
    ShowNatValue(|p|);
    assert DigitRun(p + rest) == 0;
    assert ShowNat(|p|) + (p + rest)[..0] == ShowNat(|p|);
    assert (p + rest)[0..] == p + rest;
    assert (p + rest)[..|p|] == p && (p + rest)[|p|..] == rest;
  }

  /** A payload starting with a digit is read as one longer than it is, if at all. */
  lemma ReadFirstDigit(p: string, rest: string)
    requires p != "" && IsDigit(p[0])
    ensures var cs := ReadChunks(ShowNat(|p|) + (p + rest)); cs == [] || |cs[0]| > |p|
  {
    var a, b := ShowNat(|p|), p + rest;
    FirstSize(a, b);
    ShowNatValue(|p|);
    assert b[0] == p[0];
    DigitsValueGrows(a, b[..DigitRun(b)]);
  }

  lemma {:induction false} EmptyPayloads(ps: seq<string>)
    requires forall p :: p in ps ==> p == ""
    ensures AllDigits(WriteChunks(ps))
  {
    if ps != [] {
      assert ps[0] in ps;
      assert forall p :: p in ps[1..] ==> p in ps;
      EmptyPayloads(ps[1..]);
    }
  }

  /** Ahead of the first payload that is not empty, the sizes read as one positive number. */
  lemma {:induction false} LeadingValue(ps: seq<string>)
    requires exists p :: p in ps && p != ""
    ensures DigitsValue(WriteChunks(ps)[..DigitRun(WriteChunks(ps))]) > 0
  {
    var rest := WriteChunks(ps[1..]);
    assert WriteChunks(ps) == ShowNat(|ps[0]|) + (ps[0] + rest);
    if ps[0] == "" {
      assert ps == [ps[0]] + ps[1..];
      LeadingValue(ps[1..]);
      assert ps[0] + rest == rest;
      AfterZero(rest);
    } else {
      LeadingRun(ShowNat(|ps[0]|), ps[0] + rest);
      ShowNatValue(|ps[0]|);
    }
  }

  lemma AfterZero(b: string)
    requires DigitsValue(b[..DigitRun(b)]) > 0
    ensures DigitsValue((ShowNat(0) + b)[..DigitRun(ShowNat(0) + b)]) > 0
  {
    LeadingRun(ShowNat(0), b);
    LeadingZero(b[..DigitRun(b)]);
  }

  lemma LeadingRun(a: string, b: string)
    requires a != [] && AllDigits(a)
    ensures AllDigits(a + b[..DigitRun(b)]) && (a + b)[..DigitRun(a + b)] == a + b[..DigitRun(b)]
    ensures DigitsValue(a + b[..DigitRun(b)]) >= DigitsValue(a)
  {
    DigitRunConcat(a, b);
    TakeConcat(a, b, DigitRun(b));
    DigitsValueGrows(a, b[..DigitRun(b)]);
  }

  lemma {:induction false} LeadingZero(run: string)
    requires AllDigits(run)
    ensures AllDigits("0" + run) && DigitsValue("0" + run) == DigitsValue(run)
  {
    if run == [] {
      assert "0" + run == "0" && "0"[..0] == [];
    } else {
      var n := |run| - 1;
      assert ("0" + run)[..|run|] == "0" + run[..n];
      LeadingZero(run[..n]);
    }
  }

  lemma {:induction false} AllDigitsRun(s: string)
    requires AllDigits(s)
    ensures DigitRun(s) == |s|
  {
    if s != [] { AllDigitsRun(s[1..]); }
  }

  /** An empty payload is never read back. */
  lemma ReadFirstEmpty(ps: seq<string>)
    requires ps != [] && ps[0] == ""
    ensures var cs := ReadChunks(WriteChunks(ps)); cs == [] || |cs[0]| > 0
  {
    var s := WriteChunks(ps);
    var a := ShowNat(0);
    assert s == a + WriteChunks(ps[1..]) by { assert a + ps[0] == a; }
    FirstSize(a, WriteChunks(ps[1..]));
    if forall p :: p in ps ==> p == "" {
      EmptyPayloads(ps);
      AllDigitsRun(s);
    } else {
      LeadingValue(ps);
      assert !IsSpace(s[0]);
    }
  }

  /** Loading a written log file gives back its chunks if and only if the format can carry every one of them. */
  lemma {:induction false} ReadInvertsWriteIff(ps: seq<string>)
    requires forall p :: p in ps ==> |p| < P64
    ensures ReadChunks(WriteChunks(ps)) == ps <==> forall p :: p in ps ==> Carried(p)
  {
    if ps == [] {
      assert DigitRun("") == 0;
    } else {
      var p, rest := ps[0], WriteChunks(ps[1..]);
      assert ps == [p] + ps[1..];
      assert WriteChunks(ps) == ShowNat(|p|) + (p + rest);
      if Carried(p) {
        ReadInvertsWriteIff(ps[1..]);
        ReadFirstCarried(p, rest);
        assert ([p] + ReadChunks(rest))[1..] == ReadChunks(rest);
      } else if p == "" {
        ReadFirstEmpty(ps);
      } else {
        ReadFirstDigit(p, rest);
      }
    }
  }

  /** A chunk that starts with a digit is not read back: its length and its text run together. */
  lemma DigitChunkIsLost()
    ensures WriteChunks(["5"]) == "15" && ReadChunks(WriteChunks(["5"])) == []
  {
    assert ["5"][1..] == [] && WriteChunks(["5"]) == "1" + "5" + "";
    FirstSize("1", "5");
    assert "5"[1..] == "" && DigitRun("5") == 1;
    assert "1" + "5" + "" == "1" + "5";
  }

  /** The format by example: the length of each chunk in decimal, and its bytes. */
  lemma FormatIs()
    ensures WriteChunks(["abc", "de"]) == "3abc2de"
  {
    assert ["abc", "de"][1..] == ["de"] && ["de"][1..] == [];
    assert WriteChunks([]) == "" && ShowNat(2) == "2" && ShowNat(3) == "3";
    assert WriteChunks(["de"]) == "2" + "de" + "";
    assert WriteChunks(["abc", "de"]) == "3" + "abc" + WriteChunks(["de"]);
  }

  /**
   * What formatted input makes of digits: white space before them is skipped, they end at the first other character,
   * and there is no size when nothing follows them or when their value does not fit in 64 bits.
   */
  lemma SizeReads(a: string, b: string, c: char)
    requires a != "" && AllDigits(a) && (b == "" || !IsDigit(b[0]))
    ensures ReadSize(a + b) == if b == "" || DigitsValue(a) >= P64 then None else Some((DigitsValue(a), b))
    ensures IsSpace(c) ==> ReadSize([c] + (a + b)) == ReadSize(a + b)
  {
    FirstSize(a, b);
    assert a + b[..0] == a && b[0..] == b;
    assert ([c] + (a + b))[1..] == a + b && (a + b)[0] == a[0];
  }

  /** A chunk that is shorter than announced ends the reading, and is dropped. */
  lemma ShortChunkIsDropped(a: string, b: string)
    requires a != "" && AllDigits(a) && (b == "" || !IsDigit(b[0])) && |b| < DigitsValue(a)
    ensures ReadChunks(a + b) == []
  {
    SizeReads(a, b, ' ');
  }

  // ---------------------------------------------------------------- loading

  /** What `load` leaves in the log, and whether every chunk could be parsed. */
  function Loaded(cs: seq<string>, parse: string -> Option<seq<LogRecord>>): (seq<LogRecord>, bool) {
    if cs == [] then ([], true)
    else match parse(cs[0])
      case None => ([], false)
      case Some(records) =>
        var (more, ok) := Loaded(cs[1..], parse);
        (records + more, ok)
  }

  /** Replaces the log by the records of the stream, chunk by chunk. */
  method Load(m: LogManager, stream: string, parse: string -> Option<seq<LogRecord>>) returns (ok: bool)
    modifies m
    ensures (m.log, ok) == Loaded(ReadChunks(stream), parse)
    ensures m.buffer == old(m.buffer) && m.lastFlushed == old(m.lastFlushed)
  {
    m.log := [];
    var s := stream;
    assert m.log + Loaded(ReadChunks(s), parse).0 == Loaded(ReadChunks(s), parse).0;
    while true
      invariant m.buffer == old(m.buffer) && m.lastFlushed == old(m.lastFlushed)
      invariant Loaded(ReadChunks(stream), parse) ==
                (m.log + Loaded(ReadChunks(s), parse).0, Loaded(ReadChunks(s), parse).1)
      decreases |s|
    {
      var size := ReadSize(s);
      if size.None? || |size.value.1| < size.value.0 {
        assert m.log + [] == m.log;
        return true;
      }
      var (n, rest) := size.value;
      var records := parse(rest[..n]);
      assert ReadChunks(s)[1..] == ReadChunks(rest[n..]);
      if records.None? {
        assert m.log + [] == m.log;
        return false;
      }
      ghost var more := Loaded(ReadChunks(rest[n..]), parse).0;
      assert m.log + (records.value + more) == m.log + records.value + more;
      m.log := m.log + records.value;
      s := rest[n..];
    }
    return true;
  }

  /** The parser inverts the serialisation of these chunks, and the file format can carry it. */
  ghost predicate Serialises(show: seq<LogRecord> -> string, parse: string -> Option<seq<LogRecord>>,
                             chunks: seq<seq<LogRecord>>) {
    forall c :: c in chunks ==> parse(show(c)) == Some(c) && Carried(show(c)) && |show(c)| < P64
  }

  function ShowAll(show: seq<LogRecord> -> string, chunks: seq<seq<LogRecord>>): seq<string> {
    seq(|chunks|, i requires 0 <= i < |chunks| => show(chunks[i]))
  }

  lemma {:induction false} LoadedIsFlattened(show: seq<LogRecord> -> string, parse: string -> Option<seq<LogRecord>>,
                                             chunks: seq<seq<LogRecord>>)
    requires Serialises(show, parse, chunks)
    ensures Loaded(ShowAll(show, chunks), parse) == (Flatten(chunks), true)
  {
    if chunks != [] {
      assert ShowAll(show, chunks)[1..] == ShowAll(show, chunks[1..]);
      assert ShowAll(show, chunks)[0] == show(chunks[0]);
      LoadedIsFlattened(show, parse, chunks[1..]);
      FlattenFront(chunks);
    }
  }

  lemma {:induction false} FlattenFront(chunks: seq<seq<LogRecord>>)
    requires chunks != []
    ensures Flatten(chunks) == chunks[0] + Flatten(chunks[1..])
  {
    var n := |chunks| - 1;
    if n > 0 {
      FlattenFront(chunks[..n]);
      assert chunks[..n][1..] == chunks[1..][..n-1];
      assert chunks[1..][n-1] == chunks[n];
    } else {
      assert Flatten(chunks[..n]) == [];
    }
  }

  /** What was written is loaded: all records of all chunks, in order. */
  lemma LoadInvertsWrite(show: seq<LogRecord> -> string, parse: string -> Option<seq<LogRecord>>,
                         chunks: seq<seq<LogRecord>>)
    requires Serialises(show, parse, chunks)
    ensures Loaded(ReadChunks(WriteChunks(ShowAll(show, chunks))), parse) == (Flatten(chunks), true)
  {
    var ps := ShowAll(show, chunks);
    forall p | p in ps ensures Carried(p) && |p| < P64 {
      var i :| 0 <= i < |ps| && ps[i] == p;
      assert chunks[i] in chunks;
    }
    ReadInvertsWriteIff(ps);
    LoadedIsFlattened(show, parse, chunks);
  }

  /**
   * Recovery: after any run that has flushed its whole log, loading the log file and replaying what was loaded
   * gives the index of the whole append history.
   */
  lemma LoadRestores(t: IntType, evs: seq<Event>, show: seq<LogRecord> -> string,
                     parse: string -> Option<seq<LogRecord>>)
    requires Possible(t, evs) && Serialises(show, parse, Run(t, evs).w.chunks)
    requires var l := Run(t, evs).w.log; FlushStart(l) == |l.records|
    ensures var s := Run(t, evs);
            var (loaded, ok) := Loaded(ReadChunks(WriteChunks(ShowAll(show, s.w.chunks))), parse);
            ok && Eager(Writes(t, loaded).writes) == Eager(Writes(t, s.history).writes)
  {
    var s := Run(t, evs);
    LoadInvertsWrite(show, parse, s.w.chunks);
    ChunksAndLogReplayTheHistory(t, evs);
    var l := s.w.log;
    assert Flatten(s.w.chunks) + l.records[FlushStart(l)..] == Flatten(s.w.chunks);
  }
}
