/**
 * The meaning of index updates, independent of when they are applied.
 *
 * An index maps a key to the set of objects filed under it, and an update adds or removes
 * one (key, object) pair. The algebra below is last-writer-wins per pair: it is what lets a
 * server re-apply log records it has already applied.
 */
module IndexOps {
  import opened Base
  import opened Numerals

  datatype OpCode = UNKNOWN | INSERT | UPDATE | REMOVE

  /** One update as it travels in an RPC or in the log: everything is text. */
  datatype RecordUpdate = RecordUpdate(op: OpCode, key: string, value: string)

  /** An update after decoding: afterwards the pair is (or is not) in the index. */
  datatype Write = Write(key: int, obj: int, present: bool)

  type Index = map<int, set<int>>

  function Decode(t: IntType, u: RecordUpdate): Option<Write> {
    match (LexicalCast(t, u.key), LexicalCast(INT64, u.value))
    case (Some(k), Some(o)) => if u.op.UNKNOWN? then None else Some(Write(k, o, !u.op.REMOVE?))
    case _ => None
  }

  /** What a batch of updates does: the writes before its first malformed update, and whether it is free of those. */
  datatype Batch = Batch(writes: seq<Write>, ok: bool) {
    function Then(next: Batch): Batch {
      if ok then Batch(writes + next.writes, next.ok) else this
    }
  }

  function DecodeAll(t: IntType, us: seq<RecordUpdate>): Batch {
    if us == [] then Batch([], true)
    else match Decode(t, us[0])
      case None => Batch([], false)
      case Some(w) => Batch([w], true).Then(DecodeAll(t, us[1..]))
  }

  lemma {:induction false} DecodeAllConcat(t: IntType, a: seq<RecordUpdate>, b: seq<RecordUpdate>)
    ensures DecodeAll(t, a + b) == DecodeAll(t, a).Then(DecodeAll(t, b))
  {
    if a == [] {
      assert a + b == b;
    } else {
      assert (a + b)[1..] == a[1..] + b;
      DecodeAllConcat(t, a[1..], b);
    }
  }

  predicate Has(idx: Index, k: int, o: int) { k in idx && o in idx[k] }

  /** No key is left behind without objects. */
  ghost predicate Tight(idx: Index) { forall k :: k in idx ==> idx[k] != {} }

  function Apply(idx: Index, w: Write): Index {
    if w.present then idx[w.key := (if w.key in idx then idx[w.key] else {}) + {w.obj}]
    else if w.key in idx then
      var left := idx[w.key] - {w.obj};
      if left == {} then idx - {w.key} else idx[w.key := left]
    else idx
  }

  function ApplyAll(idx: Index, ws: seq<Write>): Index {
    if ws == [] then idx else Apply(ApplyAll(idx, ws[..|ws|-1]), ws[|ws|-1])
  }

  /** The plain eager index: every write applied, once, in order. */
  function Eager(ws: seq<Write>): Index { ApplyAll(map[], ws) }

  lemma {:induction false} ApplyAllConcat(idx: Index, a: seq<Write>, b: seq<Write>)
    ensures ApplyAll(idx, a + b) == ApplyAll(ApplyAll(idx, a), b)
  {
    if b == [] {
      assert a + b == a;
    } else {
      assert (a + b)[..|a + b|-1] == a + b[..|b|-1];
      ApplyAllConcat(idx, a, b[..|b|-1]);
    }
  }

  lemma {:induction false} ApplyAllTight(idx: Index, ws: seq<Write>)
    requires Tight(idx)
    ensures Tight(ApplyAll(idx, ws))
  {
    if ws != [] {
      ApplyAllTight(idx, ws[..|ws|-1]);
    }
  }

  /** The last word a sequence of writes has on a pair, if it mentions the pair at all. */
  function LastWrite(ws: seq<Write>, k: int, o: int): Option<bool> {
    if ws == [] then None
    else
      var w := ws[|ws|-1];
      if w.key == k && w.obj == o then Some(w.present) else LastWrite(ws[..|ws|-1], k, o)
  }

  lemma {:induction false} LastWriteConcat(a: seq<Write>, b: seq<Write>, k: int, o: int)
    ensures LastWrite(a + b, k, o) == if LastWrite(b, k, o).Some? then LastWrite(b, k, o) else LastWrite(a, k, o)
  {
    if b == [] {
      assert a + b == a;
    } else {
      assert (a + b)[..|a + b|-1] == a + b[..|b|-1];
      LastWriteConcat(a, b[..|b|-1], k, o);
    }
  }

  /** Last writer wins: a pair's presence is the last write about it, or else what it was before. */
  lemma {:induction false} LastWriterWins(idx: Index, ws: seq<Write>, k: int, o: int)
    ensures Has(ApplyAll(idx, ws), k, o) <==>
            (match LastWrite(ws, k, o) case Some(b) => b case None => Has(idx, k, o))
  {
    if ws != [] {
      LastWriterWins(idx, ws[..|ws|-1], k, o);
    }
  }

  lemma SamePairsSameIndex(a: Index, b: Index)
    requires Tight(a) && Tight(b)
    requires forall k, o :: Has(a, k, o) <==> Has(b, k, o)
    ensures a == b
  {
    forall k ensures k in a <==> k in b {
      if k in a { var o := Pick(a[k]); assert Has(a, k, o); assert Has(b, k, o); }
      if k in b { var o := Pick(b[k]); assert Has(b, k, o); assert Has(a, k, o); }
    }
    forall k | k in a ensures a[k] == b[k] {
      forall o ensures o in a[k] <==> o in b[k] {
        assert Has(a, k, o) <==> Has(b, k, o);
      }
    }
  }

  /**
   * Absorption. Suppose that once the writes `b` are applied, an index is what `a` and then `b`
   * make of some `s`. Then it does not matter whether `a` is applied to it again first.
   */
  lemma Absorb(r: Index, s: Index, a: seq<Write>, b: seq<Write>)
    requires Tight(r) && Tight(s)
    requires ApplyAll(r, b) == ApplyAll(s, a + b)
    ensures ApplyAll(r, a + b) == ApplyAll(s, a + b)
  {
    ApplyAllTight(r, a + b);
    ApplyAllTight(s, a + b);
    forall k, o ensures Has(ApplyAll(r, a + b), k, o) <==> Has(ApplyAll(s, a + b), k, o) {
      LastWriterWins(r, a + b, k, o);
      LastWriterWins(s, a + b, k, o);
      LastWriterWins(r, b, k, o);
      LastWriteConcat(a, b, k, o);
    }
    SamePairsSameIndex(ApplyAll(r, a + b), ApplyAll(s, a + b));
  }

  /** Re-applying the writes that were applied last changes nothing. */
  lemma Idempotent(s: Index, b: seq<Write>)
    requires Tight(s)
    ensures ApplyAll(ApplyAll(s, b), b) == ApplyAll(s, b)
  {
    var r := ApplyAll(s, b);
    ApplyAllTight(s, b);
    ApplyAllTight(r, b);
    forall k, o ensures Has(ApplyAll(r, b), k, o) <==> Has(r, k, o) {
      LastWriterWins(s, b, k, o);
      LastWriterWins(r, b, k, o);
    }
    SamePairsSameIndex(ApplyAll(r, b), r);
  }

  /** How many (key, object) pairs an index holds. */
  function Pairs(idx: Index): set<(int, int)> {
    set k, o | k in idx && o in idx[k] :: (k, o)
  }
}
