/**
 * Queries about several fields. Each field has its own index, and the answers are put together
 * by concatenation, so an object is found when one of its fields matches.
 */
module FieldQueries {
  import opened Base
  import opened Numerals
  import opened IndexOps
  import opened RangeIndexes
  import opened IndexManagers
  import opened ComplexQueries
  import opened QueryPath

  ghost predicate Matches(r: KeyRange, idx: Index, o: int) { exists k :: r.Contains(k) && Has(idx, k, o) }

  /** Some field matches: what a search answers, as `ResultsAreFound` shows. */
  ghost predicate FoundBy(rs: map<string, KeyRange>, idxs: map<string, Index>, o: int) {
    exists f :: f in rs && f in idxs && Matches(rs[f], idxs[f], o)
  }

  /** All fields match: what a conjunction of conditions asks for. */
  ghost predicate WantedBy(rs: map<string, KeyRange>, idxs: map<string, Index>, o: int) {
    forall f :: f in rs ==> f in idxs && Matches(rs[f], idxs[f], o)
  }

  /** The least and the greatest integer in a range. */
  function First(r: KeyRange): int { if r.lowerOpen then r.lower + 1 else r.lower }

  function Last(r: KeyRange): int { if r.upperOpen then r.upper - 1 else r.upper }

  lemma OnlyField(rs: map<string, KeyRange>, f: string)
    requires |rs| == 1 && f in rs
    ensures rs.Keys == {f}
  {
    var rest := rs.Keys - {f};
    assert |rest| == 0;
    assert rs.Keys == rest + {f};
  }

  /**
   * Over all contents of the indices, what is found is what is wanted if and only if the query is about one field,
   * or no key at all is in any of its ranges.
   */
  lemma UnionIsConjunctionIff(rs: map<string, KeyRange>)
    requires rs != map[]
    ensures (forall idxs, o :: FoundBy(rs, idxs, o) <==> WantedBy(rs, idxs, o)) <==>
            |rs| == 1 || forall f :: f in rs ==> Last(rs[f]) < First(rs[f])
  {
    var g := Pick(rs.Keys);
    if |rs| == 1 {
      OnlyField(rs, g);
    } else if forall f :: f in rs ==> Last(rs[f]) < First(rs[f]) {
      forall idxs, o ensures !FoundBy(rs, idxs, o) && !WantedBy(rs, idxs, o) {
        assert g in rs;
      }
    } else {
      var f :| f in rs && First(rs[f]) <= Last(rs[f]);
      FoundButNotWanted(rs, f);
    }
  }

  lemma FoundButNotWanted(rs: map<string, KeyRange>, f: string)
    requires f in rs && |rs| != 1 && First(rs[f]) <= Last(rs[f])
    ensures exists idxs, o :: FoundBy(rs, idxs, o) && !WantedBy(rs, idxs, o)
  {
    var idxs := map[f := map[First(rs[f]) := {1}]];
    assert rs[f].Contains(First(rs[f])) && Has(idxs[f], First(rs[f]), 1);
    assert Matches(rs[f], idxs[f], 1) && FoundBy(rs, idxs, 1);
    var rest := rs.Keys - {f};
    assert rs.Keys == rest + {f};
    assert |rs.Keys| == |rest| + 1;
    var g := Pick(rest);
    assert g in rs && g !in idxs;
  }

  // ---------------------------------------------------------------- what a search answers

  /** The key range a query gives each of its fields. */
  function RangesOf(t: IntType, ranges: Ranges): map<string, KeyRange> {
    map f | f in ranges && Bounds(t, ToRpc(ranges[f])).Some? :: Bounds(t, ToRpc(ranges[f])).value
  }

  /** The sub-query for a field, on the index at that path. */
  function Ask(ranges: Ranges, path: string -> string, f: string): SubQuery
    requires f in ranges
  {
    SubQuery(path(f), ToRpc(ranges[f]))
  }

  /** The sub-queries are one or more for each field of the query. */
  ghost predicate AsksEach(qs: seq<SubQuery>, ranges: Ranges, path: string -> string) {
    && (forall i :: 0 <= i < |qs| ==> exists f :: f in ranges && qs[i] == Ask(ranges, path, f))
    && (forall f :: f in ranges ==> Ask(ranges, path, f) in qs)
  }

  /** The server has an index of keys of type `t` for each field. */
  ghost predicate HasIndices(s: Server, t: IntType, ranges: Ranges, path: string -> string) {
    forall f :: f in ranges ==> path(f) in s.types && path(f) in s.states && s.types[path(f)] == t
  }

  /** The indices of the fields, as merged. */
  function IndicesOf(s: Server, ranges: Ranges, path: string -> string, txn: nat): map<string, Index> {
    map f | f in ranges && path(f) in s.types && path(f) in s.states :: s.Merge(path(f), txn).0.index
  }

  lemma AskFinds(s: Server, ranges: Ranges, path: string -> string, t: IntType, txn: nat, f: string, o: int)
    requires f in ranges && HasIndices(s, t, ranges, path) && Bounds(t, ToRpc(ranges[f])).Some? && s.Can(Ask(ranges, path, f), txn)
    ensures Finds(s, Ask(ranges, path, f), txn, o) <==> Matches(RangesOf(t, ranges)[f], IndicesOf(s, ranges, path, txn)[f], o)
  {
  }

  /** An object is among the results of a search about several fields exactly when some field matches. */
  lemma ResultsAreFound(s: Server, qs: seq<SubQuery>, ranges: Ranges, path: string -> string, t: IntType, txn: nat,
                        results: seq<int>, o: int)
    requires s.Results(qs, txn, results) && AsksEach(qs, ranges, path) && HasIndices(s, t, ranges, path)
    requires forall f :: f in ranges ==> Bounds(t, ToRpc(ranges[f])).Some?
    ensures o in results <==> FoundBy(RangesOf(t, ranges), IndicesOf(s, ranges, path, txn), o)
  {
    ResultsAreUnion(s, qs, txn, results, o);
    forall i | 0 <= i < |qs| ensures s.Can(qs[i], txn) {
      ResultsCan(s, qs, txn, results, i);
    }
    forall f | f in ranges
      ensures Finds(s, Ask(ranges, path, f), txn, o) <==> Matches(RangesOf(t, ranges)[f], IndicesOf(s, ranges, path, txn)[f], o)
    {
      var i :| 0 <= i < |qs| && qs[i] == Ask(ranges, path, f);
      AskFinds(s, ranges, path, t, txn, f, o);
    }
    if o in results {
      var i :| 0 <= i < |qs| && Finds(s, qs[i], txn, o);
      var f :| f in ranges && qs[i] == Ask(ranges, path, f);
      assert Matches(RangesOf(t, ranges)[f], IndicesOf(s, ranges, path, txn)[f], o);
    }
    if FoundBy(RangesOf(t, ranges), IndicesOf(s, ranges, path, txn), o) {
      var f :| f in ranges && Matches(RangesOf(t, ranges)[f], IndicesOf(s, ranges, path, txn)[f], o);
      var i :| 0 <= i < |qs| && qs[i] == Ask(ranges, path, f);
      assert Finds(s, qs[i], txn, o);
    }
  }

  // ---------------------------------------------------------------- from the query text

  function Fields(cs: seq<Cond>): set<string> { set c | c in cs :: c.field }

  lemma {:induction false} CollectFields(m: Ranges, cs: seq<Cond>)
    ensures Collect(m, cs).Keys == m.Keys + Fields(cs)
    decreases |cs|
  {
    if cs != [] {
      CollectFields(m[cs[0].field := SetBound(Get(m, cs[0].field), cs[0].op, cs[0].numeral)], cs[1..]);
      assert cs == [cs[0]] + cs[1..];
      assert Fields(cs) == {cs[0].field} + Fields(cs[1..]);
    }
  }

  /** The object has a key in the index of the field that satisfies every condition on it, the extremes of an open side aside. */
  ghost predicate Meets(t: IntType, cs: seq<Cond>, f: string, idx: Index, o: int)
    requires AllWell(t, cs)
  {
    exists k ::
      && Has(idx, k, o) && Satisfies(t, cs, f, k)
      && (LastLower(cs, f).None? ==> k != t.min) && (LastUpper(cs, f).None? ==> k != t.max)
  }

  lemma FieldMeets(t: IntType, cs: seq<Cond>, f: string, idx: Index, o: int)
    requires t.Valid() && AllWell(t, cs) && OnePerSide(cs, f) && forall k :: k in idx ==> t.Contains(k)
    ensures Bounds(t, ToRpc(Get(Collect(map[], cs), f))).Some?
    ensures Matches(Bounds(t, ToRpc(Get(Collect(map[], cs), f))).value, idx, o) <==> Meets(t, cs, f, idx, o)
  {
    ScanBounds(t, cs, f, 0);
    var range := Bounds(t, ToRpc(Get(Collect(map[], cs), f))).value;
    forall k | Has(idx, k, o)
      ensures range.Contains(k) <==>
              && Satisfies(t, cs, f, k)
              && (LastLower(cs, f).None? ==> k != t.min) && (LastUpper(cs, f).None? ==> k != t.max)
    {
      ScanBounds(t, cs, f, k);
      SatisfiesByLast(t, cs, f, k);
    }
  }

  /** All keys are of the type. */
  ghost predicate KeysFit(t: IntType, idxs: map<string, Index>) { forall f, k :: f in idxs && k in idxs[f] ==> t.Contains(k) }

  /** The ranges a query text about any number of fields gives them, and what they match. */
  lemma TextFindsUnion(t: IntType, dir: string, cs: seq<Cond>, idxs: map<string, Index>, o: int)
    requires t.Valid() && KeysFit(t, idxs)
    requires dir != "" && dir[0] == '/' && forall i :: 0 <= i < |dir| ==> dir[i] != '?'
    requires cs != [] && AllWell(t, cs) && forall f :: f in Fields(cs) ==> OnePerSide(cs, f)
    ensures ParseQuery(dir + "?" + ShowConds(cs)).status.Parsed?
    ensures RangesOf(t, ParseQuery(dir + "?" + ShowConds(cs)).ranges).Keys == Fields(cs)
    ensures FoundBy(RangesOf(t, ParseQuery(dir + "?" + ShowConds(cs)).ranges), idxs, o) <==>
            exists f :: f in Fields(cs) && f in idxs && Meets(t, cs, f, idxs[f], o)
  {
    ParseText(t, dir, cs);
    CollectFields(map[], cs);
    var ranges := Collect(map[], cs);
    forall f | f in ranges ensures Bounds(t, ToRpc(ranges[f])).Some? { ScanBounds(t, cs, f, 0); }
    forall f | f in ranges && f in idxs ensures Matches(RangesOf(t, ranges)[f], idxs[f], o) <==> Meets(t, cs, f, idxs[f], o) {
      FieldMeets(t, cs, f, idxs[f], o);
    }
  }

  /**
   * A query about any number of fields, with at most one condition per side of each: it parses, and an object is among
   * the results of the search exactly when, for some field, it has a key that satisfies all conditions on that field.
   */
  lemma QueryFindsUnion(t: IntType, dir: string, cs: seq<Cond>, s: Server, qs: seq<SubQuery>, path: string -> string,
                        txn: nat, results: seq<int>, o: int)
    requires dir != "" && dir[0] == '/' && forall i :: 0 <= i < |dir| ==> dir[i] != '?'
    requires t.Valid() && cs != [] && AllWell(t, cs) && forall f :: f in Fields(cs) ==> OnePerSide(cs, f)
    requires var ranges := ParseQuery(dir + "?" + ShowConds(cs)).ranges;
             && AsksEach(qs, ranges, path) && HasIndices(s, t, ranges, path)
             && KeysFit(t, IndicesOf(s, ranges, path, txn))
    requires s.Results(qs, txn, results)
    ensures ParseQuery(dir + "?" + ShowConds(cs)).status.Parsed?
    ensures o in results <==>
            exists f :: f in Fields(cs) && HoldsFor(t, cs, f, IndicesOf(s, ParseQuery(dir + "?" + ShowConds(cs)).ranges, path, txn), o)
  {
    var ranges := ParseQuery(dir + "?" + ShowConds(cs)).ranges;
    TextFindsUnion(t, dir, cs, IndicesOf(s, ranges, path, txn), o);
    ParseText(t, dir, cs);
    forall f | f in ranges ensures Bounds(t, ToRpc(ranges[f])).Some? { ScanBounds(t, cs, f, 0); }
    ResultsAreFound(s, qs, ranges, path, t, txn, results, o);
  }

  /** The field's index has the object under a key that meets all conditions on the field. */
  ghost predicate HoldsFor(t: IntType, cs: seq<Cond>, f: string, idxs: map<string, Index>, o: int)
    requires AllWell(t, cs)
  {
    f in idxs && Meets(t, cs, f, idxs[f], o)
  }

  /** If an object meets the conditions on one field and has no key at all in another, it is found but not wanted. */
  lemma FoundForOneField(t: IntType, dir: string, cs: seq<Cond>, ranges: Ranges, s: Server, qs: seq<SubQuery>,
                         path: string -> string, txn: nat, results: seq<int>, o: int, f: string, g: string)
    requires dir != "" && dir[0] == '/' && forall i :: 0 <= i < |dir| ==> dir[i] != '?'
    requires t.Valid() && cs != [] && AllWell(t, cs) && forall h :: h in Fields(cs) ==> OnePerSide(cs, h)
    requires ranges == ParseQuery(dir + "?" + ShowConds(cs)).ranges && KeysFit(t, IndicesOf(s, ranges, path, txn))
    requires AsksEach(qs, ranges, path) && HasIndices(s, t, ranges, path) && s.Results(qs, txn, results)
    requires f in Fields(cs) && HoldsFor(t, cs, f, IndicesOf(s, ranges, path, txn), o)
    requires g in Fields(cs) && g in IndicesOf(s, ranges, path, txn) && IndicesOf(s, ranges, path, txn)[g] == map[]
    ensures o in results && !WantedBy(RangesOf(t, ranges), IndicesOf(s, ranges, path, txn), o)
  {
    QueryFindsUnion(t, dir, cs, s, qs, path, txn, results, o);
    TextFindsUnion(t, dir, cs, IndicesOf(s, ranges, path, txn), o);
    NotWanted(RangesOf(t, ranges), IndicesOf(s, ranges, path, txn), g, o);
  }

  /** Asked for f>1&g>1, for any two fields, the search answers with an object that has no g at all. */
  lemma OneFieldIsEnough(dir: string, f: string, g: string, cs: seq<Cond>, ranges: Ranges, s: Server, qs: seq<SubQuery>,
                         path: string -> string, txn: nat, results: seq<int>, o: int)
    requires dir != "" && dir[0] == '/' && forall i :: 0 <= i < |dir| ==> dir[i] != '?'
    requires FieldName(f) && FieldName(g) && f != g && cs == [Simple(f, GT, "1"), Simple(g, GT, "1")]
    requires ranges == ParseQuery(dir + "?" + ShowConds(cs)).ranges
    requires AsksEach(qs, ranges, path) && HasIndices(s, INT64, ranges, path) && s.Results(qs, txn, results)
    requires OnlyUnder(IndicesOf(s, ranges, path, txn), f, g, o)
    ensures o in results && !WantedBy(RangesOf(INT64, ranges), IndicesOf(s, ranges, path, txn), o)
  {
    TwoFields(f, g, cs, IndicesOf(s, ranges, path, txn), o);
    FoundForOneField(INT64, dir, cs, ranges, s, qs, path, txn, results, o, f, g);
  }

  /** The object is under the key 5 in the index of one field, and there is nothing in that of the other. */
  ghost predicate OnlyUnder(idxs: map<string, Index>, f: string, g: string, o: int) {
    idxs.Keys == {f, g} && f != g && idxs[f] == map[5 := {o}] && idxs[g] == map[]
  }

  lemma NotWanted(rs: map<string, KeyRange>, idxs: map<string, Index>, g: string, o: int)
    requires g in rs && g in idxs && idxs[g] == map[]
    ensures !WantedBy(rs, idxs, o)
  {
  }

  lemma TwoFields(f: string, g: string, cs: seq<Cond>, idxs: map<string, Index>, o: int)
    requires FieldName(f) && FieldName(g) && OnlyUnder(idxs, f, g, o) && cs == [Simple(f, GT, "1"), Simple(g, GT, "1")]
    ensures AllWell(INT64, cs) && f in Fields(cs) && g in Fields(cs) && (forall h :: h in Fields(cs) ==> OnePerSide(cs, h))
    ensures HoldsFor(INT64, cs, f, idxs, o) && KeysFit(INT64, idxs) && g in idxs && idxs[g] == map[]
  {
    TwoConditions(f, g, cs);
    KeyMeets(cs, f, idxs[f], o);
  }

  lemma TwoConditions(f: string, g: string, cs: seq<Cond>)
    requires FieldName(f) && FieldName(g) && f != g && cs == [Simple(f, GT, "1"), Simple(g, GT, "1")]
    ensures AllWell(INT64, cs) && f in Fields(cs) && g in Fields(cs) && (forall h :: h in Fields(cs) ==> OnePerSide(cs, h))
    ensures forall c :: c in cs && c.field == f ==> c.op.GT? && Value(INT64, c) == 1
  {
    SimpleWell(f, GT, '1');
    SimpleWell(g, GT, '1');
    assert cs[0] in cs && cs[1] in cs;
  }

  lemma KeyMeets(cs: seq<Cond>, f: string, idx: Index, o: int)
    requires AllWell(INT64, cs) && idx == map[5 := {o}]
    requires forall c :: c in cs && c.field == f ==> c.op.GT? && Value(INT64, c) == 1
    ensures Meets(INT64, cs, f, idx, o)
  {
    assert Has(idx, 5, o) && Satisfies(INT64, cs, f, 5);
  }
}
