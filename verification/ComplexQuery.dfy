/**
 * The query parser: a path such as `/home/?size>=10&size<20` becomes a root directory and,
 * per field, a pair of textual bounds.
 */
module ComplexQueries {
  import opened Base
  import opened Numerals

  /** The bounds collected for one field; an empty text means that there is none. */
  datatype StringRange = StringRange(lower: string, lowerClosed: bool, upper: string, upperClosed: bool)

  const NO_RANGE := StringRange("", false, "", false)

  type Ranges = map<string, StringRange>

  /** `Aborted` is a failed `CHECK`; `UnitSuffix` stands for a value with a unit, whose conversion is not modelled. */
  datatype ParseStatus = Parsed | Malformed | NotAQuery | Aborted | UnitSuffix

  datatype CondOp = EQ | NEQ | GT | GE | LT | LE

  const OPCHARS := {'=', '!', '<', '>'}

  // ---------------------------------------------------------------- string searching

  /** `find_first_of`: the first position from `from` on with a character of `cs`, or the end. */
  function FindAny(s: string, cs: set<char>, from: nat): (r: nat)
    requires from <= |s|
    ensures from <= r <= |s|
    decreases |s| - from
  {
    if from == |s| || s[from] in cs then from else FindAny(s, cs, from + 1)
  }

  /** `find_first_not_of`. */
  function FindNone(s: string, cs: set<char>, from: nat): (r: nat)
    requires from <= |s|
    ensures from <= r <= |s|
    decreases |s| - from
  {
    if from == |s| || s[from] !in cs then from else FindNone(s, cs, from + 1)
  }

  lemma {:induction false} FindAnyIs(s: string, cs: set<char>, from: nat, r: nat)
    requires from <= r <= |s| && (r < |s| ==> s[r] in cs) && forall i :: from <= i < r ==> s[i] !in cs
    ensures FindAny(s, cs, from) == r
    decreases r - from
  {
    if from < r { FindAnyIs(s, cs, from + 1, r); }
  }

  lemma {:induction false} FindNoneIs(s: string, cs: set<char>, from: nat, r: nat)
    requires from <= r <= |s| && (r < |s| ==> s[r] !in cs) && forall i :: from <= i < r ==> s[i] in cs
    ensures FindNone(s, cs, from) == r
    decreases r - from
  {
    if from < r { FindNoneIs(s, cs, from + 1, r); }
  }

  function TrimLeft(s: string): string {
    if s != [] && IsSpace(s[0]) then TrimLeft(s[1..]) else s
  }

  function TrimRight(s: string): string {
    if s != [] && IsSpace(s[|s|-1]) then TrimRight(s[..|s|-1]) else s
  }

  function Trim(s: string): string { TrimRight(TrimLeft(s)) }

  // ---------------------------------------------------------------- the grammar, as the code reads it

  function ParseCondOp(op: string): (r: Option<CondOp>)
    ensures r.Some? ==> OpText(r.value) == op
    ensures r.None? ==> forall c :: OpText(c) != op
  {
    if op == "=" then Some(EQ)
    else if op == "!=" then Some(NEQ)
    else if op == ">" then Some(GT)
    else if op == ">=" then Some(GE)
    else if op == "<" then Some(LT)
    else if op == "<=" then Some(LE)
    else None
  }

  function OpText(c: CondOp): string {
    match c
    case EQ => "="
    case NEQ => "!="
    case GT => ">"
    case GE => ">="
    case LT => "<"
    case LE => "<="
  }

  predicate Plain(value: string) { forall i :: 0 <= i < |value| ==> value[i] in {'0', '1', '2', '3', '4', '5', '6', '7', '8', '9', '.', '+', '-'} }

  /** A condition overwrites the bound on its side, or on both sides for an equality. */
  function SetBound(r: StringRange, op: CondOp, value: string): StringRange {
    match op
    case LE => r.(upper := value, upperClosed := true)
    case LT => r.(upper := value, upperClosed := false)
    case GE => r.(lower := value, lowerClosed := true)
    case GT => r.(lower := value, lowerClosed := false)
    case EQ => StringRange(value, true, value, true)
    case NEQ => r
  }

  function Get(m: Ranges, field: string): StringRange { if field in m then m[field] else NO_RANGE }

  function ParseExpression(m: Ranges, exp: string): (ParseStatus, Ranges) {
    if exp == "" then (Aborted, m)
    else
      var opPos := FindAny(exp, OPCHARS, 0);
      if opPos == |exp| then (Malformed, m)
      else
        var valuePos := FindNone(exp, OPCHARS, opPos);
        if valuePos == |exp| then (Malformed, m)
        else
          var field, value := Trim(exp[..opPos]), Trim(exp[valuePos..]);
          match ParseCondOp(exp[opPos..valuePos])
          case None => (Malformed, m)
          case Some(op) =>
            if !Plain(value) then (UnitSuffix, m)
            else if op.NEQ? then (Malformed, m)
            else (Parsed, m[field := SetBound(Get(m, field), op, value)])
  }

  /** The pieces of a segment between '&' characters. */
  function SplitConditions(s: string): (pieces: seq<string>)
    ensures pieces != []
    decreases |s|, 1
  {
    var amp := FindAny(s, {'&'}, 0);
    [s[..amp]] + ConditionsAfter(s, amp)
  }

  function ConditionsAfter(s: string, amp: nat): seq<string>
    decreases |s|, 0
  {
    if amp < |s| then SplitConditions(s[amp + 1..]) else []
  }

  /** Conditions one after the other, up to the first that fails. */
  function ParseConditions(m: Ranges, exps: seq<string>): (ParseStatus, Ranges)
    decreases |exps|
  {
    if exps == [] then (Parsed, m)
    else
      var (st, m') := ParseExpression(m, exps[0]);
      if st.Parsed? then ParseConditions(m', exps[1..]) else (st, m')
  }

  function ParseSegment(m: Ranges, seg: string): (ParseStatus, Ranges) {
    if seg == "" then (Malformed, m)
    else if FindAny(seg, {'<', '>', '=', '!'}, 0) < |seg| then ParseConditions(m, SplitConditions(seg))
    else (Parsed, m)
  }

  /** The segments from `last` on; one that is followed by a '/' loses its first character. */
  function SplitSegments(buf: string, last: nat): (segs: seq<string>)
    requires last <= |buf|
    ensures segs != []
    decreases |buf| - last, 1
  {
    if last == |buf| then [""] else SegmentsUpto(buf, last, FindAny(buf, {'/'}, last + 1))
  }

  function SegmentsUpto(buf: string, last: nat, pos: nat): (segs: seq<string>)
    requires last < pos <= |buf|
    ensures segs != []
    decreases |buf| - last, 0
  {
    if pos == |buf| then [buf[last..]]
    else if pos == last + 1 then SplitSegments(buf, pos)
    else [buf[last + 1..pos]] + SplitSegments(buf, pos + 1)
  }

  function ParseSegments(m: Ranges, segs: seq<string>): (ParseStatus, Ranges)
    decreases |segs|
  {
    if segs == [] then (Parsed, m)
    else
      var (st, m') := ParseSegment(m, segs[0]);
      if st.Parsed? then ParseSegments(m', segs[1..]) else (st, m')
  }

  datatype Parse = Parse(status: ParseStatus, root: string, ranges: Ranges)

  /** Parsing into a query object with a root and ranges: a second query adds to the ranges of the first. */
  function ParseInto(root: string, m: Ranges, buf: string): Parse {
    if buf == "" || buf[0] != '/' then Parse(Aborted, root, m)
    else
      var pos := FindAny(buf, {'?'}, 0);
      if pos == |buf| then Parse(NotAQuery, root, m)
      else
        var (st, m') := ParseSegments(m, SplitSegments(buf, pos + 1));
        Parse(st, if pos > 1 then buf[..pos-1] else "/", m')
  }

  function ParseQuery(buf: string): Parse { ParseInto("", map[], buf) }

  // ---------------------------------------------------------------- the parser

  lemma {:induction false} FindAnyShift(s: string, cs: set<char>, from: nat, i: nat)
    requires from + i <= |s|
    ensures FindAny(s, cs, from + i) == from + FindAny(s[from..], cs, i)
    decreases |s| - from - i
  {
    if from + i < |s| && s[from + i] !in cs { FindAnyShift(s, cs, from, i + 1); }
  }

  lemma SplitAt(buf: string, last: nat, pos: nat)
    requires last <= pos <= |buf| && pos == FindAny(buf, {'&'}, last)
    ensures SplitConditions(buf[last..])[0] == buf[last..pos]
    ensures SplitConditions(buf[last..])[1..] == if pos < |buf| then SplitConditions(buf[pos + 1..]) else []
  {
    FindAnyShift(buf, {'&'}, last, 0);
    var s, amp := buf[last..], pos - last;
    assert s[..amp] == buf[last..pos];
    SplitFront(s, amp);
    if pos < |buf| { assert s[amp + 1..] == buf[pos + 1..]; }
  }

  lemma SplitFront(s: string, amp: nat)
    requires amp == FindAny(s, {'&'}, 0)
    ensures SplitConditions(s)[0] == s[..amp]
    ensures SplitConditions(s)[1..] == if amp < |s| then SplitConditions(s[amp + 1..]) else []
  {
    FrontOf(s[..amp], ConditionsAfter(s, amp));
  }

  lemma FrontOf(x: string, xs: seq<string>)
    ensures ([x] + xs)[0] == x && ([x] + xs)[1..] == xs
  {
  }

  /** Takes the next condition; `next` is where the one after it starts, if there is one. */
  method NextCondition(buf: string, last: nat) returns (exp: string, next: Option<nat>)
    requires last <= |buf|
    ensures SplitConditions(buf[last..])[0] == exp
    ensures SplitConditions(buf[last..])[1..] ==
            if next.Some? && next.value <= |buf| then SplitConditions(buf[next.value..]) else []
    ensures next.Some? ==> last < next.value <= |buf|
  {
    var pos := FindAny(buf, {'&'}, last);
    SplitAt(buf, last, pos);
    return buf[last..pos], if pos == |buf| then None else Some(pos + 1);
  }

  /** Takes the next segment; `next` is where the one after it starts, if there is one. */
  method NextSegment(buf: string, start: nat) returns (segment: string, next: Option<nat>)
    requires start <= |buf|
    ensures SplitSegments(buf, start)[0] == segment
    ensures SplitSegments(buf, start)[1..] == if next.Some? && next.value <= |buf| then SplitSegments(buf, next.value) else []
    ensures next.Some? ==> start < next.value <= |buf|
  {
    var last := start;
    while last < |buf|
      invariant start <= last <= |buf| && SplitSegments(buf, last) == SplitSegments(buf, start)
    {
      var pos := FindAny(buf, {'/'}, last + 1);
      SegmentAt(buf, last, pos);
      if pos == |buf| {
        return buf[last..], None;
      }
      if pos != last + 1 {
        return buf[last + 1..pos], Some(pos + 1);
      }
      last := pos;
    }
    return "", None;
  }

  lemma SegmentAt(buf: string, last: nat, pos: nat)
    requires last < |buf| && pos == FindAny(buf, {'/'}, last + 1)
    ensures pos == |buf| ==> SplitSegments(buf, last) == [buf[last..]] && SplitSegments(buf, last)[1..] == []
    ensures pos == last + 1 < |buf| ==> SplitSegments(buf, last) == SplitSegments(buf, pos)
    ensures last + 1 < pos < |buf| ==> SplitSegments(buf, last)[0] == buf[last + 1..pos] &&
                                       SplitSegments(buf, last)[1..] == SplitSegments(buf, pos + 1)
  {
    if last + 1 < pos < |buf| {
      FrontOf(buf[last + 1..pos], SplitSegments(buf, pos + 1));
    }
  }

  class ComplexQuery {
    var root: string
    var rangeQueryMap: Ranges

    constructor ()
      ensures root == "" && rangeQueryMap == map[]
    {
      root, rangeQueryMap := "", map[];
    }

    method DoExpression(exp: string) returns (st: ParseStatus)
      modifies this`rangeQueryMap
      ensures (st, rangeQueryMap) == ParseExpression(old(rangeQueryMap), exp)
    {
      if exp == "" {
        return Aborted;
      }
      var opPos := FindAny(exp, OPCHARS, 0);
      if opPos == |exp| {
        return Malformed;
      }
      var valuePos := FindNone(exp, OPCHARS, opPos);
      if valuePos == |exp| {
        return Malformed;
      }
      var field, value := Trim(exp[..opPos]), Trim(exp[valuePos..]);
      var op := ParseCondOp(exp[opPos..valuePos]);
      if op.None? {
        return Malformed;
      }
      if !Plain(value) {
        return UnitSuffix;
      }
      var r := Get(rangeQueryMap, field);
      match op.value {
        case LE => r := r.(upper := value, upperClosed := true);
        case LT => r := r.(upper := value, upperClosed := false);
        case GE => r := r.(lower := value, lowerClosed := true);
        case GT => r := r.(lower := value, lowerClosed := false);
        case EQ =>
          r := r.(upper := value, upperClosed := true);
          r := r.(lower := value, lowerClosed := true);
        case NEQ => return Malformed;
      }
      rangeQueryMap := rangeQueryMap[field := r];
      return Parsed;
    }

    method DoCondition(buf: string) returns (st: ParseStatus)
      requires buf != ""
      modifies this`rangeQueryMap
      ensures (st, rangeQueryMap) == ParseConditions(old(rangeQueryMap), SplitConditions(buf))
    {
      var pos := 0;
      assert buf[0..] == buf;
      while true
        invariant 0 <= pos <= |buf|
        invariant ParseConditions(rangeQueryMap, SplitConditions(buf[pos..])) ==
                  ParseConditions(old(rangeQueryMap), SplitConditions(buf))
        decreases |buf| - pos
      {
        var exp, next := NextCondition(buf, pos);
        st := DoExpression(exp);
        if !st.Parsed? || next.None? {
          return;
        }
        pos := next.value;
      }
    }

    method DoSegment(seg: string) returns (st: ParseStatus)
      modifies this`rangeQueryMap
      ensures (st, rangeQueryMap) == ParseSegment(old(rangeQueryMap), seg)
    {
      if seg == "" {
        return Malformed;
      }
      if FindAny(seg, {'<', '>', '=', '!'}, 0) < |seg| {
        st := DoCondition(seg);
        return;
      }
      return Parsed;
    }

    method DoSegments(buf: string, start: nat) returns (st: ParseStatus)
      requires start <= |buf|
      modifies this`rangeQueryMap
      ensures (st, rangeQueryMap) == ParseSegments(old(rangeQueryMap), SplitSegments(buf, start))
    {
      var pos := start;
      while true
        invariant start <= pos <= |buf|
        invariant ParseSegments(rangeQueryMap, SplitSegments(buf, pos)) ==
                  ParseSegments(old(rangeQueryMap), SplitSegments(buf, start))
        decreases |buf| - pos
      {
        var segment, next := NextSegment(buf, pos);
        st := DoSegment(segment);
        if !st.Parsed? || next.None? {
          return;
        }
        pos := next.value;
      }
    }

    method DoParse(buf: string) returns (st: ParseStatus)
      modifies this
      ensures Parse(st, root, rangeQueryMap) == ParseInto(old(root), old(rangeQueryMap), buf)
    {
      if buf == "" || buf[0] != '/' {
        return Aborted;
      }
      var pos := FindAny(buf, {'?'}, 0);
      if pos == |buf| {
        return NotAQuery;
      }
      root := if pos > 1 then buf[..pos-1] else "/";
      st := DoSegments(buf, pos + 1);
    }
  }
}
