/**
 * From a query string to the objects found: the parser, the conversion to an RPC range and
 * the ordered scan together answer what the conditions mean.
 */
module QueryPath {
  import opened Base
  import opened Numerals
  import opened IndexOps
  import opened RangeIndexes
  import opened ComplexQueries

  // ---------------------------------------------------------------- conditions and their texts

  /** A condition as it may be written: white space around its three parts, any numeral as the value. */
  datatype Cond = Cond(field: string, op: CondOp, numeral: string, pad0: string, pad1: string, pad2: string, pad3: string)

  predicate AllSpace(s: string) { forall i :: 0 <= i < |s| ==> IsSpace(s[i]) }

  predicate Trimmed(s: string) { s == "" || (!IsSpace(s[0]) && !IsSpace(s[|s|-1])) }

  /** None of the characters of `cs` occurs. */
  predicate Avoids(s: string, cs: set<char>) { forall i :: 0 <= i < |s| ==> s[i] !in cs }

  /** The characters with a meaning in a query: operators and separators. */
  const RESERVED := {'=', '!', '<', '>', '&', '/'}

  predicate FieldName(s: string) { Trimmed(s) && Avoids(s, RESERVED) }

  /** The condition is an order comparison of a field with an integer of the key type. */
  predicate Well(t: IntType, c: Cond) {
    && FieldName(c.field) && !c.op.NEQ? && LexicalCast(t, c.numeral).Some?
    && AllSpace(c.pad0) && AllSpace(c.pad1) && AllSpace(c.pad2) && AllSpace(c.pad3)
  }

  function Left(c: Cond): string { c.pad0 + c.field + c.pad1 }

  function Right(c: Cond): string { c.pad2 + c.numeral + c.pad3 }

  function Show(c: Cond): string { Left(c) + OpText(c.op) + Right(c) }

  function Texts(cs: seq<Cond>): seq<string> { if cs == [] then [] else [Show(cs[0])] + Texts(cs[1..]) }

  /** Texts joined by '&'. */
  function JoinTexts(ts: seq<string>): string
    requires ts != []
    decreases |ts|, 1
  {
    ts[0] + JoinTail(ts)
  }

  function JoinTail(ts: seq<string>): string
    requires ts != []
    decreases |ts|, 0
  {
    if |ts| == 1 then "" else "&" + JoinTexts(ts[1..])
  }

  function ShowConds(cs: seq<Cond>): string
    requires cs != []
  {
    JoinTexts(Texts(cs))
  }

  function Value(t: IntType, c: Cond): int
    requires Well(t, c)
  {
    LexicalCast(t, c.numeral).value
  }

  /** What a condition says about a key. */
  predicate Holds(t: IntType, c: Cond, k: int)
    requires Well(t, c)
  {
    var v := Value(t, c);
    match c.op
    case EQ => k == v
    case GT => k > v
    case GE => k >= v
    case LT => k < v
    case LE => k <= v
  }

  // ---------------------------------------------------------------- the parser on such texts

  lemma {:induction false} TrimLeftPad(a: string, s: string)
    requires AllSpace(a)
    ensures TrimLeft(a + s) == TrimLeft(s)
  {
    if a == [] {
      assert a + s == s;
    } else {
      assert (a + s)[1..] == a[1..] + s;
      TrimLeftPad(a[1..], s);
    }
  }

  lemma {:induction false} TrimRightPad(s: string, b: string)
    requires AllSpace(b)
    ensures TrimRight(s + b) == TrimRight(s)
  {
    if b == [] {
      assert s + b == s;
    } else {
      assert (s + b)[..|s + b|-1] == s + b[..|b|-1];
      TrimRightPad(s, b[..|b|-1]);
    }
  }

  lemma TrimPad(a: string, s: string, b: string)
    requires AllSpace(a) && AllSpace(b) && Trimmed(s)
    ensures Trim(a + s + b) == s
  {
    assert a + s + b == a + (s + b);
    TrimLeftPad(a, s + b);
    if s == [] {
      assert s + b == b + [];
      TrimLeftPad(b, []);
    } else {
      assert (s + b)[0] == s[0];
      TrimRightPad(s, b);
    }
  }

  /** A numeral consists of digits, perhaps after a sign. */
  lemma NumeralChars(t: IntType, s: string)
    requires LexicalCast(t, s).Some?
    ensures Plain(s) && Trimmed(s) && s != "" && Avoids(s, RESERVED)
  {
    forall i | 0 <= i < |s|
      ensures s[i] in {'0', '1', '2', '3', '4', '5', '6', '7', '8', '9', '.', '+', '-'} && s[i] !in RESERVED && !IsSpace(s[i])
    {
      NumeralChar(t, s, i);
      DigitIsPlain(s[i]);
    }
  }

  lemma NumeralChar(t: IntType, s: string, i: nat)
    requires LexicalCast(t, s).Some? && i < |s|
    ensures s[i] == '-' || s[i] == '+' || IsDigit(s[i])
  {
    var signed := s[0] == '-' || s[0] == '+';
    var body := if signed then s[1..] else s;
    assert AllDigits(body);
    if i > 0 || !signed { assert s[i] == body[if signed then i - 1 else i]; }
  }

  lemma DigitIsPlain(c: char)
    ensures IsDigit(c) || c == '-' || c == '+' ==> c in {'0', '1', '2', '3', '4', '5', '6', '7', '8', '9', '.', '+', '-'} && c !in RESERVED && !IsSpace(c)
  {
  }

  lemma AvoidsConcat(a: string, b: string, cs: set<char>)
    requires Avoids(a, cs) && Avoids(b, cs)
    ensures Avoids(a + b, cs)
  {
  }

  lemma AvoidsFewer(s: string)
    requires Avoids(s, RESERVED)
    ensures Avoids(s, OPCHARS) && Avoids(s, {'&', '/'})
  {
    forall i | 0 <= i < |s| ensures s[i] !in OPCHARS && s[i] !in {'&', '/'} {
      assert s[i] !in RESERVED;
    }
  }

  lemma SpaceAvoids(s: string)
    requires AllSpace(s)
    ensures Avoids(s, RESERVED)
  {
  }

  /** Neither side of the operator holds a reserved character. */
  lemma SideChars(t: IntType, c: Cond)
    requires Well(t, c)
    ensures Avoids(Left(c), RESERVED) && Avoids(Right(c), RESERVED) && Right(c) != ""
  {
    NumeralChars(t, c.numeral);
    SpaceAvoids(c.pad0);
    SpaceAvoids(c.pad1);
    SpaceAvoids(c.pad2);
    SpaceAvoids(c.pad3);
    AvoidsConcat(c.pad0, c.field, RESERVED);
    AvoidsConcat(c.pad0 + c.field, c.pad1, RESERVED);
    AvoidsConcat(c.pad2, c.numeral, RESERVED);
    AvoidsConcat(c.pad2 + c.numeral, c.pad3, RESERVED);
  }

  /** Nothing in the text of a condition separates conditions or segments. */
  lemma ShowChars(t: IntType, c: Cond)
    requires Well(t, c)
    ensures Avoids(Show(c), {'&', '/'})
  {
    SideChars(t, c);
    AvoidsFewer(Left(c));
    AvoidsFewer(Right(c));
    AvoidsConcat(Left(c), OpText(c.op), {'&', '/'});
    AvoidsConcat(Left(c) + OpText(c.op), Right(c), {'&', '/'});
  }

  /** The operator is found between the two sides. */
  lemma FindOperator(l: string, op: CondOp, r: string)
    requires Avoids(l, OPCHARS) && Avoids(r, OPCHARS) && r != ""
    ensures var s, o := l + OpText(op) + r, OpText(op);
            && FindAny(s, OPCHARS, 0) == |l| && |l| < |s|
            && FindNone(s, OPCHARS, |l|) == |l| + |o| && |l| + |o| < |s|
            && s[..|l|] == l && s[|l|..|l| + |o|] == o && s[|l| + |o|..] == r
  {
    var o := OpText(op);
    var s := l + o + r;
    OpChars(op);
    forall i | 0 <= i < |l| ensures s[i] !in OPCHARS { assert s[i] == l[i]; }
    assert s[|l|] == o[0];
    FindAnyIs(s, OPCHARS, 0, |l|);
    forall i | |l| <= i < |l| + |o| ensures s[i] in OPCHARS { assert s[i] == o[i - |l|]; }
    assert s[|l| + |o|] == r[0];
    FindNoneIs(s, OPCHARS, |l|, |l| + |o|);
  }

  lemma OpChars(op: CondOp)
    ensures OpText(op) != "" && forall i :: 0 <= i < |OpText(op)| ==> OpText(op)[i] in OPCHARS
  {
  }

  lemma ParsePieces(m: Ranges, l: string, op: CondOp, r: string, field: string, value: string)
    requires Avoids(l, OPCHARS) && Avoids(r, OPCHARS) && r != "" && !op.NEQ?
    requires Trim(l) == field && Trim(r) == value && Plain(value)
    ensures ParseExpression(m, l + OpText(op) + r) == (Parsed, m[field := SetBound(Get(m, field), op, value)])
  {
    FindOperator(l, op, r);
    assert ParseCondOp(OpText(op)) == Some(op);
  }

  lemma ParseOne(t: IntType, m: Ranges, c: Cond)
    requires Well(t, c)
    ensures ParseExpression(m, Show(c)) == (Parsed, m[c.field := SetBound(Get(m, c.field), c.op, c.numeral)])
  {
    SideChars(t, c);
    AvoidsFewer(Left(c));
    AvoidsFewer(Right(c));
    NumeralChars(t, c.numeral);
    TrimPad(c.pad0, c.field, c.pad1);
    TrimPad(c.pad2, c.numeral, c.pad3);
    ParsePieces(m, Left(c), c.op, Right(c), c.field, c.numeral);
  }

  // The operators by their texts, for any field name and numeral: which bound each sets, and whether it is closed.

  /** "<" sets the upper bound, open. */
  lemma LessMeans(t: IntType, m: Ranges, f: string, v: string)
    requires FieldName(f) && LexicalCast(t, v).Some?
    ensures ParseExpression(m, f + "<" + v) == (Parsed, m[f := Get(m, f).(upper := v, upperClosed := false)])
  {
    var r := Get(m, f).(upper := v, upperClosed := false);
    assert r == SetBound(Get(m, f), LT, v);
    assert OpText(LT) == "<";
    OperatorParses(t, m, f, LT, v, "<");
  }

  /** "<=" sets it closed. */
  lemma AtMostMeans(t: IntType, m: Ranges, f: string, v: string)
    requires FieldName(f) && LexicalCast(t, v).Some?
    ensures ParseExpression(m, f + "<=" + v) == (Parsed, m[f := Get(m, f).(upper := v, upperClosed := true)])
  {
    var r := Get(m, f).(upper := v, upperClosed := true);
    assert r == SetBound(Get(m, f), LE, v);
    assert OpText(LE) == "<=";
    OperatorParses(t, m, f, LE, v, "<=");
  }

  /** ">" sets the lower bound, open. */
  lemma GreaterMeans(t: IntType, m: Ranges, f: string, v: string)
    requires FieldName(f) && LexicalCast(t, v).Some?
    ensures ParseExpression(m, f + ">" + v) == (Parsed, m[f := Get(m, f).(lower := v, lowerClosed := false)])
  {
    var r := Get(m, f).(lower := v, lowerClosed := false);
    assert r == SetBound(Get(m, f), GT, v);
    assert OpText(GT) == ">";
    OperatorParses(t, m, f, GT, v, ">");
  }

  /** ">=" sets it closed. */
  lemma AtLeastMeans(t: IntType, m: Ranges, f: string, v: string)
    requires FieldName(f) && LexicalCast(t, v).Some?
    ensures ParseExpression(m, f + ">=" + v) == (Parsed, m[f := Get(m, f).(lower := v, lowerClosed := true)])
  {
    var r := Get(m, f).(lower := v, lowerClosed := true);
    assert r == SetBound(Get(m, f), GE, v);
    assert OpText(GE) == ">=";
    OperatorParses(t, m, f, GE, v, ">=");
  }

  /** "=" sets both, closed. */
  lemma EqualsMeans(t: IntType, m: Ranges, f: string, v: string)
    requires FieldName(f) && LexicalCast(t, v).Some?
    ensures ParseExpression(m, f + "=" + v) == (Parsed, m[f := StringRange(v, true, v, true)])
  {
    OperatorParses(t, m, f, EQ, v, "=");
  }

  /** "!=" is refused. */
  lemma DiffersMeans(t: IntType, m: Ranges, f: string, v: string)
    requires FieldName(f) && LexicalCast(t, v).Some?
    ensures ParseExpression(m, f + "!=" + v) == (Malformed, m)
  {
    OperatorParses(t, m, f, NEQ, v, "!=");
  }

  lemma OperatorParses(t: IntType, m: Ranges, f: string, op: CondOp, v: string, o: string)
    requires FieldName(f) && LexicalCast(t, v).Some? && OpText(op) == o
    ensures ParseExpression(m, f + o + v) == if op.NEQ? then (Malformed, m) else (Parsed, m[f := SetBound(Get(m, f), op, v)])
  {
    NumeralChars(t, v);
    AvoidsFewer(f);
    AvoidsFewer(v);
    TrimAlone(f);
    TrimAlone(v);
    PiecesParse(m, f, op, v);
  }

  lemma PiecesParse(m: Ranges, f: string, op: CondOp, v: string)
    requires Avoids(f, OPCHARS) && Avoids(v, OPCHARS) && v != "" && Plain(v) && Trim(f) == f && Trim(v) == v
    ensures ParseExpression(m, f + OpText(op) + v) ==
            if op.NEQ? then (Malformed, m) else (Parsed, m[f := SetBound(Get(m, f), op, v)])
  {
    FindOperator(f, op, v);
    assert ParseCondOp(OpText(op)) == Some(op);
  }

  /**
   * What is not a condition: without an operator, with nothing behind it, or with one that is none of the six, an
   * expression is refused and changes nothing; an empty one aborts.
   */
  lemma ExpressionErrors(m: Ranges, l: string, o: string, r: string)
    requires Avoids(l, OPCHARS) && o != "" && (forall i :: 0 <= i < |o| ==> o[i] in OPCHARS)
    requires r != "" && Avoids(r, OPCHARS)
    ensures ParseExpression(m, "") == (Aborted, m)
    ensures l != "" ==> ParseExpression(m, l) == (Malformed, m)
    ensures ParseExpression(m, l + o) == (Malformed, m)
    ensures o !in {"=", "!=", "<", "<=", ">", ">="} ==> ParseExpression(m, l + o + r) == (Malformed, m)
  {
    if l != "" { NoOperator(m, l); }
    NothingBehind(m, l, o);
    if o !in {"=", "!=", "<", "<=", ">", ">="} { UnknownOperator(m, l, o, r); }
  }

  lemma NoOperator(m: Ranges, l: string)
    requires Avoids(l, OPCHARS) && l != ""
    ensures ParseExpression(m, l) == (Malformed, m)
  {
    FindAnyIs(l, OPCHARS, 0, |l|);
  }

  lemma NothingBehind(m: Ranges, l: string, o: string)
    requires Avoids(l, OPCHARS) && o != "" && forall i :: 0 <= i < |o| ==> o[i] in OPCHARS
    ensures ParseExpression(m, l + o) == (Malformed, m)
  {
    var s := l + o;
    forall i | 0 <= i < |l| ensures s[i] !in OPCHARS { assert s[i] == l[i]; }
    assert s[|l|] == o[0];
    FindAnyIs(s, OPCHARS, 0, |l|);
    forall i | |l| <= i < |s| ensures s[i] in OPCHARS { assert s[i] == o[i - |l|]; }
    FindNoneIs(s, OPCHARS, |l|, |s|);
  }

  lemma UnknownOperator(m: Ranges, l: string, o: string, r: string)
    requires Avoids(l, OPCHARS) && o != "" && (forall i :: 0 <= i < |o| ==> o[i] in OPCHARS)
    requires r != "" && Avoids(r, OPCHARS) && o !in {"=", "!=", "<", "<=", ">", ">="}
    ensures ParseExpression(m, l + o + r) == (Malformed, m)
  {
    var s := l + o + r;
    forall i | 0 <= i < |l| ensures s[i] !in OPCHARS { assert s[i] == l[i]; }
    assert s[|l|] == o[0];
    FindAnyIs(s, OPCHARS, 0, |l|);
    forall i | |l| <= i < |l| + |o| ensures s[i] in OPCHARS { assert s[i] == o[i - |l|]; }
    assert s[|l| + |o|] == r[0];
    FindNoneIs(s, OPCHARS, |l|, |l| + |o|);
    assert s[|l|..|l| + |o|] == o;
  }

  /** The conditions before one that fails have their effect, those behind it have none. */
  lemma {:induction false} ConditionsStop(m: Ranges, a: seq<string>, e: string, b: seq<string>)
    requires ParseConditions(m, a).0.Parsed?
    ensures var (st, m') := ParseExpression(ParseConditions(m, a).1, e);
            !st.Parsed? ==> ParseConditions(m, a + [e] + b) == (st, m')
    decreases |a|
  {
    if a == [] {
      assert (a + [e] + b)[0] == e;
    } else {
      assert (a + [e] + b)[1..] == a[1..] + [e] + b && (a + [e] + b)[0] == a[0];
      ConditionsStop(ParseExpression(m, a[0]).1, a[1..], e, b);
    }
  }

  /** What is not a query: a text that is empty or does not start with a slash aborts, one without '?' is refused. */
  lemma NotQueries(root: string, m: Ranges, s: string)
    ensures (s == "" || s[0] != '/') ==> ParseInto(root, m, s) == Parse(Aborted, root, m)
    ensures s != "" && s[0] == '/' && Avoids(s, {'?'}) ==> ParseInto(root, m, s) == Parse(NotAQuery, root, m)
    ensures ParseSegment(m, "") == (Malformed, m)
    ensures s != "" && Avoids(s, OPCHARS) ==> ParseSegment(m, s) == (Parsed, m)
  {
    if Avoids(s, {'?'}) { FindAnyIs(s, {'?'}, 0, |s|); }
    if Avoids(s, OPCHARS) { FindAnyIs(s, {'<', '>', '=', '!'}, 0, |s|); }
  }

  lemma TrimAlone(s: string)
    requires Trimmed(s)
    ensures Trim(s) == s
  {
    TrimPad("", s, "");
    assert "" + s + "" == s;
  }

  /** The ranges a list of conditions adds up to: per field and side, the last one counts. */
  function Collect(m: Ranges, cs: seq<Cond>): Ranges
    decreases |cs|
  {
    if cs == [] then m
    else Collect(m[cs[0].field := SetBound(Get(m, cs[0].field), cs[0].op, cs[0].numeral)], cs[1..])
  }

  ghost predicate AllWell(t: IntType, cs: seq<Cond>) { forall c :: c in cs ==> Well(t, c) }

  /** Where the text of a condition ends in a longer buffer. */
  lemma SplitFirst(text: string, tail: string)
    requires Avoids(text, {'&', '/'}) && (tail == "" || tail[0] == '&')
    ensures SplitConditions(text + tail) == [text] + if tail == "" then [] else SplitConditions(tail[1..])
  {
    var buf := text + tail;
    forall i | 0 <= i < |text| ensures buf[i] !in {'&'} {
      assert buf[i] == text[i];
    }
    FindAnyIs(buf, {'&'}, 0, |text|);
    assert buf[..|text|] == text;
    if tail != "" { assert buf[|text| + 1..] == tail[1..]; }
  }

  /** Splitting joined texts gives them back. */
  lemma {:induction false} SplitJoined(ts: seq<string>)
    requires ts != [] && forall i :: 0 <= i < |ts| ==> Avoids(ts[i], {'&', '/'})
    ensures SplitConditions(JoinTexts(ts)) == ts
    decreases |ts|
  {
    SplitFirst(ts[0], JoinTail(ts));
    if |ts| > 1 {
      assert JoinTail(ts)[1..] == JoinTexts(ts[1..]);
      SplitJoined(ts[1..]);
    }
  }

  lemma {:induction false} TextsAvoid(t: IntType, cs: seq<Cond>)
    requires AllWell(t, cs)
    ensures |Texts(cs)| == |cs| && forall i :: 0 <= i < |cs| ==> Texts(cs)[i] == Show(cs[i]) && Avoids(Texts(cs)[i], {'&', '/'})
  {
    if cs != [] {
      ShowChars(t, cs[0]);
      assert forall x :: x in cs[1..] ==> x in cs;
      TextsAvoid(t, cs[1..]);
    }
  }

  lemma {:induction false} ParseTexts(t: IntType, m: Ranges, cs: seq<Cond>)
    requires AllWell(t, cs)
    ensures ParseConditions(m, Texts(cs)) == (Parsed, Collect(m, cs))
    decreases |cs|
  {
    if cs != [] {
      var c := cs[0];
      ParseOne(t, m, c);
      assert Texts(cs)[1..] == Texts(cs[1..]);
      assert forall x :: x in cs[1..] ==> x in cs;
      ParseTexts(t, m[c.field := SetBound(Get(m, c.field), c.op, c.numeral)], cs[1..]);
    }
  }

  lemma {:induction false} JoinedChars(ts: seq<string>)
    requires ts != [] && forall i :: 0 <= i < |ts| ==> Avoids(ts[i], {'&', '/'})
    ensures Avoids(JoinTexts(ts), {'/'})
  {
    assert Avoids(ts[0], {'/'});
    if |ts| > 1 {
      JoinedChars(ts[1..]);
      AvoidsConcat("&", JoinTexts(ts[1..]), {'/'});
    }
    AvoidsConcat(ts[0], JoinTail(ts), {'/'});
  }

  /** An operator stands in the text. */
  lemma ShowCondsOperator(cs: seq<Cond>)
    requires cs != []
    ensures |Left(cs[0])| < |ShowConds(cs)| && ShowConds(cs)[|Left(cs[0])|] in OPCHARS
  {
    OpChars(cs[0].op);
    var text := Show(cs[0]);
    assert text[|Left(cs[0])|] == OpText(cs[0].op)[0];
    assert ShowConds(cs) == text + JoinTail(Texts(cs));
  }

  lemma {:induction false} FindAnyHits(s: string, cs: set<char>, from: nat, i: nat)
    requires from <= i < |s| && s[i] in cs
    ensures FindAny(s, cs, from) <= i
    decreases i - from
  {
    if s[from] !in cs { FindAnyHits(s, cs, from + 1, i); }
  }

  lemma OperatorSet(c: char)
    requires c in OPCHARS
    ensures c in {'<', '>', '=', '!'}
  {
  }

  lemma ParseOnlySegment(t: IntType, m: Ranges, cs: seq<Cond>)
    requires cs != [] && AllWell(t, cs)
    ensures ParseSegment(m, ShowConds(cs)) == (Parsed, Collect(m, cs))
  {
    var text := ShowConds(cs);
    ShowCondsOperator(cs);
    OperatorSet(text[|Left(cs[0])|]);
    FindAnyHits(text, {'<', '>', '=', '!'}, 0, |Left(cs[0])|);
    TextsAvoid(t, cs);
    SplitJoined(Texts(cs));
    ParseTexts(t, m, cs);
  }

  /** Without a '/' after the question mark there is one segment. */
  lemma OneSegment(dir: string, text: string)
    requires text != "" && Avoids(text, {'/'})
    ensures SplitSegments(dir + "?" + text, |dir| + 1) == [text]
  {
    var buf, last := dir + "?" + text, |dir| + 1;
    forall i | last + 1 <= i < |buf| ensures buf[i] !in {'/'} { assert buf[i] == text[i - last]; }
    FindAnyIs(buf, {'/'}, last + 1, |buf|);
    assert buf[last..] == text;
  }

  lemma FindQuestionMark(dir: string, text: string)
    requires forall i :: 0 <= i < |dir| ==> dir[i] != '?'
    ensures FindAny(dir + "?" + text, {'?'}, 0) == |dir|
  {
    FindAnyIs(dir + "?" + text, {'?'}, 0, |dir|);
  }

  lemma ParseSingle(m: Ranges, text: string, m': Ranges)
    requires ParseSegment(m, text) == (Parsed, m')
    ensures ParseSegments(m, [text]) == (Parsed, m')
  {
    assert [text][1..] == [];
    assert ParseSegments(m', []) == (Parsed, m');
  }

  /** Parsing a query under a directory: the directory and exactly the collected ranges. */
  lemma ParseText(t: IntType, dir: string, cs: seq<Cond>)
    requires dir != "" && dir[0] == '/' && forall i :: 0 <= i < |dir| ==> dir[i] != '?'
    requires cs != [] && AllWell(t, cs)
    ensures ParseQuery(dir + "?" + ShowConds(cs)) ==
            Parse(Parsed, if |dir| > 1 then dir[..|dir|-1] else "/", Collect(map[], cs))
  {
    var text := ShowConds(cs);
    ShowCondsOperator(cs);
    TextsAvoid(t, cs);
    JoinedChars(Texts(cs));
    ParseOnlySegment(t, map[], cs);
    ParseTail(dir, text, Collect(map[], cs));
  }

  lemma ParseTail(dir: string, text: string, m: Ranges)
    requires dir != "" && dir[0] == '/' && forall i :: 0 <= i < |dir| ==> dir[i] != '?'
    requires text != "" && Avoids(text, {'/'}) && ParseSegment(map[], text) == (Parsed, m)
    ensures ParseQuery(dir + "?" + text) == Parse(Parsed, if |dir| > 1 then dir[..|dir|-1] else "/", m)
  {
    FindQuestionMark(dir, text);
    OneSegment(dir, text);
    ParseSingle(map[], text, m);
    assert (dir + "?" + text)[..|dir|-1] == dir[..|dir|-1] && (dir + "?" + text)[0] == dir[0];
  }

  /** The directory a query names: the text before the question mark, but for a slash at its end. */
  function Named(dir: string): string {
    if |dir| > 1 && dir[|dir|-1] == '/' then dir[..|dir|-1] else dir
  }

  /**
   * The parser takes the last character before the question mark for a slash, whatever it is: the root is the
   * directory named if and only if that is the root directory or the text does end in a slash.
   */
  lemma RootIsNamedIff(t: IntType, dir: string, cs: seq<Cond>)
    requires dir != "" && dir[0] == '/' && forall i :: 0 <= i < |dir| ==> dir[i] != '?'
    requires cs != [] && AllWell(t, cs)
    ensures ParseQuery(dir + "?" + ShowConds(cs)).root == Named(dir) <==> dir == "/" || dir[|dir|-1] == '/'
  {
    ParseText(t, dir, cs);
  }

  /** Without the slash, a query under /home is made under /hom. */
  lemma RootLosesACharacter(t: IntType, cs: seq<Cond>)
    requires cs != [] && AllWell(t, cs)
    ensures ParseQuery("/home" + "?" + ShowConds(cs)).root == "/hom"
  {
    ParseText(t, "/home", cs);
    assert "/home"[..4] == "/hom";
  }

  // ---------------------------------------------------------------- what the collected range means

  predicate SetsLower(c: Cond) { c.op.EQ? || c.op.GT? || c.op.GE? }

  predicate SetsUpper(c: Cond) { c.op.EQ? || c.op.LT? || c.op.LE? }

  /** The least and the greatest integer key a condition allows on the side it bounds. */
  function LeastKey(t: IntType, c: Cond): int
    requires Well(t, c)
  {
    if c.op.GT? then Value(t, c) + 1 else Value(t, c)
  }

  function GreatestKey(t: IntType, c: Cond): int
    requires Well(t, c)
  {
    if c.op.LT? then Value(t, c) - 1 else Value(t, c)
  }

  /** The last condition on a field that sets the lower (or the upper) bound. */
  function LastLower(cs: seq<Cond>, f: string): (r: Option<Cond>)
    ensures r.Some? ==> r.value in cs && r.value.field == f && SetsLower(r.value)
    ensures r.None? ==> forall c :: c in cs && c.field == f ==> !SetsLower(c)
  {
    if cs == [] then None
    else
      var n := |cs| - 1;
      assert cs == cs[..n] + [cs[n]];
      if cs[n].field == f && SetsLower(cs[n]) then Some(cs[n]) else LastLower(cs[..n], f)
  }

  function LastUpper(cs: seq<Cond>, f: string): (r: Option<Cond>)
    ensures r.Some? ==> r.value in cs && r.value.field == f && SetsUpper(r.value)
    ensures r.None? ==> forall c :: c in cs && c.field == f ==> !SetsUpper(c)
  {
    if cs == [] then None
    else
      var n := |cs| - 1;
      assert cs == cs[..n] + [cs[n]];
      if cs[n].field == f && SetsUpper(cs[n]) then Some(cs[n]) else LastUpper(cs[..n], f)
  }

  lemma {:induction false} CollectConcat(m: Ranges, a: seq<Cond>, b: seq<Cond>)
    ensures Collect(m, a + b) == Collect(Collect(m, a), b)
    decreases |a|
  {
    if a == [] {
      assert a + b == b;
    } else {
      assert (a + b)[1..] == a[1..] + b;
      CollectConcat(m[a[0].field := SetBound(Get(m, a[0].field), a[0].op, a[0].numeral)], a[1..], b);
    }
  }

  lemma CollectOneMore(cs: seq<Cond>, f: string)
    requires cs != []
    ensures var n := |cs| - 1;
            var before := Get(Collect(map[], cs[..n]), f);
            Get(Collect(map[], cs), f) ==
            if cs[n].field == f then SetBound(before, cs[n].op, cs[n].numeral) else before
  {
    var n := |cs| - 1;
    assert cs == cs[..n] + [cs[n]];
    CollectConcat(map[], cs[..n], [cs[n]]);
    assert [cs[n]][1..] == [];
  }

  lemma LastLowerOneMore(cs: seq<Cond>, f: string)
    requires cs != []
    ensures var c := cs[|cs|-1];
            LastLower(cs, f) == if c.field == f && SetsLower(c) then Some(c) else LastLower(cs[..|cs|-1], f)
  {
  }

  /** The lower bound collected for a field is that of its last lower condition. */
  lemma {:induction false} CollectedLower(cs: seq<Cond>, f: string)
    requires forall c :: c in cs ==> !c.op.NEQ?
    ensures var r := Get(Collect(map[], cs), f);
            match LastLower(cs, f)
            case Some(c) => r.lower == c.numeral && r.lowerClosed == !c.op.GT?
            case None => r.lower == "" && !r.lowerClosed
  {
    if cs != [] {
      var n := |cs| - 1;
      assert (forall c :: c in cs[..n] ==> c in cs) && cs[n] in cs;
      CollectedLower(cs[..n], f);
      CollectOneMore(cs, f);
      LastLowerOneMore(cs, f);
    }
  }

  lemma LastUpperOneMore(cs: seq<Cond>, f: string)
    requires cs != []
    ensures var c := cs[|cs|-1];
            LastUpper(cs, f) == if c.field == f && SetsUpper(c) then Some(c) else LastUpper(cs[..|cs|-1], f)
  {
  }

  lemma {:induction false} CollectedUpper(cs: seq<Cond>, f: string)
    requires forall c :: c in cs ==> !c.op.NEQ?
    ensures var r := Get(Collect(map[], cs), f);
            match LastUpper(cs, f)
            case Some(c) => r.upper == c.numeral && r.upperClosed == !c.op.LT?
            case None => r.upper == "" && !r.upperClosed
  {
    if cs != [] {
      var n := |cs| - 1;
      assert (forall c :: c in cs[..n] ==> c in cs) && cs[n] in cs;
      CollectedUpper(cs[..n], f);
      CollectOneMore(cs, f);
      LastUpperOneMore(cs, f);
    }
  }

  /** What the client puts in the RPC for a collected range. */
  function ToRpc(r: StringRange): RpcRangeQuery {
    RpcRangeQuery(r.lower, !r.lowerClosed, r.upper, !r.upperClosed)
  }

  /**
   * The scan bounds of a field, for every key of the type: the last lower and the last upper condition hold,
   * and on a side without a condition the limit of the type itself is left out.
   */
  lemma ScanBounds(t: IntType, cs: seq<Cond>, f: string, k: int)
    requires t.Valid() && AllWell(t, cs) && t.Contains(k)
    ensures var b := Bounds(t, ToRpc(Get(Collect(map[], cs), f)));
            var lo, hi := LastLower(cs, f), LastUpper(cs, f);
            && b.Some?
            && (b.value.Contains(k) <==>
                && (if lo.Some? then LeastKey(t, lo.value) <= k else k != t.min)
                && (if hi.Some? then k <= GreatestKey(t, hi.value) else k != t.max))
  {
    CollectedLower(cs, f);
    CollectedUpper(cs, f);
    var lo, hi := LastLower(cs, f), LastUpper(cs, f);
    if lo.Some? { NumeralChars(t, lo.value.numeral); }
    if hi.Some? { NumeralChars(t, hi.value.numeral); }
  }

  /** At most one condition on the field bounds it from each side. */
  ghost predicate OnePerSide(cs: seq<Cond>, f: string) {
    && (forall i, j | 0 <= i < j < |cs| && cs[i].field == cs[j].field == f :: !(SetsLower(cs[i]) && SetsLower(cs[j])))
    && (forall i, j | 0 <= i < j < |cs| && cs[i].field == cs[j].field == f :: !(SetsUpper(cs[i]) && SetsUpper(cs[j])))
  }

  /** The key satisfies every condition on the field. */
  ghost predicate Satisfies(t: IntType, cs: seq<Cond>, f: string, k: int)
    requires AllWell(t, cs)
  {
    forall c :: c in cs && c.field == f ==> Holds(t, c, k)
  }

  /**
   * The whole path, for queries with at most one lower and one upper condition on the field: the objects found
   * are exactly those with a key that satisfies every condition, except that on a side the query leaves open
   * the extreme key of the type is never found.
   */
  lemma QueryAnswersConditions(t: IntType, dir: string, cs: seq<Cond>, f: string, idx: Index, results: seq<int>, o: int)
    requires t.Valid() && forall k :: k in idx ==> t.Contains(k)
    requires dir != "" && dir[0] == '/' && forall i :: 0 <= i < |dir| ==> dir[i] != '?'
    requires cs != [] && AllWell(t, cs) && OnePerSide(cs, f)
    requires var b := Bounds(t, ToRpc(Get(ParseQuery(dir + "?" + ShowConds(cs)).ranges, f)));
             b.Some? ==> Answers(idx, b.value, results)
    ensures ParseQuery(dir + "?" + ShowConds(cs)).status.Parsed?
    ensures o in results <==> exists k ::
              && Has(idx, k, o) && Satisfies(t, cs, f, k)
              && (LastLower(cs, f).None? ==> k != t.min) && (LastUpper(cs, f).None? ==> k != t.max)
  {
    ParseText(t, dir, cs);
    ScanBounds(t, cs, f, 0);
    var range := Bounds(t, ToRpc(Get(Collect(map[], cs), f))).value;
    AnswersMembership(idx, range, results, o);
    forall k | Has(idx, k, o)
      ensures range.Contains(k) <==>
              && Satisfies(t, cs, f, k)
              && (LastLower(cs, f).None? ==> k != t.min) && (LastUpper(cs, f).None? ==> k != t.max)
    {
      ScanBounds(t, cs, f, k);
      SatisfiesByLast(t, cs, f, k);
    }
  }

  lemma SatisfiesByLast(t: IntType, cs: seq<Cond>, f: string, k: int)
    requires AllWell(t, cs) && OnePerSide(cs, f)
    ensures var lo, hi := LastLower(cs, f), LastUpper(cs, f);
            Satisfies(t, cs, f, k) <==>
            && (lo.Some? ==> LeastKey(t, lo.value) <= k) && (hi.Some? ==> k <= GreatestKey(t, hi.value))
  {
    var lo, hi := LastLower(cs, f), LastUpper(cs, f);
    forall c | c in cs && c.field == f
      ensures (SetsLower(c) ==> lo == Some(c)) && (SetsUpper(c) ==> hi == Some(c))
    {
      var i :| 0 <= i < |cs| && cs[i] == c;
      if SetsLower(c) { var j :| 0 <= j < |cs| && cs[j] == lo.value; assert i == j; }
      if SetsUpper(c) { var j :| 0 <= j < |cs| && cs[j] == hi.value; assert i == j; }
    }
    forall c | c in cs && c.field == f
      ensures Holds(t, c, k) <==> (SetsLower(c) ==> LeastKey(t, c) <= k) && (SetsUpper(c) ==> k <= GreatestKey(t, c))
    {
    }
  }

  // ---------------------------------------------------------------- several conditions on one side

  function FirstKey(t: IntType, cs: seq<Cond>, f: string): int
    requires AllWell(t, cs)
  {
    match LastLower(cs, f) case Some(c) => Max(LeastKey(t, c), t.min + 1) case None => t.min + 1
  }

  function FinalKey(t: IntType, cs: seq<Cond>, f: string): int
    requires AllWell(t, cs)
  {
    match LastUpper(cs, f) case Some(c) => Min(GreatestKey(t, c), t.max - 1) case None => t.max - 1
  }

  /**
   * With any number of conditions the last one on each side counts. Between the limits of the key type that is
   * the same as satisfying all of them if and only if no key is left at all, or on each side the last condition
   * is at least as strict as every other.
   */
  lemma LastWinsIsRightIff(t: IntType, cs: seq<Cond>, f: string)
    requires t.Valid() && AllWell(t, cs)
    ensures Bounds(t, ToRpc(Get(Collect(map[], cs), f))).Some?
    ensures var range := Bounds(t, ToRpc(Get(Collect(map[], cs), f))).value;
            (forall k :: t.min < k < t.max ==> (range.Contains(k) <==> Satisfies(t, cs, f, k))) <==>
            || FinalKey(t, cs, f) < FirstKey(t, cs, f)
            || forall c :: c in cs && c.field == f ==>
                 && (SetsLower(c) ==> LeastKey(t, c) <= FirstKey(t, cs, f))
                 && (SetsUpper(c) ==> FinalKey(t, cs, f) <= GreatestKey(t, c))
  {
    ScanBounds(t, cs, f, 0);
    var range := Bounds(t, ToRpc(Get(Collect(map[], cs), f))).value;
    var first, final := FirstKey(t, cs, f), FinalKey(t, cs, f);
    forall k | t.min < k < t.max
      ensures range.Contains(k) <==> first <= k <= final
      ensures Satisfies(t, cs, f, k) ==> first <= k <= final
    {
      InnerKeys(t, cs, f, k);
    }
    forall c, k | c in cs { HoldsByBounds(t, c, k); }
    if first <= final {
      if forall k :: t.min < k < t.max ==> (range.Contains(k) <==> Satisfies(t, cs, f, k)) {
        assert range.Contains(first) && range.Contains(final);
        assert Satisfies(t, cs, f, first) && Satisfies(t, cs, f, final);
      }
    }
  }

  lemma HoldsByBounds(t: IntType, c: Cond, k: int)
    requires Well(t, c)
    ensures Holds(t, c, k) <==> (SetsLower(c) ==> LeastKey(t, c) <= k) && (SetsUpper(c) ==> k <= GreatestKey(t, c))
  {
  }

  lemma InnerKeys(t: IntType, cs: seq<Cond>, f: string, k: int)
    requires t.Valid() && AllWell(t, cs) && t.min < k < t.max
    ensures Bounds(t, ToRpc(Get(Collect(map[], cs), f))).Some?
    ensures Bounds(t, ToRpc(Get(Collect(map[], cs), f))).value.Contains(k) <==>
            FirstKey(t, cs, f) <= k <= FinalKey(t, cs, f)
    ensures Satisfies(t, cs, f, k) ==> FirstKey(t, cs, f) <= k <= FinalKey(t, cs, f)
  {
    ScanBounds(t, cs, f, k);
    var lo, hi := LastLower(cs, f), LastUpper(cs, f);
    if Satisfies(t, cs, f, k) {
      if lo.Some? { HoldsByBounds(t, lo.value, k); }
      if hi.Some? { HoldsByBounds(t, hi.value, k); }
    }
  }

  // ---------------------------------------------------------------- witnesses

  function Simple(field: string, op: CondOp, numeral: string): Cond { Cond(field, op, numeral, "", "", "", "") }

  lemma SimpleWell(field: string, op: CondOp, digit: char)
    requires FieldName(field) && !op.NEQ? && IsDigit(digit)
    ensures Well(INT64, Simple(field, op, [digit])) && Value(INT64, Simple(field, op, [digit])) == DigitValue(digit)
    ensures Show(Simple(field, op, [digit])) == field + OpText(op) + [digit]
  {
    assert [digit][..0] == [] && DigitsValue([digit]) == DigitValue(digit);
    assert AllDigits([digit]) && digit != '-' && digit != '+';
    assert LexicalCast(INT64, [digit]) == Some(DigitValue(digit));
    assert [] + field + [] == field && [] + [digit] + [] == [digit];
  }

  /** Asked for sizes below 9, the search does not find an object of the least size there is. */
  lemma LeastKeyIsMissed(cs: seq<Cond>, idx: Index, results: seq<int>, o: int)
    requires cs == [Simple("size", LT, "9")] && idx == map[INT64.min := {o}]
    requires var b := Bounds(INT64, ToRpc(Get(ParseQuery("/" + "?" + ShowConds(cs)).ranges, "size")));
             b.Some? ==> Answers(idx, b.value, results)
    ensures Well(INT64, cs[0]) && Holds(INT64, cs[0], INT64.min) && Has(idx, INT64.min, o)
    ensures o !in results
  {
    SizeBelow(cs);
    QueryAnswersConditions(INT64, "/", cs, "size", idx, results, o);
  }

  lemma SizeBelow(cs: seq<Cond>)
    requires cs == [Simple("size", LT, "9")]
    ensures AllWell(INT64, cs) && Holds(INT64, cs[0], INT64.min) && OnePerSide(cs, "size") && LastLower(cs, "size").None?
  {
    SimpleWell("size", LT, '9');
  }

  /** With size>5&size>1 the key 3 is in the range, although it does not satisfy the first condition. */
  lemma EarlierConditionIsLost()
    ensures var cs := [Simple("size", GT, "5"), Simple("size", GT, "1")];
            && AllWell(INT64, cs) && !Satisfies(INT64, cs, "size", 3)
            && Bounds(INT64, ToRpc(Get(Collect(map[], cs), "size"))).Some?
            && Bounds(INT64, ToRpc(Get(Collect(map[], cs), "size"))).value.Contains(3)
  {
    var c5, c1 := Simple("size", GT, "5"), Simple("size", GT, "1");
    var cs := [c5, c1];
    SimpleWell("size", GT, '5');
    SimpleWell("size", GT, '1');
    assert c5 in cs && !Holds(INT64, c5, 3);
    ScanBounds(INT64, cs, "size", 3);
    assert cs[|cs|-1] == c1;
  }

  // ---------------------------------------------------------------- several segments

  /** Segments joined by slashes. */
  function JoinSlash(segs: seq<string>): string
    requires segs != []
  {
    if |segs| == 1 then segs[0] else segs[0] + "/" + JoinSlash(segs[1..])
  }

  ghost predicate AreSegments(segs: seq<string>) {
    segs != [] && forall i :: 0 <= i < |segs| ==> segs[i] != "" && Avoids(segs[i], {'/'})
  }

  function Beheaded(s: string): string { if s == "" then "" else s[1..] }

  /**
   * What the parser makes of them. A segment that is followed by another one loses its first character. If that was
   * its only one it is swallowed whole, and the next keeps the slash before it in place of its own loss.
   */
  function Kept(segs: seq<string>, slash: bool): (r: seq<string>)
    requires segs != []
    ensures |r| <= |segs|
  {
    if |segs| == 1 then [if slash then "/" + segs[0] else segs[0]]
    else if slash then [segs[0]] + Kept(segs[1..], false)
    else if |segs[0]| == 1 then Kept(segs[1..], true)
    else [Beheaded(segs[0])] + Kept(segs[1..], false)
  }

  /** A segment stands at a position, and a slash or the end behind it. */
  predicate StandsAt(buf: string, at: nat, seg: string) {
    && at + |seg| <= |buf| && buf[at..at + |seg|] == seg && Avoids(seg, {'/'}) && seg != ""
    && (at + |seg| < |buf| ==> buf[at + |seg|] == '/')
  }

  lemma SegmentEnds(buf: string, at: nat, seg: string, from: nat)
    requires StandsAt(buf, at, seg) && at <= from <= at + |seg|
    ensures FindAny(buf, {'/'}, from) == at + |seg|
  {
    forall i | from <= i < at + |seg| ensures buf[i] !in {'/'} { assert buf[i] == seg[i - at]; }
    FindAnyIs(buf, {'/'}, from, at + |seg|);
  }

  /** The parser at the first character of a segment, and at the slash before it. */
  lemma LastSegment(buf: string, at: nat, seg: string)
    requires StandsAt(buf, at, seg) && at + |seg| == |buf|
    ensures SplitSegments(buf, at) == [seg]
    ensures at > 0 && buf[at-1] == '/' ==> SplitSegments(buf, at - 1) == ["/" + seg]
  {
    SegmentEnds(buf, at, seg, at + 1);
    SegmentAt(buf, at, |buf|);
    assert buf[at..] == buf[at..at + |seg|];
    if at > 0 && buf[at-1] == '/' {
      SegmentEnds(buf, at, seg, at);
      SegmentAt(buf, at - 1, |buf|);
      assert buf[at-1..] == "/" + buf[at..];
    }
  }

  lemma FirstSegment(buf: string, at: nat, seg: string)
    requires StandsAt(buf, at, seg) && at + |seg| < |buf|
    ensures |seg| == 1 ==> SplitSegments(buf, at) == SplitSegments(buf, at + 1)
    ensures |seg| > 1 ==> SplitSegments(buf, at) == [Beheaded(seg)] + SplitSegments(buf, at + |seg| + 1)
  {
    SegmentEnds(buf, at, seg, at + 1);
    SegmentAt(buf, at, at + |seg|);
    if |seg| > 1 {
      assert buf[at + 1..at + |seg|] == buf[at..at + |seg|][1..];
      FrontAndRest(SplitSegments(buf, at));
    }
  }

  lemma SegmentAfterSlash(buf: string, at: nat, seg: string)
    requires StandsAt(buf, at, seg) && at + |seg| < |buf| && at > 0 && buf[at-1] == '/'
    ensures SplitSegments(buf, at - 1) == [seg] + SplitSegments(buf, at + |seg| + 1)
  {
    SegmentEnds(buf, at, seg, at);
    SegmentAt(buf, at - 1, at + |seg|);
    FrontAndRest(SplitSegments(buf, at - 1));
  }

  lemma FrontAndRest(s: seq<string>)
    requires s != []
    ensures s == [s[0]] + s[1..]
  {
  }

  lemma JoinedStands(buf: string, at: nat, segs: seq<string>)
    requires AreSegments(segs) && at <= |buf| && buf[at..] == JoinSlash(segs)
    ensures StandsAt(buf, at, segs[0])
    ensures |segs| == 1 ==> at + |segs[0]| == |buf|
    ensures |segs| > 1 ==> at + |segs[0]| < |buf| && buf[at + |segs[0]| + 1..] == JoinSlash(segs[1..])
  {
    var n := |segs[0]|;
    assert buf[at..][..n] == segs[0] && buf[at..at + n] == buf[at..][..n];
    if |segs| > 1 {
      assert buf[at..][n] == '/' && buf[at + n] == buf[at..][n];
      assert buf[at + n + 1..] == buf[at..][n + 1..];
    }
  }

  lemma RestAreSegments(segs: seq<string>)
    requires AreSegments(segs) && |segs| > 1
    ensures AreSegments(segs[1..])
  {
    forall i | 0 <= i < |segs[1..]| ensures segs[1..][i] != "" && Avoids(segs[1..][i], {'/'}) {
      assert segs[1..][i] == segs[i + 1];
    }
  }

  lemma KeptStep(segs: seq<string>)
    requires |segs| > 1
    ensures Kept(segs, true) == [segs[0]] + Kept(segs[1..], false)
    ensures |segs[0]| == 1 ==> Kept(segs, false) == Kept(segs[1..], true)
    ensures |segs[0]| != 1 ==> Kept(segs, false) == [Beheaded(segs[0])] + Kept(segs[1..], false)
  {
  }

  /** With a second segment, the first one is shorter or missing. */
  lemma KeptDiffers(segs: seq<string>)
    requires |segs| > 1 && segs[0] != ""
    ensures Kept(segs, false) != segs
  {
    KeptStep(segs);
    if |segs[0]| > 1 { assert |Kept(segs, false)[0]| < |segs[0]|; }
  }

  lemma {:induction false} SegmentsAreKept(buf: string, at: nat, segs: seq<string>)
    requires AreSegments(segs) && at <= |buf| && buf[at..] == JoinSlash(segs)
    ensures ReadsAs(buf, at, segs)
    decreases |segs|
  {
    JoinedStands(buf, at, segs);
    if |segs| == 1 {
      LastSegment(buf, at, segs[0]);
    } else {
      RestAreSegments(segs);
      SegmentsAreKept(buf, at + |segs[0]| + 1, segs[1..]);
      OneMoreSegment(buf, at, segs);
    }
  }

  /** What the parser makes of the rest of the text, from the first character on and from a slash before it. */
  ghost predicate ReadsAs(buf: string, at: nat, segs: seq<string>)
    requires at <= |buf| && segs != []
  {
    && SplitSegments(buf, at) == Kept(segs, false)
    && (at > 0 && buf[at-1] == '/' ==> SplitSegments(buf, at - 1) == Kept(segs, true))
  }

  lemma OneMoreSegment(buf: string, at: nat, segs: seq<string>)
    requires |segs| > 1 && StandsAt(buf, at, segs[0]) && at + |segs[0]| < |buf|
    requires ReadsAs(buf, at + |segs[0]| + 1, segs[1..])
    ensures ReadsAs(buf, at, segs)
  {
    KeptStep(segs);
    FirstSegment(buf, at, segs[0]);
    if at > 0 && buf[at-1] == '/' { SegmentAfterSlash(buf, at, segs[0]); }
  }

  /** The segments of a query come out of the parser as they went in if and only if there is only one. */
  lemma SegmentsSurviveIff(dir: string, segs: seq<string>)
    requires AreSegments(segs)
    ensures SplitSegments(dir + "?" + JoinSlash(segs), |dir| + 1) == Kept(segs, false)
    ensures SplitSegments(dir + "?" + JoinSlash(segs), |dir| + 1) == segs <==> |segs| == 1
  {
    var buf := dir + "?" + JoinSlash(segs);
    assert buf[|dir| + 1..] == JoinSlash(segs);
    SegmentsAreKept(buf, |dir| + 1, segs);
    if |segs| > 1 { KeptDiffers(segs); }
  }

  /** The query /?ab>1/c>2 asks about a field b that nobody named. */
  lemma FieldLosesItsFirstCharacter()
    ensures ParseQuery("/?ab>1/c>2") == Parse(Parsed, "/", map["b" := StringRange("1", false, "", false),
                                                               "c" := StringRange("2", false, "", false)])
  {
    var segs := ["ab>1", "c>2"];
    assert segs[1..] == ["c>2"] && "ab>1"[1..] == "b>1";
    SegmentsSurviveIff("/", segs);
    FindQuestionMark("/", JoinSlash(segs));
    assert Kept(segs, false) == ["b>1", "c>2"];
    assert "/?ab>1/c>2" == "/" + "?" + JoinSlash(segs);
    TwoSegments();
  }

  lemma TwoSegments()
    ensures ParseSegments(map[], ["b>1", "c>2"]) == (Parsed, map["b" := StringRange("1", false, "", false),
                                                                 "c" := StringRange("2", false, "", false)])
  {
    var m := map["b" := StringRange("1", false, "", false)];
    GreaterThan(map[], "b", '1', "b>1");
    GreaterThan(m, "c", '2', "c>2");
    assert ["b>1", "c>2"][1..] == ["c>2"];
    ParseSingle(m, "c>2", m["c" := StringRange("2", false, "", false)]);
  }

  lemma GreaterThan(m: Ranges, f: string, digit: char, text: string)
    requires FieldName(f) && f !in m && IsDigit(digit) && text == f + ">" + [digit]
    ensures ParseSegment(m, text) == (Parsed, m[f := StringRange([digit], false, "", false)])
  {
    var c := Simple(f, GT, [digit]);
    SimpleWell(f, GT, digit);
    OneCondition(m, c, text);
    assert [c][1..] == [];
  }

  lemma OneCondition(m: Ranges, c: Cond, text: string)
    requires Well(INT64, c) && text == Show(c)
    ensures ParseSegment(m, text) == (Parsed, Collect(m, [c]))
  {
    ParseOnlySegment(INT64, m, [c]);
    assert [c][1..] == [] && Texts([c]) == [Show(c)] && JoinTail([Show(c)]) == "";
    assert ShowConds([c]) == text;
  }
}
