/** What the wrapper does to a result: filtering under three-valued logic, and paging. */
module Shaping {
  import opened Text
  import opened Values
  import opened Filters
  import opened Wrapper
  import opened Syntax
  import opened Binding
  import opened Reader

  // ----- a filter as a condition -----

  function SqlSymbol(op: Op): Symbol {
    match op
    case Eq => "="
    case Ne => "<>"
    case Gt => ">"
    case Ge => ">="
    case Lt => "<"
    case Le => "<="
    case _ => "LIKE"
  }

  /** The condition the wrapper writes for a filter, its values as placeholders. */
  function Condition(f: Filter): Expr {
    if f.negate then Not(BareCondition(f)) else BareCondition(f)
  }

  function BareCondition(f: Filter): Expr {
    if f.isNull then IsNull(Col(f.column))
    else if f.op == Op.In then Expr.In(Col(f.column), false, List(Positional(|f.inList|)))
    else Compare(SqlSymbol(f.op), Col(f.column), HOLE)
  }

  lemma ConditionHoles(f: Filter)
    ensures Holes(BareCondition(f)) == |FilterArgs(f)| == Holes(Condition(f))
  {
    HolesPositional(|f.inList|);
  }

  /** Whether a row passes a filter: the condition with its arguments, on that row. */
  function Passes(f: Filter, I: Interp, row: Row): Tri {
    ConditionHoles(f);
    Truth(I, Eval(Fill(Condition(f), FilterArgs(f)), I, row))
  }

  function Test3(f: Filter, I: Interp, row: Row): Tri {
    var cell := Cell(row, f.column);
    if f.isNull then (if cell.VNull? then True else False)
    else if f.op == Op.In then Member(I, cell, f.inList)
    else CompareVals(I, SqlSymbol(f.op), cell, f.value)
  }

  lemma {:induction false} EvalPositional(vals: seq<Val>, I: Interp, row: Row)
    ensures HolesAll(Positional(|vals|)) == |vals|
    ensures EvalAll(FillAll(Positional(|vals|), vals), I, row) == vals
  {
    HolesPositional(|vals|);
    if vals != [] {
      assert Positional(|vals|)[1..] == Positional(|vals[1..]|);
      assert vals[Holes(HOLE)..] == vals[1..];
      EvalPositional(vals[1..], I, row);
    }
  }

  lemma InMeans(column: string, vals: seq<Val>, I: Interp, row: Row)
    ensures var e := Expr.In(Col(column), false, List(Positional(|vals|)));
            Holes(e) == |vals| && Eval(Fill(e, vals), I, row) == FromTri(Member(I, Cell(row, column), vals))
  {
    EvalPositional(vals, I, row);
    assert vals[0..] == vals;
  }

  lemma CompareMeans(column: string, op: Symbol, v: Val, I: Interp, row: Row)
    ensures var e := Compare(op, Col(column), HOLE);
            Holes(e) == 1 && Eval(Fill(e, [v]), I, row) == FromTri(CompareVals(I, op, Cell(row, column), v))
  {
    assert [v][0..] == [v];
  }

  lemma BareMeans(f: Filter, I: Interp, row: Row)
    ensures Holes(BareCondition(f)) == |FilterArgs(f)|
    ensures Truth(I, Eval(Fill(BareCondition(f), FilterArgs(f)), I, row)) == Test3(f, I, row)
  {
    ConditionHoles(f);
    if !f.isNull {
      InMeans(f.column, f.inList, I, row);
      CompareMeans(f.column, SqlSymbol(f.op), f.value, I, row);
    }
  }

  /** A filter asks for its column's comparison with its own values, negated or not. */
  lemma PassesIs(f: Filter, I: Interp, row: Row)
    ensures Passes(f, I, row) == if f.negate then TriNot(Test3(f, I, row)) else Test3(f, I, row)
  {
    ConditionHoles(f);
    BareMeans(f, I, row);
  }

  // ----- the condition as the text has it -----

  /** `?, ?, ?)`: how many. */
  function CountMarks(s: string): Option<(nat, string)> {
    if At(s, 0) != '?' then None
    else if At(s, 1) == ')' then Some((1, s[2..]))
    else if At(s, 1) == ',' && At(s, 2) == ' ' then
      match CountMarks(s[3..])
      case None => None
      case Some((n, rest)) => Some((n + 1, rest))
    else None
  }

  lemma {:induction false} CountMarksIs(n: nat, rest: string)
    requires n > 0
    ensures CountMarks(Join(Marks(n), ", ") + (")" + rest)) == Some((n, rest))
  {
    var s := Join(Marks(n), ", ") + (")" + rest);
    if n == 1 {
      assert s == "?)" + rest && s[2..] == rest;
    } else {
      var tail := Join(Marks(n - 1), ", ") + (")" + rest);
      assert Marks(n)[1..] == Marks(n - 1);
      assert s == "?, " + tail && s[3..] == tail;
      CountMarksIs(n - 1, rest);
    }
  }

  /** Reads the test that follows a column as a condition on it; an operator is whatever stands
      between two spaces. */
  function ReadOn(column: string, s: string): Option<(Expr, string)> {
    match (Strip(s, " IS NOT NULL"), Strip(s, " IS NULL"), Strip(s, " IN ("))
    case (Some(rest), _, _) => Some((Not(IsNull(Col(column))), rest))
    case (_, Some(rest), _) => Some((IsNull(Col(column)), rest))
    case (_, _, Some(t)) =>
      (match CountMarks(t)
       case None => None
       case Some((n, rest)) => Some((Expr.In(Col(column), false, List(Positional(n))), rest)))
    case _ => ReadComparison(column, s)
  }

  function ReadComparison(column: string, s: string): Option<(Expr, string)> {
    match Strip(s, " ")
    case None => None
    case Some(t) =>
      var k := IndexOf(t, ' ');
      if (forall j :: 0 <= j < k ==> OperatorChar(t[j])) && At(t, k + 1) == '?'
      then Some((Compare(t[..k], Col(column), HOLE), t[k + 2..]))
      else None
  }

  function ReadBareTree(s: string): Option<(Expr, string)> {
    match ReadIdent(s)
    case None => None
    case Some((column, rest)) => ReadOn(column, rest)
  }

  /** Reads a condition as a tree, knowing nothing of filters. */
  function ReadTree(s: string): Option<(Expr, string)> {
    match Strip(s, "NOT (")
    case None => ReadBareTree(s)
    case Some(t) =>
      match ReadBareTree(t)
      case None => None
      case Some((e, rest)) => if At(rest, 0) == ')' then Some((Not(e), rest[1..])) else None
  }

  lemma StripNot(s: string, p: string, k: nat)
    requires k < |p| && At(s, k) != p[k]
    ensures Strip(s, p) == None
  {
  }

  lemma OpTextIs(op: Op)
    requires op.IsComparison()
    ensures TestText(OpTest(op)) == " " + (SqlSymbol(op) + " ")
    ensures ' ' !in SqlSymbol(op) && SqlSymbol(op) != "" && SqlSymbol(op)[0] != 'I'
  {
  }

  lemma ReadComparisonIs(column: string, op: Op, rest: string)
    requires op.IsComparison()
    ensures ReadOn(column, TestText(OpTest(op)) + ("?" + rest)) == Some((Compare(SqlSymbol(op), Col(column), HOLE), rest))
  {
    OpTextIs(op);
    var symbol := SqlSymbol(op);
    var t := symbol + (" ?" + rest);
    var s := TestText(OpTest(op)) + ("?" + rest);
    assert s == " " + t;
    assert At(s, 1) == symbol[0];
    StripNot(s, " IS NOT NULL", 1);
    StripNot(s, " IS NULL", 1);
    StripNot(s, " IN (", 1);
    StripIs(" ", t);
    assert t[|symbol|] == ' ' && forall j :: 0 <= j < |symbol| ==> t[j] == symbol[j];
    assert IndexOf(t, ' ') == |symbol|;
    assert t[..|symbol|] == symbol && t[|symbol| + 2..] == rest;
  }

  lemma ReadOnIs(f: Filter, rest: string)
    requires WellFormed(f)
    ensures ReadOn(f.column, TestText(TestOf(f)) + (Operand(f) + rest)) ==
            Some((if f.isNull then Condition(f) else BareCondition(f), rest))
  {
    match TestOf(f)
    case OpTest(op) => ReadComparisonIs(f.column, op, rest);
    case InTest =>
      var t := Join(Marks(|f.inList|), ", ") + (")" + rest);
      assert Operand(f) + rest == t;
      StripNot(" IN (" + t, " IS NOT NULL", 2);
      StripNot(" IN (" + t, " IS NULL", 2);
      StripIs(" IN (", t);
      CountMarksIs(|f.inList|, rest);
    case IsNullTest =>
      assert "" + rest == rest;
      StripNot(" IS NULL" + rest, " IS NOT NULL", 5);
      StripIs(" IS NULL", rest);
    case IsNotNullTest =>
      assert "" + rest == rest;
      StripIs(" IS NOT NULL", rest);
  }

  lemma ReadBareTreeIs(f: Filter, rest: string)
    requires WellFormed(f)
    ensures ReadBareTree(BareText(f) + rest) == Some((if f.isNull then Condition(f) else BareCondition(f), rest))
  {
    var q, t, o := Quote(f.column, '"'), TestText(TestOf(f)), Operand(f);
    assert BareText(f) + rest == q + (t + (o + rest));
    assert t[0] == ' ';
    ReadIdentIs(f.column, t + (o + rest));
    ReadOnIs(f, rest);
  }

  /** The text the wrapper writes for a filter reads as its condition. */
  lemma ReadTreeIs(f: Filter, rest: string)
    requires WellFormed(f)
    ensures ReadTree(FilterText(f) + rest) == Some((Condition(f), rest))
  {
    if f.negate && !f.isNull {
      ReadBareTreeIs(f, ")" + rest);
      assert FilterText(f) + rest == "NOT (" + (BareText(f) + (")" + rest));
      StripIs("NOT (", BareText(f) + (")" + rest));
      assert (")" + rest)[1..] == rest;
    } else {
      ReadBareTreeIs(f, rest);
      assert (BareText(f) + rest)[0] == '"';
      StripNot(BareText(f) + rest, "NOT (", 0);
    }
  }

  // ----- negation -----

  /** Values other than NULL always compare one way or the other. */
  ghost predicate Definite(I: Interp) {
    forall op, a: Val, b: Val :: a != VNull && b != VNull ==> I.cmp(op, a, b) != Tri.Unknown
  }

  lemma {:induction false} MemberDefinite(I: Interp, x: Val, elems: seq<Val>)
    requires Definite(I) && elems != [] && forall k :: 0 <= k < |elems| ==> elems[k] != VNull
    ensures Member(I, x, elems) == Tri.Unknown <==> x == VNull
  {
    if |elems| > 1 {
      MemberDefinite(I, x, elems[1..]);
    } else {
      assert elems[1..] == [];
    }
  }

  /** For every filter the parser can return other than a NULL test, a row passes it, passes its
      negation, or has NULL in the column: exactly one of the three. */
  lemma NegationPartitions(f: Filter, I: Interp, row: Row)
    requires WellFormed(f) && !f.isNull && Definite(I)
    ensures Passes(f.(negate := false), I, row) == True <==>
            Passes(f.(negate := true), I, row) != True && Cell(row, f.column) != VNull
    ensures Passes(f.(negate := true), I, row) == True ==> Cell(row, f.column) != VNull
  {
    PassesIs(f.(negate := false), I, row);
    PassesIs(f.(negate := true), I, row);
    if f.op == Op.In {
      MemberDefinite(I, Cell(row, f.column), f.inList);
    }
  }

  /** IS NULL and IS NOT NULL are exact complements. */
  lemma NullTestsComplement(f: Filter, I: Interp, row: Row)
    requires WellFormed(f) && f.isNull
    ensures Passes(f.(negate := false), I, row) == True <==> Passes(f.(negate := true), I, row) != True
    ensures Passes(f.(negate := false), I, row) == True <==> Cell(row, f.column) == VNull
  {
    PassesIs(f.(negate := false), I, row);
    PassesIs(f.(negate := true), I, row);
  }

  // ----- the filtered result -----

  predicate Kept(fs: seq<Filter>, I: Interp, row: Row) {
    forall f :: f in fs ==> Passes(f, I, row) == True
  }

  function Filtered(rows: seq<Row>, fs: seq<Filter>, I: Interp): seq<Row> {
    if rows == [] then []
    else (if Kept(fs, I, rows[0]) then [rows[0]] else []) + Filtered(rows[1..], fs, I)
  }

  lemma {:induction false} FilteredPermuted(rows: seq<Row>, fs: seq<Filter>, gs: seq<Filter>, I: Interp)
    requires multiset(fs) == multiset(gs)
    ensures Filtered(rows, fs, I) == Filtered(rows, gs, I)
  {
    if rows != [] {
      FilteredPermuted(rows[1..], fs, gs, I);
      assert forall f :: f in fs <==> f in multiset(fs);
      assert forall f :: f in gs <==> f in multiset(gs);
    }
  }

  /** The WHERE clause joins the filters with AND. */
  function Conjunction(fs: seq<Filter>, I: Interp, row: Row): Tri {
    if fs == [] then True else TriAnd(Passes(fs[0], I, row), Conjunction(fs[1..], I, row))
  }

  lemma {:induction false} ConjunctionIsKept(fs: seq<Filter>, I: Interp, row: Row)
    ensures Conjunction(fs, I, row) == True <==> Kept(fs, I, row)
  {
    if fs != [] {
      ConjunctionIsKept(fs[1..], I, row);
      assert fs == [fs[0]] + fs[1..];
    }
  }

  // ----- the window -----

  /** LIMIT and OFFSET; a negative limit is none. */
  function ApplyWindow<T>(rows: seq<T>, w: Window): (r: seq<T>)
    requires w.offset >= 0
    ensures |r| <= |rows|
  {
    var rest := if w.offset <= |rows| then rows[w.offset..] else [];
    match w.limit
    case None => rest
    case Some(n) => if 0 <= n < |rest| then rest[..n] else rest
  }

  /** The rows of a wrapped statement. How rows are ordered is left to `arrange`. */
  function Shaped(rows: seq<Row>, s: Statement, I: Interp, arrange: (seq<OrderTerm>, seq<Row>) -> seq<Row>): seq<Row>
    requires s.window.offset >= 0
  {
    ApplyWindow(arrange(s.order, Filtered(rows, s.filters, I)), s.window)
  }
}
