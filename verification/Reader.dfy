/** A recursive-descent reader of wrapped statements. It recovers what was asked for from the text
    and the argument list alone, so the two say one thing only. */
module Reader {
  import opened Text
  import opened Values
  import opened Filters
  import opened Wrapper

  // ----- small pieces -----

  function Strip(s: string, p: string): Option<string> {
    if HasPrefix(s, p) then Some(s[|p|..]) else None
  }

  lemma StripIs(p: string, rest: string)
    ensures Strip(p + rest, p) == Some(rest)
  {
    assert (p + rest)[..|p|] == p;
  }

  function At(s: string, k: nat): char {
    if k < |s| then s[k] else '\0'
  }

  lemma AtIn(p: string, rest: string, k: nat)
    requires k < |p|
    ensures At(p + rest, k) == p[k]
  {
  }

  /** A quoted identifier and what follows it. */
  function ReadIdent(s: string): Option<(string, string)> {
    if s == "" || s[0] != '"' then None else ScanQuoted(s[1..], '"')
  }

  lemma ReadIdentIs(name: string, rest: string)
    requires rest != "" ==> rest[0] != '"'
    ensures ReadIdent(Quote(name, '"') + rest) == Some((name, rest))
  {
    var s := Quote(name, '"') + rest;
    assert s[1..] == Escape(name, '"') + ['"'] + rest;
    ScanQuotedEscape(name, '"', rest);
  }

  // ----- tests -----

  /** The test a text can only be, from a few of its characters. */
  function Guess(s: string): Test {
    if At(s, 1) == 'I' then
      if At(s, 2) == 'N' then InTest
      else if At(s, 5) == 'O' then IsNotNullTest
      else IsNullTest
    else if At(s, 1) == 'L' then OpTest(Like)
    else if At(s, 1) == '=' then OpTest(Eq)
    else if At(s, 1) == '<' then
      if At(s, 2) == '>' then OpTest(Ne) else if At(s, 2) == '=' then OpTest(Le) else OpTest(Lt)
    else if At(s, 2) == '=' then OpTest(Ge)
    else OpTest(Gt)
  }

  function ReadTest(s: string): Option<(Test, string)> {
    var t := Guess(s);
    match Strip(s, TestText(t))
    case None => None
    case Some(rest) => Some((t, rest))
  }

  predicate RealTest(t: Test) {
    t.OpTest? ==> t.op.IsComparison()
  }

  lemma GuessIs(t: Test, rest: string)
    requires RealTest(t)
    ensures Guess(TestText(t) + rest) == t
  {
    var p := TestText(t);
    AtIn(p, rest, 1);
    AtIn(p, rest, 2);
    if |p| > 5 {
      AtIn(p, rest, 5);
    }
  }

  lemma ReadTestIs(t: Test, rest: string)
    requires RealTest(t)
    ensures ReadTest(TestText(t) + rest) == Some((t, rest))
    ensures TestText(t)[0] == ' '
  {
    GuessIs(t, rest);
    StripIs(TestText(t), rest);
  }

  // ----- placeholders -----

  /** `?, ?, ?)`: each placeholder takes the next argument. */
  function ReadMarks(s: string, args: seq<Val>): Option<(seq<Val>, string, seq<Val>)>
    decreases |args|
  {
    if args == [] || At(s, 0) != '?' then None
    else if At(s, 1) == ')' then Some((args[..1], s[2..], args[1..]))
    else if At(s, 1) == ',' && At(s, 2) == ' ' then
      match ReadMarks(s[3..], args[1..])
      case None => None
      case Some((vals, rest, more)) => Some((args[..1] + vals, rest, more))
    else None
  }

  lemma {:induction false} ReadMarksIs(vals: seq<Val>, rest: string, more: seq<Val>)
    requires vals != []
    ensures ReadMarks(Join(Marks(|vals|), ", ") + (")" + rest), vals + more) == Some((vals, rest, more))
  {
    var marks, args := Marks(|vals|), vals + more;
    var s := Join(marks, ", ") + (")" + rest);
    assert args[..1] == vals[..1] && args[1..] == vals[1..] + more;
    if |vals| == 1 {
      assert s == "?)" + rest && s[2..] == rest && vals[..1] == vals;
    } else {
      var tail := Join(Marks(|vals| - 1), ", ") + (")" + rest);
      assert marks[1..] == Marks(|vals| - 1);
      assert s == "?, " + tail && s[3..] == tail;
      ReadMarksIs(vals[1..], rest, more);
      assert vals[..1] + vals[1..] == vals;
    }
  }

  // ----- filters -----

  /** The condition after a column, with the arguments it takes. */
  function ReadCondition(column: string, negate: bool, test: Test, s: string, args: seq<Val>): Option<(Filter, string, seq<Val>)> {
    match test
    case IsNotNullTest => Some((Filter(column, Unset, true, VNull, true, []), s, args))
    case IsNullTest => Some((Filter(column, Unset, false, VNull, true, []), s, args))
    case InTest =>
      (match ReadMarks(s, args)
       case None => None
       case Some((vals, rest, more)) => Some((Filter(column, In, negate, VNull, false, vals), rest, more)))
    case OpTest(op) =>
      if args == [] || At(s, 0) != '?' then None
      else Some((Filter(column, op, negate, args[0], false, []), s[1..], args[1..]))
  }

  function ReadBare(s: string, negate: bool, args: seq<Val>): Option<(Filter, string, seq<Val>)> {
    match ReadIdent(s)
    case None => None
    case Some((column, after)) =>
      match ReadTest(after)
      case None => None
      case Some((test, rest)) => ReadCondition(column, negate, test, rest, args)
  }

  function ReadFilter(s: string, args: seq<Val>): Option<(Filter, string, seq<Val>)> {
    match Strip(s, "NOT (")
    case None => ReadBare(s, false, args)
    case Some(t) =>
      match ReadBare(t, true, args)
      case None => None
      case Some((f, rest, more)) => if At(rest, 0) == ')' then Some((f, rest[1..], more)) else None
  }

  function Operand(f: Filter): string {
    match TestOf(f)
    case InTest => Join(Marks(|f.inList|), ", ") + ")"
    case OpTest(_) => "?"
    case _ => ""
  }

  lemma ReadConditionIs(f: Filter, rest: string, more: seq<Val>)
    requires WellFormed(f)
    ensures ReadCondition(f.column, f.negate && !f.isNull, TestOf(f), Operand(f) + rest, FilterArgs(f) + more) == Some((f, rest, more))
  {
    match TestOf(f)
    case InTest =>
      ReadMarksIs(f.inList, rest, more);
      assert Operand(f) + rest == Join(Marks(|f.inList|), ", ") + (")" + rest);
    case OpTest(op) =>
      assert ("?" + rest)[1..] == rest && ([f.value] + more)[1..] == more;
    case _ =>
      assert "" + rest == rest && [] + more == more;
  }

  lemma ReadBareIs(f: Filter, rest: string, more: seq<Val>)
    requires WellFormed(f)
    ensures ReadBare(BareText(f) + rest, f.negate && !f.isNull, FilterArgs(f) + more) == Some((f, rest, more))
  {
    var q, t, o := Quote(f.column, '"'), TestText(TestOf(f)), Operand(f);
    assert BareText(f) + rest == q + (t + (o + rest));
    ReadTestIs(TestOf(f), o + rest);
    ReadIdentIs(f.column, t + (o + rest));
    ReadConditionIs(f, rest, more);
  }

  lemma ReadFilterIs(f: Filter, rest: string, more: seq<Val>)
    requires WellFormed(f)
    ensures ReadFilter(FilterText(f) + rest, FilterArgs(f) + more) == Some((f, rest, more))
  {
    if f.negate && !f.isNull {
      ReadBareIs(f, ")" + rest, more);
      assert FilterText(f) + rest == "NOT (" + (BareText(f) + (")" + rest));
      StripIs("NOT (", BareText(f) + (")" + rest));
      assert (")" + rest)[1..] == rest;
    } else {
      ReadBareIs(f, rest, more);
      assert (BareText(f) + rest)[0] == '"' && "NOT ("[0] == 'N';
    }
  }

  function ReadFilters(s: string, args: seq<Val>): Option<(seq<Filter>, string, seq<Val>)>
    decreases |s|
  {
    match ReadFilter(s, args)
    case None => None
    case Some((f, rest, more)) =>
      match Strip(rest, " AND ")
      case None => Some(([f], rest, more))
      case Some(next) =>
        if |next| >= |s| then None
        else
          match ReadFilters(next, more)
          case None => None
          case Some((fs, after, left)) => Some(([f] + fs, after, left))
  }

  /** What may follow a clause: nothing, or a new line. */
  predicate Ends(s: string) {
    s != "" ==> s[0] == '\n'
  }

  lemma StripAnd(rest: string)
    requires Ends(rest)
    ensures Strip(rest, " AND ") == None && Strip(rest, ", ") == None
  {
    assert " AND "[0] == ' ' && ", "[0] == ',';
  }

  lemma ReadFiltersLast(s: string, args: seq<Val>, f: Filter, rest: string, more: seq<Val>)
    requires ReadFilter(s, args) == Some((f, rest, more)) && Ends(rest)
    ensures ReadFilters(s, args) == Some(([f], rest, more))
  {
    StripAnd(rest);
  }

  lemma ReadFiltersCons(s: string, args: seq<Val>, f: Filter, next: string, left: seq<Val>,
                        fs: seq<Filter>, rest: string, more: seq<Val>)
    requires ReadFilter(s, args) == Some((f, " AND " + next, left)) && |next| < |s|
    requires ReadFilters(next, left) == Some((fs, rest, more))
    ensures ReadFilters(s, args) == Some(([f] + fs, rest, more))
  {
    StripIs(" AND ", next);
  }

  lemma JoinThen(head: string, tail: seq<string>, sep: string, rest: string)
    requires tail != []
    ensures Join([head] + tail, sep) + rest == head + (sep + (Join(tail, sep) + rest))
  {
    JoinCons(head, tail, sep);
  }

  predicate AllWellFormed(fs: seq<Filter>) {
    forall f :: f in fs ==> WellFormed(f)
  }

  lemma ArgsThen(f: Filter, tail: seq<Filter>, more: seq<Val>)
    ensures AllFilterArgs([f] + tail) + more == FilterArgs(f) + (AllFilterArgs(tail) + more)
  {
    assert ([f] + tail)[1..] == tail;
  }

  lemma {:induction false} ReadFiltersIs(fs: seq<Filter>, rest: string, more: seq<Val>)
    requires fs != [] && Ends(rest) && AllWellFormed(fs)
    ensures ReadFilters(Join(FilterTexts(fs), " AND ") + rest, AllFilterArgs(fs) + more) == Some((fs, rest, more))
  {
    var f, tail := fs[0], fs[1..];
    assert fs == [f] + tail;
    if tail == [] {
      ReadFilterIs(f, rest, more);
      ArgsThen(f, [], more);
      assert [] + more == more && fs == [f];
      ReadFiltersLast(FilterText(f) + rest, FilterArgs(f) + more, f, rest, more);
    } else {
      var next := Join(FilterTexts(tail), " AND ") + rest;
      var left := AllFilterArgs(tail) + more;
      ReadFilterIs(f, " AND " + next, left);
      ReadFiltersIs(tail, rest, more);
      JoinThen(FilterText(f), FilterTexts(tail), " AND ", rest);
      ArgsThen(f, tail, more);
      ReadFiltersCons(FilterText(f) + (" AND " + next), FilterArgs(f) + left, f, next, left, tail, rest, more);
    }
  }

  function ReadWhere(s: string, args: seq<Val>): Option<(seq<Filter>, string, seq<Val>)> {
    match Strip(s, "\nWHERE ")
    case None => Some(([], s, args))
    case Some(t) => ReadFilters(t, args)
  }

  // ----- order -----

  function ReadNulls(s: string): (Nulls, string) {
    if At(s, 0) != ' ' then (Default, s)
    else if At(s, 7) == 'F' && |s| >= 12 then (NullsFirst, s[12..])
    else if At(s, 7) == 'L' && |s| >= 11 then (NullsLast, s[11..])
    else (Default, s)
  }

  function ReadOrderTerm(s: string): Option<(OrderTerm, string)> {
    match ReadIdent(s)
    case None => None
    case Some((column, t)) =>
      var dir := if At(t, 1) == 'D' then " DESC" else " ASC";
      match Strip(t, dir)
      case None => None
      case Some(u) => Some((OrderTerm(column, At(t, 1) == 'D', ReadNulls(u).0), ReadNulls(u).1))
  }

  function ReadTerms(s: string): Option<(seq<OrderTerm>, string)>
    decreases |s|
  {
    match ReadOrderTerm(s)
    case None => None
    case Some((t, rest)) =>
      match Strip(rest, ", ")
      case None => Some(([t], rest))
      case Some(next) =>
        if |next| >= |s| then None
        else
          match ReadTerms(next)
          case None => None
          case Some((ts, after)) => Some(([t] + ts, after))
  }

  function NullsText(n: Nulls): string {
    match n
    case Default => ""
    case NullsFirst => " NULLS FIRST"
    case NullsLast => " NULLS LAST"
  }

  lemma ReadNullsIs(n: Nulls, rest: string)
    requires At(rest, 0) != ' '
    ensures ReadNulls(NullsText(n) + rest) == (n, rest)
  {
    var p := NullsText(n);
    match n
    case Default => assert "" + rest == rest;
    case _ =>
      AtIn(p, rest, 0);
      AtIn(p, rest, 7);
      assert (p + rest)[|p|..] == rest;
  }

  lemma ReadOrderTermIs(t: OrderTerm, rest: string)
    requires At(rest, 0) != ' '
    ensures ReadOrderTerm(OrderText(t) + rest) == Some((t, rest))
  {
    var q, dir, n := Quote(t.column, '"'), if t.desc then " DESC" else " ASC", NullsText(t.nulls);
    assert OrderText(t) + rest == q + (dir + (n + rest));
    ReadIdentIs(t.column, dir + (n + rest));
    AtIn(dir, n + rest, 1);
    StripIs(dir, n + rest);
    ReadNullsIs(t.nulls, rest);
  }

  lemma ReadTermsLast(s: string, t: OrderTerm, rest: string)
    requires ReadOrderTerm(s) == Some((t, rest)) && Ends(rest)
    ensures ReadTerms(s) == Some(([t], rest))
  {
    StripAnd(rest);
  }

  lemma ReadTermsCons(s: string, t: OrderTerm, next: string, ts: seq<OrderTerm>, rest: string)
    requires ReadOrderTerm(s) == Some((t, ", " + next)) && |next| < |s|
    requires ReadTerms(next) == Some((ts, rest))
    ensures ReadTerms(s) == Some(([t] + ts, rest))
  {
    StripIs(", ", next);
  }

  lemma {:induction false} ReadTermsIs(ts: seq<OrderTerm>, rest: string)
    requires ts != [] && Ends(rest)
    ensures ReadTerms(Join(OrderTexts(ts), ", ") + rest) == Some((ts, rest))
  {
    var t, tail := ts[0], ts[1..];
    assert ts == [t] + tail;
    if tail == [] {
      ReadOrderTermIs(t, rest);
      assert ts == [t];
      ReadTermsLast(OrderText(t) + rest, t, rest);
    } else {
      var next := Join(OrderTexts(tail), ", ") + rest;
      ReadOrderTermIs(t, ", " + next);
      ReadTermsIs(tail, rest);
      JoinThen(OrderText(t), OrderTexts(tail), ", ", rest);
      ReadTermsCons(OrderText(t) + (", " + next), t, next, tail, rest);
    }
  }

  function ReadOrderBy(s: string): Option<(seq<OrderTerm>, string)> {
    match Strip(s, "\nORDER BY ")
    case None => Some(([], s))
    case Some(t) => ReadTerms(t)
  }

  // ----- limit and offset -----

  /** The limit if there is one, and the offset. */
  datatype Window = Window(limit: Option<int>, offset: int)

  function ReadOffset(s: string, limit: Option<int>, args: seq<Val>): Option<Window> {
    if s == "" && args == [] then Some(Window(limit, 0))
    else if s == " OFFSET ?" && |args| == 1 && args[0].VInt? then Some(Window(limit, args[0].i))
    else None
  }

  function ReadLimit(s: string, args: seq<Val>): Option<Window> {
    if s == "" then ReadOffset("", None, args)
    else
      match Strip(s, "\nLIMIT -1")
      case Some(t) => ReadOffset(t, None, args)
      case None =>
        match Strip(s, "\nLIMIT ?")
        case None => None
        case Some(t) => if args != [] && args[0].VInt? then ReadOffset(t, Some(args[0].i), args[1..]) else None
  }

  function WindowOf(o: Options): Window {
    Window(if o.hasLim then Some(o.limit) else None, if o.offset > 0 then o.offset else 0)
  }

  lemma ReadLimitIs(o: Options)
    ensures ReadLimit(LimitText(o), LimitArgs(o)) == Some(WindowOf(o)) && Ends(LimitText(o))
  {
    var off := if o.offset > 0 then " OFFSET ?" else "";
    var offArgs := if o.offset > 0 then [VInt(o.offset)] else [];
    assert ReadOffset(off, if o.hasLim then Some(o.limit) else None, offArgs) == Some(WindowOf(o));
    if o.hasLim {
      var s := "\nLIMIT ?" + off;
      StripIs("\nLIMIT ?", off);
      assert s[7] == '?' && "\nLIMIT -1"[7] == '-';
      assert Strip(s, "\nLIMIT -1") == None;
      assert LimitArgs(o) == [VInt(o.limit)] + offArgs && LimitArgs(o)[1..] == offArgs;
    } else if o.offset > 0 {
      StripIs("\nLIMIT -1", off);
      assert LimitArgs(o) == offArgs;
    } else {
      assert LimitText(o) == "" && LimitArgs(o) == [];
    }
  }

  // ----- the select list -----

  function ReadSelectTerm(s: string): Option<(SelectTerm, string)> {
    match ReadIdent(s)
    case None => None
    case Some((column, rest)) =>
      match Strip(rest, " AS ")
      case None => Some((SelectTerm(column, None), rest))
      case Some(t) =>
        match ReadIdent(t)
        case None => None
        case Some((alias, more)) => Some((SelectTerm(column, Some(alias)), more))
  }

  function ReadSelects(s: string): Option<seq<SelectTerm>>
    decreases |s|
  {
    match ReadSelectTerm(s)
    case None => None
    case Some((t, rest)) =>
      if rest == "" then Some([t])
      else
        match Strip(rest, ", ")
        case None => None
        case Some(next) =>
          if |next| >= |s| then None
          else
            match ReadSelects(next)
            case None => None
            case Some(ts) => Some([t] + ts)
  }

  function ReadSelect(s: string): Option<seq<SelectTerm>> {
    if s == "*" then Some([]) else ReadSelects(s)
  }

  lemma ReadSelectTermIs(t: SelectTerm, rest: string)
    requires rest == "" || rest[0] == ','
    ensures ReadSelectTerm(RenderSelect(t) + rest) == Some((t, rest))
  {
    match t.alias
    case None =>
      ReadIdentIs(t.column, rest);
      assert " AS "[0] == ' ';
      assert Strip(rest, " AS ") == None;
    case Some(alias) =>
      var q, a := Quote(t.column, '"'), Quote(alias, '"');
      assert RenderSelect(t) + rest == q + (" AS " + (a + rest));
      ReadIdentIs(t.column, " AS " + (a + rest));
      StripIs(" AS ", a + rest);
      ReadIdentIs(alias, rest);
  }

  lemma ReadSelectsCons(s: string, t: SelectTerm, next: string, ts: seq<SelectTerm>)
    requires ReadSelectTerm(s) == Some((t, ", " + next)) && |next| < |s|
    requires ReadSelects(next) == Some(ts)
    ensures ReadSelects(s) == Some([t] + ts)
  {
    StripIs(", ", next);
  }

  lemma {:induction false} ReadSelectsIs(ts: seq<SelectTerm>)
    requires ts != []
    ensures ReadSelects(Join(RenderSelects(ts), ", ")) == Some(ts)
  {
    var t, tail := ts[0], ts[1..];
    assert ts == [t] + tail;
    if tail == [] {
      ReadSelectTermIs(t, "");
      assert RenderSelect(t) + "" == RenderSelect(t) && ts == [t];
    } else {
      var next := Join(RenderSelects(tail), ", ");
      ReadSelectTermIs(t, ", " + next);
      ReadSelectsIs(tail);
      JoinThen(RenderSelect(t), RenderSelects(tail), ", ", "");
      assert next + "" == next && Join(RenderSelects(ts), ", ") + "" == Join(RenderSelects(ts), ", ");
      ReadSelectsCons(RenderSelect(t) + (", " + next), t, next, tail);
    }
  }

  lemma ReadSelectIs(ts: seq<SelectTerm>)
    ensures ReadSelect(SelectText(RenderSelects(ts))) == Some(ts)
  {
    if ts != [] {
      ReadSelectsIs(ts);
      var s := Join(RenderSelects(ts), ", ");
      assert s[0] == '"' by {
        assert RenderSelects(ts)[0] == RenderSelect(ts[0]);
      }
      assert "*"[0] == '*';
    }
  }

  // ----- the statement -----

  /** The position of the last newline that a closing paren follows. */
  function LastClose(s: string): Option<nat> {
    if |s| < 2 then None
    else if s[|s| - 2] == '\n' && s[|s| - 1] == ')' then Some(|s| - 2)
    else LastClose(s[..|s| - 1])
  }

  predicate NoClose(s: string) {
    forall k :: 0 <= k < |s| - 1 && s[k] == '\n' ==> s[k + 1] != ')'
  }

  lemma {:induction false} LastCloseIs(inner: string, rest: string)
    requires NoClose(")" + rest)
    ensures LastClose(inner + ("\n)" + rest)) == Some(|inner|)
    decreases |rest|
  {
    var s := inner + ("\n)" + rest);
    if rest != "" {
      var shorter := rest[..|rest| - 1];
      var t := ")" + rest;
      assert s[..|s| - 1] == inner + ("\n)" + shorter);
      assert t[|t| - 2] == s[|s| - 2] && t[|t| - 1] == s[|s| - 1];
      assert forall k :: 0 <= k < |t| - 1 ==> (")" + shorter)[k] == t[k];
      LastCloseIs(inner, shorter);
    }
  }

  /** All that a wrapped statement says. */
  datatype Statement = Statement(
    inner: string, select: seq<SelectTerm>, filters: seq<Filter>, order: seq<OrderTerm>, window: Window)

  /** What options ask of an inner statement; `terms` are the select terms behind the rendered ones. */
  function StatementOf(o: Options, inner: string, terms: seq<SelectTerm>): Statement {
    Statement(inner, terms, o.filters, o.order, WindowOf(o))
  }

  function ReadShape(inner: string, select: seq<SelectTerm>, s: string, args: seq<Val>): Option<Statement> {
    match ReadWhere(s, args)
    case None => None
    case Some((filters, t, more)) =>
      match ReadOrderBy(t)
      case None => None
      case Some((order, u)) =>
        match ReadLimit(u, more)
        case None => None
        case Some(window) => Some(Statement(inner, select, filters, order, window))
  }

  /** What follows the select list: the inner statement runs to the last closing line. */
  function ReadFrom(select: seq<SelectTerm>, s: string, args: seq<Val>): Option<Statement> {
    match Strip(s, FROM)
    case None => None
    case Some(t) =>
      match LastClose(t)
      case None => None
      case Some(k) =>
        if k > |t| then None
        else
          match Strip(t[k..], CLOSE)
          case None => None
          case Some(shape) => ReadShape(t[..k], select, shape, args)
  }

  function ReadStatement(s: string, args: seq<Val>): Option<Statement> {
    match Strip(s, "SELECT ")
    case None => None
    case Some(t) =>
      var k := IndexOf(t, '\n');
      match ReadSelect(t[..k])
      case None => None
      case Some(select) => ReadFrom(select, t[k..], args)
  }

  // ----- no clause holds a newline of its own -----

  predicate SingleLine(s: string) {
    forall k :: 0 <= k < |s| ==> s[k] != '\n'
  }

  lemma {:induction false} EscapeSingleLine(s: string)
    requires SingleLine(s)
    ensures SingleLine(Escape(s, '"'))
  {
    if s != "" {
      EscapeSingleLine(s[1..]);
    }
  }

  lemma IdentSingleLine(s: string)
    requires ValidIdent(s)
    ensures SingleLine(Quote(s, '"'))
  {
    forall k | 0 <= k < |s|
      ensures s[k] != '\n'
    {
      assert IdentChar(s[k], k == 0);
    }
    EscapeSingleLine(s);
  }

  lemma {:induction false} JoinSingleLine(parts: seq<string>, sep: string)
    requires SingleLine(sep) && forall p :: p in parts ==> SingleLine(p)
    ensures SingleLine(Join(parts, sep))
  {
    if parts != [] {
      assert parts[0] in parts && SingleLine(parts[0]);
    }
    if |parts| > 1 {
      JoinSingleLine(parts[1..], sep);
      var head, tail := parts[0] + sep, Join(parts[1..], sep);
      assert forall k :: |head| <= k < |head + tail| ==> (head + tail)[k] == tail[k - |head|];
    }
  }

  lemma FilterSingleLine(f: Filter)
    requires WellFormed(f)
    ensures SingleLine(FilterText(f))
  {
    IdentSingleLine(f.column);
    JoinSingleLine(Marks(|f.inList|), ", ");
    TestSingleLine(TestOf(f));
  }

  lemma TestSingleLine(t: Test)
    ensures SingleLine(TestText(t))
  {
  }

  lemma {:induction false} FiltersSingleLine(fs: seq<Filter>)
    requires AllWellFormed(fs)
    ensures forall p :: p in FilterTexts(fs) ==> SingleLine(p)
  {
    if fs != [] {
      FilterSingleLine(fs[0]);
      FiltersSingleLine(fs[1..]);
    }
  }

  lemma OrderSingleLine(t: OrderTerm)
    requires OrderWellFormed(t)
    ensures SingleLine(OrderText(t))
  {
    IdentSingleLine(t.column);
  }

  lemma {:induction false} OrdersSingleLine(ts: seq<OrderTerm>)
    requires forall t :: t in ts ==> OrderWellFormed(t)
    ensures forall p :: p in OrderTexts(ts) ==> SingleLine(p)
  {
    if ts != [] {
      OrderSingleLine(ts[0]);
      OrdersSingleLine(ts[1..]);
    }
  }

  lemma {:induction false} SelectsSingleLine(ts: seq<SelectTerm>)
    requires forall t :: t in ts ==> SelectWellFormed(t)
    ensures forall p :: p in RenderSelects(ts) ==> SingleLine(p)
  {
    if ts != [] {
      assert SelectWellFormed(ts[0]);
      IdentSingleLine(ts[0].column);
      if ts[0].alias.Some? {
        IdentSingleLine(ts[0].alias.value);
      }
      SelectsSingleLine(ts[1..]);
    }
  }

  /** A clause: a keyword line that does not start with a closing paren. */
  predicate Clause(s: string) {
    s != "" ==> s[0] == '\n' && |s| > 1 && s[1] != ')' && SingleLine(s[1..])
  }

  lemma ClausesNoClose(a: string, b: string, c: string)
    requires Clause(a) && Clause(b) && Clause(c)
    ensures NoClose(a + (b + c)) && Ends(a) && Ends(b) && Ends(c) && Ends(b + c)
  {
    assert forall j :: 0 < j < |a| ==> a[j] == a[1..][j - 1];
    assert forall j :: 0 < j < |b| ==> b[j] == b[1..][j - 1];
    assert forall j :: 0 < j < |c| ==> c[j] == c[1..][j - 1];
    ClauseBefore(c, "");
    assert c + "" == c;
    ClauseBefore(b, c);
    ClauseBefore(a, b + c);
  }

  lemma ClauseBefore(a: string, s: string)
    requires Clause(a) && NoClose(s) && Ends(s)
    requires forall j :: 0 < j < |a| ==> a[j] == a[1..][j - 1]
    ensures NoClose(a + s) && Ends(a + s)
  {
    var t := a + s;
    forall k | 0 <= k < |t| - 1 && t[k] == '\n'
      ensures t[k + 1] != ')'
    {
      if k >= |a| {
        assert s[k - |a|] == '\n' && s[k - |a| + 1] == t[k + 1];
      }
    }
  }

  // ----- the wrapper reads back -----

  /** Options the parsers produce; `terms` are the select terms behind the rendered ones. */
  ghost predicate Produced(o: Options, terms: seq<SelectTerm>) {
    && o.select == RenderSelects(terms)
    && (forall t :: t in terms ==> SelectWellFormed(t))
    && AllWellFormed(o.filters)
    && (forall t :: t in o.order ==> OrderWellFormed(t))
  }

  lemma WhereClause(fs: seq<Filter>)
    requires AllWellFormed(fs)
    ensures Clause(WhereText(fs))
  {
    FiltersSingleLine(fs);
    JoinSingleLine(FilterTexts(fs), " AND ");
  }

  lemma OrderClause(ts: seq<OrderTerm>)
    requires forall t :: t in ts ==> OrderWellFormed(t)
    ensures Clause(OrderByText(ts))
  {
    OrdersSingleLine(ts);
    JoinSingleLine(OrderTexts(ts), ", ");
  }

  lemma LimitClause(o: Options)
    ensures Clause(LimitText(o))
  {
  }

  lemma StripOther(s: string, p: string)
    requires |p| > 1 && p[0] == '\n' && (s == "" || (|s| > 1 && s[1] != p[1]))
    ensures Strip(s, p) == None
  {
    if |p| <= |s| {
      assert s[..|p|][1] == s[1];
    }
  }

  lemma ReadWhereIs(fs: seq<Filter>, rest: string, more: seq<Val>)
    requires Ends(rest) && AllWellFormed(fs)
    requires rest == "" || (|rest| > 1 && rest[1] != 'W')
    ensures ReadWhere(WhereText(fs) + rest, AllFilterArgs(fs) + more) == Some((fs, rest, more))
  {
    if fs == [] {
      assert "" + rest == rest && [] + more == more;
      assert "\nWHERE "[1] == 'W';
      StripOther(rest, "\nWHERE ");
    } else {
      var body := Join(FilterTexts(fs), " AND ");
      Assoc("\nWHERE ", body, rest);
      StripIs("\nWHERE ", body + rest);
      ReadFiltersIs(fs, rest, more);
    }
  }

  lemma ReadOrderByIs(ts: seq<OrderTerm>, rest: string)
    requires Ends(rest) && (rest == "" || (|rest| > 1 && rest[1] != 'O'))
    ensures ReadOrderBy(OrderByText(ts) + rest) == Some((ts, rest))
  {
    if ts == [] {
      assert "" + rest == rest;
      assert "\nORDER BY "[1] == 'O';
      StripOther(rest, "\nORDER BY ");
    } else {
      var body := Join(OrderTexts(ts), ", ");
      Assoc("\nORDER BY ", body, rest);
      StripIs("\nORDER BY ", body + rest);
      ReadTermsIs(ts, rest);
    }
  }

  lemma LimitStart(o: Options)
    ensures LimitText(o) == "" || (|LimitText(o)| > 1 && LimitText(o)[0] == '\n' && LimitText(o)[1] == 'L')
  {
  }

  lemma OrderStart(ts: seq<OrderTerm>, rest: string)
    requires rest == "" || (|rest| > 1 && rest[0] == '\n' && rest[1] == 'L')
    ensures var s := OrderByText(ts) + rest;
            s == "" || (|s| > 1 && s[0] == '\n' && (s[1] == 'O' || s[1] == 'L'))
  {
  }

  lemma ReadShapeIs(inner: string, terms: seq<SelectTerm>, o: Options)
    requires Produced(o, terms)
    ensures ReadShape(inner, terms, ShapeText(o), ShapeArgs(o)) ==
            Some(StatementOf(o, inner, terms))
  {
    LimitStart(o);
    OrderStart(o.order, LimitText(o));
    ReadWhereIs(o.filters, OrderByText(o.order) + LimitText(o), LimitArgs(o));
    ReadOrderByIs(o.order, LimitText(o));
    ReadLimitIs(o);
  }

  lemma ShapeNoClose(o: Options, terms: seq<SelectTerm>)
    requires Produced(o, terms)
    ensures NoClose(") AS _q" + ShapeText(o))
  {
    WhereClause(o.filters);
    OrderClause(o.order);
    LimitClause(o);
    ClausesNoClose(WhereText(o.filters), OrderByText(o.order), LimitText(o));
    NoCloseAfter(") AS _q", ShapeText(o));
  }

  lemma NoCloseAfter(a: string, b: string)
    requires SingleLine(a) && NoClose(b)
    ensures NoClose(a + b)
  {
    var s := a + b;
    forall k | 0 <= k < |s| - 1 && s[k] == '\n'
      ensures s[k + 1] != ')'
    {
      if k >= |a| {
        assert s[k] == b[k - |a|] && s[k + 1] == b[k - |a| + 1];
      }
    }
  }

  lemma ReadFromIs(inner: string, terms: seq<SelectTerm>, o: Options)
    requires Produced(o, terms)
    ensures ReadFrom(terms, FROM + (inner + (CLOSE + ShapeText(o))), ShapeArgs(o)) ==
            Some(StatementOf(o, inner, terms))
  {
    ShapeNoClose(o, terms);
    ReadFromParts(inner, ShapeText(o), terms, ShapeArgs(o));
    ReadShapeIs(inner, terms, o);
  }

  /** The inner statement is found whatever it contains, closing lines of its own included. */
  lemma ReadFromParts(inner: string, shape: string, terms: seq<SelectTerm>, args: seq<Val>)
    requires NoClose(") AS _q" + shape)
    ensures ReadFrom(terms, FROM + (inner + (CLOSE + shape)), args) == ReadShape(inner, terms, shape, args)
  {
    var t := inner + (CLOSE + shape);
    StripIs(FROM, t);
    assert ") AS _q" + shape == ")" + (" AS _q" + shape);
    assert CLOSE + shape == "\n)" + (" AS _q" + shape);
    LastCloseIs(inner, " AS _q" + shape);
    assert t[..|inner|] == inner && t[|inner|..] == CLOSE + shape;
    StripIs(CLOSE, shape);
  }

  lemma SelectEnds(select: string, rest: string)
    requires SingleLine(select) && rest != "" && rest[0] == '\n'
    ensures IndexOf(select + rest, '\n') == |select|
    ensures (select + rest)[..|select|] == select && (select + rest)[|select|..] == rest
  {
    var s := select + rest;
    assert s[|select|] == '\n';
    assert forall j :: 0 <= j < |select| ==> s[j] == select[j];
  }

  /** The wrapped statement is unambiguous: for every inner statement and all options the parsers
      can produce, text and arguments determine the inner statement, the select list, filters,
      order terms, limit and offset. */
  lemma WrapperReadsBack(inner: string, o: Options, terms: seq<SelectTerm>)
    requires Produced(o, terms)
    ensures ReadStatement(Wrapped(o, inner), ShapeArgs(o)) ==
            Some(StatementOf(o, inner, terms))
  {
    var select := SelectText(o.select);
    var rest := FROM + (inner + (CLOSE + ShapeText(o)));
    SelectsSingleLine(terms);
    JoinSingleLine(o.select, ", ");
    StripIs("SELECT ", select + rest);
    SelectEnds(select, rest);
    ReadSelectIs(terms);
    ReadFromIs(inner, terms, o);
  }
}
