/** The whole way of a request's values into the statement (handler.go): binding, wrapping, and the
    one argument list that serves both. */
module Pipeline {
  import opened Text
  import opened Values
  import opened Params
  import opened QueryFile
  import opened Filters
  import opened Wrapper
  import opened Reader
  import opened Syntax
  import opened Binding
  import opened Expansion
  import opened Input
  import opened Shaping
  import opened Body
  import opened Printer

  // ----- requests carry only what the wrapper can write -----

  ghost predicate Listed(cols: seq<string>, terms: seq<SelectTerm>) {
    cols == RenderSelects(terms) && forall t :: t in terms ==> SelectWellFormed(t)
  }

  lemma {:induction false} FiltersWellFormed(key: string, specs: seq<string>, columns: set<string>)
    requires FiltersOf(key, specs, columns).Success?
    ensures AllWellFormed(FiltersOf(key, specs, columns).value)
  {
    if specs != [] {
      ParsedWellFormed(key, specs[0], columns);
      FiltersWellFormed(key, specs[1..], columns);
    }
  }

  /** What a key can settle or add. */
  ghost predicate LegalEffect(x: Effect) {
    match x
    case Settle(s) =>
      (match s
       case SelectTo(cols) => exists terms :: Listed(cols, terms)
       case OrderTo(terms) => forall t :: t in terms ==> OrderWellFormed(t)
       case LimitTo(n) => n >= 0
       case OffsetTo(n) => n >= 0
       case BindTo(_, _) => true)
    case AddFilters(fs) => AllWellFormed(fs)
    case _ => true
  }

  lemma OptionLegal(role: Role, key: string, values: seq<string>, columns: set<string>)
    requires values != []
    ensures LegalEffect(OptionEffect(role, key, values, columns))
  {
    match role
    case SelectRole =>
      var terms := SelectTermsOf(Split(values[0], ','), columns);
      if terms.Success? {
        SelectsWellFormed(Split(values[0], ','), columns);
        assert Listed(RenderSelects(terms.value), terms.value);
      }
    case OrderRole =>
      if OrderOf(Split(values[0], ','), columns).Success? {
        OrdersWellFormed(Split(values[0], ','), columns);
      }
    case FilterRole =>
      if FiltersOf(key, values, columns).Success? {
        FiltersWellFormed(key, values, columns);
      }
    case _ =>
  }

  lemma EffectLegal(q: Query, body: map<string, Val>, conv: Strconv, e: Entry)
    ensures LegalEffect(EffectOf(q, body, conv, e))
  {
    if e.values != [] && e.key !in q.byName {
      OptionLegal(RoleOf(e.key), e.key, e.values, q.columns);
    }
  }

  ghost predicate Legal(o: Options) {
    && o.limit >= 0 && o.offset >= 0 && (exists terms :: Listed(o.select, terms))
    && AllWellFormed(o.filters) && forall t :: t in o.order ==> OrderWellFormed(t)
  }

  lemma {:induction false} GatherLegal(r: Request, effects: seq<Effect>)
    requires Legal(r.opts) && Gather(r, effects).Success?
    requires forall k :: 0 <= k < |effects| ==> LegalEffect(effects[k])
    ensures Legal(Gather(r, effects).value.opts)
    decreases |effects|
  {
    if effects != [] {
      TakeLegal(r, effects[0]);
      GatherLegal(Take(r, effects[0]), effects[1..]);
    }
  }

  lemma TakeLegal(r: Request, x: Effect)
    requires Legal(r.opts) && LegalEffect(x)
    ensures Legal(Take(r, x).opts)
  {
    if x.Settle? && x.setting.SelectTo? {
      var terms :| Listed(x.setting.cols, terms);
      assert Listed(Take(r, x).opts.select, terms);
    } else {
      var terms :| Listed(r.opts.select, terms);
      assert Listed(Take(r, x).opts.select, terms);
    }
  }

  /** Every accepted request asks only for what the wrapper writes unambiguously. */
  lemma RequestLegal(q: Query, body: map<string, Val>, conv: Strconv, entries: seq<Entry>)
    requires RequestOf(q, body, conv, entries).Success?
    ensures Legal(RequestOf(q, body, conv, entries).value.opts)
    ensures exists terms :: Produced(RequestOf(q, body, conv, entries).value.opts, terms)
  {
    assert Listed([], []);
    forall k | 0 <= k < |entries|
      ensures LegalEffect(Effects(q, body, conv, entries)[k])
    {
      EffectLegal(q, body, conv, entries[k]);
    }
    GatherLegal(Input.Start(body), Effects(q, body, conv, entries));
    var o := RequestOf(q, body, conv, entries).value.opts;
    var terms :| Listed(o.select, terms);
    assert Produced(o, terms);
  }

  // ----- the wrapper's placeholders -----

  lemma {:induction false} MarksMarked(n: nat)
    ensures Marked(Join(Marks(n), ", "), n)
  {
    if n == 1 {
      HoleReads(VNull);
      assert Marks(1)[0] == "?";
    } else if n > 1 {
      assert Marks(n) == ["?"] + Marks(n - 1);
      JoinCons("?", Marks(n - 1), ", ");
      MarksMarked(n - 1);
      HoleReads(VNull);
      UnquotedMarked(", ");
      MarkedAppend("?", 1, ", ", 0);
      MarkedAppend("?" + ", ", 1, Join(Marks(n - 1), ", "), n - 1);
    }
  }

  lemma OperandMarked(f: Filter)
    ensures Marked(Operand(f), |FilterArgs(f)|)
  {
    MarksMarked(|f.inList|);
    UnquotedMarked(")");
    MarkedAppend(Join(Marks(|f.inList|), ", "), |f.inList|, ")", 0);
    HoleReads(VNull);
  }

  lemma TestUnquoted(t: Test)
    ensures Unquoted(TestText(t))
  {
  }

  lemma FilterMarked(f: Filter)
    ensures Marked(FilterText(f), |FilterArgs(f)|)
  {
    var q, t, n := Quote(f.column, '"'), TestText(TestOf(f)), |FilterArgs(f)|;
    QuoteReads(f.column, '"');
    TestUnquoted(TestOf(f));
    UnquotedMarked(t);
    MarkedAppend(q, 0, t, 0);
    OperandMarked(f);
    MarkedAppend(q + t, 0, Operand(f), n);
    assert BareText(f) == q + t + Operand(f);
    if f.negate && !f.isNull {
      UnquotedMarked("NOT (");
      UnquotedMarked(")");
      MarkedAppend("NOT (", 0, BareText(f), n);
      MarkedAppend("NOT (" + BareText(f), n, ")", 0);
    }
  }

  lemma {:induction false} FiltersMarked(fs: seq<Filter>)
    requires fs != []
    ensures Marked(Join(FilterTexts(fs), " AND "), |AllFilterArgs(fs)|)
  {
    var f, tail := fs[0], fs[1..];
    FilterMarked(f);
    if tail != [] {
      FiltersMarked(tail);
      assert FilterTexts(fs)[1..] == FilterTexts(tail);
      UnquotedMarked(" AND ");
      MarkedAppend(FilterText(f), |FilterArgs(f)|, " AND ", 0);
      MarkedAppend(FilterText(f) + " AND ", |FilterArgs(f)|, Join(FilterTexts(tail), " AND "), |AllFilterArgs(tail)|);
    } else {
      assert AllFilterArgs(tail) == [];
    }
  }

  lemma {:induction false} JoinUnmarked(parts: seq<string>, sep: string)
    requires Unquoted(sep) && forall k :: 0 <= k < |parts| ==> Marked(parts[k], 0)
    ensures Marked(Join(parts, sep), 0)
  {
    if |parts| > 1 {
      JoinUnmarked(parts[1..], sep);
      UnquotedMarked(sep);
      MarkedAppend(parts[0], 0, sep, 0);
      MarkedAppend(parts[0] + sep, 0, Join(parts[1..], sep), 0);
    }
  }

  lemma OrderUnmarked(t: OrderTerm)
    ensures Marked(OrderText(t), 0)
  {
    var q := Quote(t.column, '"');
    var tail := OrderText(t)[|q|..];
    QuoteReads(t.column, '"');
    UnquotedMarked(tail);
    MarkedAppend(q, 0, tail, 0);
    assert OrderText(t) == q + tail;
  }

  lemma {:induction false} OrdersUnmarked(ts: seq<OrderTerm>)
    ensures forall k :: 0 <= k < |ts| ==> Marked(OrderTexts(ts)[k], 0)
  {
    if ts != [] {
      OrderUnmarked(ts[0]);
      OrdersUnmarked(ts[1..]);
    }
  }

  lemma SelectTermUnmarked(t: SelectTerm)
    ensures Marked(RenderSelect(t), 0)
  {
    QuoteReads(t.column, '"');
    if t.alias.Some? {
      QuoteReads(t.alias.value, '"');
      UnquotedMarked(" AS ");
      MarkedAppend(Quote(t.column, '"'), 0, " AS ", 0);
      MarkedAppend(Quote(t.column, '"') + " AS ", 0, Quote(t.alias.value, '"'), 0);
    }
  }

  lemma {:induction false} SelectsUnmarked(ts: seq<SelectTerm>)
    ensures forall k :: 0 <= k < |ts| ==> Marked(RenderSelects(ts)[k], 0)
  {
    if ts != [] {
      SelectTermUnmarked(ts[0]);
      SelectsUnmarked(ts[1..]);
    }
  }

  lemma LimitsMarked()
    ensures Marked("\nLIMIT ?", 1) && Marked("\nLIMIT -1", 0)
  {
    HoleReads(VNull);
    UnquotedMarked("\nLIMIT ");
    MarkedAppend("\nLIMIT ", 0, "?", 1);
    assert "\nLIMIT " + "?" == "\nLIMIT ?";
    UnquotedMarked("\nLIMIT -1");
  }

  lemma OffsetMarked()
    ensures Marked(" OFFSET ?", 1) && Marked("", 0)
  {
    HoleReads(VNull);
    UnquotedMarked(" OFFSET ");
    MarkedAppend(" OFFSET ", 0, "?", 1);
    assert " OFFSET " + "?" == " OFFSET ?";
  }

  lemma LimitMarked(o: Options)
    ensures Marked(LimitText(o), |LimitArgs(o)|)
  {
    LimitsMarked();
    OffsetMarked();
    MarkedAppend(if o.hasLim then "\nLIMIT ?" else if o.offset > 0 then "\nLIMIT -1" else "", if o.hasLim then 1 else 0,
                 if o.offset > 0 then " OFFSET ?" else "", if o.offset > 0 then 1 else 0);
  }

  lemma WhereMarked(fs: seq<Filter>)
    ensures Marked(WhereText(fs), |AllFilterArgs(fs)|)
  {
    if fs != [] {
      FiltersMarked(fs);
      UnquotedMarked("\nWHERE ");
      MarkedAppend("\nWHERE ", 0, Join(FilterTexts(fs), " AND "), |AllFilterArgs(fs)|);
    }
  }

  lemma OrderByUnmarked(ts: seq<OrderTerm>)
    ensures Marked(OrderByText(ts), 0)
  {
    OrdersUnmarked(ts);
    JoinUnmarked(OrderTexts(ts), ", ");
    UnquotedMarked("\nORDER BY ");
    MarkedAppend("\nORDER BY ", 0, Join(OrderTexts(ts), ", "), 0);
  }

  lemma ShapeMarked(o: Options)
    ensures Marked(ShapeText(o), |ShapeArgs(o)|)
  {
    WhereMarked(o.filters);
    OrderByUnmarked(o.order);
    LimitMarked(o);
    MarkedAppend(OrderByText(o.order), 0, LimitText(o), |LimitArgs(o)|);
    MarkedAppend(WhereText(o.filters), |AllFilterArgs(o.filters)|, OrderByText(o.order) + LimitText(o), |LimitArgs(o)|);
  }

  lemma SelectUnmarked(terms: seq<SelectTerm>)
    ensures Marked(SelectText(RenderSelects(terms)), 0)
  {
    SelectsUnmarked(terms);
    JoinUnmarked(RenderSelects(terms), ", ");
    UnquotedMarked("*");
  }

  // ----- the statement sent -----

  /** The wrapped text around an inner statement: what stands before it, and after it. */
  function Before(o: Options): string {
    "SELECT " + (SelectText(o.select) + FROM)
  }

  function Behind(o: Options): string {
    CLOSE + ShapeText(o)
  }

  lemma WrappedIs(o: Options, inner: string)
    ensures Wrapped(o, inner) == Before(o) + (inner + Behind(o))
  {
  }

  lemma BeforeMarked(o: Options, terms: seq<SelectTerm>)
    requires o.select == RenderSelects(terms)
    ensures Marked(Before(o), 0)
  {
    SelectUnmarked(terms);
    HeadMarked(SelectText(o.select));
  }

  lemma HeadMarked(select: string)
    requires Marked(select, 0)
    ensures Marked("SELECT " + (select + FROM), 0)
  {
    UnquotedMarked("SELECT ");
    UnquotedMarked(FROM);
    MarkedAppend(select, 0, FROM, 0);
    MarkedAppend("SELECT ", 0, select + FROM, 0);
  }

  lemma BehindMarked(o: Options)
    ensures Marked(Behind(o), |ShapeArgs(o)|)
  {
    ShapeMarked(o);
    TailMarked(ShapeText(o), |ShapeArgs(o)|);
  }

  lemma TailMarked(shape: string, n: nat)
    requires Marked(shape, n)
    ensures Marked(CLOSE + shape, n)
  {
    UnquotedMarked(CLOSE);
    MarkedAppend(CLOSE, 0, shape, n);
  }

  /** The wrapper adds one placeholder for each of its arguments, behind those of the inner
      statement, and none of its own is in quotes. */
  lemma WrapperReads(o: Options, terms: seq<SelectTerm>, inner: string, args: seq<Val>, text: string)
    requires o.select == RenderSelects(terms) && Reads(inner, args, text)
    ensures Reads(Wrapped(o, inner), args + ShapeArgs(o), Before(o) + (text + Substitute(Behind(o), None, ShapeArgs(o))))
  {
    BeforeMarked(o, terms);
    BehindMarked(o);
    NothingToSubstitute(Before(o), None);
    ReadsAppend(inner, Behind(o), args, ShapeArgs(o), text, Substitute(Behind(o), None, ShapeArgs(o)));
    ReadsAppend(Before(o), inner + Behind(o), [], args + ShapeArgs(o), Before(o),
                text + Substitute(Behind(o), None, ShapeArgs(o)));
    assert [] + (args + ShapeArgs(o)) == args + ShapeArgs(o);
    WrappedIs(o, inner);
  }

  /** Cuts off the semicolons at the end, and nothing else. */
  function StripSemicolons(s: string): (t: string)
    ensures t <= s && (t != "" ==> t[|t| - 1] != ';') && forall k :: |t| <= k < |s| ==> s[k] == ';'
  {
    if s != "" && s[|s| - 1] == ';' then StripSemicolons(s[..|s| - 1]) else s
  }

  /** The text and arguments sent for a rewritten statement; `printer` is the SQL printer. */
  function Built(stmt: Expr, args: seq<Val>, o: Options, printer: Expr -> string): (string, seq<Val>) {
    if o.NeedsWrapper() then (Wrapped(o, StripSemicolons(Trim(printer(stmt)))), args + ShapeArgs(o))
    else (printer(stmt), args)
  }

  /** Wraps the rewritten statement if the request asks for shaping. */
  method BuildStatement(stmt: Expr, args: seq<Val>, o: Options, printer: Expr -> string)
    returns (sql: string, all: seq<Val>)
    ensures (sql, all) == Built(stmt, args, o, printer)
  {
    sql, all := printer(stmt), args;
    if o.NeedsWrapper() {
      var extra;
      sql, extra := BuildWrapper(o, StripSemicolons(Trim(sql)));
      all := all + extra;
    }
  }

  lemma {:induction false} RewrittenOnlyHoles(e: Expr, env: Env)
    ensures OnlyHoles(Rewritten(e, env))
    decreases e, 1
  {
    match e
    case Compare(_, l, r) => RewrittenOnlyHoles(l, env); RewrittenOnlyHoles(r, env);
    case And(l, r) => RewrittenOnlyHoles(l, env); RewrittenOnlyHoles(r, env);
    case Or(l, r) => RewrittenOnlyHoles(l, env); RewrittenOnlyHoles(r, env);
    case Not(x) => RewrittenOnlyHoles(x, env);
    case IsNull(x) => RewrittenOnlyHoles(x, env);
    case In(x, _, list) => RewrittenOnlyHoles(x, env); RewrittenOnlyHoles(list, env);
    case List(items) => FlattenOnlyHoles(items, env);
    case Bind(_) =>
      if IsListBind(e, env) {
        PositionalOnlyHoles(|ListItems(e, env)|);
      }
    case _ =>
  }

  lemma {:induction false} PositionalOnlyHoles(n: nat)
    ensures OnlyHolesAll(Positional(n))
  {
    if n != 0 {
      assert Positional(n)[1..] == Positional(n - 1);
      PositionalOnlyHoles(n - 1);
    }
  }

  lemma {:induction false} OnlyHolesAppend(a: seq<Expr>, b: seq<Expr>)
    requires OnlyHolesAll(a) && OnlyHolesAll(b)
    ensures OnlyHolesAll(a + b)
  {
    if a == [] {
      assert a + b == b;
    } else {
      assert (a + b)[1..] == a[1..] + b;
      OnlyHolesAppend(a[1..], b);
    }
  }

  lemma {:induction false} FlattenOnlyHoles(es: seq<Expr>, env: Env)
    ensures OnlyHolesAll(Flatten(RewrittenAll(es, env)))
    decreases es, 0
  {
    if es != [] {
      RewrittenOnlyHoles(es[0], env);
      FlattenOnlyHoles(es[1..], env);
      OnlyHolesAppend(FlatItem(es[0], env), Flatten(RewrittenAll(es[1..], env)));
    }
  }

  lemma TrimClean(s: string)
    requires CleanEnds(s)
    ensures StripSemicolons(Trim(s)) == s
  {
    TrimSolid(s);
  }

  /** The text around an inner statement, to the letter. */
  lemma FrameToTheLetter(o: Options, inner: string)
    ensures Wrapped(o, inner) ==
            "SELECT " + (SelectText(o.select) + ("\nFROM (\n" + (inner + ("\n) AS _q" + ShapeText(o)))))
    ensures SelectText([]) == "*"
  {
  }

  lemma SelectToTheLetter(a: string, b: string)
    ensures RenderSelect(SelectTerm(a, None)) == Quote(a, '"')
    ensures RenderSelect(SelectTerm(a, Some(b))) == Quote(a, '"') + " AS " + Quote(b, '"')
    ensures SelectText([a, b]) == a + ", " + b
  {
    assert [a, b][1..] == [b] && [a, b][0] == a && Join([b], ", ") == b;
  }

  lemma OrderToTheLetter(t: OrderTerm)
    requires t.desc && t.nulls == NullsLast
    ensures OrderByText([t]) == "\nORDER BY " + (Quote(t.column, '"') + " DESC" + " NULLS LAST")
    ensures OrderText(t.(desc := false, nulls := NullsFirst)) == Quote(t.column, '"') + " ASC" + " NULLS FIRST"
  {
    assert [t][1..] == [] && OrderTexts([t]) == [OrderText(t)];
  }

  lemma LimitToTheLetter(n: int, k: int)
    requires k > 0
    ensures LimitText(Options([], [], [], n, k, true)) == "\nLIMIT ?" + " OFFSET ?"
    ensures LimitText(Options([], [], [], 0, k, false)) == "\nLIMIT -1" + " OFFSET ?"
    ensures LimitArgs(Options([], [], [], n, k, true)) == [VInt(n), VInt(k)]
  {
  }

  /** Nothing was asked for: no column, filter or order, and the whole window. */
  predicate Plain(o: Options) {
    o.select == [] && o.filters == [] && o.order == [] && WindowOf(o) == Window(None, 0)
  }

  /** Whatever the printer, the statement goes out as printed if nothing was asked for; otherwise
      what goes out reads as the request over the printed statement, without the semicolons and
      white space around it, and carries the statement's arguments first. */
  lemma BuiltIsAsked(stmt: Expr, args: seq<Val>, o: Options, terms: seq<SelectTerm>, printer: Expr -> string)
    requires Produced(o, terms)
    ensures var (sql, all) := Built(stmt, args, o, printer);
            var inner := StripSemicolons(Trim(printer(stmt)));
            if Plain(o) then sql == printer(stmt) && all == args
            else
              && args <= all && ReadStatement(sql, all[|args|..]) == Some(StatementOf(o, inner, terms))
              && |sql| > |inner| && (CleanEnds(printer(stmt)) ==> inner == printer(stmt) && sql != printer(stmt))
  {
    RenderedAll(terms);
    if !Plain(o) {
      var inner := StripSemicolons(Trim(printer(stmt)));
      SplitArgs(args, ShapeArgs(o));
      WrapperReadsBack(inner, o, terms);
      if CleanEnds(printer(stmt)) {
        TrimClean(printer(stmt));
      }
    }
  }

  lemma RenderedAll(terms: seq<SelectTerm>)
    ensures RenderSelects(terms) == [] <==> terms == []
  {
  }

  /** SQL and arguments stay in step from the authored statement to the text sent. Outside quotes
      the text has exactly one placeholder for each argument. With every placeholder replaced by
      the literal of its own argument, in text order, the inner statement is the rewritten one with
      its holes filled, which is the authored one with its values spliced in exactly when no list
      was authored inside a list; what stands around it is the wrapper with its own arguments. */
  lemma PlaceholdersAligned(e: Expr, env: Env, o: Options, terms: seq<SelectTerm>)
    requires o.select == RenderSelects(terms)
    ensures var (sql, all) := Built(Rewritten(e, env), Args(e, env), o, Show);
            var ran := Show(Ran(e, env));
            Reads(sql, all, if o.NeedsWrapper() then Before(o) + (ran + Substitute(Behind(o), None, ShapeArgs(o))) else ran)
    ensures Ran(e, env) == Spliced(e, env) <==> NoNested(e)
  {
    var stmt, args := Rewritten(e, env), Args(e, env);
    RewrittenOnlyHoles(e, env);
    HolesMatchArgs(e, env);
    RewriteSplicesIff(e, env);
    ShowReads(stmt, args);
    ShowEnds(stmt);
    TrimClean(Show(stmt));
    if o.NeedsWrapper() {
      WrapperReads(o, terms, Show(stmt), args, Show(Ran(e, env)));
    }
  }

  /** And the text that runs is the wrapped authored statement: reading it with the arguments left
      after the inner statement's gives the request's select list, filters, order and window. */
  lemma BuiltReadsBack(e: Expr, env: Env, o: Options, terms: seq<SelectTerm>)
    requires Produced(o, terms) && o.NeedsWrapper()
    ensures var (sql, all) := Built(Rewritten(e, env), Args(e, env), o, Show);
            var inner := Show(Rewritten(e, env));
            && Placeholders(inner, None) == |Args(e, env)| <= |all|
            && ReadStatement(sql, all[Placeholders(inner, None)..]) == Some(StatementOf(o, inner, terms))
  {
    var stmt, args := Rewritten(e, env), Args(e, env);
    RewrittenOnlyHoles(e, env);
    HolesMatchArgs(e, env);
    ShowReads(stmt, args);
    ShowEnds(stmt);
    TrimClean(Show(stmt));
    SplitArgs(args, ShapeArgs(o));
    WrapperReadsBack(Show(stmt), o, terms);
  }

  // ----- from the request to the database -----

  /** Two requests whose query strings differ only in the order of their keys are answered by the
      same rows: both are accepted and bind the same values, so the inner statement is the same, and
      the statements their texts and arguments amount to select the same columns and return the same
      rows in the same order. */
  lemma SameAnswer(q: Query, body: map<string, Val>, conv: Strconv, a: seq<Entry>, b: seq<Entry>, inner: string,
                   rows: seq<Row>, I: Interp, arrange: (seq<OrderTerm>, seq<Row>) -> seq<Row>)
    requires multiset(a) == multiset(b) && DistinctKeys(a) && DistinctKeys(b)
    requires RequestOf(q, body, conv, a).Success?
    ensures RequestOf(q, body, conv, b).Success?
    ensures var oa, ob := RequestOf(q, body, conv, a).value.opts, RequestOf(q, body, conv, b).value.opts;
            var sa, sb := ReadStatement(Wrapped(oa, inner), ShapeArgs(oa)), ReadStatement(Wrapped(ob, inner), ShapeArgs(ob));
            && RequestOf(q, body, conv, a).value.vals == RequestOf(q, body, conv, b).value.vals
            && oa.NeedsWrapper() == ob.NeedsWrapper()
            && sa.Some? && sb.Some? && sa.value.window.offset >= 0 && sb.value.window.offset >= 0
            && sa.value.inner == sb.value.inner && sa.value.select == sb.value.select
            && Shaped(rows, sa.value, I, arrange) == Shaped(rows, sb.value, I, arrange)
  {
    InputOrderIrrelevant(q, body, conv, a, b);
    RequestLegal(q, body, conv, a);
    RequestLegal(q, body, conv, b);
    var ra, rb := RequestOf(q, body, conv, a).value, RequestOf(q, body, conv, b).value;
    var terms :| Produced(ra.opts, terms);
    SameRowsKept(ra, rb, inner, terms, rows, I, arrange);
    SameSelect(ra.opts, rb.opts);
    WrapperReadsBack(inner, ra.opts, terms);
    WrapperReadsBack(inner, rb.opts, terms);
  }

  lemma SameSelect(a: Options, b: Options)
    requires a.(filters := []) == b.(filters := []) && multiset(a.filters) == multiset(b.filters)
    ensures a.select == b.select && a.NeedsWrapper() == b.NeedsWrapper()
  {
    assert a.(filters := []).select == b.(filters := []).select;
    assert a.(filters := []).hasLim == b.(filters := []).hasLim;
    assert |multiset(a.filters)| == |a.filters| && |multiset(b.filters)| == |b.filters|;
  }

  /** The client gave a value of that name, in the body or in the query string. */
  predicate Given(fields: seq<Field>, entries: seq<Entry>, name: string) {
    (exists f :: f in fields && f.name == name) || (exists e :: e in entries && e.key == name && e.values != [])
  }

  /** The client gave null for it in the body. */
  predicate NullField(fields: seq<Field>, name: string) {
    exists f :: f in fields && f.name == name && f.value.JNull?
  }

  lemma Indexed(q: Query, p: Param)
    requires IndexAgrees(q.decl.params, q.byName) && UniqueNames(q.decl.params) && p in q.decl.params
    ensures p.name in q.byName && q.byName[p.name] == p
  {
    FindMember(q.decl.params, p.name);
    assert Find(q.decl.params, p.name).Some?;
  }

  lemma ListValueIsList(p: Param, values: seq<string>, conv: Strconv)
    requires values != [] && ParamValue(p, values, conv).Success? && p.ptype.IsList()
    ensures ParamValue(p, values, conv).value.VList?
  {
  }

  lemma GivenIsBound(q: Query, fields: seq<Field>, body: map<string, Val>, conv: Strconv, entries: seq<Entry>, name: string)
    requires DistinctKeys(entries) && Decoded(q, fields, body, conv) && RequestOf(q, body, conv, entries).Success?
    requires name in q.byName
    ensures name in RequestOf(q, body, conv, entries).value.vals <==> Given(fields, entries, name)
  {
    InputValues(q, body, conv, entries);
    if e :| e in entries && e.key == name && e.values != [] {
      assert name !in body ==> Supplies(q, body, e);
    }
  }

  lemma Resolves(q: Query, fields: seq<Field>, body: map<string, Val>, conv: Strconv, entries: seq<Entry>, p: Param)
    requires IndexAgrees(q.decl.params, q.byName) && UniqueNames(q.decl.params)
    requires p in q.decl.params && Params.WellFormed(p) && DistinctFields(fields)
    requires DistinctKeys(entries) && Decoded(q, fields, body, conv) && RequestOf(q, body, conv, entries).Success?
    ensures ResolveOne(p, RequestOf(q, body, conv, entries).value.vals).Success? <==>
            (p.required ==> Given(fields, entries, p.name)) && !(p.ptype.IsList() && NullField(fields, p.name))
  {
    var vals := RequestOf(q, body, conv, entries).value.vals;
    Indexed(q, p);
    GivenIsBound(q, fields, body, conv, entries, p.name);
    InputValues(q, body, conv, entries);
    if p.name in body {
      var f :| f in fields && f.name == p.name;
      BodyValueBinds(p, f.value, vals, conv);
    } else if p.name in vals {
      var e :| e in entries && e.key == p.name && Supplies(q, body, e);
      if p.ptype.IsList() {
        ListValueIsList(p, e.values, conv);
      }
    }
  }

  /** What can still go wrong after a request has been accepted. No value is ever undeclared; and
      binding succeeds exactly when every required parameter was given, no list was given as null,
      and, if the statement is rewritten, it parses and names only declared parameters. */
  lemma AcceptedBinds(q: Query, fields: seq<Field>, body: map<string, Val>, conv: Strconv, entries: seq<Entry>,
                      parse: string -> Option<Expr>)
    requires IndexAgrees(q.decl.params, q.byName) && UniqueNames(q.decl.params)
    requires (forall p :: p in q.decl.params ==> Params.WellFormed(p)) && DistinctFields(fields)
    requires DistinctKeys(entries) && Decoded(q, fields, body, conv) && RequestOf(q, body, conv, entries).Success?
    ensures AllKnown(q, RequestOf(q, body, conv, entries).value.vals)
    ensures BindOf(q, RequestOf(q, body, conv, entries).value.vals, parse).Success? <==>
            && (forall p :: p in q.decl.params ==>
                  (p.required ==> Given(fields, entries, p.name)) && !(p.ptype.IsList() && NullField(fields, p.name)))
            && (HasList(q.decl.params) ==> parse(q.decl.sql).Some? && OnlyDeclared(parse(q.decl.sql).value, q.byName))
  {
    var vals := RequestOf(q, body, conv, entries).value.vals;
    InputValues(q, body, conv, entries);
    forall p | p in q.decl.params
      ensures ResolveOne(p, vals).Success? <==>
              (p.required ==> Given(fields, entries, p.name)) && !(p.ptype.IsList() && NullField(fields, p.name))
    {
      Resolves(q, fields, body, conv, entries, p);
    }
    BindSucceedsIff(q, vals, parse);
  }
}
