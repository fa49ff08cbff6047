/** The shaping wrapper (values.go): the filtering, ordering and paging subselect and its
    arguments. */
module Wrapper {
  import opened Text
  import opened Values
  import opened Filters

  /** What a request asks of the result. `select` holds rendered terms. */
  datatype Options = Options(
    select: seq<string>, filters: seq<Filter>, order: seq<OrderTerm>, limit: int, offset: int, hasLim: bool)
  {
    /** Whether any shaping was asked for. */
    predicate NeedsWrapper() {
      |select| > 0 || |filters| > 0 || |order| > 0 || hasLim || offset > 0
    }
  }

  // ----- filters as text -----

  /** The condition a filter puts on its column, before any negation of the whole. */
  datatype Test = IsNotNullTest | IsNullTest | InTest | OpTest(op: Op)

  function TestOf(f: Filter): Test {
    if f.isNull then (if f.negate then IsNotNullTest else IsNullTest)
    else if f.op == In then InTest
    else OpTest(f.op)
  }

  /** The text after the column, up to the first placeholder. */
  function TestText(t: Test): string {
    match t
    case IsNotNullTest => " IS NOT NULL"
    case IsNullTest => " IS NULL"
    case InTest => " IN ("
    case OpTest(op) =>
      match op
      case Eq => " = "
      case Ne => " <> "
      case Gt => " > "
      case Ge => " >= "
      case Lt => " < "
      case Le => " <= "
      case Like => " LIKE "
      case _ => "  "
  }

  function Marks(n: nat): (r: seq<string>)
    ensures |r| == n && forall k :: 0 <= k < n ==> r[k] == "?"
  {
    seq(n, _ => "?")
  }

  function BareText(f: Filter): string {
    Quote(f.column, '"') + TestText(TestOf(f)) +
    (match TestOf(f)
     case InTest => Join(Marks(|f.inList|), ", ") + ")"
     case OpTest(_) => "?"
     case _ => "")
  }

  function FilterText(f: Filter): string {
    if f.negate && !f.isNull then "NOT (" + BareText(f) + ")" else BareText(f)
  }

  function FilterArgs(f: Filter): seq<Val> {
    match TestOf(f)
    case InTest => f.inList
    case OpTest(_) => [f.value]
    case _ => []
  }

  method RenderFilter(f: Filter, args: seq<Val>) returns (text: string, more: seq<Val>)
    ensures text == FilterText(f) && more == args + FilterArgs(f)
  {
    var col := Quote(f.column, '"');
    more := args;
    if f.isNull {
      assert args + [] == args;
      if f.negate {
        assert col + " IS NOT NULL" + "" == col + " IS NOT NULL";
        return col + " IS NOT NULL", more;
      }
      assert col + " IS NULL" + "" == col + " IS NULL";
      return col + " IS NULL", more;
    }
    var expr;
    if f.op == In {
      var ph: seq<string> := [];
      for i := 0 to |f.inList|
        invariant ph == Marks(i) && more == args + f.inList[..i]
      {
        ph := ph + ["?"];
        more := more + [f.inList[i]];
      }
      assert f.inList[..|f.inList|] == f.inList;
      expr := col + " IN (" + (Join(ph, ", ") + ")");
    } else {
      more := more + [f.value];
      expr := col + TestText(OpTest(f.op)) + "?";
    }
    text := if f.negate then "NOT (" + expr + ")" else expr;
  }

  // ----- the statement -----

  function FilterTexts(filters: seq<Filter>): (r: seq<string>)
    ensures |r| == |filters|
  {
    if filters == [] then [] else [FilterText(filters[0])] + FilterTexts(filters[1..])
  }

  function AllFilterArgs(filters: seq<Filter>): seq<Val> {
    if filters == [] then [] else FilterArgs(filters[0]) + AllFilterArgs(filters[1..])
  }

  function OrderText(t: OrderTerm): string {
    Quote(t.column, '"') + (if t.desc then " DESC" else " ASC") +
    (match t.nulls
     case Default => ""
     case NullsFirst => " NULLS FIRST"
     case NullsLast => " NULLS LAST")
  }

  function OrderTexts(terms: seq<OrderTerm>): (r: seq<string>)
    ensures |r| == |terms|
  {
    if terms == [] then [] else [OrderText(terms[0])] + OrderTexts(terms[1..])
  }

  function WhereText(filters: seq<Filter>): string {
    if filters == [] then "" else "\nWHERE " + Join(FilterTexts(filters), " AND ")
  }

  function OrderByText(terms: seq<OrderTerm>): string {
    if terms == [] then "" else "\nORDER BY " + Join(OrderTexts(terms), ", ")
  }

  function LimitText(o: Options): string {
    (if o.hasLim then "\nLIMIT ?" else if o.offset > 0 then "\nLIMIT -1" else "") +
    (if o.offset > 0 then " OFFSET ?" else "")
  }

  function LimitArgs(o: Options): seq<Val> {
    (if o.hasLim then [VInt(o.limit)] else []) + (if o.offset > 0 then [VInt(o.offset)] else [])
  }

  function SelectText(select: seq<string>): string {
    if select == [] then "*" else Join(select, ", ")
  }

  const FROM: string := "\nFROM (\n"

  const CLOSE: string := "\n) AS _q"

  function ShapeText(o: Options): string {
    WhereText(o.filters) + (OrderByText(o.order) + LimitText(o))
  }

  function ShapeArgs(o: Options): seq<Val> {
    AllFilterArgs(o.filters) + LimitArgs(o)
  }

  /** The wrapped statement. */
  function Wrapped(o: Options, inner: string): string {
    "SELECT " + (SelectText(o.select) + (FROM + (inner + (CLOSE + ShapeText(o)))))
  }

  lemma {:induction false} JoinSnoc(parts: seq<string>, last: string, sep: string)
    requires parts != []
    ensures Join(parts + [last], sep) == Join(parts, sep) + sep + last
  {
    if |parts| > 1 {
      assert (parts + [last])[1..] == parts[1..] + [last];
      JoinSnoc(parts[1..], last, sep);
      var p, q := parts[0] + sep, Join(parts[1..], sep);
      Assoc(p, q, sep);
      Assoc(p, q + sep, last);
    } else {
      assert (parts + [last])[1..] == [last];
    }
  }

  lemma {:induction false} FilterTextsSnoc(fs: seq<Filter>, f: Filter)
    ensures FilterTexts(fs + [f]) == FilterTexts(fs) + [FilterText(f)]
    ensures AllFilterArgs(fs + [f]) == AllFilterArgs(fs) + FilterArgs(f)
  {
    if fs != [] {
      assert (fs + [f])[1..] == fs[1..] + [f];
      FilterTextsSnoc(fs[1..], f);
    } else {
      assert (fs + [f])[1..] == [];
    }
  }

  lemma {:induction false} OrderTextsSnoc(ts: seq<OrderTerm>, t: OrderTerm)
    ensures OrderTexts(ts + [t]) == OrderTexts(ts) + [OrderText(t)]
  {
    if ts != [] {
      assert (ts + [t])[1..] == ts[1..] + [t];
      OrderTextsSnoc(ts[1..], t);
    }
  }

  method BuildWrapper(o: Options, inner: string) returns (sql: string, args: seq<Val>)
    ensures sql == Wrapped(o, inner) && args == ShapeArgs(o)
  {
    var select := if |o.select| > 0 then Join(o.select, ", ") else "*";
    var wher;
    wher, args := BuildWhere(o.filters);
    var order := BuildOrder(o.order);
    var lim;
    lim, args := BuildLimit(o, args);
    sql := "SELECT " + (select + (FROM + (inner + (CLOSE + (wher + (order + lim))))));
  }

  method BuildLimit(o: Options, args: seq<Val>) returns (sb: string, more: seq<Val>)
    ensures sb == LimitText(o) && more == args + LimitArgs(o)
  {
    sb, more := "", args;
    if o.hasLim {
      sb := "\nLIMIT ?";
      more := more + [VInt(o.limit)];
    }
    if o.offset > 0 {
      if !o.hasLim {
        sb := "\nLIMIT -1";
      }
      sb := sb + " OFFSET ?";
      more := more + [VInt(o.offset)];
    }
  }

  method BuildWhere(filters: seq<Filter>) returns (sb: string, args: seq<Val>)
    ensures sb == WhereText(filters) && args == AllFilterArgs(filters)
  {
    sb, args := "", [];
    if |filters| > 0 {
      var text := "";
      for i := 0 to |filters|
        invariant text == Join(FilterTexts(filters[..i]), " AND ") && args == AllFilterArgs(filters[..i])
      {
        assert filters[..i + 1] == filters[..i] + [filters[i]];
        FilterTextsSnoc(filters[..i], filters[i]);
        if i > 0 {
          JoinSnoc(FilterTexts(filters[..i]), FilterText(filters[i]), " AND ");
          text := text + " AND ";
        }
        var rendered;
        rendered, args := RenderFilter(filters[i], args);
        assert i == 0 ==> "" + rendered == rendered;
        text := text + rendered;
      }
      assert filters[..|filters|] == filters;
      sb := "\nWHERE " + text;
    }
  }

  method BuildOrder(terms: seq<OrderTerm>) returns (sb: string)
    ensures sb == OrderByText(terms)
  {
    sb := "";
    if |terms| > 0 {
      var text := "";
      for i := 0 to |terms|
        invariant text == Join(OrderTexts(terms[..i]), ", ")
      {
        assert terms[..i + 1] == terms[..i] + [terms[i]];
        OrderTextsSnoc(terms[..i], terms[i]);
        if i > 0 {
          JoinSnoc(OrderTexts(terms[..i]), OrderText(terms[i]), ", ");
          text := text + ", ";
        }
        var rendered := RenderOrder(terms[i]);
        assert i == 0 ==> "" + rendered == rendered;
        text := text + rendered;
      }
      assert terms[..|terms|] == terms;
      sb := "\nORDER BY " + text;
    }
  }

  method RenderOrder(t: OrderTerm) returns (sb: string)
    ensures sb == OrderText(t)
  {
    sb := Quote(t.column, '"');
    if t.desc {
      sb := sb + " DESC";
    } else {
      sb := sb + " ASC";
    }
    match t.nulls
    case Default => assert sb + "" == sb;
    case NullsFirst => sb := sb + " NULLS FIRST";
    case NullsLast => sb := sb + " NULLS LAST";
  }
}
