/** The shaping options of a request (values.go): filters, order terms and select terms. */
module Filters {
  import opened Text
  import opened Values
  import opened FilterScan

  /** The operator field of a filter: unset for IS NULL, otherwise a comparison or IN. */
  datatype Op = Unset | Eq | Ne | Gt | Ge | Lt | Le | Like | In
  {
    predicate IsComparison() { !Unset? && !In? }
  }

  datatype Filter = Filter(column: string, op: Op, negate: bool, value: Val, isNull: bool, inList: seq<Val>)

  datatype Nulls = Default | NullsFirst | NullsLast

  datatype OrderTerm = OrderTerm(column: string, desc: bool, nulls: Nulls)

  datatype SelectTerm = SelectTerm(column: string, alias: Option<string>)

  /** An empty set of columns means they are not known; then any identifier passes. */
  predicate ColumnKnown(name: string, columns: set<string>) {
    columns == {} || name in columns
  }

  function CheckColumn(name: string, columns: set<string>): Option<Error> {
    if !ValidIdent(name) then Some(InvalidColumn)
    else if !ColumnKnown(name, columns) then Some(UnknownColumn)
    else None
  }

  /** What the operator token of a spec asks for. */
  datatype Keyword = Is | Listed | Compares(op: Op) | Unlisted

  function ReadKeyword(token: string): (k: Keyword)
    ensures k.Compares? ==> k.op.IsComparison()
  {
    if token == "is" then Is
    else if token == "in" then Listed
    else if token == "eq" then Compares(Eq)
    else if token == "neq" then Compares(Ne)
    else if token == "gt" then Compares(Gt)
    else if token == "gte" then Compares(Ge)
    else if token == "lt" then Compares(Lt)
    else if token == "lte" then Compares(Le)
    else if token == "like" || token == "ilike" then Compares(Like)
    else Unlisted
  }

  function Token(op: Op): string
    requires op.IsComparison()
  {
    match op
    case Eq => "eq"
    case Ne => "neq"
    case Gt => "gt"
    case Ge => "gte"
    case Lt => "lt"
    case Le => "lte"
    case Like => "like"
  }

  lemma KeywordOfToken(op: Op)
    requires op.IsComparison()
    ensures ReadKeyword(Token(op)) == Compares(op) && Plain(Token(op)) && Token(op) != "not"
  {
  }

  /** The operand of `is`: NULL or a boolean. */
  function ReadConstant(val: string): (c: Option<Val>)
    ensures c.Some? ==> c.value.VNull? || c.value.VBool?
  {
    var word := Lower(val);
    if word == "null" then Some(VNull)
    else if word == "true" then Some(VBool(true))
    else if word == "false" then Some(VBool(false))
    else None
  }

  function TextValues(items: seq<string>): (r: seq<Val>)
    ensures |r| == |items| && forall k :: 0 <= k < |r| ==> r[k] == VText(items[k])
  {
    seq(|items|, k requires 0 <= k < |items| => VText(items[k]))
  }

  // ----- filters -----

  /** What `op.value` means once the segments are known. */
  function Predicate(column: string, negate: bool, keyword: Keyword, val: string): Result<Filter> {
    match keyword
    case Is =>
      (match ReadConstant(val)
       case None => Failure(BadFilter)
       case Some(c) =>
         if c == VNull then Success(Filter(column, Unset, negate, VNull, true, []))
         else Success(Filter(column, Eq, negate, c, false, [])))
    case Listed =>
      (match ListOf(val)
       case Success(items) => Success(Filter(column, In, negate, VNull, false, TextValues(items)))
       case Failure(e) => Failure(e))
    case Compares(op) => Success(Filter(column, op, negate, VText(val), false, []))
    case Unlisted => Failure(UnknownOperator)
  }

  /** A spec cut at its leading top-level dots: no dot, `op.value`, `not.op.value`, or a `not.`
      with nothing to negate. */
  datatype Segments = Bare | Parts(negate: bool, op: string, val: string) | Dangling

  function Cut(spec: string): Segments {
    var k := FirstSeparator(spec);
    if k == |spec| then Bare
    else if spec[..k] != "not" then Parts(false, spec[..k], spec[k + 1..])
    else CutNegated(spec[k + 1..])
  }

  function CutNegated(rest: string): Segments {
    var k := FirstSeparator(rest);
    if k == |rest| then Dangling else Parts(true, rest[..k], rest[k + 1..])
  }

  /** The filter a spec denotes. */
  function FilterOf(column: string, spec: string, columns: set<string>): Result<Filter> {
    match CheckColumn(column, columns)
    case Some(bad) => Failure(bad)
    case None =>
      match Cut(spec)
      case Bare => Success(Filter(column, Eq, false, VText(spec), false, []))
      case Dangling => Failure(BadFilter)
      case Parts(negate, op, val) => Predicate(column, negate, ReadKeyword(op), val)
  }

  method ParseFilter(column: string, spec: string, columns: set<string>) returns (r: Result<Filter>)
    ensures r == FilterOf(column, spec, columns)
  {
    var f := Filter(column, Unset, false, VNull, false, []);
    var bad := CheckColumn(column, columns);
    if bad.Some? {
      return Failure(bad.value);
    }
    var sc := new FilterScanner(spec);
    assert sc.src[sc.pos..] == spec;
    var op, ok := sc.NextSegment();
    if !ok {
      return Success(f.(op := Eq, value := VText(spec)));
    }
    if op == "not" {
      f := f.(negate := true);
      op, ok := sc.NextSegment();
      if !ok {
        return Failure(BadFilter);
      }
    }
    r := ParsePredicate(f, ReadKeyword(op), sc.Rest());
  }

  /** The switch on the operator, filling in the rest of the record. */
  method ParsePredicate(start: Filter, keyword: Keyword, val: string) returns (r: Result<Filter>)
    requires start == Filter(start.column, Unset, start.negate, VNull, false, [])
    ensures r == Predicate(start.column, start.negate, keyword, val)
  {
    var f := start;
    match keyword
    case Is =>
      match ReadConstant(val) {
        case None => return Failure(BadFilter);
        case Some(c) =>
          if c == VNull {
            return Success(f.(isNull := true));
          }
          return Success(f.(op := Eq, value := c));
      }
    case Listed =>
      var items := ParseList(val);
      if items.Failure? {
        return Failure(items.error);
      }
      var list := CollectItems(items.value);
      return Success(f.(op := In, inList := list));
    case Compares(op) =>
      return Success(f.(op := op, value := VText(val)));
    case Unlisted =>
      return Failure(UnknownOperator);
  }

  method CollectItems(items: seq<string>) returns (list: seq<Val>)
    ensures list == TextValues(items)
  {
    list := [];
    for k := 0 to |items|
      invariant |list| == k && forall j :: 0 <= j < k ==> list[j] == VText(items[j])
    {
      list := list + [VText(items[k])];
    }
  }

  /** The shape of every filter the parser returns: an IS NULL test, a non-empty IN list of
      texts, or a comparison with a text or boolean. No value is ever NULL. */
  predicate WellFormed(f: Filter) {
    && ValidIdent(f.column)
    && if f.isNull then f.op == Unset && f.value == VNull && f.inList == []
       else if f.op == In then
         f.value == VNull && f.inList != [] && forall k :: 0 <= k < |f.inList| ==> f.inList[k].VText?
       else
         f.op.IsComparison() && f.inList == [] && (f.value.VText? || (f.value.VBool? && f.op == Eq))
  }

  lemma ParsedWellFormed(column: string, spec: string, columns: set<string>)
    requires FilterOf(column, spec, columns).Success?
    ensures var f := FilterOf(column, spec, columns).value;
            WellFormed(f) && f.column == column && ColumnKnown(column, columns)
  {
    match Cut(spec)
    case Parts(negate, op, val) => PredicateWellFormed(column, negate, ReadKeyword(op), val);
    case _ =>
  }

  lemma PredicateWellFormed(column: string, negate: bool, keyword: Keyword, val: string)
    requires ValidIdent(column) && Predicate(column, negate, keyword, val).Success?
    requires keyword.Compares? ==> keyword.op.IsComparison()
    ensures var f := Predicate(column, negate, keyword, val).value;
            WellFormed(f) && f.column == column
  {
  }

  function Texts(vals: seq<Val>): (r: seq<string>)
    requires forall k :: 0 <= k < |vals| ==> vals[k].VText?
    ensures |r| == |vals|
  {
    seq(|vals|, k requires 0 <= k < |vals| => vals[k].s)
  }

  function PrintKeyword(f: Filter): string
    requires WellFormed(f)
  {
    if f.isNull || f.value.VBool? then "is" else if f.op == In then "in" else Token(f.op)
  }

  function PrintOperand(f: Filter): string
    requires WellFormed(f)
  {
    if f.isNull then "null"
    else if f.op == In then PrintList(Texts(f.inList))
    else match f.value
         case VBool(b) => if b then "true" else "false"
         case VText(s) => s
  }

  /** The spec a client writes for a filter. */
  function PrintFilter(f: Filter): string
    requires WellFormed(f)
  {
    (if f.negate then "not" + "." else "") + (PrintKeyword(f) + "." + PrintOperand(f))
  }

  predicate Plain(s: string) {
    forall k :: 0 <= k < |s| ==> s[k] != '"' && s[k] != '(' && s[k] != '.'
  }

  lemma KeywordsPlain(f: Filter)
    requires WellFormed(f)
    ensures Plain(PrintKeyword(f)) && PrintKeyword(f) != "not"
  {
    if f.op.IsComparison() {
      KeywordOfToken(f.op);
    }
  }

  lemma ConstantsRead()
    ensures ReadConstant("null") == Some(VNull)
    ensures ReadConstant("true") == Some(VBool(true))
    ensures ReadConstant("false") == Some(VBool(false))
  {
    LowerLetters("null");
    LowerLetters("true");
    LowerLetters("false");
  }

  lemma ConstantPrinted(f: Filter)
    requires WellFormed(f) && (f.isNull || f.value.VBool?)
    ensures Predicate(f.column, f.negate, Is, PrintOperand(f)) == Success(f)
  {
    ConstantsRead();
  }

  lemma InPrinted(f: Filter)
    requires WellFormed(f) && f.op == In
    ensures Predicate(f.column, f.negate, Listed, PrintOperand(f)) == Success(f)
  {
    ListRoundTrip(Texts(f.inList));
    assert TextValues(Texts(f.inList)) == f.inList;
  }

  lemma WordsRead()
    ensures ReadKeyword("is") == Is && ReadKeyword("in") == Listed
  {
  }

  lemma PredicatePrinted(f: Filter)
    requires WellFormed(f)
    ensures Predicate(f.column, f.negate, ReadKeyword(PrintKeyword(f)), PrintOperand(f)) == Success(f)
  {
    WordsRead();
    if f.isNull || f.value.VBool? {
      ConstantPrinted(f);
    } else if f.op == In {
      InPrinted(f);
    } else {
      KeywordOfToken(f.op);
    }
  }

  lemma CutPrinted(negate: bool, op: string, val: string)
    requires Plain(op) && op != "not"
    ensures Cut((if negate then "not" + "." else "") + (op + "." + val)) == Parts(negate, op, val)
  {
    var spec := op + "." + val;
    FirstSegmentPlain(op, val);
    if negate {
      FirstSegmentPlain("not", spec);
    } else {
      assert "" + spec == spec;
    }
  }

  /** Every filter is the reading of its own spec, whatever dots, commas, quotes, parens or
      spaces its values contain. */
  lemma FilterRoundTrip(f: Filter, columns: set<string>)
    requires WellFormed(f) && ColumnKnown(f.column, columns)
    ensures FilterOf(f.column, PrintFilter(f), columns) == Success(f)
  {
    KeywordsPlain(f);
    CutPrinted(f.negate, PrintKeyword(f), PrintOperand(f));
    PredicatePrinted(f);
  }

  /** A spec without a top-level dot is the short form of `eq`. */
  lemma BareIsEq(column: string, spec: string, columns: set<string>)
    requires FirstSeparator(spec) == |spec|
    ensures FilterOf(column, spec, columns) == FilterOf(column, "eq" + "." + spec, columns)
  {
    KeywordOfToken(Eq);
    CutPrinted(false, "eq", spec);
    assert "" + ("eq" + "." + spec) == "eq" + "." + spec;
  }

  /** `ilike` is another spelling of `like`. */
  lemma IlikeIsLike(column: string, negate: bool, val: string, columns: set<string>)
    ensures var not := if negate then "not" + "." else "";
            FilterOf(column, not + ("ilike" + "." + val), columns) == FilterOf(column, not + ("like" + "." + val), columns)
  {
    assert "ilike"[0] == 'i' && "like"[0] == 'l';
    CutPrinted(negate, "ilike", val);
    CutPrinted(negate, "like", val);
    assert ReadKeyword("ilike") == ReadKeyword("like");
  }

  /** Printing what was parsed and parsing it again changes nothing. */
  lemma ReprintStable(column: string, spec: string, columns: set<string>)
    requires FilterOf(column, spec, columns).Success?
    ensures var f := FilterOf(column, spec, columns).value;
            WellFormed(f) && FilterOf(column, PrintFilter(f), columns) == Success(f)
  {
    ParsedWellFormed(column, spec, columns);
    FilterRoundTrip(FilterOf(column, spec, columns).value, columns);
  }

  // ----- order -----

  function OrderMod(t: OrderTerm, mod: string): Option<OrderTerm> {
    OrderWord(t, Lower(mod))
  }

  function OrderWord(t: OrderTerm, word: string): Option<OrderTerm> {
    if word == "asc" then Some(t.(desc := false))
    else if word == "desc" then Some(t.(desc := true))
    else if word == "nullsfirst" then Some(t.(nulls := NullsFirst))
    else if word == "nullslast" then Some(t.(nulls := NullsLast))
    else None
  }

  /** Modifiers apply from left to right; the last of a kind wins. */
  function OrderMods(t: OrderTerm, mods: seq<string>): Result<OrderTerm>
    decreases |mods|
  {
    if mods == [] then Success(t)
    else
      match OrderMod(t, mods[0])
      case None => Failure(BadOrder)
      case Some(u) => OrderMods(u, mods[1..])
  }

  function OrderTermOf(part: string, columns: set<string>): Result<OrderTerm> {
    var bits := Split(part, '.');
    var bad := CheckColumn(bits[0], columns);
    if bad.Some? then Failure(bad.value) else OrderMods(OrderTerm(bits[0], false, Default), bits[1..])
  }

  function OrderOf(parts: seq<string>, columns: set<string>): Result<seq<OrderTerm>> {
    if parts == [] then Success([])
    else if Trim(parts[0]) == "" then OrderOf(parts[1..], columns)
    else Cons(OrderTermOf(Trim(parts[0]), columns), OrderOf(parts[1..], columns))
  }

  /** The first failure, or the whole list. */
  function Cons<T>(head: Result<T>, tail: Result<seq<T>>): Result<seq<T>> {
    match head
    case Failure(e) => Failure(e)
    case Success(t) => Append([t], tail)
  }

  function Append<T>(head: seq<T>, tail: Result<seq<T>>): Result<seq<T>> {
    match tail
    case Failure(e) => Failure(e)
    case Success(rest) => Success(head + rest)
  }

  lemma AppendAppend<T>(a: seq<T>, b: seq<T>, tail: Result<seq<T>>)
    ensures Append(a, Append(b, tail)) == Append(a + b, tail)
    ensures Append([], tail) == tail
  {
    if tail.Success? {
      assert a + (b + tail.value) == (a + b) + tail.value;
      assert [] + tail.value == tail.value;
    }
  }

  method ParseOrder(spec: string, columns: set<string>) returns (r: Result<seq<OrderTerm>>)
    ensures r == OrderOf(Split(spec, ','), columns)
  {
    var terms: seq<OrderTerm> := [];
    var parts := Split(spec, ',');
    var i := 0;
    AppendAppend([], [], OrderOf(parts, columns));
    assert parts[0..] == parts;
    while i < |parts|
      invariant 0 <= i <= |parts|
      invariant OrderOf(parts, columns) == Append(terms, OrderOf(parts[i..], columns))
    {
      assert parts[i..][1..] == parts[i + 1..];
      var part := Trim(parts[i]);
      i := i + 1;
      if part == "" {
        continue;
      }
      var term := ParseOrderTerm(part, columns);
      if term.Failure? {
        return Failure(term.error);
      }
      AppendAppend(terms, [term.value], OrderOf(parts[i..], columns));
      terms := terms + [term.value];
    }
    assert terms + [] == terms;
    return Success(terms);
  }

  /** One term: the column check, then the modifier loop. */
  method ParseOrderTerm(part: string, columns: set<string>) returns (r: Result<OrderTerm>)
    ensures r == OrderTermOf(part, columns)
  {
    var bits := Split(part, '.');
    var t := OrderTerm(bits[0], false, Default);
    var bad := CheckColumn(t.column, columns);
    if bad.Some? {
      return Failure(bad.value);
    }
    var i := 1;
    while i < |bits|
      invariant 1 <= i <= |bits|
      invariant OrderMods(t, bits[i..]) == OrderTermOf(part, columns)
    {
      assert bits[i..][1..] == bits[i + 1..];
      var u := OrderMod(t, bits[i]);
      if u.None? {
        return Failure(BadOrder);
      }
      t := u.value;
      i := i + 1;
    }
    return Success(t);
  }

  predicate OrderWellFormed(t: OrderTerm) {
    ValidIdent(t.column)
  }

  /** Text that no separator of an option splits and no space surrounds. */
  predicate Solid(s: string) {
    s != "" && forall k :: 0 <= k < |s| ==> IdentChar(s[k], false)
  }

  lemma SolidIs(s: string)
    requires Solid(s)
    ensures '.' !in s && ',' !in s && ':' !in s && Trimmed(s)
  {
    assert IdentChar(s[0], false) && IdentChar(s[|s| - 1], false);
  }

  lemma IdentSolid(s: string)
    requires ValidIdent(s)
    ensures Solid(s)
  {
    forall k | 0 <= k < |s|
      ensures IdentChar(s[k], false)
    {
      assert IdentChar(s[k], k == 0);
    }
  }

  lemma {:induction false} JoinTrimmed(parts: seq<string>, sep: string)
    requires parts != [] && forall k :: 0 <= k < |parts| ==> parts[k] != "" && Trimmed(parts[k])
    ensures Join(parts, sep) != "" && Trimmed(Join(parts, sep))
  {
    if |parts| > 1 {
      JoinTrimmed(parts[1..], sep);
      var tail := Join(parts[1..], sep);
      var s := parts[0] + sep + tail;
      assert s[0] == parts[0][0] && s[|s| - 1] == tail[|tail| - 1];
    }
  }

  lemma TrimSolid(s: string)
    requires Trimmed(s)
    ensures Trim(s) == s
  {
    TrimBetween("", s, "");
    assert "" + s + "" == s;
  }

  lemma {:induction false} JoinWithout(parts: seq<string>, sep: string, c: char)
    requires c !in sep && forall k :: 0 <= k < |parts| ==> c !in parts[k]
    ensures c !in Join(parts, sep)
  {
    if |parts| > 1 {
      JoinWithout(parts[1..], sep, c);
    }
  }

  function Direction(desc: bool): string {
    if desc then "desc" else "asc"
  }

  function NullsWords(nulls: Nulls): seq<string> {
    match nulls
    case Default => []
    case NullsFirst => ["nullsfirst"]
    case NullsLast => ["nullslast"]
  }

  function OrderBits(t: OrderTerm): (r: seq<string>)
    ensures |r| >= 2 && r[0] == t.column
  {
    [t.column] + ([Direction(t.desc)] + NullsWords(t.nulls))
  }

  function PrintOrders(terms: seq<OrderTerm>): (r: seq<string>)
    ensures |r| == |terms| && forall k :: 0 <= k < |r| ==> r[k] == Join(OrderBits(terms[k]), ".")
  {
    seq(|terms|, k requires 0 <= k < |terms| => Join(OrderBits(terms[k]), "."))
  }

  lemma DirectionRead(t: OrderTerm, desc: bool)
    ensures OrderMod(t, Direction(desc)) == Some(t.(desc := desc))
  {
    LowerLetters(Direction(desc));
  }

  lemma NullsWordRead(t: OrderTerm, first: bool)
    ensures var word := if first then "nullsfirst" else "nullslast";
            OrderMod(t, word) == Some(t.(nulls := if first then NullsFirst else NullsLast))
  {
    LowerLetters(if first then "nullsfirst" else "nullslast");
  }

  lemma OneMod(t: OrderTerm, word: string, u: OrderTerm)
    requires OrderMod(t, word) == Some(u)
    ensures OrderMods(t, [word]) == Success(u)
  {
    assert [word][1..] == [];
  }

  lemma NullsWordsRead(t: OrderTerm, nulls: Nulls)
    requires t.nulls == Default
    ensures OrderMods(t, NullsWords(nulls)) == Success(t.(nulls := nulls))
  {
    if nulls != Default {
      NullsWordRead(t, nulls == NullsFirst);
      OneMod(t, NullsWords(nulls)[0], t.(nulls := nulls));
    }
  }

  lemma ModsPrinted(t: OrderTerm)
    ensures OrderMods(OrderTerm(t.column, false, Default), OrderBits(t)[1..]) == Success(t)
  {
    var start := OrderTerm(t.column, false, Default);
    var mods := [Direction(t.desc)] + NullsWords(t.nulls);
    DirectionRead(start, t.desc);
    NullsWordsRead(start.(desc := t.desc), t.nulls);
    assert OrderBits(t)[1..] == mods && mods[1..] == NullsWords(t.nulls);
  }

  lemma BitsSolid(t: OrderTerm)
    requires OrderWellFormed(t)
    ensures forall k :: 0 <= k < |OrderBits(t)| ==> Solid(OrderBits(t)[k])
  {
    IdentSolid(t.column);
    assert Solid(Direction(t.desc)) && forall w :: w in NullsWords(t.nulls) ==> Solid(w);
  }

  lemma OrderTermPrinted(t: OrderTerm, columns: set<string>)
    requires OrderWellFormed(t) && ColumnKnown(t.column, columns)
    ensures var s := Join(OrderBits(t), ".");
            OrderTermOf(s, columns) == Success(t) && s != "" && Trimmed(s) && ',' !in s
  {
    var bits := OrderBits(t);
    BitsSolid(t);
    forall k | 0 <= k < |bits|
      ensures '.' !in bits[k] && ',' !in bits[k] && bits[k] != "" && Trimmed(bits[k])
    {
      SolidIs(bits[k]);
    }
    SplitJoin(bits, '.');
    JoinTrimmed(bits, ".");
    JoinWithout(bits, ".", ',');
    ModsPrinted(t);
  }

  lemma {:induction false} OrdersRead(terms: seq<OrderTerm>, columns: set<string>)
    requires forall k :: 0 <= k < |terms| ==> OrderWellFormed(terms[k]) && ColumnKnown(terms[k].column, columns)
    ensures OrderOf(PrintOrders(terms), columns) == Success(terms)
    ensures forall k :: 0 <= k < |terms| ==> ',' !in PrintOrders(terms)[k]
  {
    if terms != [] {
      OrderTermPrinted(terms[0], columns);
      TrimSolid(PrintOrders(terms)[0]);
      OrdersRead(terms[1..], columns);
      assert PrintOrders(terms)[1..] == PrintOrders(terms[1..]);
      assert [terms[0]] + terms[1..] == terms;
    }
  }

  /** An `order` option written from its terms is read back as those terms. */
  lemma OrderRoundTrip(terms: seq<OrderTerm>, columns: set<string>)
    requires terms != []
    requires forall k :: 0 <= k < |terms| ==> OrderWellFormed(terms[k]) && ColumnKnown(terms[k].column, columns)
    ensures OrderOf(Split(Join(PrintOrders(terms), ","), ','), columns) == Success(terms)
  {
    OrdersRead(terms, columns);
    SplitJoin(PrintOrders(terms), ',');
  }

  lemma {:induction false} ModsKeepColumn(t: OrderTerm, mods: seq<string>)
    requires OrderMods(t, mods).Success?
    ensures OrderMods(t, mods).value.column == t.column
    decreases |mods|
  {
    if mods != [] {
      ModsKeepColumn(OrderMod(t, mods[0]).value, mods[1..]);
    }
  }

  lemma OrderTermWellFormed(part: string, columns: set<string>)
    requires OrderTermOf(part, columns).Success?
    ensures var t := OrderTermOf(part, columns).value;
            OrderWellFormed(t) && ColumnKnown(t.column, columns)
  {
    var bits := Split(part, '.');
    ModsKeepColumn(OrderTerm(bits[0], false, Default), bits[1..]);
  }

  lemma {:induction false} OrdersWellFormed(parts: seq<string>, columns: set<string>)
    requires OrderOf(parts, columns).Success?
    ensures forall t :: t in OrderOf(parts, columns).value ==> OrderWellFormed(t) && ColumnKnown(t.column, columns)
  {
    if parts != [] {
      OrdersWellFormed(parts[1..], columns);
      if Trim(parts[0]) != "" {
        OrderTermWellFormed(Trim(parts[0]), columns);
      }
    }
  }

  /** Whatever parses as an `order` option, an empty one included, prints to one that parses to the
      same terms. */
  lemma OrderReprint(spec: string, columns: set<string>)
    requires OrderOf(Split(spec, ','), columns).Success?
    ensures var terms := OrderOf(Split(spec, ','), columns).value;
            OrderOf(Split(Join(PrintOrders(terms), ","), ','), columns) == Success(terms)
  {
    var terms := OrderOf(Split(spec, ','), columns).value;
    OrdersWellFormed(Split(spec, ','), columns);
    if terms == [] {
      TrimSolid("");
      assert Split("", ',') == [""] && [""][1..] == [];
    } else {
      OrderRoundTrip(terms, columns);
    }
  }

  // ----- select -----

  function RenderSelect(t: SelectTerm): string {
    match t.alias
    case None => Quote(t.column, '"')
    case Some(alias) => Quote(t.column, '"') + " AS " + Quote(alias, '"')
  }

  function SelectTermOf(part: string, columns: set<string>): Result<SelectTerm> {
    var k := IndexOf(part, ':');
    if k < |part| then
      if !ValidIdent(part[..k]) then Failure(BadSelect)
      else
        var bad := CheckColumn(part[k + 1..], columns);
        if bad.Some? then Failure(bad.value) else Success(SelectTerm(part[k + 1..], Some(part[..k])))
    else
      var bad := CheckColumn(part, columns);
      if bad.Some? then Failure(bad.value) else Success(SelectTerm(part, None))
  }

  function SelectTermsOf(parts: seq<string>, columns: set<string>): Result<seq<SelectTerm>> {
    if parts == [] then Success([])
    else if Trim(parts[0]) == "" then SelectTermsOf(parts[1..], columns)
    else Cons(SelectTermOf(Trim(parts[0]), columns), SelectTermsOf(parts[1..], columns))
  }

  function RenderSelects(terms: seq<SelectTerm>): (r: seq<string>)
    ensures |r| == |terms|
  {
    if terms == [] then [] else [RenderSelect(terms[0])] + RenderSelects(terms[1..])
  }

  /** The select list: rendered terms, and at least one of them. */
  function SelectOf(spec: string, columns: set<string>): Result<seq<string>> {
    match SelectTermsOf(Split(spec, ','), columns)
    case Failure(e) => Failure(e)
    case Success(terms) => if terms == [] then Failure(BadSelect) else Success(RenderSelects(terms))
  }

  method ParseSelect(spec: string, columns: set<string>) returns (r: Result<seq<string>>)
    ensures r == SelectOf(spec, columns)
  {
    var cols: seq<string> := [];
    ghost var terms: seq<SelectTerm> := [];
    var parts := Split(spec, ',');
    var i := 0;
    AppendAppend([], [], SelectTermsOf(parts, columns));
    assert parts[0..] == parts;
    while i < |parts|
      invariant 0 <= i <= |parts|
      invariant cols == RenderSelects(terms)
      invariant SelectTermsOf(parts, columns) == Append(terms, SelectTermsOf(parts[i..], columns))
    {
      assert parts[i..][1..] == parts[i + 1..];
      var part := Trim(parts[i]);
      i := i + 1;
      if part == "" {
        continue;
      }
      var rendered := ParseSelectTerm(part, columns);
      if rendered.Failure? {
        return Failure(rendered.error);
      }
      ghost var term := SelectTermOf(part, columns).value;
      AppendAppend(terms, [term], SelectTermsOf(parts[i..], columns));
      RenderSnoc(terms, term);
      terms := terms + [term];
      cols := cols + [rendered.value];
    }
    assert terms + [] == terms;
    if |cols| == 0 {
      return Failure(BadSelect);
    }
    return Success(cols);
  }

  lemma {:induction false} RenderSnoc(terms: seq<SelectTerm>, t: SelectTerm)
    ensures RenderSelects(terms + [t]) == RenderSelects(terms) + [RenderSelect(t)]
  {
    if terms != [] {
      assert (terms + [t])[1..] == terms[1..] + [t];
      RenderSnoc(terms[1..], t);
    }
  }

  /** One item, rendered as it will appear in the statement. */
  method ParseSelectTerm(part: string, columns: set<string>) returns (r: Result<string>)
    ensures match SelectTermOf(part, columns)
            case Failure(e) => r == Failure(e)
            case Success(t) => r == Success(RenderSelect(t))
  {
    var k := IndexOf(part, ':');
    if k < |part| {
      var alias, col := part[..k], part[k + 1..];
      if !ValidIdent(alias) {
        return Failure(BadSelect);
      }
      var bad := CheckColumn(col, columns);
      if bad.Some? {
        return Failure(bad.value);
      }
      return Success(Quote(col, '"') + " AS " + Quote(alias, '"'));
    }
    var bad := CheckColumn(part, columns);
    if bad.Some? {
      return Failure(bad.value);
    }
    return Success(Quote(part, '"'));
  }

  predicate SelectWellFormed(t: SelectTerm) {
    ValidIdent(t.column) && (t.alias.Some? ==> ValidIdent(t.alias.value))
  }

  function PrintSelectTerm(t: SelectTerm): string {
    match t.alias
    case None => t.column
    case Some(alias) => alias + ([':'] + t.column)
  }

  function PrintSelects(terms: seq<SelectTerm>): (r: seq<string>)
    ensures |r| == |terms| && forall k :: 0 <= k < |r| ==> r[k] == PrintSelectTerm(terms[k])
  {
    seq(|terms|, k requires 0 <= k < |terms| => PrintSelectTerm(terms[k]))
  }

  lemma ColonIs(head: string, rest: string)
    requires ':' !in head
    ensures IndexOf(head + ([':'] + rest), ':') == |head|
    ensures IndexOf(head, ':') == |head|
    ensures (head + ([':'] + rest))[..|head|] == head && (head + ([':'] + rest))[|head| + 1..] == rest
  {
    var s := head + ([':'] + rest);
    assert s[|head|] == ':';
    forall j | 0 <= j < |head|
      ensures s[j] != ':' && head[j] != ':'
    {
      assert s[j] == head[j] && head[j] in head;
    }
  }

  lemma SelectTermPrinted(t: SelectTerm, columns: set<string>)
    requires SelectWellFormed(t) && ColumnKnown(t.column, columns)
    ensures var s := PrintSelectTerm(t);
            SelectTermOf(s, columns) == Success(t) && s != "" && Trimmed(s) && ',' !in s
  {
    IdentSolid(t.column);
    SolidIs(t.column);
    if t.alias.Some? {
      IdentSolid(t.alias.value);
      SolidIs(t.alias.value);
      ColonIs(t.alias.value, t.column);
      var s := PrintSelectTerm(t);
      assert s[0] == t.alias.value[0] && s[|s| - 1] == t.column[|t.column| - 1];
    } else {
      ColonIs(t.column, "");
    }
  }

  lemma {:induction false} SelectsRead(terms: seq<SelectTerm>, columns: set<string>)
    requires forall k :: 0 <= k < |terms| ==> SelectWellFormed(terms[k]) && ColumnKnown(terms[k].column, columns)
    ensures SelectTermsOf(PrintSelects(terms), columns) == Success(terms)
    ensures forall k :: 0 <= k < |terms| ==> ',' !in PrintSelects(terms)[k]
  {
    if terms != [] {
      SelectTermPrinted(terms[0], columns);
      TrimSolid(PrintSelects(terms)[0]);
      SelectsRead(terms[1..], columns);
      assert PrintSelects(terms)[1..] == PrintSelects(terms[1..]);
      assert [terms[0]] + terms[1..] == terms;
    }
  }

  /** A `select` option written from its terms yields those terms, rendered. */
  lemma SelectRoundTrip(terms: seq<SelectTerm>, columns: set<string>)
    requires terms != []
    requires forall k :: 0 <= k < |terms| ==> SelectWellFormed(terms[k]) && ColumnKnown(terms[k].column, columns)
    ensures SelectOf(Join(PrintSelects(terms), ","), columns) == Success(RenderSelects(terms))
  {
    SelectsRead(terms, columns);
    SplitJoin(PrintSelects(terms), ',');
  }

  lemma {:induction false} SelectsWellFormed(parts: seq<string>, columns: set<string>)
    requires SelectTermsOf(parts, columns).Success?
    ensures forall t :: t in SelectTermsOf(parts, columns).value ==> SelectWellFormed(t) && ColumnKnown(t.column, columns)
  {
    if parts != [] {
      SelectsWellFormed(parts[1..], columns);
    }
  }

  /** Whatever parses as a `select` option prints to one that parses to the same. */
  lemma SelectReprint(spec: string, columns: set<string>)
    requires SelectOf(spec, columns).Success?
    ensures var terms := SelectTermsOf(Split(spec, ','), columns).value;
            SelectOf(Join(PrintSelects(terms), ","), columns) == SelectOf(spec, columns) == Success(RenderSelects(terms))
  {
    SelectsWellFormed(Split(spec, ','), columns);
    SelectRoundTrip(SelectTermsOf(Split(spec, ','), columns).value, columns);
  }
}
