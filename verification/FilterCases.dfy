/** Filters, orders and lists case by case: what separates, what is accepted, what is refused. */
module FilterCases {
  import opened Text
  import opened Values
  import opened FilterScan
  import opened Filters

  // ----- what hides a dot -----

  /** Opening less closing parens between j and k, those inside quotes left out. */
  function Rise(s: string, j: nat, k: nat): int
    requires j <= k <= |s|
    decreases k
  {
    if j == k then 0
    else
      Rise(s, j, k - 1) +
      if QuoteCount(s, k - 1) % 2 == 1 then 0 else if s[k - 1] == '(' then 1 else if s[k - 1] == ')' then -1 else 0
  }

  /** The scanner's depth is the highest rise up to here from anywhere before: a closing paren that
      closes nothing counts for nothing. */
  lemma {:induction false} DepthIsRise(s: string, k: nat) returns (from: nat)
    requires k <= |s|
    ensures from <= k && After(s, 0, k).depth == Rise(s, from, k)
    ensures forall j :: 0 <= j <= k ==> Rise(s, j, k) <= After(s, 0, k).depth
  {
    from := k;
    if k != 0 {
      from := DepthIsRise(s, k - 1);
      QuotedIsOddParity(s, k - 1);
      if Rise(s, from, k) < 0 {
        from := k;
      }
    }
  }

  /** A dot separates exactly outside quotes and outside parens. */
  lemma SeparatorIs(s: string, k: nat)
    requires k < |s|
    ensures Separator(s, 0, k) <==>
            s[k] == '.' && QuoteCount(s, k) % 2 == 0 && forall j :: 0 <= j <= k ==> Rise(s, j, k) <= 0
  {
    QuotedIsOddParity(s, k);
    var from := DepthIsRise(s, k);
    assert Rise(s, from, k) == After(s, 0, k).depth;
  }

  // ----- lists -----

  lemma {:induction false} PlainPieces(s: string)
    requires '"' !in s
    ensures Pieces(s, false) == Split(s, ',') && Unquote(s, false) == s
  {
    if s != "" {
      assert s[0] in s && forall c :: c in s[1..] ==> c in s;
      PlainPieces(s[1..]);
      assert s == [s[0]] + s[1..];
    }
  }

  lemma {:induction false} PlainParts(s: string, c: char)
    requires c !in s
    ensures forall part :: part in Split(s, ',') ==> c !in part
  {
    if s != "" {
      assert s[0] in s && forall d :: d in s[1..] ==> d in s;
      PlainParts(s[1..], c);
      assert Split(s[1..], ',')[0] in Split(s[1..], ',');
    }
  }

  /** Without quotes the items are the parts between commas, spaces included. */
  lemma PlainItems(inner: string)
    requires '"' !in inner
    ensures ListItems(inner) == Split(inner, ',')
  {
    PlainPieces(inner);
    PlainParts(inner, '"');
    var parts := Split(inner, ',');
    forall k | 0 <= k < |parts|
      ensures Unquote(parts[k], false) == parts[k]
    {
      assert parts[k] in parts;
      PlainPieces(parts[k]);
    }
    assert UnquoteAll(parts) == parts;
  }

  /** A list is text in parens, with or without white space around it, that is not blank inside. */
  lemma ListAcceptedIff(src: string)
    ensures ListOf(src).Success? <==> exists inner :: Trim(src) == "(" + inner + ")" && !Blank(inner)
    ensures ListOf(src).Failure? ==> ListOf(src).error == BadFilter
  {
    var s := Trim(src);
    if HasPrefix(s, "(") && HasSuffix(s, ")") && |s| >= 2 {
      var inner := s[1..|s| - 1];
      assert s == "(" + inner + ")";
      BlankTrims(inner);
    }
    forall inner | s == "(" + inner + ")" && !Blank(inner)
      ensures ListOf(src).Success?
    {
      assert s[1..|s| - 1] == inner && s[0] == '(' && s[|s| - 1] == ')';
      BlankTrims(inner);
    }
  }

  lemma BlankTrims(s: string)
    ensures Trim(s) == "" <==> Blank(s)
  {
    var l, r := TrimSplits(s);
    assert Trim(s) != "" ==> (l + Trim(s) + r)[|l|] == Trim(s)[0];
  }

  // ----- filters -----

  /** A column is refused for its form first, then for being unknown, whatever the spec. */
  lemma ColumnRefused(column: string, spec: string, columns: set<string>)
    ensures !ValidIdent(column) ==> FilterOf(column, spec, columns) == Failure(InvalidColumn)
    ensures ValidIdent(column) && columns != {} && column !in columns ==>
              FilterOf(column, spec, columns) == Failure(UnknownColumn)
  {
  }

  predicate KnownWord(op: string) {
    op in ["eq", "neq", "gt", "gte", "lt", "lte", "like", "ilike", "is", "in"]
  }

  lemma KnownWords(op: string)
    ensures KnownWord(op) <==> !ReadKeyword(op).Unlisted?
    ensures ReadKeyword(op).Is? <==> op == "is"
    ensures ReadKeyword(op).Listed? <==> op == "in"
  {
    var words := ["eq", "neq", "gt", "gte", "lt", "lte", "like", "ilike", "is", "in"];
    assert words[0] == "eq" && words[1] == "neq" && words[2] == "gt" && words[3] == "gte" && words[4] == "lt";
    assert words[5] == "lte" && words[6] == "like" && words[7] == "ilike" && words[8] == "is" && words[9] == "in";
  }

  predicate ConstantWord(word: string) {
    word == "null" || word == "true" || word == "false"
  }

  lemma ConstantIs(val: string)
    ensures ReadConstant(val).Some? <==> ConstantWord(Lower(val))
    ensures Lower(val) == "null" ==> ReadConstant(val) == Some(VNull)
    ensures Lower(val) == "true" ==> ReadConstant(val) == Some(VBool(true))
    ensures Lower(val) == "false" ==> ReadConstant(val) == Some(VBool(false))
  {
    assert "null"[0] == 'n' && "true"[0] == 't' && "false"[0] == 'f';
  }

  predicate Understood(op: string, val: string) {
    KnownWord(op) && (op == "is" ==> ConstantWord(Lower(val))) && (op == "in" ==> ListOf(val).Success?)
  }

  lemma PredicateRefusedIff(column: string, negate: bool, op: string, val: string)
    ensures var r := Predicate(column, negate, ReadKeyword(op), val);
            && (r.Success? <==> Understood(op, val))
            && (r.Failure? ==> r.error == if KnownWord(op) then BadFilter else UnknownOperator)
  {
    KnownWords(op);
    ConstantIs(val);
  }

  /** A spec `op.value` or `not.op.value` on a known column is refused exactly for an operator that
      is not in the table, for `is` with anything but null, true or false in any case, and for `in`
      with something that is no list. */
  lemma SpecRefusedIff(column: string, negate: bool, op: string, val: string, columns: set<string>)
    requires ValidIdent(column) && ColumnKnown(column, columns) && Filters.Plain(op) && op != "not"
    ensures var r := FilterOf(column, (if negate then "not" + "." else "") + (op + "." + val), columns);
            && (r.Success? <==> Understood(op, val))
            && (r.Failure? ==> r.error == if KnownWord(op) then BadFilter else UnknownOperator)
  {
    CutPrinted(negate, op, val);
    PredicateRefusedIff(column, negate, op, val);
  }

  /** `not.` in front of something without an operator is refused. */
  lemma DanglingRefused(column: string, rest: string, columns: set<string>)
    requires ValidIdent(column) && ColumnKnown(column, columns) && FirstSeparator(rest) == |rest|
    ensures FilterOf(column, "not" + "." + rest, columns) == Failure(BadFilter)
  {
    FirstSegmentPlain("not", rest);
  }

  // ----- order -----

  /** A column alone is ascending, with the database's place for NULL. */
  lemma OrderAlone(column: string, columns: set<string>)
    requires ValidIdent(column) && ColumnKnown(column, columns)
    ensures OrderOf(Split(column, ','), columns) == Success([OrderTerm(column, false, Default)])
  {
    IdentSolid(column);
    SolidIs(column);
    SplitOne(column, ',');
    SplitOne(column, '.');
    TrimSolid(column);
    var t := OrderTerm(column, false, Default);
    assert [column][1..] == [] && OrderMods(t, []) == Success(t);
    assert Split(column, '.') == [column] && OrderTermOf(column, columns) == Success(t);
    assert OrderOf([], columns) == Success([]) && [t] + [] == [t];
  }

  lemma {:induction false} ModsThen(t: OrderTerm, a: seq<string>, b: seq<string>)
    requires OrderMods(t, a).Success?
    ensures OrderMods(t, a + b) == OrderMods(OrderMods(t, a).value, b)
    decreases |a|
  {
    if a == [] {
      assert a + b == b;
    } else {
      assert (a + b)[1..] == a[1..] + b;
      ModsThen(OrderMod(t, a[0]).value, a[1..], b);
    }
  }

  /** The last modifier has the last word; it is read in any case. */
  lemma LastModWins(t: OrderTerm, mods: seq<string>, mod: string)
    requires OrderMods(t, mods).Success?
    ensures var r := OrderMods(t, mods + [mod]); var before := OrderMods(t, mods).value;
            && (Lower(mod) == "asc" ==> r == Success(before.(desc := false)))
            && (Lower(mod) == "desc" ==> r == Success(before.(desc := true)))
            && (Lower(mod) == "nullsfirst" ==> r == Success(before.(nulls := NullsFirst)))
            && (Lower(mod) == "nullslast" ==> r == Success(before.(nulls := NullsLast)))
            && (r.Failure? <==> Lower(mod) !in {"asc", "desc", "nullsfirst", "nullslast"})
            && (r.Failure? ==> r.error == BadOrder)
  {
    ModsThen(t, mods, [mod]);
    assert [mod][1..] == [];
    WordsDiffer();
  }

  lemma WordsDiffer()
    ensures "asc" != "desc" && "asc" != "nullsfirst" && "asc" != "nullslast"
    ensures "desc" != "nullsfirst" && "desc" != "nullslast" && "nullsfirst" != "nullslast"
  {
    assert "asc"[0] == 'a' && "desc"[0] == 'd' && "nullsfirst"[5] == 'f' && "nullslast"[5] == 'l';
  }

  /** Parts that are blank do not count. */
  lemma BlankSkipped(parts: seq<string>, columns: set<string>)
    requires parts != [] && Blank(parts[0])
    ensures OrderOf(parts, columns) == OrderOf(parts[1..], columns)
    ensures SelectTermsOf(parts, columns) == SelectTermsOf(parts[1..], columns)
  {
    BlankTrims(parts[0]);
  }

  /** Any other part is refused for its column, or for a modifier. */
  lemma OrderRefused(part: string, columns: set<string>)
    ensures var column := Split(part, '.')[0]; var r := OrderTermOf(part, columns);
            && (!ValidIdent(column) ==> r == Failure(InvalidColumn))
            && (ValidIdent(column) && !ColumnKnown(column, columns) ==> r == Failure(UnknownColumn))
            && (ValidIdent(column) && ColumnKnown(column, columns) && r.Failure? ==> r.error == BadOrder)
  {
    var bits := Split(part, '.');
    ModsFail(OrderTerm(bits[0], false, Default), bits[1..]);
  }

  lemma {:induction false} ModsFail(t: OrderTerm, mods: seq<string>)
    ensures OrderMods(t, mods).Failure? ==> OrderMods(t, mods).error == BadOrder
    decreases |mods|
  {
    if mods != [] && OrderMod(t, mods[0]).Some? {
      ModsFail(OrderMod(t, mods[0]).value, mods[1..]);
    }
  }

  // ----- select -----

  /** One item is refused for its alias, or for its column. */
  lemma SelectRefused(alias: string, column: string, columns: set<string>)
    requires ':' !in alias
    ensures !ValidIdent(alias) ==> SelectTermOf(alias + ([':'] + column), columns) == Failure(BadSelect)
    ensures ValidIdent(alias) && !ValidIdent(column) ==>
              SelectTermOf(alias + ([':'] + column), columns) == Failure(InvalidColumn)
    ensures ValidIdent(alias) && ValidIdent(column) && !ColumnKnown(column, columns) ==>
              SelectTermOf(alias + ([':'] + column), columns) == Failure(UnknownColumn)
  {
    ColonIs(alias, column);
  }

  /** A select option without any item is refused. */
  lemma SelectNothing(spec: string, columns: set<string>)
    requires forall part :: part in Split(spec, ',') ==> Blank(part)
    ensures SelectOf(spec, columns) == Failure(BadSelect)
  {
    NothingSelected(Split(spec, ','), columns);
  }

  lemma {:induction false} NothingSelected(parts: seq<string>, columns: set<string>)
    requires forall part :: part in parts ==> Blank(part)
    ensures SelectTermsOf(parts, columns) == Success([])
  {
    if parts != [] {
      assert parts[0] in parts;
      BlankSkipped(parts, columns);
      NothingSelected(parts[1..], columns);
    }
  }
}
