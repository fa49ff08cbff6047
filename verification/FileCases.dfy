/** Declarations and files case by case: the spellings a parameter may have, and exactly which
    files are accepted as what. */
module FileCases {
  import opened Text
  import opened Values
  import opened Directive
  import opened Params
  import opened QueryFile
  import opened Reprint

  // ----- types -----

  /** Every spelling of a type, in any case, and no other. */
  lemma TypeSpellings(s: string)
    ensures ParseType(s) == Some(ParamType.Text) <==> Lower(s) in {"text", "string", "str"}
    ensures ParseType(s) == Some(Int) <==> Lower(s) in {"int", "integer"}
    ensures ParseType(s) == Some(Float) <==> Lower(s) in {"float", "real", "number"}
    ensures ParseType(s) == Some(Bool) <==> Lower(s) in {"bool", "boolean"}
    ensures ParseType(s) == Some(TextList) <==> Lower(s) in {"text[]", "string[]", "str[]"}
    ensures ParseType(s) == Some(IntList) <==> Lower(s) in {"int[]", "integer[]"}
    ensures ParseType(s) == Some(FloatList) <==> Lower(s) in {"float[]", "real[]", "number[]"}
  {
  }

  lemma RequiredIsNoType()
    ensures ParseType("required") == None
  {
    LowercaseWord("required");
  }

  lemma UntypedClause(name: string, s: string, conv: Strconv)
    requires Lex(s).Lexeme? && (Lex(s).kind == Word ==> ParseType(Lex(s).text) == None)
    ensures TypedOf(name, s, conv) == ClauseOf(name, ParamType.Text, s, conv)
  {
  }

  lemma RequiredFirst(p: Param, conv: Strconv)
    requires p.required
    ensures Lex(PrintClause(p, conv)) == Lexeme(Word, "required", Tail(p.desc))
  {
    assert Tail(p.desc) != "" ==> Tail(p.desc)[0] == ' ';
    LexWordIs(" ", "required", Tail(p.desc));
  }

  lemma EqualsFirst(p: Param, conv: Strconv)
    requires p.hasDefault && !p.required
    ensures Lex(PrintClause(p, conv)).Lexeme? && Lex(PrintClause(p, conv)).kind == Equals
  {
    var rest := " " + PrintDefault(p.default, conv) + Tail(p.desc);
    assert PrintClause(p, conv) == " " + ['='] + rest;
    LexSymbol(" ", '=', rest);
  }

  lemma ClauseIsNoType(p: Param, conv: Strconv)
    requires p.required || p.hasDefault
    ensures var x := Lex(PrintClause(p, conv)); x.Lexeme? && (x.kind == Word ==> ParseType(x.text) == None)
  {
    if p.required {
      RequiredFirst(p, conv);
      RequiredIsNoType();
    } else {
      EqualsFirst(p, conv);
    }
  }

  /** Without a type a parameter is text. */
  lemma UntypedIsText(p: Param, conv: Strconv)
    requires Params.WellFormed(p) && p.ptype.Text? && (p.required || p.hasDefault) && Faithful(conv)
    ensures ParamOf(p.name + PrintClause(p, conv), conv) == Success(p)
  {
    ClauseBoundary(p, conv);
    NamePrinted(p.name, PrintClause(p, conv), conv);
    ClauseIsNoType(p, conv);
    UntypedClause(p.name, PrintClause(p, conv), conv);
    ClausePrinted(p, conv);
  }

  // ----- defaults -----

  predicate IsWord(w: string) {
    w != "" && forall k :: 0 <= k < |w| ==> WordChar(w[k])
  }

  /** A default may be a bare word. */
  lemma WordDefault(w: string, t: ParamType, tail: string, conv: Strconv)
    requires IsWord(w) && !t.IsList() && (tail != "" ==> !WordChar(tail[0]))
    ensures DefaultOf(" " + w + tail, t, conv) == match Coerce(w, t, conv)
                                                  case Success(v) => Success((v, tail))
                                                  case Failure(e) => Failure(e)
  {
    LexWordIs(" ", w, tail);
  }

  /** What may follow a list without parens: no comma, and no more of a word. */
  predicate EndsList(tail: string) {
    (tail != "" ==> !WordChar(tail[0])) && Lex(tail).Lexeme? && Lex(tail).kind != Comma
  }

  lemma WordItem(w: string, v: Val, elem: ParamType, rest: string, conv: Strconv)
    requires IsWord(w) && Coerce(w, elem, conv) == Success(v)
    ensures ItemsOf(w + ([','] + rest), elem, conv) == WithHead(v, ItemsOf(rest, elem, conv))
  {
    assert SymbolKind(',').Some?;
    LexWord(w, [','] + rest);
    LexClose(',', rest);
  }

  lemma LastWordItem(w: string, v: Val, elem: ParamType, tail: string, conv: Strconv)
    requires IsWord(w) && Coerce(w, elem, conv) == Success(v) && EndsList(tail)
    ensures ItemsOf(w + tail, elem, conv) == Success(([v], tail))
  {
    LexWord(w, tail);
  }

  /** The words convert to the values. */
  predicate AllWords(ws: seq<string>, vals: seq<Val>, elem: ParamType, conv: Strconv) {
    |ws| == |vals| && forall k :: 0 <= k < |ws| ==> IsWord(ws[k]) && Coerce(ws[k], elem, conv) == Success(vals[k])
  }

  lemma JoinFirst(ws: seq<string>, tail: string)
    requires |ws| > 1
    ensures Join(ws, ",") + tail == ws[0] + ([','] + (Join(ws[1..], ",") + tail))
  {
  }

  lemma OtherWords(ws: seq<string>, vals: seq<Val>, elem: ParamType, conv: Strconv)
    requires ws != [] && AllWords(ws, vals, elem, conv)
    ensures IsWord(ws[0]) && Coerce(ws[0], elem, conv) == Success(vals[0]) && AllWords(ws[1..], vals[1..], elem, conv)
  {
  }

  lemma {:induction false} WordItems(ws: seq<string>, vals: seq<Val>, elem: ParamType, tail: string, conv: Strconv)
    requires ws != [] && EndsList(tail) && AllWords(ws, vals, elem, conv)
    ensures ItemsOf(Join(ws, ",") + tail, elem, conv) == Success((vals, tail))
  {
    var w, v := ws[0], vals[0];
    OtherWords(ws, vals, elem, conv);
    if |ws| == 1 {
      LastWordItem(w, v, elem, tail, conv);
      assert vals == [v] && Join(ws, ",") == w;
    } else {
      WordItems(ws[1..], vals[1..], elem, tail, conv);
      WordItem(w, v, elem, Join(ws[1..], ",") + tail, conv);
      JoinFirst(ws, tail);
      assert [v] + vals[1..] == vals;
    }
  }

  lemma ItemsAfterBlank(s: string, elem: ParamType, conv: Strconv)
    requires Lex(s).Lexeme? && (Lex(s).kind == Word || Lex(s).kind == Quoted)
    ensures ItemsOf(" " + s, elem, conv) == ItemsOf(s, elem, conv)
  {
    LexBlank(" ", s);
  }

  /** A list default is its words between commas, without parens. */
  lemma WordListDefault(ws: seq<string>, vals: seq<Val>, t: ParamType, tail: string, conv: Strconv)
    requires t.IsList() && ws != [] && EndsList(tail) && AllWords(ws, vals, t.Elem(), conv)
    ensures DefaultOf(" " + (Join(ws, ",") + tail), t, conv) == Success((VList(vals), tail))
  {
    var s := Join(ws, ",") + tail;
    WordItems(ws, vals, t.Elem(), tail, conv);
    var rest := FirstWord(ws, tail);
    LexWord(ws[0], rest);
    LexBlank(" ", s);
    ItemsAfterBlank(s, t.Elem(), conv);
  }

  /** And with parens. */
  lemma WordListInParens(ws: seq<string>, vals: seq<Val>, t: ParamType, tail: string, conv: Strconv)
    requires t.IsList() && ws != [] && AllWords(ws, vals, t.Elem(), conv)
    ensures DefaultOf(" " + ['('] + (Join(ws, ",") + ([')'] + tail)), t, conv) == Success((VList(vals), tail))
  {
    LexClose(')', tail);
    WordItems(ws, vals, t.Elem(), [')'] + tail, conv);
    ParensOff(Join(ws, ",") + ([')'] + tail), vals, t, tail, conv);
  }

  lemma ParensOff(s: string, vals: seq<Val>, t: ParamType, tail: string, conv: Strconv)
    requires t.IsList() && ItemsOf(s, t.Elem(), conv) == Success((vals, [')'] + tail))
    ensures DefaultOf(" " + ['('] + s, t, conv) == Success((VList(vals), tail))
  {
    LexParens(s, tail);
  }

  lemma LexWord(w: string, rest: string)
    requires IsWord(w) && (rest != "" ==> !WordChar(rest[0]))
    ensures Lex(w + rest) == Lexeme(Word, w, rest)
  {
    LexWordIs("", w, rest);
    assert "" + w + rest == w + rest;
  }

  /** What follows the first word. */
  lemma FirstWord(ws: seq<string>, tail: string) returns (rest: string)
    requires ws != [] && (tail != "" ==> !WordChar(tail[0]))
    ensures Join(ws, ",") + tail == ws[0] + rest && (rest != "" ==> !WordChar(rest[0]))
  {
    if |ws| == 1 {
      rest := tail;
    } else {
      rest := [','] + (Join(ws[1..], ",") + tail);
      assert SymbolKind(',').Some?;
    }
  }

  lemma LexNothing(s: string)
    requires Blank(s)
    ensures Lex(s) == Lexeme(EOF, "", "")
  {
    assert Leading(s) == |s|;
    assert SkipBlank(s) == "";
  }

  /** After `=` nothing but white space is the empty list, and no default for anything else. */
  lemma NoDefault(s: string, t: ParamType, conv: Strconv)
    requires Blank(s)
    ensures t.IsList() ==> ListDefaultOf(s, t, conv) == Success((VList([]), s))
    ensures !t.IsList() ==> ScalarOf(s, t, conv) == Failure(BadDefault)
    ensures DefaultOf(s, t, conv) == if t.IsList() then Success((VList([]), s)) else Failure(BadDefault)
  {
    LexNothing(s);
    if t.IsList() {
      assert ItemsOf(s, t.Elem(), conv) == Success(([], s));
    }
  }

  // ----- names -----

  /** A declaration needs a name, and an identifier for it. */
  lemma NameRefused(s: string, w: string, rest: string, conv: Strconv)
    requires IsWord(w) && !ValidIdent(w) && (rest != "" ==> !WordChar(rest[0]))
    ensures Blank(s) ==> ParamOf(s, conv) == Failure(NoName)
    ensures ParamOf(w + rest, conv) == Failure(BadParamName)
  {
    if Blank(s) {
      LexNothing(s);
    }
    LexWordIs("", w, rest);
    assert "" + w + rest == w + rest;
  }

  // ----- directives -----

  /** Any white space may stand before, behind and inside the dashes' line. */
  lemma CommentSpacing(l: string, m: string, text: string, r: string)
    requires Blank(l) && Blank(m) && Blank(r) && text != "" && Trimmed(text)
    ensures CommentOf(l + ("--" + (m + text)) + r) == Some(text)
  {
    var t := "--" + (m + text);
    assert t[0] == '-' && t[|t| - 1] == text[|text| - 1];
    TrimBetween(l, t, r);
    assert t[..2] == "--" && t[2..] == m + text + "";
    TrimBetween(m, text, "");
  }

  /** There are five directives. */
  lemma FiveDirectives(word: string)
    ensures ReadDirective(word) == DUnknown <==> word !in {"@name", "@db", "@description", "@singular", "@param"}
    ensures ReadDirective("@name") == DName && ReadDirective("@db") == DDatabase && ReadDirective("@param") == DParam
    ensures ReadDirective("@description") == DDescription && ReadDirective("@singular") == DSingular
  {
    DirectiveWordRead(DName);
    DirectiveWordRead(DDatabase);
    DirectiveWordRead(DDescription);
    DirectiveWordRead(DSingular);
    DirectiveWordRead(DParam);
  }

  // ----- files -----

  /** A line that by itself is no reason to refuse a file. */
  predicate Acceptable(x: Line) {
    match x
    case Name(value) => value != ""
    case Database(value) => value != ""
    case Declare(parsed) => parsed.Success?
    case Unrecognised => false
    case _ => true
  }

  function LastName(lines: seq<Line>, name: string): string {
    if lines == [] then name else LastName(lines[1..], if lines[0].Name? then lines[0].value else name)
  }

  function LastDatabase(lines: seq<Line>, db: string): string {
    if lines == [] then db else LastDatabase(lines[1..], if lines[0].Database? then lines[0].value else db)
  }

  function LastDescription(lines: seq<Line>, desc: string): string {
    if lines == [] then desc
    else LastDescription(lines[1..], if lines[0].Description? then lines[0].value else desc)
  }

  function AnySingular(lines: seq<Line>, singular: bool): bool {
    if lines == [] then singular else AnySingular(lines[1..], singular || lines[0].Singular?)
  }

  lemma SnocUnique(params: seq<Param>, p: Param, more: seq<Param>)
    requires UniqueNames(params)
    ensures params + ([p] + more) == (params + [p]) + more
    ensures Find(params, p.name).Some? ==> !UniqueNames(params + ([p] + more))
    ensures Find(params, p.name).None? ==> UniqueNames(params + [p])
  {
    FindMember(params, p.name);
    var all := params + ([p] + more);
    if Find(params, p.name).Some? {
      var i :| 0 <= i < |params| && params[i].name == p.name;
      assert all[i].name == all[|params|].name;
    }
  }

  /** The lines are accepted exactly when each is and no name is declared twice. */
  lemma {:induction false} StepsAcceptedIff(d: Declared, lines: seq<Line>)
    requires UniqueNames(d.params)
    ensures Steps(d, lines).Success? <==>
            (forall x :: x in lines ==> Acceptable(x)) && UniqueNames(d.params + DeclaredParams(lines))
    decreases |lines|
  {
    if lines == [] {
      assert d.params + [] == d.params;
    } else {
      var x, rest := lines[0], lines[1..];
      assert lines == [x] + rest;
      var more := DeclaredParams(rest);
      if x.Declare? && x.parsed.Success? {
        SnocUnique(d.params, x.parsed.value, more);
      } else {
        assert [] + more == more;
      }
      assert Step(d, x).Success? <==> Acceptable(x) && (x.Declare? ==> Find(d.params, x.parsed.value.name).None?);
      if Step(d, x).Success? {
        StepDeclares(d, x, more);
        StepsAcceptedIff(Step(d, x).value, rest);
      }
    }
  }

  /** The last directive of a kind has the last word. */
  lemma {:induction false} StepsSay(d: Declared, lines: seq<Line>)
    requires Steps(d, lines).Success?
    ensures var r := Steps(d, lines).value;
            && r.name == LastName(lines, d.name) && r.db == LastDatabase(lines, d.db)
            && r.desc == LastDescription(lines, d.desc) && r.singular == AnySingular(lines, d.singular)
    decreases |lines|
  {
    if lines != [] {
      StepsSay(Step(d, lines[0]).value, lines[1..]);
    }
  }

  lemma {:induction false} DatabaseNamed(lines: seq<Line>, db: string)
    requires forall x :: x in lines ==> Acceptable(x)
    ensures LastDatabase(lines, db) != "" <==> db != "" || exists x :: x in lines && x.Database?
  {
    if lines != [] {
      assert lines == [lines[0]] + lines[1..];
      assert Acceptable(lines[0]);
      DatabaseNamed(lines[1..], if lines[0].Database? then lines[0].value else db);
    }
  }

  lemma NotBlankIff(s: string)
    ensures Trim(s) != "" <==> !Blank(s)
  {
    var l, r := TrimSplits(s);
    assert Trim(s) != "" ==> (l + Trim(s) + r)[|l|] == Trim(s)[0];
  }

  /** A file is accepted exactly when every directive in it is, no parameter is declared twice, some
      line names a database and the rest is not blank. It then declares the last name, database and
      description given, is singular if any line says so, and has the declared parameters and the
      rest, in order. */
  lemma FileAcceptedIff(defaultName: string, src: string, conv: Strconv)
    ensures var lines := ReadText(src, conv);
            DeclaredBy(defaultName, src, conv).Success? <==>
            && (forall x :: x in lines ==> Acceptable(x)) && UniqueNames(DeclaredParams(lines))
            && (exists x :: x in lines && x.Database?) && !Blank(BodyText(lines))
    ensures DeclaredBy(defaultName, src, conv).Success? ==>
              var lines := ReadText(src, conv);
              DeclaredBy(defaultName, src, conv).value ==
              Declared(LastName(lines, defaultName), LastDatabase(lines, ""), LastDescription(lines, ""),
                       AnySingular(lines, false), DeclaredParams(lines), Trim(BodyText(lines)))
  {
    var lines := ReadText(src, conv);
    var start := QueryFile.Start(defaultName);
    StepsAcceptedIff(start, lines);
    assert [] + DeclaredParams(lines) == DeclaredParams(lines);
    if Steps(start, lines).Success? {
      StepsSay(start, lines);
      BodyIsTheRest(start, lines);
      assert "" + BodyText(lines) == BodyText(lines);
      DatabaseNamed(lines, "");
      NotBlankIff(BodyText(lines));
    }
  }
}
