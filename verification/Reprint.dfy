/** Printing what was parsed: a file read, printed and read again. */
module Reprint {
  import opened Text
  import opened Values
  import opened Directive
  import opened Params
  import opened QueryFile
  import opened Filters

  /** Floats are printed on one line. */
  ghost predicate OneLineFloats(conv: Strconv) {
    forall bits :: NoNewline(conv.formatFloat(bits))
  }

  // ----- a declaration read from one line prints on one line -----

  lemma TrimOneLiner(s: string)
    requires NoNewline(s)
    ensures OneLine(Trim(s))
  {
    var l, r := TrimSplits(s);
    NoNewlineAppend(l + Trim(s), r);
    NoNewlineAppend(l, Trim(s));
  }

  lemma {:induction false} EscapeOneLiner(s: string, quote: char)
    requires quote != '\n'
    ensures NoNewline(Escape(s, quote)) <==> NoNewline(s)
  {
    if s != "" {
      EscapeOneLiner(s[1..], quote);
      NoNewlineAppend([s[0]], s[1..]);
      assert s == [s[0]] + s[1..];
      NoNewlineAppend(if s[0] == quote then [quote, quote] else [s[0]], Escape(s[1..], quote));
    }
  }

  lemma QuoteOneLiner(s: string, quote: char)
    requires quote != '\n'
    ensures NoNewline(Quote(s, quote)) <==> NoNewline(s)
  {
    EscapeOneLiner(s, quote);
    NoNewlineAppend([quote] + Escape(s, quote), [quote]);
    NoNewlineAppend([quote], Escape(s, quote));
  }

  lemma LexOneLiner(s: string)
    requires NoNewline(s) && Lex(s).Lexeme?
    ensures NoNewline(Lex(s).text) && NoNewline(Lex(s).rest)
  {
    var x := Lex(s);
    var l, w := LexRebuilds(s);
    NoNewlineAppend(l + w, x.rest);
    NoNewlineAppend(l, w);
    if x.kind == Quoted {
      QuoteOneLiner(x.text, '"');
      QuoteOneLiner(x.text, '\'');
    }
  }

  lemma DigitsOneLiner(n: int)
    ensures NoNewline(FormatInt(n))
  {
    assert AllDigits(FormatNat(if n < 0 then -n else n));
  }

  lemma CoerceOneLiner(text: string, t: ParamType, conv: Strconv)
    requires NoNewline(text) && OneLineFloats(conv) && !t.IsList() && Coerce(text, t, conv).Success?
    ensures NoNewline(Raw(Coerce(text, t, conv).value, conv))
  {
    var v := Coerce(text, t, conv).value;
    if v.VInt? {
      DigitsOneLiner(v.i);
    }
  }

  ghost predicate OneLiners(vals: seq<Val>, conv: Strconv) {
    forall v :: v in vals ==> NoNewline(Raw(v, conv))
  }

  lemma {:induction false} ItemsOneLiner(s: string, elem: ParamType, conv: Strconv)
    requires NoNewline(s) && OneLineFloats(conv) && !elem.IsList() && ItemsOf(s, elem, conv).Success?
    ensures OneLiners(ItemsOf(s, elem, conv).value.0, conv) && NoNewline(ItemsOf(s, elem, conv).value.1)
    decreases |s|
  {
    var x := Lex(s);
    LexOneLiner(s);
    if x.kind == Word || x.kind == Quoted {
      CoerceOneLiner(x.text, elem, conv);
      LexOneLiner(x.rest);
      if Lex(x.rest).kind == Comma {
        ItemsOneLiner(Lex(x.rest).rest, elem, conv);
      }
    }
  }

  /** The default itself, whether a list or not, has one-line items. */
  ghost predicate OneLineDefault(v: Val, conv: Strconv) {
    if v.VList? then OneLiners(v.items, conv) else NoNewline(Raw(v, conv))
  }

  lemma DefaultOneLiner(s: string, t: ParamType, conv: Strconv)
    requires NoNewline(s) && OneLineFloats(conv) && DefaultOf(s, t, conv).Success?
    ensures OneLineDefault(DefaultOf(s, t, conv).value.0, conv) && NoNewline(DefaultOf(s, t, conv).value.1)
  {
    LexOneLiner(s);
    var x := Lex(s);
    if t.IsList() {
      var from := if x.kind == LParen then x.rest else s;
      ItemsOneLiner(from, t.Elem(), conv);
      if x.kind == LParen {
        LexOneLiner(ItemsOf(from, t.Elem(), conv).value.1);
      }
    } else {
      CoerceOneLiner(x.text, t, conv);
    }
  }

  lemma {:induction false} ItemsPrintOneLiner(vals: seq<Val>, conv: Strconv)
    requires OneLiners(vals, conv)
    ensures NoNewline(Join(QuoteAll(Raws(vals, conv)), ","))
  {
    if vals != [] {
      var q := Quote(Raw(vals[0], conv), '"');
      var more := QuoteAll(Raws(vals[1..], conv));
      assert vals[0] in vals && forall v :: v in vals[1..] ==> v in vals;
      ItemsPrintOneLiner(vals[1..], conv);
      QuoteOneLiner(Raw(vals[0], conv), '"');
      if more != [] {
        JoinCons(q, more, ",");
        NoNewlineAppend(q, ",");
        NoNewlineAppend(q + ",", Join(more, ","));
      }
    }
  }

  lemma DefaultPrintsOneLiner(v: Val, conv: Strconv)
    requires OneLineDefault(v, conv)
    ensures NoNewline(PrintDefault(v, conv))
  {
    if v.VList? {
      ItemsPrintOneLiner(v.items, conv);
      NoNewlineAppend("(" + Join(QuoteAll(Raws(v.items, conv)), ","), ")");
      NoNewlineAppend("(", Join(QuoteAll(Raws(v.items, conv)), ","));
    } else {
      QuoteOneLiner(Raw(v, conv), '"');
    }
  }

  lemma TailOneLiner(desc: string)
    requires NoNewline(desc)
    ensures NoNewline(Tail(desc))
  {
    NoNewlineAppend(" ", desc);
  }

  lemma ClausePrintsOneLiner(p: Param, conv: Strconv)
    requires NoNewline(p.desc) && (p.hasDefault ==> OneLineDefault(p.default, conv))
    ensures NoNewline(PrintClause(p, conv))
  {
    TailOneLiner(p.desc);
    if p.required {
      NoNewlineAppend(" " + "required", Tail(p.desc));
    } else if p.hasDefault {
      DefaultPrintsOneLiner(p.default, conv);
      NoNewlineAppend(" ", PrintDefault(p.default, conv));
      NoNewlineAppend(" " + PrintDefault(p.default, conv), Tail(p.desc));
      NoNewlineAppend(" " + "=", " " + PrintDefault(p.default, conv) + Tail(p.desc));
    }
  }

  lemma ClauseOneLiner(name: string, t: ParamType, s: string, conv: Strconv)
    requires NoNewline(s) && OneLineFloats(conv) && ClauseOf(name, t, s, conv).Success?
    ensures NoNewline(PrintClause(ClauseOf(name, t, s, conv).value, conv))
  {
    var x := Lex(s);
    LexOneLiner(s);
    if x.kind == Word && x.text == "required" {
      TrimOneLiner(x.rest);
    } else if x.kind == Equals {
      DefaultOneLiner(x.rest, t, conv);
      TrimOneLiner(DefaultOf(x.rest, t, conv).value.1);
    } else {
      TrimOneLiner(s);
    }
    ClausePrintsOneLiner(ClauseOf(name, t, s, conv).value, conv);
  }

  lemma HeadOneLiner(name: string, t: ParamType)
    requires ValidIdent(name)
    ensures NoNewline(name) && NoNewline(" " + TypeName(t))
  {
    IdentIsWord(name);
    assert forall c :: c in name ==> WordChar(c);
  }

  lemma ParamOneLiner(s: string, conv: Strconv)
    requires NoNewline(s) && OneLineFloats(conv) && ParamOf(s, conv).Success?
    ensures NoNewline(PrintParam(ParamOf(s, conv).value, conv))
  {
    var p := ParamOf(s, conv).value;
    var x := Lex(s);
    LexOneLiner(s);
    LexOneLiner(x.rest);
    var y := Lex(x.rest);
    if y.kind == Word && ParseType(y.text).Some? {
      ClauseOneLiner(x.text, ParseType(y.text).value, y.rest, conv);
    } else {
      ClauseOneLiner(x.text, ParamType.Text, x.rest, conv);
    }
    ParsedParam(s, conv);
    HeadOneLiner(p.name, p.ptype);
    NoNewlineAppend(" " + TypeName(p.ptype), PrintClause(p, conv));
    NoNewlineAppend(p.name, " " + TypeName(p.ptype) + PrintClause(p, conv));
  }

  /** A declaration that was read is one that its own line gives back. */
  lemma ParsedPrintable(s: string, conv: Strconv)
    requires NoNewline(s) && Faithful(conv) && OneLineFloats(conv) && ParamOf(s, conv).Success?
    ensures Printable(ParamOf(s, conv).value, conv)
  {
    ParamOneLiner(s, conv);
    ParsedParam(s, conv);
    ParamRoundTrip(ParamOf(s, conv).value, conv);
  }

  // ----- what the lines of a file can say -----

  ghost predicate LegalLine(x: Line, conv: Strconv) {
    match x
    case Body(text) => NoNewline(text) && DirectiveOf(text).None?
    case Name(value) => OneLine(value)
    case Database(value) => OneLine(value)
    case Description(value) => OneLine(value)
    case Declare(parsed) => parsed.Success? ==> Printable(parsed.value, conv)
    case _ => true
  }

  lemma DirectedLegal(kind: DirectiveKind, rest: string, conv: Strconv)
    requires OneLine(rest) && Faithful(conv) && OneLineFloats(conv)
    ensures LegalLine(Directed(kind, rest, conv), conv)
  {
    if kind == DParam && ParamOf(rest, conv).Success? {
      ParsedPrintable(rest, conv);
    }
  }

  lemma DirectiveOneLine(line: string)
    requires NoNewline(line) && DirectiveOf(line).Some?
    ensures OneLine(DirectiveOf(line).value.1)
  {
    TrimOneLiner(line);
    var t := Trim(line);
    NoNewlineAppend(t[..2], t[2..]);
    assert t == t[..2] + t[2..];
    TrimOneLiner(t[2..]);
    LexOneLiner(Trim(t[2..]));
    TrimOneLiner(Lex(Trim(t[2..])).rest);
  }

  lemma ReadLegal(line: string, conv: Strconv)
    requires NoNewline(line) && Faithful(conv) && OneLineFloats(conv)
    ensures LegalLine(ReadLine(line, conv), conv)
  {
    if DirectiveOf(line).Some? {
      DirectiveOneLine(line);
      var (word, rest) := DirectiveOf(line).value;
      DirectedLegal(ReadDirective(word), rest, conv);
    }
  }

  lemma {:induction false} ScannedOneLiners(s: string)
    ensures forall line :: line in ScanLines(s) ==> NoNewline(line)
    decreases |s|
  {
    if s != "" {
      var k := IndexOf(s, '\n');
      assert NoNewline(s[..k]);
      NoNewlineAppend(DropReturn(s[..k]), s[..k][|DropReturn(s[..k])|..]);
      assert s[..k] == DropReturn(s[..k]) + s[..k][|DropReturn(s[..k])|..];
      if k < |s| {
        ScannedOneLiners(s[k + 1..]);
      }
    }
  }

  lemma LinesLegal(src: string, conv: Strconv)
    requires Faithful(conv) && OneLineFloats(conv)
    ensures forall x :: x in ReadText(src, conv) ==> LegalLine(x, conv)
  {
    ScannedOneLiners(src);
    var lines := ScanLines(src);
    forall k | 0 <= k < |lines|
      ensures LegalLine(ReadText(src, conv)[k], conv)
    {
      assert lines[k] in lines;
      ReadLegal(lines[k], conv);
    }
  }

  ghost predicate LegalHeader(d: Declared, conv: Strconv) {
    && OneLine(d.db) && OneLine(d.desc)
    && AllPrintable(d.params, conv) && UniqueNames(d.params)
  }

  lemma StepLegal(d: Declared, line: Line, conv: Strconv)
    requires LegalHeader(d, conv) && LegalLine(line, conv) && Step(d, line).Success?
    ensures LegalHeader(Step(d, line).value, conv)
  {
    if line.Declare? {
      FindMember(d.params, line.parsed.value.name);
    }
  }

  lemma {:induction false} StepsLegal(d: Declared, lines: seq<Line>, conv: Strconv)
    requires LegalHeader(d, conv) && Steps(d, lines).Success?
    requires forall x :: x in lines ==> LegalLine(x, conv)
    ensures LegalHeader(Steps(d, lines).value, conv)
    decreases |lines|
  {
    if lines != [] {
      assert lines[0] in lines;
      StepLegal(d, lines[0], conv);
      StepsLegal(Step(d, lines[0]).value, lines[1..], conv);
    }
  }

  // ----- trimming a body leaves no directive in it -----

  /** No part between newlines is a directive. */
  predicate NoDirectives(s: string) {
    forall part :: part in Split(s, '\n') ==> DirectiveOf(part).None?
  }

  lemma SameDirective(a: string, b: string)
    requires Trim(a) == Trim(b)
    ensures DirectiveOf(a) == DirectiveOf(b)
  {
  }

  lemma {:induction false} BlankParts(s: string)
    requires Blank(s)
    ensures forall part :: part in Split(s, '\n') ==> Blank(part)
  {
    if s != "" {
      BlankParts(s[1..]);
      var rest := Split(s[1..], '\n');
      assert IsSpace(s[0]) && rest[0] in rest;
      assert Blank([s[0]] + rest[0]) && Blank("");
    }
  }

  /** b is a with white space behind it. */
  predicate Padded(a: string, b: string) {
    a <= b && Blank(b[|a|..])
  }

  lemma PaddedGlue(c: char, a: string, b: string)
    requires Padded(a, b)
    ensures Padded([c] + a, [c] + b)
  {
    assert ([c] + b)[|[c] + a|..] == b[|a|..];
  }

  /** Cutting off white space at the end only cuts off parts and white space of the last one. */
  lemma {:induction false} SplitTail(s: string, r: string)
    requires Blank(r)
    ensures |Split(s, '\n')| <= |Split(s + r, '\n')|
    ensures forall k :: 0 <= k < |Split(s, '\n')| ==> Padded(Split(s, '\n')[k], Split(s + r, '\n')[k])
  {
    if s == "" {
      assert s + r == r;
      BlankParts(r);
      assert Split(r, '\n')[0] in Split(r, '\n');
    } else {
      var a, b := Split(s[1..], '\n'), Split(s[1..] + r, '\n');
      assert (s + r)[1..] == s[1..] + r;
      SplitTail(s[1..], r);
      PaddedGlue(s[0], a[0], b[0]);
    }
  }

  lemma NoDirectivesTail(s: string, r: string)
    requires Blank(r) && NoDirectives(s + r)
    ensures NoDirectives(s)
  {
    SplitTail(s, r);
    var a, b := Split(s, '\n'), Split(s + r, '\n');
    forall k | 0 <= k < |a|
      ensures DirectiveOf(a[k]).None?
    {
      assert b[k] in b && Padded(a[k], b[k]);
      SameBehind(a[k], b[k]);
    }
  }

  lemma NoDirectivesStep(c: char, s: string)
    requires IsSpace(c) && NoDirectives([c] + s)
    ensures NoDirectives(s)
  {
    var a, b := Split(s, '\n'), Split([c] + s, '\n');
    assert ([c] + s)[1..] == s;
    if c == '\n' {
      assert b == [""] + a;
    } else {
      assert b == [[c] + a[0]] + a[1..] && b[0] in b;
      SameBefore(c, a[0]);
      assert a == [a[0]] + a[1..];
    }
  }

  lemma {:induction false} NoDirectivesLead(l: string, s: string)
    requires Blank(l) && NoDirectives(l + s)
    ensures NoDirectives(s)
  {
    if l == "" {
      assert l + s == s;
    } else {
      assert l + s == [l[0]] + (l[1..] + s);
      NoDirectivesStep(l[0], l[1..] + s);
      NoDirectivesLead(l[1..], s);
    }
  }

  lemma TrimPadded(l: string, s: string, r: string)
    requires Blank(l) && Blank(r)
    ensures Trim(l + s + r) == Trim(s)
  {
    var m, n := TrimSplits(s);
    var t := Trim(s);
    TrimBetween(l + m, t, n + r);
    assert l + s + r == (l + m) + t + (n + r) by {
      Assoc(l, m + t, n);
      Assoc(l, m, t);
      Assoc((l + m) + t, n, r);
    }
  }

  lemma SameBehind(a: string, b: string)
    requires Padded(a, b)
    ensures DirectiveOf(a) == DirectiveOf(b)
  {
    var r := b[|a|..];
    assert b == "" + a + r;
    TrimPadded("", a, r);
    SameDirective(a, b);
  }

  lemma SameBefore(c: char, s: string)
    requires IsSpace(c)
    ensures DirectiveOf([c] + s) == DirectiveOf(s)
  {
    assert [c] + s + "" == [c] + s;
    TrimPadded([c], s, "");
    SameDirective([c] + s, s);
  }

  lemma TrimKeepsOut(s: string)
    requires NoDirectives(s)
    ensures NoDirectives(Trim(s))
  {
    var l, r := TrimSplits(s);
    NoDirectivesTail(l + Trim(s), r);
    NoDirectivesLead(l, Trim(s));
  }

  lemma ReturnPadded(line: string)
    ensures DirectiveOf(DropReturn(line)) == DirectiveOf(line)
  {
    assert Padded(DropReturn(line), line);
    SameBehind(DropReturn(line), line);
  }

  lemma NoDirectivesCut(line: string, rest: string)
    requires NoNewline(line) && NoDirectives(line + ("\n" + rest))
    ensures DirectiveOf(line).None? && NoDirectives(rest)
  {
    SplitHead(line, '\n', rest);
    var parts := Split(line + ("\n" + rest), '\n');
    assert parts == [line] + Split(rest, '\n') && parts[0] in parts;
  }

  lemma {:induction false} ScannedNoDirectives(s: string)
    requires NoDirectives(s)
    ensures forall line :: line in ScanLines(s) ==> DirectiveOf(line).None?
    decreases |s|
  {
    if s != "" {
      var k := IndexOf(s, '\n');
      ScanLinesStep(s);
      assert NoNewline(s[..k]);
      if k < |s| {
        NoDirectivesCut(s[..k], s[k + 1..]);
        ReturnPadded(s[..k]);
        ScannedNoDirectives(s[k + 1..]);
      } else {
        assert s[..k] == s;
        SplitOne(s, '\n');
        assert s in Split(s, '\n');
        ReturnPadded(s);
      }
    }
  }

  lemma {:induction false} BodyNoDirectives(lines: seq<Line>, conv: Strconv)
    requires forall x :: x in lines ==> LegalLine(x, conv)
    ensures NoDirectives(BodyText(lines))
  {
    if lines == [] {
      assert DirectiveOf("").None?;
    } else {
      BodyNoDirectives(lines[1..], conv);
      assert lines[0] in lines;
      var rest := BodyText(lines[1..]);
      if lines[0].Body? {
        var text := lines[0].text;
        SplitHead(text, '\n', rest);
        assert text + "\n" + rest == text + (['\n'] + rest);
      } else {
        assert "" + rest == rest;
      }
    }
  }

  // ----- whole files -----

  /** Every file that parses declares what can be printed, apart from the name if that is the file's
      own. */
  lemma ParsedQuery(defaultName: string, src: string, conv: Strconv)
    requires Faithful(conv) && OneLineFloats(conv) && DeclaredBy(defaultName, src, conv).Success?
    ensures var d := DeclaredBy(defaultName, src, conv).value;
            OneLine(d.name) && d.name != "" <==> QueryFile.WellFormed(d, conv)
  {
    var lines := ReadText(src, conv);
    var d := Steps(QueryFile.Start(defaultName), lines).value;
    LinesLegal(src, conv);
    StepsLegal(QueryFile.Start(defaultName), lines, conv);
    BodyIsTheRest(QueryFile.Start(defaultName), lines);
    BodyNoDirectives(lines, conv);
    assert "" + BodyText(lines) == BodyText(lines) == d.sql;
    TrimKeepsOut(d.sql);
    ScannedNoDirectives(Trim(d.sql));
    var _, _ := TrimSplits(d.sql);
  }

  /** A file that parses to a query with a one-line name, printed and read again under any default
      name, gives the same query if and only if no line of its statement ends in a carriage return. */
  lemma QueryReprint(defaultName: string, src: string, other: string, conv: Strconv)
    requires Faithful(conv) && OneLineFloats(conv) && DeclaredBy(defaultName, src, conv).Success?
    requires var name := DeclaredBy(defaultName, src, conv).value.name; OneLine(name) && name != ""
    ensures var d := DeclaredBy(defaultName, src, conv).value;
            DeclaredBy(other, PrintQuery(d, conv), conv) == Success(d) <==> NoReturns(d.sql)
  {
    ParsedQuery(defaultName, src, conv);
    QueryRoundTrip(other, DeclaredBy(defaultName, src, conv).value, conv);
  }

  /** A line that is no directive and neither starts nor ends with white space. */
  predicate PlainLine(s: string) {
    OneLine(s) && s != "" && DirectiveOf(s).None?
  }

  /** Such files: two lines, the first ending in two returns, of which reading drops one. */
  lemma ReturnLost(defaultName: string, a: string, b: string, conv: Strconv)
    requires OneLine(defaultName) && defaultName != "" && Faithful(conv) && OneLineFloats(conv)
    requires PlainLine(a) && PlainLine(b)
    ensures var d := Declared(defaultName, "x", "", false, [], a + "\r" + ("\n" + b));
            && DeclaredBy(defaultName, DirectiveLine(DDatabase, "x", a + "\r\r" + ("\n" + b)), conv) == Success(d)
            && DeclaredBy(defaultName, PrintQuery(d, conv), conv) != Success(d)
  {
    ReturnKept(defaultName, a, b, conv);
    ReturnBody(a, b);
    QueryReprint(defaultName, DirectiveLine(DDatabase, "x", a + "\r\r" + ("\n" + b)), defaultName, conv);
  }

  lemma ReturnKept(defaultName: string, a: string, b: string, conv: Strconv)
    requires PlainLine(a) && PlainLine(b)
    ensures DeclaredBy(defaultName, DirectiveLine(DDatabase, "x", a + "\r\r" + ("\n" + b)), conv) ==
            Success(Declared(defaultName, "x", "", false, [], a + "\r" + ("\n" + b)))
  {
    var body, sql := a + "\r\r" + ("\n" + b), a + "\r" + ("\n" + b);
    ReturnLines(a, b);
    ReadDirectiveLine(DDatabase, "x", body, conv);
    ReadBody(body, conv);
    StepsDatabase(defaultName, "x", [a + "\r", b]);
    ReturnBody(a, b);
    FinishBody(Declared(defaultName, "x", "", false, [], sql + "\n"), sql);
  }

  lemma StepsDatabase(defaultName: string, db: string, lines: seq<string>)
    requires db != ""
    ensures Steps(QueryFile.Start(defaultName), [Database(db)] + Bodies(lines)) ==
            Success(Declared(defaultName, db, "", false, [], Unlines(lines)))
  {
    StepsCons(QueryFile.Start(defaultName), Database(db), Bodies(lines));
    StepsBody(QueryFile.Start(defaultName).(db := db), lines);
    assert "" + Unlines(lines) == Unlines(lines);
  }

  lemma ScanOne(b: string)
    requires PlainLine(b)
    ensures ScanLines(b) == [b]
  {
    ScanLinesStep(b);
    forall k | 0 <= k < |b|
      ensures b[k] != '\n'
    {
      assert b[k] in b;
    }
    assert DropReturn(b) == b;
  }

  lemma ReturnLines(a: string, b: string)
    requires PlainLine(a) && PlainLine(b)
    ensures ScanLines(a + "\r\r" + ("\n" + b)) == [a + "\r", b]
    ensures forall line :: line in [a + "\r", b] ==> DirectiveOf(line).None?
  {
    DropAdded(a);
    DropAdded(a + "\r");
    assert a + "\r\r" == a + "\r" + "\r";
    ScanLinesAt(a + "\r\r", b);
    ScanOne(b);
    assert Padded(a, a + "\r");
    SameBehind(a, a + "\r");
  }

  lemma ReturnBody(a: string, b: string)
    requires PlainLine(a) && PlainLine(b)
    ensures var sql := a + "\r" + ("\n" + b);
            Unlines([a + "\r", b]) == sql + "\n" && Trimmed(sql) && !NoReturns(sql)
  {
    var sql := a + "\r" + ("\n" + b);
    UnlinesCons(a + "\r", [b]);
    UnlinesCons(b, []);
    assert [a + "\r"] + [b] == [a + "\r", b] && [b] + [] == [b];
    assert b + "\n" + "" == b + "\n";
    LineThen(a + "\r", b);
    assert sql[0] == a[0] && sql[|sql| - 1] == b[|b| - 1];
    DropAdded(a);
    NoReturnsStep(a + "\r", b);
  }
}
