/** The .sql file parser (parse.go): directive comments and the statement body. */
module QueryFile {
  import opened Text
  import opened Values
  import opened Directive
  import opened Params

  /** What a file declares. */
  datatype Declared = Declared(name: string, db: string, desc: string, singular: bool, params: seq<Param>, sql: string)

  /** A declared query with its index of parameters and, once probed, its output columns. */
  datatype Query = Query(decl: Declared, byName: map<string, Param>, columns: set<string>)

  // ----- lines -----

  function DropReturn(line: string): string {
    if line != "" && line[|line| - 1] == '\r' then line[..|line| - 1] else line
  }

  /** bufio.ScanLines: lines without their newline and one carriage return before it; no last
      empty line. */
  function ScanLines(s: string): seq<string>
    decreases |s|
  {
    if s == "" then []
    else
      var k := IndexOf(s, '\n');
      [DropReturn(s[..k])] + if k < |s| then ScanLines(s[k + 1..]) else []
  }

  lemma NewlineIs(line: string, rest: string)
    requires '\n' !in line
    ensures IndexOf(line + ("\n" + rest), '\n') == |line|
  {
    var s := line + ("\n" + rest);
    assert s[|line|] == '\n';
    forall j | 0 <= j < |line|
      ensures s[j] != '\n'
    {
      assert s[j] == line[j] && line[j] in line;
    }
  }

  predicate NoNewline(s: string) {
    '\n' !in s
  }

  lemma NoNewlineAppend(a: string, b: string)
    ensures NoNewline(a + b) <==> NoNewline(a) && NoNewline(b)
  {
    forall k | 0 <= k < |a|
      ensures (a + b)[k] == a[k]
    {
    }
    if '\n' in a {
      var k :| 0 <= k < |a| && a[k] == '\n';
      assert (a + b)[k] == '\n';
    }
    if '\n' in b {
      var k :| 0 <= k < |b| && b[k] == '\n';
      assert (a + b)[|a| + k] == '\n';
    }
  }

  lemma ScanLinesAt(line: string, rest: string)
    requires NoNewline(line)
    ensures ScanLines(line + ("\n" + rest)) == [DropReturn(line)] + ScanLines(rest)
  {
    var s := line + ("\n" + rest);
    NewlineIs(line, rest);
    assert s[..|line|] == line && s[|line| + 1..] == rest;
  }

  lemma ScanLinesCons(line: string, rest: string)
    requires NoNewline(line) && DropReturn(line) == line
    ensures ScanLines(line + ("\n" + rest)) == [line] + ScanLines(rest)
  {
    ScanLinesAt(line, rest);
  }

  lemma DropAdded(line: string)
    requires NoNewline(line)
    ensures DropReturn(line + "\r") == line && NoNewline(line + "\r")
  {
    NoNewlineAppend(line, "\r");
    assert (line + "\r")[..|line|] == line;
  }

  /** A line ending with carriage return and newline is the same line. */
  lemma ReturnDropped(line: string, rest: string)
    requires NoNewline(line) && DropReturn(line) == line
    ensures ScanLines(line + "\r" + ("\n" + rest)) == ScanLines(line + ("\n" + rest))
  {
    DropAdded(line);
    ScanLinesAt(line, rest);
    ScanLinesAt(line + "\r", rest);
  }

  function Unlines(lines: seq<string>): string {
    if lines == [] then "" else lines[0] + "\n" + Unlines(lines[1..])
  }

  lemma ScanLinesStep(s: string)
    requires s != ""
    ensures var k := IndexOf(s, '\n');
            if k < |s| then
              s == s[..k] + ("\n" + s[k + 1..]) && ScanLines(s) == [DropReturn(s[..k])] + ScanLines(s[k + 1..])
            else ScanLines(s) == [DropReturn(s)]
  {
    var k := IndexOf(s, '\n');
    if k < |s| {
      CutAt(s, k);
    } else {
      assert s[..k] == s && [DropReturn(s)] + [] == [DropReturn(s)];
    }
  }

  lemma CutAt(s: string, k: nat)
    requires k < |s|
    ensures s == s[..k] + ([s[k]] + s[k + 1..])
  {
  }

  /** No line but perhaps the last ends in a carriage return. */
  predicate NoReturns(s: string) {
    forall k :: 0 <= k < |s| - 1 && s[k] == '\r' ==> s[k + 1] != '\n'
  }

  lemma NoReturnsStep(line: string, rest: string)
    requires '\n' !in line
    ensures NoReturns(line + ("\n" + rest)) <==> DropReturn(line) == line && NoReturns(rest)
  {
    var s := line + ("\n" + rest);
    var n := |line| + 1;
    forall k | 0 <= k < |line|
      ensures s[k] == line[k] != '\n'
    {
      assert line[k] in line;
    }
    assert s[|line|] == '\n' && forall k :: 0 <= k < |rest| ==> s[n + k] == rest[k];
    if NoReturns(s) {
      forall k | 0 <= k < |rest| - 1 && rest[k] == '\r'
        ensures rest[k + 1] != '\n'
      {
        assert s[n + k] == '\r' && s[n + k + 1] == rest[k + 1];
      }
    } else {
      var k :| 0 <= k < |s| - 1 && s[k] == '\r' && s[k + 1] == '\n';
      if n <= k {
        assert rest[k - n] == '\r' && rest[k - n + 1] == '\n';
      }
    }
  }

  lemma LineThen(line: string, rest: string)
    ensures line + "\n" + (rest + "\n") == line + ("\n" + rest) + "\n"
  {
    Assoc(line, "\n", rest + "\n");
    Assoc("\n", rest, "\n");
    Assoc(line, "\n" + rest, "\n");
  }

  /** The text is its lines, each with a newline, or else its lines are shorter. */
  predicate LinesGiveBack(s: string) {
    if NoReturns(s) then Unlines(ScanLines(s)) == s + "\n" else |Unlines(ScanLines(s))| <= |s|
  }

  lemma LinesGiveBackStep(line: string, rest: string)
    requires NoNewline(line) && LinesGiveBack(rest)
    ensures LinesGiveBack(line + ("\n" + rest))
  {
    ScanLinesAt(line, rest);
    UnlinesCons(DropReturn(line), ScanLines(rest));
    NoReturnsStep(line, rest);
    LineThen(line, rest);
  }

  /** Text that ends in neither newline nor return is its lines, each with a newline, exactly if no
      line ends in a carriage return; otherwise its lines are shorter. */
  lemma {:induction false} UnlinesScan(s: string)
    requires s != "" && s[|s| - 1] != '\n' && s[|s| - 1] != '\r'
    ensures LinesGiveBack(s)
    decreases |s|
  {
    var k := IndexOf(s, '\n');
    if k < |s| {
      CutAt(s, k);
      UnlinesScan(s[k + 1..]);
      LinesGiveBackStep(s[..k], s[k + 1..]);
    } else {
      ScanLinesStep(s);
      UnlinesCons(s, []);
      assert s + "\n" + "" == s + "\n" && [s] + [] == [s];
    }
  }

  lemma UnlinesCons(line: string, lines: seq<string>)
    ensures Unlines([line] + lines) == line + "\n" + Unlines(lines)
  {
    assert ([line] + lines)[1..] == lines;
  }

  // ----- directives -----

  datatype DirectiveKind = DName | DDatabase | DDescription | DSingular | DParam | DUnknown

  function ReadDirective(word: string): DirectiveKind {
    if word == "@name" then DName
    else if word == "@db" then DDatabase
    else if word == "@description" then DDescription
    else if word == "@singular" then DSingular
    else if word == "@param" then DParam
    else DUnknown
  }

  function DirectiveWord(kind: DirectiveKind): string {
    match kind
    case DName => "@name"
    case DDatabase => "@db"
    case DDescription => "@description"
    case DSingular => "@singular"
    case DParam => "@param"
    case DUnknown => "@"
  }

  lemma DirectiveWordRead(kind: DirectiveKind)
    ensures ReadDirective(DirectiveWord(kind)) == kind
  {
  }

  lemma DirectiveWordShape(kind: DirectiveKind)
    ensures var w := DirectiveWord(kind);
            w != "" && w[0] == '@' && forall k :: 0 <= k < |w| ==> w[k] == '@' || 'a' <= w[k] <= 'z'
  {
  }

  /** The text of a line comment. */
  function CommentOf(line: string): Option<string> {
    var t := Trim(line);
    if HasPrefix(t, "--") then Some(Trim(t[2..])) else None
  }

  /** `@word rest`: the word runs to the first space or structural character. */
  function AtWord(u: string): Option<(string, string)> {
    if u == "" || u[0] != '@' then None
    else
      match Lex(u)
      case Unterminated => None
      case Lexeme(kind, text, rest) => if kind == Word then Some((text, Trim(rest))) else None
  }

  /** `-- @word rest`, if the line is one. */
  function DirectiveOf(line: string): Option<(string, string)> {
    match CommentOf(line)
    case None => None
    case Some(u) => AtWord(u)
  }

  method SplitDirective(line: string) returns (r: Option<(string, string)>)
    ensures r == DirectiveOf(line)
  {
    var comment := CommentOf(line);
    if comment.None? {
      return None;
    }
    r := LexDirective(comment.value);
  }

  /** The tokenizing half: one word, then the rest of the text. */
  method LexDirective(t: string) returns (r: Option<(string, string)>)
    ensures r == AtWord(t)
  {
    if t == "" || t[0] != '@' {
      return None;
    }
    var lx := new Lexer(t);
    assert lx.Remaining() == t;
    var tok := lx.Next();
    if tok.Failure? || tok.value.kind != Word {
      return None;
    }
    return Some((tok.value.text, lx.Rest()));
  }

  /** A comment whose text starts with @ is always a directive: the lexer cannot fail on it. */
  lemma AtSignIsDirective(line: string)
    ensures DirectiveOf(line).Some? <==>
            CommentOf(line).Some? && HasPrefix(CommentOf(line).value, "@")
  {
    if CommentOf(line).Some? {
      var u := CommentOf(line).value;
      if u != "" && u[0] == '@' {
        assert u[0..] == u;
        assert WordChar(u[0]);
        assert Lex(u) == LexHere(u);
        assert u[..1] == "@";
      }
    }
  }

  // ----- what a file means -----

  function Find(params: seq<Param>, name: string): Option<Param> {
    if params == [] then None
    else if params[0].name == name then Some(params[0])
    else Find(params[1..], name)
  }

  /** What one line says. */
  datatype Line =
    | Body(text: string)
    | Name(value: string)
    | Database(value: string)
    | Description(value: string)
    | Singular
    | Declare(parsed: Result<Param>)
    | Unrecognised

  function Directed(kind: DirectiveKind, rest: string, conv: Strconv): Line {
    match kind
    case DName => Name(rest)
    case DDatabase => Database(rest)
    case DDescription => Description(rest)
    case DSingular => Singular
    case DParam => Declare(ParamOf(rest, conv))
    case DUnknown => Unrecognised
  }

  function ReadLine(line: string, conv: Strconv): Line {
    match DirectiveOf(line)
    case None => Body(line)
    case Some((word, rest)) => Directed(ReadDirective(word), rest, conv)
  }

  function ReadLines(lines: seq<string>, conv: Strconv): (r: seq<Line>)
    ensures |r| == |lines| && forall k :: 0 <= k < |r| ==> r[k] == ReadLine(lines[k], conv)
  {
    seq(|lines|, k requires 0 <= k < |lines| => ReadLine(lines[k], conv))
  }

  /** The effect of one line on what has been declared so far; `sql` collects the body. */
  function Step(d: Declared, line: Line): Result<Declared> {
    match line
    case Body(text) => Success(d.(sql := d.sql + text + "\n"))
    case Name(value) => if value == "" then Failure(NoName) else Success(d.(name := value))
    case Database(value) => if value == "" then Failure(NoDatabase) else Success(d.(db := value))
    case Description(value) => Success(d.(desc := value))
    case Singular => Success(d.(singular := true))
    case Declare(parsed) =>
      (match parsed
       case Failure(e) => Failure(e)
       case Success(p) =>
         if Find(d.params, p.name).Some? then Failure(DuplicateParam)
         else Success(d.(params := d.params + [p])))
    case Unrecognised => Failure(UnknownDirective)
  }

  function Steps(d: Declared, lines: seq<Line>): Result<Declared>
    decreases |lines|
  {
    if lines == [] then Success(d)
    else
      var next := Step(d, lines[0]);
      if next.Failure? then next else Steps(next.value, lines[1..])
  }

  function Finish(d: Declared): Result<Declared> {
    if Trim(d.sql) == "" then Failure(NoStatement)
    else if d.db == "" then Failure(NoDatabase)
    else Success(d.(sql := Trim(d.sql)))
  }

  function Start(defaultName: string): Declared {
    Declared(defaultName, "", "", false, [], "")
  }

  function DeclaredBy(defaultName: string, src: string, conv: Strconv): Result<Declared> {
    match Steps(Start(defaultName), ReadLines(ScanLines(src), conv))
    case Failure(e) => Failure(e)
    case Success(d) => Finish(d)
  }

  // ----- the index -----

  predicate UniqueNames(params: seq<Param>) {
    forall i, j :: 0 <= i < j < |params| ==> params[i].name != params[j].name
  }

  /** The map answers every name as a linear search of the list would. */
  ghost predicate IndexAgrees(params: seq<Param>, byName: map<string, Param>) {
    forall name: string :: Find(params, name) == if name in byName then Some(byName[name]) else None
  }

  lemma {:induction false} FindSnoc(params: seq<Param>, p: Param, name: string)
    ensures Find(params + [p], name) ==
            if Find(params, name).Some? then Find(params, name) else if p.name == name then Some(p) else None
  {
    if params == [] {
      assert [] + [p] == [p];
    } else {
      assert (params + [p])[1..] == params[1..] + [p];
      FindSnoc(params[1..], p, name);
    }
  }

  lemma {:induction false} FindMember(params: seq<Param>, name: string)
    ensures Find(params, name).Some? <==> exists i :: 0 <= i < |params| && params[i].name == name
    ensures Find(params, name).Some? ==> Find(params, name).value in params && Find(params, name).value.name == name
  {
    if params != [] && params[0].name != name {
      FindMember(params[1..], name);
      if exists i :: 0 <= i < |params| && params[i].name == name {
        var i :| 0 <= i < |params| && params[i].name == name;
        assert params[1..][i - 1].name == name;
      }
    }
  }

  lemma IndexSnoc(params: seq<Param>, byName: map<string, Param>, p: Param)
    requires IndexAgrees(params, byName) && UniqueNames(params) && p.name !in byName
    ensures IndexAgrees(params + [p], byName[p.name := p]) && UniqueNames(params + [p])
  {
    forall name: string
      ensures Find(params + [p], name) ==
              if name in byName[p.name := p] then Some(byName[p.name := p][name]) else None
    {
      FindSnoc(params, p, name);
    }
    FindMember(params, p.name);
  }

  // ----- the parser -----

  /** Reads a file. The outcome is the one the lines denote, and the index of a query always
      agrees with a linear search of its uniquely named parameters. */
  method ParseSQLFile(defaultName: string, src: string, conv: Strconv) returns (r: Result<Query>)
    ensures match DeclaredBy(defaultName, src, conv)
            case Failure(e) => r == Failure(e)
            case Success(d) => r.Success? && r.value.decl == d && r.value.columns == {}
    ensures r.Success? ==> IndexAgrees(r.value.decl.params, r.value.byName) && UniqueNames(r.value.decl.params)
  {
    var d := Start(defaultName);
    var byName: map<string, Param> := map[];
    var lines := ScanLines(src);
    ghost var read := ReadLines(lines, conv);
    var i := 0;
    assert read[0..] == read;
    while i < |lines|
      invariant 0 <= i <= |lines|
      invariant Steps(d, read[i..]) == Steps(Start(defaultName), read)
      invariant IndexAgrees(d.params, byName) && UniqueNames(d.params)
    {
      assert read[i..][1..] == read[i + 1..];
      var outcome;
      outcome, byName := ParseLine(d, byName, lines[i], conv);
      if outcome.Failure? {
        return Failure(outcome.error);
      }
      d := outcome.value;
      i := i + 1;
    }
    d := d.(sql := Trim(d.sql));
    if d.sql == "" {
      return Failure(NoStatement);
    }
    if d.db == "" {
      return Failure(NoDatabase);
    }
    return Success(Query(d, byName, {}));
  }

  /** The loop body: a line of the statement, or one directive. */
  method ParseLine(d: Declared, index: map<string, Param>, line: string, conv: Strconv)
    returns (r: Result<Declared>, byName: map<string, Param>)
    requires IndexAgrees(d.params, index) && UniqueNames(d.params)
    ensures r == Step(d, ReadLine(line, conv))
    ensures r.Success? ==> IndexAgrees(r.value.params, byName) && UniqueNames(r.value.params)
  {
    byName := index;
    var directive := SplitDirective(line);
    if directive.None? {
      return Success(d.(sql := d.sql + line + "\n")), byName;
    }
    r, byName := ParseDirective(d, index, ReadDirective(directive.value.0), directive.value.1, conv);
  }

  /** The switch on the directive. */
  method ParseDirective(d: Declared, index: map<string, Param>, kind: DirectiveKind, rest: string, conv: Strconv)
    returns (r: Result<Declared>, byName: map<string, Param>)
    requires IndexAgrees(d.params, index) && UniqueNames(d.params)
    ensures r == Step(d, Directed(kind, rest, conv))
    ensures r.Success? ==> IndexAgrees(r.value.params, byName) && UniqueNames(r.value.params)
  {
    byName := index;
    if kind == DParam {
      var parsed := ParseParam(rest, conv);
      DirectedParam(rest, conv);
      r, byName := DeclareParam(d, index, parsed);
    } else {
      r := ApplyPlain(d, kind, rest);
    }
  }

  /** The directives other than @param. */
  method ApplyPlain(d: Declared, kind: DirectiveKind, rest: string) returns (r: Result<Declared>)
    requires kind != DParam
    ensures forall conv :: r == Step(d, Directed(kind, rest, conv))
    ensures r.Success? ==> r.value.params == d.params
  {
    match kind
    case DName =>
      r := if rest == "" then Failure(NoName) else Success(d.(name := rest));
    case DDatabase =>
      r := if rest == "" then Failure(NoDatabase) else Success(d.(db := rest));
    case DDescription =>
      r := Success(d.(desc := rest));
    case DSingular =>
      r := Success(d.(singular := true));
    case DUnknown =>
      r := Failure(UnknownDirective);
  }

  /** Checks for a duplicate in the index and enters the parameter into list and index. */
  method DeclareParam(d: Declared, index: map<string, Param>, parsed: Result<Param>)
    returns (r: Result<Declared>, byName: map<string, Param>)
    requires IndexAgrees(d.params, index) && UniqueNames(d.params)
    ensures r == Step(d, Declare(parsed))
    ensures r.Success? ==> IndexAgrees(r.value.params, byName) && UniqueNames(r.value.params)
  {
    byName := index;
    if parsed.Failure? {
      return Failure(parsed.error), byName;
    }
    var p := parsed.value;
    if p.name in byName {
      return Failure(DuplicateParam), byName;
    }
    IndexSnoc(d.params, byName, p);
    byName := byName[p.name := p];
    r := Success(d.(params := d.params + [p]));
  }

  // ----- the body is what is left when directives are taken out -----

  function BodyText(lines: seq<Line>): string {
    if lines == [] then ""
    else (if lines[0].Body? then lines[0].text + "\n" else "") + BodyText(lines[1..])
  }

  /** The parameters declared by the lines, in order. */
  function DeclaredParams(lines: seq<Line>): seq<Param> {
    if lines == [] then []
    else
      (if lines[0].Declare? && lines[0].parsed.Success? then [lines[0].parsed.value] else [])
      + DeclaredParams(lines[1..])
  }

  lemma StepBody(d: Declared, line: Line, text: string)
    requires Step(d, line).Success?
    ensures Step(d, line).value.sql + text == d.sql + ((if line.Body? then line.text + "\n" else "") + text)
  {
    if line.Body? {
      assert d.sql + (line.text + "\n" + text) == (d.sql + line.text + "\n") + text;
    } else {
      assert "" + text == text;
    }
  }

  lemma StepDeclares(d: Declared, line: Line, more: seq<Param>)
    requires Step(d, line).Success?
    ensures Step(d, line).value.params + more ==
            d.params + ((if line.Declare? && line.parsed.Success? then [line.parsed.value] else []) + more)
  {
    if line.Declare? {
      assert d.params + ([line.parsed.value] + more) == (d.params + [line.parsed.value]) + more;
    } else {
      assert [] + more == more;
    }
  }

  /** Directives may stand anywhere: the statement is the other lines, in order, and the
      parameters are the declared ones, in order. */
  lemma {:induction false} BodyIsTheRest(d: Declared, lines: seq<Line>)
    requires Steps(d, lines).Success?
    ensures Steps(d, lines).value.sql == d.sql + BodyText(lines)
    ensures Steps(d, lines).value.params == d.params + DeclaredParams(lines)
    decreases |lines|
  {
    if lines == [] {
      assert d.sql + "" == d.sql && d.params + [] == d.params;
    } else {
      BodyIsTheRest(Step(d, lines[0]).value, lines[1..]);
      StepBody(d, lines[0], BodyText(lines[1..]));
      StepDeclares(d, lines[0], DeclaredParams(lines[1..]));
    }
  }

  lemma {:induction false} StepsUnique(d: Declared, lines: seq<Line>)
    requires Steps(d, lines).Success? && UniqueNames(d.params)
    ensures UniqueNames(Steps(d, lines).value.params)
    decreases |lines|
  {
    if lines != [] {
      if lines[0].Declare? {
        FindMember(d.params, lines[0].parsed.value.name);
      }
      StepsUnique(Step(d, lines[0]).value, lines[1..]);
    }
  }

  lemma {:induction false} DeclaredWellFormed(lines: seq<string>, conv: Strconv)
    ensures forall p :: p in DeclaredParams(ReadLines(lines, conv)) ==> Params.WellFormed(p)
  {
    if lines != [] {
      ReadLinesCons(lines[0], lines[1..], conv);
      assert lines == [lines[0]] + lines[1..];
      DeclaredWellFormed(lines[1..], conv);
      var first := ReadLine(lines[0], conv);
      if first.Declare? && first.parsed.Success? {
        ReadWellFormed(lines[0], conv);
      }
      assert ReadLines(lines, conv)[1..] == ReadLines(lines[1..], conv);
    }
  }

  lemma ReadWellFormed(line: string, conv: Strconv)
    requires ReadLine(line, conv).Declare? && ReadLine(line, conv).parsed.Success?
    ensures Params.WellFormed(ReadLine(line, conv).parsed.value)
  {
    var (word, rest) := DirectiveOf(line).value;
    DirectedWellFormed(ReadDirective(word), rest, conv);
  }

  lemma DirectedWellFormed(kind: DirectiveKind, rest: string, conv: Strconv)
    requires Directed(kind, rest, conv).Declare? && Directed(kind, rest, conv).parsed.Success?
    ensures Params.WellFormed(Directed(kind, rest, conv).parsed.value)
  {
    ParsedParam(rest, conv);
  }

  /** The parameters of every file that parses are well formed, in particular a default is a list
      exactly for a list type, and their names are unique. */
  lemma ParsedParams(defaultName: string, src: string, conv: Strconv)
    requires DeclaredBy(defaultName, src, conv).Success?
    ensures var params := DeclaredBy(defaultName, src, conv).value.params;
            UniqueNames(params) && forall p :: p in params ==> Params.WellFormed(p)
  {
    var lines := ReadLines(ScanLines(src), conv);
    StepsUnique(Start(defaultName), lines);
    BodyIsTheRest(Start(defaultName), lines);
    DeclaredWellFormed(ScanLines(src), conv);
    assert [] + DeclaredParams(lines) == DeclaredParams(lines);
  }

  // ----- printing -----

  function PrintDirective(kind: DirectiveKind, body: string): string {
    "--" + (" " + DirectiveWord(kind) + Tail(body))
  }

  function DirectiveLine(kind: DirectiveKind, body: string, rest: string): string {
    PrintDirective(kind, body) + ("\n" + rest)
  }

  function PrintParams(params: seq<Param>, rest: string, conv: Strconv): string {
    if params == [] then rest
    else DirectiveLine(DParam, PrintParam(params[0], conv), PrintParams(params[1..], rest, conv))
  }

  function PrintSingular(d: Declared, rest: string): string {
    if d.singular then DirectiveLine(DSingular, "", rest) else rest
  }

  function PrintDesc(d: Declared, rest: string): string {
    if d.desc == "" then rest else DirectiveLine(DDescription, d.desc, rest)
  }

  function PrintNames(d: Declared, rest: string): string {
    DirectiveLine(DName, d.name, DirectiveLine(DDatabase, d.db, rest))
  }

  function PrintQuery(d: Declared, conv: Strconv): string {
    PrintNames(d, PrintDesc(d, PrintSingular(d, PrintParams(d.params, d.sql, conv))))
  }

  predicate OneLine(s: string) { Trimmed(s) && '\n' !in s }

  /** A parameter that its own declaration line gives back. */
  predicate Printable(p: Param, conv: Strconv) {
    && Params.WellFormed(p)
    && (p.required || p.hasDefault || PlainDesc(p.desc))
    && '\n' !in PrintParam(p, conv)
  }

  predicate AllPrintable(params: seq<Param>, conv: Strconv) {
    forall p :: p in params ==> Printable(p, conv)
  }

  predicate WellFormed(d: Declared, conv: Strconv) {
    && OneLine(d.name) && d.name != "" && OneLine(d.db) && d.db != "" && OneLine(d.desc)
    && AllPrintable(d.params, conv)
    && UniqueNames(d.params)
    && d.sql != "" && Trimmed(d.sql)
    && forall line :: line in ScanLines(d.sql) ==> DirectiveOf(line).None?
  }

  // ----- round trip -----

  lemma AtWordPrinted(w: string, body: string)
    requires w != "" && w[0] == '@' && Trimmed(body)
    requires forall k :: 0 <= k < |w| ==> WordChar(w[k])
    ensures AtWord(w + Tail(body)) == Some((w, body))
  {
    TrimTail(body);
    LexWordIs("", w, Tail(body));
    assert "" + w + Tail(body) == w + Tail(body);
  }

  lemma CommentPrinted(text: string)
    requires text != "" && Trimmed(text)
    ensures CommentOf("--" + (" " + text)) == Some(text)
  {
    var line := "--" + (" " + text);
    assert line[0] == '-' && line[|line| - 1] == text[|text| - 1];
    TrimBetween("", line, "");
    assert "" + line + "" == line;
    assert line[..2] == "--" && line[2..] == " " + text + "";
    TrimBetween(" ", text, "");
  }

  lemma LettersAreWord(w: string)
    requires forall k :: 0 <= k < |w| ==> w[k] == '@' || 'a' <= w[k] <= 'z'
    ensures Trimmed(w) && forall k :: 0 <= k < |w| ==> WordChar(w[k])
  {
    forall k | 0 <= k < |w|
      ensures WordChar(w[k])
    {
      LetterIsWord(w[k]);
    }
  }

  lemma LetterIsWord(c: char)
    requires c == '@' || 'a' <= c <= 'z'
    ensures WordChar(c)
  {
  }

  lemma DirectivePrinted(kind: DirectiveKind, body: string)
    requires Trimmed(body)
    ensures DirectiveOf(PrintDirective(kind, body)) == Some((DirectiveWord(kind), body))
  {
    var w := DirectiveWord(kind);
    var text := w + Tail(body);
    DirectiveWordShape(kind);
    LettersAreWord(w);
    AtWordPrinted(w, body);
    TextTrimmed(w, body);
    CommentPrinted(text);
    Assoc(" ", w, Tail(body));
  }

  lemma TextTrimmed(w: string, body: string)
    requires w != "" && Trimmed(w) && Trimmed(body)
    ensures Trimmed(w + Tail(body))
  {
    var text := w + Tail(body);
    assert text[0] == w[0] && text[|text| - 1] == if body == "" then w[|w| - 1] else body[|body| - 1];
  }

  lemma PrintDirectiveKept(kind: DirectiveKind, body: string)
    requires Trimmed(body)
    ensures DropReturn(PrintDirective(kind, body)) == PrintDirective(kind, body)
  {
    var w, line := DirectiveWord(kind), PrintDirective(kind, body);
    DirectiveWordShape(kind);
    assert line[|line| - 1] == if body == "" then w[|w| - 1] else body[|body| - 1];
  }

  lemma PrintDirectiveOneLine(kind: DirectiveKind, body: string)
    requires '\n' !in body
    ensures '\n' !in PrintDirective(kind, body)
  {
    DirectiveWordShape(kind);
  }

  function ReadText(text: string, conv: Strconv): seq<Line> {
    ReadLines(ScanLines(text), conv)
  }

  lemma ReadLinesCons(line: string, lines: seq<string>, conv: Strconv)
    ensures ReadLines([line] + lines, conv) == [ReadLine(line, conv)] + ReadLines(lines, conv)
  {
  }

  lemma ReadLinePrinted(kind: DirectiveKind, body: string, conv: Strconv)
    requires Trimmed(body)
    ensures ReadLine(PrintDirective(kind, body), conv) == Directed(kind, body, conv)
  {
    DirectivePrinted(kind, body);
    DirectiveWordRead(kind);
  }

  lemma ReadDirectiveLine(kind: DirectiveKind, body: string, rest: string, conv: Strconv)
    requires OneLine(body)
    ensures ReadText(DirectiveLine(kind, body, rest), conv) == [Directed(kind, body, conv)] + ReadText(rest, conv)
  {
    var line := PrintDirective(kind, body);
    PrintDirectiveOneLine(kind, body);
    PrintDirectiveKept(kind, body);
    ScanLinesCons(line, rest);
    ReadLinesCons(line, ScanLines(rest), conv);
    ReadLinePrinted(kind, body, conv);
  }

  lemma PrintedParamTrimmed(p: Param, conv: Strconv)
    requires Params.WellFormed(p)
    ensures Trimmed(PrintParam(p, conv))
  {
    var s, clause := PrintParam(p, conv), PrintClause(p, conv);
    TypeNameLowercase(p.ptype);
    assert IdentChar(s[0], true);
    if clause == "" {
      assert s[|s| - 1] == TypeName(p.ptype)[|TypeName(p.ptype)| - 1];
    } else {
      assert s[|s| - 1] == clause[|clause| - 1];
      if p.desc != "" {
        assert clause[|clause| - 1] == p.desc[|p.desc| - 1];
      }
    }
  }

  lemma NotDeclared(declared: seq<Param>, params: seq<Param>)
    requires UniqueNames(declared + params) && params != []
    ensures Find(declared, params[0].name).None?
  {
    var all := declared + params;
    FindMember(declared, params[0].name);
    forall i | 0 <= i < |declared|
      ensures declared[i].name != params[0].name
    {
      assert all[i] == declared[i] && all[|declared|] == params[0];
    }
  }

  function DeclareAll(params: seq<Param>): (r: seq<Line>)
    ensures |r| == |params|
  {
    if params == [] then [] else [Declare(Success(params[0]))] + DeclareAll(params[1..])
  }

  lemma DirectedParam(rest: string, conv: Strconv)
    ensures Directed(DParam, rest, conv) == Declare(ParamOf(rest, conv))
  {
  }

  lemma ReadParam(p: Param, rest: string, conv: Strconv)
    requires Faithful(conv) && Printable(p, conv)
    ensures ReadText(DirectiveLine(DParam, PrintParam(p, conv), rest), conv) ==
            [Declare(Success(p))] + ReadText(rest, conv)
  {
    var body := PrintParam(p, conv);
    assert Directed(DParam, body, conv) == Declare(Success(p)) by {
      ParamRoundTrip(p, conv);
      DirectedParam(body, conv);
    }
    PrintedParamTrimmed(p, conv);
    ReadDirectiveLine(DParam, body, rest, conv);
  }

  lemma AllPrintableSplit(params: seq<Param>, conv: Strconv)
    requires params != [] && AllPrintable(params, conv)
    ensures Printable(params[0], conv) && AllPrintable(params[1..], conv)
  {
  }

  lemma LinesThen(x: Line, a: seq<Line>, b: seq<Line>)
    ensures [x] + (a + b) == ([x] + a) + b
  {
  }

  lemma {:induction false} ReadParams(params: seq<Param>, rest: string, conv: Strconv)
    requires Faithful(conv) && AllPrintable(params, conv)
    ensures ReadText(PrintParams(params, rest, conv), conv) == DeclareAll(params) + ReadText(rest, conv)
    decreases |params|
  {
    if params == [] {
      assert [] + ReadText(rest, conv) == ReadText(rest, conv);
    } else {
      AllPrintableSplit(params, conv);
      ReadParams(params[1..], rest, conv);
      ReadParam(params[0], PrintParams(params[1..], rest, conv), conv);
      LinesThen(Declare(Success(params[0])), DeclareAll(params[1..]), ReadText(rest, conv));
    }
  }

  function Bodies(lines: seq<string>): (r: seq<Line>)
    ensures |r| == |lines| && forall k :: 0 <= k < |r| ==> r[k] == Body(lines[k])
  {
    seq(|lines|, k requires 0 <= k < |lines| => Body(lines[k]))
  }

  lemma ReadBody(sql: string, conv: Strconv)
    requires forall line :: line in ScanLines(sql) ==> DirectiveOf(line).None?
    ensures ReadText(sql, conv) == Bodies(ScanLines(sql))
  {
    var lines := ScanLines(sql);
    forall k | 0 <= k < |lines|
      ensures ReadLine(lines[k], conv) == Body(lines[k])
    {
      assert lines[k] in lines;
    }
  }

  // ----- running the lines -----

  lemma {:induction false} StepsParams(d: Declared, params: seq<Param>, rest: seq<Line>)
    requires UniqueNames(d.params + params)
    ensures Steps(d, DeclareAll(params) + rest) == Steps(d.(params := d.params + params), rest)
    decreases |params|
  {
    if params == [] {
      assert d.params + [] == d.params && [] + rest == rest;
    } else {
      var p := params[0];
      NotDeclared(d.params, params);
      var more := DeclareAll(params[1..]) + rest;
      assert DeclareAll(params) + rest == [Declare(Success(p))] + more;
      StepsCons(d, Declare(Success(p)), more);
      assert d.params + params == (d.params + [p]) + params[1..];
      StepsParams(d.(params := d.params + [p]), params[1..], rest);
    }
  }

  lemma {:induction false} StepsBody(d: Declared, lines: seq<string>)
    ensures Steps(d, Bodies(lines)) == Success(d.(sql := d.sql + Unlines(lines)))
    decreases |lines|
  {
    if lines == [] {
      assert d.sql + "" == d.sql;
    } else {
      var next := d.(sql := d.sql + lines[0] + "\n");
      assert Bodies(lines)[1..] == Bodies(lines[1..]);
      StepsBody(next, lines[1..]);
      assert next.sql + Unlines(lines[1..]) == d.sql + (lines[0] + "\n" + Unlines(lines[1..]));
    }
  }

  lemma StepsCons(d: Declared, line: Line, rest: seq<Line>)
    ensures Steps(d, [line] + rest) ==
            if Step(d, line).Failure? then Step(d, line) else Steps(Step(d, line).value, rest)
  {
    assert ([line] + rest)[1..] == rest;
  }

  lemma FinishBody(d: Declared, sql: string)
    requires sql != "" && Trimmed(sql) && d.db != "" && d.sql == sql + "\n"
    ensures Finish(d) == Success(d.(sql := sql))
  {
    TrimBetween("", sql, "\n");
    assert "" + sql + "\n" == sql + "\n";
  }

  /** A shorter body does not come out as long. */
  lemma FinishShorter(d: Declared, sql: string)
    requires sql != "" && d.sql != "" && d.sql[|d.sql| - 1] == '\n' && |d.sql| <= |sql|
    ensures Finish(d) != Success(d.(sql := sql))
  {
    var l, r := TrimSplits(d.sql);
    var t := Trim(d.sql);
    assert t != "" ==> (l + t)[|l + t| - 1] == t[|t| - 1];
    assert r == "" ==> d.sql == l + t;
  }

  lemma UnlinesEnds(lines: seq<string>)
    requires lines != []
    ensures var t := Unlines(lines); t != "" && t[|t| - 1] == '\n'
  {
    if |lines| > 1 {
      UnlinesEnds(lines[1..]);
    }
  }

  // The header's lines, as printed and as they take effect.

  function SingularThen(d: Declared, rest: seq<Line>): seq<Line> {
    if d.singular then [Singular] + rest else rest
  }

  function DescThen(d: Declared, rest: seq<Line>): seq<Line> {
    if d.desc == "" then rest else [Description(d.desc)] + rest
  }

  function NamesThen(d: Declared, rest: seq<Line>): seq<Line> {
    [Name(d.name)] + ([Database(d.db)] + rest)
  }

  lemma ReadSingular(d: Declared, rest: string, conv: Strconv)
    ensures ReadText(PrintSingular(d, rest), conv) == SingularThen(d, ReadText(rest, conv))
  {
    assert Directed(DSingular, "", conv) == Singular;
    ReadDirectiveLine(DSingular, "", rest, conv);
  }

  lemma ReadDesc(d: Declared, rest: string, conv: Strconv)
    requires OneLine(d.desc)
    ensures ReadText(PrintDesc(d, rest), conv) == DescThen(d, ReadText(rest, conv))
  {
    ReadDirectiveLine(DDescription, d.desc, rest, conv);
  }

  lemma ReadNames(d: Declared, rest: string, conv: Strconv)
    requires OneLine(d.name) && OneLine(d.db)
    ensures ReadText(PrintNames(d, rest), conv) == NamesThen(d, ReadText(rest, conv))
  {
    ReadDirectiveLine(DName, d.name, DirectiveLine(DDatabase, d.db, rest), conv);
    ReadDirectiveLine(DDatabase, d.db, rest, conv);
  }

  lemma StepsSingular(d0: Declared, d: Declared, rest: seq<Line>)
    requires !d0.singular
    ensures Steps(d0, SingularThen(d, rest)) == Steps(d0.(singular := d.singular), rest)
  {
    StepsCons(d0, Singular, rest);
  }

  lemma StepsDesc(d0: Declared, d: Declared, rest: seq<Line>)
    requires d0.desc == ""
    ensures Steps(d0, DescThen(d, rest)) == Steps(d0.(desc := d.desc), rest)
  {
    StepsCons(d0, Description(d.desc), rest);
  }

  lemma StepsNames(d0: Declared, d: Declared, rest: seq<Line>)
    requires d.name != "" && d.db != ""
    ensures Steps(d0, NamesThen(d, rest)) == Steps(d0.(name := d.name, db := d.db), rest)
  {
    StepsCons(d0, Name(d.name), [Database(d.db)] + rest);
    StepsCons(d0.(name := d.name), Database(d.db), rest);
  }

  lemma StepsHeader(defaultName: string, d: Declared, rest: seq<Line>)
    requires d.name != "" && d.db != ""
    ensures Steps(Start(defaultName), NamesThen(d, DescThen(d, SingularThen(d, rest)))) ==
            Steps(d.(params := [], sql := ""), rest)
  {
    var d2 := Declared(d.name, d.db, "", false, [], "");
    StepsNames(Start(defaultName), d, DescThen(d, SingularThen(d, rest)));
    StepsDesc(d2, d, SingularThen(d, rest));
    StepsSingular(d2.(desc := d.desc), d, rest);
  }

  lemma StepsContents(header: Declared, params: seq<Param>, sql: string)
    requires UniqueNames(params) && header.params == [] && header.sql == ""
    ensures Steps(header, DeclareAll(params) + Bodies(ScanLines(sql))) ==
            Success(header.(params := params, sql := Unlines(ScanLines(sql))))
  {
    assert [] + params == params;
    StepsParams(header, params, Bodies(ScanLines(sql)));
    StepsBody(header.(params := params), ScanLines(sql));
    assert "" + Unlines(ScanLines(sql)) == Unlines(ScanLines(sql));
  }

  lemma ReadQuery(d: Declared, conv: Strconv)
    requires WellFormed(d, conv) && Faithful(conv)
    ensures ReadText(PrintQuery(d, conv), conv) ==
            NamesThen(d, DescThen(d, SingularThen(d, DeclareAll(d.params) + Bodies(ScanLines(d.sql)))))
  {
    var params := PrintParams(d.params, d.sql, conv);
    ReadNames(d, PrintDesc(d, PrintSingular(d, params)), conv);
    ReadDesc(d, PrintSingular(d, params), conv);
    ReadSingular(d, params, conv);
    ReadParams(d.params, d.sql, conv);
    ReadBody(d.sql, conv);
  }

  /** A query printed as directive lines and a body is read back, under any default name, if and
      only if no line of its body ends in a carriage return. */
  lemma QueryRoundTrip(defaultName: string, d: Declared, conv: Strconv)
    requires WellFormed(d, conv) && Faithful(conv)
    ensures DeclaredBy(defaultName, PrintQuery(d, conv), conv) == Success(d) <==> NoReturns(d.sql)
  {
    var body := d.(sql := Unlines(ScanLines(d.sql)));
    ReadQuery(d, conv);
    StepsHeader(defaultName, d, DeclareAll(d.params) + Bodies(ScanLines(d.sql)));
    StepsContents(d.(params := [], sql := ""), d.params, d.sql);
    assert DeclaredBy(defaultName, PrintQuery(d, conv), conv) == Finish(body);
    UnlinesScan(d.sql);
    if NoReturns(d.sql) {
      FinishBody(body, d.sql);
    } else {
      ScanLinesStep(d.sql);
      UnlinesEnds(ScanLines(d.sql));
      FinishShorter(body, d.sql);
    }
  }
}
