/** The recursive-descent parser for @param declarations (parse.go). */
module Params {
  import opened Text
  import opened Values
  import opened Directive

  datatype Param = Param(name: string, ptype: ParamType, required: bool, default: Val, hasDefault: bool, desc: string)

  function ParseType(s: string): Option<ParamType> {
    ReadType(Lower(s))
  }

  function ReadType(word: string): Option<ParamType> {
    if word == "text" || word == "string" || word == "str" then Some(ParamType.Text)
    else if word == "int" || word == "integer" then Some(Int)
    else if word == "float" || word == "real" || word == "number" then Some(Float)
    else if word == "bool" || word == "boolean" then Some(Bool)
    else if word == "text[]" || word == "string[]" || word == "str[]" then Some(TextList)
    else if word == "int[]" || word == "integer[]" then Some(IntList)
    else if word == "float[]" || word == "real[]" || word == "number[]" then Some(FloatList)
    else None
  }

  // ----- what a declaration means -----

  /** Items up to the first token that continues no list, and the text from there on. */
  function ItemsOf(s: string, elem: ParamType, conv: Strconv): (r: Result<(seq<Val>, string)>)
    decreases |s|
  {
    match Lex(s)
    case Unterminated => Failure(UnterminatedQuote)
    case Lexeme(kind, text, rest) =>
      if kind != Word && kind != Quoted then Success(([], s))
      else
        match Coerce(text, elem, conv)
        case Failure(e) => Failure(e)
        case Success(v) =>
          match Lex(rest)
          case Unterminated => Failure(UnterminatedQuote)
          case Lexeme(sep, _, more) =>
            if sep != Comma then Success(([v], rest))
            else WithHead(v, ItemsOf(more, elem, conv))
  }

  function WithHead(v: Val, r: Result<(seq<Val>, string)>): Result<(seq<Val>, string)> {
    match r
    case Failure(e) => Failure(e)
    case Success((vals, rest)) => Success(([v] + vals, rest))
  }

  function ScalarOf(s: string, t: ParamType, conv: Strconv): Result<(Val, string)> {
    match Lex(s)
    case Unterminated => Failure(UnterminatedQuote)
    case Lexeme(kind, text, rest) =>
      if kind != Word && kind != Quoted then Failure(BadDefault)
      else
        match Coerce(text, t, conv)
        case Failure(e) => Failure(e)
        case Success(v) => Success((v, rest))
  }

  function ListDefaultOf(s: string, t: ParamType, conv: Strconv): Result<(Val, string)> {
    match Lex(s)
    case Unterminated => Failure(UnterminatedQuote)
    case Lexeme(kind, _, rest) =>
      match ItemsOf(if kind == LParen then rest else s, t.Elem(), conv)
      case Failure(e) => Failure(e)
      case Success((vals, after)) =>
        if kind != LParen then Success((VList(vals), after))
        else
          match Lex(after)
          case Unterminated => Failure(UnterminatedQuote)
          case Lexeme(close, _, tail) =>
            if close == RParen then Success((VList(vals), tail)) else Failure(BadDefault)
  }

  function DefaultOf(s: string, t: ParamType, conv: Strconv): Result<(Val, string)> {
    if t.IsList() then ListDefaultOf(s, t, conv) else ScalarOf(s, t, conv)
  }

  /** After name and type: the optional clause, then the description. */
  function ClauseOf(name: string, t: ParamType, s: string, conv: Strconv): Result<Param> {
    match Lex(s)
    case Unterminated => Failure(UnterminatedQuote)
    case Lexeme(kind, text, rest) =>
      if kind == Word && text == "required" then Success(Param(name, t, true, VNull, false, Trim(rest)))
      else if kind == Equals then AssignedOf(name, t, rest, conv)
      else Success(Param(name, t, false, VNull, false, Trim(s)))
  }

  function TypedOf(name: string, s: string, conv: Strconv): Result<Param> {
    match Lex(s)
    case Unterminated => Failure(UnterminatedQuote)
    case Lexeme(kind, text, rest) =>
      if kind == Word && ParseType(text).Some? then ClauseOf(name, ParseType(text).value, rest, conv)
      else ClauseOf(name, ParamType.Text, s, conv)
  }

  function ParamOf(s: string, conv: Strconv): Result<Param> {
    match Lex(s)
    case Unterminated => Failure(UnterminatedQuote)
    case Lexeme(kind, text, rest) =>
      if kind == EOF then Failure(NoName)
      else if kind != Word || !ValidIdent(text) then Failure(BadParamName)
      else TypedOf(text, rest, conv)
  }

  // ----- the parser -----

  method ParseParam(s: string, conv: Strconv) returns (r: Result<Param>)
    ensures r == ParamOf(s, conv)
  {
    var lx := new Lexer(s);
    assert lx.Remaining() == s;
    var nameTok := lx.Next();
    if nameTok.Failure? {
      return Failure(nameTok.error);
    }
    if nameTok.value.kind == EOF {
      return Failure(NoName);
    }
    if nameTok.value.kind != Word || !ValidIdent(nameTok.value.text) {
      return Failure(BadParamName);
    }
    var p := Param(nameTok.value.text, ParamType.Text, false, VNull, false, "");
    var tok := lx.Peek();
    if tok.Failure? {
      return Failure(tok.error);
    }
    if tok.value.kind == Word {
      var t := ParseType(tok.value.text);
      if t.Some? {
        p := p.(ptype := t.value);
        var _ := lx.Next();
      }
    }
    r := ParseClause(lx, p, conv);
  }

  /** The `required` or `= default` clause, then the description. */
  method ParseClause(lx: Lexer, p: Param, conv: Strconv) returns (r: Result<Param>)
    requires lx.Valid() && p == Param(p.name, p.ptype, false, VNull, false, "")
    modifies lx
    ensures r == ClauseOf(p.name, p.ptype, old(lx.Remaining()), conv)
  {
    ghost var s := lx.Remaining();
    var tok := lx.Peek();
    if tok.Failure? {
      return Failure(tok.error);
    }
    if tok.value.kind == Word && tok.value.text == "required" {
      var _ := lx.Next();
      assert Lex(s) == Lexeme(Word, "required", lx.Remaining());
      return Success(p.(required := true, desc := lx.Rest()));
    } else if tok.value.kind == Equals {
      var _ := lx.Next();
      assert Lex(s) == Lexeme(Equals, tok.value.text, lx.Remaining());
      r := ParseDefaultClause(lx, p, conv);
    } else {
      return Success(p.(desc := lx.Rest()));
    }
  }

  /** What an `=` makes of the rest: the default and then the description. */
  function AssignedOf(name: string, t: ParamType, s: string, conv: Strconv): Result<Param> {
    match DefaultOf(s, t, conv)
    case Failure(e) => Failure(e)
    case Success((v, after)) => Success(Param(name, t, false, v, true, Trim(after)))
  }

  method ParseDefaultClause(lx: Lexer, p: Param, conv: Strconv) returns (r: Result<Param>)
    requires lx.Valid() && p == Param(p.name, p.ptype, false, VNull, false, "")
    modifies lx
    ensures r == AssignedOf(p.name, p.ptype, old(lx.Remaining()), conv)
  {
    var v := ParseDefault(lx, p.ptype, conv);
    if v.Failure? {
      return Failure(v.error);
    }
    return Success(p.(default := v.value, hasDefault := true, desc := lx.Rest()));
  }

  method ParseDefault(lx: Lexer, t: ParamType, conv: Strconv) returns (r: Result<Val>)
    requires lx.Valid()
    modifies lx
    ensures lx.Valid()
    ensures match DefaultOf(old(lx.Remaining()), t, conv)
            case Failure(e) => r == Failure(e)
            case Success((v, rest)) => r == Success(v) && lx.Remaining() == rest
  {
    if t.IsList() {
      r := ParseListDefault(lx, t, conv);
    } else {
      r := ParseScalarDefault(lx, t, conv);
    }
  }

  method ParseScalarDefault(lx: Lexer, t: ParamType, conv: Strconv) returns (r: Result<Val>)
    requires lx.Valid()
    modifies lx
    ensures lx.Valid()
    ensures match ScalarOf(old(lx.Remaining()), t, conv)
            case Failure(e) => r == Failure(e)
            case Success((v, rest)) => r == Success(v) && lx.Remaining() == rest
  {
    var tok := lx.Next();
    if tok.Failure? {
      return Failure(tok.error);
    }
    if tok.value.kind != Word && tok.value.kind != Quoted {
      return Failure(BadDefault);
    }
    return Coerce(tok.value.text, t, conv);
  }

  /** A list default, optionally in parentheses. */
  method ParseListDefault(lx: Lexer, t: ParamType, conv: Strconv) returns (r: Result<Val>)
    requires lx.Valid()
    modifies lx
    ensures lx.Valid()
    ensures match ListDefaultOf(old(lx.Remaining()), t, conv)
            case Failure(e) => r == Failure(e)
            case Success((v, rest)) => r == Success(v) && lx.Remaining() == rest
  {
    var paren := false;
    var open := lx.Peek();
    if open.Failure? {
      return Failure(open.error);
    }
    if open.value.kind == LParen {
      paren := true;
      var _ := lx.Next();
    }
    var out := ParseItems(lx, t.Elem(), conv);
    if out.Failure? {
      return Failure(out.error);
    }
    if paren {
      var close := lx.Next();
      if close.Failure? {
        return Failure(close.error);
      }
      if close.value.kind != RParen {
        return Failure(BadDefault);
      }
    }
    return Success(VList(out.value));
  }

  function Extend(out: seq<Val>, r: Result<(seq<Val>, string)>): Result<(seq<Val>, string)> {
    match r
    case Failure(e) => Failure(e)
    case Success((vals, rest)) => Success((out + vals, rest))
  }

  lemma ExtendStep(out: seq<Val>, v: Val, r: Result<(seq<Val>, string)>)
    ensures Extend(out, WithHead(v, r)) == Extend(out + [v], r)
    ensures Extend([], r) == r
  {
    if r.Success? {
      assert out + ([v] + r.value.0) == (out + [v]) + r.value.0;
      assert [] + r.value.0 == r.value.0;
    }
  }

  /** The item loop: each pass takes one item and, if there is one, the comma after it. */
  method ParseItems(lx: Lexer, elem: ParamType, conv: Strconv) returns (r: Result<seq<Val>>)
    requires lx.Valid()
    modifies lx
    ensures lx.Valid()
    ensures match ItemsOf(old(lx.Remaining()), elem, conv)
            case Failure(e) => r == Failure(e)
            case Success((vals, rest)) => r == Success(vals) && lx.Remaining() == rest
  {
    var out: seq<Val> := [];
    ghost var whole := ItemsOf(lx.Remaining(), elem, conv);
    ExtendStep([], VNull, whole);
    while true
      invariant lx.Valid()
      invariant whole == Extend(out, ItemsOf(lx.Remaining(), elem, conv))
      decreases |lx.Remaining()|
    {
      assert out + [] == out;
      var tok := lx.Peek();
      if tok.Failure? {
        return Failure(tok.error);
      }
      if tok.value.kind != Word && tok.value.kind != Quoted {
        return Success(out);
      }
      var _ := lx.Next();
      var v := Coerce(tok.value.text, elem, conv);
      if v.Failure? {
        return Failure(v.error);
      }
      ghost var before := out;
      out := out + [v.value];
      var sep := lx.Peek();
      if sep.Failure? {
        return Failure(sep.error);
      }
      if sep.value.kind != Comma {
        return Success(out);
      }
      var _ := lx.Next();
      ExtendStep(before, v.value, ItemsOf(lx.Remaining(), elem, conv));
    }
  }

  // ----- printing -----

  function TypeName(t: ParamType): string {
    match t
    case Text => "text"
    case Int => "int"
    case Float => "float"
    case Bool => "bool"
    case TextList => "text[]"
    case IntList => "int[]"
    case FloatList => "float[]"
  }

  predicate Lowercase(s: string) {
    forall k :: 0 <= k < |s| ==> 'a' <= s[k] <= 'z' || s[k] == '[' || s[k] == ']'
  }

  lemma TypeNameLowercase(t: ParamType)
    ensures TypeName(t) != "" && Lowercase(TypeName(t))
  {
  }

  lemma LowercaseChar(c: char)
    requires 'a' <= c <= 'z' || c == '[' || c == ']'
    ensures LowerChar(c) == c && WordChar(c)
  {
  }

  lemma LowercaseWord(s: string)
    requires Lowercase(s)
    ensures Lower(s) == s && forall k :: 0 <= k < |s| ==> WordChar(s[k])
  {
    forall k | 0 <= k < |s|
      ensures LowerChar(s[k]) == s[k] && WordChar(s[k])
    {
      LowercaseChar(s[k]);
    }
    assert forall k :: 0 <= k < |s| ==> Lower(s)[k] == s[k];
  }

  lemma TypeNameRead(t: ParamType)
    ensures ReadType(TypeName(t)) == Some(t)
  {
  }

  predicate HasType(v: Val, t: ParamType) {
    match t
    case Text => v.VText?
    case Int => v.VInt? && IsInt64(v.i)
    case Float => v.VFloat?
    case Bool => v.VBool?
    case _ => v.VList? && forall k :: 0 <= k < |v.items| ==> HasScalarType(v.items[k], t.Elem())
  }

  predicate HasScalarType(v: Val, t: ParamType) {
    match t
    case Text => v.VText?
    case Int => v.VInt? && IsInt64(v.i)
    case Float => v.VFloat?
    case _ => v.VBool?
  }

  function Raw(v: Val, conv: Strconv): string {
    match v
    case VText(s) => s
    case VInt(i) => FormatInt(i)
    case VFloat(bits) => conv.formatFloat(bits)
    case VBool(b) => if b then "true" else "false"
    case _ => ""
  }

  /** Formatting a float or a boolean and reading it back is exact. */
  ghost predicate Faithful(conv: Strconv) {
    && (forall bits :: conv.parseFloat(conv.formatFloat(bits)) == Some(bits))
    && conv.parseBool("true") == Some(true) && conv.parseBool("false") == Some(false)
  }

  lemma CoerceRaw(v: Val, t: ParamType, conv: Strconv)
    requires !t.IsList() && HasScalarType(v, t) && Faithful(conv)
    ensures Coerce(Raw(v, conv), t, conv) == Success(v)
  {
    if v.VInt? {
      ParseFormatInt(v.i);
    }
  }

  function Raws(vals: seq<Val>, conv: Strconv): (r: seq<string>)
    ensures |r| == |vals|
  {
    if vals == [] then [] else [Raw(vals[0], conv)] + Raws(vals[1..], conv)
  }

  function PrintDefault(v: Val, conv: Strconv): string {
    if v.VList? then "(" + Join(QuoteAll(Raws(v.items, conv)), ",") + ")"
    else Quote(Raw(v, conv), '"')
  }

  /** The description after a separating space, if there is one. */
  function Tail(desc: string): string {
    if desc == "" then "" else " " + desc
  }

  function PrintClause(p: Param, conv: Strconv): string {
    if p.required then " " + "required" + Tail(p.desc)
    else if p.hasDefault then " " + "=" + (" " + PrintDefault(p.default, conv) + Tail(p.desc))
    else Tail(p.desc)
  }

  function PrintParam(p: Param, conv: Strconv): string {
    p.name + (" " + TypeName(p.ptype) + PrintClause(p, conv))
  }

  predicate WellFormed(p: Param) {
    && ValidIdent(p.name) && Trimmed(p.desc) && !(p.required && p.hasDefault)
    && if p.hasDefault then HasType(p.default, p.ptype) else p.default == VNull
  }

  /** A description that is not read as the start of a clause: its first token is neither
      `required` nor `=`, and is not an unterminated quote. */
  predicate PlainDesc(desc: string) {
    match Lex(desc)
    case Unterminated => false
    case Lexeme(kind, text, _) => !(kind == Word && text == "required") && kind != Equals
  }

  // ----- round trip -----

  lemma TrimTail(desc: string)
    requires Trimmed(desc)
    ensures Trim(Tail(desc)) == desc
    ensures Tail(desc) != "" ==> Tail(desc)[0] == ' '
  {
    if desc != "" {
      TrimBetween(" ", desc, "");
      assert " " + desc + "" == " " + desc;
    } else {
      TrimBetween("", "", "");
      assert "" + "" + "" == "";
    }
  }

  lemma LexTail(desc: string)
    ensures Lex(Tail(desc)) == Lex(desc)
  {
    if desc != "" {
      LexBlank(" ", desc);
    }
  }

  lemma IdentIsWord(s: string)
    requires ValidIdent(s)
    ensures forall k :: 0 <= k < |s| ==> WordChar(s[k])
  {
    forall k | 0 <= k < |s|
      ensures WordChar(s[k])
    {
      assert IdentChar(s[k], k == 0);
    }
  }

  lemma LexClose(c: char, rest: string)
    requires SymbolKind(c).Some?
    ensures Lex([c] + rest) == Lexeme(SymbolKind(c).value, [c], rest)
  {
    LexSymbol("", c, rest);
    assert "" + [c] + rest == [c] + rest;
  }

  lemma LexItem(raw: string, sep: char, rest: string)
    requires SymbolKind(sep).Some?
    ensures Lex(Quote(raw, '"') + ([sep] + rest)) == Lexeme(Quoted, raw, [sep] + rest)
    ensures Lex([sep] + rest) == Lexeme(SymbolKind(sep).value, [sep], rest)
  {
    LexQuote("", raw, '"', [sep] + rest);
    assert "" + Quote(raw, '"') + ([sep] + rest) == Quote(raw, '"') + ([sep] + rest);
    LexClose(sep, rest);
  }

  /** One printed item: a comma goes on, a closing paren ends the list. */
  lemma ItemRead(v: Val, elem: ParamType, rest: string, conv: Strconv)
    requires Coerce(Raw(v, conv), elem, conv) == Success(v)
    ensures ItemsOf(Quote(Raw(v, conv), '"') + ([','] + rest), elem, conv) == WithHead(v, ItemsOf(rest, elem, conv))
    ensures ItemsOf(Quote(Raw(v, conv), '"') + ([')'] + rest), elem, conv) == Success(([v], [')'] + rest))
    ensures ItemsOf([')'] + rest, elem, conv) == Success(([], [')'] + rest))
  {
    LexItem(Raw(v, conv), ',', rest);
    LexItem(Raw(v, conv), ')', rest);
  }

  /** The printed items followed by the text that closes the list, item by item. */
  function ItemsThen(vals: seq<Val>, close: string, conv: Strconv): string {
    if vals == [] then close
    else Quote(Raw(vals[0], conv), '"') + (if |vals| == 1 then close else [','] + ItemsThen(vals[1..], close, conv))
  }

  lemma {:induction false} JoinThen(vals: seq<Val>, close: string, conv: Strconv)
    ensures Join(QuoteAll(Raws(vals, conv)), ",") + close == ItemsThen(vals, close, conv)
  {
    if vals == [] {
      assert "" + close == close;
    } else if |vals| > 1 {
      var q, more := Quote(Raw(vals[0], conv), '"'), QuoteAll(Raws(vals[1..], conv));
      JoinCons(q, more, ",");
      Assoc(q + ",", Join(more, ","), close);
      Assoc(q, ",", ItemsThen(vals[1..], close, conv));
      JoinThen(vals[1..], close, conv);
    }
  }

  /** Every value is what its raw text converts to. */
  ghost predicate Readable(vals: seq<Val>, elem: ParamType, conv: Strconv) {
    forall v :: v in vals ==> Coerce(Raw(v, conv), elem, conv) == Success(v)
  }

  lemma {:induction false} ItemsPrinted(vals: seq<Val>, elem: ParamType, tail: string, conv: Strconv)
    requires Readable(vals, elem, conv)
    ensures ItemsOf(ItemsThen(vals, [')'] + tail, conv), elem, conv) == Success((vals, [')'] + tail))
  {
    if vals == [] {
      LexClose(')', tail);
    } else {
      var v, rest := vals[0], vals[1..];
      assert vals == [v] + rest;
      if rest == [] {
        assert vals == [v];
        ItemRead(v, elem, tail, conv);
      } else {
        ItemRead(v, elem, ItemsThen(rest, [')'] + tail, conv), conv);
        ItemsPrinted(rest, elem, tail, conv);
      }
    }
  }

  lemma AllReadable(vals: seq<Val>, elem: ParamType, conv: Strconv)
    requires Faithful(conv) && !elem.IsList()
    requires forall k :: 0 <= k < |vals| ==> HasScalarType(vals[k], elem)
    ensures Readable(vals, elem, conv)
  {
    forall v | v in vals
      ensures Coerce(Raw(v, conv), elem, conv) == Success(v)
    {
      CoerceRaw(v, elem, conv);
    }
  }

  lemma LexParens(rest: string, tail: string)
    ensures Lex(" " + ['('] + rest) == Lexeme(LParen, ['('], rest)
    ensures Lex([')'] + tail) == Lexeme(RParen, [')'], tail)
  {
    LexSymbol(" ", '(', rest);
    LexClose(')', tail);
  }

  lemma ListDefaultPrinted(vals: seq<Val>, t: ParamType, tail: string, conv: Strconv)
    requires t.IsList() && Faithful(conv)
    requires forall k :: 0 <= k < |vals| ==> HasScalarType(vals[k], t.Elem())
    ensures DefaultOf(" " + ['('] + ItemsThen(vals, [')'] + tail, conv), t, conv) == Success((VList(vals), tail))
  {
    LexParens(ItemsThen(vals, [')'] + tail, conv), tail);
    AllReadable(vals, t.Elem(), conv);
    ItemsPrinted(vals, t.Elem(), tail, conv);
  }

  lemma PrintedList(vals: seq<Val>, tail: string, conv: Strconv)
    ensures " " + PrintDefault(VList(vals), conv) + tail == " " + ['('] + ItemsThen(vals, [')'] + tail, conv)
  {
    var items := Join(QuoteAll(Raws(vals, conv)), ",");
    JoinThen(vals, [')'] + tail, conv);
    assert "(" + items + ")" + tail == ['('] + (items + ([')'] + tail));
  }

  lemma DefaultPrinted(v: Val, t: ParamType, tail: string, conv: Strconv)
    requires HasType(v, t) && Faithful(conv) && (tail != "" ==> tail[0] != '"')
    ensures DefaultOf(" " + PrintDefault(v, conv) + tail, t, conv) == Success((v, tail))
  {
    if t.IsList() {
      PrintedList(v.items, tail, conv);
      ListDefaultPrinted(v.items, t, tail, conv);
    } else {
      LexQuote(" ", Raw(v, conv), '"', tail);
      CoerceRaw(v, t, conv);
    }
  }

  lemma RequiredPrinted(name: string, t: ParamType, desc: string, conv: Strconv)
    requires Trimmed(desc)
    ensures ClauseOf(name, t, " " + "required" + Tail(desc), conv) == Success(Param(name, t, true, VNull, false, desc))
  {
    TrimTail(desc);
    LexWordIs(" ", "required", Tail(desc));
  }

  lemma DefaultClausePrinted(name: string, t: ParamType, v: Val, desc: string, conv: Strconv)
    requires Trimmed(desc) && HasType(v, t) && Faithful(conv)
    ensures ClauseOf(name, t, " " + "=" + (" " + PrintDefault(v, conv) + Tail(desc)), conv) ==
            Success(Param(name, t, false, v, true, desc))
  {
    var rest := " " + PrintDefault(v, conv) + Tail(desc);
    assert AssignedOf(name, t, rest, conv) == Success(Param(name, t, false, v, true, desc)) by {
      TrimTail(desc);
      DefaultPrinted(v, t, Tail(desc), conv);
    }
    assert " " + "=" + rest == " " + ['='] + rest;
    LexSymbol(" ", '=', rest);
  }

  lemma BareDescPrinted(name: string, t: ParamType, desc: string, conv: Strconv)
    requires Trimmed(desc)
    ensures ClauseOf(name, t, Tail(desc), conv) == Success(Param(name, t, false, VNull, false, desc)) <==> PlainDesc(desc)
  {
    TrimTail(desc);
    LexTail(desc);
    ClauseStart(name, t, Tail(desc), conv);
  }

  /** Whether a text starts a clause is decided by its first token alone. */
  lemma ClauseStart(name: string, t: ParamType, s: string, conv: Strconv)
    ensures ClauseOf(name, t, s, conv) == Success(Param(name, t, false, VNull, false, Trim(s))) <==> PlainDesc(s)
  {
    var x := Lex(s);
    if x.Lexeme? && x.kind == Equals {
      AssignedHasDefault(name, t, x.rest, conv);
    }
  }

  lemma AssignedHasDefault(name: string, t: ParamType, s: string, conv: Strconv)
    ensures AssignedOf(name, t, s, conv).Success? ==> AssignedOf(name, t, s, conv).value.hasDefault
  {
  }

  /** Past name and type, the clause comes back unless a bare description is mistaken for one. */
  lemma ClausePrinted(p: Param, conv: Strconv)
    requires WellFormed(p) && Faithful(conv)
    ensures ClauseOf(p.name, p.ptype, PrintClause(p, conv), conv) == Success(p) <==>
            p.required || p.hasDefault || PlainDesc(p.desc)
  {
    if p.required {
      RequiredPrinted(p.name, p.ptype, p.desc, conv);
    } else if p.hasDefault {
      DefaultClausePrinted(p.name, p.ptype, p.default, p.desc, conv);
    } else {
      BareDescPrinted(p.name, p.ptype, p.desc, conv);
    }
  }

  lemma ClauseBoundary(p: Param, conv: Strconv)
    ensures PrintClause(p, conv) != "" ==> PrintClause(p, conv)[0] == ' '
  {
  }

  /** The type is read as a type whatever follows it. */
  lemma TypePrinted(name: string, t: ParamType, clause: string, conv: Strconv)
    requires clause != "" ==> clause[0] == ' '
    ensures TypedOf(name, " " + TypeName(t) + clause, conv) == ClauseOf(name, t, clause, conv)
  {
    TypeNameLowercase(t);
    LowercaseWord(TypeName(t));
    LexWordIs(" ", TypeName(t), clause);
    TypeNameRead(t);
  }

  lemma NamePrinted(name: string, rest: string, conv: Strconv)
    requires ValidIdent(name) && rest != "" && rest[0] == ' '
    ensures ParamOf(name + rest, conv) == TypedOf(name, rest, conv)
  {
    IdentIsWord(name);
    LexWordIs("", name, rest);
    assert "" + name + rest == name + rest;
  }

  /** A declaration is read back exactly, whatever its default and description contain, if and
      only if it has a clause or its description cannot be mistaken for one. */
  lemma ParamRoundTrip(p: Param, conv: Strconv)
    requires WellFormed(p) && Faithful(conv)
    ensures ParamOf(PrintParam(p, conv), conv) == Success(p) <==>
            p.required || p.hasDefault || PlainDesc(p.desc)
  {
    NamePrinted(p.name, " " + TypeName(p.ptype) + PrintClause(p, conv), conv);
    ClauseBoundary(p, conv);
    TypePrinted(p.name, p.ptype, PrintClause(p, conv), conv);
    ClausePrinted(p, conv);
  }

  /** An optional parameter described as `= 5` comes back with a default instead. */
  lemma DescriptionTakenForDefault(conv: Strconv)
    requires Faithful(conv)
    ensures var p := Param("x", ParamType.Text, false, VNull, false, "= 5");
            WellFormed(p) && ParamOf(PrintParam(p, conv), conv) != Success(p)
  {
    var p := Param("x", ParamType.Text, false, VNull, false, "= 5");
    assert "= 5" == ['='] + " 5";
    LexClose('=', " 5");
    assert ValidIdent(p.name) && Trimmed(p.desc);
    ParamRoundTrip(p, conv);
  }

  // ----- whatever parses is well formed -----

  lemma CoerceTyped(raw: string, t: ParamType, conv: Strconv)
    requires !t.IsList() && Coerce(raw, t, conv).Success?
    ensures HasScalarType(Coerce(raw, t, conv).value, t) && HasType(Coerce(raw, t, conv).value, t)
  {
  }

  lemma {:induction false} ItemsTyped(s: string, elem: ParamType, conv: Strconv)
    requires !elem.IsList() && ItemsOf(s, elem, conv).Success?
    ensures var vals := ItemsOf(s, elem, conv).value.0;
            forall k :: 0 <= k < |vals| ==> HasScalarType(vals[k], elem)
    decreases |s|
  {
    var x := Lex(s);
    if x.kind == Word || x.kind == Quoted {
      CoerceTyped(x.text, elem, conv);
      if Lex(x.rest).kind == Comma {
        ItemsTyped(Lex(x.rest).rest, elem, conv);
      }
    }
  }

  /** A default is a list exactly for list types, with items of the element type. */
  lemma DefaultTyped(s: string, t: ParamType, conv: Strconv)
    requires DefaultOf(s, t, conv).Success?
    ensures HasType(DefaultOf(s, t, conv).value.0, t)
  {
    if t.IsList() {
      var x := Lex(s);
      ItemsTyped(if x.kind == LParen then x.rest else s, t.Elem(), conv);
    } else {
      CoerceTyped(Lex(s).text, t, conv);
    }
  }

  /** Trimming a text does not change its first token. */
  lemma LexTrim(s: string)
    requires Lex(s).Lexeme?
    ensures Lex(Trim(s)).Lexeme? && Lex(Trim(s)).kind == Lex(s).kind && Lex(Trim(s)).text == Lex(s).text
  {
    var x := Lex(s);
    var l, w := LexRebuilds(s);
    if x.kind == EOF {
      assert s == l + "" + "";
      TrimBetween(l, "", "");
    } else {
      SolidEnds(x, w);
      Assoc(l, w, x.rest);
      LeadingBlank(l, w + x.rest);
      assert s[Leading(s)..] == w + x.rest;
      TrimRightKeeps(w, x.rest);
      LexWritten(x, w, TrimRight(x.rest));
    }
  }

  lemma SolidEnds(x: Lexeme, w: string)
    requires x.Lexeme? && x.kind != EOF && Written(x, w)
    ensures w != "" && !IsSpace(w[0]) && !IsSpace(w[|w| - 1])
  {
    if x.kind == Word {
      assert WordChar(w[0]) && WordChar(w[|w| - 1]);
    }
  }

  /** A token stays the first one when what follows it is cut short. */
  lemma LexWritten(x: Lexeme, w: string, rest: string)
    requires x.Lexeme? && x.kind != EOF && Written(x, w) && rest <= x.rest
    ensures Lex(w + rest) == x.(rest := rest)
  {
    assert "" + w + rest == w + rest;
    if x.kind == Quoted {
      LexQuote("", x.text, w[0], rest);
    } else if x.kind == Word {
      LexWordIs("", w, rest);
    } else {
      LexSymbol("", w[0], rest);
    }
  }

  lemma ClauseWellFormed(name: string, t: ParamType, s: string, conv: Strconv)
    requires ValidIdent(name) && ClauseOf(name, t, s, conv).Success?
    ensures var p := ClauseOf(name, t, s, conv).value;
            WellFormed(p) && p.name == name && (p.required || p.hasDefault || PlainDesc(p.desc))
  {
    var x := Lex(s);
    if x.kind == Word && x.text == "required" {
      var _, _ := TrimSplits(x.rest);
    } else if x.kind == Equals {
      DefaultTyped(x.rest, t, conv);
      var _, _ := TrimSplits(DefaultOf(x.rest, t, conv).value.1);
    } else {
      var _, _ := TrimSplits(s);
      LexTrim(s);
    }
  }

  /** Every declaration that parses is well formed, and printing it parses back to it. */
  lemma ParsedParam(s: string, conv: Strconv)
    requires ParamOf(s, conv).Success?
    ensures WellFormed(ParamOf(s, conv).value)
    ensures Faithful(conv) ==> ParamOf(PrintParam(ParamOf(s, conv).value, conv), conv) == ParamOf(s, conv)
  {
    var x := Lex(s);
    var y := Lex(x.rest);
    if y.kind == Word && ParseType(y.text).Some? {
      ClauseWellFormed(x.text, ParseType(y.text).value, y.rest, conv);
    } else {
      ClauseWellFormed(x.text, ParamType.Text, x.rest, conv);
    }
    if Faithful(conv) {
      ParamRoundTrip(ParamOf(s, conv).value, conv);
    }
  }
}
