/** The tokenizer for directive comments (directive.go). */
module Directive {
  import opened Text
  import opened Values

  datatype TokenKind = EOF | Word | Quoted | Equals | Comma | LParen | RParen

  /** A lexeme with its 1-based column within the directive body. */
  datatype Token = Token(kind: TokenKind, text: string, col: nat)

  // ----- what the next token of a text is -----

  function SymbolKind(c: char): Option<TokenKind> {
    if c == '=' then Some(Equals)
    else if c == ',' then Some(Comma)
    else if c == '(' then Some(LParen)
    else if c == ')' then Some(RParen)
    else None
  }

  predicate Structural(c: char) {
    SymbolKind(c).Some? || c == '"' || c == '\''
  }

  predicate WordChar(c: char) {
    !IsSpace(c) && !Structural(c)
  }

  function WordLength(s: string): (n: nat)
    ensures n <= |s| && (forall k :: 0 <= k < n ==> WordChar(s[k])) && (n < |s| ==> !WordChar(s[n]))
  {
    if s != "" && WordChar(s[0]) then 1 + WordLength(s[1..]) else 0
  }

  /** A token's kind and text, and the text after it; or an unterminated quote. */
  datatype Lexeme = Lexeme(kind: TokenKind, text: string, rest: string) | Unterminated

  /** The token at the start of a text that does not begin with a space. */
  function LexHere(s: string): (x: Lexeme)
    ensures x.Lexeme? ==> |x.rest| <= |s|
    ensures x.Lexeme? && x.kind != EOF && (s != "" ==> !IsSpace(s[0])) ==> |x.rest| < |s|
  {
    if s == "" then Lexeme(EOF, "", "")
    else if SymbolKind(s[0]).Some? then Lexeme(SymbolKind(s[0]).value, [s[0]], s[1..])
    else if s[0] == '"' || s[0] == '\'' then
      match ScanQuoted(s[1..], s[0])
      case None => Unterminated
      case Some((text, rest)) => Lexeme(Quoted, text, rest)
    else Lexeme(Word, s[..WordLength(s)], s[WordLength(s)..])
  }

  function SkipBlank(s: string): (t: string)
    ensures |t| <= |s| && (t != "" ==> !IsSpace(t[0]))
  {
    s[Leading(s)..]
  }

  function Lex(s: string): (x: Lexeme)
    ensures x.Lexeme? ==> |x.rest| <= |s|
    ensures x.Lexeme? && x.kind != EOF ==> |x.rest| < |s|
  {
    LexHere(SkipBlank(s))
  }

  // ----- the lexer object -----

  class Lexer {
    const src: string
    var pos: nat

    ghost predicate Valid()
      reads this
    {
      pos <= |src|
    }

    constructor (src: string)
      ensures Valid() && this.src == src && pos == 0
    {
      this.src := src;
      pos := 0;
    }

    function Remaining(): string
      requires Valid()
      reads this
    {
      src[pos..]
    }

    /** The unconsumed text, trimmed. */
    function Rest(): string
      requires Valid()
      reads this
    {
      Trim(src[pos..])
    }

    method SkipSpace()
      requires Valid()
      modifies this`pos
      ensures Valid() && pos == old(pos) + Leading(old(Remaining()))
    {
      while pos < |src|
        invariant old(pos) <= pos <= |src|
        invariant pos + Leading(src[pos..]) == old(pos) + Leading(old(Remaining()))
      {
        if !IsSpace(src[pos]) {
          return;
        }
        assert src[pos..][1..] == src[pos + 1..];
        pos := pos + 1;
      }
    }

    /** Consumes the next token: the one Lex finds in the remaining text, with the column of
        its first character. */
    method Next() returns (r: Result<Token>)
      requires Valid()
      modifies this`pos
      ensures Valid() && old(pos) <= pos
      ensures var rest := old(Remaining());
              match Lex(rest)
              case Unterminated => r == Failure(UnterminatedQuote)
              case Lexeme(kind, text, after) =>
                r == Success(Token(kind, text, old(pos) + Leading(rest) + 1)) && Remaining() == after
    {
      ghost var rest := Remaining();
      SkipSpace();
      assert Remaining() == rest[Leading(rest)..] == SkipBlank(rest);
      assert Lex(rest) == LexHere(Remaining());
      r := NextHere();
    }

    /** The token at the position itself, once spaces are out of the way. */
    method NextHere() returns (r: Result<Token>)
      requires Valid()
      modifies this`pos
      ensures Valid() && old(pos) <= pos
      ensures match LexHere(old(Remaining()))
              case Unterminated => r == Failure(UnterminatedQuote)
              case Lexeme(kind, text, after) =>
                r == Success(Token(kind, text, old(pos) + 1)) && Remaining() == after
    {
      if pos >= |src| {
        return Success(Token(EOF, "", pos + 1));
      }
      var start := pos;
      var c := src[pos];
      ghost var here := Remaining();
      assert here[0] == c && here[1..] == src[pos + 1..];
      var symbol := SymbolKind(c);
      if symbol.Some? {
        pos := pos + 1;
        return Success(Token(symbol.value, [c], start + 1));
      }
      if c == '"' || c == '\'' {
        r := LexString();
        return;
      }
      LexWord();
      assert src[start..pos] == here[..WordLength(here)] && src[pos..] == here[WordLength(here)..];
      return Success(Token(Word, src[start..pos], start + 1));
    }

    /** Takes everything up to white space or a character that is a token by itself. */
    method LexWord()
      requires Valid()
      modifies this`pos
      ensures Valid() && pos == old(pos) + WordLength(old(Remaining()))
    {
      while pos < |src|
        invariant old(pos) <= pos <= |src|
        invariant pos + WordLength(src[pos..]) == old(pos) + WordLength(old(Remaining()))
      {
        if IsSpace(src[pos]) || Structural(src[pos]) {
          return;
        }
        assert src[pos..][1..] == src[pos + 1..];
        pos := pos + 1;
      }
    }

    /** Scans a quoted value, honouring doubled quotes. */
    method LexString() returns (r: Result<Token>)
      requires pos < |src|
      modifies this`pos
      ensures Valid() && old(pos) < pos
      ensures match ScanQuoted(src[old(pos) + 1..], src[old(pos)])
              case None => r == Failure(UnterminatedQuote)
              case Some((text, rest)) => r == Success(Token(Quoted, text, old(pos) + 1)) && Remaining() == rest
    {
      var quote := src[pos];
      var start := pos;
      pos := pos + 1;
      var sb := "";
      ghost var whole := ScanQuoted(src[pos..], quote);
      PrefixedStep("", quote, whole);
      while pos < |src|
        invariant start < pos <= |src|
        invariant whole == Prefixed(sb, ScanQuoted(src[pos..], quote))
      {
        ghost var here := src[pos..];
        assert here[1..] == src[pos + 1..];
        var c := src[pos];
        if c == quote {
          if pos + 1 < |src| && src[pos + 1] == quote {
            assert here[2..] == src[pos + 2..];
            PrefixedStep(sb, quote, ScanQuoted(src[pos + 2..], quote));
            sb := sb + [quote];
            pos := pos + 2;
            continue;
          }
          assert sb + "" == sb;
          pos := pos + 1;
          return Success(Token(Quoted, sb, start + 1));
        }
        PrefixedStep(sb, c, ScanQuoted(src[pos + 1..], quote));
        sb := sb + [c];
        pos := pos + 1;
      }
      return Failure(UnterminatedQuote);
    }

    /** The token that comes next, the position being put back, whether or not there is one. */
    method Peek() returns (r: Result<Token>)
      requires Valid()
      modifies this`pos
      ensures pos == old(pos)
      ensures match Lex(Remaining())
              case Unterminated => r == Failure(UnterminatedQuote)
              case Lexeme(kind, text, _) => r == Success(Token(kind, text, pos + Leading(Remaining()) + 1))
    {
      var save := pos;
      r := Next();
      pos := save;
    }
  }

  // ----- facts about tokens -----

  lemma SkipBlankIs(l: string, s: string)
    requires Blank(l)
    ensures SkipBlank(l + s) == SkipBlank(s)
  {
    LeadingBlank(l, s);
    assert (l + s)[|l| + Leading(s)..] == s[Leading(s)..];
  }

  lemma LexBlank(l: string, s: string)
    requires Blank(l)
    ensures Lex(l + s) == Lex(s)
  {
    SkipBlankIs(l, s);
  }

  lemma LexAfterBlank(l: string, s: string)
    requires Blank(l) && s != "" && !IsSpace(s[0])
    ensures Lex(l + s) == LexHere(s)
  {
    LexBlank(l, s);
    assert s[0..] == s;
  }

  lemma LexQuote(l: string, text: string, quote: char, rest: string)
    requires Blank(l) && (quote == '"' || quote == '\'')
    requires rest != "" ==> rest[0] != quote
    ensures Lex(l + Quote(text, quote) + rest) == Lexeme(Quoted, text, rest)
  {
    var s := Quote(text, quote) + rest;
    Assoc(l, Quote(text, quote), rest);
    assert s[0] == quote && s[1..] == Escape(text, quote) + [quote] + rest;
    LexAfterBlank(l, s);
    ScanQuotedEscape(text, quote, rest);
  }

  lemma {:induction false} WordLengthIs(w: string, rest: string)
    requires forall k :: 0 <= k < |w| ==> WordChar(w[k])
    requires rest != "" ==> !WordChar(rest[0])
    ensures WordLength(w + rest) == |w|
  {
    if w == "" {
      assert w + rest == rest;
    } else {
      assert (w + rest)[1..] == w[1..] + rest;
      WordLengthIs(w[1..], rest);
    }
  }

  lemma LexWordIs(l: string, w: string, rest: string)
    requires Blank(l) && w != "" && forall k :: 0 <= k < |w| ==> WordChar(w[k])
    requires rest != "" ==> !WordChar(rest[0])
    ensures Lex(l + w + rest) == Lexeme(Word, w, rest)
  {
    var s := w + rest;
    Assoc(l, w, rest);
    WordLengthIs(w, rest);
    assert s[0] == w[0] && WordChar(s[0]) && s[..|w|] == w && s[|w|..] == rest;
    LexAfterBlank(l, s);
  }

  lemma LexSymbol(l: string, c: char, rest: string)
    requires Blank(l) && SymbolKind(c).Some?
    ensures Lex(l + [c] + rest) == Lexeme(SymbolKind(c).value, [c], rest)
  {
    var s := [c] + rest;
    Assoc(l, [c], rest);
    assert s[0] == c && s[1..] == rest;
    LexAfterBlank(l, s);
  }

  /** Tokens lose nothing: leading space, the token as written and the remainder rebuild the
      text. Words are maximal; a quoted token is the quoting of its value. */
  lemma LexRebuilds(s: string) returns (l: string, written: string)
    requires Lex(s).Lexeme?
    ensures Blank(l) && s == l + written + Lex(s).rest && Written(Lex(s), written)
  {
    l := s[..Leading(s)];
    var t := s[Leading(s)..];
    assert s == l + t;
    written := WrittenHere(t);
    Assoc(l, written, Lex(s).rest);
  }

  /** A token's spelling, and what must not follow it. */
  ghost predicate Written(x: Lexeme, written: string)
    requires x.Lexeme?
  {
    match x.kind
    case EOF => written == "" == x.rest
    case Quoted =>
      && (written == Quote(x.text, '"') || written == Quote(x.text, '\''))
      && (x.rest != "" ==> x.rest[0] != written[0])
    case Word =>
      && written == x.text != ""
      && (forall k :: 0 <= k < |written| ==> WordChar(written[k]))
      && (x.rest != "" ==> !WordChar(x.rest[0]))
    case _ => written == x.text && |written| == 1 && SymbolKind(written[0]) == Some(x.kind)
  }

  lemma QuotedHere(t: string) returns (written: string)
    requires LexHere(t).Lexeme? && LexHere(t).kind == Quoted
    ensures t == written + LexHere(t).rest && Written(LexHere(t), written)
  {
    var x := LexHere(t);
    ScanQuotedSound(t[1..], t[0]);
    written := Quote(x.text, t[0]);
    assert t == [t[0]] + t[1..] == written + x.rest;
  }

  lemma WrittenHere(t: string) returns (written: string)
    requires LexHere(t).Lexeme? && (t != "" ==> !IsSpace(t[0]))
    ensures t == written + LexHere(t).rest && Written(LexHere(t), written)
  {
    var x := LexHere(t);
    written := x.text;
    if x.kind == Quoted {
      written := QuotedHere(t);
    }
  }
}
