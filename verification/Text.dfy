/** Text primitives the parsers share: Go's notion of white space, trimming,
    splitting, case folding, doubled-quote quoting and 64-bit decimal integers.
    Text is a sequence of code points. */
module Text {

  datatype Option<+T> = None | Some(value: T)

  // ----- white space -----

  /** unicode.IsSpace. */
  predicate IsSpace(c: char) {
    || '\t' <= c <= '\r'
    || c == ' ' || c == '\U{0085}' || c == '\U{00A0}' || c == '\U{1680}'
    || '\U{2000}' <= c <= '\U{200A}'
    || c == '\U{2028}' || c == '\U{2029}' || c == '\U{202F}' || c == '\U{205F}' || c == '\U{3000}'
  }

  predicate Blank(s: string) {
    forall k :: 0 <= k < |s| ==> IsSpace(s[k])
  }

  /** Number of leading spaces. */
  function Leading(s: string): (n: nat)
    ensures n <= |s| && Blank(s[..n]) && (n < |s| ==> !IsSpace(s[n]))
  {
    if s != "" && IsSpace(s[0]) then 1 + Leading(s[1..]) else 0
  }

  function TrimRight(s: string): (t: string)
    ensures t <= s && Blank(s[|t|..]) && (t != "" ==> !IsSpace(t[|t| - 1]))
  {
    if s != "" && IsSpace(s[|s| - 1]) then TrimRight(s[..|s| - 1]) else s
  }

  /** strings.TrimSpace. */
  function Trim(s: string): string {
    TrimRight(s[Leading(s)..])
  }

  predicate Trimmed(s: string) {
    s != "" ==> !IsSpace(s[0]) && !IsSpace(s[|s| - 1])
  }

  /** Leading and trailing white space is all that Trim removes, and what is left is trimmed. */
  lemma TrimSplits(s: string) returns (l: string, r: string)
    ensures s == l + Trim(s) + r && Blank(l) && Blank(r) && Trimmed(Trim(s))
  {
    l := s[..Leading(s)];
    var m := s[Leading(s)..];
    var t := TrimRight(m);
    r := m[|t|..];
    assert m == t + r;
    if t != "" {
      assert t[0] == m[0];
    }
  }

  lemma {:induction false} LeadingBlank(l: string, s: string)
    requires Blank(l)
    ensures Leading(l + s) == |l| + Leading(s)
  {
    if l == "" {
      assert l + s == s;
    } else {
      assert (l + s)[1..] == l[1..] + s;
      LeadingBlank(l[1..], s);
    }
  }

  lemma {:induction false} TrimRightBlank(s: string, r: string)
    requires Blank(r)
    ensures TrimRight(s + r) == TrimRight(s)
  {
    if r == "" {
      assert s + r == s;
    } else {
      assert (s + r)[..|s + r| - 1] == s + r[..|r| - 1];
      TrimRightBlank(s, r[..|r| - 1]);
    }
  }

  /** Trim is determined by its specification: any trimmed core between blanks is the result. */
  lemma TrimBetween(l: string, s: string, r: string)
    requires Blank(l) && Blank(r) && Trimmed(s)
    ensures Trim(l + s + r) == s
  {
    assert l + s + r == l + (s + r);
    LeadingBlank(l, s + r);
    if s == "" {
      assert s + r == r;
      LeadingBlank(r, "");
      assert r + "" == r;
    } else {
      assert Leading(s + r) == 0;
      assert (l + (s + r))[|l|..] == s + r;
      TrimRightBlank(s, r);
    }
  }

  lemma {:induction false} TrimRightKeeps(w: string, r: string)
    requires w != "" && !IsSpace(w[|w| - 1])
    ensures TrimRight(w + r) == w + TrimRight(r)
  {
    if r == "" {
      assert w + r == w;
    } else if IsSpace(r[|r| - 1]) {
      assert (w + r)[..|w + r| - 1] == w + r[..|r| - 1];
      TrimRightKeeps(w, r[..|r| - 1]);
    }
  }

  // ----- prefixes, splitting, joining -----

  predicate HasPrefix(s: string, p: string) {
    |p| <= |s| && s[..|p|] == p
  }

  predicate HasSuffix(s: string, p: string) {
    |p| <= |s| && s[|s| - |p|..] == p
  }

  /** Position of the first c, or the length. */
  function IndexOf(s: string, c: char): (k: nat)
    ensures k <= |s| && (k < |s| ==> s[k] == c) && forall j :: 0 <= j < k ==> s[j] != c
  {
    if s == "" || s[0] == c then 0 else 1 + IndexOf(s[1..], c)
  }

  /** strings.Split with a one-character separator; never empty. */
  function Split(s: string, sep: char): (parts: seq<string>)
    ensures |parts| >= 1
  {
    if s == "" then [""]
    else
      var rest := Split(s[1..], sep);
      if s[0] == sep then [""] + rest
      else [[s[0]] + rest[0]] + rest[1..]
  }

  function Join(parts: seq<string>, sep: string): string {
    if |parts| == 0 then ""
    else if |parts| == 1 then parts[0]
    else parts[0] + sep + Join(parts[1..], sep)
  }

  /** Glues text onto the first part. */
  function Glue(head: string, parts: seq<string>): (r: seq<string>)
    requires |parts| >= 1
    ensures |r| == |parts|
  {
    [head + parts[0]] + parts[1..]
  }

  lemma GlueGlue(a: string, b: string, parts: seq<string>)
    requires |parts| >= 1
    ensures Glue(a, Glue(b, parts)) == Glue(a + b, parts)
    ensures Glue("", parts) == parts
  {
    assert a + (b + parts[0]) == (a + b) + parts[0];
    assert "" + parts[0] == parts[0];
  }

  lemma Assoc(a: string, b: string, c: string)
    ensures a + (b + c) == (a + b) + c
  {
  }

  lemma JoinCons(head: string, parts: seq<string>, sep: string)
    requires |parts| >= 1
    ensures Join([head] + parts, sep) == head + sep + Join(parts, sep)
  {
    assert ([head] + parts)[1..] == parts;
  }

  /** Splitting a joined list gives the list back when no part holds the separator. */
  lemma {:induction false} SplitJoin(parts: seq<string>, sep: char)
    requires parts != [] && forall k :: 0 <= k < |parts| ==> sep !in parts[k]
    ensures Split(Join(parts, [sep]), sep) == parts
  {
    if |parts| == 1 {
      SplitOne(parts[0], sep);
    } else {
      var rest := Join(parts[1..], [sep]);
      SplitJoin(parts[1..], sep);
      SplitHead(parts[0], sep, rest);
      assert parts[0] + [sep] + rest == parts[0] + ([sep] + rest);
      assert parts == [parts[0]] + parts[1..];
    }
  }

  lemma {:induction false} SplitOne(s: string, sep: char)
    requires sep !in s
    ensures Split(s, sep) == [s]
  {
    if s != "" {
      assert s[0] in s && forall c :: c in s[1..] ==> c in s;
      SplitOne(s[1..], sep);
      assert [s[0]] + s[1..] == s;
    }
  }

  lemma {:induction false} SplitHead(s: string, sep: char, rest: string)
    requires sep !in s
    ensures Split(s + ([sep] + rest), sep) == [s] + Split(rest, sep)
  {
    var t := s + ([sep] + rest);
    if s == "" {
      assert t == [sep] + rest && t[1..] == rest;
    } else {
      assert s[0] in s && forall c :: c in s[1..] ==> c in s;
      assert t[1..] == s[1..] + ([sep] + rest);
      SplitHead(s[1..], sep, rest);
      assert [s[0]] + s[1..] == s;
    }
  }

  // ----- case -----

  /** unicode.ToLower as far as the keyword tables can see it: the only code points outside
      ASCII whose lower case is an ASCII letter are U+0130 and U+212A. */
  function LowerChar(c: char): char {
    if 'A' <= c <= 'Z' then ((c as int) + 32) as char
    else if c == '\U{0130}' then 'i'
    else if c == '\U{212A}' then 'k'
    else c
  }

  function Lower(s: string): (r: string)
    ensures |r| == |s| && forall k :: 0 <= k < |s| ==> r[k] == LowerChar(s[k])
  {
    if s == "" then "" else [LowerChar(s[0])] + Lower(s[1..])
  }

  predicate Letters(s: string) {
    forall k :: 0 <= k < |s| ==> 'a' <= s[k] <= 'z'
  }

  lemma LowerLetters(s: string)
    requires Letters(s)
    ensures Lower(s) == s
  {
  }

  // ----- identifiers -----

  predicate IdentChar(c: char, first: bool) {
    'a' <= c <= 'z' || 'A' <= c <= 'Z' || c == '_' || (!first && '0' <= c <= '9')
  }

  predicate ValidIdent(s: string) {
    s != "" && forall k :: 0 <= k < |s| ==> IdentChar(s[k], k == 0)
  }

  // ----- doubled-quote quoting -----

  function Escape(s: string, quote: char): string {
    if s == "" then ""
    else (if s[0] == quote then [quote, quote] else [s[0]]) + Escape(s[1..], quote)
  }

  function Quote(s: string, quote: char): string {
    [quote] + Escape(s, quote) + [quote]
  }

  function QuoteAll(items: seq<string>): (r: seq<string>)
    ensures |r| == |items|
  {
    if items == [] then [] else [Quote(items[0], '"')] + QuoteAll(items[1..])
  }

  /** Reads to the closing quote, given the text after the opening one. */
  function ScanQuoted(s: string, quote: char): (r: Option<(string, string)>)
    ensures r.Some? ==> |r.value.1| < |s|
  {
    if s == "" then None
    else if s[0] == quote then
      if |s| > 1 && s[1] == quote then Prepend(quote, ScanQuoted(s[2..], quote))
      else Some(("", s[1..]))
    else Prepend(s[0], ScanQuoted(s[1..], quote))
  }

  function Prepend(c: char, r: Option<(string, string)>): (p: Option<(string, string)>)
    ensures p.Some? == r.Some?
    ensures p.Some? ==> p.value == ([c] + r.value.0, r.value.1)
  {
    match r
    case None => None
    case Some((t, rest)) => Some(([c] + t, rest))
  }

  function Prefixed(head: string, r: Option<(string, string)>): Option<(string, string)> {
    match r
    case None => None
    case Some((t, rest)) => Some((head + t, rest))
  }

  lemma PrefixedStep(head: string, c: char, r: Option<(string, string)>)
    ensures Prefixed(head, Prepend(c, r)) == Prefixed(head + [c], r)
    ensures Prefixed("", r) == r
  {
    if r.Some? {
      Assoc(head, [c], r.value.0);
      assert "" + r.value.0 == r.value.0;
    }
  }

  /** Quoting any text and scanning it gives the text back, unless another quote follows. */
  lemma {:induction false} ScanQuotedEscape(t: string, quote: char, rest: string)
    requires rest != "" ==> rest[0] != quote
    ensures ScanQuoted(Escape(t, quote) + [quote] + rest, quote) == Some((t, rest))
  {
    var s := Escape(t, quote) + [quote] + rest;
    if t == "" {
      assert s == [quote] + rest;
      assert s[1..] == rest;
    } else {
      var tail := Escape(t[1..], quote) + [quote] + rest;
      ScanQuotedEscape(t[1..], quote, rest);
      assert [t[0]] + t[1..] == t;
      if t[0] == quote {
        assert s == [quote, quote] + tail;
        assert s[2..] == tail;
      } else {
        assert s == [t[0]] + tail;
        assert s[1..] == tail;
      }
    }
  }

  /** Whatever the scanner accepts is the quoting of what it returned. */
  lemma {:induction false} ScanQuotedSound(s: string, quote: char)
    requires ScanQuoted(s, quote).Some?
    ensures var (t, rest) := ScanQuoted(s, quote).value;
            s == Escape(t, quote) + [quote] + rest && (rest != "" ==> rest[0] != quote)
    decreases |s|
  {
    var (t, rest) := ScanQuoted(s, quote).value;
    if s[0] == quote {
      if |s| > 1 && s[1] == quote {
        ScanQuotedSound(s[2..], quote);
        assert s == [quote, quote] + s[2..];
        assert t[1..] == ScanQuoted(s[2..], quote).value.0;
      } else {
        assert s == [quote] + s[1..];
      }
    } else {
      ScanQuotedSound(s[1..], quote);
      assert s == [s[0]] + s[1..];
      assert t[1..] == ScanQuoted(s[1..], quote).value.0;
    }
  }

  // ----- 64-bit decimal integers -----

  const MAX_INT64: int := 0x7FFF_FFFF_FFFF_FFFF

  predicate IsInt64(n: int) { -MAX_INT64 - 1 <= n <= MAX_INT64 }

  predicate IsDigit(c: char) { '0' <= c <= '9' }

  predicate AllDigits(s: string) {
    s != "" && forall k :: 0 <= k < |s| ==> IsDigit(s[k])
  }

  function DigitValue(c: char): nat
    requires IsDigit(c)
  {
    c as int - '0' as int
  }

  function DigitsValue(s: string): nat
    requires forall k :: 0 <= k < |s| ==> IsDigit(s[k])
  {
    if s == "" then 0
    else DigitsValue(s[..|s| - 1]) * 10 + DigitValue(s[|s| - 1])
  }

  /** strconv.ParseInt(s, 10, 64) and, on a 64-bit platform, strconv.Atoi. */
  function ParseInt(s: string): (r: Option<int>)
    ensures r.Some? ==> IsInt64(r.value)
  {
    var negative := s != "" && s[0] == '-';
    var digits := if s != "" && (s[0] == '-' || s[0] == '+') then s[1..] else s;
    if !AllDigits(digits) then None
    else
      var v: int := DigitsValue(digits);
      var n := if negative then -v else v;
      if IsInt64(n) then Some(n) else None
  }

  function FormatNat(n: nat): (s: string)
    ensures AllDigits(s)
  {
    var d := ('0' as int + n % 10) as char;
    if n < 10 then [d] else FormatNat(n / 10) + [d]
  }

  function FormatInt(n: int): string {
    if n < 0 then "-" + FormatNat(-n) else FormatNat(n)
  }

  lemma {:induction false} FormatNatValue(n: nat)
    ensures DigitsValue(FormatNat(n)) == n
  {
    var s := FormatNat(n);
    if n >= 10 {
      FormatNatValue(n / 10);
      assert s[..|s| - 1] == FormatNat(n / 10);
    }
  }

  lemma ParseFormatInt(n: int)
    requires IsInt64(n)
    ensures ParseInt(FormatInt(n)) == Some(n)
  {
    if n < 0 {
      FormatNatValue(-n);
      assert FormatInt(n)[1..] == FormatNat(-n);
    } else {
      FormatNatValue(n);
      assert IsDigit(FormatInt(n)[0]);
    }
  }
}
