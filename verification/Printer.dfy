/** The text of a statement, its placeholders, and what the text becomes when they take their
    arguments. */
module Printer {
  import opened Text
  import opened Values
  import opened Syntax

  // ----- printing -----

  function ShowVal(v: Val): string
    decreases v, 1
  {
    match v
    case VNull => "NULL"
    case VInt(i) => FormatInt(i)
    case VFloat(bits) => "FLOAT(" + FormatInt(bits) + ")"
    case VBool(b) => if b then "TRUE" else "FALSE"
    case VText(s) => Quote(s, '\'')
    case VList(items) => "(" + ShowVals(items) + ")"
  }

  function ShowVals(vals: seq<Val>): string
    decreases vals, 0
  {
    if vals == [] then "" else ShowVal(vals[0]) + (", " + ShowVals(vals[1..]))
  }

  /** Names and texts are quoted, operands are in parentheses. */
  function Show(e: Expr): string
    decreases e, 1
  {
    match e
    case NullLit => "NULL"
    case Lit(v) => ShowVal(v)
    case Col(name) => Quote(name, '"')
    case Bind(marker) => marker
    case Compare(op, l, r) => "(" + (Show(l) + (" " + op + " " + (Show(r) + ")")))
    case And(l, r) => "(" + (Show(l) + (" AND " + (Show(r) + ")")))
    case Or(l, r) => "(" + (Show(l) + (" OR " + (Show(r) + ")")))
    case Not(x) => "NOT (" + (Show(x) + ")")
    case IsNull(x) => "(" + (Show(x) + " IS NULL)")
    case In(x, negated, list) => "(" + (Show(x) + ((if negated then " NOT IN " else " IN ") + (Show(list) + ")")))
    case List(items) => "(" + (ShowAll(items) + ")")
  }

  function ShowAll(es: seq<Expr>): string
    decreases es, 0
  {
    if es == [] then "" else Show(es[0]) + ((if |es| == 1 then "" else ", ") + ShowAll(es[1..]))
  }

  // ----- scanning for placeholders -----

  /** The quote a scan is inside of after one more character. */
  function Toggle(q: Option<char>, c: char): Option<char> {
    match q
    case None => if c == '\'' || c == '"' then Some(c) else None
    case Some(d) => if c == d then None else q
  }

  function Within(s: string, q: Option<char>): Option<char> {
    if s == "" then q else Within(s[1..], Toggle(q, s[0]))
  }

  /** Question marks outside quotes. */
  function Placeholders(s: string, q: Option<char>): nat {
    if s == "" then 0 else (if q.None? && s[0] == '?' then 1 else 0) + Placeholders(s[1..], Toggle(q, s[0]))
  }

  /** The text with its k-th placeholder replaced by the literal for args[k], as far as there are
      arguments. */
  function Substitute(s: string, q: Option<char>, args: seq<Val>): string {
    if s == "" then ""
    else if q.None? && s[0] == '?' && args != [] then ShowVal(args[0]) + Substitute(s[1..], q, args[1..])
    else [s[0]] + Substitute(s[1..], Toggle(q, s[0]), args)
  }

  lemma {:induction false} ScanAppend(a: string, b: string, q: Option<char>)
    ensures Within(a + b, q) == Within(b, Within(a, q))
    ensures Placeholders(a + b, q) == Placeholders(a, q) + Placeholders(b, Within(a, q))
  {
    if a == "" {
      assert a + b == b;
    } else {
      assert (a + b)[1..] == a[1..] + b;
      ScanAppend(a[1..], b, Toggle(q, a[0]));
    }
  }

  lemma {:induction false} SubstituteAppend(a: string, b: string, q: Option<char>, args: seq<Val>, more: seq<Val>)
    requires |args| == Placeholders(a, q) && |more| == Placeholders(b, Within(a, q))
    ensures Placeholders(a + b, q) == |args + more|
    ensures Substitute(a + b, q, args + more) == Substitute(a, q, args) + Substitute(b, Within(a, q), more)
  {
    ScanAppend(a, b, q);
    if a == "" {
      assert a + b == b && args + more == more;
    } else {
      assert (a + b)[1..] == a[1..] + b;
      if q.None? && a[0] == '?' {
        assert (args + more)[1..] == args[1..] + more;
        SubstituteAppend(a[1..], b, q, args[1..], more);
      } else {
        SubstituteAppend(a[1..], b, Toggle(q, a[0]), args, more);
      }
    }
  }

  /** Quotes are balanced, every argument has its placeholder, and with the arguments in place the
      text is t. */
  ghost predicate Reads(s: string, args: seq<Val>, t: string) {
    Within(s, None) == None && Placeholders(s, None) == |args| && Substitute(s, None, args) == t
  }

  lemma ReadsAppend(a: string, b: string, args: seq<Val>, more: seq<Val>, t: string, u: string)
    requires Reads(a, args, t) && Reads(b, more, u)
    ensures Reads(a + b, args + more, t + u)
  {
    ScanAppend(a, b, None);
    SubstituteAppend(a, b, None, args, more);
  }

  /** No quote and no question mark. */
  predicate Unquoted(s: string) {
    forall k :: 0 <= k < |s| ==> OperatorChar(s[k])
  }

  lemma {:induction false} UnquotedReads(s: string)
    requires Unquoted(s)
    ensures Reads(s, [], s)
  {
    if s != "" {
      UnquotedReads(s[1..]);
    }
  }

  lemma ReadsBefore(a: string, s: string, args: seq<Val>, t: string)
    requires Unquoted(a) && Reads(s, args, t)
    ensures Reads(a + s, args, a + t)
  {
    UnquotedReads(a);
    ReadsAppend(a, s, [], args, a, t);
    assert [] + args == args;
  }

  lemma ReadsAfter(s: string, b: string, args: seq<Val>, t: string)
    requires Unquoted(b) && Reads(s, args, t)
    ensures Reads(s + b, args, t + b)
  {
    UnquotedReads(b);
    ReadsAppend(s, b, args, [], t, b);
    assert args + [] == args;
  }

  /** The same without the arguments: n placeholders, none of them in quotes. */
  predicate Marked(s: string, n: nat) {
    Within(s, None) == None && Placeholders(s, None) == n
  }

  lemma MarkedAppend(a: string, m: nat, b: string, n: nat)
    requires Marked(a, m) && Marked(b, n)
    ensures Marked(a + b, m + n)
  {
    ScanAppend(a, b, None);
  }

  lemma UnquotedMarked(s: string)
    requires Unquoted(s)
    ensures Marked(s, 0)
  {
    UnquotedReads(s);
  }

  lemma DoubledScan(quote: char, tail: string)
    requires quote == '\'' || quote == '"'
    ensures var t := [quote, quote] + tail;
            && Within(t, Some(quote)) == Within(tail, Some(quote))
            && Placeholders(t, Some(quote)) == Placeholders(tail, Some(quote))
            && Substitute(t, Some(quote), []) == [quote, quote] + Substitute(tail, Some(quote), [])
  {
    var t := [quote, quote] + tail;
    assert t[1..] == [quote] + tail && t[1..][1..] == tail;
    assert Toggle(Toggle(Some(quote), quote), quote) == Some(quote);
  }

  /** The inside of quoted text, and what follows the closing quote. */
  lemma {:induction false} EscapeScan(s: string, quote: char, rest: string)
    requires quote == '\'' || quote == '"'
    ensures var t := Escape(s, quote) + ([quote] + rest);
            && Within(t, Some(quote)) == Within(rest, None)
            && Placeholders(t, Some(quote)) == Placeholders(rest, None)
            && (Placeholders(rest, None) == 0 && Substitute(rest, None, []) == rest ==> Substitute(t, Some(quote), []) == t)
  {
    var t := Escape(s, quote) + ([quote] + rest);
    if s == "" {
      assert t == [quote] + rest && t[1..] == rest;
    } else {
      var tail := Escape(s[1..], quote) + ([quote] + rest);
      EscapeScan(s[1..], quote, rest);
      if s[0] == quote {
        assert t == [quote, quote] + tail;
        DoubledScan(quote, tail);
      } else {
        assert t == [s[0]] + tail && t[1..] == tail;
      }
    }
  }

  /** Whatever is quoted holds no placeholder. */
  lemma QuoteReads(s: string, quote: char)
    requires quote == '\'' || quote == '"'
    ensures Reads(Quote(s, quote), [], Quote(s, quote))
  {
    var t := Quote(s, quote);
    EscapeScan(s, quote, "");
    assert t == [quote] + (Escape(s, quote) + ([quote] + ""));
    assert t[1..] == Escape(s, quote) + ([quote] + "");
  }

  // ----- values -----

  lemma FormatUnquoted(n: int)
    ensures Unquoted(FormatInt(n))
  {
  }

  lemma {:induction false} ValReads(v: Val)
    ensures Reads(ShowVal(v), [], ShowVal(v))
    decreases v, 1
  {
    match v
    case VInt(i) => FormatUnquoted(i); UnquotedReads(ShowVal(v));
    case VFloat(bits) => FormatUnquoted(bits); UnquotedReads(ShowVal(v));
    case VText(s) => QuoteReads(s, '\'');
    case VList(items) =>
      ValsRead(items);
      ReadsBefore("(", ShowVals(items), [], ShowVals(items));
      ReadsAfter("(" + ShowVals(items), ")", [], "(" + ShowVals(items));
    case _ => UnquotedReads(ShowVal(v));
  }

  lemma {:induction false} ValsRead(vals: seq<Val>)
    ensures Reads(ShowVals(vals), [], ShowVals(vals))
    decreases vals, 0
  {
    if vals != [] {
      ValReads(vals[0]);
      ValsRead(vals[1..]);
      ReadsBefore(", ", ShowVals(vals[1..]), [], ShowVals(vals[1..]));
      ReadsAppend(ShowVal(vals[0]), ", " + ShowVals(vals[1..]), [], [], ShowVal(vals[0]), ", " + ShowVals(vals[1..]));
    }
  }

  // ----- statements whose binds are placeholders -----

  predicate OnlyHoles(e: Expr)
    decreases e, 1
  {
    match e
    case Bind(_) => e == HOLE
    case Compare(_, l, r) => OnlyHoles(l) && OnlyHoles(r)
    case And(l, r) => OnlyHoles(l) && OnlyHoles(r)
    case Or(l, r) => OnlyHoles(l) && OnlyHoles(r)
    case Not(x) => OnlyHoles(x)
    case IsNull(x) => OnlyHoles(x)
    case In(x, _, list) => OnlyHoles(x) && OnlyHoles(list)
    case List(items) => OnlyHolesAll(items)
    case _ => true
  }

  predicate OnlyHolesAll(es: seq<Expr>)
    decreases es, 0
  {
    es == [] || (OnlyHoles(es[0]) && OnlyHolesAll(es[1..]))
  }

  lemma ReadsTwo(l: string, mid: string, r: string, h: nat, args: seq<Val>, t: string, u: string)
    requires h <= |args| && Unquoted(mid) && Reads(l, args[..h], t) && Reads(r, args[h..], u)
    ensures Reads("(" + (l + (mid + (r + ")"))), args, "(" + (t + (mid + (u + ")"))))
  {
    ReadsAfter(r, ")", args[h..], u);
    ReadsBefore(mid, r + ")", args[h..], u + ")");
    ReadsAppend(l, mid + (r + ")"), args[..h], args[h..], t, mid + (u + ")"));
    assert args[..h] + args[h..] == args;
    ReadsBefore("(", l + (mid + (r + ")")), args, t + (mid + (u + ")")));
  }

  /** In the text of a statement, the placeholders outside quotes are its holes, in the same order:
      replacing the k-th in the text is filling the k-th in the tree. */
  lemma {:induction false} ShowReads(e: Expr, args: seq<Val>)
    requires OnlyHoles(e) && |args| == Holes(e)
    ensures Reads(Show(e), args, Show(Fill(e, args)))
    decreases e, 1
  {
    match e
    case NullLit => UnquotedReads("NULL");
    case Lit(v) => ValReads(v);
    case Col(name) => QuoteReads(name, '"');
    case Bind(_) => HoleReads(args[0]); assert args == [args[0]];
    case Compare(op, l, r) => BothRead(e, l, " " + op + " ", r, args);
    case And(l, r) => BothRead(e, l, " AND ", r, args);
    case Or(l, r) => BothRead(e, l, " OR ", r, args);
    case Not(x) =>
      ShowReads(x, args);
      ReadsAfter(Show(x), ")", args, Show(Fill(x, args)));
      ReadsBefore("NOT (", Show(x) + ")", args, Show(Fill(x, args)) + ")");
    case IsNull(x) =>
      ShowReads(x, args);
      ReadsAfter(Show(x), " IS NULL)", args, Show(Fill(x, args)));
      ReadsBefore("(", Show(x) + " IS NULL)", args, Show(Fill(x, args)) + " IS NULL)");
    case In(x, negated, list) => BothRead(e, x, if negated then " NOT IN " else " IN ", list, args);
    case List(items) =>
      ShowAllReads(items, args);
      ReadsAfter(ShowAll(items), ")", args, ShowAll(FillAll(items, args)));
      ReadsBefore("(", ShowAll(items) + ")", args, ShowAll(FillAll(items, args)) + ")");
  }

  lemma {:induction false} BothRead(parent: Expr, l: Expr, mid: string, r: Expr, args: seq<Val>)
    requires l < parent && r < parent && OnlyHoles(l) && OnlyHoles(r) && Unquoted(mid) && |args| == Holes(l) + Holes(r)
    ensures Reads("(" + (Show(l) + (mid + (Show(r) + ")"))), args,
                  "(" + (Show(Fill(l, args[..Holes(l)])) + (mid + (Show(Fill(r, args[Holes(l)..])) + ")"))))
    decreases parent, 0
  {
    ShowReads(l, args[..Holes(l)]);
    ShowReads(r, args[Holes(l)..]);
    ReadsTwo(Show(l), mid, Show(r), Holes(l), args, Show(Fill(l, args[..Holes(l)])), Show(Fill(r, args[Holes(l)..])));
  }

  lemma HoleReads(v: Val)
    ensures Reads("?", [v], ShowVal(v))
  {
    assert "?"[1..] == "" && [v][1..] == [];
    assert ShowVal(v) + "" == ShowVal(v);
  }

  lemma {:induction false} ShowAllReads(es: seq<Expr>, args: seq<Val>)
    requires OnlyHolesAll(es) && |args| == HolesAll(es)
    ensures Reads(ShowAll(es), args, ShowAll(FillAll(es, args)))
    decreases es, 0
  {
    if es != [] {
      var h := Holes(es[0]);
      var sep := if |es| == 1 then "" else ", ";
      var tail := FillAll(es[1..], args[h..]);
      ShowReads(es[0], args[..h]);
      ShowAllReads(es[1..], args[h..]);
      ReadsBefore(sep, ShowAll(es[1..]), args[h..], ShowAll(tail));
      ReadsAppend(Show(es[0]), sep + ShowAll(es[1..]), args[..h], args[h..], Show(Fill(es[0], args[..h])), sep + ShowAll(tail));
      assert args[..h] + args[h..] == args;
      assert FillAll(es, args)[1..] == tail;
    }
  }

  lemma {:induction false} NothingToSubstitute(s: string, q: Option<char>)
    requires Placeholders(s, q) == 0
    ensures Substitute(s, q, []) == s
  {
    if s != "" {
      NothingToSubstitute(s[1..], Toggle(q, s[0]));
    }
  }

  /** Nothing that trimming space or semicolons would remove. */
  predicate CleanEnds(s: string) {
    s != "" && Trimmed(s) && s[|s| - 1] != ';'
  }

  lemma ValEnds(v: Val)
    ensures CleanEnds(ShowVal(v))
  {
    if v.VInt? {
      FormatDigits(v.i);
    }
  }

  lemma FormatDigits(n: int)
    ensures var s := FormatInt(n);
            s != "" && IsDigit(s[|s| - 1]) && (IsDigit(s[0]) || s[0] == '-')
  {
    assert AllDigits(FormatNat(if n < 0 then -n else n));
  }

  lemma BothEnds(l: string, mid: string, r: string)
    ensures CleanEnds("(" + (l + (mid + (r + ")"))))
  {
    var s := "(" + (l + (mid + (r + ")")));
    assert s[0] == '(' && s[|s| - 1] == ')';
  }

  lemma OneEnds(open: string, x: string, close: string)
    requires open != "" && close != "" && !IsSpace(open[0])
    requires !IsSpace(close[|close| - 1]) && close[|close| - 1] != ';'
    ensures CleanEnds(open + (x + close))
  {
    var s := open + (x + close);
    assert s[0] == open[0] && s[|s| - 1] == close[|close| - 1];
  }

  lemma ShowEnds(e: Expr)
    requires OnlyHoles(e)
    ensures CleanEnds(Show(e))
  {
    match e
    case Lit(v) => ValEnds(v);
    case Col(name) => OneEnds("\"", Escape(name, '"'), "\""); assert Show(e) == "\"" + (Escape(name, '"') + "\"");
    case Compare(op, l, r) => BothEnds(Show(l), " " + op + " ", Show(r));
    case And(l, r) => BothEnds(Show(l), " AND ", Show(r));
    case Or(l, r) => BothEnds(Show(l), " OR ", Show(r));
    case Not(x) => OneEnds("NOT (", Show(x), ")");
    case IsNull(x) => OneEnds("(", Show(x), " IS NULL)");
    case In(x, negated, list) => BothEnds(Show(x), if negated then " NOT IN " else " IN ", Show(list));
    case List(items) => OneEnds("(", ShowAll(items), ")");
    case _ =>
  }
}
