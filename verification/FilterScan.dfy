/** The scanner for filter specs (filter.go): segments separated by top-level dots, and
    parenthesised value lists with doubled-quote items. */
module FilterScan {
  import opened Text
  import opened Values

  // ----- the simple automaton -----

  /** Quote parity and saturating paren depth; parens inside quotes are ignored. */
  datatype ScanState = ScanState(quoted: bool, depth: nat)

  const TOP := ScanState(false, 0)

  function Step(st: ScanState, c: char): ScanState {
    if c == '"' then st.(quoted := !st.quoted)
    else if st.quoted then st
    else if c == '(' then st.(depth := st.depth + 1)
    else if c == ')' && st.depth > 0 then st.(depth := st.depth - 1)
    else st
  }

  /** The state reached by reading s[a..k]. */
  function After(s: string, a: nat, k: nat): ScanState
    requires a <= k <= |s|
    decreases k
  {
    if a == k then TOP else Step(After(s, a, k - 1), s[k - 1])
  }

  /** A dot separates exactly when it is read in the initial state. */
  predicate Separator(s: string, a: nat, k: nat)
    requires a <= k < |s|
  {
    s[k] == '.' && After(s, a, k) == TOP
  }

  /** The first separator of s, or its end. */
  function FirstSeparator(s: string): (r: nat)
    ensures r <= |s| && (r < |s| ==> Separator(s, 0, r))
    ensures NoSeparator(s, 0, 0, r)
  {
    SeparatorAfter(s, 0)
  }

  function SeparatorAfter(s: string, k: nat): (r: nat)
    requires k <= |s|
    ensures k <= r <= |s| && (r < |s| ==> Separator(s, 0, r)) && NoSeparator(s, 0, k, r)
    decreases |s| - k
  {
    if k == |s| || Separator(s, 0, k) then k else SeparatorAfter(s, k + 1)
  }

  /** Scanning from a, nothing in [from, to) separates. */
  ghost predicate NoSeparator(s: string, a: nat, from: nat, to: nat)
    requires a <= from <= to <= |s|
  {
    forall k :: from <= k < to ==> !Separator(s, a, k)
  }

  /** Quotes among the first k characters. */
  function QuoteCount(s: string, k: nat): nat
    requires k <= |s|
  {
    if k == 0 then 0 else QuoteCount(s, k - 1) + if s[k - 1] == '"' then 1 else 0
  }

  /** The automaton's flag is the parity of the quotes read. */
  lemma {:induction false} QuotedIsOddParity(s: string, k: nat)
    requires k <= |s|
    ensures After(s, 0, k).quoted == (QuoteCount(s, k) % 2 == 1)
  {
    if k != 0 {
      QuotedIsOddParity(s, k - 1);
    }
  }

  lemma {:induction false} AfterSuffix(s: string, a: nat, k: nat)
    requires a <= k <= |s|
    ensures After(s[a..], 0, k - a) == After(s, a, k)
    decreases k
  {
    if a < k {
      AfterSuffix(s, a, k - 1);
    }
  }

  /** Where the scan from a stops is the first separator of the suffix. */
  lemma SeparatorFound(s: string, a: nat, k: nat)
    requires a <= k <= |s| && NoSeparator(s, a, a, k)
    requires k < |s| ==> Separator(s, a, k)
    ensures FirstSeparator(s[a..]) == k - a
  {
    var rest := s[a..];
    forall j | 0 <= j < |rest|
      ensures Separator(rest, 0, j) == Separator(s, a, a + j)
    {
      AfterSuffix(s, a, a + j);
    }
    var r := FirstSeparator(rest);
    assert a + r < |s| ==> Separator(s, a, a + r);
    assert k < |s| ==> Separator(rest, 0, k - a);
  }

  lemma {:induction false} PlainPrefix(s: string, k: nat)
    requires k <= |s| && forall j :: 0 <= j < k ==> s[j] != '"' && s[j] != '('
    ensures After(s, 0, k) == TOP
  {
    if k != 0 {
      PlainPrefix(s, k - 1);
    }
  }

  /** A leading run without dots, quotes or parens followed by a dot is the first segment. */
  lemma FirstSegmentPlain(head: string, rest: string)
    requires forall k :: 0 <= k < |head| ==> head[k] != '"' && head[k] != '(' && head[k] != '.'
    ensures var s := head + "." + rest;
            FirstSeparator(s) == |head| && s[..|head|] == head && s[|head| + 1..] == rest
  {
    var s := head + "." + rest;
    assert forall j :: 0 <= j < |head| ==> s[j] == head[j];
    PlainPrefix(s, |head|);
    assert Separator(s, 0, |head|);
  }

  // ----- the scanner object -----

  class FilterScanner {
    const src: string
    var pos: nat

    ghost predicate Valid()
      reads this
    {
      pos <= |src|
    }

    constructor (src: string)
      ensures Valid() && this.src == src && pos == 0
    {
      this.src := src;
      pos := 0;
    }

    predicate AtEnd()
      requires Valid()
      reads this
      ensures AtEnd() == (Rest() == "")
    {
      pos >= |src|
    }

    function Rest(): string
      requires Valid()
      reads this
    {
      src[pos..]
    }

    /** Consumes one segment. It ends at the first top-level dot, which is consumed too;
        segment, dot and remainder rebuild what was there before. */
    method NextSegment() returns (seg: string, found: bool)
      requires Valid()
      modifies this`pos
      ensures Valid() && old(pos) <= pos
      ensures var rest := old(src[pos..]);
              var k := FirstSeparator(rest);
              seg == rest[..k] && found == (k < |rest|) &&
              Rest() == if found then rest[k + 1..] else ""
      ensures old(Rest()) == if found then seg + "." + Rest() else seg + Rest()
    {
      var start := pos;
      var depth := 0;
      while pos < |src|
        invariant start <= pos <= |src|
        invariant pos < |src| ==> After(src, start, pos) == ScanState(false, depth)
        invariant NoSeparator(src, start, start, pos)
      {
        var c := src[pos];
        if c == '"' {
          SkipQuotedItem(start);
          continue;
        } else if c == '(' {
          depth := depth + 1;
        } else if c == ')' {
          if depth > 0 {
            depth := depth - 1;
          }
        } else if c == '.' {
          if depth == 0 {
            SeparatorFound(src, start, pos);
            seg := src[start..pos];
            pos := pos + 1;
            return seg, true;
          }
        }
        pos := pos + 1;
      }
      SeparatorFound(src, start, pos);
      seg := src[start..pos];
      found := false;
    }

    /** Steps over a quoted run with one character of lookahead. Seen from the automaton, the
        run starts and ends outside quotes at the same depth, or reaches the end of the text,
        and holds no separator. */
    method SkipQuotedItem(ghost start: nat)
      requires start <= pos < |src| && src[pos] == '"' && !After(src, start, pos).quoted
      modifies this`pos
      ensures old(pos) < pos <= |src|
      ensures pos < |src| ==> After(src, start, pos) == After(src, start, old(pos))
      ensures NoSeparator(src, start, old(pos), pos)
    {
      ghost var before := After(src, start, pos);
      pos := pos + 1;
      while pos < |src|
        invariant old(pos) < pos <= |src|
        invariant After(src, start, pos) == before.(quoted := true)
        invariant NoSeparator(src, start, old(pos), pos)
      {
        if src[pos] == '"' {
          if pos + 1 < |src| && src[pos + 1] == '"' {
            pos := pos + 2;
            continue;
          }
          pos := pos + 1;
          return;
        }
        pos := pos + 1;
      }
    }
  }

  // ----- value lists: split, then unquote -----

  /** Cuts s at the commas read with even quote parity, starting with the given parity. */
  function Pieces(s: string, quoted: bool): (p: seq<string>)
    ensures |p| >= 1
  {
    if s == "" then [""]
    else if s[0] == ',' && !quoted then [""] + Pieces(s[1..], false)
    else Glue([s[0]], Pieces(s[1..], if s[0] == '"' then !quoted else quoted))
  }

  /** Drops quoting from one piece: quotes toggle, and a doubled quote inside quotes is one. */
  function Unquote(s: string, quoted: bool): string {
    if s == "" then ""
    else if s[0] != '"' then [s[0]] + Unquote(s[1..], quoted)
    else if quoted && |s| > 1 && s[1] == '"' then "\"" + Unquote(s[2..], true)
    else Unquote(s[1..], !quoted)
  }

  function UnquoteAll(pieces: seq<string>): (r: seq<string>)
    ensures |r| == |pieces|
    ensures forall k :: 0 <= k < |r| ==> r[k] == Unquote(pieces[k], false)
  {
    if pieces == [] then [] else [Unquote(pieces[0], false)] + UnquoteAll(pieces[1..])
  }

  /** The intended reading of a value list: split at top-level commas, then unquote. */
  function ListItems(inner: string): (r: seq<string>)
    ensures |r| == |Pieces(inner, false)| >= 1
  {
    UnquoteAll(Pieces(inner, false))
  }

  function ListOf(src: string): (r: Result<seq<string>>)
    ensures r.Success? ==> r.value != []
  {
    var s := Trim(src);
    if !HasPrefix(s, "(") then Failure(BadFilter)
    else if !HasSuffix(s, ")") then Failure(BadFilter)
    else if Trim(s[1..|s| - 1]) == "" then Failure(BadFilter)
    else Success(ListItems(s[1..|s| - 1]))
  }

  lemma JoinGlue(c: char, parts: seq<string>)
    requires |parts| >= 1
    ensures Join(Glue([c], parts), ",") == [c] + Join(parts, ",")
  {
    var glued := Glue([c], parts);
    assert glued[1..] == parts[1..];
    if |parts| > 1 {
      var tail := Join(parts[1..], ",");
      Assoc([c], parts[0], ",");
      Assoc([c], parts[0] + ",", tail);
    }
  }

  /** Joining the pieces rebuilds the interior. */
  lemma {:induction false} PiecesRejoin(s: string, quoted: bool)
    ensures Join(Pieces(s, quoted), ",") == s
  {
    if s != "" {
      var q := if s[0] == '"' then !quoted else quoted;
      PiecesRejoin(s[1..], q);
      assert s == [s[0]] + s[1..];
      if s[0] == ',' && !quoted {
        JoinCons("", Pieces(s[1..], q), ",");
        assert s == "" + "," + s[1..];
      } else {
        JoinGlue(s[0], Pieces(s[1..], q));
      }
    }
  }

  /** Commas read with even quote parity. */
  function TopCommas(s: string, k: nat): nat
    requires k <= |s|
  {
    if k == 0 then 0
    else TopCommas(s, k - 1) + if s[k - 1] == ',' && QuoteCount(s, k - 1) % 2 == 0 then 1 else 0
  }

  /** The list has one item more than the interior has commas outside quotes. */
  lemma ItemCount(inner: string)
    ensures |ListItems(inner)| == TopCommas(inner, |inner|) + 1
  {
    PieceCount(inner, 0);
    assert inner[0..] == inner;
  }

  lemma {:induction false} PieceCount(s: string, k: nat)
    requires k <= |s|
    ensures |Pieces(s[k..], QuoteCount(s, k) % 2 == 1)| + TopCommas(s, k) == TopCommas(s, |s|) + 1
    decreases |s| - k
  {
    if k < |s| {
      assert s[k..][1..] == s[k + 1..];
      PieceCount(s, k + 1);
    }
  }

  /** Items of a suffix that may start inside quotes. */
  function ItemsFrom(s: string, quoted: bool): (r: seq<string>)
    ensures |r| >= 1
  {
    var p := Pieces(s, quoted);
    [Unquote(p[0], quoted)] + UnquoteAll(p[1..])
  }

  lemma ItemsComma(s: string)
    requires s != "" && s[0] == ','
    ensures ItemsFrom(s, false) == [""] + ItemsFrom(s[1..], false)
  {
    var p := Pieces(s[1..], false);
    assert Pieces(s, false)[1..] == p;
  }

  lemma ItemsPlain(s: string, quoted: bool)
    requires s != "" && s[0] != '"' && (quoted || s[0] != ',')
    ensures ItemsFrom(s, quoted) == Glue([s[0]], ItemsFrom(s[1..], quoted))
  {
    var p := Pieces(s[1..], quoted);
    assert Pieces(s, quoted)[1..] == p[1..];
    assert ([s[0]] + p[0])[1..] == p[0];
  }

  lemma ItemsOpen(s: string)
    requires s != "" && s[0] == '"'
    ensures ItemsFrom(s, false) == ItemsFrom(s[1..], true)
  {
    var p := Pieces(s[1..], true);
    assert Pieces(s, false)[1..] == p[1..];
    assert ([s[0]] + p[0])[1..] == p[0];
  }

  lemma ItemsDoubled(s: string)
    requires |s| > 1 && s[0] == '"' && s[1] == '"'
    ensures ItemsFrom(s, true) == Glue("\"", ItemsFrom(s[2..], true))
  {
    var p := Pieces(s[2..], true);
    assert s[1..][1..] == s[2..];
    assert Pieces(s[1..], false) == Glue("\"", p);
    assert Pieces(s, true) == Glue("\"", Glue("\"", p));
    var first := "\"" + ("\"" + p[0]);
    assert Pieces(s, true)[0] == first && Pieces(s, true)[1..] == p[1..];
    assert first[2..] == p[0];
  }

  lemma ItemsClose(s: string)
    requires s != "" && s[0] == '"' && (|s| > 1 ==> s[1] != '"')
    ensures ItemsFrom(s, true) == ItemsFrom(s[1..], false)
  {
    var p := Pieces(s[1..], false);
    var first := "\"" + p[0];
    assert Pieces(s, true)[0] == first && Pieces(s, true)[1..] == p[1..];
    assert first[1..] == p[0];
    assert p[0] != "" ==> p[0][0] == s[1];
  }

  /** The items finished, the text of the current one and the unread suffix still make up
      the whole list. */
  ghost predicate Parsed(inner: string, i: nat, quoted: bool, out: seq<string>, cur: string)
    requires i <= |inner|
  {
    out + Glue(cur, ItemsFrom(inner[i..], quoted)) == ListItems(inner)
  }

  lemma StepText(inner: string, i: nat, quoted: bool, out: seq<string>, cur: string)
    requires i < |inner| && Parsed(inner, i, quoted, out, cur)
    requires inner[i] != '"' && (quoted || inner[i] != ',')
    ensures Parsed(inner, i + 1, quoted, out, cur + [inner[i]])
  {
    var s := inner[i..];
    assert s[1..] == inner[i + 1..];
    ItemsPlain(s, quoted);
    GlueGlue(cur, [s[0]], ItemsFrom(s[1..], quoted));
  }

  lemma StepDoubled(inner: string, i: nat, out: seq<string>, cur: string)
    requires i + 1 < |inner| && inner[i] == '"' && inner[i + 1] == '"' && Parsed(inner, i, true, out, cur)
    ensures Parsed(inner, i + 2, true, out, cur + "\"")
  {
    var s := inner[i..];
    assert s[2..] == inner[i + 2..];
    ItemsDoubled(s);
    GlueGlue(cur, "\"", ItemsFrom(s[2..], true));
  }

  lemma StepToggle(inner: string, i: nat, quoted: bool, out: seq<string>, cur: string)
    requires i < |inner| && inner[i] == '"' && Parsed(inner, i, quoted, out, cur)
    requires quoted && i + 1 < |inner| ==> inner[i + 1] != '"'
    ensures Parsed(inner, i + 1, !quoted, out, cur)
  {
    var s := inner[i..];
    assert s[1..] == inner[i + 1..];
    if quoted {
      ItemsClose(s);
    } else {
      ItemsOpen(s);
    }
  }

  lemma StepComma(inner: string, i: nat, out: seq<string>, cur: string)
    requires i < |inner| && inner[i] == ',' && Parsed(inner, i, false, out, cur)
    ensures Parsed(inner, i + 1, false, out + [cur], "")
  {
    var s := inner[i..];
    assert s[1..] == inner[i + 1..];
    ItemsComma(s);
    var items := ItemsFrom(s[1..], false);
    GlueGlue("", "", items);
    assert cur + "" == cur;
    assert out + Glue(cur, [""] + items) == (out + [cur]) + items;
  }

  lemma ListFinished(inner: string, out: seq<string>, cur: string)
    requires Parsed(inner, |inner|, false, out, cur) || Parsed(inner, |inner|, true, out, cur)
    ensures out + [cur] == ListItems(inner)
  {
    assert inner[|inner|..] == "" && cur + "" == cur;
    assert Glue(cur, ItemsFrom("", false)) == [cur] == Glue(cur, ItemsFrom("", true));
  }

  /** The inner loop: takes a quoted run from just past its opening quote. */
  method QuotedRun(inner: string, from: nat, text: string, ghost out: seq<string>)
    returns (i: nat, cur: string, ghost quoted: bool)
    requires from <= |inner| && Parsed(inner, from, true, out, text)
    ensures from <= i <= |inner| && (quoted ==> i == |inner|)
    ensures Parsed(inner, i, quoted, out, cur)
  {
    i, cur := from, text;
    while i < |inner|
      invariant from <= i <= |inner|
      invariant Parsed(inner, i, true, out, cur)
    {
      if inner[i] == '"' {
        if i + 1 < |inner| && inner[i + 1] == '"' {
          StepDoubled(inner, i, out, cur);
          cur := cur + "\"";
          i := i + 2;
          continue;
        }
        StepToggle(inner, i, true, out, cur);
        return i + 1, cur, false;
      }
      StepText(inner, i, true, out, cur);
      cur := cur + [inner[i]];
      i := i + 1;
    }
    quoted := true;
  }

  /** The single-pass list parser. It agrees with splitting at the top-level commas and
      unquoting each piece. */
  method ParseList(source: string) returns (r: Result<seq<string>>)
    ensures r == ListOf(source)
  {
    var src := Trim(source);
    if !HasPrefix(src, "(") {
      return Failure(BadFilter);
    }
    if !HasSuffix(src, ")") {
      return Failure(BadFilter);
    }
    var inner := src[1..|src| - 1];
    if Trim(inner) == "" {
      return Failure(BadFilter);
    }
    var out := ScanItems(inner);
    return Success(out);
  }

  /** The item loop. Every pass leaves an item begun or finished, so the guard on the last
      append holds. */
  method ScanItems(inner: string) returns (out: seq<string>)
    requires inner != ""
    ensures out == ListItems(inner)
  {
    out := [];
    var cur := "";
    var i := 0;
    var seen := false;
    ghost var quoted := false;
    GlueGlue("", "", ItemsFrom(inner, false));
    assert inner[0..] == inner;
    while i < |inner|
      invariant 0 <= i <= |inner|
      invariant 0 < i ==> seen || |out| > 0
      invariant quoted ==> i == |inner|
      invariant Parsed(inner, i, quoted, out, cur)
    {
      var c := inner[i];
      if c == '"' {
        StepToggle(inner, i, false, out, cur);
        seen := true;
        i, cur, quoted := QuotedRun(inner, i + 1, cur, out);
      } else if c == ',' {
        StepComma(inner, i, out, cur);
        out := out + [cur];
        cur := "";
        seen := false;
        i := i + 1;
      } else {
        StepText(inner, i, false, out, cur);
        seen := true;
        cur := cur + [c];
        i := i + 1;
      }
    }
    ListFinished(inner, out, cur);
    assert seen || |out| > 0;
    if seen || |cur| > 0 || |out| > 0 {
      out := out + [cur];
    }
  }

  // ----- printing lists -----

  function PrintList(items: seq<string>): string {
    "(" + Join(QuoteAll(items), ",") + ")"
  }

  /** One escaped character is one character of the item. */
  lemma ItemsEscapedStep(c: char, tail: string)
    ensures ItemsFrom((if c == '"' then "\"\"" else [c]) + tail, true) == Glue([c], ItemsFrom(tail, true))
  {
    if c == '"' {
      var s := "\"\"" + tail;
      assert s[2..] == tail;
      ItemsDoubled(s);
    } else {
      var s := [c] + tail;
      assert s[1..] == tail;
      ItemsPlain(s, true);
    }
  }

  lemma EscapeCons(t: string, rest: string)
    requires t != ""
    ensures Escape(t, '"') + "\"" + rest ==
            (if t[0] == '"' then "\"\"" else [t[0]]) + (Escape(t[1..], '"') + "\"" + rest)
  {
    var head := if t[0] == '"' then "\"\"" else [t[0]];
    assert Escape(t, '"') == head + Escape(t[1..], '"');
  }

  lemma {:induction false} ItemsEscaped(t: string, rest: string)
    requires rest != "" ==> rest[0] != '"'
    ensures ItemsFrom(Escape(t, '"') + "\"" + rest, true) == Glue(t, ItemsFrom(rest, false))
  {
    if t == "" {
      var s := "\"" + rest;
      assert Escape(t, '"') + "\"" + rest == s && s[1..] == rest;
      ItemsClose(s);
      GlueGlue("", "", ItemsFrom(rest, false));
    } else {
      EscapeCons(t, rest);
      ItemsEscapedStep(t[0], Escape(t[1..], '"') + "\"" + rest);
      ItemsEscaped(t[1..], rest);
      GlueGlue([t[0]], t[1..], ItemsFrom(rest, false));
      assert [t[0]] + t[1..] == t;
    }
  }

  lemma ItemsQuote(t: string, rest: string)
    requires rest != "" ==> rest[0] != '"'
    ensures ItemsFrom(Quote(t, '"') + rest, false) == Glue(t, ItemsFrom(rest, false))
  {
    var s := Quote(t, '"') + rest;
    assert s[1..] == Escape(t, '"') + "\"" + rest;
    ItemsOpen(s);
    ItemsEscaped(t, rest);
  }

  lemma {:induction false} ItemsPrinted(items: seq<string>)
    requires items != []
    ensures ItemsFrom(Join(QuoteAll(items), ","), false) == items
  {
    var t := items[0];
    var quoted := QuoteAll(items);
    if |items| == 1 {
      assert Quote(t, '"') + "" == Quote(t, '"');
      ItemsQuote(t, "");
      assert t + "" == t;
    } else {
      var tail := Join(QuoteAll(items[1..]), ",");
      assert quoted[1..] == QuoteAll(items[1..]);
      assert Join(quoted, ",") == Quote(t, '"') + ("," + tail);
      ItemsQuote(t, "," + tail);
      ItemsComma("," + tail);
      assert ("," + tail)[1..] == tail;
      ItemsPrinted(items[1..]);
      assert t + "" == t;
    }
  }

  lemma ListTrimmed(inner: string)
    requires inner != "" && !IsSpace(inner[0])
    ensures ListOf("(" + inner + ")") == Success(ListItems(inner))
  {
    var s := "(" + inner + ")";
    assert s[0] == '(' && s[|s| - 1] == ')' && s[1..|s| - 1] == inner;
    TrimBetween("", s, "");
    assert "" + s + "" == s;
    var l, r := TrimSplits(inner);
    assert HasPrefix(s, "(") && HasSuffix(s, ")");
  }

  /** Any non-empty list of arbitrary texts survives quoting and parsing: commas, quotes,
      parens, dots and spaces included. */
  lemma ListRoundTrip(items: seq<string>)
    requires items != []
    ensures ListOf(PrintList(items)) == Success(items)
  {
    var inner := Join(QuoteAll(items), ",");
    assert inner != "" && inner[0] == '"' by {
      assert QuoteAll(items)[0][0] == '"';
    }
    ListTrimmed(inner);
    ItemsPrinted(items);
    assert ListItems(inner) == ItemsFrom(inner, false);
  }
}
