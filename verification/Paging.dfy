/** Paging over a fixed result: the server's pages and clients that follow them. */
module Paging {
  import opened Text
  import opened Wrapper
  import opened Reader
  import opened Shaping
  import opened Stream
  import opened Respond
  import opened Http

  /** What a page request returns: its rows and the trailers. */
  datatype Page<T> = Page(rows: seq<T>, trailers: map<string, string>)
  {
    function Range(): string {
      if "Content-Range" in trailers then trailers["Content-Range"] else ""
    }

    predicate Truncated() {
      "X-Truncated" in trailers
    }
  }

  function PageOptions(limit: int, offset: int): Options {
    Options([], [], [], limit, offset, true)
  }

  /** `limit=..&offset=..` over the ordered result, under the row cap. */
  function ServePage<T>(result: seq<T>, limit: int, offset: nat, cap: int): Page<T> {
    var rows := ApplyWindow(result, WindowOf(PageOptions(limit, offset)));
    var sent := if 0 < cap < |rows| then rows[..cap] else rows;
    Page(sent, if |sent| < |rows|
               then map["Content-Range" := RangeTrailer(offset, |sent|), "X-Truncated" := "true", "X-Max-Rows" := FormatInt(cap)]
               else map["Content-Range" := RangeTrailer(offset, |sent|)])
  }

  /** Rows as the stream sees them. */
  function Encoded<T>(rows: seq<T>, encode: T -> string): (r: seq<Fetched>)
    ensures |r| == |rows| && forall k :: 0 <= k < |r| ==> r[k] == Row(encode(rows[k]))
  {
    seq(|rows|, k requires 0 <= k < |rows| => Row(encode(rows[k])))
  }

  /** Streaming the windowed rows sends the lines of the page's rows, and its mark. */
  lemma PageIsStreamed<T>(result: seq<T>, limit: int, offset: nat, cap: int, encode: T -> string)
    ensures var window := Encoded(ApplyWindow(result, WindowOf(PageOptions(limit, offset))), encode);
            var page := ServePage(result, limit, offset, cap);
            && Plan(window, None, cap) == Outcome(|page.rows|, page.Truncated(), None)
            && Lines(window, |page.rows|) == Lines(Encoded(page.rows, encode), |page.rows|)
  {
    var window := Encoded(ApplyWindow(result, WindowOf(PageOptions(limit, offset))), encode);
    var page := ServePage(result, limit, offset, cap);
    CapIsExact(window, cap);
    assert window[..|page.rows|] == Encoded(page.rows, encode)[..|page.rows|];
    SamePrefix(window, Encoded(page.rows, encode), |page.rows|);
  }

  /** The page is what a client gets over a connection that holds: a status, its rows' lines, and
      trailers that say whether and where the cap cut it off. */
  method PageOverHttp<T>(result: seq<T>, limit: int, offset: nat, cap: int, encode: T -> string, render: ErrorRecord -> string)
    returns (w: ResponseWriter)
    requires IsInt64(cap)
    ensures var page := ServePage(result, limit, offset, cap);
            && w.status == Some(200) && w.trailers == page.trailers
            && w.body == Lines(Encoded(page.rows, encode), |page.rows|)
            && ReadTruncated(w.trailers) == if page.Truncated() then Some(cap) else None
    ensures ServePage(result, limit, offset, cap).Truncated() <==>
            0 < cap < |ApplyWindow(result, WindowOf(PageOptions(limit, offset)))|
  {
    w := new ResponseWriter(None);
    PageIsStreamed(result, limit, offset, cap, encode);
    var window := Encoded(ApplyWindow(result, WindowOf(PageOptions(limit, offset))), encode);
    var res, err := Serve(w, Answer.Rows(window, None), offset, cap, render);
    TruncationRead(RangeTrailer(offset, res.rows), cap);
  }

  /** Rows a full page holds. */
  function PageSize(limit: nat, cap: int): nat {
    if 0 < cap < limit then cap else limit
  }

  function Min(a: int, b: int): int {
    if a < b then a else b
  }

  /** Where the page after the one at offset starts. */
  function NextOffset(n: nat, limit: nat, offset: nat, cap: int): int {
    Min(offset + PageSize(limit, cap), n)
  }

  lemma PageRows<T>(result: seq<T>, limit: nat, offset: nat, cap: int)
    requires 1 <= limit && offset <= |result|
    ensures ServePage(result, limit, offset, cap).rows ==
            result[offset..NextOffset(|result|, limit, offset, cap)]
  {
    var rest := result[offset..];
    var rows := ApplyWindow(result, WindowOf(PageOptions(limit, offset)));
    assert rows == rest[..Min(limit, |rest|)];
    assert ServePage(result, limit, offset, cap).rows == rest[..Min(PageSize(limit, cap), |rest|)];
  }

  /** Pages needed for n rows. */
  function Pages(n: nat, size: nat): nat
    requires size >= 1
  {
    if n == 0 then 0 else 1 + Pages(if n > size then n - size else 0, size)
  }

  /** That is n / size, rounded up. */
  lemma {:induction false} PagesIsCeiling(n: nat, size: nat)
    requires size >= 1
    ensures n <= Pages(n, size) * size < n + size
    decreases n
  {
    if n > size {
      PagesIsCeiling(n - size, size);
    }
  }

  /** A client that asks again from `last + 1` until the range is empty collects every row once
      and in order, in one request per page and one for the empty page. The server's int64 ends of
      range never overflow. */
  method CollectByRange<T>(result: seq<T>, limit: nat, cap: int) returns (got: seq<T>, requests: nat)
    requires 1 <= limit && IsInt64(|result|)
    ensures got == result
    ensures requests == Pages(|result|, PageSize(limit, cap)) + 1
  {
    got := [];
    requests := 0;
    var offset: nat := 0;
    while true
      invariant offset <= |result| && got == result[..offset]
      invariant requests + Pages(|result| - offset, PageSize(limit, cap)) == Pages(|result|, PageSize(limit, cap))
      decreases |result| - offset
    {
      var rows, next := FetchPage(result, limit, offset, cap);
      requests := requests + 1;
      Prefixes(result, offset, NextOffset(|result|, limit, offset, cap));
      if next.None? {
        return;
      }
      got := got + rows;
      offset := next.value;
    }
  }

  /** One request of such a client: the rows, and `last + 1` as read from the trailer. */
  method FetchPage<T>(result: seq<T>, limit: nat, offset: nat, cap: int) returns (rows: seq<T>, next: Option<int>)
    requires 1 <= limit && IsInt64(|result|) && offset <= |result|
    ensures var after := NextOffset(|result|, limit, offset, cap);
            && offset <= after <= |result| && rows == result[offset..after]
            && next == (if offset == |result| then None else Some(after))
            && (offset < |result| ==> offset < after)
            && Pages(|result| - offset, PageSize(limit, cap)) ==
               if offset == |result| then 0 else 1 + Pages(|result| - after, PageSize(limit, cap))
  {
    var range;
    rows, range := RequestPage(result, limit, offset, cap);
    PageAdvances(|result|, limit, offset, cap);
    next := if range.None? then None else Some(range.value.1 + 1);
  }

  /** The exchange itself: the rows of the page and the range its trailer names. */
  method RequestPage<T>(result: seq<T>, limit: nat, offset: nat, cap: int) returns (rows: seq<T>, range: Option<(int, int)>)
    requires 1 <= limit && IsInt64(|result|) && offset <= |result|
    ensures var next := NextOffset(|result|, limit, offset, cap);
            && offset <= next <= |result| && rows == result[offset..next]
            && range == if offset == |result| then None else Some((offset, next - 1))
  {
    var page := ServePage(result, limit, offset, cap);
    PageRange(result, limit, offset, cap);
    return page.rows, ReadRange(page.Range());
  }

  lemma Prefixes<T>(s: seq<T>, a: int, b: int)
    requires 0 <= a <= b <= |s|
    ensures s[..a] + s[a..b] == s[..b] && s[..|s|] == s
  {
  }

  /** What a client learns from a page: that it is past the end, or where the next page starts. */
  lemma PageRange<T>(result: seq<T>, limit: nat, offset: nat, cap: int)
    requires 1 <= limit && IsInt64(|result|) && offset <= |result|
    ensures var page := ServePage(result, limit, offset, cap);
            var next := NextOffset(|result|, limit, offset, cap);
            && page.rows == result[offset..next]
            && ReadRange(page.Range()) == if offset == |result| then None else Some((offset, next - 1))
  {
    PageRows(result, limit, offset, cap);
    RangeRoundTrip(offset, NextOffset(|result|, limit, offset, cap) - offset);
  }

  /** Every page before the end moves on, with one page less to go. */
  lemma PageAdvances(n: nat, limit: nat, offset: nat, cap: int)
    requires 1 <= limit && offset <= n
    ensures var next := NextOffset(n, limit, offset, cap);
            && offset <= next <= n && (offset < n ==> offset < next)
            && Pages(n - offset, PageSize(limit, cap)) ==
               if offset == n then 0 else 1 + Pages(n - next, PageSize(limit, cap))
  {
  }

  /** A client that stops at the first page shorter than it asked for. It collects everything
      exactly when the cap does not cut its pages short, or the whole result fits one page. */
  method CollectUntilShort<T>(result: seq<T>, limit: nat, cap: int) returns (got: seq<T>)
    requires 1 <= limit
    ensures got == result <==> cap <= 0 || limit <= cap || |result| <= cap
    ensures got <= result
  {
    got := [];
    var offset: nat := 0;
    while true
      invariant offset <= |result| && got == result[..offset]
      invariant 0 < cap < limit ==> offset == 0
      decreases |result| - offset
    {
      var page := ServePage(result, limit, offset, cap);
      PageRows(result, limit, offset, cap);
      got := got + page.rows;
      offset := offset + |page.rows|;
      assert got == result[..offset];
      if |page.rows| < limit {
        assert offset == |result| ==> got == result;
        return;
      }
    }
  }

  /** On a page shorter than asked for, rows remain beyond it exactly when it is marked truncated. */
  lemma ShortPageTruncated<T>(result: seq<T>, limit: nat, offset: nat, cap: int)
    requires 1 <= limit
    ensures var page := ServePage(result, limit, offset, cap);
            |page.rows| < limit ==> (page.Truncated() <==> offset + |page.rows| < |result|)
  {
  }

  // ----- paging through errors -----

  /** A run of requests over a result. `faults` says after how many sent rows a request meets a
      driver error, if it gets that far. */
  datatype Run<!T> = Run(result: seq<T>, limit: nat, cap: int, encode: T -> string, faults: nat -> Option<nat>)
  {
    predicate At(offset: nat) {
      1 <= limit && offset <= |result|
    }

    function PageEnd(offset: nat): (e: nat)
      requires At(offset)
      ensures offset <= e <= |result| && (offset < |result| ==> offset < e)
    {
      NextOffset(|result|, limit, offset, cap)
    }

    /** The error comes before any row: a status, and no trailer. */
    predicate Refuses(request: nat) {
      faults(request) == Some(0)
    }

    /** It comes after some of the page's rows, or after the last of them. */
    predicate BreaksOff(request: nat, offset: nat)
      requires At(offset)
    {
      faults(request).Some? && 0 < faults(request).value <= PageEnd(offset) - offset
    }

    /** The rows sent before the error. */
    function Events(request: nat, offset: nat): (r: seq<Fetched>)
      requires At(offset) && BreaksOff(request, offset)
      ensures |r| == faults(request).value
    {
      Encoded(result[offset..offset + faults(request).value], encode)
    }

    /** Where the rows that the trailer counts end. */
    function Counted(request: nat, offset: nat): (c: nat)
      requires At(offset) && offset < |result|
      ensures offset < c <= |result|
    {
      if BreaksOff(request, offset) then offset + faults(request).value else PageEnd(offset)
    }

    /** Where the rows that reach the client whole end. */
    function Reached(request: nat, offset: nat): (r: nat)
      requires At(offset) && offset < |result|
      ensures offset <= r <= Counted(request, offset)
    {
      if BreaksOff(request, offset) then offset + Arrived(Events(request, offset), faults(request).value)
      else PageEnd(offset)
    }

    /** Whether the client stops here: at an error status, or past the end. */
    predicate Stops(request: nat, offset: nat) {
      Refuses(request) || offset >= |result|
    }

    /** Where the client, always going on after the counted rows, stops; and whether at an error. */
    function Stop(request: nat, offset: nat): (r: (nat, bool))
      requires At(offset)
      ensures offset <= r.0 <= |result| && (r.0 < |result| ==> r.1)
      decreases |result| - offset
    {
      if Stops(request, offset) then (offset, Refuses(request)) else Stop(request + 1, Counted(request, offset))
    }

    /** The positions before that which it never receives. */
    function Missed(request: nat, offset: nat): (m: set<nat>)
      requires At(offset)
      decreases |result| - offset
    {
      if Stops(request, offset) then {}
      else Between(Reached(request, offset), Counted(request, offset)) + Missed(request + 1, Counted(request, offset))
    }

    /** No response breaks off while rows are waiting in the buffer. */
    predicate AllOut(request: nat, offset: nat)
      requires At(offset)
      decreases |result| - offset
    {
      Stops(request, offset) ||
      (&& (BreaksOff(request, offset) ==> Level(Events(request, offset), faults(request).value) == 0)
       && AllOut(request + 1, Counted(request, offset)))
    }
  }

  /** However the error shows up, the response counts the rows sent before it: as the driver's last
      word, after the last row or at the cap, or in place of a further row. */
  lemma BreakIsStreamed<T>(run: Run<T>, request: nat, offset: nat, more: seq<Fetched>)
    requires run.At(offset) && run.BreaksOff(request, offset)
    ensures var events, k := run.Events(request, offset), run.faults(request).value;
            var counted := Some(AfterFirst(Database));
            && Plan(events, Some(Database), run.cap) == Outcome(k, false, counted)
            && (k == run.cap && more != [] ==> Plan(events + more, Some(Database), run.cap) == Outcome(k, true, counted))
            && (k != run.cap ==> Plan(events + [Broken(Database)], None, run.cap) == Outcome(k, false, counted))
            && Sent(events + more, k) == Sent(events, k) && Arrived(events + more, k) == Arrived(events, k)
  {
    var events, k := run.Events(request, offset), run.faults(request).value;
    assert 0 < run.cap ==> k <= run.cap;
    assert forall j :: 0 <= j < k ==> (events + more)[j] == events[j] && (events + [Broken(Database)])[j] == events[j];
    assert (events + [Broken(Database)])[k] == Broken(Database);
    SameSent(events, more);
  }

  lemma SameSent(events: seq<Fetched>, more: seq<Fetched>)
    ensures Sent(events + more, |events|) == Sent(events, |events|)
    ensures Arrived(events + more, |events|) == Arrived(events, |events|)
  {
    assert (events + more)[..|events|] == events == events[..|events|];
    SamePrefix(events + more, events, |events|);
    SameWholeLines(events, more, |events|, |Sent(events, |events|)|);
  }

  lemma {:induction false} SameWholeLines(events: seq<Fetched>, more: seq<Fetched>, rows: nat, n: nat)
    requires rows <= |events|
    ensures WholeLines(events + more, rows, n) == WholeLines(events, rows, n)
  {
    assert (events + more)[..rows] == events[..rows];
    SamePrefix(events + more, events, rows);
    if rows != 0 {
      SameWholeLines(events, more, rows - 1, n);
    }
  }

  /** An error before any row is still answered with a status. */
  lemma RefusalIsStreamed(events: seq<Fetched>, cap: int)
    ensures Plan([], Some(Database), cap) == Outcome(0, false, Some(Plain(Database)))
    ensures events != [] && events[0] == Broken(Database) ==> Plan(events, None, cap) == Outcome(0, false, Some(Plain(Database)))
  {
  }

  function Between(a: nat, b: nat): (s: set<nat>)
    ensures forall k :: k in s <==> a <= k < b
  {
    if b <= a then {} else Between(a, b - 1) + {b - 1}
  }

  /** The first n of s but for the missed positions. */
  function Keep<T>(s: seq<T>, missed: set<nat>, n: nat): (r: seq<T>)
    requires n <= |s|
    ensures |r| <= n
  {
    if n == 0 then [] else Keep(s, missed, n - 1) + if n - 1 in missed then [] else [s[n - 1]]
  }

  lemma {:induction false} KeepRun<T>(s: seq<T>, missed: set<nat>, a: nat, m: nat, b: nat)
    requires a <= m <= b <= |s|
    requires forall k :: a <= k < b ==> (k in missed <==> m <= k)
    ensures Keep(s, missed, b) == Keep(s, missed, a) + s[a..m]
    decreases b
  {
    if a < b {
      if m < b {
        KeepRun(s, missed, a, m, b - 1);
      } else {
        KeepRun(s, missed, a, b - 1, b - 1);
        assert s[a..b] == s[a..b - 1] + [s[b - 1]];
      }
    }
  }

  lemma {:induction false} KeepAll<T>(s: seq<T>, missed: set<nat>, n: nat)
    requires n <= |s|
    ensures Keep(s, missed, n) == s[..n] <==> forall k :: 0 <= k < n ==> k !in missed
  {
    if n != 0 {
      KeepAll(s, missed, n - 1);
      assert s[..n] == s[..n - 1] + [s[n - 1]];
      if Keep(s, missed, n) == s[..n] {
        assert n - 1 !in missed;
        assert Keep(s, missed, n)[..n - 1] == Keep(s, missed, n - 1) == s[..n][..n - 1] == s[..n - 1];
      }
    }
  }

  lemma {:induction false} MissedWithin<T>(run: Run<T>, request: nat, offset: nat)
    requires run.At(offset)
    ensures forall k :: k in run.Missed(request, offset) ==> offset <= k < run.Stop(request, offset).0
    decreases |run.result| - offset
  {
    if !run.Stops(request, offset) {
      MissedWithin(run, request + 1, run.Counted(request, offset));
    }
  }

  lemma {:induction false} MissedNone<T>(run: Run<T>, request: nat, offset: nat)
    requires run.At(offset)
    ensures run.Missed(request, offset) == {} <==> run.AllOut(request, offset)
    decreases |run.result| - offset
  {
    if !run.Stops(request, offset) {
      var reached, next := run.Reached(request, offset), run.Counted(request, offset);
      MissedNone(run, request + 1, next);
      if run.BreaksOff(request, offset) {
        ArrivedIs(run.Events(request, offset), run.faults(request).value);
      }
      assert reached < next ==> reached in Between(reached, next);
      assert reached == next ==> Between(reached, next) == {};
    }
  }

  /** A client that goes on from `last + 1` after partial responses too, until an error status or
      the end. Up to there it loses exactly the rows that were counted but still in the buffer; it
      collects everything exactly when it gets to the end and no response broke off with rows
      waiting. */
  method CollectThroughFaults<T>(run: Run<T>) returns (got: seq<T>, failed: bool)
    requires 1 <= run.limit && IsInt64(|run.result|)
    ensures got == Keep(run.result, run.Missed(0, 0), run.Stop(0, 0).0) && failed == run.Stop(0, 0).1
    ensures got == run.result <==> run.Stop(0, 0).0 == |run.result| && run.AllOut(0, 0)
  {
    got, failed := [], false;
    var offset: nat, request: nat := 0, 0;
    ghost var missed, stop := run.Missed(0, 0), run.Stop(0, 0);
    var reply := FetchThroughFaults(run, 0, 0);
    while reply.Part?
      invariant run.At(offset) && got == Keep(run.result, missed, offset)
      invariant run.Stop(request, offset) == stop
      invariant forall k :: offset <= k ==> (k in missed <==> k in run.Missed(request, offset))
      invariant IsReply(run, request, offset, reply)
      decreases |run.result| - offset
    {
      KeepStep(run, missed, request, offset);
      got := got + reply.rows;
      offset, request := reply.next, request + 1;
      reply := FetchThroughFaults(run, request, offset);
    }
    failed := reply.Status?;
    KeptAll(run);
  }

  /** What one more response adds to what is kept, and what it leaves to be missed. */
  lemma KeepStep<T>(run: Run<T>, missed: set<nat>, request: nat, offset: nat)
    requires run.At(offset) && !run.Stops(request, offset)
    requires forall k :: offset <= k ==> (k in missed <==> k in run.Missed(request, offset))
    ensures var reached, next := run.Reached(request, offset), run.Counted(request, offset);
            && Keep(run.result, missed, next) == Keep(run.result, missed, offset) + run.result[offset..reached]
            && forall k :: next <= k ==> (k in missed <==> k in run.Missed(request + 1, next))
  {
    var reached, next := run.Reached(request, offset), run.Counted(request, offset);
    MissedWithin(run, request + 1, next);
    assert run.Missed(request, offset) == Between(reached, next) + run.Missed(request + 1, next);
    assert forall k :: offset <= k < next ==> (k in missed <==> k in Between(reached, next));
    KeepRun(run.result, missed, offset, reached, next);
  }

  /** All is kept exactly if the run gets to the end and nothing was waiting. */
  lemma KeptAll<T>(run: Run<T>)
    requires run.At(0)
    ensures Keep(run.result, run.Missed(0, 0), run.Stop(0, 0).0) == run.result <==>
            run.Stop(0, 0).0 == |run.result| && run.AllOut(0, 0)
  {
    var stop := run.Stop(0, 0).0;
    KeepAll(run.result, run.Missed(0, 0), stop);
    MissedWithin(run, 0, 0);
    MissedNone(run, 0, 0);
    assert run.result[..|run.result|] == run.result;
  }

  /** What a client makes of one response: an error status, an empty range, or rows
      and where to go on. */
  datatype Reply<T> = Status | Past | Part(rows: seq<T>, next: nat)

  ghost predicate IsReply<T>(run: Run<T>, request: nat, offset: nat, reply: Reply<T>)
    requires run.At(offset)
  {
    if run.Refuses(request) then reply.Status?
    else if offset == |run.result| then reply.Past?
    else reply == Part(run.result[offset..run.Reached(request, offset)], run.Counted(request, offset))
  }

  /** One request: the rows that arrive whole, and `last + 1` as read from the trailer. */
  method FetchThroughFaults<T>(run: Run<T>, request: nat, offset: nat) returns (reply: Reply<T>)
    requires run.At(offset) && IsInt64(|run.result|)
    ensures IsReply(run, request, offset, reply)
  {
    if run.Refuses(request) {
      return Status;
    }
    var page := ServePage(run.result, run.limit, offset, run.cap);
    PageRows(run.result, run.limit, offset, run.cap);
    if |page.rows| == 0 {
      return Past;
    }
    var reached := run.Reached(request, offset) - offset;
    FirstOf(run.result, offset, run.PageEnd(offset), reached);
    var next := FollowTrailer(offset, run.Counted(request, offset) - offset);
    reply := Part(page.rows[..reached], next);
  }

  /** `last + 1`, as a client computes it from the trailer of a response with some rows. */
  method FollowTrailer(offset: nat, counted: nat) returns (next: nat)
    requires 0 < counted && IsInt64(offset + counted)
    ensures next == offset + counted
  {
    RangeRoundTrip(offset, counted);
    var range := ReadRange(RangeTrailer(offset, counted));
    next := range.value.1 + 1;
  }

  lemma FirstOf<T>(s: seq<T>, a: nat, b: nat, k: nat)
    requires a + k <= b <= |s|
    ensures s[a..b][..k] == s[a..a + k]
  {
  }

  /** The shortest loss: one row that fits the buffer, and a driver error after it, the last row of
      its page. The client reads that it was sent, goes on behind it and finds the end. */
  lemma LastRowMissed<T>(run: Run<T>)
    requires 1 <= run.limit && |run.result| == 1 && 0 < |run.encode(run.result[0])| <= BUFFER_SIZE
    requires run.faults(0) == Some(1) && run.faults(1) == None
    ensures run.Stop(0, 0) == (1, false) && run.Missed(0, 0) == {0} && !run.AllOut(0, 0)
  {
    var line := run.encode(run.result[0]);
    assert run.result[0..1] == run.result;
    assert run.Events(0, 0) == [Row(line)];
    OneRowCountedNotDelivered(line);
    assert Between(0, 1) == {0} && run.Missed(1, 1) == {};
    MissedNone(run, 0, 0);
  }
}
