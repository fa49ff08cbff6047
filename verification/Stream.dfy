/** Streaming a result set (exec.go): one JSON line a row through a buffered writer, with a row
    cap and a periodic flush. */
module Stream {
  import opened Text
  import opened Http

  datatype Cause = Deadline | Database | Disconnected | Encoding

  /** What fetching one more row brings: a row and its encoded line, or what goes wrong with it
      (the context has expired, it does not scan, or it has no JSON form). */
  datatype Fetched = Row(line: string) | Broken(cause: Cause)

  /** A query as the driver answers it. `closing` is what rows.Err() reports in the end. */
  datatype Answer = Refused(cause: Cause) | Rows(events: seq<Fetched>, closing: Option<Cause>)

  /** Plain errors can still become a status; the others came after the first row. */
  datatype StreamError = Plain(cause: Cause) | AfterFirst(cause: Cause)

  datatype StreamResult = StreamResult(rows: nat, truncated: bool)

  const BUFFER_SIZE: nat := 32768

  const FLUSH_EVERY: nat := 256

  function WrapAfterFirst(written: nat, cause: Cause): StreamError {
    if written > 0 then AfterFirst(cause) else Plain(cause)
  }

  /** How many rows come before the first that cannot be sent. */
  function GoodRows(events: seq<Fetched>): (n: nat)
    ensures n <= |events| && (forall k :: 0 <= k < n ==> events[k].Row?) && (n < |events| ==> events[n].Broken?)
  {
    if events != [] && events[0].Row? then 1 + GoodRows(events[1..]) else 0
  }

  /** The lines of the first n rows, in order. */
  function Lines(events: seq<Fetched>, n: nat): string
    requires n <= |events|
  {
    if n == 0 then "" else Lines(events, n - 1) + LineOf(events[n - 1])
  }

  function LineOf(e: Fetched): string {
    match e
    case Row(line) => line
    case Broken(_) => ""
  }

  lemma {:induction false} LinesPrefix(events: seq<Fetched>, m: nat, n: nat)
    requires m <= n <= |events|
    ensures Lines(events, m) <= Lines(events, n)
  {
    if m < n {
      LinesPrefix(events, m, n - 1);
    }
  }

  /** Rows sent when the connection holds, whether the cap cut them off, and the error. */
  datatype Outcome = Outcome(rows: nat, truncated: bool, error: Option<StreamError>)

  function Plan(events: seq<Fetched>, closing: Option<Cause>, cap: int): (o: Outcome)
    ensures o.rows <= GoodRows(events)
  {
    var good := GoodRows(events);
    if 0 < cap <= good && cap < |events| then
      Outcome(cap, true, Closed(cap, closing))
    else if good < |events| then
      Outcome(good, false, Some(WrapAfterFirst(good, events[good].cause)))
    else
      Outcome(good, false, Closed(good, closing))
  }

  function Closed(rows: nat, closing: Option<Cause>): Option<StreamError> {
    match closing
    case None => None
    case Some(cause) => Some(WrapAfterFirst(rows, cause))
  }

  /** Rows in whole batches: those a flush is certain to have followed. */
  function Flushed(rows: nat): (n: nat)
    ensures n <= rows < n + FLUSH_EVERY && n % FLUSH_EVERY == 0
    ensures rows - n == rows % FLUSH_EVERY
  {
    rows - rows % FLUSH_EVERY
  }

  /** Bytes of the first rows that are still in the buffer when the run is at that point, over a
      connection that holds. */
  function Level(events: seq<Fetched>, rows: nat): (l: nat)
    requires rows <= |events|
    ensures l <= BUFFER_SIZE && l <= |Lines(events, rows)|
  {
    if rows % FLUSH_EVERY == 0 then 0
    else Waiting(BUFFER_SIZE, Level(events, rows - 1), |LineOf(events[rows - 1])|)
  }

  /** What has been delivered by then. */
  function Sent(events: seq<Fetched>, rows: nat): string
    requires rows <= |events|
  {
    Lines(events, rows)[..|Lines(events, rows)| - Level(events, rows)]
  }

  /** The loop's account of its output: what was delivered, then what waits, is the lines of the
      rows so far. */
  ghost predicate Accounted(body: string, buf: string, start: string, events: seq<Fetched>, rows: nat)
    requires rows <= |events|
  {
    start <= body && body + buf == start + Lines(events, rows)
  }

  lemma AccountedPrefix(start: string, events: seq<Fetched>, rows: nat, body: string, buf: string)
    requires rows <= GoodRows(events) && Accounted(body, buf, start, events, rows)
    ensures start <= body <= start + Lines(events, rows) <= start + Lines(events, GoodRows(events))
    ensures |buf| == Level(events, rows) ==> body == start + Sent(events, rows)
  {
    LinesPrefix(events, rows, GoodRows(events));
    var all := body + buf;
    assert body == all[..|body|] && all[..|all| - |buf|] == body;
    if |buf| == Level(events, rows) {
      var lines := Lines(events, rows);
      assert (start + lines)[..|start| + (|lines| - |buf|)] == start + lines[..|lines| - |buf|];
    }
  }

  /** What a run says about itself, whatever the connection does: errors after the first counted
      row are marked, success delivers exactly the counted rows, and everything delivered is a
      prefix of the rows in order. */
  ghost predicate Reported(answer: Answer, start: string, body: string, res: StreamResult, err: Option<StreamError>) {
    && (err.Some? ==> (err.value.AfterFirst? <==> res.rows > 0))
    && match answer
       case Refused(cause) => res == StreamResult(0, false) && err == Some(Plain(cause)) && body == start
       case Rows(events, closing) =>
         && res.rows <= GoodRows(events)
         && start <= body <= start + Lines(events, GoodRows(events))
         && (err.None? ==> body == start + Lines(events, res.rows))
  }

  /** What a run does when no write fails: the planned rows, flag and error, and exactly the bytes
      that had left the buffer. */
  ghost predicate Held(answer: Answer, cap: int, start: string, body: string, res: StreamResult, err: Option<StreamError>) {
    answer.Rows? ==>
      var events := answer.events;
      var plan := Plan(events, answer.closing, cap);
      && res == StreamResult(plan.rows, plan.truncated) && err == plan.error
      && body == start + if err.Some? then Sent(events, res.rows) else Lines(events, res.rows)
  }

  /** A row that cannot be sent ends the run as planned. */
  lemma StoppedReport(answer: Answer, cap: int, start: string, body: string, buf: string, i: nat)
    requires answer.Rows? && i < |answer.events| && i == GoodRows(answer.events)
    requires Accounted(body, buf, start, answer.events, i) && (cap <= 0 || i < cap)
    requires |buf| == Level(answer.events, i)
    ensures var err := Some(WrapAfterFirst(i, answer.events[i].cause));
            && Reported(answer, start, body, StreamResult(i, false), err)
            && Held(answer, cap, start, body, StreamResult(i, false), err)
  {
    AccountedPrefix(start, answer.events, i, body, buf);
  }

  /** So does running out of rows, or into the cap. */
  lemma FinishedReport(answer: Answer, cap: int, start: string, body: string, buf: string, after: string,
                       res: StreamResult, err: Option<StreamError>)
    requires answer.Rows? && res.rows <= GoodRows(answer.events)
    requires if res.truncated then 0 < cap == res.rows < |answer.events|
             else res.rows == |answer.events| && (cap <= 0 || res.rows <= cap)
    requires Accounted(body, buf, start, answer.events, res.rows)
    requires |buf| == Level(answer.events, res.rows)
    requires err.Some? && answer.closing.Some? ==> after == body
    requires match answer.closing
             case Some(cause) => err == Some(WrapAfterFirst(res.rows, cause))
             case None => err == None || err == Some(WrapAfterFirst(res.rows, Disconnected))
    requires start <= after <= start + Lines(answer.events, res.rows)
    requires err.None? ==> after == start + Lines(answer.events, res.rows)
    ensures Reported(answer, start, after, res, err)
    ensures answer.closing.Some? || err.None? ==> Held(answer, cap, start, after, res, err)
  {
    AccountedPrefix(start, answer.events, res.rows, body, buf);
  }

  /** The first row's line alone overflows the buffer, and the connection does not take it. */
  predicate Lost(answer: Answer, room: Option<nat>) {
    && answer.Rows? && answer.events != [] && answer.events[0].Row?
    && |answer.events[0].line| > BUFFER_SIZE && !Takes(room, |answer.events[0].line|)
  }

  /** Writing sends status 200 if none was sent, and no other. */
  ghost predicate Committed(before: Option<int>, after: Option<int>) {
    if before.Some? then after == before else after == None || after == Some(200)
  }

  /** The run cannot have ended because a write failed. */
  predicate NoFailedWrite(room: Option<nat>, err: Option<StreamError>) {
    room.None? || err.None? || err.value.cause != Disconnected
  }

  method StreamQuery(answer: Answer, w: ResponseWriter, maxRows: int) returns (res: StreamResult, err: Option<StreamError>)
    modifies w`status, w`body, w`room
    ensures Reported(answer, old(w.body), w.body, res, err)
    ensures NoFailedWrite(old(w.room), err) ==> Held(answer, maxRows, old(w.body), w.body, res, err)
    ensures w.room.None? == old(w.room).None?
    ensures Committed(old(w.status), w.status)
    ensures w.body != old(w.body) || err.None? ==> w.status.Some?
    ensures Lost(answer, old(w.room)) ==> err.Some? && err.value.Plain? && w.status.Some?
    ensures err.Some? && err.value.Plain? && !Lost(answer, old(w.room)) ==> w.status == old(w.status)
  {
    res := StreamResult(0, false);
    if answer.Refused? {
      return res, Some(Plain(answer.cause));
    }
    var events := answer.events;
    ghost var start := w.body;
    var bw := new BufferedWriter(w, BUFFER_SIZE);
    res, err := SendRows(answer, w, bw, maxRows, start);
    if err.Some? {
      return;
    }
    ghost var body, buf := w.body, bw.buf;
    err := Finish(answer, w, bw, res, start);
    FinishedReport(answer, maxRows, start, body, buf, w.body, res, err);
  }

  /** The row loop. It ends with an error, at the cap, or with the last row. */
  method SendRows(answer: Answer, w: ResponseWriter, bw: BufferedWriter, maxRows: int, ghost start: string)
    returns (res: StreamResult, err: Option<StreamError>)
    requires answer.Rows? && bw.sink == w && bw.size == BUFFER_SIZE && bw.Valid() && !bw.failed
    requires w.body == start && bw.buf == ""
    modifies bw, w`status, w`body, w`room
    ensures err.Some? ==> Reported(answer, start, w.body, res, err)
    ensures err.Some? && NoFailedWrite(w.room, err) ==> Held(answer, maxRows, start, w.body, res, err)
    ensures err.None? ==>
              && bw.Valid() && !bw.failed && res.rows <= GoodRows(answer.events)
              && Accounted(w.body, bw.buf, start, answer.events, res.rows)
              && |bw.buf| == Level(answer.events, res.rows)
              && if res.truncated then 0 < maxRows == res.rows < |answer.events|
                 else res.rows == |answer.events| && (maxRows <= 0 || res.rows <= maxRows)
    ensures w.room.None? == old(w.room).None?
    ensures Committed(old(w.status), w.status) && (w.body != start ==> w.status.Some?)
    ensures Lost(answer, old(w.room)) ==> res.rows == 0 && err.Some? && w.status.Some?
    ensures res.rows == 0 && !Lost(answer, old(w.room)) ==> w.status == old(w.status)
  {
    res := StreamResult(0, false);
    var events := answer.events;
    var i := 0;
    while i < |events|
      invariant 0 <= i <= GoodRows(events) && res == StreamResult(i, false)
      invariant bw.Valid() && !bw.failed && Accounted(w.body, bw.buf, start, events, i)
      invariant w.room.None? == old(w.room).None? && |bw.buf| == Level(events, i)
      invariant Committed(old(w.status), w.status) && (w.body != start ==> w.status.Some?)
      invariant i == 0 ==> w.status == old(w.status) && w.room == old(w.room) && bw.buf == ""
      invariant i > 0 ==> !Lost(answer, old(w.room))
      invariant maxRows <= 0 || i <= maxRows
    {
      if maxRows > 0 && res.rows >= maxRows {
        return res.(truncated := true), None;
      }
      if events[i].Broken? {
        StoppedReport(answer, maxRows, start, w.body, bw.buf, i);
        return res, Some(WrapAfterFirst(res.rows, events[i].cause));
      }
      var rows, ok := SendRow(w, bw, events, i, start);
      res := res.(rows := rows);
      if !ok {
        LinesPrefix(events, i + 1, GoodRows(events));
        return res, Some(WrapAfterFirst(res.rows, Disconnected));
      }
      i := i + 1;
    }
    return res, None;
  }

  /** Encodes one row, counts it, and flushes at the end of a batch. */
  method SendRow(w: ResponseWriter, bw: BufferedWriter, events: seq<Fetched>, i: nat, ghost start: string)
    returns (rows: nat, ok: bool)
    requires i < |events| && events[i].Row?
    requires bw.sink == w && bw.size == BUFFER_SIZE && bw.Valid() && !bw.failed
    requires Accounted(w.body, bw.buf, start, events, i) && |bw.buf| == Level(events, i)
    modifies bw, w`status, w`body, w`room
    ensures ok ==> rows == i + 1 && bw.Valid() && !bw.failed && Accounted(w.body, bw.buf, start, events, i + 1)
    ensures ok ==> |bw.buf| == Level(events, i + 1)
    ensures !ok ==> rows == i || rows == i + 1
    ensures !ok && rows == i ==> |old(bw.buf)| + |events[i].line| > BUFFER_SIZE
    ensures old(bw.buf) == "" && |events[i].line| > BUFFER_SIZE ==>
              w.status.Some? && (rows == i + 1 <==> Takes(old(w.room), |events[i].line|))
    ensures start <= w.body <= start + Lines(events, i + 1)
    ensures w.room.None? == old(w.room).None? && (w.room.None? ==> ok)
    ensures Committed(old(w.status), w.status)
    ensures w.body != old(w.body) ==> w.status.Some?
  {
    ok := bw.Write(events[i].line);
    Assoc(start, Lines(events, i), events[i].line);
    rows := i;
    if !ok {
      return;
    }
    rows := i + 1;
    if rows % FLUSH_EVERY == 0 {
      ok := bw.Flush();
      assert w.body <= bw.Accepted();
      if !ok {
        return;
      }
      w.Flush();
    }
  }

  /** The end of the loop: the driver's last word, then the rest of the buffer. */
  method Finish(answer: Answer, w: ResponseWriter, bw: BufferedWriter, res: StreamResult, ghost start: string)
    returns (err: Option<StreamError>)
    requires answer.Rows? && res.rows <= GoodRows(answer.events)
    requires bw.sink == w && bw.Valid() && !bw.failed && Accounted(w.body, bw.buf, start, answer.events, res.rows)
    modifies bw, w`status, w`body, w`room
    ensures err.Some? && answer.closing.Some? ==> w.body == old(w.body)
    ensures err.Some? && (answer.closing.Some? || res.rows == 0) ==> w.status == old(w.status)
    ensures match answer.closing
            case Some(cause) => err == Some(WrapAfterFirst(res.rows, cause))
            case None => err == None || err == Some(WrapAfterFirst(res.rows, Disconnected))
    ensures start <= w.body <= start + Lines(answer.events, res.rows)
    ensures err.None? ==> w.body == start + Lines(answer.events, res.rows) && w.status.Some?
    ensures w.room.None? == old(w.room).None? && (w.room.None? && answer.closing.None? ==> err.None?)
    ensures Committed(old(w.status), w.status)
    ensures w.body != old(w.body) ==> w.status.Some?
  {
    AccountedPrefix(start, answer.events, res.rows, w.body, bw.buf);
    if answer.closing.Some? {
      return Some(WrapAfterFirst(res.rows, answer.closing.value));
    }
    assert res.rows == 0 ==> |bw.buf| == 0;
    var ok := bw.Flush();
    assert w.body <= bw.Accepted();
    if !ok {
      return Some(WrapAfterFirst(res.rows, Disconnected));
    }
    assert w.body + "" == w.body;
    w.Flush();
    return None;
  }

  // ----- what the plan says -----

  /** The cap is exact: of n sendable rows the first min(n, cap) go out, and the run is marked
      truncated exactly when rows were left. */
  lemma CapIsExact(events: seq<Fetched>, cap: int)
    requires GoodRows(events) == |events|
    ensures var plan := Plan(events, None, cap);
            && plan.rows == (if 0 < cap < |events| then cap else |events|)
            && (plan.truncated <==> 0 < cap < |events|)
            && plan.error == None
  {
  }

  lemma {:induction false} LinesGrow(events: seq<Fetched>, m: nat, n: nat)
    requires m <= n <= GoodRows(events)
    requires forall k :: 0 <= k < n ==> events[k].Row? && events[k].line != ""
    ensures |Lines(events, m)| + (n - m) <= |Lines(events, n)|
  {
    if m < n {
      LinesGrow(events, m, n - 1);
    }
  }

  /** Rows that can be sent, one line each. */
  function Sendable(lines: seq<string>): (r: seq<Fetched>)
    ensures |r| == |lines| && forall k :: 0 <= k < |r| ==> r[k] == Row(lines[k])
  {
    seq(|lines|, k requires 0 <= k < |lines| => Row(lines[k]))
  }

  /** The first row that cannot be sent ends the run with its own cause, unless the cap comes first;
      before any row the error is plain. Without one, the driver's last word decides. */
  lemma FirstFaultDecides(lines: seq<string>, cause: Cause, more: seq<Fetched>, closing: Option<Cause>, cap: int)
    requires cap <= 0 || |lines| < cap
    ensures var error := if lines == [] then Plain(cause) else AfterFirst(cause);
            && Plan(Sendable(lines) + [Broken(cause)] + more, closing, cap) == Outcome(|lines|, false, Some(error))
            && Plan(Sendable(lines), Some(cause), cap) == Outcome(|lines|, false, Some(error))
            && Plan(Sendable(lines), None, cap) == Outcome(|lines|, false, None)
  {
    var events := Sendable(lines) + [Broken(cause)] + more;
    assert events[|lines|] == Broken(cause) && forall k :: 0 <= k < |lines| ==> events[k] == Row(lines[k]);
  }

  /** The batches and the buffer. */
  lemma Sizes()
    ensures forall rows: nat :: Flushed(rows) % 256 == 0 && rows - Flushed(rows) < 256
    ensures BUFFER_SIZE == 32 * 1024
  {
  }

  // ----- beyond the cap nothing matters -----

  lemma {:induction false} SamePrefix(a: seq<Fetched>, b: seq<Fetched>, n: nat)
    requires n <= |a| && n <= |b| && a[..n] == b[..n]
    ensures Lines(a, n) == Lines(b, n) && Level(a, n) == Level(b, n)
  {
    if n != 0 {
      assert a[n - 1] == a[..n][n - 1] == b[n - 1];
      assert a[..n - 1] == a[..n][..n - 1] == b[..n - 1];
      SamePrefix(a, b, n - 1);
    }
  }

  lemma SameGoodRows(a: seq<Fetched>, b: seq<Fetched>, n: nat)
    requires n <= |a| && n <= |b| && a[..n] == b[..n]
    ensures if GoodRows(a) >= n then GoodRows(b) >= n else GoodRows(b) == GoodRows(a)
  {
    forall k | 0 <= k < n
      ensures a[k] == b[k]
    {
      assert a[k] == a[..n][k] && b[k] == b[..n][k];
    }
  }

  /** Two answers that agree up to the cap, and both go on beyond it, are answered with the same
      rows, mark, error and bytes: no later row or fault is ever seen. */
  lemma CapHidesTheRest(a: Answer, b: Answer, cap: int, start: string, body: string, res: StreamResult, err: Option<StreamError>)
    requires a.Rows? && b.Rows? && a.closing == b.closing
    requires 0 < cap < |a.events| && cap < |b.events| && a.events[..cap] == b.events[..cap]
    ensures Held(a, cap, start, body, res, err) <==> Held(b, cap, start, body, res, err)
  {
    SameGoodRows(a.events, b.events, cap);
    var rows := Plan(a.events, a.closing, cap).rows;
    if rows < cap {
      assert a.events[rows] == a.events[..cap][rows] == b.events[rows];
    }
    assert a.events[..rows] == a.events[..cap][..rows] == b.events[..rows];
    SamePrefix(a.events, b.events, rows);
  }

  // ----- counted and delivered -----

  /** Lines are never empty: each ends with a newline. */
  predicate Written(events: seq<Fetched>, rows: nat)
    requires rows <= |events|
  {
    forall k :: 0 <= k < rows ==> events[k].Row? && events[k].line != ""
  }

  /** The longest line that leaves something in the buffer behind b waiting bytes. */
  function Overrun(b: nat): int {
    if b == 0 then BUFFER_SIZE else 2 * BUFFER_SIZE - b
  }

  /** When a run fails, the counted rows are the delivered ones exactly if the last of them ended
      a batch or was too long to wait in the buffer. */
  lemma CountedIsDelivered(events: seq<Fetched>, rows: nat)
    requires 0 < rows <= |events| && Written(events, rows)
    ensures Sent(events, rows) == Lines(events, rows) <==>
            rows % FLUSH_EVERY == 0 || |events[rows - 1].line| > Overrun(Level(events, rows - 1))
  {
    SentAll(events, rows);
    if rows % FLUSH_EVERY != 0 {
      WaitingIs(Level(events, rows - 1), |events[rows - 1].line|);
    }
  }

  lemma SentAll(events: seq<Fetched>, rows: nat)
    requires rows <= |events|
    ensures |Sent(events, rows)| + Level(events, rows) == |Lines(events, rows)|
    ensures Sent(events, rows) == Lines(events, rows) <==> Level(events, rows) == 0
  {
  }

  lemma WaitingIs(b: nat, n: nat)
    requires b <= BUFFER_SIZE && n > 0
    ensures Waiting(BUFFER_SIZE, b, n) == 0 <==> n > Overrun(b)
    ensures BUFFER_SIZE - b < n <= Overrun(b) ==> Waiting(BUFFER_SIZE, b, n) == n - (BUFFER_SIZE - b)
  {
    if BUFFER_SIZE - b < n <= Overrun(b) {
      assert Waiting(BUFFER_SIZE, b, n) == Waiting(BUFFER_SIZE, 0, n - (BUFFER_SIZE - b));
    }
  }

  /** Bytes of the rows since the last whole batch. */
  function Batch(events: seq<Fetched>, rows: nat): int
    requires rows <= |events|
  {
    |Lines(events, rows)| - |Lines(events, Flushed(rows))|
  }

  /** Whole batches are always delivered, and nothing else is if the rest fits the buffer. */
  lemma {:induction false} LevelIsBatch(events: seq<Fetched>, rows: nat)
    requires rows <= |events|
    ensures Level(events, rows) <= Batch(events, rows)
    ensures Batch(events, rows) <= BUFFER_SIZE ==> Level(events, rows) == Batch(events, rows)
  {
    if rows % FLUSH_EVERY != 0 {
      assert Flushed(rows - 1) == Flushed(rows);
      LevelIsBatch(events, rows - 1);
    }
  }

  lemma BatchesDelivered(events: seq<Fetched>, rows: nat)
    requires rows <= |events|
    ensures Lines(events, Flushed(rows)) <= Sent(events, rows) <= Lines(events, rows)
    ensures Batch(events, rows) <= BUFFER_SIZE ==> Sent(events, rows) == Lines(events, Flushed(rows))
  {
    LevelIsBatch(events, rows);
    LinesPrefix(events, Flushed(rows), rows);
  }

  /** How many of the counted rows were delivered whole. */
  function Arrived(events: seq<Fetched>, rows: nat): (k: nat)
    requires rows <= |events|
    ensures k <= rows
  {
    WholeLines(events, rows, |Sent(events, rows)|)
  }

  function WholeLines(events: seq<Fetched>, rows: nat, n: nat): (k: nat)
    requires rows <= |events|
    ensures k <= rows && |Lines(events, k)| <= n
    ensures forall j :: k < j <= rows ==> n < |Lines(events, j)|
  {
    if |Lines(events, rows)| <= n then rows else WholeLines(events, rows - 1, n)
  }

  /** They are the first ones, and all of them exactly when nothing waited. A later row is at best
      begun. */
  lemma ArrivedIs(events: seq<Fetched>, rows: nat)
    requires rows <= |events|
    ensures var k := Arrived(events, rows);
            && Lines(events, k) <= Sent(events, rows)
            && (forall j :: k < j <= rows ==> !(Lines(events, j) <= Sent(events, rows)))
            && (k == rows <==> Level(events, rows) == 0)
            && Flushed(rows) <= k
  {
    var k := Arrived(events, rows);
    LinesPrefix(events, k, rows);
    BatchesDelivered(events, rows);
    SentAll(events, rows);
    assert |Lines(events, Flushed(rows))| <= |Sent(events, rows)|;
  }

  /** With a batch that fits the buffer, they are the rows of the whole batches. */
  lemma ArrivedInBatches(events: seq<Fetched>, rows: nat)
    requires rows <= GoodRows(events) && Written(events, rows) && Batch(events, rows) <= BUFFER_SIZE
    ensures Arrived(events, rows) == Flushed(rows)
  {
    ArrivedIs(events, rows);
    BatchesDelivered(events, rows);
    LinesGrow(events, Flushed(rows), Arrived(events, rows));
  }

  /** One row that fits the buffer and then a driver error: the row is counted, and nothing of it
      is delivered. */
  lemma OneRowCountedNotDelivered(line: string)
    requires 0 < |line| <= BUFFER_SIZE
    ensures var events := [Row(line), Broken(Database)];
            && Plan(events, None, 0) == Outcome(1, false, Some(AfterFirst(Database)))
            && Sent(events, 1) == "" != Lines(events, 1) && Arrived(events, 1) == 0
    ensures Plan([Row(line)], Some(Database), 0) == Outcome(1, false, Some(AfterFirst(Database)))
    ensures Sent([Row(line)], 1) == "" && Arrived([Row(line)], 1) == 0
  {
    var events := [Row(line), Broken(Database)];
    assert events[1..] == [Broken(Database)] && [Broken(Database)][1..] == [];
    assert GoodRows(events) == 1;
    assert Level(events, 0) == 0 && Lines(events, 0) == "" && Lines(events, 1) == "" + line == line;
  }

  /** One longer than the buffer is delivered in full. */
  lemma LongRowDelivered(line: string)
    requires |line| > BUFFER_SIZE
    ensures var events := [Row(line), Broken(Database)];
            Sent(events, 1) == Lines(events, 1) == line
  {
    var events := [Row(line), Broken(Database)];
    assert Level(events, 0) == 0 && Lines(events, 0) == "" && Lines(events, 1) == "" + line == line;
  }

  // ----- where the delivered bytes end -----

  /** The bytes delivered end inside a line: the last row of the batch that did not fit beside the
      rows already waiting has left a rest. */
  predicate Torn(events: seq<Fetched>, rows: nat)
    requires rows <= |events|
  {
    rows % FLUSH_EVERY != 0 &&
      var b, n := Level(events, rows - 1), |LineOf(events[rows - 1])|;
      if n <= BUFFER_SIZE - b then Torn(events, rows - 1) else b < BUFFER_SIZE && n <= Overrun(b)
  }

  /** A row that fits behind those waiting changes nothing about what was delivered. */
  lemma RowWaits(events: seq<Fetched>, rows: nat)
    requires 0 < rows <= |events| && rows % FLUSH_EVERY != 0 && LineOf(events[rows - 1]) != ""
    requires |LineOf(events[rows - 1])| <= BUFFER_SIZE - Level(events, rows - 1)
    ensures Sent(events, rows) == Sent(events, rows - 1) && Arrived(events, rows) == Arrived(events, rows - 1)
  {
    assert |Sent(events, rows)| == |Sent(events, rows - 1)|;
    assert |Sent(events, rows)| < |Lines(events, rows)|;
  }

  /** One that does not fit and leaves a rest ends what was delivered inside its line, unless the
      buffer before it was exactly full. */
  lemma RowTorn(events: seq<Fetched>, rows: nat)
    requires 0 < rows <= |events| && rows % FLUSH_EVERY != 0
    requires var b := Level(events, rows - 1);
             BUFFER_SIZE - b < |LineOf(events[rows - 1])| <= Overrun(b)
    ensures Sent(events, rows) == Lines(events, Arrived(events, rows)) <==> Level(events, rows - 1) == BUFFER_SIZE
  {
    var b, n := Level(events, rows - 1), |LineOf(events[rows - 1])|;
    WaitingIs(b, n);
    assert |Sent(events, rows)| == |Lines(events, rows - 1)| + (BUFFER_SIZE - b);
    assert Arrived(events, rows) == rows - 1;
    LinesPrefix(events, rows - 1, rows);
  }

  /** After an error the record that reports it starts a line of its own exactly when the bytes
      before it are not torn. */
  lemma {:induction false} TornIs(events: seq<Fetched>, rows: nat)
    requires rows <= |events| && Written(events, rows)
    ensures Sent(events, rows) == Lines(events, Arrived(events, rows)) <==> !Torn(events, rows)
  {
    ArrivedIs(events, rows);
    SentAll(events, rows);
    if rows % FLUSH_EVERY != 0 {
      var b, n := Level(events, rows - 1), |LineOf(events[rows - 1])|;
      if n <= BUFFER_SIZE - b {
        RowWaits(events, rows);
        TornIs(events, rows - 1);
      } else if n <= Overrun(b) {
        RowTorn(events, rows);
      } else {
        WaitingIs(b, n);
      }
    }
  }

  /** Two rows that fit the buffer one by one but not together, then a driver error: the record is
      appended to the beginning of the second row. */
  lemma SecondRowTorn(a: string, b: string)
    requires 0 < |a| < BUFFER_SIZE && |b| <= BUFFER_SIZE < |a| + |b|
    ensures var events := [Row(a), Row(b), Broken(Database)];
            && Plan(events, None, 0) == Outcome(2, false, Some(AfterFirst(Database)))
            && Torn(events, 2) && Sent(events, 2) == (a + b)[..BUFFER_SIZE] && Arrived(events, 2) == 1
  {
    var events := [Row(a), Row(b), Broken(Database)];
    assert events[1..] == [Row(b), Broken(Database)] && events[1..][1..] == [Broken(Database)];
    assert GoodRows(events[1..][1..]) == 0 && GoodRows(events[1..]) == 1 && GoodRows(events) == 2;
    assert Level(events, 0) == 0 && Level(events, 1) == |a|;
    assert Lines(events, 0) == "" && Lines(events, 1) == "" + a == a && Lines(events, 2) == a + b;
    WaitingIs(|a|, |b|);
    assert Level(events, 2) == |a| + |b| - BUFFER_SIZE;
    assert |Sent(events, 2)| == BUFFER_SIZE;
  }
}
