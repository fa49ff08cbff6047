/** Answering one request (handler.go): the stream, the error paths and the range trailer. */
module Respond {
  import opened Text
  import opened Http
  import opened Stream

  // ----- the range trailer -----

  /** Go's int64 arithmetic. */
  function Wrap64(n: int): (r: int)
    ensures IsInt64(r) && (IsInt64(n) ==> r == n)
  {
    var m := 2 * (MAX_INT64 + 1);
    var k := n % m;
    if k <= MAX_INT64 then k else k - m
  }

  function RangeTrailer(offset: int, rows: nat): string {
    if rows == 0 then "*/*"
    else FormatInt(offset) + "-" + (FormatInt(Wrap64(offset + rows - 1)) + "/*")
  }

  method SetRangeTrailer(w: ResponseWriter, offset: int, rows: nat)
    modifies w`trailers
    ensures w.trailers == old(w.trailers)["Content-Range" := RangeTrailer(offset, rows)]
  {
    if rows == 0 {
      w.SetTrailer("Content-Range", "*/*");
      return;
    }
    var first := offset;
    w.SetTrailer("Content-Range", FormatInt(first) + "-" + (FormatInt(Wrap64(first + rows - 1)) + "/*"));
  }

  /** How a client reads the trailer: first and last row, or nothing for an empty page. */
  function ReadRange(s: string): Option<(int, int)> {
    var k := IndexOf(s, '-');
    if k == |s| then None
    else
      var rest := s[k + 1..];
      match (ParseInt(s[..k]), ParseInt(rest[..IndexOf(rest, '/')]))
      case (Some(first), Some(last)) => Some((first, last))
      case _ => None
  }

  lemma IndexOfAfterDigits(digits: string, c: char, rest: string)
    requires AllDigits(digits) && !IsDigit(c)
    ensures IndexOf(digits + ([c] + rest), c) == |digits|
    ensures (digits + ([c] + rest))[..|digits|] == digits && (digits + ([c] + rest))[|digits| + 1..] == rest
  {
    var s := digits + ([c] + rest);
    assert s[|digits|] == c;
    forall j | 0 <= j < |digits|
      ensures s[j] != c
    {
      assert s[j] == digits[j];
    }
  }

  /** The trailer tells a client the rows covered: offset to offset + rows - 1, or nothing. */
  lemma RangeRoundTrip(offset: int, rows: nat)
    requires 0 <= offset && IsInt64(offset + rows)
    ensures ReadRange(RangeTrailer(offset, rows)) == if rows == 0 then None else Some((offset, offset + rows - 1))
  {
    if rows == 0 {
      EmptyRange();
    } else {
      ReadRangeText(offset, offset + rows - 1);
    }
  }

  lemma EmptyRange()
    ensures ReadRange("*/*") == None
  {
    assert forall j :: 0 <= j < 3 ==> "*/*"[j] != '-';
  }

  lemma ReadRangeText(first: int, last: int)
    requires 0 <= first && IsInt64(first) && 0 <= last && IsInt64(last)
    ensures ReadRange(FormatInt(first) + "-" + (FormatInt(last) + "/*")) == Some((first, last))
  {
    var f, l := FormatInt(first), FormatInt(last);
    ParseFormatInt(first);
    ParseFormatInt(last);
    assert l + "/*" == l + (['/'] + "*");
    IndexOfAfterDigits(l, '/', "*");
    assert f + "-" + (l + "/*") == f + (['-'] + (l + "/*"));
    IndexOfAfterDigits(f, '-', l + "/*");
  }

  // ----- the response -----

  function ErrorStatus(cause: Cause): int {
    if cause == Deadline then 504 else 500
  }

  /** An error record as one JSON line; a partial one carries the row count and no status. */
  datatype ErrorRecord = ErrorRecord(status: Option<int>, cause: Cause, rows: Option<nat>)

  /** Writes an error status and record. Only safe before anything was sent. */
  method Fail(w: ResponseWriter, cause: Cause, render: ErrorRecord -> string)
    modifies w`status, w`body, w`room, w`misused
    ensures w.misused == (old(w.misused) || old(w.status).Some?)
    ensures w.status == if old(w.status).Some? then old(w.status) else Some(if cause == Deadline then 504 else 500)
    ensures old(w.body) <= w.body <= old(w.body) + render(ErrorRecord(Some(ErrorStatus(cause)), cause, None))
    ensures w.room.None? == old(w.room).None?
    ensures w.room.None? ==> w.body == old(w.body) + render(ErrorRecord(Some(ErrorStatus(cause)), cause, None))
  {
    w.WriteHeader(ErrorStatus(cause));
    var line := render(ErrorRecord(Some(ErrorStatus(cause)), cause, None));
    var n := w.Write(line);
    assert line[..n] <= line && (n == |line| ==> line[..n] == line);
  }

  /** Appends an error record to a response under way; the status is never touched. */
  method FailMidStream(w: ResponseWriter, rows: nat, cause: Cause, render: ErrorRecord -> string)
    modifies w`status, w`body, w`room
    ensures Committed(old(w.status), w.status) && w.status.Some?
    ensures old(w.body) <= w.body <= old(w.body) + render(ErrorRecord(None, cause, Some(rows)))
    ensures w.room.None? == old(w.room).None?
    ensures w.room.None? ==> w.body == old(w.body) + render(ErrorRecord(None, cause, Some(rows)))
  {
    var line := render(ErrorRecord(None, cause, Some(rows)));
    var n := w.Write(line);
    assert line[..n] <= line && (n == |line| ==> line[..n] == line);
  }

  /** How a client reads the truncation trailers: the cap that cut the rows off, if one did. */
  function ReadTruncated(trailers: map<string, string>): Option<int> {
    if "X-Truncated" in trailers && trailers["X-Truncated"] == "true" && "X-Max-Rows" in trailers
    then ParseInt(trailers["X-Max-Rows"]) else None
  }

  /** The trailers say that rows were cut off, and at what cap. */
  lemma TruncationRead(range: string, cap: int)
    requires IsInt64(cap)
    ensures ReadTruncated(map["Content-Range" := range, "X-Truncated" := "true", "X-Max-Rows" := FormatInt(cap)]) == Some(cap)
    ensures ReadTruncated(map["Content-Range" := range]) == None
  {
    ParseFormatInt(cap);
  }

  /** Streams the answer and finishes the response. A second status is attempted exactly when the
      first row's line overflows the buffer and the connection does not take it. Over a connection
      that holds, the status is one of: 504 or 500, with nothing but the error record, when no row
      was counted; 200 with all planned rows; or 200 with what had left the buffer of the counted
      rows, followed by one partial error record. Over any connection, an error status has no
      trailers, other responses have the range, and only a success that the cap cut off says so. */
  method Serve(w: ResponseWriter, answer: Answer, offset: int, maxRows: int, render: ErrorRecord -> string)
    returns (ghost res: StreamResult, ghost err: Option<StreamError>)
    requires w.status == None && w.body == "" && w.trailers == map[] && !w.misused
    modifies w
    ensures w.status.Some?
    ensures w.misused <==> Lost(answer, old(w.room))
    ensures w.misused ==> w.status == Some(200)
    ensures old(w.room).None? && answer.Rows? ==>
              var plan := Plan(answer.events, answer.closing, maxRows);
              res == StreamResult(plan.rows, plan.truncated) && err == plan.error
    ensures old(w.room).None? && err.Some? && err.value.Plain? ==>
              && w.status == Some(if err.value.cause == Deadline then 504 else 500)
              && w.body == render(ErrorRecord(w.status, err.value.cause, None))
    ensures old(w.room).None? && err.Some? && err.value.AfterFirst? ==>
              && w.status == Some(200) && answer.Rows?
              && res.rows <= |answer.events|
              && w.body == Sent(answer.events, res.rows) + render(ErrorRecord(None, err.value.cause, Some(res.rows)))
    ensures old(w.room).None? && err.None? ==>
              w.status == Some(200) && answer.Rows? && w.body == Lines(answer.events, res.rows)
    ensures err.Some? ==>
              w.trailers == if err.value.Plain? then map[] else map["Content-Range" := RangeTrailer(offset, res.rows)]
    ensures err.None? ==>
              && answer.Rows?
              && w.trailers == if 0 < maxRows < |answer.events|
                 then map["Content-Range" := RangeTrailer(offset, res.rows), "X-Truncated" := "true",
                          "X-Max-Rows" := FormatInt(maxRows)]
                 else map["Content-Range" := RangeTrailer(offset, res.rows)]
  {
    ghost var held := w.room.None?;
    var r, e := StreamQuery(answer, w, maxRows);
    res, err := r, e;
    if held || e.None? {
      HeldFromStart(answer, maxRows, w.body, r, e);
    }
    if e.Some? && e.value.AfterFirst? {
      FailMidStream(w, r.rows, e.value.cause, render);
      SetRangeTrailer(w, offset, r.rows);
      w.Flush();
      return;
    }
    if e.Some? {
      Fail(w, e.value.cause, render);
      return;
    }
    FinishTrailers(w, offset, r, maxRows);
    w.Flush();
  }

  /** The trailers of a stream without error. */
  method FinishTrailers(w: ResponseWriter, offset: int, res: StreamResult, maxRows: int)
    requires w.trailers == map[]
    modifies w`trailers
    ensures w.trailers == if res.truncated
                          then map["Content-Range" := RangeTrailer(offset, res.rows), "X-Truncated" := "true",
                                   "X-Max-Rows" := FormatInt(maxRows)]
                          else map["Content-Range" := RangeTrailer(offset, res.rows)]
  {
    SetRangeTrailer(w, offset, res.rows);
    if res.truncated {
      w.SetTrailer("X-Truncated", "true");
      w.SetTrailer("X-Max-Rows", FormatInt(maxRows));
    }
  }

  /** What a run over a connection that holds leaves in an empty body. */
  lemma HeldFromStart(answer: Answer, cap: int, body: string, res: StreamResult, err: Option<StreamError>)
    requires Reported(answer, "", body, res, err) && Held(answer, cap, "", body, res, err)
    ensures err.Some? && err.value.Plain? ==> body == ""
    ensures answer.Rows? ==> res.rows <= |answer.events| && (err.None? ==> (res.truncated <==> 0 < cap < |answer.events|))
    ensures answer.Rows? ==> body == if err.Some? then Sent(answer.events, res.rows) else Lines(answer.events, res.rows)
  {
    if answer.Rows? {
      var t := if err.Some? then Sent(answer.events, res.rows) else Lines(answer.events, res.rows);
      assert "" + t == t;
    }
  }

  /** The shortest such failure: the connection takes nothing, and the first line is one longer
      than the buffer. */
  method SecondStatus(line: string, render: ErrorRecord -> string) returns (w: ResponseWriter)
    requires |line| == BUFFER_SIZE + 1
    ensures w.misused && w.status == Some(200)
  {
    w := new ResponseWriter(Some(0));
    var answer := Answer.Rows([Row(line)], None);
    var res, err := Serve(w, answer, 0, 0, render);
  }

  /** The shortest partial response that counts too much: one row that fits the buffer, then a
      driver error, in place of a second row or after the last one. The body is the error record
      alone, and the trailer covers the row. */
  method NothingDelivered(line: string, last: bool, render: ErrorRecord -> string) returns (w: ResponseWriter)
    requires 0 < |line| <= BUFFER_SIZE
    ensures w.status == Some(200) && w.body == render(ErrorRecord(None, Database, Some(1)))
    ensures w.trailers == map["Content-Range" := RangeTrailer(0, 1)]
  {
    w := new ResponseWriter(None);
    OneRowCountedNotDelivered(line);
    var answer := if last then Answer.Rows([Row(line)], Some(Database))
                  else Answer.Rows([Row(line), Broken(Database)], None);
    var res, err := Serve(w, answer, 0, 0, render);
    var record := render(ErrorRecord(None, Database, Some(1)));
    assert "" + record == record;
  }

  /** The trailer of a partial response covers the rows that arrived whole exactly when nothing
      waited in the buffer. */
  lemma PartialRange(events: seq<Fetched>, rows: nat, offset: nat)
    requires 0 < rows <= |events| && IsInt64(offset + rows)
    ensures ReadRange(RangeTrailer(offset, rows)) == ReadRange(RangeTrailer(offset, Arrived(events, rows))) <==>
            Level(events, rows) == 0
  {
    ArrivedIs(events, rows);
    RangeRoundTrip(offset, rows);
    RangeRoundTrip(offset, Arrived(events, rows));
  }
}
