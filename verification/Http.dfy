/** The response as the handler drives it: a status committed once, a body and trailers. */
module Http {
  import opened Text

  /** Whether a connection with that much room left takes n bytes; without a limit it always does. */
  predicate Takes(room: Option<nat>, n: nat) {
    room.None? || n <= room.value
  }

  /** Bytes left waiting in a buffer of b bytes after n more, as long as writes succeed. A full
      buffer is passed on; what would overflow an empty one bypasses it. */
  function Waiting(size: nat, b: nat, n: nat): (w: nat)
    requires 0 < size && b <= size
    ensures w <= size && w <= b + n
    decreases b
  {
    if n <= size - b then b + n else if b == 0 then 0 else Waiting(size, 0, n - (size - b))
  }

  class ResponseWriter {
    /** The status sent, once there is one. */
    var status: Option<int>
    var body: string
    var trailers: map<string, string>
    /** How many more bytes the connection takes; None means that it never fails. */
    var room: Option<nat>
    /** A status was set after one had been sent. */
    var misused: bool

    constructor (room: Option<nat>)
      ensures status == None && body == "" && trailers == map[] && this.room == room && !misused
    {
      status := None;
      body := "";
      trailers := map[];
      this.room := room;
      misused := false;
    }

    method WriteHeader(code: int)
      modifies this`status, this`misused
      ensures misused == (old(misused) || old(status).Some?)
      ensures status == if old(status).Some? then old(status) else Some(code)
    {
      if status.Some? {
        misused := true;
      } else {
        status := Some(code);
      }
    }

    /** Writes a prefix of p, all of it unless the connection fails. The first write sends 200 if
        no status was set. */
    method Write(p: string) returns (n: nat)
      modifies this`status, this`body, this`room
      ensures n <= |p| && body == old(body) + p[..n]
      ensures status == if old(status).Some? then old(status) else Some(200)
      ensures room.None? == old(room).None? && (n == |p| <==> Takes(old(room), |p|))
    {
      if status.None? {
        status := Some(200);
      }
      match room {
        case None =>
          n := |p|;
        case Some(left) =>
          n := if |p| <= left then |p| else left;
          room := Some(left - n);
      }
      body := body + p[..n];
    }

    method Flush()
      modifies this`status
      ensures status == if old(status).Some? then old(status) else Some(200)
    {
      if status.None? {
        status := Some(200);
      }
    }

    method SetTrailer(key: string, value: string)
      modifies this`trailers
      ensures trailers == old(trailers)[key := value]
    {
      trailers := trailers[key := value];
    }
  }

  /** bufio.Writer over a response: bytes wait in a buffer of fixed size, and a failed write
      sticks. */
  class BufferedWriter {
    const sink: ResponseWriter
    const size: nat
    var buf: string
    var failed: bool

    ghost predicate Valid()
      reads this
    {
      0 < size && |buf| <= size
    }

    constructor (sink: ResponseWriter, size: nat)
      requires 0 < size
      ensures Valid() && this.sink == sink && this.size == size && buf == "" && !failed
    {
      this.sink := sink;
      this.size := size;
      buf := "";
      failed := false;
    }

    /** All bytes accepted so far: delivered, then waiting. */
    ghost function Accepted(): string
      reads this, sink
    {
      sink.body + buf
    }

    method Flush() returns (ok: bool)
      requires Valid()
      modifies this, sink`status, sink`body, sink`room
      ensures Valid() && ok == !failed && (old(failed) ==> failed)
      ensures Accepted() == old(Accepted()) && old(sink.body) <= sink.body
      ensures ok ==> buf == ""
      ensures !old(failed) && old(buf) == "" ==> ok && sink.status == old(sink.status)
      ensures sink.room.None? == old(sink.room).None?
      ensures sink.room.None? && !old(failed) ==> ok
      ensures sink.status == old(sink.status) || sink.status == Some(200)
      ensures old(sink.status).Some? ==> sink.status == old(sink.status)
      ensures sink.body != old(sink.body) ==> sink.status.Some?
    {
      if failed {
        return false;
      }
      if |buf| == 0 {
        return true;
      }
      var n := sink.Write(buf);
      assert sink.body + buf[n..] == old(sink.body) + buf;
      if n < |buf| {
        buf := buf[n..];
        failed := true;
        return false;
      }
      buf := "";
      return true;
    }

    /** Makes room for a text that does not fit: it bypasses an empty buffer, and otherwise fills the
        buffer, which is then passed on. */
    method Spill(rest: string) returns (left: string)
      requires Valid() && !failed && |rest| > size - |buf|
      modifies this, sink`status, sink`body, sink`room
      ensures Valid() && old(sink.body) <= sink.body <= old(Accepted()) + rest
      ensures !failed ==>
                && buf == "" && sink.body + left == old(Accepted()) + rest
                && |left| < |rest| + |old(buf)| && Waiting(size, 0, |left|) == Waiting(size, |old(buf)|, |rest|)
      ensures old(buf) == "" ==>
                buf == "" && sink.status.Some? && if failed then !Takes(old(sink.room), |rest|)
                                                  else left == "" && Takes(old(sink.room), |rest|)
      ensures sink.room.None? == old(sink.room).None? && (sink.room.None? ==> !failed)
      ensures old(sink.status).Some? ==> sink.status == old(sink.status)
      ensures sink.status == old(sink.status) || sink.status == Some(200)
      ensures sink.body != old(sink.body) ==> sink.status.Some?
    {
      ghost var all := sink.body + buf + rest;
      if |buf| == 0 {
        var n := sink.Write(rest);
        left := rest[n..];
        assert sink.body + left == all;
        failed := n < |rest|;
      } else {
        var n := size - |buf|;
        buf := buf + rest[..n];
        left := rest[n..];
        assert sink.body + buf + left == all;
        var flushed := Flush();
        assert sink.body <= all;
      }
    }

    /** Accepts p, passing bytes on only when they do not fit. If the connection fails, what was
        delivered is still a prefix of what was accepted and p. */
    method Write(p: string) returns (ok: bool)
      requires Valid()
      modifies this, sink`status, sink`body, sink`room
      ensures Valid() && ok == !failed && (old(failed) ==> failed)
      ensures old(sink.body) <= sink.body <= old(Accepted()) + p
      ensures ok ==> Accepted() == old(Accepted()) + p
      ensures !old(failed) && |old(buf)| + |p| <= size ==> ok && sink.body == old(sink.body)
      ensures sink.room.None? == old(sink.room).None?
      ensures sink.room.None? && !old(failed) ==> ok
      ensures ok ==> |buf| == Waiting(size, |old(buf)|, |p|)
      ensures !old(failed) && old(buf) == "" && |p| > size ==>
                sink.status.Some? && (ok <==> Takes(old(sink.room), |p|))
      ensures old(sink.status).Some? ==> sink.status == old(sink.status)
      ensures sink.status == old(sink.status) || sink.status == Some(200)
      ensures sink.body != old(sink.body) ==> sink.status.Some?
    {
      var rest := p;
      assert sink.body <= sink.body + buf + p;
      while |rest| > size - |buf| && !failed
        invariant Valid() && (old(failed) ==> failed)
        invariant !old(failed) && |old(buf)| + |p| <= size ==> rest == p && buf == old(buf) && sink.body == old(sink.body) && !failed
        invariant !failed ==> sink.body + buf + rest == old(Accepted()) + p
        invariant old(sink.body) <= sink.body <= old(Accepted()) + p
        invariant sink.room.None? == old(sink.room).None?
        invariant sink.room.None? && !old(failed) ==> !failed
        invariant !failed ==> Waiting(size, |buf|, |rest|) == Waiting(size, |old(buf)|, |p|)
        invariant !old(failed) && old(buf) == "" && |p| > size ==>
                    || (buf == "" && rest == p && !failed && sink.room == old(sink.room))
                    || (buf == "" && sink.status.Some? && if failed then !Takes(old(sink.room), |p|)
                                                          else rest == "" && Takes(old(sink.room), |p|))
        invariant old(sink.status).Some? ==> sink.status == old(sink.status)
        invariant sink.status == old(sink.status) || sink.status == Some(200)
        invariant sink.body != old(sink.body) ==> sink.status.Some?
        decreases !failed, |rest| + |buf|
      {
        rest := Spill(rest);
      }
      if failed {
        return false;
      }
      buf := buf + rest;
      return true;
    }
  }
}
