/** The FastCGI client: the connection it writes to and reads from, the
    writers Handle copies output to, and the client object itself, whose
    id allocator state is updated in place. */
module FcgiClient {
  import opened Fcgi
  import opened IdPool
  import opened Exchange

  /** The connection, reduced to what Handle observes. The record encoding
      lives in code that is not part of this model; a write call either goes
      through whole or fails, as the transport decides: call number c fails
      with faults[c] when c is in `faults`. Reads deliver `inbound` in order
      and fail with `readFault` once it is exhausted. */
  class Conn {
    var sent: seq<Frame>
    var calls: nat
    const faults: map<nat, IoError>
    var inbound: seq<Record>
    const readFault: IoError

    /** One write call: it appends `f` unless the transport fails it. */
    method Emit(f: Frame) returns (err: Option<IoError>)
      modifies this
      ensures calls == old(calls) + 1 && inbound == old(inbound)
      ensures err == (if old(calls) in faults then Some(faults[old(calls)]) else None)
      ensures sent == if err.None? then old(sent) + [f] else old(sent)
    {
      if calls in faults {
        err := Some(faults[calls]);
      } else {
        err := None;
        sent := sent + [f];
      }
      calls := calls + 1;
    }

    method WriteBeginRequest(id: uint16, role: uint16, flags: uint8) returns (err: Option<IoError>)
      modifies this
      ensures calls == old(calls) + 1 && inbound == old(inbound)
      ensures err == (if old(calls) in faults then Some(faults[old(calls)]) else None)
      ensures sent == if err.None? then old(sent) + [BeginRequest(id, role, flags)] else old(sent)
    {
      err := Emit(BeginRequest(id, role, flags));
    }

    method WritePairs(rtype: uint8, id: uint16, pairs: map<string, string>) returns (err: Option<IoError>)
      modifies this
      ensures calls == old(calls) + 1 && inbound == old(inbound)
      ensures err == (if old(calls) in faults then Some(faults[old(calls)]) else None)
      ensures sent == if err.None? then old(sent) + [Pairs(rtype, id, pairs)] else old(sent)
    {
      err := Emit(Pairs(rtype, id, pairs));
    }

    method WriteRecord(rtype: uint8, id: uint16, content: seq<uint8>) returns (err: Option<IoError>)
      modifies this
      ensures calls == old(calls) + 1 && inbound == old(inbound)
      ensures err == (if old(calls) in faults then Some(faults[old(calls)]) else None)
      ensures sent == if err.None? then old(sent) + [Stream(rtype, id, content)] else old(sent)
    {
      err := Emit(Stream(rtype, id, content));
    }

    /** Read the next record, or fail once the peer has sent nothing more. */
    method ReadRecord() returns (r: Result<Record, IoError>)
      modifies this
      ensures sent == old(sent) && calls == old(calls)
      ensures old(inbound) == [] ==> r == Failure(readFault) && inbound == []
      ensures old(inbound) != [] ==> r == Success(old(inbound)[0]) && inbound == old(inbound)[1..]
    {
      if inbound == [] {
        r := Failure(readFault);
      } else {
        r := Success(inbound[0]);
        inbound := inbound[1..];
      }
    }
  }

  /** A writer (an io.Writer): it accumulates what it is given, or, when it
      has a fault, refuses every write with that error. */
  class Sink {
    var data: seq<uint8>
    const fault: Option<IoError>

    method Write(p: seq<uint8>) returns (err: Option<IoError>)
      modifies this
      ensures err == fault
      ensures data == if fault.None? then old(data) + p else old(data)
    {
      err := fault;
      if fault.None? {
        data := data + p;
      }
    }
  }

  /** The sinks after Handle consumed `recs`: Stdout bytes went to wOut and
      Stderr bytes to wErr, in arrival order; a faulty writer kept nothing;
      when both are the same writer it received both streams interleaved. */
  ghost predicate Delivered(wOut: Sink, wErr: Sink, out0: seq<uint8>, err0: seq<uint8>, recs: seq<Record>)
    reads wOut, wErr
  {
    if wOut == wErr then
      wOut.data == out0 + (if wOut.fault.None? then Bytes(recs, {TypeStdout, TypeStderr}) else [])
    else
      && wOut.data == out0 + (if wOut.fault.None? then Bytes(recs, {TypeStdout}) else [])
      && wErr.data == err0 + (if wErr.fault.None? then Bytes(recs, {TypeStderr}) else [])
  }

  /** A record that is neither Stdout nor Stderr reaches no writer. */
  lemma DeliveredSkips(wOut: Sink, wErr: Sink, out0: seq<uint8>, err0: seq<uint8>, recs: seq<Record>, rec: Record)
    requires !IsOutput(rec.rtype) && Delivered(wOut, wErr, out0, err0, recs)
    ensures Delivered(wOut, wErr, out0, err0, recs + [rec])
  {
    BytesSnoc(recs, rec, {TypeStdout});
    BytesSnoc(recs, rec, {TypeStderr});
    BytesSnoc(recs, rec, {TypeStdout, TypeStderr});
  }

  class Client {
    const conn: Conn
    /** The candidate ids still to be drawn (the Go channel), oldest first. */
    var pending: seq<uint16>
    /** The in-use flags. */
    var ids: map<uint16, bool>

    function State(): Pool
      reads this
    {
      Pool(pending, ids)
    }

    /** NewClient: the candidate stream is 0, 1, ..., 65535 and no id is in use. */
    constructor (c: Conn)
      ensures conn == c && State() == Pool(FreshCandidates(), map[])
    {
      var candidates := GenerateCandidates();
      conn, pending, ids := c, candidates, map[];
    }

    /** NewClient with the stream FastCGI evidently calls for: 1, ..., 65535,
        leaving 0 to management records. */
    constructor ReservingZero(c: Conn)
      ensures conn == c && State() == Pool(ReservedZeroCandidates(), map[])
      ensures 0 !in pending
    {
      conn, pending, ids := c, ReservedZeroCandidates(), map[];
      ReservedZeroCandidatesEnumerate();
    }

    /** Draw candidates until one is not in use, mark it in use and return it.
        `None` stands for the point where the Go code blocks on an empty channel. */
    method AllocID() returns (id: Option<uint16>)
      modifies this
      ensures Draw(id, State()) == Alloc(old(State()))
    {
      ghost var drawn := 0;
      var x: uint16 := 0;
      while true
        invariant ids == old(ids)
        invariant drawn <= |old(pending)| && pending == old(pending)[drawn..]
        invariant forall j :: 0 <= j < drawn ==> InUse(ids, old(pending)[j])
        decreases |pending|
      {
        if pending == [] {
          return None;
        }
        x := pending[0];
        pending := pending[1..];
        drawn := drawn + 1;
        if !InUse(ids, x) {
          break;
        }
      }
      ids := ids[x := true];
      id := Some(x);
    }

    /** Clear the flag and hand the id back to the candidate stream; it never blocks. */
    method ReleaseID(x: uint16)
      modifies this
      ensures State() == Release(old(State()), x)
    {
      ids := ids[x := false];
      pending := pending + [x];
    }

    /** A request with a freshly allocated id, no params and no body. */
    method NewRequest() returns (req: Option<Request>)
      modifies this
      ensures State() == Alloc(old(State())).pool
      ensures req.Some? <==> Alloc(old(State())).granted.Some?
      ensures req.Some? ==> req.value == Request(Alloc(old(State())).granted.value, map[], [])
    {
      var id := AllocID();
      if id.Some? {
        req := Some(Request(id.value, map[], []));
      } else {
        req := None;
      }
    }

    /** Handle: run the exchange, then release the request's id; the deferred
        release in Go runs on every way out, a panic included. */
    method Handle(wOut: Sink, wErr: Sink, req: Request) returns (outcome: Outcome)
      modifies this, conn, wOut, wErr
      ensures State() == Release(old(State()), req.id)
      ensures var t := Expected(req, old(conn.calls), conn.faults, old(conn.inbound));
        && outcome == t.outcome
        && conn.calls == old(conn.calls) + t.attempts
        && conn.sent == old(conn.sent) + Plan(req)[..t.written]
        && conn.inbound == old(conn.inbound)[t.consumed..]
        && Delivered(wOut, wErr, old(wOut.data), old(wErr.data), old(conn.inbound)[..t.consumed])
    {
      outcome := Converse(wOut, wErr, req);
      ReleaseID(req.id);
    }

    /** The body of Handle, under its deferred release. */
    method Converse(wOut: Sink, wErr: Sink, req: Request) returns (outcome: Outcome)
      modifies conn, wOut, wErr
      ensures var t := Expected(req, old(conn.calls), conn.faults, old(conn.inbound));
        && outcome == t.outcome
        && conn.calls == old(conn.calls) + t.attempts
        && conn.sent == old(conn.sent) + Plan(req)[..t.written]
        && conn.inbound == old(conn.inbound)[t.consumed..]
        && Delivered(wOut, wErr, old(wOut.data), old(wErr.data), old(conn.inbound)[..t.consumed])
    {
      var err := WriteRequest(req);
      if err.Some? {
        assert old(conn.inbound)[..0] == [];
        return Returned(err);
      }
      var exit := ReadLoop(wOut, wErr);
      if exit.Unexpected? {
        return Panicked(exit.rtype);
      }
      // the named result still holds the last write's nil error
      outcome := Returned(err);
    }

    /** The writes: BeginRequest for the Responder role with flags 0, the
        params, and the body as Stdin when there is one; the first error
        stops the sequence and is returned. */
    method WriteRequest(req: Request) returns (err: Option<IoError>)
      modifies conn
      ensures var k := WritesBeforeFault(conn.faults, old(conn.calls), |Plan(req)|);
        && conn.sent == old(conn.sent) + Plan(req)[..k]
        && conn.inbound == old(conn.inbound)
        && (k < |Plan(req)| ==> err == Some(conn.faults[old(conn.calls) + k]) && conn.calls == old(conn.calls) + k + 1)
        && (k == |Plan(req)| ==> err.None? && conn.calls == old(conn.calls) + k)
    {
      ghost var plan := Plan(req);
      ghost var calls0 := conn.calls;
      assert plan[..0] == [] && plan[..1] == [plan[0]] && plan[..2] == [plan[0], plan[1]];
      err := conn.WriteBeginRequest(req.id, RoleResponder, 0);
      if err.Some? {
        return;
      }
      err := conn.WritePairs(TypeParams, req.id, req.params);
      if err.Some? {
        assert WritesBeforeFault(conn.faults, calls0, |plan|) == 1;
        return;
      }
      if |req.content| > 0 {
        err := conn.WriteRecord(TypeStdin, req.id, req.content);
        if err.Some? {
          assert WritesBeforeFault(conn.faults, calls0, |plan|) == 2;
          return;
        }
      }
      assert plan[..|plan|] == plan;
    }

    /** The read loop: copy Stdout to wOut and Stderr to wErr, ignoring the
        writers' errors, until EndRequest, a record of another type, or a
        failed read. */
    method ReadLoop(wOut: Sink, wErr: Sink) returns (exit: LoopExit)
      modifies conn, wOut, wErr
      ensures var run := RunLoop(old(conn.inbound));
        && exit == run.exit
        && conn.inbound == old(conn.inbound)[run.consumed..]
        && conn.sent == old(conn.sent) && conn.calls == old(conn.calls)
        && Delivered(wOut, wErr, old(wOut.data), old(wErr.data), old(conn.inbound)[..run.consumed])
    {
      ghost var in0 := conn.inbound;
      ghost var seen := 0;
      while true
        invariant conn.calls == old(conn.calls) && conn.sent == old(conn.sent)
        invariant seen <= |in0| && conn.inbound == in0[seen..]
        invariant forall j :: 0 <= j < seen ==> IsOutput(in0[j].rtype)
        invariant Delivered(wOut, wErr, old(wOut.data), old(wErr.data), in0[..seen])
        decreases |conn.inbound|
      {
        var r := conn.ReadRecord();
        if r.Failure? {
          // the read error is bound to a fresh variable and dropped
          assert in0[..seen] == in0;
          RunLoopReadsPastOutput(in0);
          return ReadFailed;
        }
        var rec := r.value;
        assert rec == in0[seen];
        assert in0[..seen + 1] == in0[..seen] + [rec];
        if IsOutput(rec.rtype) {
          Forward(wOut, wErr, rec, in0[..seen], old(wOut.data), old(wErr.data));
        } else {
          assert in0 == in0[..seen] + [rec] + in0[seen + 1..];
          RunLoopStopsAtFirstControlRecord(in0[..seen], rec, in0[seen + 1..]);
          DeliveredSkips(wOut, wErr, old(wOut.data), old(wErr.data), in0[..seen], rec);
          if rec.rtype == TypeEndRequest {
            return SawEnd;
          }
          return Unexpected(rec.rtype);
        }
        seen := seen + 1;
      }
    }

    /** The Stdout and Stderr cases of the read loop's switch: the record's
        bytes go to the matching writer, and the writer's error is dropped. */
    method Forward(wOut: Sink, wErr: Sink, rec: Record,
                   ghost recs: seq<Record>, ghost out0: seq<uint8>, ghost err0: seq<uint8>)
      requires IsOutput(rec.rtype)
      requires Delivered(wOut, wErr, out0, err0, recs)
      modifies wOut, wErr
      ensures Delivered(wOut, wErr, out0, err0, recs + [rec])
    {
      if wOut == wErr {
        BytesSnoc(recs, rec, {TypeStdout, TypeStderr});
      } else {
        BytesSnoc(recs, rec, {TypeStdout});
        BytesSnoc(recs, rec, {TypeStderr});
      }
      if rec.rtype == TypeStdout {
        var ignored := wOut.Write(rec.content);
      } else {
        var ignored := wErr.Write(rec.content);
      }
    }
  }
}
