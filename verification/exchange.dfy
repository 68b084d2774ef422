/** What one call of Handle does, as a function of the request, the
    connection's write faults and the records the peer sends back. The method
    FcgiClient.Client.Handle is proved against Expected. */
module Exchange {
  import opened Fcgi

  /** A request as Handle reads it: its id, its params and its body. */
  datatype Request = Request(id: uint16, params: map<string, string>, content: seq<uint8>)

  /** How Handle ends: it returns an error value (nil is `None`), or it panics
      on a record type the read loop does not expect. */
  datatype Outcome = Returned(err: Option<IoError>) | Panicked(rtype: uint8)

  /** Why the read loop stopped. */
  datatype LoopExit = SawEnd | ReadFailed | Unexpected(rtype: uint8)

  /** How many records the read loop consumed, and why it stopped. */
  datatype LoopRun = LoopRun(consumed: nat, exit: LoopExit)

  /** What one Handle call did on the connection: write calls made, writes
      that went through, records read, and the outcome. */
  datatype Transcript = Transcript(attempts: nat, written: nat, consumed: nat, outcome: Outcome)

  /** A record the read loop copies to a sink. */
  predicate IsOutput(t: uint8)
  {
    t == TypeStdout || t == TypeStderr
  }

  /** The writes Handle issues, in order, before it reads anything. */
  function Plan(req: Request): (p: seq<Frame>)
    ensures 2 <= |p| <= 3 && forall f :: f in p ==> f.id == req.id
    // a BeginRequest for the Responder role with flags 0 (FCGI_KEEP_CONN clear)
    ensures p[0].BeginRequest? && p[0].role == RoleResponder && p[0].flags == 0
    ensures p[1] == Pairs(TypeParams, req.id, req.params)
    // a Stdin record exactly when there is a body, and then it carries the body
    ensures |p| == 3 <==> |req.content| > 0
    ensures |p| == 3 ==> p[2] == Stream(TypeStdin, req.id, req.content)
  {
    [BeginRequest(req.id, RoleResponder, 0), Pairs(TypeParams, req.id, req.params)]
    + (if |req.content| > 0 then [Stream(TypeStdin, req.id, req.content)] else [])
  }

  /** Of `n` write calls numbered from `from`, how many go through before the
      first one the transport fails (call number c fails when c is in `faults`). */
  function WritesBeforeFault(faults: map<nat, IoError>, from: nat, n: nat): (k: nat)
    ensures k <= n
    ensures forall c :: from <= c < from + k ==> c !in faults
    ensures k < n ==> from + k in faults
    decreases n
  {
    if n == 0 || from in faults then 0
    else 1 + WritesBeforeFault(faults, from + 1, n - 1)
  }

  /** The read loop: Stdout and Stderr records are copied on, EndRequest stops
      it, any other type is fatal, and a failed read (reading past the last
      record) ends it. */
  function RunLoop(inbound: seq<Record>): (r: LoopRun)
    ensures r.consumed <= |inbound|
    // it stops on a read failure exactly when every record was output
    ensures r.exit.ReadFailed? <==>
              r.consumed == |inbound| && forall j :: 0 <= j < |inbound| ==> IsOutput(inbound[j].rtype)
    // otherwise it consumed output records and then the record it stopped on
    ensures !r.exit.ReadFailed? ==>
              0 < r.consumed && forall j :: 0 <= j < r.consumed - 1 ==> IsOutput(inbound[j].rtype)
    ensures r.exit.SawEnd? ==> inbound[r.consumed - 1].rtype == TypeEndRequest
    ensures r.exit.Unexpected? ==>
              var t := inbound[r.consumed - 1].rtype;
              r.exit.rtype == t && !IsOutput(t) && t != TypeEndRequest
    decreases |inbound|
  {
    if inbound == [] then LoopRun(0, ReadFailed)
    else
      var t := inbound[0].rtype;
      if IsOutput(t) then
        var rest := RunLoop(inbound[1..]);
        LoopRun(rest.consumed + 1, rest.exit)
      else if t == TypeEndRequest then LoopRun(1, SawEnd)
      else LoopRun(1, Unexpected(t))
  }

  /** The loop reads no further than the first record that is not output:
      EndRequest stops it, any other type is fatal, and what follows is never
      consumed. */
  lemma {:induction false} RunLoopStopsAtFirstControlRecord(prefix: seq<Record>, r: Record, rest: seq<Record>)
    requires forall j :: 0 <= j < |prefix| ==> IsOutput(prefix[j].rtype)
    requires !IsOutput(r.rtype)
    ensures RunLoop(prefix + [r] + rest) ==
              LoopRun(|prefix| + 1, if r.rtype == TypeEndRequest then SawEnd else Unexpected(r.rtype))
    decreases |prefix|
  {
    var s := prefix + [r] + rest;
    if prefix == [] {
      assert s[0] == r;
    } else {
      assert s[0] == prefix[0];
      assert s[1..] == prefix[1..] + [r] + rest;
      RunLoopStopsAtFirstControlRecord(prefix[1..], r, rest);
    }
  }

  /** When every record is output, the loop consumes them all and then fails to read. */
  lemma RunLoopReadsPastOutput(inbound: seq<Record>)
    requires forall j :: 0 <= j < |inbound| ==> IsOutput(inbound[j].rtype)
    ensures RunLoop(inbound) == LoopRun(|inbound|, ReadFailed)
  {
    var r := RunLoop(inbound);
    assert !r.exit.ReadFailed? ==> !IsOutput(inbound[r.consumed - 1].rtype);
  }

  /** The bytes of the records whose type is in `kinds`, in arrival order. */
  function Bytes(recs: seq<Record>, kinds: set<uint8>): seq<uint8>
    decreases |recs|
  {
    if recs == [] then []
    else
      var last := recs[|recs| - 1];
      Bytes(recs[..|recs| - 1], kinds) + (if last.rtype in kinds then last.content else [])
  }

  /** One more record adds its bytes at the end, when its type is selected. */
  lemma BytesSnoc(recs: seq<Record>, r: Record, kinds: set<uint8>)
    ensures Bytes(recs + [r], kinds) == Bytes(recs, kinds) + (if r.rtype in kinds then r.content else [])
  {
    assert (recs + [r])[..|recs|] == recs;
  }

  /** Routing keeps arrival order: the bytes of a stream of records are those
      of its first part followed by those of the rest. */
  lemma {:induction false} BytesAppend(a: seq<Record>, b: seq<Record>, kinds: set<uint8>)
    ensures Bytes(a + b, kinds) == Bytes(a, kinds) + Bytes(b, kinds)
    decreases |b|
  {
    if b == [] {
      assert a + b == a;
    } else {
      var b' := b[..|b| - 1];
      assert (a + b)[..|a + b| - 1] == a + b';
      BytesAppend(a, b', kinds);
    }
  }

  /** A record whose type is not selected contributes nothing, wherever it sits. */
  lemma {:induction false} BytesSkipsOtherTypes(recs: seq<Record>, kinds: set<uint8>)
    requires forall j :: 0 <= j < |recs| ==> recs[j].rtype !in kinds
    ensures Bytes(recs, kinds) == []
    decreases |recs|
  {
    if recs != [] {
      BytesSkipsOtherTypes(recs[..|recs| - 1], kinds);
    }
  }

  /** Handle as written: the three writes stop at the first failure, whose
      error is returned; after them the read loop runs; a read failure ends
      it with a nil result, because the read error is bound to a new variable
      that shadows the named result. */
  function Expected(req: Request, calls: nat, faults: map<nat, IoError>, inbound: seq<Record>): (t: Transcript)
    ensures t.written <= |Plan(req)| && t.consumed <= |inbound|
    // the writes that went through are exactly those before the first fault
    ensures forall c :: calls <= c < calls + t.written ==> c !in faults
    // a failed write is the last write call, its error is returned, and nothing is read
    ensures t.written < |Plan(req)| ==>
              t.attempts == t.written + 1 && calls + t.written in faults &&
              t.outcome == Returned(Some(faults[calls + t.written])) && t.consumed == 0
    // the loop runs only after every write went through
    ensures t.consumed > 0 ==> t.written == |Plan(req)| && t.attempts == t.written
    // once every write went through, the read loop decides the rest: it panics
    // exactly on an unexpected record
    ensures t.written == |Plan(req)| ==>
              t.attempts == t.written && t.consumed == RunLoop(inbound).consumed &&
              (t.outcome.Panicked? <==> RunLoop(inbound).exit.Unexpected?)
    // an error is returned exactly when a write failed: a read error never surfaces
    ensures (t.outcome.Returned? && t.outcome.err.Some?) <==> t.written < |Plan(req)|
    // a panic names the record that caused it, the last one consumed
    ensures t.outcome.Panicked? ==>
              0 < t.consumed && inbound[t.consumed - 1].rtype == t.outcome.rtype &&
              !IsOutput(t.outcome.rtype) && t.outcome.rtype != TypeEndRequest
  {
    var plan := Plan(req);
    var k := WritesBeforeFault(faults, calls, |plan|);
    if k < |plan| then
      Transcript(k + 1, k, 0, Returned(Some(faults[calls + k])))
    else
      var run := RunLoop(inbound);
      Transcript(k, k, run.consumed,
        if run.exit.Unexpected? then Panicked(run.exit.rtype) else Returned(None))
  }

  /** An exchange in which the peer answers with Stdout "hello", Stderr
      "oops" and EndRequest: every write goes through, nothing is returned,
      all three records are consumed and the bytes are routed. */
  lemma HelloOopsExchange(req: Request, calls: nat)
    ensures var hello: seq<uint8> := [104, 101, 108, 108, 111];
      var oops: seq<uint8> := [111, 111, 112, 115];
      var inbound := [Record(TypeStdout, hello), Record(TypeStderr, oops), Record(TypeEndRequest, [])];
      var t := Expected(req, calls, map[], inbound);
      && t.outcome == Returned(None) && t.consumed == 3 && t.written == |Plan(req)|
      && Bytes(inbound, {TypeStdout}) == hello && Bytes(inbound, {TypeStderr}) == oops
  {
    var hello: seq<uint8> := [104, 101, 108, 108, 111];
    var oops: seq<uint8> := [111, 111, 112, 115];
    var inbound := [Record(TypeStdout, hello), Record(TypeStderr, oops), Record(TypeEndRequest, [])];
    RunLoopStopsAtFirstControlRecord(inbound[..2], inbound[2], []);
    assert inbound[..2] + [inbound[2]] + [] == inbound;
    var a, b, c := inbound[0], inbound[1], inbound[2];
    assert inbound[..2] == [a, b] && [a, b][..1] == [a] && [a][..0] == [];
    assert a.rtype !in {TypeStderr} && b.rtype !in {TypeStdout};
    assert Bytes([], {TypeStdout}) == [] && Bytes([], {TypeStderr}) == [];
    assert Bytes([a], {TypeStdout}) == hello && Bytes([a], {TypeStderr}) == [];
    assert Bytes([a, b], {TypeStdout}) == hello && Bytes([a, b], {TypeStderr}) == oops;
  }

  /** As written, a connection that fails on the first read (the peer closed
      it before answering) makes Handle return nil, as if the request had
      completed. */
  lemma ReadFailureReturnsNil(req: Request, calls: nat)
    ensures Expected(req, calls, map[], []).outcome == Returned(None)
  {
  }

  /** Handle as evidently intended: a read failure returns the read error. */
  function ExpectedReportingReadError(req: Request, calls: nat, faults: map<nat, IoError>,
                                      inbound: seq<Record>, readFault: IoError): (t: Transcript)
    ensures t.consumed <= |inbound|
    // the writes and the records read are those of the code as written
    ensures var e := Expected(req, calls, faults, inbound);
              t.attempts == e.attempts && t.written == e.written && t.consumed == e.consumed
    // a failed write is reported as before
    ensures t.written < |Plan(req)| ==> t.outcome == Expected(req, calls, faults, inbound).outcome
    // after the writes: nil exactly on EndRequest, a panic exactly on an
    // unexpected record, and the read error on a read failure
    ensures t.written == |Plan(req)| ==>
              && (t.outcome == Returned(None) <==> RunLoop(inbound).exit.SawEnd?)
              && (t.outcome.Panicked? <==> RunLoop(inbound).exit.Unexpected?)
              && (RunLoop(inbound).exit.ReadFailed? ==> t.outcome == Returned(Some(readFault)))
    // nil is returned exactly when every write went through and EndRequest was read
    ensures t.outcome == Returned(None) <==>
              t.written == |Plan(req)| && 0 < t.consumed && inbound[t.consumed - 1].rtype == TypeEndRequest
    // a read failure is reported with the transport's error
    ensures t.written == |Plan(req)| && t.consumed == |inbound| && t.outcome.Returned? &&
            (forall j :: 0 <= j < |inbound| ==> IsOutput(inbound[j].rtype)) ==>
              t.outcome.err == Some(readFault)
  {
    var t := Expected(req, calls, faults, inbound);
    if t.written == |Plan(req)| && RunLoop(inbound).exit.ReadFailed? then
      t.(outcome := Returned(Some(readFault)))
    else t
  }
}
