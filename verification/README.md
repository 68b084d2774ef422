# gofast client: request ids and the Handle exchange

This project models the core of the client in `client.go` of gofast, a
FastCGI client library for Go. It covers two parts.

- **Request-id allocator.** The client keeps a stream of candidate ids (a Go
  channel fed by a generator goroutine) and an in-use map.
  - `AllocID` draws candidates and discards any that are in use. It marks the
    first free one in use and returns it.
  - `ReleaseID` clears an id's flag and feeds the id back into the stream.
  - `NewRequest` wraps a fresh id into a request.
- **`Handle`.** It writes a BeginRequest record (Responder role, flags 0),
  then the Params stream, then the body as a Stdin record when there is one.
  The first failed write ends the call.
  - After the writes, a read loop copies Stdout records to `wOut` and Stderr
    records to `wErr`. It stops at EndRequest and panics on any other type.
  - A deferred `ReleaseID` gives the request's id back however `Handle` ends.

Files:

- `fcgi.dfy` (module `Fcgi`): 8- and 16-bit integers, `Option`/`Result`, and
  the FastCGI constants the client uses. These are record types 3, 4, 5, 6
  and 7 and role Responder = 1 (FastCGI Specification 1.0, sections 6.2
  and 8).
- `id_pool.dfy` (module `IdPool`): the allocator's state as a value `Pool`
  (pending candidates, in-use flags), with `Alloc` and `Release` and the
  lemmas about them. It also holds the generator, and `Replay`, which runs
  any sequence of `AllocID` and `ReleaseID` calls on a pool.
- `exchange.dfy` (module `Exchange`): what one `Handle` call does, as a
  function `Expected` of the request, the connection's write faults and the
  records the peer sends. The read loop is `RunLoop`; the bytes routed to each
  writer are `Bytes`.
- `client.dfy` (module `FcgiClient`): the objects.
  - `Client` has a `pending: seq<uint16>` queue and an `ids` map that its
    methods update in place. Each method's `ensures` ties the new state to
    `Alloc`, `Release` or `Expected` applied to the old state.
  - `Conn` is the connection, seen only through the operations `Handle` calls.
  - `Sink` is an `io.Writer`.

How the environment is modelled:

- The transport decides which writes fail: write call number `c` fails with
  `faults[c]` when `c` is in `faults`. A failed write sends nothing.
- Reads deliver `inbound` in order. A read fails once `inbound` is exhausted,
  which covers both a closed connection and a broken one.
- A writer either accepts every write or refuses every write with its fault.
  `Handle` ignores the writers' errors.
- When `wOut` and `wErr` are the same writer, it receives both streams
  interleaved in arrival order.
- The Go panic is the outcome `Panicked(type)`. Go runs deferred calls while a
  panic unwinds, so the id is released on that path too.
- When the candidate stream is empty, Go's `AllocID` blocks. The model
  returns `None` instead, with the stream drained.

The model follows the code in two places where it departs from what it
evidently means to do. Both are listed under Findings.

- The code hands out ids 0 to 65535, and 0 first. FastCGI reserves request
  id 0 for management records (FastCGI Specification 1.0, section 3.3).
- The read at client.go:62 binds its error to a new `err` that shadows the
  named result, so a read failure makes `Handle` return nil.

## Model

| member | source | states |
|---|---|---|
| `IdPool.FirstFree` | client.go:19-24 | the position of the first candidate not in use: every earlier one is in use, and it is free unless it is past the end |
| `IdPool.Alloc` | client.go:18-27 | the id granted was not in use and is in use afterwards; no other id's flag changes; it blocks (None) exactly when every pending candidate is in use |
| `IdPool.AllocDrawsFromFront` | client.go:19-24 | allocation consumes candidates only from the front of the stream; the last candidate drawn is the grant; every candidate discarded before it was in use; a blocked allocation leaves the stream drained |
| `IdPool.Release` | client.go:30-37 | the released id is no longer in use; no other flag changes; the stream gains exactly that one id (as a multiset, since where it lands is not determined in Go) |
| `IdPool.RunSoundStep` | client.go:18-27 | one allocation that keeps Alloc's promises, followed by a sound run of allocations, is itself a sound run |
| `IdPool.AllocationsDistinct` | client.go:18-27 | any number of allocations with no release in between grant pairwise distinct ids; each was free before and is in use after; nothing in use is freed |
| `IdPool.ReleaseUnblocks` | client.go:102-108 | after any release, the next allocation grants an id: a release unblocks an allocator whose ids were all in use |
| `IdPool.GenerateCandidates` | client.go:114-120 | the generator's loop produces exactly the fresh stream 0, 1, ..., 65535 |
| `IdPool.FreshCandidatesEnumerate` | client.go:115-120 | the fresh stream holds 65536 ids in strictly increasing order, so each uint16 occurs exactly once |
| `IdPool.FreshClientGrantsZero` | client.go:113-127 | the first id a fresh client grants is 0 |
| `IdPool.ReservedZeroCandidatesEnumerate` | client.go:115-120 | the corrected stream holds every id except 0 exactly once, in increasing order |
| `IdPool.AllocKeepsZeroOut` | client.go:19-25 | from a stream without 0, one allocation neither grants 0 nor leaves 0 in the stream |
| `IdPool.ZeroNeverGranted` | client.go:18-27 | from a stream without 0, no run of allocations ever grants 0, and 0 stays out of the stream |
| `IdPool.ReleaseKeepsZeroReserved` | client.go:30-37 | releasing any id other than 0 keeps 0 out of the stream |
| `IdPool.FreshPoolLosesNoId` | client.go:113-127 | a fresh client has lost no id: every id not in use is among the candidates |
| `IdPool.AllocLosesNoId` | client.go:18-27 | an allocation discards only candidates in use, so every free id is still a candidate afterwards |
| `IdPool.ReleaseLosesNoId` | client.go:30-37 | a release keeps every free id among the candidates, the released one included |
| `IdPool.AllocBlocksOnlyWhenExhausted` | client.go:102-104 | while no id is lost, allocation blocks exactly when all 65536 ids are in use |
| `IdPool.ReplayLosesNoId` | client.go:18-37 | any sequence of allocations and releases loses no free id |
| `IdPool.ReachableAllocBlocksOnlyWhenExhausted` | client.go:102-104 | in every state reached from NewClient by AllocID and ReleaseID calls, AllocID blocks exactly when all 65536 ids are in use |
| `IdPool.ReplayNeverGrantsZero` | client.go:18-37 | from a stream without 0, any sequence of allocations and releases of ids other than 0 never grants 0 and keeps it out of the stream |
| `IdPool.ReleasingZeroReadmitsIt` | client.go:30-37 | releasing 0 puts it back among the candidates: with nothing else pending, the next allocation grants 0 |
| `FcgiClient.Client.constructor` | client.go:113-127 | a new client has the fresh stream 0..65535 as candidates and no id in use |
| `FcgiClient.Client.ReservingZero` | client.go:113-127 | the corrected client starts with the stream 1..65535 and no id in use, so 0 is not a candidate |
| `FcgiClient.Client.AllocID` | client.go:18-27 | the grant and the new state are exactly what Alloc gives for the old state |
| `FcgiClient.Client.ReleaseID` | client.go:30-37 | the new state is exactly Release of the old one, for any id (no precondition) |
| `FcgiClient.Client.NewRequest` | client.go:83-88 | allocates as Alloc does and returns a request with that id, empty params and an empty body (None where Go would block) |
| `FcgiClient.Client.Handle` | client.go:40-80 | the id is released exactly once on every path (the state is Release of the old one); the outcome, the writes, the records consumed and the bytes each writer received are those of Expected |
| `FcgiClient.Client.Converse` | client.go:43-79 | the body under the defer: its outcome, write calls, frames sent, records consumed and writer contents are those of Expected |
| `FcgiClient.Client.WriteRequest` | client.go:43-56 | the frames before the first failing write call are sent in plan order; that call's error is returned; nothing after it is attempted |
| `FcgiClient.Client.ReadLoop` | client.go:58-77 | consumes exactly the records RunLoop consumes and stops for its reason; no write happens; the writers receive the routed bytes of the consumed records |
| `FcgiClient.Client.Forward` | client.go:67-71 | a Stdout record's bytes go to wOut and a Stderr record's bytes to wErr, appended in order; a failing writer keeps nothing and its error is dropped |
| `FcgiClient.DeliveredSkips` | client.go:72-76 | an EndRequest or unexpected record adds nothing to either writer |
| `FcgiClient.Conn.WriteBeginRequest` | client.go:43 | one write call: BeginRequest(id, role, flags) is sent unless the transport fails this call, whose error is returned |
| `FcgiClient.Conn.WritePairs` | client.go:47 | one write call carrying the params; it is sent whole or fails |
| `FcgiClient.Conn.WriteRecord` | client.go:52 | one write call carrying the Stdin body; it is sent whole or fails |
| `FcgiClient.Conn.ReadRecord` | client.go:62 | returns the next inbound record and consumes it, or fails with the read fault once nothing is left |
| `FcgiClient.Sink.Write` | client.go:69-71 | a healthy writer appends the bytes; a faulty one keeps nothing and returns its fault |
| `Exchange.Plan` | client.go:43-56 | the writes in order: BeginRequest for the Responder role with FCGI_KEEP_CONN clear, then Params, then Stdin exactly when the body is non-empty; every frame carries the request's id |
| `Exchange.WritesBeforeFault` | client.go:43-56 | the number of write calls that go through before the first failing one: all earlier calls succeed, and the next one, if any, fails |
| `Exchange.RunLoop` | client.go:60-77 | the loop ends on a failed read exactly when every record was Stdout or Stderr; otherwise it stops at the first other record: EndRequest ends it, any other type is fatal |
| `Exchange.RunLoopStopsAtFirstControlRecord` | client.go:67-76 | after any run of Stdout/Stderr records, the first other record stops the loop (EndRequest) or is fatal (any other type); nothing after it is read |
| `Exchange.RunLoopReadsPastOutput` | client.go:61-64 | with only Stdout/Stderr records, the loop consumes them all and ends on a failed read |
| `Exchange.BytesSnoc` | client.go:68-71 | one more record appends its bytes at the end when its type is routed to that writer, and nothing otherwise |
| `Exchange.BytesAppend` | client.go:68-71 | routing keeps arrival order: the bytes of two consecutive runs of records are those of the first followed by those of the second |
| `Exchange.BytesSkipsOtherTypes` | client.go:68-71 | records of a type not routed to a writer contribute nothing to it, e.g. Stdout never reaches wErr |
| `Exchange.Expected` | client.go:40-80 | the writes stop at the first failure, whose error is returned with nothing read; once every write succeeded, the read loop consumes what RunLoop consumes and Handle panics exactly on an unexpected record, naming it; an error is returned exactly when a write failed |
| `Exchange.HelloOopsExchange` | client.go:40-80 | if the peer answers Stdout "hello", Stderr "oops", EndRequest: no error, all three records consumed, "hello" routed to wOut and "oops" to wErr |
| `Exchange.ReadFailureReturnsNil` | client.go:61-64 | when the peer closes the connection before answering, Handle returns nil |
| `Exchange.ExpectedReportingReadError` | client.go:61-64 | the corrected exchange makes the same writes and reads the same records as the code; a write error is returned as before; after the writes it returns nil exactly on EndRequest, panics exactly on an unexpected record, and returns the transport's read error when a read fails |

## Left out

- Goroutines and the unbuffered channel (client.go:32-36, 115-120) are not modelled.
  - The candidate stream is a queue, and a release appends to it.
  - In Go, the generator and the release goroutines deliver in no fixed order. So `Release` states only that the stream gains the id as a multiset, and no lemma depends on where the id lands.
  - `ids` is an unsynchronised map shared between goroutines. Concurrent use is not modelled.
- Blocking `AllocID` (client.go:19-20, 103) is not modelled as waiting. When no free candidate is pending, `Alloc` returns `None` with the stream drained. `ReleaseUnblocks` states that a release lets the next allocation through.
- The connection's own code (`newConn`, `writeBeginRequest`, `writePairs`, `writeRecord`, `record.read`) is not part of this model.
  - It includes the 8-byte record header, padding, the name-value length encoding, splitting params across records, and the empty Params record that ends the stream.
  - Each operation is modelled as one call that succeeds whole or fails whole. Partial writes are not modelled.
- `net.Conn` and `io.Writer` I/O are not modelled. A writer is a byte sequence that grows; it accepts every write, or refuses every write with one fault.
- The panic message text (client.go:75) is not modelled. Only the record type that caused the panic is kept, in `Panicked`.
- `Request.GetID` is not part of this model. It is read as the request's `id`.
- The contents of the EndRequest body are not modelled. `Handle` never reads them.
- A record's request id is not modelled, because the read loop never checks it. So a Stdout or Stderr record for another request goes to this request's writers, and another request's EndRequest ends this loop.

## Findings

| source | as written | input that shows it | evidently intended | confidence | as-written member | corrected member |
|---|---|---|---|---|---|---|
| client.go:116-119 | the generator emits 0 through 65535, so the first id a fresh client hands out is 0, and the BeginRequest for it goes out with request id 0 | a fresh client; the first `AllocID` | ids 1..65535; FastCGI reserves request id 0 for management records (FastCGI Specification 1.0, section 3.3) | high; not executed | `IdPool.FreshClientGrantsZero` | `FcgiClient.Client.ReservingZero` |
| client.go:62 | `err :=` declares a new `err` that shadows the named result, so a read failure ends the loop and `Handle` returns nil as if the request had completed | every write succeeds and the peer closes the connection before sending a record | return the read error | medium; not executed | `Exchange.ReadFailureReturnsNil` | `Exchange.ExpectedReportingReadError` |

Both corrections are proved beside the code as written:

- `IdPool.ZeroNeverGranted`, `IdPool.ReleaseKeepsZeroReserved` and `IdPool.ReplayNeverGrantsZero` prove that a client built with `ReservingZero` never grants 0, as long as 0 is never released. `ReleaseID` accepts any id, and `IdPool.ReleasingZeroReadmitsIt` shows that releasing 0 lets it back in.
- `ExpectedReportingReadError` keeps the writes and reads of the code and returns the transport's error when a read fails.

`Client`'s default constructor and `Handle` keep the behaviour of the code, since they model it.
