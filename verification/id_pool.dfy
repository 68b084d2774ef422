/** The request-id allocator as a value: the stream of candidate ids still to
    be drawn (the client's channel) and the in-use flags (the client's map).
    The class FcgiClient.Client updates these in place and is proved against
    the functions here. */
module IdPool {
  import opened Fcgi

  datatype Pool = Pool(pending: seq<uint16>, ids: map<uint16, bool>)

  /** The outcome of one allocation: the id granted, if any, and the pool after it. */
  datatype Draw = Draw(granted: Option<uint16>, pool: Pool)

  /** An id is in use when its flag is present and true; a missing key reads as
      false, as an absent key of a Go map does. */
  predicate InUse(ids: map<uint16, bool>, x: uint16)
  {
    x in ids && ids[x]
  }

  /** The position of the first candidate that is not in use, or |pending| when
      every candidate is in use. */
  function FirstFree(pending: seq<uint16>, ids: map<uint16, bool>): (k: nat)
    ensures k <= |pending|
    ensures forall j :: 0 <= j < k ==> InUse(ids, pending[j])
    ensures k < |pending| ==> !InUse(ids, pending[k])
  {
    if pending == [] || !InUse(ids, pending[0]) then 0
    else 1 + FirstFree(pending[1..], ids)
  }

  /** AllocID: draw candidates from the front of the stream, discarding those in
      use, and mark the first free one in use. When the stream runs dry the Go
      code blocks on the channel; here that is the `None` grant, with the stream
      drained. */
  function Alloc(p: Pool): (d: Draw)
    // the id granted was free when drawn and is in use afterwards
    ensures d.granted.Some? ==> !InUse(p.ids, d.granted.value) && InUse(d.pool.ids, d.granted.value)
    // no other flag changes
    ensures forall y :: d.granted != Some(y) ==> InUse(d.pool.ids, y) == InUse(p.ids, y)
    // it blocks exactly when every pending candidate is in use
    ensures d.granted.None? <==> forall j :: 0 <= j < |p.pending| ==> InUse(p.ids, p.pending[j])
  {
    var k := FirstFree(p.pending, p.ids);
    if k < |p.pending| then
      var x := p.pending[k];
      Draw(Some(x), Pool(p.pending[k + 1..], p.ids[x := true]))
    else
      Draw(None, Pool([], p.ids))
  }

  /** Allocation consumes candidates from the front of the stream only: the
      stream left over is a suffix of the old one, the last candidate drawn is
      the grant, every candidate discarded before it was in use, and a blocked
      allocation leaves the stream drained. */
  lemma AllocDrawsFromFront(p: Pool)
    ensures var d := Alloc(p);
      var m := |p.pending| - |d.pool.pending|;
      && 0 <= m && d.pool.pending == p.pending[m..]
      && (d.granted.Some? ==> 0 < m && p.pending[m - 1] == d.granted.value)
      && (forall j :: 0 <= j < m - (if d.granted.Some? then 1 else 0) ==> InUse(p.ids, p.pending[j]))
      && (d.granted.None? ==> d.pool.pending == [])
  {
    var k := FirstFree(p.pending, p.ids);
    if k < |p.pending| {
      assert |Alloc(p).pool.pending| == |p.pending| - (k + 1);
    }
  }

  /** ReleaseID: clear the flag and hand the id back to the candidate stream.
      In Go the id is sent by a goroutine, so where it lands among the other
      candidates is not determined; the contract speaks of the multiset only. */
  function Release(p: Pool, x: uint16): (q: Pool)
    ensures !InUse(q.ids, x)
    ensures forall y :: y != x ==> InUse(q.ids, y) == InUse(p.ids, y)
    ensures multiset(q.pending) == multiset(p.pending) + multiset{x}
  {
    Pool(p.pending + [x], p.ids[x := false])
  }

  /** `n` successive allocations with no release in between: the ids granted,
      in order, and the final pool. */
  function AllocRun(p: Pool, n: nat): (seq<uint16>, Pool)
    decreases n
  {
    if n == 0 then ([], p)
    else
      var d := Alloc(p);
      var rest := AllocRun(d.pool, n - 1);
      (if d.granted.Some? then [d.granted.value] + rest.0 else rest.0, rest.1)
  }

  /** No id occurs twice. */
  predicate Distinct(s: seq<uint16>)
  {
    forall i, j :: 0 <= i < j < |s| ==> s[i] != s[j]
  }

  /** One allocation followed by the rest of a run. */
  lemma AllocRunUnfold(p: Pool, n: nat)
    requires n > 0
    ensures var d := Alloc(p);
      var rest := AllocRun(d.pool, n - 1);
      AllocRun(p, n) == (if d.granted.Some? then [d.granted.value] + rest.0 else rest.0, rest.1)
  {
  }

  /** What a run of allocations from `p` that granted `g` and ended in `q`
      must satisfy. */
  predicate RunSound(p: Pool, g: seq<uint16>, q: Pool)
  {
    && Distinct(g)
    && (forall x :: x in g ==> !InUse(p.ids, x) && InUse(q.ids, x))
    && (forall y :: InUse(p.ids, y) ==> InUse(q.ids, y))
  }

  /** The inductive step: an allocation that behaves as Alloc promises,
      followed by a sound run, is a sound run. */
  lemma RunSoundStep(p: Pool, granted: Option<uint16>, mid: Pool, g: seq<uint16>, q: Pool)
    requires granted.Some? ==> !InUse(p.ids, granted.value) && InUse(mid.ids, granted.value)
    requires forall y :: granted != Some(y) ==> InUse(mid.ids, y) == InUse(p.ids, y)
    requires RunSound(mid, g, q)
    ensures RunSound(p, if granted.Some? then [granted.value] + g else g, q)
  {
    if granted.Some? {
      var x := granted.value;
      var g' := [x] + g;
      assert x !in g;
      forall y | y in g
        ensures !InUse(p.ids, y)
      {
        assert !InUse(mid.ids, y) && y != x;
      }
      forall i, j | 0 <= i < j < |g'|
        ensures g'[i] != g'[j]
      {
        assert g'[j] == g[j - 1];
        if i > 0 {
          assert g'[i] == g[i - 1];
        }
      }
    }
  }

  /** Allocations with no release in between hand out pairwise distinct ids,
      each free before the run and in use after it; nothing in use is freed. */
  lemma {:induction false} AllocationsDistinct(p: Pool, n: nat)
    ensures RunSound(p, AllocRun(p, n).0, AllocRun(p, n).1)
    decreases n
  {
    if n > 0 {
      var d := Alloc(p);
      var rest := AllocRun(d.pool, n - 1);
      AllocationsDistinct(d.pool, n - 1);
      AllocRunUnfold(p, n);
      RunSoundStep(p, d.granted, d.pool, rest.0, rest.1);
    }
  }

  /** A release lets a blocked allocation through: once an id is released, the
      next allocation grants some id, whatever was in use before. */
  lemma ReleaseUnblocks(p: Pool, x: uint16)
    ensures Alloc(Release(p, x)).granted.Some?
  {
    var q := Release(p, x);
    assert q.pending[|p.pending|] == x;
  }

  /** The candidate stream of a fresh client: 0, 1, ..., 65535. */
  function FreshCandidates(): seq<uint16>
  {
    seq(0x1_0000, i requires 0 <= i < 0x1_0000 => i as uint16)
  }

  /** NewClient's generator. It counts a uint16 up to 65534 and sends 65535
      after the loop, since `i <= 65535` would never become false. */
  method GenerateCandidates() returns (s: seq<uint16>)
    ensures s == FreshCandidates()
  {
    s := [];
    var i: uint16 := 0;
    while i < 65535
      invariant |s| == i as int
      invariant forall k :: 0 <= k < |s| ==> s[k] as int == k
    {
      s := s + [i];
      i := i + 1;
    }
    s := s + [65535];
  }

  /** The fresh stream holds every uint16 exactly once, in increasing order. */
  lemma FreshCandidatesEnumerate()
    ensures |FreshCandidates()| == 0x1_0000
    ensures forall i, j :: 0 <= i < j < |FreshCandidates()| ==> FreshCandidates()[i] < FreshCandidates()[j]
    ensures forall x: uint16 :: x in FreshCandidates()
  {
    var s := FreshCandidates();
    forall x: uint16
      ensures x in s
    {
      assert s[x as int] == x;
    }
  }

  /** As written, the first id a fresh client hands out is 0, the id FastCGI
      reserves for management records (section 3.3 of the FastCGI
      Specification 1.0). */
  lemma FreshClientGrantsZero()
    ensures Alloc(Pool(FreshCandidates(), map[])).granted == Some(0)
  {
    assert FreshCandidates()[0] == 0;
  }

  /** The stream the generator evidently should produce: 1, 2, ..., 65535. */
  function ReservedZeroCandidates(): seq<uint16>
  {
    seq(0xFFFF, i requires 0 <= i < 0xFFFF => (i + 1) as uint16)
  }

  /** The corrected stream holds every id but 0 exactly once, in increasing order. */
  lemma ReservedZeroCandidatesEnumerate()
    ensures |ReservedZeroCandidates()| == 0xFFFF
    ensures forall i, j :: 0 <= i < j < |ReservedZeroCandidates()| ==>
      ReservedZeroCandidates()[i] < ReservedZeroCandidates()[j]
    ensures forall x: uint16 :: x in ReservedZeroCandidates() <==> x != 0
  {
    var s := ReservedZeroCandidates();
    forall x: uint16 | x != 0
      ensures x in s
    {
      assert s[x as int - 1] == x;
    }
  }

  /** One allocation from a stream without 0 neither grants 0 nor lets it in. */
  lemma AllocKeepsZeroOut(p: Pool)
    requires 0 !in p.pending
    ensures Alloc(p).granted != Some(0) && 0 !in Alloc(p).pool.pending
  {
    AllocDrawsFromFront(p);
    var d := Alloc(p);
    var m := |p.pending| - |d.pool.pending|;
    forall k | 0 <= k < |d.pool.pending|
      ensures d.pool.pending[k] != 0
    {
      assert d.pool.pending[k] == p.pending[m + k];
    }
  }

  /** While 0 is not among the candidates, no run of allocations grants it and
      it stays out of the stream. */
  lemma {:induction false} ZeroNeverGranted(p: Pool, n: nat)
    requires 0 !in p.pending
    ensures 0 !in AllocRun(p, n).0 && 0 !in AllocRun(p, n).1.pending
    decreases n
  {
    if n > 0 {
      AllocKeepsZeroOut(p);
      var d := Alloc(p);
      ZeroNeverGranted(d.pool, n - 1);
      var rest := AllocRun(d.pool, n - 1);
      assert AllocRun(p, n).1 == rest.1;
      assert d.granted.Some? ==> AllocRun(p, n).0 == [d.granted.value] + rest.0;
      assert d.granted.None? ==> AllocRun(p, n).0 == rest.0;
    }
  }

  /** Releasing an id other than 0 keeps 0 out of the candidate stream. */
  lemma ReleaseKeepsZeroReserved(p: Pool, x: uint16)
    requires 0 !in p.pending && x != 0
    ensures 0 !in Release(p, x).pending
  {
    assert 0 !in multiset(Release(p, x).pending);
  }
  /** No free id has dropped out of the candidate stream: every id not in
      use is still pending. */
  predicate NoIdLost(p: Pool)
  {
    forall y: uint16 :: !InUse(p.ids, y) ==> y in p.pending
  }

  /** A fresh client has lost no id. */
  lemma FreshPoolLosesNoId()
    ensures NoIdLost(Pool(FreshCandidates(), map[]))
  {
    FreshCandidatesEnumerate();
  }

  /** An allocation loses no free id: it discards only candidates in use. */
  lemma AllocLosesNoId(p: Pool)
    requires NoIdLost(p)
    ensures NoIdLost(Alloc(p).pool)
  {
    AllocDrawsFromFront(p);
    var d := Alloc(p);
    var m := |p.pending| - |d.pool.pending|;
    forall y: uint16 | !InUse(d.pool.ids, y)
      ensures y in d.pool.pending
    {
      var i :| 0 <= i < |p.pending| && p.pending[i] == y;
      assert d.pool.pending[i - m] == y;
    }
  }

  /** A release loses no free id: the released one goes back into the stream. */
  lemma ReleaseLosesNoId(p: Pool, x: uint16)
    requires NoIdLost(p)
    ensures NoIdLost(Release(p, x))
  {
    var q := Release(p, x);
    assert q.pending[|p.pending|] == x;
    forall y: uint16 | !InUse(q.ids, y) && y != x
      ensures y in q.pending
    {
      assert y in multiset(p.pending);
    }
  }

  /** While no id is lost, allocation blocks exactly when all 65536 ids are
      in use. */
  lemma AllocBlocksOnlyWhenExhausted(p: Pool)
    requires NoIdLost(p)
    ensures Alloc(p).granted.None? <==> forall y: uint16 :: InUse(p.ids, y)
  {
    if Alloc(p).granted.None? {
      forall y: uint16
        ensures InUse(p.ids, y)
      {
        assert y in p.pending ==> exists i :: 0 <= i < |p.pending| && p.pending[i] == y;
      }
    }
  }

  /** A call the client makes on the allocator: AllocID, or ReleaseID of an id. */
  datatype Op = Take | Give(id: uint16)

  /** The ids granted while running `ops` from `p` in order, and the pool after them. */
  function Replay(p: Pool, ops: seq<Op>): (seq<uint16>, Pool)
    decreases |ops|
  {
    if ops == [] then ([], p)
    else match ops[0]
      case Take =>
        var d := Alloc(p);
        var rest := Replay(d.pool, ops[1..]);
        (if d.granted.Some? then [d.granted.value] + rest.0 else rest.0, rest.1)
      case Give(x) => Replay(Release(p, x), ops[1..])
  }

  /** Any mix of allocations and releases loses no free id. */
  lemma {:induction false} ReplayLosesNoId(p: Pool, ops: seq<Op>)
    requires NoIdLost(p)
    ensures NoIdLost(Replay(p, ops).1)
    decreases |ops|
  {
    if ops != [] {
      match ops[0]
      case Take =>
        AllocLosesNoId(p);
        ReplayLosesNoId(Alloc(p).pool, ops[1..]);
      case Give(x) =>
        ReleaseLosesNoId(p, x);
        ReplayLosesNoId(Release(p, x), ops[1..]);
    }
  }

  /** In every state a client reaches from NewClient by AllocID and ReleaseID
      calls, AllocID blocks exactly when all 65536 ids are in use. */
  lemma ReachableAllocBlocksOnlyWhenExhausted(ops: seq<Op>)
    ensures var p := Replay(Pool(FreshCandidates(), map[]), ops).1;
      Alloc(p).granted.None? <==> forall y: uint16 :: InUse(p.ids, y)
  {
    FreshPoolLosesNoId();
    ReplayLosesNoId(Pool(FreshCandidates(), map[]), ops);
    AllocBlocksOnlyWhenExhausted(Replay(Pool(FreshCandidates(), map[]), ops).1);
  }

  /** Starting without 0 among the candidates, any mix of allocations and
      releases of ids other than 0 never grants 0 and keeps it out of the stream. */
  lemma {:induction false} ReplayNeverGrantsZero(p: Pool, ops: seq<Op>)
    requires 0 !in p.pending
    requires forall i :: 0 <= i < |ops| ==> ops[i] != Give(0)
    ensures 0 !in Replay(p, ops).0 && 0 !in Replay(p, ops).1.pending
    decreases |ops|
  {
    if ops != [] {
      assert ops[0] != Give(0);
      assert forall i :: 0 <= i < |ops[1..]| ==> ops[1..][i] == ops[i + 1];
      match ops[0]
      case Take =>
        AllocKeepsZeroOut(p);
        ReplayNeverGrantsZero(Alloc(p).pool, ops[1..]);
      case Give(x) =>
        ReleaseKeepsZeroReserved(p, x);
        ReplayNeverGrantsZero(Release(p, x), ops[1..]);
    }
  }

  /** Releasing 0 lets it back in: the reservation holds only while 0 is never released. */
  lemma ReleasingZeroReadmitsIt()
    ensures Alloc(Release(Pool([], map[]), 0)).granted == Some(0)
  {
    assert Release(Pool([], map[]), 0).pending == [0];
  }
}
