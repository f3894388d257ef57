/**
 The software-pipelined request loop of the partition processor over a ring of parsed requests: a request is prepared,
 looked up and executed `gap` iterations apart, with unsigned indices that wrap below zero instead of being tested.
 */
module Pipeline {
  import opened Words
  import opened Remainders
  import opened Powers
  import Batch

  const RING: int := 128              // kMaxParsedRequestCount
  const UNKNOWN: int := TWO_32 - 1    // the count while there may be more requests

  datatype Parsed = Parsed(request: Batch.Request, packet: nat, lastInPacket: bool)

  // ---------- What the packets hold ----------

  predicate IsBatch(data: Batch.Bytes) {
    Batch.IsValid(data) && Batch.IsRequest(data)
  }

  ghost function RequestsIn(data: Batch.Bytes): seq<Batch.Request> {
    if IsBatch(data) then Batch.Parse(data, Batch.BATCH_HEADER) else []
  }

  ghost function Tagged(rs: seq<Batch.Request>, packet: nat): (ps: seq<Parsed>)
    ensures |ps| == |rs|
  {
    seq(|rs|, i requires 0 <= i < |rs| => Parsed(rs[i], packet, i == |rs| - 1))
  }

  /** The requests of the first n packets, in order. */
  ghost function AllUpTo(packets: seq<Batch.Bytes>, n: nat): seq<Parsed>
    requires n <= |packets|
  {
    if n == 0 then [] else AllUpTo(packets, n - 1) + Tagged(RequestsIn(packets[n - 1]), n - 1)
  }

  lemma {:induction false} AllPrefix(packets: seq<Batch.Bytes>, m: nat, n: nat)
    requires m <= n <= |packets|
    ensures AllUpTo(packets, m) <= AllUpTo(packets, n)
  {
    hide RequestsIn;
    if m < n {
      AllPrefix(packets, m, n - 1);
    }
  }

  /** How many requests come before those of packet n. */
  ghost function Before(rss: seq<seq<Batch.Request>>, n: nat): nat
    requires n <= |rss|
  {
    if n == 0 then 0 else Before(rss, n - 1) + |rss[n - 1]|
  }

  /** The j-th request of packet i is there, in its place. */
  ghost predicate InPlace(all: seq<Parsed>, rss: seq<seq<Batch.Request>>, i: nat, j: nat)
    requires i < |rss| && j < |rss[i]|
  {
    Before(rss, i) + j < |all| && all[Before(rss, i) + j] == Parsed(rss[i][j], i, j + 1 == |rss[i]|)
  }

  /** A burst of packets with batches that a client has written holds exactly these requests, packet after packet, and
      other packets hold none. */
  lemma {:induction false} BatchesInOrder(packets: seq<Batch.Bytes>, rss: seq<seq<Batch.Request>>, n: nat)
    requires n <= |packets| == |rss|
    requires forall i | 0 <= i < |packets| ::
               if IsBatch(packets[i])
               then Batch.Encoded(packets[i], rss[i]) && Batch.OffsetOf(rss[i], |rss[i]|) == |packets[i]|
               else rss[i] == []
    ensures |AllUpTo(packets, n)| == Before(rss, n)
    ensures forall i, j | 0 <= i < n && 0 <= j < |rss[i]| :: InPlace(AllUpTo(packets, n), rss, i, j)
  {
    hide IsBatch, Batch.Encoded, RequestsIn, Tagged, InPlace;
    if 0 < n {
      BatchesInOrder(packets, rss, n - 1);
      RequestsEncoded(packets[n - 1], rss[n - 1]);
      forall i, j | 0 <= i < n && 0 <= j < |rss[i]|
        ensures InPlace(AllUpTo(packets, n), rss, i, j)
      {
        PlaceKept(AllUpTo(packets, n - 1), rss, n - 1, i, j);
      }
    }
  }

  lemma PlaceKept(all: seq<Parsed>, rss: seq<seq<Batch.Request>>, n: nat, i: nat, j: nat)
    requires i <= n < |rss| && j < |rss[i]| && |all| == Before(rss, n) && (i < n ==> InPlace(all, rss, i, j))
    ensures InPlace(all + Tagged(rss[n], n), rss, i, j)
  {
    hide Tagged;
    if i == n {
      TaggedAt(rss[i], i, j);
    }
  }

  lemma TaggedAt(rs: seq<Batch.Request>, packet: nat, j: nat)
    requires j < |rs|
    ensures Tagged(rs, packet)[j] == Parsed(rs[j], packet, j + 1 == |rs|)
  {
  }

  lemma RequestsEncoded(data: Batch.Bytes, rs: seq<Batch.Request>)
    requires if IsBatch(data) then Batch.Encoded(data, rs) && Batch.OffsetOf(rs, |rs|) == |data| else rs == []
    ensures RequestsIn(data) == rs
  {
    hide Batch.Encoded;
    if IsBatch(data) {
      Batch.ParseEncoded(data, rs, 0);
    }
  }

  /** Packets below n come in order, and the last request of each is marked. */
  ghost predicate Ordered(packets: seq<Batch.Bytes>, ps: seq<Parsed>, n: nat)
    requires n <= |packets|
  {
    && (forall k | 0 <= k < |ps| :: ps[k].packet < n && IsBatch(packets[ps[k].packet]))
    && (forall j, k | 0 <= j <= k < |ps| :: ps[j].packet <= ps[k].packet)
    && (forall k {:trigger ps[k].lastInPacket} | 0 <= k < |ps| - 1 ::
          ps[k].lastInPacket <==> ps[k].packet < ps[k + 1].packet)
    && (0 < |ps| ==> ps[|ps| - 1].lastInPacket)
  }

  lemma {:induction false} InOrder(packets: seq<Batch.Bytes>, n: nat)
    requires n <= |packets|
    ensures Ordered(packets, AllUpTo(packets, n), n)
  {
    hide Ordered, IsBatch, Batch.Parse, RequestsIn;
    if 0 < n {
      InOrder(packets, n - 1);
      OnlyBatches(packets[n - 1]);
      OneMorePacket(packets, AllUpTo(packets, n - 1), RequestsIn(packets[n - 1]), n);
    } else {
      OrderedNothing(packets);
    }
  }

  lemma OrderedNothing(packets: seq<Batch.Bytes>)
    ensures Ordered(packets, [], 0)
  {
  }

  lemma OneMorePacket(packets: seq<Batch.Bytes>, ps: seq<Parsed>, rs: seq<Batch.Request>, n: nat)
    requires 0 < n <= |packets| && Ordered(packets, ps, n - 1) && (rs != [] ==> IsBatch(packets[n - 1]))
    ensures Ordered(packets, ps + Tagged(rs, n - 1), n)
  {
    hide IsBatch;
    var more := Tagged(rs, n - 1);
    var all := ps + more;
    forall k | 0 <= k < |all|
      ensures all[k].packet < n && IsBatch(packets[all[k].packet]) && (|ps| <= k ==> all[k].packet == n - 1)
    {
      assert all[k] == if k < |ps| then ps[k] else more[k - |ps|];
    }
    forall j, k | 0 <= j <= k < |all|
      ensures all[j].packet <= all[k].packet
    {
      assert k < |ps| ==> all[j] == ps[j] && all[k] == ps[k];
    }
    forall k | 0 <= k < |all| - 1
      ensures all[k].lastInPacket <==> all[k].packet < all[k + 1].packet
    {
      if |ps| <= k {
        assert all[k] == more[k - |ps|];
      } else {
        assert all[k] == ps[k];
        assert k + 1 < |ps| ==> all[k + 1] == ps[k + 1];
      }
    }
    assert more != [] ==> all[|all| - 1] == more[|more| - 1];
  }

  lemma OnlyBatches(data: Batch.Bytes)
    ensures RequestsIn(data) != [] ==> IsBatch(data)
  {
  }

  /** No packet has more than `most` requests, and all of them can be counted with 16 bits. */
  ghost predicate Fitting(packets: seq<Batch.Bytes>, most: nat) {
    && (forall p | 0 <= p < |packets| :: |RequestsIn(packets[p])| <= most)
    && |AllUpTo(packets, |packets|)| < TWO_16
  }

  // ---------- The ring ----------

  /** The requests from number `low` on are in the ring. */
  ghost predicate InRing(ring: seq<Parsed>, parsed: seq<Parsed>, low: nat)
    ensures InRing(ring, parsed, low) ==> |ring| == RING && low <= |parsed| <= low + RING
  {
    && |ring| == RING && low <= |parsed| <= low + RING
    && forall k | low <= k < |parsed| :: ring[k % RING] == parsed[k]
  }

  lemma RingPush(ring: seq<Parsed>, parsed: seq<Parsed>, low: nat, x: Parsed)
    requires InRing(ring, parsed, low) && |parsed| < low + RING
    ensures InRing(ring[|parsed| % RING := x], parsed + [x], low)
  {
  }

  ghost function Unmarked(rs: seq<Batch.Request>, packet: nat): (ps: seq<Parsed>)
    ensures |ps| == |rs|
  {
    seq(|rs|, i requires 0 <= i < |rs| => Parsed(rs[i], packet, false))
  }

  lemma UnmarkedNone(parsed: seq<Parsed>, packet: nat)
    ensures parsed + Unmarked([], packet) == parsed
  {
  }

  lemma UnmarkedMore(parsed: seq<Parsed>, rs: seq<Batch.Request>, r: Batch.Request, packet: nat)
    ensures parsed + Unmarked(rs, packet) + [Parsed(r, packet, false)] == parsed + Unmarked(rs + [r], packet)
  {
  }

  lemma ParseStart(data: Batch.Bytes)
    requires IsBatch(data)
    ensures RequestsIn(data) == Batch.Parse(data, Batch.BATCH_HEADER)
  {
  }

  lemma RingMark(ring: seq<Parsed>, parsed: seq<Parsed>, low: nat, rs: seq<Batch.Request>, packet: nat)
    requires low <= |parsed| && 0 < |rs| && InRing(ring, parsed + Unmarked(rs, packet), low)
    ensures var last := (|parsed| + |rs| + RING - 1) % RING;
            InRing(ring[last := ring[last].(lastInPacket := true)], parsed + Tagged(rs, packet), low)
  {
    var marked, n := parsed + Tagged(rs, packet), |parsed| + |rs|;
    assert (n + RING - 1) % RING == (n - 1) % RING;
    forall k | low <= k < n
      ensures k < n - 1 ==> marked[k] == (parsed + Unmarked(rs, packet))[k] && k % RING != (n - 1) % RING
    {
    }
  }

  /** A packet is due for release when it is a batch and none of its requests is waiting. */
  ghost predicate Due(packets: seq<Batch.Bytes>, parsed: seq<Parsed>, next: nat, low: nat, p: nat) {
    && p < next <= |packets| && IsBatch(packets[p])
    && forall k | low <= k < |parsed| :: parsed[k].packet != p
  }

  /** Exactly the packets that are due have been released, each once. */
  ghost predicate ReleasedExactly(packets: seq<Batch.Bytes>, parsed: seq<Parsed>, next: nat, low: nat,
                                  released: seq<nat>) {
    forall p: nat :: multiset(released)[p] == if Due(packets, parsed, next, low, p) then 1 else 0
  }

  lemma AfterPacket(packets: seq<Batch.Bytes>, parsed: seq<Parsed>, next: nat, low: nat, released: seq<nat>)
    requires next < |packets| && parsed == AllUpTo(packets, next) && low <= |parsed|
    requires ReleasedExactly(packets, parsed, next, low, released)
    ensures var rs, parsed' := RequestsIn(packets[next]), AllUpTo(packets, next + 1);
            && parsed' == parsed + Tagged(rs, next)
            && ReleasedExactly(packets, parsed', next + 1, low,
                               if IsBatch(packets[next]) && rs == [] then released + [next] else released)
  {
    hide IsBatch, Batch.Parse;
    var rs, parsed' := RequestsIn(packets[next]), AllUpTo(packets, next + 1);
    var released': seq<nat> := if IsBatch(packets[next]) && rs == [] then released + [next] else released;
    InOrder(packets, next);
    forall p: nat
      ensures multiset(released')[p] == if Due(packets, parsed', next + 1, low, p) then 1 else 0
    {
      if p == next {
        assert rs != [] ==> parsed'[|parsed|].packet == next;
      } else {
        assert forall k | low <= k < |parsed| :: parsed'[k] == parsed[k];
      }
    }
  }

  lemma AfterRetire(packets: seq<Batch.Bytes>, parsed: seq<Parsed>, next: nat, low: nat, released: seq<nat>)
    requires next <= |packets| && parsed == AllUpTo(packets, next) && low < |parsed|
    requires ReleasedExactly(packets, parsed, next, low, released)
    ensures ReleasedExactly(packets, parsed, next, low + 1,
                            if parsed[low].lastInPacket then released + [parsed[low].packet] else released)
  {
    hide IsBatch, Batch.Parse, RequestsIn, AllUpTo;
    InOrder(packets, next);
    var x := parsed[low];
    var released': seq<nat> := if x.lastInPacket then released + [x.packet] else released;
    forall p: nat
      ensures multiset(released')[p] == if Due(packets, parsed, next, low + 1, p) then 1 else 0
    {
      assert p == x.packet ==> !Due(packets, parsed, next, low, p);
      if p == x.packet && x.lastInPacket {
        forall k | low + 1 <= k < |parsed|
          ensures parsed[k].packet != p
        {
          assert parsed[low + 1].packet <= parsed[k].packet;
        }
      } else if p == x.packet {
        assert parsed[low + 1].packet <= p;
      }
    }
  }

  class RequestAccessor {
    const packets: seq<Batch.Bytes> // *bufs_
    const requests: array<Parsed>   // requests_
    var nextPacket: U16
    var nextPrepare: U16
    var nextRetire: U16
    var released: seq<nat>          // packets given back to the network, in order
    ghost var parsed: seq<Parsed>   // every request parsed so far

    ghost predicate Valid()
      reads this, requests
    {
      && |packets| < TWO_16 && nextPacket <= |packets|
      && parsed == AllUpTo(packets, nextPacket) && nextPrepare == |parsed|
      && InRing(requests[..], parsed, nextRetire)
      && ReleasedExactly(packets, parsed, nextPacket, nextRetire, released)
    }

    constructor (packets: seq<Batch.Bytes>)
      requires |packets| < TWO_16
      ensures Valid() && this.packets == packets && fresh(requests)
      ensures nextPacket == nextPrepare == nextRetire == 0
    {
      this.packets := packets;
      requests := new Parsed[RING](_ => Parsed(Batch.Request(0, 0, 0, 0, [], []), 0, false));
      nextPacket, nextPrepare, nextRetire, released := 0, 0, 0, [];
      parsed := [];
    }

    /** The request with a number, which must be in the ring. */
    function Get(index: nat): Parsed
      requires requests.Length == RING
      reads requests
    {
      requests[index % RING]
    }

    /** Ensures that the request with this number is there, unless there are no more. */
    method Prepare(index: nat, ghost most: nat) returns (ok: bool)
      requires Valid() && nextRetire <= index <= nextPrepare && Fitting(packets, most)
      requires index == nextPrepare ==> index - nextRetire + most <= RING
      modifies this, requests
      ensures Valid() && nextRetire == old(nextRetire) && (ok <==> index < nextPrepare)
      ensures old(nextPrepare) <= nextPrepare && (nextPrepare == old(nextPrepare) || nextPrepare <= index + most)
      ensures !ok ==> nextPacket == |packets|
    {
      ok := true;
      if index == nextPrepare {
        ok := ParseRequestBatch(most);
      }
    }

    /** Parses packets until one has requests. */
    method ParseRequestBatch(ghost most: nat) returns (ok: bool)
      requires Valid() && Fitting(packets, most) && nextPrepare - nextRetire + most <= RING
      modifies this, requests
      ensures Valid() && nextRetire == old(nextRetire)
      ensures old(nextPrepare) <= nextPrepare <= old(nextPrepare) + most
      ensures if ok then old(nextPrepare) < nextPrepare else nextPrepare == old(nextPrepare) && nextPacket == |packets|
    {
      hide InRing, ReleasedExactly, AllUpTo;
      while nextPacket < |packets|
        invariant Valid() && nextRetire == old(nextRetire) && nextPrepare == old(nextPrepare)
        decreases |packets| - nextPacket
      {
        var p := nextPacket;
        var data := packets[p];
        ghost var parsed0 := parsed;
        AfterPacket(packets, parsed, p, nextRetire, released);
        AllPrefix(packets, p + 1, |packets|);
        nextPacket := nextPacket + 1;
        if !Batch.IsValid(data) || !Batch.IsRequest(data) {
          parsed := AllUpTo(packets, nextPacket);
          assert parsed == parsed0;
          continue;
        }
        var before := nextPrepare;
        ParsePacket(p, data);
        if nextPrepare == before {
          released := released + [p];
          parsed := AllUpTo(packets, nextPacket);
          assert parsed == parsed0 == parsed0 + Unmarked(RequestsIn(data), p);
          continue;
        }
        RingMark(requests[..], parsed, nextRetire, RequestsIn(data), p);
        var last := (nextPrepare + RING - 1) % RING;
        ghost var ring := requests[..];
        requests[last] := requests[last].(lastInPacket := true);
        assert requests[..] == ring[last := ring[last].(lastInPacket := true)];
        parsed := AllUpTo(packets, nextPacket);
        return true;
      }
      return false;
    }

    /** Reads the requests of a packet into the ring. */
    method ParsePacket(p: nat, data: Batch.Bytes)
      requires IsBatch(data) && InRing(requests[..], parsed, nextRetire) && nextPrepare == |parsed|
      requires nextPrepare - nextRetire + |RequestsIn(data)| <= RING && nextPrepare + |RequestsIn(data)| < TWO_16
      modifies this`nextPrepare, requests
      ensures nextPrepare == old(nextPrepare) + |RequestsIn(data)|
      ensures InRing(requests[..], parsed + Unmarked(RequestsIn(data), p), nextRetire)
    {
      hide InRing, Unmarked, AllUpTo, IsBatch, Batch.HasRequest, Batch.NextOffset, Batch.RequestAt, Batch.IsValid,
        Batch.IsRequest, RequestsIn;
      ghost var rs: seq<Batch.Request> := [];
      UnmarkedNone(parsed, p);
      ParseStart(data);
      var reader := new Batch.Reader(data);
      var more := reader.FindNext();
      while more
        invariant reader.data == data && reader.started && fresh(reader)
        invariant more <==> Batch.HasRequest(data, reader.h)
        invariant rs + Batch.Parse(data, reader.h) == RequestsIn(data)
        invariant nextPrepare == old(nextPrepare) + |rs|
        invariant InRing(requests[..], parsed + Unmarked(rs, p), nextRetire)
        decreases |data| - reader.h
      {
        Batch.Progress(data, reader.h);
        var x := Parsed(Batch.RequestAt(data, reader.h), p, false);
        RingPush(requests[..], parsed + Unmarked(rs, p), nextRetire, x);
        ghost var ring := requests[..];
        requests[nextPrepare % RING] := x;
        assert requests[..] == ring[nextPrepare % RING := x];
        UnmarkedMore(parsed, rs, x.request, p);
        rs := rs + [x.request];
        nextPrepare := nextPrepare + 1;
        more := reader.FindNext();
      }
      assert Batch.Parse(data, reader.h) == [];
      assert rs == RequestsIn(data);
    }

    /** Lets go of the oldest request, and of its packet with the last one. */
    method Retire(index: nat)
      requires Valid() && index == nextRetire < nextPrepare
      modifies this`nextRetire, this`released
      ensures Valid() && nextRetire == old(nextRetire) + 1
    {
      hide ReleasedExactly, AllUpTo;
      AfterRetire(packets, parsed, nextPacket, nextRetire, released);
      if requests[index % RING].lastInPacket {
        released := released + [requests[index % RING].packet];
      }
      nextRetire := nextRetire + 1;
    }
  }

  // ---------- The processor ----------

  /** Operation codes, in the order of the source's enumeration. */
  const RESET: U8 := 0
  const NOOP_READ: U8 := 1
  const NOOP_WRITE: U8 := 2
  const ADD: U8 := 3
  const SET: U8 := 4
  const GET: U8 := 5
  const TEST: U8 := 6
  const DELETE: U8 := 7
  const INCREMENT: U8 := 8

  /** Who may touch a partition: its owner, and others where concurrent reads or writes are on.  Other cores may give
      partitions away meanwhile, so `owners` takes the index of the request that looks and the partition. */
  datatype Policy = Policy(lcore: nat, partitions: nat, owners: (nat, nat) -> nat, concurrentRead: bool,
                           concurrentWrite: bool)

  function PartitionOf(keyHash: U64, partitions: nat): (p: nat)
    requires 0 < partitions
    ensures p < partitions
  {
    keyHash / TWO_48 % partitions
  }

  predicate Accepts(policy: Policy, index: nat, operation: U8, partition: nat) {
    var mine := policy.owners(index, partition) == policy.lcore;
    if operation == NOOP_READ || operation == GET || operation == TEST then policy.concurrentRead || mine
    else if operation <= INCREMENT then policy.concurrentWrite || mine
    else true
  }

  /** What becomes of a request: it is executed on a partition, or rejected; either way it is retired. */
  datatype Step = Step(index: nat, request: Batch.Request, partition: nat, accepted: bool)

  ghost function StepFor(index: nat, request: Batch.Request, policy: Policy): Step
    requires 0 < policy.partitions
  {
    var partition := PartitionOf(request.keyHash, policy.partitions);
    Step(index, request, partition, Accepts(policy, index, request.operation, partition))
  }

  /** The plain loop: request after request, each with its own partition. */
  ghost function Sequential(all: seq<Parsed>, n: nat, policy: Policy): (log: seq<Step>)
    requires n <= |all| && 0 < policy.partitions
    ensures |log| == n
  {
    if n == 0 then [] else Sequential(all, n - 1, policy) + [StepFor(n - 1, all[n - 1].request, policy)]
  }

  /** What a log says of who executed what: each request has the partition of the high 16 bits of its hash; a write runs
      on a foreign partition only where concurrent writes are on, a read only where concurrent reads are, and nothing
      else is rejected. */
  lemma {:induction false} SequentialDecides(all: seq<Parsed>, n: nat, policy: Policy)
    requires n <= |all| && 0 < policy.partitions
    ensures var log := Sequential(all, n, policy);
            && (forall k | 0 <= k < n ::
                  && log[k].index == k && log[k].request == all[k].request
                  && log[k].partition == log[k].request.keyHash / TWO_48 % policy.partitions)
            && (forall k | 0 <= k < n && log[k].accepted && !policy.concurrentWrite
                  && log[k].request.operation in {RESET, NOOP_WRITE, ADD, SET, DELETE, INCREMENT} ::
                  policy.owners(k, log[k].partition) == policy.lcore)
            && (forall k | 0 <= k < n && log[k].accepted && !policy.concurrentRead
                  && log[k].request.operation in {NOOP_READ, GET, TEST} ::
                  policy.owners(k, log[k].partition) == policy.lcore)
            && (forall k | 0 <= k < n
                  && (policy.owners(k, log[k].partition) == policy.lcore || INCREMENT < log[k].request.operation
                      || (policy.concurrentRead && log[k].request.operation in {NOOP_READ, GET, TEST})
                      || (policy.concurrentWrite
                          && log[k].request.operation in {RESET, NOOP_WRITE, ADD, SET, DELETE, INCREMENT})) ::
                  log[k].accepted)
  {
    if 0 < n {
      SequentialDecides(all, n - 1, policy);
    }
  }

  /** Subtraction of 64-bit numbers. */
  function Sub64(a: U64, b: U64): U64 {
    (a - b) % TWO_64
  }

  /** Testing a wrapped index against the count tests for both ends at once. */
  lemma WrappedTest(i: nat, d: nat, count: nat)
    requires i < TWO_32 && d <= RING && count <= UNKNOWN
    ensures Sub64(i, d) < count <==> d <= i && i - d < count
    ensures d <= i ==> Sub64(i, d) == i - d
    ensures forall e: nat | e <= RING :: Sub64(Sub64(i, d), e) == Sub64(i, d + e)
  {
  }

  /** Partition numbers wait in a small ring between being looked up and being used. */
  ghost predicate Waiting(ids: seq<nat>, all: seq<Parsed>, from: nat, to: nat, partitions: nat) {
    && 0 < |ids| && 0 < partitions
    && forall k | from <= k < to && k < |all| :: ids[k % |ids|] == PartitionOf(all[k].request.keyHash, partitions)
  }

  lemma OneMoreWaiting(ids: seq<nat>, all: seq<Parsed>, from: nat, k: nat, partitions: nat)
    requires Waiting(ids, all, from, k, partitions) && k < |all| && from <= k < from + |ids|
    ensures Waiting(ids[k % |ids| := PartitionOf(all[k].request.keyHash, partitions)], all, from, k + 1, partitions)
  {
    forall j | from <= j < k
      ensures j % |ids| != k % |ids|
    {
      WindowInjective(j, k, |ids|);
    }
  }

  /** How far a stage is that runs d iterations behind, when there are n requests. */
  function Behind(i: nat, d: nat, n: nat): (b: nat)
    ensures b <= n
  {
    if i < d then 0 else if i - d < n then i - d else n
  }

  /** What the accessor holds is the beginning of all requests. */
  lemma KnownSoFar(ra: RequestAccessor, all: seq<Parsed>)
    requires ra.Valid() && all == AllUpTo(ra.packets, |ra.packets|)
    ensures |ra.parsed| <= |all| && ra.requests.Length == RING
    ensures ra.nextPacket == |ra.packets| ==> |ra.parsed| == |all|
    ensures forall k | 0 <= k < |ra.parsed| :: ra.parsed[k] == all[k] && (ra.nextRetire <= k ==> ra.Get(k) == all[k])
  {
    hide AllUpTo, ReleasedExactly;
    AllPrefix(ra.packets, ra.nextPacket, |ra.packets|);
  }

  /** What the tests of the second stage, at index i - gap, and of the last, at index i - 3 * gap, amount to.  The
      number of requests n is the count once that is known; before, request i is there. */
  lemma StageIndices(i: nat, gap: nat, count: nat, n: nat, size: nat)
    requires size == NextPowerOfTwo(3 * gap, 0) && 3 * gap <= RING && n < TWO_16 && i <= n + 3 * gap + 1
    requires if count == UNKNOWN then i < n else count == n
    ensures var k := Sub64(i, gap);
            if k < count then
              && Behind(i, gap, n) == k < n && Behind(i + 1, gap, n) == k + 1 && k <= i
              && Behind(i, 3 * gap, n) <= k < Behind(i, 3 * gap, n) + size
            else Behind(i + 1, gap, n) == Behind(i, gap, n)
    ensures var k := Sub64(Sub64(Sub64(i, gap), gap), gap);
            if k < count then
              Behind(i, 3 * gap, n) == k < n && Behind(i + 1, 3 * gap, n) == k + 1 && k <= i
                && k < Behind(i + 1, gap, n)
            else Behind(i + 1, 3 * gap, n) == Behind(i, 3 * gap, n)
  {
    hide Sub64, NextPowerOfTwo;
    WrappedTest(i, gap, count);
    WrappedTest(i, 2 * gap, count);
    WrappedTest(i, 3 * gap, count);
  }

  lemma StageEnds(i: nat, gap: nat, n: nat)
    ensures Behind(0, gap, n) == 0 && Behind(0, 3 * gap, n) == 0
    ensures Behind(i, 3 * gap, n) <= i && (i <= n ==> i <= Behind(i, 3 * gap, n) + 3 * gap)
    ensures n + 3 * gap <= i ==> Behind(i, 3 * gap, n) == n
  {
  }

  lemma AllFit(packets: seq<Batch.Bytes>, most: nat)
    requires Fitting(packets, most)
    ensures |AllUpTo(packets, |packets|)| < TWO_16
  {
  }

  /** Handles all requests of a burst of packets. */
  method Process(ra: RequestAccessor, gap: nat, ghost most: nat, policy: Policy) returns (log: seq<Step>)
    requires ra.Valid() && ra.nextPacket == ra.nextPrepare == ra.nextRetire == 0 && Fitting(ra.packets, most)
    requires 3 * gap + most <= RING && 0 < policy.partitions
    modifies ra, ra.requests
    ensures var all := AllUpTo(ra.packets, |ra.packets|);
            && log == Sequential(all, |all|, policy)
            && ra.Valid() && ra.nextPacket == |ra.packets| && ra.nextPrepare == ra.nextRetire == |all|
            && |log| == |all| && forall k | 0 <= k < |log| :: log[k].index == k && log[k].request == all[k].request
    ensures forall k | 0 <= k < |log| :: log[k].partition == log[k].request.keyHash / TWO_48 % policy.partitions
    ensures forall k | 0 <= k < |log| && log[k].accepted && !policy.concurrentWrite
              && log[k].request.operation in {RESET, NOOP_WRITE, ADD, SET, DELETE, INCREMENT} ::
              policy.owners(k, log[k].partition) == policy.lcore
    ensures forall k | 0 <= k < |log| && log[k].accepted && !policy.concurrentRead
              && log[k].request.operation in {NOOP_READ, GET, TEST} ::
              policy.owners(k, log[k].partition) == policy.lcore
    ensures forall k | 0 <= k < |log|
              && (policy.owners(k, log[k].partition) == policy.lcore || INCREMENT < log[k].request.operation
                  || (policy.concurrentRead && log[k].request.operation in {NOOP_READ, GET, TEST})
                  || (policy.concurrentWrite
                      && log[k].request.operation in {RESET, NOOP_WRITE, ADD, SET, DELETE, INCREMENT})) ::
              log[k].accepted
    ensures forall p: nat :: multiset(ra.released)[p] == if p < |ra.packets| && IsBatch(ra.packets[p]) then 1 else 0
  {
    hide AllUpTo, Fitting, Sequential, NextPowerOfTwo, InRing, ReleasedExactly, IsBatch, Waiting, PartitionOf, Sub64,
      StepFor,
         Accepts, Behind;
    ghost var all := AllUpTo(ra.packets, |ra.packets|);
    ghost var n := |all|;
    AllFit(ra.packets, most);
    StageEnds(0, gap, n);
    var partitionIds := new nat[NextPowerOfTwo(3 * gap, 0)](_ => 0);
    var count := UNKNOWN;
    var bound := count + 3 * gap;
    log := [];
    NothingDone(partitionIds[..], all, policy);
    var i := 0;
    while i < bound
      invariant ra.Valid() && fresh(partitionIds) && partitionIds.Length == NextPowerOfTwo(3 * gap, 0)
      invariant bound == count + 3 * gap && i <= n + 3 * gap + 1
      invariant if count == UNKNOWN then i <= ra.nextPrepare else ra.nextPacket == |ra.packets| && count == n
      invariant ra.nextRetire == Behind(i, 3 * gap, n) && log == Sequential(all, ra.nextRetire, policy)
      invariant Waiting(partitionIds[..], all, ra.nextRetire, Behind(i, gap, n), policy.partitions)
      decreases if count == UNKNOWN then 1 else 0, bound - i
    {
      KnownSoFar(ra, all);
      StageEnds(i, gap, n);
      if count == UNKNOWN {
        var ok := ra.Prepare(i, most);
        KnownSoFar(ra, all);
        if !ok {
          count := i;
          bound := count + 3 * gap;
        }
      }
      StageIndices(i, gap, count, n, partitionIds.Length);
      var index := Sub64(i, gap);
      if index < count {
        LookUp(ra, index, partitionIds, policy, all);
      }
      index := Sub64(index, gap); // the stage in between only prefetches
      index := Sub64(index, gap);
      if index < count {
        var step := LastStage(ra, index, partitionIds, policy, all, Behind(i + 1, gap, n));
        log := log + [step];
      }
      i := i + 1;
    }
    KnownSoFar(ra, all);
    StageEnds(i, gap, n);
    AllReleased(ra);
    SequentialDecides(all, n, policy);
  }

  /** The second stage: notes the partition of a request. */
  method LookUp(ra: RequestAccessor, index: nat, ids: array<nat>, policy: Policy, ghost all: seq<Parsed>)
    requires ra.Valid() && all == AllUpTo(ra.packets, |ra.packets|) && 0 < policy.partitions
    requires ra.nextRetire <= index < ra.nextPrepare && index < ra.nextRetire + ids.Length
    requires Waiting(ids[..], all, ra.nextRetire, index, policy.partitions)
    modifies ids
    ensures Waiting(ids[..], all, ra.nextRetire, index + 1, policy.partitions)
  {
    hide AllUpTo, InRing, ReleasedExactly, Waiting, PartitionOf;
    KnownSoFar(ra, all);
    OneMoreWaiting(ids[..], all, ra.nextRetire, index, policy.partitions);
    ghost var before := ids[..];
    ids[index % ids.Length] := PartitionOf(ra.Get(index).request.keyHash, policy.partitions);
    assert ids[..] == before[index % |before| := PartitionOf(all[index].request.keyHash, policy.partitions)];
  }

  /** The last stage: executes the oldest request on the partition noted for it. */
  method LastStage(ra: RequestAccessor, index: nat, ids: array<nat>, policy: Policy, ghost all: seq<Parsed>,
                   ghost to: nat)
    returns (step: Step)
    requires ra.Valid() && all == AllUpTo(ra.packets, |ra.packets|) && 0 < policy.partitions
    requires index == ra.nextRetire < ra.nextPrepare && index < |all| && index < to
    requires Waiting(ids[..], all, index, to, policy.partitions)
    modifies ra
    ensures ra.Valid() && ra.nextRetire == index + 1 && ra.nextPrepare == old(ra.nextPrepare)
    ensures ra.nextPacket == old(ra.nextPacket) && ra.parsed == old(ra.parsed)
    ensures Sequential(all, index + 1, policy) == Sequential(all, index, policy) + [step]
    ensures && step.index == index && step.request == all[index].request
            && step.partition == step.request.keyHash / TWO_48 % policy.partitions
            && (step.accepted <==>
                  || policy.owners(index, step.partition) == policy.lcore || INCREMENT < step.request.operation
                  || (policy.concurrentRead && step.request.operation in {NOOP_READ, GET, TEST})
                  || (policy.concurrentWrite
                      && step.request.operation in {RESET, NOOP_WRITE, ADD, SET, DELETE, INCREMENT}))
    ensures Waiting(ids[..], all, index + 1, to, policy.partitions)
  {
    hide AllUpTo, InRing, ReleasedExactly, Waiting, PartitionOf, StepFor, Sequential;
    KnownSoFar(ra, all);
    UseWaiting(ids[..], all, index, to, policy);
    step := Execute(ra, index, ids[index % ids.Length], policy);
    StepDecides(index, all[index].request, policy);
  }

  lemma StepDecides(index: nat, request: Batch.Request, policy: Policy)
    requires 0 < policy.partitions
    ensures var step := StepFor(index, request, policy);
            && step.index == index && step.request == request
            && step.partition == request.keyHash / TWO_48 % policy.partitions
            && (step.accepted <==>
                  || policy.owners(index, step.partition) == policy.lcore || INCREMENT < request.operation
                  || (policy.concurrentRead && request.operation in {NOOP_READ, GET, TEST})
                  || (policy.concurrentWrite
                      && request.operation in {RESET, NOOP_WRITE, ADD, SET, DELETE, INCREMENT}))
  {
  }

  lemma NothingDone(ids: seq<nat>, all: seq<Parsed>, policy: Policy)
    requires 0 < |ids| && 0 < policy.partitions
    ensures Waiting(ids, all, 0, 0, policy.partitions) && Sequential(all, 0, policy) == []
  {
  }

  /** The oldest waiting partition is that of the request to execute, and the log grows as in the plain loop. */
  lemma UseWaiting(ids: seq<nat>, all: seq<Parsed>, index: nat, to: nat, policy: Policy)
    requires 0 < policy.partitions && Waiting(ids, all, index, to, policy.partitions) && index < to && index < |all|
    ensures 0 < |ids| && ids[index % |ids|] == PartitionOf(all[index].request.keyHash, policy.partitions)
    ensures Sequential(all, index + 1, policy)
            == Sequential(all, index, policy) + [StepFor(index, all[index].request, policy)]
    ensures Waiting(ids, all, index + 1, to, policy.partitions)
  {
  }

  /** When every request is retired, every batch has been given back once. */
  lemma AllReleased(ra: RequestAccessor)
    requires ra.Valid() && ra.nextPacket == |ra.packets| && ra.nextRetire == |ra.parsed|
    ensures forall p: nat :: multiset(ra.released)[p] == if p < |ra.packets| && IsBatch(ra.packets[p]) then 1 else 0
  {
    hide IsBatch, AllUpTo, InRing;
  }

  /** Decides whether the request may run here, and retires it. */
  method Execute(ra: RequestAccessor, index: nat, partition: nat, policy: Policy) returns (step: Step)
    requires ra.Valid() && index == ra.nextRetire < ra.nextPrepare && 0 < policy.partitions
    requires partition == PartitionOf(ra.Get(index).request.keyHash, policy.partitions)
    modifies ra
    ensures ra.Valid() && ra.nextRetire == index + 1 && ra.nextPrepare == old(ra.nextPrepare)
    ensures ra.nextPacket == old(ra.nextPacket) && ra.parsed == old(ra.parsed)
    ensures step == StepFor(index, ra.parsed[index].request, policy)
  {
    var request := ra.Get(index).request;
    step := Step(index, request, partition, Accepts(policy, index, request.operation, partition));
    ra.Retire(index);
  }
}
