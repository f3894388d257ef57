/**
 The version lock of a hash-table bucket with concurrent writers and optimistic readers, as interleaved steps: the
 32-bit version is odd while a writer is inside, readers fetch whatever they like and keep what they saw only if the
 version is the same before and after.
 */
module Seqlock {
  import opened Words
  import opened TableItems

  /** The shared words: slots and the link of a bucket or extra bucket, and the words of an item. */
  datatype Loc = Slot(row: nat, at: nat) | Link(row: nat) | Word(offset: nat, j: nat)

  /** What a reader does next after the words it has seen: fetch another word, or stop. */
  datatype Move = Fetch(loc: Loc) | Finish

  type Reader = seq<U64> -> Move

  /** Shared words, who owns them, and how many writers of a bucket have come and gone. */
  datatype Snapshot = Snapshot(mem: map<Loc, U64>, owner: map<Loc, nat>, sections: nat)

  datatype Thread =
    | Idle
    | Wanting(b: nat)
    | Sampled(b: nat, v: U32)
    | Writing(b: nat)
    | Unlocking(b: nat, v: U32)
    | Spinning(b: nat, reader: Reader)
    | Reading(b: nat, reader: Reader, begin: U32, seen: seq<U64>, snap: Snapshot)
    | Returned(b: nat, reader: Reader, seen: seq<U64>, snap: Snapshot, ended: nat)

  datatype Holder = Nobody | Held(inside: nat)

  /** `sections` and `holders` only record history: no step asks for them. */
  datatype State = State(versions: seq<U32>, mem: map<Loc, U64>, owner: map<Loc, nat>, threads: seq<Thread>,
                         sections: seq<nat>, holders: seq<Holder>)

  datatype Event =
    | Want(t: nat, b: nat)
    | Sample(t: nat)              // v = version & ~1
    | CompareAndSwap(t: nat)      // version: v -> v | 1
    | Claim(t: nat, loc: Loc)     // a word nobody owns becomes part of the bucket
    | Drop(t: nat, loc: Loc)
    | Write(t: nat, loc: Loc, x: U64)
    | Scribble(loc: Loc, x: U64)  // anyone may write a word nobody owns
    | LoadVersion(t: nat)         // the two halves of version++
    | StoreVersion(t: nat)
    | Call(t: nat, b: nat, reader: Reader)
    | BeginRead(t: nat)
    | FetchWord(t: nat)
    | EndRead(t: nat)
    | Leave(t: nat)

  function At(mem: map<Loc, U64>, l: Loc): U64 {
    if l in mem then mem[l] else 0
  }

  ghost predicate Owns(owner: map<Loc, nat>, l: Loc, b: nat) {
    l in owner && owner[l] == b
  }

  ghost predicate InSection(th: Thread, b: nat) {
    (th.Writing? || th.Unlocking?) && th.b == b
  }

  // ---------- Steps ----------

  ghost predicate Enabled(s: State, e: Event) {
    if e.Scribble? then e.loc !in s.owner else
      && e.t < |s.threads|
      && var th := s.threads[e.t];
         match e
         case Want(_, b) => th.Idle? && b < |s.versions|
         case Sample(_) => th.Wanting? && th.b < |s.versions|
         case CompareAndSwap(_) => th.Sampled? && th.b < |s.versions| == |s.holders|
         case Claim(_, l) => th.Writing? && l !in s.owner
         case Drop(_, l) => th.Writing? && Owns(s.owner, l, th.b)
         case Write(_, l, _) => th.Writing? && Owns(s.owner, l, th.b)
         case LoadVersion(_) => th.Writing? && th.b < |s.versions|
         case StoreVersion(_) => th.Unlocking? && th.b < |s.versions| == |s.holders| == |s.sections|
         case Call(_, b, _) => th.Idle? && b < |s.versions|
         case BeginRead(_) => th.Spinning? && th.b < |s.versions| == |s.sections|
         case FetchWord(_) => th.Reading? && th.reader(th.seen).Fetch?
         case EndRead(_) => th.Reading? && th.reader(th.seen).Finish? && th.b < |s.versions| == |s.sections|
         case Leave(_) => th.Returned?
  }

  ghost function With(s: State, t: nat, th: Thread): State
    requires t < |s.threads|
  {
    s.(threads := s.threads[t := th])
  }

  ghost function SnapOf(s: State, b: nat): Snapshot
    requires b < |s.sections|
  {
    Snapshot(s.mem, s.owner, s.sections[b])
  }

  ghost function After(s: State, e: Event): State
    requires Enabled(s, e)
  {
    match e
    case Want(t, b) => With(s, t, Wanting(b))
    case Sample(t) =>
      var v := s.versions[s.threads[t].b];
      With(s, t, Sampled(s.threads[t].b, v - v % 2))
    case CompareAndSwap(t) =>
      var b, v := s.threads[t].b, s.threads[t].v;
      if s.versions[b] == v then
        With(s, t, Writing(b)).(versions := s.versions[b := v - v % 2 + 1], holders := s.holders[b := Held(t)])
      else With(s, t, Wanting(b))
    case Claim(t, l) => s.(owner := s.owner[l := s.threads[t].b])
    case Drop(t, l) => s.(owner := s.owner - {l})
    case Write(t, l, x) => s.(mem := s.mem[l := x])
    case Scribble(l, x) => s.(mem := s.mem[l := x])
    case LoadVersion(t) => With(s, t, Unlocking(s.threads[t].b, s.versions[s.threads[t].b]))
    case StoreVersion(t) =>
      var b := s.threads[t].b;
      With(s, t, Idle).(versions := s.versions[b := (s.threads[t].v + 1) % TWO_32], holders := s.holders[b := Nobody],
                        sections := s.sections[b := s.sections[b] + 1])
    case Call(t, b, reader) => With(s, t, Spinning(b, reader))
    case BeginRead(t) =>
      var th := s.threads[t];
      if s.versions[th.b] % 2 != 0 then s
      else With(s, t, Reading(th.b, th.reader, s.versions[th.b], [], SnapOf(s, th.b)))
    case FetchWord(t) =>
      var th := s.threads[t];
      With(s, t, Reading(th.b, th.reader, th.begin, th.seen + [At(s.mem, th.reader(th.seen).loc)], th.snap))
    case EndRead(t) =>
      var th := s.threads[t];
      if s.versions[th.b] == th.begin then With(s, t, Returned(th.b, th.reader, th.seen, th.snap, s.sections[th.b]))
      else With(s, t, Spinning(th.b, th.reader))
    case Leave(t) => With(s, t, Idle)
  }

  ghost predicate Init(s: State) {
    && |s.versions| == |s.sections| == |s.holders|
    && (forall b | 0 <= b < |s.versions| :: s.versions[b] == 0 && s.sections[b] == 0 && s.holders[b] == Nobody)
    && (forall t | 0 <= t < |s.threads| :: s.threads[t] == Idle)
  }

  ghost predicate Next(s: State, s': State) {
    exists e :: Enabled(s, e) && s' == After(s, e)
  }

  ghost predicate Run(states: seq<State>) {
    && 0 < |states| && Init(states[0])
    && forall i {:trigger Next(states[i - 1], states[i])} | 0 < i < |states| :: Next(states[i - 1], states[i])
  }

  // ---------- What readers see ----------

  /** The words seen are those that the reader fetches when it runs alone on the snapshot. */
  ghost predicate Follows(reader: Reader, mem: map<Loc, U64>, seen: seq<U64>) {
    forall i | 0 <= i < |seen| :: reader(seen[..i]).Fetch? && seen[i] == At(mem, reader(seen[..i]).loc)
  }

  /** Run alone on the snapshot, the reader stays within the words of its bucket. */
  ghost predicate Closed(reader: Reader, b: nat, mem: map<Loc, U64>, owner: map<Loc, nat>) {
    forall seen | Follows(reader, mem, seen) && reader(seen).Fetch? :: Owns(owner, reader(seen).loc, b)
  }

  /** The bucket's words are as they were. */
  ghost predicate Same(mem: map<Loc, U64>, owner: map<Loc, nat>, b: nat, snap: Snapshot) {
    && (forall l :: Owns(owner, l, b) <==> Owns(snap.owner, l, b))
    && (forall l | Owns(snap.owner, l, b) :: At(mem, l) == At(snap.mem, l))
  }

  /** A reader that runs alone has only one way to go. */
  lemma {:induction false} OneWay(reader: Reader, mem: map<Loc, U64>, seen: seq<U64>, other: seq<U64>)
    requires Follows(reader, mem, seen) && Follows(reader, mem, other) && |seen| <= |other|
    ensures other[..|seen|] == seen
    ensures reader(seen) == Finish ==> seen == other
  {
    if 0 < |seen| {
      var n := |seen| - 1;
      forall i | 0 <= i < n
        ensures seen[..n][..i] == seen[..i]
      {
      }
      OneWay(reader, mem, seen[..n], other);
      assert other[..n] == seen[..n];
    }
    if |seen| < |other| {
      assert reader(other[..|seen|]).Fetch?;
    }
  }

  // ---------- The invariant ----------

  ghost function VersionOf(sections: nat, holder: Holder): U32 {
    (2 * sections + if holder.Held? then 1 else 0) % TWO_32
  }

  ghost predicate ThreadOk(s: State, t: nat)
    requires t < |s.threads| && |s.versions| == |s.sections| == |s.holders|
  {
    var th := s.threads[t];
    match th
    case Idle => true
    case Wanting(b) => b < |s.versions|
    case Sampled(b, v) => b < |s.versions| && v % 2 == 0
    case Writing(b) => b < |s.versions| && s.holders[b] == Held(t)
    case Unlocking(b, v) => b < |s.versions| && s.holders[b] == Held(t) && v == s.versions[b]
    case Spinning(b, _) => b < |s.versions|
    case Reading(b, reader, begin, seen, snap) =>
      && b < |s.versions| && snap.sections <= s.sections[b] && begin == VersionOf(snap.sections, Nobody)
      && (s.sections[b] == snap.sections && s.holders[b] == Nobody ==>
            Same(s.mem, s.owner, b, snap)
              && (Closed(reader, b, snap.mem, snap.owner) ==> Follows(reader, snap.mem, seen)))
    case Returned(b, reader, seen, snap, ended) =>
      && b < |s.versions| && snap.sections <= ended && (ended - snap.sections) % TWO_31 == 0 && reader(seen) == Finish
      && (ended == snap.sections && Closed(reader, b, snap.mem, snap.owner) ==> Follows(reader, snap.mem, seen))
  }

  ghost predicate BucketOk(s: State, b: nat)
    requires b < |s.versions| == |s.sections| == |s.holders|
  {
    && s.versions[b] == VersionOf(s.sections[b], s.holders[b])
    && (s.holders[b].Held? ==> s.holders[b].inside < |s.threads| && InSection(s.threads[s.holders[b].inside], b))
  }

  ghost predicate Inv(s: State) {
    && |s.versions| == |s.sections| == |s.holders|
    && (forall b | 0 <= b < |s.versions| :: BucketOk(s, b))
    && (forall t | 0 <= t < |s.threads| :: ThreadOk(s, t))
  }

  /** When begin and end versions agree: nobody is inside and the writers that came and went in between are a
      multiple of 2^31. */
  lemma VersionsMeet(before: nat, now: nat, holder: Holder)
    requires before <= now
    ensures VersionOf(before, Nobody) == VersionOf(now, holder) <==> holder == Nobody && (now - before) % TWO_31 == 0
  {
    DoubledRests(before, now, if holder.Held? then 1 else 0);
  }

  lemma DoubledRests(m: nat, n: nat, h: nat)
    requires h <= 1 && m <= n
    ensures 2 * m % 0x1_0000_0000 == (2 * n + h) % 0x1_0000_0000 <==> h == 0 && (n - m) % 0x8000_0000 == 0
  {
    var k := (2 * n + h) / 0x1_0000_0000 - 2 * m / 0x1_0000_0000;
    assert (2 * n + h) % 0x1_0000_0000 - 2 * m % 0x1_0000_0000 == 2 * n + h - 2 * m - 0x1_0000_0000 * k;
  }

  // ---------- Every step keeps it ----------

  lemma InitOk(s: State)
    requires Init(s)
    ensures Inv(s)
  {
  }

  lemma BucketsStayOk(s: State, e: Event, b: nat)
    requires Inv(s) && Enabled(s, e) && b < |s.versions|
    ensures var s' := After(s, e); |s'.versions| == |s'.sections| == |s'.holders| == |s.versions| && BucketOk(s', b)
  {
    hide Same, Closed, Follows;
    assert BucketOk(s, b);
    if !e.Scribble? {
      assert ThreadOk(s, e.t);
    }
    if e.CompareAndSwap? {
      Unlocked(s.sections[b], s.holders[b]);
    } else if e.StoreVersion? {
      Incremented(s.sections[b]);
    }
  }

  /** An even version means that nobody is inside, and entering makes it odd. */
  lemma Unlocked(sections: nat, holder: Holder)
    ensures VersionOf(sections, holder) % 2 == 0 <==> holder == Nobody
    ensures forall t :: VersionOf(sections, Held(t)) == VersionOf(sections, Nobody) + 1
  {
    assert 2 * sections == 2 * sections / TWO_32 * TWO_32 + 2 * sections % TWO_32;
    assert 2 * sections % TWO_32 % 2 == 0;
  }

  lemma Incremented(sections: nat)
    ensures forall t :: (VersionOf(sections, Held(t)) + 1) % TWO_32 == VersionOf(sections + 1, Nobody)
  {
  }

  /** Memory steps leave the words of other buckets alone. */
  lemma OtherBucketsSame(s: State, e: Event, b: nat, snap: Snapshot)
    requires Enabled(s, e) && (e.Claim? || e.Drop? || e.Write? || e.Scribble?) && Same(s.mem, s.owner, b, snap)
    requires !e.Scribble? ==> s.threads[e.t].b != b
    ensures Same(After(s, e).mem, After(s, e).owner, b, snap)
  {
  }

  lemma OtherThreadsStayOk(s: State, e: Event, u: nat)
    requires Inv(s) && Enabled(s, e) && u < |s.threads| && (e.Scribble? || u != e.t)
    requires var s' := After(s, e); |s'.versions| == |s'.sections| == |s'.holders| == |s.versions|
    ensures ThreadOk(After(s, e), u)
  {
    hide Same, Closed, Follows;
    assert ThreadOk(s, u);
    var th := s.threads[u];
    if !e.Scribble? {
      assert ThreadOk(s, e.t);
      if e.CompareAndSwap? || e.StoreVersion? {
        assert BucketOk(s, s.threads[e.t].b);
        Unlocked(s.sections[s.threads[e.t].b], s.holders[s.threads[e.t].b]);
      }
    }
    if th.Reading? && (e.Claim? || e.Drop? || e.Write? || e.Scribble?) {
      if s.sections[th.b] == th.snap.sections && s.holders[th.b] == Nobody {
        OtherBucketsSame(s, e, th.b, th.snap);
      }
    }
  }

  /** A word fetched while the bucket is as it was is the snapshot's. */
  lemma FetchFollows(s: State, b: nat, reader: Reader, seen: seq<U64>, snap: Snapshot)
    requires Same(s.mem, s.owner, b, snap) && Follows(reader, snap.mem, seen) && Closed(reader, b, snap.mem, snap.owner)
    requires reader(seen).Fetch?
    ensures Follows(reader, snap.mem, seen + [At(s.mem, reader(seen).loc)])
  {
    var seen' := seen + [At(s.mem, reader(seen).loc)];
    assert Owns(snap.owner, reader(seen).loc, b);
    forall i | 0 <= i < |seen'|
      ensures reader(seen'[..i]).Fetch? && seen'[i] == At(snap.mem, reader(seen'[..i]).loc)
    {
      assert seen'[..i] == seen[..i];
      assert seen[..|seen|] == seen;
    }
  }

  lemma OwnThreadStaysOk(s: State, e: Event)
    requires Inv(s) && Enabled(s, e) && !e.Scribble?
    requires var s' := After(s, e); |s'.versions| == |s'.sections| == |s'.holders| == |s.versions|
    ensures ThreadOk(After(s, e), e.t)
  {
    hide Closed, Follows, Same, VersionOf;
    assert ThreadOk(s, e.t);
    var th := s.threads[e.t];
    if e.BeginRead? {
      assert BucketOk(s, th.b);
      Unlocked(s.sections[th.b], s.holders[th.b]);
      FreshRead(s, th.b, th.reader);
    } else if e.FetchWord? {
      if s.sections[th.b] == th.snap.sections && s.holders[th.b] == Nobody
         && Closed(th.reader, th.b, th.snap.mem, th.snap.owner) {
        FetchFollows(s, th.b, th.reader, th.seen, th.snap);
      }
    } else if e.EndRead? {
      assert BucketOk(s, th.b);
      VersionsMeet(th.snap.sections, s.sections[th.b], s.holders[th.b]);
    }
  }

  lemma FreshRead(s: State, b: nat, reader: Reader)
    requires b < |s.sections|
    ensures Same(s.mem, s.owner, b, SnapOf(s, b)) && Follows(reader, s.mem, [])
  {
  }

  lemma StepKeepsInv(s: State, e: Event)
    requires Inv(s) && Enabled(s, e)
    ensures Inv(After(s, e))
  {
    hide ThreadOk, BucketOk;
    var s' := After(s, e);
    forall b | 0 <= b < |s.versions|
      ensures BucketOk(s', b)
    {
      BucketsStayOk(s, e, b);
    }
    Lengths(s, e);
    forall t | 0 <= t < |s.threads|
      ensures ThreadOk(s', t)
    {
      if e.Scribble? || t != e.t {
        OtherThreadsStayOk(s, e, t);
      } else {
        OwnThreadStaysOk(s, e);
      }
    }
  }

  lemma Lengths(s: State, e: Event)
    requires Inv(s) && Enabled(s, e)
    ensures var s' := After(s, e);
            |s'.versions| == |s'.sections| == |s'.holders| == |s.versions| && |s'.threads| == |s.threads|
  {
  }

  lemma {:induction false} RunKeepsInv(states: seq<State>, i: nat)
    requires Run(states) && i < |states|
    ensures Inv(states[i])
  {
    if i == 0 {
      InitOk(states[0]);
    } else {
      RunKeepsInv(states, i - 1);
      assert Next(states[i - 1], states[i]);
      var e :| Enabled(states[i - 1], e) && states[i] == After(states[i - 1], e);
      StepKeepsInv(states[i - 1], e);
    }
  }

  /** Writers have come and gone a positive multiple of 2^31 times, so that the version has come round. */
  predicate Overtaken(before: nat, now: nat) {
    before < now && (now - before) % TWO_31 == 0
  }

  // ---------- The guarantees ----------

  /** In every reachable state at most one thread is inside a bucket. */
  lemma WritersExclude(states: seq<State>, i: nat, t: nat, u: nat, b: nat)
    requires Run(states) && i < |states| && t < |states[i].threads| && u < |states[i].threads|
    requires InSection(states[i].threads[t], b) && InSection(states[i].threads[u], b)
    ensures t == u
  {
    hide Run;
    RunKeepsInv(states, i);
    assert ThreadOk(states[i], t) && ThreadOk(states[i], u);
  }

  /** A thread that leaves a bucket finds the version odd, and nobody has moved it since it was loaded. */
  lemma UnlockFindsOdd(states: seq<State>, i: nat, t: nat, b: nat)
    requires Run(states) && i < |states| && t < |states[i].threads| && InSection(states[i].threads[t], b)
    ensures var th := states[i].threads[t];
            && b < |states[i].versions| && states[i].versions[b] % 2 == 1
            && (th.Unlocking? ==> th.v == states[i].versions[b])
  {
    hide Run;
    RunKeepsInv(states, i);
    var s, th := states[i], states[i].threads[t];
    assert ThreadOk(s, t) && BucketOk(s, b);
    Unlocked(s.sections[b], s.holders[b]);
  }

  /** The end of a read keeps what it saw exactly when nobody is inside and the writers that came and went since its
      begin are a multiple of 2^31: after 2^31 of them the versions agree again whatever they wrote. */
  lemma KeptExactly(states: seq<State>, i: nat, t: nat)
    requires Run(states) && i < |states| && Enabled(states[i], EndRead(t))
    ensures var s, th := states[i], states[i].threads[t];
            && th.b < |s.holders| && th.snap.sections <= s.sections[th.b]
            && (After(s, EndRead(t)).threads[t].Returned? <==>
                  s.holders[th.b] == Nobody && (s.sections[th.b] - th.snap.sections) % TWO_31 == 0)
  {
    hide Run, Same, Closed, Follows, VersionOf;
    RunKeepsInv(states, i);
    var s, th := states[i], states[i].threads[t];
    assert ThreadOk(s, t) && BucketOk(s, th.b);
    VersionsMeet(th.snap.sections, s.sections[th.b], s.holders[th.b]);
  }

  /** At step j, within the call, nobody was inside the bucket and the shared words were the snapshot; the read that
      thread t is in at step i began there. */
  ghost predicate Instant(states: seq<State>, i: nat, t: nat, b: nat, snap: Snapshot, j: nat) {
    && j < i < |states| && b < |states[j].sections| == |states[j].holders|
    && states[j].holders[b] == Nobody && snap == SnapOf(states[j], b)
    && t < |states[j].threads| && states[j].threads[t].Spinning?
    && forall k | j < k <= i :: InRead(states[k], t, b, snap)
  }

  ghost predicate InRead(s: State, t: nat, b: nat, snap: Snapshot) {
    && t < |s.threads| && (s.threads[t].Reading? || s.threads[t].Returned?)
    && s.threads[t].b == b && s.threads[t].snap == snap
  }

  /** Every read has begun at some instant. */
  lemma {:induction false} ReadHasInstant(states: seq<State>, i: nat, t: nat, b: nat, snap: Snapshot) returns (j: nat)
    requires Run(states) && i < |states| && InRead(states[i], t, b, snap)
    ensures Instant(states, i, t, b, snap, j)
  {
    hide Run, Inv, Same, Closed, Follows, VersionOf;
    if i == 0 {
      FirstState(states);
    } else {
      var e := StepTo(states, i);
      RunKeepsInv(states, i - 1);
      Lengths(states[i - 1], e);
      if InRead(states[i - 1], t, b, snap) {
        j := ReadHasInstant(states, i - 1, t, b, snap);
      } else {
        j := i - 1;
        ReadBegins(states[i - 1], e, t, b, snap);
      }
    }
  }

  lemma FirstState(states: seq<State>)
    requires Run(states)
    ensures forall t | 0 <= t < |states[0].threads| :: states[0].threads[t] == Idle
  {
  }

  lemma StepTo(states: seq<State>, i: nat) returns (e: Event)
    requires Run(states) && 0 < i < |states|
    ensures Enabled(states[i - 1], e) && states[i] == After(states[i - 1], e)
  {
    assert Next(states[i - 1], states[i]);
    e :| Enabled(states[i - 1], e) && states[i] == After(states[i - 1], e);
  }

  lemma ReadBegins(s: State, e: Event, t: nat, b: nat, snap: Snapshot)
    requires Inv(s) && Enabled(s, e) && InRead(After(s, e), t, b, snap) && !InRead(s, t, b, snap)
    ensures e == BeginRead(t) && b < |s.sections| == |s.holders| && s.holders[b] == Nobody && snap == SnapOf(s, b)
    ensures t < |s.threads| && s.threads[t].Spinning?
  {
    hide Same, Closed, Follows, VersionOf, ThreadOk;
    if e.BeginRead? {
      var b := s.threads[e.t].b;
      assert BucketOk(s, b);
      Unlocked(s.sections[b], s.holders[b]);
    }
  }

  /** What a reader returns is what it would have seen running alone at one instant of its call, at which no writer was
      inside the bucket, unless a positive multiple of 2^31 writers came and went during the read.  Writers must leave
      each bucket so that a reader of it stays within its words. */
  lemma ReadsMatchOneInstant(states: seq<State>, i: nat, t: nat) returns (j: nat)
    requires Run(states) && i < |states| && t < |states[i].threads| && states[i].threads[t].Returned?
    requires var th := states[i].threads[t];
             && !Overtaken(th.snap.sections, th.ended)
             && forall k | 0 <= k <= i && th.b < |states[k].holders| && states[k].holders[th.b] == Nobody ::
                  Closed(th.reader, th.b, states[k].mem, states[k].owner)
    ensures var th := states[i].threads[t];
            && Instant(states, i, t, th.b, th.snap, j)
            && Follows(th.reader, states[j].mem, th.seen) && th.reader(th.seen) == Finish
  {
    hide Run, Closed, Follows, VersionOf, Same;
    var th := states[i].threads[t];
    j := ReadHasInstant(states, i, t, th.b, th.snap);
    RunKeepsInv(states, i);
    assert ThreadOk(states[i], t);
  }

  // ---------- The reader of get ----------

  /** Where `get` stands between two fetches: it looks for the item along the chain of its bucket, then reads the slot
      and the lengths again, and copies the value. */
  datatype Pc =
    | AtSlot(row: nat, i: nat)
    | AtHash(row: nat, i: nat, off: nat)
    | AtLengths(row: nat, i: nat, off: nat)
    | AtKey(row: nat, i: nat, off: nat, k: nat)
    | AtLink(row: nat)
    | AtItem(row: nat, i: nat)
    | AtItemLengths(off: nat)
    | AtValue(off: nat, words: seq<U64>, n: nat, outcome: Result)
    | Answer(result: Result, value: seq<U64>)

  /** What is asked for: a key, up to a length, in a table of buckets of a size, whose extra buckets follow `rows` main
      ones. */
  datatype Query = Query(key: Key, inLength: nat, rows: nat, bucketSize: nat)

  function FetchOf(q: Query, pc: Pc): Move {
    match pc
    case AtSlot(row, i) => Fetch(Slot(row, i))
    case AtHash(_, _, off) => Fetch(Word(off, 1))
    case AtLengths(_, _, off) => Fetch(Word(off, 0))
    case AtKey(_, _, off, k) => Fetch(Word(off, 2 + k))
    case AtLink(row) => Fetch(Link(row))
    case AtItem(row, i) => Fetch(Slot(row, i))
    case AtItemLengths(off) => Fetch(Word(off, 0))
    case AtValue(off, words, _, _) => Fetch(Word(off, 2 + |q.key.words| + |words|))
    case Answer(_, _) => Finish
  }

  function NextSlot(q: Query, row: nat, i: nat): Pc {
    if i + 1 < q.bucketSize then AtSlot(row, i + 1) else AtLink(row)
  }

  function KeyBytes(w: U64): nat {
    w % TWO_32 / TWO_24
  }

  function ValueBytes(w: U64): nat {
    w % TWO_24
  }

  /** Extra buckets are numbered from one. */
  function RowOf(q: Query, w: U64): nat {
    if q.rows + w % TWO_32 >= 1 then q.rows + w % TWO_32 - 1 else 0
  }

  function Copying(q: Query, off: nat, w: U64): Pc {
    if ValueBytes(w) > 8 * MAX_VALUE_WORDS + 7 then Answer(NotFound, []) else
      var length := Min(ValueBytes(w), q.inLength);
      var outcome := if length == ValueBytes(w) then Success else PartialValue;
      if length / 8 == 0 then Answer(outcome, []) else AtValue(off, [], length / 8, outcome)
  }

  /** One step with the word fetched. */
  function Step(q: Query, pc: Pc, w: U64): Pc {
    match pc
    case AtSlot(row, i) =>
      if GetTag(w) == CalcTag(q.key.hash) then AtHash(row, i, GetOffset(w)) else NextSlot(q, row, i)
    case AtHash(row, i, off) => if w == q.key.hash then AtLengths(row, i, off) else NextSlot(q, row, i)
    case AtLengths(row, i, off) =>
      if KeyBytes(w) != 8 * |q.key.words| then NextSlot(q, row, i)
      else if q.key.words == [] then AtItem(row, i) else AtKey(row, i, off, 0)
    case AtKey(row, i, off, k) =>
      if k >= |q.key.words| || w != q.key.words[k] then NextSlot(q, row, i)
      else if k + 1 == |q.key.words| then AtItem(row, i) else AtKey(row, i, off, k + 1)
    case AtLink(row) => if w % TWO_32 == 0 then Answer(NotFound, []) else AtSlot(RowOf(q, w), 0)
    case AtItem(row, i) => AtItemLengths(GetOffset(w))
    case AtItemLengths(off) => Copying(q, off, w)
    case AtValue(off, words, n, outcome) =>
      if |words| + 1 == n then Answer(outcome, words + [w]) else AtValue(off, words + [w], n, outcome)
    case Answer(_, _) => pc
  }

  ghost function Drive(q: Query, pc: Pc, seen: seq<U64>): Pc {
    if seen == [] then pc else Step(q, Drive(q, pc, seen[..|seen| - 1]), seen[|seen| - 1])
  }

  ghost function GetReader(q: Query, row: nat): Reader {
    seen => FetchOf(q, Drive(q, AtSlot(row, 0), seen))
  }

  /** A bucket as writers leave it: the words of its chain are its own, and so are those of the items its slots point
      to, a key and a value long. */
  ghost predicate WellKept(mem: map<Loc, U64>, owner: map<Loc, nat>, q: Query, b: nat, chain: set<nat>) {
    && b in chain && 0 < q.bucketSize
    && (forall row | row in chain :: Owns(owner, Link(row), b)
          && (At(mem, Link(row)) % TWO_32 != 0 ==> RowOf(q, At(mem, Link(row))) in chain))
    && (forall row, i | row in chain && 0 <= i < q.bucketSize :: SlotKept(mem, owner, b, At(mem, Slot(row, i)), row, i))
  }

  ghost predicate SlotKept(mem: map<Loc, U64>, owner: map<Loc, nat>, b: nat, vec: U64, row: nat, i: nat) {
    && Owns(owner, Slot(row, i), b)
    && (vec != 0 ==> ItemKept(mem, owner, b, GetOffset(vec)))
  }

  ghost predicate ItemKept(mem: map<Loc, U64>, owner: map<Loc, nat>, b: nat, off: nat) {
    var lengths := At(mem, Word(off, 0));
    forall j: nat | j < 2 || 8 * j < 16 + KeyBytes(lengths) + ValueBytes(lengths) :: Owns(owner, Word(off, j), b)
  }

  /** Run alone on a well-kept bucket, `get` stays in its chain and within the items it has found there. */
  ghost predicate InBounds(mem: map<Loc, U64>, owner: map<Loc, nat>, q: Query, b: nat, chain: set<nat>, pc: Pc) {
    match pc
    case AtSlot(row, i) => row in chain && i < q.bucketSize
    case AtHash(row, i, off) => row in chain && i < q.bucketSize && Points(mem, row, i, off)
    case AtLengths(row, i, off) => row in chain && i < q.bucketSize && Points(mem, row, i, off)
    case AtKey(row, i, off, k) => row in chain && i < q.bucketSize && Points(mem, row, i, off) && k < |q.key.words|
                                  && KeyBytes(At(mem, Word(off, 0))) == 8 * |q.key.words|
    case AtLink(row) => row in chain
    case AtItem(row, i) => row in chain && i < q.bucketSize && At(mem, Slot(row, i)) != 0
                           && KeyBytes(At(mem, Word(GetOffset(At(mem, Slot(row, i))), 0))) == 8 * |q.key.words|
    case AtItemLengths(off) => ItemKept(mem, owner, b, off) && KeyBytes(At(mem, Word(off, 0))) == 8 * |q.key.words|
    case AtValue(off, words, n, _) =>
      && ItemKept(mem, owner, b, off) && KeyBytes(At(mem, Word(off, 0))) == 8 * |q.key.words|
      && |words| < n && 8 * n <= ValueBytes(At(mem, Word(off, 0)))
    case Answer(_, _) => true
  }

  ghost predicate Points(mem: map<Loc, U64>, row: nat, i: nat, off: nat) {
    At(mem, Slot(row, i)) != 0 && GetOffset(At(mem, Slot(row, i))) == off
  }

  lemma FetchInBounds(mem: map<Loc, U64>, owner: map<Loc, nat>, q: Query, b: nat, chain: set<nat>, pc: Pc)
    requires WellKept(mem, owner, q, b, chain) && InBounds(mem, owner, q, b, chain, pc) && FetchOf(q, pc).Fetch?
    ensures Owns(owner, FetchOf(q, pc).loc, b)
  {
    hide CalcTag, GetTag, KeyBytes, ValueBytes, RowOf;
    if !pc.AtLink? && !pc.AtItemLengths? && !pc.AtValue? {
      assert SlotKept(mem, owner, b, At(mem, Slot(pc.row, pc.i)), pc.row, pc.i);
    }
  }

  lemma StepInBounds(mem: map<Loc, U64>, owner: map<Loc, nat>, q: Query, b: nat, chain: set<nat>, pc: Pc)
    requires WellKept(mem, owner, q, b, chain) && InBounds(mem, owner, q, b, chain, pc) && FetchOf(q, pc).Fetch?
    ensures InBounds(mem, owner, q, b, chain, Step(q, pc, At(mem, FetchOf(q, pc).loc)))
  {
    hide KeyBytes, ValueBytes, RowOf;
    if pc.AtSlot? || pc.AtItem? {
      assert SlotKept(mem, owner, b, At(mem, Slot(pc.row, pc.i)), pc.row, pc.i);
    }
  }

  lemma {:induction false} DrivenInBounds(mem: map<Loc, U64>, owner: map<Loc, nat>, q: Query, b: nat, chain: set<nat>,
                                          seen: seq<U64>)
    requires WellKept(mem, owner, q, b, chain) && Follows(GetReader(q, b), mem, seen)
    ensures InBounds(mem, owner, q, b, chain, Drive(q, AtSlot(b, 0), seen))
  {
    hide WellKept, InBounds, Step, FetchOf;
    if seen == [] {
      AtStart(mem, owner, q, b, chain);
    } else {
      var n := |seen| - 1;
      assert Follows(GetReader(q, b), mem, seen[..n]) by {
        forall i | 0 <= i < n
          ensures seen[..n][..i] == seen[..i]
        {
        }
      }
      DrivenInBounds(mem, owner, q, b, chain, seen[..n]);
      StepInBounds(mem, owner, q, b, chain, Drive(q, AtSlot(b, 0), seen[..n]));
    }
  }

  lemma AtStart(mem: map<Loc, U64>, owner: map<Loc, nat>, q: Query, b: nat, chain: set<nat>)
    requires WellKept(mem, owner, q, b, chain)
    ensures InBounds(mem, owner, q, b, chain, AtSlot(b, 0))
  {
  }

  /** `get` is a reader to which the guarantee applies. */
  lemma GetIsClosed(mem: map<Loc, U64>, owner: map<Loc, nat>, q: Query, b: nat, chain: set<nat>)
    requires WellKept(mem, owner, q, b, chain)
    ensures Closed(GetReader(q, b), b, mem, owner)
  {
    hide WellKept, InBounds, Step, FetchOf;
    forall seen | Follows(GetReader(q, b), mem, seen) && GetReader(q, b)(seen).Fetch?
      ensures Owns(owner, GetReader(q, b)(seen).loc, b)
    {
      DrivenInBounds(mem, owner, q, b, chain, seen);
      FetchInBounds(mem, owner, q, b, chain, Drive(q, AtSlot(b, 0), seen));
    }
  }

  /** Whatever the other threads do meanwhile, `get` answers as if it had run alone at one instant of its call: whoever
      runs alone on the words of that instant sees the same words and gives the same answer. */
  lemma GetIsAtomic(states: seq<State>, i: nat, t: nat, q: Query) returns (j: nat)
    requires Run(states) && i < |states| && t < |states[i].threads| && states[i].threads[t].Returned?
    requires var th := states[i].threads[t];
             && th.reader == GetReader(q, th.b) && !Overtaken(th.snap.sections, th.ended)
             && forall k | 0 <= k <= i && th.b < |states[k].holders| && states[k].holders[th.b] == Nobody ::
                  exists chain :: WellKept(states[k].mem, states[k].owner, q, th.b, chain)
    ensures var th := states[i].threads[t];
            && Instant(states, i, t, th.b, th.snap, j)
            && Follows(th.reader, states[j].mem, th.seen) && Drive(q, AtSlot(th.b, 0), th.seen).Answer?
            && forall alone | Follows(th.reader, states[j].mem, alone) && th.reader(alone) == Finish ::
                 Drive(q, AtSlot(th.b, 0), alone) == Drive(q, AtSlot(th.b, 0), th.seen)
  {
    hide Run, Closed, Follows, VersionOf, Same, WellKept, Drive;
    var th := states[i].threads[t];
    forall k | 0 <= k <= i && th.b < |states[k].holders| && states[k].holders[th.b] == Nobody
      ensures Closed(th.reader, th.b, states[k].mem, states[k].owner)
    {
      var chain :| WellKept(states[k].mem, states[k].owner, q, th.b, chain);
      GetIsClosed(states[k].mem, states[k].owner, q, th.b, chain);
    }
    j := ReadsMatchOneInstant(states, i, t);
    forall alone | Follows(th.reader, states[j].mem, alone) && th.reader(alone) == Finish
      ensures alone == th.seen
    {
      if |alone| <= |th.seen| {
        OneWay(th.reader, states[j].mem, alone, th.seen);
      } else {
        OneWay(th.reader, states[j].mem, th.seen, alone);
      }
    }
  }

  // ---------- Writers that edit the table ----------

  datatype Stage = Stage(mem: map<Loc, U64>, owner: map<Loc, nat>, chain: set<nat>)

  /** A bucket is well kept and no two of its slots point to one item. */
  ghost predicate Kept(s: Stage, q: Query, b: nat) {
    && WellKept(s.mem, s.owner, q, b, s.chain)
    && forall r, i, p, j {:trigger At(s.mem, Slot(r, i)), At(s.mem, Slot(p, j))} |
         r in s.chain && 0 <= i < q.bucketSize && p in s.chain && 0 <= j < q.bucketSize
         && At(s.mem, Slot(r, i)) != 0 && At(s.mem, Slot(p, j)) != 0
         && GetOffset(At(s.mem, Slot(r, i))) == GetOffset(At(s.mem, Slot(p, j))) :: r == p && i == j
  }

  /** A word is the bucket's as before, with the same content. */
  ghost predicate Unchanged(s: Stage, s': Stage, b: nat, l: Loc) {
    (Owns(s'.owner, l, b) <==> Owns(s.owner, l, b)) && (Owns(s.owner, l, b) ==> At(s'.mem, l) == At(s.mem, l))
  }

  /** What set and del do to a bucket: write a slot and the items it pointed to and points to, move an item between
      slots, and put an extra bucket at the end of the chain or take one off. */
  datatype Edit =
    | Put(row: nat, i: nat)
    | MoveItem(row: nat, i: nat, from: nat, j: nat)
    | LinkRow(last: nat, extra: nat)
    | UnlinkRow(last: nat, extra: nat)

  ghost predicate PointsTo(vec: U64, l: Loc) {
    vec != 0 && l.Word? && l.offset == GetOffset(vec)
  }

  ghost predicate Edited(s: Stage, s': Stage, q: Query, b: nat, edit: Edit) {
    match edit
    case Put(row, i) =>
      var was, vec := At(s.mem, Slot(row, i)), At(s'.mem, Slot(row, i));
      && row in s.chain && i < q.bucketSize && s'.chain == s.chain && SlotKept(s'.mem, s'.owner, b, vec, row, i)
      && (vec != 0 ==> PointsTo(was, Word(GetOffset(vec), 0)) || !Owns(s.owner, Word(GetOffset(vec), 0), b))
      && forall l :: l == Slot(row, i) || PointsTo(was, l) || PointsTo(vec, l) || Unchanged(s, s', b, l)
    case MoveItem(row, i, from, j) =>
      && row in s.chain && from in s.chain && i < q.bucketSize && j < q.bucketSize && s'.chain == s.chain
      && At(s.mem, Slot(row, i)) == 0 && At(s'.mem, Slot(row, i)) == At(s.mem, Slot(from, j))
      && At(s'.mem, Slot(from, j)) == 0 && Owns(s'.owner, Slot(row, i), b) && Owns(s'.owner, Slot(from, j), b)
      && forall l :: l == Slot(row, i) || l == Slot(from, j) || Unchanged(s, s', b, l)
    case LinkRow(last, extra) =>
      && last in s.chain && extra !in s.chain && s'.chain == s.chain + {extra}
      && At(s.mem, Link(last)) % TWO_32 == 0 && At(s'.mem, Link(last)) % TWO_32 != 0
      && RowOf(q, At(s'.mem, Link(last))) == extra && Owns(s'.owner, Link(last), b)
      && Owns(s'.owner, Link(extra), b) && At(s'.mem, Link(extra)) % TWO_32 == 0
      && (forall i | 0 <= i < q.bucketSize :: Owns(s'.owner, Slot(extra, i), b) && At(s'.mem, Slot(extra, i)) == 0)
      && forall l :: l == Link(last) || l == Link(extra) || (l.Slot? && l.row == extra) || Unchanged(s, s', b, l)
    case UnlinkRow(last, extra) =>
      && last in s.chain && extra in s.chain && extra != b && last != extra && s'.chain == s.chain - {extra}
      && At(s.mem, Link(last)) % TWO_32 != 0 && RowOf(q, At(s.mem, Link(last))) == extra
      && At(s.mem, Link(extra)) % TWO_32 == 0
      && (forall row | row in s.chain && row != last && At(s.mem, Link(row)) % TWO_32 != 0 ::
            RowOf(q, At(s.mem, Link(row))) != extra)
      && At(s'.mem, Link(last)) % TWO_32 == 0 && Owns(s'.owner, Link(last), b)
      && forall l :: l == Link(last) || l == Link(extra) || (l.Slot? && l.row == extra) || Unchanged(s, s', b, l)
  }

  /** An item none of whose words changed is still all there. */
  lemma ItemStays(s: Stage, s': Stage, b: nat, off: nat)
    requires ItemKept(s.mem, s.owner, b, off) && forall j :: Unchanged(s, s', b, Word(off, j))
    ensures ItemKept(s'.mem, s'.owner, b, off)
  {
    assert Unchanged(s, s', b, Word(off, 0)) && Owns(s.owner, Word(off, 0), b);
    forall j: nat | j < 2 || 8 * j < 16 + KeyBytes(At(s'.mem, Word(off, 0))) + ValueBytes(At(s'.mem, Word(off, 0)))
      ensures Owns(s'.owner, Word(off, j), b)
    {
      assert Unchanged(s, s', b, Word(off, j));
    }
  }

  lemma SlotStays(s: Stage, s': Stage, q: Query, b: nat, row: nat, i: nat)
    requires Kept(s, q, b) && row in s.chain && i < q.bucketSize && Unchanged(s, s', b, Slot(row, i))
    requires forall j: nat {:trigger Word(GetOffset(At(s.mem, Slot(row, i))), j)} ::
               At(s.mem, Slot(row, i)) != 0 ==> Unchanged(s, s', b, Word(GetOffset(At(s.mem, Slot(row, i))), j))
    ensures At(s'.mem, Slot(row, i)) == At(s.mem, Slot(row, i))
    ensures SlotKept(s'.mem, s'.owner, b, At(s'.mem, Slot(row, i)), row, i)
  {
    assert SlotKept(s.mem, s.owner, b, At(s.mem, Slot(row, i)), row, i);
    if At(s.mem, Slot(row, i)) != 0 {
      ItemStays(s, s', b, GetOffset(At(s.mem, Slot(row, i))));
    }
  }

  lemma PutKeeps(s: Stage, s': Stage, q: Query, b: nat, row: nat, i: nat)
    requires Kept(s, q, b) && Edited(s, s', q, b, Put(row, i))
    ensures Kept(s', q, b)
  {
    hide KeyBytes, ValueBytes, RowOf, GetOffset;
    var was, vec := At(s.mem, Slot(row, i)), At(s'.mem, Slot(row, i));
    forall r | r in s.chain
      ensures Unchanged(s, s', b, Link(r))
    {
    }
    forall r, p | r in s.chain && 0 <= p < q.bucketSize && (r != row || p != i)
      ensures At(s'.mem, Slot(r, p)) == At(s.mem, Slot(r, p))
              && SlotKept(s'.mem, s'.owner, b, At(s'.mem, Slot(r, p)), r, p)
      ensures At(s.mem, Slot(r, p)) != 0 && vec != 0 ==> GetOffset(At(s.mem, Slot(r, p))) != GetOffset(vec)
    {
      var other := At(s.mem, Slot(r, p));
      assert SlotKept(s.mem, s.owner, b, other, r, p) && Unchanged(s, s', b, Slot(r, p));
      assert other != 0 ==> Owns(s.owner, Word(GetOffset(other), 0), b);
      forall j: nat {:trigger Word(GetOffset(other), j)}
        ensures other != 0 ==> Unchanged(s, s', b, Word(GetOffset(other), j))
      {
        assert PointsTo(other, Word(GetOffset(other), j)) || other == 0;
      }
      SlotStays(s, s', q, b, r, p);
    }
  }

  lemma MoveKeeps(s: Stage, s': Stage, q: Query, b: nat, row: nat, i: nat, from: nat, j: nat)
    requires Kept(s, q, b) && Edited(s, s', q, b, MoveItem(row, i, from, j))
    ensures Kept(s', q, b)
  {
    hide KeyBytes, ValueBytes, RowOf, GetOffset;
    forall r, p | r in s.chain && 0 <= p < q.bucketSize
      ensures SlotKept(s'.mem, s'.owner, b, At(s'.mem, Slot(r, p)), r, p)
      ensures (r != row || p != i) && (r != from || p != j) ==> At(s'.mem, Slot(r, p)) == At(s.mem, Slot(r, p))
    {
      assert SlotKept(s.mem, s.owner, b, At(s.mem, Slot(from, j)), from, j);
      if r == row && p == i {
        if At(s.mem, Slot(from, j)) != 0 {
          ItemStays(s, s', b, GetOffset(At(s.mem, Slot(from, j))));
        }
      } else if r != from || p != j {
        assert SlotKept(s.mem, s.owner, b, At(s.mem, Slot(r, p)), r, p);
        SlotStays(s, s', q, b, r, p);
      }
    }
    forall r | r in s.chain
      ensures Unchanged(s, s', b, Link(r))
    {
    }
  }

  lemma LinkKeeps(s: Stage, s': Stage, q: Query, b: nat, last: nat, extra: nat)
    requires Kept(s, q, b) && Edited(s, s', q, b, LinkRow(last, extra))
    ensures Kept(s', q, b)
  {
    hide KeyBytes, ValueBytes, RowOf, GetOffset;
    forall r, p | r in s.chain && 0 <= p < q.bucketSize
      ensures At(s'.mem, Slot(r, p)) == At(s.mem, Slot(r, p))
              && SlotKept(s'.mem, s'.owner, b, At(s'.mem, Slot(r, p)), r, p)
    {
      assert SlotKept(s.mem, s.owner, b, At(s.mem, Slot(r, p)), r, p);
      SlotStays(s, s', q, b, r, p);
    }
    forall r | r in s.chain && r != last
      ensures Unchanged(s, s', b, Link(r))
    {
    }
  }

  lemma UnlinkKeeps(s: Stage, s': Stage, q: Query, b: nat, last: nat, extra: nat)
    requires Kept(s, q, b) && Edited(s, s', q, b, UnlinkRow(last, extra))
    ensures Kept(s', q, b)
  {
    hide KeyBytes, ValueBytes, RowOf, GetOffset;
    forall r, p | r in s'.chain && 0 <= p < q.bucketSize
      ensures At(s'.mem, Slot(r, p)) == At(s.mem, Slot(r, p))
              && SlotKept(s'.mem, s'.owner, b, At(s'.mem, Slot(r, p)), r, p)
    {
      assert SlotKept(s.mem, s.owner, b, At(s.mem, Slot(r, p)), r, p);
      SlotStays(s, s', q, b, r, p);
    }
    forall r | r in s'.chain && r != last
      ensures Unchanged(s, s', b, Link(r))
    {
    }
  }

  /** Every edit leaves the bucket as a reader of it needs it. */
  lemma EditKeeps(s: Stage, s': Stage, q: Query, b: nat, edit: Edit)
    requires Kept(s, q, b) && Edited(s, s', q, b, edit)
    ensures Kept(s', q, b)
  {
    hide Kept, Edited;
    match edit {
      case Put(row, i) => PutKeeps(s, s', q, b, row, i);
      case MoveItem(row, i, from, j) => MoveKeeps(s, s', q, b, row, i, from, j);
      case LinkRow(last, extra) => LinkKeeps(s, s', q, b, last, extra);
      case UnlinkRow(last, extra) => UnlinkKeeps(s, s', q, b, last, extra);
    }
  }

  /** A section of a writer: one edit after the other. */
  ghost predicate EditPath(stages: seq<Stage>, q: Query, b: nat) {
    stages != [] && forall i {:trigger stages[i]} | 0 < i < |stages| :: EditedSomehow(stages[i - 1], stages[i], q, b)
  }

  ghost predicate EditedSomehow(s: Stage, s': Stage, q: Query, b: nat) {
    exists edit :: Edited(s, s', q, b, edit)
  }

  lemma {:induction false} PathKeeps(stages: seq<Stage>, q: Query, b: nat)
    requires EditPath(stages, q, b) && Kept(stages[0], q, b)
    ensures Kept(stages[|stages| - 1], q, b)
  {
    hide Kept, Edited;
    var n := |stages| - 1;
    if 0 < n {
      assert stages[..n][n - 1] == stages[n - 1];
      PathKeeps(stages[..n], q, b);
      assert EditedSomehow(stages[n - 1], stages[n], q, b);
      var edit :| Edited(stages[n - 1], stages[n], q, b, edit);
      EditKeeps(stages[n - 1], stages[n], q, b, edit);
    }
  }

  ghost predicate Quiet(s: State, b: nat) {
    b < |s.holders| && s.holders[b] == Nobody
  }

  ghost function StageOf(s: State, chain: set<nat>): Stage {
    Stage(s.mem, s.owner, chain)
  }

  /** Between two instants without a writer inside, the bucket is only ever changed by edits; `chains` says which rows
      it has at each instant. */
  ghost predicate OnlyEdits(states: seq<State>, chains: seq<set<nat>>, q: Query, b: nat) {
    && |chains| == |states|
    && forall k | 0 < k < |states| && Quiet(states[k], b) ::
         if Quiet(states[k - 1], b) then chains[k] == chains[k - 1] else EditsLeadTo(states, chains, q, b, k)
  }

  ghost predicate EditsLeadTo(states: seq<State>, chains: seq<set<nat>>, q: Query, b: nat, k: nat)
    requires k < |states| == |chains|
  {
    exists i: nat, stages: seq<Stage> ::
      && i < k && Quiet(states[i], b) && stages != [] && EditPath(stages, q, b)
      && stages[0] == StageOf(states[i], chains[i]) && stages[|stages| - 1] == StageOf(states[k], chains[k])
  }

  lemma SameKeeps(s: Stage, s': Stage, q: Query, b: nat)
    requires Kept(s, q, b) && s'.chain == s.chain && forall l :: Unchanged(s, s', b, l)
    ensures Kept(s', q, b)
  {
    hide KeyBytes, ValueBytes, RowOf, GetOffset;
    forall r, p | r in s.chain && 0 <= p < q.bucketSize
      ensures At(s'.mem, Slot(r, p)) == At(s.mem, Slot(r, p))
              && SlotKept(s'.mem, s'.owner, b, At(s'.mem, Slot(r, p)), r, p)
    {
      assert SlotKept(s.mem, s.owner, b, At(s.mem, Slot(r, p)), r, p);
      SlotStays(s, s', q, b, r, p);
    }
    forall r | r in s.chain
      ensures Unchanged(s, s', b, Link(r))
    {
    }
  }

  /** A step that begins and ends without a writer inside leaves the bucket alone. */
  lemma QuietStep(s: State, e: Event, b: nat, chain: set<nat>)
    requires Inv(s) && Enabled(s, e) && Quiet(s, b)
    ensures forall l :: Unchanged(StageOf(s, chain), StageOf(After(s, e), chain), b, l)
  {
    if e.Claim? || e.Drop? || e.Write? || e.Scribble? {
      if !e.Scribble? {
        assert ThreadOk(s, e.t);
      }
      OtherBucketsSame(s, e, b, SnapOf(s, b));
    }
  }

  lemma {:induction false} KeptAlong(states: seq<State>, chains: seq<set<nat>>, q: Query, b: nat, k: nat)
    requires Run(states) && OnlyEdits(states, chains, q, b) && k < |states| && Quiet(states[k], b)
    requires Kept(StageOf(states[0], chains[0]), q, b)
    ensures Kept(StageOf(states[k], chains[k]), q, b)
  {
    hide Run, Inv, Kept, EditPath, Unchanged, Quiet;
    if 0 < k {
      var e := StepTo(states, k);
      if Quiet(states[k - 1], b) {
        KeptAlong(states, chains, q, b, k - 1);
        RunKeepsInv(states, k - 1);
        QuietStep(states[k - 1], e, b, chains[k]);
        SameKeeps(StageOf(states[k - 1], chains[k]), StageOf(states[k], chains[k]), q, b);
      } else {
        var i: nat, stages: seq<Stage> :|
          && i < k && Quiet(states[i], b) && stages != [] && EditPath(stages, q, b)
          && stages[0] == StageOf(states[i], chains[i]) && stages[|stages| - 1] == StageOf(states[k], chains[k]);
        KeptAlong(states, chains, q, b, i);
        PathKeeps(stages, q, b);
      }
    }
  }

  /** With writers that only edit, `get` is atomic on every bucket that was well kept at the start. */
  lemma GetAmongEdits(states: seq<State>, chains: seq<set<nat>>, i: nat, t: nat, q: Query) returns (j: nat)
    requires Run(states) && i < |states| && t < |states[i].threads| && states[i].threads[t].Returned?
    requires var th := states[i].threads[t];
             && th.reader == GetReader(q, th.b) && !Overtaken(th.snap.sections, th.ended)
             && OnlyEdits(states, chains, q, th.b) && Kept(StageOf(states[0], chains[0]), q, th.b)
    ensures var th := states[i].threads[t];
            && Instant(states, i, t, th.b, th.snap, j)
            && Follows(th.reader, states[j].mem, th.seen) && Drive(q, AtSlot(th.b, 0), th.seen).Answer?
            && forall alone | Follows(th.reader, states[j].mem, alone) && th.reader(alone) == Finish ::
                 Drive(q, AtSlot(th.b, 0), alone) == Drive(q, AtSlot(th.b, 0), th.seen)
  {
    hide Run, Follows, WellKept, Drive, OnlyEdits;
    var b := states[i].threads[t].b;
    assert |chains| == |states| by { SameLength(states, chains, q, b); }
    forall k | 0 <= k <= i && b < |states[k].holders| && states[k].holders[b] == Nobody
      ensures exists chain :: WellKept(states[k].mem, states[k].owner, q, b, chain)
    {
      KeptAlong(states, chains, q, b, k);
      assert WellKept(states[k].mem, states[k].owner, q, b, chains[k]);
    }
    j := GetIsAtomic(states, i, t, q);
  }

  lemma SameLength(states: seq<State>, chains: seq<set<nat>>, q: Query, b: nat)
    requires OnlyEdits(states, chains, q, b)
    ensures |chains| == |states|
  {
  }
}
