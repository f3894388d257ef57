/**
 Which core may execute requests for a partition, and how ownership changes hands: a change is queued at the present
 owner, who alone gives the partition away, between two rounds of requests.  One thread per core, every access to an
 owner or a queue a step of its own.
 */
module Ownership {
  import Rebalance

  type Change = Rebalance.Change

  const QUEUE_ROOM: int := 15 // sixteen cells, one of which stays empty

  /** Gets and tests, changes of one key, the reset of all tables, and what the switch on operations does not know. */
  datatype Operation = Read | Write | Reset | Unknown

  /** Whether cores may read, or write, partitions of others. */
  datatype Mode = Mode(concurrentRead: bool, concurrentWrite: bool)

  datatype Core =
    | Idle
    | Serving(partition: nat, op: Operation)   // has a request for the partition
    | Executing(partition: nat, op: Operation) // has accepted it
    | Asking(change: Change)      // set_new_owner_lcore_id found another owner
    | Holding(change: Change)     // took a change from its queue
    | Giving(change: Change)      // found itself the owner of the partition to give away
    | Redirecting(change: Change) // found that it has given the partition away already

  /** `issued`, `applied` and `lost` record history. */
  datatype State = State(mode: Mode, owners: seq<nat>, queues: seq<seq<Change>>, cores: seq<Core>,
                         issued: multiset<Change>, applied: multiset<Change>, lost: multiset<Change>)

  datatype Event =
    | Receive(t: nat, partition: nat, op: Operation)
    | CheckOwner(t: nat)
    | Finish(t: nat)
    | Ask(t: nat, change: Change)
    | Post(t: nat)
    | Dequeue(t: nat)
    | LookAtOwner(t: nat)
    | Give(t: nat)
    | Redirect(t: nat)

  ghost predicate ChangeOk(s: State, c: Change) {
    c.partition < |s.owners| && c.lcore < |s.cores|
  }

  ghost predicate Shaped(s: State) {
    && |s.queues| == |s.cores|
    && (forall p | 0 <= p < |s.owners| :: s.owners[p] < |s.cores|)
    && (forall q, i | 0 <= q < |s.queues| && 0 <= i < |s.queues[q]| :: ChangeOk(s, s.queues[q][i]))
    && (forall t | 0 <= t < |s.cores| :: CoreShaped(s, s.cores[t]))
  }

  ghost predicate CoreShaped(s: State, core: Core) {
    match core
    case Idle => true
    case Serving(p, _) => p < |s.owners|
    case Executing(p, _) => p < |s.owners|
    case Asking(c) => ChangeOk(s, c)
    case Holding(c) => ChangeOk(s, c)
    case Giving(c) => ChangeOk(s, c)
    case Redirecting(c) => ChangeOk(s, c)
  }

  // ---------- Steps ----------

  ghost predicate Enabled(s: State, e: Event) {
    && e.t < |s.cores| && Shaped(s)
    && match e
       case Receive(t, p, _) => s.cores[t].Idle? && p < |s.owners|
       case CheckOwner(t) => s.cores[t].Serving?
       case Finish(t) => s.cores[t].Executing?
       case Ask(t, c) => s.cores[t].Idle? && ChangeOk(s, c)
       case Post(t) => s.cores[t].Asking?
       case Dequeue(t) => s.cores[t].Idle? && s.queues[t] != []
       case LookAtOwner(t) => s.cores[t].Holding?
       case Give(t) => s.cores[t].Giving?
       case Redirect(t) => s.cores[t].Redirecting?
  }

  /** Operations that a core executes without owning the partition. */
  predicate AnyCoreMay(mode: Mode, op: Operation) {
    match op
    case Read => mode.concurrentRead
    case Write => mode.concurrentWrite
    case Reset => mode.concurrentWrite
    case Unknown => true
  }

  ghost function With(s: State, t: nat, core: Core): State
    requires t < |s.cores|
  {
    s.(cores := s.cores[t := core])
  }

  /** Queues a change at an owner; the result of enqueue is ignored, so a full queue loses the change. */
  ghost function Queued(s: State, q: nat, c: Change): State
    requires q < |s.queues|
  {
    if |s.queues[q]| < QUEUE_ROOM then s.(queues := s.queues[q := s.queues[q] + [c]])
    else s.(lost := s.lost + multiset{c})
  }

  ghost function After(s: State, e: Event): State
    requires Enabled(s, e)
  {
    match e
    case Receive(t, p, op) => With(s, t, Serving(p, op))
    case CheckOwner(t) =>
      var p, op := s.cores[t].partition, s.cores[t].op;
      With(s, t, if AnyCoreMay(s.mode, op) || s.owners[p] == t then Executing(p, op) else Idle)
    case Finish(t) => With(s, t, Idle)
    case Ask(t, c) =>
      if s.owners[c.partition] == c.lcore then s
      else With(s, t, Asking(c)).(issued := s.issued + multiset{c})
    case Post(t) =>
      var c := s.cores[t].change;
      Queued(With(s, t, Idle), s.owners[c.partition], c)
    case Dequeue(t) => With(s, t, Holding(s.queues[t][0])).(queues := s.queues[t := s.queues[t][1..]])
    case LookAtOwner(t) =>
      var c := s.cores[t].change;
      With(s, t, if s.owners[c.partition] == t then Giving(c) else Redirecting(c))
    case Give(t) =>
      var c := s.cores[t].change;
      With(s, t, Idle).(owners := s.owners[c.partition := c.lcore], applied := s.applied + multiset{c})
    case Redirect(t) =>
      var c := s.cores[t].change;
      Queued(With(s, t, Idle), s.owners[c.partition], c)
  }

  ghost predicate Init(s: State) {
    && Shaped(s) && (forall q | 0 <= q < |s.queues| :: s.queues[q] == [])
    && (forall t | 0 <= t < |s.cores| :: s.cores[t] == Idle)
    && s.issued == s.applied == s.lost == multiset{}
  }

  ghost predicate Next(s: State, s': State) {
    exists e :: Enabled(s, e) && s' == After(s, e)
  }

  ghost predicate Run(states: seq<State>) {
    && 0 < |states| && Init(states[0])
    && forall i {:trigger Next(states[i - 1], states[i])} | 0 < i < |states| :: Next(states[i - 1], states[i])
  }

  // ---------- Exclusive ownership ----------

  /** A core that executes a request only the owner may execute, or is about to give a partition away, owns it. */
  ghost predicate Owns(s: State) {
    forall t | 0 <= t < |s.cores| :: OwnsAt(s.mode, s.owners, s.cores[t], t)
  }

  ghost predicate OwnsAt(mode: Mode, owners: seq<nat>, core: Core, t: nat) {
    match core
    case Executing(p, op) => AnyCoreMay(mode, op) || (p < |owners| && owners[p] == t)
    case Giving(c) => c.partition < |owners| && owners[c.partition] == t
    case _ => true
  }

  /** So the shape that steps ask for never keeps a core from one. */
  lemma StepKeepsShape(s: State, e: Event)
    requires Enabled(s, e)
    ensures Shaped(After(s, e))
  {
    assert CoreShaped(s, s.cores[e.t]);
    if e.Post? || e.Redirect? {
      QueuedShaped(With(s, e.t, Idle), s.owners[s.cores[e.t].change.partition], s.cores[e.t].change);
    } else if e.Dequeue? {
      assert ChangeOk(s, s.queues[e.t][0]);
      forall i | 0 <= i < |s.queues[e.t]| - 1
        ensures ChangeOk(s, s.queues[e.t][1..][i])
      {
        assert ChangeOk(s, s.queues[e.t][i + 1]);
      }
    }
  }

  lemma QueuedShaped(s: State, q: nat, c: Change)
    requires Shaped(s) && q < |s.queues| && ChangeOk(s, c)
    ensures Shaped(Queued(s, q, c))
  {
  }

  lemma StepKeepsOwners(s: State, e: Event)
    requires Enabled(s, e) && Owns(s)
    ensures Owns(After(s, e)) && After(s, e).mode == s.mode
  {
    assert CoreShaped(s, s.cores[e.t]) && |s.cores| == |s.queues|;
    forall u | 0 <= u < |s.cores|
      ensures OwnsAt(s.mode, After(s, e).owners, After(s, e).cores[u], u)
    {
      CoreKeepsOwning(s, e, u);
    }
  }

  lemma OwnersStay(s: State, e: Event)
    requires Enabled(s, e)
    ensures !e.Give? ==> After(s, e).owners == s.owners
    ensures forall u | 0 <= u < |s.cores| && u != e.t :: After(s, e).cores[u] == s.cores[u]
    ensures |After(s, e).cores| == |s.cores|
  {
    assert CoreShaped(s, s.cores[e.t]);
  }

  lemma CoreKeepsOwning(s: State, e: Event, u: nat)
    requires Enabled(s, e) && Owns(s) && u < |s.cores|
    ensures OwnsAt(s.mode, After(s, e).owners, After(s, e).cores[u], u)
  {
    assert CoreShaped(s, s.cores[e.t]) && CoreShaped(s, s.cores[u]);
    assert OwnsAt(s.mode, s.owners, s.cores[e.t], e.t) && OwnsAt(s.mode, s.owners, s.cores[u], u);
    hide Shaped, Owns, AnyCoreMay, Queued;
    OwnersStay(s, e);
  }

  /** Only its owner gives a partition away, and to whom a change says. */
  lemma OnlyOwnerGives(s: State, e: Event, p: nat)
    requires Enabled(s, e) && Owns(s) && p < |s.owners|
    ensures |After(s, e).owners| == |s.owners|
    ensures After(s, e).owners[p] != s.owners[p] ==>
              e == Give(s.owners[p]) && s.cores[e.t].change == Rebalance.Change(p, After(s, e).owners[p])
  {
  }

  // ---------- Delivery ----------

  function One(c: Change, d: Change): nat {
    if c == d then 1 else 0
  }

  /** How often a change is in the hands of a core. */
  ghost function InFlight(core: Core, c: Change): nat {
    if core.Asking? || core.Holding? || core.Giving? || core.Redirecting? then One(core.change, c) else 0
  }

  ghost function AllInFlight(cores: seq<Core>, c: Change): nat {
    if cores == [] then 0 else AllInFlight(cores[..|cores| - 1], c) + InFlight(cores[|cores| - 1], c)
  }

  ghost function AllQueued(queues: seq<seq<Change>>, c: Change): nat {
    if queues == [] then 0 else AllQueued(queues[..|queues| - 1], c) + multiset(queues[|queues| - 1])[c]
  }

  lemma {:induction false} CoreChanged(cores: seq<Core>, t: nat, core: Core, c: Change)
    requires t < |cores|
    ensures AllInFlight(cores[t := core], c) + InFlight(cores[t], c) == AllInFlight(cores, c) + InFlight(core, c)
  {
    var n := |cores| - 1;
    if t < n {
      CoreChanged(cores[..n], t, core, c);
      assert cores[t := core][..n] == cores[..n][t := core];
    } else {
      assert cores[t := core][..n] == cores[..n];
    }
  }

  lemma {:induction false} QueueChanged(queues: seq<seq<Change>>, q: nat, queue: seq<Change>, c: Change)
    requires q < |queues|
    ensures AllQueued(queues[q := queue], c) + multiset(queues[q])[c] == AllQueued(queues, c) + multiset(queue)[c]
  {
    var n := |queues| - 1;
    if q < n {
      QueueChanged(queues[..n], q, queue, c);
      assert queues[q := queue][..n] == queues[..n][q := queue];
    } else {
      assert queues[q := queue][..n] == queues[..n];
    }
  }

  /** Every change ever asked for waits in a queue, is in the hands of a core, has been applied or was lost: exactly one
      of these, as often as it was asked for. */
  ghost predicate Conserved(s: State) {
    forall c :: ConservedOne(s, c)
  }

  ghost predicate ConservedOne(s: State, c: Change) {
    s.issued[c] == AllQueued(s.queues, c) + AllInFlight(s.cores, c) + s.applied[c] + s.lost[c]
  }

  lemma StepConserves(s: State, e: Event, c: Change)
    requires Enabled(s, e) && ConservedOne(s, c)
    ensures ConservedOne(After(s, e), c)
  {
    assert CoreShaped(s, s.cores[e.t]) && |s.queues| == |s.cores|;
    hide AllQueued, AllInFlight, Shaped, ConservedOne, InFlight;
    match e {
      case Post(t) => Sent(s, t, s.owners[s.cores[t].change.partition], c);
      case Redirect(t) => Sent(s, t, s.owners[s.cores[t].change.partition], c);
      case Dequeue(t) => Received(s, t, c);
      case _ => Moved(s, e, c);
    }
  }

  /** Posting a change in hand, or losing it. */
  lemma Sent(s: State, t: nat, q: nat, c: Change)
    requires t < |s.cores| && q < |s.queues| && (s.cores[t].Asking? || s.cores[t].Redirecting?) && ConservedOne(s, c)
    ensures ConservedOne(Queued(With(s, t, Idle), q, s.cores[t].change), c)
  {
    hide AllQueued, AllInFlight;
    CoreChanged(s.cores, t, Idle, c);
    Appended(s, q, s.cores[t].change, c);
  }

  lemma Received(s: State, t: nat, c: Change)
    requires t < |s.cores| == |s.queues| && s.cores[t].Idle? && s.queues[t] != [] && ConservedOne(s, c)
    ensures ConservedOne(With(s, t, Holding(s.queues[t][0])).(queues := s.queues[t := s.queues[t][1..]]), c)
  {
    hide AllQueued, AllInFlight;
    CoreChanged(s.cores, t, Holding(s.queues[t][0]), c);
    QueueChanged(s.queues, t, s.queues[t][1..], c);
    assert s.queues[t] == [s.queues[t][0]] + s.queues[t][1..];
    assert multiset(s.queues[t])[c] == One(s.queues[t][0], c) + multiset(s.queues[t][1..])[c];
  }

  /** Steps that touch no queue. */
  lemma Moved(s: State, e: Event, c: Change)
    requires Enabled(s, e) && ConservedOne(s, c) && !e.Post? && !e.Redirect? && !e.Dequeue?
    ensures ConservedOne(After(s, e), c)
  {
    assert CoreShaped(s, s.cores[e.t]);
    hide AllQueued, AllInFlight, Shaped;
    CoreChanged(s.cores, e.t, After(s, e).cores[e.t], c);
  }

  lemma Appended(s: State, q: nat, d: Change, c: Change)
    requires q < |s.queues|
    ensures AllQueued(s.queues[q := s.queues[q] + [d]], c) == AllQueued(s.queues, c) + One(d, c)
  {
    QueueChanged(s.queues, q, s.queues[q] + [d], c);
    assert multiset(s.queues[q] + [d])[c] == multiset(s.queues[q])[c] + One(d, c);
  }

  lemma {:induction false} NothingYet(cores: seq<Core>, queues: seq<seq<Change>>, c: Change)
    requires forall t | 0 <= t < |cores| :: cores[t] == Idle
    requires forall q | 0 <= q < |queues| :: queues[q] == []
    ensures AllInFlight(cores, c) == 0 && AllQueued(queues, c) == 0
    decreases |cores| + |queues|
  {
    if cores != [] {
      NothingYet(cores[..|cores| - 1], queues, c);
    }
    if queues != [] {
      NothingYet(cores, queues[..|queues| - 1], c);
    }
  }

  /** Every queue takes another change. */
  ghost predicate HasRoom(s: State) {
    forall q | 0 <= q < |s.queues| :: |s.queues[q]| < QUEUE_ROOM
  }

  lemma RoomLosesNothing(s: State, e: Event)
    requires Enabled(s, e) && HasRoom(s)
    ensures After(s, e).lost == s.lost
  {
  }

  // ---------- Whole runs ----------

  lemma {:induction false} RunKeeps(states: seq<State>, i: nat)
    requires Run(states) && i < |states|
    ensures Shaped(states[i]) && Owns(states[i]) && Conserved(states[i]) && states[i].mode == states[0].mode
    ensures (forall k | 0 <= k < i :: HasRoom(states[k])) ==> states[i].lost == multiset{}
  {
    hide Owns, Conserved, HasRoom, Shaped;
    if i == 0 {
      FirstState(states[0]);
    } else {
      RunKeeps(states, i - 1);
      assert Next(states[i - 1], states[i]);
      var e :| Enabled(states[i - 1], e) && states[i] == After(states[i - 1], e);
      StepKeepsShape(states[i - 1], e);
      StepKeepsOwners(states[i - 1], e);
      forall c
        ensures ConservedOne(states[i], c)
      {
        assert ConservedOne(states[i - 1], c) by { ConservedAll(states[i - 1], c); }
        StepConserves(states[i - 1], e, c);
      }
      AllConserved(states[i]);
      if HasRoom(states[i - 1]) {
        RoomLosesNothing(states[i - 1], e);
      }
    }
  }

  lemma ConservedAll(s: State, c: Change)
    requires Conserved(s)
    ensures ConservedOne(s, c)
  {
  }

  lemma AllConserved(s: State)
    requires forall c :: ConservedOne(s, c)
    ensures Conserved(s)
  {
  }

  lemma FirstState(s: State)
    requires Init(s)
    ensures Shaped(s) && Owns(s) && Conserved(s)
  {
    forall c
      ensures ConservedOne(s, c)
    {
      NothingYet(s.cores, s.queues, c);
    }
  }

  /** What a core that looks at the owner decides: its own requests it executes, and so does it reads where concurrent
      reads are on, changes where concurrent writes are, and unknown operations; every other request is refused. */
  lemma OwnersAreServed(s: State, t: nat)
    requires Enabled(s, CheckOwner(t))
    ensures var p, op := s.cores[t].partition, s.cores[t].op;
            && p < |s.owners|
            && After(s, CheckOwner(t)).cores[t] ==
               if s.owners[p] == t || op.Unknown? || (op.Read? && s.mode.concurrentRead)
                  || ((op.Write? || op.Reset?) && s.mode.concurrentWrite)
               then Executing(p, op) else Idle
  {
    assert CoreShaped(s, s.cores[t]);
  }

  /** With concurrent writes off, a core that executes a change or a reset owns the partition, and no other core
      executes one for it; with concurrent reads off the same holds for reads, and with both off for either. */
  lemma ExclusiveExecution(states: seq<State>, i: nat, t: nat, u: nat, p: nat)
    requires Run(states) && i < |states| && t < |states[i].cores| && u < |states[i].cores|
    requires forall c | c in [states[i].cores[t], states[i].cores[u]] ::
               && c.Executing? && c.partition == p && !c.op.Unknown?
               && (c.op.Read? ==> !states[0].mode.concurrentRead)
               && (!c.op.Read? ==> !states[0].mode.concurrentWrite)
    ensures t == u && p < |states[i].owners| && states[i].owners[p] == t
  {
    hide Run;
    RunKeeps(states, i);
    assert states[i].cores[t] in [states[i].cores[t], states[i].cores[u]];
    assert states[i].cores[u] in [states[i].cores[t], states[i].cores[u]];
  }

  /** The tables that a core works on: that of its request's partition, or all of them in a reset. */
  predicate Touches(core: Core, p: nat) {
    core.Executing? && (core.op.Reset? || (core.partition == p && !core.op.Unknown?))
  }

  /** Two cores work on one table only if one of them executes a reset, or one of them a read where concurrent reads are
      on or a change where concurrent writes are. */
  lemma TablesTouchedByOne(states: seq<State>, i: nat, t: nat, u: nat, p: nat)
    requires Run(states) && i < |states| && t < |states[i].cores| && u < |states[i].cores| && t != u
    requires Touches(states[i].cores[t], p) && Touches(states[i].cores[u], p)
    ensures var a, b := states[i].cores[t].op, states[i].cores[u].op;
            || a.Reset? || b.Reset? || (states[0].mode.concurrentRead && (a.Read? || b.Read?))
            || (states[0].mode.concurrentWrite && (a.Write? || b.Write?))
  {
    hide Run;
    RunKeeps(states, i);
  }

  /** Two cores that own a partition each. */
  ghost function Two(a: Core, b: Core): State {
    State(Mode(false, false), [0, 1], [[], []], [a, b], multiset{}, multiset{}, multiset{})
  }

  lemma TwoShaped(a: Core, b: Core)
    requires forall core | core in [a, b] :: core.Idle? || ((core.Serving? || core.Executing?) && core.partition < 2)
    ensures Shaped(Two(a, b))
  {
    assert a in [a, b] && b in [a, b];
  }

  lemma TwoStep(a: Core, b: Core, t: nat, core: Core)
    requires t < 2
    requires forall core | core in [a, b] :: core.Idle? || ((core.Serving? || core.Executing?) && core.partition < 2)
    requires var before := [a, b][t];
             (before.Idle? && core.Serving? && core.partition < 2)
             || (before.Serving? && before.partition == t && core == Executing(t, before.op))
    ensures Next(Two(a, b), Two(if t == 0 then core else a, if t == 1 then core else b))
  {
    TwoShaped(a, b);
    hide Shaped;
    var s, before := Two(a, b), [a, b][t];
    var e := if before.Idle? then Receive(t, core.partition, core.op) else CheckOwner(t);
    assert Enabled(s, e);
    assert After(s, e) == Two(if t == 0 then core else a, if t == 1 then core else b);
  }

  /** A reset that the owner of one partition executes meets a write on the partition of another core. */
  lemma ResetMeetsWrite() returns (states: seq<State>)
    ensures Run(states) && |states| == 5 && states[0].mode == Mode(false, false)
    ensures states[4].cores == [Executing(0, Reset), Executing(1, Write)]
    ensures Touches(states[4].cores[0], 1) && Touches(states[4].cores[1], 1)
  {
    hide Init, Shaped, Next, Two;
    TwoIdle();
    TwoStep(Idle, Idle, 0, Serving(0, Reset));
    TwoStep(Serving(0, Reset), Idle, 0, Executing(0, Reset));
    TwoStep(Executing(0, Reset), Idle, 1, Serving(1, Write));
    TwoStep(Executing(0, Reset), Serving(1, Write), 1, Executing(1, Write));
    TwoCores(Executing(0, Reset), Executing(1, Write));
    states := [Two(Idle, Idle), Two(Serving(0, Reset), Idle), Two(Executing(0, Reset), Idle),
               Two(Executing(0, Reset), Serving(1, Write)), Two(Executing(0, Reset), Executing(1, Write))];
  }

  lemma TwoIdle()
    ensures Init(Two(Idle, Idle)) && Two(Idle, Idle).mode == Mode(false, false)
  {
    TwoShaped(Idle, Idle);
  }

  lemma TwoCores(a: Core, b: Core)
    ensures Two(a, b).cores == [a, b]
  {
  }

  /** A change is asked for exactly if the partition belongs to another core at that point. */
  lemma AskedIfNew(s: State, e: Event, c: Change)
    requires Enabled(s, e)
    ensures After(s, e).issued[c] ==
            s.issued[c] + if e.Ask? && e.change == c && s.owners[c.partition] != c.lcore then 1 else 0
  {
  }

  /** Queues are those of sixteen cells: they never hold more than fifteen changes, and a change that finds fifteen is
      lost. */
  lemma {:induction false} QueuesHoldFifteen(states: seq<State>, i: nat)
    requires Run(states) && i < |states|
    ensures forall q | 0 <= q < |states[i].queues| :: |states[i].queues[q]| <= 15
  {
    if 0 < i {
      QueuesHoldFifteen(states, i - 1);
      assert Next(states[i - 1], states[i]);
      var e :| Enabled(states[i - 1], e) && states[i] == After(states[i - 1], e);
      OneQueueGrows(states[i - 1], e);
    }
  }

  lemma OneQueueGrows(s: State, e: Event)
    requires Enabled(s, e) && forall q | 0 <= q < |s.queues| :: |s.queues[q]| <= 15
    ensures forall q | 0 <= q < |After(s, e).queues| :: |After(s, e).queues[q]| <= 15
    ensures e.Post? || e.Redirect? ==>
              var c := s.cores[e.t].change;
              var q := s.owners[c.partition];
              if |s.queues[q]| == 15 then After(s, e).queues == s.queues && After(s, e).lost == s.lost + multiset{c}
              else After(s, e).queues == s.queues[q := s.queues[q] + [c]] && After(s, e).lost == s.lost
  {
    assert CoreShaped(s, s.cores[e.t]);
  }

  /** As long as no queue has been full, every change asked for is waiting, in the hands of a core, or applied. */
  lemma ChangesArrive(states: seq<State>, i: nat)
    requires Run(states) && i < |states| && forall k | 0 <= k < i :: HasRoom(states[k])
    ensures forall c: Change ::
              states[i].issued[c] ==
                  AllQueued(states[i].queues, c) + AllInFlight(states[i].cores, c) + states[i].applied[c]
  {
    hide Run, Owns;
    RunKeeps(states, i);
    forall c: Change
      ensures states[i].issued[c] ==
                AllQueued(states[i].queues, c) + AllInFlight(states[i].cores, c) + states[i].applied[c]
    {
      assert ConservedOne(states[i], c);
    }
  }
}
