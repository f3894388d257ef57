/**
 The ring that carries ownership changes from any core to one: producers take turns under a spin lock, the single
 consumer takes none, and every read and write of the shared words is a step of its own.
 */
module HandOverQueue {
  import opened Words

  const CAPACITY: int := 16

  datatype Producer<T> =
    | Out
    | Trying(v: T)            // spins on tail_lock_
    | In(v: T)                // holds the lock
    | Room(v: T, tail: nat)   // has seen that the ring is not full
    | Stored(v: T, tail: nat) // has written the item
    | Leaving(ok: bool)       // has published it, or found the ring full

  datatype Consumer<T> =
    | Resting
    | Seen(head: nat)         // has seen that the ring is not empty
    | Taken(head: nat, v: T)  // has read the item

  /** `sent` and `got` record everything ever published and taken; no step looks at them. */
  datatype State<T> = State(items: seq<T>, head: nat, tail: nat, locked: bool, producers: seq<Producer<T>>,
                            consumer: Consumer<T>, sent: seq<T>, got: seq<T>)

  datatype Event<T> =
    | Enter(p: nat, v: T)
    | Lock(p: nat)
    | CheckFull(p: nat)
    | Store(p: nat)
    | Publish(p: nat)
    | Unlock(p: nat)
    | CheckEmpty
    | Take
    | Advance

  function Following(i: nat): nat {
    if i + 1 == CAPACITY then 0 else i + 1
  }

  ghost predicate Enabled<T>(s: State<T>, e: Event<T>) {
    match e
    case Enter(p, _) => p < |s.producers| && s.producers[p].Out?
    case Lock(p) => p < |s.producers| && s.producers[p].Trying? && !s.locked
    case CheckFull(p) => p < |s.producers| && s.producers[p].In?
    case Store(p) => p < |s.producers| && s.producers[p].Room? && s.producers[p].tail < |s.items|
    case Publish(p) => p < |s.producers| && s.producers[p].Stored?
    case Unlock(p) => p < |s.producers| && s.producers[p].Leaving?
    case CheckEmpty => s.consumer.Resting?
    case Take => s.consumer.Seen? && s.consumer.head < |s.items|
    case Advance => s.consumer.Taken?
  }

  ghost function After<T>(s: State<T>, e: Event<T>): State<T>
    requires Enabled(s, e)
  {
    match e
    case Enter(p, v) => s.(producers := s.producers[p := Trying(v)])
    case Lock(p) => s.(locked := true, producers := s.producers[p := In(s.producers[p].v)])
    case CheckFull(p) =>
      if Following(s.tail) == s.head then s.(producers := s.producers[p := Leaving(false)])
      else s.(producers := s.producers[p := Room(s.producers[p].v, s.tail)])
    case Store(p) =>
      var t := s.producers[p];
      s.(items := s.items[t.tail := t.v], producers := s.producers[p := Stored(t.v, t.tail)])
    case Publish(p) =>
      var t := s.producers[p];
      s.(tail := Following(t.tail), producers := s.producers[p := Leaving(true)], sent := s.sent + [t.v])
    case Unlock(p) => s.(locked := false, producers := s.producers[p := Out])
    case CheckEmpty => if s.head == s.tail then s else s.(consumer := Seen(s.head))
    case Take => s.(consumer := Taken(s.consumer.head, s.items[s.consumer.head]))
    case Advance => s.(head := Following(s.consumer.head), consumer := Resting, got := s.got + [s.consumer.v])
  }

  ghost predicate Init<T(!new)>(s: State<T>) {
    && |s.items| == CAPACITY && s.head == s.tail == 0 && !s.locked && s.consumer == Resting
    && (forall p | 0 <= p < |s.producers| :: s.producers[p] == Out) && s.sent == [] && s.got == []
  }

  ghost predicate Run<T(!new)>(states: seq<State<T>>) {
    && 0 < |states| && Init(states[0])
    && forall i {:trigger Next(states[i - 1], states[i])} | 0 < i < |states| ::
         Next(states[i - 1], states[i])
  }

  ghost predicate Next<T(!new)>(s: State<T>, s': State<T>) {
    exists e :: Enabled(s, e) && s' == After(s, e)
  }

  // ---------- The invariant ----------

  ghost predicate Inside<T>(t: Producer<T>) {
    !t.Out? && !t.Trying?
  }

  /** The ring holds what was sent and not yet got, in order. */
  ghost predicate Holds<T>(items: seq<T>, sent: seq<T>, got: seq<T>) {
    && |items| == CAPACITY && |got| <= |sent| < |got| + CAPACITY
    && forall k | |got| <= k < |sent| :: items[k % CAPACITY] == sent[k]
  }

  ghost predicate ProducerOk<T>(s: State<T>, t: Producer<T>) {
    match t
    case Room(_, tail) => tail == s.tail && |s.sent| + 1 < |s.got| + CAPACITY
    case Stored(v, tail) => tail == s.tail < |s.items| && |s.sent| + 1 < |s.got| + CAPACITY && s.items[tail] == v
    case _ => true
  }

  ghost predicate Inv<T>(s: State<T>) {
    && Holds(s.items, s.sent, s.got) && s.got <= s.sent
    && s.head == |s.got| % CAPACITY && s.tail == |s.sent| % CAPACITY
    && (forall p | 0 <= p < |s.producers| :: ProducerOk(s, s.producers[p]))
    && (forall p, q | 0 <= p < q < |s.producers| :: !(Inside(s.producers[p]) && Inside(s.producers[q])))
    && (forall p | 0 <= p < |s.producers| && Inside(s.producers[p]) :: s.locked)
    && match s.consumer
       case Resting => true
       case Seen(head) => head == s.head && |s.got| < |s.sent|
       case Taken(head, v) => head == s.head && |s.got| < |s.sent| && v == s.sent[|s.got|]
  }

  lemma FollowingCounts(n: nat)
    ensures Following(n % CAPACITY) == (n + 1) % CAPACITY
  {
  }

  /** The ring looks full exactly when it holds one item less than it has cells, and empty when it holds none. */
  lemma FullAndEmpty(got: nat, sent: nat)
    requires got <= sent < got + CAPACITY
    ensures Following(sent % CAPACITY) == got % CAPACITY <==> sent + 1 == got + CAPACITY
    ensures got % CAPACITY == sent % CAPACITY <==> got == sent
  {
  }

  lemma StepKeepsInv<T>(s: State<T>, e: Event<T>)
    requires Inv(s) && Enabled(s, e)
    ensures Inv(After(s, e))
  {
    hide Holds, Following;
    HoldsWhat(s.items, s.sent, s.got);
    FullAndEmpty(|s.got|, |s.sent|);
    FollowingCounts(|s.sent|);
    FollowingCounts(|s.got|);
    if e.Store? {
      HoldsStored(s.items, s.sent, s.got, s.producers[e.p].v);
    } else if e.Publish? {
      HoldsSent(s.items, s.sent, s.got, s.producers[e.p].v);
    } else if e.Advance? {
      HoldsGot(s.items, s.sent, s.got);
    }
  }

  lemma HoldsWhat<T>(items: seq<T>, sent: seq<T>, got: seq<T>)
    requires Holds(items, sent, got)
    ensures |items| == CAPACITY && |got| <= |sent| < |got| + CAPACITY
    ensures |got| < |sent| ==> items[|got| % CAPACITY] == sent[|got|]
  {
  }

  lemma HoldsStored<T>(items: seq<T>, sent: seq<T>, got: seq<T>, v: T)
    requires Holds(items, sent, got)
    ensures |items| == CAPACITY && Holds(items[|sent| % CAPACITY := v], sent, got)
  {
  }

  lemma HoldsSent<T>(items: seq<T>, sent: seq<T>, got: seq<T>, v: T)
    requires Holds(items, sent, got) && |sent| + 1 < |got| + CAPACITY && items[|sent| % CAPACITY] == v
    ensures Holds(items, sent + [v], got)
  {
  }

  lemma HoldsGot<T>(items: seq<T>, sent: seq<T>, got: seq<T>)
    requires Holds(items, sent, got) && |got| < |sent|
    ensures Holds(items, sent, got + [sent[|got|]])
  {
  }

  lemma {:induction false} RunKeepsInv<T(!new)>(states: seq<State<T>>, i: nat)
    requires Run(states) && i < |states|
    ensures Inv(states[i])
  {
    hide Inv;
    if i == 0 {
      InitOk(states[0]);
    } else {
      RunKeepsInv(states, i - 1);
      assert Next(states[i - 1], states[i]);
      var e :| Enabled(states[i - 1], e) && states[i] == After(states[i - 1], e);
      StepKeepsInv(states[i - 1], e);
    }
  }

  lemma InitOk<T(!new)>(s: State<T>)
    requires Init(s)
    ensures Inv(s)
  {
  }

  // ---------- The guarantees ----------

  /** Whatever the interleaving, items come out in the order in which they were published, none lost, none twice; no
      two producers are inside at once. */
  lemma FirstInFirstOut<T(!new)>(states: seq<State<T>>, i: nat)
    requires Run(states) && i < |states|
    ensures states[i].got <= states[i].sent && |states[i].sent| < |states[i].got| + CAPACITY
    ensures forall p, q | 0 <= p < q < |states[i].producers| ::
              !(Inside(states[i].producers[p]) && Inside(states[i].producers[q]))
  {
    hide Run;
    RunKeepsInv(states, i);
  }

  /** An item is refused exactly when fifteen are waiting at the moment of the check; the consumer finds nothing exactly
      when none is. */
  lemma RefusedExactlyWhenFull<T(!new)>(states: seq<State<T>>, i: nat, p: nat)
    requires Run(states) && i < |states|
    ensures Enabled(states[i], CheckFull(p)) ==>
              (After(states[i], CheckFull(p)).producers[p] == Leaving(false) <==>
                 |states[i].sent| - |states[i].got| == CAPACITY - 1)
    ensures Enabled(states[i], CheckEmpty) ==>
              (After(states[i], CheckEmpty).consumer == Resting <==> states[i].sent == states[i].got)
  {
    hide Run;
    RunKeepsInv(states, i);
    FullAndEmpty(|states[i].got|, |states[i].sent|);
  }
}
