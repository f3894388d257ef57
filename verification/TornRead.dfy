/**
 What a reader of a bucket keeps although it matches no instant: after 2^31 writers, or a multiple of that, the version
 has come round and the end of a read finds it as the begin did.
 */
module TornRead {
  import opened Words
  import opened TableItems
  import opened Seqlock

  // ---------- The scene ----------

  /** The key asked for, with a one-word value, and the slot and the value of another key. */
  const QUERY := Query(Key(1, []), 8, 1, 1)
  const OWN_VEC: U64 := MakeItemVec(1, 0)
  const OTHER_VEC: U64 := MakeItemVec(2, 8)
  const OWN_VALUE: U64 := 5
  const OTHER_VALUE: U64 := 7

  function Contents(vec: U64): map<Loc, U64> {
    map[Slot(0, 0) := vec, Link(0) := 0,
        Word(0, 0) := 8, Word(0, 1) := 1, Word(0, 2) := OWN_VALUE,
        Word(8, 0) := 8, Word(8, 1) := 2, Word(8, 2) := OTHER_VALUE]
  }

  /** The bucket's words, with n of those of the other key's item. */
  function Owner(n: nat): map<Loc, nat> {
    map l | l in {Slot(0, 0), Link(0), Word(0, 0), Word(0, 1), Word(0, 2)} + ItemWords(n) :: 0
  }

  function ItemWords(n: nat): set<Loc> {
    (if 0 < n then {Word(8, 0)} else {}) + (if 1 < n then {Word(8, 1)} else {}) + if 2 < n then {Word(8, 2)} else {}
  }

  const SNAP := Snapshot(Contents(OWN_VEC), Owner(0), 0)

  ghost function Scene(vec: U64, n: nat, sections: nat, inside: bool, reader: Thread, writer: Thread): State {
    State([VersionOf(sections, if inside then Held(1) else Nobody)], Contents(vec), Owner(n), [reader, writer],
          [sections],
          [if inside then Held(1) else Nobody])
  }

  ghost function ReaderAt(seen: seq<U64>): Thread {
    Reading(0, GetReader(QUERY, 0), 0, seen, SNAP)
  }

  // ---------- Steps ----------

  /** A run may go on. */
  lemma Extended(states: seq<State>, e: Event, s: State)
    requires Run(states) && Enabled(states[|states| - 1], e) && s == After(states[|states| - 1], e)
    ensures Run(states + [s])
  {
    var more := states + [s];
    assert Next(states[|states| - 1], s);
    forall i | 0 < i < |more|
      ensures Next(more[i - 1], more[i])
    {
      if i < |states| {
        assert Next(states[i - 1], states[i]);
      }
    }
  }

  /** The words that `get` sees when the slot changes between its two looks at it. */
  const TORN: seq<U64> := [OWN_VEC, 1, 8, OTHER_VEC, 8, OTHER_VALUE]

  /** Where it then stands. */
  function Stand(k: nat): Pc {
    match k
    case 0 => AtSlot(0, 0)
    case 1 => AtHash(0, 0, 0)
    case 2 => AtLengths(0, 0, 0)
    case 3 => AtItem(0, 0)
    case 4 => AtItemLengths(8)
    case 5 => AtValue(8, [], 1, Success)
    case _ => Answer(Success, [OTHER_VALUE])
  }

  lemma StandStep(k: nat)
    requires k < 6
    ensures Step(QUERY, Stand(k), TORN[k]) == Stand(k + 1)
  {
    VecRoundTrip(1, 0);
    VecRoundTrip(2, 8);
  }

  lemma {:induction false} TornCourse(k: nat)
    requires k <= 6
    ensures Drive(QUERY, AtSlot(0, 0), TORN[..k]) == Stand(k)
  {
    hide Stand, Step;
    if k == 0 {
      FirstStand();
    } else {
      TornCourse(k - 1);
      StandStep(k - 1);
      assert TORN[..k][..k - 1] == TORN[..k - 1] && TORN[..k][k - 1] == TORN[k - 1];
    }
  }

  lemma FirstStand()
    ensures Stand(0) == AtSlot(0, 0)
  {
  }

  /** The words whose turn it is, in the state of the slot. */
  lemma TornFetch(k: nat, vec: U64, n: nat)
    requires k < 6 && vec == if k < 3 then OWN_VEC else OTHER_VEC
    ensures FetchOf(QUERY, Stand(k)).Fetch? && At(Contents(vec), FetchOf(QUERY, Stand(k)).loc) == TORN[k]
  {
  }

  // ---------- The steps of the writer ----------

  /** The bucket is well kept whenever nobody is inside, and only the slot ever changes. */
  ghost predicate Tame(s: State) {
    && (s.mem == Contents(OWN_VEC) || s.mem == Contents(OTHER_VEC))
    && (Quiet(s, 0) ==> WellKept(s.mem, s.owner, QUERY, 0, {0}))
  }

  ghost predicate TameRun(states: seq<State>, last: State) {
    Run(states) && states[|states| - 1] == last && forall k | 0 <= k < |states| :: Tame(states[k])
  }

  lemma TameStep(states: seq<State>, e: Event, s: State, s': State)
    requires TameRun(states, s) && Enabled(s, e) && s' == After(s, e) && Tame(s')
    ensures TameRun(states + [s'], s')
  {
    hide Run, Tame, Enabled, After;
    Extended(states, e, s');
  }

  lemma TameScene(vec: U64, n: nat, sections: nat, inside: bool, reader: Thread, writer: Thread)
    requires (vec == OWN_VEC && n <= 3) || (vec == OTHER_VEC && n == 3)
    ensures Tame(Scene(vec, n, sections, inside, reader, writer))
  {
    hide VersionOf;
    VecRoundTrip(1, 0);
    VecRoundTrip(2, 8);
  }

  lemma CallStep()
    ensures var s, e := Scene(OWN_VEC, 0, 0, false, Idle, Idle), Call(0, 0, GetReader(QUERY, 0));
            Enabled(s, e) && After(s, e) == Scene(OWN_VEC, 0, 0, false, Spinning(0, GetReader(QUERY, 0)), Idle)
  {
  }

  lemma BeginStep()
    ensures var s, e := Scene(OWN_VEC, 0, 0, false, Spinning(0, GetReader(QUERY, 0)), Idle), BeginRead(0);
            Enabled(s, e) && After(s, e) == Scene(OWN_VEC, 0, 0, false, ReaderAt([]), Idle)
  {
  }

  lemma FetchStep(k: nat, vec: U64, n: nat, sections: nat)
    requires k < 6 && vec == if k < 3 then OWN_VEC else OTHER_VEC
    ensures var s, e := Scene(vec, n, sections, false, ReaderAt(TORN[..k]), Idle), FetchWord(0);
            Enabled(s, e) && After(s, e) == Scene(vec, n, sections, false, ReaderAt(TORN[..k + 1]), Idle)
  {
    hide FetchOf, Stand, Contents, Drive, VersionOf;
    TornCourse(k);
    TornFetch(k, vec, n);
    assert TORN[..k] + [TORN[k]] == TORN[..k + 1];
  }

  lemma LockSteps(vec: U64, n: nat, sections: nat, reader: Thread)
    ensures var s, e := Scene(vec, n, sections, false, reader, Idle), Want(1, 0);
            Enabled(s, e) && After(s, e) == Scene(vec, n, sections, false, reader, Wanting(0))
    ensures var v := VersionOf(sections, Nobody);
            var s, e := Scene(vec, n, sections, false, reader, Wanting(0)), Sample(1);
            Enabled(s, e) && After(s, e) == Scene(vec, n, sections, false, reader, Sampled(0, v))
    ensures var v := VersionOf(sections, Nobody);
            var s, e := Scene(vec, n, sections, false, reader, Sampled(0, v)), CompareAndSwap(1);
            Enabled(s, e) && After(s, e) == Scene(vec, n, sections, true, reader, Writing(0))
  {
    hide Contents, Owner;
    Unlocked(sections, Nobody);
  }

  lemma ClaimStep(vec: U64, n: nat, sections: nat, reader: Thread)
    requires n < 3
    ensures var s, e := Scene(vec, n, sections, true, reader, Writing(0)), Claim(1, Word(8, n));
            Enabled(s, e) && After(s, e) == Scene(vec, n + 1, sections, true, reader, Writing(0))
  {
    hide Contents, VersionOf;
    assert Owner(n)[Word(8, n) := 0] == Owner(n + 1);
  }

  lemma WriteStep(vec: U64, sections: nat, reader: Thread)
    ensures var s, e := Scene(vec, 3, sections, true, reader, Writing(0)), Write(1, Slot(0, 0), OTHER_VEC);
            Enabled(s, e) && After(s, e) == Scene(OTHER_VEC, 3, sections, true, reader, Writing(0))
  {
    hide VersionOf;
    assert Contents(vec)[Slot(0, 0) := OTHER_VEC] == Contents(OTHER_VEC);
  }

  lemma UnlockSteps(sections: nat, reader: Thread)
    ensures var v := VersionOf(sections, Held(1));
            var s, e := Scene(OTHER_VEC, 3, sections, true, reader, Writing(0)), LoadVersion(1);
            Enabled(s, e) && After(s, e) == Scene(OTHER_VEC, 3, sections, true, reader, Unlocking(0, v))
    ensures var v := VersionOf(sections, Held(1));
            var s, e := Scene(OTHER_VEC, 3, sections, true, reader, Unlocking(0, v)), StoreVersion(1);
            Enabled(s, e) && After(s, e) == Scene(OTHER_VEC, 3, sections + 1, false, reader, Idle)
  {
    hide Contents, Owner;
    Incremented(sections);
  }

  // ---------- The run ----------

  /** The reader has seen the first three words. */
  ghost function Half(vec: U64, n: nat, sections: nat, inside: bool, writer: Thread): State {
    Scene(vec, n, sections, inside, ReaderAt(TORN[..3]), writer)
  }

  lemma HalfRead() returns (states: seq<State>)
    ensures TameRun(states, Half(OWN_VEC, 0, 0, false, Idle))
  {
    hide Tame, Enabled, After, Scene;
    var r := GetReader(QUERY, 0);
    states := [Scene(OWN_VEC, 0, 0, false, Idle, Idle)];
    FirstScene();
    CallStep();
    TameScene(OWN_VEC, 0, 0, false, Spinning(0, r), Idle);
    TameStep(states, Call(0, 0, r), states[0], Scene(OWN_VEC, 0, 0, false, Spinning(0, r), Idle));
    states := states + [Scene(OWN_VEC, 0, 0, false, Spinning(0, r), Idle)];
    BeginStep();
    TameScene(OWN_VEC, 0, 0, false, ReaderAt([]), Idle);
    TameStep(states, BeginRead(0), states[1], Scene(OWN_VEC, 0, 0, false, ReaderAt([]), Idle));
    states := states + [Scene(OWN_VEC, 0, 0, false, ReaderAt([]), Idle)];
    assert TORN[..0] == [];
    for k := 0 to 3
      invariant TameRun(states, Scene(OWN_VEC, 0, 0, false, ReaderAt(TORN[..k]), Idle))
    {
      states := OneFetch(states, k, OWN_VEC, 0, 0);
    }
  }

  lemma FirstScene()
    ensures TameRun([Scene(OWN_VEC, 0, 0, false, Idle, Idle)], Scene(OWN_VEC, 0, 0, false, Idle, Idle))
  {
    TameScene(OWN_VEC, 0, 0, false, Idle, Idle);
  }

  lemma OneFetch(states: seq<State>, k: nat, vec: U64, n: nat, sections: nat) returns (states': seq<State>)
    requires k < 6 && TameRun(states, Scene(vec, n, sections, false, ReaderAt(TORN[..k]), Idle))
    requires if k < 3 then vec == OWN_VEC && n == 0 else vec == OTHER_VEC && n == 3
    ensures TameRun(states', Scene(vec, n, sections, false, ReaderAt(TORN[..k + 1]), Idle))
  {
    hide Tame, Enabled, After, Scene, TameRun;
    var s, s' := Scene(vec, n, sections, false, ReaderAt(TORN[..k]), Idle),
        Scene(vec, n, sections, false, ReaderAt(TORN[..k + 1]), Idle);
    FetchStep(k, vec, n, sections);
    TameScene(vec, n, sections, false, ReaderAt(TORN[..k + 1]), Idle);
    TameStep(states, FetchWord(0), s, s');
    states' := states + [s'];
  }

  /** One step of the writer while the reader waits. */
  lemma WriterStep(states: seq<State>, e: Event, s: State, vec: U64, n: nat, sections: nat, inside: bool,
                   writer: Thread)
    returns (states': seq<State>)
    requires TameRun(states, s) && Enabled(s, e) && After(s, e) == Half(vec, n, sections, inside, writer)
    requires (vec == OWN_VEC && n <= 3) || (vec == OTHER_VEC && n == 3)
    ensures TameRun(states', Half(vec, n, sections, inside, writer))
  {
    hide Tame, Enabled, After, Scene, TameRun;
    TameScene(vec, n, sections, inside, ReaderAt(TORN[..3]), writer);
    TameStep(states, e, s, Half(vec, n, sections, inside, writer));
    states' := states + [Half(vec, n, sections, inside, writer)];
  }

  /** A section of the writer: it claims the words of the other item, if it has not done so, and writes the slot. */
  lemma OneSection(states: seq<State>, vec: U64, n: nat, sections: nat) returns (states': seq<State>)
    requires TameRun(states, Half(vec, n, sections, false, Idle))
    requires (vec == OWN_VEC && n <= 3) || (vec == OTHER_VEC && n == 3)
    ensures TameRun(states', Half(OTHER_VEC, 3, sections + 1, false, Idle))
  {
    hide Tame, Enabled, After, Scene, TameRun, VersionOf;
    var r, v, w := ReaderAt(TORN[..3]), VersionOf(sections, Nobody), VersionOf(sections, Held(1));
    LockSteps(vec, n, sections, r);
    states' := WriterStep(states, Want(1, 0), Half(vec, n, sections, false, Idle), vec, n, sections, false, Wanting(0));
    states' := WriterStep(states', Sample(1), Half(vec, n, sections, false, Wanting(0)), vec, n, sections, false,
                          Sampled(0, v));
    states' := WriterStep(states', CompareAndSwap(1), Half(vec, n, sections, false, Sampled(0, v)), vec, n, sections,
                          true,
                          Writing(0));
    for k := n to 3
      invariant TameRun(states', Half(vec, k, sections, true, Writing(0)))
    {
      ClaimStep(vec, k, sections, r);
      states' := WriterStep(states', Claim(1, Word(8, k)), Half(vec, k, sections, true, Writing(0)), vec, k + 1,
                            sections,
                            true, Writing(0));
    }
    WriteStep(vec, sections, r);
    states' := WriterStep(states', Write(1, Slot(0, 0), OTHER_VEC), Half(vec, 3, sections, true, Writing(0)), OTHER_VEC,
                          3,
                          sections, true, Writing(0));
    UnlockSteps(sections, r);
    states' := WriterStep(states', LoadVersion(1), Half(OTHER_VEC, 3, sections, true, Writing(0)), OTHER_VEC, 3,
                          sections,
                          true, Unlocking(0, w));
    states' := WriterStep(states', StoreVersion(1), Half(OTHER_VEC, 3, sections, true, Unlocking(0, w)), OTHER_VEC, 3,
                          sections + 1, false, Idle);
  }

  /** The end of the read finds the version that its begin found. */
  lemma EndStep(m: nat)
    requires m % TWO_31 == 0
    ensures var s, e := Scene(OTHER_VEC, 3, m, false, ReaderAt(TORN), Idle), EndRead(0);
            Enabled(s, e)
            && After(s, e) == Scene(OTHER_VEC, 3, m, false, Returned(0, GetReader(QUERY, 0), TORN, SNAP, m), Idle)
  {
    hide Contents, Owner, Drive;
    TornCourse(6);
    assert TORN[..6] == TORN;
    VersionsMeet(0, m, Nobody);
  }

  // ---------- What it shows ----------

  /** A reader's course on the memory before the writers, and after the first of them. */
  function SoloStand(vec: U64, k: nat): Pc {
    if vec == OWN_VEC then
      match k
      case 0 => AtSlot(0, 0)
      case 1 => AtHash(0, 0, 0)
      case 2 => AtLengths(0, 0, 0)
      case 3 => AtItem(0, 0)
      case 4 => AtItemLengths(0)
      case 5 => AtValue(0, [], 1, Success)
      case _ => Answer(Success, [OWN_VALUE])
    else
      match k
      case 0 => AtSlot(0, 0)
      case 1 => AtLink(0)
      case _ => Answer(NotFound, [])
  }

  lemma SoloStep(vec: U64, k: nat)
    requires (vec == OWN_VEC || vec == OTHER_VEC) && FetchOf(QUERY, SoloStand(vec, k)).Fetch?
    ensures Step(QUERY, SoloStand(vec, k), At(Contents(vec), FetchOf(QUERY, SoloStand(vec, k)).loc)) ==
              SoloStand(vec, k + 1)
  {
    VecRoundTrip(1, 0);
    VecRoundTrip(2, 8);
  }

  lemma {:induction false} SoloCourse(vec: U64, alone: seq<U64>)
    requires vec == OWN_VEC || vec == OTHER_VEC
    requires Follows(GetReader(QUERY, 0), Contents(vec), alone)
    ensures Drive(QUERY, AtSlot(0, 0), alone) == SoloStand(vec, |alone|)
  {
    hide SoloStand, Step, FetchOf, Contents;
    if alone == [] {
      SoloStart(vec);
    } else {
      var n := |alone| - 1;
      assert Follows(GetReader(QUERY, 0), Contents(vec), alone[..n]) by {
        forall i | 0 <= i < n
          ensures alone[..n][..i] == alone[..i]
        {
        }
      }
      SoloCourse(vec, alone[..n]);
      SoloStep(vec, n);
    }
  }

  lemma SoloStart(vec: U64)
    ensures SoloStand(vec, 0) == AtSlot(0, 0)
  {
  }

  /** Nobody who runs alone gets the other key's value. */
  lemma SoloAnswer(vec: U64, alone: seq<U64>)
    requires vec == OWN_VEC || vec == OTHER_VEC
    requires Follows(GetReader(QUERY, 0), Contents(vec), alone)
    ensures Drive(QUERY, AtSlot(0, 0), alone) != Answer(Success, [OTHER_VALUE])
  {
    hide Step, FetchOf, Contents, Drive;
    SoloCourse(vec, alone);
  }

  /** The two looks at the slot contradict each other. */
  lemma NoMemory(mem: map<Loc, U64>)
    ensures !Follows(GetReader(QUERY, 0), mem, TORN)
  {
    hide Drive, Step, Contents;
    TornCourse(0);
    TornCourse(3);
    assert TORN[0] != TORN[3];
  }

  /** What a reader that runs alone in some state of a run answers. */
  ghost predicate AnswersAlone(s: State, answer: Pc) {
    exists alone :: Follows(GetReader(QUERY, 0), s.mem, alone) && GetReader(QUERY, 0)(alone) == Finish
                    && Drive(QUERY, AtSlot(0, 0), alone) == answer
  }

  /** After any positive multiple of 2^31 writers `get` may return the other key's value, which its own key never had:
      it has seen words that no state of the memory holds. */
  lemma TornGet(m: nat) returns (states: seq<State>)
    requires Overtaken(0, m)
    ensures Run(states) && 0 < |states| && |states[|states| - 1].threads| == 2
    ensures states[|states| - 1].threads[0] == Returned(0, GetReader(QUERY, 0), TORN, SNAP, m)
    ensures Drive(QUERY, AtSlot(0, 0), TORN) == Answer(Success, [OTHER_VALUE])
    ensures forall mem :: !Follows(GetReader(QUERY, 0), mem, TORN)
    ensures forall s | s in states ::
              && (Quiet(s, 0) ==> WellKept(s.mem, s.owner, QUERY, 0, {0}))
              && !AnswersAlone(s, Answer(Success, [OTHER_VALUE]))
  {
    hide Enabled, After, Contents, Drive, WellKept, Run, Follows, Stand;
    states := ManySections(m);
    states := LastWords(states, m);
    RunStarts(states);
    TornAnswer();
    forall mem
      ensures !Follows(GetReader(QUERY, 0), mem, TORN)
    {
      NoMemory(mem);
    }
    forall s | s in states
      ensures (Quiet(s, 0) ==> WellKept(s.mem, s.owner, QUERY, 0, {0}))
              && !AnswersAlone(s, Answer(Success, [OTHER_VALUE]))
    {
      NotAlone(s);
    }
  }

  lemma RunStarts(states: seq<State>)
    requires Run(states)
    ensures 0 < |states|
  {
  }

  lemma TornAnswer()
    ensures Drive(QUERY, AtSlot(0, 0), TORN) == Answer(Success, [OTHER_VALUE])
  {
    hide Drive;
    TornCourse(6);
    assert TORN[..6] == TORN;
  }

  lemma NotAlone(s: State)
    requires Tame(s)
    ensures !AnswersAlone(s, Answer(Success, [OTHER_VALUE]))
  {
    hide Drive, Follows, Contents, WellKept;
    forall alone | Follows(GetReader(QUERY, 0), s.mem, alone)
      ensures Drive(QUERY, AtSlot(0, 0), alone) != Answer(Success, [OTHER_VALUE])
    {
      SoloAnswer(if s.mem == Contents(OWN_VEC) then OWN_VEC else OTHER_VEC, alone);
    }
  }

  /** A read of `get` that was kept, with n sections of writers between its begin and its end. */
  ghost predicate KeptGet(states: seq<State>, i: nat, t: nat, q: Query, n: nat) {
    && Run(states) && i < |states| && t < |states[i].threads| && states[i].threads[t].Returned?
    && var th := states[i].threads[t];
       && th.reader == GetReader(q, th.b) && th.ended == th.snap.sections + n
       && forall k | 0 <= k <= i && th.b < |states[k].holders| && states[k].holders[th.b] == Nobody ::
            exists chain :: WellKept(states[k].mem, states[k].owner, q, th.b, chain)
  }

  /** What it has seen is the memory of one instant of its call. */
  ghost predicate MatchesInstant(states: seq<State>, i: nat, t: nat) {
    && i < |states| && t < |states[i].threads| && states[i].threads[t].Returned?
    && var th := states[i].threads[t];
       exists j: nat :: Instant(states, i, t, th.b, th.snap, j) && Follows(th.reader, states[j].mem, th.seen)
  }

  /** Whether every kept read matches an instant depends on the number of sections alone. */
  lemma SectionsDecide(n: nat)
    ensures (forall states, i, t, q | KeptGet(states, i, t, q, n) :: MatchesInstant(states, i, t)) <==> !Overtaken(0, n)
  {
    hide KeptGet, MatchesInstant;
    if Overtaken(0, n) {
      var states := TornGet(n);
      TornIsKept(states, n);
    } else {
      forall states, i, t, q | KeptGet(states, i, t, q, n)
        ensures MatchesInstant(states, i, t)
      {
        KeptMatches(states, i, t, q, n);
      }
    }
  }

  lemma KeptMatches(states: seq<State>, i: nat, t: nat, q: Query, n: nat)
    requires KeptGet(states, i, t, q, n) && !Overtaken(0, n)
    ensures MatchesInstant(states, i, t)
  {
    hide Run, Follows, WellKept, Drive, Instant;
    var j := GetIsAtomic(states, i, t, q);
  }

  lemma TornIsKept(states: seq<State>, n: nat)
    requires Run(states) && 0 < |states| && |states[|states| - 1].threads| == 2
    requires states[|states| - 1].threads[0] == Returned(0, GetReader(QUERY, 0), TORN, SNAP, n)
    requires forall mem :: !Follows(GetReader(QUERY, 0), mem, TORN)
    requires forall s | s in states && Quiet(s, 0) :: WellKept(s.mem, s.owner, QUERY, 0, {0})
    ensures KeptGet(states, |states| - 1, 0, QUERY, n) && !MatchesInstant(states, |states| - 1, 0)
  {
    hide Run, Follows, WellKept, Drive, Instant;
    var i := |states| - 1;
    forall k | 0 <= k <= i && 0 < |states[k].holders| && states[k].holders[0] == Nobody
      ensures exists chain :: WellKept(states[k].mem, states[k].owner, QUERY, 0, chain)
    {
      assert states[k] in states && Quiet(states[k], 0);
    }
    var th := states[i].threads[0];
    assert forall j: nat | j < |states| :: !Follows(th.reader, states[j].mem, th.seen);
    assert forall j: nat | Instant(states, i, 0, th.b, th.snap, j) :: j < |states| by { InstantInside(states, i); }
  }

  lemma InstantInside(states: seq<State>, i: nat)
    ensures forall j: nat, t, b, snap | Instant(states, i, t, b, snap, j) :: j < |states|
  {
  }

  lemma ManySections(m: nat) returns (states: seq<State>)
    requires 0 < m
    ensures TameRun(states, Half(OTHER_VEC, 3, m, false, Idle))
  {
    hide TameRun, Half;
    states := HalfRead();
    states := OneSection(states, OWN_VEC, 0, 0);
    for k := 1 to m
      invariant TameRun(states, Half(OTHER_VEC, 3, k, false, Idle))
    {
      states := OneSection(states, OTHER_VEC, 3, k);
    }
  }

  lemma LastWords(states: seq<State>, m: nat) returns (states': seq<State>)
    requires m % TWO_31 == 0 && TameRun(states, Half(OTHER_VEC, 3, m, false, Idle))
    ensures TameRun(states', Scene(OTHER_VEC, 3, m, false, Returned(0, GetReader(QUERY, 0), TORN, SNAP, m), Idle))
  {
    hide TameRun, Scene, Tame, Enabled, After;
    states' := states;
    for k := 3 to 6
      invariant TameRun(states', Scene(OTHER_VEC, 3, m, false, ReaderAt(TORN[..k]), Idle))
    {
      states' := OneFetch(states', k, OTHER_VEC, 3, m);
    }
    assert TORN[..6] == TORN;
    EndStep(m);
    var th := Returned(0, GetReader(QUERY, 0), TORN, SNAP, m);
    TameScene(OTHER_VEC, 3, m, false, th, Idle);
    TameStep(states', EndRead(0), Scene(OTHER_VEC, 3, m, false, ReaderAt(TORN), Idle),
             Scene(OTHER_VEC, 3, m, false, th, Idle));
    states' := states' + [Scene(OTHER_VEC, 3, m, false, th, Idle)];
  }
}
