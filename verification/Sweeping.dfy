/**
 Sweeping of stale slots: slots keep 48-bit offsets into the log, so a slot must have been emptied before the log has
 moved on by 2^48 bytes.  A sweep of the buckets whose turn has come follows every append.
 */
module Sweeping {
  import opened Words
  import opened Remainders
  import opened Powers
  import opened TableItems
  import CL = CircularLog

  const MAX_BLOCK: int := CL.HEADER + 16 + 8 * MAX_KEY_WORDS + 8 * MAX_VALUE_WORDS

  datatype Slot = Slot(bucket: nat, at: nat)

  /** The true offset of the item of every slot that is not empty. */
  type Offsets = map<Slot, nat>

  /** `numBuckets` sweeps of one bucket each take the tail half way around the 48-bit offset space. */
  ghost predicate Laid(nb: nat, stride: nat)
    ensures Laid(nb, stride) ==> 1 <= nb && TWO_16 <= stride
  {
    1 <= nb && TWO_16 <= stride && nb * stride == TWO_47
  }

  /** The same with more than one bucket. */
  ghost predicate Strided(nb: nat, stride: nat)
    ensures Strided(nb, stride) ==> 2 <= nb && TWO_16 <= stride
  {
    2 <= nb && Laid(nb, stride)
  }

  /** The smallest shift that brings half the offset space down to the number of buckets. */
  method ComputeShift(logBuckets: nat) returns (rshift: nat)
    requires logBuckets <= 31
    ensures rshift + logBuckets == 47 && Laid(Pow2(logBuckets), Pow2(rshift))
    ensures Strided(Pow2(logBuckets), Pow2(rshift)) <==> 1 <= logBuckets
  {
    hide Pow2;
    Pow2Is47();
    rshift := 0;
    var half := TWO_47; // ((kItemOffsetMask + 1) >> 1) >> rshift
    while half > Pow2(logBuckets)
      invariant rshift <= 47 - logBuckets && half == Pow2(47 - rshift)
      decreases 47 - rshift
    {
      Pow2Grows(47 - rshift, logBuckets);
      Pow2Doubles(47 - rshift);
      half := half / 2;
      rshift := rshift + 1;
    }
    Pow2Grows(logBuckets, 47 - rshift);
    Pow2Adds(logBuckets, rshift);
    Pow2Grows(16, rshift);
    Pow2Grows(0, logBuckets);
  }

  /** The offset is not older than every sweep so far of its bucket: sweep k belongs to bucket k mod nb and
      comes when the tail has passed k strides. */
  ghost predicate Swept(o: nat, b: nat, sweeps: nat, size: nat, nb: nat, stride: nat)
    requires 0 < nb
  {
    forall k: nat {:trigger SweepEnd(k, stride)} | k < sweeps && Turn(k, nb) == b :: SweepEnd(k, stride) <= o + size
  }

  ghost function SweepEnd(k: nat, stride: nat): nat {
    (k + 1) * stride
  }

  /** Among any nb consecutive sweeps one is of bucket b. */
  lemma SweepOf(from: nat, b: nat, nb: nat) returns (k: nat)
    requires b < nb
    ensures from <= k < from + nb && Turn(k, nb) == b
  {
    var d := (b - from) % nb;
    k := from + d;
    assert b - from == (b - from) / nb * nb + d;
    assert k == (-((b - from) / nb)) * nb + b;
    ModUnique(k, nb, -((b - from) / nb), b);
  }

  /** A slot that survived its sweeps is less than 2^48 bytes behind the tail, with room for one more append. */
  lemma Horizon(o: nat, b: nat, sweeps: nat, tail: nat, size: nat, nb: nat, stride: nat)
    requires Strided(nb, stride) && b < nb && Swept(o, b, sweeps, size, nb, stride)
    requires tail < SweepEnd(sweeps, stride) + MAX_BLOCK && 2 * size <= TWO_47
    ensures tail < o + TWO_48
  {
    if nb <= sweeps {
      var k := SweepOf(sweeps - nb, b, nb);
      assert SweepEnd(k, stride) <= o + size;
      Steps(sweeps, k + nb + 1, stride);
      assert (k + 1 + nb) * stride == SweepEnd(k, stride) + TWO_47;
    } else {
      Steps(sweeps, nb, stride);
    }
  }

  /** Strides passed by a tail, and the bucket whose turn a stride is: `(tail >> rshift_) & num_buckets_mask_`. */
  function Counter(tail: nat, stride: nat): nat
    requires 0 < stride
  {
    tail / stride
  }

  /** Sweeps that an offset must have survived: one for each stride passed, but with one bucket none, ever. */
  ghost function SweepsDone(tail: nat, nb: nat, stride: nat): nat
    requires 0 < stride
  {
    if nb == 1 then 0 else Counter(tail, stride)
  }

  function Turn(c: nat, nb: nat): (b: nat)
    requires 0 < nb
    ensures b < nb
  {
    c % nb
  }

  /** The bucket counter of a masked tail is the counter of the tail itself, modulo the number of buckets. */
  lemma MaskedCounter(tail: nat, nb: nat, stride: nat)
    requires Laid(nb, stride)
    ensures Turn(Counter(tail % TWO_48, stride), nb) == Turn(Counter(tail, stride), nb)
  {
    var q := tail / TWO_48;
    assert q * (2 * (nb * stride)) == q * 2 * nb * stride;
    assert tail == tail % TWO_48 + q * 2 * nb * stride;
    ModShift(tail % TWO_48, stride, q * 2 * nb);
    ModShift(tail % TWO_48 / stride, nb, q * 2);
    assert q * 2 * nb == (q * 2) * nb;
  }

  lemma NextCounter(c: nat, nb: nat)
    requires 0 < nb
    ensures Turn(Turn(c, nb) + 1, nb) == Turn(c + 1, nb)
  {
    assert c + 1 == c % nb + 1 + c / nb * nb;
    ModShift(c % nb + 1, nb, c / nb);
  }

  lemma TurnsApart(c: nat, d: nat, nb: nat)
    requires 0 < nb && c <= d < c + nb
    ensures Turn(c, nb) == Turn(d, nb) ==> c == d
  {
    if c < d {
      WindowInjective(c, d, nb);
    }
  }

  /** One append passes fewer strides than there are buckets. */
  lemma AppendPasses(oldTail: nat, tail: nat, nb: nat, stride: nat)
    requires Strided(nb, stride) && oldTail <= tail <= oldTail + MAX_BLOCK
    ensures Counter(oldTail, stride) <= Counter(tail, stride) < Counter(oldTail, stride) + nb
  {
    var p, q := oldTail / stride, tail / stride;
    assert p * stride <= oldTail < p * stride + stride && q * stride <= tail < q * stride + stride by {
      assert oldTail == p * stride + oldTail % stride;
      assert tail == q * stride + tail % stride;
    }
    Steps(q, p, stride);
    Steps(p + nb - 1, q, stride);
    assert (p + nb - 1) * stride == p * stride + TWO_47 - stride;
    HalfBuckets(nb, stride);
  }

  lemma HalfBuckets(nb: nat, stride: nat)
    requires Strided(nb, stride)
    ensures stride <= TWO_47 / 2
  {
    if stride > TWO_47 / 2 {
      Steps(1, nb, stride);
    }
  }

  // ---------- One cleanup ----------

  /** `cleanup_bucket` sweeps a bucket: going round from the bucket of the old tail, it comes before that of the new
      one. */
  predicate ItsTurn(b: nat, oldTail: nat, tail: nat, nb: nat, stride: nat)
    requires 0 < nb && 0 < stride
  {
    var first := Turn(Counter(oldTail, stride), nb);
    (b - first) % nb < (Turn(Counter(tail, stride), nb) - first) % nb
  }

  /** A cleanup empties the slots of the buckets it sweeps that do not pass the validity test, and no others. */
  ghost predicate Stays(slot: Slot, o: nat, oldTail: nat, tail: nat, size: nat, nb: nat, stride: nat)
    requires 0 < nb && 0 < stride
  {
    ItsTurn(slot.bucket, oldTail, tail, nb, stride) ==> CL.IsValid(tail, o % TWO_48, size)
  }

  /** Going round from a bucket, each bucket comes once. */
  lemma Round(first: nat, n: nat, b: nat, nb: nat)
    requires first < nb && n < nb && b < nb
    ensures b == Turn(first + n, nb) <==> (b - first) % nb == n
  {
    var d := (b - first) % nb;
    assert b == first + d + (b - first) / nb * nb;
    ModShift(first + d, nb, (b - first) / nb);
    ModUnique(b, nb, 0, b);
    if n != d {
      if n < d {
        WindowInjective(first + n, first + d, nb);
      } else {
        WindowInjective(first + d, first + n, nb);
      }
    }
  }

  lemma TurnDifference(c: nat, d: nat, nb: nat)
    requires 0 < nb && c <= d < c + nb
    ensures (Turn(d, nb) - Turn(c, nb)) % nb == d - c
  {
    ModUnique(d - c, nb, 0, d - c);
    assert d % nb - c % nb == d - c + (c / nb - d / nb) * nb;
    ModShift(d - c, nb, c / nb - d / nb);
  }

  /** With more than one bucket every stride that the tail has passed is the turn of a bucket that is swept. */
  lemma TurnsTaken(c: nat, oldTail: nat, tail: nat, nb: nat, stride: nat)
    requires Strided(nb, stride) && oldTail <= tail <= oldTail + MAX_BLOCK
    requires Counter(oldTail, stride) <= c < Counter(tail, stride)
    ensures ItsTurn(Turn(c, nb), oldTail, tail, nb, stride)
  {
    hide Turn, Counter;
    AppendPasses(oldTail, tail, nb, stride);
    TurnDifference(Counter(oldTail, stride), c, nb);
    TurnDifference(Counter(oldTail, stride), Counter(tail, stride), nb);
  }

  /** With one bucket no move of the tail is ever a turn. */
  lemma OneBucketNoTurn(b: nat, oldTail: nat, tail: nat, stride: nat)
    requires 0 < stride
    ensures !ItsTurn(b, oldTail, tail, 1, stride)
  {
  }

  lemma TailCounter(tail: nat, stride: nat)
    requires 0 < stride
    ensures Counter(tail, stride) * stride <= tail < SweepEnd(Counter(tail, stride), stride)
  {
    assert tail == tail / stride * stride + tail % stride;
  }

  /** A slot that stays after the cleanup that follows an append has survived all its sweeps so far. */
  lemma SurvivesSweeps(slot: Slot, o: nat, oldTail: nat, tail: nat, size: nat, nb: nat, stride: nat)
    requires Strided(nb, stride) && slot.bucket < nb && oldTail <= tail <= oldTail + MAX_BLOCK && 2 * size <= TWO_47
    requires o <= tail && Swept(o, slot.bucket, Counter(oldTail, stride), size, nb, stride)
    requires Stays(slot, o, oldTail, tail, size, nb, stride)
    ensures Swept(o, slot.bucket, Counter(tail, stride), size, nb, stride)
  {
    hide ItsTurn, Turn, Counter, CL.IsValid;
    TailCounter(oldTail, stride);
    TailCounter(tail, stride);
    Horizon(o, slot.bucket, Counter(oldTail, stride), tail, size, nb, stride);
    CL.ValidityRight(tail, o, size);
    forall k: nat | k < Counter(tail, stride) && Turn(k, nb) == slot.bucket
      ensures SweepEnd(k, stride) <= o + size
    {
      if Counter(oldTail, stride) <= k {
        TurnsTaken(k, oldTail, tail, nb, stride);
        Steps(k, Counter(tail, stride), stride);
      }
    }
  }

  // ---------- Runs ----------

  datatype State = State(tail: nat, offsets: Offsets)

  /** Slots may be emptied, or the tail moves and slots may be pointed at the new block; a cleanup follows. */
  ghost predicate Step(s: State, s': State, size: nat, nb: nat, stride: nat)
    requires 0 < nb && 0 < stride
  {
    Drops(s, s') || exists offsets :: Pointed(s, offsets, nb) && Cleaned(s, offsets, s', size, nb, stride)
  }

  ghost predicate Drops(s: State, s': State) {
    s'.tail == s.tail && forall t | t in s'.offsets :: t in s.offsets && s'.offsets[t] == s.offsets[t]
  }

  ghost predicate Pointed(s: State, offsets: Offsets, nb: nat) {
    forall t | t in offsets ::
      (t in s.offsets && offsets[t] == s.offsets[t]) || (t.bucket < nb && offsets[t] == s.tail)
  }

  ghost predicate Cleaned(s: State, offsets: Offsets, s': State, size: nat, nb: nat, stride: nat)
    requires 0 < nb && 0 < stride
  {
    && s.tail < s'.tail <= s.tail + MAX_BLOCK
    && (forall t :: t in s'.offsets <==> t in offsets && Stays(t, offsets[t], s.tail, s'.tail, size, nb, stride))
    && forall t | t in s'.offsets :: s'.offsets[t] == offsets[t]
  }

  ghost predicate IsRun(run: seq<State>, size: nat, nb: nat, stride: nat)
    requires 0 < nb && 0 < stride
  {
    && run != [] && run[0] == State(0, map[])
    && forall i {:trigger run[i]} | 0 < i < |run| :: Step(run[i - 1], run[i], size, nb, stride)
  }

  /** The validity test of every slot tells whether its item is within the log. */
  ghost predicate Exact(s: State, size: nat) {
    forall t | t in s.offsets ::
      CL.IsValid(s.tail, s.offsets[t] % TWO_48, size) <==> CL.Within(s.tail, s.offsets[t], size)
  }

  ghost predicate Survived(s: State, size: nat, nb: nat, stride: nat)
    requires 0 < nb && 0 < stride
  {
    forall t | t in s.offsets ::
      && t.bucket < nb && s.offsets[t] <= s.tail
      && Swept(s.offsets[t], t.bucket, Counter(s.tail, stride), size, nb, stride)
  }

  lemma NewOffsetSwept(tail: nat, b: nat, size: nat, nb: nat, stride: nat)
    requires 0 < nb && 0 < stride
    ensures Swept(tail, b, Counter(tail, stride), size, nb, stride)
  {
    hide Turn, Counter;
    TailCounter(tail, stride);
    forall k: nat | k < Counter(tail, stride)
      ensures SweepEnd(k, stride) <= tail
    {
      Steps(k, Counter(tail, stride), stride);
    }
  }

  lemma StepSurvives(s: State, s': State, size: nat, nb: nat, stride: nat)
    requires Strided(nb, stride) && 2 * size <= TWO_47 && Survived(s, size, nb, stride) && Step(s, s', size, nb, stride)
    ensures Survived(s', size, nb, stride)
  {
    hide Swept, Stays, Counter, Strided;
    if !Drops(s, s') {
      var offsets :| Pointed(s, offsets, nb) && Cleaned(s, offsets, s', size, nb, stride);
      forall t | t in s'.offsets
        ensures t.bucket < nb && s'.offsets[t] <= s'.tail
        ensures Swept(s'.offsets[t], t.bucket, Counter(s'.tail, stride), size, nb, stride)
      {
        NewOffsetSwept(s.tail, t.bucket, size, nb, stride);
        SurvivesSweeps(t, offsets[t], s.tail, s'.tail, size, nb, stride);
      }
    }
  }

  /** With more than one bucket the test is exact after any run, because no slot is 2^48 bytes old. */
  lemma {:induction false} RunExact(run: seq<State>, size: nat, nb: nat, stride: nat)
    requires Strided(nb, stride) && 2 * size <= TWO_47 && IsRun(run, size, nb, stride)
    ensures var s := run[|run| - 1];
            Survived(s, size, nb, stride) && Exact(s, size)
              && forall t | t in s.offsets :: s.tail < s.offsets[t] + TWO_48
  {
    hide Swept, Step, Strided, Counter, CL.IsValid;
    var s := run[|run| - 1];
    if 1 < |run| {
      RunExact(run[..|run| - 1], size, nb, stride);
      assert Step(run[|run| - 2], s, size, nb, stride);
      StepSurvives(run[|run| - 2], s, size, nb, stride);
    }
    TailCounter(s.tail, stride);
    forall t | t in s.offsets
      ensures s.tail < s.offsets[t] + TWO_48
      ensures CL.IsValid(s.tail, s.offsets[t] % TWO_48, size) <==> CL.Within(s.tail, s.offsets[t], size)
    {
      Horizon(s.offsets[t], t.bucket, Counter(s.tail, stride), s.tail, size, nb, stride);
      CL.ValidityRight(s.tail, s.offsets[t], size);
    }
  }

  /** One item after another of 2^16 bytes: the first stays in its slot, the others follow each other in the next. */
  function Filled(n: nat): State {
    if n == 0 then State(0, map[])
    else if n == 1 then State(TWO_16, map[Slot(0, 0) := 0])
    else State(n * TWO_16, map[Slot(0, 0) := 0, Slot(0, 1) := (n - 1) * TWO_16])
  }

  /** With one bucket that is a run: nothing is ever swept. */
  lemma OneBucketRun(n: nat, size: nat)
    ensures IsRun(seq(n + 1, i requires 0 <= i => Filled(i)), size, 1, TWO_47)
  {
    var run := seq(n + 1, i requires 0 <= i => Filled(i));
    forall i | 0 < i < |run|
      ensures Step(run[i - 1], run[i], size, 1, TWO_47)
    {
      OneBucketStep(i - 1, size);
    }
  }

  lemma OneBucketStep(n: nat, size: nat)
    ensures Step(Filled(n), Filled(n + 1), size, 1, TWO_47)
  {
    hide ItsTurn;
    var s, s' := Filled(n), Filled(n + 1);
    forall t: Slot
      ensures !ItsTurn(t.bucket, s.tail, s'.tail, 1, TWO_47)
    {
      OneBucketNoTurn(t.bucket, s.tail, s'.tail, TWO_47);
    }
    assert Pointed(s, s'.offsets, 1);
    assert Cleaned(s, s'.offsets, s', size, 1, TWO_47);
  }

  /** The validity test is exact in all runs exactly if there is more than one bucket. */
  lemma BucketsDecide(size: nat, nb: nat, stride: nat)
    requires Laid(nb, stride) && 2 * size <= TWO_47
    ensures (forall run | IsRun(run, size, nb, stride) :: Exact(run[|run| - 1], size)) <==> 2 <= nb
  {
    hide IsRun, Exact;
    if 2 <= nb {
      forall run | IsRun(run, size, nb, stride)
        ensures run != [] && Exact(run[|run| - 1], size)
      {
        RunStarts(run, size, nb, stride);
        RunExact(run, size, nb, stride);
      }
    } else {
      var run := OneBucketInexact(size);
    }
  }

  lemma RunStarts(run: seq<State>, size: nat, nb: nat, stride: nat)
    requires 0 < nb && 0 < stride && IsRun(run, size, nb, stride)
    ensures run != []
  {
  }

  lemma OneBucketInexact(size: nat) returns (run: seq<State>)
    requires size < TWO_48
    ensures IsRun(run, size, 1, TWO_47) && run != [] && !Exact(run[|run| - 1], size)
  {
    hide IsRun, Exact, Filled;
    var n := TWO_48 / TWO_16;
    run := seq(n + 1, i requires 0 <= i => Filled(i));
    OneBucketRun(n, size);
    OneBucketForgets(size);
    assert run[|run| - 1] == Filled(n);
  }

  /** After 2^48 bytes the first item has long gone, but its slot passes the test again. */
  lemma OneBucketForgets(size: nat)
    requires size < TWO_48
    ensures var s := Filled(TWO_48 / TWO_16);
            && Slot(0, 0) in s.offsets && s.tail == s.offsets[Slot(0, 0)] + TWO_48
            && CL.IsValid(s.tail, s.offsets[Slot(0, 0)] % TWO_48, size)
              && !CL.Within(s.tail, s.offsets[Slot(0, 0)], size)
            && !Exact(s, size)
  {
  }
}
