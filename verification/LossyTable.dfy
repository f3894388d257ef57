/**
 The hash table in its lossy configuration: 15-slot buckets without extra ones, over the circular log.  Slots keep
 48-bit offsets, so stale slots must be swept before the log has moved on by 2^48 bytes; a sweep of a few buckets
 follows every append.
 */
module LossyTable {
  import opened Words
  import opened Remainders
  import opened Powers
  import opened TableItems
  import opened Sweeping
  import CL = CircularLog

  const BUCKET_SIZE: int := 15

  // ---------- Slots and what they stand for ----------

  /** What was stored when a slot was last written: a key, its value and the true offset of the item. */
  datatype Entry = Entry(key: Key, value: Value, offset: nat)

  ghost function OffsetsOf(entries: Entries): Offsets {
    map t | t in entries :: entries[t].offset
  }

  type Buckets = seq<seq<U64>>
  type Entries = map<Slot, Entry>

  /** The log and the last value set for each key: what entries are judged against. */
  datatype View = View(mem: seq<U64>, blocks: CL.Blocks, tail: nat, last: map<Key, Value>)

  function WordAt(mem: seq<U64>, o: nat, j: nat): U64
    requires 0 < |mem|
  {
    mem[CL.CellOf(o, j, |mem|)]
  }

  /** The item words at an offset spell the key. */
  ghost predicate KeyAt(mem: seq<U64>, o: nat, key: Key)
    requires 0 < |mem|
  {
    && WordAt(mem, o, 2) == key.hash
    && WordAt(mem, o, 1) % TWO_32 / TWO_24 == 8 * |key.words|
    && forall j | 0 <= j < |key.words| :: WordAt(mem, o, 3 + j) == key.words[j]
  }

  ghost predicate ValueAt(mem: seq<U64>, o: nat, keyWords: nat, value: Value)
    requires 0 < |mem|
  {
    && WordAt(mem, o, 1) % TWO_24 == 8 * |value|
    && forall j | 0 <= j < |value| :: WordAt(mem, o, 3 + keyWords + j) == value[j]
  }

  /** A live entry's bytes are intact, and its value is the last one set for its key. */
  ghost predicate Intact(v: View, e: Entry) {
    && 0 < |v.mem|
    && |e.key.words| <= MAX_KEY_WORDS && |e.value| <= MAX_VALUE_WORDS
    && e.offset in v.blocks && ItemSize(e.key, e.value) + CL.HEADER <= v.blocks[e.offset]
    && KeyAt(v.mem, e.offset, e.key) && ValueAt(v.mem, e.offset, |e.key.words|, e.value)
    && e.key in v.last && v.last[e.key] == e.value
  }

  ghost predicate Live(v: View, e: Entry) {
    CL.Within(v.tail, e.offset, 8 * |v.mem|)
  }

  ghost predicate EntryOk(v: View, b: nat, e: Entry, sweeps: nat, nb: nat, stride: nat)
    requires 0 < nb
  {
    && e.offset % 8 == 0 && e.offset <= v.tail
    && CalcBucket(e.key.hash, nb) == b
    && Swept(e.offset, b, sweeps, 8 * |v.mem|, nb, stride)
    && (Live(v, e) ==> Intact(v, e))
  }

  ghost predicate SlotOk(vec: U64, slot: Slot, entries: Entries) {
    && (vec == 0 <==> slot !in entries)
    && (slot in entries ==> vec == MakeItemVec(CalcTag(entries[slot].key.hash), entries[slot].offset % TWO_48))
  }

  /** Slots and entries agree, entries are in order, and no bucket holds a tag twice. */
  ghost predicate Slotted(bs: Buckets, entries: Entries) {
    && (forall b | 0 <= b < |bs| :: |bs[b]| == BUCKET_SIZE)
    && (forall slot | slot in entries :: slot.bucket < |bs| && slot.at < BUCKET_SIZE)
    && (forall b, i | 0 <= b < |bs| && 0 <= i < BUCKET_SIZE :: SlotOk(bs[b][i], Slot(b, i), entries))
    && (forall b, i, j | 0 <= b < |bs| && 0 <= i < j < BUCKET_SIZE && bs[b][i] != 0 && bs[b][j] != 0 ::
          GetTag(bs[b][i]) != GetTag(bs[b][j]))
  }

  ghost predicate Judged(v: View, entries: Entries, sweeps: nat, nb: nat, stride: nat)
    requires 0 < nb
  {
    forall slot {:trigger entries[slot]} | slot in entries ::
      EntryOk(v, slot.bucket, entries[slot], sweeps, nb, stride)
  }

  /** The table answers v for key k. */
  ghost predicate Has(view: View, entries: Entries, k: Key, v: Value) {
    exists slot :: slot in entries && Live(view, entries[slot]) && entries[slot].key == k && entries[slot].value == v
  }

  /** What a non-empty slot says. */
  lemma SlotSays(bs: Buckets, entries: Entries, b: nat, i: nat)
    requires Slotted(bs, entries) && b < |bs| && i < BUCKET_SIZE
    ensures |bs[b]| == BUCKET_SIZE
    ensures bs[b][i] != 0 <==> Slot(b, i) in entries
    ensures bs[b][i] != 0 ==>
              && GetTag(bs[b][i]) == CalcTag(entries[Slot(b, i)].key.hash)
              && GetOffset(bs[b][i]) == entries[Slot(b, i)].offset % TWO_48
  {
    assert SlotOk(bs[b][i], Slot(b, i), entries);
    if bs[b][i] != 0 {
      VecRoundTrip(CalcTag(entries[Slot(b, i)].key.hash), entries[Slot(b, i)].offset % TWO_48);
    }
  }

  /** A slot matches a key when its tag does and the words at its offset, stale or not, spell the key. */
  ghost predicate SlotMatches(mem: seq<U64>, vec: U64, key: Key)
    requires 0 < |mem|
  {
    vec != 0 && GetTag(vec) == CalcTag(key.hash) && KeyAt(mem, GetOffset(vec), key)
  }

  /** One slot of one bucket. */
  function WithSlot(bs: Buckets, b: nat, i: nat, vec: U64): Buckets
    requires b < |bs| && i < |bs[b]|
  {
    var row: seq<U64> := bs[b][i := vec];
    bs[b := row]
  }

  lemma SlotCleared(bs: Buckets, entries: Entries, b: nat, i: nat)
    requires Slotted(bs, entries) && b < |bs| && i < BUCKET_SIZE
    ensures i < |bs[b]| && Slotted(WithSlot(bs, b, i, 0), entries - {Slot(b, i)})
  {
    hide MakeItemVec, CalcTag, GetTag;
    var bs', entries' := WithSlot(bs, b, i, 0), entries - {Slot(b, i)};
    forall c, j | 0 <= c < |bs'| && 0 <= j < BUCKET_SIZE
      ensures SlotOk(bs'[c][j], Slot(c, j), entries')
    {
      assert SlotOk(bs[c][j], Slot(c, j), entries);
    }
  }

  /** Writing a slot whose tag no other slot of the bucket has. */
  lemma SlotWritten(bs: Buckets, entries: Entries, b: nat, i: nat, e: Entry)
    requires Slotted(bs, entries) && b < |bs| && i < BUCKET_SIZE
    requires forall j | 0 <= j < |bs[b]| && j != i && bs[b][j] != 0 :: GetTag(bs[b][j]) != CalcTag(e.key.hash)
    ensures i < |bs[b]|
    ensures Slotted(WithSlot(bs, b, i, MakeItemVec(CalcTag(e.key.hash), e.offset % TWO_48)), entries[Slot(b, i) := e])
  {
    hide MakeItemVec, CalcTag, GetTag;
    VecRoundTrip(CalcTag(e.key.hash), e.offset % TWO_48);
    var vec := MakeItemVec(CalcTag(e.key.hash), e.offset % TWO_48);
    var bs', entries' := WithSlot(bs, b, i, vec), entries[Slot(b, i) := e];
    forall c, j | 0 <= c < |bs'| && 0 <= j < BUCKET_SIZE
      ensures SlotOk(bs'[c][j], Slot(c, j), entries')
    {
      assert SlotOk(bs[c][j], Slot(c, j), entries);
    }
  }

  // ---------- Writes to the log ----------

  /** Only cells of the words from..to after an offset differ. */
  ghost predicate OnlyCells(mem: seq<U64>, mem': seq<U64>, o: nat, from: nat, to: nat) {
    && 0 < |mem| == |mem'|
    && forall c {:trigger mem'[c]} | 0 <= c < |mem|
      && (forall j: nat | from <= j < to :: c != CL.CellOf(o, j, |mem|)) ::
         mem'[c] == mem[c]
  }

  lemma OnlyCellsTrans(m0: seq<U64>, m1: seq<U64>, m2: seq<U64>, o: nat, f1: nat, t1: nat, f2: nat, t2: nat,
                       f: nat, t: nat)
    requires OnlyCells(m0, m1, o, f1, t1) && OnlyCells(m1, m2, o, f2, t2)
    requires f <= f1 && t1 <= t && f <= f2 && t2 <= t
    ensures OnlyCells(m0, m2, o, f, t)
  {
    forall c | 0 <= c < |m0| && (forall j: nat | f <= j < t :: c != CL.CellOf(o, j, |m0|))
      ensures m2[c] == m0[c]
    {
      assert m1[c] == m0[c];
    }
  }

  /** Words of disjoint blocks in the last `words` words before the tail have different cells. */
  lemma OtherCell(o: nat, i: nat, p: nat, j: nat, tail: nat, words: nat)
    requires 0 < words && o % 8 == 0 && p % 8 == 0 && tail % 8 == 0
    requires tail <= o + 8 * words && tail <= p + 8 * words && o + 8 * (i + 1) <= tail && p + 8 * (j + 1) <= tail
    requires o + 8 * (i + 1) <= p || p + 8 * (j + 1) <= o
    ensures CL.CellOf(o, i, words) != CL.CellOf(p, j, words)
  {
    CL.CellsApart(o, i, p, j, words);
  }

  /** A live entry stays intact when only another block of the log is written. */
  lemma IntactKept(v: View, v': View, e: Entry, p: nat, count: nat)
    requires Intact(v, e) && Live(v', e) && e.offset % 8 == 0 && p % 8 == 0 && v'.tail % 8 == 0
    requires OnlyCells(v.mem, v'.mem, p, 0, count) && 0 < |v.mem| == |v'.mem|
    requires e.offset in v'.blocks && v'.blocks[e.offset] == v.blocks[e.offset]
    requires e.offset + v.blocks[e.offset] <= p || p + 8 * count <= e.offset
    requires v'.tail <= p + 8 * |v.mem| && p + 8 * count <= v'.tail && e.offset + v.blocks[e.offset] <= v'.tail
    requires e.key in v'.last && v'.last[e.key] == e.value
    ensures Intact(v', e)
  {
    var n := |v.mem|;
    forall i: nat | 8 * (i + 1) <= v.blocks[e.offset]
      ensures v'.mem[CL.CellOf(e.offset, i, n)] == v.mem[CL.CellOf(e.offset, i, n)]
    {
      forall j: nat | 0 <= j < count
        ensures CL.CellOf(e.offset, i, n) != CL.CellOf(p, j, n)
      {
        OtherCell(e.offset, i, p, j, v'.tail, n);
      }
    }
    KeyKept(v.mem, v'.mem, e);
  }

  lemma KeyKept(mem: seq<U64>, mem': seq<U64>, e: Entry)
    requires 0 < |mem| == |mem'| && KeyAt(mem, e.offset, e.key) && ValueAt(mem, e.offset, |e.key.words|, e.value)
    requires forall i: nat {:trigger CL.CellOf(e.offset, i, |mem|)} |
               8 * (i + 1) <= ItemSize(e.key, e.value) + CL.HEADER ::
               mem'[CL.CellOf(e.offset, i, |mem|)] == mem[CL.CellOf(e.offset, i, |mem|)]
    ensures KeyAt(mem', e.offset, e.key) && ValueAt(mem', e.offset, |e.key.words|, e.value)
  {
    hide CL.CellOf;
    var o, n := e.offset, |e.key.words|;
    forall i: nat | 8 * (i + 1) <= ItemSize(e.key, e.value) + CL.HEADER
      ensures WordAt(mem', o, i) == WordAt(mem, o, i)
    {
    }
  }

  /** Entries with the same key sit in the same slot. */
  lemma OneSlotPerKey(bs: Buckets, entries: Entries, v: View, sweeps: nat, nb: nat, stride: nat, s: Slot, t: Slot)
    requires 0 < nb && Slotted(bs, entries) && Judged(v, entries, sweeps, nb, stride)
    requires s in entries && t in entries && entries[s].key.hash == entries[t].key.hash
    ensures s == t
  {
    hide GetTag, CalcTag, CalcBucket, Swept, Intact, MakeItemVec, GetOffset;
    assert entries[s].offset >= 0 && entries[t].offset >= 0;
    SlotSays(bs, entries, s.bucket, s.at);
    SlotSays(bs, entries, t.bucket, t.at);
    assert s.bucket == t.bucket;
  }

  /** The log after an append of a block of `length` bytes. */
  ghost predicate Pushed(v: View, v': View, length: nat) {
    && 0 < |v.mem| && v.tail % 8 == 0 && length % 8 == 0 && CL.Tiles(v.blocks, v.tail, 8 * |v.mem|)
    && length <= 8 * |v.mem| && OnlyCells(v.mem, v'.mem, v.tail, 0, length / 8)
    && v'.blocks == v.blocks[v.tail := length] && v'.tail == v.tail + length
  }

  /** The log after an append of a block that holds the key and the value. */
  ghost predicate Appended(v: View, v': View, key: Key, value: Value, length: nat) {
    && Pushed(v, v', length) && 0 < |v'.mem|
    && |key.words| <= MAX_KEY_WORDS && |value| <= MAX_VALUE_WORDS && ItemSize(key, value) + CL.HEADER <= length
    && KeyAt(v'.mem, v.tail, key) && ValueAt(v'.mem, v.tail, |key.words|, value)
    && v'.last == v.last[key := value]
  }

  lemma OldEntryAfterPush(v: View, v': View, length: nat, b: nat, e: Entry, sweeps: nat, nb: nat, stride: nat)
    requires Pushed(v, v', length) && 0 < nb && EntryOk(v, b, e, sweeps, nb, stride)
    requires e.key in v.last ==> e.key in v'.last && v'.last[e.key] == v.last[e.key]
    ensures EntryOk(v', b, e, sweeps, nb, stride)
  {
    hide Swept, CalcBucket, KeyAt, ValueAt, OnlyCells;
    OnlyCellsSize(v.mem, v'.mem, v.tail, 0, length / 8);
    if Live(v', e) {
      assert Live(v, e);
      assert CL.EndOf(v.blocks, e.offset) <= v.tail;
      IntactKept(v, v', e, v.tail, length / 8);
    }
  }

  lemma JudgedAfterPush(v: View, v': View, entries: Entries, length: nat, sweeps: nat, nb: nat, stride: nat)
    requires Pushed(v, v', length) && 0 < nb && Judged(v, entries, sweeps, nb, stride) && v'.last == v.last
    ensures Judged(v', entries, sweeps, nb, stride)
  {
    hide EntryOk, Pushed;
    forall t | t in entries
      ensures EntryOk(v', t.bucket, entries[t], sweeps, nb, stride)
    {
      assert EntryOk(v, t.bucket, entries[t], sweeps, nb, stride);
      OldEntryAfterPush(v, v', length, t.bucket, entries[t], sweeps, nb, stride);
    }
  }

  lemma OnlyCellsSize(mem: seq<U64>, mem': seq<U64>, o: nat, from: nat, to: nat)
    requires OnlyCells(mem, mem', o, from, to)
    ensures |mem| == |mem'|
  {
  }

  lemma NewEntryAfterAppend(v: View, v': View, key: Key, value: Value, length: nat, nb: nat, stride: nat)
    requires Appended(v, v', key, value, length) && 0 < nb && 0 < stride
    ensures EntryOk(v', CalcBucket(key.hash, nb), Entry(key, value, v.tail), SweepsDone(v.tail, nb, stride), nb, stride)
    ensures Live(v', Entry(key, value, v.tail))
  {
    hide CalcBucket, KeyAt, ValueAt, OnlyCells;
    assert |v'.mem| == |v.mem| by { OnlyCellsSize(v.mem, v'.mem, v.tail, 0, length / 8); }
    forall k: nat | k < SweepsDone(v.tail, nb, stride)
      ensures SweepEnd(k, stride) <= v.tail
    {
      Steps(k, SweepsDone(v.tail, nb, stride), stride);
    }
  }

  /** Appending an item and pointing at it the only slot that may hold its tag. */
  lemma JudgedAfterAppend(v: View, v': View, entries: Entries, key: Key, value: Value, length: nat, slot: Slot,
                          nb: nat, stride: nat)
    requires Appended(v, v', key, value, length) && 0 < nb && 0 < stride
    requires Judged(v, entries, SweepsDone(v.tail, nb, stride), nb, stride) && slot.bucket == CalcBucket(key.hash, nb)
    requires forall t | t in entries && t != slot :: entries[t].key != key
    ensures Judged(v', entries[slot := Entry(key, value, v.tail)], SweepsDone(v.tail, nb, stride), nb, stride)
    ensures Live(v', Entry(key, value, v.tail))
  {
    hide Pushed, EntryOk, CalcBucket, KeyAt, ValueAt;
    NewEntryAfterAppend(v, v', key, value, length, nb, stride);
    var entries' := entries[slot := Entry(key, value, v.tail)];
    forall t | t in entries'
      ensures EntryOk(v', t.bucket, entries'[t], SweepsDone(v.tail, nb, stride), nb, stride)
    {
      if t != slot {
        assert EntryOk(v, t.bucket, entries[t], SweepsDone(v.tail, nb, stride), nb, stride);
        OldEntryAfterPush(v, v', length, t.bucket, entries[t], SweepsDone(v.tail, nb, stride), nb, stride);
      }
    }
  }

  /** The log after the value of a live item was overwritten without leaving its block. */
  ghost predicate Overwrote(v: View, v': View, e: Entry, value: Value) {
    && 0 < |v.mem| == |v'.mem| && v.tail % 8 == 0 && CL.Tiles(v.blocks, v.tail, 8 * |v.mem|)
    && Intact(v, e) && Live(v, e) && |value| <= MAX_VALUE_WORDS
    && ItemSize(e.key, value) + CL.HEADER <= v.blocks[e.offset]
    && OnlyCells(v.mem, v'.mem, e.offset, 1, 3 + |e.key.words| + |value|)
    && KeyAt(v'.mem, e.offset, e.key) && ValueAt(v'.mem, e.offset, |e.key.words|, value)
    && v'.blocks == v.blocks && v'.tail == v.tail && v'.last == v.last[e.key := value]
  }

  lemma OtherEntryAfterOverwrite(v: View, v': View, e: Entry, value: Value, b: nat, other: Entry, sweeps: nat,
                                 nb: nat, stride: nat)
    requires Overwrote(v, v', e, value) && 0 < nb && EntryOk(v, b, other, sweeps, nb, stride)
    requires other.key.hash != e.key.hash
    ensures EntryOk(v', b, other, sweeps, nb, stride)
  {
    hide Swept, CalcBucket, ValueAt, OnlyCells;
    if Live(v', other) {
      assert other.offset != e.offset;
      assert CL.EndOf(v.blocks, e.offset) <= v.tail && CL.EndOf(v.blocks, other.offset) <= v.tail;
      OnlyCellsTrans(v.mem, v'.mem, v'.mem, e.offset, 1, 3 + |e.key.words| + |value|, 1, 1, 0,
                     3 + |e.key.words| + |value|)
        by { assert OnlyCells(v'.mem, v'.mem, e.offset, 1, 1) by { OnlyCellsNone(v'.mem, e.offset); } }
      IntactKept(v, v', other, e.offset, 3 + |e.key.words| + |value|);
    }
  }

  lemma OnlyCellsNone(mem: seq<U64>, o: nat)
    requires 0 < |mem|
    ensures OnlyCells(mem, mem, o, 1, 1)
  {
  }

  lemma JudgedAfterOverwrite(v: View, v': View, bs: Buckets, entries: Entries, slot: Slot, value: Value, sweeps: nat,
                             nb: nat, stride: nat)
    requires slot in entries && Overwrote(v, v', entries[slot], value) && 0 < nb
    requires Slotted(bs, entries) && Judged(v, entries, sweeps, nb, stride)
    ensures var e := entries[slot];
            var entries' := entries[slot := Entry(e.key, value, e.offset)];
            Judged(v', entries', sweeps, nb, stride) && Slotted(bs, entries') && Live(v', entries'[slot])
  {
    hide CalcBucket, KeyAt, ValueAt, OnlyCells, Swept, MakeItemVec, CalcTag, GetTag;
    var e := entries[slot];
    var entries' := entries[slot := Entry(e.key, value, e.offset)];
    forall t | t in entries'
      ensures EntryOk(v', t.bucket, entries'[t], sweeps, nb, stride)
    {
      assert EntryOk(v, t.bucket, entries[t], sweeps, nb, stride);
      if t != slot {
        if entries[t].key.hash == e.key.hash {
          OneSlotPerKey(bs, entries, v, sweeps, nb, stride, t, slot);
        }
        OtherEntryAfterOverwrite(v, v', e, value, t.bucket, entries[t], sweeps, nb, stride);
      }
    }
    forall b, i | 0 <= b < |bs| && 0 <= i < BUCKET_SIZE
      ensures SlotOk(bs[b][i], Slot(b, i), entries')
    {
      assert SlotOk(bs[b][i], Slot(b, i), entries);
    }
  }

  /** The tag bits above the offset do not disturb the validity test. */
  lemma ValidityOfVec(tail: nat, vec: U64, size: nat)
    ensures CL.IsValid(tail, vec, size) <==> CL.IsValid(tail, GetOffset(vec), size)
  {
    assert tail - GetOffset(vec) == tail - vec + vec / TWO_48 * TWO_48;
    ModShift(tail - vec, TWO_48, vec / TWO_48);
  }

  /** No slot is 2^48 bytes old: as long as that is so, 48 bits of an offset tell whether its item is still in the
      log. */
  ghost predicate Young(tail: nat, entries: Entries) {
    forall t | t in entries :: tail < entries[t].offset + TWO_48
  }

  /** With more than one bucket the sweeps see to it. */
  lemma SweptIsYoung(v: View, entries: Entries, nb: nat, stride: nat)
    requires Strided(nb, stride) && 16 * |v.mem| <= TWO_47 && forall t | t in entries :: t.bucket < nb
    requires Judged(v, entries, SweepsDone(v.tail, nb, stride), nb, stride)
    ensures Young(v.tail, entries)
  {
    hide Intact, CalcBucket, Swept, Counter, SweepEnd, Live, Strided;
    TailCounter(v.tail, stride);
    forall t | t in entries
      ensures v.tail < entries[t].offset + TWO_48
    {
      assert EntryOk(v, t.bucket, entries[t], SweepsDone(v.tail, nb, stride), nb, stride);
      Horizon(entries[t].offset, t.bucket, Counter(v.tail, stride), v.tail, 8 * |v.mem|, nb, stride);
    }
  }

  /** The entries that stay in a cleanup. */
  ghost predicate EntriesStay(entries: Entries, entries': Entries, oldTail: nat, tail: nat, size: nat, nb: nat,
                              stride: nat)
    requires 0 < nb && 0 < stride
  {
    && (forall t | t in entries' :: t in entries && entries'[t] == entries[t])
    && forall t | t in entries :: t in entries' <==> Stays(t, entries[t].offset, oldTail, tail, size, nb, stride)
  }

  /** The entries that stay when a bucket is swept. */
  ghost predicate BucketSwept(entries: Entries, entries': Entries, b: nat, tail: nat, size: nat) {
    && (forall t | t in entries' :: t in entries && entries'[t] == entries[t])
    && forall t | t in entries ::
         t in entries' <==> (t.bucket == b ==> CL.IsValid(tail, entries[t].offset % TWO_48, size))
  }

  /** The same for the first n buckets, going round from one. */
  ghost predicate PartlySwept(entries: Entries, entries': Entries, first: nat, n: nat, nb: nat, tail: nat, size: nat)
    requires 0 < nb
  {
    && (forall t | t in entries' :: t in entries && entries'[t] == entries[t])
    && forall t | t in entries ::
         t in entries' <==> ((t.bucket - first) % nb < n ==> CL.IsValid(tail, entries[t].offset % TWO_48, size))
  }

  lemma NothingSwept(entries: Entries, first: nat, nb: nat, tail: nat, size: nat)
    requires 0 < nb
    ensures PartlySwept(entries, entries, first, 0, nb, tail, size)
  {
  }

  lemma OneBucketMore(entries: Entries, before: Entries, after: Entries, first: nat, n: nat, nb: nat, tail: nat,
                      size: nat)
    requires first < nb && n < nb && forall t | t in entries :: t.bucket < nb
    requires PartlySwept(entries, before, first, n, nb, tail, size)
    requires BucketSwept(before, after, Turn(first + n, nb), tail, size)
    ensures PartlySwept(entries, after, first, n + 1, nb, tail, size)
  {
    hide Turn, CL.IsValid;
    forall t | t in entries
      ensures t.bucket == Turn(first + n, nb) <==> (t.bucket - first) % nb == n
    {
      Round(first, n, t.bucket, nb);
    }
  }

  lemma AllSwept(entries: Entries, entries': Entries, oldTail: nat, tail: nat, size: nat, nb: nat, stride: nat)
    requires 0 < nb && 0 < stride
    requires var first := Turn(Counter(oldTail, stride), nb);
             PartlySwept(entries, entries', first, (Turn(Counter(tail, stride), nb) - first) % nb, nb, tail, size)
    ensures EntriesStay(entries, entries', oldTail, tail, size, nb, stride)
  {
    hide Turn, Counter, CL.IsValid;
  }

  /** The cleanup after an append brings the entries up to date with the tail and loses no live one. */
  lemma CleanedUp(v: View, entries: Entries, entries': Entries, oldTail: nat, nb: nat, stride: nat)
    requires Laid(nb, stride) && 16 * |v.mem| <= TWO_47 && oldTail <= v.tail <= oldTail + MAX_BLOCK
    requires (forall t | t in entries :: t.bucket < nb)
             && Judged(v, entries, SweepsDone(oldTail, nb, stride), nb, stride)
    requires EntriesStay(entries, entries', oldTail, v.tail, 8 * |v.mem|, nb, stride)
    ensures Judged(v, entries', SweepsDone(v.tail, nb, stride), nb, stride) && KeepsLive(v, entries, entries')
    ensures 2 <= nb ==> Young(v.tail, entries')
  {
    hide Intact, CalcBucket, Swept, Counter, CL.IsValid, ItsTurn, Laid;
    forall t | t in entries
      ensures Live(v, entries[t]) ==> t in entries'
      ensures t in entries' ==> EntryOk(v, t.bucket, entries[t], SweepsDone(v.tail, nb, stride), nb, stride)
    {
      assert EntryOk(v, t.bucket, entries[t], SweepsDone(oldTail, nb, stride), nb, stride);
      if nb == 1 {
        OneBucketNoTurn(t.bucket, oldTail, v.tail, stride);
      } else if t in entries' {
        SurvivesSweeps(t, entries[t].offset, oldTail, v.tail, 8 * |v.mem|, nb, stride);
      }
      CL.ValidityRight(v.tail, entries[t].offset, 8 * |v.mem|);
    }
    if 2 <= nb {
      SweptIsYoung(v, entries', nb, stride);
    }
  }

  /** Dropping entries keeps the others in order. */
  lemma FewerEntries(v: View, entries: Entries, entries': Entries, sweeps: nat, nb: nat, stride: nat)
    requires 0 < nb && Judged(v, entries, sweeps, nb, stride)
    requires forall t | t in entries' :: t in entries && entries'[t] == entries[t]
    ensures Judged(v, entries', sweeps, nb, stride)
  {
    hide EntryOk;
    forall t | t in entries'
      ensures EntryOk(v, t.bucket, entries'[t], sweeps, nb, stride)
    {
      assert EntryOk(v, t.bucket, entries[t], sweeps, nb, stride);
    }
  }

  /** The entries left are old ones, and every live one is left. */
  ghost predicate KeepsLive(v: View, entries: Entries, entries': Entries) {
    && (forall t | t in entries' :: t in entries && entries'[t] == entries[t])
    && (forall t | t in entries && Live(v, entries[t]) :: t in entries')
  }

  /** Entries that are still within the log stay as they were, except for the one slot. */
  ghost predicate KeepsOthers(v: View, entries: Entries, entries': Entries, slot: Slot) {
    forall t | t in entries && t != slot && Live(v, entries[t]) :: t in entries' && entries'[t] == entries[t]
  }

  /** Every answer whose item is still within the log is kept, be it at the old place or a new one. */
  ghost predicate KeepsAnswers(v: View, entries: Entries, entries': Entries) {
    forall t | t in entries && Live(v, entries[t]) ::
      && t in entries' && Live(v, entries'[t])
      && entries'[t].key == entries[t].key && entries'[t].value == entries[t].value
  }

  /** A slot that may be given to an item with a tag: one with that tag, an empty one, or any if none is empty. */
  predicate Evictable(row: seq<U64>, at: nat, tag: U16) {
    at < |row| && (row[at] == 0 || GetTag(row[at]) == tag || forall j | 0 <= j < |row| :: row[j] != 0)
  }

  // ---------- The table ----------

  class Table {
    const log: CL.Log
    const numBuckets: nat
    const stride: nat               // 2^rshift_
    const moveThreshold: nat        // mth_threshold_
    const buckets: array<seq<U64>>
    ghost var entries: Entries
    ghost var last: map<Key, Value> // the last value set for each key since it was last deleted

    ghost function Now(): View
      reads this, log, log.data
    {
      View(log.data[..], log.blocks, log.tail, last)
    }

    /** Everything but the progress of sweeping. */
    ghost predicate Ready()
      reads this, buckets, log, log.data
    {
      log.Valid() && Laid(numBuckets, stride) && buckets.Length == numBuckets && Slotted(buckets[..], entries)
    }

    /** Entries are in order, and no slot is so old that its offset means another place.  Operations keep that with
        more than one bucket; with one they do as long as no slot gets too old. */
    ghost predicate Valid()
      reads this, buckets, log, log.data
    {
      && Ready() && Judged(Now(), entries, SweepsDone(log.tail, numBuckets, stride), numBuckets, stride)
      && Young(log.tail, entries)
    }

    /** A valid table, or any with a single bucket. */
    ghost predicate Usable()
      reads this, buckets, log, log.data
    {
      Ready() && (2 <= numBuckets ==> Valid())
    }

    /** What sweeping is about: the tail and the true offsets of the slots. */
    ghost function Track(): State
      reads this, log
    {
      State(log.tail, OffsetsOf(entries))
    }

    constructor (log: CL.Log, logBuckets: nat, rshift: nat, moveThreshold: nat)
      requires log.Valid() && log.tail == 0 && log.blocks == map[] && Laid(Pow2(logBuckets), Pow2(rshift))
      ensures Valid() && fresh(buckets) && entries == map[] && last == map[]
      ensures this.log == log && numBuckets == Pow2(logBuckets) && stride == Pow2(rshift)
      ensures buckets[..] == seq(numBuckets, _ => seq(BUCKET_SIZE, _ => 0))
    {
      this.log, this.moveThreshold := log, moveThreshold;
      numBuckets, stride := Pow2(logBuckets), Pow2(rshift);
      buckets := new seq<U64>[Pow2(logBuckets)](_ => seq(BUCKET_SIZE, _ => 0));
      entries, last := map[], map[];
    }

    /** Between operations no slot is 2^48 bytes old, so that its 48-bit offset tells exactly whether its item is still
        in the log; if it is, then its bytes are those of the last value set for its key. */
    lemma SlotsAreRecent(b: nat, at: nat)
      requires Valid() && b < numBuckets && at < BUCKET_SIZE
      ensures at < |buckets[b]| && (buckets[b][at] != 0 <==> Slot(b, at) in entries)
      ensures buckets[b][at] != 0 ==>
                var e := entries[Slot(b, at)];
                && e.offset <= log.tail < e.offset + TWO_48
                && (CL.IsValid(log.tail, GetOffset(buckets[b][at]), log.Size()) <==> log.tail - e.offset <= log.Size())
                && (log.tail - e.offset <= log.Size() ==> Intact(Now(), e) && e.key in last && last[e.key] == e.value)
    {
      hide GetTag, CalcTag, CalcBucket, MakeItemVec, KeyAt, ValueAt, CL.IsValid, CL.Tiles, CL.Headed;
      SlotSays(buckets[..], entries, b, at);
      if buckets[b][at] != 0 {
        ghost var e := entries[Slot(b, at)];
        assert EntryOk(Now(), b, e, SweepsDone(log.tail, numBuckets, stride), numBuckets, stride);
        CL.ValidityRight(log.tail, e.offset, log.Size());
      }
    }

    /** Empties the slots of one bucket that do not pass the validity test. */
    method SweepBucket(b: nat)
      requires Ready() && b < numBuckets
      modifies this`entries, buckets
      ensures Ready() && BucketSwept(old(entries), entries, b, log.tail, log.Size())
    {
      hide Slotted, Laid, CL.IsValid, MakeItemVec, CalcTag, CL.Tiles, CL.Headed, CL.Sized;
      ghost var es := entries;
      SlotsInside(buckets[..], entries);
      for i := 0 to BUCKET_SIZE
        invariant Ready() && forall t | t in entries :: t in es && entries[t] == es[t]
        invariant forall t | t in es ::
                    t in entries <==>
                    (t.bucket == b && t.at < i ==> CL.IsValid(log.tail, es[t].offset % TWO_48, log.Size()))
      {
        ghost var bs := buckets[..];
        SlotSays(bs, entries, b, i);
        if buckets[b][i] != 0 {
          ValidityOfVec(log.tail, buckets[b][i], log.Size());
          if !CL.IsValid(log.tail, buckets[b][i], log.Size()) {
            SlotCleared(bs, entries, b, i);
            buckets[b] := buckets[b][i := 0];
            assert buckets[..] == WithSlot(bs, b, i, 0);
            entries := entries - {Slot(b, i)};
          }
        }
      }
    }

    /** Sweeps the buckets whose turn has come while the tail moved from one place to another; with one bucket that is
        none, ever. */
    method Cleanup(oldTail: nat, ghost trueTail: nat)
      requires Ready() && oldTail == trueTail % TWO_48
      modifies this`entries, buckets
      ensures Ready() && EntriesStay(old(entries), entries, trueTail, log.tail, log.Size(), numBuckets, stride)
      ensures numBuckets == 1 ==> entries == old(entries) && buckets[..] == old(buckets[..])
    {
      hide Slotted, Laid, CL.Tiles, CL.Headed, CL.Sized, Counter, Turn, PartlySwept, BucketSwept, EntriesStay;
      ghost var es := entries;
      SlotsInside(buckets[..], entries);
      MaskedCounter(trueTail, numBuckets, stride);
      var first, end := Turn(Counter(oldTail, stride), numBuckets), Turn(Counter(log.tail, stride), numBuckets);
      var index := first;
      ghost var n := 0;
      Round(first, 0, first, numBuckets);
      NothingSwept(es, first, numBuckets, log.tail, log.Size());
      while index != end
        invariant Ready() && 0 <= n <= (end - first) % numBuckets && index == Turn(first + n, numBuckets)
        invariant PartlySwept(es, entries, first, n, numBuckets, log.tail, log.Size())
        invariant n == 0 ==> entries == es && buckets[..] == old(buckets[..])
        decreases (end - first) % numBuckets - n
      {
        Round(first, n, end, numBuckets);
        ghost var es1 := entries;
        SweepBucket(index);
        OneBucketMore(es, es1, entries, first, n, numBuckets, log.tail, log.Size());
        NextCounter(first + n, numBuckets);
        index := Turn(index + 1, numBuckets);
        n := n + 1;
      }
      Round(first, n, end, numBuckets);
      AllSwept(es, entries, trueTail, log.tail, log.Size(), numBuckets, stride);
    }

    /** Compares the key at an offset, stale or not, with a key. */
    method KeyMatches(offset: nat, key: Key) returns (same: bool)
      requires log.Valid()
      ensures same <==> KeyAt(log.data[..], offset, key)
    {
      ghost var mem := log.data[..];
      if log.data[log.Cell(offset, 2)] != key.hash {
        return false;
      }
      if log.data[log.Cell(offset, 1)] % TWO_32 / TWO_24 != 8 * |key.words| {
        return false;
      }
      for j := 0 to |key.words|
        invariant forall i | 0 <= i < j :: WordAt(mem, offset, 3 + i) == key.words[i]
      {
        if log.data[log.Cell(offset, 3 + j)] != key.words[j] {
          assert WordAt(mem, offset, 3 + j) != key.words[j];
          return false;
        }
      }
      return true;
    }

    /** The first slot of a bucket that matches in tag, hash and key. */
    method FindItem(b: nat, key: Key) returns (found: bool, at: nat)
      requires Ready() && b < numBuckets
      ensures |buckets[b]| == BUCKET_SIZE
      ensures found ==> at < BUCKET_SIZE && SlotMatches(log.data[..], buckets[b][at], key)
                        && forall j | 0 <= j < at :: !SlotMatches(log.data[..], buckets[b][j], key)
      ensures !found ==> forall j | 0 <= j < BUCKET_SIZE :: !SlotMatches(log.data[..], buckets[b][j], key)
    {
      hide KeyAt, CalcTag, GetOffset;
      at := 0;
      while at < BUCKET_SIZE
        invariant 0 <= at <= BUCKET_SIZE
        invariant forall j | 0 <= j < at :: !SlotMatches(log.data[..], buckets[b][j], key)
      {
        if GetTag(buckets[b][at]) == CalcTag(key.hash) {
          var same := KeyMatches(GetOffset(buckets[b][at]), key);
          if same {
            return true, at;
          }
        }
        at := at + 1;
      }
      return false, 0;
    }

    /** The slot of a bucket that has a tag. */
    method FindSameTag(b: nat, tag: U16) returns (found: bool, at: nat)
      requires Ready() && b < numBuckets && tag != 0
      ensures |buckets[b]| == BUCKET_SIZE
      ensures found ==> at < BUCKET_SIZE && GetTag(buckets[b][at]) == tag
      ensures !found ==> forall j | 0 <= j < BUCKET_SIZE :: GetTag(buckets[b][j]) != tag
    {
      at := 0;
      while at < BUCKET_SIZE
        invariant 0 <= at <= BUCKET_SIZE
        invariant forall j | 0 <= j < at :: GetTag(buckets[b][j]) != tag
      {
        if GetTag(buckets[b][at]) == tag {
          return true, at;
        }
        at := at + 1;
      }
      return false, 0;
    }

    /** Bytes from a slot's item to the tail, modulo the size of the log. */
    function Distance(vec: U64): (d: nat)
      requires 0 < log.Size()
      reads log
    {
      (log.tail - GetOffset(vec)) % log.Size()
    }

    /** Every slot of a bucket has an item less than a log's length behind the tail. */
    ghost predicate Recent(b: nat)
      reads this, log
    {
      forall j | 0 <= j < BUCKET_SIZE ::
        Slot(b, j) in entries && entries[Slot(b, j)].offset <= log.tail < entries[Slot(b, j)].offset + log.Size()
    }

    /** No item of a bucket is newer than that of one of its slots. */
    ghost predicate Newest(b: nat, at: nat)
      reads this
    {
      && Slot(b, at) in entries
      && forall j | 0 <= j < BUCKET_SIZE ::
              Slot(b, j) in entries && entries[Slot(b, j)].offset <= entries[Slot(b, at)].offset
    }

    /** Of recent items the one at the smallest distance is the newest. */
    lemma NearestIsNewest(b: nat, at: nat)
      requires Ready() && b < numBuckets && at < BUCKET_SIZE && |buckets[b]| == BUCKET_SIZE && Recent(b)
      requires forall j | 0 <= j < BUCKET_SIZE :: Distance(buckets[b][at]) <= Distance(buckets[b][j])
      ensures Newest(b, at)
    {
      hide Slotted, CL.Tiles, CL.Headed, CL.Sized, Laid, GetOffset, Distance;
      RecentDistance(b, at);
      forall j | 0 <= j < BUCKET_SIZE
        ensures Slot(b, j) in entries && entries[Slot(b, j)].offset <= entries[Slot(b, at)].offset
      {
        RecentDistance(b, j);
      }
    }

    lemma RecentDistance(b: nat, j: nat)
      requires Ready() && b < numBuckets && j < BUCKET_SIZE && |buckets[b]| == BUCKET_SIZE && Recent(b)
      ensures Slot(b, j) in entries && Distance(buckets[b][j]) == log.tail - entries[Slot(b, j)].offset
    {
      hide Slotted, CL.Tiles, CL.Headed, CL.Sized, Laid, GetOffset;
      SlotSays(buckets[..], entries, b, j);
      DistanceIsAge(log.tail, entries[Slot(b, j)].offset, log.words, log.turns);
    }

    /** The first empty slot, or else the first one at the smallest distance from the tail, modulo the size of the log.
        As long as every item of the bucket is recent that is the newest item; a stale one that has not been swept yet
        may seem nearer. */
    method GetEmptyOrOldest(b: nat) returns (at: nat)
      requires Ready() && b < numBuckets
      ensures |buckets[b]| == BUCKET_SIZE && at < BUCKET_SIZE
      ensures buckets[b][at] == 0 ==> forall j | 0 <= j < at :: buckets[b][j] != 0
      ensures buckets[b][at] != 0 ==>
                forall j | 0 <= j < BUCKET_SIZE :: buckets[b][j] != 0
                  && Distance(buckets[b][at]) <= Distance(buckets[b][j])
      ensures buckets[b][at] != 0 ==> forall j | 0 <= j < at :: Distance(buckets[b][at]) < Distance(buckets[b][j])
      ensures buckets[b][at] != 0 && Recent(b) ==> Newest(b, at)
    {
      hide GetOffset, Distance, Laid, Recent, Newest, CL.Tiles, CL.Headed, CL.Sized;
      at := 0;
      var best := TWO_64 - 1;
      for j := 0 to BUCKET_SIZE
        invariant 0 <= at && (j == 0 ==> best == TWO_64 - 1) && (0 < j ==> at < j && best == Distance(buckets[b][at]))
        invariant forall i | 0 <= i < j :: buckets[b][i] != 0 && best <= Distance(buckets[b][i])
        invariant forall i | 0 <= i < at && i < j :: best < Distance(buckets[b][i])
      {
        if buckets[b][j] == 0 {
          return j;
        }
        DistanceSmall(buckets[b][j]);
        if best > Distance(buckets[b][j]) {
          best, at := Distance(buckets[b][j]), j;
        }
      }
      if Recent(b) {
        NearestIsNewest(b, at);
      }
    }

    lemma DistanceSmall(vec: U64)
      requires log.Valid()
      ensures Distance(vec) < TWO_48
    {
    }

    /** Copies a run of words to the words after an offset. */
    method WriteRun(o: nat, from: nat, run: seq<U64>)
      requires 0 < log.words == log.data.Length && |run| < log.words
      modifies log.data
      ensures OnlyCells(old(log.data[..]), log.data[..], o, from, from + |run|)
      ensures RunAt(log.data[..], o, from, run)
    {
      hide OnlyCells, RunAt;
      ghost var mem := log.data[..];
      RunStart(mem, o, from);
      for j := 0 to |run|
        invariant OnlyCells(mem, log.data[..], o, from, from + j)
        invariant RunAt(log.data[..], o, from, run[..j])
      {
        RunStep(mem, log.data[..], o, from, run, j);
        ghost var now := log.data[..];
        log.data[log.Cell(o, from + j)] := run[j];
        assert log.data[..] == now[CL.CellOf(o, from + j, |now|) := run[j]];
      }
      assert run[..|run|] == run;
    }

    /** Stores the lengths, the hash, the key and the value of an item. */
    method SetItem(o: nat, key: Key, value: Value)
      requires log.Valid() && |key.words| <= MAX_KEY_WORDS && |value| <= MAX_VALUE_WORDS
      modifies log.data
      ensures ItemAt(old(log.data[..]), log.data[..], o, key, value)
    {
      hide OnlyCells, RunAt, ItemAt, CL.CellOf, CL.Headed, CL.Tiles, WithLengths;
      var n := |key.words|;
      ghost var m0 := log.data[..];
      log.data[log.Cell(o, 1)] := WithLengths(log.data[log.Cell(o, 1)], 8 * n, 8 * |value|);
      ghost var m1 := log.data[..];
      log.data[log.Cell(o, 2)] := key.hash;
      ghost var m2 := log.data[..];
      WriteRun(o, 3, key.words);
      ghost var m3 := log.data[..];
      WriteRun(o, 3 + n, value);
      ItemWritten(m0, m1, m2, m3, log.data[..], o, key, value);
    }

    /** Overwrites the value of an item, taking the key's length from the item itself. */
    method SetItemValue(o: nat, ghost key: Key, value: Value)
      requires log.Valid() && |key.words| <= MAX_KEY_WORDS && |value| <= MAX_VALUE_WORDS
      requires KeyAt(log.data[..], o, key)
      modifies log.data
      ensures ItemAt(old(log.data[..]), log.data[..], o, key, value)
    {
      hide OnlyCells, RunAt, ItemAt, CL.CellOf, CL.Headed, CL.Tiles, WithLengths;
      ghost var m0 := log.data[..];
      var w := log.data[log.Cell(o, 1)];
      var n := w % TWO_32 / TWO_24 / 8;
      assert n == |key.words| && w % TWO_32 / TWO_24 == 8 * n by { assert WordAt(m0, o, 1) == w; }
      log.data[log.Cell(o, 1)] := WithLengths(w, 8 * n, 8 * |value|);
      ghost var m1 := log.data[..];
      WriteRun(o, 3 + n, value);
      ValueWritten(m0, m1, log.data[..], o, key, value);
    }

    /** The key's live item is exactly 8 bytes too small for the value, a difference the size test in `Set` does
        not see because it counts the item's own header. */
    ghost predicate Spills(key: Key, value: Value)
      reads this, log, log.data
    {
      exists slot :: slot in entries && Live(Now(), entries[slot]) && entries[slot].key == key
                     && entries[slot].offset in log.blocks && log.blocks[entries[slot].offset] == ItemSize(key, value)
    }

    /** A slot's item is a live one of the key, and its block, header included, is no smaller than the new item. */
    ghost predicate FitsInPlace(slot: Slot, key: Key, value: Value)
      reads this, log, log.data
    {
      && slot in entries && Live(Now(), entries[slot]) && entries[slot].key == key
      && entries[slot].offset in log.blocks && ItemSize(key, value) <= log.blocks[entries[slot].offset]
    }

    /** Some slot of the key's bucket matches the key, be its item live or stale. */
    ghost predicate Matches(key: Key)
      requires Ready()
      reads this, buckets, log, log.data
    {
      var b := CalcBucket(key.hash, numBuckets);
      exists i | 0 <= i < |buckets[b]| :: SlotMatches(log.data[..], buckets[b][i], key)
    }

    /** Inserts or overwrites a key.  A valid table stays valid unless an in-place overwrite spills over the end of its
        item or, with a single bucket, the append makes some slot 2^48 bytes old.  From then on nothing is promised of
        an overwrite, because the validity test does not tell whether the old item is still there. */
    method Set(key: Key, value: Value, overwrite: bool) returns (result: Result)
      requires Usable() && |key.words| <= MAX_KEY_WORDS && |value| <= MAX_VALUE_WORDS
      modifies this, buckets, log, log.data
      ensures result == if !overwrite && old(Matches(key)) then Exists else Success
      ensures result.Exists? ==> Usable() && (old(Valid()) ==> Valid())
      ensures result.Exists? ==> Now() == old(Now()) && entries == old(entries)
      ensures Step(old(Track()), Track(), log.Size(), numBuckets, stride)
      ensures old(Valid()) && 2 <= numBuckets ==> Young(log.tail, entries)
      ensures result.Success? && old(Valid()) ==> (Valid() <==> !old(Spills(key, value)) && Young(log.tail, entries))
      ensures result.Success? && old(Valid() && !Spills(key, value)) ==>
                SetDone(old(Now()), old(entries), Now(), entries, key, value)
      ensures result.Success? && old(Valid()) ==>
                var b := key.hash / TWO_16 % TWO_32 % numBuckets;
                exists at :: Evictable(old(buckets[..])[b], at, CalcTag(key.hash))
                             && KeepsOthers(Now(), old(entries), entries, Slot(b, at))
      ensures result.Success? ==>
                forall slot | old(FitsInPlace(slot, key, value) && Valid()) ::
                  && log.tail == old(log.tail) && log.head == old(log.head) && log.blocks == old(log.blocks)
                  && ItemAt(old(log.data[..]), log.data[..], old(entries)[slot].offset, key, value)
                  && entries == old(entries)[slot := Entry(key, value, old(entries)[slot].offset)]
      ensures result.Success? && (old(Valid()) || !old(Matches(key)))
              && (forall slot :: !old(FitsInPlace(slot, key, value))) ==>
                && Usable() && KeyAt(log.data[..], old(log.tail), key)
                && log.blocks == old(log.blocks)[old(log.tail) := ItemSize(key, value) + CL.HEADER]
                && log.tail == old(log.tail) + ItemSize(key, value) + CL.HEADER
                && var b := key.hash / TWO_16 % TWO_32 % numBuckets;
                   exists at :: Placed(old(buckets[..]), old(entries), entries, b, at,
                                       Entry(key, value, old(log.tail)), log.tail, log.Size(), numBuckets, stride)
    {
      hide KeyAt, GetTag, GetOffset, CalcTag, CalcBucket, Slotted, Judged, CL.Tiles, CL.Headed, CL.IsValid,
           Live, SetDone, MakeItemVec, CL.Sized, CL.CellOf, KeepsOthers, ItemAt, EntriesStay, Step;
      KeepingIsStep(entries, entries, log.tail, log.Size(), numBuckets, stride);
      ghost var es := entries;
      var b := CalcBucket(key.hash, numBuckets);
      BucketIs(key.hash, numBuckets);
      var overwriting, at := FindItem(b, key);
      if Valid() {
        forall slot | old(FitsInPlace(slot, key, value))
          ensures overwriting && slot == Slot(b, at)
        {
          LiveHasMatch(Now(), buckets[..], entries, slot, b, numBuckets, stride, log.turns);
        }
      }
      if overwriting {
        if !overwrite {
          return Exists;
        }
        var done := TryInPlace(b, at, key, value);
        if done {
          KeepingIsStep(es, entries, log.tail, log.Size(), numBuckets, stride);
          return Success;
        }
      } else {
        at := PickSlot(b, CalcTag(key.hash));
      }
      assert old(Valid()) ==> forall slot :: !old(FitsInPlace(slot, key, value));
      TagOwner(buckets[..], entries, b, at, CalcTag(key.hash));
      if slot :| old(slot in entries && Live(Now(), entries[slot]) && entries[slot].key == key
                     && entries[slot].offset in log.blocks
                       && log.blocks[entries[slot].offset] == ItemSize(key, value)) {
        assert old(FitsInPlace(slot, key, value));
      }
      AppendItem(b, at, key, value);
      assert Placed(old(buckets[..]), old(entries), entries, b, at, Entry(key, value, old(log.tail)), log.tail,
                    log.Size(),
                    numBuckets, stride);
      return Success;
    }

    /** Looks a key up and copies its value, or as much of it as the buffer takes.  A stale match is found out only
        after the copy, so the buffer may be overwritten even when nothing is found. */
    method Get(key: Key, outValue: array<U64>, inLength: nat, allowMutation: bool)
      returns (result: Result, outLength: nat)
      requires Valid() && |key.words| <= MAX_KEY_WORDS && outValue != log.data
      requires inLength % 8 == 0 && inLength <= 8 * outValue.Length
      modifies this`entries, buckets, log, log.data, outValue
      ensures Usable() && (Valid() <==> Young(log.tail, entries))
      ensures last == old(last) && AnswersLess(old(Now()), old(entries), Now(), entries)
      ensures KeepsAnswers(Now(), old(entries), entries)
      ensures !allowMutation ==> Now() == old(Now()) && entries == old(entries)
      ensures result == NotFound ==> forall x :: !old(Has(Now(), entries, key, x))
      ensures result != NotFound ==>
                && key in last && old(Has(Now(), entries, key, last[key]))
                && Delivered(last[key], inLength, result, outLength, old(outValue[..]), outValue[..])
      ensures result == NotFound && allowMutation && old(Matches(key)) ==>
                exists slot :: slot in old(entries) && entries == old(entries) - {slot}
      ensures result != NotFound && allowMutation ==>
                exists slot :: slot in old(entries) && old(entries)[slot].key == key
                               && HeadMoved(old(Now()), old(entries), Now(), entries, slot, moveThreshold)
      ensures Step(old(Track()), Track(), log.Size(), numBuckets, stride)
    {
      hide KeyAt, ValueAt, GetTag, GetOffset, CalcTag, CalcBucket, Slotted, Judged, CL.Tiles, CL.Headed,
           CL.IsValid, MakeItemVec, CL.CellOf, CL.Sized, Delivered, AnswersLess, Has, KeepsAnswers, HeadMoved;
      ghost var v, es := Now(), entries;
      AnswersSame(v, es);
      AnswersKept(v, es);
      var b := CalcBucket(key.hash, numBuckets);
      var found, at := FindItem(b, key);
      if !found {
        NoMatchNoAnswer(v, buckets[..], es, b, key, numBuckets, stride, log.turns);
        return NotFound, 0;
      }
      ghost var e := MatchedLive(v, buckets[..], es, b, at, key, numBuckets, stride, log.turns);
      var offset := GetOffset(buckets[b][at]);
      var valueLength := log.data[log.Cell(offset, 1)] % TWO_24;
      var tooLong := valueLength > 8 * MAX_VALUE_WORDS + 7;
      if !tooLong {
        outLength := Min(valueLength, inLength);
        CopyOut(offset, 3 + |key.words|, outValue, outLength / 8);
      }
      MatchedAnswer(v, buckets[..], es, b, at, key, numBuckets, stride, log.turns);
      if tooLong || !CL.IsValid(log.tail, offset, log.Size()) {
        if allowMutation {
          ClearSlot(b, at);
        }
        return NotFound, 0;
      }
      result := if valueLength == outLength then Success else PartialValue;
      IsDelivered(v.mem, offset, |key.words|, e.value, inLength, result, outLength, old(outValue[..]), outValue[..]);
      if allowMutation {
        MoveToHead(b, at);
      }
    }

    /** Tells whether some slot matches, without asking whether its item is still in the log: a stale match counts. */
    method Test(key: Key) returns (result: Result)
      requires Ready() && |key.words| <= MAX_KEY_WORDS
      ensures result == if Matches(key) then Success else NotFound
      ensures Valid() && (exists x :: Has(Now(), entries, key, x)) ==> result == Success
    {
      hide KeyAt, ValueAt, GetTag, GetOffset, CalcTag, CalcBucket, Slotted, Judged, CL.Tiles, CL.Headed,
           CL.Sized, Has;
      var b := CalcBucket(key.hash, numBuckets);
      var found, at := FindItem(b, key);
      if !found && Valid() {
        NoMatchNoAnswer(Now(), buckets[..], entries, b, key, numBuckets, stride, log.turns);
      }
      result := if found then Success else NotFound;
    }

    /** Empties the slot that matches a key.  The log keeps the item. */
    method Del(key: Key) returns (result: Result)
      requires Valid() && |key.words| <= MAX_KEY_WORDS
      modifies this`entries, this`last, buckets
      ensures Valid() && result == if old(Matches(key)) then Success else NotFound
      ensures last == old(last) - {key}
      ensures forall k, x :: Has(Now(), entries, k, x) <==> k != key && old(Has(Now(), entries, k, x))
      ensures Step(old(Track()), Track(), log.Size(), numBuckets, stride)
    {
      hide KeyAt, ValueAt, GetTag, GetOffset, CalcTag, CalcBucket, Slotted, Judged, CL.Tiles, CL.Headed,
           CL.Sized, CL.IsValid, Has;
      ghost var v, bs, es := Now(), buckets[..], entries;
      var b := CalcBucket(key.hash, numBuckets);
      var found, at := FindItem(b, key);
      if found {
        ghost var slot := Slot(b, at);
        Unanswered(v, bs, es, b, at, key, numBuckets, stride, log.turns);
        SlotCleared(bs, es, b, at);
        FewerEntries(v, es, es - {slot}, SweepsDone(log.tail, numBuckets, stride), numBuckets, stride);
        buckets[b] := buckets[b][at := 0];
        assert buckets[..] == WithSlot(bs, b, at, 0);
        entries := es - {slot};
      } else {
        NoMatchNoAnswer(v, bs, es, b, key, numBuckets, stride, log.turns);
      }
      last := last - {key};
      KeyForgotten(v, entries, key, SweepsDone(log.tail, numBuckets, stride), numBuckets, stride);
      result := if found then Success else NotFound;
    }

    /** Adds to an 8-byte value in place.  A match whose item is stale is an error here, not a missing key. */
    method Increment(key: Key, increment: U64) returns (result: Result, newValue: U64)
      requires Valid() && |key.words| <= MAX_KEY_WORDS
      modifies this`entries, this`last, log.data
      ensures Valid()
      ensures result == NotFound <==> !old(Matches(key))
      ensures result == Success <==>
                key in old(last) && |old(last)[key]| == 1 && old(Has(Now(), entries, key, last[key]))
      ensures result == Success || result == NotFound || result == Error
      ensures result == Success ==>
                && newValue == (old(last)[key][0] + increment) % TWO_64
                && SetDone(old(Now()), old(entries), Now(), entries, key, [newValue]) && log.tail == old(log.tail)
                && exists t :: t in old(entries)
                               && entries == old(entries)[t := Entry(key, [newValue], old(entries)[t].offset)]
      ensures result != Success ==> Now() == old(Now()) && entries == old(entries)
      ensures Step(old(Track()), Track(), log.Size(), numBuckets, stride)
    {
      hide KeyAt, ValueAt, GetTag, GetOffset, CalcTag, CalcBucket, Slotted, Judged, CL.Tiles, CL.Headed,
           CL.Sized, CL.IsValid, CL.CellOf, Has, ItemAt, SetDone, Live;
      ghost var v, bs, es := Now(), buckets[..], entries;
      var b := CalcBucket(key.hash, numBuckets);
      var found, at := FindItem(b, key);
      if !found {
        NoMatchNoAnswer(v, bs, es, b, key, numBuckets, stride, log.turns);
        return NotFound, 0;
      }
      ghost var e := MatchedLive(v, bs, es, b, at, key, numBuckets, stride, log.turns);
      MatchedAnswer(v, bs, es, b, at, key, numBuckets, stride, log.turns);
      var offset := GetOffset(buckets[b][at]);
      if !CL.IsValid(log.tail, offset, log.Size()) || log.data[log.Cell(offset, 1)] % TWO_24 != 8 {
        return Error, 0;
      }
      LiveKey(v, bs, es, b, at, SweepsDone(log.tail, numBuckets, stride), numBuckets, stride, log.turns);
      var cell := log.Cell(offset, 3 + |key.words|);
      FirstWord(v.mem, offset, |key.words|, e.value);
      newValue := (log.data[cell] + increment) % TWO_64;
      OneWordWritten(v.mem, offset, key, e.value, newValue);
      log.data[cell] := newValue;
      entries, last := es[Slot(b, at) := Entry(key, [newValue], e.offset)], last[key := [newValue]];
      OverwriteFollows(v, Now(), bs, es, Slot(b, at), [newValue], SweepsDone(log.tail, numBuckets, stride), numBuckets,
                       stride,
                       log.turns);
      return Success, newValue;
    }

    /** Empties every bucket and the log. */
    method Reset()
      requires Ready()
      modifies this`entries, this`last, buckets, log
      ensures Valid() && last == map[] && forall k, x :: !Has(Now(), entries, k, x)
    {
      hide CL.Headed, CL.Sized;
      log.Reset();
      for b := 0 to numBuckets
        invariant log.Valid() && log.tail == 0
        invariant forall c | 0 <= c < b :: buckets[c] == seq(BUCKET_SIZE, _ => 0)
      {
        buckets[b] := seq(BUCKET_SIZE, _ => 0);
      }
      entries, last := map[], map[];
    }

    /** Empties a slot that is known to be stale. */
    method ClearSlot(b: nat, at: nat)
      requires Valid() && b < numBuckets && at < BUCKET_SIZE && Slot(b, at) in entries
               && !Live(Now(), entries[Slot(b, at)])
      modifies this`entries, buckets
      ensures Valid() && AnswersLess(Now(), old(entries), Now(), entries)
      ensures entries == old(entries) - {Slot(b, at)} && KeepsAnswers(Now(), old(entries), entries)
    {
      hide Slotted, Judged, CL.Tiles, CL.Headed, CL.Sized, Live;
      ghost var bs, es := buckets[..], entries;
      SlotSays(bs, es, b, at);
      SlotCleared(bs, es, b, at);
      FewerEntries(Now(), es, es - {Slot(b, at)}, SweepsDone(log.tail, numBuckets, stride), numBuckets, stride);
      buckets[b] := buckets[b][at := 0];
      assert buckets[..] == WithSlot(bs, b, at, 0);
      entries := es - {Slot(b, at)};
    }

    /** Copies n words from position `from` after an offset to the front of a buffer. */
    method CopyOut(o: nat, from: nat, out: array<U64>, n: nat)
      requires log.Valid() && out != log.data && n <= out.Length
      modifies out
      ensures forall i | 0 <= i < n :: out[i] == WordAt(log.data[..], o, from + i)
      ensures forall i | n <= i < out.Length :: out[i] == old(out[i])
    {
      hide CL.Tiles, CL.Headed, CL.Sized, CL.CellOf;
      for j := 0 to n
        invariant forall i | 0 <= i < j :: out[i] == WordAt(log.data[..], o, from + i)
        invariant forall i | n <= i < out.Length :: out[i] == old(out[i])
      {
        out[j] := log.data[log.Cell(o, from + j)];
      }
    }

    /** Copies a live item that is far from the tail to the tail, unless making room for it has made it stale. */
    method MoveToHead(b: nat, at: nat)
      requires Valid() && b < numBuckets && at < BUCKET_SIZE && |buckets[b]| == BUCKET_SIZE
      requires Slot(b, at) in entries && Live(Now(), entries[Slot(b, at)])
      modifies this`entries, buckets, log, log.data
      ensures Usable() && (Valid() <==> Young(log.tail, entries)) && last == old(last)
      ensures AnswersLess(old(Now()), old(entries), Now(), entries)
      ensures KeepsAnswers(Now(), old(entries), entries)
      ensures HeadMoved(old(Now()), old(entries), Now(), entries, Slot(b, at), moveThreshold)
      ensures Step(old(Track()), Track(), log.Size(), numBuckets, stride)
    {
      hide KeyAt, ValueAt, GetTag, GetOffset, CalcTag, CalcBucket, Slotted, Judged, CL.Tiles, CL.Headed, Moved,
           CL.IsValid, MakeItemVec, CL.CellOf, CL.Sized, AnswersLess, Has, Counter, SweepEnd, Live, Intact,
             KeepsAnswers;
      ghost var v, e := Now(), entries[Slot(b, at)];
      AnswersSame(v, entries);
      AnswersKept(v, entries);
      LiveKey(v, buckets[..], entries, b, at, SweepsDone(log.tail, numBuckets, stride), numBuckets, stride, log.turns);
      LiveItem(v, e, log.turns);
      var offset := GetOffset(buckets[b][at]);
      var lengths := log.data[log.Cell(offset, 1)];
      var itemSize := 16 + lengths % TWO_32 / TWO_24 + lengths % TWO_24;
      TrueDistance(log.tail, e.offset, log.words, log.turns);
      if Distance(buckets[b][at]) > moveThreshold {
        CopyToTail(b, at, offset, itemSize);
      }
    }

    /** Appends a block for a live item and, unless that has made the item stale, moves it there. */
    method CopyToTail(b: nat, at: nat, offset: nat, itemSize: nat)
      requires Valid() && b < numBuckets && at < BUCKET_SIZE && |buckets[b]| == BUCKET_SIZE
      requires Slot(b, at) in entries && Live(Now(), entries[Slot(b, at)]) && Intact(Now(), entries[Slot(b, at)])
      requires var e := entries[Slot(b, at)];
               && itemSize == ItemSize(e.key, e.value) && itemSize + CL.HEADER <= MAX_BLOCK
               && offset == e.offset % TWO_48 && e.offset % 8 == 0
      modifies this`entries, buckets, log, log.data
      ensures Usable() && (Valid() <==> Young(log.tail, entries)) && last == old(last)
      ensures AnswersLess(old(Now()), old(entries), Now(), entries)
      ensures KeepsAnswers(Now(), old(entries), entries)
      ensures Moved(old(Now()), old(entries), Now(), entries, Slot(b, at))
      ensures Step(old(Track()), Track(), log.Size(), numBuckets, stride)
    {
      hide KeyAt, ValueAt, GetTag, GetOffset, CalcTag, CalcBucket, Slotted, Judged, CL.Tiles, CL.Headed, Moved,
           CL.IsValid, MakeItemVec, CL.CellOf, CL.Sized, AnswersLess, Has, Counter, SweepEnd, Live, Intact,
             KeepsAnswers, Step, EntriesStay, KeepsLive, Young, SweepsDone;
      ghost var v, es, tail, sweeps := Now(), entries, log.tail, SweepsDone(log.tail, numBuckets, stride);
      var newOffset := log.PushTail(itemSize + CL.HEADER);
      ghost var v1 := Now();
      IsPushed(v, v1, itemSize + CL.HEADER);
      JudgedAfterPush(v, v1, es, itemSize + CL.HEADER, sweeps, numBuckets, stride);
      StillLive(v, v1, es, Slot(b, at), itemSize + CL.HEADER, numBuckets, stride);
      if CL.IsValid(log.tail, offset, log.Size()) {
        Relocate(b, at, offset, newOffset, itemSize / 8, v);
      } else {
        AnswersLater(v, v1, es);
      }
      ghost var es1 := entries;
      SlotsInside(buckets[..], entries);
      Cleanup(newOffset, tail);
      CopiedAndCleaned(v, es, v1, Now(), es1, entries, Slot(b, at), numBuckets, stride);
    }

    /** Copies a live item to the block just appended and points its slot there. */
    method Relocate(b: nat, at: nat, offset: nat, newOffset: nat, count: nat, ghost v: View)
      requires Ready() && b < numBuckets && at < BUCKET_SIZE && |buckets[b]| == BUCKET_SIZE
      requires Slot(b, at) in entries
      requires var e := entries[Slot(b, at)];
               && Intact(v, e) && Live(Now(), e) && 8 * count == ItemSize(e.key, e.value) && e.offset % 8 == 0
               && offset == e.offset % TWO_48 && newOffset == v.tail % TWO_48
                 && log.tail == v.tail + 8 * count + CL.HEADER
      requires Pushed(v, Now(), 8 * count + CL.HEADER) && v.last == last && |v.mem| == log.words
      requires Judged(v, entries, SweepsDone(v.tail, numBuckets, stride), numBuckets, stride)
      modifies this`entries, buckets, log.data
      ensures Ready() && Judged(Now(), entries, SweepsDone(v.tail, numBuckets, stride), numBuckets, stride)
      ensures AnswersLess(v, old(entries), Now(), entries) && last == v.last && log.tail == old(log.tail)
      ensures entries ==
                old(entries)[Slot(b, at) := Entry(old(entries[Slot(b, at)]).key, old(entries[Slot(b, at)]).value,
                                                           v.tail)]
    {
      hide KeyAt, ValueAt, GetTag, GetOffset, CalcTag, CalcBucket, Slotted, Judged, CL.Tiles, CL.Headed,
           MakeItemVec, CL.CellOf, CL.Sized, AnswersLess, Has, Counter, Pushed, Intact, Live, OnlyCells;
      ghost var bs, es, slot, v1 := buckets[..], entries, Slot(b, at), Now();
      ghost var e := es[slot];
      CopiesApart(v, v1, e, count, log.turns);
      CopyItem(offset, newOffset, count);
      ghost var v2 := Now();
      IsCopied(v, v1, v2, e, count, log.turns);
      HeadedKept(v1.mem, v2.mem, v1.blocks, v1.tail, v.tail, 1 + count)
        by { NewBlock(v, v1, 8 * count + CL.HEADER); }
      SlotAlone(v, bs, es, slot, SweepsDone(v.tail, numBuckets, stride), numBuckets, stride);
      JudgedAfterAppend(v, v2, es, e.key, e.value, 8 * count + CL.HEADER, slot, numBuckets, stride);
      SlotSays(bs, es, b, at);
      SlotWritten(bs, es, b, at, Entry(e.key, e.value, v.tail));
      buckets[b] := buckets[b][at := MakeItemVec(GetTag(buckets[b][at]), newOffset)];
      assert buckets[..] == WithSlot(bs, b, at, MakeItemVec(CalcTag(e.key.hash), v.tail % TWO_48));
      entries := es[slot := Entry(e.key, e.value, v.tail)];
      AnswersAfterMove(v, es, v2, entries, slot, numBuckets, stride);
    }

    /** Copies the words of an item, without its header. */
    method CopyItem(from: nat, to: nat, count: nat)
      requires log.Valid() && count + 1 < log.words
      requires forall i: nat, j: nat | 1 <= i <= count && 1 <= j <= count ::
                 CL.CellOf(from, i, log.words) != CL.CellOf(to, j, log.words)
      modifies log.data
      ensures OnlyCells(old(log.data[..]), log.data[..], to, 1, 1 + count)
      ensures forall i: nat | 1 <= i <= count :: WordAt(log.data[..], to, i) == WordAt(old(log.data[..]), from, i)
    {
      hide CL.CellOf, CL.Tiles, CL.Headed, CL.Sized;
      ghost var m0 := log.data[..];
      for j := 1 to count + 1
        invariant OnlyCells(m0, log.data[..], to, 1, j)
        invariant forall i: nat | 1 <= i < j :: WordAt(log.data[..], to, i) == WordAt(m0, from, i)
        invariant forall i: nat | 1 <= i <= count :: WordAt(log.data[..], from, i) == WordAt(m0, from, i)
      {
        ghost var m := log.data[..];
        forall i: nat | 1 <= i < j
          ensures CL.CellOf(to, i, log.words) != CL.CellOf(to, j, log.words)
        {
          CL.CellsApart(to, i, to, j, log.words);
        }
        log.data[log.Cell(to, j)] := log.data[log.Cell(from, j)];
        OnlyCellsStep(m0, m, to, 1, j, log.data[log.Cell(to, j)]);
      }
    }

    /** The slot to give to a new item: the one with its tag, which may hold the same key but stale, or an empty
        one, or the one that seems nearest to the tail. */
    method PickSlot(b: nat, tag: U16) returns (at: nat)
      requires Ready() && b < numBuckets && tag != 0
      ensures |buckets[b]| == BUCKET_SIZE && at < BUCKET_SIZE
      ensures GetTag(buckets[b][at]) == tag || forall j | 0 <= j < BUCKET_SIZE :: GetTag(buckets[b][j]) != tag
      ensures Evictable(buckets[b], at, tag)
    {
      hide GetTag, CL.Tiles, CL.Headed, CL.Sized;
      var same;
      same, at := FindSameTag(b, tag);
      if !same {
        at := GetEmptyOrOldest(b);
      }
    }

    /** Overwrites the value of a matching slot's item when that is still valid and, by its header, large enough. */
    method TryInPlace(b: nat, at: nat, key: Key, value: Value) returns (done: bool)
      requires Usable() && |key.words| <= MAX_KEY_WORDS && |value| <= MAX_VALUE_WORDS
      requires b < numBuckets && at < |buckets[b]| == BUCKET_SIZE && SlotMatches(log.data[..], buckets[b][at], key)
      modifies this`entries, this`last, log.data
      ensures !done ==> Usable() && Now() == old(Now()) && entries == old(entries)
      ensures forall t | t in entries :: t in old(entries) && entries[t].offset == old(entries)[t].offset
      ensures old(Valid()) ==> (done <==> old(FitsInPlace(Slot(b, at), key, value)))
      ensures old(Valid()) && done ==>
                && (Valid() <==> !old(Spills(key, value)))
                && (Valid() ==> SetDone(old(Now()), old(entries), Now(), entries, key, value))
                && KeepsOthers(Now(), old(entries), entries, Slot(b, at))
                && ItemAt(old(log.data[..]), log.data[..], old(entries)[Slot(b, at)].offset, key, value)
                && entries == old(entries)[Slot(b, at) := Entry(key, value, old(entries)[Slot(b, at)].offset)]
    {
      hide KeyAt, GetTag, GetOffset, CalcTag, CalcBucket, Slotted, Judged, CL.Tiles, CL.Headed, CL.IsValid,
           SetDone, MakeItemVec, CL.CellOf, CL.Sized, ItemAt, SweepsDone;
      var offset := GetOffset(buckets[b][at]);
      SlotSays(buckets[..], entries, b, at);
      ghost var e := entries[Slot(b, at)];
      if Valid() {
        e := MatchedLive(Now(), buckets[..], entries, b, at, key, numBuckets, stride, log.turns);
        OneFits(Now(), buckets[..], entries, Slot(b, at), key, value, SweepsDone(log.tail, numBuckets, stride),
                numBuckets, stride);
      }
      if CL.IsValid(log.tail, offset, log.Size()) {
        if log.data[log.Cell(offset, 0)] >= ItemSize(key, value) {
          if Valid() {
            BlockLength(log.blocks, log.tail, log.Size(), e.offset);
            assert Spills(key, value) <==> log.blocks[e.offset] < ItemSize(key, value) + CL.HEADER;
          }
          OverwriteInPlace(b, at, key, value);
          return true;
        }
      }
      return false;
    }

    /** Overwrites the value of a live item in its place.  That leaves a valid table valid exactly when the new item
        stays within the block. */
    method OverwriteInPlace(b: nat, at: nat, key: Key, value: Value)
      requires Usable() && |key.words| <= MAX_KEY_WORDS && |value| <= MAX_VALUE_WORDS
      requires b < numBuckets && at < |buckets[b]| == BUCKET_SIZE && Slot(b, at) in entries
      requires SlotMatches(log.data[..], buckets[b][at], key)
      requires Valid() ==> Live(Now(), entries[Slot(b, at)]) && entries[Slot(b, at)].key == key
      modifies this`entries, this`last, log.data
      ensures entries == old(entries)[Slot(b, at) := Entry(key, value, old(entries[Slot(b, at)]).offset)]
      ensures old(Valid()) ==>
                var e := old(entries[Slot(b, at)]);
                && e.offset in log.blocks
                && ItemAt(old(log.data[..]), log.data[..], e.offset, key, value)
                && (Valid() <==> ItemSize(key, value) + CL.HEADER <= log.blocks[e.offset])
                && (Valid() ==> SetDone(old(Now()), old(entries), Now(), entries, key, value))
    {
      hide KeyAt, ValueAt, GetTag, CalcTag, CalcBucket, Slotted, CL.Tiles, CL.Headed, Live, SetDone,
           MakeItemVec, OnlyCells, Judged, ItemAt, Intact, CL.Sized, CL.CellOf;
      ghost var v, es, slot, valid := Now(), entries, Slot(b, at), Valid();
      ghost var e := es[slot];
      if valid {
        LiveKey(v, buckets[..], es, b, at, SweepsDone(log.tail, numBuckets, stride), numBuckets, stride, log.turns);
      }
      var offset := GetOffset(buckets[b][at]);
      SetItemValue(offset, key, value);
      entries, last := es[slot := Entry(key, value, e.offset)], last[key := value];
      if valid {
        MaskedItem(v.mem, log.data[..], e.offset, key, value, log.turns);
        if ItemSize(key, value) + CL.HEADER <= log.blocks[e.offset] {
          OverwriteFollows(v, Now(), buckets[..], es, slot, value, SweepsDone(log.tail, numBuckets, stride), numBuckets,
                           stride,
                           log.turns);
        } else {
          SameLife(v, Now(), e, entries[slot]);
          SpillJudged(Now(), entries, slot, SweepsDone(log.tail, numBuckets, stride), numBuckets, stride);
        }
      }
    }

    /** Appends a new item, points a slot at it and sweeps the buckets whose turn has come. */
    method AppendItem(b: nat, at: nat, key: Key, value: Value)
      requires Usable() && |key.words| <= MAX_KEY_WORDS && |value| <= MAX_VALUE_WORDS
      requires b == CalcBucket(key.hash, numBuckets) && at < |buckets[b]| == BUCKET_SIZE
      requires forall j | 0 <= j < BUCKET_SIZE && j != at && buckets[b][j] != 0 ::
                 GetTag(buckets[b][j]) != CalcTag(key.hash)
      modifies this, buckets, log, log.data
      ensures Usable() && EntriesStay(old(entries)[Slot(b, at) := Entry(key, value, old(log.tail))], entries,
                                      old(log.tail), log.tail, log.Size(), numBuckets, stride)
      ensures old(Valid()) ==>
                && (Valid() <==> Young(log.tail, entries))
                && SetDone(old(Now()), old(entries), Now(), entries, key, value)
                && KeepsOthers(Now(), old(entries), entries, Slot(b, at))
      ensures log.tail == old(log.tail) + ItemSize(key, value) + CL.HEADER && KeyAt(log.data[..], old(log.tail), key)
      ensures log.blocks == old(log.blocks)[old(log.tail) := ItemSize(key, value) + CL.HEADER]
      ensures Step(old(Track()), Track(), log.Size(), numBuckets, stride)
    {
      hide KeyAt, ValueAt, GetTag, CalcTag, CalcBucket, Slotted, CL.Tiles, CL.Headed, Live, SetDone,
           MakeItemVec, OnlyCells, Judged, CL.Sized, CL.CellOf, KeepsOthers, EntriesStay, Step;
      ghost var v, es, slot, tail, valid := Now(), entries, Slot(b, at), log.tail, Valid();
      var length := ItemSize(key, value) + CL.HEADER;
      var offset := log.PushTail(length);
      ghost var m1 := log.data[..];
      SetItem(offset, key, value);
      ghost var m2 := log.data[..];
      MaskedItem(m1, m2, tail, key, value, log.turns);
      last := last[key := value];
      IsAppended(v, m1, Now(), key, value, length);
      HeadedKept(m1, m2, log.blocks, log.tail, tail, length / 8);
      if valid {
        OtherTags(buckets[..], es, v, b, at, key, SweepsDone(v.tail, numBuckets, stride), numBuckets, stride);
        JudgedAfterAppend(v, Now(), es, key, value, length, slot, numBuckets, stride);
      }
      SlotWritten(buckets[..], es, b, at, Entry(key, value, tail));
      ghost var bs := buckets[..];
      buckets[b] := buckets[b][at := MakeItemVec(CalcTag(key.hash), offset)];
      assert buckets[..] == WithSlot(bs, b, at, MakeItemVec(CalcTag(key.hash), tail % TWO_48));
      entries := es[slot := Entry(key, value, tail)];
      if valid {
        SetDoneAfterAppend(v, es, Now(), entries, slot, key, value);
      }
      ghost var es1 := entries;
      Cleanup(offset, tail);
      SlotsInside(bs, es);
      if valid {
        CleanedUp(Now(), es1, entries, tail, numBuckets, stride);
        SetDoneAfterSweep(v, es, Now(), es1, entries, key, value);
        OthersAfterSweep(Now(), es, es1, entries, slot);
      }
      AppendIsStep(es, es1, entries, tail, log.tail, log.Size(), numBuckets, stride);
    }
  }

  lemma KeepingIsStep(es: Entries, es': Entries, tail: nat, size: nat, nb: nat, stride: nat)
    requires 0 < nb && 0 < stride && forall t | t in es' :: t in es && es'[t].offset == es[t].offset
    ensures Step(State(tail, OffsetsOf(es)), State(tail, OffsetsOf(es')), size, nb, stride)
  {
  }

  lemma AppendIsStep(es: Entries, es1: Entries, es': Entries, oldTail: nat, tail: nat, size: nat, nb: nat, stride: nat)
    requires 0 < nb && 0 < stride && oldTail < tail <= oldTail + MAX_BLOCK
    requires forall t | t in es1 ::
               (t in es && es1[t].offset == es[t].offset) || (t.bucket < nb && es1[t].offset == oldTail)
    requires EntriesStay(es1, es', oldTail, tail, size, nb, stride)
    ensures Step(State(oldTail, OffsetsOf(es)), State(tail, OffsetsOf(es')), size, nb, stride)
  {
    hide Stays;
    var s, s' := State(oldTail, OffsetsOf(es)), State(tail, OffsetsOf(es'));
    assert Pointed(s, OffsetsOf(es1), nb) && Cleaned(s, OffsetsOf(es1), s', size, nb, stride);
  }

  /** What appending an item does to slots: one that may be given to it points at it, and a cleanup follows. */
  ghost predicate Placed(bs: Buckets, es: Entries, es': Entries, b: nat, at: nat, e: Entry, tail: nat, size: nat,
                            nb: nat, stride: nat)
    requires 0 < nb && 0 < stride && b < |bs|
  {
    && Evictable(bs[b], at, CalcTag(e.key.hash))
    && (GetTag(bs[b][at]) == CalcTag(e.key.hash)
        || forall j | 0 <= j < |bs[b]| :: GetTag(bs[b][j]) != CalcTag(e.key.hash))
    && EntriesStay(es[Slot(b, at) := e], es', e.offset, tail, size, nb, stride)
  }

  /** An item that does not fit its block is not intact. */
  lemma SpillJudged(v: View, es: Entries, slot: Slot, sweeps: nat, nb: nat, stride: nat)
    requires 0 < nb && slot in es && Live(v, es[slot]) && es[slot].offset in v.blocks
    requires v.blocks[es[slot].offset] < ItemSize(es[slot].key, es[slot].value) + CL.HEADER
    ensures !Judged(v, es, sweeps, nb, stride)
  {
    assert EntryOk(v, slot.bucket, es[slot], sweeps, nb, stride) ==> Intact(v, es[slot]);
  }

  lemma SameLife(v: View, v': View, e: Entry, e': Entry)
    requires Live(v, e) && v'.tail == v.tail && |v'.mem| == |v.mem| && e'.offset == e.offset
    ensures Live(v', e')
  {
  }

  /** A key has at most one item. */
  lemma OneFits(v: View, bs: Buckets, es: Entries, slot: Slot, key: Key, value: Value, sweeps: nat, nb: nat,
                stride: nat)
    requires 0 < nb && |bs| == nb && Slotted(bs, es) && Judged(v, es, sweeps, nb, stride) && slot in es
    ensures es[slot].key == key ==> forall t | t in es && es[t].key == key :: t == slot
  {
    hide Judged, Slotted;
    SlotAlone(v, bs, es, slot, sweeps, nb, stride);
  }

  /** At most one slot of a bucket has a given tag. */
  lemma TagOwner(bs: Buckets, entries: Entries, b: nat, at: nat, tag: U16)
    requires Slotted(bs, entries) && b < |bs| && at < BUCKET_SIZE && tag != 0
    requires GetTag(bs[b][at]) == tag || forall j | 0 <= j < |bs[b]| :: GetTag(bs[b][j]) != tag
    ensures |bs[b]| == BUCKET_SIZE
    ensures forall j | 0 <= j < BUCKET_SIZE && j != at && bs[b][j] != 0 :: GetTag(bs[b][j]) != tag
  {
    hide SlotOk;
    if GetTag(bs[b][at]) == tag {
      assert bs[b][at] != 0;
    }
  }

  /** No entry but that of the slot has the key. */
  lemma OtherTags(bs: Buckets, entries: Entries, v: View, b: nat, at: nat, key: Key, sweeps: nat, nb: nat, stride: nat)
    requires 0 < nb && |bs| == nb && Slotted(bs, entries) && Judged(v, entries, sweeps, nb, stride)
    requires b == CalcBucket(key.hash, nb) && at < BUCKET_SIZE && |bs[b]| == BUCKET_SIZE
    requires forall j | 0 <= j < BUCKET_SIZE && j != at && bs[b][j] != 0 :: GetTag(bs[b][j]) != CalcTag(key.hash)
    ensures forall t | t in entries && t != Slot(b, at) :: entries[t].key != key && entries[t].offset <= v.tail
  {
    hide CalcTag, GetTag, CalcBucket, MakeItemVec, GetOffset, Intact, Swept;
    forall t | t in entries && t != Slot(b, at)
      ensures entries[t].key != key && entries[t].offset <= v.tail
    {
      assert EntryOk(v, t.bucket, entries[t], sweeps, nb, stride);
      SlotSays(bs, entries, t.bucket, t.at);
    }
  }

  lemma BlockLength(bl: CL.Blocks, tail: nat, size: nat, o: nat)
    requires CL.Tiles(bl, tail, size) && o in bl
    ensures bl[o] % 8 == 0
  {
    var e := CL.EndOf(bl, o);
  }

  lemma KeyAtUnique(mem: seq<U64>, o: nat, k: Key, l: Key)
    requires 0 < |mem| && KeyAt(mem, o, k) && KeyAt(mem, o, l)
    ensures k == l
  {
    hide CL.CellOf;
    assert |k.words| == |l.words|;
    forall j | 0 <= j < |k.words|
      ensures k.words[j] == l.words[j]
    {
      assert WordAt(mem, o, 3 + j) == k.words[j];
    }
  }

  lemma MaskedWords(mem: seq<U64>, o: nat, turns: nat)
    requires CL.Sized(|mem|, turns) && o % 8 == 0
    ensures forall j: nat {:trigger CL.CellOf(o % TWO_48, j, |mem|)} ::
              CL.CellOf(o % TWO_48, j, |mem|) == CL.CellOf(o, j, |mem|)
    ensures forall j: nat {:trigger CL.CellOf(o, j, |mem|)} :: CL.CellOf(o % TWO_48, j, |mem|) == CL.CellOf(o, j, |mem|)
  {
    forall j: nat
      ensures CL.CellOf(o % TWO_48, j, |mem|) == CL.CellOf(o, j, |mem|)
    {
      CL.MaskedCell(o, j, |mem|, turns);
    }
  }

  /** What stands at a masked offset stands at the offset. */
  lemma MaskedViews(mem: seq<U64>, o: nat, turns: nat)
    requires CL.Sized(|mem|, turns) && o % 8 == 0
    ensures forall key {:trigger KeyAt(mem, o % TWO_48, key)} :: KeyAt(mem, o % TWO_48, key) <==> KeyAt(mem, o, key)
    ensures WordAt(mem, o % TWO_48, 0) == WordAt(mem, o, 0) && WordAt(mem, o % TWO_48, 1) == WordAt(mem, o, 1)
  {
    hide CL.CellOf;
    MaskedWords(mem, o, turns);
  }

  lemma MaskedItem(mem: seq<U64>, mem': seq<U64>, o: nat, key: Key, value: Value, turns: nat)
    requires CL.Sized(|mem|, turns) && o % 8 == 0 && |mem| == |mem'| && ItemAt(mem, mem', o % TWO_48, key, value)
    ensures ItemAt(mem, mem', o, key, value)
  {
    hide CL.CellOf;
    MaskedWords(mem, o, turns);
  }

  /** A matching slot is valid exactly when its entry is live, and then the entry has the key. */
  lemma MatchedLive(v: View, bs: Buckets, entries: Entries, b: nat, i: nat, key: Key, nb: nat, stride: nat, turns: nat)
    returns (e: Entry)
    requires 0 < stride && |bs| == nb && b < nb && i < BUCKET_SIZE && CL.Sized(|v.mem|, turns)
    requires Young(v.tail, entries)
    requires Slotted(bs, entries) && Judged(v, entries, SweepsDone(v.tail, nb, stride), nb, stride)
             && CL.Headed(v.mem, v.blocks, v.tail)
    requires |bs[b]| == BUCKET_SIZE && SlotMatches(v.mem, bs[b][i], key)
    ensures Slot(b, i) in entries && e == entries[Slot(b, i)]
    ensures && (CL.IsValid(v.tail, GetOffset(bs[b][i]), 8 * |v.mem|) <==> Live(v, e))
            && (Live(v, e) ==>
                    e.key == key && Intact(v, e) && WordAt(v.mem, GetOffset(bs[b][i]), 0) == v.blocks[e.offset])
  {
    hide CalcTag, GetTag, CalcBucket, MakeItemVec, KeyAt, ValueAt, Swept, CL.IsValid, Slotted, CL.CellOf, CL.Sized;
    SlotSays(bs, entries, b, i);
    e := entries[Slot(b, i)];
    assert EntryOk(v, b, e, SweepsDone(v.tail, nb, stride), nb, stride);
    CL.ValidityRight(v.tail, e.offset, 8 * |v.mem|);
    MaskedViews(v.mem, e.offset, turns);
    if Live(v, e) {
      KeyAtUnique(v.mem, e.offset, e.key, key);
    }
  }

  /** Writing only behind the header of a block that is within the log keeps every header. */
  lemma HeadedKept(mem: seq<U64>, mem': seq<U64>, bl: CL.Blocks, tail: nat, o: nat, to: nat)
    requires CL.Headed(mem, bl, tail) && CL.Tiles(bl, tail, 8 * |mem|) && OnlyCells(mem, mem', o, 1, to) && 1 <= to
    requires o in bl && CL.Within(tail, o, 8 * |mem|) && 8 * to <= bl[o] && tail % 8 == 0
    ensures CL.Headed(mem', bl, tail)
  {
    forall p | p in bl && CL.Within(tail, p, 8 * |mem|)
      ensures mem'[CL.CellOf(p, 0, |mem|)] == mem[CL.CellOf(p, 0, |mem|)]
    {
      var e, f := CL.EndOf(bl, o), CL.EndOf(bl, p);
      forall j: nat | 1 <= j < to
        ensures CL.CellOf(p, 0, |mem|) != CL.CellOf(o, j, |mem|)
      {
        CL.CellsApart(p, 0, o, j, |mem|);
      }
    }
  }

  lemma LiveKey(v: View, bs: Buckets, es: Entries, b: nat, at: nat, sweeps: nat, nb: nat, stride: nat, turns: nat)
    requires 0 < nb && b < |bs| && at < BUCKET_SIZE && CL.Sized(|v.mem|, turns)
    requires Slotted(bs, es) && Judged(v, es, sweeps, nb, stride) && Slot(b, at) in es && Live(v, es[Slot(b, at)])
    ensures |bs[b]| == BUCKET_SIZE && KeyAt(v.mem, GetOffset(bs[b][at]), es[Slot(b, at)].key)
    ensures GetOffset(bs[b][at]) == es[Slot(b, at)].offset % TWO_48 && Intact(v, es[Slot(b, at)])
    ensures es[Slot(b, at)].offset % 8 == 0 && es[Slot(b, at)].offset in v.blocks
  {
    hide GetTag, CalcTag, CalcBucket, MakeItemVec, KeyAt, ValueAt, Swept, Slotted, CL.Sized;
    SlotSays(bs, es, b, at);
    assert EntryOk(v, b, es[Slot(b, at)], sweeps, nb, stride);
    MaskedViews(v.mem, es[Slot(b, at)].offset, turns);
  }

  lemma OverwriteFollows(v: View, v': View, bs: Buckets, es: Entries, slot: Slot, value: Value, sweeps: nat, nb: nat,
                         stride: nat, turns: nat)
    requires 0 < nb && CL.Sized(|v.mem|, turns) && |v'.mem| == |v.mem| && v.tail % 8 == 0
    requires Slotted(bs, es) && Judged(v, es, sweeps, nb, stride)
    requires CL.Headed(v.mem, v.blocks, v.tail) && CL.Tiles(v.blocks, v.tail, 8 * |v.mem|)
    requires slot in es && Live(v, es[slot]) && Intact(v, es[slot]) && es[slot].offset % 8 == 0
    requires |value| <= MAX_VALUE_WORDS && ItemSize(es[slot].key, value) + CL.HEADER <= v.blocks[es[slot].offset]
    requires ItemAt(v.mem, v'.mem, es[slot].offset % TWO_48, es[slot].key, value)
    requires v'.blocks == v.blocks && v'.tail == v.tail && v'.last == v.last[es[slot].key := value]
    ensures var es' := es[slot := Entry(es[slot].key, value, es[slot].offset)];
            && CL.Headed(v'.mem, v.blocks, v.tail) && Slotted(bs, es') && Judged(v', es', sweeps, nb, stride)
            && SetDone(v, es, v', es', es[slot].key, value)
  {
    hide Slotted, Judged, CL.Headed, CL.Tiles, SetDone, ItemAt, CL.Sized, CL.CellOf, KeyAt, ValueAt, OnlyCells;
    var e := es[slot];
    MaskedItem(v.mem, v'.mem, e.offset, e.key, value, turns);
    IsOverwrote(v, v', e, value);
    HeadedKept(v.mem, v'.mem, v.blocks, v.tail, e.offset, 3 + |e.key.words| + |value|);
    JudgedAfterOverwrite(v, v', bs, es, slot, value, sweeps, nb, stride);
    SetDoneWhen(v, es, v', es[slot := Entry(e.key, value, e.offset)], slot, e.key, value, bs, sweeps, nb, stride);
  }

  lemma IsOverwrote(v: View, v': View, e: Entry, value: Value)
    requires 0 < |v.mem| == |v'.mem| && v.tail % 8 == 0 && CL.Tiles(v.blocks, v.tail, 8 * |v.mem|)
    requires Intact(v, e) && Live(v, e) && |value| <= MAX_VALUE_WORDS && ItemAt(v.mem, v'.mem, e.offset, e.key, value)
    requires ItemSize(e.key, value) + CL.HEADER <= v.blocks[e.offset]
    requires v'.blocks == v.blocks && v'.tail == v.tail && v'.last == v.last[e.key := value]
    ensures Overwrote(v, v', e, value) && OnlyCells(v.mem, v'.mem, e.offset, 1, 3 + |e.key.words| + |value|)
  {
  }

  lemma IsAppended(v: View, m1: seq<U64>, v': View, key: Key, value: Value, length: nat)
    requires 0 < |v.mem| && v.tail % 8 == 0 && CL.Tiles(v.blocks, v.tail, 8 * |v.mem|)
    requires |key.words| <= MAX_KEY_WORDS && |value| <= MAX_VALUE_WORDS
    requires length == ItemSize(key, value) + CL.HEADER <= 8 * |v.mem| && length < TWO_64
    requires var w: U64 := length; m1 == v.mem[CL.CellOf(v.tail, 0, |v.mem|) := w]
    requires 0 < |v'.mem| && ItemAt(m1, v'.mem, v.tail, key, value)
    requires v'.blocks == v.blocks[v.tail := length] && v'.tail == v.tail + length && v'.last == v.last[key := value]
    ensures Appended(v, v', key, value, length) && OnlyCells(m1, v'.mem, v.tail, 1, length / 8)
  {
    hide KeyAt, ValueAt, CL.CellOf, OnlyCells;
    var w: U64 := length;
    OneCell(v.mem, v.tail, 0, w);
    OnlyCellsTrans(v.mem, m1, v'.mem, v.tail, 0, 1, 1, length / 8, 0, length / 8);
  }

  /** The table answers nothing that it did not answer before. */
  ghost predicate AnswersLess(v: View, es: Entries, v': View, es': Entries) {
    forall k, x {:trigger Has(v', es', k, x)} | Has(v', es', k, x) :: Has(v, es, k, x)
  }

  lemma AnswersSame(v: View, es: Entries)
    ensures AnswersLess(v, es, v, es)
  {
  }

  lemma AnswersKept(v: View, es: Entries)
    ensures KeepsAnswers(v, es, es)
  {
  }

  /** An item went to the tail, unless making room for it has put it out of the log. */
  ghost predicate Moved(v: View, es: Entries, v': View, es': Entries, slot: Slot) {
    && slot in es && v'.tail == v.tail + ItemSize(es[slot].key, es[slot].value) + CL.HEADER
    && (Live(v', es[slot]) ==>
          slot in es' && es'[slot] == Entry(es[slot].key, es[slot].value, v.tail))
  }

  /** Only an item farther from the tail than a threshold, by its true offset, goes to the tail. */
  ghost predicate HeadMoved(v: View, es: Entries, v': View, es': Entries, slot: Slot, threshold: nat) {
    && slot in es && 0 < |v.mem|
    && if (v.tail - es[slot].offset) % (8 * |v.mem|) > threshold then Moved(v, es, v', es', slot)
       else v' == v && es' == es
  }

  /** The distance is the true age exactly for items less than a log's length behind the tail. */
  lemma DistanceIsAge(tail: nat, o: nat, words: nat, turns: nat)
    requires CL.Sized(words, turns) && o <= tail
    ensures (tail - o % TWO_48) % (8 * words) == tail - o <==> tail - o < 8 * words
  {
    TrueDistance(tail, o, words, turns);
    if tail - o < 8 * words {
      ModUnique(tail - o, 8 * words, 0, tail - o);
    }
  }

  /** So a stale item of age size + 32 seems nearer to the tail than a live one of age 40. */
  lemma StaleSeemsNearer(words: nat, turns: nat)
    requires CL.Sized(words, turns)
    ensures var size, stale, live := 8 * words, 0, 8 * words - 8;
            var tail := size + 32;
            && !CL.Within(tail, stale, size) && CL.Within(tail, live, size)
            && (tail - stale % TWO_48) % size == 32 < 40 == (tail - live % TWO_48) % size
  {
    TrueDistance(8 * words + 32, 0, words, turns);
    TrueDistance(8 * words + 32, 8 * words - 8, words, turns);
    ModUnique(8 * words + 32, 8 * words, 1, 32);
    ModUnique(40, 8 * words, 0, 40);
  }

  /** The distance from the tail modulo the size of the log does not depend on the bits an offset has lost. */
  lemma TrueDistance(tail: nat, o: nat, words: nat, turns: nat)
    requires CL.Sized(words, turns)
    ensures (tail - o % TWO_48) % (8 * words) == (tail - o) % (8 * words)
  {
    var q := o / TWO_48;
    assert q * turns * (8 * words) == q * (8 * words * turns);
    ModShift(tail - o, 8 * words, q * turns);
  }

  /** What a cleanup leaves after an item went to the tail. */
  lemma CopiedAndCleaned(v: View, es: Entries, v1: View, v': View, es1: Entries, es': Entries, slot: Slot, nb: nat,
                         stride: nat)
    requires Laid(nb, stride) && 0 < |v'.mem| && 16 * |v'.mem| <= TWO_47 && MAX_BLOCK <= 8 * |v'.mem|
    requires slot in es && v'.tail == v.tail + ItemSize(es[slot].key, es[slot].value) + CL.HEADER <= v.tail + MAX_BLOCK
    requires v1.tail == v'.tail && |v1.mem| == |v'.mem| && slot.bucket < nb
    requires es1 == if Live(v1, es[slot]) then es[slot := Entry(es[slot].key, es[slot].value, v.tail)] else es
    requires (forall t | t in es1 :: t.bucket < nb) && Judged(v', es1, SweepsDone(v.tail, nb, stride), nb, stride)
    requires AnswersLess(v, es, v', es1) && EntriesStay(es1, es', v.tail, v'.tail, 8 * |v'.mem|, nb, stride)
    ensures Judged(v', es', SweepsDone(v'.tail, nb, stride), nb, stride)
    ensures 2 <= nb ==> Young(v'.tail, es')
    ensures AnswersLess(v, es, v', es') && Moved(v, es, v', es', slot) && KeepsAnswers(v', es, es')
    ensures Step(State(v.tail, OffsetsOf(es)), State(v'.tail, OffsetsOf(es')), 8 * |v'.mem|, nb, stride)
  {
    hide Judged, Laid, Counter, EntriesStay, Step, AnswersLess, Moved, KeepsAnswers, KeepsLive;
    CleanedUp(v', es1, es', v.tail, nb, stride);
    AnswersAfterSweep(v, es, v', es1, es');
    MovedAndSwept(v, es, v1, v', es1, es', slot);
    AppendIsStep(es, es1, es', v.tail, v'.tail, 8 * |v'.mem|, nb, stride);
  }

  lemma MovedAndSwept(v: View, es: Entries, v1: View, v': View, es1: Entries, es': Entries, slot: Slot)
    requires v1.tail == v'.tail && |v1.mem| == |v'.mem|
    requires slot in es && v'.tail == v.tail + ItemSize(es[slot].key, es[slot].value) + CL.HEADER <= v.tail + MAX_BLOCK
    requires KeepsLive(v', es1, es') && MAX_BLOCK <= 8 * |v'.mem|
    requires es1 == if Live(v1, es[slot]) then es[slot := Entry(es[slot].key, es[slot].value, v.tail)] else es
    ensures Moved(v, es, v', es', slot) && KeepsAnswers(v', es, es')
  {
  }

  lemma AnswersLater(v: View, v': View, es: Entries)
    requires v.tail <= v'.tail && |v.mem| == |v'.mem| && forall t | t in es :: es[t].offset <= v.tail
    ensures AnswersLess(v, es, v', es)
  {
    forall k, x | Has(v', es, k, x)
      ensures Has(v, es, k, x)
    {
      var t :| t in es && Live(v', es[t]) && es[t].key == k && es[t].value == x;
      assert Live(v, es[t]);
    }
  }

  lemma AnswersAfterSweep(v: View, es: Entries, v': View, es1: Entries, es': Entries)
    requires AnswersLess(v, es, v', es1) && KeepsLive(v', es1, es')
    ensures AnswersLess(v, es, v', es')
  {
    forall k, x | Has(v', es', k, x)
      ensures Has(v', es1, k, x)
    {
    }
  }

  /** No matching slot, no answer. */
  lemma NoMatchNoAnswer(v: View, bs: Buckets, es: Entries, b: nat, key: Key, nb: nat, stride: nat, turns: nat)
    requires 0 < nb && 0 < stride && |bs| == nb && b == CalcBucket(key.hash, nb) && CL.Sized(|v.mem|, turns)
    requires Slotted(bs, es) && Judged(v, es, SweepsDone(v.tail, nb, stride), nb, stride)
    requires forall j | 0 <= j < |bs[b]| :: !SlotMatches(v.mem, bs[b][j], key)
    ensures forall x :: !Has(v, es, key, x)
  {
    hide KeyAt, ValueAt, GetTag, GetOffset, CalcTag, CalcBucket, MakeItemVec, CL.Sized, Swept;
    forall x
      ensures !Has(v, es, key, x)
    {
      if Has(v, es, key, x) {
        var t :| t in es && Live(v, es[t]) && es[t].key == key && es[t].value == x;
        LiveMatches(v, bs, es, t, nb, stride, turns);
      }
    }
  }

  /** The slot of a live entry matches the entry's key. */
  lemma LiveMatches(v: View, bs: Buckets, es: Entries, t: Slot, nb: nat, stride: nat, turns: nat)
    requires 0 < nb && 0 < stride && |bs| == nb && CL.Sized(|v.mem|, turns)
    requires Slotted(bs, es) && Judged(v, es, SweepsDone(v.tail, nb, stride), nb, stride) && t in es && Live(v, es[t])
    ensures t.bucket == CalcBucket(es[t].key.hash, nb) && t.at < |bs[t.bucket]|
    ensures SlotMatches(v.mem, bs[t.bucket][t.at], es[t].key)
  {
    hide KeyAt, ValueAt, GetTag, GetOffset, CalcTag, CalcBucket, MakeItemVec, CL.Sized, Swept;
    assert EntryOk(v, t.bucket, es[t], SweepsDone(v.tail, nb, stride), nb, stride);
    SlotSays(bs, es, t.bucket, t.at);
    MaskedViews(v.mem, es[t].offset, turns);
  }

  /** A live item with a key is that of a slot that matches the key. */
  lemma LiveHasMatch(v: View, bs: Buckets, es: Entries, t: Slot, b: nat, nb: nat, stride: nat, turns: nat)
    requires 0 < nb && 0 < stride && |bs| == nb && CL.Sized(|v.mem|, turns)
    requires Slotted(bs, es) && Judged(v, es, SweepsDone(v.tail, nb, stride), nb, stride) && t in es && Live(v, es[t])
    requires b == CalcBucket(es[t].key.hash, nb)
    ensures t.bucket == b && t.at < |bs[b]| == BUCKET_SIZE && SlotMatches(v.mem, bs[b][t.at], es[t].key)
    ensures forall at | 0 <= at < BUCKET_SIZE && SlotMatches(v.mem, bs[b][at], es[t].key) :: at == t.at
  {
    hide KeyAt, GetTag, GetOffset, CalcTag, CalcBucket, CL.Sized, Judged, SlotOk;
    LiveMatches(v, bs, es, t, nb, stride, turns);
  }

  /** What a matching slot means for the answer to its key. */
  lemma MatchedAnswer(v: View, bs: Buckets, es: Entries, b: nat, at: nat, key: Key, nb: nat, stride: nat, turns: nat)
    requires 0 < nb && 0 < stride && |bs| == nb && b == CalcBucket(key.hash, nb) && CL.Sized(|v.mem|, turns)
    requires Slotted(bs, es) && Judged(v, es, SweepsDone(v.tail, nb, stride), nb, stride)
             && CL.Headed(v.mem, v.blocks, v.tail)
    requires Young(v.tail, es) && at < BUCKET_SIZE && |bs[b]| == BUCKET_SIZE && SlotMatches(v.mem, bs[b][at], key)
    ensures Slot(b, at) in es
    ensures var e := es[Slot(b, at)];
            && (Live(v, e) ==>
                  && key in v.last && e.key == key && e.value == v.last[key] && Has(v, es, key, v.last[key])
                  && |e.value| <= MAX_VALUE_WORDS
                  && WordAt(v.mem, GetOffset(bs[b][at]), 1) % TWO_24 == 8 * |e.value|
                  && ValueAt(v.mem, GetOffset(bs[b][at]), |key.words|, e.value))
            && (!Live(v, e) ==> forall x :: !Has(v, es, key, x))
  {
    hide KeyAt, ValueAt, GetTag, CalcTag, CalcBucket, MakeItemVec, CL.Sized, Swept, Slotted, CL.Headed,
      GetOffset;
    var e := MatchedLive(v, bs, es, b, at, key, nb, stride, turns);
    SlotSays(bs, es, b, at);
    assert EntryOk(v, b, e, SweepsDone(v.tail, nb, stride), nb, stride);
    if Live(v, e) {
      MaskedValue(v.mem, e.offset, |key.words|, e.value, turns);
    }
    forall x
      ensures !Live(v, e) ==> !Has(v, es, key, x)
    {
      if Has(v, es, key, x) {
        var t :| t in es && Live(v, es[t]) && es[t].key == key && es[t].value == x;
        assert EntryOk(v, t.bucket, es[t], SweepsDone(v.tail, nb, stride), nb, stride);
        SlotsInside(bs, es);
        SlotSays(bs, es, t.bucket, t.at);
        SameTagSameSlot(bs, es, b, at, t.at);
      }
    }
  }

  /** Without its matching slot the table has no answer for the key, and the answers for other keys stay. */
  lemma Unanswered(v: View, bs: Buckets, es: Entries, b: nat, at: nat, key: Key, nb: nat, stride: nat, turns: nat)
    requires 0 < nb && 0 < stride && |bs| == nb && b == CalcBucket(key.hash, nb) && CL.Sized(|v.mem|, turns)
    requires Slotted(bs, es) && Judged(v, es, SweepsDone(v.tail, nb, stride), nb, stride)
             && CL.Headed(v.mem, v.blocks, v.tail)
    requires Young(v.tail, es) && at < BUCKET_SIZE && |bs[b]| == BUCKET_SIZE && SlotMatches(v.mem, bs[b][at], key)
    ensures forall k, x :: Has(v, es - {Slot(b, at)}, k, x) <==> k != key && Has(v, es, k, x)
  {
    hide KeyAt, ValueAt, GetTag, CalcTag, CalcBucket, MakeItemVec, CL.Sized, Swept, Slotted, CL.Headed,
      GetOffset,
         CL.IsValid, Intact;
    var slot, es' := Slot(b, at), es - {Slot(b, at)};
    var e := MatchedLive(v, bs, es, b, at, key, nb, stride, turns);
    SlotSays(bs, es, b, at);
    forall t | t in es' && Live(v, es[t])
      ensures es[t].key != key
    {
      if es[t].key == key {
        LiveMatches(v, bs, es, t, nb, stride, turns);
        SlotsInside(bs, es);
        SlotSays(bs, es, t.bucket, t.at);
        SameTagSameSlot(bs, es, b, at, t.at);
      }
    }
    forall k, x
      ensures Has(v, es', k, x) <==> k != key && Has(v, es, k, x)
    {
      if k != key && Has(v, es, k, x) {
        var t :| t in es && Live(v, es[t]) && es[t].key == k && es[t].value == x;
        assert t in es';
      }
    }
  }

  /** A key that no live entry has may be forgotten. */
  lemma KeyForgotten(v: View, es: Entries, key: Key, sweeps: nat, nb: nat, stride: nat)
    requires 0 < nb && Judged(v, es, sweeps, nb, stride) && forall x :: !Has(v, es, key, x)
    ensures var v' := v.(last := v.last - {key});
            && Judged(v', es, sweeps, nb, stride)
            && forall k, x :: Has(v', es, k, x) <==> Has(v, es, k, x)
  {
    hide KeyAt, ValueAt, CalcBucket, Swept;
    var v' := v.(last := v.last - {key});
    forall t | t in es
      ensures EntryOk(v', t.bucket, es[t], sweeps, nb, stride)
    {
      assert EntryOk(v, t.bucket, es[t], sweeps, nb, stride);
      assert Live(v, es[t]) ==> Has(v, es, es[t].key, es[t].value);
    }
    forall k, x
      ensures Has(v', es, k, x) <==> Has(v, es, k, x)
    {
      assert forall t | t in es :: Live(v', es[t]) <==> Live(v, es[t]);
    }
  }

  lemma FirstWord(mem: seq<U64>, o: nat, k: nat, value: Value)
    requires 0 < |mem| && ValueAt(mem, o, k, value)
    ensures 0 < |value| ==> WordAt(mem, o, 3 + k) == value[0]
  {
    assert 0 < |value| ==> WordAt(mem, o, 3 + k + 0) == value[0];
  }

  lemma OneWordWritten(mem: seq<U64>, o: nat, key: Key, value: Value, w: U64)
    requires |key.words| <= MAX_KEY_WORDS && 0x4_0000 <= |mem| && |value| == 1
    requires KeyAt(mem, o, key) && ValueAt(mem, o, |key.words|, value)
    ensures ItemAt(mem, mem[CL.CellOf(o, 3 + |key.words|, |mem|) := w], o, key, [w])
  {
    hide CL.CellOf, OnlyCells;
    var n := |key.words|;
    var mem' := mem[CL.CellOf(o, 3 + n, |mem|) := w];
    OneCell(mem, o, 3 + n, w);
    OnlyCellsTrans(mem, mem', mem', o, 3 + n, 4 + n, 1, 1, 1, 4 + n) by { OnlyCellsNone(mem', o); }
    Untouched(mem, mem', o, 3 + n, 4 + n, 1);
    Untouched(mem, mem', o, 3 + n, 4 + n, 2);
    forall j | 0 <= j < n
      ensures WordAt(mem', o, 3 + j) == key.words[j]
    {
      Untouched(mem, mem', o, 3 + n, 4 + n, 3 + j);
    }
  }

  /** Why a spill is excluded: the size test of an in-place overwrite passes, but the value's last word lands on the
      header of the next block, or, if there is none yet, where the next append will put its header. */
  lemma SpillHitsNextHeader(mem: seq<U64>, mem': seq<U64>, bl: CL.Blocks, tail: nat, o: nat, key: Key, value: Value)
    requires 0 < |mem| == |mem'| && CL.Tiles(bl, tail, 8 * |mem|) && o in bl && o % 8 == 0
    requires ItemAt(mem, mem', o, key, value) && value != []
    requires bl[o] >= ItemSize(key, value) && !(ItemSize(key, value) + CL.HEADER <= bl[o])
    ensures CL.EndOf(bl, o) == tail || CL.EndOf(bl, o) in bl
    ensures mem'[CL.CellOf(CL.EndOf(bl, o), 0, |mem|)] == value[|value| - 1]
    ensures CL.EndOf(bl, o) in bl && CL.Within(tail, CL.EndOf(bl, o), 8 * |mem|) && CL.Headed(mem', bl, tail) ==>
              bl[CL.EndOf(bl, o)] == value[|value| - 1]
  {
    BlockLength(bl, tail, 8 * |mem|, o);
    assert bl[o] == ItemSize(key, value);
    assert WordAt(mem', o, 3 + |key.words| + (|value| - 1)) == value[|value| - 1];
    assert CL.CellOf(CL.EndOf(bl, o), 0, |mem|) == CL.CellOf(o, 2 + |key.words| + |value|, |mem|);
  }

  lemma SameTagSameSlot(bs: Buckets, es: Entries, b: nat, i: nat, j: nat)
    requires Slotted(bs, es) && b < |bs| && i < BUCKET_SIZE && j < BUCKET_SIZE && |bs[b]| == BUCKET_SIZE
    requires bs[b][i] != 0 && bs[b][j] != 0 && GetTag(bs[b][i]) == GetTag(bs[b][j])
    ensures i == j
  {
    hide GetTag, SlotOk;
  }

  lemma MaskedValue(mem: seq<U64>, o: nat, k: nat, value: Value, turns: nat)
    requires CL.Sized(|mem|, turns) && o % 8 == 0 && ValueAt(mem, o, k, value)
    ensures ValueAt(mem, o % TWO_48, k, value) && WordAt(mem, o % TWO_48, 1) % TWO_24 == 8 * |value|
  {
    hide CL.CellOf;
    MaskedWords(mem, o, turns);
  }

  lemma IsDelivered(mem: seq<U64>, o: nat, k: nat, value: Value, inLength: nat, result: Result, outLength: nat,
                    before: seq<U64>, after: seq<U64>)
    requires 0 < |mem| && ValueAt(mem, o, k, value) && inLength % 8 == 0 && inLength <= 8 * |before|
             && |before| == |after|
    requires outLength == Min(8 * |value|, inLength)
    requires result == if 8 * |value| == outLength then Success else PartialValue
    requires forall i | 0 <= i < outLength / 8 :: after[i] == WordAt(mem, o, 3 + k + i)
    requires forall i | outLength / 8 <= i < |after| :: after[i] == before[i]
    ensures Delivered(value, inLength, result, outLength, before, after)
  {
    hide CL.CellOf;
    var n := outLength / 8;
    assert after[..n] == value[..n];
    assert after[n..] == before[n..];
  }

  lemma LiveItem(v: View, e: Entry, turns: nat)
    requires Intact(v, e) && CL.Sized(|v.mem|, turns) && e.offset % 8 == 0
    ensures var lengths := WordAt(v.mem, e.offset % TWO_48, 1);
            && 16 + lengths % TWO_32 / TWO_24 + lengths % TWO_24 == ItemSize(e.key, e.value)
            && ItemSize(e.key, e.value) + CL.HEADER <= MAX_BLOCK
  {
    hide CL.CellOf;
    MaskedWords(v.mem, e.offset, turns);
  }

  lemma IsPushed(v: View, v': View, length: nat)
    requires 0 < |v.mem| && v.tail % 8 == 0 && CL.Tiles(v.blocks, v.tail, 8 * |v.mem|)
    requires length % 8 == 0 && 8 <= length <= 8 * |v.mem| && length < TWO_64
    requires var w: U64 := length; v'.mem == v.mem[CL.CellOf(v.tail, 0, |v.mem|) := w]
    requires v'.blocks == v.blocks[v.tail := length] && v'.tail == v.tail + length
    ensures Pushed(v, v', length)
  {
    hide CL.CellOf, OnlyCells;
    var w: U64 := length;
    OneCell(v.mem, v.tail, 0, w);
    OnlyCellsTrans(v.mem, v'.mem, v'.mem, v.tail, 0, 1, 1, 1, 0, length / 8) by { OnlyCellsNone(v'.mem, v.tail); }
  }

  /** After the append the validity test still tells whether the entry is live. */
  lemma StillLive(v: View, v1: View, es: Entries, slot: Slot, length: nat, nb: nat, stride: nat)
    requires 0 < nb && 0 < stride && slot in es && 0 < |v1.mem| == |v.mem| && 16 * |v.mem| <= TWO_47
    requires Judged(v, es, SweepsDone(v.tail, nb, stride), nb, stride) && Live(v, es[slot])
    requires v1.tail == v.tail + length && length <= MAX_BLOCK
    ensures CL.IsValid(v1.tail, es[slot].offset % TWO_48, 8 * |v.mem|) <==> Live(v1, es[slot])
    ensures forall t | t in es :: es[t].offset <= v.tail
  {
    hide CL.IsValid, Intact, Swept, CalcBucket;
    forall t | t in es
      ensures es[t].offset <= v.tail
    {
      assert EntryOk(v, t.bucket, es[t], SweepsDone(v.tail, nb, stride), nb, stride);
    }
    CL.ValidityRight(v1.tail, es[slot].offset, 8 * |v.mem|);
  }

  lemma CopiesApart(v: View, v1: View, e: Entry, count: nat, turns: nat)
    requires Intact(v, e) && Live(v1, e) && 8 * count == ItemSize(e.key, e.value) && e.offset % 8 == 0
    requires Pushed(v, v1, 8 * count + CL.HEADER) && CL.Sized(|v.mem|, turns) && |v.mem| == |v1.mem|
    ensures forall i: nat, j: nat | 1 <= i <= count && 1 <= j <= count ::
              CL.CellOf(e.offset % TWO_48, i, |v.mem|) != CL.CellOf(v.tail % TWO_48, j, |v.mem|)
    ensures Live(v, e) && count + 1 < |v.mem|
  {
    hide CL.CellOf, KeyAt, ValueAt, OnlyCells;
    MaskedWords(v.mem, e.offset, turns);
    MaskedWords(v.mem, v.tail, turns);
    assert CL.EndOf(v.blocks, e.offset) <= v.tail;
    forall i: nat, j: nat | 1 <= i <= count && 1 <= j <= count
      ensures CL.CellOf(e.offset, i, |v.mem|) != CL.CellOf(v.tail, j, |v.mem|)
    {
      OtherCell(e.offset, i, v.tail, j, v1.tail, |v.mem|);
    }
  }

  lemma IsCopied(v: View, v1: View, v2: View, e: Entry, count: nat, turns: nat)
    requires Intact(v, e) && Live(v1, e) && 8 * count == ItemSize(e.key, e.value) && e.offset % 8 == 0
    requires Pushed(v, v1, 8 * count + CL.HEADER) && CL.Sized(|v.mem|, turns) && |v.mem| == |v1.mem| == |v2.mem|
    requires OnlyCells(v1.mem, v2.mem, v.tail % TWO_48, 1, 1 + count)
    requires forall i: nat | 1 <= i <= count ::
               WordAt(v2.mem, v.tail % TWO_48, i) == WordAt(v1.mem, e.offset % TWO_48, i)
    requires v2.blocks == v1.blocks && v2.tail == v1.tail && v2.last == v1.last == v.last
    ensures Appended(v, v2, e.key, e.value, 8 * count + CL.HEADER)
    ensures OnlyCells(v1.mem, v2.mem, v.tail, 1, 1 + count)
  {
    hide CL.CellOf, KeyAt, ValueAt, OnlyCells, CL.Sized, CL.Tiles;
    MaskedWords(v1.mem, e.offset, turns);
    MaskedWords(v2.mem, v.tail, turns);
    MaskedCells(v1.mem, v2.mem, v.tail, 1, 1 + count, turns);
    EntryKeptByPush(v, v1, e, count + 1);
    OnlyCellsTrans(v.mem, v1.mem, v2.mem, v.tail, 0, count + 1, 1, count + 1, 0, count + 1);
    forall i: nat | 1 <= i <= count
      ensures WordAt(v2.mem, v.tail, i) == WordAt(v1.mem, e.offset, i)
    {
      assert WordAt(v2.mem, v.tail % TWO_48, i) == WordAt(v1.mem, e.offset % TWO_48, i);
    }
    WordsCopied(v1.mem, v2.mem, e, v.tail, count);
    assert v.last[e.key := e.value] == v.last;
  }

  lemma EntryKeptByPush(v: View, v1: View, e: Entry, words: nat)
    requires Intact(v, e) && Live(v1, e) && Pushed(v, v1, 8 * words) && |v.mem| == |v1.mem| && v1.last == v.last
    requires e.offset % 8 == 0
    ensures KeyAt(v1.mem, e.offset, e.key) && ValueAt(v1.mem, e.offset, |e.key.words|, e.value)
  {
    hide KeyAt, ValueAt, OnlyCells;
    assert CL.EndOf(v.blocks, e.offset) <= v.tail;
    IntactKept(v, v1, e, v.tail, words);
  }

  lemma MaskedCells(mem: seq<U64>, mem': seq<U64>, o: nat, from: nat, to: nat, turns: nat)
    requires CL.Sized(|mem|, turns) && o % 8 == 0 && OnlyCells(mem, mem', o % TWO_48, from, to)
    ensures OnlyCells(mem, mem', o, from, to)
  {
    hide CL.CellOf;
    MaskedWords(mem, o, turns);
  }

  lemma WordsCopied(mem: seq<U64>, mem': seq<U64>, e: Entry, o: nat, count: nat)
    requires 0 < |mem| == |mem'| && KeyAt(mem, e.offset, e.key) && ValueAt(mem, e.offset, |e.key.words|, e.value)
    requires 8 * count == ItemSize(e.key, e.value)
    requires forall i: nat | 1 <= i <= count :: WordAt(mem', o, i) == WordAt(mem, e.offset, i)
    ensures KeyAt(mem', o, e.key) && ValueAt(mem', o, |e.key.words|, e.value)
  {
    hide CL.CellOf;
    assert WordAt(mem', o, 1) == WordAt(mem, e.offset, 1) && WordAt(mem', o, 2) == WordAt(mem, e.offset, 2);
  }

  lemma NewBlock(v: View, v1: View, length: nat)
    requires Pushed(v, v1, length)
    ensures v.tail in v1.blocks && v1.blocks[v.tail] == length && v1.tail == v.tail + length
  {
  }

  /** The slot's tag and key are nowhere else in the table. */
  lemma SlotAlone(v: View, bs: Buckets, es: Entries, slot: Slot, sweeps: nat, nb: nat, stride: nat)
    requires 0 < nb && |bs| == nb && Slotted(bs, es) && Judged(v, es, sweeps, nb, stride) && slot in es
    ensures slot.bucket < nb && slot.bucket == CalcBucket(es[slot].key.hash, nb)
    ensures forall t | t in es && t != slot :: es[t].key != es[slot].key
    ensures forall j | 0 <= j < |bs[slot.bucket]| && j != slot.at && bs[slot.bucket][j] != 0 ::
              GetTag(bs[slot.bucket][j]) != CalcTag(es[slot].key.hash)
  {
    hide GetTag, CalcTag, CalcBucket, MakeItemVec, Intact, Swept, GetOffset;
    assert EntryOk(v, slot.bucket, es[slot], sweeps, nb, stride);
    SlotSays(bs, es, slot.bucket, slot.at);
    forall t | t in es && t != slot
      ensures es[t].key != es[slot].key
    {
      if es[t].key == es[slot].key {
        OneSlotPerKey(bs, es, v, sweeps, nb, stride, t, slot);
      }
    }
  }

  lemma AnswersAfterMove(v: View, es: Entries, v': View, es': Entries, slot: Slot, nb: nat, stride: nat)
    requires 0 < nb && 0 < stride && Judged(v, es, SweepsDone(v.tail, nb, stride), nb, stride)
    requires v.tail <= v'.tail && |v.mem| == |v'.mem|
    requires slot in es && Live(v, es[slot]) && es' == es[slot := Entry(es[slot].key, es[slot].value, v.tail)]
    ensures AnswersLess(v, es, v', es')
  {
    hide Intact, Swept, CalcBucket;
    forall k, x | Has(v', es', k, x)
      ensures Has(v, es, k, x)
    {
      var t :| t in es' && Live(v', es'[t]) && es'[t].key == k && es'[t].value == x;
      assert EntryOk(v, t.bucket, es[t], SweepsDone(v.tail, nb, stride), nb, stride);
      if t != slot {
        assert Live(v, es[t]);
      }
    }
  }

  lemma SetDoneAfterAppend(v: View, es: Entries, v': View, es': Entries, slot: Slot, key: Key, value: Value)
    requires v.tail <= v'.tail && |v.mem| == |v'.mem| && v'.last == v.last[key := value]
    requires slot in es' && Live(v', es'[slot]) && es'[slot].key == key && es'[slot].value == value
    requires forall t | t in es' && t != slot ::
              t in es && es'[t] == es[t] && es[t].offset <= v.tail && es[t].key != key
    ensures SetDone(v, es, v', es', key, value)
  {
    forall k, x | Has(v', es', k, x)
      ensures if k == key then x == value else Has(v, es, k, x)
    {
      var t :| t in es' && Live(v', es'[t]) && es'[t].key == k && es'[t].value == x;
      if t != slot {
        assert Live(v, es[t]);
      }
    }
  }

  lemma SetDoneWhen(v: View, es: Entries, v': View, es': Entries, slot: Slot, key: Key, value: Value, bs: Buckets,
                    sweeps: nat, nb: nat, stride: nat)
    requires 0 < nb && Slotted(bs, es) && Judged(v, es, sweeps, nb, stride)
    requires v'.tail == v.tail && |v.mem| == |v'.mem| && v'.last == v.last[key := value]
    requires slot in es && es[slot].key == key && Live(v, es[slot])
             && es' == es[slot := Entry(key, value, es[slot].offset)]
    ensures SetDone(v, es, v', es', key, value)
  {
    hide Slotted, SetDone, Intact, Swept;
    forall t | t in es' && t != slot
      ensures es[t].offset <= v.tail && es[t].key != key
    {
      assert EntryOk(v, t.bucket, es[t], sweeps, nb, stride);
      if es[t].key.hash == key.hash {
        OneSlotPerKey(bs, es, v, sweeps, nb, stride, t, slot);
      }
    }
    SetDoneAfterAppend(v, es, v', es', slot, key, value);
  }

  lemma OthersAfterSweep(v: View, es: Entries, es1: Entries, es': Entries, slot: Slot)
    requires KeepsLive(v, es1, es') && forall t | t in es && t != slot :: t in es1 && es1[t] == es[t]
    ensures KeepsOthers(v, es, es', slot)
  {
  }

  lemma SetDoneAfterSweep(v: View, es: Entries, v': View, es1: Entries, es': Entries, key: Key, value: Value)
    requires SetDone(v, es, v', es1, key, value) && KeepsLive(v', es1, es')
    ensures SetDone(v, es, v', es', key, value)
  {
    forall k, x
      ensures Has(v', es1, k, x) <==> Has(v', es', k, x)
    {
    }
  }

  /** After a set the table answers the new value for the key and nothing for any other key that it did not
      answer before. */
  ghost predicate SetDone(v: View, es: Entries, v': View, es': Entries, key: Key, value: Value) {
    && Has(v', es', key, value) && v'.last == v.last[key := value]
    && forall k, x {:trigger Has(v', es', k, x)} | Has(v', es', k, x) ::
         if k == key then x == value else Has(v, es, k, x)
  }

  /** The item at an offset now holds the key and the value; no other cell changed. */
  ghost predicate ItemAt(mem: seq<U64>, mem': seq<U64>, o: nat, key: Key, value: Value)
    requires 0 < |mem'|
  {
    && OnlyCells(mem, mem', o, 1, 3 + |key.words| + |value|)
    && KeyAt(mem', o, key) && ValueAt(mem', o, |key.words|, value)
  }

  /** Words outside the written ones stay. */
  lemma Untouched(mem: seq<U64>, mem': seq<U64>, o: nat, from: nat, to: nat, i: nat)
    requires OnlyCells(mem, mem', o, from, to) && to <= |mem| && i < |mem| && !(from <= i < to)
    ensures WordAt(mem', o, i) == WordAt(mem, o, i)
  {
    forall j: nat | from <= j < to
      ensures CL.CellOf(o, i, |mem|) != CL.CellOf(o, j, |mem|)
    {
      CL.CellsApart(o, i, o, j, |mem|);
    }
  }

  lemma OneCell(mem: seq<U64>, o: nat, j: nat, w: U64)
    requires 0 < |mem|
    ensures var mem' := mem[CL.CellOf(o, j, |mem|) := w];
            OnlyCells(mem, mem', o, j, j + 1) && WordAt(mem', o, j) == w
  {
  }

  lemma ItemWritten(m0: seq<U64>, m1: seq<U64>, m2: seq<U64>, m3: seq<U64>, m4: seq<U64>, o: nat, key: Key,
                    value: Value)
    requires |key.words| <= MAX_KEY_WORDS && |value| <= MAX_VALUE_WORDS && 0x4_0000 <= |m0| == |m1| == |m2|
    requires m1 == m0[CL.CellOf(o, 1, |m0|) := WithLengths(WordAt(m0, o, 1), 8 * |key.words|, 8 * |value|)]
    requires m2 == m1[CL.CellOf(o, 2, |m1|) := key.hash]
    requires OnlyCells(m2, m3, o, 3, 3 + |key.words|) && RunAt(m3, o, 3, key.words)
    requires OnlyCells(m3, m4, o, 3 + |key.words|, 3 + |key.words| + |value|) && RunAt(m4, o, 3 + |key.words|, value)
    ensures ItemAt(m0, m4, o, key, value)
  {
    hide CL.CellOf, WithLengths, OnlyCells;
    var n := |key.words|;
    var t := 3 + n + |value|;
    OneCell(m0, o, 1, m1[CL.CellOf(o, 1, |m0|)]);
    OneCell(m1, o, 2, key.hash);
    OnlyCellsTrans(m0, m1, m2, o, 1, 2, 2, 3, 1, 3);
    OnlyCellsSize(m2, m3, o, 3, 3 + n);
    OnlyCellsTrans(m0, m2, m3, o, 1, 3, 3, 3 + n, 1, 3 + n);
    OnlyCellsTrans(m0, m3, m4, o, 1, 3 + n, 3 + n, t, 1, t);
    OnlyCellsTrans(m2, m3, m4, o, 3, 3 + n, 3 + n, t, 3, t);
    Untouched(m1, m2, o, 2, 3, 1);
    Untouched(m2, m4, o, 3, t, 1);
    Untouched(m2, m4, o, 3, t, 2);
    forall j | 0 <= j < n
      ensures WordAt(m4, o, 3 + j) == key.words[j]
    {
      Untouched(m3, m4, o, 3 + n, t, 3 + j);
    }
    LengthsRoundTrip(WordAt(m0, o, 1), 8 * n, 8 * |value|);
  }

  lemma ValueWritten(m0: seq<U64>, m1: seq<U64>, m2: seq<U64>, o: nat, key: Key, value: Value)
    requires |key.words| <= MAX_KEY_WORDS && |value| <= MAX_VALUE_WORDS && 0x4_0000 <= |m0| == |m1|
    requires KeyAt(m0, o, key)
    requires m1 == m0[CL.CellOf(o, 1, |m0|) := WithLengths(WordAt(m0, o, 1), 8 * |key.words|, 8 * |value|)]
    requires OnlyCells(m1, m2, o, 3 + |key.words|, 3 + |key.words| + |value|) && RunAt(m2, o, 3 + |key.words|, value)
    ensures ItemAt(m0, m2, o, key, value)
  {
    hide CL.CellOf, WithLengths, OnlyCells;
    var n := |key.words|;
    var t := 3 + n + |value|;
    OneCell(m0, o, 1, m1[CL.CellOf(o, 1, |m0|)]);
    OnlyCellsTrans(m0, m1, m2, o, 1, 2, 3 + n, t, 1, t);
    OnlyCellsSize(m1, m2, o, 3 + n, t);
    Untouched(m1, m2, o, 3 + n, t, 1);
    Untouched(m0, m1, o, 1, 2, 2);
    Untouched(m1, m2, o, 3 + n, t, 2);
    forall j | 0 <= j < n
      ensures WordAt(m2, o, 3 + j) == key.words[j]
    {
      Untouched(m0, m1, o, 1, 2, 3 + j);
      Untouched(m1, m2, o, 3 + n, t, 3 + j);
    }
    LengthsRoundTrip(WordAt(m0, o, 1), 8 * n, 8 * |value|);
  }

  /** The words from `from` after an offset are the run. */
  ghost predicate RunAt(mem: seq<U64>, o: nat, from: nat, run: seq<U64>)
    requires 0 < |mem|
  {
    forall i | 0 <= i < |run| :: WordAt(mem, o, from + i) == run[i]
  }

  lemma RunStart(mem: seq<U64>, o: nat, from: nat)
    requires 0 < |mem|
    ensures OnlyCells(mem, mem, o, from, from) && RunAt(mem, o, from, [])
  {
  }

  lemma RunStep(mem0: seq<U64>, mem: seq<U64>, o: nat, from: nat, run: seq<U64>, j: nat)
    requires j < |run| < |mem| && OnlyCells(mem0, mem, o, from, from + j) && RunAt(mem, o, from, run[..j])
    ensures var mem' := mem[CL.CellOf(o, from + j, |mem|) := run[j]];
            OnlyCells(mem0, mem', o, from, from + j + 1) && RunAt(mem', o, from, run[..j + 1])
  {
    var mem' := mem[CL.CellOf(o, from + j, |mem|) := run[j]];
    forall i | 0 <= i < j + 1
      ensures WordAt(mem', o, from + i) == run[i]
    {
      if i < j {
        assert run[..j][i] == run[i];
        CL.CellsApart(o, from + i, o, from + j, |mem|);
      }
    }
    OnlyCellsStep(mem0, mem, o, from, from + j, run[j]);
  }

  lemma OnlyCellsStep(mem0: seq<U64>, mem: seq<U64>, o: nat, from: nat, j: nat, w: U64)
    requires OnlyCells(mem0, mem, o, from, j) && from <= j
    ensures OnlyCells(mem0, mem[CL.CellOf(o, j, |mem|) := w], o, from, j + 1)
  {
    hide CL.CellOf;
    var mem' := mem[CL.CellOf(o, j, |mem|) := w];
    forall c | 0 <= c < |mem| && (forall i: nat | from <= i < j + 1 :: c != CL.CellOf(o, i, |mem|))
      ensures mem'[c] == mem0[c]
    {
      assert c != CL.CellOf(o, j, |mem|);
    }
  }

  lemma SlotsInside(bs: Buckets, entries: Entries)
    requires Slotted(bs, entries)
    ensures forall t | t in entries :: t.bucket < |bs| && t.at < BUCKET_SIZE
  {
  }

  // ---------- What goes wrong ----------

  /** A new table with one item. */
  method FirstSet(log: CL.Log, logBuckets: nat, key: Key, value: Value) returns (table: Table, ghost slot: Slot)
    requires log.Valid() && log.tail == 0 && log.blocks == map[] && logBuckets == 1
    requires |key.words| <= MAX_KEY_WORDS && |value| <= MAX_VALUE_WORDS
    modifies log, log.data
    ensures table.Valid() && table.log == log && fresh(table) && fresh(table.buckets)
    ensures slot in table.entries && table.entries[slot] == Entry(key, value, 0)
            && Live(table.Now(), table.entries[slot])
    ensures log.tail == ItemSize(key, value) + CL.HEADER && log.blocks == map[0 := log.tail]
  {
    hide KeyAt, GetTag, GetOffset, CalcTag, CalcBucket, Slotted, Judged, Laid, CL.Headed, CL.Tiles,
      MakeItemVec,
         CL.Sized, CL.CellOf, ItemAt, Stays, Evictable, Pow2, Live, KeepsOthers, Has, Step;
    var rshift := ComputeShift(logBuckets);
    table := new Table(log, logBuckets, rshift, 0);
    var result := table.Set(key, value, true);
    slot := FirstItem(table.Now(), table.entries, key, value);
  }

  /** A spill in a new table: the key is set to n words and then to n + 1, which passes the size test.  The block of any
      later append then starts on the last of these words. */
  method SpillsWord(log: CL.Log, key: Key, value: Value, word: U64, length: U64) returns (table: Table)
    requires log.Valid() && log.tail == 0 && log.blocks == map[]
    requires |key.words| <= MAX_KEY_WORDS && |value| < MAX_VALUE_WORDS
    requires length % 8 == 0 && CL.HEADER <= length && ItemSize(key, value) + CL.HEADER + length <= log.Size()
    requires length != word
    modifies log, log.data
    ensures table.log == log && log.Valid() && CL.Within(log.tail, 0, log.Size())
    ensures exists slot :: slot in table.entries && table.entries[slot] == Entry(key, value + [word], 0)
    ensures KeyAt(log.data[..], 0, key) && WordAt(log.data[..], 0, 3 + |key.words| + |value|) == length != word
  {
    hide KeyAt, GetTag, GetOffset, CalcTag, CalcBucket, Slotted, Judged, Laid, CL.Headed, CL.Tiles,
      MakeItemVec,
         CL.CellOf, ItemAt, EntriesStay, Evictable, Live, KeepsOthers, Has, SetDone, Placed, Step;
    ghost var slot;
    table, slot := FirstSet(log, 1, key, value);
    ghost var m1 := log.data[..];
    assert table.FitsInPlace(slot, key, value + [word]) && table.Spills(key, value + [word]);
    var result := table.Set(key, value + [word], true);
    ghost var m2 := log.data[..];
    SpilledStillHeaded(m1, m2, log.blocks, log.tail, key, value + [word]);
    var offset := log.PushTail(length);
    SpilledThenPushed(m1, m2, log.data[..], key, value, word, length);
    assert slot in table.entries && table.entries[slot] == Entry(key, value + [word], 0);
  }

  lemma FirstItem(v: View, es: Entries, key: Key, value: Value) returns (slot: Slot)
    requires Has(v, es, key, value) && forall t | t in es :: es[t].offset == 0
    ensures slot in es && Live(v, es[slot]) && es[slot] == Entry(key, value, 0)
  {
    slot :| slot in es && Live(v, es[slot]) && es[slot].key == key && es[slot].value == value;
  }

  lemma SpilledStillHeaded(mem: seq<U64>, mem': seq<U64>, bl: CL.Blocks, tail: nat, key: Key, value: Value)
    requires |key.words| <= MAX_KEY_WORDS && |value| <= MAX_VALUE_WORDS && 0x4_0000 <= |mem| == |mem'|
    requires CL.Headed(mem, bl, tail) && ItemAt(mem, mem', 0, key, value) && bl.Keys == {0}
    ensures CL.Headed(mem', bl, tail)
  {
    hide OnlyCells, KeyAt, ValueAt, CL.CellOf;
    Untouched(mem, mem', 0, 1, 3 + |key.words| + |value|, 0);
  }

  lemma SpilledThenPushed(mem: seq<U64>, mem': seq<U64>, mem'': seq<U64>, key: Key, value: Value, word: U64,
                          length: U64)
    requires 0x4_0000 <= |mem| == |mem'| == |mem''| && |key.words| <= MAX_KEY_WORDS && |value| < MAX_VALUE_WORDS
    requires ItemAt(mem, mem', 0, key, value + [word])
    requires mem'' == mem'[CL.CellOf(ItemSize(key, value) + CL.HEADER, 0, |mem|) := length]
    ensures KeyAt(mem'', 0, key) && WordAt(mem'', 0, 3 + |key.words| + |value|) == length
  {
    hide OnlyCells;
    var n := 3 + |key.words| + |value|;
    assert CL.CellOf(ItemSize(key, value) + CL.HEADER, 0, |mem|) == CL.CellOf(0, n, |mem|);
    KeyUntouched(mem', mem'', n, key, length);
  }

  lemma KeyUntouched(mem: seq<U64>, mem': seq<U64>, i: nat, key: Key, w: U64)
    requires 3 + |key.words| <= i < |mem| == |mem'| && mem' == mem[CL.CellOf(0, i, |mem|) := w] && KeyAt(mem, 0, key)
    ensures KeyAt(mem', 0, key)
  {
    hide OnlyCells, CL.CellOf;
    OneCell(mem, 0, i, w);
    forall j: nat | j < i
      ensures WordAt(mem', 0, j) == WordAt(mem, 0, j)
    {
      Untouched(mem, mem', 0, i, i + 1, j);
    }
  }

  /** Two keys with one tag. */
  function Alternating(i: nat): Key {
    Key(1, [i % 2])
  }

  /** One bucket with at most two items: the first one of all, and the last one, whose key is an alternating one. */
  ghost predicate FirstAndLast(es: Entries, first: Slot, e: Entry, key: Key, o: nat) {
    && first in es && es[first] == e && first.bucket == 0
    && forall t | t in es && t != first :: es[t].key == key && es[t].offset == o
  }

  lemma NeitherMatches(mem: seq<U64>, bs: Buckets, es: Entries, first: Slot, e: Entry, last: Key, o: nat, key: Key,
                       turns: nat)
    requires Slotted(bs, es) && |bs| == 1 && FirstAndLast(es, first, e, last, o)
    requires CL.Sized(|mem|, turns) && o % 8 == 0 && (KeyAt(mem, o, last) || es.Keys == {first})
    requires CalcTag(e.key.hash) != CalcTag(key.hash) && last != key
    ensures forall i | 0 <= i < |bs[0]| :: !SlotMatches(mem, bs[0][i], key)
  {
    hide KeyAt, GetTag, GetOffset, CalcTag, MakeItemVec, CL.Sized, Slotted;
    MaskedViews(mem, o, turns);
    forall i | 0 <= i < |bs[0]|
      ensures !SlotMatches(mem, bs[0][i], key)
    {
      SlotSays(bs, es, 0, 0);
      SlotSays(bs, es, 0, i);
      if SlotMatches(mem, bs[0][i], key) {
        KeyAtUnique(mem, o, last, key);
      }
    }
  }

  lemma EmptyHasNoTag()
    ensures GetTag(0) == 0
  {
  }

  /** A new item goes to another slot than the first one and takes that of the last one. */
  lemma ReplacesLast(bs: Buckets, es: Entries, es': Entries, at: nat, first: Slot, e: Entry, last: Key, o: nat,
                     item: Entry,
                     tail: nat, size: nat, stride: nat)
    requires Slotted(bs, es) && |bs| == 1 && FirstAndLast(es, first, e, last, o) && 0 < stride
    requires Placed(bs, es, es', 0, at, item, tail, size, 1, stride)
    requires CalcTag(e.key.hash) != CalcTag(item.key.hash) && last.hash == item.key.hash
    ensures FirstAndLast(es', first, e, item.key, item.offset) && Slot(0, at) in es'
  {
    hide GetTag, GetOffset, CalcTag, MakeItemVec, Slotted;
    SlotsInside(bs, es);
    SlotSays(bs, es, 0, first.at);
    SlotSays(bs, es, 0, if first.at == 0 then 1 else 0);
    forall t | t in es && t != first && t != Slot(0, at)
      ensures false
    {
      SlotSays(bs, es, 0, t.at);
      EmptyHasNoTag();
      SameTagSameSlot(bs, es, 0, t.at, at);
    }
    forall t: Slot
      ensures Stays(t, if t in es then es[t].offset else item.offset, item.offset, tail, size, 1, stride)
    {
      OneBucketNoTurn(t.bucket, item.offset, tail, stride);
    }
  }

  const BLOCK_VALUE := seq(8188, _ => 0)
  const FIRST_ENTRY := Entry(Key(2, [0]), BLOCK_VALUE, 0)

  /** A one-bucket table after i items of 2^16 bytes. */
  ghost predicate OneBucketAfter(table: Table, first: Slot, i: nat)
    reads table, table.buckets, table.log, table.log.data
  {
    && 1 <= i && table.Usable() && table.numBuckets == 1 && table.log.tail == i * TWO_16
    && FirstAndLast(table.entries, first, FIRST_ENTRY, Alternating(i - 1), (i - 1) * TWO_16)
    && (KeyAt(table.log.data[..], (i - 1) * TWO_16, Alternating(i - 1)) || table.entries.Keys == {first})
  }

  method OneMoreItem(table: Table, ghost first: Slot, i: nat)
    requires OneBucketAfter(table, first, i)
    modifies table, table.buckets, table.log, table.log.data
    ensures OneBucketAfter(table, first, i + 1)
  {
    hide KeyAt, GetTag, CalcBucket, Slotted, Judged, Laid, CL.Headed, CL.Tiles, MakeItemVec, CL.Sized, FirstAndLast,
         CL.CellOf, ItemAt, Placed, Evictable, Pow2, Live, KeepsOthers, Has, SetDone, EntriesStay, SlotMatches, Step,
           Young,
         SweepsDone, Table.Spills;
    ghost var bs, es, tail := table.buckets[..], table.entries, table.log.tail;
    OthersKeys(es, first, Alternating(i - 1), Alternating(i), (i - 1) * TWO_16);
    NeitherMatches(table.log.data[..], bs, es, first, FIRST_ENTRY, Alternating(i - 1), (i - 1) * TWO_16, Alternating(i),
                   table.log.turns);
    assert forall slot :: !table.FitsInPlace(slot, Alternating(i), BLOCK_VALUE);
    hide Table.FitsInPlace;
    var result := table.Set(Alternating(i), BLOCK_VALUE, true);
    ghost var item := Entry(Alternating(i), BLOCK_VALUE, tail);
    ghost var at :| Placed(bs, es, table.entries, 0, at, item, table.log.tail, table.log.Size(), 1, table.stride);
    ReplacesLast(bs, es, table.entries, at, first, FIRST_ENTRY, Alternating(i - 1), (i - 1) * TWO_16, item,
                 table.log.tail,
                 table.log.Size(), table.stride);
  }

  lemma OthersKeys(es: Entries, first: Slot, last: Key, key: Key, o: nat)
    requires FirstAndLast(es, first, FIRST_ENTRY, last, o) && last != key && FIRST_ENTRY.key != key
    ensures forall t | t in es :: es[t].key != key
  {
  }

  /** A new table with one bucket and one item. */
  method FirstItemOfOneBucket(log: CL.Log) returns (table: Table, ghost first: Slot)
    requires log.Valid() && log.tail == 0 && log.blocks == map[]
    modifies log, log.data
    ensures table.log == log && OneBucketAfter(table, first, 1) && fresh(table) && fresh(table.buckets)
  {
    hide KeyAt, GetTag, CalcBucket, Slotted, Judged, Laid, CL.Headed, CL.Tiles, MakeItemVec, Live, CL.IsValid, ItsTurn,
         CL.CellOf, ItemAt, Evictable, Pow2, KeepsOthers, Has, SetDone, GetOffset, Step, CL.Sized;
    var rshift := ComputeShift(0);
    table := new Table(log, 0, rshift, 0);
    ghost var bs := table.buckets[..];
    assert bs[0] == seq(BUCKET_SIZE, _ => 0);
    var result := table.Set(FIRST_ENTRY.key, BLOCK_VALUE, true);
    ghost var at :| Placed(bs, map[], table.entries, 0, at, FIRST_ENTRY, log.tail, log.Size(), 1, table.stride);
    OneBucketNoTurn(0, 0, log.tail, table.stride);
    first := Slot(0, at);
  }

  /** A table with one bucket: the first item's slot is never emptied, and when the tail has moved on by 2^48 bytes the
      slot passes the validity test, though the item has long been overwritten. */
  method OneBucket(log: CL.Log) returns (table: Table, ghost first: Slot)
    requires log.Valid() && log.tail == 0 && log.blocks == map[]
    modifies log, log.data
    ensures table.log == log && table.numBuckets == 1 && table.Ready()
    ensures first in table.entries && table.entries[first].offset == 0 && log.tail == TWO_48
    ensures first.bucket == 0 && first.at < |table.buckets[0]| && table.buckets[0][first.at] != 0
    ensures CL.IsValid(log.tail, GetOffset(table.buckets[0][first.at]), log.Size())
    ensures !Live(table.Now(), table.entries[first]) && !table.Valid()
  {
    hide KeyAt, GetTag, Slotted, Judged, Laid, CL.Headed, CL.Tiles, MakeItemVec, CL.CellOf, GetOffset;
    table, first := FirstItemOfOneBucket(log);
    var i := 1;
    while i < TWO_32
      invariant 1 <= i <= TWO_32 && table.log == log && OneBucketAfter(table, first, i)
      invariant fresh(table) && fresh(table.buckets)
    {
      OneMoreItem(table, first, i);
      i := i + 1;
    }
    SlotsInside(table.buckets[..], table.entries);
    SlotSays(table.buckets[..], table.entries, 0, first.at);
    CL.ValidityRight(TWO_48, 0, log.Size());
  }
}
