/**
 The hash table in its lossless configuration: 7-slot buckets, chained extra buckets taken from a shared free
 list, 16-bit tags, hole filling on deletion, in-place or relocating overwrite, and increment.  Items live in the
 boundary-tag pool.  Key and value lengths are multiples of eight bytes, so keys and values are word sequences.
 */
module LosslessTable {
  import opened Words
  import opened TableItems
  import SF = SegregatedFit

  const BUCKET_SIZE: int := 7
  // ---------- Stored items and slot words ----------

  function KeyLength(st: SF.Stored): nat
    requires |st.words| >= 2
  {
    st.words[0] % TWO_32 / TWO_24
  }

  function ValueLength(st: SF.Stored): nat
    requires |st.words| >= 2
  {
    st.words[0] % TWO_24
  }

  /** The length word describes a key and a value that fit the item. */
  ghost predicate Formed(st: SF.Stored) {
    && |st.words| >= 2
    && KeyLength(st) % 8 == 0 && ValueLength(st) % 8 == 0
    && 2 + KeyLength(st) / 8 + ValueLength(st) / 8 <= |st.words|
  }

  ghost function KeyOf(st: SF.Stored): Key
    requires Formed(st)
  {
    Key(st.words[1], st.words[2..2 + KeyLength(st) / 8])
  }

  ghost function ValueOf(st: SF.Stored): Value
    requires Formed(st)
  {
    var v := 2 + KeyLength(st) / 8;
    st.words[v..v + ValueLength(st) / 8]
  }

  // ---------- Buckets, chains and the free list ----------

  datatype Bucket = Bucket(next: U32, items: seq<U64>)

  /** Position `at` of chain `list`; the list after the last chain is the free list. */
  datatype Place = Place(list: nat, at: nat)

  datatype Slot = Slot(row: nat, at: nat)

  type Lists = seq<seq<nat>>

  /** Every bucket is in exactly one chain or in the free list, exactly once; chain c starts at main bucket c. */
  ghost predicate Placed(lists: Lists, where: seq<Place>, nb: nat) {
    && |lists| == nb + 1
    && (forall r | 0 <= r < |where| :: PlacedAt(lists, where[r], r))
    && (forall c, i | 0 <= c <= nb && 0 <= i < |lists[c]| :: lists[c][i] < |where| && where[lists[c][i]] == Place(c, i))
    && (forall c | 0 <= c < nb :: 0 < |lists[c]| && lists[c][0] == c)
    && nb <= |where| < TWO_32
  }

  ghost predicate PlacedAt(lists: Lists, p: Place, r: nat) {
    p.list < |lists| && p.at < |lists[p.list]| && lists[p.list][p.at] == r
  }

  /** The index stored in the bucket at position i of a list: a chain links forward, the free list backward. */
  ghost function NextIndex(lists: Lists, nb: nat, c: nat, i: nat): int
    requires c < |lists| && i < |lists[c]|
  {
    if c < nb then (if i + 1 < |lists[c]| then lists[c][i + 1] - nb + 1 else 0)
    else (if 0 < i then lists[c][i - 1] - nb + 1 else 0)
  }

  ghost predicate Chained(bs: seq<Bucket>, head: U32, lists: Lists, nb: nat) {
    && |lists| == nb + 1
    && (forall c, i | 0 <= c <= nb && 0 <= i < |lists[c]| :: NextAt(bs, lists, nb, c, i))
    && head == (if lists[nb] == [] then 0 else lists[nb][|lists[nb]| - 1] - nb + 1)
    && (forall i | 0 <= i < |lists[nb]| :: EmptyAt(bs, lists[nb][i]))
  }

  ghost predicate NextAt(bs: seq<Bucket>, lists: Lists, nb: nat, c: nat, i: nat)
    requires c < |lists| && i < |lists[c]|
  {
    lists[c][i] < |bs| && bs[lists[c][i]].next == NextIndex(lists, nb, c, i)
  }

  ghost predicate EmptyAt(bs: seq<Bucket>, r: nat) {
    r < |bs| && forall i | 0 <= i < |bs[r].items| :: bs[r].items[i] == 0
  }

  /** A main bucket is the first of its own chain; later chain members and free buckets are extra ones. */
  lemma ExtraRow(lists: Lists, where: seq<Place>, nb: nat, c: nat, i: nat)
    requires Placed(lists, where, nb) && c <= nb && i < |lists[c]|
    ensures lists[c][i] < nb <==> c < nb && i == 0
    ensures lists[c][i] < |where|
  {
    var r := lists[c][i];
    if r < nb {
      assert where[lists[r][0]] == Place(r, 0);
    }
  }

  // ---------- Slots and keys ----------

  type Items = map<nat, SF.Stored>

  /** Non-empty slots and pool items are in one-to-one correspondence, each item in the chain of its hash. */
  ghost predicate Slotted(bs: seq<Bucket>, where: seq<Place>, items: Items, slotOf: map<nat, Slot>, nb: nat) {
    && 0 < nb && |bs| == |where|
    && (forall r | 0 <= r < |bs| :: |bs[r].items| == BUCKET_SIZE)
    && slotOf.Keys == items.Keys
    && (forall s {:trigger slotOf[s]} | s in items :: s in slotOf && HeldIn(bs, where, items[s], s, slotOf[s], nb))
    && (forall r, i | 0 <= r < |bs| && 0 <= i < BUCKET_SIZE :: PointsTo(bs[r].items[i], slotOf, r, i))
  }

  ghost predicate HeldIn(bs: seq<Bucket>, where: seq<Place>, st: SF.Stored, s: nat, slot: Slot, nb: nat)
    requires 0 < nb
  {
    && slot.row < |bs| == |where| && slot.at < |bs[slot.row].items| && 8 * (s + 1) < TWO_48
    && |st.words| >= 2
    && bs[slot.row].items[slot.at] == MakeItemVec(CalcTag(st.words[1]), 8 * (s + 1))
    && where[slot.row].list == CalcBucket(st.words[1], nb)
  }

  ghost predicate PointsTo(vec: U64, slotOf: map<nat, Slot>, r: nat, i: nat) {
    vec != 0 ==>
      && GetOffset(vec) % 8 == 0 && 8 <= GetOffset(vec)
      && GetOffset(vec) / 8 - 1 in slotOf && slotOf[GetOffset(vec) / 8 - 1] == Slot(r, i)
  }

  /** `ref` names the item of each key; no two items have the same key. */
  ghost predicate Keyed(items: Items, ref: map<Key, nat>) {
    && (forall s {:trigger KeyedAt(items[s], s, ref)} | s in items :: KeyedAt(items[s], s, ref))
    && (forall k {:trigger ref[k]} | k in ref :: ref[k] in items && Formed(items[ref[k]]) && KeyOf(items[ref[k]]) == k)
  }

  ghost predicate KeyedAt(st: SF.Stored, s: nat, ref: map<Key, nat>) {
    Formed(st) && KeyOf(st) in ref && ref[KeyOf(st)] == s
  }

  /** The map the table stands for. */
  ghost function ContentsOf(items: Items, ref: map<Key, nat>): map<Key, Value>
    requires Keyed(items, ref)
  {
    map k | k in ref :: ValueOf(items[ref[k]])
  }

  /** What a non-empty slot holds. */
  lemma SlotTarget(bs: seq<Bucket>, where: seq<Place>, items: Items, slotOf: map<nat, Slot>, nb: nat, r: nat, i: nat)
    returns (s: nat)
    requires Slotted(bs, where, items, slotOf, nb) && r < |bs| && i < BUCKET_SIZE && bs[r].items[i] != 0
    ensures s in items && |items[s].words| >= 2
    ensures GetTag(bs[r].items[i]) == CalcTag(items[s].words[1]) && where[r].list == CalcBucket(items[s].words[1], nb)
    ensures s in slotOf && slotOf[s] == Slot(r, i) && GetOffset(bs[r].items[i]) == 8 * (s + 1)
  {
    hide CalcBucket, CalcTag, MakeItemVec, GetTag, GetOffset;
    assert PointsTo(bs[r].items[i], slotOf, r, i);
    s := GetOffset(bs[r].items[i]) / 8 - 1;
    assert s in slotOf.Keys;
    assert HeldIn(bs, where, items[s], s, slotOf[s], nb);
    VecRoundTrip(CalcTag(items[s].words[1]), 8 * (s + 1));
  }

  /** The slot of a stored key holds its tag and lies in the chain of its hash. */
  lemma SlotOfKey(bs: seq<Bucket>, where: seq<Place>, items: Items, slotOf: map<nat, Slot>, ref: map<Key, nat>,
                  nb: nat, k: Key)
    requires Slotted(bs, where, items, slotOf, nb) && Keyed(items, ref) && k in ref
    ensures ref[k] in items && ref[k] in slotOf
    ensures var slot := slotOf[ref[k]];
            && slot.row < |bs| && slot.at < BUCKET_SIZE
            && bs[slot.row].items[slot.at] != 0 && GetTag(bs[slot.row].items[slot.at]) == CalcTag(k.hash)
            && GetOffset(bs[slot.row].items[slot.at]) == 8 * (ref[k] + 1)
            && where[slot.row].list == CalcBucket(k.hash, nb)
  {
    hide CalcBucket, CalcTag, MakeItemVec, GetTag, GetOffset;
    var s := ref[k];
    assert HeldIn(bs, where, items[s], s, slotOf[s], nb);
    VecRoundTrip(CalcTag(items[s].words[1]), 8 * (s + 1));
  }

  // ---------- Moving extra buckets ----------

  function Last<T>(l: seq<T>): T
    requires l != []
  {
    l[|l| - 1]
  }

  function Init<T>(l: seq<T>): seq<T>
    requires l != []
  {
    l[..|l| - 1]
  }

  /** The last bucket of one list becomes the last of another. */
  ghost function MovedList(lists: Lists, from: nat, to: nat): (r: Lists)
    requires from < |lists| && to < |lists| && from != to && lists[from] != []
    ensures |r| == |lists| && |r[from]| == |lists[from]| - 1 && |r[to]| == |lists[to]| + 1
    ensures forall c | 0 <= c < |r| && c != from && c != to :: r[c] == lists[c]
    ensures forall i | 0 <= i < |r[from]| :: r[from][i] == lists[from][i]
    ensures forall i | 0 <= i < |lists[to]| :: r[to][i] == lists[to][i]
    ensures r[to][|lists[to]|] == Last(lists[from])
  {
    lists[from := Init(lists[from])][to := lists[to] + [Last(lists[from])]]
  }

  lemma MovedPlaced(lists: Lists, where: seq<Place>, nb: nat, from: nat, to: nat)
    requires Placed(lists, where, nb) && from <= nb && to <= nb && from != to && lists[from] != []
    requires from < nb ==> 2 <= |lists[from]|
    ensures Last(lists[from]) < |where|
    ensures Placed(MovedList(lists, from, to), where[Last(lists[from]) := Place(to, |lists[to]|)], nb)
  {
    hide MovedList;
    var e := Last(lists[from]);
    assert where[lists[from][|lists[from]| - 1]] == Place(from, |lists[from]| - 1);
    var lists', where' := MovedList(lists, from, to), where[e := Place(to, |lists[to]|)];
    forall r | 0 <= r < |where'|
      ensures PlacedAt(lists', where'[r], r)
    {
      assert PlacedAt(lists, where[r], r);
    }
    forall c, i | 0 <= c <= nb && 0 <= i < |lists'[c]|
      ensures lists'[c][i] < |where'| && where'[lists'[c][i]] == Place(c, i)
    {
      if c != to || i < |lists[to]| {
        assert where[lists[c][i]] == Place(c, i);
      }
    }
  }

  /** Two places of the lists hold different buckets. */
  lemma PlacesApart(lists: Lists, where: seq<Place>, nb: nat, c: nat, i: nat, d: nat, j: nat)
    requires Placed(lists, where, nb) && c <= nb && d <= nb && i < |lists[c]| && j < |lists[d]|
    ensures lists[c][i] == lists[d][j] ==> c == d && i == j
  {
    assert where[lists[c][i]] == Place(c, i) && where[lists[d][j]] == Place(d, j);
  }

  /** Linking a free bucket behind the last one of chain c. */
  lemma AllocChained(bs: seq<Bucket>, bs': seq<Bucket>, head: U32, lists: Lists, where: seq<Place>, nb: nat, c: nat)
    requires Placed(lists, where, nb) && Chained(bs, head, lists, nb) && |bs| == |where| == |bs'|
    requires c < nb && lists[nb] != []
    requires var e, t := Last(lists[nb]), Last(lists[c]);
             && (forall r | 0 <= r < |bs| && r != e && r != t :: bs'[r] == bs[r])
             && e < |bs| && t < |bs| && e != t
             && bs'[e] == bs[e].(next := 0) && bs'[t].items == bs[t].items && bs'[t].next == e - nb + 1
    ensures bs[Last(lists[nb])].next < TWO_32
    ensures Chained(bs', bs[Last(lists[nb])].next, MovedList(lists, nb, c), nb)
  {
    hide MovedList;
    var f, l := |lists[nb]| - 1, |lists[c]| - 1;
    assert NextAt(bs, lists, nb, nb, f);
    var lists' := MovedList(lists, nb, c);
    forall d, i | 0 <= d <= nb && 0 <= i < |lists'[d]|
      ensures NextAt(bs', lists', nb, d, i)
    {
      if d != c || i <= l {
        assert NextAt(bs, lists, nb, d, i);
        PlacesApart(lists, where, nb, d, i, nb, f);
        PlacesApart(lists, where, nb, d, i, c, l);
      }
    }
    forall i | 0 <= i < |lists'[nb]|
      ensures EmptyAt(bs', lists'[nb][i])
    {
      assert EmptyAt(bs, lists[nb][i]);
      PlacesApart(lists, where, nb, nb, i, nb, f);
      PlacesApart(lists, where, nb, nb, i, c, l);
    }
  }

  /** The last two buckets of a chain that has an extra one. */
  lemma ChainEnd(bs: seq<Bucket>, head: U32, lists: Lists, where: seq<Place>, nb: nat, c: nat)
    requires Placed(lists, where, nb) && Chained(bs, head, lists, nb) && |bs| == |where| && c < nb && 2 <= |lists[c]|
    ensures var e, t := Last(lists[c]), lists[c][|lists[c]| - 2];
            e < |bs| && t < |bs| && e != t && nb <= e && bs[t].next == e - nb + 1
  {
    ChainStep(bs, head, lists, where, nb, c, |lists[c]| - 2);
    ChainStep(bs, head, lists, where, nb, c, |lists[c]| - 1);
    ExtraRow(lists, where, nb, c, |lists[c]| - 1);
    PlacesApart(lists, where, nb, c, |lists[c]| - 1, c, |lists[c]| - 2);
  }

  lemma ListsMoved(lists: Lists, c: nat, nb: nat)
    requires |lists| == nb + 1 && c < nb && 0 < |lists[c]|
    ensures |MovedList(lists, c, nb)| == |lists| && MovedList(lists, c, nb)[c] == Init(lists[c])
  {
  }

  /** Unlinking the empty last bucket of chain c. */
  lemma FreeChained(bs: seq<Bucket>, bs': seq<Bucket>, head: U32, lists: Lists, where: seq<Place>, nb: nat, c: nat)
    requires Placed(lists, where, nb) && Chained(bs, head, lists, nb) && |bs| == |where| == |bs'|
    requires c < nb && 2 <= |lists[c]|
    requires var e, t := Last(lists[c]), lists[c][|lists[c]| - 2];
             && (forall r | 0 <= r < |bs| && r != e && r != t :: bs'[r] == bs[r])
             && e < |bs| && t < |bs| && e != t && nb <= e && EmptyAt(bs, e)
             && bs'[e] == bs[e].(next := head) && bs'[t] == bs[t].(next := 0)
    ensures Last(lists[c]) - nb + 1 < TWO_32
    ensures Chained(bs', Last(lists[c]) - nb + 1, MovedList(lists, c, nb), nb)
  {
    hide MovedList;
    var l := |lists[c]| - 1;
    var lists' := MovedList(lists, c, nb);
    forall d, i | 0 <= d <= nb && 0 <= i < |lists'[d]|
      ensures NextAt(bs', lists', nb, d, i)
    {
      if d != nb || i < |lists[nb]| {
        assert NextAt(bs, lists, nb, d, i);
        PlacesApart(lists, where, nb, d, i, c, l);
        PlacesApart(lists, where, nb, d, i, c, l - 1);
      }
    }
    forall i | 0 <= i < |lists'[nb]|
      ensures EmptyAt(bs', lists'[nb][i])
    {
      if i < |lists[nb]| {
        assert EmptyAt(bs, lists[nb][i]);
        PlacesApart(lists, where, nb, nb, i, c, l);
        PlacesApart(lists, where, nb, nb, i, c, l - 1);
      }
    }
  }

  /** Slots survive when no item word changes and only empty buckets move between lists. */
  lemma SlottedMoved(bs: seq<Bucket>, bs': seq<Bucket>, where: seq<Place>, where': seq<Place>, items: Items,
                     slotOf: map<nat, Slot>, nb: nat)
    requires Slotted(bs, where, items, slotOf, nb) && |bs'| == |bs| == |where'|
    requires forall r | 0 <= r < |bs| :: bs'[r].items == bs[r].items
    requires forall r | 0 <= r < |bs| :: where'[r] == where[r] || EmptyAt(bs, r)
    ensures Slotted(bs', where', items, slotOf, nb)
  {
    hide CalcBucket, CalcTag;
    forall s | s in items
      ensures s in slotOf && HeldIn(bs', where', items[s], s, slotOf[s], nb)
    {
      assert s in slotOf.Keys;
      assert HeldIn(bs, where, items[s], s, slotOf[s], nb);
      VecRoundTrip(CalcTag(items[s].words[1]), 8 * (s + 1));
    }
    forall r, i | 0 <= r < |bs'| && 0 <= i < BUCKET_SIZE
      ensures PointsTo(bs'[r].items[i], slotOf, r, i)
    {
      assert PointsTo(bs[r].items[i], slotOf, r, i);
    }
  }

  // ---------- Writing slots ----------

  /** One item word of one bucket. */
  function WithSlot(bs: seq<Bucket>, r: nat, i: nat, vec: U64): seq<Bucket>
    requires r < |bs| && i < |bs[r].items|
  {
    bs[r := bs[r].(items := bs[r].items[i := vec])]
  }

  /** Empty buckets may have gone from the end of a chain; every bucket keeps its items. */
  ghost predicate Shortened(bs: seq<Bucket>, bs': seq<Bucket>, l: seq<nat>, l': seq<nat>) {
    && |bs'| == |bs| && l' <= l && (forall r | 0 <= r < |bs| :: bs'[r].items == bs[r].items)
    && forall q | |l'| <= q < |l| :: EmptyAt(bs', l[q])
  }

  /** The hole at a slot of a chain l was filled from the last bucket that was not empty, which has left the chain only
      if that has made it empty, together with the empty ones behind it; or the hole's bucket is now the last one. */
  ghost predicate Refilled(bs: seq<Bucket>, bs': seq<Bucket>, hole: Slot, l: seq<nat>, l': seq<nat>) {
    && |bs'| == |bs| && l' <= l && l' != [] && (forall q | |l'| <= q < |l| :: EmptyAt(bs', l[q]))
    && if hole.row == Last(l') && Shortened(bs, bs', l, l') then true else
         exists p: nat, moved: nat :: p < |l| && MovedFrom(bs, bs', hole, l, l', p, moved)
  }

  /** One item moved from the p-th bucket of a chain to a hole. */
  ghost predicate MovedFrom(bs: seq<Bucket>, bs': seq<Bucket>, hole: Slot, l: seq<nat>, l': seq<nat>, p: nat,
                            moved: nat)
    requires p < |l|
  {
    && hole.row < |bs| == |bs'| && l[p] < |bs| && l[p] != hole.row && hole.at < |bs[hole.row].items|
    && moved < |bs[l[p]].items| && bs[l[p]].items[moved] != 0
    && (forall r | 0 <= r < |bs| ::
          bs'[r].items == WithSlot(WithSlot(bs, l[p], moved, 0), hole.row, hole.at, bs[l[p]].items[moved])[r].items)
    && |l'| == if EmptyAt(bs', l[p]) then p else p + 1
  }

  lemma NotRefilled(bs0: seq<Bucket>, bs: seq<Bucket>, hole: Slot, l0: seq<nat>, l: seq<nat>)
    requires Shortened(bs0, bs, l0, l) && l != [] && hole.row == Last(l)
    ensures Refilled(bs0, bs, hole, l0, l)
  {
  }

  lemma IsRefilled(bs0: seq<Bucket>, bs: seq<Bucket>, bs': seq<Bucket>, hole: Slot, moved: nat, l0: seq<nat>,
                   l: seq<nat>,
                   l': seq<nat>)
    requires Shortened(bs0, bs, l0, l) && 2 <= |l| && |bs'| == |bs|
    requires hole.row < |bs| && hole.at < |bs[hole.row].items| && hole.row != Last(l)
    requires Last(l) < |bs| && moved < |bs[Last(l)].items| && bs[Last(l)].items[moved] != 0
    requires (forall p, q | 0 <= p < q < |l0| :: l0[p] != l0[q]) && hole.row in l
    requires forall r | 0 <= r < |bs| ::
               bs'[r].items == WithSlot(WithSlot(bs, Last(l), moved, 0), hole.row, hole.at,
                                        bs[Last(l)].items[moved])[r].items
    requires l' == if EmptyAt(bs', Last(l)) then Init(l) else l
    ensures Refilled(bs0, bs', hole, l0, l')
  {
    assert l0[|l| - 1] == Last(l);
    assert MovedFrom(bs0, bs', hole, l0, l', |l| - 1, moved);
  }

  lemma EmptiedIff(bs: seq<Bucket>, bs': seq<Bucket>, hole: Slot, r: nat, moved: nat, other: nat, lastItem: bool)
    requires hole.row < |bs| && hole.at < |bs[hole.row].items| && r < |bs| && r != hole.row && moved < |bs[r].items|
    requires bs' == WithSlot(WithSlot(bs, r, moved, 0), hole.row, hole.at, bs[r].items[moved])
    requires lastItem ==> forall j | 0 <= j < |bs[r].items| && j != moved :: bs[r].items[j] == 0
    requires !lastItem ==> other < |bs[r].items| && other != moved && bs[r].items[other] != 0
    ensures lastItem <==> EmptyAt(bs', r)
  {
    assert bs'[r].items == bs[r].items[moved := 0];
    assert !lastItem ==> bs'[r].items[other] != 0;
  }

  lemma ChainDistinct(lists: Lists, where: seq<Place>, nb: nat, c: nat)
    requires Placed(lists, where, nb) && c <= nb
    ensures |lists| == nb + 1 && forall p, q | 0 <= p < q < |lists[c]| :: lists[c][p] != lists[c][q]
  {
    forall p, q | 0 <= p < q < |lists[c]|
      ensures lists[c][p] != lists[c][q]
    {
      PlacesApart(lists, where, nb, c, p, c, q);
    }
  }

  lemma SlotChained(bs: seq<Bucket>, head: U32, lists: Lists, where: seq<Place>, nb: nat, r: nat, i: nat, vec: U64)
    requires Placed(lists, where, nb) && Chained(bs, head, lists, nb) && |bs| == |where|
    requires r < |bs| && i < |bs[r].items| && where[r].list < nb
    ensures Chained(WithSlot(bs, r, i, vec), head, lists, nb)
  {
    var bs' := WithSlot(bs, r, i, vec);
    forall c, j | 0 <= c <= nb && 0 <= j < |lists[c]|
      ensures NextAt(bs', lists, nb, c, j)
    {
      assert NextAt(bs, lists, nb, c, j);
    }
    forall j | 0 <= j < |lists[nb]|
      ensures EmptyAt(bs', lists[nb][j])
    {
      assert EmptyAt(bs, lists[nb][j]) && where[lists[nb][j]] == Place(nb, j);
    }
  }

  /** Storing a new item in an empty slot of the chain of its hash. */
  lemma SlotFilled(bs: seq<Bucket>, where: seq<Place>, items: Items, slotOf: map<nat, Slot>, nb: nat, r: nat, i: nat,
                   s: nat, st: SF.Stored)
    requires Slotted(bs, where, items, slotOf, nb) && r < |bs| && i < BUCKET_SIZE && bs[r].items[i] == 0
    requires s !in items && |st.words| >= 2 && 8 * (s + 1) < TWO_48
    requires where[r].list == CalcBucket(st.words[1], nb)
    ensures Slotted(WithSlot(bs, r, i, MakeItemVec(CalcTag(st.words[1]), 8 * (s + 1))), where, items[s := st],
                    slotOf[s := Slot(r, i)], nb)
  {
    hide CalcBucket, CalcTag, MakeItemVec, GetTag;
    var vec := MakeItemVec(CalcTag(st.words[1]), 8 * (s + 1));
    VecRoundTrip(CalcTag(st.words[1]), 8 * (s + 1));
    var bs', items', slotOf' := WithSlot(bs, r, i, vec), items[s := st], slotOf[s := Slot(r, i)];
    forall t | t in items'
      ensures t in slotOf' && HeldIn(bs', where, items'[t], t, slotOf'[t], nb)
    {
      if t != s {
        assert t in slotOf.Keys && HeldIn(bs, where, items[t], t, slotOf[t], nb);
        VecRoundTrip(CalcTag(items[t].words[1]), 8 * (t + 1));
      }
    }
    forall q, j | 0 <= q < |bs'| && 0 <= j < BUCKET_SIZE
      ensures PointsTo(bs'[q].items[j], slotOf', q, j)
    {
      assert PointsTo(bs[q].items[j], slotOf, q, j);
    }
  }

  lemma HeldOffset(bs: seq<Bucket>, where: seq<Place>, st: SF.Stored, s: nat, slot: Slot, nb: nat)
    requires 0 < nb && HeldIn(bs, where, st, s, slot, nb)
    ensures var vec := bs[slot.row].items[slot.at];
            vec != 0 && GetOffset(vec) == 8 * (s + 1) && GetOffset(vec) / 8 - 1 == s
  {
    hide CalcBucket, CalcTag, MakeItemVec, GetTag, GetOffset;
    VecRoundTrip(CalcTag(st.words[1]), 8 * (s + 1));
  }

  /** Emptying a slot and dropping its item. */
  lemma SlotEmptied(bs: seq<Bucket>, where: seq<Place>, items: Items, slotOf: map<nat, Slot>, nb: nat, s: nat)
    requires Slotted(bs, where, items, slotOf, nb) && s in items && s in slotOf
    ensures slotOf[s].row < |bs| && slotOf[s].at < |bs[slotOf[s].row].items|
    ensures Slotted(WithSlot(bs, slotOf[s].row, slotOf[s].at, 0), where, items - {s}, slotOf - {s}, nb)
  {
    hide CalcBucket, CalcTag, MakeItemVec, GetTag, GetOffset;
    assert HeldIn(bs, where, items[s], s, slotOf[s], nb);
    HeldOffset(bs, where, items[s], s, slotOf[s], nb);
    var r, i := slotOf[s].row, slotOf[s].at;
    var bs', items', slotOf' := WithSlot(bs, r, i, 0), items - {s}, slotOf - {s};
    assert PointsTo(bs[r].items[i], slotOf, r, i);
    forall t | t in items'
      ensures t in slotOf' && HeldIn(bs', where, items'[t], t, slotOf'[t], nb)
    {
      assert t in slotOf.Keys && HeldIn(bs, where, items[t], t, slotOf[t], nb);
      HeldOffset(bs, where, items[t], t, slotOf[t], nb);
    }
    forall q, j | 0 <= q < |bs'| && 0 <= j < BUCKET_SIZE
      ensures PointsTo(bs'[q].items[j], slotOf', q, j)
    {
      assert PointsTo(bs[q].items[j], slotOf, q, j);
    }
  }

  /** Moving an item word to an empty slot of the same chain. */
  lemma SlotShifted(bs: seq<Bucket>, where: seq<Place>, items: Items, slotOf: map<nat, Slot>, nb: nat, s: nat,
                    r: nat, i: nat)
    requires Slotted(bs, where, items, slotOf, nb) && s in items && s in slotOf
    requires r < |bs| && i < BUCKET_SIZE && bs[r].items[i] == 0
    requires slotOf[s].row < |bs| && where[r].list == where[slotOf[s].row].list
    ensures slotOf[s].at < |bs[slotOf[s].row].items| && slotOf[s] != Slot(r, i)
    ensures var vec := bs[slotOf[s].row].items[slotOf[s].at];
            var bs1 := WithSlot(bs, slotOf[s].row, slotOf[s].at, 0);
            i < |bs1[r].items| && Slotted(WithSlot(bs1, r, i, vec), where, items, slotOf[s := Slot(r, i)], nb)
  {
    hide CalcBucket, CalcTag, MakeItemVec, GetTag, Slotted;
    assert HeldIn(bs, where, items[s], s, slotOf[s], nb) by { SlottedAt(bs, where, items, slotOf, nb, s); }
    VecRoundTrip(CalcTag(items[s].words[1]), 8 * (s + 1));
    SlotEmptied(bs, where, items, slotOf, nb, s);
    var bs1 := WithSlot(bs, slotOf[s].row, slotOf[s].at, 0);
    assert i < |bs1[r].items| by { SlottedSizes(bs1, where, items - {s}, slotOf - {s}, nb, r); }
    SlotFilled(bs1, where, items - {s}, slotOf - {s}, nb, r, i, s, items[s]);
    assert (items - {s})[s := items[s]] == items;
    assert (slotOf - {s})[s := Slot(r, i)] == slotOf[s := Slot(r, i)];
  }

  lemma SlottedAt(bs: seq<Bucket>, where: seq<Place>, items: Items, slotOf: map<nat, Slot>, nb: nat, s: nat)
    requires Slotted(bs, where, items, slotOf, nb) && s in items
    ensures s in slotOf && HeldIn(bs, where, items[s], s, slotOf[s], nb) && slotOf[s].at < BUCKET_SIZE
  {
    assert s in slotOf.Keys;
  }

  lemma SlottedSizes(bs: seq<Bucket>, where: seq<Place>, items: Items, slotOf: map<nat, Slot>, nb: nat, r: nat)
    requires Slotted(bs, where, items, slotOf, nb) && r < |bs|
    ensures |bs[r].items| == BUCKET_SIZE && |bs| == |where|
  {
  }

  /** A new item of the same hash in place of an old one. */
  lemma ItemReplaced(bs: seq<Bucket>, where: seq<Place>, items: Items, slotOf: map<nat, Slot>, nb: nat, s: nat,
                     st: SF.Stored)
    requires Slotted(bs, where, items, slotOf, nb) && s in items
    requires |st.words| >= 2 && |items[s].words| >= 2 && st.words[1] == items[s].words[1]
    ensures Slotted(bs, where, items[s := st], slotOf, nb)
  {
    hide CalcBucket, CalcTag, MakeItemVec, GetTag;
    forall t | t in items
      ensures t in slotOf && HeldIn(bs, where, items[s := st][t], t, slotOf[t], nb)
    {
      assert t in slotOf.Keys && HeldIn(bs, where, items[t], t, slotOf[t], nb);
    }
  }

  lemma KeyAdded(items: Items, ref: map<Key, nat>, s: nat, st: SF.Stored)
    requires Keyed(items, ref) && s !in items && Formed(st) && KeyOf(st) !in ref
    ensures Keyed(items[s := st], ref[KeyOf(st) := s])
    ensures ContentsOf(items[s := st], ref[KeyOf(st) := s]) == ContentsOf(items, ref)[KeyOf(st) := ValueOf(st)]
  {
    hide KeyOf, ValueOf, Formed;
    var items', ref' := items[s := st], ref[KeyOf(st) := s];
    forall t | t in items'
      ensures KeyedAt(items'[t], t, ref')
    {
      if t != s { assert KeyedAt(items[t], t, ref); }
    }
  }

  lemma KeyDropped(items: Items, ref: map<Key, nat>, k: Key)
    requires Keyed(items, ref) && k in ref
    ensures ref[k] in items
    ensures Keyed(items - {ref[k]}, ref - {k})
    ensures ContentsOf(items - {ref[k]}, ref - {k}) == ContentsOf(items, ref) - {k}
  {
    hide KeyOf, ValueOf, Formed;
    var s := ref[k];
    assert KeyedAt(items[s], s, ref);
    forall t | t in items - {s}
      ensures KeyedAt(items[t], t, ref - {k})
    {
      assert KeyedAt(items[t], t, ref);
    }
  }

  lemma ValueReplaced(items: Items, ref: map<Key, nat>, s: nat, st: SF.Stored)
    requires Keyed(items, ref) && s in items && Formed(st) && Formed(items[s]) && KeyOf(st) == KeyOf(items[s])
    ensures Keyed(items[s := st], ref)
    ensures ContentsOf(items[s := st], ref) == ContentsOf(items, ref)[KeyOf(st) := ValueOf(st)]
  {
    hide KeyOf, ValueOf, Formed;
    assert KeyedAt(items[s], s, ref);
    forall t | t in items
      ensures KeyedAt(items[s := st][t], t, ref)
    {
      assert KeyedAt(items[t], t, ref);
    }
  }

  // ---------- The table ----------

  class Table {
    const pool: SF.Pool
    const numBuckets: nat
    const buckets: array<Bucket> // the main buckets, then the extra ones
    var freeHead: U32            // extra_bucket_free_list_.head
    ghost var lists: Lists
    ghost var where: seq<Place>
    ghost var slotOf: map<nat, Slot>
    ghost var ref: map<Key, nat>

    ghost predicate Structured()
      reads this, buckets
    {
      && 0 < numBuckets && |where| == buckets.Length && |lists| == numBuckets + 1
      && Placed(lists, where, numBuckets) && Chained(buckets[..], freeHead, lists, numBuckets)
    }

    ghost predicate Filled()
      reads this, buckets, pool, pool.data, pool.freeHead
    {
      && 0 < numBuckets && pool.Valid()
      && Slotted(buckets[..], where, pool.Items(), slotOf, numBuckets) && Keyed(pool.Items(), ref)
    }

    ghost predicate Valid()
      reads this, buckets, pool, pool.data, pool.freeHead
    {
      Structured() && Filled()
    }

    /** The map from keys to values that the table stands for. */
    ghost function Contents(): map<Key, Value>
      requires Filled()
      reads this, buckets, pool, pool.data, pool.freeHead
    {
      ContentsOf(pool.Items(), ref)
    }

    constructor (pool: SF.Pool, numBuckets: nat, numExtra: nat)
      requires pool.Valid() && pool.Items() == map[]
      requires 0 < numBuckets && numBuckets + numExtra < TWO_32
      ensures Valid() && Contents() == map[] && fresh(buckets) && this.pool == pool
      ensures this.numBuckets == numBuckets && buckets.Length == numBuckets + numExtra
    {
      this.pool, this.numBuckets := pool, numBuckets;
      buckets := new Bucket[numBuckets + numExtra](_ => Bucket(0, seq(BUCKET_SIZE, _ => 0)));
      freeHead := 0;
      slotOf, ref := map[], map[];
      new;
      hide SF.Pool.Valid, SF.Pool.Items, Placed, Chained;
      InitExtraBuckets();
      assert Structured();
      assert Slotted(buckets[..], where, map[], slotOf, numBuckets);
    }

    /** Threads every extra bucket of a zeroed table into the free list. */
    method InitExtraBuckets()
      requires 0 < numBuckets <= buckets.Length < TWO_32
      requires forall r | 0 <= r < buckets.Length :: buckets[r] == Bucket(0, seq(BUCKET_SIZE, _ => 0))
      modifies this`freeHead, this`lists, this`where, buckets
      ensures Structured() && forall r | 0 <= r < buckets.Length :: buckets[r].items == seq(BUCKET_SIZE, _ => 0)
      ensures |lists| == numBuckets + 1 && |lists[numBuckets]| == buckets.Length - numBuckets
    {
      hide FreshLists, FreshWhere, Placed, Chained;
      var numExtra := buckets.Length - numBuckets;
      if numExtra == 0 {
        freeHead := 0;
      } else {
        var e := 1;
        while e < numExtra
          invariant 1 <= e <= numExtra
          invariant forall r | 0 <= r < buckets.Length :: buckets[r].items == seq(BUCKET_SIZE, _ => 0)
          invariant forall r | 0 <= r < numBuckets :: buckets[r].next == 0
          invariant forall r | numBuckets <= r < numBuckets - 1 + e :: buckets[r].next == r - numBuckets + 2
        {
          buckets[numBuckets - 1 + e] := buckets[numBuckets - 1 + e].(next := e + 1);
          e := e + 1;
        }
        buckets[numBuckets - 1 + e] := buckets[numBuckets - 1 + e].(next := 0);
        freeHead := 1;
      }
      lists, where := FreshLists(numBuckets, numExtra), FreshWhere(numBuckets, numExtra);
      FreshPlaced(numBuckets, numExtra);
      FreshChained(buckets[..], freeHead, numBuckets, numExtra);
    }

    /** Compares the stored key of an item with a key. */
    method ItemMatches(offset: nat, key: Key) returns (same: bool)
      requires pool.Valid() && offset % 8 == 0 && 8 <= offset && offset / 8 - 1 in pool.Items()
      requires Formed(pool.Items()[offset / 8 - 1])
      ensures same <==> KeyOf(pool.Items()[offset / 8 - 1]) == key
    {
      hide SF.Pool.Valid, SF.Pool.Items;
      ghost var st := pool.Items()[offset / 8 - 1];
      var hash := pool.ReadWord(offset, 1);
      if hash != key.hash {
        return false;
      }
      var lengths := pool.ReadWord(offset, 0);
      if lengths % TWO_32 / TWO_24 != 8 * |key.words| {
        return false;
      }
      for j := 0 to |key.words|
        invariant st.words[2..2 + j] == key.words[..j]
      {
        var w := pool.ReadWord(offset, 2 + j);
        if w != key.words[j] {
          assert KeyOf(st).words[j] == w;
          return false;
        }
        assert st.words[2..2 + j + 1] == st.words[2..2 + j] + [w];
        assert key.words[..j + 1] == key.words[..j] + [w];
      }
      return true;
    }

    /** Walks the chain of the key's bucket for a slot that matches in tag, hash and key. */
    method FindItem(key: Key) returns (found: bool, row: nat, at: nat)
      requires Valid()
      ensures found <==> key in ref
      ensures found ==>
                ref[key] in slotOf && slotOf[ref[key]] == Slot(row, at) && row < buckets.Length && at < BUCKET_SIZE
    {
      hide CalcBucket, CalcTag, Slotted, Chained, Keyed, KeyOf, Formed, GetTag, GetOffset, Placed;
      hide SF.Pool.Valid, SF.Pool.Items;
      ghost var bs, items := buckets[..], pool.Items();
      var b, tag := CalcBucket(key.hash, numBuckets), CalcTag(key.hash);
      ghost var p := 0;
      row := b;
      ChainStart(lists, where, numBuckets, b);
      if key in ref {
        SlotOfKey(bs, where, items, slotOf, ref, numBuckets, key);
      }
      while true
        invariant b < |lists| && p < |lists[b]| && row == lists[b][p] && row < |bs|
        invariant key in ref ==> ref[key] in slotOf && forall q | 0 <= q < p :: slotOf[ref[key]].row != lists[b][q]
        decreases |lists[b]| - p
      {
        SlottedSizes(bs, where, items, slotOf, numBuckets, row);
        at := 0;
        while at < BUCKET_SIZE
          invariant 0 <= at <= BUCKET_SIZE
          invariant key in ref ==> forall a | 0 <= a < at :: slotOf[ref[key]] != Slot(row, a)
        {
          var vec := buckets[row].items[at];
          if key in ref {
            SlotOfKey(bs, where, items, slotOf, ref, numBuckets, key);
            KeyedKey(items, ref, key);
          }
          if GetTag(vec) == tag {
            TagNonZero(vec, tag);
            ghost var s := SlotTarget(bs, where, items, slotOf, numBuckets, row, at);
            KeyedItem(items, ref, s);
            var same := ItemMatches(GetOffset(vec), key);
            if same {
              return true, row, at;
            }
          }
          at := at + 1;
        }
        ChainStep(bs, freeHead, lists, where, numBuckets, b, p);
        if key in ref {
          SlotOfKey(bs, where, items, slotOf, ref, numBuckets, key);
          InChain(lists, where, numBuckets, b, slotOf[ref[key]].row);
        }
        var next := buckets[row].next;
        if next == 0 {
          return false, 0, 0;
        }
        row := numBuckets - 1 + next;
        p := p + 1;
      }
    }

    /** Copies a run of words into an item. */
    method WriteRun(offset: nat, at: nat, run: seq<U64>)
      requires pool.Valid() && offset % 8 == 0 && 8 <= offset && offset / 8 - 1 in pool.Items()
      requires at + |run| <= |pool.Items()[offset / 8 - 1].words|
      modifies pool.data
      ensures pool.Valid()
      ensures var s := offset / 8 - 1;
              var st := old(pool.Items())[s];
              pool.Items() == old(pool.Items())[s := SF.Stored(st.size, Overlaid(st.words, at, run))]
    {
      hide SF.Pool.Valid, SF.Pool.Items, Overlaid;
      ghost var s := offset / 8 - 1;
      ghost var items0, st := pool.Items(), pool.Items()[s];
      OverlaidNone(st.words, at);
      var j := 0;
      while j < |run|
        invariant 0 <= j <= |run| && pool.Valid()
        invariant pool.Items() == items0[s := SF.Stored(st.size, Overlaid(st.words, at, run[..j]))]
      {
        pool.WriteWord(offset, at + j, run[j]);
        OverlaidStep(st.words, at, run, j);
        j := j + 1;
      }
      assert run[..|run|] == run;
    }

    /** Stores the lengths, the hash, the key and the value of an item. */
    method SetItem(offset: nat, key: Key, value: Value)
      requires pool.Valid() && offset % 8 == 0 && 8 <= offset && Room(pool.Items(), offset / 8 - 1, key, value)
      modifies pool.data
      ensures pool.Valid() && ItemSet(old(pool.Items()), pool.Items(), offset / 8 - 1, key, value)
    {
      hide SF.Pool.Valid, SF.Pool.Items, Formed, KeyOf, ValueOf, WithLengths, Overlaid;
      ghost var items, s := pool.Items(), offset / 8 - 1;
      var n := |key.words|;
      var w := pool.ReadWord(offset, 0);
      pool.WriteWord(offset, 0, WithLengths(w, 8 * n, 8 * |value|));
      pool.WriteWord(offset, 1, key.hash);
      WriteRun(offset, 2, key.words);
      WriteRun(offset, 2 + n, value);
      ItemWritten(items[s], w, key, value);
    }

    /** Overwrites the value of an item whose key stays. */
    method SetItemValue(offset: nat, ghost key: Key, value: Value)
      requires pool.Valid() && offset % 8 == 0 && 8 <= offset && Room(pool.Items(), offset / 8 - 1, key, value)
      requires Formed(pool.Items()[offset / 8 - 1]) && KeyOf(pool.Items()[offset / 8 - 1]) == key
      modifies pool.data
      ensures pool.Valid() && ItemSet(old(pool.Items()), pool.Items(), offset / 8 - 1, key, value)
    {
      hide SF.Pool.Valid, SF.Pool.Items, Formed, KeyOf, ValueOf, WithLengths, Overlaid;
      ghost var items, s := pool.Items(), offset / 8 - 1;
      var w := pool.ReadWord(offset, 0);
      var keyLength := w % TWO_32 / TWO_24;
      KeyWords(items[s], key);
      pool.WriteWord(offset, 0, WithLengths(w, keyLength, 8 * |value|));
      WriteRun(offset, 2 + keyLength / 8, value);
      ValueWritten(items[s], w, key, value);
    }

    /** Takes the first free extra bucket and links it behind the last bucket of a chain. */
    method AllocExtraBucket(row: nat, ghost c: nat) returns (ok: bool)
      requires Valid() && c < numBuckets && row == Last(lists[c])
      modifies this`freeHead, this`lists, this`where, buckets
      ensures Valid()
      ensures ok <==> old(freeHead) != 0
      ensures !ok ==> unchanged(this) && buckets[..] == old(buckets[..])
      ensures ok ==> row < buckets.Length && buckets[row].next != 0
      ensures ok ==> var e := numBuckets - 1 + buckets[row].next;
                && e < buckets.Length && EmptyAt(buckets[..], e) && lists[c] == old(lists[c]) + [e]
    {
      hide SF.Pool.Valid, SF.Pool.Items, MovedList, Slotted, Keyed;
      ghost var bs, n := buckets[..], numBuckets;
      if freeHead == 0 {
        return false;
      }
      FreeTop(bs, freeHead, lists, where, n);
      ChainStep(bs, freeHead, lists, where, n, c, |lists[c]| - 1);
      PlacesApart(lists, where, n, c, |lists[c]| - 1, n, |lists[n]| - 1);
      var e := freeHead;
      var extra := numBuckets - 1 + e;
      freeHead := buckets[extra].next;
      buckets[extra] := buckets[extra].(next := 0);
      buckets[row] := buckets[row].(next := e);
      MovedPlaced(lists, where, n, n, c);
      AllocChained(bs, buckets[..], e, lists, where, n, c);
      ghost var where' := where[extra := Place(c, |lists[c]|)];
      SlottedMoved(bs, buckets[..], where, where', pool.Items(), slotOf, n);
      lists, where := MovedList(lists, n, c), where';
      return true;
    }

    /** Unlinks the empty last bucket of a chain, which follows `row`, and makes it the first free one. */
    method FreeExtraBucket(row: nat, ghost c: nat)
      requires Valid() && c < numBuckets && 2 <= |lists[c]| && row == lists[c][|lists[c]| - 2]
      requires EmptyAt(buckets[..], Last(lists[c]))
      modifies this`freeHead, this`lists, this`where, buckets
      ensures Valid()
      ensures |lists| == |old(lists)| && lists[c] == Init(old(lists[c]))
      ensures forall r | 0 <= r < buckets.Length :: buckets[r].items == old(buckets[r].items)
      ensures forall r | 0 <= r < buckets.Length && r != Last(old(lists[c])) :: where[r] == old(where[r])
    {
      hide SF.Pool.Valid, SF.Pool.Items, MovedList, Slotted, Keyed, Placed, Chained;
      ghost var bs, n := buckets[..], numBuckets;
      ChainEnd(bs, freeHead, lists, where, n, c);
      var e := buckets[row].next;
      var extra := numBuckets - 1 + e;
      buckets[row] := buckets[row].(next := 0);
      buckets[extra] := buckets[extra].(next := freeHead);
      MovedPlaced(lists, where, n, c, n);
      FreeChained(bs, buckets[..], freeHead, lists, where, n, c);
      ghost var where' := where[extra := Place(n, |lists[n]|)];
      SlottedMoved(bs, buckets[..], where, where', pool.Items(), slotOf, n);
      ListsMoved(lists, c, n);
      lists, where, freeHead := MovedList(lists, c, n), where', e;
    }

    /** Finds an empty slot in the chain of a bucket, linking one more extra bucket when all are taken. */
    method GetEmpty(b: nat) returns (ok: bool, row: nat, at: nat)
      requires Valid() && b < numBuckets
      modifies this`freeHead, this`lists, this`where, buckets
      ensures Valid()
      ensures ok <==> !old(ChainFull(buckets[..], lists, b) && freeHead == 0)
      ensures ok ==> row < buckets.Length && at < BUCKET_SIZE && |buckets[row].items| == BUCKET_SIZE
      ensures ok ==> buckets[row].items[at] == 0 && where[row].list == b
    {
      hide SF.Pool.Valid, SF.Pool.Items, Slotted, Keyed, Placed, Chained;
      ghost var bs, n := buckets[..], numBuckets;
      row := b;
      ghost var p := 0;
      ChainStart(lists, where, n, b);
      while true
        invariant b < |lists| && p < |lists[b]| && row == lists[b][p] && row < |bs| == |where| && where[row].list == b
        invariant Valid() && bs == buckets[..] && unchanged(this)
        invariant forall q | 0 <= q < p :: RowFull(bs, lists[b][q])
        decreases |lists[b]| - p
      {
        SlottedSizes(bs, where, pool.Items(), slotOf, n, row);
        at := 0;
        while at < BUCKET_SIZE
          invariant 0 <= at <= BUCKET_SIZE
          invariant forall a | 0 <= a < at :: bs[row].items[a] != 0
        {
          if buckets[row].items[at] == 0 {
            return true, row, at;
          }
          at := at + 1;
        }
        ChainStep(bs, freeHead, lists, where, n, b, p);
        if buckets[row].next == 0 {
          break;
        }
        row := numBuckets - 1 + buckets[row].next;
        p := p + 1;
        ChainStep(bs, freeHead, lists, where, n, b, p);
      }
      ok := AllocExtraBucket(row, b);
      if ok {
        at := 0;
        row := numBuckets - 1 + buckets[row].next;
        SlottedSizes(buckets[..], where, pool.Items(), slotOf, n, row);
        LastPlace(lists, where, n, b);
      }
    }

    /** Refills the hole of a deleted item with an item from the last bucket of the chain. */
    method FillHole(row: nat, at: nat, ghost c: nat)
      requires Valid() && c < numBuckets && row < buckets.Length && where[row].list == c && at < BUCKET_SIZE
      requires |buckets[row].items| == BUCKET_SIZE && buckets[row].items[at] == 0
      modifies this`freeHead, this`lists, this`where, this`slotOf, buckets
      ensures Valid()
      ensures |lists| == |old(lists)| && where[row] == old(where[row])
      ensures Refilled(old(buckets[..]), buckets[..], Slot(row, at), old(lists[c]), lists[c])
    {
      hide SF.Pool.Valid, SF.Pool.Items, Slotted, Keyed, Placed, Chained, Refilled;
      ghost var n, items, bs0, l0 := numBuckets, pool.Items(), buckets[..], lists[c];
      ChainDistinct(lists, where, n, c);
      while true
        invariant Valid() && items == pool.Items()
        invariant |lists| == |old(lists)| && where[row] == old(where[row])
        invariant |buckets[row].items| == BUCKET_SIZE && buckets[row].items[at] == 0
        invariant Shortened(bs0, buckets[..], l0, lists[c])
        decreases |lists[c]|
      {
        ghost var bs, l, w := buckets[..], lists[c], where;
        InChain(lists, where, n, c, row);
        ghost var p := where[row].at;
        ChainStep(bs, freeHead, lists, where, n, c, p);
        if buckets[row].next == 0 {
          NotRefilled(bs0, bs, Slot(row, at), l0, l);
          return;
        }
        var prev, cur := row, numBuckets - 1 + buckets[row].next;
        p := p + 1;
        while true
          invariant Valid() && bs == buckets[..] && l == lists[c] && w == where && items == pool.Items()
          invariant where[row].at < p < |l| && cur == l[p] && prev == l[p - 1]
          decreases |l| - p
        {
          ChainStep(bs, freeHead, lists, where, n, c, p);
          if buckets[cur].next == 0 {
            break;
          }
          prev, cur := cur, numBuckets - 1 + buckets[cur].next;
          p := p + 1;
        }
        ChainStep(bs, freeHead, lists, where, n, c, p);
        PlacesApart(lists, where, n, c, where[row].at, c, p);
        SlottedSizes(bs, where, items, slotOf, n, cur);
        var lastItem, moved := true, BUCKET_SIZE;
        ghost var other := 0;
        for i := 0 to BUCKET_SIZE
          invariant moved == BUCKET_SIZE || 0 <= moved < i
          invariant moved == BUCKET_SIZE ==> lastItem && forall j | 0 <= j < i :: bs[cur].items[j] == 0
          invariant moved < i ==> bs[cur].items[moved] != 0
          invariant moved < i && lastItem ==> forall j | 0 <= j < i && j != moved :: bs[cur].items[j] == 0
        {
          if buckets[cur].items[i] != 0 {
            if moved == BUCKET_SIZE {
              moved := i;
            } else {
              lastItem := false;
              other := i;
              break;
            }
          }
        }
        if moved == BUCKET_SIZE {
          FreeExtraBucket(prev, c);
          continue;
        }
        MoveItem(row, at, cur, moved, c);
        EmptiedIff(bs, buckets[..], Slot(row, at), cur, moved, other, lastItem);
        if lastItem {
          FreeExtraBucket(prev, c);
        }
        IsRefilled(bs0, bs, buckets[..], Slot(row, at), moved, l0, l, lists[c]);
        return;
      }
    }

    /** Moves an item word into an empty slot of the same chain. */
    method MoveItem(row: nat, at: nat, cur: nat, moved: nat, ghost c: nat)
      requires Valid() && c < numBuckets && row < buckets.Length && cur < buckets.Length && row != cur
      requires where[row].list == c && where[cur].list == c && at < BUCKET_SIZE && moved < BUCKET_SIZE
      requires |buckets[row].items| == |buckets[cur].items| == BUCKET_SIZE
      requires buckets[row].items[at] == 0 && buckets[cur].items[moved] != 0
      modifies this`slotOf, buckets
      ensures Valid()
      ensures buckets[..] ==
                WithSlot(WithSlot(old(buckets[..]), cur, moved, 0), row, at, old(buckets[cur].items[moved]))
    {
      hide SF.Pool.Valid, SF.Pool.Items, Slotted, Keyed, Placed, Chained;
      ghost var bs, n, items := buckets[..], numBuckets, pool.Items();
      ghost var s := SlotTarget(bs, where, items, slotOf, n, cur, moved);
      SlotShifted(bs, where, items, slotOf, n, s, row, at);
      SlotChained(bs, freeHead, lists, where, n, cur, moved, 0);
      SlotChained(WithSlot(bs, cur, moved, 0), freeHead, lists, where, n, row, at, bs[cur].items[moved]);
      buckets[row] := buckets[row].(items := buckets[row].items[at := buckets[cur].items[moved]]);
      buckets[cur] := buckets[cur].(items := buckets[cur].items[moved := 0]);
      assert buckets[..] == WithSlot(WithSlot(bs, cur, moved, 0), row, at, bs[cur].items[moved]);
      slotOf := slotOf[s := Slot(row, at)];
    }

    /** The stored size of a key's item. */
    ghost function StoredSize(key: Key): nat
      requires Filled()
      reads this, buckets, pool, pool.data, pool.freeHead
    {
      if key in ref then pool.Items()[ref[key]].size else 0
    }

    /** The chain of the key's bucket is full and no extra bucket is free. */
    ghost predicate NoSlot(key: Key)
      requires 0 < numBuckets
      reads this, buckets
    {
      ChainFull(buckets[..], lists, CalcBucket(key.hash, numBuckets)) && freeHead == 0
    }

    /** The pool has a run of free words for the item: two tags and a size word around two words of header, the key and
        the value. */
    ghost predicate RoomFor(key: Key, value: Value)
      reads this, pool, pool.data
    {
      SF.HasFreeRun(pool.chunks, pool.data.Length, 5 + |key.words| + |value|)
    }

    /** Inserts or overwrites a key, or reports why it did not. */
    method Set(key: Key, value: Value, overwrite: bool) returns (result: Result)
      requires Valid() && |key.words| <= MAX_KEY_WORDS && |value| <= MAX_VALUE_WORDS
      modifies this, buckets, pool, pool.data, pool.freeHead
      ensures Valid()
      ensures result == SetResult(old(Contents()), key, overwrite, old(StoredSize(key)) >= ItemSize(key, value),
                                  old(NoSlot(key)), old(RoomFor(key, value)))
      ensures Contents() == if result.Success? then old(Contents())[key := value] else old(Contents())
      ensures key !in old(Contents()) && old(RoomFor(key, value)) && result.InsufficientSpace? ==>
                var c := key.hash / TWO_16 % TWO_32 % numBuckets;
                && c < |old(lists)| && old(ChainFull(buckets[..], lists, c))
                && BUCKET_SIZE * old(|lists[c]|)
                   <= |set k | k in old(Contents()) && k.hash / TWO_16 % TWO_32 % numBuckets == c|
    {
      hide SF.Pool.Valid, SF.Pool.Items, Slotted, Keyed, Placed, Chained, KeyOf, ValueOf, Formed, CalcBucket, CalcTag,
           ChainFull, SF.HasFreeRun, ContentsOf, MakeItemVec, GetOffset;
      BucketIs(key.hash, numBuckets);
      if NoSlot(key) {
        FullChainIsCrowded(buckets[..], lists, where, pool.Items(), slotOf, ref, numBuckets,
                           CalcBucket(key.hash, numBuckets));
      }
      ghost var items, n := pool.Items(), numBuckets;
      ContentsKeys(items, ref);
      var found, row, at := FindItem(key);
      if found {
        if !overwrite {
          return Exists;
        }
      } else {
        var ok;
        ok, row, at := GetEmpty(CalcBucket(key.hash, numBuckets));
        if !ok {
          return InsufficientSpace;
        }
      }
      var offset := 0;
      if found {
        SlotOfKey(buckets[..], where, items, slotOf, ref, n, key);
        SlottedSizes(buckets[..], where, items, slotOf, n, row);
        offset := GetOffset(buckets[row].items[at]);
        var oldSize := pool.GetItemSize(offset);
        if oldSize >= ItemSize(key, value) {
          pool.Roomy(ref[key]);
          KeyedKey(items, ref, key);
          SetItemValue(offset, key, value);
          Overwritten(buckets[..], where, items, slotOf, ref, n, key, pool.Items()[ref[key]]);
          return Success;
        }
      }
      result := StoreItem(key, value, found, row, at);
    }

    /** Writes a new item, points a slot at it and releases the item it replaces. */
    method StoreItem(key: Key, value: Value, overwriting: bool, row: nat, at: nat) returns (result: Result)
      requires Valid() && |key.words| <= MAX_KEY_WORDS && |value| <= MAX_VALUE_WORDS
      requires row < buckets.Length && at < BUCKET_SIZE && |buckets[row].items| == BUCKET_SIZE
      requires overwriting <==> key in ref
      requires overwriting ==> ref[key] in slotOf && slotOf[ref[key]] == Slot(row, at)
      requires !overwriting ==> buckets[row].items[at] == 0 && where[row].list == CalcBucket(key.hash, numBuckets)
      modifies this, buckets, pool, pool.data, pool.freeHead
      ensures Valid()
      ensures result == if old(RoomFor(key, value)) then Success else InsufficientSpace
      ensures Contents() == if result.Success? then old(Contents())[key := value] else old(Contents())
    {
      hide SF.Pool.Valid, SF.Pool.Items, Slotted, Keyed, Placed, Chained, KeyOf, ValueOf, Formed, CalcBucket, CalcTag,
           SF.HasFreeRun, ContentsOf, MakeItemVec, GetOffset, WithSlot, ItemSize;
      ItemWords(key, value);
      ghost var items, n, bs := pool.Items(), numBuckets, buckets[..];
      var newOffset := pool.Allocate(ItemSize(key, value));
      if newOffset == SF.INSUFFICIENT_SPACE {
        return InsufficientSpace;
      }
      ghost var s := newOffset / 8 - 1;
      pool.Roomy(s);
      SetItem(newOffset, key, value);
      ghost var st := pool.Items()[s];
      assert pool.Items() == items[s := st];
      var offset := GetOffset(buckets[row].items[at]);
      buckets[row] := buckets[row].(items := buckets[row].items[at := MakeItemVec(CalcTag(key.hash), newOffset)]);
      assert buckets[..] == WithSlot(bs, row, at, MakeItemVec(CalcTag(key.hash), 8 * (s + 1))) by {
        IsWithSlot(bs, buckets[..], row, at, MakeItemVec(CalcTag(key.hash), newOffset));
      }
      if overwriting {
        SlotOfKey(bs, where, items, slotOf, ref, n, key);
        SlotChained(bs, freeHead, lists, where, n, row, at, MakeItemVec(CalcTag(key.hash), newOffset));
        pool.Release(offset);
        assert pool.Items() == items[s := st] - {ref[key]};
        Relocated(bs, where, items, slotOf, ref, n, key, s, st);
        slotOf := slotOf[s := Slot(row, at)] - {ref[key]};
      } else {
        SlotChained(bs, freeHead, lists, where, n, row, at, MakeItemVec(CalcTag(key.hash), newOffset));
        Stored(bs, where, items, slotOf, ref, n, key, s, st, row, at);
        slotOf := slotOf[s := Slot(row, at)];
      }
      ref := ref[key := s];
      return Success;
    }

    /** Copies the value of a key, or as much of it as the buffer takes, to the front of the buffer. */
    method Get(key: Key, outValue: array<U64>, inLength: nat) returns (result: Result, outLength: nat)
      requires Valid() && |key.words| <= MAX_KEY_WORDS
      requires inLength % 8 == 0 && inLength <= 8 * outValue.Length
      requires outValue != pool.data && outValue != pool.freeHead
      modifies outValue
      ensures key !in old(Contents()) ==> result == NotFound && outLength == 0 && outValue[..] == old(outValue[..])
      ensures key in old(Contents()) ==>
                Delivered(old(Contents())[key], inLength, result, outLength, old(outValue[..]), outValue[..])
    {
      hide SF.Pool.Valid, SF.Pool.Items, Slotted, Keyed, Placed, Chained, CalcBucket, CalcTag, ContentsOf, GetOffset,
        KeyOf;
      ghost var items := pool.Items();
      ContentsKeys(items, ref);
      var found, row, at := FindItem(key);
      if !found {
        return NotFound, 0;
      }
      hide Delivered;
      SlotOfKey(buckets[..], where, items, slotOf, ref, numBuckets, key);
      SlottedSizes(buckets[..], where, items, slotOf, numBuckets, row);
      ContentsValue(items, ref, key);
      result, outLength := CopyValue(GetOffset(buckets[row].items[at]), key, outValue, inLength);
    }

    /** Copies the value of an item, or as much of it as the buffer takes. */
    method CopyValue(offset: nat, key: Key, outValue: array<U64>, inLength: nat)
      returns (result: Result, outLength: nat)
      requires pool.Valid() && offset % 8 == 0 && 8 <= offset && offset / 8 - 1 in pool.Items()
      requires Formed(pool.Items()[offset / 8 - 1]) && KeyOf(pool.Items()[offset / 8 - 1]) == key
      requires inLength % 8 == 0 && inLength <= 8 * outValue.Length
      requires outValue != pool.data && outValue != pool.freeHead
      modifies outValue
      ensures Delivered(ValueOf(pool.Items()[offset / 8 - 1]), inLength, result, outLength, old(outValue[..]),
                        outValue[..])
    {
      hide SF.Pool.Valid, SF.Pool.Items, Delivered, ValueOf;
      ghost var st, before := pool.Items()[offset / 8 - 1], outValue[..];
      var lengths := pool.ReadWord(offset, 0);
      var valueLength := lengths % TWO_24;
      outLength := Min(valueLength, inLength);
      KeyWords(st, key);
      CopyOut(offset, 2 + |key.words|, outValue, outLength / 8);
      result := if valueLength == outLength then Success else PartialValue;
      IsDelivered(st, key, inLength, result, outLength, before, outValue[..]);
    }

    /** Copies n words of an item, from position `from`, to the front of a buffer. */
    method CopyOut(offset: nat, from: nat, out: array<U64>, n: nat)
      requires pool.Valid() && offset % 8 == 0 && 8 <= offset && offset / 8 - 1 in pool.Items()
      requires n <= out.Length && from + n <= |pool.Items()[offset / 8 - 1].words|
      requires out != pool.data && out != pool.freeHead
      modifies out
      ensures out[..n] == pool.Items()[offset / 8 - 1].words[from..from + n]
      ensures out[n..] == old(out[n..])
    {
      hide SF.Pool.Valid, SF.Pool.Items;
      ghost var items, s := pool.Items(), offset / 8 - 1;
      for j := 0 to n
        invariant pool.Valid() && pool.Items() == items
        invariant forall i | 0 <= i < j :: out[i] == items[s].words[from + i]
        invariant forall i | n <= i < out.Length :: out[i] == old(out[i])
      {
        var w := pool.ReadWord(offset, from + j);
        out[j] := w;
      }
    }

    /** Whether a key is stored. */
    method Test(key: Key) returns (result: Result)
      requires Valid() && |key.words| <= MAX_KEY_WORDS
      ensures result == if key in Contents() then Success else NotFound
    {
      hide SF.Pool.Valid, SF.Pool.Items, Slotted, Keyed, Placed, Chained, ContentsOf;
      ContentsKeys(pool.Items(), ref);
      var found, _, _ := FindItem(key);
      return if found then Success else NotFound;
    }

    /** Removes a key, gives its item back to the pool and refills the hole from the last bucket of the chain. */
    method Del(key: Key) returns (result: Result)
      requires Valid() && |key.words| <= MAX_KEY_WORDS
      modifies this, buckets, pool, pool.data, pool.freeHead
      ensures Valid()
      ensures result == if key in old(Contents()) then Success else NotFound
      ensures Contents() == old(Contents()) - {key}
      ensures result == Success ==>
                key in old(ref) && old(ref)[key] in old(slotOf)
                && var hole, c := old(slotOf)[old(ref)[key]], CalcBucket(key.hash, numBuckets);
                   && hole.row < |old(buckets[..])| && hole.at < |old(buckets[..])[hole.row].items|
                   && c < |old(lists)| == |lists|
                   && Refilled(WithSlot(old(buckets[..]), hole.row, hole.at, 0), buckets[..], hole, old(lists)[c],
                               lists[c])
    {
      hide SF.Pool.Valid, SF.Pool.Items, Slotted, Keyed, Placed, Chained, CalcBucket, CalcTag, ContentsOf, GetOffset,
        WithSlot,
           Refilled;
      ghost var items, bs, n := pool.Items(), buckets[..], numBuckets;
      ContentsKeys(items, ref);
      var found, row, at := FindItem(key);
      if !found {
        return NotFound;
      }
      SlotOfKey(bs, where, items, slotOf, ref, n, key);
      SlottedSizes(bs, where, items, slotOf, n, row);
      pool.Release(GetOffset(buckets[row].items[at]));
      buckets[row] := buckets[row].(items := buckets[row].items[at := 0]);
      IsWithSlot(bs, buckets[..], row, at, 0);
      SlotEmptied(bs, where, items, slotOf, n, ref[key]);
      SlotChained(bs, freeHead, lists, where, n, row, at, 0);
      KeyDropped(items, ref, key);
      slotOf, ref := slotOf - {ref[key]}, ref - {key};
      FillHole(row, at, where[row].list);
      return Success;
    }

    /** Adds to a stored 64-bit value, modulo 2^64. */
    method Increment(key: Key, increment: U64) returns (result: Result, newValue: U64)
      requires Valid() && |key.words| <= MAX_KEY_WORDS
      modifies this, pool.data
      ensures Valid()
      ensures key !in old(Contents()) ==> result == NotFound && Contents() == old(Contents())
      ensures key in old(Contents()) && |old(Contents())[key]| != 1 ==> result == Error && Contents() == old(Contents())
      ensures key in old(Contents()) && |old(Contents())[key]| == 1 ==>
                && result == Success && newValue == (old(Contents())[key][0] + increment) % TWO_64
                && Contents() == old(Contents())[key := [newValue]]
    {
      hide SF.Pool.Valid, SF.Pool.Items, Slotted, Keyed, Placed, Chained, CalcBucket, CalcTag, ContentsOf, GetOffset,
        KeyOf;
      ghost var items, bs, n := pool.Items(), buckets[..], numBuckets;
      ContentsKeys(items, ref);
      var found, row, at := FindItem(key);
      if !found {
        return NotFound, 0;
      }
      SlotOfKey(bs, where, items, slotOf, ref, n, key);
      SlottedSizes(bs, where, items, slotOf, n, row);
      ContentsValue(items, ref, key);
      ghost var st := items[ref[key]];
      var offset := GetOffset(buckets[row].items[at]);
      var lengths := pool.ReadWord(offset, 0);
      if lengths % TWO_24 != 8 {
        return Error, 0;
      }
      var oldValue := pool.ReadWord(offset, 2 + |key.words|);
      newValue := (oldValue + increment) % TWO_64;
      pool.WriteWord(offset, 2 + |key.words|, newValue);
      ghost var st' := SF.Stored(st.size, st.words[2 + |key.words| := newValue]);
      Incremented(st, key, newValue);
      Overwritten(bs, where, items, slotOf, ref, n, key, st');
      return Success, newValue;
    }

    /** Releases the items of the main buckets, zeroes every bucket and resets the pool. */
    method Reset()
      requires Valid()
      modifies this, buckets, pool, pool.data, pool.freeHead
      ensures Valid() && Contents() == map[]
      ensures |lists| == numBuckets + 1 && |lists[numBuckets]| == buckets.Length - numBuckets
    {
      hide SF.Pool.Valid, SF.Pool.Items, Slotted, Keyed, Placed, Chained, GetOffset;
      ReleaseMainItems();
      for r := 0 to buckets.Length
        invariant pool.Valid() && 0 < numBuckets <= buckets.Length < TWO_32
        invariant forall q | 0 <= q < r :: buckets[q] == Bucket(0, seq(BUCKET_SIZE, _ => 0))
      {
        buckets[r] := Bucket(0, seq(BUCKET_SIZE, _ => 0));
      }
      InitExtraBuckets();
      pool.Reset();
      slotOf, ref := map[], map[];
      NothingStored(buckets[..], where, numBuckets);
    }

    /** Gives every item that a main bucket points at back to the pool. */
    method ReleaseMainItems()
      requires Valid()
      modifies pool, pool.data, pool.freeHead
      ensures pool.Valid() && 0 < numBuckets <= buckets.Length < TWO_32
      ensures Unreleased(pool.Items(), old(pool.Items()), slotOf, numBuckets, 0)
    {
      hide SF.Pool.Valid, SF.Pool.Items, Slotted, Keyed, Chained, GetOffset, Unreleased;
      ghost var items, bs := pool.Items(), buckets[..];
      NoneReleased(bs, where, items, slotOf, numBuckets);
      for r := 0 to numBuckets
        invariant pool.Valid() && Unreleased(pool.Items(), items, slotOf, r, 0)
      {
        SlottedSizes(bs, where, items, slotOf, numBuckets, r);
        for i := 0 to BUCKET_SIZE
          invariant pool.Valid() && Unreleased(pool.Items(), items, slotOf, r, i)
        {
          var vec := buckets[r].items[i];
          ghost var s := PassedSlot(bs, where, items, slotOf, numBuckets, r, i, pool.Items());
          if vec != 0 {
            pool.Release(GetOffset(vec));
          }
        }
        PassedRow(bs, where, items, slotOf, numBuckets, r, pool.Items());
      }
    }

    /** Runs a list of requests, one after the other. */
    method Run(ops: seq<Op>) returns (outs: seq<Out>, ghost maps: seq<map<Key, Value>>)
      requires Valid() && forall i | 0 <= i < |ops| :: OpOk(ops[i])
      modifies this, buckets, pool, pool.data, pool.freeHead
      ensures Valid() && |outs| == |ops| && |maps| == |ops| + 1
      ensures maps[0] == old(Contents()) && maps[|ops|] == Contents()
      ensures forall i | 0 <= i < |ops| :: MapStep(maps[i], ops[i], outs[i], maps[i + 1])
    {
      hide SF.Pool.Valid, SF.Pool.Items, Slotted, Keyed, Placed, Chained, ContentsOf, MapStep;
      outs, maps := [], [Contents()];
      for i := 0 to |ops|
        invariant Valid() && |outs| == i && |maps| == i + 1
        invariant maps[0] == old(Contents()) && maps[i] == Contents()
        invariant forall j | 0 <= j < i :: MapStep(maps[j], ops[j], outs[j], maps[j + 1])
      {
        var out := RunOne(ops[i]);
        outs, maps := outs + [out], maps + [Contents()];
      }
    }

    method RunOne(op: Op) returns (out: Out)
      requires Valid() && OpOk(op)
      modifies this, buckets, pool, pool.data, pool.freeHead
      ensures Valid() && MapStep(old(Contents()), op, out, Contents())
    {
      hide SF.Pool.Valid, SF.Pool.Items, Slotted, Keyed, Placed, Chained, ContentsOf, NoSlot, RoomFor, StoredSize;
      match op
      case OpSet(key, value, overwrite) =>
        var result := Set(key, value, overwrite);
        out := Out(result, []);
      case OpGet(key, inLength) =>
        var buffer := new U64[inLength / 8](_ => 0);
        var result, outLength := Get(key, buffer, inLength);
        out := Out(result, buffer[..if outLength / 8 <= buffer.Length then outLength / 8 else 0]);
      case OpTest(key) =>
        var result := Test(key);
        out := Out(result, []);
      case OpDel(key) =>
        var result := Del(key);
        out := Out(result, []);
      case OpIncrement(key, increment) =>
        var result, newValue := Increment(key, increment);
        out := Out(result, if result.Success? then [newValue] else []);
      case OpReset =>
        Reset();
        out := Out(Success, []);
    }
  }

  datatype Op =
    | OpSet(key: Key, value: Value, overwrite: bool)
    | OpGet(key: Key, inLength: nat)
    | OpTest(key: Key)
    | OpDel(key: Key)
    | OpIncrement(key: Key, increment: U64)
    | OpReset

  datatype Out = Out(result: Result, value: Value)

  predicate OpOk(op: Op) {
    && (!op.OpReset? ==> |op.key.words| <= MAX_KEY_WORDS)
    && (op.OpSet? ==> |op.value| <= MAX_VALUE_WORDS)
    && (op.OpGet? ==> op.inLength % 8 == 0)
  }

  /** What a key-to-value map answers to a request, except that a set may also run out of space. */
  ghost predicate MapStep(m: map<Key, Value>, op: Op, out: Out, m': map<Key, Value>) {
    match op
    case OpSet(key, value, overwrite) =>
      if key in m && !overwrite then out.result == Exists && m' == m
      else (out.result == Success && m' == m[key := value]) || (out.result == InsufficientSpace && m' == m)
    case OpGet(key, inLength) =>
      && m' == m
      && if key !in m then out.result == NotFound && |out.value| == 0
         else
           && out.value == m[key][..Min(|m[key]|, inLength / 8)]
           && out.result == if |m[key]| <= inLength / 8 then Success else PartialValue
    case OpTest(key) =>
      m' == m && out.result == if key in m then Success else NotFound
    case OpDel(key) =>
      m' == m - {key} && out.result == if key in m then Success else NotFound
    case OpIncrement(key, increment) =>
      if key !in m then out.result == NotFound && m' == m
      else if |m[key]| != 1 then out.result == Error && m' == m
      else out == Out(Success, [(m[key][0] + increment) % TWO_64]) && m' == m[key := out.value]
    case OpReset =>
      m' == map[]
  }

  /** Slot order: row by row. */
  ghost predicate Before(slot: Slot, r: nat, i: nat) {
    slot.row < r || (slot.row == r && slot.at < i)
  }

  /** Of the items that slots hold, those from a slot on are left. */
  ghost predicate Unreleased(now: Items, items: Items, slotOf: map<nat, Slot>, r: nat, i: nat) {
    forall s :: s in now <==> s in items && s in slotOf && !Before(slotOf[s], r, i)
  }

  lemma NoneReleased(bs: seq<Bucket>, where: seq<Place>, items: Items, slotOf: map<nat, Slot>, nb: nat)
    requires Slotted(bs, where, items, slotOf, nb)
    ensures Unreleased(items, items, slotOf, 0, 0)
  {
  }

  lemma PassedSlot(bs: seq<Bucket>, where: seq<Place>, items: Items, slotOf: map<nat, Slot>, nb: nat, r: nat, i: nat,
                   now: Items) returns (s: nat)
    requires Slotted(bs, where, items, slotOf, nb) && r < |bs| && i < BUCKET_SIZE
             && Unreleased(now, items, slotOf, r, i)
    ensures if bs[r].items[i] == 0 then Unreleased(now, items, slotOf, r, i + 1)
            else s in now && GetOffset(bs[r].items[i]) == 8 * (s + 1) && Unreleased(now - {s}, items, slotOf, r, i + 1)
  {
    hide CalcBucket, CalcTag, MakeItemVec, GetTag, GetOffset;
    s := 0;
    if bs[r].items[i] != 0 {
      s := SlotTarget(bs, where, items, slotOf, nb, r, i);
    }
    forall t | t in items && t in slotOf
      ensures Before(slotOf[t], r, i + 1) <==> Before(slotOf[t], r, i) || (bs[r].items[i] != 0 && t == s)
    {
      assert HeldIn(bs, where, items[t], t, slotOf[t], nb);
      VecRoundTrip(CalcTag(items[t].words[1]), 8 * (t + 1));
    }
  }

  lemma PassedRow(bs: seq<Bucket>, where: seq<Place>, items: Items, slotOf: map<nat, Slot>, nb: nat, r: nat, now: Items)
    requires Slotted(bs, where, items, slotOf, nb) && Unreleased(now, items, slotOf, r, BUCKET_SIZE)
    ensures Unreleased(now, items, slotOf, r + 1, 0)
  {
    hide CalcBucket, CalcTag, MakeItemVec, GetTag, GetOffset;
    forall s | s in items && s in slotOf
      ensures slotOf[s].at < BUCKET_SIZE
    {
      assert HeldIn(bs, where, items[s], s, slotOf[s], nb);
    }
  }

  lemma ItemWords(key: Key, value: Value)
    ensures (ItemSize(key, value) + 7) / 8 + 3 == 5 + |key.words| + |value|
    ensures ItemSize(key, value) == 16 + 8 * |key.words| + 8 * |value|
  {
  }

  lemma NothingStored(bs: seq<Bucket>, where: seq<Place>, nb: nat)
    requires 0 < nb && |bs| == |where| && forall r | 0 <= r < |bs| :: bs[r].items == seq(BUCKET_SIZE, _ => 0)
    ensures Slotted(bs, where, map[], map[], nb) && Keyed(map[], map[]) && ContentsOf(map[], map[]) == map[]
  {
  }

  lemma IsDelivered(st: SF.Stored, key: Key, inLength: nat, result: Result, outLength: nat, before: seq<U64>,
                    after: seq<U64>)
    requires Formed(st) && KeyOf(st) == key && outLength == Min(ValueLength(st), inLength)
    requires inLength % 8 == 0 && inLength <= 8 * |before| && |before| == |after|
    requires result == if ValueLength(st) == outLength then Success else PartialValue
    requires var n := outLength / 8;
             after[..n] == st.words[2 + |key.words|..2 + |key.words| + n] && after[n..] == before[n..]
    ensures Delivered(ValueOf(st), inLength, result, outLength, before, after)
  {
    var n := outLength / 8;
    assert ValueOf(st)[..n] == st.words[2 + |key.words|..2 + |key.words| + n];
  }

  lemma Incremented(st: SF.Stored, key: Key, v: U64)
    requires Formed(st) && KeyOf(st) == key && |ValueOf(st)| == 1
    ensures var st' := SF.Stored(st.size, st.words[2 + |key.words| := v]);
            Formed(st') && KeyOf(st') == key && ValueOf(st') == [v]
  {
  }

  lemma ContentsValue(items: Items, ref: map<Key, nat>, key: Key)
    requires Keyed(items, ref) && key in ref
    ensures key in ContentsOf(items, ref) && ref[key] in items && Formed(items[ref[key]])
    ensures KeyOf(items[ref[key]]) == key && KeyLength(items[ref[key]]) == 8 * |key.words|
    ensures ContentsOf(items, ref)[key] == ValueOf(items[ref[key]])
  {
  }

  lemma IsWithSlot(bs: seq<Bucket>, bs': seq<Bucket>, r: nat, i: nat, vec: U64)
    requires r < |bs| && i < |bs[r].items| && bs' == bs[r := bs[r].(items := bs[r].items[i := vec])]
    ensures bs' == WithSlot(bs, r, i, vec)
  {
  }

  lemma ContentsKeys(items: Items, ref: map<Key, nat>)
    requires Keyed(items, ref)
    ensures ContentsOf(items, ref).Keys == ref.Keys
  {
  }

  /** A new value in the item of a key. */
  lemma Overwritten(bs: seq<Bucket>, where: seq<Place>, items: Items, slotOf: map<nat, Slot>, ref: map<Key, nat>,
                    nb: nat, key: Key, st: SF.Stored)
    requires Slotted(bs, where, items, slotOf, nb) && Keyed(items, ref) && key in ref
    requires Formed(st) && KeyOf(st) == key
    ensures Slotted(bs, where, items[ref[key] := st], slotOf, nb) && Keyed(items[ref[key] := st], ref)
    ensures ContentsOf(items[ref[key] := st], ref) == ContentsOf(items, ref)[key := ValueOf(st)]
  {
    hide Slotted, ValueOf, ContentsOf;
    KeyedKey(items, ref, key);
    ValueReplaced(items, ref, ref[key], st);
    ItemReplaced(bs, where, items, slotOf, nb, ref[key], st);
  }

  /** A new item for a new key in an empty slot of its chain. */
  lemma Stored(bs: seq<Bucket>, where: seq<Place>, items: Items, slotOf: map<nat, Slot>, ref: map<Key, nat>,
               nb: nat, key: Key, s: nat, st: SF.Stored, r: nat, i: nat)
    requires Slotted(bs, where, items, slotOf, nb) && Keyed(items, ref) && key !in ref
    requires Formed(st) && KeyOf(st) == key && s !in items && 8 * (s + 1) < TWO_48
    requires r < |bs| == |where| && i < BUCKET_SIZE && |bs[r].items| == BUCKET_SIZE && bs[r].items[i] == 0
    requires where[r].list == CalcBucket(key.hash, nb)
    ensures Slotted(WithSlot(bs, r, i, MakeItemVec(CalcTag(key.hash), 8 * (s + 1))), where, items[s := st],
                    slotOf[s := Slot(r, i)], nb)
    ensures Keyed(items[s := st], ref[key := s])
    ensures ContentsOf(items[s := st], ref[key := s]) == ContentsOf(items, ref)[key := ValueOf(st)]
  {
    hide Slotted, Keyed, ValueOf, ContentsOf, CalcBucket, CalcTag, MakeItemVec;
    SlotFilled(bs, where, items, slotOf, nb, r, i, s, st);
    KeyAdded(items, ref, s, st);
  }

  /** A new item for an old key in the slot of the old item. */
  lemma Relocated(bs: seq<Bucket>, where: seq<Place>, items: Items, slotOf: map<nat, Slot>, ref: map<Key, nat>,
                  nb: nat, key: Key, s: nat, st: SF.Stored)
    requires Slotted(bs, where, items, slotOf, nb) && Keyed(items, ref) && key in ref
    requires Formed(st) && KeyOf(st) == key && s !in items && 8 * (s + 1) < TWO_48
    ensures ref[key] in slotOf && slotOf[ref[key]].row < |bs| == |where|
    ensures var s0 := ref[key];
            var slot := slotOf[s0];
            && slot.at < |bs[slot.row].items| && where[slot.row].list < nb
            && Slotted(WithSlot(bs, slot.row, slot.at, MakeItemVec(CalcTag(key.hash), 8 * (s + 1))), where,
                       items[s := st] - {s0}, slotOf[s := slot] - {s0}, nb)
            && Keyed(items[s := st] - {s0}, ref[key := s])
            && ContentsOf(items[s := st] - {s0}, ref[key := s]) == ContentsOf(items, ref)[key := ValueOf(st)]
  {
    hide Slotted, Keyed, ValueOf, ContentsOf, CalcBucket, CalcTag, MakeItemVec, Formed, KeyOf, GetTag, GetOffset;
    var s0 := ref[key];
    SlotOfKey(bs, where, items, slotOf, ref, nb, key);
    var slot := slotOf[s0];
    SlottedSizes(bs, where, items, slotOf, nb, slot.row);
    SlotEmptied(bs, where, items, slotOf, nb, s0);
    KeyDropped(items, ref, key);
    var bs1 := WithSlot(bs, slot.row, slot.at, 0);
    Stored(bs1, where, items - {s0}, slotOf - {s0}, ref - {key}, nb, key, s, st, slot.row, slot.at);
    assert (items - {s0})[s := st] == items[s := st] - {s0};
    assert (slotOf - {s0})[s := slot] == slotOf[s := slot] - {s0};
    assert (ref - {key})[key := s] == ref[key := s];
    assert bs[slot.row].items[slot.at := 0][slot.at := MakeItemVec(CalcTag(key.hash), 8 * (s + 1))]
        == bs[slot.row].items[slot.at := MakeItemVec(CalcTag(key.hash), 8 * (s + 1))];
    assert WithSlot(bs1, slot.row, slot.at, MakeItemVec(CalcTag(key.hash), 8 * (s + 1)))
        == WithSlot(bs, slot.row, slot.at, MakeItemVec(CalcTag(key.hash), 8 * (s + 1)));
    assert (ContentsOf(items, ref) - {key})[key := ValueOf(st)] == ContentsOf(items, ref)[key := ValueOf(st)];
  }

  /** The outcome of a set, by the facts that decide it. */
  function SetResult(m: map<Key, Value>, key: Key, overwrite: bool, fits: bool, noSlot: bool, freeRun: bool): Result {
    if key in m && !overwrite then Exists
    else if key in m && fits then Success
    else if key !in m && noSlot then InsufficientSpace
    else if freeRun then Success
    else InsufficientSpace
  }

  ghost predicate RowFull(bs: seq<Bucket>, r: nat) {
    r < |bs| && forall i | 0 <= i < |bs[r].items| :: bs[r].items[i] != 0
  }

  /** Every slot of the chain is taken. */
  ghost predicate ChainFull(bs: seq<Bucket>, lists: Lists, c: nat) {
    c < |lists| && forall p | 0 <= p < |lists[c]| :: RowFull(bs, lists[c][p])
  }

  /** The m-th slot of a chain, bucket after bucket. */
  ghost function ChainSlot(lists: Lists, c: nat, m: nat): Slot
    requires c < |lists| && m < BUCKET_SIZE * |lists[c]|
  {
    Slot(lists[c][m / BUCKET_SIZE], m % BUCKET_SIZE)
  }

  lemma SlotsDiffer(lists: Lists, where: seq<Place>, nb: nat, c: nat, j: nat, m: nat)
    requires Placed(lists, where, nb) && c < nb && j < m < BUCKET_SIZE * |lists[c]|
    ensures ChainSlot(lists, c, j) != ChainSlot(lists, c, m)
  {
    assert where[lists[c][j / BUCKET_SIZE]] == Place(c, j / BUCKET_SIZE);
    assert where[lists[c][m / BUCKET_SIZE]] == Place(c, m / BUCKET_SIZE);
  }

  lemma KeyOfSlot(bs: seq<Bucket>, lists: Lists, where: seq<Place>, items: Items, slotOf: map<nat, Slot>,
                  ref: map<Key, nat>, nb: nat, c: nat, m: nat)
    returns (k: Key)
    requires Placed(lists, where, nb) && Slotted(bs, where, items, slotOf, nb) && Keyed(items, ref)
    requires c < nb && ChainFull(bs, lists, c) && m < BUCKET_SIZE * |lists[c]|
    ensures k in ref && k.hash / TWO_16 % TWO_32 % nb == c
    ensures ref[k] in slotOf && slotOf[ref[k]] == ChainSlot(lists, c, m)
  {
    hide CalcTag, MakeItemVec, GetTag, GetOffset, Formed;
    var p, i := m / BUCKET_SIZE, m % BUCKET_SIZE;
    assert p < |lists[c]| && RowFull(bs, lists[c][p]) && where[lists[c][p]] == Place(c, p);
    var s := SlotTarget(bs, where, items, slotOf, nb, lists[c][p], i);
    assert KeyedAt(items[s], s, ref);
    k := KeyOf(items[s]);
    BucketIs(k.hash, nb);
  }

  /** The first n slots of a full chain hold n different keys whose hashes belong there. */
  lemma {:induction false} KeysOfChain(bs: seq<Bucket>, lists: Lists, where: seq<Place>, items: Items,
                                       slotOf: map<nat, Slot>, ref: map<Key, nat>, nb: nat, c: nat, n: nat)
    returns (ks: set<Key>)
    requires Placed(lists, where, nb) && Slotted(bs, where, items, slotOf, nb) && Keyed(items, ref)
    requires c < nb < |lists| && ChainFull(bs, lists, c) && n <= BUCKET_SIZE * |lists[c]|
    ensures |ks| == n
    ensures forall k | k in ks ::
              && k in ref && k.hash / TWO_16 % TWO_32 % nb == c && ref[k] in slotOf
              && exists m :: 0 <= m < n && slotOf[ref[k]] == ChainSlot(lists, c, m)
  {
    hide Placed, Slotted, Keyed, ChainFull, ChainSlot;
    if n == 0 {
      return {};
    }
    ks := KeysOfChain(bs, lists, where, items, slotOf, ref, nb, c, n - 1);
    var k := KeyOfSlot(bs, lists, where, items, slotOf, ref, nb, c, n - 1);
    forall l | l in ks
      ensures l != k
    {
      var j :| 0 <= j < n - 1 && slotOf[ref[l]] == ChainSlot(lists, c, j);
      SlotsDiffer(lists, where, nb, c, j, n - 1);
    }
    ks := ks + {k};
  }

  /** A full chain takes as many keys with hashes of its bucket as it has slots. */
  lemma FullChainIsCrowded(bs: seq<Bucket>, lists: Lists, where: seq<Place>, items: Items, slotOf: map<nat, Slot>,
                           ref: map<Key, nat>, nb: nat, c: nat)
    requires Placed(lists, where, nb) && Slotted(bs, where, items, slotOf, nb) && Keyed(items, ref)
    requires c < nb && ChainFull(bs, lists, c)
    ensures BUCKET_SIZE <= BUCKET_SIZE * |lists[c]|
                        <= |set k | k in ContentsOf(items, ref) && k.hash / TWO_16 % TWO_32 % nb == c|
  {
    var ks := KeysOfChain(bs, lists, where, items, slotOf, ref, nb, c, BUCKET_SIZE * |lists[c]|);
    var all := set k | k in ContentsOf(items, ref) && k.hash / TWO_16 % TWO_32 % nb == c;
    assert ks <= all;
    SubsetSize(ks, all);
  }

  lemma SubsetSize<T>(a: set<T>, b: set<T>)
    requires a <= b
    ensures |a| <= |b|
  {
    assert b == a + (b - a);
  }

  lemma LastPlace(lists: Lists, where: seq<Place>, nb: nat, c: nat)
    requires Placed(lists, where, nb) && c < nb
    ensures lists[c] != [] && Last(lists[c]) < |where| && where[Last(lists[c])].list == c
  {
    assert where[lists[c][|lists[c]| - 1]] == Place(c, |lists[c]| - 1);
  }

  /** The head of the free list names its top bucket. */
  lemma FreeTop(bs: seq<Bucket>, head: U32, lists: Lists, where: seq<Place>, nb: nat)
    requires Placed(lists, where, nb) && Chained(bs, head, lists, nb) && |bs| == |where| && head != 0
    ensures |lists| == nb + 1 && lists[nb] != [] && Last(lists[nb]) == nb - 1 + head < |bs|
    ensures EmptyAt(bs, Last(lists[nb])) && nb <= Last(lists[nb])
  {
    ExtraRow(lists, where, nb, nb, |lists[nb]| - 1);
    assert EmptyAt(bs, lists[nb][|lists[nb]| - 1]);
  }

  /** Item s exists and has room for the key and the value. */
  ghost predicate Room(items: Items, s: nat, key: Key, value: Value) {
    && |key.words| <= MAX_KEY_WORDS && |value| <= MAX_VALUE_WORDS
    && s in items && 2 + |key.words| + |value| <= |items[s].words|
  }

  /** Item s now holds the key and the value; nothing else changed. */
  ghost predicate ItemSet(items: Items, items': Items, s: nat, key: Key, value: Value) {
    && s in items && s in items' && items' == items[s := items'[s]] && items'[s].size == items[s].size
    && Formed(items'[s]) && KeyOf(items'[s]) == key && ValueOf(items'[s]) == value
  }

  /** A run of words written over another from position `at`. */
  ghost function Overlaid(words: seq<U64>, at: nat, run: seq<U64>): (r: seq<U64>)
    requires at + |run| <= |words|
    ensures |r| == |words|
  {
    words[..at] + run + words[at + |run|..]
  }

  lemma OverlaidStep(words: seq<U64>, at: nat, run: seq<U64>, j: nat)
    requires at + |run| <= |words| && j < |run|
    ensures Overlaid(words, at, run[..j])[at + j := run[j]] == Overlaid(words, at, run[..j + 1])
  {
  }

  lemma OverlaidNone(words: seq<U64>, at: nat)
    requires at <= |words|
    ensures Overlaid(words, at, []) == words
  {
  }

  lemma KeyWords(st: SF.Stored, key: Key)
    requires Formed(st) && KeyOf(st) == key
    ensures 8 * |key.words| == st.words[0] % TWO_32 / TWO_24
    ensures st.words[1] == key.hash && st.words[2..2 + |key.words|] == key.words
  {
  }

  lemma ItemWritten(st: SF.Stored, w: U64, key: Key, value: Value)
    requires |key.words| <= MAX_KEY_WORDS && |value| <= MAX_VALUE_WORDS && 2 + |key.words| + |value| <= |st.words|
    ensures var n := |key.words|;
            var r := st.words[0 := WithLengths(w, 8 * n, 8 * |value|)][1 := key.hash];
            var st' := SF.Stored(st.size, Overlaid(Overlaid(r, 2, key.words), 2 + n, value));
            Formed(st') && KeyOf(st') == key && ValueOf(st') == value
  {
    LengthsRoundTrip(w, 8 * |key.words|, 8 * |value|);
    var n := |key.words|;
    var r := st.words[0 := WithLengths(w, 8 * n, 8 * |value|)][1 := key.hash];
    var r' := Overlaid(Overlaid(r, 2, key.words), 2 + n, value);
    assert r'[0] == r[0] && r'[1] == key.hash && r'[2..2 + n] == key.words && r'[2 + n..2 + n + |value|] == value;
  }

  lemma ValueWritten(st: SF.Stored, w: U64, key: Key, value: Value)
    requires |key.words| <= MAX_KEY_WORDS && |value| <= MAX_VALUE_WORDS && 2 + |key.words| + |value| <= |st.words|
    requires st.words[1] == key.hash && st.words[2..2 + |key.words|] == key.words
    ensures var r := st.words[0 := WithLengths(w, 8 * |key.words|, 8 * |value|)];
            var st' := SF.Stored(st.size, Overlaid(r, 2 + |key.words|, value));
            Formed(st') && KeyOf(st') == key && ValueOf(st') == value
  {
    LengthsRoundTrip(w, 8 * |key.words|, 8 * |value|);
    var n := |key.words|;
    var r := st.words[0 := WithLengths(w, 8 * n, 8 * |value|)];
    var r' := Overlaid(r, 2 + n, value);
    assert r'[0] == r[0] && r'[1] == st.words[1];
    assert r'[2..2 + n] == st.words[2..2 + n];
    assert r'[2 + n..2 + n + |value|] == value;
  }

  /** One-bucket chains, and a free list with extra bucket 1 on top. */
  ghost function FreshLists(nb: nat, extra: nat): (r: Lists)
    ensures |r| == nb + 1 && |r[nb]| == extra
    ensures forall c | 0 <= c < nb :: r[c] == [c]
    ensures forall i | 0 <= i < extra :: r[nb][i] == nb + extra - 1 - i
  {
    seq(nb, c => [c]) + [seq(extra, i requires 0 <= i < extra => nb + extra - 1 - i)]
  }

  ghost function FreshWhere(nb: nat, extra: nat): (r: seq<Place>)
    ensures |r| == nb + extra
    ensures forall i | 0 <= i < |r| :: r[i] == if i < nb then Place(i, 0) else Place(nb, nb + extra - 1 - i)
  {
    seq(nb + extra, i requires 0 <= i < nb + extra => if i < nb then Place(i, 0) else Place(nb, nb + extra - 1 - i))
  }

  lemma FreshPlaced(nb: nat, extra: nat)
    requires nb + extra < TWO_32
    ensures Placed(FreshLists(nb, extra), FreshWhere(nb, extra), nb)
  {
    hide FreshLists, FreshWhere;
    var lists, where := FreshLists(nb, extra), FreshWhere(nb, extra);
    forall r | 0 <= r < |where|
      ensures PlacedAt(lists, where[r], r)
    {
    }
    forall c, i | 0 <= c <= nb && 0 <= i < |lists[c]|
      ensures lists[c][i] < |where| && where[lists[c][i]] == Place(c, i)
    {
    }
  }

  lemma FreshChained(bs: seq<Bucket>, head: U32, nb: nat, extra: nat)
    requires |bs| == nb + extra < TWO_32 && head == (if extra == 0 then 0 else 1)
    requires forall r | 0 <= r < |bs| :: bs[r].items == seq(BUCKET_SIZE, _ => 0)
    requires forall r | 0 <= r < |bs| :: bs[r].next == if r < nb || r == |bs| - 1 then 0 else r - nb + 2
    ensures Chained(bs, head, FreshLists(nb, extra), nb)
  {
    hide FreshLists;
  }

  lemma TagNonZero(vec: U64, tag: U16)
    requires GetTag(vec) == tag && tag != 0
    ensures vec != 0
  {
  }

  lemma KeyedItem(items: Items, ref: map<Key, nat>, s: nat)
    requires Keyed(items, ref) && s in items
    ensures Formed(items[s]) && KeyOf(items[s]) in ref && ref[KeyOf(items[s])] == s
  {
    assert KeyedAt(items[s], s, ref);
  }

  lemma KeyedKey(items: Items, ref: map<Key, nat>, k: Key)
    requires Keyed(items, ref) && k in ref
    ensures ref[k] in items && Formed(items[ref[k]]) && KeyOf(items[ref[k]]) == k
  {
  }

  lemma ChainStart(lists: Lists, where: seq<Place>, nb: nat, c: nat)
    requires Placed(lists, where, nb) && c < nb
    ensures |lists| == nb + 1 && lists[c] != [] && lists[c][0] == c < |where| && where[c] == Place(c, 0)
  {
    assert where[lists[c][0]] == Place(c, 0);
  }

  /** The next index of a chain bucket leads to the next bucket of the chain, or is zero at its end. */
  lemma ChainStep(bs: seq<Bucket>, head: U32, lists: Lists, where: seq<Place>, nb: nat, c: nat, p: nat)
    requires Placed(lists, where, nb) && Chained(bs, head, lists, nb) && |bs| == |where| && c < nb && p < |lists[c]|
    ensures lists[c][p] < |bs| && where[lists[c][p]] == Place(c, p)
    ensures bs[lists[c][p]].next == 0 <==> p + 1 == |lists[c]|
    ensures p + 1 < |lists[c]| ==> lists[c][p + 1] < |bs| && lists[c][p + 1] == nb - 1 + bs[lists[c][p]].next
  {
    assert NextAt(bs, lists, nb, c, p);
    if p + 1 < |lists[c]| {
      ExtraRow(lists, where, nb, c, p + 1);
    }
  }

  lemma InChain(lists: Lists, where: seq<Place>, nb: nat, c: nat, r: nat)
    requires Placed(lists, where, nb) && r < |where| && where[r].list == c <= nb
    ensures where[r].at < |lists[c]| && lists[c][where[r].at] == r
  {
    assert PlacedAt(lists, where[r], r);
  }
}
