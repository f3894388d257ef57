/**
 The boundary-tag allocator: 32 size-segregated, doubly linked free lists threaded through the free
 chunks themselves, splitting on allocation and two-sided coalescing on release.

 The arena is an array of 64-bit words; every address the allocator uses is 8-byte aligned, so a chunk is
 named by the index of its first word.  Tags keep sizes in bytes and links keep absolute addresses, as the
 stored words do.
 */
module SegregatedFit {
  import opened Words
  import opened Powers

  const NUM_CLASSES: int := 32
  const CLASS_INCREMENT: int := 8
  const MINIMUM_SIZE: int := 32
  const MAXIMUM_SIZE: int := TWO_40 - 1
  const OVERHEAD: int := 24
  const INSUFFICIENT_SPACE: U64 := TWO_64 - 1

  // ---------- Tags and size classes ----------

  /** Status bit above a 63-bit size; the two fields do not overlap, so `|` is `+`. */
  function MakeTag(size: nat, status: nat): (vec: U64)
    requires size < TWO_63 && status <= 1
  {
    size + status * TWO_63
  }

  function TagSize(vec: U64): nat {
    vec % TWO_63
  }

  function TagStatus(vec: U64): nat {
    vec / TWO_63
  }

  lemma TagRoundTrip(size: nat, status: nat)
    requires size < TWO_63 && status <= 1
    ensures TagSize(MakeTag(size, status)) == size && TagStatus(MakeTag(size, status)) == status
  {
  }

  function ClassRoundUp(size: nat): (c: nat)
    requires MINIMUM_SIZE <= size <= MAXIMUM_SIZE
    ensures c < NUM_CLASSES
  {
    if size <= MINIMUM_SIZE + (NUM_CLASSES - 1) * CLASS_INCREMENT
    then (size - MINIMUM_SIZE + CLASS_INCREMENT - 1) / CLASS_INCREMENT
    else NUM_CLASSES - 1
  }

  function ClassRoundDown(size: nat): (c: nat)
    requires MINIMUM_SIZE <= size <= MAXIMUM_SIZE
    ensures c < NUM_CLASSES
  {
    if size < MINIMUM_SIZE + NUM_CLASSES * CLASS_INCREMENT
    then (size - MINIMUM_SIZE) / CLASS_INCREMENT
    else NUM_CLASSES - 1
  }

  /** Class c keeps the sizes from 32 + 8 * c to before the next class, the last class all from there on; a search
      starts at the first class whose sizes are all large enough, or else at the last one. */
  lemma ClassesAreRanges(size: nat)
    requires MINIMUM_SIZE <= size <= MAXIMUM_SIZE
    ensures var c := ClassRoundDown(size); 32 + 8 * c <= size && (c < 31 ==> size < 32 + 8 * (c + 1))
    ensures var c := ClassRoundUp(size); (0 < c ==> 32 + 8 * (c - 1) < size) && (c < 31 ==> size <= 32 + 8 * c)
  {
  }

  /** Searching upward from the rounded-up class of a request misses no chunk that is large enough, and below
      the last class every chunk it meets is large enough. */
  lemma ClassesSeparateSizes(request: nat, chunk: nat)
    requires MINIMUM_SIZE <= request <= MAXIMUM_SIZE && MINIMUM_SIZE <= chunk <= MAXIMUM_SIZE
    requires request % 8 == 0
    ensures request <= chunk ==> ClassRoundUp(request) <= ClassRoundDown(chunk)
    ensures ClassRoundUp(request) <= ClassRoundDown(chunk) < NUM_CLASSES - 1 ==> request <= chunk
  {
  }

  // ---------- The tiling of the arena ----------

  /** `Held` marks a chunk that is, for the moment, neither live nor on a free list. */
  datatype Use = Free | Busy | Held

  datatype Chunk = Chunk(len: nat, use: Use)

  type Tiling = map<nat, Chunk>

  function End(ch: Tiling, s: nat): nat
    requires s in ch
  {
    s + ch[s].len
  }

  /** The chunks cover words 0..n without gap or overlap, each at least the minimum size. */
  ghost predicate Tiled(ch: Tiling, n: nat) {
    && 0 in ch
    && (forall s {:trigger End(ch, s)} | s in ch ::
          4 <= ch[s].len && End(ch, s) <= n && (End(ch, s) == n || End(ch, s) in ch))
    && (forall s, t {:trigger End(ch, s), t in ch} | s in ch && t in ch && s < t :: End(ch, s) <= t)
  }

  /** No two neighbouring chunks are both free. */
  ghost predicate Coalesced(ch: Tiling) {
    forall s {:trigger End(ch, s)} | s in ch && ch[s].use.Free? && End(ch, s) in ch :: !ch[End(ch, s)].use.Free?
  }

  ghost predicate Settled(ch: Tiling) {
    forall s | s in ch :: !ch[s].use.Held?
  }

  /** The live chunks of a tiling. */
  ghost function BusyPart(ch: Tiling): Tiling {
    map s | s in ch && ch[s].use.Busy? :: ch[s]
  }

  ghost predicate FreeWord(ch: Tiling, w: nat) {
    exists s :: s in ch && ch[s].use.Free? && s <= w < End(ch, s)
  }

  /** There are `len` consecutive words that all lie in free chunks. */
  ghost predicate HasFreeRun(ch: Tiling, n: nat, len: nat) {
    exists a: nat :: a + len <= n && FreeFrom(ch, a, len)
  }

  ghost predicate FreeFrom(ch: Tiling, a: nat, len: nat) {
    forall w: nat | a <= w < a + len :: FreeWord(ch, w)
  }

  /** Every word of the arena lies in exactly one chunk. */
  lemma {:induction false} WordInOneChunk(ch: Tiling, n: nat, w: nat) returns (s: nat)
    requires Tiled(ch, n) && w < n
    ensures s in ch && s <= w < End(ch, s)
    ensures forall t | t in ch && t <= w < End(ch, t) :: t == s
  {
    s := 0;
    while End(ch, s) <= w
      invariant s in ch && s <= w
      decreases w - s
    {
      s := End(ch, s);
    }
  }

  /** Every chunk but the first has a left neighbour that ends where it starts. */
  lemma LeftNeighbour(ch: Tiling, n: nat, t: nat) returns (s: nat)
    requires Tiled(ch, n) && t in ch && t != 0
    ensures s in ch && End(ch, s) == t
  {
    var e := End(ch, t);
    s := WordInOneChunk(ch, n, t - 1);
  }

  /** A run of free words lies inside one free chunk, because free neighbours have been merged. */
  lemma {:induction false} FreeRunInOneChunk(ch: Tiling, n: nat, a: nat, len: nat) returns (s: nat)
    requires Tiled(ch, n) && Coalesced(ch)
    requires 1 <= len && a + len <= n && FreeFrom(ch, a, len)
    ensures s in ch && ch[s].use.Free? && s <= a && a + len <= End(ch, s)
  {
    assert FreeWord(ch, a);
    s :| s in ch && ch[s].use.Free? && s <= a < End(ch, s);
    BusyAfterFree(ch, n, s);
  }

  /** The word behind a free chunk is not free. */
  lemma BusyAfterFree(ch: Tiling, n: nat, s: nat)
    requires Tiled(ch, n) && Coalesced(ch) && s in ch && ch[s].use.Free?
    ensures !FreeWord(ch, End(ch, s))
  {
    forall t | t in ch && t <= End(ch, s) < End(ch, t)
      ensures !ch[t].use.Free?
    {
    }
  }

  lemma FreeRunIffFreeChunk(ch: Tiling, n: nat, len: nat)
    requires Tiled(ch, n) && Coalesced(ch) && 1 <= len
    ensures HasFreeRun(ch, n, len) <==> exists s :: s in ch && ch[s].use.Free? && len <= ch[s].len
  {
    if HasFreeRun(ch, n, len) {
      var a: nat :| a + len <= n && FreeFrom(ch, a, len);
      var s := FreeRunInOneChunk(ch, n, a, len);
    }
    if s :| s in ch && ch[s].use.Free? && len <= ch[s].len {
      var e := End(ch, s);
      assert FreeFrom(ch, s, len);
    }
  }

  /** A settled, coalesced tiling is determined by its live chunks: from a common boundary onward, two such
      tilings with the same live chunks agree. */
  lemma {:induction false} SameFrom(a: Tiling, b: Tiling, n: nat, s: nat)
    requires Tiled(a, n) && Coalesced(a) && Settled(a)
    requires Tiled(b, n) && Coalesced(b) && Settled(b)
    requires BusyPart(a) == BusyPart(b)
    requires s in a && s in b
    ensures forall t | s <= t :: (t in a <==> t in b) && (t in a ==> a[t] == b[t])
    decreases n - s
  {
    if a[s].use.Busy? || b[s].use.Busy? {
      assert s in BusyPart(a) || s in BusyPart(b);
    } else {
      FreeEndNotBefore(a, b, n, s);
      FreeEndNotBefore(b, a, n, s);
    }
    assert a[s] == b[s];
    var e := End(a, s);
    assert e == End(b, s);
    EndStarts(a, n, s);
    EndStarts(b, n, s);
    if e < n {
      SameFrom(a, b, n, e);
    }
    hide Tiled, Coalesced, Settled, BusyPart;
    forall t | s <= t
      ensures (t in a <==> t in b) && (t in a ==> a[t] == b[t])
    {
      StartsBefore(a, n, t);
      StartsBefore(b, n, t);
      NoStartInside(a, n, s, t);
      NoStartInside(b, n, s, t);
    }
  }

  lemma EndStarts(a: Tiling, n: nat, s: nat)
    requires Tiled(a, n) && s in a
    ensures End(a, s) in a || End(a, s) == n
    ensures s < End(a, s) <= n
  {
  }

  lemma NoStartInside(a: Tiling, n: nat, s: nat, t: nat)
    requires Tiled(a, n) && s in a
    ensures s < t < End(a, s) ==> t !in a
  {
  }

  lemma StartsBefore(a: Tiling, n: nat, t: nat)
    requires Tiled(a, n)
    ensures t in a ==> t < n
  {
    if t in a {
      assert End(a, t) <= n;
    }
  }

  lemma FreeEndNotBefore(a: Tiling, b: Tiling, n: nat, s: nat)
    requires Tiled(a, n) && Coalesced(a) && Settled(a) && Tiled(b, n)
    requires BusyPart(a) == BusyPart(b)
    requires s in a && s in b && a[s].use.Free?
    ensures End(b, s) <= End(a, s)
  {
    var e, f := End(a, s), End(b, s);
    assert e in BusyPart(a) <==> e in BusyPart(b);
  }

  /** The whole tiling is a function of the live chunks alone. */
  lemma TilingDeterminedByLive(a: Tiling, b: Tiling, n: nat)
    requires Tiled(a, n) && Coalesced(a) && Settled(a)
    requires Tiled(b, n) && Coalesced(b) && Settled(b)
    requires BusyPart(a) == BusyPart(b)
    ensures a == b
  {
    SameFrom(a, b, n, 0);
  }

  // ---------- Tags and free lists in memory ----------

  type Memory = seq<U64>
  type Lists = seq<seq<nat>>

  /** The address of word s of an arena that starts at `base`; 0 is the null pointer. */
  function Address(base: nat, s: nat): nat {
    base + 8 * s
  }

  ghost predicate ArenaOk(base: nat, n: nat) {
    0 < base && base % 8 == 0 && 4 <= n && 8 * n <= MAXIMUM_SIZE && base + 8 * n < TWO_64
  }

  function UseBit(use: Use): nat {
    if use.Busy? then 1 else 0
  }

  /** Front and back tags of every chunk that is not held agree with the tiling. */
  ghost predicate Tagged(mem: Memory, ch: Tiling) {
    forall s | s in ch :: TaggedAt(mem, ch[s], s)
  }

  ghost predicate TaggedAt(mem: Memory, chunk: Chunk, s: nat) {
    && 4 <= chunk.len && s + chunk.len <= |mem| && 8 * |mem| <= MAXIMUM_SIZE
    && (!chunk.use.Held? ==> mem[s] == mem[s + chunk.len - 1] == MakeTag(8 * chunk.len, UseBit(chunk.use)))
  }

  /** The lists hold exactly the free chunks, each once, in its rounded-down class. */
  ghost predicate Listed(ch: Tiling, lists: Lists, n: nat)
    requires 8 * n <= MAXIMUM_SIZE && Tiled(ch, n)
  {
    && |lists| == NUM_CLASSES
    && (forall c, i | 0 <= c < NUM_CLASSES && 0 <= i < |lists[c]| :: InClass(ch, lists[c][i], c, n))
    && (forall c, i, j | 0 <= c < NUM_CLASSES && 0 <= i < j < |lists[c]| :: lists[c][i] != lists[c][j])
    && (forall s | s in ch && ch[s].use.Free? :: s in lists[ClassOf(ch, s, n)])
  }

  ghost function ClassOf(ch: Tiling, s: nat, n: nat): (c: nat)
    requires 8 * n <= MAXIMUM_SIZE && Tiled(ch, n) && s in ch
    ensures c < NUM_CLASSES
  {
    var e := End(ch, s);
    ClassRoundDown(8 * ch[s].len)
  }

  ghost predicate InClass(ch: Tiling, s: nat, c: nat, n: nat)
    requires 8 * n <= MAXIMUM_SIZE && Tiled(ch, n)
  {
    s in ch && ch[s].use.Free? && End(ch, s) <= n && ClassOf(ch, s, n) == c
  }

  function PrevLink(base: nat, l: seq<nat>, i: nat): nat
    requires i < |l|
  {
    if i == 0 then 0 else Address(base, l[i - 1])
  }

  function NextLink(base: nat, l: seq<nat>, i: nat): nat
    requires i < |l|
  {
    if i + 1 == |l| then 0 else Address(base, l[i + 1])
  }

  function HeadLink(base: nat, l: seq<nat>): nat {
    if l == [] then 0 else Address(base, l[0])
  }

  /** The words after a free chunk's tag are its links, and each head points at the first chunk of its list. */
  ghost predicate Linked(mem: Memory, heads: seq<U64>, lists: Lists, base: nat) {
    && |lists| == |heads| == NUM_CLASSES
    && (forall c | 0 <= c < NUM_CLASSES :: heads[c] == HeadLink(base, lists[c]))
    && (forall c, i | 0 <= c < NUM_CLASSES && 0 <= i < |lists[c]| :: LinkedAt(mem, lists[c], i, base))
  }

  ghost predicate LinkedAt(mem: Memory, l: seq<nat>, i: nat, base: nat)
    requires i < |l|
  {
    && l[i] + 2 < |mem|
    && mem[l[i] + 1] == PrevLink(base, l, i)
    && mem[l[i] + 2] == NextLink(base, l, i)
  }

  ghost predicate Inv(mem: Memory, heads: seq<U64>, ch: Tiling, lists: Lists, base: nat) {
    var n := |mem|;
    ArenaOk(base, n) && Tiled(ch, n) && Tagged(mem, ch) && Listed(ch, lists, n) && Linked(mem, heads, lists, base)
  }

  /** No word of a live chunk differs between the two memories. */
  ghost predicate BusyKept(oldMem: Memory, mem: Memory, ch: Tiling) {
    && |oldMem| == |mem|
    && forall s, w {:trigger End(ch, s), mem[w]} | s in ch && ch[s].use.Busy? && s <= w < End(ch, s) && w < |mem| ::
         mem[w] == oldMem[w]
  }

  lemma ChunksApart(ch: Tiling, n: nat, s: nat, t: nat)
    requires Tiled(ch, n) && s in ch && t in ch && s != t
    ensures End(ch, s) <= t || End(ch, t) <= s
    ensures s + 4 <= End(ch, s) && t + 4 <= End(ch, t)
  {
  }

  lemma ListedInClass(ch: Tiling, lists: Lists, n: nat, c: nat, i: nat)
    requires 8 * n <= MAXIMUM_SIZE && Tiled(ch, n) && Listed(ch, lists, n)
    requires c < NUM_CLASSES && i < |lists[c]|
    ensures InClass(ch, lists[c][i], c, n)
  {
  }

  lemma ListedOnce(ch: Tiling, lists: Lists, n: nat, c: nat, i: nat, d: nat, j: nat)
    requires 8 * n <= MAXIMUM_SIZE && Tiled(ch, n) && Listed(ch, lists, n)
    requires c < NUM_CLASSES && d < NUM_CLASSES && i < |lists[c]| && j < |lists[d]|
    ensures lists[c][i] == lists[d][j] ==> c == d && i == j
  {
    assert InClass(ch, lists[c][i], c, n) && InClass(ch, lists[d][j], d, n);
  }

  /** Two listed chunks are the same list element or their link cells do not meet. */
  lemma CellsApart(ch: Tiling, lists: Lists, n: nat, c: nat, i: nat, d: nat, j: nat)
    requires 8 * n <= MAXIMUM_SIZE && Tiled(ch, n) && Listed(ch, lists, n)
    requires c < NUM_CLASSES && d < NUM_CLASSES && i < |lists[c]| && j < |lists[d]|
    ensures (c == d && i == j && lists[c][i] == lists[d][j])
         || lists[c][i] + 4 <= lists[d][j] || lists[d][j] + 4 <= lists[c][i]
  {
    var s, t := lists[c][i], lists[d][j];
    assert InClass(ch, s, c, n) && InClass(ch, t, d, n);
    if s == t {
      ListedOnce(ch, lists, n, c, i, d, j);
    } else {
      ChunksApart(ch, n, s, t);
    }
  }

  lemma InArena(ch: Tiling, n: nat, s: nat)
    requires Tiled(ch, n) && s in ch
    ensures s + 4 <= End(ch, s) <= n && (End(ch, s) == n || End(ch, s) in ch)
  {
  }

  /** Outside s, no tag and no word of a chunk that is not free differs between the two memories. */
  ghost predicate OthersKept(mem: Memory, mem': Memory, ch: Tiling, s: nat) {
    && |mem| == |mem'|
    && forall t, w {:trigger End(ch, t), mem'[w]} | t in ch && t != s && t <= w < End(ch, t)
          && (w == t || w == End(ch, t) - 1 || !ch[t].use.Free?) && w < |mem| :: mem'[w] == mem[w]
  }

  lemma OtherTagKept(mem: Memory, mem': Memory, ch: Tiling, s: nat, t: nat)
    requires OthersKept(mem, mem', ch, s) && t in ch && t != s && TaggedAt(mem, ch[t], t)
    ensures TaggedAt(mem', ch[t], t)
  {
    hide MakeTag;
    var e := End(ch, t);
    if !ch[t].use.Held? {
      assert mem'[t] == mem[t];
      assert mem'[e - 1] == mem[e - 1];
    }
  }

  lemma NewTag(mem: Memory, ch: Tiling, s: nat, use: Use)
    requires s in ch && s + 4 <= End(ch, s) <= |mem| && 8 * |mem| <= MAXIMUM_SIZE
    requires !use.Held? ==> mem[s] == mem[End(ch, s) - 1] == MakeTag(8 * ch[s].len, UseBit(use))
    ensures TaggedAt(mem, Chunk(ch[s].len, use), s)
  {
    hide MakeTag;
  }

  /** Changing the use of one chunk keeps the tags right when the tags of the other chunks stay. */
  lemma TagsKept(mem: Memory, mem': Memory, ch: Tiling, n: nat, s: nat, use: Use)
    requires |mem| == |mem'| == n && 8 * n <= MAXIMUM_SIZE && Tiled(ch, n) && Tagged(mem, ch) && s in ch
    requires OthersKept(mem, mem', ch, s) && !ch[s].use.Busy?
    requires s + 4 <= End(ch, s) <= n
    requires !use.Held? ==> mem'[s] == mem'[End(ch, s) - 1] == MakeTag(8 * ch[s].len, UseBit(use))
    ensures Tiled(Marked(ch, s, use), n) && Tagged(mem', Marked(ch, s, use))
    ensures BusyKept(mem, mem', ch)
  {
    hide Tiled, MakeTag;
    MarkedTiled(ch, n, s, use);
    var ch' := Marked(ch, s, use);
    forall t | t in ch'
      ensures TaggedAt(mem', ch'[t], t)
    {
      if t != s {
        OtherTagKept(mem, mem', ch, s, t);
        assert ch'[t] == ch[t];
      } else {
        NewTag(mem', ch, s, use);
        assert ch'[t] == Chunk(ch[s].len, use);
      }
    }
  }

  // ---------- What inserting a chunk keeps ----------

  /** What `insert_free_chunk` writes: both tags, both links, and the old head's back link. */
  ghost predicate InsertWrites(mem: Memory, mem': Memory, ch: Tiling, lists: Lists, base: nat, s: nat)
    requires ArenaOk(base, |mem|) && Tiled(ch, |mem|) && Listed(ch, lists, |mem|) && s in ch
  {
    var n := |mem|;
    var l := lists[ClassOf(ch, s, n)];
    var e := End(ch, s);
    && |mem'| == n
    && mem'[s] == mem'[e - 1] == MakeTag(8 * ch[s].len, 0)
    && mem'[s + 1] == 0
    && mem'[s + 2] == HeadLink(base, l)
    && (l != [] ==> l[0] in ch && End(ch, l[0]) <= n && mem'[l[0] + 1] == Address(base, s))
    && (forall w | 0 <= w < n && !(s <= w <= s + 2) && w != e - 1 && (l != [] ==> w != l[0] + 1) :: mem'[w] == mem[w])
  }

  ghost function Pushed(lists: Lists, c: nat, s: nat): (r: Lists)
    requires c < |lists|
    ensures |r| == |lists| && |r[c]| == |lists[c]| + 1 && r[c][0] == s
    ensures forall d | 0 <= d < |lists| && d != c :: r[d] == lists[d]
    ensures forall i | 0 < i < |r[c]| :: r[c][i] == lists[c][i - 1]
    ensures forall i | 0 <= i < |lists[c]| :: r[c][i + 1] == lists[c][i]
  {
    lists[c := [s] + lists[c]]
  }

  ghost function Inserted(ch: Tiling, lists: Lists, n: nat, s: nat): Lists
    requires 8 * n <= MAXIMUM_SIZE && Tiled(ch, n) && s in ch && |lists| == NUM_CLASSES
  {
    Pushed(lists, ClassOf(ch, s, n), s)
  }

  lemma InsertedIs(ch: Tiling, lists: Lists, n: nat, s: nat)
    requires 8 * n <= MAXIMUM_SIZE && Tiled(ch, n) && s in ch && |lists| == NUM_CLASSES
    ensures 32 <= 8 * ch[s].len <= MAXIMUM_SIZE
    ensures Inserted(ch, lists, n, s) == Pushed(lists, ClassRoundDown(8 * ch[s].len), s)
  {
    hide Pushed, ClassRoundDown;
    assert s + 4 <= End(ch, s) <= n;
  }

  function Marked(ch: Tiling, s: nat, use: Use): Tiling
    requires s in ch
  {
    ch[s := Chunk(ch[s].len, use)]
  }

  lemma MarkedTiled(ch: Tiling, n: nat, s: nat, use: Use)
    requires Tiled(ch, n) && s in ch
    ensures Tiled(Marked(ch, s, use), n)
    ensures forall t {:trigger End(Marked(ch, s, use), t)} | t in ch :: End(Marked(ch, s, use), t) == End(ch, t)
  {
    var ch' := Marked(ch, s, use);
    forall t | t in ch'
      ensures 4 <= ch'[t].len && End(ch', t) <= n && (End(ch', t) == n || End(ch', t) in ch')
    {
      assert End(ch, t) == End(ch', t);
    }
    forall t, u | t in ch' && u in ch' && t < u
      ensures End(ch', t) <= u
    {
      assert End(ch, t) == End(ch', t);
    }
  }

  lemma InsertedInClass(ch: Tiling, lists: Lists, n: nat, s: nat, c: nat, i: nat)
    requires 8 * n <= MAXIMUM_SIZE && Tiled(ch, n) && Listed(ch, lists, n) && s in ch && ch[s].use.Held?
    requires Tiled(Marked(ch, s, Free), n) && c < NUM_CLASSES && i < |Inserted(ch, lists, n, s)[c]|
    ensures InClass(Marked(ch, s, Free), Inserted(ch, lists, n, s)[c][i], c, n)
    ensures c != ClassOf(ch, s, n) || i != 0 ==> Inserted(ch, lists, n, s)[c][i] != s
  {
    hide Pushed, Tiled, ClassRoundDown;
    var k := ClassOf(ch, s, n);
    InArena(ch, n, s);
    if c != k || i != 0 {
      ListedInClass(ch, lists, n, c, if c == k then i - 1 else i);
    }
  }

  lemma InsertedKeeps(ch: Tiling, lists: Lists, n: nat, s: nat, t: nat)
    requires 8 * n <= MAXIMUM_SIZE && Tiled(ch, n) && Listed(ch, lists, n) && s in ch && ch[s].use.Held?
    requires t in ch && (ch[t].use.Free? || t == s)
    ensures t in Inserted(ch, lists, n, s)[ClassOf(ch, t, n)]
  {
    hide Pushed, Tiled, ClassRoundDown;
    var c, k := ClassOf(ch, t, n), ClassOf(ch, s, n);
    var lists' := Inserted(ch, lists, n, s);
    if t == s {
      assert lists'[k][0] == t;
    } else {
      var i :| 0 <= i < |lists[c]| && lists[c][i] == t;
      assert lists'[c][if c == k then i + 1 else i] == t;
    }
  }

  lemma InsertListed(ch: Tiling, lists: Lists, n: nat, s: nat)
    requires 8 * n <= MAXIMUM_SIZE && Tiled(ch, n) && Listed(ch, lists, n) && s in ch && ch[s].use.Held?
    ensures Tiled(Marked(ch, s, Free), n)
    ensures Listed(Marked(ch, s, Free), Inserted(ch, lists, n, s), n)
  {
    hide Pushed, Tiled, InClass, ClassRoundDown;
    MarkedTiled(ch, n, s, Free);
    var ch', lists' := Marked(ch, s, Free), Inserted(ch, lists, n, s);
    forall c, i | 0 <= c < NUM_CLASSES && 0 <= i < |lists'[c]|
      ensures InClass(ch', lists'[c][i], c, n)
    {
      InsertedInClass(ch, lists, n, s, c, i);
    }
    forall c, i, j | 0 <= c < NUM_CLASSES && 0 <= i < j < |lists'[c]|
      ensures lists'[c][i] != lists'[c][j]
    {
      InsertedInClass(ch, lists, n, s, c, j);
    }
    forall t | t in ch' && ch'[t].use.Free?
      ensures t in lists'[ClassOf(ch', t, n)]
    {
      InsertedKeeps(ch, lists, n, s, t);
    }
  }

  lemma InsertLinkedAt(mem: Memory, mem': Memory, heads: seq<U64>, ch: Tiling, lists: Lists, base: nat, s: nat,
                       c: nat, i: nat)
    requires Inv(mem, heads, ch, lists, base) && s in ch && ch[s].use.Held?
    requires InsertWrites(mem, mem', ch, lists, base, s)
    requires c < NUM_CLASSES && i < |Inserted(ch, lists, |mem|, s)[c]|
    ensures LinkedAt(mem', Inserted(ch, lists, |mem|, s)[c], i, base)
  {
    hide Pushed, Tiled, Tagged, Listed, ClassOf;
    var n := |mem|;
    var k := ClassOf(ch, s, n);
    var i' := if c == k then i - 1 else i;
    if c == k && i == 0 {
      InArena(ch, n, s);
    } else {
      ListedInClass(ch, lists, n, c, i');
      assert LinkedAt(mem, lists[c], i', base);
      ChunksApart(ch, n, s, lists[c][i']);
      if lists[k] != [] {
        CellsApart(ch, lists, n, k, 0, c, i');
      }
    }
  }

  lemma InsertLinked(mem: Memory, mem': Memory, heads: seq<U64>, heads': seq<U64>, ch: Tiling, lists: Lists,
                     base: nat, s: nat)
    requires Inv(mem, heads, ch, lists, base) && s in ch && ch[s].use.Held?
    requires InsertWrites(mem, mem', ch, lists, base, s)
    requires Address(base, s) < TWO_64 && heads' == heads[ClassOf(ch, s, |mem|) := Address(base, s)]
    ensures Linked(mem', heads', Inserted(ch, lists, |mem|, s), base)
  {
    hide Pushed, Tiled, InsertWrites, LinkedAt;
    var lists' := Inserted(ch, lists, |mem|, s);
    forall c, i | 0 <= c < NUM_CLASSES && 0 <= i < |lists'[c]|
      ensures LinkedAt(mem', lists'[c], i, base)
    {
      InsertLinkedAt(mem, mem', heads, ch, lists, base, s, c, i);
    }
  }

  /** Inserting s writes no word of another chunk but a free chunk's first link. */
  lemma InsertFrame(mem: Memory, mem': Memory, ch: Tiling, lists: Lists, base: nat, s: nat, t: nat, w: nat)
    requires ArenaOk(base, |mem|) && Tiled(ch, |mem|) && Listed(ch, lists, |mem|)
    requires s in ch && InsertWrites(mem, mem', ch, lists, base, s)
    requires t in ch && t != s && t <= w < End(ch, t) && (w == t || w == End(ch, t) - 1 || !ch[t].use.Free?)
    ensures w < |mem| && mem'[w] == mem[w]
  {
    hide Tiled;
    var n := |mem|;
    var l := lists[ClassOf(ch, s, n)];
    InArena(ch, n, t);
    ChunksApart(ch, n, s, t);
    if l != [] {
      assert InClass(ch, l[0], ClassOf(ch, s, n), n);
      if l[0] != t { ChunksApart(ch, n, l[0], t); }
    }
  }

  lemma InsertedTag(mem: Memory, mem': Memory, ch: Tiling, lists: Lists, base: nat, s: nat)
    requires ArenaOk(base, |mem|) && Tiled(ch, |mem|) && Listed(ch, lists, |mem|) && s in ch
    requires InsertWrites(mem, mem', ch, lists, base, s)
    ensures s + 4 <= End(ch, s) <= |mem| == |mem'|
    ensures mem'[s] == mem'[End(ch, s) - 1] == MakeTag(8 * ch[s].len, 0)
  {
    InArena(ch, |mem|, s);
  }

  lemma InsertTagged(mem: Memory, mem': Memory, ch: Tiling, lists: Lists, base: nat, s: nat)
    requires ArenaOk(base, |mem|) && Tiled(ch, |mem|) && Tagged(mem, ch) && Listed(ch, lists, |mem|)
    requires s in ch && ch[s].use.Held?
    requires InsertWrites(mem, mem', ch, lists, base, s)
    ensures Tiled(Marked(ch, s, Free), |mem|) && Tagged(mem', Marked(ch, s, Free))
    ensures BusyKept(mem, mem', ch)
  {
    hide Tiled, Listed, MakeTag, InsertWrites, ClassOf, Tagged;
    var n := |mem|;
    InsertedTag(mem, mem', ch, lists, base, s);
    forall t, w | t in ch && t != s && t <= w < End(ch, t)
                  && (w == t || w == End(ch, t) - 1 || !ch[t].use.Free?) && w < n
      ensures mem'[w] == mem[w]
    {
      InsertFrame(mem, mem', ch, lists, base, s, t, w);
    }
    TagsKept(mem, mem', ch, n, s, Free);
  }

  // ---------- What removing a chunk keeps ----------

  ghost function Removed(lists: Lists, c: nat, k: nat): (r: Lists)
    requires c < |lists| && k < |lists[c]|
    ensures |r| == |lists| && |r[c]| == |lists[c]| - 1
    ensures forall d | 0 <= d < |lists| && d != c :: r[d] == lists[d]
    ensures forall i | 0 <= i < |r[c]| :: r[c][i] == lists[c][if i < k then i else i + 1]
  {
    lists[c := lists[c][..k] + lists[c][k + 1..]]
  }

  /** What unlinking element k of list c writes: its neighbours' links and, for the first element, the head. */
  ghost predicate RemoveWrites(mem: Memory, mem': Memory, heads: seq<U64>, heads': seq<U64>, l: seq<nat>, c: nat,
                               k: nat, base: nat)
    requires |heads| == NUM_CLASSES && c < NUM_CLASSES && k < |l|
    requires forall i | 0 <= i < |l| :: l[i] + 2 < |mem|
  {
    && |mem'| == |mem| && |heads'| == |heads|
    && (0 < k ==> mem'[l[k - 1] + 2] == NextLink(base, l, k))
    && (k + 1 < |l| ==> mem'[l[k + 1] + 1] == PrevLink(base, l, k))
    && (forall w | 0 <= w < |mem| && (0 < k ==> w != l[k - 1] + 2) && (k + 1 < |l| ==> w != l[k + 1] + 1) ::
          mem'[w] == mem[w])
    && heads'[c] == (if k == 0 then NextLink(base, l, k) else heads[c])
    && (forall d | 0 <= d < NUM_CLASSES && d != c :: heads'[d] == heads[d])
  }

  lemma RemovedInClass(ch: Tiling, lists: Lists, n: nat, c: nat, k: nat, d: nat, i: nat)
    requires 8 * n <= MAXIMUM_SIZE && Tiled(ch, n) && Listed(ch, lists, n)
    requires c < NUM_CLASSES && k < |lists[c]| && lists[c][k] in ch && Tiled(Marked(ch, lists[c][k], Held), n)
    requires d < NUM_CLASSES && i < |Removed(lists, c, k)[d]|
    ensures InClass(Marked(ch, lists[c][k], Held), Removed(lists, c, k)[d][i], d, n)
  {
    hide Removed, Tiled, ClassRoundDown;
    var i' := if d == c && k <= i then i + 1 else i;
    ListedInClass(ch, lists, n, d, i');
    ListedOnce(ch, lists, n, c, k, d, i');
  }

  lemma RemoveListed(ch: Tiling, lists: Lists, n: nat, c: nat, k: nat)
    requires 8 * n <= MAXIMUM_SIZE && Tiled(ch, n) && Listed(ch, lists, n)
    requires c < NUM_CLASSES && k < |lists[c]|
    ensures lists[c][k] in ch && Tiled(Marked(ch, lists[c][k], Held), n)
    ensures Listed(Marked(ch, lists[c][k], Held), Removed(lists, c, k), n)
  {
    hide Removed, Tiled, InClass, ClassRoundDown;
    var s := lists[c][k];
    ListedInClass(ch, lists, n, c, k);
    assert s in ch by { InClassInside(ch, s, c, n); }
    MarkedTiled(ch, n, s, Held);
    var ch', lists' := Marked(ch, s, Held), Removed(lists, c, k);
    forall d, i | 0 <= d < NUM_CLASSES && 0 <= i < |lists'[d]|
      ensures InClass(ch', lists'[d][i], d, n)
    {
      RemovedInClass(ch, lists, n, c, k, d, i);
    }
    forall t | t in ch' && ch'[t].use.Free?
      ensures t in lists'[ClassOf(ch', t, n)]
    {
      RemovedKeeps(ch, lists, n, c, k, t);
    }
  }

  lemma InClassInside(ch: Tiling, s: nat, c: nat, n: nat)
    requires 8 * n <= MAXIMUM_SIZE && Tiled(ch, n) && InClass(ch, s, c, n)
    ensures s in ch && ch[s].use.Free? && s + 4 <= End(ch, s) <= n
  {
    InArena(ch, n, s);
  }

  lemma RemovedKeeps(ch: Tiling, lists: Lists, n: nat, c: nat, k: nat, t: nat)
    requires 8 * n <= MAXIMUM_SIZE && Tiled(ch, n) && Listed(ch, lists, n)
    requires c < NUM_CLASSES && k < |lists[c]|
    requires t in ch && ch[t].use.Free? && t != lists[c][k]
    ensures t in Removed(lists, c, k)[ClassOf(ch, t, n)]
  {
    hide Removed, Tiled;
    var d := ClassOf(ch, t, n);
    var j :| 0 <= j < |lists[d]| && lists[d][j] == t;
    assert Removed(lists, c, k)[d][if d == c && k < j then j - 1 else j] == t;
  }

  lemma RemoveLinkedAt(mem: Memory, mem': Memory, heads: seq<U64>, heads': seq<U64>, ch: Tiling, lists: Lists,
                       base: nat, c: nat, k: nat, d: nat, i: nat)
    requires Inv(mem, heads, ch, lists, base) && c < NUM_CLASSES && k < |lists[c]|
    requires forall i | 0 <= i < |lists[c]| :: lists[c][i] + 2 < |mem|
    requires RemoveWrites(mem, mem', heads, heads', lists[c], c, k, base)
    requires d < NUM_CLASSES && i < |Removed(lists, c, k)[d]|
    ensures LinkedAt(mem', Removed(lists, c, k)[d], i, base)
  {
    hide Removed, Tiled, Listed, Tagged;
    var i' := if d == c && k <= i then i + 1 else i;
    assert LinkedAt(mem, lists[d], i', base);
    if 0 < k {
      CellsApart(ch, lists, |mem|, c, k - 1, d, i');
    }
    if k + 1 < |lists[c]| {
      CellsApart(ch, lists, |mem|, c, k + 1, d, i');
    }
  }

  lemma RemoveLinked(mem: Memory, mem': Memory, heads: seq<U64>, heads': seq<U64>, ch: Tiling, lists: Lists,
                     base: nat, c: nat, k: nat)
    requires Inv(mem, heads, ch, lists, base) && c < NUM_CLASSES && k < |lists[c]|
    requires forall i | 0 <= i < |lists[c]| :: lists[c][i] + 2 < |mem|
    requires RemoveWrites(mem, mem', heads, heads', lists[c], c, k, base)
    ensures Linked(mem', heads', Removed(lists, c, k), base)
  {
    hide Removed, Tiled, Listed, Tagged, LinkedAt;
    var lists' := Removed(lists, c, k);
    forall d, i | 0 <= d < NUM_CLASSES && 0 <= i < |lists'[d]|
      ensures LinkedAt(mem', lists'[d], i, base)
    {
      RemoveLinkedAt(mem, mem', heads, heads', ch, lists, base, c, k, d, i);
    }
  }

  /** Unlinking an element writes nothing but links of free chunks. */
  lemma RemoveFrame(mem: Memory, mem': Memory, heads: seq<U64>, heads': seq<U64>, ch: Tiling, lists: Lists,
                    base: nat, c: nat, k: nat, t: nat, w: nat)
    requires Inv(mem, heads, ch, lists, base) && c < NUM_CLASSES && k < |lists[c]|
    requires forall i | 0 <= i < |lists[c]| :: lists[c][i] + 2 < |mem|
    requires RemoveWrites(mem, mem', heads, heads', lists[c], c, k, base)
    requires t in ch && t <= w < End(ch, t) && (w == t || w == End(ch, t) - 1 || !ch[t].use.Free?)
    ensures w < |mem| && mem'[w] == mem[w]
  {
    hide Tiled, Tagged;
    var n, l := |mem|, lists[c];
    InArena(ch, n, t);
    if 0 < k {
      assert InClass(ch, l[k - 1], c, n);
      if l[k - 1] != t { ChunksApart(ch, n, l[k - 1], t); }
    }
    if k + 1 < |l| {
      assert InClass(ch, l[k + 1], c, n);
      if l[k + 1] != t { ChunksApart(ch, n, l[k + 1], t); }
    }
  }

  lemma RemoveTagged(mem: Memory, mem': Memory, heads: seq<U64>, heads': seq<U64>, ch: Tiling, lists: Lists,
                     base: nat, c: nat, k: nat)
    requires Inv(mem, heads, ch, lists, base) && c < NUM_CLASSES && k < |lists[c]|
    requires forall i | 0 <= i < |lists[c]| :: lists[c][i] + 2 < |mem|
    requires RemoveWrites(mem, mem', heads, heads', lists[c], c, k, base)
    ensures lists[c][k] in ch && Tiled(Marked(ch, lists[c][k], Held), |mem|)
    ensures Tagged(mem', Marked(ch, lists[c][k], Held))
    ensures BusyKept(mem, mem', ch)
    ensures mem'[lists[c][k]] == mem[lists[c][k]]
  {
    hide Tiled, MakeTag, Tagged, ClassRoundDown;
    var n, s := |mem|, lists[c][k];
    ListedInClass(ch, lists, n, c, k);
    InArena(ch, n, s);
    RemoveOthersKept(mem, mem', heads, heads', ch, lists, base, c, k);
    RemoveFrame(mem, mem', heads, heads', ch, lists, base, c, k, s, s);
    TagsKept(mem, mem', ch, n, s, Held);
  }

  lemma RemoveOthersKept(mem: Memory, mem': Memory, heads: seq<U64>, heads': seq<U64>, ch: Tiling, lists: Lists,
                         base: nat, c: nat, k: nat)
    requires Inv(mem, heads, ch, lists, base) && c < NUM_CLASSES && k < |lists[c]|
    requires forall i | 0 <= i < |lists[c]| :: lists[c][i] + 2 < |mem|
    requires RemoveWrites(mem, mem', heads, heads', lists[c], c, k, base)
    ensures OthersKept(mem, mem', ch, lists[c][k])
  {
    hide Tiled, Listed, MakeTag, ClassOf, Tagged;
    forall t, w | t in ch && t != lists[c][k] && t <= w < End(ch, t)
                  && (w == t || w == End(ch, t) - 1 || !ch[t].use.Free?) && w < |mem|
      ensures mem'[w] == mem[w]
    {
      RemoveFrame(mem, mem', heads, heads', ch, lists, base, c, k, t, w);
    }
  }

  // ---------- Steps that touch only the ghost tiling ----------

  /** No free chunk ends at s. */
  ghost predicate LeftClosed(ch: Tiling, s: nat) {
    forall t {:trigger End(ch, t)} | t in ch && End(ch, t) == s :: !ch[t].use.Free?
  }

  /** No free chunk starts where chunk s ends. */
  ghost predicate RightClosed(ch: Tiling, s: nat)
    requires s in ch
  {
    End(ch, s) in ch ==> !ch[End(ch, s)].use.Free?
  }

  /** The k-th chunk of a class is the first one that is large enough in the first class from that of a size on that has
      any. */
  ghost predicate FirstFit(ch: Tiling, lists: Lists, minSize: nat, c: nat, k: nat) {
    && MINIMUM_SIZE <= minSize <= MAXIMUM_SIZE && ClassRoundUp(minSize) <= c < |lists| && k < |lists[c]|
    && (forall d | ClassRoundUp(minSize) <= d < c :: lists[d] == [])
    && (forall i | 0 <= i < k :: lists[c][i] in ch && 8 * ch[lists[c][i]].len < minSize)
    && lists[c][k] in ch && minSize <= 8 * ch[lists[c][k]].len
  }

  lemma FreeLeftOpens(ch: Tiling, s: nat, t: nat)
    requires t in ch && End(ch, t) == s && ch[t].use.Free?
    ensures !LeftClosed(ch, s)
  {
  }

  /** Two neighbouring held chunks taken as one. */
  function Merged(ch: Tiling, s: nat, t: nat): (ch': Tiling)
    requires s in ch && t in ch && s != t
  {
    (ch - {t})[s := Chunk(ch[s].len + ch[t].len, Held)]
  }

  /** A held chunk taken as two, the first of `len` words. */
  function Split(ch: Tiling, s: nat, len: nat): (ch': Tiling)
    requires s in ch && 4 <= len && len + 4 <= ch[s].len
  {
    ch[s := Chunk(len, Held)][s + len := Chunk(ch[s].len - len, Held)]
  }

  lemma MergedTiled(ch: Tiling, n: nat, s: nat, t: nat)
    requires Tiled(ch, n) && s in ch && t in ch && End(ch, s) == t
    requires ch[s].use.Held? && ch[t].use.Held?
    ensures s < t && Tiled(Merged(ch, s, t), n)
    ensures BusyPart(Merged(ch, s, t)) == BusyPart(ch)
    ensures End(Merged(ch, s, t), s) == End(ch, t)
  {
    var ch' := Merged(ch, s, t);
    assert s < t && 0 in ch by { InArena(ch, n, s); }
    MergedEnds(ch, n, s, t);
    MergedOrder(ch, n, s, t);
  }

  lemma MergedEnds(ch: Tiling, n: nat, s: nat, t: nat)
    requires Tiled(ch, n) && s in ch && t in ch && s < t && End(ch, s) == t
    ensures forall u {:trigger End(Merged(ch, s, t), u)} | u in Merged(ch, s, t) ::
              var ch' := Merged(ch, s, t);
              4 <= ch'[u].len && End(ch', u) <= n && (End(ch', u) == n || End(ch', u) in ch')
  {
    var ch' := Merged(ch, s, t);
    forall u | u in ch'
      ensures 4 <= ch'[u].len && End(ch', u) <= n && (End(ch', u) == n || End(ch', u) in ch')
    {
      hide Tiled;
      InArena(ch, n, u);
      InArena(ch, n, t);
      if u != s { ChunksApart(ch, n, u, s); }
    }
  }

  lemma MergedOrder(ch: Tiling, n: nat, s: nat, t: nat)
    requires Tiled(ch, n) && s in ch && t in ch && s < t && End(ch, s) == t
    ensures forall u, v {:trigger End(Merged(ch, s, t), u), v in Merged(ch, s, t)} |
              u in Merged(ch, s, t) && v in Merged(ch, s, t) && u < v :: End(Merged(ch, s, t), u) <= v
  {
    var ch' := Merged(ch, s, t);
    forall u, v | u in ch' && v in ch' && u < v
      ensures End(ch', u) <= v
    {
      hide Tiled;
      ChunksApart(ch, n, u, v);
      ChunksApart(ch, n, v, t);
    }
  }

  lemma MergedKeeps(mem: Memory, heads: seq<U64>, ch: Tiling, lists: Lists, base: nat, s: nat, t: nat)
    requires Inv(mem, heads, ch, lists, base)
    requires s in ch && t in ch && End(ch, s) == t && ch[s].use.Held? && ch[t].use.Held?
    ensures s < t && Inv(mem, heads, Merged(ch, s, t), lists, base)
  {
    hide Linked, Tiled, MakeTag;
    MergedTiled(ch, |mem|, s, t);
    var ch' := Merged(ch, s, t);
    MergedListed(ch, lists, |mem|, s, t);
    InArena(ch', |mem|, s);
    forall u | u in ch'
      ensures TaggedAt(mem, ch'[u], u)
    {
      if u != s {
        assert TaggedAt(mem, ch[u], u);
      }
    }
  }

  lemma MergedListed(ch: Tiling, lists: Lists, n: nat, s: nat, t: nat)
    requires 8 * n <= MAXIMUM_SIZE && Tiled(ch, n) && Listed(ch, lists, n) && s != t
    requires s in ch && t in ch && ch[s].use.Held? && ch[t].use.Held?
    requires Tiled(Merged(ch, s, t), n)
    ensures Listed(Merged(ch, s, t), lists, n)
  {
    hide Tiled, ClassRoundDown;
    var ch' := Merged(ch, s, t);
    forall c, i | 0 <= c < NUM_CLASSES && 0 <= i < |lists[c]|
      ensures InClass(ch', lists[c][i], c, n)
    {
      ListedInClass(ch, lists, n, c, i);
    }
    forall u | u in ch' && ch'[u].use.Free?
      ensures u in lists[ClassOf(ch', u, n)]
    {
      assert ch[u] == ch'[u] && ClassOf(ch, u, n) == ClassOf(ch', u, n);
    }
  }

  lemma SplitEnds(ch: Tiling, n: nat, s: nat, len: nat)
    requires Tiled(ch, n) && s in ch && 4 <= len && len + 4 <= ch[s].len && s + len !in ch
    ensures forall u {:trigger End(Split(ch, s, len), u)} | u in Split(ch, s, len) ::
              var ch' := Split(ch, s, len);
              4 <= ch'[u].len && End(ch', u) <= n && (End(ch', u) == n || End(ch', u) in ch')
  {
    var ch' := Split(ch, s, len);
    forall u | u in ch'
      ensures 4 <= ch'[u].len && End(ch', u) <= n && (End(ch', u) == n || End(ch', u) in ch')
    {
      hide Tiled;
      InArena(ch, n, s);
      if u in ch { InArena(ch, n, u); }
    }
  }

  lemma SplitOrder(ch: Tiling, n: nat, s: nat, len: nat)
    requires Tiled(ch, n) && s in ch && 4 <= len && len + 4 <= ch[s].len && s + len !in ch
    ensures forall u, v {:trigger End(Split(ch, s, len), u), v in Split(ch, s, len)} |
              u in Split(ch, s, len) && v in Split(ch, s, len) && u < v :: End(Split(ch, s, len), u) <= v
  {
    var ch' := Split(ch, s, len);
    forall u, v | u in ch' && v in ch' && u < v
      ensures End(ch', u) <= v
    {
      hide Tiled;
      InArena(ch, n, s);
      if u in ch && v in ch { ChunksApart(ch, n, u, v); }
      if u in ch && u != s { ChunksApart(ch, n, u, s); }
      if v in ch && v != s { ChunksApart(ch, n, v, s); }
    }
  }

  lemma SplitTiled(ch: Tiling, n: nat, s: nat, len: nat)
    requires Tiled(ch, n) && s in ch && ch[s].use.Held? && 4 <= len && len + 4 <= ch[s].len
    ensures s + len !in ch
    ensures Tiled(Split(ch, s, len), n)
    ensures BusyPart(Split(ch, s, len)) == BusyPart(ch)
    ensures End(Split(ch, s, len), s) == s + len && End(Split(ch, s, len), s + len) == End(ch, s)
  {
    assert s + len !in ch && 0 in ch by { var e := End(ch, s); }
    SplitEnds(ch, n, s, len);
    SplitOrder(ch, n, s, len);
  }

  lemma SplitKeeps(mem: Memory, heads: seq<U64>, ch: Tiling, lists: Lists, base: nat, s: nat, len: nat)
    requires Inv(mem, heads, ch, lists, base)
    requires s in ch && ch[s].use.Held? && 4 <= len && len + 4 <= ch[s].len
    ensures Inv(mem, heads, Split(ch, s, len), lists, base)
  {
    hide Linked, Tiled, MakeTag;
    SplitTiled(ch, |mem|, s, len);
    var ch' := Split(ch, s, len);
    SplitListed(ch, lists, |mem|, s, len);
    InArena(ch', |mem|, s + len);
    InArena(ch', |mem|, s);
    forall u | u in ch'
      ensures TaggedAt(mem, ch'[u], u)
    {
      if u != s && u != s + len {
        assert TaggedAt(mem, ch[u], u);
      }
    }
  }

  lemma SplitListed(ch: Tiling, lists: Lists, n: nat, s: nat, len: nat)
    requires 8 * n <= MAXIMUM_SIZE && Tiled(ch, n) && Listed(ch, lists, n)
    requires s in ch && ch[s].use.Held? && 4 <= len && len + 4 <= ch[s].len && s + len !in ch
    requires Tiled(Split(ch, s, len), n)
    ensures Listed(Split(ch, s, len), lists, n)
  {
    hide Tiled, ClassRoundDown;
    var ch' := Split(ch, s, len);
    forall c, i | 0 <= c < NUM_CLASSES && 0 <= i < |lists[c]|
      ensures InClass(ch', lists[c][i], c, n)
    {
      ListedInClass(ch, lists, n, c, i);
    }
    forall u | u in ch' && ch'[u].use.Free?
      ensures u in lists[ClassOf(ch', u, n)]
    {
      assert ch[u] == ch'[u] && ClassOf(ch, u, n) == ClassOf(ch', u, n);
    }
  }

  /** Moving a chunk between live and held changes no list; the new tags, if any, must have been written. */
  lemma UseKeeps(mem: Memory, mem': Memory, heads: seq<U64>, ch: Tiling, lists: Lists, base: nat, s: nat, use: Use)
    requires Inv(mem, heads, ch, lists, base)
    requires s in ch && !ch[s].use.Free? && !use.Free?
    requires |mem'| == |mem| && forall w | 0 <= w < |mem| && !(s <= w < End(ch, s)) :: mem'[w] == mem[w]
    requires TaggedAt(mem', Chunk(ch[s].len, use), s)
    ensures Inv(mem', heads, Marked(ch, s, use), lists, base)
  {
    hide Tiled, MakeTag, ClassRoundDown, Inv, Tagged;
    var n := |mem|;
    assert ArenaOk(base, n) && Tiled(ch, n) && Tagged(mem, ch) && Listed(ch, lists, n)
      && Linked(mem, heads, lists, base) by { InvParts(mem, heads, ch, lists, base); }
    MarkedTiled(ch, n, s, use);
    var ch' := Marked(ch, s, use);
    UseTagged(mem, mem', ch, n, s, use);
    forall c, i | 0 <= c < NUM_CLASSES && 0 <= i < |lists[c]|
      ensures InClass(ch', lists[c][i], c, n) && LinkedAt(mem', lists[c], i, base)
    {
      ListedInClass(ch, lists, n, c, i);
      ChunksApart(ch, n, s, lists[c][i]);
      assert LinkedAt(mem, lists[c], i, base);
    }
    forall u | u in ch' && ch'[u].use.Free?
      ensures u in lists[ClassOf(ch', u, n)]
    {
      assert ch[u] == ch'[u] && ClassOf(ch, u, n) == ClassOf(ch', u, n);
    }
    InvWhole(mem', heads, ch', lists, base);
  }

  lemma UseTagged(mem: Memory, mem': Memory, ch: Tiling, n: nat, s: nat, use: Use)
    requires n == |mem| == |mem'| && Tiled(ch, n) && Tagged(mem, ch) && s in ch
    requires forall w | 0 <= w < |mem| && !(s <= w < End(ch, s)) :: mem'[w] == mem[w]
    requires TaggedAt(mem', Chunk(ch[s].len, use), s)
    ensures Tagged(mem', Marked(ch, s, use))
  {
    hide Tiled, MakeTag;
    var ch' := Marked(ch, s, use);
    forall u | u in ch'
      ensures TaggedAt(mem', ch'[u], u)
    {
      if u != s {
        assert TaggedAt(mem, ch[u], u);
        ChunksApart(ch, n, s, u);
      }
    }
  }

  lemma InvParts(mem: Memory, heads: seq<U64>, ch: Tiling, lists: Lists, base: nat)
    requires Inv(mem, heads, ch, lists, base)
    ensures ArenaOk(base, |mem|) && Tiled(ch, |mem|) && Tagged(mem, ch) && Listed(ch, lists, |mem|)
    ensures Linked(mem, heads, lists, base)
  {
  }

  lemma InvWhole(mem: Memory, heads: seq<U64>, ch: Tiling, lists: Lists, base: nat)
    requires ArenaOk(base, |mem|) && Tiled(ch, |mem|) && Tagged(mem, ch) && Listed(ch, lists, |mem|)
    requires Linked(mem, heads, lists, base)
    ensures Inv(mem, heads, ch, lists, base)
  {
  }

  // ---------- The pool ----------

  class Pool {
    const base: nat            // data_
    const data: array<U64>     // the arena, word by word
    const freeHead: array<U64> // free_head_
    ghost var chunks: Tiling
    ghost var lists: Lists

    ghost predicate Consistent()
      reads this, data, freeHead
    {
      data != freeHead && Inv(data[..], freeHead[..], chunks, lists, base)
    }

    /** Writes both tags and threads the chunk in at the head of its class list. */
    method InsertFreeChunk(start: nat, size: nat)
      requires Consistent() && start in chunks && chunks[start].use.Held? && size == 8 * chunks[start].len
      modifies this, data, freeHead
      ensures Consistent() && chunks == Marked(old(chunks), start, Free)
      ensures BusyKept(old(data[..]), data[..], old(chunks))
      ensures size <= MAXIMUM_SIZE && |old(lists)| == NUM_CLASSES
              && lists == Pushed(old(lists), ClassRoundDown(size), start)
    {
      hide Tagged, Listed, Linked, Tiled, Marked, Inserted, BusyKept, MakeTag, Pushed, ClassRoundDown;
      ghost var mem, heads := data[..], freeHead[..];
      ghost var n := data.Length;
      InArena(chunks, n, start);
      var c := ClassRoundDown(size);
      var last := start + size / 8 - 1;
      HeadListed(chunks, lists, n, c, heads, mem, base, start);
      data[last] := MakeTag(size, 0);
      data[start] := MakeTag(size, 0);
      data[start + 1] := 0;
      data[start + 2] := freeHead[c];
      if freeHead[c] != 0 {
        data[(freeHead[c] - base) / 8 + 1] := base + 8 * start;
      }
      freeHead[c] := base + 8 * start;
      assert InsertWrites(mem, data[..], chunks, lists, base, start);
      InsertTagged(mem, data[..], chunks, lists, base, start);
      InsertListed(chunks, lists, n, start);
      InsertLinked(mem, data[..], heads, freeHead[..], chunks, lists, base, start);
      InsertedIs(chunks, lists, n, start);
      lists := Inserted(chunks, lists, n, start);
      chunks := Marked(chunks, start, Free);
    }

    /** Unlinks a free chunk from its neighbours, or from the class head when it has no predecessor. */
    method RemoveFromFreeList(start: nat, size: nat)
      requires Consistent() && start in chunks && chunks[start].use.Free? && size == 8 * chunks[start].len
      modifies this, data, freeHead
      ensures Consistent() && chunks == Marked(old(chunks), start, Held)
      ensures BusyKept(old(data[..]), data[..], old(chunks))
      ensures exists c: nat, k: nat ::
                c < |old(lists)| && k < |old(lists)[c]| && old(lists)[c][k] == start
                  && lists == Removed(old(lists), c, k)
    {
      hide Tagged, Linked, Tiled, Marked, Removed, BusyKept, MakeTag, ClassRoundDown, Listed;
      ghost var mem, heads := data[..], freeHead[..];
      ghost var n := data.Length;
      InArena(chunks, n, start);
      ghost var c, k := WhereListed(mem, heads, chunks, lists, base, start);
      ghost var l := lists[c];
      var prev, next := data[start + 1], data[start + 2];
      if prev != 0 {
        data[(prev - base) / 8 + 2] := next;
      } else {
        freeHead[ClassRoundDown(size)] := next;
      }
      if next != 0 {
        data[(next - base) / 8 + 1] := prev;
      }
      assert RemoveWrites(mem, data[..], heads, freeHead[..], l, c, k, base);
      RemoveTagged(mem, data[..], heads, freeHead[..], chunks, lists, base, c, k);
      RemoveListed(chunks, lists, n, c, k);
      RemoveLinked(mem, data[..], heads, freeHead[..], chunks, lists, base, c, k);
      lists := Removed(lists, c, k);
      chunks := Marked(chunks, start, Held);
    }

    /** Takes the first large enough chunk of the first non-empty class that may hold one. */
    method RemoveFromHead(minSize: nat) returns (ok: bool, start: nat, size: nat)
      requires Consistent() && MINIMUM_SIZE <= minSize <= MAXIMUM_SIZE && minSize % 8 == 0
      modifies this, data, freeHead
      ensures Consistent()
      ensures ok <==> HasFreeChunk(old(chunks), minSize)
      ensures ok ==>
                start in old(chunks) && old(chunks)[start].use.Free? && minSize <= size == 8 * old(chunks)[start].len
      ensures ok ==> chunks == Marked(old(chunks), start, Held) && BusyKept(old(data[..]), data[..], old(chunks))
      ensures !ok ==> chunks == old(chunks) && data[..] == old(data[..])
      ensures ok ==> exists c: nat, k: nat ::
                FirstFit(old(chunks), old(lists), minSize, c, k) && old(lists)[c][k] == start
    {
      hide Tagged, Tiled, Marked, BusyKept, MakeTag, ClassRoundDown, ClassRoundUp, HasFreeChunk;
      ghost var mem, heads := data[..], freeHead[..];
      var first := ClassRoundUp(minSize);
      var c := first;
      while c < NUM_CLASSES && freeHead[c] == 0
        invariant first <= c <= NUM_CLASSES
        invariant Inv(mem, heads, chunks, lists, base) && mem == data[..] && heads == freeHead[..]
        invariant chunks == old(chunks) && lists == old(lists)
        invariant forall d | first <= d < c :: lists[d] == []
      {
        HeadMeans(heads, lists, base, mem, c);
        c := c + 1;
      }
      if c == NUM_CLASSES {
        NoneLargeEnough(mem, heads, chunks, lists, base, minSize, c);
        return false, 0, 0;
      }
      ghost var l, k := lists[c], 0;
      HeadMeans(heads, lists, base, mem, c);
      var chunk := freeHead[c];
      size := 0;
      while chunk != 0
        invariant k <= |l|
        invariant Inv(mem, heads, chunks, lists, base) && mem == data[..] && heads == freeHead[..]
        invariant chunks == old(chunks) && lists == old(lists)
        invariant chunk == if k < |l| then Address(base, l[k]) else 0
        invariant forall i | 0 <= i < k :: l[i] in chunks && 8 * chunks[l[i]].len < minSize
        decreases |l| - k
      {
        start := (chunk - base) / 8;
        WhatListSays(mem, heads, chunks, lists, base, c, k);
        size := TagSize(data[start]);
        if size >= minSize {
          RemoveFromFreeList(start, size);
          assert FirstFit(old(chunks), old(lists), minSize, c, k);
          LargeEnough(old(chunks), start, minSize);
          return true, start, size;
        }
        chunk := data[start + 2];
        k := k + 1;
      }
      NoneLargeEnough(mem, heads, chunks, lists, base, minSize, c);
      return false, 0, 0;
    }

    /** Takes a free left neighbour into the held chunk. */
    method CoalesceLeft(start: nat, size: nat) returns (start': nat, size': nat)
      requires Consistent() && Coalesced(chunks) && HeldAt(chunks, start) && size == 8 * chunks[start].len
      modifies this, data, freeHead
      ensures Consistent() && Coalesced(chunks) && BusyPart(chunks) == BusyPart(old(chunks))
      ensures BusyKept(old(data[..]), data[..], old(chunks))
      ensures HeldAt(chunks, start') && size' == 8 * chunks[start'].len && LeftClosed(chunks, start')
      ensures if LeftClosed(old(chunks), start) then start' == start && chunks == old(chunks) else
                && start' in old(chunks) && old(chunks)[start'].use.Free? && End(old(chunks), start') == start
                  && start' != start
                && chunks == Merged(Marked(old(chunks), start', Held), start', start)
    {
      hide Tagged, Tiled, BusyKept, MakeTag, Listed, Linked, Coalesced, LeftClosed, BusyPart, Merged;
      ghost var ch, n, mem := chunks, data.Length, data[..];
      start', size' := start, size;
      BusyKeptSelf(mem, ch);
      if start == 0 {
        FirstLeftClosed(ch, n);
        return;
      }
      ghost var left := LeftNeighbour(ch, n, start);
      InArena(ch, n, left);
      TagWords(mem, freeHead[..], ch, lists, base, left);
      InArena(ch, n, start);
      if TagStatus(data[start - 1]) == 1 {
        BusyLeftClosed(ch, n, left, start);
        return;
      }
      var adjSize := TagSize(data[start - 1]);
      var adjStart := start - adjSize / 8;
      FreeLeftOpens(ch, start, adjStart);
      RemoveFromFreeList(adjStart, adjSize);
      MergeLeft(ch, n, adjStart, start);
      MergedKeeps(data[..], freeHead[..], chunks, lists, base, adjStart, start);
      chunks := Merged(chunks, adjStart, start);
      start', size' := adjStart, size + adjSize;
    }

    /** Takes a free right neighbour into the held chunk. */
    method CoalesceRight(start: nat, size: nat) returns (size': nat)
      requires Consistent() && Coalesced(chunks) && HeldAt(chunks, start) && size == 8 * chunks[start].len
      modifies this, data, freeHead
      ensures Consistent() && Coalesced(chunks) && BusyPart(chunks) == BusyPart(old(chunks))
      ensures BusyKept(old(data[..]), data[..], old(chunks))
      ensures HeldAt(chunks, start) && size' == 8 * chunks[start].len && RightClosed(chunks, start)
      ensures LeftClosed(old(chunks), start) ==> LeftClosed(chunks, start)
      ensures if RightClosed(old(chunks), start) then chunks == old(chunks) else
                var right := End(old(chunks), start);
                && right in old(chunks) && right != start
                && chunks == Merged(Marked(old(chunks), right, Held), start, right)
    {
      hide Tagged, Tiled, BusyKept, MakeTag, Listed, Linked, Coalesced, LeftClosed, BusyPart, Merged;
      ghost var ch, n, mem := chunks, data.Length, data[..];
      size' := size;
      BusyKeptSelf(mem, ch);
      InArena(ch, n, start);
      var adjStart := start + size / 8;
      if adjStart == data.Length {
        LastRightClosed(ch, n, start);
        return;
      }
      TagWords(mem, freeHead[..], ch, lists, base, adjStart);
      if TagStatus(data[adjStart]) == 1 {
        return;
      }
      var adjSize := TagSize(data[adjStart]);
      RemoveFromFreeList(adjStart, adjSize);
      MergeRight(ch, n, start, adjStart);
      MergedKeeps(data[..], freeHead[..], chunks, lists, base, start, adjStart);
      chunks := Merged(chunks, start, adjStart);
      size' := size + adjSize;
    }

    /** Every chunk is live or free, free neighbours are merged, and each live chunk holds its item. */
    ghost predicate Valid()
      reads this, data, freeHead
    {
      && Consistent() && Settled(chunks) && Coalesced(chunks)
      && ItemsFit(data[..], chunks)
    }

    /** A free arena: one chunk of everything. */
    constructor (base: nat, configured: nat)
      requires ArenaOk(base, PoolSize(configured, MINIMUM_SIZE) / 8)
      ensures Valid() && this.base == base && fresh(data) && fresh(freeHead)
      ensures 8 * data.Length == PoolSize(configured, MINIMUM_SIZE)
      ensures chunks == map[0 := Chunk(data.Length, Free)] && Items() == map[]
    {
      hide PoolSize;
      ghost var k := PoolSizeIs(configured, MINIMUM_SIZE);
      WholePagesWords(PoolSize(configured, MINIMUM_SIZE));
      var words := PoolSize(configured, MINIMUM_SIZE) / 8;
      this.base := base;
      data := new U64[words](_ => 0);
      freeHead := new U64[NUM_CLASSES](_ => 0);
      chunks := map[0 := Chunk(words, Held)];
      lists := seq(NUM_CLASSES, _ => []);
      new;
      EmptyArena(data[..], freeHead[..], base);
      InsertFreeChunk(0, 8 * words);
      NothingLive(data[..], words);
    }

    /** Forgets every item. */
    method Reset()
      requires Valid()
      modifies this, data, freeHead
      ensures Valid() && chunks == map[0 := Chunk(data.Length, Free)] && Items() == map[]
    {
      hide Inv, ItemsFit;
      ghost var mem := data[..];
      InvTiled(mem, freeHead[..], chunks, lists, base);
      assert |freeHead[..]| == NUM_CLASSES by { InvHeads(mem, freeHead[..], chunks, lists, base); }
      for c := 0 to NUM_CLASSES
        invariant forall d | 0 <= d < c :: freeHead[d] == 0
        invariant data[..] == mem
      {
        freeHead[c] := 0;
      }
      chunks := map[0 := Chunk(data.Length, Held)];
      lists := seq(NUM_CLASSES, _ => []);
      EmptyArena(mem, freeHead[..], base);
      InsertFreeChunk(0, 8 * data.Length);
      assert chunks == map[0 := Chunk(data.Length, Free)];
      InvTiled(data[..], freeHead[..], chunks, lists, base);
      NothingLive(data[..], data.Length);
    }

    /** Bytes of the arena needed to store an item: its size rounded up, the two tags and the size word. */
    static function ChunkSize(itemSize: nat): (r: nat) {
      RoundUp8(itemSize) + OVERHEAD
    }

    /** In words: two tags, the size word and the item. */
    static lemma ChunkWords(itemSize: nat)
      ensures ChunkSize(itemSize) == 8 * ((itemSize + 7) / 8 + 3)
    {
    }

    /** Gives the part of a held chunk beyond `minSize` back as a free chunk, when it can stand alone. */
    method SplitLeftover(start: nat, size: nat, minSize: nat) returns (size': nat)
      requires Consistent() && Coalesced(chunks) && HeldAt(chunks, start) && size == 8 * chunks[start].len
      requires LeftClosed(chunks, start) && RightClosed(chunks, start)
      requires MINIMUM_SIZE <= minSize <= size && minSize % 8 == 0
      modifies this, data, freeHead
      ensures Consistent() && Coalesced(chunks) && BusyPart(chunks) == BusyPart(old(chunks))
      ensures BusyKept(old(data[..]), data[..], old(chunks))
      ensures HeldAt(chunks, start) && minSize <= size' == 8 * chunks[start].len < minSize + MINIMUM_SIZE
    {
      hide Tagged, Tiled, MakeTag, Listed, Linked, Coalesced, LeftClosed, RightClosed, BusyPart, Split, BusyKept;
      ghost var ch, mem := chunks, data[..];
      BusyKeptSelf(mem, ch);
      size' := size;
      var leftover := size - minSize;
      if leftover >= MINIMUM_SIZE {
        ghost var len := minSize / 8;
        SplitKeeps(mem, freeHead[..], ch, lists, base, start, len);
        SplitClosed(ch, data.Length, start, len);
        chunks := Split(ch, start, len);
        InsertFreeChunk(start + minSize / 8, leftover);
        BusyKeptTrans(mem, mem, data[..], ch, Split(ch, start, len));
        size' := minSize;
      }
    }

    /** Writes the occupied tags and the item's size. */
    method MarkOccupied(start: nat, size: nat, itemSize: nat)
      requires Consistent() && HeldAt(chunks, start) && size == 8 * chunks[start].len
      requires 1 <= itemSize && ChunkSize(itemSize) <= size
      modifies this, data
      ensures Consistent() && chunks == Marked(old(chunks), start, Busy)
      ensures ItemFits(data[..], chunks[start], start) && data[start + 1] == itemSize
      ensures BusyKept(old(data[..]), data[..], old(chunks))
    {
      hide Tagged, Tiled, MakeTag, Listed, Linked;
      ghost var mem := data[..];
      InArena(chunks, data.Length, start);
      ghost var e := End(chunks, start);
      data[start + size / 8 - 1] := MakeTag(size, 1);
      data[start] := MakeTag(size, 1);
      data[start + 1] := itemSize;
      forall t, w | t in chunks && chunks[t].use.Busy? && t <= w < End(chunks, t) && w < data.Length
        ensures data[w] == mem[w]
      {
        ChunksApart(chunks, data.Length, start, t);
      }
      UseKeeps(mem, data[..], freeHead[..], chunks, lists, base, start, Busy);
      chunks := Marked(chunks, start, Busy);
    }

    /** Reserves a chunk for an item, or reports that no run of free bytes is long enough. */
    method Allocate(itemSize: nat) returns (offset: U64)
      requires Valid() && 1 <= itemSize && ChunkSize(itemSize) <= MAXIMUM_SIZE
      modifies this, data, freeHead
      ensures Valid()
      ensures offset == INSUFFICIENT_SPACE <==>
              !HasFreeRun(old(chunks), data.Length, (itemSize + 7) / 8 + 3)
      ensures offset == INSUFFICIENT_SPACE ==>
                chunks == old(chunks) && data[..] == old(data[..]) && Items() == old(Items())
      ensures offset != INSUFFICIENT_SPACE ==>
                && offset % 8 == 0 && 8 <= offset
                && var s := offset / 8 - 1;
                && s in old(chunks) && old(chunks)[s].use.Free?
                && s in chunks && chunks[s].use.Busy?
                && (itemSize + 7) / 8 + 3 <= chunks[s].len < (itemSize + 7) / 8 + 3 + MINIMUM_SIZE / 8
                && BusyPart(chunks) == BusyPart(old(chunks))[s := chunks[s]]
                && BusyKept(old(data[..]), data[..], old(chunks))
                && s !in old(Items()) && s in Items() && Items() == old(Items())[s := Items()[s]]
                  && Items()[s].size == itemSize
    {
      hide Tiled, Coalesced, LeftClosed, RightClosed, BusyPart, BusyKept, HasFreeRun, HasFreeChunk, Inv, ItemsFit,
        ItemsOf;
      ghost var ch, mem, n := chunks, data[..], data.Length;
      var minSize := ChunkSize(itemSize);
      ChunkWords(itemSize);
      InvTiled(mem, freeHead[..], ch, lists, base);
      FreeRunIffChunk(ch, n, minSize);
      var ok, start, size := RemoveFromHead(minSize);
      if !ok {
        return INSUFFICIENT_SPACE;
      }
      ghost var ch1, mem1 := chunks, data[..];
      TakenKeeps(ch, n, start, start);
      size := SplitLeftover(start, size, minSize);
      ghost var ch2, mem2 := chunks, data[..];
      MarkOccupied(start, size, itemSize);
      BusyKeptTrans(mem, mem1, mem2, ch, ch1);
      BusyKeptTrans(mem, mem2, data[..], ch, ch2);
      AllocatedSettles(mem, data[..], ch, ch2, n, start);
      InvTiled(data[..], freeHead[..], chunks, lists, base);
      InArena(chunks, n, start);
      AllocatedItems(mem, data[..], ch, chunks, start);
      return 8 * (start + 1);
    }

    /** Returns a live chunk to the free lists, merged with its free neighbours. */
    method Release(offset: nat)
      requires Valid() && offset % 8 == 0 && 8 <= offset && offset / 8 - 1 in Items()
      modifies this, data, freeHead
      ensures Valid()
      ensures BusyPart(chunks) == BusyPart(old(chunks)) - {offset / 8 - 1}
      ensures BusyKept(old(data[..]), data[..], chunks)
      ensures Items() == old(Items()) - {offset / 8 - 1}
    {
      hide Tiled, Coalesced, LeftClosed, RightClosed, BusyPart, BusyKept, Inv, ItemsFit, ItemsOf, Tagged, MakeTag,
        Listed, Linked;
      ghost var ch, mem, n := chunks, data[..], data.Length;
      ItemWords(mem, ch, offset / 8 - 1);
      var start := (offset - 8) / 8;
      InvTiled(mem, freeHead[..], ch, lists, base);
      TagWords(mem, freeHead[..], ch, lists, base, start);
      var size := TagSize(data[start]);
      HeldKeeps(mem, freeHead[..], ch, lists, base, start);
      chunks := Marked(ch, start, Held);
      HeldSettled(ch, n, start);
      ghost var ch1 := chunks;
      start, size := CoalesceLeft(start, size);
      ghost var ch2, mem2 := chunks, data[..];
      size := CoalesceRight(start, size);
      ghost var ch3, mem3 := chunks, data[..];
      InvTiled(mem3, freeHead[..], ch3, lists, base);
      InsertFreeChunk(start, size);
      BusyKeptTrans(mem, mem2, mem3, ch1, ch2);
      BusyKeptTrans(mem, mem3, data[..], ch1, ch3);
      FreedSettles(ch3, n, start);
      BusyKeptTo(mem, data[..], ch1, chunks);
      InvTiled(data[..], freeHead[..], chunks, lists, base);
      ReleasedItems(mem, data[..], ch, chunks, offset / 8 - 1);
    }

    /** The live items: for each live chunk, the stored item size and the words that may hold the item. */
    ghost function Items(): map<nat, Stored>
      reads this, data
    {
      ItemsOf(data[..], chunks)
    }

    /** Every item has room for its rounded-up size. */
    lemma Roomy(s: nat)
      requires Valid() && s in Items()
      ensures RoundUp8(Items()[s].size) <= 8 * |Items()[s].words| && 8 * (s + 1) <= MAXIMUM_SIZE
    {
      hide ItemsOf, Inv, ItemsFit;
      InvTiled(data[..], freeHead[..], chunks, lists, base);
      ItemWords(data[..], chunks, s);
      ItemRoom(data[..], chunks, data.Length, s);
    }

    /** The size given when the item was allocated; it lives in the first word after the front tag. */
    method GetItemSize(offset: nat) returns (size: nat)
      requires Valid() && offset % 8 == 0 && 8 <= offset && offset / 8 - 1 in Items()
      ensures size == Items()[offset / 8 - 1].size
    {
      hide Tiled, Tagged, Linked, Listed, Inv, ItemsFit, TagSize;
      size := TagSize(data[offset / 8]);
    }

    /** Reads the i-th word of an item. */
    method ReadWord(offset: nat, i: nat) returns (w: U64)
      requires Valid() && offset % 8 == 0 && 8 <= offset && offset / 8 - 1 in Items()
      requires i < |Items()[offset / 8 - 1].words|
      ensures w == Items()[offset / 8 - 1].words[i]
    {
      hide ItemsOf, Tiled, Tagged, Linked, Listed;
      ItemWords(data[..], chunks, offset / 8 - 1);
      w := data[offset / 8 + 1 + i];
    }

    /** Writes the i-th word of an item and nothing else. */
    method WriteWord(offset: nat, i: nat, w: U64)
      requires Valid() && offset % 8 == 0 && 8 <= offset && offset / 8 - 1 in Items()
      requires i < |Items()[offset / 8 - 1].words|
      modifies data
      ensures Valid()
      ensures var s := offset / 8 - 1;
              Items() == old(Items())[s := Stored(old(Items())[s].size, old(Items())[s].words[i := w])]
    {
      hide ItemsOf, Tiled, Tagged, Linked, Listed, ItemsFit, Inv;
      ghost var mem, s := data[..], offset / 8 - 1;
      InvTiled(mem, freeHead[..], chunks, lists, base);
      ItemWords(mem, chunks, s);
      data[offset / 8 + 1 + i] := w;
      WordWritten(mem, data[..], freeHead[..], chunks, lists, base, s, i, w);
    }
  }

  datatype Stored = Stored(size: nat, words: seq<U64>)

  ghost function ItemsOf(mem: Memory, ch: Tiling): map<nat, Stored> {
    map s | s in ch && ch[s].use.Busy? && s + 4 <= End(ch, s) <= |mem| ::
      Stored(TagSize(mem[s + 1]), mem[s + 2..End(ch, s) - 1])
  }

  /** Every live chunk holds an item with room for its rounded-up size. */
  lemma ItemRoom(mem: Memory, ch: Tiling, n: nat, s: nat)
    requires n == |mem| && Tiled(ch, n) && ItemsFit(mem, ch) && s in ch && ch[s].use.Busy? && 8 * n <= MAXIMUM_SIZE
    ensures s in ItemsOf(mem, ch)
    ensures ItemsOf(mem, ch)[s].size == mem[s + 1]
    ensures RoundUp8(ItemsOf(mem, ch)[s].size) <= 8 * |ItemsOf(mem, ch)[s].words|
  {
    hide Tiled, ItemsOf;
    InArena(ch, n, s);
    SizeWord(mem, ch, s);
    ItemWords(mem, ch, s);
  }

  lemma ItemWords(mem: Memory, ch: Tiling, s: nat)
    requires s in ItemsOf(mem, ch)
    ensures s in ch && ch[s].use.Busy? && s + 4 <= End(ch, s) <= |mem|
    ensures ItemsOf(mem, ch)[s].words == mem[s + 2..End(ch, s) - 1] && |ItemsOf(mem, ch)[s].words| == ch[s].len - 3
  {
  }

  /** A write inside the item words of a live chunk disturbs no tag, no link and no other item. */
  lemma WordWritten(mem: Memory, mem': Memory, heads: seq<U64>, ch: Tiling, lists: Lists, base: nat, s: nat, i: nat,
                    w: U64)
    requires Inv(mem, heads, ch, lists, base) && ItemsFit(mem, ch) && s in ItemsOf(mem, ch)
    requires i < |ItemsOf(mem, ch)[s].words| && s + 2 + i < |mem| && mem' == mem[s + 2 + i := w]
    ensures Inv(mem', heads, ch, lists, base) && ItemsFit(mem', ch)
    ensures var item := ItemsOf(mem, ch)[s];
            ItemsOf(mem', ch) == ItemsOf(mem, ch)[s := Stored(item.size, item.words[i := w])]
  {
    hide ItemsOf, Tiled, Tagged, Linked, Listed, Inv, MakeTag;
    ItemWords(mem, ch, s);
    InvTiled(mem, heads, ch, lists, base);
    InvTagged(mem, heads, ch, lists, base, s);
    UseKeeps(mem, mem', heads, ch, lists, base, s, Busy);
    assert Marked(ch, s, Busy) == ch;
    ItemKeys(mem, ch);
    ItemKeys(mem', ch);
    forall t | t in ItemsOf(mem, ch)
      ensures t in ItemsOf(mem', ch)
      ensures t != s ==> ItemsOf(mem', ch)[t] == ItemsOf(mem, ch)[t]
      ensures ItemFits(mem', ch[t], t)
    {
      assert t in ItemsOf(mem', ch).Keys;
      OtherItem(mem, mem', ch, s, i, w, t);
    }
    forall t | t in ch && ch[t].use.Busy?
      ensures t in BusyPart(ch).Keys
    {
    }
    ThisItem(mem, mem', ch, s, i, w);
  }

  lemma InvTagged(mem: Memory, heads: seq<U64>, ch: Tiling, lists: Lists, base: nat, s: nat)
    requires Inv(mem, heads, ch, lists, base) && s in ch
    ensures TaggedAt(mem, ch[s], s)
  {
  }

  lemma OtherItem(mem: Memory, mem': Memory, ch: Tiling, s: nat, i: nat, w: U64, t: nat)
    requires Tiled(ch, |mem|) && s in ch && t in ItemsOf(mem, ch) && t in ItemsOf(mem', ch) && ItemsFit(mem, ch)
    requires i + 3 < ch[s].len && s + 2 + i < |mem| && mem' == mem[s + 2 + i := w]
    ensures t != s ==> ItemsOf(mem', ch)[t] == ItemsOf(mem, ch)[t]
    ensures ItemFits(mem', ch[t], t)
  {
    hide Tiled;
    ItemWords(mem, ch, t);
    ItemWords(mem', ch, t);
    assert ItemFits(mem, ch[t], t);
    if t != s { ChunksApart(ch, |mem|, s, t); }
  }

  lemma ThisItem(mem: Memory, mem': Memory, ch: Tiling, s: nat, i: nat, w: U64)
    requires Tiled(ch, |mem|) && s in ItemsOf(mem, ch) && s in ItemsOf(mem', ch)
    requires i < |ItemsOf(mem, ch)[s].words| && s + 2 + i < |mem| && mem' == mem[s + 2 + i := w]
    ensures var item := ItemsOf(mem, ch)[s];
            ItemsOf(mem', ch)[s] == Stored(item.size, item.words[i := w])
  {
    hide Tiled;
    ItemWords(mem, ch, s);
    ItemWords(mem', ch, s);
    var e := End(ch, s);
    assert mem'[s + 2..e - 1] == mem[s + 2..e - 1][i := w];
  }

  /** The items are those of the live chunks. */
  lemma ItemKeys(mem: Memory, ch: Tiling)
    requires Tiled(ch, |mem|)
    ensures ItemsOf(mem, ch).Keys == BusyPart(ch).Keys
  {
    forall s | s in ch
      ensures s + 4 <= End(ch, s) <= |mem|
    {
      InArena(ch, |mem|, s);
    }
  }

  lemma ItemSame(mem: Memory, mem': Memory, ch: Tiling, ch': Tiling, kept: Tiling, s: nat)
    requires BusyKept(mem, mem', kept) && s in kept && s in ch && s in ch' && ch[s] == ch'[s] == kept[s]
    requires s in ItemsOf(mem, ch) && s in ItemsOf(mem', ch')
    ensures ItemsOf(mem, ch)[s] == ItemsOf(mem', ch')[s]
  {
    var e := End(kept, s);
    assert mem[s + 1] == mem'[s + 1];
    assert mem[s + 2..e - 1] == mem'[s + 2..e - 1];
  }

  lemma AllocatedItems(mem: Memory, mem': Memory, ch: Tiling, ch': Tiling, s: nat)
    requires Tiled(ch, |mem|) && Tiled(ch', |mem|) && s in ch' && s in ch && ch[s].use.Free?
    requires BusyKept(mem, mem', ch) && BusyPart(ch') == BusyPart(ch)[s := ch'[s]] && ch'[s].use.Busy?
    requires ItemFits(mem', ch'[s], s) && 8 * |mem| <= MAXIMUM_SIZE
    ensures s in ItemsOf(mem', ch') && ItemsOf(mem', ch')[s].size == mem'[s + 1] && s !in ItemsOf(mem, ch)
    ensures ItemsOf(mem', ch') == ItemsOf(mem, ch)[s := ItemsOf(mem', ch')[s]]
  {
    hide Tiled, BusyKept, ItemsOf;
    ItemKeys(mem, ch);
    assert |mem'| == |mem| by { BusyKeptSize(mem, mem', ch); }
    ItemKeys(mem', ch');
    InArena(ch', |mem|, s);
    SizeWord(mem', ch', s);
    assert s in BusyPart(ch').Keys && s !in BusyPart(ch).Keys;
    forall t | t in ItemsOf(mem, ch)
      ensures t in ItemsOf(mem', ch') && ItemsOf(mem', ch')[t] == ItemsOf(mem, ch)[t]
    {
      assert t in BusyPart(ch').Keys && BusyPart(ch')[t] == BusyPart(ch)[t];
      ItemSame(mem, mem', ch, ch', ch, t);
    }
  }

  lemma SizeWord(mem: Memory, ch: Tiling, s: nat)
    requires s in ch && s + 4 <= End(ch, s) <= |mem| && ItemFits(mem, ch[s], s) && ch[s].use.Busy?
    requires 8 * |mem| <= MAXIMUM_SIZE
    ensures s in ItemsOf(mem, ch) && ItemsOf(mem, ch)[s].size == mem[s + 1]
  {
  }

  lemma ReleasedItems(mem: Memory, mem': Memory, ch: Tiling, ch': Tiling, s: nat)
    requires Tiled(ch, |mem|) && Tiled(ch', |mem|) && BusyKept(mem, mem', ch')
    requires BusyPart(ch') == BusyPart(ch) - {s} && ItemsFit(mem, ch)
    ensures ItemsOf(mem', ch') == ItemsOf(mem, ch) - {s}
    ensures ItemsFit(mem', ch')
  {
    hide Tiled, BusyKept, ItemsOf, ItemFits;
    ItemKeys(mem, ch);
    assert |mem'| == |mem| by { BusyKeptSize(mem, mem', ch'); }
    ItemKeys(mem', ch');
    forall t | t in BusyPart(ch')
      ensures t in ItemsOf(mem', ch') && ItemsOf(mem', ch')[t] == ItemsOf(mem, ch)[t] && ItemFits(mem', ch'[t], t)
    {
      assert t in ItemsOf(mem', ch').Keys && t in BusyPart(ch).Keys && BusyPart(ch')[t] == BusyPart(ch)[t];
      ItemSame(mem, mem', ch, ch', ch', t);
      InArena(ch', |mem|, t);
      FitsKept(mem, mem', ch', t);
    }
    forall t | t in ItemsOf(mem', ch').Keys
      ensures t in BusyPart(ch').Keys
    {
    }
  }

  lemma FitsKept(mem: Memory, mem': Memory, ch: Tiling, s: nat)
    requires BusyKept(mem, mem', ch) && s in ch && ch[s].use.Busy? && s + 4 <= End(ch, s) <= |mem|
    requires ItemFits(mem, ch[s], s)
    ensures ItemFits(mem', ch[s], s)
  {
    assert mem'[s + 1] == mem[s + 1];
  }

  lemma BusyKeptSize(mem: Memory, mem': Memory, ch: Tiling)
    requires BusyKept(mem, mem', ch)
    ensures |mem| == |mem'|
  {
  }

  lemma BusyKeptTo(mem: Memory, mem': Memory, ch: Tiling, ch': Tiling)
    requires BusyKept(mem, mem', ch) && BusyPart(ch') == BusyPart(ch)
    ensures BusyKept(mem, mem', ch')
  {
    forall s, w | s in ch' && ch'[s].use.Busy? && s <= w < End(ch', s) && w < |mem'|
      ensures mem'[w] == mem[w]
    {
      assert s in BusyPart(ch').Keys && BusyPart(ch')[s] == BusyPart(ch)[s];
      assert s in ch && End(ch, s) == End(ch', s);
    }
  }

  /** Taking a live chunk back drops its tags; nothing need be written. */
  lemma HeldKeeps(mem: Memory, heads: seq<U64>, ch: Tiling, lists: Lists, base: nat, s: nat)
    requires Inv(mem, heads, ch, lists, base) && s in ch && ch[s].use.Busy?
    ensures Inv(mem, heads, Marked(ch, s, Held), lists, base)
  {
    hide Tiled, MakeTag, Listed, Linked;
    InArena(ch, |mem|, s);
    UseKeeps(mem, mem, heads, ch, lists, base, s, Held);
  }

  lemma HeldSettled(ch: Tiling, n: nat, s: nat)
    requires Tiled(ch, n) && Settled(ch) && Coalesced(ch) && s in ch && ch[s].use.Busy?
    ensures HeldAt(Marked(ch, s, Held), s) && Coalesced(Marked(ch, s, Held))
    ensures BusyPart(Marked(ch, s, Held)) == BusyPart(ch) - {s}
  {
    var ch' := Marked(ch, s, Held);
    forall u | u in ch' && ch'[u].use.Free? && End(ch', u) in ch'
      ensures !ch'[End(ch', u)].use.Free?
    {
      assert End(ch, u) == End(ch', u);
    }
  }

  /** Freeing a held chunk between live neighbours settles the arena. */
  lemma FreedSettles(ch: Tiling, n: nat, s: nat)
    requires Tiled(ch, n) && Coalesced(ch) && HeldAt(ch, s) && LeftClosed(ch, s) && RightClosed(ch, s)
    ensures var ch' := Marked(ch, s, Free);
            Settled(ch') && Coalesced(ch') && BusyPart(ch') == BusyPart(ch)
  {
    InArena(ch, n, s);
    hide Tiled;
    var ch' := Marked(ch, s, Free);
    forall u | u in ch' && ch'[u].use.Free? && End(ch', u) in ch'
      ensures !ch'[End(ch', u)].use.Free?
    {
      assert End(ch, u) == End(ch', u);
    }
  }

  // ---------- What whole calls keep ----------

  /** Releasing an item right after allocating it restores the tiling, whatever was split and merged. */
  lemma ReleaseUndoesAllocate(before: Tiling, during: Tiling, after: Tiling, n: nat, s: nat)
    requires Tiled(before, n) && Coalesced(before) && Settled(before)
    requires Tiled(after, n) && Coalesced(after) && Settled(after)
    requires s in before && before[s].use.Free? && s in during
    requires BusyPart(during) == BusyPart(before)[s := during[s]] && BusyPart(after) == BusyPart(during) - {s}
    ensures after == before
  {
    assert s !in BusyPart(before);
    TilingDeterminedByLive(before, after, n);
  }

  /** An allocation and the release of what it gave: chunk for chunk the arena is as before. */
  method AllocateThenRelease(pool: Pool, itemSize: nat) returns (ok: bool)
    requires pool.Valid() && 1 <= itemSize && Pool.ChunkSize(itemSize) <= MAXIMUM_SIZE
    modifies pool, pool.data, pool.freeHead
    ensures pool.Valid() && pool.chunks == old(pool.chunks)
    ensures ok <==> HasFreeRun(old(pool.chunks), pool.data.Length, (itemSize + 7) / 8 + 3)
    ensures forall s :: s in pool.Items() <==> s in old(pool.Items())
    ensures BusyKept(old(pool.data[..]), pool.data[..], old(pool.chunks))
  {
    hide Tiled, Coalesced, Settled, BusyPart, BusyKept, HasFreeRun, Inv, ItemsFit, ItemsOf, Pool.ChunkSize;
    ghost var before, mem := pool.chunks, pool.data[..];
    InvTiled(mem, pool.freeHead[..], before, pool.lists, pool.base);
    BusyKeptSelf(mem, before);
    var offset := pool.Allocate(itemSize);
    ok := offset != INSUFFICIENT_SPACE;
    if ok {
      ghost var during, mem1 := pool.chunks, pool.data[..];
      pool.Release(offset);
      InvTiled(pool.data[..], pool.freeHead[..], pool.chunks, pool.lists, pool.base);
      ReleaseUndoesAllocate(before, during, pool.chunks, |mem|, offset / 8 - 1);
      BusyKeptTrans(mem, mem1, pool.data[..], before, pool.chunks);
    }
  }

  lemma InvHeads(mem: Memory, heads: seq<U64>, ch: Tiling, lists: Lists, base: nat)
    requires Inv(mem, heads, ch, lists, base)
    ensures |heads| == NUM_CLASSES
  {
  }

  lemma EmptyArena(mem: Memory, heads: seq<U64>, base: nat)
    requires ArenaOk(base, |mem|) && |heads| == NUM_CLASSES && forall c | 0 <= c < NUM_CLASSES :: heads[c] == 0
    ensures Inv(mem, heads, map[0 := Chunk(|mem|, Held)], seq(NUM_CLASSES, _ => []), base)
  {
  }

  lemma NothingLive(mem: Memory, n: nat)
    ensures var ch := map[0 := Chunk(n, Free)];
            Settled(ch) && (0 < n ==> Coalesced(ch)) && ItemsFit(mem, ch) && ItemsOf(mem, ch) == map[]
  {
  }

  lemma InvTiled(mem: Memory, heads: seq<U64>, ch: Tiling, lists: Lists, base: nat)
    requires Inv(mem, heads, ch, lists, base)
    ensures Tiled(ch, |mem|) && ArenaOk(base, |mem|)
  {
  }

  lemma FreeRunIffChunk(ch: Tiling, n: nat, minSize: nat)
    requires Tiled(ch, n) && Coalesced(ch) && minSize % 8 == 0 && 8 <= minSize
    ensures HasFreeRun(ch, n, minSize / 8) <==> HasFreeChunk(ch, minSize)
  {
    hide Tiled, Coalesced, HasFreeRun;
    FreeRunIffFreeChunk(ch, n, minSize / 8);
  }

  lemma BusyKeptTrans(m0: Memory, m1: Memory, m2: Memory, ch0: Tiling, ch1: Tiling)
    requires BusyKept(m0, m1, ch0) && BusyKept(m1, m2, ch1) && BusyPart(ch0) == BusyPart(ch1)
    ensures BusyKept(m0, m2, ch0)
  {
    forall s, w | s in ch0 && ch0[s].use.Busy? && s <= w < End(ch0, s) && w < |m2|
      ensures m2[w] == m0[w]
    {
      assert s in BusyPart(ch0) && BusyPart(ch0)[s] == BusyPart(ch1)[s];
      assert s in ch1 && End(ch1, s) == End(ch0, s);
    }
  }

  lemma SplitClosed(ch: Tiling, n: nat, s: nat, len: nat)
    requires Tiled(ch, n) && Coalesced(ch) && HeldAt(ch, s) && LeftClosed(ch, s) && RightClosed(ch, s)
    requires 4 <= len && len + 4 <= ch[s].len
    ensures var ch' := Split(ch, s, len);
            && s + len in ch' && ch'[s + len] == Chunk(ch[s].len - len, Held) && BusyPart(ch') == BusyPart(ch)
            && ch'[s].len == len
            && var ch'' := Marked(ch', s + len, Free);
            && Coalesced(ch'') && HeldAt(ch'', s) && BusyPart(ch'') == BusyPart(ch) && ch''[s].len == len
  {
    SplitTiled(ch, n, s, len);
    hide Tiled;
    var ch' := Split(ch, s, len);
    var ch'' := Marked(ch', s + len, Free);
    assert End(ch', s + len) == End(ch, s);
    forall u | u in ch'' && ch''[u].use.Free? && End(ch'', u) in ch''
      ensures !ch''[End(ch'', u)].use.Free?
    {
      if u == s + len {
        assert End(ch'', u) == End(ch, s);
      } else {
        assert End(ch'', u) == End(ch, u);
        SplitMiddle(ch, n, s, len, u);
      }
    }
  }

  /** No chunk of the old tiling ends inside the split chunk. */
  lemma SplitMiddle(ch: Tiling, n: nat, s: nat, len: nat, u: nat)
    requires Tiled(ch, n) && s in ch && u in ch && u != s && 0 < len < ch[s].len
    ensures End(ch, u) != s + len
  {
    hide Tiled;
    ChunksApart(ch, n, s, u);
  }

  /** Once the held chunk becomes live the arena is settled again, with exactly one more live chunk. */
  lemma AllocatedSettles(mem: Memory, mem': Memory, ch: Tiling, ch2: Tiling, n: nat, s: nat)
    requires Coalesced(ch2) && HeldAt(ch2, s) && BusyPart(ch2) == BusyPart(ch)
    requires ItemsFit(mem, ch) && BusyKept(mem, mem', ch) && Tiled(ch, |mem|)
    requires var ch3 := Marked(ch2, s, Busy); ItemFits(mem', ch3[s], s)
    ensures var ch3 := Marked(ch2, s, Busy);
            && Settled(ch3) && Coalesced(ch3) && BusyPart(ch3) == BusyPart(ch)[s := ch3[s]] && ItemsFit(mem', ch3)
  {
    var ch3 := Marked(ch2, s, Busy);
    forall u | u in ch3 && ch3[u].use.Free? && End(ch3, u) in ch3
      ensures !ch3[End(ch3, u)].use.Free?
    {
      assert End(ch2, u) == End(ch3, u);
    }
    assert BusyPart(ch3) == BusyPart(ch2)[s := ch3[s]];
    forall u | u in ch3 && ch3[u].use.Busy?
      ensures ItemFits(mem', ch3[u], u)
    {
      if u != s {
        assert u in BusyPart(ch) && ch[u] == ch3[u] && ItemFits(mem, ch[u], u);
        assert u + 4 <= End(ch, u) <= |mem| && mem'[u + 1] == mem[u + 1];
      }
    }
  }

  ghost predicate ItemsFit(mem: Memory, ch: Tiling) {
    forall s | s in ch && ch[s].use.Busy? :: ItemFits(mem, ch[s], s)
  }

  ghost predicate ItemFits(mem: Memory, chunk: Chunk, s: nat) {
    s + 1 < |mem| && 1 <= mem[s + 1] && Pool.ChunkSize(mem[s + 1]) <= 8 * chunk.len
  }

  /** Exactly the chunk at s is held. */
  ghost predicate HeldAt(ch: Tiling, s: nat) {
    s in ch && forall t | t in ch :: ch[t].use.Held? <==> t == s
  }

  lemma BusyKeptSelf(mem: Memory, ch: Tiling)
    ensures BusyKept(mem, mem, ch)
  {
  }

  lemma FirstLeftClosed(ch: Tiling, n: nat)
    requires Tiled(ch, n)
    ensures LeftClosed(ch, 0)
  {
  }

  lemma LastRightClosed(ch: Tiling, n: nat, s: nat)
    requires Tiled(ch, n) && s in ch && End(ch, s) == n
    ensures RightClosed(ch, s)
  {
    if n in ch { InArena(ch, n, n); }
  }

  lemma BusyLeftClosed(ch: Tiling, n: nat, left: nat, s: nat)
    requires Tiled(ch, n) && left in ch && s in ch && End(ch, left) == s && !ch[left].use.Free?
    ensures LeftClosed(ch, s)
  {
    forall t | t in ch && End(ch, t) == s
      ensures t == left
    {
      hide Tiled;
      InArena(ch, n, t);
      InArena(ch, n, left);
      if t != left { ChunksApart(ch, n, t, left); }
    }
  }

  /** What the two tag words of a chunk that is not held say. */
  lemma TagWords(mem: Memory, heads: seq<U64>, ch: Tiling, lists: Lists, base: nat, s: nat)
    requires Inv(mem, heads, ch, lists, base) && s in ch && !ch[s].use.Held?
    ensures s + 4 <= End(ch, s) <= |mem|
    ensures TagSize(mem[s]) == TagSize(mem[End(ch, s) - 1]) == 8 * ch[s].len
    ensures TagStatus(mem[s]) == TagStatus(mem[End(ch, s) - 1]) == if ch[s].use.Busy? then 1 else 0
  {
    hide Tiled;
    InArena(ch, |mem|, s);
    assert TaggedAt(mem, ch[s], s);
  }

  /** Merging the held chunk at s with a held neighbour at t moves the end of no other chunk, and none ended at t. */
  lemma MergedOthers(ch: Tiling, n: nat, s: nat, t: nat)
    requires Tiled(ch, n) && s in ch && t in ch && s < t && End(ch, s) == t
    ensures forall u {:trigger End(Merged(ch, s, t), u)} | u in Merged(ch, s, t) && u != s ::
              End(Merged(ch, s, t), u) == End(ch, u) && End(ch, u) != t
  {
    forall u | u in Merged(ch, s, t) && u != s
      ensures End(Merged(ch, s, t), u) == End(ch, u) && End(ch, u) != t
    {
      hide Tiled;
      ChunksApart(ch, n, u, s);
      InArena(ch, n, u);
    }
  }

  /** Merging two held neighbours leaves the free neighbours as they were. */
  lemma MergedCoalesced(ch: Tiling, n: nat, s: nat, t: nat)
    requires Tiled(ch, n) && s in ch && t in ch && s < t && End(ch, s) == t && ch[s].use.Held? && ch[t].use.Held?
    ensures var ch' := Merged(ch, s, t);
            && (Coalesced(ch) ==> Coalesced(ch')) && (LeftClosed(ch, s) ==> LeftClosed(ch', s))
            && (RightClosed(ch, t) ==> RightClosed(ch', s))
            && ch'[s].len == ch[s].len + ch[t].len
            && ((forall u | u in ch :: ch[u].use.Held? <==> u == s || u == t) ==> HeldAt(ch', s))
  {
    MergedOthers(ch, n, s, t);
    InArena(ch, n, t);
    hide Tiled;
    var ch' := Merged(ch, s, t);
    assert End(ch', s) == End(ch, t);
  }

  lemma TakenCoalesced(ch: Tiling, n: nat, s: nat)
    requires Tiled(ch, n) && Coalesced(ch) && s in ch && ch[s].use.Free?
    ensures Coalesced(Marked(ch, s, Held)) && BusyPart(Marked(ch, s, Held)) == BusyPart(ch)
  {
    MarkedTiled(ch, n, s, Held);
    hide Tiled;
    var ch' := Marked(ch, s, Held);
    forall u | u in ch' && ch'[u].use.Free? && End(ch', u) in ch'
      ensures !ch'[End(ch', u)].use.Free?
    {
      assert End(ch, u) == End(ch', u);
    }
  }

  /** A chunk taken off its free list has no free neighbour left, and every other fact about neighbours stays. */
  lemma TakenKeeps(ch: Tiling, n: nat, s: nat, t: nat)
    requires Tiled(ch, n) && Coalesced(ch) && s in ch && ch[s].use.Free? && t in ch
    ensures var ch' := Marked(ch, s, Held);
            && Coalesced(ch') && LeftClosed(ch', s) && RightClosed(ch', s) && BusyPart(ch') == BusyPart(ch)
            && (LeftClosed(ch, t) ==> LeftClosed(ch', t))
  {
    MarkedTiled(ch, n, s, Held);
    TakenCoalesced(ch, n, s);
    hide Tiled, BusyPart;
    var ch' := Marked(ch, s, Held);
    assert RightClosed(ch', s) by { assert End(ch', s) == End(ch, s); }
    forall u | u in ch' && ch'[u].use.Free?
      ensures End(ch', u) == End(ch, u) && End(ch', u) != s
    {
      assert End(ch, u) == End(ch', u);
    }
  }

  lemma MergeLeft(ch: Tiling, n: nat, left: nat, s: nat)
    requires Tiled(ch, n) && Coalesced(ch) && HeldAt(ch, s)
    requires left in ch && ch[left].use.Free? && End(ch, left) == s
    ensures left < s
    ensures var ch' := Merged(Marked(ch, left, Held), left, s);
            && Coalesced(ch') && HeldAt(ch', left) && LeftClosed(ch', left) && BusyPart(ch') == BusyPart(ch)
            && ch'[left].len == ch[left].len + ch[s].len
  {
    InArena(ch, n, left);
    MarkedTiled(ch, n, left, Held);
    TakenKeeps(ch, n, left, s);
    hide Tiled, Merged, Coalesced, LeftClosed, RightClosed, BusyPart;
    var ch1 := Marked(ch, left, Held);
    MergedCoalesced(ch1, n, left, s);
    MergedTiled(ch1, n, left, s);
  }

  lemma MergeRight(ch: Tiling, n: nat, s: nat, right: nat)
    requires Tiled(ch, n) && Coalesced(ch) && HeldAt(ch, s)
    requires right in ch && ch[right].use.Free? && End(ch, s) == right
    ensures s < right
    ensures var ch' := Merged(Marked(ch, right, Held), s, right);
            && Coalesced(ch') && HeldAt(ch', s) && RightClosed(ch', s) && BusyPart(ch') == BusyPart(ch)
            && (LeftClosed(ch, s) ==> LeftClosed(ch', s))
            && ch'[s].len == ch[s].len + ch[right].len
  {
    InArena(ch, n, s);
    MarkedTiled(ch, n, right, Held);
    TakenKeeps(ch, n, right, s);
    hide Tiled, Merged, Coalesced, LeftClosed, RightClosed, BusyPart;
    var ch1 := Marked(ch, right, Held);
    MergedCoalesced(ch1, n, s, right);
    MergedTiled(ch1, n, s, right);
  }

  ghost predicate HasFreeChunk(ch: Tiling, minSize: nat) {
    exists s :: s in ch && ch[s].use.Free? && minSize <= 8 * ch[s].len
  }

  lemma LargeEnough(ch: Tiling, s: nat, minSize: nat)
    requires s in ch && ch[s].use.Free? && minSize <= 8 * ch[s].len
    ensures HasFreeChunk(ch, minSize)
  {
  }

  lemma HeadMeans(heads: seq<U64>, lists: Lists, base: nat, mem: Memory, c: nat)
    requires |heads| == NUM_CLASSES && Linked(mem, heads, lists, base) && c < NUM_CLASSES && 0 < base
    ensures |lists| == NUM_CLASSES
    ensures heads[c] == HeadLink(base, lists[c]) && (heads[c] == 0 <==> lists[c] == [])
  {
  }

  /** What the words of the k-th chunk of a list say. */
  lemma WhatListSays(mem: Memory, heads: seq<U64>, ch: Tiling, lists: Lists, base: nat, c: nat, k: nat)
    requires Inv(mem, heads, ch, lists, base) && c < NUM_CLASSES && k < |lists[c]|
    ensures var s := lists[c][k];
            && s in ch && ch[s].use.Free? && s + 4 <= |mem| && MINIMUM_SIZE <= 8 * ch[s].len <= MAXIMUM_SIZE
            && TagSize(mem[s]) == 8 * ch[s].len && TagStatus(mem[s]) == 0
            && mem[s + 2] == NextLink(base, lists[c], k)
            && ClassRoundDown(8 * ch[s].len) == c
  {
    hide Tiled, ClassRoundDown;
    var s := lists[c][k];
    ListedInClass(ch, lists, |mem|, c, k);
    InArena(ch, |mem|, s);
    assert TaggedAt(mem, ch[s], s) && LinkedAt(mem, lists[c], k, base);
  }

  /** When every class from the rounded-up one to c is empty or, at c, has only small chunks, none is large enough. */
  lemma NoneLargeEnough(mem: Memory, heads: seq<U64>, ch: Tiling, lists: Lists, base: nat, minSize: nat, c: nat)
    requires Inv(mem, heads, ch, lists, base) && MINIMUM_SIZE <= minSize <= MAXIMUM_SIZE && minSize % 8 == 0
    requires ClassRoundUp(minSize) <= c <= NUM_CLASSES
    requires forall d | ClassRoundUp(minSize) <= d < c :: lists[d] == []
    requires c < NUM_CLASSES ==> lists[c] != []
    requires c < NUM_CLASSES ==> forall i | 0 <= i < |lists[c]| ::
              lists[c][i] in ch && 8 * ch[lists[c][i]].len < minSize
    ensures !HasFreeChunk(ch, minSize)
  {
    hide Tiled, ClassRoundDown, ClassRoundUp, Tagged, Linked;
    if c < NUM_CLASSES {
      WhatListSays(mem, heads, ch, lists, base, c, 0);
      ClassesSeparateSizes(minSize, 8 * ch[lists[c][0]].len);
      assert c == NUM_CLASSES - 1;
    }
    forall s | s in ch && ch[s].use.Free?
      ensures 8 * ch[s].len < minSize
    {
      var d := ClassOf(ch, s, |mem|);
      assert s in lists[d];
      var e := End(ch, s);
      InArena(ch, |mem|, s);
      ClassesSeparateSizes(minSize, 8 * ch[s].len);
    }
  }

  /** The list position of a free chunk and what its links say. */
  lemma WhereListed(mem: Memory, heads: seq<U64>, ch: Tiling, lists: Lists, base: nat, s: nat) returns (c: nat, k: nat)
    requires Inv(mem, heads, ch, lists, base) && s in ch && ch[s].use.Free?
    ensures c < NUM_CLASSES == |lists| == |heads| && k < |lists[c]| && lists[c][k] == s
    ensures s + 4 <= End(ch, s) <= |mem| && 32 <= 8 * ch[s].len <= MAXIMUM_SIZE && c == ClassRoundDown(8 * ch[s].len)
    ensures mem[s + 1] == PrevLink(base, lists[c], k) && mem[s + 2] == NextLink(base, lists[c], k)
    ensures forall i | 0 <= i < |lists[c]| :: lists[c][i] + 4 <= |mem|
    ensures forall i, j | 0 <= i < j < |lists[c]| :: lists[c][i] + 4 <= lists[c][j] || lists[c][j] + 4 <= lists[c][i]
  {
    hide Tiled, ClassRoundDown, Tagged;
    var n := |mem|;
    InArena(ch, n, s);
    c := ClassOf(ch, s, n);
    k :| 0 <= k < |lists[c]| && lists[c][k] == s;
    assert LinkedAt(mem, lists[c], k, base);
    forall i | 0 <= i < |lists[c]|
      ensures lists[c][i] + 4 <= |mem|
    {
      ListedInClass(ch, lists, n, c, i);
      InArena(ch, n, lists[c][i]);
    }
    forall i, j | 0 <= i < j < |lists[c]|
      ensures lists[c][i] + 4 <= lists[c][j] || lists[c][j] + 4 <= lists[c][i]
    {
      CellsApart(ch, lists, n, c, i, c, j);
    }
  }

  /** What the head of a class list tells before an insertion. */
  lemma HeadListed(ch: Tiling, lists: Lists, n: nat, c: nat, heads: seq<U64>, mem: Memory, base: nat, s: nat)
    requires Inv(mem, heads, ch, lists, base) && n == |mem| && c < NUM_CLASSES && s in ch && ch[s].use.Held?
    ensures |lists| == |heads| == NUM_CLASSES
    ensures heads[c] == HeadLink(base, lists[c])
    ensures heads[c] != 0 <==> lists[c] != []
    ensures lists[c] != [] ==>
              && lists[c][0] in ch && End(ch, lists[c][0]) <= n && lists[c][0] + 4 <= n
              && heads[c] == Address(base, lists[c][0])
              && (lists[c][0] + 4 <= s || End(ch, s) <= lists[c][0])
  {
    if lists[c] != [] {
      ListedInClass(ch, lists, n, c, 0);
      InArena(ch, n, lists[c][0]);
      ChunksApart(ch, n, lists[c][0], s);
    }
  }
}
