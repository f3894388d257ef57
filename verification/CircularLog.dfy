/**
 The circular log: items are pushed at the tail of a power-of-two arena and the oldest ones are overwritten.  Head
 and tail count bytes since the start; offsets handed out keep only 48 bits.
 */
module CircularLog {
  import opened Words
  import opened Remainders
  import opened Powers

  const HEADER: int := 8
  const MIN_POOL: int := 0x20_0000
  const MAX_POOL: int := TWO_47 - 1 // kOffsetMask >> 1

  // ---------- Blocks ----------

  /** Every block ever pushed: its start and its length in bytes, header included. */
  type Blocks = map<nat, nat>

  function EndOf(bl: Blocks, o: nat): nat
    requires o in bl
  {
    o + bl[o]
  }

  /** The blocks follow one another up to the tail. */
  ghost predicate Tiles(bl: Blocks, tail: nat, size: nat) {
    && (forall o {:trigger EndOf(bl, o)} | o in bl ::
          && o % 8 == 0 && bl[o] % 8 == 0 && HEADER <= bl[o] && bl[o] + HEADER <= size
          && EndOf(bl, o) <= tail && (EndOf(bl, o) == tail || EndOf(bl, o) in bl))
    && (forall o, p {:trigger EndOf(bl, o), p in bl} | o in bl && p in bl && o < p :: EndOf(bl, o) <= p)
  }

  /** True bytes between an offset and the tail, when the offset is not older than the 48-bit horizon. */
  predicate Within(tail: nat, o: nat, size: nat) {
    o <= tail <= o + size
  }

  /** The 48-bit test of the pool. */
  predicate IsValid(tail: nat, offset: nat, size: nat) {
    (tail - offset) % TWO_48 <= size
  }

  /** The test sees the distance to the tail modulo 2^48. */
  lemma ValidityOfDistance(tail: nat, o: nat, size: nat)
    requires o <= tail
    ensures IsValid(tail, o % TWO_48, size) <==> (tail - o) % TWO_48 <= size
  {
    assert tail - o % TWO_48 == (tail - o) + o / TWO_48 * TWO_48;
    ModShift(tail - o, TWO_48, o / TWO_48);
  }

  /** So it is right exactly for offsets less than 2^48 bytes behind the tail and for those farther away whose distance
      does not pass for one within the log. */
  lemma ValidityRight(tail: nat, o: nat, size: nat)
    requires o <= tail && size < TWO_48
    ensures (IsValid(tail, o % TWO_48, size) <==> Within(tail, o, size)) <==>
            tail - o < TWO_48 || (tail - o) % TWO_48 > size
  {
    ValidityOfDistance(tail, o, size);
  }

  /** The arena is at least 2 MB, divides 2^48 and leaves half of the offset space for cleaning up. */
  ghost predicate Sized(words: nat, turns: nat)
    ensures Sized(words, turns) ==> 0x4_0000 <= words && 16 * words <= MAX_POOL + 1
  {
    0x4_0000 <= words && 0 < turns && 8 * words * turns == TWO_48 && 16 * words <= MAX_POOL + 1
  }

  /** The sizes that pools have are all right, up to the limit of the offset space. */
  lemma SizedPool(configured: nat) returns (turns: nat)
    requires PoolSize(configured, MIN_POOL) <= MAX_POOL
    ensures var size := PoolSize(configured, MIN_POOL); size % 8 == 0 && Sized(size / 8, turns)
  {
    hide Pow2, PoolSize;
    var k := PoolSizeIs(configured, MIN_POOL);
    var size := PoolSize(configured, MIN_POOL);
    Pow2Is47();
    Pow2Is21();
    Pow2Grows(47, k);
    Pow2Grows(k, 47);
    Pow2Grows(21, k);
    turns := Pow2(48 - k);
    SizeTurns(k);
    WholePagesWords(size);
    assert 8 * (size / 8) == size;
  }

  lemma SizeTurns(k: nat)
    requires k <= 47
    ensures Pow2(k) * Pow2(48 - k) == TWO_48
  {
    hide Pow2;
    Pow2Is47();
    Pow2Doubles(48);
    Pow2Adds(k, 48 - k);
  }

  /** The cell of the j-th word after an offset; the arena is mapped again behind its end. */
  function CellOf(o: nat, j: nat, words: nat): (c: nat)
    requires 0 < words
    ensures c < words
  {
    (o / 8 + j) % words
  }

  /** Masking an offset to 48 bits does not change the cells it names. */
  lemma MaskedCell(o: nat, j: nat, words: nat, turns: nat)
    requires Sized(words, turns) && o % 8 == 0
    ensures o % TWO_48 % 8 == 0 && CellOf(o % TWO_48, j, words) == CellOf(o, j, words)
  {
    ModMod(o, 8, words * turns);
    var q := o / TWO_48;
    assert q * (8 * words * turns) == 8 * (q * turns * words);
    assert o / 8 + j == o % TWO_48 / 8 + j + q * turns * words;
    ModShift(o % TWO_48 / 8 + j, words, q * turns);
  }

  /** The first word of every block that is still within the log is its length. */
  ghost predicate Headed(mem: seq<U64>, bl: Blocks, tail: nat) {
    0 < |mem| && forall o {:trigger bl[o]} | o in bl && Within(tail, o, 8 * |mem|) :: mem[CellOf(o, 0, |mem|)] == bl[o]
  }

  /** Cells of different true positions inside a window of `words` words differ. */
  lemma CellsApart(o: nat, i: nat, p: nat, j: nat, words: nat)
    requires 0 < words
    requires o / 8 + i != p / 8 + j && o / 8 + i < p / 8 + j + words && p / 8 + j < o / 8 + i + words
    ensures CellOf(o, i, words) != CellOf(p, j, words)
  {
    if o / 8 + i < p / 8 + j {
      WindowInjective(o / 8 + i, p / 8 + j, words);
    } else {
      WindowInjective(p / 8 + j, o / 8 + i, words);
    }
  }

  /** Pushing a block overwrites no header that stays within the log. */
  lemma PushedHeaded(mem: seq<U64>, bl: Blocks, tail: nat, length: U64)
    requires Headed(mem, bl, tail) && Tiles(bl, tail, 8 * |mem|)
    requires tail % 8 == 0 && length % 8 == 0 && HEADER <= length <= 8 * |mem|
    ensures Headed(mem[CellOf(tail, 0, |mem|) := length], bl[tail := length], tail + length)
  {
    forall o | o in bl && o != tail && Within(tail + length, o, 8 * |mem|)
      ensures Within(tail, o, 8 * |mem|) && CellOf(o, 0, |mem|) != CellOf(tail, 0, |mem|)
    {
      var e := EndOf(bl, o);
      CellsApart(o, 0, tail, 0, |mem|);
    }
  }

  // ---------- The log ----------

  class Log {
    const words: nat         // size_ / 8
    const data: array<U64>
    ghost const turns: nat   // 2^48 / size_: the size is a power of two
    var head: nat
    var tail: nat
    ghost var blocks: Blocks

    function Size(): nat {
      8 * words
    }

    ghost predicate Valid()
      reads this, data
    {
      && data.Length == words && Sized(words, turns)
      && head % 8 == 0 && tail % 8 == 0 && head <= tail <= head + Size()
      && Tiles(blocks, tail, Size())
      && (head == tail || head in blocks)
      && Headed(data[..], blocks, tail)
    }

    function Cell(o: nat, j: nat): (c: nat)
      requires 0 < words
      ensures c < words
    {
      CellOf(o, j, words)
    }

    constructor (configured: nat)
      requires PoolSize(configured, MIN_POOL) <= MAX_POOL
      ensures Valid() && tail == 0 && blocks == map[] && fresh(data) && Size() == PoolSize(configured, MIN_POOL)
    {
      hide Pow2, NextPowerOfTwo;
      ghost var t := SizedPool(configured);
      words, turns := PoolSize(configured, MIN_POOL) / 8, t;
      data := new U64[PoolSize(configured, MIN_POOL) / 8](_ => 0);
      head, tail := 0, 0;
      blocks := map[];
    }

    method Reset()
      requires Valid()
      modifies this
      ensures Valid() && tail == 0 && blocks == map[]
    {
      head, tail := 0, 0;
      blocks := map[];
    }

    /** Drops the oldest block; its header says how long it is. */
    method PopHead()
      requires Valid() && head != tail
      modifies this`head
      ensures Valid() && old(head) in blocks && old(head) < head == EndOf(blocks, old(head)) <= tail
    {
      hide CellOf, Sized;
      ghost var e := EndOf(blocks, head);
      assert Within(tail, head, Size());
      head := head + data[Cell(head, 0)];
    }

    /** Appends a block, dropping as many old ones as its bytes need. */
    method PushTail(length: U64) returns (offset: nat)
      requires Valid() && length % 8 == 0 && HEADER <= length && length + HEADER <= Size()
      modifies this, data
      ensures Valid() && offset == old(tail) % TWO_48
      ensures tail == old(tail) + length && blocks == old(blocks)[old(tail) := length]
      ensures data[..] == old(data[..])[Cell(old(tail), 0) := length]
      ensures old(tail) + HEADER + length <= old(head) + Size() ==> head == old(head)
    {
      hide Headed, Tiles, CellOf, Sized;
      ghost var mem := data[..];
      offset := tail;
      while offset + HEADER + length > head + Size()
        invariant Valid() && offset == tail == old(tail) && blocks == old(blocks) && data[..] == mem
        invariant old(tail) + HEADER + length <= old(head) + Size() ==> head == old(head)
        decreases tail - head
      {
        PopHead();
      }
      AppendBlock(length);
      offset := offset % TWO_48;
    }

    /** Writes the header of a new block at the tail, for which there is room. */
    method AppendBlock(length: U64)
      requires Valid() && length % 8 == 0 && HEADER <= length && length + HEADER <= Size()
      requires tail + HEADER + length <= head + Size()
      modifies this`tail, this`blocks, data
      ensures Valid() && tail == old(tail) + length && blocks == old(blocks)[old(tail) := length]
      ensures data[..] == old(data[..])[Cell(old(tail), 0) := length]
    {
      hide Headed, Tiles, CellOf, Sized;
      PushedHeaded(data[..], blocks, tail, length);
      TilesPushed(blocks, tail, Size(), length);
      ghost var mem := data[..];
      data[Cell(tail, 0)] := length;
      assert data[..] == mem[Cell(tail, 0) := length];
      blocks := blocks[tail := length];
      tail := tail + length;
    }
  }

  lemma BeforeTail(bl: Blocks, tail: nat, size: nat)
    requires Tiles(bl, tail, size)
    ensures forall o | o in bl :: o < tail
  {
    forall o | o in bl
      ensures o < tail
    {
      assert EndOf(bl, o) <= tail;
    }
  }

  lemma TilesPushed(bl: Blocks, tail: nat, size: nat, length: nat)
    requires Tiles(bl, tail, size) && tail % 8 == 0 && length % 8 == 0 && HEADER <= length && length + HEADER <= size
    ensures tail !in bl && Tiles(bl[tail := length], tail + length, size)
  {
    var bl' := bl[tail := length];
    BeforeTail(bl, tail, size);
    forall o | o in bl'
      ensures o % 8 == 0 && bl'[o] % 8 == 0 && HEADER <= bl'[o] && bl'[o] + HEADER <= size
      ensures EndOf(bl', o) <= tail + length && (EndOf(bl', o) == tail + length || EndOf(bl', o) in bl')
    {
      if o in bl { assert EndOf(bl, o) <= tail; }
    }
    forall o, p | o in bl' && p in bl' && o < p
      ensures EndOf(bl', o) <= p
    {
      if o in bl { assert EndOf(bl, o) <= tail; }
      if p in bl { assert EndOf(bl, p) <= tail; }
    }
  }
}
