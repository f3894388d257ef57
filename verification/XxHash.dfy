/**
 xxHash: the one-shot hashes and their streaming forms.  Input may be fed to a stream in any pieces; blocks that fill
 up are mixed into four lanes at once, the rest waits in a buffer.
 */
module XxHash {
  import opened Words
  import opened Remainders

  type Bytes = seq<bv8>

  datatype Lanes<W> = Lanes(v1: W, v2: W, v3: W, v4: W)

  // ---------- Blocks ----------

  /** Lanes after the whole blocks of `width` bytes, one step a block. */
  ghost function Blocks<W>(step: (Lanes<W>, Bytes) -> Lanes<W>, width: nat, v: Lanes<W>, s: Bytes): Lanes<W>
    requires 0 < width && |s| % width == 0
    decreases |s|
  {
    if |s| < width then v else
      OneBlockLess(|s|, width);
      step(Blocks(step, width, v, s[..|s| - width]), s[|s| - width..])
  }

  lemma OneBlockLess(n: nat, width: nat)
    requires 0 < width <= n && n % width == 0
    ensures (n - width) % width == 0
  {
    assert n == n / width * width;
    Multiple(n / width - 1, width);
  }

  /** Mixing in blocks one after the other is mixing in their concatenation. */
  lemma {:induction false} BlocksAppend<W>(step: (Lanes<W>, Bytes) -> Lanes<W>, width: nat, v: Lanes<W>, s: Bytes,
                                           t: Bytes)
    requires 0 < width && |s| % width == 0 && |t| % width == 0
    ensures (|s| + |t|) % width == 0
    ensures Blocks(step, width, Blocks(step, width, v, s), t) == Blocks(step, width, v, s + t)
    decreases |t|
  {
    assert |s| + |t| == (|s| / width + |t| / width) * width;
    Multiple(|s| / width + |t| / width, width);
    if |t| < width {
      assert s + t == s;
    } else {
      OneBlockLess(|t|, width);
      BlocksAppend(step, width, v, s, t[..|t| - width]);
      assert (s + t)[..|s| + |t| - width] == s + t[..|t| - width];
      assert (s + t)[|s| + |t| - width..] == t[|t| - width..];
    }
  }

  lemma OneBlock<W>(step: (Lanes<W>, Bytes) -> Lanes<W>, width: nat, v: Lanes<W>, s: Bytes)
    requires 0 < width == |s|
    ensures |s| % width == 0 && Blocks(step, width, v, s) == step(v, s)
  {
    assert s[..0] == [] && s[0..] == s;
  }

  lemma MixedMore<W>(step: (Lanes<W>, Bytes) -> Lanes<W>, width: nat, v: Lanes<W>, s: Bytes, b: Bytes)
    requires 0 < width == |b| && |s| % width == 0
    ensures (|s| + |b|) % width == 0 && Blocks(step, width, v, s + b) == step(Blocks(step, width, v, s), b)
  {
    OneBlock(step, width, Blocks(step, width, v, s), b);
    BlocksAppend(step, width, v, s, b);
  }

  lemma NoBlocks<W>(step: (Lanes<W>, Bytes) -> Lanes<W>, width: nat, v: Lanes<W>)
    requires 0 < width
    ensures Blocks(step, width, v, []) == v
  {
  }

  /** The bytes in whole blocks. */
  function Whole(n: nat, width: nat): (w: nat)
    requires 0 < width
    ensures w <= n < w + width && w % width == 0
  {
    Multiple(n / width, width);
    n / width * width
  }

  /** The bytes behind them. */
  function Rest(s: Bytes, width: nat): Bytes
    requires 0 < width
  {
    s[Whole(|s|, width)..]
  }

  lemma WholeOfLess(n: nat, width: nat)
    requires 0 < width
    ensures n < width ==> Whole(n, width) == 0
  {
    if n < width {
      WholeUnique(n, 0, width);
    }
  }

  lemma WholeUnique(n: nat, w: nat, width: nat)
    requires 0 < width && w <= n < w + width && w % width == 0
    ensures w == Whole(n, width)
  {
    assert w == w / width * width;
    ModUnique(n, width, w / width, n - w);
  }

  /** Mixes in the whole blocks of a string from position `from`. */
  method MixBlocks<W>(step: (Lanes<W>, Bytes) -> Lanes<W>, width: nat, v0: Lanes<W>, s: Bytes, from: nat)
    returns (v: Lanes<W>, p: nat)
    requires 0 < width && from <= |s|
    ensures from <= p <= |s| < p + width && (p - from) % width == 0 && v == Blocks(step, width, v0, s[from..p])
  {
    hide Blocks;
    NoBlocks(step, width, v0);
    assert s[from..from] == [];
    v, p := v0, from;
    while p + width <= |s|
      invariant from <= p <= |s| && (p - from) % width == 0 && v == Blocks(step, width, v0, s[from..p])
    {
      MixedMore(step, width, v0, s[from..p], s[p..p + width]);
      assert s[from..p] + s[p..p + width] == s[from..p + width];
      v := step(v, s[p..p + width]);
      p := p + width;
    }
  }

  /** Copies bytes into a buffer. */
  method Fill(mem: array<bv8>, at: nat, s: Bytes)
    requires at + |s| <= mem.Length
    modifies mem
    ensures mem[..at + |s|] == old(mem[..at]) + s
  {
    for i := 0 to |s|
      invariant mem[..at + i] == old(mem[..at]) + s[..i]
    {
      mem[at + i] := s[i];
    }
    assert s[..|s|] == s;
  }

  // ---------- Words ----------

  const PRIME32_1: bv32 := 2654435761
  const PRIME32_2: bv32 := 2246822519
  const PRIME32_3: bv32 := 3266489917
  const PRIME32_4: bv32 := 668265263
  const PRIME32_5: bv32 := 374761393

  // Arithmetic modulo 2^32, named so that proofs about hashes need not look at bits.

  function Add32(a: bv32, b: bv32): bv32 {
    a + b
  }

  function Mul32(a: bv32, b: bv32): bv32 {
    a * b
  }

  // Folds of the high bits of a word into the low ones.

  function Fold32By13(x: bv32): bv32 {
    x ^ (x >> 13)
  }

  function Fold32By15(x: bv32): bv32 {
    x ^ (x >> 15)
  }

  function Fold32By16(x: bv32): bv32 {
    x ^ (x >> 16)
  }

  function Rotl32(x: bv32, r: bv8): bv32
    requires 0 < r < 32
  {
    (x << r) | (x >> 32 - r)
  }

  /** Little-endian. */
  function Word32(b: Bytes): bv32
    requires |b| == 4
  {
    (b[0] as bv32) | ((b[1] as bv32) << 8) | ((b[2] as bv32) << 16) | ((b[3] as bv32) << 24)
  }

  function Round32(acc: bv32, input: bv32): bv32 {
    Mul32(Rotl32(Add32(acc, Mul32(input, PRIME32_2)), 13), PRIME32_1)
  }

  function Lanes32(seed: bv32): Lanes<bv32> {
    Lanes(seed + PRIME32_1 + PRIME32_2, seed + PRIME32_2, seed, seed - PRIME32_1)
  }

  /** One block of 16 bytes. */
  function Step32(v: Lanes<bv32>, b: Bytes): Lanes<bv32> {
    if |b| != 16 then v else
      Lanes(Round32(v.v1, Word32(b[0..4])), Round32(v.v2, Word32(b[4..8])),
            Round32(v.v3, Word32(b[8..12])), Round32(v.v4, Word32(b[12..16])))
  }

  function Converge32(v: Lanes<bv32>): bv32 {
    Add32(Add32(Add32(Rotl32(v.v1, 1), Rotl32(v.v2, 7)), Rotl32(v.v3, 12)), Rotl32(v.v4, 18))
  }

  function Short32(seed: bv32): bv32 {
    Add32(seed, PRIME32_5)
  }

  function AddLength32(h: bv32, length: U32): bv32 {
    Add32(h, length as bv32)
  }

  function MixWord32(h: bv32, b: Bytes): bv32
    requires |b| == 4
  {
    Mul32(Rotl32(Add32(h, Mul32(Word32(b), PRIME32_3)), 17), PRIME32_4)
  }

  function MixByte32(h: bv32, b: bv8): bv32 {
    Mul32(Rotl32(Add32(h, Mul32(b as bv32, PRIME32_5)), 11), PRIME32_1)
  }

  function Avalanche32(h: bv32): bv32 {
    Fold32By16(Mul32(Fold32By13(Mul32(Fold32By15(h), PRIME32_2)), PRIME32_3))
  }

  // ---------- The 32-bit hash ----------

  /** The bytes behind the last whole block: words, then single bytes. */
  ghost function Tail32(h: bv32, t: Bytes): bv32
    decreases |t|
  {
    if |t| >= 4 then Tail32(MixWord32(h, t[..4]), t[4..])
    else if |t| > 0 then Tail32(MixByte32(h, t[0]), t[1..])
    else h
  }

  /** What the whole blocks of a string, if there are any, leave behind. */
  ghost function Lead32(s: Bytes, seed: bv32): bv32 {
    if |s| >= 16 then Converge32(Blocks(Step32, 16, Lanes32(seed), s[..Whole(|s|, 16)])) else Short32(seed)
  }

  /** The hash of a byte string as a whole. */
  ghost function Hash32(s: Bytes, seed: bv32): bv32 {
    Avalanche32(Tail32(AddLength32(Lead32(s, seed), |s| % TWO_32), Rest(s, 16)))
  }

  /** Mixes in the bytes of a string from position `from` that do not fill a block. */
  method MixTail32(h0: bv32, s: Bytes, from: nat) returns (h: bv32)
    requires from <= |s|
    ensures h == Tail32(h0, s[from..])
  {
    hide MixWord32, MixByte32;
    h := h0;
    var p := from;
    while p + 4 <= |s|
      invariant from <= p <= |s| && Tail32(h, s[p..]) == Tail32(h0, s[from..])
    {
      assert s[p..][..4] == s[p..p + 4] && s[p..][4..] == s[p + 4..];
      h := MixWord32(h, s[p..p + 4]);
      p := p + 4;
    }
    while p < |s|
      invariant from <= p <= |s| && |s| < p + 4 && Tail32(h, s[p..]) == Tail32(h0, s[from..])
    {
      assert s[p..][1..] == s[p + 1..];
      h := MixByte32(h, s[p]);
      p := p + 1;
    }
  }

  /** XXH32. */
  method OneShot32(s: Bytes, seed: bv32) returns (h: bv32)
    ensures h == Hash32(s, seed)
  {
    hide Step32, Converge32, Avalanche32, AddLength32, Short32, Tail32, Lanes32, Blocks, Whole;
    var p := 0;
    if |s| >= 16 {
      var v;
      v, p := MixBlocks(Step32, 16, Lanes32(seed), s, 0);
      assert s[0..p] == s[..p];
      h := Converge32(v);
    } else {
      h := Short32(seed);
    }
    WholeUnique(|s|, p, 16);
    h := MixTail32(AddLength32(h, |s| % TWO_32), s, p);
    h := Avalanche32(h);
  }

  class State32 {
    var totalLen32: U32
    var largeLen: bool
    var v: Lanes<bv32>
    const mem: array<bv8>
    var memSize: nat
    ghost var fed: Bytes
    ghost var seed: bv32

    ghost predicate Valid()
      reads this, mem
    {
      && mem.Length == 16
      && totalLen32 == |fed| % TWO_32
      && (largeLen <==> |fed| >= 16)
      && memSize == |fed| - Whole(|fed|, 16)
      && mem[..memSize] == fed[Whole(|fed|, 16)..]
      && v == Blocks(Step32, 16, Lanes32(seed), fed[..Whole(|fed|, 16)])
    }

    constructor (seed: bv32)
      ensures Valid() && fed == [] && this.seed == seed && fresh(mem)
    {
      mem := new bv8[16];
      totalLen32, largeLen, memSize := 0, false, 0;
      v := Lanes32(seed);
      fed, this.seed := [], seed;
    }

    method Reset(seed: bv32)
      requires Valid()
      modifies this
      ensures Valid() && fed == [] && this.seed == seed
    {
      totalLen32, largeLen, memSize := 0, false, 0;
      v := Lanes32(seed);
      fed, this.seed := [], seed;
    }

    /** Completes the block that is waiting in the buffer, if any, and mixes it in. */
    method FinishBlock(input: Bytes) returns (p: nat)
      requires Valid() && 16 <= memSize + |input|
      modifies this`v, this`memSize, mem
      ensures p <= |input| && memSize == 0 && (|fed| + p) % 16 == 0
      ensures v == Blocks(Step32, 16, Lanes32(seed), fed + input[..p])
    {
      hide Step32, Lanes32, Blocks, Whole;
      ghost var w := Whole(|fed|, 16);
      assert fed == fed[..w] + fed[w..];
      if memSize == 0 {
        assert fed + input[..0] == fed[..w];
        return 0;
      }
      p := 16 - memSize;
      Fill(mem, memSize, input[..p]);
      assert mem[..] == fed[w..] + input[..p];
      assert fed + input[..p] == fed[..w] + mem[..];
      MixedMore(Step32, 16, Lanes32(seed), fed[..w], mem[..]);
      v := Step32(v, mem[..]);
      memSize := 0;
    }

    /** Puts the bytes behind the last whole block into the empty buffer. */
    method Keep(rest: Bytes)
      requires |rest| < 16 == mem.Length && memSize == 0
      modifies this`memSize, mem
      ensures memSize == |rest| && mem[..memSize] == rest
    {
      Fill(mem, 0, rest);
      memSize := |rest|;
    }

    /** Takes in an input that does not fill the buffer. */
    method Buffer(input: Bytes)
      requires Valid() && memSize + |input| < 16
      modifies this, mem
      ensures Valid() && fed == old(fed) + input && seed == old(seed)
    {
      hide Step32, Lanes32, Blocks, Whole;
      ghost var n, all := |fed|, fed + input;
      LengthsAdd32(n, |input|);
      totalLen32 := (totalLen32 + |input|) % TWO_32;
      largeLen := largeLen || |input| >= 16 || totalLen32 >= 16;
      Fill(mem, memSize, input);
      memSize := memSize + |input|;
      WholeUnique(|all|, Whole(n, 16), 16);
      assert all[..Whole(n, 16)] == fed[..Whole(n, 16)] && all[Whole(n, 16)..] == fed[Whole(n, 16)..] + input;
      fed := all;
    }

    method Update(input: Bytes)
      requires Valid()
      modifies this, mem
      ensures Valid() && fed == old(fed) + input && seed == old(seed)
    {
      hide Step32, Lanes32, Blocks, Whole;
      if memSize + |input| < 16 {
        Buffer(input);
        return;
      }
      ghost var n, all := |fed|, fed + input;
      LengthsAdd32(n, |input|);
      var p := FinishBlock(input);
      totalLen32 := (totalLen32 + |input|) % TWO_32;
      largeLen := largeLen || |input| >= 16 || totalLen32 >= 16;
      ghost var q := p;
      v, p := MixBlocks(Step32, 16, v, input, p);
      BlocksAppend(Step32, 16, Lanes32(seed), fed + input[..q], input[q..p]);
      assert fed + input[..q] + input[q..p] == all[..n + p];
      if p < |input| {
        Keep(input[p..]);
      }
      WholeUnique(|all|, n + p, 16);
      assert all[n + p..] == input[p..];
      fed := all;
    }

    method Digest() returns (h: bv32)
      requires Valid()
      ensures h == Hash32(fed, seed)
    {
      hide Step32, Converge32, Avalanche32, AddLength32, Short32, Tail32, Blocks, Lanes32, Whole;
      LanesOfSeed32(seed);
      NoBlocks(Step32, 16, Lanes32(seed));
      WholeOfLess(|fed|, 16);
      h := if largeLen then Converge32(v) else Short32(v.v3);
      h := MixTail32(AddLength32(h, totalLen32), mem[..memSize], 0);
      assert mem[..memSize][0..] == fed[Whole(|fed|, 16)..];
      h := Avalanche32(h);
    }
  }

  lemma LanesOfSeed32(seed: bv32)
    ensures Lanes32(seed).v3 == seed
  {
  }

  /** The 32-bit length may wrap; whether there were 16 bytes in all is known all the same. */
  lemma LengthsAdd32(n: nat, len: nat)
    ensures (n % TWO_32 + len) % TWO_32 == (n + len) % TWO_32
    ensures n >= 16 || len >= 16 || (n % TWO_32 + len) % TWO_32 >= 16 <==> n + len >= 16
  {
    ModShift(n % TWO_32 + len, TWO_32, n / TWO_32);
    assert n + len == n % TWO_32 + len + n / TWO_32 * TWO_32;
    if n < 16 && len < 16 {
      ModUnique(n, TWO_32, 0, n);
      ModUnique(n + len, TWO_32, 0, n + len);
    }
  }

  // ---------- Long words ----------

  const PRIME64_1: bv64 := 11400714785074694791
  const PRIME64_2: bv64 := 14029467366897019727
  const PRIME64_3: bv64 := 1609587929392839161
  const PRIME64_4: bv64 := 9650029242287828579
  const PRIME64_5: bv64 := 2870177450012600261

  function Add64(a: bv64, b: bv64): bv64 {
    a + b
  }

  function Mul64(a: bv64, b: bv64): bv64 {
    a * b
  }

  function Xor64(a: bv64, b: bv64): bv64 {
    a ^ b
  }

  function Fold64By29(x: bv64): bv64 {
    x ^ (x >> 29)
  }

  function Fold64By32(x: bv64): bv64 {
    x ^ (x >> 32)
  }

  function Fold64By33(x: bv64): bv64 {
    x ^ (x >> 33)
  }

  function Wide(x: bv32): bv64 {
    x as bv64
  }

  function Rotl64(x: bv64, r: bv8): bv64
    requires 0 < r < 64
  {
    (x << r) | (x >> 64 - r)
  }

  function Word64(b: Bytes): bv64
    requires |b| == 8
  {
    (Word32(b[..4]) as bv64) | ((Word32(b[4..]) as bv64) << 32)
  }

  function Round64(acc: bv64, input: bv64): bv64 {
    Mul64(Rotl64(Add64(acc, Mul64(input, PRIME64_2)), 31), PRIME64_1)
  }

  function MergeRound64(acc: bv64, v: bv64): bv64 {
    Add64(Mul64(Xor64(acc, Round64(0, v)), PRIME64_1), PRIME64_4)
  }

  function Lanes64(seed: bv64): Lanes<bv64> {
    Lanes(seed + PRIME64_1 + PRIME64_2, seed + PRIME64_2, seed, seed - PRIME64_1)
  }

  /** One block of 32 bytes. */
  function Step64(v: Lanes<bv64>, b: Bytes): Lanes<bv64> {
    if |b| != 32 then v else
      Lanes(Round64(v.v1, Word64(b[0..8])), Round64(v.v2, Word64(b[8..16])),
            Round64(v.v3, Word64(b[16..24])), Round64(v.v4, Word64(b[24..32])))
  }

  function Converge64(v: Lanes<bv64>): bv64 {
    var h := Add64(Add64(Add64(Rotl64(v.v1, 1), Rotl64(v.v2, 7)), Rotl64(v.v3, 12)), Rotl64(v.v4, 18));
    MergeRound64(MergeRound64(MergeRound64(MergeRound64(h, v.v1), v.v2), v.v3), v.v4)
  }

  function Short64(seed: bv64): bv64 {
    Add64(seed, PRIME64_5)
  }

  function AddLength64(h: bv64, length: U64): bv64 {
    Add64(h, length as bv64)
  }

  function MixLong64(h: bv64, b: Bytes): bv64
    requires |b| == 8
  {
    Add64(Mul64(Rotl64(Xor64(h, Round64(0, Word64(b))), 27), PRIME64_1), PRIME64_4)
  }

  function MixWord64(h: bv64, b: Bytes): bv64
    requires |b| == 4
  {
    Add64(Mul64(Rotl64(Xor64(h, Mul64(Wide(Word32(b)), PRIME64_1)), 23), PRIME64_2), PRIME64_3)
  }

  function MixByte64(h: bv64, b: bv8): bv64 {
    Mul64(Rotl64(Xor64(h, Mul64(b as bv64, PRIME64_5)), 11), PRIME64_1)
  }

  function Avalanche64(h: bv64): bv64 {
    Fold64By32(Mul64(Fold64By29(Mul64(Fold64By33(h), PRIME64_2)), PRIME64_3))
  }

  // ---------- The 64-bit hash ----------

  /** The bytes behind the last whole block: long words, then at most one word, then single bytes. */
  ghost function Tail64(h: bv64, t: Bytes): bv64
    decreases |t|
  {
    if |t| >= 8 then Tail64(MixLong64(h, t[..8]), t[8..])
    else if |t| >= 4 then Tail64(MixWord64(h, t[..4]), t[4..])
    else if |t| > 0 then Tail64(MixByte64(h, t[0]), t[1..])
    else h
  }

  /** What the whole blocks of a string, if there are any, leave behind. */
  ghost function Lead64(s: Bytes, seed: bv64): bv64 {
    if |s| >= 32 then Converge64(Blocks(Step64, 32, Lanes64(seed), s[..Whole(|s|, 32)])) else Short64(seed)
  }

  /** The hash of a byte string as a whole; its length is a 64-bit number. */
  ghost function Hash64(s: Bytes, seed: bv64): bv64 {
    Avalanche64(Tail64(AddLength64(Lead64(s, seed), |s| % TWO_64), Rest(s, 32)))
  }

  /** Mixes in the bytes of a string from position `from` that do not fill a block. */
  method MixTail64(h0: bv64, s: Bytes, from: nat) returns (h: bv64)
    requires from <= |s|
    ensures h == Tail64(h0, s[from..])
  {
    hide MixLong64, MixWord64, MixByte64;
    h := h0;
    var p := from;
    while p + 8 <= |s|
      invariant from <= p <= |s| && Tail64(h, s[p..]) == Tail64(h0, s[from..])
    {
      assert s[p..][..8] == s[p..p + 8] && s[p..][8..] == s[p + 8..];
      h := MixLong64(h, s[p..p + 8]);
      p := p + 8;
    }
    if p + 4 <= |s| {
      assert s[p..][..4] == s[p..p + 4] && s[p..][4..] == s[p + 4..];
      h := MixWord64(h, s[p..p + 4]);
      p := p + 4;
    }
    while p < |s|
      invariant from <= p <= |s| && |s| < p + 4 && Tail64(h, s[p..]) == Tail64(h0, s[from..])
    {
      assert s[p..][1..] == s[p + 1..];
      h := MixByte64(h, s[p]);
      p := p + 1;
    }
  }

  /** XXH64. */
  method OneShot64(s: Bytes, seed: bv64) returns (h: bv64)
    ensures h == Hash64(s, seed)
  {
    hide Step64, Converge64, Avalanche64, AddLength64, Short64, Tail64, Lanes64, Blocks, Whole;
    var p := 0;
    if |s| >= 32 {
      var v;
      v, p := MixBlocks(Step64, 32, Lanes64(seed), s, 0);
      assert s[0..p] == s[..p];
      h := Converge64(v);
    } else {
      h := Short64(seed);
    }
    WholeUnique(|s|, p, 32);
    h := MixTail64(AddLength64(h, |s| % TWO_64), s, p);
    h := Avalanche64(h);
  }

  class State64 {
    var totalLen: U64
    var v: Lanes<bv64>
    const mem: array<bv8>
    var memSize: nat
    ghost var fed: Bytes
    ghost var seed: bv64

    ghost predicate Valid()
      reads this, mem
    {
      && mem.Length == 32
      && totalLen == |fed| % TWO_64
      && memSize == |fed| - Whole(|fed|, 32)
      && mem[..memSize] == fed[Whole(|fed|, 32)..]
      && v == Blocks(Step64, 32, Lanes64(seed), fed[..Whole(|fed|, 32)])
    }

    constructor (seed: bv64)
      ensures Valid() && fed == [] && this.seed == seed && fresh(mem)
    {
      mem := new bv8[32];
      totalLen, memSize := 0, 0;
      v := Lanes64(seed);
      fed, this.seed := [], seed;
    }

    method Reset(seed: bv64)
      requires Valid()
      modifies this
      ensures Valid() && fed == [] && this.seed == seed
    {
      totalLen, memSize := 0, 0;
      v := Lanes64(seed);
      fed, this.seed := [], seed;
    }

    /** Completes the block that is waiting in the buffer, if any, and mixes it in. */
    method FinishBlock(input: Bytes) returns (p: nat)
      requires Valid() && 32 <= memSize + |input|
      modifies this`v, this`memSize, mem
      ensures p <= |input| && memSize == 0 && (|fed| + p) % 32 == 0
      ensures v == Blocks(Step64, 32, Lanes64(seed), fed + input[..p])
    {
      hide Step64, Lanes64, Blocks, Whole;
      ghost var w := Whole(|fed|, 32);
      assert fed == fed[..w] + fed[w..];
      if memSize == 0 {
        assert fed + input[..0] == fed[..w];
        return 0;
      }
      p := 32 - memSize;
      Fill(mem, memSize, input[..p]);
      assert mem[..] == fed[w..] + input[..p];
      assert fed + input[..p] == fed[..w] + mem[..];
      MixedMore(Step64, 32, Lanes64(seed), fed[..w], mem[..]);
      v := Step64(v, mem[..]);
      memSize := 0;
    }

    /** Puts the bytes behind the last whole block into the empty buffer. */
    method Keep(rest: Bytes)
      requires |rest| < 32 == mem.Length && memSize == 0
      modifies this`memSize, mem
      ensures memSize == |rest| && mem[..memSize] == rest
    {
      Fill(mem, 0, rest);
      memSize := |rest|;
    }

    /** Takes in an input that does not fill the buffer. */
    method Buffer(input: Bytes)
      requires Valid() && memSize + |input| < 32
      modifies this, mem
      ensures Valid() && fed == old(fed) + input && seed == old(seed)
    {
      hide Step64, Lanes64, Blocks, Whole;
      ghost var n, all := |fed|, fed + input;
      LengthsAdd64(n, |input|);
      totalLen := (totalLen + |input|) % TWO_64;
      Fill(mem, memSize, input);
      memSize := memSize + |input|;
      WholeUnique(|all|, Whole(n, 32), 32);
      assert all[..Whole(n, 32)] == fed[..Whole(n, 32)] && all[Whole(n, 32)..] == fed[Whole(n, 32)..] + input;
      fed := all;
    }

    method Update(input: Bytes)
      requires Valid()
      modifies this, mem
      ensures Valid() && fed == old(fed) + input && seed == old(seed)
    {
      hide Step64, Lanes64, Blocks, Whole;
      if memSize + |input| < 32 {
        Buffer(input);
        return;
      }
      ghost var n, all := |fed|, fed + input;
      LengthsAdd64(n, |input|);
      var p := FinishBlock(input);
      totalLen := (totalLen + |input|) % TWO_64;
      ghost var q := p;
      v, p := MixBlocks(Step64, 32, v, input, p);
      BlocksAppend(Step64, 32, Lanes64(seed), fed + input[..q], input[q..p]);
      assert fed + input[..q] + input[q..p] == all[..n + p];
      if p < |input| {
        Keep(input[p..]);
      }
      WholeUnique(|all|, n + p, 32);
      assert all[n + p..] == input[p..];
      fed := all;
    }

    method Digest() returns (h: bv64)
      requires Valid() && |fed| < TWO_64
      ensures h == Hash64(fed, seed)
    {
      hide Step64, Converge64, Avalanche64, AddLength64, Short64, Tail64, Blocks, Lanes64, Whole;
      ModUnique(|fed|, TWO_64, 0, |fed|);
      LanesOfSeed64(seed);
      NoBlocks(Step64, 32, Lanes64(seed));
      WholeOfLess(|fed|, 32);
      h := if totalLen >= 32 then Converge64(v) else Short64(v.v3);
      h := MixTail64(AddLength64(h, totalLen), mem[..memSize], 0);
      assert mem[..memSize][0..] == fed[Whole(|fed|, 32)..];
      h := Avalanche64(h);
    }
  }

  lemma LanesOfSeed64(seed: bv64)
    ensures Lanes64(seed).v3 == seed
  {
  }

  lemma LengthsAdd64(n: nat, len: nat)
    ensures (n % TWO_64 + len) % TWO_64 == (n + len) % TWO_64
  {
    ModShift(n % TWO_64 + len, TWO_64, n / TWO_64);
    assert n + len == n % TWO_64 + len + n / TWO_64 * TWO_64;
  }

  // ---------- Streams ----------

  ghost function Concat(chunks: seq<Bytes>): Bytes {
    if chunks == [] then [] else Concat(chunks[..|chunks| - 1]) + chunks[|chunks| - 1]
  }

  /** However the input is cut, the stream's digest is the one-shot hash of the whole. */
  method Streamed32(chunks: seq<Bytes>, seed: bv32) returns (h: bv32)
    ensures h == Hash32(Concat(chunks), seed)
  {
    hide Hash32;
    var state := new State32(seed);
    for i := 0 to |chunks|
      invariant fresh(state) && fresh(state.mem) && state.Valid() && state.seed == seed
      invariant state.fed == Concat(chunks[..i])
    {
      state.Update(chunks[i]);
      assert chunks[..i + 1][..i] == chunks[..i];
    }
    assert chunks[..|chunks|] == chunks;
    h := state.Digest();
  }

  /** The same for 64 bits, as long as the length is a 64-bit number, as it is for the one-shot hash. */
  method Streamed64(chunks: seq<Bytes>, seed: bv64) returns (h: bv64)
    requires |Concat(chunks)| < TWO_64
    ensures h == Hash64(Concat(chunks), seed)
  {
    hide Hash64;
    var state := new State64(seed);
    for i := 0 to |chunks|
      invariant fresh(state) && fresh(state.mem) && state.Valid() && state.seed == seed
      invariant state.fed == Concat(chunks[..i])
    {
      state.Update(chunks[i]);
      assert chunks[..i + 1][..i] == chunks[..i];
    }
    assert chunks[..|chunks|] == chunks;
    h := state.Digest();
  }
}
