/**
 Which bytes count in xxHash: all of them.  Every step of the hash can be undone, for sums, products with primes,
 rotations and folds can, so a changed byte changes the hash.
 */
module HashBytes {
  import opened Words
  import opened Remainders
  import opened XxHash

  // ---------- Words of 32 bits ----------

  const INVERSE32_1: bv32 := 244002641
  const INVERSE32_2: bv32 := 3066638151
  const INVERSE32_3: bv32 := 2828982549
  const INVERSE32_4: bv32 := 2701016015
  const INVERSE32_5: bv32 := 2923004241

  lemma SumUndone32(x: bv32, y: bv32)
    ensures Add32(Add32(x, y), 0 - y) == x && Add32(x, y) == Add32(y, x)
  {
  }

  lemma PlainProduct32(x: bv32, p: bv32, q: bv32)
    ensures Mul32(x, p) == x * p && Mul32(x * p, q) == Mul32(x, p * q) && Mul32(x, 1) == x
  {
  }

  lemma ProductOfThree32(x: bv32, p: bv32, q: bv32)
    ensures Mul32(Mul32(x, p), q) == Mul32(x, Mul32(p, q)) && Mul32(x, 1) == x
  {
    hide Mul32;
    PlainProduct32(x, p, q);
    PlainProduct32(p, q, 1);
  }

  /** The primes have inverses. */
  lemma Inverses32()
    ensures Mul32(PRIME32_1, INVERSE32_1) == 1
    ensures Mul32(PRIME32_2, INVERSE32_2) == 1
    ensures Mul32(PRIME32_3, INVERSE32_3) == 1
    ensures Mul32(PRIME32_4, INVERSE32_4) == 1
    ensures Mul32(PRIME32_5, INVERSE32_5) == 1
  {
  }

  lemma Turned32By1(x: bv32)
    ensures Rotl32(Rotl32(x, 1), 31) == x
  {
  }

  lemma Turned32By7(x: bv32)
    ensures Rotl32(Rotl32(x, 7), 25) == x
  {
  }

  lemma Turned32By11(x: bv32)
    ensures Rotl32(Rotl32(x, 11), 21) == x
  {
  }

  lemma Turned32By12(x: bv32)
    ensures Rotl32(Rotl32(x, 12), 20) == x
  {
  }

  lemma Turned32By13(x: bv32)
    ensures Rotl32(Rotl32(x, 13), 19) == x
  {
  }

  lemma Turned32By17(x: bv32)
    ensures Rotl32(Rotl32(x, 17), 15) == x
  {
  }

  lemma Turned32By18(x: bv32)
    ensures Rotl32(Rotl32(x, 18), 14) == x
  {
  }

  function Unfold32By13(y: bv32): bv32 {
    y ^ (y >> 13) ^ (y >> 26)
  }

  lemma Plain32By13(x: bv32)
    ensures Fold32By13(x) == x ^ (x >> 13)
  {
  }

  lemma PlainUnfold32By13(x: bv32)
    ensures Unfold32By13(x ^ (x >> 13)) == x
  {
  }

  lemma Fold32By13Tells(x: bv32, y: bv32)
    ensures Fold32By13(x) == Fold32By13(y) ==> x == y
  {
    hide Fold32By13, Unfold32By13;
    Plain32By13(x);
    Plain32By13(y);
    PlainUnfold32By13(x);
    PlainUnfold32By13(y);
  }

  function Unfold32By15(y: bv32): bv32 {
    y ^ (y >> 15) ^ (y >> 30)
  }

  lemma Plain32By15(x: bv32)
    ensures Fold32By15(x) == x ^ (x >> 15)
  {
  }

  lemma PlainUnfold32By15(x: bv32)
    ensures Unfold32By15(x ^ (x >> 15)) == x
  {
  }

  lemma Fold32By15Tells(x: bv32, y: bv32)
    ensures Fold32By15(x) == Fold32By15(y) ==> x == y
  {
    hide Fold32By15, Unfold32By15;
    Plain32By15(x);
    Plain32By15(y);
    PlainUnfold32By15(x);
    PlainUnfold32By15(y);
  }

  function Unfold32By16(y: bv32): bv32 {
    y ^ (y >> 16)
  }

  lemma Plain32By16(x: bv32)
    ensures Fold32By16(x) == x ^ (x >> 16)
  {
  }

  lemma PlainUnfold32By16(x: bv32)
    ensures Unfold32By16(x ^ (x >> 16)) == x
  {
  }

  lemma Fold32By16Tells(x: bv32, y: bv32)
    ensures Fold32By16(x) == Fold32By16(y) ==> x == y
  {
    hide Fold32By16, Unfold32By16;
    Plain32By16(x);
    Plain32By16(y);
    PlainUnfold32By16(x);
    PlainUnfold32By16(y);
  }

  /** Sums with one summand in common, and products with a prime, tell words apart. */
  lemma SumsTell32(x: bv32, y: bv32, z: bv32)
    ensures Add32(x, z) == Add32(y, z) ==> x == y
    ensures Add32(z, x) == Add32(z, y) ==> x == y
  {
    hide Add32;
    SumUndone32(x, z);
    SumUndone32(y, z);
  }

  lemma ProductsTell32(x: bv32, y: bv32, p: bv32, q: bv32)
    requires Mul32(p, q) == 1
    ensures Mul32(x, p) == Mul32(y, p) ==> x == y
  {
    hide Mul32;
    ProductOfThree32(x, p, q);
    ProductOfThree32(y, p, q);
  }

  lemma TurnsTell32(x: bv32, y: bv32, r: bv8)
    requires r in {1, 7, 11, 12, 13, 17, 18}
    ensures Rotl32(x, r) == Rotl32(y, r) ==> x == y
  {
    hide Rotl32;
    Turned32By1(x);
    Turned32By1(y);
    Turned32By7(x);
    Turned32By7(y);
    Turned32By11(x);
    Turned32By11(y);
    Turned32By12(x);
    Turned32By12(y);
    Turned32By13(x);
    Turned32By13(y);
    Turned32By17(x);
    Turned32By17(y);
    Turned32By18(x);
    Turned32By18(y);
  }

  // ---------- Words of 64 bits ----------

  const INVERSE64_1: bv64 := 614540362697595703
  const INVERSE64_2: bv64 := 839798700976720815
  const INVERSE64_3: bv64 := 16855272203555305545
  const INVERSE64_4: bv64 := 15596783062780822347
  const INVERSE64_5: bv64 := 14236653164957433613

  lemma SumUndone64(x: bv64, y: bv64)
    ensures Add64(Add64(x, y), 0 - y) == x && Add64(x, y) == Add64(y, x)
  {
  }

  lemma PlainProduct64(x: bv64, p: bv64, q: bv64)
    ensures Mul64(x, p) == x * p && Mul64(x * p, q) == Mul64(x, p * q) && Mul64(x, 1) == x
  {
  }

  lemma ProductOfThree64(x: bv64, p: bv64, q: bv64)
    ensures Mul64(Mul64(x, p), q) == Mul64(x, Mul64(p, q)) && Mul64(x, 1) == x
  {
    hide Mul64;
    PlainProduct64(x, p, q);
    PlainProduct64(p, q, 1);
  }

  /** The primes have inverses. */
  lemma Inverses64()
    ensures Mul64(PRIME64_1, INVERSE64_1) == 1
    ensures Mul64(PRIME64_2, INVERSE64_2) == 1
    ensures Mul64(PRIME64_3, INVERSE64_3) == 1
    ensures Mul64(PRIME64_4, INVERSE64_4) == 1
    ensures Mul64(PRIME64_5, INVERSE64_5) == 1
  {
  }

  lemma Turned64By11(x: bv64)
    ensures Rotl64(Rotl64(x, 11), 53) == x
  {
  }

  lemma Turned64By23(x: bv64)
    ensures Rotl64(Rotl64(x, 23), 41) == x
  {
  }

  lemma Turned64By27(x: bv64)
    ensures Rotl64(Rotl64(x, 27), 37) == x
  {
  }

  lemma Turned64By31(x: bv64)
    ensures Rotl64(Rotl64(x, 31), 33) == x
  {
  }

  function Unfold64By29(y: bv64): bv64 {
    y ^ (y >> 29) ^ (y >> 58)
  }

  lemma Plain64By29(x: bv64)
    ensures Fold64By29(x) == x ^ (x >> 29)
  {
  }

  lemma PlainUnfold64By29(x: bv64)
    ensures Unfold64By29(x ^ (x >> 29)) == x
  {
  }

  lemma Fold64By29Tells(x: bv64, y: bv64)
    ensures Fold64By29(x) == Fold64By29(y) ==> x == y
  {
    hide Fold64By29, Unfold64By29;
    Plain64By29(x);
    Plain64By29(y);
    PlainUnfold64By29(x);
    PlainUnfold64By29(y);
  }

  function Unfold64By32(y: bv64): bv64 {
    y ^ (y >> 32)
  }

  lemma Plain64By32(x: bv64)
    ensures Fold64By32(x) == x ^ (x >> 32)
  {
  }

  lemma PlainUnfold64By32(x: bv64)
    ensures Unfold64By32(x ^ (x >> 32)) == x
  {
  }

  lemma Fold64By32Tells(x: bv64, y: bv64)
    ensures Fold64By32(x) == Fold64By32(y) ==> x == y
  {
    hide Fold64By32, Unfold64By32;
    Plain64By32(x);
    Plain64By32(y);
    PlainUnfold64By32(x);
    PlainUnfold64By32(y);
  }

  function Unfold64By33(y: bv64): bv64 {
    y ^ (y >> 33)
  }

  lemma Plain64By33(x: bv64)
    ensures Fold64By33(x) == x ^ (x >> 33)
  {
  }

  lemma PlainUnfold64By33(x: bv64)
    ensures Unfold64By33(x ^ (x >> 33)) == x
  {
  }

  lemma Fold64By33Tells(x: bv64, y: bv64)
    ensures Fold64By33(x) == Fold64By33(y) ==> x == y
  {
    hide Fold64By33, Unfold64By33;
    Plain64By33(x);
    Plain64By33(y);
    PlainUnfold64By33(x);
    PlainUnfold64By33(y);
  }

  /** Sums with one summand in common, and products with a prime, tell words apart. */
  lemma SumsTell64(x: bv64, y: bv64, z: bv64)
    ensures Add64(x, z) == Add64(y, z) ==> x == y
    ensures Add64(z, x) == Add64(z, y) ==> x == y
  {
    hide Add64;
    SumUndone64(x, z);
    SumUndone64(y, z);
  }

  lemma ProductsTell64(x: bv64, y: bv64, p: bv64, q: bv64)
    requires Mul64(p, q) == 1
    ensures Mul64(x, p) == Mul64(y, p) ==> x == y
  {
    hide Mul64;
    ProductOfThree64(x, p, q);
    ProductOfThree64(y, p, q);
  }

  lemma TurnsTell64(x: bv64, y: bv64, r: bv8)
    requires r in {11, 23, 27, 31}
    ensures Rotl64(x, r) == Rotl64(y, r) ==> x == y
  {
    hide Rotl64;
    Turned64By11(x);
    Turned64By11(y);
    Turned64By23(x);
    Turned64By23(y);
    Turned64By27(x);
    Turned64By27(y);
    Turned64By31(x);
    Turned64By31(y);
  }

  // ---------- Blocks ----------

  /** The strings differ in the byte at k and nowhere else. */
  ghost predicate DiffersAt(s: Bytes, t: Bytes, k: nat) {
    k < |s| == |t| && s[k] != t[k] && forall j | 0 <= j < |s| && j != k :: s[j] == t[j]
  }

  lemma PartDiffers(s: Bytes, t: Bytes, k: nat, lo: nat, hi: nat)
    requires DiffersAt(s, t, k) && lo <= hi <= |s|
    ensures if lo <= k < hi then DiffersAt(s[lo..hi], t[lo..hi], k - lo) && s[lo..hi] != t[lo..hi]
            else s[lo..hi] == t[lo..hi]
  {
    if lo <= k < hi {
      assert s[lo..hi][k - lo] == s[k] && t[lo..hi][k - lo] == t[k];
    }
  }

  lemma CutDiffers(s: Bytes, t: Bytes, k: nat, n: nat)
    requires DiffersAt(s, t, k) && n <= |s|
    ensures if k < n then DiffersAt(s[..n], t[..n], k) && s[..n] != t[..n] && s[n..] == t[n..]
            else s[..n] == t[..n] && DiffersAt(s[n..], t[n..], k - n)
  {
    if k < n {
      assert s[..n][k] == s[k] && t[..n][k] == t[k];
    } else {
      assert s[n..][k - n] == s[k] && t[n..][k - n] == t[k];
    }
  }

  /** Exactly one lane differs. */
  ghost predicate OneLane<W>(v: Lanes<W>, w: Lanes<W>) {
    || (v.v1 != w.v1 && v.v2 == w.v2 && v.v3 == w.v3 && v.v4 == w.v4)
    || (v.v1 == w.v1 && v.v2 != w.v2 && v.v3 == w.v3 && v.v4 == w.v4)
    || (v.v1 == w.v1 && v.v2 == w.v2 && v.v3 != w.v3 && v.v4 == w.v4)
    || (v.v1 == w.v1 && v.v2 == w.v2 && v.v3 == w.v3 && v.v4 != w.v4)
  }

  /** A step puts a changed byte into one lane and keeps a difference in the lane where it is. */
  ghost predicate Tells<W(!new)>(step: (Lanes<W>, Bytes) -> Lanes<W>, width: nat) {
    && (forall v, b, c, k | |b| == width && DiffersAt(b, c, k) :: OneLane(step(v, b), step(v, c)))
    && (forall v, w, b | |b| == width && OneLane(v, w) :: OneLane(step(v, b), step(w, b)))
  }

  lemma {:induction false} BlocksDiffer<W(!new)>(step: (Lanes<W>, Bytes) -> Lanes<W>, width: nat, v: Lanes<W>, s: Bytes,
                                                t: Bytes, k: nat)
    requires 0 < width && |s| % width == 0 && Tells(step, width) && DiffersAt(s, t, k)
    ensures OneLane(Blocks(step, width, v, s), Blocks(step, width, v, t))
    decreases |s|
  {
    hide OneLane;
    var n := |s| - width;
    assert width <= |s| by {
      if |s| < width {
        ModUnique(|s|, width, 0, |s|);
      }
    }
    OneBlockLess(|s|, width);
    CutDiffers(s, t, k, n);
    if k < n {
      BlocksDiffer(step, width, v, s[..n], t[..n], k);
    }
  }

  // ---------- The 32-bit hash ----------

  lemma Word32Bytes(b: Bytes, c: Bytes)
    requires |b| == |c| == 4 && Word32(b) == Word32(c)
    ensures b[0] == c[0] && b[1] == c[1] && b[2] == c[2] && b[3] == c[3]
  {
  }

  lemma Word32Tells(b: Bytes, c: Bytes)
    requires |b| == |c| == 4 && Word32(b) == Word32(c)
    ensures b == c
  {
    hide Word32;
    Word32Bytes(b, c);
  }

  lemma Round32Tells(v: bv32, w: bv32, x: bv32, y: bv32)
    requires Round32(v, x) == Round32(w, y)
    ensures v == w <==> x == y
  {
    hide Add32, Mul32, Rotl32;
    Inverses32();
    var p, q := Add32(v, Mul32(x, PRIME32_2)), Add32(w, Mul32(y, PRIME32_2));
    ProductsTell32(Rotl32(p, 13), Rotl32(q, 13), PRIME32_1, INVERSE32_1);
    TurnsTell32(p, q, 13);
    SumsTell32(v, w, Mul32(x, PRIME32_2));
    SumsTell32(Mul32(x, PRIME32_2), Mul32(y, PRIME32_2), v);
    ProductsTell32(x, y, PRIME32_2, INVERSE32_2);
  }

  lemma MixWord32Tells(g: bv32, h: bv32, b: Bytes, c: Bytes)
    requires |b| == |c| == 4 && MixWord32(g, b) == MixWord32(h, c)
    ensures g == h <==> b == c
  {
    hide Add32, Mul32, Rotl32, Word32;
    Inverses32();
    var x, y := Mul32(Word32(b), PRIME32_3), Mul32(Word32(c), PRIME32_3);
    ProductsTell32(Rotl32(Add32(g, x), 17), Rotl32(Add32(h, y), 17), PRIME32_4, INVERSE32_4);
    TurnsTell32(Add32(g, x), Add32(h, y), 17);
    SumsTell32(g, h, x);
    SumsTell32(x, y, g);
    ProductsTell32(Word32(b), Word32(c), PRIME32_3, INVERSE32_3);
    if g == h {
      Word32Tells(b, c);
    }
  }

  lemma MixByte32Tells(g: bv32, h: bv32, b: bv8, c: bv8)
    requires MixByte32(g, b) == MixByte32(h, c)
    ensures g == h <==> b == c
  {
    hide Add32, Mul32, Rotl32;
    Inverses32();
    var x, y := Mul32(b as bv32, PRIME32_5), Mul32(c as bv32, PRIME32_5);
    ProductsTell32(Rotl32(Add32(g, x), 11), Rotl32(Add32(h, y), 11), PRIME32_1, INVERSE32_1);
    TurnsTell32(Add32(g, x), Add32(h, y), 11);
    SumsTell32(g, h, x);
    SumsTell32(x, y, g);
    ProductsTell32(b as bv32, c as bv32, PRIME32_5, INVERSE32_5);
  }

  lemma Avalanche32Tells(g: bv32, h: bv32)
    requires Avalanche32(g) == Avalanche32(h)
    ensures g == h
  {
    hide Mul32, Fold32By13, Fold32By15, Fold32By16;
    Inverses32();
    var a, b := Mul32(Fold32By15(g), PRIME32_2), Mul32(Fold32By15(h), PRIME32_2);
    Fold32By16Tells(Mul32(Fold32By13(a), PRIME32_3), Mul32(Fold32By13(b), PRIME32_3));
    ProductsTell32(Fold32By13(a), Fold32By13(b), PRIME32_3, INVERSE32_3);
    Fold32By13Tells(a, b);
    ProductsTell32(Fold32By15(g), Fold32By15(h), PRIME32_2, INVERSE32_2);
    Fold32By15Tells(g, h);
  }

  /** What is mixed in after different words leaves them different. */
  lemma {:induction false} Tail32Keeps(g: bv32, h: bv32, t: Bytes)
    requires g != h
    ensures Tail32(g, t) != Tail32(h, t)
    decreases |t|
  {
    hide MixWord32, MixByte32;
    if |t| >= 4 {
      if MixWord32(g, t[..4]) == MixWord32(h, t[..4]) {
        MixWord32Tells(g, h, t[..4], t[..4]);
      }
      Tail32Keeps(MixWord32(g, t[..4]), MixWord32(h, t[..4]), t[4..]);
    } else if |t| > 0 {
      if MixByte32(g, t[0]) == MixByte32(h, t[0]) {
        MixByte32Tells(g, h, t[0], t[0]);
      }
      Tail32Keeps(MixByte32(g, t[0]), MixByte32(h, t[0]), t[1..]);
    }
  }

  lemma {:induction false} Tail32Differs(h: bv32, s: Bytes, t: Bytes, k: nat)
    requires DiffersAt(s, t, k)
    ensures Tail32(h, s) != Tail32(h, t)
    decreases |s|
  {
    hide MixWord32, MixByte32;
    var n := if |s| >= 4 then 4 else 1;
    if k < n {
      assert s[..n] != t[..n] && s[n..] == t[n..] by { assert s[..n][k] == s[k] && t[..n][k] == t[k]; }
      if |s| >= 4 {
        if MixWord32(h, s[..4]) == MixWord32(h, t[..4]) {
          MixWord32Tells(h, h, s[..4], t[..4]);
        }
        Tail32Keeps(MixWord32(h, s[..4]), MixWord32(h, t[..4]), s[4..]);
      } else {
        if MixByte32(h, s[0]) == MixByte32(h, t[0]) {
          MixByte32Tells(h, h, s[0], t[0]);
        }
        Tail32Keeps(MixByte32(h, s[0]), MixByte32(h, t[0]), s[1..]);
      }
    } else {
      assert s[..n] == t[..n] && DiffersAt(s[n..], t[n..], k - n);
      Tail32Differs(if |s| >= 4 then MixWord32(h, s[..4]) else MixByte32(h, s[0]), s[n..], t[n..], k - n);
    }
  }

  lemma Step32Tells()
    ensures Tells(Step32, 16)
  {
    hide Round32, Word32;
    forall v, b: Bytes, c, k: nat | |b| == 16 && DiffersAt(b, c, k)
      ensures OneLane(Step32(v, b), Step32(v, c))
    {
      StepDiffers32(v, b, c, k);
    }
    forall v, w, b: Bytes | |b| == 16 && OneLane(v, w)
      ensures OneLane(Step32(v, b), Step32(w, b))
    {
      StepKeeps32(v, w, b);
    }
  }

  lemma StepDiffers32(v: Lanes<bv32>, b: Bytes, c: Bytes, k: nat)
    requires |b| == 16 && DiffersAt(b, c, k)
    ensures OneLane(Step32(v, b), Step32(v, c))
  {
    hide Round32, Word32;
    PartDiffers(b, c, k, 0, 4);
    PartDiffers(b, c, k, 4, 8);
    PartDiffers(b, c, k, 8, 12);
    PartDiffers(b, c, k, 12, 16);
    RoundOfWord32(v.v1, v.v1, b[0..4], c[0..4]);
    RoundOfWord32(v.v2, v.v2, b[4..8], c[4..8]);
    RoundOfWord32(v.v3, v.v3, b[8..12], c[8..12]);
    RoundOfWord32(v.v4, v.v4, b[12..16], c[12..16]);
  }

  lemma StepKeeps32(v: Lanes<bv32>, w: Lanes<bv32>, b: Bytes)
    requires |b| == 16 && OneLane(v, w)
    ensures OneLane(Step32(v, b), Step32(w, b))
  {
    hide Round32, Word32;
    RoundOfWord32(v.v1, w.v1, b[0..4], b[0..4]);
    RoundOfWord32(v.v2, w.v2, b[4..8], b[4..8]);
    RoundOfWord32(v.v3, w.v3, b[8..12], b[8..12]);
    RoundOfWord32(v.v4, w.v4, b[12..16], b[12..16]);
  }

  lemma RoundOfWord32(v: bv32, w: bv32, b: Bytes, c: Bytes)
    requires |b| == |c| == 4
    ensures Round32(v, Word32(b)) == Round32(w, Word32(c)) ==> (v == w <==> b == c)
  {
    hide Round32, Word32;
    if Round32(v, Word32(b)) == Round32(w, Word32(c)) {
      Round32Tells(v, w, Word32(b), Word32(c));
      if Word32(b) == Word32(c) {
        Word32Tells(b, c);
      }
    }
  }

  lemma Converge32Tells(v: Lanes<bv32>, w: Lanes<bv32>)
    requires OneLane(v, w)
    ensures Converge32(v) != Converge32(w)
  {
    hide Add32, Rotl32;
    TurnsTell32(v.v1, w.v1, 1);
    TurnsTell32(v.v2, w.v2, 7);
    TurnsTell32(v.v3, w.v3, 12);
    TurnsTell32(v.v4, w.v4, 18);
    var a, b, c := Rotl32(v.v1, 1), Rotl32(v.v2, 7), Rotl32(v.v3, 12);
    var d, e, f := Rotl32(w.v1, 1), Rotl32(w.v2, 7), Rotl32(w.v3, 12);
    SumsTell32(a, d, b);
    SumsTell32(b, e, a);
    SumsTell32(Add32(a, b), Add32(d, e), c);
    SumsTell32(c, f, Add32(a, b));
    SumsTell32(Add32(Add32(a, b), c), Add32(Add32(d, e), f), Rotl32(v.v4, 18));
    SumsTell32(Rotl32(v.v4, 18), Rotl32(w.v4, 18), Add32(Add32(a, b), c));
  }

  lemma Lead32Differs(s: Bytes, t: Bytes, k: nat, seed: bv32)
    requires DiffersAt(s, t, k) && k < Whole(|s|, 16)
    ensures Lead32(s, seed) != Lead32(t, seed)
  {
    hide Converge32, Lanes32, Step32, Blocks, OneLane, Whole;
    WholeOfLess(|s|, 16);
    var n := Whole(|s|, 16);
    CutDiffers(s, t, k, n);
    Step32Tells();
    BlocksDiffer(Step32, 16, Lanes32(seed), s[..n], t[..n], k);
    Converge32Tells(Blocks(Step32, 16, Lanes32(seed), s[..n]), Blocks(Step32, 16, Lanes32(seed), t[..n]));
  }

  lemma SameLead32(s: Bytes, t: Bytes, seed: bv32)
    requires |s| == |t| && s[..Whole(|s|, 16)] == t[..Whole(|s|, 16)]
    ensures Lead32(s, seed) == Lead32(t, seed)
  {
  }

  /** Strings of one length that differ in exactly one byte have different hashes, whatever the seed. */
  lemma EveryByteCounts32(s: Bytes, t: Bytes, k: nat, seed: bv32)
    requires DiffersAt(s, t, k)
    ensures Hash32(s, seed) != Hash32(t, seed)
  {
    hide Avalanche32, Tail32, AddLength32, Lead32, Whole, Add32;
    var n, length := Whole(|s|, 16), |s| % TWO_32;
    CutDiffers(s, t, k, n);
    var g, h := AddLength32(Lead32(s, seed), length), AddLength32(Lead32(t, seed), length);
    if k < n {
      Lead32Differs(s, t, k, seed);
      LengthTells32(Lead32(s, seed), Lead32(t, seed), length);
      Tail32Keeps(g, h, s[n..]);
    } else {
      SameLead32(s, t, seed);
      Tail32Differs(g, s[n..], t[n..], k - n);
    }
    if Hash32(s, seed) == Hash32(t, seed) {
      Avalanche32Tells(Tail32(g, s[n..]), Tail32(h, t[n..]));
    }
  }

  /** Keys of four bytes never collide. */
  lemma FourBytesApart(s: Bytes, t: Bytes, seed: bv32)
    requires |s| == |t| == 4 && s != t
    ensures Hash32(s, seed) != Hash32(t, seed)
  {
    hide Avalanche32, AddLength32, Short32, MixWord32, Whole;
    WholeOfLess(4, 16);
    var h := AddLength32(Short32(seed), 4);
    assert Tail32(h, s) == MixWord32(h, s) by { assert s[..4] == s; }
    assert Tail32(h, t) == MixWord32(h, t) by { assert t[..4] == t; }
    if Hash32(s, seed) == Hash32(t, seed) {
      assert s[0..] == s && t[0..] == t;
      Avalanche32Tells(MixWord32(h, s), MixWord32(h, t));
      MixWord32Tells(h, h, s, t);
    }
  }

  lemma LengthTells32(g: bv32, h: bv32, length: U32)
    ensures AddLength32(g, length) == AddLength32(h, length) ==> g == h
  {
    hide Add32;
    SumsTell32(g, h, length as bv32);
  }

  // ---------- The 64-bit hash ----------

  lemma XorUndone64(x: bv64, y: bv64)
    ensures Xor64(Xor64(x, y), y) == x && Xor64(x, y) == Xor64(y, x)
  {
  }

  lemma XorsTell64(x: bv64, y: bv64, z: bv64)
    ensures Xor64(x, z) == Xor64(y, z) ==> x == y
    ensures Xor64(z, x) == Xor64(z, y) ==> x == y
  {
    hide Xor64;
    XorUndone64(x, z);
    XorUndone64(y, z);
  }

  lemma Word64Halves(b: Bytes, c: Bytes)
    requires |b| == |c| == 8 && Word64(b) == Word64(c)
    ensures Word32(b[..4]) == Word32(c[..4]) && Word32(b[4..]) == Word32(c[4..])
  {
  }

  lemma Word64Tells(b: Bytes, c: Bytes)
    requires |b| == |c| == 8 && Word64(b) == Word64(c)
    ensures b == c
  {
    hide Word64, Word32;
    Word64Halves(b, c);
    Word32Tells(b[..4], c[..4]);
    Word32Tells(b[4..], c[4..]);
    assert b == b[..4] + b[4..] && c == c[..4] + c[4..];
  }

  lemma Round64Tells(v: bv64, w: bv64, x: bv64, y: bv64)
    requires Round64(v, x) == Round64(w, y)
    ensures v == w <==> x == y
  {
    hide Add64, Mul64, Rotl64;
    Inverses64();
    var p, q := Add64(v, Mul64(x, PRIME64_2)), Add64(w, Mul64(y, PRIME64_2));
    ProductsTell64(Rotl64(p, 31), Rotl64(q, 31), PRIME64_1, INVERSE64_1);
    TurnsTell64(p, q, 31);
    SumsTell64(v, w, Mul64(x, PRIME64_2));
    SumsTell64(Mul64(x, PRIME64_2), Mul64(y, PRIME64_2), v);
    ProductsTell64(x, y, PRIME64_2, INVERSE64_2);
  }

  /** All three ways to mix something into a word in the end. */
  lemma TurnedSumTells64(g: bv64, h: bv64, x: bv64, y: bv64, r: bv8, p: bv64, q: bv64)
    requires r in {11, 23, 27} && Mul64(p, q) == 1
    ensures Mul64(Rotl64(Xor64(g, x), r), p) == Mul64(Rotl64(Xor64(h, y), r), p) ==> (g == h <==> x == y)
  {
    hide Xor64, Mul64, Rotl64;
    ProductsTell64(Rotl64(Xor64(g, x), r), Rotl64(Xor64(h, y), r), p, q);
    TurnsTell64(Xor64(g, x), Xor64(h, y), r);
    XorsTell64(g, h, x);
    XorsTell64(x, y, g);
  }

  lemma MixLong64Tells(g: bv64, h: bv64, b: Bytes, c: Bytes)
    requires |b| == |c| == 8 && MixLong64(g, b) == MixLong64(h, c)
    ensures g == h <==> b == c
  {
    hide Add64, Mul64, Rotl64, Xor64, Word64, Round64;
    Inverses64();
    var x, y := Round64(0, Word64(b)), Round64(0, Word64(c));
    SumsTell64(Mul64(Rotl64(Xor64(g, x), 27), PRIME64_1), Mul64(Rotl64(Xor64(h, y), 27), PRIME64_1), PRIME64_4);
    TurnedSumTells64(g, h, x, y, 27, PRIME64_1, INVERSE64_1);
    if g == h {
      Round64Tells(0, 0, Word64(b), Word64(c));
      Word64Tells(b, c);
    }
  }

  lemma WideTells(x: bv32, y: bv32)
    ensures Wide(x) == Wide(y) ==> x == y
  {
  }

  lemma MixWord64Tells(g: bv64, h: bv64, b: Bytes, c: Bytes)
    requires |b| == |c| == 4 && MixWord64(g, b) == MixWord64(h, c)
    ensures g == h <==> b == c
  {
    hide Add64, Mul64, Rotl64, Xor64, Word32, Wide;
    Inverses64();
    var v, w := Wide(Word32(b)), Wide(Word32(c));
    var x, y := Mul64(v, PRIME64_1), Mul64(w, PRIME64_1);
    SumsTell64(Mul64(Rotl64(Xor64(g, x), 23), PRIME64_2), Mul64(Rotl64(Xor64(h, y), 23), PRIME64_2), PRIME64_3);
    TurnedSumTells64(g, h, x, y, 23, PRIME64_2, INVERSE64_2);
    ProductsTell64(v, w, PRIME64_1, INVERSE64_1);
    WideTells(Word32(b), Word32(c));
    if g == h {
      Word32Tells(b, c);
    }
  }

  lemma MixByte64Tells(g: bv64, h: bv64, b: bv8, c: bv8)
    requires MixByte64(g, b) == MixByte64(h, c)
    ensures g == h <==> b == c
  {
    hide Add64, Mul64, Rotl64, Xor64;
    Inverses64();
    TurnedSumTells64(g, h, Mul64(b as bv64, PRIME64_5), Mul64(c as bv64, PRIME64_5), 11, PRIME64_1, INVERSE64_1);
    ProductsTell64(b as bv64, c as bv64, PRIME64_5, INVERSE64_5);
  }

  lemma Avalanche64Tells(g: bv64, h: bv64)
    requires Avalanche64(g) == Avalanche64(h)
    ensures g == h
  {
    hide Mul64, Fold64By29, Fold64By32, Fold64By33;
    Inverses64();
    var a, b := Mul64(Fold64By33(g), PRIME64_2), Mul64(Fold64By33(h), PRIME64_2);
    Fold64By32Tells(Mul64(Fold64By29(a), PRIME64_3), Mul64(Fold64By29(b), PRIME64_3));
    ProductsTell64(Fold64By29(a), Fold64By29(b), PRIME64_3, INVERSE64_3);
    Fold64By29Tells(a, b);
    ProductsTell64(Fold64By33(g), Fold64By33(h), PRIME64_2, INVERSE64_2);
    Fold64By33Tells(g, h);
  }

  /** One piece of the end of a string mixed in: eight bytes, four or one. */
  ghost function Mix64(h: bv64, b: Bytes): bv64
    requires |b| == 8 || |b| == 4 || |b| == 1
  {
    if |b| == 8 then MixLong64(h, b) else if |b| == 4 then MixWord64(h, b) else MixByte64(h, b[0])
  }

  ghost function Piece(n: nat): nat {
    if n >= 8 then 8 else if n >= 4 then 4 else 1
  }

  lemma TailPiece64(h: bv64, t: Bytes)
    requires 0 < |t|
    ensures Tail64(h, t) == Tail64(Mix64(h, t[..Piece(|t|)]), t[Piece(|t|)..])
  {
    hide MixLong64, MixWord64, MixByte64;
  }

  lemma Mix64Tells(g: bv64, h: bv64, b: Bytes, c: Bytes)
    requires |b| == |c| && (|b| == 8 || |b| == 4 || |b| == 1)
    ensures Mix64(g, b) == Mix64(h, c) ==> (g == h <==> b == c)
  {
    hide MixLong64, MixWord64, MixByte64;
    if Mix64(g, b) == Mix64(h, c) {
      if |b| == 8 {
        MixLong64Tells(g, h, b, c);
      } else if |b| == 4 {
        MixWord64Tells(g, h, b, c);
      } else {
        MixByte64Tells(g, h, b[0], c[0]);
        assert b[0] == c[0] ==> b == c;
      }
    }
  }

  lemma {:induction false} Tail64Keeps(g: bv64, h: bv64, t: Bytes)
    requires g != h
    ensures Tail64(g, t) != Tail64(h, t)
    decreases |t|
  {
    hide Mix64;
    if 0 < |t| {
      var n := Piece(|t|);
      TailPiece64(g, t);
      TailPiece64(h, t);
      Mix64Tells(g, h, t[..n], t[..n]);
      Tail64Keeps(Mix64(g, t[..n]), Mix64(h, t[..n]), t[n..]);
    }
  }

  lemma {:induction false} Tail64Differs(h: bv64, s: Bytes, t: Bytes, k: nat)
    requires DiffersAt(s, t, k)
    ensures Tail64(h, s) != Tail64(h, t)
    decreases |s|
  {
    hide Mix64, Tail64;
    var n := Piece(|s|);
    TailPiece64(h, s);
    TailPiece64(h, t);
    CutDiffers(s, t, k, n);
    if k < n {
      Mix64Tells(h, h, s[..n], t[..n]);
      Tail64Keeps(Mix64(h, s[..n]), Mix64(h, t[..n]), s[n..]);
    } else {
      Tail64Differs(Mix64(h, s[..n]), s[n..], t[n..], k - n);
    }
  }

  lemma SameLead64(s: Bytes, t: Bytes, seed: bv64)
    requires |s| == |t| && s[..Whole(|s|, 32)] == t[..Whole(|s|, 32)]
    ensures Lead64(s, seed) == Lead64(t, seed)
  {
  }

  /** The same with 64 bits for a byte behind the last whole block. */
  lemma LastBytesCount64(s: Bytes, t: Bytes, k: nat, seed: bv64)
    requires DiffersAt(s, t, k) && Whole(|s|, 32) <= k
    ensures Hash64(s, seed) != Hash64(t, seed)
  {
    hide Avalanche64, Tail64, AddLength64, Lead64, Whole;
    var n := Whole(|s|, 32);
    CutDiffers(s, t, k, n);
    SameLead64(s, t, seed);
    var g := AddLength64(Lead64(s, seed), |s| % TWO_64);
    Tail64Differs(g, s[n..], t[n..], k - n);
    if Hash64(s, seed) == Hash64(t, seed) {
      Avalanche64Tells(Tail64(g, s[n..]), Tail64(g, t[n..]));
    }
  }

  lemma RoundOfWord64(v: bv64, w: bv64, b: Bytes, c: Bytes)
    requires |b| == |c| == 8
    ensures Round64(v, Word64(b)) == Round64(w, Word64(c)) ==> (v == w <==> b == c)
  {
    hide Round64, Word64;
    if Round64(v, Word64(b)) == Round64(w, Word64(c)) {
      Round64Tells(v, w, Word64(b), Word64(c));
      if Word64(b) == Word64(c) {
        Word64Tells(b, c);
      }
    }
  }

  lemma StepDiffers64(v: Lanes<bv64>, b: Bytes, c: Bytes, k: nat)
    requires |b| == 32 && DiffersAt(b, c, k)
    ensures OneLane(Step64(v, b), Step64(v, c))
  {
    hide Round64, Word64;
    PartDiffers(b, c, k, 0, 8);
    PartDiffers(b, c, k, 8, 16);
    PartDiffers(b, c, k, 16, 24);
    PartDiffers(b, c, k, 24, 32);
    RoundOfWord64(v.v1, v.v1, b[0..8], c[0..8]);
    RoundOfWord64(v.v2, v.v2, b[8..16], c[8..16]);
    RoundOfWord64(v.v3, v.v3, b[16..24], c[16..24]);
    RoundOfWord64(v.v4, v.v4, b[24..32], c[24..32]);
  }

  lemma StepKeeps64(v: Lanes<bv64>, w: Lanes<bv64>, b: Bytes)
    requires |b| == 32 && OneLane(v, w)
    ensures OneLane(Step64(v, b), Step64(w, b))
  {
    hide Round64, Word64;
    RoundOfWord64(v.v1, w.v1, b[0..8], b[0..8]);
    RoundOfWord64(v.v2, w.v2, b[8..16], b[8..16]);
    RoundOfWord64(v.v3, w.v3, b[16..24], b[16..24]);
    RoundOfWord64(v.v4, w.v4, b[24..32], b[24..32]);
  }

  /** A byte in a whole block ends up in exactly one of the lanes. */
  lemma BlockBytesTell64(s: Bytes, t: Bytes, k: nat, seed: bv64)
    requires |s| % 32 == 0 && DiffersAt(s, t, k)
    ensures OneLane(Blocks(Step64, 32, Lanes64(seed), s), Blocks(Step64, 32, Lanes64(seed), t))
  {
    hide Step64, Lanes64, Blocks;
    assert Tells(Step64, 32) by {
      forall v, b: Bytes, c, i: nat | |b| == 32 && DiffersAt(b, c, i)
        ensures OneLane(Step64(v, b), Step64(v, c))
      {
        StepDiffers64(v, b, c, i);
      }
      forall v, w, b: Bytes | |b| == 32 && OneLane(v, w)
        ensures OneLane(Step64(v, b), Step64(w, b))
      {
        StepKeeps64(v, w, b);
      }
    }
    BlocksDiffer(Step64, 32, Lanes64(seed), s, t, k);
  }
}
