/**
 Known hashes of xxHash, which fix the constants, the order of the lanes and the way they converge.
 */
module KnownHashes {
  import opened Words
  import opened XxHash

  lemma EmptyString32()
    ensures Hash32([], 0) == 0x02cc5d05
  {
  }

  lemma EmptyString64()
    ensures Hash64([], 0) == 0xef46db3751d8e999
  {
  }

  // ---------- "Nobody inspects the spammish repetition" ----------

  const FIRST: Bytes :=
    [0x4e, 0x6f, 0x62, 0x6f, 0x64, 0x79, 0x20, 0x69, 0x6e, 0x73, 0x70, 0x65, 0x63, 0x74, 0x73, 0x20]
  const SECOND: Bytes :=
    [0x74, 0x68, 0x65, 0x20, 0x73, 0x70, 0x61, 0x6d, 0x6d, 0x69, 0x73, 0x68, 0x20, 0x72, 0x65, 0x70]
  const END: Bytes := [0x65, 0x74, 0x69, 0x74, 0x69, 0x6f, 0x6e]

  lemma WordsOfFirstBytes()
    ensures Word32([0x4e, 0x6f, 0x62, 0x6f]) == 0x6f626f4e
    ensures Word32([0x64, 0x79, 0x20, 0x69]) == 0x69207964
    ensures Word32([0x6e, 0x73, 0x70, 0x65]) == 0x6570736e
    ensures Word32([0x63, 0x74, 0x73, 0x20]) == 0x20737463
  {
  }

  lemma WordsOfFirst()
    ensures Word32(FIRST[0..4]) == 0x6f626f4e && Word32(FIRST[4..8]) == 0x69207964
    ensures Word32(FIRST[8..12]) == 0x6570736e && Word32(FIRST[12..16]) == 0x20737463
  {
    hide Word32;
    assert FIRST[0..4] == [0x4e, 0x6f, 0x62, 0x6f];
    assert FIRST[4..8] == [0x64, 0x79, 0x20, 0x69];
    assert FIRST[8..12] == [0x6e, 0x73, 0x70, 0x65];
    assert FIRST[12..16] == [0x63, 0x74, 0x73, 0x20];
    WordsOfFirstBytes();
  }

  lemma WordsOfSecondBytes()
    ensures Word32([0x74, 0x68, 0x65, 0x20]) == 0x20656874
    ensures Word32([0x73, 0x70, 0x61, 0x6d]) == 0x6d617073
    ensures Word32([0x6d, 0x69, 0x73, 0x68]) == 0x6873696d
    ensures Word32([0x20, 0x72, 0x65, 0x70]) == 0x70657220
  {
  }

  lemma WordsOfSecond()
    ensures Word32(SECOND[0..4]) == 0x20656874 && Word32(SECOND[4..8]) == 0x6d617073
    ensures Word32(SECOND[8..12]) == 0x6873696d && Word32(SECOND[12..16]) == 0x70657220
  {
    hide Word32;
    assert SECOND[0..4] == [0x74, 0x68, 0x65, 0x20];
    assert SECOND[4..8] == [0x73, 0x70, 0x61, 0x6d];
    assert SECOND[8..12] == [0x6d, 0x69, 0x73, 0x68];
    assert SECOND[12..16] == [0x20, 0x72, 0x65, 0x70];
    WordsOfSecondBytes();
  }

  lemma StepOfFirst32()
    ensures Step32(Lanes32(0), FIRST) == Lanes<bv32>.Lanes(0x046a700a, 0xbfadf8e3, 0x5b32b4aa, 0x137e5555)
  {
    hide Word32;
    WordsOfFirst();
  }

  lemma StepOfSecond32()
    ensures Step32(Lanes<bv32>.Lanes(0x046a700a, 0xbfadf8e3, 0x5b32b4aa, 0x137e5555), SECOND) ==
            Lanes<bv32>.Lanes(0x719a836e, 0x514c1de8, 0x97fa4ba2, 0x242a97a2)
  {
    hide Word32;
    WordsOfSecond();
  }

  lemma LeadOfText32()
    ensures var v := Lanes<bv32>.Lanes(0x719a836e, 0x514c1de8, 0x97fa4ba2, 0x242a97a2);
            AddLength32(Converge32(v), 39) == 0x8c86b554
  {
  }

  lemma MixedEnd32()
    ensures MixWord32(0x8c86b554, [0x65, 0x74, 0x69, 0x74]) == 0x09b51544
    ensures MixByte32(MixByte32(MixByte32(0x09b51544, 0x69), 0x6f), 0x6e) == 0xb3a7011b
  {
  }

  lemma TailOfText32()
    ensures Tail32(0x8c86b554, END) == 0xb3a7011b
  {
    hide MixWord32, MixByte32;
    MixedEnd32();
    EndInPieces();
    var h := MixWord32(0x8c86b554, END[..4]);
    assert Tail32(0x8c86b554, END) == Tail32(h, [0x69, 0x6f, 0x6e]);
    assert Tail32(h, [0x69, 0x6f, 0x6e]) == Tail32(MixByte32(h, 0x69), [0x6f, 0x6e]);
  }

  lemma EndInPieces()
    ensures END[..4] == [0x65, 0x74, 0x69, 0x74] && END[4..] == [0x69, 0x6f, 0x6e]
    ensures var s: Bytes, t: Bytes := [0x69, 0x6f, 0x6e], [0x6f, 0x6e]; s[1..] == t && t[1..] == [0x6e]
  {
  }

  lemma Avalanched32()
    ensures Avalanche32(0xb3a7011b) == 0xe2293b2f
  {
  }

  lemma Text32()
    ensures Hash32(FIRST + SECOND + END, 0) == 0xe2293b2f
  {
    hide Step32, Converge32, Tail32, Avalanche32, Lanes32, AddLength32, Blocks;
    var s := FIRST + SECOND + END;
    WholeUnique(39, 32, 16);
    assert s[..32] == FIRST + SECOND && s[32..] == END;
    OneBlock(Step32, 16, Lanes32(0), FIRST);
    MixedMore(Step32, 16, Lanes32(0), FIRST, SECOND);
    StepOfFirst32();
    StepOfSecond32();
    LeadOfText32();
    TailOfText32();
    Avalanched32();
  }

  lemma WordsOfBoth64()
    ensures var b := FIRST + SECOND;
            && Word64(b[0..8]) == 0x692079646f626f4e && Word64(b[8..16]) == 0x207374636570736e
            && Word64(b[16..24]) == 0x6d61707320656874 && Word64(b[24..32]) == 0x706572206873696d
  {
    hide Word32;
    WordsOfFirst();
    WordsOfSecond();
    var b := FIRST + SECOND;
    assert b[0..8][..4] == FIRST[0..4] && b[0..8][4..] == FIRST[4..8];
    assert b[8..16][..4] == FIRST[8..12] && b[8..16][4..] == FIRST[12..16];
    assert b[16..24][..4] == SECOND[0..4] && b[16..24][4..] == SECOND[4..8];
    assert b[24..32][..4] == SECOND[8..12] && b[24..32][4..] == SECOND[12..16];
  }

  lemma StepOfBoth64()
    ensures Step64(Lanes64(0), FIRST + SECOND) ==
            Lanes<bv64>.Lanes(0x37245127a4067e4b, 0x1b302b0a818f92cf, 0xcd62d843d0580fca, 0x1c16e43ef2142a4a)
  {
    hide Word64;
    WordsOfBoth64();
  }

  lemma Turned64()
    ensures Add64(Add64(Add64(Rotl64(0x37245127a4067e4b, 1), Rotl64(0x1b302b0a818f92cf, 7)),
                        Rotl64(0xcd62d843d0580fca, 12)), Rotl64(0x1c16e43ef2142a4a, 18)) == 0xc4de2ce639fb8154
  {
  }

  lemma Merged64()
    ensures MergeRound64(0xc4de2ce639fb8154, 0x37245127a4067e4b) == 0x30d40ddd00aea144
    ensures MergeRound64(0x30d40ddd00aea144, 0x1b302b0a818f92cf) == 0xe5a1f095bf498698
    ensures MergeRound64(0xe5a1f095bf498698, 0xcd62d843d0580fca) == 0xf9cee721e748096d
    ensures MergeRound64(0xf9cee721e748096d, 0x1c16e43ef2142a4a) == 0x84f22c421a11a8b5
  {
  }

  lemma LeadOfText64()
    ensures var v := Lanes<bv64>.Lanes(0x37245127a4067e4b, 0x1b302b0a818f92cf, 0xcd62d843d0580fca, 0x1c16e43ef2142a4a);
            Converge64(v) == 0x84f22c421a11a8b5
  {
    hide MergeRound64, Rotl64, Add64;
    Turned64();
    Merged64();
  }

  lemma LengthAdded64()
    ensures AddLength64(0x84f22c421a11a8b5, 39) == 0x84f22c421a11a8dc
  {
  }

  lemma MixedEnd64()
    ensures MixWord64(0x84f22c421a11a8dc, [0x65, 0x74, 0x69, 0x74]) == 0x9fca0f5d0aaa110f
    ensures MixByte64(0x9fca0f5d0aaa110f, 0x69) == 0x769671546f21ba14
    ensures MixByte64(0x769671546f21ba14, 0x6f) == 0xeae9b643c5f94e52
    ensures MixByte64(0xeae9b643c5f94e52, 0x6e) == 0x1d0a47483b37cc24
  {
  }

  lemma TailOfText64()
    ensures Tail64(0x84f22c421a11a8dc, END) == 0x1d0a47483b37cc24
  {
    hide MixLong64, MixWord64, MixByte64;
    MixedEnd64();
    EndInPieces();
    assert Tail64(0x84f22c421a11a8dc, END) == Tail64(0x9fca0f5d0aaa110f, [0x69, 0x6f, 0x6e]);
    assert Tail64(0x9fca0f5d0aaa110f, [0x69, 0x6f, 0x6e]) == Tail64(0x769671546f21ba14, [0x6f, 0x6e]);
  }

  lemma Avalanched64()
    ensures Avalanche64(0x1d0a47483b37cc24) == 0xfbcea83c8a378bf1
  {
  }

  lemma Text64()
    ensures Hash64(FIRST + SECOND + END, 0) == 0xfbcea83c8a378bf1
  {
    hide Step64, Converge64, Tail64, Avalanche64, Lanes64, AddLength64, Blocks;
    var s := FIRST + SECOND + END;
    WholeUnique(39, 32, 32);
    assert s[..32] == FIRST + SECOND && s[32..] == END;
    OneBlock(Step64, 32, Lanes64(0), FIRST + SECOND);
    StepOfBoth64();
    LeadOfText64();
    LengthAdded64();
    TailOfText64();
    Avalanched64();
  }
}
