/** What both configurations of the hash table share: keys, values, tags, slot words and length words. */
module TableItems {
  import opened Words
  import opened Remainders

  const MAX_KEY_WORDS: int := 31       // kMaxKeyLength = 255 bytes
  const MAX_VALUE_WORDS: int := 131071 // kMaxValueLength = 1048575 bytes

  datatype Result = Success | Error | InsufficientSpace | Exists | NotFound | PartialValue

  datatype Key = Key(hash: U64, words: seq<U64>)

  type Value = seq<U64>

  /** Tags are never zero, so that an empty slot matches no tag. */
  function CalcTag(hash: U64): (tag: U16)
    ensures tag != 0
  {
    if hash % TWO_16 == 0 then 1 else hash % TWO_16
  }

  /** `(key_hash >> 16) & mask`; the bucket count is a power of two, so masking is taking the remainder. */
  function CalcBucket(hash: U64, numBuckets: nat): (b: nat)
    requires 0 < numBuckets
    ensures b < numBuckets
  {
    hash / TWO_16 % TWO_32 % numBuckets
  }

  /** Buckets take turns: hashes without high bits fall in the first one, and the next value of the bits above the tag
      falls in the next one, going round. */
  lemma BucketsTakeTurns(hash: U64, numBuckets: nat)
    requires 0 < numBuckets && TWO_32 % numBuckets == 0
    ensures hash < TWO_16 ==> CalcBucket(hash, numBuckets) == 0
    ensures hash + TWO_16 < TWO_64 ==>
              CalcBucket(hash + TWO_16, numBuckets) == (CalcBucket(hash, numBuckets) + 1) % numBuckets
    ensures CalcBucket(hash, numBuckets) == hash / TWO_16 % numBuckets
  {
    hide CalcBucket;
    var high := hash / TWO_16;
    BucketIsHigh(hash, numBuckets);
    assert high == 0 ==> high % numBuckets == 0;
    if hash + TWO_16 < TWO_64 {
      assert (hash + TWO_16) / TWO_16 == high + 1;
      BucketIsHigh(hash + TWO_16, numBuckets);
      assert high + 1 == high % numBuckets + 1 + high / numBuckets * numBuckets;
      ModShift(high % numBuckets + 1, numBuckets, high / numBuckets);
    }
  }

  lemma BucketIsHigh(hash: U64, numBuckets: nat)
    requires 0 < numBuckets && TWO_32 % numBuckets == 0
    ensures CalcBucket(hash, numBuckets) == hash / TWO_16 % numBuckets
  {
    LowBitsTell(hash / TWO_16, numBuckets, TWO_32 / numBuckets);
  }

  lemma LowBitsTell(high: nat, n: nat, q: nat)
    requires 0 < n && TWO_32 == q * n
    ensures high % TWO_32 % n == high % n
  {
    var k := high / TWO_32;
    assert high == high % TWO_32 + k * TWO_32;
    assert k * TWO_32 == k * q * n;
    ModShift(high % TWO_32, n, k * q);
  }

  /** The bucket, in numbers. */
  lemma BucketIs(hash: U64, numBuckets: nat)
    requires 0 < numBuckets
    ensures CalcBucket(hash, numBuckets) == hash / TWO_16 % TWO_32 % numBuckets
  {
  }

  function MakeItemVec(tag: U16, offset: nat): (vec: U64)
    requires offset < TWO_48
  {
    tag * TWO_48 + offset
  }

  function GetTag(vec: U64): U16 {
    vec / TWO_48
  }

  function GetOffset(vec: U64): nat {
    vec % TWO_48
  }

  lemma VecRoundTrip(tag: U16, offset: nat)
    requires offset < TWO_48
    ensures GetTag(MakeItemVec(tag, offset)) == tag && GetOffset(MakeItemVec(tag, offset)) == offset
    ensures tag != 0 ==> MakeItemVec(tag, offset) != 0
  {
  }

  /** The 32-bit length word in the low half of a word whose high half (`reserved0`) stays. */
  function WithLengths(w: U64, keyLength: nat, valueLength: nat): U64
    requires keyLength < TWO_8 && valueLength < TWO_24
  {
    w / TWO_32 * TWO_32 + keyLength * TWO_24 + valueLength
  }

  lemma LengthsRoundTrip(w: U64, keyLength: nat, valueLength: nat)
    requires keyLength < TWO_8 && valueLength < TWO_24
    ensures WithLengths(w, keyLength, valueLength) % TWO_32 / TWO_24 == keyLength
    ensures WithLengths(w, keyLength, valueLength) % TWO_24 == valueLength
    ensures WithLengths(w, keyLength, valueLength) / TWO_32 == w / TWO_32
  {
    var low := keyLength * TWO_24 + valueLength;
    ModUnique(WithLengths(w, keyLength, valueLength), TWO_32, w / TWO_32, low);
    ModUnique(low, TWO_24, keyLength, valueLength);
    ModUnique(WithLengths(w, keyLength, valueLength), TWO_24, w / TWO_32 * TWO_8 + keyLength, valueLength);
  }

  /** sizeof(Item) and the rounded-up key and value. */
  function ItemSize(key: Key, value: Value): nat {
    16 + 8 * |key.words| + 8 * |value|
  }

  function Min(a: nat, b: nat): (m: nat)
    ensures m <= a && m <= b && (m == a || m == b)
  {
    if a < b then a else b
  }

  /** The length-min prefix of the value is in front of the buffer; the result tells whether it was cut. */
  ghost predicate Delivered(value: Value, inLength: nat, result: Result, outLength: nat, before: seq<U64>,
                            after: seq<U64>) {
    var n := outLength / 8;
    && outLength == Min(8 * |value|, inLength)
    && result == (if outLength == 8 * |value| then Success else PartialValue)
    && n <= |value| && n <= |before| == |after|
    && after[..n] == value[..n] && after[n..] == before[n..]
  }
}
