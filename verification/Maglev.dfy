/**
 Maglev load balancing: every backend has its own order of preference over the slots of a table of prime size, the
 backends take turns to claim their first free slot, and a small cache in front of the table remembers recent answers.
 */
module Maglev {
  import opened Words
  import opened Remainders
  import opened Counting

  const SIZE: int := 65537 // kSize
  const EMPTY: int := 0xffff

  // ---------- The table size is prime ----------

  function NoDivisor(k: nat): bool {
    if k < 2 then true else if 65537 % k == 0 then false else NoDivisor(k - 1)
  }

  lemma UpTo64()
    ensures NoDivisor(64)
  {
    assert NoDivisor(8) && NoDivisor(16) && NoDivisor(24) && NoDivisor(32) && NoDivisor(40) && NoDivisor(48) &&
      NoDivisor(56) && NoDivisor(64);
  }

  lemma UpTo128()
    requires NoDivisor(64)
    ensures NoDivisor(128)
  {
    assert NoDivisor(72) && NoDivisor(80) && NoDivisor(88) && NoDivisor(96) && NoDivisor(104) && NoDivisor(112) &&
      NoDivisor(120) && NoDivisor(128);
  }

  lemma UpTo192()
    requires NoDivisor(128)
    ensures NoDivisor(192)
  {
    assert NoDivisor(136) && NoDivisor(144) && NoDivisor(152) && NoDivisor(160) && NoDivisor(168) &&
      NoDivisor(176) && NoDivisor(184) && NoDivisor(192);
  }

  lemma UpTo256()
    requires NoDivisor(192)
    ensures NoDivisor(256)
  {
    assert NoDivisor(200) && NoDivisor(208) && NoDivisor(216) && NoDivisor(224) && NoDivisor(232) &&
      NoDivisor(240) && NoDivisor(248) && NoDivisor(256);
  }

  lemma {:induction false} NotADivisor(s: nat, k: nat)
    requires 2 <= s <= k && NoDivisor(k)
    ensures 65537 % s != 0
  {
    if s < k {
      NotADivisor(s, k - 1);
    }
  }

  lemma SizeIsPrime(s: nat)
    requires 2 <= s < SIZE
    ensures SIZE % s != 0
  {
    UpTo64();
    UpTo128();
    UpTo192();
    UpTo256();
    hide NoDivisor;
    if s <= 256 {
      NotADivisor(s, 256);
    } else {
      var q := SIZE / s;
      SmallCofactor(s);
      Cofactor(SIZE, s);
      assert SIZE == q * s + SIZE % s;
      if 2 <= q {
        NotADivisor(q, 256);
      }
    }
  }

  lemma Cofactor(n: nat, s: nat)
    requires 0 < s <= n
    ensures 0 < n / s && (n % s == 0 ==> n % (n / s) == 0)
  {
    var q := n / s;
    assert n == q * s + n % s;
    Steps(q, 1, s);
    Multiple(s, q);
  }

  lemma SmallCofactor(s: nat)
    requires 256 < s <= SIZE
    ensures 1 <= SIZE / s <= 256
  {
    var q := SIZE / s;
    assert SIZE == q * s + SIZE % s;
    Steps(256, q, s);
    Steps(q, 1, s);
  }

  /** Modulo a prime there are no divisors of zero. */
  lemma {:induction false} NoZeroProduct(s: nat, d: nat)
    requires 0 < s < SIZE && 0 < d < SIZE
    ensures s * d % SIZE != 0
    decreases s
  {
    if s == 1 {
      ModUnique(d, SIZE, 0, d);
    } else if s * d % SIZE == 0 {
      SizeIsPrime(s);
      var r, q, m := SIZE % s, SIZE / s, s * d / SIZE;
      assert r * d == (d - q * m) * SIZE by {
        assert SIZE == q * s + r && s * d == m * SIZE;
        assert r * d == SIZE * d - q * (s * d);
        assert q * (m * SIZE) == q * m * SIZE;
      }
      Multiple(d - q * m, SIZE);
      NoZeroProduct(r, d);
    }
  }

  // ---------- Preferences ----------

  /** A row's entry as computed with 32-bit arithmetic. */
  function Preference(offset: nat, skip: nat, j: nat): (c: nat)
    ensures c < SIZE
  {
    (offset + j * skip % TWO_32) % TWO_32 % SIZE
  }

  ghost predicate InRange(offset: nat, skip: nat) {
    offset < SIZE && 1 <= skip < SIZE
  }

  /** The offsets and skips for which the sum does not fit in 32 bits at the end of the row. */
  ghost predicate Wraps(offset: nat, skip: nat) {
    skip == 65536 || (skip == 65535 && offset == 65536)
  }

  /** No two entries of a row are the same. */
  ghost predicate Permutes(offset: nat, skip: nat) {
    forall j, k | 0 <= j < k < SIZE :: Preference(offset, skip, j) != Preference(offset, skip, k)
  }

  lemma WrapsSomewhere(offset: nat, skip: nat)
    requires InRange(offset, skip)
    ensures Wraps(offset, skip) <==> TWO_32 <= offset + 65536 * skip
    ensures forall j | 0 <= j < SIZE :: j * skip <= 65536 * skip
  {
    forall j | 0 <= j < SIZE
      ensures j * skip <= 65536 * skip
    {
      Steps(j, 65536, skip);
    }
  }

  lemma PlainPreference(offset: nat, skip: nat, j: nat)
    requires InRange(offset, skip) && !Wraps(offset, skip) && j < SIZE
    ensures Preference(offset, skip, j) == (offset + j * skip) % SIZE
  {
    WrapsSomewhere(offset, skip);
    ModUnique(j * skip, TWO_32, 0, j * skip);
    ModUnique(offset + j * skip, TWO_32, 0, offset + j * skip);
  }

  lemma RowIsInjective(offset: nat, skip: nat, j: nat, k: nat)
    requires InRange(offset, skip) && !Wraps(offset, skip) && j < k < SIZE
    ensures Preference(offset, skip, j) != Preference(offset, skip, k)
  {
    PlainPreference(offset, skip, j);
    PlainPreference(offset, skip, k);
    var x, y := offset + j * skip, offset + k * skip;
    if x % SIZE == y % SIZE {
      assert (k - j) * skip == (y / SIZE - x / SIZE) * SIZE;
      Multiple(y / SIZE - x / SIZE, SIZE);
      NoZeroProduct(k - j, skip);
    }
  }

  /** A row is a permutation of the slots exactly when its 32-bit arithmetic does not wrap. */
  lemma PermutesExactly(offset: nat, skip: nat)
    requires InRange(offset, skip)
    ensures Permutes(offset, skip) <==> !Wraps(offset, skip)
  {
    if !Wraps(offset, skip) {
      forall j, k | 0 <= j < k < SIZE
        ensures Preference(offset, skip, j) != Preference(offset, skip, k)
      {
        RowIsInjective(offset, skip, j, k);
      }
    } else if skip == 65536 {
      assert Preference(offset, skip, 0) == Preference(offset, skip, 65536);
    } else {
      assert Preference(offset, skip, 32768) == Preference(offset, skip, 65536);
    }
  }

  /** The one slot that a wrapping row misses. */
  function Missed(offset: nat, skip: nat): nat {
    if skip == 65536 && offset < 65536 then offset + 1 else 1
  }

  /** An entry whose sum fits in 32 bits. */
  lemma FittingPreference(offset: nat, skip: nat, j: nat, q: nat, c: nat)
    requires offset + j * skip < TWO_32 && offset + j * skip == q * SIZE + c && c < SIZE
    ensures Preference(offset, skip, j) == c
  {
    ModUnique(j * skip, TWO_32, 0, j * skip);
    ModUnique(offset + j * skip, TWO_32, 0, offset + j * skip);
    ModUnique(offset + j * skip, SIZE, q, c);
  }

  /** An entry of a row with skip 65536, which is -1 modulo the table size. */
  lemma MinusOnePreference(offset: nat, j: nat)
    requires offset < SIZE && j < SIZE
    ensures Preference(offset, 65536, j) ==
            if j == 65536 then offset else if j == 65535 && offset == 65536 then 0
            else if j <= offset then offset - j else offset + SIZE - j
  {
    hide Preference;
    if j == 65536 || (j == 65535 && offset == 65536) {
      LastOfMinusOne(offset);
    } else if j <= offset {
      FittingPreference(offset, 65536, j, j, offset - j);
    } else {
      FittingPreference(offset, 65536, j, j - 1, offset + SIZE - j);
    }
  }

  lemma LastOfMinusOne(offset: nat)
    requires offset < SIZE
    ensures Preference(offset, 65536, 65536) == offset && Preference(65536, 65536, 65535) == 0
  {
  }

  /** An entry of the row with skip 65535, which is -2, and offset 65536. */
  lemma MinusTwoPreference(j: nat)
    requires j < SIZE
    ensures Preference(65536, 65535, j) ==
            if j == 65536 then 0 else if 2 * j <= 65536 then 65536 - 2 * j else 65536 + SIZE - 2 * j
  {
    hide Preference;
    if j == 65536 {
      LastOfMinusTwo();
    } else if 2 * j <= 65536 {
      FittingPreference(65536, 65535, j, j, 65536 - 2 * j);
    } else {
      FittingPreference(65536, 65535, j, j - 1, 65536 + SIZE - 2 * j);
    }
  }

  lemma LastOfMinusTwo()
    ensures Preference(65536, 65535, 65536) == 0
  {
  }

  /** A wrapping row reaches every other slot. */
  lemma WrappingReaches(offset: nat, skip: nat, c: nat) returns (j: nat)
    requires InRange(offset, skip) && Wraps(offset, skip) && c < SIZE && c != Missed(offset, skip)
    ensures j < SIZE && Preference(offset, skip, j) == c
  {
    hide Preference;
    if skip == 65536 {
      j := if c <= offset then offset - c else offset + SIZE - c;
      if offset == 65536 && c == 0 {
        j := 65535;
      }
      MinusOnePreference(offset, j);
    } else {
      j := if c % 2 == 0 then (65536 - c) / 2 else (65536 + SIZE - c) / 2;
      MinusTwoPreference(j);
    }
  }

  lemma WrappingMisses(offset: nat, skip: nat, j: nat)
    requires InRange(offset, skip) && Wraps(offset, skip) && j < SIZE
    ensures Preference(offset, skip, j) != Missed(offset, skip)
  {
    hide Preference;
    if skip == 65536 {
      MinusOnePreference(offset, j);
    } else {
      MinusTwoPreference(j);
    }
  }

  ghost function RowOf(offset: nat, skip: nat): (row: seq<nat>)
    ensures |row| == SIZE && forall j | 0 <= j < SIZE :: row[j] == Preference(offset, skip, j)
  {
    seq(SIZE, j requires 0 <= j < SIZE => Preference(offset, skip, j))
  }

  lemma RowOfIsRow(offset: nat, skip: nat)
    requires InRange(offset, skip) && !Wraps(offset, skip)
    ensures IsRow(RowOf(offset, skip))
  {
    hide Preference;
    PermutesExactly(offset, skip);
  }

  /** What two hashes of a backend choose. */
  function Offset(hashes: (U32, U32)): (offset: nat)
    ensures offset < SIZE
  {
    hashes.0 % SIZE
  }

  function Skip(hashes: (U32, U32)): (skip: nat)
    ensures 1 <= skip < SIZE
  {
    hashes.1 % (SIZE - 1) + 1
  }

  /** The first hash chooses where a row begins, the second how far it goes from entry to entry; where the sum wraps,
      the step is another one at the end of the row. */
  lemma RowGoesOn(hashes: (U32, U32))
    ensures var row := RowOf(Offset(hashes), Skip(hashes));
            && row[0] == hashes.0 % 65537
            && (hashes.1 % 65536 < 65534 || (hashes.1 % 65536 == 65534 && hashes.0 % 65537 != 65536) ==>
                  forall j | 0 <= j < 65536 :: row[j + 1] == (row[j] + hashes.1 % 65536 + 1) % 65537)
  {
    var offset, skip := Offset(hashes), Skip(hashes);
    FittingPreference(offset, skip, 0, 0, offset);
    if !Wraps(offset, skip) {
      forall j | 0 <= j < 65536
        ensures Preference(offset, skip, j + 1) == (Preference(offset, skip, j) + skip) % SIZE
      {
        PlainPreference(offset, skip, j);
        PlainPreference(offset, skip, j + 1);
        NextSum(offset + j * skip, skip);
        assert offset + (j + 1) * skip == offset + j * skip + skip;
      }
    }
  }

  lemma NextSum(a: nat, b: nat)
    ensures (a + b) % SIZE == (a % SIZE + b) % SIZE
  {
    ModShift(a % SIZE + b, SIZE, a / SIZE);
  }

  ghost predicate Wrapping(hashes: (U32, U32)) {
    Wraps(Offset(hashes), Skip(hashes))
  }

  function Missing(hashes: (U32, U32)): nat {
    Missed(Offset(hashes), Skip(hashes))
  }

  // ---------- Filling the table ----------

  ghost predicate InTable(row: seq<nat>) {
    |row| == SIZE && forall j | 0 <= j < SIZE :: row[j] < SIZE
  }

  ghost predicate IsRow(row: seq<nat>) {
    InTable(row) && Distinct(row, 0, SIZE)
  }

  /** A permutation reaches every slot. */
  lemma RowReaches(row: seq<nat>, c: nat) returns (j: nat)
    requires IsRow(row) && c < SIZE
    ensures j < SIZE && row[j] == c
  {
    hide Values, Below, Distinct;
    ValuesSize(row, 0, SIZE);
    Subset(Values(row, 0, SIZE), Below(SIZE));
    assert c in Values(row, 0, SIZE);
    j :| 0 <= j < SIZE && row[j] == c;
  }

  /** A row that reaches every slot but one. */
  ghost predicate MissesOne(row: seq<nat>, m: nat) {
    && InTable(row) && m < SIZE && (forall j | 0 <= j < SIZE :: row[j] != m)
    && forall c: nat | c < SIZE && c != m :: c in row
  }

  lemma WrappingMissesOne(offset: nat, skip: nat)
    requires InRange(offset, skip) && Wraps(offset, skip)
    ensures MissesOne(RowOf(offset, skip), Missed(offset, skip))
  {
    hide Preference;
    var row, m := RowOf(offset, skip), Missed(offset, skip);
    forall j | 0 <= j < SIZE
      ensures row[j] != m
    {
      WrappingMisses(offset, skip, j);
    }
    forall c: nat | c < SIZE && c != m
      ensures c in row
    {
      var j := WrappingReaches(offset, skip, c);
      assert row[j] == c;
    }
  }

  /** The position of the first free slot in a row, looking from a position on. */
  ghost function FirstFree(row: seq<nat>, t: seq<U16>, from: nat): (j: nat)
    requires InTable(row) && |t| == SIZE && from <= SIZE
    ensures from <= j <= SIZE && (j < SIZE ==> t[row[j]] == EMPTY)
    ensures forall k | from <= k < j :: t[row[k]] != EMPTY
    decreases SIZE - from
  {
    if from == SIZE || t[row[from]] == EMPTY then from else FirstFree(row, t, from + 1)
  }

  /** The table after n claims: the backends take turns, each takes the first slot of its row that is still free. */
  ghost function Claimed(rows: seq<seq<nat>>, n: nat): (t: seq<U16>)
    requires 0 < |rows| <= EMPTY && forall i | 0 <= i < |rows| :: InTable(rows[i])
    ensures |t| == SIZE
  {
    if n == 0 then seq(SIZE, _ => EMPTY) else
      var t, i := Claimed(rows, n - 1), (n - 1) % |rows|;
      var j := FirstFree(rows[i], t, 0);
      if j < SIZE then t[rows[i][j] := i] else t
  }

  /** Whenever a backend has its turn, its row still has a free slot. */
  ghost predicate Fillable(rows: seq<seq<nat>>)
    requires 0 < |rows| <= EMPTY && forall i | 0 <= i < |rows| :: InTable(rows[i])
  {
    forall n: nat | n < SIZE :: HasTurn(rows, n)
  }

  ghost predicate HasTurn(rows: seq<seq<nat>>, n: nat)
    requires 0 < |rows| <= EMPTY && forall i | 0 <= i < |rows| :: InTable(rows[i])
  {
    FirstFree(rows[n % |rows|], Claimed(rows, n), 0) < SIZE
  }

  /** Slots of a backend, or free ones. */
  ghost function Owned(t: seq<U16>, i: U16): nat {
    multiset(t)[i]
  }

  lemma {:induction false} AllFree(t: seq<U16>)
    requires forall c | 0 <= c < |t| :: t[c] == EMPTY
    ensures Owned(t, EMPTY) == |t|
  {
    if t != [] {
      AllFree(t[1..]);
      assert t == [EMPTY] + t[1..];
    }
  }

  /** One claim of a free slot. */
  lemma OneClaim(t: seq<U16>, c: nat, i: U16)
    requires c < |t| && t[c] == EMPTY && i != EMPTY
    ensures Owned(t[c := i], EMPTY) == Owned(t, EMPTY) - 1 && Owned(t[c := i], i) == Owned(t, i) + 1
    ensures forall k: U16 | k != EMPTY && k != i :: Owned(t[c := i], k) == Owned(t, k)
  {
  }

  lemma NoneOwned(t: seq<U16>, i: U16)
    ensures Owned(t, i) == 0 <==> forall c | 0 <= c < |t| :: t[c] != i
  {
    assert i in multiset(t) <==> i in t;
  }

  /** Free slots and claims add up, and the claims are shared out evenly: q rounds and i more. */
  ghost predicate Even(t: seq<U16>, nb: nat, n: nat, q: nat, i: nat)
    requires nb <= EMPTY
  {
    && |t| == SIZE && i <= nb && n == q * nb + i && Owned(t, EMPTY) + n == SIZE
    && (forall k | 0 <= k < nb :: Owned(t, k) == q + if k < i then 1 else 0)
    && (forall c | 0 <= c < SIZE :: t[c] < nb || t[c] == EMPTY)
  }

  /** While slots are free, every row has one at or behind the position that has been passed so far. */
  lemma FreeAhead(t: seq<U16>, row: seq<nat>, nb: nat, n: nat, q: nat, i: nat, next: nat)
    requires nb <= EMPTY && Even(t, nb, n, q, i) && n < SIZE && IsRow(row)
    requires PassedBy(t, row, next)
    ensures next <= FirstFree(row, t, 0) < SIZE && FirstFree(row, t, next) == FirstFree(row, t, 0)
  {
    hide Owned, FirstFree, Distinct;
    NoneOwned(t, EMPTY);
    var c: nat :| c < |t| && t[c] == EMPTY;
    var j := RowReaches(row, c);
    SkipTaken(row, t, next);
  }

  ghost predicate PassedBy(t: seq<U16>, row: seq<nat>, next: nat)
    requires InTable(row) && |t| == SIZE
  {
    next <= SIZE && forall k | 0 <= k < next :: t[row[k]] != EMPTY
  }

  lemma FirstFreeHere(row: seq<nat>, t: seq<U16>, next: nat)
    requires InTable(row) && |t| == SIZE && next < SIZE && t[row[next]] == EMPTY
    ensures FirstFree(row, t, next) == next
  {
  }

  lemma RowEntry(row: seq<nat>, j: nat)
    requires InTable(row) && j < SIZE
    ensures |row| == SIZE && row[j] < SIZE
  {
  }

  lemma PassedAfterClaim(t: seq<U16>, row: seq<nat>, next: nat, c: nat, i: nat)
    requires InTable(row) && |t| == SIZE && PassedBy(t, row, next) && c < SIZE && i < EMPTY
    ensures PassedBy(t[c := i], row, next)
    ensures next < SIZE && row[next] == c ==> PassedBy(t[c := i], row, next + 1)
  {
  }

  /** One step over a taken slot. */
  lemma PassedOne(t: seq<U16>, row: seq<nat>, next: nat)
    requires InTable(row) && |t| == SIZE && PassedBy(t, row, next) && next < SIZE && t[row[next]] != EMPTY
    ensures PassedBy(t, row, next + 1)
  {
  }

  lemma ClaimedNext(rows: seq<seq<nat>>, n: nat, i: nat, j: nat)
    requires 0 < |rows| <= EMPTY && forall i | 0 <= i < |rows| :: InTable(rows[i])
    requires n % |rows| == i < |rows| && j == FirstFree(rows[i], Claimed(rows, n), 0) < SIZE
    ensures |rows[i]| == SIZE && rows[i][j] < SIZE && Claimed(rows, n + 1) == Claimed(rows, n)[rows[i][j] := i]
  {
    hide FirstFree;
  }

  lemma NothingClaimed(nb: nat)
    requires 0 < nb <= EMPTY
    ensures Even(seq(SIZE, _ => EMPTY), nb, 0, 0, 0)
  {
    var t := seq<U16>(SIZE, _ => EMPTY);
    AllFree(t);
    forall k | 0 <= k < nb
      ensures Owned(t, k) == 0
    {
      NoneOwned(t, k);
    }
  }

  lemma ClaimedNothing(rows: seq<seq<nat>>)
    requires 0 < |rows| <= EMPTY && forall i | 0 <= i < |rows| :: InTable(rows[i])
    ensures Claimed(rows, 0) == seq(SIZE, _ => EMPTY)
  {
  }

  lemma TurnOf(n: nat, nb: nat, q: nat, i: nat, t: seq<U16>)
    requires 0 < nb <= EMPTY && Even(t, nb, n, q, i) && i < nb
    ensures n % nb == i
  {
    ModUnique(n, nb, q, i);
  }

  lemma {:induction false} SkipTaken(row: seq<nat>, t: seq<U16>, next: nat)
    requires InTable(row) && |t| == SIZE && next <= SIZE && forall k | 0 <= k < next :: t[row[k]] != EMPTY
    ensures FirstFree(row, t, next) == FirstFree(row, t, 0)
  {
    if 0 < next {
      SkipTaken(row, t, next - 1);
    }
  }

  lemma EvenAfterClaim(t: seq<U16>, nb: nat, n: nat, q: nat, i: nat, c: nat)
    requires 0 < nb <= EMPTY && Even(t, nb, n, q, i) && i < nb && c < SIZE && t[c] == EMPTY
    ensures n < SIZE && Even(t[c := i], nb, n + 1, q, i + 1)
    ensures i + 1 == nb ==> Even(t[c := i], nb, n + 1, q + 1, 0)
  {
    hide Owned;
    OneClaim(t, c, i);
    NoneOwned(t, EMPTY);
    var t' := t[c := i];
    forall k | 0 <= k < nb
      ensures Owned(t', k) == q + if k < i + 1 then 1 else 0
    {
      assert Owned(t, k) == q + if k < i then 1 else 0;
    }
    assert (q + 1) * nb == q * nb + nb;
  }

  /** The table when all slots are claimed. */
  ghost predicate Balanced(t: seq<U16>, nb: nat)
    requires 0 < nb <= EMPTY
  {
    && |t| == SIZE
    && (forall c | 0 <= c < SIZE :: t[c] < nb)
    && (forall k | 0 <= k < nb :: Owned(t, k) == SIZE / nb + if k < SIZE % nb then 1 else 0)
  }

  lemma FullIsBalanced(t: seq<U16>, nb: nat, q: nat, i: nat)
    requires 0 < nb <= EMPTY && Even(t, nb, SIZE, q, i) && i < nb
    ensures Balanced(t, nb)
  {
    hide Owned;
    ModUnique(SIZE, nb, q, i);
    NoneOwned(t, EMPTY);
  }

  // ---------- The cache ----------

  const WAYS: int := 4 // kEntriesPerBucket

  /** `isEntry` is zero in an unused entry; in the first entry of a bucket its upper bits number the newest entry. */
  datatype Entry = Entry(isEntry: U16, value: U16, key: U32)

  ghost predicate IsBucket(ws: seq<Entry>) {
    |ws| == WAYS
  }

  /** Entries are used from the first on. */
  ghost function Used(ws: seq<Entry>): (m: nat)
    requires IsBucket(ws)
    ensures m <= WAYS
  {
    if ws[0].isEntry == 0 then 0 else if ws[1].isEntry == 0 then 1
    else if ws[2].isEntry == 0 then 2 else if ws[3].isEntry == 0 then 3 else 4
  }

  ghost predicate BucketOk(ws: seq<Entry>, t: seq<U16>) {
    && IsBucket(ws) && |t| == SIZE
    && (forall k | 0 <= k < WAYS :: ws[k].isEntry != 0 <==> k < Used(ws))
    && (0 < Used(ws) ==> ws[0].isEntry % 2 == 1 && ws[0].isEntry / 2 < Used(ws))
    && (Used(ws) < WAYS ==> ws[0].isEntry / 2 + 1 == Used(ws) || Used(ws) == 0)
    && (forall k | 0 <= k < Used(ws) :: ws[k].value == t[ws[k].key % SIZE])
    && (forall j, k | 0 <= j < k < Used(ws) :: ws[j].key != ws[k].key)
  }

  /** The keys in a bucket, the oldest first. */
  ghost function Fifo(ws: seq<Entry>): (keys: seq<U32>)
    requires IsBucket(ws)
    ensures |keys| == Used(ws)
  {
    var a, b, c, d := ws[0].key, ws[1].key, ws[2].key, ws[3].key;
    match Used(ws)
    case 0 => []
    case 1 => [a]
    case 2 => [a, b]
    case 3 => [a, b, c]
    case _ =>
      var newest := ws[0].isEntry / 2;
      if newest == 0 then [b, c, d, a]
      else if newest == 1 then [c, d, a, b]
      else if newest == 2 then [d, a, b, c]
      else [a, b, c, d]
  }

  /** A new key goes behind the others; the oldest makes room when there are four already. */
  function Remembered(keys: seq<U32>, key: U32): seq<U32> {
    if key in keys then keys else (if |keys| < WAYS then keys else keys[1..]) + [key]
  }

  /** Writing the entry at `at` as the newest. */
  function WithEntry(ws: seq<Entry>, at: nat, key: U32, value: U16): seq<Entry>
    requires |ws| == WAYS && at < WAYS
  {
    var ws' := ws[at := Entry(1, value, key)];
    ws'[0 := ws'[0].(isEntry := 2 * at + 1)]
  }

  lemma FifoHas(ws: seq<Entry>, t: seq<U16>, key: U32)
    requires BucketOk(ws, t)
    ensures key in Fifo(ws) <==> exists k | 0 <= k < Used(ws) :: ws[k].key == key
  {
    var m, keys := Used(ws), Fifo(ws);
    if m == 1 || m == 2 || m == 3 {
      assert forall k | 0 <= k < m :: keys[k] == ws[k].key;
    } else if m == WAYS {
      assert ws[0].key in keys && ws[1].key in keys && ws[2].key in keys && ws[3].key in keys;
    }
  }

  lemma UnusedBucket(ws: seq<Entry>, t: seq<U16>)
    requires IsBucket(ws) && |t| == SIZE && forall k | 0 <= k < WAYS :: ws[k].isEntry == 0
    ensures BucketOk(ws, t)
  {
  }

  lemma UsedEntries(ws: seq<Entry>, t: seq<U16>)
    requires BucketOk(ws, t)
    ensures forall k | 0 <= k < WAYS :: ws[k].isEntry != 0 <==> k < Used(ws)
    ensures forall k | 0 <= k < Used(ws) :: ws[k].value == t[ws[k].key % SIZE]
    ensures Used(ws) == WAYS ==> ws[0].isEntry / 2 < WAYS
  {
  }

  lemma EntryAdded(ws: seq<Entry>, t: seq<U16>, key: U32)
    requires BucketOk(ws, t) && forall k | 0 <= k < Used(ws) :: ws[k].key != key
    ensures var at := if Used(ws) < WAYS then Used(ws) else (ws[0].isEntry / 2 + 1) % WAYS;
            var ws' := WithEntry(ws, at, key, t[key % SIZE]);
            BucketOk(ws', t) && Fifo(ws') == Remembered(Fifo(ws), key)
  {
    assert IsBucket(ws) && |t| == SIZE;
    hide Fifo, BucketOk, Used, WithEntry;
    FifoHas(ws, t, key);
    if Used(ws) < WAYS {
      EntryAddedAt(ws, t, key, Used(ws));
    } else {
      EntryReplaced(ws, t, key, ws[0].isEntry / 2);
    }
  }

  lemma EntryAddedAt(ws: seq<Entry>, t: seq<U16>, key: U32, m: nat)
    requires BucketOk(ws, t) && (forall k | 0 <= k < Used(ws) :: ws[k].key != key) && m == Used(ws) < WAYS
    ensures var ws' := WithEntry(ws, m, key, t[key % SIZE]);
            BucketOk(ws', t) && Fifo(ws') == Fifo(ws) + [key]
  {
    var ws' := WithEntry(ws, m, key, t[key % SIZE]);
    assert Used(ws') == m + 1;
    assert forall k | 0 <= k < m :: ws'[k].key == ws[k].key && ws'[k].value == ws[k].value;
  }

  lemma EntryReplaced(ws: seq<Entry>, t: seq<U16>, key: U32, n: nat)
    requires BucketOk(ws, t) && (forall k | 0 <= k < Used(ws) :: ws[k].key != key)
    requires Used(ws) == WAYS && n == ws[0].isEntry / 2
    ensures var ws' := WithEntry(ws, (n + 1) % WAYS, key, t[key % SIZE]);
            BucketOk(ws', t) && Fifo(ws') == Fifo(ws)[1..] + [key]
  {
    var at := (n + 1) % WAYS;
    var ws' := WithEntry(ws, at, key, t[key % SIZE]);
    assert Used(ws') == WAYS;
    assert forall k | 0 <= k < WAYS && k != at :: ws'[k].key == ws[k].key && ws'[k].value == ws[k].value;
  }

  // ---------- The load balancer ----------

  class LoadBalancer {
    const backends: nat              // nb_backends_
    const permutations: array2<nat>
    const table: array<U16>          // hash_table_
    const cache: array<Entry>        // the entries of ht_, four to a bucket
    ghost var rows: seq<seq<nat>>

    constructor (backends: nat, buckets: nat)
      ensures fresh(cache) && cache.Length == WAYS * buckets && Remembers()
      ensures this.backends == backends && fresh(permutations) && fresh(table)
      ensures permutations.Length0 == backends && permutations.Length1 == SIZE && table.Length == SIZE
      ensures table[..] == seq(SIZE, _ => EMPTY)
    {
      this.backends := backends;
      permutations := new nat[backends, SIZE]((_, _) => 0);
      table := new U16[SIZE](_ => EMPTY);
      cache := new Entry[WAYS * buckets](_ => Entry(0, 0, 0));
      rows := [];
      new;
      hide BucketOk;
      forall b: nat | WAYS * b + WAYS <= cache.Length
        ensures BucketOk(Ways(b), table[..])
      {
        UnusedBucket(Ways(b), table[..]);
      }
    }

    ghost function Ways(b: nat): (ws: seq<Entry>)
      requires WAYS * b + WAYS <= cache.Length
      reads cache
      ensures |ws| == WAYS
    {
      cache[WAYS * b..WAYS * b + WAYS]
    }

    /** Every cached answer is the table's. */
    ghost predicate Remembers()
      reads table, cache
    {
      table.Length == SIZE && forall b: nat | WAYS * b + WAYS <= cache.Length :: BucketOk(Ways(b), table[..])
    }

    /** The backend of a hash, from the cache if it is there; `b` is the bucket that the hash selects. */
    method CachedBackend(hash: U32, b: nat) returns (backend: U16)
      requires Remembers() && WAYS * b + WAYS <= cache.Length
      modifies cache
      ensures Remembers() && backend == table[hash % SIZE]
      ensures Fifo(Ways(b)) == Remembered(old(Fifo(Ways(b))), hash)
      ensures forall c: nat | c != b && WAYS * c + WAYS <= cache.Length :: Ways(c) == old(Ways(c))
    {
      hide BucketOk, Fifo, Used;
      ghost var ws, t := Ways(b), table[..];
      UsedEntries(ws, t);
      FifoHas(ws, t, hash);
      var i := 0;
      while i < WAYS
        invariant 0 <= i <= WAYS && i <= Used(ws) && Ways(b) == ws && cache[..] == old(cache[..])
        invariant forall k | 0 <= k < i :: ws[k].key != hash
      {
        assert cache[WAYS * b + i] == ws[i];
        if cache[WAYS * b + i].isEntry == 0 {
          EntryAdded(ws, t, hash);
          backend := table[hash % SIZE];
          WriteEntry(b, i, hash, backend);
          return;
        }
        if cache[WAYS * b + i].key == hash {
          return cache[WAYS * b + i].value;
        }
        i := i + 1;
      }
      EntryAdded(ws, t, hash);
      backend := table[hash % SIZE];
      assert cache[WAYS * b] == ws[0];
      WriteEntry(b, (cache[WAYS * b].isEntry / 2 + 1) % WAYS, hash, backend);
    }

    /** Overwrites one entry of a bucket and notes it as the newest. */
    method WriteEntry(b: nat, at: nat, key: U32, value: U16)
      requires WAYS * b + WAYS <= cache.Length && at < WAYS
      requires Remembers() && BucketOk(WithEntry(Ways(b), at, key, value), table[..])
      modifies cache
      ensures Remembers() && Ways(b) == WithEntry(old(Ways(b)), at, key, value)
      ensures forall c: nat | c != b && WAYS * c + WAYS <= cache.Length :: Ways(c) == old(Ways(c))
    {
      hide BucketOk;
      ghost var ws := Ways(b);
      cache[WAYS * b + at] := Entry(1, value, key);
      cache[WAYS * b] := cache[WAYS * b].(isEntry := 2 * at + 1);
      assert Ways(b) == WithEntry(ws, at, key, value);
      forall c: nat | c != b && WAYS * c + WAYS <= cache.Length
        ensures Ways(c) == old(Ways(c))
      {
      }
    }

    ghost predicate Sized()
      reads this
    {
      && 0 < backends <= EMPTY && table.Length == SIZE
      && permutations.Length0 == backends && permutations.Length1 == SIZE
    }

    /** The rows as stored. */
    ghost predicate Generated()
      reads this, permutations
    {
      && Sized() && |rows| == backends && (forall i | 0 <= i < backends :: InTable(rows[i]))
      && forall i, j | 0 <= i < backends && 0 <= j < SIZE :: permutations[i, j] == rows[i][j]
    }

    /** Writes the rows; two hashes of every backend choose offset and skip. */
    method GeneratePermutations(hashes: seq<(U32, U32)>)
      requires Sized() && |hashes| == backends
      modifies permutations
      ensures forall i, j | 0 <= i < backends && 0 <= j < SIZE ::
                permutations[i, j] == Preference(Offset(hashes[i]), Skip(hashes[i]), j)
    {
      hide Preference;
      for i := 0 to backends
        invariant forall k, j | 0 <= k < i && 0 <= j < SIZE ::
                    permutations[k, j] == Preference(Offset(hashes[k]), Skip(hashes[k]), j)
      {
        var offset, skip := Offset(hashes[i]), Skip(hashes[i]);
        for j := 0 to SIZE
          invariant forall k, l | 0 <= k < i && 0 <= l < SIZE ::
                      permutations[k, l] == Preference(Offset(hashes[k]), Skip(hashes[k]), l)
          invariant forall l | 0 <= l < j :: permutations[i, l] == Preference(offset, skip, l)
        {
          permutations[i, j] := Preference(offset, skip, j);
        }
      }
    }

    /** The positions passed so far in every row are taken. */
    ghost predicate Passed(t: seq<U16>, next: seq<nat>)
      requires Generated() && |t| == SIZE
      reads this, permutations
    {
      |next| == backends && forall i | 0 <= i < backends :: PassedBy(t, rows[i], next[i])
    }

    /** Backend i claims the first free slot of its row; fails if there is none, when the code would read on behind the
        row. */
    method Claim(next: array<nat>, i: nat, ghost n: nat, ghost q: nat) returns (ok: bool)
      requires Generated() && next.Length == backends && i < backends && n < SIZE
      requires table[..] == Claimed(rows, n) && Even(table[..], backends, n, q, i) && Passed(table[..], next[..])
      modifies table, next
      ensures Generated() && (ok <==> HasTurn(rows, n))
      ensures ok ==> table[..] == Claimed(rows, n + 1) && Passed(table[..], next[..])
      ensures ok ==> Even(table[..], backends, n + 1, q, i + 1)
      ensures ok && i + 1 == backends ==> Even(table[..], backends, n + 1, q + 1, 0)
    {
      hide Even, InTable, FirstFree, PassedBy, Claimed;
      ghost var t, row, taken := table[..], rows[i], next[..];
      TurnOf(n, backends, q, i, t);
      ghost var j := FirstFree(row, t, 0);
      while true
        invariant table[..] == t && PassedBy(t, row, next[i]) && next[..] == taken[i := next[i]]
        decreases SIZE - next[i]
      {
        PassedMeans(t, row, next[i]);
        if next[i] == SIZE {
          return false;
        }
        RowEntry(row, next[i]);
        if table[permutations[i, next[i]]] == EMPTY {
          break;
        }
        PassedOne(t, row, next[i]);
        next[i] := next[i] + 1;
      }
      FirstFreeHere(row, t, next[i]);
      var c := permutations[i, next[i]];
      var id: U16 := i;
      table[c] := id;
      assert table[..] == t[c := id];
      forall k | 0 <= k < backends
        ensures PassedBy(table[..], rows[k], if k == i then next[i] + 1 else taken[k])
      {
        PassedAfterClaim(t, rows[k], if k == i then next[i] else taken[k], c, i);
      }
      next[i] := next[i] + 1;
      assert next[..] == taken[i := next[i]];
      EvenAfterClaim(t, backends, n, q, i, c);
      ClaimedNext(rows, n, i, j);
      ok := true;
    }

    /** Lets the backends claim slots in turn.  A row is never scanned from its start again, yet every claim is of the
        first free slot.  The table gets full, with shares that differ by at most one, the larger ones coming first,
        exactly if at every turn the row has a free slot; otherwise the code would read on behind a row. */
    method Populate() returns (ok: bool)
      requires Generated() && table[..] == seq(SIZE, _ => EMPTY)
      modifies table
      ensures ok <==> Fillable(rows)
      ensures ok ==> table[..] == Claimed(rows, SIZE) && Balanced(table[..], backends)
    {
      hide Even, InTable, Balanced, Claimed, HasTurn;
      ClaimedNothing(rows);
      var next := new nat[backends](_ => 0);
      var n := 0;
      ghost var q := 0;
      NothingClaimed(backends);
      while true
        invariant Generated() && fresh(next) && next.Length == backends && n < SIZE
        invariant table[..] == Claimed(rows, n) && Even(table[..], backends, n, q, 0)
        invariant Passed(table[..], next[..]) && forall m: nat | m < n :: HasTurn(rows, m)
        decreases SIZE - n
      {
        ghost var n0 := n;
        for i := 0 to backends
          invariant Generated() && n == n0 + i && n < SIZE
          invariant table[..] == Claimed(rows, n) && Passed(table[..], next[..])
          invariant Even(table[..], backends, n, q, i) && forall m: nat | m < n :: HasTurn(rows, m)
          invariant i == backends ==> Even(table[..], backends, n, q + 1, 0)
        {
          ok := Claim(next, i, n, q);
          if !ok {
            return;
          }
          n := n + 1;
          if n == SIZE {
            if i + 1 == backends {
              FullIsBalanced(table[..], backends, q + 1, 0);
            } else {
              FullIsBalanced(table[..], backends, q, i + 1);
            }
            return;
          }
        }
        q := q + 1;
      }
    }

    /** Sets the table up from two hashes of every backend.  Only the last turn can fail: it does exactly if the row of
        the backend whose turn it is wraps and the slot that this row misses is the one that is left. */
    method Setup(hashes: seq<(U32, U32)>) returns (ok: bool)
      requires Sized() && |hashes| == backends && table[..] == seq(SIZE, _ => EMPTY)
      modifies this`rows, permutations, table
      ensures Generated() && |rows| == backends
      ensures forall i | 0 <= i < backends ::
                && rows[i] == RowOf(Offset(hashes[i]), Skip(hashes[i]))
                && rows[i][0] == hashes[i].0 % 65537
                && (hashes[i].1 % 65536 < 65534 || (hashes[i].1 % 65536 == 65534 && hashes[i].0 % 65537 != 65536) ==>
                      forall j | 0 <= j < 65536 :: rows[i][j + 1] == (rows[i][j] + hashes[i].1 % 65536 + 1) % 65537)
      ensures ok <==> var last := hashes[65536 % backends];
                      !Wrapping(last) || Claimed(rows, 65536)[Missing(last)] != EMPTY
      ensures (forall i | 0 <= i < backends :: Wrapping(hashes[i]) && Missing(hashes[i]) == Missing(hashes[0])) ==> !ok
      ensures ok ==> table[..] == Claimed(rows, SIZE) && Balanced(table[..], backends)
    {
      hide Balanced, Claimed, Preference, InTable, Wraps, Distinct, HasTurn, Fillable, Missed, MissesOne, NearRow;
      GeneratePermutations(hashes);
      rows := seq(backends, i requires 0 <= i < backends => RowOf(Offset(hashes[i]), Skip(hashes[i])));
      forall i | 0 <= i < backends
        ensures InTable(rows[i]) && rows[i][0] == hashes[i].0 % 65537
        ensures hashes[i].1 % 65536 < 65534 || (hashes[i].1 % 65536 == 65534 && hashes[i].0 % 65537 != 65536) ==>
                  forall j | 0 <= j < 65536 :: rows[i][j + 1] == (rows[i][j] + hashes[i].1 % 65536 + 1) % 65537
      {
        RowGoesOn(hashes[i]);
        RowOfInTable(Offset(hashes[i]), Skip(hashes[i]));
      }
      ChosenRowsFill(hashes, rows);
      ok := Populate();
    }
  }

  /** Two backends with the same wrapping pair: neither row has the slot that is left at the end. */
  method BothMissOne() returns (ok: bool)
    ensures !ok
  {
    hide InTable, Claimed, Balanced, Fillable, Preference;
    var balancer := new LoadBalancer(2, 0);
    ok := balancer.Setup([(0, 65535), (0, 65535)]);
  }

  lemma ChosenRowsFill(hashes: seq<(U32, U32)>, rows: seq<seq<nat>>)
    requires 0 < |rows| == |hashes| <= EMPTY && forall i | 0 <= i < |rows| :: InTable(rows[i])
    requires forall i | 0 <= i < |rows| :: rows[i] == RowOf(Offset(hashes[i]), Skip(hashes[i]))
    ensures Fillable(rows) <==>
            var last := hashes[65536 % |rows|]; !Wrapping(last) || Claimed(rows, 65536)[Missing(last)] != EMPTY
    ensures (forall i | 0 <= i < |rows| :: Wrapping(hashes[i]) && Missing(hashes[i]) == Missing(hashes[0])) ==>
              !Fillable(rows)
  {
    hide Claimed, Preference, InTable, Wraps, Fillable, Missed, MissesOne, NearRow, IsRow, Offset, Skip;
    var missed := seq(|rows|, i requires 0 <= i < |rows| => Missing(hashes[i]));
    forall i | 0 <= i < |rows|
      ensures NearRow(rows[i], missed[i]) && (IsRow(rows[i]) <==> !Wrapping(hashes[i]))
      ensures Wrapping(hashes[i]) ==> MissesOne(rows[i], missed[i])
    {
      ChosenRow(hashes[i]);
    }
    LastTurnDecides(rows, missed);
    if forall i | 0 <= i < |rows| :: Wrapping(hashes[i]) && Missing(hashes[i]) == Missing(hashes[0]) {
      SameMissFails(rows, Missing(hashes[0]));
    }
  }

  lemma ChosenRow(hashes: (U32, U32))
    ensures var row := RowOf(Offset(hashes), Skip(hashes));
            && NearRow(row, Missing(hashes)) && (IsRow(row) <==> !Wrapping(hashes))
            && (Wrapping(hashes) ==> MissesOne(row, Missing(hashes)))
  {
    hide Preference, InTable, Wraps, Missed, IsRow, Offset, Skip;
    PermutesIff(Offset(hashes), Skip(hashes));
    var row := RowOf(Offset(hashes), Skip(hashes));
    if Wrapping(hashes) {
      WrappingMissesOne(Offset(hashes), Skip(hashes));
    } else {
      RowIsNear(row, Missing(hashes));
    }
  }

  lemma PermutesIff(offset: nat, skip: nat)
    requires InRange(offset, skip)
    ensures IsRow(RowOf(offset, skip)) <==> !Wraps(offset, skip)
  {
    hide Preference;
    PermutesExactly(offset, skip);
    RowOfInTable(offset, skip);
  }

  lemma PassedMeans(t: seq<U16>, row: seq<nat>, next: nat)
    requires InTable(row) && |t| == SIZE && PassedBy(t, row, next)
    ensures next <= SIZE && next <= FirstFree(row, t, 0) == FirstFree(row, t, next)
  {
    hide InTable;
    SkipTaken(row, t, next);
  }

  /** A row that reaches every slot but perhaps one. */
  ghost predicate NearRow(row: seq<nat>, m: nat) {
    InTable(row) && forall c: nat | c < SIZE && c != m :: c in row
  }

  lemma RowIsNear(row: seq<nat>, m: nat)
    requires IsRow(row)
    ensures NearRow(row, m)
  {
    hide Distinct;
    forall c: nat | c < SIZE
      ensures c in row
    {
      var j := RowReaches(row, c);
    }
  }

  /** Of two free slots one is not the one that a row misses. */
  lemma FreeBesides(t: seq<U16>, m: nat) returns (c: nat)
    requires |t| == SIZE && 2 <= Owned(t, EMPTY)
    ensures c < SIZE && c != m && t[c] == EMPTY
  {
    hide Owned;
    if m < SIZE && t[m] == EMPTY {
      OneClaim(t, m, 0);
      NoneOwned(t[m := 0], EMPTY);
      c :| c < SIZE && t[m := 0][c] == EMPTY;
    } else {
      NoneOwned(t, EMPTY);
      c :| c < SIZE && t[c] == EMPTY;
    }
  }

  /** A free slot that is in a row is found. */
  lemma FoundInRow(row: seq<nat>, t: seq<U16>, c: nat)
    requires InTable(row) && |t| == SIZE && c < SIZE && c in row && t[c] == EMPTY
    ensures FirstFree(row, t, 0) < SIZE
  {
    var j :| 0 <= j < SIZE && row[j] == c;
  }

  /** Until one slot is left every row has a free one. */
  lemma {:induction false} TurnsCome(rows: seq<seq<nat>>, missed: seq<nat>, n: nat)
    requires 0 < |rows| == |missed| <= EMPTY
    requires forall i | 0 <= i < |rows| :: InTable(rows[i]) && NearRow(rows[i], missed[i])
    requires n < SIZE
    ensures forall m: nat | m < n :: HasTurn(rows, m)
  {
    hide InTable, Even, FirstFree, Claimed, Owned;
    if 0 < n {
      TurnsCome(rows, missed, n - 1);
      var q, i, t := (n - 1) / |rows|, (n - 1) % |rows|, Claimed(rows, n - 1);
      ClaimedEven(rows, n - 1, q, i);
      EvenFree(t, |rows|, n - 1, q, i);
      var c := FreeBesides(t, missed[i]);
      FoundInRow(rows[i], t, c);
    }
  }

  lemma EvenFree(t: seq<U16>, nb: nat, n: nat, q: nat, i: nat)
    requires nb <= EMPTY && Even(t, nb, n, q, i)
    ensures |t| == SIZE && Owned(t, EMPTY) + n == SIZE
  {
  }

  /** So only the last turn decides: it fails exactly if the row whose turn it is misses the slot that is left. */
  lemma LastTurnDecides(rows: seq<seq<nat>>, missed: seq<nat>)
    requires 0 < |rows| == |missed| <= EMPTY
    requires forall i | 0 <= i < |rows| :: InTable(rows[i]) && NearRow(rows[i], missed[i])
    requires var i := 65536 % |rows|; IsRow(rows[i]) || MissesOne(rows[i], missed[i])
    ensures forall n: nat | n < 65536 :: HasTurn(rows, n)
    ensures var i := 65536 % |rows|;
            Fillable(rows) <==> IsRow(rows[i]) || Claimed(rows, 65536)[missed[i]] != EMPTY
  {
    hide InTable, Even, FirstFree, Claimed, HasTurn, NearRow, IsRow, MissesOne;
    TurnsCome(rows, missed, 65536);
    var q, i, t := 65536 / |rows|, 65536 % |rows|, Claimed(rows, 65536);
    ClaimedEven(rows, 65536, q, i);
    if IsRow(rows[i]) {
      TurnComes(rows, 65536, q, i);
    } else {
      LastSlot(rows, missed[i], t, q, i);
    }
  }

  lemma LastSlot(rows: seq<seq<nat>>, m: nat, t: seq<U16>, q: nat, i: nat)
    requires 0 < |rows| <= EMPTY && forall i | 0 <= i < |rows| :: InTable(rows[i])
    requires t == Claimed(rows, 65536) && i == 65536 % |rows| && Even(t, |rows|, 65536, q, i) && MissesOne(rows[i], m)
    ensures HasTurn(rows, 65536) <==> t[m] != EMPTY
  {
    hide Even, Claimed, Owned;
    EvenFree(t, |rows|, 65536, q, i);
    if t[m] == EMPTY {
      OneClaim(t, m, 0);
      NoneOwned(t[m := 0], EMPTY);
      assert forall c | 0 <= c < SIZE && c != m :: t[m := 0][c] == t[c];
    } else {
      NoneOwned(t, EMPTY);
      var c: nat :| c < SIZE && t[c] == EMPTY;
      FoundInRow(rows[i], t, c);
    }
  }

  /** Rows that are permutations never run out of free slots while there are any. */
  lemma PermutationsFill(rows: seq<seq<nat>>)
    requires 0 < |rows| <= EMPTY && forall i | 0 <= i < |rows| :: InTable(rows[i]) && IsRow(rows[i])
    ensures Fillable(rows)
  {
    hide IsRow, InTable, NearRow, HasTurn, Claimed, Fillable;
    var missed := seq(|rows|, _ => 0);
    forall i | 0 <= i < |rows|
      ensures NearRow(rows[i], missed[i])
    {
      RowIsNear(rows[i], 0);
    }
    LastTurnDecides(rows, missed);
  }

  /** Rows that all miss the same slot never fill the table. */
  lemma SameMissFails(rows: seq<seq<nat>>, m: nat)
    requires 0 < |rows| <= EMPTY && forall i | 0 <= i < |rows| :: InTable(rows[i]) && MissesOne(rows[i], m)
    ensures !Fillable(rows)
  {
    hide InTable, HasTurn, Claimed, NearRow, IsRow;
    var missed := seq(|rows|, _ => m);
    forall i | 0 <= i < |rows|
      ensures NearRow(rows[i], missed[i]) && !IsRow(rows[i]) && m < SIZE
    {
      MissingIsNoRow(rows[i], m);
    }
    LastTurnDecides(rows, missed);
    NeverClaimed(rows, m, 65536);
  }

  lemma MissingIsNoRow(row: seq<nat>, m: nat)
    requires MissesOne(row, m)
    ensures NearRow(row, m) && !IsRow(row) && m < SIZE
  {
    hide Distinct;
    if IsRow(row) {
      var j := RowReaches(row, m);
      assert false;
    }
  }

  lemma {:induction false} NeverClaimed(rows: seq<seq<nat>>, m: nat, n: nat)
    requires 0 < |rows| <= EMPTY && forall i | 0 <= i < |rows| :: InTable(rows[i]) && MissesOne(rows[i], m)
    requires m < SIZE
    ensures Claimed(rows, n)[m] == EMPTY
  {
    hide FirstFree;
    if 0 < n {
      NeverClaimed(rows, m, n - 1);
    }
  }

  lemma {:induction false} ClaimedEven(rows: seq<seq<nat>>, n: nat, q: nat, i: nat)
    requires 0 < |rows| <= EMPTY && forall i | 0 <= i < |rows| :: InTable(rows[i])
    requires i < |rows| && n == q * |rows| + i <= SIZE && forall m: nat | m < n :: HasTurn(rows, m)
    ensures Even(Claimed(rows, n), |rows|, n, q, i)
  {
    hide InTable, Even, FirstFree, Claimed, HasTurn;
    var nb := |rows|;
    if n == 0 {
      ClaimedNothing(rows);
      NothingClaimed(nb);
      ModUnique(0, nb, 0, 0);
      ModUnique(0, nb, q, i);
    } else {
      var p, k := if i == 0 then q - 1 else q, if i == 0 then nb - 1 else i - 1;
      assert n - 1 == p * nb + k by {
        assert (q - 1) * nb == q * nb - nb;
      }
      ClaimedEven(rows, n - 1, p, k);
      ModUnique(n - 1, nb, p, k);
      EvenAfterTurn(rows, n - 1, p, k);
    }
  }

  /** While slots are free, each row that is a permutation has one. */
  lemma TurnComes(rows: seq<seq<nat>>, n: nat, q: nat, i: nat)
    requires 0 < |rows| <= EMPTY && forall i | 0 <= i < |rows| :: InTable(rows[i])
    requires i < |rows| && IsRow(rows[i]) && n < SIZE && Even(Claimed(rows, n), |rows|, n, q, i)
    ensures HasTurn(rows, n) && n % |rows| == i
  {
    hide IsRow, InTable, Even, FirstFree, Claimed;
    TurnOf(n, |rows|, q, i, Claimed(rows, n));
    NonePassed(Claimed(rows, n), rows[i]);
    FreeAhead(Claimed(rows, n), rows[i], |rows|, n, q, i, 0);
  }

  lemma EvenAfterTurn(rows: seq<seq<nat>>, n: nat, q: nat, i: nat)
    requires 0 < |rows| <= EMPTY && forall i | 0 <= i < |rows| :: InTable(rows[i])
    requires i < |rows| && n < SIZE && Even(Claimed(rows, n), |rows|, n, q, i)
    requires HasTurn(rows, n) && n % |rows| == i
    ensures if i + 1 == |rows| then Even(Claimed(rows, n + 1), |rows|, n + 1, q + 1, 0)
            else Even(Claimed(rows, n + 1), |rows|, n + 1, q, i + 1)
  {
    hide InTable, Even, FirstFree, Claimed;
    var t := Claimed(rows, n);
    var j := FirstFree(rows[i], t, 0);
    RowEntry(rows[i], j);
    FirstIsFree(rows[i], t);
    EvenAfterClaim(t, |rows|, n, q, i, rows[i][j]);
    ClaimedNext(rows, n, i, j);
  }

  lemma NonePassed(t: seq<U16>, row: seq<nat>)
    requires InTable(row) && |t| == SIZE
    ensures PassedBy(t, row, 0)
  {
  }

  lemma FirstIsFree(row: seq<nat>, t: seq<U16>)
    requires InTable(row) && |t| == SIZE && FirstFree(row, t, 0) < SIZE
    ensures t[row[FirstFree(row, t, 0)]] == EMPTY
  {
  }

  lemma RowOfInTable(offset: nat, skip: nat)
    requires offset < SIZE
    ensures InTable(RowOf(offset, skip))
  {
  }

  /** Claimed slots are slots of rows. */
  lemma {:induction false} ClaimedFromRow(row: seq<nat>, n: nat, c: nat)
    requires InTable(row) && c < SIZE && Claimed([row], n)[c] != EMPTY
    ensures c in Values(row, 0, SIZE)
  {
    hide FirstFree;
    if 0 < n {
      var t := Claimed([row], n - 1);
      var j := FirstFree(row, t, 0);
      assert [row][(n - 1) % 1] == row;
      if j < SIZE && row[j] == c {
        InValues(row, j);
      } else {
        ClaimedFromRow(row, n - 1, c);
      }
    } else {
      ClaimedNothing([row]);
    }
  }

  lemma InValues(row: seq<nat>, j: nat)
    requires |row| == SIZE && j < SIZE
    ensures row[j] in Values(row, 0, SIZE)
  {
    ValuesSize(row, 0, SIZE);
  }

  /** A single backend fills the table exactly if its row is a permutation. */
  lemma OneBackend(row: seq<nat>)
    requires InTable(row)
    ensures Fillable([row]) <==> IsRow(row)
  {
    hide Distinct, HasTurn, Even, Claimed;
    if IsRow(row) {
      PermutationsFill([row]);
    } else if Fillable([row]) {
      ClaimedEven([row], SIZE, SIZE, 0);
      forall c: nat | c < SIZE
        ensures c in Values(row, 0, SIZE)
      {
        NoneFree(Claimed([row], SIZE), 1, SIZE, 0, c);
        ClaimedFromRow(row, SIZE, c);
      }
      Subset(Below(SIZE), Values(row, 0, SIZE));
      ManyValues(row, 0, SIZE);
    }
  }

  lemma NoneFree(t: seq<U16>, nb: nat, q: nat, i: nat, c: nat)
    requires nb <= EMPTY && Even(t, nb, SIZE, q, i) && c < SIZE
    ensures t[c] != EMPTY
  {
    hide Owned;
    NoneOwned(t, EMPTY);
  }
}
