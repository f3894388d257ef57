/**
 What a reader of a bucket answers that runs alone: what the words of the bucket's chain and of its items say, whatever
 course the reader takes through them.
 */
module GetAnswers {
  import opened Words
  import opened TableItems
  import opened Seqlock

  const MAX_VALUE_BYTES: int := 1048575 // kMaxValueLength

  // ---------- What the words say ----------

  /** The links lead through these rows and end there. */
  ghost predicate Spells(mem: map<Loc, U64>, rows: seq<nat>, mainRows: nat)
    ensures Spells(mem, rows, mainRows) ==> rows != []
  {
    rows != [] && forall n | 0 <= n < |rows| :: LeadsOn(mem, rows, mainRows, n)
  }

  /** The link of a row is that of the next one, extra rows being numbered from one behind the main rows, or zero. */
  ghost predicate LeadsOn(mem: map<Loc, U64>, rows: seq<nat>, mainRows: nat, n: nat)
    requires n < |rows|
  {
    var link := At(mem, Link(rows[n])) % TWO_32;
    if n + 1 < |rows| then link != 0 && rows[n + 1] + 1 == mainRows + link else link == 0
  }

  /** The item at an offset has the key: its hash, its length in bytes and its words. */
  ghost predicate HasKey(mem: map<Loc, U64>, off: nat, key: Key) {
    && At(mem, Word(off, 1)) == key.hash
    && At(mem, Word(off, 0)) % TWO_32 / TWO_24 == 8 * |key.words|
    && forall k | 0 <= k < |key.words| :: At(mem, Word(off, 2 + k)) == key.words[k]
  }

  ghost function ItemOf(mem: map<Loc, U64>, row: nat, i: nat): nat {
    At(mem, Slot(row, i)) % TWO_48
  }

  /** The slot's tag is that of the key, the low 16 bits of its hash or else one, and so is its item's key. */
  ghost predicate Holds(mem: map<Loc, U64>, key: Key, row: nat, i: nat) {
    && At(mem, Slot(row, i)) / TWO_48 == (if key.hash % TWO_16 == 0 then 1 else key.hash % TWO_16)
    && HasKey(mem, ItemOf(mem, row, i), key)
  }

  /** No slot of the first n rows, nor one of the first i of the next, holds the key. */
  ghost predicate NoneBefore(mem: map<Loc, U64>, q: Query, rows: seq<nat>, n: nat, i: nat) {
    forall m, j | 0 <= m < |rows| && 0 <= j < q.bucketSize && (m < n || (m == n && j < i)) ::
      !Holds(mem, q.key, rows[m], j)
  }

  ghost predicate FirstHolder(mem: map<Loc, U64>, q: Query, rows: seq<nat>, n: nat, i: nat) {
    n < |rows| && i < q.bucketSize && Holds(mem, q.key, rows[n], i) && NoneBefore(mem, q, rows, n, i)
  }

  ghost function StoredBytes(mem: map<Loc, U64>, off: nat): nat {
    At(mem, Word(off, 0)) % TWO_24
  }

  /** The value of the item at an offset, or as much of it as was asked for; a length over the limit is not found. */
  ghost predicate Delivers(mem: map<Loc, U64>, q: Query, off: nat, result: Result, value: Value) {
    var stored := StoredBytes(mem, off);
    if MAX_VALUE_BYTES < stored then result == NotFound && value == []
    else
      && result == (if q.inLength < stored then PartialValue else Success)
      && |value| == Min(stored, q.inLength) / 8
      && forall k | 0 <= k < |value| :: value[k] == At(mem, Word(off, 2 + |q.key.words| + k))
  }

  /** The answer for a chain of rows: that of the first slot that holds the key, if any does. */
  ghost predicate Answers(mem: map<Loc, U64>, q: Query, rows: seq<nat>, result: Result, value: Value) {
    || (NoneBefore(mem, q, rows, |rows|, 0) && result == NotFound && value == [])
    || exists n: nat, i: nat ::
         FirstHolder(mem, q, rows, n, i) && Delivers(mem, q, ItemOf(mem, rows[n], i), result, value)
  }

  // ---------- What the reader knows at each point ----------

  ghost predicate Knows(mem: map<Loc, U64>, q: Query, rows: seq<nat>, pc: Pc, n: nat, i: nat) {
    && (pc.Answer? || n < |rows|)
    && match pc
       case AtSlot(row, at) => row == rows[n] && at == i < q.bucketSize && NoneBefore(mem, q, rows, n, i)
       case AtHash(row, at, off) => Tagged(mem, q, rows, row, at, off, n, i)
       case AtLengths(row, at, off) =>
         Tagged(mem, q, rows, row, at, off, n, i) && At(mem, Word(off, 1)) == q.key.hash
       case AtKey(row, at, off, k) =>
         && Tagged(mem, q, rows, row, at, off, n, i) && At(mem, Word(off, 1)) == q.key.hash && k < |q.key.words|
         && At(mem, Word(off, 0)) % TWO_32 / TWO_24 == 8 * |q.key.words|
         && forall j | 0 <= j < k :: At(mem, Word(off, 2 + j)) == q.key.words[j]
       case AtLink(row) => row == rows[n] && NoneBefore(mem, q, rows, n + 1, 0)
       case AtItem(row, at) => row == rows[n] && at == i && FirstHolder(mem, q, rows, n, i)
       case AtItemLengths(off) => FirstHolder(mem, q, rows, n, i) && off == ItemOf(mem, rows[n], i)
       case AtValue(off, words, count, outcome) =>
         && FirstHolder(mem, q, rows, n, i) && off == ItemOf(mem, rows[n], i)
         && StoredBytes(mem, off) <= MAX_VALUE_BYTES
         && outcome == (if q.inLength < StoredBytes(mem, off) then PartialValue else Success)
         && |words| < count == Min(StoredBytes(mem, off), q.inLength) / 8
         && forall k | 0 <= k < |words| :: words[k] == At(mem, Word(off, 2 + |q.key.words| + k))
       case Answer(result, value) => Answers(mem, q, rows, result, value)
  }

  /** The slot has the tag, and no slot before it holds the key. */
  ghost predicate Tagged(mem: map<Loc, U64>, q: Query, rows: seq<nat>, row: nat, at: nat, off: nat, n: nat, i: nat) {
    && n < |rows| && row == rows[n] && at == i < q.bucketSize && off == ItemOf(mem, row, at)
    && At(mem, Slot(row, at)) / TWO_48 == CalcTag(q.key.hash)
    && NoneBefore(mem, q, rows, n, i)
  }

  /** A slot that does not hold the key is passed over. */
  lemma PassedOver(mem: map<Loc, U64>, q: Query, rows: seq<nat>, n: nat, i: nat)
    requires n < |rows| && i < q.bucketSize && NoneBefore(mem, q, rows, n, i) && !Holds(mem, q.key, rows[n], i)
    ensures if i + 1 < q.bucketSize then NoneBefore(mem, q, rows, n, i + 1) else NoneBefore(mem, q, rows, n + 1, 0)
    ensures Knows(mem, q, rows, NextSlot(q, rows[n], i), n, i + 1)
  {
    hide Holds;
  }

  lemma Found(mem: map<Loc, U64>, q: Query, rows: seq<nat>, n: nat, i: nat, result: Result, value: Value)
    requires FirstHolder(mem, q, rows, n, i) && Delivers(mem, q, ItemOf(mem, rows[n], i), result, value)
    ensures Answers(mem, q, rows, result, value)
  {
  }

  /** Rows, slots and words that a reader may still have to look at. */
  ghost function Left(rows: seq<nat>, q: Query, pc: Pc, n: nat, i: nat): (left: (int, int, int)) {
    var keyWords := |q.key.words|;
    match pc
    case AtSlot(_, _) => (|rows| - n, q.bucketSize - i, keyWords + 3)
    case AtHash(_, _, _) => (|rows| - n, q.bucketSize - i, keyWords + 2)
    case AtLengths(_, _, _) => (|rows| - n, q.bucketSize - i, keyWords + 1)
    case AtKey(_, _, _, k) => (|rows| - n, q.bucketSize - i, keyWords - k)
    case AtLink(_) => (|rows| - n, 0, 0)
    case AtItem(_, _) => (0, 2, 0)
    case AtItemLengths(_) => (0, 1, 0)
    case AtValue(_, words, count, _) => (0, 0, count - |words|)
    case Answer(_, _) => (0, 0, 0)
  }

  ghost predicate Fewer(a: (int, int, int), b: (int, int, int)) {
    a.0 < b.0 || (a.0 == b.0 && (a.1 < b.1 || (a.1 == b.1 && a.2 < b.2)))
  }

  ghost predicate NotNegative(a: (int, int, int)) {
    0 <= a.0 && 0 <= a.1 && 0 <= a.2
  }

  /** Every fetch keeps what the reader knows and leaves less to look at. */
  ghost predicate Gains(mem: map<Loc, U64>, q: Query, rows: seq<nat>, pc: Pc, n: nat, i: nat, n': nat, i': nat) {
    FetchOf(q, pc).Fetch? ==>
      var pc' := Step(q, pc, At(mem, FetchOf(q, pc).loc));
      && Knows(mem, q, rows, pc', n', i')
      && Fewer(Left(rows, q, pc', n', i'), Left(rows, q, pc, n, i)) && NotNegative(Left(rows, q, pc, n, i))
  }

  lemma SlotGains(mem: map<Loc, U64>, q: Query, rows: seq<nat>, pc: Pc, n: nat, i: nat) returns (i': nat)
    requires Knows(mem, q, rows, pc, n, i) && (pc.AtSlot? || pc.AtHash? || pc.AtLengths? || pc.AtKey?)
    ensures Gains(mem, q, rows, pc, n, i, n, i')
  {
    hide NoneBefore;
    i' := i;
    if Step(q, pc, At(mem, FetchOf(q, pc).loc)) == NextSlot(q, pc.row, pc.i) {
      PassedOver(mem, q, rows, n, i);
      i' := i + 1;
    }
  }

  lemma LinkGains(mem: map<Loc, U64>, q: Query, rows: seq<nat>, row: nat, n: nat, i: nat) returns (n': nat)
    requires 0 < q.bucketSize && Spells(mem, rows, q.rows) && Knows(mem, q, rows, AtLink(row), n, i)
    ensures Gains(mem, q, rows, AtLink(row), n, i, n', 0)
  {
    hide Holds;
    n' := n + 1;
    assert rows[n] == row;
    assert LeadsOn(mem, rows, q.rows, n);
  }

  lemma ItemGains(mem: map<Loc, U64>, q: Query, rows: seq<nat>, pc: Pc, n: nat, i: nat)
    requires Knows(mem, q, rows, pc, n, i) && (pc.AtItem? || pc.AtItemLengths? || pc.AtValue?)
    ensures Gains(mem, q, rows, pc, n, i, n, i)
  {
    hide Holds, NoneBefore, Answers, FirstHolder;
    var pc' := Step(q, pc, At(mem, FetchOf(q, pc).loc));
    if pc'.Answer? {
      Found(mem, q, rows, n, i, pc'.result, pc'.value);
    }
  }

  lemma StepKnows(mem: map<Loc, U64>, q: Query, rows: seq<nat>, pc: Pc, n: nat, i: nat) returns (n': nat, i': nat)
    requires 0 < q.bucketSize && Spells(mem, rows, q.rows) && Knows(mem, q, rows, pc, n, i)
    ensures Gains(mem, q, rows, pc, n, i, n', i')
  {
    hide Knows, Gains, Spells;
    n', i' := n, i;
    match pc
    case AtSlot(_, _) => i' := SlotGains(mem, q, rows, pc, n, i);
    case AtHash(_, _, _) => i' := SlotGains(mem, q, rows, pc, n, i);
    case AtLengths(_, _, _) => i' := SlotGains(mem, q, rows, pc, n, i);
    case AtKey(_, _, _, _) => i' := SlotGains(mem, q, rows, pc, n, i);
    case AtLink(row) =>
      i' := 0;
      n' := LinkGains(mem, q, rows, row, n, i);
    case AtItem(_, _) => ItemGains(mem, q, rows, pc, n, i);
    case AtItemLengths(_) => ItemGains(mem, q, rows, pc, n, i);
    case AtValue(_, _, _, _) => ItemGains(mem, q, rows, pc, n, i);
    case Answer(_, _) => Stopped(mem, q, rows, pc, n, i);
  }

  lemma Stopped(mem: map<Loc, U64>, q: Query, rows: seq<nat>, pc: Pc, n: nat, i: nat)
    requires pc.Answer?
    ensures Gains(mem, q, rows, pc, n, i, n, i)
  {
  }

  // ---------- The answer ----------

  lemma FollowsStart(reader: Reader, mem: map<Loc, U64>, seen: seq<U64>)
    requires Follows(reader, mem, seen) && seen != []
    ensures var n := |seen| - 1;
            Follows(reader, mem, seen[..n]) && reader(seen[..n]).Fetch? && seen[n] == At(mem, reader(seen[..n]).loc)
  {
    var n := |seen| - 1;
    forall i | 0 <= i < n
      ensures reader(seen[..n][..i]).Fetch? && seen[i] == At(mem, reader(seen[..n][..i]).loc)
    {
      assert seen[..n][..i] == seen[..i];
    }
  }

  lemma FollowsOn(reader: Reader, mem: map<Loc, U64>, seen: seq<U64>)
    requires Follows(reader, mem, seen) && reader(seen).Fetch?
    ensures Follows(reader, mem, seen + [At(mem, reader(seen).loc)])
  {
    var more := seen + [At(mem, reader(seen).loc)];
    forall i | 0 <= i < |more|
      ensures more[..i] == seen[..i]
    {
    }
    assert seen[..|seen|] == seen;
  }

  lemma {:induction false} CourseKnows(mem: map<Loc, U64>, q: Query, rows: seq<nat>, seen: seq<U64>)
    returns (n: nat, i: nat)
    requires 0 < q.bucketSize && Spells(mem, rows, q.rows) && Follows(GetReader(q, rows[0]), mem, seen)
    ensures Knows(mem, q, rows, Drive(q, AtSlot(rows[0], 0), seen), n, i)
  {
    hide Knows, Step, FetchOf, Follows, Spells;
    if seen == [] {
      n, i := 0, 0;
      AtFirst(mem, q, rows);
    } else {
      var m := |seen| - 1;
      FollowsStart(GetReader(q, rows[0]), mem, seen);
      n, i := CourseKnows(mem, q, rows, seen[..m]);
      n, i := StepKnows(mem, q, rows, Drive(q, AtSlot(rows[0], 0), seen[..m]), n, i);
    }
  }

  lemma AtFirst(mem: map<Loc, U64>, q: Query, rows: seq<nat>)
    requires 0 < q.bucketSize && Spells(mem, rows, q.rows)
    ensures Knows(mem, q, rows, AtSlot(rows[0], 0), 0, 0)
  {
  }

  lemma {:induction false} Finishes(mem: map<Loc, U64>, q: Query, rows: seq<nat>, seen: seq<U64>, n: nat, i: nat)
    returns (more: seq<U64>)
    requires 0 < q.bucketSize && Spells(mem, rows, q.rows) && Follows(GetReader(q, rows[0]), mem, seen)
    requires Knows(mem, q, rows, Drive(q, AtSlot(rows[0], 0), seen), n, i)
    ensures Follows(GetReader(q, rows[0]), mem, more) && GetReader(q, rows[0])(more) == Finish
    decreases Left(rows, q, Drive(q, AtSlot(rows[0], 0), seen), n, i).0,
              Left(rows, q, Drive(q, AtSlot(rows[0], 0), seen), n, i).1,
              Left(rows, q, Drive(q, AtSlot(rows[0], 0), seen), n, i).2
  {
    hide Knows, Step, FetchOf, Follows, Spells, Left;
    var reader := GetReader(q, rows[0]);
    if reader(seen).Finish? {
      return seen;
    }
    var next := seen + [At(mem, reader(seen).loc)];
    FollowsOn(reader, mem, seen);
    assert next[..|next| - 1] == seen;
    var n', i' := StepKnows(mem, q, rows, Drive(q, AtSlot(rows[0], 0), seen), n, i);
    more := Finishes(mem, q, rows, next, n', i');
  }

  lemma FinishedAnswers(q: Query, row: nat, seen: seq<U64>)
    requires GetReader(q, row)(seen) == Finish
    ensures Drive(q, AtSlot(row, 0), seen).Answer?
  {
  }

  /** A reader that runs alone on a chain that ends does finish. */
  lemma GetFinishes(mem: map<Loc, U64>, q: Query, rows: seq<nat>) returns (seen: seq<U64>)
    requires 0 < q.bucketSize && Spells(mem, rows, q.rows)
    ensures Follows(GetReader(q, rows[0]), mem, seen) && GetReader(q, rows[0])(seen) == Finish
  {
    hide Knows, Step, FetchOf, Spells;
    var n, i := CourseKnows(mem, q, rows, []);
    seen := Finishes(mem, q, rows, [], n, i);
  }

  /** Whenever it finishes it answers what the words say: not found exactly if no slot of the chain holds the key or the
      length found is over the limit, and otherwise the value of the first slot that does. */
  lemma LoneGetAnswers(mem: map<Loc, U64>, q: Query, rows: seq<nat>, seen: seq<U64>)
    requires 0 < q.bucketSize && Spells(mem, rows, q.rows)
    requires Follows(GetReader(q, rows[0]), mem, seen) && GetReader(q, rows[0])(seen) == Finish
    ensures var pc := Drive(q, AtSlot(rows[0], 0), seen);
            && pc.Answer? && Answers(mem, q, rows, pc.result, pc.value)
            && (pc.result == NotFound <==>
                  NoneBefore(mem, q, rows, |rows|, 0)
                  || exists n: nat, i: nat ::
                       FirstHolder(mem, q, rows, n, i) && MAX_VALUE_BYTES < StoredBytes(mem, ItemOf(mem, rows[n], i)))
  {
    hide Follows, Spells, Holds, Answers, FirstHolder, NoneBefore, Delivers, Drive, Step, FetchOf;
    FinishedAnswers(q, rows[0], seen);
    var n, i := CourseKnows(mem, q, rows, seen);
    var pc := Drive(q, AtSlot(rows[0], 0), seen);
    AnswerNotFound(mem, q, rows, pc.result, pc.value);
  }

  lemma AnswerNotFound(mem: map<Loc, U64>, q: Query, rows: seq<nat>, result: Result, value: Value)
    requires Answers(mem, q, rows, result, value)
    ensures result == NotFound <==>
            || NoneBefore(mem, q, rows, |rows|, 0)
            || exists n: nat, i: nat ::
                 FirstHolder(mem, q, rows, n, i) && MAX_VALUE_BYTES < StoredBytes(mem, ItemOf(mem, rows[n], i))
  {
    hide Holds;
    if n: nat, i: nat :| FirstHolder(mem, q, rows, n, i) && Delivers(mem, q, ItemOf(mem, rows[n], i), result, value) {
      forall m: nat, j: nat | FirstHolder(mem, q, rows, m, j)
        ensures m == n && j == i
      {
      }
    }
  }

  // ---------- Among writers that edit ----------

  /** The links lead from the bucket through all rows of its chain and end. */
  ghost predicate Chained(s: Stage, q: Query, b: nat, rows: seq<nat>) {
    Spells(s.mem, rows, q.rows) && rows[0] == b && forall r :: r in rows <==> r in s.chain
  }

  ghost predicate Ends(s: Stage, q: Query, b: nat) {
    exists rows :: Chained(s, q, b, rows)
  }

  /** A row has no link exactly if it is the last one. */
  lemma NoLinkIsLast(mem: map<Loc, U64>, rows: seq<nat>, mainRows: nat, n: nat)
    requires Spells(mem, rows, mainRows) && n < |rows|
    ensures At(mem, Link(rows[n])) % TWO_32 == 0 <==> n + 1 == |rows|
    ensures n + 1 < |rows| ==> rows[n + 1] + 1 == mainRows + At(mem, Link(rows[n])) % TWO_32
  {
    assert LeadsOn(mem, rows, mainRows, n);
  }

  lemma SameLinks(s: Stage, s': Stage, q: Query, b: nat, rows: seq<nat>)
    requires WellKept(s.mem, s.owner, q, b, s.chain) && Chained(s, q, b, rows) && s'.chain == s.chain
    requires forall r | r in s.chain :: Unchanged(s, s', b, Link(r))
    ensures Chained(s', q, b, rows)
  {
    forall n | 0 <= n < |rows|
      ensures LeadsOn(s'.mem, rows, q.rows, n)
    {
      assert LeadsOn(s.mem, rows, q.rows, n) && rows[n] in s.chain && Unchanged(s, s', b, Link(rows[n]));
    }
  }

  lemma LinkChains(s: Stage, s': Stage, q: Query, b: nat, last: nat, extra: nat, rows: seq<nat>)
    requires WellKept(s.mem, s.owner, q, b, s.chain) && Chained(s, q, b, rows)
    requires Edited(s, s', q, b, LinkRow(last, extra))
    ensures Chained(s', q, b, rows + [extra])
  {
    hide SlotKept, Spells;
    var more := rows + [extra];
    var m :| 0 <= m < |rows| && rows[m] == last;
    NoLinkIsLast(s.mem, rows, q.rows, m);
    forall n | 0 <= n < |rows|
      ensures LeadsOn(s'.mem, more, q.rows, n)
    {
      assert rows[n] in s.chain && more[n] == rows[n];
      NoLinkIsLast(s.mem, rows, q.rows, n);
      if rows[n] != last {
        assert Unchanged(s, s', b, Link(rows[n]));
      }
    }
    assert LeadsOn(s'.mem, more, q.rows, |rows|);
    EachLeadsOn(s'.mem, more, q.rows);
    forall r
      ensures r in more <==> r in s'.chain
    {
      assert r in rows <==> r in s.chain;
    }
  }

  lemma EachLeadsOn(mem: map<Loc, U64>, rows: seq<nat>, mainRows: nat)
    requires rows != [] && forall n | 0 <= n < |rows| :: LeadsOn(mem, rows, mainRows, n)
    ensures Spells(mem, rows, mainRows)
  {
  }

  /** The row taken off was the last one, and the row before it, now the last one, has no link any more. */
  lemma UnlinkedLast(s: Stage, s': Stage, q: Query, b: nat, last: nat, extra: nat, rows: seq<nat>, n: nat)
    requires WellKept(s.mem, s.owner, q, b, s.chain) && Chained(s, q, b, rows) && n < |rows|
    requires Edited(s, s', q, b, UnlinkRow(last, extra))
    ensures rows[n] == last ==> n + 2 == |rows|
    ensures rows[n] == extra <==> n + 1 == |rows|
    ensures n + 2 <= |rows| && rows[n] != last ==>
              n + 3 <= |rows| && At(s'.mem, Link(rows[n])) == At(s.mem, Link(rows[n]))
  {
    hide SlotKept, Spells;
    var m :| 0 <= m < |rows| && rows[m] == last;
    NoLinkIsLast(s.mem, rows, q.rows, m);
    NoLinkIsLast(s.mem, rows, q.rows, m + 1);
    NoLinkIsLast(s.mem, rows, q.rows, n);
    if n + 1 < |rows| {
      NoLinkIsLast(s.mem, rows, q.rows, n + 1);
      assert rows[n] in s.chain;
      assert rows[n] != last ==> Unchanged(s, s', b, Link(rows[n]));
    }
  }

  lemma UnlinkChains(s: Stage, s': Stage, q: Query, b: nat, last: nat, extra: nat, rows: seq<nat>)
    requires WellKept(s.mem, s.owner, q, b, s.chain) && Chained(s, q, b, rows)
    requires Edited(s, s', q, b, UnlinkRow(last, extra))
    ensures 2 <= |rows| && Chained(s', q, b, rows[..|rows| - 1])
  {
    hide SlotKept, Spells, WellKept, RowOf;
    var less := rows[..|rows| - 1];
    UnlinkedLast(s, s', q, b, last, extra, rows, 0);
    forall n | 0 <= n < |less|
      ensures less[n] != extra && LeadsOn(s'.mem, less, q.rows, n)
    {
      UnlinkedLast(s, s', q, b, last, extra, rows, n);
      NoLinkIsLast(s.mem, rows, q.rows, n);
    }
    EachLeadsOn(s'.mem, less, q.rows);
    UnlinkedLast(s, s', q, b, last, extra, rows, |rows| - 1);
    assert rows == less + [extra];
    forall r
      ensures r in less <==> r in s'.chain
    {
      assert r in rows <==> r in s.chain;
    }
  }

  /** Every edit leaves a chain that ends. */
  lemma EditEnds(s: Stage, s': Stage, q: Query, b: nat, edit: Edit)
    requires Kept(s, q, b) && Ends(s, q, b) && Edited(s, s', q, b, edit)
    ensures Ends(s', q, b)
  {
    hide SlotKept, Spells, RowOf;
    var rows :| Chained(s, q, b, rows);
    match edit {
      case Put(_, _) => SameLinks(s, s', q, b, rows);
      case MoveItem(_, _, _, _) => SameLinks(s, s', q, b, rows);
      case LinkRow(last, extra) => LinkChains(s, s', q, b, last, extra, rows);
      case UnlinkRow(last, extra) => UnlinkChains(s, s', q, b, last, extra, rows);
    }
  }

  lemma {:induction false} PathEnds(stages: seq<Stage>, q: Query, b: nat)
    requires EditPath(stages, q, b) && Kept(stages[0], q, b) && Ends(stages[0], q, b)
    ensures Ends(stages[|stages| - 1], q, b)
  {
    hide Kept, Edited, Ends;
    var n := |stages| - 1;
    if 0 < n {
      assert stages[..n][n - 1] == stages[n - 1];
      PathKeeps(stages[..n], q, b);
      PathEnds(stages[..n], q, b);
      assert EditedSomehow(stages[n - 1], stages[n], q, b);
      var edit :| Edited(stages[n - 1], stages[n], q, b, edit);
      EditEnds(stages[n - 1], stages[n], q, b, edit);
    }
  }

  lemma {:induction false} EndsAlong(states: seq<State>, chains: seq<set<nat>>, q: Query, b: nat, k: nat)
    requires Run(states) && OnlyEdits(states, chains, q, b) && k < |states| && Quiet(states[k], b)
    requires Kept(StageOf(states[0], chains[0]), q, b) && Ends(StageOf(states[0], chains[0]), q, b)
    ensures Ends(StageOf(states[k], chains[k]), q, b)
  {
    hide Run, Inv, Kept, EditPath, Unchanged, Quiet, Ends;
    if 0 < k {
      var e := StepTo(states, k);
      if Quiet(states[k - 1], b) {
        EndsAlong(states, chains, q, b, k - 1);
        KeptAlong(states, chains, q, b, k - 1);
        RunKeepsInv(states, k - 1);
        QuietStep(states[k - 1], e, b, chains[k]);
        SameEnds(StageOf(states[k - 1], chains[k]), StageOf(states[k], chains[k]), q, b);
      } else {
        var i: nat, stages: seq<Stage> :|
          && i < k && Quiet(states[i], b) && stages != [] && EditPath(stages, q, b)
          && stages[0] == StageOf(states[i], chains[i]) && stages[|stages| - 1] == StageOf(states[k], chains[k]);
        EndsAlong(states, chains, q, b, i);
        KeptAlong(states, chains, q, b, i);
        PathEnds(stages, q, b);
      }
    }
  }

  lemma SameEnds(s: Stage, s': Stage, q: Query, b: nat)
    requires Kept(s, q, b) && Ends(s, q, b) && s'.chain == s.chain && forall l :: Unchanged(s, s', b, l)
    ensures Ends(s', q, b)
  {
    hide SlotKept, Spells, Unchanged;
    var rows :| Chained(s, q, b, rows);
    SameLinks(s, s', q, b, rows);
  }

  /** Among writers that only edit, the chain of a bucket ends at every instant, and `get` answers what the words of one
      instant of its call say of it. */
  lemma GetAnswersAnInstant(states: seq<State>, chains: seq<set<nat>>, i: nat, t: nat, q: Query)
    returns (j: nat, rows: seq<nat>)
    requires Run(states) && i < |states| && t < |states[i].threads| && states[i].threads[t].Returned?
    requires var th := states[i].threads[t];
             && th.reader == GetReader(q, th.b) && !Overtaken(th.snap.sections, th.ended)
             && OnlyEdits(states, chains, q, th.b) && Kept(StageOf(states[0], chains[0]), q, th.b)
             && Ends(StageOf(states[0], chains[0]), q, th.b)
    ensures var th := states[i].threads[t];
            && Instant(states, i, t, th.b, th.snap, j)
            && |chains| == |states| && Chained(StageOf(states[j], chains[j]), q, th.b, rows)
            && var pc := Drive(q, AtSlot(th.b, 0), th.seen);
               pc.Answer? && Answers(states[j].mem, q, rows, pc.result, pc.value)
  {
    hide Run, Follows, WellKept, Drive, OnlyEdits, Spells, Answers, GetReader, Kept, Ends, FirstHolder, NoneBefore;
    var th := states[i].threads[t];
    SameLength(states, chains, q, th.b);
    KeptHasSlots(StageOf(states[0], chains[0]), q, th.b);
    j := GetAmongEdits(states, chains, i, t, q);
    EndsAlong(states, chains, q, th.b, j);
    rows := ItsRows(StageOf(states[j], chains[j]), q, th.b);
    AnswerFinishes(q, th.b, th.seen);
    LoneGetAnswers(states[j].mem, q, rows, th.seen);
  }

  lemma ItsRows(s: Stage, q: Query, b: nat) returns (rows: seq<nat>)
    requires Ends(s, q, b)
    ensures Chained(s, q, b, rows)
  {
    rows :| Chained(s, q, b, rows);
  }

  lemma KeptHasSlots(s: Stage, q: Query, b: nat)
    requires Kept(s, q, b)
    ensures 0 < q.bucketSize
  {
  }

  lemma AnswerFinishes(q: Query, row: nat, seen: seq<U64>)
    requires Drive(q, AtSlot(row, 0), seen).Answer?
    ensures GetReader(q, row)(seen) == Finish
  {
  }
}
