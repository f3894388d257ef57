/**
 Request descriptors of a client thread: a doubly linked list of active ones in the order of their deadlines, a singly
 linked list of unused ones, and a 16-bit epoch per descriptor that tells late responses from awaited ones.
 */
module Descriptors {
  import opened Words
  import opened Remainders

  const COUNT: int := 1024       // kMaxOutstandingRequestCount
  const NULL_RD: int := 0xffff   // kNullRD

  /** A request that was issued: its descriptor, how often that had been released before, its deadline and argument. */
  datatype Issue = Issue(rd: nat, generation: nat, deadline: nat, arg: nat)

  // ---------- Lists ----------

  function At(list: seq<nat>, i: int): (rd: nat) {
    if 0 <= i < |list| then list[i] else NULL_RD
  }

  /** Every member links to the following one. */
  ghost predicate Forward(next: seq<nat>, list: seq<nat>) {
    && (forall i | 0 <= i < |list| :: list[i] < |next|)
    && forall i {:trigger next[list[i]]} | 0 <= i < |list| :: next[list[i]] == At(list, i + 1)
  }

  /** Every member links to the one before. */
  ghost predicate Backward(prev: seq<nat>, list: seq<nat>) {
    && (forall i | 0 <= i < |list| :: list[i] < |prev|)
    && forall i {:trigger prev[list[i]]} | 0 <= i < |list| :: prev[list[i]] == At(list, i - 1)
  }

  ghost predicate Distinct(list: seq<nat>) {
    forall i, j | 0 <= i < j < |list| :: list[i] != list[j]
  }

  /** Each descriptor is in exactly one of the two lists, once. */
  ghost predicate Partition(active: seq<nat>, unused: seq<nat>) {
    && Distinct(active) && Distinct(unused)
    && (forall rd | rd in active :: rd < COUNT && rd !in unused)
    && (forall rd | rd in unused :: rd < COUNT)
    && (forall rd: nat | rd < COUNT :: rd in active || rd in unused)
  }

  function Without(list: seq<nat>, k: nat): (rest: seq<nat>)
    requires k < |list|
    ensures |rest| == |list| - 1 && forall i | 0 <= i < |rest| :: rest[i] == list[if i < k then i else i + 1]
  {
    list[..k] + list[k + 1..]
  }

  lemma WithoutIn(list: seq<nat>, k: nat)
    requires Distinct(list) && k < |list|
    ensures Distinct(Without(list, k))
    ensures forall rd :: rd in Without(list, k) <==> rd in list && rd != list[k]
  {
    var rest := Without(list, k);
    forall i, j | 0 <= i < j < |rest|
      ensures rest[i] != rest[j]
    {
      assert rest[i] == list[if i < k then i else i + 1] && rest[j] == list[if j < k then j else j + 1];
    }
    forall rd
      ensures rd in rest <==> rd in list && rd != list[k]
    {
      if rd in rest {
        var i :| 0 <= i < |rest| && rest[i] == rd;
        assert rest[i] == list[if i < k then i else i + 1];
      }
      if rd in list && rd != list[k] {
        var i :| 0 <= i < |list| && list[i] == rd;
        assert rest[if i < k then i else i - 1] == rd;
      }
    }
  }

  /** Taking the k-th member out of the links of a list. */
  lemma ForwardUnlinked(next: seq<nat>, next': seq<nat>, list: seq<nat>, k: nat)
    requires Forward(next, list) && Distinct(list) && k < |list| && |next'| == |next|
    requires 0 < k ==> next'[list[k - 1]] == At(list, k + 1)
    requires forall i {:trigger next'[list[i]]} | 0 <= i < |list| && i != k
             && i != k - 1 :: next'[list[i]] == next[list[i]]
    ensures Forward(next', Without(list, k))
  {
    hide Without;
    var rest := Without(list, k);
    forall i | 0 <= i < |rest|
      ensures rest[i] < |next'| && next'[rest[i]] == At(rest, i + 1)
    {
      var j := if i < k then i else i + 1;
      assert next[list[j]] == At(list, j + 1);
    }
  }

  lemma BackwardUnlinked(prev: seq<nat>, prev': seq<nat>, list: seq<nat>, k: nat)
    requires Backward(prev, list) && Distinct(list) && k < |list| && |prev'| == |prev|
    requires k + 1 < |list| ==> prev'[list[k + 1]] == At(list, k - 1)
    requires forall i {:trigger prev'[list[i]]} | 0 <= i < |list| && i != k
             && i != k + 1 :: prev'[list[i]] == prev[list[i]]
    ensures Backward(prev', Without(list, k))
  {
    hide Without;
    var rest := Without(list, k);
    forall i | 0 <= i < |rest|
      ensures rest[i] < |prev'| && prev'[rest[i]] == At(rest, i - 1)
    {
      var j := if i < k then i else i + 1;
      assert prev[list[j]] == At(list, j - 1);
    }
  }

  lemma PartitionReleased(active: seq<nat>, unused: seq<nat>, k: nat)
    requires Partition(active, unused) && k < |active|
    ensures Partition(Without(active, k), [active[k]] + unused)
  {
    WithoutIn(active, k);
    assert active[k] in active;
  }

  /** What the heads of the lists are when a descriptor is left. */
  lemma MayAllocate(active: seq<nat>, unused: seq<nat>)
    requires Partition(active, unused) && |active| + |unused| == COUNT && |active| < COUNT
    ensures unused != [] && unused[0] < COUNT && unused[0] !in active
    ensures At(active, 0) == NULL_RD <==> active == []
    ensures active != [] ==> At(active, |active| - 1) < COUNT && At(active, |active| - 1) != unused[0]
  {
    assert unused[0] in unused;
    assert active != [] ==> active[0] in active && active[|active| - 1] in active;
  }

  /** The links after an unused descriptor went to the end of the active list. */
  lemma Appended(next: seq<nat>, next': seq<nat>, prev: seq<nat>, prev': seq<nat>, active: seq<nat>, unused: seq<nat>)
    requires Partition(active, unused) && unused != [] && |next| == |prev| == |next'| == |prev'| == COUNT
    requires Forward(next, active) && Backward(prev, active) && Forward(next, unused)
    requires var rd, last := unused[0], At(active, |active| - 1);
             && rd < COUNT && prev' == prev[rd := last] && (active != [] ==> last < COUNT)
             && next' == (if active == [] then next[rd := NULL_RD] else next[rd := NULL_RD][last := rd])
    ensures Forward(next', active + [unused[0]]) && Backward(prev', active + [unused[0]]) && Forward(next', unused[1..])
    ensures next[unused[0]] == At(unused[1..], 0)
  {
    var rd, active' := unused[0], active + [unused[0]];
    assert rd in unused && forall i | 0 <= i < |active| :: active[i] in active;
    assert forall i | 0 <= i < |unused| :: unused[i] in unused;
    forall i | 0 <= i < |active'|
      ensures next'[active'[i]] == At(active', i + 1) && prev'[active'[i]] == At(active', i - 1)
    {
    }
    forall i | 0 <= i < |unused| - 1
      ensures next'[unused[1..][i]] == At(unused[1..], i + 1)
    {
      assert next[unused[i + 1]] == At(unused, i + 2);
    }
  }

  lemma PartitionDistinct(active: seq<nat>, unused: seq<nat>)
    requires Partition(active, unused)
    ensures Distinct(active)
  {
  }

  /** The neighbours of an active descriptor. */
  lemma AroundMember(next: seq<nat>, prev: seq<nat>, active: seq<nat>, unused: seq<nat>, k: nat)
    requires Partition(active, unused) && k < |active| && Forward(next, active) && Backward(prev, active)
    requires |next| == |prev| == COUNT
    ensures var rd := active[k];
            && rd < COUNT && next[rd] == At(active, k + 1) && prev[rd] == At(active, k - 1)
            && (next[rd] != NULL_RD <==> k + 1 < |active|) && (prev[rd] != NULL_RD <==> 0 < k)
            && (next[rd] != NULL_RD ==> next[rd] < COUNT && next[rd] != rd)
            && (prev[rd] != NULL_RD ==> prev[rd] < COUNT && prev[rd] != rd)
            && (active[0] == rd <==> k == 0) && (active[|active| - 1] == rd <==> k == |active| - 1)
  {
    assert forall i | 0 <= i < |active| :: active[i] in active;
  }

  /** Where a descriptor stands in its list. */
  lemma Place(active: seq<nat>, unused: seq<nat>, rd: nat) returns (k: nat)
    requires Partition(active, unused) && rd < COUNT
    ensures if rd in active then k < |active| && active[k] == rd else k < |unused| && unused[k] == rd
  {
    if rd in active {
      k :| 0 <= k < |active| && active[k] == rd;
    } else {
      k :| 0 <= k < |unused| && unused[k] == rd;
    }
  }

  lemma AroundUnused(next: seq<nat>, active: seq<nat>, unused: seq<nat>, k: nat)
    requires Partition(active, unused) && k < |unused| && Forward(next, unused) && |next| == COUNT
    ensures var rd := unused[k];
            && rd < COUNT && next[rd] == At(unused, k + 1)
              && (next[rd] == NULL_RD || (next[rd] < COUNT && next[rd] != rd))
            && At(active, 0) != rd && At(active, |active| - 1) != rd
  {
    assert forall i | 0 <= i < |active| :: active[i] in active;
    assert forall i | 0 <= i < |unused| :: unused[i] in unused;
  }

  /** The links after the k-th active descriptor went to the front of the unused list. */
  lemma Removed(next: seq<nat>, next': seq<nat>, prev: seq<nat>, prev': seq<nat>, active: seq<nat>, unused: seq<nat>,
                k: nat)
    requires Partition(active, unused) && k < |active| && |next| == |prev| == |next'| == |prev'| == COUNT
    requires Forward(next, active) && Backward(prev, active) && Forward(next, unused)
    requires var rd, after, before := active[k], At(active, k + 1), At(active, k - 1);
             && rd < COUNT && (k + 1 < |active| ==> after < COUNT) && (0 < k ==> before < COUNT)
             && prev' == (if k + 1 < |active| then prev[after := before] else prev)
             && next' == (if 0 < k then next[before := after] else next)[rd := At(unused, 0)]
    ensures Partition(Without(active, k), [active[k]] + unused)
    ensures Forward(next', Without(active, k)) && Backward(prev', Without(active, k))
    ensures Forward(next', [active[k]] + unused)
    ensures At(Without(active, k), 0) == if k == 0 then At(active, 1) else At(active, 0)
    ensures At(Without(active, k), |active| - 2) ==
              if k == |active| - 1 then At(active, k - 1) else At(active, |active| - 1)
  {
    hide Without;
    PartitionReleased(active, unused, k);
    PartitionDistinct(active, unused);
    ForwardUnlinked(next, next', active, k);
    BackwardUnlinked(prev, prev', active, k);
    var unused' := [active[k]] + unused;
    assert forall i | 0 <= i < |active| :: active[i] in active;
    assert forall i | 0 <= i < |unused| :: unused[i] in unused;
    forall i | 0 <= i < |unused'|
      ensures unused'[i] < COUNT && next'[unused'[i]] == At(unused', i + 1)
    {
      if 0 < i {
        assert next[unused[i - 1]] == At(unused, i);
      }
    }
  }

  lemma PartitionAllocated(active: seq<nat>, unused: seq<nat>)
    requires Partition(active, unused) && unused != []
    ensures Partition(active + [unused[0]], unused[1..])
  {
    assert unused[0] in unused;
    assert forall rd :: rd in unused <==> rd == unused[0] || rd in unused[1..];
  }

  /** The heads of the lists and the count: first unused, first and last active, outstanding. */
  datatype Heads = Heads(unused: nat, first: nat, last: nat, count: nat)

  /** Two lists are what links, heads and count describe. */
  ghost predicate Described(next: seq<nat>, prev: seq<nat>, heads: Heads, active: seq<nat>, unused: seq<nat>) {
    && |next| == |prev| == COUNT && Partition(active, unused)
    && Forward(next, active) && Backward(prev, active) && Forward(next, unused)
    && heads == Heads(At(unused, 0), At(active, 0), At(active, |active| - 1), |active|)
    && |active| + |unused| == COUNT
  }

  /** A chain of links that meets another list follows it. */
  lemma {:induction false} SameChain(next: seq<nat>, list: seq<nat>, from: nat, other: seq<nat>, at: nat, n: nat)
    requires Forward(next, list) && |next| == COUNT && at <= n <= |other| && At(list, from) == At(other, at)
    requires forall i | 0 <= i < |other| :: other[i] < COUNT
    requires forall i | at <= i < n :: next[other[i]] == At(other, i + 1)
    ensures At(list, from + (n - at)) == At(other, n)
    ensures n == |other| ==> |list| == from + (n - at) || (|list| < from && at == n)
    decreases n - at
  {
    if at < n {
      assert next[list[from]] == At(list, from + 1);
      SameChain(next, list, from + 1, other, at + 1, n);
    }
  }

  /** The members of a chain that leaves a list behind its k-th member for the part of another behind its j-th. */
  lemma RunsOver(next: seq<nat>, list: seq<nat>, active: seq<nat>, k: nat, unused: seq<nat>, j: nat)
    requires Forward(next, list) && |next| == COUNT && k < |active| && j < |unused|
    requires (forall i | 0 <= i < |active| :: active[i] < COUNT) && (forall i | 0 <= i < |unused| :: unused[i] < COUNT)
    requires At(list, 0) == active[0] && forall i | 0 <= i < k :: next[active[i]] == At(active, i + 1)
    requires next[active[k]] == At(unused, j + 1) && forall i | j < i < |unused| :: next[unused[i]] == At(unused, i + 1)
    ensures |list| == k + |unused| - j
    ensures list[|list| - 1] == if j + 1 < |unused| then unused[|unused| - 1] else active[k]
  {
    SameChain(next, list, 0, active, 0, k);
    assert next[list[k]] == At(list, k + 1);
    SameChain(next, list, k + 1, unused, j + 1, |unused|);
    SameChain(next, list, k + 1, unused, j + 1, if j + 1 < |unused| then |unused| - 1 else |unused|);
  }

  lemma Members(active: seq<nat>, unused: seq<nat>)
    requires Partition(active, unused)
    ensures (forall i | 0 <= i < |active| :: active[i] < COUNT) && (forall i | 0 <= i < |unused| :: unused[i] < COUNT)
    ensures forall i, j | 0 <= i < |active| && 0 <= j < |unused| :: active[i] != unused[j]
    ensures Distinct(active) && Distinct(unused)
  {
    assert forall i | 0 <= i < |active| :: active[i] in active;
    assert forall i | 0 <= i < |unused| :: unused[i] in unused;
  }

  /** Links that follow the active list still describe no list with one member less. */
  lemma StaysLong(next: seq<nat>, prev: seq<nat>, active: seq<nat>, heads: Heads, active': seq<nat>, unused': seq<nat>)
    requires |next| == COUNT
    requires forall i | 0 <= i < |active| :: active[i] < COUNT && next[active[i]] == At(active, i + 1)
    requires heads.first == At(active, 0) && heads.count != |active|
    ensures !Described(next, prev, heads, active', unused')
  {
    hide Partition, Backward;
    if Described(next, prev, heads, active', unused') {
      SameChain(next, active', 0, active, 0, |active|);
      assert false;
    }
  }

  /** Links that lead from the k-th active descriptor into the unused ones end there, and not where the last one is. */
  lemma EndsElsewhere(next: seq<nat>, prev: seq<nat>, active: seq<nat>, k: nat, unused: seq<nat>, j: nat, heads: Heads,
                      active': seq<nat>, unused': seq<nat>)
    requires |next| == COUNT && k < |active| && j < |unused|
    requires (forall i | 0 <= i < |active| :: active[i] < COUNT) && (forall i | 0 <= i < |unused| :: unused[i] < COUNT)
    requires forall i | 0 <= i < k :: next[active[i]] == At(active, i + 1)
    requires next[active[k]] == At(unused, j + 1) && forall i | j < i < |unused| :: next[unused[i]] == At(unused, i + 1)
    requires forall i, m | 0 <= i < |active| && 0 <= m < |unused| :: active[i] != unused[m]
    requires Distinct(active)
    requires heads.first == active[0] && heads.last == active[|active| - 1] && heads.count != |active|
    ensures !Described(next, prev, heads, active', unused')
  {
    hide Partition, Backward;
    if Described(next, prev, heads, active', unused') {
      RunsOver(next, active', active, k, unused, j);
      assert false;
    }
  }

  /** What release_rd writes. */
  ghost predicate ReleaseWrites(next: seq<nat>, next': seq<nat>, prev: seq<nat>, prev': seq<nat>, head: nat, rd: nat) {
    && |next| == |prev| == COUNT && rd < COUNT && (next[rd] == NULL_RD || (next[rd] < COUNT && next[rd] != rd))
    && (prev[rd] == NULL_RD || prev[rd] < COUNT)
    && prev' == (if next[rd] != NULL_RD then prev[next[rd] := prev[rd]] else prev)
    && next' == (if prev[rd] != NULL_RD then next[prev[rd] := next[rd]] else next)[rd := head]
  }

  /** The release of the j-th unused descriptor leaves links, heads and a count that describe no two lists: either the
      active list is what it was, but counted one short, or it runs into the unused one. */
  lemma UnusedReleaseBreaks(next: seq<nat>, next': seq<nat>, prev: seq<nat>, prev': seq<nat>, active: seq<nat>,
                            unused: seq<nat>, heads: Heads, heads': Heads, j: nat, active': seq<nat>, unused': seq<nat>)
    requires Described(next, prev, heads, active, unused) && j < |unused|
    requires ReleaseWrites(next, next', prev, prev', heads.unused, unused[j])
    requires heads'.first == heads.first && heads'.last == heads.last
             && heads'.count == (heads.count + TWO_16 - 1) % TWO_16
    ensures !Described(next', prev', heads', active', unused')
  {
    hide Described, Partition, Forward, Backward, Distinct, ReleaseWrites, At;
    UnusedReleaseWrites(next, next', prev, prev', active, unused, heads, j);
    var before := prev[unused[j]];
    if k :| 0 <= k < |active| && active[k] == before {
      EndsElsewhere(next', prev', active, k, unused, j, heads', active', unused');
    } else {
      StaysLong(next', prev', active, heads', active', unused');
    }
  }

  /** What the release of an unused descriptor changes of the links. */
  lemma UnusedReleaseWrites(next: seq<nat>, next': seq<nat>, prev: seq<nat>, prev': seq<nat>, active: seq<nat>,
                            unused: seq<nat>, heads: Heads, j: nat)
    requires Described(next, prev, heads, active, unused) && j < |unused|
    requires ReleaseWrites(next, next', prev, prev', heads.unused, unused[j])
    ensures |next'| == |prev| == COUNT && unused[j] < COUNT
    ensures heads.first == At(active, 0) && heads.last == At(active, |active| - 1) && heads.count == |active| <= COUNT
    ensures active != [] ==> heads.first == active[0] && heads.last == active[|active| - 1]
    ensures (forall i | 0 <= i < |active| :: active[i] < COUNT) && (forall i | 0 <= i < |unused| :: unused[i] < COUNT)
    ensures forall i, m | 0 <= i < |active| && 0 <= m < |unused| :: active[i] != unused[m]
    ensures Distinct(active) && forall i, k | 0 <= i < k < |active| :: active[i] != active[k]
    ensures forall i | 0 <= i < |active| ::
              next'[active[i]] == if active[i] == prev[unused[j]] then At(unused, j + 1) else At(active, i + 1)
    ensures prev[unused[j]] in active ==> forall i | j < i < |unused| :: next'[unused[i]] == At(unused, i + 1)
  {
    hide Partition, Backward;
    Members(active, unused);
    var rd, before := unused[j], prev[unused[j]];
    assert next[rd] == At(unused, j + 1);
    forall i | 0 <= i < |active|
      ensures next'[active[i]] == if active[i] == before then At(unused, j + 1) else At(active, i + 1)
    {
      assert next[active[i]] == At(active, i + 1);
    }
    if before in active {
      var k :| 0 <= k < |active| && active[k] == before;
      forall i | j < i < |unused|
        ensures next'[unused[i]] == At(unused, i + 1)
      {
        assert next[unused[i]] == At(unused, i + 1);
      }
    }
  }

  /** The neighbours of a descriptor, used or not. */
  lemma Around(next: seq<nat>, prev: seq<nat>, active: seq<nat>, unused: seq<nat>, heads: Heads,
               rd: nat) returns (k: nat)
    requires Described(next, prev, heads, active, unused) && rd < COUNT
    requires forall d | 0 <= d < COUNT :: prev[d] == NULL_RD || prev[d] < COUNT
    ensures if rd in active then k < |active| && active[k] == rd else k < |unused| && unused[k] == rd
    ensures |next| == |prev| == COUNT && (next[rd] == NULL_RD || (next[rd] < COUNT && next[rd] != rd))
    ensures prev[rd] == NULL_RD || prev[rd] < COUNT
    ensures rd in active ==> prev[rd] != rd
    ensures rd !in active ==> heads.first != rd && heads.last != rd
  {
    hide Forward, Backward, Partition;
    k := Place(active, unused, rd);
    if rd in active {
      AroundMember(next, prev, active, unused, k);
    } else {
      AroundUnused(next, active, unused, k);
    }
  }

  lemma UsedReleased(next: seq<nat>, next': seq<nat>, prev: seq<nat>, prev': seq<nat>, active: seq<nat>,
                     unused: seq<nat>,
                     heads: Heads, k: nat)
    requires Described(next, prev, heads, active, unused) && k < |active|
    requires ReleaseWrites(next, next', prev, prev', heads.unused, active[k])
    requires forall d | 0 <= d < COUNT :: prev[d] == NULL_RD || prev[d] < COUNT
    ensures var rd := active[k];
            Described(next', prev', Heads(rd, if heads.first == rd then next[rd] else heads.first,
                                          if heads.last == rd then prev[rd] else heads.last,
                                          (heads.count + TWO_16 - 1) % TWO_16),
                      Without(active, k), [rd] + unused)
    ensures forall d | 0 <= d < COUNT :: prev'[d] == NULL_RD || prev'[d] < COUNT
  {
    hide Forward, Backward, Partition, Without;
    AroundMember(next, prev, active, unused, k);
    Removed(next, next', prev, prev', active, unused, k);
  }

  lemma UnusedReleased(next: seq<nat>, next': seq<nat>, prev: seq<nat>, prev': seq<nat>, active: seq<nat>,
                       unused: seq<nat>, heads: Heads, heads': Heads, k: nat)
    requires Described(next, prev, heads, active, unused) && k < |unused|
    requires ReleaseWrites(next, next', prev, prev', heads.unused, unused[k])
    requires heads'.first == heads.first && heads'.last == heads.last
             && heads'.count == (heads.count + TWO_16 - 1) % TWO_16
    ensures forall active', unused' :: !Described(next', prev', heads', active', unused')
  {
    hide *;
    forall active', unused'
      ensures !Described(next', prev', heads', active', unused')
    {
      UnusedReleaseBreaks(next, next', prev, prev', active, unused, heads, heads', k, active', unused');
    }
  }

  // ---------- Requests ----------

  /** Opaque number sent with a request: descriptor and epoch. */
  function OpaqueOf(rd: nat, generation: nat): (o: nat) {
    rd * TWO_16 + generation % TWO_16
  }

  /** What is known of the requests issued so far: those that are done have been completed once, each of the others has
      an active descriptor of its own. */
  ghost predicate Tracked(issued: seq<Issue>, done: seq<nat>, current: seq<nat>, generations: seq<nat>,
                          active: seq<nat>, expire: seq<nat>, args: seq<nat>) {
    && |generations| == |current| == |expire| == |args| == COUNT
    && (forall r | 0 <= r < |issued| :: IssueOk(issued[r], r, done, current, generations, active))
    && (forall r | r in done :: r < |issued|) && Distinct(done)
    && (forall rd | rd in active :: CurrentOk(issued, current, generations, rd, expire, args))
  }

  ghost predicate IssueOk(issue: Issue, r: nat, done: seq<nat>, current: seq<nat>, generations: seq<nat>,
                          active: seq<nat>)
    requires |generations| == |current| == COUNT
  {
    && issue.rd < COUNT && issue.generation <= generations[issue.rd]
    && (r in done <==> issue.generation < generations[issue.rd])
    && (r !in done ==> issue.rd in active && current[issue.rd] == r)
  }

  ghost predicate CurrentOk(issued: seq<Issue>, current: seq<nat>, generations: seq<nat>, rd: nat, expire: seq<nat>,
                            args: seq<nat>)
    requires |generations| == |current| == |expire| == |args| == COUNT
  {
    && rd < COUNT && current[rd] < |issued|
    && issued[current[rd]] == Issue(rd, generations[rd], expire[rd], args[rd])
  }

  /** Deadlines do not decrease along the active list, and none is later than the last one given out. */
  ghost predicate Deadlines(active: seq<nat>, expire: seq<nat>, latest: nat) {
    && (forall i, j | 0 <= i <= j < |active| ::
          active[i] < |expire| && active[j] < |expire| && expire[active[i]] <= expire[active[j]])
    && (forall i | 0 <= i < |active| :: active[i] < |expire| && expire[active[i]] <= latest)
  }

  lemma DeadlinesAppended(active: seq<nat>, expire: seq<nat>, latest: nat, rd: nat, deadline: nat)
    requires Deadlines(active, expire, latest) && rd < |expire| && rd !in active && latest <= deadline
    ensures Deadlines(active + [rd], expire[rd := deadline], deadline)
  {
  }

  lemma DeadlinesWithout(active: seq<nat>, expire: seq<nat>, latest: nat, k: nat)
    requires Deadlines(active, expire, latest) && k < |active|
    ensures Deadlines(Without(active, k), expire, latest)
  {
    var rest := Without(active, k);
    forall i | 0 <= i < |rest|
      ensures rest[i] == active[if i < k then i else i + 1]
    {
    }
    forall i, j | 0 <= i <= j < |rest|
      ensures rest[i] < |expire| && rest[j] < |expire| && expire[rest[i]] <= expire[rest[j]]
    {
    }
  }

  /** Releasing a descriptor completes its request and no other. */
  lemma TrackedReleased(issued: seq<Issue>, done: seq<nat>, current: seq<nat>, generations: seq<nat>, active: seq<nat>,
                        expire: seq<nat>, args: seq<nat>, k: nat)
    requires Tracked(issued, done, current, generations, active, expire, args) && Distinct(active) && k < |active|
    ensures var rd := active[k];
            && rd < COUNT && current[rd] !in done
            && Tracked(issued, done + [current[rd]], current, generations[rd := generations[rd] + 1],
                       Without(active, k),
                       expire, args)
  {
    var rd := active[k];
    assert CurrentOk(issued, current, generations, rd, expire, args);
    var r := current[rd];
    assert IssueOk(issued[r], r, done, current, generations, active);
    WithoutIn(active, k);
    var done', generations' := done + [r], generations[rd := generations[rd] + 1];
    forall q | 0 <= q < |issued|
      ensures IssueOk(issued[q], q, done', current, generations', Without(active, k))
    {
      assert IssueOk(issued[q], q, done, current, generations, active);
    }
    forall other | other in Without(active, k)
      ensures CurrentOk(issued, current, generations', other, expire, args)
    {
      assert CurrentOk(issued, current, generations, other, expire, args);
    }
  }

  /** Issuing a request on an unused descriptor. */
  lemma TrackedIssued(issued: seq<Issue>, done: seq<nat>, current: seq<nat>, generations: seq<nat>, active: seq<nat>,
                      expire: seq<nat>, args: seq<nat>, rd: nat, deadline: nat, arg: nat)
    requires Tracked(issued, done, current, generations, active, expire, args) && rd < COUNT && rd !in active
    ensures Tracked(issued + [Issue(rd, generations[rd], deadline, arg)], done, current[rd := |issued|], generations,
                    active + [rd], expire[rd := deadline], args[rd := arg])
  {
    var issued', current' := issued + [Issue(rd, generations[rd], deadline, arg)], current[rd := |issued|];
    forall q | 0 <= q < |issued'|
      ensures IssueOk(issued'[q], q, done, current', generations, active + [rd])
    {
      if q < |issued| {
        assert IssueOk(issued[q], q, done, current, generations, active);
      }
    }
    forall other | other in active + [rd]
      ensures CurrentOk(issued', current', generations, other, expire[rd := deadline], args[rd := arg])
    {
      if other != rd {
        assert CurrentOk(issued, current, generations, other, expire, args);
      }
    }
  }

  ghost predicate Epochs(epoch: seq<U16>, generations: seq<nat>) {
    |epoch| == |generations| == COUNT && forall rd | 0 <= rd < COUNT :: epoch[rd] == generations[rd] % TWO_16
  }

  /** Equal epochs mean that the number of releases in between is a multiple of 2^16, be it none or more. */
  lemma EpochTells(before: nat, now: nat)
    requires before <= now
    ensures before % TWO_16 == now % TWO_16 <==> (now - before) % TWO_16 == 0
  {
    var d := now - before;
    ModShift(before % TWO_16 + d % TWO_16, TWO_16, before / TWO_16 + d / TWO_16);
    assert now == before % TWO_16 + d % TWO_16 + (before / TWO_16 + d / TWO_16) * TWO_16;
  }

  lemma TrackedSizes(issued: seq<Issue>, done: seq<nat>, current: seq<nat>, generations: seq<nat>, active: seq<nat>,
                     expire: seq<nat>, args: seq<nat>)
    requires Tracked(issued, done, current, generations, active, expire, args)
    ensures |generations| == |current| == COUNT
  {
  }

  lemma EpochCounts(generation: nat)
    ensures (generation % TWO_16 + 1) % TWO_16 == (generation + 1) % TWO_16
  {
  }

  lemma OpaqueParts(rd: nat, generation: nat)
    ensures OpaqueOf(rd, generation) / TWO_16 == rd && OpaqueOf(rd, generation) % TWO_16 == generation % TWO_16
  {
  }

  /** Whose request a response that passes the epoch test completes, if its descriptor is active at all.  The test tells
      rightly whether the request is outstanding unless its descriptor has been released a positive multiple of 2^16
      times since. */
  lemma WhoseResponse(issued: seq<Issue>, done: seq<nat>, current: seq<nat>, generations: seq<nat>, active: seq<nat>,
                      expire: seq<nat>, args: seq<nat>, r: nat)
    requires Tracked(issued, done, current, generations, active, expire, args) && r < |issued|
    ensures var issue := issued[r];
            && issue.rd < COUNT && issue.generation <= generations[issue.rd]
            && (issue.generation % TWO_16 == generations[issue.rd] % TWO_16 <==>
                (generations[issue.rd] - issue.generation) % TWO_16 == 0)
            && ((issue.generation % TWO_16 == generations[issue.rd] % TWO_16 <==> r !in done) <==>
                generations[issue.rd] == issue.generation || (generations[issue.rd] - issue.generation) % TWO_16 != 0)
            && (r !in done ==>
                    issue.rd in active && current[issue.rd] == r && issue.generation == generations[issue.rd])
            && (issue.rd in active ==>
                  current[issue.rd] < |issued| && issued[current[issue.rd]].arg == args[issue.rd])
  {
    var issue := issued[r];
    assert IssueOk(issue, r, done, current, generations, active);
    EpochTells(issue.generation, generations[issue.rd]);
    if issue.rd in active {
      assert CurrentOk(issued, current, generations, issue.rd, expire, args);
    }
  }

  lemma FirstActive(active: seq<nat>, unused: seq<nat>, expire: seq<nat>, latest: nat)
    requires Partition(active, unused) && Deadlines(active, expire, latest) && |expire| == COUNT
    ensures At(active, 0) == NULL_RD <==> active == []
    ensures forall rd | rd in active :: rd < COUNT && expire[active[0]] <= expire[rd] <= latest
    ensures active != [] ==> active[0] < COUNT && expire[active[0]] <= latest
  {
    assert active != [] ==> active[0] in active;
    forall rd | rd in active
      ensures rd < COUNT && expire[active[0]] <= expire[rd] <= latest
    {
      var i :| 0 <= i < |active| && active[i] == rd;
    }
  }

  lemma FirstWithout(active: seq<nat>)
    requires active != []
    ensures Without(active, 0) == active[1..]
  {
  }

  lemma InitialLists(next: seq<nat>, prev: seq<nat>, unused: seq<nat>)
    requires |next| == |unused| == COUNT && forall i | 0 <= i < COUNT :: unused[i] == i
    requires forall i | 0 <= i < COUNT :: next[i] == if i + 1 < COUNT then i + 1 else NULL_RD
    ensures Partition([], unused) && Forward(next, unused) && Forward(next, []) && Backward(prev, [])
  {
    forall rd: nat | rd < COUNT
      ensures rd in unused
    {
      assert unused[rd] == rd;
    }
  }

  lemma InitiallyNothing(current: seq<nat>, generations: seq<nat>, expire: seq<nat>, args: seq<nat>, epoch: seq<U16>)
    requires |generations| == |current| == |expire| == |args| == |epoch| == COUNT
    requires forall rd | 0 <= rd < COUNT :: generations[rd] == 0 && epoch[rd] == 0
    ensures Epochs(epoch, generations)
    ensures Tracked([], [], current, generations, [], expire, args) && Deadlines([], expire, 0)
  {
  }

  // ---------- The descriptors of a thread ----------

  class ThreadState {
    const next: array<nat>
    const prev: array<nat>
    const epoch: array<U16>
    const expire: array<nat>
    const args: array<nat>
    const timeout: nat
    var unusedFirst: nat
    var activeFirst: nat
    var activeLast: nat
    var outstanding: nat
    ghost var active: seq<nat>
    ghost var unused: seq<nat>
    ghost var generations: seq<nat>  // releases of each descriptor so far
    ghost var current: seq<nat>      // the last request issued on each descriptor
    ghost var issued: seq<Issue>
    ghost var done: seq<nat>         // completed requests, in the order of completion
    ghost var latest: nat

    ghost predicate Sized()
      reads this
    {
      && next.Length == COUNT && prev.Length == COUNT && epoch.Length == COUNT && expire.Length == COUNT
      && args.Length == COUNT && next != prev && next != expire && next != args && prev != expire && prev != args
      && expire != args
    }

    ghost predicate Linked()
      reads this, next, prev
    {
      && Sized() && Described(next[..], prev[..], Heads(unusedFirst, activeFirst, activeLast, outstanding), active,
                              unused)
      && forall rd | 0 <= rd < COUNT :: prev[rd] == NULL_RD || prev[rd] < COUNT
    }

    /** Whatever two lists one thinks of, the links do not describe them. */
    ghost predicate Broken()
      reads this, next, prev
    {
      forall active', unused' ::
        !Described(next[..], prev[..], Heads(unusedFirst, activeFirst, activeLast, outstanding), active', unused')
    }

    ghost predicate Valid()
      reads this, next, prev, epoch, expire, args
    {
      && Linked()
      && Tracked(issued, done, current, generations, active, expire[..], args[..])
      && Deadlines(active, expire[..], latest)
      && Epochs(epoch[..], generations)
    }

    /** init_rds */
    constructor (timeout: nat)
      ensures Valid() && active == [] && issued == [] && done == [] && this.timeout == timeout && latest == 0
      ensures generations == seq(COUNT, _ => 0) && fresh(this) && fresh(next) && fresh(prev) && fresh(epoch)
      ensures fresh(expire) && fresh(args)
    {
      this.timeout := timeout;
      next, prev := new nat[COUNT](i => if i + 1 < COUNT then i + 1 else NULL_RD), new nat[COUNT](_ => NULL_RD);
      epoch, expire, args := new U16[COUNT](_ => 0), new nat[COUNT](_ => 0), new nat[COUNT](_ => 0);
      unusedFirst, activeFirst, activeLast, outstanding := 0, NULL_RD, NULL_RD, 0;
      active, unused := [], seq(COUNT, i => i);
      generations, current := seq(COUNT, _ => 0), seq(COUNT, _ => 0);
      issued, done, latest := [], [], 0;
      new;
      hide Partition, Forward, Backward, Tracked, Deadlines, Epochs;
      InitialLists(next[..], prev[..], unused);
      InitiallyNothing(current, generations, expire[..], args[..], epoch[..]);
    }

    /** can_request: whether a descriptor is left. */
    predicate CanRequest()
      reads this
    {
      outstanding < COUNT
    }

    /** The list part of allocate_rd: moves an unused descriptor to the end of the active list. */
    method Link() returns (rd: nat)
      requires Linked() && CanRequest()
      modifies this`unusedFirst, this`activeFirst, this`activeLast, this`outstanding, this`active, this`unused, next,
        prev
      ensures Linked() && rd < COUNT && rd !in old(active) && active == old(active) + [rd]
      ensures old(unused) == [rd] + unused
    {
      hide Partition, Forward, Backward;
      ghost var next0, prev0 := next[..], prev[..];
      rd := unusedFirst;
      MayAllocate(active, unused);
      unusedFirst := next[rd];
      prev[rd] := activeLast;
      next[rd] := NULL_RD;
      if activeFirst == NULL_RD {
        activeFirst, activeLast := rd, rd;
      } else {
        next[activeLast] := rd;
        activeLast := rd;
      }
      outstanding := (outstanding + 1) % TWO_16;
      Appended(next0, next[..], prev0, prev[..], active, unused);
      PartitionAllocated(active, unused);
      active, unused := active + [rd], unused[1..];
    }

    /** allocate_rd and the opaque number that append_request sends with the request. */
    method AppendRequest(now: nat, arg: nat) returns (rd: nat, cookie: nat)
      requires Valid() && CanRequest() && latest <= now + timeout
      modifies this, next, prev, expire, args
      ensures Valid() && rd < COUNT && cookie == OpaqueOf(rd, generations[rd])
      ensures rd !in old(active) && active == old(active) + [rd] && generations == old(generations)
      ensures issued == old(issued) + [Issue(rd, generations[rd], now + timeout, arg)] && done == old(done)
      ensures latest == now + timeout && old(unused) == [rd] + unused
      ensures |old(current)| == COUNT && current == old(current)[rd := |old(issued)|]
    {
      hide Partition, Forward, Backward, Tracked, Deadlines;
      TrackedSizes(issued, done, current, generations, active, expire[..], args[..]);
      ghost var active0, expire0, args0 := active, expire[..], args[..];
      var deadline: nat := now + timeout;
      rd := Link();
      expire[rd] := deadline;
      args[rd] := arg;
      cookie := rd * TWO_16 + epoch[rd];
      assert expire[..] == expire0[rd := deadline] && args[..] == args0[rd := arg];
      TrackedIssued(issued, done, current, generations, active0, expire0, args0, rd, deadline, arg);
      DeadlinesAppended(active0, expire0, latest, rd, deadline);
      issued, current, latest := issued + [Issue(rd, generations[rd], deadline, arg)], current[rd := |issued|],
        deadline;
    }

    /** The list part of release_rd: moves an active descriptor to the front of the unused list.  Nothing keeps it from
        being called with an unused one, which leaves no list to be found. */
    method Unlink(rd: nat) returns (ghost k: nat)
      requires Linked() && rd < COUNT
      modifies this`unusedFirst, this`activeFirst, this`activeLast, this`outstanding, this`active, this`unused, next,
        prev
      ensures rd in old(active) ==>
                && Linked() && k < |old(active)| && rd == old(active)[k]
                && active == Without(old(active), k) && unused == [rd] + old(unused)
      ensures rd !in old(active) ==> Sized() && Broken() && active == old(active) && unused == old(unused)
    {
      hide Partition, Forward, Backward, Without, Described;
      ghost var next0, prev0, heads := next[..], prev[..], Heads(unusedFirst, activeFirst, activeLast, outstanding);
      k := Around(next0, prev0, active, unused, heads, rd);
      if next[rd] != NULL_RD {
        prev[next[rd]] := prev[rd];
      }
      if prev[rd] != NULL_RD {
        next[prev[rd]] := next[rd];
      }
      if activeFirst == rd {
        activeFirst := next[rd];
      }
      if activeLast == rd {
        activeLast := prev[rd];
      }
      next[rd] := unusedFirst;
      unusedFirst := rd;
      outstanding := (outstanding + TWO_16 - 1) % TWO_16;
      if rd in active {
        UsedReleased(next0, next[..], prev0, prev[..], active, unused, heads, k);
        active, unused := Without(active, k), [rd] + unused;
      } else {
        UnusedReleased(next0, next[..], prev0, prev[..], active, unused, heads,
                       Heads(unusedFirst, activeFirst, activeLast, outstanding), k);
      }
    }

    /** release_rd: completes the request of an active descriptor. */
    method Release(rd: nat) returns (ghost k: nat)
      requires Valid() && rd < COUNT
      modifies this, next, prev, epoch
      ensures issued == old(issued) && current == old(current) && latest == old(latest)
      ensures rd in old(active) ==>
                && Valid() && k < |old(active)| && rd == old(active)[k]
                && active == Without(old(active), k) && unused == [rd] + old(unused)
                && |current| == COUNT && current[rd] !in old(done) && done == old(done) + [current[rd]]
                && |old(generations)| == COUNT && generations == old(generations)[rd := old(generations)[rd] + 1]
      ensures rd !in old(active) ==> Sized() && Broken() && done == old(done)
    {
      hide Partition, Forward, Backward, Tracked, Deadlines, Without, Described, Broken;
      TrackedSizes(issued, done, current, generations, active, expire[..], args[..]);
      ghost var active0, epoch0 := active, epoch[..];
      ListsDistinct();
      k := Unlink(rd);
      epoch[rd] := (epoch[rd] + 1) % TWO_16;
      assert epoch[..] == epoch0[rd := (epoch0[rd] + 1) % TWO_16];
      if rd in active0 {
        TrackedReleased(issued, done, current, generations, active0, expire[..], args[..], k);
        DeadlinesWithout(active0, expire[..], latest, k);
        EpochCounts(generations[rd]);
        done, generations := done + [current[rd]], generations[rd := generations[rd] + 1];
      }
    }

    lemma ListsDistinct()
      requires Linked()
      ensures Distinct(active)
    {
    }

    /** Handles one response.  If its opaque number is that of an issued request, then the handler is called exactly
        when the descriptor has been released a multiple of 2^16 times since, which is right for the request in all
        cases but those of a positive multiple.  In these the handler is called for the request that is on the
        descriptor now, and completes it; or, if the descriptor is unused, the lists are broken.  Numbers of probes are
        ignored. */
    method HandleResponse(cookie: nat, ghost r: nat) returns (handled: bool, rd: nat, arg: nat)
      requires Valid() && cookie < TWO_32
      requires cookie / TWO_16 >= COUNT
               || (r < |issued| && cookie == OpaqueOf(issued[r].rd, issued[r].generation))
      modifies this, next, prev, epoch
      ensures rd == cookie / TWO_16 && issued == old(issued) && current == old(current) && latest == old(latest)
      ensures rd >= COUNT ==> !handled
      ensures rd < COUNT ==>
                && rd == issued[r].rd && |old(generations)| == |current| == COUNT
                && issued[r].generation <= old(generations)[rd]
                && (handled <==> (old(generations)[rd] - issued[r].generation) % TWO_16 == 0)
                && ((handled <==> r !in old(done)) <==>
                    old(generations)[rd] == issued[r].generation
                    || (old(generations)[rd] - issued[r].generation) % TWO_16 != 0)
      ensures !handled ==> Valid() && done == old(done) && active == old(active) && generations == old(generations)
      ensures handled && rd in old(active) ==>
                && Valid() && current[rd] < |issued| && current[rd] !in old(done)
                && done == old(done) + [current[rd]] && arg == issued[current[rd]].arg
                && unused == [rd] + old(unused) && generations == old(generations)[rd := old(generations)[rd] + 1]
                && exists k | 0 <= k < |old(active)| :: rd == old(active)[k] && active == Without(old(active), k)
      ensures handled && r !in old(done) ==> rd in old(active) && current[rd] == r
      ensures handled && rd !in old(active) ==> Broken() && done == old(done)
    {
      hide Partition, Forward, Backward, Tracked, Deadlines, Without, Distinct, Broken;
      rd, arg := cookie / TWO_16, 0;
      if rd >= COUNT {
        return false, rd, 0;
      }
      OpaqueParts(issued[r].rd, issued[r].generation);
      TrackedSizes(issued, done, current, generations, active, expire[..], args[..]);
      WhoseResponse(issued, done, current, generations, active, expire[..], args[..], r);
      if epoch[rd] != cookie % TWO_16 {
        return false, rd, 0;
      }
      arg := args[rd];
      ghost var k := Release(rd);
      return true, rd, arg;
    }

    /** Completes requests from the head of the active list as long as they have expired.  Because the list is in the
        order of deadlines, no expired request is left active. */
    method HandleTimeouts(now: nat) returns (handled: seq<nat>)
      requires Valid() && latest < TWO_63 && now < TWO_63
      modifies this, next, prev, epoch
      ensures Valid() && issued == old(issued)
      ensures |handled| <= |old(active)| && handled == old(active)[..|handled|] && active == old(active)[|handled|..]
      ensures forall rd | rd in active :: rd < COUNT && now < expire[rd]
      ensures forall rd | rd in handled :: rd < COUNT && expire[rd] <= now
      ensures |done| == |old(done)| + |handled| && old(done) <= done && |current| == COUNT
      ensures forall i | 0 <= i < |handled| :: done[|old(done)| + i] == current[handled[i]]
    {
      hide Partition, Forward, Backward, Tracked, Deadlines, Without, Linked, Epochs, Broken, Distinct, Described;
      handled := [];
      HeadOfActive();
      while activeFirst != NULL_RD && Expired(now, expire[activeFirst])
        invariant Valid() && issued == old(issued) && latest == old(latest)
        invariant |handled| <= |old(active)|
        invariant handled == old(active)[..|handled|] && active == old(active)[|handled|..]
        invariant Sized() && forall rd | rd in handled :: rd < COUNT && expire[rd] <= now
        invariant forall i | 0 <= i < |handled| :: handled[i] < COUNT
        invariant |done| == |old(done)| + |handled| && old(done) <= done && current == old(current)
                  && |current| == COUNT
        invariant forall i | 0 <= i < |handled| :: done[|old(done)| + i] == current[handled[i]]
        invariant activeFirst == At(active, 0) && (activeFirst == NULL_RD <==> active == [])
        invariant active != [] ==> active[0] in active && active[0] < COUNT
        invariant forall rd | rd in active :: rd < COUNT && expire[active[0]] <= expire[rd] <= latest
        decreases |active|
      {
        var rd := activeFirst;
        FirstAlone();
        ExpiredMeans(now, expire[rd]);
        handled := handled + [rd];
        FirstWithout(active);
        ghost var k := Release(rd);
        HeadOfActive();
      }
      if active != [] {
        ExpiredMeans(now, expire[activeFirst]);
      }
    }

    lemma Counted()
      requires Valid()
      ensures outstanding == |active| && |generations| == |current| == COUNT
    {
      TrackedSizes(issued, done, current, generations, active, expire[..], args[..]);
    }

    lemma FirstAlone()
      requires Linked()
      ensures forall k | 0 < k < |active| :: active[k] != active[0]
    {
    }

    /** The head of the active list has the earliest deadline. */
    lemma HeadOfActive()
      requires Valid()
      ensures activeFirst == At(active, 0) && (activeFirst == NULL_RD <==> active == []) && expire.Length == COUNT
      ensures forall rd | rd in active :: rd < COUNT && expire[active[0]] <= expire[rd] <= latest
      ensures Sized() && |current| == COUNT && (active != [] ==> active[0] in active && active[0] < COUNT)
    {
      hide Partition, Forward, Backward, Tracked, Deadlines, Without;
      TrackedSizes(issued, done, current, generations, active, expire[..], args[..]);
      FirstActive(active, unused, expire[..], latest);
    }
  }

  /** `static_cast<int64_t>(now - expire) >= 0`, in 64-bit arithmetic. */
  predicate Expired(now: nat, expire: nat) {
    (now - expire) % TWO_64 < TWO_63
  }

  /** The sign tells which of two times that are not too far apart is the later one. */
  lemma ExpiredMeans(now: nat, expire: nat)
    requires -TWO_63 <= now - expire < TWO_63
    ensures Expired(now, expire) <==> expire <= now
  {
  }

  /** A response that is 2^16 releases late.  The first request of a new client is answered, and its descriptor is used
      and answered another 2^16 - 1 times; a second copy of the first answer then passes the epoch test.  If the next
      request is out, its handler is called with the late answer; if none is, the lists of the client are broken. */
  method LateResponse(timeout: nat, now: nat, first: nat, later: nat, next: bool)
    returns (client: ThreadState, handled: bool, arg: nat)
    ensures handled && |client.issued| == TWO_16 + if next then 1 else 0
    ensures client.issued[0].arg == first
    ensures next ==> client.Valid() && arg == later && client.done == Answered(TWO_16 + 1)
    ensures !next ==> client.Broken() && client.done == Answered(TWO_16)
  {
    hide Partition, Forward, Backward, Tracked, Deadlines, Distinct, ThreadState.Broken, ThreadState.Linked, Epochs,
      Described;
    client := new ThreadState(timeout);
    client.Counted();
    var rd: nat, cookie: nat := client.AppendRequest(now, first);
    client.Counted();
    var i, own := 0, cookie;
    while i < TWO_16
      invariant 0 <= i <= TWO_16 && client.Valid() && client.latest == now + timeout && client.timeout == timeout
      invariant fresh(client) && fresh(client.next) && fresh(client.prev) && fresh(client.epoch)
      invariant fresh(client.expire) && fresh(client.args)
      invariant rd < COUNT == |client.generations| == |client.current| && client.generations[rd] == i
                && cookie == OpaqueOf(rd, 0)
      invariant 0 < |client.issued| && client.issued[0] == Issue(rd, 0, now + timeout, first)
                && client.done == Answered(i)
      invariant i < TWO_16 || next ==>
                  && client.active == [rd] && client.current[rd] == i && |client.issued| == i + 1
                  && client.issued[i] == Issue(rd, i, now + timeout, if i == 0 then first else later)
                  && own == OpaqueOf(rd, i)
      invariant i == TWO_16 && !next ==> client.active == [] && |client.issued| == i
    {
      OpaqueParts(rd, i);
      var _, _, _ := client.HandleResponse(own, i);
      i := i + 1;
      if i < TWO_16 || next {
        client.Counted();
        assert client.unused[0] == rd;
        rd, own := client.AppendRequest(now, later);
      }
    }
    OpaqueParts(rd, 0);
    handled, rd, arg := client.HandleResponse(cookie, 0);
  }

  /** The first n requests, completed in order. */
  function Answered(n: nat): seq<nat> {
    seq(n, i => i)
  }
}
