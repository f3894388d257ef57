/**
 The greedy load rebalancer of the partition processor: within a NUMA domain the partitions go, busiest first, each to
 the core with the least estimated load so far.
 */
module Rebalance {
  import opened Words
  import opened Counting

  // ---------- Assignments of jobs to machines ----------

  /** Load of machine c from the first i jobs. */
  ghost function LoadUpTo(p: seq<nat>, a: seq<nat>, i: nat, c: nat): nat
    requires i <= |p| && i <= |a|
  {
    if i == 0 then 0 else LoadUpTo(p, a, i - 1, c) + if a[i - 1] == c then p[i - 1] else 0
  }

  /** The first i jobs together. */
  ghost function SumUpTo(p: seq<nat>, i: nat): nat
    requires i <= |p|
  {
    if i == 0 then 0 else SumUpTo(p, i - 1) + p[i - 1]
  }

  /** The first m machines together. */
  ghost function Machines(p: seq<nat>, a: seq<nat>, i: nat, m: nat): nat
    requires i <= |p| && i <= |a|
  {
    if m == 0 then 0 else Machines(p, a, i, m - 1) + LoadUpTo(p, a, i, m - 1)
  }

  /** Jobs, not load: every job counts one. */
  ghost function Ones(n: nat): (p: seq<nat>)
    ensures |p| == n && forall i | 0 <= i < n :: p[i] == 1
  {
    seq(n, _ => 1)
  }

  ghost function Count(a: seq<nat>, i: nat, c: nat): nat
    requires i <= |a|
  {
    LoadUpTo(Ones(|a|), a, i, c)
  }

  ghost predicate Assigned(p: seq<nat>, a: seq<nat>, m: nat) {
    |a| == |p| && forall i | 0 <= i < |a| :: a[i] < m
  }

  /** No machine is loaded above the bound. */
  ghost predicate Within(p: seq<nat>, a: seq<nat>, m: nat, bound: nat)
    requires |a| == |p|
  {
    forall c | 0 <= c < m :: LoadUpTo(p, a, |p|, c) <= bound
  }

  ghost predicate Descending(p: seq<nat>) {
    forall i, j | 0 <= i <= j < |p| :: p[j] <= p[i]
  }

  /** Each job went to the first of the least loaded machines. */
  ghost predicate Greedy(p: seq<nat>, g: seq<nat>, m: nat) {
    && Assigned(p, g, m)
    && forall i | 0 <= i < |g| :: FirstLeast(p, g, i, m, g[i])
  }

  ghost predicate FirstLeast(p: seq<nat>, g: seq<nat>, i: nat, m: nat, least: nat)
    requires i <= |p| && i <= |g|
  {
    && least < m
    && forall c | 0 <= c < m ::
         LoadUpTo(p, g, i, least) <= LoadUpTo(p, g, i, c)
           && (c < least ==> LoadUpTo(p, g, i, least) < LoadUpTo(p, g, i, c))
  }

  /** Nothing is lost: the machines together carry all jobs. */
  lemma {:induction false} LoadConserved(p: seq<nat>, a: seq<nat>, i: nat, m: nat)
    requires Assigned(p, a, m) && i <= |p|
    ensures Machines(p, a, i, m) == SumUpTo(p, i)
  {
    if i == 0 {
      NoLoad(p, a, m);
    } else {
      LoadConserved(p, a, i - 1, m);
      OneMore(p, a, i, m);
    }
  }

  lemma {:induction false} NoLoad(p: seq<nat>, a: seq<nat>, m: nat)
    ensures Machines(p, a, 0, m) == 0
  {
    if 0 < m {
      NoLoad(p, a, m - 1);
    }
  }

  lemma {:induction false} OneMore(p: seq<nat>, a: seq<nat>, i: nat, m: nat)
    requires 0 < i <= |p| && i <= |a|
    ensures Machines(p, a, i, m) == Machines(p, a, i - 1, m) + if a[i - 1] < m then p[i - 1] else 0
  {
    if 0 < m {
      OneMore(p, a, i, m - 1);
    }
  }

  lemma {:induction false} SumMonotone(p: seq<nat>, i: nat, j: nat)
    requires i <= j <= |p|
    ensures SumUpTo(p, i) <= SumUpTo(p, j)
  {
    if i < j {
      SumMonotone(p, i, j - 1);
    }
  }

  lemma {:induction false} LoadMonotone(p: seq<nat>, a: seq<nat>, i: nat, j: nat, c: nat)
    requires i <= j <= |p| && j <= |a|
    ensures LoadUpTo(p, a, i, c) <= LoadUpTo(p, a, j, c)
  {
    if i < j {
      LoadMonotone(p, a, i, j - 1, c);
    }
  }

  // ---------- Small jobs: the averaging bound ----------

  /** The machine given job i carries at most the average of all jobs plus what job i itself adds to that. */
  lemma AfterStep(p: seq<nat>, g: seq<nat>, m: nat, i: nat)
    requires Greedy(p, g, m) && i < |p|
    ensures m * (LoadUpTo(p, g, i, g[i]) + p[i]) <= SumUpTo(p, |p|) + (m - 1) * p[i]
  {
    assert FirstLeast(p, g, i, m, g[i]);
    var least := LoadUpTo(p, g, i, g[i]);
    AveragingFrom(p, g, i, m, least);
    LoadConserved(p, g, i, m);
    SumMonotone(p, i + 1, |p|);
    AverageAndStep(m, least, p[i], SumUpTo(p, i), SumUpTo(p, |p|));
  }

  lemma AverageAndStep(m: nat, least: nat, w: nat, before: nat, total: nat)
    requires 0 < m && m * least <= before && before + w <= total
    ensures m * (least + w) <= total + (m - 1) * w
  {
    assert m * (least + w) == m * least + (m - 1) * w + w;
  }

  lemma {:induction false} AveragingFrom(p: seq<nat>, a: seq<nat>, i: nat, m: nat, least: nat)
    requires i <= |p| && i <= |a| && forall c | 0 <= c < m :: least <= LoadUpTo(p, a, i, c)
    ensures m * least <= Machines(p, a, i, m)
  {
    if 0 < m {
      AveragingFrom(p, a, i, m - 1, least);
      assert m * least == (m - 1) * least + least;
    }
  }

  /** The last job given to a machine. */
  lemma {:induction false} LastJob(p: seq<nat>, a: seq<nat>, i: nat, c: nat) returns (j: nat)
    requires i <= |p| && i <= |a| && 0 < LoadUpTo(p, a, i, c)
    ensures j < i && a[j] == c && LoadUpTo(p, a, i, c) == LoadUpTo(p, a, j, c) + p[j]
  {
    if a[i - 1] == c {
      j := i - 1;
    } else {
      j := LastJob(p, a, i - 1, c);
    }
  }

  /** No machine of a greedy assignment carries more than the average plus (m - 1)/m of the biggest job. */
  lemma GreedyAverage(p: seq<nat>, g: seq<nat>, m: nat, c: nat)
    requires Greedy(p, g, m) && Descending(p) && c < m && 0 < |p|
    ensures m * LoadUpTo(p, g, |p|, c) <= SumUpTo(p, |p|) + (m - 1) * p[0]
  {
    if 0 < LoadUpTo(p, g, |p|, c) {
      var j := LastJob(p, g, |p|, c);
      AfterStep(p, g, m, j);
      Scaled(m - 1, p[j], p[0]);
    } else {
      assert m * 0 == 0 <= (m - 1) * p[0];
    }
  }

  lemma Scaled(k: nat, x: nat, y: nat)
    requires x <= y
    ensures k * x <= k * y
  {
  }

  // ---------- Big jobs: at most two on a machine ----------

  /** Jobs that each weigh at least w, one of them p[j], on one machine. */
  lemma {:induction false} WeightOf(p: seq<nat>, a: seq<nat>, i: nat, c: nat, w: nat, j: nat)
    requires i <= |p| == |a| && forall k | 0 <= k < i :: w <= p[k]
    ensures Count(a, i, c) * w <= LoadUpTo(p, a, i, c)
    ensures j < i && a[j] == c ==> 1 <= Count(a, i, c) && p[j] + (Count(a, i, c) - 1) * w <= LoadUpTo(p, a, i, c)
  {
    if 0 < i {
      WeightOf(p, a, i - 1, c, w, j);
      if a[i - 1] == c {
        assert Count(a, i, c) * w == Count(a, i - 1, c) * w + w;
        if j < i - 1 && a[j] == c {
          assert (Count(a, i, c) - 1) * w == (Count(a, i - 1, c) - 1) * w + w;
        }
      }
    }
  }

  lemma {:induction false} TwoJobs(a: seq<nat>, i: nat, j: nat, k: nat)
    requires j < k < i <= |a| && a[j] == a[k]
    ensures 2 <= Count(a, i, a[j])
  {
    if k < i - 1 {
      TwoJobs(a, i - 1, j, k);
    } else {
      HasJob(a, i - 1, j);
    }
  }

  lemma {:induction false} HasJob(a: seq<nat>, i: nat, j: nat)
    requires j < i <= |a|
    ensures 1 <= Count(a, i, a[j])
  {
    if j < i - 1 {
      HasJob(a, i - 1, j);
    }
  }

  /** Machines below m that hold at most one of the first i jobs. */
  ghost function Singles(a: seq<nat>, i: nat, m: nat): set<nat>
    requires i <= |a|
  {
    set c: nat | c < m && Count(a, i, c) <= 1
  }

  lemma {:induction false} SinglesBound(a: seq<nat>, i: nat, m: nat)
    requires i <= |a| && forall c | 0 <= c < m :: Count(a, i, c) <= 2
    ensures Machines(Ones(|a|), a, i, m) + |Singles(a, i, m)| <= 2 * m
  {
    if m == 0 {
      assert Singles(a, i, 0) == {};
    } else {
      SinglesBound(a, i, m - 1);
      if Count(a, i, m - 1) <= 1 {
        assert Singles(a, i, m) == Singles(a, i, m - 1) + {m - 1};
      } else {
        assert Singles(a, i, m) == Singles(a, i, m - 1);
      }
    }
  }

  /** With fewer jobs than machines one machine is empty. */
  lemma EmptyMachine(p: seq<nat>, a: seq<nat>, i: nat, m: nat) returns (c: nat)
    requires i < m && i <= |p| && i <= |a|
    ensures c < m && LoadUpTo(p, a, i, c) == 0
  {
    ValuesSize(a, 0, i);
    if forall x: nat | x < m :: x in Values(a, 0, i) {
      Subset(Below(m), Values(a, 0, i));
      assert false;
    }
    c :| c < m && c !in Values(a, 0, i);
    Untouched(p, a, 0, i, c);
  }

  lemma {:induction false} Untouched(p: seq<nat>, a: seq<nat>, from: nat, i: nat, c: nat)
    requires from <= i <= |p| && i <= |a| && forall j | from <= j < i :: a[j] != c
    ensures LoadUpTo(p, a, i, c) == LoadUpTo(p, a, from, c)
  {
    if from < i {
      Untouched(p, a, from, i - 1, c);
    }
  }

  /** Jobs that are alone on their machines are on that many machines. */
  lemma ManySingles(a: seq<nat>, i: nat, m: nat, n: nat)
    requires n <= i <= |a| && (forall j | 0 <= j < |a| :: a[j] < m) && forall j: nat | j < n :: Count(a, i, a[j]) <= 1
    ensures n <= |Singles(a, i, m)|
  {
    hide LoadUpTo;
    forall x, y | 0 <= x < y < n
      ensures a[x] != a[y]
    {
      if a[x] == a[y] {
        TwoJobs(a, i, x, y);
      }
    }
    ValuesSize(a, 0, n);
    Subset(Values(a, 0, n), Singles(a, i, m));
  }

  /** Of more than m jobs that come at most two to a machine, an early one shares its machine. */
  lemma SharedMachine(a: seq<nat>, m: nat, k: nat, i: nat) returns (j: nat)
    requires i == m + k + 1 <= |a| && (forall i | 0 <= i < |a| :: a[i] < m)
    requires forall c | 0 <= c < m :: Count(a, i, c) <= 2
    ensures k < m && j < m - k && 2 <= Count(a, i, a[j])
  {
    SinglesBound(a, i, m);
    LoadConserved(Ones(|a|), a, i, m);
    SumOfOnes(|a|, i);
    if forall j: nat | j < m - k :: Count(a, i, a[j]) <= 1 {
      ManySingles(a, i, m, m - k);
      assert false;
    }
    j :| j < m - k && 1 < Count(a, i, a[j]);
  }

  lemma {:induction false} SumOfOnes(n: nat, i: nat)
    requires i <= n
    ensures SumUpTo(Ones(n), i) == i
  {
    if 0 < i {
      SumOfOnes(n, i - 1);
    }
  }

  /** The first m jobs of a greedy assignment, when none is empty, go to different machines. */
  lemma FirstJobsApart(p: seq<nat>, g: seq<nat>, m: nat, i: nat, j: nat)
    requires Greedy(p, g, m) && i < j < m && j < |p| && 0 < p[i]
    ensures g[i] != g[j]
  {
    var c := EmptyMachine(p, g, j, m);
    assert FirstLeast(p, g, j, m, g[j]);
    LoadMonotone(p, g, i + 1, j, g[i]);
  }

  /** After m + k jobs one of the machines of jobs m-k-1 .. m-1 holds only that job. */
  lemma LightMachine(p: seq<nat>, g: seq<nat>, m: nat, k: nat) returns (j: nat)
    requires Greedy(p, g, m) && m + k < |p| && k < m && forall i | 0 <= i < m :: 0 < p[i]
    ensures m - k - 1 <= j < m && LoadUpTo(p, g, m + k, g[j]) == p[j]
  {
    assert |g| == |p|;
    hide LoadUpTo, Greedy;
    forall x, y | 0 <= x < y < m
      ensures g[x] != g[y]
    {
      FirstJobsApart(p, g, m, x, y);
    }
    j := Pigeonhole(g, m - k - 1, m, m + k);
    OnlyJob(p, g, m + k, j);
  }

  lemma OnlyJob(p: seq<nat>, a: seq<nat>, i: nat, j: nat)
    requires j < i <= |p| && i <= |a| && forall q | 0 <= q < i && q != j :: a[q] != a[j]
    ensures LoadUpTo(p, a, i, a[j]) == p[j]
  {
    Untouched(p, a, 0, j, a[j]);
    Untouched(p, a, j + 1, i, a[j]);
  }

  /** Jobs heavier than a third of the bound: at most two on a machine, and two of them, say j and another, fit. */
  lemma AtMostTwo(p: seq<nat>, a: seq<nat>, m: nat, bound: nat, i: nat, c: nat, j: nat)
    requires Descending(p) && Assigned(p, a, m) && Within(p, a, m, bound) && c < m && i < |p| && bound < 3 * p[i]
    ensures Count(a, i + 1, c) <= 2
    ensures j <= i && a[j] == c ==> p[j] + (if Count(a, i + 1, c) == 2 then p[i] else 0) <= bound
  {
    WeightOf(p, a, i + 1, c, p[i], j);
    LoadMonotone(p, a, i + 1, |p|, c);
    FewHeavy(Count(a, i + 1, c), p[i], bound);
  }

  lemma FewHeavy(n: nat, w: nat, bound: nat)
    requires n * w <= bound < 3 * w
    ensures n <= 2
  {
    if 3 <= n {
      Scaled(w, 3, n);
    }
  }

  /** When job i is heavier than a third of what some assignment manages, greedy still manages it after job i. */
  lemma BigJobFits(p: seq<nat>, g: seq<nat>, a: seq<nat>, m: nat, bound: nat, i: nat)
    requires Greedy(p, g, m) && Descending(p) && Assigned(p, a, m) && Within(p, a, m, bound)
    requires i < |p| && bound < 3 * p[i]
    ensures LoadUpTo(p, g, i, g[i]) + p[i] <= bound
  {
    assert FirstLeast(p, g, i, m, g[i]);
    hide LoadUpTo, Count;
    if i < m {
      var c := EmptyMachine(p, g, i, m);
      AtMostTwo(p, a, m, bound, i, a[i], i);
    } else {
      var s := SharedFits(p, a, m, bound, i);
      var j := LightMachine(p, g, m, i - m);
      assert p[j] <= p[s];
    }
  }

  lemma SharedFits(p: seq<nat>, a: seq<nat>, m: nat, bound: nat, i: nat) returns (s: nat)
    requires Descending(p) && Assigned(p, a, m) && Within(p, a, m, bound) && m <= i < |p| && bound < 3 * p[i]
    ensures i - m < m && s < m - (i - m) && p[s] + p[i] <= bound
  {
    hide LoadUpTo, Count;
    var n := i + 1;
    forall c | 0 <= c < m
      ensures Count(a, n, c) <= 2
    {
      AtMostTwo(p, a, m, bound, i, c, i);
    }
    s := SharedMachine(a, m, i - m, n);
    AtMostTwo(p, a, m, bound, i, a[s], s);
  }

  // ---------- The bound ----------

  /** Longest first: no machine is loaded above 4/3 - 1/(3m) of what any assignment at all manages. */
  lemma LongestFirst(p: seq<nat>, g: seq<nat>, a: seq<nat>, m: nat, bound: nat, c: nat)
    requires Greedy(p, g, m) && Descending(p) && Assigned(p, a, m) && Within(p, a, m, bound) && c < m
    ensures 3 * m * LoadUpTo(p, g, |p|, c) <= (4 * m - 1) * bound
  {
    if LoadUpTo(p, g, |p|, c) == 0 {
      BoundOfBig(m, 0, bound);
    } else {
      var i := LastJob(p, g, |p|, c);
      var load := LoadUpTo(p, g, |p|, c);
      if bound < 3 * p[i] {
        BigJobFits(p, g, a, m, bound, i);
        BoundOfBig(m, load, bound);
      } else {
        AfterStep(p, g, m, i);
        AveragingTo(p, a, |p|, m, bound);
        LoadConserved(p, a, |p|, m);
        BoundOfSmall(m, load, SumUpTo(p, |p|), p[i], bound);
      }
    }
  }

  lemma BoundOfBig(m: nat, load: nat, bound: nat)
    requires 0 < m && load <= bound
    ensures 3 * m * load <= (4 * m - 1) * bound
  {
    Scaled(3 * m, load, bound);
    Scaled(bound, 3 * m, 4 * m - 1);
  }

  lemma BoundOfSmall(m: nat, load: nat, total: nat, w: nat, bound: nat)
    requires 0 < m && m * load <= total + (m - 1) * w && total <= m * bound && 3 * w <= bound
    ensures 3 * m * load <= (4 * m - 1) * bound
  {
    Scaled(m - 1, 3 * w, bound);
    assert 3 * m * load == 3 * (m * load);
    assert 3 * ((m - 1) * w) == (m - 1) * (3 * w);
    assert 3 * (m * bound) + (m - 1) * bound == (4 * m - 1) * bound;
  }

  lemma {:induction false} AveragingTo(p: seq<nat>, a: seq<nat>, i: nat, m: nat, most: nat)
    requires i <= |p| && i <= |a| && forall c | 0 <= c < m :: LoadUpTo(p, a, i, c) <= most
    ensures Machines(p, a, i, m) <= m * most
  {
    if 0 < m {
      AveragingTo(p, a, i, m - 1, most);
      assert m * most == (m - 1) * most + most;
    }
  }

  // ---------- Partitions and cores ----------

  /** A partition and the requests it got. */
  datatype Bin = Bin(partition: nat, load: nat)

  datatype Change = Change(partition: nat, lcore: nat)

  function Loads(bins: seq<Bin>): (p: seq<nat>)
    ensures |p| == |bins| && forall i | 0 <= i < |bins| :: p[i] == bins[i].load
  {
    seq(|bins|, i requires 0 <= i < |bins| => bins[i].load)
  }

  /** Load of a core under a plan that gives partitions to cores. */
  ghost function LoadOf(bins: seq<Bin>, plan: map<nat, nat>, l: nat): nat {
    if bins == [] then 0 else
      var b := bins[|bins| - 1];
      LoadOf(bins[..|bins| - 1], plan, l) + if b.partition in plan && plan[b.partition] == l then b.load else 0
  }

  /** Load k more in one bin is load k more on the core that the plan gives it to, and on no other. */
  lemma {:induction false} PlanFollowsLoads(bins: seq<Bin>, plan: map<nat, nat>, l: nat, i: nat, k: nat)
    requires i < |bins|
    ensures LoadOf(bins[i := Bin(bins[i].partition, bins[i].load + k)], plan, l) ==
            LoadOf(bins, plan, l) + if bins[i].partition in plan && plan[bins[i].partition] == l then k else 0
  {
    var n := |bins| - 1;
    var bins' := bins[i := Bin(bins[i].partition, bins[i].load + k)];
    if i < n {
      assert bins'[..n] == bins[..n][i := Bin(bins[i].partition, bins[i].load + k)];
      PlanFollowsLoads(bins[..n], plan, l, i, k);
    } else {
      assert bins'[..n] == bins[..n];
    }
  }

  lemma {:induction false} NoLoadsNoLoad(bins: seq<Bin>, plan: map<nat, nat>, l: nat)
    requires forall b | b in bins :: b.load == 0
    ensures LoadOf(bins, plan, l) == 0
  {
    if bins != [] {
      assert bins[|bins| - 1] in bins;
      NoLoadsNoLoad(bins[..|bins| - 1], plan, l);
    }
  }

  ghost predicate Planned(bins: seq<Bin>, lcores: seq<nat>, plan: map<nat, nat>) {
    forall b | b in bins :: b.partition in plan && plan[b.partition] in lcores
  }

  /** A plan that loads no core above the bound. */
  ghost predicate Manages(bins: seq<Bin>, lcores: seq<nat>, plan: map<nat, nat>, bound: nat) {
    Planned(bins, lcores, plan) && forall l | l in lcores :: LoadOf(bins, plan, l) <= bound
  }

  /** No core is loaded above 4/3 - 1/(3m) of what any other plan manages. */
  ghost predicate Balanced(bins: seq<Bin>, lcores: seq<nat>, plan: map<nat, nat>) {
    && Planned(bins, lcores, plan)
    && forall other, bound, l | Manages(bins, lcores, other, bound) && l in lcores ::
         3 * |lcores| * LoadOf(bins, plan, l) <= (4 * |lcores| - 1) * bound
  }

  lemma {:induction false} PlansAgree(bins: seq<Bin>, plan: map<nat, nat>, plan': map<nat, nat>, l: nat)
    requires forall b | b in bins ::
               (b.partition in plan <==> b.partition in plan')
               && (b.partition in plan ==> plan[b.partition] == plan'[b.partition])
    ensures LoadOf(bins, plan, l) == LoadOf(bins, plan', l)
  {
    if bins != [] {
      assert bins[|bins| - 1] in bins;
      PlansAgree(bins[..|bins| - 1], plan, plan', l);
    }
  }

  /** The order of the bins does not matter. */
  lemma {:induction false} OrderIrrelevant(bins: seq<Bin>, bins': seq<Bin>, plan: map<nat, nat>, l: nat)
    requires multiset(bins) == multiset(bins')
    ensures LoadOf(bins, plan, l) == LoadOf(bins', plan, l)
  {
    hide LoadOf;
    if bins == [] {
      SameSize(bins, bins');
    } else {
      var n := |bins| - 1;
      var k, rest := WithoutLast(bins, bins');
      OrderIrrelevant(bins[..n], rest, plan, l);
      BinMoved(bins'[..k], bins[n], bins'[k + 1..], plan, l);
      LastBin(bins, plan, l);
    }
  }

  lemma LastBin(bins: seq<Bin>, plan: map<nat, nat>, l: nat)
    requires bins != []
    ensures LoadOf(bins, plan, l) == LoadOf(bins[..|bins| - 1], plan, l) + LoadOf([bins[|bins| - 1]], plan, l)
  {
    assert [bins[|bins| - 1]][..0] == [];
  }

  /** The last of some bins taken out of the same bins in another order. */
  lemma WithoutLast(bins: seq<Bin>, bins': seq<Bin>) returns (k: nat, rest: seq<Bin>)
    requires multiset(bins) == multiset(bins') && bins != []
    ensures var n := |bins| - 1;
            && k < |bins'| && rest == bins'[..k] + bins'[k + 1..] && bins' == bins'[..k] + [bins[n]] + bins'[k + 1..]
            && multiset(bins[..n]) == multiset(rest)
  {
    var n := |bins| - 1;
    var b := bins[n];
    assert b in multiset(bins');
    k :| 0 <= k < |bins'| && bins'[k] == b;
    rest := bins'[..k] + bins'[k + 1..];
    assert bins == bins[..n] + [b];
    assert bins' == bins'[..k] + [b] + bins'[k + 1..];
    assert multiset(bins[..n]) == multiset(bins) - multiset{b};
    assert multiset(rest) == multiset(bins') - multiset{b};
  }

  lemma SameSize(bins: seq<Bin>, bins': seq<Bin>)
    requires multiset(bins) == multiset(bins')
    ensures |bins| == |bins'|
  {
    assert |multiset(bins)| == |multiset(bins')|;
  }

  lemma {:induction false} BinMoved(front: seq<Bin>, b: Bin, back: seq<Bin>, plan: map<nat, nat>, l: nat)
    ensures LoadOf(front + [b] + back, plan, l) == LoadOf(front + back + [b], plan, l)
    ensures LoadOf(front + back + [b], plan, l) == LoadOf(front + back, plan, l) + LoadOf([b], plan, l)
  {
    assert (front + back + [b])[..|front| + |back|] == front + back;
    assert [b][..0] == [];
    if back != [] {
      var n := |back| - 1;
      BinMoved(front, b, back[..n], plan, l);
      assert (front + [b] + back)[..|front| + 1 + n] == front + [b] + back[..n];
      assert (front + back)[..|front| + n] == front + back[..n];
      assert (front + back[..n] + [b])[..|front| + n] == front + back[..n];
    } else {
      assert front + [b] + back == front + back + [b];
    }
  }

  /** An assignment of bins to core indices is a plan that gives their partitions to those cores. */
  lemma {:induction false} LoadOfPlan(bins: seq<Bin>, g: seq<nat>, lcores: seq<nat>, plan: map<nat, nat>, c: nat,
                                      i: nat)
    requires i <= |bins| == |g| && c < |lcores| && forall j, k | 0 <= j < k < |lcores| :: lcores[j] != lcores[k]
    requires forall j | 0 <= j < |bins| ::
               g[j] < |lcores| && bins[j].partition in plan && plan[bins[j].partition] == lcores[g[j]]
    ensures LoadUpTo(Loads(bins), g, i, c) == LoadOf(bins[..i], plan, lcores[c])
  {
    if 0 < i {
      LoadOfPlan(bins, g, lcores, plan, c, i - 1);
      assert bins[..i][..i - 1] == bins[..i - 1];
    }
  }

  /** Any plan is an assignment of core indices. */
  lemma PlanAsAssignment(bins: seq<Bin>, lcores: seq<nat>, plan: map<nat, nat>) returns (a: seq<nat>)
    requires Planned(bins, lcores, plan)
    ensures |a| == |bins|
    ensures forall j | 0 <= j < |bins| ::
              a[j] < |lcores| && bins[j].partition in plan && plan[bins[j].partition] == lcores[a[j]]
  {
    a := [];
    for j := 0 to |bins|
      invariant |a| == j
      invariant forall k | 0 <= k < j ::
                  a[k] < |lcores| && bins[k].partition in plan && plan[bins[k].partition] == lcores[a[k]]
    {
      assert bins[j] in bins;
      var k: nat :| k < |lcores| && lcores[k] == plan[bins[j].partition];
      a := a + [k];
    }
  }

  /** A greedy assignment of the sorted bins is a balanced plan. */
  lemma GreedyIsBalanced(bins: seq<Bin>, sorted: seq<Bin>, g: seq<nat>, lcores: seq<nat>, plan: map<nat, nat>)
    requires multiset(sorted) == multiset(bins) && Descending(Loads(sorted)) && Greedy(Loads(sorted), g, |lcores|)
    requires forall j, k | 0 <= j < k < |lcores| :: lcores[j] != lcores[k]
    requires forall j | 0 <= j < |sorted| :: sorted[j].partition in plan && plan[sorted[j].partition] == lcores[g[j]]
    ensures Balanced(bins, lcores, plan)
  {
    hide Greedy, Descending, LoadOf, LoadUpTo;
    var m := |lcores|;
    assert |g| == |sorted| && forall j | 0 <= j < |g| :: g[j] < m by { GreedyAssigns(Loads(sorted), g, m); }
    forall b | b in bins
      ensures b.partition in plan && plan[b.partition] in lcores
    {
      assert b in multiset(sorted);
      var j :| 0 <= j < |sorted| && sorted[j] == b;
    }
    forall other, bound, l | Manages(bins, lcores, other, bound) && l in lcores
      ensures 3 * m * LoadOf(bins, plan, l) <= (4 * m - 1) * bound
    {
      var c: nat :| c < m && lcores[c] == l;
      PlannedInOrder(bins, sorted, lcores, other);
      var a := PlanAsAssignment(sorted, lcores, other);
      forall k | 0 <= k < m
        ensures LoadUpTo(Loads(sorted), a, |sorted|, k) <= bound
      {
        LoadOfPlan(sorted, a, lcores, other, k, |sorted|);
        assert sorted[..|sorted|] == sorted;
        OrderIrrelevant(sorted, bins, other, lcores[k]);
      }
      LongestFirst(Loads(sorted), g, a, m, bound, c);
      LoadOfPlan(sorted, g, lcores, plan, c, |sorted|);
      assert sorted[..|sorted|] == sorted;
      OrderIrrelevant(sorted, bins, plan, l);
    }
  }

  lemma GreedyAssigns(p: seq<nat>, g: seq<nat>, m: nat)
    requires Greedy(p, g, m)
    ensures |g| == |p| && forall i | 0 <= i < |g| :: g[i] < m
  {
  }

  lemma PlannedInOrder(bins: seq<Bin>, sorted: seq<Bin>, lcores: seq<nat>, plan: map<nat, nat>)
    requires multiset(sorted) == multiset(bins) && Planned(bins, lcores, plan)
    ensures Planned(sorted, lcores, plan)
  {
    forall b | b in sorted
      ensures b.partition in plan && plan[b.partition] in lcores
    {
      assert b in multiset(bins);
    }
  }

  // ---------- The algorithm ----------

  /** Busiest first, and bins of the same load by partition. */
  ghost predicate Sorted(bins: seq<Bin>) {
    forall i, j | 0 <= i < j < |bins| :: Before(bins[i], bins[j])
  }

  ghost predicate Before(a: Bin, b: Bin) {
    b.load < a.load || (b.load == a.load && a.partition < b.partition)
  }

  method SortBins(bins: seq<Bin>) returns (sorted: seq<Bin>)
    requires forall i, j | 0 <= i < j < |bins| :: bins[i].partition < bins[j].partition
    ensures multiset(sorted) == multiset(bins) && Sorted(sorted) && Descending(Loads(sorted))
  {
    hide Sorted, Descending;
    SortedEmpty();
    sorted := [];
    for i := 0 to |bins|
      invariant multiset(sorted) == multiset(bins[..i]) && Sorted(sorted)
    {
      var b, k := bins[i], |sorted|;
      while 0 < k && sorted[k - 1].load < b.load
        invariant 0 <= k <= |sorted| && forall j | k <= j < |sorted| :: sorted[j].load < b.load
      {
        k := k - 1;
      }
      EarlierPartitions(bins, sorted, i);
      Inserted(sorted, k, b);
      assert sorted == sorted[..k] + sorted[k..];
      assert bins[..i + 1] == bins[..i] + [b];
      sorted := sorted[..k] + [b] + sorted[k..];
    }
    assert bins[..|bins|] == bins;
    SortedDescends(sorted);
  }

  lemma SortedEmpty()
    ensures Sorted([])
  {
  }

  lemma SortedDescends(bins: seq<Bin>)
    requires Sorted(bins)
    ensures Descending(Loads(bins))
  {
  }

  /** Inserting a bin of a later partition behind every bin with at least its load. */
  lemma Inserted(sorted: seq<Bin>, k: nat, b: Bin)
    requires Sorted(sorted) && k <= |sorted| && forall j | 0 <= j < |sorted| :: sorted[j].partition < b.partition
    requires 0 < k ==> b.load <= sorted[k - 1].load
    requires forall j | k <= j < |sorted| :: sorted[j].load < b.load
    ensures var sorted' := sorted[..k] + [b] + sorted[k..];
            Sorted(sorted')
  {
    var sorted' := sorted[..k] + [b] + sorted[k..];
    assert forall j | 0 <= j < k :: b.load <= sorted[j].load;
    forall i, j | 0 <= i < j < |sorted'|
      ensures Before(sorted'[i], sorted'[j])
    {
      if i < k {
        assert sorted'[i] == sorted[i];
        assert j != k ==> sorted'[j] == sorted[if j < k then j else j - 1];
      } else {
        assert sorted'[j] == sorted[j - 1];
        assert i != k ==> sorted'[i] == sorted[i - 1];
      }
    }
  }

  lemma EarlierPartitions(bins: seq<Bin>, sorted: seq<Bin>, i: nat)
    requires i < |bins| && multiset(sorted) == multiset(bins[..i])
    requires forall i, j | 0 <= i < j < |bins| :: bins[i].partition < bins[j].partition
    ensures forall j | 0 <= j < |sorted| :: sorted[j].partition < bins[i].partition
  {
    forall j | 0 <= j < |sorted|
      ensures sorted[j].partition < bins[i].partition
    {
      assert sorted[j] in multiset(bins[..i]);
      assert sorted[j] in bins[..i];
    }
  }

  /** The first core with the least estimated load; 64-bit loads, so that the search may start from the maximum. */
  method FirstLeastLoaded(estimated: array<nat>) returns (least: nat)
    requires 0 < estimated.Length
    requires forall c | 0 <= c < estimated.Length :: estimated[c] < TWO_64
    ensures least < estimated.Length
    ensures forall c | 0 <= c < estimated.Length ::
              estimated[least] <= estimated[c] && (c < least ==> estimated[least] < estimated[c])
  {
    var minLoad := TWO_64 - 1;
    least := 0;
    for c := 0 to estimated.Length
      invariant 0 <= least < estimated.Length
      invariant forall k | 0 <= k < c :: minLoad <= estimated[k] && (k < least ==> minLoad < estimated[k])
      invariant (minLoad == TWO_64 - 1 && least == 0) || (least < c && minLoad == estimated[least])
    {
      if minLoad > estimated[c] {
        minLoad, least := estimated[c], c;
      }
    }
  }

  /** Greedy packing of loads that are already in descending order. */
  method Pack(p: seq<nat>, m: nat) returns (g: seq<nat>)
    requires 0 < m && SumUpTo(p, |p|) < TWO_64
    ensures Greedy(p, g, m)
  {
    var estimated := new nat[m](_ => 0);
    g := [];
    for i := 0 to |p|
      invariant |g| == i && forall j | 0 <= j < i :: FirstLeast(p, g, j, m, g[j])
      invariant forall c | 0 <= c < m :: estimated[c] == LoadUpTo(p, g, i, c)
      invariant forall c | 0 <= c < m :: estimated[c] < TWO_64
    {
      var least := FirstLeastLoaded(estimated);
      ghost var g0 := g;
      g := g + [least];
      forall j, c: nat | 0 <= j <= i
        ensures LoadUpTo(p, g, j, c) == LoadUpTo(p, g0, j, c)
      {
        SamePrefix(p, g0, g, j, c);
      }
      LoadAtMostSum(p, g, i + 1, least);
      SumMonotone(p, i + 1, |p|);
      estimated[least] := estimated[least] + p[i];
    }
  }

  lemma {:induction false} SamePrefix(p: seq<nat>, a: seq<nat>, a': seq<nat>, i: nat, c: nat)
    requires i <= |p| && i <= |a| && i <= |a'| && a[..i] == a'[..i]
    ensures LoadUpTo(p, a', i, c) == LoadUpTo(p, a, i, c)
  {
    if 0 < i {
      assert a[..i][i - 1] == a'[..i][i - 1];
      assert a[..i - 1] == a[..i][..i - 1] && a'[..i - 1] == a'[..i][..i - 1];
      SamePrefix(p, a, a', i - 1, c);
    }
  }

  lemma {:induction false} LoadAtMostSum(p: seq<nat>, a: seq<nat>, i: nat, c: nat)
    requires i <= |p| && i <= |a|
    ensures LoadUpTo(p, a, i, c) <= SumUpTo(p, i)
  {
    if 0 < i {
      LoadAtMostSum(p, a, i - 1, c);
    }
  }

  // ---------- The whole rebalancer ----------

  /** Cores by their position in the processor's list, the NUMA domain of every core, the owner of every partition and
      the requests that each core got for each partition. */
  datatype Config = Config(lcores: seq<nat>, numaOf: seq<nat>, owners: seq<nat>, requests: seq<seq<nat>>)

  ghost predicate WellFormed(c: Config) {
    && |c.requests| == |c.numaOf|
    && (forall i | 0 <= i < |c.lcores| :: c.lcores[i] < |c.numaOf|)
    && (forall i, j | 0 <= i < j < |c.lcores| :: c.lcores[i] != c.lcores[j])
    && (forall p | 0 <= p < |c.owners| :: c.owners[p] < |c.numaOf|)
    && (forall l | 0 <= l < |c.numaOf| :: |c.requests[l]| == |c.owners|)
    && (forall l, p | 0 <= l < |c.numaOf| && 0 <= p < |c.owners| :: c.requests[l][p] < TWO_32)
    && |c.lcores| <= TWO_16 && |c.owners| <= TWO_16
  }

  ghost function CoresUpTo(c: Config, d: nat, n: nat): (cores: seq<nat>)
    requires WellFormed(c) && n <= |c.lcores|
    ensures forall l :: l in cores <==> l in c.lcores[..n] && c.numaOf[l] == d
    ensures forall i, j | 0 <= i < j < |cores| :: cores[i] != cores[j]
  {
    if n == 0 then [] else
      var l := c.lcores[n - 1];
      assert c.lcores[..n] == c.lcores[..n - 1] + [l];
      CoresUpTo(c, d, n - 1) + if c.numaOf[l] == d then [l] else []
  }

  ghost function RequestsUpTo(c: Config, cores: seq<nat>, p: nat, n: nat): nat
    requires WellFormed(c) && p < |c.owners| && n <= |cores| && forall l | l in cores :: l < |c.numaOf|
  {
    if n == 0 then 0 else
      assert cores[n - 1] in cores;
      RequestsUpTo(c, cores, p, n - 1) + c.requests[cores[n - 1]][p]
  }

  /** The bins of the partitions below n that are owned in domain d. */
  ghost function BinsUpTo(c: Config, d: nat, n: nat): seq<Bin>
    requires WellFormed(c) && n <= |c.owners|
  {
    if n == 0 then [] else
      var rest, cores := BinsUpTo(c, d, n - 1), CoresUpTo(c, d, |c.lcores|);
      if c.numaOf[c.owners[n - 1]] != d then rest
      else rest + [Bin(n - 1, RequestsUpTo(c, cores, n - 1, |cores|))]
  }

  lemma {:induction false} BinsInOrder(c: Config, d: nat, n: nat)
    requires WellFormed(c) && n <= |c.owners|
    ensures var bins := BinsUpTo(c, d, n);
            && (forall b | b in bins :: b.partition < n && c.numaOf[c.owners[b.partition]] == d)
            && (forall i, j | 0 <= i < j < |bins| :: bins[i].partition < bins[j].partition)
            && (CoresUpTo(c, d, |c.lcores|) == [] ==> Quiet(bins))
  {
    hide WellFormed;
    if 0 < n {
      BinsInOrder(c, d, n - 1);
      var rest := BinsUpTo(c, d, n - 1);
      assert forall i | 0 <= i < |rest| :: rest[i] in rest;
    }
  }

  /** 32-bit counts of at most 2^16 partitions on at most 2^16 cores add up to less than 2^64. */
  lemma {:induction false} LoadsFit(c: Config, d: nat, n: nat)
    requires WellFormed(c) && n <= |c.owners|
    ensures |BinsUpTo(c, d, n)| <= n
    ensures SumUpTo(Loads(BinsUpTo(c, d, n)), |BinsUpTo(c, d, n)|) <= n * (TWO_16 * (TWO_32 - 1))
    ensures SumUpTo(Loads(BinsUpTo(c, d, n)), |BinsUpTo(c, d, n)|) < TWO_64
  {
    hide WellFormed, RequestsUpTo, CoresUpTo;
    if 0 < n {
      LoadsFit(c, d, n - 1);
      var rest, bins, cores := BinsUpTo(c, d, n - 1), BinsUpTo(c, d, n), CoresUpTo(c, d, |c.lcores|);
      CoresFew(c, d, |c.lcores|);
      if bins != rest {
        RequestsFit(c, cores, n - 1, |cores|);
        SumOfPrefix(Loads(rest), Loads(bins), |rest|);
      }
    }
    SizesFit(c, n);
  }

  lemma SizesFit(c: Config, n: nat)
    requires WellFormed(c) && n <= |c.owners|
    ensures n <= TWO_16 && n * (TWO_16 * (TWO_32 - 1)) < TWO_64
  {
  }

  lemma {:induction false} SumOfPrefix(p: seq<nat>, q: seq<nat>, i: nat)
    requires i <= |p| && i <= |q| && forall j | 0 <= j < i :: p[j] == q[j]
    ensures SumUpTo(p, i) == SumUpTo(q, i)
  {
    if 0 < i {
      SumOfPrefix(p, q, i - 1);
    }
  }

  lemma {:induction false} CoresFew(c: Config, d: nat, n: nat)
    requires WellFormed(c) && n <= |c.lcores|
    ensures |CoresUpTo(c, d, n)| <= n <= TWO_16 && forall l | l in CoresUpTo(c, d, n) :: l < |c.numaOf|
  {
    if 0 < n {
      CoresFew(c, d, n - 1);
    }
  }

  lemma {:induction false} RequestsFit(c: Config, cores: seq<nat>, p: nat, n: nat)
    requires WellFormed(c) && p < |c.owners| && n <= |cores| <= TWO_16 && forall l | l in cores :: l < |c.numaOf|
    ensures RequestsUpTo(c, cores, p, n) <= n * (TWO_32 - 1) <= TWO_16 * (TWO_32 - 1)
  {
    if 0 < n {
      RequestsFit(c, cores, p, n - 1);
      assert cores[n - 1] in cores;
    }
  }

  /** No partition of the domain is missing. */
  lemma {:induction false} BinOf(c: Config, d: nat, n: nat, p: nat) returns (b: Bin)
    requires WellFormed(c) && p < n <= |c.owners| && c.numaOf[c.owners[p]] == d
    ensures b in BinsUpTo(c, d, n) && b.partition == p
  {
    if p == n - 1 {
      b := BinsUpTo(c, d, n)[|BinsUpTo(c, d, n)| - 1];
    } else {
      b := BinOf(c, d, n - 1, p);
    }
  }

  /** No requests at all. */
  ghost predicate Quiet(bins: seq<Bin>) {
    forall b | b in bins :: b.load == 0
  }

  ghost function Bins(c: Config, d: nat): seq<Bin>
    requires WellFormed(c)
  {
    BinsUpTo(c, d, |c.owners|)
  }

  ghost function Cores(c: Config, d: nat): seq<nat>
    requires WellFormed(c)
  {
    CoresUpTo(c, d, |c.lcores|)
  }

  /** k more requests for partition q that core l got. */
  function Raised(c: Config, l: nat, q: nat, k: nat): Config
    requires l < |c.requests| && q < |c.requests[l]|
  {
    var counts: seq<nat> := c.requests[l][q := c.requests[l][q] + k];
    c.(requests := c.requests[l := counts])
  }

  lemma {:induction false} RequestsRaised(c: Config, cores: seq<nat>, p: nat, n: nat, l: nat, q: nat, k: nat)
    requires WellFormed(c) && l < |c.numaOf| && q < |c.owners| && WellFormed(Raised(c, l, q, k))
    requires p < |c.owners| && n <= |cores| && forall m | m in cores :: m < |c.numaOf|
    requires forall i, j | 0 <= i < j < |cores| :: cores[i] != cores[j]
    ensures RequestsUpTo(Raised(c, l, q, k), cores, p, n) ==
            RequestsUpTo(c, cores, p, n) + if p == q && l in cores[..n] then k else 0
  {
    if 0 < n {
      RequestsRaised(c, cores, p, n - 1, l, q, k);
      assert cores[n - 1] in cores && cores[..n] == cores[..n - 1] + [cores[n - 1]];
    }
  }

  lemma {:induction false} SameCores(c: Config, l: nat, q: nat, k: nat, d: nat, n: nat)
    requires WellFormed(c) && l < |c.numaOf| && q < |c.owners| && WellFormed(Raised(c, l, q, k)) && n <= |c.lcores|
    ensures CoresUpTo(Raised(c, l, q, k), d, n) == CoresUpTo(c, d, n)
  {
    if 0 < n {
      SameCores(c, l, q, k, d, n - 1);
    }
  }

  lemma {:induction false} BinsRaised(c: Config, l: nat, q: nat, k: nat, d: nat, n: nat)
    requires WellFormed(c) && l < |c.numaOf| && q < |c.owners| && WellFormed(Raised(c, l, q, k)) && n <= |c.owners|
    ensures var bins, bins' := BinsUpTo(c, d, n), BinsUpTo(Raised(c, l, q, k), d, n);
            |bins'| == |bins| && forall i | 0 <= i < |bins| ::
              bins'[i] == Bin(bins[i].partition,
                              bins[i].load + if bins[i].partition == q
                                && l in CoresUpTo(c, d, |c.lcores|) then k else 0)
  {
    hide WellFormed, RequestsUpTo, CoresUpTo;
    if 0 < n {
      var cores := CoresUpTo(c, d, |c.lcores|);
      BinsRaised(c, l, q, k, d, n - 1);
      CoresFew(c, d, |c.lcores|);
      SameCores(c, l, q, k, d, |c.lcores|);
      RequestsRaised(c, cores, n - 1, |cores|, l, q, k);
      assert cores[..|cores|] == cores;
    }
  }

  /** k more requests for a partition add exactly k to the load of its bin, if the partition's owner and the core that
      got the requests belong to the domain, and change no other load. */
  lemma LoadsFollowRequests(c: Config, d: nat, l: nat, q: nat, k: nat)
    requires WellFormed(c) && l < |c.numaOf| && q < |c.owners| && WellFormed(Raised(c, l, q, k))
    ensures var bins, bins' := Bins(c, d), Bins(Raised(c, l, q, k), d);
            && |bins'| == |bins|
            && (forall i | 0 <= i < |bins| :: bins'[i].partition == bins[i].partition)
            && (forall i | 0 <= i < |bins| ::
                  bins'[i].load == bins[i].load
                                   + if bins[i].partition == q && l in c.lcores && c.numaOf[l] == d then k else 0)
            && ((exists b :: b in bins && b.partition == q) <==> c.numaOf[c.owners[q]] == d)
  {
    hide WellFormed, CoresUpTo, BinsUpTo;
    BinsRaised(c, l, q, k, d, |c.owners|);
    BinOfItsDomain(c, d, q);
    assert c.lcores[..|c.lcores|] == c.lcores;
    assert l in CoresUpTo(c, d, |c.lcores|) <==> l in c.lcores && c.numaOf[l] == d;
  }

  lemma BinOfItsDomain(c: Config, d: nat, q: nat)
    requires WellFormed(c) && q < |c.owners|
    ensures (exists b :: b in Bins(c, d) && b.partition == q) <==> c.numaOf[c.owners[q]] == d
  {
    hide CoresUpTo, BinsUpTo;
    BinsInOrder(c, d, |c.owners|);
    if c.numaOf[c.owners[q]] == d {
      var b := BinOf(c, d, |c.owners|, q);
    }
  }

  lemma {:induction false} NoRequests(c: Config, cores: seq<nat>, p: nat, n: nat)
    requires WellFormed(c) && p < |c.owners| && n <= |cores| && forall l | l in cores :: l < |c.numaOf|
    requires forall l | 0 <= l < |c.numaOf| :: c.requests[l][p] == 0
    ensures RequestsUpTo(c, cores, p, n) == 0
  {
    if 0 < n {
      NoRequests(c, cores, p, n - 1);
      assert cores[n - 1] in cores;
    }
  }

  lemma {:induction false} QuietUpTo(c: Config, d: nat, n: nat)
    requires WellFormed(c) && n <= |c.owners|
    requires forall l, p | 0 <= l < |c.numaOf| && 0 <= p < |c.owners| :: c.requests[l][p] == 0
    ensures forall b | b in BinsUpTo(c, d, n) :: b.load == 0
  {
    hide CoresUpTo;
    if 0 < n {
      QuietUpTo(c, d, n - 1);
      CoresFew(c, d, |c.lcores|);
      NoRequests(c, CoresUpTo(c, d, |c.lcores|), n - 1, |CoresUpTo(c, d, |c.lcores|)|);
    }
  }

  /** Without requests there is no load. */
  lemma NoRequestsNoLoad(c: Config, d: nat)
    requires WellFormed(c)
    requires forall l, p | 0 <= l < |c.numaOf| && 0 <= p < |c.owners| :: c.requests[l][p] == 0
    ensures forall b | b in Bins(c, d) :: b.load == 0
  {
    QuietUpTo(c, d, |c.owners|);
  }

  method CollectCores(c: Config, d: nat) returns (cores: seq<nat>)
    requires WellFormed(c)
    ensures cores == Cores(c, d)
  {
    cores := [];
    for i := 0 to |c.lcores|
      invariant cores == CoresUpTo(c, d, i)
    {
      if c.numaOf[c.lcores[i]] == d {
        cores := cores + [c.lcores[i]];
      }
    }
  }

  method CollectBins(c: Config, d: nat, cores: seq<nat>) returns (bins: seq<Bin>)
    requires WellFormed(c) && cores == Cores(c, d)
    ensures bins == Bins(c, d)
  {
    bins := [];
    for p := 0 to |c.owners|
      invariant bins == BinsUpTo(c, d, p)
    {
      if c.numaOf[c.owners[p]] == d {
        var count := 0;
        for i := 0 to |cores|
          invariant count == RequestsUpTo(c, cores, p, i)
        {
          assert cores[i] in cores;
          count := count + c.requests[cores[i]][p];
        }
        bins := bins + [Bin(p, count)];
      }
    }
  }

  /** The queued changes are those of the plan that change an owner, each once. */
  ghost predicate Queues(owners: seq<nat>, plan: map<nat, nat>, pending: seq<Change>) {
    && (forall p | p in plan :: p < |owners|)
    && (forall ch | ch in pending ::
          ch.partition in plan && plan[ch.partition] == ch.lcore && ch.lcore != owners[ch.partition])
    && (forall p | p in plan && plan[p] != owners[p] :: Change(p, plan[p]) in pending)
    && (forall i, j | 0 <= i < j < |pending| :: pending[i].partition != pending[j].partition)
  }

  /** One call of set_new_owner_lcore_id. */
  lemma QueuesOneMore(owners: seq<nat>, plan: map<nat, nat>, pending: seq<Change>, p: nat, l: nat)
    requires Queues(owners, plan, pending) && p !in plan && p < |owners|
    ensures Queues(owners, plan[p := l], if owners[p] == l then pending else pending + [Change(p, l)])
  {
    var pending' := if owners[p] == l then pending else pending + [Change(p, l)];
    forall q | q in plan[p := l] && plan[p := l][q] != owners[q]
      ensures Change(q, plan[p := l][q]) in pending'
    {
      if q == p {
        assert pending'[|pending|] == Change(p, l);
      }
    }
  }

  /** Gives the partitions of one domain to its cores, on top of what other domains got. */
  method RebalanceDomain(bins: seq<Bin>, cores: seq<nat>, owners: seq<nat>, plan0: map<nat, nat>, pending0: seq<Change>)
    returns (plan: map<nat, nat>, pending: seq<Change>)
    requires forall i, j | 0 <= i < j < |bins| :: bins[i].partition < bins[j].partition
    requires forall b | b in bins :: b.partition < |owners| && b.partition !in plan0
    requires forall i, j | 0 <= i < j < |cores| :: cores[i] != cores[j]
    requires (cores == [] ==> Quiet(bins)) && SumUpTo(Loads(bins), |bins|) < TWO_64
    requires Queues(owners, plan0, pending0)
    ensures Quiet(bins) ==> plan == plan0 && pending == pending0
    ensures !Quiet(bins) ==> Balanced(bins, cores, plan)
    ensures Queues(owners, plan, pending)
    ensures forall p | p in plan0 :: p in plan && plan[p] == plan0[p]
    ensures forall p | p in plan && p !in plan0 :: exists b :: b in bins && b.partition == p
  {
    hide Queues, Greedy, Descending, Sorted, Balanced, SumUpTo;
    plan, pending := plan0, pending0;
    var sorted := SortBins(bins);
    SameBins(bins, sorted);
    if |sorted| == 0 || sorted[0].load == 0 {
      return;
    }
    assert !Quiet(bins) by { assert sorted[0] in bins; }
    SumIrrelevant(bins, sorted);
    var g := Pack(Loads(sorted), |cores|);
    GreedyAssigns(Loads(sorted), g, |cores|);
    for i := 0 to |sorted|
      invariant Queues(owners, plan, pending)
      invariant forall p | p in plan0 :: p in plan && plan[p] == plan0[p]
      invariant forall j | 0 <= j < i :: sorted[j].partition in plan && plan[sorted[j].partition] == cores[g[j]]
      invariant forall p | p in plan && p !in plan0 :: exists j :: 0 <= j < i && sorted[j].partition == p
    {
      var p, l := sorted[i].partition, cores[g[i]];
      assert sorted[i] in bins;
      QueuesOneMore(owners, plan, pending, p, l);
      plan, pending := plan[p := l], if owners[p] == l then pending else pending + [Change(p, l)];
    }
    GreedyIsBalanced(bins, sorted, g, cores, plan);
  }

  lemma SameBins(bins: seq<Bin>, sorted: seq<Bin>)
    requires multiset(sorted) == multiset(bins) && Sorted(sorted)
    requires forall i, j | 0 <= i < j < |bins| :: bins[i].partition < bins[j].partition
    ensures forall b :: b in bins <==> b in sorted
    ensures forall i, j | 0 <= i < j < |sorted| :: sorted[i].partition != sorted[j].partition
    ensures (|sorted| == 0 || sorted[0].load == 0) <==> Quiet(bins)
  {
    assert forall b :: b in bins <==> b in multiset(bins);
    assert forall b :: b in sorted <==> b in multiset(sorted);
    forall i, j | 0 <= i < j < |sorted|
      ensures sorted[i].partition != sorted[j].partition
    {
      assert Before(sorted[i], sorted[j]);
      assert sorted[i] in bins && sorted[j] in bins;
    }
    if 0 < |sorted| {
      assert sorted[0] in bins;
      forall b | b in sorted
        ensures b.load <= sorted[0].load
      {
        var j :| 0 <= j < |sorted| && sorted[j] == b;
        assert 0 < j ==> Before(sorted[0], sorted[j]);
      }
    }
  }

  lemma SumIrrelevant(bins: seq<Bin>, sorted: seq<Bin>)
    requires multiset(sorted) == multiset(bins)
    ensures SumUpTo(Loads(sorted), |sorted|) == SumUpTo(Loads(bins), |bins|)
  {
    hide LoadOf, LoadUpTo, SumUpTo;
    assert forall b :: b in bins <==> b in multiset(sorted);
    var one := map b | b in bins :: b.partition := 0;
    SumAsPlan(bins, one);
    SumAsPlan(sorted, one);
    OrderIrrelevant(bins, sorted, one, 0);
  }

  lemma SumAsPlan(bins: seq<Bin>, one: map<nat, nat>)
    requires forall b | b in bins :: b.partition in one && one[b.partition] == 0
    ensures LoadOf(bins, one, 0) == SumUpTo(Loads(bins), |bins|)
  {
    var g: seq<nat> := seq(|bins|, _ => 0);
    LoadConserved(Loads(bins), g, |bins|, 1);
    assert Machines(Loads(bins), g, |bins|, 0) == 0;
    LoadOfPlan(bins, g, [0], one, 0, |bins|);
    assert bins[..|bins|] == bins;
  }

  ghost function DomainOf(c: Config, p: nat): (d: nat)
    requires WellFormed(c) && p < |c.owners|
    ensures d in c.numaOf
  {
    c.numaOf[c.owners[p]]
  }

  /** A partition gets a core of its domain, unless the domain is quiet. */
  ghost predicate Placed(c: Config, plan: map<nat, nat>, p: nat)
    requires WellFormed(c) && p < |c.owners|
  {
    var d := DomainOf(c, p);
    if Quiet(Bins(c, d)) then p !in plan else p in plan && plan[p] in Cores(c, d)
  }

  lemma BalancedStays(bins: seq<Bin>, cores: seq<nat>, plan: map<nat, nat>, plan': map<nat, nat>)
    requires Balanced(bins, cores, plan) && forall p | p in plan :: p in plan' && plan'[p] == plan[p]
    ensures Balanced(bins, cores, plan')
  {
    hide LoadOf;
    forall l
      ensures LoadOf(bins, plan', l) == LoadOf(bins, plan, l)
    {
      PlansAgree(bins, plan, plan', l);
    }
  }

  lemma PlacedNow(c: Config, plan0: map<nat, nat>, plan: map<nat, nat>, p: nat, d: nat)
    requires WellFormed(c) && p < |c.owners| && DomainOf(c, p) <= d
    requires DomainOf(c, p) < d ==> Placed(c, plan0, p)
    requires forall q | q in plan0 :: q < |c.owners| && DomainOf(c, q) < d
    requires Quiet(Bins(c, d)) ==> plan == plan0
    requires !Quiet(Bins(c, d)) ==> Balanced(Bins(c, d), Cores(c, d), plan)
    requires forall q | q in plan0 :: q in plan && plan[q] == plan0[q]
    requires forall q | q in plan && q !in plan0 :: exists b :: b in Bins(c, d) && b.partition == q
    ensures Placed(c, plan, p)
  {
    hide WellFormed, BinsUpTo, CoresUpTo;
    BinsInOrder(c, d, |c.owners|);
    if DomainOf(c, p) == d {
      var b := BinOf(c, d, |c.owners|, p);
    }
  }

  /** The domains below d have been served and no other. */
  ghost predicate Served(c: Config, plan: map<nat, nat>, d: nat)
    requires WellFormed(c)
  {
    && (forall p | p in plan :: p < |c.owners| && DomainOf(c, p) < d)
    && (forall p | 0 <= p < |c.owners| && DomainOf(c, p) < d :: Placed(c, plan, p))
    && (forall e | 0 <= e < d && !Quiet(Bins(c, e)) :: Balanced(Bins(c, e), Cores(c, e), plan))
  }

  lemma ServedOneMore(c: Config, plan0: map<nat, nat>, plan: map<nat, nat>, d: nat)
    requires WellFormed(c) && Served(c, plan0, d)
    requires Quiet(Bins(c, d)) ==> plan == plan0
    requires !Quiet(Bins(c, d)) ==> Balanced(Bins(c, d), Cores(c, d), plan)
    requires forall q | q in plan0 :: q in plan && plan[q] == plan0[q]
    requires forall q | q in plan && q !in plan0 :: exists b :: b in Bins(c, d) && b.partition == q
    ensures Served(c, plan, d + 1)
  {
    hide Balanced, Placed, WellFormed, Quiet, DomainOf, BinsUpTo, CoresUpTo;
    BalancedSoFar(c, plan0, plan, d);
    PlacedSoFar(c, plan0, plan, d);
    DomainsSoFar(c, plan0, plan, d);
  }

  lemma BalancedSoFar(c: Config, plan0: map<nat, nat>, plan: map<nat, nat>, d: nat)
    requires WellFormed(c) && Served(c, plan0, d) && forall q | q in plan0 :: q in plan && plan[q] == plan0[q]
    requires !Quiet(Bins(c, d)) ==> Balanced(Bins(c, d), Cores(c, d), plan)
    ensures forall e | 0 <= e < d + 1 && !Quiet(Bins(c, e)) :: Balanced(Bins(c, e), Cores(c, e), plan)
  {
    hide Balanced, Placed, WellFormed, Quiet, DomainOf, BinsUpTo, CoresUpTo;
    forall e | 0 <= e < d + 1 && !Quiet(Bins(c, e))
      ensures Balanced(Bins(c, e), Cores(c, e), plan)
    {
      if e < d {
        BalancedStays(Bins(c, e), Cores(c, e), plan0, plan);
      }
    }
  }

  lemma PlacedSoFar(c: Config, plan0: map<nat, nat>, plan: map<nat, nat>, d: nat)
    requires WellFormed(c) && Served(c, plan0, d)
    requires Quiet(Bins(c, d)) ==> plan == plan0
    requires !Quiet(Bins(c, d)) ==> Balanced(Bins(c, d), Cores(c, d), plan)
    requires forall q | q in plan0 :: q in plan && plan[q] == plan0[q]
    requires forall q | q in plan && q !in plan0 :: exists b :: b in Bins(c, d) && b.partition == q
    ensures forall p | 0 <= p < |c.owners| && DomainOf(c, p) < d + 1 :: Placed(c, plan, p)
  {
    hide Balanced, Placed, WellFormed, Quiet, DomainOf, BinsUpTo, CoresUpTo;
    forall p | 0 <= p < |c.owners| && DomainOf(c, p) < d + 1
      ensures Placed(c, plan, p)
    {
      PlacedNow(c, plan0, plan, p, d);
    }
  }

  lemma DomainsSoFar(c: Config, plan0: map<nat, nat>, plan: map<nat, nat>, d: nat)
    requires WellFormed(c) && Served(c, plan0, d)
    requires forall q | q in plan && q !in plan0 :: exists b :: b in Bins(c, d) && b.partition == q
    ensures forall p | p in plan :: p < |c.owners| && DomainOf(c, p) < d + 1
  {
    hide Balanced, Placed, Quiet, BinsUpTo, WellFormed;
    BinsInOrder(c, d, |c.owners|);
    forall p | p in plan
      ensures p < |c.owners| && DomainOf(c, p) < d + 1
    {
      if p !in plan0 {
        var b :| b in Bins(c, d) && b.partition == p;
      }
    }
  }

  lemma ServedAll(c: Config, plan: map<nat, nat>, d: nat)
    requires WellFormed(c) && Served(c, plan, d) && forall e | e in c.numaOf :: e < d
    ensures forall p | 0 <= p < |c.owners| :: Placed(c, plan, p)
    ensures forall e | 0 <= e < d && !Quiet(Bins(c, e)) :: Balanced(Bins(c, e), Cores(c, e), plan)
  {
    hide Balanced, Placed, WellFormed, Quiet;
  }

  lemma Unserved(c: Config, plan: map<nat, nat>, d: nat)
    requires WellFormed(c) && Served(c, plan, d)
    ensures forall b | b in Bins(c, d) :: b.partition < |c.owners| && b.partition !in plan
  {
    hide Balanced, Placed, WellFormed, Quiet, BinsUpTo;
    BinsInOrder(c, d, |c.owners|);
  }

  /** Every partition of a domain with requests gets one core, of its own domain; the plan is balanced in every domain,
      and the changes queued are those of the plan. */
  method RebalanceLoad(c: Config, numaCount: nat) returns (plan: map<nat, nat>, pending: seq<Change>)
    requires WellFormed(c) && (forall d | d in c.numaOf :: d < numaCount)
    ensures forall p | 0 <= p < |c.owners| :: Placed(c, plan, p)
    ensures forall d | 0 <= d < numaCount && !Quiet(Bins(c, d)) :: Balanced(Bins(c, d), Cores(c, d), plan)
    ensures Queues(c.owners, plan, pending)
  {
    hide Queues, Balanced, SumUpTo, CoresUpTo, BinsUpTo, WellFormed, Served, Quiet;
    plan, pending := map[], [];
    NothingServed(c);
    for d := 0 to numaCount
      invariant Served(c, plan, d) && Queues(c.owners, plan, pending)
    {
      var cores := CollectCores(c, d);
      var bins := CollectBins(c, d, cores);
      ghost var plan0 := plan;
      Unserved(c, plan, d);
      BinsInOrder(c, d, |c.owners|);
      LoadsFit(c, d, |c.owners|);
      plan, pending := RebalanceDomain(bins, cores, c.owners, plan, pending);
      ServedOneMore(c, plan0, plan, d);
    }
    ServedAll(c, plan, numaCount);
  }

  lemma NothingServed(c: Config)
    requires WellFormed(c)
    ensures Served(c, map[], 0) && Queues(c.owners, map[], [])
  {
  }

  // ---------- Conservation ----------

  /** Load of all cores together. */
  ghost function LoadOfAll(bins: seq<Bin>, plan: map<nat, nat>, cores: seq<nat>): nat {
    if cores == [] then 0 else
      LoadOfAll(bins, plan, cores[..|cores| - 1]) + LoadOf(bins, plan, cores[|cores| - 1])
  }

  /** Whatever the plan, the cores together carry all requests. */
  lemma PlanConserves(bins: seq<Bin>, plan: map<nat, nat>, cores: seq<nat>)
    requires Planned(bins, cores, plan) && forall i, j | 0 <= i < j < |cores| :: cores[i] != cores[j]
    ensures LoadOfAll(bins, plan, cores) == SumUpTo(Loads(bins), |bins|)
  {
    var a := PlanAsAssignment(bins, cores, plan);
    LoadConserved(Loads(bins), a, |bins|, |cores|);
    MachinesAreCores(bins, a, plan, cores, |cores|);
    assert cores[..|cores|] == cores;
  }

  lemma {:induction false} MachinesAreCores(bins: seq<Bin>, a: seq<nat>, plan: map<nat, nat>, cores: seq<nat>, m: nat)
    requires m <= |cores| && |a| == |bins| && forall i, j | 0 <= i < j < |cores| :: cores[i] != cores[j]
    requires forall j | 0 <= j < |bins| ::
               a[j] < |cores| && bins[j].partition in plan && plan[bins[j].partition] == cores[a[j]]
    ensures LoadOfAll(bins, plan, cores[..m]) == Machines(Loads(bins), a, |bins|, m)
  {
    if 0 < m {
      MachinesAreCores(bins, a, plan, cores, m - 1);
      assert cores[..m][..m - 1] == cores[..m - 1];
      LoadOfPlan(bins, a, cores, plan, m - 1, |bins|);
      assert bins[..|bins|] == bins;
    }
  }
}
