/** Counting arguments about stretches of sequences of naturals. */
module Counting {
  /** The values of a stretch of a sequence. */
  ghost function Values(a: seq<nat>, from: nat, to: nat): set<nat>
    requires from <= to <= |a|
  {
    if from == to then {} else Values(a, from, to - 1) + {a[to - 1]}
  }

  ghost predicate Distinct(a: seq<nat>, from: nat, to: nat)
    requires from <= to <= |a|
  {
    forall i, j | from <= i < j < to :: a[i] != a[j]
  }

  lemma {:induction false} ValuesAre(a: seq<nat>, from: nat, to: nat)
    requires from <= to <= |a|
    ensures forall x :: x in Values(a, from, to) <==> exists i | from <= i < to :: a[i] == x
  {
    if from < to {
      ValuesAre(a, from, to - 1);
      assert forall i | from <= i < to :: a[i] == a[to - 1] || i < to - 1;
    }
  }

  lemma {:induction false} ValuesSize(a: seq<nat>, from: nat, to: nat)
    requires from <= to <= |a|
    ensures |Values(a, from, to)| <= to - from
    ensures Distinct(a, from, to) ==> |Values(a, from, to)| == to - from
    ensures forall x :: x in Values(a, from, to) <==> exists i | from <= i < to :: a[i] == x
  {
    if from < to {
      ValuesSize(a, from, to - 1);
      ValuesAre(a, from, to - 1);
    }
    ValuesAre(a, from, to);
  }

  /** As many values as places: no value comes twice. */
  lemma {:induction false} ManyValues(a: seq<nat>, from: nat, to: nat)
    requires from <= to <= |a| && to - from <= |Values(a, from, to)|
    ensures Distinct(a, from, to)
  {
    if from < to {
      ValuesSize(a, from, to - 1);
      assert a[to - 1] !in Values(a, from, to - 1);
      ManyValues(a, from, to - 1);
    }
  }

  lemma Subset(s: set<nat>, t: set<nat>)
    requires s <= t
    ensures |s| <= |t|
    ensures |t| <= |s| ==> s == t
  {
    if s != t {
      SmallerSubset(s, t);
    }
  }

  lemma {:induction false} SmallerSubset(s: set<nat>, t: set<nat>)
    requires s < t
    ensures |s| < |t|
  {
    var x :| x in t && x !in s;
    if s != {} {
      var y :| y in s;
      SmallerSubset(s - {y}, t - {y});
    }
  }

  ghost function Below(m: nat): (s: set<nat>)
    ensures |s| == m && forall x: nat :: x in s <==> x < m
  {
    if m == 0 then {} else Below(m - 1) + {m - 1}
  }

  /** More different values in a stretch than the next stretch is long: one of them is not there. */
  lemma Pigeonhole(a: seq<nat>, from: nat, mid: nat, to: nat) returns (j: nat)
    requires from <= mid <= to <= |a| && Distinct(a, from, mid) && to - mid < mid - from
    ensures from <= j < mid && forall q | mid <= q < to :: a[q] != a[j]
  {
    ValuesSize(a, from, mid);
    ValuesSize(a, mid, to);
    if Values(a, from, mid) <= Values(a, mid, to) {
      Subset(Values(a, from, mid), Values(a, mid, to));
      assert false;
    }
    var x :| x in Values(a, from, mid) && x !in Values(a, mid, to);
    j :| from <= j < mid && a[j] == x;
  }
}
