/**
 * The pure part of the tough-shift rebalancer: the ordering of doctors by
 * penalty points, the high and low groups around the mean, and the swap cap.
 */
module Fairness {
  import opened Ledger
  import opened Ranking

  /** (roster position, penalty points) for every doctor, in roster order. */
  function PenaltyPairs(ws: seq<Workload>): (r: seq<Ranked>)
    ensures |r| == |ws| && InRosterOrder(r) && DistinctDoctors(r)
    ensures forall i :: 0 <= i < |r| ==> r[i].doctor == i && r[i].key == ws[i].penaltyPoints
  {
    seq(|ws|, i requires 0 <= i < |ws| => Ranked(i, ws[i].penaltyPoints))
  }

  /** Doctors by penalty points, lowest first; the stable sort keeps ties in roster order. */
  function PenaltyOrder(ws: seq<Workload>): (r: seq<Ranked>)
    ensures |r| == |ws| && SortedBy(r, false) && DistinctDoctors(r)
    ensures forall x :: x in r <==> 0 <= x.doctor < |ws| && x.key == ws[x.doctor].penaltyPoints
  {
    var pairs := PenaltyPairs(ws);
    SortSorted(pairs, false);
    SortKeepsDoctors(pairs, false);
    assert forall x :: x in pairs <==> 0 <= x.doctor < |ws| && x.key == ws[x.doctor].penaltyPoints by {
      forall x: Ranked | 0 <= x.doctor < |ws| && x.key == ws[x.doctor].penaltyPoints
        ensures x in pairs
      {
        assert pairs[x.doctor] == x;
      }
    }
    Sort(pairs, false)
  }

  /**
   * Above 1.2 times the mean (`above`) or below 0.8 times the mean (not `above`),
   * for a doctor with `p` points among `n` doctors holding `total` in all:
   * p > 1.2 total / n and p < 0.8 total / n, cleared of fractions.
   */
  predicate InGroup(p: int, above: bool, total: int, n: nat)
  {
    if above then 5 * n * p > 6 * total else 5 * n * p < 4 * total
  }

  /** The members of `xs` in the high (`above`) or low group, in the order of `xs`. */
  function Group(xs: seq<Ranked>, above: bool, total: int, n: nat): (r: seq<Ranked>)
    ensures |r| <= |xs|
    ensures forall x :: x in r <==> x in xs && InGroup(x.key, above, total, n)
  {
    if |xs| == 0 then []
    else (if InGroup(xs[0].key, above, total, n) then [xs[0]] else []) + Group(xs[1..], above, total, n)
  }

  /** A group keeps the order of the list it is taken from, and takes no doctor twice. */
  lemma {:induction false} GroupKeepsOrder(xs: seq<Ranked>, above: bool, total: int, n: nat)
    requires SortedBy(xs, false) && DistinctDoctors(xs)
    ensures SortedBy(Group(xs, above, total, n), false) && DistinctDoctors(Group(xs, above, total, n))
    decreases |xs|
  {
    if |xs| > 0 {
      var rest := Group(xs[1..], above, total, n);
      GroupKeepsOrder(xs[1..], above, total, n);
      forall y | y in rest
        ensures Precedes(xs[0], y, false) && y.doctor != xs[0].doctor
      {
        var k :| 0 <= k < |xs[1..]| && xs[1..][k] == y;
        assert xs[k + 1] == y;
      }
    }
  }

  /** The high and low groups share no doctor as long as the points total is not negative. */
  lemma {:induction false} GroupsDisjoint(ws: seq<Workload>, x: Ranked, y: Ranked)
    requires TotalPenalty(ws) >= 0
    requires x in Group(PenaltyOrder(ws), true, TotalPenalty(ws), |ws|)
    requires y in Group(PenaltyOrder(ws), false, TotalPenalty(ws), |ws|)
    ensures x.doctor != y.doctor
  {
  }

  /** The doctors of a list of ranked doctors. */
  function DoctorsOf(xs: seq<Ranked>): (r: set<nat>)
    ensures forall i :: i in r <==> exists x :: x in xs && x.doctor == i
  {
    set x | x in xs :: x.doctor
  }

  /** The doctors above 1.2 times the mean penalty, lowest first. */
  function HighGroup(ws: seq<Workload>): seq<Ranked>
  {
    Group(PenaltyOrder(ws), true, TotalPenalty(ws), |ws|)
  }

  /** The doctors below 0.8 times the mean penalty, lowest first. */
  function LowGroup(ws: seq<Workload>): seq<Ranked>
  {
    Group(PenaltyOrder(ws), false, TotalPenalty(ws), |ws|)
  }

  /**
   * The two groups are roster doctors, no doctor is in both, and each group
   * holds exactly the doctors whose points are beyond its bound.
   */
  lemma {:induction false} HighLowGroups(ws: seq<Workload>)
    requires TotalPenalty(ws) >= 0
    ensures DoctorsOf(HighGroup(ws)) !! DoctorsOf(LowGroup(ws))
    ensures forall i: nat :: i in DoctorsOf(HighGroup(ws)) <==>
      i < |ws| && InGroup(ws[i].penaltyPoints, true, TotalPenalty(ws), |ws|)
    ensures forall i: nat :: i in DoctorsOf(LowGroup(ws)) <==>
      i < |ws| && InGroup(ws[i].penaltyPoints, false, TotalPenalty(ws), |ws|)
  {
    assert forall i: nat :: i < |ws| ==> Ranked(i, ws[i].penaltyPoints) in PenaltyOrder(ws);
  }

  /** The cap on swaps: ten, or twice the size of the high group when that is smaller. */
  function MaxSwaps(high: nat): (m: nat)
    ensures m <= 10 && m <= 2 * high
    ensures m == 10 || m == 2 * high
  {
    if 2 * high < 10 then 2 * high else 10
  }
}
