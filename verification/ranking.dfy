/**
 * Python's stable `list.sort(key=...)` on a list of (doctor, key) pairs that
 * was built in roster order. Because the input is in roster order, a stable
 * sort equals sorting by (key, roster position), which is what `Precedes` says.
 * `reverse=True` keeps equal keys in their original order, so the descending
 * sort breaks ties by roster position too.
 */
module Ranking {

  /** A doctor, by roster position, with the value being sorted on. */
  datatype Ranked = Ranked(doctor: nat, key: int)

  /** `x` sorts before `y`: by key (larger first when `descending`), then by roster position. */
  predicate Precedes(x: Ranked, y: Ranked, descending: bool)
  {
    (if descending then x.key > y.key else x.key < y.key) || (x.key == y.key && x.doctor < y.doctor)
  }

  predicate SortedBy(xs: seq<Ranked>, descending: bool)
  {
    forall i, j :: 0 <= i < j < |xs| ==> Precedes(xs[i], xs[j], descending)
  }

  /** No doctor appears twice. */
  predicate DistinctDoctors(xs: seq<Ranked>)
  {
    forall i, j :: 0 <= i < j < |xs| ==> xs[i].doctor != xs[j].doctor
  }

  /** Roster order: positions strictly increase along the list. */
  predicate InRosterOrder(xs: seq<Ranked>)
  {
    forall i, j :: 0 <= i < j < |xs| ==> xs[i].doctor < xs[j].doctor
  }

  /** Inserts `x` before the first element it precedes. */
  function Insert(x: Ranked, xs: seq<Ranked>, descending: bool): (r: seq<Ranked>)
    ensures multiset(r) == multiset(xs) + multiset{x}
  {
    if |xs| == 0 then [x]
    else if Precedes(x, xs[0], descending) then [x] + xs
    else
      assert xs == [xs[0]] + xs[1..];
      [xs[0]] + Insert(x, xs[1..], descending)
  }

  /** The stable sort: insertion sort, a permutation of its input. */
  function Sort(xs: seq<Ranked>, descending: bool): (r: seq<Ranked>)
    ensures multiset(r) == multiset(xs)
  {
    if |xs| == 0 then []
    else
      assert xs == [xs[0]] + xs[1..];
      Insert(xs[0], Sort(xs[1..], descending), descending)
  }

  /** Inserting a doctor not yet in a sorted list keeps it sorted. */
  lemma {:induction false} InsertSorted(x: Ranked, xs: seq<Ranked>, descending: bool)
    requires SortedBy(xs, descending)
    requires forall y :: y in xs ==> y.doctor != x.doctor
    ensures SortedBy(Insert(x, xs, descending), descending)
  {
    if |xs| > 0 && !Precedes(x, xs[0], descending) {
      InsertSorted(x, xs[1..], descending);
      var rest := Insert(x, xs[1..], descending);
      assert Precedes(xs[0], x, descending);
      forall y | y in rest
        ensures Precedes(xs[0], y, descending)
      {
        assert y in multiset(rest);
        if y != x {
          assert y in multiset(xs[1..]);
          var k :| 0 <= k < |xs[1..]| && xs[1..][k] == y;
          assert xs[k + 1] == y;
        }
      }
      var r := [xs[0]] + rest;
      forall i, j | 0 <= i < j < |r|
        ensures Precedes(r[i], r[j], descending)
      {
        if i == 0 {
          assert r[j] == rest[j - 1];
          assert rest[j - 1] in rest;
        } else {
          assert r[i] == rest[i - 1] && r[j] == rest[j - 1];
        }
      }
    }
  }

  /** Sorting a list without repeated doctors gives a sorted list. */
  lemma {:induction false} SortSorted(xs: seq<Ranked>, descending: bool)
    requires DistinctDoctors(xs)
    ensures SortedBy(Sort(xs, descending), descending)
  {
    if |xs| > 0 {
      assert xs == [xs[0]] + xs[1..];
      SortSorted(xs[1..], descending);
      var rest := Sort(xs[1..], descending);
      forall y | y in rest
        ensures y.doctor != xs[0].doctor
      {
        assert y in multiset(rest);
        assert y in multiset(xs[1..]);
        var k :| 0 <= k < |xs[1..]| && xs[1..][k] == y;
        assert xs[k + 1] == y;
      }
      InsertSorted(xs[0], rest, descending);
    }
  }

  /** Sorting keeps the doctors distinct and the key each doctor carries. */
  lemma {:induction false} SortKeepsDoctors(xs: seq<Ranked>, descending: bool)
    requires DistinctDoctors(xs)
    ensures |Sort(xs, descending)| == |xs|
    ensures DistinctDoctors(Sort(xs, descending))
    ensures forall y :: y in Sort(xs, descending) <==> y in xs
  {
    var r := Sort(xs, descending);
    SortSorted(xs, descending);
    assert |r| == |multiset(r)| == |multiset(xs)| == |xs|;
    forall y ensures y in r <==> y in xs {
      assert y in r <==> y in multiset(r);
      assert y in xs <==> y in multiset(xs);
    }
    forall i, j | 0 <= i < j < |r|
      ensures r[i].doctor != r[j].doctor
    {
      assert r[i] in multiset(xs) && r[j] in multiset(xs);
      assert r[i] in xs && r[j] in xs;
      assert Precedes(r[i], r[j], descending);
      var a :| 0 <= a < |xs| && xs[a] == r[i];
      var b :| 0 <= b < |xs| && xs[b] == r[j];
      assert a != b ==> xs[a].doctor != xs[b].doctor;
    }
  }

  /**
   * The result is the stable sort of a roster-ordered list: sorted by key, and
   * two doctors with equal keys keep their original relative order.
   */
  lemma {:induction false} SortIsStable(xs: seq<Ranked>, descending: bool, a: int, b: int)
    requires InRosterOrder(xs)
    requires 0 <= a < b < |xs| && xs[a].key == xs[b].key
    ensures exists i, j ::
      0 <= i < j < |Sort(xs, descending)| && Sort(xs, descending)[i] == xs[a] && Sort(xs, descending)[j] == xs[b]
  {
    var r := Sort(xs, descending);
    SortKeepsDoctors(xs, descending);
    SortSorted(xs, descending);
    assert xs[a] in r && xs[b] in r;
    var i :| 0 <= i < |r| && r[i] == xs[a];
    var j :| 0 <= j < |r| && r[j] == xs[b];
    assert xs[a].doctor < xs[b].doctor;
    assert i < j by {
      if j < i {
        assert false;
      }
    }
  }
}
