/**
 * One doctor's assignments: a dictionary from day to shift label whose keys
 * keep their insertion order, and the roster-wide views over all doctors'
 * dictionaries (who works on a day, which labels are taken on a day).
 */
module Agendas {
  import opened Shifts
  import opened Catalog

  /** A calendar day as a day number; day 0 is a Monday, so the weekday is the day modulo 7. */
  predicate IsFriday(day: int)
  {
    day % 7 == 4
  }

  /** A dictionary day -> label; `dates` lists its keys in insertion order. */
  datatype Agenda = Agenda(dates: seq<int>, labelOn: map<int, string>)

  function Empty(): Agenda
  {
    Agenda([], map[])
  }

  /** Keys listed once each, and exactly the keys of the map. */
  ghost predicate AgendaOk(a: Agenda)
  {
    && (forall i, j :: 0 <= i < j < |a.dates| ==> a.dates[i] != a.dates[j])
    && (forall d :: d in a.labelOn <==> d in a.dates)
  }

  /** Dictionary assignment: an existing key keeps its place, a new key goes last. */
  function Put(a: Agenda, d: int, name: string): (r: Agenda)
    ensures d in r.labelOn && r.labelOn[d] == name
    ensures forall e :: e != d ==> (e in r.labelOn <==> e in a.labelOn)
    ensures forall e :: e != d && e in a.labelOn ==> r.labelOn[e] == a.labelOn[e]
    ensures AgendaOk(a) && d in a.labelOn ==> r.dates == a.dates
    ensures d !in a.labelOn ==> r.dates == a.dates + [d]
    ensures AgendaOk(a) ==> AgendaOk(r)
  {
    if d in a.labelOn then Agenda(a.dates, a.labelOn[d := name])
    else Agenda(a.dates + [d], a.labelOn[d := name])
  }

  /** `b` keeps every entry of `a` with its label, and `a`'s keys in front in the same order. */
  ghost predicate Extends(a: Agenda, b: Agenda)
  {
    && |a.dates| <= |b.dates| && b.dates[..|a.dates|] == a.dates
    && (forall d :: d in a.labelOn ==> d in b.labelOn && b.labelOn[d] == a.labelOn[d])
  }

  ghost predicate ExtendsAll(xs: seq<Agenda>, ys: seq<Agenda>)
  {
    |xs| == |ys| && forall i :: 0 <= i < |xs| ==> Extends(xs[i], ys[i])
  }

  lemma {:induction false} ExtendsTransitive(a: Agenda, b: Agenda, c: Agenda)
    requires Extends(a, b) && Extends(b, c)
    ensures Extends(a, c)
  {
    assert c.dates[..|a.dates|] == c.dates[..|b.dates|][..|a.dates|];
  }

  lemma {:induction false} ExtendsAllTransitive(xs: seq<Agenda>, ys: seq<Agenda>, zs: seq<Agenda>)
    requires ExtendsAll(xs, ys) && ExtendsAll(ys, zs)
    ensures ExtendsAll(xs, zs)
  {
    forall i | 0 <= i < |xs|
      ensures Extends(xs[i], zs[i])
    {
      ExtendsTransitive(xs[i], ys[i], zs[i]);
    }
  }

  /** Adding a new key extends a dictionary. */
  lemma {:induction false} PutNewExtends(a: Agenda, d: int, name: string)
    requires d !in a.labelOn
    ensures Extends(a, Put(a, d, name))
  {
    assert (a.dates + [d])[..|a.dates|] == a.dates;
  }

  /** Number of doctors with an entry on day `d`. */
  function CountOn(xs: seq<Agenda>, d: int): (n: nat)
    ensures n <= |xs|
  {
    if |xs| == 0 then 0
    else CountOn(xs[..|xs| - 1], d) + (if d in xs[|xs| - 1].labelOn then 1 else 0)
  }

  /** Giving doctor `i` a new entry on `d` adds one to the count of `d` and leaves every other day alone. */
  lemma {:induction false} CountOnPut(xs: seq<Agenda>, i: int, d: int, name: string, e: int)
    requires 0 <= i < |xs| && d !in xs[i].labelOn
    ensures CountOn(xs[i := Put(xs[i], d, name)], e) == CountOn(xs, e) + (if e == d then 1 else 0)
    decreases |xs|
  {
    var n := |xs|;
    var ys := xs[i := Put(xs[i], d, name)];
    if i < n - 1 {
      assert ys[..n - 1] == xs[..n - 1][i := Put(xs[i], d, name)];
      CountOnPut(xs[..n - 1], i, d, name, e);
    } else {
      assert ys[..n - 1] == xs[..n - 1];
    }
  }

  /** Relabelling an existing entry changes no day's count. */
  lemma {:induction false} CountOnRelabel(xs: seq<Agenda>, i: int, d: int, name: string, e: int)
    requires 0 <= i < |xs| && d in xs[i].labelOn
    ensures CountOn(xs[i := Put(xs[i], d, name)], e) == CountOn(xs, e)
    decreases |xs|
  {
    var n := |xs|;
    var ys := xs[i := Put(xs[i], d, name)];
    if i < n - 1 {
      assert ys[..n - 1] == xs[..n - 1][i := Put(xs[i], d, name)];
      CountOnRelabel(xs[..n - 1], i, d, name, e);
    } else {
      assert ys[..n - 1] == xs[..n - 1];
    }
  }

  /** Some doctor already works label `name` on day `d`. */
  predicate SlotTaken(xs: seq<Agenda>, d: int, name: string)
  {
    exists i :: 0 <= i < |xs| && d in xs[i].labelOn && xs[i].labelOn[d] == name
  }

  /** No label is worked by two doctors on the same day. */
  ghost predicate SlotsUnique(xs: seq<Agenda>)
  {
    forall i, j, d :: 0 <= i < |xs| && 0 <= j < |xs| && i != j && d in xs[i].labelOn && d in xs[j].labelOn
      ==> xs[i].labelOn[d] != xs[j].labelOn[d]
  }

  /** Adding a label that nobody works on that day keeps the labels of every day distinct. */
  lemma {:induction false} PutKeepsUnique(xs: seq<Agenda>, i: int, d: int, name: string)
    requires SlotsUnique(xs) && 0 <= i < |xs| && !SlotTaken(xs, d, name)
    ensures SlotsUnique(xs[i := Put(xs[i], d, name)])
  {
    var ys := xs[i := Put(xs[i], d, name)];
    forall a, b, e | 0 <= a < |ys| && 0 <= b < |ys| && a != b && e in ys[a].labelOn && e in ys[b].labelOn
      ensures ys[a].labelOn[e] != ys[b].labelOn[e]
    {
      if a == i && e == d {
        assert ys[b] == xs[b];
      } else if b == i && e == d {
        assert ys[a] == xs[a];
      }
    }
  }

  /** The same agendas with every doctor's days unchanged. */
  ghost predicate SameDates(xs: seq<Agenda>, ys: seq<Agenda>)
  {
    |xs| == |ys| && forall i :: 0 <= i < |xs| ==> ys[i].dates == xs[i].dates
  }
}
