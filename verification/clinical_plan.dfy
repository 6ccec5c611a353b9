/**
 * The list of clinical (day, shift) pairs for a period and its grouping by
 * day, which keeps days in first-seen order and shifts in list order.
 */
module ClinicalPlan {
  import opened Shifts
  import opened Catalog

  datatype DatedShift = DatedShift(day: int, shift: Shift)

  datatype DayGroup = DayGroup(day: int, shifts: seq<Shift>)

  /** Pair number k of the period: day k / 11 from the start, with the (k mod 11)-th clinical shift. */
  function ClinicalSlot(start: int, k: nat): DatedShift
  {
    ClinicalCount();
    DatedShift(start + k / 11, ClinicalShifts()[k % 11])
  }

  /** The first n pairs of the period. */
  function ClinicalPrefix(start: int, n: nat): seq<DatedShift>
  {
    seq(n, k requires 0 <= k < n => ClinicalSlot(start, k))
  }

  /** Quotient and remainder of 11 q + r by 11. */
  lemma {:induction false} DivMod11(q: int, r: int)
    requires 0 <= r < 11
    ensures (11 * q + r) / 11 == q && (11 * q + r) % 11 == r
  {
  }

  lemma {:induction false} PrefixSnoc(start: int, n: nat)
    ensures ClinicalPrefix(start, n + 1) == ClinicalPrefix(start, n) + [ClinicalSlot(start, n)]
  {
  }

  /** Appending shift f of day q extends the list by pair 11 q + f. */
  lemma {:induction false} AppendSlot(start: int, q: nat, f: nat, slots: seq<DatedShift>)
    requires f < 11 == |ClinicalShifts()| && slots == ClinicalPrefix(start, 11 * q + f)
    ensures slots + [DatedShift(start + q, ClinicalShifts()[f])] == ClinicalPrefix(start, 11 * q + f + 1)
  {
    DivMod11(q, f);
    PrefixSnoc(start, 11 * q + f);
  }

  /**
   * Every day of every week, the Frankston shifts then the Rosebud shifts,
   * all in catalog order.
   */
  method GenerateClinicalShifts(start: int, weeks: nat) returns (slots: seq<DatedShift>)
    ensures slots == ClinicalPrefix(start, 77 * weeks)
  {
    ClinicalLayout();
    slots := [];
    for week := 0 to weeks
      invariant slots == ClinicalPrefix(start, 77 * week)
    {
      for day := 0 to 7
        invariant slots == ClinicalPrefix(start, 77 * week + 11 * day)
      {
        var date := start + 7 * week + day;
        ghost var q: nat := 7 * week + day;
        for f := 0 to |FrankstonShifts()|
          invariant slots == ClinicalPrefix(start, 11 * q + f)
        {
          AppendSlot(start, q, f, slots);
          slots := slots + [DatedShift(date, FrankstonShifts()[f])];
        }
        for r := 0 to |RosebudShifts()|
          invariant slots == ClinicalPrefix(start, 11 * q + 9 + r)
        {
          AppendSlot(start, q, 9 + r, slots);
          slots := slots + [DatedShift(date, RosebudShifts()[r])];
        }
      }
    }
  }

  /** Index of the first group for `day`, or |gs| when there is none. */
  function IndexOfDay(gs: seq<DayGroup>, day: int): (r: nat)
    ensures r <= |gs|
    ensures r < |gs| ==> gs[r].day == day
    ensures forall j :: 0 <= j < r ==> gs[j].day != day
  {
    if |gs| == 0 then 0
    else if gs[0].day == day then 0
    else 1 + IndexOfDay(gs[1..], day)
  }

  /** Appending one pair to its day's group, opening a new group for an unseen day. */
  function AddToGroups(gs: seq<DayGroup>, x: DatedShift): seq<DayGroup>
  {
    var i := IndexOfDay(gs, x.day);
    if i < |gs| then gs[i := DayGroup(x.day, gs[i].shifts + [x.shift])]
    else gs + [DayGroup(x.day, [x.shift])]
  }

  /** The groups of a list of pairs, built front to back. */
  function GroupsOf(xs: seq<DatedShift>): seq<DayGroup>
  {
    if |xs| == 0 then [] else AddToGroups(GroupsOf(xs[..|xs| - 1]), xs[|xs| - 1])
  }

  /** Grouping by day into an insertion-ordered dictionary of lists. */
  method GroupByDate(xs: seq<DatedShift>) returns (groups: seq<DayGroup>)
    ensures groups == GroupsOf(xs)
    ensures forall a, b :: 0 <= a < b < |groups| ==> groups[a].day != groups[b].day
  {
    groups := [];
    for k := 0 to |xs|
      invariant groups == GroupsOf(xs[..k])
      invariant forall a, b :: 0 <= a < b < |groups| ==> groups[a].day != groups[b].day
    {
      assert xs[..k + 1][..k] == xs[..k];
      var x := xs[k];
      var i := IndexOfDay(groups, x.day);
      if i < |groups| {
        groups := groups[i := DayGroup(x.day, groups[i].shifts + [x.shift])];
      } else {
        groups := groups + [DayGroup(x.day, [x.shift])];
      }
    }
    assert xs[..|xs|] == xs;
  }

  /** Every grouped shift comes from a pair of the list, with its group's day. */
  lemma {:induction false} GroupsOfFrom(xs: seq<DatedShift>)
    ensures forall g, k :: 0 <= g < |GroupsOf(xs)| && 0 <= k < |GroupsOf(xs)[g].shifts| ==>
      DatedShift(GroupsOf(xs)[g].day, GroupsOf(xs)[g].shifts[k]) in xs
    decreases |xs|
  {
    if |xs| > 0 {
      var init, x := xs[..|xs| - 1], xs[|xs| - 1];
      GroupsOfFrom(init);
      var gs, hs := GroupsOf(init), GroupsOf(xs);
      assert xs == init + [x];
      var i := IndexOfDay(gs, x.day);
      forall g, k | 0 <= g < |hs| && 0 <= k < |hs[g].shifts|
        ensures DatedShift(hs[g].day, hs[g].shifts[k]) in xs
      {
        if g < |gs| && k < |gs[g].shifts| {
          assert hs[g].day == gs[g].day && hs[g].shifts[k] == gs[g].shifts[k];
          assert DatedShift(gs[g].day, gs[g].shifts[k]) in init;
        } else {
          assert hs[g].day == x.day && hs[g].shifts[k] == x.shift;
        }
      }
    }
  }

  /** n whole days, each holding every clinical shift in catalog order. */
  function WholeDays(start: int, n: nat): seq<DayGroup>
  {
    seq(n, d requires 0 <= d < n => DayGroup(start + d, ClinicalShifts()))
  }

  /** Groups of the first n pairs: the whole days so far, then the part of the current day. */
  function PartialDays(start: int, n: nat): seq<DayGroup>
  {
    ClinicalCount();
    WholeDays(start, n / 11) + (if n % 11 == 0 then [] else [DayGroup(start + n / 11, ClinicalShifts()[..n % 11])])
  }

  lemma {:induction false} WholeDaysIndex(start: int, n: nat, day: int)
    ensures IndexOfDay(WholeDays(start, n), day) == if start <= day < start + n then day - start else n
  {
    var gs := WholeDays(start, n);
    if start <= day < start + n {
      assert gs[day - start].day == day;
    }
  }

  lemma {:induction false} IndexOfDayAppend(gs: seq<DayGroup>, hs: seq<DayGroup>, day: int)
    requires IndexOfDay(gs, day) == |gs|
    ensures IndexOfDay(gs + hs, day) == |gs| + IndexOfDay(hs, day)
    decreases |gs|
  {
    if |gs| > 0 {
      assert (gs + hs)[1..] == gs[1..] + hs;
      IndexOfDayAppend(gs[1..], hs, day);
    } else {
      assert gs + hs == hs;
    }
  }

  /** The first shift of a day opens that day's group. */
  lemma {:induction false} OpenDay(start: int, q: nat)
    ensures |ClinicalShifts()| == 11
    ensures AddToGroups(WholeDays(start, q), DatedShift(start + q, ClinicalShifts()[0]))
      == WholeDays(start, q) + [DayGroup(start + q, ClinicalShifts()[..1])]
  {
    ClinicalCount();
    WholeDaysIndex(start, q, start + q);
    assert ClinicalShifts()[..1] == [ClinicalShifts()[0]];
  }

  /**
   * Pair j of a day whose first j pairs form the last group, when no earlier
   * group has that day, joins the last group.
   */
  lemma {:induction false} JoinLast(whole: seq<DayGroup>, day: int, cs: seq<Shift>, j: nat)
    requires j < |cs| && IndexOfDay(whole, day) == |whole|
    ensures AddToGroups(whole + [DayGroup(day, cs[..j])], DatedShift(day, cs[j]))
      == whole + [DayGroup(day, cs[..j + 1])]
  {
    var gs := whole + [DayGroup(day, cs[..j])];
    IndexOfDayAppend(whole, [DayGroup(day, cs[..j])], day);
    assert cs[..j] + [cs[j]] == cs[..j + 1];
    assert gs[|whole| := DayGroup(day, cs[..j + 1])] == whole + [DayGroup(day, cs[..j + 1])];
  }

  /** A day holding all eleven shifts is a whole day. */
  lemma {:induction false} CloseDay(start: int, q: nat)
    ensures |ClinicalShifts()| == 11
    ensures WholeDays(start, q) + [DayGroup(start + q, ClinicalShifts()[..11])] == WholeDays(start, q + 1)
  {
    ClinicalCount();
    assert ClinicalShifts()[..11] == ClinicalShifts();
  }

  lemma {:induction false} PartialDaysAt(start: int, q: nat, j: nat)
    requires j < 11
    ensures |ClinicalShifts()| == 11
    ensures PartialDays(start, 11 * q + j)
      == WholeDays(start, q) + (if j == 0 then [] else [DayGroup(start + q, ClinicalShifts()[..j])])
  {
    ClinicalCount();
    DivMod11(q, j);
  }

  /** Adding the next pair of the period to the groups of the pairs before it. */
  lemma {:induction false} PartialDaysStep(start: int, q: nat, j: nat)
    requires j < 11
    ensures |ClinicalShifts()| == 11
    ensures AddToGroups(PartialDays(start, 11 * q + j), DatedShift(start + q, ClinicalShifts()[j]))
      == PartialDays(start, 11 * q + j + 1)
  {
    ClinicalCount();
    if j == 0 {
      StepOpen(start, q);
    } else if j == 10 {
      StepClose(start, q);
    } else {
      StepJoin(start, q, j);
    }
  }

  lemma {:induction false} StepOpen(start: int, q: nat)
    ensures |ClinicalShifts()| == 11
    ensures AddToGroups(PartialDays(start, 11 * q), DatedShift(start + q, ClinicalShifts()[0]))
      == PartialDays(start, 11 * q + 1)
  {
    PartialDaysAt(start, q, 0);
    OpenDay(start, q);
    PartialDaysAt(start, q, 1);
  }

  lemma {:induction false} StepJoin(start: int, q: nat, j: nat)
    requires 1 <= j < 10
    ensures |ClinicalShifts()| == 11
    ensures AddToGroups(PartialDays(start, 11 * q + j), DatedShift(start + q, ClinicalShifts()[j]))
      == PartialDays(start, 11 * q + j + 1)
  {
    PartialDaysAt(start, q, j);
    PartialDaysAt(start, q, j + 1);
    WholeDaysIndex(start, q, start + q);
    JoinLast(WholeDays(start, q), start + q, ClinicalShifts(), j);
  }

  lemma {:induction false} StepClose(start: int, q: nat)
    ensures |ClinicalShifts()| == 11
    ensures AddToGroups(PartialDays(start, 11 * q + 10), DatedShift(start + q, ClinicalShifts()[10]))
      == PartialDays(start, 11 * q + 10 + 1)
  {
    ClinicalCount();
    var whole := WholeDays(start, q);
    assert PartialDays(start, 11 * q + 10) == whole + [DayGroup(start + q, ClinicalShifts()[..10])] by {
      PartialDaysAt(start, q, 10);
    }
    assert AddToGroups(whole + [DayGroup(start + q, ClinicalShifts()[..10])], DatedShift(start + q, ClinicalShifts()[10]))
      == WholeDays(start, q + 1) by {
      WholeDaysIndex(start, q, start + q);
      JoinLast(whole, start + q, ClinicalShifts(), 10);
      CloseDay(start, q);
    }
    assert PartialDays(start, 11 * q + 10 + 1) == WholeDays(start, q + 1) by {
      PartialDaysAt(start, q + 1, 0);
      assert 11 * q + 10 + 1 == 11 * (q + 1) + 0;
    }
  }

  lemma {:induction false} GroupsOfPrefix(start: int, n: nat)
    ensures GroupsOf(ClinicalPrefix(start, n)) == PartialDays(start, n)
    decreases n
  {
    ClinicalCount();
    if n > 0 {
      var m := n - 1;
      var q, j := m / 11, m % 11;
      assert m == 11 * q + j;
      var xs := ClinicalPrefix(start, n);
      assert xs[..m] == ClinicalPrefix(start, m);
      GroupsOfPrefix(start, m);
      assert xs[m] == DatedShift(start + q, ClinicalShifts()[j]);
      PartialDaysStep(start, q, j);
    } else {
      PartialDaysAt(start, 0, 0);
      assert WholeDays(start, 0) == [];
    }
  }

  /** The period's pairs group into one group per day, each holding every clinical shift. */
  lemma {:induction false} ClinicalGroups(start: int, weeks: nat)
    ensures GroupsOf(ClinicalPrefix(start, 77 * weeks)) == WholeDays(start, 7 * weeks)
  {
    GroupsOfPrefix(start, 77 * weeks);
    assert (77 * weeks) / 11 == 7 * weeks && (77 * weeks) % 11 == 0;
  }
}
