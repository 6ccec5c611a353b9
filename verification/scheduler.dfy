/**
 * The scheduler: a roster of doctors, one workload ledger and one agenda per
 * doctor, updated in place by the allocation stages and the rebalancer.
 */
module Scheduling {
  import opened Wrappers
  import opened Shifts
  import opened Catalog
  import opened Ranking
  import opened Ledger
  import opened Agendas
  import opened ClinicalPlan
  import opened Fairness
  import opened Roster
  import opened Stages

  /** No doctor has an entry on day `d`. */
  ghost predicate NobodyOn(xs: seq<Agenda>, d: int)
  {
    forall i :: 0 <= i < |xs| ==> d !in xs[i].labelOn
  }

  /** Every entry carries an admin label. */
  ghost predicate OnlyAdmin(xs: seq<Agenda>)
  {
    forall i, e :: 0 <= i < |xs| && e in xs[i].labelOn ==> IsAdminLabel(xs[i].labelOn[e])
  }

  /** An entry of `ys` that `xs` does not have. */
  ghost predicate IsNew(xs: seq<Agenda>, ys: seq<Agenda>, i: int, e: int)
  {
    0 <= i < |xs| && i < |ys| && e in ys[i].labelOn && e !in xs[i].labelOn
  }

  /** Targets and capacity unchanged, and the counter of the other kind untouched. */
  ghost predicate LedgersGrowOnly(ws: seq<Workload>, vs: seq<Workload>, admin: bool)
  {
    && |ws| == |vs|
    && forall i :: 0 <= i < |ws| ==>
      && vs[i].targetClinical == ws[i].targetClinical && vs[i].targetAdmin == ws[i].targetAdmin
      && vs[i].maxHours == ws[i].maxHours
      && (if admin then vs[i].currentClinical == ws[i].currentClinical else vs[i].currentAdmin == ws[i].currentAdmin)
  }

  /** Every entry of `ys` that `xs` lacks lies in [lo, hi) and carries a label of the stage's kind. */
  ghost predicate NewEntries(xs: seq<Agenda>, ys: seq<Agenda>, lo: int, hi: int, admin: bool)
  {
    forall i, e :: IsNew(xs, ys, i, e) ==>
      lo <= e < hi && (if admin then IsAdminLabel(ys[i].labelOn[e]) else IsClinicalLabel(ys[i].labelOn[e]))
  }

  /** Entries are only added, targets stay, the other kind's counter stays, and points only grow. */
  ghost predicate GrowOnly(ws: seq<Workload>, xs: seq<Agenda>, vs: seq<Workload>, ys: seq<Agenda>, admin: bool)
  {
    && ExtendsAll(xs, ys)
    && LedgersGrowOnly(ws, vs, admin)
    && TotalPenalty(vs) >= TotalPenalty(ws)
  }

  /** What an allocation stage may do: add entries on [lo, hi), of its own kind, and raise its own counters. */
  ghost predicate StageEffects(ws: seq<Workload>, xs: seq<Agenda>, vs: seq<Workload>, ys: seq<Agenda>, lo: int, hi: int, admin: bool)
  {
    GrowOnly(ws, xs, vs, ys, admin) && NewEntries(xs, ys, lo, hi, admin)
  }

  /** No two shifts of one list share a label. */
  ghost predicate DistinctLabels(ss: seq<Shift>)
  {
    forall a, b :: 0 <= a < b < |ss| ==> Label(ss[a]) != Label(ss[b])
  }

  /** `name` is the label of one of the first k shifts of `ss`. */
  ghost predicate LabelAmong(ss: seq<Shift>, k: int, name: string)
  {
    exists m :: 0 <= m < k && m < |ss| && Label(ss[m]) == name
  }

  /** `e` is the day of one of the first n groups. */
  ghost predicate DayAmong(gs: seq<DayGroup>, n: int, e: int)
  {
    exists g :: 0 <= g < n && g < |gs| && gs[g].day == e
  }

  /** Groups of distinct days, holding clinical shifts only. */
  ghost predicate ClinicalGroupsOk(gs: seq<DayGroup>)
  {
    && (forall a, b :: 0 <= a < b < |gs| ==> gs[a].day != gs[b].day)
    && (forall g, k :: 0 <= g < |gs| && 0 <= k < |gs[g].shifts| ==> gs[g].shifts[k] in ClinicalShifts())
  }

  /** When the clinical stage keeps every (day, label) to one doctor: it was so before, only admin was booked, and no day lists a label twice. */
  ghost predicate UniqueSetup(xs: seq<Agenda>, gs: seq<DayGroup>)
  {
    SlotsUnique(xs) && OnlyAdmin(xs) && OnlyAdminDistinct(gs)
  }

  /**
   * The clinical stage after the first k shifts of group g: only clinical
   * entries were added, each on a finished day or on day g among its first k labels.
   */
  ghost predicate ClinicalInv(ds: seq<Doctor>, ws0: seq<Workload>, xs0: seq<Agenda>, ws: seq<Workload>, xs: seq<Agenda>,
                              gs: seq<DayGroup>, g: nat, k: nat)
  {
    && RosterOk(ds, ws, xs) && |ws0| == |ds| && |xs0| == |ds|
    && ClinicalGroupsOk(gs) && g <= |gs|
    && GrowOnly(ws0, xs0, ws, xs, false)
    && (forall i, e :: IsNew(xs0, xs, i, e) ==>
         && IsClinicalLabel(xs[i].labelOn[e])
         && (DayAmong(gs, g, e) || (g < |gs| && e == gs[g].day && LabelAmong(gs[g].shifts, k, xs[i].labelOn[e]))))
    && (UniqueSetup(xs0, gs) ==> SlotsUnique(xs))
  }

  /** At most `cap` new entries on each day of [lo, hi), and none elsewhere. */
  ghost predicate DailyCap(xs: seq<Agenda>, ys: seq<Agenda>, lo: int, hi: int, cap: nat)
  {
    forall e :: CountOn(xs, e) <= CountOn(ys, e) <= CountOn(xs, e) + (if lo <= e < hi then cap else 0)
  }

  /** Every date of the horizon, week by week and day by day. */
  method HorizonDays(start: int, weeks: nat) returns (days: seq<int>)
    ensures days == Period(start, 7 * weeks)
  {
    days := [];
    for week := 0 to weeks
      invariant days == Period(start, 7 * week)
    {
      for day := 0 to 7
        invariant days == Period(start, 7 * week + day)
      {
        days := days + [start + 7 * week + day];
      }
    }
  }

  /** Position in `avail` of the first doctor with the largest clinical deficit, the one `max` returns. */
  method FirstLargestDeficit(ws: seq<Workload>, avail: seq<nat>) returns (top: nat)
    requires |avail| > 0 && forall m :: 0 <= m < |avail| ==> avail[m] < |ws|
    ensures top < |avail|
    ensures forall m :: 0 <= m < |avail| ==> ClinicalDeficit(ws[avail[m]]) <= ClinicalDeficit(ws[avail[top]])
    ensures forall m :: 0 <= m < top ==> ClinicalDeficit(ws[avail[m]]) < ClinicalDeficit(ws[avail[top]])
    ensures top == FirstMax(ws, avail)
  {
    top := 0;
    for j := 1 to |avail|
      invariant top < j && top == FirstMax(ws, avail[..j])
      invariant forall m :: 0 <= m < j ==> ClinicalDeficit(ws[avail[m]]) <= ClinicalDeficit(ws[avail[top]])
      invariant forall m :: 0 <= m < top ==> ClinicalDeficit(ws[avail[m]]) < ClinicalDeficit(ws[avail[top]])
    {
      assert avail[..j + 1][..j] == avail[..j];
      if ClinicalDeficit(ws[avail[j]]) > ClinicalDeficit(ws[avail[top]]) {
        top := j;
      }
    }
    assert avail[..|avail|] == avail;
  }

  class Scheduler {
    const doctors: seq<Doctor>
    var workloads: seq<Workload>
    var assignments: seq<Agenda>

    ghost predicate Valid()
      reads this
    {
      RosterOk(doctors, workloads, assignments)
    }

    /** A scheduler for a roster whose doctors have distinct names; the roster position identifies a doctor. */
    constructor(ds: seq<Doctor>)
      requires DistinctNames(ds)
      ensures doctors == ds && workloads == [] && assignments == []
    {
      doctors := ds;
      workloads := [];
      assignments := [];
    }

    /** Capacity and targets for every doctor, zero counters, and empty agendas. */
    method InitializeWorkloads(weeks: nat)
      modifies this
      ensures |workloads| == |doctors| && |assignments| == |doctors|
      ensures forall i :: 0 <= i < |doctors| ==>
        workloads[i] == InitialWorkload(doctors[i].eft, weeks) && assignments[i] == Empty()
      ensures Valid()
      ensures TotalPenalty(workloads) == 0
      ensures Tables(workloads, assignments) == InitialTables(doctors, weeks)
    {
      var ws: seq<Workload> := [];
      var xs: seq<Agenda> := [];
      for i := 0 to |doctors|
        invariant |ws| == i && |xs| == i
        invariant forall j :: 0 <= j < i ==> ws[j] == InitialWorkload(doctors[j].eft, weeks) && xs[j] == Empty()
      {
        ws := ws + [InitialWorkload(doctors[i].eft, weeks)];
        xs := xs + [Empty()];
      }
      workloads := ws;
      assignments := xs;
      TotalPenaltyNonNegative(ws);
      ZeroPenaltyTotal(ws);
      LabelsOkAll(xs);
    }

    /** Records shift `s` for doctor `i` on day `d` and updates the doctor's ledger to match. */
    method AssignShift(i: nat, d: int, s: Shift)
      requires i < |workloads| && i < |assignments|
      modifies this
      ensures workloads == old(workloads)[i := Committed(old(workloads)[i], s, IsFriday(d))]
      ensures assignments == old(assignments)[i := Put(old(assignments)[i], d, Label(s))]
    {
      var name := s.site + " " + s.role + " " + s.kind;
      assignments := assignments[i := Put(assignments[i], d, name)];
      var w := workloads[i];
      w := w.(totalHours := w.totalHours + s.hours);
      w := w.(totalShifts := w.totalShifts + 1);
      w := w.(remainingHours := w.remainingHours - s.hours);
      if ContainsAdmin(name) {
        w := w.(currentAdmin := w.currentAdmin + 1);
      } else {
        w := w.(currentClinical := w.currentClinical + 1);
      }
      if s.undesirable {
        w := w.(undesirableShifts := w.undesirableShifts + 1);
      }
      var friday := IsFriday(d);
      w := w.(penaltyPoints := w.penaltyPoints + Penalty(s, friday));
      workloads := workloads[i := w];
    }

    /** The doctors free on `d`, below their admin target and with 8 hours left, largest deficit first. */
    method AdminCandidates(d: int) returns (cands: seq<Ranked>)
      requires |workloads| == |assignments|
      ensures cands == AdminRanking(workloads, assignments, d)
    {
      var avail: seq<Ranked> := [];
      for i := 0 to |workloads|
        invariant avail == AdminPairs(workloads, assignments, d, i)
      {
        var w := workloads[i];
        if d !in assignments[i].labelOn && w.currentAdmin < w.targetAdmin && w.remainingHours >= AdminTenths {
          avail := avail + [Ranked(i, w.targetAdmin - w.currentAdmin)];
        }
      }
      cands := Sort(avail, true);
    }

    /**
     * One day of admin allocation: the offered shifts, Rosebud first, go one
     * each to the ranked candidates in order, skipping labels already worked
     * that day, until `cap` shifts are placed or candidates run out.
     */
    method AllocateAdminOn(d: int, cap: nat, offers: seq<Shift>) returns (count: nat, ghost offered: seq<nat>)
      requires Valid() && AdminOffers(offers)
      modifies this
      ensures Valid()
      ensures count <= cap && |offered| == count
      ensures AdminDayInv(doctors, old(workloads), old(assignments), workloads, assignments,
                          AdminRanking(old(workloads), old(assignments), d), offers, offered, count, d, 14)
      ensures NobodyOn(old(assignments), d) ==>
        && count == Min(cap, Min(|AdminRanking(old(workloads), old(assignments), d)|, 14))
        && forall j :: 0 <= j < count ==> offered[j] == j
      ensures forall i, e :: IsNew(old(assignments), assignments, i, e) ==> e == d && IsAdminLabel(assignments[i].labelOn[e])
      ensures AdminDay(Tables(workloads, assignments), count)
           == AdminDayFrom(AdminDay(Tables(old(workloads), old(assignments)), 0), d, cap, offers, AdminRanking(old(workloads), old(assignments), d), 0)
    {
      ghost var ws0, xs0 := workloads, assignments;
      var cands := AdminCandidates(d);
      ghost var r := cands;
      var avail := cands;
      AdminRankingEligible(workloads, assignments, d);
      ghost var k';
      AdminDayStart(doctors, workloads, assignments, r, offers, d);
      count, offered, k' := OfferDay(d, cap, offers, avail, ws0, xs0, r);
      AdminDayResult(doctors, ws0, xs0, workloads, assignments, r, offers, offered, count, d, k', cap);
    }

    /** The admin stage after its first t days, each with at most `cap` new entries. */
    ghost predicate AdminSoFar(ws0: seq<Workload>, xs0: seq<Agenda>, start: int, days: seq<int>, t: nat, cap: nat, offers: seq<Shift>)
      reads this
    {
      && t <= |days|
      && Valid()
      && StageEffects(ws0, xs0, workloads, assignments, start, start + t, true)
      && DailyCap(xs0, assignments, start, start + t, cap)
      && (SlotsUnique(xs0) ==> SlotsUnique(assignments))
      && |ws0| == |xs0| && Tables(workloads, assignments) == AdminRun(Tables(ws0, xs0), days[..t], cap, offers)
    }

    /** Day `d` = start + t of the admin stage, on top of the days before it. */
    method AdminStep(d: int, start: int, days: seq<int>, t: nat, cap: nat, ghost ws0: seq<Workload>, ghost xs0: seq<Agenda>, ghost order: seq<Shift>)
      requires t < |days| && d == days[t] == start + t && order == BalancedAdmin() && AdminSoFar(ws0, xs0, start, days, t, cap, order)
      modifies this
      ensures AdminSoFar(ws0, xs0, start, days, t + 1, cap, order)
    {
      ghost var ws1, xs1 := workloads, assignments;
      var offers := AdminOfferOrder();
      var count, offered := AllocateAdminOn(d, cap, offers);
      AdminDayStage(ws0, xs0, ws1, xs1, workloads, assignments, start, t, cap, count);
      assert Tables(workloads, assignments) == AdminRun(Tables(ws0, xs0), days[..t + 1], cap, order) by {
        AdminRunNext(Tables(ws0, xs0), days, t, cap, offers, Tables(ws1, xs1), Tables(workloads, assignments), count);
      }
    }

    /**
     * Admin allocation over the whole period, day by day, with one daily cap
     * computed up front from the admin targets. An empty period fails, as the
     * cap divides by the number of days.
     */
    method AllocateAdmin(start: int, weeks: nat) returns (ok: bool)
      requires Valid()
      modifies this
      ensures ok <==> weeks > 0
      ensures !ok ==> workloads == old(workloads) && assignments == old(assignments)
      ensures Valid()
      ensures StageEffects(old(workloads), old(assignments), workloads, assignments, start, start + 7 * weeks, true)
      ensures ok ==> DailyCap(old(assignments), assignments, start, start + 7 * weeks, AdminCap(old(workloads), 7 * weeks))
      ensures SlotsUnique(old(assignments)) ==> SlotsUnique(assignments)
      ensures ok ==> Tables(workloads, assignments) == AdminRun(Tables(old(workloads), old(assignments)), Period(start, 7 * weeks), AdminCap(old(workloads), 7 * weeks), BalancedAdmin())
    {
      var days := HorizonDays(start, weeks);
      assert |days| == 7 * weeks;
      ghost var ws0, xs0 := workloads, assignments;
      StageStart(ws0, xs0, start, true);
      if |days| == 0 {
        return false;
      }
      var cap := AdminCap(workloads, |days|);
      assert days[..0] == [];
      AdminDays(start, days, cap, ws0, xs0, BalancedAdmin());
      assert days[..|days|] == days;
      ok := true;
    }

    /** The admin stage's days in order, each on top of the days before it. */
    method AdminDays(start: int, days: seq<int>, cap: nat, ghost ws0: seq<Workload>, ghost xs0: seq<Agenda>, ghost order: seq<Shift>)
      requires days == Period(start, |days|) && order == BalancedAdmin() && AdminSoFar(ws0, xs0, start, days, 0, cap, order)
      modifies this
      ensures AdminSoFar(ws0, xs0, start, days, |days|, cap, order)
    {
      for t := 0 to |days|
        invariant AdminSoFar(ws0, xs0, start, days, t, cap, order)
      {
        AdminStep(days[t], start, days, t, cap, ws0, xs0, order);
      }
      assert days[..|days|] == days;
    }

    /** The offers of one admin day in order, until `cap` of them are taken. */
    method OfferDay(d: int, cap: nat, offers: seq<Shift>, avail: seq<Ranked>,
                    ghost ws0: seq<Workload>, ghost xs0: seq<Agenda>, ghost r: seq<Ranked>)
      returns (count: nat, ghost offered: seq<nat>, ghost k': nat)
      requires avail == r && workloads == ws0 && assignments == xs0
      requires DayState(ws0, xs0, r, offers, [], 0, d, 0)
      modifies this
      ensures count <= cap && k' <= |offers| && (k' == |offers| || count >= cap)
      ensures DayState(ws0, xs0, r, offers, offered, count, d, k')
      ensures AdminDay(Tables(workloads, assignments), count) == AdminDayFrom(AdminDay(Tables(ws0, xs0), 0), d, cap, offers, r, 0)
    {
      ghost var target := AdminDayFrom(AdminDay(Tables(ws0, xs0), 0), d, cap, offers, r, 0);
      var left := avail;
      count := 0;
      offered := [];
      k' := 0;
      for k := 0 to |offers|
        invariant k' == k && count <= cap && count <= |r| && left == r[count..]
        invariant DayState(ws0, xs0, r, offers, offered, count, d, k)
        invariant AdminDayFrom(AdminDay(Tables(workloads, assignments), count), d, cap, offers, r, k) == target
      {
        if count >= cap {
          break;
        }
        left, count, offered := OfferAdmin(d, offers, k, left, count, ws0, xs0, r, offered);
        k' := k + 1;
      }
    }

    /** The doctors free on `d`, below their clinical target and with the hours of `s` left, in roster order. */
    method ClinicalCandidates(d: int, s: Shift) returns (avail: seq<nat>)
      requires |workloads| == |assignments|
      ensures avail == ClinicalPool(workloads, assignments, d, s, |workloads|)
    {
      avail := [];
      for i := 0 to |workloads|
        invariant avail == ClinicalPool(workloads, assignments, d, s, i)
      {
        if d in assignments[i].labelOn {
          continue;
        }
        var w := workloads[i];
        if w.currentClinical < w.targetClinical && w.remainingHours >= s.hours {
          avail := avail + [i];
        }
      }
    }

    /**
     * The doctor a clinical shift `s` on `d` goes to: among the doctors free that
     * day, below their clinical target and with the hours for it, the first in
     * roster order with the largest clinical deficit; None when there is none.
     */
    method BestClinicalDoctor(d: int, s: Shift) returns (best: Option<nat>)
      requires |workloads| == |assignments|
      ensures best.None? <==> forall i :: 0 <= i < |workloads| ==> !ClinicalEligible(workloads[i], assignments[i], d, s)
      ensures best.Some? ==> BestClinical(workloads, assignments, d, s, best.value)
      ensures best == BestDoctor(Tables(workloads, assignments), d, s)
    {
      var avail := ClinicalCandidates(d, s);
      if |avail| == 0 {
        assert forall i :: 0 <= i < |workloads| ==> !ClinicalEligible(workloads[i], assignments[i], d, s) by {
          forall i | 0 <= i < |workloads|
            ensures !ClinicalEligible(workloads[i], assignments[i], d, s)
          {
            assert i !in avail;
          }
        }
        return None;
      }
      assert forall m :: 0 <= m < |avail| ==> avail[m] < |workloads| by {
        assert forall m :: 0 <= m < |avail| ==> avail[m] in avail;
      }
      var top := FirstLargestDeficit(workloads, avail);
      FirstMaxIsBest(workloads, assignments, d, s, avail, top);
      best := Some(avail[top]);
    }

    /** Clinical shift k of group g goes to the best doctor for it, if any. */
    method PlaceClinical(gs: seq<DayGroup>, g: nat, k: nat, ghost ws0: seq<Workload>, ghost xs0: seq<Agenda>)
      returns (placed: Option<nat>)
      requires g < |gs| && k < |gs[g].shifts|
      requires ClinicalInv(doctors, ws0, xs0, workloads, assignments, gs, g, k)
      modifies this
      ensures ClinicalInv(doctors, ws0, xs0, workloads, assignments, gs, g, k + 1)
      ensures placed.None? ==>
        && (forall i :: 0 <= i < |doctors| ==> !ClinicalEligible(old(workloads)[i], old(assignments)[i], gs[g].day, gs[g].shifts[k]))
        && workloads == old(workloads) && assignments == old(assignments)
      ensures placed.Some? ==>
        && BestClinical(old(workloads), old(assignments), gs[g].day, gs[g].shifts[k], placed.value)
        && workloads == old(workloads)[placed.value := Committed(old(workloads)[placed.value], gs[g].shifts[k], IsFriday(gs[g].day))]
        && assignments == old(assignments)[placed.value := Put(old(assignments)[placed.value], gs[g].day, Label(gs[g].shifts[k]))]
      ensures Tables(workloads, assignments) == Placed(Tables(old(workloads), old(assignments)), gs[g].day, gs[g].shifts[k])
    {
      var d, s := gs[g].day, gs[g].shifts[k];
      placed := BestClinicalDoctor(d, s);
      if placed.Some? {
        ClinicalPickStep(doctors, ws0, xs0, workloads, assignments, gs, g, k, placed.value);
        AssignShift(placed.value, d, s);
      } else {
        ClinicalSkipStep(doctors, ws0, xs0, workloads, assignments, gs, g, k);
      }
    }

    /**
     * Clinical distribution: the pairs are grouped by day, and each day's
     * shifts, in order, go one at a time to the best doctor for them.
     */
    method DistributeClinical(slots: seq<DatedShift>)
      requires Valid()
      requires forall j :: 0 <= j < |slots| ==> slots[j].shift in ClinicalShifts()
      modifies this
      ensures Valid()
      ensures GrowOnly(old(workloads), old(assignments), workloads, assignments, false)
      ensures forall i, e :: IsNew(old(assignments), assignments, i, e) ==>
        IsClinicalLabel(assignments[i].labelOn[e]) && DayAmong(GroupsOf(slots), |GroupsOf(slots)|, e)
      ensures UniqueSetup(old(assignments), GroupsOf(slots)) ==> SlotsUnique(assignments)
      ensures Tables(workloads, assignments) == ClinicalRun(Tables(old(workloads), old(assignments)), GroupSlots(GroupsOf(slots)))
    {
      var groups := GroupByDate(slots);
      GroupsOfClinical(slots);
      ghost var ws0, xs0 := workloads, assignments;
      ghost var t0 := Tables(ws0, xs0);
      ClinicalStart(doctors, workloads, assignments, groups);
      for g := 0 to |groups|
        invariant ClinicalInv(doctors, ws0, xs0, workloads, assignments, groups, g, 0)
        invariant Tables(workloads, assignments) == ClinicalRun(t0, GroupSlots(groups[..g]))
      {
        var shifts := groups[g].shifts;
        GroupSlotsNext(groups, g);
        for k := 0 to |shifts|
          invariant ClinicalInv(doctors, ws0, xs0, workloads, assignments, groups, g, k)
          invariant Tables(workloads, assignments) == ClinicalRun(t0, GroupSlots(groups[..g]) + DayPairs(groups[g], k))
        {
          ClinicalRunPair(t0, groups, g, k);
          var placed := PlaceClinical(groups, g, k, ws0, xs0);
        }
        ClinicalNextGroup(doctors, ws0, xs0, workloads, assignments, groups, g);
      }
      assert groups[..|groups|] == groups;
    }

    /** Clinical allocation over the whole period: generate every day's clinical shifts, then distribute them. */
    method AllocateClinical(start: int, weeks: nat)
      requires Valid()
      modifies this
      ensures Valid()
      ensures StageEffects(old(workloads), old(assignments), workloads, assignments, start, start + 7 * weeks, false)
      ensures SlotsUnique(old(assignments)) && OnlyAdmin(old(assignments)) ==> SlotsUnique(assignments)
      ensures Tables(workloads, assignments) == ClinicalRun(Tables(old(workloads), old(assignments)), ClinicalPrefix(start, 77 * weeks))
    {
      var slots := GenerateClinicalShifts(start, weeks);
      PeriodSlotsClinical(start, 77 * weeks);
      DistributeClinical(slots);
      PeriodGroups(start, weeks);
      ClinicalGroups(start, weeks);
      WholeDaysSlots(start, 7 * weeks);
      assert 11 * (7 * weeks) == 77 * weeks;
    }

    /**
     * Exchanges the labels of doctor h's entry on dh and doctor l's entry on dl,
     * each doctor keeping its own dates, and moves the points read off the two
     * labels on their own dates; hours and counters stay. A label that does not
     * parse makes it do nothing.
     */
    method SwapAssignments(h: nat, dh: int, l: nat, dl: int)
      requires Valid() && h < |doctors| && l < |doctors|
      requires dh in assignments[h].labelOn && dl in assignments[l].labelOn
      modifies this
      ensures Valid()
      ensures if Parse(old(assignments)[h].labelOn[dh]).Some? && Parse(old(assignments)[l].labelOn[dl]).Some? then
          && assignments == SwappedAgendas(old(assignments), h, dh, l, dl)
          && workloads == SwappedWorkloads(old(workloads), h, EntryPenalty(old(assignments), h, dh),
                                           l, EntryPenalty(old(assignments), l, dl))
        else workloads == old(workloads) && assignments == old(assignments)
    {
      var shift1 := assignments[h].labelOn[dh];
      var shift2 := assignments[l].labelOn[dl];
      var parsed1 := Parse(shift1);
      var parsed2 := Parse(shift2);
      if parsed1.None? || parsed2.None? {
        return;
      }
      var points1 := Penalty(parsed1.value, IsFriday(dh));
      var points2 := Penalty(parsed2.value, IsFriday(dl));
      ExchangeEntries(h, dh, l, dl, points1, points2);
    }

    /** The updates of a swap: the two dictionary assignments, then the two points adjustments. */
    method ExchangeEntries(h: nat, dh: int, l: nat, dl: int, points1: int, points2: int)
      requires Valid() && h < |doctors| && l < |doctors|
      requires dh in assignments[h].labelOn && dl in assignments[l].labelOn
      modifies this
      ensures Valid()
      ensures assignments == SwappedAgendas(old(assignments), h, dh, l, dl)
      ensures workloads == SwappedWorkloads(old(workloads), h, points1, l, points2)
    {
      ghost var xs', ws' := SwappedAgendas(assignments, h, dh, l, dl), SwappedWorkloads(workloads, h, points1, l, points2);
      assert RosterOk(doctors, ws', xs') by {
        SwapKeepsRoster(doctors, workloads, assignments, h, dh, l, dl, points1, points2);
      }
      var shift1 := assignments[h].labelOn[dh];
      var shift2 := assignments[l].labelOn[dl];
      var xs, ws := assignments, workloads;
      xs := xs[h := Put(xs[h], dh, shift2)];
      xs := xs[l := Put(xs[l], dl, shift1)];
      assert xs == xs' by {
        SwappedAgendasSteps(assignments, h, dh, l, dl);
      }
      ws := ws[h := WithPoints(ws[h], ws[h].penaltyPoints - points1 + points2)];
      ws := ws[l := WithPoints(ws[l], ws[l].penaltyPoints - points2 + points1)];
      assert ws == ws' by {
        SwappedWorkloadsSteps(workloads, h, points1, l, points2);
      }
      assignments, workloads := xs, ws;
    }

    /**
     * Looks for a swap between doctors h and l: h's dates in order, for each
     * of them l's dates in order, and makes the first swappable one.
     */
    method TrySwap(h: nat, l: nat) returns (found: bool, ghost a: nat, ghost b: nat)
      requires Valid() && h < |doctors| && l < |doctors|
      modifies this
      ensures Valid()
      ensures found ==>
        && FirstSwappable(doctors, old(assignments), h, l, a, b)
        && assignments == SwappedAgendas(old(assignments), h, old(assignments)[h].dates[a], l, old(assignments)[l].dates[b])
        && workloads == SwappedWorkloads(old(workloads), h, EntryPenalty(old(assignments), h, old(assignments)[h].dates[a]),
                                         l, EntryPenalty(old(assignments), l, old(assignments)[l].dates[b]))
      ensures !found ==>
        && workloads == old(workloads) && assignments == old(assignments)
        && forall dh, dl :: dh in old(assignments)[h].labelOn && dl in old(assignments)[l].labelOn ==>
             !Swappable(doctors, old(assignments), h, dh, l, dl)
      ensures SwapOf(doctors, Tables(old(workloads), old(assignments)), h, l) == (if found then Some(Tables(workloads, assignments)) else None)
    {
      var high := assignments[h];
      var low := assignments[l];
      assert AgendaOk(high) && AgendaOk(low);
      for i := 0 to |high.dates|
        invariant workloads == old(workloads) && assignments == old(assignments)
        invariant forall i', j' :: 0 <= i' < i && 0 <= j' < |low.dates| ==>
          !Swappable(doctors, assignments, h, high.dates[i'], l, low.dates[j'])
      {
        for j := 0 to |low.dates|
          invariant workloads == old(workloads) && assignments == old(assignments)
          invariant forall i', j' :: 0 <= i' < i && 0 <= j' < |low.dates| ==>
            !Swappable(doctors, assignments, h, high.dates[i'], l, low.dates[j'])
          invariant forall j' :: 0 <= j' < j ==> !Swappable(doctors, assignments, h, high.dates[i], l, low.dates[j'])
        {
          var highDate, lowDate := high.dates[i], low.dates[j];
          assert highDate in high.dates && lowDate in low.dates;
          var highShift := Parse(high.labelOn[highDate]);
          var lowShift := Parse(low.labelOn[lowDate]);
          if highShift.None? || lowShift.None? {
            continue;
          }
          var highPoints := Penalty(highShift.value, IsFriday(highDate));
          var lowPoints := Penalty(lowShift.value, IsFriday(lowDate));
          if highPoints > lowPoints + 1
            && lowDate !in doctors[h].unavailable && highDate !in doctors[l].unavailable
          {
            assert FirstSwappable(doctors, assignments, h, l, i, j);
            SwapOfFirst(doctors, Tables(workloads, assignments), h, l, i, j);
            SwapAssignments(h, highDate, l, lowDate);
            return true, i, j;
          }
        }
      }
      found, a, b := false, 0, 0;
      forall dh, dl | dh in assignments[h].labelOn && dl in assignments[l].labelOn
        ensures !Swappable(doctors, assignments, h, dh, l, dl)
      {
        var i' :| 0 <= i' < |high.dates| && high.dates[i'] == dh;
        var j' :| 0 <= j' < |low.dates| && low.dates[j'] == dl;
      }
      SwapOfNone(doctors, Tables(workloads, assignments), h, l);
    }

    /**
     * The tough-shift rebalancer: doctors above 1.2 times the mean penalty
     * try, lowest first, a swap with each doctor below 0.8 times the mean,
     * lowest first, until the swap cap is reached.
     */
    method BalanceToughShifts() returns (swaps: nat)
      requires Valid()
      modifies this
      ensures Valid()
      ensures |doctors| < 2 ==> swaps == 0 && workloads == old(workloads) && assignments == old(assignments)
      ensures swaps <= MaxSwaps(|HighGroup(old(workloads))|)
      ensures SwapEffects(doctors, old(workloads), old(assignments), workloads, assignments,
                          DoctorsOf(HighGroup(old(workloads))), DoctorsOf(LowGroup(old(workloads))))
      ensures Rebalance(Tables(workloads, assignments), swaps) == Rebalanced(doctors, Tables(old(workloads), old(assignments)))
    {
      ghost var ws0, xs0 := workloads, assignments;
      ghost var highSet, lowSet := DoctorsOf(HighGroup(ws0)), DoctorsOf(LowGroup(ws0));
      HighLowGroups(ws0);
      SwapStart(doctors, ws0, xs0, highSet, lowSet);
      var order := PenaltyOrder(workloads);
      if |order| < 2 {
        return 0;
      }
      var total := TotalPenalty(workloads);
      var high := Group(order, true, total, |order|);
      var low := Group(order, false, total, |order|);
      assert high == HighGroup(ws0) && low == LowGroup(ws0);
      RebalancedRows(doctors, Tables(ws0, xs0));
      swaps := 0;
      var maxSwaps := MaxSwaps(|high|);
      ghost var target := BalanceRows(doctors, Rebalance(Tables(ws0, xs0), 0), high, 0, low, maxSwaps);
      for a := 0 to |high|
        invariant swaps <= maxSwaps
        invariant SwapEffects(doctors, ws0, xs0, workloads, assignments, highSet, lowSet)
        invariant BalanceRows(doctors, Rebalance(Tables(workloads, assignments), swaps), high, a, low, maxSwaps) == target
      {
        if swaps >= maxSwaps {
          BalanceRowsDone(doctors, Rebalance(Tables(workloads, assignments), swaps), high, a, low, maxSwaps);
          break;
        }
        assert high[a] in high;
        BalanceRowsNext(doctors, Rebalance(Tables(workloads, assignments), swaps), high, a, low, maxSwaps);
        swaps := TryRow(high[a].doctor, low, swaps, maxSwaps, ws0, xs0, highSet, lowSet);
      }
      BalanceRowsDone(doctors, Rebalance(Tables(workloads, assignments), swaps), high, |high|, low, maxSwaps);
    }

    /** High doctor h tried with each low doctor in turn, until `maxSwaps` swaps are made. */
    method TryRow(h: nat, low: seq<Ranked>, swaps: nat, maxSwaps: nat,
                  ghost ws0: seq<Workload>, ghost xs0: seq<Agenda>, ghost highSet: set<nat>, ghost lowSet: set<nat>)
      returns (swaps': nat)
      requires SwapEffects(doctors, ws0, xs0, workloads, assignments, highSet, lowSet) && highSet !! lowSet
      requires h in highSet && h < |doctors| && OnRosterAll(low, |doctors|) && swaps < maxSwaps
      requires forall x :: x in low ==> x.doctor in lowSet
      modifies this
      ensures SwapEffects(doctors, ws0, xs0, workloads, assignments, highSet, lowSet)
      ensures Rebalance(Tables(workloads, assignments), swaps')
           == BalanceRow(doctors, Rebalance(Tables(old(workloads), old(assignments)), swaps), h, low, 0, maxSwaps)
    {
      ghost var target := BalanceRow(doctors, Rebalance(Tables(workloads, assignments), swaps), h, low, 0, maxSwaps);
      swaps' := swaps;
      for b := 0 to |low|
        invariant swaps' <= maxSwaps
        invariant SwapEffects(doctors, ws0, xs0, workloads, assignments, highSet, lowSet)
        invariant BalanceRow(doctors, Rebalance(Tables(workloads, assignments), swaps'), h, low, b, maxSwaps) == target
      {
        if swaps' >= maxSwaps {
          BalanceRowDone(doctors, Rebalance(Tables(workloads, assignments), swaps'), h, low, b, maxSwaps);
          return;
        }
        assert low[b] in low;
        ghost var ws1, xs1, swaps1 := workloads, assignments, swaps';
        var found, i, j := TrySwap(h, low[b].doctor);
        if found {
          SwapStep(doctors, ws0, xs0, ws1, xs1, highSet, lowSet, h, i, low[b].doctor, j);
          swaps' := swaps' + 1;
        }
        TryPairGives(doctors, Rebalance(Tables(ws1, xs1), swaps1), Rebalance(Tables(workloads, assignments), swaps'), h, low[b].doctor);
        BalanceRowNext(doctors, Rebalance(Tables(ws1, xs1), swaps1), h, low, b, maxSwaps);
      }
      BalanceRowDone(doctors, Rebalance(Tables(workloads, assignments), swaps'), h, low, |low|, maxSwaps);
    }

    /**
     * The whole pipeline: ledgers and empty agendas, admin shifts, clinical
     * shifts, then the tough-shift rebalancer. An empty period fails after the
     * ledgers were set up. `beforeSwaps` is the roster before rebalancing: no
     * (day, label) worked twice; the rebalancer keeps its days and head counts.
     */
    method GenerateRoster(start: int, weeks: nat) returns (ok: bool, ghost beforeSwaps: seq<Agenda>)
      modifies this
      ensures ok <==> weeks > 0
      ensures Valid() && |workloads| == |doctors|
      ensures !ok ==> forall i :: 0 <= i < |doctors| ==>
        workloads[i] == InitialWorkload(doctors[i].eft, weeks) && assignments[i] == Empty()
      ensures ok ==> WithinPeriod(assignments, start, start + 7 * weeks)
      ensures ok ==> SlotsUnique(beforeSwaps) && SameDates(beforeSwaps, assignments)
      ensures ok ==> forall e :: CountOn(assignments, e) == CountOn(beforeSwaps, e)
      ensures !ok ==> Tables(workloads, assignments) == InitialTables(doctors, weeks)
      ensures ok ==> RosterOk(doctors, Staged(doctors, start, weeks).ws, Staged(doctors, start, weeks).xs)
      ensures ok ==> beforeSwaps == Staged(doctors, start, weeks).xs
      ensures ok ==> Tables(workloads, assignments) == Rebalanced(doctors, Staged(doctors, start, weeks)).t
    {
      InitializeWorkloads(weeks);
      ghost var xs0 := assignments;
      beforeSwaps := assignments;
      ok := AllocateAdmin(start, weeks);
      if !ok {
        return;
      }
      ghost var xs1 := assignments;
      EmptyStart(xs0, start, start + 7 * weeks);
      StageWithin(xs0, xs1, start, start + 7 * weeks, true);
      AllocateClinical(start, weeks);
      assert Tables(workloads, assignments) == Staged(doctors, start, weeks);
      beforeSwaps := assignments;
      StageWithin(xs1, beforeSwaps, start, start + 7 * weeks, false);
      var swaps := BalanceToughShifts();
      SameDatesWithin(beforeSwaps, assignments, start, start + 7 * weeks);
    }

    /** The roster after the first k offers of an admin day. */
    ghost predicate DayState(ws0: seq<Workload>, xs0: seq<Agenda>, r: seq<Ranked>, offers: seq<Shift>,
                             offered: seq<nat>, count: nat, d: int, k: nat)
      reads this
    {
      && Valid() && EligibleRanking(ws0, xs0, r, d) && AdminOffers(offers)
      && OnRoster(Tables(workloads, assignments), r)
      && AdminDayInv(doctors, ws0, xs0, workloads, assignments, r, offers, offered, count, d, k)
      && DayFresh(xs0, r, offered, count, d, k)
    }

    /**
     * Offer k of an admin day: the first remaining candidate takes it when its
     * label is still free that day; otherwise it is skipped.
     */
    method OfferAdmin(d: int, offers: seq<Shift>, k: nat, avail: seq<Ranked>, count: nat,
                      ghost ws0: seq<Workload>, ghost xs0: seq<Agenda>, ghost r: seq<Ranked>, ghost offered: seq<nat>)
      returns (rest: seq<Ranked>, count': nat, ghost offered': seq<nat>)
      requires k < |offers| && count <= |r| && avail == r[count..]
      requires DayState(ws0, xs0, r, offers, offered, count, d, k)
      modifies this
      ensures count' <= count + 1 && count' <= |r| && rest == r[count'..]
      ensures DayState(ws0, xs0, r, offers, offered', count', d, k + 1)
      ensures AdminDay(Tables(workloads, assignments), count') == OfferStep(AdminDay(Tables(old(workloads), old(assignments)), count), d, offers[k], r)
    {
      var s := offers[k];
      var name := s.site + " " + s.role + " " + s.kind;
      var taken := SlotTaken(assignments, d, name);
      if !taken && |avail| > 0 {
        var i := avail[0].doctor;
        assert i == r[count].doctor && avail[1..] == r[count + 1..];
        rest := avail[1..];
        AdminPickStep(doctors, ws0, xs0, workloads, assignments, r, offers, offered, count, d, k);
        AssignShift(i, d, s);
        count' := count + 1;
        offered' := offered + [k];
      } else {
        AdminSkipStep(doctors, ws0, xs0, workloads, assignments, r, offers, offered, count, d, k);
        rest, count', offered' := avail, count, offered;
      }
    }
  }

  /**
   * What the rebalancer may do: relabel the entries of high and low doctors
   * (never anyone else's), keeping every doctor's days, every day's head count,
   * every ledger except its points, and the points total; high doctors only
   * lose points and low doctors only gain them.
   */
  ghost predicate SwapEffects(ds: seq<Doctor>, ws0: seq<Workload>, xs0: seq<Agenda>, ws: seq<Workload>, xs: seq<Agenda>,
                              high: set<nat>, low: set<nat>)
  {
    && RosterOk(ds, ws, xs) && |ws0| == |ds| && |xs0| == |ds|
    && AgendasRelabelled(xs0, xs, high, low)
    && PointsMoved(ws0, ws, high, low)
  }

  /** The same days and head counts, and only the agendas of high and low doctors touched. */
  ghost predicate AgendasRelabelled(xs0: seq<Agenda>, xs: seq<Agenda>, high: set<nat>, low: set<nat>)
  {
    && SameDates(xs0, xs)
    && (forall e :: CountOn(xs, e) == CountOn(xs0, e))
    && (forall i: nat :: i < |xs| && i !in high && i !in low ==> xs[i] == xs0[i])
  }

  /** Only points changed, the total kept, high doctors losing and low doctors gaining. */
  ghost predicate PointsMoved(ws0: seq<Workload>, ws: seq<Workload>, high: set<nat>, low: set<nat>)
  {
    && |ws| == |ws0|
    && TotalPenalty(ws) == TotalPenalty(ws0)
    && (forall i :: 0 <= i < |ws| ==> ws[i] == WithPoints(ws0[i], ws[i].penaltyPoints))
    && (forall i: nat :: i < |ws| && i !in high && i !in low ==> ws[i] == ws0[i])
    && (forall i: nat :: i < |ws| && i in high ==> ws[i].penaltyPoints <= ws0[i].penaltyPoints)
    && (forall i: nat :: i < |ws| && i in low ==> ws[i].penaltyPoints >= ws0[i].penaltyPoints)
  }

  /** The rebalancer before its first swap. */
  lemma {:induction false} SwapStart(ds: seq<Doctor>, ws: seq<Workload>, xs: seq<Agenda>, high: set<nat>, low: set<nat>)
    requires RosterOk(ds, ws, xs)
    ensures SwapEffects(ds, ws, xs, ws, xs, high, low)
  {
    assert forall i :: 0 <= i < |ws| ==> ws[i] == WithPoints(ws[i], ws[i].penaltyPoints);
  }

  /**
   * A swap of a high doctor's entry for a low doctor's entry, the first worth
   * more than one point more, keeps the rebalancer's effects.
   */
  lemma {:induction false} SwapStep(ds: seq<Doctor>, ws0: seq<Workload>, xs0: seq<Agenda>, ws: seq<Workload>, xs: seq<Agenda>,
                 high: set<nat>, low: set<nat>, h: nat, a: nat, l: nat, b: nat)
    requires SwapEffects(ds, ws0, xs0, ws, xs, high, low) && high !! low && h in high && l in low
    requires h < |xs| && l < |xs| && FirstSwappable(ds, xs, h, l, a, b)
    ensures var dh, dl := xs[h].dates[a], xs[l].dates[b];
      SwapEffects(ds, ws0, xs0,
                  SwappedWorkloads(ws, h, EntryPenalty(xs, h, dh), l, EntryPenalty(xs, l, dl)),
                  SwappedAgendas(xs, h, dh, l, dl), high, low)
  {
    var dh, dl := xs[h].dates[a], xs[l].dates[b];
    var p1, p2 := EntryPenalty(xs, h, dh), EntryPenalty(xs, l, dl);
    SwapKeepsRoster(ds, ws, xs, h, dh, l, dl, p1, p2);
    SwapRelabels(xs0, xs, high, low, h, dh, l, dl);
    SwapMovesPoints(ws0, ws, h, p1, l, p2, high, low);
  }

  /** Swapping two entries of high and low doctors keeps the agendas relabelled only. */
  lemma {:induction false} SwapRelabels(xs0: seq<Agenda>, xs: seq<Agenda>, high: set<nat>, low: set<nat>, h: nat, dh: int, l: nat, dl: int)
    requires AgendasRelabelled(xs0, xs, high, low) && h in high && l in low
    requires h < |xs| && l < |xs| && dh in xs[h].labelOn && dl in xs[l].labelOn && AgendaOk(xs[h]) && AgendaOk(xs[l])
    ensures AgendasRelabelled(xs0, SwappedAgendas(xs, h, dh, l, dl), high, low)
  {
    var xs' := SwappedAgendas(xs, h, dh, l, dl);
    SwapKeepsCounts(xs, h, dh, l, dl);
    forall i: nat | i < |xs| && i !in high && i !in low
      ensures xs'[i] == xs0[i]
    {
      SwapLeavesOthers(xs, h, dh, l, dl, i);
    }
  }

  /** The points move from the high doctor to the low one, and no other ledger changes. */
  lemma {:induction false} SwapMovesPoints(ws0: seq<Workload>, ws: seq<Workload>, h: nat, p1: int, l: nat, p2: int, high: set<nat>, low: set<nat>)
    requires PointsMoved(ws0, ws, high, low) && h < |ws| && l < |ws| && p1 > p2 + 1 && h in high && l in low && high !! low
    ensures PointsMoved(ws0, SwappedWorkloads(ws, h, p1, l, p2), high, low)
  {
  }

  /** Every entry lies on a day of [lo, hi). */
  ghost predicate WithinPeriod(xs: seq<Agenda>, lo: int, hi: int)
  {
    forall i, e :: 0 <= i < |xs| && e in xs[i].labelOn ==> lo <= e < hi
  }

  /** Empty agendas: no entry, no clash, nothing but admin. */
  lemma {:induction false} EmptyStart(xs: seq<Agenda>, lo: int, hi: int)
    requires forall i :: 0 <= i < |xs| ==> xs[i] == Empty()
    ensures WithinPeriod(xs, lo, hi) && SlotsUnique(xs) && OnlyAdmin(xs)
  {
  }

  /** A stage over [lo, hi) keeps a roster inside [lo, hi). */
  lemma {:induction false} StageWithin(xs: seq<Agenda>, ys: seq<Agenda>, lo: int, hi: int, admin: bool)
    requires WithinPeriod(xs, lo, hi) && ExtendsAll(xs, ys) && NewEntries(xs, ys, lo, hi, admin)
    ensures WithinPeriod(ys, lo, hi)
    ensures admin && OnlyAdmin(xs) ==> OnlyAdmin(ys)
  {
  }

  /** Relabelling that keeps every doctor's days keeps the roster inside its period. */
  lemma {:induction false} SameDatesWithin(xs: seq<Agenda>, ys: seq<Agenda>, lo: int, hi: int)
    requires WithinPeriod(xs, lo, hi) && SameDates(xs, ys)
    requires forall i :: 0 <= i < |xs| ==> AgendaOk(xs[i]) && AgendaOk(ys[i])
    ensures WithinPeriod(ys, lo, hi)
  {
  }

  /** A stage that has done nothing yet. */
  lemma {:induction false} StageStart(ws: seq<Workload>, xs: seq<Agenda>, lo: int, admin: bool)
    ensures StageEffects(ws, xs, ws, xs, lo, lo, admin) && DailyCap(xs, xs, lo, lo, 0)
  {
    forall i | 0 <= i < |xs|
      ensures Extends(xs[i], xs[i])
    {
      assert xs[i].dates[..|xs[i].dates|] == xs[i].dates;
    }
    LedgersGrowOnlyRefl(ws, admin);
  }

  lemma {:induction false} LedgersGrowOnlyRefl(ws: seq<Workload>, admin: bool)
    ensures LedgersGrowOnly(ws, ws, admin)
  {
  }

  /** Two stretches of a stage make one. */
  lemma {:induction false} StageCompose(ws0: seq<Workload>, xs0: seq<Agenda>, ws1: seq<Workload>, xs1: seq<Agenda>, ws2: seq<Workload>, xs2: seq<Agenda>,
                     lo: int, mid: int, hi: int, admin: bool)
    requires lo <= mid <= hi
    requires StageEffects(ws0, xs0, ws1, xs1, lo, mid, admin) && StageEffects(ws1, xs1, ws2, xs2, mid, hi, admin)
    ensures StageEffects(ws0, xs0, ws2, xs2, lo, hi, admin)
  {
    ExtendsAllTransitive(xs0, xs1, xs2);
    forall i, e | IsNew(xs0, xs2, i, e)
      ensures lo <= e < hi && (if admin then IsAdminLabel(xs2[i].labelOn[e]) else IsClinicalLabel(xs2[i].labelOn[e]))
    {
      if e in xs1[i].labelOn {
        assert IsNew(xs0, xs1, i, e);
        assert Extends(xs1[i], xs2[i]);
      } else {
        assert IsNew(xs1, xs2, i, e);
      }
    }
  }

  /** Day start + t of the admin stage, added to the days before it. */
  lemma {:induction false} AdminDayStage(ws0: seq<Workload>, xs0: seq<Agenda>, ws1: seq<Workload>, xs1: seq<Agenda>, ws2: seq<Workload>, xs2: seq<Agenda>,
                      start: int, t: nat, cap: nat, count: nat)
    requires StageEffects(ws0, xs0, ws1, xs1, start, start + t, true) && DailyCap(xs0, xs1, start, start + t, cap)
    requires DayEffects(ws1, xs1, ws2, xs2, count, start + t) && count <= cap
    requires forall i, e :: IsNew(xs1, xs2, i, e) ==> e == start + t && IsAdminLabel(xs2[i].labelOn[e])
    ensures StageEffects(ws0, xs0, ws2, xs2, start, start + t + 1, true) && DailyCap(xs0, xs2, start, start + t + 1, cap)
    ensures (SlotsUnique(xs0) ==> SlotsUnique(xs1)) ==> SlotsUnique(xs0) ==> SlotsUnique(xs2)
  {
    assert StageEffects(ws1, xs1, ws2, xs2, start + t, start + t + 1, true);
    StageCompose(ws0, xs0, ws1, xs1, ws2, xs2, start, start + t, start + t + 1, true);
  }

  /** The groups of clinical pairs hold clinical shifts, one group per day. */
  lemma {:induction false} GroupsOfClinical(slots: seq<DatedShift>)
    requires forall j :: 0 <= j < |slots| ==> slots[j].shift in ClinicalShifts()
    ensures ClinicalGroupsOk(GroupsOf(slots))
  {
    assert forall x :: x in slots ==> x.shift in ClinicalShifts();
    GroupsOfFrom(slots);
    GroupsOfDistinctDays(slots);
  }

  lemma {:induction false} GroupsOfDistinctDays(xs: seq<DatedShift>)
    ensures forall a, b :: 0 <= a < b < |GroupsOf(xs)| ==> GroupsOf(xs)[a].day != GroupsOf(xs)[b].day
    decreases |xs|
  {
    if |xs| > 0 {
      GroupsOfDistinctDays(xs[..|xs| - 1]);
    }
  }

  /** Every pair of the period holds a clinical shift. */
  lemma {:induction false} PeriodSlotsClinical(start: int, n: nat)
    ensures forall j :: 0 <= j < |ClinicalPrefix(start, n)| ==> ClinicalPrefix(start, n)[j].shift in ClinicalShifts()
  {
    CatalogShape();
  }

  /** The period's groups: the days start .. start + 7 weeks - 1, each listing the eleven distinct clinical labels. */
  lemma {:induction false} PeriodGroups(start: int, weeks: nat)
    ensures forall e :: (DayAmong(GroupsOf(ClinicalPrefix(start, 77 * weeks)), |GroupsOf(ClinicalPrefix(start, 77 * weeks))|, e)
      ==> start <= e < start + 7 * weeks)
    ensures OnlyAdminDistinct(GroupsOf(ClinicalPrefix(start, 77 * weeks)))
  {
    ClinicalGroups(start, weeks);
    var gs := WholeDays(start, 7 * weeks);
    ClinicalLabelsDistinct();
    forall e | DayAmong(gs, |gs|, e)
      ensures start <= e < start + 7 * weeks
    {
      var g :| 0 <= g < |gs| && gs[g].day == e;
    }
  }

  /** Every group lists distinct labels. */
  ghost predicate OnlyAdminDistinct(gs: seq<DayGroup>)
  {
    forall g :: 0 <= g < |gs| ==> DistinctLabels(gs[g].shifts)
  }

  lemma {:induction false} ClinicalLabelsDistinct()
    ensures DistinctLabels(ClinicalShifts())
  {
    CatalogShape();
    forall a, b | 0 <= a < b < |ClinicalShifts()|
      ensures Label(ClinicalShifts()[a]) != Label(ClinicalShifts()[b])
    {
      assert ClinicalShifts()[a] == AllShifts()[a] && ClinicalShifts()[b] == AllShifts()[b];
      if Label(AllShifts()[a]) == Label(AllShifts()[b]) {
        CatalogLabelsDistinct(a, b);
      }
    }
  }

  /** Clinical distribution before its first group. */
  lemma {:induction false} ClinicalStart(ds: seq<Doctor>, ws: seq<Workload>, xs: seq<Agenda>, gs: seq<DayGroup>)
    requires RosterOk(ds, ws, xs) && ClinicalGroupsOk(gs)
    ensures ClinicalInv(ds, ws, xs, ws, xs, gs, 0, 0)
  {
    StageStart(ws, xs, 0, false);
  }

  /** A slot nobody can take changes nothing. */
  lemma {:induction false} ClinicalSkipStep(ds: seq<Doctor>, ws0: seq<Workload>, xs0: seq<Agenda>, ws: seq<Workload>, xs: seq<Agenda>,
                         gs: seq<DayGroup>, g: nat, k: nat)
    requires ClinicalInv(ds, ws0, xs0, ws, xs, gs, g, k) && g < |gs| && k < |gs[g].shifts|
    ensures ClinicalInv(ds, ws0, xs0, ws, xs, gs, g, k + 1)
  {
    forall i, e | IsNew(xs0, xs, i, e) && g < |gs| && e == gs[g].day && LabelAmong(gs[g].shifts, k, xs[i].labelOn[e])
      ensures LabelAmong(gs[g].shifts, k + 1, xs[i].labelOn[e])
    {
      var m :| 0 <= m < k && m < |gs[g].shifts| && Label(gs[g].shifts[m]) == xs[i].labelOn[e];
    }
  }

  /** A finished group's day joins the finished days. */
  lemma {:induction false} ClinicalNextGroup(ds: seq<Doctor>, ws0: seq<Workload>, xs0: seq<Agenda>, ws: seq<Workload>, xs: seq<Agenda>,
                          gs: seq<DayGroup>, g: nat)
    requires g < |gs| && ClinicalInv(ds, ws0, xs0, ws, xs, gs, g, |gs[g].shifts|)
    ensures ClinicalInv(ds, ws0, xs0, ws, xs, gs, g + 1, 0)
  {
    forall i, e | IsNew(xs0, xs, i, e)
      ensures DayAmong(gs, g + 1, e)
    {
      if !DayAmong(gs, g, e) {
        assert e == gs[g].day;
      } else {
        var h :| 0 <= h < g && h < |gs| && gs[h].day == e;
      }
    }
  }

  /** Shift k of group g goes to doctor b, who is eligible for it. */
  lemma {:induction false} ClinicalPickStep(ds: seq<Doctor>, ws0: seq<Workload>, xs0: seq<Agenda>, ws: seq<Workload>, xs: seq<Agenda>,
                         gs: seq<DayGroup>, g: nat, k: nat, b: nat)
    requires ClinicalInv(ds, ws0, xs0, ws, xs, gs, g, k) && g < |gs| && k < |gs[g].shifts|
    requires b < |ds| && ClinicalEligible(ws[b], xs[b], gs[g].day, gs[g].shifts[k])
    ensures ClinicalInv(ds, ws0, xs0, ws[b := Committed(ws[b], gs[g].shifts[k], IsFriday(gs[g].day))],
                        xs[b := Put(xs[b], gs[g].day, Label(gs[g].shifts[k]))], gs, g, k + 1)
  {
    var d, s := gs[g].day, gs[g].shifts[k];
    ClinicalShiftFacts(s);
    ClinicalPickGrows(ds, ws0, xs0, ws, xs, b, d, s);
    ClinicalPickNew(ds, ws0, xs0, ws, xs, gs, g, k, b);
    if UniqueSetup(xs0, gs) {
      ClinicalSlotFree(ds, ws0, xs0, ws, xs, gs, g, k);
      PutKeepsUnique(xs, b, d, Label(s));
    }
  }

  /** Committing a clinical shift keeps the roster invariant and only grows the clinical side. */
  lemma {:induction false} ClinicalPickGrows(ds: seq<Doctor>, ws0: seq<Workload>, xs0: seq<Agenda>, ws: seq<Workload>, xs: seq<Agenda>,
                          b: nat, d: int, s: Shift)
    requires RosterOk(ds, ws, xs) && |ws0| == |ds| && |xs0| == |ds| && GrowOnly(ws0, xs0, ws, xs, false)
    requires s in AllShifts() && s.kind != "Admin" && !ContainsAdmin(Label(s))
    requires b < |ds| && ClinicalEligible(ws[b], xs[b], d, s)
    ensures var ws', xs' := ws[b := Committed(ws[b], s, IsFriday(d))], xs[b := Put(xs[b], d, Label(s))];
      RosterOk(ds, ws', xs') && GrowOnly(ws0, xs0, ws', xs', false)
  {
    var ws', xs' := ws[b := Committed(ws[b], s, IsFriday(d))], xs[b := Put(xs[b], d, Label(s))];
    assert RosterOk(ds, ws', xs') && TotalPenalty(ws') >= TotalPenalty(ws) by {
      CommitKeepsRoster(ds, ws, xs, b, d, s);
    }
    assert ExtendsAll(xs0, xs') by {
      PutNewExtends(xs[b], d, Label(s));
      ExtendsTransitive(xs0[b], xs[b], xs'[b]);
    }
    assert LedgersGrowOnly(ws0, ws', false) by {
      CommitGrowsOnly(ws0, ws, b, s, IsFriday(d), false);
    }
  }

  /** The new entry is clinical, on day g, with the label of shift k. */
  lemma {:induction false} ClinicalPickNew(ds: seq<Doctor>, ws0: seq<Workload>, xs0: seq<Agenda>, ws: seq<Workload>, xs: seq<Agenda>,
                        gs: seq<DayGroup>, g: nat, k: nat, b: nat)
    requires ClinicalInv(ds, ws0, xs0, ws, xs, gs, g, k) && g < |gs| && k < |gs[g].shifts|
    requires b < |ds| && IsClinicalLabel(Label(gs[g].shifts[k]))
    ensures var xs' := xs[b := Put(xs[b], gs[g].day, Label(gs[g].shifts[k]))];
      forall i, e :: IsNew(xs0, xs', i, e) ==>
        && IsClinicalLabel(xs'[i].labelOn[e])
        && (DayAmong(gs, g, e) || (g < |gs| && e == gs[g].day && LabelAmong(gs[g].shifts, k + 1, xs'[i].labelOn[e])))
  {
    var d, s := gs[g].day, gs[g].shifts[k];
    var xs' := xs[b := Put(xs[b], d, Label(s))];
    ClinicalSkipStep(ds, ws0, xs0, ws, xs, gs, g, k);
    forall i, e | IsNew(xs0, xs', i, e)
      ensures IsClinicalLabel(xs'[i].labelOn[e])
      ensures DayAmong(gs, g, e) || (e == d && LabelAmong(gs[g].shifts, k + 1, xs'[i].labelOn[e]))
    {
      if i == b && e == d {
        assert Label(gs[g].shifts[k]) == xs'[i].labelOn[e];
      } else {
        assert IsNew(xs0, xs, i, e);
      }
    }
  }

  /** A clinical shift of the catalog: an 10-hour AM or PM shift with a clinical label. */
  lemma {:induction false} ClinicalShiftFacts(s: Shift)
    requires s in ClinicalShifts()
    ensures s in AllShifts() && s.kind != "Admin" && !ContainsAdmin(Label(s)) && IsClinicalLabel(Label(s))
  {
    CatalogShape();
    CatalogAdminLabels();
    var m :| 0 <= m < |ClinicalShifts()| && ClinicalShifts()[m] == s;
    assert AllShifts()[m] == s;
    CatalogLabelKinds(m);
  }

  /** Under the uniqueness setup, nobody works the label of shift k of group g on its day yet. */
  lemma {:induction false} ClinicalSlotFree(ds: seq<Doctor>, ws0: seq<Workload>, xs0: seq<Agenda>, ws: seq<Workload>, xs: seq<Agenda>,
                         gs: seq<DayGroup>, g: nat, k: nat)
    requires ClinicalInv(ds, ws0, xs0, ws, xs, gs, g, k) && g < |gs| && k < |gs[g].shifts| && UniqueSetup(xs0, gs)
    ensures !SlotTaken(xs, gs[g].day, Label(gs[g].shifts[k]))
  {
    var d, s := gs[g].day, gs[g].shifts[k];
    ClinicalShiftFacts(s);
    forall i | 0 <= i < |xs| && d in xs[i].labelOn
      ensures xs[i].labelOn[d] != Label(s)
    {
      if d in xs0[i].labelOn {
        assert Extends(xs0[i], xs[i]);
        assert IsAdminLabel(xs0[i].labelOn[d]);
      } else {
        assert IsNew(xs0, xs, i, d);
        assert forall h :: 0 <= h < g ==> gs[h].day != d;
        var m :| 0 <= m < k && m < |gs[g].shifts| && Label(gs[g].shifts[m]) == xs[i].labelOn[d];
        assert DistinctLabels(gs[g].shifts);
      }
    }
  }

  /** Doctor i went from (ws0, xs0) to (ws, xs) by taking shift s on day d. */
  ghost predicate TookShift(ws0: seq<Workload>, xs0: seq<Agenda>, ws: seq<Workload>, xs: seq<Agenda>, i: int, s: Shift, d: int)
  {
    && 0 <= i < |ws0| && i < |xs0| && i < |ws| && i < |xs|
    && ws[i] == Committed(ws0[i], s, IsFriday(d))
    && xs[i] == Put(xs0[i], d, Label(s))
  }

  /** Fourteen distinct admin shifts of the catalog, 8 hours each. */
  ghost predicate AdminOffers(offers: seq<Shift>)
  {
    && |offers| == 14
    && (forall j :: 0 <= j < 14 ==>
         offers[j] in AllShifts() && offers[j].kind == "Admin" && offers[j].hours == AdminTenths
         && IsAdminLabel(Label(offers[j])))
    && (forall j, k :: 0 <= j < 14 && 0 <= k < 14 && j != k ==> Label(offers[j]) != Label(offers[k]))
  }

  /** The admin shifts in the order they are offered each day: Rosebud's two, then Frankston's twelve. */
  method AdminOfferOrder() returns (offers: seq<Shift>)
    ensures AdminOffers(offers)
    ensures forall j :: 0 <= j < |offers| ==> (offers[j].site == "Rosebud" <==> j < 2)
    ensures forall j :: 2 <= j < |offers| ==> offers[j].site == "Frankston"
    ensures offers == BalancedAdmin()
  {
    offers := AtSite(NonClinicalShifts(), "Rosebud") + AtSite(NonClinicalShifts(), "Frankston");
    BalancedAdminBySite();
    BalancedAdminFacts();
    assert "Rosebud" != "Frankston";
  }

  /** Distinct doctors, each admin-eligible on `d` at the start of the day. */
  ghost predicate EligibleRanking(ws0: seq<Workload>, xs0: seq<Agenda>, r: seq<Ranked>, d: int)
  {
    && DistinctDoctors(r)
    && forall j :: 0 <= j < |r| ==>
      r[j].doctor < |ws0| && r[j].doctor < |xs0| && AdminEligible(ws0[r[j].doctor], xs0[r[j].doctor], d)
  }

  lemma {:induction false} AdminRankingEligible(ws0: seq<Workload>, xs0: seq<Agenda>, d: int)
    requires |ws0| == |xs0|
    ensures EligibleRanking(ws0, xs0, AdminRanking(ws0, xs0, d), d)
  {
    var r := AdminRanking(ws0, xs0, d);
    forall j | 0 <= j < |r|
      ensures r[j].doctor < |ws0| && AdminEligible(ws0[r[j].doctor], xs0[r[j].doctor], d)
    {
      assert r[j] in r;
    }
  }

  /**
   * Who took what after the first k offers of a day: the first `count` ranked
   * candidates took, in order, the offers listed in `offered`; nobody else changed.
   */
  ghost predicate DayRecord(ds: seq<Doctor>, ws0: seq<Workload>, xs0: seq<Agenda>, ws: seq<Workload>, xs: seq<Agenda>,
                            r: seq<Ranked>, offers: seq<Shift>, offered: seq<nat>, count: nat, d: int, k: nat)
  {
    && |ws0| == |ds| && |xs0| == |ds| && |ws| == |ds| && |xs| == |ds| && |offers| == 14
    && count <= |r| && |offered| == count && count <= k <= 14
    && (forall j :: 0 <= j < count ==> offered[j] < k)
    && (forall a, b :: 0 <= a < b < count ==> offered[a] < offered[b])
    && (forall j :: 0 <= j < count ==> TookShift(ws0, xs0, ws, xs, r[j].doctor, offers[offered[j]], d))
    && (forall i :: 0 <= i < |ds| && (forall j :: 0 <= j < count ==> r[j].doctor != i) ==> ws[i] == ws0[i] && xs[i] == xs0[i])
  }

  /** On a day nobody had worked, offers go out in order until the candidates run out. */
  ghost predicate DayFresh(xs0: seq<Agenda>, r: seq<Ranked>, offered: seq<nat>, count: nat, d: int, k: nat)
  {
    NobodyOn(xs0, d) ==> (count == k || count == |r|) && |offered| == count && forall j :: 0 <= j < count ==> offered[j] == j
  }

  /** What `count` admin shifts placed on day d did to the roster as a whole. */
  ghost predicate DayEffects(ws0: seq<Workload>, xs0: seq<Agenda>, ws: seq<Workload>, xs: seq<Agenda>, count: nat, d: int)
  {
    && ExtendsAll(xs0, xs)
    && (forall e :: CountOn(xs, e) == CountOn(xs0, e) + (if e == d then count else 0))
    && (SlotsUnique(xs0) ==> SlotsUnique(xs))
    && LedgersGrowOnly(ws0, ws, true)
    && TotalPenalty(ws) >= TotalPenalty(ws0)
  }

  /** The state of one admin day after the first k offers. */
  ghost predicate AdminDayInv(ds: seq<Doctor>, ws0: seq<Workload>, xs0: seq<Agenda>, ws: seq<Workload>, xs: seq<Agenda>,
                              r: seq<Ranked>, offers: seq<Shift>, offered: seq<nat>, count: nat, d: int, k: nat)
  {
    DayRecord(ds, ws0, xs0, ws, xs, r, offers, offered, count, d, k) && DayEffects(ws0, xs0, ws, xs, count, d)
  }

  /** Before any offer, nothing has changed. */
  lemma {:induction false} AdminDayStart(ds: seq<Doctor>, ws: seq<Workload>, xs: seq<Agenda>, r: seq<Ranked>, offers: seq<Shift>, d: int)
    requires RosterOk(ds, ws, xs) && |offers| == 14
    ensures AdminDayInv(ds, ws, xs, ws, xs, r, offers, [], 0, d, 0) && DayFresh(xs, r, [], 0, d, 0)
  {
    forall i | 0 <= i < |xs|
      ensures Extends(xs[i], xs[i])
    {
      assert xs[i].dates[..|xs[i].dates|] == xs[i].dates;
    }
  }

  /** One more admin shift s for an eligible doctor i, on a label free that day. */
  lemma {:induction false} PickEffects(ds: seq<Doctor>, ws0: seq<Workload>, xs0: seq<Agenda>, ws: seq<Workload>, xs: seq<Agenda>,
                    count: nat, d: int, i: int, s: Shift)
    requires RosterOk(ds, ws, xs) && DayEffects(ws0, xs0, ws, xs, count, d) && |ws0| == |ws| && |xs0| == |xs|
    requires 0 <= i < |ds| && AdminEligible(ws[i], xs[i], d)
    requires s in AllShifts() && s.kind == "Admin" && s.hours == AdminTenths
    requires !SlotTaken(xs, d, Label(s))
    ensures var ws', xs' := ws[i := Committed(ws[i], s, IsFriday(d))], xs[i := Put(xs[i], d, Label(s))];
      RosterOk(ds, ws', xs') && DayEffects(ws0, xs0, ws', xs', count + 1, d)
  {
    var ws', xs' := ws[i := Committed(ws[i], s, IsFriday(d))], xs[i := Put(xs[i], d, Label(s))];
    assert RosterOk(ds, ws', xs') && TotalPenalty(ws') >= TotalPenalty(ws) by {
      CommitKeepsRoster(ds, ws, xs, i, d, s);
    }
    assert ExtendsAll(xs0, xs') && (forall e :: CountOn(xs', e) == CountOn(xs0, e) + (if e == d then count + 1 else 0))
      && (SlotsUnique(xs0) ==> SlotsUnique(xs')) by {
      PickAgendaEffects(xs0, xs, count, d, i, Label(s));
    }
    assert LedgersGrowOnly(ws0, ws', true) by {
      CatalogAdminLabels();
      CommitGrowsOnly(ws0, ws, i, s, IsFriday(d), true);
    }
  }

  /** A new entry on day d, on a label free that day, for a doctor free that day. */
  lemma {:induction false} PickAgendaEffects(xs0: seq<Agenda>, xs: seq<Agenda>, count: nat, d: int, i: int, name: string)
    requires ExtendsAll(xs0, xs) && (forall e :: CountOn(xs, e) == CountOn(xs0, e) + (if e == d then count else 0))
    requires SlotsUnique(xs0) ==> SlotsUnique(xs)
    requires 0 <= i < |xs| && d !in xs[i].labelOn && !SlotTaken(xs, d, name)
    ensures ExtendsAll(xs0, xs[i := Put(xs[i], d, name)])
    ensures forall e :: CountOn(xs[i := Put(xs[i], d, name)], e) == CountOn(xs0, e) + (if e == d then count + 1 else 0)
    ensures SlotsUnique(xs0) ==> SlotsUnique(xs[i := Put(xs[i], d, name)])
  {
    var xs' := xs[i := Put(xs[i], d, name)];
    if SlotsUnique(xs0) {
      PutKeepsUnique(xs, i, d, name);
    }
    forall e
      ensures CountOn(xs', e) == CountOn(xs0, e) + (if e == d then count + 1 else 0)
    {
      CountOnPut(xs, i, d, name, e);
    }
    PutNewExtends(xs[i], d, name);
    ExtendsTransitive(xs0[i], xs[i], xs'[i]);
  }

  /** Committing a shift of the allocator's kind leaves targets, capacity and the other counter alone. */
  lemma {:induction false} CommitGrowsOnly(ws0: seq<Workload>, ws: seq<Workload>, i: int, s: Shift, friday: bool, admin: bool)
    requires LedgersGrowOnly(ws0, ws, admin) && 0 <= i < |ws|
    requires ContainsAdmin(Label(s)) == admin
    ensures LedgersGrowOnly(ws0, ws[i := Committed(ws[i], s, friday)], admin)
  {
  }

  /** The record after offer k went to the next ranked candidate. */
  lemma {:induction false} PickRecord(ds: seq<Doctor>, ws0: seq<Workload>, xs0: seq<Agenda>, ws: seq<Workload>, xs: seq<Agenda>,
                   r: seq<Ranked>, offers: seq<Shift>, offered: seq<nat>, count: nat, d: int, k: nat)
    requires DayRecord(ds, ws0, xs0, ws, xs, r, offers, offered, count, d, k)
    requires DistinctDoctors(r) && k < 14 && count < |r| && r[count].doctor < |ds|
    ensures var i := r[count].doctor;
      var ws', xs' := ws[i := Committed(ws[i], offers[k], IsFriday(d))], xs[i := Put(xs[i], d, Label(offers[k]))];
      DayRecord(ds, ws0, xs0, ws', xs', r, offers, offered + [k], count + 1, d, k + 1)
  {
    var i := r[count].doctor;
    var ws', xs' := ws[i := Committed(ws[i], offers[k], IsFriday(d))], xs[i := Put(xs[i], d, Label(offers[k]))];
    assert forall j :: 0 <= j < count ==> r[j].doctor != i;
    assert ws[i] == ws0[i] && xs[i] == xs0[i];
    var offered' := offered + [k];
    OfferedGrows(offered, count, k);
    forall j | 0 <= j < count + 1
      ensures TookShift(ws0, xs0, ws', xs', r[j].doctor, offers[offered'[j]], d)
    {
      if j < count {
        assert offered'[j] == offered[j];
        assert TookShift(ws0, xs0, ws, xs, r[j].doctor, offers[offered[j]], d);
      }
    }
  }

  /** Appending offer k to the offers taken so far keeps them increasing and below the next offer. */
  lemma {:induction false} OfferedGrows(offered: seq<nat>, count: nat, k: nat)
    requires |offered| == count && forall j :: 0 <= j < count ==> offered[j] < k
    requires forall a, b :: 0 <= a < b < count ==> offered[a] < offered[b]
    ensures forall j :: 0 <= j < count + 1 ==> (offered + [k])[j] < k + 1
    ensures forall a, b :: 0 <= a < b < count + 1 ==> (offered + [k])[a] < (offered + [k])[b]
  {
  }

  /** Offer k goes to the next ranked candidate when its label is free that day. */
  lemma {:induction false} AdminPickStep(ds: seq<Doctor>, ws0: seq<Workload>, xs0: seq<Agenda>, ws: seq<Workload>, xs: seq<Agenda>,
                      r: seq<Ranked>, offers: seq<Shift>, offered: seq<nat>, count: nat, d: int, k: nat)
    requires EligibleRanking(ws0, xs0, r, d) && AdminOffers(offers)
    requires RosterOk(ds, ws, xs) && AdminDayInv(ds, ws0, xs0, ws, xs, r, offers, offered, count, d, k)
    requires DayFresh(xs0, r, offered, count, d, k)
    requires k < 14 && count < |r|
    requires !SlotTaken(xs, d, Label(offers[k]))
    ensures DayFresh(xs0, r, offered + [k], count + 1, d, k + 1)
    ensures var i := r[count].doctor;
      && 0 <= i < |ds|
      && RosterOk(ds, ws[i := Committed(ws[i], offers[k], IsFriday(d))], xs[i := Put(xs[i], d, Label(offers[k]))])
      && AdminDayInv(ds, ws0, xs0, ws[i := Committed(ws[i], offers[k], IsFriday(d))], xs[i := Put(xs[i], d, Label(offers[k]))],
                     r, offers, offered + [k], count + 1, d, k + 1)
  {
    var i := r[count].doctor;
    assert forall j :: 0 <= j < count ==> r[j].doctor != i;
    assert ws[i] == ws0[i] && xs[i] == xs0[i];
    PickEffects(ds, ws0, xs0, ws, xs, count, d, i, offers[k]);
    PickRecord(ds, ws0, xs0, ws, xs, r, offers, offered, count, d, k);
    PickFresh(xs0, r, offered, count, d, k);
  }

  lemma {:induction false} PickFresh(xs0: seq<Agenda>, r: seq<Ranked>, offered: seq<nat>, count: nat, d: int, k: nat)
    requires DayFresh(xs0, r, offered, count, d, k) && count < |r|
    ensures DayFresh(xs0, r, offered + [k], count + 1, d, k + 1)
  {
  }

  /** Offer k is skipped when its label is taken that day or no candidate is left. */
  lemma {:induction false} AdminSkipStep(ds: seq<Doctor>, ws0: seq<Workload>, xs0: seq<Agenda>, ws: seq<Workload>, xs: seq<Agenda>,
                      r: seq<Ranked>, offers: seq<Shift>, offered: seq<nat>, count: nat, d: int, k: nat)
    requires AdminOffers(offers)
    requires AdminDayInv(ds, ws0, xs0, ws, xs, r, offers, offered, count, d, k) && k < 14
    requires DayFresh(xs0, r, offered, count, d, k)
    requires SlotTaken(xs, d, Label(offers[k])) || count == |r|
    ensures AdminDayInv(ds, ws0, xs0, ws, xs, r, offers, offered, count, d, k + 1)
    ensures DayFresh(xs0, r, offered, count, d, k + 1)
  {
    if NobodyOn(xs0, d) && count < |r| {
      FreshDayNotTaken(xs0, xs, r, offered, offers, d, k);
    }
  }

  /** What a finished admin day amounts to. */
  lemma {:induction false} AdminDayResult(ds: seq<Doctor>, ws0: seq<Workload>, xs0: seq<Agenda>, ws: seq<Workload>, xs: seq<Agenda>,
                       r: seq<Ranked>, offers: seq<Shift>, offered: seq<nat>, count: nat, d: int, k: nat, cap: nat)
    requires AdminOffers(offers)
    requires AdminDayInv(ds, ws0, xs0, ws, xs, r, offers, offered, count, d, k)
    requires DayFresh(xs0, r, offered, count, d, k)
    requires count <= cap && (k == 14 || count >= cap)
    ensures AdminDayInv(ds, ws0, xs0, ws, xs, r, offers, offered, count, d, 14)
    ensures NobodyOn(xs0, d) ==>
      && count == Min(cap, Min(|r|, 14))
      && forall j :: 0 <= j < count ==> offered[j] == j
    ensures forall i, e :: IsNew(xs0, xs, i, e) ==> e == d && IsAdminLabel(xs[i].labelOn[e])
  {
    forall i, e | IsNew(xs0, xs, i, e)
      ensures e == d && IsAdminLabel(xs[i].labelOn[e])
    {
      var j :| 0 <= j < count && r[j].doctor == i;
      assert TookShift(ws0, xs0, ws, xs, i, offers[offered[j]], d);
    }
  }

  /** On a day nobody worked before, the k-th offered label is free once the first k offers went out. */
  lemma {:induction false} FreshDayNotTaken(xs0: seq<Agenda>, xs: seq<Agenda>, r: seq<Ranked>, offered: seq<nat>, offers: seq<Shift>,
                         d: int, k: nat)
    requires NobodyOn(xs0, d) && |xs| == |xs0| && k < |offers| && |offered| == k && k <= |r|
    requires forall j :: 0 <= j < k ==> offered[j] == j
    requires forall j :: 0 <= j < k ==> r[j].doctor < |xs| && xs[r[j].doctor] == Put(xs0[r[j].doctor], d, Label(offers[offered[j]]))
    requires forall i :: 0 <= i < |xs| && (forall j :: 0 <= j < k ==> r[j].doctor != i) ==> xs[i] == xs0[i]
    requires forall a, b :: 0 <= a < |offers| && 0 <= b < |offers| && a != b ==> Label(offers[a]) != Label(offers[b])
    ensures !SlotTaken(xs, d, Label(offers[k]))
  {
    forall i | 0 <= i < |xs| && d in xs[i].labelOn
      ensures xs[i].labelOn[d] != Label(offers[k])
    {
      if exists j :: 0 <= j < k && r[j].doctor == i {
        var j :| 0 <= j < k && r[j].doctor == i;
        assert xs[i].labelOn[d] == Label(offers[j]);
      }
    }
  }

  lemma {:induction false} ZeroPenaltyTotal(ws: seq<Workload>)
    requires forall i :: 0 <= i < |ws| ==> ws[i].penaltyPoints == 0
    ensures TotalPenalty(ws) == 0
  {
    if |ws| > 0 {
      ZeroPenaltyTotal(ws[..|ws| - 1]);
    }
  }

  function Min(a: int, b: int): int
  {
    if a <= b then a else b
  }
}
