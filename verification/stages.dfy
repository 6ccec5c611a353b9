/**
 * The allocation stages as functions of the tables they start from: an admin
 * day offer by offer and the admin stage day by day, the clinical slots one
 * at a time, and the rebalancer pair by pair, each step taken as the
 * scheduler takes it. The scheduler's methods end in exactly these tables.
 */
module Stages {
  import opened Wrappers
  import opened Shifts
  import opened Catalog
  import opened Ranking
  import opened Ledger
  import opened Agendas
  import opened ClinicalPlan
  import opened Fairness
  import opened Roster

  /** The scheduler's two tables: one ledger and one agenda per doctor, by roster position. */
  datatype Tables = Tables(ws: seq<Workload>, xs: seq<Agenda>)

  /** Fresh ledgers for the horizon and empty agendas, one per doctor. */
  function InitialTables(ds: seq<Doctor>, weeks: nat): (t: Tables)
    ensures |t.ws| == |ds| && |t.xs| == |ds|
  {
    Tables(seq(|ds|, i requires 0 <= i < |ds| => InitialWorkload(ds[i].eft, weeks)), seq(|ds|, i => Empty()))
  }

  /** Doctor i takes shift s on day d: the label goes into its agenda on d, the shift into its ledger. */
  function Assigned(t: Tables, i: nat, d: int, s: Shift): (r: Tables)
    requires i < |t.ws| && i < |t.xs|
    ensures |r.ws| == |t.ws| && |r.xs| == |t.xs|
  {
    Tables(t.ws[i := Committed(t.ws[i], s, IsFriday(d))], t.xs[i := Put(t.xs[i], d, Label(s))])
  }

  // ---------------------------------------------------------------- admin

  /** An admin day under way: the tables, and how many shifts that day has placed. */
  datatype AdminDay = AdminDay(t: Tables, count: nat)

  /** Tables of matching lengths, and ranked doctors all on their roster. */
  predicate OnRoster(t: Tables, r: seq<Ranked>)
  {
    |t.ws| == |t.xs| && forall j :: 0 <= j < |r| ==> r[j].doctor < |t.ws|
  }

  /**
   * Offer s on day d: the next ranked candidate, after the `count` who had
   * theirs, takes it when a candidate is left and nobody works its label that day.
   */
  function OfferStep(day: AdminDay, d: int, s: Shift, r: seq<Ranked>): (next: AdminDay)
    requires OnRoster(day.t, r)
    ensures OnRoster(next.t, r) && |next.t.ws| == |day.t.ws|
    ensures next.count == day.count || (next.count == day.count + 1 && day.count < |r|)
  {
    if !SlotTaken(day.t.xs, d, Label(s)) && day.count < |r| then
      AdminDay(Assigned(day.t, r[day.count].doctor, d, s), day.count + 1)
    else day
  }

  /**
   * Day d from offer k on, with `day` the state after the offers before k:
   * once `cap` shifts are placed the remaining offers are not made.
   */
  function AdminDayFrom(day: AdminDay, d: int, cap: nat, offers: seq<Shift>, r: seq<Ranked>, k: nat): (last: AdminDay)
    requires k <= |offers| && OnRoster(day.t, r)
    ensures OnRoster(last.t, r) && |last.t.ws| == |day.t.ws|
    ensures day.count <= last.count <= day.count + (|offers| - k)
    ensures day.count <= cap ==> last.count <= cap
    ensures day.count <= |r| ==> last.count <= |r|
    decreases |offers| - k
  {
    if k == |offers| || day.count >= cap then day
    else AdminDayFrom(OfferStep(day, d, offers[k], r), d, cap, offers, r, k + 1)
  }

  /** The consecutive days start, start + 1, ..., start + n - 1. */
  function Period(start: int, n: nat): (days: seq<int>)
    ensures |days| == n && forall j :: 0 <= j < n ==> days[j] == start + j
  {
    seq(n, j requires 0 <= j < n => start + j)
  }

  /**
   * The admin stage over `days`, one after the other: each day ranks its
   * candidates afresh and offers the admin shifts in the order `offers`
   * (Rosebud's first, as the scheduler offers them).
   */
  function AdminRun(t: Tables, days: seq<int>, cap: nat, offers: seq<Shift>): (r: Tables)
    requires |t.ws| == |t.xs|
    ensures |r.ws| == |t.ws| && |r.xs| == |t.xs|
    decreases |days|
  {
    if |days| == 0 then t
    else AdminDayOf(AdminRun(t, days[..|days| - 1], cap, offers), days[|days| - 1], cap, offers)
  }

  /** Day d of the admin stage: its candidates ranked on the tables it starts from, then every offer made. */
  function AdminDayOf(p: Tables, d: int, cap: nat, offers: seq<Shift>): (r: Tables)
    requires |p.ws| == |p.xs|
    ensures |r.ws| == |p.ws| && |r.xs| == |p.xs|
  {
    AdminDayFrom(AdminDay(p, 0), d, cap, offers, AdminRanking(p.ws, p.xs, d), 0).t
  }

  /** One more day of the admin stage: the day's run from the tables of the days before it. */
  lemma {:induction false} AdminRunNext(t0: Tables, days: seq<int>, n: nat, cap: nat, offers: seq<Shift>, p: Tables, q: Tables, count: nat)
    requires |t0.ws| == |t0.xs| && n < |days| && p == AdminRun(t0, days[..n], cap, offers)
    requires AdminDay(q, count) == AdminDayFrom(AdminDay(p, 0), days[n], cap, offers, AdminRanking(p.ws, p.xs, days[n]), 0)
    ensures q == AdminRun(t0, days[..n + 1], cap, offers)
  {
    assert days[..n + 1][..n] == days[..n];
    assert q == AdminDayOf(p, days[n], cap, offers);
  }

  // ------------------------------------------------------------- clinical

  /** Position in `avail` of the first doctor with the largest clinical deficit, the one `max` returns. */
  function FirstMax(ws: seq<Workload>, avail: seq<nat>): (top: nat)
    requires |avail| > 0 && forall m :: 0 <= m < |avail| ==> avail[m] < |ws|
    ensures top < |avail|
    ensures forall m :: 0 <= m < |avail| ==> ClinicalDeficit(ws[avail[m]]) <= ClinicalDeficit(ws[avail[top]])
    ensures forall m :: 0 <= m < top ==> ClinicalDeficit(ws[avail[m]]) < ClinicalDeficit(ws[avail[top]])
    decreases |avail|
  {
    if |avail| == 1 then 0
    else
      var n := |avail| - 1;
      var top := FirstMax(ws, avail[..n]);
      if ClinicalDeficit(ws[avail[n]]) > ClinicalDeficit(ws[avail[top]]) then n else top
  }

  /** The first maximum of the clinical pool is the doctor `max` picks. */
  lemma {:induction false} FirstMaxIsBest(ws: seq<Workload>, xs: seq<Agenda>, d: int, s: Shift, avail: seq<nat>, top: nat)
    requires |ws| == |xs| && avail == ClinicalPool(ws, xs, d, s, |ws|) && top < |avail|
    requires forall m :: 0 <= m < |avail| ==> avail[m] < |ws|
    requires forall m :: 0 <= m < |avail| ==> ClinicalDeficit(ws[avail[m]]) <= ClinicalDeficit(ws[avail[top]])
    requires forall m :: 0 <= m < top ==> ClinicalDeficit(ws[avail[m]]) < ClinicalDeficit(ws[avail[top]])
    ensures BestClinical(ws, xs, d, s, avail[top])
  {
    assert avail[top] in avail;
    forall i | 0 <= i < |ws| && ClinicalEligible(ws[i], xs[i], d, s)
      ensures ClinicalDeficit(ws[i]) <= ClinicalDeficit(ws[avail[top]])
      ensures i < avail[top] ==> ClinicalDeficit(ws[i]) < ClinicalDeficit(ws[avail[top]])
    {
      assert i in avail;
      var m :| 0 <= m < |avail| && avail[m] == i;
      if i < avail[top] {
        assert m < top;
      }
    }
  }

  /** The doctor clinical shift s on d goes to: None exactly when nobody is eligible, else the one `max` picks. */
  function BestDoctor(t: Tables, d: int, s: Shift): (b: Option<nat>)
    requires |t.ws| == |t.xs|
    ensures b.None? <==> forall i :: 0 <= i < |t.ws| ==> !ClinicalEligible(t.ws[i], t.xs[i], d, s)
    ensures b.Some? ==> BestClinical(t.ws, t.xs, d, s, b.value)
  {
    var avail := ClinicalPool(t.ws, t.xs, d, s, |t.ws|);
    if |avail| == 0 then
      assert forall i :: 0 <= i < |t.ws| ==> i !in avail;
      None
    else
      assert forall m :: 0 <= m < |avail| ==> avail[m] in avail;
      var top := FirstMax(t.ws, avail);
      FirstMaxIsBest(t.ws, t.xs, d, s, avail, top);
      Some(avail[top])
  }

  /** Clinical shift s on day d goes to the best doctor for it; with nobody eligible nothing changes. */
  function Placed(t: Tables, d: int, s: Shift): (r: Tables)
    requires |t.ws| == |t.xs|
    ensures |r.ws| == |t.ws| && |r.xs| == |t.xs|
  {
    match BestDoctor(t, d, s)
    case None => t
    case Some(b) => Assigned(t, b, d, s)
  }

  /**
   * A clinical slot is filled, or at its turn nobody could take it: either
   * nobody is eligible and nothing changes, or the best doctor, free that day
   * before, now works the slot's label on it and nobody else changes.
   */
  lemma {:induction false} PlacedFills(t: Tables, d: int, s: Shift)
    requires |t.ws| == |t.xs|
    ensures var r := Placed(t, d, s);
      || ((forall i :: 0 <= i < |t.ws| ==> !ClinicalEligible(t.ws[i], t.xs[i], d, s)) && r == t)
      || exists b :: 0 <= b < |t.xs| && BestClinical(t.ws, t.xs, d, s, b)
           && d !in t.xs[b].labelOn && d in r.xs[b].labelOn && r.xs[b].labelOn[d] == Label(s)
           && r.ws[b].currentClinical == t.ws[b].currentClinical + 1 - (if ContainsAdmin(Label(s)) then 1 else 0)
           && forall j :: 0 <= j < |t.xs| && j != b ==> r.xs[j] == t.xs[j] && r.ws[j] == t.ws[j]
  {
    var best := BestDoctor(t, d, s);
    if best.Some? {
      var b := best.value;
      assert Placed(t, d, s) == Assigned(t, b, d, s);
    }
  }

  /** The clinical slots, one after the other in list order, each given to the best doctor at its turn. */
  function ClinicalRun(t: Tables, slots: seq<DatedShift>): (r: Tables)
    requires |t.ws| == |t.xs|
    ensures |r.ws| == |t.ws| && |r.xs| == |t.xs|
    decreases |slots|
  {
    if |slots| == 0 then t
    else
      var n := |slots| - 1;
      Placed(ClinicalRun(t, slots[..n]), slots[n].day, slots[n].shift)
  }

  /** One more slot at the end of the list is one more placement. */
  lemma {:induction false} ClinicalRunSnoc(t: Tables, slots: seq<DatedShift>, x: DatedShift)
    requires |t.ws| == |t.xs|
    ensures ClinicalRun(t, slots + [x]) == Placed(ClinicalRun(t, slots), x.day, x.shift)
  {
    assert (slots + [x])[..|slots|] == slots;
  }

  /** The first k pairs of a day group. */
  function DayPairs(g: DayGroup, k: nat): (r: seq<DatedShift>)
    requires k <= |g.shifts|
    ensures |r| == k && forall j :: 0 <= j < k ==> r[j] == DatedShift(g.day, g.shifts[j])
  {
    seq(k, j requires 0 <= j < k => DatedShift(g.day, g.shifts[j]))
  }

  /** The pairs of a list of day groups, group after group. */
  function GroupSlots(gs: seq<DayGroup>): seq<DatedShift>
    decreases |gs|
  {
    if |gs| == 0 then [] else GroupSlots(gs[..|gs| - 1]) + DayPairs(gs[|gs| - 1], |gs[|gs| - 1].shifts|)
  }

  /** Shift k of group g follows the first k shifts of that group. */
  lemma {:induction false} ClinicalRunPair(t: Tables, gs: seq<DayGroup>, g: nat, k: nat)
    requires |t.ws| == |t.xs| && g < |gs| && k < |gs[g].shifts|
    ensures ClinicalRun(t, GroupSlots(gs[..g]) + DayPairs(gs[g], k + 1))
         == Placed(ClinicalRun(t, GroupSlots(gs[..g]) + DayPairs(gs[g], k)), gs[g].day, gs[g].shifts[k])
  {
    var x := DatedShift(gs[g].day, gs[g].shifts[k]);
    assert DayPairs(gs[g], k + 1) == DayPairs(gs[g], k) + [x];
    assert GroupSlots(gs[..g]) + DayPairs(gs[g], k + 1) == (GroupSlots(gs[..g]) + DayPairs(gs[g], k)) + [x];
    ClinicalRunSnoc(t, GroupSlots(gs[..g]) + DayPairs(gs[g], k), x);
  }

  /** A group starts with none of its pairs and, once all are taken, is one more whole group. */
  lemma {:induction false} GroupSlotsNext(gs: seq<DayGroup>, g: nat)
    requires g < |gs|
    ensures GroupSlots(gs[..g]) + DayPairs(gs[g], 0) == GroupSlots(gs[..g])
    ensures GroupSlots(gs[..g + 1]) == GroupSlots(gs[..g]) + DayPairs(gs[g], |gs[g].shifts|)
  {
    assert gs[..g + 1][..g] == gs[..g];
    assert DayPairs(gs[g], 0) == [];
  }

  /** Day m of the period, whole, continues the pair list of the m days before it. */
  lemma {:induction false} WholeDaySlots(start: int, m: nat)
    ensures |ClinicalShifts()| == 11
    ensures ClinicalPrefix(start, 11 * m + 11) == ClinicalPrefix(start, 11 * m) + DayPairs(DayGroup(start + m, ClinicalShifts()), 11)
  {
    ClinicalCount();
    var n := 11 * m;
    var day := DayPairs(DayGroup(start + m, ClinicalShifts()), 11);
    var whole, parts := ClinicalPrefix(start, n + 11), ClinicalPrefix(start, n) + day;
    forall k | n <= k < n + 11
      ensures whole[k] == parts[k]
    {
      var j := k - n;
      DivMod11(m, j);
      assert k / 11 == m && k % 11 == j;
    }
    assert whole == parts;
  }

  /** Taking the whole days of the period group after group gives back the period's pair list. */
  lemma {:induction false} WholeDaysSlots(start: int, n: nat)
    ensures GroupSlots(WholeDays(start, n)) == ClinicalPrefix(start, 11 * n)
    decreases n
  {
    if n > 0 {
      var m := n - 1;
      var gs := WholeDays(start, n);
      assert gs[..m] == WholeDays(start, m);
      assert gs[m] == DayGroup(start + m, ClinicalShifts());
      WholeDaysSlots(start, m);
      WholeDaySlots(start, m);
    }
  }

  // ------------------------------------------------------------ rebalance

  /** Doctors of the roster. */
  predicate OnRosterAll(xs: seq<Ranked>, n: nat)
  {
    forall k :: 0 <= k < |xs| ==> xs[k].doctor < n
  }

  /**
   * The tables after doctor h's and doctor l's first swappable entries, in
   * the search order, are exchanged; None when no pair of them is swappable first.
   */
  ghost function SwapOf(ds: seq<Doctor>, t: Tables, h: nat, l: nat): (r: Option<Tables>)
    requires RosterOk(ds, t.ws, t.xs) && h < |ds| && l < |ds|
    ensures r.Some? <==> exists a, b :: FirstSwappable(ds, t.xs, h, l, a, b)
    ensures r.Some? ==> RosterOk(ds, r.value.ws, r.value.xs)
    ensures r.Some? ==> exists a, b :: FirstSwappable(ds, t.xs, h, l, a, b) && r.value == Swap(ds, t, h, l, a, b)
  {
    if exists a, b :: FirstSwappable(ds, t.xs, h, l, a, b) then
      var a, b :| FirstSwappable(ds, t.xs, h, l, a, b);
      Some(Swap(ds, t, h, l, a, b))
    else None
  }

  /** The a-th entry of h and the b-th entry of l swapped, with the points read off each on its own date. */
  ghost function Swap(ds: seq<Doctor>, t: Tables, h: nat, l: nat, a: int, b: int): (r: Tables)
    requires RosterOk(ds, t.ws, t.xs) && h < |ds| && l < |ds| && FirstSwappable(ds, t.xs, h, l, a, b)
    ensures RosterOk(ds, r.ws, r.xs)
  {
    var dh, dl := t.xs[h].dates[a], t.xs[l].dates[b];
    var p1, p2 := EntryPenalty(t.xs, h, dh), EntryPenalty(t.xs, l, dl);
    SwapKeepsRoster(ds, t.ws, t.xs, h, dh, l, dl, p1, p2);
    Tables(SwappedWorkloads(t.ws, h, p1, l, p2), SwappedAgendas(t.xs, h, dh, l, dl))
  }

  /** With no swappable pair of entries at all, SwapOf finds nothing. */
  lemma {:induction false} SwapOfNone(ds: seq<Doctor>, t: Tables, h: nat, l: nat)
    requires RosterOk(ds, t.ws, t.xs) && h < |ds| && l < |ds|
    requires forall dh, dl :: dh in t.xs[h].labelOn && dl in t.xs[l].labelOn ==> !Swappable(ds, t.xs, h, dh, l, dl)
    ensures SwapOf(ds, t, h, l) == None
  {
  }

  /** The first swappable pair is the one SwapOf exchanges. */
  lemma {:induction false} SwapOfFirst(ds: seq<Doctor>, t: Tables, h: nat, l: nat, a: int, b: int)
    requires RosterOk(ds, t.ws, t.xs) && h < |ds| && l < |ds| && FirstSwappable(ds, t.xs, h, l, a, b)
    ensures SwapOf(ds, t, h, l) == Some(Swap(ds, t, h, l, a, b))
  {
    var a', b' :| FirstSwappable(ds, t.xs, h, l, a', b') && SwapOf(ds, t, h, l).value == Swap(ds, t, h, l, a', b');
    FirstSwappableUnique(ds, t.xs, h, l, a, b, a', b');
  }

  /** The rebalancer under way: the tables and the number of swaps made. */
  datatype Rebalance = Rebalance(t: Tables, swaps: nat)

  /** Doctors h and l tried: their first swappable entries exchanged and one more swap counted, or nothing. */
  ghost function TryPair(ds: seq<Doctor>, p: Rebalance, h: nat, l: nat): (r: Rebalance)
    requires RosterOk(ds, p.t.ws, p.t.xs) && h < |ds| && l < |ds|
    ensures RosterOk(ds, r.t.ws, r.t.xs)
    ensures r.swaps == p.swaps || r.swaps == p.swaps + 1
  {
    match SwapOf(ds, p.t, h, l)
    case None => p
    case Some(t') => Rebalance(t', p.swaps + 1)
  }

  /** Doctor h tried with the low doctors from position b on, in turn, until `cap` swaps are made. */
  ghost function BalanceRow(ds: seq<Doctor>, p: Rebalance, h: nat, low: seq<Ranked>, b: nat, cap: nat): (r: Rebalance)
    requires RosterOk(ds, p.t.ws, p.t.xs) && h < |ds| && OnRosterAll(low, |ds|) && b <= |low|
    ensures RosterOk(ds, r.t.ws, r.t.xs)
    ensures p.swaps >= cap ==> r == p
    ensures p.swaps <= cap ==> p.swaps <= r.swaps <= cap
    decreases |low| - b
  {
    if b == |low| || p.swaps >= cap then p
    else BalanceRow(ds, TryPair(ds, p, h, low[b].doctor), h, low, b + 1, cap)
  }

  /** The high doctors from position a on, each in turn tried with every low doctor, until `cap` swaps are made. */
  ghost function BalanceRows(ds: seq<Doctor>, p: Rebalance, high: seq<Ranked>, a: nat, low: seq<Ranked>, cap: nat): (r: Rebalance)
    requires RosterOk(ds, p.t.ws, p.t.xs) && OnRosterAll(high, |ds|) && OnRosterAll(low, |ds|) && a <= |high|
    ensures RosterOk(ds, r.t.ws, r.t.xs)
    ensures p.swaps >= cap ==> r == p
    ensures p.swaps <= cap ==> p.swaps <= r.swaps <= cap
    decreases |high| - a
  {
    if a == |high| || p.swaps >= cap then p
    else BalanceRows(ds, BalanceRow(ds, p, high[a].doctor, low, 0, cap), high, a + 1, low, cap)
  }

  /** The pair (h, l) tried gives q: the tables SwapOf finds with one more swap, or p itself when it finds none. */
  lemma {:induction false} TryPairGives(ds: seq<Doctor>, p: Rebalance, q: Rebalance, h: nat, l: nat)
    requires RosterOk(ds, p.t.ws, p.t.xs) && h < |ds| && l < |ds|
    requires (q == p && SwapOf(ds, p.t, h, l) == None) || (SwapOf(ds, p.t, h, l) == Some(q.t) && q.swaps == p.swaps + 1)
    ensures TryPair(ds, p, h, l) == q
  {
  }

  /** The pair (h, low[b]) below the cap: tried, and the row goes on from b + 1. */
  lemma {:induction false} BalanceRowNext(ds: seq<Doctor>, p: Rebalance, h: nat, low: seq<Ranked>, b: nat, cap: nat)
    requires RosterOk(ds, p.t.ws, p.t.xs) && h < |ds| && OnRosterAll(low, |ds|) && b < |low| && p.swaps < cap
    ensures BalanceRow(ds, p, h, low, b, cap) == BalanceRow(ds, TryPair(ds, p, h, low[b].doctor), h, low, b + 1, cap)
  {
  }

  /** The row of high[a] below the cap: it is tried, and the rows go on from a + 1. */
  lemma {:induction false} BalanceRowsNext(ds: seq<Doctor>, p: Rebalance, high: seq<Ranked>, a: nat, low: seq<Ranked>, cap: nat)
    requires RosterOk(ds, p.t.ws, p.t.xs) && OnRosterAll(high, |ds|) && OnRosterAll(low, |ds|) && a < |high| && p.swaps < cap
    ensures BalanceRows(ds, p, high, a, low, cap) == BalanceRows(ds, BalanceRow(ds, p, high[a].doctor, low, 0, cap), high, a + 1, low, cap)
  {
  }

  /** A row at its end, or with the cap reached, changes nothing more. */
  lemma {:induction false} BalanceRowDone(ds: seq<Doctor>, p: Rebalance, h: nat, low: seq<Ranked>, b: nat, cap: nat)
    requires RosterOk(ds, p.t.ws, p.t.xs) && h < |ds| && OnRosterAll(low, |ds|) && b <= |low|
    requires b == |low| || p.swaps >= cap
    ensures BalanceRow(ds, p, h, low, b, cap) == p
  {
  }

  /** The rows at their end, or with the cap reached, change nothing more. */
  lemma {:induction false} BalanceRowsDone(ds: seq<Doctor>, p: Rebalance, high: seq<Ranked>, a: nat, low: seq<Ranked>, cap: nat)
    requires RosterOk(ds, p.t.ws, p.t.xs) && OnRosterAll(high, |ds|) && OnRosterAll(low, |ds|) && a <= |high|
    requires a == |high| || p.swaps >= cap
    ensures BalanceRows(ds, p, high, a, low, cap) == p
  {
  }

  /**
   * The tough-shift rebalancer: nothing with fewer than two doctors;
   * otherwise the high doctors, lowest penalty first, each with every low
   * doctor, lowest first, until min(10, twice the high group's size) swaps.
   */
  ghost function Rebalanced(ds: seq<Doctor>, t: Tables): (r: Rebalance)
    requires RosterOk(ds, t.ws, t.xs)
    ensures RosterOk(ds, r.t.ws, r.t.xs)
    ensures r.swaps <= MaxSwaps(|HighGroup(t.ws)|)
  {
    if |ds| < 2 then Rebalance(t, 0)
    else
      var high, low := HighGroup(t.ws), LowGroup(t.ws);
      assert OnRosterAll(high, |ds|) by { assert forall a :: 0 <= a < |high| ==> high[a] in high && high[a] in PenaltyOrder(t.ws); }
      assert OnRosterAll(low, |ds|) by { assert forall b :: 0 <= b < |low| ==> low[b] in low && low[b] in PenaltyOrder(t.ws); }
      BalanceRows(ds, Rebalance(t, 0), high, 0, low, MaxSwaps(|high|))
  }

  /** With two doctors or more, the rebalancer is the rows of the high group, from the first, with no swap made. */
  lemma {:induction false} RebalancedRows(ds: seq<Doctor>, t: Tables)
    requires RosterOk(ds, t.ws, t.xs) && |ds| >= 2
    ensures OnRosterAll(HighGroup(t.ws), |ds|) && OnRosterAll(LowGroup(t.ws), |ds|)
    ensures forall x :: x in HighGroup(t.ws) ==> x.doctor in DoctorsOf(HighGroup(t.ws))
    ensures forall x :: x in LowGroup(t.ws) ==> x.doctor in DoctorsOf(LowGroup(t.ws))
    ensures Rebalanced(ds, t) == BalanceRows(ds, Rebalance(t, 0), HighGroup(t.ws), 0, LowGroup(t.ws), MaxSwaps(|HighGroup(t.ws)|))
  {
    var high, low := HighGroup(t.ws), LowGroup(t.ws);
    assert forall a :: 0 <= a < |high| ==> high[a] in high && high[a] in PenaltyOrder(t.ws);
    assert forall b :: 0 <= b < |low| ==> low[b] in low && low[b] in PenaltyOrder(t.ws);
  }

  // ------------------------------------------------------------- pipeline

  /**
   * The roster before the rebalancer: fresh tables, the admin stage over the
   * 7 * weeks days with its daily cap from the fresh ledgers, then the
   * clinical pairs of the period in list order.
   */
  ghost function Staged(ds: seq<Doctor>, start: int, weeks: nat): (t: Tables)
    requires weeks > 0
    ensures |t.ws| == |ds| && |t.xs| == |ds|
  {
    var t0 := InitialTables(ds, weeks);
    ClinicalRun(AdminRun(t0, Period(start, 7 * weeks), AdminCap(t0.ws, 7 * weeks), BalancedAdmin()), ClinicalPrefix(start, 77 * weeks))
  }
}
