# Hospital roster allocation engine, modelled in Dafny

This project models the allocation engine of the Peninsula Health roster
generator: the `SimpleScheduler` pipeline in
`backend/src/roster_generator.py` and the static data it relies on. The
pipeline decides which doctor works which shift on which day over a horizon
of whole weeks, in four stages:

1. **Ledger initialisation.** Every doctor gets a capacity of EFT x 40 h x
   weeks and clinical/admin shift targets. The targets follow a 3:1 split at
   an average 9.5 h per shift. Floors apply for 0.25 and 0.5 EFT, and both
   targets are scaled down proportionally when they ask for more hours than
   the capacity.
2. **Admin allocation.** Days are processed in order with one global daily
   cap. Each day the eligible doctors are ranked by admin deficit. The two
   Rosebud admin shifts are offered before the twelve Frankston ones, and a
   label already worked that day is skipped.
3. **Clinical allocation.** Every day offers the nine Frankston and the two
   Rosebud clinical shifts. Each shift, in catalog order, goes to the eligible
   doctor with the largest clinical deficit. Ties go to the first doctor in
   roster order.
4. **Tough-shift rebalancing.** Doctors above 1.2 times the mean penalty
   (the high group) and below 0.8 times it (the low group) are paired, lowest
   penalty first. For each pair, the first entry pair whose penalties differ
   by more than one point is swapped. At most min(10, twice the high group's size) swaps are
   made.

The files:

- `shifts.dfy` (module `Shifts`): the `Shift` record, the penalty score, the
  label `"<site> <role> <type>"` and its parse (`str.split()` over ASCII
  whitespace, all a catalog label can contain).
- `catalog.dfy` (`Catalog`): the 25 catalog shifts, and the decoding of a
  label back into a catalog position.
- `ranking.dfy` (`Ranking`): Python's stable `list.sort`, as an insertion
  sort on (doctor, key) pairs.
- `ledger.dfy` (`Ledger`): the workload ledger, target computation, the
  commit update and the penalty total.
- `agenda.dfy` (`Agendas`): a doctor's date -> label dictionary. Its key
  list is kept in insertion order, as a Python dict keeps it.
- `clinical_plan.dfy` (`ClinicalPlan`): the list of clinical (day, shift)
  pairs and its grouping by day.
- `fairness.dfy` (`Fairness`): the penalty ordering, the high and low
  groups, and the swap cap.
- `roster.dfy` (`Roster`): doctors, the roster invariant, candidate
  rankings, and the swap as a function on values.
- `stages.dfy` (`Stages`): each stage as a function of the tables it starts
  from. An admin day runs offer by offer and the admin stage day by day; the
  clinical slots run one at a time; the rebalancer runs pair by pair. The
  whole pipeline up to rebalancing is one function of the roster and the
  horizon.
- `scheduler.dfy` (`Scheduling`): the `Scheduler` class. Its `workloads`
  and `assignments` fields are updated in place by methods that follow the
  source's loops. Each stage method ends in exactly the tables its `Stages`
  function gives.
- `wrappers.dfy`: `Option`.

Units: durations are in tenths of an hour (clinical 100, admin 80), so
capacity is `eft * 4 * weeks` with EFT in hundredths. Dates are day numbers
with day 0 a Monday, so a Friday is `d % 7 == 4`. Doctors are identified by
roster position. The constructor requires distinct names, which makes the
name-keyed dictionaries of the source follow roster order.

The invariant `RosterOk` holds after every method:

- one ledger and one agenda per doctor;
- each ledger balanced: hours plus remaining hours equal capacity, no
  overdraft, counters within their targets, and shift count and hours
  matching the counters;
- each agenda's shift count equal to its number of dates;
- every entry a catalog label;
- a non-negative penalty total.

## Model

| member | source | states |
|---|---|---|
| Shifts.Penalty | backend/src/roster_generator.py:49-69 | The penalty lies in 0..9; it is 0 exactly for a non-Blue/Green, non-Rosebud shift that is not a Friday PM, and 9 exactly for a Blue/Green Rosebud PM on a Friday |
| Shifts.FridayTerm | backend/src/roster_generator.py:61-63 | A Friday adds exactly 2 points to a PM shift and nothing to any other |
| Shifts.PenaltyOfIdentity | backend/src/roster_generator.py:49-69 | The penalty depends only on site, role and type, never on duration or the undesirable flag |
| Shifts.Parse | backend/src/roster_generator.py:468-482 | A label parses exactly when it has at least three whitespace-separated words; the parsed shift has the 10 h default duration and is not undesirable |
| Shifts.WordsOfLabel | backend/src/roster_generator.py:471 | Splitting the label of a shift whose fields have no whitespace gives back [site, role, type] |
| Shifts.ParseLabel | backend/src/roster_generator.py:468-482 | Parsing a label recovers site, role and type, so the parsed shift has the original's penalty on any day |
| Shifts.LabelInjective | backend/src/roster_generator.py:621 | Two well-formed shifts with one label agree on site, role and type |
| Shifts.AdminKindLabel | backend/src/roster_generator.py:631 | The label of an Admin-type shift contains "Admin" |
| Shifts.NonAdminLabel | backend/src/roster_generator.py:631 | A label none of whose fields has a lower-case 'm' does not contain "Admin" |
| Catalog.CatalogShape | backend/src/roster_generator.py:84-164 | 9 Frankston (5 AM, then 4 PM), 2 Rosebud, 14 admin shifts; clinical 10 h and admin 8 h; admin 12 Frankston then 2 Rosebud; undesirable exactly for Blue, Green and Rosebud PM |
| Catalog.CatalogWellFormed | backend/src/roster_generator.py:84-164 | Every catalog shift's fields are single words, so its label splits back into three fields |
| Catalog.CatalogAdminLabels | backend/src/roster_generator.py:130-164 | A catalog label contains "Admin" exactly when the shift type is Admin, so commit's substring test picks the right counter |
| Catalog.CatalogLabelsDistinct | backend/src/roster_generator.py:84-164 | No two catalog shifts share a label |
| Ranking.Sort | backend/src/roster_generator.py:312 | The sort result is a permutation of its input |
| Ranking.SortSorted | backend/src/roster_generator.py:312 | With distinct doctors, the result is ordered by key (descending when asked), ties by roster position |
| Ranking.SortIsStable | backend/src/roster_generator.py:401 | On a roster-ordered list, two doctors with equal keys keep their relative order |
| Ledger.RatioTargets | backend/src/roster_generator.py:237-241 | From floor(capacity / 9.5 h) shifts: admin a quarter, clinical three quarters (3a <= c <= 3a + 2), together at most that many and at least one fewer, within capacity |
| Ledger.FlooredTargets | backend/src/roster_generator.py:243-251 | From 0.5 EFT up, at least 2 clinical and 1 admin; from 0.25 EFT up, at least 1 clinical, with the admin floor applied only once clinical reaches 3; below 0.25 EFT, no change |
| Ledger.FittedTargets | backend/src/roster_generator.py:253-259 | The proportional scale-down never raises a target, always fits the capacity, and changes nothing when the targets already fit |
| Ledger.InitialWorkload | backend/src/roster_generator.py:226-272 | Zero counters, hours and points; remaining = maximum = eft x 40 h x weeks; non-negative targets with 10 h x clinical + 8 h x admin <= capacity; a balanced ledger |
| Ledger.InitialTargetsKeepRatio | backend/src/roster_generator.py:231-241 | Once capacity holds four average shifts, the targets keep 3:1 up to truncation, with at least one admin shift |
| Ledger.FullTimeOneWeek | backend/src/roster_generator.py:226-272 | 1.0 EFT for one week gives targets 3 clinical and 1 admin |
| Ledger.QuarterTimeOneWeek | backend/src/roster_generator.py:247-251 | 0.25 EFT for one week gives 1 clinical and 0 admin |
| Ledger.HalfTimeOneWeek | backend/src/roster_generator.py:244-259 | 0.5 EFT for one week: the floors ask 28 h of 20, and the scale-down gives 1 clinical and 0 admin |
| Ledger.Committed | backend/src/roster_generator.py:624-642 | Commit adds the shift's hours to the total and takes them from the remaining hours, adds one shift, raises exactly one counter (admin exactly when the label contains "Admin", clinical otherwise), counts an undesirable shift, adds the day's penalty, and keeps capacity and targets |
| Ledger.CommitKeepsLedger | backend/src/roster_generator.py:619-642 | Committing a catalog shift to a doctor with the hours for it and below the target of its kind keeps the ledger balanced and never lowers its points |
| Agendas.Put | backend/src/roster_generator.py:623 | Dictionary assignment: the key maps to the new label and other keys keep theirs; an existing key keeps its place and a new one goes last |
| Agendas.PutKeepsUnique | backend/src/roster_generator.py:334-340 | Writing a label nobody works that day keeps every (day, label) to one doctor |
| ClinicalPlan.GenerateClinicalShifts | backend/src/roster_generator.py:205-224 | The list is pair k = (start + k / 11, k mod 11-th clinical shift) for k < 77 x weeks: every day, Frankston then Rosebud, in catalog order |
| ClinicalPlan.GroupByDate | backend/src/roster_generator.py:356-358 | Grouping into an insertion-ordered dictionary of lists gives groups with distinct days |
| ClinicalPlan.GroupsOfFrom | backend/src/roster_generator.py:356-358 | Every grouped shift comes from a pair of the list, with its group's day |
| ClinicalPlan.ClinicalGroups | backend/src/roster_generator.py:356-361 | The period's pairs group into one group per day, in day order, each holding all eleven clinical shifts |
| Fairness.PenaltyOrder | backend/src/roster_generator.py:400-401 | Every doctor once with its points, ascending, ties in roster order |
| Fairness.Group | backend/src/roster_generator.py:410-411 | A group holds exactly the doctors above 1.2 (below 0.8) times the mean, compared exactly with fractions cleared |
| Fairness.GroupKeepsOrder | backend/src/roster_generator.py:410-411 | A group keeps the ascending penalty order and takes no doctor twice |
| Fairness.HighLowGroups | backend/src/roster_generator.py:406-411 | With a non-negative total the high and low groups are disjoint, and each is exactly the roster doctors beyond its bound |
| Roster.AdminRanking | backend/src/roster_generator.py:301-312 | Exactly the doctors free that day, below their admin target and with 8 h left, with their deficits; largest deficit first, ties in roster order |
| Roster.ClinicalPool | backend/src/roster_generator.py:363-375 | Exactly the doctors free that day, below their clinical target and with the shift's hours left, in roster order |
| Roster.BestClinicalUnique | backend/src/roster_generator.py:377-381 | At most one doctor is the one `max` picks |
| Roster.CommitKeepsRoster | backend/src/roster_generator.py:619-642 | Committing a catalog shift to a free doctor with the hours for it and below the target of its kind keeps the roster invariant and never lowers the penalty total |
| Roster.BalancedAdminBySite | backend/src/roster_generator.py:315-325 | The Rosebud admin shifts followed by the Frankston ones form the daily offer list |
| Roster.BalancedAdminFacts | backend/src/roster_generator.py:314-325 | The offer list holds 14 distinct-label 8 h admin catalog shifts, Rosebud's two first |
| Roster.AdminCap | backend/src/roster_generator.py:288-295 | The daily cap is max(1, floor(sum of admin targets / days)), so cap x days <= max(days, the admin target sum) |
| Roster.FirstSwappableUnique | backend/src/roster_generator.py:440-464 | The first swappable pair in iteration order is unique |
| Roster.SwappedAgendas | backend/src/roster_generator.py:509-510 | The two labels are exchanged; every doctor keeps its dates and keys, and every other entry keeps its label |
| Roster.SwappedWorkloads | backend/src/roster_generator.py:512-517 | Only points change: the high doctor's by -p1 + p2 and the low doctor's by -p2 + p1; others are unchanged, hours and counters too, and the total is kept |
| Roster.SwapKeepsRoster | backend/src/roster_generator.py:488-517 | A swap keeps the roster invariant, every doctor's dates and every day's head count |
| Roster.SwapKeepsCounts | backend/src/roster_generator.py:509-510 | A swap changes no day's number of entries |
| Roster.SwapTwice | backend/src/roster_generator.py:509-510 | Swapping the same two entries again restores every agenda |
| Roster.SwapLeavesOthers | backend/src/roster_generator.py:509-510 | A swap leaves every other doctor's agenda unchanged |
| Stages.OfferStep | backend/src/roster_generator.py:330-343 | One offer: the placed count stays, or grows by one when a ranked candidate was left; the tables stay one ledger and one agenda per doctor |
| Stages.AdminDayFrom | backend/src/roster_generator.py:327-343 | The day's offers in order, stopping once `cap` are placed: at most one placement per offer and never more than `cap` or the number of candidates |
| Stages.AdminRunNext | backend/src/roster_generator.py:298-344 | One more day of the admin stage is that day's offers, ranked afresh, run on the tables the days before it left |
| Stages.FirstMax | backend/src/roster_generator.py:379-381 | The position of the pool's largest clinical deficit, every earlier position strictly smaller: the first maximum `max` returns |
| Stages.FirstMaxIsBest | backend/src/roster_generator.py:379-381 | The first maximum of the pool is the doctor `max` picks |
| Stages.BestDoctor | backend/src/roster_generator.py:363-381 | None exactly when nobody is eligible; otherwise the eligible doctor with the largest deficit, the first in roster order among ties |
| Stages.PlacedFills | backend/src/roster_generator.py:377-383 | A slot is placed: with nobody eligible nothing changes; otherwise the best doctor, free that day before, now works its label on it, its clinical count one higher unless the label contains "Admin", and nobody else changes |
| Stages.ClinicalRunSnoc | backend/src/roster_generator.py:361-383 | One more slot at the end of the list is one more placement |
| Stages.ClinicalRunPair | backend/src/roster_generator.py:361-383 | Shift k of a day group is placed on the tables the slots before it left |
| Stages.WholeDaysSlots | backend/src/roster_generator.py:356-361 | The period's days, group after group, give back the period's list of clinical pairs |
| Stages.SwapOf | backend/src/roster_generator.py:434-466 | A swap exists exactly when some pair of the two doctors' entries is swappable; it exchanges the first such pair and keeps the roster invariant |
| Stages.SwapOfFirst | backend/src/roster_generator.py:440-464 | The first swappable pair in iteration order is the one exchanged |
| Stages.SwapOfNone | backend/src/roster_generator.py:440-466 | With no swappable pair of entries, no swap happens |
| Stages.TryPair | backend/src/roster_generator.py:424-428 | Trying a pair keeps the roster invariant and counts at most one more swap |
| Stages.BalanceRow | backend/src/roster_generator.py:420-428 | One high doctor tried with the low doctors in order: the invariant is kept, nothing happens once at the cap, and the swap count never passes the cap |
| Stages.BalanceRows | backend/src/roster_generator.py:415-428 | The high doctors in order, each with every low doctor: the invariant is kept, nothing happens once at the cap, and the swap count never passes the cap |
| Stages.Rebalanced | backend/src/roster_generator.py:395-432 | The rebalancer keeps the roster invariant and makes at most min(10, 2 x the high group's size) swaps |
| Stages.RebalancedRows | backend/src/roster_generator.py:406-416 | With two doctors or more, the rebalancer starts from the high and low groups, both on the roster, with no swap made |
| Stages.Period | backend/src/roster_generator.py:278-283 | The horizon's dates are start, start + 1, ... in order |
| Scheduling.HorizonDays | backend/src/roster_generator.py:278-283 | The nested week and day loops list the 7 x weeks horizon dates, from the start date, one day apart |
| Scheduling.Scheduler.constructor | backend/src/roster_generator.py:172-177 | A scheduler for the roster, with empty tables |
| Scheduling.Scheduler.InitializeWorkloads | backend/src/roster_generator.py:226-273 | Every doctor gets its initial ledger and an empty agenda, exactly the fresh tables; the invariant holds and the penalty total is 0 |
| Scheduling.Scheduler.AssignShift | backend/src/roster_generator.py:619-642 | Exactly one agenda gets the label on the day and exactly that doctor's ledger is committed |
| Scheduling.Scheduler.AdminCandidates | backend/src/roster_generator.py:301-312 | The candidate list is the admin ranking |
| Scheduling.AdminOfferOrder | backend/src/roster_generator.py:314-325 | The day's offer list: 14 distinct admin shifts, Rosebud's first and Frankston's after |
| Scheduling.Scheduler.AllocateAdminOn | backend/src/roster_generator.py:298-344 | At most `cap` placements, the j-th ranked candidate taking the j-th placed offer; new entries only on that day and admin; on a day nobody works yet, min(cap, candidates, 14) placements of the first offers; the tables are the day's offers run from the day's ranking |
| Scheduling.Scheduler.OfferDay | backend/src/roster_generator.py:327-343 | The offer loop with its `break` ends in the tables the day's offers give, stopping at the cap |
| Scheduling.Scheduler.OfferAdmin | backend/src/roster_generator.py:328-344 | One offer goes to the next candidate when its label is free that day, and is skipped otherwise; the tables are one offer step further |
| Scheduling.Scheduler.AdminStep | backend/src/roster_generator.py:298-344 | One more day of the admin stage: only admin entries on that day, at most the cap of them; targets and clinical counters kept, (day, label) pairs kept unique, and the tables are the admin stage one day further |
| Scheduling.Scheduler.AdminDays | backend/src/roster_generator.py:298-344 | The horizon's days in order, each on top of the days before it: the tables are the admin stage over all of them |
| Scheduling.Scheduler.AllocateAdmin | backend/src/roster_generator.py:275-344 | Fails exactly for an empty horizon, changing nothing. Otherwise only adds admin entries on horizon days, never more than the cap per day; keeps targets and clinical counters, and keeps (day, label) unique; the tables are the admin stage over the horizon with the cap from the ledgers it started from |
| Scheduling.Scheduler.ClinicalCandidates | backend/src/roster_generator.py:363-375 | The candidate list is the clinical pool, in roster order |
| Scheduling.Scheduler.BestClinicalDoctor | backend/src/roster_generator.py:377-381 | None exactly when nobody is eligible; otherwise the eligible doctor with the largest deficit, the first in roster order among ties; the same doctor `Stages.BestDoctor` gives |
| Scheduling.FirstLargestDeficit | backend/src/roster_generator.py:379-381 | The chosen position holds the pool's largest clinical deficit and every earlier position a strictly smaller one, the first maximum `max` returns |
| Scheduling.Scheduler.PlaceClinical | backend/src/roster_generator.py:362-383 | A slot goes to the best doctor and exactly that doctor's ledger and agenda change, or, when nobody is eligible, nothing changes; the tables are the slot placed |
| Scheduling.Scheduler.DistributeClinical | backend/src/roster_generator.py:354-383 | Only adds clinical entries on the listed days, never overwrites an entry, keeps targets and admin counters, and keeps (day, label) unique when only admin entries were there; the tables are the grouped slots placed one after the other |
| Scheduling.Scheduler.AllocateClinical | backend/src/roster_generator.py:346-352 | Only adds clinical entries on horizon days, and keeps (day, label) unique after an admin-only roster; the tables are the period's clinical pairs placed in list order |
| Scheduling.Scheduler.SwapAssignments | backend/src/roster_generator.py:488-517 | When both labels parse: the swapped agendas, with points moved by the two entries' penalties on their own dates. Otherwise: nothing changes |
| Scheduling.Scheduler.ExchangeEntries | backend/src/roster_generator.py:508-517 | The two dictionary writes and the four points updates give the swapped agendas and ledgers, and keep the invariant |
| Scheduling.Scheduler.TrySwap | backend/src/roster_generator.py:434-466 | On success, exactly one swap, of the first swappable pair in iteration order. On failure, no pair of the two doctors' entries is swappable and nothing changes. Either way the outcome is `Stages.SwapOf` |
| Scheduling.Scheduler.BalanceToughShifts | backend/src/roster_generator.py:395-432 | No change with fewer than two doctors; at most min(10, 2 x the high group's size) swaps; dates, head counts and the points total are kept; only high and low doctors change; high doctors only lose points and low doctors only gain; tables and swap count are the rebalancer's |
| Scheduling.Scheduler.TryRow | backend/src/roster_generator.py:420-428 | One high doctor tried with the low doctors in order: the rebalancer's effects are kept, and tables and swap count are that row's |
| Scheduling.SwapStep | backend/src/roster_generator.py:418-430 | One accepted swap between a high and a low doctor keeps the rebalancer's effects |
| Scheduling.SwapRelabels | backend/src/roster_generator.py:509-510 | A swap between a high and a low doctor keeps dates and head counts, and leaves every other doctor's agenda |
| Scheduling.SwapMovesPoints | backend/src/roster_generator.py:512-517 | A swap worth more than one point lowers the high doctor's points, raises the low doctor's, and keeps the total |
| Scheduling.Scheduler.GenerateRoster | backend/src/roster_generator.py:181-203 | Fails exactly for an empty horizon, with fresh ledgers and empty agendas left. Otherwise every entry lies in the horizon, and the roster before rebalancing has unique (day, label) pairs; rebalancing keeps its dates and head counts. The roster before rebalancing is the admin stage then the clinical stage from fresh tables, and the final tables are the rebalancer run on it |

## Left out

- Floating point: EFT, hours and penalties are Python floats. They are
  exact integers here: EFT in hundredths, hours in tenths. `int(max_hours / 9.5)`
  becomes `maxTenths / 95` and the scale-down is exact integer division.
  The 1.2 and 0.8 comparisons are exact rational comparisons. Float
  rounding at the boundaries of these divisions is not modelled.
- Dates are day numbers rather than `strftime`/`strptime` strings.
  `weekday() == 4` becomes `d % 7 == 4`.
- The stderr progress prints, the catch-all `try/except` of
  `generate_roster` and its error message. The only exception the modelled
  pipeline can raise is the division by zero for an empty horizon, modelled
  as `AllocateAdmin` returning false. The ledgers set up before it stay, as
  in the source.
- `_verify_and_adjust_ratios` is a no-op and has no counterpart.
  `_apply_final_optimizations` only calls the rebalancer, so
  `GenerateRoster` calls `BalanceToughShifts` directly.
- The doctor fields the core never reads: preference, email, phone,
  specialization and status. Unavailable dates are kept, but only the
  rebalancer consults them; neither allocator checks them.
- Shifts.Parse: splits on ASCII whitespace only. Python's `str.split()`
  also splits on Unicode separators such as U+00A0; no label the roster
  holds contains one, since every entry is a catalog label.
- Doctors are looked up by roster position, not by name. Distinct names are
  a precondition of the constructor, as a name-keyed dictionary requires.
- The CSV report builders, configuration loading and `main`, and the
  unused alternative allocation heuristics of the same file, are not part
  of this model.
- Scheduling.Scheduler.DistributeClinical: requires every listed pair to
  carry a catalog clinical shift. This is the only list its caller passes.
- Scheduling.Scheduler.AllocateAdminOn: takes the day's offer list as a
  parameter; `AdminOfferOrder` computes the same list once per day.
- Scheduling.Scheduler.BalanceToughShifts: does not claim that (day, label)
  pairs stay unique after rebalancing. The source's swap moves a label to
  the other doctor's date, where someone else may already work it.
- Scheduling.Scheduler.BalanceToughShifts: does not claim that a doctor's
  points equal the sum of its entries' penalties after rebalancing. A swap
  moves each label's points as computed on its old date, so a PM label that
  changes Friday-ness drifts by 2. Hours and counters are not adjusted
  either. Only the points total is kept.
- Scheduling.Scheduler.BalanceToughShifts: the high and low doctors are
  visited in ascending penalty order, as the sorted list they are filtered
  from dictates. This is the code's order, not roster order.
- Scheduling.Scheduler.TrySwap: the availability test looks at the other
  doctor's date, as in the source. Neither doctor's own dates change, so
  the test does not protect the dates they actually work.
