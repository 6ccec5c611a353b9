/**
 * The per-doctor workload ledger: capacity, clinical/admin targets, running
 * counters and penalty points. Hours are in tenths of an hour and the EFT
 * (capacity factor) in hundredths, so that EFT x 40 h x weeks is exact.
 */
module Ledger {
  import opened Shifts
  import opened Catalog

  datatype Workload = Workload(
    totalHours: int,
    totalShifts: int,
    undesirableShifts: int,
    penaltyPoints: int,
    maxHours: int,
    remainingHours: int,
    targetClinical: int,
    targetAdmin: int,
    currentClinical: int,
    currentAdmin: int)

  /** A pair of shift-count targets. */
  datatype Targets = Targets(clinical: int, admin: int)

  function Max(a: int, b: int): int
  {
    if a >= b then a else b
  }

  /** Capacity over the horizon, in tenths of an hour: EFT x 40 h x weeks with EFT in hundredths. */
  function MaxTenths(eft: nat, weeks: nat): nat
  {
    eft * 4 * weeks
  }

  /** Hours, in tenths, that a pair of targets asks for: 10 h per clinical and 8 h per admin shift. */
  function TargetHours(t: Targets): int
  {
    t.clinical * ClinicalTenths + t.admin * AdminTenths
  }

  /**
   * The 3:1 split of the number of shifts that fit the capacity at the
   * average 9.5 h of a 3:1 mix: a quarter of them admin, three quarters clinical.
   */
  function RatioTargets(maxT: nat): (t: Targets)
    ensures 0 <= t.admin && 3 * t.admin <= t.clinical <= 3 * t.admin + 2
    ensures maxT / 95 - 1 <= t.clinical + t.admin <= maxT / 95
    ensures TargetHours(t) <= maxT
  {
    var possible := maxT / 95;
    Targets(possible * 3 / 4, possible / 4)
  }

  /**
   * Minimum targets by EFT: at least 2 clinical and 1 admin from 0.5 EFT up;
   * from 0.25 up at least 1 clinical, and 1 admin only once the clinical target reaches 3.
   */
  function FlooredTargets(eft: nat, t: Targets): (f: Targets)
    ensures t.clinical <= f.clinical <= Max(2, t.clinical)
    ensures t.admin <= f.admin <= Max(1, t.admin)
    ensures eft >= 50 ==> f.clinical >= 2 && f.admin >= 1
    ensures 25 <= eft < 50 ==> f.clinical >= 1 && f.clinical <= Max(1, t.clinical)
    ensures 25 <= eft < 50 ==> (f.admin != t.admin <==> f.clinical >= 3 && t.admin < 1)
    ensures eft < 25 ==> f == t
  {
    if eft >= 50 then Targets(Max(2, t.clinical), Max(1, t.admin))
    else if eft >= 25 then
      var c := Max(1, t.clinical);
      Targets(c, if c >= 3 then Max(1, t.admin) else t.admin)
    else t
  }

  /** Multiplying by a non-negative factor keeps the order. */
  lemma {:induction false} MulMonotone(a: int, b: int, c: nat)
    requires a <= b
    ensures a * c <= b * c
    decreases c
  {
    if c > 0 {
      MulMonotone(a, b, c - 1);
      assert a * c == a * (c - 1) + a;
      assert b * c == b * (c - 1) + b;
    }
  }

  /** (x * m) / total stays within x, and within x * m once multiplied back. */
  lemma {:induction false} ScaledDown(x: nat, m: nat, total: nat)
    requires m < total
    ensures 0 <= x * m / total <= x
    ensures (x * m / total) * total <= x * m
  {
    var q := x * m / total;
    var r := x * m % total;
    assert x * m == q * total + r && 0 <= r < total;
    MulMonotone(m, total, x);
    assert m * x == x * m && total * x == x * total;
    assert (x + 1) * total == x * total + total;
    if q > x {
      MulMonotone(x + 1, q, total);
    }
  }

  /** Scaling both targets by maxT / TargetHours(t), truncating, fits the capacity. */
  lemma {:induction false} ScaledTargetsFit(t: Targets, maxT: nat)
    requires t.clinical >= 0 && t.admin >= 0 && TargetHours(t) > maxT
    ensures var total := TargetHours(t);
      TargetHours(Targets(t.clinical * maxT / total, t.admin * maxT / total)) <= maxT
  {
    var total := TargetHours(t);
    var c := t.clinical * maxT / total;
    var a := t.admin * maxT / total;
    ScaledDown(t.clinical, maxT, total);
    ScaledDown(t.admin, maxT, total);
    var h := TargetHours(Targets(c, a));
    assert h * total == (c * total) * ClinicalTenths + (a * total) * AdminTenths;
    assert total * maxT == (t.clinical * maxT) * ClinicalTenths + (t.admin * maxT) * AdminTenths;
    assert h * total <= total * maxT;
    assert (maxT + 1) * total == maxT * total + total;
    if h > maxT {
      MulMonotone(maxT + 1, h, total);
    }
  }

  /** The proportional scale-down applied when the targets ask for more hours than the capacity. */
  function FittedTargets(t: Targets, maxT: nat): (r: Targets)
    requires t.clinical >= 0 && t.admin >= 0
    ensures 0 <= r.clinical <= t.clinical && 0 <= r.admin <= t.admin
    ensures TargetHours(r) <= maxT
    ensures TargetHours(t) <= maxT ==> r == t
  {
    var total := TargetHours(t);
    if total > maxT then
      ScaledDown(t.clinical, maxT, total);
      ScaledDown(t.admin, maxT, total);
      ScaledTargetsFit(t, maxT);
      Targets(t.clinical * maxT / total, t.admin * maxT / total)
    else t
  }

  /**
   * The ledger invariant: hours conservation, no overdraft, counters within
   * their targets, and hours and shift counts that match the counters.
   */
  predicate LedgerOk(w: Workload)
  {
    && w.totalHours + w.remainingHours == w.maxHours
    && w.remainingHours >= 0
    && 0 <= w.currentAdmin <= w.targetAdmin
    && 0 <= w.currentClinical <= w.targetClinical
    && w.totalShifts == w.currentAdmin + w.currentClinical
    && w.totalHours == ClinicalTenths * w.currentClinical + AdminTenths * w.currentAdmin
    && 0 <= w.undesirableShifts <= w.totalShifts
  }

  /** A doctor's ledger at the start of a run. */
  function InitialWorkload(eft: nat, weeks: nat): (w: Workload)
    ensures w.maxHours == w.remainingHours == MaxTenths(eft, weeks)
    ensures w.totalHours == 0 && w.totalShifts == 0 && w.undesirableShifts == 0 && w.penaltyPoints == 0
    ensures w.currentClinical == 0 && w.currentAdmin == 0
    ensures w.targetClinical >= 0 && w.targetAdmin >= 0
    ensures w.targetClinical * ClinicalTenths + w.targetAdmin * AdminTenths <= w.maxHours
    ensures LedgerOk(w)
  {
    var maxT := MaxTenths(eft, weeks);
    var t := FittedTargets(FlooredTargets(eft, RatioTargets(maxT)), maxT);
    Workload(0, 0, 0, 0, maxT, maxT, t.clinical, t.admin, 0, 0)
  }

  /**
   * Once the capacity holds at least four average shifts (38 h), the floors and
   * the scale-down are no-ops and the targets keep the 3:1 ratio up to truncation.
   */
  lemma {:induction false} InitialTargetsKeepRatio(eft: nat, weeks: nat)
    requires MaxTenths(eft, weeks) >= 4 * 95
    ensures var w := InitialWorkload(eft, weeks);
      w.targetAdmin >= 1 && 3 * w.targetAdmin <= w.targetClinical <= 3 * w.targetAdmin + 2
  {
    var maxT := MaxTenths(eft, weeks);
    var t := RatioTargets(maxT);
    assert maxT / 95 >= 4;
    assert t.admin >= 1 && t.clinical >= 3;
    assert FlooredTargets(eft, t) == t;
  }

  /** Full-time doctor, one week: 40 h give 3 clinical and 1 admin target. */
  lemma {:induction false} FullTimeOneWeek()
    ensures InitialWorkload(100, 1).targetClinical == 3 && InitialWorkload(100, 1).targetAdmin == 1
  {
    assert MaxTenths(100, 1) == 400;
    assert RatioTargets(400) == Targets(3, 1);
    assert FlooredTargets(100, Targets(3, 1)) == Targets(3, 1);
    assert TargetHours(Targets(3, 1)) == 380;
  }

  /** Quarter-time doctor, one week: the clinical floor gives 1, and admin stays 0 because 1 < 3. */
  lemma {:induction false} QuarterTimeOneWeek()
    ensures InitialWorkload(25, 1).targetClinical == 1 && InitialWorkload(25, 1).targetAdmin == 0
  {
    assert MaxTenths(25, 1) == 100;
    assert RatioTargets(100) == Targets(0, 0);
    assert FlooredTargets(25, Targets(0, 0)) == Targets(1, 0);
    assert TargetHours(Targets(1, 0)) == 100;
  }

  /** Half-time doctor, one week: the floors (2, 1) ask for 28 h of 20, and scaling gives (1, 0). */
  lemma {:induction false} HalfTimeOneWeek()
    ensures InitialWorkload(50, 1).targetClinical == 1 && InitialWorkload(50, 1).targetAdmin == 0
  {
    assert MaxTenths(50, 1) == 200;
    assert RatioTargets(200) == Targets(1, 0);
    assert FlooredTargets(50, Targets(1, 0)) == Targets(2, 1);
    assert TargetHours(Targets(2, 1)) == 280;
    assert 2 * 200 / 280 == 1 && 1 * 200 / 280 == 0;
  }

  /** The ledger after committing shift `s` on a date whose Friday-ness is `friday`. */
  function Committed(w: Workload, s: Shift, friday: bool): (r: Workload)
    ensures r.totalHours == w.totalHours + s.hours && r.remainingHours == w.remainingHours - s.hours
    ensures r.totalShifts == w.totalShifts + 1
    ensures if ContainsAdmin(Label(s)) then r.currentAdmin == w.currentAdmin + 1 && r.currentClinical == w.currentClinical
            else r.currentClinical == w.currentClinical + 1 && r.currentAdmin == w.currentAdmin
    ensures r.undesirableShifts == w.undesirableShifts + (if s.undesirable then 1 else 0)
    ensures r.penaltyPoints == w.penaltyPoints + Penalty(s, friday)
    ensures r.maxHours == w.maxHours && r.targetClinical == w.targetClinical && r.targetAdmin == w.targetAdmin
  {
    var admin := ContainsAdmin(Label(s));
    w.(totalHours := w.totalHours + s.hours,
       totalShifts := w.totalShifts + 1,
       remainingHours := w.remainingHours - s.hours,
       currentAdmin := if admin then w.currentAdmin + 1 else w.currentAdmin,
       currentClinical := if admin then w.currentClinical else w.currentClinical + 1,
       undesirableShifts := if s.undesirable then w.undesirableShifts + 1 else w.undesirableShifts,
       penaltyPoints := w.penaltyPoints + Penalty(s, friday))
  }

  /**
   * Committing a catalog shift to a doctor who has the hours for it and is
   * below the target of its kind keeps the ledger invariant.
   */
  lemma {:induction false} CommitKeepsLedger(w: Workload, s: Shift, friday: bool)
    requires LedgerOk(w) && s in AllShifts()
    requires w.remainingHours >= s.hours
    requires if s.kind == "Admin" then w.currentAdmin < w.targetAdmin else w.currentClinical < w.targetClinical
    ensures LedgerOk(Committed(w, s, friday))
    ensures Committed(w, s, friday).penaltyPoints >= w.penaltyPoints
  {
    CatalogShape();
    CatalogAdminLabels();
    var k :| 0 <= k < |AllShifts()| && AllShifts()[k] == s;
    if k >= |ClinicalShifts()| {
      assert s == NonClinicalShifts()[k - |ClinicalShifts()|];
    } else {
      assert s in ClinicalShifts();
    }
  }

  /** The same ledger with `p` penalty points. */
  function WithPoints(w: Workload, p: int): Workload
  {
    w.(penaltyPoints := p)
  }

  /** Sum of all penalty points. */
  function TotalPenalty(ws: seq<Workload>): int
  {
    if |ws| == 0 then 0 else TotalPenalty(ws[..|ws| - 1]) + ws[|ws| - 1].penaltyPoints
  }

  /** Replacing one ledger changes the total by the change in its penalty points. */
  lemma {:induction false} TotalPenaltyUpdate(ws: seq<Workload>, i: int, w: Workload)
    requires 0 <= i < |ws|
    ensures TotalPenalty(ws[i := w]) == TotalPenalty(ws) - ws[i].penaltyPoints + w.penaltyPoints
    decreases |ws|
  {
    var n := |ws|;
    if i < n - 1 {
      assert ws[i := w][..n - 1] == ws[..n - 1][i := w];
      TotalPenaltyUpdate(ws[..n - 1], i, w);
    } else {
      assert ws[i := w][..n - 1] == ws[..n - 1];
    }
  }

  /** Every ledger with non-negative penalty points gives a non-negative total. */
  lemma {:induction false} TotalPenaltyNonNegative(ws: seq<Workload>)
    requires forall i :: 0 <= i < |ws| ==> ws[i].penaltyPoints >= 0
    ensures TotalPenalty(ws) >= 0
    decreases |ws|
  {
    if |ws| > 0 {
      TotalPenaltyNonNegative(ws[..|ws| - 1]);
    }
  }
}
