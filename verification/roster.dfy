/**
 * The roster as a whole: doctors, one ledger and one agenda per doctor, the
 * invariant tying them together, and the facts every allocator step needs.
 */
module Roster {
  import opened Wrappers
  import opened Shifts
  import opened Catalog
  import opened Ledger
  import opened Agendas
  import opened Ranking

  /** A doctor as the allocator sees it: EFT in hundredths, unavailable days as day numbers. */
  datatype Doctor = Doctor(name: string, eft: nat, unavailable: set<int>)

  ghost predicate DistinctNames(ds: seq<Doctor>)
  {
    forall i, j :: 0 <= i < j < |ds| ==> ds[i].name != ds[j].name
  }

  /** The label of one of the fourteen admin shifts. */
  ghost predicate IsAdminLabel(name: string)
  {
    IsCatalogLabel(name) && SlotOf(name) >= |ClinicalShifts()|
  }

  /** The label of one of the eleven clinical shifts. */
  ghost predicate IsClinicalLabel(name: string)
  {
    IsCatalogLabel(name) && SlotOf(name) < |ClinicalShifts()|
  }

  /**
   * One ledger and one agenda per doctor; every ledger balanced; every agenda a
   * dictionary of catalog labels with one entry per shift counted in its ledger.
   */
  ghost predicate RosterOk(ds: seq<Doctor>, ws: seq<Workload>, xs: seq<Agenda>)
  {
    && |ws| == |ds| && |xs| == |ds|
    && (forall i :: 0 <= i < |ds| ==> LedgerOk(ws[i]) && AgendaOk(xs[i]) && ws[i].totalShifts == |xs[i].dates|)
    && LabelsOk(xs)
    && TotalPenalty(ws) >= 0
  }

  /** Every entry of every agenda carries a catalog label (stated doctor by doctor; see LabelsOkAll). */
  ghost predicate LabelsOk(xs: seq<Agenda>)
    decreases |xs|
  {
    |xs| == 0 || (LabelsOk(xs[..|xs| - 1]) && AgendaLabelsOk(xs[|xs| - 1]))
  }

  ghost predicate AgendaLabelsOk(a: Agenda)
  {
    forall d :: d in a.labelOn ==> IsCatalogLabel(a.labelOn[d])
  }

  lemma {:induction false} LabelsOkAll(xs: seq<Agenda>)
    ensures LabelsOk(xs) <==> forall i, d :: 0 <= i < |xs| && d in xs[i].labelOn ==> IsCatalogLabel(xs[i].labelOn[d])
    decreases |xs|
  {
    if |xs| > 0 {
      var p := xs[..|xs| - 1];
      LabelsOkAll(p);
      assert forall i :: 0 <= i < |p| ==> p[i] == xs[i];
    }
  }

  /** Free on `d`, below the admin target, and with 8 hours left. */
  predicate AdminEligible(w: Workload, a: Agenda, d: int)
  {
    d !in a.labelOn && w.currentAdmin < w.targetAdmin && w.remainingHours >= AdminTenths
  }

  /** Free on `d`, below the clinical target, and with the hours of `s` left. */
  predicate ClinicalEligible(w: Workload, a: Agenda, d: int, s: Shift)
  {
    d !in a.labelOn && w.currentClinical < w.targetClinical && w.remainingHours >= s.hours
  }

  function AdminDeficit(w: Workload): int
  {
    w.targetAdmin - w.currentAdmin
  }

  function ClinicalDeficit(w: Workload): int
  {
    w.targetClinical - w.currentClinical
  }

  /** The doctors among the first `n` who may take an admin shift on `d`, with their deficits, in roster order. */
  function AdminPairs(ws: seq<Workload>, xs: seq<Agenda>, d: int, n: nat): (r: seq<Ranked>)
    requires n <= |ws| && n <= |xs|
    ensures InRosterOrder(r)
    ensures forall x :: x in r <==>
      (x.doctor < n && AdminEligible(ws[x.doctor], xs[x.doctor], d) && x.key == AdminDeficit(ws[x.doctor]))
  {
    if n == 0 then []
    else
      var r := AdminPairs(ws, xs, d, n - 1);
      var i := n - 1;
      if AdminEligible(ws[i], xs[i], d) then r + [Ranked(i, AdminDeficit(ws[i]))] else r
  }

  /** Admin candidates on `d`: largest deficit first, ties in roster order. */
  function AdminRanking(ws: seq<Workload>, xs: seq<Agenda>, d: int): (r: seq<Ranked>)
    requires |ws| == |xs|
    ensures SortedBy(r, true) && DistinctDoctors(r)
    ensures forall x :: x in r <==>
      (0 <= x.doctor < |ws| && AdminEligible(ws[x.doctor], xs[x.doctor], d) && x.key == AdminDeficit(ws[x.doctor]))
    ensures forall j :: 0 <= j < |r| ==> r[j].doctor < |ws|
  {
    var pairs := AdminPairs(ws, xs, d, |ws|);
    SortSorted(pairs, true);
    SortKeepsDoctors(pairs, true);
    Sort(pairs, true)
  }

  /** Doctors among the first n who could take clinical shift `s` on `d`, in roster order. */
  function ClinicalPool(ws: seq<Workload>, xs: seq<Agenda>, d: int, s: Shift, n: nat): (r: seq<nat>)
    requires n <= |ws| && n <= |xs|
    ensures forall a, b :: 0 <= a < b < |r| ==> r[a] < r[b]
    ensures forall i: nat :: i in r <==> i < n && ClinicalEligible(ws[i], xs[i], d, s)
  {
    if n == 0 then []
    else
      var r := ClinicalPool(ws, xs, d, s, n - 1);
      assert forall a :: 0 <= a < |r| ==> r[a] in r;
      if ClinicalEligible(ws[n - 1], xs[n - 1], d, s) then r + [n - 1] else r
  }

  /**
   * Doctor b is the one `max` picks: eligible, with the largest clinical
   * deficit, and strictly ahead of every eligible doctor before it in the roster.
   */
  predicate BestClinical(ws: seq<Workload>, xs: seq<Agenda>, d: int, s: Shift, b: nat)
    requires |ws| == |xs|
  {
    && b < |ws| && ClinicalEligible(ws[b], xs[b], d, s)
    && (forall i :: 0 <= i < |ws| && ClinicalEligible(ws[i], xs[i], d, s) ==> ClinicalDeficit(ws[i]) <= ClinicalDeficit(ws[b]))
    && (forall i :: 0 <= i < b && ClinicalEligible(ws[i], xs[i], d, s) ==> ClinicalDeficit(ws[i]) < ClinicalDeficit(ws[b]))
  }

  /** There is at most one best doctor for a slot. */
  lemma {:induction false} BestClinicalUnique(ws: seq<Workload>, xs: seq<Agenda>, d: int, s: Shift, a: nat, b: nat)
    requires |ws| == |xs| && BestClinical(ws, xs, d, s, a) && BestClinical(ws, xs, d, s, b)
    ensures a == b
  {
  }

  /** Catalog labels name their shift: clinical ones the first eleven, admin ones the rest. */
  lemma {:induction false} CatalogLabelKinds(k: int)
    requires 0 <= k < |AllShifts()|
    ensures IsCatalogLabel(Label(AllShifts()[k]))
    ensures k < |ClinicalShifts()| ==> IsClinicalLabel(Label(AllShifts()[k]))
    ensures k >= |ClinicalShifts()| ==> IsAdminLabel(Label(AllShifts()[k]))
  {
    SlotOfCatalog(k);
  }

  /** Committing an eligible doctor to a catalog shift keeps the roster invariant. */
  lemma {:induction false} CommitKeepsRoster(ds: seq<Doctor>, ws: seq<Workload>, xs: seq<Agenda>, i: int, d: int, s: Shift)
    requires RosterOk(ds, ws, xs) && 0 <= i < |ds| && d !in xs[i].labelOn && s in AllShifts()
    requires ws[i].remainingHours >= s.hours
    requires if s.kind == "Admin" then ws[i].currentAdmin < ws[i].targetAdmin else ws[i].currentClinical < ws[i].targetClinical
    ensures var ws', xs' := ws[i := Committed(ws[i], s, IsFriday(d))], xs[i := Put(xs[i], d, Label(s))];
      RosterOk(ds, ws', xs') && TotalPenalty(ws') >= TotalPenalty(ws)
  {
    CommitKeepsLedger(ws[i], s, IsFriday(d));
    TotalPenaltyUpdate(ws, i, Committed(ws[i], s, IsFriday(d)));
    var k :| 0 <= k < |AllShifts()| && AllShifts()[k] == s;
    SlotOfCatalog(k);
    LabelsOkAll(xs);
    LabelsOkAll(xs[i := Put(xs[i], d, Label(s))]);
  }

  /** The shifts of `xs` at `site`, in order. */
  function AtSite(xs: seq<Shift>, site: string): seq<Shift>
  {
    if |xs| == 0 then [] else (if xs[0].site == site then [xs[0]] else []) + AtSite(xs[1..], site)
  }

  lemma {:induction false} AtSiteAppend(xs: seq<Shift>, ys: seq<Shift>, site: string)
    ensures AtSite(xs + ys, site) == AtSite(xs, site) + AtSite(ys, site)
    decreases |xs|
  {
    if |xs| == 0 {
      assert xs + ys == ys;
    } else {
      var head := if xs[0].site == site then [xs[0]] else [];
      assert (xs + ys)[0] == xs[0];
      assert (xs + ys)[1..] == xs[1..] + ys;
      AtSiteAppend(xs[1..], ys, site);
      assert AtSite(xs + ys, site) == head + (AtSite(xs[1..], site) + AtSite(ys, site));
      assert AtSite(xs, site) == head + AtSite(xs[1..], site);
    }
  }

  lemma {:induction false} AtSiteAll(xs: seq<Shift>, site: string)
    requires forall k :: 0 <= k < |xs| ==> xs[k].site == site
    ensures AtSite(xs, site) == xs
    decreases |xs|
  {
    if |xs| > 0 {
      AtSiteAll(xs[1..], site);
    }
  }

  lemma {:induction false} AtSiteNone(xs: seq<Shift>, site: string)
    requires forall k :: 0 <= k < |xs| ==> xs[k].site != site
    ensures AtSite(xs, site) == []
    decreases |xs|
  {
    if |xs| > 0 {
      AtSiteNone(xs[1..], site);
    }
  }

  /** The admin shifts in the order they are offered each day: the two Rosebud ones, then the twelve Frankston ones. */
  function BalancedAdmin(): seq<Shift>
  {
    CatalogShape();
    NonClinicalShifts()[12..] + NonClinicalShifts()[..12]
  }

  /** Splitting a list whose first `n` shifts are at one site and the rest at another. */
  lemma {:induction false} SplitSites(a: seq<Shift>, b: seq<Shift>, first: string, second: string)
    requires first != second
    requires forall k :: 0 <= k < |a| ==> a[k].site == first
    requires forall k :: 0 <= k < |b| ==> b[k].site == second
    ensures AtSite(a + b, second) + AtSite(a + b, first) == b + a
  {
    assert AtSite(a + b, second) == b by {
      AtSiteAppend(a, b, second);
      AtSiteNone(a, second);
      AtSiteAll(b, second);
      assert [] + b == b;
    }
    assert AtSite(a + b, first) == a by {
      AtSiteAppend(a, b, first);
      AtSiteAll(a, first);
      AtSiteNone(b, first);
      assert a + [] == a;
    }
  }

  /** Filtering the admin shifts by site, Rosebud then Frankston, gives the offer order. */
  lemma {:induction false} BalancedAdminBySite()
    ensures AtSite(NonClinicalShifts(), "Rosebud") + AtSite(NonClinicalShifts(), "Frankston") == BalancedAdmin()
  {
    CatalogShape();
    var xs := NonClinicalShifts();
    assert xs == xs[..12] + xs[12..];
    SplitSites(xs[..12], xs[12..], "Frankston", "Rosebud");
  }

  /** Catalog position of the j-th offered admin shift. */
  function OfferSlot(j: nat): nat
  {
    if j < 2 then 23 + j else 9 + j
  }

  /** Every offered shift is an admin catalog shift of 8 hours, and the offers have distinct labels. */
  lemma {:induction false} BalancedAdminFacts()
    ensures |BalancedAdmin()| == 14
    ensures forall j :: 0 <= j < 14 ==> BalancedAdmin()[j] == AllShifts()[OfferSlot(j)]
    ensures forall j :: 0 <= j < 14 ==>
      (BalancedAdmin()[j] in AllShifts() && BalancedAdmin()[j].kind == "Admin"
       && BalancedAdmin()[j].hours == AdminTenths && IsAdminLabel(Label(BalancedAdmin()[j])))
    ensures forall j, k :: 0 <= j < 14 && 0 <= k < 14 && j != k ==> Label(BalancedAdmin()[j]) != Label(BalancedAdmin()[k])
    ensures forall j :: 0 <= j < 14 ==>
      (BalancedAdmin()[j].site == "Rosebud" <==> j < 2) && (BalancedAdmin()[j].site == "Frankston" <==> 2 <= j)
  {
    forall j | 0 <= j < 14
      ensures |BalancedAdmin()| == 14 && BalancedAdmin()[j] == AllShifts()[OfferSlot(j)]
      ensures BalancedAdmin()[j] in AllShifts() && BalancedAdmin()[j].kind == "Admin"
        && BalancedAdmin()[j].hours == AdminTenths && IsAdminLabel(Label(BalancedAdmin()[j]))
      ensures (BalancedAdmin()[j].site == "Rosebud" <==> j < 2) && (BalancedAdmin()[j].site == "Frankston" <==> 2 <= j)
    {
      OfferFacts(j);
    }
    forall j, k | 0 <= j < 14 && 0 <= k < 14 && j != k
      ensures Label(BalancedAdmin()[j]) != Label(BalancedAdmin()[k])
    {
      OfferFacts(j);
      OfferFacts(k);
      if Label(BalancedAdmin()[j]) == Label(BalancedAdmin()[k]) {
        CatalogLabelsDistinct(OfferSlot(j), OfferSlot(k));
      }
    }
  }

  /** The j-th offered admin shift is catalog shift OfferSlot(j), an 8-hour admin shift at its site. */
  lemma {:induction false} OfferFacts(j: int)
    requires 0 <= j < 14
    ensures |BalancedAdmin()| == 14 && OfferSlot(j) < |AllShifts()| && BalancedAdmin()[j] == AllShifts()[OfferSlot(j)]
    ensures BalancedAdmin()[j] in AllShifts() && BalancedAdmin()[j].kind == "Admin"
      && BalancedAdmin()[j].hours == AdminTenths && IsAdminLabel(Label(BalancedAdmin()[j]))
    ensures (BalancedAdmin()[j].site == "Rosebud" <==> j < 2) && (BalancedAdmin()[j].site == "Frankston" <==> 2 <= j)
  {
    var k := if j < 2 then 12 + j else j - 2;
    assert BalancedAdmin()[j] == NonClinicalShifts()[k] == AllShifts()[OfferSlot(j)] by {
      CatalogShape();
    }
    assert NonClinicalShifts()[k].kind == "Admin" && NonClinicalShifts()[k].hours == AdminTenths
      && (NonClinicalShifts()[k].site == "Rosebud" <==> k >= 12)
      && (NonClinicalShifts()[k].site == "Frankston" <==> k < 12) by {
      CatalogShape();
    }
    CatalogLabelKinds(OfferSlot(j));
  }

  /** Sum of all admin targets. */
  function AdminTargetSum(ws: seq<Workload>): int
  {
    if |ws| == 0 then 0 else AdminTargetSum(ws[..|ws| - 1]) + ws[|ws| - 1].targetAdmin
  }

  lemma {:induction false} AdminTargetSumNonNegative(ws: seq<Workload>)
    requires forall i :: 0 <= i < |ws| ==> ws[i].targetAdmin >= 0
    ensures AdminTargetSum(ws) >= 0
    decreases |ws|
  {
    if |ws| > 0 {
      AdminTargetSumNonNegative(ws[..|ws| - 1]);
    }
  }

  /** Admin shifts allowed per day: the admin targets spread evenly over the days, at least one. */
  function AdminCap(ws: seq<Workload>, days: nat): (cap: nat)
    requires days > 0
    ensures cap >= 1
    ensures AdminTargetSum(ws) >= 0 ==> cap == Max(1, AdminTargetSum(ws) / days)
    ensures cap * days <= Max(days, AdminTargetSum(ws))
  {
    var per := AdminTargetSum(ws) / days;
    if per < 1 then 1 else per
  }

  /**
   * The swap the rebalancer makes: doctor h's shift on dh for doctor l's on dl,
   * when h's shift is worth more than one point more than l's and each doctor
   * is available on the other's date.
   */
  ghost predicate Swappable(ds: seq<Doctor>, xs: seq<Agenda>, h: int, dh: int, l: int, dl: int)
  {
    && 0 <= h < |ds| && 0 <= l < |ds| && |xs| == |ds|
    && dh in xs[h].labelOn && dl in xs[l].labelOn
    && Parse(xs[h].labelOn[dh]).Some? && Parse(xs[l].labelOn[dl]).Some?
    && EntryPenalty(xs, h, dh) > EntryPenalty(xs, l, dl) + 1
    && dl !in ds[h].unavailable && dh !in ds[l].unavailable
  }

  /** The points the rebalancer reads off doctor i's entry on d: the penalty of the parsed label on that date. */
  function EntryPenalty(xs: seq<Agenda>, i: int, d: int): int
    requires 0 <= i < |xs| && d in xs[i].labelOn && Parse(xs[i].labelOn[d]).Some?
  {
    Penalty(Parse(xs[i].labelOn[d]).value, IsFriday(d))
  }

  /**
   * The first swappable pair in iteration order: the a-th date of h and the
   * b-th date of l, with no swappable pair at an earlier date of h, or at an
   * earlier date of l for the same date of h.
   */
  ghost predicate FirstSwappable(ds: seq<Doctor>, xs: seq<Agenda>, h: int, l: int, a: int, b: int)
    requires 0 <= h < |xs| && 0 <= l < |xs|
  {
    && 0 <= a < |xs[h].dates| && 0 <= b < |xs[l].dates|
    && Swappable(ds, xs, h, xs[h].dates[a], l, xs[l].dates[b])
    && forall a', b' :: 0 <= a' < |xs[h].dates| && 0 <= b' < |xs[l].dates| && (a' < a || (a' == a && b' < b)) ==>
         !Swappable(ds, xs, h, xs[h].dates[a'], l, xs[l].dates[b'])
  }

  /** At most one pair is the first swappable one. */
  lemma {:induction false} FirstSwappableUnique(ds: seq<Doctor>, xs: seq<Agenda>, h: int, l: int, a: int, b: int, a2: int, b2: int)
    requires 0 <= h < |xs| && 0 <= l < |xs|
    requires FirstSwappable(ds, xs, h, l, a, b) && FirstSwappable(ds, xs, h, l, a2, b2)
    ensures a == a2 && b == b2
  {
  }

  /** The agendas after exchanging the labels of (h, dh) and (l, dl); each keeps its own dates. */
  function SwappedAgendas(xs: seq<Agenda>, h: int, dh: int, l: int, dl: int): (r: seq<Agenda>)
    requires 0 <= h < |xs| && 0 <= l < |xs| && dh in xs[h].labelOn && dl in xs[l].labelOn
    requires AgendaOk(xs[h]) && AgendaOk(xs[l])
    ensures |r| == |xs|
    ensures forall i :: 0 <= i < |xs| ==> r[i].dates == xs[i].dates && r[i].labelOn.Keys == xs[i].labelOn.Keys
    ensures forall i, d ::
      (0 <= i < |xs| && d in xs[i].labelOn && (i, d) != (h, dh) && (i, d) != (l, dl)) ==> r[i].labelOn[d] == xs[i].labelOn[d]
    ensures (h, dh) != (l, dl) ==> r[h].labelOn[dh] == xs[l].labelOn[dl] && r[l].labelOn[dl] == xs[h].labelOn[dh]
  {
    var first := xs[h := Put(xs[h], dh, xs[l].labelOn[dl])];
    first[l := Put(first[l], dl, xs[h].labelOn[dh])]
  }

  /** The ledgers after the swap: h gives up p1 and takes p2 points, l the other way round. */
  function SwappedWorkloads(ws: seq<Workload>, h: int, p1: int, l: int, p2: int): (r: seq<Workload>)
    requires 0 <= h < |ws| && 0 <= l < |ws|
    ensures |r| == |ws|
    ensures forall i :: 0 <= i < |ws| ==> r[i] == WithPoints(ws[i], r[i].penaltyPoints)
    ensures forall i :: 0 <= i < |ws| && i != h && i != l ==> r[i] == ws[i]
    ensures h != l ==> r[h].penaltyPoints == ws[h].penaltyPoints - p1 + p2 && r[l].penaltyPoints == ws[l].penaltyPoints - p2 + p1
    ensures TotalPenalty(r) == TotalPenalty(ws)
  {
    var first := ws[h := WithPoints(ws[h], ws[h].penaltyPoints - p1 + p2)];
    TotalPenaltyUpdate(ws, h, first[h]);
    var second := first[l := WithPoints(first[l], first[l].penaltyPoints - p2 + p1)];
    TotalPenaltyUpdate(first, l, second[l]);
    second
  }

  /** A swap keeps the roster invariant, every doctor's days, every day's head count and the points total. */
  lemma {:induction false} SwapKeepsRoster(ds: seq<Doctor>, ws: seq<Workload>, xs: seq<Agenda>, h: int, dh: int, l: int, dl: int, p1: int, p2: int)
    requires RosterOk(ds, ws, xs) && 0 <= h < |ds| && 0 <= l < |ds| && dh in xs[h].labelOn && dl in xs[l].labelOn
    ensures RosterOk(ds, SwappedWorkloads(ws, h, p1, l, p2), SwappedAgendas(xs, h, dh, l, dl))
    ensures SameDates(xs, SwappedAgendas(xs, h, dh, l, dl))
    ensures forall e :: CountOn(SwappedAgendas(xs, h, dh, l, dl), e) == CountOn(xs, e)
  {
    SwapKeepsCounts(xs, h, dh, l, dl);
    SwapKeepsLabels(ds, ws, xs, h, dh, l, dl);
    SwapKeepsLedgers(ws, h, p1, l, p2);
  }

  /** Relabelling two entries changes no day's head count. */
  lemma {:induction false} SwapKeepsCounts(xs: seq<Agenda>, h: int, dh: int, l: int, dl: int)
    requires 0 <= h < |xs| && 0 <= l < |xs| && dh in xs[h].labelOn && dl in xs[l].labelOn
    requires AgendaOk(xs[h]) && AgendaOk(xs[l])
    ensures forall e :: CountOn(SwappedAgendas(xs, h, dh, l, dl), e) == CountOn(xs, e)
  {
    var first := xs[h := Put(xs[h], dh, xs[l].labelOn[dl])];
    forall e
      ensures CountOn(first[l := Put(first[l], dl, xs[h].labelOn[dh])], e) == CountOn(xs, e)
    {
      CountOnRelabel(xs, h, dh, xs[l].labelOn[dl], e);
      CountOnRelabel(first, l, dl, xs[h].labelOn[dh], e);
    }
  }

  /** After a swap every entry still carries a catalog label. */
  lemma {:induction false} SwapKeepsLabels(ds: seq<Doctor>, ws: seq<Workload>, xs: seq<Agenda>, h: int, dh: int, l: int, dl: int)
    requires RosterOk(ds, ws, xs) && 0 <= h < |ds| && 0 <= l < |ds| && dh in xs[h].labelOn && dl in xs[l].labelOn
    ensures LabelsOk(SwappedAgendas(xs, h, dh, l, dl))
  {
    var r := SwappedAgendas(xs, h, dh, l, dl);
    LabelsOkAll(xs);
    LabelsOkAll(r);
    assert forall i, d :: 0 <= i < |r| && d in r[i].labelOn ==> d in xs[i].labelOn;
  }

  /** Moving points changes no ledger's invariant nor its shift count. */
  lemma {:induction false} SwapKeepsLedgers(ws: seq<Workload>, h: int, p1: int, l: int, p2: int)
    requires 0 <= h < |ws| && 0 <= l < |ws|
    ensures forall i :: 0 <= i < |ws| ==>
      (LedgerOk(SwappedWorkloads(ws, h, p1, l, p2)[i]) <==> LedgerOk(ws[i]))
      && SwappedWorkloads(ws, h, p1, l, p2)[i].totalShifts == ws[i].totalShifts
  {
  }

  /** Swapping the same two entries again restores every agenda. */
  lemma {:induction false} SwapTwice(xs: seq<Agenda>, h: int, dh: int, l: int, dl: int)
    requires 0 <= h < |xs| && 0 <= l < |xs| && dh in xs[h].labelOn && dl in xs[l].labelOn
    requires AgendaOk(xs[h]) && AgendaOk(xs[l])
    ensures SwappedAgendas(SwappedAgendas(xs, h, dh, l, dl), h, dh, l, dl) == xs
  {
    var t := SwappedAgendas(SwappedAgendas(xs, h, dh, l, dl), h, dh, l, dl);
    forall i | 0 <= i < |xs|
      ensures t[i] == xs[i]
    {
      SwapTwiceAt(xs, h, dh, l, dl, i);
    }
  }

  /** One agenda after two identical swaps. */
  lemma {:induction false} SwapTwiceAt(xs: seq<Agenda>, h: int, dh: int, l: int, dl: int, i: int)
    requires 0 <= h < |xs| && 0 <= l < |xs| && dh in xs[h].labelOn && dl in xs[l].labelOn
    requires AgendaOk(xs[h]) && AgendaOk(xs[l]) && 0 <= i < |xs|
    ensures SwappedAgendas(SwappedAgendas(xs, h, dh, l, dl), h, dh, l, dl)[i] == xs[i]
  {
    var r := SwappedAgendas(xs, h, dh, l, dl);
    var t := SwappedAgendas(r, h, dh, l, dl);
    if (h, dh) == (l, dl) {
      SwapSelf(xs, h, dh);
      SwapSelf(r, h, dh);
    } else {
      forall d | d in xs[i].labelOn
        ensures t[i].labelOn[d] == xs[i].labelOn[d]
      {
      }
      assert t[i].labelOn == xs[i].labelOn;
    }
  }

  /** Swapping an entry with itself changes nothing. */
  lemma {:induction false} SwapSelf(xs: seq<Agenda>, h: int, dh: int)
    requires 0 <= h < |xs| && dh in xs[h].labelOn && AgendaOk(xs[h])
    ensures SwappedAgendas(xs, h, dh, h, dh) == xs
  {
    assert xs[h].labelOn[dh := xs[h].labelOn[dh]] == xs[h].labelOn;
  }

  /** A swap leaves every other doctor's agenda as it was. */
  lemma {:induction false} SwapLeavesOthers(xs: seq<Agenda>, h: int, dh: int, l: int, dl: int, i: int)
    requires 0 <= h < |xs| && 0 <= l < |xs| && dh in xs[h].labelOn && dl in xs[l].labelOn
    requires AgendaOk(xs[h]) && AgendaOk(xs[l])
    requires 0 <= i < |xs| && i != h && i != l
    ensures SwappedAgendas(xs, h, dh, l, dl)[i] == xs[i]
  {
  }

  /** The swapped ledgers are the two successive updates of the points. */
  lemma {:induction false} SwappedWorkloadsSteps(ws: seq<Workload>, h: int, p1: int, l: int, p2: int)
    requires 0 <= h < |ws| && 0 <= l < |ws|
    ensures var first := ws[h := WithPoints(ws[h], ws[h].penaltyPoints - p1 + p2)];
      SwappedWorkloads(ws, h, p1, l, p2) == first[l := WithPoints(first[l], first[l].penaltyPoints - p2 + p1)]
  {
  }

  /** The swapped agendas are the two successive dictionary assignments. */
  lemma {:induction false} SwappedAgendasSteps(xs: seq<Agenda>, h: int, dh: int, l: int, dl: int)
    requires 0 <= h < |xs| && 0 <= l < |xs| && dh in xs[h].labelOn && dl in xs[l].labelOn
    requires AgendaOk(xs[h]) && AgendaOk(xs[l])
    ensures var first := xs[h := Put(xs[h], dh, xs[l].labelOn[dl])];
      SwappedAgendas(xs, h, dh, l, dl) == first[l := Put(first[l], dl, xs[h].labelOn[dh])]
  {
  }
}
