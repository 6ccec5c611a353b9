/**
 * The shift catalog: nine Frankston clinical shifts, two Rosebud clinical
 * shifts and fourteen admin shifts, in the order the scheduler lists them.
 */
module Catalog {
  import opened Shifts

  const FrankstonAmRoles: seq<string> := ["Blue", "Yellow", "Pink", "Brown", "EPIC"]
  const FrankstonPmRoles: seq<string> := ["Green", "Orange", "Pink", "Brown"]

  /** The decimal digit of `n`, as `str(n)` writes a one-digit number. */
  function Digit(n: nat): char
    requires n <= 9
  {
    (48 + n) as char
  }

  /** Frankston clinical shifts: five AM then four PM, 10 h each; Blue and Green are undesirable. */
  function FrankstonShifts(): seq<Shift>
  {
    seq(5, k requires 0 <= k < 5 =>
      Shift("Frankston", FrankstonAmRoles[k], "AM", ClinicalTenths, FrankstonAmRoles[k] == "Blue"))
    + seq(4, k requires 0 <= k < 4 =>
      Shift("Frankston", FrankstonPmRoles[k], "PM", ClinicalTenths, FrankstonPmRoles[k] == "Green"))
  }

  /** Rosebud clinical shifts: Red AM and the undesirable Red PM, 10 h each. */
  function RosebudShifts(): seq<Shift>
  {
    [Shift("Rosebud", "Red", "AM", ClinicalTenths, false),
     Shift("Rosebud", "Red", "PM", ClinicalTenths, true)]
  }

  /** Admin shifts, 8 h each: Frankston Admin-1..8, Frankston Admin-PM-1..4, Rosebud Admin-1..2. */
  function NonClinicalShifts(): seq<Shift>
  {
    seq(8, k requires 0 <= k < 8 => Shift("Frankston", "Admin-" + [Digit(k + 1)], "Admin", AdminTenths, false))
    + seq(4, k requires 0 <= k < 4 => Shift("Frankston", "Admin-PM-" + [Digit(k + 1)], "Admin", AdminTenths, false))
    + seq(2, k requires 0 <= k < 2 => Shift("Rosebud", "Admin-" + [Digit(k + 1)], "Admin", AdminTenths, false))
  }

  /** The clinical slots offered every day: Frankston first, then Rosebud. */
  function ClinicalShifts(): seq<Shift>
  {
    FrankstonShifts() + RosebudShifts()
  }

  /** Every shift the scheduler knows. */
  function AllShifts(): seq<Shift>
  {
    ClinicalShifts() + NonClinicalShifts()
  }

  /** Eleven clinical shifts: the nine Frankston ones, then the two Rosebud ones. */
  lemma {:induction false} ClinicalLayout()
    ensures |FrankstonShifts()| == 9 && |RosebudShifts()| == 2 && |ClinicalShifts()| == 11
    ensures forall f :: 0 <= f < 9 ==> ClinicalShifts()[f] == FrankstonShifts()[f]
    ensures forall r :: 0 <= r < 2 ==> ClinicalShifts()[9 + r] == RosebudShifts()[r]
  {
  }

  lemma {:induction false} ClinicalCount()
    ensures |ClinicalShifts()| == 11
  {
  }

  /** Sizes, sites, types, durations and undesirability flags of the catalog. */
  lemma {:induction false} CatalogShape()
    ensures |FrankstonShifts()| == 9 && |RosebudShifts()| == 2 && |NonClinicalShifts()| == 14
    ensures |ClinicalShifts()| == 11 && |AllShifts()| == 25
    ensures forall k :: 0 <= k < 9 ==>
      FrankstonShifts()[k].site == "Frankston" && FrankstonShifts()[k].kind == (if k < 5 then "AM" else "PM")
    ensures forall s :: s in RosebudShifts() ==> s.site == "Rosebud"
    ensures forall s :: s in ClinicalShifts() ==> s.hours == ClinicalTenths && (s.kind == "AM" || s.kind == "PM")
    ensures forall k :: 0 <= k < 14 ==>
      NonClinicalShifts()[k].hours == AdminTenths && NonClinicalShifts()[k].kind == "Admin"
      && (NonClinicalShifts()[k].site == "Rosebud" <==> k >= 12)
      && (NonClinicalShifts()[k].site == "Frankston" <==> k < 12)
    ensures forall s :: s in AllShifts() ==>
      (s.undesirable <==> s.role == "Blue" || s.role == "Green" || (s.site == "Rosebud" && s.kind == "PM"))
  {
    assert "Frankston" != "Rosebud";
    forall k | 0 <= k < 5
      ensures FrankstonAmRoles[k] != "Green"
    {
    }
    forall k | 0 <= k < 4
      ensures FrankstonPmRoles[k] != "Blue"
    {
    }
    forall k | 0 <= k < 14
      ensures NonClinicalShifts()[k].role != "Blue" && NonClinicalShifts()[k].role != "Green"
    {
      assert |NonClinicalShifts()[k].role| >= 7;
    }
  }

  /** A digit is not whitespace. */
  lemma {:induction false} DigitNotSpace(n: nat)
    requires n <= 9
    ensures !IsSpace(Digit(n)) && Digit(n) != 'm'
  {
  }

  /** The sites, types and the Rosebud role are single words. */
  lemma {:induction false} FixedFieldsAreWords()
    ensures IsWord("Frankston") && IsWord("Rosebud") && IsWord("Red")
    ensures IsWord("AM") && IsWord("PM") && IsWord("Admin")
  {
  }

  /** The Frankston clinical roles are single words. */
  lemma {:induction false} ClinicalRolesAreWords()
    ensures forall k :: 0 <= k < 5 ==> IsWord(FrankstonAmRoles[k])
    ensures forall k :: 0 <= k < 4 ==> IsWord(FrankstonPmRoles[k])
  {
  }

  /** Admin role k ("Admin-<n>" or "Admin-PM-<n>") is a single word. */
  lemma {:induction false} AdminRoleIsWord(k: int)
    requires 0 <= k < 14
    ensures IsWord(NonClinicalShifts()[k].role)
  {
    var r := NonClinicalShifts()[k].role;
    var d := r[|r| - 1];
    assert r == (if k < 8 || k >= 12 then "Admin-" else "Admin-PM-") + [d];
    DigitNotSpace(if k < 8 then k + 1 else if k < 12 then k - 7 else k - 11);
  }

  /** Every catalog shift has a label that splits back into three fields. */
  lemma {:induction false} CatalogWellFormed()
    ensures forall s :: s in AllShifts() ==> WellFormed(s)
  {
    FixedFieldsAreWords();
    ClinicalRolesAreWords();
    forall s | s in AllShifts()
      ensures WellFormed(s)
    {
      var k :| 0 <= k < |AllShifts()| && AllShifts()[k] == s;
      if k < 5 {
        assert s == FrankstonShifts()[k];
      } else if k < 9 {
        assert s == FrankstonShifts()[k];
      } else if k < 11 {
        assert s == RosebudShifts()[k - 9];
      } else {
        assert s == NonClinicalShifts()[k - 11];
        AdminRoleIsWord(k - 11);
      }
    }
  }

  /** A catalog label contains "Admin" exactly when the shift is an admin shift. */
  lemma {:induction false} CatalogAdminLabels()
    ensures forall s :: s in AllShifts() ==> (ContainsAdmin(Label(s)) <==> s.kind == "Admin")
  {
    assert 'm' !in "Frankston" && 'm' !in "Rosebud" && 'm' !in "AM" && 'm' !in "PM";
    forall k | 0 <= k < 5
      ensures 'm' !in FrankstonAmRoles[k]
    {
    }
    forall k | 0 <= k < 4
      ensures 'm' !in FrankstonPmRoles[k]
    {
    }
    assert 'm' !in "Red";
    forall s | s in ClinicalShifts()
      ensures !ContainsAdmin(Label(s))
    {
      NonAdminLabel(s);
    }
    forall s | s in NonClinicalShifts()
      ensures ContainsAdmin(Label(s))
    {
      AdminKindLabel(s);
    }
  }

  /** Position of a clinical role in its role list. */
  function RoleIndex(roles: seq<string>, role: string): int
  {
    if |roles| == 0 then 0 else if roles[0] == role then 0 else 1 + RoleIndex(roles[1..], role)
  }

  /** The value of the digit that ends an admin role. */
  function LastDigit(role: string): int
  {
    if |role| == 0 then 0 else role[|role| - 1] as int - 48
  }

  /** Decodes site, role and type back into a catalog position. */
  function CatalogIndex(site: string, role: string, kind: string): int
  {
    if kind == "AM" then (if site == "Frankston" then RoleIndex(FrankstonAmRoles, role) else 9)
    else if kind == "PM" then (if site == "Frankston" then 5 + RoleIndex(FrankstonPmRoles, role) else 10)
    else if site == "Rosebud" then 22 + LastDigit(role)
    else if |role| == 7 then 10 + LastDigit(role)
    else 18 + LastDigit(role)
  }

  lemma {:induction false} CatalogIndexInverts(k: int)
    requires 0 <= k < |AllShifts()|
    ensures CatalogIndex(AllShifts()[k].site, AllShifts()[k].role, AllShifts()[k].kind) == k
  {
    CatalogShape();
    if k < 9 {
      assert AllShifts()[k] == FrankstonShifts()[k];
      FrankstonIndexInverts(k);
    } else if k < 11 {
      assert AllShifts()[k] == RosebudShifts()[k - 9];
      assert "Frankston" != "Rosebud" && "AM" != "PM";
    } else {
      assert AllShifts()[k] == NonClinicalShifts()[k - 11];
      AdminIndexInverts(k - 11);
    }
  }

  /** Frankston clinical shift k decodes to position k. */
  lemma {:induction false} FrankstonIndexInverts(k: int)
    requires 0 <= k < 9
    ensures CatalogIndex(FrankstonShifts()[k].site, FrankstonShifts()[k].role, FrankstonShifts()[k].kind) == k
  {
    assert "AM" != "PM";
    if k < 5 {
      assert FrankstonShifts()[k].role == FrankstonAmRoles[k];
      assert FrankstonAmRoles[1..] == ["Yellow", "Pink", "Brown", "EPIC"];
      assert FrankstonAmRoles[1..][1..] == ["Pink", "Brown", "EPIC"];
      assert FrankstonAmRoles[1..][1..][1..] == ["Brown", "EPIC"];
      assert FrankstonAmRoles[1..][1..][1..][1..] == ["EPIC"];
    } else {
      assert FrankstonShifts()[k].role == FrankstonPmRoles[k - 5];
      assert FrankstonPmRoles[1..] == ["Orange", "Pink", "Brown"];
      assert FrankstonPmRoles[1..][1..] == ["Pink", "Brown"];
      assert FrankstonPmRoles[1..][1..][1..] == ["Brown"];
    }
  }

  /** Admin shift j decodes to position 11 + j, after the clinical shifts. */
  lemma {:induction false} AdminIndexInverts(j: int)
    requires 0 <= j < 14
    ensures CatalogIndex(NonClinicalShifts()[j].site, NonClinicalShifts()[j].role, NonClinicalShifts()[j].kind) == 11 + j
  {
    assert "Admin" != "AM" && "Admin" != "PM" && "Frankston" != "Rosebud";
  }

  /** The catalog position a label decodes to (-1 when it has fewer than three words). */
  function SlotOf(name: string): int
  {
    var w := Words(name);
    if |w| < 3 then -1 else CatalogIndex(w[0], w[1], w[2])
  }

  /** The label of some catalog shift, the only labels an allocator ever writes. */
  predicate IsCatalogLabel(name: string)
  {
    0 <= SlotOf(name) < |AllShifts()| && Label(AllShifts()[SlotOf(name)]) == name
  }

  /** Every catalog label decodes to its own position. */
  lemma {:induction false} SlotOfCatalog(k: int)
    requires 0 <= k < |AllShifts()|
    ensures SlotOf(Label(AllShifts()[k])) == k
    ensures IsCatalogLabel(Label(AllShifts()[k]))
  {
    CatalogWellFormed();
    assert AllShifts()[k] in AllShifts();
    WordsOfLabel(AllShifts()[k]);
    CatalogIndexInverts(k);
  }

  /** No two catalog entries share a label. */
  lemma {:induction false} CatalogLabelsDistinct(i: int, j: int)
    requires 0 <= i < |AllShifts()| && 0 <= j < |AllShifts()|
    requires Label(AllShifts()[i]) == Label(AllShifts()[j])
    ensures i == j
  {
    SlotOfCatalog(i);
    SlotOfCatalog(j);
  }
}
