/**
 * A shift definition, the penalty model, and the display label
 * "<site> <role> <type>" under which the scheduler stores a shift.
 * Sites, roles and shift types are strings, as in the scheduler itself;
 * durations are in tenths of an hour (a 10-hour shift is 100).
 */
module Shifts {
  import opened Wrappers

  /** Site, role, shift type ("AM", "PM" or "Admin"), duration and undesirability flag. */
  datatype Shift = Shift(site: string, role: string, kind: string, hours: int, undesirable: bool)

  /** Duration of a clinical shift (10 h), also the default a parsed label gets. */
  const ClinicalTenths := 100
  /** Duration of an admin shift (8 h). */
  const AdminTenths := 80

  /**
   * Penalty of working shift `s`, `friday` telling whether the date is a Friday:
   * 3 for a leadership role (Blue or Green), 3 for a Rosebud PM shift,
   * 2 for a Friday PM shift, 1 for any Rosebud shift.
   */
  function Penalty(s: Shift, friday: bool): (p: int)
    ensures 0 <= p <= 9
    ensures p == 0 <==>
      s.role != "Blue" && s.role != "Green" && s.site != "Rosebud" && !(friday && s.kind == "PM")
    ensures p == 9 <==>
      (s.role == "Blue" || s.role == "Green") && s.site == "Rosebud" && s.kind == "PM" && friday
  {
    (if s.role == "Blue" || s.role == "Green" then 3 else 0)
    + (if s.site == "Rosebud" && s.kind == "PM" then 3 else 0)
    + (if friday && s.kind == "PM" then 2 else 0)
    + (if s.site == "Rosebud" then 1 else 0)
  }

  /** The four terms are independent: the Friday term adds exactly 2 to a PM shift and nothing otherwise. */
  lemma {:induction false} FridayTerm(s: Shift)
    ensures Penalty(s, true) - Penalty(s, false) == if s.kind == "PM" then 2 else 0
  {
  }

  /** The penalty depends on site, role and type only, never on duration or the undesirability flag. */
  lemma {:induction false} PenaltyOfIdentity(s: Shift, t: Shift, friday: bool)
    requires s.site == t.site && s.role == t.role && s.kind == t.kind
    ensures Penalty(s, friday) == Penalty(t, friday)
  {
  }

  /** The ASCII whitespace characters, the separators `str.split()` can meet in a catalog label. */
  predicate IsSpace(c: char)
  {
    c == ' ' || 9 <= c as int <= 13 || 28 <= c as int <= 31
  }

  /** A non-empty string without whitespace: one field of a label. */
  predicate IsWord(w: string)
  {
    |w| > 0 && forall i :: 0 <= i < |w| ==> !IsSpace(w[i])
  }

  /** A shift whose label splits back into its three fields. */
  predicate WellFormed(s: Shift)
  {
    IsWord(s.site) && IsWord(s.role) && IsWord(s.kind)
  }

  /** The label "<site> <role> <type>" stored in the assignment table. */
  function Label(s: Shift): string
  {
    s.site + " " + s.role + " " + s.kind
  }

  /** Whitespace-separated words of `s`, `cur` being the word read so far. */
  function WordsFrom(s: string, cur: string): seq<string>
    decreases |s|
  {
    if |s| == 0 then (if |cur| == 0 then [] else [cur])
    else if IsSpace(s[0]) then (if |cur| == 0 then [] else [cur]) + WordsFrom(s[1..], [])
    else WordsFrom(s[1..], cur + [s[0]])
  }

  /** `str.split()` with no argument over ASCII whitespace: runs of it separate words, empty words are dropped. */
  function Words(s: string): seq<string>
  {
    WordsFrom(s, [])
  }

  /**
   * Re-derives a shift from a label: the first three words give site, role and type,
   * the duration defaults to 10 h and the undesirability flag to false;
   * fewer than three words give None.
   */
  function Parse(name: string): (r: Option<Shift>)
    ensures r.Some? <==> |Words(name)| >= 3
    ensures r.Some? ==> r.value.hours == ClinicalTenths && !r.value.undesirable
  {
    var parts := Words(name);
    if |parts| < 3 then None
    else Some(Shift(parts[0], parts[1], parts[2], ClinicalTenths, false))
  }

  /** Python's `"Admin" in name`: the label contains "Admin" as a substring. */
  predicate ContainsAdmin(name: string)
  {
    exists i | 0 <= i <= |name| - 5 :: AdminAt(name, i)
  }

  /** "Admin" occurs in `name` starting at position `i`. */
  predicate AdminAt(name: string, i: int)
  {
    0 <= i <= |name| - 5 && name[i..i + 5] == "Admin"
  }

  lemma {:induction false} WordsFromWord(w: string, rest: string, cur: string)
    requires forall i :: 0 <= i < |w| ==> !IsSpace(w[i])
    ensures WordsFrom(w + rest, cur) == WordsFrom(rest, cur + w)
    decreases |w|
  {
    if |w| == 0 {
      assert w + rest == rest;
      assert cur + w == cur;
    } else {
      assert (w + rest)[0] == w[0];
      assert (w + rest)[1..] == w[1..] + rest;
      WordsFromWord(w[1..], rest, cur + [w[0]]);
      assert cur + [w[0]] + w[1..] == cur + w;
    }
  }

  /** A word followed by a separator yields that word and then the words of the rest. */
  lemma {:induction false} WordsOfWordThenSpace(w: string, rest: string)
    requires IsWord(w)
    ensures Words(w + " " + rest) == [w] + Words(rest)
  {
    assert w + " " + rest == w + (" " + rest);
    WordsFromWord(w, " " + rest, []);
    assert [] + w == w;
    assert (" " + rest)[1..] == rest;
  }

  /** Splitting a label gives back its three fields. */
  lemma {:induction false} WordsOfLabel(s: Shift)
    requires WellFormed(s)
    ensures Words(Label(s)) == [s.site, s.role, s.kind]
  {
    assert Label(s) == s.site + " " + (s.role + " " + s.kind);
    WordsOfWordThenSpace(s.site, s.role + " " + s.kind);
    WordsOfWordThenSpace(s.role, s.kind);
    WordsFromWord(s.kind, [], []);
    assert s.kind + [] == s.kind;
    assert [] + s.kind == s.kind;
  }

  /** Parsing the label of a well-formed shift recovers its site, role and type. */
  lemma {:induction false} ParseLabel(s: Shift)
    requires WellFormed(s)
    ensures Parse(Label(s)) == Some(Shift(s.site, s.role, s.kind, ClinicalTenths, false))
    ensures Penalty(Parse(Label(s)).value, true) == Penalty(s, true)
    ensures Penalty(Parse(Label(s)).value, false) == Penalty(s, false)
  {
    WordsOfLabel(s);
  }

  /** Two well-formed shifts with the same label agree on site, role and type. */
  lemma {:induction false} LabelInjective(s: Shift, t: Shift)
    requires WellFormed(s) && WellFormed(t)
    requires Label(s) == Label(t)
    ensures s.site == t.site && s.role == t.role && s.kind == t.kind
  {
    ParseLabel(s);
    ParseLabel(t);
  }

  /** The label of an admin-type shift contains "Admin". */
  lemma {:induction false} AdminKindLabel(s: Shift)
    requires s.kind == "Admin"
    ensures ContainsAdmin(Label(s))
  {
    var prefix := s.site + " " + s.role + " ";
    assert Label(s) == prefix + "Admin";
    assert AdminAt(Label(s), |prefix|);
  }

  /** A label without a lower-case 'm' cannot contain "Admin". */
  lemma {:induction false} NoAdminWithoutM(name: string)
    requires 'm' !in name
    ensures !ContainsAdmin(name)
  {
    forall i | 0 <= i <= |name| - 5
      ensures !AdminAt(name, i)
    {
      assert name[i..i + 5][2] == name[i + 2];
    }
  }

  /** The label of a shift none of whose fields has a lower-case 'm' does not contain "Admin". */
  lemma {:induction false} NonAdminLabel(s: Shift)
    requires 'm' !in s.site && 'm' !in s.role && 'm' !in s.kind
    ensures !ContainsAdmin(Label(s))
  {
    NoAdminWithoutM(Label(s));
  }
}
