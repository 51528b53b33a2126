/**
 * The string codec of a perk ("Specialty:Level", e.g. "Electrician:Skilled" or
 * "Mechanic:1") and the requirement rules: a perk meets a requirement of the same
 * specialty at a level at least as high; a perk list meets a requirement when any
 * perk does; it meets a requirement list when it meets every requirement.
 */
module Perks {
  import opened Wrappers
  import Text
  import PT = PerkTypes

  /** Perk.ToString: the two enum names around one ':'. */
  function ToString(p: PT.Perk): (r: string)
    ensures Text.SplitNonEmpty(r, ':') == [PT.SpecialtyName(p.specialty), PT.LevelName(p.level)]
  {
    var a := PT.SpecialtyName(p.specialty);
    var b := PT.LevelName(p.level);
    Text.SplitPair(a, ":", b, ':');
    a + ":" + b
  }

  /**
   * Perk.FromString: split on ':' dropping empty pieces, then Enum.Parse the first two
   * pieces. Fewer than two pieces is the IndexOutOfRangeException of `parts[1]`; a
   * piece that names no enum member is Enum.Parse's ArgumentException.
   */
  function FromString(text: string): (r: Result<PT.Perk>)
    ensures |Text.SplitNonEmpty(text, ':')| < 2 ==> r.Err?
    ensures r.Ok? ==>
      var parts := Text.SplitNonEmpty(text, ':');
      PT.ParseSpecialty(parts[0]) == Some(r.value.specialty) && PT.ParseLevel(parts[1]) == Some(r.value.level)
  {
    var parts := Text.SplitNonEmpty(text, ':');
    if |parts| < 2 then Err(ArrayIndexOutOfRange)
    else
      match (PT.ParseSpecialty(parts[0]), PT.ParseLevel(parts[1]))
      case (Some(s), Some(l)) => Ok(PT.Perk(s, l))
      case _ => Err(EnumValueNotFound)
  }

  /** FromString reads back every perk ToString writes. */
  lemma FromStringToString(p: PT.Perk)
    ensures FromString(ToString(p)) == Ok(p)
  {
    PT.SpecialtyNameRoundTrip(p.specialty);
    PT.LevelNameRoundTrip(p.level);
  }

  /** Repeated separators are dropped: "Mechanic::Skilled" reads like "Mechanic:Skilled". */
  lemma FromStringCollapsesSeparators(a: string, b: string)
    requires a != [] && ':' !in a && b != [] && ':' !in b
    ensures FromString(a + "::" + b) == FromString(a + ":" + b)
    ensures Text.SplitNonEmpty(a + "::" + b, ':') == [a, b]
  {
    Text.SplitPair(a, "::", b, ':');
    Text.SplitPair(a, ":", b, ':');
  }

  /** A level may be written as its number: "Mechanic:1" is a Mechanic at level Unskilled. */
  lemma FromStringNumericLevel(p: PT.Perk)
    ensures FromString(PT.SpecialtyName(p.specialty) + ":" + Text.NatText(PT.LevelValue(p.level))) == Ok(p)
  {
    var a := PT.SpecialtyName(p.specialty);
    var b := Text.NatText(PT.LevelValue(p.level));
    assert ':' !in b by {
      assert forall i :: 0 <= i < |b| ==> Text.IsDigit(b[i]);
    }
    Text.SplitPair(a, ":", b, ':');
    PT.SpecialtyNameRoundTrip(p.specialty);
    PT.LevelNumberRoundTrip(p.level);
  }

  /** A string without a ':' between two names, such as "Mechanic", fails instead of yielding a perk. */
  lemma FromStringSingleName(a: string)
    requires a != [] && ':' !in a
    ensures FromString(a).Err?
  {
    Text.SplitSegment(a, [], ':');
    assert a + [] == a;
  }

  /** MeetsRequirement(Perk, Perk). */
  function Meets(requirement: PT.Perk, held: PT.Perk): (met: bool)
    ensures met ==> requirement.specialty == held.specialty
    ensures requirement.specialty == held.specialty && PT.LevelValue(requirement.level) == 0 ==> met
    ensures requirement == held ==> met
  {
    requirement.specialty == held.specialty && PT.LevelValue(held.level) >= PT.LevelValue(requirement.level)
  }

  /** MeetsRequirement(Perk, List<Perk>): Any. */
  function MeetsAny(requirement: PT.Perk, perks: seq<PT.Perk>): (met: bool)
    ensures met <==> exists k :: 0 <= k < |perks| && Meets(requirement, perks[k])
    ensures requirement in perks ==> met
  {
    exists p :: p in perks && Meets(requirement, p)
  }

  /** MeetsRequirement(List<Perk>, List<Perk>): All over the requirements. */
  function MeetsAll(requirements: seq<PT.Perk>, perks: seq<PT.Perk>): (met: bool)
    ensures met <==> forall k :: 0 <= k < |requirements| ==> MeetsAny(requirements[k], perks)
    ensures (forall q :: q in requirements ==> q in perks) ==> met
  {
    forall q :: q in requirements ==> MeetsAny(q, perks)
  }

  /** Every perk meets itself as a requirement, and one of lower level of its specialty. */
  lemma MeetsLowerLevels(p: PT.Perk, l: PT.SkillLevel)
    requires PT.LevelValue(l) <= PT.LevelValue(p.level)
    ensures Meets(PT.Perk(p.specialty, l), p)
    ensures Meets(p, p)
  {
  }

  /** No perk list meets a requirement it has no perk for; every list meets no requirements. */
  lemma MeetsEmpty(requirement: PT.Perk, perks: seq<PT.Perk>)
    ensures !MeetsAny(requirement, [])
    ensures MeetsAll([], perks)
    ensures MeetsAny(requirement, perks) <==> MeetsAll([requirement], perks)
  {
    if MeetsAll([requirement], perks) {
      assert requirement in [requirement];
    }
  }

  /** Raising the level of one perk never breaks a requirement list that was met. */
  lemma MeetsAllMonotone(requirements: seq<PT.Perk>, perks: seq<PT.Perk>, i: nat, l: PT.SkillLevel)
    requires i < |perks| && PT.LevelValue(l) >= PT.LevelValue(perks[i].level)
    requires MeetsAll(requirements, perks)
    ensures MeetsAll(requirements, perks[i := PT.Perk(perks[i].specialty, l)])
  {
    var raised := perks[i := PT.Perk(perks[i].specialty, l)];
    forall r | r in requirements
      ensures MeetsAny(r, raised)
    {
      var p :| p in perks && Meets(r, p);
      var j :| 0 <= j < |perks| && perks[j] == p;
      assert Meets(r, raised[j]);
      assert raised[j] in raised;
    }
  }

  /** Gaining perks never breaks a requirement list that was met. */
  lemma MeetsAllMorePerks(requirements: seq<PT.Perk>, perks: seq<PT.Perk>, more: seq<PT.Perk>)
    requires MeetsAll(requirements, perks)
    ensures MeetsAll(requirements, perks + more)
  {
    forall r | r in requirements
      ensures MeetsAny(r, perks + more)
    {
      var p :| p in perks && Meets(r, p);
      assert p in perks + more;
    }
  }

  /** Requirement lists combine: both halves are met exactly when the whole is. */
  lemma MeetsAllConcat(req1: seq<PT.Perk>, req2: seq<PT.Perk>, perks: seq<PT.Perk>)
    ensures MeetsAll(req1 + req2, perks) <==> MeetsAll(req1, perks) && MeetsAll(req2, perks)
  {
    if MeetsAll(req1, perks) && MeetsAll(req2, perks) {
      forall r | r in req1 + req2
        ensures MeetsAny(r, perks)
      {
        if r in req1 { } else { assert r in req2; }
      }
    }
  }
}
