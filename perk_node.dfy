/**
 * The config-node codec of a perk: a "PERK" node holding a "specialty" and a "level"
 * value, each the enum name.
 */
module PerkNodes {
  import opened Wrappers
  import opened ConfigNodes
  import PT = PerkTypes
  import Perks

  const NodeName := "PERK"

  /** Perk.ToNode. */
  function ToNode(p: PT.Perk): (n: Node)
    ensures n.name == NodeName && n.nodes == []
    ensures GetValues(n, "specialty") == [PT.SpecialtyName(p.specialty)]
    ensures GetValues(n, "level") == [PT.LevelName(p.level)]
  {
    AddValue(AddValue(NewNode(NodeName), "specialty", PT.SpecialtyName(p.specialty)), "level", PT.LevelName(p.level))
  }

  /**
   * Perk.FromNode: "Invalid perk node!" when either value is missing, otherwise
   * Enum.Parse of the first "specialty" and the first "level" text.
   */
  function FromNode(n: Node): (r: Result<PT.Perk>)
    ensures !HasValue(n, "specialty") || !HasValue(n, "level") ==> r == Err("Invalid perk node!")
    ensures r.Ok? ==>
      PT.ParseSpecialty(GetValue(n, "specialty").value) == Some(r.value.specialty) &&
      PT.ParseLevel(GetValue(n, "level").value) == Some(r.value.level)
  {
    if !HasValue(n, "specialty") || !HasValue(n, "level") then Err("Invalid perk node!")
    else
      match (PT.ParseSpecialty(GetValue(n, "specialty").value), PT.ParseLevel(GetValue(n, "level").value))
      case (Some(s), Some(l)) => Ok(PT.Perk(s, l))
      case _ => Err(EnumValueNotFound)
  }

  /** FromNode reads back every perk ToNode writes. */
  lemma FromNodeToNode(p: PT.Perk)
    ensures FromNode(ToNode(p)) == Ok(p)
  {
    PT.SpecialtyNameRoundTrip(p.specialty);
    PT.LevelNameRoundTrip(p.level);
  }

  /**
   * The requirement rules of this generation are those of the string-coded Perk: the
   * same specialty at a level at least as high, Any over perks and All over requirements;
   * a perk read back from its node meets exactly the requirements the original met.
   */
  lemma RequirementsSurviveNodeRoundTrip(requirements: seq<PT.Perk>, perks: seq<PT.Perk>, i: nat)
    requires i < |perks|
    ensures FromNode(ToNode(perks[i])).Ok?
    ensures Perks.MeetsAll(requirements, perks) <==>
      Perks.MeetsAll(requirements, perks[i := FromNode(ToNode(perks[i])).value])
  {
    FromNodeToNode(perks[i]);
    assert perks[i := FromNode(ToNode(perks[i])).value] == perks;
  }
}
