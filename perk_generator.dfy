/**
 * The crew-file generator that gives each new applicant one perk per specialty,
 * stored as "perk" string values in a DANGIT_PERKS node.
 */
module PerkGenerator {
  import opened Wrappers
  import opened ConfigNodes
  import Convert
  import PT = PerkTypes
  import Perks

  const NodeName := "DANGIT_PERKS"

  /** The generator runs for a kerbal exactly when its data has no DANGIT_PERKS node yet. */
  function MustRun(kerbalData: Node): (run: bool)
    ensures run <==> (forall i :: 0 <= i < |kerbalData.nodes| ==> kerbalData.nodes[i].name != NodeName)
  {
    !HasNode(kerbalData, NodeName)
  }

  /** The kerbal's "stupidity" value read with Parse<float>, 0.5 when missing or unreadable. */
  function Stupidity(kerbalData: Node): (s: real)
    ensures GetValue(kerbalData, "stupidity").None? ==> s == 0.5
    ensures forall t :: GetValue(kerbalData, "stupidity") == Some(t) && Convert.ParseReal(t).None? ==> s == 0.5
  {
    Convert.Parse(GetValue(kerbalData, "stupidity"), 0.5, Convert.ParseReal)
  }

  /**
   * Generate: one "perk" value per specialty, in enum order. The level of each is the
   * random draw scaled by the kerbal's intelligence, one minus Stupidity; here the drawn
   * level is the input `levelFor`.
   */
  method Generate(kerbalData: Node, levelFor: PT.Specialty -> PT.SkillLevel) returns (perksNode: Node)
    ensures perksNode.name == NodeName && perksNode.nodes == []
    ensures GetValues(perksNode, "perk") ==
      seq(|PT.AllSpecialties|, i requires 0 <= i < |PT.AllSpecialties| =>
        Perks.ToString(PT.Perk(PT.AllSpecialties[i], levelFor(PT.AllSpecialties[i]))))
  {
    perksNode := NewNode(NodeName);
    var specs := PT.AllSpecialties;
    for i := 0 to |specs|
      invariant perksNode.name == NodeName && perksNode.nodes == []
      invariant GetValues(perksNode, "perk") ==
        seq(i, j requires 0 <= j < i => Perks.ToString(PT.Perk(specs[j], levelFor(specs[j]))))
    {
      var perk := PT.Perk(specs[i], levelFor(specs[i]));
      perksNode := AddValue(perksNode, "perk", Perks.ToString(perk));
    }
  }
}
