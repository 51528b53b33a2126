/**
 * The crew-file generator of the node-coded perks: one PERK child node per specialty
 * in a DANGIT_PERKS node.
 */
module PerkNodeGenerator {
  import opened Wrappers
  import opened ConfigNodes
  import PT = PerkTypes
  import PerkNodes

  const NodeName := "DANGIT_PERKS"

  function MustRun(kerbalData: Node): (run: bool)
    ensures run <==> (forall i :: 0 <= i < |kerbalData.nodes| ==> kerbalData.nodes[i].name != NodeName)
  {
    !HasNode(kerbalData, NodeName)
  }

  /**
   * Generate: a PERK child per specialty, in enum order, each readable by
   * Perk.FromNode; the random levels, drawn from the kerbal's intelligence, are the
   * input `levelFor`.
   */
  method Generate(kerbalData: Node, levelFor: PT.Specialty -> PT.SkillLevel) returns (perksNode: Node)
    ensures perksNode.name == NodeName && perksNode.values == []
    ensures |perksNode.nodes| == |PT.AllSpecialties|
    ensures forall i :: 0 <= i < |PT.AllSpecialties| ==>
      PerkNodes.FromNode(perksNode.nodes[i]) == Ok(PT.Perk(PT.AllSpecialties[i], levelFor(PT.AllSpecialties[i])))
  {
    perksNode := NewNode(NodeName);
    var specs := PT.AllSpecialties;
    for i := 0 to |specs|
      invariant perksNode.name == NodeName && perksNode.values == [] && |perksNode.nodes| == i
      invariant forall j :: 0 <= j < i ==>
        PerkNodes.FromNode(perksNode.nodes[j]) == Ok(PT.Perk(specs[j], levelFor(specs[j])))
    {
      var perk := PT.Perk(specs[i], levelFor(specs[i]));
      PerkNodes.FromNodeToNode(perk);
      perksNode := AddNode(perksNode, PerkNodes.ToNode(perk));
    }
  }
}
