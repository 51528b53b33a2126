/**
 * The oldest perk generator: each specialty independently gets a PERK node (with a
 * lower-case "name" and a numeric "level" of 1 or 2) when a random chance beats the
 * kerbal's stupidity.
 */
module CrewFilesGenerator {
  import opened Wrappers
  import opened ConfigNodes
  import Convert

  const NodeName := "DANGIT_PERKS"

  function MustRun(kerbalData: Node): (run: bool)
    ensures run <==> (forall i :: 0 <= i < |kerbalData.nodes| ==> kerbalData.nodes[i].name != NodeName)
  {
    !HasNode(kerbalData, NodeName)
  }

  /** Random.Range(1, 3) on ints: 1 or 2, here chosen by the draw `d`. */
  function LevelFromDraw(d: nat): (level: Convert.Int32)
    ensures level == 1 || level == 2
  {
    (1 + d % 2) as Convert.Int32
  }

  function PerkNode(name: string, level: Convert.Int32): Node
  {
    AddValue(AddValue(NewNode("PERK"), "name", name), "level", Convert.IntText(level))
  }

  /** A PERK node holds its name once and its level's text once. */
  lemma PerkNodeReads(name: string, level: Convert.Int32)
    ensures PerkNode(name, level).name == "PERK"
    ensures GetValues(PerkNode(name, level), "name") == [name]
    ensures GetValues(PerkNode(name, level), "level") == [Convert.IntText(level)]
  {
  }

  /** The level is written as "1" or "2". */
  lemma LevelText(d: nat)
    ensures Convert.IntText(LevelFromDraw(d)) == "1" || Convert.IntText(LevelFromDraw(d)) == "2"
  {
    assert Convert.IntText(1) == "1" && Convert.IntText(2) == "2";
  }

  /** The stupidity the chances are compared with: the kerbal's "stupidity" value, 0.5 by default. */
  function Stupidity(kerbalData: Node): real
  {
    Convert.Parse(GetValue(kerbalData, "stupidity"), 0.5, Convert.ParseReal)
  }

  /**
   * Generate: the mechanic node comes first when `mechanicChance` (Random.Range(0, 1))
   * exceeds the stupidity, then the electrician node under the same rule.
   */
  function Generate(kerbalData: Node, mechanicChance: real, mechanicDraw: nat,
                    electricianChance: real, electricianDraw: nat): (perksNode: Node)
    ensures perksNode.name == NodeName && perksNode.values == []
    ensures |perksNode.nodes| ==
      (if mechanicChance > Stupidity(kerbalData) then 1 else 0) + (if electricianChance > Stupidity(kerbalData) then 1 else 0)
  {
    var withMechanic :=
      if mechanicChance > Stupidity(kerbalData)
      then AddNode(NewNode(NodeName), PerkNode("mechanic", LevelFromDraw(mechanicDraw)))
      else NewNode(NodeName);
    if electricianChance > Stupidity(kerbalData)
    then AddNode(withMechanic, PerkNode("electrician", LevelFromDraw(electricianDraw)))
    else withMechanic
  }

  /**
   * Every generated node is a PERK node whose level reads "1" or "2", and when both
   * specialties win, the mechanic comes before the electrician.
   */
  lemma GeneratedPerks(kerbalData: Node, mechanicChance: real, mechanicDraw: nat,
                       electricianChance: real, electricianDraw: nat)
    ensures var perksNode := Generate(kerbalData, mechanicChance, mechanicDraw, electricianChance, electricianDraw);
      forall i :: 0 <= i < |perksNode.nodes| ==>
        perksNode.nodes[i].name == "PERK" &&
        (GetValues(perksNode.nodes[i], "level") == ["1"] || GetValues(perksNode.nodes[i], "level") == ["2"])
    ensures var perksNode := Generate(kerbalData, mechanicChance, mechanicDraw, electricianChance, electricianDraw);
      |perksNode.nodes| == 2 ==>
        GetValues(perksNode.nodes[0], "name") == ["mechanic"] && GetValues(perksNode.nodes[1], "name") == ["electrician"]
  {
    var mechanic := PerkNode("mechanic", LevelFromDraw(mechanicDraw));
    var electrician := PerkNode("electrician", LevelFromDraw(electricianDraw));
    PerkNodeReads("mechanic", LevelFromDraw(mechanicDraw));
    PerkNodeReads("electrician", LevelFromDraw(electricianDraw));
    LevelText(mechanicDraw);
    LevelText(electricianDraw);
    var m := mechanicChance > Stupidity(kerbalData);
    var e := electricianChance > Stupidity(kerbalData);
    var nodes := Generate(kerbalData, mechanicChance, mechanicDraw, electricianChance, electricianDraw).nodes;
    assert nodes == (if m then [mechanic] else []) + (if e then [electrician] else []);
  }
}
