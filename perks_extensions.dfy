/**
 * Perk lists: their DANGIT_PERKS node (one "perk" string value per perk), the way
 * back, and the minimum level distance between a kerbal's perks and a list of
 * requirements.
 */
module PerksExtensions {
  import opened Wrappers
  import opened ConfigNodes
  import PT = PerkTypes
  import Perks
  import PerkGenerator

  /** The text of each perk, in list order. */
  function PerkTexts(perks: seq<PT.Perk>): (texts: seq<string>)
    ensures |texts| == |perks|
  {
    if perks == [] then [] else PerkTexts(perks[..|perks| - 1]) + [Perks.ToString(perks[|perks| - 1])]
  }

  /** The node ToNode builds: a DANGIT_PERKS node whose "perk" values are the perk texts. */
  function PerksNode(perks: seq<PT.Perk>): (n: Node)
    ensures n.name == PerkGenerator.NodeName && n.nodes == []
    ensures GetValues(n, "perk") == PerkTexts(perks)
  {
    if perks == [] then NewNode(PerkGenerator.NodeName)
    else
      var front := perks[..|perks| - 1];
      AddValue(PerksNode(front), "perk", Perks.ToString(perks[|perks| - 1]))
  }

  /** ToNode(List<Perk>): AddValue("perk", p.ToString()) for each perk in turn. */
  method ToNode(perks: seq<PT.Perk>) returns (result: Node)
    ensures result == PerksNode(perks)
  {
    result := NewNode(PerkGenerator.NodeName);
    for i := 0 to |perks|
      invariant result == PerksNode(perks[..i])
    {
      assert perks[..i + 1][..i] == perks[..i];
      result := AddValue(result, "perk", Perks.ToString(perks[i]));
    }
    assert perks[..|perks|] == perks;
  }

  /**
   * FromString applied to each text in order; the first text that fails stops the
   * conversion with its exception.
   */
  function DecodeAll(texts: seq<string>): (r: Result<seq<PT.Perk>>)
    ensures r.Ok? ==> |r.value| == |texts|
  {
    if texts == [] then Ok([])
    else
      var front := texts[..|texts| - 1];
      match DecodeAll(front)
      case Err(m) => Err(m)
      case Ok(ps) =>
        match Perks.FromString(texts[|texts| - 1])
        case Err(m) => Err(m)
        case Ok(p) => Ok(ps + [p])
  }

  /**
   * A decoded list holds the perk of each text at its place; a failure is the exception
   * of one of the texts.
   */
  lemma {:induction false} DecodeAllMeaning(texts: seq<string>)
    ensures var r := DecodeAll(texts);
      r.Ok? ==> forall i :: 0 <= i < |texts| ==> Perks.FromString(texts[i]) == Ok(r.value[i])
    ensures var r := DecodeAll(texts);
      r.Err? ==> exists i :: 0 <= i < |texts| && Perks.FromString(texts[i]) == Err(r.message)
  {
    if texts != [] {
      var front := texts[..|texts| - 1];
      DecodeAllMeaning(front);
      var r := DecodeAll(texts);
      if r.Ok? {
        var ps := DecodeAll(front).value;
        assert r.value == ps + [r.value[|texts| - 1]];
        forall i | 0 <= i < |texts|
          ensures Perks.FromString(texts[i]) == Ok(r.value[i])
        {
          if i < |front| {
            assert texts[i] == front[i];
            assert r.value[i] == ps[i];
          }
        }
      } else if DecodeAll(front).Err? {
        var i :| 0 <= i < |front| && Perks.FromString(front[i]) == Err(DecodeAll(front).message);
        assert texts[i] == front[i];
      } else {
        assert Perks.FromString(texts[|texts| - 1]) == Err(r.message);
      }
    }
  }

  /** What ToPerks returns for a node: the decoded "perk" values. */
  function NodePerks(node: Node): Result<seq<PT.Perk>>
  {
    DecodeAll(GetValues(node, "perk"))
  }

  /** ToPerks: FromString on each "perk" value, in order. */
  method ToPerks(node: Node) returns (r: Result<seq<PT.Perk>>)
    ensures r == NodePerks(node)
  {
    var texts := GetValues(node, "perk");
    var result: seq<PT.Perk> := [];
    for i := 0 to |texts|
      invariant DecodeAll(texts[..i]) == Ok(result)
    {
      DecodeStep(texts, i);
      var p := Perks.FromString(texts[i]);
      if p.Err? {
        assert DecodeAll(texts[..i + 1]) == Err(p.message);
        DecodeStopsAtError(texts, i + 1);
        return Err(p.message);
      }
      result := result + [p.value];
    }
    assert texts[..|texts|] == texts;
    r := Ok(result);
  }

  /** One more text: a failed prefix stays failed, else the text's perk is appended or its exception ends the list. */
  lemma DecodeStep(texts: seq<string>, i: nat)
    requires i < |texts|
    ensures DecodeAll(texts[..i + 1]) ==
      match DecodeAll(texts[..i])
      case Err(m) => Err(m)
      case Ok(ps) =>
        match Perks.FromString(texts[i])
        case Err(m) => Err(m)
        case Ok(p) => Ok(ps + [p])
  {
    assert texts[..i + 1][..i] == texts[..i];
    assert texts[..i + 1][i] == texts[i];
  }

  /** Once a prefix fails, the whole list fails with the same exception. */
  lemma {:induction false} DecodeStopsAtError(texts: seq<string>, k: nat)
    requires k <= |texts| && DecodeAll(texts[..k]).Err?
    ensures DecodeAll(texts) == DecodeAll(texts[..k])
    decreases |texts| - k
  {
    if k < |texts| {
      assert texts[..k + 1][..k] == texts[..k];
      DecodeStopsAtError(texts, k + 1);
    } else {
      assert texts[..k] == texts;
    }
  }

  /** ToPerks reads back every list ToNode writes. */
  lemma ToPerksToNode(perks: seq<PT.Perk>)
    ensures NodePerks(PerksNode(perks)) == Ok(perks)
  {
    DecodeTexts(perks);
  }

  /** FromString reads back the text of every perk, in order. */
  lemma {:induction false} DecodeTexts(perks: seq<PT.Perk>)
    ensures DecodeAll(PerkTexts(perks)) == Ok(perks)
  {
    if perks != [] {
      var front := perks[..|perks| - 1];
      var last := perks[|perks| - 1];
      var texts := PerkTexts(perks);
      DecodeTexts(front);
      assert texts[..|texts| - 1] == PerkTexts(front);
      Perks.FromStringToString(last);
      assert front + [last] == perks;
    }
  }

  /** The perks a freshly generated DANGIT_PERKS node holds: one per specialty, in enum order. */
  lemma GeneratedPerksDecode(generated: Node, levelFor: PT.Specialty -> PT.SkillLevel)
    requires GetValues(generated, "perk") ==
      seq(|PT.AllSpecialties|, i requires 0 <= i < |PT.AllSpecialties| =>
        Perks.ToString(PT.Perk(PT.AllSpecialties[i], levelFor(PT.AllSpecialties[i]))))
    ensures NodePerks(generated) ==
      Ok([PT.Perk(PT.Mechanic, levelFor(PT.Mechanic)), PT.Perk(PT.Electrician, levelFor(PT.Electrician))])
  {
    var perks := [PT.Perk(PT.Mechanic, levelFor(PT.Mechanic)), PT.Perk(PT.Electrician, levelFor(PT.Electrician))];
    assert GetValues(generated, "perk") == PerkTexts(perks);
    ToPerksToNode(perks);
    assert GetValues(PerksNode(perks), "perk") == PerkTexts(perks);
  }

  /** requirements.Where(o => o.Specialty == s), in order. */
  function RequirementsFor(requirements: seq<PT.Perk>, s: PT.Specialty): (r: seq<PT.Perk>)
    ensures |r| <= |requirements|
    ensures forall o :: o in r <==> o in requirements && o.specialty == s
  {
    if requirements == [] then []
    else (if requirements[0].specialty == s then [requirements[0]] else []) + RequirementsFor(requirements[1..], s)
  }

  /** SingleOrDefault: null for no element, the element for one, InvalidOperationException for more. */
  function SingleOrDefault(matches: seq<PT.Perk>): (r: Result<Option<PT.Perk>>)
    ensures r.Ok? <==> |matches| <= 1
    ensures r.Ok? && r.value.Some? ==> matches == [r.value.value]
  {
    if |matches| == 0 then Ok(None)
    else if |matches| == 1 then Ok(Some(matches[0]))
    else Err(MoreThanOneMatch)
  }

  function Diff(p: PT.Perk, other: PT.Perk): int
  {
    PT.LevelValue(p.level) as int - PT.LevelValue(other.level) as int
  }

  /** The running minimum of the else branch after the given perks, starting from 3. */
  function MinFold(perks: seq<PT.Perk>, requirements: seq<PT.Perk>): (r: Result<int>)
    ensures r.Ok? ==> -3 <= r.value <= 3
  {
    if perks == [] then Ok(3)
    else
      var p := perks[|perks| - 1];
      match MinFold(perks[..|perks| - 1], requirements)
      case Err(m) => Err(m)
      case Ok(min) =>
        match SingleOrDefault(RequirementsFor(requirements, p.specialty))
        case Err(m) => Err(m)
        case Ok(None) => Ok(min)
        case Ok(Some(other)) => var diff := Diff(p, other); Ok(if diff < min then diff else min)
  }

  /** The highest level among the perks (Max of the levels). */
  function MaxLevel(perks: seq<PT.Perk>): (m: nat)
    requires perks != []
    ensures forall p :: p in perks ==> PT.LevelValue(p.level) <= m
    ensures exists p :: p in perks && PT.LevelValue(p.level) == m
  {
    var last := perks[|perks| - 1];
    if |perks| == 1 then PT.LevelValue(last.level)
    else
      var front := perks[..|perks| - 1];
      var m := MaxLevel(front);
      assert perks == front + [last];
      if PT.LevelValue(last.level) > m then PT.LevelValue(last.level) else m
  }

  /**
   * What MinDistance returns: with no requirements, the highest perk level (Max of an
   * empty list throws); otherwise the running minimum, from 3, of the level differences
   * to the single requirement of each perk's specialty.
   */
  function MinDistanceOf(perks: seq<PT.Perk>, requirements: seq<PT.Perk>): Result<int>
  {
    if |requirements| == 0 then
      if perks == [] then Err("Sequence contains no elements") else Ok(MaxLevel(perks))
    else MinFold(perks, requirements)
  }

  /** MinDistance(perks, requirements). */
  method MinDistance(perks: seq<PT.Perk>, requirements: seq<PT.Perk>) returns (r: Result<int>)
    ensures r == MinDistanceOf(perks, requirements)
  {
    if |requirements| == 0 {
      if perks == [] {
        return Err("Sequence contains no elements");
      }
      return Ok(MaxLevel(perks));
    }
    var min := 3;
    for i := 0 to |perks|
      invariant MinFold(perks[..i], requirements) == Ok(min)
    {
      MinFoldStep(perks, requirements, i);
      var other := SingleOrDefault(RequirementsFor(requirements, perks[i].specialty));
      if other.Err? {
        MinFoldStopsAtError(perks, requirements, i + 1);
        return Err(other.message);
      }
      if other.value.Some? {
        var diff := Diff(perks[i], other.value.value);
        min := if diff < min then diff else min;
      }
    }
    assert perks[..|perks|] == perks;
    r := Ok(min);
  }

  /** One more perk: the running minimum after it, from the one before it. */
  lemma MinFoldStep(perks: seq<PT.Perk>, requirements: seq<PT.Perk>, i: nat)
    requires i < |perks|
    ensures MinFold(perks[..i + 1], requirements) ==
      match MinFold(perks[..i], requirements)
      case Err(m) => Err(m)
      case Ok(min) =>
        match SingleOrDefault(RequirementsFor(requirements, perks[i].specialty))
        case Err(m) => Err(m)
        case Ok(None) => Ok(min)
        case Ok(Some(other)) => var diff := Diff(perks[i], other); Ok(if diff < min then diff else min)
  {
    assert perks[..i + 1][..i] == perks[..i];
    assert perks[..i + 1][i] == perks[i];
  }

  lemma {:induction false} MinFoldStopsAtError(perks: seq<PT.Perk>, requirements: seq<PT.Perk>, k: nat)
    requires k <= |perks| && MinFold(perks[..k], requirements).Err?
    ensures MinFold(perks, requirements) == MinFold(perks[..k], requirements)
    decreases |perks| - k
  {
    if k < |perks| {
      assert perks[..k + 1][..k] == perks[..k];
      MinFoldStopsAtError(perks, requirements, k + 1);
    } else {
      assert perks[..k] == perks;
    }
  }

  /** Every requirement specialty is listed at most once. */
  predicate UniqueSpecialties(requirements: seq<PT.Perk>)
  {
    forall i, j :: 0 <= i < j < |requirements| ==> requirements[i].specialty != requirements[j].specialty
  }

  lemma {:induction false} UniqueRequirementsFor(requirements: seq<PT.Perk>, s: PT.Specialty)
    requires UniqueSpecialties(requirements)
    ensures |RequirementsFor(requirements, s)| <= 1
  {
    if requirements != [] {
      UniqueRequirementsFor(requirements[1..], s);
    }
  }

  /**
   * With each specialty required at most once, the distance is at most 3 and at most
   * the difference of every matched perk, and it is negative exactly when some perk
   * falls short of its requirement (MeetsRequirement fails for it).
   */
  lemma MinDistanceBounds(perks: seq<PT.Perk>, requirements: seq<PT.Perk>)
    requires |requirements| > 0 && UniqueSpecialties(requirements)
    ensures MinDistanceOf(perks, requirements).Ok?
    ensures forall i, o :: 0 <= i < |perks| && o in requirements && o.specialty == perks[i].specialty ==>
      MinDistanceOf(perks, requirements).value <= Diff(perks[i], o)
    ensures MinDistanceOf(perks, requirements).value < 0 <==>
      exists i, o :: 0 <= i < |perks| && o in requirements && o.specialty == perks[i].specialty && !Perks.Meets(o, perks[i])
  {
    MinFoldBounds(perks, requirements);
    MinFoldNegative(perks, requirements);
  }

  /** The running minimum is defined and at most the difference of every matched perk. */
  lemma {:induction false} MinFoldBounds(perks: seq<PT.Perk>, requirements: seq<PT.Perk>)
    requires UniqueSpecialties(requirements)
    ensures MinFold(perks, requirements).Ok?
    ensures forall i, o :: 0 <= i < |perks| && o in requirements && o.specialty == perks[i].specialty ==>
      MinFold(perks, requirements).value <= Diff(perks[i], o)
  {
    if perks != [] {
      var front := perks[..|perks| - 1];
      var p := perks[|perks| - 1];
      MinFoldBounds(front, requirements);
      UniqueRequirementsFor(requirements, p.specialty);
      var matches := RequirementsFor(requirements, p.specialty);
      forall i, o | 0 <= i < |perks| && o in requirements && o.specialty == perks[i].specialty
        ensures MinFold(perks, requirements).value <= Diff(perks[i], o)
      {
        if i < |perks| - 1 {
          assert perks[i] == front[i];
        } else {
          assert o in matches;
        }
      }
    }
  }

  /** The running minimum is negative exactly when some perk falls short of its requirement. */
  lemma {:induction false} MinFoldNegative(perks: seq<PT.Perk>, requirements: seq<PT.Perk>)
    requires UniqueSpecialties(requirements)
    ensures MinFold(perks, requirements).Ok?
    ensures MinFold(perks, requirements).value < 0 <==>
      exists i, o :: 0 <= i < |perks| && o in requirements && o.specialty == perks[i].specialty && !Perks.Meets(o, perks[i])
  {
    MinFoldBounds(perks, requirements);
    if perks != [] {
      var front := perks[..|perks| - 1];
      var p := perks[|perks| - 1];
      MinFoldNegative(front, requirements);
      MinFoldBounds(front, requirements);
      UniqueRequirementsFor(requirements, p.specialty);
      var matches := RequirementsFor(requirements, p.specialty);
      if MinFold(perks, requirements).value < 0 {
        if MinFold(front, requirements).value >= 0 {
          assert matches != [];
          var o := matches[0];
          assert o in matches;
          assert !Perks.Meets(o, perks[|perks| - 1]);
        } else {
          var i, o :| 0 <= i < |front| && o in requirements && o.specialty == front[i].specialty && !Perks.Meets(o, front[i]);
          assert perks[i] == front[i];
        }
      }
    }
  }

  /** With no requirements the distance of a non-empty list is its highest level. */
  lemma MinDistanceNoRequirements(perks: seq<PT.Perk>)
    requires perks != []
    ensures MinDistanceOf(perks, []).Ok?
    ensures forall p :: p in perks ==> PT.LevelValue(p.level) <= MinDistanceOf(perks, []).value
    ensures exists p :: p in perks && PT.LevelValue(p.level) == MinDistanceOf(perks, []).value
  {
  }

  /** A perk whose specialty is required twice makes MinDistance throw. */
  lemma MinDistanceDuplicateRequirement(p: PT.Perk, o1: PT.Perk, o2: PT.Perk)
    requires o1.specialty == p.specialty && o2.specialty == p.specialty
    ensures MinDistanceOf([p], [o1, o2]).Err?
  {
    assert RequirementsFor([o1, o2], p.specialty) == [o1, o2] by {
      assert [o1, o2][1..] == [o2];
      assert [o2][1..] == [];
    }
    assert [p][..0] == [];
  }
}
