/**
 * The perk enumerations (Specialty, SkillLevel) and the Perk pair, with the names
 * and numbers the enums carry and the Enum.Parse reading of them.
 */
module PerkTypes {
  import Wrappers
  import Text

  datatype Specialty = Mechanic | Electrician

  datatype SkillLevel = None | Unskilled | Normal | Skilled

  /** An immutable specialty/level pair: a datatype value cannot change after construction. */
  datatype Perk = Perk(specialty: Specialty, level: SkillLevel)

  /** Enum.GetValues(typeof(Specialty)): declaration order. */
  const AllSpecialties: seq<Specialty> := [Mechanic, Electrician]

  function SpecialtyValue(s: Specialty): nat
  {
    match s
    case Mechanic => 0
    case Electrician => 1
  }

  /** The underlying enum number, which `>=` on levels compares. */
  function LevelValue(l: SkillLevel): (v: nat)
    ensures v <= 3
  {
    match l
    case None => 0
    case Unskilled => 1
    case Normal => 2
    case Skilled => 3
  }

  function LevelOf(v: nat): (l: Wrappers.Option<SkillLevel>)
    ensures l.Some? <==> v <= 3
    ensures l.Some? ==> LevelValue(l.value) == v
  {
    if v == 0 then Wrappers.Some(None)
    else if v == 1 then Wrappers.Some(Unskilled)
    else if v == 2 then Wrappers.Some(Normal)
    else if v == 3 then Wrappers.Some(Skilled)
    else Wrappers.None
  }

  /** Specialty.ToString. */
  function SpecialtyName(s: Specialty): (n: string)
    ensures n != [] && ':' !in n && !Text.IsDigit(n[0])
  {
    match s
    case Mechanic => "Mechanic"
    case Electrician => "Electrician"
  }

  /** SkillLevel.ToString. */
  function LevelName(l: SkillLevel): (n: string)
    ensures n != [] && ':' !in n && !Text.IsDigit(n[0])
  {
    match l
    case None => "None"
    case Unskilled => "Unskilled"
    case Normal => "Normal"
    case Skilled => "Skilled"
  }

  /** Enum.Parse(typeof(Specialty), text): a member name, or the decimal number of a member. */
  function ParseSpecialty(text: string): (r: Wrappers.Option<Specialty>)
    ensures r.Some? <==>
      text in {"Mechanic", "Electrician"} || (text != [] && Text.AllDigits(text) && Text.DigitsValue(text) <= 1)
    ensures r.Some? ==>
      text == SpecialtyName(r.value) || (Text.AllDigits(text) && Text.DigitsValue(text) == SpecialtyValue(r.value))
  {
    if text == "Mechanic" then Wrappers.Some(Mechanic)
    else if text == "Electrician" then Wrappers.Some(Electrician)
    else if text != [] && Text.AllDigits(text) && Text.DigitsValue(text) <= 1 then
      Wrappers.Some(if Text.DigitsValue(text) == 0 then Mechanic else Electrician)
    else Wrappers.None
  }

  /** Enum.Parse(typeof(SkillLevel), text): a member name, or the decimal number of a member. */
  function ParseLevel(text: string): (r: Wrappers.Option<SkillLevel>)
    ensures r.Some? <==>
      text in {"None", "Unskilled", "Normal", "Skilled"} || (text != [] && Text.AllDigits(text) && Text.DigitsValue(text) <= 3)
    ensures r.Some? ==>
      text == LevelName(r.value) || (Text.AllDigits(text) && Text.DigitsValue(text) == LevelValue(r.value))
  {
    if text == "None" then Wrappers.Some(None)
    else if text == "Unskilled" then Wrappers.Some(Unskilled)
    else if text == "Normal" then Wrappers.Some(Normal)
    else if text == "Skilled" then Wrappers.Some(Skilled)
    else if text != [] && Text.AllDigits(text) then LevelOf(Text.DigitsValue(text))
    else Wrappers.None
  }

  /** Enum.Parse reads back the name ToString writes. */
  lemma SpecialtyNameRoundTrip(s: Specialty)
    ensures ParseSpecialty(SpecialtyName(s)) == Wrappers.Some(s)
  {
  }

  lemma LevelNameRoundTrip(l: SkillLevel)
    ensures ParseLevel(LevelName(l)) == Wrappers.Some(l)
  {
  }

  /** Enum.Parse also reads a level written as its number, as in "Mechanic:1". */
  lemma LevelNumberRoundTrip(l: SkillLevel)
    ensures ParseLevel(Text.NatText(LevelValue(l))) == Wrappers.Some(l)
  {
    var t := Text.NatText(LevelValue(l));
    assert t != "None" && t != "Unskilled" && t != "Normal" && t != "Skilled" by {
      assert Text.IsDigit(t[0]);
    }
  }
}
