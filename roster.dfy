/**
 * The crew roster window (DangIt/Runtime/GUI/RosterWindow.cs) without its drawing: the
 * roster filters and the kerbal selection they drive, the next training level, and the
 * affordability rule of the upgrade button.
 */
module Roster {
  import Wrappers
  import opened PerkTypes

  /** The four roster toggles; a struct, so it is a value. */
  datatype KerbalFilter = KerbalFilter(crew: bool, assignedStatus: bool, hired: bool, applicants: bool)

  /** KerbalFilter.Equals and `==`: field by field, which is equality of the values. */
  predicate FilterEquals(a: KerbalFilter, b: KerbalFilter): (r: bool)
    ensures r <==> a == b
  {
    a.crew == b.crew && a.assignedStatus == b.assignedStatus && a.hired == b.hired && a.applicants == b.applicants
  }

  /** `!=` is the negation of `==`. */
  predicate FilterDiffers(a: KerbalFilter, b: KerbalFilter): (r: bool)
    ensures r <==> a != b
  {
    !FilterEquals(a, b)
  }

  /** The filters a new window starts with: the vessel crew in flight, the rosters elsewhere. */
  function InitialFilters(inFlight: bool): (f: KerbalFilter)
    ensures f.crew == inFlight && f.assignedStatus == !inFlight && f.hired == !inFlight && f.applicants == !inFlight
  {
    KerbalFilter(inFlight, !inFlight, !inFlight, !inFlight)
  }

  /**
   * What the filter lambda looks at in a kerbal: whether it is in the active vessel's
   * crew, whether its roster status is Assigned, and whether it is on the hired crew list
   * or the applicants list.
   */
  datatype Kerbal = Kerbal(name: string, inVesselCrew: bool, isAssigned: bool, hired: bool, applicant: bool)

  /** The lambda CreateFilter returns: any enabled toggle whose list holds the kerbal; the crew toggle counts only in flight. */
  predicate Admits(f: KerbalFilter, inFlight: bool, k: Kerbal)
  {
    (if f.crew && inFlight then k.inVesselCrew else false)
    || (f.assignedStatus && k.isAssigned)
    || (f.hired && k.hired)
    || (f.applicants && k.applicant)
  }

  /** The kerbals the filter admits, in roster order. */
  function Selected(f: KerbalFilter, inFlight: bool, kerbals: seq<Kerbal>): (r: seq<Kerbal>)
    ensures |r| <= |kerbals|
  {
    if kerbals == [] then []
    else (if Admits(f, inFlight, kerbals[0]) then [kerbals[0]] else []) + Selected(f, inFlight, kerbals[1..])
  }

  /** The list holds exactly the kerbals the filter admits. */
  lemma {:induction false} SelectedMembers(f: KerbalFilter, inFlight: bool, kerbals: seq<Kerbal>)
    ensures forall k :: k in Selected(f, inFlight, kerbals) <==> k in kerbals && Admits(f, inFlight, k)
  {
    if kerbals != [] {
      SelectedMembers(f, inFlight, kerbals[1..]);
      assert kerbals == [kerbals[0]] + kerbals[1..];
    }
  }

  /** With every toggle off no kerbal is listed. */
  lemma {:induction false} NoToggleNoKerbal(inFlight: bool, kerbals: seq<Kerbal>)
    ensures Selected(KerbalFilter(false, false, false, false), inFlight, kerbals) == []
  {
    if kerbals != [] {
      NoToggleNoKerbal(inFlight, kerbals[1..]);
    }
  }

  /** Switching a toggle on never hides a kerbal that was listed. */
  lemma {:induction false} MoreTogglesMoreKerbals(f: KerbalFilter, g: KerbalFilter, inFlight: bool, kerbals: seq<Kerbal>)
    requires (f.crew ==> g.crew) && (f.assignedStatus ==> g.assignedStatus) && (f.hired ==> g.hired) && (f.applicants ==> g.applicants)
    ensures |Selected(f, inFlight, kerbals)| <= |Selected(g, inFlight, kerbals)|
  {
    if kerbals != [] {
      MoreTogglesMoreKerbals(f, g, inFlight, kerbals[1..]);
    }
  }

  /** Enum.GetValues(typeof(SkillLevel)), in declaration order. */
  const AllLevels: seq<SkillLevel> := [None, Unskilled, Normal, Skilled]

  /** The largest number among the levels. */
  function MaxLevelValue(levels: seq<SkillLevel>): (m: nat)
    requires levels != []
    ensures forall l :: l in levels ==> LevelValue(l) <= m
    ensures exists l :: l in levels && LevelValue(l) == m
  {
    if |levels| == 1 then LevelValue(levels[0])
    else
      var rest := MaxLevelValue(levels[1..]);
      if LevelValue(levels[0]) >= rest then LevelValue(levels[0]) else rest
  }

  /**
   * GetNextLevel: one level up, clamped to the largest level. It never passes the top,
   * rises by exactly one below it, and returns the level itself only at the top.
   */
  function GetNextLevel(current: SkillLevel): (next: SkillLevel)
    ensures LevelValue(next) <= MaxLevelValue(AllLevels)
    ensures next == current <==> current == Skilled
    ensures current != Skilled ==> LevelValue(next) == LevelValue(current) + 1
  {
    var maxLevel := MaxLevelValue(AllLevels);
    assert maxLevel == 3 by {
      assert LevelValue(Skilled) == 3 && Skilled in AllLevels;
    }
    var v := if LevelValue(current) + 1 < maxLevel then LevelValue(current) + 1 else maxLevel;
    LevelOf(v).value
  }

  /** The "Max level" label replaces the upgrade button exactly for the top level. */
  predicate ShowsMaxLevel(level: SkillLevel): (shown: bool)
    ensures shown <==> level == Skilled
  {
    GetNextLevel(level) == level
  }

  /** Game.Modes as far as the upgrade button distinguishes them. */
  datatype GameMode = Career | ScienceSandbox | Sandbox | OtherMode(name: string)

  /** Perk.UpgradeCost: the funds and science one training step costs. */
  datatype UpgradeCost = UpgradeCost(funds: real, science: real)

  /** The affordability switch: career needs both funds and science, science mode only science, every other mode nothing. */
  predicate HasEnoughResources(mode: GameMode, funds: real, science: real, cost: UpgradeCost): (enough: bool)
    ensures mode.Career? ==> (enough <==> funds >= cost.funds && science >= cost.science)
    ensures mode.ScienceSandbox? ==> (enough <==> science >= cost.science)
    ensures !mode.Career? && !mode.ScienceSandbox? ==> enough
  {
    match mode
    case Career => !(funds < cost.funds) && !(science < cost.science)
    case ScienceSandbox => !(science < cost.science)
    case Sandbox => true
    case OtherMode(_) => true
  }

  /** More funds and more science never make a training unaffordable. */
  lemma AffordabilityMonotone(mode: GameMode, funds: real, science: real, moreFunds: real, moreScience: real, cost: UpgradeCost)
    requires funds <= moreFunds && science <= moreScience
    requires HasEnoughResources(mode, funds, science, cost)
    ensures HasEnoughResources(mode, moreFunds, moreScience, cost)
  {
  }

  /** The window's filter and selection state; `inFlight` is HighLogic.LoadedSceneIsFlight. */
  class RosterWindow {
    const inFlight: bool
    var activeFilters: KerbalFilter
    var previousFilters: KerbalFilter
    var kerbalSelectionIdx: int

    /** The constructor: the default filters for the scene, remembered as the previous ones too. */
    constructor(inFlight: bool)
      ensures this.inFlight == inFlight
      ensures activeFilters == InitialFilters(inFlight) && previousFilters == activeFilters
      ensures kerbalSelectionIdx == 0
    {
      this.inFlight := inFlight;
      kerbalSelectionIdx := 0;
      activeFilters := KerbalFilter(inFlight, !inFlight, !inFlight, !inFlight);
      previousFilters := activeFilters;
    }

    /**
     * CreateFilter: the filters are saved as the previous ones and the toggles read; the
     * crew toggle is not shown outside flight and is forced off there.
     */
    method CreateFilter(toggles: KerbalFilter)
      modifies this
      ensures previousFilters == old(activeFilters)
      ensures activeFilters == toggles.(crew := inFlight && toggles.crew)
      ensures !inFlight ==> !activeFilters.crew
      ensures kerbalSelectionIdx == old(kerbalSelectionIdx)
    {
      previousFilters := activeFilters;
      activeFilters := activeFilters.(crew := if inFlight then toggles.crew else false);
      activeFilters := activeFilters.(assignedStatus := toggles.assignedStatus);
      activeFilters := activeFilters.(hired := toggles.hired);
      activeFilters := activeFilters.(applicants := toggles.applicants);
    }

    /**
     * SelectKerbal over the applicants followed by the crew. A change of filters puts the
     * selection back on the first kerbal; `click` is the button of the selection grid the
     * user pressed, if any. With no kerbal listed the result is null; an index past the
     * end of the list throws.
     */
    method SelectKerbal(kerbals: seq<Kerbal>, click: Wrappers.Option<nat>) returns (r: Wrappers.Result<Wrappers.Option<Kerbal>>)
      requires click.Some? ==> click.value < |Selected(activeFilters, inFlight, kerbals)|
      modifies this`kerbalSelectionIdx
      ensures var listed := Selected(activeFilters, inFlight, kerbals);
        var start := if FilterDiffers(activeFilters, previousFilters) then 0 else old(kerbalSelectionIdx);
        && (listed == [] ==> r == Wrappers.Ok(Wrappers.None) && kerbalSelectionIdx == start)
        && (listed != [] ==> kerbalSelectionIdx == (if click.Some? then click.value else start))
        && (listed != [] && 0 <= kerbalSelectionIdx < |listed| ==> r == Wrappers.Ok(Wrappers.Some(listed[kerbalSelectionIdx])))
        && (listed != [] && !(0 <= kerbalSelectionIdx < |listed|) ==> r.Err?)
    {
      var listed := Selected(activeFilters, inFlight, kerbals);
      if FilterDiffers(activeFilters, previousFilters) {
        kerbalSelectionIdx := 0;
      }
      if |listed| > 0 {
        if click.Some? {
          kerbalSelectionIdx := click.value;
        }
        if 0 <= kerbalSelectionIdx < |listed| {
          r := Wrappers.Ok(Wrappers.Some(listed[kerbalSelectionIdx]));
        } else {
          r := Wrappers.Err(Wrappers.ListIndexOutOfRange);
        }
      } else {
        r := Wrappers.Ok(Wrappers.None);
      }
    }
  }
}
