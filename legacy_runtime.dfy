/**
 * The oldest generation's runtime (DangIt/Runtime.cs): the scenario injector
 * AddScenarioModules, and the DangIt scenario module that loads the global settings file
 * (the leak blacklist and the DangItSettings) or builds a default one.
 */
module LegacyRuntime {
  import opened Wrappers
  import opened ConfigNodes
  import opened Convert
  import opened Scenarios
  import LegacySettings
  import LegacyStatic

  const ModuleName := "DangIt"

  /** The scenes a newly added record targets. */
  const CreatedScenes: seq<GameScene> := [Editor, Flight, SPH]

  /** The scenes an existing record is made to target, in the order they are checked. */
  const EnsuredScenes: seq<GameScene> := [Flight, Editor, SPH]

  /**
   * AddScenarioModules.Start: without a DangIt record one is appended targeting the editor,
   * flight and the SPH; otherwise each of them missing from the first record is appended.
   */
  method Start(game: Game) returns (psm: ProtoScenarioModule)
    modifies game, set p | p in game.scenarios
    ensures FindScenario(game.scenarios, ModuleName) == Some(psm)
    ensures old(FindScenario(game.scenarios, ModuleName)).None? ==>
      fresh(psm) && game.scenarios == old(game.scenarios) + [psm] && psm.targetScenes == CreatedScenes
    ensures old(FindScenario(game.scenarios, ModuleName)).Some? ==>
      psm == old(FindScenario(game.scenarios, ModuleName)).value && game.scenarios == old(game.scenarios) &&
      psm.targetScenes == WithScenes(old(psm.targetScenes), EnsuredScenes)
    ensures forall p | p in old(game.scenarios) && p != psm :: p.targetScenes == old(p.targetScenes)
  {
    var found := FindScenario(game.scenarios, ModuleName);
    if found.None? {
      psm := game.AddProtoScenarioModule(ModuleName, [Editor, Flight, SPH]);
      FindAppended(old(game.scenarios), psm, ModuleName);
    } else {
      psm := found.value;
      if !(Flight in psm.targetScenes) {
        psm.targetScenes := psm.targetScenes + [Flight];
      }
      if !(Editor in psm.targetScenes) {
        psm.targetScenes := psm.targetScenes + [Editor];
      }
      if !(SPH in psm.targetScenes) {
        psm.targetScenes := psm.targetScenes + [SPH];
      }
    }
  }

  /**
   * After a Start the record targets the three scenes and keeps its earlier targets; a
   * second Start changes nothing, and a record without duplicates gets none.
   */
  lemma StartTargets(scenes: seq<GameScene>)
    ensures scenes <= WithScenes(scenes, EnsuredScenes)
    ensures forall s :: s in CreatedScenes ==> s in WithScenes(scenes, EnsuredScenes)
    ensures NoDuplicates(scenes) ==> NoDuplicates(WithScenes(scenes, EnsuredScenes))
    ensures WithScenes(WithScenes(scenes, EnsuredScenes), EnsuredScenes) == WithScenes(scenes, EnsuredScenes)
    ensures WithScenes(CreatedScenes, EnsuredScenes) == CreatedScenes
  {
    WithScenesProperties(scenes, EnsuredScenes);
    WithScenesIdempotent(scenes, EnsuredScenes);
    WithScenesPresent(CreatedScenes, EnsuredScenes);
  }

  /** The resources the default blacklist ignores, in order. */
  const DefaultBlacklist: seq<string> := ["ElectricCharge", "SolidFuel", LegacyStatic.SparesName]

  /** The BLACKLIST node CreateDefaultSettings builds. */
  function BlacklistNode(): (n: Node)
    ensures n.name == "BLACKLIST" && n.nodes == []
    ensures GetValues(n, "ignore") == DefaultBlacklist
  {
    AddValue(AddValue(AddValue(NewNode("BLACKLIST"), "ignore", "ElectricCharge"), "ignore", "SolidFuel"), "ignore", LegacyStatic.SparesName)
  }

  /**
   * CreateDefaultSettings as written: the BLACKLIST node is built but the root is added to
   * itself in its place (a copy of the still empty root), so the result has no BLACKLIST
   * child. Saving the file is not modelled.
   */
  function CreateDefaultSettings(): (n: Node)
    ensures n.name == "DANGIT" && n.values == []
    ensures !HasNode(n, "BLACKLIST")
    ensures HasNode(n, "SETTINGS")
  {
    var defaultSettings := NewNode("DANGIT");
    var withSelf := AddNode(defaultSettings, defaultSettings);
    AddNode(withSelf, LegacySettings.WriteNode(LegacySettings.Defaults))
  }

  /** CreateDefaultSettings as intended: the BLACKLIST node is attached, then the default settings. */
  function CreateDefaultSettingsFixed(): (n: Node)
    ensures n.name == "DANGIT" && n.values == []
    ensures GetNode(n, "BLACKLIST") == Some(BlacklistNode())
    ensures GetNode(n, "SETTINGS") == Some(LegacySettings.WriteNode(LegacySettings.Defaults))
  {
    AddNode(AddNode(NewNode("DANGIT"), BlacklistNode()), LegacySettings.WriteNode(LegacySettings.Defaults))
  }

  /**
   * What OnLoad takes from a global settings node: the BLACKLIST "ignore" values in order
   * and the SETTINGS child read as DangItSettings, or the NullReferenceException thrown
   * when there is no BLACKLIST child.
   */
  function LoadGlobal(global: Node): (r: Result<(seq<string>, LegacySettings.DangItSettings)>)
    ensures r.Err? <==> !HasNode(global, "BLACKLIST")
    ensures r.Err? ==> r.message == NullReference
    ensures r.Ok? ==> r.value.0 == GetValues(GetNode(global, "BLACKLIST").value, "ignore")
    ensures r.Ok? ==> r.value.1 == LegacySettings.ReadNode(GetNode(global, "SETTINGS"))
  {
    match GetNode(global, "BLACKLIST")
    case None => Err(NullReference)
    case Some(blacklist) => Ok((GetValues(blacklist, "ignore"), LegacySettings.ReadNode(GetNode(global, "SETTINGS"))))
  }

  /** As written, a first run (no settings file) throws when the blacklist is read. */
  lemma AsWrittenFirstRunFails()
    ensures LoadGlobal(CreateDefaultSettings()) == Err(NullReference)
  {
  }

  /** With the blacklist attached, a first run loads the three default resources and the default settings. */
  lemma FixedFirstRun()
    ensures LoadGlobal(CreateDefaultSettingsFixed()) == Ok((DefaultBlacklist, LegacySettings.Defaults))
  {
    LegacySettings.ReadWriteRoundTrip(LegacySettings.Defaults);
  }

  /** The DangIt scenario module's loaded state; None stands for a field that is still null. */
  class Runtime {
    var leakBlackList: Option<seq<string>>
    var settings: Option<LegacySettings.DangItSettings>

    constructor()
      ensures leakBlackList == None && settings == None
    {
      leakBlackList := None;
      settings := None;
    }

    /**
     * OnLoad's try block once the global settings node is chosen: the blacklist is reset
     * to an empty list and refilled from the "ignore" values, then the settings are read;
     * a missing BLACKLIST child throws, and is rethrown, after the reset.
     */
    method LoadFrom(globalSettings: Node) returns (r: Result<()>)
      modifies this
      ensures var loaded := LoadGlobal(globalSettings);
        && (loaded.Err? ==> r == Err(loaded.message) && leakBlackList == Some([]) && settings == old(settings))
        && (loaded.Ok? ==> r == Ok(()) && leakBlackList == Some(loaded.value.0) && settings == Some(loaded.value.1))
    {
      leakBlackList := Some([]);
      var blackListNode := GetNode(globalSettings, "BLACKLIST");
      if blackListNode.None? {
        return Err(NullReference);
      }
      var items := GetValues(blackListNode.value, "ignore");
      for k := 0 to |items|
        invariant leakBlackList == Some(items[..k])
      {
        assert items[..k + 1] == items[..k] + [items[k]];
        leakBlackList := Some(leakBlackList.value + [items[k]]);
      }
      assert items[..|items|] == items;
      settings := Some(LegacySettings.ReadNode(GetNode(globalSettings, "SETTINGS")));
      r := Ok(());
    }

    /**
     * OnLoad as written. `file` is the global settings file, when it exists; otherwise
     * CreateDefaultSettings supplies the node, which lacks the BLACKLIST child, so a first
     * run throws with the blacklist left empty and the settings still unset.
     */
    method OnLoad(file: Option<Node>) returns (r: Result<()>)
      modifies this
      ensures var loaded := LoadGlobal(if file.Some? then file.value else CreateDefaultSettings());
        && (loaded.Err? ==> r == Err(loaded.message) && leakBlackList == Some([]) && settings == old(settings))
        && (loaded.Ok? ==> r == Ok(()) && leakBlackList == Some(loaded.value.0) && settings == Some(loaded.value.1))
      ensures file.None? ==> r == Err(NullReference) && leakBlackList == Some([]) && settings == old(settings)
    {
      var globalSettings := if file.Some? then file.value else CreateDefaultSettings();
      r := LoadFrom(globalSettings);
    }

    /** OnLoad corrected: a first run uses CreateDefaultSettingsFixed and loads the defaults. */
    method OnLoadFixed(file: Option<Node>) returns (r: Result<()>)
      modifies this
      ensures var loaded := LoadGlobal(if file.Some? then file.value else CreateDefaultSettingsFixed());
        && (loaded.Err? ==> r == Err(loaded.message) && leakBlackList == Some([]) && settings == old(settings))
        && (loaded.Ok? ==> r == Ok(()) && leakBlackList == Some(loaded.value.0) && settings == Some(loaded.value.1))
      ensures file.None? ==> r.Ok? && leakBlackList == Some(DefaultBlacklist) && settings == Some(LegacySettings.Defaults)
    {
      var globalSettings := if file.Some? then file.value else CreateDefaultSettingsFixed();
      r := LoadFrom(globalSettings);
      if file.None? {
        FixedFirstRun();
      }
    }
  }
}
