/**
 * The second generation's scenario injector (Runtime/ScenarioInjector.cs): it makes
 * sure the game carries the DangIt scenario, loaded in the editor, in flight, at the space
 * centre, in the SPH and in the tracking station.
 */
module IppoInjector {
  import opened Wrappers
  import opened Scenarios

  const ModuleName := "DangIt"

  /** The scenes of a newly added record, and the ones an existing record is made to target, in order. */
  const Scenes: seq<GameScene> := [Editor, Flight, SpaceCenter, SPH, TrackStation]

  /**
   * Start: without a DangIt record one is appended targeting the five scenes; otherwise
   * each of them is made a target of the first record, which keeps its other targets.
   */
  method Start(game: Game) returns (psm: ProtoScenarioModule)
    modifies game, set p | p in game.scenarios
    ensures FindScenario(game.scenarios, ModuleName) == Some(psm)
    ensures old(FindScenario(game.scenarios, ModuleName)).None? ==>
      fresh(psm) && game.scenarios == old(game.scenarios) + [psm] && psm.targetScenes == Scenes
    ensures old(FindScenario(game.scenarios, ModuleName)).Some? ==>
      psm == old(FindScenario(game.scenarios, ModuleName)).value && game.scenarios == old(game.scenarios) &&
      psm.targetScenes == WithScenes(old(psm.targetScenes), Scenes)
    ensures forall p | p in old(game.scenarios) && p != psm :: p.targetScenes == old(p.targetScenes)
  {
    var found := FindScenario(game.scenarios, ModuleName);
    if found.None? {
      psm := game.AddProtoScenarioModule(ModuleName, [Editor, Flight, SpaceCenter, SPH, TrackStation]);
      FindAppended(old(game.scenarios), psm, ModuleName);
    } else {
      psm := found.value;
      SetTargetScene(psm, Editor);
      SetTargetScene(psm, Flight);
      SetTargetScene(psm, SpaceCenter);
      SetTargetScene(psm, SPH);
      SetTargetScene(psm, TrackStation);
    }
  }

  /**
   * After a Start the record targets the five scenes and keeps its earlier targets; a
   * second Start changes nothing, and a record without duplicates gets none.
   */
  lemma StartTargets(scenes: seq<GameScene>)
    ensures scenes <= WithScenes(scenes, Scenes)
    ensures forall s :: s in Scenes ==> s in WithScenes(scenes, Scenes)
    ensures NoDuplicates(scenes) ==> NoDuplicates(WithScenes(scenes, Scenes))
    ensures WithScenes(WithScenes(scenes, Scenes), Scenes) == WithScenes(scenes, Scenes)
    ensures WithScenes(Scenes, Scenes) == Scenes
  {
    WithScenesProperties(scenes, Scenes);
    WithScenesIdempotent(scenes, Scenes);
    WithScenesPresent(Scenes, Scenes);
  }
}
