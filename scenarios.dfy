/**
 * The game's scenario list as the scenario injectors of every generation see it: the
 * ProtoScenarioModule records with their target scenes, the lookup by module name, and
 * the "add the scene if it is absent" step (Runtime/ScenarioInjector.cs and
 * DangIt/Runtime/ScenarioInjector.cs, SetTargetScene; DangIt/Runtime.cs does the same inline).
 */
module Scenarios {
  import opened Wrappers

  /** GameScenes, with the scenes the injectors name spelled out. */
  datatype GameScene = Editor | Flight | SpaceCenter | SPH | TrackStation | OtherScene(id: nat)

  /** A ProtoScenarioModule: the scenario's class name and the scenes it is loaded in. */
  class ProtoScenarioModule {
    const moduleName: string
    var targetScenes: seq<GameScene>

    constructor(moduleName: string, targetScenes: seq<GameScene>)
      ensures this.moduleName == moduleName && this.targetScenes == targetScenes
    {
      this.moduleName := moduleName;
      this.targetScenes := targetScenes;
    }
  }

  /** The game's `scenarios` list. */
  class Game {
    var scenarios: seq<ProtoScenarioModule>

    constructor(scenarios: seq<ProtoScenarioModule>)
      ensures this.scenarios == scenarios
    {
      this.scenarios := scenarios;
    }

    /** AddProtoScenarioModule: a new record for the class, targeting the given scenes, appended to the list. */
    method AddProtoScenarioModule(moduleName: string, scenes: seq<GameScene>) returns (psm: ProtoScenarioModule)
      modifies this
      ensures fresh(psm) && psm.moduleName == moduleName && psm.targetScenes == scenes
      ensures scenarios == old(scenarios) + [psm]
    {
      psm := new ProtoScenarioModule(moduleName, scenes);
      scenarios := scenarios + [psm];
    }
  }

  /** `scenarios.Find(s => s.moduleName == name)`: the first record for the class, or null. */
  function FindScenario(scenarios: seq<ProtoScenarioModule>, name: string): (r: Option<ProtoScenarioModule>)
    ensures r.None? <==> forall i :: 0 <= i < |scenarios| ==> scenarios[i].moduleName != name
    ensures r.Some? ==> r.value in scenarios && r.value.moduleName == name
  {
    if scenarios == [] then None
    else if scenarios[0].moduleName == name then Some(scenarios[0])
    else
      var r := FindScenario(scenarios[1..], name);
      assert forall i :: 1 <= i < |scenarios| ==> scenarios[i] == scenarios[1..][i - 1];
      r
  }

  /** The targets after SetTargetScene: the scene is appended when no entry equals it. */
  function WithScene(scenes: seq<GameScene>, scene: GameScene): seq<GameScene>
  {
    if scene in scenes then scenes else scenes + [scene]
  }

  /** The targets after SetTargetScene for each scene in turn. */
  function WithScenes(scenes: seq<GameScene>, required: seq<GameScene>): seq<GameScene>
    decreases required
  {
    if required == [] then scenes else WithScenes(WithScene(scenes, required[0]), required[1..])
  }

  predicate NoDuplicates(scenes: seq<GameScene>)
  {
    forall i, j :: 0 <= i < j < |scenes| ==> scenes[i] != scenes[j]
  }

  /**
   * SetTargetScene never removes or reorders a target, leaves the scene targeted, adds
   * no duplicate, and a second call changes nothing.
   */
  lemma WithSceneProperties(scenes: seq<GameScene>, scene: GameScene)
    ensures scenes <= WithScene(scenes, scene)
    ensures scene in WithScene(scenes, scene)
    ensures forall s :: s in WithScene(scenes, scene) <==> s in scenes || s == scene
    ensures |WithScene(scenes, scene)| == if scene in scenes then |scenes| else |scenes| + 1
    ensures NoDuplicates(scenes) ==> NoDuplicates(WithScene(scenes, scene))
    ensures WithScene(WithScene(scenes, scene), scene) == WithScene(scenes, scene)
  {
  }

  /**
   * Ensuring a list of scenes keeps the old targets as a prefix, targets every required
   * scene and nothing else new, and adds no duplicate.
   */
  lemma {:induction false} WithScenesProperties(scenes: seq<GameScene>, required: seq<GameScene>)
    ensures scenes <= WithScenes(scenes, required)
    ensures forall s :: s in WithScenes(scenes, required) <==> s in scenes || s in required
    ensures NoDuplicates(scenes) ==> NoDuplicates(WithScenes(scenes, required))
    decreases required
  {
    if required != [] {
      var next := WithScene(scenes, required[0]);
      WithSceneProperties(scenes, required[0]);
      WithScenesProperties(next, required[1..]);
      assert forall s :: s in required <==> s == required[0] || s in required[1..];
    }
  }

  /** When every required scene is already targeted, nothing is added. */
  lemma {:induction false} WithScenesPresent(scenes: seq<GameScene>, required: seq<GameScene>)
    requires forall s :: s in required ==> s in scenes
    ensures WithScenes(scenes, required) == scenes
  {
    if required != [] {
      assert required[0] in required;
      WithScenesPresent(scenes, required[1..]);
    }
  }

  /** Ensuring the same scenes a second time changes nothing. */
  lemma WithScenesIdempotent(scenes: seq<GameScene>, required: seq<GameScene>)
    ensures WithScenes(WithScenes(scenes, required), required) == WithScenes(scenes, required)
  {
    WithScenesProperties(scenes, required);
    WithScenesPresent(WithScenes(scenes, required), required);
  }

  /** SetTargetScene on the record itself. */
  method SetTargetScene(psm: ProtoScenarioModule, scene: GameScene)
    modifies psm
    ensures psm.targetScenes == WithScene(old(psm.targetScenes), scene)
  {
    if !(scene in psm.targetScenes) {
      psm.targetScenes := psm.targetScenes + [scene];
    }
  }

  /** A record appended for a class that had none is the one Find returns afterwards. */
  lemma {:induction false} FindAppended(scenarios: seq<ProtoScenarioModule>, psm: ProtoScenarioModule, name: string)
    requires FindScenario(scenarios, name).None? && psm.moduleName == name
    ensures FindScenario(scenarios + [psm], name) == Some(psm)
  {
    if scenarios != [] {
      assert (scenarios + [psm])[1..] == scenarios[1..] + [psm];
      FindAppended(scenarios[1..], psm, name);
    }
  }
}
