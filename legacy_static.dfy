/**
 * The oldest generation's project-wide constants and helpers (namespace DangIt, DangIt.cs):
 * the spare-parts constants, the build-dependent constants, Broadcast and the glow reset.
 */
module LegacyStatic {
  import opened Wrappers
  import opened PartTrees
  import opened Vessels
  import RuntimeStatic

  /** DangIt.Spares. */
  const SparesIncrement: real := 1.0
  const SparesMaxEvaAmount: real := 10.0
  const SparesName: string := "SpareParts"

  /** The compilation symbol the constants depend on. */
  datatype Build = Debug | Release

  /** The EVA repair range: 20 m in a DEBUG build, 0.5 m otherwise. */
  function EvaRepairDistance(build: Build): (d: real)
    ensures d > 0.0
    ensures build == Debug ==> d == 20.0
    ensures build == Release ==> d == 0.5
  {
    if build == Debug then 20.0 else 0.5
  }

  /** Whether the "DEBUG Fail" button is shown: only in a DEBUG build. */
  function EnableGuiFailure(build: Build): (shown: bool)
    ensures shown <==> build == Debug
  {
    build == Debug
  }

  /** Broadcast: always posted; there is no mute setting in this generation. */
  function Broadcast(message: string): (posted: Option<string>)
    ensures posted == Some(message)
  {
    Some(message)
  }

  /** It behaves as the newer Broadcast does with overrideMute set, whatever the settings say. */
  lemma BroadcastIsUnmuted(message: string, messages: bool)
    ensures Broadcast(message) == RuntimeStatic.Broadcast(message, true, messages)
  {
  }

  /**
   * ResetGlow: back to the default highlight, red when some ModuleBaseFailure has failed
   * (the scan stops at the first; no setting and no silent flag), then every child.
   */
  method ResetGlow(part: Part) returns (r: Part)
    ensures r == Glowed(part, BaseFailureRule)
    decreases part
  {
    var highlight := DefaultHighlight;
    var failModules := BaseFailuresOf(part.modules);
    var i := 0;
    while i < |failModules|
      invariant 0 <= i <= |failModules|
      invariant highlight == DefaultHighlight
      invariant forall j :: 0 <= j < i ==> !failModules[j].hasFailed
    {
      if failModules[i].hasFailed {
        highlight := FailedRed;
        break;
      }
      i := i + 1;
    }
    if highlight == DefaultHighlight {
      assert forall m | m in failModules :: !m.hasFailed;
    } else {
      assert failModules[i] in part.modules;
    }
    var children: seq<Part> := [];
    for k := 0 to |part.children|
      invariant |children| == k
      invariant forall j :: 0 <= j < k ==> children[j] == Glowed(part.children[j], BaseFailureRule)
    {
      var c := ResetGlow(part.children[k]);
      children := children + [c];
    }
    r := Part(part.modules, children, highlight);
  }

  /** ResetShipGlow: ResetGlow from the root part, which throws when the vessel has none. */
  method ResetShipGlow(v: Vessel<Part>) returns (r: Result<Vessel<Part>>)
    ensures v.rootPart.None? ==> r.Err?
    ensures v.rootPart.Some? ==> r == Ok(v.(rootPart := Some(Glowed(v.rootPart.value, BaseFailureRule))))
  {
    if v.rootPart.None? {
      return Err(NullReference);
    }
    var root := ResetGlow(v.rootPart.value);
    r := Ok(v.(rootPart := Some(root)));
  }
}
