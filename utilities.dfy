/**
 * CUtils, the utility class of the newest generation (DangIt/Utilities/Utilities.cs):
 * the priority table, the plain flight log and the exception-safe glow reset.
 */
module CUtils {
  import opened Wrappers
  import opened PartTrees
  import opened Vessels
  import opened FlightLogs
  import RuntimeStatic

  /** PriorityIntValues: the case-sensitive table from priority name to number. */
  const PriorityIntValues: map<string, int> := map["LOW" := 1, "MEDIUM" := 2, "HIGH" := 3]

  /**
   * The table agrees with PriorityIntFromString on its own keys, but it is case-sensitive:
   * "low" is not a key, while PriorityIntFromString upper-cases its input.
   */
  lemma PriorityTableAgrees()
    ensures PriorityIntValues.Keys == {"LOW", "MEDIUM", "HIGH"}
    ensures forall k :: k in PriorityIntValues ==> RuntimeStatic.PriorityIntFromString(k) == PriorityIntValues[k]
    ensures "low" !in PriorityIntValues && RuntimeStatic.PriorityIntFromString("low") == 1
  {
    RuntimeStatic.PriorityNames();
  }

  /** FlightLog: the message appended to the event log as it is, with no MET stamp. */
  method FlightLog(logger: FlightLogger, msg: string)
    modifies logger
    ensures logger.met == old(logger.met)
    ensures logger.eventLog == old(logger.eventLog) + [msg]
  {
    logger.eventLog := logger.eventLog + [msg];
  }

  /**
   * ResetPartGlow: back to the default highlight, red when the Glow setting is on and any
   * FailureModule has failed and is not silent, then every child.
   */
  method ResetPartGlow(part: Part, glow: bool) returns (r: Part)
    ensures r == Glowed(part, VisibleFailureRule(glow))
    decreases part
  {
    var highlight := DefaultHighlight;
    if glow {
      if exists m :: m in FailureModulesOf(part.modules) && m.hasFailed && !m.silent {
        highlight := FailedRed;
      }
    }
    var children: seq<Part> := [];
    for k := 0 to |part.children|
      invariant |children| == k
      invariant forall j :: 0 <= j < k ==> children[j] == Glowed(part.children[j], VisibleFailureRule(glow))
    {
      var c := ResetPartGlow(part.children[k], glow);
      children := children + [c];
    }
    r := Part(part.modules, children, highlight);
  }

  /**
   * ResetShipGlow: nothing happens when vessel.Parts is null; the NullReferenceException of a
   * vessel without a root part is caught and logged, so the vessel is unchanged as well.
   */
  method ResetShipGlow(vessel: Vessel<Part>, glow: bool) returns (r: Vessel<Part>)
    ensures !vessel.partsListed || vessel.rootPart.None? ==> r == vessel
    ensures vessel.partsListed && vessel.rootPart.Some? ==>
      r == vessel.(rootPart := Some(Glowed(vessel.rootPart.value, VisibleFailureRule(glow))))
  {
    r := vessel;
    if vessel.partsListed && vessel.rootPart.Some? {
      var root := ResetPartGlow(vessel.rootPart.value, glow);
      r := vessel.(rootPart := Some(root));
    }
  }
}
