/** Vessels as FlightGlobals.Vessels lists them, and the search for the active EVA kerbal. */
module Vessels {
  import opened Wrappers

  datatype VesselType =
    Debris | SpaceObject | Unknown | Probe | Relay | Rover | Lander | Ship | Plane | Station | Base | EVA | Flag

  /** A vessel with its root part of type P; `partsListed` is false when vessel.Parts is null. */
  datatype Vessel<P> = Vessel(vesselType: VesselType, isActiveVessel: bool, rootPart: Option<P>, partsListed: bool)

  predicate IsActiveEVA<P>(v: Vessel<P>)
  {
    v.vesselType == EVA && v.isActiveVessel
  }

  /** No vessel before index k is the active EVA. */
  predicate FirstActiveEVA<P>(vessels: seq<Vessel<P>>, k: int)
    requires 0 <= k <= |vessels|
  {
    forall j :: 0 <= j < k ==> !IsActiveEVA(vessels[j])
  }

  /** List.FindIndex with the active-EVA predicate: the first match, or -1. */
  function FindEVAIndex<P>(vessels: seq<Vessel<P>>): (idx: int)
    ensures -1 <= idx < |vessels|
    ensures idx >= 0 ==> IsActiveEVA(vessels[idx])
    ensures idx >= 0 ==> forall j :: 0 <= j < idx ==> !IsActiveEVA(vessels[j])
    ensures idx < 0 <==> forall j :: 0 <= j < |vessels| ==> !IsActiveEVA(vessels[j])
  {
    if vessels == [] then -1
    else if IsActiveEVA(vessels[0]) then 0
    else
      var k := FindEVAIndex(vessels[1..]);
      if k < 0 then -1 else k + 1
  }

  /** FindEVAPart: the root part of the first active EVA vessel, or null (None) when there is none. */
  function FindEVAPart<P>(vessels: seq<Vessel<P>>): (r: Option<P>)
    ensures (forall j :: 0 <= j < |vessels| ==> !IsActiveEVA(vessels[j])) ==> r.None?
    ensures forall k :: 0 <= k < |vessels| && IsActiveEVA(vessels[k]) && FirstActiveEVA(vessels, k) ==>
      r == vessels[k].rootPart
  {
    var idx := FindEVAIndex(vessels);
    if idx < 0 then None else vessels[idx].rootPart
  }
}
