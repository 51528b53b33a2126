/**
 * EngineManager (DangIt/Utilities/EnginesManager.cs): the engine modules of one part,
 * ModuleEngines and ModuleEnginesFX, handled as one engine.
 */
module Engines {
  /** A ModuleEngines or ModuleEnginesFX with the fields the mod reads and sets. */
  class EngineModule {
    const isFX: bool
    var enabled: bool
    var engineIgnited: bool
    var currentThrottle: real

    constructor(isFX: bool, enabled: bool, engineIgnited: bool, currentThrottle: real)
      ensures this.isFX == isFX && this.enabled == enabled
      ensures this.engineIgnited == engineIgnited && this.currentThrottle == currentThrottle
    {
      this.isFX := isFX;
      this.enabled := enabled;
      this.engineIgnited := engineIgnited;
      this.currentThrottle := currentThrottle;
    }
  }

  /** A part module as the constructor sees it: an engine module or something else. */
  datatype PartModule = Engine(engine: EngineModule) | OtherModule

  /** Modules.OfType<ModuleEngines>() (fx == false) or OfType<ModuleEnginesFX>() (fx == true). */
  function EnginesOfKind(modules: seq<PartModule>, fx: bool): (r: seq<EngineModule>)
    ensures forall j :: 0 <= j < |r| ==> Engine(r[j]) in modules && r[j].isFX == fx
    ensures forall j :: 0 <= j < |modules| && modules[j].Engine? && modules[j].engine.isFX == fx ==> modules[j].engine in r
  {
    if modules == [] then []
    else
      (if modules[0].Engine? && modules[0].engine.isFX == fx then [modules[0].engine] else [])
      + EnginesOfKind(modules[1..], fx)
  }

  /** EngineIsActive: enabled, ignited and with the throttle above zero. */
  predicate EngineIsActive(e: EngineModule): (r: bool)
    reads e
    ensures r ==> e.currentThrottle > 0.0
    ensures !e.enabled || !e.engineIgnited ==> !r
  {
    e.enabled && e.engineIgnited && e.currentThrottle > 0.0
  }

  /** Enumerable.Max of the throttles of a non-empty list. */
  function MaxThrottle(es: seq<EngineModule>): (m: real)
    requires es != []
    reads set e | e in es
    ensures forall i :: 0 <= i < |es| ==> es[i].currentThrottle <= m
    ensures exists i :: 0 <= i < |es| && es[i].currentThrottle == m
  {
    if |es| == 1 then es[0].currentThrottle
    else
      var m := MaxThrottle(es[1..]);
      assert forall i :: 1 <= i < |es| ==> es[i] == es[1..][i - 1];
      if es[0].currentThrottle > m then es[0].currentThrottle else m
  }

  class EngineManager {
    var engines: seq<EngineModule>
    var enginesFX: seq<EngineModule>

    /** All the managed modules. */
    function Managed(): set<EngineModule>
      reads this
    {
      (set e | e in engines) + (set e | e in enginesFX)
    }

    /** The constructor collects the part's ModuleEngines and ModuleEnginesFX, in module order. */
    constructor(modules: seq<PartModule>)
      ensures engines == EnginesOfKind(modules, false)
      ensures enginesFX == EnginesOfKind(modules, true)
    {
      engines := EnginesOfKind(modules, false);
      enginesFX := EnginesOfKind(modules, true);
    }

    /** IsActive: some managed module, of either kind, is active. */
    predicate IsActive(): (r: bool)
      reads this, Managed()
      ensures r <==> exists e :: e in Managed() && EngineIsActive(e)
      ensures r ==> CurrentThrottle() > 0.0
      ensures (forall e :: e in Managed() ==> !e.enabled) ==> !r
    {
      (exists i :: 0 <= i < |engines| && EngineIsActive(engines[i])) ||
      (exists i :: 0 <= i < |enginesFX| && EngineIsActive(enginesFX[i]))
    }

    /** CurrentThrottle: the largest throttle among the managed modules, 0 when there are none. */
    function CurrentThrottle(): (t: real)
      reads this, Managed()
      ensures engines == [] && enginesFX == [] ==> t == 0.0
      ensures forall i :: 0 <= i < |engines| ==> engines[i].currentThrottle <= t
      ensures forall i :: 0 <= i < |enginesFX| ==> enginesFX[i].currentThrottle <= t
    {
      var throttle := if |engines| > 0 then MaxThrottle(engines) else 0.0;
      if |enginesFX| > 0 then
        var fx := MaxThrottle(enginesFX);
        if throttle > fx then throttle else fx
      else throttle
    }

    /** Disable: every managed module ends disabled; nothing else about them changes. */
    method Disable()
      modifies Managed()
      ensures forall e :: e in Managed() ==> !e.enabled
      ensures forall e :: e in Managed() ==> e.engineIgnited == old(e.engineIgnited) && e.currentThrottle == old(e.currentThrottle)
      ensures !IsActive()
    {
      for i := 0 to |engines|
        invariant forall j :: 0 <= j < i ==> !engines[j].enabled
        invariant forall e :: e in Managed() ==> e.engineIgnited == old(e.engineIgnited) && e.currentThrottle == old(e.currentThrottle)
      {
        engines[i].enabled := false;
      }
      for i := 0 to |enginesFX|
        invariant forall j :: 0 <= j < |engines| ==> !engines[j].enabled
        invariant forall j :: 0 <= j < i ==> !enginesFX[j].enabled
        invariant forall e :: e in Managed() ==> e.engineIgnited == old(e.engineIgnited) && e.currentThrottle == old(e.currentThrottle)
      {
        enginesFX[i].enabled := false;
      }
    }

    /** Enable: every managed module ends enabled; nothing else about them changes. */
    method Enable()
      modifies Managed()
      ensures forall e :: e in Managed() ==> e.enabled
      ensures forall e :: e in Managed() ==> e.engineIgnited == old(e.engineIgnited) && e.currentThrottle == old(e.currentThrottle)
    {
      for i := 0 to |engines|
        invariant forall j :: 0 <= j < i ==> engines[j].enabled
        invariant forall e :: e in Managed() ==> e.engineIgnited == old(e.engineIgnited) && e.currentThrottle == old(e.currentThrottle)
      {
        engines[i].enabled := true;
      }
      for i := 0 to |enginesFX|
        invariant forall j :: 0 <= j < |engines| ==> engines[j].enabled
        invariant forall j :: 0 <= j < i ==> enginesFX[j].enabled
        invariant forall e :: e in Managed() ==> e.engineIgnited == old(e.engineIgnited) && e.currentThrottle == old(e.currentThrottle)
      {
        enginesFX[i].enabled := true;
      }
    }
  }
}
