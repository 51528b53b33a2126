/**
 * ModuleControlSurfaceReliability (ControlSurface.cs): a control surface that, once
 * failed, ignores all three axes and is switched off; the EVA repair switches it back on
 * with the axes the player had set. The part ages all the time.
 */
module ControlSurfaceReliability {
  import opened Wrappers
  import opened Resources
  import opened BaseFailures
  import LegacyStatic
  import Convert

  const FailureMessage := "A control surface is stuck!"
  const RepairMessage := "Control surface repaired."

  /** ControlSurfaceSettings: the axes a control surface ignores. A new one ignores none. */
  datatype Settings = Settings(ignorePitch: bool, ignoreRoll: bool, ignoreYaw: bool)

  const Unset := Settings(false, false, false)

  /** A stuck surface ignores every axis. */
  const Stuck := Settings(true, true, true)

  /** ModuleControlSurface, as far as the failure touches it. */
  class ModuleControlSurface {
    var ignorePitch: bool
    var ignoreRoll: bool
    var ignoreYaw: bool
    var enabled: bool

    constructor(axes: Settings)
      ensures Axes() == axes && enabled
    {
      ignorePitch := axes.ignorePitch;
      ignoreRoll := axes.ignoreRoll;
      ignoreYaw := axes.ignoreYaw;
      enabled := true;
    }

    function Axes(): Settings
      reads this
    {
      Settings(ignorePitch, ignoreRoll, ignoreYaw)
    }
  }

  class ModuleControlSurfaceReliability {
    const base: ModuleBaseFailure
    /** null until the first DI_OnStart outside the editor. */
    var controlSurfaceModule: ModuleControlSurface?
    var originalSettings: Settings

    /** A control surface ages all the time, so its age is the time since its life started. */
    predicate Valid()
      reads this, base
    {
      !base.AgeOnlyWhenActive && base.AgeFromTimer()
    }

    /** The module as loaded from the cfg. */
    constructor(MTBF: real, LifeTime: real, RepairCost: real, UpdateInterval: real, build: LegacyStatic.Build)
      ensures fresh(base) && Valid()
      ensures base.MTBF == MTBF && base.LifeTime == LifeTime && base.RepairCost == RepairCost
      ensures base.UpdateInterval == UpdateInterval && base.build == build
      ensures base.enabled && base.needsInit && !base.hasFailed
      ensures controlSurfaceModule == null && originalSettings == Unset
    {
      base := new ModuleBaseFailure(MTBF, LifeTime, RepairCost, UpdateInterval, false, build);
      controlSurfaceModule := null;
      originalSettings := Unset;
    }

    /**
     * DI_OnStart: outside the editor the part's first ModuleControlSurface is looked up;
     * with none, First() throws and `ok` is false.
     */
    method DI_OnStart(state: StartState, surfaces: seq<ModuleControlSurface>) returns (ok: bool)
      modifies this`controlSurfaceModule
      ensures !HooksRun(state) ==> ok && unchanged(this)
      ensures HooksRun(state) ==> (ok <==> |surfaces| > 0)
      ensures HooksRun(state) && ok ==> controlSurfaceModule == surfaces[0]
      ensures !ok ==> unchanged(this)
    {
      ok := true;
      if !HooksRun(state) {
        return;
      }
      if |surfaces| == 0 {
        return false;
      }
      controlSurfaceModule := surfaces[0];
    }

    /**
     * DI_Fail: the surface's axes are saved, then it ignores every axis and is switched
     * off. Without a surface it throws.
     */
    method DI_Fail() returns (ok: bool)
      modifies this`originalSettings, controlSurfaceModule
      ensures ok <==> controlSurfaceModule != null
      ensures ok ==>
        && originalSettings == old(controlSurfaceModule.Axes())
        && controlSurfaceModule.Axes() == Stuck && !controlSurfaceModule.enabled
      ensures !ok ==> unchanged(this)
    {
      if controlSurfaceModule == null {
        return false;
      }
      originalSettings := controlSurfaceModule.Axes();
      controlSurfaceModule.ignorePitch := true;
      controlSurfaceModule.ignoreRoll := true;
      controlSurfaceModule.ignoreYaw := true;
      controlSurfaceModule.enabled := false;
      ok := true;
    }

    /**
     * DI_EvaRepair: the surface is switched on and gets the saved axes back (all unset if it
     * never failed). Without a surface it throws.
     */
    method DI_EvaRepair() returns (ok: bool)
      modifies controlSurfaceModule
      ensures ok <==> controlSurfaceModule != null
      ensures ok ==> controlSurfaceModule.enabled && controlSurfaceModule.Axes() == originalSettings
    {
      if controlSurfaceModule == null {
        return false;
      }
      controlSurfaceModule.enabled := true;
      controlSurfaceModule.ignorePitch := originalSettings.ignorePitch;
      controlSurfaceModule.ignoreRoll := originalSettings.ignoreRoll;
      controlSurfaceModule.ignoreYaw := originalSettings.ignoreYaw;
      ok := true;
    }

    /**
     * Fail: a disabled module does nothing. Otherwise it is marked failed, the failure is
     * announced, and the surface is stuck; without a surface the module is disabled.
     */
    method Fail() returns (posted: Option<string>)
      modifies this`originalSettings, base, controlSurfaceModule
      ensures !old(base.enabled) ==> unchanged(this) && unchanged(base) && (controlSurfaceModule != null ==> unchanged(controlSurfaceModule)) && posted == None
      ensures old(base.enabled) ==>
        && base.State() == old(base.State()).(hasFailed := true, failActive := false, evaRepairActive := true, enabled := base.enabled)
        && posted == Some(FailureMessage)
        && (base.enabled <==> controlSurfaceModule != null)
      ensures old(base.enabled) && controlSurfaceModule != null ==>
        && originalSettings == old(controlSurfaceModule.Axes())
        && controlSurfaceModule.Axes() == Stuck && !controlSurfaceModule.enabled
    {
      posted := None;
      if !base.enabled {
        return;
      }
      base.MarkFailed();
      posted := LegacyStatic.Broadcast(FailureMessage);
      var ok := DI_Fail();
      if !ok {
        base.enabled := false;
      }
    }

    /**
     * OnStart: a disabled module does nothing. Otherwise DI_OnStart finds the surface (a
     * part without one disables the module and stops there), the base initialises the
     * module in flight, and outside flight and the editor a surface saved as failed fails
     * again.
     */
    method OnStart(state: StartState, inFlight: bool, now: real, surfaces: seq<ModuleControlSurface>)
      returns (posted: Option<string>)
      requires Valid()
      modifies this, base, controlSurfaceModule, surfaces
      ensures Valid()
      ensures !old(base.enabled) ==> unchanged(this) && unchanged(base) && posted == None
      ensures old(base.enabled) && HooksRun(state) && |surfaces| == 0 ==>
        !base.enabled && unchanged(this) && base.State() == old(base.State()).(enabled := false) && posted == None
      ensures old(base.enabled) && HooksRun(state) && |surfaces| > 0 ==> controlSurfaceModule == surfaces[0]
      ensures old(base.enabled) && (!HooksRun(state) || |surfaces| > 0) && inFlight ==> posted == None && base.enabled
      ensures old(base.enabled) && (!HooksRun(state) || |surfaces| > 0) && inFlight
        && (old(base.needsInit) || Convert.Finite(now).Below(old(base.timeInitted)))
        ==> base.NewLife(now)
      ensures old(base.enabled) && (!HooksRun(state) || |surfaces| > 0) && !inFlight && state != Editor && old(base.hasFailed) ==>
        && base.hasFailed && !base.failActive && base.evaRepairActive && posted == Some(FailureMessage)
        && (controlSurfaceModule != null ==> controlSurfaceModule.Axes() == Stuck && !controlSurfaceModule.enabled)
    {
      posted := None;
      if !base.enabled {
        return;
      }
      var ok := DI_OnStart(state, surfaces);
      if !ok {
        base.enabled := false;
        return;
      }
      var failAgain := base.Start(state, inFlight, now);
      if failAgain {
        posted := Fail();
      }
    }

    /**
     * OnFixedUpdate at time `now` (see ModuleBaseFailure.Tick for `decayedMTBF`), with
     * `failureRolled` whether the dice came up below Lambda. A disabled module, or an update
     * not yet due, does nothing. Otherwise the age becomes the time since the life started
     * and a working surface fails when the dice say so.
     */
    method OnFixedUpdate(now: real, decayedMTBF: real, failureRolled: bool) returns (posted: Option<string>)
      requires Valid()
      modifies this`originalSettings, base, controlSurfaceModule
      ensures Valid()
      ensures !old(base.enabled) || !(now - old(base.lastFixedUpdate) > base.UpdateInterval) ==>
        unchanged(this) && unchanged(base) && posted == None
      ensures old(base.enabled) && now - old(base.lastFixedUpdate) > base.UpdateInterval ==>
        && base.Age == now - base.timerStart && base.timerStart == old(base.timerStart)
        && base.lastFixedUpdate == now && base.currMTBF == decayedMTBF
        && base.hasFailed == (old(base.hasFailed) || failureRolled)
        && (posted.Some? <==> !old(base.hasFailed) && failureRolled)
      ensures old(base.enabled) && now - old(base.lastFixedUpdate) > base.UpdateInterval && (old(base.hasFailed) || !failureRolled) ==>
        unchanged(this) && (controlSurfaceModule != null ==> unchanged(controlSurfaceModule)) && base.enabled
    {
      posted := None;
      if !base.enabled {
        return;
      }
      var due := base.Tick(now, true, decayedMTBF);
      if !due {
        return;
      }
      if !base.hasFailed && failureRolled {
        posted := Fail();
      }
    }

    /**
     * EvaRepair with `eva` what FindEVA returned. A disabled module does nothing; the base
     * repairs the module and takes the spares when the kerbal carries enough, and then the
     * surface is restored; without a surface the module is disabled.
     */
    method EvaRepair(eva: Part?) returns (posted: Option<string>)
      modifies base, controlSurfaceModule, eva
      ensures !old(base.enabled) ==>
        unchanged(base) && (controlSurfaceModule != null ==> unchanged(controlSurfaceModule)) && (eva != null ==> unchanged(eva)) && posted == None
      ensures old(base.enabled) && (eva == null || !CanRepair(old(eva.resources), base.RepairCost)) ==>
        unchanged(base) && (controlSurfaceModule != null ==> unchanged(controlSurfaceModule)) && (eva != null ==> unchanged(eva))
      ensures old(base.enabled) && eva != null && CanRepair(old(eva.resources), base.RepairCost) ==>
        && !base.hasFailed && !base.evaRepairActive
        && eva.resources == SpendSpares(old(eva.resources), base.RepairCost)
        && posted == Some(RepairMessage)
        && (base.enabled <==> controlSurfaceModule != null)
        && (controlSurfaceModule != null ==> controlSurfaceModule.enabled && controlSurfaceModule.Axes() == originalSettings)
    {
      posted := None;
      if !base.enabled {
        return;
      }
      var repaired;
      repaired, posted := base.Repair(eva, RepairMessage);
      if repaired {
        var ok := DI_EvaRepair();
        if !ok {
          base.enabled := false;
        }
      }
    }
  }
}
