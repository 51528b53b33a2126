/**
 * ModuleBatteryReliability (Batteries.cs): a battery that, once failed, short-circuits:
 * every ElectricCharge resource of the part is emptied and cut off; the EVA repair lets
 * the charge flow both ways again (the lost charge stays lost). The part ages all the time.
 */
module BatteryReliability {
  import opened Wrappers
  import opened Resources
  import opened BaseFailures
  import LegacyStatic
  import Convert

  const FailureMessage := "A battery has short-circuited!"
  const RepairMessage := "Battery repaired."
  const BatteryName := "ElectricCharge"

  /** The batteries: the positions, in part order, of the ElectricCharge resources. */
  function Batteries(rs: seq<Resource>): (r: seq<nat>)
    ensures forall k :: 0 <= k < |r| ==> r[k] < |rs| && rs[r[k]].resourceName == BatteryName
    ensures forall j :: 0 <= j < |rs| && rs[j].resourceName == BatteryName ==> j in r
    ensures forall k, l :: 0 <= k < l < |r| ==> r[k] < r[l]
    decreases |rs|
  {
    if rs == [] then []
    else
      var last := |rs| - 1;
      var front := Batteries(rs[..last]);
      assert forall j :: 0 <= j < last ==> rs[..last][j] == rs[j];
      front + (if rs[last].resourceName == BatteryName then [last] else [])
  }

  /** Only the names decide the batteries, so emptying or cutting them off keeps the list. */
  lemma {:induction false} BatteriesSameNames(a: seq<Resource>, b: seq<Resource>)
    requires |a| == |b| && forall j :: 0 <= j < |a| ==> a[j].resourceName == b[j].resourceName
    ensures Batteries(a) == Batteries(b)
    decreases |a|
  {
    if a != [] {
      var last := |a| - 1;
      BatteriesSameNames(a[..last], b[..last]);
    }
  }

  /** What DI_Fail does to one battery. */
  function Short(r: Resource): Resource
  {
    r.(amount := 0.0, flowMode := NoFlow)
  }

  /** What DI_EvaRepair does to one battery. */
  function Reconnect(r: Resource): Resource
  {
    r.(flowMode := Both)
  }

  /**
   * The part after a short circuit: every battery empty and cut off, every other resource
   * as it was.
   */
  function ShortCircuited(rs: seq<Resource>): (r: seq<Resource>)
    ensures |r| == |rs|
    ensures forall j :: 0 <= j < |rs| && rs[j].resourceName == BatteryName ==>
      r[j].amount == 0.0 && r[j].flowMode == NoFlow && r[j].resourceName == BatteryName && r[j].maxAmount == rs[j].maxAmount
    ensures forall j :: 0 <= j < |rs| && rs[j].resourceName != BatteryName ==> r[j] == rs[j]
  {
    seq(|rs|, j requires 0 <= j < |rs| => if rs[j].resourceName == BatteryName then Short(rs[j]) else rs[j])
  }

  /** The part after a repair: every battery flows both ways, every other resource as it was. */
  function Reconnected(rs: seq<Resource>): (r: seq<Resource>)
    ensures |r| == |rs|
    ensures forall j :: 0 <= j < |rs| && rs[j].resourceName == BatteryName ==>
      r[j].flowMode == Both && r[j].amount == rs[j].amount && r[j].resourceName == BatteryName
    ensures forall j :: 0 <= j < |rs| && rs[j].resourceName != BatteryName ==> r[j] == rs[j]
  {
    seq(|rs|, j requires 0 <= j < |rs| => if rs[j].resourceName == BatteryName then Reconnect(rs[j]) else rs[j])
  }

  /** A failure and a repair leave the batteries empty but flowing, and the rest untouched. */
  lemma FailThenRepair(rs: seq<Resource>)
    ensures var r := Reconnected(ShortCircuited(rs));
      && |r| == |rs|
      && (forall j :: 0 <= j < |rs| && rs[j].resourceName == BatteryName ==> r[j] == rs[j].(amount := 0.0, flowMode := Both))
      && (forall j :: 0 <= j < |rs| && rs[j].resourceName != BatteryName ==> r[j] == rs[j])
  {
  }

  class ModuleBatteryReliability {
    const base: ModuleBaseFailure
    const part: Part
    /** null until the first DI_OnStart outside the editor. */
    var batteries: Option<seq<nat>>

    /**
     * A battery ages all the time, so its age is the time since its life started; the
     * battery list is the part's ElectricCharge resources.
     */
    predicate Valid()
      reads this, base, part
    {
      !base.AgeOnlyWhenActive && base.AgeFromTimer()
      && (batteries.Some? ==> batteries.value == Batteries(part.resources))
    }

    /** The module as loaded from the cfg on `part`. */
    constructor(part: Part, MTBF: real, LifeTime: real, RepairCost: real, UpdateInterval: real, build: LegacyStatic.Build)
      ensures this.part == part && fresh(base) && Valid()
      ensures base.MTBF == MTBF && base.LifeTime == LifeTime && base.RepairCost == RepairCost
      ensures base.UpdateInterval == UpdateInterval && base.build == build
      ensures base.enabled && base.needsInit && !base.hasFailed
      ensures batteries == None
    {
      this.part := part;
      base := new ModuleBaseFailure(MTBF, LifeTime, RepairCost, UpdateInterval, false, build);
      batteries := None;
    }

    /**
     * DI_OnStart: outside the editor the batteries are listed again; a part without any
     * disables the module.
     */
    method DI_OnStart(state: StartState)
      requires Valid()
      modifies this`batteries, base`enabled
      ensures Valid()
      ensures !HooksRun(state) ==> unchanged(this) && base.enabled == old(base.enabled)
      ensures HooksRun(state) ==>
        batteries == Some(Batteries(part.resources)) && base.enabled == (old(base.enabled) && |batteries.value| >= 1)
    {
      if !HooksRun(state) {
        return;
      }
      var found := Batteries(part.resources);
      batteries := Some(found);
      if |found| < 1 {
        base.enabled := false;
      }
    }

    /** DI_Fail: each battery in turn is emptied and cut off. Without a list it throws. */
    method DI_Fail() returns (ok: bool)
      requires Valid()
      modifies part
      ensures Valid()
      ensures ok <==> batteries.Some?
      ensures ok ==> part.resources == ShortCircuited(old(part.resources))
      ensures !ok ==> unchanged(part)
    {
      if batteries.None? {
        return false;
      }
      var bs := batteries.value;
      ghost var rs0 := part.resources;
      var k := 0;
      while k < |bs|
        invariant 0 <= k <= |bs|
        invariant |part.resources| == |rs0|
        invariant forall j :: 0 <= j < |rs0| ==> part.resources[j] == if j in bs[..k] then Short(rs0[j]) else rs0[j]
      {
        var b := bs[k];
        part.resources := part.resources[b := Short(part.resources[b])];
        assert bs[..k + 1] == bs[..k] + [b];
        k := k + 1;
      }
      assert bs[..k] == bs;
      assert part.resources == ShortCircuited(rs0);
      BatteriesSameNames(rs0, part.resources);
      ok := true;
    }

    /** DI_EvaRepair: each battery in turn flows both ways again. Without a list it throws. */
    method DI_EvaRepair() returns (ok: bool)
      requires Valid()
      modifies part
      ensures Valid()
      ensures ok <==> batteries.Some?
      ensures ok ==> part.resources == Reconnected(old(part.resources))
      ensures !ok ==> unchanged(part)
    {
      if batteries.None? {
        return false;
      }
      var bs := batteries.value;
      ghost var rs0 := part.resources;
      var k := 0;
      while k < |bs|
        invariant 0 <= k <= |bs|
        invariant |part.resources| == |rs0|
        invariant forall j :: 0 <= j < |rs0| ==> part.resources[j] == if j in bs[..k] then Reconnect(rs0[j]) else rs0[j]
      {
        var b := bs[k];
        part.resources := part.resources[b := Reconnect(part.resources[b])];
        assert bs[..k + 1] == bs[..k] + [b];
        k := k + 1;
      }
      assert bs[..k] == bs;
      assert part.resources == Reconnected(rs0);
      BatteriesSameNames(rs0, part.resources);
      ok := true;
    }

    /**
     * Fail: a disabled module does nothing. Otherwise it is marked failed, the failure is
     * announced, and the batteries short-circuit; without a battery list the module is
     * disabled.
     */
    method Fail() returns (posted: Option<string>)
      requires Valid()
      modifies base, part
      ensures Valid()
      ensures !old(base.enabled) ==> unchanged(base) && unchanged(part) && posted == None
      ensures old(base.enabled) ==>
        && base.State() == old(base.State()).(hasFailed := true, failActive := false, evaRepairActive := true, enabled := base.enabled)
        && posted == Some(FailureMessage)
        && (base.enabled <==> batteries.Some?)
        && (batteries.Some? ==> part.resources == ShortCircuited(old(part.resources)))
        && (batteries.None? ==> unchanged(part))
    {
      posted := None;
      if !base.enabled {
        return;
      }
      base.MarkFailed();
      posted := LegacyStatic.Broadcast(FailureMessage);
      var ok := DI_Fail();
      if !ok {
        base.enabled := false;
      }
    }

    /**
     * OnStart: a disabled module does nothing. Otherwise DI_OnStart lists the batteries,
     * the base initialises the module in flight, and outside flight and the editor a
     * battery saved as failed (and still enabled) fails again.
     */
    method OnStart(state: StartState, inFlight: bool, now: real) returns (posted: Option<string>)
      requires Valid()
      modifies this, base, part
      ensures Valid()
      ensures !old(base.enabled) ==> unchanged(this) && unchanged(base) && unchanged(part) && posted == None
      ensures old(base.enabled) && HooksRun(state) ==>
        batteries == Some(Batteries(old(part.resources)))
        && (|batteries.value| == 0 ==> !base.enabled && unchanged(part) && posted == None)
      ensures old(base.enabled) && inFlight ==> posted == None && unchanged(part)
      ensures old(base.enabled) && inFlight && (old(base.needsInit) || Convert.Finite(now).Below(old(base.timeInitted))) ==>
        base.NewLife(now)
      ensures old(base.enabled) && !inFlight && state != Editor && old(base.hasFailed) && base.enabled ==>
        base.hasFailed && !base.failActive && base.evaRepairActive && part.resources == ShortCircuited(old(part.resources))
    {
      posted := None;
      if !base.enabled {
        return;
      }
      DI_OnStart(state);
      var failAgain := base.Start(state, inFlight, now);
      if failAgain {
        posted := Fail();
      }
    }

    /**
     * OnFixedUpdate at time `now` (see ModuleBaseFailure.Tick for `decayedMTBF`), with
     * `failureRolled` whether the dice came up below Lambda. A disabled module, or an update
     * not yet due, does nothing. Otherwise the age becomes the time since the life started
     * and a working battery fails when the dice say so.
     */
    method OnFixedUpdate(now: real, decayedMTBF: real, failureRolled: bool) returns (posted: Option<string>)
      requires Valid()
      modifies base, part
      ensures Valid()
      ensures !old(base.enabled) || !(now - old(base.lastFixedUpdate) > base.UpdateInterval) ==>
        unchanged(base) && unchanged(part) && posted == None
      ensures old(base.enabled) && now - old(base.lastFixedUpdate) > base.UpdateInterval ==>
        && base.Age == now - base.timerStart && base.timerStart == old(base.timerStart)
        && base.lastFixedUpdate == now && base.currMTBF == decayedMTBF
        && base.hasFailed == (old(base.hasFailed) || failureRolled)
      ensures old(base.enabled) && now - old(base.lastFixedUpdate) > base.UpdateInterval && !old(base.hasFailed) && failureRolled ==>
        posted == Some(FailureMessage) && (batteries.Some? ==> part.resources == ShortCircuited(old(part.resources)))
      ensures old(base.enabled) && now - old(base.lastFixedUpdate) > base.UpdateInterval && (old(base.hasFailed) || !failureRolled) ==>
        unchanged(part) && posted == None && base.enabled
    {
      posted := None;
      if !base.enabled {
        return;
      }
      var due := base.Tick(now, true, decayedMTBF);
      if !due {
        return;
      }
      if !base.hasFailed && failureRolled {
        posted := Fail();
      }
    }

    /**
     * EvaRepair with `eva` what FindEVA returned (a kerbal, never the battery itself). A
     * disabled module does nothing; the base repairs the module and takes the spares when
     * the kerbal carries enough, and then the batteries are reconnected; without a battery
     * list the module is disabled.
     */
    method EvaRepair(eva: Part?) returns (posted: Option<string>)
      requires Valid() && eva != part
      modifies base, part, eva
      ensures Valid()
      ensures !old(base.enabled) ==> unchanged(base) && unchanged(part) && (eva != null ==> unchanged(eva)) && posted == None
      ensures old(base.enabled) && (eva == null || !CanRepair(old(eva.resources), base.RepairCost)) ==>
        unchanged(base) && unchanged(part) && (eva != null ==> unchanged(eva))
      ensures old(base.enabled) && eva != null && CanRepair(old(eva.resources), base.RepairCost) ==>
        && !base.hasFailed && !base.evaRepairActive
        && eva.resources == SpendSpares(old(eva.resources), base.RepairCost)
        && posted == Some(RepairMessage)
        && (base.enabled <==> batteries.Some?)
        && (batteries.Some? ==> part.resources == Reconnected(old(part.resources)))
        && (batteries.None? ==> unchanged(part))
    {
      posted := None;
      if !base.enabled {
        return;
      }
      var repaired;
      repaired, posted := base.Repair(eva, RepairMessage);
      if repaired {
        var ok := DI_EvaRepair();
        if !ok {
          base.enabled := false;
        }
      }
    }
  }
}
