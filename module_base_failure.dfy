/**
 * ModuleBaseFailure (ModuleBaseFailure.cs): the aging, the dice, the Fail and EvaRepair
 * events and the exception guard that the second generation's failure modules share.
 * The class holds the base state and the steps of OnStart, OnFixedUpdate, Fail and
 * EvaRepair that surround the subclass hooks; each subclass (a separate class holding one
 * of these) runs the steps and its hooks in the order the base class calls them.
 */
module BaseFailures {
  import opened Wrappers
  import opened Convert
  import opened Resources
  import opened SparesTransfer
  import LegacyStatic

  /** PartModule.StartState; NoState is its None. */
  datatype StartState = NoState | Editor | PreLaunch | Landed | Docked | Flying | Splashed | SubOrbital | Orbital

  /** The subclass hooks do nothing in the editor or before a state is known. */
  predicate HooksRun(state: StartState)
  {
    state != Editor && state != NoState
  }

  const NoEvaMessage := "DangIt ERROR: couldn't find an active EVA!"

  function NeedSparesMessage(repairCost: real): string
  {
    "You need " + RealText(repairCost) + " spares to repair this."
  }

  /** UnityEngine.Random.Range(0, count): some index below count, and 0 when there is none. */
  function Pick(roll: nat, count: nat): (i: nat)
    ensures count > 0 ==> i < count
    ensures count == 0 ==> i == 0
  {
    if count == 0 then 0 else roll % count
  }

  /** Every index is reachable, so a roll stands for any outcome of the draw. */
  lemma PickReachesAll(i: nat, count: nat)
    requires i < count
    ensures Pick(i, count) == i
  {
  }

  /** Whether the kerbal carries at least `cost` spares. */
  predicate CanRepair(rs: seq<Resource>, cost: real)
  {
    HasSpares(rs) && Spares(rs).amount >= cost
  }

  /** EvaRepair's direct payment: the spares amount goes down by the cost, nothing else changes. */
  function SpendSpares(rs: seq<Resource>, cost: real): (r: seq<Resource>)
    requires HasSpares(rs)
    ensures HasSpares(r) && IndexOf(r, SparesName) == IndexOf(rs, SparesName)
    ensures Spares(r) == Spares(rs).(amount := Spares(rs).amount - cost)
    ensures |r| == |rs| && forall j :: 0 <= j < |rs| && j != IndexOf(rs, SparesName) ==> r[j] == rs[j]
    ensures CanRepair(rs, cost) && cost >= 0.0 && InRange(Spares(rs)) ==> InRange(Spares(r))
  {
    var i := IndexOf(rs, SparesName);
    SparesAmountUpdate(rs, rs[i].amount - cost);
    rs[i := rs[i].(amount := rs[i].amount - cost)]
  }

  /** Every persistent field of the base module and the two events, at one moment. */
  datatype Snapshot = Snapshot(
    enabled: bool,
    needsInit: bool,
    timeInitted: Float,
    initialMTBF: real,
    currMTBF: real,
    lifeTimeSecs: real,
    age: real,
    timerStart: real,
    lastFixedUpdate: real,
    hasFailed: bool,
    failActive: bool,
    evaRepairActive: bool)

  class ModuleBaseFailure {
    /** The cfg fields. */
    const MTBF: real
    const LifeTime: real
    const RepairCost: real
    const UpdateInterval: real
    /** The subclass's AgeOnlyWhenActive. */
    const AgeOnlyWhenActive: bool
    /** The build, which decides DangIt.EnableGuiFailure. */
    const build: LegacyStatic.Build

    /** MonoBehaviour.enabled, which the exception guard clears. */
    var enabled: bool
    var needsInit: bool
    var timeInitted: Float
    var initialMTBF: real
    var currMTBF: real
    var lifeTimeSecs: real
    var Age: real
    var timerStart: real
    var lastFixedUpdate: real
    var hasFailed: bool
    /** Events["Fail"].active and Events["EvaRepair"].active. */
    var failActive: bool
    var evaRepairActive: bool

    function State(): Snapshot
      reads this
    {
      Snapshot(enabled, needsInit, timeInitted, initialMTBF, currMTBF, lifeTimeSecs, Age, timerStart,
               lastFixedUpdate, hasFailed, failActive, evaRepairActive)
    }

    /** A module that ages all the time has as age the time since its life started. */
    predicate AgeFromTimer()
      reads this
    {
      !AgeOnlyWhenActive ==> Age == lastFixedUpdate - timerStart
    }

    /** The state the in-flight initialisation leaves: a new life starting at `now`. */
    predicate NewLife(now: real)
      reads this
    {
      currMTBF == MTBF && initialMTBF == MTBF && lifeTimeSecs == LifeTime * 3600.0
      && Age == 0.0 && lastFixedUpdate == now && timerStart == now && !hasFailed && !needsInit
    }

    /** The field initialisers; the EvaRepair event is declared inactive, Fail active. */
    constructor(MTBF: real, LifeTime: real, RepairCost: real, UpdateInterval: real,
                AgeOnlyWhenActive: bool, build: LegacyStatic.Build)
      ensures this.MTBF == MTBF && this.LifeTime == LifeTime && this.RepairCost == RepairCost
      ensures this.UpdateInterval == UpdateInterval && this.AgeOnlyWhenActive == AgeOnlyWhenActive
      ensures this.build == build
      ensures State() == Snapshot(true, true, PositiveInfinity, 1000.0, 1000.0, 3600.0, 0.0, 0.0, 0.0, false, true, false)
      ensures AgeFromTimer()
    {
      this.MTBF := MTBF;
      this.LifeTime := LifeTime;
      this.RepairCost := RepairCost;
      this.UpdateInterval := UpdateInterval;
      this.AgeOnlyWhenActive := AgeOnlyWhenActive;
      this.build := build;
      enabled := true;
      needsInit := true;
      timeInitted := PositiveInfinity;
      initialMTBF := 1000.0;
      currMTBF := 1000.0;
      lifeTimeSecs := 3600.0;
      Age := 0.0;
      timerStart := 0.0;
      lastFixedUpdate := 0.0;
      hasFailed := false;
      failActive := true;
      evaRepairActive := false;
    }

    /**
     * OnStart after the subclass's DI_OnStart. In flight, a time before timeInitted (a new
     * flight or a revert) asks for a new initialisation, which then starts a new life at
     * `now`; a module already initialised stays as it is. Outside flight nothing changes,
     * and the result says whether a module saved as failed must fail again (any scene but
     * the editor).
     */
    method Start(state: StartState, inFlight: bool, now: real) returns (failAgain: bool)
      modifies this
      ensures !inFlight ==> unchanged(this) && failAgain == (state != Editor && hasFailed)
      ensures inFlight ==> !failAgain
      ensures inFlight && Finite(now).Below(old(timeInitted)) ==> timeInitted == Finite(now + 10.0)
      ensures inFlight && !Finite(now).Below(old(timeInitted)) ==> timeInitted == old(timeInitted)
      ensures inFlight && (old(needsInit) || Finite(now).Below(old(timeInitted))) ==>
        NewLife(now) && enabled == old(enabled) && failActive == old(failActive) && evaRepairActive == old(evaRepairActive)
      ensures inFlight && !old(needsInit) && !Finite(now).Below(old(timeInitted)) ==> unchanged(this)
      ensures old(AgeFromTimer()) ==> AgeFromTimer()
    {
      failAgain := false;
      if inFlight {
        if Finite(now).Below(timeInitted) {
          needsInit := true;
          timeInitted := Finite(now + 10.0);
        }
        if !needsInit {
          return;
        }
        currMTBF := MTBF;
        initialMTBF := MTBF;
        lifeTimeSecs := LifeTime * 3600.0;
        Age := 0.0;
        timerStart := now;
        lastFixedUpdate := now;
        hasFailed := false;
        needsInit := false;
      } else {
        failAgain := state != Editor && hasFailed;
      }
    }

    /**
     * OnFixedUpdate's timekeeping at time `now`. `partActive` is PartIsActive() and
     * `decayedMTBF` the exponentially decayed MTBF for the new age. The result says whether
     * the update was due and the part in use, in which case the dice and DI_Update follow.
     */
    method Tick(now: real, partActive: bool, decayedMTBF: real) returns (due: bool)
      modifies this
      ensures due <==> now - old(lastFixedUpdate) > UpdateInterval && (!AgeOnlyWhenActive || partActive)
      ensures !(now - old(lastFixedUpdate) > UpdateInterval) ==> unchanged(this)
      ensures now - old(lastFixedUpdate) > UpdateInterval && !due ==>
        State() == old(State()).(lastFixedUpdate := now)
      ensures due ==> State() == old(State()).(
        lastFixedUpdate := now, currMTBF := decayedMTBF,
        age := if AgeOnlyWhenActive then old(Age) + (now - old(lastFixedUpdate)) else now - timerStart)
      ensures old(AgeFromTimer()) ==> AgeFromTimer()
      ensures old(AgeFromTimer()) && now >= old(lastFixedUpdate) ==> Age >= old(Age)
    {
      due := false;
      if !(now - lastFixedUpdate > UpdateInterval) {
        return;
      }
      if AgeOnlyWhenActive && !partActive {
        lastFixedUpdate := now;
        return;
      }
      if AgeOnlyWhenActive {
        Age := Age + (now - lastFixedUpdate);
      } else {
        Age := now - timerStart;
      }
      lastFixedUpdate := now;
      currMTBF := decayedMTBF;
      due := true;
    }

    /** Fail's own part: the module is marked failed and the events switch to repair. */
    method MarkFailed()
      modifies this
      ensures State() == old(State()).(hasFailed := true, failActive := false, evaRepairActive := true)
    {
      hasFailed := true;
      failActive := false;
      evaRepairActive := true;
    }

    /**
     * EvaRepair's own part, with `eva` what FindEVA returned. Without an EVA nothing changes
     * (a Debug build says so on screen); a kerbal with fewer than RepairCost spares is told
     * how many are needed; otherwise the module is repaired, the events switch back and
     * RepairCost spares are taken from the kerbal. The result says whether DI_EvaRepair
     * follows; `posted` is the message put on screen.
     */
    method Repair(eva: Part?, repairMessage: string) returns (repaired: bool, posted: Option<string>)
      modifies this, eva
      ensures eva == null ==>
        !repaired && unchanged(this) && posted == (if build == LegacyStatic.Debug then Some(NoEvaMessage) else None)
      ensures eva != null ==> (repaired <==> CanRepair(old(eva.resources), RepairCost))
      ensures eva != null && !repaired ==> unchanged(this) && unchanged(eva) && posted == Some(NeedSparesMessage(RepairCost))
      ensures repaired ==>
        State() == old(State()).(hasFailed := false, failActive := LegacyStatic.EnableGuiFailure(build), evaRepairActive := false)
        && eva.resources == SpendSpares(old(eva.resources), RepairCost)
        && posted == Some(repairMessage)
    {
      repaired := false;
      if eva == null {
        posted := if build == LegacyStatic.Debug then Some(NoEvaMessage) else None;
        return;
      }
      if eva.Contains(SparesName) && eva.resources[IndexOf(eva.resources, SparesName)].amount >= RepairCost {
        hasFailed := false;
        failActive := LegacyStatic.EnableGuiFailure(build);
        evaRepairActive := false;
        posted := LegacyStatic.Broadcast(repairMessage);
        var i := IndexOf(eva.resources, SparesName);
        eva.resources := eva.resources[i := eva.resources[i].(amount := eva.resources[i].amount - RepairCost)];
        repaired := true;
      } else {
        posted := LegacyStatic.Broadcast(NeedSparesMessage(RepairCost));
      }
    }
  }
}
