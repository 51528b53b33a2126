/**
 * ModuleTankReliability (Tanks.cs): a tank that, once failed, leaks one of its resources.
 * On every start the module lists the part's resources that are not blacklisted; a
 * failure picks one of them at random, stops its flow and drains a random fraction of it
 * at every update; the EVA repair gives it its flow mode back. The part ages only while
 * active, and PartIsActive keeps the base's answer, true.
 */
module TankReliability {
  import opened Wrappers
  import opened Resources
  import opened BaseFailures
  import LegacyStatic
  import Convert

  const RepairMessage := "Duct tape applied."

  /** The names DI_OnStart adds to the blacklist, in order. */
  const StartBlackList: seq<string> := ["ElectricCharge", "SolidFuel", "SpareParts"]

  predicate NoDuplicates(names: seq<string>)
  {
    forall i, j :: 0 <= i < j < |names| ==> names[i] != names[j]
  }

  /** A list Add guarded by Contains: the name is present afterwards, and only appended if it was not. */
  function AddIfAbsent(names: seq<string>, name: string): (r: seq<string>)
    ensures forall x :: x in r <==> x in names || x == name
    ensures |names| <= |r| <= |names| + 1 && r[..|names|] == names
    ensures NoDuplicates(names) ==> NoDuplicates(r)
  {
    if name in names then names else names + [name]
  }

  /** DI_OnStart's three additions to the blacklist. */
  function ExtendBlackList(names: seq<string>): (r: seq<string>)
    ensures forall x :: x in r <==> x in names || x in StartBlackList
    ensures |names| <= |r| && r[..|names|] == names
    ensures NoDuplicates(names) ==> NoDuplicates(r)
  {
    var r1 := AddIfAbsent(names, "ElectricCharge");
    var r2 := AddIfAbsent(r1, "SolidFuel");
    var r3 := AddIfAbsent(r2, "SpareParts");
    assert r3[..|names|] == r2[..|r1|][..|names|];
    r3
  }

  /** The first start's blacklist is exactly the three standard names. */
  lemma FirstBlackList()
    ensures ExtendBlackList([]) == StartBlackList
  {
  }

  /** Starting again adds nothing: the blacklist does not grow over repeated starts. */
  lemma ExtendBlackListIdempotent(names: seq<string>)
    ensures ExtendBlackList(ExtendBlackList(names)) == ExtendBlackList(names)
  {
    var r := ExtendBlackList(names);
    assert "ElectricCharge" in r && "SolidFuel" in r && "SpareParts" in r by {
      assert forall x :: x in StartBlackList ==> x in r;
      assert StartBlackList[0] == "ElectricCharge" && StartBlackList[1] == "SolidFuel" && StartBlackList[2] == "SpareParts";
    }
  }

  /**
   * The leakable resources: the positions, in part order, of the resources whose name is
   * not blacklisted.
   */
  function Leakables(rs: seq<Resource>, blackList: seq<string>): (r: seq<nat>)
    ensures forall k :: 0 <= k < |r| ==> r[k] < |rs| && rs[r[k]].resourceName !in blackList
    ensures forall j :: 0 <= j < |rs| && rs[j].resourceName !in blackList ==> j in r
    ensures forall k, l :: 0 <= k < l < |r| ==> r[k] < r[l]
    decreases |rs|
  {
    if rs == [] then []
    else
      var last := |rs| - 1;
      var front := Leakables(rs[..last], blackList);
      assert forall j :: 0 <= j < last ==> rs[..last][j] == rs[j];
      front + (if rs[last].resourceName in blackList then [] else [last])
  }

  /** DI_Fail on the leaking resource: its flow is stopped. */
  function StopFlow(rs: seq<Resource>, k: nat): (r: seq<Resource>)
    requires k < |rs|
    ensures |r| == |rs| && r[k].flowMode == NoFlow
    ensures r[k] == rs[k].(flowMode := NoFlow)
    ensures forall j :: 0 <= j < |rs| && j != k ==> r[j] == rs[j]
  {
    rs[k := rs[k].(flowMode := NoFlow)]
  }

  /** DI_EvaRepair on the leaking resource: the saved flow mode is put back. */
  function SetFlow(rs: seq<Resource>, k: nat, mode: FlowMode): (r: seq<Resource>)
    requires k < |rs|
    ensures |r| == |rs| && r[k] == rs[k].(flowMode := mode)
    ensures forall j :: 0 <= j < |rs| && j != k ==> r[j] == rs[j]
  {
    rs[k := rs[k].(flowMode := mode)]
  }

  /** A repair with the flow mode saved at the failure undoes the failure. */
  lemma {:induction false} RepairUndoesStop(rs: seq<Resource>, k: nat)
    requires k < |rs|
    ensures SetFlow(StopFlow(rs, k), k, rs[k].flowMode) == rs
  {
    var r := SetFlow(StopFlow(rs, k), k, rs[k].flowMode);
    assert r[k] == rs[k];
    assert forall j :: 0 <= j < |rs| ==> r[j] == rs[j];
  }

  /**
   * DI_Update on the leaking resource: a fraction of it is lost. A fraction between 0 and 1
   * never raises the amount nor takes it below zero.
   */
  function Drain(rs: seq<Resource>, k: nat, fraction: real): (r: seq<Resource>)
    requires k < |rs|
    ensures |r| == |rs| && r[k].resourceName == rs[k].resourceName && r[k].flowMode == rs[k].flowMode
    ensures forall j :: 0 <= j < |rs| && j != k ==> r[j] == rs[j]
    ensures 0.0 <= fraction <= 1.0 && InRange(rs[k]) ==> InRange(r[k]) && r[k].amount <= rs[k].amount
  {
    var amount := rs[k].amount * (1.0 - fraction);
    assert 0.0 <= fraction <= 1.0 && rs[k].amount >= 0.0 ==> amount <= rs[k].amount;
    rs[k := rs[k].(amount := amount)]
  }

  function LeakMessage(resourceName: string): string
  {
    "A tank of " + resourceName + "is leaking!"
  }

  /**
   * Fail's broadcast as written: the base class reads FailureMessage before DI_Fail draws
   * the new leak, so the message names the resource at the previous leakIndex (and the
   * lookup throws when that index is not in the list, which disables the module before
   * any leak is drawn).
   */
  function AsWrittenFailMessage(rs: seq<Resource>, leakables: seq<nat>, previousIndex: int): (posted: Option<string>)
    ensures posted.Some? <==> 0 <= previousIndex < |leakables| && leakables[previousIndex] < |rs|
    ensures posted.Some? ==> posted == Some(LeakMessage(rs[leakables[previousIndex]].resourceName))
  {
    if 0 <= previousIndex < |leakables| && leakables[previousIndex] < |rs| then
      Some(LeakMessage(rs[leakables[previousIndex]].resourceName))
    else None
  }

  /**
   * A tank of liquid fuel and oxidizer that fails for the first time (leakIndex 0) and
   * draws the oxidizer: the message blames the liquid fuel.
   */
  lemma AsWrittenMessageBlamesOtherTank()
    ensures var rs := [Resource("LiquidFuel", 90.0, 90.0, Both), Resource("Oxidizer", 110.0, 110.0, Both)];
      var leakables := Leakables(rs, StartBlackList);
      var drawn := Pick(1, |leakables|);
      && leakables == [0, 1] && drawn == 1
      && rs[leakables[drawn]].resourceName == "Oxidizer"
      && AsWrittenFailMessage(rs, leakables, 0) == Some(LeakMessage("LiquidFuel"))
  {
    var rs := [Resource("LiquidFuel", 90.0, 90.0, Both), Resource("Oxidizer", 110.0, 110.0, Both)];
    var bl := StartBlackList;
    assert rs[..1] == [rs[0]];
    assert [rs[0]][..0] == [];
    assert Leakables(rs[..1][..0], bl) == [];
    assert Leakables(rs[..1], bl) == [0];
    assert Leakables(rs, bl) == [0, 1];
  }

  class ModuleTankReliability {
    const base: ModuleBaseFailure
    const part: Part
    /** The cfg range of the decay fraction. */
    const MinSeverity: real
    const MaxSeverity: real

    var DecayFraction: real
    var leakIndex: int
    var oldFlowMode: FlowMode
    /** null until the first DI_OnStart outside the editor. */
    var leakables: Option<seq<nat>>
    var blackList: seq<string>

    /** The tank ages only while active, and its leak list points into the part's resources. */
    predicate Valid()
      reads this, base, part
    {
      base.AgeOnlyWhenActive
      && (leakables.Some? ==> forall k :: 0 <= k < |leakables.value| ==> leakables.value[k] < |part.resources|)
    }

    /** leakables[leakIndex] exists. */
    predicate HasLeak()
      reads this, base, part
    {
      Valid() && leakables.Some? && 0 <= leakIndex < |leakables.value|
    }

    /** The position in the part of the leaking resource. */
    function Leak(): (k: nat)
      requires HasLeak()
      reads this, base, part
      ensures k < |part.resources|
    {
      leakables.value[leakIndex]
    }

    /** The module as loaded from the cfg on `part`. */
    constructor(part: Part, MTBF: real, LifeTime: real, RepairCost: real, UpdateInterval: real, build: LegacyStatic.Build)
      ensures this.part == part && fresh(base) && Valid()
      ensures base.MTBF == MTBF && base.LifeTime == LifeTime && base.RepairCost == RepairCost
      ensures base.UpdateInterval == UpdateInterval && base.build == build
      ensures base.enabled && base.needsInit && !base.hasFailed
      ensures DecayFraction == 0.005 && MinSeverity == 0.0001 && MaxSeverity == 0.001
      ensures leakIndex == 0 && oldFlowMode == NoFlow && leakables == None && blackList == []
    {
      this.part := part;
      base := new ModuleBaseFailure(MTBF, LifeTime, RepairCost, UpdateInterval, true, build);
      MinSeverity := 0.0001;
      MaxSeverity := 0.001;
      DecayFraction := 0.005;
      leakIndex := 0;
      oldFlowMode := NoFlow;
      leakables := None;
      blackList := [];
    }

    /**
     * DI_OnStart: outside the editor the blacklist gains the three standard names and the
     * leakables are listed again; without any the module disables itself.
     */
    method DI_OnStart(state: StartState)
      requires Valid()
      modifies this`blackList, this`leakables, base`enabled
      ensures Valid()
      ensures !HooksRun(state) ==> unchanged(this) && base.enabled == old(base.enabled)
      ensures HooksRun(state) ==>
        && blackList == ExtendBlackList(old(blackList))
        && leakables == Some(Leakables(part.resources, blackList))
        && base.enabled == (old(base.enabled) && |leakables.value| >= 1)
    {
      if !HooksRun(state) {
        return;
      }
      blackList := ExtendBlackList(blackList);
      var found := Leakables(part.resources, blackList);
      leakables := Some(found);
      if |found| < 1 {
        base.enabled := false;
      }
    }

    /**
     * DI_Fail: a random severity and a random leakable; that resource's flow mode is saved
     * and its flow stopped. Without a leak list (null, or empty so that the drawn index 0 is
     * out of range) it throws, and `ok` is false.
     */
    method DI_Fail(severity: real, roll: nat) returns (ok: bool)
      requires Valid()
      modifies this`DecayFraction, this`leakIndex, this`oldFlowMode, part
      ensures Valid()
      ensures DecayFraction == severity
      ensures ok <==> old(leakables).Some? && |old(leakables).value| > 0
      ensures ok ==>
        && leakIndex == Pick(roll, |leakables.value|) && HasLeak()
        && oldFlowMode == old(part.resources)[Leak()].flowMode
        && part.resources == StopFlow(old(part.resources), Leak())
      ensures !ok ==>
        unchanged(part) && oldFlowMode == old(oldFlowMode) && leakIndex == (if leakables.Some? then 0 else old(leakIndex))
    {
      DecayFraction := severity;
      if leakables.None? {
        return false;
      }
      leakIndex := Pick(roll, |leakables.value|);
      if |leakables.value| == 0 {
        return false;
      }
      var k := leakables.value[leakIndex];
      oldFlowMode := part.resources[k].flowMode;
      part.resources := StopFlow(part.resources, k);
      ok := true;
    }

    /**
     * DI_Update: a failed tank loses DecayFraction of its leaking resource; a working one
     * is left alone. A leak that cannot be found throws, and `ok` is false.
     */
    method DI_Update() returns (ok: bool)
      requires Valid()
      modifies part
      ensures Valid()
      ensures !base.hasFailed ==> ok && unchanged(part)
      ensures base.hasFailed ==> (ok <==> old(HasLeak()))
      ensures base.hasFailed && ok ==> part.resources == Drain(old(part.resources), Leak(), DecayFraction)
      ensures !ok ==> unchanged(part)
    {
      ok := true;
      if base.hasFailed {
        if !HasLeak() {
          return false;
        }
        part.resources := Drain(part.resources, Leak(), DecayFraction);
      }
    }

    /** DI_EvaRepair: the leaking resource gets its saved flow mode back, or it throws. */
    method DI_EvaRepair() returns (ok: bool)
      requires Valid()
      modifies part
      ensures Valid()
      ensures ok <==> old(HasLeak())
      ensures ok ==> part.resources == SetFlow(old(part.resources), Leak(), oldFlowMode)
      ensures !ok ==> unchanged(part)
    {
      if !HasLeak() {
        return false;
      }
      part.resources := SetFlow(part.resources, Leak(), oldFlowMode);
      ok := true;
    }

    /**
     * The FailureMessage property: the leak announced for leakables[leakIndex], or None
     * where the getter throws (no leak list, or an index outside it).
     */
    function FailureMessage(): (message: Option<string>)
      requires Valid()
      reads this, base, part
      ensures message.Some? <==> HasLeak()
      ensures message.Some? ==> message == Some(LeakMessage(part.resources[Leak()].resourceName))
    {
      if leakables.Some? then AsWrittenFailMessage(part.resources, leakables.value, leakIndex) else None
    }

    /**
     * Fail as written: a disabled module does nothing. Otherwise the module is marked
     * failed and FailureMessage is broadcast before DI_Fail draws the leak, so it names the
     * previous leak. When that message throws, the module is disabled before DI_Fail runs:
     * nothing leaks and the severity is kept.
     */
    method Fail(severity: real, roll: nat) returns (posted: Option<string>)
      requires Valid()
      modifies this`DecayFraction, this`leakIndex, this`oldFlowMode, base, part
      ensures Valid()
      ensures posted == (if old(base.enabled) then old(FailureMessage()) else None)
      ensures !old(base.enabled) ==> unchanged(this) && unchanged(base) && unchanged(part)
      ensures old(base.enabled) ==>
        base.State() == old(base.State()).(hasFailed := true, failActive := false, evaRepairActive := true, enabled := base.enabled)
      ensures old(base.enabled) && old(HasLeak()) ==>
        && base.enabled && DecayFraction == severity && HasLeak()
        && leakIndex == Pick(roll, |leakables.value|)
        && oldFlowMode == old(part.resources)[Leak()].flowMode
        && part.resources == StopFlow(old(part.resources), Leak())
      ensures old(base.enabled) && !old(HasLeak()) ==>
        && !base.enabled && unchanged(part)
        && DecayFraction == old(DecayFraction) && leakIndex == old(leakIndex) && oldFlowMode == old(oldFlowMode)
    {
      posted := None;
      if !base.enabled {
        return;
      }
      base.MarkFailed();
      var message := FailureMessage();
      if message.None? {
        base.enabled := false;
        return;
      }
      posted := LegacyStatic.Broadcast(message.value);
      var ok := DI_Fail(severity, roll);
      assert ok;
    }

    /**
     * Fail corrected: the message is read once the leak is drawn, so that it names the
     * leaking resource. A disabled module does nothing. Otherwise it is marked failed; when DI_Fail
     * throws the module is disabled and nothing is posted.
     */
    method FailAnnouncingLeak(severity: real, roll: nat) returns (posted: Option<string>)
      requires Valid()
      modifies this`DecayFraction, this`leakIndex, this`oldFlowMode, base, part
      ensures Valid()
      ensures !old(base.enabled) ==> unchanged(this) && unchanged(base) && unchanged(part) && posted == None
      ensures old(base.enabled) ==>
        base.State() == old(base.State()).(hasFailed := true, failActive := false, evaRepairActive := true, enabled := base.enabled)
      ensures old(base.enabled) && old(leakables).Some? && |old(leakables).value| > 0 ==>
        && base.enabled && DecayFraction == severity && HasLeak()
        && leakIndex == Pick(roll, |leakables.value|)
        && oldFlowMode == old(part.resources)[Leak()].flowMode
        && part.resources == StopFlow(old(part.resources), Leak())
        && posted == Some(LeakMessage(part.resources[Leak()].resourceName))
        && part.resources[Leak()].flowMode == NoFlow
      ensures old(base.enabled) && !(old(leakables).Some? && |old(leakables).value| > 0) ==>
        !base.enabled && unchanged(part) && posted == None
    {
      posted := None;
      if !base.enabled {
        return;
      }
      base.MarkFailed();
      var ok := DI_Fail(severity, roll);
      if !ok {
        base.enabled := false;
        return;
      }
      posted := LegacyStatic.Broadcast(LeakMessage(part.resources[Leak()].resourceName));
    }

    /**
     * OnStart: a disabled module does nothing. Otherwise DI_OnStart lists the leakables,
     * the base initialises the module in flight, and outside flight and the editor a tank
     * saved as failed (and still enabled) fails again.
     */
    method OnStart(state: StartState, inFlight: bool, now: real, severity: real, roll: nat)
      returns (posted: Option<string>)
      requires Valid()
      modifies this`blackList, this`leakables, this`DecayFraction, this`leakIndex, this`oldFlowMode, base, part
      ensures Valid()
      ensures !old(base.enabled) ==> unchanged(this) && unchanged(base) && unchanged(part) && posted == None
      ensures old(base.enabled) && HooksRun(state) ==>
        && blackList == ExtendBlackList(old(blackList))
        && leakables == Some(Leakables(old(part.resources), blackList))
        && (|leakables.value| == 0 ==> !base.enabled && unchanged(part))
      ensures old(base.enabled) && inFlight ==> posted == None && unchanged(part)
      ensures old(base.enabled) && inFlight && (old(base.needsInit) || Convert.Finite(now).Below(old(base.timeInitted))) ==>
        base.NewLife(now)
      ensures old(base.enabled) && !inFlight && state != Editor && old(base.hasFailed) && base.enabled ==>
        base.hasFailed && !base.failActive && base.evaRepairActive
      ensures old(base.enabled) && !inFlight && !(state != Editor && old(base.hasFailed)) ==>
        unchanged(part) && posted == None && base.hasFailed == old(base.hasFailed)
    {
      posted := None;
      if !base.enabled {
        return;
      }
      DI_OnStart(state);
      var failAgain := base.Start(state, inFlight, now);
      if failAgain {
        assert !inFlight && state != Editor && old(base.hasFailed);
        posted := Fail(severity, roll);
        assert base.enabled ==> base.hasFailed && !base.failActive && base.evaRepairActive;
      } else {
        assert unchanged(part);
      }
    }

    /**
     * OnFixedUpdate at time `now` (see ModuleBaseFailure.Tick for `decayedMTBF`):
     * `failureRolled` says whether the dice came up below Lambda, `severity` and `roll` are
     * DI_Fail's draws. A disabled module, or an update not yet due, does nothing. Otherwise
     * the tank ages by the time since the last update, a working tank fails when the dice
     * say so, and a failed one leaks; a leak that cannot be found disables the module.
     */
    method OnFixedUpdate(now: real, decayedMTBF: real, failureRolled: bool, severity: real, roll: nat)
      returns (posted: Option<string>)
      requires Valid()
      modifies this`DecayFraction, this`leakIndex, this`oldFlowMode, base, part
      ensures Valid()
      ensures !old(base.enabled) || !(now - old(base.lastFixedUpdate) > base.UpdateInterval) ==>
        unchanged(this) && unchanged(base) && unchanged(part) && posted == None
      ensures old(base.enabled) && now - old(base.lastFixedUpdate) > base.UpdateInterval ==>
        && base.Age == old(base.Age) + (now - old(base.lastFixedUpdate))
        && base.lastFixedUpdate == now && base.currMTBF == decayedMTBF
        && base.hasFailed == (old(base.hasFailed) || failureRolled)
      ensures old(base.enabled) && now - old(base.lastFixedUpdate) > base.UpdateInterval && !old(base.hasFailed) && !failureRolled ==>
        unchanged(part) && posted == None && base.enabled
      ensures old(base.enabled) && now - old(base.lastFixedUpdate) > base.UpdateInterval && !old(base.hasFailed) && failureRolled ==>
        posted == old(FailureMessage())
      ensures old(base.enabled) && now - old(base.lastFixedUpdate) > base.UpdateInterval && old(base.hasFailed) ==>
        && posted == None
        && (old(HasLeak()) ==> base.enabled && part.resources == Drain(old(part.resources), old(Leak()), DecayFraction))
        && (!old(HasLeak()) ==> !base.enabled && unchanged(part))
    {
      posted := None;
      if !base.enabled {
        return;
      }
      var due := base.Tick(now, true, decayedMTBF);
      if !due {
        return;
      }
      if !base.hasFailed && failureRolled {
        posted := Fail(severity, roll);
      }
      var ok := DI_Update();
      if !ok {
        base.enabled := false;
      }
    }

    /**
     * EvaRepair with `eva` what FindEVA returned (a kerbal, never the tank itself). A
     * disabled module does nothing; the base repairs the module and takes the spares when
     * the kerbal carries enough, and then the leak's flow mode is restored; a leak that
     * cannot be found disables the module.
     */
    method EvaRepair(eva: Part?) returns (posted: Option<string>)
      requires Valid() && eva != part
      modifies base, part, eva
      ensures Valid()
      ensures !old(base.enabled) ==> unchanged(base) && unchanged(part) && (eva != null ==> unchanged(eva)) && posted == None
      ensures old(base.enabled) && (eva == null || !CanRepair(old(eva.resources), base.RepairCost)) ==>
        unchanged(base) && unchanged(part) && (eva != null ==> unchanged(eva))
      ensures old(base.enabled) && eva != null && CanRepair(old(eva.resources), base.RepairCost) ==>
        && !base.hasFailed && !base.evaRepairActive
        && eva.resources == SpendSpares(old(eva.resources), base.RepairCost)
        && posted == Some(RepairMessage)
        && (old(HasLeak()) ==> base.enabled && part.resources == SetFlow(old(part.resources), Leak(), oldFlowMode))
        && (!old(HasLeak()) ==> !base.enabled && unchanged(part))
    {
      posted := None;
      if !base.enabled {
        return;
      }
      var repaired;
      repaired, posted := base.Repair(eva, RepairMessage);
      if repaired {
        var ok := DI_EvaRepair();
        if !ok {
          base.enabled := false;
        }
      }
    }
  }
}
