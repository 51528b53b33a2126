/**
 * The oldest generation's FailureModule (FailureModule.cs): the aging of a part, its
 * failure state and the Fail/EvaRepair events, the seven persistent fields it saves and
 * loads, and the EVA repair gated on the spares the kerbal carries. The subclass hooks
 * (DI_Reset, DI_OnLoad, DI_OnStart, DI_Update, DI_Fail, DI_EvaRepair, DI_OnSave) are the
 * base class's empty ones; no subclass of this class is part of this model.
 */
module FailureModules {
  import opened Wrappers
  import opened ConfigNodes
  import opened Convert
  import opened Resources
  import opened SparesTransfer
  import LegacyStatic
  import Text

  /** The internal state the module saves and loads. */
  datatype Persisted = Persisted(
    hasInitted: bool,
    age: real,
    timeOfLastReset: Float,
    lastFixedUpdate: real,
    currentMTBF: Float,
    lifeTimeSecs: Float,
    hasFailed: bool)

  /** The field initialisers, which are also the defaults OnLoad falls back to. */
  /** What EvaRepair says on screen when FindEVA found no kerbal. */
  const NoEvaMessage := "DangIt ERROR: couldn't find an active EVA!"

  /** The refusal to a kerbal who carries fewer than `cost` spares. */
  function NeedSparesMessage(cost: real): string
  {
    "You need " + Text.RealText(cost) + " spares to repair this."
  }

  /** The note that the kerbal `evaName` spent `discount` spares less than the repair cost. */
  function SavedSparesMessage(evaName: string, discount: real): string
  {
    evaName + " was able to save " + Text.RealText(discount) + " spare parts"
  }

  const Initial := Persisted(false, 0.0, PositiveInfinity, 0.0, PositiveInfinity, PositiveInfinity, false)

  const StateKeys: seq<string> :=
    ["HasInitted", "Age", "TimeOfLastReset", "LastFixedUpdate", "CurrentMTBF", "LifeTimeSecs", "HasFailed"]

  /** OnLoad: each key parsed with its field's initialiser as the default. */
  function ReadState(node: Node): Persisted
  {
    Persisted(
      Parse(GetValue(node, "HasInitted"), false, ParseBool),
      Parse(GetValue(node, "Age"), 0.0, ParseReal),
      Parse(GetValue(node, "TimeOfLastReset"), PositiveInfinity, ParseFloat),
      Parse(GetValue(node, "LastFixedUpdate"), 0.0, ParseReal),
      Parse(GetValue(node, "CurrentMTBF"), PositiveInfinity, ParseFloat),
      Parse(GetValue(node, "LifeTimeSecs"), PositiveInfinity, ParseFloat),
      Parse(GetValue(node, "HasFailed"), false, ParseBool))
  }

  /** A node holding none of the seven keys loads as the field initialisers. */
  lemma MissingKeysGiveInitial(node: Node)
    requires forall k :: k in StateKeys ==> !HasValue(node, k)
    ensures ReadState(node) == Initial
  {
    assert "HasInitted" in StateKeys && "Age" in StateKeys && "TimeOfLastReset" in StateKeys;
    assert "LastFixedUpdate" in StateKeys && "CurrentMTBF" in StateKeys;
    assert "LifeTimeSecs" in StateKeys && "HasFailed" in StateKeys;
  }

  /** The texts OnSave writes, in key order: each field's ToString. */
  function Texts(s: Persisted): seq<string>
  {
    [BoolText(s.hasInitted), RealText(s.age), FloatText(s.timeOfLastReset), RealText(s.lastFixedUpdate),
     FloatText(s.currentMTBF), FloatText(s.lifeTimeSecs), BoolText(s.hasFailed)]
  }

  /** OnSave: the seven keys set in turn; the node's other keys and children are left alone. */
  function WriteState(node: Node, s: Persisted): (r: Node)
    ensures r.name == node.name && r.nodes == node.nodes
  {
    SetValues(node, Zip(StateKeys, Texts(s)))
  }

  /** OnSave touches no key but its seven. */
  lemma WriteStateKeepsOther(node: Node, s: Persisted, k: string)
    requires k !in StateKeys
    ensures GetValues(WriteState(node, s), k) == GetValues(node, k)
  {
    SetValuesKeepsOther(node, Zip(StateKeys, Texts(s)), k);
  }

  lemma StateKeysDistinct()
    ensures forall i, j :: 0 <= i < j < |StateKeys| ==> StateKeys[i] != StateKeys[j]
  {
  }

  /** After OnSave each of the seven keys reads as its field's text, whatever the node held. */
  lemma ReadsBack(node: Node, s: Persisted, i: int)
    requires 0 <= i < |StateKeys|
    ensures GetValue(WriteState(node, s), StateKeys[i]) == Some(Texts(s)[i])
  {
    var es := Zip(StateKeys, Texts(s));
    StateKeysDistinct();
    assert UniqueKeys(es);
    SetValuesReadBack(node, es, i);
  }

  /** A float field whose text reads back exactly: +inf or a whole number. */
  predicate WholeFloat(f: Float)
  {
    f.PositiveInfinity? || f.value == f.value.Floor as real
  }

  /** Every float of the state reads back exactly from its text. */
  predicate Whole(s: Persisted)
  {
    s.age == s.age.Floor as real && s.lastFixedUpdate == s.lastFixedUpdate.Floor as real
    && WholeFloat(s.timeOfLastReset) && WholeFloat(s.currentMTBF) && WholeFloat(s.lifeTimeSecs)
  }

  lemma ParseWrittenWholeFloatField(f: Float, defaultTo: Float)
    requires WholeFloat(f)
    ensures Parse(Some(FloatText(f)), defaultTo, ParseFloat) == f
  {
    if f.PositiveInfinity? {
      ParseWrittenInfinity(defaultTo);
    } else {
      ParseWrittenWholeFloat(f.value.Floor, defaultTo);
    }
  }

  /**
   * Any node whose seven keys hold the texts OnSave writes for `s` loads both flags
   * back whatever the floats are, and the whole state when its floats are whole numbers
   * or +inf.
   */
  lemma ReadTexts(n: Node, s: Persisted)
    requires forall i :: 0 <= i < |StateKeys| ==> GetValue(n, StateKeys[i]) == Some(Texts(s)[i])
    ensures ReadState(n).hasInitted == s.hasInitted && ReadState(n).hasFailed == s.hasFailed
    ensures Whole(s) ==> ReadState(n) == s
  {
    var k, t := StateKeys, Texts(s);
    assert GetValue(n, k[0]) == Some(t[0]) && GetValue(n, k[1]) == Some(t[1]) && GetValue(n, k[2]) == Some(t[2]);
    assert GetValue(n, k[3]) == Some(t[3]) && GetValue(n, k[4]) == Some(t[4]) && GetValue(n, k[5]) == Some(t[5]);
    assert GetValue(n, k[6]) == Some(t[6]);
    ParseWrittenBool(s.hasInitted, false);
    ParseWrittenBool(s.hasFailed, false);
    if Whole(s) {
      ParseWrittenWholeReal(s.age.Floor, 0.0);
      ParseWrittenWholeReal(s.lastFixedUpdate.Floor, 0.0);
      ParseWrittenWholeFloatField(s.timeOfLastReset, PositiveInfinity);
      ParseWrittenWholeFloatField(s.currentMTBF, PositiveInfinity);
      ParseWrittenWholeFloatField(s.lifeTimeSecs, PositiveInfinity);
    }
  }

  /**
   * Loading what OnSave wrote gives both flags back whatever the floats are, and the
   * whole state back when its floats are whole numbers or +inf.
   */
  lemma SaveLoadRoundTrip(node: Node, s: Persisted)
    ensures ReadState(WriteState(node, s)).hasInitted == s.hasInitted
    ensures ReadState(WriteState(node, s)).hasFailed == s.hasFailed
    ensures Whole(s) ==> ReadState(WriteState(node, s)) == s
  {
    forall i | 0 <= i < |StateKeys|
      ensures GetValue(WriteState(node, s), StateKeys[i]) == Some(Texts(s)[i])
    {
      ReadsBack(node, s, i);
    }
    ReadTexts(WriteState(node, s), s);
  }

  /** A FailureModule on a part. */
  class FailureModule {
    /** The cfg fields. */
    const MTBF: real
    const LifeTime: real
    const RepairCost: real
    const Silent: bool
    /** The build, which decides DangIt.EnableGuiFailure. */
    const build: LegacyStatic.Build

    var HasInitted: bool
    var TimeOfLastReset: Float
    var Age: real
    var LastFixedUpdate: real
    var CurrentMTBF: Float
    var LifeTimeSecs: Float
    var HasFailed: bool

    /** Events["Fail"].active and Events["EvaRepair"].active. */
    var failActive: bool
    var evaRepairActive: bool

    function State(): Persisted
      reads this
    {
      Persisted(HasInitted, Age, TimeOfLastReset, LastFixedUpdate, CurrentMTBF, LifeTimeSecs, HasFailed)
    }

    /** The EvaRepair event is shown exactly while the module has failed. */
    predicate EventsMatch()
      reads this
    {
      evaRepairActive == HasFailed
    }

    /** The module as loaded from the cfg: the field initialisers, both events active (the KSPEvent default). */
    constructor(MTBF: real, LifeTime: real, RepairCost: real, Silent: bool, build: LegacyStatic.Build)
      ensures this.MTBF == MTBF && this.LifeTime == LifeTime && this.RepairCost == RepairCost
      ensures this.Silent == Silent && this.build == build
      ensures State() == Initial && failActive && evaRepairActive
    {
      this.MTBF := MTBF;
      this.LifeTime := LifeTime;
      this.RepairCost := RepairCost;
      this.Silent := Silent;
      this.build := build;
      HasInitted := false;
      TimeOfLastReset := PositiveInfinity;
      Age := 0.0;
      LastFixedUpdate := 0.0;
      CurrentMTBF := PositiveInfinity;
      LifeTimeSecs := PositiveInfinity;
      HasFailed := false;
      failActive := true;
      evaRepairActive := true;
    }

    /**
     * Reset at time `now`: a new, unfailed part whose life starts now; the next reset is
     * due only before now + 1 s. The EvaRepair event is hidden.
     */
    method Reset(now: real)
      modifies this
      ensures State() == Persisted(true, 0.0, Finite(now + 1.0), now, Finite(MTBF), Finite(LifeTime * 3600.0), false)
      ensures evaRepairActive == false && failActive == old(failActive)
      ensures EventsMatch()
    {
      Age := 0.0;
      TimeOfLastReset := Finite(now + 1.0);
      LastFixedUpdate := now;
      CurrentMTBF := Finite(MTBF);
      LifeTimeSecs := Finite(LifeTime * 3600.0);
      HasFailed := false;
      evaRepairActive := false;
      HasInitted := true;
    }

    /** OnLoad: the seven fields from the node; the events are left alone. */
    method OnLoad(node: Node)
      modifies this
      ensures State() == ReadState(node)
      ensures failActive == old(failActive) && evaRepairActive == old(evaRepairActive)
    {
      HasInitted := Parse(GetValue(node, "HasInitted"), false, ParseBool);
      Age := Parse(GetValue(node, "Age"), 0.0, ParseReal);
      TimeOfLastReset := Parse(GetValue(node, "TimeOfLastReset"), PositiveInfinity, ParseFloat);
      LastFixedUpdate := Parse(GetValue(node, "LastFixedUpdate"), 0.0, ParseReal);
      CurrentMTBF := Parse(GetValue(node, "CurrentMTBF"), PositiveInfinity, ParseFloat);
      LifeTimeSecs := Parse(GetValue(node, "LifeTimeSecs"), PositiveInfinity, ParseFloat);
      HasFailed := Parse(GetValue(node, "HasFailed"), false, ParseBool);
    }

    /**
     * OnSave: the node with the seven fields written into it; the flags read back as they
     * are, and the module does not change.
     */
    method OnSave(node: Node) returns (r: Node)
      ensures r.name == node.name && r.nodes == node.nodes
      ensures forall k :: k !in StateKeys ==> GetValues(r, k) == GetValues(node, k)
      ensures ReadState(r).hasInitted == HasInitted && ReadState(r).hasFailed == HasFailed
    {
      r := WriteState(node, State());
      forall k | k !in StateKeys
        ensures GetValues(r, k) == GetValues(node, k)
      {
        WriteStateKeepsOther(node, State(), k);
      }
      SaveLoadRoundTrip(node, State());
    }

    /**
     * SetFailureState: the failure flag becomes `state`; the Fail event is shown only
     * while the part works and the build shows it; EvaRepair only while it is failed.
     */
    method SetFailureState(state: bool)
      modifies this
      ensures State() == old(State()).(hasFailed := state)
      ensures failActive == (!state && LegacyStatic.EnableGuiFailure(build))
      ensures evaRepairActive == state
      ensures EventsMatch()
    {
      HasFailed := state;
      failActive := if state then false else LegacyStatic.EnableGuiFailure(build);
      evaRepairActive := state;
    }

    /**
     * Fail: the module is marked failed; FailureMessage is broadcast unless the module is
     * silent. Returns the posted message.
     */
    method Fail(failureMessage: string) returns (posted: Option<string>)
      modifies this
      ensures State() == old(State()).(hasFailed := true)
      ensures !failActive && evaRepairActive
      ensures posted == if Silent then None else Some(failureMessage)
    {
      SetFailureState(true);
      posted := None;
      if !Silent {
        posted := LegacyStatic.Broadcast(failureMessage);
      }
    }

    /**
     * OnStart. Outside flight nothing changes. In flight the module is reset when `now`
     * is before TimeOfLastReset (a new flight or a revert), then a failed module fails
     * again so that its effects and events are back.
     */
    method OnStart(inFlight: bool, now: real, failureMessage: string) returns (posted: Option<string>)
      modifies this
      ensures !inFlight ==> unchanged(this) && posted == None
      ensures inFlight && Finite(now).Below(old(TimeOfLastReset)) ==>
        State() == Persisted(true, 0.0, Finite(now + 1.0), now, Finite(MTBF), Finite(LifeTime * 3600.0), false)
        && !evaRepairActive && failActive == old(failActive) && posted == None
      ensures inFlight && !Finite(now).Below(old(TimeOfLastReset)) ==>
        State() == old(State())
        && (old(HasFailed) ==> !failActive && evaRepairActive)
        && (!old(HasFailed) ==> failActive == old(failActive) && evaRepairActive == old(evaRepairActive) && posted == None)
      ensures inFlight ==> (old(EventsMatch()) || Finite(now).Below(old(TimeOfLastReset)) || old(HasFailed) ==> EventsMatch())
    {
      posted := None;
      if inFlight {
        if Finite(now).Below(TimeOfLastReset) {
          Reset(now);
        }
        if HasFailed {
          posted := Fail(failureMessage);
        }
      }
    }

    /**
     * FixedUpdate at time `now`. `partActive` is PartIsActive(), `decayedMTBF` the decayed
     * MTBF the exponential gives for the new age, and `failureRolled` whether the dice
     * came up below Lambda. Before the first reset nothing changes; an inactive part only
     * moves LastFixedUpdate; an active one ages by the time since the last update and, if
     * it has not failed yet, fails when the dice say so.
     */
    method FixedUpdate(now: real, partActive: bool, decayedMTBF: real, failureRolled: bool, failureMessage: string)
      returns (posted: Option<string>)
      modifies this
      ensures !old(HasInitted) ==> unchanged(this) && posted == None
      ensures old(HasInitted) && !partActive ==>
        State() == old(State()).(lastFixedUpdate := now)
        && failActive == old(failActive) && evaRepairActive == old(evaRepairActive) && posted == None
      ensures old(HasInitted) && partActive ==>
        State() == old(State()).(age := old(Age) + (now - old(LastFixedUpdate)), lastFixedUpdate := now,
                                 currentMTBF := Finite(decayedMTBF), hasFailed := old(HasFailed) || failureRolled)
        && (!old(HasFailed) && failureRolled ==> !failActive && evaRepairActive)
        && (old(HasFailed) || !failureRolled ==> failActive == old(failActive) && evaRepairActive == old(evaRepairActive))
      ensures now >= old(LastFixedUpdate) ==> Age >= old(Age)
      ensures old(EventsMatch()) ==> EventsMatch()
    {
      posted := None;
      if HasInitted {
        if !partActive {
          LastFixedUpdate := now;
          return;
        }
        Age := Age + (now - LastFixedUpdate);
        CurrentMTBF := Finite(decayedMTBF);
        if !HasFailed {
          if failureRolled {
            posted := Fail(failureMessage);
          }
        }
        LastFixedUpdate := now;
      }
    }

    /**
     * EvaRepair. `eva` is what FindEVA returned, `evaName` its part name, `discountedCost`
     * the rounded, randomly discounted cost and `repairMessage` the subclass's
     * RepairMessage. Without an EVA, or when it carries fewer than RepairCost spares,
     * nothing changes and the kerbal is told why. Otherwise the module is repaired, the
     * discounted cost is requested from the EVA's spares, and the repair message is shown,
     * followed by the saving when the discount is positive.
     */
    method EvaRepair(eva: Part?, evaName: string, discountedCost: real, repairMessage: string) returns (posted: seq<string>)
      modifies this, eva
      ensures eva == null ==> unchanged(this) && posted == [NoEvaMessage]
      ensures eva != null && !(HasSpares(old(eva.resources)) && Spares(old(eva.resources)).amount >= RepairCost) ==>
        unchanged(this) && unchanged(eva) && posted == [NeedSparesMessage(RepairCost)]
      ensures eva != null && HasSpares(old(eva.resources)) && Spares(old(eva.resources)).amount >= RepairCost ==>
        var i := IndexOf(old(eva.resources), SparesName);
        && State() == old(State()).(hasFailed := false)
        && failActive == LegacyStatic.EnableGuiFailure(build) && !evaRepairActive
        && eva.resources == old(eva.resources)[i := old(eva.resources)[i].(amount := old(eva.resources)[i].amount - Taken(old(eva.resources)[i], discountedCost))]
        && posted == [repairMessage] + (if RepairCost - discountedCost > 0.0 then [SavedSparesMessage(evaName, RepairCost - discountedCost)] else [])
    {
      if eva == null {
        return [NoEvaMessage];
      }
      if eva.Contains(SparesName) && eva.resources[IndexOf(eva.resources, SparesName)].amount >= RepairCost {
        SetFailureState(false);
        var discount := RepairCost - discountedCost;
        var _ := eva.RequestResource(SparesName, discountedCost);
        posted := [repairMessage];
        if discount > 0.0 {
          posted := posted + [SavedSparesMessage(evaName, discount)];
        }
      } else {
        posted := [NeedSparesMessage(RepairCost)];
      }
    }
  }
}
