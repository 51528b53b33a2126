/**
 * The static helpers of the newest runtime (ippo.DangIt in DangIt/Runtime/Static.cs):
 * priority names, the flight log, message gating, the EVA search and the glow reset.
 */
module RuntimeStatic {
  import opened Wrappers
  import Text
  import opened PartTrees
  import opened Vessels
  import opened FlightLogs

  /** The priority names, in the order that gives LOW = 1. */
  const PriorityKeys: seq<string> := ["LOW", "MEDIUM", "HIGH"]

  /** List.IndexOf: the first index holding `s`, or -1. */
  function IndexOf(keys: seq<string>, s: string): (i: int)
    ensures -1 <= i < |keys|
    ensures i >= 0 ==> keys[i] == s && forall j :: 0 <= j < i ==> keys[j] != s
    ensures i < 0 <==> s !in keys
  {
    if keys == [] then -1
    else if keys[0] == s then 0
    else
      var k := IndexOf(keys[1..], s);
      if k < 0 then -1 else k + 1
  }

  /** PriorityIntFromString: the upper-cased name's position among LOW, MEDIUM, HIGH plus one, 0 if absent. */
  function PriorityIntFromString(modeString: string): (r: int)
    ensures 0 <= r <= 3
    ensures r == 0 <==> Text.ToUpper(modeString) !in PriorityKeys
    ensures r > 0 ==> PriorityKeys[r - 1] == Text.ToUpper(modeString)
  {
    IndexOf(PriorityKeys, Text.ToUpper(modeString)) + 1
  }

  /** The three names in any letter case map to 1, 2 and 3. */
  lemma PriorityNames()
    ensures PriorityIntFromString("LOW") == 1 && PriorityIntFromString("low") == 1
    ensures PriorityIntFromString("MEDIUM") == 2 && PriorityIntFromString("Medium") == 2
    ensures PriorityIntFromString("HIGH") == 3 && PriorityIntFromString("high") == 3
    ensures PriorityIntFromString("") == 0
  {
    assert Text.ToUpper("low") == "LOW";
    assert Text.ToUpper("Medium") == "MEDIUM";
    assert Text.ToUpper("high") == "HIGH";
  }

  /**
   * The MET stamp FlightLog writes before the message: "[", "yy:" when there are years,
   * "dd:" when there are days, "hh:mm:ss" and the closing text, each field as ToString("00").
   */
  function Stamp(met: MissionTime, closing: string): (r: string)
    ensures met.years < 100 && met.days < 100 && met.hours < 100 && met.mins < 100 && met.secs < 100 ==>
      |r| == 9 + |closing| + (if met.years > 0 then 3 else 0) + (if met.days > 0 then 3 else 0)
  {
    "[" + OptionalField(met.years) + OptionalField(met.days) + Clock(met) + closing
  }

  /** "nn:" for a non-zero years or days field, nothing for zero. */
  function OptionalField(n: nat): string
  {
    if n > 0 then Text.Pad2(n) + ":" else ""
  }

  /** "hh:mm:ss". */
  function Clock(met: MissionTime): string
  {
    Text.Pad2(met.hours) + ":" + Text.Pad2(met.mins) + ":" + Text.Pad2(met.secs)
  }

  /** Within the first day the stamp reads back as hours, minutes and seconds at fixed places. */
  lemma StampReadsBack(met: MissionTime, closing: string)
    requires met.years == 0 && met.days == 0 && met.hours < 100 && met.mins < 100 && met.secs < 100
    ensures var r := Stamp(met, closing);
      r[0] == '[' && r[3] == ':' && r[6] == ':' && r[9..] == closing &&
      Text.AllDigits(r[1..3]) && Text.DigitsValue(r[1..3]) == met.hours &&
      Text.AllDigits(r[4..6]) && Text.DigitsValue(r[4..6]) == met.mins &&
      Text.AllDigits(r[7..9]) && Text.DigitsValue(r[7..9]) == met.secs
  {
    var r := Stamp(met, closing);
    var h, m, s := Text.Pad2(met.hours), Text.Pad2(met.mins), Text.Pad2(met.secs);
    assert r == "[" + h + ":" + m + ":" + s + closing by {
      assert OptionalField(met.years) + OptionalField(met.days) == [];
    }
    assert r[1..3] == h && r[4..6] == m && r[7..9] == s;
  }

  /** FlightLog: one new event-log entry, the MET stamp closed by "]: " followed by the message. */
  method FlightLog(logger: FlightLogger, msg: string)
    modifies logger
    ensures logger.met == old(logger.met)
    ensures logger.eventLog == old(logger.eventLog) + [Stamp(logger.met, "]: ") + msg]
  {
    var met := logger.met;
    var sb := "[";
    if met.years > 0 {
      sb := sb + (Text.Pad2(met.years) + ":");
    }
    assert sb == "[" + OptionalField(met.years);
    if met.days > 0 {
      sb := sb + (Text.Pad2(met.days) + ":");
    }
    assert sb == "[" + OptionalField(met.years) + OptionalField(met.days);
    sb := sb + (Text.Pad2(met.hours) + ":" + Text.Pad2(met.mins) + ":" + Text.Pad2(met.secs));
    sb := sb + "]: ";
    logger.eventLog := logger.eventLog + [sb + msg];
  }

  /** Broadcast: the screen message posted, if any; it is posted unless messages are off and not overridden. */
  function Broadcast(message: string, overrideMute: bool, messages: bool): (posted: Option<string>)
    ensures posted.Some? <==> overrideMute || messages
    ensures posted.Some? ==> posted.value == message
  {
    if overrideMute || messages then Some(message) else None
  }

  /** PostMessage: the (title, message) added to the message system, under the same gate as Broadcast. */
  function PostMessage(title: string, message: string, overrideMute: bool, messages: bool): (posted: Option<(string, string)>)
    ensures posted.Some? <==> Broadcast(message, overrideMute, messages).Some?
    ensures posted.Some? ==> posted.value == (title, message)
  {
    if messages || overrideMute then Some((title, message)) else None
  }

  /**
   * ResetPartGlow: back to the default highlight, then red if the Glow setting is on and a
   * FailureModule has failed and is not silent (the scan stops at the first), then every child.
   */
  method ResetPartGlow(part: Part, glow: bool) returns (r: Part)
    ensures r == Glowed(part, VisibleFailureRule(glow))
    decreases part
  {
    var highlight := DefaultHighlight;
    if glow {
      var failModules := FailureModulesOf(part.modules);
      var i := 0;
      while i < |failModules|
        invariant 0 <= i <= |failModules|
        invariant highlight == DefaultHighlight
        invariant forall j :: 0 <= j < i ==> !VisibleFailure(failModules[j])
      {
        if failModules[i].hasFailed && !failModules[i].silent {
          highlight := FailedRed;
          break;
        }
        i := i + 1;
      }
      if highlight == DefaultHighlight {
        assert forall m | m in failModules :: !VisibleFailure(m);
      } else {
        assert part.modules[0..] == part.modules;
        assert failModules[i] in part.modules;
      }
    }
    var children: seq<Part> := [];
    for k := 0 to |part.children|
      invariant |children| == k
      invariant forall j :: 0 <= j < k ==> children[j] == Glowed(part.children[j], VisibleFailureRule(glow))
    {
      var c := ResetPartGlow(part.children[k], glow);
      children := children + [c];
    }
    r := Part(part.modules, children, highlight);
  }

  /** ResetShipGlow: the glow reset from the root part; a vessel without one throws a NullReferenceException. */
  method ResetShipGlow(v: Vessel<Part>, glow: bool) returns (r: Result<Vessel<Part>>)
    ensures v.rootPart.None? ==> r.Err?
    ensures v.rootPart.Some? ==> r == Ok(v.(rootPart := Some(Glowed(v.rootPart.value, VisibleFailureRule(glow)))))
  {
    if v.rootPart.None? {
      return Err(NullReference);
    }
    var root := ResetPartGlow(v.rootPart.value, glow);
    r := Ok(v.(rootPart := Some(root)));
  }
}
