/**
 * The newest generation's user settings (DangIt/Runtime/Settings.cs): eleven fields with
 * their initialisers, the SETTINGS node they are read from and written to, and the sound
 * loops per failure priority.
 */
module RuntimeSettings {
  import opened Wrappers
  import opened ConfigNodes
  import opened Convert
  import RuntimeStatic

  const NodeName := "SETTINGS"

  /** The fields of a Settings object. */
  datatype SettingsData = SettingsData(
    enabledForSave: bool,
    manualFailures: bool,
    maxDistance: real,
    messages: bool,
    glow: bool,
    requireExperience: bool,
    priLowSoundLoops: Int32,
    priMediumSoundLoops: Int32,
    priHighSoundLoops: Int32,
    alarmVolume: Int32,
    debugStats: bool)

  /** GetSoundLoopsForPriority(int): the loops configured for LOW (1), MEDIUM (2) or HIGH (3), 0 for any other number. */
  function SoundLoops(d: SettingsData, priority: int): (loops: Int32)
    ensures priority !in {1, 2, 3} ==> loops == 0
  {
    if priority == 1 then d.priLowSoundLoops
    else if priority == 2 then d.priMediumSoundLoops
    else if priority == 3 then d.priHighSoundLoops
    else 0
  }

  /** GetSoundLoopsForPriority(string): the number PriorityIntFromString gives the name. */
  function SoundLoopsByName(d: SettingsData, priority: string): (loops: Int32)
    ensures RuntimeStatic.PriorityIntFromString(priority) == 0 ==> loops == 0
  {
    SoundLoops(d, RuntimeStatic.PriorityIntFromString(priority))
  }

  /** The field initialisers of a new Settings. */
  const Defaults := SettingsData(true, false, 2.0, true, true, true, 0, 2, -1, 100, false)

  /** The names pick their own loop counts in any letter case, and an unknown name gets none. */
  lemma SoundLoopsByNames(d: SettingsData)
    ensures SoundLoopsByName(d, "low") == d.priLowSoundLoops && SoundLoopsByName(d, "LOW") == d.priLowSoundLoops
    ensures SoundLoopsByName(d, "Medium") == d.priMediumSoundLoops
    ensures SoundLoopsByName(d, "HIGH") == d.priHighSoundLoops
    ensures SoundLoopsByName(d, "") == 0
  {
    RuntimeStatic.PriorityNames();
  }

  /** The node constructor: each key parsed with its default, or "Invalid node!" for null or a node of another name. */
  function ReadNode(node: Option<Node>): (r: Result<SettingsData>)
    ensures r.Err? <==> node.None? || node.value.name != NodeName
    ensures r.Err? ==> r.message == "Invalid node!"
  {
    if node.Some? && node.value.name == NodeName then
      var n := node.value;
      Ok(SettingsData(
        Parse(GetValue(n, "EnabledForSave"), true, ParseBool),
        Parse(GetValue(n, "ManualFailures"), false, ParseBool),
        Parse(GetValue(n, "MaxDistance"), 1.0, ParseReal),
        Parse(GetValue(n, "Messages"), true, ParseBool),
        Parse(GetValue(n, "Glow"), true, ParseBool),
        Parse(GetValue(n, "RequireExperience"), true, ParseBool),
        Parse(GetValue(n, "Pri_Low_Loops"), 0, ParseInt),
        Parse(GetValue(n, "Pri_Medium_Loops"), 0, ParseInt),
        Parse(GetValue(n, "Pri_High_Loops"), 0, ParseInt),
        Parse(GetValue(n, "AlarmVolume"), 100, ParseInt),
        Parse(GetValue(n, "DebugStats"), false, ParseBool)))
    else Err("Invalid node!")
  }

  /** The keys ToNode writes, in order; they are the keys the node constructor reads. */
  const SettingsKeys: seq<string> := [
    "EnabledForSave", "ManualFailures", "MaxDistance", "Messages", "Glow",
    "Pri_Low_Loops", "Pri_Medium_Loops", "Pri_High_Loops", "AlarmVolume", "RequireExperience", "DebugStats"]

  /** The texts ToNode writes, in key order: each field's ToString. */
  function Texts(d: SettingsData): seq<string>
  {
    [BoolText(d.enabledForSave), BoolText(d.manualFailures), RealText(d.maxDistance),
     BoolText(d.messages), BoolText(d.glow), IntText(d.priLowSoundLoops),
     IntText(d.priMediumSoundLoops), IntText(d.priHighSoundLoops), IntText(d.alarmVolume),
     BoolText(d.requireExperience), BoolText(d.debugStats)]
  }

  /** ToNode: a SETTINGS node holding the eleven keys with their texts, in order. */
  function WriteNode(d: SettingsData): (n: Node)
    ensures n.name == NodeName && n.nodes == []
  {
    AddValues(NewNode(NodeName), Zip(SettingsKeys, Texts(d)))
  }

  lemma SettingsKeysDistinct()
    ensures forall i, j :: 0 <= i < j < |SettingsKeys| ==> SettingsKeys[i] != SettingsKeys[j]
  {
  }

  /** ToNode writes exactly the keys the node constructor reads, in order, and each reads back as its field's text. */
  lemma ReadsBack(d: SettingsData, i: int)
    requires 0 <= i < |SettingsKeys|
    ensures Keys(WriteNode(d)) == SettingsKeys
    ensures GetValue(WriteNode(d), SettingsKeys[i]) == Some(Texts(d)[i])
  {
    SettingsKeysDistinct();
    ZipReadsBack(WriteNode(d), SettingsKeys, Texts(d), i);
  }

  /**
   * Any SETTINGS node whose keys hold the texts ToNode writes for `d` reads back as `d`
   * whenever MaxDistance is whole (RealText of a fraction is not modelled), and as `d`
   * up to MaxDistance always.
   */
  lemma ReadTexts(n: Node, d: SettingsData)
    requires n.name == NodeName
    requires forall i :: 0 <= i < |SettingsKeys| ==> GetValue(n, SettingsKeys[i]) == Some(Texts(d)[i])
    ensures ReadNode(Some(n)).Ok?
    ensures ReadNode(Some(n)).value == d.(maxDistance := ReadNode(Some(n)).value.maxDistance)
    ensures d.maxDistance == d.maxDistance.Floor as real ==> ReadNode(Some(n)) == Ok(d)
  {
    var k, t := SettingsKeys, Texts(d);
    assert GetValue(n, k[0]) == Some(t[0]) && GetValue(n, k[1]) == Some(t[1]) && GetValue(n, k[2]) == Some(t[2]);
    assert GetValue(n, k[3]) == Some(t[3]) && GetValue(n, k[4]) == Some(t[4]) && GetValue(n, k[5]) == Some(t[5]);
    assert GetValue(n, k[6]) == Some(t[6]) && GetValue(n, k[7]) == Some(t[7]) && GetValue(n, k[8]) == Some(t[8]);
    assert GetValue(n, k[9]) == Some(t[9]) && GetValue(n, k[10]) == Some(t[10]);
    ParseWrittenBool(d.enabledForSave, true);
    ParseWrittenBool(d.manualFailures, false);
    ParseWrittenBool(d.messages, true);
    ParseWrittenBool(d.glow, true);
    ParseWrittenBool(d.requireExperience, true);
    ParseWrittenBool(d.debugStats, false);
    ParseWrittenInt(d.priLowSoundLoops, 0);
    ParseWrittenInt(d.priMediumSoundLoops, 0);
    ParseWrittenInt(d.priHighSoundLoops, 0);
    ParseWrittenInt(d.alarmVolume, 100);
    if d.maxDistance == d.maxDistance.Floor as real {
      ParseWrittenWholeReal(d.maxDistance.Floor, 1.0);
    }
  }

  /** Reading back what ToNode wrote gives the same settings, MaxDistance when it is whole. */
  lemma ReadWriteRoundTrip(d: SettingsData)
    ensures ReadNode(Some(WriteNode(d))).Ok?
    ensures ReadNode(Some(WriteNode(d))).value == d.(maxDistance := ReadNode(Some(WriteNode(d))).value.maxDistance)
    ensures d.maxDistance == d.maxDistance.Floor as real ==> ReadNode(Some(WriteNode(d))) == Ok(d)
  {
    forall i | 0 <= i < |SettingsKeys|
      ensures GetValue(WriteNode(d), SettingsKeys[i]) == Some(Texts(d)[i])
    {
      ReadsBack(d, i);
    }
    ReadTexts(WriteNode(d), d);
  }

  /** A Settings object; the window edits its fields in place. */
  class Settings {
    var data: SettingsData

    /** `new Settings()`: the field initialisers. */
    constructor()
      ensures data == Defaults
    {
      data := Defaults;
    }

    /** `new Settings(node)`, which throws for a null node or one of another name. */
    static method FromNode(node: Option<Node>) returns (r: Result<Settings>)
      ensures r.Err? <==> ReadNode(node).Err?
      ensures r.Err? ==> r.message == "Invalid node!"
      ensures r.Ok? ==> fresh(r.value) && r.value.data == ReadNode(node).value
    {
      var read := ReadNode(node);
      if read.Err? {
        return Err(read.message);
      }
      var s := new Settings();
      s.data := read.value;
      r := Ok(s);
    }

    /** ShallowClone: a new object with the same field values. */
    method ShallowClone() returns (c: Settings)
      ensures fresh(c) && c.data == data
    {
      c := new Settings();
      c.data := data;
    }
  }
}
