/**
 * The oldest generation's settings record (DangItSettings in DangIt/Settings.cs), stored
 * under lower-case keys.
 */
module LegacySettings {
  import opened Wrappers
  import opened ConfigNodes
  import opened Convert

  datatype DangItSettings = DangItSettings(
    messages: bool,
    glow: bool,
    sounds: bool,
    repairDistance: real,
    manualFailures: bool)

  /** The field initialisers. */
  const Defaults := DangItSettings(true, true, true, 1.0, false)

  /** The node constructor: a null node keeps the initialisers; otherwise each key is parsed with its default. */
  function ReadNode(node: Option<Node>): (s: DangItSettings)
    ensures node.None? ==> s == Defaults
  {
    match node
    case None => Defaults
    case Some(n) =>
      DangItSettings(
        Parse(GetValue(n, "messages"), true, ParseBool),
        Parse(GetValue(n, "glow"), true, ParseBool),
        Parse(GetValue(n, "sounds"), true, ParseBool),
        Parse(GetValue(n, "repairDistance"), 1.0, ParseReal),
        Parse(GetValue(n, "manualFailures"), false, ParseBool))
  }

  /** A node without any of the keys gives the field initialisers. */
  lemma MissingKeysGiveDefaults(name: string)
    ensures ReadNode(Some(NewNode(name))) == Defaults
  {
  }

  const SettingsKeys: seq<string> := ["messages", "glow", "sounds", "repairDistance", "manualFailures"]

  /** The texts ToNode writes, in key order: each field's ToString. */
  function Texts(s: DangItSettings): seq<string>
  {
    [BoolText(s.messages), BoolText(s.glow), BoolText(s.sounds), RealText(s.repairDistance), BoolText(s.manualFailures)]
  }

  /** ToNode: a SETTINGS node holding the same five keys the constructor reads, with their texts, in order. */
  function WriteNode(s: DangItSettings): (n: Node)
    ensures n.name == "SETTINGS" && n.nodes == []
  {
    AddValues(NewNode("SETTINGS"), Zip(SettingsKeys, Texts(s)))
  }

  lemma SettingsKeysDistinct()
    ensures forall i, j :: 0 <= i < j < |SettingsKeys| ==> SettingsKeys[i] != SettingsKeys[j]
  {
  }

  /** ToNode writes exactly the keys the node constructor reads, in order, and each reads back as its field's text. */
  lemma ReadsBack(s: DangItSettings, i: int)
    requires 0 <= i < |SettingsKeys|
    ensures Keys(WriteNode(s)) == SettingsKeys
    ensures GetValue(WriteNode(s), SettingsKeys[i]) == Some(Texts(s)[i])
  {
    SettingsKeysDistinct();
    ZipReadsBack(WriteNode(s), SettingsKeys, Texts(s), i);
  }

  /**
   * Any node whose keys hold the texts ToNode writes for `s` reads back as `s` when
   * RepairDistance is whole, and as `s` up to RepairDistance always.
   */
  lemma ReadTexts(n: Node, s: DangItSettings)
    requires forall i :: 0 <= i < |SettingsKeys| ==> GetValue(n, SettingsKeys[i]) == Some(Texts(s)[i])
    ensures ReadNode(Some(n)) == s.(repairDistance := ReadNode(Some(n)).repairDistance)
    ensures s.repairDistance == s.repairDistance.Floor as real ==> ReadNode(Some(n)) == s
  {
    var k, t := SettingsKeys, Texts(s);
    assert GetValue(n, k[0]) == Some(t[0]) && GetValue(n, k[1]) == Some(t[1]) && GetValue(n, k[2]) == Some(t[2]);
    assert GetValue(n, k[3]) == Some(t[3]) && GetValue(n, k[4]) == Some(t[4]);
    ParseWrittenBool(s.messages, true);
    ParseWrittenBool(s.glow, true);
    ParseWrittenBool(s.sounds, true);
    ParseWrittenBool(s.manualFailures, false);
    if s.repairDistance == s.repairDistance.Floor as real {
      ParseWrittenWholeReal(s.repairDistance.Floor, 1.0);
    }
  }

  /** Reading back what ToNode wrote gives the four flags back, and RepairDistance when it is whole. */
  lemma ReadWriteRoundTrip(s: DangItSettings)
    ensures ReadNode(Some(WriteNode(s))) == s.(repairDistance := ReadNode(Some(WriteNode(s))).repairDistance)
    ensures s.repairDistance == s.repairDistance.Floor as real ==> ReadNode(Some(WriteNode(s))) == s
  {
    forall i | 0 <= i < |SettingsKeys|
      ensures GetValue(WriteNode(s), SettingsKeys[i]) == Some(Texts(s)[i])
    {
      ReadsBack(s, i);
    }
    ReadTexts(WriteNode(s), s);
  }
}
