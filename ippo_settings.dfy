/**
 * The middle generation's settings record (DangSettings in Runtime/Settings.cs): debug and
 * notification flags read from, and written to, a SETTINGS node.
 */
module IppoSettings {
  import opened Wrappers
  import opened ConfigNodes
  import opened Convert

  datatype DangSettings = DangSettings(
    manualFailures: bool,
    freeRepairs: bool,
    maxDistance: real,
    messages: bool,
    glow: bool,
    sounds: bool)

  /** The field initialisers. */
  const Defaults := DangSettings(false, false, 1.0, true, true, true)

  /** The node constructor: a null node keeps the initialisers; otherwise each key is parsed with its default. */
  function ReadNode(node: Option<Node>): (s: DangSettings)
    ensures node.None? ==> s == Defaults
  {
    match node
    case None => Defaults
    case Some(n) =>
      DangSettings(
        Parse(GetValue(n, "ManualFailures"), false, ParseBool),
        Parse(GetValue(n, "FreeRepairs"), false, ParseBool),
        Parse(GetValue(n, "MaxDistance"), 1.0, ParseReal),
        Parse(GetValue(n, "Messages"), true, ParseBool),
        Parse(GetValue(n, "Glow"), true, ParseBool),
        Parse(GetValue(n, "Sounds"), true, ParseBool))
  }

  /** A node without any of the keys, whatever its name, gives the field initialisers. */
  lemma MissingKeysGiveDefaults(name: string)
    ensures ReadNode(Some(NewNode(name))) == Defaults
  {
  }

  const SettingsKeys: seq<string> := ["ManualFailures", "FreeRepairs", "MaxDistance", "Messages", "Glow", "Sounds"]

  /** The texts ToNode writes, in key order: each field's ToString. */
  function Texts(s: DangSettings): seq<string>
  {
    [BoolText(s.manualFailures), BoolText(s.freeRepairs), RealText(s.maxDistance),
     BoolText(s.messages), BoolText(s.glow), BoolText(s.sounds)]
  }

  /** ToNode: a SETTINGS node holding the six keys with their texts, in order. */
  function WriteNode(s: DangSettings): (n: Node)
    ensures n.name == "SETTINGS" && n.nodes == []
  {
    AddValues(NewNode("SETTINGS"), Zip(SettingsKeys, Texts(s)))
  }

  lemma SettingsKeysDistinct()
    ensures forall i, j :: 0 <= i < j < |SettingsKeys| ==> SettingsKeys[i] != SettingsKeys[j]
  {
  }

  /** ToNode writes exactly the keys the node constructor reads, in order, and each reads back as its field's text. */
  lemma ReadsBack(s: DangSettings, i: int)
    requires 0 <= i < |SettingsKeys|
    ensures Keys(WriteNode(s)) == SettingsKeys
    ensures GetValue(WriteNode(s), SettingsKeys[i]) == Some(Texts(s)[i])
  {
    SettingsKeysDistinct();
    ZipReadsBack(WriteNode(s), SettingsKeys, Texts(s), i);
  }

  /**
   * Any node whose keys hold the texts ToNode writes for `s` reads back as `s` when
   * MaxDistance is whole, and as `s` up to MaxDistance always.
   */
  lemma ReadTexts(n: Node, s: DangSettings)
    requires forall i :: 0 <= i < |SettingsKeys| ==> GetValue(n, SettingsKeys[i]) == Some(Texts(s)[i])
    ensures ReadNode(Some(n)) == s.(maxDistance := ReadNode(Some(n)).maxDistance)
    ensures s.maxDistance == s.maxDistance.Floor as real ==> ReadNode(Some(n)) == s
  {
    var k, t := SettingsKeys, Texts(s);
    assert GetValue(n, k[0]) == Some(t[0]) && GetValue(n, k[1]) == Some(t[1]) && GetValue(n, k[2]) == Some(t[2]);
    assert GetValue(n, k[3]) == Some(t[3]) && GetValue(n, k[4]) == Some(t[4]) && GetValue(n, k[5]) == Some(t[5]);
    ParseWrittenBool(s.manualFailures, false);
    ParseWrittenBool(s.freeRepairs, false);
    ParseWrittenBool(s.messages, true);
    ParseWrittenBool(s.glow, true);
    ParseWrittenBool(s.sounds, true);
    if s.maxDistance == s.maxDistance.Floor as real {
      ParseWrittenWholeReal(s.maxDistance.Floor, 1.0);
    }
  }

  /** Reading back what ToNode wrote gives the five flags back, and MaxDistance when it is whole. */
  lemma ReadWriteRoundTrip(s: DangSettings)
    ensures ReadNode(Some(WriteNode(s))) == s.(maxDistance := ReadNode(Some(WriteNode(s))).maxDistance)
    ensures s.maxDistance == s.maxDistance.Floor as real ==> ReadNode(Some(WriteNode(s))) == s
  {
    forall i | 0 <= i < |SettingsKeys|
      ensures GetValue(WriteNode(s), SettingsKeys[i]) == Some(Texts(s)[i])
    {
      ReadsBack(s, i);
    }
    ReadTexts(WriteNode(s), s);
  }
}
