/** The middle generation's notification flags (NotificationSettings in Runtime/NotificationSettings.cs). */
module NotificationSettingsModel {
  import opened Wrappers
  import opened ConfigNodes
  import opened Convert

  datatype NotificationSettings = NotificationSettings(messages: bool, glow: bool, sounds: bool)

  /** The field initialisers: every notification on. */
  const Defaults := NotificationSettings(true, true, true)

  /** The node constructor: a null node keeps the flags on; otherwise each lower-case key is parsed with default true. */
  function ReadNode(node: Option<Node>): (s: NotificationSettings)
    ensures node.None? ==> s == Defaults
  {
    match node
    case None => Defaults
    case Some(n) =>
      NotificationSettings(
        Parse(GetValue(n, "messages"), true, ParseBool),
        Parse(GetValue(n, "glow"), true, ParseBool),
        Parse(GetValue(n, "sounds"), true, ParseBool))
  }

  /** A flag is off only when its key is present and reads as false. */
  lemma OffOnlyWhenWrittenFalse(node: Option<Node>)
    ensures !ReadNode(node).messages ==> node.Some? && ParseBool(GetValue(node.value, "messages").value) == Some(false)
    ensures !ReadNode(node).glow ==> node.Some? && ParseBool(GetValue(node.value, "glow").value) == Some(false)
    ensures !ReadNode(node).sounds ==> node.Some? && ParseBool(GetValue(node.value, "sounds").value) == Some(false)
  {
  }
}
