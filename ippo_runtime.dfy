/**
 * The middle generation's DangIt scenario module (Runtime/DangIt.cs): the build-dependent
 * constants, the default global settings node, and the constructor that loads the leak
 * blacklist and the notification switches from the global settings file.
 */
module IppoRuntime {
  import opened Wrappers
  import opened ConfigNodes
  import opened Convert
  import NotificationSettingsModel

  /** The EVA repair range: 20 m in a DEBUG build, 1.5 m otherwise. */
  function EvaRepairDistance(debug: bool): (d: real)
    ensures d > 0.0
    ensures debug ==> d == 20.0
    ensures !debug ==> d == 1.5
  {
    if debug then 20.0 else 1.5
  }

  /** Whether the failure GUI is enabled: on in both builds. */
  function EnableGuiFailure(debug: bool): (shown: bool)
    ensures shown
  {
    true
  }

  /** The resources the default blacklist ignores, in order. */
  const DefaultBlacklist: seq<string> := ["ElectricCharge", "SolidFuel", "SpareParts"]

  /** The default NOTIFICATIONS node: every notification on. */
  function NotificationsNode(): (n: Node)
    ensures n.name == "NOTIFICATIONS"
    ensures GetValue(n, "messages") == Some(BoolText(true))
    ensures GetValue(n, "glow") == Some(BoolText(true))
    ensures GetValue(n, "sounds") == Some(BoolText(true))
  {
    var n0 := NewNode("NOTIFICATIONS");
    var n1 := AddValue(n0, "messages", BoolText(true));
    var n2 := AddValue(n1, "glow", BoolText(true));
    AddValue(n2, "sounds", BoolText(true))
  }

  /** The default BLACKLIST node. */
  function BlacklistNode(): (n: Node)
    ensures n.name == "BLACKLIST"
    ensures GetValues(n, "ignore") == DefaultBlacklist
  {
    AddValue(AddValue(AddValue(NewNode("BLACKLIST"), "ignore", "ElectricCharge"), "ignore", "SolidFuel"), "ignore", "SpareParts")
  }

  /**
   * CreateDefaultSettings: a SETTINGS root holding the NOTIFICATIONS node and the
   * BLACKLIST node. Saving the file is not modelled.
   */
  function CreateDefaultSettings(): (n: Node)
    ensures n.name == "SETTINGS"
    ensures GetNode(n, "NOTIFICATIONS") == Some(NotificationsNode())
    ensures GetNode(n, "BLACKLIST") == Some(BlacklistNode())
  {
    AddNode(AddNode(NewNode("SETTINGS"), NotificationsNode()), BlacklistNode())
  }

  /**
   * What the constructor takes from a global settings node: the BLACKLIST "ignore" values
   * in order and the NOTIFICATIONS switches, or the NullReferenceException thrown when there
   * is no BLACKLIST child.
   */
  function LoadGlobal(global: Node): (r: Result<(seq<string>, NotificationSettingsModel.NotificationSettings)>)
    ensures r.Err? <==> !HasNode(global, "BLACKLIST")
    ensures r.Err? ==> r.message == NullReference
    ensures r.Ok? ==> r.value.0 == GetValues(GetNode(global, "BLACKLIST").value, "ignore")
    ensures r.Ok? ==> r.value.1 == NotificationSettingsModel.ReadNode(GetNode(global, "NOTIFICATIONS"))
  {
    match GetNode(global, "BLACKLIST")
    case None => Err(NullReference)
    case Some(blacklist) => Ok((GetValues(blacklist, "ignore"), NotificationSettingsModel.ReadNode(GetNode(global, "NOTIFICATIONS"))))
  }

  /** A first run (no settings file) loads the three default resources with every notification on. */
  lemma DefaultsLoad()
    ensures LoadGlobal(CreateDefaultSettings()) == Ok((DefaultBlacklist, NotificationSettingsModel.Defaults))
  {
    var n := NotificationsNode();
    ParseWrittenBool(true, true);
    assert NotificationSettingsModel.ReadNode(Some(n)) == NotificationSettingsModel.Defaults;
  }

  /** The scenario module's loaded state. */
  class Runtime {
    var leakBlackList: seq<string>
    var notificationSettings: NotificationSettingsModel.NotificationSettings

    constructor(leakBlackList: seq<string>, notificationSettings: NotificationSettingsModel.NotificationSettings)
      ensures this.leakBlackList == leakBlackList && this.notificationSettings == notificationSettings
    {
      this.leakBlackList := leakBlackList;
      this.notificationSettings := notificationSettings;
    }

    /**
     * The DangIt constructor. `file` is the global settings file, when it exists; otherwise
     * the default node is used.
     */
    static method Load(file: Option<Node>) returns (r: Result<Runtime>)
      ensures var loaded := LoadGlobal(if file.Some? then file.value else CreateDefaultSettings());
        && (loaded.Err? ==> r == Err(loaded.message))
        && (loaded.Ok? ==>
              r.Ok? && fresh(r.value) && r.value.leakBlackList == loaded.value.0 && r.value.notificationSettings == loaded.value.1)
      ensures file.None? ==>
        r.Ok? && r.value.leakBlackList == DefaultBlacklist && r.value.notificationSettings == NotificationSettingsModel.Defaults
    {
      var globalSettingsNode := if file.Some? then file.value else CreateDefaultSettings();
      r := FromNode(globalSettingsNode);
      if file.None? {
        DefaultsLoad();
      }
    }

    /**
     * The rest of the constructor, on the chosen node: the blacklist is filled from the
     * "ignore" values one by one; without a BLACKLIST child the constructor throws.
     */
    static method FromNode(globalSettingsNode: Node) returns (r: Result<Runtime>)
      ensures var loaded := LoadGlobal(globalSettingsNode);
        && (loaded.Err? ==> r == Err(loaded.message))
        && (loaded.Ok? ==>
              r.Ok? && fresh(r.value) && r.value.leakBlackList == loaded.value.0 && r.value.notificationSettings == loaded.value.1)
    {
      var leakBlackList := [];
      var blackListNode := GetNode(globalSettingsNode, "BLACKLIST");
      if blackListNode.None? {
        return Err(NullReference);
      }
      var items := GetValues(blackListNode.value, "ignore");
      for k := 0 to |items|
        invariant leakBlackList == items[..k]
      {
        assert items[..k + 1] == items[..k] + [items[k]];
        leakBlackList := leakBlackList + [items[k]];
      }
      assert items[..|items|] == items;
      var notifications := NotificationSettingsModel.ReadNode(GetNode(globalSettingsNode, "NOTIFICATIONS"));
      var runtime := new Runtime(leakBlackList, notifications);
      r := Ok(runtime);
    }
  }
}
