/**
 * The newest generation's runtime controller, CDangIt (DangIt/Runtime/DangIt.cs): the
 * lazily built leak blacklist, loading and saving the SETTINGS node, and the refresh of
 * the "Reliability Info" entries shown for each available part.
 */
module Controller {
  import opened Wrappers
  import opened Text
  import opened ConfigNodes
  import opened RuntimeSettings

  /** The resources every blacklist holds before the file is read. */
  const DefaultBlacklist: set<string> := {"ElectricCharge", "SolidFuel", "SpareParts"}

  /** A line of blacklist.txt names a resource when, trimmed, it is not blank and not a `//` or `#` comment. */
  predicate Listed(line: string)
  {
    var t := Trim(line);
    t != "" && !StartsWith(t, "//") && !StartsWith(t, "#")
  }

  /** The trimmed resource names of the listed lines, in file order. */
  function BlacklistLines(lines: seq<string>): (names: seq<string>)
    ensures |names| <= |lines|
    ensures forall k :: 0 <= k < |names| ==> names[k] != "" && !StartsWith(names[k], "//") && !StartsWith(names[k], "#")
  {
    if lines == [] then []
    else if Listed(lines[0]) then [Trim(lines[0])] + BlacklistLines(lines[1..])
    else BlacklistLines(lines[1..])
  }

  /** A name is taken from the file exactly when some listed line trims to it. */
  lemma {:induction false} BlacklistLinesExactly(lines: seq<string>, name: string)
    ensures name in BlacklistLines(lines) <==> exists i :: 0 <= i < |lines| && Listed(lines[i]) && Trim(lines[i]) == name
  {
    if lines != [] {
      BlacklistLinesExactly(lines[1..], name);
      if name in BlacklistLines(lines[1..]) {
        var i :| 0 <= i < |lines[1..]| && Listed(lines[1..][i]) && Trim(lines[1..][i]) == name;
        assert Listed(lines[i + 1]) && Trim(lines[i + 1]) == name;
      }
      if exists i :: 0 <= i < |lines| && Listed(lines[i]) && Trim(lines[i]) == name {
        var i :| 0 <= i < |lines| && Listed(lines[i]) && Trim(lines[i]) == name;
        if i > 0 {
          assert Listed(lines[1..][i - 1]) && Trim(lines[1..][i - 1]) == name;
        }
      }
    }
  }

  /** The static `_blacklist` field behind LeakBlackList; None stands for null. */
  class BlacklistCache {
    var blacklist: Option<set<string>>

    /** Whatever is cached holds the defaults. */
    predicate Valid()
      reads this
    {
      blacklist.Some? ==> DefaultBlacklist <= blacklist.value
    }

    constructor()
      ensures blacklist == None && Valid()
    {
      blacklist := None;
    }

    /**
     * The LeakBlackList getter. `file` is what reading blacklist.txt gives: its lines, or
     * the message of the exception the read throws. The set is built once, starting from
     * the defaults; a read error is rethrown after the defaults are cached.
     */
    method LeakBlackList(file: Result<seq<string>>) returns (r: Result<set<string>>)
      requires Valid()
      modifies this
      ensures Valid()
      ensures old(blacklist).Some? ==> blacklist == old(blacklist) && r == Ok(blacklist.value)
      ensures old(blacklist).None? && file.Err? ==> blacklist == Some(DefaultBlacklist) && r == Err(file.message)
      ensures old(blacklist).None? && file.Ok? ==>
        blacklist == Some(DefaultBlacklist + set name | name in BlacklistLines(file.value)) && r == Ok(blacklist.value)
      ensures blacklist.Some?
    {
      if blacklist.Some? {
        return Ok(blacklist.value);
      }
      blacklist := Some(DefaultBlacklist);
      if file.Err? {
        return Err(file.message);
      }
      var names := BlacklistLines(file.value);
      var added: set<string> := {};
      assert DefaultBlacklist + added == DefaultBlacklist;
      for k := 0 to |names|
        invariant blacklist == Some(DefaultBlacklist + added)
        invariant added == set name | name in names[..k]
      {
        assert names[..k + 1] == names[..k] + [names[k]];
        assert DefaultBlacklist + added + {names[k]} == DefaultBlacklist + (added + {names[k]});
        blacklist := Some(blacklist.value + {names[k]});
        added := added + {names[k]};
      }
      assert names[..|names|] == names;
      r := Ok(blacklist.value);
    }
  }

  /** The caption of the part-info entry the refresh adds and removes. */
  const InfoName := "Reliability Info"

  /** AvailablePart.ModuleInfo: a caption and the text shown under it. */
  datatype ModuleInfo = ModuleInfo(moduleName: string, info: string)

  /**
   * An AvailablePart: whether its prefab has a module list at all, the info text of the
   * first ModuleReliabilityInfo on the prefab (None when it has none), and its info entries.
   */
  class AvailablePart {
    const hasModules: bool
    const reliabilityInfo: Option<string>
    var moduleInfos: seq<ModuleInfo>

    constructor(hasModules: bool, reliabilityInfo: Option<string>, moduleInfos: seq<ModuleInfo>)
      ensures this.hasModules == hasModules && this.reliabilityInfo == reliabilityInfo
      ensures this.moduleInfos == moduleInfos
    {
      this.hasModules := hasModules;
      this.reliabilityInfo := reliabilityInfo;
      this.moduleInfos := moduleInfos;
    }
  }

  /** The index of the last entry with the reliability caption, or -1. */
  function LastInfoIndex(infos: seq<ModuleInfo>): (t: int)
    ensures -1 <= t < |infos|
    ensures t >= 0 ==> infos[t].moduleName == InfoName
    ensures forall k :: t < k < |infos| ==> infos[k].moduleName != InfoName
  {
    if infos == [] then -1
    else if infos[|infos| - 1].moduleName == InfoName then |infos| - 1
    else LastInfoIndex(infos[..|infos| - 1])
  }

  /** The entries with any other caption, in order. */
  function Others(infos: seq<ModuleInfo>): seq<ModuleInfo>
  {
    if infos == [] then []
    else (if infos[0].moduleName == InfoName then [] else [infos[0]]) + Others(infos[1..])
  }

  /** How many entries carry the reliability caption. */
  function InfoCount(infos: seq<ModuleInfo>): nat
  {
    if infos == [] then 0
    else (if infos[0].moduleName == InfoName then 1 else 0) + InfoCount(infos[1..])
  }

  lemma {:induction false} OthersConcat(a: seq<ModuleInfo>, b: seq<ModuleInfo>)
    ensures Others(a + b) == Others(a) + Others(b)
    ensures InfoCount(a + b) == InfoCount(a) + InfoCount(b)
  {
    if a == [] {
      assert a + b == b;
    } else {
      assert (a + b)[1..] == a[1..] + b;
      OthersConcat(a[1..], b);
    }
  }

  /** The entries of one part after the refresh, for the current EnabledForSave. */
  function Refreshed(infos: seq<ModuleInfo>, enabled: bool, reliabilityInfo: Option<string>): seq<ModuleInfo>
  {
    var t := LastInfoIndex(infos);
    if t >= 0 && !enabled then infos[..t] + infos[t + 1..]
    else if t < 0 && enabled && reliabilityInfo.Some? then infos + [ModuleInfo(InfoName, reliabilityInfo.value)]
    else infos
  }

  lemma {:induction false} NoInfoIndex(infos: seq<ModuleInfo>)
    ensures LastInfoIndex(infos) < 0 <==> InfoCount(infos) == 0
  {
    var t := LastInfoIndex(infos);
    if t >= 0 {
      assert infos == infos[..t] + [infos[t]] + infos[t + 1..];
      OthersConcat(infos[..t] + [infos[t]], infos[t + 1..]);
      OthersConcat(infos[..t], [infos[t]]);
    } else {
      NoInfoCount(infos);
    }
  }

  lemma {:induction false} NoInfoCount(infos: seq<ModuleInfo>)
    requires forall k :: 0 <= k < |infos| ==> infos[k].moduleName != InfoName
    ensures InfoCount(infos) == 0 && Others(infos) == infos
  {
    if infos != [] {
      NoInfoCount(infos[1..]);
    }
  }

  /** Removing the entry at `t`, which has the reliability caption. */
  lemma {:induction false} RemovedInfo(infos: seq<ModuleInfo>, t: int)
    requires 0 <= t < |infos| && infos[t].moduleName == InfoName
    ensures Others(infos[..t] + infos[t + 1..]) == Others(infos)
    ensures InfoCount(infos[..t] + infos[t + 1..]) + 1 == InfoCount(infos)
  {
    var a, b := infos[..t], infos[t + 1..];
    assert infos == a + ([infos[t]] + b);
    assert ([infos[t]] + b)[1..] == b;
    OthersConcat(a, [infos[t]] + b);
    OthersConcat(a, b);
  }

  /** Appending an entry with the reliability caption. */
  lemma {:induction false} AddedInfo(infos: seq<ModuleInfo>, e: ModuleInfo)
    requires e.moduleName == InfoName
    ensures Others(infos + [e]) == Others(infos)
    ensures InfoCount(infos + [e]) == InfoCount(infos) + 1
  {
    OthersConcat(infos, [e]);
    assert [e][1..] == [];
  }

  /**
   * The refresh touches only the reliability entries: every other entry keeps its place,
   * disabling removes one reliability entry, and enabling leaves exactly one when there
   * was none and the prefab has a ModuleReliabilityInfo.
   */
  lemma RefreshedChanges(infos: seq<ModuleInfo>, enabled: bool, reliabilityInfo: Option<string>)
    ensures Others(Refreshed(infos, enabled, reliabilityInfo)) == Others(infos)
    ensures !enabled ==> InfoCount(Refreshed(infos, enabled, reliabilityInfo)) == if InfoCount(infos) == 0 then 0 else InfoCount(infos) - 1
    ensures enabled && InfoCount(infos) == 0 ==>
      InfoCount(Refreshed(infos, enabled, reliabilityInfo)) == if reliabilityInfo.Some? then 1 else 0
    ensures enabled && InfoCount(infos) > 0 ==> Refreshed(infos, enabled, reliabilityInfo) == infos
  {
    var t := LastInfoIndex(infos);
    NoInfoIndex(infos);
    if t >= 0 && !enabled {
      RemovedInfo(infos, t);
    } else if t < 0 && enabled && reliabilityInfo.Some? {
      AddedInfo(infos, ModuleInfo(InfoName, reliabilityInfo.value));
    }
  }

  /** For fixed settings a second refresh changes nothing, when a part has at most one reliability entry. */
  lemma RefreshedIdempotent(infos: seq<ModuleInfo>, enabled: bool, reliabilityInfo: Option<string>)
    requires enabled || InfoCount(infos) <= 1
    ensures Refreshed(Refreshed(infos, enabled, reliabilityInfo), enabled, reliabilityInfo) == Refreshed(infos, enabled, reliabilityInfo)
  {
    var once := Refreshed(infos, enabled, reliabilityInfo);
    RefreshedChanges(infos, enabled, reliabilityInfo);
    NoInfoIndex(infos);
    NoInfoIndex(once);
    if enabled && LastInfoIndex(infos) < 0 && reliabilityInfo.Some? {
      assert LastInfoIndex(once) == |infos|;
    }
  }

  /** Two reliability entries on a part: each refresh with the mod disabled removes one more. */
  lemma RefreshedTwiceDisabled()
    ensures var infos := [ModuleInfo(InfoName, "a"), ModuleInfo(InfoName, "b")];
      Refreshed(infos, false, None) == [ModuleInfo(InfoName, "a")] &&
      Refreshed(Refreshed(infos, false, None), false, None) == []
  {
    var infos := [ModuleInfo(InfoName, "a"), ModuleInfo(InfoName, "b")];
    assert LastInfoIndex(infos) == 1;
    assert LastInfoIndex([ModuleInfo(InfoName, "a")]) == 0;
  }

  /** The CDangIt scenario module: its current settings (null until loaded) and IsReady. */
  class Runtime {
    var currentSettings: Settings?
    var isReady: bool

    /** The constructor: not ready until OnLoad. */
    constructor()
      ensures currentSettings == null && !isReady
    {
      currentSettings := null;
      isReady := false;
    }

    /** The CurrentSettings setter; the refresh it schedules is RefreshPartInfo. */
    method SetCurrentSettings(value: Settings)
      modifies this
      ensures currentSettings == value && isReady == old(isReady)
    {
      currentSettings := value;
    }

    /** OnLoad: the first SETTINGS child is read, otherwise the field defaults are used; then the runtime is ready. */
    method OnLoad(node: Node)
      modifies this
      ensures currentSettings != null && fresh(currentSettings) && isReady
      ensures HasNode(node, NodeName) ==> currentSettings.data == ReadNode(GetNode(node, NodeName)).value
      ensures !HasNode(node, NodeName) ==> currentSettings.data == Defaults
    {
      var s: Settings;
      if HasNode(node, NodeName) {
        var read := Settings.FromNode(GetNode(node, NodeName));
        s := read.value;
      } else {
        s := new Settings();
      }
      SetCurrentSettings(s);
      isReady := true;
    }

    /**
     * OnSave: the settings node replaces the first SETTINGS child, or is appended when there
     * is none. The children of other names and the values are kept.
     */
    method OnSave(node: Node) returns (r: Result<Node>)
      ensures r.Err? <==> currentSettings == null
      ensures r.Err? ==> r.message == NullReference
      ensures r.Ok? ==> GetNode(r.value, NodeName) == Some(WriteNode(currentSettings.data))
      ensures r.Ok? ==> |NodesNamed(r.value.nodes, NodeName)| == if HasNode(node, NodeName) then |NodesNamed(node.nodes, NodeName)| else 1
      ensures r.Ok? ==> r.value.name == node.name && r.value.values == node.values
      ensures r.Ok? ==> forall k :: k != NodeName ==> NodesNamed(r.value.nodes, k) == NodesNamed(node.nodes, k)
    {
      if currentSettings == null {
        return Err(NullReference);
      }
      var settings := WriteNode(currentSettings.data);
      if HasNode(node, NodeName) {
        r := Ok(SetNode(node, NodeName, settings));
      } else {
        r := Ok(AddNode(node, settings));
      }
    }

    /**
     * RefreshPartInfo over the loaded parts: each part with a module list gets its entries
     * refreshed for the current EnabledForSave. Without settings the first such part throws,
     * the exception is caught, and nothing has changed.
     */
    method RefreshPartInfo(parts: seq<AvailablePart>)
      requires forall i, j :: 0 <= i < j < |parts| ==> parts[i] != parts[j]
      modifies set p | p in parts
      ensures currentSettings == null ==> forall p | p in parts :: p.moduleInfos == old(p.moduleInfos)
      ensures currentSettings != null ==> forall p | p in parts ::
        p.moduleInfos == if p.hasModules then Refreshed(old(p.moduleInfos), currentSettings.data.enabledForSave, p.reliabilityInfo) else old(p.moduleInfos)
    {
      if currentSettings == null {
        return;
      }
      var enabled := currentSettings.data.enabledForSave;
      for k := 0 to |parts|
        invariant forall i | 0 <= i < k ::
          parts[i].moduleInfos == if parts[i].hasModules then Refreshed(old(parts[i].moduleInfos), enabled, parts[i].reliabilityInfo) else old(parts[i].moduleInfos)
        invariant forall i | k <= i < |parts| :: parts[i].moduleInfos == old(parts[i].moduleInfos)
      {
        var ap := parts[k];
        if ap.hasModules {
          var t := LastInfoIndex(ap.moduleInfos);
          if t >= 0 && !enabled {
            ap.moduleInfos := ap.moduleInfos[..t] + ap.moduleInfos[t + 1..];
          }
          if t < 0 && enabled && ap.reliabilityInfo.Some? {
            ap.moduleInfos := ap.moduleInfos + [ModuleInfo(InfoName, ap.reliabilityInfo.value)];
          }
        }
      }
    }
  }
}
