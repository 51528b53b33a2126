/**
 * InspectionModule, in its three versions: a kerbal on EVA inspects a part, every
 * FailureModule on it is stamped with the time of the inspection (which earns it the
 * inspection bonus) and a report of what each module says about itself is shown.
 * The newest version (DangIt/Maintenance/InspectionModule.cs) posts a three-line entry
 * per module to the message system, bypassing the mute setting; the two older ones
 * (Maintenance/InspectionModule.cs and InspectionModule.cs, which differ only in where
 * the clock comes from) put one line per module on screen for five seconds.
 */
module Inspections {
  import opened Wrappers
  import RuntimeStatic
  import Text

  const Placeholder := "This part seems to be as good as new"
  const ReportTitle := "Inspection results"
  /** How long the older versions keep the report on screen, in seconds. */
  const ScreenSeconds: real := 5.0
  /** StringBuilder.AppendLine's terminator. */
  const NewLine := "\n"

  function Line(s: string): string
  {
    s + NewLine
  }

  /**
   * A FailureModule as an inspection sees it: its names, what InspectionMessage() answers
   * now, and when it was last inspected.
   */
  class InspectedModule {
    const ScreenName: string
    const InspectionName: string
    const inspectionMessage: string
    var TimeOfLastInspection: real

    constructor(ScreenName: string, InspectionName: string, inspectionMessage: string, TimeOfLastInspection: real)
      ensures this.ScreenName == ScreenName && this.InspectionName == InspectionName
      ensures this.inspectionMessage == inspectionMessage && this.TimeOfLastInspection == TimeOfLastInspection
    {
      this.ScreenName := ScreenName;
      this.InspectionName := InspectionName;
      this.inspectionMessage := inspectionMessage;
      this.TimeOfLastInspection := TimeOfLastInspection;
    }
  }

  /** An entry of part.Modules: a FailureModule or some other module. */
  datatype PartModule = FailureEntry(fm: InspectedModule) | OtherModule(moduleName: string)

  /** part.Modules.OfType<FailureModule>().ToList(): the failure modules, in module order. */
  function FailureModulesOf(modules: seq<PartModule>): (r: seq<InspectedModule>)
    ensures |r| <= |modules|
  {
    if modules == [] then []
    else
      var rest := FailureModulesOf(modules[1..]);
      if modules[0].FailureEntry? then [modules[0].fm] + rest else rest
  }

  /** The failure modules are exactly the modules' FailureModule entries. */
  lemma {:induction false} FailureModulesOfMembers(modules: seq<PartModule>)
    ensures forall k :: 0 <= k < |FailureModulesOf(modules)| ==> FailureEntry(FailureModulesOf(modules)[k]) in modules
    ensures forall i :: 0 <= i < |modules| && modules[i].FailureEntry? ==> modules[i].fm in FailureModulesOf(modules)
  {
    if modules != [] {
      var r := FailureModulesOf(modules);
      var rest := FailureModulesOf(modules[1..]);
      FailureModulesOfMembers(modules[1..]);
      forall k | 0 <= k < |r|
        ensures FailureEntry(r[k]) in modules
      {
        if modules[0].FailureEntry? && k == 0 {
          assert r[0] == modules[0].fm;
        } else {
          var k' := if modules[0].FailureEntry? then k - 1 else k;
          assert r[k] == rest[k'];
          assert FailureEntry(rest[k']) in modules[1..];
          var t :| 0 <= t < |modules[1..]| && modules[1..][t] == FailureEntry(rest[k']);
          assert modules[t + 1] == FailureEntry(r[k]);
        }
      }
      forall i | 0 <= i < |modules| && modules[i].FailureEntry?
        ensures modules[i].fm in r
      {
        if i > 0 {
          assert modules[i] == modules[1..][i - 1];
          assert modules[i].fm in rest;
        }
      }
    }
  }

  /** A part has no failure module exactly when every module is some other module. */
  lemma {:induction false} NoFailureModules(modules: seq<PartModule>)
    ensures FailureModulesOf(modules) == [] <==> forall i :: 0 <= i < |modules| ==> modules[i].OtherModule?
  {
    if modules != [] {
      NoFailureModules(modules[1..]);
      assert forall i :: 1 <= i < |modules| ==> modules[i] == modules[1..][i - 1];
    }
  }

  /** The two report layouts. */
  datatype Layout =
    | ThreeLines  // "ScreenName:", the message, a blank line
    | OneLine     // "InspectionName: message"

  /** The lines of one module's entry. */
  function EntryLines(fm: InspectedModule, layout: Layout): (r: seq<string>)
    ensures |r| == Width(layout)
  {
    match layout
    case ThreeLines => [fm.ScreenName + ":", fm.inspectionMessage, ""]
    case OneLine => [fm.InspectionName + ": " + fm.inspectionMessage]
  }

  /** How many lines an entry takes. */
  function Width(layout: Layout): nat
  {
    match layout
    case ThreeLines => 3
    case OneLine => 1
  }

  /** The lines of the entries of the first n modules, in order: what the loop has appended after n rounds. */
  function Entries(fms: seq<InspectedModule>, n: nat, layout: Layout): seq<string>
    requires n <= |fms|
  {
    if n == 0 then [] else Entries(fms, n - 1, layout) + EntryLines(fms[n - 1], layout)
  }

  /**
   * The modules appear in the report in their order: the lines of module k come right
   * after those of the modules before it, and later modules only append to them.
   */
  lemma {:induction false} EntryInPlace(fms: seq<InspectedModule>, k: nat, n: nat, layout: Layout)
    requires k < n <= |fms|
    ensures Entries(fms, k, layout) + EntryLines(fms[k], layout) <= Entries(fms, n, layout)
  {
    if n - 1 > k {
      EntryInPlace(fms, k, n - 1, layout);
    }
  }

  /** Every module adds Width lines. */
  lemma {:induction false} EntriesLength(fms: seq<InspectedModule>, n: nat, layout: Layout)
    requires n <= |fms|
    ensures |Entries(fms, n, layout)| == n * Width(layout)
  {
    if n > 0 {
      EntriesLength(fms, n - 1, layout);
      assert n * Width(layout) == (n - 1) * Width(layout) + Width(layout);
    }
  }

  /** The lines of the report: the placeholder for a part without failure modules, else the entries. */
  function ReportLines(fms: seq<InspectedModule>, layout: Layout): seq<string>
  {
    if fms == [] then [Placeholder] else Entries(fms, |fms|, layout)
  }

  /** The report as shown. */
  function Report(fms: seq<InspectedModule>, layout: Layout): string
  {
    Text.JoinLines(ReportLines(fms, layout))
  }

  /** The first line of an entry names the module and holds a colon after its name. */
  lemma FirstLineHasColon(fm: InspectedModule, layout: Layout)
    ensures ':' in EntryLines(fm, layout)[0]
  {
    match layout
    case ThreeLines =>
      assert EntryLines(fm, layout)[0][|fm.ScreenName|] == ':';
    case OneLine =>
      assert EntryLines(fm, layout)[0][|fm.InspectionName|] == ':';
  }

  /**
   * The report is the placeholder exactly when the part has no failure module: the first
   * module's entry holds a colon and the placeholder does not.
   */
  lemma PlaceholderIffNoModules(fms: seq<InspectedModule>, layout: Layout)
    ensures Report(fms, layout) == Line(Placeholder) <==> fms == []
  {
    assert Text.JoinLines([Placeholder]) == Text.JoinLines([]) + Placeholder + "\n";
    if fms != [] {
      var lines := ReportLines(fms, layout);
      EntryInPlace(fms, 0, |fms|, layout);
      assert Entries(fms, 0, layout) == [];
      assert lines[0] == EntryLines(fms[0], layout)[0];
      FirstLineHasColon(fms[0], layout);
      TextHasColon(lines);
      PlaceholderHasNoColon();
    }
  }

  lemma PlaceholderHasNoColon()
    ensures ':' !in Line(Placeholder)
  {
  }

  /** A colon on the first line is a colon in the text. */
  lemma {:induction false} TextHasColon(lines: seq<string>)
    requires lines != [] && ':' in lines[0]
    ensures ':' in Text.JoinLines(lines)
  {
    var init := lines[..|lines| - 1];
    var t := Text.JoinLines(init) + lines[|lines| - 1] + "\n";
    if |lines| == 1 {
      var j :| 0 <= j < |lines[0]| && lines[0][j] == ':';
      assert Text.JoinLines(init) == "";
      assert t[j] == ':';
    } else {
      assert init[0] == lines[0];
      TextHasColon(init);
      var j :| 0 <= j < |Text.JoinLines(init)| && Text.JoinLines(init)[j] == ':';
      assert t[j] == ':';
    }
  }

  /**
   * Inspect, newest version, at time `now` with the Messages setting `messages`. Every
   * failure module is stamped with `now`; the report (the placeholder, or three lines per
   * module in order) is posted under its title whatever the Messages setting is.
   */
  method InspectDetailed(modules: seq<PartModule>, now: real, messages: bool) returns (posted: Option<(string, string)>)
    modifies FailureModulesOf(modules)
    ensures var fms := FailureModulesOf(modules); forall k :: 0 <= k < |fms| ==> fms[k].TimeOfLastInspection == now
    ensures posted == Some((ReportTitle, Report(FailureModulesOf(modules), ThreeLines)))
    ensures posted.value.1 == Line(Placeholder) <==> forall i :: 0 <= i < |modules| ==> modules[i].OtherModule?
  {
    var fms := FailureModulesOf(modules);
    var sb: seq<string> := [];
    if |fms| == 0 {
      sb := sb + [Placeholder];
    } else {
      var i := 0;
      while i < |fms|
        invariant 0 <= i <= |fms|
        invariant sb == Entries(fms, i, ThreeLines)
        invariant forall j :: 0 <= j < i ==> fms[j].TimeOfLastInspection == now
      {
        var fm := fms[i];
        fm.TimeOfLastInspection := now;
        ghost var before := sb;
        sb := sb + [fm.ScreenName + ":"];
        sb := sb + [fm.inspectionMessage];
        sb := sb + [""];
        assert sb == before + EntryLines(fm, ThreeLines);
        i := i + 1;
      }
    }
    assert sb == ReportLines(fms, ThreeLines);
    PlaceholderIffNoModules(fms, ThreeLines);
    NoFailureModules(modules);
    posted := RuntimeStatic.PostMessage(ReportTitle, Text.JoinLines(sb), true, messages);
  }

  /**
   * Inspect, older versions, at time `now` (DangIt.Now() in one, Static.Now() in the
   * other). Every failure module is stamped with `now`; the report (the placeholder, or
   * one line per module in order) is put on screen for five seconds, unconditionally.
   */
  method InspectBrief(modules: seq<PartModule>, now: real) returns (posted: (string, real))
    modifies FailureModulesOf(modules)
    ensures var fms := FailureModulesOf(modules); forall k :: 0 <= k < |fms| ==> fms[k].TimeOfLastInspection == now
    ensures posted == (Report(FailureModulesOf(modules), OneLine), ScreenSeconds)
    ensures posted.0 == Line(Placeholder) <==> forall i :: 0 <= i < |modules| ==> modules[i].OtherModule?
  {
    var fms := FailureModulesOf(modules);
    var sb: seq<string> := [];
    if |fms| == 0 {
      sb := sb + [Placeholder];
    }
    var i := 0;
    while i < |fms|
      invariant 0 <= i <= |fms|
      invariant fms == [] ==> sb == [Placeholder]
      invariant fms != [] ==> sb == Entries(fms, i, OneLine)
      invariant forall j :: 0 <= j < i ==> fms[j].TimeOfLastInspection == now
    {
      var fm := fms[i];
      fm.TimeOfLastInspection := now;
      sb := sb + [fm.InspectionName + ": " + fm.inspectionMessage];
      i := i + 1;
    }
    assert sb == ReportLines(fms, OneLine);
    PlaceholderIffNoModules(fms, OneLine);
    NoFailureModules(modules);
    posted := (Text.JoinLines(sb), ScreenSeconds);
  }
}
