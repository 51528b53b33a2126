/**
 * ModuleReliabilityInfo.GetInfo (DangIt/Maintenance/ModuleReliabilityInfo.cs): the text of
 * the editor's info tab for a part. The failure modules that want to show themselves in the
 * editor are picked out in order; a part with none of them has been "built to last", and
 * otherwise every picked module gets a block of lines: its name, MTBF, lifetime, end of
 * life, repair cost and priority, its extra info and its servicing requirement when it has
 * them, and a blank line.
 */
module ReliabilityInfo {
  import Text

  const BuiltToLast := "This part has been built to last"

  /**
   * What GetInfo reads of one FailureModule. `logLife` is -LifeTime * ln(1 / MTBF), the
   * term the end of life is rounded from; `experienceKey` and `experienceLevel` are the
   * key and the value of ExperienceRequirements.
   */
  datatype ModuleInfo = ModuleInfo(
    screenName: string,
    mtbf: real,
    lifeTime: real,
    logLife: real,
    repairCost: real,
    priority: string,
    extraEditorInfo: string,
    experienceKey: string,
    experienceLevel: int,
    showInEditor: bool)

  /** Math.Round: to the nearest integer, a tie to the even one. */
  function RoundHalfEven(x: real): (n: int)
    ensures (n as real) - 0.5 <= x <= (n as real) + 0.5
    ensures x == (n as real) - 0.5 || x == (n as real) + 0.5 ==> n % 2 == 0
  {
    var f := x.Floor;
    var d := x - f as real;
    if d < 0.5 then f
    else if d > 0.5 then f + 1
    else if f % 2 == 0 then f
    else f + 1
  }

  /** The end of life in hours: the log term, not below zero, rounded. */
  function EndOfLife(m: ModuleInfo): (eol: nat)
    ensures m.logLife <= 0.0 ==> eol == 0
    ensures m.logLife > 0.0 ==> (eol as real) - 0.5 <= m.logLife <= (eol as real) + 0.5
  {
    var n := RoundHalfEven(if m.logLife < 0.0 then 0.0 else m.logLife);
    assert n >= 0;
    n
  }

  /** The servicing requirement line. */
  function ServicingLine(m: ModuleInfo): string
  {
    " - Servicing requires a level " + Text.IntText(m.experienceLevel) + " " + m.experienceKey
  }

  /** The name line and the five fixed lines of a module's block. */
  function FixedLines(m: ModuleInfo): seq<string>
  {
    [ m.screenName,
      " - MTBF: " + Text.RealText(m.mtbf) + " hours",
      " - Lifetime: " + Text.RealText(m.lifeTime) + " hours",
      " - EOL : " + Text.RealText(EndOfLife(m) as real) + " hours",
      " - Repair cost: " + Text.RealText(m.repairCost),
      " - Priority: " + m.priority ]
  }

  /** The extra-info line, for a module that has extra info. */
  function ExtraLines(m: ModuleInfo): seq<string>
  {
    if m.extraEditorInfo != "" then [" - " + m.extraEditorInfo] else []
  }

  /** The servicing line, for a module whose requirement has a key. */
  function ServicingLines(m: ModuleInfo): seq<string>
  {
    if m.experienceKey != "" then [ServicingLine(m)] else []
  }

  /** The lines of one module's block: the fixed lines, the optional ones, a blank line. */
  function Block(m: ModuleInfo): seq<string>
  {
    FixedLines(m) + ExtraLines(m) + ServicingLines(m) + [""]
  }

  /** How many optional lines a block has before its blank line. */
  function Optional(m: ModuleInfo): nat
  {
    (if m.extraEditorInfo != "" then 1 else 0) + (if m.experienceKey != "" then 1 else 0)
  }

  /** A block opens with the module's name, has its optional lines and ends with a blank line. */
  lemma BlockShape(m: ModuleInfo)
    ensures var b := Block(m);
      && |b| == 7 + Optional(m)
      && b[0] == m.screenName && b[|b| - 1] == ""
  {
  }

  /** The line after the fixed lines is the extra-info line exactly when the extra info is not empty. */
  lemma ExtraLineIff(m: ModuleInfo)
    ensures Block(m)[6] == " - " + m.extraEditorInfo <==> m.extraEditorInfo != ""
  {
    var b := Block(m);
    if m.extraEditorInfo == "" {
      assert b[6] == "" || b[6] == ServicingLine(m);
      assert |ServicingLine(m)| > 3;
    }
  }

  /** The line after the fixed lines and the extra info, if any, is the servicing line exactly when the requirement has a key. */
  lemma ServicingLineIff(m: ModuleInfo)
    ensures var s := if m.extraEditorInfo != "" then 7 else 6;
      Block(m)[s] == ServicingLine(m) <==> m.experienceKey != ""
  {
    var s := if m.extraEditorInfo != "" then 7 else 6;
    if m.experienceKey == "" {
      assert Block(m)[s] == "";
      assert |ServicingLine(m)| > 0;
    }
  }

  /** fails: the modules that show themselves in the editor, in their order. */
  function Shown(fms: seq<ModuleInfo>): (r: seq<ModuleInfo>)
    ensures |r| <= |fms|
  {
    if fms == [] then []
    else
      var init := fms[..|fms| - 1];
      var last := fms[|fms| - 1];
      Shown(init) + (if last.showInEditor then [last] else [])
  }

  /** Picking keeps the order: the modules shown of two runs are those of the first, then those of the second. */
  lemma {:induction false} ShownAppend(a: seq<ModuleInfo>, b: seq<ModuleInfo>)
    ensures Shown(a + b) == Shown(a) + Shown(b)
    decreases |b|
  {
    if b == [] {
      assert a + b == a;
    } else {
      var init := b[..|b| - 1];
      assert (a + b)[..|a + b| - 1] == a + init;
      ShownAppend(a, init);
    }
  }

  /** A module is shown exactly when it is on the part and wants to show itself. */
  lemma {:induction false} ShownMembers(fms: seq<ModuleInfo>, m: ModuleInfo)
    ensures m in Shown(fms) <==> m in fms && m.showInEditor
  {
    if fms != [] {
      var init := fms[..|fms| - 1];
      ShownMembers(init, m);
      assert fms == init + [fms[|fms| - 1]];
    }
  }

  /** A part shows nothing exactly when none of its modules wants to be shown. */
  lemma NothingShown(fms: seq<ModuleInfo>)
    ensures Shown(fms) == [] <==> forall i :: 0 <= i < |fms| ==> !fms[i].showInEditor
  {
    if Shown(fms) != [] {
      ShownMembers(fms, Shown(fms)[0]);
    } else {
      forall i | 0 <= i < |fms|
        ensures !fms[i].showInEditor
      {
        ShownMembers(fms, fms[i]);
      }
    }
  }

  /** The blocks of the modules, one per module, in order. */
  function BlockList(fails: seq<ModuleInfo>): (r: seq<seq<string>>)
    ensures |r| == |fails|
  {
    if fails == [] then [] else BlockList(fails[..|fails| - 1]) + [Block(fails[|fails| - 1])]
  }

  /** One more module, one more block. */
  lemma BlockListSnoc(fails: seq<ModuleInfo>, k: nat)
    requires k < |fails|
    ensures BlockList(fails[..k + 1]) == BlockList(fails[..k]) + [Block(fails[k])]
  {
    TakeSnoc(fails, k);
  }

  /** The lines of blocks laid one after the other. */
  function Flatten<T>(bs: seq<seq<T>>): seq<T>
  {
    if bs == [] then [] else Flatten(bs[..|bs| - 1]) + bs[|bs| - 1]
  }

  lemma FlattenSnoc<T>(bs: seq<seq<T>>, b: seq<T>)
    ensures Flatten(bs + [b]) == Flatten(bs) + b
  {
    assert (bs + [b])[..|bs|] == bs;
  }

  /** Each block sits right after all earlier ones; later blocks only append. */
  lemma {:induction false} BlockInPlace<T>(bs: seq<seq<T>>, k: nat)
    requires k < |bs|
    ensures Flatten(bs[..k]) + bs[k] <= Flatten(bs)
    decreases |bs|
  {
    var init := bs[..|bs| - 1];
    if k < |init| {
      BlockInPlace(init, k);
      assert init[..k] == bs[..k];
    } else {
      assert bs[..k] == init;
    }
  }

  /** Blocks whose last one ends with a blank line end with a blank line. */
  lemma EndsBlank(bs: seq<seq<string>>)
    requires bs != [] && bs[|bs| - 1] != [] && bs[|bs| - 1][|bs[|bs| - 1]| - 1] == ""
    ensures var f := Flatten(bs); f != [] && f[|f| - 1] == ""
  {
  }

  lemma TakeSnoc<T>(s: seq<T>, k: nat)
    requires k < |s|
    ensures s[..k + 1][..k] == s[..k] && s[..k + 1][k] == s[k]
  {
  }

  /** Concatenation is associative. */
  lemma Assoc<T>(a: seq<T>, b: seq<T>, c: seq<T>)
    ensures (a + b) + c == a + (b + c)
  {
  }

  /** GetInfo's answer for the modules of a part, in module order. */
  function Info(fms: seq<ModuleInfo>): string
  {
    var fails := Shown(fms);
    if fails == [] then BuiltToLast else Text.JoinLines(Flatten(BlockList(fails)))
  }

  /** Text that ends in a line break. */
  lemma JoinedEndsInBreak(lines: seq<string>)
    requires lines != []
    ensures var t := Text.JoinLines(lines); t != [] && t[|t| - 1] == '\n'
  {
  }

  /**
   * The info is the built-to-last placeholder exactly when no module wants to be shown:
   * otherwise the text ends in a line break, and the placeholder does not.
   */
  lemma BuiltToLastIffNothingShown(fms: seq<ModuleInfo>)
    ensures Info(fms) == BuiltToLast <==> forall i :: 0 <= i < |fms| ==> !fms[i].showInEditor
  {
    NothingShown(fms);
    var fails := Shown(fms);
    if fails != [] {
      var bs := BlockList(fails);
      assert bs[|bs| - 1] == Block(fails[|fails| - 1]);
      BlockShape(fails[|fails| - 1]);
      EndsBlank(bs);
      JoinedEndsInBreak(Flatten(bs));
      assert BuiltToLast[|BuiltToLast| - 1] == 't';
    }
  }

  /** One round of GetInfo's second loop: the module's block is appended to the builder. */
  method AppendBlock(sb0: seq<string>, fm: ModuleInfo) returns (sb: seq<string>)
    ensures sb == sb0 + Block(fm)
  {
    sb := sb0 + [
      fm.screenName,
      " - MTBF: " + Text.RealText(fm.mtbf) + " hours",
      " - Lifetime: " + Text.RealText(fm.lifeTime) + " hours",
      " - EOL : " + Text.RealText(EndOfLife(fm) as real) + " hours",
      " - Repair cost: " + Text.RealText(fm.repairCost),
      " - Priority: " + fm.priority];
    if fm.extraEditorInfo != "" {
      sb := sb + [" - " + fm.extraEditorInfo];
    } else {
      assert sb == sb + ExtraLines(fm);
    }
    Assoc(sb0, FixedLines(fm), ExtraLines(fm));
    if fm.experienceKey != "" {
      sb := sb + [ServicingLine(fm)];
    } else {
      assert sb == sb + ServicingLines(fm);
    }
    Assoc(sb0, FixedLines(fm) + ExtraLines(fm), ServicingLines(fm));
    sb := sb + [""];
    Assoc(sb0, FixedLines(fm) + ExtraLines(fm) + ServicingLines(fm), [""]);
  }

  /**
   * GetInfo on a part whose modules are `raw`, in module order: the shown modules are
   * collected, then each one's block is appended line by line.
   */
  method GetInfo(raw: seq<ModuleInfo>) returns (info: string)
    ensures info == Info(raw)
    ensures info == BuiltToLast <==> forall i :: 0 <= i < |raw| ==> !raw[i].showInEditor
  {
    var fails: seq<ModuleInfo> := [];
    var i := 0;
    while i < |raw|
      invariant 0 <= i <= |raw|
      invariant fails == Shown(raw[..i])
    {
      var fm := raw[i];
      if fm.showInEditor {
        fails := fails + [fm];
      }
      TakeSnoc(raw, i);
      i := i + 1;
    }
    assert raw[..i] == raw;
    BuiltToLastIffNothingShown(raw);
    if |fails| == 0 {
      return BuiltToLast;
    }
    var sb: seq<string> := [];
    var k := 0;
    while k < |fails|
      invariant 0 <= k <= |fails|
      invariant sb == Flatten(BlockList(fails[..k]))
    {
      var fm := fails[k];
      sb := AppendBlock(sb, fm);
      BlockListSnoc(fails, k);
      FlattenSnoc(BlockList(fails[..k]), Block(fm));
      k := k + 1;
    }
    assert fails[..k] == fails;
    info := Text.JoinLines(sb);
  }
}
