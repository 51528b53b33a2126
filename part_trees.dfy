/**
 * The part tree of a vessel as the glow and failure-count code sees it: each part
 * carries its modules, its child parts and its highlight state.
 */
module PartTrees {
  /** What the traversals look at in a part module. */
  datatype PartModule =
    | FailureModule(name: string, hasFailed: bool, silent: bool)  // a FailureModule subclass
    | BaseFailure(hasFailed: bool)                                // the oldest generation's ModuleBaseFailure
    | OtherModule(name: string)

  /** SetHighlightDefault, or the red, always-on highlight of a failed part. */
  datatype Highlight = DefaultHighlight | FailedRed

  datatype Part = Part(modules: seq<PartModule>, children: seq<Part>, highlight: Highlight)

  /** part.Modules.OfType<FailureModule>(): the FailureModules, in module order. */
  function FailureModulesOf(modules: seq<PartModule>): (r: seq<PartModule>)
    ensures forall j :: 0 <= j < |r| ==> r[j].FailureModule?
    ensures forall m :: m in r <==> m in modules && m.FailureModule?
  {
    if modules == [] then []
    else (if modules[0].FailureModule? then [modules[0]] else []) + FailureModulesOf(modules[1..])
  }

  /** part.Modules.OfType<ModuleBaseFailure>(), in module order. */
  function BaseFailuresOf(modules: seq<PartModule>): (r: seq<PartModule>)
    ensures forall j :: 0 <= j < |r| ==> r[j].BaseFailure?
    ensures forall m :: m in r <==> m in modules && m.BaseFailure?
  {
    if modules == [] then []
    else (if modules[0].BaseFailure? then [modules[0]] else []) + BaseFailuresOf(modules[1..])
  }

  /** Which failure makes a part glow red. */
  datatype GlowRule =
    | VisibleFailureRule(glowOn: bool)  // Glow setting on and some FailureModule failed and is not silent
    | BaseFailureRule                   // some ModuleBaseFailure has failed, settings ignored

  predicate VisibleFailure(m: PartModule)
  {
    m.FailureModule? && m.hasFailed && !m.silent
  }

  /** Whether a part with these modules ends up red under the rule. */
  predicate Red(rule: GlowRule, modules: seq<PartModule>)
  {
    match rule
    case VisibleFailureRule(glowOn) =>
      glowOn && exists i :: 0 <= i < |modules| && VisibleFailure(modules[i])
    case BaseFailureRule =>
      exists i :: 0 <= i < |modules| && modules[i].BaseFailure? && modules[i].hasFailed
  }

  function HighlightFor(rule: GlowRule, modules: seq<PartModule>): Highlight
  {
    if Red(rule, modules) then FailedRed else DefaultHighlight
  }

  /** The tree after the glow reset: every part re-highlighted by the rule, nothing else changed. */
  function Glowed(p: Part, rule: GlowRule): Part
  {
    Part(p.modules, seq(|p.children|, i requires 0 <= i < |p.children| => Glowed(p.children[i], rule)),
      HighlightFor(rule, p.modules))
  }

  /** The tree with every highlight back to default: its parts and modules alone. */
  function Unlit(p: Part): Part
  {
    Part(p.modules, seq(|p.children|, i requires 0 <= i < |p.children| => Unlit(p.children[i])), DefaultHighlight)
  }

  /** Every part of the tree carries the highlight the rule gives its modules. */
  predicate GlowMatches(p: Part, rule: GlowRule)
  {
    p.highlight == HighlightFor(rule, p.modules) &&
    forall i :: 0 <= i < |p.children| ==> GlowMatches(p.children[i], rule)
  }

  /** No part of the tree is red. */
  predicate NoneRed(p: Part)
  {
    p.highlight == DefaultHighlight && forall i :: 0 <= i < |p.children| ==> NoneRed(p.children[i])
  }

  /** The glow reset visits every part: each one matches the rule, and the parts are the same. */
  lemma {:induction false} GlowedMatches(p: Part, rule: GlowRule)
    ensures GlowMatches(Glowed(p, rule), rule)
    ensures Unlit(Glowed(p, rule)) == Unlit(p)
    decreases p
  {
    var g := Glowed(p, rule);
    forall i | 0 <= i < |p.children|
      ensures GlowMatches(g.children[i], rule) && Unlit(g.children[i]) == Unlit(p.children[i])
    {
      GlowedMatches(p.children[i], rule);
    }
    assert Unlit(g).children == Unlit(p).children;
  }

  /** Conversely, a tree of the same parts whose highlights all match the rule is the reset tree. */
  lemma {:induction false} MatchingIsGlowed(p: Part, q: Part, rule: GlowRule)
    requires GlowMatches(q, rule) && Unlit(q) == Unlit(p)
    ensures q == Glowed(p, rule)
    decreases p
  {
    assert |q.children| == |Unlit(q).children| == |p.children|;
    forall i | 0 <= i < |p.children|
      ensures q.children[i] == Glowed(p.children[i], rule)
    {
      assert Unlit(q.children[i]) == Unlit(q).children[i] == Unlit(p.children[i]);
      MatchingIsGlowed(p.children[i], q.children[i], rule);
    }
  }

  /** Resetting the glow twice is the same as once. */
  lemma GlowedIdempotent(p: Part, rule: GlowRule)
    ensures Glowed(Glowed(p, rule), rule) == Glowed(p, rule)
  {
    GlowedMatches(p, rule);
    GlowedMatches(Glowed(p, rule), rule);
    MatchingIsGlowed(p, Glowed(Glowed(p, rule), rule), rule);
  }

  /** With the Glow setting off, no part of the tree ends up red. */
  lemma {:induction false} GlowOffNoneRed(p: Part)
    ensures NoneRed(Glowed(p, VisibleFailureRule(false)))
    decreases p
  {
    var g := Glowed(p, VisibleFailureRule(false));
    forall i | 0 <= i < |p.children|
      ensures NoneRed(g.children[i])
    {
      GlowOffNoneRed(p.children[i]);
    }
  }
}
