/** The public API's failure count over a vessel's part tree (DangIt/API/API.cs). */
module Api {
  import opened Wrappers
  import opened PartTrees
  import opened Vessels

  /** The number of failed FailureModules in a module list, counted from the end. */
  function CountFailed(modules: seq<PartModule>): nat
  {
    if modules == [] then 0
    else CountFailed(modules[..|modules| - 1]) + (if modules[|modules| - 1].FailureModule? && modules[|modules| - 1].hasFailed then 1 else 0)
  }

  function Sum(xs: seq<nat>): nat
  {
    if xs == [] then 0 else Sum(xs[..|xs| - 1]) + xs[|xs| - 1]
  }

  /** The failed FailureModules of a part and of all the parts below it. */
  function FailureCount(p: Part): nat
  {
    CountFailed(p.modules) + Sum(seq(|p.children|, i requires 0 <= i < |p.children| => FailureCount(p.children[i])))
  }

  /** No FailureModule anywhere in the tree has failed. */
  predicate NoFailure(p: Part)
  {
    (forall j :: 0 <= j < |p.modules| ==> !(p.modules[j].FailureModule? && p.modules[j].hasFailed)) &&
    (forall i :: 0 <= i < |p.children| ==> NoFailure(p.children[i]))
  }

  lemma {:induction false} CountFailedZero(modules: seq<PartModule>)
    ensures CountFailed(modules) == 0 <==> forall j :: 0 <= j < |modules| ==> !(modules[j].FailureModule? && modules[j].hasFailed)
  {
    if modules != [] {
      CountFailedZero(modules[..|modules| - 1]);
    }
  }

  lemma {:induction false} SumZero(xs: seq<nat>)
    ensures Sum(xs) == 0 <==> forall i :: 0 <= i < |xs| ==> xs[i] == 0
  {
    if xs != [] {
      SumZero(xs[..|xs| - 1]);
    }
  }

  /** The count is zero exactly when no module of the tree has failed. */
  lemma {:induction false} FailureCountZero(p: Part)
    ensures FailureCount(p) == 0 <==> NoFailure(p)
    decreases p
  {
    var counts := seq(|p.children|, i requires 0 <= i < |p.children| => FailureCount(p.children[i]));
    CountFailedZero(p.modules);
    SumZero(counts);
    forall i | 0 <= i < |p.children|
      ensures counts[i] == 0 <==> NoFailure(p.children[i])
    {
      FailureCountZero(p.children[i]);
    }
  }

  /** The OfType<FailureModule> filter leaves the count of failed FailureModules unchanged. */
  lemma {:induction false} CountFailedFiltered(modules: seq<PartModule>)
    ensures CountFailed(FailureModulesOf(modules)) == CountFailed(modules)
  {
    if modules != [] {
      var rest := modules[1..];
      CountFailedFiltered(rest);
      CountFailedCons(modules[0], rest);
      var head := if modules[0].FailureModule? then [modules[0]] else [];
      assert FailureModulesOf(modules) == head + FailureModulesOf(rest);
      CountFailedConcat(head, FailureModulesOf(rest));
      assert modules == [modules[0]] + rest;
    }
  }

  lemma {:induction false} CountFailedConcat(a: seq<PartModule>, b: seq<PartModule>)
    ensures CountFailed(a + b) == CountFailed(a) + CountFailed(b)
    decreases |b|
  {
    if b != [] {
      assert (a + b)[..|a + b| - 1] == a + b[..|b| - 1];
      CountFailedConcat(a, b[..|b| - 1]);
    } else {
      assert a + b == a;
    }
  }

  lemma CountFailedCons(m: PartModule, rest: seq<PartModule>)
    ensures CountFailed([m] + rest) == (if m.FailureModule? && m.hasFailed then 1 else 0) + CountFailed(rest)
  {
    CountFailedConcat([m], rest);
    assert [m][..0] == [];
  }

  /** CountFailuresRecursive: the part's failed FailureModules, then each child's count added in turn. */
  method CountFailuresRecursive(part: Part) returns (counter: nat)
    ensures counter == FailureCount(part)
    decreases part
  {
    counter := 0;
    var fms := FailureModulesOf(part.modules);
    for i := 0 to |fms|
      invariant counter == CountFailed(fms[..i])
    {
      CountFailedStep(fms, i);
      if fms[i].hasFailed {
        counter := counter + 1;
      }
    }
    var own := counter;
    var counts := ChildCounts(part);
    for k := 0 to |part.children|
      invariant counter == own + Sum(counts[..k])
    {
      var c := CountFailuresRecursive(part.children[k]);
      SumStep(counts, k);
      counter := counter + c;
    }
    OwnAndChildren(part, own);
  }

  /** The counts of the part's children, in order. */
  function ChildCounts(p: Part): (counts: seq<nat>)
    ensures |counts| == |p.children|
    ensures forall i :: 0 <= i < |p.children| ==> counts[i] == FailureCount(p.children[i])
  {
    seq(|p.children|, i requires 0 <= i < |p.children| => FailureCount(p.children[i]))
  }

  /** One more FailureModule in the counting loop. */
  lemma CountFailedStep(fms: seq<PartModule>, i: int)
    requires 0 <= i < |fms| && forall j :: 0 <= j < |fms| ==> fms[j].FailureModule?
    ensures CountFailed(fms[..i + 1]) == CountFailed(fms[..i]) + (if fms[i].hasFailed then 1 else 0)
  {
    assert fms[..i + 1][..i] == fms[..i];
  }

  /** One more child in the summing loop. */
  lemma SumStep(xs: seq<nat>, k: int)
    requires 0 <= k < |xs|
    ensures Sum(xs[..k + 1]) == Sum(xs[..k]) + xs[k]
  {
    assert xs[..k + 1][..k] == xs[..k];
  }

  /** The part's own failed modules, counted over the FailureModules, plus its children's counts make its count. */
  lemma OwnAndChildren(part: Part, own: nat)
    requires own == CountFailed(FailureModulesOf(part.modules)[..|FailureModulesOf(part.modules)|])
    ensures own + Sum(ChildCounts(part)[..|part.children|]) == FailureCount(part)
  {
    var fms := FailureModulesOf(part.modules);
    assert fms[..|fms|] == fms;
    CountFailedFiltered(part.modules);
    assert ChildCounts(part)[..|part.children|] == ChildCounts(part);
  }

  /** CountFailures: the count over the vessel's root part; a vessel without one throws. */
  method CountFailures(v: Vessel<Part>) returns (r: Result<nat>)
    ensures v.rootPart.None? ==> r.Err?
    ensures v.rootPart.Some? ==> r == Ok(FailureCount(v.rootPart.value))
  {
    if v.rootPart.None? {
      return Err(NullReference);
    }
    var n := CountFailuresRecursive(v.rootPart.value);
    r := Ok(n);
  }
}
