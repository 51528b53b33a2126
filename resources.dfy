/**
 * A part's resources as the failure modules and the spares containers use them: the
 * PartResource records (name, amount, capacity and flow mode) held by a part, the lookup
 * by name, and RequestResource on the part itself.
 */
module Resources {
  /** PartResource.FlowMode. */
  datatype FlowMode = NoFlow | Out | In | Both

  /** A PartResource; it is updated in place through its position in the part's list. */
  datatype Resource = Resource(resourceName: string, amount: real, maxAmount: real, flowMode: FlowMode)

  /** An amount within the capacity. */
  predicate InRange(r: Resource)
  {
    0.0 <= r.amount <= r.maxAmount
  }

  function Min(a: real, b: real): (m: real)
    ensures m <= a && m <= b && (m == a || m == b)
  {
    if a <= b then a else b
  }

  /** The position of the first resource with that name, or -1 (Resources.Contains and the name indexer). */
  function IndexOf(resources: seq<Resource>, name: string): (i: int)
    ensures -1 <= i < |resources|
    ensures i >= 0 ==> resources[i].resourceName == name
  {
    if resources == [] then -1
    else if resources[0].resourceName == name then 0
    else
      var k := IndexOf(resources[1..], name);
      if k < 0 then -1 else k + 1
  }

  /** The position found is the first with that name, and -1 means that no resource has the name. */
  lemma {:induction false} IndexOfFirst(resources: seq<Resource>, name: string)
    ensures var i := IndexOf(resources, name);
      i >= 0 ==> forall j :: 0 <= j < i ==> resources[j].resourceName != name
    ensures IndexOf(resources, name) < 0 <==> forall j :: 0 <= j < |resources| ==> resources[j].resourceName != name
  {
    if resources != [] && resources[0].resourceName != name {
      IndexOfFirst(resources[1..], name);
      assert forall j :: 1 <= j < |resources| ==> resources[j] == resources[1..][j - 1];
    }
  }

  /** A resource appended to a list without that name is found at its end. */
  lemma {:induction false} IndexOfAppended(resources: seq<Resource>, r: Resource)
    requires IndexOf(resources, r.resourceName) < 0
    ensures IndexOf(resources + [r], r.resourceName) == |resources|
  {
    if resources != [] {
      assert (resources + [r])[1..] == resources[1..] + [r];
      IndexOfAppended(resources[1..], r);
    }
  }

  /** Only the names decide the lookup, so changing amounts, capacities or flow modes keeps every position. */
  lemma {:induction false} IndexOfSameNames(a: seq<Resource>, b: seq<Resource>, name: string)
    requires |a| == |b| && forall j :: 0 <= j < |a| ==> a[j].resourceName == b[j].resourceName
    ensures IndexOf(a, name) == IndexOf(b, name)
  {
    if a != [] {
      IndexOfSameNames(a[1..], b[1..], name);
    }
  }

  /**
   * What RequestResource takes from one resource: a positive demand drains at most the
   * amount held, a negative one fills at most the free capacity (and counts negative).
   */
  function Taken(r: Resource, demand: real): (taken: real)
    ensures InRange(r) && demand >= 0.0 ==> 0.0 <= taken <= demand && taken <= r.amount
    ensures InRange(r) && demand < 0.0 ==> demand <= taken <= 0.0 && r.amount - taken <= r.maxAmount
    ensures demand >= 0.0 && demand <= r.amount ==> taken == demand
    ensures demand < 0.0 && r.amount - demand <= r.maxAmount ==> taken == demand
  {
    if demand >= 0.0 then Min(demand, r.amount) else -Min(-demand, r.maxAmount - r.amount)
  }

  /** A request keeps an amount that was within the capacity within it. */
  lemma TakenKeepsRange(r: Resource, demand: real)
    requires InRange(r)
    ensures InRange(r.(amount := r.amount - Taken(r, demand)))
  {
  }

  /** A part and its resource list (Part.Resources). */
  class Part {
    var resources: seq<Resource>

    constructor(resources: seq<Resource>)
      ensures this.resources == resources
    {
      this.resources := resources;
    }

    /** Resources.Contains(name). */
    predicate Contains(name: string)
      reads this
    {
      IndexOf(resources, name) >= 0
    }

    /**
     * RequestResource, on this part only: the first resource with the name gives what
     * Taken allows, and that amount is returned; without such a resource nothing moves.
     */
    method RequestResource(name: string, demand: real) returns (taken: real)
      modifies this
      ensures var i := IndexOf(old(resources), name);
        && (i < 0 ==> taken == 0.0 && resources == old(resources))
        && (i >= 0 ==> taken == Taken(old(resources)[i], demand)
                       && resources == old(resources)[i := old(resources)[i].(amount := old(resources)[i].amount - taken)])
    {
      var i := IndexOf(resources, name);
      if i < 0 {
        return 0.0;
      }
      taken := Taken(resources[i], demand);
      resources := resources[i := resources[i].(amount := resources[i].amount - taken)];
    }

    /** Resources.Add of a RESOURCE node: the new resource is appended. */
    method AddResource(name: string, maxAmount: real, amount: real)
      modifies this
      ensures resources == old(resources) + [Resource(name, amount, maxAmount, Both)]
    {
      resources := resources + [Resource(name, amount, maxAmount, Both)];
    }
  }
}
