/**
 * The pieces every generation's spares container shares: the amount a "Take spares"
 * moves into the EVA suit, the amount a "Deposit spares" moves back, and the preparation
 * of the suit's SpareParts resource before a fill.
 */
module SparesTransfer {
  import opened Wrappers
  import opened Resources

  /** Spares.Name in every generation. */
  const SparesName := "SpareParts"

  /**
   * The outcome of a fill or an empty: the EVA suit's resources, the container's
   * resources, and the amount moved or the exception thrown.
   */
  datatype Transfer = Transfer(suit: seq<Resource>, container: seq<Resource>, outcome: Result<real>)

  /**
   * amountTaken: the room left in the suit, at most one increment, at most what the
   * container holds. From a suit within MaxEvaAmount and a non-negative container, the
   * amount is between 0 and the increment and leaves both within their bounds.
   */
  function FillAmount(evaAmount: real, maxEvaAmount: real, increment: real, containerAmount: real): (taken: real)
    ensures taken <= maxEvaAmount - evaAmount && taken <= increment && taken <= containerAmount
    ensures taken == maxEvaAmount - evaAmount || taken == increment || taken == containerAmount
    ensures 0.0 <= evaAmount <= maxEvaAmount && 0.0 <= containerAmount && 0.0 <= increment ==>
      0.0 <= taken <= increment && evaAmount + taken <= maxEvaAmount && containerAmount - taken >= 0.0
  {
    Min(Min(maxEvaAmount - evaAmount, increment), containerAmount)
  }

  /**
   * deposit: what the suit holds, at most the container's free capacity. From amounts
   * within range, the suit does not go negative and the container does not overflow.
   */
  function DepositAmount(evaAmount: real, containerAmount: real, containerMax: real): (deposit: real)
    ensures deposit <= evaAmount && deposit <= containerMax - containerAmount
    ensures deposit == evaAmount || deposit == containerMax - containerAmount
    ensures 0.0 <= evaAmount && 0.0 <= containerAmount <= containerMax ==>
      0.0 <= deposit && evaAmount - deposit >= 0.0 && containerAmount + deposit <= containerMax
  {
    Min(evaAmount, containerMax - containerAmount)
  }

  predicate HasSpares(resources: seq<Resource>)
  {
    IndexOf(resources, SparesName) >= 0
  }

  /** Resources[Spares.Name]: the first SpareParts resource. */
  function Spares(resources: seq<Resource>): Resource
    requires HasSpares(resources)
  {
    resources[IndexOf(resources, SparesName)]
  }

  /** Setting the amount of the first SpareParts resource keeps it the first one, with that amount. */
  lemma SparesAmountUpdate(rs: seq<Resource>, a: real)
    requires HasSpares(rs)
    ensures var i := IndexOf(rs, SparesName);
      var u := rs[i := rs[i].(amount := a)];
      HasSpares(u) && IndexOf(u, SparesName) == i && Spares(u) == rs[i].(amount := a)
  {
    var i := IndexOf(rs, SparesName);
    IndexOfSameNames(rs, rs[i := rs[i].(amount := a)], SparesName);
  }

  /** The suit's resources with a SpareParts resource (amount 0, capacity maxEvaAmount) appended when it has none. */
  function WithSpares(suit: seq<Resource>, maxEvaAmount: real): (r: seq<Resource>)
    ensures IndexOf(suit, SparesName) >= 0 ==> r == suit
    ensures IndexOf(suit, SparesName) < 0 ==>
      r == suit + [Resource(SparesName, 0.0, maxEvaAmount, Both)] && IndexOf(r, SparesName) == |suit|
    ensures IndexOf(r, SparesName) >= 0
  {
    if IndexOf(suit, SparesName) >= 0 then suit
    else
      var r := suit + [Resource(SparesName, 0.0, maxEvaAmount, Both)];
      IndexOfAppended(suit, Resource(SparesName, 0.0, maxEvaAmount, Both));
      r
  }

  /** The capacity of the suit's SpareParts resource raised to maxEvaAmount when it is lower; never lowered. */
  function Raised(suit: seq<Resource>, maxEvaAmount: real): (r: seq<Resource>)
    requires IndexOf(suit, SparesName) >= 0
    ensures |r| == |suit| && IndexOf(r, SparesName) == IndexOf(suit, SparesName)
    ensures var i := IndexOf(suit, SparesName);
      && r[i].maxAmount >= maxEvaAmount && r[i].maxAmount >= suit[i].maxAmount
      && (suit[i].maxAmount >= maxEvaAmount ==> r == suit)
      && r == suit[i := suit[i].(maxAmount := r[i].maxAmount)]
  {
    var i := IndexOf(suit, SparesName);
    if suit[i].maxAmount < maxEvaAmount then
      var r := suit[i := suit[i].(maxAmount := maxEvaAmount)];
      IndexOfSameNames(suit, r, SparesName);
      r
    else suit
  }

  /**
   * The suit as a fill prepares it: it holds a SpareParts resource with the same amount
   * (0 when it was appended), a capacity of at least maxEvaAmount that was never lowered,
   * and every other resource unchanged.
   */
  lemma PreparedSuit(suit: seq<Resource>, maxEvaAmount: real)
    ensures var p := Raised(WithSpares(suit, maxEvaAmount), maxEvaAmount);
      && HasSpares(p) && Spares(p).maxAmount >= maxEvaAmount
      && Spares(p).amount == (if HasSpares(suit) then Spares(suit).amount else 0.0)
      && (HasSpares(suit) ==>
            |p| == |suit| && IndexOf(p, SparesName) == IndexOf(suit, SparesName)
            && Spares(p).maxAmount >= Spares(suit).maxAmount)
      && (!HasSpares(suit) ==>
            |p| == |suit| + 1 && p[..|suit|] == suit && IndexOf(p, SparesName) == |suit| && Spares(p).maxAmount == maxEvaAmount)
      && (forall j :: 0 <= j < |p| && j != IndexOf(p, SparesName) ==> j < |suit| && p[j] == suit[j])
  {
    var w := WithSpares(suit, maxEvaAmount);
    var p := Raised(w, maxEvaAmount);
    if HasSpares(suit) {
      assert w == suit;
    } else {
      assert w[..|suit|] == suit;
      assert p[..|suit|] == w[..|suit|];
    }
  }

  /**
   * The first steps of a fill that raises the capacity, on the suit's part: the SpareParts
   * resource is added when missing, then its capacity raised to maxEvaAmount when lower.
   * Returns the position of the resource.
   */
  method PrepareSuit(evaPart: Part, maxEvaAmount: real) returns (i: int)
    modifies evaPart
    ensures evaPart.resources == Raised(WithSpares(old(evaPart.resources), maxEvaAmount), maxEvaAmount)
    ensures i == IndexOf(evaPart.resources, SparesName) && 0 <= i < |evaPart.resources|
  {
    if !evaPart.Contains(SparesName) {
      evaPart.AddResource(SparesName, maxEvaAmount, 0.0);
    }
    assert evaPart.resources == WithSpares(old(evaPart.resources), maxEvaAmount);
    i := IndexOf(evaPart.resources, SparesName);
    if evaPart.resources[i].maxAmount < maxEvaAmount {
      evaPart.resources := evaPart.resources[i := evaPart.resources[i].(maxAmount := maxEvaAmount)];
    }
  }
}
