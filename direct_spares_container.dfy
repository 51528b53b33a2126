/**
 * The oldest spares container (ModuleSparesContainer.cs): the amounts of both SpareParts
 * resources are updated directly, so a transfer always conserves the total.
 */
module DirectSparesContainer {
  import opened Wrappers
  import opened Resources
  import opened SparesTransfer
  import LegacyStatic

  /** DangIt.Spares.MaxEvaAmount and DangIt.Spares.Increment. */
  const MaxEvaAmount: real := LegacyStatic.SparesMaxEvaAmount
  const Increment: real := LegacyStatic.SparesIncrement


  /**
   * FillEvaSuit on values: the SpareParts resource is added when missing; amountTaken is
   * subtracted from the container and added to the suit. A container without spares
   * throws after the resource has been added.
   */
  function Fill(suit: seq<Resource>, container: seq<Resource>): Transfer
  {
    var prepared := WithSpares(suit, MaxEvaAmount);
    var i := IndexOf(prepared, SparesName);
    var c := IndexOf(container, SparesName);
    if c < 0 then Transfer(prepared, container, Err(NullReference))
    else
      var taken := FillAmount(prepared[i].amount, MaxEvaAmount, Increment, container[c].amount);
      Transfer(prepared[i := prepared[i].(amount := prepared[i].amount + taken)],
               container[c := container[c].(amount := container[c].amount - taken)], Ok(taken))
  }

  /**
   * Whenever the container has spares, a fill moves exactly what it reports: the total is
   * conserved whatever the amounts; from a suit within MaxEvaAmount (or without spares)
   * and a non-negative container the amount is between 0 and Increment and both stay
   * within their bounds.
   */
  lemma FillConserves(suit: seq<Resource>, container: seq<Resource>)
    requires HasSpares(container)
    ensures var t := Fill(suit, container);
      && t.outcome.Ok? && HasSpares(t.suit) && HasSpares(t.container)
      && Spares(t.suit).amount == (if HasSpares(suit) then Spares(suit).amount else 0.0) + t.outcome.value
      && Spares(t.container).amount == Spares(container).amount - t.outcome.value
      && ((HasSpares(suit) ==> 0.0 <= Spares(suit).amount <= MaxEvaAmount) && 0.0 <= Spares(container).amount ==>
            0.0 <= t.outcome.value <= Increment && Spares(t.suit).amount <= MaxEvaAmount && 0.0 <= Spares(t.container).amount)
  {
    var prepared := WithSpares(suit, MaxEvaAmount);
    var i := IndexOf(prepared, SparesName);
    var c := IndexOf(container, SparesName);
    assert prepared[i].amount == (if HasSpares(suit) then Spares(suit).amount else 0.0);
    var taken := FillAmount(prepared[i].amount, MaxEvaAmount, Increment, container[c].amount);
    var t := Fill(suit, container);
    assert t.suit == prepared[i := prepared[i].(amount := prepared[i].amount + taken)];
    assert t.container == container[c := container[c].(amount := container[c].amount - taken)];
    SparesAmountUpdate(prepared, prepared[i].amount + taken);
    SparesAmountUpdate(container, container[c].amount - taken);
  }

  /**
   * A fill adds a SpareParts resource (amount 0, capacity MaxEvaAmount) after the suit's
   * other resources when it has none, changes no other resource of either part, and
   * throws exactly when the container has no spares, leaving the container as it was.
   */
  lemma FillTouchesOnlySpares(suit: seq<Resource>, container: seq<Resource>)
    ensures var t := Fill(suit, container);
      && (HasSpares(suit) ==> |t.suit| == |suit| && IndexOf(t.suit, SparesName) == IndexOf(suit, SparesName))
      && (!HasSpares(suit) ==> |t.suit| == |suit| + 1 && t.suit[..|suit|] == suit
                                && t.suit[|suit|].resourceName == SparesName && t.suit[|suit|].maxAmount == MaxEvaAmount)
      && (forall j :: 0 <= j < |suit| && j != IndexOf(suit, SparesName) ==> t.suit[j] == suit[j])
      && |t.container| == |container|
      && (forall j :: 0 <= j < |container| && j != IndexOf(container, SparesName) ==> t.container[j] == container[j])
      && (t.outcome.Err? <==> !HasSpares(container))
      && (t.outcome.Err? ==> t.outcome.message == NullReference && t.container == container)
  {
    var prepared := WithSpares(suit, MaxEvaAmount);
    var i := IndexOf(prepared, SparesName);
    var c := IndexOf(container, SparesName);
    var t := Fill(suit, container);
    if c >= 0 {
      var taken := FillAmount(prepared[i].amount, MaxEvaAmount, Increment, container[c].amount);
      assert t.suit == prepared[i := prepared[i].(amount := prepared[i].amount + taken)];
      SparesAmountUpdate(prepared, prepared[i].amount + taken);
      if !HasSpares(suit) {
        assert t.suit[..|suit|] == prepared[..|suit|];
      }
    }
  }

  /**
   * EmptyEvaSuit on values: the deposit is added to the container and subtracted from the
   * suit; a container or a suit without spares throws.
   */
  function Empty(suit: seq<Resource>, container: seq<Resource>): Transfer
  {
    var c := IndexOf(container, SparesName);
    var e := IndexOf(suit, SparesName);
    if c < 0 || e < 0 then Transfer(suit, container, Err(NullReference))
    else
      var deposit := DepositAmount(suit[e].amount, container[c].amount, container[c].maxAmount);
      Transfer(suit[e := suit[e].(amount := suit[e].amount - deposit)],
               container[c := container[c].(amount := container[c].amount + deposit)], Ok(deposit))
  }

  /**
   * With both spares present an empty moves exactly what it reports, so the total is
   * conserved whatever the amounts; the container never ends above its capacity, and from
   * amounts within range the deposit is non-negative and the suit stays non-negative.
   */
  lemma EmptyConserves(suit: seq<Resource>, container: seq<Resource>)
    requires HasSpares(suit) && HasSpares(container)
    ensures var t := Empty(suit, container);
      && t.outcome.Ok? && HasSpares(t.suit) && HasSpares(t.container)
      && Spares(t.suit).amount == Spares(suit).amount - t.outcome.value
      && Spares(t.container).amount == Spares(container).amount + t.outcome.value
      && Spares(t.container).amount <= Spares(t.container).maxAmount
      && (0.0 <= Spares(suit).amount && InRange(Spares(container)) ==>
            0.0 <= t.outcome.value && 0.0 <= Spares(t.suit).amount && InRange(Spares(t.container)))
  {
    var c := IndexOf(container, SparesName);
    var e := IndexOf(suit, SparesName);
    var deposit := DepositAmount(suit[e].amount, container[c].amount, container[c].maxAmount);
    var t := Empty(suit, container);
    assert t.suit == suit[e := suit[e].(amount := suit[e].amount - deposit)];
    assert t.container == container[c := container[c].(amount := container[c].amount + deposit)];
    SparesAmountUpdate(suit, suit[e].amount - deposit);
    SparesAmountUpdate(container, container[c].amount + deposit);
  }

  /** A suit or container without spares makes the empty throw without changing anything. */
  lemma EmptyWithoutSpares(suit: seq<Resource>, container: seq<Resource>)
    requires !HasSpares(suit) || !HasSpares(container)
    ensures Empty(suit, container) == Transfer(suit, container, Err(NullReference))
  {
  }

  /** The ModuleSparesContainer part module. */
  class ModuleSparesContainer {
    const part: Part
    var eventAdded: bool
    var depositPartsActive: bool
    /** How many times OnCrewBoardVessel is registered with GameEvents.onCrewBoardVessel. */
    var boardHandlers: nat

    /** The boarding handler is registered once exactly while eventAdded is set. */
    predicate Valid()
      reads this
    {
      boardHandlers == if eventAdded then 1 else 0
    }

    /** The module as loaded: DepositParts hidden, no handler registered. */
    constructor(part: Part)
      ensures this.part == part && Valid()
      ensures !eventAdded && !depositPartsActive && boardHandlers == 0
    {
      this.part := part;
      eventAdded := false;
      depositPartsActive := false;
      boardHandlers := 0;
    }

    /** FillEvaSuit, step by step on the two parts. */
    method FillEvaSuit(evaPart: Part, container: Part) returns (r: Result<real>)
      requires evaPart != container
      modifies evaPart, container
      ensures var t := Fill(old(evaPart.resources), old(container.resources));
        evaPart.resources == t.suit && container.resources == t.container && r == t.outcome
    {
      if !evaPart.Contains(SparesName) {
        evaPart.AddResource(SparesName, MaxEvaAmount, 0.0);
      }
      assert evaPart.resources == WithSpares(old(evaPart.resources), MaxEvaAmount);
      var i := IndexOf(evaPart.resources, SparesName);
      var desired := Min(MaxEvaAmount - evaPart.resources[i].amount, Increment);
      var c := IndexOf(container.resources, SparesName);
      if c < 0 {
        return Err(NullReference);
      }
      var amountTaken := Min(desired, container.resources[c].amount);
      container.resources := container.resources[c := container.resources[c].(amount := container.resources[c].amount - amountTaken)];
      evaPart.resources := evaPart.resources[i := evaPart.resources[i].(amount := evaPart.resources[i].amount + amountTaken)];
      r := Ok(amountTaken);
    }

    /** EmptyEvaSuit, step by step on the two parts. */
    method EmptyEvaSuit(evaPart: Part, container: Part) returns (r: Result<real>)
      requires evaPart != container
      modifies evaPart, container
      ensures var t := Empty(old(evaPart.resources), old(container.resources));
        evaPart.resources == t.suit && container.resources == t.container && r == t.outcome
    {
      var c := IndexOf(container.resources, SparesName);
      if c < 0 {
        return Err(NullReference);
      }
      var capacity := container.resources[c].maxAmount - container.resources[c].amount;
      var e := IndexOf(evaPart.resources, SparesName);
      if e < 0 {
        return Err(NullReference);
      }
      var deposit := Min(evaPart.resources[e].amount, capacity);
      container.resources := container.resources[c := container.resources[c].(amount := container.resources[c].amount + deposit)];
      evaPart.resources := evaPart.resources[e := evaPart.resources[e].(amount := evaPart.resources[e].amount - deposit)];
      r := Ok(deposit);
    }

    /**
     * TakeParts. `evaPart` is what FindEVA returned. Without an EVA only a log line is
     * written; otherwise the suit is filled from this part. Unless the fill threw,
     * DepositParts is shown and the boarding handler registered if it was not.
     */
    method TakeParts(evaPart: Part?) returns (r: Result<()>)
      requires Valid() && evaPart != part
      modifies this, evaPart, part
      ensures Valid()
      ensures evaPart == null ==> r == Ok(()) && unchanged(part)
      ensures evaPart != null ==>
        var t := Fill(old(evaPart.resources), old(part.resources));
        && evaPart.resources == t.suit && part.resources == t.container
        && (t.outcome.Err? ==> r == Err(t.outcome.message) && unchanged(this))
        && (t.outcome.Ok? <==> r.Ok?)
      ensures r.Ok? ==> depositPartsActive && eventAdded && boardHandlers == 1
    {
      if evaPart != null {
        var filled := FillEvaSuit(evaPart, part);
        if filled.Err? {
          return Err(filled.message);
        }
      }
      depositPartsActive := true;
      if !eventAdded {
        boardHandlers := boardHandlers + 1;
        eventAdded := true;
      }
      r := Ok(());
    }

    /**
     * DepositParts. Without an EVA only a log line is written; otherwise the suit is
     * emptied into this part. Unless the empty threw, DepositParts is hidden and the
     * boarding handler unregistered.
     */
    method DepositParts(evaPart: Part?) returns (r: Result<()>)
      requires Valid() && evaPart != part
      modifies this, evaPart, part
      ensures Valid()
      ensures evaPart == null ==> r == Ok(()) && unchanged(part)
      ensures evaPart != null ==>
        var t := Empty(old(evaPart.resources), old(part.resources));
        && evaPart.resources == t.suit && part.resources == t.container
        && (t.outcome.Err? ==> r == Err(t.outcome.message) && unchanged(this))
        && (t.outcome.Ok? <==> r.Ok?)
      ensures r.Ok? ==> !depositPartsActive && !eventAdded && boardHandlers == 0
    {
      if evaPart != null {
        var emptied := EmptyEvaSuit(evaPart, part);
        if emptied.Err? {
          return Err(emptied.message);
        }
      }
      depositPartsActive := false;
      boardHandlers := if boardHandlers > 0 then boardHandlers - 1 else 0;
      eventAdded := false;
      r := Ok(());
    }

    /** OnCrewBoardVessel: the suit of the kerbal boarding `to` is emptied into it when it holds spares. */
    method OnCrewBoardVessel(from: Part, to: Part) returns (r: Result<()>)
      requires from != to
      modifies from, to
      ensures !HasSpares(old(from.resources)) ==> r == Ok(()) && unchanged(from) && unchanged(to)
      ensures HasSpares(old(from.resources)) ==>
        var t := Empty(old(from.resources), old(to.resources));
        && from.resources == t.suit && to.resources == t.container
        && (r.Ok? <==> t.outcome.Ok?)
    {
      if from.Contains(SparesName) {
        var emptied := EmptyEvaSuit(from, to);
        r := if emptied.Ok? then Ok(()) else Err(emptied.message);
      } else {
        r := Ok(());
      }
    }
  }
}
