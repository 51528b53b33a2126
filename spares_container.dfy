/**
 * The newest generation's spares container (DangIt/Maintenance/SparesContainer.cs): the
 * "Take spares" and "Deposit spares" events that move spare parts between the container
 * and the EVA kerbal's suit, and the boarding handler that empties the suit into the
 * vessel the kerbal boards.
 */
module SparesContainer {
  import opened Wrappers
  import opened Resources
  import opened SparesTransfer

  /** Spares.MaxEvaAmount and Spares.MinIncrement of this generation (DangIt/Runtime/SparesInfo.cs). */
  const MaxEvaAmount: real := 15.0
  const MinIncrement: real := 1.0

  const NoEvaMessage := "ERROR: couldn't find an active EVA!"

  /**
   * FillEvaSuit on values: the suit gets a SpareParts resource if it has none and its
   * capacity raised to MaxEvaAmount; then FillAmount is drawn from the container with
   * RequestResource and added to the suit directly. A container without spares throws
   * after the suit has been prepared.
   */
  function Fill(suit: seq<Resource>, container: seq<Resource>): Transfer
  {
    var prepared := Raised(WithSpares(suit, MaxEvaAmount), MaxEvaAmount);
    var i := IndexOf(prepared, SparesName);
    var c := IndexOf(container, SparesName);
    if c < 0 then Transfer(prepared, container, Err(NullReference))
    else
      var taken := FillAmount(prepared[i].amount, MaxEvaAmount, MinIncrement, container[c].amount);
      var drawn := Taken(container[c], taken);
      Transfer(prepared[i := prepared[i].(amount := prepared[i].amount + taken)],
               container[c := container[c].(amount := container[c].amount - drawn)], Ok(taken))
  }

  /**
   * A fill leaves the suit with a SpareParts resource whose capacity is at least
   * MaxEvaAmount and was never lowered; a missing resource is appended after the others
   * with capacity MaxEvaAmount.
   */
  lemma FillPreparesSuit(suit: seq<Resource>, container: seq<Resource>)
    ensures var t := Fill(suit, container);
      && HasSpares(t.suit) && Spares(t.suit).maxAmount >= MaxEvaAmount
      && (HasSpares(suit) ==>
            |t.suit| == |suit| && IndexOf(t.suit, SparesName) == IndexOf(suit, SparesName)
            && Spares(t.suit).maxAmount >= Spares(suit).maxAmount)
      && (!HasSpares(suit) ==>
            |t.suit| == |suit| + 1 && t.suit[..|suit|] == suit && Spares(t.suit).maxAmount == MaxEvaAmount)
  {
    var t := Fill(suit, container);
    var prepared := Raised(WithSpares(suit, MaxEvaAmount), MaxEvaAmount);
    PreparedSuit(suit, MaxEvaAmount);
    var i := IndexOf(prepared, SparesName);
    var c := IndexOf(container, SparesName);
    if c >= 0 {
      var taken := FillAmount(prepared[i].amount, MaxEvaAmount, MinIncrement, container[c].amount);
      assert t.suit == prepared[i := prepared[i].(amount := prepared[i].amount + taken)];
      SparesAmountUpdate(prepared, prepared[i].amount + taken);
      if !HasSpares(suit) {
        assert t.suit[..|suit|] == prepared[..|suit|];
      }
    } else {
      assert t.suit == prepared;
    }
  }

  /** A fill changes no resource of the suit but its SpareParts. */
  lemma FillKeepsOtherSuitResources(suit: seq<Resource>, container: seq<Resource>)
    ensures var t := Fill(suit, container);
      && HasSpares(t.suit)
      && (forall j :: 0 <= j < |t.suit| && j != IndexOf(t.suit, SparesName) ==> j < |suit| && t.suit[j] == suit[j])
  {
    var t := Fill(suit, container);
    var prepared := Raised(WithSpares(suit, MaxEvaAmount), MaxEvaAmount);
    PreparedSuit(suit, MaxEvaAmount);
    var i := IndexOf(prepared, SparesName);
    var c := IndexOf(container, SparesName);
    if c >= 0 {
      var taken := FillAmount(prepared[i].amount, MaxEvaAmount, MinIncrement, container[c].amount);
      assert t.suit == prepared[i := prepared[i].(amount := prepared[i].amount + taken)];
      SparesAmountUpdate(prepared, prepared[i].amount + taken);
    } else {
      assert t.suit == prepared;
    }
  }

  /**
   * A fill throws exactly when the container has no spares, and then leaves the container
   * as it was; otherwise only the container's first SpareParts resource changes.
   */
  lemma FillTouchesContainerSpares(suit: seq<Resource>, container: seq<Resource>)
    ensures var t := Fill(suit, container);
      && |t.container| == |container|
      && (forall j :: 0 <= j < |container| && j != IndexOf(container, SparesName) ==> t.container[j] == container[j])
      && (t.outcome.Err? <==> !HasSpares(container))
      && (t.outcome.Err? ==> t.outcome.message == NullReference && t.container == container)
  {
  }

  /**
   * From a suit holding at most MaxEvaAmount (or no spares at all) and a container with a
   * non-negative amount, a fill moves between 0 and MinIncrement spares, conserves the
   * total, keeps the suit within MaxEvaAmount and its capacity, and the container non-negative.
   */
  lemma FillConserves(suit: seq<Resource>, container: seq<Resource>)
    requires HasSpares(container) && 0.0 <= Spares(container).amount
    requires HasSpares(suit) ==> 0.0 <= Spares(suit).amount <= MaxEvaAmount
    ensures var t := Fill(suit, container);
      && t.outcome.Ok? && 0.0 <= t.outcome.value <= MinIncrement
      && HasSpares(t.suit) && HasSpares(t.container)
      && Spares(t.suit).amount + Spares(t.container).amount
         == (if HasSpares(suit) then Spares(suit).amount else 0.0) + Spares(container).amount
      && Spares(t.suit).amount <= MaxEvaAmount <= Spares(t.suit).maxAmount
      && 0.0 <= Spares(t.container).amount
  {
    var withSpares := WithSpares(suit, MaxEvaAmount);
    var prepared := Raised(withSpares, MaxEvaAmount);
    var i := IndexOf(prepared, SparesName);
    var c := IndexOf(container, SparesName);
    assert prepared[i].amount == withSpares[i].amount == (if HasSpares(suit) then Spares(suit).amount else 0.0);
    var taken := FillAmount(prepared[i].amount, MaxEvaAmount, MinIncrement, container[c].amount);
    assert Taken(container[c], taken) == taken;
    var suit' := prepared[i := prepared[i].(amount := prepared[i].amount + taken)];
    var container' := container[c := container[c].(amount := container[c].amount - taken)];
    assert Fill(suit, container) == Transfer(suit', container', Ok(taken));
    SparesAmountUpdate(prepared, prepared[i].amount + taken);
    SparesAmountUpdate(container, container[c].amount - taken);
  }

  /**
   * EmptyEvaSuit on values: DepositAmount is added to the container with RequestResource
   * and taken from the suit directly; a suit or a container without spares throws.
   */
  function Empty(suit: seq<Resource>, container: seq<Resource>): Transfer
  {
    var c := IndexOf(container, SparesName);
    var e := IndexOf(suit, SparesName);
    if c < 0 || e < 0 then Transfer(suit, container, Err(NullReference))
    else
      var deposit := DepositAmount(suit[e].amount, container[c].amount, container[c].maxAmount);
      var filled := Taken(container[c], -deposit);
      Transfer(suit[e := suit[e].(amount := suit[e].amount - deposit)],
               container[c := container[c].(amount := container[c].amount - filled)], Ok(deposit))
  }

  /**
   * From amounts within range, an empty conserves the total, leaves the suit
   * non-negative and the container within its capacity, and touches nothing else.
   */
  lemma EmptyConserves(suit: seq<Resource>, container: seq<Resource>)
    requires HasSpares(suit) && HasSpares(container)
    requires 0.0 <= Spares(suit).amount && InRange(Spares(container))
    ensures var t := Empty(suit, container);
      && t.outcome.Ok? && 0.0 <= t.outcome.value
      && HasSpares(t.suit) && HasSpares(t.container)
      && Spares(t.suit).amount + Spares(t.container).amount == Spares(suit).amount + Spares(container).amount
      && 0.0 <= Spares(t.suit).amount && InRange(Spares(t.container))
  {
    var c := IndexOf(container, SparesName);
    var e := IndexOf(suit, SparesName);
    var t := Empty(suit, container);
    var deposit := DepositAmount(suit[e].amount, container[c].amount, container[c].maxAmount);
    assert 0.0 <= deposit <= suit[e].amount && container[c].amount + deposit <= container[c].maxAmount;
    var filled := Taken(container[c], -deposit);
    assert filled == -deposit;
    assert t.suit == suit[e := suit[e].(amount := suit[e].amount - deposit)];
    assert t.container == container[c := container[c].(amount := container[c].amount + deposit)];
    assert t.outcome == Ok(deposit);
    SparesAmountUpdate(suit, suit[e].amount - deposit);
    SparesAmountUpdate(container, container[c].amount + deposit);
  }

  /** An empty changes no resource but the two SpareParts ones. */
  lemma EmptyTouchesOnlySpares(suit: seq<Resource>, container: seq<Resource>)
    ensures var t := Empty(suit, container);
      && |t.suit| == |suit| && |t.container| == |container|
      && (forall j :: 0 <= j < |suit| && j != IndexOf(suit, SparesName) ==> t.suit[j] == suit[j])
      && (forall j :: 0 <= j < |container| && j != IndexOf(container, SparesName) ==> t.container[j] == container[j])
  {
  }

  /** A suit or container without spares makes the empty throw without changing anything. */
  lemma EmptyWithoutSpares(suit: seq<Resource>, container: seq<Resource>)
    requires !HasSpares(suit) || !HasSpares(container)
    ensures Empty(suit, container) == Transfer(suit, container, Err(NullReference))
  {
  }

  /** The ModuleSparesContainer part module. */
  class ModuleSparesContainer {
    const part: Part
    var eventAdded: bool
    var takePartsActive: bool
    var depositPartsActive: bool
    /** How many times OnCrewBoardVessel is registered with GameEvents.onCrewBoardVessel. */
    var boardHandlers: nat

    /** The boarding handler is registered once exactly while eventAdded is set. */
    predicate Valid()
      reads this
    {
      boardHandlers == if eventAdded then 1 else 0
    }

    /** The module as loaded: the events as their attributes declare them, no handler registered. */
    constructor(part: Part)
      ensures this.part == part && Valid()
      ensures !eventAdded && takePartsActive && !depositPartsActive && boardHandlers == 0
    {
      this.part := part;
      eventAdded := false;
      takePartsActive := true;
      depositPartsActive := false;
      boardHandlers := 0;
    }

    /** OnStart: the TakeParts event is shown (the coroutine that syncs the event ranges is not modelled). */
    method OnStart()
      modifies this
      ensures takePartsActive
      ensures eventAdded == old(eventAdded) && depositPartsActive == old(depositPartsActive)
      ensures boardHandlers == old(boardHandlers)
    {
      takePartsActive := true;
    }

    /** FillEvaSuit, step by step on the two parts. */
    method FillEvaSuit(evaPart: Part, container: Part) returns (r: Result<real>)
      requires evaPart != container
      modifies evaPart, container
      ensures var t := Fill(old(evaPart.resources), old(container.resources));
        evaPart.resources == t.suit && container.resources == t.container && r == t.outcome
    {
      var i := PrepareSuit(evaPart, MaxEvaAmount);
      var desired := MaxEvaAmount - evaPart.resources[i].amount;
      desired := Min(desired, MinIncrement);
      var c := IndexOf(container.resources, SparesName);
      if c < 0 {
        return Err(NullReference);
      }
      var amountTaken := Min(desired, container.resources[c].amount);
      var _ := container.RequestResource(SparesName, amountTaken);
      evaPart.resources := evaPart.resources[i := evaPart.resources[i].(amount := evaPart.resources[i].amount + amountTaken)];
      r := Ok(amountTaken);
    }

    /** EmptyEvaSuit, step by step on the two parts. */
    method EmptyEvaSuit(evaPart: Part, container: Part) returns (r: Result<real>)
      requires evaPart != container
      modifies evaPart, container
      ensures var t := Empty(old(evaPart.resources), old(container.resources));
        evaPart.resources == t.suit && container.resources == t.container && r == t.outcome
    {
      var c := IndexOf(container.resources, SparesName);
      var e := IndexOf(evaPart.resources, SparesName);
      if c < 0 || e < 0 {
        return Err(NullReference);
      }
      var capacity := container.resources[c].maxAmount - container.resources[c].amount;
      var deposit := Min(evaPart.resources[e].amount, capacity);
      var _ := container.RequestResource(SparesName, -deposit);
      evaPart.resources := evaPart.resources[e := evaPart.resources[e].(amount := evaPart.resources[e].amount - deposit)];
      r := Ok(deposit);
    }

    /**
     * TakeParts. `evaPart` is what FindEVAPart returned. Without an EVA it throws;
     * otherwise the suit is filled from this part and, unless the fill threw, DepositParts
     * is shown and the boarding handler registered if it was not.
     */
    method TakeParts(evaPart: Part?) returns (r: Result<()>)
      requires Valid() && evaPart != part
      modifies this, evaPart, part
      ensures Valid()
      ensures evaPart == null ==> r == Err(NoEvaMessage) && unchanged(this) && unchanged(part)
      ensures evaPart != null ==>
        var t := Fill(old(evaPart.resources), old(part.resources));
        && evaPart.resources == t.suit && part.resources == t.container
        && (t.outcome.Err? ==> r == Err(t.outcome.message) && unchanged(this))
        && (t.outcome.Ok? ==> r == Ok(()) && depositPartsActive && eventAdded && boardHandlers == 1
                              && takePartsActive == old(takePartsActive))
    {
      if evaPart == null {
        return Err(NoEvaMessage);
      }
      var filled := FillEvaSuit(evaPart, part);
      if filled.Err? {
        return Err(filled.message);
      }
      depositPartsActive := true;
      if !eventAdded {
        boardHandlers := boardHandlers + 1;
        eventAdded := true;
      }
      r := Ok(());
    }

    /**
     * DepositParts. Without an EVA only a log line is written; otherwise the suit is
     * emptied into this part. Unless the empty threw, DepositParts is hidden and the
     * boarding handler unregistered.
     */
    method DepositParts(evaPart: Part?) returns (r: Result<()>)
      requires Valid() && evaPart != part
      modifies this, evaPart, part
      ensures Valid()
      ensures evaPart == null ==> unchanged(part)
      ensures evaPart != null ==>
        var t := Empty(old(evaPart.resources), old(part.resources));
        evaPart.resources == t.suit && part.resources == t.container && (t.outcome.Err? ==> r == Err(t.outcome.message) && unchanged(this))
      ensures r.Ok? ==> !depositPartsActive && !eventAdded && boardHandlers == 0 && takePartsActive == old(takePartsActive)
      ensures evaPart == null ==> r.Ok?
    {
      if evaPart != null {
        var emptied := EmptyEvaSuit(evaPart, part);
        if emptied.Err? {
          return Err(emptied.message);
        }
      }
      depositPartsActive := false;
      boardHandlers := if boardHandlers > 0 then boardHandlers - 1 else 0;
      eventAdded := false;
      r := Ok(());
    }

    /** OnCrewBoardVessel: the suit of the kerbal boarding `to` is emptied into it when it holds spares. */
    method OnCrewBoardVessel(from: Part, to: Part) returns (r: Result<()>)
      requires from != to
      modifies from, to
      ensures !HasSpares(old(from.resources)) ==> r == Ok(()) && unchanged(from) && unchanged(to)
      ensures HasSpares(old(from.resources)) ==>
        var t := Empty(old(from.resources), old(to.resources));
        && from.resources == t.suit && to.resources == t.container
        && (r.Ok? <==> t.outcome.Ok?)
    {
      if from.Contains(SparesName) {
        var emptied := EmptyEvaSuit(from, to);
        r := if emptied.Ok? then Ok(()) else Err(emptied.message);
      } else {
        r := Ok(());
      }
    }
  }
}
