/**
 * The middle generation's spares container (Maintenance/SparesContainer.cs, and the same
 * code in SparesContainer.cs under the DangIt namespace): both sides of a transfer go
 * through RequestResource, and the suit's capacity is never raised. The corrected fill,
 * which raises it, is Fill and FillEvaSuitRaised.
 */
module RequestSparesContainer {
  import opened Wrappers
  import opened Resources
  import opened SparesTransfer
  import LegacyStatic

  /**
   * Spares.MaxEvaAmount and Spares.Increment: 10 and 1 in both copies (Runtime/SparesInfo.cs
   * for the ippo namespace, DangIt.Spares for the other).
   */
  const MaxEvaAmount: real := LegacyStatic.SparesMaxEvaAmount
  const Increment: real := LegacyStatic.SparesIncrement

  /**
   * The transfer of a fill once the suit holds a SpareParts resource: amountTaken is
   * requested from the container and its negation from the suit. A container without
   * spares throws before anything moves.
   */
  function Request(prepared: seq<Resource>, container: seq<Resource>): Transfer
    requires HasSpares(prepared)
  {
    var i := IndexOf(prepared, SparesName);
    var c := IndexOf(container, SparesName);
    if c < 0 then Transfer(prepared, container, Err(NullReference))
    else
      var taken := FillAmount(prepared[i].amount, MaxEvaAmount, Increment, container[c].amount);
      var drawn := Taken(container[c], taken);
      var added := Taken(prepared[i], -taken);
      Transfer(prepared[i := prepared[i].(amount := prepared[i].amount - added)],
               container[c := container[c].(amount := container[c].amount - drawn)], Ok(taken))
  }

  /** FillEvaSuit as written: the SpareParts resource is added when missing, and its capacity is left as it is. */
  function FillAsWritten(suit: seq<Resource>, container: seq<Resource>): Transfer
  {
    Request(WithSpares(suit, MaxEvaAmount), container)
  }

  /** FillEvaSuit as intended: the suit's capacity is also raised to MaxEvaAmount, as the newest generation does. */
  function Fill(suit: seq<Resource>, container: seq<Resource>): Transfer
  {
    Request(Raised(WithSpares(suit, MaxEvaAmount), MaxEvaAmount), container)
  }

  /**
   * A request changes only the two SpareParts resources, keeps their positions, and throws
   * exactly when the container has no spares, leaving it as it was.
   */
  lemma RequestTouchesOnlySpares(prepared: seq<Resource>, container: seq<Resource>)
    requires HasSpares(prepared)
    ensures var t := Request(prepared, container);
      && |t.suit| == |prepared| && HasSpares(t.suit) && IndexOf(t.suit, SparesName) == IndexOf(prepared, SparesName)
      && (forall j :: 0 <= j < |prepared| && j != IndexOf(prepared, SparesName) ==> t.suit[j] == prepared[j])
      && |t.container| == |container|
      && (forall j :: 0 <= j < |container| && j != IndexOf(container, SparesName) ==> t.container[j] == container[j])
      && (t.outcome.Err? <==> !HasSpares(container))
      && (t.outcome.Err? ==> t.outcome.message == NullReference && t.container == container && t.suit == prepared)
  {
    var i := IndexOf(prepared, SparesName);
    var c := IndexOf(container, SparesName);
    if c >= 0 {
      var taken := FillAmount(prepared[i].amount, MaxEvaAmount, Increment, container[c].amount);
      var added := Taken(prepared[i], -taken);
      SparesAmountUpdate(prepared, prepared[i].amount - added);
    }
  }

  /**
   * When the suit's SpareParts fit between 0 and MaxEvaAmount and its capacity is at least
   * MaxEvaAmount, and the container holds a non-negative amount, a request moves between 0
   * and Increment spares, conserves the total, and keeps both amounts within their bounds.
   */
  lemma RequestConserves(prepared: seq<Resource>, container: seq<Resource>)
    requires HasSpares(prepared) && 0.0 <= Spares(prepared).amount <= MaxEvaAmount <= Spares(prepared).maxAmount
    requires HasSpares(container) && 0.0 <= Spares(container).amount
    ensures var t := Request(prepared, container);
      && t.outcome.Ok? && 0.0 <= t.outcome.value <= Increment
      && HasSpares(t.suit) && HasSpares(t.container)
      && Spares(t.suit).amount + Spares(t.container).amount == Spares(prepared).amount + Spares(container).amount
      && Spares(t.suit).amount <= MaxEvaAmount && 0.0 <= Spares(t.container).amount
  {
    var t := Request(prepared, container);
    var i := IndexOf(prepared, SparesName);
    var c := IndexOf(container, SparesName);
    var taken := FillAmount(prepared[i].amount, MaxEvaAmount, Increment, container[c].amount);
    assert Taken(container[c], taken) == taken;
    assert Taken(prepared[i], -taken) == -taken;
    assert t == Transfer(prepared[i := prepared[i].(amount := prepared[i].amount + taken)],
                         container[c := container[c].(amount := container[c].amount - taken)], Ok(taken));
    SparesAmountUpdate(prepared, prepared[i].amount + taken);
    SparesAmountUpdate(container, container[c].amount - taken);
  }

  /**
   * As written, a fill conserves the total when the suit's capacity already admits
   * MaxEvaAmount (in particular when the suit had no spares and the resource is added).
   */
  lemma AsWrittenFillConservesWithRoom(suit: seq<Resource>, container: seq<Resource>)
    requires HasSpares(suit) ==> 0.0 <= Spares(suit).amount <= MaxEvaAmount <= Spares(suit).maxAmount
    requires HasSpares(container) && 0.0 <= Spares(container).amount
    ensures var t := FillAsWritten(suit, container);
      && t.outcome.Ok? && HasSpares(t.suit) && HasSpares(t.container)
      && Spares(t.suit).amount + Spares(t.container).amount
         == (if HasSpares(suit) then Spares(suit).amount else 0.0) + Spares(container).amount
  {
    var prepared := WithSpares(suit, MaxEvaAmount);
    assert Spares(prepared).amount == (if HasSpares(suit) then Spares(suit).amount else 0.0);
    RequestConserves(prepared, container);
  }

  /**
   * As written, a suit whose SpareParts capacity is below MaxEvaAmount and already full
   * loses what the container gives up: 1 spare leaves the container, none reaches the suit.
   */
  lemma AsWrittenFillLosesSpares()
    ensures var suit := [Resource(SparesName, 5.0, 5.0, Both)];
      var container := [Resource(SparesName, 10.0, 100.0, Both)];
      var t := FillAsWritten(suit, container);
      && t.outcome == Ok(1.0) && t.suit == suit && t.container == [Resource(SparesName, 9.0, 100.0, Both)]
      && Spares(t.suit).amount + Spares(t.container).amount == Spares(suit).amount + Spares(container).amount - 1.0
  {
    var suit := [Resource(SparesName, 5.0, 5.0, Both)];
    var container := [Resource(SparesName, 10.0, 100.0, Both)];
    assert IndexOf(suit, SparesName) == 0;
    assert IndexOf(container, SparesName) == 0;
    assert WithSpares(suit, MaxEvaAmount) == suit;
  }

  /**
   * With the capacity raised, a fill from a suit holding at most MaxEvaAmount (or no
   * spares) and a non-negative container moves between 0 and Increment spares, conserves
   * the total, and keeps the suit within MaxEvaAmount and the container non-negative.
   */
  lemma FillConserves(suit: seq<Resource>, container: seq<Resource>)
    requires HasSpares(suit) ==> 0.0 <= Spares(suit).amount <= MaxEvaAmount
    requires HasSpares(container) && 0.0 <= Spares(container).amount
    ensures var t := Fill(suit, container);
      && t.outcome.Ok? && 0.0 <= t.outcome.value <= Increment
      && HasSpares(t.suit) && HasSpares(t.container)
      && Spares(t.suit).amount + Spares(t.container).amount
         == (if HasSpares(suit) then Spares(suit).amount else 0.0) + Spares(container).amount
      && Spares(t.suit).amount <= MaxEvaAmount && 0.0 <= Spares(t.container).amount
  {
    PreparedSuit(suit, MaxEvaAmount);
    RequestConserves(Raised(WithSpares(suit, MaxEvaAmount), MaxEvaAmount), container);
  }

  /**
   * EmptyEvaSuit: the deposit is requested negated from the container and as it is from
   * the suit; a container or a suit without spares throws.
   */
  function Empty(suit: seq<Resource>, container: seq<Resource>): Transfer
  {
    var c := IndexOf(container, SparesName);
    var e := IndexOf(suit, SparesName);
    if c < 0 || e < 0 then Transfer(suit, container, Err(NullReference))
    else
      var deposit := DepositAmount(suit[e].amount, container[c].amount, container[c].maxAmount);
      var filled := Taken(container[c], -deposit);
      var drained := Taken(suit[e], deposit);
      Transfer(suit[e := suit[e].(amount := suit[e].amount - drained)],
               container[c := container[c].(amount := container[c].amount - filled)], Ok(deposit))
  }

  /**
   * From amounts within range, an empty moves a non-negative deposit, conserves the total,
   * and leaves the suit non-negative and the container within its capacity.
   */
  lemma EmptyConserves(suit: seq<Resource>, container: seq<Resource>)
    requires HasSpares(suit) && HasSpares(container)
    requires 0.0 <= Spares(suit).amount && InRange(Spares(container))
    ensures var t := Empty(suit, container);
      && t.outcome.Ok? && 0.0 <= t.outcome.value
      && HasSpares(t.suit) && HasSpares(t.container)
      && Spares(t.suit).amount + Spares(t.container).amount == Spares(suit).amount + Spares(container).amount
      && 0.0 <= Spares(t.suit).amount && InRange(Spares(t.container))
  {
    var c := IndexOf(container, SparesName);
    var e := IndexOf(suit, SparesName);
    var t := Empty(suit, container);
    var deposit := DepositAmount(suit[e].amount, container[c].amount, container[c].maxAmount);
    assert 0.0 <= deposit <= suit[e].amount && container[c].amount + deposit <= container[c].maxAmount;
    var filled := Taken(container[c], -deposit);
    var drained := Taken(suit[e], deposit);
    assert filled == -deposit && drained == deposit;
    assert t.suit == suit[e := suit[e].(amount := suit[e].amount - deposit)];
    assert t.container == container[c := container[c].(amount := container[c].amount + deposit)];
    assert t.outcome == Ok(deposit);
    SparesAmountUpdate(suit, suit[e].amount - deposit);
    SparesAmountUpdate(container, container[c].amount + deposit);
  }

  /** An empty changes no resource but the two SpareParts ones. */
  lemma EmptyTouchesOnlySpares(suit: seq<Resource>, container: seq<Resource>)
    ensures var t := Empty(suit, container);
      && |t.suit| == |suit| && |t.container| == |container|
      && (forall j :: 0 <= j < |suit| && j != IndexOf(suit, SparesName) ==> t.suit[j] == suit[j])
      && (forall j :: 0 <= j < |container| && j != IndexOf(container, SparesName) ==> t.container[j] == container[j])
  {
  }

  /** A suit or container without spares makes the empty throw without changing anything. */
  lemma EmptyWithoutSpares(suit: seq<Resource>, container: seq<Resource>)
    requires !HasSpares(suit) || !HasSpares(container)
    ensures Empty(suit, container) == Transfer(suit, container, Err(NullReference))
  {
  }

  /** The ModuleSparesContainer part module. */
  class ModuleSparesContainer {
    const part: Part
    var eventAdded: bool
    var takePartsActive: bool
    var depositPartsActive: bool
    /** How many times OnCrewBoardVessel is registered with GameEvents.onCrewBoardVessel. */
    var boardHandlers: nat

    /** The boarding handler is registered once exactly while eventAdded is set. */
    predicate Valid()
      reads this
    {
      boardHandlers == if eventAdded then 1 else 0
    }

    /** The module as loaded: the events as their attributes declare them, no handler registered. */
    constructor(part: Part)
      ensures this.part == part && Valid()
      ensures !eventAdded && takePartsActive && !depositPartsActive && boardHandlers == 0
    {
      this.part := part;
      eventAdded := false;
      takePartsActive := true;
      depositPartsActive := false;
      boardHandlers := 0;
    }

    /** OnStart: the TakeParts event is shown. */
    method OnStart()
      modifies this
      ensures takePartsActive
      ensures eventAdded == old(eventAdded) && depositPartsActive == old(depositPartsActive)
      ensures boardHandlers == old(boardHandlers)
    {
      takePartsActive := true;
    }

    /**
     * The two requests of a fill, once the suit holds SpareParts: the amount the kerbal
     * can take is requested from the container and its negation from the suit.
     */
    method RequestSpares(evaPart: Part, container: Part) returns (r: Result<real>)
      requires evaPart != container && HasSpares(evaPart.resources)
      modifies evaPart, container
      ensures var t := Request(old(evaPart.resources), old(container.resources));
        evaPart.resources == t.suit && container.resources == t.container && r == t.outcome
    {
      ghost var prepared := evaPart.resources;
      var i := IndexOf(evaPart.resources, SparesName);
      var desired := Min(MaxEvaAmount - evaPart.resources[i].amount, Increment);
      var c := IndexOf(container.resources, SparesName);
      if c < 0 {
        return Err(NullReference);
      }
      var amountTaken := Min(desired, container.resources[c].amount);
      assert amountTaken == FillAmount(prepared[i].amount, MaxEvaAmount, Increment, container.resources[c].amount);
      ghost var t := Request(prepared, old(container.resources));
      var _ := container.RequestResource(SparesName, amountTaken);
      assert container.resources == t.container;
      var _ := evaPart.RequestResource(SparesName, -amountTaken);
      assert evaPart.resources == t.suit;
      r := Ok(amountTaken);
    }

    /**
     * FillEvaSuit as written: a suit without SpareParts gets the resource (capacity
     * MaxEvaAmount, empty), an existing one keeps its capacity, and then the two requests
     * run. See AsWrittenFillLosesSpares for what a small capacity costs.
     */
    method FillEvaSuit(evaPart: Part, container: Part) returns (r: Result<real>)
      requires evaPart != container
      modifies evaPart, container
      ensures var t := FillAsWritten(old(evaPart.resources), old(container.resources));
        evaPart.resources == t.suit && container.resources == t.container && r == t.outcome
    {
      if !evaPart.Contains(SparesName) {
        evaPart.AddResource(SparesName, MaxEvaAmount, 0.0);
      }
      assert evaPart.resources == WithSpares(old(evaPart.resources), MaxEvaAmount);
      r := RequestSpares(evaPart, container);
    }

    /** FillEvaSuit corrected: the suit's capacity is raised to MaxEvaAmount before the requests (see Fill). */
    method FillEvaSuitRaised(evaPart: Part, container: Part) returns (r: Result<real>)
      requires evaPart != container
      modifies evaPart, container
      ensures var t := Fill(old(evaPart.resources), old(container.resources));
        evaPart.resources == t.suit && container.resources == t.container && r == t.outcome
    {
      var _ := PrepareSuit(evaPart, MaxEvaAmount);
      r := RequestSpares(evaPart, container);
    }

    /** EmptyEvaSuit, step by step on the two parts. */
    method EmptyEvaSuit(evaPart: Part, container: Part) returns (r: Result<real>)
      requires evaPart != container
      modifies evaPart, container
      ensures var t := Empty(old(evaPart.resources), old(container.resources));
        evaPart.resources == t.suit && container.resources == t.container && r == t.outcome
    {
      var c := IndexOf(container.resources, SparesName);
      if c < 0 {
        return Err(NullReference);
      }
      var capacity := container.resources[c].maxAmount - container.resources[c].amount;
      var e := IndexOf(evaPart.resources, SparesName);
      if e < 0 {
        return Err(NullReference);
      }
      var deposit := Min(evaPart.resources[e].amount, capacity);
      var _ := container.RequestResource(SparesName, -deposit);
      var _ := evaPart.RequestResource(SparesName, deposit);
      r := Ok(deposit);
    }

    /**
     * TakeParts. `evaPart` is what FindEVAPart returned. Without an EVA only a log line is
     * written; otherwise the suit is filled from this part as written, capacity unraised. Unless the fill threw,
     * DepositParts is shown and the boarding handler registered if it was not.
     */
    method TakeParts(evaPart: Part?) returns (r: Result<()>)
      requires Valid() && evaPart != part
      modifies this, evaPart, part
      ensures Valid()
      ensures evaPart == null ==> r == Ok(()) && unchanged(part)
      ensures evaPart != null ==>
        var t := FillAsWritten(old(evaPart.resources), old(part.resources));
        && evaPart.resources == t.suit && part.resources == t.container
        && (t.outcome.Err? ==> r == Err(t.outcome.message) && unchanged(this))
        && (t.outcome.Ok? <==> r.Ok?)
      ensures r.Ok? ==> depositPartsActive && eventAdded && boardHandlers == 1 && takePartsActive == old(takePartsActive)
    {
      if evaPart != null {
        var filled := FillEvaSuit(evaPart, part);
        if filled.Err? {
          return Err(filled.message);
        }
      }
      depositPartsActive := true;
      if !eventAdded {
        boardHandlers := boardHandlers + 1;
        eventAdded := true;
      }
      r := Ok(());
    }

    /**
     * DepositParts. Without an EVA only a log line is written; otherwise the suit is
     * emptied into this part. Unless the empty threw, DepositParts is hidden and the
     * boarding handler unregistered.
     */
    method DepositParts(evaPart: Part?) returns (r: Result<()>)
      requires Valid() && evaPart != part
      modifies this, evaPart, part
      ensures Valid()
      ensures evaPart == null ==> r == Ok(()) && unchanged(part)
      ensures evaPart != null ==>
        var t := Empty(old(evaPart.resources), old(part.resources));
        && evaPart.resources == t.suit && part.resources == t.container
        && (t.outcome.Err? ==> r == Err(t.outcome.message) && unchanged(this))
        && (t.outcome.Ok? <==> r.Ok?)
      ensures r.Ok? ==> !depositPartsActive && !eventAdded && boardHandlers == 0 && takePartsActive == old(takePartsActive)
    {
      if evaPart != null {
        var emptied := EmptyEvaSuit(evaPart, part);
        if emptied.Err? {
          return Err(emptied.message);
        }
      }
      depositPartsActive := false;
      boardHandlers := if boardHandlers > 0 then boardHandlers - 1 else 0;
      eventAdded := false;
      r := Ok(());
    }

    /** OnCrewBoardVessel: the suit of the kerbal boarding `to` is emptied into it when it holds spares. */
    method OnCrewBoardVessel(from: Part, to: Part) returns (r: Result<()>)
      requires from != to
      modifies from, to
      ensures !HasSpares(old(from.resources)) ==> r == Ok(()) && unchanged(from) && unchanged(to)
      ensures HasSpares(old(from.resources)) ==>
        var t := Empty(old(from.resources), old(to.resources));
        && from.resources == t.suit && to.resources == t.container
        && (r.Ok? <==> t.outcome.Ok?)
    {
      if from.Contains(SparesName) {
        var emptied := EmptyEvaSuit(from, to);
        r := if emptied.Ok? then Ok(()) else Err(emptied.message);
      } else {
        r := Ok(());
      }
    }
  }
}
