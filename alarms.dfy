/**
 * The alarm manager of the newest runtime (DangIt/Runtime/AlarmManager.cs): a dictionary
 * from failure module to the number of alarm loops still to play, consumed one loop per
 * finished clip. A negative count means "until the vessel is left or the failure fixed".
 *
 * The dictionary is modelled as the .NET/Mono Dictionary stores it: an array of entry slots,
 * enumerated in slot order, where Remove frees a slot and pushes it on a free list, and Add
 * reuses the most recently freed slot before appending a new one.
 */
module Alarms {
  import opened Wrappers
  import opened Convert

  /** A FailureModule, by identity. */
  type ModuleId = nat

  datatype Entry = Entry(key: ModuleId, value: Int32)

  /** The mapping the slots hold (keys are distinct in a valid dictionary). */
  function LoopsOf(slots: seq<Option<Entry>>): map<ModuleId, Int32>
  {
    if slots == [] then map[]
    else
      match slots[0]
      case None => LoopsOf(slots[1..])
      case Some(e) => LoopsOf(slots[1..])[e.key := e.value]
  }

  /** The keys in enumeration order. */
  function KeysOf(slots: seq<Option<Entry>>): seq<ModuleId>
  {
    if slots == [] then []
    else
      match slots[0]
      case None => KeysOf(slots[1..])
      case Some(e) => [e.key] + KeysOf(slots[1..])
  }

  predicate DistinctKeys(slots: seq<Option<Entry>>)
  {
    forall i, j :: 0 <= i < j < |slots| && slots[i].Some? && slots[j].Some? ==> slots[i].value.key != slots[j].value.key
  }

  /** The index of the first occupied slot (ElementAt(0)), or -1. */
  function FirstSlot(slots: seq<Option<Entry>>): (i: int)
    ensures -1 <= i < |slots|
    ensures i >= 0 ==> slots[i].Some? && forall j :: 0 <= j < i ==> slots[j].None?
    ensures i < 0 ==> forall j :: 0 <= j < |slots| ==> slots[j].None?
  {
    if slots == [] then -1
    else if slots[0].Some? then 0
    else
      var k := FirstSlot(slots[1..]);
      if k < 0 then -1 else k + 1
  }

  /** The index of the slot holding `key`, or -1. */
  function SlotOf(slots: seq<Option<Entry>>, key: ModuleId): (i: int)
    ensures -1 <= i < |slots|
    ensures i >= 0 ==> slots[i].Some? && slots[i].value.key == key
    ensures i < 0 ==> forall j :: 0 <= j < |slots| && slots[j].Some? ==> slots[j].value.key != key
  {
    if slots == [] then -1
    else if slots[0].Some? && slots[0].value.key == key then 0
    else
      var k := SlotOf(slots[1..], key);
      if k < 0 then -1 else k + 1
  }

  lemma {:induction false} LoopsOfKeys(slots: seq<Option<Entry>>, key: ModuleId)
    ensures key in LoopsOf(slots) <==> SlotOf(slots, key) >= 0
  {
    if slots != [] {
      LoopsOfKeys(slots[1..], key);
    }
  }

  lemma {:induction false} LoopsOfValue(slots: seq<Option<Entry>>, i: int)
    requires DistinctKeys(slots) && 0 <= i < |slots| && slots[i].Some?
    ensures slots[i].value.key in LoopsOf(slots) && LoopsOf(slots)[slots[i].value.key] == slots[i].value.value
  {
    if i > 0 {
      LoopsOfValue(slots[1..], i - 1);
    }
  }

  /** Freeing the slot of a key removes exactly that key. */
  lemma {:induction false} LoopsOfClear(slots: seq<Option<Entry>>, i: int)
    requires DistinctKeys(slots) && 0 <= i < |slots| && slots[i].Some?
    ensures LoopsOf(slots[i := None]) == LoopsOf(slots) - {slots[i].value.key}
  {
    var k := slots[i].value.key;
    if i == 0 {
      assert slots[i := None][1..] == slots[1..];
      assert SlotOf(slots[1..], k) < 0;
      LoopsOfKeys(slots[1..], k);
    } else {
      var rest := slots[1..];
      assert slots[i := None][1..] == rest[i - 1 := None];
      assert DistinctKeys(rest);
      LoopsOfClear(rest, i - 1);
      if slots[0].Some? {
        assert slots[0].value.key != k;
      }
    }
  }

  /** Filling a free slot with a new key adds exactly that key. */
  lemma {:induction false} LoopsOfFill(slots: seq<Option<Entry>>, i: int, e: Entry)
    requires 0 <= i < |slots| && slots[i].None? && e.key !in LoopsOf(slots)
    ensures LoopsOf(slots[i := Some(e)]) == LoopsOf(slots)[e.key := e.value]
    ensures KeysOf(slots[i := Some(e)]) == KeysOf(slots[..i]) + [e.key] + KeysOf(slots[i + 1..])
  {
    if i == 0 {
      assert slots[i := Some(e)][1..] == slots[1..];
      assert slots[..0] == [];
    } else {
      assert slots[i := Some(e)][1..] == slots[1..][i - 1 := Some(e)];
      assert e.key !in LoopsOf(slots[1..]) by {
        if slots[0].Some? {
          assert LoopsOf(slots) == LoopsOf(slots[1..])[slots[0].value.key := slots[0].value.value];
        }
      }
      LoopsOfFill(slots[1..], i - 1, e);
      assert slots[1..][..i - 1] == slots[..i][1..];
      assert slots[1..][i - 1 + 1..] == slots[i + 1..];
      if slots[0].Some? {
        assert slots[0].value.key != e.key;
      }
    }
  }

  lemma {:induction false} LoopsOfAppend(slots: seq<Option<Entry>>, e: Entry)
    requires e.key !in LoopsOf(slots)
    ensures LoopsOf(slots + [Some(e)]) == LoopsOf(slots)[e.key := e.value]
    ensures KeysOf(slots + [Some(e)]) == KeysOf(slots) + [e.key]
  {
    if slots == [] {
      assert ([] + [Some(e)])[1..] == [];
    } else {
      assert (slots + [Some(e)])[1..] == slots[1..] + [Some(e)];
      assert e.key !in LoopsOf(slots[1..]) by {
        if slots[0].Some? {
          assert LoopsOf(slots) == LoopsOf(slots[1..])[slots[0].value.key := slots[0].value.value];
        }
      }
      LoopsOfAppend(slots[1..], e);
      if slots[0].Some? {
        assert slots[0].value.key in LoopsOf(slots);
        assert slots[0].value.key != e.key;
      }
    }
  }

  lemma {:induction false} KeysOfSplit(slots: seq<Option<Entry>>, i: int)
    requires 0 <= i < |slots| && slots[i].Some?
    ensures KeysOf(slots) == KeysOf(slots[..i]) + [slots[i].value.key] + KeysOf(slots[i + 1..])
  {
    if i == 0 {
      assert slots[..0] == [];
    } else {
      KeysOfSplit(slots[1..], i - 1);
      assert slots[1..][..i - 1] == slots[..i][1..];
      assert slots[1..][i - 1 + 1..] == slots[i + 1..];
    }
  }

  /** Nothing is pending in the order exactly when nothing is in the dictionary. */
  lemma {:induction false} EmptyOrderEmptyLoops(slots: seq<Option<Entry>>)
    ensures KeysOf(slots) == [] <==> LoopsOf(slots) == map[]
  {
    if slots != [] {
      EmptyOrderEmptyLoops(slots[1..]);
      if slots[0].Some? {
        assert slots[0].value.key in LoopsOf(slots);
      }
    }
  }

  /** Changing the value in an occupied slot keeps the enumeration order. */
  lemma {:induction false} KeysOfSameKey(slots: seq<Option<Entry>>, i: int, w: Int32)
    requires 0 <= i < |slots| && slots[i].Some?
    ensures KeysOf(slots[i := Some(Entry(slots[i].value.key, w))]) == KeysOf(slots)
  {
    if i > 0 {
      assert slots[i := Some(Entry(slots[i].value.key, w))][1..] == slots[1..][i - 1 := Some(Entry(slots[i].value.key, w))];
      KeysOfSameKey(slots[1..], i - 1, w);
    }
  }

  lemma {:induction false} KeysOfNone(slots: seq<Option<Entry>>)
    requires forall j :: 0 <= j < |slots| ==> slots[j].None?
    ensures KeysOf(slots) == []
  {
    if slots != [] {
      KeysOfNone(slots[1..]);
    }
  }

  lemma {:induction false} LoopsOfNone(slots: seq<Option<Entry>>)
    requires forall j :: 0 <= j < |slots| ==> slots[j].None?
    ensures LoopsOf(slots) == map[]
  {
    if slots != [] {
      LoopsOfNone(slots[1..]);
    }
  }

  /** `Value - 1` in unchecked 32-bit arithmetic: int.MinValue wraps to int.MaxValue. */
  function Dec(v: Int32): (r: Int32)
    ensures v != Int32Min ==> r as int == v as int - 1
    ensures v == Int32Min ==> r == Int32Max
  {
    if v == Int32Min then Int32Max else v - 1
  }

  class AlarmManager {
    /** The dictionary `loops`: its entry slots and its free list, most recently freed first. */
    var slots: seq<Option<Entry>>
    var freeList: seq<nat>

    predicate Valid()
      reads this
    {
      DistinctKeys(slots) &&
      (forall i :: 0 <= i < |slots| && slots[i].Some? ==> slots[i].value.value != 0) &&
      (forall i :: 0 <= i < |freeList| ==> freeList[i] < |slots| && slots[freeList[i]].None?) &&
      (forall i, j :: 0 <= i < j < |freeList| ==> freeList[i] != freeList[j]) &&
      (forall i :: 0 <= i < |slots| && slots[i].None? ==> i in freeList)
    }

    /** The dictionary's contents. */
    function Loops(): map<ModuleId, Int32>
      reads this
    {
      LoopsOf(slots)
    }

    /** The dictionary's enumeration order. */
    function Order(): seq<ModuleId>
      reads this
    {
      KeysOf(slots)
    }

    /** Invariant: no stored count is ever 0. */
    lemma NoZeroCount(fm: ModuleId)
      requires Valid() && fm in Loops()
      ensures Loops()[fm] != 0
    {
      LoopsOfKeys(slots, fm);
      LoopsOfValue(slots, SlotOf(slots, fm));
    }

    /** Start: an empty dictionary. */
    constructor()
      ensures Valid() && Loops() == map[] && Order() == []
    {
      slots := [];
      freeList := [];
    }

    /** Dictionary.Add of a key that is not present, into the most recently freed slot if any. */
    method Insert(key: ModuleId, value: Int32)
      requires Valid() && key !in Loops() && value != 0
      modifies this
      ensures Valid()
      ensures Loops() == old(Loops())[key := value]
      ensures old(freeList) != [] ==> slots == old(slots)[old(freeList)[0] := Some(Entry(key, value))]
      ensures old(freeList) == [] ==> Order() == old(Order()) + [key]
    {
      var e := Entry(key, value);
      LoopsOfKeys(slots, key);
      if freeList != [] {
        var i := freeList[0];
        LoopsOfFill(slots, i, e);
        slots := slots[i := Some(e)];
        freeList := freeList[1..];
        assert forall j :: 0 <= j < |slots| && slots[j].None? ==> j in old(freeList) && j != i;
      } else {
        LoopsOfAppend(slots, e);
        slots := slots + [Some(e)];
      }
    }

    /** Dictionary.Remove of the key in slot i: the slot is freed and pushed on the free list. */
    method RemoveSlot(i: nat)
      requires Valid() && i < |slots| && slots[i].Some?
      modifies this
      ensures Valid()
      ensures Loops() == old(Loops()) - {old(slots)[i].value.key}
      ensures slots == old(slots)[i := None] && freeList == [i] + old(freeList)
    {
      LoopsOfClear(slots, i);
      slots := slots[i := None];
      freeList := [i] + freeList;
    }

    /** AddAlarm: a zero count is ignored; a module already present makes Dictionary.Add throw. */
    method AddAlarm(fm: ModuleId, number: Int32) returns (r: Result<()>)
      requires Valid()
      modifies this
      ensures Valid()
      ensures number == 0 ==> r.Ok? && Loops() == old(Loops())
      ensures number != 0 && fm in old(Loops()) ==> r.Err? && Loops() == old(Loops())
      ensures number != 0 && fm !in old(Loops()) ==> r.Ok? && Loops() == old(Loops())[fm := number]
    {
      if number == 0 {
        return Ok(());
      }
      if fm in Loops() {
        return Err(DuplicateKey);
      }
      Insert(fm, number);
      r := Ok(());
    }

    /**
     * Update, once a frame: when no clip is playing and some alarm is pending, the first entry
     * is taken out and its clip played. It goes back with one loop fewer when its count is
     * neither 0 nor 1 and its module is on the active vessel; otherwise the module's
     * AlarmsDoneCallback fires (returned in `done`).
     */
    method Update(isPlaying: bool, onActiveVessel: ModuleId -> bool) returns (done: Option<ModuleId>)
      requires Valid()
      modifies this
      ensures Valid()
      ensures isPlaying || old(Order()) == [] ==> done.None? && Loops() == old(Loops()) && Order() == old(Order())
      ensures !isPlaying && old(Order()) != [] ==>
        var k := old(Order())[0];
        k in old(Loops()) &&
        var v := old(Loops())[k];
        if v != 0 && v != 1 && onActiveVessel(k) then
          done.None? && Loops() == old(Loops())[k := Dec(v)] && Order() == old(Order())
        else
          done == Some(k) && Loops() == old(Loops()) - {k}
      ensures |Loops()| <= |old(Loops())|
    {
      done := None;
      if isPlaying {
        return;
      }
      var i := FirstSlot(slots);
      if i < 0 {
        KeysOfNone(slots);
        return;
      }
      var e := slots[i].value;
      KeysOfSplit(slots, i);
      assert slots[..i] == slots[..i] && forall j :: 0 <= j < i ==> slots[..i][j].None?;
      KeysOfNone(slots[..i]);
      LoopsOfValue(slots, i);
      assert old(Order())[0] == e.key;
      RemoveSlot(i);
      if e.value != 0 && e.value != 1 {
        if onActiveVessel(e.key) {
          Insert(e.key, Dec(e.value));
          assert slots == old(slots)[i := Some(Entry(e.key, Dec(e.value)))];
          KeysOfSameKey(old(slots), i, Dec(e.value));
          return;
        }
      }
      done := Some(e.key);
    }

    /** RemoveAllAlarmsForModule: a present module gets its AlarmsDoneCallback and leaves the dictionary. */
    method RemoveAllAlarmsForModule(fm: ModuleId) returns (done: Option<ModuleId>)
      requires Valid()
      modifies this
      ensures Valid()
      ensures fm in old(Loops()) ==> done == Some(fm) && Loops() == old(Loops()) - {fm}
      ensures fm !in old(Loops()) ==> done.None? && Loops() == old(Loops()) && Order() == old(Order())
    {
      LoopsOfKeys(slots, fm);
      var i := SlotOf(slots, fm);
      if i < 0 {
        return None;
      }
      RemoveSlot(i);
      done := Some(fm);
    }

    /** HasAlarmsForModule: the module is a key and its stored count is not zero. */
    function HasAlarmsForModule(fm: ModuleId): bool
      reads this
    {
      fm in Loops() && Loops()[fm] != 0
    }

    /** Under the invariant, a module has alarms exactly when it is a key. */
    lemma HasAlarmsIffKey(fm: ModuleId)
      requires Valid()
      ensures HasAlarmsForModule(fm) <==> fm in Loops()
    {
      if fm in Loops() {
        NoZeroCount(fm);
      }
    }
  }

  /** A count of -1 (loop forever) keeps counting down while its module's vessel stays active. */
  lemma ForeverStaysNegative(v: Int32)
    requires v < 0 && v != Int32Min
    ensures Dec(v) < 0 && Dec(v) != 0 && Dec(v) != 1
  {
  }
}
