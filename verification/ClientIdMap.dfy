/** The fixed-capacity map from client ID to address (server/lib/turbotunnel.go): a ring of entries with an
    index, against the history of Set calls. */
module ClientIdMap {
  import opened Options

  datatype Entry<Id, Addr> = Entry(clientID: Id, addr: Addr)

  /** The last `capacity` calls. */
  function Window<T>(history: seq<T>, capacity: nat): seq<T> {
    if |history| <= capacity then history else history[|history| - capacity..]
  }

  /** The address of the latest entry for an ID. */
  function Latest<Id(==), Addr>(entries: seq<Entry<Id, Addr>>, id: Id): Option<Addr> {
    if entries == [] then None
    else if entries[|entries| - 1].clientID == id then Some(entries[|entries| - 1].addr)
    else Latest(entries[..|entries| - 1], id)
  }

  /** What the map should answer after a history of Set calls. */
  function Remembered<Id(==), Addr>(history: seq<Entry<Id, Addr>>, capacity: nat, id: Id): Option<Addr> {
    Latest(Window(history, capacity), id)
  }

  /** The ring position of the entry written `age` calls ago. */
  function Slot(oldest: nat, capacity: nat, age: nat): int {
    if age <= oldest then oldest - age else oldest - age + capacity
  }

  /** The entry of the call made `age` calls ago, the last one being 1 ago. */
  function Ago<T>(history: seq<T>, age: nat): T
    requires 1 <= age <= |history|
  {
    history[|history| - age]
  }

  /** `age` is that of the latest call for `id`. */
  ghost predicate LatestAge<Id(!new), Addr(!new)>(history: seq<Entry<Id, Addr>>, id: Id, age: nat) {
    && 1 <= age <= |history| && Ago(history, age).clientID == id
    && forall a :: 1 <= a < age ==> Ago(history, a).clientID != id
  }

  lemma {:induction false} LatestFound<Id(!new), Addr(!new)>(history: seq<Entry<Id, Addr>>, id: Id, age: nat)
    requires LatestAge(history, id, age)
    ensures Latest(history, id) == Some(Ago(history, age).addr)
  {
    if age > 1 {
      var before := history[..|history| - 1];
      assert Ago(history, 1).clientID != id;
      forall a | 1 <= a < age ensures Ago(before, a) == Ago(history, a + 1) {}
      LatestFound(before, id, age - 1);
    }
  }

  lemma {:induction false} LatestAbsent<Id, Addr>(entries: seq<Entry<Id, Addr>>, id: Id)
    ensures Latest(entries, id).None? <==> forall k :: 0 <= k < |entries| ==> entries[k].clientID != id
  {
    if entries != [] { LatestAbsent(entries[..|entries| - 1], id); }
  }

  /** How many of the slots have been written after `calls` calls. */
  function Written(calls: nat, capacity: nat): nat {
    if calls <= capacity then calls else capacity
  }

  ghost predicate Points<Id(!new), Addr(!new)>(history: seq<Entry<Id, Addr>>, id: Id, slot: int, oldest: nat,
                                               capacity: nat)
  {
    exists age :: 1 <= age <= Written(|history|, capacity) && LatestAge(history, id, age) &&
      slot == Slot(oldest, capacity, age)
  }

  /** The ring holds the last calls in order, and the index points at the latest call for each ID. */
  ghost predicate Ring<Id(!new), Addr(!new)>(entries: seq<Entry<Id, Addr>>, oldest: nat, current: map<Id, nat>,
                                             history: seq<Entry<Id, Addr>>)
  {
    && (|entries| > 0 ==> oldest < |entries|)
    && (|history| < |entries| ==> oldest == |history|)
    && RingEntries(entries, oldest, current, history) && RingIndex(|entries|, oldest, current, history)
  }

  ghost predicate RingEntries<Id(!new), Addr(!new)>(entries: seq<Entry<Id, Addr>>, oldest: nat, current: map<Id, nat>,
                                                    history: seq<Entry<Id, Addr>>)
  {
    forall age :: 1 <= age <= Written(|history|, |entries|) ==>
      && 0 <= Slot(oldest, |entries|, age) < |entries| && entries[Slot(oldest, |entries|, age)] == Ago(history, age)
      && Ago(history, age).clientID in current
  }

  ghost predicate RingIndex<Id(!new), Addr(!new)>(capacity: nat, oldest: nat, current: map<Id, nat>,
                                                  history: seq<Entry<Id, Addr>>)
  {
    forall id :: id in current ==> Points(history, id, current[id], oldest, capacity)
  }

  /** What Set leaves in the index before it adds the new entry. */
  function Forget<Id(==), Addr>(entries: seq<Entry<Id, Addr>>, oldest: nat, current: map<Id, nat>): map<Id, nat>
    requires oldest < |entries|
  {
    var id := entries[oldest].clientID;
    if id in current && current[id] == oldest then current - {id} else current
  }

  /** An indexed ID is forgotten exactly when its latest call is `capacity` calls ago, the one about to be
      overwritten. */
  lemma ForgetKeeps<Id(!new), Addr(!new)>(entries: seq<Entry<Id, Addr>>, oldest: nat, current: map<Id, nat>,
                                          history: seq<Entry<Id, Addr>>, id: Id) returns (age: nat)
    requires Ring(entries, oldest, current, history) && |entries| > 0 && id in current
    ensures 1 <= age <= Written(|history|, |entries|) && LatestAge(history, id, age)
    ensures current[id] == Slot(oldest, |entries|, age)
    ensures id in Forget(entries, oldest, current) <==> age < |entries|
  {
    assert Points(history, id, current[id], oldest, |entries|);
    age :| 1 <= age <= Written(|history|, |entries|) && LatestAge(history, id, age) &&
           current[id] == Slot(oldest, |entries|, age);
    assert entries[Slot(oldest, |entries|, age)] == Ago(history, age);
  }

  function NextSlot(oldest: nat, capacity: nat): nat
    requires oldest < capacity
  {
    (oldest + 1) % capacity
  }

  lemma NextSlotIs(oldest: nat, capacity: nat)
    requires oldest < capacity
    ensures NextSlot(oldest, capacity) == if oldest + 1 == capacity then 0 else oldest + 1
  {
  }

  lemma SlotShifts(oldest: nat, capacity: nat, age: nat)
    requires oldest < capacity && 1 <= age < capacity
    ensures Slot(NextSlot(oldest, capacity), capacity, age + 1) == Slot(oldest, capacity, age) != oldest
    ensures 0 <= Slot(oldest, capacity, age) < capacity
  {
    NextSlotIs(oldest, capacity);
  }

  lemma FirstSlot(oldest: nat, capacity: nat)
    requires oldest < capacity
    ensures Slot(NextSlot(oldest, capacity), capacity, 1) == oldest
  {
    NextSlotIs(oldest, capacity);
  }

  lemma AgesShift<Id(!new), Addr(!new)>(history: seq<Entry<Id, Addr>>, e: Entry<Id, Addr>, id: Id, age: nat)
    requires 1 <= age <= |history|
    ensures Ago(history + [e], age + 1) == Ago(history, age)
    ensures LatestAge(history, id, age) && id != e.clientID ==> LatestAge(history + [e], id, age + 1)
  {
    if LatestAge(history, id, age) && id != e.clientID {
      forall a | 1 <= a < age + 1 ensures Ago(history + [e], a).clientID != id {
        if a > 1 { assert Ago(history + [e], a) == Ago(history, a - 1); }
      }
    }
  }

  /** Set keeps the ring right: the entries. */
  lemma SetEntries<Id(!new), Addr(!new)>(entries: seq<Entry<Id, Addr>>, oldest: nat, current: map<Id, nat>,
                                         history: seq<Entry<Id, Addr>>, e: Entry<Id, Addr>, age: nat)
    requires Ring(entries, oldest, current, history) && |entries| > 0
    requires 1 <= age <= Written(|history| + 1, |entries|)
    ensures var slot := Slot(NextSlot(oldest, |entries|), |entries|, age);
            0 <= slot < |entries| && entries[oldest := e][slot] == Ago(history + [e], age)
    ensures Ago(history + [e], age).clientID in Forget(entries, oldest, current)[e.clientID := oldest]
  {
    FirstSlot(oldest, |entries|);
    if age > 1 {
      SlotShifts(oldest, |entries|, age - 1);
      AgesShift(history, e, e.clientID, age - 1);
      var id := Ago(history, age - 1).clientID;
      var latest := ForgetKeeps(entries, oldest, current, history, id);
      assert latest <= age - 1;
    }
  }

  /** Set keeps the ring right: the index. */
  lemma SetIndex<Id(!new), Addr(!new)>(entries: seq<Entry<Id, Addr>>, oldest: nat, current: map<Id, nat>,
                                       history: seq<Entry<Id, Addr>>, e: Entry<Id, Addr>, id: Id)
    requires Ring(entries, oldest, current, history) && |entries| > 0
    requires id in Forget(entries, oldest, current)[e.clientID := oldest]
    ensures Points(history + [e], id, Forget(entries, oldest, current)[e.clientID := oldest][id],
                   NextSlot(oldest, |entries|), |entries|)
  {
    if id == e.clientID {
      FirstSlot(oldest, |entries|);
      assert LatestAge(history + [e], id, 1);
    } else {
      var age := ForgetKeeps(entries, oldest, current, history, id);
      SlotShifts(oldest, |entries|, age);
      AgesShift(history, e, id, age);
      assert LatestAge(history + [e], id, age + 1);
    }
  }

  lemma SetKeepsEntries<Id(!new), Addr(!new)>(entries: seq<Entry<Id, Addr>>, oldest: nat, current: map<Id, nat>,
                                              history: seq<Entry<Id, Addr>>, e: Entry<Id, Addr>)
    requires Ring(entries, oldest, current, history) && |entries| > 0
    ensures RingEntries(entries[oldest := e], NextSlot(oldest, |entries|),
                        Forget(entries, oldest, current)[e.clientID := oldest], history + [e])
  {
    forall age | 1 <= age <= Written(|history + [e]|, |entries|)
      ensures var slot := Slot(NextSlot(oldest, |entries|), |entries|, age);
              0 <= slot < |entries| && entries[oldest := e][slot] == Ago(history + [e], age)
      ensures Ago(history + [e], age).clientID in Forget(entries, oldest, current)[e.clientID := oldest]
    {
      SetEntries(entries, oldest, current, history, e, age);
    }
  }

  lemma SetKeepsIndex<Id(!new), Addr(!new)>(entries: seq<Entry<Id, Addr>>, oldest: nat, current: map<Id, nat>,
                                            history: seq<Entry<Id, Addr>>, e: Entry<Id, Addr>)
    requires Ring(entries, oldest, current, history) && |entries| > 0
    ensures RingIndex(|entries|, NextSlot(oldest, |entries|), Forget(entries, oldest, current)[e.clientID := oldest],
                      history + [e])
  {
    var current' := Forget(entries, oldest, current)[e.clientID := oldest];
    forall id | id in current' ensures Points(history + [e], id, current'[id], NextSlot(oldest, |entries|), |entries|) {
      SetIndex(entries, oldest, current, history, e, id);
    }
  }

  lemma SetKeepsRing<Id(!new), Addr(!new)>(entries: seq<Entry<Id, Addr>>, oldest: nat, current: map<Id, nat>,
                                           history: seq<Entry<Id, Addr>>, e: Entry<Id, Addr>)
    requires Ring(entries, oldest, current, history) && |entries| > 0
    ensures Ring(entries[oldest := e], NextSlot(oldest, |entries|),
                 Forget(entries, oldest, current)[e.clientID := oldest], history + [e])
  {
    SetKeepsEntries(entries, oldest, current, history, e);
    SetKeepsIndex(entries, oldest, current, history, e);
  }

  /** The window's answer, from the age of the latest call. */
  lemma RememberedAt<Id(!new), Addr(!new)>(history: seq<Entry<Id, Addr>>, capacity: nat, id: Id, age: nat)
    requires 1 <= age <= Written(|history|, capacity) && LatestAge(history, id, age)
    ensures Remembered(history, capacity, id) == Some(Ago(history, age).addr)
  {
    var w := Window(history, capacity);
    forall a | 1 <= a <= age ensures Ago(w, a) == Ago(history, a) {}
    LatestFound(w, id, age);
  }

  lemma RememberedNot<Id(!new), Addr(!new)>(history: seq<Entry<Id, Addr>>, capacity: nat, id: Id)
    requires forall a :: 1 <= a <= Written(|history|, capacity) ==> Ago(history, a).clientID != id
    ensures Remembered(history, capacity, id) == None
  {
    var w := Window(history, capacity);
    forall k | 0 <= k < |w| ensures w[k].clientID != id {
      assert Ago(history, |w| - k) == w[k];
    }
    LatestAbsent(w, id);
  }

  class Map<Id(==, !new), Addr(!new)> {
    var entries: array<Entry<Id, Addr>>
    var oldest: nat
    var current: map<Id, nat>
    ghost var history: seq<Entry<Id, Addr>>

    ghost predicate Valid()
      reads this, entries
    {
      Ring(entries[..], oldest, current, history)
    }

    constructor (capacity: nat, zero: Entry<Id, Addr>)
      ensures Valid() && history == [] && entries.Length == capacity && fresh(entries)
    {
      entries := new Entry<Id, Addr>[capacity](_ => zero);
      oldest, current, history := 0, map[], [];
    }

    /** Set: whatever the history, one more call is remembered and the ring stays right. */
    method Set(clientID: Id, addr: Addr)
      requires Valid()
      modifies this, entries
      ensures Valid() && entries == old(entries) && history == old(history) + [Entry(clientID, addr)]
    {
      if entries.Length == 0 {
        history := history + [Entry(clientID, addr)];
        return;
      }
      SetKeepsRing(entries[..], oldest, current, history, Entry(clientID, addr));
      Overwrite(clientID, addr);
    }

    /** The oldest entry makes room. */
    method Overwrite(clientID: Id, addr: Addr)
      requires oldest < entries.Length
      modifies this, entries
      ensures entries == old(entries) && history == old(history) + [Entry(clientID, addr)]
      ensures entries[..] == old(entries[..])[old(oldest) := Entry(clientID, addr)]
      ensures oldest == NextSlot(old(oldest), entries.Length)
      ensures current == Forget(old(entries[..]), old(oldest), old(current))[clientID := old(oldest)]
    {
      var id := entries[oldest].clientID;
      if id in current && current[id] == oldest {
        current := current - {id};
      }
      entries[oldest] := Entry(clientID, addr);
      current := current[clientID := oldest];
      oldest := (oldest + 1) % entries.Length;
      history := history + [Entry(clientID, addr)];
    }

    /** Get: the latest of the last `capacity` calls for the ID, or nothing. */
    method Get(id: Id) returns (r: Option<Addr>)
      requires Valid()
      ensures r == Remembered(history, entries.Length, id)
    {
      ghost var capacity := |entries[..]|;
      if id in current {
        assert Points(history, id, current[id], oldest, capacity);
        ghost var age :| 1 <= age <= Written(|history|, capacity) && LatestAge(history, id, age) &&
                         current[id] == Slot(oldest, capacity, age);
        RememberedAt(history, capacity, id, age);
        r := Some(entries[current[id]].addr);
      } else {
        RememberedNot(history, capacity, id);
        r := None;
      }
    }
  }

  lemma WindowSnoc<T>(history: seq<T>, capacity: nat, e: T)
    requires capacity > 0
    ensures Window(history + [e], capacity) ==
            (if |history| < capacity then history else Window(history, capacity)[1..]) + [e]
  {
  }

  lemma {:induction false} LatestCons<Id, Addr>(first: Entry<Id, Addr>, rest: seq<Entry<Id, Addr>>, id: Id)
    ensures Latest([first] + rest, id) ==
            if Latest(rest, id).Some? then Latest(rest, id) else if first.clientID == id then Some(first.addr) else None
  {
    var all := [first] + rest;
    if rest == [] {
      assert all[..0] == [];
    } else {
      assert all[..|all| - 1] == [first] + rest[..|rest| - 1];
      LatestCons(first, rest[..|rest| - 1], id);
    }
  }

  /** One call of Set, seen from outside: its own ID is remembered with the new address, and every other ID
      keeps its answer, except that the ID whose latest call was exactly `capacity` calls ago is forgotten.
      So at most one other ID is forgotten. */
  lemma SetForgetsAtMostOne<Id(!new), Addr(!new)>(history: seq<Entry<Id, Addr>>, capacity: nat, e: Entry<Id, Addr>,
                                                  id: Id)
    ensures capacity == 0 ==> Remembered(history, capacity, id) == Remembered(history + [e], capacity, id) == None
    ensures capacity > 0 && id == e.clientID ==> Remembered(history + [e], capacity, id) == Some(e.addr)
    ensures capacity > 0 && id != e.clientID ==>
              Remembered(history + [e], capacity, id) ==
              if |history| >= capacity && LatestAge(history, id, capacity) then None
              else Remembered(history, capacity, id)
  {
    if capacity > 0 {
      WindowSnoc(history, capacity, e);
      var kept := if |history| < capacity then history else Window(history, capacity)[1..];
      assert (kept + [e])[..|kept|] == kept;
      if |history| >= capacity {
        var w := Window(history, capacity);
        LatestCons(w[0], kept, id);
        assert [w[0]] + kept == w;
        LatestAbsent(kept, id);
        KeptAges(history, capacity, id);
      }
    }
  }

  /** The latest call for an ID is `capacity` calls ago iff it is the one leaving the window and no other
      call in the window is for it. */
  lemma KeptAges<Id(!new), Addr(!new)>(history: seq<Entry<Id, Addr>>, capacity: nat, id: Id)
    requires 0 < capacity <= |history|
    ensures var w := Window(history, capacity);
            LatestAge(history, id, capacity) <==>
            w[0].clientID == id && forall k :: 0 <= k < |w[1..]| ==> w[1..][k].clientID != id
  {
    var w := Window(history, capacity);
    assert Ago(history, capacity) == w[0];
    if forall k :: 0 <= k < |w[1..]| ==> w[1..][k].clientID != id {
      forall a | 1 <= a < capacity ensures Ago(history, a).clientID != id {
        assert Ago(history, a) == w[1..][capacity - 1 - a];
      }
    } else {
      var k :| 0 <= k < |w[1..]| && w[1..][k].clientID == id;
      assert Ago(history, capacity - 1 - k) == w[1..][k];
    }
  }
}
