/** The hardware-counter slots of one process: events are added, shared by reference count, activated and removed. */
module PapiSlots {
  import opened Options

  datatype Event = Event(references: int, code: int, active: bool)

  /** A handle on an event: its code and the slot it was given. */
  datatype HwEvent = HwEvent(code: int, index: nat)

  type Slots = seq<Option<Event>>

  /** The manager, with the handles that exist. */
  datatype Manager = Manager(slots: Slots, added: nat, running: bool, live: multiset<HwEvent>)

  // ----- searches -----

  predicate Holds(slot: Option<Event>, code: int) {
    slot.Some? && slot.value.code == code
  }

  /** The first slot with an event code. */
  function FindCode(slots: Slots, code: int): (i: nat)
    ensures i <= |slots| && (i < |slots| ==> Holds(slots[i], code))
    ensures forall j | 0 <= j < i :: !Holds(slots[j], code)
  {
    if slots == [] || Holds(slots[0], code) then 0 else
    var i := FindCode(slots[1..], code);
    assert forall j | 1 <= j < i + 1 :: slots[j] == slots[1..][j - 1];
    i + 1
  }

  function FindFree(slots: Slots): (i: nat)
    ensures i <= |slots| && (i < |slots| ==> slots[i].None?)
    ensures forall j | 0 <= j < i :: slots[j].Some?
  {
    if slots == [] || slots[0].None? then 0 else
    var i := FindFree(slots[1..]);
    assert forall j | 1 <= j < i + 1 :: slots[j] == slots[1..][j - 1];
    i + 1
  }

  function Occupied(slots: Slots): nat {
    if slots == [] then 0 else (if slots[0].Some? then 1 else 0) + Occupied(slots[1..])
  }

  // ----- the operations -----

  datatype Created = Created(manager: Manager, event: Option<HwEvent>)

  /** createHwEvent; `accepted` is what the hardware says to a new event. With all counters taken even an event that has
      a slot is refused. */
  function AfterCreate(m: Manager, code: int, accepted: bool): Created {
    var i := FindCode(m.slots, code);
    var free := FindFree(m.slots);
    if m.added >= |m.slots| then Created(m, None)
    else if i < |m.slots| then
      var e := m.slots[i].value;
      Created(m.(slots := m.slots[i := Some(e.(references := e.references + 1))],
                 live := m.live + multiset{HwEvent(code, i)}), Some(HwEvent(code, i)))
    else if !accepted || free >= |m.slots| then Created(m, None)
    else Created(m.(slots := m.slots[free := Some(Event(1, code, false))], added := m.added + 1,
                    live := m.live + multiset{HwEvent(code, free)}), Some(HwEvent(code, free)))
  }

  function Restarted(m: Manager): Manager {
    if m.added > 0 && !m.running then m.(running := true) else m
  }

  /** Deleting a handle; `removed` is the outcome of the remote call that removes an active event. When that fails the
      slot stays, without references. */
  function AfterDestroy(m: Manager, e: HwEvent, removed: bool): Manager {
    var i := FindCode(m.slots, e.code);
    var gone := m.(live := m.live - multiset{e});
    if i >= |m.slots| then gone else
    var event := m.slots[i].value.(references := m.slots[i].value.references - 1);
    if event.references != 0 then Restarted(gone.(slots := m.slots[i := Some(event)]))
    else if !event.active then Restarted(gone.(slots := m.slots[i := None]))
    else if !removed then gone.(slots := m.slots[i := Some(event)], running := false)
    else if m.added == 0 then gone
    else Restarted(gone.(slots := m.slots[i := None], added := m.added - 1, running := false))
  }

  function Activated(slot: Option<Event>): Option<Event> {
    if slot.Some? && slot.value.references > 0 then Some(slot.value.(active := true)) else slot
  }

  function AfterEnable(m: Manager, e: HwEvent): Manager
    requires e.index < |m.slots|
  {
    Restarted(m.(slots := m.slots[e.index := Activated(m.slots[e.index])]))
  }

  function AfterEnablePending(m: Manager): Manager {
    Restarted(m.(slots := seq(|m.slots|, i requires 0 <= i < |m.slots| => Activated(m.slots[i]))))
  }

  // ----- the invariant -----

  predicate CodesDistinct(slots: Slots) {
    forall i, j | 0 <= i < j < |slots| && slots[i].Some? && slots[j].Some? :: slots[i].value.code != slots[j].value.code
  }

  /** A slot's reference count is the number of handles on it. */
  predicate CountsExact(m: Manager) {
    forall i | 0 <= i < |m.slots| && m.slots[i].Some? ::
      m.slots[i].value.references == m.live[HwEvent(m.slots[i].value.code, i)]
  }

  /** The slot a handle was given still holds its code. */
  predicate HandlesGood(m: Manager) {
    forall e <- m.live :: e.index < |m.slots| && Holds(m.slots[e.index], e.code)
  }

  predicate Inv(m: Manager) {
    && Occupied(m.slots) <= m.added <= |m.slots|
    && CodesDistinct(m.slots) && CountsExact(m) && HandlesGood(m)
  }

  datatype Op =
    | Create(code: int, accepted: bool)
    | Destroy(e: HwEvent, removed: bool)
    | Enable(e: HwEvent)
    | EnablePending

  predicate Possible(m: Manager, op: Op) {
    match op
    case Destroy(e, _) => e in m.live
    case Enable(e) => e in m.live
    case _ => true
  }

  function Step(m: Manager, op: Op): Manager
    requires Inv(m) && Possible(m, op)
  {
    match op
    case Create(code, accepted) => AfterCreate(m, code, accepted).manager
    case Destroy(e, removed) => AfterDestroy(m, e, removed)
    case Enable(e) => AfterEnable(m, e)
    case EnablePending => AfterEnablePending(m)
  }

  // ----- every operation keeps it -----

  lemma {:induction false} OccupiedUpdate(slots: Slots, i: nat, slot: Option<Event>)
    requires i < |slots|
    ensures Occupied(slots[i := slot])
      == Occupied(slots) - (if slots[i].Some? then 1 else 0) + (if slot.Some? then 1 else 0)
  {
    if i == 0 {
      assert slots[i := slot][1..] == slots[1..];
    } else {
      assert slots[i := slot][1..] == slots[1..][i - 1 := slot];
      OccupiedUpdate(slots[1..], i - 1, slot);
    }
  }

  lemma {:induction false} OccupiedSame(a: Slots, b: Slots)
    requires |a| == |b| && forall i | 0 <= i < |a| :: a[i].Some? <==> b[i].Some?
    ensures Occupied(a) == Occupied(b)
  {
    if a != [] {
      assert forall i | 0 <= i < |a| - 1 :: a[1..][i] == a[i + 1] && b[1..][i] == b[i + 1];
      OccupiedSame(a[1..], b[1..]);
    }
  }

  /** With fewer events occupied than there are slots, the search for a free slot stays in range. */
  lemma {:induction false} FreeSlotInRange(slots: Slots)
    ensures Occupied(slots) <= |slots|
    ensures FindFree(slots) < |slots| <==> Occupied(slots) < |slots|
  {
    if slots != [] {
      FreeSlotInRange(slots[1..]);
    }
  }

  /** Among distinct codes, a handle's own slot is the one found for its code. */
  lemma FindsOwnSlot(m: Manager, e: HwEvent)
    requires Inv(m) && e in m.live
    ensures FindCode(m.slots, e.code) == e.index < |m.slots|
    ensures m.slots[e.index].value.references == m.live[e] > 0
  {
    var i := FindCode(m.slots, e.code);
    assert Holds(m.slots[e.index], e.code);
    assert i <= e.index;
  }

  lemma SharedKeepsInv(m: Manager, code: int)
    requires Inv(m) && m.added < |m.slots| && FindCode(m.slots, code) < |m.slots|
    ensures Inv(AfterCreate(m, code, true).manager)
  {
    var i := FindCode(m.slots, code);
    OccupiedUpdate(m.slots, i, AfterCreate(m, code, true).manager.slots[i]);
  }

  lemma AddedKeepsInv(m: Manager, code: int)
    requires Inv(m) && m.added < |m.slots| && FindCode(m.slots, code) == |m.slots|
    ensures Inv(AfterCreate(m, code, true).manager)
  {
    var free := FindFree(m.slots);
    FreeSlotInRange(m.slots);
    assert HwEvent(code, free) !in m.live;
    OccupiedUpdate(m.slots, free, Some(Event(1, code, false)));
  }

  lemma CreateKeepsInv(m: Manager, code: int, accepted: bool)
    requires Inv(m)
    ensures Inv(AfterCreate(m, code, accepted).manager)
  {
    if m.added < |m.slots| {
      if FindCode(m.slots, code) < |m.slots| {
        SharedKeepsInv(m, code);
      } else if accepted {
        AddedKeepsInv(m, code);
      }
    }
  }

  /** One handle less on a slot, which is emptied only if that was the last. */
  lemma OneHandleLess(m: Manager, e: HwEvent, after: Manager, slot: Option<Event>)
    requires Inv(m) && e in m.live && after.live == m.live - multiset{e}
    requires e.index < |m.slots| && after.slots == m.slots[e.index := slot]
    requires if slot.None? then m.live[e] == 1 else slot.value.code == e.code && slot.value.references == m.live[e] - 1
    ensures CodesDistinct(after.slots) && CountsExact(after) && HandlesGood(after)
  {
    assert Holds(m.slots[e.index], e.code);
    forall d <- after.live
      ensures d.index < |after.slots| && Holds(after.slots[d.index], d.code)
    {
      assert d in m.live;
    }
  }

  /** Removing a handle touches its own slot only. The count of added events falls only with an active event. */
  lemma DestroyShape(m: Manager, e: HwEvent, removed: bool)
    requires Inv(m) && e in m.live
    ensures var after := AfterDestroy(m, e, removed);
      && e.index < |m.slots| && Holds(m.slots[e.index], e.code)
      && after.live == m.live - multiset{e}
      && var event := m.slots[e.index].value;
         var slot := if m.live[e] == 1 && !(event.active && !removed) then None
                     else Some(event.(references := event.references - 1));
         && event.references == m.live[e]
         && after.slots == m.slots[e.index := slot]
         && after.added == (if slot.None? && event.active then m.added - 1 else m.added)
         && after.running == (if m.live[e] > 1 || !event.active then m.running || m.added > 0
                              else removed && after.added > 0)
  {
    FindsOwnSlot(m, e);
    OccupiedUpdate(m.slots, e.index, None);
  }

  lemma {:induction false} DestroyKeepsInv(m: Manager, e: HwEvent, removed: bool)
    requires Inv(m) && e in m.live
    ensures Inv(AfterDestroy(m, e, removed))
  {
    DestroyShape(m, e, removed);
    hide AfterDestroy, CountsExact, HandlesGood, CodesDistinct;
    var after := AfterDestroy(m, e, removed);
    OccupiedUpdate(m.slots, e.index, after.slots[e.index]);
    OneHandleLess(m, e, after, after.slots[e.index]);
  }

  lemma EnableKeepsInv(m: Manager, e: HwEvent)
    requires Inv(m) && e in m.live
    ensures Inv(AfterEnable(m, e))
  {
    FindsOwnSlot(m, e);
    hide FindCode, Occupied;
    OccupiedUpdate(m.slots, e.index, AfterEnable(m, e).slots[e.index]);
  }

  lemma EnablePendingKeepsInv(m: Manager)
    requires Inv(m)
    ensures Inv(AfterEnablePending(m))
  {
    var after := AfterEnablePending(m);
    assert forall i | 0 <= i < |m.slots| :: after.slots[i] == Activated(m.slots[i]);
    hide AfterEnablePending, Occupied;
    OccupiedSame(m.slots, after.slots);
  }

  /** Creation fails exactly if all counters count as taken, or the event is new and the hardware refuses it; a failure
      changes nothing. Success adds one handle: on the slot that holds the code, which keeps its event and counts one
      more reference; or on a free slot, which gets the event, not yet active. */
  lemma CreateExactly(m: Manager, code: int, accepted: bool)
    requires Inv(m)
    ensures var r := AfterCreate(m, code, accepted);
      var known := exists i | 0 <= i < |m.slots| :: Holds(m.slots[i], code);
      && (r.event.None? <==> m.added == |m.slots| || (!known && !accepted))
      && (r.event.None? ==> r.manager == m)
      && (r.event.Some? ==>
            && r.event.value.code == code && r.manager.live == m.live + multiset{r.event.value}
            && var i := r.event.value.index;
               && i < |m.slots| && r.manager.running == m.running
               && (if known then Holds(m.slots[i], code) else m.slots[i].None?)
               && r.manager.slots == m.slots[i := Some(if known
                    then Event(m.slots[i].value.references + 1, code, m.slots[i].value.active)
                    else Event(1, code, false))]
               && r.manager.added == if known then m.added else m.added + 1)
  {
    FreeSlotInRange(m.slots);
    var i := FindCode(m.slots, code);
    assert i < |m.slots| ==> Holds(m.slots[i], code);
  }

  /** Enabling a handle leaves its own event active, with the references it had, and the counters running; nothing else
      changes. */
  lemma EnableExactly(m: Manager, e: HwEvent)
    requires Inv(m) && e in m.live
    ensures var after := AfterEnable(m, e);
      && e.index < |m.slots|
      && after.slots == m.slots[e.index := Some(Event(m.live[e], e.code, true))]
      && after.running && after.added == m.added && after.live == m.live
  {
    FindsOwnSlot(m, e);
    OccupiedUpdate(m.slots, e.index, None);
    hide FindCode, Occupied;
  }

  /** Afterwards every event with a handle is active, codes and references are as they were, and the counters run if
      they did or any event is counted. */
  lemma EnablePendingExactly(m: Manager)
    requires Inv(m)
    ensures var after := AfterEnablePending(m);
      && |after.slots| == |m.slots| && after.added == m.added && after.live == m.live
      && (forall e <- m.live :: e.index < |m.slots| && after.slots[e.index] == Some(Event(m.live[e], e.code, true)))
      && (forall i | 0 <= i < |m.slots| && (m.slots[i].None? || m.slots[i].value.references == 0) ::
            after.slots[i] == m.slots[i])
      && (after.running <==> m.running || m.added > 0)
  {
    forall e <- m.live
      ensures e.index < |m.slots| && AfterEnablePending(m).slots[e.index] == Some(Event(m.live[e], e.code, true))
    {
      FindsOwnSlot(m, e);
    }
    hide Inv;
  }

  lemma CreateAdds(m: Manager, code: int, accepted: bool)
    ensures var r := AfterCreate(m, code, accepted);
      r.manager.live == m.live + (if r.event.Some? then multiset{r.event.value} else multiset{})
      && (r.event.None? ==> r.manager == m)
  {
  }

  /** Occupied slots never exceed the events counted as added, nor those the counters there are; codes are distinct;
      counts are exact; and every handle's slot still holds its code. */
  lemma {:induction false} StepKeepsInv(m: Manager, op: Op)
    requires Inv(m) && Possible(m, op)
    ensures Inv(Step(m, op))
  {
    match op
    case Create(code, accepted) => CreateKeepsInv(m, code, accepted);
    case Destroy(e, removed) => DestroyKeepsInv(m, e, removed);
    case Enable(e) => EnableKeepsInv(m, e);
    case EnablePending => EnablePendingKeepsInv(m);
  }

  // ----- runs, and the counters they lose -----

  /** Whether an operation gives up the slot of an event that never became active: the event is still counted as
      added. */
  function Leaks(m: Manager, op: Op): nat
    requires Inv(m) && Possible(m, op)
  {
    if op.Destroy? && m.live[op.e] == 1 && op.e.index < |m.slots| && m.slots[op.e.index].Some?
       && !m.slots[op.e.index].value.active then 1 else 0
  }

  lemma CreateConserves(m: Manager, code: int, accepted: bool)
    requires Inv(m)
    ensures var after := AfterCreate(m, code, accepted).manager;
      after.added - Occupied(after.slots) == m.added - Occupied(m.slots)
  {
    var after := AfterCreate(m, code, accepted).manager;
    var i, free := FindCode(m.slots, code), FindFree(m.slots);
    if m.added < |m.slots| {
      if i < |m.slots| {
        OccupiedUpdate(m.slots, i, after.slots[i]);
      } else if accepted && free < |m.slots| {
        OccupiedUpdate(m.slots, free, after.slots[free]);
      }
    }
  }

  lemma CountedIfOccupied(m: Manager, i: nat)
    requires Inv(m) && i < |m.slots| && m.slots[i].Some?
    ensures m.added > 0
  {
    EmptyOrOccupied(m.slots, i);
  }

  /** Counted but not occupied: this grows by exactly one with each such removal, and never shrinks. */
  lemma StepConserves(m: Manager, op: Op)
    requires Inv(m) && Possible(m, op)
    ensures Step(m, op).added - Occupied(Step(m, op).slots) == m.added - Occupied(m.slots) + Leaks(m, op)
  {
    match op
    case Create(code, accepted) => CreateConserves(m, code, accepted);
    case Destroy(e, removed) => DestroyConserves(m, e, removed);
    case Enable(e) => EnableConserves(m, e);
    case EnablePending => EnablePendingConserves(m);
    hide AfterCreate, AfterDestroy, AfterEnable, AfterEnablePending, Inv, Occupied;
  }

  lemma DestroyConserves(m: Manager, e: HwEvent, removed: bool)
    requires Inv(m) && e in m.live
    ensures var after := AfterDestroy(m, e, removed);
      after.added - Occupied(after.slots) == m.added - Occupied(m.slots) + Leaks(m, Destroy(e, removed))
  {
    DestroyShape(m, e, removed);
    hide AfterDestroy, Inv, Occupied;
    OccupiedUpdate(m.slots, e.index, AfterDestroy(m, e, removed).slots[e.index]);
    CountedIfOccupied(m, e.index);
  }

  lemma EnableConserves(m: Manager, e: HwEvent)
    requires Inv(m) && e in m.live
    ensures e.index < |m.slots|
    ensures var after := AfterEnable(m, e);
      after.added - Occupied(after.slots) == m.added - Occupied(m.slots)
  {
    FindsOwnSlot(m, e);
    hide FindCode, Inv, Occupied;
    OccupiedUpdate(m.slots, e.index, AfterEnable(m, e).slots[e.index]);
  }

  lemma EnablePendingConserves(m: Manager)
    ensures var after := AfterEnablePending(m);
      after.added - Occupied(after.slots) == m.added - Occupied(m.slots)
  {
    var after := AfterEnablePending(m);
    assert forall i | 0 <= i < |m.slots| :: after.slots[i] == Activated(m.slots[i]);
    hide Occupied;
    OccupiedSame(m.slots, after.slots);
  }

  lemma {:induction false} EmptyOrOccupied(slots: Slots, i: nat)
    requires i < |slots| && slots[i].Some?
    ensures Occupied(slots) > 0
  {
    OccupiedUpdate(slots, i, None);
  }

  predicate IsRun(m: Manager, ops: seq<Op>)
    requires Inv(m)
    decreases ops
  {
    ops == [] || (Possible(m, ops[0]) && (StepKeepsInv(m, ops[0]); IsRun(Step(m, ops[0]), ops[1..])))
  }

  function AfterRun(m: Manager, ops: seq<Op>): Manager
    requires Inv(m) && IsRun(m, ops)
    decreases ops
  {
    if ops == [] then m else
    StepKeepsInv(m, ops[0]);
    AfterRun(Step(m, ops[0]), ops[1..])
  }

  function TotalLeaks(m: Manager, ops: seq<Op>): nat
    requires Inv(m) && IsRun(m, ops)
    decreases ops
  {
    if ops == [] then 0 else
    StepKeepsInv(m, ops[0]);
    Leaks(m, ops[0]) + TotalLeaks(Step(m, ops[0]), ops[1..])
  }

  /** Over any run the invariant holds, and the events counted as added are those occupying slots, plus one for every
      removal of an event that never became active. */
  lemma {:induction false} RunConserves(m: Manager, ops: seq<Op>)
    requires Inv(m) && IsRun(m, ops)
    ensures Inv(AfterRun(m, ops))
    ensures AfterRun(m, ops).added - Occupied(AfterRun(m, ops).slots)
      == m.added - Occupied(m.slots) + TotalLeaks(m, ops)
    decreases ops
  {
    if ops != [] {
      StepKeepsInv(m, ops[0]);
      StepConserves(m, ops[0]);
      RunConserves(Step(m, ops[0]), ops[1..]);
    }
  }

  // ----- all counters lost -----

  function Idle(n: nat, added: nat, running: bool): Manager {
    Manager(seq(n, _ => None), added, running, multiset{})
  }

  lemma {:induction false} IdleOccupied(n: nat)
    ensures Occupied(seq(n, _ => None)) == 0
  {
    if n > 0 {
      var all: Slots := seq(n, _ => None);
      assert all[1..] == seq(n - 1, _ => None);
      IdleOccupied(n - 1);
    }
  }

  /** Creating an event and deleting it before it is enabled, n times over. */
  function Cycles(n: nat, code: int): seq<Op> {
    if n == 0 then [] else [Create(code, true), Destroy(HwEvent(code, 0), true)] + Cycles(n - 1, code)
  }

  lemma OneCycle(n: nat, added: nat, running: bool, code: int)
    requires added < n
    ensures Inv(Idle(n, added, running))
    ensures var created := AfterCreate(Idle(n, added, running), code, true).manager;
      && created.live == multiset{HwEvent(code, 0)}
      && AfterDestroy(created, HwEvent(code, 0), true) == Idle(n, added + 1, true)
  {
    IdleOccupied(n);
    var idle := Idle(n, added, running);
    var created := AfterCreate(idle, code, true).manager;
    assert FindCode(idle.slots, code) == n && FindFree(idle.slots) == 0;
    assert FindCode(created.slots, code) == 0;
    assert created.slots[0 := None] == idle.slots;
  }

  lemma {:induction false} RunTwo(m: Manager, first: Op, second: Op, rest: seq<Op>)
    requires Inv(m) && Possible(m, first) && Inv(Step(m, first)) && Possible(Step(m, first), second)
    requires Inv(Step(Step(m, first), second)) && IsRun(Step(Step(m, first), second), rest)
    ensures IsRun(m, [first, second] + rest)
    ensures AfterRun(m, [first, second] + rest) == AfterRun(Step(Step(m, first), second), rest)
  {
    hide Step, Inv;
    var ops := [first, second] + rest;
    assert ops[1..] == [second] + rest && ([second] + rest)[1..] == rest;
    assert IsRun(Step(m, first), ops[1..]);
  }

  /** With any number of counters, that many unused events exhaust them: every slot is empty, no handle is left, and
      everything counts as added. */
  lemma {:induction false} CyclesExhaust(n: nat, added: nat, running: bool, code: int)
    requires added <= n
    ensures Inv(Idle(n, added, running)) && IsRun(Idle(n, added, running), Cycles(n - added, code))
    ensures exists r :: AfterRun(Idle(n, added, running), Cycles(n - added, code)) == Idle(n, n, r)
    decreases n - added
  {
    IdleOccupied(n);
    var idle := Idle(n, added, running);
    var ops := Cycles(n - added, code);
    if added == n {
      assert AfterRun(idle, ops) == Idle(n, n, running);
    } else {
      OneCycle(n, added, running, code);
      CyclesExhaust(n, added + 1, true, code);
      StepKeepsInv(idle, ops[0]);
      RunTwo(idle, ops[0], ops[1], Cycles(n - added - 1, code));
    }
    hide Step, AfterRun, IsRun;
  }

  /** And that is for good: nothing can be created any more, whatever is asked for. */
  lemma {:induction false} ExhaustedForever(n: nat, running: bool, ops: seq<Op>)
    requires Inv(Idle(n, n, running)) && IsRun(Idle(n, n, running), ops)
    ensures exists r :: AfterRun(Idle(n, n, running), ops) == Idle(n, n, r)
    ensures forall code, accepted :: AfterCreate(AfterRun(Idle(n, n, running), ops), code, accepted).event == None
    decreases ops
  {
    var idle := Idle(n, n, running);
    if ops == [] {
      assert AfterRun(idle, ops) == Idle(n, n, running);
    } else {
      var next := Step(idle, ops[0]);
      assert next.slots == idle.slots;
      assert next == Idle(n, n, next.running);
      StepKeepsInv(idle, ops[0]);
      ExhaustedForever(n, next.running, ops[1..]);
    }
  }

  // ----- the manager of one process -----

  /** What taking a reference off the event in slot i does to the slots, the count and whether the counters run. */
  predicate Dropped(
    slots: Slots, added: nat, running: bool, i: nat, removed: bool,
    slotsAfter: Slots, addedAfter: nat, runningAfter: bool, ok: bool)
    requires i < |slots| && slots[i].Some?
  {
    var event := slots[i].value;
    var last := event.references == 1;
    && ok == !(last && event.active && !removed)
    && slotsAfter == slots[i := if last && ok then None else Some(event.(references := event.references - 1))]
    && addedAfter == (if last && event.active && removed then added - 1 else added)
    && runningAfter == (if !last || !event.active then running || addedAfter > 0 else removed && addedAfter > 0)
  }

  lemma DroppedIsDestroyed(m: Manager, e: HwEvent, removed: bool, after: Manager, ok: bool)
    requires Inv(m) && e in m.live && e.index < |m.slots| && m.slots[e.index].Some?
    requires Dropped(m.slots, m.added, m.running, e.index, removed, after.slots, after.added, after.running, ok)
    requires after.live == m.live - multiset{e}
    ensures after == AfterDestroy(m, e, removed) && (!ok ==> !removed)
  {
    DestroyShape(m, e, removed);
    hide Inv, AfterDestroy;
  }

  class PapiMgr {
    const numHwCntrs: nat
    const eventArray: array<Option<Event>>
    var numAddedEvents: nat
    var papiRunning: bool
    ghost var live: multiset<HwEvent>

    ghost function Now(): Manager
      reads this, eventArray
    {
      Manager(eventArray[..], numAddedEvents, papiRunning, live)
    }

    ghost predicate Valid()
      reads this, eventArray
    {
      eventArray.Length == numHwCntrs && Inv(Now())
    }

    constructor (numHwCntrs: nat)
      ensures Valid() && fresh(eventArray) && Now() == Idle(numHwCntrs, 0, false)
    {
      this.numHwCntrs := numHwCntrs;
      eventArray := new Option<Event>[numHwCntrs](_ => None);
      numAddedEvents, papiRunning, live := 0, false, multiset{};
      new;
      assert eventArray[..] == seq(numHwCntrs, _ => None);
      IdleOccupied(numHwCntrs);
    }

    method SlotOf(code: int) returns (i: nat)
      requires Valid()
      ensures i == FindCode(eventArray[..], code)
    {
      i := 0;
      while i < numHwCntrs
        invariant 0 <= i <= numHwCntrs
        invariant forall j | 0 <= j < i :: !Holds(eventArray[j], code)
      {
        if eventArray[i].Some? && eventArray[i].value.code == code {
          FoundFirst(eventArray[..], code, i);
          return;
        }
        i := i + 1;
      }
      FoundFirst(eventArray[..], code, i);
    }

    method FreeSlot() returns (i: nat)
      requires Valid()
      ensures i == FindFree(eventArray[..])
    {
      i := 0;
      while i < numHwCntrs && eventArray[i].Some?
        invariant 0 <= i <= numHwCntrs
        invariant forall j | 0 <= j < i :: eventArray[j].Some?
      {
        i := i + 1;
      }
      FreeFirst(eventArray[..], i);
    }

    method CreateHwEvent(code: int, accepted: bool) returns (event: Option<HwEvent>)
      requires Valid()
      modifies this, eventArray
      ensures Valid()
      ensures Created(Now(), event) == AfterCreate(old(Now()), code, accepted)
    {
      hide CodesDistinct, CountsExact, HandlesGood, FindCode, FindFree, Occupied;
      CreateKeepsInv(Now(), code, accepted);
      ghost var before := eventArray[..];
      if numAddedEvents >= numHwCntrs {
        return None;
      }
      var i := SlotOf(code);
      if i < numHwCntrs {
        var e := eventArray[i].value;
        eventArray[i] := Some(e.(references := e.references + 1));
      } else {
        i := FreeSlot();
        FreeSlotInRange(before);
        if !accepted {
          return None;
        }
        eventArray[i] := Some(Event(1, code, false));
        numAddedEvents := numAddedEvents + 1;
      }
      assert eventArray[..] == before[i := eventArray[i]];
      live := live + multiset{HwEvent(code, i)};
      return Some(HwEvent(code, i));
    }

    method Restart()
      modifies this`papiRunning
      ensures papiRunning == (old(papiRunning) || numAddedEvents > 0)
    {
      if numAddedEvents > 0 && !papiRunning {
        papiRunning := true;
      }
    }

    /** The destructor of a handle, which tells whether the event was removed properly. */
    method DestroyHwEvent(e: HwEvent, removed: bool) returns (ok: bool)
      requires Valid() && e in live
      modifies this, eventArray
      ensures Valid()
      ensures Now() == AfterDestroy(old(Now()), e, removed)
      ensures !ok ==> !removed
    {
      ghost var start := Now();
      DestroyKeepsInv(start, e, removed);
      FindsOwnSlot(start, e);
      EmptyOrOccupied(start.slots, e.index);
      var i := SlotOf(e.code);
      hide *;
      live := live - multiset{e};
      ok := DropReference(i, removed);
      DroppedIsDestroyed(start, e, removed, Now(), ok);
    }

    /** Takes a reference off an occupied slot, and the event out of it if that was the last and the removal works. */
    method DropReference(i: nat, removed: bool) returns (ok: bool)
      requires i < eventArray.Length && eventArray[i].Some? && numAddedEvents > 0
      modifies eventArray, this`numAddedEvents, this`papiRunning
      ensures Dropped(old(eventArray[..]), old(numAddedEvents), old(papiRunning), i, removed,
                      eventArray[..], numAddedEvents, papiRunning, ok)
    {
      var event := eventArray[i].value;
      eventArray[i] := Some(event.(references := event.references - 1));
      if event.references - 1 == 0 {
        if event.active {
          papiRunning := false;
          if !removed {
            return false;
          }
          numAddedEvents := numAddedEvents - 1;
        }
        eventArray[i] := None;
      }
      Restart();
      ok := true;
    }

    method EnableEvent(e: HwEvent)
      requires Valid() && e in live
      modifies this, eventArray
      ensures Valid()
      ensures Now() == AfterEnable(old(Now()), e)
    {
      ghost var start := Now();
      EnableKeepsInv(start, e);
      FindsOwnSlot(start, e);
      EmptyOrOccupied(start.slots, e.index);
      hide CodesDistinct, CountsExact, HandlesGood, FindCode;
      var event := eventArray[e.index].value;
      if event.references > 0 && !event.active {
        papiRunning := false;
        eventArray[e.index] := Some(event.(active := true));
      }
      assert eventArray[..] == AfterEnable(start, e).slots;
      Restart();
    }

    method EnablePendingHwEvents()
      requires Valid()
      modifies this, eventArray
      ensures Valid()
      ensures Now() == AfterEnablePending(old(Now()))
    {
      ghost var start := Now();
      EnablePendingKeepsInv(start);
      hide Inv;
      var i := 0;
      while i < numHwCntrs
        invariant 0 <= i <= numHwCntrs == eventArray.Length == |start.slots|
        invariant numAddedEvents == start.added && live == start.live
        invariant papiRunning ==> start.running
        invariant start.running && !papiRunning ==> start.added > 0
        invariant forall j | 0 <= j < i :: eventArray[j] == Activated(start.slots[j])
        invariant forall j | i <= j < numHwCntrs :: eventArray[j] == start.slots[j]
      {
        if eventArray[i].Some? && eventArray[i].value.references > 0 && !eventArray[i].value.active {
          CountedIfOccupied(start, i);
          papiRunning := false;
          eventArray[i] := Some(eventArray[i].value.(active := true));
        }
        i := i + 1;
      }
      assert eventArray[..] == AfterEnablePending(start).slots;
      Restart();
    }
  }

  lemma {:induction false} FoundFirst(slots: Slots, code: int, i: nat)
    requires i <= |slots| && (i < |slots| ==> Holds(slots[i], code))
    requires forall j | 0 <= j < i :: !Holds(slots[j], code)
    ensures FindCode(slots, code) == i
  {
    if i > 0 {
      FoundFirst(slots[1..], code, i - 1);
    }
  }

  lemma {:induction false} FreeFirst(slots: Slots, i: nat)
    requires i <= |slots| && (i < |slots| ==> slots[i].None?)
    requires forall j | 0 <= j < i :: slots[j].Some?
    ensures FindFree(slots) == i
  {
    if i > 0 {
      FreeFirst(slots[1..], i - 1);
    }
  }
}
