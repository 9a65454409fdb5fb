/** Whole runs of a daemon that sets up and removes metrics: whose exclusion list is in force, what sharing then gives,
    and which handles are left behind. */
module ConstraintRuns {
  import opened Options
  import opened CodeNodeCache
  import opened ConstraintSharing

  /** The metric being set up; its focus names no process yet. */
  datatype Current = Current(metric: string, focus: string, dontInsertData: bool)

  /** The cache, the global exclusion list, the metric being set up if any, and the handles that metrics own. */
  datatype Daemon = Daemon(cache: Cache, excluded: seq<string>, current: Option<Current>, owned: set<nat>)

  const INITIAL := Daemon(EMPTY, [], None, {})

  /** Setting up a metric: its list is appended; constraints are attached and the metric's node made, process by
      process; and the list is emptied only if that succeeds. Owned handles are given up when a set-up fails or a
      metric is removed. */
  datatype Event =
    | Begin(metric: string, focus: string, dontInsertData: bool)
    | AttachOne(cons: string, focus: string)
    | MeasureOne(focus: string, requests: seq<Address>, ok: bool)
    | GiveUp(h: nat)
    | Finish(ok: bool)

  /** A process's focus selects the code and objects of the metric's focus, on which the list depends. */
  predicate Possible(w: World, d: Daemon, e: Event) {
    match e
    case Begin(metric, _, _) => d.current.None? && Plain(metric)
    case AttachOne(cons, focus) =>
      && d.current.Some? && Plain(d.current.value.metric) && Plain(cons)
      && w.own(d.current.value.metric, focus) == w.own(d.current.value.metric, d.current.value.focus)
    case MeasureOne(_, _, _) => d.current.Some? && Plain(d.current.value.metric)
    case GiveUp(h) => h in d.owned
    case Finish(_) => d.current.Some?
  }

  function SettingOf(d: Daemon, focus: string): Setting
    requires d.current.Some?
  {
    Setting(d.current.value.metric, focus, d.excluded, d.current.value.dontInsertData)
  }

  /** The invariant of every run. */
  ghost predicate Good(w: World, d: Daemon) {
    && Sound(w, d.cache, false)
    && d.owned <= d.cache.handles.Keys
    && (d.current.Some? ==> Plain(d.current.value.metric))
  }

  function AfterAttached(d: Daemon, r: Attached): Daemon {
    d.(cache := r.cache, owned := d.owned + Returned(r))
  }

  function Step(w: World, d: Daemon, e: Event): Daemon
    requires Inv(d.cache) && d.owned <= d.cache.handles.Keys && Possible(w, d, e)
  {
    match e
    case Begin(metric, focus, dontInsertData) =>
      d.(excluded := d.excluded + w.own(metric, focus), current := Some(Current(metric, focus, dontInsertData)))
    case AttachOne(cons, focus) => AfterAttached(d, Attach(w, d.cache, cons, SettingOf(d, focus)))
    case MeasureOne(focus, requests, ok) => AfterAttached(d, Measure(d.cache, SettingOf(d, focus), requests, ok))
    case GiveUp(h) => d.(cache := AfterDelete(d.cache, h), owned := d.owned - {h})
    case Finish(ok) => d.(current := None, excluded := if ok then [] else d.excluded)
  }

  // ----- every step -----

  /** Handles that no metric owns. */
  function LeftBehind(d: Daemon): set<nat> {
    d.cache.handles.Keys - d.owned
  }

  /** The step attaches a constraint whose node is cached but not shared. */
  predicate StepLeaks(w: World, d: Daemon, e: Event)
    requires Inv(d.cache) && Possible(w, d, e)
  {
    e.AttachOne? && Leaks(w, d.cache, e.cons, SettingOf(d, e.focus))
  }

  /** The handles in the set lead to the same nodes as before. */
  ghost predicate Keeps(before: Cache, after: Cache, hs: set<nat>) {
    forall h <- hs | h in before.handles :: h in after.handles && after.handles[h] == before.handles[h]
  }

  lemma AttachKeeps(w: World, c: Cache, cons: string, s: Setting)
    requires Sound(w, c, false) && Named(cons, s)
    ensures var r := Attach(w, c, cons, s);
      && Sound(w, r.cache, false) && Keeps(c, r.cache, c.handles.Keys)
      && Returned(r) <= r.cache.handles.Keys && Returned(r) !! c.handles.Keys
  {
    AttachIsSound(w, c, cons, s, false);
    hide Attach, NodesRight;
  }

  lemma AttachAccounts(w: World, c: Cache, cons: string, s: Setting)
    requires Sound(w, c, false) && Named(cons, s)
    ensures var r := Attach(w, c, cons, s);
      && r.cache.handles.Keys == c.handles.Keys + Returned(r) + (if Leaks(w, c, cons, s) then {c.next} else {})
      && c.next !in c.handles && (Leaks(w, c, cons, s) ==> c.next !in Returned(r))
  {
    AttachLeaksIff(w, c, cons, s);
    assert c.next !in c.handles;
    hide Attach, Leaks, Sound;
  }

  /** Handles nobody owns after handles were returned to a metric, and some others left. */
  lemma LeftAfter(keys: set<nat>, owned: set<nat>, returned: set<nat>, left: set<nat>, after: set<nat>)
    requires after == keys + returned + left && owned <= keys && returned !! keys && left !! keys && left !! returned
    ensures after - (owned + returned) == (keys - owned) + left
  {
  }

  lemma AttachStep(w: World, d: Daemon, cons: string, focus: string)
    requires Good(w, d) && Possible(w, d, AttachOne(cons, focus))
    ensures var after := Step(w, d, AttachOne(cons, focus));
      && Good(w, after) && Keeps(d.cache, after.cache, d.cache.handles.Keys)
      && LeftBehind(after)
         == LeftBehind(d) + if StepLeaks(w, d, AttachOne(cons, focus)) then {d.cache.next} else {}
  {
    var s := SettingOf(d, focus);
    AttachKeeps(w, d.cache, cons, s);
    AttachAccounts(w, d.cache, cons, s);
    var r := Attach(w, d.cache, cons, s);
    hide Attach, Leaks, Sound, Keeps, Returned, Inv;
    LeftAfter(d.cache.handles.Keys, d.owned, Returned(r), if Leaks(w, d.cache, cons, s) then {d.cache.next} else {},
              r.cache.handles.Keys);
  }

  lemma MeasureKeeps(w: World, c: Cache, s: Setting, requests: seq<Address>, ok: bool)
    requires Sound(w, c, false) && Plain(s.metric)
    ensures var r := Measure(c, s, requests, ok);
      && Sound(w, r.cache, false) && Keeps(c, r.cache, c.handles.Keys)
      && r.cache.handles.Keys == c.handles.Keys + Returned(r) && Returned(r) !! c.handles.Keys
  {
    MeasureIsSound(w, c, s, requests, ok, false);
    MeasureHandles(c, s, requests, ok);
    hide Measure, Inv, NodesRight;
  }

  lemma MeasureStep(w: World, d: Daemon, focus: string, requests: seq<Address>, ok: bool)
    requires Good(w, d) && Possible(w, d, MeasureOne(focus, requests, ok))
    ensures var after := Step(w, d, MeasureOne(focus, requests, ok));
      && Good(w, after) && Keeps(d.cache, after.cache, d.cache.handles.Keys) && LeftBehind(after) == LeftBehind(d)
  {
    var s := SettingOf(d, focus);
    MeasureKeeps(w, d.cache, s, requests, ok);
    var r := Measure(d.cache, s, requests, ok);
    hide Measure, Sound, Keeps, Returned, Inv;
    LeftAfter(d.cache.handles.Keys, d.owned, Returned(r), {}, r.cache.handles.Keys);
  }

  lemma GiveUpStep(w: World, d: Daemon, h: nat)
    requires Good(w, d) && h in d.owned
    ensures var after := Step(w, d, GiveUp(h));
      && Good(w, after) && Keeps(d.cache, after.cache, LeftBehind(d)) && LeftBehind(after) == LeftBehind(d)
  {
    DeleteIsSound(w, d.cache, h, false);
    hide Sound, AfterDelete, NodesRight, Inv;
    var after := AfterDelete(d.cache, h);
    assert after.handles.Keys - (d.owned - {h}) == d.cache.handles.Keys - d.owned;
  }

  lemma NextIsNew(c: Cache)
    requires Inv(c)
    ensures c.next !in c.handles
  {
  }

  /** Beginning and ending a set-up leaves the cache alone. */
  lemma OtherStep(w: World, d: Daemon, e: Event)
    requires Good(w, d) && Possible(w, d, e) && (e.Begin? || e.Finish?)
    ensures Good(w, Step(w, d, e)) && Keeps(d.cache, Step(w, d, e).cache, LeftBehind(d))
    ensures LeftBehind(Step(w, d, e)) == LeftBehind(d)
  {
    hide Sound;
  }

  /** Every step keeps the invariant and every handle left behind, and leaves one more behind exactly if it leaks. */
  lemma StepKeeps(w: World, d: Daemon, e: Event)
    requires Good(w, d) && Possible(w, d, e)
    ensures Good(w, Step(w, d, e)) && Keeps(d.cache, Step(w, d, e).cache, LeftBehind(d))
    ensures LeftBehind(Step(w, d, e)) == LeftBehind(d) + if StepLeaks(w, d, e) then {d.cache.next} else {}
    ensures d.cache.next !in d.cache.handles
  {
    NextIsNew(d.cache);
    match e
    case AttachOne(cons, focus) => AttachStep(w, d, cons, focus);
    case MeasureOne(focus, requests, ok) => MeasureStep(w, d, focus, requests, ok);
    case GiveUp(h) => GiveUpStep(w, d, h);
    case _ => OtherStep(w, d, e);
    hide Step, Inv, Sound, Good, Leaks;
  }

  // ----- runs -----

  ghost predicate IsRun(w: World, d: Daemon, events: seq<Event>)
    requires Good(w, d)
    decreases |events|, 0
  {
    events == [] ||
    (IsRun(w, d, events[..|events| - 1])
     && Possible(w, AfterRun(w, d, events[..|events| - 1]), events[|events| - 1]))
  }

  ghost function AfterRun(w: World, d: Daemon, events: seq<Event>): (r: Daemon)
    requires Good(w, d) && IsRun(w, d, events)
    ensures Good(w, r)
    decreases |events|, 1
  {
    if events == [] then d else
    var before := AfterRun(w, d, events[..|events| - 1]);
    StepKeeps(w, before, events[|events| - 1]);
    Step(w, before, events[|events| - 1])
  }

  /** How many steps of a run leak. */
  ghost function LeakCount(w: World, d: Daemon, events: seq<Event>): nat
    requires Good(w, d) && IsRun(w, d, events)
    decreases |events|
  {
    if events == [] then 0 else
    var before := events[..|events| - 1];
    LeakCount(w, d, before)
      + (if StepLeaks(w, AfterRun(w, d, before), events[|events| - 1]) then 1 else 0)
  }

  /** Over any run, each leaking step leaves one handle behind for good, and no other step leaves any. */
  lemma {:induction false} RunLeaks(w: World, d: Daemon, events: seq<Event>)
    requires Good(w, d) && IsRun(w, d, events)
    ensures var after := AfterRun(w, d, events);
      && |LeftBehind(after)| == |LeftBehind(d)| + LeakCount(w, d, events)
      && LeftBehind(d) <= LeftBehind(after) && Keeps(d.cache, after.cache, LeftBehind(d))
    decreases |events|
  {
    if events != [] {
      var prefix, e := events[..|events| - 1], events[|events| - 1];
      RunLeaks(w, d, prefix);
      var before := AfterRun(w, d, prefix);
      StepKeeps(w, before, e);
      assert Step(w, before, e) == AfterRun(w, d, events);
    }
  }

  lemma InitiallyGood(w: World)
    ensures Good(w, INITIAL)
  {
  }

  /** Over the whole life of a daemon the live handles are those that metrics own and those that leaking attachments
      left behind, as many as there were such attachments. */
  lemma HandlesAccounted(w: World, events: seq<Event>)
    requires Good(w, INITIAL) && IsRun(w, INITIAL, events)
    ensures var d := AfterRun(w, INITIAL, events);
      && d.cache.handles.Keys == d.owned + LeftBehind(d)
      && |d.cache.handles| == |d.owned| + LeakCount(w, INITIAL, events)
  {
    RunLeaks(w, INITIAL, events);
    var d := AfterRun(w, INITIAL, events);
    assert d.cache.handles.Keys == d.owned + LeftBehind(d);
    assert |d.cache.handles.Keys| == |d.owned| + |LeftBehind(d)|;
  }

  /** The node behind a handle that was left behind is never freed, nor is its deletion ever initiated. */
  lemma NeverFreed(w: World, d: Daemon, events: seq<Event>, h: nat)
    requires Good(w, d) && IsRun(w, d, events) && h in LeftBehind(d)
    ensures var after := AfterRun(w, d, events).cache;
      && h in after.handles && after.handles[h] == d.cache.handles[h]
      && after.handles[h] in after.nodes && !after.nodes[after.handles[h]].pendingDeletion
  {
    RunLeaks(w, d, events);
    HeldNotPending(AfterRun(w, d, events).cache, h);
  }

  // ----- whose exclusion list is in force -----

  /** How many events there are up to the last successful set-up. */
  function LastSuccess(events: seq<Event>): (n: nat)
    ensures n <= |events|
  {
    if events == [] then 0
    else if events[|events| - 1] == Finish(true) then |events|
    else LastSuccess(events[..|events| - 1])
  }

  /** The exclusion lists of the metrics whose set-up begins, one after the other. */
  function ListsOf(w: World, events: seq<Event>): seq<string> {
    if events == [] then []
    else (if events[0].Begin? then w.own(events[0].metric, events[0].focus) else []) + ListsOf(w, events[1..])
  }

  lemma {:induction false} ListsOfOneMore(w: World, events: seq<Event>, e: Event)
    ensures ListsOf(w, events + [e])
      == ListsOf(w, events) + if e.Begin? then w.own(e.metric, e.focus) else []
  {
    if events == [] {
      assert [e][1..] == [];
    } else {
      ListsOfOneMore(w, events[1..], e);
      assert (events + [e])[1..] == events[1..] + [e];
    }
  }

  lemma {:induction false} ListsSinceSuccess(w: World, events: seq<Event>)
    requires events != []
    ensures var last := |events| - 1;
      ListsOf(w, events[LastSuccess(events)..])
        == if events[last] == Finish(true) then [] else
           ListsOf(w, events[..last][LastSuccess(events[..last])..])
             + if events[last].Begin? then w.own(events[last].metric, events[last].focus) else []
  {
    var last := |events| - 1;
    if events[last] != Finish(true) {
      var n := LastSuccess(events);
      ListsOfOneMore(w, events[..last][n..], events[last]);
      assert events[n..] == events[..last][n..] + [events[last]];
    }
  }

  lemma ListStep(w: World, d: Daemon, e: Event)
    requires Good(w, d) && Possible(w, d, e)
    ensures Step(w, d, e).excluded
      == if e == Finish(true) then [] else d.excluded + if e.Begin? then w.own(e.metric, e.focus) else []
  {
    assert d.excluded + [] == d.excluded;
    hide Attach, Measure, Sound;
  }

  /** The list in force is made of the lists of all metrics set up since the last success, in order, whether they came
      to an end or not. */
  lemma {:induction false} ListInForce(w: World, events: seq<Event>)
    requires Good(w, INITIAL) && IsRun(w, INITIAL, events)
    ensures AfterRun(w, INITIAL, events).excluded == ListsOf(w, events[LastSuccess(events)..])
    decreases |events|
  {
    if events != [] {
      var last := |events| - 1;
      ListInForce(w, events[..last]);
      ListsSinceSuccess(w, events);
      ListStep(w, AfterRun(w, INITIAL, events[..last]), events[last]);
      hide Step, Good, Possible, ListsOf, LastSuccess;
    }
  }

  /** No metric since the last successful set-up excludes anything. */
  predicate NothingExcluded(w: World, events: seq<Event>) {
    if events == [] then true else
    match events[|events| - 1]
    case Begin(metric, focus, _) => w.own(metric, focus) == [] && NothingExcluded(w, events[..|events| - 1])
    case Finish(true) => true
    case _ => NothingExcluded(w, events[..|events| - 1])
  }

  /** The list is empty if and only if the metrics set up since the last success exclude nothing. */
  lemma {:induction false} ListEmptyIff(w: World, events: seq<Event>)
    requires Good(w, INITIAL) && IsRun(w, INITIAL, events)
    ensures AfterRun(w, INITIAL, events).excluded == [] <==> NothingExcluded(w, events)
    decreases |events|
  {
    if events != [] {
      ListEmptyIff(w, events[..|events| - 1]);
    }
  }

  /** What attaching comes to: an own node of the metric that is found after the constraint's node is returned as it is,
      and otherwise the list in force decides. */
  function Outcome(w: World, c: Cache, cons: string, s: Setting): Generated
    requires Inv(c)
  {
    var key := KeyName(OwnName(cons, s.metric), s.focus);
    if KeyName(cons, s.focus) in c.entries && key in c.entries then Done(c.nodes[c.entries[key]].requests)
    else Asked(w, cons, s)
  }

  predicate SameOutcome(a: Generated, b: Generated) {
    a == b || (a.Failed? && b.Failed?)
  }

  ghost predicate ComesTo(r: Attached, g: Generated) {
    && (r.handle.Some? <==> g.Done?)
    && (r.handle.Some? ==>
          && r.handle.value in r.cache.handles && r.cache.handles[r.handle.value] in r.cache.nodes
          && Done(NodeAt(r.cache, r.handle.value).requests) == g)
  }

  lemma {:induction false} ShareOrOwnOutcome(w: World, c: Cache, h: nat, cons: string, s: Setting)
    requires Sound(w, c, false) && Named(cons, s) && h in c.handles
    ensures var key := KeyName(OwnName(cons, s.metric), s.focus);
      ComesTo(ShareOrOwn(w, c, h, cons, s),
              if key in c.entries then Done(c.nodes[c.entries[key]].requests) else Asked(w, cons, s))
  {
    hide AfterNew, AfterDelete, Fill, CountsExact, DeletedOnce, NodesRight;
    var name := OwnName(cons, s.metric);
    var own := AfterNew(c, name, s.focus, s.dontInsertData, true);
    NewIsSound(w, c, name, s.focus, s.dontInsertData, false);
    NewHandles(c, name, s.focus, s.dontInsertData);
    OwnOpened(w, c, h, cons, s);
    var g := own.handle.value;
    if KeyName(name, s.focus) !in c.entries {
      OwnFilled(w, c, h, cons, s);
      FillHandles(w, own.cache, g, cons, s);
      FillIsSound(w, own.cache, g, cons, s, false);
      var filled := Fill(w, own.cache, g, cons, s);
      if filled.handle.Some? {
        DeleteIsSound(w, filled.cache, g, false);
      }
    }
  }

  lemma OpenedLeavesRequests(c: Cache, name: string, focus: string, dontInsertData: bool)
    requires Inv(c) && KeyName(name, focus) in c.entries
    ensures var r := AfterNew(c, name, focus, dontInsertData, true).cache;
      r.entries == c.entries && forall n <- c.nodes :: n in r.nodes && r.nodes[n].requests == c.nodes[n].requests
  {
  }

  /** In any good cache, attaching comes to its outcome. */
  lemma {:induction false} AttachOutcome(w: World, c: Cache, cons: string, s: Setting)
    requires Sound(w, c, false) && Named(cons, s)
    ensures ComesTo(Attach(w, c, cons, s), Outcome(w, c, cons, s))
  {
    hide AfterNew, Fill, ShareOrOwn, CountsExact, DeletedOnce, NodesRight, Preserves;
    var cached := AfterNew(c, cons, s.focus, s.dontInsertData, true);
    NewIsSound(w, c, cons, s.focus, s.dontInsertData, false);
    var h := cached.handle.value;
    if KeyName(cons, s.focus) in c.entries {
      OpenedLeavesRequests(c, cons, s.focus, s.dontInsertData);
      ShareOrOwnOutcome(w, cached.cache, h, cons, s);
    } else {
      FillIsSound(w, cached.cache, h, cons, s, false);
    }
  }

  /** Setting up this metric in this state attaches a constraint exactly if the metric's own list allows it, with that
      list's addresses. */
  ghost predicate AttachesOwn(w: World, d: Daemon, metric: string, focus: string, dontInsertData: bool, cons: string)
    requires Inv(d.cache)
  {
    var s := Setting(metric, focus, d.excluded + w.own(metric, focus), dontInsertData);
    ComesTo(Attach(w, d.cache, cons, s), Wanted(w, cons, focus, metric))
  }

  /** Whatever happened before, a constraint is attached with the metric's own addresses if and only if the node of its
      own that is found has them, or, if none is, the list in force yields what the metric's own list does. */
  lemma {:induction false} AttachesOwnIff(
    w: World, d: Daemon, metric: string, focus: string, dontInsertData: bool, cons: string)
    requires Good(w, d) && Plain(metric) && Plain(cons)
    ensures var s := Setting(metric, focus, d.excluded + w.own(metric, focus), dontInsertData);
      AttachesOwn(w, d, metric, focus, dontInsertData, cons)
      <==> SameOutcome(Outcome(w, d.cache, cons, s), Wanted(w, cons, focus, metric))
  {
    hide Attach, Sound;
    AttachOutcome(w, d.cache, cons, Setting(metric, focus, d.excluded + w.own(metric, focus), dontInsertData));
  }

  /** A generator that tells lists apart by their length. */
  function ByLength(own: (string, string) -> seq<string>): World {
    World((cons: string, focus: string, l: seq<string>) => Done([|l|]), own)
  }

  /** A constraint not yet instrumented is attached with the metric's own addresses, whatever the instrumentation
      may be, if and only if the exclusion list is empty when the metric's set-up begins. */
  lemma {:induction false} OwnAddressesIff(
    d: Daemon, own: (string, string) -> seq<string>, metric: string, focus: string, dontInsertData: bool, cons: string)
    requires Good(ByLength(own), d) && Plain(metric) && Plain(cons) && KeyName(cons, focus) !in d.cache.entries
    ensures (forall g :: AttachesOwn(World(g, own), d, metric, focus, dontInsertData, cons)) <==> d.excluded == []
  {
    var s := Setting(metric, focus, d.excluded + own(metric, focus), dontInsertData);
    if d.excluded == [] {
      assert s.excluded == own(metric, focus);
      forall g
        ensures AttachesOwn(World(g, own), d, metric, focus, dontInsertData, cons)
      {
        AnyWorld(ByLength(own), World(g, own), d.cache);
        AttachesOwnIff(World(g, own), d, metric, focus, dontInsertData, cons);
      }
    } else {
      var w := ByLength(own);
      AttachesOwnIff(w, d, metric, focus, dontInsertData, cons);
      assert Asked(w, cons, s) == Done([|s.excluded|])
        && Wanted(w, cons, focus, metric) == Done([|own(metric, focus)|]);
      assert [|s.excluded|][0] != [|own(metric, focus)|][0];
      assert !AttachesOwn(World(w.generate, own), d, metric, focus, dontInsertData, cons);
    }
  }

  lemma AnyWorld(w: World, v: World, c: Cache)
    requires Sound(w, c, false)
    ensures Sound(v, c, false)
  {
    forall n <- c.nodes | !c.nodes[n].pendingDeletion
      ensures NodeRight(v, c.nodes[n], false)
    {
      assert NodeRight(w, c.nodes[n], false);
    }
  }

  // ----- sharing over runs in which each metric starts with an empty list -----

  /** Every set-up of the run begins with an empty exclusion list. */
  ghost predicate BeginsEmpty(w: World, events: seq<Event>)
    requires Good(w, INITIAL) && IsRun(w, INITIAL, events)
    decreases |events|
  {
    events == [] ||
    (BeginsEmpty(w, events[..|events| - 1])
     && (events[|events| - 1].Begin? ==> AfterRun(w, INITIAL, events[..|events| - 1]).excluded == []))
  }

  /** The list in force is the current metric's own, and so was every list a node was made with. */
  ghost predicate Clean(w: World, d: Daemon) {
    && Sound(w, d.cache, true)
    && (d.current.Some? ==> d.excluded == w.own(d.current.value.metric, d.current.value.focus))
  }

  lemma StepKeepsClean(w: World, d: Daemon, e: Event)
    requires Good(w, d) && Clean(w, d) && Possible(w, d, e) && (e.Begin? ==> d.excluded == [])
    ensures Clean(w, Step(w, d, e))
  {
    match e
    case AttachOne(cons, focus) => AttachIsSound(w, d.cache, cons, SettingOf(d, focus), true);
    case MeasureOne(focus, requests, ok) => MeasureIsSound(w, d.cache, SettingOf(d, focus), requests, ok, true);
    case GiveUp(h) => DeleteIsSound(w, d.cache, h, true);
    case Begin(metric, focus, _) => assert [] + w.own(metric, focus) == w.own(metric, focus);
    case Finish(_) =>
  }

  lemma {:induction false} RunKeepsClean(w: World, events: seq<Event>)
    requires Good(w, INITIAL) && IsRun(w, INITIAL, events) && BeginsEmpty(w, events)
    ensures Clean(w, AfterRun(w, INITIAL, events))
    decreases |events|
  {
    if events != [] {
      RunKeepsClean(w, events[..|events| - 1]);
      StepKeepsClean(w, AfterRun(w, INITIAL, events[..|events| - 1]), events[|events| - 1]);
    }
  }

  /** In any life of a daemon in which each set-up began with an empty exclusion list, attaching a constraint yields a
      node with the addresses of the attaching metric's own list, or fails because they cannot be generated. */
  lemma SharingIsSound(w: World, events: seq<Event>, cons: string, focus: string)
    requires Good(w, INITIAL) && IsRun(w, INITIAL, events) && BeginsEmpty(w, events)
    requires Possible(w, AfterRun(w, INITIAL, events), AttachOne(cons, focus))
    ensures var d := AfterRun(w, INITIAL, events);
      var s := SettingOf(d, focus);
      AttachedSoundly(w, d.cache, cons, s, true, Attach(w, d.cache, cons, s))
  {
    RunKeepsClean(w, events);
    var d := AfterRun(w, INITIAL, events);
    AttachIsSound(w, d.cache, cons, SettingOf(d, focus), true);
  }

  // ----- lives in which it goes wrong -----

  /** A world in which one metric excludes a function and others exclude none. */
  const EXAMPLE := ByLength((metric: string, focus: string) => if metric == "X" then ["f"] else [])

  /** One event more. */
  lemma OneMore(w: World, events: seq<Event>, e: Event)
    requires Good(w, INITIAL) && IsRun(w, INITIAL, events) && Possible(w, AfterRun(w, INITIAL, events), e)
    ensures IsRun(w, INITIAL, events + [e])
    ensures Inv(AfterRun(w, INITIAL, events).cache)
    ensures AfterRun(w, INITIAL, events + [e]) == Step(w, AfterRun(w, INITIAL, events), e)
    ensures LeakCount(w, INITIAL, events + [e])
      == LeakCount(w, INITIAL, events) + (if StepLeaks(w, AfterRun(w, INITIAL, events), e) then 1 else 0)
  {
    assert (events + [e])[..|events|] == events;
  }

  const FAILED := [Begin("X", "p", false), Finish(false), Begin("M", "p", false)]

  lemma {:induction false} FailedLife()
    ensures Good(EXAMPLE, INITIAL) && IsRun(EXAMPLE, INITIAL, FAILED)
    ensures AfterRun(EXAMPLE, INITIAL, FAILED) == Daemon(EMPTY, ["f"], Some(Current("M", "p", false)), {})
  {
    InitiallyGood(EXAMPLE);
    OneMore(EXAMPLE, [], FAILED[0]);
    OneMore(EXAMPLE, [FAILED[0]], FAILED[1]);
    OneMore(EXAMPLE, [FAILED[0], FAILED[1]], FAILED[2]);
    assert [FAILED[0]] + [FAILED[1]] == [FAILED[0], FAILED[1]] && [FAILED[0], FAILED[1]] + [FAILED[2]] == FAILED;
  }

  /** The set-up of a metric fails; the next one, which excludes nothing, gets the addresses of the failed one's
      list. */
  lemma {:induction false} ForeignListLife()
    ensures var events := [Begin("X", "p", false), Finish(false), Begin("M", "p", false)];
      && Good(EXAMPLE, INITIAL) && IsRun(EXAMPLE, INITIAL, events)
      && var d := AfterRun(EXAMPLE, INITIAL, events);
         && Possible(EXAMPLE, d, AttachOne("c", "p"))
         && var r := Attach(EXAMPLE, d.cache, "c", SettingOf(d, "p"));
            && r.handle.Some? && r.handle.value in r.cache.handles && r.cache.handles[r.handle.value] in r.cache.nodes
            && NodeAt(r.cache, r.handle.value).requests == [1]
            && Wanted(EXAMPLE, "c", "p", "M") == Done([0])
  {
    FailedLife();
    var s := Setting("M", "p", ["f"], false);
    assert Asked(EXAMPLE, "c", s) == Done([1]) && Wanted(EXAMPLE, "c", "p", "M") == Done([0]);
    hide IsRun, AfterRun, Attach;
    AttachOutcome(EXAMPLE, EMPTY, "c", s);
  }

  /** A first metric, which excludes nothing, is set up with one constraint. */
  const FIRST := [Begin("M", "p", false), AttachOne("c", "p"), Finish(true)]

  lemma {:induction false} FirstLife()
    ensures Good(EXAMPLE, INITIAL) && IsRun(EXAMPLE, INITIAL, FIRST) && LeakCount(EXAMPLE, INITIAL, FIRST) == 0
    ensures var d := AfterRun(EXAMPLE, INITIAL, FIRST);
      d.cache == Attach(EXAMPLE, EMPTY, "c", Setting("M", "p", [], false)).cache
      && d.excluded == [] && d.current.None?
  {
    InitiallyGood(EXAMPLE);
    OneMore(EXAMPLE, [], FIRST[0]);
    var d := AfterRun(EXAMPLE, INITIAL, [FIRST[0]]);
    assert d == Daemon(EMPTY, [], Some(Current("M", "p", false)), {});
    OneMore(EXAMPLE, [FIRST[0]], FIRST[1]);
    OneMore(EXAMPLE, [FIRST[0], FIRST[1]], FIRST[2]);
    assert [FIRST[0]] + [FIRST[1]] == [FIRST[0], FIRST[1]] && [FIRST[0], FIRST[1]] + [FIRST[2]] == FIRST;
    hide Attach;
  }

  /** Then a second metric, which excludes a function, attaches the same constraint in the same process: it leaves a
      handle on the first one's node behind. */
  lemma {:induction false} LeakingLife()
    ensures var events := FIRST + [Begin("X", "p", false)] + [AttachOne("c", "p")];
      && Good(EXAMPLE, INITIAL) && IsRun(EXAMPLE, INITIAL, events)
      && LeakCount(EXAMPLE, INITIAL, events) == 1
  {
    FirstLife();
    FirstAttach();
    hide Attach, Sound, LeakCount, IsRun, AfterRun;
    OneMore(EXAMPLE, FIRST, Begin("X", "p", false));
    OneMore(EXAMPLE, FIRST + [Begin("X", "p", false)], AttachOne("c", "p"));
    assert Asked(EXAMPLE, "c", Setting("X", "p", ["f"], false)) == Done([1]);
    assert [1][0] != [0][0];
  }

  lemma {:induction false} FirstAttach()
    ensures Good(EXAMPLE, INITIAL)
    ensures var r := Attach(EXAMPLE, EMPTY, "c", Setting("M", "p", [], false));
      && KeyName("c", "p") in r.cache.entries && r.cache.entries[KeyName("c", "p")] in r.cache.nodes
      && r.cache.nodes[r.cache.entries[KeyName("c", "p")]].requests == [0]
  {
    InitiallyGood(EXAMPLE);
    var s := Setting("M", "p", [], false);
    NewIsSound(EXAMPLE, EMPTY, "c", "p", false, false);
    var cached := AfterNew(EMPTY, "c", "p", false, true).cache;
    assert cached.entries == map[KeyName("c", "p") := 0] && 0 in cached.nodes && cached.nodes[0].requests == [];
    assert Asked(EXAMPLE, "c", s) == Done([0]);
    assert [] + [0] == [0];
  }
}
