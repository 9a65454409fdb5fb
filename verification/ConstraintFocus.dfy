/** Which process's nodes metrics get over whole runs of a daemon: the handle that an attachment or a measurement yields
    leads to a node of the focus it was asked for. */
module ConstraintFocus {
  import opened Options
  import opened CodeNodeCache
  import opened ConstraintSharing
  import opened ConstraintRuns

  /** The metric being set up when a handle was yielded, and the event that yielded it. */
  datatype Yield = Yield(metric: string, event: ConstraintRuns.Event)

  /** A node that the event may yield: of the event's focus, and by the name of the constraint, of the constraint for
      this metric, or of the metric. */
  predicate Answers(node: Node, y: Yield) {
    match y.event
    case AttachOne(cons, focus) => node.focus == focus && (node.name == cons || node.name == cons + "@" + y.metric)
    case MeasureOne(focus, _, _) => node.focus == focus && node.name == y.metric
    case _ => false
  }

  // ----- one step -----

  /** The handles that both have lead to the same nodes, by name and focus. */
  ghost predicate FocusKept(before: Cache, after: Cache) {
    forall h <- before.handles | h in after.handles ::
      && before.handles[h] in before.nodes && after.handles[h] in after.nodes
      && after.handles[h] == before.handles[h]
      && after.nodes[after.handles[h]].focus == before.nodes[before.handles[h]].focus
      && after.nodes[after.handles[h]].name == before.nodes[before.handles[h]].name
  }

  lemma PreservesFocus(before: Cache, after: Cache)
    requires Inv(before) && Preserves(before, after)
    ensures FocusKept(before, after)
  {
  }

  lemma AttachOnFocus(w: World, c: Cache, cons: string, s: Setting)
    requires Sound(w, c, false) && Named(cons, s)
    ensures var r := Attach(w, c, cons, s);
      && FocusKept(c, r.cache)
      && (r.handle.Some? ==>
            && r.handle.value in r.cache.handles && r.cache.handles[r.handle.value] in r.cache.nodes
            && r.handle.value !in c.handles
            && NodeFor(NodeAt(r.cache, r.handle.value), cons, s))
  {
    AttachIsSound(w, c, cons, s, false);
    PreservesFocus(c, Attach(w, c, cons, s).cache);
    hide Attach, FocusKept, NodesRight;
  }

  lemma SetupKeepsFocus(c: Cache, h: nat, requests: seq<Address>)
    requires Inv(c) && h in c.handles
    ensures FocusKept(c, AfterSetup(c, h, requests)) && AfterSetup(c, h, requests).handles == c.handles
  {
  }

  lemma FocusKeptInTurn(a: Cache, b: Cache, c: Cache)
    requires FocusKept(a, b) && FocusKept(b, c) && a.handles.Keys * c.handles.Keys <= b.handles.Keys
    ensures FocusKept(a, c)
  {
  }

  lemma DeleteKeepsFocus(w: World, c: Cache, h: nat)
    requires Sound(w, c, false) && h in c.handles
    ensures FocusKept(c, AfterDelete(c, h)) && AfterDelete(c, h).handles == c.handles - {h}
  {
    DeleteIsSound(w, c, h, false);
  }

  /** Opening the metric's node: the new handle, and what is behind it. */
  lemma MeasureOnFocus(w: World, c: Cache, s: Setting, requests: seq<Address>, ok: bool)
    requires Sound(w, c, false) && Plain(s.metric)
    ensures var r := Measure(c, s, requests, ok);
      && FocusKept(c, r.cache)
      && (r.handle.Some? ==>
            && r.handle.value in r.cache.handles && r.cache.handles[r.handle.value] in r.cache.nodes
            && r.handle.value !in c.handles
            && NodeAt(r.cache, r.handle.value).name == s.metric && NodeAt(r.cache, r.handle.value).focus == s.focus)
  {
    NewIsSound(w, c, s.metric, s.focus, s.dontInsertData, false);
    var r := AfterNew(c, s.metric, s.focus, s.dontInsertData, true);
    var h := r.handle.value;
    PreservesFocus(c, r.cache);
    if NodeAt(r.cache, h).dataNodes == 0 {
      var filled := AfterSetup(r.cache, h, requests);
      MetricNodeIsSound(w, r.cache, h, requests, false);
      SetupKeepsFocus(r.cache, h, requests);
      FocusKeptInTurn(c, r.cache, filled);
      DeleteKeepsFocus(w, filled, h);
      FocusKeptInTurn(c, filled, AfterDelete(filled, h));
    }
    hide AfterNew, AfterSetup, AfterDelete, Sound, SoundBut, Inv, Preserves;
  }

  /** A handle that a step yields leads to a node of the focus in the event; handles that stay keep their node's
      focus. */
  lemma StepOnFocus(w: World, d: Daemon, e: ConstraintRuns.Event)
    requires Good(w, d) && ConstraintRuns.Possible(w, d, e)
    ensures var after := ConstraintRuns.Step(w, d, e);
      && FocusKept(d.cache, after.cache)
      && forall h <- after.owned | h !in d.owned ::
           && h in after.cache.handles && after.cache.handles[h] in after.cache.nodes
           && d.current.Some?
           && Answers(after.cache.nodes[after.cache.handles[h]], Yield(d.current.value.metric, e))
  {
    match e
    case AttachOne(cons, focus) => AttachOnFocus(w, d.cache, cons, SettingOf(d, focus));
    case MeasureOne(focus, requests, ok) => MeasureOnFocus(w, d.cache, SettingOf(d, focus), requests, ok);
    case GiveUp(h) => DeleteKeepsFocus(w, d.cache, h);
    case _ => SameFocus(d.cache);
    hide Attach, Measure, AfterDelete, Sound, FocusKept;
  }

  lemma SameFocus(c: Cache)
    requires Inv(c)
    ensures FocusKept(c, c)
  {
  }

  // ----- runs -----

  /** For each handle that metrics own after the run, the event that yielded it. */
  ghost function Ledger(w: World, events: seq<ConstraintRuns.Event>): (r: map<nat, Yield>)
    requires Good(w, ConstraintRuns.INITIAL) && ConstraintRuns.IsRun(w, ConstraintRuns.INITIAL, events)
    ensures r.Keys == ConstraintRuns.AfterRun(w, ConstraintRuns.INITIAL, events).owned
    decreases |events|
  {
    if events == [] then map[] else
    var prefix, e := events[..|events| - 1], events[|events| - 1];
    var before := ConstraintRuns.AfterRun(w, ConstraintRuns.INITIAL, prefix);
    var after := ConstraintRuns.AfterRun(w, ConstraintRuns.INITIAL, events);
    var earlier := Ledger(w, prefix);
    map h | h in after.owned ::
      if h in before.owned then earlier[h]
      else Yield(if before.current.Some? then before.current.value.metric else "", e)
  }

  /** Over the whole life of a daemon, every handle a metric owns leads to a node that answers the event that yielded
      it: the constraint's or the metric's own, in the focus of the process that the event was about. */
  lemma {:induction false} OwnedOnFocus(w: World, events: seq<ConstraintRuns.Event>, h: nat)
    requires Good(w, ConstraintRuns.INITIAL) && ConstraintRuns.IsRun(w, ConstraintRuns.INITIAL, events)
    requires h in ConstraintRuns.AfterRun(w, ConstraintRuns.INITIAL, events).owned
    ensures var c := ConstraintRuns.AfterRun(w, ConstraintRuns.INITIAL, events).cache;
      && h in c.handles && c.handles[h] in c.nodes
      && Answers(c.nodes[c.handles[h]], Ledger(w, events)[h])
    decreases |events|
  {
    var prefix, e := events[..|events| - 1], events[|events| - 1];
    var before := ConstraintRuns.AfterRun(w, ConstraintRuns.INITIAL, prefix);
    StepOnFocus(w, before, e);
    if h in before.owned {
      OwnedOnFocus(w, prefix, h);
    }
    hide ConstraintRuns.Step, Sound, Answers;
  }

  /** The focus an event asks for. */
  function FocusOf(e: ConstraintRuns.Event): string {
    match e
    case AttachOne(_, focus) => focus
    case MeasureOne(focus, _, _) => focus
    case _ => ""
  }

  /** Handles yielded for different processes' focuses are never on one node. */
  lemma ProcessesApart(w: World, events: seq<ConstraintRuns.Event>, h: nat, g: nat)
    requires Good(w, ConstraintRuns.INITIAL) && ConstraintRuns.IsRun(w, ConstraintRuns.INITIAL, events)
    requires var d := ConstraintRuns.AfterRun(w, ConstraintRuns.INITIAL, events); h in d.owned && g in d.owned
    requires FocusOf(Ledger(w, events)[h].event) != FocusOf(Ledger(w, events)[g].event)
    ensures var c := ConstraintRuns.AfterRun(w, ConstraintRuns.INITIAL, events).cache;
      h in c.handles && g in c.handles && c.handles[h] != c.handles[g]
  {
    OwnedOnFocus(w, events, h);
    OwnedOnFocus(w, events, g);
    hide Ledger, ConstraintRuns.AfterRun, ConstraintRuns.IsRun;
  }

  // ----- whether new nodes have their data inserted -----

  /** Nodes keep their flag; those made in between have the given one. */
  ghost predicate Flagged(before: Cache, after: Cache, flag: bool) {
    && before.next <= after.next
    && forall n <- after.nodes ::
         && n < after.next
         && (n < before.next ==> n in before.nodes)
         && after.nodes[n].dontInsertData == if n < before.next then before.nodes[n].dontInsertData else flag
  }

  lemma FlaggedInTurn(a: Cache, b: Cache, c: Cache, flag: bool)
    requires Flagged(a, b, flag) && Flagged(b, c, flag)
    ensures Flagged(a, c, flag)
  {
  }

  lemma NewFlagged(c: Cache, name: string, focus: string, flag: bool)
    requires Inv(c)
    ensures Flagged(c, AfterNew(c, name, focus, flag, true).cache, flag)
  {
    hide HandlesLive, DeletedOnce, Holders;
  }

  lemma NewYields(c: Cache, name: string, focus: string, flag: bool)
    requires Inv(c)
    ensures var r := AfterNew(c, name, focus, flag, true);
      && Inv(r.cache) && c.handles.Keys <= r.cache.handles.Keys
      && r.handle.Some? && r.handle.value in r.cache.handles && r.cache.handles[r.handle.value] in r.cache.nodes
  {
    NewKeepsInv(c, name, focus, flag, true);
    hide CountsExact, EntriesLive, DeletedOnce, Holders;
  }

  lemma SetupFlagged(c: Cache, h: nat, requests: seq<Address>, flag: bool)
    requires Inv(c) && h in c.handles
    ensures Flagged(c, AfterSetup(c, h, requests), flag)
  {
  }

  lemma DeleteFlagged(c: Cache, h: nat, flag: bool)
    requires Inv(c) && h in c.handles
    ensures Flagged(c, AfterDelete(c, h), flag)
  {
    hide DeletedOnce, EntriesLive, Holders;
  }

  lemma FillFlagged(w: World, c: Cache, h: nat, cons: string, s: Setting, flag: bool)
    requires Inv(c) && h in c.handles
    ensures Flagged(c, Fill(w, c, h, cons, s).cache, flag)
  {
    var g := Asked(w, cons, s);
    SetupFlagged(c, h, g.requests, flag);
    if g.Failed? {
      var filled := AfterSetup(c, h, g.requests);
      StepKeepsInv(c, Setup(h, g.requests));
      DeleteFlagged(filled, h, flag);
      FlaggedInTurn(c, filled, AfterDelete(filled, h), flag);
    }
    hide AfterSetup, AfterDelete, Inv, Flagged;
  }

  lemma FilledHas(w: World, c: Cache, h: nat, cons: string, s: Setting)
    requires Inv(c) && h in c.handles && Fill(w, c, h, cons, s).handle.Some?
    ensures var filled := Fill(w, c, h, cons, s).cache;
      h in filled.handles && filled.handles[h] in filled.nodes
  {
  }

  /** A node filled in, and given up again. */
  lemma FilledFlagged(w: World, start: Cache, c: Cache, h: nat, cons: string, s: Setting)
    requires Flagged(start, c, s.dontInsertData) && Inv(c) && h in c.handles
    ensures var filled := Fill(w, c, h, cons, s);
      && Flagged(start, filled.cache, s.dontInsertData)
      && (filled.handle.Some? ==>
            && h in filled.cache.handles && filled.cache.handles[h] in filled.cache.nodes
            && Flagged(start, AfterDelete(filled.cache, h), s.dontInsertData))
  {
    var filled := Fill(w, c, h, cons, s);
    FillFlagged(w, c, h, cons, s, s.dontInsertData);
    FillKeepsInv(w, c, h, cons, s);
    FlaggedInTurn(start, c, filled.cache, s.dontInsertData);
    if filled.handle.Some? {
      FilledHas(w, c, h, cons, s);
      DeleteFlagged(filled.cache, h, s.dontInsertData);
      FlaggedInTurn(start, filled.cache, AfterDelete(filled.cache, h), s.dontInsertData);
    }
    hide Flagged, Fill, AfterDelete;
  }

  lemma {:induction false} ShareOrOwnFlagged(w: World, c: Cache, h: nat, cons: string, s: Setting)
    requires Inv(c) && h in c.handles
    ensures Flagged(c, ShareOrOwn(w, c, h, cons, s).cache, s.dontInsertData)
  {
    var own := AfterNew(c, OwnName(cons, s.metric), s.focus, s.dontInsertData, true);
    NewFlagged(c, OwnName(cons, s.metric), s.focus, s.dontInsertData);
    NewYields(c, OwnName(cons, s.metric), s.focus, s.dontInsertData);
    FilledFlagged(w, c, own.cache, own.handle.value, cons, s);
    hide AfterNew, Inv, Flagged, Fill, AfterDelete, OwnName;
  }

  lemma {:induction false} AttachFlagged(w: World, c: Cache, cons: string, s: Setting)
    requires Inv(c)
    ensures Flagged(c, Attach(w, c, cons, s).cache, s.dontInsertData)
  {
    var cached := AfterNew(c, cons, s.focus, s.dontInsertData, true);
    hide AfterNew, Inv, Flagged, Fill, ShareOrOwn;
    NewFlagged(c, cons, s.focus, s.dontInsertData);
    NewYields(c, cons, s.focus, s.dontInsertData);
    var h := cached.handle.value;
    FillFlagged(w, cached.cache, h, cons, s, s.dontInsertData);
    ShareOrOwnFlagged(w, cached.cache, h, cons, s);
    FlaggedInTurn(c, cached.cache, Attach(w, c, cons, s).cache, s.dontInsertData);
  }

  lemma {:induction false} MeasureFlagged(c: Cache, s: Setting, requests: seq<Address>, ok: bool)
    requires Inv(c)
    ensures Flagged(c, Measure(c, s, requests, ok).cache, s.dontInsertData)
  {
    var r := AfterNew(c, s.metric, s.focus, s.dontInsertData, true);
    NewFlagged(c, s.metric, s.focus, s.dontInsertData);
    NewYields(c, s.metric, s.focus, s.dontInsertData);
    var h := r.handle.value;
    var filled := AfterSetup(r.cache, h, requests);
    SetupFlagged(r.cache, h, requests, s.dontInsertData);
    StepKeepsInv(r.cache, Setup(h, requests));
    DeleteFlagged(filled, h, s.dontInsertData);
    hide AfterNew, AfterSetup, AfterDelete, Inv, Flagged;
    FlaggedInTurn(c, r.cache, filled, s.dontInsertData);
    FlaggedInTurn(c, filled, AfterDelete(filled, h), s.dontInsertData);
  }

  /** The nodes that a step makes have their data inserted exactly if the metric being set up has; the others keep
      their flag. */
  lemma NewNodesFlagged(w: World, d: Daemon, e: ConstraintRuns.Event)
    requires Good(w, d) && ConstraintRuns.Possible(w, d, e)
    ensures Flagged(d.cache, ConstraintRuns.Step(w, d, e).cache,
                    d.current.Some? && d.current.value.dontInsertData)
  {
    var flag := d.current.Some? && d.current.value.dontInsertData;
    match e
    case AttachOne(cons, focus) => AttachFlagged(w, d.cache, cons, SettingOf(d, focus));
    case MeasureOne(focus, requests, ok) => MeasureFlagged(d.cache, SettingOf(d, focus), requests, ok);
    case GiveUp(h) => DeleteFlagged(d.cache, h, flag);
    case _ => assert Flagged(d.cache, d.cache, flag);
    hide Attach, Measure, AfterDelete;
  }
}
