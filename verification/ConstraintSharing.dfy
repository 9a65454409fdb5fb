/** Sharing the code nodes of constraints between metrics: a metric gets the cached node of a constraint if that was
    instrumented at the same addresses, and a node of its own otherwise. */
module ConstraintSharing {
  import opened Options
  import opened CodeNodeCache

  /** Generating a constraint's instrumentation: the addresses, or those generated before a failure. */
  datatype Generated = Done(requests: seq<Address>) | Failed(requests: seq<Address>)

  /** The instrumentation of a constraint in a focus, given the excluded functions; and the functions that a metric
      itself excludes in a focus, with the constraints that match there. */
  datatype World = World(
    generate: (string, string, seq<string>) -> Generated, own: (string, string) -> seq<string>)

  /** A metric being set up in a process, with the exclusion list in force. */
  datatype Setting = Setting(metric: string, focus: string, excluded: seq<string>, dontInsertData: bool)

  /** What the list in force yields. */
  function Asked(w: World, cons: string, s: Setting): Generated {
    w.generate(cons, s.focus, s.excluded)
  }

  /** What the metric's own exclusion list calls for. */
  function Wanted(w: World, cons: string, focus: string, metric: string): Generated {
    w.generate(cons, focus, w.own(metric, focus))
  }

  predicate OwnList(w: World, s: Setting) {
    s.excluded == w.own(s.metric, s.focus)
  }

  function OwnName(cons: string, metric: string): string {
    cons + "@" + metric
  }

  predicate Plain(name: string) {
    '-' !in name && '@' !in name
  }

  predicate Named(cons: string, s: Setting) {
    Plain(cons) && '-' !in s.metric
  }

  // ----- names do not collide -----

  lemma FirstSeparator(a: string, b: string, x: string, y: string, sep: char)
    requires sep !in a && sep !in b && a + [sep] + x == b + [sep] + y
    ensures a == b && x == y
  {
    var s := a + [sep] + x;
    assert s[|a|] == sep && s[|b|] == sep;
    assert forall i | 0 <= i < |a| :: s[i] == a[i];
    assert forall i | 0 <= i < |b| :: s[i] == b[i];
    assert |a| == |b|;
    assert s[..|a|] == a && s[..|a|] == b && s[|a| + 1..] == x && s[|a| + 1..] == y;
  }

  lemma KeyIsUnique(name: string, focus: string, other: string, otherFocus: string)
    requires '-' !in name && '-' !in other && KeyName(name, focus) == KeyName(other, otherFocus)
    ensures name == other && focus == otherFocus
  {
    FirstSeparator(name, other, focus, otherFocus, '-');
  }

  lemma HasSeparator(cons: string, metric: string)
    ensures '@' in OwnName(cons, metric)
  {
    assert OwnName(cons, metric)[|cons|] == '@';
  }

  // ----- attaching one constraint -----

  datatype Attached = Attached(cache: Cache, handle: Option<nat>)

  function NodeAt(c: Cache, h: nat): Node
    requires h in c.handles && c.handles[h] in c.nodes
  {
    c.nodes[c.handles[h]]
  }

  /** Filling in a fresh node; on failure the handle is deleted. */
  function Fill(w: World, c: Cache, h: nat, cons: string, s: Setting): Attached
    requires Inv(c) && h in c.handles
  {
    var g := Asked(w, cons, s);
    var filled := AfterSetup(c, h, g.requests);
    if g.Done? then Attached(filled, Some(h)) else Attached(AfterDelete(filled, h), None)
  }

  lemma FillKeepsInv(w: World, c: Cache, h: nat, cons: string, s: Setting)
    requires Inv(c) && h in c.handles
    ensures Inv(Fill(w, c, h, cons, s).cache)
  {
    var g := Asked(w, cons, s);
    StepKeepsInv(c, Setup(h, g.requests));
    if g.Failed? {
      DeleteKeepsInv(AfterSetup(c, h, g.requests), h);
    }
  }

  /** One round of the loop over flag constraints. */
  function Attach(w: World, c: Cache, cons: string, s: Setting): Attached
    requires Inv(c)
  {
    var cached := AfterNew(c, cons, s.focus, s.dontInsertData, true);
    NewKeepsInv(c, cons, s.focus, s.dontInsertData, true);
    var h := cached.handle.value;
    if NodeAt(cached.cache, h).dataNodes == 0 then Fill(w, cached.cache, h, cons, s)
    else ShareOrOwn(w, cached.cache, h, cons, s)
  }

  /** The constraint's node was instrumented before: it is shared if a node generated for this metric has the same
      addresses. When it is not shared, its handle is not given back. */
  function ShareOrOwn(w: World, c: Cache, h: nat, cons: string, s: Setting): Attached
    requires Inv(c) && h in c.handles
  {
    var own := AfterNew(c, OwnName(cons, s.metric), s.focus, s.dontInsertData, true);
    NewKeepsInv(c, OwnName(cons, s.metric), s.focus, s.dontInsertData, true);
    var g := own.handle.value;
    if NodeAt(own.cache, g).dataNodes > 0 then Attached(own.cache, Some(g)) else
    var filled := Fill(w, own.cache, g, cons, s);
    FillKeepsInv(w, own.cache, g, cons, s);
    if filled.handle.None? then filled
    else if NodeAt(filled.cache, h).requests == NodeAt(filled.cache, g).requests then
      Attached(AfterDelete(filled.cache, g), Some(h))
    else filled
  }

  // ----- the invariant that makes sharing sound -----

  /** A node in use is filled in. If every list so far was a metric's own (`clean`), a node made for one constraint and
      one metric has the addresses that the metric's own list calls for. */
  ghost predicate NodeRight(w: World, node: Node, clean: bool) {
    && '-' !in node.name
    && node.dataNodes > 0
    && (clean ==> forall cons: string, metric: string | Plain(cons) && node.name == OwnName(cons, metric) ::
                    Done(node.requests) == Wanted(w, cons, node.focus, metric))
  }

  ghost predicate NodesRight(w: World, c: Cache, clean: bool) {
    forall n <- c.nodes | !c.nodes[n].pendingDeletion :: NodeRight(w, c.nodes[n], clean)
  }

  ghost predicate Sound(w: World, c: Cache, clean: bool) {
    Inv(c) && NodesRight(w, c, clean)
  }

  /** What attaching leaves alone: the handles there were, and what is behind them. */
  ghost predicate Preserves(before: Cache, after: Cache) {
    forall h <- before.handles | before.handles[h] in before.nodes ::
      && h in after.handles && after.handles[h] == before.handles[h] && after.handles[h] in after.nodes
      && NodeAt(after, h).requests == NodeAt(before, h).requests
      && NodeAt(after, h).name == NodeAt(before, h).name
      && NodeAt(after, h).focus == NodeAt(before, h).focus
  }

  /** A cache in which just the node behind one handle, its only one, still has to be filled in. */
  ghost predicate SoundBut(w: World, c: Cache, h: nat, clean: bool) {
    && Inv(c) && h in c.handles
    && var n := c.handles[h];
       && (forall m <- c.nodes | m != n && !c.nodes[m].pendingDeletion :: NodeRight(w, c.nodes[m], clean))
       && Holders(c.handles, n) == {h} && c.nodes[n].dataNodes == 0 && c.nodes[n].requests == []
       && c.nodes[n].callbacks == 0 && '-' !in c.nodes[n].name
  }

  /** What opening a node by name yields: a filled-in node, if its key is registered, or a fresh one. */
  ghost predicate OpenedSoundly(w: World, c: Cache, name: string, focus: string, clean: bool, r: Opened) {
    && r.handle.Some? && Inv(r.cache)
    && var h := r.handle.value;
       && h !in c.handles && h in r.cache.handles && r.cache.handles == c.handles[h := r.cache.handles[h]]
       && NodeAt(r.cache, h).name == name && NodeAt(r.cache, h).focus == focus
       && Preserves(c, r.cache)
       && if KeyName(name, focus) in c.entries
          then NodeAt(r.cache, h).dataNodes > 0 && Sound(w, r.cache, clean)
          else SoundBut(w, r.cache, h, clean)
  }

  lemma FoundIsSound(w: World, c: Cache, name: string, focus: string, clean: bool)
    requires Sound(w, c, clean) && '-' !in name && KeyName(name, focus) in c.entries
    requires Inv(Open(c, c.entries[KeyName(name, focus)]).cache)
    ensures OpenedSoundly(w, c, name, focus, clean, Open(c, c.entries[KeyName(name, focus)]))
  {
    var n := c.entries[KeyName(name, focus)];
    var node, after := c.nodes[n], Open(c, n).cache;
    assert NodeRight(w, node, clean);
    KeyIsUnique(name, focus, node.name, node.focus);
    forall m <- after.nodes | !after.nodes[m].pendingDeletion
      ensures NodeRight(w, after.nodes[m], clean)
    {
      assert NodeRight(w, c.nodes[m], clean);
    }
  }

  lemma FreshPreserves(c: Cache, after: Cache, n: nat, h: nat)
    requires Inv(c) && n !in c.nodes && h !in c.handles
    requires after.handles == c.handles[h := n]
    requires forall m <- c.nodes :: m in after.nodes && after.nodes[m] == c.nodes[m]
    ensures Preserves(c, after)
  {
  }

  lemma FreshIsSound(w: World, c: Cache, name: string, focus: string, dontInsertData: bool, clean: bool)
    requires Sound(w, c, clean) && '-' !in name && KeyName(name, focus) !in c.entries
    requires Inv(AfterNew(c, name, focus, dontInsertData, true).cache)
    ensures OpenedSoundly(w, c, name, focus, clean, AfterNew(c, name, focus, dontInsertData, true))
  {
    var after := AfterNew(c, name, focus, dontInsertData, true).cache;
    hide AfterNew, Preserves, Inv, NodesRight, NodeRight, Holders;
    var n, h := c.next, c.next + 1;
    FreshShape(c, name, focus, dontInsertData);
    FreshPreserves(c, after, n, h);
    OthersRight(w, c, after, n, clean);
  }

  lemma OthersRight(w: World, c: Cache, after: Cache, n: nat, clean: bool)
    requires NodesRight(w, c, clean) && n in after.nodes && after.nodes == c.nodes[n := after.nodes[n]]
    ensures forall m <- after.nodes | m != n && !after.nodes[m].pendingDeletion :: NodeRight(w, after.nodes[m], clean)
  {
    forall m <- after.nodes | m != n && !after.nodes[m].pendingDeletion
      ensures NodeRight(w, after.nodes[m], clean)
    {
      assert NodeRight(w, c.nodes[m], clean);
    }
  }

  lemma FreshShape(c: Cache, name: string, focus: string, dontInsertData: bool)
    requires Inv(c) && KeyName(name, focus) !in c.entries
    ensures var r := AfterNew(c, name, focus, dontInsertData, true);
      && r.handle == Some(c.next + 1)
      && r.cache.nodes == c.nodes[c.next := Node(name, focus, dontInsertData, 0, [], 1, false, 0, 0)]
      && r.cache.handles == c.handles[c.next + 1 := c.next]
      && c.next !in c.nodes && c.next + 1 !in c.handles
      && Holders(r.cache.handles, c.next) == {c.next + 1}
  {
  }

  lemma NewIsSound(w: World, c: Cache, name: string, focus: string, dontInsertData: bool, clean: bool)
    requires Sound(w, c, clean) && '-' !in name
    ensures OpenedSoundly(w, c, name, focus, clean, AfterNew(c, name, focus, dontInsertData, true))
  {
    NewKeepsInv(c, name, focus, dontInsertData, true);
    if KeyName(name, focus) in c.entries {
      FoundIsSound(w, c, name, focus, clean);
    } else {
      FreshIsSound(w, c, name, focus, dontInsertData, clean);
    }
  }

  /** A node for this constraint and setting: the shared one or the metric's own. */
  predicate NodeFor(node: Node, cons: string, s: Setting) {
    (node.name == cons || node.name == OwnName(cons, s.metric)) && node.focus == s.focus
  }

  /** Filling in a fresh node with what the list in force yields, or giving it up. */
  lemma FillIsSound(w: World, c: Cache, h: nat, cons: string, s: Setting, clean: bool)
    requires SoundBut(w, c, h, clean) && Named(cons, s) && NodeFor(NodeAt(c, h), cons, s)
    requires clean ==> OwnList(w, s)
    ensures var r := Fill(w, c, h, cons, s);
      && Sound(w, r.cache, clean)
      && (if Asked(w, cons, s).Done? then
            && r.handle == Some(h) && r.cache.handles == c.handles
            && Done(NodeAt(r.cache, h).requests) == Asked(w, cons, s)
            && NodeAt(r.cache, h).name == NodeAt(c, h).name && NodeAt(r.cache, h).focus == s.focus
          else
            r.handle == None && r.cache.handles == c.handles - {h})
  {
    FillKeepsInv(w, c, h, cons, s);
    var r := Fill(w, c, h, cons, s);
    var n := c.handles[h];
    var g := Asked(w, cons, s);
    assert [] + g.requests == g.requests;
    assert c.nodes[n].references == |{h}| == 1;
    if g.Done? && clean {
      var node := r.cache.nodes[n];
      forall other: string, m: string | Plain(other) && node.name == OwnName(other, m)
        ensures Done(node.requests) == Wanted(w, other, node.focus, m)
      {
        HasSeparator(other, m);
        FirstSeparator(other, cons, m, s.metric, '@');
      }
    }
  }

  lemma PreservesOn(a: Cache, b: Cache, c: Cache)
    requires Inv(a) && Preserves(a, b) && Preserves(b, c)
    ensures Preserves(a, c)
  {
  }

  /** The handles but one, and what is behind them, are as before. */
  ghost predicate Others(c: Cache, h: nat, after: Cache) {
    && after.handles == c.handles - {h}
    && forall g <- c.handles | g != h && c.handles[g] in c.nodes ::
         && c.handles[g] in after.nodes
         && after.nodes[c.handles[g]].requests == NodeAt(c, g).requests
         && after.nodes[c.handles[g]].name == NodeAt(c, g).name
         && after.nodes[c.handles[g]].focus == NodeAt(c, g).focus
  }

  /** Deleting a handle keeps the invariant, and every other handle with the node behind it. */
  lemma DeleteIsSound(w: World, c: Cache, h: nat, clean: bool)
    requires Sound(w, c, clean) && h in c.handles
    ensures Sound(w, AfterDelete(c, h), clean) && Others(c, h, AfterDelete(c, h))
  {
    DeleteKeepsInv(c, h);
    DeleteKeepsOthers(c, h);
    hide AfterDelete, Inv, Others;
    var after := AfterDelete(c, h);
    forall n <- after.nodes | !after.nodes[n].pendingDeletion
      ensures NodeRight(w, after.nodes[n], clean)
    {
      assert NodeRight(w, c.nodes[n], clean);
    }
  }

  lemma DeleteKeepsOthers(c: Cache, h: nat)
    requires Inv(c) && h in c.handles && Inv(AfterDelete(c, h))
    ensures Others(c, h, AfterDelete(c, h))
    ensures var after := AfterDelete(c, h);
      forall n <- after.nodes | !after.nodes[n].pendingDeletion ::
        n in c.nodes && !c.nodes[n].pendingDeletion && after.nodes[n].requests == c.nodes[n].requests
        && after.nodes[n].name == c.nodes[n].name && after.nodes[n].focus == c.nodes[n].focus
        && after.nodes[n].dataNodes == c.nodes[n].dataNodes
  {
    hide CountsExact, EntriesLive, DeletedOnce;
    var after := AfterDelete(c, h);
    forall g <- c.handles | g != h
      ensures c.handles[g] in after.nodes
    {
      assert g in after.handles;
    }
  }

  /** Filling in a node whose only handle is new leaves the older handles alone. */
  lemma FillPreserves(w: World, start: Cache, c: Cache, h: nat, cons: string, s: Setting, clean: bool)
    requires Inv(start) && Preserves(start, c) && h !in start.handles && SoundBut(w, c, h, clean)
    ensures Preserves(start, Fill(w, c, h, cons, s).cache)
  {
    var n := c.handles[h];
    var after := Fill(w, c, h, cons, s).cache;
    assert c.nodes[n].references == |{h}| == 1;
    forall g <- start.handles
      ensures g in after.handles && after.handles[g] in after.nodes
      ensures after.handles[g] == c.handles[g] != n && after.nodes[after.handles[g]] == NodeAt(c, g)
    {
      assert c.handles[g] == n ==> g in Holders(c.handles, n);
    }
  }

  /** The node has the addresses of the metric's own exclusion list. */
  predicate Serves(w: World, node: Node, cons: string, s: Setting) {
    NodeFor(node, cons, s) && Done(node.requests) == Wanted(w, cons, s.focus, s.metric)
  }

  /** Attaching yields a new handle on a node for the constraint, and leaves the other handles alone, whether it
      succeeds or not. If only own lists were ever in force, it succeeds exactly when the instrumentation can be
      generated for this metric, and the node's addresses are those of this metric's own exclusion list. */
  ghost predicate AttachedSoundly(w: World, c: Cache, cons: string, s: Setting, clean: bool, r: Attached) {
    && Sound(w, r.cache, clean) && Preserves(c, r.cache)
    && (r.handle.Some? ==>
          && r.handle.value in r.cache.handles && r.handle.value !in c.handles
          && NodeFor(NodeAt(r.cache, r.handle.value), cons, s))
    && (clean ==>
          && (r.handle.Some? <==> Wanted(w, cons, s.focus, s.metric).Done?)
          && (r.handle.Some? ==> Serves(w, NodeAt(r.cache, r.handle.value), cons, s)))
  }

  // ----- the handles that attaching leaves behind -----

  /** The cached node of the constraint is there already, but is not shared: there is an own node of the metric too, or
      the list in force yields other addresses or fails. */
  predicate Leaks(w: World, c: Cache, cons: string, s: Setting)
    requires Inv(c)
  {
    && KeyName(cons, s.focus) in c.entries
    && (KeyName(OwnName(cons, s.metric), s.focus) in c.entries
        || Asked(w, cons, s) != Done(c.nodes[c.entries[KeyName(cons, s.focus)]].requests))
  }

  function Returned(r: Attached): set<nat> {
    if r.handle.None? then {} else {r.handle.value}
  }

  ghost predicate SharedSoundly(w: World, c: Cache, h: nat, cons: string, s: Setting, clean: bool, r: Attached) {
    && Sound(w, r.cache, clean) && Preserves(c, r.cache)
    && (r.handle.Some? ==>
          && r.handle.value in r.cache.handles && (r.handle.value == h || r.handle.value !in c.handles)
          && NodeFor(NodeAt(r.cache, r.handle.value), cons, s))
    && (clean ==>
          && (r.handle.Some? <==> Wanted(w, cons, s.focus, s.metric).Done?)
          && (r.handle.Some? ==> Serves(w, NodeAt(r.cache, r.handle.value), cons, s)))
  }

  lemma {:induction false} ShareOrOwnIsSound(w: World, c: Cache, h: nat, cons: string, s: Setting, clean: bool)
    requires Sound(w, c, clean) && Named(cons, s) && (clean ==> OwnList(w, s))
    requires h in c.handles && NodeAt(c, h).name == cons && NodeAt(c, h).focus == s.focus
    ensures SharedSoundly(w, c, h, cons, s, clean, ShareOrOwn(w, c, h, cons, s))
  {
    hide AfterNew, AfterDelete, Fill, CountsExact, DeletedOnce;
    var own := AfterNew(c, OwnName(cons, s.metric), s.focus, s.dontInsertData, true);
    NewIsSound(w, c, OwnName(cons, s.metric), s.focus, s.dontInsertData, clean);
    var g := own.handle.value;
    if KeyName(OwnName(cons, s.metric), s.focus) in c.entries {
      HeldNotPending(own.cache, g);
      assert NodeRight(w, NodeAt(own.cache, g), clean);
      hide SoundBut;
    } else {
      hide NodesRight, NodeRight;
      var filled := Fill(w, own.cache, g, cons, s);
      FilledOwn(w, c, own.cache, g, cons, s, clean);
      if filled.handle.Some? && NodeAt(filled.cache, h).requests == NodeAt(filled.cache, g).requests {
        GivenBack(w, c, filled.cache, g, clean);
      }
    }
  }

  lemma FilledOwn(w: World, before: Cache, c: Cache, g: nat, cons: string, s: Setting, clean: bool)
    requires Inv(before) && Preserves(before, c) && g !in before.handles && SoundBut(w, c, g, clean)
    requires Named(cons, s) && (clean ==> OwnList(w, s))
    requires NodeAt(c, g).focus == s.focus && NodeAt(c, g).name == OwnName(cons, s.metric)
    ensures AttachedSoundly(w, before, cons, s, clean, Fill(w, c, g, cons, s))
    ensures Fill(w, c, g, cons, s).handle.Some? ==> Fill(w, c, g, cons, s).handle == Some(g)
  {
    FillIsSound(w, c, g, cons, s, clean);
    FillPreserves(w, before, c, g, cons, s, clean);
  }

  /** Deleting a handle that was not there before leaves what was there alone. */
  lemma GivenBack(w: World, before: Cache, c: Cache, g: nat, clean: bool)
    requires Inv(before) && Sound(w, c, clean) && Preserves(before, c) && g in c.handles && g !in before.handles
    ensures Sound(w, AfterDelete(c, g), clean) && Preserves(before, AfterDelete(c, g))
  {
    DeleteIsSound(w, c, g, clean);
  }

  lemma AttachIsSound(w: World, c: Cache, cons: string, s: Setting, clean: bool)
    requires Sound(w, c, clean) && Named(cons, s) && (clean ==> OwnList(w, s))
    ensures AttachedSoundly(w, c, cons, s, clean, Attach(w, c, cons, s))
  {
    hide AfterNew, ShareOrOwn, Fill, CountsExact, DeletedOnce, NodesRight;
    var cached := AfterNew(c, cons, s.focus, s.dontInsertData, true);
    NewIsSound(w, c, cons, s.focus, s.dontInsertData, clean);
    var h := cached.handle.value;
    if KeyName(cons, s.focus) !in c.entries {
      FillIsSound(w, cached.cache, h, cons, s, clean);
      FillPreserves(w, c, cached.cache, h, cons, s, clean);
    } else {
      ShareOrOwnIsSound(w, cached.cache, h, cons, s, clean);
      PreservesOn(c, cached.cache, ShareOrOwn(w, cached.cache, h, cons, s).cache);
    }
  }

  lemma NewHandles(c: Cache, name: string, focus: string, dontInsertData: bool)
    requires Inv(c)
    ensures var r := AfterNew(c, name, focus, dontInsertData, true);
      && r.handle.Some? && r.handle.value !in c.handles
      && r.cache.handles == c.handles[r.handle.value := r.cache.handles[r.handle.value]]
      && (KeyName(name, focus) in c.entries ==>
            && r.handle == Some(c.next) && r.cache.entries == c.entries
            && r.cache.handles[c.next] == c.entries[KeyName(name, focus)]
            && NodeAt(r.cache, c.next).requests == c.nodes[c.entries[KeyName(name, focus)]].requests)
  {
    assert c.next !in c.handles && c.next + 1 !in c.handles;
  }

  lemma FillHandles(w: World, c: Cache, h: nat, cons: string, s: Setting)
    requires Inv(c) && h in c.handles
    ensures var r := Fill(w, c, h, cons, s);
      && r.cache.handles == (if Asked(w, cons, s).Done? then c.handles else c.handles - {h})
      && r.handle == (if Asked(w, cons, s).Done? then Some(h) else None)
  {
  }

  /** The handle h and the node behind it are as before. */
  ghost predicate KeepsHandle(c: Cache, h: nat, after: Cache) {
    && h in c.handles && c.handles[h] in c.nodes
    && h in after.handles && after.handles[h] == c.handles[h] && after.handles[h] in after.nodes
    && NodeAt(after, h).requests == NodeAt(c, h).requests
  }

  /** Opening the metric's own node, seen from the handle h. */
  lemma OwnOpened(w: World, c: Cache, h: nat, cons: string, s: Setting)
    requires Sound(w, c, false) && Named(cons, s) && h in c.handles
    ensures var r := AfterNew(c, OwnName(cons, s.metric), s.focus, s.dontInsertData, true);
      && r.handle.Some? && r.handle.value !in c.handles && Inv(r.cache)
      && r.cache.handles == c.handles[r.handle.value := r.cache.handles[r.handle.value]]
      && KeepsHandle(c, h, r.cache)
      && (NodeAt(r.cache, r.handle.value).dataNodes > 0
          <==> KeyName(OwnName(cons, s.metric), s.focus) in c.entries)
  {
    NewIsSound(w, c, OwnName(cons, s.metric), s.focus, s.dontInsertData, false);
  }

  /** Filling it in, seen from the handle h. */
  lemma OwnFilled(w: World, c: Cache, h: nat, cons: string, s: Setting)
    requires Sound(w, c, false) && Named(cons, s) && h in c.handles
    requires KeyName(OwnName(cons, s.metric), s.focus) !in c.entries
    ensures var own := AfterNew(c, OwnName(cons, s.metric), s.focus, s.dontInsertData, true);
      && own.handle.Some? && own.handle.value in own.cache.handles && Inv(own.cache)
      && var r := Fill(w, own.cache, own.handle.value, cons, s);
         && Inv(r.cache) && KeepsHandle(c, h, r.cache)
         && (r.handle.Some? ==>
               && own.handle.value in r.cache.handles
               && NodeAt(r.cache, own.handle.value).requests == Asked(w, cons, s).requests)
  {
    var own := AfterNew(c, OwnName(cons, s.metric), s.focus, s.dontInsertData, true);
    NewIsSound(w, c, OwnName(cons, s.metric), s.focus, s.dontInsertData, false);
    FillIsSound(w, own.cache, own.handle.value, cons, s, false);
    FillPreserves(w, c, own.cache, own.handle.value, cons, s, false);
  }

  /** The handle h on the cached node is returned exactly if the metric has no own node and the list in force yields the
      cached node's addresses; every other handle is kept, and no third one is left. */
  lemma {:induction false} ShareOrOwnHandles(w: World, c: Cache, h: nat, cons: string, s: Setting)
    requires Sound(w, c, false) && Named(cons, s) && h in c.handles
    ensures var r := ShareOrOwn(w, c, h, cons, s);
      && r.cache.handles.Keys == c.handles.Keys + Returned(r)
      && r.cache.handles.Keys >= c.handles.Keys && r.cache.handles[h] == c.handles[h]
      && (r.handle == Some(h) <==>
            && KeyName(OwnName(cons, s.metric), s.focus) !in c.entries
            && Asked(w, cons, s) == Done(NodeAt(c, h).requests))
  {
    hide AfterNew, Fill, CountsExact, DeletedOnce, NodesRight;
    var own := AfterNew(c, OwnName(cons, s.metric), s.focus, s.dontInsertData, true);
    OwnOpened(w, c, h, cons, s);
    var g := own.handle.value;
    if KeyName(OwnName(cons, s.metric), s.focus) !in c.entries {
      OwnFilled(w, c, h, cons, s);
      FillHandles(w, own.cache, g, cons, s);
    }
  }

  /** The handles after attaching are those before and the one returned, if and only if the constraint had no cached
      node, or the metric has no own node and the list in force yields the cached node's addresses. Otherwise one more
      handle is left behind, on the cached node. */
  lemma {:induction false} AttachLeaksIff(w: World, c: Cache, cons: string, s: Setting)
    requires Sound(w, c, false) && Named(cons, s)
    ensures var r := Attach(w, c, cons, s);
      && (r.cache.handles.Keys == c.handles.Keys + Returned(r) <==> !Leaks(w, c, cons, s))
      && (Leaks(w, c, cons, s) ==>
            && r.cache.handles.Keys == c.handles.Keys + Returned(r) + {c.next}
            && c.next !in c.handles && c.next !in Returned(r)
            && r.cache.handles[c.next] == c.entries[KeyName(cons, s.focus)])
  {
    hide Attach, Inv, KeyName, NodesRight;
    if KeyName(cons, s.focus) in c.entries {
      CachedLeaksIff(w, c, cons, s);
    } else {
      FreshDoesNotLeak(w, c, cons, s);
    }
  }

  lemma {:induction false} FreshDoesNotLeak(w: World, c: Cache, cons: string, s: Setting)
    requires Inv(c) && KeyName(cons, s.focus) !in c.entries
    ensures Attach(w, c, cons, s).cache.handles.Keys == c.handles.Keys + Returned(Attach(w, c, cons, s))
  {
    hide AfterNew, Fill, ShareOrOwn, KeyName;
    NewHandles(c, cons, s.focus, s.dontInsertData);
    FreshIsEmpty(w, c, cons, s);
    var cached := AfterNew(c, cons, s.focus, s.dontInsertData, true);
    FillHandles(w, cached.cache, cached.handle.value, cons, s);
  }

  lemma {:induction false} CachedLeaksIff(w: World, c: Cache, cons: string, s: Setting)
    requires Sound(w, c, false) && Named(cons, s) && KeyName(cons, s.focus) in c.entries
    ensures var r := Attach(w, c, cons, s);
      && (r.cache.handles.Keys == c.handles.Keys + Returned(r) <==> !Leaks(w, c, cons, s))
      && (Leaks(w, c, cons, s) ==>
            && r.cache.handles.Keys == c.handles.Keys + Returned(r) + {c.next}
            && c.next !in c.handles && c.next !in Returned(r)
            && r.cache.handles[c.next] == c.entries[KeyName(cons, s.focus)])
  {
    hide AfterNew, Fill, ShareOrOwn, NodesRight, Preserves, SoundBut;
    var cached := AfterNew(c, cons, s.focus, s.dontInsertData, true);
    NewIsSound(w, c, cons, s.focus, s.dontInsertData, false);
    NewHandles(c, cons, s.focus, s.dontInsertData);
    ShareOrOwnHandles(w, cached.cache, cached.handle.value, cons, s);
    hide KeyName;
  }

  lemma FreshIsEmpty(w: World, c: Cache, cons: string, s: Setting)
    requires Inv(c) && KeyName(cons, s.focus) !in c.entries
    ensures var r := AfterNew(c, cons, s.focus, s.dontInsertData, true);
      && r.handle.Some? && r.handle.value in r.cache.handles && Inv(r.cache)
      && NodeAt(r.cache, r.handle.value).dataNodes == 0
  {
    NewKeepsInv(c, cons, s.focus, s.dontInsertData, true);
  }

  // ----- the loop over a metric's constraints -----

  /** The code nodes of one process and focus of a metric. */
  class ProcessNode {
    const world: World
    const setting: Setting
    var constraintCodeNodes: seq<nat>

    constructor (world: World, setting: Setting)
      ensures this.world == world && this.setting == setting && constraintCodeNodes == []
    {
      this.world, this.setting := world, setting;
      constraintCodeNodes := [];
    }

    /** Generating the instrumentation of a constraint into a node. */
    method SetUp(nodes: CodeNodes, h: nat, cons: string) returns (ok: bool)
      requires Inv(nodes.Now()) && h in nodes.handles
      modifies nodes
      ensures nodes.Now() == Fill(world, old(nodes.Now()), h, cons, setting).cache
      ensures ok == Fill(world, old(nodes.Now()), h, cons, setting).handle.Some?
      ensures Inv(nodes.Now())
    {
      FillKeepsInv(world, nodes.Now(), h, cons, setting);
      var g := Asked(world, cons, setting);
      nodes.AddRequests(h, g.requests);
      ok := g.Done?;
      if !ok {
        nodes.Delete(h);
      }
    }

    /** One round: the cached node, a node of its own, or failure. */
    method AttachConstraint(nodes: CodeNodes, cons: string) returns (handle: Option<nat>)
      requires Inv(nodes.Now())
      modifies nodes
      ensures Attached(nodes.Now(), handle) == Attach(world, old(nodes.Now()), cons, setting)
      ensures Inv(nodes.Now())
    {
      var cached := nodes.NewInstrCodeNode(cons, setting.focus, setting.dontInsertData, true);
      var h := cached.value;
      if nodes.nodes[nodes.handles[h]].dataNodes == 0 {
        var ok := SetUp(nodes, h, cons);
        return if ok then cached else None;
      }
      handle := ShareOrMakeOwn(nodes, h, cons);
    }

    method ShareOrMakeOwn(nodes: CodeNodes, h: nat, cons: string) returns (handle: Option<nat>)
      requires Inv(nodes.Now()) && h in nodes.handles
      modifies nodes
      ensures Attached(nodes.Now(), handle) == ShareOrOwn(world, old(nodes.Now()), h, cons, setting)
      ensures Inv(nodes.Now())
    {
      hide CountsExact, DeletedOnce, KeyName, AfterDelete;
      var name := OwnName(cons, setting.metric);
      var uncached := nodes.NewInstrCodeNode(name, setting.focus, setting.dontInsertData, true);
      var g := uncached.value;
      if nodes.nodes[nodes.handles[g]].dataNodes > 0 {
        return uncached;
      }
      var ok := SetUp(nodes, g, cons);
      if !ok {
        return None;
      }
      var cachedRequests := nodes.nodes[nodes.handles[h]].requests;
      var uncachedRequests := nodes.nodes[nodes.handles[g]].requests;
      var theSame := SameAddresses(cachedRequests, uncachedRequests);
      if theSame {
        nodes.Delete(g);
        return Some(h);
      }
      return uncached;
    }

    method SameAddresses(a: seq<Address>, b: seq<Address>) returns (theSame: bool)
      ensures theSame <==> a == b
    {
      theSame := true;
      if |a| == |b| {
        var i := 0;
        while i < |a|
          invariant 0 <= i <= |a|
          invariant theSame <==> a[..i] == b[..i]
        {
          if a[i] != b[i] {
            theSame := false;
          }
          assert a[..i + 1] == a[..i] + [a[i]] && b[..i + 1] == b[..i] + [b[i]];
          i := i + 1;
        }
        assert a[..i] == a && b[..i] == b;
      } else {
        theSame := false;
      }
    }

    /** When the list in force is the metric's own, success attaches exactly one node for each flag constraint, in
        order, each with the addresses of this metric's own exclusion list, and is to be had exactly when all the
        constraints' instrumentation can be generated; and no node that was in use is changed. */
    method AttachConstraints(nodes: CodeNodes, flags: seq<string>) returns (ok: bool)
      requires Sound(world, nodes.Now(), true) && OwnList(world, setting)
      requires forall cons <- flags :: Named(cons, setting)
      modifies this, nodes
      ensures Sound(world, nodes.Now(), true) && Preserves(old(nodes.Now()), nodes.Now())
      ensures ok <==> forall cons <- flags :: Wanted(world, cons, setting.focus, setting.metric).Done?
      ensures old(constraintCodeNodes) <= constraintCodeNodes
      ensures ok ==>
        AllServed(world, nodes.Now(), constraintCodeNodes[|old(constraintCodeNodes)|..], flags, setting)
    {
      hide Attach, Inv, Preserves, ServedBy, NodesRight;
      ghost var start := nodes.Now();
      ghost var attached: seq<nat> := [];
      PreservesItself(start);
      var flag := 0;
      while flag < |flags|
        invariant 0 <= flag <= |flags|
        invariant Inv(nodes.Now()) && Sound(world, nodes.Now(), true) && Preserves(start, nodes.Now())
        invariant forall i | 0 <= i < flag :: Wanted(world, flags[i], setting.focus, setting.metric).Done?
        invariant constraintCodeNodes == old(constraintCodeNodes) + attached
        invariant AllServed(world, nodes.Now(), attached, flags[..flag], setting)
      {
        ghost var before := nodes.Now();
        assert flags[flag] in flags;
        AttachIsSound(world, before, flags[flag], setting, true);
        var handle := AttachConstraint(nodes, flags[flag]);
        PreservesOn(start, before, nodes.Now());
        if handle.None? {
          return false;
        }
        ServedAlso(world, before, attached, flags[..flag], setting, flags[flag], Attached(nodes.Now(), handle));
        attached := attached + [handle.value];
        constraintCodeNodes := constraintCodeNodes + [handle.value];
        assert flags[..flag + 1] == flags[..flag] + [flags[flag]];
        flag := flag + 1;
      }
      assert flags[..flag] == flags;
      ok := true;
    }
  }

  ghost predicate ServedBy(w: World, c: Cache, h: nat, cons: string, s: Setting) {
    h in c.handles && c.handles[h] in c.nodes && Serves(w, NodeAt(c, h), cons, s)
  }

  /** One handle for each constraint, each on a node that serves it. */
  ghost predicate AllServed(w: World, c: Cache, hs: seq<nat>, flags: seq<string>, s: Setting) {
    |hs| == |flags| && forall i | 0 <= i < |hs| :: ServedBy(w, c, hs[i], flags[i], s)
  }

  lemma PreservesItself(c: Cache)
    ensures Preserves(c, c)
  {
  }

  lemma ServedAlso(
    w: World, before: Cache, hs: seq<nat>, flags: seq<string>, s: Setting, cons: string, r: Attached)
    requires AllServed(w, before, hs, flags, s)
    requires AttachedSoundly(w, before, cons, s, true, r) && r.handle.Some?
    ensures AllServed(w, r.cache, hs + [r.handle.value], flags + [cons], s)
  {
    forall i | 0 <= i < |hs|
      ensures ServedBy(w, r.cache, hs[i], flags[i], s)
    {
      assert ServedBy(w, before, hs[i], flags[i], s);
    }
  }

  // ----- the node of the metric itself -----

  /** Opening the metric's node and, if it is fresh, filling it in or giving it up. */
  function Measure(c: Cache, s: Setting, requests: seq<Address>, ok: bool): Attached
    requires Inv(c)
  {
    var r := AfterNew(c, s.metric, s.focus, s.dontInsertData, true);
    NewKeepsInv(c, s.metric, s.focus, s.dontInsertData, true);
    var h := r.handle.value;
    if NodeAt(r.cache, h).dataNodes > 0 then Attached(r.cache, Some(h))
    else if ok then Attached(AfterSetup(r.cache, h, requests), Some(h))
    else Attached(AfterDelete(AfterSetup(r.cache, h, requests), h), None)
  }

  /** What is measured on a node found under the metric's name and focus: the node as it was. */
  lemma FoundIsMeasured(c: Cache, s: Setting, requests: seq<Address>, ok: bool)
    requires Inv(c) && KeyName(s.metric, s.focus) in c.entries
    requires c.nodes[c.entries[KeyName(s.metric, s.focus)]].dataNodes > 0
    ensures var r, n := Measure(c, s, requests, ok), c.entries[KeyName(s.metric, s.focus)];
      && r.handle == Some(c.next) && r.cache.handles == c.handles[c.next := n]
      && r.cache.nodes == c.nodes[n := c.nodes[n].(references := c.nodes[n].references + 1)]
      && r.cache.entries == c.entries
  {
    hide Inv;
  }

  /** A metric without a node gets one, with exactly the requests made for it; if those cannot be had, nothing is left
      but that two numbers are used up. */
  lemma NewIsMeasured(c: Cache, s: Setting, requests: seq<Address>, ok: bool)
    requires Inv(c) && KeyName(s.metric, s.focus) !in c.entries
    ensures var r, n := Measure(c, s, requests, ok), c.next;
      var node := Node(s.metric, s.focus, s.dontInsertData, 1, requests, 1, false, 0, 0);
      if ok then
        && r.handle == Some(n + 1) && r.cache.handles == c.handles[n + 1 := n] && r.cache.nodes == c.nodes[n := node]
        && r.cache.entries == if s.dontInsertData then c.entries else c.entries[KeyName(s.metric, s.focus) := n]
      else
        r == Attached(c.(next := c.next + 2), None)
  {
    FreshShape(c, s.metric, s.focus, s.dontInsertData);
    assert [] + requests == requests;
    hide Inv, Holders;
    if !ok {
      var made := AfterNew(c, s.metric, s.focus, s.dontInsertData, true).cache;
      GivenUp(c, made, c.next + 1, requests);
    }
  }

  /** Giving up the only handle on a node leaves nothing of it. */
  lemma GivenUp(c: Cache, made: Cache, h: nat, requests: seq<Address>)
    requires h in made.handles && h !in c.handles && made.handles == c.handles[h := made.handles[h]]
    requires var n := made.handles[h];
      && n !in c.nodes && n in made.nodes && made.nodes == c.nodes[n := made.nodes[n]]
      && made.nodes[n].references == 1 && made.nodes[n].callbacks == 0
      && Key(made.nodes[n]) !in c.entries
      && (made.entries == c.entries || made.entries == c.entries[Key(made.nodes[n]) := n])
    ensures AfterDelete(AfterSetup(made, h, requests), h)
      == Cache(c.nodes, c.handles, c.entries, made.next)
  {
    var n, after := made.handles[h], AfterDelete(AfterSetup(made, h, requests), h);
    hide Key;
    assert after.handles == c.handles && after.nodes == c.nodes && after.entries == c.entries;
  }

  lemma {:induction false} MetricNodeIsSound(w: World, c: Cache, h: nat, requests: seq<Address>, clean: bool)
    requires SoundBut(w, c, h, clean) && Plain(NodeAt(c, h).name)
    ensures Sound(w, AfterSetup(c, h, requests), clean)
  {
    StepKeepsInv(c, Setup(h, requests));
    var node := NodeAt(AfterSetup(c, h, requests), h);
    forall cons: string, metric: string
      ensures node.name != OwnName(cons, metric)
    {
      HasSeparator(cons, metric);
    }
  }

  /** The metric's own node keeps the invariant. */
  lemma {:induction false} MeasureIsSound(
    w: World, c: Cache, s: Setting, requests: seq<Address>, ok: bool, clean: bool)
    requires Sound(w, c, clean) && Plain(s.metric)
    ensures Sound(w, Measure(c, s, requests, ok).cache, clean)
  {
    NewIsSound(w, c, s.metric, s.focus, s.dontInsertData, clean);
    var r := AfterNew(c, s.metric, s.focus, s.dontInsertData, true);
    var h := r.handle.value;
    if NodeAt(r.cache, h).dataNodes == 0 {
      MetricNodeIsSound(w, r.cache, h, requests, clean);
      if !ok {
        DeleteIsSound(w, AfterSetup(r.cache, h, requests), h, clean);
      }
    }
    hide AfterNew, AfterSetup, AfterDelete, Sound, SoundBut, Inv;
  }

  /** It leaves no handle behind but the one returned. */
  lemma {:induction false} MeasureHandles(c: Cache, s: Setting, requests: seq<Address>, ok: bool)
    requires Inv(c)
    ensures var r := Measure(c, s, requests, ok);
      && r.cache.handles.Keys == c.handles.Keys + Returned(r)
      && (r.handle.Some? ==> r.handle.value !in c.handles)
      && forall h <- c.handles :: r.cache.handles[h] == c.handles[h]
  {
    MeasureShape(c, s, requests, ok);
    hide Measure, Inv;
    var r := Measure(c, s, requests, ok);
    if r.handle.Some? {
      OneHandleMore(c.handles, r.handle.value, r.cache.handles[r.handle.value]);
    }
  }

  lemma {:induction false} MeasureShape(c: Cache, s: Setting, requests: seq<Address>, ok: bool)
    requires Inv(c)
    ensures var r := Measure(c, s, requests, ok);
      if r.handle.None? then r.cache.handles == c.handles else
      && r.handle.value !in c.handles && r.handle.value in r.cache.handles
      && r.cache.handles == c.handles[r.handle.value := r.cache.handles[r.handle.value]]
  {
    NewHandles(c, s.metric, s.focus, s.dontInsertData);
    NewKeepsInv(c, s.metric, s.focus, s.dontInsertData, true);
    var r := AfterNew(c, s.metric, s.focus, s.dontInsertData, true);
    hide AfterNew, AfterSetup, AfterDelete, Inv;
    var h := r.handle.value;
    OpenedHandle(r.cache, h, requests);
    OneHandleMore(c.handles, h, r.cache.handles[h]);
  }

  lemma {:induction false} OpenedHandle(c: Cache, h: nat, requests: seq<Address>)
    requires Inv(c) && h in c.handles
    ensures c.handles[h] in c.nodes && AfterSetup(c, h, requests).handles == c.handles
    ensures AfterDelete(AfterSetup(c, h, requests), h).handles == c.handles - {h}
  {
  }

  lemma OneHandleMore(handles: map<nat, nat>, h: nat, n: nat)
    requires h !in handles
    ensures handles[h := n].Keys == handles.Keys + {h} && handles[h := n] - {h} == handles
  {
  }
}
