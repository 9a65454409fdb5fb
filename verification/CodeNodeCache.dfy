/** The cache of instrumentation code nodes: handles share reference-counted nodes, found by metric and focus. */
module CodeNodeCache {
  import opened Options

  type Address = nat

  /** A node in memory. `deletions` counts how often its deletion was initiated. */
  datatype Node = Node(
    name: string, focus: string, dontInsertData: bool, dataNodes: nat, requests: seq<Address>,
    references: int, pendingDeletion: bool, deletions: nat, callbacks: nat)

  /** The nodes in memory, the live handles on them, and the dictionary. Nodes and handles are allocated at `next`. */
  datatype Cache = Cache(nodes: map<nat, Node>, handles: map<nat, nat>, entries: map<string, nat>, next: nat)

  function KeyName(name: string, focus: string): string {
    name + "-" + focus
  }

  function Key(node: Node): string {
    KeyName(node.name, node.focus)
  }

  function Holders(handles: map<nat, nat>, n: nat): set<nat> {
    set h | h in handles && handles[h] == n
  }

  // ----- the operations -----

  datatype Opened = Opened(cache: Cache, handle: Option<nat>)

  /** One more handle on a node. */
  function Open(c: Cache, n: nat): Opened
    requires n in c.nodes
  {
    Opened(c.(handles := c.handles[c.next := n],
              nodes := c.nodes[n := c.nodes[n].(references := c.nodes[n].references + 1)],
              next := c.next + 1),
           Some(c.next))
  }

  /** A new node enters the dictionary unless it has no data inserted. */
  function Register(c: Cache, node: Node): Cache {
    Cache(c.nodes[c.next := node], c.handles,
          if node.dontInsertData then c.entries else c.entries[Key(node) := c.next], c.next + 1)
  }

  /** newInstrCodeNode; `hwFound` tells whether the hardware event the metric needs, if any, can be had. */
  function AfterNew(c: Cache, name: string, focus: string, dontInsertData: bool, hwFound: bool): Opened
    requires forall key <- c.entries :: c.entries[key] in c.nodes
  {
    var key := KeyName(name, focus);
    if key in c.entries then Open(c, c.entries[key])
    else if !hwFound then Opened(c, None)
    else Open(Register(c, Node(name, focus, dontInsertData, 0, [], 0, false, 0, 0)), c.next)
  }

  /** copyInstrCodeNode: the node of a forked process starts from its parent's, with a callback registered for each of
      the `loaded` requests. Whether it inserts data is not copied, but left as `stray`. */
  function AfterCopy(c: Cache, h: nat, focus: string, stray: bool, loaded: nat): Opened
    requires h in c.handles && c.handles[h] in c.nodes
    requires forall key <- c.entries :: c.entries[key] in c.nodes
  {
    var parent := c.nodes[c.handles[h]];
    var key := KeyName(parent.name, focus);
    if key in c.entries then Open(c, c.entries[key])
    else Open(Register(c, parent.(focus := focus, dontInsertData := stray, references := 0, deletions := 0,
                                  callbacks := loaded)), c.next)
  }

  /** Deleting a handle. The last one takes the key out of the dictionary and initiates the node's deletion; the node
      is freed unless a callback is outstanding. */
  function AfterDelete(c: Cache, h: nat): Cache
    requires h in c.handles && c.handles[h] in c.nodes
  {
    var n := c.handles[h];
    var node := c.nodes[n].(references := c.nodes[n].references - 1);
    var handles := c.handles - {h};
    if node.references != 0 then c.(handles := handles, nodes := c.nodes[n := node])
    else
      var dead := node.(pendingDeletion := true, deletions := node.deletions + 1);
      c.(handles := handles, entries := c.entries - {Key(node)},
         nodes := if dead.callbacks == 0 then c.nodes - {n} else c.nodes[n := dead])
  }

  /** The requests from a position on, but for those at the given positions. */
  function Without(requests: seq<Address>, from: nat, gone: set<nat>): seq<Address>
    requires from <= |requests|
    decreases |requests| - from
  {
    if from == |requests| then [] else
    (if from in gone then [] else [requests[from]]) + Without(requests, from + 1, gone)
  }

  /** A snippet of the node is deleted, which takes out every request that has it, at the positions `gone`. */
  function AfterCallback(c: Cache, n: nat, gone: set<nat>): Cache
    requires n in c.nodes && c.nodes[n].callbacks > 0
  {
    var node := c.nodes[n];
    c.(nodes := c.nodes[n :=
         node.(callbacks := node.callbacks - 1, requests := Without(node.requests, 0, gone))])
  }

  /** Filling in a node through a handle: a data node, and requests for instrumentation. */
  function AfterSetup(c: Cache, h: nat, requests: seq<Address>): Cache
    requires h in c.handles && c.handles[h] in c.nodes
  {
    var n := c.handles[h];
    var node := c.nodes[n];
    c.(nodes := c.nodes[n := node.(dataNodes := node.dataNodes + 1, requests := node.requests + requests)])
  }

  // ----- the invariant -----

  predicate HandlesLive(c: Cache) {
    forall h <- c.handles :: h < c.next && c.handles[h] in c.nodes
  }

  predicate CountsExact(c: Cache) {
    forall n <- c.nodes :: n < c.next && c.nodes[n].references == |Holders(c.handles, n)|
  }

  predicate EntriesLive(c: Cache) {
    forall key <- c.entries ::
      && c.entries[key] in c.nodes
      && Key(c.nodes[c.entries[key]]) == key
      && !c.nodes[c.entries[key]].pendingDeletion
      && !c.nodes[c.entries[key]].dontInsertData
  }

  predicate DeletedOnce(c: Cache) {
    forall n <- c.nodes ::
      && (c.nodes[n].pendingDeletion <==> c.nodes[n].references == 0)
      && c.nodes[n].deletions == if c.nodes[n].pendingDeletion then 1 else 0
  }

  /** Reference counts equal the number of live handles, dictionary entries lead to live, non-pending nodes with that
      key, and the deletion of a node is initiated when its last handle goes, and once. */
  predicate Inv(c: Cache) {
    HandlesLive(c) && CountsExact(c) && EntriesLive(c) && DeletedOnce(c)
  }

  datatype Event =
    | New(name: string, focus: string, dontInsertData: bool, hwFound: bool)
    | Copy(h: nat, focus: string, stray: bool, loaded: nat)
    | Delete(h: nat)
    | Setup(h: nat, requests: seq<Address>)
    | Callback(n: nat, gone: set<nat>)

  predicate Possible(c: Cache, e: Event) {
    match e
    case New(_, _, _, _) => true
    case Copy(h, _, _, _) => h in c.handles
    case Delete(h) => h in c.handles
    case Setup(h, _) => h in c.handles
    case Callback(n, _) => n in c.nodes && c.nodes[n].callbacks > 0
  }

  function Step(c: Cache, e: Event): Cache
    requires Inv(c) && Possible(c, e)
  {
    match e
    case New(name, focus, dontInsertData, hwFound) => AfterNew(c, name, focus, dontInsertData, hwFound).cache
    case Copy(h, focus, stray, loaded) => AfterCopy(c, h, focus, stray, loaded).cache
    case Delete(h) => AfterDelete(c, h)
    case Setup(h, requests) => AfterSetup(c, h, requests)
    case Callback(n, gone) => AfterCallback(c, n, gone)
  }

  // ----- every step keeps it -----

  lemma OneMoreHolder(handles: map<nat, nat>, h: nat, n: nat, m: nat)
    requires h !in handles
    ensures |Holders(handles[h := n], m)| == |Holders(handles, m)| + if m == n then 1 else 0
  {
    if m == n {
      assert Holders(handles[h := n], m) == Holders(handles, m) + {h};
    } else {
      assert Holders(handles[h := n], m) == Holders(handles, m);
    }
  }

  lemma OneHolderLess(handles: map<nat, nat>, h: nat, m: nat)
    requires h in handles
    ensures |Holders(handles - {h}, m)| == |Holders(handles, m)| - if m == handles[h] then 1 else 0
  {
    if m == handles[h] {
      assert Holders(handles, m) == Holders(handles - {h}, m) + {h};
    } else {
      assert Holders(handles - {h}, m) == Holders(handles, m);
    }
  }

  /** What opening needs: the invariant, or a node just registered. */
  predicate Openable(c: Cache, n: nat) {
    && HandlesLive(c) && CountsExact(c) && EntriesLive(c)
    && n in c.nodes && !c.nodes[n].pendingDeletion && c.nodes[n].deletions == 0
    && DeletedOnce(c.(nodes := c.nodes - {n}))
  }

  lemma OpenKeepsInv(c: Cache, n: nat)
    requires Openable(c, n)
    ensures Inv(Open(c, n).cache)
  {
    var after := Open(c, n).cache;
    assert c.next !in c.handles;
    forall m <- after.nodes
      ensures m < after.next && after.nodes[m].references == |Holders(after.handles, m)|
    {
      OneMoreHolder(c.handles, c.next, n, m);
    }
    forall m <- after.nodes
      ensures after.nodes[m].pendingDeletion <==> after.nodes[m].references == 0
      ensures after.nodes[m].deletions == if after.nodes[m].pendingDeletion then 1 else 0
    {
      if m != n {
        assert m in c.(nodes := c.nodes - {n}).nodes;
      }
    }
  }

  lemma RegisterOpenable(c: Cache, node: Node)
    requires Inv(c) && node.references == 0 && !node.pendingDeletion && node.deletions == 0
    requires Key(node) !in c.entries
    ensures Openable(Register(c, node), c.next)
  {
    assert Holders(c.handles, c.next) == {};
    assert Register(c, node).nodes - {c.next} == c.nodes;
  }

  lemma NewKeepsInv(c: Cache, name: string, focus: string, dontInsertData: bool, hwFound: bool)
    requires Inv(c)
    ensures Inv(AfterNew(c, name, focus, dontInsertData, hwFound).cache)
  {
    var key := KeyName(name, focus);
    if key in c.entries {
      OpenKeepsInv(c, c.entries[key]);
    } else if hwFound {
      var node := Node(name, focus, dontInsertData, 0, [], 0, false, 0, 0);
      RegisterOpenable(c, node);
      OpenKeepsInv(Register(c, node), c.next);
    }
  }

  /** Opening fails only for want of a hardware event for a new node; otherwise it yields a new handle on a node with
      the key asked for, and every other handle keeps its node. A second handle on a registered node
      shares it; otherwise the node is new and empty, and registered unless its data is not inserted. */
  lemma NewExactly(c: Cache, name: string, focus: string, dontInsertData: bool, hwFound: bool)
    requires Inv(c)
    ensures var r := AfterNew(c, name, focus, dontInsertData, hwFound);
      && (r.handle.None? <==> KeyName(name, focus) !in c.entries && !hwFound)
      && (r.handle.None? ==> r.cache == c)
      && (r.handle.Some? ==>
            var h := r.handle.value;
            && h !in c.handles && r.cache.handles == c.handles[h := r.cache.handles[h]]
            && r.cache.handles[h] in r.cache.nodes && Key(r.cache.nodes[r.cache.handles[h]]) == KeyName(name, focus)
            && (KeyName(name, focus) in c.entries ==> r.cache.handles[h] == c.entries[KeyName(name, focus)])
            && (KeyName(name, focus) !in c.entries ==>
                  && r.cache.handles[h] !in c.nodes
                  && r.cache.nodes == c.nodes[r.cache.handles[h] :=
                       Node(name, focus, dontInsertData, 0, [], 1, false, 0, 0)]
                  && r.cache.entries == if dontInsertData then c.entries
                       else c.entries[KeyName(name, focus) := r.cache.handles[h]]))
  {
    assert c.next !in c.handles && c.next + 1 !in c.handles && c.next !in c.nodes;
  }

  /** A node with a handle is not pending deletion. */
  lemma HeldNotPending(c: Cache, h: nat)
    requires Inv(c) && h in c.handles
    ensures !c.nodes[c.handles[h]].pendingDeletion
  {
    assert h in Holders(c.handles, c.handles[h]);
  }

  lemma CopyKeepsInv(c: Cache, h: nat, focus: string, stray: bool, loaded: nat)
    requires Inv(c) && h in c.handles
    ensures Inv(AfterCopy(c, h, focus, stray, loaded).cache)
  {
    var parent := c.nodes[c.handles[h]];
    var key := KeyName(parent.name, focus);
    HeldNotPending(c, h);
    if key in c.entries {
      OpenKeepsInv(c, c.entries[key]);
    } else {
      var node := parent.(focus := focus, dontInsertData := stray, references := 0,
        deletions := 0, callbacks := loaded);
      RegisterOpenable(c, node);
      OpenKeepsInv(Register(c, node), c.next);
    }
  }

  lemma DeleteKeepsInv(c: Cache, h: nat)
    requires Inv(c) && h in c.handles
    ensures Inv(AfterDelete(c, h))
  {
    HeldNotPending(c, h);
    DeleteKeepsHandles(c, h);
    var after := AfterDelete(c, h);
    hide HandlesLive, Holders;
    forall m <- after.nodes
      ensures m < after.next && after.nodes[m].references == |Holders(after.handles, m)|
    {
      OneHolderLess(c.handles, h, m);
    }
  }

  lemma DeleteKeepsHandles(c: Cache, h: nat)
    requires Inv(c) && h in c.handles
    ensures HandlesLive(AfterDelete(c, h)) && c.handles[h] in c.nodes
  {
    var n, after := c.handles[h], AfterDelete(c, h);
    hide EntriesLive, DeletedOnce;
    forall g <- after.handles
      ensures g < after.next && after.handles[g] in after.nodes
    {
      if n !in after.nodes {
        OneHolderLess(c.handles, h, n);
        assert g in Holders(after.handles, after.handles[g]);
      }
    }
  }

  /** Copying yields a new handle on the node registered under the parent's name and the new focus; and if there is
      none, on a new node that is as its parent was but for the focus, the flag, and the callbacks registered for it. */
  lemma CopyExactly(c: Cache, h: nat, focus: string, stray: bool, loaded: nat)
    requires Inv(c) && h in c.handles
    ensures var r := AfterCopy(c, h, focus, stray, loaded);
      && r.handle.Some? && r.handle.value !in c.handles
      && var parent, n := c.nodes[c.handles[h]], r.cache.handles[r.handle.value];
         && r.cache.handles == c.handles[r.handle.value := n]
         && (KeyName(parent.name, focus) in c.entries ==> n == c.entries[KeyName(parent.name, focus)])
         && (KeyName(parent.name, focus) !in c.entries ==>
               && n !in c.nodes
               && r.cache.nodes == c.nodes[n := Node(parent.name, focus, stray, parent.dataNodes, parent.requests, 1,
                                                     false, 0, loaded)]
               && (stray ==> r.cache.entries == c.entries)
               && (!stray ==> r.cache.entries == c.entries[KeyName(parent.name, focus) := n]))
  {
    HeldNotPending(c, h);
    assert c.next !in c.handles && c.next + 1 !in c.handles && c.next !in c.nodes;
    hide CountsExact, EntriesLive, Holders;
  }

  /** Deleting takes away one handle. A node with another handle only loses a reference; the last handle takes the key
      out, and the node with it unless a callback is outstanding. No other node changes. */
  lemma DeleteExactly(c: Cache, h: nat)
    requires Inv(c) && h in c.handles
    ensures var after, n := AfterDelete(c, h), c.handles[h];
      && after.handles == c.handles - {h} && after.nodes - {n} == c.nodes - {n}
      && (n !in after.nodes <==> Holders(c.handles, n) == {h} && c.nodes[n].callbacks == 0)
      && (n in after.nodes && Holders(c.handles, n) == {h} ==>
            after.nodes[n] == c.nodes[n].(references := 0, pendingDeletion := true, deletions := 1))
      && (Holders(c.handles, n) != {h} ==>
            n in after.nodes && after.nodes[n] == c.nodes[n].(references := c.nodes[n].references - 1))
      && after.entries == if Holders(c.handles, n) == {h} then c.entries - {Key(c.nodes[n])} else c.entries
  {
    HeldNotPending(c, h);
    OnlyHolder(c, h);
    hide Inv, Holders;
  }

  lemma OnlyHolder(c: Cache, h: nat)
    requires Inv(c) && h in c.handles
    ensures Holders(c.handles, c.handles[h]) == {h} <==> c.nodes[c.handles[h]].references == 1
    ensures c.nodes[c.handles[h]].deletions == if c.nodes[c.handles[h]].pendingDeletion then 1 else 0
  {
    var hs := Holders(c.handles, c.handles[h]);
    assert h in hs;
    if |hs| == 1 {
      assert |hs - {h}| == 0;
      assert hs == {h};
    }
  }

  /** `at` lists, in increasing order, exactly the positions from a position on that are not `gone`. */
  ghost predicate Spared(n: nat, from: nat, gone: set<nat>, at: seq<nat>) {
    && (forall u, v | 0 <= u < v < |at| :: at[u] < at[v])
    && (forall k: nat :: k in at <==> from <= k < n && k !in gone)
  }

  /** The entries at the positions `at`, in their order. */
  predicate Selects(requests: seq<Address>, at: seq<nat>, kept: seq<Address>) {
    |kept| == |at| && forall u | 0 <= u < |at| :: at[u] < |requests| && kept[u] == requests[at[u]]
  }

  lemma {:induction false} WithoutSpares(requests: seq<Address>, from: nat, gone: set<nat>) returns (at: seq<nat>)
    requires from <= |requests|
    ensures Spared(|requests|, from, gone, at) && Selects(requests, at, Without(requests, from, gone))
    decreases |requests| - from
  {
    if from == |requests| {
      at := [];
    } else {
      var later := WithoutSpares(requests, from + 1, gone);
      at := (if from in gone then [] else [from]) + later;
      assert forall u | 0 <= u < |later| :: later[u] in later;
    }
  }

  /** A callback lowers the node's count by one and takes the requests at exactly the given positions out of it; the
      others stay in order, and no other node changes. */
  lemma CallbackExactly(c: Cache, n: nat, gone: set<nat>) returns (at: seq<nat>)
    requires n in c.nodes && c.nodes[n].callbacks > 0
    ensures var after := AfterCallback(c, n, gone);
      && after == c.(nodes := after.nodes) && n in after.nodes && after.nodes - {n} == c.nodes - {n}
      && var node, was := after.nodes[n], c.nodes[n];
         && node == was.(callbacks := was.callbacks - 1, requests := node.requests)
         && Spared(|was.requests|, 0, gone, at) && Selects(was.requests, at, node.requests)
  {
    at := WithoutSpares(c.nodes[n].requests, 0, gone);
    hide Without, Spared, Selects;
  }

  lemma StepKeepsInv(c: Cache, e: Event)
    requires Inv(c) && Possible(c, e)
    ensures Inv(Step(c, e))
  {
    match e
    case New(name, focus, dontInsertData, hwFound) => NewKeepsInv(c, name, focus, dontInsertData, hwFound);
    case Copy(h, focus, stray, loaded) => CopyKeepsInv(c, h, focus, stray, loaded);
    case Delete(h) => DeleteKeepsInv(c, h);
    case Setup(h, requests) =>
    case Callback(n, gone) =>
  }

  // ----- runs -----

  const EMPTY := Cache(map[], map[], map[], 0)

  /** The caches a run goes through exist: every event is possible where it happens. */
  predicate IsRun(c: Cache, events: seq<Event>)
    requires Inv(c)
    decreases events
  {
    if events == [] then true
    else
      && Possible(c, events[0])
      && (StepKeepsInv(c, events[0]); IsRun(Step(c, events[0]), events[1..]))
  }

  function AfterRun(c: Cache, events: seq<Event>): Cache
    requires Inv(c) && IsRun(c, events)
    decreases events
  {
    if events == [] then c
    else
      StepKeepsInv(c, events[0]);
      AfterRun(Step(c, events[0]), events[1..])
  }

  lemma {:induction false} RunKeepsInv(c: Cache, events: seq<Event>)
    requires Inv(c) && IsRun(c, events)
    ensures Inv(AfterRun(c, events))
    decreases events
  {
    if events != [] {
      StepKeepsInv(c, events[0]);
      RunKeepsInv(Step(c, events[0]), events[1..]);
    }
  }

  /** In every reachable state: counts are exact, entries are live, and no node's deletion was initiated twice. */
  lemma ReachableCacheInv(events: seq<Event>)
    requires IsRun(EMPTY, events)
    ensures Inv(AfterRun(EMPTY, events))
  {
    RunKeepsInv(EMPTY, events);
  }

  /** A node leaves memory only when it has neither a handle nor an outstanding callback; and then it was this step
      that initiated its deletion. */
  lemma FreedOnlyUnused(c: Cache, e: Event, n: nat)
    requires Inv(c) && Possible(c, e) && n in c.nodes && n !in Step(c, e).nodes
    ensures Holders(Step(c, e).handles, n) == {} && c.nodes[n].callbacks == 0 && !c.nodes[n].pendingDeletion
    ensures e.Delete? && c.handles[e.h] == n
  {
    HeldNotPending(c, e.h);
    OneHolderLess(c.handles, e.h, n);
  }

  // ----- what the dictionary finds -----

  /** Every node in use that has its data inserted is the one found under its key. */
  predicate AllFound(c: Cache) {
    forall n <- c.nodes | !c.nodes[n].pendingDeletion && !c.nodes[n].dontInsertData ::
      Key(c.nodes[n]) in c.entries && c.entries[Key(c.nodes[n])] == n
  }

  /** The last handle of a node that was never registered, while another node is registered under its key. */
  predicate DropsAnother(c: Cache, e: Event)
    requires Inv(c) && Possible(c, e)
  {
    && e.Delete?
    && var node := c.nodes[c.handles[e.h]];
       node.references == 1 && node.dontInsertData && Key(node) in c.entries
  }

  lemma FoundAfterDelete(c: Cache, h: nat)
    requires Inv(c) && AllFound(c) && h in c.handles
    ensures AllFound(AfterDelete(c, h)) <==> !DropsAnother(c, Delete(h))
  {
    var after := AfterDelete(c, h);
    if DropsAnother(c, Delete(h)) {
      var n := c.entries[Key(c.nodes[c.handles[h]])];
      assert n in after.nodes && !after.nodes[n].pendingDeletion && !after.nodes[n].dontInsertData;
    }
  }

  lemma FoundAfterOpening(c: Cache, e: Event)
    requires Inv(c) && AllFound(c) && Possible(c, e) && (e.New? || e.Copy?)
    ensures AllFound(Step(c, e))
  {
  }

  /** Nodes in use stay findable, except exactly when deleting an unregistered node removes the entry of a registered
      one with the same key. */
  lemma FoundUnlessDropped(c: Cache, e: Event)
    requires Inv(c) && Possible(c, e) && AllFound(c)
    ensures AllFound(Step(c, e)) <==> !DropsAnother(c, e)
  {
    match e
    case Delete(h) => FoundAfterDelete(c, h);
    case Setup(_, _) =>
    case Callback(_, _) =>
    case _ => FoundAfterOpening(c, e);
  }

  lemma KeysDiffer()
    ensures KeyName("m", "f") != KeyName("m", "g")
  {
    assert KeyName("m", "f")[2] == 'f' && KeyName("m", "g")[2] == 'g';
  }

  function Bare(focus: string, dontInsertData: bool): Node {
    Node("m", focus, dontInsertData, 0, [], 1, false, 0, 0)
  }

  /** A node; with a forked copy that its stray flag leaves unregistered; with a node registered for the copy's key. */
  const ONE := Cache(map[0 := Bare("f", false)], map[1 := 0], map[KeyName("m", "f") := 0], 2)

  const TWO := Cache(map[0 := Bare("f", false), 2 := Bare("g", true)], map[1 := 0, 3 := 2], ONE.entries, 4)

  const THREE := Cache(
    TWO.nodes[4 := Bare("g", false)], TWO.handles[5 := 4], TWO.entries[KeyName("m", "g") := 4], 6)

  const E1 := New("m", "f", false, true)

  const E2 := Copy(1, "g", true, 0)

  const E3 := New("m", "g", false, true)

  lemma {:induction false} FirstEvents()
    ensures Step(EMPTY, E1) == ONE && Inv(ONE) && Possible(ONE, E2)
    ensures Step(ONE, E2) == TWO && Inv(TWO)
  {
    FirstStep();
    StepKeepsInv(EMPTY, E1);
    SecondStep();
    StepKeepsInv(ONE, E2);
    hide Step, Inv;
  }

  lemma {:induction false} FirstStep()
    ensures Step(EMPTY, E1) == ONE
  {
    var node := Bare("f", false).(references := 0);
    assert Register(EMPTY, node).nodes[0 := Bare("f", false)] == ONE.nodes;
    hide Inv;
  }

  lemma {:induction false} SecondStep()
    requires Inv(ONE)
    ensures Possible(ONE, E2) && Step(ONE, E2) == TWO
  {
    hide Inv;
    KeysDiffer();
    var node := Bare("g", true).(references := 0);
    var registered := Register(ONE, node);
    assert Key(node) == KeyName("m", "g") && Key(node) !in ONE.entries;
    assert registered.nodes[2] == node && registered.nodes[2 := Bare("g", true)] == TWO.nodes;
  }

  lemma {:induction false} LastStep()
    requires Inv(TWO)
    ensures Step(TWO, E3) == THREE
  {
    hide Inv;
    KeysDiffer();
    var node := Bare("g", false).(references := 0);
    var registered := Register(TWO, node);
    assert Key(node) == KeyName("m", "g") && Key(node) !in TWO.entries;
    assert registered.handles == TWO.handles && registered.next == 5 && registered.nodes[4] == node;
    assert Step(TWO, E3) == Open(registered, 4).cache;
    assert registered.nodes[4 := Bare("g", false)] == THREE.nodes;
  }

  lemma {:induction false} LastEvent()
    requires Inv(TWO)
    ensures Step(TWO, E3) == THREE && Inv(THREE)
  {
    LastStep();
    StepKeepsInv(TWO, E3);
    hide Step, Inv;
  }

  lemma {:induction false} ThreeFound()
    requires Inv(THREE)
    ensures AllFound(THREE) && DropsAnother(THREE, Delete(3))
  {
    hide Inv, KeyName;
    KeysDiffer();
    assert Key(Bare("f", false)) == KeyName("m", "f") && Key(Bare("g", false)) == KeyName("m", "g");
    forall n <- THREE.nodes | !THREE.nodes[n].dontInsertData
      ensures Key(THREE.nodes[n]) in THREE.entries && THREE.entries[Key(THREE.nodes[n])] == n
    {
      assert n == 0 || n == 4;
    }
    assert THREE.handles[3] == 2 && THREE.nodes[2] == Bare("g", true);
    hide Key;
  }

  /** Deleting the copy drops the entry of the registered node. */
  lemma {:induction false} StrayCopyDrops()
    ensures IsRun(EMPTY, [E1, E2, E3]) && Inv(AfterRun(EMPTY, [E1, E2, E3]))
    ensures var c := AfterRun(EMPTY, [E1, E2, E3]);
      AllFound(c) && 3 in c.handles && DropsAnother(c, Delete(3)) && !AllFound(Step(c, Delete(3)))
  {
    FirstEvents();
    LastEvent();
    ThreeFound();
    assert 3 in THREE.handles;
    FoundUnlessDropped(THREE, Delete(3));
    hide Step, AllFound, Inv, DropsAnother;
    assert [E1, E2, E3][1..] == [E2, E3] && [E2, E3][1..] == [E3] && [E3][1..] == [];
    assert IsRun(THREE, []) && AfterRun(THREE, []) == THREE;
    assert IsRun(TWO, [E3]) && AfterRun(TWO, [E3]) == THREE;
    assert IsRun(ONE, [E2, E3]) && AfterRun(ONE, [E2, E3]) == THREE;
  }

  // ----- the cache itself -----

  lemma LastUpdateWins(nodes: map<nat, Node>, n: nat, first: Node, second: Node)
    ensures nodes[n := first][n := second] == nodes[n := second]
    ensures nodes[n := first] - {n} == nodes - {n}
  {
  }

  class CodeNodes {
    var nodes: map<nat, Node>
    var handles: map<nat, nat>
    var entries: map<string, nat>
    var next: nat

    function Now(): Cache
      reads this
    {
      Cache(nodes, handles, entries, next)
    }

    constructor ()
      ensures Now() == EMPTY && Inv(Now())
    {
      nodes, handles, entries, next := map[], map[], map[], 0;
    }

    /** Allocates a handle on a node. */
    method Hold(n: nat) returns (handle: nat)
      requires n in nodes
      modifies this
      ensures Opened(Now(), Some(handle)) == Open(old(Now()), n)
    {
      nodes := nodes[n := nodes[n].(references := nodes[n].references + 1)];
      handle := next;
      handles, next := handles[handle := n], next + 1;
    }

    /** Puts a new node into memory, and into the dictionary unless it has no data inserted. */
    method RegisterCodeNodeVal(node: Node)
      modifies this
      ensures Now() == Register(old(Now()), node)
    {
      nodes := nodes[next := node];
      if !node.dontInsertData {
        entries := entries[Key(node) := next];
      }
      next := next + 1;
    }

    method NewInstrCodeNode(name: string, focus: string, dontInsertData: bool, hwFound: bool)
      returns (handle: Option<nat>)
      requires Inv(Now())
      modifies this
      ensures Opened(Now(), handle) == AfterNew(old(Now()), name, focus, dontInsertData, hwFound)
      ensures Inv(Now())
    {
      NewKeepsInv(Now(), name, focus, dontInsertData, hwFound);
      hide CountsExact, DeletedOnce, Holders, KeyName;
      var key := KeyName(name, focus);
      var n := next;
      if key in entries {
        n := entries[key];
      } else {
        if !hwFound {
          return None;
        }
        RegisterCodeNodeVal(Node(name, focus, dontInsertData, 0, [], 0, false, 0, 0));
      }
      var h := Hold(n);
      handle := Some(h);
    }

    method CopyInstrCodeNode(h: nat, focus: string, stray: bool, loaded: nat) returns (handle: Option<nat>)
      requires Inv(Now()) && h in handles
      modifies this
      ensures Opened(Now(), handle) == AfterCopy(old(Now()), h, focus, stray, loaded)
      ensures Inv(Now())
    {
      CopyKeepsInv(Now(), h, focus, stray, loaded);
      hide CountsExact, DeletedOnce, Holders, KeyName;
      var parent := nodes[handles[h]];
      var key := KeyName(parent.name, focus);
      var n := next;
      if key in entries {
        n := entries[key];
      } else {
        RegisterCodeNodeVal(parent.(focus := focus, dontInsertData := stray, references := 0,
                                    deletions := 0, callbacks := loaded));
      }
      var g := Hold(n);
      handle := Some(g);
    }

    method AddRequests(h: nat, requests: seq<Address>)
      requires Inv(Now()) && h in handles
      modifies this
      ensures Now() == AfterSetup(old(Now()), h, requests)
      ensures Inv(Now())
    {
      StepKeepsInv(Now(), Setup(h, requests));
      var node := nodes[handles[h]];
      nodes := nodes[handles[h] := node.(dataNodes := node.dataNodes + 1, requests := node.requests + requests)];
    }

    /** The destructor of a handle. */
    method Delete(h: nat)
      requires Inv(Now()) && h in handles
      modifies this
      ensures Now() == AfterDelete(old(Now()), h)
      ensures Inv(Now())
    {
      DeleteKeepsInv(Now(), h);
      HeldNotPending(Now(), h);
      var n := handles[h];
      ghost var was, dropped := nodes, nodes[n].(references := nodes[n].references - 1);
      hide Inv, Key;
      handles := handles - {h};
      nodes := nodes[n := nodes[n].(references := nodes[n].references - 1)];
      if nodes[n].references == 0 {
        entries := entries - {Key(nodes[n])};
        InitiateDelete(n);
        LastUpdateWins(was, n, dropped, nodes[n]);
        LastUpdateWins(was, n, nodes[n], nodes[n]);
        if nodes[n].pendingDeletion && nodes[n].callbacks == 0 {
          nodes := nodes - {n};
        }
      }
    }

    /** Asserts that the deletion was not initiated before. */
    method InitiateDelete(n: nat)
      requires n in nodes && !nodes[n].pendingDeletion
      modifies this`nodes
      ensures nodes
        == old(nodes)[n := old(nodes)[n].(pendingDeletion := true, deletions := old(nodes)[n].deletions + 1)]
    {
      assert !nodes[n].pendingDeletion;
      nodes := nodes[n := nodes[n].(pendingDeletion := true, deletions := nodes[n].deletions + 1)];
    }

    /** Erases the requests that have the deleted snippet, from the last to the first. */
    method CleanupSnippetHandle(n: nat, gone: set<nat>)
      requires n in nodes
      modifies this`nodes
      ensures nodes == old(nodes)[n := old(nodes)[n].(requests := Without(old(nodes)[n].requests, 0, gone))]
    {
      var requests := nodes[n].requests;
      ghost var was := requests;
      for i := |requests| downto 0
        invariant i <= |was| && requests == was[..i] + Without(was, i, gone)
      {
        if i in gone {
          requests := requests[..i] + requests[i + 1..];
        }
      }
      assert requests == Without(was, 0, gone);
      nodes := nodes[n := nodes[n].(requests := requests)];
    }

    method HandleCallback(n: nat, gone: set<nat>)
      requires Inv(Now()) && n in nodes && nodes[n].callbacks > 0
      modifies this
      ensures Now() == AfterCallback(old(Now()), n, gone)
      ensures Inv(Now())
    {
      StepKeepsInv(Now(), Callback(n, gone));
      hide Inv, Without;
      ghost var was, counted := nodes, nodes[n].(callbacks := nodes[n].callbacks - 1);
      nodes := nodes[n := nodes[n].(callbacks := nodes[n].callbacks - 1)];
      CleanupSnippetHandle(n, gone);
      LastUpdateWins(was, n, counted, nodes[n]);
    }
  }
}
