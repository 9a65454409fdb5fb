/** Hardware events behind code nodes: a node made for a metric that counts one owns it and deletes it with its last
    handle; a node copied for a forked process points to its parent's. */
module HwEvents {
  import opened Options
  import Nodes = CodeNodeCache
  import Papi = PapiSlots

  /** The cache of nodes; the manager whose events they count; the event object each node points to; every event object
      ever made; and how often each was deleted. */
  datatype Daemon = Daemon(
    cache: Nodes.Cache, papi: Papi.Manager, held: map<nat, nat>, made: seq<Papi.HwEvent>, deleted: multiset<nat>)

  datatype Op =
    | New(name: string, focus: string, dontInsertData: bool)
    | NewCounting(name: string, focus: string, dontInsertData: bool, code: int, accepted: bool)
    | Copy(h: nat, focus: string, stray: bool, loaded: nat)
    | Delete(h: nat, removed: bool)

  predicate Shaped(d: Daemon) {
    Nodes.Inv(d.cache) && forall n <- d.held :: n in d.cache.nodes && d.held[n] < |d.made|
  }

  /** The node behind a handle. */
  function NodeOf(d: Daemon, h: nat): Nodes.Node
    requires Shaped(d) && h in d.cache.handles
  {
    d.cache.nodes[d.cache.handles[h]]
  }

  predicate Possible(d: Daemon, op: Op) {
    match op
    case Copy(h, _, _, _) => h in d.cache.handles
    case Delete(h, _) => h in d.cache.handles
    case _ => true
  }

  // ----- the operations -----

  /** A registered node is shared as it is; a new one needs an event. */
  function AfterNewCounting(
    d: Daemon, name: string, focus: string, dontInsertData: bool, code: int, accepted: bool): Daemon
    requires Shaped(d)
  {
    var found := Nodes.KeyName(name, focus) in d.cache.entries;
    var created := Papi.AfterCreate(d.papi, code, accepted);
    var r := Nodes.AfterNew(d.cache, name, focus, dontInsertData, found || created.event.Some?);
    if found || created.event.None? then d.(cache := r.cache)
    else d.(cache := r.cache, papi := created.manager,
            held := d.held[d.cache.next := |d.made|], made := d.made + [created.event.value])
  }

  /** Whether a copy makes a node that points to its parent's event. */
  predicate Forks(d: Daemon, op: Op)
    requires Shaped(d) && Possible(d, op)
  {
    && op.Copy?
    && d.cache.handles[op.h] in d.held
    && Nodes.KeyName(NodeOf(d, op.h).name, op.focus) !in d.cache.entries
  }

  function AfterCopy(d: Daemon, op: Op): Daemon
    requires Shaped(d) && Possible(d, op) && op.Copy?
  {
    var copied := Nodes.AfterCopy(d.cache, op.h, op.focus, op.stray, op.loaded).cache;
    if Forks(d, op) then d.(cache := copied, held := d.held[d.cache.next := d.held[d.cache.handles[op.h]]])
    else d.(cache := copied)
  }

  /** The destructor of an event object, which runs on the code the object has or had. */
  function Destructed(d: Daemon, o: nat, removed: bool): Papi.Manager
    requires o < |d.made|
  {
    var after := Papi.AfterDestroy(d.papi, d.made[o], removed);
    if o in d.deleted then after.(live := d.papi.live) else after
  }

  /** The last handle of a node deletes the event that the node points to. */
  function AfterDelete(d: Daemon, h: nat, removed: bool): Daemon
    requires Shaped(d) && h in d.cache.handles
  {
    var n := d.cache.handles[h];
    var cache := Nodes.AfterDelete(d.cache, h);
    if d.cache.nodes[n].references != 1 || n !in d.held then d.(cache := cache)
    else d.(cache := cache, papi := Destructed(d, d.held[n], removed),
            held := d.held - {n}, deleted := d.deleted + multiset{d.held[n]})
  }

  function Step(d: Daemon, op: Op): Daemon
    requires Shaped(d) && Possible(d, op)
  {
    match op
    case New(name, focus, dontInsertData) =>
      d.(cache := Nodes.AfterNew(d.cache, name, focus, dontInsertData, true).cache)
    case NewCounting(name, focus, dontInsertData, code, accepted) =>
      AfterNewCounting(d, name, focus, dontInsertData, code, accepted)
    case Copy(_, _, _, _) => AfterCopy(d, op)
    case Delete(h, removed) => AfterDelete(d, h, removed)
  }

  // ----- what every operation keeps, and what a fork breaks -----

  /** The nodes that point to an event. */
  function Holding(held: map<nat, nat>, made: seq<Papi.HwEvent>, e: Papi.HwEvent): set<nat> {
    set n | n in held && held[n] < |made| && made[held[n]] == e
  }

  /** Different nodes point to different objects. */
  predicate OwnedOnce(d: Daemon) {
    forall n, p | n in d.held && p in d.held && n != p :: d.held[n] != d.held[p]
  }

  /** No object was deleted twice, and none that a node points to was deleted. */
  predicate DeletedOnce(d: Daemon) {
    && (forall o <- d.deleted :: o < |d.made| && d.deleted[o] == 1)
    && (forall n <- d.held :: d.held[n] !in d.deleted)
  }

  /** The nodes that point to an event are the handles its slot counts. */
  ghost predicate Counted(d: Daemon) {
    forall e :: d.papi.live[e] == |Holding(d.held, d.made, e)|
  }

  ghost predicate Good(d: Daemon) {
    Shaped(d) && OwnedOnce(d) && DeletedOnce(d) && Counted(d) && Papi.Inv(d.papi)
  }

  lemma NodesBelowNext(c: Nodes.Cache)
    requires Nodes.Inv(c)
    ensures forall n <- c.nodes :: n < c.next
    ensures forall h <- c.handles :: c.handles[h] in c.nodes
  {
  }

  /** Making a node, opening one and copying one keep the nodes there were. */
  lemma NewKeepsNodes(c: Nodes.Cache, name: string, focus: string, dontInsertData: bool, found: bool)
    requires Nodes.Inv(c)
    ensures var after := Nodes.AfterNew(c, name, focus, dontInsertData, found).cache;
      && Nodes.Inv(after) && (forall n <- c.nodes :: n in after.nodes)
      && (found && Nodes.KeyName(name, focus) !in c.entries ==> c.next in after.nodes)
  {
    Nodes.NewKeepsInv(c, name, focus, dontInsertData, found);
    hide Nodes.Inv, Nodes.KeyName;
  }

  lemma CopyKeepsNodes(c: Nodes.Cache, h: nat, focus: string, stray: bool, loaded: nat)
    requires Nodes.Inv(c) && h in c.handles
    ensures var after := Nodes.AfterCopy(c, h, focus, stray, loaded).cache;
      && Nodes.Inv(after) && (forall n <- c.nodes :: n in after.nodes)
      && (Nodes.KeyName(c.nodes[c.handles[h]].name, focus) !in c.entries ==> c.next in after.nodes)
  {
    Nodes.CopyKeepsInv(c, h, focus, stray, loaded);
    hide Nodes.Inv, Nodes.KeyName;
  }

  lemma DeletingKeepsOthers(c: Nodes.Cache, h: nat)
    requires Nodes.Inv(c) && h in c.handles
    ensures Nodes.Inv(Nodes.AfterDelete(c, h))
    ensures forall n <- c.nodes | n != c.handles[h] || c.nodes[n].references != 1 :: n in Nodes.AfterDelete(c, h).nodes
  {
    Nodes.DeleteKeepsInv(c, h);
    hide Nodes.Inv;
  }

  lemma CountingKeepsShape(d: Daemon, op: Op)
    requires Shaped(d) && op.NewCounting?
    ensures Shaped(Step(d, op))
  {
    hide Nodes.AfterNew, Nodes.Inv, Papi.AfterCreate, Nodes.KeyName;
    NewKeepsNodes(d.cache, op.name, op.focus, op.dontInsertData, true);
    NewKeepsNodes(d.cache, op.name, op.focus, op.dontInsertData, false);
  }

  lemma CopyKeepsShape(d: Daemon, op: Op)
    requires Shaped(d) && op.Copy? && Possible(d, op)
    ensures Shaped(AfterCopy(d, op))
  {
    NodesBelowNext(d.cache);
    CopyKeepsNodes(d.cache, op.h, op.focus, op.stray, op.loaded);
    hide Nodes.AfterCopy, Nodes.Inv, Nodes.KeyName;
  }

  lemma DeleteKeepsShape(d: Daemon, h: nat, removed: bool)
    requires Shaped(d) && h in d.cache.handles
    ensures Shaped(AfterDelete(d, h, removed))
  {
    DeletingKeepsOthers(d.cache, h);
    hide Nodes.AfterDelete, Nodes.Inv, Destructed;
  }

  lemma StepKeepsShape(d: Daemon, op: Op)
    requires Shaped(d) && Possible(d, op)
    ensures Shaped(Step(d, op))
  {
    match op
    case New(name, focus, dontInsertData) => NewKeepsNodes(d.cache, name, focus, dontInsertData, true);
    case NewCounting(_, _, _, _, _) => CountingKeepsShape(d, op);
    case Copy(_, _, _, _) => CopyKeepsShape(d, op);
    case Delete(h, removed) => DeleteKeepsShape(d, h, removed);
    hide AfterNewCounting, AfterCopy, AfterDelete, Nodes.AfterNew, Nodes.Inv;
  }

  lemma HoldsOneMore(held: map<nat, nat>, made: seq<Papi.HwEvent>, n: nat, e: Papi.HwEvent, x: Papi.HwEvent)
    requires n !in held && forall p <- held :: held[p] < |made|
    ensures |Holding(held[n := |made|], made + [e], x)| == |Holding(held, made, x)| + if x == e then 1 else 0
  {
    if x == e {
      assert Holding(held[n := |made|], made + [e], x) == Holding(held, made, x) + {n};
    } else {
      assert Holding(held[n := |made|], made + [e], x) == Holding(held, made, x);
    }
  }

  lemma HoldsOneLess(held: map<nat, nat>, made: seq<Papi.HwEvent>, n: nat, x: Papi.HwEvent)
    requires n in held && held[n] < |made|
    ensures |Holding(held - {n}, made, x)| == |Holding(held, made, x)| - if x == made[held[n]] then 1 else 0
  {
    if x == made[held[n]] {
      assert Holding(held, made, x) == Holding(held - {n}, made, x) + {n};
    } else {
      assert Holding(held, made, x) == Holding(held - {n}, made, x);
    }
  }

  lemma HolderIsLive(d: Daemon, n: nat)
    requires Shaped(d) && Counted(d) && n in d.held
    ensures d.made[d.held[n]] in d.papi.live
  {
    assert n in Holding(d.held, d.made, d.made[d.held[n]]);
  }

  /** The new node points to the new object. */
  ghost predicate HoldsNew(d: Daemon, after: Daemon) {
    && |after.made| == |d.made| + 1 && d.cache.next !in d.held
    && var e := after.made[|d.made|];
       && after.made == d.made + [e] && after.held == d.held[d.cache.next := |d.made|]
       && after.papi.live == d.papi.live + multiset{e} && after.deleted == d.deleted
  }

  lemma CountingShape(d: Daemon, op: Op)
    requires Shaped(d) && Papi.Inv(d.papi) && op.NewCounting?
    ensures var after := Step(d, op);
      && Papi.Inv(after.papi)
      && ((after.papi == d.papi && after.held == d.held && after.made == d.made && after.deleted == d.deleted)
          || HoldsNew(d, after))
  {
    NodesBelowNext(d.cache);
    hide Papi.AfterCreate, Papi.Inv, Nodes.Inv, Nodes.AfterNew;
    Papi.CreateKeepsInv(d.papi, op.code, op.accepted);
    Papi.CreateAdds(d.papi, op.code, op.accepted);
  }

  lemma {:induction false} HoldingNewIsGood(d: Daemon, after: Daemon)
    requires Good(d) && Shaped(after) && Papi.Inv(after.papi) && HoldsNew(d, after)
    ensures Good(after)
  {
    hide Papi.Inv, Nodes.Inv;
    var e := after.made[|d.made|];
    forall x
      ensures after.papi.live[x] == |Holding(after.held, after.made, x)|
    {
      HoldsOneMore(d.held, d.made, d.cache.next, e, x);
    }
    hide Holding;
  }

  lemma {:induction false} CountingKeepsGood(d: Daemon, op: Op)
    requires Good(d) && op.NewCounting?
    ensures Good(Step(d, op))
  {
    hide Step, Papi.Inv, Nodes.Inv, HoldsNew;
    StepKeepsShape(d, op);
    CountingShape(d, op);
    var after := Step(d, op);
    if HoldsNew(d, after) {
      HoldingNewIsGood(d, after);
    }
  }

  /** The node's object is gone. */
  ghost predicate HoldsNoMore(d: Daemon, after: Daemon, n: nat)
    requires Shaped(d)
  {
    && n in d.held && after.made == d.made && after.held == d.held - {n}
    && after.papi.live == d.papi.live - multiset{d.made[d.held[n]]}
    && after.deleted == d.deleted + multiset{d.held[n]}
  }

  lemma DeleteShape(d: Daemon, op: Op)
    requires Good(d) && op.Delete? && Possible(d, op)
    ensures var after := Step(d, op);
      && Papi.Inv(after.papi)
      && ((after.papi == d.papi && after.held == d.held && after.made == d.made && after.deleted == d.deleted)
          || HoldsNoMore(d, after, d.cache.handles[op.h]))
  {
    NodesBelowNext(d.cache);
    hide Papi.AfterDestroy, Papi.Inv, Nodes.Inv, Nodes.AfterDelete, Holding, OwnedOnce;
    var n := d.cache.handles[op.h];
    if NodeOf(d, op.h).references == 1 && n in d.held {
      HolderIsLive(d, n);
      hide Counted;
      Papi.DestroyKeepsInv(d.papi, d.made[d.held[n]], op.removed);
      Papi.DestroyShape(d.papi, d.made[d.held[n]], op.removed);
    }
  }

  lemma {:induction false} StillCounted(d: Daemon, after: Daemon, n: nat)
    requires Shaped(d) && Counted(d) && HoldsNoMore(d, after, n)
    ensures Counted(after)
  {
    HolderIsLive(d, n);
    forall x
      ensures after.papi.live[x] == |Holding(after.held, after.made, x)|
    {
      HoldsOneLess(d.held, d.made, n, x);
    }
  }

  lemma {:induction false} StillDeletedOnce(d: Daemon, after: Daemon, n: nat)
    requires Shaped(d) && OwnedOnce(d) && DeletedOnce(d) && HoldsNoMore(d, after, n)
    ensures DeletedOnce(after)
  {
    forall o <- after.deleted
      ensures o < |after.made| && after.deleted[o] == 1
    {
      assert o == d.held[n] || o in d.deleted;
    }
  }

  lemma {:induction false} HoldingNoMoreIsGood(d: Daemon, after: Daemon, n: nat)
    requires Good(d) && Shaped(after) && Papi.Inv(after.papi) && HoldsNoMore(d, after, n)
    ensures Good(after)
  {
    StillCounted(d, after, n);
    StillDeletedOnce(d, after, n);
    hide Papi.Inv, Nodes.Inv, Counted, DeletedOnce;
  }

  lemma {:induction false} DeleteKeepsGood(d: Daemon, op: Op)
    requires Good(d) && op.Delete? && Possible(d, op)
    ensures Good(Step(d, op))
  {
    hide Step, Papi.Inv, Nodes.Inv, HoldsNoMore;
    StepKeepsShape(d, op);
    DeleteShape(d, op);
    var after, n := Step(d, op), d.cache.handles[op.h];
    if HoldsNoMore(d, after, n) {
      HoldingNoMoreIsGood(d, after, n);
    }
  }

  /** Every operation keeps all of this, exactly unless it copies a node that points to an event to a new one. */
  lemma StepKeepsGoodIff(d: Daemon, op: Op)
    requires Good(d) && Possible(d, op)
    ensures Good(Step(d, op)) <==> !Forks(d, op)
  {
    if op.NewCounting? {
      CountingKeepsGood(d, op);
    } else if op.Delete? {
      DeleteKeepsGood(d, op);
    } else {
      StepKeepsShape(d, op);
      OtherKeepsGoodIff(d, op);
    }
  }

  lemma OtherKeepsGoodIff(d: Daemon, op: Op)
    requires Good(d) && Possible(d, op) && (op.New? || op.Copy?) && Shaped(Step(d, op))
    ensures Good(Step(d, op)) <==> !Forks(d, op)
  {
    hide Papi.Inv, Nodes.AfterNew, Nodes.AfterCopy;
    NodesBelowNext(d.cache);
    var after := Step(d, op);
    if Forks(d, op) {
      var n := d.cache.handles[op.h];
      assert n in after.held && d.cache.next in after.held && n != d.cache.next;
      assert after.held[n] == after.held[d.cache.next];
    }
  }

  // ----- runs -----

  predicate IsRun(d: Daemon, ops: seq<Op>)
    requires Shaped(d)
    decreases ops
  {
    ops == [] || (Possible(d, ops[0]) && (StepKeepsShape(d, ops[0]); IsRun(Step(d, ops[0]), ops[1..])))
  }

  /** Everything is right in each state of the run. */
  ghost predicate GoodThroughout(d: Daemon, ops: seq<Op>)
    requires Shaped(d) && IsRun(d, ops)
    decreases ops
  {
    Good(d) && (ops == [] || (StepKeepsShape(d, ops[0]); GoodThroughout(Step(d, ops[0]), ops[1..])))
  }

  /** No copy of the run shares an event. */
  predicate NeverForks(d: Daemon, ops: seq<Op>)
    requires Shaped(d) && IsRun(d, ops)
    decreases ops
  {
    ops == [] || (!Forks(d, ops[0]) && (StepKeepsShape(d, ops[0]); NeverForks(Step(d, ops[0]), ops[1..])))
  }

  /** Through a whole run every event object is deleted at most once and every slot counts the nodes that use it, if and
      only if the run copies no node with an event to a new one. */
  lemma {:induction false} GoodThroughoutIff(d: Daemon, ops: seq<Op>)
    requires Good(d) && IsRun(d, ops)
    ensures GoodThroughout(d, ops) <==> NeverForks(d, ops)
    decreases ops
  {
    if ops != [] {
      hide Step, Good, Forks;
      StepKeepsShape(d, ops[0]);
      StepKeepsGoodIff(d, ops[0]);
      if !Forks(d, ops[0]) {
        GoodThroughoutIff(Step(d, ops[0]), ops[1..]);
      } else {
        NotGoodAtAll(Step(d, ops[0]), ops[1..]);
      }
    }
  }

  lemma NotGoodAtAll(d: Daemon, ops: seq<Op>)
    requires Shaped(d) && IsRun(d, ops) && !Good(d)
    ensures !GoodThroughout(d, ops)
  {
  }

  // ----- what the second deletion does to the slots -----

  /** The slots after an event object was deleted twice. */
  function DeletedTwice(m: Papi.Manager, e: Papi.HwEvent, first: bool, second: bool): Papi.Manager {
    var once := Papi.AfterDestroy(m, e, first);
    Papi.AfterDestroy(once, e, second).(live := once.live)
  }

  lemma {:induction false} CodeGone(m: Papi.Manager, after: Papi.Manager, e: Papi.HwEvent)
    requires Papi.Inv(m) && e in m.live && e.index < |m.slots| && after.slots == m.slots[e.index := None]
    ensures Papi.FindCode(after.slots, e.code) == |after.slots|
  {
    Papi.FindsOwnSlot(m, e);
    assert Papi.Holds(m.slots[e.index], e.code);
    assert forall i | 0 <= i < |after.slots| :: !Papi.Holds(after.slots[i], e.code);
  }

  /** The second deletion is harmless exactly if the first one emptied the slot: the object was the last on it, and its
      event was not active or could be removed. Otherwise a count is wrong from then on. */
  lemma {:induction false} SecondDeletionIff(m: Papi.Manager, e: Papi.HwEvent, first: bool, second: bool)
    requires Papi.Inv(m) && e in m.live
    ensures e.index < |m.slots| && m.slots[e.index].Some?
    ensures Papi.Inv(DeletedTwice(m, e, first, second))
      <==> m.live[e] == 1 && (!m.slots[e.index].value.active || first)
  {
    var once := Papi.AfterDestroy(m, e, first);
    Papi.DestroyShape(m, e, first);
    Papi.DestroyKeepsInv(m, e, first);
    hide Papi.Inv;
    if once.slots[e.index].None? {
      CodeGone(m, once, e);
    } else {
      WrongCount(m, once, e, second);
    }
  }

  /** A slot that still holds the code loses a reference that is another object's, or one below none. */
  lemma {:induction false} WrongCount(m: Papi.Manager, once: Papi.Manager, e: Papi.HwEvent, second: bool)
    requires Papi.Inv(m) && e in m.live && Papi.Inv(once) && e.index < |m.slots| == |once.slots|
    requires Papi.Holds(once.slots[e.index], e.code)
    ensures !Papi.Inv(Papi.AfterDestroy(once, e, second).(live := once.live))
  {
    assert Papi.FindCode(once.slots, e.code) == e.index;
    var twice := Papi.AfterDestroy(once, e, second).(live := once.live);
    assert once.slots[e.index].value.references == once.live[e];
    Papi.EmptyOrOccupied(once.slots, e.index);
    if twice.slots[e.index].Some? {
      assert e == Papi.HwEvent(twice.slots[e.index].value.code, e.index);
      assert twice.slots[e.index].value.references != twice.live[e];
    } else {
      assert e in twice.live;
    }
  }

  // ----- a fork, and both nodes deleted -----

  /** The copy of a node with an event: a node with one handle, which points to the same object. */
  lemma {:induction false} ForkShape(d: Daemon, op: Op)
    requires Shaped(d) && op.Copy? && Possible(d, op) && Forks(d, op)
    ensures var after, n := AfterCopy(d, op), d.cache.next;
      && after.held == d.held[n := d.held[d.cache.handles[op.h]]] && n !in d.held
      && after.cache.handles == d.cache.handles[n + 1 := n] && n + 1 !in d.cache.handles
      && n in after.cache.nodes && after.cache.nodes[n].references == 1
      && d.cache.handles[op.h] in after.cache.nodes
      && after.cache.nodes[d.cache.handles[op.h]] == d.cache.nodes[d.cache.handles[op.h]]
      && after.papi == d.papi && after.made == d.made && after.deleted == d.deleted
  {
    NodesBelowNext(d.cache);
    assert d.cache.next + 1 !in d.cache.handles;
  }

  lemma {:induction false} LastHandleShape(d: Daemon, h: nat, removed: bool)
    requires Shaped(d) && h in d.cache.handles && d.cache.handles[h] in d.held
    requires NodeOf(d, h).references == 1
    ensures var after, n := AfterDelete(d, h, removed), d.cache.handles[h];
      && after.papi == Destructed(d, d.held[n], removed) && after.held == d.held - {n} && after.made == d.made
      && after.deleted == d.deleted + multiset{d.held[n]} && after.cache.handles == d.cache.handles - {h}
      && forall p <- d.cache.nodes | p != n :: p in after.cache.nodes && after.cache.nodes[p] == d.cache.nodes[p]
  {
  }

  /** The daemon after a fork and the deletion of the parent's node, whose event object the copy still points to. */
  predicate ForkedOnce(d: Daemon, op: Op, first: bool, once: Daemon)
    requires Shaped(d) && op.Copy? && Possible(d, op) && Forks(d, op)
  {
    var n, g := d.cache.handles[op.h], d.cache.next + 1;
    && Shaped(once) && g in once.cache.handles && once.cache.handles[g] == d.cache.next
    && NodeOf(once, g).references == 1
    && once.held == d.held[d.cache.next := d.held[n]] - {n} && once.made == d.made
    && n != d.cache.next && n in d.held
    && once.deleted == d.deleted + multiset{d.held[n]} && once.papi == Destructed(d, d.held[n], first)
  }

  /** The parent's node loses its only handle after it was copied. */
  lemma {:induction false} FirstDeletion(d: Daemon, op: Op, first: bool)
    requires Shaped(d) && op.Copy? && Possible(d, op) && Forks(d, op)
    requires NodeOf(d, op.h).references == 1
    ensures Shaped(AfterCopy(d, op)) && op.h in AfterCopy(d, op).cache.handles
    ensures ForkedOnce(d, op, first, AfterDelete(AfterCopy(d, op), op.h, first))
  {
    hide AfterCopy, AfterDelete, Destructed, Nodes.Inv;
    var copied := AfterCopy(d, op);
    NextIsNew(d);
    ForkShape(d, op);
    CopyKeepsShape(d, op);
    LastHandleShape(copied, op.h, first);
    DeleteKeepsShape(copied, op.h, first);
    SameDestructed(d, copied, copied.held[d.cache.handles[op.h]], first);
  }

  lemma SameDestructed(d: Daemon, other: Daemon, o: nat, removed: bool)
    requires o < |d.made| && other.made == d.made && other.papi == d.papi && other.deleted == d.deleted
    ensures Destructed(d, o, removed) == Destructed(other, o, removed)
  {
  }

  function AfterFirstDeletion(d: Daemon, op: Op, first: bool): (once: Daemon)
    requires Shaped(d) && op.Copy? && Possible(d, op) && Forks(d, op)
    requires NodeOf(d, op.h).references == 1
    ensures ForkedOnce(d, op, first, once)
  {
    FirstDeletion(d, op, first);
    AfterDelete(AfterCopy(d, op), op.h, first)
  }

  /** A daemon in which a node with an event was copied for a forked process, and then each of the two nodes lost its
      only handle. */
  function Forked(d: Daemon, op: Op, first: bool, second: bool): Daemon
    requires Shaped(d) && op.Copy? && Possible(d, op) && Forks(d, op)
    requires NodeOf(d, op.h).references == 1
  {
    AfterDelete(AfterFirstDeletion(d, op, first), d.cache.next + 1, second)
  }

  /** The event object is deleted twice, and the slots are right afterwards if and only if the first deletion emptied
      its slot. */
  lemma {:induction false} ForkBreaksSlotsIff(d: Daemon, op: Op, first: bool, second: bool)
    requires Good(d) && op.Copy? && Possible(d, op) && Forks(d, op)
    requires NodeOf(d, op.h).references == 1
    ensures var o := d.held[d.cache.handles[op.h]];
      var e := d.made[o];
      var after := Forked(d, op, first, second);
      && after.deleted[o] == 2
      && after.papi == DeletedTwice(d.papi, e, first, second)
      && e.index < |d.papi.slots| && d.papi.slots[e.index].Some?
      && (Papi.Inv(after.papi) <==> d.papi.live[e] == 1 && (!d.papi.slots[e.index].value.active || first))
  {
    var n := d.cache.handles[op.h];
    var e := d.made[d.held[n]];
    HolderIsLive(d, n);
    ForkTwice(d, op, first, second);
    SecondDeletionIff(d.papi, e, first, second);
    hide Forked, DeletedTwice, Papi.Inv, Nodes.Inv, Forks;
  }

  lemma {:induction false} ForkTwice(d: Daemon, op: Op, first: bool, second: bool)
    requires Good(d) && op.Copy? && Possible(d, op) && Forks(d, op)
    requires NodeOf(d, op.h).references == 1
    ensures var o := d.held[d.cache.handles[op.h]];
      var after := Forked(d, op, first, second);
      && after.deleted[o] == 2 && after.papi == DeletedTwice(d.papi, d.made[o], first, second)
      && after.held == d.held - {d.cache.handles[op.h]} && after.made == d.made
  {
    hide AfterFirstDeletion, AfterDelete, Papi.AfterDestroy, Papi.Inv, Nodes.Inv, Counted;
    var n := d.cache.handles[op.h];
    var once := AfterFirstDeletion(d, op, first);
    LastHandleShape(once, d.cache.next + 1, second);
    assert d.held[d.cache.next := d.held[n]] - {n} - {d.cache.next} == d.held - {n} by {
      NextIsNew(d);
    }
  }

  lemma NextIsNew(d: Daemon)
    requires Shaped(d)
    ensures d.cache.next !in d.held
  {
    NodesBelowNext(d.cache);
  }

  /** With one other node on the slot and the event not active yet, the slot is emptied while that node counts on it. */
  lemma {:induction false} EventTakenAway(d: Daemon, op: Op, first: bool, second: bool)
    requires Good(d) && op.Copy? && Possible(d, op) && Forks(d, op)
    requires NodeOf(d, op.h).references == 1
    requires var e := d.made[d.held[d.cache.handles[op.h]]];
      && d.papi.live[e] == 2 && e.index < |d.papi.slots|
      && d.papi.slots[e.index].Some? && !d.papi.slots[e.index].value.active
    ensures var e := d.made[d.held[d.cache.handles[op.h]]];
      var after := Forked(d, op, first, second);
      && |after.papi.slots| == |d.papi.slots| && after.papi.slots[e.index].None?
      && exists p <- after.held :: after.held[p] < |after.made| && after.made[after.held[p]] == e
  {
    var n := d.cache.handles[op.h];
    var e := d.made[d.held[n]];
    ForkTwice(d, op, first, second);
    HolderIsLive(d, n);
    TakenTwice(d.papi, e, first, second);
    HoldsOneLess(d.held, d.made, n, e);
    var left := Holding(d.held - {n}, d.made, e);
    assert |left| == 1;
    var p :| p in left;
    hide Forked, DeletedTwice, Papi.Inv, Nodes.Inv, Forks;
  }

  lemma {:induction false} TakenTwice(m: Papi.Manager, e: Papi.HwEvent, first: bool, second: bool)
    requires Papi.Inv(m) && e in m.live && m.live[e] == 2
    requires e.index < |m.slots| && m.slots[e.index].Some? && !m.slots[e.index].value.active
    ensures var twice := DeletedTwice(m, e, first, second);
      |twice.slots| == |m.slots| && twice.slots[e.index].None?
  {
    Papi.DestroyShape(m, e, first);
    Papi.DestroyKeepsInv(m, e, first);
    Papi.DestroyShape(Papi.AfterDestroy(m, e, first), e, second);
    hide Papi.AfterDestroy, Papi.Inv;
  }

  // ----- a run that gets there -----

  const EVENT := Papi.HwEvent(7, 0)

  const A := NewCounting("a", "p", false, 7, true)

  const B := NewCounting("b", "p", false, 7, true)

  /** No node and two counters; a node on a slot of its own; and another node that counts the same event. */
  const INITIAL := Daemon(Nodes.EMPTY, Papi.Idle(2, 0, false), map[], [], multiset{})

  const ONE := Daemon(
    Nodes.Cache(map[0 := Bare("a", 1)], map[1 := 0], map[Nodes.KeyName("a", "p") := 0], 2),
    Papi.Manager([Some(Papi.Event(1, 7, false)), None], 1, false, multiset{EVENT}), map[0 := 0], [EVENT], multiset{})

  const TWO := Daemon(
    Nodes.Cache(ONE.cache.nodes[2 := Bare("b", 1)], map[1 := 0, 3 := 2],
                ONE.cache.entries[Nodes.KeyName("b", "p") := 2], 4),
    Papi.Manager([Some(Papi.Event(2, 7, false)), None], 1, false, multiset{EVENT, EVENT}),
    map[0 := 0, 2 := 1], [EVENT, EVENT], multiset{})

  function Bare(name: string, references: int): Nodes.Node {
    Nodes.Node(name, "p", false, 0, [], references, false, 0, 0)
  }

  lemma {:induction false} InitiallyGood()
    ensures Good(INITIAL)
  {
    Papi.IdleOccupied(2);
    assert forall e :: Holding(map[], [], e) == {};
  }

  lemma {:induction false} KeysDiffer()
    ensures Nodes.KeyName("a", "p") != Nodes.KeyName("b", "p") && Nodes.KeyName("a", "p") != Nodes.KeyName("a", "q")
    ensures Nodes.KeyName("b", "p") != Nodes.KeyName("a", "q")
  {
    assert Nodes.KeyName("a", "p")[0] == 'a' == Nodes.KeyName("a", "q")[0] && Nodes.KeyName("b", "p")[0] == 'b';
    assert Nodes.KeyName("a", "p")[2] == 'p' && Nodes.KeyName("a", "q")[2] == 'q';
  }

  lemma {:induction false} SlotsOfOne()
    ensures Papi.AfterCreate(INITIAL.papi, 7, true) == Papi.Created(ONE.papi, Some(EVENT))
  {
    var m := INITIAL.papi;
    assert m.slots == [None, None];
    assert Papi.FindCode(m.slots, 7) == 2 && Papi.FindFree(m.slots) == 0;
    assert multiset{} + multiset{EVENT} == multiset{EVENT};
  }

  lemma {:induction false} SlotsOfTwo()
    ensures Papi.AfterCreate(ONE.papi, 7, true) == Papi.Created(TWO.papi, Some(EVENT))
  {
    assert Papi.FindCode(ONE.papi.slots, 7) == 0;
    assert multiset{EVENT} + multiset{EVENT} == multiset{EVENT, EVENT};
  }

  lemma {:induction false} CacheOfOne()
    ensures Nodes.AfterNew(INITIAL.cache, "a", "p", false, true).cache == ONE.cache
  {
    assert Nodes.Key(Bare("a", 0)) == Nodes.KeyName("a", "p");
    assert (map[0 := Bare("a", 0)])[0 := Bare("a", 1)] == map[0 := Bare("a", 1)];
  }

  lemma {:induction false} CacheOfTwo()
    ensures Nodes.AfterNew(ONE.cache, "b", "p", false, true).cache == TWO.cache
  {
    KeysDiffer();
    var registered := Nodes.Register(ONE.cache, Bare("b", 0));
    assert Nodes.Key(Bare("b", 0)) == Nodes.KeyName("b", "p") && Nodes.Key(Bare("b", 0)) !in ONE.cache.entries;
    assert registered.nodes[2] == Bare("b", 0);
    assert registered.nodes[2 := Bare("b", 1)] == TWO.cache.nodes;
  }

  lemma {:induction false} ToOne()
    requires Shaped(INITIAL)
    ensures Step(INITIAL, A) == ONE
  {
    SlotsOfOne();
    CacheOfOne();
    hide Papi.AfterCreate, Nodes.AfterNew, Papi.Inv, Nodes.Inv, Nodes.KeyName;
    assert (map[])[0 := 0] == map[0 := 0];
  }

  lemma {:induction false} ToTwo()
    requires Shaped(ONE)
    ensures Step(ONE, B) == TWO
  {
    SlotsOfTwo();
    CacheOfTwo();
    KeysDiffer();
    hide Papi.AfterCreate, Nodes.AfterNew, Papi.Inv, Nodes.Inv, Nodes.KeyName;
    assert ONE.held[2 := 1] == TWO.held && ONE.made + [EVENT] == TWO.made;
  }

  lemma {:induction false} TwoNodes()
    ensures Good(INITIAL) && Step(INITIAL, A) == ONE && Good(ONE) && Step(ONE, B) == TWO && Good(TWO)
  {
    InitiallyGood();
    StepKeepsGoodIff(INITIAL, A);
    ToOne();
    hide Step, Counted, DeletedOnce, OwnedOnce, Papi.Inv, Nodes.Inv;
    StepKeepsGoodIff(ONE, B);
    ToTwo();
  }

  const FORK := Copy(1, "q", true, 0)

  /** Copying the first node for a forked process, and deleting both, empties the slot that the second node counts
      on. */
  lemma {:induction false} ForkTakesEventAway(first: bool, second: bool)
    ensures Good(INITIAL) && Step(INITIAL, A) == ONE && Good(ONE) && Step(ONE, B) == TWO && Good(TWO)
    ensures Possible(TWO, FORK) && Forks(TWO, FORK)
    ensures var after := Forked(TWO, FORK, first, second);
      && !Papi.Inv(after.papi) && |after.papi.slots| == 2 && after.papi.slots[0].None?
      && exists p <- after.held :: after.held[p] < |after.made| && after.made[after.held[p]] == EVENT
  {
    TwoNodes();
    KeysDiffer();
    hide Step, Counted, DeletedOnce, OwnedOnce, Papi.Inv, Nodes.Inv, Forked, Nodes.KeyName;
    assert Forks(TWO, FORK) && TWO.papi.live[EVENT] == 2;
    ForkBreaksSlotsIff(TWO, FORK, first, second);
    EventTakenAway(TWO, FORK, first, second);
  }
}
