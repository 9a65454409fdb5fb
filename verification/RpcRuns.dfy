/** The promises of the protocol, over whole runs. */
module RpcRuns {
  import opened RpcTypes
  import opened RpcEndpoint
  import opened RpcProtocol
  import opened RpcSafety

  lemma {:induction false} RunKeepsInv(iface: Interface, s: State, run: seq<Step>)
    requires Inv(iface, s) && Legal(iface, s, run)
    ensures Inv(iface, After(iface, s, run))
    decreases |run|
  {
    if run != [] {
      StepKeepsInv(iface, s, run[0]);
      RunKeepsInv(iface, Next(iface, s, run[0]), run[1..]);
    }
  }

  lemma ReachableInv(iface: Interface, run: seq<Step>)
    requires Legal(iface, INITIAL, run)
    ensures Inv(iface, After(iface, INITIAL, run))
  {
    RunKeepsInv(iface, INITIAL, run);
  }

  // ----- synchronous calls -----

  /** A client in the stub of a synchronous call has exactly one message of such a call anywhere: its own request
      on the way or being served, or its own reply. Whatever else is in its channel is an upcall, so its
      `awaitResponse` never fails, in any interleaving. */
  lemma BlockedCall(iface: Interface, run: seq<Step>)
    requires Legal(iface, INITIAL, run)
    ensures var s := After(iface, INITIAL, run);
            && !s.client.mode.Stopped?
            && (s.client.mode.AwaitingReply? ==>
                  var call := s.client.mode.call;
                  && call.tag.Request?
                  && Outstanding(iface, s) == 1
                  && Belong(iface, s.toServer, call) && Belong(iface, s.server.handlers, call)
                  && forall m <- s.toClient ::
                       HasBufferCases(iface, Client, m.tag)
                       || (m.tag == Response(call.tag.name) && m.serial == call.serial))
            && (!s.client.mode.AwaitingReply? ==> Outstanding(iface, s) == 0)
  {
    ReachableInv(iface, run);
    var s := After(iface, INITIAL, run);
    if s.client.mode.AwaitingReply? {
      forall m | m in s.toClient
        ensures HasBufferCases(iface, Client, m.tag) ||
                (m.tag == Response(s.client.mode.call.tag.name) && m.serial == s.client.mode.call.serial)
      {
        ArmsByKind(iface, m.tag);
      }
    }
  }

  // ----- exactly-once delivery -----

  lemma {:induction false} AtMostOnce(ms: seq<Message>, bound: nat, m: Message)
    requires Increasing(ms, bound)
    ensures Occurs(ms, m) <= 1
    ensures ms != [] && ms[0].serial > m.serial ==> Occurs(ms, m) == 0
  {
    if ms != [] {
      AtMostOnce(ms[1..], bound, m);
      if |ms| > 1 && ms[0] == m {
        assert ms[1..][0].serial > m.serial;
      }
    }
  }

  lemma SameMultiset(a: seq<Message>, b: seq<Message>, c: seq<Message>, d: seq<Message>)
    requires forall m :: Occurs(a, m) == Occurs(b, m) + Occurs(c, m) + Occurs(d, m)
    ensures multiset(a) == multiset(b) + multiset(c) + multiset(d)
  {
    forall m ensures multiset(a)[m] == (multiset(b) + multiset(c) + multiset(d))[m] {
      OccursIsMultiplicity(a, m);
      OccursIsMultiplicity(b, m);
      OccursIsMultiplicity(c, m);
      OccursIsMultiplicity(d, m);
    }
  }

  /** Over a whole run, with handlers re-entering stubs and loops as they like, each asynchronous message that was
      sent is in its channel, in its buffer, or has had its handler started, and exactly one of these, once. */
  lemma ExactlyOnce(iface: Interface, run: seq<Step>)
    requires Legal(iface, INITIAL, run)
    ensures var s := After(iface, INITIAL, run);
            && multiset(s.upcallsSent)
              == multiset(s.upcallsDone) + multiset(s.client.buffer) + multiset(Asyncs(iface, s.toClient))
            && multiset(s.callsSent)
              == multiset(s.callsDone) + multiset(s.server.buffer) + multiset(Asyncs(iface, s.toServer))
            && forall m :: Occurs(s.upcallsSent, m) <= 1 && Occurs(s.callsSent, m) <= 1
  {
    ReachableInv(iface, run);
    var s := After(iface, INITIAL, run);
    forall m
      ensures Occurs(s.upcallsSent, m)
        == Occurs(s.upcallsDone, m) + Occurs(s.client.buffer, m) + Occurs(Asyncs(iface, s.toClient), m)
      ensures Occurs(s.callsSent, m)
        == Occurs(s.callsDone, m) + Occurs(s.server.buffer, m) + Occurs(Asyncs(iface, s.toServer), m)
    {
      assert UpcallsAccounted(iface, s, m) && CallsAccounted(iface, s, m);
    }
    SameMultiset(s.upcallsSent, s.upcallsDone, s.client.buffer, Asyncs(iface, s.toClient));
    SameMultiset(s.callsSent, s.callsDone, s.server.buffer, Asyncs(iface, s.toServer));
    forall m ensures Occurs(s.upcallsSent, m) <= 1 && Occurs(s.callsSent, m) <= 1 {
      AtMostOnce(s.upcallsSent, s.serial, m);
      AtMostOnce(s.callsSent, s.serial, m);
    }
  }

  // ----- the handshake -----

  /** The first message a server ever sends answers the verification, no later one does, and a client that is up
      has its answer: nothing of the handshake is left in either channel. */
  lemma VerifyComesFirst(iface: Interface, run: seq<Step>)
    requires Legal(iface, INITIAL, run)
    ensures var s := After(iface, INITIAL, run);
            && (s.serverSent != [] ==> s.serverSent[0].tag.Verify?)
            && (forall i | 1 <= i < |s.serverSent| :: !s.serverSent[i].tag.Verify?)
            && (s.upcallsSent != [] ==> s.server.verified)
            && (s.client.verified ==> s.serverSent != [] && NoVerify(s.toServer) && NoVerify(s.toClient))
  {
    ReachableInv(iface, run);
  }

  // ----- where a server can stop -----

  /** A receiving server stops exactly when it is inside `wait_for` and meets a synchronous call or the
      verification instead of its target. */
  lemma ServerStopsExactly(iface: Interface, s: State)
    requires Inv(iface, s) && Enabled(iface, s, Receive(Server))
    ensures Next(iface, s, Receive(Server)).server.mode.Stopped? <==>
            && s.server.mode.WaitingFor? && s.toServer[0].tag != s.server.mode.target
            && !KindOf(iface, s.toServer[0].tag).AsyncRequest?
  {
    ServerReceivesSoundly(iface, s);
    ArmsByKind(iface, s.toServer[0].tag);
  }

  lemma NeverStopsEffect(iface: Interface, s: State, e: Effect)
    requires Possible(s, e) && Sound(iface, s, e) && !s.server.mode.Stopped? && !s.server.mode.WaitingFor?
    requires e.ServerEnters? ==> e.mode.Looping?
    ensures !Apply(iface, s, e).server.mode.Stopped? && !Apply(iface, s, e).server.mode.WaitingFor?
  {
  }

  lemma NeverStopsStep(iface: Interface, s: State, step: Step)
    requires Inv(iface, s) && Enabled(iface, s, step)
    requires !s.server.mode.Stopped? && !s.server.mode.WaitingFor? && !(step.WaitFor? && step.side.Server?)
    ensures !Next(iface, s, step).server.mode.Stopped? && !Next(iface, s, step).server.mode.WaitingFor?
  {
    hide Inv, Sound;
    StepIsSound(iface, s, step);
    NeverStopsEffect(iface, s, EffectOf(iface, s, step));
    hide Apply;
  }

  lemma {:induction false} NeverStopsFrom(iface: Interface, s: State, run: seq<Step>)
    requires Inv(iface, s) && Legal(iface, s, run)
    requires !s.server.mode.Stopped? && !s.server.mode.WaitingFor?
    requires forall step <- run :: !(step.WaitFor? && step.side.Server?)
    ensures !After(iface, s, run).server.mode.Stopped?
    decreases |run|
  {
    if run != [] {
      StepKeepsInv(iface, s, run[0]);
      NeverStopsStep(iface, s, run[0]);
      NeverStopsFrom(iface, Next(iface, s, run[0]), run[1..]);
    }
  }

  /** A server that does not use `wait_for` never stops. */
  lemma ServerNeverStops(iface: Interface, run: seq<Step>)
    requires Legal(iface, INITIAL, run)
    requires forall step <- run :: !(step.WaitFor? && step.side.Server?)
    ensures !After(iface, INITIAL, run).server.mode.Stopped?
  {
    NeverStopsFrom(iface, INITIAL, run);
  }

  // ----- order -----

  /** Upcalls have been dispatched in the order they were sent, and those still waiting are in that order too. */
  ghost predicate InOrder(iface: Interface, s: State) {
    s.upcallsSent == s.upcallsDone + s.client.buffer + Asyncs(iface, s.toClient)
  }

  /** The step hands the client a message although an older one is buffered. */
  predicate Overtakes(iface: Interface, s: State, step: Step)
    requires Enabled(iface, s, step)
  {
    match EffectOf(iface, s, step)
    case ClientDispatches => s.client.buffer != []
    case ClientTakes(k) => k > 0
    case _ => false
  }

  lemma OrderKept(iface: Interface, s: State, e: Effect)
    requires InOrder(iface, s) && Possible(s, e) && Sound(iface, s, e)
    requires e.ClientDispatches? ==> s.client.buffer == []
    requires e.ClientTakes? ==> e.k == 0
    ensures InOrder(iface, Apply(iface, s, e))
  {
    match e
    case SendUpcall(name, payload) => AsyncsAppend(iface, s.toClient, Message(Request(name), s.serial, payload));
    case ServerAnswers => AsyncsAppend(iface, s.toClient, Message(Verify, s.toServer[0].serial, 0));
    case ServerAnswersAndUpcalls(upcall) =>
      AppendTwo(iface, s.toClient, Message(Verify, s.toServer[0].serial, 0), upcall);
    case ServerReplies(result) =>
      var h := s.server.handlers[|s.server.handlers| - 1];
      AsyncsAppend(iface, s.toClient, Message(Response(h.tag.name), h.serial, result));
    case _ =>
  }

  /** Somewhere the message dispatched is not the one sent. */
  ghost predicate Differ(done: seq<Message>, sent: seq<Message>) {
    exists n :: 0 <= n < |done| && n < |sent| && done[n] != sent[n]
  }

  lemma DifferForGood(done: seq<Message>, sent: seq<Message>, moreDone: seq<Message>, moreSent: seq<Message>)
    requires Differ(done, sent) && done <= moreDone && sent <= moreSent
    ensures Differ(moreDone, moreSent)
  {
    var n :| 0 <= n < |done| && n < |sent| && done[n] != sent[n];
    assert moreDone[n] != moreSent[n];
  }

  lemma OrderlyDoNotDiffer(done: seq<Message>, waiting: seq<Message>, sent: seq<Message>)
    requires sent == done + waiting
    ensures !Differ(done, sent)
  {
  }

  /** What was sent and dispatched is never forgotten. */
  lemma LogsGrow(iface: Interface, s: State, e: Effect)
    requires Possible(s, e)
    ensures var t := Apply(iface, s, e);
      && s.upcallsSent <= t.upcallsSent && s.upcallsDone <= t.upcallsDone
      && s.callsSent <= t.callsSent && s.callsDone <= t.callsDone
  {
  }

  /** Overtaking is visible: the message dispatched is not the oldest one waiting. */
  lemma OrderBroken(iface: Interface, s: State, e: Effect)
    requires InOrder(iface, s) && Serials(s) && Possible(s, e) && Sound(iface, s, e)
    requires (e.ClientDispatches? && s.client.buffer != []) || (e.ClientTakes? && e.k > 0)
    ensures Differ(Apply(iface, s, e).upcallsDone, Apply(iface, s, e).upcallsSent)
  {
    var t := Apply(iface, s, e);
    var n := |s.upcallsDone|;
    var at := if e.ClientTakes? then n + e.k else n + |s.client.buffer|;
    assert t.upcallsDone[n] == s.upcallsSent[at];
    assert s.upcallsSent[n].serial < s.upcallsSent[at].serial;
  }

  /** From an orderly state, a step keeps order if and only if it does not overtake a buffered message. */
  lemma OrderExactly(iface: Interface, s: State, step: Step)
    requires Inv(iface, s) && InOrder(iface, s) && Enabled(iface, s, step)
    ensures InOrder(iface, Next(iface, s, step)) <==> !Overtakes(iface, s, step)
  {
    StepIsSound(iface, s, step);
    if Overtakes(iface, s, step) {
      BrokenByStep(iface, s, step);
      DifferOutOfOrder(iface, Next(iface, s, step));
    } else {
      OrderKept(iface, s, EffectOf(iface, s, step));
    }
  }

  lemma BrokenByStep(iface: Interface, s: State, step: Step)
    requires Inv(iface, s) && InOrder(iface, s) && Enabled(iface, s, step) && Overtakes(iface, s, step)
    ensures Differ(Next(iface, s, step).upcallsDone, Next(iface, s, step).upcallsSent)
  {
    StepIsSound(iface, s, step);
    OrderBroken(iface, s, EffectOf(iface, s, step));
  }

  lemma {:induction false} BrokenForGood(iface: Interface, s: State, run: seq<Step>)
    requires Legal(iface, s, run)
    ensures Differ(s.upcallsDone, s.upcallsSent) ==>
      Differ(After(iface, s, run).upcallsDone, After(iface, s, run).upcallsSent)
    ensures Differ(s.callsDone, s.callsSent) ==>
      Differ(After(iface, s, run).callsDone, After(iface, s, run).callsSent)
    decreases |run|
  {
    if run != [] {
      var t := Next(iface, s, run[0]);
      LogsGrow(iface, s, EffectOf(iface, s, run[0]));
      if Differ(s.upcallsDone, s.upcallsSent) {
        DifferForGood(s.upcallsDone, s.upcallsSent, t.upcallsDone, t.upcallsSent);
      }
      if Differ(s.callsDone, s.callsSent) {
        DifferForGood(s.callsDone, s.callsSent, t.callsDone, t.callsSent);
      }
      BrokenForGood(iface, t, run[1..]);
    }
    hide Apply, Differ;
  }

  /** No step of the run overtakes a buffered upcall. */
  ghost predicate NeverOvertakes(iface: Interface, s: State, run: seq<Step>)
    requires Legal(iface, s, run)
    decreases |run|
  {
    run == [] || (!Overtakes(iface, s, run[0]) && NeverOvertakes(iface, Next(iface, s, run[0]), run[1..]))
  }

  lemma {:induction false} OrderFrom(iface: Interface, s: State, run: seq<Step>)
    requires Inv(iface, s) && InOrder(iface, s) && Legal(iface, s, run)
    ensures InOrder(iface, After(iface, s, run)) <==> NeverOvertakes(iface, s, run)
    decreases |run|
  {
    if run != [] {
      hide Inv, Overtakes, InOrder, Differ, Next;
      var t := Next(iface, s, run[0]);
      StepKeepsInv(iface, s, run[0]);
      OrderExactly(iface, s, run[0]);
      if Overtakes(iface, s, run[0]) {
        BrokenByStep(iface, s, run[0]);
        BrokenForGood(iface, t, run[1..]);
        DifferOutOfOrder(iface, After(iface, t, run[1..]));
      } else {
        OrderFrom(iface, t, run[1..]);
      }
    }
  }

  lemma DifferOutOfOrder(iface: Interface, s: State)
    requires Differ(s.upcallsDone, s.upcallsSent)
    ensures !InOrder(iface, s)
  {
    if InOrder(iface, s) {
      OrderlyDoNotDiffer(s.upcallsDone, s.client.buffer + Asyncs(iface, s.toClient), s.upcallsSent);
    }
  }

  /** After a whole run upcalls are in order if and only if no step of it overtook a buffered one: a broken order stays
      broken. */
  lemma OrderOverRuns(iface: Interface, run: seq<Step>)
    requires Legal(iface, INITIAL, run)
    ensures InOrder(iface, After(iface, INITIAL, run)) <==> NeverOvertakes(iface, INITIAL, run)
  {
    OrderFrom(iface, INITIAL, run);
  }

  lemma StepIsSound(iface: Interface, s: State, step: Step)
    requires Inv(iface, s) && Enabled(iface, s, step)
    ensures Sound(iface, s, EffectOf(iface, s, step))
  {
    if step == Receive(Client) {
      ClientReceivesSoundly(iface, s);
    } else if step == Receive(Server) {
      ServerReceivesSoundly(iface, s);
    } else {
      ActsSoundly(iface, s, step);
    }
  }

  /** The drain discipline: the client enters `waitLoop` only with an empty buffer, and does not use `wait_for`. */
  ghost predicate Drains(iface: Interface, s: State, run: seq<Step>)
    requires Legal(iface, s, run)
    decreases |run|
  {
    run == [] ||
    ((run[0] == StartLoop(Client) ==> s.client.buffer == [])
     && !(run[0].WaitFor? && run[0].side.Client?)
     && Drains(iface, Next(iface, s, run[0]), run[1..]))
  }

  /** A client that is reading on behalf of a loop has nothing buffered. */
  predicate Drained(s: State) {
    !s.client.mode.WaitingFor? && (s.client.mode.Looping? ==> s.client.buffer == [])
  }

  lemma DrainedEffect(iface: Interface, s: State, e: Effect)
    requires Drained(s) && Possible(s, e) && Sound(iface, s, e)
    requires e.ClientEnters? ==> e.mode.Looping? && s.client.buffer == []
    requires e.ClientSaves? ==> !s.client.mode.Looping?
    ensures Drained(Apply(iface, s, e))
    ensures e.ClientDispatches? ==> s.client.buffer == []
  {
  }

  lemma {:induction false} DrainedStep(iface: Interface, s: State, step: Step)
    requires Inv(iface, s) && Drained(s) && Enabled(iface, s, step)
    requires step == StartLoop(Client) ==> s.client.buffer == []
    requires !(step.WaitFor? && step.side.Client?)
    ensures Drained(Next(iface, s, step)) && !Overtakes(iface, s, step)
  {
    hide Inv, Sound;
    StepIsSound(iface, s, step);
    DrainedEffect(iface, s, EffectOf(iface, s, step));
    hide Apply;
  }

  lemma {:induction false} DrainingNeverOvertakes(iface: Interface, s: State, run: seq<Step>)
    requires Inv(iface, s) && Drained(s)
    requires Legal(iface, s, run) && Drains(iface, s, run)
    ensures NeverOvertakes(iface, s, run)
    decreases |run|
  {
    if run != [] {
      hide Inv, Next, Overtakes, Drained;
      StepKeepsInv(iface, s, run[0]);
      DrainedStep(iface, s, run[0]);
      DrainingNeverOvertakes(iface, Next(iface, s, run[0]), run[1..]);
    }
  }

  /** Under the discipline handlers start in the order the upcalls were sent, however many synchronous calls the
      handlers make in between. */
  lemma DispatchedInOrder(iface: Interface, run: seq<Step>)
    requires Legal(iface, INITIAL, run) && Drains(iface, INITIAL, run)
    ensures var s := After(iface, INITIAL, run);
            InOrder(iface, s) && s.upcallsDone <= s.upcallsSent
  {
    DrainingNeverOvertakes(iface, INITIAL, run);
    OrderOverRuns(iface, run);
    hide NeverOvertakes, Drains, Legal, After;
  }

  // ----- the same in the other direction -----

  /** Asynchronous calls have been dispatched by the server in the order the client sent them. */
  ghost predicate CallsInOrder(iface: Interface, s: State) {
    s.callsSent == s.callsDone + s.server.buffer + Asyncs(iface, s.toServer)
  }

  /** The step hands the server an asynchronous call although an older one is buffered. */
  predicate CallOvertakes(iface: Interface, s: State, step: Step)
    requires Enabled(iface, s, step)
  {
    match EffectOf(iface, s, step)
    case ServerDispatches => s.server.buffer != [] && KindOf(iface, s.toServer[0].tag).AsyncRequest?
    case ServerTakes(k) => k > 0
    case _ => false
  }

  lemma CallOrderKept(iface: Interface, s: State, e: Effect)
    requires CallsInOrder(iface, s) && Kinds(iface, s) && Possible(s, e) && Sound(iface, s, e)
    requires e.ServerDispatches? && KindOf(iface, s.toServer[0].tag).AsyncRequest? ==> s.server.buffer == []
    requires e.ServerTakes? ==> e.k == 0
    ensures CallsInOrder(iface, Apply(iface, s, e))
  {
    match e
    case SendVerify => AsyncsAppend(iface, s.toServer, Message(Verify, s.serial, 0));
    case SendCall(name, payload) => AsyncsAppend(iface, s.toServer, Message(Request(name), s.serial, payload));
    case SendSyncCall(name, payload) => AsyncsAppend(iface, s.toServer, Message(Request(name), s.serial, payload));
    case ServerSaves => CallOrderKeptByTaking(iface, s, e);
    case ServerDispatches => CallOrderKeptByTaking(iface, s, e);
    case ServerTakes(_) => CallOrderKeptByTaking(iface, s, e);
    case _ =>
  }

  lemma CallOrderKeptByTaking(iface: Interface, s: State, e: Effect)
    requires CallsInOrder(iface, s) && Possible(s, e) && Sound(iface, s, e)
    requires e.ServerSaves? || e.ServerDispatches? || e.ServerTakes?
    requires e.ServerDispatches? && KindOf(iface, s.toServer[0].tag).AsyncRequest? ==> s.server.buffer == []
    requires e.ServerTakes? ==> e.k == 0
    ensures CallsInOrder(iface, Apply(iface, s, e))
  {
    if !e.ServerTakes? && OfAsyncCall(iface, s.toServer[0]) {
      assert Asyncs(iface, s.toServer) == [s.toServer[0]] + Asyncs(iface, s.toServer[1..]);
    }
  }

  lemma CallOrderBroken(iface: Interface, s: State, e: Effect)
    requires CallsInOrder(iface, s) && Serials(s) && Possible(s, e) && Sound(iface, s, e)
    requires (e.ServerDispatches? && s.server.buffer != [] && KindOf(iface, s.toServer[0].tag).AsyncRequest?)
      || (e.ServerTakes? && e.k > 0)
    ensures Differ(Apply(iface, s, e).callsDone, Apply(iface, s, e).callsSent)
  {
    var t := Apply(iface, s, e);
    var n := |s.callsDone|;
    var at := if e.ServerTakes? then n + e.k else n + |s.server.buffer|;
    assert t.callsDone[n] == s.callsSent[at];
    assert s.callsSent[n].serial < s.callsSent[at].serial;
  }

  lemma CallOrderExactly(iface: Interface, s: State, step: Step)
    requires Inv(iface, s) && CallsInOrder(iface, s) && Enabled(iface, s, step)
    ensures CallsInOrder(iface, Next(iface, s, step)) <==> !CallOvertakes(iface, s, step)
  {
    StepIsSound(iface, s, step);
    if CallOvertakes(iface, s, step) {
      CallsBrokenByStep(iface, s, step);
      DifferCallsOutOfOrder(iface, Next(iface, s, step));
    } else {
      CallOrderKept(iface, s, EffectOf(iface, s, step));
    }
  }

  lemma CallsBrokenByStep(iface: Interface, s: State, step: Step)
    requires Inv(iface, s) && CallsInOrder(iface, s) && Enabled(iface, s, step) && CallOvertakes(iface, s, step)
    ensures Differ(Next(iface, s, step).callsDone, Next(iface, s, step).callsSent)
  {
    StepIsSound(iface, s, step);
    CallOrderBroken(iface, s, EffectOf(iface, s, step));
  }

  lemma DifferCallsOutOfOrder(iface: Interface, s: State)
    requires Differ(s.callsDone, s.callsSent)
    ensures !CallsInOrder(iface, s)
  {
    if CallsInOrder(iface, s) {
      OrderlyDoNotDiffer(s.callsDone, s.server.buffer + Asyncs(iface, s.toServer), s.callsSent);
    }
  }

  /** No step of the run overtakes a buffered call. */
  ghost predicate NeverOvertakesCalls(iface: Interface, s: State, run: seq<Step>)
    requires Legal(iface, s, run)
    decreases |run|
  {
    run == []
    || (!CallOvertakes(iface, s, run[0]) && NeverOvertakesCalls(iface, Next(iface, s, run[0]), run[1..]))
  }

  lemma {:induction false} CallOrderFrom(iface: Interface, s: State, run: seq<Step>)
    requires Inv(iface, s) && CallsInOrder(iface, s) && Legal(iface, s, run)
    ensures CallsInOrder(iface, After(iface, s, run)) <==> NeverOvertakesCalls(iface, s, run)
    decreases |run|
  {
    if run != [] {
      hide Inv, CallOvertakes, CallsInOrder, Differ, Next;
      var t := Next(iface, s, run[0]);
      StepKeepsInv(iface, s, run[0]);
      CallOrderExactly(iface, s, run[0]);
      if CallOvertakes(iface, s, run[0]) {
        CallsBrokenByStep(iface, s, run[0]);
        BrokenForGood(iface, t, run[1..]);
        DifferCallsOutOfOrder(iface, After(iface, t, run[1..]));
      } else {
        CallOrderFrom(iface, t, run[1..]);
      }
    }
  }

  lemma CallOrderOverRuns(iface: Interface, run: seq<Step>)
    requires Legal(iface, INITIAL, run)
    ensures CallsInOrder(iface, After(iface, INITIAL, run)) <==> NeverOvertakesCalls(iface, INITIAL, run)
  {
    CallOrderFrom(iface, INITIAL, run);
  }

  /** The discipline on the server's side. */
  ghost predicate ServerDrains(iface: Interface, s: State, run: seq<Step>)
    requires Legal(iface, s, run)
    decreases |run|
  {
    run == [] ||
    ((run[0] == StartLoop(Server) ==> s.server.buffer == [])
     && !(run[0].WaitFor? && run[0].side.Server?)
     && ServerDrains(iface, Next(iface, s, run[0]), run[1..]))
  }

  predicate ServerDrained(s: State) {
    !s.server.mode.WaitingFor? && (s.server.mode.Looping? ==> s.server.buffer == [])
  }

  lemma ServerDrainedEffect(iface: Interface, s: State, e: Effect)
    requires ServerDrained(s) && Possible(s, e) && Sound(iface, s, e)
    requires e.ServerEnters? ==> e.mode.Looping? && s.server.buffer == []
    ensures ServerDrained(Apply(iface, s, e))
    ensures e.ServerDispatches? ==> s.server.buffer == []
  {
  }

  lemma {:induction false} ServerDrainedStep(iface: Interface, s: State, step: Step)
    requires Inv(iface, s) && ServerDrained(s) && Enabled(iface, s, step)
    requires step == StartLoop(Server) ==> s.server.buffer == []
    requires !(step.WaitFor? && step.side.Server?)
    ensures ServerDrained(Next(iface, s, step)) && !CallOvertakes(iface, s, step)
  {
    hide Inv, Sound;
    StepIsSound(iface, s, step);
    ServerDrainedEffect(iface, s, EffectOf(iface, s, step));
    hide Apply;
  }

  lemma {:induction false} ServerDrainingNeverOvertakes(iface: Interface, s: State, run: seq<Step>)
    requires Inv(iface, s) && ServerDrained(s)
    requires Legal(iface, s, run) && ServerDrains(iface, s, run)
    ensures NeverOvertakesCalls(iface, s, run)
    decreases |run|
  {
    if run != [] {
      hide Inv, Next, CallOvertakes, ServerDrained;
      StepKeepsInv(iface, s, run[0]);
      ServerDrainedStep(iface, s, run[0]);
      ServerDrainingNeverOvertakes(iface, Next(iface, s, run[0]), run[1..]);
    }
  }

  /** Under the discipline the server starts handlers in the order in which the asynchronous calls arrive. */
  lemma CallsDispatchedInOrder(iface: Interface, run: seq<Step>)
    requires Legal(iface, INITIAL, run) && ServerDrains(iface, INITIAL, run)
    ensures var s := After(iface, INITIAL, run);
            CallsInOrder(iface, s) && s.callsDone <= s.callsSent
  {
    ServerDrainingNeverOvertakes(iface, INITIAL, run);
    CallOrderOverRuns(iface, run);
    hide NeverOvertakesCalls, ServerDrains, Legal, After;
  }

  // ----- runs in which it goes wrong -----

  /** One step more. */
  lemma {:induction false} OneMore(iface: Interface, s: State, run: seq<Step>, step: Step)
    requires Legal(iface, s, run) && Enabled(iface, After(iface, s, run), step)
    ensures Legal(iface, s, run + [step])
    ensures After(iface, s, run + [step]) == Next(iface, After(iface, s, run), step)
    decreases |run|
  {
    if run == [] {
      assert ([] + [step])[1..] == [];
    } else {
      assert (run + [step])[1..] == run[1..] + [step];
      OneMore(iface, Next(iface, s, run[0]), run[1..], step);
    }
  }

  const EXAMPLE: Interface := map["s" := SyncCall, "a" := AsyncCall, "b" := AsyncCall, "u" := AsyncUpcall]

  /** Client and server are connected. */
  const CONNECTED := [Connect, StartLoop(Server), Receive(Server), Receive(Client)]

  lemma {:induction false} ConnectedRun()
    ensures Legal(EXAMPLE, INITIAL, CONNECTED)
    ensures var s := After(EXAMPLE, INITIAL, CONNECTED);
      && s.client == Peer(Running, [], [], true) && s.server == Peer(Running, [], [], true)
      && s.toServer == [] && s.toClient == [] && s.serial == 1
  {
    VerifiedRun();
    OneMore(EXAMPLE, INITIAL, CONNECTED[..3], Receive(Client));
    assert CONNECTED[..3] + [Receive(Client)] == CONNECTED;
    hide Legal, After;
  }

  lemma {:induction false} VerifiedRun()
    ensures Legal(EXAMPLE, INITIAL, CONNECTED[..3])
    ensures var s := After(EXAMPLE, INITIAL, CONNECTED[..3]);
      && s.client == Peer(AwaitingVerify, [], [], false) && s.server == Peer(Running, [], [], true)
      && s.toServer == [] && s.toClient == [Message(Verify, 0, 0)] && s.serial == 1
  {
    ConnectingRun();
    OneMore(EXAMPLE, INITIAL, CONNECTED[..2], Receive(Server));
    assert CONNECTED[..2] + [Receive(Server)] == CONNECTED[..3];
    hide Legal, After;
  }

  lemma {:induction false} ConnectingRun()
    ensures Legal(EXAMPLE, INITIAL, CONNECTED[..2])
    ensures var s := After(EXAMPLE, INITIAL, CONNECTED[..2]);
      && s.client == Peer(AwaitingVerify, [], [], false) && s.server == Peer(Looping, [], [], false)
      && s.toServer == [Message(Verify, 0, 0)] && s.toClient == [] && s.serial == 1
  {
    OneMore(EXAMPLE, INITIAL, [], Connect);
    OneMore(EXAMPLE, INITIAL, [Connect], StartLoop(Server));
    assert [Connect] + [StartLoop(Server)] == CONNECTED[..2];
    hide Legal, After;
  }

  /** A server waits for an asynchronous call, and the client makes a synchronous one. */
  const WAITED := CONNECTED + [WaitFor(Server, Request("a"))] + [Call("s", 0)]

  lemma {:induction false} WaitedRun()
    ensures Legal(EXAMPLE, INITIAL, WAITED)
    ensures var s := After(EXAMPLE, INITIAL, WAITED);
      && s.client == Peer(AwaitingReply(Message(Request("s"), 1, 0)), [], [], true)
      && s.server == Peer(WaitingFor(Request("a")), [], [], true)
      && s.toServer == [Message(Request("s"), 1, 0)] && s.toClient == []
  {
    hide Legal, After;
    ConnectedRun();
    OneMore(EXAMPLE, INITIAL, CONNECTED, WaitFor(Server, Request("a")));
    OneMore(EXAMPLE, INITIAL, CONNECTED + [WaitFor(Server, Request("a"))], Call("s", 0));
  }

  lemma {:induction false} ServerStopsRun()
    ensures var run := WAITED + [Receive(Server)];
      && Legal(EXAMPLE, INITIAL, run) && After(EXAMPLE, INITIAL, run).server.mode.Stopped?
  {
    WaitedRun();
    OneMore(EXAMPLE, INITIAL, WAITED, Receive(Server));
    hide Legal, After;
  }

  const CALLED := CONNECTED + [Call("a", 0)] + [Call("b", 0)]

  lemma {:induction false} CalledRun()
    ensures Legal(EXAMPLE, INITIAL, CALLED)
    ensures var s := After(EXAMPLE, INITIAL, CALLED);
      && s.server == Peer(Running, [], [], true)
      && s.toServer == [Message(Request("a"), 1, 0), Message(Request("b"), 2, 0)]
  {
    ConnectedRun();
    OneMore(EXAMPLE, INITIAL, CONNECTED, Call("a", 0));
    OneMore(EXAMPLE, INITIAL, CONNECTED + [Call("a", 0)], Call("b", 0));
  }

  /** A server waits for the second of two asynchronous calls: the first is buffered and then overtaken. */
  lemma {:induction false} CallOvertakenRun()
    ensures var run := CALLED + [WaitFor(Server, Request("b"))] + [Receive(Server)];
      && Legal(EXAMPLE, INITIAL, run) && Enabled(EXAMPLE, After(EXAMPLE, INITIAL, run), Receive(Server))
      && CallOvertakes(EXAMPLE, After(EXAMPLE, INITIAL, run), Receive(Server))
  {
    CalledRun();
    OneMore(EXAMPLE, INITIAL, CALLED, WaitFor(Server, Request("b")));
    OneMore(EXAMPLE, INITIAL, CALLED + [WaitFor(Server, Request("b"))], Receive(Server));
  }

  /** An upcall is buffered during a synchronous call. */
  const BUFFERED := CONNECTED + [Upcall("u", 0)] + [Call("s", 0)] + [Receive(Client)]

  lemma {:induction false} CrossedRun()
    ensures var run := CONNECTED + [Upcall("u", 0)] + [Call("s", 0)];
      && Legal(EXAMPLE, INITIAL, run)
      && var s := After(EXAMPLE, INITIAL, run);
      && s.client == Peer(AwaitingReply(Message(Request("s"), 2, 0)), [], [], true)
      && s.server == Peer(Running, [], [], true)
      && s.toServer == [Message(Request("s"), 2, 0)] && s.toClient == [Message(Request("u"), 1, 0)]
  {
    SentRun();
    OneMore(EXAMPLE, INITIAL, CONNECTED + [Upcall("u", 0)], Call("s", 0));
    hide Legal, After;
  }

  lemma {:induction false} SentRun()
    ensures var run := CONNECTED + [Upcall("u", 0)];
      && Legal(EXAMPLE, INITIAL, run)
      && var s := After(EXAMPLE, INITIAL, run);
      && s.client == Peer(Running, [], [], true) && s.server == Peer(Running, [], [], true)
      && s.toServer == [] && s.toClient == [Message(Request("u"), 1, 0)] && s.serial == 2
  {
    ConnectedRun();
    OneMore(EXAMPLE, INITIAL, CONNECTED, Upcall("u", 0));
    hide Legal, After;
  }

  lemma {:induction false} BufferedRun()
    ensures Legal(EXAMPLE, INITIAL, BUFFERED)
    ensures var s := After(EXAMPLE, INITIAL, BUFFERED);
      && s.client == Peer(AwaitingReply(Message(Request("s"), 2, 0)), [], [Message(Request("u"), 1, 0)], true)
      && s.server == Peer(Running, [], [], true)
      && s.toServer == [Message(Request("s"), 2, 0)] && s.toClient == []
  {
    CrossedRun();
    OneMore(EXAMPLE, INITIAL, CONNECTED + [Upcall("u", 0)] + [Call("s", 0)], Receive(Client));
    hide Legal, After;
  }

  /** The server has served the call. */
  const SERVED := BUFFERED + [StartLoop(Server)] + [Receive(Server)] + [Return(Server, 0)]

  lemma {:induction false} ServingRun()
    ensures var run := BUFFERED + [StartLoop(Server)] + [Receive(Server)];
      && Legal(EXAMPLE, INITIAL, run)
      && var s := After(EXAMPLE, INITIAL, run);
      && s.client == Peer(AwaitingReply(Message(Request("s"), 2, 0)), [], [Message(Request("u"), 1, 0)], true)
      && s.server == Peer(Running, [Message(Request("s"), 2, 0)], [], true) && s.toServer == [] && s.toClient == []
  {
    BufferedRun();
    OneMore(EXAMPLE, INITIAL, BUFFERED, StartLoop(Server));
    OneMore(EXAMPLE, INITIAL, BUFFERED + [StartLoop(Server)], Receive(Server));
    hide Legal, After;
  }

  const ANSWERED := SERVED + [Receive(Client)]

  lemma {:induction false} AnsweredRun()
    ensures Legal(EXAMPLE, INITIAL, ANSWERED)
    ensures var s := After(EXAMPLE, INITIAL, ANSWERED);
      && s.client == Peer(Running, [], [Message(Request("u"), 1, 0)], true)
      && s.server == Peer(Running, [], [], true) && s.toClient == []
  {
    ServingRun();
    OneMore(EXAMPLE, INITIAL, BUFFERED + [StartLoop(Server)] + [Receive(Server)], Return(Server, 0));
    OneMore(EXAMPLE, INITIAL, SERVED, Receive(Client));
    hide Legal, After;
  }

  /** The client then waits in its loop without draining: the next upcall overtakes the buffered one. */
  lemma {:induction false} UpcallOvertakenRun()
    ensures var run := ANSWERED + [Upcall("u", 1)] + [StartLoop(Client)];
      && Legal(EXAMPLE, INITIAL, run) && Enabled(EXAMPLE, After(EXAMPLE, INITIAL, run), Receive(Client))
      && Overtakes(EXAMPLE, After(EXAMPLE, INITIAL, run), Receive(Client))
  {
    AnsweredRun();
    OneMore(EXAMPLE, INITIAL, ANSWERED, Upcall("u", 1));
    OneMore(EXAMPLE, INITIAL, ANSWERED + [Upcall("u", 1)], StartLoop(Client));
  }
}
