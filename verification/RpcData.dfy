/** Which data the protocol delivers, stated on the steps of a run: what each handler is started with, and what each
    synchronous call returns. */
module RpcData {
  import opened RpcTypes
  import opened RpcEndpoint
  import opened RpcProtocol
  import opened RpcSafety
  import opened RpcRuns

  // ----- what a run asks for and what it shows -----

  /** How many messages the steps of a run have numbered. */
  function SerialOf(run: seq<Step>): nat {
    if run == [] then 0 else
    var last := run[|run| - 1];
    SerialOf(run[..|run| - 1]) + (if last.Connect? || last.Call? || last.Upcall? then 1 else 0)
  }

  /** The message that a step asks for: a call or an upcall with the step's own argument. */
  function Asked(run: seq<Step>, c: nat): (m: Message)
    requires c < |run| && (run[c].Call? || run[c].Upcall?)
  {
    Message(Request(run[c].name), SerialOf(run[..c]), run[c].payload)
  }

  predicate Asks(run: seq<Step>, c: nat, m: Message) {
    c < |run| && (run[c].Call? || run[c].Upcall?) && m == Asked(run, c)
  }

  /** What can be seen of a step: a handler starts on a message, or the stub of a synchronous call returns a value. */
  datatype Observation = Quiet | Started(side: Side, m: Message) | Resumed(value: int)

  function Observe(iface: Interface, s: State, step: Step): Observation
    requires Enabled(iface, s, step)
  {
    match EffectOf(iface, s, step)
    case ClientResumes => Resumed(s.toClient[0].payload)
    case ClientDispatches => Started(Client, s.toClient[0])
    case ServerDispatches => Started(Server, s.toServer[0])
    case ClientTakes(k) => Started(Client, s.client.buffer[k])
    case ServerTakes(k) => Started(Server, s.server.buffer[k])
    case _ => Quiet
  }

  lemma {:induction false} LegalTo(iface: Interface, s: State, run: seq<Step>, n: nat)
    requires Legal(iface, s, run) && n <= |run|
    ensures Legal(iface, s, run[..n])
    ensures n < |run| ==> Enabled(iface, After(iface, s, run[..n]), run[n])
    decreases n
  {
    if n > 0 {
      assert run[..n][1..] == run[1..][..n - 1];
      LegalTo(iface, Next(iface, s, run[0]), run[1..], n - 1);
    }
  }

  /** The last step of a run is taken in the state that the others lead to. */
  lemma LastOf(iface: Interface, run: seq<Step>)
    requires run != [] && Legal(iface, INITIAL, run)
    ensures var last := |run| - 1;
      && Legal(iface, INITIAL, run[..last]) && Enabled(iface, After(iface, INITIAL, run[..last]), run[last])
      && After(iface, INITIAL, run) == Next(iface, After(iface, INITIAL, run[..last]), run[last])
  {
    hide Legal, After, Next, Enabled;
    var last := |run| - 1;
    LegalTo(iface, INITIAL, run, last);
    OneMore(iface, INITIAL, run[..last], run[last]);
    assert run[..last] + [run[last]] == run;
  }

  /** What is seen at a position of a run. */
  ghost function Seen(iface: Interface, run: seq<Step>, i: nat): Observation
    requires Legal(iface, INITIAL, run) && i < |run|
  {
    LegalTo(iface, INITIAL, run, i);
    Observe(iface, After(iface, INITIAL, run[..i]), run[i])
  }

  /** The positions at which the server's handlers were started that have not returned, the innermost last. */
  ghost function Open(iface: Interface, run: seq<Step>): seq<nat>
    requires Legal(iface, INITIAL, run)
    decreases |run|
  {
    if run == [] then [] else
    LastOf(iface, run);
    var last := |run| - 1;
    var before := Open(iface, run[..last]);
    var seen := Seen(iface, run, last);
    if seen.Started? && seen.side.Server? then before + [last]
    else if run[last].Return? && run[last].side.Server? && before != [] then before[..|before| - 1]
    else before
  }

  /** Step j of the run returns r from the server's handler that was started at h. */
  ghost predicate ReturnsFrom(iface: Interface, run: seq<Step>, j: nat, h: nat, r: int)
    requires Legal(iface, INITIAL, run)
  {
    && j < |run| && run[j] == Return(Server, r)
    && (LegalTo(iface, INITIAL, run, j);
        var open := Open(iface, run[..j]);
        open != [] && open[|open| - 1] == h)
  }

  lemma SeenIs(iface: Interface, run: seq<Step>, i: nat)
    requires Legal(iface, INITIAL, run) && i < |run|
    ensures Legal(iface, INITIAL, run[..i]) && Enabled(iface, After(iface, INITIAL, run[..i]), run[i])
    ensures Seen(iface, run, i) == Observe(iface, After(iface, INITIAL, run[..i]), run[i])
  {
    LegalTo(iface, INITIAL, run, i);
  }

  lemma SeenBefore(iface: Interface, run: seq<Step>, n: nat, i: nat)
    requires Legal(iface, INITIAL, run) && i < n <= |run|
    ensures Legal(iface, INITIAL, run[..n]) && Seen(iface, run[..n], i) == Seen(iface, run, i)
  {
    LegalTo(iface, INITIAL, run, n);
    assert run[..n][..i] == run[..i];
  }

  lemma ReturnsBefore(iface: Interface, run: seq<Step>, n: nat, j: nat, h: nat, r: int)
    requires Legal(iface, INITIAL, run) && n <= |run| && Legal(iface, INITIAL, run[..n])
    requires ReturnsFrom(iface, run[..n], j, h, r)
    ensures ReturnsFrom(iface, run, j, h, r)
  {
    assert run[..n][..j] == run[..j];
  }

  lemma AskedBefore(run: seq<Step>, n: nat, c: nat)
    requires c < n <= |run| && (run[c].Call? || run[c].Upcall?)
    ensures Asked(run[..n], c) == Asked(run, c)
  {
    assert run[..n][..c] == run[..c];
  }

  // ----- asynchronous messages -----

  /** The messages that a run's asynchronous calls ask for, in order. */
  function CallsOf(iface: Interface, run: seq<Step>): seq<Message> {
    if run == [] then [] else
    var last := |run| - 1;
    CallsOf(iface, run[..last])
      + (if run[last].Call? && KindOf(iface, Request(run[last].name)).AsyncRequest? then [Asked(run, last)] else [])
  }

  function UpcallsOf(iface: Interface, run: seq<Step>): seq<Message> {
    if run == [] then [] else
    var last := |run| - 1;
    UpcallsOf(iface, run[..last]) + (if run[last].Upcall? then [Asked(run, last)] else [])
  }

  /** An upcall whose stub still waits for the verification. */
  function Held(s: State): seq<Message> {
    if s.server.mode.VerifyingFirst? then [s.server.mode.upcall] else []
  }

  /** What was sent is what the run's own steps asked for, in order. */
  lemma {:induction false} SentAsAsked(iface: Interface, run: seq<Step>)
    requires Legal(iface, INITIAL, run)
    ensures var s := After(iface, INITIAL, run);
      && s.serial == SerialOf(run)
      && s.callsSent == CallsOf(iface, run) && s.upcallsSent + Held(s) == UpcallsOf(iface, run)
    decreases |run|
  {
    if run != [] {
      var last := |run| - 1;
      LastOf(iface, run);
      SentAsAsked(iface, run[..last]);
      ReachableInv(iface, run[..last]);
      var s := After(iface, INITIAL, run[..last]);
      StepIsSound(iface, s, run[last]);
      hide Inv, Legal, After, Sound;
      SentByStep(iface, s, run[last]);
    }
  }

  /** Which message an effect sends or holds back, numbered now. */
  function SentBy(s: State, e: Effect): seq<Message> {
    match e
    case SendCall(name, payload) => [Message(Request(name), s.serial, payload)]
    case SendUpcall(name, payload) => [Message(Request(name), s.serial, payload)]
    case HoldUpcall(name, payload) => [Message(Request(name), s.serial, payload)]
    case _ => []
  }

  predicate Numbers(e: Effect) {
    e.SendVerify? || e.SendCall? || e.SendSyncCall? || e.SendUpcall? || e.HoldUpcall?
  }

  lemma {:induction false} CallsByEffect(iface: Interface, s: State, e: Effect)
    requires Possible(s, e)
    ensures Apply(iface, s, e).serial == s.serial + (if Numbers(e) then 1 else 0)
    ensures Apply(iface, s, e).callsSent == s.callsSent + (if e.SendCall? then SentBy(s, e) else [])
  {
    hide Extract, Recorded;
  }

  lemma {:induction false} UpcallsByEffect(iface: Interface, s: State, e: Effect)
    requires Possible(s, e) && Sound(iface, s, e) && Modes(iface, s)
    ensures var t := Apply(iface, s, e);
      t.upcallsSent + Held(t)
        == s.upcallsSent + Held(s) + (if e.SendUpcall? || e.HoldUpcall? then SentBy(s, e) else [])
  {
    hide Extract, Recorded, KindOf, Modes;
  }

  lemma {:induction false} EffectSends(iface: Interface, s: State, step: Step)
    requires Enabled(iface, s, step)
    ensures var e := EffectOf(iface, s, step);
      && (Numbers(e) <==> step.Connect? || step.Call? || step.Upcall?)
      && (e.SendCall? <==> step.Call? && KindOf(iface, Request(step.name)).AsyncRequest?)
      && (e.SendUpcall? || e.HoldUpcall? <==> step.Upcall?)
      && (e.SendCall? || e.SendUpcall? || e.HoldUpcall? ==>
            SentBy(s, e) == [Message(Request(step.name), s.serial, step.payload)])
  {
  }

  /** What one step sends. */
  lemma {:induction false} SentByStep(iface: Interface, s: State, step: Step)
    requires Inv(iface, s) && Enabled(iface, s, step) && Sound(iface, s, EffectOf(iface, s, step))
    ensures var t := Next(iface, s, step);
      && t.serial == s.serial + (if step.Connect? || step.Call? || step.Upcall? then 1 else 0)
      && t.callsSent == s.callsSent
         + (if step.Call? && KindOf(iface, Request(step.name)).AsyncRequest?
            then [Message(Request(step.name), s.serial, step.payload)] else [])
      && t.upcallsSent + Held(t) == s.upcallsSent + Held(s)
         + (if step.Upcall? then [Message(Request(step.name), s.serial, step.payload)] else [])
  {
    hide Apply, Sound, Held, EffectOf, SentBy, Numbers, KindOf;
    var e := EffectOf(iface, s, step);
    EffectSends(iface, s, step);
    CallsByEffect(iface, s, e);
    UpcallsByEffect(iface, s, e);
  }

  // ----- the server's handlers -----

  lemma {:induction false} HandlersByEffect(iface: Interface, s: State, e: Effect)
    requires Possible(s, e)
    ensures Apply(iface, s, e).server.handlers
      == match e
         case ServerDispatches => s.server.handlers + [s.toServer[0]]
         case ServerTakes(k) => s.server.handlers + [s.server.buffer[k]]
         case ServerReturns => s.server.handlers[..|s.server.handlers| - 1]
         case ServerReplies(_) => s.server.handlers[..|s.server.handlers| - 1]
         case _ => s.server.handlers
  {
    hide Extract, Recorded;
  }

  lemma {:induction false} HandlersByStep(iface: Interface, s: State, step: Step)
    requires Enabled(iface, s, step)
    ensures var seen := Observe(iface, s, step);
      Next(iface, s, step).server.handlers
        == if seen.Started? && seen.side.Server? then s.server.handlers + [seen.m]
           else if step.Return? && step.side.Server? then s.server.handlers[..|s.server.handlers| - 1]
           else s.server.handlers
    ensures step.Return? && step.side.Server? ==> s.server.handlers != [] && Observe(iface, s, step).Quiet?
  {
    hide Apply, KindOf;
    HandlersByEffect(iface, s, EffectOf(iface, s, step));
  }

  /** The handlers at these positions are the ones of the stack. */
  ghost predicate Matches(iface: Interface, run: seq<Step>, open: seq<nat>, handlers: seq<Message>)
    requires Legal(iface, INITIAL, run)
  {
    && |open| == |handlers|
    && forall k | 0 <= k < |open| :: open[k] < |run| && Seen(iface, run, open[k]) == Started(Server, handlers[k])
  }

  lemma MatchesLonger(iface: Interface, run: seq<Step>, n: nat, open: seq<nat>, handlers: seq<Message>)
    requires Legal(iface, INITIAL, run) && n <= |run| && Legal(iface, INITIAL, run[..n])
    requires Matches(iface, run[..n], open, handlers)
    ensures Matches(iface, run, open, handlers)
  {
    forall k | 0 <= k < |open|
      ensures open[k] < |run| && Seen(iface, run, open[k]) == Started(Server, handlers[k])
    {
      SeenBefore(iface, run, n, open[k]);
    }
  }

  lemma MatchesPushed(
    iface: Interface, run: seq<Step>, open: seq<nat>, handlers: seq<Message>, h: nat, m: Message)
    requires Legal(iface, INITIAL, run) && Matches(iface, run, open, handlers)
    requires h < |run| && Seen(iface, run, h) == Started(Server, m)
    ensures Matches(iface, run, open + [h], handlers + [m])
  {
  }

  lemma MatchesPopped(iface: Interface, run: seq<Step>, open: seq<nat>, handlers: seq<Message>)
    requires Legal(iface, INITIAL, run) && Matches(iface, run, open, handlers) && handlers != []
    ensures open != [] && Matches(iface, run, open[..|open| - 1], handlers[..|handlers| - 1])
  {
  }

  /** How the last step changes the positions that are open. */
  lemma OpenStep(iface: Interface, run: seq<Step>)
    requires run != [] && Legal(iface, INITIAL, run)
    ensures var last := |run| - 1;
      && Legal(iface, INITIAL, run[..last])
      && var before, seen := Open(iface, run[..last]), Seen(iface, run, last);
         Open(iface, run) == if seen.Started? && seen.side.Server? then before + [last]
           else if run[last].Return? && run[last].side.Server? && before != [] then before[..|before| - 1]
           else before
  {
    LastOf(iface, run);
  }

  /** The handlers that are open are the server's handlers, each on the message it was started with. */
  lemma {:induction false} OpenHandlers(iface: Interface, run: seq<Step>)
    requires Legal(iface, INITIAL, run)
    ensures Matches(iface, run, Open(iface, run), After(iface, INITIAL, run).server.handlers)
    decreases |run|
  {
    if run == [] {
      assert Open(iface, run) == [] && After(iface, INITIAL, run).server.handlers == [];
    } else {
      var last := |run| - 1;
      LastOf(iface, run);
      var s := After(iface, INITIAL, run[..last]);
      OpenHandlers(iface, run[..last]);
      OpenStep(iface, run);
      HandlersByStep(iface, s, run[last]);
      var open, seen := Open(iface, run[..last]), Seen(iface, run, last);
      assert seen == Observe(iface, s, run[last]);
      hide Next, Observe, Legal, After, Enabled, Open, Seen, Matches;
      MatchesLonger(iface, run, last, open, s.server.handlers);
      if seen.Started? && seen.side.Server? {
        MatchesPushed(iface, run, open, s.server.handlers, last, seen.m);
      } else if run[last].Return? && run[last].side.Server? {
        MatchesPopped(iface, run, open, s.server.handlers);
      }
    }
  }

  // ----- what handlers are started with -----

  lemma {:induction false} InAsyncs(iface: Interface, ms: seq<Message>, m: Message)
    requires m in ms && OfAsyncCall(iface, m)
    ensures Occurs(Asyncs(iface, ms), m) > 0
  {
    if ms[0] != m {
      InAsyncs(iface, ms[1..], m);
      if OfAsyncCall(iface, ms[0]) {
        assert ([ms[0]] + Asyncs(iface, ms[1..]))[1..] == Asyncs(iface, ms[1..]);
      }
    }
  }

  lemma OccursIn(ms: seq<Message>, m: Message)
    ensures Occurs(ms, m) > 0 <==> m in ms
  {
    OccursIsMultiplicity(ms, m);
    assert m in multiset(ms) <==> m in ms;
  }

  /** Asynchronous messages that wait or are done were sent. */
  lemma CallWasSent(iface: Interface, s: State, m: Message)
    requires Inv(iface, s) && (m in s.toServer ==> OfAsyncCall(iface, m))
    requires m in s.toServer || m in s.server.buffer || m in s.callsDone
    ensures m in s.callsSent
  {
    assert CallsAccounted(iface, s, m);
    OccursIn(s.callsSent, m);
    OccursIn(s.callsDone, m);
    OccursIn(s.server.buffer, m);
    if m in s.toServer {
      InAsyncs(iface, s.toServer, m);
    }
  }

  lemma UpcallWasSent(iface: Interface, s: State, m: Message)
    requires Inv(iface, s) && (m in s.toClient ==> OfAsyncCall(iface, m))
    requires m in s.toClient || m in s.client.buffer || m in s.upcallsDone
    ensures m in s.upcallsSent
  {
    assert UpcallsAccounted(iface, s, m);
    OccursIn(s.upcallsSent, m);
    OccursIn(s.upcallsDone, m);
    OccursIn(s.client.buffer, m);
    if m in s.toClient {
      InAsyncs(iface, s.toClient, m);
    }
  }

  lemma {:induction false} CallOfRun(iface: Interface, run: seq<Step>, m: Message)
    requires m in CallsOf(iface, run)
    ensures exists c: nat :: Asks(run, c, m) && run[c].Call?
  {
    var last := |run| - 1;
    if m in CallsOf(iface, run[..last]) {
      CallOfRun(iface, run[..last], m);
      var c: nat :| Asks(run[..last], c, m) && run[..last][c].Call?;
      AskedBefore(run, last, c);
      assert Asks(run, c, m) && run[c].Call?;
    } else {
      assert Asks(run, last, m) && run[last].Call?;
    }
  }

  lemma {:induction false} UpcallOfRun(iface: Interface, run: seq<Step>, m: Message)
    requires m in UpcallsOf(iface, run)
    ensures exists c: nat :: Asks(run, c, m) && run[c].Upcall?
  {
    var last := |run| - 1;
    if m in UpcallsOf(iface, run[..last]) {
      UpcallOfRun(iface, run[..last], m);
      var c: nat :| Asks(run[..last], c, m) && run[..last][c].Upcall?;
      AskedBefore(run, last, c);
      assert Asks(run, c, m) && run[c].Upcall?;
    } else {
      assert Asks(run, last, m) && run[last].Upcall?;
    }
  }

  /** Every asynchronous message that was dispatched is one that a call or an upcall of the run asked for, with that
      step's argument. */
  lemma {:induction false} DoneAsAsked(iface: Interface, run: seq<Step>, m: Message)
    requires Legal(iface, INITIAL, run)
    ensures var s := After(iface, INITIAL, run);
      && (m in s.callsDone ==> exists c: nat :: Asks(run, c, m) && run[c].Call?)
      && (m in s.upcallsDone ==> exists c: nat :: Asks(run, c, m) && run[c].Upcall?)
  {
    var s := After(iface, INITIAL, run);
    ReachableInv(iface, run);
    SentAsAsked(iface, run);
    if m in s.callsDone {
      DoneWasSent(iface, s, m);
      CallOfRun(iface, run, m);
    }
    if m in s.upcallsDone {
      DoneWasSent(iface, s, m);
      assert m in s.upcallsSent + Held(s);
      UpcallOfRun(iface, run, m);
    }
    hide Inv, Legal, After;
  }

  lemma DoneWasSent(iface: Interface, s: State, m: Message)
    requires Inv(iface, s)
    ensures m in s.callsDone ==> m in s.callsSent
    ensures m in s.upcallsDone ==> m in s.upcallsSent
  {
    assert CallsAccounted(iface, s, m) && UpcallsAccounted(iface, s, m);
    OccursIn(s.callsSent, m);
    OccursIn(s.callsDone, m);
    OccursIn(s.upcallsSent, m);
    OccursIn(s.upcallsDone, m);
  }

  // ----- synchronous calls -----

  predicate IsSync(iface: Interface, m: Message) {
    KindOf(iface, m.tag).SyncRequest?
  }

  /** A step during which the client stays in its call: no request joins those on the way, what the server starts comes
      from there, and a reply joins only when the handler of a synchronous call returns, with that step's result. */
  lemma {:induction false} ByStepWhileBlocked(iface: Interface, s: State, step: Step)
    requires Inv(iface, s) && Enabled(iface, s, step)
    requires s.client.mode.AwaitingReply? && Next(iface, s, step).client.mode.AwaitingReply?
    ensures var t, seen := Next(iface, s, step), Observe(iface, s, step);
      && t.client.mode == s.client.mode && !seen.Resumed?
      && (forall m <- t.toServer :: m in s.toServer)
      && (seen.Started? && seen.side.Server? && IsSync(iface, seen.m) ==> seen.m in s.toServer)
      && forall m <- t.toClient | KindOf(iface, m.tag).Reply? ::
           m in s.toClient
           || (step.Return? && step.side.Server? && s.server.handlers != []
               && IsSync(iface, s.server.handlers[|s.server.handlers| - 1]) && m.payload == step.payload)
  {
    StepIsSound(iface, s, step);
    hide Inv;
    BlockedEffect(iface, s, EffectOf(iface, s, step));
    hide Apply, Sound;
  }

  lemma {:induction false} BlockedEffect(iface: Interface, s: State, e: Effect)
    requires Possible(s, e) && Sound(iface, s, e) && s.client.mode.AwaitingReply?
    requires Apply(iface, s, e).client.mode.AwaitingReply?
    ensures var t := Apply(iface, s, e);
      && t.client.mode == s.client.mode && !e.ClientResumes?
      && (forall m <- t.toServer :: m in s.toServer)
      && forall m <- t.toClient | KindOf(iface, m.tag).Reply? ::
           m in s.toClient || (e.ServerReplies? && m.payload == e.result)
  {
    hide Extract, Recorded;
  }

  /** A value v is the result of the call asked for at c: a handler was started on the call after c, and a later step
      returned v from it. */
  ghost predicate Served(iface: Interface, run: seq<Step>, c: nat, call: Message, v: int)
    requires Legal(iface, INITIAL, run)
  {
    exists h: nat, j: nat ::
      && c < h < j < |run| && Seen(iface, run, h) == Started(Server, call) && ReturnsFrom(iface, run, j, h, v)
  }

  /** Every request being served is the call, and was started after c. */
  ghost predicate ServedLater(iface: Interface, open: seq<nat>, handlers: seq<Message>, c: nat, call: Message) {
    forall k | 0 <= k < |open| && k < |handlers| && IsSync(iface, handlers[k]) :: handlers[k] == call && c < open[k]
  }

  ghost predicate NoReturn(iface: Interface, run: seq<Step>, c: nat)
    requires Legal(iface, INITIAL, run)
  {
    forall i | c < i < |run| :: !Seen(iface, run, i).Resumed?
  }

  ghost predicate RepliesServed(iface: Interface, run: seq<Step>, c: nat, call: Message, ms: seq<Message>)
    requires Legal(iface, INITIAL, run)
  {
    forall m <- ms | KindOf(iface, m.tag).Reply? :: Served(iface, run, c, call, m.payload)
  }

  /** The client is in the call that step c of the run made: every request on the way or being served is that call, and
      every reply on the way is its result. */
  ghost predicate InCall(iface: Interface, run: seq<Step>, c: nat)
    requires Legal(iface, INITIAL, run)
  {
    var s := After(iface, INITIAL, run);
    && s.client.mode.AwaitingReply? && Asks(run, c, s.client.mode.call) && run[c].Call?
    && IsSync(iface, s.client.mode.call) && NoReturn(iface, run, c)
    && (forall m <- s.toServer | IsSync(iface, m) :: m == s.client.mode.call)
    && ServedLater(iface, Open(iface, run), s.server.handlers, c, s.client.mode.call)
    && RepliesServed(iface, run, c, s.client.mode.call, s.toClient)
  }

  lemma ServedStays(iface: Interface, run: seq<Step>, n: nat, c: nat, call: Message, v: int)
    requires Legal(iface, INITIAL, run) && n <= |run| && Legal(iface, INITIAL, run[..n])
    requires Served(iface, run[..n], c, call, v)
    ensures Served(iface, run, c, call, v)
  {
    var h: nat, j: nat :|
      && c < h < j < |run[..n]| && Seen(iface, run[..n], h) == Started(Server, call)
      && ReturnsFrom(iface, run[..n], j, h, v);
    SeenBefore(iface, run, n, h);
    ReturnsBefore(iface, run, n, j, h, v);
    assert c < h < j < |run| && Seen(iface, run, h) == Started(Server, call) && ReturnsFrom(iface, run, j, h, v);
  }

  lemma NoReturnStays(iface: Interface, run: seq<Step>, c: nat)
    requires run != [] && Legal(iface, INITIAL, run) && Legal(iface, INITIAL, run[..|run| - 1])
    requires NoReturn(iface, run[..|run| - 1], c) && !Seen(iface, run, |run| - 1).Resumed?
    ensures NoReturn(iface, run, c)
  {
    hide Legal, After, Seen, Observe;
    forall i | c < i < |run|
      ensures !Seen(iface, run, i).Resumed?
    {
      if i < |run| - 1 {
        SeenBefore(iface, run, |run| - 1, i);
      }
    }
  }

  lemma PushedLater(
    iface: Interface, open: seq<nat>, handlers: seq<Message>, c: nat, call: Message, h: nat, m: Message)
    requires ServedLater(iface, open, handlers, c, call) && |open| == |handlers| && c < h
    requires IsSync(iface, m) ==> m == call
    ensures ServedLater(iface, open + [h], handlers + [m], c, call)
  {
  }

  lemma PoppedLater(iface: Interface, open: seq<nat>, handlers: seq<Message>, c: nat, call: Message)
    requires ServedLater(iface, open, handlers, c, call) && |open| == |handlers| > 0
    ensures ServedLater(iface, open[..|open| - 1], handlers[..|handlers| - 1], c, call)
  {
  }

  /** The stack of the server goes on serving nothing but the call. */
  lemma {:induction false} ServedLaterStays(iface: Interface, run: seq<Step>, c: nat, call: Message)
    requires run != [] && Legal(iface, INITIAL, run) && Legal(iface, INITIAL, run[..|run| - 1]) && c < |run| - 1
    requires Enabled(iface, After(iface, INITIAL, run[..|run| - 1]), run[|run| - 1])
    requires var s := After(iface, INITIAL, run[..|run| - 1]);
      ServedLater(iface, Open(iface, run[..|run| - 1]), s.server.handlers, c, call)
    requires var seen := Seen(iface, run, |run| - 1);
      seen.Started? && seen.side.Server? && IsSync(iface, seen.m) ==> seen.m == call
    ensures ServedLater(iface, Open(iface, run), After(iface, INITIAL, run).server.handlers, c, call)
  {
    hide Legal, After, Next, Observe, Enabled, Open, Seen, ServedLater;
    var last := |run| - 1;
    var s := After(iface, INITIAL, run[..last]);
    var open, seen := Open(iface, run[..last]), Seen(iface, run, last);
    LastOf(iface, run);
    OpenStep(iface, run);
    OpenHandlers(iface, run[..last]);
    HandlersByStep(iface, s, run[last]);
    SeenIs(iface, run, last);
    if seen.Started? && seen.side.Server? {
      PushedLater(iface, open, s.server.handlers, c, call, last, seen.m);
    } else if run[last].Return? && run[last].side.Server? {
      PoppedLater(iface, open, s.server.handlers, c, call);
    }
  }

  /** A reply that joins is the result of the step that returned it. */
  lemma {:induction false} ReplyServed(iface: Interface, run: seq<Step>, c: nat, call: Message)
    requires run != [] && Legal(iface, INITIAL, run) && Legal(iface, INITIAL, run[..|run| - 1])
    requires run[|run| - 1].Return? && run[|run| - 1].side.Server?
    requires var handlers := After(iface, INITIAL, run[..|run| - 1]).server.handlers;
      && handlers != [] && IsSync(iface, handlers[|handlers| - 1])
      && ServedLater(iface, Open(iface, run[..|run| - 1]), handlers, c, call)
    ensures Served(iface, run, c, call, run[|run| - 1].payload)
  {
    hide Legal, After, Open, Seen, Matches;
    var last := |run| - 1;
    var open, handlers := Open(iface, run[..last]), After(iface, INITIAL, run[..last]).server.handlers;
    OpenHandlers(iface, run[..last]);
    InnermostMatches(iface, run[..last], open, handlers);
    var h := open[|open| - 1];
    SeenBefore(iface, run, last, h);
    assert handlers[|handlers| - 1] == call && c < h;
    assert ReturnsFrom(iface, run, last, h, run[last].payload);
    hide ReturnsFrom;
  }

  lemma InnermostMatches(iface: Interface, run: seq<Step>, open: seq<nat>, handlers: seq<Message>)
    requires Legal(iface, INITIAL, run) && Matches(iface, run, open, handlers) && handlers != []
    ensures |open| == |handlers| && open[|open| - 1] < |run|
    ensures Seen(iface, run, open[|open| - 1]) == Started(Server, handlers[|handlers| - 1])
  {
  }

  lemma {:induction false} InCallStays(iface: Interface, run: seq<Step>, c: nat)
    requires run != [] && Legal(iface, INITIAL, run) && Legal(iface, INITIAL, run[..|run| - 1])
    requires InCall(iface, run[..|run| - 1], c) && After(iface, INITIAL, run).client.mode.AwaitingReply?
    ensures InCall(iface, run, c)
  {
    var last := |run| - 1;
    var s, step := After(iface, INITIAL, run[..last]), run[last];
    var call := s.client.mode.call;
    LastOf(iface, run);
    ReachableInv(iface, run[..last]);
    ByStepWhileBlocked(iface, s, step);
    AskedBefore(run, last, c);
    assert Seen(iface, run, last) == Observe(iface, s, step);
    hide Inv, Next, Observe, Legal, Enabled, Open, Seen, After, ServedLater, NoReturn, Served;
    NoReturnStays(iface, run, c);
    ServedLaterStays(iface, run, c, call);
    forall m <- After(iface, INITIAL, run).toClient | KindOf(iface, m.tag).Reply?
      ensures Served(iface, run, c, call, m.payload)
    {
      if m in s.toClient {
        ServedStays(iface, run, last, c, call, m.payload);
      } else {
        ReplyServed(iface, run, c, call);
      }
    }
  }

  /** A synchronous call begins with no other on the way, being served or answered. */
  lemma {:induction false} InCallBegins(iface: Interface, run: seq<Step>)
    requires run != [] && Legal(iface, INITIAL, run) && Legal(iface, INITIAL, run[..|run| - 1])
    requires !After(iface, INITIAL, run[..|run| - 1]).client.mode.AwaitingReply?
    requires After(iface, INITIAL, run).client.mode.AwaitingReply?
    ensures InCall(iface, run, |run| - 1)
  {
    var last := |run| - 1;
    var s, step := After(iface, INITIAL, run[..last]), run[last];
    LastOf(iface, run);
    ReachableInv(iface, run[..last]);
    SentAsAsked(iface, run[..last]);
    StepIsSound(iface, s, step);
    CallBegins(iface, s, step);
    OpenStep(iface, run);
    HandlersByStep(iface, s, step);
    assert Seen(iface, run, last) == Observe(iface, s, step);
    hide Inv, Next, Observe, Legal, Enabled, Open, Seen, After, Sound;
  }

  lemma {:induction false} CallBegins(iface: Interface, s: State, step: Step)
    requires Inv(iface, s) && Enabled(iface, s, step)
    requires !s.client.mode.AwaitingReply? && Next(iface, s, step).client.mode.AwaitingReply?
    ensures var t := Next(iface, s, step);
      && step.Call? && t.client.mode.call == Message(Request(step.name), s.serial, step.payload)
      && IsSync(iface, t.client.mode.call)
      && (forall m <- t.toServer | IsSync(iface, m) :: m == t.client.mode.call)
      && (forall m <- t.server.handlers :: !IsSync(iface, m))
      && (forall m <- t.toClient :: !KindOf(iface, m.tag).Reply?)
  {
    StepIsSound(iface, s, step);
    hide Inv, Sound;
    var e := EffectOf(iface, s, step);
    BeginsBySending(iface, s, e);
    SendsSync(iface, s, step);
    NothingOutstanding(iface, s);
    hide EffectOf;
  }

  lemma {:induction false} BeginsBySending(iface: Interface, s: State, e: Effect)
    requires Possible(s, e) && Sound(iface, s, e) && !s.client.mode.AwaitingReply?
    requires Apply(iface, s, e).client.mode.AwaitingReply?
    ensures e.SendSyncCall? && KindOf(iface, Request(e.name)).SyncRequest?
  {
    hide Extract, Recorded;
  }

  lemma {:induction false} SendsSync(iface: Interface, s: State, step: Step)
    requires Enabled(iface, s, step) && EffectOf(iface, s, step).SendSyncCall?
    ensures step.Call? && EffectOf(iface, s, step) == SendSyncCall(step.name, step.payload)
  {
  }

  lemma NothingOutstanding(iface: Interface, s: State)
    requires Inv(iface, s) && !s.client.mode.AwaitingReply?
    ensures (forall m <- s.toServer :: !IsSync(iface, m)) && (forall m <- s.server.handlers :: !IsSync(iface, m))
    ensures forall m <- s.toClient :: !KindOf(iface, m.tag).Reply?
  {
    assert Outstanding(iface, s) == 0;
    NoneCounted(iface, s.toServer);
    NoneCounted(iface, s.server.handlers);
    NoneCounted(iface, s.toClient);
  }

  lemma {:induction false} SomeCall(iface: Interface, run: seq<Step>)
    requires Legal(iface, INITIAL, run) && After(iface, INITIAL, run).client.mode.AwaitingReply?
    ensures exists c: nat :: InCall(iface, run, c)
    decreases |run|
  {
    var last := |run| - 1;
    LastOf(iface, run);
    if After(iface, INITIAL, run[..last]).client.mode.AwaitingReply? {
      SomeCall(iface, run[..last]);
      var c: nat :| InCall(iface, run[..last], c);
      InCallStays(iface, run, c);
    } else {
      InCallBegins(iface, run);
    }
    hide InCall, Legal, After;
  }

  /** What a synchronous call returns: when the stub returns a value, some earlier step of the run made the call and
      the client has been in it since; the server started a handler on exactly that call, with its argument; and the
      value is the one that a step of the server returned from that handler. */
  lemma {:induction false} CallReturnsResult(iface: Interface, run: seq<Step>, i: nat)
    requires Legal(iface, INITIAL, run) && i < |run| && Seen(iface, run, i).Resumed?
    ensures exists c: nat, h: nat, j: nat ::
      && c < h < j < i && run[c].Call? && run[c].name in iface && iface[run[c].name].SyncCall?
      && (forall k | c < k < i :: !Seen(iface, run, k).Resumed?)
      && Seen(iface, run, h) == Started(Server, Message(Request(run[c].name), SerialOf(run[..c]), run[c].payload))
      && ReturnsFrom(iface, run, j, h, Seen(iface, run, i).value)
  {
    hide Legal, After, Seen, Open, Enabled, Observe, ReturnsFrom, NoReturn;
    SeenIs(iface, run, i);
    var s, v := After(iface, INITIAL, run[..i]), Seen(iface, run, i).value;
    ReachableInv(iface, run[..i]);
    ResumedFrom(iface, s, run[i]);
    SomeCall(iface, run[..i]);
    var c: nat :| InCall(iface, run[..i], c);
    CallMade(iface, run[..i], c);
    var call := s.client.mode.call;
    assert Served(iface, run[..i], c, call, v);
    var h: nat, j: nat :|
      c < h < j < i && Seen(iface, run[..i], h) == Started(Server, call) && ReturnsFrom(iface, run[..i], j, h, v);
    hide InCall, Served;
    SeenBefore(iface, run, i, h);
    ReturnsBefore(iface, run, i, j, h, v);
    AsksBefore(run, i, c, call);
    QuietBefore(iface, run, i, c);
  }

  lemma CallMade(iface: Interface, run: seq<Step>, c: nat)
    requires Legal(iface, INITIAL, run) && InCall(iface, run, c)
    ensures run[c].Call? && run[c].name in iface && iface[run[c].name].SyncCall? && NoReturn(iface, run, c)
  {
    hide Legal, After, NoReturn, ServedLater, RepliesServed, Open;
  }

  lemma QuietBefore(iface: Interface, run: seq<Step>, n: nat, c: nat)
    requires Legal(iface, INITIAL, run) && n <= |run| && Legal(iface, INITIAL, run[..n])
    requires NoReturn(iface, run[..n], c)
    ensures forall k | c < k < n :: !Seen(iface, run, k).Resumed?
  {
    hide Legal, After, Seen;
    forall k | c < k < n
      ensures !Seen(iface, run, k).Resumed?
    {
      SeenBefore(iface, run, n, k);
    }
  }

  lemma ResumedFrom(iface: Interface, s: State, step: Step)
    requires Inv(iface, s) && Enabled(iface, s, step) && Observe(iface, s, step).Resumed?
    ensures s.client.mode.AwaitingReply? && s.toClient != [] && s.toClient[0] in s.toClient
    ensures KindOf(iface, s.toClient[0].tag).Reply? && Observe(iface, s, step).value == s.toClient[0].payload
  {
    StepIsSound(iface, s, step);
    hide Inv;
  }

  lemma AsksBefore(run: seq<Step>, n: nat, c: nat, m: Message)
    requires n <= |run| && Asks(run[..n], c, m)
    ensures c < n && Asks(run, c, m) && run[..n][c] == run[c]
  {
    AskedBefore(run, n, c);
  }

  /** Every handler is started on a message that an earlier step of the run asked for, with that step's argument. */
  lemma {:induction false} HandlersGetWhatWasAsked(iface: Interface, run: seq<Step>, i: nat)
    requires Legal(iface, INITIAL, run) && i < |run| && Seen(iface, run, i).Started?
    ensures exists c: nat :: c < i && Asks(run, c, Seen(iface, run, i).m)
  {
    hide Legal, After, Seen, Open, Enabled, Observe, Held, CallsOf, UpcallsOf;
    SeenIs(iface, run, i);
    var s, m := After(iface, INITIAL, run[..i]), Seen(iface, run, i).m;
    ReachableInv(iface, run[..i]);
    SentAsAsked(iface, run[..i]);
    StartedFrom(iface, s, run[i]);
    hide Inv, OfAsyncCall;
    var c: nat;
    if IsSync(iface, m) {
      SyncOnTheWay(iface, s, m);
      SomeCall(iface, run[..i]);
      c :| InCall(iface, run[..i], c);
    } else if Seen(iface, run, i).side.Server? {
      CallWasSent(iface, s, m);
      CallOfRun(iface, run[..i], m);
      c :| Asks(run[..i], c, m);
    } else {
      UpcallWasSent(iface, s, m);
      assert m in s.upcallsSent + Held(s);
      UpcallOfRun(iface, run[..i], m);
      c :| Asks(run[..i], c, m);
    }
    hide IsSync, ServedLater, RepliesServed, NoReturn;
    AsksBefore(run, i, c, m);
  }

  lemma StartedFrom(iface: Interface, s: State, step: Step)
    requires Inv(iface, s) && Enabled(iface, s, step) && Observe(iface, s, step).Started?
    ensures var seen := Observe(iface, s, step);
      if seen.side.Server? then
        && (seen.m in s.toServer || seen.m in s.server.buffer)
        && (IsSync(iface, seen.m) ==> seen.m in s.toServer) && (!IsSync(iface, seen.m) ==> OfAsyncCall(iface, seen.m))
      else (seen.m in s.toClient || seen.m in s.client.buffer) && !IsSync(iface, seen.m) && OfAsyncCall(iface, seen.m)
  {
    StepIsSound(iface, s, step);
    hide Inv;
  }

  lemma SyncOnTheWay(iface: Interface, s: State, m: Message)
    requires Inv(iface, s) && IsSync(iface, m) && m in s.toServer
    ensures s.client.mode.AwaitingReply?
  {
    if !s.client.mode.AwaitingReply? {
      NoneCounted(iface, s.toServer);
    }
  }

  // ----- which buffered message is taken -----

  /** A buffered message is given to its handler, and the others stay as they are when an entry is taken out. */
  predicate Takes(iface: Interface, s: State, step: Step, side: Side, k: nat)
    requires Enabled(iface, s, step)
  {
    var was, now := if side.Client? then s.client else s.server,
      if side.Client? then Next(iface, s, step).client else Next(iface, s, step).server;
    && k < |was.buffer| && now.buffer == Extract(was.buffer, k)
    && now.handlers == was.handlers + [was.buffer[k]]
    && Observe(iface, s, step) == Started(side, was.buffer[k])
  }

  /** `wait_for` takes the oldest buffered message with the tag; it waits exactly if there is none. */
  lemma WaitTakesFirst(iface: Interface, s: State, side: Side, tag: Tag)
    requires Enabled(iface, s, WaitFor(side, tag))
    ensures var buffer := if side.Client? then s.client.buffer else s.server.buffer;
      var after := Next(iface, s, WaitFor(side, tag));
      var mode := if side.Client? then after.client.mode else after.server.mode;
      if exists m <- buffer :: m.tag == tag then
        mode == Running && exists k: nat :: FirstAt(buffer, tag, k) && Takes(iface, s, WaitFor(side, tag), side, k)
      else
        mode == WaitingFor(tag) && Observe(iface, s, WaitFor(side, tag)) == Quiet
  {
    var buffer := if side.Client? then s.client.buffer else s.server.buffer;
    var k := Scan(buffer, tag);
    if k < |buffer| {
      assert buffer[k] in buffer;
      assert FirstAt(buffer, tag, k) && Takes(iface, s, WaitFor(side, tag), side, k);
    }
  }

  /** `process_buffered` takes the oldest buffered message, and does nothing exactly if there is none. */
  lemma ProcessTakesOldest(iface: Interface, s: State, side: Side)
    requires Enabled(iface, s, ProcessBuffered(side))
    ensures if (if side.Client? then s.client.buffer else s.server.buffer) == []
      then Next(iface, s, ProcessBuffered(side)) == s
      else Takes(iface, s, ProcessBuffered(side), side, 0)
  {
  }

  // ----- handlers nest -----

  function PeerOf(s: State, side: Side): Peer {
    if side.Client? then s.client else s.server
  }

  function Actor(step: Step): Side {
    match step
    case Connect => Client
    case Call(_, _) => Client
    case Upcall(_, _) => Server
    case _ => step.side
  }

  predicate ByClient(e: Effect) {
    || e.ClientEnters? || e.SendVerify? || e.SendCall? || e.SendSyncCall? || e.ClientSaves? || e.ClientResumes?
    || e.ClientVerified? || e.ClientDispatches? || e.ClientStops? || e.ClientTakes? || e.ClientReturns?
  }

  lemma {:induction false} EffectsApart(iface: Interface, s: State, e: Effect)
    requires Possible(s, e)
    ensures ByClient(e) ==> Apply(iface, s, e).server == s.server
    ensures !ByClient(e) ==> Apply(iface, s, e).client == s.client
    ensures e.Nothing? ==> Apply(iface, s, e) == s
  {
    hide Extract, Recorded;
  }

  lemma {:induction false} ActorsApart(iface: Interface, s: State, step: Step)
    requires Enabled(iface, s, step)
    ensures var e := EffectOf(iface, s, step); e.Nothing? || (ByClient(e) <==> Actor(step).Client?)
  {
    hide Apply, KindOf, Scan;
  }

  lemma {:induction false} ClientByEffect(iface: Interface, s: State, e: Effect)
    requires Possible(s, e)
    ensures Apply(iface, s, e).client.handlers
      == match e
         case ClientDispatches => s.client.handlers + [s.toClient[0]]
         case ClientTakes(k) => s.client.handlers + [s.client.buffer[k]]
         case ClientReturns => s.client.handlers[..|s.client.handlers| - 1]
         case _ => s.client.handlers
  {
    hide Extract, Recorded;
  }

  /** Modes in which a side reads or has stopped. */
  lemma {:induction false} ModeByEffect(iface: Interface, s: State, e: Effect)
    requires Possible(s, e)
    ensures e.ClientResumes? || e.ClientDispatches? ==> Apply(iface, s, e).client.mode.Running?
    ensures e.ServerDispatches? ==> Apply(iface, s, e).server.mode.Running?
    ensures e.ClientTakes? || e.ClientReturns? ==> Apply(iface, s, e).client.mode == s.client.mode
    ensures e.ServerTakes? || e.ServerReturns? || e.ServerReplies? ==>
      Apply(iface, s, e).server.mode == s.server.mode
  {
    hide Extract, Recorded;
  }

  /** A step of one side changes nothing of the other. */
  lemma {:induction false} SidesApart(iface: Interface, s: State, step: Step, side: Side)
    requires Enabled(iface, s, step) && side != Actor(step)
    ensures PeerOf(Next(iface, s, step), side) == PeerOf(s, side)
  {
    hide Apply, EffectOf, ByClient;
    ActorsApart(iface, s, step);
    EffectsApart(iface, s, EffectOf(iface, s, step));
  }

  /** The handlers of a side nest: one that starts goes on top, and the side runs it; a return leaves the innermost; and
      when a stub returns a value its caller runs on. */
  lemma {:induction false} HandlersNest(iface: Interface, s: State, step: Step, side: Side)
    requires Enabled(iface, s, step)
    ensures var was, now, seen := PeerOf(s, side), PeerOf(Next(iface, s, step), side), Observe(iface, s, step);
      && now.handlers
         == (if seen.Started? && seen.side == side then was.handlers + [seen.m]
             else if step.Return? && step.side == side then was.handlers[..|was.handlers| - 1]
             else was.handlers)
      && (((seen.Started? && seen.side == side) || (seen.Resumed? && side.Client?)
           || (step.Return? && step.side == side)) ==> now.mode.Running?)
  {
    hide Apply, KindOf, Scan;
    var e := EffectOf(iface, s, step);
    ModeByEffect(iface, s, e);
    if side.Client? {
      ClientByEffect(iface, s, e);
    } else {
      HandlersByEffect(iface, s, e);
    }
  }

  // ----- what becomes of a message that is read -----

  datatype Fate = Starts | Resumes | Verifies | Answers | AnswersAndUpcalls | Saves | Stops

  /** What becomes of a message that a side reads, by what the message is for. */
  function FateOf(iface: Interface, side: Side, mode: Mode, m: Message): Fate {
    var kind := KindOf(iface, m.tag);
    if side.Client? then
      var awaited := match mode
        case WaitingFor(target) => m.tag == target
        case AwaitingReply(call) => call.tag.Request? && m.tag == Response(call.tag.name)
        case AwaitingVerify => m.tag == Verify
        case _ => true;
      if awaited && mode.AwaitingReply? then Resumes
      else if awaited && mode.AwaitingVerify? then Verifies
      else if kind != UpcallRequest then Stops
      else if awaited then Starts
      else Saves
    else if mode.VerifyingFirst? then if kind == Verification then AnswersAndUpcalls else Stops
    else if mode.WaitingFor? && m.tag != mode.target then if kind == AsyncRequest then Saves else Stops
    else if kind == Verification then Answers
    else if kind == SyncRequest || kind == AsyncRequest then Starts
    else Stops
  }

  function Incoming(s: State, side: Side): seq<Message> {
    if side.Client? then s.toClient else s.toServer
  }

  predicate Reads(side: Side, mode: Mode) {
    mode.Looping? || mode.WaitingFor?
    || (side.Client? && (mode.AwaitingReply? || mode.AwaitingVerify?)) || (side.Server? && mode.VerifyingFirst?)
  }

  /** What the server sends when it has read a message. */
  function Sent(fate: Fate, mode: Mode, m: Message): seq<Message> {
    if fate.Answers? then [Message(Verify, m.serial, 0)]
    else if fate.AnswersAndUpcalls? && mode.VerifyingFirst? then [Message(Verify, m.serial, 0), mode.upcall]
    else []
  }

  lemma VerificationIsVerify(iface: Interface, tag: Tag)
    ensures KindOf(iface, tag) == Verification <==> tag == Verify
  {
  }

  lemma {:induction false} ClientFate(iface: Interface, s: State)
    requires Reads(Client, s.client.mode) && s.toClient != []
    ensures EffectOf(iface, s, Receive(Client))
      == match FateOf(iface, Client, s.client.mode, s.toClient[0])
         case Starts => ClientDispatches
         case Resumes => ClientResumes
         case Saves => ClientSaves
         case Stops => ClientStops
         case _ => ClientVerified
  {
    ArmsByKind(iface, s.toClient[0].tag);
    VerificationIsVerify(iface, s.toClient[0].tag);
    hide KindOf, HasBufferCases, HasRequestCase;
  }

  lemma {:induction false} ServerFate(iface: Interface, s: State)
    requires Reads(Server, s.server.mode) && s.toServer != []
    ensures EffectOf(iface, s, Receive(Server))
      == match FateOf(iface, Server, s.server.mode, s.toServer[0])
         case Starts => ServerDispatches
         case Saves => ServerSaves
         case Stops => ServerStops
         case Answers => ServerAnswers
         case _ =>
           ServerAnswersAndUpcalls(if s.server.mode.VerifyingFirst? then s.server.mode.upcall else s.toServer[0])
    ensures var fate := FateOf(iface, Server, s.server.mode, s.toServer[0]);
      && !fate.Resumes? && !fate.Verifies?
      && (fate.AnswersAndUpcalls? ==> s.server.mode.VerifyingFirst?)
  {
    ArmsByKind(iface, s.toServer[0].tag);
    VerificationIsVerify(iface, s.toServer[0].tag);
    hide KindOf, HasBufferCases, HasRequestCase;
  }

  /** A side that waits reads as soon as there is a message, and takes the first. It is given to a handler, ends the
      wait for a reply or the verification, is answered, is saved, or ends in the error state, as its kind demands. */
  lemma {:induction false} ReceivesByKind(iface: Interface, s: State, side: Side)
    requires Reads(side, PeerOf(s, side).mode) && Incoming(s, side) != []
    ensures Enabled(iface, s, Receive(side))
    ensures var m, after := Incoming(s, side)[0], Next(iface, s, Receive(side));
      var was, now := PeerOf(s, side), PeerOf(after, side);
      var fate := FateOf(iface, side, was.mode, m);
      && Incoming(after, side) == Incoming(s, side)[1..]
      && (side.Server? ==> after.toClient == s.toClient + Sent(fate, was.mode, m))
      && now == match fate
         case Starts => was.(mode := Running, handlers := was.handlers + [m])
         case Resumes => was.(mode := Running)
         case Saves => was.(buffer := was.buffer + [m])
         case Stops => was.(mode := Stopped(m))
         case _ => was.(mode := Running, verified := true)
  {
    hide FateOf, EffectOf;
    if side.Client? {
      ClientFate(iface, s);
    } else {
      ServerFate(iface, s);
      assert s.toClient + [] == s.toClient;
    }
  }
}
