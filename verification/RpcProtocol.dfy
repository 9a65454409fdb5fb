/** A client and a server joined by two FIFO channels, each running its generated class. A step is one thing a
    side can do without waiting for the other: call a stub, start to wait, take one message, take one buffered
    message, or return from a handler. Handlers may call stubs and wait loops again, so each side has a stack of
    the handlers it is in. */
module RpcProtocol {
  import opened RpcTypes
  import opened RpcEndpoint

  datatype Mode =
    | Running                       // application or handler code
    | Looping                       // in waitLoop, reading
    | WaitingFor(target: Tag)       // in wait_for, reading
    | AwaitingReply(call: Message)  // in the stub of a synchronous call
    | AwaitingVerify                // in the client's constructor
    | VerifyingFirst(upcall: Message)  // in an upcall stub that has to answer the verification first
    | Stopped(on: Message)          // the error state, entered on this message

  datatype Peer = Peer(mode: Mode, handlers: seq<Message>, buffer: seq<Message>, verified: bool)

  datatype State = State(
    client: Peer, server: Peer,
    toServer: seq<Message>, toClient: seq<Message>,
    serial: nat,
    // the past: asynchronous messages sent and dispatched in each direction, and everything the server sent
    upcallsSent: seq<Message>, upcallsDone: seq<Message>,
    callsSent: seq<Message>, callsDone: seq<Message>,
    serverSent: seq<Message>)

  datatype Step =
    | Connect
    | Call(name: string, payload: int)
    | Upcall(name: string, payload: int)
    | StartLoop(side: Side)
    | WaitFor(side: Side, tag: Tag)
    | Receive(side: Side)
    | ProcessBuffered(side: Side)
    | Return(side: Side, payload: int)

  const FRESH := Peer(Running, [], [], false)

  const INITIAL := State(FRESH, FRESH, [], [], 0, [], [], [], [], [])

  // ----- what can happen -----

  /** The atomic changes of the state that the generated code makes. */
  datatype Effect =
    | Nothing
    | ClientEnters(mode: Mode)
    | ServerEnters(mode: Mode)
    | SendVerify
    | SendCall(name: string, payload: int)
    | SendSyncCall(name: string, payload: int)
    | SendUpcall(name: string, payload: int)
    | HoldUpcall(name: string, payload: int)
    // the client takes the first message of its channel
    | ClientSaves | ClientResumes | ClientVerified | ClientDispatches | ClientStops
    // the server takes the first message of its channel
    | ServerSaves | ServerAnswers | ServerAnswersAndUpcalls(upcall: Message) | ServerDispatches | ServerStops
    // a buffered message is taken
    | ClientTakes(k: nat)
    | ServerTakes(k: nat)
    // a handler returns
    | ClientReturns
    | ServerReturns
    | ServerReplies(result: int)

  predicate Possible(s: State, e: Effect) {
    match e
    case ClientSaves => s.toClient != []
    case ClientResumes => s.toClient != []
    case ClientVerified => s.toClient != []
    case ClientDispatches => s.toClient != []
    case ClientStops => s.toClient != []
    case ServerSaves => s.toServer != []
    case ServerAnswers => s.toServer != []
    case ServerAnswersAndUpcalls(_) => s.toServer != []
    case ServerDispatches => s.toServer != []
    case ServerStops => s.toServer != []
    case ClientTakes(k) => k < |s.client.buffer|
    case ServerTakes(k) => k < |s.server.buffer|
    case ClientReturns => s.client.handlers != []
    case ServerReturns => s.server.handlers != []
    case ServerReplies(_) => s.server.handlers != [] && s.server.handlers[|s.server.handlers| - 1].tag.Request?
    case _ => true
  }

  /** Asynchronous calls are recorded when their handler starts. */
  function Recorded(iface: Interface, done: seq<Message>, m: Message): seq<Message> {
    if KindOf(iface, m.tag).AsyncRequest? then done + [m] else done
  }

  function Apply(iface: Interface, s: State, e: Effect): State
    requires Possible(s, e)
  {
    match e
    case Nothing => s
    case ClientEnters(mode) => s.(client := s.client.(mode := mode))
    case ServerEnters(mode) => s.(server := s.server.(mode := mode))
    case SendVerify =>
      s.(toServer := s.toServer + [Message(Verify, s.serial, 0)], serial := s.serial + 1,
         client := s.client.(mode := AwaitingVerify))
    case SendCall(name, payload) =>
      var m := Message(Request(name), s.serial, payload);
      s.(toServer := s.toServer + [m], serial := s.serial + 1, callsSent := s.callsSent + [m])
    case SendSyncCall(name, payload) =>
      var m := Message(Request(name), s.serial, payload);
      s.(toServer := s.toServer + [m], serial := s.serial + 1, client := s.client.(mode := AwaitingReply(m)))
    case SendUpcall(name, payload) =>
      var m := Message(Request(name), s.serial, payload);
      s.(toClient := s.toClient + [m], serverSent := s.serverSent + [m], serial := s.serial + 1,
         upcallsSent := s.upcallsSent + [m])
    case HoldUpcall(name, payload) =>
      s.(server := s.server.(mode := VerifyingFirst(Message(Request(name), s.serial, payload))), serial := s.serial + 1)

    case ClientSaves =>
      s.(toClient := s.toClient[1..], client := s.client.(buffer := s.client.buffer + [s.toClient[0]]))
    case ClientResumes =>
      s.(toClient := s.toClient[1..], client := s.client.(mode := Running))
    case ClientVerified =>
      s.(toClient := s.toClient[1..], client := s.client.(mode := Running, verified := true))
    case ClientDispatches =>
      s.(toClient := s.toClient[1..], upcallsDone := s.upcallsDone + [s.toClient[0]],
         client := s.client.(mode := Running, handlers := s.client.handlers + [s.toClient[0]]))
    case ClientStops =>
      s.(toClient := s.toClient[1..], client := s.client.(mode := Stopped(s.toClient[0])))

    case ServerSaves =>
      s.(toServer := s.toServer[1..], server := s.server.(buffer := s.server.buffer + [s.toServer[0]]))
    case ServerAnswers =>
      var reply := Message(Verify, s.toServer[0].serial, 0);
      s.(toServer := s.toServer[1..], toClient := s.toClient + [reply], serverSent := s.serverSent + [reply],
         server := s.server.(mode := Running, verified := true))
    case ServerAnswersAndUpcalls(upcall) =>
      var reply := Message(Verify, s.toServer[0].serial, 0);
      s.(toServer := s.toServer[1..], toClient := s.toClient + [reply, upcall],
         serverSent := s.serverSent + [reply, upcall], upcallsSent := s.upcallsSent + [upcall],
         server := s.server.(mode := Running, verified := true))
    case ServerDispatches =>
      s.(toServer := s.toServer[1..], callsDone := Recorded(iface, s.callsDone, s.toServer[0]),
         server := s.server.(mode := Running, handlers := s.server.handlers + [s.toServer[0]]))
    case ServerStops =>
      s.(toServer := s.toServer[1..], server := s.server.(mode := Stopped(s.toServer[0])))

    case ClientTakes(k) =>
      var m := s.client.buffer[k];
      s.(upcallsDone := s.upcallsDone + [m],
         client := s.client.(buffer := Extract(s.client.buffer, k), handlers := s.client.handlers + [m]))
    case ServerTakes(k) =>
      var m := s.server.buffer[k];
      s.(callsDone := Recorded(iface, s.callsDone, m),
         server := s.server.(buffer := Extract(s.server.buffer, k), handlers := s.server.handlers + [m]))

    case ClientReturns =>
      s.(client := s.client.(handlers := s.client.handlers[..|s.client.handlers| - 1]))
    case ServerReturns =>
      s.(server := s.server.(handlers := s.server.handlers[..|s.server.handlers| - 1]))
    case ServerReplies(result) =>
      var m := s.server.handlers[|s.server.handlers| - 1];
      var reply := Message(Response(m.tag.name), m.serial, result);
      s.(toClient := s.toClient + [reply], serverSent := s.serverSent + [reply],
         server := s.server.(handlers := s.server.handlers[..|s.server.handlers| - 1]))
  }

  // ----- what the generated code does -----

  /** The index at which `wait_for` finds a tag in the buffer, or the length of the buffer. */
  function Scan(buffer: seq<Message>, tag: Tag): (k: nat)
    ensures k <= |buffer|
    ensures k < |buffer| ==> FirstAt(buffer, tag, k)
    ensures k == |buffer| ==> forall m <- buffer :: m.tag != tag
  {
    if buffer == [] || buffer[0].tag == tag then 0 else 1 + Scan(buffer[1..], tag)
  }

  /** A client can be used only once its constructor, which verifies the protocol, is done. */
  predicate MayRun(s: State, side: Side) {
    if side.Client? then s.client.mode.Running? && s.client.verified else s.server.mode.Running?
  }

  predicate ClientReads(mode: Mode) {
    mode.Looping? || mode.WaitingFor? || mode.AwaitingReply? || mode.AwaitingVerify?
  }

  predicate ServerReads(mode: Mode) {
    mode.Looping? || mode.WaitingFor? || mode.VerifyingFirst?
  }

  predicate Enabled(iface: Interface, s: State, step: Step) {
    match step
    case Connect => s.client.mode.Running? && !s.client.verified
    case Call(name, _) => MayRun(s, Client) && name in iface && !iface[name].AsyncUpcall?
    case Upcall(name, _) => MayRun(s, Server) && name in iface && iface[name].AsyncUpcall?
    case StartLoop(side) => MayRun(s, side)
    case WaitFor(side, _) => MayRun(s, side)
    case Receive(side) =>
      if side.Client? then ClientReads(s.client.mode) && s.toClient != []
      else ServerReads(s.server.mode) && s.toServer != []
    case ProcessBuffered(side) => MayRun(s, side)
    case Return(side, _) => MayRun(s, side) && (if side.Client? then s.client.handlers else s.server.handlers) != []
  }

  /** `switch_on`, on each side. */
  function ClientSwitch(iface: Interface, tag: Tag): Effect {
    if HasRequestCase(iface, Client, tag) then ClientDispatches else ClientStops
  }

  function ServerSwitch(iface: Interface, tag: Tag): Effect {
    if tag.Verify? then ServerAnswers else if HasRequestCase(iface, Server, tag) then ServerDispatches else ServerStops
  }

  /** `awaitResponse` meets a message other than its target. */
  function ClientSave(iface: Interface, tag: Tag): Effect {
    if HasBufferCases(iface, Client, tag) then ClientSaves else ClientStops
  }

  function ServerSave(iface: Interface, tag: Tag): Effect {
    if HasBufferCases(iface, Server, tag) then ServerSaves else ServerStops
  }

  function ClientReceives(iface: Interface, mode: Mode, tag: Tag): Effect {
    match mode
    case WaitingFor(target) => if tag == target then ClientSwitch(iface, tag) else ClientSave(iface, tag)
    case AwaitingReply(call) =>
      if call.tag.Request? && tag == Response(call.tag.name) then ClientResumes else ClientSave(iface, tag)
    case AwaitingVerify => if tag == Verify then ClientVerified else ClientSave(iface, tag)
    case _ => ClientSwitch(iface, tag)
  }

  function ServerReceives(iface: Interface, mode: Mode, tag: Tag): Effect {
    match mode
    case WaitingFor(target) => if tag == target then ServerSwitch(iface, tag) else ServerSave(iface, tag)
    case VerifyingFirst(upcall) => if tag == Verify then ServerAnswersAndUpcalls(upcall) else ServerStops
    case _ => ServerSwitch(iface, tag)
  }

  function Waits(s: State, side: Side, tag: Tag): Effect {
    if side.Client? then
      var k := Scan(s.client.buffer, tag);
      if k < |s.client.buffer| then ClientTakes(k) else ClientEnters(WaitingFor(tag))
    else
      var k := Scan(s.server.buffer, tag);
      if k < |s.server.buffer| then ServerTakes(k) else ServerEnters(WaitingFor(tag))
  }

  function Returns(iface: Interface, s: State, side: Side, payload: int): Effect
    requires Enabled(iface, s, Return(side, payload))
  {
    if side.Client? then ClientReturns
    else if KindOf(iface, s.server.handlers[|s.server.handlers| - 1].tag).SyncRequest? then ServerReplies(payload)
    else ServerReturns
  }

  function EffectOf(iface: Interface, s: State, step: Step): (e: Effect)
    requires Enabled(iface, s, step)
    ensures Possible(s, e)
  {
    match step
    case Connect => SendVerify
    case Call(name, payload) => if iface[name].SyncCall? then SendSyncCall(name, payload) else SendCall(name, payload)
    case Upcall(name, payload) => if s.server.verified then SendUpcall(name, payload) else HoldUpcall(name, payload)
    case StartLoop(side) => if side.Client? then ClientEnters(Looping) else ServerEnters(Looping)
    case WaitFor(side, tag) => Waits(s, side, tag)
    case Receive(side) =>
      if side.Client? then ClientReceives(iface, s.client.mode, s.toClient[0].tag)
      else ServerReceives(iface, s.server.mode, s.toServer[0].tag)
    case ProcessBuffered(side) =>
      if side.Client? then if s.client.buffer == [] then Nothing else ClientTakes(0)
      else if s.server.buffer == [] then Nothing else ServerTakes(0)
    case Return(side, payload) => Returns(iface, s, side, payload)
  }

  function Next(iface: Interface, s: State, step: Step): State
    requires Enabled(iface, s, step)
  {
    Apply(iface, s, EffectOf(iface, s, step))
  }

  // ----- runs -----

  ghost predicate Legal(iface: Interface, s: State, run: seq<Step>)
    decreases |run|
  {
    run == [] || (Enabled(iface, s, run[0]) && Legal(iface, Next(iface, s, run[0]), run[1..]))
  }

  ghost function After(iface: Interface, s: State, run: seq<Step>): State
    requires Legal(iface, s, run)
    decreases |run|
  {
    if run == [] then s else After(iface, Next(iface, s, run[0]), run[1..])
  }

  // ----- the invariant -----

  /** A message that belongs to a synchronous call: its request or its reply. */
  predicate OfSyncCall(iface: Interface, m: Message) {
    KindOf(iface, m.tag).SyncRequest? || KindOf(iface, m.tag).Reply?
  }

  function SyncCount(iface: Interface, ms: seq<Message>): nat {
    if ms == [] then 0 else (if OfSyncCall(iface, ms[0]) then 1 else 0) + SyncCount(iface, ms[1..])
  }

  predicate OfAsyncCall(iface: Interface, m: Message) {
    KindOf(iface, m.tag).AsyncRequest? || KindOf(iface, m.tag).UpcallRequest?
  }

  /** The asynchronous requests in a sequence, in order. */
  function Asyncs(iface: Interface, ms: seq<Message>): seq<Message> {
    if ms == [] then []
    else if OfAsyncCall(iface, ms[0]) then [ms[0]] + Asyncs(iface, ms[1..])
    else Asyncs(iface, ms[1..])
  }

  lemma {:induction false} SyncCountAppend(iface: Interface, ms: seq<Message>, m: Message)
    ensures SyncCount(iface, ms + [m]) == SyncCount(iface, ms) + (if OfSyncCall(iface, m) then 1 else 0)
  {
    if ms != [] {
      SyncCountAppend(iface, ms[1..], m);
      assert (ms + [m])[1..] == ms[1..] + [m];
    }
  }

  lemma {:induction false} AsyncsAppend(iface: Interface, ms: seq<Message>, m: Message)
    ensures Asyncs(iface, ms + [m]) == if OfAsyncCall(iface, m) then Asyncs(iface, ms) + [m] else Asyncs(iface, ms)
  {
    if ms != [] {
      AsyncsAppend(iface, ms[1..], m);
      assert (ms + [m])[1..] == ms[1..] + [m];
    }
  }

  /** How often a message occurs in a sequence. */
  function Occurs(ms: seq<Message>, m: Message): nat {
    if ms == [] then 0 else (if ms[0] == m then 1 else 0) + Occurs(ms[1..], m)
  }

  lemma {:induction false} OccursIsMultiplicity(ms: seq<Message>, m: Message)
    ensures Occurs(ms, m) == multiset(ms)[m]
  {
    if ms != [] {
      OccursIsMultiplicity(ms[1..], m);
      assert ms == [ms[0]] + ms[1..];
    }
  }

  lemma {:induction false} OccursAppend(ms: seq<Message>, x: Message, m: Message)
    ensures Occurs(ms + [x], m) == Occurs(ms, m) + (if x == m then 1 else 0)
  {
    if ms != [] {
      OccursAppend(ms[1..], x, m);
      assert (ms + [x])[1..] == ms[1..] + [x];
    }
  }

  lemma OccursExtract(queue: seq<Message>, k: nat, m: Message)
    requires k < |queue|
    ensures Occurs(queue, m) == Occurs(Extract(queue, k), m) + (if queue[k] == m then 1 else 0)
  {
    ExtractRemovesOne(queue, k);
    OccursIsMultiplicity(queue, m);
    OccursIsMultiplicity(Extract(queue, k), m);
  }
}
