/** What every run of the generated client and server keeps. */
module RpcSafety {
  import opened RpcTypes
  import opened RpcProtocol

  // ----- the invariant -----

  predicate ToServerKind(k: MessageKind) {
    k.Verification? || k.SyncRequest? || k.AsyncRequest?
  }

  predicate ToClientKind(k: MessageKind) {
    k.Verification? || k.UpcallRequest? || k.Reply?
  }

  ghost predicate AllToServer(iface: Interface, ms: seq<Message>) {
    forall i | 0 <= i < |ms| :: ToServerKind(KindOf(iface, ms[i].tag))
  }

  ghost predicate AllToClient(iface: Interface, ms: seq<Message>) {
    forall i | 0 <= i < |ms| :: ToClientKind(KindOf(iface, ms[i].tag))
  }

  ghost predicate All(iface: Interface, ms: seq<Message>, k: MessageKind) {
    forall i | 0 <= i < |ms| :: KindOf(iface, ms[i].tag) == k
  }

  ghost predicate AllCalls(iface: Interface, ms: seq<Message>) {
    forall i | 0 <= i < |ms| :: KindOf(iface, ms[i].tag).SyncRequest? || KindOf(iface, ms[i].tag).AsyncRequest?
  }

  /** Each channel, buffer and stack holds only messages that belong there. */
  ghost predicate Kinds(iface: Interface, s: State) {
    && AllToServer(iface, s.toServer) && AllToClient(iface, s.toClient)
    && All(iface, s.client.buffer, UpcallRequest) && All(iface, s.client.handlers, UpcallRequest)
    && All(iface, s.server.buffer, AsyncRequest) && AllCalls(iface, s.server.handlers)
  }

  /** The client never stops, and a server stops only on a synchronous request or a verification. */
  predicate Modes(iface: Interface, s: State) {
    && !s.client.mode.VerifyingFirst? && !s.client.mode.Stopped?
    && (s.client.mode.AwaitingReply? ==> KindOf(iface, s.client.mode.call.tag).SyncRequest?)
    && !s.server.mode.AwaitingReply? && !s.server.mode.AwaitingVerify?
    && (s.server.mode.VerifyingFirst? ==> KindOf(iface, s.server.mode.upcall.tag).UpcallRequest?)
    && (s.server.mode.Stopped?
      ==> KindOf(iface, s.server.mode.on.tag).Verification? || KindOf(iface, s.server.mode.on.tag).SyncRequest?)
  }

  /** Every message of a synchronous call in a sequence belongs to this call. */
  ghost predicate Belong(iface: Interface, ms: seq<Message>, call: Message) {
    forall i | 0 <= i < |ms| && OfSyncCall(iface, ms[i]) :: BelongsTo(ms[i], call)
  }

  predicate BelongsTo(m: Message, call: Message) {
    m.tag.Verify? == call.tag.Verify? && (m.tag.Verify? || m.tag.name == call.tag.name) && m.serial == call.serial
  }

  /** The messages of synchronous calls that are in flight, being served, answered, or lost to a stopped server. */
  function Outstanding(iface: Interface, s: State): nat {
    SyncCount(iface, s.toServer) + SyncCount(iface, s.server.handlers) + SyncCount(iface, s.toClient)
    + if s.server.mode.Stopped? && OfSyncCall(iface, s.server.mode.on) then 1 else 0
  }

  /** Exactly one when the client waits for a reply, and then it belongs to the client's call; otherwise none. */
  ghost predicate OneCallAtATime(iface: Interface, s: State) {
    if s.client.mode.AwaitingReply? then
      && Outstanding(iface, s) == 1
      && Belong(iface, s.toServer, s.client.mode.call) && Belong(iface, s.server.handlers, s.client.mode.call)
      && Belong(iface, s.toClient, s.client.mode.call)
      && (s.server.mode.Stopped? && OfSyncCall(iface, s.server.mode.on)
        ==> BelongsTo(s.server.mode.on, s.client.mode.call))
    else Outstanding(iface, s) == 0
  }

  /** Each upcall that was sent is in the channel, in the client's buffer, or dispatched, and just once. */
  ghost predicate UpcallsAccounted(iface: Interface, s: State, m: Message) {
    Occurs(s.upcallsSent, m)
      == Occurs(s.upcallsDone, m) + Occurs(s.client.buffer, m) + Occurs(Asyncs(iface, s.toClient), m)
  }

  /** The same for asynchronous calls, in the other direction. */
  ghost predicate CallsAccounted(iface: Interface, s: State, m: Message) {
    Occurs(s.callsSent, m) == Occurs(s.callsDone, m) + Occurs(s.server.buffer, m) + Occurs(Asyncs(iface, s.toServer), m)
  }

  ghost predicate Delivery(iface: Interface, s: State) {
    forall m :: UpcallsAccounted(iface, s, m) && CallsAccounted(iface, s, m)
  }

  ghost predicate NoVerify(ms: seq<Message>) {
    forall i | 0 <= i < |ms| :: !ms[i].tag.Verify?
  }

  /** The server's first message, and none of its later ones, answers the verification. */
  ghost predicate FirstIsVerify(s: State) {
    if s.server.verified then
      s.serverSent != [] && s.serverSent[0].tag.Verify?
        && forall i | 1 <= i < |s.serverSent| :: !s.serverSent[i].tag.Verify?
    else s.serverSent == [] && s.server.handlers == [] && s.server.buffer == []
  }

  ghost predicate Handshake(s: State) {
    && (s.server.verified
      ==> !s.server.mode.VerifyingFirst? && !(s.server.mode.Stopped? && s.server.mode.on.tag.Verify?))
    && (if s.client.verified then
          s.server.verified && NoVerify(s.toServer) && NoVerify(s.toClient) && !s.client.mode.AwaitingVerify?
        else
          && s.client.buffer == [] && s.client.handlers == []
          && (s.client.mode.Running? || s.client.mode.AwaitingVerify?)
          && (!s.server.verified ==> s.toClient == [])
          && if s.server.verified then
               s.client.mode.AwaitingVerify? && s.toServer == []
               && s.toClient != [] && s.toClient[0].tag.Verify? && NoVerify(s.toClient[1..])
             else if s.client.mode.Running? then s.toServer == [] && !s.server.mode.Stopped?
             else if s.server.mode.Stopped? then s.toServer == []
             else |s.toServer| == 1 && s.toServer[0].tag.Verify?)
  }

  ghost predicate Increasing(ms: seq<Message>, bound: nat) {
    && (forall i | 0 <= i < |ms| :: ms[i].serial < bound)
    && (forall i, j | 0 <= i < j < |ms| :: ms[i].serial < ms[j].serial)
  }

  ghost predicate Serials(s: State) {
    && Increasing(s.upcallsSent, s.serial) && Increasing(s.callsSent, s.serial)
    && (!s.server.verified || s.server.mode.VerifyingFirst? ==> s.upcallsSent == [])
    && (s.server.mode.VerifyingFirst? ==> s.server.mode.upcall.serial < s.serial)
  }

  ghost predicate Inv(iface: Interface, s: State) {
    Kinds(iface, s) && Modes(iface, s) && OneCallAtATime(iface, s) && Delivery(iface, s)
      && FirstIsVerify(s) && Handshake(s) && Serials(s)
  }

  // ----- when each change is sound -----

  predicate Reads(mode: Mode) {
    mode.Looping? || mode.WaitingFor?
  }

  /** The circumstances in which the generated code makes each change. */
  predicate Sound(iface: Interface, s: State, e: Effect)
    requires Possible(s, e)
  {
    match e
    case Nothing => true
    case ClientEnters(mode) => s.client.verified && s.client.mode.Running? && Reads(mode)
    case ServerEnters(mode) => s.server.mode.Running? && Reads(mode)
    case SendVerify => s.client.mode.Running? && !s.client.verified
    case SendCall(name, _) => s.client.verified && s.client.mode.Running? && KindOf(iface, Request(name)).AsyncRequest?
    case SendSyncCall(name, _) =>
      s.client.verified && s.client.mode.Running? && KindOf(iface, Request(name)).SyncRequest?
    case SendUpcall(name, _) =>
      s.server.verified && s.server.mode.Running? && KindOf(iface, Request(name)).UpcallRequest?
    case HoldUpcall(name, _) =>
      !s.server.verified && s.server.mode.Running? && KindOf(iface, Request(name)).UpcallRequest?
    case ClientSaves => s.client.verified && KindOf(iface, s.toClient[0].tag).UpcallRequest?
    case ClientResumes =>
      && s.client.verified && s.client.mode.AwaitingReply? && KindOf(iface, s.toClient[0].tag).Reply?
    case ClientVerified => s.client.mode.AwaitingVerify? && s.toClient[0].tag.Verify?
    case ClientDispatches =>
      s.client.verified && Reads(s.client.mode) && KindOf(iface, s.toClient[0].tag).UpcallRequest?
    case ClientStops => false
    case ServerSaves => s.server.mode.WaitingFor? && KindOf(iface, s.toServer[0].tag).AsyncRequest?
    case ServerAnswers => Reads(s.server.mode) && s.toServer[0].tag.Verify?
    case ServerAnswersAndUpcalls(upcall) =>
      s.server.mode == VerifyingFirst(upcall) && s.toServer[0].tag.Verify? && KindOf(iface, upcall.tag).UpcallRequest?
    case ServerDispatches =>
      Reads(s.server.mode)
        && (KindOf(iface, s.toServer[0].tag).SyncRequest? || KindOf(iface, s.toServer[0].tag).AsyncRequest?)
    case ServerStops =>
      s.server.mode.WaitingFor? && (KindOf(iface, s.toServer[0].tag).SyncRequest? || s.toServer[0].tag.Verify?)
    case ClientTakes(k) =>
      s.client.verified && s.client.mode.Running? && KindOf(iface, s.client.buffer[k].tag).UpcallRequest?
    case ServerTakes(k) => s.server.mode.Running? && KindOf(iface, s.server.buffer[k].tag).AsyncRequest?
    case ClientReturns => s.client.verified && s.client.mode.Running?
    case ServerReturns =>
      s.server.mode.Running? && KindOf(iface, s.server.handlers[|s.server.handlers| - 1].tag).AsyncRequest?
    case ServerReplies(_) =>
      s.server.mode.Running? && KindOf(iface, s.server.handlers[|s.server.handlers| - 1].tag).SyncRequest?
  }

  // ----- each part of the invariant is kept -----

  predicate ByClient(e: Effect) {
    e.Nothing? || e.ClientEnters? || e.SendVerify? || e.SendCall? || e.SendSyncCall?
      || e.ClientSaves? || e.ClientResumes?
    || e.ClientVerified? || e.ClientDispatches? || e.ClientTakes? || e.ClientReturns?
  }

  predicate Takes(e: Effect) {
    e.ServerDispatches? || e.ServerTakes? || e.ServerSaves? || e.ServerStops?
  }

  lemma ModesKeptByClient(iface: Interface, s: State, e: Effect)
    requires Modes(iface, s) && Possible(s, e) && Sound(iface, s, e) && ByClient(e)
    ensures Modes(iface, Apply(iface, s, e))
  {
  }

  lemma ModesKept(iface: Interface, s: State, e: Effect)
    requires Modes(iface, s) && Possible(s, e) && Sound(iface, s, e)
    ensures Modes(iface, Apply(iface, s, e))
  {
    if ByClient(e) {
      ModesKeptByClient(iface, s, e);
    }
  }

  lemma KindsKeptByClient(iface: Interface, s: State, e: Effect)
    requires Kinds(iface, s) && Possible(s, e) && Sound(iface, s, e) && ByClient(e)
    ensures Kinds(iface, Apply(iface, s, e))
  {
  }

  lemma KindsKeptByServer(iface: Interface, s: State, e: Effect)
    requires Kinds(iface, s) && Modes(iface, s) && Possible(s, e) && Sound(iface, s, e) && !ByClient(e)
    ensures Kinds(iface, Apply(iface, s, e))
  {
    if Takes(e) || e.ServerReturns? {
      KindsKeptByTaking(iface, s, e);
    } else {
      KindsKeptBySending(iface, s, e);
    }
  }

  lemma KindsKeptByTaking(iface: Interface, s: State, e: Effect)
    requires Kinds(iface, s) && Possible(s, e) && Sound(iface, s, e) && (Takes(e) || e.ServerReturns?)
    ensures Kinds(iface, Apply(iface, s, e))
  {
    if e.ServerTakes? {
      KindsKeptByTakingBuffered(iface, s, e.k);
    }
  }

  lemma KindsKeptByTakingBuffered(iface: Interface, s: State, k: nat)
    requires Kinds(iface, s) && Possible(s, ServerTakes(k)) && Sound(iface, s, ServerTakes(k))
    ensures Kinds(iface, Apply(iface, s, ServerTakes(k)))
  {
  }

  lemma KindsKeptBySending(iface: Interface, s: State, e: Effect)
    requires Kinds(iface, s) && Modes(iface, s) && Possible(s, e) && Sound(iface, s, e)
    requires !ByClient(e) && !Takes(e) && !e.ServerReturns?
    ensures Kinds(iface, Apply(iface, s, e))
  {
  }

  lemma KindsKept(iface: Interface, s: State, e: Effect)
    requires Kinds(iface, s) && Modes(iface, s) && Possible(s, e) && Sound(iface, s, e)
    ensures Kinds(iface, Apply(iface, s, e))
  {
    if ByClient(e) {
      KindsKeptByClient(iface, s, e);
    } else {
      KindsKeptByServer(iface, s, e);
    }
  }

  lemma SerialsKeptByClient(iface: Interface, s: State, e: Effect)
    requires Serials(s) && Possible(s, e) && Sound(iface, s, e) && ByClient(e)
    ensures Serials(Apply(iface, s, e))
  {
  }

  lemma SerialsKept(iface: Interface, s: State, e: Effect)
    requires Serials(s) && Possible(s, e) && Sound(iface, s, e)
    ensures Serials(Apply(iface, s, e))
  {
    if ByClient(e) {
      SerialsKeptByClient(iface, s, e);
    }
  }

  lemma HandshakeKeptByClient(iface: Interface, s: State, e: Effect)
    requires Handshake(s) && FirstIsVerify(s) && Possible(s, e) && Sound(iface, s, e) && ByClient(e)
    ensures Handshake(Apply(iface, s, e))
  {
  }

  lemma HandshakeKeptByServer(iface: Interface, s: State, e: Effect)
    requires Handshake(s) && FirstIsVerify(s) && Possible(s, e) && Sound(iface, s, e) && !ByClient(e)
    ensures Handshake(Apply(iface, s, e))
  {
  }

  lemma HandshakeKept(iface: Interface, s: State, e: Effect)
    requires Handshake(s) && FirstIsVerify(s) && Possible(s, e) && Sound(iface, s, e)
    ensures Handshake(Apply(iface, s, e))
  {
    if ByClient(e) {
      HandshakeKeptByClient(iface, s, e);
    } else {
      HandshakeKeptByServer(iface, s, e);
    }
  }

  lemma FirstIsVerifyKept(iface: Interface, s: State, e: Effect)
    requires Handshake(s) && FirstIsVerify(s) && Possible(s, e) && Sound(iface, s, e)
    ensures FirstIsVerify(Apply(iface, s, e))
  {
    if ByClient(e) {
      SentByServerOnly(iface, s, e);
    } else {
      FirstIsVerifyKeptByServer(iface, s, e);
    }
  }

  lemma SentByServerOnly(iface: Interface, s: State, e: Effect)
    requires Possible(s, e) && ByClient(e)
    ensures Apply(iface, s, e).serverSent == s.serverSent && Apply(iface, s, e).server == s.server
  {
  }

  lemma FirstIsVerifyKeptByServer(iface: Interface, s: State, e: Effect)
    requires Handshake(s) && FirstIsVerify(s) && Possible(s, e) && Sound(iface, s, e) && !ByClient(e)
    ensures FirstIsVerify(Apply(iface, s, e))
  {
  }

  lemma {:induction false} NoneCounted(iface: Interface, ms: seq<Message>)
    ensures SyncCount(iface, ms) == 0 <==> forall i | 0 <= i < |ms| :: !OfSyncCall(iface, ms[i])
  {
    if ms != [] {
      NoneCounted(iface, ms[1..]);
      assert forall i | 1 <= i < |ms| :: ms[i] == ms[1..][i - 1];
    }
  }

  lemma OneCallKeptByClient(iface: Interface, s: State, e: Effect)
    requires OneCallAtATime(iface, s) && Possible(s, e) && Sound(iface, s, e) && ByClient(e)
    ensures OneCallAtATime(iface, Apply(iface, s, e))
  {
    match e
    case SendVerify => SyncCountAppend(iface, s.toServer, Message(Verify, s.serial, 0));
    case SendCall(name, payload) => SyncCountAppend(iface, s.toServer, Message(Request(name), s.serial, payload));
    case SendSyncCall(name, payload) => OneCallBegun(iface, s, name, payload);
    case _ =>
  }

  lemma OneCallBegun(iface: Interface, s: State, name: string, payload: int)
    requires OneCallAtATime(iface, s) && Sound(iface, s, SendSyncCall(name, payload))
    ensures OneCallAtATime(iface, Apply(iface, s, SendSyncCall(name, payload)))
  {
    SyncCountAppend(iface, s.toServer, Message(Request(name), s.serial, payload));
    NoneCounted(iface, s.toServer);
    NoneCounted(iface, s.server.handlers);
    NoneCounted(iface, s.toClient);
  }

  lemma OneCallKeptByStopping(iface: Interface, s: State)
    requires OneCallAtATime(iface, s) && Possible(s, ServerStops) && Sound(iface, s, ServerStops)
    ensures OneCallAtATime(iface, Apply(iface, s, ServerStops))
  {
  }

  lemma OneCallKeptByTaking(iface: Interface, s: State, e: Effect)
    requires OneCallAtATime(iface, s) && Possible(s, e) && Sound(iface, s, e) && Takes(e)
    ensures OneCallAtATime(iface, Apply(iface, s, e))
  {
    match e
    case ServerDispatches => SyncCountAppend(iface, s.server.handlers, s.toServer[0]);
    case ServerTakes(k) => SyncCountAppend(iface, s.server.handlers, s.server.buffer[k]);
    case ServerStops => OneCallKeptByStopping(iface, s);
    case _ =>
  }

  lemma OneCallKeptByServer(iface: Interface, s: State, e: Effect)
    requires OneCallAtATime(iface, s) && Possible(s, e) && Sound(iface, s, e) && !ByClient(e) && !Takes(e)
    ensures OneCallAtATime(iface, Apply(iface, s, e))
  {
    match e
    case SendUpcall(_, _) => OneCallKeptBySending(iface, s, e);
    case ServerAnswers => OneCallKeptBySending(iface, s, e);
    case ServerAnswersAndUpcalls(_) => OneCallKeptBySending(iface, s, e);
    case ServerReturns => OneCallKeptByReturning(iface, s);
    case ServerReplies(result) => OneCallAnswered(iface, s, result);
    case _ =>
  }

  lemma OneCallKeptBySending(iface: Interface, s: State, e: Effect)
    requires OneCallAtATime(iface, s) && Possible(s, e) && Sound(iface, s, e)
    requires e.SendUpcall? || e.ServerAnswers? || e.ServerAnswersAndUpcalls?
    ensures OneCallAtATime(iface, Apply(iface, s, e))
  {
    match e
    case SendUpcall(name, payload) => SyncCountAppend(iface, s.toClient, Message(Request(name), s.serial, payload));
    case ServerAnswers => SyncCountAppend(iface, s.toClient, Message(Verify, s.toServer[0].serial, 0));
    case ServerAnswersAndUpcalls(upcall) =>
      AppendTwo(iface, s.toClient, Message(Verify, s.toServer[0].serial, 0), upcall);
  }

  lemma OneCallKeptByReturning(iface: Interface, s: State)
    requires OneCallAtATime(iface, s) && Possible(s, ServerReturns) && Sound(iface, s, ServerReturns)
    ensures OneCallAtATime(iface, Apply(iface, s, ServerReturns))
  {
    DropLast(iface, s.server.handlers);
  }

  /** The reply takes the place of the request that was being served. */
  lemma OneCallAnswered(iface: Interface, s: State, result: int)
    requires OneCallAtATime(iface, s) && Possible(s, ServerReplies(result)) && Sound(iface, s, ServerReplies(result))
    ensures OneCallAtATime(iface, Apply(iface, s, ServerReplies(result)))
  {
    DropLast(iface, s.server.handlers);
    var m := s.server.handlers[|s.server.handlers| - 1];
    SyncCountAppend(iface, s.toClient, Message(Response(m.tag.name), m.serial, result));
  }

  /** Appending the answer to the verification and an upcall. */
  lemma AppendTwo(iface: Interface, ms: seq<Message>, reply: Message, upcall: Message)
    requires reply.tag.Verify? && OfAsyncCall(iface, upcall)
    ensures SyncCount(iface, ms + [reply, upcall]) == SyncCount(iface, ms)
    ensures Asyncs(iface, ms + [reply, upcall]) == Asyncs(iface, ms) + [upcall]
  {
    SyncCountAppend(iface, ms, reply);
    SyncCountAppend(iface, ms + [reply], upcall);
    AsyncsAppend(iface, ms, reply);
    AsyncsAppend(iface, ms + [reply], upcall);
    assert ms + [reply] + [upcall] == ms + [reply, upcall];
  }

  lemma DropLast(iface: Interface, ms: seq<Message>)
    requires ms != []
    ensures SyncCount(iface, ms)
      == SyncCount(iface, ms[..|ms| - 1]) + (if OfSyncCall(iface, ms[|ms| - 1]) then 1 else 0)
  {
    SyncCountAppend(iface, ms[..|ms| - 1], ms[|ms| - 1]);
    assert ms[..|ms| - 1] + [ms[|ms| - 1]] == ms;
  }

  lemma UpcallsKept(iface: Interface, s: State, e: Effect, m: Message)
    requires UpcallsAccounted(iface, s, m) && Possible(s, e) && Sound(iface, s, e)
    ensures UpcallsAccounted(iface, Apply(iface, s, e), m)
  {
    match e
    case SendUpcall(name, payload) =>
      Sent(iface, s.toClient, s.upcallsSent, Message(Request(name), s.serial, payload), m);
    case ServerAnswers => AsyncsAppend(iface, s.toClient, Message(Verify, s.toServer[0].serial, 0));
    case ServerAnswersAndUpcalls(upcall) =>
      AppendTwo(iface, s.toClient, Message(Verify, s.toServer[0].serial, 0), upcall);
      Sent(iface, s.toClient, s.upcallsSent, upcall, m);
      AsyncsAppend(iface, s.toClient, upcall);
    case ServerReplies(result) =>
      var h := s.server.handlers[|s.server.handlers| - 1];
      AsyncsAppend(iface, s.toClient, Message(Response(h.tag.name), h.serial, result));
    case ClientSaves =>
      Taken(iface, s.toClient, m);
      OccursAppend(s.client.buffer, s.toClient[0], m);
    case ClientDispatches =>
      Taken(iface, s.toClient, m);
      OccursAppend(s.upcallsDone, s.toClient[0], m);
    case ClientTakes(k) =>
      OccursExtract(s.client.buffer, k, m);
      OccursAppend(s.upcallsDone, s.client.buffer[k], m);
    case _ =>
  }

  /** Sending an asynchronous message adds it to the log and to the channel. */
  lemma Sent(iface: Interface, channel: seq<Message>, log: seq<Message>, x: Message, m: Message)
    requires OfAsyncCall(iface, x)
    ensures Occurs(log + [x], m) - Occurs(log, m)
      == Occurs(Asyncs(iface, channel + [x]), m) - Occurs(Asyncs(iface, channel), m)
  {
    AsyncsAppend(iface, channel, x);
    OccursAppend(log, x, m);
    OccursAppend(Asyncs(iface, channel), x, m);
  }

  /** Taking an asynchronous message from the front of a channel. */
  lemma Taken(iface: Interface, channel: seq<Message>, m: Message)
    requires channel != [] && OfAsyncCall(iface, channel[0])
    ensures Occurs(Asyncs(iface, channel), m)
      == (if channel[0] == m then 1 else 0) + Occurs(Asyncs(iface, channel[1..]), m)
  {
    assert ([channel[0]] + Asyncs(iface, channel[1..]))[1..] == Asyncs(iface, channel[1..]);
  }

  lemma CallsKept(iface: Interface, s: State, e: Effect, m: Message)
    requires CallsAccounted(iface, s, m) && Possible(s, e) && Sound(iface, s, e)
    ensures CallsAccounted(iface, Apply(iface, s, e), m)
  {
    match e
    case SendVerify => AsyncsAppend(iface, s.toServer, Message(Verify, s.serial, 0));
    case SendCall(name, payload) => Sent(iface, s.toServer, s.callsSent, Message(Request(name), s.serial, payload), m);
    case SendSyncCall(name, payload) => AsyncsAppend(iface, s.toServer, Message(Request(name), s.serial, payload));
    case ServerSaves =>
      Taken(iface, s.toServer, m);
      OccursAppend(s.server.buffer, s.toServer[0], m);
    case ServerDispatches =>
      if OfAsyncCall(iface, s.toServer[0]) {
        Taken(iface, s.toServer, m);
      }
      OccursAppend(s.callsDone, s.toServer[0], m);
    case ServerTakes(k) =>
      OccursExtract(s.server.buffer, k, m);
      OccursAppend(s.callsDone, s.server.buffer[k], m);
    case _ =>
  }

  // ----- the code acts soundly -----

  /** While a client waits for a reply, the next message is an upcall or the reply to its own call. */
  lemma HeadWhileAwaiting(iface: Interface, s: State)
    requires Inv(iface, s) && s.client.mode.AwaitingReply? && s.toClient != []
    ensures KindOf(iface, s.toClient[0].tag).UpcallRequest? ||
            (s.toClient[0].tag == Response(s.client.mode.call.tag.name)
              && s.toClient[0].serial == s.client.mode.call.serial)
  {
  }

  /** A client that is not waiting for a reply has none in its channel. */
  lemma NoReplyUnlessAwaiting(iface: Interface, s: State)
    requires Inv(iface, s) && !s.client.mode.AwaitingReply? && s.toClient != []
    ensures !KindOf(iface, s.toClient[0].tag).Reply?
  {
    NoneCounted(iface, s.toClient);
  }

  lemma ClientReceivesSoundly(iface: Interface, s: State)
    requires Inv(iface, s) && Enabled(iface, s, Receive(Client))
    ensures Sound(iface, s, EffectOf(iface, s, Receive(Client)))
  {
    ArmsByKind(iface, s.toClient[0].tag);
    if s.client.mode.AwaitingReply? {
      HeadWhileAwaiting(iface, s);
    } else {
      NoReplyUnlessAwaiting(iface, s);
    }
  }

  lemma ServerReceivesSoundly(iface: Interface, s: State)
    requires Kinds(iface, s) && Modes(iface, s) && Handshake(s) && Enabled(iface, s, Receive(Server))
    ensures Sound(iface, s, EffectOf(iface, s, Receive(Server)))
  {
    ArmsByKind(iface, s.toServer[0].tag);
  }

  lemma ActsSoundly(iface: Interface, s: State, step: Step)
    requires Kinds(iface, s) && Modes(iface, s) && Handshake(s) && Enabled(iface, s, step) && !step.Receive?
    ensures Sound(iface, s, EffectOf(iface, s, step))
  {
  }

  lemma StepKeepsInv(iface: Interface, s: State, step: Step)
    requires Inv(iface, s) && Enabled(iface, s, step)
    ensures Inv(iface, Next(iface, s, step))
  {
    var e := EffectOf(iface, s, step);
    if step == Receive(Client) {
      ClientReceivesSoundly(iface, s);
    } else if step == Receive(Server) {
      ServerReceivesSoundly(iface, s);
    } else {
      ActsSoundly(iface, s, step);
    }
    SoundEffectKeepsInv(iface, s, e);
  }

  lemma SoundEffectKeepsInv(iface: Interface, s: State, e: Effect)
    requires Inv(iface, s) && Possible(s, e) && Sound(iface, s, e)
    ensures Inv(iface, Apply(iface, s, e))
  {
    KindsKept(iface, s, e);
    ModesKept(iface, s, e);
    if ByClient(e) {
      OneCallKeptByClient(iface, s, e);
    } else if Takes(e) {
      OneCallKeptByTaking(iface, s, e);
    } else {
      OneCallKeptByServer(iface, s, e);
    }
    forall m ensures UpcallsAccounted(iface, Apply(iface, s, e), m) && CallsAccounted(iface, Apply(iface, s, e), m) {
      UpcallsKept(iface, s, e, m);
      CallsKept(iface, s, e, m);
    }
    FirstIsVerifyKept(iface, s, e);
    HandshakeKept(iface, s, e);
    SerialsKept(iface, s, e);
  }
}
