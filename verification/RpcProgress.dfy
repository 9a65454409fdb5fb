/** How the receive loop of a stub proceeds, and when a blocked call can still be answered. */
module RpcProgress {
  import opened RpcTypes
  import opened RpcEndpoint
  import opened RpcProtocol
  import opened RpcSafety
  import opened RpcRuns

  // ----- the loop in awaitResponse, step by step -----

  function Repeat(step: Step, n: nat): seq<Step> {
    seq(n, _ => step)
  }

  function PeerOf(s: State, side: Side): Peer {
    if side.Client? then s.client else s.server
  }

  function Incoming(s: State, side: Side): seq<Message> {
    if side.Client? then s.toClient else s.toServer
  }

  /** The side is inside `awaitResponse` for this tag: in `wait_for`, in the stub of a synchronous call, or in the
      client's constructor. */
  predicate Awaits(s: State, side: Side, target: Tag) {
    match PeerOf(s, side).mode
    case WaitingFor(tag) => tag == target
    case AwaitingReply(call) => side.Client? && call.tag.Request? && target == Response(call.tag.name)
    case AwaitingVerify => side.Client? && target == Verify
    case _ => false
  }

  /** The first messages of the channel are in the buffer. */
  function Saved(s: State, side: Side, k: nat): State
    requires k <= |Incoming(s, side)|
  {
    if side.Client? then
      s.(toClient := s.toClient[k..], client := s.client.(buffer := s.client.buffer + s.toClient[..k]))
    else
      s.(toServer := s.toServer[k..], server := s.server.(buffer := s.server.buffer + s.toServer[..k]))
  }

  /** What the side does with the message that ends the loop. */
  function Ends(iface: Interface, s: State, side: Side, outcome: Await): Effect
    requires !outcome.ReadFailed?
  {
    match outcome
    case BadRequest(_) => if side.Client? then ClientStops else ServerStops
    case Found(m) =>
      if PeerOf(s, side).mode.AwaitingReply? then ClientResumes
      else if PeerOf(s, side).mode.AwaitingVerify? then ClientVerified
      else if side.Client? then ClientSwitch(iface, m.tag)
      else ServerSwitch(iface, m.tag)
  }

  /** The loop takes the stream apart: what it saved, the message that ended it, and the rest. */
  lemma {:induction false} AwaitSplits(iface: Interface, side: Side, wire: seq<Message>, target: Tag)
    ensures var a := AwaitIn(iface, side, wire, target);
      match a.outcome
      case ReadFailed => wire == a.saved
      case Found(m) => wire == a.saved + ([m] + a.rest) && m.tag == target
      case BadRequest(m) =>
        wire == a.saved + ([m] + a.rest) && m.tag != target && !HasBufferCases(iface, side, m.tag)
  {
    if wire != [] {
      assert wire == [wire[0]] + wire[1..];
      if wire[0].tag != target && HasBufferCases(iface, side, wire[0].tag) {
        var a := AwaitIn(iface, side, wire[1..], target);
        AwaitSplits(iface, side, wire[1..], target);
        match a.outcome
        case ReadFailed =>
        case Found(m) => Prepend(wire[0], wire[1..], a.saved, [m] + a.rest);
        case BadRequest(m) => Prepend(wire[0], wire[1..], a.saved, [m] + a.rest);
      }
    }
    hide HasBufferCases;
  }

  lemma Prepend(first: Message, others: seq<Message>, saved: seq<Message>, end: seq<Message>)
    requires others == saved + end
    ensures [first] + others == ([first] + saved) + end
  {
  }

  lemma {:induction false} SavedAreOthers(iface: Interface, side: Side, wire: seq<Message>, target: Tag)
    ensures forall m <- AwaitIn(iface, side, wire, target).saved ::
      m.tag != target && HasBufferCases(iface, side, m.tag)
  {
    if wire != [] && wire[0].tag != target && HasBufferCases(iface, side, wire[0].tag) {
      SavedAreOthers(iface, side, wire[1..], target);
    }
    hide HasBufferCases;
  }

  lemma {:induction false} SaveOne(iface: Interface, s: State, side: Side, target: Tag)
    requires Awaits(s, side, target) && Incoming(s, side) != []
    requires Incoming(s, side)[0].tag != target && HasBufferCases(iface, side, Incoming(s, side)[0].tag)
    ensures Enabled(iface, s, Receive(side)) && Next(iface, s, Receive(side)) == Saved(s, side, 1)
  {
    assert Incoming(s, side)[..1] == [Incoming(s, side)[0]];
  }

  lemma {:induction false} Saving(iface: Interface, s: State, side: Side, target: Tag, k: nat)
    requires Awaits(s, side, target) && k <= |Incoming(s, side)|
    requires forall i | 0 <= i < k ::
      Incoming(s, side)[i].tag != target && HasBufferCases(iface, side, Incoming(s, side)[i].tag)
    ensures Legal(iface, s, Repeat(Receive(side), k))
    ensures After(iface, s, Repeat(Receive(side), k)) == Saved(s, side, k)
    decreases k
  {
    if k == 0 {
      assert PeerOf(s, side).buffer + [] == PeerOf(s, side).buffer;
    } else {
      SaveOne(iface, s, side, target);
      SavedInTurn(s, side, target, k);
      Saving(iface, Saved(s, side, 1), side, target, k - 1);
      assert Repeat(Receive(side), k)[1..] == Repeat(Receive(side), k - 1);
    }
    hide Saved, Next, Enabled, Awaits;
  }

  lemma {:induction false} SavedInTurn(s: State, side: Side, target: Tag, k: nat)
    requires Awaits(s, side, target) && 0 < k <= |Incoming(s, side)|
    ensures var t := Saved(s, side, 1);
      && Incoming(t, side) == Incoming(s, side)[1..] && Awaits(t, side, target)
      && Saved(t, side, k - 1) == Saved(s, side, k)
  {
    var wire := Incoming(s, side);
    assert PeerOf(s, side).buffer + wire[..1] + wire[1..][..k - 1] == PeerOf(s, side).buffer + wire[..k];
  }

  /** The loop in `awaitResponse` is a sequence of receive steps, on either side and for whatever it waits: taken one
      after the other they save what the loop saves, without starting a handler, and the next step, on the message that
      ends the loop, does what its outcome says and leaves the rest unread; there is none if the stream has ended. */
  lemma {:induction false} AwaitIsReceiving(iface: Interface, s: State, side: Side, target: Tag)
    requires Awaits(s, side, target)
    ensures var a := AwaitIn(iface, side, Incoming(s, side), target);
      && |a.saved| <= |Incoming(s, side)|
      && Legal(iface, s, Repeat(Receive(side), |a.saved|))
      && var t := After(iface, s, Repeat(Receive(side), |a.saved|));
         && t == Saved(s, side, |a.saved|) && a.saved == Incoming(s, side)[..|a.saved|]
         && (a.outcome.ReadFailed? <==> !Enabled(iface, t, Receive(side)))
         && (!a.outcome.ReadFailed? ==>
               && EffectOf(iface, t, Receive(side)) == Ends(iface, s, side, a.outcome)
               && Incoming(t, side)[1..] == a.rest)
  {
    var wire := Incoming(s, side);
    var a := AwaitIn(iface, side, wire, target);
    AwaitSplits(iface, side, wire, target);
    SavedAreOthers(iface, side, wire, target);
    var k := |a.saved|;
    assert wire[..k] == a.saved;
    assert forall i | 0 <= i < k :: wire[i] == a.saved[i];
    hide Legal, After, AwaitIn, Next, Enabled, EffectOf, Ends, Saved, Awaits, Repeat, HasBufferCases;
    Saving(iface, s, side, target, k);
    if !a.outcome.ReadFailed? {
      assert wire[k..] == [wire[k]] + a.rest;
    }
    LastStep(iface, s, side, target, k);
  }

  /** The step after k messages were saved. */
  lemma {:induction false} LastStep(iface: Interface, s: State, side: Side, target: Tag, k: nat)
    requires Awaits(s, side, target) && k <= |Incoming(s, side)|
    ensures var t, wire := Saved(s, side, k), Incoming(s, side);
      && Incoming(t, side) == wire[k..]
      && (Enabled(iface, t, Receive(side)) <==> k < |wire|)
      && (k < |wire| && wire[k].tag == target ==>
            EffectOf(iface, t, Receive(side)) == Ends(iface, s, side, Found(wire[k])))
      && (k < |wire| && wire[k].tag != target && !HasBufferCases(iface, side, wire[k].tag) ==>
            EffectOf(iface, t, Receive(side)) == Ends(iface, s, side, BadRequest(wire[k])))
  {
  }

  // ----- when a blocked call is answered -----

  /** Some continuation brings the client back from the call. */
  ghost predicate Resumes(iface: Interface, s: State) {
    exists more :: Legal(iface, s, more) && After(iface, s, more).client.mode.Running?
  }

  predicate HasReply(s: State) {
    && s.client.mode.AwaitingReply? && s.client.mode.call.tag.Request?
    && exists m <- s.toClient ::
         m.tag == Response(s.client.mode.call.tag.name) && m.serial == s.client.mode.call.serial
  }

  /** The client's own reply is on its way; or the server is in application or handler code, or reads a message in its
      loop, or waits for a message that it finds before one it cannot buffer. */
  predicate CanResume(iface: Interface, s: State) {
    || HasReply(s)
    || s.server.mode.Running?
    || (s.server.mode.Looping? && s.toServer != [])
    || (s.server.mode.WaitingFor? && AwaitIn(iface, Server, s.toServer, s.server.mode.target).outcome.Found?)
  }

  ghost predicate Blocked(iface: Interface, s: State) {
    Inv(iface, s) && s.client.mode.AwaitingReply?
  }

  lemma {:induction false} ResumesAfter(iface: Interface, s: State, step: Step)
    requires Enabled(iface, s, step) && Resumes(iface, Next(iface, s, step))
    ensures Resumes(iface, s)
  {
    var t := Next(iface, s, step);
    var more :| Legal(iface, t, more) && After(iface, t, more).client.mode.Running?;
    assert ([step] + more)[1..] == more;
    assert Legal(iface, s, [step] + more);
  }

  /** A blocked client and its server have verified the protocol. */
  lemma BlockedFacts(iface: Interface, s: State)
    requires Blocked(iface, s)
    ensures s.client.verified && NoVerify(s.toServer) && !s.server.mode.VerifyingFirst?
    ensures !s.server.mode.AwaitingReply? && !s.server.mode.AwaitingVerify?
    ensures s.client.mode.call.tag.Request?
    ensures forall m <- s.toServer :: KindOf(iface, m.tag).SyncRequest? || KindOf(iface, m.tag).AsyncRequest?
    ensures forall m <- s.server.handlers :: KindOf(iface, m.tag).SyncRequest? || KindOf(iface, m.tag).AsyncRequest?
  {
    forall m | m in s.toServer
      ensures KindOf(iface, m.tag).SyncRequest? || KindOf(iface, m.tag).AsyncRequest?
    {
      assert ToServerKind(KindOf(iface, m.tag)) && !m.tag.Verify?;
    }
  }

  /** The next message of a blocked client is its reply, or is saved. */
  lemma ClientSavesOrResumes(iface: Interface, s: State)
    requires Blocked(iface, s) && s.toClient != []
    ensures Enabled(iface, s, Receive(Client))
    ensures EffectOf(iface, s, Receive(Client))
      == if s.toClient[0].tag == Response(s.client.mode.call.tag.name) then ClientResumes else ClientSaves
  {
    HeadWhileAwaiting(iface, s);
    ArmsByKind(iface, s.toClient[0].tag);
  }

  lemma {:induction false} ReplyComes(iface: Interface, s: State)
    requires Blocked(iface, s) && HasReply(s)
    ensures Resumes(iface, s)
    decreases |s.toClient|
  {
    ClientSavesOrResumes(iface, s);
    var t := Next(iface, s, Receive(Client));
    if s.toClient[0].tag == Response(s.client.mode.call.tag.name) {
      assert Legal(iface, t, []) && After(iface, t, []).client.mode.Running?;
    } else {
      StepKeepsInv(iface, s, Receive(Client));
      var call := s.client.mode.call;
      var m :| m in s.toClient && m.tag == Response(call.tag.name) && m.serial == call.serial;
      assert m in t.toClient;
      ReplyComes(iface, t);
    }
    ResumesAfter(iface, s, Receive(Client));
  }

  lemma {:induction false} CountedReply(iface: Interface, s: State)
    requires Blocked(iface, s) && SyncCount(iface, s.toClient) != 0
    ensures HasReply(s)
  {
    NoneCounted(iface, s.toClient);
    var i :| 0 <= i < |s.toClient| && OfSyncCall(iface, s.toClient[i]);
    assert ToClientKind(KindOf(iface, s.toClient[i].tag)) && BelongsTo(s.toClient[i], s.client.mode.call);
    assert s.toClient[i] in s.toClient;
  }

  lemma HeadReply(iface: Interface, s: State)
    requires Blocked(iface, s) && s.toClient != []
    requires s.toClient[0].tag == Response(s.client.mode.call.tag.name)
    ensures HasReply(s)
  {
    HeadWhileAwaiting(iface, s);
    assert s.toClient[0] in s.toClient;
  }

  /** If the reply is not on its way and no handler is running, the request has not been read. */
  lemma RequestUnread(iface: Interface, s: State)
    requires Blocked(iface, s) && s.server.mode.Running? && !HasReply(s) && s.server.handlers == []
    ensures s.toServer != []
  {
    if SyncCount(iface, s.toClient) != 0 {
      CountedReply(iface, s);
    }
  }

  /** A server in its loop starts the handler of the next message. */
  lemma LoopDispatches(iface: Interface, s: State)
    requires Blocked(iface, s) && s.server.mode.Looping? && s.toServer != []
    ensures Enabled(iface, s, Receive(Server)) && EffectOf(iface, s, Receive(Server)) == ServerDispatches
  {
    BlockedFacts(iface, s);
    assert s.toServer[0] in s.toServer;
    ArmsByKind(iface, s.toServer[0].tag);
  }

  lemma ReturnShape(iface: Interface, s: State)
    requires s.server.mode.Running? && s.server.handlers != []
    ensures Enabled(iface, s, Return(Server, 0))
    ensures var t := Next(iface, s, Return(Server, 0));
      && t.client == s.client && t.server.mode.Running? && t.toServer == s.toServer
      && |t.server.handlers| < |s.server.handlers|
  {
  }

  lemma LoopShape(iface: Interface, s: State)
    requires s.server.mode.Running?
    ensures Enabled(iface, s, StartLoop(Server))
    ensures var t := Next(iface, s, StartLoop(Server));
      t.client == s.client && t.server.mode.Looping? && t.toServer == s.toServer
  {
  }

  /** A running server can finish its handlers, and then read on until it has served the call. */
  lemma {:induction false} RunningServes(iface: Interface, s: State)
    requires Blocked(iface, s) && s.server.mode.Running?
    ensures Resumes(iface, s)
    decreases |s.toServer|, |s.server.handlers| + 1
  {
    hide Inv, Resumes, Next, HasReply;
    if HasReply(s) {
      ReplyComes(iface, s);
    } else if s.server.handlers != [] {
      ReturnShape(iface, s);
      StepKeepsInv(iface, s, Return(Server, 0));
      RunningServes(iface, Next(iface, s, Return(Server, 0)));
      ResumesAfter(iface, s, Return(Server, 0));
    } else {
      RequestUnread(iface, s);
      LoopShape(iface, s);
      StepKeepsInv(iface, s, StartLoop(Server));
      LoopServes(iface, Next(iface, s, StartLoop(Server)));
      ResumesAfter(iface, s, StartLoop(Server));
    }
  }

  lemma {:induction false} LoopServes(iface: Interface, s: State)
    requires Blocked(iface, s) && s.server.mode.Looping? && s.toServer != []
    ensures Resumes(iface, s)
    decreases |s.toServer|, 0
  {
    LoopDispatches(iface, s);
    StepKeepsInv(iface, s, Receive(Server));
    RunningServes(iface, Next(iface, s, Receive(Server)));
    ResumesAfter(iface, s, Receive(Server));
    hide Resumes, Inv;
  }

  lemma {:induction false} WaitServes(iface: Interface, s: State)
    requires Blocked(iface, s) && s.server.mode.WaitingFor?
    requires AwaitIn(iface, Server, s.toServer, s.server.mode.target).outcome.Found?
    ensures Resumes(iface, s)
    decreases |s.toServer|
  {
    BlockedFacts(iface, s);
    assert s.toServer[0] in s.toServer;
    ArmsByKind(iface, s.toServer[0].tag);
    StepKeepsInv(iface, s, Receive(Server));
    var t := Next(iface, s, Receive(Server));
    if s.toServer[0].tag == s.server.mode.target {
      RunningServes(iface, t);
    } else {
      WaitServes(iface, t);
    }
    ResumesAfter(iface, s, Receive(Server));
    hide Resumes, Inv;
  }

  /** Otherwise nothing that can happen changes that. */
  lemma {:induction false} StuckStep(iface: Interface, s: State, step: Step)
    requires Blocked(iface, s) && !CanResume(iface, s) && Enabled(iface, s, step)
    ensures Next(iface, s, step).client.mode == s.client.mode && !CanResume(iface, Next(iface, s, step))
  {
    BlockedFacts(iface, s);
    if step == Receive(Client) {
      ClientSavesOrResumes(iface, s);
      if s.toClient[0].tag == Response(s.client.mode.call.tag.name) {
        HeadReply(iface, s);
      }
    }
    hide Inv, Blocked;
  }

  lemma {:induction false} StaysStuck(iface: Interface, s: State, more: seq<Step>)
    requires Blocked(iface, s) && !CanResume(iface, s) && Legal(iface, s, more)
    ensures After(iface, s, more).client.mode == s.client.mode
    decreases |more|
  {
    if more != [] {
      StuckStep(iface, s, more[0]);
      StepKeepsInv(iface, s, more[0]);
      StaysStuck(iface, Next(iface, s, more[0]), more[1..]);
    }
    hide Inv, CanResume;
  }

  /** In every reachable state with the client blocked in a synchronous call, some continuation brings it back if and
      only if the reply is on its way or the server can get to serve the call; otherwise it waits for ever. */
  lemma BlockedCallResumesIff(iface: Interface, run: seq<Step>)
    requires Legal(iface, INITIAL, run) && After(iface, INITIAL, run).client.mode.AwaitingReply?
    ensures var s := After(iface, INITIAL, run);
      && (Resumes(iface, s) <==> CanResume(iface, s))
      && (!CanResume(iface, s) ==>
            forall more | Legal(iface, s, more) :: After(iface, s, more).client.mode == s.client.mode)
  {
    var s := After(iface, INITIAL, run);
    ReachableInv(iface, run);
    if CanResume(iface, s) {
      Serves(iface, s);
    } else {
      forall more | Legal(iface, s, more)
        ensures After(iface, s, more).client.mode == s.client.mode
      {
        StaysStuck(iface, s, more);
      }
    }
  }

  lemma Serves(iface: Interface, s: State)
    requires Blocked(iface, s) && CanResume(iface, s)
    ensures Resumes(iface, s)
  {
    hide Resumes, Inv;
    if HasReply(s) {
      ReplyComes(iface, s);
    } else if s.server.mode.Running? {
      RunningServes(iface, s);
    } else if s.server.mode.Looping? {
      LoopServes(iface, s);
    } else {
      WaitServes(iface, s);
    }
  }

  /** A server that stops on a synchronous call blocks its client for ever. */
  lemma {:induction false} BlockedForEver()
    ensures var run := WAITED + [Receive(Server)];
      && Legal(EXAMPLE, INITIAL, run)
      && var s := After(EXAMPLE, INITIAL, run);
         && s.client.mode.AwaitingReply? && !CanResume(EXAMPLE, s)
         && forall step :: !Enabled(EXAMPLE, s, step)
  {
    WaitedRun();
    OneMore(EXAMPLE, INITIAL, WAITED, Receive(Server));
    hide Legal, After;
  }
}
