/** The receiving half of a generated class: the asynchronous buffer with its head index, `awaitResponse`,
    `wait_for`, `waitLoop` and `process_buffered`. */
module RpcEndpoint {
  import opened Options
  import opened RpcTypes

  /** What remains of a queue when the entry at `k` is taken out the way `delete_buffer` does: the last entry
      moves into the hole unless the hole is at either end. */
  function Extract(queue: seq<Message>, k: nat): (rest: seq<Message>)
    requires k < |queue|
    ensures |rest| == |queue| - 1
  {
    if k == 0 then queue[1..]
    else if k == |queue| - 1 then queue[..k]
    else queue[..k] + [queue[|queue| - 1]] + queue[k + 1..|queue| - 1]
  }

  lemma ExtractInside(queue: seq<Message>, k: nat)
    requires 0 < k < |queue| - 1
    ensures multiset(Extract(queue, k)) == multiset(queue) - multiset{queue[k]}
  {
    var last := |queue| - 1;
    var before, middle := queue[..k], queue[k + 1..last];
    assert queue == before + ([queue[k]] + (middle + [queue[last]]));
    assert Extract(queue, k) == before + ([queue[last]] + middle);
  }

  /** Exactly one occurrence of exactly that entry leaves, and at either end the others keep their order. */
  lemma ExtractRemovesOne(queue: seq<Message>, k: nat)
    requires k < |queue|
    ensures multiset(Extract(queue, k)) == multiset(queue) - multiset{queue[k]}
    ensures k == 0 || k == |queue| - 1 ==> Extract(queue, k) == queue[..k] + queue[k + 1..]
  {
    if 0 < k < |queue| - 1 {
      ExtractInside(queue, k);
    } else {
      assert queue == queue[..k] + ([queue[k]] + queue[k + 1..]);
      assert Extract(queue, k) == queue[..k] + queue[k + 1..];
    }
  }

  /** An entry in between is replaced by the last one, and the others keep their places. */
  lemma ExtractFillsHole(queue: seq<Message>, k: nat, j: nat)
    requires 0 < k < |queue| - 1 && j < |queue| - 1
    ensures Extract(queue, k)[j] == queue[if j == k then |queue| - 1 else j]
  {
    var last := |queue| - 1;
    assert Extract(queue, k) == queue[..k] + [queue[last]] + queue[k + 1..last];
  }

  datatype Await = Found(reply: Message) | ReadFailed | BadRequest(on: Message)

  datatype Awaited = Awaited(outcome: Await, rest: seq<Message>, saved: seq<Message>)

  /** What `awaitResponse` makes of an incoming stream. */
  function AwaitIn(iface: Interface, side: Side, wire: seq<Message>, target: Tag): Awaited {
    if wire == [] then Awaited(ReadFailed, [], [])
    else if wire[0].tag == target then Awaited(Found(wire[0]), wire[1..], [])
    else if HasBufferCases(iface, side, wire[0].tag) then
      var later := AwaitIn(iface, side, wire[1..], target);
      later.(saved := [wire[0]] + later.saved)
    else Awaited(BadRequest(wire[0]), wire[1..], [])
  }

  /** The first message that is the target or cannot be buffered decides, everything before it is buffered in
      order, and everything after it is left alone. */
  lemma {:induction false} AwaitTakesTheFirst(iface: Interface, side: Side, wire: seq<Message>, target: Tag, k: nat)
    requires k < |wire|
    requires forall i | 0 <= i < k :: wire[i].tag != target && HasBufferCases(iface, side, wire[i].tag)
    requires wire[k].tag == target || !HasBufferCases(iface, side, wire[k].tag)
    ensures AwaitIn(iface, side, wire, target) ==
            Awaited(if wire[k].tag == target then Found(wire[k]) else BadRequest(wire[k]), wire[k + 1..], wire[..k])
  {
    if k > 0 {
      AwaitTakesTheFirst(iface, side, wire[1..], target, k - 1);
      assert wire[..k] == [wire[0]] + wire[1..][..k - 1];
      assert wire[1..][k - 1 + 1..] == wire[k + 1..];
    }
  }

  /** The index of the first entry carrying a tag, which is where `wait_for` looks first. */
  ghost predicate FirstAt(queue: seq<Message>, tag: Tag, k: nat) {
    k < |queue| && queue[k].tag == tag && forall i | 0 <= i < k :: queue[i].tag != tag
  }

  class Endpoint {
    const iface: Interface
    const side: Side
    var items: seq<Message>   // async_buffer
    var head: nat
    var wire: seq<Message>    // what the peer has sent and this side has not read
    var failed: bool          // get_err_state() != igen_no_err

    ghost predicate Valid()
      reads this
    {
      && head <= |items|
      && (head == |items| ==> items == [])
      && forall m <- items :: HasBufferCases(iface, side, m.tag)
    }

    /** The abstract queue. */
    ghost function Queue(): seq<Message>
      requires Valid()
      reads this
    {
      items[head..]
    }

    constructor (iface: Interface, side: Side, wire: seq<Message>)
      ensures Valid() && Queue() == [] && !failed
      ensures this.iface == iface && this.side == side && this.wire == wire
    {
      this.iface, this.side, this.wire := iface, side, wire;
      items, head, failed := [], 0, false;
    }

    method BufferedRequests() returns (any: bool)
      requires Valid()
      ensures any <==> Queue() != []
    {
      any := |items| > 0;
    }

    method IsBuffered(tag: Tag) returns (found: bool)
      requires Valid()
      ensures found <==> exists m <- Queue() :: m.tag == tag
    {
      var size := |items|;
      for u := head to size
        invariant forall i | head <= i < u :: items[i].tag != tag
      {
        if items[u].tag == tag {
          assert items[u] == Queue()[u - head];
          return true;
        }
      }
      assert forall m <- Queue() :: m.tag != tag;
      return false;
    }

    /** The entry leaves the buffer before its handler runs; the result is what the handler is given. The
        `default` arm is never taken, because every saved tag has an arm. */
    method DeleteBuffer(index: nat) returns (item: Message)
      requires Valid() && head <= index < |items|
      modifies this`items, this`head
      ensures Valid()
      ensures item == old(items[index]) && HasBufferCases(iface, side, item.tag)
      ensures Queue() == Extract(old(Queue()), index - old(head))
      ensures items == [] ==> head == 0
    {
      ghost var queue, k := Queue(), index - head;
      var asize := |items|;
      item := items[index];
      var elemsLeft := asize - head - 1;
      if index == head {
        head := head + 1;
      } else if index == asize - 1 {
        items := items[..asize - 1];
      } else {
        items := items[index := items[asize - 1]];
        items := items[..asize - 1];
      }
      assert items[head..] == Extract(queue, k);
      if elemsLeft == 0 {
        head, items := 0, [];
      }
      assert (items == [] && head == 0) || elemsLeft == |items| - head;
    }

    /** `process_buffered()`: hand the oldest buffered message to its handler, or report that there is none. */
    method ProcessBuffered() returns (dispatched: Option<Message>)
      requires Valid()
      modifies this`items, this`head
      ensures Valid()
      ensures old(Queue()) == [] ==> dispatched == None && Queue() == []
      ensures old(Queue()) != [] ==> dispatched == Some(old(Queue()[0])) && Queue() == old(Queue())[1..]
    {
      if |items| == 0 {
        return None;
      }
      var item := DeleteBuffer(head);
      return Some(item);
    }

    method AwaitResponse(target: Tag) returns (outcome: Await)
      requires Valid() && !failed
      modifies this
      ensures Valid()
      ensures var a := AwaitIn(iface, side, old(wire), target);
              outcome == a.outcome && wire == a.rest && Queue() == old(Queue()) + a.saved
      ensures failed == !outcome.Found?
    {
      hide HasBufferCases;
      ghost var whole := AwaitIn(iface, side, wire, target);
      while true
        invariant Valid() && !failed
        invariant var left := AwaitIn(iface, side, wire, target);
                  whole.outcome == left.outcome && whole.rest == left.rest
                  && old(Queue()) + whole.saved == Queue() + left.saved
        decreases |wire|
      {
        ghost var queue := Queue();
        ghost var left := AwaitIn(iface, side, wire, target);
        if wire == [] {
          failed := true;
          return ReadFailed;
        }
        var m := wire[0];
        wire := wire[1..];
        if m.tag == target {
          return Found(m);
        }
        if !HasBufferCases(iface, side, m.tag) {
          failed := true;
          return BadRequest(m);
        }
        items := items + [m];
        ghost var later := AwaitIn(iface, side, wire, target);
        assert left == later.(saved := [m] + later.saved);
        hide AwaitIn;
        assert Queue() == queue + [m];
        assert queue + ([m] + later.saved) == (queue + [m]) + later.saved;
      }
    }

    /** `waitLoop`: read one message and hand it to `switch_on`. A verification request is answered by the
        server; a message without an arm is an error. */
    method WaitLoop() returns (dispatched: Option<Message>)
      requires Valid()
      modifies this`wire, this`failed
      ensures Valid()
      ensures old(failed) || old(wire) == [] ==> dispatched == None && failed && wire == old(wire)
      ensures !old(failed) && old(wire) != [] ==>
                var m := old(wire[0]);
                && wire == old(wire)[1..]
                && failed == !(HasRequestCase(iface, side, m.tag) || (side.Server? && m.tag.Verify?))
                && dispatched == if HasRequestCase(iface, side, m.tag) then Some(m) else None
    {
      dispatched := None;
      if failed {
        return;
      }
      if wire == [] {
        failed := true;
        return;
      }
      var m := wire[0];
      wire := wire[1..];
      dispatched := SwitchOn(m);
    }

    method SwitchOn(m: Message) returns (dispatched: Option<Message>)
      requires Valid() && !failed
      modifies this`failed
      ensures failed == !(HasRequestCase(iface, side, m.tag) || (side.Server? && m.tag.Verify?))
      ensures dispatched == if HasRequestCase(iface, side, m.tag) then Some(m) else None
    {
      dispatched := None;
      if side.Server? && m.tag.Verify? {
        return;
      }
      if HasRequestCase(iface, side, m.tag) {
        return Some(m);
      }
      failed := true;
    }

    /** `wait_for`: prefer the first buffered message with the tag, taking it out of the middle of the queue if
        need be; otherwise read until one arrives. */
    method WaitFor(tag: Tag) returns (dispatched: Option<Message>)
      requires Valid() && !failed
      modifies this
      ensures Valid()
      ensures forall k: nat | FirstAt(old(Queue()), tag, k) ::
                dispatched == Some(old(Queue())[k]) && Queue() == Extract(old(Queue()), k)
                  && wire == old(wire) && !failed
      ensures (forall m <- old(Queue()) :: m.tag != tag) ==>
                var a := AwaitIn(iface, side, old(wire), tag);
                && wire == a.rest && Queue() == old(Queue()) + a.saved
                && failed == !(a.outcome.Found? && (HasRequestCase(iface, side, tag) || (side.Server? && tag.Verify?)))
                && dispatched == if a.outcome.Found? && HasRequestCase(iface, side, tag)
                                 then Some(a.outcome.reply) else None
    {
      hide HasBufferCases, HasRequestCase, AwaitIn, Extract;
      var size := |items|;
      for u := head to size
        invariant unchanged(this)
        invariant forall i | head <= i < u :: items[i].tag != tag
      {
        if items[u].tag == tag {
          assert FirstAt(Queue(), tag, u - head);
          var item := DeleteBuffer(u);
          return Some(item);
        }
      }
      assert forall m <- Queue() :: m.tag != tag;
      dispatched := ReadUntil(tag);
    }

    /** The rest of `wait_for`: awaiting the tag and dispatching what was found. */
    method ReadUntil(tag: Tag) returns (dispatched: Option<Message>)
      requires Valid() && !failed
      modifies this
      ensures Valid()
      ensures var a := AwaitIn(iface, side, old(wire), tag);
        && wire == a.rest && Queue() == old(Queue()) + a.saved
        && failed == !(a.outcome.Found? && (HasRequestCase(iface, side, tag) || (side.Server? && tag.Verify?)))
        && dispatched == if a.outcome.Found? && HasRequestCase(iface, side, tag)
                         then Some(a.outcome.reply) else None
    {
      hide HasBufferCases, HasRequestCase, AwaitIn;
      AwaitFindsTarget(iface, side, wire, tag);
      var outcome := AwaitResponse(tag);
      if !outcome.Found? {
        return None;
      }
      dispatched := SwitchOn(outcome.reply);
    }
  }

  lemma {:induction false} AwaitFindsTarget(iface: Interface, side: Side, wire: seq<Message>, target: Tag)
    ensures var a := AwaitIn(iface, side, wire, target); a.outcome.Found? ==> a.outcome.reply.tag == target
  {
    if wire != [] && wire[0].tag != target && HasBufferCases(iface, side, wire[0].tag) {
      AwaitFindsTarget(iface, side, wire[1..], target);
    }
  }
}
