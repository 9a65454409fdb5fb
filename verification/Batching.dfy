/** Batches of samples and traces: a sample is written after the buffer was flushed if need be, a trace before. */
module Batching {

  // ----- both buffers -----

  /** The batches sent so far, the entries waiting, and whether a burst has completed. */
  datatype Buffer<E> = Buffer(batches: seq<seq<E>>, pending: seq<E>, burst: bool)

  function Flat<E>(batches: seq<seq<E>>): seq<E> {
    if batches == [] then [] else Flat(batches[..|batches| - 1]) + batches[|batches| - 1]
  }

  /** Everything submitted, in order, whether sent or not. */
  function Submitted<E>(b: Buffer<E>): seq<E> {
    Flat(b.batches) + b.pending
  }

  /** Flushing an empty buffer does nothing, and leaves the burst flag. */
  function Flushed<E>(b: Buffer<E>): Buffer<E> {
    if b.pending == [] then b else Buffer(b.batches + [b.pending], [], false)
  }

  function AfterSample<E>(b: Buffer<E>, size: nat, e: E): Buffer<E> {
    var ready := if |b.pending| >= size || b.burst then Flushed(b) else b;
    ready.(pending := ready.pending + [e])
  }

  function AfterTrace<E>(b: Buffer<E>, size: nat, e: E): Buffer<E> {
    var written := b.(pending := b.pending + [e]);
    if |written.pending| >= size || written.burst then Flushed(written) else written
  }

  datatype Op<E> = Submit(e: E) | Flush | EndBurst

  function Step<E>(b: Buffer<E>, size: nat, trace: bool, op: Op<E>): Buffer<E> {
    match op
    case Submit(e) => if trace then AfterTrace(b, size, e) else AfterSample(b, size, e)
    case Flush => Flushed(b)
    case EndBurst => b.(burst := true)
  }

  function Run<E>(b: Buffer<E>, size: nat, trace: bool, ops: seq<Op<E>>): Buffer<E> {
    if ops == [] then b else Step(Run(b, size, trace, ops[..|ops| - 1]), size, trace, ops[|ops| - 1])
  }

  /** What sending at once would have sent. */
  function Entries<E>(ops: seq<Op<E>>): seq<E> {
    if ops == [] then []
    else if ops[|ops| - 1].Submit? then Entries(ops[..|ops| - 1]) + [ops[|ops| - 1].e]
    else Entries(ops[..|ops| - 1])
  }

  /** No batch is empty or larger than the buffer, and there is room for what waits: in the trace buffer, for one more
      entry. */
  predicate Bounded<E>(b: Buffer<E>, size: nat, trace: bool) {
    && (forall i | 0 <= i < |b.batches| :: 0 < |b.batches[i]| <= size)
    && |b.pending| <= size && (trace ==> |b.pending| < size)
  }

  lemma FlushKeeps<E>(b: Buffer<E>)
    ensures Submitted(Flushed(b)) == Submitted(b)
  {
    if b.pending != [] {
      assert (b.batches + [b.pending])[..|b.batches|] == b.batches;
    }
  }

  lemma SubmitKeeps<E>(b: Buffer<E>, e: E)
    ensures Submitted(b.(pending := b.pending + [e])) == Submitted(b) + [e]
  {
    assert Flat(b.batches) + (b.pending + [e]) == Submitted(b) + [e];
  }

  lemma BurstKeeps<E>(b: Buffer<E>)
    ensures Submitted(b.(burst := true)) == Submitted(b)
  {
  }

  /** Every operation adds what it submits and nothing else, and keeps the bounds. */
  lemma StepKeeps<E>(b: Buffer<E>, size: nat, trace: bool, op: Op<E>)
    requires size > 0 && Bounded(b, size, trace)
    ensures Submitted(Step(b, size, trace, op)) == Submitted(b) + (if op.Submit? then [op.e] else [])
    ensures Bounded(Step(b, size, trace, op), size, trace)
  {
    hide Flat, Submitted;
    FlushKeeps(b);
    match op
    case Submit(e) =>
      SubmitKeeps(b, e);
      SubmitKeeps(Flushed(b), e);
      FlushKeeps(b.(pending := b.pending + [e]));
    case Flush =>
    case EndBurst => BurstKeeps(b);
  }

  /** Batching refines sending at once: after any sequence of submissions, flushes and bursts, the batches sent and the
      entries waiting are the entries submitted, in order. */
  lemma {:induction false} BatchingRefines<E>(size: nat, trace: bool, ops: seq<Op<E>>)
    requires size > 0
    ensures var b := Run(Buffer([], [], false), size, trace, ops);
      Submitted(b) == Entries(ops) && Bounded(b, size, trace)
  {
    if ops != [] {
      var before := Run(Buffer([], [], false), size, trace, ops[..|ops| - 1]);
      BatchingRefines(size, trace, ops[..|ops| - 1]);
      StepKeeps(before, size, trace, ops[|ops| - 1]);
    }
  }

  /** An operation sends at most one batch, and exactly if there is something to send: when a flush is asked for, or at
      a submission when the buffer is full or a burst has completed. A sample's own submission does not send it, a
      trace's does; sending ends the burst. */
  lemma SendsExactly<E>(b: Buffer<E>, size: nat, trace: bool, op: Op<E>)
    ensures var after := Step(b, size, trace, op);
      var waiting := b.pending + (if trace && op.Submit? then [op.e] else []);
      var sends := waiting != [] && (op.Flush? || (op.Submit? && (|waiting| >= size || b.burst)));
      && after.batches == b.batches + (if sends then [waiting] else [])
      && after.pending == (if sends then [] else waiting) + (if !trace && op.Submit? then [op.e] else [])
      && (after.burst <==> op.EndBurst? || (b.burst && !sends))
  {
    assert b.batches + [] == b.batches && b.pending + [] == b.pending;
    match op
    case Submit(e) => assert (b.pending + [e]) + [] == b.pending + [e];
    case Flush =>
    case EndBurst =>
  }

  predicate Submits<E>(ops: seq<Op<E>>) {
    exists i | 0 <= i < |ops| :: ops[i].Submit?
  }

  /** What was submitted before a burst completed is sent once anything is submitted after it. */
  lemma {:induction false} BurstsAreSent<E>(size: nat, trace: bool, before: seq<Op<E>>, later: seq<Op<E>>)
    requires size > 0 && Submits(later)
    ensures Entries(before) <= Flat(Run(Buffer([], [], false), size, trace, before + [EndBurst] + later).batches)
  {
    BatchingRefines(size, trace, before);
    var b := Run(Buffer([], [], false), size, trace, before);
    AfterBurst(b, size, trace, later);
    assert (before + [EndBurst])[..|before|] == before;
    RunInTurn(Buffer([], [], false), size, trace, before + [EndBurst], later);
  }

  lemma {:induction false} RunInTurn<E>(b: Buffer<E>, size: nat, trace: bool, first: seq<Op<E>>, second: seq<Op<E>>)
    ensures Run(b, size, trace, first + second) == Run(Run(b, size, trace, first), size, trace, second)
  {
    if second == [] {
      assert first + second == first;
    } else {
      var last := |second| - 1;
      RunInTurn(b, size, trace, first, second[..last]);
      assert (first + second)[..|first + second| - 1] == first + second[..last];
    }
  }

  lemma {:induction false} AfterBurst<E>(b: Buffer<E>, size: nat, trace: bool, later: seq<Op<E>>)
    ensures var after := Run(b.(burst := true), size, trace, later);
      if Submits(later) then Submitted(b) <= Flat(after.batches)
      else Submitted(after) == Submitted(b) && (after.burst || after.pending == [])
  {
    if later == [] {
      BurstKeeps(b);
    } else {
      var prefix, op := later[..|later| - 1], later[|later| - 1];
      AfterBurst(b, size, trace, prefix);
      assert Submits(later) <==> Submits(prefix) || op.Submit? by {
        assert prefix + [op] == later;
      }
      var before := Run(b.(burst := true), size, trace, prefix);
      hide Run, Submits, Flat;
      SendsWhatWaits(before, size, trace, op);
    }
  }

  /** One step: batches stay, and a submission after a burst leaves nothing from before unsent. */
  lemma SendsWhatWaits<E>(b: Buffer<E>, size: nat, trace: bool, op: Op<E>)
    ensures var after := Step(b, size, trace, op);
      && Flat(b.batches) <= Flat(after.batches)
      && (op.Submit? && (b.burst || b.pending == []) ==> Submitted(b) <= Flat(after.batches))
      && (!op.Submit? ==> Submitted(after) == Submitted(b))
      && (!op.Submit? && (b.burst || b.pending == []) ==> after.burst || after.pending == [])
  {
    var after := Step(b, size, trace, op);
    SendsExactly(b, size, trace, op);
    hide Step;
    if after.batches != b.batches {
      var batch := after.batches[|b.batches|];
      assert after.batches[..|b.batches|] == b.batches && b.pending <= batch;
    }
  }

  // ----- the sample buffer -----

  type Entry = int

  class SampleBatcher {
    const theBatchBuffer: array<Entry>
    var batchBufferNext: nat
    var burstHasCompleted: bool
    var sent: seq<seq<Entry>>

    ghost predicate Valid()
      reads this, theBatchBuffer
    {
      theBatchBuffer.Length > 0 && batchBufferNext <= theBatchBuffer.Length
      && Bounded(Now(), theBatchBuffer.Length, false)
    }

    ghost function Now(): Buffer<Entry>
      requires batchBufferNext <= theBatchBuffer.Length
      reads this, theBatchBuffer
    {
      Buffer(sent, theBatchBuffer[..batchBufferNext], burstHasCompleted)
    }

    constructor (size: nat)
      requires size > 0
      ensures Valid() && fresh(theBatchBuffer) && theBatchBuffer.Length == size && Now() == Buffer([], [], false)
    {
      theBatchBuffer := new Entry[size](_ => 0);
      batchBufferNext, burstHasCompleted, sent := 0, false, [];
    }

    method FlushBatchBuffer()
      requires Valid()
      modifies this
      ensures Valid() && Now() == Flushed(old(Now()))
    {
      StepKeeps(Now(), theBatchBuffer.Length, false, Flush);
      if batchBufferNext == 0 {
        return;
      }
      var copyBatchBuffer := new Entry[batchBufferNext](_ => 0);
      var i := 0;
      while i < batchBufferNext
        invariant 0 <= i <= batchBufferNext
        invariant copyBatchBuffer[..i] == theBatchBuffer[..i]
        modifies copyBatchBuffer
      {
        copyBatchBuffer[i] := theBatchBuffer[i];
        i := i + 1;
      }
      assert copyBatchBuffer[..] == theBatchBuffer[..i];
      sent := sent + [copyBatchBuffer[..]];
      burstHasCompleted := false;
      batchBufferNext := 0;
    }

    /** Flushes a full buffer, or one that a burst has ended in, and then writes. */
    method BatchSampleData(e: Entry)
      requires Valid()
      modifies this, theBatchBuffer
      ensures Valid() && Now() == AfterSample(old(Now()), theBatchBuffer.Length, e)
    {
      StepKeeps(Now(), theBatchBuffer.Length, false, Submit(e));
      if batchBufferNext >= theBatchBuffer.Length || burstHasCompleted {
        FlushBatchBuffer();
      }
      theBatchBuffer[batchBufferNext] := e;
      batchBufferNext := batchBufferNext + 1;
    }
  }

  // ----- the trace buffer, and whose traces they are -----

  /** A trace, and the program it was recorded for, which the entry itself does not carry. */
  datatype Trace = Trace(program: int, record: Entry)

  const TRACE_BUFFER_SIZE := 10

  /** The trace buffer, and the program each batch was sent for. */
  datatype Traces = Traces(buffer: Buffer<Trace>, sentFor: seq<int>)

  const NO_TRACES := Traces(Buffer([], [], false), [])

  /** The submission fills the buffer, or a burst has completed. */
  predicate Flushes(b: Buffer<Trace>) {
    |b.pending| + 1 >= TRACE_BUFFER_SIZE || b.burst
  }

  /** A batch is sent for the program of the submission that flushes it. */
  function TraceStep(s: Traces, op: Op<Trace>, program: int): Traces {
    var b := Step(s.buffer, TRACE_BUFFER_SIZE, true, op);
    match op
    case Submit(t) => Traces(b, if Flushes(s.buffer) then s.sentFor + [t.program] else s.sentFor)
    case Flush => Traces(b, if s.buffer.pending != [] then s.sentFor + [program] else s.sentFor)
    case EndBurst => Traces(b, s.sentFor)
  }

  /** The trace buffer's own operations: its flush routine is called from nowhere else. */
  datatype TraceOp = Record(t: Trace) | CompleteBurst

  function OpOf(op: TraceOp): Op<Trace> {
    match op case Record(t) => Submit(t) case CompleteBurst => EndBurst
  }

  function RunTraces(ops: seq<TraceOp>): Traces {
    if ops == [] then NO_TRACES
    else TraceStep(RunTraces(ops[..|ops| - 1]), OpOf(ops[|ops| - 1]), 0)
  }

  /** What the front end is told: each record as of the program its batch was sent for. */
  function Reported(batches: seq<seq<Trace>>, sentFor: seq<int>): seq<Trace>
    requires |batches| == |sentFor|
  {
    if batches == [] then [] else
    var last := |batches| - 1;
    Reported(batches[..last], sentFor[..last]) + Relabelled(batches[last], sentFor[last])
  }

  function Relabelled(batch: seq<Trace>, program: int): seq<Trace> {
    seq(|batch|, i requires 0 <= i < |batch| => Trace(program, batch[i].record))
  }

  predicate AllOf(batch: seq<Trace>, program: int) {
    forall i | 0 <= i < |batch| :: batch[i].program == program
  }

  /** At each submission of the run that flushes, everything pending was submitted for the same program. */
  predicate FlushesAgree(ops: seq<TraceOp>) {
    ops == [] ||
    (FlushesAgree(ops[..|ops| - 1])
     && var before := RunTraces(ops[..|ops| - 1]).buffer;
        var op := ops[|ops| - 1];
        op.Record? && Flushes(before) ==> AllOf(before.pending, op.t.program))
  }

  /** Each batch has its program. */
  predicate Paired(s: Traces) {
    |s.buffer.batches| == |s.sentFor|
  }

  lemma TraceStepPairs(s: Traces, op: TraceOp)
    requires Paired(s)
    ensures var after := TraceStep(s, OpOf(op), 0);
      && Paired(after)
      && if op.Record? && Flushes(s.buffer) then
           && after.buffer.batches == s.buffer.batches + [s.buffer.pending + [op.t]]
           && after.sentFor == s.sentFor + [op.t.program]
         else
           after.buffer.batches == s.buffer.batches && after.sentFor == s.sentFor
  {
  }

  lemma RelabelledRight(batch: seq<Trace>, program: int)
    ensures Relabelled(batch, program) == batch <==> AllOf(batch, program)
  {
    if Relabelled(batch, program) == batch {
      assert forall i | 0 <= i < |batch| :: Relabelled(batch, program)[i].program == batch[i].program;
    }
  }

  lemma ReportedGrows(batches: seq<seq<Trace>>, sentFor: seq<int>, batch: seq<Trace>, program: int)
    requires |batches| == |sentFor|
    ensures Reported(batches + [batch], sentFor + [program]) == Reported(batches, sentFor) + Relabelled(batch, program)
    ensures Flat(batches + [batch]) == Flat(batches) + batch
  {
    assert (batches + [batch])[..|batches|] == batches && (sentFor + [program])[..|sentFor|] == sentFor;
  }

  lemma {:induction false} ReportedAsLong(batches: seq<seq<Trace>>, sentFor: seq<int>)
    requires |batches| == |sentFor|
    ensures |Reported(batches, sentFor)| == |Flat(batches)|
  {
    if batches != [] {
      ReportedAsLong(batches[..|batches| - 1], sentFor[..|batches| - 1]);
    }
  }

  /** Over any run, the front end is told exactly the traces that were sent, each with the program it was recorded for,
      if and only if at each submission that flushes everything pending is of that submission's program. */
  lemma {:induction false} ReportedRightIff(ops: seq<TraceOp>)
    ensures var s := RunTraces(ops);
      Paired(s) && (Reported(s.buffer.batches, s.sentFor) == Flat(s.buffer.batches) <==> FlushesAgree(ops))
  {
    if ops != [] {
      var prefix, op := ops[..|ops| - 1], ops[|ops| - 1];
      var s := RunTraces(prefix);
      ReportedRightIff(prefix);
      TraceStepPairs(s, op);
      if op.Record? && Flushes(s.buffer) {
        BatchReportedIff(s, op.t);
      }
    }
  }

  lemma {:induction false} BatchReportedIff(s: Traces, t: Trace)
    requires Paired(s)
    ensures var batches, sentFor := s.buffer.batches + [s.buffer.pending + [t]], s.sentFor + [t.program];
      (Reported(batches, sentFor) == Flat(batches))
      == (Reported(s.buffer.batches, s.sentFor) == Flat(s.buffer.batches) && AllOf(s.buffer.pending, t.program))
  {
    var batch := s.buffer.pending + [t];
    ReportedGrows(s.buffer.batches, s.sentFor, batch, t.program);
    ReportedAsLong(s.buffer.batches, s.sentFor);
    RelabelledRight(batch, t.program);
    assert AllOf(batch, t.program) <==> AllOf(s.buffer.pending, t.program) by {
      assert forall i | 0 <= i < |s.buffer.pending| :: batch[i] == s.buffer.pending[i];
    }
    SplitEqual(Reported(s.buffer.batches, s.sentFor), Relabelled(batch, t.program), Flat(s.buffer.batches), batch);
  }

  lemma SplitEqual<E>(a: seq<E>, b: seq<E>, c: seq<E>, d: seq<E>)
    requires |a| == |c|
    ensures a + b == c + d <==> a == c && b == d
  {
    if a + b == c + d {
      assert a == (a + b)[..|a|] == (c + d)[..|a|] == c;
      assert b == (a + b)[|a|..] == (c + d)[|a|..] == d;
    }
  }

  /** If all traces are submitted for one program, they are reported for it. */
  lemma {:induction false} OneProgramIsRight(ops: seq<TraceOp>, program: int)
    requires forall i | 0 <= i < |ops| && ops[i].Record? :: ops[i].t.program == program
    ensures FlushesAgree(ops) && AllOf(RunTraces(ops).buffer.pending, program)
  {
    if ops != [] {
      OneProgramIsRight(ops[..|ops| - 1], program);
    }
  }

  /** Two programs in one batch: the first one's trace is reported for the second. */
  lemma {:induction false} MixedBatch()
    ensures var ops := [Record(Trace(1, 5)), CompleteBurst, Record(Trace(0, 6))];
      var s := RunTraces(ops);
      && s.buffer.batches == [[Trace(1, 5), Trace(0, 6)]] && s.sentFor == [0]
      && Reported(s.buffer.batches, s.sentFor) == [Trace(0, 5), Trace(0, 6)]
  {
    var a, b, c := Record(Trace(1, 5)), CompleteBurst, Record(Trace(0, 6));
    assert [a][..0] == [] && [a, b][..1] == [a] && [a, b, c][..2] == [a, b];
    assert RunTraces([a]) == Traces(Buffer([], [Trace(1, 5)], false), []);
    assert RunTraces([a, b]) == Traces(Buffer([], [Trace(1, 5)], true), []);
    assert RunTraces([a, b, c]) == TraceStep(RunTraces([a, b]), Submit(c.t), 0);
    assert [Trace(1, 5)] + [Trace(0, 6)] == [Trace(1, 5), Trace(0, 6)];
    assert [] + [[Trace(1, 5), Trace(0, 6)]] == [[Trace(1, 5), Trace(0, 6)]];
    assert [] + [0] == [0];
    ReportedGrows([], [], [Trace(1, 5), Trace(0, 6)], 0);
  }

  /** Traces are sent by tens, or fewer when a burst has completed; and fewer than ten wait. Without a burst it is the
      tenth that sends. */
  lemma {:induction false} TracesByTen(ops: seq<TraceOp>)
    ensures var b := RunTraces(ops).buffer;
      |b.pending| < 10 && forall i | 0 <= i < |b.batches| :: 0 < |b.batches[i]| <= 10
    ensures ops != [] ==>
      var before, op := RunTraces(ops[..|ops| - 1]).buffer, ops[|ops| - 1];
      op.Record? && !before.burst ==>
        RunTraces(ops).buffer.batches
          == if |before.pending| == 9 then before.batches + [before.pending + [op.t]] else before.batches
  {
    if ops != [] {
      var before, op := RunTraces(ops[..|ops| - 1]).buffer, ops[|ops| - 1];
      TracesByTen(ops[..|ops| - 1]);
      assert Bounded(before, TRACE_BUFFER_SIZE, true);
      StepKeeps(before, TRACE_BUFFER_SIZE, true, OpOf(op));
      SendsExactly(before, TRACE_BUFFER_SIZE, true, OpOf(op));
    }
  }

  class TraceBatcher {
    const theTraceBatchBuffer: array<Trace>
    var traceBatchBufferNext: nat
    var traceBurstHasCompleted: bool
    var sent: seq<seq<Trace>>
    /** The program each batch is sent for. */
    var sentFor: seq<int>

    ghost predicate Valid()
      reads this, theTraceBatchBuffer
    {
      theTraceBatchBuffer.Length == TRACE_BUFFER_SIZE && traceBatchBufferNext < TRACE_BUFFER_SIZE
      && Paired(Now()) && Bounded(Now().buffer, TRACE_BUFFER_SIZE, true)
    }

    ghost function Now(): Traces
      requires traceBatchBufferNext <= theTraceBatchBuffer.Length
      reads this, theTraceBatchBuffer
    {
      Traces(Buffer(sent, theTraceBatchBuffer[..traceBatchBufferNext], traceBurstHasCompleted), sentFor)
    }

    constructor ()
      ensures Valid() && fresh(theTraceBatchBuffer) && Now() == NO_TRACES
    {
      theTraceBatchBuffer := new Trace[TRACE_BUFFER_SIZE](_ => Trace(0, 0));
      traceBatchBufferNext, traceBurstHasCompleted, sent, sentFor := 0, false, [], [];
    }

    method FlushTraceBatchBuffer(program: int)
      requires theTraceBatchBuffer.Length == TRACE_BUFFER_SIZE && traceBatchBufferNext <= TRACE_BUFFER_SIZE
      modifies this
      ensures traceBatchBufferNext <= TRACE_BUFFER_SIZE && Now() == TraceStep(old(Now()), Flush, program)
    {
      if traceBatchBufferNext == 0 {
        return;
      }
      var copyTraceBatchBuffer := new Trace[traceBatchBufferNext](_ => Trace(0, 0));
      var i := 0;
      while i < traceBatchBufferNext
        invariant 0 <= i <= traceBatchBufferNext
        invariant copyTraceBatchBuffer[..i] == theTraceBatchBuffer[..i]
        modifies copyTraceBatchBuffer
      {
        copyTraceBatchBuffer[i] := theTraceBatchBuffer[i];
        i := i + 1;
      }
      assert copyTraceBatchBuffer[..] == theTraceBatchBuffer[..i];
      sent, sentFor := sent + [copyTraceBatchBuffer[..]], sentFor + [program];
      traceBurstHasCompleted := false;
      traceBatchBufferNext := 0;
    }

    /** Writes, and then flushes a full buffer, or one that a burst has ended in, for the program of this trace. */
    method BatchTraceData(t: Trace)
      requires Valid()
      modifies this, theTraceBatchBuffer
      ensures Valid() && Now() == TraceStep(old(Now()), Submit(t), 0)
    {
      ghost var before := Now();
      StepKeeps(before.buffer, TRACE_BUFFER_SIZE, true, Submit(t));
      TraceStepPairs(before, Record(t));
      theTraceBatchBuffer[traceBatchBufferNext] := t;
      traceBatchBufferNext := traceBatchBufferNext + 1;
      assert Now().buffer.pending == before.buffer.pending + [t];
      if traceBatchBufferNext >= TRACE_BUFFER_SIZE || traceBurstHasCompleted {
        FlushTraceBatchBuffer(t.program);
      }
    }
  }
}
