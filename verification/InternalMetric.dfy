/** Internal metrics: intervals forwarded from sample to sample, and pause time as the metric of completed pauses. */
module InternalMetric {
  import opened Options

  /** What the first sample of an instance counts as. */
  datatype Policy = ZeroFirst | SampleFirst

  datatype Interval = Interval(from: int, to: int, delta: int)

  /** An enabled instance, with the initial value and the intervals it passed on. */
  datatype Instance = Instance(
    lastSampleTime: int, cumulative: Option<int>, initial: Option<int>, forwarded: seq<Interval>)

  datatype Sample = Sample(time: int, value: int)

  function Updated(inst: Instance, policy: Policy, s: Sample): Instance {
    if inst.cumulative.None? then
      Instance(s.time, Some(s.value), Some(if policy.ZeroFirst? then 0 else s.value), inst.forwarded)
    else
      var delta := s.value - inst.cumulative.value;
      Instance(s.time, Some(inst.cumulative.value + delta), inst.initial,
               inst.forwarded + [Interval(inst.lastSampleTime, s.time, delta)])
  }

  function Enabled(startTime: int): Instance {
    Instance(startTime, None, None, [])
  }

  function AfterSamples(startTime: int, policy: Policy, samples: seq<Sample>): Instance {
    if samples == [] then Enabled(startTime)
    else Updated(AfterSamples(startTime, policy, samples[..|samples| - 1]), policy, samples[|samples| - 1])
  }

  function Sum(intervals: seq<Interval>): int {
    if intervals == [] then 0 else Sum(intervals[..|intervals| - 1]) + intervals[|intervals| - 1].delta
  }

  /** Sample times strictly increase. */
  predicate Increasing(samples: seq<Sample>) {
    forall i, j | 0 <= i < j < |samples| :: samples[i].time < samples[j].time
  }

  /** Each forwarded interval runs from one sample to the next. */
  ghost predicate Tiles(inst: Instance, samples: seq<Sample>) {
    && |inst.forwarded| == |samples| - 1
    && forall i | 0 <= i < |samples| - 1 ::
         inst.forwarded[i] == Interval(samples[i].time, samples[i + 1].time, samples[i + 1].value - samples[i].value)
  }

  /** From the first sample to the last the forwarded intervals leave no gap and do not overlap; and the initial value
      plus what was forwarded is the last sample, less the first one under the zero policy. */
  lemma {:induction false} Conserved(startTime: int, policy: Policy, samples: seq<Sample>)
    requires samples != [] && Increasing(samples)
    ensures var inst := AfterSamples(startTime, policy, samples);
      var first, last := samples[0], samples[|samples| - 1];
      && Tiles(inst, samples)
      && inst.lastSampleTime == last.time && inst.cumulative == Some(last.value)
      && inst.initial == Some(if policy.ZeroFirst? then 0 else first.value)
      && inst.initial.value + Sum(inst.forwarded)
        == (if policy.ZeroFirst? then last.value - first.value else last.value)
  {
    var last := |samples| - 1;
    var before := samples[..last];
    OneMore(startTime, policy, samples);
    if last > 0 {
      assert Increasing(before);
      hide Tiles, Updated, Sum, AfterSamples, Increasing;
      Conserved(startTime, policy, before);
      OneMoreInterval(AfterSamples(startTime, policy, before), policy, before, samples[last]);
      assert before + [samples[last]] == samples;
    }
  }

  lemma OneMore(startTime: int, policy: Policy, samples: seq<Sample>)
    requires samples != []
    ensures var last := |samples| - 1;
      AfterSamples(startTime, policy, samples)
        == Updated(AfterSamples(startTime, policy, samples[..last]), policy, samples[last])
  {
  }

  lemma OneMoreInterval(inst: Instance, policy: Policy, before: seq<Sample>, s: Sample)
    requires before != [] && Tiles(inst, before)
    requires inst.lastSampleTime == before[|before| - 1].time && inst.cumulative == Some(before[|before| - 1].value)
    ensures Tiles(Updated(inst, policy, s), before + [s])
    ensures Sum(Updated(inst, policy, s).forwarded) == Sum(inst.forwarded) + (s.value - before[|before| - 1].value)
    ensures var after := Updated(inst, policy, s);
      after.lastSampleTime == s.time && after.cumulative == Some(s.value) && after.initial == inst.initial
  {
    var after := Updated(inst, policy, s);
    assert after.forwarded[..|inst.forwarded|] == inst.forwarded;
  }

  // ----- pauses -----

  /** The application's pause state: whether it is paused, since when, the time spent in pauses, and whether recording
      has begun. Times are counted from the epoch; at the start the application is paused since the epoch. */
  datatype Clock = Clock(appPause: bool, startPause: int, elapsed: int, recording: bool)

  const AT_START := Clock(true, 0, 0, false)

  function Paused(c: Clock, now: int): Clock {
    if c.appPause then c else c.(startPause := now, appPause := true)
  }

  function Running(c: Clock, now: int): Clock {
    if !c.appPause then c
    else if !c.recording || c.startPause <= 0 then c.(appPause := false)
    else c.(appPause := false, elapsed := c.elapsed + (now - c.startPause))
  }

  /** The pause_time metric. */
  function PauseTime(c: Clock, now: int): int {
    if !c.recording then 0 else c.elapsed + (if c.appPause then now - c.startPause else 0)
  }

  /** An instance of pause_time is enabled and disabled at any time; events before and after it go on without it. */
  datatype Event =
    | Pause(at: int)
    | Resume(at: int)
    | StartRecording(at: int)
    | Report(at: int, force: bool)
    | EnableInstance(at: int)
    | DisableInstance(at: int)

  datatype System = System(clock: Clock, lastReport: Option<int>, instance: Option<Instance>)

  /** Whether reportInternalMetrics gets as far as taking samples. */
  predicate Samples(s: System, rate: nat, e: Event) {
    && e.Report? && !s.clock.appPause && s.clock.recording
    && s.lastReport.Some? && (e.force || e.at >= s.lastReport.value + rate)
  }

  function Step(s: System, rate: nat, e: Event): System {
    match e
    case Pause(at) => s.(clock := Paused(s.clock, at))
    case Resume(at) => s.(clock := Running(s.clock, at))
    case StartRecording(_) => s.(clock := s.clock.(recording := true))
    case Report(at, _) =>
      if Samples(s, rate, e) then
        s.(lastReport := Some(at),
           instance := if s.instance.None? then None
                       else Some(Updated(s.instance.value, ZeroFirst, Sample(at, PauseTime(s.clock, at)))))
      else if !s.clock.appPause && s.clock.recording && s.lastReport.None? then s.(lastReport := Some(at))
      else s
    case EnableInstance(at) => if s.instance.None? then s.(instance := Some(Enabled(at))) else s
    case DisableInstance(_) => s.(instance := None)
  }

  function Run(rate: nat, events: seq<Event>): System {
    if events == [] then System(AT_START, None, None)
    else Step(Run(rate, events[..|events| - 1]), rate, events[|events| - 1])
  }

  // ----- what pauses there were -----

  datatype Mode = NotStarted | PausedSince(at: int) | IsRunning

  function ModeOf(events: seq<Event>): Mode {
    if events == [] then NotStarted else
    var before := ModeOf(events[..|events| - 1]);
    match events[|events| - 1]
    case Pause(at) => if before.IsRunning? then PausedSince(at) else before
    case Resume(_) => IsRunning
    case _ => before
  }

  predicate Recording(events: seq<Event>) {
    exists i | 0 <= i < |events| :: events[i].StartRecording?
  }

  /** The length of the pause that event k ends, if it ends one that counts: recording has begun, and the
      application was paused by an event. */
  function PauseEnded(events: seq<Event>, k: nat): int
    requires k < |events|
  {
    if events[k].Resume? && ModeOf(events[..k]).PausedSince? && Recording(events[..k])
    then events[k].at - ModeOf(events[..k]).at else 0
  }

  /** The total length of the pauses that the events from i on, and before j, end. */
  function PausesEnded(events: seq<Event>, i: nat, j: nat): int
    requires i <= j <= |events|
  {
    if i == j then 0 else PausesEnded(events, i, j - 1) + PauseEnded(events, j - 1)
  }

  /** The clock of the events strictly increases, after the epoch. */
  predicate ClockIncreases(events: seq<Event>) {
    && (forall i | 0 <= i < |events| :: events[i].at > 0)
    && (forall i, j | 0 <= i < j < |events| :: events[i].at < events[j].at)
  }

  lemma RecordingGrows(events: seq<Event>)
    requires events != []
    ensures Recording(events) <==> Recording(events[..|events| - 1]) || events[|events| - 1].StartRecording?
  {
    var last := |events| - 1;
    if i :| 0 <= i < |events| && events[i].StartRecording? && i < last {
      assert events[..last][i].StartRecording?;
    }
    if i :| 0 <= i < last && events[..last][i].StartRecording? {
      assert events[i].StartRecording?;
    }
  }

  lemma {:induction false} PausesOfPrefix(events: seq<Event>, n: nat, i: nat, j: nat)
    requires i <= j <= n <= |events|
    ensures PausesEnded(events[..n], i, j) == PausesEnded(events, i, j)
  {
    if i < j {
      PausesOfPrefix(events, n, i, j - 1);
      assert events[..n][..j - 1] == events[..j - 1];
    }
  }

  lemma {:induction false} PausesSplit(events: seq<Event>, i: nat, j: nat, k: nat)
    requires i <= j <= k <= |events|
    ensures PausesEnded(events, i, k) == PausesEnded(events, i, j) + PausesEnded(events, j, k)
  {
    if j < k {
      PausesSplit(events, i, j, k - 1);
    }
  }

  /** The elapsed pause time is the total of the completed pauses. */
  lemma {:induction false} ElapsedIsCompleted(rate: nat, events: seq<Event>)
    requires ClockIncreases(events)
    ensures var c := Run(rate, events).clock;
      && c.recording == Recording(events) && c.elapsed == PausesEnded(events, 0, |events|)
      && InMode(c, ModeOf(events))
  {
    if events != [] {
      var last := |events| - 1;
      var before := Run(rate, events[..last]);
      ElapsedIsCompleted(rate, events[..last]);
      RecordingGrows(events);
      PausesOfPrefix(events, last, 0, last);
      ClockStep(before, rate, events[last], ModeOf(events[..last]));
      hide Run, Recording, ClockIncreases, Step;
    }
  }

  /** The clock agrees with what pauses there were. */
  predicate InMode(c: Clock, mode: Mode) {
    match mode
    case NotStarted => c.appPause && c.startPause == 0
    case PausedSince(at) => c.appPause && c.startPause == at > 0
    case IsRunning => !c.appPause
  }

  lemma ClockStep(s: System, rate: nat, e: Event, mode: Mode)
    requires InMode(s.clock, mode) && e.at > 0
    ensures var c := Step(s, rate, e).clock;
      && c.recording == (s.clock.recording || e.StartRecording?)
      && c.elapsed == s.clock.elapsed
         + (if e.Resume? && mode.PausedSince? && s.clock.recording then e.at - mode.at else 0)
      && InMode(c, if e.Pause? && mode.IsRunning? then PausedSince(e.at) else if e.Resume? then IsRunning else mode)
  {
  }

  /** At any time, once recording has begun: the completed pauses, and the time since the one that goes on began. Before
      the application first runs it has been paused since the epoch. */
  lemma PauseTimeExactly(rate: nat, events: seq<Event>, now: int)
    requires ClockIncreases(events)
    ensures PauseTime(Run(rate, events).clock, now)
      == if !Recording(events) then 0 else
         PausesEnded(events, 0, |events|)
         + (match ModeOf(events) case NotStarted => now case PausedSince(at) => now - at case IsRunning => 0)
  {
    ElapsedIsCompleted(rate, events);
    hide Run, Recording, PausesEnded, ClockIncreases;
  }

  // ----- the samples of an instance -----

  /** When the instance that is enabled now was enabled. */
  function EnabledAt(rate: nat, events: seq<Event>): int {
    if events == [] then 0 else
    var before := events[..|events| - 1];
    match events[|events| - 1]
    case EnableInstance(at) => if Run(rate, before).instance.None? then at else EnabledAt(rate, before)
    case _ => EnabledAt(rate, before)
  }

  /** The positions of the reports at which it was sampled. */
  function Marks(rate: nat, events: seq<Event>): seq<nat> {
    if events == [] then [] else
    var last := |events| - 1;
    var before := Run(rate, events[..last]);
    if before.instance.None? || events[last].DisableInstance? then []
    else if Samples(before, rate, events[last]) then Marks(rate, events[..last]) + [last]
    else Marks(rate, events[..last])
  }

  // ----- when samples are taken -----

  /** A report that looks at the time: the application runs, and recording has begun. */
  predicate Looks(events: seq<Event>, k: nat)
    requires k < |events|
  {
    events[k].Report? && ModeOf(events[..k]).IsRunning? && Recording(events[..k])
  }

  /** The first report that looks at the time only sets the time base. From then on, one that does so takes samples if
      it is forced or at least the sampling interval after the last that did. */
  function Timed(rate: nat, events: seq<Event>): (ts: seq<nat>)
    ensures forall u | 0 <= u < |ts| :: ts[u] < |events|
  {
    if events == [] then [] else
    var last := |events| - 1;
    var before := Timed(rate, events[..last]);
    if Looks(events, last)
       && (before == [] || events[last].force || events[last].at >= events[before[|before| - 1]].at + rate)
    then before + [last] else before
  }

  /** Enabled before event k, and not disabled since. */
  predicate EnabledSince(events: seq<Event>, k: nat) {
    exists e | 0 <= e < k && e < |events| ::
      events[e].EnableInstance? && forall d | e < d < |events| :: !events[d].DisableInstance?
  }

  lemma {:induction false} EnabledGrows(events: seq<Event>, k: nat)
    requires events != [] && k < |events|
    ensures EnabledSince(events, k)
      <==> !events[|events| - 1].DisableInstance? && EnabledSince(events[..|events| - 1], k)
    ensures EnabledSince(events, |events|)
      <==> events[|events| - 1].EnableInstance?
           || (!events[|events| - 1].DisableInstance? && EnabledSince(events[..|events| - 1], |events| - 1))
  {
    var last := |events| - 1;
    var prefix := events[..last];
    assert forall i | 0 <= i < last :: prefix[i] == events[i];
    assert events[last].EnableInstance? ==> EnabledSince(events, |events|);
  }

  lemma LooksAtClock(rate: nat, events: seq<Event>)
    requires ClockIncreases(events) && events != []
    ensures var last := |events| - 1;
      var c := Run(rate, events[..last]).clock;
      Looks(events, last) <==> events[last].Report? && !c.appPause && c.recording
  {
    ElapsedIsCompleted(rate, events[..|events| - 1]);
    hide PausesEnded, Recording, ClockIncreases, ModeOf, Run;
  }

  lemma ReportStep(s: System, rate: nat, e: Event)
    ensures Step(s, rate, e).lastReport
      == if Samples(s, rate, e) || (e.Report? && !s.clock.appPause && s.clock.recording && s.lastReport.None?)
         then Some(e.at) else s.lastReport
  {
  }

  lemma {:induction false} TimedStep(rate: nat, events: seq<Event>)
    requires ClockIncreases(events) && events != []
    ensures ClockIncreases(events[..|events| - 1])
    ensures var last := |events| - 1;
      Timed(rate, events) == Timed(rate, events[..last]) || Timed(rate, events) == Timed(rate, events[..last]) + [last]
    ensures var last := |events| - 1;
      var before, timed := Run(rate, events[..last]), Timed(rate, events[..last]);
      before.lastReport == (if timed == [] then None else Some(events[timed[|timed| - 1]].at)) ==>
        && (Samples(before, rate, events[last]) <==> timed != [] && Timed(rate, events) == timed + [last])
        && Run(rate, events).lastReport
           == if Timed(rate, events) == timed then before.lastReport else Some(events[last].at)
  {
    LooksAtClock(rate, events);
    ReportStep(Run(rate, events[..|events| - 1]), rate, events[|events| - 1]);
    assert ClockIncreases(events[..|events| - 1]);
    hide Looks, ClockIncreases, Step;
  }

  /** The last report that got through, and whether this one takes samples. */
  lemma {:induction false} TimeBase(rate: nat, events: seq<Event>)
    requires ClockIncreases(events)
    ensures var timed := Timed(rate, events);
      Run(rate, events).lastReport == if timed == [] then None else Some(events[timed[|timed| - 1]].at)
    ensures events != [] ==>
      var timed := Timed(rate, events[..|events| - 1]);
      (Samples(Run(rate, events[..|events| - 1]), rate, events[|events| - 1])
       <==> timed != [] && Timed(rate, events) == timed + [|events| - 1])
  {
    assert Run(rate, []).lastReport == None && Timed(rate, []) == [];
    hide Run, Timed, Looks, ClockIncreases, Samples;
    if events != [] {
      var last := |events| - 1;
      var timed := Timed(rate, events[..last]);
      TimedStep(rate, events);
      TimeBase(rate, events[..last]);
      assert timed != [] ==> events[..last][timed[|timed| - 1]] == events[timed[|timed| - 1]];
    }
  }

  lemma {:induction false} EnabledInstance(rate: nat, events: seq<Event>)
    ensures Run(rate, events).instance.Some? <==> EnabledSince(events, |events|)
  {
    if events != [] {
      EnabledInstance(rate, events[..|events| - 1]);
      EnabledGrows(events, 0);
      hide EnabledSince;
    }
  }

  /** An instance is sampled exactly at the reports, since it was enabled, that take samples. */
  lemma {:induction false} SampledExactly(rate: nat, events: seq<Event>, k: nat)
    requires ClockIncreases(events)
    ensures k in Marks(rate, events)
      <==> Timed(rate, events) != [] && k in Timed(rate, events)[1..] && EnabledSince(events, k)
  {
    if events != [] {
      SampledExactly(rate, events[..|events| - 1], k);
      MarksIncrease(rate, events);
      OneMoreMark(rate, events, k);
    }
  }

  lemma {:induction false} OneMoreMark(rate: nat, events: seq<Event>, k: nat)
    requires ClockIncreases(events) && events != []
    requires var prefix := events[..|events| - 1];
      (k in Marks(rate, prefix)
       <==> Timed(rate, prefix) != [] && k in Timed(rate, prefix)[1..] && EnabledSince(prefix, k))
    ensures k in Marks(rate, events)
      <==> Timed(rate, events) != [] && k in Timed(rate, events)[1..] && EnabledSince(events, k)
  {
    var last := |events| - 1;
    var prefix := events[..last];
    MarksIncrease(rate, prefix);
    TimeBase(rate, events);
    EnabledInstance(rate, prefix);
    if k <= last {
      EnabledMonotone(prefix, k);
      EnabledGrows(events, k);
    }
    TimedGrows(rate, events, k);
    hide Run, Samples, Timed, EnabledSince, ClockIncreases;
  }

  lemma EnabledMonotone(events: seq<Event>, k: nat)
    requires k <= |events|
    ensures EnabledSince(events, k) ==> EnabledSince(events, |events|)
  {
  }

  lemma {:induction false} TimedGrows(rate: nat, events: seq<Event>, k: nat)
    requires events != []
    ensures var before, timed := Timed(rate, events[..|events| - 1]), Timed(rate, events);
      && (timed == before || timed == before + [|events| - 1]) && |events| - 1 !in before
      && (timed != [] && k in timed[1..] <==>
            (before != [] && k in before[1..]) || (before != [] && k == |events| - 1 && k in timed))
  {
    var before, timed := Timed(rate, events[..|events| - 1]), Timed(rate, events);
    if before != [] && timed != before {
      assert timed[1..] == before[1..] + [|events| - 1];
    }
    hide Looks;
  }

  /** A sample of pause_time at event k: the total of the pauses completed by then. */
  function PauseSample(events: seq<Event>, k: nat): Sample
    requires k < |events|
  {
    Sample(events[k].at, PausesEnded(events, 0, k))
  }

  function PauseSamples(events: seq<Event>, marks: seq<nat>): seq<Sample>
    requires forall i | 0 <= i < |marks| :: marks[i] < |events|
  {
    seq(|marks|, i requires 0 <= i < |marks| && marks[i] < |events| => PauseSample(events, marks[i]))
  }

  lemma {:induction false} MarksIncrease(rate: nat, events: seq<Event>)
    ensures forall i | 0 <= i < |Marks(rate, events)| :: Marks(rate, events)[i] < |events|
    ensures forall i, j | 0 <= i < j < |Marks(rate, events)| :: Marks(rate, events)[i] < Marks(rate, events)[j]
  {
    if events != [] {
      MarksIncrease(rate, events[..|events| - 1]);
    }
  }

  lemma SamplesOfPrefix(events: seq<Event>, n: nat, marks: seq<nat>)
    requires n <= |events| && forall i | 0 <= i < |marks| :: marks[i] < n
    ensures PauseSamples(events[..n], marks) == PauseSamples(events, marks)
  {
    forall i | 0 <= i < |marks|
      ensures PauseSample(events[..n], marks[i]) == PauseSample(events, marks[i])
    {
      PausesOfPrefix(events, n, 0, marks[i]);
    }
  }

  /** A report that samples adds the total of the pauses completed by then. */
  lemma {:induction false} OneMoreSample(rate: nat, events: seq<Event>, marks: seq<nat>, k: nat)
    requires ClockIncreases(events) && k == |events| - 1 && Samples(Run(rate, events[..k]), rate, events[k])
    requires forall i | 0 <= i < |marks| :: marks[i] < k
    ensures PauseTime(Run(rate, events[..k]).clock, events[k].at) == PausesEnded(events, 0, k)
    ensures PauseSamples(events, marks + [k]) == PauseSamples(events[..k], marks) + [PauseSample(events, k)]
  {
    ElapsedIsCompleted(rate, events[..k]);
    PausesOfPrefix(events, k, 0, k);
    SamplesOfPrefix(events, k, marks);
  }

  /** Whenever an instance is enabled, it is what its samples make it, and they are the totals of the pauses
      completed by then. */
  lemma {:induction false} InstanceSamplesPauses(rate: nat, events: seq<Event>)
    requires ClockIncreases(events)
    ensures forall i | 0 <= i < |Marks(rate, events)| :: Marks(rate, events)[i] < |events|
    ensures Run(rate, events).instance.Some? ==>
      Run(rate, events).instance.value
        == AfterSamples(EnabledAt(rate, events), ZeroFirst, PauseSamples(events, Marks(rate, events)))
    ensures Run(rate, events).instance.None? ==> Marks(rate, events) == []
  {
    MarksIncrease(rate, events);
    if events != [] {
      var last := |events| - 1;
      var prefix, marks := events[..last], Marks(rate, events[..last]);
      InstanceSamplesPauses(rate, prefix);
      SamplesOfPrefix(events, last, marks);
      if Samples(Run(rate, prefix), rate, events[last]) && Run(rate, prefix).instance.Some? {
        OneMoreSample(rate, events, marks, last);
        var samples := PauseSamples(events, marks + [last]);
        assert samples[..|marks|] == PauseSamples(prefix, marks);
        hide PausesEnded;
      }
    }
  }

  /** For pause_time, whenever the instance was enabled: what it forwards over any run is the total of the pauses
      that end between its first sample and its last, in intervals that tile the time between them. */
  lemma {:induction false} PauseTimeConserved(rate: nat, events: seq<Event>)
    requires ClockIncreases(events) && Marks(rate, events) != []
    ensures forall i | 0 <= i < |Marks(rate, events)| :: Marks(rate, events)[i] < |events|
    ensures Run(rate, events).instance.Some?
    ensures var inst, marks := Run(rate, events).instance.value, Marks(rate, events);
      var first, last := marks[0], marks[|marks| - 1];
      && first <= last && inst.initial == Some(0)
      && Sum(inst.forwarded) == PausesEnded(events, first, last)
      && Tiles(inst, PauseSamples(events, marks))
  {
    MarksIncrease(rate, events);
    InstanceSamplesPauses(rate, events);
    var marks := Marks(rate, events);
    var samples := PauseSamples(events, marks);
    assert Increasing(samples);
    Conserved(EnabledAt(rate, events), ZeroFirst, samples);
    PausesSplit(events, 0, marks[0], marks[|marks| - 1]);
  }

  // ----- the instances and the clock of a daemon -----

  class EachInstance {
    const policy: Policy
    var lastSampleTime: int
    var cumulativeValue: Option<int>
    var initial: Option<int>
    var forwarded: seq<Interval>

    function Now(): Instance
      reads this
    {
      Instance(lastSampleTime, cumulativeValue, initial, forwarded)
    }

    constructor (policy: Policy, startTime: int)
      ensures Now() == Enabled(startTime) && this.policy == policy
    {
      this.policy := policy;
      lastSampleTime, cumulativeValue, initial, forwarded := startTime, None, None, [];
    }

    method UpdateValue(timeOfSample: int, value: int)
      requires cumulativeValue.Some? ==> timeOfSample > lastSampleTime
      modifies this
      ensures Now() == Updated(old(Now()), policy, Sample(timeOfSample, value))
    {
      if cumulativeValue.None? {
        cumulativeValue := Some(value);
        initial := Some(if policy.ZeroFirst? then 0 else value);
      } else {
        var delta := value - cumulativeValue.value;
        cumulativeValue := Some(cumulativeValue.value + delta);
        forwarded := forwarded + [Interval(lastSampleTime, timeOfSample, delta)];
      }
      lastSampleTime := timeOfSample;
    }
  }

  class Application {
    var appPause: bool
    var startPause: int
    var elapsedPauseTime: int
    var recording: bool

    function Now(): Clock
      reads this
    {
      Clock(appPause, startPause, elapsedPauseTime, recording)
    }

    constructor ()
      ensures Now() == AT_START
    {
      appPause, startPause, elapsedPauseTime, recording := true, 0, 0, false;
    }

    method MarkApplicationPaused(wallTime: int) returns (changed: bool)
      modifies this
      ensures Now() == Paused(old(Now()), wallTime) && changed == !old(appPause)
    {
      changed := !appPause;
      if changed {
        startPause := wallTime;
        appPause := true;
      }
    }

    /** Fails if the application was running, and if recording has not begun. */
    method MarkApplicationRunning(wallTime: int) returns (ok: bool)
      modifies this
      ensures Now() == Running(old(Now()), wallTime) && ok == (old(appPause) && recording)
    {
      if !appPause {
        return false;
      }
      appPause := false;
      if !recording {
        return false;
      }
      if startPause > 0 {
        elapsedPauseTime := elapsedPauseTime + (wallTime - startPause);
      }
      ok := true;
    }
  }

  class Instances {
    var instances: array<EachInstance?>
    var size: nat

    ghost predicate Valid()
      reads this
    {
      size <= instances.Length
    }

    ghost function Contents(): seq<EachInstance?>
      requires Valid()
      reads this, instances
    {
      instances[..size]
    }

    constructor (instances: array<EachInstance?>)
      ensures Valid() && this.instances == instances && Contents() == instances[..]
    {
      this.instances := instances;
      size := instances.Length;
    }

    /** Shifts the later instances one to the left. */
    method DisableInstance(index: nat)
      requires Valid() && index < size
      modifies this`size, instances
      ensures Valid() && Contents() == old(Contents())[..index] + old(Contents())[index + 1..]
    {
      var lcv := index;
      ghost var was := Contents();
      while lcv < size - 1
        invariant index <= lcv <= size - 1
        invariant forall k | 0 <= k < index || lcv <= k < size :: instances[k] == was[k]
        invariant forall k | index <= k < lcv :: instances[k] == was[k + 1]
        modifies instances
      {
        instances[lcv] := instances[lcv + 1];
        lcv := lcv + 1;
      }
      size := size - 1;
    }
  }
}
