/** What compiled timer functions do to a timer: which one runs, on which clock, and what it has measured. */
module MdlTimers {
  import opened Options
  import opened Snippets
  import opened MdlCompile

  datatype Kind = WallTime | ProcessTime

  /** The functions of the metric language that start and stop a timer of a kind. */
  function Starter(kind: Kind): string {
    match kind case WallTime => "startWallTimer" case ProcessTime => "startProcessTimer"
  }

  function Stopper(kind: Kind): string {
    match kind case WallTime => "stopWallTimer" case ProcessTime => "stopProcessTimer"
  }

  /** The clock that a timer of the kind goes by: with threads, process time is the running thread's. */
  function Now(kind: Kind, multithreaded: bool, m: Machine): int {
    match kind
    case WallTime => m.wall
    case ProcessTime => if multithreaded then m.threadCpu else m.cpu
  }

  /** Only this timer differs. */
  predicate OnlyTimer(before: Machine, after: Machine, node: Node) {
    && after == before.(timers := after.timers)
    && after.timers - {Slot(before, node)} == before.timers - {Slot(before, node)}
  }

  lemma {:induction false} CompiledTimer(func: string, arg: Expr, c: Context, m: Machine)
    requires Compile(Func(func, [arg]), c).Some? && CommandOf(func, c.multithreaded).Some?
    ensures Target(arg, c).Some?
    ensures Run(Compile(Func(func, [arg]), c).value, m)
      == Obeyed(m, CommandOf(func, c.multithreaded).value, Target(arg, c).value)
  {
    hide CommandOf, CallTimer, Obeyed;
    RoutineObeys(func, c.multithreaded, Node("", false), m);
    RoutineObeys(func, c.multithreaded, Target(arg, c).value, m);
  }

  /** Compiled code that starts a timer leaves it running: if it was idle, from the present reading of the kind's clock,
      with what it had measured; if it was running, one start deeper. Nothing else changes. */
  lemma {:induction false} StartRuns(kind: Kind, arg: Expr, c: Context, m: Machine)
    requires Compile(Func(Starter(kind), [arg]), c).Some?
    ensures Target(arg, c).Some?
    ensures var node, r := Target(arg, c).value, Run(Compile(Func(Starter(kind), [arg]), c).value, m);
      && r.Some? && OnlyTimer(m, r.value.machine, node)
      && var was, t := TimerAt(m, node), TimerAt(r.value.machine, node);
         && t.counter == was.counter + 1 && t.total == was.total
         && t.start == if was.counter == 0 then Now(kind, c.multithreaded, m) else was.start
  {
    hide Compile, Run;
    CompiledTimer(Starter(kind), arg, c, m);
  }

  /** Compiled code that stops a timer undoes one start: the first one's stop adds the time since then on the kind's
      clock, and leaves the timer idle; an idle timer stays as it is. A process's or thread's clock that went back
      aborts the application. */
  lemma {:induction false} StopStops(kind: Kind, arg: Expr, c: Context, m: Machine)
    requires Compile(Func(Stopper(kind), [arg]), c).Some?
    ensures Target(arg, c).Some?
    ensures var node, r := Target(arg, c).value, Run(Compile(Func(Stopper(kind), [arg]), c).value, m);
      var was, now := TimerAt(m, node), Now(kind, c.multithreaded, m);
      && (r.None? <==> kind.ProcessTime? && was.counter == 1 && now < was.start)
      && (r.Some? ==>
            && OnlyTimer(m, r.value.machine, node)
            && var t := TimerAt(r.value.machine, node);
               && t.counter == (if was.counter == 0 then 0 else was.counter - 1)
               && t.total == was.total + (if was.counter == 1 then now - was.start else 0))
  {
    hide Compile, Run;
    CompiledTimer(Stopper(kind), arg, c, m);
  }

  /** Starting an idle timer on one machine and stopping it on a later one, at which it still stands as it was left,
      measures the time in between on the clock of its kind. */
  lemma {:induction false} Measures(kind: Kind, arg: Expr, c: Context, m: Machine, later: Machine)
    requires Compile(Func(Starter(kind), [arg]), c).Some? && Compile(Func(Stopper(kind), [arg]), c).Some?
    requires Target(arg, c).Some? && TimerAt(m, Target(arg, c).value).counter == 0
    requires Run(Compile(Func(Starter(kind), [arg]), c).value, m).Some?
    requires var started := Run(Compile(Func(Starter(kind), [arg]), c).value, m).value.machine;
      TimerAt(later, Target(arg, c).value) == TimerAt(started, Target(arg, c).value)
    requires Now(kind, c.multithreaded, m) <= Now(kind, c.multithreaded, later)
    ensures var node, r := Target(arg, c).value, Run(Compile(Func(Stopper(kind), [arg]), c).value, later);
      && r.Some? && TimerAt(r.value.machine, node).counter == 0
      && TimerAt(r.value.machine, node).total == TimerAt(m, node).total
         + (Now(kind, c.multithreaded, later) - Now(kind, c.multithreaded, m))
  {
    hide Compile, Run, OnlyTimer;
    StartRuns(kind, arg, c, m);
    StopStops(kind, arg, c, later);
  }
}
