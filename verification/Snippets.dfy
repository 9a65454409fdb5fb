/** The snippet language that metrics are compiled to: what running a snippet in the application does. */
module Snippets {
  import opened Options

  // ----- machine integers -----

  function Wrap32(n: int): (r: int)
    ensures -0x8000_0000 <= r < 0x8000_0000
    ensures -0x8000_0000 <= n < 0x8000_0000 ==> r == n
  {
    (n + 0x8000_0000) % 0x1_0000_0000 - 0x8000_0000
  }

  function Magnitude(n: int): nat {
    if n < 0 then -n else n
  }

  /** C division truncates toward zero. */
  function TruncDiv(a: int, b: int): int
    requires b != 0
  {
    var q := (if a < 0 then -a else a) / (if b < 0 then -b else b);
    if (a < 0) == (b < 0) then q else -q
  }

  /** The quotient is the one that leaves a remainder smaller than the divisor, with the sign of the dividend. */
  lemma {:induction false} TruncDivTruncates(a: int, b: int, q: int)
    requires b != 0
    ensures TruncDiv(a, b) == q
      <==> Magnitude(a - b * q) < Magnitude(b) && (a - b * q == 0 || (a - b * q < 0 <==> a < 0))
  {
    SignsOfProduct(b, q);
    var p := if (a < 0) == (b < 0) then q else -q;
    OnlyQuotient(Magnitude(a), Magnitude(b), p);
    assert Magnitude(b) * p == if a < 0 then -(b * q) else b * q;
    QuotientSigned(a, b, q, p);
  }

  lemma QuotientSigned(a: int, b: int, q: int, p: int)
    requires b != 0 && p == if (a < 0) == (b < 0) then q else -q
    ensures TruncDiv(a, b) == q <==> Magnitude(a) / Magnitude(b) == p
  {
  }

  lemma {:induction false} SignsOfProduct(b: int, q: int)
    ensures (-b) * (-q) == b * q && b * (-q) == -(b * q) && (-b) * q == -(b * q)
  {
  }

  lemma {:induction false} OnlyQuotient(n: nat, d: nat, p: int)
    requires d > 0
    ensures p == n / d <==> d * p <= n < d * p + d
  {
    var r := n / d;
    assert d * r <= n < d * r + d;
    if p < r {
      Monotone(d, p + 1, r);
    } else if r < p {
      Monotone(d, r + 1, p);
    }
  }

  lemma {:induction false} Monotone(d: nat, x: int, y: int)
    requires x <= y
    ensures d * x <= d * y
  {
    assert d * y - d * x == d * (y - x);
  }

  /** The 32-bit value is the one that differs by a multiple of 2 to the 32nd. */
  lemma Wrap32Congruent(n: int, r: int)
    ensures Wrap32(n) == r <==> -0x8000_0000 <= r < 0x8000_0000 && (n - r) % 0x1_0000_0000 == 0
  {
  }

  function Truth(b: bool): int {
    if b then 1 else 0
  }

  datatype ArithOp = Plus | Minus | Times | Divide

  datatype BoolOp = Lt | Gt | Le | Ge | Eq | Ne | And | Or

  /** Division by zero traps. */
  function Arithmetic(op: ArithOp, a: int, b: int): Option<int> {
    match op
    case Plus => Some(Wrap32(a + b))
    case Minus => Some(Wrap32(a - b))
    case Times => Some(Wrap32(a * b))
    case Divide => if b == 0 then None else Some(Wrap32(TruncDiv(a, b)))
  }

  function Logic(op: BoolOp, a: int, b: int): int {
    match op
    case Lt => Truth(a < b)
    case Gt => Truth(a > b)
    case Le => Truth(a <= b)
    case Ge => Truth(a >= b)
    case Eq => Truth(a == b)
    case Ne => Truth(a != b)
    case And => Truth(a != 0 && b != 0)
    case Or => Truth(a != 0 || b != 0)
  }

  // ----- snippets -----

  /** A counter or timer of the daemon; with threads, each thread has its own slot. */
  datatype Node = Node(name: string, perThread: bool)

  datatype Snippet =
    | Nop
    | Const(n: int)
    | Param(index: int)
    | ReturnValue
    | Data(node: Node)
    | Global(name: string)
    | Arith(aop: ArithOp, left: Snippet, right: Snippet)
    | Bool(bop: BoolOp, left: Snippet, right: Snippet)
    | SetData(node: Node, val: Snippet)
    | SetGlobal(name: string, val: Snippet)
    | Call(func: string, args: seq<Snippet>)
    | TimerCall(func: string, node: Node)
    | If(cond: Snippet, body: Snippet)
    | Sequence(first: Snippet, second: Snippet)

  /** The global variable of the run-time library that accumulates the observed cost. */
  const COST := "DYNINSTobsCostLow"

  datatype Event = Called(func: string, args: seq<int>) | Destroyed(name: string, slot: nat)

  /** A timer of the run-time library: how often it was started and not stopped, the reading of its clock at the first
      of these starts, and the time measured so far. */
  datatype Timer = Timer(counter: nat, start: int, total: int)

  /** The application as a snippet sees it. `wall`, `cpu` and `threadCpu` are the readings of the wall clock, of the
      process's clock and of the running thread's; `results` are the values that the functions called from now on will
      return, and `events` the calls made so far. */
  datatype Machine = Machine(
    thread: nat, params: map<int, int>, returned: int,
    data: map<(string, nat), int>, globals: map<string, int>,
    timers: map<(string, nat), Timer>, wall: int, cpu: int, threadCpu: int,
    results: seq<int>, events: seq<Event>)

  function Slot(m: Machine, node: Node): (string, nat) {
    (node.name, if node.perThread then m.thread else 0)
  }

  function DataAt(m: Machine, node: Node): int {
    if Slot(m, node) in m.data then m.data[Slot(m, node)] else 0
  }

  function GlobalAt(m: Machine, name: string): int {
    if name in m.globals then m.globals[name] else 0
  }

  function StoreData(m: Machine, node: Node, v: int): Machine {
    m.(data := m.data[Slot(m, node) := v])
  }

  function StoreGlobal(m: Machine, name: string, v: int): Machine {
    m.(globals := m.globals[name := v])
  }

  datatype Outcome = Outcome(machine: Machine, value: int)

  datatype Outcomes = Outcomes(machine: Machine, values: seq<int>)

  function CallFunction(m: Machine, func: string, args: seq<int>): Outcome {
    var after := m.(events := m.events + [Called(func, args)]);
    if m.results == [] then Outcome(after, 0) else Outcome(after.(results := m.results[1..]), m.results[0])
  }

  function TimerAt(m: Machine, node: Node): Timer {
    if Slot(m, node) in m.timers then m.timers[Slot(m, node)] else Timer(0, 0, 0)
  }

  function StoreTimer(m: Machine, node: Node, t: Timer): Machine {
    m.(timers := m.timers[Slot(m, node) := t])
  }

  /** The first start takes the clock's reading. */
  function StartTimer(m: Machine, node: Node, now: int): (r: Machine)
    ensures r == m.(timers := r.timers)
  {
    var t := TimerAt(m, node);
    StoreTimer(m, node, Timer(t.counter + 1, if t.counter == 0 then now else t.start, t.total))
  }

  /** The stop that matches the first start adds the time in between; any other stop of an idle timer does nothing. */
  function StopTimer(m: Machine, node: Node, now: int): (r: Machine)
    ensures r == m.(timers := r.timers)
  {
    var t := TimerAt(m, node);
    if t.counter == 0 then m
    else StoreTimer(m, node, t.(counter := t.counter - 1,
                                total := if t.counter == 1 then t.total + (now - t.start) else t.total))
  }

  /** The clock of a process or a thread must not have gone back, or the routine aborts. */
  predicate WentBack(m: Machine, node: Node, now: int) {
    TimerAt(m, node).counter == 1 && now < TimerAt(m, node).start
  }

  /** The routines of the run-time library, by name; None if the routine aborts. Destroying a timer is only recorded. */
  function CallTimer(m: Machine, func: string, node: Node): Option<Outcome> {
    if func == "DYNINSTstartWallTimer" then Some(Outcome(StartTimer(m, node, m.wall), 0))
    else if func == "DYNINSTstopWallTimer" then Some(Outcome(StopTimer(m, node, m.wall), 0))
    else if func == "DYNINSTstartProcessTimer" then Some(Outcome(StartTimer(m, node, m.cpu), 0))
    else if func == "DYNINSTstopProcessTimer" then
      if WentBack(m, node, m.cpu) then None else Some(Outcome(StopTimer(m, node, m.cpu), 0))
    else if func == "DYNINSTstartThreadTimer" then Some(Outcome(StartTimer(m, node, m.threadCpu), 0))
    else if func == "DYNINSTstopThreadTimer" then
      if WentBack(m, node, m.threadCpu) then None else Some(Outcome(StopTimer(m, node, m.threadCpu), 0))
    else if func == "DYNINSTdestroyThreadTimer" then
      Some(Outcome(m.(events := m.events + [Destroyed(Slot(m, node).0, Slot(m, node).1)]), 0))
    else Some(Outcome(m.(events := m.events + [Called(func, [])]), 0))
  }

  /** Before anything was stored counters and globals read 0, and timers are idle. */
  lemma NothingStored(m: Machine, node: Node, name: string)
    requires m.data == map[] && m.globals == map[] && m.timers == map[]
    ensures DataAt(m, node) == 0 && GlobalAt(m, name) == 0 && TimerAt(m, node) == Timer(0, 0, 0)
  {
  }

  /** With threads, a counter or timer has a slot of its own for each of them; otherwise all threads share one. What one
      thread writes is seen in that slot, and nowhere else. */
  lemma ThreadsApart(m: Machine, node: Node, other: Node, thread: nat, v: int, t: Timer)
    requires node.perThread == other.perThread
    ensures var same := other.name == node.name && (node.perThread ==> thread == m.thread);
      && DataAt(StoreData(m, node, v).(thread := thread), other)
         == (if same then v else DataAt(m.(thread := thread), other))
      && TimerAt(StoreTimer(m, node, t).(thread := thread), other)
         == if same then t else TimerAt(m.(thread := thread), other)
  {
  }

  /** Running a snippet: the machine afterwards and the snippet's value, or None if it traps. */
  function Run(s: Snippet, m: Machine): Option<Outcome>
    decreases s, 0
  {
    match s
    case Nop => Some(Outcome(m, 0))
    case Const(n) => Some(Outcome(m, n))
    case Param(i) => Some(Outcome(m, if i in m.params then m.params[i] else 0))
    case ReturnValue => Some(Outcome(m, m.returned))
    case Data(node) => Some(Outcome(m, DataAt(m, node)))
    case Global(name) => Some(Outcome(m, GlobalAt(m, name)))
    case Arith(op, left, right) =>
      var l := Run(left, m);
      if l.None? then None else
      var r := Run(right, l.value.machine);
      if r.None? then None else
      var v := Arithmetic(op, l.value.value, r.value.value);
      if v.None? then None else Some(Outcome(r.value.machine, v.value))
    case Bool(op, left, right) =>
      var l := Run(left, m);
      if l.None? then None else
      var r := Run(right, l.value.machine);
      if r.None? then None else
      Some(Outcome(r.value.machine, Logic(op, l.value.value, r.value.value)))
    case SetData(node, val) =>
      var r := Run(val, m);
      if r.None? then None else Some(Outcome(StoreData(r.value.machine, node, r.value.value), r.value.value))
    case SetGlobal(name, val) =>
      var r := Run(val, m);
      if r.None? then None else Some(Outcome(StoreGlobal(r.value.machine, name, r.value.value), r.value.value))
    case Call(func, args) =>
      var r := RunAll(args, m);
      if r.None? then None else Some(CallFunction(r.value.machine, func, r.value.values))
    case TimerCall(func, node) => CallTimer(m, func, node)
    case If(cond, body) =>
      var c := Run(cond, m);
      if c.None? then None
      else if c.value.value == 0 then Some(Outcome(c.value.machine, 0))
      else Run(body, c.value.machine)
    case Sequence(first, second) =>
      var r := Run(first, m);
      if r.None? then None else Run(second, r.value.machine)
  }

  function RunAll(args: seq<Snippet>, m: Machine): Option<Outcomes>
    decreases args, 1
  {
    if args == [] then Some(Outcomes(m, []))
    else
      var first := Run(args[0], m);
      if first.None? then None else
      var rest := RunAll(args[1..], first.value.machine);
      if rest.None? then None else Some(Outcomes(rest.value.machine, [first.value.value] + rest.value.values))
  }
}
