/** Metric-language expressions: the daemon's interpreter for them, its compiler to snippets, and what an expression
    means. */
module MdlCompile {
  import opened Options
  import opened Snippets

  /** The binary operators of the metric language. */
  datatype Operator =
    | Add | Sub | Mult | Div
    | Less | Greater | AtMost | AtLeast | Equal | NotEqual
    | Both | Either

  datatype Assignment = SetTo | AddTo | SubtractFrom

  datatype Expr =
    | IntLit(n: int)
    | StrLit(s: string)
    | Index(name: string, index: Expr)
    | Binop(op: Operator, left: Expr, right: Expr)
    | Func(func: string, args: seq<Expr>)
    | Assign(name: string, how: Assignment, rhs: Expr)
    | Var(name: string)
    | Negate(operand: Expr)
    | Increment(operand: Expr)

  datatype Value =
    | NoValue
    | IntV(n: int)
    | StrV(s: string)
    | NodeV(name: string)
    | FunctionV(name: string)
    | ProcedureName(name: string)
    | ListV(elements: seq<Value>)

  /** The variables in scope and what the application offers. */
  datatype Context = Context(
    env: map<string, Value>, functions: set<string>, symbols: set<string>, multithreaded: bool)

  function Itos(i: int): string
    decreases if i < 0 then 1 - i else i
  {
    if i < 0 then "-" + Itos(-i)
    else if i < 10 then [('0' as int + i) as char]
    else Itos(i / 10) + Itos(i % 10)
  }

  function Lookup(c: Context, name: string): Option<Value> {
    if name in c.env then Some(c.env[name]) else None
  }

  // ----- the interpreter -----

  const INTERPRETER_REFUSES :=
    {"startWallTimer", "stopWallTimer", "startProcessTimer", "stopProcessTimer", "startProcessTimer_lwp"}

  /** An operator on machine integers; None if it traps. Tests yield 0 or 1. */
  function Applied(op: Operator, a: int, b: int): Option<int> {
    match op
    case Add => Some(Wrap32(a + b))
    case Sub => Some(Wrap32(a - b))
    case Mult => Some(Wrap32(a * b))
    case Div => if b == 0 then None else Some(Wrap32(TruncDiv(a, b)))
    case Less => Some(if a < b then 1 else 0)
    case Greater => Some(if b < a then 1 else 0)
    case AtMost => Some(if b < a then 0 else 1)
    case AtLeast => Some(if a < b then 0 else 1)
    case Equal => Some(if a == b then 1 else 0)
    case NotEqual => Some(if a == b then 0 else 1)
    case Both => Some(if a == 0 then 0 else if b == 0 then 0 else 1)
    case Either => Some(if a != 0 then 1 else if b != 0 then 1 else 0)
  }

  function DoOperation(op: Operator, left: Value, right: Value): Option<Value> {
    if !left.IntV? || !right.IntV? then None else
    var v := Applied(op, left.n, right.n);
    if v.None? then None else Some(IntV(v.value))
  }

  /** Evaluation in the daemon, while a metric is being set up; None if it fails. */
  function Interpret(e: Expr, c: Context): Option<Value> {
    match e
    case IntLit(n) => Some(IntV(n))
    case StrLit(s) => Some(StrV(s))
    case Index(name, index) =>
      if name != "$constraint" then None else
      var i := Interpret(index, c);
      if i.None? || !i.value.IntV? then None else Lookup(c, name + Itos(i.value.n))
    case Binop(op, left, right) =>
      var l := Interpret(left, c);
      var r := Interpret(right, c);
      if l.None? || r.None? then None else DoOperation(op, l.value, r.value)
    case Func(func, args) =>
      if func in INTERPRETER_REFUSES || args == [] then None else
      var a := Interpret(args[0], c);
      if a.None? || !a.value.StrV? || a.value.s !in c.functions then None else Some(FunctionV(a.value.s))
    case Assign(_, _, _) => None
    case Var(name) => if name == "$cmin" || name == "$cmax" then Some(NoValue) else Lookup(c, name)
    case Negate(operand) =>
      var v := Interpret(operand, c);
      if v.None? || !v.value.IntV? then None else Some(IntV(Wrap32(-v.value.n)))
    case Increment(operand) =>
      var v := Interpret(operand, c);
      if v.None? || !v.value.IntV? then None else v
  }

  // ----- the compiler -----

  /** The run-time routine behind a timer function of the metric language. */
  function TimerRoutine(func: string, multithreaded: bool): Option<string> {
    if func == "startWallTimer" then Some("DYNINSTstartWallTimer")
    else if func == "stopWallTimer" then Some("DYNINSTstopWallTimer")
    else if func == "startProcessTimer" then
      Some(if multithreaded then "DYNINSTstartThreadTimer" else "DYNINSTstartProcessTimer")
    else if func == "stopProcessTimer" then
      Some(if multithreaded then "DYNINSTstopThreadTimer" else "DYNINSTstopProcessTimer")
    else if func == "destroyProcessTimer" then Some("DYNINSTdestroyThreadTimer")
    else None
  }

  const NOT_MODELLED := {"sampleHwCounter", "startHwTimer", "stopHwTimer", "readAddress"}

  /** The node an expression denotes, if the interpreter finds one. */
  function Target(e: Expr, c: Context): Option<Node> {
    var v := Interpret(e, c);
    if v.None? || !v.value.NodeV? then None else Some(Node(v.value.name, c.multithreaded))
  }

  function CreateCounter(node: Node, how: Assignment, arg: Snippet): Snippet {
    match how
    case SetTo => SetData(node, arg)
    case AddTo => SetData(node, Arith(Plus, Data(node), arg))
    case SubtractFrom => SetData(node, Arith(Minus, Data(node), arg))
  }

  /** The integer a list variable or a constraint holds at an index. */
  function Element(c: Context, name: string, i: int): Option<int> {
    var v :=
      if name == "$constraint" then Lookup(c, name + Itos(i))
      else
        var list := Lookup(c, name);
        if list.None? || !list.value.ListV? || !(0 <= i < |list.value.elements|) then None
        else Some(list.value.elements[i]);
    if v.None? || !v.value.IntV? then None else Some(v.value.n)
  }

  /** What a decimal numeral stands for. */
  function Numeral(s: string): int {
    if s == [] then 0
    else if s[0] == '-' then -Numeral(s[1..])
    else 10 * Numeral(s[..|s| - 1]) + (s[|s| - 1] as int - '0' as int)
  }

  lemma {:induction false} NegativeNumeral(i: int)
    requires i < 0
    ensures Itos(i) == "-" + Itos(-i) && Numeral(Itos(i)) == -Numeral(Itos(-i))
  {
    assert Itos(i)[1..] == Itos(-i);
  }

  lemma {:induction false} OneDigit(i: int)
    requires 0 <= i < 10
    ensures Itos(i) == ['0' + i as char] && Numeral(Itos(i)) == i
  {
    assert Itos(i)[..0] == [];
  }

  lemma {:induction false} OneMoreDigit(i: int)
    requires i >= 10 && Itos(i / 10) != [] && Itos(i / 10)[0] != '-'
    ensures Itos(i) == Itos(i / 10) + Itos(i % 10) && Itos(i) != [] && Itos(i)[0] == Itos(i / 10)[0]
    ensures Numeral(Itos(i)) == 10 * Numeral(Itos(i / 10)) + i % 10
  {
    OneDigit(i % 10);
    assert Itos(i) == Itos(i / 10) + Itos(i % 10);
    NumeralGrows(Itos(i / 10), i % 10);
    hide Itos, Numeral;
  }

  lemma {:induction false} NumeralGrows(s: string, d: nat)
    requires s != [] && s[0] != '-' && d < 10
    ensures Numeral(s + ['0' + d as char]) == 10 * Numeral(s) + d
  {
    assert (s + ['0' + d as char])[..|s|] == s;
  }

  /** The decimal numeral of a number. */
  lemma {:induction false} ItosIsDecimal(i: int)
    ensures Itos(i) != [] && Numeral(Itos(i)) == i && (Itos(i)[0] == '-' <==> i < 0)
    decreases if i < 0 then 1 - i else i
  {
    hide Numeral, Itos;
    if i < 0 {
      ItosIsDecimal(-i);
      NegativeNumeral(i);
    } else if i < 10 {
      OneDigit(i);
    } else {
      ItosIsDecimal(i / 10);
      OneMoreDigit(i);
    }
  }

  /** An index has a value exactly if the list, or the constraint variable of that number, holds an integer there. */
  lemma ElementExactly(c: Context, name: string, i: int, n: int)
    ensures Element(c, name, i) == Some(n) <==>
      if name == "$constraint" then
        "$constraint" + Itos(i) in c.env && c.env["$constraint" + Itos(i)] == IntV(n)
      else
        name in c.env && c.env[name].ListV? && 0 <= i < |c.env[name].elements| && c.env[name].elements[i] == IntV(n)
  {
  }

  function BinarySnippet(op: Operator, l: Snippet, r: Snippet): (s: Snippet)
    ensures (s.Arith? || s.Bool?) && s.left == l && s.right == r
  {
    match op
    case Add => Arith(Plus, l, r)
    case Sub => Arith(Minus, l, r)
    case Mult => Arith(Times, l, r)
    case Div => Arith(Divide, l, r)
    case Less => Bool(Lt, l, r)
    case Greater => Bool(Gt, l, r)
    case AtMost => Bool(Le, l, r)
    case AtLeast => Bool(Ge, l, r)
    case Equal => Bool(Eq, l, r)
    case NotEqual => Bool(Ne, l, r)
    case Both => Bool(And, l, r)
    case Either => Bool(Or, l, r)
  }

  /** Code generation; None if it fails. */
  function Compile(e: Expr, c: Context): Option<Snippet>
    decreases e, 0
  {
    match e
    case IntLit(n) => Some(Const(n))
    case StrLit(_) => None
    case Index(name, index) =>
      var i := Interpret(index, c);
      if i.None? || !i.value.IntV? then None
      else if name == "$arg" then Some(Param(i.value.n))
      else
        var n := Element(c, name, i.value.n);
        if n.None? then None else Some(Const(n.value))
    case Binop(op, left, right) =>
      var l := Compile(left, c);
      if l.None? then None else
      var r := Compile(right, c);
      if r.None? then None else
      Some(BinarySnippet(op, l.value, r.value))
    case Func(func, args) =>
      if TimerRoutine(func, c.multithreaded).Some? then
        var routine := TimerRoutine(func, c.multithreaded).value;
        if |args| != 1 || Target(args[0], c).None? || routine !in c.functions then None
        else Some(TimerCall(routine, Target(args[0], c).value))
      else if func in NOT_MODELLED then None
      else if func == "readSymbol" then
        var a := if args == [] then None else Interpret(args[0], c);
        if a.None? || !a.value.StrV? || a.value.s !in c.symbols then None else Some(Global(a.value.s))
      else
        var compiled := CompileAll(args, c);
        if compiled.None? || func !in c.functions then None else Some(Call(func, compiled.value))
    case Assign(name, how, rhs) =>
      var target := Lookup(c, name);
      if target.None? || !target.value.NodeV? then None else
      var arg := Compile(rhs, c);
      if arg.None? then None
      else Some(CreateCounter(Node(target.value.name, c.multithreaded), how, arg.value))
    case Var(name) =>
      if name == "$return" then Some(ReturnValue) else
      var v := Lookup(c, name);
      if v.None? then None
      else if v.value.IntV? then Some(Const(v.value.n))
      else if v.value.NodeV? then Some(Data(Node(v.value.name, c.multithreaded)))
      else None
    case Negate(operand) =>
      var v := Interpret(operand, c);
      if v.None? || !v.value.IntV? then None else Some(Const(Wrap32(-v.value.n)))
    case Increment(operand) =>
      var target := Target(operand, c);
      if target.None? then None else Some(CreateCounter(target.value, AddTo, Const(1)))
  }

  function CompileAll(args: seq<Expr>, c: Context): Option<seq<Snippet>>
    decreases args, 1
  {
    if args == [] then Some([])
    else
      var first := Compile(args[0], c);
      if first.None? then None else
      var rest := CompileAll(args[1..], c);
      if rest.None? then None else Some([first.value] + rest.value)
  }

  // ----- what an expression means -----

  /** `counter how v`, where the counter held `before` when evaluation began. */
  function Assigned(how: Assignment, before: int, v: int): int {
    match how
    case SetTo => v
    case AddTo => Wrap32(before + v)
    case SubtractFrom => Wrap32(before - v)
  }

  datatype Clock = Wall | Process | Thread

  /** What the timer functions of the metric language say: with threads, process timers go by the thread's clock. */
  datatype Command = StartOn(clock: Clock) | StopOn(clock: Clock) | Destroy

  function CommandOf(func: string, multithreaded: bool): Option<Command> {
    var process := if multithreaded then Thread else Process;
    match func
    case "startWallTimer" => Some(StartOn(Wall))
    case "stopWallTimer" => Some(StopOn(Wall))
    case "startProcessTimer" => Some(StartOn(process))
    case "stopProcessTimer" => Some(StopOn(process))
    case "destroyProcessTimer" => Some(Destroy)
    case _ => None
  }

  function Reading(m: Machine, clock: Clock): int {
    match clock case Wall => m.wall case Process => m.cpu case Thread => m.threadCpu
  }

  /** Starting makes a timer run from now, unless it runs already; stopping ends the last start, and with the first one
      the measurement. Starts nest. A measurement on a clock that went back aborts, but on the wall clock. */
  function Obeyed(m: Machine, command: Command, node: Node): Option<Outcome> {
    var t := TimerAt(m, node);
    match command
    case StartOn(clock) =>
      var running := if t.counter > 0 then t.(counter := t.counter + 1) else Timer(1, Reading(m, clock), t.total);
      Some(Outcome(StoreTimer(m, node, running), 0))
    case StopOn(clock) =>
      var elapsed := Reading(m, clock) - t.start;
      if t.counter == 0 then Some(Outcome(m, 0))
      else if t.counter > 1 then Some(Outcome(StoreTimer(m, node, t.(counter := t.counter - 1)), 0))
      else if elapsed < 0 && clock != Wall then None
      else Some(Outcome(StoreTimer(m, node, Timer(0, t.start, t.total + elapsed)), 0))
    case Destroy => Some(Outcome(m.(events := m.events + [Destroyed(Slot(m, node).0, Slot(m, node).1)]), 0))
  }

  /** Evaluating an expression in the application, operand by operand and left to right, with no code generation:
      the machine afterwards and the value, or None if evaluation traps or is senseless. */
  function Meaning(e: Expr, c: Context, m: Machine): Option<Outcome>
    decreases e, 0
  {
    match e
    case IntLit(n) => Some(Outcome(m, n))
    case StrLit(_) => None
    case Index(name, index) =>
      var i := Meaning(index, c, m);
      if i.None? then None
      else if name == "$arg" then
        Some(i.value.(value := if i.value.value in m.params then m.params[i.value.value] else 0))
      else
        var n := Element(c, name, i.value.value);
        if n.None? then None else Some(i.value.(value := n.value))
    case Binop(op, left, right) =>
      var l := Meaning(left, c, m);
      if l.None? then None else
      var r := Meaning(right, c, l.value.machine);
      if r.None? then None else
      var v := Applied(op, l.value.value, r.value.value);
      if v.None? then None else Some(Outcome(r.value.machine, v.value))
    case Func(func, args) =>
      if CommandOf(func, c.multithreaded).Some? then
        if args == [] || Target(args[0], c).None? then None
        else Obeyed(m, CommandOf(func, c.multithreaded).value, Target(args[0], c).value)
      else if func == "readSymbol" then
        var a := if args == [] then None else Interpret(args[0], c);
        if a.None? || !a.value.StrV? then None else Some(Outcome(m, GlobalAt(m, a.value.s)))
      else
        var vs := MeaningAll(args, c, m);
        if vs.None? then None else Some(CallFunction(vs.value.machine, func, vs.value.values))
    case Assign(name, how, rhs) =>
      if name !in c.env || !c.env[name].NodeV? then None else
      var node := Node(c.env[name].name, c.multithreaded);
      var v := Meaning(rhs, c, m);
      if v.None? then None else
      var stored := Assigned(how, DataAt(m, node), v.value.value);
      Some(Outcome(StoreData(v.value.machine, node, stored), stored))
    case Var(name) =>
      if name == "$return" then Some(Outcome(m, m.returned))
      else if name !in c.env then None
      else if c.env[name].IntV? then Some(Outcome(m, c.env[name].n))
      else if c.env[name].NodeV? then Some(Outcome(m, DataAt(m, Node(c.env[name].name, c.multithreaded))))
      else None
    case Negate(operand) =>
      var v := Meaning(operand, c, m);
      if v.None? then None else Some(v.value.(value := Wrap32(-v.value.value)))
    case Increment(operand) =>
      if Target(operand, c).None? then Meaning(operand, c, m) else
      var node := Target(operand, c).value;
      var stored := Wrap32(DataAt(m, node) + 1);
      Some(Outcome(StoreData(m, node, stored), stored))
  }

  function MeaningAll(args: seq<Expr>, c: Context, m: Machine): Option<Outcomes>
    decreases args, 1
  {
    if args == [] then Some(Outcomes(m, []))
    else
      var first := Meaning(args[0], c, m);
      if first.None? then None else
      var rest := MeaningAll(args[1..], c, first.value.machine);
      if rest.None? then None else Some(Outcomes(rest.value.machine, [first.value.value] + rest.value.values))
  }

  /** `$return` is a keyword, not a variable. */
  predicate WellScoped(c: Context) {
    "$return" !in c.env
  }

  // ----- the interpreter and the compiler agree -----

  /** What the daemon works out for an expression is what the application would: evaluation has that value, and no
      effect. */
  lemma {:induction false} InterpretedMeans(e: Expr, c: Context, m: Machine)
    requires WellScoped(c)
    requires Interpret(e, c).Some? && Interpret(e, c).value.IntV?
    ensures Meaning(e, c, m) == Some(Outcome(m, Interpret(e, c).value.n))
  {
    match e
    case Index(_, index) => InterpretedMeans(index, c, m);
    case Binop(_, left, right) =>
      InterpretedMeans(left, c, m);
      InterpretedMeans(right, c, m);
    case Negate(operand) => InterpretedMeans(operand, c, m);
    case Increment(operand) => InterpretedMeans(operand, c, m);
    case _ =>
  }

  /** The values of two operands, the left one first; None if either traps. */
  function Operands(l: Snippet, r: Snippet, m: Machine): Option<(int, int, Machine)> {
    var x := Run(l, m);
    if x.None? then None else
    var y := Run(r, x.value.machine);
    if y.None? then None else Some((x.value.value, y.value.value, y.value.machine))
  }

  lemma {:induction false} ArithRuns(op: ArithOp, l: Snippet, r: Snippet, m: Machine)
    ensures var o := Operands(l, r, m);
      Run(Arith(op, l, r), m) == if o.None? then None else
        var v := Arithmetic(op, o.value.0, o.value.1);
        if v.None? then None else Some(Outcome(o.value.2, v.value))
  {
    hide Arithmetic;
  }

  lemma {:induction false} BoolRuns(op: BoolOp, l: Snippet, r: Snippet, m: Machine)
    ensures var o := Operands(l, r, m);
      Run(Bool(op, l, r), m)
        == if o.None? then None else Some(Outcome(o.value.2, Logic(op, o.value.0, o.value.1)))
  {
    hide Logic;
  }

  /** What a snippet of two operands computes from their values. */
  function Computed(s: Snippet, a: int, b: int): Option<int>
    requires s.Arith? || s.Bool?
  {
    if s.Arith? then Arithmetic(s.aop, a, b) else Some(Logic(s.bop, a, b))
  }

  lemma {:induction false} SameOperator(op: Operator, l: Snippet, r: Snippet, a: int, b: int)
    ensures Computed(BinarySnippet(op, l, r), a, b) == Applied(op, a, b)
  {
    hide TruncDiv, Wrap32;
  }

  lemma {:induction false} OperandsRun(s: Snippet, m: Machine)
    requires s.Arith? || s.Bool?
    ensures var o := Operands(s.left, s.right, m);
      Run(s, m) == if o.None? then None else
        var v := Computed(s, o.value.0, o.value.1);
        if v.None? then None else Some(Outcome(o.value.2, v.value))
  {
    hide Arithmetic, Logic;
    if s.Arith? {
      ArithRuns(s.aop, s.left, s.right, m);
    } else {
      BoolRuns(s.bop, s.left, s.right, m);
    }
    hide Run, Operands;
  }

  /** Each operator becomes the snippet that computes it. */
  lemma {:induction false} BinaryRuns(op: Operator, l: Snippet, r: Snippet, m: Machine)
    ensures var o := Operands(l, r, m);
      Run(BinarySnippet(op, l, r), m) == if o.None? then None else
        var v := Applied(op, o.value.0, o.value.1);
        if v.None? then None else Some(Outcome(o.value.2, v.value))
  {
    hide Run, Operands, Applied, Computed, BinarySnippet;
    OperandsRun(BinarySnippet(op, l, r), m);
    if Operands(l, r, m).Some? {
      SameOperator(op, l, r, Operands(l, r, m).value.0, Operands(l, r, m).value.1);
    }
  }

  /** Reading the counter first and the operand afterwards. */
  lemma {:induction false} CounterCombined(node: Node, op: ArithOp, arg: Snippet, m: Machine)
    ensures Run(arg, m).None? ==> Run(Arith(op, Data(node), arg), m).None?
    ensures Run(arg, m).Some? ==>
      var v := Arithmetic(op, DataAt(m, node), Run(arg, m).value.value);
      Run(Arith(op, Data(node), arg), m) == if v.None? then None else Some(Outcome(Run(arg, m).value.machine, v.value))
  {
    hide DataAt, Arithmetic;
    assert Run(Data(node), m) == Some(Outcome(m, DataAt(m, node)));
  }

  lemma {:induction false} CounterStored(node: Node, val: Snippet, m: Machine)
    ensures Run(SetData(node, val), m)
      == if Run(val, m).None? then None else
         Some(Outcome(StoreData(Run(val, m).value.machine, node, Run(val, m).value.value), Run(val, m).value.value))
  {
  }

  /** The counter is set, raised or lowered by the operand. */
  lemma {:induction false} CounterUpdated(node: Node, how: Assignment, arg: Snippet, m: Machine)
    ensures Run(CreateCounter(node, how, arg), m)
      == if Run(arg, m).None? then None else
         var stored := Assigned(how, DataAt(m, node), Run(arg, m).value.value);
         Some(Outcome(StoreData(Run(arg, m).value.machine, node, stored), stored))
  {
    hide Run, Wrap32, DataAt, StoreData;
    var val := if how == SetTo then arg else Arith(if how == AddTo then Plus else Minus, Data(node), arg);
    CounterStored(node, val, m);
    if how != SetTo {
      CounterCombined(node, val.aop, arg, m);
    }
    assert CreateCounter(node, how, arg) == SetData(node, val);
  }

  /** Code generation preserves meaning: a compiled expression runs to the same machine and the same value, or traps
      exactly when evaluation does. */
  lemma {:induction false} CompiledMeans(e: Expr, c: Context, m: Machine)
    requires WellScoped(c) && Compile(e, c).Some?
    ensures Run(Compile(e, c).value, m) == Meaning(e, c, m)
    decreases e, 0
  {
    hide CallTimer, Obeyed, CommandOf;
    RoutineObeys(if e.Func? then e.func else "", c.multithreaded, Node("", false), m);
    match e
    case IntLit(_) =>
    case StrLit(_) =>
    case Index(_, index) => InterpretedMeans(index, c, m);
    case Binop(op, left, right) =>
      CompiledMeans(left, c, m);
      if Meaning(left, c, m).Some? {
        CompiledMeans(right, c, Meaning(left, c, m).value.machine);
      }
      BinaryRuns(op, Compile(left, c).value, Compile(right, c).value, m);
    case Func(func, args) =>
      if TimerRoutine(func, c.multithreaded).None? && func != "readSymbol" {
        CompiledAllMean(args, c, m);
      }
      CallMeans(e, c, m);
    case Assign(name, how, rhs) =>
      CompiledMeans(rhs, c, m);
      AssignmentMeans(e, c, m);
    case Var(_) =>
    case Negate(operand) => InterpretedMeans(operand, c, m);
    case Increment(operand) => CounterUpdated(Target(operand, c).value, AddTo, Const(1), m);
  }

  /** The routine behind a timer function does what the function says. */
  lemma {:induction false} RoutineObeys(func: string, multithreaded: bool, node: Node, m: Machine)
    ensures TimerRoutine(func, multithreaded).Some? <==> CommandOf(func, multithreaded).Some?
    ensures TimerRoutine(func, multithreaded).Some? ==>
      CallTimer(m, TimerRoutine(func, multithreaded).value, node)
        == Obeyed(m, CommandOf(func, multithreaded).value, node)
  {
    hide StartTimer, StopTimer, WentBack, Obeyed;
    var process := if multithreaded then Thread else Process;
    StartObeys(Wall, node, m);
    StopObeys(Wall, node, m);
    StartObeys(process, node, m);
    StopObeys(process, node, m);
    DestroyObeys(node, m);
  }

  lemma {:induction false} StartObeys(clock: Clock, node: Node, m: Machine)
    ensures Obeyed(m, StartOn(clock), node) == Some(Outcome(StartTimer(m, node, Reading(m, clock)), 0))
  {
  }

  lemma {:induction false} StopObeys(clock: Clock, node: Node, m: Machine)
    ensures Obeyed(m, StopOn(clock), node)
      == if clock != Wall && WentBack(m, node, Reading(m, clock)) then None
         else Some(Outcome(StopTimer(m, node, Reading(m, clock)), 0))
  {
  }

  lemma {:induction false} DestroyObeys(node: Node, m: Machine)
    ensures Obeyed(m, Destroy, node)
      == Some(Outcome(m.(events := m.events + [Destroyed(Slot(m, node).0, Slot(m, node).1)]), 0))
  {
  }

  lemma {:induction false} CallMeans(e: Expr, c: Context, m: Machine)
    requires e.Func? && Compile(e, c).Some?
    requires TimerRoutine(e.func, c.multithreaded).None? && e.func != "readSymbol" ==>
      CompileAll(e.args, c).Some? && RunAll(CompileAll(e.args, c).value, m) == MeaningAll(e.args, c, m)
    ensures Run(Compile(e, c).value, m) == Meaning(e, c, m)
  {
    hide TimerRoutine, CommandOf, CallTimer, Obeyed;
    RoutineObeys(e.func, c.multithreaded, if e.args != [] && Target(e.args[0], c).Some? then Target(e.args[0], c).value
                                          else Node("", false), m);
  }

  lemma {:induction false} AssignmentMeans(e: Expr, c: Context, m: Machine)
    requires e.Assign? && Compile(e, c).Some?
    requires Compile(e.rhs, c).Some? && Run(Compile(e.rhs, c).value, m) == Meaning(e.rhs, c, m)
    ensures Run(Compile(e, c).value, m) == Meaning(e, c, m)
  {
    CounterUpdated(Node(c.env[e.name].name, c.multithreaded), e.how, Compile(e.rhs, c).value, m);
  }

  lemma {:induction false} CompiledAllMean(args: seq<Expr>, c: Context, m: Machine)
    requires WellScoped(c) && CompileAll(args, c).Some?
    ensures RunAll(CompileAll(args, c).value, m) == MeaningAll(args, c, m)
    decreases args, 1
  {
    if args != [] {
      var compiled := CompileAll(args, c).value;
      assert compiled[0] == Compile(args[0], c).value && compiled[1..] == CompileAll(args[1..], c).value;
      CompiledMeans(args[0], c, m);
      if Meaning(args[0], c, m).Some? {
        CompiledAllMean(args[1..], c, Meaning(args[0], c, m).value.machine);
      }
    }
  }

  /** The two evaluations of an integer expression agree: if the interpreter yields an integer and the compiler
      yields code, the code computes that integer and changes nothing. */
  lemma {:induction false} CompilerAgreesWithInterpreter(e: Expr, c: Context, m: Machine)
    requires WellScoped(c)
    requires Interpret(e, c).Some? && Interpret(e, c).value.IntV?
    requires Compile(e, c).Some?
    ensures Run(Compile(e, c).value, m) == Some(Outcome(m, Interpret(e, c).value.n))
  {
    CompiledMeans(e, c, m);
    InterpretedMeans(e, c, m);
  }
}
