/** When expressions and statements of the metric language make sense: exactly what the daemon's interpreter yields,
    which expressions become code, which statements can be applied, and in which order their requests are made. */
module MdlSense {
  import opened Options
  import opened Snippets
  import opened MdlCompile
  import opened MdlInstr

  // ----- what the interpreter yields -----

  /** The variable is in scope with the value. */
  predicate InScope(c: Context, name: string, v: Value) {
    name in c.env && c.env[name] == v
  }

  /** Evaluating the expression while a metric is being set up yields the value: timers are not run then, a function is
      one the application has, and operands are integers. */
  ghost predicate Yields(e: Expr, c: Context, v: Value) {
    match e
    case IntLit(n) => v == IntV(n)
    case StrLit(s) => v == StrV(s)
    case Index(name, index) =>
      name == "$constraint" && exists i :: Yields(index, c, IntV(i)) && InScope(c, "$constraint" + Itos(i), v)
    case Binop(op, left, right) =>
      v.IntV? && exists a, b :: Yields(left, c, IntV(a)) && Yields(right, c, IntV(b)) && Applied(op, a, b) == Some(v.n)
    case Func(func, args) =>
      && func != "startWallTimer" && func != "stopWallTimer"
      && func != "startProcessTimer" && func != "stopProcessTimer" && func != "startProcessTimer_lwp"
      && args != [] && v.FunctionV? && v.name in c.functions && Yields(args[0], c, StrV(v.name))
    case Assign(_, _, _) => false
    case Var(name) => if name == "$cmin" || name == "$cmax" then v == NoValue else InScope(c, name, v)
    case Negate(operand) => v.IntV? && exists n :: Yields(operand, c, IntV(n)) && v.n == Wrap32(-n)
    case Increment(operand) => v.IntV? && Yields(operand, c, v)
  }

  /** The interpreter yields that value, and fails exactly if there is none. */
  lemma {:induction false} InterpretsExactly(e: Expr, c: Context)
    ensures forall v :: Interpret(e, c) == Some(v) <==> Yields(e, c, v)
  {
    hide Interpret, Yields;
    match e
    case Index(name, index) =>
      InterpretsExactly(index, c);
      IndexYields(e, c);
    case Binop(op, left, right) =>
      InterpretsExactly(left, c);
      InterpretsExactly(right, c);
      BinopYields(e, c);
    case Func(func, args) =>
      if args != [] {
        InterpretsExactly(args[0], c);
      }
      FuncYields(e, c);
    case Negate(operand) =>
      InterpretsExactly(operand, c);
      NegationYields(e, c);
    case Increment(operand) =>
      InterpretsExactly(operand, c);
      IncrementYields(e, c);
    case _ => LeafYields(e, c);
  }

  lemma {:induction false} FuncYields(e: Expr, c: Context)
    requires e.Func?
    requires e.args != [] ==> forall v :: Interpret(e.args[0], c) == Some(v) <==> Yields(e.args[0], c, v)
    ensures forall v :: Interpret(e, c) == Some(v) <==> Yields(e, c, v)
  {
  }

  lemma {:induction false} NegationYields(e: Expr, c: Context)
    requires e.Negate?
    requires forall v :: Interpret(e.operand, c) == Some(v) <==> Yields(e.operand, c, v)
    ensures forall v :: Interpret(e, c) == Some(v) <==> Yields(e, c, v)
  {
    hide Wrap32;
    var o := Interpret(e.operand, c);
    if o.Some? && o.value.IntV? {
      assert Yields(e.operand, c, IntV(o.value.n));
    }
  }

  lemma {:induction false} IncrementYields(e: Expr, c: Context)
    requires e.Increment?
    requires forall v :: Interpret(e.operand, c) == Some(v) <==> Yields(e.operand, c, v)
    ensures forall v :: Interpret(e, c) == Some(v) <==> Yields(e, c, v)
  {
  }

  lemma {:induction false} LeafYields(e: Expr, c: Context)
    requires e.IntLit? || e.StrLit? || e.Assign? || e.Var?
    ensures forall v :: Interpret(e, c) == Some(v) <==> Yields(e, c, v)
  {
  }

  lemma {:induction false} IndexYields(e: Expr, c: Context)
    requires e.Index? && forall v :: Interpret(e.index, c) == Some(v) <==> Yields(e.index, c, v)
    ensures forall v :: Interpret(e, c) == Some(v) <==> Yields(e, c, v)
  {
    hide Itos;
    var i := Interpret(e.index, c);
    assert i.Some? && i.value.IntV? ==> Yields(e.index, c, IntV(i.value.n));
  }

  lemma {:induction false} BinopYields(e: Expr, c: Context)
    requires e.Binop?
    requires forall v :: Interpret(e.left, c) == Some(v) <==> Yields(e.left, c, v)
    requires forall v :: Interpret(e.right, c) == Some(v) <==> Yields(e.right, c, v)
    ensures forall v :: Interpret(e, c) == Some(v) <==> Yields(e, c, v)
  {
    hide Applied;
    var l, r := Interpret(e.left, c), Interpret(e.right, c);
    if l.Some? && r.Some? && l.value.IntV? && r.value.IntV? {
      assert Yields(e.left, c, IntV(l.value.n)) && Yields(e.right, c, IntV(r.value.n));
    }
  }

  /** What a timer function or an increment acts on is the daemon's node of that name; with threads, each has its
      own. */
  lemma TargetExactly(e: Expr, c: Context, node: Node)
    ensures Target(e, c) == Some(node) <==> Yields(e, c, NodeV(node.name)) && node.perThread == c.multithreaded
  {
    InterpretsExactly(e, c);
    hide Interpret, Yields;
  }

  // ----- which expressions become code -----

  /** The list variable, or the constraint variable of that number, holds the integer. */
  predicate HoldsAt(c: Context, name: string, i: int, n: int) {
    if name == "$constraint" then InScope(c, "$constraint" + Itos(i), IntV(n))
    else name in c.env && c.env[name].ListV? && 0 <= i < |c.env[name].elements| && c.env[name].elements[i] == IntV(n)
  }

  /** The routine of the run-time library that does what a timer function says. */
  function RoutineOf(command: Command): string {
    match command
    case StartOn(Wall) => "DYNINSTstartWallTimer"
    case StopOn(Wall) => "DYNINSTstopWallTimer"
    case StartOn(Process) => "DYNINSTstartProcessTimer"
    case StopOn(Process) => "DYNINSTstopProcessTimer"
    case StartOn(Thread) => "DYNINSTstartThreadTimer"
    case StopOn(Thread) => "DYNINSTstopThreadTimer"
    case Destroy => "DYNINSTdestroyThreadTimer"
  }

  lemma {:induction false} RoutineIsIt(func: string, multithreaded: bool)
    ensures TimerRoutine(func, multithreaded)
      == if CommandOf(func, multithreaded).None? then None else Some(RoutineOf(CommandOf(func, multithreaded).value))
  {
  }

  /** The expression can be compiled: its names stand for what its operators need, and the application has the functions
      and variables it uses. */
  ghost predicate Sensible(e: Expr, c: Context)
    decreases e
  {
    match e
    case IntLit(_) => true
    case StrLit(_) => false
    case Index(name, index) =>
      exists i :: Yields(index, c, IntV(i)) && (name == "$arg" || exists n :: HoldsAt(c, name, i, n))
    case Binop(_, left, right) => Sensible(left, c) && Sensible(right, c)
    case Func(func, args) =>
      if CommandOf(func, c.multithreaded).Some? then
        && |args| == 1 && (exists name :: Yields(args[0], c, NodeV(name)))
        && RoutineOf(CommandOf(func, c.multithreaded).value) in c.functions
      else if func in NOT_MODELLED then false
      else if func == "readSymbol" then args != [] && exists s <- c.symbols :: Yields(args[0], c, StrV(s))
      else func in c.functions && forall i | 0 <= i < |args| :: Sensible(args[i], c)
    case Assign(name, _, rhs) => (exists node :: InScope(c, name, NodeV(node))) && Sensible(rhs, c)
    case Var(name) =>
      || name == "$return"
      || (exists n :: InScope(c, name, IntV(n)))
      || (exists node :: InScope(c, name, NodeV(node)))
    case Negate(operand) => exists n :: Yields(operand, c, IntV(n))
    case Increment(operand) => exists node :: Yields(operand, c, NodeV(node))
  }

  /** Code generation fails exactly for expressions that make no sense there. */
  lemma {:induction false} CompilesExactly(e: Expr, c: Context)
    ensures Compile(e, c).Some? <==> Sensible(e, c)
    decreases e, 0
  {
    match e
    case Index(name, index) => IndexSensible(e, c);
    case Binop(_, left, right) =>
      CompilesExactly(left, c);
      CompilesExactly(right, c);
    case Func(func, args) =>
      CompileAllExactly(args, c);
      FuncSensible(e, c);
    case Assign(name, _, rhs) =>
      CompilesExactly(rhs, c);
      assert name in c.env && c.env[name].NodeV? ==> InScope(c, name, NodeV(c.env[name].name));
    case Var(name) =>
      assert name in c.env && c.env[name].IntV? ==> InScope(c, name, IntV(c.env[name].n));
      assert name in c.env && c.env[name].NodeV? ==> InScope(c, name, NodeV(c.env[name].name));
    case Negate(operand) => InterpretsExactly(operand, c);
    case Increment(operand) => InterpretsExactly(operand, c);
    case _ =>
  }

  lemma {:induction false} IndexSensible(e: Expr, c: Context)
    requires e.Index?
    ensures Compile(e, c).Some? <==> Sensible(e, c)
  {
    InterpretsExactly(e.index, c);
    var i := Interpret(e.index, c);
    if i.Some? && i.value.IntV? {
      assert Yields(e.index, c, IntV(i.value.n));
      var n := Element(c, e.name, i.value.n);
      if n.Some? {
        ElementExactly(c, e.name, i.value.n, n.value);
        assert HoldsAt(c, e.name, i.value.n, n.value);
      }
      forall k | HoldsAt(c, e.name, i.value.n, k)
        ensures Element(c, e.name, i.value.n) == Some(k)
      {
        ElementExactly(c, e.name, i.value.n, k);
      }
    }
    hide Interpret, Yields, Itos, Element;
  }

  lemma {:induction false} FuncSensible(e: Expr, c: Context)
    requires e.Func?
    requires CompileAll(e.args, c).Some? <==> forall i | 0 <= i < |e.args| :: Sensible(e.args[i], c)
    ensures Compile(e, c).Some? <==> Sensible(e, c)
  {
    hide CommandOf, TimerRoutine, RoutineOf, CompileAll, Interpret, Yields;
    RoutineIsIt(e.func, c.multithreaded);
    if e.args != [] {
      InterpretsExactly(e.args[0], c);
      var v := Interpret(e.args[0], c);
      assert v.Some? ==> Yields(e.args[0], c, v.value);
    }
  }

  lemma {:induction false} CompileAllExactly(args: seq<Expr>, c: Context)
    ensures CompileAll(args, c).Some? <==> forall i | 0 <= i < |args| :: Sensible(args[i], c)
    decreases args, 1
  {
    if args != [] {
      CompilesExactly(args[0], c);
      CompileAllExactly(args[1..], c);
      hide Compile, Sensible;
      assert forall i | 0 < i < |args| :: args[i] == args[1..][i - 1];
    }
  }

  /** The compiled call of a function of the application: its arguments are evaluated in order, the call is made with
      their values, and yields what the function returns. */
  lemma {:induction false} CallMade(func: string, args: seq<Expr>, c: Context, m: Machine)
    requires WellScoped(c) && Compile(Func(func, args), c).Some?
    requires CommandOf(func, c.multithreaded).None? && func != "readSymbol"
    ensures var r, vs := Run(Compile(Func(func, args), c).value, m), MeaningAll(args, c, m);
      && (r.None? <==> vs.None?)
      && (r.Some? ==>
            var before, after := vs.value.machine, r.value.machine;
            && after == before.(events := after.events, results := after.results)
            && after.events == before.events + [Called(func, vs.value.values)]
            && if before.results == [] then r.value.value == 0 && after.results == []
               else before.results == [r.value.value] + after.results)
  {
    hide CommandOf, TimerRoutine, Run;
    CompiledMeans(Func(func, args), c, m);
  }

  // ----- which statements can be applied -----

  /** Every block makes sense, and so does its guard; an empty statement is not put under flags. */
  ghost predicate HasCode(s: Stmt, c: Context, w: World)
    requires s.Instr?
  {
    && (forall ic <- s.icodes :: Sensible(ic.body, c) && (ic.guard.Some? ==> Sensible(ic.guard.value, c)))
    && (s.constrained && w.flags != [] ==> s.icodes != [])
  }

  lemma {:induction false} IcodesExactly(ics: seq<Icode>, c: Context, costs: Costs)
    ensures CompileIcodes(ics, c, costs).Some?
      <==> forall ic <- ics :: Sensible(ic.body, c) && (ic.guard.Some? ==> Sensible(ic.guard.value, c))
  {
    if ics != [] {
      var last := |ics| - 1;
      IcodesExactly(ics[..last], c, costs);
      CompilesExactly(ics[last].body, c);
      if ics[last].guard.Some? {
        CompilesExactly(ics[last].guard.value, c);
      }
      hide Compile, Sensible, CreateIf;
      assert forall ic :: ic in ics <==> ic in ics[..last] || ic == ics[last] by {
        assert ics == ics[..last] + [ics[last]];
      }
    }
  }

  /** The statement can be applied: its variable holds a function with points of its kind, its blocks have code, its
      lists are lists, its tests integers; and the same inside, where loops and tests lead. */
  ghost predicate Applicable(s: Stmt, c: Context, w: World) {
    match s
    case Instr(at, _, _, _, _) =>
      && (exists f :: InScope(c, at.variable, FunctionV(f)) && (f, at.site) in w.points)
      && HasCode(s, c, w)
    case For(index, list, body) =>
      var declared := Bind(c, index, NoValue);
      exists elements :: Yields(list, declared, ListV(elements))
        && forall v | IsBound(v, elements, c.functions) :: Applicable(body, Bind(declared, index, v), w)
    case IfThen(test, body) => exists n :: Yields(test, c, IntV(n)) && (n != 0 ==> Applicable(body, c, w))
    case Block(stmts) => forall i | 0 <= i < |stmts| :: Applicable(stmts[i], c, w)
  }

  /** Applying a statement fails exactly if it makes no sense, there or somewhere inside. */
  lemma {:induction false} AppliesExactly(s: Stmt, c: Context, w: World)
    ensures Requests(s, c, w).Some? <==> Applicable(s, c, w)
    decreases s, 0
  {
    match s
    case Instr(at, icodes, _, _, _) =>
      IcodesExactly(icodes, c, w.costs);
      InstrApplies(s, c, w);
    case For(index, list, body) => LoopApplies(s, c, w);
    case IfThen(test, body) =>
      InterpretsExactly(test, c);
      AppliesExactly(body, c, w);
      ConditionApplies(s, c, w);
    case Block(stmts) => AllApply(stmts, c, w);
  }

  lemma {:induction false} InstrApplies(s: Stmt, c: Context, w: World)
    requires s.Instr?
    requires CompileIcodes(s.icodes, c, w.costs).Some?
      <==> forall ic <- s.icodes :: Sensible(ic.body, c) && (ic.guard.Some? ==> Sensible(ic.guard.value, c))
    ensures Requests(s, c, w).Some? <==> Applicable(s, c, w)
  {
    hide CompileIcodes, Sensible, UnderFlags;
    var v := Lookup(c, s.at.variable);
    if v.Some? && v.value.FunctionV? {
      assert InScope(c, s.at.variable, FunctionV(v.value.name));
    }
  }

  lemma {:induction false} ConditionApplies(s: Stmt, c: Context, w: World)
    requires s.IfThen? && (Requests(s.thenBody, c, w).Some? <==> Applicable(s.thenBody, c, w))
    requires forall v :: Interpret(s.test, c) == Some(v) <==> Yields(s.test, c, v)
    ensures Requests(s, c, w).Some? <==> Applicable(s, c, w)
  {
    var v := Interpret(s.test, c);
    if v.Some? && v.value.IntV? {
      assert Yields(s.test, c, IntV(v.value.n));
    }
  }

  lemma {:induction false} LoopApplies(s: Stmt, c: Context, w: World)
    requires s.For?
    ensures Requests(s, c, w).Some? <==> Applicable(s, c, w)
    decreases s.loopBody, 2
  {
    var declared := Bind(c, s.index, NoValue);
    InterpretsExactly(s.list, declared);
    var v := Interpret(s.list, declared);
    if v.Some? && v.value.ListV? {
      assert Yields(s.list, declared, ListV(v.value.elements));
      var values := Bindings(v.value.elements, c.functions);
      EachApplies(values, s.index, s.loopBody, declared, w);
      forall e
        ensures e in values <==> IsBound(e, v.value.elements, c.functions)
      {
        BoundExactly(v.value.elements, c.functions, e);
      }
    }
    hide Interpret, Yields, Bindings, IsBound, RequestsForEach;
  }

  lemma {:induction false} EachApplies(values: seq<Value>, index: string, body: Stmt, c: Context, w: World)
    ensures RequestsForEach(values, index, body, c, w).Some?
      <==> forall v <- values :: Applicable(body, Bind(c, index, v), w)
    decreases body, 1, |values|
  {
    if values != [] {
      AppliesExactly(body, Bind(c, index, values[0]), w);
      EachApplies(values[1..], index, body, c, w);
      hide Requests, Applicable;
      assert forall v :: v in values <==> v == values[0] || v in values[1..];
    }
  }

  lemma {:induction false} AllApply(stmts: seq<Stmt>, c: Context, w: World)
    ensures RequestsOfAll(stmts, c, w).Some? <==> forall i | 0 <= i < |stmts| :: Applicable(stmts[i], c, w)
    decreases stmts, 1
  {
    if stmts != [] {
      AppliesExactly(stmts[0], c, w);
      AllApply(stmts[1..], c, w);
      hide Requests, Applicable;
      assert forall i | 0 < i < |stmts| :: stmts[i] == stmts[1..][i - 1];
    }
  }

  // ----- in which order requests are made -----

  /** A block makes the requests of its statements one after the other, and of a single one just its own. */
  lemma {:induction false} BlocksInOrder(first: seq<Stmt>, second: seq<Stmt>, s: Stmt, c: Context, w: World)
    ensures var a, b := Requests(Block(first), c, w), Requests(Block(second), c, w);
      Requests(Block(first + second), c, w)
        == if a.None? || b.None? then None else Some(a.value + b.value)
    ensures Requests(Block([s]), c, w) == Requests(s, c, w)
  {
    AllInOrder(first, second, c, w);
    assert [s][1..] == [] && RequestsOfAll([], c, w) == Some([]);
    assert Requests(Block([s]), c, w) == RequestsOfAll([s], c, w);
    var one := Requests(s, c, w);
    assert one.Some? ==> one.value + [] == one.value;
  }

  lemma {:induction false} AllInOrder(first: seq<Stmt>, second: seq<Stmt>, c: Context, w: World)
    ensures var a, b := RequestsOfAll(first, c, w), RequestsOfAll(second, c, w);
      RequestsOfAll(first + second, c, w)
        == if a.None? || b.None? then None else Some(a.value + b.value)
  {
    var b := RequestsOfAll(second, c, w);
    if first == [] {
      assert first + second == second && (b.Some? ==> [] + b.value == b.value);
    } else {
      AllInOrder(first[1..], second, c, w);
      assert (first + second)[1..] == first[1..] + second;
      var here, a := Requests(first[0], c, w), RequestsOfAll(first[1..], c, w);
      assert here.Some? && a.Some? && b.Some? ==> (here.value + a.value) + b.value == here.value + (a.value + b.value);
    }
  }

  /** A loop makes the requests of its rounds one after the other, and those of a round are the body's, with the
      variable bound. */
  lemma {:induction false} RoundsInOrder(
    first: seq<Value>, second: seq<Value>, v: Value, index: string, body: Stmt, c: Context, w: World)
    ensures var a, b := RequestsForEach(first, index, body, c, w), RequestsForEach(second, index, body, c, w);
      RequestsForEach(first + second, index, body, c, w)
        == if a.None? || b.None? then None else Some(a.value + b.value)
    ensures RequestsForEach([v], index, body, c, w) == Requests(body, Bind(c, index, v), w)
  {
    EachInOrder(first, second, index, body, c, w);
    assert [v][1..] == [] && RequestsForEach([], index, body, c, w) == Some([]);
    var one := Requests(body, Bind(c, index, v), w);
    assert one.Some? ==> one.value + [] == one.value;
    hide Requests;
  }

  lemma {:induction false} EachInOrder(
    first: seq<Value>, second: seq<Value>, index: string, body: Stmt, c: Context, w: World)
    ensures var a, b := RequestsForEach(first, index, body, c, w), RequestsForEach(second, index, body, c, w);
      RequestsForEach(first + second, index, body, c, w)
        == if a.None? || b.None? then None else Some(a.value + b.value)
    decreases |first|
  {
    hide Requests;
    var b := RequestsForEach(second, index, body, c, w);
    if first == [] {
      assert first + second == second && (b.Some? ==> [] + b.value == b.value);
    } else {
      EachInOrder(first[1..], second, index, body, c, w);
      assert (first + second)[1..] == first[1..] + second;
      var here, a := Requests(body, Bind(c, index, first[0]), w), RequestsForEach(first[1..], index, body, c, w);
      assert here.Some? && a.Some? && b.Some? ==> (here.value + a.value) + b.value == here.value + (a.value + b.value);
    }
  }
}
