/** Instrumentation code means what its statement says: the cost accounting and the nesting under flags change nothing
    but the observed cost. */
module MdlMeaning {
  import opened Options
  import opened Snippets
  import opened MdlCompile
  import opened MdlInstr

  // ----- what a statement says -----

  /** A block under its guard; None if evaluation traps. */
  function RunIcode(ic: Icode, c: Context, m: Machine): Option<Machine> {
    var go := if ic.guard.None? then Some(Outcome(m, 1)) else Meaning(ic.guard.value, c, m);
    if go.None? then None
    else if go.value.value == 0 then Some(go.value.machine)
    else
      var r := Meaning(ic.body, c, go.value.machine);
      if r.None? then None else Some(r.value.machine)
  }

  function RunIcodes(ics: seq<Icode>, c: Context, m: Machine): Option<Machine> {
    if ics == [] then Some(m) else
    var before := RunIcodes(ics[..|ics| - 1], c, m);
    if before.None? then None else RunIcode(ics[|ics| - 1], c, before.value)
  }

  predicate AllSet(flags: seq<string>, c: Context, m: Machine) {
    forall flag <- flags :: DataAt(m, Node(flag, c.multithreaded)) != 0
  }

  /** If the statement is constrained, nothing happens unless every flag is set; otherwise the blocks run in order. */
  function RunStatement(s: Stmt, c: Context, w: World, m: Machine): Option<Machine>
    requires s.Instr?
  {
    if s.constrained && !AllSet(w.flags, c, m) then Some(m) else RunIcodes(s.icodes, c, m)
  }

  // ----- agreement apart from the observed cost -----

  predicate SameButCost(a: Machine, b: Machine) {
    a.(globals := a.globals - {COST}) == b.(globals := b.globals - {COST})
  }

  predicate Agree(a: Option<Outcome>, b: Option<Outcome>) {
    if a.None? || b.None? then a.None? && b.None?
    else SameButCost(a.value.machine, b.value.machine) && a.value.value == b.value.value
  }

  /** The code's run and the statement's effect. */
  predicate Does(run: Option<Outcome>, effect: Option<Machine>) {
    if run.None? || effect.None? then run.None? && effect.None?
    else SameButCost(run.value.machine, effect.value)
  }

  /** The expression does not read the cost variable. */
  predicate Ignores(e: Expr, c: Context)
    decreases e, 0
  {
    match e
    case Index(_, index) => Ignores(index, c)
    case Binop(_, l, r) => Ignores(l, c) && Ignores(r, c)
    case Func(func, args) =>
      if func == "readSymbol" && args != [] then Interpret(args[0], c) != Some(StrV(COST)) else AllIgnore(args, c)
    case Assign(_, _, rhs) => Ignores(rhs, c)
    case Negate(operand) => Ignores(operand, c)
    case Increment(operand) => Ignores(operand, c)
    case _ => true
  }

  predicate AllIgnore(args: seq<Expr>, c: Context)
    decreases args, 1
  {
    args == [] || (Ignores(args[0], c) && AllIgnore(args[1..], c))
  }

  predicate IcodesIgnore(ics: seq<Icode>, c: Context) {
    forall ic <- ics :: Ignores(ic.body, c) && (ic.guard.Some? ==> Ignores(ic.guard.value, c))
  }

  lemma SameReads(a: Machine, b: Machine)
    requires SameButCost(a, b)
    ensures forall name :: name != COST ==> GlobalAt(a, name) == GlobalAt(b, name)
    ensures a.thread == b.thread && a.params == b.params && a.returned == b.returned && a.data == b.data
      && a.results == b.results && a.events == b.events && a.timers == b.timers
      && a.wall == b.wall && a.cpu == b.cpu && a.threadCpu == b.threadCpu
  {
    var noCost := a.globals - {COST};
    assert noCost == b.globals - {COST};
    forall name | name != COST
      ensures GlobalAt(a, name) == GlobalAt(b, name)
    {
      assert name in a.globals <==> name in noCost;
      assert name in b.globals <==> name in noCost;
    }
  }

  /** The value and the effects of an expression do not depend on the observed cost. */
  lemma {:induction false} MeaningIgnoresCost(e: Expr, c: Context, a: Machine, b: Machine)
    requires Ignores(e, c) && SameButCost(a, b)
    ensures Agree(Meaning(e, c, a), Meaning(e, c, b))
    decreases e, 0
  {
    hide Obeyed, CommandOf;
    SameReads(a, b);
    match e
    case Index(_, index) => MeaningIgnoresCost(index, c, a, b);
    case Binop(_, l, r) =>
      MeaningIgnoresCost(l, c, a, b);
      if Meaning(l, c, a).Some? {
        MeaningIgnoresCost(r, c, Meaning(l, c, a).value.machine, Meaning(l, c, b).value.machine);
      }
    case Func(func, args) =>
      if CommandOf(func, c.multithreaded).None? && func != "readSymbol" {
        AllMeaningsIgnoreCost(args, c, a, b);
      }
      CallIgnoresCost(e, c, a, b);
    case Assign(_, _, rhs) =>
      MeaningIgnoresCost(rhs, c, a, b);
      AssignmentIgnoresCost(e, c, a, b);
    case Negate(operand) => MeaningIgnoresCost(operand, c, a, b);
    case Increment(operand) => MeaningIgnoresCost(operand, c, a, b);
    case _ =>
  }

  /** Two evaluations of a list of arguments agree apart from the cost variable. */
  predicate AllAgree(args: seq<Expr>, c: Context, a: Machine, b: Machine) {
    var l, r := MeaningAll(args, c, a), MeaningAll(args, c, b);
    if l.None? || r.None? then l.None? && r.None?
    else SameButCost(l.value.machine, r.value.machine) && l.value.values == r.value.values
  }

  lemma {:induction false} ObeyedIgnoresCost(command: Command, node: Node, a: Machine, b: Machine)
    requires SameButCost(a, b)
    ensures Agree(Obeyed(a, command, node), Obeyed(b, command, node))
  {
    SameReads(a, b);
    assert TimerAt(a, node) == TimerAt(b, node) && Slot(a, node) == Slot(b, node);
  }

  lemma {:induction false} CallIgnoresCost(e: Expr, c: Context, a: Machine, b: Machine)
    requires e.Func? && Ignores(e, c) && SameButCost(a, b)
    requires CommandOf(e.func, c.multithreaded).None? && e.func != "readSymbol" ==> AllAgree(e.args, c, a, b)
    ensures Agree(Meaning(e, c, a), Meaning(e, c, b))
  {
    hide Obeyed, CommandOf;
    SameReads(a, b);
    if CommandOf(e.func, c.multithreaded).Some? && e.args != [] && Target(e.args[0], c).Some? {
      ObeyedIgnoresCost(CommandOf(e.func, c.multithreaded).value, Target(e.args[0], c).value, a, b);
    }
    if CommandOf(e.func, c.multithreaded).None? && e.func != "readSymbol" && MeaningAll(e.args, c, a).Some? {
      SameReads(MeaningAll(e.args, c, a).value.machine, MeaningAll(e.args, c, b).value.machine);
    }
  }

  lemma {:induction false} AssignmentIgnoresCost(e: Expr, c: Context, a: Machine, b: Machine)
    requires e.Assign? && SameButCost(a, b) && Agree(Meaning(e.rhs, c, a), Meaning(e.rhs, c, b))
    ensures Agree(Meaning(e, c, a), Meaning(e, c, b))
  {
    SameReads(a, b);
    if Meaning(e.rhs, c, a).Some? {
      SameReads(Meaning(e.rhs, c, a).value.machine, Meaning(e.rhs, c, b).value.machine);
    }
  }

  lemma {:induction false} AllMeaningsIgnoreCost(args: seq<Expr>, c: Context, a: Machine, b: Machine)
    requires AllIgnore(args, c) && SameButCost(a, b)
    ensures AllAgree(args, c, a, b)
    decreases args, 1
  {
    if args != [] {
      MeaningIgnoresCost(args[0], c, a, b);
      if Meaning(args[0], c, a).Some? {
        AllMeaningsIgnoreCost(args[1..], c, Meaning(args[0], c, a).value.machine, Meaning(args[0], c, b).value.machine);
      }
    }
  }

  // ----- the preservation theorems -----

  /** Compiled code, run on one machine, does what the expression means on any machine that differs in the observed
      cost only. */
  lemma {:induction false} CompiledAgrees(e: Expr, c: Context, a: Machine, b: Machine)
    requires WellScoped(c) && Ignores(e, c) && Compile(e, c).Some? && SameButCost(a, b)
    ensures Agree(Run(Compile(e, c).value, a), Meaning(e, c, b))
  {
    CompiledMeans(e, c, a);
    MeaningIgnoresCost(e, c, a, b);
  }

  lemma {:induction false} UpdateTouchesCostOnly(k: nat, m: Machine)
    ensures Run(CostUpdate(k), m).Some?
    ensures Run(CostUpdate(k), m).value.machine == StoreGlobal(m, COST, Wrap32(k + GlobalAt(m, COST)))
    ensures SameButCost(Run(CostUpdate(k), m).value.machine, m)
  {
    var sum := Arith(Plus, Const(k), Global(COST));
    assert Run(sum.left, m) == Some(Outcome(m, k)) && Run(sum.right, m) == Some(Outcome(m, GlobalAt(m, COST)));
    assert Run(sum, m) == Some(Outcome(m, Wrap32(k + GlobalAt(m, COST))));
  }

  /** Accounting after an action changes the observed cost only. */
  lemma {:induction false} AccountingIsSilent(action: Snippet, k: nat, m: Machine)
    ensures var accounted, plain := Run(Sequence(action, CostUpdate(k)), m), Run(action, m);
      if accounted.None? || plain.None? then accounted.None? && plain.None?
      else SameButCost(accounted.value.machine, plain.value.machine)
  {
    if Run(action, m).Some? {
      UpdateTouchesCostOnly(k, Run(action, m).value.machine);
    }
  }

  /** A conditional acts as its condition and, if that is not zero, its body. */
  lemma {:induction false} IfRuns(cond: Snippet, body: Snippet, m: Machine)
    ensures Run(cond, m).None? ==> Run(If(cond, body), m).None?
    ensures Run(cond, m).Some? && Run(cond, m).value.value == 0 ==>
      Run(If(cond, body), m) == Some(Outcome(Run(cond, m).value.machine, 0))
    ensures Run(cond, m).Some? && Run(cond, m).value.value != 0 ==>
      Run(If(cond, body), m) == Run(body, Run(cond, m).value.machine)
  {
    hide CallTimer, CallFunction, Arithmetic, Logic, DataAt, GlobalAt, StoreData, StoreGlobal;
  }

  /** The conditional that createIf builds acts as a conditional, but for the observed cost. */
  lemma {:induction false} CreateIfIsIf(cond: Snippet, action: Snippet, costs: Costs, m: Machine)
    ensures var built, go := Run(CreateIf(cond, action, costs), m), Run(cond, m);
      if go.None? then built.None?
      else if go.value.value == 0 then built.Some? && built.value.machine == go.value.machine
      else
        var inside := Run(action, go.value.machine);
        if built.None? || inside.None? then built.None? && inside.None?
        else SameButCost(built.value.machine, inside.value.machine)
  {
    var created, go := CreateIf(cond, action, costs), Run(cond, m);
    IfRuns(cond, created.body, m);
    if created.body != action && go.Some? {
      AccountingIsSilent(action, created.body.second.val.left.n, go.value.machine);
    }
    hide Run;
  }

  lemma {:induction false} IcodePreserved(ic: Icode, c: Context, costs: Costs, a: Machine, b: Machine)
    requires WellScoped(c) && IcodesIgnore([ic], c) && CompileIcode(ic, c, costs).Some? && SameButCost(a, b)
    ensures Does(Run(CompileIcode(ic, c, costs).value, a), RunIcode(ic, c, b))
  {
    assert ic in [ic];
    var body := Compile(ic.body, c).value;
    if ic.guard.None? {
      CompiledAgrees(ic.body, c, a, b);
    } else {
      var guard := Compile(ic.guard.value, c).value;
      CompiledAgrees(ic.guard.value, c, a, b);
      CreateIfIsIf(guard, body, costs, a);
      if Run(guard, a).Some? && Run(guard, a).value.value != 0 {
        CompiledAgrees(ic.body, c, Run(guard, a).value.machine, Meaning(ic.guard.value, c, b).value.machine);
      }
    }
  }

  lemma {:induction false} IcodesPreserved(ics: seq<Icode>, c: Context, costs: Costs, a: Machine, b: Machine)
    requires WellScoped(c) && IcodesIgnore(ics, c) && CompileIcodes(ics, c, costs).Some? && SameButCost(a, b)
    ensures Does(Run(CompileIcodes(ics, c, costs).value, a), RunIcodes(ics, c, b))
  {
    if ics != [] {
      var last := |ics| - 1;
      var before := CompileIcodes(ics[..last], c, costs).value;
      IcodesPreserved(ics[..last], c, costs, a, b);
      if last == 0 {
        IcodePreserved(ics[0], c, costs, a, b);
      } else if Run(before, a).Some? {
        IcodePreserved(ics[last], c, costs, Run(before, a).value.machine, RunIcodes(ics[..last], c, b).value);
      }
    }
  }

  /** Code nested under flags runs when every flag is set, and does nothing otherwise. */
  lemma {:induction false} FlagsPreserved(flags: seq<string>, code: Snippet, c: Context, costs: Costs, m: Machine)
    ensures var nested := Run(UnderFlags(flags, code, c, costs), m);
      if !AllSet(flags, c, m) then nested.Some? && SameButCost(nested.value.machine, m)
      else if nested.None? || Run(code, m).None? then nested.None? && Run(code, m).None?
      else SameButCost(nested.value.machine, Run(code, m).value.machine)
  {
    hide CallTimer, CallFunction, Arithmetic, Logic;
    if flags != [] {
      var inner := UnderFlags(flags[1..], code, c, costs);
      assert Run(FlagTest(flags[0], c), m) == Some(Outcome(m, DataAt(m, Node(flags[0], c.multithreaded))));
      CreateIfIsIf(FlagTest(flags[0], c), inner, costs, m);
      FlagsPreserved(flags[1..], code, c, costs, m);
      assert AllSet(flags, c, m)
        <==> DataAt(m, Node(flags[0], c.multithreaded)) != 0 && AllSet(flags[1..], c, m);
    }
  }

  /** The generated snippet of an instrumentation statement acts, apart from the observed cost, as the statement says:
      if it is unconstrained or all flags are set, its blocks run in order, each under its own guard; else nothing
      happens. It traps exactly when they do. */
  lemma {:induction false} StatementPreserved(s: Stmt, c: Context, w: World, m: Machine)
    requires s.Instr? && WellScoped(c) && IcodesIgnore(s.icodes, c) && StatementCode(s, c, w).Some?
    ensures Does(Run(StatementCode(s, c, w).value, m), RunStatement(s, c, w, m))
  {
    var code := CompileIcodes(s.icodes, c, w.costs).value;
    IcodesPreserved(s.icodes, c, w.costs, m, m);
    if s.constrained {
      FlagsPreserved(w.flags, code, c, w.costs, m);
    }
  }

  /** Every request of a statement puts a snippet with the statement's meaning at one of its points. */
  lemma RequestsPreserved(s: Stmt, c: Context, w: World, m: Machine, i: nat)
    requires s.Instr? && WellScoped(c) && IcodesIgnore(s.icodes, c)
    requires Requests(s, c, w).Some? && i < |Requests(s, c, w).value|
    ensures Does(Run(Requests(s, c, w).value[i].code, m), RunStatement(s, c, w, m))
    ensures Requests(s, c, w).value[i].point == PointsOf(s.at, c, w).value[i]
    ensures |Requests(s, c, w).value| == |PointsOf(s.at, c, w).value|
  {
    StatementPreserved(s, c, w, m);
  }
}
