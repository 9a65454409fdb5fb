/** The observed cost never over-charges: what generated code adds to the cost variable against what it executes. */
module MdlCost {
  import opened Options
  import opened Snippets
  import opened MdlCompile
  import opened MdlInstr
  import opened MdlMeaning

  // ----- what running costs -----

  /** What a run executes: as MinCost, and the bodies of the conditionals that are taken. */
  function Executed(s: Snippet, m: Machine, costs: Costs): nat
    decreases s, 0
  {
    match s
    case Nop => 0
    case Const(_) => costs.constant
    case Param(_) => costs.load
    case ReturnValue => costs.load
    case Data(_) => costs.load
    case Global(_) => costs.load
    case Arith(_, l, r) =>
      costs.arith + Executed(l, m, costs) + (if Run(l, m).None? then 0 else Executed(r, Run(l, m).value.machine, costs))
    case Bool(_, l, r) =>
      costs.arith + Executed(l, m, costs) + (if Run(l, m).None? then 0 else Executed(r, Run(l, m).value.machine, costs))
    case SetData(_, val) => costs.store + Executed(val, m, costs)
    case SetGlobal(_, val) => costs.store + Executed(val, m, costs)
    case Call(func, args) =>
      (if func in costs.calls then costs.calls[func] else 0) + ExecutedAll(args, m, costs)
    case TimerCall(_, _) => costs.timer
    case If(cond, body) =>
      costs.branch + Executed(cond, m, costs) + (if Taken(cond, m) then Executed(body, After(cond, m), costs) else 0)
    case Sequence(first, second) =>
      Executed(first, m, costs) + (if Run(first, m).None? then 0 else Executed(second, After(first, m), costs))
  }

  function ExecutedAll(args: seq<Snippet>, m: Machine, costs: Costs): nat
    decreases args, 1
  {
    if args == [] then 0 else
    var rest := if Run(args[0], m).None? then 0 else ExecutedAll(args[1..], Run(args[0], m).value.machine, costs);
    Executed(args[0], m, costs) + rest
  }

  predicate Taken(cond: Snippet, m: Machine) {
    Run(cond, m).Some? && Run(cond, m).value.value != 0
  }

  /** The machine a run leaves. */
  function After(s: Snippet, m: Machine): Machine {
    if Run(s, m).None? then m else Run(s, m).value.machine
  }

  predicate IsUpdate(s: Snippet) {
    && s.SetGlobal? && s.name == COST
    && s.val.Arith? && s.val.aop == Plus && s.val.left.Const? && s.val.left.n >= 0 && s.val.right == Global(COST)
  }

  /** The sum of the amounts that the cost updates in a run add. */
  function Charged(s: Snippet, m: Machine): nat {
    match s
    case SetGlobal(_, _) => if IsUpdate(s) then s.val.left.n else 0
    case If(cond, body) => if Taken(cond, m) then Charged(body, After(cond, m)) else 0
    case Sequence(first, second) => Charged(first, m) + Charged(second, After(first, m))
    case _ => 0
  }

  predicate Accounts(body: Snippet) {
    body.Sequence? && IsUpdate(body.second)
  }

  /** The unconditional costs of the taken bodies that no update accounts for. */
  function Missed(s: Snippet, m: Machine, costs: Costs): nat {
    match s
    case If(cond, body) =>
      if !Taken(cond, m) then 0
      else Missed(body, After(cond, m), costs) + (if Accounts(body) then 0 else MinCost(body, costs))
    case Sequence(first, second) => Missed(first, m, costs) + Missed(second, After(first, m), costs)
    case _ => 0
  }

  /** How many bodies without an update a run enters. */
  function Unaccounted(s: Snippet, m: Machine): nat {
    match s
    case If(cond, body) =>
      if !Taken(cond, m) then 0 else Unaccounted(body, After(cond, m)) + (if Accounts(body) then 0 else 1)
    case Sequence(first, second) => Unaccounted(first, m) + Unaccounted(second, After(first, m))
    case _ => 0
  }

  /** What an update of the cost variable costs: it loads the variable, adds a constant and stores the sum. */
  function UpdateCost(costs: Costs): nat {
    costs.store + costs.arith + costs.constant + costs.load
  }

  // ----- the shape of generated code -----

  /** Code of an expression: no conditional, no sequencing, no global stored. */
  predicate Straight(s: Snippet)
    decreases s, 0
  {
    match s
    case Arith(_, l, r) => Straight(l) && Straight(r)
    case Bool(_, l, r) => Straight(l) && Straight(r)
    case SetData(_, val) => Straight(val)
    case SetGlobal(_, _) => false
    case Call(_, args) => AllStraight(args)
    case If(_, _) => false
    case Sequence(_, _) => false
    case _ => true
  }

  predicate AllStraight(args: seq<Snippet>)
    decreases args, 1
  {
    args == [] || (Straight(args[0]) && AllStraight(args[1..]))
  }

  /** What createIf and sequencing build from straight code. */
  predicate Built(s: Snippet, costs: Costs) {
    match s
    case Sequence(first, second) => Built(first, costs) && Built(second, costs)
    case If(cond, body) =>
      && Straight(cond)
      && if Accounts(body) then
           Built(body.first, costs) && AccountsFor(body, costs)
         else
           Built(body, costs) && MinCost(body, costs) <= 5 * UpdateCost(costs)
    case _ => Straight(s)
  }

  /** The update adds the cost of what precedes it, and its own. */
  predicate AccountsFor(body: Snippet, costs: Costs)
    requires Accounts(body)
  {
    body.second.val.left.n == MinCost(body.first, costs) + UpdateCost(costs)
  }

  /** Every conditional passes the threshold. */
  predicate Covered(s: Snippet) {
    match s
    case Sequence(first, second) => Covered(first) && Covered(second)
    case If(_, body) => Accounts(body) && Covered(body)
    case _ => true
  }

  lemma {:induction false} CompiledIsStraight(e: Expr, c: Context)
    requires Compile(e, c).Some?
    ensures Straight(Compile(e, c).value)
    decreases e, 0
  {
    match e
    case Binop(_, l, r) =>
      CompiledIsStraight(l, c);
      CompiledIsStraight(r, c);
    case Func(func, args) =>
      if TimerRoutine(func, c.multithreaded).None? && func != "readSymbol" {
        CompiledAreStraight(args, c);
      }
    case Assign(_, how, rhs) =>
      CompiledIsStraight(rhs, c);
      StraightCounter(Node(c.env[e.name].name, c.multithreaded), how, Compile(rhs, c).value);
    case Increment(operand) => StraightCounter(Target(operand, c).value, AddTo, Const(1));
    case _ =>
  }

  lemma {:induction false} StraightCounter(node: Node, how: Assignment, arg: Snippet)
    requires Straight(arg)
    ensures Straight(CreateCounter(node, how, arg))
  {
    if how != SetTo {
      assert Straight(CreateCounter(node, how, arg).val);
    }
  }

  lemma {:induction false} CompiledAreStraight(args: seq<Expr>, c: Context)
    requires CompileAll(args, c).Some?
    ensures AllStraight(CompileAll(args, c).value)
    decreases args, 1
  {
    if args != [] {
      var compiled := CompileAll(args, c).value;
      assert compiled[1..] == CompileAll(args[1..], c).value;
      CompiledIsStraight(args[0], c);
      CompiledAreStraight(args[1..], c);
    }
  }

  /** Built code never ends in an update of its own. */
  lemma {:induction false} BuiltDoesNotAccount(s: Snippet, costs: Costs)
    requires Built(s, costs)
    ensures !Accounts(s)
  {
  }

  /** createIf charges exactly when the body costs more than five updates, and then the body's cost plus the
      update's. */
  lemma {:induction false} CreateIfIsBuilt(cond: Snippet, action: Snippet, costs: Costs)
    requires Straight(cond) && Built(action, costs)
    ensures var s := CreateIf(cond, action, costs);
      && Built(s, costs)
      && (Accounts(s.body) <==> MinCost(action, costs) > 5 * UpdateCost(costs))
  {
    BuiltDoesNotAccount(action, costs);
    UpdateCostIsFixed(MinCost(action, costs), costs);
    AccountsForAction(action, costs);
  }

  lemma AccountsForAction(action: Snippet, costs: Costs)
    ensures var body := Sequence(action, CostUpdate(MinCost(action, costs) + UpdateCost(costs)));
      Accounts(body) && AccountsFor(body, costs)
  {
  }

  lemma {:induction false} UpdateCostIsFixed(k: nat, costs: Costs)
    ensures MinCost(CostUpdate(k), costs) == UpdateCost(costs)
  {
    assert MinCost(Arith(Plus, Const(k), Global(COST)), costs) == costs.arith + costs.constant + costs.load;
  }

  /** Entering the body of a conditional charges if and only if the body costs more than five times what a load, an
      addition of a constant and a store cost; and then the body's cost and theirs. */
  lemma {:induction false} CreateIfCharges(cond: Snippet, action: Snippet, costs: Costs, m: Machine)
    requires Straight(cond) && Built(action, costs) && Taken(cond, m)
    ensures Charged(CreateIf(cond, action, costs), m) == Charged(action, After(cond, m))
      + (if MinCost(action, costs) > 5 * (costs.store + costs.arith + costs.constant + costs.load)
         then MinCost(action, costs) + (costs.store + costs.arith + costs.constant + costs.load) else 0)
  {
    hide MinCost, Built, Straight, Run, After, Taken;
    UpdateCostIsFixed(MinCost(action, costs), costs);
    ChargedByUpdate(action, MinCost(action, costs) + UpdateCost(costs), After(cond, m));
  }

  lemma {:induction false} ChargedByUpdate(action: Snippet, k: nat, m: Machine)
    ensures Charged(Sequence(action, CostUpdate(k)), m) == Charged(action, m) + k
  {
  }

  lemma IcodeIsBuilt(ic: Icode, c: Context, costs: Costs)
    requires CompileIcode(ic, c, costs).Some?
    ensures Built(CompileIcode(ic, c, costs).value, costs)
  {
    CompiledIsStraight(ic.body, c);
    if ic.guard.Some? {
      CompiledIsStraight(ic.guard.value, c);
      CreateIfIsBuilt(Compile(ic.guard.value, c).value, Compile(ic.body, c).value, costs);
    }
  }

  lemma {:induction false} IcodesAreBuilt(ics: seq<Icode>, c: Context, costs: Costs)
    requires CompileIcodes(ics, c, costs).Some?
    ensures Built(CompileIcodes(ics, c, costs).value, costs)
  {
    if ics != [] {
      IcodesAreBuilt(ics[..|ics| - 1], c, costs);
      IcodeIsBuilt(ics[|ics| - 1], c, costs);
    }
  }

  lemma {:induction false} UnderFlagsIsBuilt(flags: seq<string>, code: Snippet, c: Context, costs: Costs)
    requires Built(code, costs)
    ensures Built(UnderFlags(flags, code, c, costs), costs)
  {
    if flags != [] {
      UnderFlagsIsBuilt(flags[1..], code, c, costs);
      CreateIfIsBuilt(FlagTest(flags[0], c), UnderFlags(flags[1..], code, c, costs), costs);
    }
  }

  lemma StatementIsBuilt(s: Stmt, c: Context, w: World)
    requires s.Instr? && StatementCode(s, c, w).Some?
    ensures Built(StatementCode(s, c, w).value, w.costs)
  {
    IcodesAreBuilt(s.icodes, c, w.costs);
    if s.constrained {
      UnderFlagsIsBuilt(w.flags, CompileIcodes(s.icodes, c, w.costs).value, c, w.costs);
    }
  }

  // ----- the accounting identity -----

  /** Straight code executes its whole cost and leaves the globals alone. */
  lemma {:induction false} StraightCosts(s: Snippet, m: Machine, costs: Costs)
    requires Straight(s) && Run(s, m).Some?
    ensures Executed(s, m, costs) == MinCost(s, costs)
    ensures Run(s, m).value.machine.globals == m.globals
    decreases s, 0
  {
    hide CallTimer;
    match s
    case TimerCall(func, node) => TimersLeaveGlobals(func, node, m);
    case Arith(_, l, r) =>
      StraightCosts(l, m, costs);
      StraightCosts(r, Run(l, m).value.machine, costs);
    case Bool(_, l, r) =>
      StraightCosts(l, m, costs);
      StraightCosts(r, Run(l, m).value.machine, costs);
    case SetData(_, val) => StraightCosts(val, m, costs);
    case Call(_, args) => AllStraightCosts(args, m, costs);
    case _ =>
  }

  lemma {:induction false} TimersLeaveGlobals(func: string, node: Node, m: Machine)
    requires CallTimer(m, func, node).Some?
    ensures CallTimer(m, func, node).value.machine.globals == m.globals
  {
    hide StartTimer, StopTimer, Slot, WentBack;
  }

  lemma {:induction false} AllStraightCosts(args: seq<Snippet>, m: Machine, costs: Costs)
    requires AllStraight(args) && RunAll(args, m).Some?
    ensures ExecutedAll(args, m, costs) == MinCosts(args, costs)
    ensures RunAll(args, m).value.machine.globals == m.globals
    decreases args, 1
  {
    if args != [] {
      StraightCosts(args[0], m, costs);
      AllStraightCosts(args[1..], Run(args[0], m).value.machine, costs);
    }
  }

  /** A cost update costs its fixed price and adds its constant. */
  lemma {:induction false} UpdateCosts(s: Snippet, m: Machine, costs: Costs)
    requires IsUpdate(s)
    ensures Run(s, m).Some? && Executed(s, m, costs) == UpdateCost(costs)
    ensures GlobalAt(After(s, m), COST) == Wrap32(s.val.left.n + GlobalAt(m, COST))
    ensures Charged(s, m) == s.val.left.n && Missed(s, m, costs) == 0 && Unaccounted(s, m) == 0
  {
    var k := s.val.left.n;
    assert s == CostUpdate(k);
    UpdateTouchesCostOnly(k, m);
    UpdateCostIsFixed(k, costs);
    assert Run(s.val.left, m) == Some(Outcome(m, k));
    assert Executed(s.val, m, costs) == costs.arith + costs.constant + costs.load;
  }

  /** Generated code, or the accounted body of a conditional in it. */
  predicate Generated(s: Snippet, costs: Costs) {
    if Accounts(s) then Built(s.first, costs) && AccountsFor(s, costs) else Built(s, costs)
  }

  /** What a run of generated code executes is the code's unconditional cost, plus what it charged, plus what it
      missed. An accounted body charges its unconditional cost itself. */
  lemma {:induction false} Accounting(s: Snippet, m: Machine, costs: Costs)
    requires Generated(s, costs) && Run(s, m).Some?
    ensures Executed(s, m, costs)
      == Charged(s, m) + Missed(s, m, costs) + (if Accounts(s) then 0 else MinCost(s, costs))
  {
    match s
    case Sequence(first, second) =>
      BuiltDoesNotAccount(first, costs);
      Accounting(first, m, costs);
      if Accounts(s) {
        UpdateCosts(second, After(first, m), costs);
      } else {
        BuiltDoesNotAccount(second, costs);
        Accounting(second, After(first, m), costs);
      }
    case If(cond, body) =>
      StraightCosts(cond, m, costs);
      if Taken(cond, m) {
        Accounting(body, After(cond, m), costs);
      }
      AccountingInside(cond, body, m, costs);
    case _ => StraightCosts(s, m, costs);
    hide Accounts, IsUpdate, Straight, UpdateCost;
  }

  /** The accounting of a conditional, from that of its body if it is entered. */
  lemma {:induction false} AccountingInside(cond: Snippet, body: Snippet, m: Machine, costs: Costs)
    requires Run(If(cond, body), m).Some? && Executed(cond, m, costs) == MinCost(cond, costs)
    requires Charged(cond, m) == 0 && Missed(cond, m, costs) == 0
    requires Taken(cond, m) ==>
      (Executed(body, After(cond, m), costs)
       == Charged(body, After(cond, m)) + Missed(body, After(cond, m), costs)
          + (if Accounts(body) then 0 else MinCost(body, costs)))
    ensures Executed(If(cond, body), m, costs)
      == Charged(If(cond, body), m) + Missed(If(cond, body), m, costs) + MinCost(If(cond, body), costs)
  {
  }

  /** What a run may miss. */
  function Allowance(s: Snippet, m: Machine, costs: Costs): nat {
    5 * UpdateCost(costs) * Unaccounted(s, m)
  }

  lemma {:induction false} CountsInTurn(first: Snippet, second: Snippet, m: Machine, costs: Costs)
    ensures var whole, mid := Sequence(first, second), After(first, m);
      && Missed(whole, m, costs) == Missed(first, m, costs) + Missed(second, mid, costs)
      && Unaccounted(whole, m) == Unaccounted(first, m) + Unaccounted(second, mid)
  {
  }

  lemma {:induction false} MissesInTurn(first: Snippet, second: Snippet, m: Machine, costs: Costs)
    requires Missed(first, m, costs) <= Allowance(first, m, costs)
    requires Missed(second, After(first, m), costs) <= Allowance(second, After(first, m), costs)
    ensures Missed(Sequence(first, second), m, costs) <= Allowance(Sequence(first, second), m, costs)
  {
    CountsInTurn(first, second, m, costs);
    hide Missed, Unaccounted, After, Run, UpdateCost;
    Distribute(5 * UpdateCost(costs), Unaccounted(first, m), Unaccounted(second, After(first, m)));
  }

  lemma {:induction false} MissesInside(cond: Snippet, body: Snippet, m: Machine, costs: Costs)
    requires Taken(cond, m) && Missed(body, After(cond, m), costs) <= Allowance(body, After(cond, m), costs)
    requires !Accounts(body) ==> MinCost(body, costs) <= 5 * UpdateCost(costs)
    ensures Missed(If(cond, body), m, costs) <= Allowance(If(cond, body), m, costs)
  {
    Distribute(5 * UpdateCost(costs), Unaccounted(body, After(cond, m)), 1);
  }

  /** A run misses at most the threshold for each body it enters unaccounted. */
  lemma {:induction false} MissesLittle(s: Snippet, m: Machine, costs: Costs)
    requires Generated(s, costs)
    ensures Missed(s, m, costs) <= Allowance(s, m, costs)
  {
    match s
    case Sequence(first, second) =>
      BuiltDoesNotAccount(first, costs);
      MissesLittle(first, m, costs);
      if !Accounts(s) {
        BuiltDoesNotAccount(second, costs);
        MissesLittle(second, After(first, m), costs);
      }
      MissesInTurn(first, second, m, costs);
    case If(cond, body) =>
      if Taken(cond, m) {
        MissesLittle(body, After(cond, m), costs);
        MissesInside(cond, body, m, costs);
      }
    case _ =>
  }

  lemma Distribute(k: nat, a: nat, b: nat)
    ensures k * (a + b) == k * a + k * b
  {
  }

  lemma WrapAdds(a: int, b: int, c: int)
    ensures Wrap32(a + Wrap32(b + c)) == Wrap32((b + a) + c)
  {
  }

  /** A value of a 32-bit variable. */
  predicate Int32(n: int) {
    -0x8000_0000 <= n < 0x8000_0000
  }

  /** The run adds exactly what it charges to the cost variable, on 32 bits. */
  predicate RisesAsCharged(s: Snippet, m: Machine) {
    GlobalAt(After(s, m), COST) == Wrap32(Charged(s, m) + GlobalAt(m, COST))
  }

  lemma {:induction false} RunsInTurn(first: Snippet, second: Snippet, m: Machine)
    requires Run(Sequence(first, second), m).Some?
    ensures After(Sequence(first, second), m) == After(second, After(first, m))
    ensures Charged(Sequence(first, second), m) == Charged(first, m) + Charged(second, After(first, m))
  {
  }

  lemma {:induction false} RisesInTurn(whole: Snippet, first: Snippet, second: Snippet, m: Machine)
    requires After(whole, m) == After(second, After(first, m))
    requires Charged(whole, m) == Charged(first, m) + Charged(second, After(first, m))
    requires RisesAsCharged(first, m) && RisesAsCharged(second, After(first, m))
    ensures RisesAsCharged(whole, m)
  {
    hide Run, Charged, After, Wrap32, GlobalAt;
    WrapAdds(Charged(second, After(first, m)), Charged(first, m), GlobalAt(m, COST));
  }

  lemma {:induction false} RisesInside(cond: Snippet, body: Snippet, m: Machine)
    requires Run(If(cond, body), m).Some? && Run(cond, m).value.machine.globals == m.globals
    requires Taken(cond, m) && RisesAsCharged(body, After(cond, m))
    ensures RisesAsCharged(If(cond, body), m)
  {
  }

  lemma {:induction false} CostVariable(s: Snippet, m: Machine, costs: Costs)
    requires Run(s, m).Some? && Int32(GlobalAt(m, COST))
    requires Generated(s, costs)
    ensures RisesAsCharged(s, m)
  {
    match s
    case Sequence(first, second) =>
      BuiltDoesNotAccount(first, costs);
      CostVariable(first, m, costs);
      if Accounts(s) {
        UpdateCosts(second, After(first, m), costs);
      } else {
        BuiltDoesNotAccount(second, costs);
        CostVariable(second, After(first, m), costs);
      }
      RunsInTurn(first, second, m);
      RisesInTurn(s, first, second, m);
    case If(cond, body) =>
      StraightCosts(cond, m, costs);
      if Taken(cond, m) {
        CostVariable(body, After(cond, m), costs);
        RisesInside(cond, body, m);
      } else {
        NotEnteredRises(cond, body, m);
      }
    case _ =>
      StraightCosts(s, m, costs);
      StraightRises(s, m);
    hide Charged, After, GlobalAt, Wrap32, Straight;
  }

  lemma {:induction false} NotEnteredRises(cond: Snippet, body: Snippet, m: Machine)
    requires Run(If(cond, body), m).Some? && Run(cond, m).value.machine.globals == m.globals
    requires !Taken(cond, m) && Int32(GlobalAt(m, COST))
    ensures RisesAsCharged(If(cond, body), m)
  {
  }

  lemma {:induction false} StraightRises(s: Snippet, m: Machine)
    requires Run(s, m).Some? && Run(s, m).value.machine.globals == m.globals && Int32(GlobalAt(m, COST))
    requires !s.Sequence? && !s.If? && !s.SetGlobal?
    ensures RisesAsCharged(s, m)
  {
  }

  lemma {:induction false} CoveredMissesNothing(s: Snippet, m: Machine, costs: Costs)
    requires Covered(s)
    ensures Missed(s, m, costs) == 0
  {
    match s
    case Sequence(first, second) =>
      CoveredMissesNothing(first, m, costs);
      CoveredMissesNothing(second, After(first, m), costs);
    case If(cond, body) => CoveredMissesNothing(body, After(cond, m), costs);
    case _ =>
  }

  /** The observed cost of an instrumentation statement: a run adds to the cost variable some amount that, with the
      code's unconditional cost, never exceeds what the run executed; it falls short by at most five updates' cost
      for each body entered unaccounted, and by nothing if every conditional in the code passes the threshold. */
  lemma NeverOverCharges(s: Stmt, c: Context, w: World, m: Machine)
    requires s.Instr? && StatementCode(s, c, w).Some?
    requires Run(StatementCode(s, c, w).value, m).Some? && Int32(GlobalAt(m, COST))
    ensures var code := StatementCode(s, c, w).value;
      var charge := Charged(code, m);
      var executed := Executed(code, m, w.costs);
      && GlobalAt(Run(code, m).value.machine, "DYNINSTobsCostLow")
         == Wrap32(charge + GlobalAt(m, "DYNINSTobsCostLow"))
      && charge + MinCost(code, w.costs) <= executed
      && executed - (charge + MinCost(code, w.costs)) <= Allowance(code, m, w.costs)
      && (Covered(code) ==> charge + MinCost(code, w.costs) == executed)
  {
    var code := StatementCode(s, c, w).value;
    StatementIsBuilt(s, c, w);
    BuiltDoesNotAccount(code, w.costs);
    Accounting(code, m, w.costs);
    MissesLittle(code, m, w.costs);
    CostVariable(code, m, w.costs);
    if Covered(code) {
      CoveredMissesNothing(code, m, w.costs);
    }
  }
}
