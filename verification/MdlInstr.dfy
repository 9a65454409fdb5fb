/** Instrumentation statements: from guarded code blocks to the requests that put snippets at points. */
module MdlInstr {
  import opened Options
  import opened Snippets
  import opened MdlCompile

  // ----- conditionals that account for their cost -----

  /** What each kind of snippet node costs. */
  datatype Costs = Costs(
    constant: nat, load: nat, store: nat, arith: nat, branch: nat, timer: nat, calls: map<string, nat>)

  /** The cost of a snippet whatever its conditions say: the body of a conditional does not count. */
  function MinCost(s: Snippet, costs: Costs): nat
    decreases s, 0
  {
    match s
    case Nop => 0
    case Const(_) => costs.constant
    case Param(_) => costs.load
    case ReturnValue => costs.load
    case Data(_) => costs.load
    case Global(_) => costs.load
    case Arith(_, l, r) => costs.arith + MinCost(l, costs) + MinCost(r, costs)
    case Bool(_, l, r) => costs.arith + MinCost(l, costs) + MinCost(r, costs)
    case SetData(_, val) => costs.store + MinCost(val, costs)
    case SetGlobal(_, val) => costs.store + MinCost(val, costs)
    case Call(func, args) => (if func in costs.calls then costs.calls[func] else 0) + MinCosts(args, costs)
    case TimerCall(_, _) => costs.timer
    case If(cond, _) => costs.branch + MinCost(cond, costs)
    case Sequence(first, second) => MinCost(first, costs) + MinCost(second, costs)
  }

  function MinCosts(args: seq<Snippet>, costs: Costs): nat
    decreases args, 1
  {
    if args == [] then 0 else MinCost(args[0], costs) + MinCosts(args[1..], costs)
  }

  /** Adding `k` to the observed cost. */
  function CostUpdate(k: nat): Snippet {
    SetGlobal(COST, Arith(Plus, Const(k), Global(COST)))
  }

  const UPDATE_THRESHOLD := 5

  /** A conditional that, unless its body is too cheap to be worth it, also adds the body's cost and its own. */
  function CreateIf(cond: Snippet, action: Snippet, costs: Costs): Snippet {
    var body := MinCost(action, costs);
    var update := MinCost(CostUpdate(body), costs);
    If(cond,
       if body > UPDATE_THRESHOLD * update then Sequence(action, CostUpdate(body + update)) else action)
  }

  // ----- statements -----

  datatype Icode = Icode(guard: Option<Expr>, body: Expr)

  datatype Site = Entry | Return | Calls

  /** The points of one kind in the function a variable holds, as in `f.entry`. */
  datatype PointExpr = PointExpr(variable: string, site: Site)

  datatype Order = Prepend | Append

  datatype When = PreInsn | PostInsn

  datatype Stmt =
    | Instr(at: PointExpr, icodes: seq<Icode>, constrained: bool, order: Order, when: When)
    | For(index: string, list: Expr, loopBody: Stmt)
    | IfThen(test: Expr, thenBody: Stmt)
    | Block(stmts: seq<Stmt>)

  type Point = nat

  /** The points of each function, the cost model, and the flags of the constraints that apply. */
  datatype World = World(points: map<(string, Site), seq<Point>>, costs: Costs, flags: seq<string>)

  datatype Request = Request(point: Point, code: Snippet, when: When, order: Order)

  // ----- the code of one instrumentation statement -----

  function CompileIcode(ic: Icode, c: Context, costs: Costs): Option<Snippet> {
    var guard := if ic.guard.None? then Some(Nop) else Compile(ic.guard.value, c);
    if guard.None? then None else
    var body := Compile(ic.body, c);
    if body.None? then None
    else if ic.guard.None? then body
    else Some(CreateIf(guard.value, body.value, costs))
  }

  /** All the blocks of a statement, one after the other. */
  function CompileIcodes(ics: seq<Icode>, c: Context, costs: Costs): Option<Snippet> {
    if ics == [] then Some(Nop) else
    var last := |ics| - 1;
    var before := CompileIcodes(ics[..last], c, costs);
    if before.None? then None else
    var code := CompileIcode(ics[last], c, costs);
    if code.None? then None
    else if last == 0 then code
    else Some(Sequence(before.value, code.value))
  }

  function FlagTest(flag: string, c: Context): Snippet {
    Data(Node(flag, c.multithreaded))
  }

  /** The first flag is tested first. */
  function UnderFlags(flags: seq<string>, code: Snippet, c: Context, costs: Costs): Snippet {
    if flags == [] then code
    else CreateIf(FlagTest(flags[0], c), UnderFlags(flags[1..], code, c, costs), costs)
  }

  /** None if code generation fails; wrapping the absent code of an empty statement in a conditional fails. */
  function StatementCode(s: Stmt, c: Context, w: World): Option<Snippet>
    requires s.Instr?
  {
    var code := CompileIcodes(s.icodes, c, w.costs);
    if !s.constrained || w.flags == [] then code
    else if code.None? || s.icodes == [] then None
    else Some(UnderFlags(w.flags, code.value, c, w.costs))
  }

  function PointsOf(at: PointExpr, c: Context, w: World): Option<seq<Point>> {
    var f := Lookup(c, at.variable);
    if f.None? || !f.value.FunctionV? || (f.value.name, at.site) !in w.points then None
    else Some(w.points[(f.value.name, at.site)])
  }

  // ----- what a statement asks for -----

  function RequestsAt(points: seq<Point>, code: Snippet, s: Stmt): (r: seq<Request>)
    requires s.Instr?
  {
    seq(|points|, i requires 0 <= i < |points| => Request(points[i], code, s.when, s.order))
  }

  /** What a loop binds its variable to: names of functions the application lacks are passed over. */
  function Bindings(elements: seq<Value>, functions: set<string>): seq<Value> {
    if elements == [] then []
    else if !elements[0].ProcedureName? then [elements[0]] + Bindings(elements[1..], functions)
    else if elements[0].name in functions then [FunctionV(elements[0].name)] + Bindings(elements[1..], functions)
    else Bindings(elements[1..], functions)
  }

  /** A name of a function can be bound only if the application has the function, and then stands for the function. */
  predicate Bindable(e: Value, functions: set<string>) {
    e.ProcedureName? ==> e.name in functions
  }

  function BoundValue(e: Value): Value {
    if e.ProcedureName? then FunctionV(e.name) else e
  }

  /** The values are those of the elements at the given positions, which are in order and exactly those of the elements
      that can be bound. */
  ghost predicate BoundAt(values: seq<Value>, elements: seq<Value>, functions: set<string>, at: seq<nat>) {
    && |at| == |values|
    && (forall k | 0 <= k < |at| :: at[k] < |elements| && values[k] == BoundValue(elements[at[k]]))
    && (forall j, k | 0 <= j < k < |at| :: at[j] < at[k])
    && (forall i: nat | i < |elements| :: i in at <==> Bindable(elements[i], functions))
  }

  /** The values a loop over the elements binds its variable to, in turn. */
  ghost predicate Binds(values: seq<Value>, elements: seq<Value>, functions: set<string>) {
    exists at :: BoundAt(values, elements, functions, at)
  }

  lemma {:induction false} BindingsLast(elements: seq<Value>, functions: set<string>)
    requires elements != []
    ensures var last := |elements| - 1;
      Bindings(elements, functions) == Bindings(elements[..last], functions)
        + (if Bindable(elements[last], functions) then [BoundValue(elements[last])] else [])
  {
    var last := |elements| - 1;
    if last > 0 {
      BindingsLast(elements[1..], functions);
      assert elements[1..][..last - 1] == elements[..last][1..];
    }
  }

  lemma BoundAtLast(values: seq<Value>, elements: seq<Value>, functions: set<string>, at: seq<nat>)
    requires elements != [] && BoundAt(values, elements[..|elements| - 1], functions, at)
    ensures var last := |elements| - 1;
      if Bindable(elements[last], functions)
      then BoundAt(values + [BoundValue(elements[last])], elements, functions, at + [last])
      else BoundAt(values, elements, functions, at)
  {
    var last := |elements| - 1;
    assert forall i: nat | i < last :: elements[..last][i] == elements[i];
    assert last !in at;
    if Bindable(elements[last], functions) {
      assert forall i: nat :: i in at + [last] <==> i in at || i == last;
      hide Bindable, BoundValue;
    }
  }

  lemma {:induction false} BindingsBind(elements: seq<Value>, functions: set<string>)
    ensures Binds(Bindings(elements, functions), elements, functions)
  {
    if elements == [] {
      assert BoundAt([], elements, functions, []);
    } else {
      var last := |elements| - 1;
      BindingsBind(elements[..last], functions);
      BindingsLast(elements, functions);
      var before := Bindings(elements[..last], functions);
      var at :| BoundAt(before, elements[..last], functions, at);
      BoundAtLast(before, elements, functions, at);
      assert before + [] == before;
      hide BoundAt, Bindings;
    }
  }

  lemma BelowLast(at: seq<nat>)
    requires forall j, k | 0 <= j < k < |at| :: at[j] < at[k]
    ensures forall k | 0 <= k < |at| - 1 :: at[k] < at[|at| - 1]
  {
  }

  /** Without the last element. */
  lemma BoundBefore(values: seq<Value>, elements: seq<Value>, functions: set<string>, at: seq<nat>)
    requires elements != [] && BoundAt(values, elements, functions, at)
    ensures var last, n := |elements| - 1, |at| - 1;
      if Bindable(elements[last], functions)
      then
        && |at| > 0 && values[n] == BoundValue(elements[last])
        && BoundAt(values[..n], elements[..last], functions, at[..n])
      else BoundAt(values, elements[..last], functions, at)
  {
    var last := |elements| - 1;
    var shorter := at;
    if Bindable(elements[last], functions) {
      BelowLast(at);
      assert at[|at| - 1] == last by {
        var k :| 0 <= k < |at| && at[k] == last;
        assert at[|at| - 1] < |elements|;
      }
      shorter := at[..|at| - 1];
    }
    forall i: nat | i < last
      ensures i in shorter <==> Bindable(elements[..last][i], functions)
    {
      if i in at {
        var k :| 0 <= k < |at| && at[k] == i;
        assert k < |shorter| ==> shorter[k] == i;
      }
    }
    forall k | 0 <= k < |shorter|
      ensures shorter[k] < last
    {
      assert at[k] in at && at[k] < |elements|;
    }
  }

  /** There is only one such sequence of values. */
  lemma {:induction false} BindsOnly(values: seq<Value>, elements: seq<Value>, functions: set<string>, at: seq<nat>)
    requires BoundAt(values, elements, functions, at)
    ensures values == Bindings(elements, functions)
    decreases |elements|
  {
    if elements == [] {
      if values != [] {
        PositionsInRange(values, elements, functions, at);
      }
    } else {
      var last := |elements| - 1;
      BoundBefore(values, elements, functions, at);
      BindingsLast(elements, functions);
      hide BoundAt, Bindings;
      if Bindable(elements[last], functions) {
        BindsOnly(values[..|at| - 1], elements[..last], functions, at[..|at| - 1]);
        SameLength(values, elements, functions, at);
      } else {
        BindsOnly(values, elements[..last], functions, at);
        assert values + [] == values;
      }
    }
  }

  lemma SameLength(values: seq<Value>, elements: seq<Value>, functions: set<string>, at: seq<nat>)
    requires BoundAt(values, elements, functions, at) && |at| > 0
    ensures |values| == |at| && values == values[..|at| - 1] + [values[|at| - 1]]
  {
  }

  lemma BindsExactly(elements: seq<Value>, functions: set<string>)
    ensures Binds(Bindings(elements, functions), elements, functions)
    ensures forall values | Binds(values, elements, functions) :: values == Bindings(elements, functions)
  {
    BindingsBind(elements, functions);
    forall values | Binds(values, elements, functions)
      ensures values == Bindings(elements, functions)
    {
      var at :| BoundAt(values, elements, functions, at);
      BindsOnly(values, elements, functions, at);
    }
  }

  /** Elements that cannot be bound are passed over. */
  lemma {:induction false} PassedOver(elements: seq<Value>, functions: set<string>, i: nat, j: nat)
    requires i <= j <= |elements| && forall k | i <= k < j :: !Bindable(elements[k], functions)
    ensures Bindings(elements[i..], functions) == Bindings(elements[j..], functions)
    decreases j - i
  {
    if i < j {
      assert elements[i..][0] == elements[i] && elements[i..][1..] == elements[i + 1..];
      PassedOver(elements, functions, i + 1, j);
    }
  }

  lemma NextBound(elements: seq<Value>, functions: set<string>, i: nat, j: nat)
    requires i <= j < |elements| && forall k | i <= k < j :: !Bindable(elements[k], functions)
    requires Bindable(elements[j], functions)
    ensures Bindings(elements[i..], functions)
      == [BoundValue(elements[j])] + Bindings(elements[j + 1..], functions)
  {
    PassedOver(elements, functions, i, j);
    assert elements[j..][0] == elements[j] && elements[j..][1..] == elements[j + 1..];
  }

  lemma PositionsInRange(values: seq<Value>, elements: seq<Value>, functions: set<string>, at: seq<nat>)
    requires BoundAt(values, elements, functions, at) && values != []
    ensures elements != []
  {
    assert at[0] < |elements|;
  }

  /** What is bound: an element that is no name of a function, or a function that the application has and an element
      names. */
  predicate IsBound(v: Value, elements: seq<Value>, functions: set<string>) {
    || (v in elements && !v.ProcedureName?)
    || (v.FunctionV? && ProcedureName(v.name) in elements && v.name in functions)
  }

  lemma {:induction false} BoundExactly(elements: seq<Value>, functions: set<string>, v: Value)
    ensures v in Bindings(elements, functions) <==> IsBound(v, elements, functions)
  {
    if elements != [] {
      BoundExactly(elements[1..], functions, v);
      assert elements == [elements[0]] + elements[1..];
    }
  }

  function Bind(c: Context, name: string, v: Value): Context {
    c.(env := c.env[name := v])
  }

  function Requests(s: Stmt, c: Context, w: World): Option<seq<Request>>
    decreases s, 0
  {
    match s
    case Instr(at, _, _, _, _) =>
      var points := PointsOf(at, c, w);
      if points.None? then None else
      var code := StatementCode(s, c, w);
      if code.None? then None else Some(RequestsAt(points.value, code.value, s))
    case For(index, list, body) =>
      var inner := Bind(c, index, NoValue);
      var v := Interpret(list, inner);
      if v.None? || !v.value.ListV? then None
      else RequestsForEach(Bindings(v.value.elements, c.functions), index, body, inner, w)
    case IfThen(test, body) =>
      var v := Interpret(test, c);
      if v.None? || !v.value.IntV? then None
      else if v.value.n == 0 then Some([]) else Requests(body, c, w)
    case Block(stmts) => RequestsOfAll(stmts, c, w)
  }

  function RequestsForEach(values: seq<Value>, index: string, body: Stmt, c: Context, w: World): Option<seq<Request>>
    decreases body, 1, |values|
  {
    if values == [] then Some([]) else
    var first := Requests(body, Bind(c, index, values[0]), w);
    if first.None? then None else
    var rest := RequestsForEach(values[1..], index, body, c, w);
    if rest.None? then None else Some(first.value + rest.value)
  }

  function RequestsOfAll(stmts: seq<Stmt>, c: Context, w: World): Option<seq<Request>>
    decreases stmts, 1
  {
    if stmts == [] then Some([]) else
    var first := Requests(stmts[0], c, w);
    if first.None? then None else
    var rest := RequestsOfAll(stmts[1..], c, w);
    if rest.None? then None else Some(first.value + rest.value)
  }

  // ----- the generator -----

  /** A cursor over the elements of a list. */
  class ListClosure {
    const elements: seq<Value>
    var index: nat

    ghost predicate Valid()
      reads this
    {
      index <= |elements|
    }

    constructor (elements: seq<Value>)
      ensures Valid() && this.elements == elements && index == 0
    {
      this.elements := elements;
      index := 0;
    }

    /** Moves on to the next element that can be bound, and yields it. */
    method Next(functions: set<string>) returns (v: Option<Value>)
      requires Valid()
      modifies this
      ensures Valid() && old(index) <= index && (v.Some? ==> index > old(index))
      ensures forall i | old(index) <= i < (if v.Some? then index - 1 else |elements|) ::
        !Bindable(elements[i], functions)
      ensures v.Some? ==>
        Bindable(elements[index - 1], functions) && v.value == BoundValue(elements[index - 1])
      ensures Bindings(elements[old(index)..], functions)
        == if v.None? then [] else [v.value] + Bindings(elements[index..], functions)
    {
      ghost var start := index;
      v := None;
      while v == None && index < |elements|
        invariant start <= index <= |elements|
        invariant forall i | start <= i < (if v.Some? then index - 1 else index) :: !Bindable(elements[i], functions)
        invariant v.Some? ==>
          index > start && Bindable(elements[index - 1], functions) && v.value == BoundValue(elements[index - 1])
        decreases |elements| - index, v.None?
      {
        var e := elements[index];
        index := index + 1;
        if !e.ProcedureName? {
          v := Some(e);
        } else if e.name in functions {
          v := Some(FunctionV(e.name));
        }
      }
      if v.Some? {
        NextBound(elements, functions, start, index - 1);
      } else {
        PassedOver(elements, functions, start, index);
      }
    }
  }

  /** The daemon applying the statements of a metric to one code node. */
  class Generator {
    const world: World
    const functions: set<string>
    const symbols: set<string>
    const multithreaded: bool
    var env: map<string, Value>
    var requests: seq<Request>

    constructor (world: World, c: Context)
      ensures this.world == world && Scope() == c && requests == []
    {
      this.world := world;
      functions, symbols, multithreaded := c.functions, c.symbols, c.multithreaded;
      env := c.env;
      requests := [];
    }

    function Scope(): Context
      reads this
    {
      Context(env, functions, symbols, multithreaded)
    }

    /** The code of an instrumentation statement: its blocks in order, then its flags from the last one outwards. */
    method GenerateCode(s: Stmt) returns (code: Option<Snippet>)
      requires s.Instr?
      ensures code == StatementCode(s, Scope(), world)
    {
      var c := Scope();
      code := Some(Nop);
      var u := 0;
      while u < |s.icodes|
        invariant 0 <= u <= |s.icodes|
        invariant code == CompileIcodes(s.icodes[..u], c, world.costs)
        invariant code.Some?
      {
        ghost var done := s.icodes[..u + 1];
        assert done[..u] == s.icodes[..u] && done[u] == s.icodes[u];
        var block := CompileIcode(s.icodes[u], c, world.costs);
        if block.None? {
          NoCodeForPrefix(s.icodes, u + 1, c, world.costs);
          return None;
        }
        code := if u > 0 then Some(Sequence(code.value, block.value)) else block;
        u := u + 1;
      }
      assert s.icodes[..u] == s.icodes;
      if !s.constrained {
        return;
      }
      var flags := world.flags;
      ghost var blocks := code.value;
      var fi := |flags|;
      while fi > 0
        invariant 0 <= fi <= |flags|
        invariant fi < |flags| ==> s.icodes != []
        invariant code == Some(UnderFlags(flags[fi..], blocks, c, world.costs))
      {
        if s.icodes == [] {
          return None;
        }
        fi := fi - 1;
        assert flags[fi..][0] == flags[fi] && flags[fi..][1..] == flags[fi + 1..];
        code := Some(CreateIf(FlagTest(flags[fi], c), code.value, world.costs));
      }
    }

    /** Applying a statement: it succeeds exactly when the statement makes sense in this scope, and then adds exactly
        the requests the statement stands for, in order. A failed application may have added some requests. */
    method Apply(s: Stmt) returns (ok: bool)
      modifies this
      ensures ok == Requests(s, old(Scope()), world).Some?
      ensures ok ==> Scope() == old(Scope())
      ensures ok ==> requests == old(requests) + Requests(s, old(Scope()), world).value
      ensures old(requests) <= requests
      decreases s, 0
    {
      ghost var c := Scope();
      match s
      case Instr(at, _, _, order, when) =>
        var points := PointsOf(at, Scope(), world);
        var code := GenerateCode(s);
        if points.None? || code.None? {
          return false;
        }
        ghost var asked := RequestsAt(points.value, code.value, s);
        ghost var before := requests;
        var i := 0;
        while i < |points.value|
          invariant 0 <= i <= |points.value|
          invariant env == c.env && requests == before + asked[..i]
        {
          requests := requests + [Request(points.value[i], code.value, when, order)];
          i := i + 1;
        }
        assert asked[..i] == asked;
        return true;
      case For(index, list, body) =>
        ok := ApplyLoop(index, list, body);
      case IfThen(test, body) =>
        var v := Interpret(test, Scope());
        if v.None? || !v.value.IntV? {
          return false;
        }
        if v.value.n == 0 {
          return true;
        }
        ok := Apply(body);
      case Block(stmts) =>
        ghost var before := requests;
        ghost var done: seq<Request> := [];
        var index := 0;
        assert stmts[0..] == stmts;
        BeforeNothing(RequestsOfAll(stmts, c, world));
        while index < |stmts|
          invariant 0 <= index <= |stmts|
          invariant Scope() == c && requests == before + done
          invariant RequestsOfAll(stmts, c, world)
            == Before(done, RequestsOfAll(stmts[index..], c, world))
        {
          ghost var here := Requests(stmts[index], c, world);
          assert stmts[index..][0] == stmts[index] && stmts[index..][1..] == stmts[index + 1..];
          ok := Apply(stmts[index]);
          if !ok {
            return;
          }
          index := index + 1;
          BeforeBefore(done, here.value, RequestsOfAll(stmts[index..], c, world));
          done := done + here.value;
        }
        return true;
    }

    method ApplyLoop(index: string, list: Expr, body: Stmt) returns (ok: bool)
      modifies this
      ensures ok == Requests(For(index, list, body), old(Scope()), world).Some?
      ensures ok ==> Scope() == old(Scope())
      ensures ok ==> requests == old(requests) + Requests(For(index, list, body), old(Scope()), world).value
      ensures old(requests) <= requests
      decreases body, 4
    {
      var saved := env;
      env := env[index := NoValue];
      assert Scope() == Bind(old(Scope()), index, NoValue);
      var v := Interpret(list, Scope());
      if v.None? || !v.value.ListV? {
        return false;
      }
      BindingsBind(v.value.elements, functions);
      hide Binds, Bindings;
      ok := ApplyEach(v.value.elements, index, body);
      env := saved;
    }

    /** One round of a loop. */
    method ApplyOnce(index: string, v: Value, body: Stmt, ghost c: Context) returns (ok: bool)
      requires Scope().(env := env[index := NoValue]) == c && c.env[index] == NoValue
      modifies this
      ensures ok == Requests(body, Bind(c, index, v), world).Some?
      ensures ok ==> requests == old(requests) + Requests(body, Bind(c, index, v), world).value
      ensures ok ==> Scope().(env := env[index := NoValue]) == c
      ensures old(requests) <= requests
      decreases body, 1
    {
      assert env[index := v] == env[index := NoValue][index := v];
      env := env[index := v];
      assert Scope() == Bind(c, index, v);
      ok := Apply(body);
      assert ok ==> env[index := NoValue] == c.env[index := v][index := NoValue] == c.env;
    }

    /** The rounds of a loop whose variable is declared. */
    method ApplyEach(elements: seq<Value>, index: string, body: Stmt) returns (ok: bool)
      requires index in env && env[index] == NoValue
      modifies this
      ensures exists values :: Binds(values, elements, functions)
      ensures forall values | Binds(values, elements, functions) ::
        var asked := RequestsForEach(values, index, body, old(Scope()), world);
        && ok == asked.Some?
        && (ok ==> requests == old(requests) + asked.value)
      ensures old(requests) <= requests
      decreases body, 3
    {
      BindsExactly(elements, functions);
      hide Binds, Bindings, Requests, RequestsForEach;
      ok := ApplyRounds(elements, index, body);
    }

    method ApplyRounds(elements: seq<Value>, index: string, body: Stmt) returns (ok: bool)
      requires index in env && env[index] == NoValue
      modifies this
      ensures var asked := RequestsForEach(Bindings(elements, functions), index, body, old(Scope()), world);
        && ok == asked.Some?
        && (ok ==> requests == old(requests) + asked.value)
      ensures old(requests) <= requests
      decreases body, 2
    {
      hide Requests, RequestsForEach, Bindings, Before;
      ghost var c := Scope();
      ghost var pending := Bindings(elements, functions);
      ghost var all := RequestsForEach(pending, index, body, c, world);
      ghost var done: seq<Request> := [];
      BeforeNothing(all);
      var closure := new ListClosure(elements);
      assert elements[0..] == elements;
      var next := closure.Next(functions);
      while next.Some?
        invariant closure.Valid() && fresh(closure)
        invariant pending == Pending(next, closure.elements[closure.index..], functions)
        invariant Scope().(env := env[index := NoValue]) == c
        invariant requests == old(requests) + done
        invariant all == Before(done, RequestsForEach(pending, index, body, c, world))
        decreases |pending|
      {
        OneRound(done, pending, index, body, c, world);
        ghost var here := Requests(body, Bind(c, index, pending[0]), world);
        ok := ApplyOnce(index, next.value, body, c);
        if !ok {
          return;
        }
        done := done + here.value;
        next := closure.Next(functions);
        pending := pending[1..];
      }
      NoRounds(done, index, body, c, world);
      return true;
    }
  }

  // ----- bookkeeping for the loops -----

  ghost function Before(done: seq<Request>, rest: Option<seq<Request>>): Option<seq<Request>> {
    if rest.None? then None else Some(done + rest.value)
  }

  lemma OneRound(done: seq<Request>, values: seq<Value>, index: string, body: Stmt, c: Context, w: World)
    requires values != []
    ensures var here := Requests(body, Bind(c, index, values[0]), w);
      Before(done, RequestsForEach(values, index, body, c, w))
        == if here.None? then None
           else Before(done + here.value, RequestsForEach(values[1..], index, body, c, w))
  {
    var here := Requests(body, Bind(c, index, values[0]), w);
    if here.Some? {
      BeforeBefore(done, here.value, RequestsForEach(values[1..], index, body, c, w));
    }
  }

  lemma NoRounds(done: seq<Request>, index: string, body: Stmt, c: Context, w: World)
    ensures Before(done, RequestsForEach([], index, body, c, w)) == Some(done)
  {
    assert done + [] == done;
  }

  lemma BeforeNothing(rest: Option<seq<Request>>)
    ensures Before([], rest) == rest
  {
    if rest.Some? {
      assert [] + rest.value == rest.value;
    }
  }

  lemma BeforeBefore(done: seq<Request>, here: seq<Request>, rest: Option<seq<Request>>)
    ensures Before(done, Before(here, rest)) == Before(done + here, rest)
  {
    if rest.Some? {
      assert done + (here + rest.value) == (done + here) + rest.value;
    }
  }

  ghost function Pending(next: Option<Value>, rest: seq<Value>, functions: set<string>): seq<Value> {
    if next.None? then [] else [next.value] + Bindings(rest, functions)
  }

  lemma {:induction false} NoCodeForPrefix(ics: seq<Icode>, n: nat, c: Context, costs: Costs)
    requires n <= |ics| && CompileIcodes(ics[..n], c, costs).None?
    ensures CompileIcodes(ics, c, costs).None?
    decreases |ics|
  {
    if n < |ics| {
      var last := |ics| - 1;
      assert ics[..last][..n] == ics[..n];
      NoCodeForPrefix(ics[..last], n, c, costs);
    } else {
      assert ics[..n] == ics;
    }
  }
}
