/** What a whole statement asks for: every request comes from an instrumentation statement inside it, in the scope that
    its loops bind, and has that statement's meaning and cost. */
module MdlRequests {
  import opened Options
  import opened Snippets
  import opened MdlCompile
  import opened MdlInstr
  import opened MdlMeaning
  import opened MdlCost

  /** Applying the statement in a context applies the inner instrumentation statement in a scope: the inner one is
      under conditions that hold, and each loop around it has bound its variable to some element. */
  ghost predicate Within(s: Stmt, c: Context, inner: Stmt, scope: Context) {
    match s
    case Instr(_, _, _, _, _) => inner == s && scope == c
    case For(index, list, body) =>
      var declared := Bind(c, index, NoValue);
      var v := Interpret(list, declared);
      && v.Some? && v.value.ListV?
      && exists e | IsBound(e, v.value.elements, c.functions) :: Within(body, Bind(declared, index, e), inner, scope)
    case IfThen(test, body) =>
      && Interpret(test, c).Some? && Interpret(test, c).value.IntV? && Interpret(test, c).value.n != 0
      && Within(body, c, inner, scope)
    case Block(stmts) => exists i | 0 <= i < |stmts| :: Within(stmts[i], c, inner, scope)
  }

  /** The request is one of those that the instrumentation statement makes in the scope. */
  predicate AsksFor(inner: Stmt, scope: Context, w: World, r: Request) {
    && inner.Instr?
    && inner.at.variable in scope.env && scope.env[inner.at.variable].FunctionV?
    && (scope.env[inner.at.variable].name, inner.at.site) in w.points
    && r.point in w.points[(scope.env[inner.at.variable].name, inner.at.site)]
    && StatementCode(inner, scope, w) == Some(r.code)
    && r.when == inner.when && r.order == inner.order
  }

  ghost predicate Placed(s: Stmt, c: Context, w: World, r: Request) {
    exists inner, scope :: Within(s, c, inner, scope) && AsksFor(inner, scope, w, r)
  }

  lemma {:induction false} PlacedByInstr(s: Stmt, c: Context, w: World, r: Request)
    requires s.Instr? && Requests(s, c, w).Some?
    ensures r in Requests(s, c, w).value <==> Placed(s, c, w, r)
  {
    var points := PointsOf(s.at, c, w).value;
    if Placed(s, c, w, r) {
      var i :| 0 <= i < |points| && points[i] == r.point;
      assert Requests(s, c, w).value[i] == r;
    }
    if r in Requests(s, c, w).value {
      assert Within(s, c, s, c) && AsksFor(s, c, w, r);
    }
  }

  /** The requests of a statement are exactly those of the instrumentation statements inside it, each in its scope. */
  lemma {:induction false} RequestsArePlaced(s: Stmt, c: Context, w: World, r: Request)
    requires Requests(s, c, w).Some?
    ensures r in Requests(s, c, w).value <==> Placed(s, c, w, r)
    decreases s, 0
  {
    match s
    case Instr(_, _, _, _, _) => PlacedByInstr(s, c, w, r);
    case For(index, list, body) =>
      var declared := Bind(c, index, NoValue);
      var values := Bindings(Interpret(list, declared).value.elements, c.functions);
      EachIsPlaced(values, index, body, declared, w, r);
      LoopPlaces(s, c, w, r);
      AllBound(Interpret(list, declared).value.elements, c.functions);
    case IfThen(test, body) =>
      if Interpret(test, c).value.n != 0 {
        RequestsArePlaced(body, c, w, r);
        ConditionPlaces(s, c, w, r);
      }
    case Block(stmts) =>
      AllArePlaced(stmts, c, w, r);
      BlockPlaces(s, c, w, r);
  }

  lemma AllBound(elements: seq<Value>, functions: set<string>)
    ensures forall v :: v in Bindings(elements, functions) <==> IsBound(v, elements, functions)
  {
    forall v
      ensures v in Bindings(elements, functions) <==> IsBound(v, elements, functions)
    {
      BoundExactly(elements, functions, v);
    }
  }

  lemma LoopPlaces(s: Stmt, c: Context, w: World, r: Request)
    requires s.For?
    requires var v := Interpret(s.list, Bind(c, s.index, NoValue)); v.Some? && v.value.ListV?
    ensures var declared := Bind(c, s.index, NoValue);
      Placed(s, c, w, r) <==>
      exists e | IsBound(e, Interpret(s.list, declared).value.elements, c.functions) ::
        Placed(s.loopBody, Bind(declared, s.index, e), w, r)
  {
    var declared := Bind(c, s.index, NoValue);
    var elements := Interpret(s.list, declared).value.elements;
    if Placed(s, c, w, r) {
      var inner, scope :| Within(s, c, inner, scope) && AsksFor(inner, scope, w, r);
      var e :| IsBound(e, elements, c.functions) && Within(s.loopBody, Bind(declared, s.index, e), inner, scope);
      assert Placed(s.loopBody, Bind(declared, s.index, e), w, r);
    }
    if e :| IsBound(e, elements, c.functions) && Placed(s.loopBody, Bind(declared, s.index, e), w, r) {
      var inner, scope :| Within(s.loopBody, Bind(declared, s.index, e), inner, scope) && AsksFor(inner, scope, w, r);
      assert Within(s, c, inner, scope);
    }
  }

  lemma ConditionPlaces(s: Stmt, c: Context, w: World, r: Request)
    requires s.IfThen?
    requires Interpret(s.test, c).Some? && Interpret(s.test, c).value.IntV? && Interpret(s.test, c).value.n != 0
    ensures Placed(s, c, w, r) <==> Placed(s.thenBody, c, w, r)
  {
    if Placed(s.thenBody, c, w, r) {
      var inner, scope :| Within(s.thenBody, c, inner, scope) && AsksFor(inner, scope, w, r);
      assert Within(s, c, inner, scope);
    }
  }

  lemma BlockPlaces(s: Stmt, c: Context, w: World, r: Request)
    requires s.Block?
    ensures Placed(s, c, w, r) <==> exists i | 0 <= i < |s.stmts| :: Placed(s.stmts[i], c, w, r)
  {
    if Placed(s, c, w, r) {
      var inner, scope :| Within(s, c, inner, scope) && AsksFor(inner, scope, w, r);
      var i :| 0 <= i < |s.stmts| && Within(s.stmts[i], c, inner, scope);
      assert Placed(s.stmts[i], c, w, r);
    }
    if i :| 0 <= i < |s.stmts| && Placed(s.stmts[i], c, w, r) {
      var inner, scope :| Within(s.stmts[i], c, inner, scope) && AsksFor(inner, scope, w, r);
      assert Within(s, c, inner, scope);
    }
  }

  lemma {:induction false} EachIsPlaced(
    values: seq<Value>, index: string, body: Stmt, c: Context, w: World, r: Request)
    requires RequestsForEach(values, index, body, c, w).Some?
    ensures r in RequestsForEach(values, index, body, c, w).value
      <==> exists e <- values :: Placed(body, Bind(c, index, e), w, r)
    decreases body, 1, |values|
  {
    if values != [] {
      RequestsArePlaced(body, Bind(c, index, values[0]), w, r);
      EachIsPlaced(values[1..], index, body, c, w, r);
      hide Placed, Requests;
      assert forall e :: e in values <==> e == values[0] || e in values[1..];
    }
  }

  lemma {:induction false} AllArePlaced(stmts: seq<Stmt>, c: Context, w: World, r: Request)
    requires RequestsOfAll(stmts, c, w).Some?
    ensures r in RequestsOfAll(stmts, c, w).value
      <==> exists i | 0 <= i < |stmts| :: Placed(stmts[i], c, w, r)
    decreases stmts, 1
  {
    if stmts != [] {
      RequestsArePlaced(stmts[0], c, w, r);
      AllArePlaced(stmts[1..], c, w, r);
      hide Placed, Requests;
      if i :| 0 <= i < |stmts| && Placed(stmts[i], c, w, r) {
        assert i > 0 ==> stmts[1..][i - 1] == stmts[i];
      }
      if i :| 0 <= i < |stmts[1..]| && Placed(stmts[1..][i], c, w, r) {
        assert stmts[i + 1] == stmts[1..][i];
      }
    }
  }

  // ----- meaning and cost of every request -----

  /** No loop takes the name of the result of a call for its variable. */
  predicate IndicesPlain(s: Stmt) {
    match s
    case Instr(_, _, _, _, _) => true
    case For(index, _, body) => index != "$return" && IndicesPlain(body)
    case IfThen(_, body) => IndicesPlain(body)
    case Block(stmts) => forall i | 0 <= i < |stmts| :: IndicesPlain(stmts[i])
  }

  lemma {:induction false} InnerScopeIsWell(s: Stmt, c: Context, inner: Stmt, scope: Context)
    requires WellScoped(c) && IndicesPlain(s) && Within(s, c, inner, scope)
    ensures inner.Instr? && WellScoped(scope)
  {
    match s
    case Instr(_, _, _, _, _) =>
    case For(index, list, body) =>
      var declared := Bind(c, index, NoValue);
      var e :| IsBound(e, Interpret(list, declared).value.elements, c.functions)
            && Within(body, Bind(declared, index, e), inner, scope);
      InnerScopeIsWell(body, Bind(declared, index, e), inner, scope);
    case IfThen(test, body) => InnerScopeIsWell(body, c, inner, scope);
    case Block(stmts) =>
      var i :| 0 <= i < |stmts| && Within(stmts[i], c, inner, scope);
      InnerScopeIsWell(stmts[i], c, inner, scope);
  }

  /** Every request of any statement puts a snippet at a point of an instrumentation statement inside it, in its bound
      scope, and the snippet acts as that statement says. */
  lemma {:induction false} EveryRequestPreserved(s: Stmt, c: Context, w: World, m: Machine, r: Request)
    requires WellScoped(c) && IndicesPlain(s)
    requires forall inner, scope | Within(s, c, inner, scope) && inner.Instr? :: IcodesIgnore(inner.icodes, scope)
    requires Requests(s, c, w).Some? && r in Requests(s, c, w).value
    ensures exists inner, scope ::
      && Within(s, c, inner, scope) && AsksFor(inner, scope, w, r)
      && Does(Run(r.code, m), RunStatement(inner, scope, w, m))
  {
    RequestsArePlaced(s, c, w, r);
    var inner, scope :| Within(s, c, inner, scope) && AsksFor(inner, scope, w, r);
    InnerScopeIsWell(s, c, inner, scope);
    StatementPreserved(inner, scope, w, m);
  }

  /** No request of any statement over-charges. */
  lemma {:induction false} EveryRequestNeverOverCharges(s: Stmt, c: Context, w: World, m: Machine, r: Request)
    requires Requests(s, c, w).Some? && r in Requests(s, c, w).value
    requires Run(r.code, m).Some? && Int32(GlobalAt(m, COST))
    ensures var charge := Charged(r.code, m);
      var executed := Executed(r.code, m, w.costs);
      && GlobalAt(Run(r.code, m).value.machine, COST) == Wrap32(charge + GlobalAt(m, COST))
      && charge + MinCost(r.code, w.costs) <= executed
      && executed - (charge + MinCost(r.code, w.costs)) <= Allowance(r.code, m, w.costs)
      && (Covered(r.code) ==> charge + MinCost(r.code, w.costs) == executed)
  {
    hide Run, Charged, Executed, Allowance, Covered, MinCost, GlobalAt, Within, Requests, StatementCode, Wrap32;
    RequestsArePlaced(s, c, w, r);
    var inner, scope :| Within(s, c, inner, scope) && AsksFor(inner, scope, w, r);
    NeverOverCharges(inner, scope, w, m);
  }
}
