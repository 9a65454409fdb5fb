/** The generated send and receive routines, as an encoder and a decoder over a table of types. The primitive bundlers
    are given: a primitive is one item of the stream. */
module Marshal {
  import opened Options
  import opened MarshalTypes

  /** Data of the application. A record holds the fields its own definition declares and those it inherits; `Unset` is
      a field that a receiver left as the constructor made it. */
  datatype Value =
    | Unset
    | Number(n: int)
    | Record(own: seq<Value>, inherited: seq<Value>)
    | Null
    | To(target: Value)
    | Object(cls: nat, own: seq<Value>, inherited: seq<Value>)
    | Vector(elements: seq<Value>)

  datatype Got<+T> = Got(value: T, rest: seq<int>)

  /** The ancestors of a definition, nearest first. */
  function Chain(table: Table, i: nat): (c: seq<nat>)
    requires WellFormed(table) && i < |table|
    ensures forall u | 0 <= u < |c| :: c[u] < i
    decreases i
  {
    if table[i].parent.None? then [] else [table[i].parent.value] + Chain(table, table[i].parent.value)
  }

  /** The chain starts at the parent and goes from each definition to its parent, up to one that has none; what is in it
      are the ancestors. */
  lemma {:induction false} ChainClimbs(table: Table, i: nat, k: nat)
    requires WellFormed(table) && i < |table|
    ensures var c := Chain(table, i);
      && (k in c <==> IsDescendant(table, i, k))
      && (forall u | 0 <= u < |c| :: c[u] < |table| && table[if u == 0 then i else c[u - 1]].parent == Some(c[u]))
      && table[if c == [] then i else c[|c| - 1]].parent == None
    decreases i
  {
    if table[i].parent.Some? {
      var p := table[i].parent.value;
      ChainClimbs(table, p, k);
      assert Chain(table, i) == [p] + Chain(table, p);
    }
  }

  function Size(table: Table, i: nat): nat {
    if i < |table| then |table[i].fields| else 0
  }

  function FieldsOf(table: Table, chain: seq<nat>): seq<Type> {
    if chain == [] then []
    else (if chain[0] < |table| then table[chain[0]].fields else []) + FieldsOf(table, chain[1..])
  }

  function Inherited(table: Table, i: nat): seq<Type>
    requires WellFormed(table) && i < |table|
  {
    FieldsOf(table, Chain(table, i))
  }

  /** What the generated C++ needs in order to exist: kids of classes are classes, and no ancestor of a class that is
      sent declares more fields than the class itself, because the routine indexes the class's own fields. */
  predicate Compiles(table: Table) {
    && WellFormed(table)
    && (forall i | 0 <= i < |table| && table[i].parent.Some? ::
          table[table[i].parent.value].isClass ==> table[i].isClass)
    && (forall i | 0 <= i < |table| && table[i].isClass && !table[i].isAbstract ::
          Fits(table, Chain(table, i), |table[i].fields|))
  }

  predicate Fits(table: Table, chain: seq<nat>, n: nat) {
    forall a <- chain :: Size(table, a) <= n
  }

  // ----- which values belong to a type -----

  function Copies(t: Type, n: nat): seq<Type> {
    seq(n, _ => t)
  }

  predicate HasType(table: Table, v: Value, t: Type)
    requires Compiles(table)
    decreases v, 0
  {
    match t
    case Prim => v.Number?
    case ByValue(i) =>
      && i < |table| && v.Record?
      && HaveTypes(table, v.own, table[i].fields) && HaveTypes(table, v.inherited, Inherited(table, i))
    case VectorOf(e) =>
      v.Vector? && |v.elements| < 0x1_0000_0000 && HaveTypes(table, v.elements, Copies(e, |v.elements|))
    case Pointer(i) =>
      && i < |table|
      && (v.Null?
          || if table[i].isClass then
               && v.Object? && v.cls < |table| && Under(table, v.cls, i)
               && table[v.cls].isClass && !table[v.cls].isAbstract
               && HaveTypes(table, v.own, table[v.cls].fields)
               && HaveTypes(table, v.inherited, Inherited(table, v.cls))
             else
               v.To? && HasType(table, v.target, ByValue(i)))
  }

  predicate HaveTypes(table: Table, vs: seq<Value>, ts: seq<Type>)
    requires Compiles(table)
    decreases vs, 1
  {
    |vs| == |ts| && (vs == [] || (HasType(table, vs[0], ts[0]) && HaveTypes(table, vs[1..], ts[1..])))
  }

  // ----- the send routines -----

  function Encode(table: Table, base: nat, v: Value, t: Type): seq<int>
    requires Compiles(table) && HasType(table, v, t)
    decreases v, 1, 0
  {
    match t
    case Prim => [v.n]
    case ByValue(i) => EncodeAll(table, base, v.own, table[i].fields)
    case VectorOf(e) => [|v.elements|] + EncodeAll(table, base, v.elements, Copies(e, |v.elements|))
    case Pointer(i) =>
      if !table[i].isClass then
        if v.Null? then [1] else [0] + Encode(table, base, v.target, ByValue(i))
      else if v.Null? then [1, ClassId(table, base, i)]
      else [0, ClassId(table, base, v.cls)] + EncodeObject(table, base, v)
  }

  /** The virtual `marshall` of an object: its own fields, and then, for each ancestor, some of them again. */
  function EncodeObject(table: Table, base: nat, v: Value): seq<int>
    requires Compiles(table) && v.Object? && v.cls < |table| && table[v.cls].isClass && !table[v.cls].isAbstract
    requires HaveTypes(table, v.own, table[v.cls].fields)
    decreases v, 0, 0
  {
    EncodeAll(table, base, v.own, table[v.cls].fields)
      + EncodeAgain(table, base, v.own, table[v.cls].fields, Chain(table, v.cls))
  }

  /** For each ancestor, the class's own leading fields again, as many as the ancestor declares. */
  function EncodeAgain(table: Table, base: nat, own: seq<Value>, ts: seq<Type>, chain: seq<nat>): seq<int>
    requires Compiles(table) && HaveTypes(table, own, ts) && Fits(table, chain, |own|)
    decreases own, 3, |chain|
  {
    if chain == [] then [] else
    assert chain[0] in chain;
    var n := Size(table, chain[0]);
    TypesOfPrefix(table, own, ts, n);
    assert own[..|own|] == own;
    EncodeAll(table, base, own[..n], ts[..n]) + EncodeAgain(table, base, own, ts, chain[1..])
  }

  function EncodeAll(table: Table, base: nat, vs: seq<Value>, ts: seq<Type>): seq<int>
    requires Compiles(table) && HaveTypes(table, vs, ts)
    decreases vs, 2, 0
  {
    if vs == [] then [] else Encode(table, base, vs[0], ts[0]) + EncodeAll(table, base, vs[1..], ts[1..])
  }

  lemma {:induction false} TypesOfPrefix(table: Table, vs: seq<Value>, ts: seq<Type>, n: nat)
    requires Compiles(table) && HaveTypes(table, vs, ts) && n <= |vs|
    ensures HaveTypes(table, vs[..n], ts[..n])
  {
    if n > 0 {
      TypesOfPrefix(table, vs[1..], ts[1..], n - 1);
      assert vs[..n][1..] == vs[1..][..n - 1] && ts[..n][1..] == ts[1..][..n - 1];
    }
  }

  /** What a stream starts with: a pointer with 1 if it is null and 0 otherwise, and for a class then with the id of
      the object's class, or of the pointer's if it is null; a vector with its length. An object follows with its own
      fields, and then, for its ancestors, some of them again. */
  lemma OnTheWire(table: Table, base: nat, v: Value, t: Type)
    requires Compiles(table) && HasType(table, v, t)
    ensures var s := Encode(table, base, v, t);
      match t
      case Prim => s == [v.n]
      case ByValue(_) => true
      case VectorOf(_) => s != [] && s[0] == |v.elements|
      case Pointer(i) =>
        && s != [] && s[0] == (if v.Null? then 1 else 0)
        && (table[i].isClass ==> |s| >= 2 && s[1] == ClassId(table, base, if v.Null? then i else v.cls))
        && (v.Object? ==>
              s[2..] == EncodeAll(table, base, v.own, table[v.cls].fields)
                        + EncodeAgain(table, base, v.own, table[v.cls].fields, Chain(table, v.cls)))
  {
  }

  /** Fields are sent one after the other, each as a value of its type. */
  lemma {:induction false} FieldsInOrder(
    table: Table, base: nat, first: seq<Value>, second: seq<Value>, ts: seq<Type>, us: seq<Type>, v: Value, t: Type)
    requires Compiles(table) && HaveTypes(table, first, ts) && HaveTypes(table, second, us) && HasType(table, v, t)
    ensures HaveTypes(table, first + second, ts + us) && HaveTypes(table, [v], [t])
    ensures EncodeAll(table, base, first + second, ts + us)
      == EncodeAll(table, base, first, ts) + EncodeAll(table, base, second, us)
    ensures EncodeAll(table, base, [v], [t]) == Encode(table, base, v, t)
  {
    TypedInOrder(table, base, first, second, ts, us);
    assert [v][1..] == [] && [t][1..] == [] && HaveTypes(table, [], []);
    assert Encode(table, base, v, t) + EncodeAll(table, base, [], []) == Encode(table, base, v, t);
    hide Encode;
  }

  lemma {:induction false} TypesInOrder(
    table: Table, first: seq<Value>, second: seq<Value>, ts: seq<Type>, us: seq<Type>)
    requires Compiles(table) && HaveTypes(table, first, ts) && HaveTypes(table, second, us)
    ensures HaveTypes(table, first + second, ts + us)
    decreases |first|
  {
    hide HasType;
    if first == [] {
      assert first + second == second && ts + us == us;
    } else {
      TypesInOrder(table, first[1..], second, ts[1..], us);
      assert (first + second)[1..] == first[1..] + second && (ts + us)[1..] == ts[1..] + us;
    }
  }

  lemma {:induction false} FirstOnTheWire(table: Table, base: nat, vs: seq<Value>, ts: seq<Type>)
    requires Compiles(table) && HaveTypes(table, vs, ts) && vs != []
    ensures HaveTypes(table, vs[1..], ts[1..]) && HasType(table, vs[0], ts[0])
    ensures EncodeAll(table, base, vs, ts)
      == Encode(table, base, vs[0], ts[0]) + EncodeAll(table, base, vs[1..], ts[1..])
  {
  }

  lemma {:induction false} TypedInOrder(
    table: Table, base: nat, first: seq<Value>, second: seq<Value>, ts: seq<Type>, us: seq<Type>)
    requires Compiles(table) && HaveTypes(table, first, ts) && HaveTypes(table, second, us)
    ensures HaveTypes(table, first + second, ts + us)
    ensures EncodeAll(table, base, first + second, ts + us)
      == EncodeAll(table, base, first, ts) + EncodeAll(table, base, second, us)
    decreases |first|
  {
    TypesInOrder(table, first, second, ts, us);
    if first == [] {
      assert first + second == second && ts + us == us && EncodeAll(table, base, first, ts) == [];
    } else {
      FirstOnTheWire(table, base, first, ts);
      TypedInOrder(table, base, first[1..], second, ts[1..], us);
      OneMoreOnTheWire(table, base, first, second, ts, us);
    }
    hide *;
  }

  lemma {:induction false} OneMoreOnTheWire(
    table: Table, base: nat, first: seq<Value>, second: seq<Value>, ts: seq<Type>, us: seq<Type>)
    requires Compiles(table) && first != [] && HaveTypes(table, first, ts) && HaveTypes(table, second, us)
    requires HaveTypes(table, first + second, ts + us)
    requires HaveTypes(table, first[1..], ts[1..]) && HaveTypes(table, first[1..] + second, ts[1..] + us)
    requires EncodeAll(table, base, first[1..] + second, ts[1..] + us)
      == EncodeAll(table, base, first[1..], ts[1..]) + EncodeAll(table, base, second, us)
    ensures EncodeAll(table, base, first + second, ts + us)
      == EncodeAll(table, base, first, ts) + EncodeAll(table, base, second, us)
  {
    assert (first + second)[1..] == first[1..] + second && (ts + us)[1..] == ts[1..] + us;
    FirstOnTheWire(table, base, first, ts);
    FirstOnTheWire(table, base, first + second, ts + us);
    hide *;
  }

  /** An object's own fields are followed, for each ancestor in turn, by as many of its own leading fields as the
      ancestor declares. */
  lemma {:induction false} SentAgainInOrder(
    table: Table, base: nat, own: seq<Value>, ts: seq<Type>, near: seq<nat>, far: seq<nat>, a: nat)
    requires Compiles(table) && HaveTypes(table, own, ts)
    requires Fits(table, near + far, |own|) && Size(table, a) <= |own|
    ensures Fits(table, near, |own|) && Fits(table, far, |own|)
    ensures EncodeAgain(table, base, own, ts, near + far)
      == EncodeAgain(table, base, own, ts, near) + EncodeAgain(table, base, own, ts, far)
    ensures var n := Size(table, a);
      && HaveTypes(table, own[..n], ts[..n])
      && EncodeAgain(table, base, own, ts, [a]) == EncodeAll(table, base, own[..n], ts[..n])
  {
    var n := Size(table, a);
    TypesOfPrefix(table, own, ts, n);
    assert [a][1..] == [] && EncodeAgain(table, base, own, ts, []) == [];
    AgainInOrder(table, base, own, ts, near, far);
    hide EncodeAll;
  }

  lemma {:induction false} AgainInOrder(
    table: Table, base: nat, own: seq<Value>, ts: seq<Type>, near: seq<nat>, far: seq<nat>)
    requires Compiles(table) && HaveTypes(table, own, ts) && Fits(table, near + far, |own|)
    ensures Fits(table, near, |own|) && Fits(table, far, |own|)
    ensures EncodeAgain(table, base, own, ts, near + far)
      == EncodeAgain(table, base, own, ts, near) + EncodeAgain(table, base, own, ts, far)
    decreases |near|
  {
    hide EncodeAll, Compiles, HaveTypes;
    assert forall a <- near :: a in near + far;
    assert forall a <- far :: a in near + far;
    if near == [] {
      assert near + far == far;
    } else {
      assert (near + far)[1..] == near[1..] + far;
      AgainInOrder(table, base, own, ts, near[1..], far);
    }
  }

  // ----- the receive routines -----

  /** The class cases of a receiver of a pointer to class i. */
  function Cases(table: Table, i: nat): seq<nat>
    requires WellFormed(table) && i < |table|
  {
    (if table[i].isAbstract then [] else [i]) + DumpKids(table, i)
  }

  /** The case that a tag selects. */
  function FindCase(table: Table, base: nat, tag: int, cases: seq<nat>): (k: Option<nat>)
    ensures k.Some? ==> k.value < |table| && k.value in cases
  {
    if cases == [] then None
    else if cases[0] < |table| && ClassId(table, base, cases[0]) == tag then Some(cases[0])
    else FindCase(table, base, tag, cases[1..])
  }

  predicate AllKnown(ts: seq<Type>, n: nat, bound: nat) {
    forall u | 0 <= u < |ts| :: Known(ts[u], n) && Base(ts[u]) <= bound
  }

  lemma {:induction false} KnownBase(t: Type, n: nat, m: nat)
    requires Known(t, n) && n <= m
    ensures Base(t) <= n && Known(t, m)
  {
    if t.VectorOf? {
      KnownBase(t.element, n, m);
    }
  }

  lemma FieldsKnown(table: Table, i: nat)
    requires WellFormed(table) && i < |table|
    ensures AllKnown(table[i].fields, |table|, i)
  {
    forall u | 0 <= u < |table[i].fields|
      ensures Known(table[i].fields[u], |table|) && Base(table[i].fields[u]) <= i
    {
      assert table[i].fields[u] in table[i].fields;
      KnownBase(table[i].fields[u], i, |table|);
    }
  }

  function Unsets(n: nat): seq<Value> {
    seq(n, _ => Unset)
  }

  function Decode(table: Table, base: nat, t: Type, s: seq<int>): (r: Option<Got<Value>>)
    requires Compiles(table) && Known(t, |table|)
    ensures r.Some? ==> |r.value.rest| <= |s|
    decreases |s|, Base(t), 0, 0
  {
    match t
    case Prim => if s == [] then None else Some(Got(Number(s[0]), s[1..]))
    case ByValue(i) =>
      FieldsKnown(table, i);
      var own := DecodeAll(table, base, table[i].fields, i, s);
      if own.None? then None
      else Some(Got(Record(own.value.value, Unsets(|Inherited(table, i)|)), own.value.rest))
    case VectorOf(e) =>
      if s == [] || s[0] < 0 then None else
      var es := DecodeAll(table, base, Copies(e, s[0]), Base(e), s[1..]);
      if es.None? then None else Some(Got(Vector(es.value.value), es.value.rest))
    case Pointer(i) =>
      if s == [] then None
      else if !table[i].isClass then
        if s[0] != 0 then Some(Got(Null, s[1..])) else
        var r := Decode(table, base, ByValue(i), s[1..]);
        if r.None? then None else Some(Got(To(r.value.value), r.value.rest))
      else if |s| < 2 then None
      else if s[0] != 0 then Some(Got(Null, s[2..]))
      else
        var k := FindCase(table, base, s[1], Cases(table, i));
        if k.None? then None else DecodeObject(table, base, k.value, s[2..])
  }

  function DecodeAll(table: Table, base: nat, ts: seq<Type>, bound: nat, s: seq<int>): (r: Option<Got<seq<Value>>>)
    requires Compiles(table) && AllKnown(ts, |table|, bound)
    ensures r.Some? ==> |r.value.rest| <= |s| && |r.value.value| == |ts|
    decreases |s|, bound, 1, |ts|
  {
    if ts == [] then Some(Got([], s)) else
    var first := Decode(table, base, ts[0], s);
    if first.None? then None else
    var others := DecodeAll(table, base, ts[1..], bound, first.value.rest);
    if others.None? then None else Some(Got([first.value.value] + others.value.value, others.value.rest))
  }

  function DecodeObject(table: Table, base: nat, k: nat, s: seq<int>): (r: Option<Got<Value>>)
    requires Compiles(table) && k < |table|
    ensures r.Some? ==> |r.value.rest| <= |s|
    decreases |s|, k, 3, 0
  {
    FieldsKnown(table, k);
    var own := DecodeAll(table, base, table[k].fields, k, s);
    if own.None? then None else
    var again := DecodeAgain(table, base, own.value.value, table[k].fields, k, Chain(table, k), own.value.rest);
    if again.None? then None
    else Some(Got(Object(k, again.value.value, Unsets(|Inherited(table, k)|)), again.value.rest))
  }

  /** For each ancestor, the class's own leading fields are read again; reading past them fails. */
  function DecodeAgain(
    table: Table, base: nat, own: seq<Value>, ts: seq<Type>, bound: nat, chain: seq<nat>, s: seq<int>)
    : (r: Option<Got<seq<Value>>>)
    requires Compiles(table) && AllKnown(ts, |table|, bound) && |own| == |ts|
    ensures r.Some? ==> |r.value.rest| <= |s|
    decreases |s|, bound, 2, |chain|
  {
    if chain == [] then Some(Got(own, s)) else
    var n := Size(table, chain[0]);
    if n > |ts| then None else
    var prefix := DecodeAll(table, base, ts[..n], bound, s);
    if prefix.None? then None
    else DecodeAgain(table, base, prefix.value.value + own[n..], ts, bound, chain[1..], prefix.value.rest)
  }

  // ----- the receiver's cases -----

  lemma {:induction false} CountIsIn(k: nat, ks: seq<nat>)
    ensures Count(k, ks) > 0 <==> k in ks
  {
    if ks != [] {
      CountIsIn(k, ks[1..]);
      assert ks == [ks[0]] + ks[1..];
    }
  }

  lemma {:induction false} DescendantsAreClasses(table: Table, k: nat, i: nat)
    requires Compiles(table) && i < |table| && k < |table| && table[i].isClass && Under(table, k, i)
    ensures table[k].isClass
    decreases k
  {
    if k != i {
      DescendantsAreClasses(table, table[k].parent.value, i);
    }
  }

  /** The cases are the class itself unless it is abstract, and all its descendants; each once. */
  lemma CasesAreDescendants(table: Table, i: nat, k: nat)
    requires WellFormed(table) && i < |table| && k < |table|
    ensures Count(k, Cases(table, i))
      == if (k == i && !table[i].isAbstract) || IsDescendant(table, k, i) then 1 else 0
  {
    CountAppend(k, if table[i].isAbstract then [] else [i], DumpKids(table, i));
    DumpKidsOnce(table, i, k);
    DescendantsAreLater(table, k, i);
    assert Count(k, [i]) == if i == k then 1 else 0;
  }

  lemma {:induction false} TagFindsCase(table: Table, base: nat, k: nat, cases: seq<nat>)
    requires k < |table| && table[k].isClass && k in cases
    requires forall u | 0 <= u < |cases| :: cases[u] < |table| && table[cases[u]].isClass
    ensures FindCase(table, base, ClassId(table, base, k), cases) == Some(k)
  {
    ClassIdsDiffer(table, base, cases[0], k);
    if cases[0] != k {
      TagFindsCase(table, base, k, cases[1..]);
    }
  }

  /** A tag that is no case's id selects none, and the receiver fails. */
  lemma {:induction false} UnknownTagFails(table: Table, base: nat, i: nat, tag: int, rest: seq<int>)
    requires Compiles(table) && i < |table| && table[i].isClass
    requires forall k <- Cases(table, i) :: k < |table| ==> ClassId(table, base, k) != tag
    ensures Decode(table, base, Pointer(i), [0, tag] + rest) == None
  {
    NoCase(table, base, tag, Cases(table, i));
  }

  lemma {:induction false} NoCase(table: Table, base: nat, tag: int, cases: seq<nat>)
    requires forall k <- cases :: k < |table| ==> ClassId(table, base, k) != tag
    ensures FindCase(table, base, tag, cases) == None
  {
    if cases != [] {
      NoCase(table, base, tag, cases[1..]);
    }
  }

  predicate AllBelow(ks: seq<nat>, n: nat) {
    forall u | 0 <= u < |ks| :: ks[u] < n
  }

  lemma {:induction false} DumpsInRange(table: Table, from: nat, ks: seq<nat>)
    requires WellFormed(table) && forall u | 0 <= u < |ks| :: from <= ks[u] < |table|
    ensures AllBelow(DumpAll(table, from, ks), |table|)
    decreases |table| - from, |ks|
  {
    if ks != [] {
      KidsAreLater(table, ks[0]);
      DumpsInRange(table, ks[0] + 1, Kids(table, ks[0]));
      DumpsInRange(table, from, ks[1..]);
      assert AllBelow([ks[0]] + DumpKids(table, ks[0]), |table|);
    }
  }

  /** Whatever class an object has, its tag takes the receiver to that class. */
  lemma TagSelects(table: Table, base: nat, i: nat, k: nat)
    requires Compiles(table) && i < |table| && k < |table|
    requires table[i].isClass && Under(table, k, i) && !table[k].isAbstract
    ensures FindCase(table, base, ClassId(table, base, k), Cases(table, i)) == Some(k)
  {
    var cases := Cases(table, i);
    KidsAreLater(table, i);
    DumpsInRange(table, i + 1, Kids(table, i));
    assert AllBelow(cases, |table|);
    forall u | 0 <= u < |cases|
      ensures cases[u] < |table| && table[cases[u]].isClass
    {
      CasesAreDescendants(table, i, cases[u]);
      CountIsIn(cases[u], cases);
      DescendantsAreClasses(table, cases[u], i);
    }
    DescendantsAreClasses(table, k, i);
    CasesAreDescendants(table, i, k);
    CountIsIn(k, cases);
    TagFindsCase(table, base, k, cases);
  }

  // ----- the round trip -----

  /** What is left of a value when no inherited field is transferred. */
  function Forget(v: Value): Value
    decreases v, 0
  {
    match v
    case Record(own, inherited) => Record(ForgetAll(own), Unsets(|inherited|))
    case To(target) => To(Forget(target))
    case Object(cls, own, inherited) => Object(cls, ForgetAll(own), Unsets(|inherited|))
    case Vector(elements) => Vector(ForgetAll(elements))
    case _ => v
  }

  function ForgetAll(vs: seq<Value>): (r: seq<Value>)
    ensures |r| == |vs|
    decreases vs, 1
  {
    if vs == [] then [] else [Forget(vs[0])] + ForgetAll(vs[1..])
  }

  lemma {:induction false} ForgetPrefix(vs: seq<Value>, n: nat)
    requires n <= |vs|
    ensures ForgetAll(vs[..n]) == ForgetAll(vs)[..n]
  {
    if n > 0 {
      assert vs[..n][1..] == vs[1..][..n - 1];
      ForgetPrefix(vs[1..], n - 1);
    }
  }

  lemma {:induction false} PrefixKnown(table: Table, ts: seq<Type>, bound: nat, n: nat)
    requires AllKnown(ts, |table|, bound) && n <= |ts|
    ensures AllKnown(ts[..n], |table|, bound)
  {
    forall u | 0 <= u < n
      ensures Known(ts[..n][u], |table|) && Base(ts[..n][u]) <= bound
    {
      assert ts[..n][u] == ts[u];
    }
  }

  /** Receiving what was sent, with anything behind it, yields the value but for inherited fields, and leaves what was
      behind it. */
  lemma {:induction false} Received(table: Table, base: nat, v: Value, t: Type, rest: seq<int>)
    requires Compiles(table) && Known(t, |table|) && HasType(table, v, t)
    ensures Decode(table, base, t, Encode(table, base, v, t) + rest) == Some(Got(Forget(v), rest))
    decreases v, 1, 0
  {
    var s := Encode(table, base, v, t) + rest;
    match t
    case Prim => assert s[1..] == rest;
    case ByValue(i) =>
      FieldsKnown(table, i);
      ReceivedAll(table, base, v.own, table[i].fields, i, rest);
      HaveSameLength(table, v.inherited, Inherited(table, i));
    case VectorOf(e) =>
      var n := |v.elements|;
      assert s[1..] == EncodeAll(table, base, v.elements, Copies(e, n)) + rest;
      ReceivedAll(table, base, v.elements, Copies(e, n), Base(e), rest);
    case Pointer(i) =>
      if table[i].isClass {
        ReceivedClassPointer(table, base, v, i, rest);
      } else if v.To? {
        assert s[1..] == Encode(table, base, v.target, ByValue(i)) + rest;
        Received(table, base, v.target, ByValue(i), rest);
      } else {
        assert s[1..] == rest;
      }
  }

  lemma {:induction false} ReceivedClassPointer(table: Table, base: nat, v: Value, i: nat, rest: seq<int>)
    requires Compiles(table) && i < |table| && table[i].isClass && HasType(table, v, Pointer(i))
    ensures Decode(table, base, Pointer(i), Encode(table, base, v, Pointer(i)) + rest) == Some(Got(Forget(v), rest))
    decreases v, 0, 1
  {
    if v.Null? {
      assert (Encode(table, base, v, Pointer(i)) + rest)[2..] == rest;
    } else {
      TagSelects(table, base, i, v.cls);
      ReceivedObject(table, base, v, rest);
      ReceivedTagged(table, base, v, i, rest);
    }
    hide Encode, Decode, EncodeObject, DecodeObject, FindCase, Cases, Compiles, HasType, Forget;
  }

  /** The tag takes the receiver to the object's class. */
  lemma {:induction false} ReceivedTagged(table: Table, base: nat, v: Value, i: nat, rest: seq<int>)
    requires Compiles(table) && i < |table| && table[i].isClass && HasType(table, v, Pointer(i)) && v.Object?
    requires FindCase(table, base, ClassId(table, base, v.cls), Cases(table, i)) == Some(v.cls)
    ensures Decode(table, base, Pointer(i), Encode(table, base, v, Pointer(i)) + rest)
      == DecodeObject(table, base, v.cls, EncodeObject(table, base, v) + rest)
  {
    hide EncodeObject, DecodeObject, FindCase, Cases, ClassId;
    var s, sent := Encode(table, base, v, Pointer(i)) + rest, EncodeObject(table, base, v);
    assert s == [0, ClassId(table, base, v.cls)] + (sent + rest);
    assert s[2..] == sent + rest;
    hide Compiles, HasType;
  }

  lemma {:induction false} ReceivedObject(table: Table, base: nat, v: Value, rest: seq<int>)
    requires Compiles(table) && v.Object? && v.cls < |table| && table[v.cls].isClass && !table[v.cls].isAbstract
    requires HaveTypes(table, v.own, table[v.cls].fields)
    requires HaveTypes(table, v.inherited, Inherited(table, v.cls))
    ensures DecodeObject(table, base, v.cls, EncodeObject(table, base, v) + rest) == Some(Got(Forget(v), rest))
    decreases v, 0, 0
  {
    var ts, chain := table[v.cls].fields, Chain(table, v.cls);
    FieldsKnown(table, v.cls);
    var own, again := EncodeAll(table, base, v.own, ts), EncodeAgain(table, base, v.own, ts, chain);
    assert EncodeObject(table, base, v) + rest == own + (again + rest);
    ReceivedAll(table, base, v.own, ts, v.cls, again + rest);
    ReceivedAgain(table, base, v.own, ts, v.cls, chain, rest);
    hide EncodeAll, EncodeAgain, DecodeAll, DecodeAgain, HaveTypes, EncodeObject, Compiles;
  }

  lemma {:induction false} ReceivedAll(
    table: Table, base: nat, vs: seq<Value>, ts: seq<Type>, bound: nat, rest: seq<int>)
    requires Compiles(table) && AllKnown(ts, |table|, bound) && HaveTypes(table, vs, ts)
    ensures DecodeAll(table, base, ts, bound, EncodeAll(table, base, vs, ts) + rest) == Some(Got(ForgetAll(vs), rest))
    decreases vs, 2, 0
  {
    if vs == [] {
      assert EncodeAll(table, base, vs, ts) + rest == rest;
    } else {
      var first, others := Encode(table, base, vs[0], ts[0]), EncodeAll(table, base, vs[1..], ts[1..]);
      assert EncodeAll(table, base, vs, ts) + rest == first + (others + rest);
      Received(table, base, vs[0], ts[0], others + rest);
      ReceivedAll(table, base, vs[1..], ts[1..], bound, rest);
    }
  }

  /** Reading leading fields again changes nothing. */
  lemma {:induction false} ReceivedAgain(
    table: Table, base: nat, own: seq<Value>, ts: seq<Type>, bound: nat, chain: seq<nat>, rest: seq<int>)
    requires Compiles(table) && AllKnown(ts, |table|, bound) && HaveTypes(table, own, ts) && Fits(table, chain, |own|)
    ensures DecodeAgain(table, base, ForgetAll(own), ts, bound, chain, EncodeAgain(table, base, own, ts, chain) + rest)
      == Some(Got(ForgetAll(own), rest))
    decreases own, 3, |chain|
  {
    if chain == [] {
      assert EncodeAgain(table, base, own, ts, chain) + rest == rest;
    } else {
      assert chain[0] in chain;
      var n := Size(table, chain[0]);
      TypesOfPrefix(table, own, ts, n);
      PrefixKnown(table, ts, bound, n);
      assert own[..|own|] == own;
      var first, others := EncodeAll(table, base, own[..n], ts[..n]), EncodeAgain(table, base, own, ts, chain[1..]);
      assert EncodeAgain(table, base, own, ts, chain) + rest == first + (others + rest);
      ReceivedAll(table, base, own[..n], ts[..n], bound, others + rest);
      ForgetPrefix(own, n);
      assert ForgetAll(own[..n]) + ForgetAll(own)[n..] == ForgetAll(own);
      ReceivedAgain(table, base, own, ts, bound, chain[1..], rest);
    }
  }

  lemma HaveSameLength(table: Table, vs: seq<Value>, ts: seq<Type>)
    requires Compiles(table) && HaveTypes(table, vs, ts)
    ensures |vs| == |ts|
  {
  }

  /** No record or object in the value inherits a field. */
  predicate InheritsNothing(v: Value)
    decreases v, 0
  {
    match v
    case Record(own, inherited) => inherited == [] && AllInheritNothing(own)
    case To(target) => InheritsNothing(target)
    case Object(_, own, inherited) => inherited == [] && AllInheritNothing(own)
    case Vector(elements) => AllInheritNothing(elements)
    case _ => true
  }

  predicate AllInheritNothing(vs: seq<Value>)
    decreases vs, 1
  {
    vs == [] || (InheritsNothing(vs[0]) && AllInheritNothing(vs[1..]))
  }

  lemma {:induction false} KeptIff(table: Table, v: Value, t: Type)
    requires Compiles(table) && HasType(table, v, t)
    ensures Forget(v) == v <==> InheritsNothing(v)
    decreases v, 0
  {
    match v
    case Record(own, inherited) =>
      AllKeptIff(table, own, table[t.index].fields);
      NeverUnset(table, inherited, Inherited(table, t.index));
    case To(target) => KeptIff(table, target, ByValue(t.index));
    case Object(cls, own, inherited) =>
      AllKeptIff(table, own, table[cls].fields);
      NeverUnset(table, inherited, Inherited(table, cls));
    case Vector(elements) => AllKeptIff(table, elements, Copies(t.element, |elements|));
    case _ =>
  }

  lemma {:induction false} AllKeptIff(table: Table, vs: seq<Value>, ts: seq<Type>)
    requires Compiles(table) && HaveTypes(table, vs, ts)
    ensures ForgetAll(vs) == vs <==> AllInheritNothing(vs)
    decreases vs, 1
  {
    if vs != [] {
      KeptIff(table, vs[0], ts[0]);
      AllKeptIff(table, vs[1..], ts[1..]);
      assert vs == [vs[0]] + vs[1..];
    }
  }

  lemma NeverUnset(table: Table, vs: seq<Value>, ts: seq<Type>)
    requires Compiles(table) && HaveTypes(table, vs, ts)
    ensures Unsets(|vs|) == vs <==> vs == []
  {
    if vs != [] {
      assert HasType(table, vs[0], ts[0]) && Unsets(|vs|)[0] == Unset;
    }
  }

  /** The round trip: receiving what was sent yields the value and leaves the rest of the stream untouched, if and only
      if nothing in the value inherits a field. */
  lemma RoundTrip(table: Table, base: nat, v: Value, t: Type, rest: seq<int>)
    requires Compiles(table) && Known(t, |table|) && HasType(table, v, t)
    ensures Decode(table, base, t, Encode(table, base, v, t) + rest) == Some(Got(v, rest)) <==> InheritsNothing(v)
  {
    Received(table, base, v, t, rest);
    KeptIff(table, v, t);
  }

  // ----- incomplete streams -----

  lemma Behind(s: seq<int>, tail: seq<int>, n: nat)
    requires n <= |s|
    ensures (s + tail)[n..] == s[n..] + tail
  {
  }

  /** The rest is what is left at the end. */
  predicate LeftOf(rest: seq<int>, s: seq<int>) {
    |rest| <= |s| && s[|s| - |rest|..] == rest
  }

  /** What is received takes up the front of the stream, and does not depend on what is behind it. */
  lemma {:induction false} DecodeLocal(table: Table, base: nat, t: Type, s: seq<int>, tail: seq<int>)
    requires Compiles(table) && Known(t, |table|) && Decode(table, base, t, s).Some?
    ensures var r := Decode(table, base, t, s).value;
      LeftOf(r.rest, s) && Decode(table, base, t, s + tail) == Some(Got(r.value, r.rest + tail))
    decreases |s|, Base(t), 0, 1
  {
    match t
    case Prim => Behind(s, tail, 1);
    case ByValue(i) => StructLocal(table, base, i, s, tail);
    case VectorOf(e) => VectorLocal(table, base, e, s, tail);
    case Pointer(i) =>
      if table[i].isClass {
        ClassPointerLocal(table, base, i, s, tail);
      } else {
        PointerLocal(table, base, i, s, tail);
      }
    hide DecodeAll, DecodeObject, FindCase, Cases, Compiles;
  }

  lemma {:induction false} StructLocal(table: Table, base: nat, i: nat, s: seq<int>, tail: seq<int>)
    requires Compiles(table) && i < |table| && Decode(table, base, ByValue(i), s).Some?
    ensures var r := Decode(table, base, ByValue(i), s).value;
      LeftOf(r.rest, s) && Decode(table, base, ByValue(i), s + tail) == Some(Got(r.value, r.rest + tail))
    decreases |s|, i + 1, 0, 0
  {
    FieldsKnown(table, i);
    DecodeAllLocal(table, base, table[i].fields, i, s, tail);
    hide DecodeAll, Compiles;
  }

  lemma {:induction false} VectorLocal(table: Table, base: nat, e: Type, s: seq<int>, tail: seq<int>)
    requires Compiles(table) && Known(e, |table|) && Decode(table, base, VectorOf(e), s).Some?
    ensures var r := Decode(table, base, VectorOf(e), s).value;
      LeftOf(r.rest, s) && Decode(table, base, VectorOf(e), s + tail) == Some(Got(r.value, r.rest + tail))
    decreases |s|, Base(e), 0, 0
  {
    Behind(s, tail, 1);
    DecodeAllLocal(table, base, Copies(e, s[0]), Base(e), s[1..], tail);
    hide DecodeAll, Compiles;
  }

  lemma {:induction false} PointerLocal(table: Table, base: nat, i: nat, s: seq<int>, tail: seq<int>)
    requires Compiles(table) && i < |table| && !table[i].isClass && Decode(table, base, Pointer(i), s).Some?
    ensures var r := Decode(table, base, Pointer(i), s).value;
      LeftOf(r.rest, s) && Decode(table, base, Pointer(i), s + tail) == Some(Got(r.value, r.rest + tail))
    decreases |s|, 0, 0, 0
  {
    Behind(s, tail, 1);
    if s[0] == 0 {
      DecodeLocal(table, base, ByValue(i), s[1..], tail);
    }
    hide DecodeAll, DecodeObject, FindCase, Cases, Compiles;
  }

  lemma {:induction false} ClassPointerLocal(table: Table, base: nat, i: nat, s: seq<int>, tail: seq<int>)
    requires Compiles(table) && i < |table| && table[i].isClass && Decode(table, base, Pointer(i), s).Some?
    ensures var r := Decode(table, base, Pointer(i), s).value;
      LeftOf(r.rest, s) && Decode(table, base, Pointer(i), s + tail) == Some(Got(r.value, r.rest + tail))
    decreases |s|, 0, 0, 0
  {
    Behind(s, tail, 2);
    if s[0] == 0 {
      DecodeObjectLocal(table, base, FindCase(table, base, s[1], Cases(table, i)).value, s[2..], tail);
    }
    hide DecodeAll, DecodeObject, FindCase, Cases, Compiles;
  }

  lemma {:induction false} DecodeAllLocal(
    table: Table, base: nat, ts: seq<Type>, bound: nat, s: seq<int>, tail: seq<int>)
    requires Compiles(table) && AllKnown(ts, |table|, bound) && DecodeAll(table, base, ts, bound, s).Some?
    ensures var r := DecodeAll(table, base, ts, bound, s).value;
      && LeftOf(r.rest, s)
      && DecodeAll(table, base, ts, bound, s + tail) == Some(Got(r.value, r.rest + tail))
    decreases |s|, bound, 1, |ts|
  {
    hide Decode, Compiles;
    if ts != [] {
      DecodeLocal(table, base, ts[0], s, tail);
      DecodeAllLocal(table, base, ts[1..], bound, Decode(table, base, ts[0], s).value.rest, tail);
    }
  }

  lemma {:induction false} DecodeObjectLocal(table: Table, base: nat, k: nat, s: seq<int>, tail: seq<int>)
    requires Compiles(table) && k < |table| && DecodeObject(table, base, k, s).Some?
    ensures var r := DecodeObject(table, base, k, s).value;
      && LeftOf(r.rest, s)
      && DecodeObject(table, base, k, s + tail) == Some(Got(r.value, r.rest + tail))
    decreases |s|, k, 3, 0
  {
    FieldsKnown(table, k);
    hide Decode, DecodeAll, DecodeAgain, Chain, Inherited, AllKnown, FieldsOf;
    DecodeAllLocal(table, base, table[k].fields, k, s, tail);
    var own := DecodeAll(table, base, table[k].fields, k, s).value;
    DecodeAgainLocal(table, base, own.value, table[k].fields, k, Chain(table, k), own.rest, tail);
    hide Compiles;
  }

  lemma {:induction false} DecodeAgainLocal(
    table: Table, base: nat, own: seq<Value>, ts: seq<Type>, bound: nat, chain: seq<nat>, s: seq<int>, tail: seq<int>)
    requires Compiles(table) && AllKnown(ts, |table|, bound) && |own| == |ts|
    requires DecodeAgain(table, base, own, ts, bound, chain, s).Some?
    ensures var r := DecodeAgain(table, base, own, ts, bound, chain, s).value;
      && LeftOf(r.rest, s)
      && DecodeAgain(table, base, own, ts, bound, chain, s + tail) == Some(Got(r.value, r.rest + tail))
    decreases |s|, bound, 2, |chain|
  {
    if chain != [] {
      var n := Size(table, chain[0]);
      DecodeAllLocal(table, base, ts[..n], bound, s, tail);
      var prefix := DecodeAll(table, base, ts[..n], bound, s).value;
      DecodeAgainLocal(table, base, prefix.value + own[n..], ts, bound, chain[1..], prefix.rest, tail);
    }
  }

  /** A stream that breaks off inside a value yields nothing. */
  lemma {:induction false} TruncatedFails(table: Table, base: nat, v: Value, t: Type, n: nat)
    requires Compiles(table) && Known(t, |table|) && HasType(table, v, t) && n < |Encode(table, base, v, t)|
    ensures Decode(table, base, t, Encode(table, base, v, t)[..n]) == None
  {
    var s := Encode(table, base, v, t);
    if Decode(table, base, t, s[..n]).Some? {
      assert s[..n] + s[n..] == s && s + [] == s;
      Received(table, base, v, t, []);
      DecodeLocal(table, base, t, s[..n], s[n..]);
    }
    hide Encode, Decode, Compiles, HasType;
  }

  /** A class with a field, and a class with a field that inherits it. */
  const EXAMPLE: Table := [Defn(true, false, None, [Prim]), Defn(true, false, Some(0), [Prim])]

  const HEIR := Object(1, [Number(1)], [Number(2)])

  lemma {:induction false} ExampleCompiles()
    ensures Compiles(EXAMPLE) && Inherited(EXAMPLE, 1) == [Prim]
  {
    assert WellFormed(EXAMPLE);
    assert Chain(EXAMPLE, 0) == [] && Chain(EXAMPLE, 1) == [0];
    assert FieldsOf(EXAMPLE, [0]) == [Prim] + FieldsOf(EXAMPLE, []);
  }

  lemma {:induction false} HeirIsTyped()
    requires Compiles(EXAMPLE) && Inherited(EXAMPLE, 1) == [Prim]
    ensures HasType(EXAMPLE, HEIR, Pointer(1))
  {
    assert HaveTypes(EXAMPLE, [], []);
    assert HaveTypes(EXAMPLE, [Number(1)], [Prim]) && HaveTypes(EXAMPLE, [Number(2)], [Prim]);
  }

  lemma {:induction false} HeirOnTheWire()
    requires Compiles(EXAMPLE) && HasType(EXAMPLE, HEIR, Pointer(1))
    ensures Encode(EXAMPLE, 0, HEIR, Pointer(1)) == [0, 2002, 1, 1]
  {
    OnTheWire(EXAMPLE, 0, HEIR, Pointer(1));
    assert EXAMPLE[..1] == [EXAMPLE[0]] && [EXAMPLE[0]][..0] == [];
    assert ClassId(EXAMPLE, 0, 1) == 2002;
    assert Chain(EXAMPLE, 1) == [0] + Chain(EXAMPLE, 0);
    var own, ts := HEIR.own, EXAMPLE[1].fields;
    assert EncodeAll(EXAMPLE, 0, own, ts) == [1] by {
      assert Encode(EXAMPLE, 0, own[0], ts[0]) == [1] && EncodeAll(EXAMPLE, 0, own[1..], ts[1..]) == [];
    }
    SentAgainInOrder(EXAMPLE, 0, own, ts, [], [], 0);
    assert own[..1] == own && ts[..1] == ts;
  }

  lemma {:induction false} HeirForgets()
    ensures Forget(HEIR) == Object(1, [Number(1)], [Unset])
  {
    assert Unsets(1) == [Unset] && ForgetAll([Number(1)]) == [Forget(Number(1))] + ForgetAll([]);
  }

  /** An object of the heir is sent and received, but not as it was. */
  lemma {:induction false} InheritedFieldIsLost()
    ensures Compiles(EXAMPLE) && HasType(EXAMPLE, HEIR, Pointer(1))
    ensures Encode(EXAMPLE, 0, HEIR, Pointer(1)) == [0, 2002, 1, 1]
    ensures Decode(EXAMPLE, 0, Pointer(1), Encode(EXAMPLE, 0, HEIR, Pointer(1)))
      == Some(Got(Object(1, [Number(1)], [Unset]), []))
  {
    hide Decode, Encode, Compiles, HasType, Forget, Inherited;
    ExampleCompiles();
    HeirIsTyped();
    HeirForgets();
    HeirOnTheWire();
    Received(EXAMPLE, 0, HEIR, Pointer(1), []);
    assert Encode(EXAMPLE, 0, HEIR, Pointer(1)) + [] == Encode(EXAMPLE, 0, HEIR, Pointer(1));
  }
}
