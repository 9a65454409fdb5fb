/** The type definitions of an interface: single inheritance, class ids, and the class cases of a receiver. */
module MarshalTypes {
  import opened Options

  /** Types are referred to by their position in the order of definition. */
  datatype Type = Prim | ByValue(index: nat) | Pointer(index: nat) | VectorOf(element: Type)

  datatype Defn = Defn(isClass: bool, isAbstract: bool, parent: Option<nat>, fields: seq<Type>)

  type Table = seq<Defn>

  /** One more than the definition a value of the type contains in place, 0 if it contains none. */
  function Base(t: Type): nat {
    match t
    case Prim => 0
    case ByValue(i) => i + 1
    case Pointer(_) => 0
    case VectorOf(e) => Base(e)
  }

  predicate Known(t: Type, n: nat) {
    match t
    case Prim => true
    case ByValue(i) => i < n
    case Pointer(i) => i < n
    case VectorOf(e) => Known(e, n)
  }

  /** Definitions use earlier definitions only. */
  predicate WellFormed(table: Table) {
    forall i | 0 <= i < |table| ::
      && (table[i].parent.Some? ==> table[i].parent.value < i)
      && (forall f <- table[i].fields :: Known(f, i))
  }

  // ----- inheritance -----

  predicate IsDescendant(table: Table, k: nat, i: nat)
    requires WellFormed(table) && k < |table|
    decreases k
  {
    var p := table[k].parent;
    p.Some? && (p.value == i || IsDescendant(table, p.value, i))
  }

  /** The kids of a definition, in order of definition. */
  function Kids(table: Table, i: nat): (ks: seq<nat>)
    ensures forall u | 0 <= u < |ks| :: ks[u] < |table| && table[ks[u]].parent == Some(i)
  {
    if table == [] then [] else
    var last := |table| - 1;
    var before := Kids(table[..last], i);
    if table[last].parent == Some(i) then before + [last] else before
  }

  /** The kids are exactly the definitions with that parent, in order of definition. */
  lemma {:induction false} KidsExactly(table: Table, i: nat, k: nat)
    ensures k in Kids(table, i) <==> k < |table| && table[k].parent == Some(i)
    ensures forall u, v | 0 <= u < v < |Kids(table, i)| :: Kids(table, i)[u] < Kids(table, i)[v]
  {
    if table != [] {
      KidsExactly(table[..|table| - 1], i, k);
    }
  }

  /** The definitions that a receiver of a pointer to i dispatches to, besides i: each kid, then its own kids. */
  function DumpKids(table: Table, i: nat): seq<nat>
    requires WellFormed(table) && i < |table|
    decreases |table| - i, 1, 0
  {
    KidsAreLater(table, i);
    DumpAll(table, i + 1, Kids(table, i))
  }

  function DumpAll(table: Table, from: nat, ks: seq<nat>): seq<nat>
    requires WellFormed(table) && forall u | 0 <= u < |ks| :: from <= ks[u] < |table|
    decreases |table| - from, 2, |ks|
  {
    if ks == [] then [] else [ks[0]] + DumpKids(table, ks[0]) + DumpAll(table, from, ks[1..])
  }

  lemma {:induction false} KidsAreLater(table: Table, i: nat)
    requires WellFormed(table)
    ensures forall u | 0 <= u < |Kids(table, i)| :: i < Kids(table, i)[u] < |table|
  {
    if table != [] {
      KidsAreLater(table[..|table| - 1], i);
    }
  }

  // ----- the definitions as they are read -----

  predicate KidsMatch(table: Table, kids: seq<seq<nat>>) {
    |kids| == |table| && forall i | 0 <= i < |table| :: kids[i] == Kids(table, i)
  }

  /** The definitions of an interface, each with the list of its kids. */
  class Registry {
    var table: Table
    var index: map<string, nat>
    var kids: seq<seq<nat>>

    ghost predicate Valid()
      reads this
    {
      && WellFormed(table)
      && KidsMatch(table, kids)
      && (forall name <- index :: index[name] < |table|)
    }

    constructor ()
      ensures Valid() && table == [] && index == map[]
    {
      table, index, kids := [], map[], [];
    }

    /** Adds a definition and enters it with its parent. It is refused if the name is taken, or the parent or the type
        of a field is not defined yet. */
    method Define(name: string, isClass: bool, isAbstract: bool, parent: Option<string>, fields: seq<Type>)
      returns (ok: bool)
      requires Valid()
      modifies this
      ensures Valid()
      ensures ok == (name !in old(index) && (parent.Some? ==> parent.value in old(index))
                     && forall f <- fields :: Known(f, |old(table)|))
      ensures !ok ==> table == old(table) && index == old(index)
      ensures ok ==> index == old(index)[name := |old(table)|]
      ensures ok ==>
        var p := if parent.None? then None else Some(old(index)[parent.value]);
        table == old(table) + [Defn(isClass, isAbstract, p, fields)]
    {
      ok := name !in index && (parent.Some? ==> parent.value in index) && forall f <- fields :: Known(f, |table|);
      if !ok {
        return;
      }
      var p := if parent.None? then None else Some(index[parent.value]);
      var d := Defn(isClass, isAbstract, p, fields);
      StaysWellFormed(table, d);
      OneMore(table, kids, d);
      if p.Some? {
        kids := kids[p.value := kids[p.value] + [|table|]];
      }
      index := index[name := |table|];
      table := table + [d];
      kids := kids + [[]];
    }
  }

  lemma {:induction false} NoKidsYet(table: Table, i: nat)
    requires WellFormed(table) && i + 1 >= |table|
    ensures Kids(table, i) == []
  {
    if table != [] {
      NoKidsYet(table[..|table| - 1], i);
    }
  }

  lemma OneMoreKid(table: Table, d: Defn, i: nat)
    ensures Kids(table + [d], i) == if d.parent == Some(i) then Kids(table, i) + [|table|] else Kids(table, i)
  {
    assert (table + [d])[..|table|] == table;
  }

  lemma StaysWellFormed(table: Table, d: Defn)
    requires WellFormed(table)
    requires d.parent.Some? ==> d.parent.value < |table|
    requires forall f <- d.fields :: Known(f, |table|)
    ensures WellFormed(table + [d])
  {
  }

  /** A new definition becomes the last kid of its parent, and has no kids. */
  lemma OneMore(table: Table, kids: seq<seq<nat>>, d: Defn)
    requires WellFormed(table) && KidsMatch(table, kids)
    requires d.parent.Some? ==> d.parent.value < |table|
    ensures var entered := if d.parent.None? then kids else kids[d.parent.value := kids[d.parent.value] + [|table|]];
      KidsMatch(table + [d], entered + [[]])
  {
    var entered := if d.parent.None? then kids else kids[d.parent.value := kids[d.parent.value] + [|table|]];
    forall i | 0 <= i <= |table|
      ensures (entered + [[]])[i] == Kids(table + [d], i)
    {
      OneMoreKid(table, d, i);
      if i == |table| {
        NoKidsYet(table, i);
      }
    }
  }

  // ----- the receiver's cases are the descendants -----

  function Count(k: nat, ks: seq<nat>): nat {
    if ks == [] then 0 else (if ks[0] == k then 1 else 0) + Count(k, ks[1..])
  }

  /** k is j or inherits from it. */
  predicate Under(table: Table, k: nat, j: nat)
    requires WellFormed(table) && k < |table|
  {
    k == j || IsDescendant(table, k, j)
  }

  function CountUnder(table: Table, k: nat, ks: seq<nat>): nat
    requires WellFormed(table) && k < |table|
  {
    if ks == [] then 0 else (if Under(table, k, ks[0]) then 1 else 0) + CountUnder(table, k, ks[1..])
  }

  lemma {:induction false} CountAppend(k: nat, a: seq<nat>, b: seq<nat>)
    ensures Count(k, a + b) == Count(k, a) + Count(k, b)
  {
    if a == [] {
      assert a + b == b;
    } else {
      assert (a + b)[1..] == a[1..] + b;
      CountAppend(k, a[1..], b);
    }
  }

  lemma {:induction false} CountUnderAppend(table: Table, k: nat, a: seq<nat>, b: seq<nat>)
    requires WellFormed(table) && k < |table|
    ensures CountUnder(table, k, a + b) == CountUnder(table, k, a) + CountUnder(table, k, b)
  {
    if a == [] {
      assert a + b == b;
    } else {
      assert (a + b)[1..] == a[1..] + b;
      CountUnderAppend(table, k, a[1..], b);
    }
  }

  /** The definition through which k inherits from i. */
  function Toward(table: Table, k: nat, i: nat): (j: nat)
    requires WellFormed(table) && k < |table| && IsDescendant(table, k, i)
    ensures j <= k && table[j].parent == Some(i) && Under(table, k, j)
    decreases k
  {
    var p := table[k].parent.value;
    if p == i then k else Toward(table, p, i)
  }

  lemma {:induction false} OnlyToward(table: Table, k: nat, i: nat, j: nat)
    requires WellFormed(table) && k < |table| && j < |table| && table[j].parent == Some(i)
    ensures Under(table, k, j) <==> IsDescendant(table, k, i) && Toward(table, k, i) == j
    decreases k
  {
    if table[k].parent.Some? {
      var p := table[k].parent.value;
      OnlyToward(table, p, i, j);
      DescendantsAreLater(table, i, j);
    }
  }

  lemma {:induction false} DescendantsAreLater(table: Table, k: nat, i: nat)
    requires WellFormed(table) && k < |table|
    ensures IsDescendant(table, k, i) ==> i < k
    decreases k
  {
    if table[k].parent.Some? {
      DescendantsAreLater(table, table[k].parent.value, i);
    }
  }

  /** Among the kids of i in a prefix of the table, k is under one exactly if it inherits from i through that one. */
  lemma {:induction false} OneKidToward(table: Table, n: nat, k: nat, i: nat)
    requires WellFormed(table) && k < |table| && n <= |table|
    ensures CountUnder(table, k, Kids(table[..n], i))
      == if IsDescendant(table, k, i) && Toward(table, k, i) < n then 1 else 0
    decreases n
  {
    if n > 0 {
      var last := n - 1;
      assert table[..n][..last] == table[..last] && table[..n][last] == table[last];
      OneKidToward(table, last, k, i);
      if table[last].parent == Some(i) {
        CountUnderAppend(table, k, Kids(table[..last], i), [last]);
        OnlyToward(table, k, i, last);
        assert CountUnder(table, k, [last]) == if Under(table, k, last) then 1 else 0;
      }
    }
  }

  lemma {:induction false} DumpAllCounts(table: Table, from: nat, ks: seq<nat>, k: nat)
    requires WellFormed(table) && k < |table| && forall u | 0 <= u < |ks| :: from <= ks[u] < |table|
    ensures Count(k, DumpAll(table, from, ks)) == CountUnder(table, k, ks)
    decreases |table| - from, 2, |ks|
  {
    if ks != [] {
      DumpKidsOnce(table, ks[0], k);
      DumpAllCounts(table, from, ks[1..], k);
      CountAppend(k, [ks[0]], DumpKids(table, ks[0]));
      CountAppend(k, [ks[0]] + DumpKids(table, ks[0]), DumpAll(table, from, ks[1..]));
      assert Count(k, [ks[0]]) == if ks[0] == k then 1 else 0;
      DescendantsAreLater(table, k, ks[0]);
    }
  }

  /** The dumped cases are exactly the proper descendants, each once. */
  lemma {:induction false} DumpKidsOnce(table: Table, i: nat, k: nat)
    requires WellFormed(table) && i < |table| && k < |table|
    ensures Count(k, DumpKids(table, i)) == if IsDescendant(table, k, i) then 1 else 0
    decreases |table| - i, 1, 0
  {
    KidsAreLater(table, i);
    DumpAllCounts(table, i + 1, Kids(table, i), k);
    assert table[..|table|] == table;
    OneKidToward(table, |table|, k, i);
  }

  // ----- class ids -----

  function ClassesIn(table: Table): nat {
    if table == [] then 0
    else ClassesIn(table[..|table| - 1]) + (if table[|table| - 1].isClass then 1 else 0)
  }

  /** The first class has id base + 2001, and each later class the next id. */
  function ClassId(table: Table, base: nat, i: nat): nat
    requires i < |table|
  {
    base + 2001 + ClassesIn(table[..i])
  }

  lemma {:induction false} ClassesGrow(table: Table, a: nat, b: nat)
    requires a <= b <= |table|
    ensures ClassesIn(table[..a]) <= ClassesIn(table[..b])
    ensures a < b && table[a].isClass ==> ClassesIn(table[..a]) < ClassesIn(table[..b])
    decreases b
  {
    if a < b {
      ClassesGrow(table, a, b - 1);
      assert table[..b][..b - 1] == table[..b - 1] && table[..b][b - 1] == table[b - 1];
    }
  }

  lemma ClassIdsDiffer(table: Table, base: nat, i: nat, j: nat)
    requires i < |table| && j < |table| && table[i].isClass && table[j].isClass
    ensures ClassId(table, base, i) == ClassId(table, base, j) <==> i == j
  {
    if i < j {
      ClassesGrow(table, i, j);
    } else if j < i {
      ClassesGrow(table, j, i);
    }
  }

  /** The ids of classes are consecutive, in order of definition, from base + 2001 on. */
  lemma {:induction false} ClassIdsInTurn(table: Table, base: nat, i: nat, j: nat)
    requires i < j <= |table| && forall k | i < k < j :: !table[k].isClass
    requires table[i].isClass
    ensures (forall k | 0 <= k < i :: !table[k].isClass) ==> ClassId(table, base, i) == base + 2001
    ensures j < |table| ==> ClassId(table, base, j) == ClassId(table, base, i) + 1
  {
    NoClasses(table, 0, i);
    NoClasses(table, i + 1, j);
    assert table[..i + 1][..i] == table[..i];
  }

  lemma {:induction false} NoClasses(table: Table, i: nat, j: nat)
    requires i <= j <= |table|
    ensures (forall k | i <= k < j :: !table[k].isClass) ==> ClassesIn(table[..i]) == ClassesIn(table[..j])
    decreases j
  {
    if i < j {
      NoClasses(table, i, j - 1);
      assert table[..j][..j - 1] == table[..j - 1] && table[..j][j - 1] == table[j - 1];
    }
  }
}
