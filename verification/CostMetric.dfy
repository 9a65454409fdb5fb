/** Cost metrics: parallel vectors of processes, their aggregation components and their cumulative values. */
module CostMetric {

  datatype Entry = Entry(process: nat, part: nat, lastTime: int, cumulative: int)

  /** A value handed to an aggregation component. */
  datatype Sample = Sample(part: nat, delta: int)

  datatype Cost = Cost(entries: seq<Entry>, enabled: bool, nextPart: nat, handed: seq<Sample>)

  function IndexOf(entries: seq<Entry>, p: nat): (i: nat)
    ensures i <= |entries| && (i < |entries| ==> entries[i].process == p)
    ensures forall j | 0 <= j < i :: entries[j].process != p
  {
    if entries == [] || entries[0].process == p then 0 else
    var i := IndexOf(entries[1..], p);
    assert forall j | 1 <= j < i + 1 :: entries[j] == entries[1..][j - 1];
    i + 1
  }

  predicate Has(c: Cost, p: nat) {
    IndexOf(c.entries, p) < |c.entries|
  }

  function EntryOf(c: Cost, p: nat): Entry
    requires Has(c, p)
  {
    c.entries[IndexOf(c.entries, p)]
  }

  function Max(a: int, b: int): int {
    if a < b then b else a
  }

  function Without<T>(s: seq<T>, i: nat): seq<T>
    requires i < |s|
  {
    s[..i] + s[i + 1..]
  }

  // ----- the operations -----

  function AfterAdd(c: Cost, p: nat): Cost {
    if Has(c, p) then c
    else c.(entries := c.entries + [Entry(p, c.nextPart, 0, 0)], nextPart := c.nextPart + 1)
  }

  function AfterRemove(c: Cost, p: nat): Cost {
    var i := IndexOf(c.entries, p);
    if i == |c.entries| then c else c.(entries := Without(c.entries, i))
  }

  /** A value below the cumulative one counts as no rise. */
  function AfterUpdate(c: Cost, p: nat, value: int, processTime: int): Cost {
    var i := IndexOf(c.entries, p);
    if i == |c.entries| then c else
    var e := c.entries[i];
    var raised := Max(value, e.cumulative);
    c.(entries := c.entries[i := e.(lastTime := processTime, cumulative := raised)],
       handed := if c.enabled then c.handed + [Sample(e.part, raised - e.cumulative)] else c.handed)
  }

  datatype Op = Add(p: nat) | Remove(p: nat) | Update(p: nat, value: int, processTime: int) | Enable | Disable

  function Step(c: Cost, op: Op): Cost {
    match op
    case Add(p) => AfterAdd(c, p)
    case Remove(p) => AfterRemove(c, p)
    case Update(p, value, processTime) => AfterUpdate(c, p, value, processTime)
    case Enable => c.(enabled := true)
    case Disable => c.(enabled := false)
  }

  function Run(c: Cost, ops: seq<Op>): Cost {
    if ops == [] then c else Step(Run(c, ops[..|ops| - 1]), ops[|ops| - 1])
  }

  const FRESH := Cost([], false, 0, [])

  // ----- no duplicates -----

  /** Processes and components are distinct, and components are allocated in turn. */
  predicate Distinct(c: Cost) {
    && (forall i, j | 0 <= i < j < |c.entries| ::
          c.entries[i].process != c.entries[j].process && c.entries[i].part != c.entries[j].part)
    && (forall i | 0 <= i < |c.entries| :: c.entries[i].part < c.nextPart)
  }

  lemma StepKeepsDistinct(c: Cost, op: Op)
    requires Distinct(c)
    ensures Distinct(Step(c, op))
  {
    match op
    case Add(p) =>
    case Remove(p) => RemovalKeepsDistinct(c, p);
    case Update(p, value, time) =>
    case _ =>
  }

  lemma RemovalKeepsDistinct(c: Cost, p: nat)
    requires Distinct(c)
    ensures Distinct(AfterRemove(c, p))
  {
  }

  /** What a step does to the entry of a process. */
  lemma StepEntry(c: Cost, op: Op, p: nat)
    requires Distinct(c)
    ensures Has(Step(c, op), p) <==> (op == Add(p) || (Has(c, p) && op != Remove(p)))
    ensures Has(Step(c, op), p) && !Has(c, p) ==> EntryOf(Step(c, op), p).cumulative == 0
    ensures Has(Step(c, op), p) && Has(c, p) ==>
      && EntryOf(Step(c, op), p).part == EntryOf(c, p).part
      && EntryOf(Step(c, op), p).cumulative
         == (if op.Update? && op.p == p then Max(op.value, EntryOf(c, p).cumulative) else EntryOf(c, p).cumulative)
      && EntryOf(Step(c, op), p).lastTime
         == if op.Update? && op.p == p then op.processTime else EntryOf(c, p).lastTime
  {
    match op
    case Add(q) => AddEntry(c, q, p);
    case Remove(q) => RemoveEntry(c, q, p);
    case Update(q, value, time) => UpdateEntry(c, q, value, time, p);
    case _ =>
  }

  lemma AddEntry(c: Cost, q: nat, p: nat)
    requires Distinct(c)
    ensures var after := AfterAdd(c, q);
      if Has(c, p) then Has(after, p) && EntryOf(after, p) == EntryOf(c, p)
      else (Has(after, p) <==> p == q) && (p == q ==> EntryOf(after, p).cumulative == 0)
  {
    var after := AfterAdd(c, q);
    StepKeepsDistinct(c, Add(q));
    if Has(c, p) {
      OnlyIndex(after.entries, p, IndexOf(c.entries, p));
    } else if p == q {
      OnlyIndex(after.entries, p, |c.entries|);
    }
  }

  lemma RemoveEntry(c: Cost, q: nat, p: nat)
    requires Distinct(c)
    ensures var after := AfterRemove(c, q);
      && (Has(after, p) <==> Has(c, p) && p != q)
      && (Has(after, p) ==> EntryOf(after, p) == EntryOf(c, p))
  {
    var r := IndexOf(c.entries, q);
    if r < |c.entries| {
      if Has(c, p) && p != q {
        KeptAfter(c, r, IndexOf(c.entries, p));
      } else {
        AbsentAfter(c, r, p);
      }
    }
  }

  lemma KeptAfter(c: Cost, r: nat, i: nat)
    requires Distinct(c) && r < |c.entries| && i < |c.entries| && i != r
    ensures IndexOf(Without(c.entries, r), c.entries[i].process) == if i < r then i else i - 1
    ensures Without(c.entries, r)[if i < r then i else i - 1] == c.entries[i]
  {
    var k := if i < r then i else i - 1;
    forall j | 0 <= j < k
      ensures Without(c.entries, r)[j].process != c.entries[i].process
    {
      assert Without(c.entries, r)[j] == c.entries[if j < r then j else j + 1];
    }
    FirstIndex(Without(c.entries, r), c.entries[i].process, k);
  }

  lemma AbsentAfter(c: Cost, r: nat, p: nat)
    requires Distinct(c) && r < |c.entries| && (!Has(c, p) || c.entries[r].process == p)
    ensures IndexOf(Without(c.entries, r), p) == |c.entries| - 1
  {
    forall k | 0 <= k < |c.entries| - 1
      ensures Without(c.entries, r)[k].process != p
    {
      assert Without(c.entries, r)[k] == c.entries[if k < r then k else k + 1];
    }
    FirstIndex(Without(c.entries, r), p, |c.entries| - 1);
  }

  lemma UpdateEntry(c: Cost, q: nat, value: int, time: int, p: nat)
    requires Distinct(c)
    ensures var after := AfterUpdate(c, q, value, time);
      && (Has(after, p) <==> Has(c, p))
      && (Has(c, p) ==>
            && EntryOf(after, p).part == EntryOf(c, p).part
            && EntryOf(after, p).cumulative
               == (if p == q then Max(value, EntryOf(c, p).cumulative) else EntryOf(c, p).cumulative)
            && EntryOf(after, p).lastTime == if p == q then time else EntryOf(c, p).lastTime)
  {
    var after := AfterUpdate(c, q, value, time);
    StepKeepsDistinct(c, Update(q, value, time));
    if Has(c, p) {
      OnlyIndex(after.entries, p, IndexOf(c.entries, p));
    } else if Has(after, p) {
      OnlyIndex(c.entries, p, IndexOf(after.entries, p));
    }
  }

  lemma OnlyIndex(entries: seq<Entry>, p: nat, i: nat)
    requires i < |entries| && entries[i].process == p
    requires forall a, b | 0 <= a < b < |entries| :: entries[a].process != entries[b].process
    ensures IndexOf(entries, p) == i
  {
    var k := IndexOf(entries, p);
    assert k <= i;
  }

  // ----- cumulative values are maxima -----

  /** The values a process reported since it was added, if it is there. */
  function Reports(ops: seq<Op>, p: nat): seq<int> {
    if ops == [] then [] else
    var before := Reports(ops[..|ops| - 1], p);
    match ops[|ops| - 1]
    case Add(q) => if q == p && !Present(ops[..|ops| - 1], p) then [] else before
    case Remove(q) => if q == p then [] else before
    case Update(q, value, _) => if q == p && Present(ops[..|ops| - 1], p) then before + [value] else before
    case _ => before
  }

  predicate Present(ops: seq<Op>, p: nat) {
    ops != [] && match ops[|ops| - 1]
      case Add(q) => q == p || Present(ops[..|ops| - 1], p)
      case Remove(q) => q != p && Present(ops[..|ops| - 1], p)
      case _ => Present(ops[..|ops| - 1], p)
  }

  /** v is the largest of 0 and the values. */
  ghost predicate IsMaximum(v: int, values: seq<int>) {
    v >= 0 && (v == 0 || v in values) && forall x <- values :: x <= v
  }

  lemma {:induction false} NoReportsAbsent(ops: seq<Op>, p: nat)
    requires !Present(ops, p)
    ensures Reports(ops, p) == []
  {
    if ops != [] && ops[|ops| - 1] != Remove(p) {
      NoReportsAbsent(ops[..|ops| - 1], p);
    }
  }

  /** Through any run the processes stay duplicate-free, and the cumulative value of each is the largest of 0 and
      everything it reported since it was added. */
  lemma {:induction false} CumulativeIsMaximum(ops: seq<Op>, p: nat)
    ensures var c := Run(FRESH, ops);
      && Distinct(c)
      && (Has(c, p) <==> Present(ops, p))
      && (Has(c, p) ==> IsMaximum(EntryOf(c, p).cumulative, Reports(ops, p)))
  {
    if ops != [] {
      var before := ops[..|ops| - 1];
      var op := ops[|ops| - 1];
      CumulativeIsMaximum(before, p);
      StepKeepsDistinct(Run(FRESH, before), op);
      StepEntry(Run(FRESH, before), op, p);
      if !Present(before, p) {
        NoReportsAbsent(before, p);
      } else if op.Update? && op.p == p {
        MaximumGrows(EntryOf(Run(FRESH, before), p).cumulative, Reports(before, p), op.value);
      }
    }
  }

  lemma MaximumGrows(v: int, values: seq<int>, x: int)
    requires IsMaximum(v, values)
    ensures IsMaximum(Max(x, v), values + [x])
  {
    assert x in values + [x];
    assert v in values ==> v in values + [x];
  }

  // ----- what the components are handed -----

  function Total(handed: seq<Sample>, part: nat): int {
    if handed == [] then 0 else
    var last := handed[|handed| - 1];
    Total(handed[..|handed| - 1], part) + (if last.part == part then last.delta else 0)
  }

  /** The metric stays enabled and the process stays. */
  predicate Undisturbed(ops: seq<Op>, p: nat) {
    forall i | 0 <= i < |ops| :: ops[i] != Disable && ops[i] != Remove(p)
  }

  lemma {:induction false} UndisturbedKeeps(c: Cost, ops: seq<Op>, p: nat)
    requires Distinct(c) && c.enabled && Has(c, p) && Undisturbed(ops, p)
    ensures Distinct(Run(c, ops)) && Run(c, ops).enabled && Has(Run(c, ops), p)
    ensures EntryOf(Run(c, ops), p).part == EntryOf(c, p).part
  {
    if ops != [] {
      var before := ops[..|ops| - 1];
      UndisturbedKeeps(c, before, p);
      StepKeepsDistinct(Run(c, before), ops[|ops| - 1]);
      StepEntry(Run(c, before), ops[|ops| - 1], p);
    }
  }

  /** Only an update of an enabled metric hands anything, and that just the rise, to the component of its own
      process. */
  lemma HandsExactly(c: Cost, op: Op)
    requires Distinct(c)
    ensures op.Update? && Has(c, op.p) ==> Has(Step(c, op), op.p)
    ensures Step(c, op).handed
      == c.handed + if !op.Update? || !c.enabled || !Has(c, op.p) then [] else
           [Sample(EntryOf(c, op.p).part, EntryOf(Step(c, op), op.p).cumulative - EntryOf(c, op.p).cumulative)]
  {
    if op.Update? {
      StepEntry(c, op, op.p);
    }
    assert c.handed + [] == c.handed;
  }

  /** One step of an enabled metric hands the component of a process exactly the rise of its cumulative value. */
  lemma HandedRises(c: Cost, op: Op, p: nat)
    requires Distinct(c) && c.enabled && Has(c, p) && op != Remove(p) && op != Disable
    ensures Has(Step(c, op), p)
    ensures Total(Step(c, op).handed, EntryOf(c, p).part) - Total(c.handed, EntryOf(c, p).part)
      == EntryOf(Step(c, op), p).cumulative - EntryOf(c, p).cumulative
  {
    StepEntry(c, op, p);
    if op.Update? && Has(c, op.p) {
      assert Step(c, op).handed[..|c.handed|] == c.handed;
      assert op.p != p ==> EntryOf(c, op.p).part != EntryOf(c, p).part;
    }
  }

  /** While a metric is enabled, the deltas handed to a process's component sum to the rise in its cumulative value. */
  lemma {:induction false} DeltasSumToRise(c: Cost, ops: seq<Op>, p: nat)
    requires Distinct(c) && c.enabled && Has(c, p) && Undisturbed(ops, p)
    ensures Has(Run(c, ops), p)
    ensures Total(Run(c, ops).handed, EntryOf(c, p).part) - Total(c.handed, EntryOf(c, p).part)
      == EntryOf(Run(c, ops), p).cumulative - EntryOf(c, p).cumulative
  {
    if ops != [] {
      var before := ops[..|ops| - 1];
      DeltasSumToRise(c, before, p);
      UndisturbedKeeps(c, before, p);
      HandedRises(Run(c, before), ops[|ops| - 1], p);
    }
  }

  // ----- the parallel vectors -----

  /** A vector in which the elements after i, up to j, were moved to the left. */
  function Shift<T>(s: seq<T>, i: nat, j: nat): seq<T>
    requires i <= j < |s|
  {
    s[..i] + s[i + 1..j + 1] + s[j..]
  }

  lemma ShiftStarts<T>(s: seq<T>, i: nat)
    requires i < |s|
    ensures Shift(s, i, i) == s
  {
  }

  lemma ShiftMoves<T>(s: seq<T>, i: nat, j: nat)
    requires i <= j < |s| - 1
    ensures |Shift(s, i, j)| == |s| && Shift(s, i, j)[j := Shift(s, i, j)[j + 1]] == Shift(s, i, j + 1)
  {
  }

  lemma ShiftEnds<T>(s: seq<T>, i: nat)
    requires i < |s|
    ensures |Shift(s, i, |s| - 1)| == |s| && Shift(s, i, |s| - 1)[..|s| - 1] == Without(s, i)
  {
  }

  class CostVectors {
    var components: seq<nat>
    var parts: seq<nat>
    var lastProcessTime: seq<int>
    var cumulativeValues: seq<int>
    var enabled: bool
    var nextPart: nat
    ghost var handed: seq<Sample>

    ghost predicate Aligned()
      reads this
    {
      |components| == |parts| == |lastProcessTime| == |cumulativeValues|
    }

    ghost function Now(): Cost
      requires Aligned()
      reads this
    {
      Cost(seq(|components|, i requires 0 <= i < |components| && Aligned() reads this =>
             Entry(components[i], parts[i], lastProcessTime[i], cumulativeValues[i])),
           enabled, nextPart, handed)
    }

    constructor ()
      ensures Aligned() && Now() == FRESH
    {
      components, parts, lastProcessTime, cumulativeValues := [], [], [], [];
      enabled, nextPart, handed := false, 0, [];
    }

    method Find(p: nat) returns (i: nat)
      requires Aligned()
      ensures i == IndexOf(Now().entries, p)
    {
      i := 0;
      while i < |components| && components[i] != p
        invariant 0 <= i <= |components|
        invariant forall j | 0 <= j < i :: components[j] != p
      {
        i := i + 1;
      }
      FirstIndex(Now().entries, p, i);
    }

    method AddProcess(p: nat) returns (added: bool)
      requires Aligned()
      modifies this
      ensures Aligned() && Now() == AfterAdd(old(Now()), p)
      ensures added == !Has(old(Now()), p)
    {
      var i := Find(p);
      if i < |components| {
        return false;
      }
      components, parts := components + [p], parts + [nextPart];
      lastProcessTime, cumulativeValues := lastProcessTime + [0], cumulativeValues + [0];
      nextPart := nextPart + 1;
      added := true;
    }

    /** All four vectors have been shifted from i up to j. */
    ghost predicate Shifted(a: seq<nat>, b: seq<nat>, c: seq<int>, d: seq<int>, i: nat, j: nat)
      requires i <= j < |a| == |b| == |c| == |d|
      reads this
    {
      && components == Shift(a, i, j) && parts == Shift(b, i, j)
      && lastProcessTime == Shift(c, i, j) && cumulativeValues == Shift(d, i, j)
      && Aligned() && |components| == |a|
    }

    method MoveOne(ghost a: seq<nat>, ghost b: seq<nat>, ghost c: seq<int>, ghost d: seq<int>, ghost i: nat, j: nat)
      requires i <= j < |a| - 1 && |a| == |b| == |c| == |d| && Shifted(a, b, c, d, i, j)
      modifies `components, `parts, `lastProcessTime, `cumulativeValues
      ensures Shifted(a, b, c, d, i, j + 1)
    {
      ShiftMoves(a, i, j);
      ShiftMoves(b, i, j);
      ShiftMoves(c, i, j);
      ShiftMoves(d, i, j);
      hide Shift;
      components, parts := components[j := components[j + 1]], parts[j := parts[j + 1]];
      lastProcessTime := lastProcessTime[j := lastProcessTime[j + 1]];
      cumulativeValues := cumulativeValues[j := cumulativeValues[j + 1]];
    }

    lemma NothingShifted(i: nat)
      requires Aligned() && i < |components|
      ensures Shifted(components, parts, lastProcessTime, cumulativeValues, i, i)
    {
      ShiftStarts(components, i);
      ShiftStarts(parts, i);
      ShiftStarts(lastProcessTime, i);
      ShiftStarts(cumulativeValues, i);
    }

    method DropLast(ghost a: seq<nat>, ghost b: seq<nat>, ghost c: seq<int>, ghost d: seq<int>, ghost i: nat)
      requires i < |a| == |b| == |c| == |d| && Shifted(a, b, c, d, i, |a| - 1)
      modifies `components, `parts, `lastProcessTime, `cumulativeValues
      ensures components == Without(a, i) && parts == Without(b, i)
      ensures lastProcessTime == Without(c, i) && cumulativeValues == Without(d, i)
    {
      ShiftEnds(a, i);
      ShiftEnds(b, i);
      ShiftEnds(c, i);
      ShiftEnds(d, i);
      hide Shift, Without;
      var size := |components|;
      components, parts := components[..size - 1], parts[..size - 1];
      lastProcessTime, cumulativeValues := lastProcessTime[..size - 1], cumulativeValues[..size - 1];
    }

    /** Shifts what follows to the left, in all four vectors, and drops the last entry. */
    method ShiftLeft(i: nat)
      requires Aligned() && i < |components|
      modifies `components, `parts, `lastProcessTime, `cumulativeValues
      ensures components == Without(old(components), i) && parts == Without(old(parts), i)
      ensures lastProcessTime == Without(old(lastProcessTime), i)
      ensures cumulativeValues == Without(old(cumulativeValues), i)
    {
      ghost var a, b, c, d := components, parts, lastProcessTime, cumulativeValues;
      var size := |components|;
      NothingShifted(i);
      hide *;
      var j := i;
      while j < size - 1
        invariant i <= j <= size - 1
        invariant Shifted(a, b, c, d, i, j)
      {
        MoveOne(a, b, c, d, i, j);
        j := j + 1;
      }
      DropLast(a, b, c, d, i);
    }

    method RemoveProcess(p: nat) returns (removed: bool)
      requires Aligned()
      modifies this
      ensures Aligned() && Now() == AfterRemove(old(Now()), p)
      ensures removed == Has(old(Now()), p)
    {
      ghost var before := Now();
      var i := Find(p);
      if i == |components| {
        return false;
      }
      ShiftLeft(i);
      assert Now().entries == Without(before.entries, i);
      removed := true;
    }

    method UpdateValue(p: nat, value: int, processTime: int)
      requires Aligned()
      modifies this
      ensures Aligned() && Now() == AfterUpdate(old(Now()), p, value, processTime)
    {
      ghost var before := Now();
      var i := Find(p);
      if i == |components| {
        return;
      }
      lastProcessTime := lastProcessTime[i := processTime];
      var delta := (if value < cumulativeValues[i] then cumulativeValues[i] else value) - cumulativeValues[i];
      cumulativeValues := cumulativeValues[i := cumulativeValues[i] + delta];
      assert Now().entries == AfterUpdate(before, p, value, processTime).entries;
      if enabled {
        handed := handed + [Sample(parts[i], delta)];
      }
    }
  }

  lemma {:induction false} FirstIndex(entries: seq<Entry>, p: nat, i: nat)
    requires i <= |entries| && (i < |entries| ==> entries[i].process == p)
    requires forall j | 0 <= j < i :: entries[j].process != p
    ensures IndexOf(entries, p) == i
  {
    if i > 0 {
      FirstIndex(entries[1..], p, i - 1);
    }
  }
}
