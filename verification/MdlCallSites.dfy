/** `.calls`: the call sites of a function, without those whose callee a metric excludes, filtered in place. */
module MdlCallSites {
  import opened Options

  /** A call site, with the names of the function it calls; none if the callee is unknown. */
  datatype CallSite = CallSite(address: nat, calleeNames: seq<string>)

  /** How many of a callee's names are excluded. */
  function Hits(names: seq<string>, excluded: seq<string>): nat {
    if names == [] then 0 else (if names[0] in excluded then 1 else 0) + Hits(names[1..], excluded)
  }

  /** Overwriting an entry with the last one and dropping the last. */
  function SwapOut(calls: seq<CallSite>, u: nat): seq<CallSite>
    requires u < |calls|
  {
    calls[u := calls[|calls| - 1]][..|calls| - 1]
  }

  /** Taking entry u out so many times over; None once there is no entry u. */
  function Strike(calls: seq<CallSite>, u: nat, times: nat): Option<seq<CallSite>>
    decreases times
  {
    if times == 0 then Some(calls)
    else if u >= |calls| then None
    else Strike(SwapOut(calls, u), u, times - 1)
  }

  /** The sweep from entry u on, with one removal for each excluded name of each callee; None if it writes outside
      the vector. */
  function Sweep(calls: seq<CallSite>, u: nat, excluded: seq<string>): Option<seq<CallSite>>
    decreases if u < |calls| then |calls| - u else 0
  {
    if u >= |calls| then Some(calls) else
    var hits := Hits(calls[u].calleeNames, excluded);
    if hits == 0 then Sweep(calls, u + 1, excluded) else
    var struck := Strike(calls, u, hits);
    StrikeShrinks(calls, u, hits);
    if struck.None? then None else Sweep(struck.value, u, excluded)
  }

  lemma {:induction false} StrikeShrinks(calls: seq<CallSite>, u: nat, times: nat)
    ensures Strike(calls, u, times).Some? ==> |Strike(calls, u, times).value| == |calls| - times
    decreases times
  {
    if times > 0 && u < |calls| {
      StrikeShrinks(SwapOut(calls, u), u, times - 1);
    }
  }

  /** The vector of call sites that `.calls` filters. */
  class CallVector {
    var calls: seq<CallSite>

    constructor (calls: seq<CallSite>)
      ensures this.calls == calls
    {
      this.calls := calls;
    }

    /** One pass over the vector, which shrinks under the loop. */
    method Exclude(excluded: seq<string>) returns (inBounds: bool, anythingRemoved: bool)
      modifies this
      ensures inBounds == Sweep(old(calls), 0, excluded).Some?
      ensures inBounds ==> calls == Sweep(old(calls), 0, excluded).value
      ensures inBounds ==> anythingRemoved == (|calls| < |old(calls)|)
    {
      anythingRemoved := false;
      ghost var whole := Sweep(calls, 0, excluded);
      var u := 0;
      while u < |calls|
        invariant 0 <= u
        invariant Sweep(calls, u, excluded) == whole
        invariant |calls| <= |old(calls)| && anythingRemoved == (|calls| < |old(calls)|)
        decreases |calls| - u
      {
        var oldSize := |calls|;
        var names := calls[u].calleeNames;
        ghost var start := calls;
        ghost var struck := Strike(start, u, Hits(names, excluded));
        var i := 0;
        assert names[0..] == names;
        while i < |names|
          invariant 0 <= i <= |names|
          invariant Strike(calls, u, Hits(names[i..], excluded)) == struck
          invariant |calls| <= |old(calls)| && anythingRemoved == (|calls| < |old(calls)|)
          invariant |calls| == |start| ==> calls == start && Hits(names[i..], excluded) == Hits(names, excluded)
          invariant |calls| <= |start| && (|calls| < |start| ==> Hits(names, excluded) > 0)
        {
          assert names[i..][0] == names[i] && names[i..][1..] == names[i + 1..];
          if names[i] in excluded {
            HitHere(names, i, excluded);
            if u >= |calls| {
              return false, true;
            }
            anythingRemoved := true;
            calls := SwapOut(calls, u);
          }
          i := i + 1;
        }
        StrikeShrinks(start, u, Hits(names, excluded));
        u := if |calls| == oldSize then u + 1 else u;
      }
      inBounds := true;
    }
  }

  lemma {:induction false} HitHere(names: seq<string>, i: nat, excluded: seq<string>)
    requires i < |names| && names[i] in excluded
    ensures Hits(names, excluded) > 0
  {
    if i > 0 {
      HitHere(names[1..], i - 1, excluded);
    }
  }

  // ----- what the sweep leaves -----

  predicate Wanted(site: CallSite, excluded: seq<string>) {
    forall name <- site.calleeNames :: name !in excluded
  }

  /** Exactly the wanted call sites are left, each as often as before. */
  ghost predicate Filtered(before: seq<CallSite>, after: seq<CallSite>, excluded: seq<string>) {
    forall site :: multiset(after)[site] == if Wanted(site, excluded) then multiset(before)[site] else 0
  }

  lemma {:induction false} WantedMeansNoHits(names: seq<string>, excluded: seq<string>)
    ensures Hits(names, excluded) == 0 <==> forall name <- names :: name !in excluded
  {
    if names != [] {
      WantedMeansNoHits(names[1..], excluded);
      assert names == [names[0]] + names[1..];
    }
  }

  lemma SwapOutRemovesOne(calls: seq<CallSite>, u: nat)
    requires u < |calls|
    ensures multiset(calls) == multiset(SwapOut(calls, u)) + multiset{calls[u]}
  {
    var last := |calls| - 1;
    assert calls == calls[..last] + [calls[last]];
    if u < last {
      var before, after := calls[..u], calls[u + 1..last];
      assert calls[..last] == before + [calls[u]] + after;
      assert SwapOut(calls, u) == before + [calls[last]] + after;
    } else {
      assert SwapOut(calls, u) == calls[..last];
    }
    hide SwapOut;
  }

  /** A vector none of whose callees is excluded is filtered already. */
  lemma NothingToFilter(calls: seq<CallSite>, excluded: seq<string>)
    requires forall i | 0 <= i < |calls| :: Hits(calls[i].calleeNames, excluded) == 0
    ensures Filtered(calls, calls, excluded)
  {
    forall site | site in multiset(calls)
      ensures Wanted(site, excluded)
    {
      assert site in calls;
      WantedMeansNoHits(site.calleeNames, excluded);
    }
  }

  lemma FilteredAlso(calls: seq<CallSite>, rest: seq<CallSite>, site: CallSite, r: seq<CallSite>, excluded: seq<string>)
    requires multiset(calls) == multiset(rest) + multiset{site} && !Wanted(site, excluded)
    requires Filtered(rest, r, excluded)
    ensures Filtered(calls, r, excluded)
  {
  }

  lemma {:induction false} SweepFilters(calls: seq<CallSite>, u: nat, excluded: seq<string>)
    requires u <= |calls|
    requires forall i | 0 <= i < |calls| :: Hits(calls[i].calleeNames, excluded) <= if i < u then 0 else 1
    ensures Sweep(calls, u, excluded).Some? && Filtered(calls, Sweep(calls, u, excluded).value, excluded)
    decreases |calls| - u
  {
    hide Filtered, Hits, Wanted;
    if u == |calls| {
      NothingToFilter(calls, excluded);
    } else {
      WantedMeansNoHits(calls[u].calleeNames, excluded);
      if Hits(calls[u].calleeNames, excluded) == 0 {
        SweepFilters(calls, u + 1, excluded);
      } else {
        FilteredOnce(calls, u, excluded);
      }
    }
  }

  lemma {:induction false} FilteredOnce(calls: seq<CallSite>, u: nat, excluded: seq<string>)
    requires u < |calls| && Hits(calls[u].calleeNames, excluded) == 1
    requires forall i | 0 <= i < |calls| :: Hits(calls[i].calleeNames, excluded) <= if i < u then 0 else 1
    ensures Sweep(calls, u, excluded).Some? && Filtered(calls, Sweep(calls, u, excluded).value, excluded)
    decreases |calls| - u, 0
  {
    hide Filtered, Hits;
    var rest := SwapOut(calls, u);
    assert Strike(calls, u, 1) == Strike(rest, u, 0) == Some(rest);
    SweepFilters(rest, u, excluded);
    SwapOutRemovesOne(calls, u);
    WantedMeansNoHits(calls[u].calleeNames, excluded);
    FilteredAlso(calls, rest, calls[u], Sweep(rest, u, excluded).value, excluded);
    hide SwapOut;
  }

  ghost predicate SweepsCorrectly(calls: seq<CallSite>, excluded: seq<string>) {
    Sweep(calls, 0, excluded).Some? && Filtered(calls, Sweep(calls, 0, excluded).value, excluded)
  }

  predicate CallsOnly(calls: seq<CallSite>, callees: set<seq<string>>) {
    forall site <- calls :: site.calleeNames in callees
  }

  lemma {:induction false} TwiceExcludedOverruns(site: CallSite, excluded: seq<string>)
    requires Hits(site.calleeNames, excluded) >= 2
    ensures Sweep([site], 0, excluded).None?
  {
    var hits := Hits(site.calleeNames, excluded);
    assert SwapOut([site], 0) == [];
    assert Strike([], 0, hits - 1).None?;
  }

  /** Over call sites of given callees, the sweep always leaves exactly the call points whose callee is unknown or not
      excluded, if and only if no callee has more than one excluded name. */
  lemma SweepIsExactIff(callees: set<seq<string>>, excluded: seq<string>)
    ensures (forall calls: seq<CallSite> | CallsOnly(calls, callees) :: SweepsCorrectly(calls, excluded))
      <==> (forall names <- callees :: Hits(names, excluded) <= 1)
  {
    if forall names <- callees :: Hits(names, excluded) <= 1 {
      forall calls: seq<CallSite> | CallsOnly(calls, callees) ensures SweepsCorrectly(calls, excluded) {
        forall i | 0 <= i < |calls| ensures Hits(calls[i].calleeNames, excluded) <= 1 {
          assert calls[i] in calls;
        }
        SweepFilters(calls, 0, excluded);
      }
    } else {
      var names :| names in callees && Hits(names, excluded) > 1;
      var calls := [CallSite(0, names)];
      TwiceExcludedOverruns(calls[0], excluded);
      assert CallsOnly(calls, callees) && !SweepsCorrectly(calls, excluded);
    }
  }

  /** With an excluded alias pair, the sweep also loses a call site nobody excluded. */
  lemma AliasLosesUnrelated()
    ensures var calls := [CallSite(0, ["malloc", "__malloc"]), CallSite(8, ["work"]), CallSite(16, ["solve"])];
      && Sweep(calls, 0, ["malloc", "__malloc"]) == Some([CallSite(8, ["work"])])
      && Wanted(calls[2], ["malloc", "__malloc"])
  {
    var excluded := ["malloc", "__malloc"];
    var calls := [CallSite(0, ["malloc", "__malloc"]), CallSite(8, ["work"]), CallSite(16, ["solve"])];
    assert Hits(excluded[1..], excluded) == 1 && Hits(excluded, excluded) == 2;
    assert SwapOut(calls, 0) == [calls[2], calls[1]];
    assert SwapOut([calls[2], calls[1]], 0) == [calls[1]];
    assert Strike(calls, 0, 2) == Strike([calls[2], calls[1]], 0, 1) == Strike([calls[1]], 0, 0);
    assert Hits(["work"], excluded) == 0;
    assert Sweep([calls[1]], 0, excluded) == Sweep([calls[1]], 1, excluded) == Some([calls[1]]);
  }

  // ----- for one list, exactly -----

  /** Along the sweep, each callee that is met has at most as many excluded names as entries are left, and the
      entries at the end that its further names remove are unwanted anyway. */
  predicate StrikesRightly(calls: seq<CallSite>, u: nat, excluded: seq<string>)
    decreases if u < |calls| then |calls| - u else 0
  {
    if u >= |calls| then true else
    var hits := Hits(calls[u].calleeNames, excluded);
    if hits == 0 then StrikesRightly(calls, u + 1, excluded) else
    StrikeShrinks(calls, u, hits);
    && u + hits <= |calls|
    && (forall i | |calls| - hits < i < |calls| :: !Wanted(calls[i], excluded))
    && Strike(calls, u, hits).Some? && StrikesRightly(Strike(calls, u, hits).value, u, excluded)
  }

  /** Swapping out an entry moves the last one forward and leaves those before it at the end. */
  lemma {:induction false} EndOf(calls: seq<CallSite>, u: nat, times: nat)
    requires 1 < times && u + times <= |calls|
    ensures var rest := SwapOut(calls, u);
      && u < |rest| && rest[u] == calls[|calls| - 1] && rest[..u] == calls[..u]
      && multiset(calls[|calls| - times + 1..])
         == multiset(rest[|rest| - times + 2..]) + multiset{calls[|calls| - 1]}
  {
    var last := |calls| - 1;
    assert SwapOut(calls, u)[|calls| - 1 - times + 2..] == calls[|calls| - times + 1..last];
    assert calls[|calls| - times + 1..] == calls[|calls| - times + 1..last] + [calls[last]];
  }

  /** Striking needs that many entries, and leaves those before u alone. */
  lemma {:induction false} StrikeStays(calls: seq<CallSite>, u: nat, times: nat)
    requires 0 < times && u < |calls|
    ensures Strike(calls, u, times).Some? <==> u + times <= |calls|
    ensures Strike(calls, u, times).Some? ==>
      var rest := Strike(calls, u, times).value;
      |rest| == |calls| - times && rest[..u] == calls[..u]
    decreases times
  {
    var rest := SwapOut(calls, u);
    assert |rest| == |calls| - 1 && rest[..u] == calls[..u];
    if times == 1 {
      assert Strike(rest, u, 0) == Some(rest);
    } else if u < |calls| - 1 {
      StrikeStays(rest, u, times - 1);
    } else {
      assert Strike(rest, u, times - 1).None?;
    }
  }

  /** Striking removes the entry and as many from the end as the strikes after the first. */
  lemma {:induction false} StrikeRemoves(calls: seq<CallSite>, u: nat, times: nat)
    requires 0 < times && u + times <= |calls| && Strike(calls, u, times).Some?
    ensures multiset(calls) == multiset(Strike(calls, u, times).value)
      + multiset{calls[u]} + multiset(calls[|calls| - times + 1..])
    decreases times
  {
    hide SwapOut;
    var rest := SwapOut(calls, u);
    SwapOutRemovesOne(calls, u);
    assert Strike(calls, u, times) == Strike(rest, u, times - 1);
    if times == 1 {
      assert Strike(rest, u, 0) == Some(rest) && calls[|calls|..] == [];
    } else {
      EndOf(calls, u, times);
      StrikeRemoves(rest, u, times - 1);
      var tail := multiset(calls[|calls| - times + 1..]);
      var restTail := multiset(rest[|rest| - times + 2..]);
      Regroup(multiset(calls), multiset(rest), multiset(Strike(rest, u, times - 1).value), calls[u], rest[u],
              restTail, tail);
    }
    hide Strike;
  }

  lemma Regroup(
    all: multiset<CallSite>, rest: multiset<CallSite>, struck: multiset<CallSite>, x: CallSite, y: CallSite,
    restTail: multiset<CallSite>, tail: multiset<CallSite>)
    requires all == rest + multiset{x} && rest == struck + multiset{y} + restTail && tail == restTail + multiset{y}
    ensures all == struck + multiset{x} + tail
  {
  }

  lemma {:induction false} SweepOnlyRemoves(calls: seq<CallSite>, u: nat, excluded: seq<string>)
    requires Sweep(calls, u, excluded).Some?
    ensures multiset(Sweep(calls, u, excluded).value) <= multiset(calls)
    decreases if u < |calls| then |calls| - u else 0
  {
    if u < |calls| {
      var hits := Hits(calls[u].calleeNames, excluded);
      if hits == 0 {
        SweepOnlyRemoves(calls, u + 1, excluded);
      } else {
        StrikeStays(calls, u, hits);
        StrikeRemoves(calls, u, hits);
        SweepOnlyRemoves(Strike(calls, u, hits).value, u, excluded);
      }
    }
  }

  /** One callee's strikes: what is filtered afterwards is filtered altogether if only unwanted entries went. */
  lemma StrikeFilters(
    calls: seq<CallSite>, u: nat, struck: seq<CallSite>, tail: seq<CallSite>, r: seq<CallSite>, excluded: seq<string>)
    requires u < |calls| && !Wanted(calls[u], excluded) && multiset(r) <= multiset(struck)
    requires multiset(calls) == multiset(struck) + multiset{calls[u]} + multiset(tail)
    ensures Filtered(calls, r, excluded)
      <==> (forall i | 0 <= i < |tail| :: !Wanted(tail[i], excluded)) && Filtered(struck, r, excluded)
  {
    if forall i | 0 <= i < |tail| :: !Wanted(tail[i], excluded) {
      forall site | Wanted(site, excluded)
        ensures multiset(calls)[site] == multiset(struck)[site]
      {
        assert site !in tail;
      }
    } else {
      var i :| 0 <= i < |tail| && Wanted(tail[i], excluded);
      assert tail[i] in multiset(tail);
      assert multiset(r)[tail[i]] < multiset(calls)[tail[i]];
    }
  }

  lemma {:induction false} SweepExactlyFrom(calls: seq<CallSite>, u: nat, excluded: seq<string>)
    requires u <= |calls| && forall i | 0 <= i < u :: Hits(calls[i].calleeNames, excluded) == 0
    ensures Sweep(calls, u, excluded).Some? && Filtered(calls, Sweep(calls, u, excluded).value, excluded)
      <==> StrikesRightly(calls, u, excluded)
    decreases |calls| - u
  {
    if u == |calls| {
      NothingToFilter(calls, excluded);
    } else {
      var hits := Hits(calls[u].calleeNames, excluded);
      WantedMeansNoHits(calls[u].calleeNames, excluded);
      if hits == 0 {
        SweepExactlyFrom(calls, u + 1, excluded);
      } else {
        StrikeStays(calls, u, hits);
        if u + hits <= |calls| {
          SweepExactlyStruck(calls, u, hits, excluded);
        }
      }
    }
  }

  lemma {:induction false} SweepExactlyStruck(calls: seq<CallSite>, u: nat, hits: nat, excluded: seq<string>)
    requires u < |calls| && forall i | 0 <= i < u :: Hits(calls[i].calleeNames, excluded) == 0
    requires hits == Hits(calls[u].calleeNames, excluded) > 0 && u + hits <= |calls|
    requires Strike(calls, u, hits).Some?
    ensures Sweep(calls, u, excluded).Some? && Filtered(calls, Sweep(calls, u, excluded).value, excluded)
      <==> StrikesRightly(calls, u, excluded)
    decreases |calls| - u, 0
  {
    var struck := Strike(calls, u, hits).value;
    var tail := calls[|calls| - hits + 1..];
    StrikeStays(calls, u, hits);
    StrikeRemoves(calls, u, hits);
    assert forall i | 0 <= i < u :: struck[i] == struck[..u][i] == calls[..u][i] == calls[i];
    SweepExactlyFrom(struck, u, excluded);
    WantedMeansNoHits(calls[u].calleeNames, excluded);
    assert (forall i | 0 <= i < |tail| :: !Wanted(tail[i], excluded))
      <==> (forall i | |calls| - hits < i < |calls| :: !Wanted(calls[i], excluded)) by {
      assert forall i | |calls| - hits < i < |calls| :: calls[i] == tail[i - (|calls| - hits + 1)];
    }
    if Sweep(struck, u, excluded).Some? {
      SweepOnlyRemoves(struck, u, excluded);
      StrikeFilters(calls, u, struck, tail, Sweep(struck, u, excluded).value, excluded);
    }
  }

  /** For one list of call sites: the sweep stays in the vector and leaves exactly the wanted ones, if and only if each
      surplus name strikes an unwanted entry. */
  lemma SweepExactly(calls: seq<CallSite>, excluded: seq<string>)
    ensures SweepsCorrectly(calls, excluded) <==> StrikesRightly(calls, 0, excluded)
  {
    SweepExactlyFrom(calls, 0, excluded);
  }
}
