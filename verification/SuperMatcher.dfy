/**
 The superMatcher of a selector group, called with a seed: element matchers sort the seed into
 results and the rest, set matchers move elements out of the rest, and the loop behind them
 merges both kinds of matches into seed order.
 */
module SuperMatcher {
  import opened Wrappers
  import opened SetMatcher
  import opened Positional

  /** An array that grows and shrinks at its end. */
  class Results {
    var entries: Entries

    constructor (entries: Entries)
      ensures this.entries == entries
    {
      this.entries := entries;
    }

    method Push(values: Entries)
      modifies this
      ensures entries == old(entries) + values
    {
      entries := entries + values;
    }

    /** pop of an empty array is undefined. */
    method Pop() returns (value: Option<nat>)
      modifies this
      ensures if old(entries) == [] then value == None && entries == [] else old(entries) == entries + [value]
    {
      if entries == [] {
        return None;
      }
      value := entries[|entries| - 1];
      entries := entries[..|entries| - 1];
    }
  }

  predicate Any(matchers: seq<Filter>, e: nat) {
    exists j :: 0 <= j < |matchers| && matchers[j](e)
  }

  /** The element at index i is accepted by an element matcher. */
  predicate Hit(matchers: seq<Filter>, seed: Entries, i: nat) {
    i < |seed| && seed[i].Some? && Any(matchers, seed[i].value)
  }

  /** What no element matcher accepts, with placeholders for the rest. */
  function Rest(matchers: seq<Filter>, seed: Entries): (r: Entries)
    ensures |r| == |seed| && forall i: nat :: At(r, i) == if Hit(matchers, seed, i) then None else At(seed, i)
  {
    seq(|seed|, (i: nat) requires i < |seed| => if Hit(matchers, seed, i) then None else seed[i])
  }

  function Hits(matchers: seq<Filter>, seed: Entries): (r: set<nat>)
    ensures forall i: nat :: i in r <==> Hit(matchers, seed, i)
  {
    set i: nat | i < |seed| && Hit(matchers, seed, i)
  }

  /** The indices that hold an element. */
  function Occupied(s: Entries): (r: set<nat>)
    ensures forall i: nat :: i in r <==> At(s, i).Some?
  {
    set i: nat | i < |s| && s[i].Some?
  }

  /** The entries at the chosen indices below n, in order. */
  function Collect(s: Entries, chosen: set<nat>, n: nat): Entries
    requires n <= |s|
  {
    if n == 0 then [] else Collect(s, chosen, n - 1) + if n - 1 in chosen then [s[n - 1]] else []
  }

  lemma PickOneMore(s: Entries, indices: seq<nat>, i: nat)
    requires Within(indices, |s|) && i < |s|
    ensures Within(indices + [i], |s|) && Pick(s, indices + [i]) == Pick(s, indices) + [s[i]]
  {
  }

  lemma CollectNext(s: Entries, chosen: set<nat>, front: seq<nat>, i: nat)
    requires i < |s| && Within(front, |s|) && Collect(s, chosen, i) == Pick(s, front)
    ensures
      var all := if i in chosen then front + [i] else front;
      Within(all, |s|) && Collect(s, chosen, i + 1) == Pick(s, all)
  {
    PickOneMore(s, front, i);
  }

  lemma WhereNext(p: nat -> bool, i: nat)
    ensures Where(i + 1, p) == if p(i) then Where(i, p) + [i] else Where(i, p)
  {
  }

  lemma {:induction false} CollectIsPick(s: Entries, chosen: set<nat>, p: nat -> bool, n: nat)
    requires n <= |s| && forall i :: p(i) == (i in chosen)
    ensures Within(Where(n, p), |s|) && Collect(s, chosen, n) == Pick(s, Where(n, p))
  {
    if n == 0 {
    } else {
      CollectIsPick(s, chosen, p, n - 1);
      CollectNext(s, chosen, Where(n - 1, p), n - 1);
      WhereNext(p, n - 1);
    }
  }

  /** Condensing an array that holds s at the chosen indices only collects these. */
  lemma CondensedIsCollected(out: Entries, s: Entries, chosen: set<nat>)
    requires forall i: nat :: At(out, i) == if i in chosen then At(s, i) else None
    requires forall i :: i in chosen ==> i < |s| && s[i].Some?
    ensures Within(Passing(out, None), |out|) && Pick(out, Passing(out, None)) == Collect(s, chosen, |s|)
  {
    var p := (i: nat) => i in chosen;
    var filled, all := Passing(out, None), Where(|s|, p);
    CollectIsPick(s, chosen, p, |s|);
    InWithin(filled, |out|);
    forall i
      ensures i in filled <==> i in all
    {
      if i >= 0 {
        FilledHas(out, i);
      }
    }
    AscendingSame(filled, all);
    PicksAgree(out, s, all);
  }

  lemma PicksAgree(out: Entries, s: Entries, indices: seq<nat>)
    requires Within(indices, |out|) && Within(indices, |s|)
    requires forall i :: i in indices ==> At(out, i) == At(s, i)
    ensures Pick(out, indices) == Pick(s, indices)
  {
    assert forall k :: 0 <= k < |indices| ==> indices[k] in indices;
  }

  /** The number of empty entries. */
  function Holes(s: Entries): nat {
    if s == [] then 0 else Holes(s[..|s| - 1]) + if s[|s| - 1].None? then 1 else 0
  }

  lemma {:induction false} HolesDecide(s: Entries)
    ensures Holes(s) <= |s|
    ensures Holes(s) == 0 ==> forall i: nat :: i < |s| ==> s[i].Some?
    ensures Holes(s) == |s| ==> forall i: nat :: At(s, i) == None
  {
    if s == [] {
    } else {
      var front := s[..|s| - 1];
      HolesDecide(front);
      assert forall i: nat :: i < |front| ==> s[i] == At(front, i);
    }
  }

  lemma HolesPushed(s: Entries, e: Option<nat>)
    ensures Holes(s + [e]) == Holes(s) + if e.None? then 1 else 0
  {
    assert (s + [e])[..|s|] == s;
  }

  // ---------- what set matchers keep ----------

  /** No index has an element in both arrays, and together they have those of `all`. */
  ghost predicate Split(all: Entries, unmatched: Entries, matched: Entries) {
    forall i: nat ::
      || (At(unmatched, i) == At(all, i) && At(matched, i) == None)
      || (At(unmatched, i) == None && At(matched, i) == At(all, i))
  }

  lemma MovedKeepsSplit(all: Entries, u0: Entries, u1: Entries, m0: Entries, m1: Entries, indices: seq<nat>)
    requires Split(all, u0, m0) && Moved(u0, u1, m0, m1, Elements(indices))
    requires Within(indices, |u0|) && forall k :: 0 <= k < |indices| ==> u0[indices[k]].Some?
    ensures Split(all, u1, m1)
  {
    forall i: nat | i in Elements(indices)
      ensures At(u0, i).Some?
    {
      var k :| 0 <= k < |indices| && indices[k] == i;
    }
  }

  /** A set matcher only moves elements, at their index, whatever it matches. */
  lemma OutcomeKeepsSplit(stage: Stage, all: Entries, u0: Entries, u1: Entries, m0: Entries, m1: Entries)
    requires Split(all, u0, m0) && Outcome(stage, u0, u1, m0, m1)
    ensures Split(all, u1, m1)
  {
    if stage.pre.None? && stage.post.Some? {
      var in1, out1 :| Moved(u0, in1, m0, out1, Elements(Selected(stage, u0))) &&
        Filtered(in1, u1, out1, m1, Kept(stage.post.value, out1));
      MovedKeepsSplit(all, u0, in1, m0, out1, Selected(stage, u0));
      FilteredKeepsSplit(all, in1, u1, out1, m1, Kept(stage.post.value, out1));
    } else {
      MovedKeepsSplit(all, u0, u1, m0, m1, Winners(stage, u0));
    }
  }

  lemma FilteredKeepsSplit(all: Entries, in1: Entries, in2: Entries, out1: Entries, out2: Entries, kept: set<nat>)
    requires Split(all, in1, out1) && Filtered(in1, in2, out1, out2, kept)
    ensures Split(all, in2, out2)
  {
    forall i: nat
      ensures || (At(in2, i) == At(all, i) && At(out2, i) == None) || (At(in2, i) == None && At(out2, i) == At(all, i))
    {
      assert At(out2, i) == if i in kept then At(out1, i) else None;
      assert At(in2, i) == if At(out1, i).Some? && i !in kept then At(out1, i) else At(in1, i);
    }
  }

  /** The set matchers were run one after the other. */
  ghost predicate RanAll(stages: seq<Stage>, u0: Entries, u1: Entries, m0: Entries, m1: Entries)
    decreases |stages|
  {
    if stages == [] then u0 == u1 && m0 == m1
    else
      var n := |stages| - 1;
      exists u, m {:trigger Outcome(stages[n], u, u1, m, m1)} ::
        RanAll(stages[..n], u0, u, m0, m) && Outcome(stages[n], u, u1, m, m1)
  }

  lemma RanOneMore(stages: seq<Stage>, n: nat, u0: Entries, u: Entries, u1: Entries, m0: Entries, m: Entries,
                   m1: Entries)
    requires n < |stages| && RanAll(stages[..n], u0, u, m0, m) && Outcome(stages[n], u, u1, m, m1)
    ensures RanAll(stages[..n + 1], u0, u1, m0, m1)
  {
    assert stages[..n + 1][..n] == stages[..n];
    assert Outcome(stages[..n + 1][n], u, u1, m, m1);
  }

  /** The single set matcher of a group decides by itself, from what no element matcher accepts. */
  lemma OneSetMatcherDecides(stage: Stage, u0: Entries, u1: Entries, m1: Entries)
    requires RanAll([stage], u0, u1, [], m1)
    ensures Moved(u0, u1, [], m1, Elements(Winners(stage, u0)))
  {
    assert [stage][..0] == [];
    var u, m :| RanAll([stage][..0], u0, u, [], m) && Outcome([stage][0], u, u1, m, m1);
    EmptyOutcome(stage, u0, u1, [], m1);
  }

  // ---------- the loops ----------

  /** Every entry of the seed is an element. */
  predicate Full(seed: Entries) {
    forall i :: 0 <= i < |seed| ==> seed[i].Some?
  }

  /** An index whose element is in neither array was a hit, unless the seed had a placeholder there. */
  lemma GapIsHit(matchers: seq<Filter>, seed: Entries, unmatched: Entries, matched: Entries, i: nat)
    requires Full(seed) && i < |seed| && Split(Rest(matchers, seed), unmatched, matched)
    ensures At(unmatched, i).None? && At(matched, i).None? <==> i in Hits(matchers, seed)
  {
  }

  /** The loop over the element matchers. */
  method MatchAny(matchers: seq<Filter>, e: nat) returns (found: bool)
    ensures found == Any(matchers, e)
  {
    var j := 0;
    while j < |matchers| && !matchers[j](e)
      invariant 0 <= j <= |matchers| && forall k :: 0 <= k < j ==> !matchers[k](e)
    {
      j := j + 1;
    }
    found := j < |matchers|;
  }

  /** The first loop: hits go to results and, for set matchers, the others and placeholders to `unmatched`. */
  method MatchElements(matchers: seq<Filter>, bySet: bool, seed: Entries, results: Results)
    returns (unmatched: Entries, matchedCount: int)
    modifies results
    ensures unmatched == if bySet then Rest(matchers, seed) else []
    ensures bySet ==> matchedCount == Holes(unmatched)
    ensures results.entries == old(results.entries) + Collect(seed, Hits(matchers, seed), |seed|)
  {
    ghost var p := Hits(matchers, seed);
    ghost var before := results.entries;
    unmatched, matchedCount := [], 0;
    var i := 0;
    while i < |seed|
      invariant 0 <= i <= |seed| && unmatched == if bySet then Rest(matchers, seed)[..i] else []
      invariant bySet ==> matchedCount + i == Holes(unmatched)
      invariant results.entries == before + Collect(seed, p, i)
    {
      var found := false;
      if seed[i].Some? {
        found := MatchAny(matchers, seed[i].value);
        if found {
          results.Push([seed[i]]);
        }
      }
      assert found <==> i in p;
      if bySet {
        var elem := if found then None else seed[i];
        if elem.Some? {
          matchedCount := matchedCount - 1;
        }
        HolesPushed(unmatched, elem);
        assert Rest(matchers, seed)[i] == At(Rest(matchers, seed), i) == elem;
        unmatched := unmatched + [elem];
      }
      i := i + 1;
    }
    matchedCount := matchedCount + i;
  }

  /** The second loop: each set matcher moves what it matches. */
  method MatchSets(stages: seq<Stage>, unmatched: Slots, setMatched: Slots)
    requires unmatched != setMatched && setMatched.entries == [] && forall j :: 0 <= j < |stages| ==> Built(stages[j])
    modifies unmatched, setMatched
    ensures RanAll(stages, old(unmatched.entries), unmatched.entries, [], setMatched.entries)
    ensures Split(old(unmatched.entries), unmatched.entries, setMatched.entries)
  {
    ghost var u0 := unmatched.entries;
    var j := 0;
    while j < |stages|
      invariant 0 <= j <= |stages|
      invariant RanAll(stages[..j], u0, unmatched.entries, [], setMatched.entries)
      invariant Split(u0, unmatched.entries, setMatched.entries)
    {
      ghost var u, m := unmatched.entries, setMatched.entries;
      SetMatch(stages[j], unmatched, setMatched);
      OutcomeKeepsSplit(stages[j], u0, u, unmatched.entries, m, setMatched.entries);
      RanOneMore(stages, j, u0, u, unmatched.entries, [], m, setMatched.entries);
      j := j + 1;
    }
    assert stages[..j] == stages;
  }

  lemma CollectedLast(before: Entries, s: Entries, chosen: set<nat>, i: nat)
    requires i < |s|
    ensures
      var all := before + Collect(s, chosen, i + 1);
      if i in chosen then all != [] && all[..|all| - 1] == before + Collect(s, chosen, i) && all[|all| - 1] == s[i]
      else all == before + Collect(s, chosen, i)
  {
  }

  /** The third loop: going backwards, hits come off the end of results and fill their gaps. */
  method Reintegrate(matchers: seq<Filter>, seed: Entries, matchedCount: int, unmatched: Entries, setMatched: Slots,
                     results: Results, ghost before: Entries)
    requires Split(Rest(matchers, seed), unmatched, setMatched.entries) && matchedCount == Holes(Rest(matchers, seed))
    requires results.entries == before + Collect(seed, Hits(matchers, seed), |seed|)
    modifies setMatched, results
    ensures Full(seed) ==> results.entries == before
    ensures Full(seed) ==> forall i: nat ::
      At(setMatched.entries, i) == if i in Hits(matchers, seed) then At(seed, i) else At(old(setMatched.entries), i)
  {
    if matchedCount <= 0 {
      NoHoleNoHit(matchers, seed);
      return;
    }
    ghost var p := Hits(matchers, seed);
    ghost var matched := setMatched.entries;
    var i := |seed|;
    while i > 0
      invariant 0 <= i <= |seed|
      invariant Full(seed) ==> results.entries == before + Collect(seed, p, i)
      invariant Full(seed) ==> forall k: nat ::
        At(setMatched.entries, k) == if k >= i && k in p then At(seed, k) else At(matched, k)
    {
      i := i - 1;
      if Full(seed) {
        GapIsHit(matchers, seed, unmatched, matched, i);
        CollectedLast(before, seed, p, i);
      }
      if At(unmatched, i).None? && At(setMatched.entries, i).None? {
        ghost var all := results.entries;
        var elem := results.Pop();
        assert all != [] ==> results.entries == all[..|all| - 1] && elem == all[|all| - 1];
        setMatched.Put(i, elem);
      }
    }
  }

  /** What superMatcher does when some element is left for its set matchers. */
  method MatchRest(matchers: seq<Filter>, stages: seq<Stage>, seed: Entries, rest: Entries, matchedCount: int,
                   results: Results, ghost before: Entries)
    returns (unmatched: Entries, ghost matched: Entries)
    requires rest == Rest(matchers, seed) && matchedCount == Holes(rest)
    requires forall j :: 0 <= j < |stages| ==> Built(stages[j])
    requires results.entries == before + Collect(seed, Hits(matchers, seed), |seed|)
    modifies results
    ensures RanAll(stages, rest, unmatched, [], matched) && Split(rest, unmatched, matched)
    ensures Full(seed) ==> results.entries == before + Collect(seed, Hits(matchers, seed) + Occupied(matched), |seed|)
  {
    var left := new Slots(rest);
    var setMatched := new Slots([]);
    MatchSets(stages, left, setMatched);
    unmatched, matched := left.entries, setMatched.entries;
    Reintegrate(matchers, seed, matchedCount, unmatched, setMatched, results, before);
    var found, positions := Condense(setMatched.entries, None);
    if Full(seed) {
      AcceptedIsCollected(matchers, seed, unmatched, matched, setMatched.entries);
    }
    results.Push(found);
  }

  lemma NoHoleNoHit(matchers: seq<Filter>, seed: Entries)
    requires Holes(Rest(matchers, seed)) == 0
    ensures Hits(matchers, seed) == {} && Collect(seed, {}, |seed|) == []
  {
    HolesDecide(Rest(matchers, seed));
    forall i: nat
      ensures !Hit(matchers, seed, i)
    {
      assert i < |seed| ==> Rest(matchers, seed)[i] == At(Rest(matchers, seed), i);
    }
    NothingCollected(seed, |seed|);
  }

  lemma {:induction false} NothingCollected(s: Entries, n: nat)
    requires n <= |s|
    ensures Collect(s, {}, n) == []
  {
    if n == 0 {
    } else {
      NothingCollected(s, n - 1);
    }
  }

  /**
   superMatcher with a seed.  `matched` is what the set matchers make of the elements that no
   element matcher accepts.  If the seed has no placeholders, all that is accepted is added to
   results in seed order, with no sorting; what is returned is, at its index, everything else.
   */
  method SuperMatch(elementMatchers: seq<Filter>, setMatchers: seq<Stage>, seed: Entries, results: Results)
    returns (unmatched: Entries, ghost matched: Entries)
    requires forall j :: 0 <= j < |setMatchers| ==> Built(setMatchers[j])
    modifies results
    ensures setMatchers == [] ==> unmatched == matched == []
    ensures setMatchers != [] ==> Split(Rest(elementMatchers, seed), unmatched, matched)
    ensures setMatchers != [] ==>
      || RanAll(setMatchers, Rest(elementMatchers, seed), unmatched, [], matched)
      || (matched == [] && forall i: nat :: At(Rest(elementMatchers, seed), i) == None)
    ensures Full(seed) ==>
      results.entries == old(results.entries) + Collect(seed, Hits(elementMatchers, seed) + Occupied(matched), |seed|)
  {
    ghost var before := results.entries;
    var matchedCount;
    unmatched, matchedCount := MatchElements(elementMatchers, |setMatchers| > 0, seed, results);
    matched := [];
    HolesDecide(unmatched);
    if |setMatchers| > 0 && |seed| != matchedCount {
      unmatched, matched := MatchRest(elementMatchers, setMatchers, seed, unmatched, matchedCount, results, before);
    } else {
      assert Hits(elementMatchers, seed) + Occupied(matched) == Hits(elementMatchers, seed);
    }
  }

  lemma AcceptedIsCollected(matchers: seq<Filter>, seed: Entries, unmatched: Entries, matched: Entries, out: Entries)
    requires Full(seed) && Split(Rest(matchers, seed), unmatched, matched)
    requires forall i: nat :: At(out, i) == if i in Hits(matchers, seed) then At(seed, i) else At(matched, i)
    ensures Within(Passing(out, None), |out|)
    ensures Pick(out, Passing(out, None)) == Collect(seed, Hits(matchers, seed) + Occupied(matched), |seed|)
  {
    var chosen := Hits(matchers, seed) + Occupied(matched);
    forall i: nat
      ensures At(out, i) == if i in chosen then At(seed, i) else None
      ensures i in chosen ==> i < |seed|
    {
      assert At(matched, i) == None || At(matched, i) == At(Rest(matchers, seed), i);
    }
    CondensedIsCollected(out, seed, chosen);
  }

  // ---------- an earlier match that is lost ----------

  /** The set matchers of the group ":eq(1).x, :first", last selector first; `x` is the filter of the class. */
  function FirstOrSecond(x: Filter): seq<Stage> {
    [Stage(None, Some(First), None), Stage(None, Some(Eq(1)), Some(Wrapped(x)))]
  }

  lemma FirstMoves(a: nat, b: nat, u: Entries, m: Entries)
    requires Outcome(Stage(None, Some(First), None), [Some(a), Some(b)], u, [], m)
    ensures At(u, 0) == None && At(u, 1) == Some(b) && At(m, 0) == Some(a) && At(m, 1) == None
    ensures forall i: nat :: i > 1 ==> At(u, i) == None && At(m, i) == None
  {
    var stage, seed := Stage(None, Some(First), None), [Some(a), Some(b)];
    InPlaceWins(stage, seed);
    SelectedHas(stage, seed, 0);
    SelectedHas(stage, seed, 1);
  }

  lemma SecondFilters(a: nat, b: nat, x: Filter, u: Entries, m: Entries, u1: Entries, m1: Entries)
    requires !x(a) && Outcome(FirstOrSecond(x)[1], u, u1, m, m1)
    requires At(u, 0) == None && At(u, 1) == Some(b) && At(m, 0) == Some(a) && At(m, 1) == None
    ensures At(u1, 0) == Some(a) && At(m1, 0) == None && At(m1, 1) == if x(b) then Some(b) else None
  {
    var stage := FirstOrSecond(x)[1];
    var in1, out1 :| Moved(u, in1, m, out1, Elements(Selected(stage, u))) &&
      Filtered(in1, u1, out1, m1, Kept(Wrapped(x), out1));
    SelectedHas(stage, u, 0);
    SelectedHas(stage, u, 1);
    assert At(out1, 0) == Some(a) && At(out1, 1) == Some(b);
    KeptIff(x, out1, 0);
    KeptIff(x, out1, 1);
  }

  /** `:first` accepts the first element, but its match is filtered by `.x` and lost, whatever the arrays look like. */
  lemma EarlierMatchIsLost(a: nat, b: nat, x: Filter, u1: Entries, m1: Entries)
    requires !x(a) && RanAll(FirstOrSecond(x), [Some(a), Some(b)], u1, [], m1)
    ensures 0 in Winners(Stage(None, Some(First), None), [Some(a), Some(b)])
    ensures At(m1, 0) == None && At(u1, 0) == Some(a) && At(m1, 1) == if x(b) then Some(b) else None
  {
    var stages, seed := FirstOrSecond(x), [Some(a), Some(b)];
    assert stages[..1][..0] == [] && stages[..1][0] == stages[0];
    var u, m :| RanAll(stages[..1], seed, u, [], m) && Outcome(stages[1], u, u1, m, m1);
    var u0, m0 :| RanAll(stages[..1][..0], seed, u0, [], m0) && Outcome(stages[..1][0], u0, u, m0, m);
    FirstMoves(a, b, u, m);
    SecondFilters(a, b, x, u, m, u1, m1);
    InPlaceWins(stages[0], seed);
    SelectedHas(stages[0], seed, 0);
  }

  /** The call itself, with an empty array of results: the first element is not among them. */
  method LosesEarlierMatch(a: nat, b: nat, x: Filter) returns (results: Results)
    requires !x(a) && x(b)
    ensures fresh(results) && results.entries == [Some(b)]
  {
    var seed := [Some(a), Some(b)];
    results := new Results([]);
    var unmatched, matched := SuperMatch([], FirstOrSecond(x), seed, results);
    assert Rest([], seed) == seed;
    EarlierMatchIsLost(a, b, x, unmatched, matched);
    var chosen := Hits([], seed) + Occupied(matched);
    assert 0 !in chosen && 1 in chosen;
    assert Collect(seed, chosen, 0) == [] && Collect(seed, chosen, 1) == [] && Collect(seed, chosen, 2) == [Some(b)];
  }
}
