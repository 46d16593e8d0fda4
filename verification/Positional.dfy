/** The arrays and loops of `setMatcher`, `condense` and the positional pseudos. */
module Positional {
  import opened Wrappers
  import opened SetMatcher

  /** A JavaScript array of elements: assigning behind its end makes it longer. */
  class Slots {
    var entries: Entries

    constructor (entries: Entries)
      ensures this.entries == entries
    {
      this.entries := entries;
    }

    method Put(i: nat, value: Option<nat>)
      modifies this
      ensures forall j: nat :: At(entries, j) == if j == i then value else At(old(entries), j)
      ensures |entries| == if i < |old(entries)| then |old(entries)| else i + 1
    {
      if i < |entries| {
        entries := entries[i := value];
      } else {
        entries := entries + seq(i - |entries|, (k: nat) => None) + [value];
      }
    }
  }

  /** The elements that pass the filter, and in `positions` where they come from. */
  method Condense(unmatched: Entries, filter: Option<Filter>) returns (newUnmatched: Entries, positions: seq<nat>)
    ensures positions == Passing(unmatched, filter)
    ensures Within(positions, |unmatched|) && newUnmatched == Pick(unmatched, positions)
  {
    ghost var p := (i: nat) => i < |unmatched| && unmatched[i].Some? && Holds(filter, unmatched[i].value);
    newUnmatched, positions := [], [];
    var i := 0;
    while i < |unmatched|
      invariant 0 <= i <= |unmatched| && positions == Where(i, p)
      invariant |newUnmatched| == |positions| && Within(positions, |unmatched|)
      invariant forall k :: 0 <= k < |positions| ==> newUnmatched[k] == unmatched[positions[k]]
    {
      if unmatched[i].Some? {
        if filter.None? || filter.value(unmatched[i].value) {
          newUnmatched := newUnmatched + [unmatched[i]];
          positions := positions + [i];
        }
      }
      i := i + 1;
    }
  }

  /** The indices a positional pseudo names; some may lie outside the list. */
  method MatchIndexes(pos: Position, length: nat) returns (matchIndexes: seq<int>)
    ensures forall j :: 0 <= j < length ==> (j in matchIndexes <==> Selects(pos, length, j))
  {
    matchIndexes := [];
    match pos {
      case First => matchIndexes := [0];
      case Last => matchIndexes := [length - 1];
      case Eq(n) => matchIndexes := [if n < 0 then n + length else n];
      case Even => matchIndexes := EverySecond(0, length);
      case Odd => matchIndexes := EverySecond(1, length);
      case Lt(n) =>
        var i := (if n < 0 then n + length else n) - 1;
        while i >= 0
          invariant -1 <= i || matchIndexes == []
          invariant i < FromEnd(n, length)
          invariant forall j :: j in matchIndexes <==> j >= 0 && i < j < FromEnd(n, length)
          decreases i
        {
          matchIndexes := matchIndexes + [i];
          i := i - 1;
        }
      case Gt(n) =>
        var i := (if n < 0 then n + length else n) + 1;
        while i < length
          invariant i > FromEnd(n, length)
          invariant forall j :: j < length ==> (j in matchIndexes <==> FromEnd(n, length) < j < i)
        {
          matchIndexes := matchIndexes + [i];
          i := i + 1;
        }
    }
  }

  method EverySecond(start: nat, length: nat) returns (matchIndexes: seq<int>)
    requires start < 2
    ensures forall j :: j in matchIndexes <==> 0 <= j < length && j % 2 == start
  {
    matchIndexes := [];
    var i := start;
    while i < length
      invariant i % 2 == start
      invariant forall j :: j in matchIndexes <==> 0 <= j < length && j < i && j % 2 == start
    {
      matchIndexes := matchIndexes + [i];
      i := i + 2;
    }
  }

  /** The matcher of a positional pseudo. */
  method MatchPositions(stage: Stage, seed: Slots, matches: Slots)
    requires stage.position.Some? && seed != matches
    modifies seed, matches
    ensures Moved(old(seed.entries), seed.entries, old(matches.entries), matches.entries,
                  Elements(Selected(stage, old(seed.entries))))
    ensures |seed.entries| == |old(seed.entries)|
    ensures |old(matches.entries)| <= |seed.entries| ==> |matches.entries| <= |seed.entries|
  {
    ghost var s0, m0, moved: set<nat> := seed.entries, matches.entries, {};
    var matchIndexes := MatchIndexes(stage.position.value, |seed.entries|);
    var i := |matchIndexes|;
    while i > 0
      invariant 0 <= i <= |matchIndexes| && |seed.entries| == |s0|
      invariant |m0| <= |s0| ==> |matches.entries| <= |s0|
      invariant Moved(s0, seed.entries, m0, matches.entries, moved)
      invariant forall j :: j in moved ==> j < |s0| && s0[j].Some? && j in matchIndexes
      invariant forall k :: i <= k < |matchIndexes| && At(s0, matchIndexes[k]).Some? ==> matchIndexes[k] in moved
    {
      i := i - 1;
      var j := matchIndexes[i];
      if 0 <= j < |seed.entries| && seed.entries[j].Some? {
        assert At(seed.entries, j) == At(s0, j);
        matches.Put(j, seed.entries[j]);
        seed.Put(j, None);
        moved := moved + {j};
      } else {
        assert At(seed.entries, j).None?;
      }
    }
    forall j: nat
      ensures j in moved <==> j in Selected(stage, s0)
    {
      if j < |s0| {
        SelectedHas(stage, s0, j);
        if j in matchIndexes {
          var k :| 0 <= k < |matchIndexes| && matchIndexes[k] == j;
          assert At(s0, matchIndexes[k]) == s0[j];
        }
      }
    }
    assert moved == Elements(Selected(stage, s0));
  }

  /** What the elements in `matcherOut` come to: those kept stay, the others go back. */
  ghost predicate Filtered(in1: Entries, in2: Entries, out1: Entries, out2: Entries, kept: set<nat>) {
    && (forall i: nat :: At(out2, i) == if i in kept then At(out1, i) else None)
    && (forall i: nat :: At(in2, i) == if At(out1, i).Some? && i !in kept then At(out1, i) else At(in1, i))
  }

  /** The indices of `matcherOut` that survive a postfilter. */
  function Kept(post: Stage, out: Entries): set<nat> {
    var filled := Passing(out, None);
    InWithin(filled, |out|);
    Elements(Pick(filled, Winners(post, Pick(out, filled))))
  }

  lemma FilledHas(out: Entries, i: nat)
    ensures i in Passing(out, None) <==> At(out, i).Some?
  {
  }

  method PutBack(matcherIn: Slots, matcherOut: Slots, i: nat, elem: nat,
                 ghost in1: Entries, ghost out1: Entries, ghost kept: set<nat>)
    requires matcherIn != matcherOut && At(out1, i) == Some(elem)
    requires Filtered(in1, matcherIn.entries, out1, matcherOut.entries, kept)
    modifies matcherIn, matcherOut
    ensures Filtered(in1, matcherIn.entries, out1, matcherOut.entries, kept - {i})
    ensures i < |old(matcherIn.entries)| ==> |matcherIn.entries| == |old(matcherIn.entries)|
  {
    matcherIn.Put(i, Some(elem));
    matcherOut.Put(i, None);
  }

  /** The elements that are left in `temp` go back where they came from. */
  method PutAllBack(matcherIn: Slots, matcherOut: Slots, temp: Entries, postMap: seq<nat>, ghost wins: seq<nat>)
    requires matcherIn != matcherOut && postMap == Passing(matcherOut.entries, None) && |temp| == |postMap|
    requires Within(wins, |postMap|) && Within(postMap, |matcherOut.entries|)
    requires forall k :: 0 <= k < |temp| ==> temp[k] == if k in wins then None else matcherOut.entries[postMap[k]]
    modifies matcherIn, matcherOut
    ensures Filtered(old(matcherIn.entries), matcherIn.entries, old(matcherOut.entries), matcherOut.entries,
                     Elements(Pick(postMap, wins)))
    ensures |old(matcherOut.entries)| <= |old(matcherIn.entries)| ==> |matcherIn.entries| == |old(matcherIn.entries)|
  {
    ghost var in1, out1, kept := matcherIn.entries, matcherOut.entries, Elements(postMap);
    AllKept(in1, out1);
    var i := |temp|;
    while i > 0
      invariant 0 <= i <= |postMap|
      invariant |out1| <= |in1| ==> |matcherIn.entries| == |in1|
      invariant Filtered(in1, matcherIn.entries, out1, matcherOut.entries, kept) && kept <= Elements(postMap)
      invariant forall k :: 0 <= k < |postMap| ==> (postMap[k] in kept <==> k < i || k in wins)
    {
      i := i - 1;
      if temp[i].Some? {
        assert out1[postMap[i]] == temp[i];
        PutBack(matcherIn, matcherOut, postMap[i], temp[i].value, in1, out1, kept);
        kept := kept - {postMap[i]};
      } else {
        FilledHas(out1, postMap[i]);
        assert postMap[i] in postMap;
      }
    }
    PickElements(postMap, wins, kept);
  }

  /** The elements that fail the postfilter leave `matcherOut` again. */
  method PostFilter(post: Stage, matcherIn: Slots, matcherOut: Slots)
    requires Built(post) && matcherIn != matcherOut
    modifies matcherIn, matcherOut
    ensures Filtered(old(matcherIn.entries), matcherIn.entries, old(matcherOut.entries), matcherOut.entries,
                     Kept(post, old(matcherOut.entries)))
    ensures |old(matcherOut.entries)| <= |old(matcherIn.entries)| ==> |matcherIn.entries| == |old(matcherIn.entries)|
    decreases post, 2
  {
    var list, postMap := Condense(matcherOut.entries, None);
    var temp := new Slots(list);
    var others := new Slots([]);
    SetMatch(post, temp, others);
    ghost var wins := Winners(post, list);
    EmptyOutcome(post, list, temp.entries, [], others.entries);
    forall k | 0 <= k < |list|
      ensures temp.entries[k] == if k in wins then None else list[k]
    {
      assert At(temp.entries, k) == if k in Elements(wins) then None else At(list, k);
    }
    PutAllBack(matcherIn, matcherOut, temp.entries, postMap, wins);
  }

  lemma AllKept(in1: Entries, out1: Entries)
    ensures Filtered(in1, in1, out1, out1, Elements(Passing(out1, None)))
  {
    forall i: nat
      ensures i in Passing(out1, None) <==> At(out1, i).Some?
    {
      FilledHas(out1, i);
    }
  }

  lemma PickElements(s: seq<nat>, indices: seq<nat>, picked: set<nat>)
    requires Within(indices, |s|) && Ascends(s) && picked <= Elements(s)
    requires forall k :: 0 <= k < |s| ==> (s[k] in picked <==> k in indices)
    ensures picked == Elements(Pick(s, indices))
  {
    forall x: nat
      ensures x in picked <==> x in Pick(s, indices)
    {
      if x in s {
        var k :| 0 <= k < |s| && s[k] == x;
        PickHas(s, indices, k);
      } else {
        NotPicked(s, indices, x);
      }
    }
  }

  /** Matched candidates move from seed to results, at the indices they have in seed. */
  method Synchronise(matcherOut: Entries, preMap: seq<nat>, seed: Slots, results: Slots, ghost matched: seq<nat>)
    requires seed != results && Within(preMap, |seed.entries|) && Ascends(preMap)
    requires Within(matched, |preMap|)
    requires forall k: nat :: At(matcherOut, k) == if k in matched then At(seed.entries, preMap[k]) else None
    requires forall k :: 0 <= k < |matched| ==> seed.entries[preMap[matched[k]]].Some?
    modifies seed, results
    ensures Moved(old(seed.entries), seed.entries, old(results.entries), results.entries,
                  Elements(Pick(preMap, matched)))
    ensures |seed.entries| == |old(seed.entries)|
  {
    ghost var s0, r0, moved: set<nat> := seed.entries, results.entries, {};
    var i := |matcherOut|;
    while i > 0
      invariant 0 <= i <= |matcherOut| && |seed.entries| == |s0|
      invariant Moved(s0, seed.entries, r0, results.entries, moved) && moved <= Elements(preMap)
      invariant forall k :: 0 <= k < |preMap| ==> (preMap[k] in moved <==> k >= i && At(matcherOut, k).Some?)
    {
      i := i - 1;
      assert At(matcherOut, i) == matcherOut[i];
      if matcherOut[i].Some? && i < |preMap| {
        results.Put(preMap[i], matcherOut[i]);
        seed.Put(preMap[i], None);
        moved := moved + {preMap[i]};
      }
    }
    forall k | 0 <= k < |preMap|
      ensures preMap[k] in moved <==> k in matched
    {
      assert At(matcherOut, k) == if k in matched then At(s0, preMap[k]) else None;
    }
    PickElements(preMap, matched, moved);
  }

  /**
   What setMatcher's function does to seed and results.  Without a prefilter it works on these
   two arrays themselves, and a postfilter then sees all of results.
   */
  ghost predicate Outcome(stage: Stage, seed0: Entries, seed1: Entries, results0: Entries, results1: Entries) {
    if stage.pre.None? && stage.post.Some? then
      exists in1, out1 {:trigger Moved(seed0, in1, results0, out1, Elements(Selected(stage, seed0)))} ::
        Moved(seed0, in1, results0, out1, Elements(Selected(stage, seed0))) &&
        Filtered(in1, seed1, out1, results1, Kept(stage.post.value, out1))
    else Moved(seed0, seed1, results0, results1, Elements(Winners(stage, seed0)))
  }

  /** setMatcher's function, called with a seed. */
  method SetMatch(stage: Stage, seed: Slots, results: Slots)
    requires Built(stage) && seed != results
    modifies seed, results
    ensures Outcome(stage, old(seed.entries), seed.entries, old(results.entries), results.entries)
    ensures |old(results.entries)| <= |old(seed.entries)| ==> |seed.entries| == |old(seed.entries)|
    decreases stage, 1
  {
    if stage.pre.None? {
      MatchInPlace(stage, seed, results);
    } else {
      var elems, preMap := Condense(seed.entries, stage.pre);
      var matcherIn := new Slots(elems);
      var matcherOut := matcherIn;
      if stage.position.Some? {
        matcherOut := new Slots([]);
        MatchPositions(stage, matcherIn, matcherOut);
        if stage.post.Some? {
          ghost var in1, out1 := matcherIn.entries, matcherOut.entries;
          PostFilter(stage.post.value, matcherIn, matcherOut);
          FilteredMoved(stage, elems, in1, matcherIn.entries, [], out1, matcherOut.entries);
        }
      }
      OutIsMatched(stage, seed.entries, elems, preMap, matcherIn.entries, matcherOut.entries);
      Synchronise(matcherOut.entries, preMap, seed, results, Matched(stage, elems));
    }
  }

  method MatchInPlace(stage: Stage, seed: Slots, results: Slots)
    requires Built(stage) && seed != results && stage.pre.None?
    modifies seed, results
    ensures Outcome(stage, old(seed.entries), seed.entries, old(results.entries), results.entries)
    ensures |old(results.entries)| <= |old(seed.entries)| ==> |seed.entries| == |old(seed.entries)|
    decreases stage, 0
  {
    MatchPositions(stage, seed, results);
    if stage.post.Some? {
      PostFilter(stage.post.value, seed, results);
    } else {
      InPlaceWins(stage, old(seed.entries));
    }
  }

  // ---------- what the outcome means ----------

  /** The entries that a pass has filled are the ones that moved there. */
  lemma MovedFills(in0: Entries, in1: Entries, out0: Entries, out: Entries, chosen: seq<nat>)
    requires Moved(in0, in1, out0, out, Elements(chosen)) && forall i: nat :: At(out0, i) == None
    requires Within(chosen, |in0|) && Ascends(chosen) && forall k :: 0 <= k < |chosen| ==> in0[chosen[k]].Some?
    ensures Passing(out, None) == chosen
    ensures Within(chosen, |out|) && Pick(out, chosen) == Pick(in0, chosen)
  {
    forall i: nat
      ensures i in Passing(out, None) <==> i in chosen
    {
      FilledHas(out, i);
      assert At(out, i) == if i in Elements(chosen) then At(in0, i) else At(out0, i);
    }
    AscendingSame(Passing(out, None), chosen);
    forall k | 0 <= k < |chosen|
      ensures chosen[k] < |out| && out[chosen[k]] == in0[chosen[k]]
    {
      assert chosen[k] in Elements(chosen);
      assert At(out, chosen[k]) == At(in0, chosen[k]);
    }
  }

  /** Moving and filtering together move what is matched, if nothing was there before. */
  lemma FilteredMoved(stage: Stage, in0: Entries, in1: Entries, in2: Entries, out0: Entries, out1: Entries,
                      out2: Entries)
    requires stage.post.Some? && forall i: nat :: At(out0, i) == None
    requires Moved(in0, in1, out0, out1, Elements(Selected(stage, in0)))
    requires Filtered(in1, in2, out1, out2, Kept(stage.post.value, out1))
    ensures Moved(in0, in2, out0, out2, Elements(Matched(stage, in0)))
  {
    var chosen := Selected(stage, in0);
    MovedFills(in0, in1, out0, out1, chosen);
    var kept := Elements(Matched(stage, in0));
    assert kept == Kept(stage.post.value, out1);
    PickedAmong(chosen, Winners(stage.post.value, Pick(in0, chosen)));
    forall i: nat
      ensures At(in2, i) == if i in kept then None else At(in0, i)
      ensures At(out2, i) == if i in kept then At(in0, i) else At(out0, i)
    {
      assert At(out1, i) == if i in Elements(chosen) then At(in0, i) else At(out0, i);
      assert At(in1, i) == if i in Elements(chosen) then None else At(in0, i);
    }
  }

  lemma PickedAmong(s: seq<nat>, indices: seq<nat>)
    requires Within(indices, |s|)
    ensures Elements(Pick(s, indices)) <= Elements(s)
  {
    var r := Pick(s, indices);
    forall x | x in r
      ensures x in s
    {
      var k :| 0 <= k < |r| && r[k] == x;
      assert s[indices[k]] == x;
    }
  }

  /**
   Starting from empty results every element stays in seed or moves to the same index of
   results; which of them move is said by Winners.
   */
  lemma EmptyOutcome(stage: Stage, seed0: Entries, seed1: Entries, results0: Entries, results1: Entries)
    requires Outcome(stage, seed0, seed1, results0, results1) && forall i: nat :: At(results0, i) == None
    ensures Moved(seed0, seed1, results0, results1, Elements(Winners(stage, seed0)))
  {
    if stage.pre.None? && stage.post.Some? {
      var in1, out1 :| Moved(seed0, in1, results0, out1, Elements(Selected(stage, seed0))) &&
        Filtered(in1, seed1, out1, results1, Kept(stage.post.value, out1));
      FilteredMoved(stage, seed0, in1, seed1, results0, out1, results1);
      InPlaceWins(stage, seed0);
    }
  }

  /** No index holds an element in both arrays. */
  ghost predicate InStep(seed: Entries, results: Entries) {
    forall i: nat :: At(seed, i).Some? ==> At(results, i).None?
  }

  /**
   With earlier results and a positional pseudo in front, those results are filtered once
   more: they stay, and the call moves what it should, exactly if all pass the postfilter.
   */
  lemma EarlierResultsStayIff(stage: Stage, filter: Filter, seed0: Entries, seed1: Entries, results0: Entries,
                              results1: Entries)
    requires stage.pre.None? && stage.position.Some? && stage.post == Some(Wrapped(filter))
    requires InStep(seed0, results0) && Outcome(stage, seed0, seed1, results0, results1)
    ensures Moved(seed0, seed1, results0, results1, Elements(Winners(stage, seed0)))
       <==> forall i: nat :: At(results0, i).Some? ==> filter(At(results0, i).value)
  {
    var in1, out1 :| Moved(seed0, in1, results0, out1, Elements(Selected(stage, seed0))) &&
      Filtered(in1, seed1, out1, results1, Kept(stage.post.value, out1));
    InPlaceWins(stage, seed0);
    forall i: nat
      ensures i in Elements(Winners(stage, seed0)) <==>
        i in Elements(Selected(stage, seed0)) && filter(At(seed0, i).value)
      ensures i in Kept(stage.post.value, out1) <==> At(out1, i).Some? && filter(At(out1, i).value)
    {
      KeptIff(filter, out1, i);
      if i < |seed0| {
        MatchedIff(stage, Some(filter), seed0, i);
        SelectedHas(stage, seed0, i);
      }
    }
    EarlierResults(filter, seed0, in1, seed1, results0, out1, results1, Elements(Selected(stage, seed0)),
                   Elements(Winners(stage, seed0)), Kept(stage.post.value, out1));
  }

  lemma KeptIff(filter: Filter, out: Entries, i: nat)
    ensures i in Kept(Wrapped(filter), out) <==> At(out, i).Some? && filter(At(out, i).value)
  {
    var filled := Passing(out, None);
    InWithin(filled, |out|);
    var wins := Winners(Wrapped(filter), Pick(out, filled));
    FilledHas(out, i);
    if i in filled {
      var k :| 0 <= k < |filled| && filled[k] == i;
      WrappedWins(filter, Pick(out, filled), k);
      PickHas(filled, wins, k);
    } else {
      NotPicked(filled, wins, i);
    }
  }

  /** The same, when it is known of each index whether it was selected and whether it passes. */
  lemma EarlierResults(
      filter: Filter, seed0: Entries, in1: Entries, seed1: Entries, results0: Entries, out1: Entries, results1: Entries,
      selected: set<nat>, wins: set<nat>, kept: set<nat>)
    requires InStep(seed0, results0) && forall i :: i in selected ==> At(seed0, i).Some?
    requires Moved(seed0, in1, results0, out1, selected) && Filtered(in1, seed1, out1, results1, kept)
    requires forall i: nat :: i in wins <==> i in selected && filter(At(seed0, i).value)
    requires forall i: nat :: i in kept <==> At(out1, i).Some? && filter(At(out1, i).value)
    ensures Moved(seed0, seed1, results0, results1, wins)
       <==> forall i: nat :: At(results0, i).Some? ==> filter(At(results0, i).value)
  {
    forall i: nat
      ensures At(results0, i).Some? && !filter(At(results0, i).value) ==>
        At(results1, i) != At(results0, i) && i !in wins
    {
      assert At(out1, i) == if i in selected then At(seed0, i) else At(results0, i);
      assert i in selected ==> At(seed0, i).Some?;
    }
    if forall i: nat :: At(results0, i).Some? ==> filter(At(results0, i).value) {
      forall i: nat
        ensures At(seed1, i) == if i in wins then None else At(seed0, i)
        ensures At(results1, i) == if i in wins then At(seed0, i) else At(results0, i)
      {
        assert At(out1, i) == if i in selected then At(seed0, i) else At(results0, i);
        assert At(in1, i) == if i in selected then None else At(seed0, i);
      }
    }
  }

  /** What stands in matcherOut once the candidates have been matched and filtered. */
  lemma OutIsMatched(stage: Stage, seed: Entries, elems: Entries, preMap: seq<nat>, in1: Entries, out: Entries)
    requires Built(stage) && preMap == Candidates(stage, seed) && stage.pre.Some? && elems == Pick(seed, preMap)
    requires
      if stage.position.Some? then Moved(elems, in1, [], out, Elements(Matched(stage, elems)))
      else out == elems
    ensures forall k: nat :: At(out, k) == if k in Matched(stage, elems) then At(seed, preMap[k]) else None
    ensures forall k :: k in Matched(stage, elems) ==> seed[preMap[k]].Some?
  {
    forall k: nat
      ensures At(out, k) == if k in Matched(stage, elems) then At(seed, preMap[k]) else None
    {
      if stage.position.None? && k < |elems| {
        assert preMap[k] in preMap && elems[k] == seed[preMap[k]];
        SelectedHas(stage, elems, k);
      }
    }
  }

  /** Without a prefilter the candidates are the entries of seed themselves. */
  lemma InPlaceWins(stage: Stage, seed: Entries)
    requires stage.pre.None?
    ensures Elements(Winners(stage, seed)) == Elements(Matched(stage, seed))
  {
    var c := Candidates(stage, seed);
    assert Pick(seed, c) == seed;
    assert Pick(c, Matched(stage, seed)) == Matched(stage, seed);
  }
}
