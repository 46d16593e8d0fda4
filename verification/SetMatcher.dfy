/**
 Positional selectors: `setMatcher` with a seed, which splits the elements of `seed` between
 `seed` and `results` and keeps the two arrays synchronised by index.
 */
module SetMatcher {
  import opened Wrappers

  /** A pure filter on elements. */
  type Filter = nat -> bool

  datatype Position = First | Last | Eq(n: int) | Even | Odd | Lt(n: int) | Gt(n: int)

  /**
   What setMatcher closes over, without a postFinder.  A postFilter that is a plain filter is
   wrapped into a stage that has a preFilter only.
   */
  datatype Stage = Stage(pre: Option<Filter>, position: Option<Position>, post: Option<Stage>)

  /** The stages that setMatcher and matcherFromTokens build. */
  predicate Built(stage: Stage) {
    && (stage.pre.Some? || stage.position.Some?)
    && (stage.position.None? ==> stage.post.None?)
    && (stage.post.Some? ==> Built(stage.post.value))
  }

  /** Entries of a JavaScript array; false and missing ones are None. */
  type Entries = seq<Option<nat>>

  function At(s: Entries, i: int): Option<nat> {
    if 0 <= i < |s| then s[i] else None
  }

  ghost predicate Ascends(s: seq<nat>) {
    forall a, b :: 0 <= a < b < |s| ==> s[a] < s[b]
  }

  /** The numbers below n with a property, ascending. */
  function Where(n: nat, p: nat -> bool): (r: seq<nat>)
    ensures Ascends(r) && forall i :: i in r <==> 0 <= i < n && p(i)
  {
    if n == 0 then []
    else
      var front := Where(n - 1, p);
      assert forall k :: 0 <= k < |front| ==> front[k] in front;
      front + if p(n - 1) then [n - 1] else []
  }

  // ---------- which elements move ----------

  /** The positions among `length` candidates that a pseudo selects; -k counts from the end. */
  predicate Selects(pos: Position, length: nat, j: nat) {
    match pos
    case First => j == 0
    case Last => j == length - 1
    case Eq(n) => j == FromEnd(n, length)
    case Even => j % 2 == 0
    case Odd => j % 2 == 1
    case Lt(n) => j < FromEnd(n, length)
    case Gt(n) => j > FromEnd(n, length)
  }

  function FromEnd(n: int, length: nat): int {
    if n < 0 then n + length else n
  }

  predicate Holds(filter: Option<Filter>, e: nat) {
    filter.None? || filter.value(e)
  }

  /** The indices of the entries that pass a filter. */
  function Passing(s: Entries, filter: Option<Filter>): seq<nat> {
    Where(|s|, (i: nat) => i < |s| && s[i].Some? && Holds(filter, s[i].value))
  }

  function Indices(n: nat): (r: seq<nat>)
    ensures |r| == n && forall i :: 0 <= i < n ==> r[i] == i
  {
    seq(n, (i: nat) => i)
  }

  ghost predicate Within(indices: seq<nat>, n: nat) {
    forall k :: 0 <= k < |indices| ==> indices[k] < n
  }

  function Pick<T>(s: seq<T>, indices: seq<nat>): (r: seq<T>)
    requires Within(indices, |s|)
    ensures |r| == |indices| && forall k :: 0 <= k < |r| ==> r[k] == s[indices[k]]
  {
    seq(|indices|, (k: nat) requires k < |indices| => s[indices[k]])
  }

  /** The indices of seed that the pseudo counts: all of them, unless there is a prefilter. */
  function Candidates(stage: Stage, seed: Entries): (r: seq<nat>)
    ensures Within(r, |seed|) && Ascends(r)
  {
    InWithin(Passing(seed, stage.pre), |seed|);
    if stage.pre.Some? then Passing(seed, stage.pre) else Indices(|seed|)
  }

  lemma InWithin(indices: seq<nat>, n: nat)
    requires forall i :: i in indices ==> i < n
    ensures Within(indices, n)
  {
    assert forall k :: 0 <= k < |indices| ==> indices[k] in indices;
  }

  /** The places among the candidates that hold an element and are selected. */
  function Selected(stage: Stage, candidates: Entries): (r: seq<nat>)
    ensures Within(r, |candidates|) && Ascends(r) && forall k :: 0 <= k < |r| ==> candidates[r[k]].Some?
  {
    var r := Where(|candidates|, (j: nat) => j < |candidates| && candidates[j].Some? &&
      (stage.position.None? || Selects(stage.position.value, |candidates|, j)));
    assert forall k :: 0 <= k < |r| ==> r[k] in r;
    r
  }

  /** The places among the candidates whose elements are matched in the end. */
  function Matched(stage: Stage, candidates: Entries): (r: seq<nat>)
    ensures Within(r, |candidates|) && Ascends(r) && forall k :: 0 <= k < |r| ==> candidates[r[k]].Some?
    decreases stage, 0
  {
    var chosen := Selected(stage, candidates);
    if stage.post.None? then chosen
    else Pick(chosen, Winners(stage.post.value, Pick(candidates, chosen)))
  }

  /** The indices of seed whose elements move to results. */
  function Winners(stage: Stage, seed: Entries): (r: seq<nat>)
    ensures Within(r, |seed|) && Ascends(r) && forall k :: 0 <= k < |r| ==> seed[r[k]].Some?
    decreases stage, 1
  {
    var candidates := Candidates(stage, seed);
    Pick(candidates, Matched(stage, Pick(seed, candidates)))
  }

  // ---------- lists of indices ----------

  lemma {:induction false} AscendingSame(s: seq<nat>, t: seq<nat>)
    requires Ascends(s) && Ascends(t) && forall i :: i in s <==> i in t
    ensures s == t
  {
    assert s != [] ==> s[|s| - 1] in t;
    assert t != [] ==> t[|t| - 1] in s;
    if s == [] {
    } else {
      var x, y := s[|s| - 1], t[|t| - 1];
      assert x == y;
      var u, v := s[..|s| - 1], t[..|t| - 1];
      forall i {:trigger i in u} {:trigger i in v}
        ensures i in u <==> i in v
      {
        assert i in s <==> i in u || i == x;
        assert i in t <==> i in v || i == y;
      }
      AscendingSame(u, v);
      assert s == s[..|s| - 1] + [x] && t == t[..|t| - 1] + [y];
    }
  }

  // ---------- what moving means ----------

  /** The entries at the given indices have left `from` for the same indices of `to`. */
  ghost predicate Moved(from0: Entries, from: Entries, to0: Entries, to: Entries, indices: set<nat>) {
    && (forall i: nat :: At(from, i) == if i in indices then None else At(from0, i))
    && (forall i: nat :: At(to, i) == if i in indices then At(from0, i) else At(to0, i))
  }

  function Elements(s: seq<nat>): set<nat> {
    set i | i in s
  }

  /** How many of the first n entries pass a filter. */
  function Count(s: Entries, filter: Filter, n: nat): nat
    requires n <= |s|
  {
    if n == 0 then 0
    else Count(s, filter, n - 1) + if s[n - 1].Some? && filter(s[n - 1].value) then 1 else 0
  }

  /** A filter as setMatcher wraps it. */
  function Wrapped(filter: Filter): Stage {
    Stage(Some(filter), None, None)
  }

  /** Where i stands among the candidates, and how many there are. */
  function Rank(stage: Stage, seed: Entries, i: nat): nat
    requires i <= |seed|
  {
    if stage.pre.Some? then Count(seed, stage.pre.value, i) else i
  }

  lemma {:induction false} WhereRank(n: nat, p: nat -> bool, i: nat)
    requires i < n && p(i)
    ensures |Where(i, p)| < |Where(n, p)| && Where(n, p)[|Where(i, p)|] == i
  {
    if i == n - 1 {
    } else {
      WhereRank(n - 1, p, i);
    }
  }

  lemma {:induction false} WhereCounts(s: Entries, filter: Filter, p: nat -> bool, n: nat)
    requires n <= |s| && forall i :: 0 <= i < |s| ==> (p(i) <==> s[i].Some? && filter(s[i].value))
    ensures |Where(n, p)| == Count(s, filter, n)
  {
    if n == 0 {
    } else {
      WhereCounts(s, filter, p, n - 1);
      assert Where(n, p) == Where(n - 1, p) + if p(n - 1) then [n - 1] else [];
    }
  }

  /** The rank of an entry is its place in the list of candidates. */
  lemma CandidateRank(stage: Stage, seed: Entries, i: nat)
    requires i < |seed|
    ensures
      var c := Candidates(stage, seed);
      && |c| == Rank(stage, seed, |seed|)
      && (i in c <==> stage.pre.Some? ==> seed[i].Some? && stage.pre.value(seed[i].value))
      && (i in c ==> Rank(stage, seed, i) < |c| && c[Rank(stage, seed, i)] == i)
  {
    if stage.pre.Some? {
      var p := (i: nat) => i < |seed| && seed[i].Some? && Holds(stage.pre, seed[i].value);
      WhereCounts(seed, stage.pre.value, p, |seed|);
      WhereCounts(seed, stage.pre.value, p, i);
      if p(i) {
        WhereRank(|seed|, p, i);
      }
    } else {
      assert i in Indices(|seed|) <==> i == Indices(|seed|)[i];
    }
  }

  lemma PickHas(s: seq<nat>, indices: seq<nat>, k: nat)
    requires Within(indices, |s|) && Ascends(s) && k < |s|
    ensures s[k] in Pick(s, indices) <==> k in indices
  {
    var r := Pick(s, indices);
    if k in indices {
      var a :| 0 <= a < |indices| && indices[a] == k;
      assert r[a] == s[k];
    }
    if s[k] in r {
      var a :| 0 <= a < |r| && r[a] == s[k];
      assert indices[a] == k;
    }
  }

  lemma WrappedWins(filter: Filter, seed: Entries, i: nat)
    requires i < |seed|
    ensures i in Winners(Wrapped(filter), seed) <==> seed[i].Some? && filter(seed[i].value)
  {
    var stage := Wrapped(filter);
    var c := Candidates(stage, seed);
    CandidateRank(stage, seed, i);
    if i in c {
      PickHas(c, Matched(stage, Pick(seed, c)), Rank(stage, seed, i));
    } else {
      NotPicked(c, Matched(stage, Pick(seed, c)), i);
    }
  }

  lemma NotPicked(s: seq<nat>, indices: seq<nat>, x: nat)
    requires Within(indices, |s|) && x !in s
    ensures x !in Pick(s, indices)
  {
  }

  /** An element's own answer to a stage whose postfilter is a plain filter. */
  ghost predicate Deserves(stage: Stage, filter: Option<Filter>, seed: Entries, i: nat)
    requires i < |seed|
  {
    && seed[i].Some?
    && Holds(stage.pre, seed[i].value)
    && (stage.position.None? || Selects(stage.position.value, Rank(stage, seed, |seed|), Rank(stage, seed, i)))
    && Holds(filter, seed[i].value)
  }

  lemma MatchedIff(stage: Stage, filter: Option<Filter>, candidates: Entries, j: nat)
    requires stage.post == (if filter.None? then None else Some(Wrapped(filter.value))) && j < |candidates|
    ensures j in Matched(stage, candidates) <==>
      candidates[j].Some? && (stage.position.None? || Selects(stage.position.value, |candidates|, j)) &&
      Holds(filter, candidates[j].value)
  {
    var chosen := Selected(stage, candidates);
    SelectedHas(stage, candidates, j);
    if filter.Some? {
      var temp := Pick(candidates, chosen);
      if j in chosen {
        var t :| 0 <= t < |chosen| && chosen[t] == j;
        WrappedWins(filter.value, temp, t);
        PickHas(chosen, Winners(Wrapped(filter.value), temp), t);
      } else {
        NotPicked(chosen, Winners(Wrapped(filter.value), temp), j);
      }
    }
  }

  lemma SelectedHas(stage: Stage, candidates: Entries, j: nat)
    requires j < |candidates|
    ensures j in Selected(stage, candidates) <==>
      candidates[j].Some? && (stage.position.None? || Selects(stage.position.value, |candidates|, j))
  {
  }

  /**
   An element moves exactly when it passes the prefilter, the pseudo selects its index among
   the prefiltered elements, and it passes the postfilter.
   */
  lemma MovesIff(stage: Stage, filter: Option<Filter>, seed: Entries, i: nat)
    requires stage.post == (if filter.None? then None else Some(Wrapped(filter.value))) && i < |seed|
    ensures i in Winners(stage, seed) <==> Deserves(stage, filter, seed, i)
  {
    var c := Candidates(stage, seed);
    var candidates := Pick(seed, c);
    CandidateRank(stage, seed, i);
    if i in c {
      MatchedIff(stage, filter, candidates, Rank(stage, seed, i));
      PickHas(c, Matched(stage, candidates), Rank(stage, seed, i));
    } else {
      NotPicked(c, Matched(stage, candidates), i);
    }
  }

  // ---------- positions ----------

  /** :lt, :eq and :gt of one argument split the positions, in this order; a negative argument counts from the end. */
  lemma PositionsSplit(n: int, length: nat, j: nat)
    requires j < length
    ensures Selects(Eq(n), length, j) <==> !Selects(Lt(n), length, j) && !Selects(Gt(n), length, j)
    ensures Selects(Lt(n), length, j) <==> j < if n < 0 then length + n else n
    ensures !(Selects(Lt(n), length, j) && Selects(Gt(n), length, j))
    ensures n < 0 ==> (Selects(Eq(n), length, j) <==> Selects(Eq(n + length), length, j) && n + length >= 0)
  {
  }

  /** :first and :last are the two ends, and :even and :odd alternate, beginning with :even. */
  lemma EndsAndTurns(length: nat, j: nat)
    requires j < length
    ensures Selects(First, length, j) <==> Selects(Eq(0), length, j)
    ensures Selects(Last, length, j) <==> Selects(Eq(-1), length, j)
    ensures Selects(Even, length, 0) && (Selects(Even, length, j) <==> !Selects(Odd, length, j))
    ensures j + 1 < length ==> (Selects(Odd, length, j + 1) <==> Selects(Even, length, j))
  {
  }

  lemma SamePassing(s: Entries, f: Option<Filter>, g: Option<Filter>)
    requires f == g
    ensures Passing(s, f) == Passing(s, g)
  {
  }

  lemma SelectedWithoutPost(stage: Stage, candidates: Entries)
    ensures Selected(stage.(post := None), candidates) == Selected(stage, candidates)
  {
    forall j
      ensures j in Selected(stage.(post := None), candidates) <==> j in Selected(stage, candidates)
    {
      if 0 <= j < |candidates| {
        SelectedHas(stage, candidates, j);
        SelectedHas(stage.(post := None), candidates, j);
      }
    }
    AscendingSame(Selected(stage.(post := None), candidates), Selected(stage, candidates));
  }

  /** A postfilter is given what the stage would match without it, and what it matches of that is matched. */
  lemma PostFiltersMatches(stage: Stage, seed: Entries)
    requires stage.post.Some?
    ensures
      var plain := Winners(stage.(post := None), seed);
      Winners(stage, seed) == Pick(plain, Winners(stage.post.value, Pick(seed, plain)))
  {
    var bare := stage.(post := None);
    var c := Candidates(stage, seed);
    var chosen := Selected(stage, Pick(seed, c));
    var plain := Winners(bare, seed);
    SelectedWithoutPost(stage, Pick(seed, c));
    SamePassing(seed, stage.pre, bare.pre);
    assert Candidates(bare, seed) == c && Matched(bare, Pick(seed, c)) == chosen;
    assert plain == Pick(c, chosen);
    assert Pick(seed, plain) == Pick(Pick(seed, c), chosen);
    var w := Winners(stage.post.value, Pick(seed, plain));
    assert Pick(c, Pick(chosen, w)) == Pick(plain, w);
  }
}
