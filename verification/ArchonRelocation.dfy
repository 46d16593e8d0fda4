/** Why relocating a cached arc is excluded: it is exactly what makes double hand-outs possible. */
module ArchonRelocation {
  import opened Wrappers
  import opened ArcPath
  import opened Archon
  import opened ArchonSafety
  import opened ArchonHandOuts
  import opened ArchonReplies
  import opened ArchonQueue
  import Runs

  ghost predicate IsContinuation(states: seq<Store>, steps: seq<Step>, k: nat) {
    Runs.IsRun((s, e, t) => Follows(s, e, t, k), states, steps)
  }

  /** The run hands out the arc twice, and in between it is never NEW. */
  ghost predicate HandsOutTwice(states: seq<Store>, steps: seq<Step>, k: nat, id: string) {
    && IsContinuation(states, steps, k)
    && exists i, j :: 0 <= i < j < |steps| && TwiceAt(states, steps, id, i, j)
  }

  ghost predicate TwiceAt(states: seq<Store>, steps: seq<Step>, id: string, i: nat, j: nat)
    requires i < j < |steps| && |states| == |steps| + 1
  {
    && HandsOut(states[i], steps[i]) == Some(id) && HandsOut(states[j], steps[j]) == Some(id)
    && forall m :: i < m <= j ==> !IsNew(states[m], id)
  }

  /** The store can be continued, without relocating anything more, so that the arc goes out twice. */
  ghost predicate CanGoOutTwice(s: Store, k: nat, id: string) {
    exists states, steps :: |states| > 0 && states[0] == s && HandsOutTwice(states, steps, k, id)
  }

  // ---------- a shard with an empty cache ----------

  function Zeros(n: nat): (r: string)
    ensures |r| == n && forall i :: 0 <= i < n ==> r[i] == '0'
  {
    seq(n, i => '0')
  }

  lemma {:induction false} ZerosAreZero(n: nat)
    ensures Digits(Zeros(n)) == 0
  {
    if n == 0 {
    } else {
      assert Zeros(n)[..n - 1] == Zeros(n - 1);
      ZerosAreZero(n - 1);
    }
  }

  lemma {:induction false} LongerThanAll(keys: set<string>) returns (n: nat)
    ensures n > 0 && forall k :: k in keys ==> |k| < n
    decreases |keys|
  {
    if keys == {} {
      n := 1;
    } else {
      var k :| k in keys;
      var m := LongerThanAll(keys - {k});
      n := if m > |k| then m else |k| + 1;
    }
  }

  /** Some text that stands for shard 0 has no cache yet. */
  lemma UncachedShard(s: Store) returns (shard: string)
    ensures ParseInt(shard) == Some(0) && shard !in s.cache
  {
    var n := LongerThanAll(s.cache.Keys);
    shard := Zeros(n);
    ZerosAreZero(n);
  }

  lemma {:induction false} AboveAll(table: map<string, Row>, ids: set<string>) returns (p: int)
    requires ids <= table.Keys
    ensures forall id :: id in ids ==> table[id].priority < p
    decreases |ids|
  {
    if ids == {} {
      p := 0;
    } else {
      var id :| id in ids;
      var q := AboveAll(table, ids - {id});
      p := if table[id].priority < q then q else table[id].priority + 1;
    }
  }

  // ---------- the first hand-out, under the new path ----------

  /** The row precedes all others that are eligible for shard 0. */
  ghost predicate IsTop(table: map<string, Row>, id: string) {
    && id in table && table[id].state == NEW && table[id].shard == Some(0)
    && forall other :: other in table && other != id ==> table[other].priority < table[id].priority
  }

  lemma TopIsAnsweredFirst(table: map<string, Row>, id: string, list: seq<ArcVO>, k: nat)
    requires IsTop(table, id) && k > 0 && IsAnswer(table, 0, k, list)
    ensures list != [] && list[0].fileName == Path(table, id)
  {
    assert Eligible(table[id], 0);
    assert |list| < k ==> Lists(list, id);
    HeadIsBest(table, 0, list, id);
    assert FromRow(table, 0, list[0]);
  }

  /** Handing out a top row leaves a cache that lists the arc only under another path as it is. */
  lemma TopGoesOut(s: Store, id: string, shard: string, answer: seq<ArcVO>, k: nat, k0: string)
    requires IsTop(s.table, id) && ParseInt(shard) == Some(0) && shard !in s.cache && k > 0
    requires IsAnswer(s.table, 0, k, answer)
    requires k0 in s.cache && forall e :: e in s.cache[k0] ==> e.fileName != Path(s.table, id)
    ensures
      var step := NextArcStep(shard, answer);
      var t := Apply(s, step).0;
      && Follows(s, step, t, k) && HandsOut(s, step) == Some(id)
      && !IsNew(t, id) && t.table.Keys == s.table.Keys && k0 in t.cache && t.cache[k0] == s.cache[k0]
  {
    TopIsAnsweredFirst(s.table, id, answer, k);
    var i := RemoveFirstAt(s.cache[k0], Path(s.table, id));
    var r := Reloaded(s, shard, answer);
    assert r.cache[shard] == answer && r.cache[k0] == s.cache[k0];
    assert Taken(r, shard).cache[k0] == s.cache[k0];
  }

  // ---------- the second hand-out, under the old path ----------

  /** Entry q of a cache is an arc's, and its row is not NEW any more. */
  ghost predicate StaleAt(s: Store, shard: string, q: nat, id: string) {
    && ParseInt(shard).Some? && shard in s.cache && q < |s.cache[shard]| && Distinct(s.cache[shard])
    && s.cache[shard][q].fileName.id == id && id in s.table && !IsNew(s, id)
  }

  /** The head of a cache leaves it, whether its row is still there or not. */
  lemma HeadLeaves(s: Store, shard: string)
    requires ParseInt(shard).Some? && shard in s.cache && s.cache[shard] != [] && Distinct(s.cache[shard])
    ensures
      var head := s.cache[shard][0].fileName.id;
      var t := Apply(s, NextArcStep(shard, [])).0;
      && shard in t.cache && t.cache[shard] == s.cache[shard][1..]
      && HandsOut(s, NextArcStep(shard, [])) == (if head in s.table then Some(head) else None)
      && forall id :: id in s.table && id != head ==> id in t.table && t.table[id] == s.table[id]
  {
    var list := s.cache[shard];
    var head, rest := list[0], list[1..];
    var i := RemoveFirstAt(rest, head.fileName);
    forall j | 0 <= j < |rest|
      ensures rest[j].fileName.id != head.fileName.id
    {
      assert rest[j] == list[j + 1];
    }
    assert Reloaded(s, shard, []) == s;
    assert Taken(s, shard).cache[shard] == rest;
  }

  /** Entry q comes one place closer, or goes out. */
  lemma HeadGoesOut(s: Store, shard: string, q: nat, id: string, k: nat)
    requires StaleAt(s, shard, q, id)
    ensures
      var step := NextArcStep(shard, []);
      var t := Apply(s, step).0;
      && Follows(s, step, t, k)
      && if q == 0 then HandsOut(s, step) == Some(id) else StaleAt(t, shard, q - 1, id)
  {
    HeadLeaves(s, shard);
    if q > 0 {
      RestIsStale(s.cache[shard], q, id);
    }
  }

  lemma RestIsStale(list: seq<ArcVO>, q: nat, id: string)
    requires Distinct(list) && 0 < q < |list| && list[q].fileName.id == id
    ensures list[0].fileName.id != id && list[1..][q - 1].fileName.id == id && Distinct(list[1..])
  {
    forall i, j | 0 <= i < j < |list[1..]|
      ensures list[1..][i].fileName.id != list[1..][j].fileName.id
    {
      assert list[i + 1].fileName.id != list[j + 1].fileName.id;
    }
  }

  /** Asking for the shard until the stale entry comes. */
  lemma {:induction false} StaleGoesOut(s: Store, shard: string, q: nat, id: string, k: nat)
    returns (states: seq<Store>, steps: seq<Step>)
    requires StaleAt(s, shard, q, id)
    ensures IsContinuation(states, steps, k) && |steps| == q + 1 && states[0] == s
    ensures HandsOut(states[q], steps[q]) == Some(id) && forall m :: 0 <= m <= q ==> !IsNew(states[m], id)
    decreases q
  {
    var step := NextArcStep(shard, []);
    var t := Apply(s, step).0;
    HeadGoesOut(s, shard, q, id, k);
    if q == 0 {
      states, steps := [s, t], [step];
    } else {
      var states', steps' := StaleGoesOut(t, shard, q - 1, id, k);
      states, steps := [s] + states', [step] + steps';
      Continued(s, step, states', steps', k);
    }
  }

  lemma Continued(s: Store, step: Step, states: seq<Store>, steps: seq<Step>, k: nat)
    requires IsContinuation(states, steps, k) && Follows(s, step, states[0], k)
    ensures IsContinuation([s] + states, [step] + steps, k)
  {
    var all, more := [step] + steps, [s] + states;
    forall i | 0 <= i < |all|
      ensures Follows(more[i], all[i], more[i + 1], k)
    {
      if i > 0 {
        assert Follows(states[i - 1], steps[i - 1], states[i], k);
      }
    }
  }

  // ---------- both ----------

  /** The row of a cached arc is at another path than the cache has it, and no cache lists it there. */
  ghost predicate Displaced(s: Store, shard: string, q: nat, id: string) {
    && ParseInt(shard).Some? && shard in s.cache && q < |s.cache[shard]| && Distinct(s.cache[shard])
    && s.cache[shard][q].fileName.id == id && id in s.table && s.cache[shard][q].fileName != Path(s.table, id)
  }

  /** It is made the first choice of a shard without a cache, goes out to it, and then to the other. */
  lemma DisplacedGoesOutTwice(s: Store, shard: string, q: nat, id: string, k: nat)
    requires Displaced(s, shard, q, id) && k > 0
    ensures CanGoOutTwice(s, k, id)
  {
    var two := UncachedShard(s);
    var top := AboveAll(s.table, s.table.Keys);
    var raise := SetArcProperties(Path(s.table, id), two, NEW, top);
    var t := Apply(s, raise).0;
    assert IsTop(t.table, id);
    var answer := AnswerExists(t.table, 0, k);
    forall e | e in t.cache[shard]
      ensures e.fileName != Path(t.table, id)
    {
      var i :| 0 <= i < |s.cache[shard]| && s.cache[shard][i] == e;
    }
    TopGoesOut(t, id, two, answer, k, shard);
    var second := NextArcStep(two, answer);
    var u := Apply(t, second).0;
    var states, steps := StaleGoesOut(u, shard, q, id, k);
    TwiceInAll(s, raise, t, second, states, steps, q, id, k);
  }

  lemma TwiceInAll(s: Store, raise: Step, t: Store, second: Step, states: seq<Store>, steps: seq<Step>, q: nat,
                   id: string, k: nat)
    requires IsContinuation(states, steps, k) && |steps| == q + 1
    requires Follows(s, raise, t, k) && Follows(t, second, states[0], k)
    requires HandsOut(t, second) == Some(id) && HandsOut(states[q], steps[q]) == Some(id)
    requires forall m :: 0 <= m <= q ==> !IsNew(states[m], id)
    ensures CanGoOutTwice(s, k, id)
  {
    Continued(t, second, states, steps, k);
    Continued(s, raise, [t] + states, [second] + steps, k);
    SecondAndLast(s, raise, t, second, states, steps, q, id);
    TwoHandOuts(s, [t] + states, [raise] + ([second] + steps), k, id, 1, q + 2);
  }

  lemma TwoHandOuts(s: Store, rest: seq<Store>, steps: seq<Step>, k: nat, id: string, i: nat, j: nat)
    requires IsContinuation([s] + rest, steps, k) && i < j < |steps| && TwiceAt([s] + rest, steps, id, i, j)
    ensures CanGoOutTwice(s, k, id)
  {
    var states := [s] + rest;
    assert states[0] == s && HandsOutTwice(states, steps, k, id);
  }

  lemma SecondAndLast(s: Store, raise: Step, t: Store, second: Step, states: seq<Store>, steps: seq<Step>, q: nat,
                      id: string)
    requires |states| == |steps| + 1 && |steps| == q + 1
    requires HandsOut(t, second) == Some(id) && HandsOut(states[q], steps[q]) == Some(id)
    requires forall m :: 0 <= m <= q ==> !IsNew(states[m], id)
    ensures TwiceAt([s] + ([t] + states), [raise] + ([second] + steps), id, 1, q + 2)
  {
    var more := [s] + ([t] + states);
    forall m | 1 < m <= q + 2
      ensures !IsNew(more[m], id)
    {
      assert more[m] == states[m - 2];
    }
  }

  // ---------- exactly when ----------

  /** What holds of the caches under all calls: they hang on numbers and list no arc twice. */
  ghost predicate WellKept(s: Store) {
    forall shard :: shard in s.cache ==> ParseInt(shard).Some? && Distinct(s.cache[shard])
  }

  lemma InconsistentIsDisplaced(s: Store) returns (shard: string, q: nat, id: string)
    requires WellKept(s) && !Consistent(s)
    ensures Displaced(s, shard, q, id)
  {
    var e;
    shard, e :| InCache(s, shard, e) && !AtPresentPath(s.table, e);
    q :| 0 <= q < |s.cache[shard]| && s.cache[shard][q] == e;
    id := e.fileName.id;
  }

  /** A consistent store is never continued like that, whatever the arc. */
  lemma ConsistentIsSafe(s: Store, k: nat, id: string)
    requires Consistent(s)
    ensures !CanGoOutTwice(s, k, id)
  {
    forall states, steps | |states| > 0 && states[0] == s
      ensures !HandsOutTwice(states, steps, k, id)
    {
      if HandsOutTwice(states, steps, k, id) {
        assert IsRun(states, steps, k);
        var i, j :| 0 <= i < j < |steps| && TwiceAt(states, steps, id, i, j);
        HandedOutTwiceOnlyAfterReset(states, steps, k, id, i, j);
      }
    }
  }

  /** Some arc can go out twice without a reset exactly if a cache has one that is at another path by now. */
  lemma GoesOutTwiceIffInconsistent(s: Store, k: nat)
    requires WellKept(s) && k > 0
    ensures (exists id :: CanGoOutTwice(s, k, id)) <==> !Consistent(s)
  {
    if Consistent(s) {
      forall id
        ensures !CanGoOutTwice(s, k, id)
      {
        ConsistentIsSafe(s, k, id);
      }
    } else {
      var shard, q, id := InconsistentIsDisplaced(s);
      DisplacedGoesOutTwice(s, shard, q, id, k);
    }
  }

  /** The call changes where a cached arc is: it relocates one, and does not throw. */
  ghost predicate Displaces(s: Store, step: Step) {
    Relocates(s, step) && Apply(s, step).1 != Refused
  }

  lemma DisplacingIsInconsistent(s: Store, step: Step)
    requires Displaces(s, step)
    ensures !Consistent(Apply(s, step).0)
  {
    var t := Apply(s, step).0;
    var shard, e :| InCache(s, shard, e) && Moves(step.path, e);
    assert InCache(t, shard, e) && !AtPresentPath(t.table, e);
  }

  /**
   From every consistent store, a call makes it possible that some arc goes out twice without a
   reset exactly if it displaces a cached arc.
   */
  lemma GoesOutTwiceIff(s: Store, step: Step, k: nat)
    requires Consistent(s) && Answered(s, step, k) && k > 0
    ensures (exists id :: CanGoOutTwice(Apply(s, step).0, k, id)) <==> Displaces(s, step)
  {
    if Displaces(s, step) {
      DisplacingIsInconsistent(s, step);
    } else if !Relocates(s, step) {
      ApplyKeepsConsistent(s, step, k);
    }
    GoesOutTwiceIffInconsistent(Apply(s, step).0, k);
  }

  // ---------- over all runs ----------

  lemma TakenStaysWellKept(s: Store, shard: string)
    requires WellKept(s) && shard in s.cache && s.cache[shard] != []
    ensures WellKept(Taken(s, shard))
  {
    var path := s.cache[shard][0].fileName;
    forall k | k in s.cache
      ensures Distinct(Taken(s, shard).cache[k])
    {
      RemoveFirstRemoves(if k == shard then s.cache[k][1..] else s.cache[k], path);
    }
  }

  lemma ApplyStaysWellKept(s: Store, step: Step, k: nat)
    requires WellKept(s) && Answered(s, step, k)
    ensures WellKept(Apply(s, step).0)
  {
    if step.NextArcStep? && (ParseInt(step.shard).Some? || Cached(s, step.shard) != []) {
      var r := Reloaded(s, step.shard, step.answer);
      if r.cache[step.shard] != [] {
        TakenStaysWellKept(r, step.shard);
      }
    }
  }

  /** Any run at all from empty caches, also one with relocations. */
  ghost predicate IsAnyRun(states: seq<Store>, steps: seq<Step>, k: nat) {
    && Runs.IsRun((s, e, t) => Answered(s, e, k) && t == Apply(s, e).0, states, steps)
    && states[0].cache == map[]
  }

  /** In every state of every run, double hand-outs are possible exactly while the caches are out of step. */
  lemma RunGoesOutTwiceIff(states: seq<Store>, steps: seq<Step>, k: nat, i: nat)
    requires IsAnyRun(states, steps, k) && i < |states| && k > 0
    ensures (exists id :: CanGoOutTwice(states[i], k, id)) <==> !Consistent(states[i])
  {
    var next := (s, e, t) => Answered(s, e, k) && t == Apply(s, e).0;
    forall s, e, t | WellKept(s) && next(s, e, t)
      ensures WellKept(t)
    {
      ApplyStaysWellKept(s, e, k);
    }
    Runs.KeptBetween(next, s => WellKept(s), states, steps, 0, i);
    GoesOutTwiceIffInconsistent(states[i], k);
  }

  // ---------- removeARC, then addARC ----------

  /**
   The two calls together move an arc that a cache lists.  Neither is an addOrUpdateARC; the store
   between them is consistent, but a cached row is gone.
   */
  lemma RemoveThenAddGoesOutTwice(s: Store, shard: string, e: ArcVO, moved: FullPath, k: nat)
    requires Consistent(s) && InCache(s, shard, e) && e.fileName.id in s.table
    requires moved.id == e.fileName.id && moved != e.fileName && k > 0
    ensures
      var t := Apply(s, RemoveArc(moved.id)).0;
      && Consistent(t) && !Fresh(t) && Apply(t, AddArc(moved)).1 == Done && Displaces(t, AddArc(moved))
      && CanGoOutTwice(Apply(t, AddArc(moved)).0, k, moved.id)
  {
    var t := Apply(s, RemoveArc(moved.id)).0;
    SameFoldersKeepConsistent(s, t);
    assert InCache(t, shard, e) && !Offered(t.table, shard, e) && Moves(moved, e);
    var q :| 0 <= q < |s.cache[shard]| && s.cache[shard][q] == e;
    DisplacedGoesOutTwice(Apply(t, AddArc(moved)).0, shard, q, moved.id, k);
  }

  // ---------- reached by calls ----------

  /** The first arc is asked for, and the second is cached with it. */
  function Asking(first: FullPath, arc: FullPath, shard: string): Step {
    NextArcStep(shard, [ArcVO(first, NEW_PRIORITY), ArcVO(arc, NEW_PRIORITY)])
  }

  /** From an empty Archon: two arcs are added, and a shard asks once, so that one of them stays in its cache. */
  function Asked(first: FullPath, arc: FullPath, shard: string): Store {
    Apply(Apply(Apply(Store(map[], map[]), AddArc(first)).0, AddArc(arc)).0, Asking(first, arc, shard)).0
  }

  lemma AskedCaches(first: FullPath, arc: FullPath, shard: string, k: nat)
    requires first.id != arc.id && ParseInt(shard).Some? && k >= 2
    ensures Answered(Apply(Apply(Store(map[], map[]), AddArc(first)).0, AddArc(arc)).0, Asking(first, arc, shard), k)
    ensures
      var s := Asked(first, arc, shard);
      Consistent(s) && Fresh(s) && InCache(s, shard, ArcVO(arc, NEW_PRIORITY)) && arc.id in s.table
  {
    var list := Asking(first, arc, shard).answer;
    var a, b := Row(first.folder, NEW_PRIORITY, NEW, None), Row(arc.folder, NEW_PRIORITY, NEW, None);
    var s := Store(map[first.id := a, arc.id := b], map[]);
    assert Apply(Apply(Store(map[], map[]), AddArc(first)).0, AddArc(arc)).0 == s;
    assert IsAnswer(s.table, ParseInt(shard).value, k, list) by {
      assert Lists(list, first.id) by { assert list[0].fileName.id == first.id; }
      assert Lists(list, arc.id) by { assert list[1].fileName.id == arc.id; }
    }
    NextArcKeepsConsistent(s, shard, list, k);
    NextArcKeepsFresh(s, shard, list, k);
    var i := RemoveFirstAt(list[1..], first);
    assert list[1..] == [ArcVO(arc, NEW_PRIORITY)];
    assert Asked(first, arc, shard).cache[shard] == list[1..];
  }

  /** The cached arc is added again, in another folder, by addOrUpdateARC. */
  lemma MoveIsReached(first: FullPath, arc: FullPath, moved: FullPath, shard: string, k: nat)
    requires first.id != arc.id && moved.id == arc.id && moved != arc && ParseInt(shard).Some? && k >= 2
    ensures
      var s := Asked(first, arc, shard);
      && Consistent(s) && Displaces(s, AddOrUpdateArc(moved))
      && CanGoOutTwice(Apply(s, AddOrUpdateArc(moved)).0, k, arc.id)
  {
    AskedCaches(first, arc, shard, k);
    var s, e := Asked(first, arc, shard), ArcVO(arc, NEW_PRIORITY);
    assert InCache(s, shard, e) && Moves(moved, e);
    var q :| 0 <= q < |s.cache[shard]| && s.cache[shard][q] == e;
    DisplacedGoesOutTwice(Apply(s, AddOrUpdateArc(moved)).0, shard, q, arc.id, k);
  }

  /** It is removed and added in another folder. */
  lemma RemoveThenAddIsReached(first: FullPath, arc: FullPath, moved: FullPath, shard: string, k: nat)
    requires first.id != arc.id && moved.id == arc.id && moved != arc && ParseInt(shard).Some? && k >= 2
    ensures
      var t := Apply(Asked(first, arc, shard), RemoveArc(arc.id)).0;
      && Consistent(t) && !Fresh(t) && Displaces(t, AddArc(moved))
      && CanGoOutTwice(Apply(t, AddArc(moved)).0, k, arc.id)
  {
    AskedCaches(first, arc, shard, k);
    RemoveThenAddGoesOutTwice(Asked(first, arc, shard), shard, ArcVO(arc, NEW_PRIORITY), moved, k);
  }
}
