/** Hand-outs over runs: no arc goes out twice unless it was set back to NEW in between. */
module ArchonHandOuts {
  import opened Wrappers
  import opened ArcPath
  import opened Archon
  import opened ArchonSafety
  import Runs

  predicate IsNew(s: Store, id: string) {
    id in s.table && s.table[id].state == NEW
  }

  /** The arc is not up for indexing, and no cache can still hand it out. */
  ghost predicate Settled(s: Store, id: string) {
    !IsNew(s, id) && !Listed(s, id)
  }

  /** Every cached entry of an arc with the taken head's id goes with the head. */
  lemma TakenIsGone(s: Store, shard: string)
    requires Consistent(s) && shard in s.cache && s.cache[shard] != []
    requires s.cache[shard][0].fileName.id in s.table
    ensures !Listed(Taken(s, shard), s.cache[shard][0].fileName.id)
  {
    var head := s.cache[shard][0];
    TakenCaches(s, shard);
    assert InCache(s, shard, head) && AtPresentPath(s.table, head);
    forall k, e | InCache(Taken(s, shard), k, e)
      ensures e.fileName.id != head.fileName.id
    {
      assert InCache(s, k, e) && AtPresentPath(s.table, e);
    }
  }

  lemma HandOutSettles(s: Store, step: Step, k: nat)
    requires Consistent(s) && Answered(s, step, k) && HandsOut(s, step).Some?
    ensures Settled(Apply(s, step).0, HandsOut(s, step).value)
  {
    var shard, r := step.shard, Reloaded(s, step.shard, step.answer);
    if Cached(s, shard) == [] {
      ReloadKeepsConsistent(s, shard, step.answer, k);
    }
    TakenIsGone(r, shard);
    assert forall k', e :: InCache(Apply(s, step).0, k', e) <==> InCache(Taken(r, shard), k', e);
  }

  lemma SettledNotReloaded(s: Store, shard: string, answer: seq<ArcVO>, id: string, k: nat)
    requires Settled(s, id) && Answered(s, NextArcStep(shard, answer), k) && ParseInt(shard).Some?
    ensures Settled(Reloaded(s, shard, answer), id)
  {
    forall k', e | InCache(Reloaded(s, shard, answer), k', e)
      ensures e.fileName.id != id
    {
      if k' == shard && Cached(s, shard) == [] {
        assert FromRow(s.table, ParseInt(shard).value, e);
      } else {
        assert InCache(s, k', e);
      }
    }
  }

  /** A settled arc is not handed out. */
  lemma SettledStaysIn(s: Store, step: Step, id: string, k: nat)
    requires Consistent(s) && Answered(s, step, k) && Settled(s, id)
    ensures HandsOut(s, step) != Some(id)
  {
    if HandsOut(s, step).Some? {
      var r := Reloaded(s, step.shard, step.answer);
      if Cached(s, step.shard) == [] {
        SettledNotReloaded(s, step.shard, step.answer, id, k);
      }
      assert InCache(r, step.shard, r.cache[step.shard][0]);
    }
  }

  /** A settled arc stays settled until a step makes it NEW. */
  lemma SettledStays(s: Store, step: Step, id: string, k: nat)
    requires Consistent(s) && Answered(s, step, k) && Settled(s, id)
    requires !IsNew(Apply(s, step).0, id)
    ensures Settled(Apply(s, step).0, id)
  {
    var t := Apply(s, step).0;
    if t.cache == s.cache {
      assert forall k', e :: InCache(t, k', e) <==> InCache(s, k', e);
    } else {
      var shard, r := step.shard, Reloaded(s, step.shard, step.answer);
      if Cached(s, shard) == [] {
        SettledNotReloaded(s, shard, step.answer, id, k);
        ReloadKeepsConsistent(s, shard, step.answer, k);
      }
      if r.cache[shard] != [] {
        TakenCaches(r, shard);
      }
      assert forall k', e :: InCache(t, k', e) ==> InCache(r, k', e);
    }
  }

  // ---------- runs ----------

  ghost predicate Follows(s: Store, step: Step, t: Store, k: nat) {
    Answered(s, step, k) && !Relocates(s, step) && t == Apply(s, step).0
  }

  /** Consecutive stores of a run in which no step relocates a cached arc. */
  ghost predicate IsRun(states: seq<Store>, steps: seq<Step>, k: nat) {
    Runs.IsRun((s, e, t) => Follows(s, e, t, k), states, steps) && Consistent(states[0])
  }

  lemma RunStaysConsistent(states: seq<Store>, steps: seq<Step>, k: nat, i: nat)
    requires IsRun(states, steps, k) && i < |states|
    ensures Consistent(states[i])
  {
    forall s, e, t | Consistent(s) && Follows(s, e, t, k)
      ensures Consistent(t)
    {
      ApplyKeepsConsistent(s, e, k);
    }
    Runs.KeptBetween((s, e, t) => Follows(s, e, t, k), s => Consistent(s), states, steps, 0, i);
  }

  /** A settled arc stays settled as long as it is not made NEW. */
  lemma SettledUntil(states: seq<Store>, steps: seq<Step>, k: nat, id: string, i: nat, j: nat)
    requires IsRun(states, steps, k) && i <= j < |states|
    requires Settled(states[i], id)
    requires forall m :: i <= m <= j ==> !IsNew(states[m], id)
    ensures Settled(states[j], id)
  {
    var next := (s, e, t) => Follows(s, e, t, k) && !IsNew(t, id);
    var inv := s => Consistent(s) && Settled(s, id);
    forall s, e, t | inv(s) && next(s, e, t)
      ensures inv(t)
    {
      ApplyKeepsConsistent(s, e, k);
      SettledStays(s, e, id, k);
    }
    RunStaysConsistent(states, steps, k, i);
    Runs.KeptBetween(next, inv, states, steps, i, j);
  }

  /** The step of a run after which an arc is NEW for the first time since state i. */
  lemma {:induction false} FirstReset(states: seq<Store>, id: string, i: nat, j: nat) returns (m: nat)
    requires i <= j < |states|
    requires !IsNew(states[i], id) && exists n :: i <= n <= j && IsNew(states[n], id)
    ensures i <= m < j && !IsNew(states[m], id) && IsNew(states[m + 1], id)
    decreases j - i
  {
    if IsNew(states[i + 1], id) {
      m := i;
    } else {
      m := FirstReset(states, id, i + 1, j);
    }
  }

  lemma SettledAfterHandOut(states: seq<Store>, steps: seq<Step>, k: nat, id: string, i: nat)
    requires IsRun(states, steps, k) && i < |steps| && HandsOut(states[i], steps[i]) == Some(id)
    ensures Settled(states[i + 1], id)
  {
    RunStaysConsistent(states, steps, k, i);
    assert Follows(states[i], steps[i], states[i + 1], k);
    HandOutSettles(states[i], steps[i], k);
  }

  lemma UnsettledAtHandOut(states: seq<Store>, steps: seq<Step>, k: nat, id: string, j: nat)
    requires IsRun(states, steps, k) && j < |steps| && HandsOut(states[j], steps[j]) == Some(id)
    ensures !Settled(states[j], id)
  {
    RunStaysConsistent(states, steps, k, j);
    assert Follows(states[j], steps[j], states[j + 1], k);
    if Settled(states[j], id) {
      SettledStaysIn(states[j], steps[j], id, k);
    }
  }

  /** An arc handed out twice was set back to NEW by a step in between. */
  lemma HandedOutTwiceOnlyAfterReset(states: seq<Store>, steps: seq<Step>, k: nat, id: string, i: nat, j: nat)
    requires IsRun(states, steps, k) && i < j < |steps|
    requires HandsOut(states[i], steps[i]) == Some(id) && HandsOut(states[j], steps[j]) == Some(id)
    ensures exists m :: i < m < j && !IsNew(states[m], id) && IsNew(states[m + 1], id)
  {
    SettledAfterHandOut(states, steps, k, id, i);
    UnsettledAtHandOut(states, steps, k, id, j);
    if forall m :: i + 1 <= m <= j ==> !IsNew(states[m], id) {
      SettledUntil(states, steps, k, id, i + 1, j);
    }
    var m := FirstReset(states, id, i + 1, j);
  }

  // ---------- tables with one row ----------

  /** The query's only answer on a table with one eligible row. */
  lemma SingleAnswer(path: FullPath, row: Row, shard: int, k: nat)
    requires k > 0 && Eligible(row, shard) && row.folder == path.folder
    ensures IsAnswer(map[path.id := row], shard, k, [ArcVO(path, row.priority)])
  {
    var table := map[path.id := row];
    var list := [ArcVO(path, row.priority)];
    assert list[0].fileName.id == path.id;
    assert Lists(list, path.id);
    assert FromRow(table, shard, list[0]);
  }
}
