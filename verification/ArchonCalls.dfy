/** What the calls that change rows do for the arcs concerned: who is offered them, and how early. */
module ArchonCalls {
  import opened Wrappers
  import opened ArcPath
  import opened Archon
  import opened ArchonQueue

  // ---------- who is offered the arc ----------

  /** A new arc is offered to every shard, at its path and with the default priority. */
  lemma AddedWaitsForAll(s: Store, step: Step, shard: int)
    requires (step.AddArc? || step.AddOrUpdateArc?) && step.path.id !in s.table
    ensures
      var (t, reply) := Apply(s, step);
      var id := step.path.id;
      && reply == Done && id in t.table && Path(t.table, id) == step.path
      && Waits(t.table[id], shard) && t.table[id].shard == None && t.table[id].priority == 5
  {
  }

  /** An arc that is there keeps everything but its folder, or is not added again. */
  lemma PresentIsNotAddedAgain(s: Store, path: FullPath)
    requires path.id in s.table
    ensures Apply(s, AddArc(path)) == (s, Refused)
    ensures
      var (t, reply) := Apply(s, AddOrUpdateArc(path));
      && reply == Done && path.id in t.table && Path(t.table, path.id) == path
      && t.table[path.id] == s.table[path.id].(folder := path.folder)
  {
  }

  /** clearIndexing offers the arcs that were RUNNING for the shard to every shard, and no others anew. */
  lemma ClearReoffers(s: Store, shard: string, id: string)
    requires ParseInt(shard).Some? && id in s.table
    ensures
      var before, after := s.table[id], Apply(s, ClearIndexing(shard)).0.table[id];
      if before.shard == ParseInt(shard) && before.state == RUNNING then
        after == before.(state := NEW, shard := None) && forall n :: Waits(after, n)
      else after == before
  {
  }

  /** resetShardId offers all arcs of the shard to it, and to no other, whatever their state was. */
  lemma ResetShardReoffers(s: Store, shard: string, id: string)
    requires ParseInt(shard).Some? && id in s.table
    ensures
      var before, after := s.table[id], Apply(s, ResetShard(shard)).0.table[id];
      if before.shard == ParseInt(shard) then
        after == before.(state := NEW) && forall n :: Waits(after, n) <==> Some(n) == ParseInt(shard)
      else after == before
  {
  }

  /** resetArcWithPriority offers the arc to every shard, whatever its state was. */
  lemma ResetArcReoffers(s: Store, path: FullPath, priority: int)
    requires path.id in s.table
    ensures
      var after := Apply(s, ResetArc(path, priority)).0.table[path.id];
      && after.priority == priority && after.shard == None && after.folder == s.table[path.id].folder
      && forall n :: Waits(after, n)
  {
  }

  /** setARCState changes the state, and nothing else; only NEW arcs are offered. */
  lemma StateDecidesOffer(s: Store, path: FullPath, state: ArcState, shard: int)
    requires path.id in s.table
    ensures
      var before, after := s.table[path.id], Apply(s, SetArcState(path, state)).0.table[path.id];
      && after == before.(state := state)
      && (Waits(after, shard) <==> state == NEW && (before.shard == None || before.shard == Some(shard)))
  {
  }

  /** An arc that was removed is unknown to all later calls that name it. */
  lemma RemovedIsUnknown(s: Store, path: FullPath, state: ArcState, priority: int)
    requires path.id in s.table
    ensures
      var t := Apply(s, RemoveArc(path.id)).0;
      && Apply(t, SetArcState(path, state)) == (t, Refused)
      && Apply(t, SetArcPriority(path, priority)) == (t, Refused)
      && Apply(t, ResetArc(path, priority)) == (t, Refused)
      && Apply(t, RemoveArc(path.id)) == (t, Refused)
  {
  }

  // ---------- how early ----------

  /** The row waits for the shard, and every other one that waits has less priority and is not the shard's own. */
  ghost predicate Outranks(table: map<string, Row>, shard: int, id: string) {
    && id in table && Waits(table[id], shard)
    && forall other :: other in table && other != id && Waits(table[other], shard) ==>
         table[other].priority < table[id].priority && table[other].shard == None
  }

  lemma OutrankingIsFirst(table: map<string, Row>, shard: int, k: nat, list: seq<ArcVO>, id: string)
    requires Outranks(table, shard, id) && IsAnswer(table, shard, k, list) && k > 0
    ensures list != [] && list[0].fileName == Path(table, id)
  {
    assert Eligible(table[id], shard);
    assert |list| < k ==> Lists(list, id);
    HeadIsBest(table, shard, list, id);
    assert FromRow(table, shard, list[0]);
    OrderMeans(shard, table[list[0].fileName.id], table[id]);
  }

  /** An arc that is given a higher priority than all that wait goes out next to a shard whose cache is empty. */
  lemma HigherPriorityIsNext(s: Store, step: Step, id: string, shard: string, k: nat, answer: seq<ArcVO>)
    requires (step.SetArcPriority? || step.ResetArc?) && step.path.id == id && id in s.table && k > 0
    requires ParseInt(shard).Some? && Cached(s, shard) == []
    requires step.SetArcPriority? ==> Waits(s.table[id], ParseInt(shard).value)
    requires forall other :: other in s.table && other != id && Waits(s.table[other], ParseInt(shard).value) ==>
      s.table[other].priority < step.priority && s.table[other].shard == None
    requires Answered(Apply(s, step).0, NextArcStep(shard, answer), k)
    ensures Apply(Apply(s, step).0, NextArcStep(shard, answer)).1 == Arc(Path(s.table, id))
  {
    var t := Apply(s, step).0;
    OutrankingIsFirst(t.table, ParseInt(shard).value, k, answer, id);
    assert Path(t.table, id) == Path(s.table, id) && answer[0].fileName.id in t.table;
  }

  /** setARCProperties sets shard, state and priority, and so the arc is offered to that shard alone, or to none. */
  lemma PropertiesDecideOffer(s: Store, path: FullPath, shard: string, state: ArcState, priority: int, n: int)
    requires path.id in s.table && ParseInt(shard).Some?
    ensures
      var (t, reply) := Apply(s, SetArcProperties(path, shard, state, priority));
      && reply == Done && path.id in t.table
      && t.table[path.id] == Row(s.table[path.id].folder, priority, state, ParseInt(shard))
      && (Waits(t.table[path.id], n) <==> state == NEW && ParseInt(shard) == Some(n))
  {
  }
}
