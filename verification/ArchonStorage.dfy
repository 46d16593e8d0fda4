/** The storage layer as a class over its table and its caches; `View` ties it to the calls as functions. */
module ArchonStorage {
  import opened Wrappers
  import opened ArcPath
  import opened Archon
  import Runs

  lemma {:induction false} RemoveFirstSubset(list: seq<ArcVO>, path: FullPath)
    ensures forall e :: e in RemoveFirst(list, path) ==> e in list
  {
    if list == [] {
    } else {
      RemoveFirstSubset(list[1..], path);
    }
  }

  class Storage {
    var table: map<string, Row>
    var nextArcIdsCached: map<string, seq<ArcVO>>

    ghost function View(): Store
      reads this
    {
      Store(table, nextArcIdsCached)
    }

    /** Every path in the table and in the caches is one that splitting a text gives. */
    ghost predicate Valid()
      reads this
    {
      && (forall id :: id in table ==> WellSplit(Path(table, id)))
      && (forall k, e :: k in nextArcIdsCached && e in nextArcIdsCached[k] ==> WellSplit(e.fileName))
    }

    constructor ()
      ensures Valid() && View() == Store(map[], map[])
    {
      table, nextArcIdsCached := map[], map[];
    }

    /** `answer` is what the database returns if the cache has to be reloaded. */
    method NextARC(shard: string, answer: seq<ArcVO>) returns (reply: Reply)
      requires Valid() && forall e :: e in answer ==> WellSplit(e.fileName)
      modifies this
      ensures Valid()
      ensures (View(), reply) == Apply(old(View()), NextArcStep(shard, answer))
    {
      if shard !in nextArcIdsCached || |nextArcIdsCached[shard]| == 0 {
        if ParseInt(shard).None? {
          return Refused;
        }
        nextArcIdsCached := nextArcIdsCached[shard := answer];
      }
      if |nextArcIdsCached[shard]| == 0 {
        return Arc(NO_ARC);
      }
      ghost var reloaded := View();
      var nextArc := nextArcIdsCached[shard][0];
      nextArcIdsCached := nextArcIdsCached[shard := nextArcIdsCached[shard][1..]];
      RemoveFromAllCaches(nextArc);
      assert View() == Taken(reloaded, shard);
      JoinThenSplit(nextArc.fileName);
      reply := SetARCProperties(Join(nextArc.fileName), shard, RUNNING, nextArc.priority);
      if reply != Refused {
        reply := Arc(nextArc.fileName);
      }
    }

    /** Removes an arc once from every list in the cache, key by key. */
    method RemoveFromAllCaches(arc: ArcVO)
      requires Valid()
      modifies this`nextArcIdsCached
      ensures Valid()
      ensures nextArcIdsCached ==
        map k | k in old(nextArcIdsCached) :: RemoveFirst(old(nextArcIdsCached)[k], arc.fileName)
    {
      var keySet := nextArcIdsCached.Keys;
      while keySet != {}
        invariant Valid()
        invariant keySet <= nextArcIdsCached.Keys == old(nextArcIdsCached).Keys
        invariant forall k :: k in nextArcIdsCached ==>
          nextArcIdsCached[k] == if k in keySet then old(nextArcIdsCached)[k]
                                 else RemoveFirst(old(nextArcIdsCached)[k], arc.fileName)
        decreases keySet
      {
        var shardId :| shardId in keySet;
        RemoveFirstSubset(nextArcIdsCached[shardId], arc.fileName);
        keySet := keySet - {shardId};
        nextArcIdsCached := nextArcIdsCached[shardId := RemoveFirst(nextArcIdsCached[shardId], arc.fileName)];
      }
    }

    method SetARCProperties(path: string, shard: string, state: ArcState, priority: int) returns (reply: Reply)
      requires Valid()
      modifies this`table
      ensures Valid()
      ensures (View(), reply) == SetProperties(old(View()), Split(path), shard, state, priority)
    {
      var p := Split(path);
      var id := p.id;
      if id !in table {
        return Refused;
      }
      var number := ParseInt(shard);
      if number.None? {
        return Refused;
      }
      table := table[id := table[id].(shard := number, state := state, priority := priority)];
      reply := Done;
    }

    method AddARC(path: string) returns (reply: Reply)
      requires Valid()
      modifies this`table
      ensures Valid()
      ensures (View(), reply) == Apply(old(View()), AddArc(Split(path)))
    {
      var p := Split(path);
      var id := p.id;
      if id in table {
        return Refused;
      }
      SplitThenJoin(path);
      table := table[id := Row(p.folder, NEW_PRIORITY, NEW, None)];
      reply := Done;
    }

    method AddOrUpdateARC(path: string) returns (reply: Reply)
      requires Valid()
      modifies this`table
      ensures Valid()
      ensures (View(), reply) == Apply(old(View()), AddOrUpdateArc(Split(path)))
    {
      var p := Split(path);
      var id := p.id;
      if id in table {
        SplitThenJoin(path);
        table := table[id := table[id].(folder := p.folder)];
      } else {
        SplitThenJoin(path);
        table := table[id := Row(p.folder, NEW_PRIORITY, NEW, None)];
      }
      reply := Done;
    }

    method SetARCState(path: string, state: ArcState) returns (reply: Reply)
      requires Valid()
      modifies this`table
      ensures Valid()
      ensures (View(), reply) == Apply(old(View()), SetArcState(Split(path), state))
    {
      var p := Split(path);
      var id := p.id;
      if id !in table {
        return Refused;
      }
      table := table[id := table[id].(state := state)];
      reply := Done;
    }

    method ClearIndexing(shard: string) returns (reply: Reply)
      requires Valid()
      modifies this`table
      ensures Valid()
      ensures (View(), reply) == Apply(old(View()), Step.ClearIndexing(shard))
    {
      var number := ParseInt(shard);
      if number.None? {
        return Refused;
      }
      table := map id | id in table ::
        if table[id].shard == number && table[id].state == RUNNING then table[id].(state := NEW, shard := None)
        else table[id];
      reply := Done;
      assert table == Apply(old(View()), Step.ClearIndexing(shard)).0.table;
    }

    method ResetShardId(shard: string) returns (reply: Reply)
      requires Valid()
      modifies this`table
      ensures Valid()
      ensures (View(), reply) == Apply(old(View()), ResetShard(shard))
    {
      var number := ParseInt(shard);
      if number.None? {
        return Refused;
      }
      table := map id | id in table :: if table[id].shard == number then table[id].(state := NEW) else table[id];
      reply := Done;
      assert table == Apply(old(View()), ResetShard(shard)).0.table;
    }

    method ResetArcWithPriority(path: string, priority: int) returns (reply: Reply)
      requires Valid()
      modifies this`table
      ensures Valid()
      ensures (View(), reply) == Apply(old(View()), ResetArc(Split(path), priority))
    {
      var p := Split(path);
      var id := p.id;
      if id !in table {
        return Refused;
      }
      table := table[id := table[id].(priority := priority, state := NEW, shard := None)];
      reply := Done;
    }

    method SetARCPriority(path: string, priority: int) returns (reply: Reply)
      requires Valid()
      modifies this`table
      ensures Valid()
      ensures (View(), reply) == Apply(old(View()), SetArcPriority(Split(path), priority))
    {
      var p := Split(path);
      var id := p.id;
      if id !in table {
        return Refused;
      }
      table := table[id := table[id].(priority := priority)];
      reply := Done;
    }

    method RemoveARC(id: string) returns (reply: Reply)
      requires Valid()
      modifies this`table
      ensures Valid()
      ensures (View(), reply) == Apply(old(View()), RemoveArc(id))
    {
      if id !in table {
        return Refused;
      }
      table := table - {id};
      reply := Done;
    }

    /** A call by its step, with the step's path as text. */
    method Perform(step: Step) returns (reply: Reply)
      requires Valid() && Textual(step)
      modifies this
      ensures Valid()
      ensures (View(), reply) == Apply(old(View()), step)
    {
      PathsAsText(step);
      match step {
        case NextArcStep(shard, answer) => reply := NextARC(shard, answer);
        case AddArc(path) => reply := AddARC(Join(path));
        case AddOrUpdateArc(path) => reply := AddOrUpdateARC(Join(path));
        case SetArcState(path, state) => reply := SetARCState(Join(path), state);
        case SetArcProperties(path, shard, state, priority) =>
          reply := SetARCProperties(Join(path), shard, state, priority);
        case SetArcPriority(path, priority) => reply := SetARCPriority(Join(path), priority);
        case ResetArc(path, priority) => reply := ResetArcWithPriority(Join(path), priority);
        case RemoveArc(id) => reply := RemoveARC(id);
        case ClearIndexing(shard) => reply := ClearIndexing(shard);
        case ResetShard(shard) => reply := ResetShardId(shard);
      }
    }

    /** Any sequence of calls takes the storage through the states of a run of the specification. */
    method PerformAll(steps: seq<Step>) returns (ghost states: seq<Store>)
      requires Valid() && forall i :: 0 <= i < |steps| ==> Textual(steps[i])
      modifies this
      ensures Valid() && |states| == |steps| + 1 && states[0] == old(View()) && states[|steps|] == View()
      ensures Runs.IsRun((s, e, t) => t == Apply(s, e).0, states, steps)
    {
      states := [View()];
      var i := 0;
      while i < |steps|
        invariant 0 <= i <= |steps| && Valid()
        invariant |states| == i + 1 && states[0] == old(View()) && states[i] == View()
        invariant forall j {:trigger steps[j]} :: 0 <= j < i ==> states[j + 1] == Apply(states[j], steps[j]).0
      {
        var reply := Perform(steps[i]);
        states := states + [View()];
        i := i + 1;
      }
    }
  }

  /** The step's paths are as splitting a text gives them. */
  ghost predicate Textual(step: Step) {
    match step
    case NextArcStep(_, answer) => forall e :: e in answer ==> WellSplit(e.fileName)
    case RemoveArc(_) => true
    case ClearIndexing(_) => true
    case ResetShard(_) => true
    case _ => WellSplit(step.path)
  }

  lemma PathsAsText(step: Step)
    requires Textual(step)
    ensures !step.NextArcStep? && !step.RemoveArc? && !step.ClearIndexing? && !step.ResetShard? ==>
      Split(Join(step.path)) == step.path
  {
    match step {
      case NextArcStep(_, answer) =>
      case RemoveArc(_) =>
      case ClearIndexing(_) =>
      case ResetShard(_) =>
      case _ => JoinThenSplit(step.path);
    }
  }
}
