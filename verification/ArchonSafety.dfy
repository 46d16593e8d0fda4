/** What every call on the store keeps, and what that means for hand-outs over whole runs. */
module ArchonSafety {
  import opened Wrappers
  import opened ArcPath
  import opened Archon

  // ---------- caches ----------

  ghost predicate InCache(s: Store, k: string, e: ArcVO) {
    k in s.cache && e in s.cache[k]
  }

  /** Some cache lists the arc. */
  ghost predicate Listed(s: Store, id: string) {
    exists k, e :: InCache(s, k, e) && e.fileName.id == id
  }

  lemma {:induction false} RemoveFirstAt(list: seq<ArcVO>, path: FullPath) returns (i: nat)
    ensures i <= |list| && forall j :: 0 <= j < i ==> list[j].fileName != path
    ensures i == |list| ==> RemoveFirst(list, path) == list
    ensures i < |list| ==> list[i].fileName == path && RemoveFirst(list, path) == list[..i] + list[i + 1..]
  {
    if list == [] || list[0].fileName == path {
      i := 0;
    } else {
      var j := RemoveFirstAt(list[1..], path);
      i := j + 1;
      if j < |list| - 1 {
        assert list[i] == list[1..][j];
      }
    }
  }

  ghost function Without(list: seq<ArcVO>, i: nat): seq<ArcVO>
    requires i < |list|
  {
    list[..i] + list[i + 1..]
  }

  /** In a list without repetitions, removing the first equal entry removes them all. */
  lemma RemoveFirstRemoves(list: seq<ArcVO>, path: FullPath)
    requires Distinct(list)
    ensures Distinct(RemoveFirst(list, path))
    ensures forall e :: e in RemoveFirst(list, path) <==> e in list && e.fileName != path
  {
    var i := RemoveFirstAt(list, path);
    if i < |list| {
      forall e
        ensures e in Without(list, i) <==> e in list && e.fileName != path
      {
      }
    }
  }

  // ---------- paths ----------

  /** If the arc of a cache entry is in the table, it is there under the entry's path. */
  ghost predicate AtPresentPath(table: map<string, Row>, e: ArcVO) {
    e.fileName.id in table ==> e.fileName == Path(table, e.fileName.id)
  }

  /** Caches hang on numbers, list no arc twice, and list known arcs under their present paths. */
  ghost predicate Consistent(s: Store) {
    && (forall k :: k in s.cache ==> ParseInt(k).Some? && Distinct(s.cache[k]))
    && (forall k, e :: InCache(s, k, e) ==> AtPresentPath(s.table, e))
  }

  /** The path names the entry's arc, but in another folder. */
  predicate Moves(path: FullPath, e: ArcVO) {
    e.fileName.id == path.id && e.fileName != path
  }

  /** A caller is about to give an arc a path other than the one a cache lists it under. */
  ghost predicate Relocates(s: Store, step: Step) {
    (step.AddArc? || step.AddOrUpdateArc?) && exists k, e :: InCache(s, k, e) && Moves(step.path, e)
  }

  lemma ReloadKeepsConsistent(s: Store, shard: string, answer: seq<ArcVO>, k: nat)
    requires Consistent(s) && ParseInt(shard).Some?
    requires Answered(s, NextArcStep(shard, answer), k)
    ensures Consistent(Reloaded(s, shard, answer))
  {
    if Cached(s, shard) == [] {
      var r := Reloaded(s, shard, answer);
      forall k', e | InCache(r, k', e)
        ensures AtPresentPath(r.table, e)
      {
        if k' == shard {
          assert FromRow(s.table, ParseInt(shard).value, e);
        } else {
          assert InCache(s, k', e);
        }
      }
    }
  }

  /** Calls that leave caches and folders alone keep the store consistent. */
  lemma SameFoldersKeepConsistent(s: Store, t: Store)
    requires Consistent(s) && t.cache == s.cache
    requires forall id :: id in t.table ==> id in s.table && t.table[id].folder == s.table[id].folder
    ensures Consistent(t)
  {
    forall k, e | InCache(t, k, e)
      ensures AtPresentPath(t.table, e)
    {
      assert InCache(s, k, e) && AtPresentPath(s.table, e);
    }
  }

  lemma TakenCache(s: Store, shard: string, k: string)
    requires Consistent(s) && shard in s.cache && s.cache[shard] != [] && k in s.cache
    ensures
      var list, head := Taken(s, shard).cache[k], s.cache[shard][0];
      Distinct(list) && forall e :: e in list <==> e in s.cache[k] && e.fileName != head.fileName
  {
    var head := s.cache[shard][0];
    if k == shard {
      var rest := s.cache[shard][1..];
      assert s.cache[k] == [head] + rest;
      RemoveFirstRemoves(rest, head.fileName);
    } else {
      RemoveFirstRemoves(s.cache[k], head.fileName);
    }
  }

  lemma TakenCaches(s: Store, shard: string)
    requires Consistent(s) && shard in s.cache && s.cache[shard] != []
    ensures
      var head := s.cache[shard][0];
      var t := Taken(s, shard);
      && t.table == s.table && t.cache.Keys == s.cache.Keys
      && (forall k :: k in t.cache ==> Distinct(t.cache[k]))
      && forall k, e :: InCache(t, k, e) <==> InCache(s, k, e) && e.fileName != head.fileName
  {
    forall k | k in s.cache
      ensures
        var list := Taken(s, shard).cache[k];
        Distinct(list) && forall e :: e in list <==> e in s.cache[k] && e.fileName != s.cache[shard][0].fileName
    {
      TakenCache(s, shard, k);
    }
  }

  lemma TakenKeepsConsistent(s: Store, shard: string)
    requires Consistent(s) && shard in s.cache && s.cache[shard] != []
    ensures Consistent(Taken(s, shard))
  {
    TakenCaches(s, shard);
    var t := Taken(s, shard);
    forall k, e | InCache(t, k, e)
      ensures AtPresentPath(t.table, e)
    {
      assert InCache(s, k, e);
    }
  }

  /** Of the store, SetProperties changes the row of one arc, but not its folder. */
  lemma PropertiesKeepConsistent(s: Store, path: FullPath, shard: string, state: ArcState, priority: int)
    requires Consistent(s)
    ensures Consistent(SetProperties(s, path, shard, state, priority).0)
  {
    SameFoldersKeepConsistent(s, SetProperties(s, path, shard, state, priority).0);
  }

  lemma NextArcKeepsConsistent(s: Store, shard: string, answer: seq<ArcVO>, k: nat)
    requires Consistent(s) && Answered(s, NextArcStep(shard, answer), k)
    ensures Consistent(NextArc(s, shard, answer).0)
  {
    if ParseInt(shard).Some? || Cached(s, shard) != [] {
      ReloadKeepsConsistent(s, shard, answer, k);
      var r := Reloaded(s, shard, answer);
      if r.cache[shard] != [] {
        TakenKeepsConsistent(r, shard);
        var head := r.cache[shard][0];
        PropertiesKeepConsistent(Taken(r, shard), head.fileName, shard, RUNNING, head.priority);
      }
    }
  }

  lemma InsertKeepsConsistent(s: Store, step: Step)
    requires Consistent(s) && (step.AddArc? || step.AddOrUpdateArc?) && !Relocates(s, step)
    ensures Consistent(Apply(s, step).0)
  {
    var path, t := step.path, Apply(s, step).0;
    assert t.cache == s.cache;
    forall k, e | InCache(t, k, e)
      ensures AtPresentPath(t.table, e)
    {
      assert InCache(s, k, e) && !Moves(path, e);
    }
  }

  /** Every call that relocates no cached arc keeps the store consistent. */
  lemma ApplyKeepsConsistent(s: Store, step: Step, k: nat)
    requires Consistent(s) && Answered(s, step, k) && !Relocates(s, step)
    ensures Consistent(Apply(s, step).0)
  {
    match step {
      case NextArcStep(shard, answer) => NextArcKeepsConsistent(s, shard, answer, k);
      case AddArc(path) => InsertKeepsConsistent(s, step);
      case AddOrUpdateArc(path) => InsertKeepsConsistent(s, step);
      case _ => SameFoldersKeepConsistent(s, Apply(s, step).0);
    }
  }

  // ---------- what a call leaves alone ----------

  /** The arc is the one the call names or hands out, or its row is one of those the call is made for. */
  ghost predicate Concerns(s: Store, step: Step, id: string) {
    match step
    case NextArcStep(_, _) => HandsOut(s, step) == Some(id)
    case AddArc(path) => id == path.id && id !in s.table
    case AddOrUpdateArc(path) => id == path.id
    case SetArcState(path, _) => id == path.id && id in s.table
    case SetArcProperties(path, shard, _, _) => id == path.id && id in s.table && ParseInt(shard).Some?
    case SetArcPriority(path, _) => id == path.id && id in s.table
    case ResetArc(path, _) => id == path.id && id in s.table
    case RemoveArc(other) => id == other && id in s.table
    case ClearIndexing(shard) =>
      id in s.table && ParseInt(shard).Some? && s.table[id].shard == ParseInt(shard) && s.table[id].state == RUNNING
    case ResetShard(shard) =>
      id in s.table && ParseInt(shard).Some? && s.table[id].shard == ParseInt(shard) && s.table[id].state != NEW
  }

  /**
   A call leaves the rows of all other arcs as they were, and if it throws, every row.  Except for
   nextARC it touches no cache, and rows appear and go only by adding and removing.
   */
  lemma OnlyConcernedRowsChange(s: Store, step: Step, id: string)
    ensures
      var (t, reply) := Apply(s, step);
      && (!Concerns(s, step, id) || reply == Refused ==>
            (id in t.table <==> id in s.table) && (id in s.table ==> t.table[id] == s.table[id]))
      && (!step.NextArcStep? ==> t.cache == s.cache && (reply == Refused ==> t == s))
      && (id in t.table && id !in s.table ==> step.AddArc? || step.AddOrUpdateArc?)
      && (id in s.table && id !in t.table ==> step.RemoveArc?)
      && (id in s.table && id in t.table && t.table[id].folder != s.table[id].folder ==> step.AddOrUpdateArc?)
  {
  }
}
