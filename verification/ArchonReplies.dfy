/** Cached rows stay eligible, and so nextARC replies "" exactly when nothing is left. */
module ArchonReplies {
  import opened Wrappers
  import opened ArcPath
  import opened Archon
  import opened ArchonSafety
  import opened ArchonHandOuts
  import Runs

  // ---------- cached rows stay eligible ----------

  ghost predicate Offered(table: map<string, Row>, k: string, e: ArcVO) {
    && ParseInt(k).Some?
    && e.fileName.id in table
    && Eligible(table[e.fileName.id], ParseInt(k).value)
  }

  /** Every cached row is NEW, and its shard is the cache's or none. */
  ghost predicate Fresh(s: Store) {
    forall k, e :: InCache(s, k, e) ==> Offered(s.table, k, e)
  }

  /** The step takes a cached arc out of the table, out of state NEW, or to another shard. */
  ghost predicate Disturbs(s: Store, step: Step) {
    match step
    case SetArcState(path, state) => state != NEW && Listed(s, path.id)
    case SetArcProperties(path, shard, state, _) =>
      && ParseInt(shard).Some?
      && exists k, e :: InCache(s, k, e) && e.fileName.id == path.id && (state != NEW || ParseInt(k) != ParseInt(shard))
    case RemoveArc(id) => Listed(s, id)
    case _ => false
  }

  lemma ReloadKeepsFresh(s: Store, shard: string, answer: seq<ArcVO>, k: nat)
    requires Fresh(s) && Answered(s, NextArcStep(shard, answer), k) && ParseInt(shard).Some?
    ensures Fresh(Reloaded(s, shard, answer))
  {
    forall k', e | InCache(Reloaded(s, shard, answer), k', e)
      ensures Offered(s.table, k', e)
    {
      if k' == shard && Cached(s, shard) == [] {
        assert FromRow(s.table, ParseInt(shard).value, e);
      } else {
        assert InCache(s, k', e);
      }
    }
  }

  /** Only the taken arc's row changes, and no cache lists it any more. */
  lemma TakenKeepsFresh(s: Store, shard: string, row: Row)
    requires Consistent(s) && Fresh(s) && shard in s.cache && s.cache[shard] != []
    ensures
      var id := s.cache[shard][0].fileName.id;
      Fresh(Store(s.table[id := row], Taken(s, shard).cache))
  {
    var head := s.cache[shard][0];
    var id := head.fileName.id;
    assert InCache(s, shard, head);
    TakenCaches(s, shard);
    TakenIsGone(s, shard);
    forall k, e | InCache(Taken(s, shard), k, e)
      ensures Offered(s.table[id := row], k, e)
    {
      assert InCache(s, k, e) && e.fileName.id != id;
    }
    var t := Store(s.table[id := row], Taken(s, shard).cache);
    assert forall k, e :: InCache(t, k, e) <==> InCache(Taken(s, shard), k, e);
  }

  lemma NextArcKeepsFresh(s: Store, shard: string, answer: seq<ArcVO>, k: nat)
    requires Consistent(s) && Fresh(s) && Answered(s, NextArcStep(shard, answer), k)
    ensures Fresh(NextArc(s, shard, answer).0)
  {
    if ParseInt(shard).Some? || Cached(s, shard) != [] {
      ReloadKeepsFresh(s, shard, answer, k);
      ReloadKeepsConsistent(s, shard, answer, k);
      var r := Reloaded(s, shard, answer);
      if r.cache[shard] != [] {
        var head := r.cache[shard][0];
        assert InCache(r, shard, head) && Offered(r.table, shard, head);
        TakenKeepsFresh(r, shard, NextArc(s, shard, answer).0.table[head.fileName.id]);
      }
    }
  }

  lemma TableStepKeepsOffer(s: Store, step: Step, k: string, e: ArcVO)
    requires Offered(s.table, k, e) && InCache(s, k, e) && !step.NextArcStep? && !Disturbs(s, step)
    ensures Offered(Apply(s, step).0.table, k, e)
  {
  }

  /** Cached rows stay eligible under every call that does not itself disturb a cached arc. */
  lemma ApplyKeepsFresh(s: Store, step: Step, k: nat)
    requires Consistent(s) && Fresh(s) && Answered(s, step, k) && !Disturbs(s, step)
    ensures Fresh(Apply(s, step).0)
  {
    if step.NextArcStep? {
      NextArcKeepsFresh(s, step.shard, step.answer, k);
    } else {
      var t := Apply(s, step).0;
      forall k', e | InCache(t, k', e)
        ensures Offered(t.table, k', e)
      {
        assert InCache(s, k', e);
        TableStepKeepsOffer(s, step, k', e);
      }
    }
  }

  lemma DisturbedIsNotOffered(s: Store, step: Step, k: string, e: ArcVO)
    requires Fresh(s) && InCache(s, k, e)
    requires
      match step
      case SetArcState(path, state) => state != NEW && e.fileName.id == path.id
      case SetArcProperties(path, shard, state, _) =>
        e.fileName.id == path.id && ParseInt(shard).Some? && (state != NEW || ParseInt(k) != ParseInt(shard))
      case RemoveArc(id) => e.fileName.id == id
      case _ => false
    ensures !Fresh(Apply(s, step).0)
  {
    var t := Apply(s, step).0;
    assert Offered(s.table, k, e);
    assert InCache(t, k, e) && !Offered(t.table, k, e);
  }

  /** They stop being eligible exactly by a call that disturbs one. */
  lemma ApplyKeepsFreshIff(s: Store, step: Step, k: nat)
    requires Consistent(s) && Fresh(s) && Answered(s, step, k)
    ensures Fresh(Apply(s, step).0) <==> !Disturbs(s, step)
  {
    if Disturbs(s, step) {
      match step {
        case SetArcProperties(path, shard, state, _) =>
          var k', e :|
            InCache(s, k', e) && e.fileName.id == path.id && (state != NEW || ParseInt(k') != ParseInt(shard));
          DisturbedIsNotOffered(s, step, k', e);
        case SetArcState(path, state) =>
          var k', e :| InCache(s, k', e) && e.fileName.id == path.id;
          DisturbedIsNotOffered(s, step, k', e);
        case RemoveArc(id) =>
          var k', e :| InCache(s, k', e) && e.fileName.id == id;
          DisturbedIsNotOffered(s, step, k', e);
      }
    } else {
      ApplyKeepsFresh(s, step, k);
    }
  }

  /** A run in which no step disturbs a cached arc either. */
  ghost predicate IsQuietRun(states: seq<Store>, steps: seq<Step>, k: nat) {
    && Runs.IsRun((s, e, t) => Follows(s, e, t, k) && !Disturbs(s, e), states, steps)
    && Consistent(states[0]) && Fresh(states[0])
  }

  /** Consistency and freshness hold in every state of a run without disturbing steps. */
  lemma RunStaysFresh(states: seq<Store>, steps: seq<Step>, k: nat, i: nat)
    requires IsQuietRun(states, steps, k) && i < |states|
    ensures Consistent(states[i]) && Fresh(states[i])
  {
    var next := (s, e, t) => Follows(s, e, t, k) && !Disturbs(s, e);
    var inv := s => Consistent(s) && Fresh(s);
    forall s, e, t | inv(s) && next(s, e, t)
      ensures inv(t)
    {
      ApplyKeepsConsistent(s, e, k);
      ApplyKeepsFresh(s, e, k);
    }
    Runs.KeptBetween(next, inv, states, steps, 0, i);
  }

  // ---------- what nextARC replies ----------

  ghost predicate AnyEligible(table: map<string, Row>, shard: int) {
    exists id :: id in table && Eligible(table[id], shard)
  }

  /** The row of an arc after it was handed out to a shard. */
  function Running(row: Row, shard: int): Row {
    row.(shard := Some(shard), state := RUNNING)
  }

  lemma HeadOffered(s: Store, shard: string, answer: seq<ArcVO>, k: nat)
    requires Consistent(s) && Fresh(s) && ParseInt(shard).Some?
    requires Answered(s, NextArcStep(shard, answer), k)
    requires Reloaded(s, shard, answer).cache[shard] != []
    ensures
      var head := Reloaded(s, shard, answer).cache[shard][0];
      && Offered(s.table, shard, head) && head.fileName == Path(s.table, head.fileName.id)
  {
    var r := Reloaded(s, shard, answer);
    ReloadKeepsFresh(s, shard, answer, k);
    ReloadKeepsConsistent(s, shard, answer, k);
    assert InCache(r, shard, r.cache[shard][0]);
    assert AtPresentPath(r.table, r.cache[shard][0]);
  }

  /** An arc goes out exactly when the table has one to give, and then it is one of those. */
  lemma NextArcHandsOutIffEligible(s: Store, shard: string, answer: seq<ArcVO>, k: nat)
    requires Consistent(s) && Fresh(s) && ParseInt(shard).Some? && k > 0
    requires Answered(s, NextArcStep(shard, answer), k)
    ensures
      var step := NextArcStep(shard, answer);
      && (HandsOut(s, step).Some? <==> AnyEligible(s.table, ParseInt(shard).value))
      && (HandsOut(s, step).Some? ==>
            var id := HandsOut(s, step).value;
            && id in s.table && Eligible(s.table[id], ParseInt(shard).value)
            && Apply(s, step).1 == Arc(Path(s.table, id)))
      && (HandsOut(s, step).None? ==> Apply(s, step).1 == Arc(NO_ARC) && Apply(s, step).0.table == s.table)
  {
    var r := Reloaded(s, shard, answer);
    if r.cache[shard] != [] {
      HeadOffered(s, shard, answer, k);
    } else {
      assert IsAnswer(s.table, ParseInt(shard).value, k, answer);
      assert forall id :: !Lists(answer, id);
    }
  }

  /** The table has a row for the empty path, whose text is also the reply for "nothing left". */
  predicate HoldsEmptyPath(table: map<string, Row>) {
    NO_ARC.id in table && Path(table, NO_ARC.id) == NO_ARC
  }

  /**
   The empty reply means "nothing left", unless the entry next in line is the empty path's; that
   entry is the head of the cache before the call, or of the answer if that cache is empty.
   Without a row for the empty path the reply always means what it says.
   */
  lemma EmptyReplyIff(s: Store, shard: string, answer: seq<ArcVO>, k: nat)
    requires Consistent(s) && Fresh(s) && ParseInt(shard).Some? && k > 0
    requires Answered(s, NextArcStep(shard, answer), k)
    ensures
      var line := if Cached(s, shard) != [] then Cached(s, shard) else answer;
      var empty := Apply(s, NextArcStep(shard, answer)).1 == Arc(NO_ARC);
      var left := AnyEligible(s.table, ParseInt(shard).value);
      && (left <==> line != [])
      && ((empty <==> !left) <==> (line == [] || line[0].fileName != NO_ARC))
      && (!HoldsEmptyPath(s.table) ==> (empty <==> !left))
  {
    NextArcHandsOutIffEligible(s, shard, answer, k);
  }

  /** Only a caller that adds the empty path brings a row for it into the table. */
  lemma EmptyPathIsAdded(s: Store, step: Step)
    requires HoldsEmptyPath(Apply(s, step).0.table) && !HoldsEmptyPath(s.table)
    ensures (step.AddArc? || step.AddOrUpdateArc?) && step.path == NO_ARC
  {
  }

  /** In quiet runs in which nobody adds the empty path, every empty reply means "nothing left". */
  lemma EmptyRepliesAreTrue(states: seq<Store>, steps: seq<Step>, k: nat, i: nat)
    requires IsQuietRun(states, steps, k) && !HoldsEmptyPath(states[0].table) && k > 0
    requires forall j :: 0 <= j < |steps| && (steps[j].AddArc? || steps[j].AddOrUpdateArc?) ==> steps[j].path != NO_ARC
    requires i < |steps| && steps[i].NextArcStep? && ParseInt(steps[i].shard).Some?
    ensures Apply(states[i], steps[i]).1 == Arc(NO_ARC) <==>
      !AnyEligible(states[i].table, ParseInt(steps[i].shard).value)
  {
    RunStaysFresh(states, steps, k, i);
    StaysWithoutEmptyPath(states, steps, k, i);
    assert Follows(states[i], steps[i], states[i + 1], k);
    EmptyReplyIff(states[i], steps[i].shard, steps[i].answer, k);
  }

  lemma {:induction false} StaysWithoutEmptyPath(states: seq<Store>, steps: seq<Step>, k: nat, i: nat)
    requires IsQuietRun(states, steps, k) && !HoldsEmptyPath(states[0].table) && i < |states|
    requires forall j :: 0 <= j < |steps| && (steps[j].AddArc? || steps[j].AddOrUpdateArc?) ==> steps[j].path != NO_ARC
    ensures !HoldsEmptyPath(states[i].table)
  {
    if i == 0 {
    } else {
      StaysWithoutEmptyPath(states, steps, k, i - 1);
      assert Follows(states[i - 1], steps[i - 1], states[i], k);
      if HoldsEmptyPath(states[i].table) {
        EmptyPathIsAdded(states[i - 1], steps[i - 1]);
      }
    }
  }

  /** A path that was just added to an empty Archon is the next reply. */
  lemma AddedPathIsReplied(path: FullPath, shard: string, k: nat)
    requires ParseInt(shard).Some? && k > 0
    ensures
      var s := Apply(Store(map[], map[]), AddArc(path)).0;
      var step := NextArcStep(shard, [ArcVO(path, NEW_PRIORITY)]);
      && Consistent(s) && Fresh(s) && Answered(s, step, k)
      && AnyEligible(s.table, ParseInt(shard).value)
      && Apply(s, step).1 == Arc(path)
  {
    var s := Apply(Store(map[], map[]), AddArc(path)).0;
    var row := Row(path.folder, NEW_PRIORITY, NEW, None);
    assert s == Store(map[path.id := row], map[]);
    SingleAnswer(path, row, ParseInt(shard).value, k);
    assert path.id in s.table && Eligible(s.table[path.id], ParseInt(shard).value);
  }

  /** addARC takes the empty path, and then nextARC hands it out with the reply for "nothing left". */
  lemma EmptyPathReadsAsNothingLeft(shard: string, k: nat)
    requires ParseInt(shard).Some? && k > 0
    ensures
      var s := Apply(Store(map[], map[]), AddArc(NO_ARC)).0;
      var step := NextArcStep(shard, [ArcVO(NO_ARC, NEW_PRIORITY)]);
      && Consistent(s) && Fresh(s) && Answered(s, step, k)
      && AnyEligible(s.table, ParseInt(shard).value)
      && Apply(s, step).1 == Arc(NO_ARC)
  {
    AddedPathIsReplied(NO_ARC, shard, k);
  }

  // ---------- priorities ----------

  /** nextARC writes back the priority that the cache has; what was set since is overwritten. */
  lemma CachedPriorityWins(s: Store, shard: string, path: FullPath, priority: int)
    requires Consistent(s) && Fresh(s) && Cached(s, shard) != [] && path.id == Cached(s, shard)[0].fileName.id
    ensures
      var t := Apply(s, SetArcPriority(path, priority)).0;
      var u := Apply(t, NextArcStep(shard, [])).0;
      && path.id in t.table && t.table[path.id].priority == priority
      && HandsOut(t, NextArcStep(shard, [])) == Some(path.id)
      && path.id in u.table && u.table[path.id].priority == Cached(s, shard)[0].priority
  {
    assert InCache(s, shard, Cached(s, shard)[0]) && Offered(s.table, shard, Cached(s, shard)[0]);
  }
}
