/** Why a build goes on, why it optimizes, and why it ends. */
module BuilderControl {
  import opened Wrappers
  import opened Archon
  import opened ArchonReplies
  import opened IndexBuilder
  import opened BuilderProofs

  /** The main loop has been left; only outstanding jobs are still waited for. */
  predicate IsOver(b: Builder) {
    b.pc == Ending || b.pc == Ended
  }

  /**
   A build that is under way leaves its main loop exactly by a check that times out on its jobs or
   finds the index finished or too large, a timeout while it polls, a draw without a file, a batch
   size of zero, or an exception.
   */
  lemma EndsIff(c: Config, b: Builder, e: Event)
    requires ConfigOk(c) && Inv(c, b) && Enabled(c, b, e) && !IsOver(b)
    ensures IsOver(Next(c, b, e)) <==>
      || (e.EndWait? && b.pool != [])
      || (e.OptimizeEnds? && (e.tooLarge || e.finished))
      || (e.Poll? && e.timeout)
      || (e.Draw? && !e.fileExists)
      || (e.Submit? && c.batchSize == 0)
      || e == Abort
  {
    if e.Draw? {
      DrawnRowRuns(b.store, NextArcStep(c.shard, e.answer), c.limit);
    }
  }

  /** It optimizes exactly at a check that finds all jobs done. */
  lemma OptimizesIff(c: Config, b: Builder, e: Event)
    requires ConfigOk(c) && Inv(c, b) && Enabled(c, b, e) && !b.pc.InOptimize?
    ensures Next(c, b, e).pc.InOptimize? <==> e == EndWait && b.pool == []
    ensures Next(c, b, e).pc.InOptimize? ==> Next(c, b, e).state == Optimizing
  {
    if e.Draw? {
      DrawnRowRuns(b.store, NextArcStep(c.shard, e.answer), c.limit);
    }
  }

  /** An index that is neither too large nor finished puts the build back to indexing; the others end it. */
  lemma OptimizeDecides(c: Config, b: Builder, tooLarge: bool, finished: bool)
    requires Enabled(c, b, OptimizeEnds(tooLarge, finished))
    ensures
      var t := Next(c, b, OptimizeEnds(tooLarge, finished));
      && t.pc == (if tooLarge then Ended
                  else if !finished then AtLimitCheck
                  else if b.pc.first then Ended else Ending)
      && t.state == (if tooLarge || finished then Finishing else Indexing)
      && t.store == b.store && t.batch == b.batch && t.pool == b.pool && t.lost == b.lost
  {
  }

  /** A build clears its shard first, and then checks whether there is anything to do. */
  lemma StartsWithCheck(c: Config, b: Builder)
    requires Enabled(c, b, Clear)
    ensures Next(c, b, Clear) ==
      b.(store := Apply(b.store, ClearIndexing(c.shard)).0, state := Checking, pc := Waiting(0, true))
  {
  }

  /** Workers are started only while fewer than allowed are at work, and otherwise one is waited for. */
  lemma FillsUpTo(c: Config, b: Builder)
    requires ConfigOk(c) && Inv(c, b) && Enabled(c, b, Fill)
    ensures Next(c, b, Fill) == b.(pc := if |b.pool| < c.maxWorkers then Drawing else Polling)
  {
  }

  /** A full batch becomes one new job with no failures, and the loop fills on. */
  lemma SubmitStartsJob(c: Config, b: Builder)
    requires ConfigOk(c) && Inv(c, b) && Enabled(c, b, Submit) && c.batchSize > 0
    ensures
      var t := Next(c, b, Submit);
      && |b.batch| == c.batchSize && t.batch == [] && t.pc == Filling && t.state == b.state && t.store == b.store
      && |t.pool| == |b.pool| + 1 && t.pool[..|b.pool|] == b.pool
      && t.pool[|b.pool|].errors == 0 && forall a :: a in t.pool[|b.pool|].arcs <==> a in b.batch
  {
  }

  /** The optimize limit sends the build to its check, and a finished poll back to the limit. */
  lemma LimitSendsToCheck(c: Config, b: Builder, e: Event)
    requires Enabled(c, b, e) && (e.Limit? || e.Poll?)
    ensures e == Limit(true) ==> Next(c, b, e) == b.(state := Checking, pc := Waiting(0, false))
    ensures e == Limit(false) ==> Next(c, b, e) == b.(pc := Filling)
    ensures e == Poll(false) ==> Next(c, b, e) == b.(pc := AtLimitCheck)
  {
  }

  /** How often the check waits for jobs between two states. */
  function Waits(events: seq<Event>, i: nat, j: nat): nat
    requires i <= j <= |events|
  {
    if i == j then 0 else Waits(events, i, j - 1) + if events[j - 1] == Wait then 1 else 0
  }

  lemma {:induction false} WaitsAreCounted(c: Config, states: seq<Builder>, events: seq<Event>, i: nat, j: nat)
    requires IsBuild(c, states, events) && i <= j < |states|
    requires forall m :: i <= m <= j ==> states[m].pc.Waiting?
    ensures states[j].pc.emptyRun == states[i].pc.emptyRun + Waits(events, i, j)
    ensures Waits(events, i, j) > 0 ==> states[j].pc.emptyRun <= c.tries
    decreases j
  {
    if i == j {
    } else {
      WaitsAreCounted(c, states, events, i, j - 1);
      assert Leads(c, states[j - 1], events[j - 1], states[j]);
    }
  }

  /** One check waits for jobs at most as often as the configuration allows tries, and gives up then. */
  lemma WaitsAreBounded(c: Config, states: seq<Builder>, events: seq<Event>, i: nat, j: nat)
    requires IsBuild(c, states, events) && i <= j < |states|
    requires forall m :: i <= m <= j ==> states[m].pc.Waiting?
    ensures Waits(events, i, j) <= if c.tries > 0 then c.tries else 0
    ensures states[j].pc.emptyRun >= c.tries ==> !Enabled(c, states[j], Wait) && Enabled(c, states[j], EndWait)
  {
    WaitsAreCounted(c, states, events, i, j);
  }

  /** Once the main loop is left, nothing more is drawn or submitted. */
  lemma {:induction false} OverDrawsNothing(c: Config, states: seq<Builder>, events: seq<Event>, i: nat, j: nat)
    requires IsBuild(c, states, events) && i <= j < |states| && IsOver(states[i])
    ensures IsOver(states[j]) && states[j].batch == states[i].batch
    ensures j < |events| ==> !events[j].Draw? && !events[j].Submit?
    decreases j
  {
    if j < |events| {
      assert Leads(c, states[j], events[j], states[j + 1]);
    }
    if i == j {
    } else {
      OverDrawsNothing(c, states, events, i, j - 1);
      assert Leads(c, states[j - 1], events[j - 1], states[j]);
    }
  }
}
