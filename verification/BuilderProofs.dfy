/** What every step of a build keeps, and what that says about arcs left behind. */
module BuilderProofs {
  import opened Wrappers
  import opened ArcPath
  import opened Archon
  import opened ArchonSafety
  import opened ArchonHandOuts
  import opened ArchonReplies
  import opened Retries
  import opened IndexBuilder
  import Runs

  /** The arcs of all jobs in the pool. */
  function Carried(pool: seq<Job>): multiset<FullPath> {
    if pool == [] then multiset{} else multiset(pool[0].arcs) + Carried(pool[1..])
  }

  /** Every arc the builder has been given and not reported: being drawn, in a job, or lost with one. */
  function Held(b: Builder): multiset<FullPath> {
    multiset(b.batch) + Carried(b.pool) + b.lost
  }

  /** The arcs RUNNING for the shard are the ones held, and none is held twice. */
  ghost predicate Exact(c: Config, b: Builder) {
    forall p :: Held(b)[p] == if IsRunning(b.store.table, ShardOf(c), p) then 1 else 0
  }

  ghost predicate Control(c: Config, b: Builder) {
    && (b.pc in {AtLimitCheck, Filling, Drawing, Polling} ==> b.state == Indexing)
    && (b.pc.InOptimize? ==> b.state == Optimizing)
    && (b.state == Optimizing ==> b.pool == [] && (b.pc.InOptimize? || b.pc == Ended))
    && (b.pc !in {Drawing, Ending, Ended} ==> b.batch == [])
    && (b.pc == AtStart ==> b.pool == [] && b.lost == multiset{})
    && |b.batch| <= c.batchSize
  }

  ghost predicate Retrying(c: Config, b: Builder) {
    forall j :: 0 <= j < |b.pool| ==> b.pool[j].errors <= if c.tries > 0 then c.tries else 0
  }

  ghost predicate Inv(c: Config, b: Builder) {
    && Consistent(b.store) && Fresh(b.store)
    && Control(c, b) && Retrying(c, b)
    && (b.pc != AtStart ==> Exact(c, b))
  }

  // ---------- pools ----------

  lemma {:induction false} CarriedConcat(p: seq<Job>, q: seq<Job>)
    ensures Carried(p + q) == Carried(p) + Carried(q)
  {
    if p == [] {
      assert p + q == q;
    } else {
      assert (p + q)[1..] == p[1..] + q;
      CarriedConcat(p[1..], q);
    }
  }

  lemma CarriedAppended(pool: seq<Job>, job: Job)
    ensures Carried(pool + [job]) == Carried(pool) + multiset(job.arcs)
  {
    CarriedConcat(pool, [job]);
    assert [job][1..] == [];
  }

  lemma CarriedWithout(pool: seq<Job>, i: nat)
    requires i < |pool|
    ensures Carried(pool) == Carried(pool[..i] + pool[i + 1..]) + multiset(pool[i].arcs)
  {
    var front, rest := pool[..i], pool[i + 1..];
    SplitAt(pool, i);
    CarriedConcat(front + [pool[i]], rest);
    CarriedAppended(front, pool[i]);
    CarriedConcat(front, rest);
  }

  lemma SplitAt<T>(s: seq<T>, i: nat)
    requires i < |s|
    ensures s == (s[..i] + [s[i]]) + s[i + 1..]
  {
  }

  lemma CarriedResubmitted(pool: seq<Job>, i: nat, retried: set<FullPath>)
    requires i < |pool|
    ensures Carried(Resubmitted(pool, i, retried)) + multiset(pool[i].arcs) == Carried(pool) + multiset(retried)
  {
    CarriedWithout(pool, i);
    if retried != {} {
      CarriedAppended(pool[..i] + pool[i + 1..], Job(retried, pool[i].errors + 1));
    }
  }

  // ---------- effects on the running arcs ----------

  lemma DrawnRowRuns(s: Store, step: Step, k: nat)
    requires step.NextArcStep? && ParseInt(step.shard).Some? && k > 0
    requires Consistent(s) && Fresh(s) && Answered(s, step, k)
    ensures Apply(s, step).1 != Refused
    ensures HandsOut(s, step).None? ==> Apply(s, step).0.table == s.table
    ensures HandsOut(s, step).Some? ==>
      var id, n := HandsOut(s, step).value, ParseInt(step.shard).value;
      var t := Apply(s, step).0.table;
      && id in s.table && s.table[id].state == NEW
      && Apply(s, step).1 == Arc(Path(s.table, id)) 
      && RowRuns(t, n, id) && Path(t, id) == Path(s.table, id)
      && t == s.table[id := t[id]]
  {
    NextArcHandsOutIffEligible(s, step.shard, step.answer, k);
    if HandsOut(s, step).Some? {
      HeadOffered(s, step.shard, step.answer, k);
    }
  }

  /** A row runs for the shard in both tables or in neither, and in the same folder if it does. */
  ghost predicate SameRun(before: map<string, Row>, after: map<string, Row>, shard: int, id: string) {
    && (RowRuns(after, shard, id) <==> RowRuns(before, shard, id))
    && (RowRuns(before, shard, id) ==> after[id].folder == before[id].folder)
  }

  lemma OthersDrawElsewhere(s: Store, step: Step, k: nat, shard: int, id: string)
    requires step.NextArcStep? && k > 0 && ParseInt(step.shard) != Some(shard)
    requires Consistent(s) && Fresh(s) && Answered(s, step, k)
    ensures SameRun(s.table, Apply(s, step).0.table, shard, id)
  {
    if ParseInt(step.shard).Some? {
      DrawnRowRuns(s, step, k);
    }
  }

  /** Calls that neither are made for a shard nor concern its arcs leave its running arcs alone. */
  lemma OthersLeaveRunning(s: Store, step: Step, k: nat, shard: int, p: FullPath)
    requires k > 0 && Consistent(s) && Fresh(s) && Answered(s, step, k) && !Meddles(s, shard, step)
    ensures IsRunning(Apply(s, step).0.table, shard, p) <==> IsRunning(s.table, shard, p)
  {
    if step.NextArcStep? {
      OthersDrawElsewhere(s, step, k, shard, p.id);
    }
    assert SameRun(s.table, Apply(s, step).0.table, shard, p.id);
  }

  ghost predicate SomeReported(reported: set<FullPath>, id: string) {
    exists a :: a in reported && a.id == id
  }

  /** A report ends the running of exactly the reported arcs. */
  lemma ReportEndsRunning(before: Store, statuses: map<FullPath, ArcState>, reported: set<FullPath>, after: Store,
                          shard: int, p: FullPath)
    requires ReportsTo(IdOf, before, statuses, reported, after) && Terminal(statuses)
    requires forall a :: a in reported ==> IsRunning(before.table, shard, a)
    ensures IsRunning(after.table, shard, p) <==> IsRunning(before.table, shard, p) && p !in reported
  {
    if p.id in before.table {
      if p in reported {
        assert SomeReported(reported, p.id);
      } else if IsRunning(before.table, shard, p) {
        forall a | a in reported
          ensures a.id != p.id
        {
          assert a == Path(before.table, a.id);
        }
      }
    }
  }

  lemma ReportKeepsStore(before: Store, statuses: map<FullPath, ArcState>, reported: set<FullPath>, after: Store,
                         shard: int)
    requires ReportsTo(IdOf, before, statuses, reported, after) && Terminal(statuses)
    requires Consistent(before) && Fresh(before)
    requires forall a :: a in reported ==> IsRunning(before.table, shard, a)
    ensures Consistent(after) && Fresh(after)
  {
    forall id | id in after.table
      ensures after.table[id].folder == before.table[id].folder
    {
    }
    SameFoldersKeepConsistent(before, after);
    forall k, e | InCache(after, k, e)
      ensures Offered(after.table, k, e)
    {
      assert InCache(before, k, e) && Offered(before.table, k, e);
    }
  }

  // ---------- the invariant ----------

  lemma ClearKeepsInv(c: Config, b: Builder)
    requires ConfigOk(c) && Inv(c, b) && Enabled(c, b, Clear)
    ensures Inv(c, Next(c, b, Clear))
  {
    ApplyKeepsConsistent(b.store, ClearIndexing(c.shard), c.limit);
    ApplyKeepsFresh(b.store, ClearIndexing(c.shard), c.limit);
  }

  lemma DrawKeepsExact(c: Config, b: Builder, answer: seq<ArcVO>, fileExists: bool)
    requires ConfigOk(c) && Inv(c, b) && Enabled(c, b, Draw(answer, fileExists))
    ensures Exact(c, AfterDraw(c, b, answer, fileExists))
    ensures |AfterDraw(c, b, answer, fileExists).batch| <= |b.batch| + 1
  {
    var step := NextArcStep(c.shard, answer);
    var n, t := ShardOf(c), AfterDraw(c, b, answer, fileExists);
    DrawnRowRuns(b.store, step, c.limit);
    if HandsOut(b.store, step).Some? {
      var id := HandsOut(b.store, step).value;
      var path := Path(b.store.table, id);
      assert t.batch == b.batch + [path];
      forall p
        ensures Held(t)[p] == if IsRunning(t.store.table, n, p) then 1 else 0
      {
        OneMoreRuns(b.store.table, t.store.table, n, id, p);
      }
    } else {
      assert Held(t) == Held(b);
    }
  }

  lemma OneMoreRuns(before: map<string, Row>, after: map<string, Row>, shard: int, id: string, p: FullPath)
    requires id in before && before[id].state == NEW && id in after && after == before[id := after[id]]
    requires RowRuns(after, shard, id) && Path(after, id) == Path(before, id) 
    ensures IsRunning(after, shard, p) <==> p == Path(before, id) || IsRunning(before, shard, p)
    ensures !IsRunning(before, shard, Path(before, id))
  {
  }

  lemma DrawKeepsInv(c: Config, b: Builder, answer: seq<ArcVO>, fileExists: bool)
    requires ConfigOk(c) && Inv(c, b) && Enabled(c, b, Draw(answer, fileExists))
    ensures Inv(c, Next(c, b, Draw(answer, fileExists)))
  {
    var step := NextArcStep(c.shard, answer);
    ApplyKeepsConsistent(b.store, step, c.limit);
    ApplyKeepsFresh(b.store, step, c.limit);
    DrawKeepsExact(c, b, answer, fileExists);
  }

  lemma SubmitKeepsInv(c: Config, b: Builder)
    requires ConfigOk(c) && Inv(c, b) && Enabled(c, b, Submit)
    ensures Inv(c, Next(c, b, Submit))
  {
    if b.batch != [] {
      HeldAfterSubmit(b, b.(pool := b.pool + [Job(set a | a in b.batch, 0)], batch := []));
      assert Held(Next(c, b, Submit)) == Held(b);
    }
  }

  lemma HeldAfterSubmit(b: Builder, t: Builder)
    requires forall p :: Held(b)[p] <= 1
    requires t.pool == b.pool + [Job(set a | a in b.batch, 0)] && t.batch == [] && t.lost == b.lost
    ensures Held(t) == Held(b)
  {
    forall p
      ensures multiset(b.batch)[p] == multiset(set a | a in b.batch)[p]
    {
      assert multiset(b.batch)[p] <= Held(b)[p];
    }
    assert multiset(b.batch) == multiset(set a | a in b.batch);
    CarriedAppended(b.pool, Job(set a | a in b.batch, 0));
  }

  lemma JobsArcsRun(c: Config, b: Builder, i: nat, a: FullPath)
    requires Exact(c, b) && i < |b.pool| && a in b.pool[i].arcs
    ensures IsRunning(b.store.table, ShardOf(c), a)
  {
    CarriedWithout(b.pool, i);
    assert Held(b)[a] >= multiset(b.pool[i].arcs)[a];
  }

  lemma JobEndsKeepsExact(c: Config, b: Builder, i: nat, statuses: map<FullPath, ArcState>, after: Store)
    requires ConfigOk(c) && Inv(c, b) && Enabled(c, b, JobEnds(i, statuses, after))
    ensures Consistent(after) && Fresh(after)
    ensures Exact(c, Next(c, b, JobEnds(i, statuses, after)))
  {
    var n, t := ShardOf(c), Next(c, b, JobEnds(i, statuses, after));
    var retried := Retried(RoundOf(b, statuses), b.pool[i].errors, c.tries);
    var reported := Reported(RoundOf(b, statuses), b.pool[i].errors, c.tries);
    forall a | a in reported
      ensures IsRunning(b.store.table, n, a)
    {
      JobsArcsRun(c, b, i, a);
    }
    ReportKeepsStore(b.store, statuses, reported, after, n);
    CarriedResubmitted(b.pool, i, retried);
    CarriedWithout(b.pool, i);
    forall p
      ensures Held(t)[p] == if IsRunning(after.table, n, p) then 1 else 0
    {
      ReportEndsRunning(b.store, statuses, reported, after, n, p);
      HeldAfterJob(b, t, i, retried, p);
    }
  }

  lemma HeldAfterJob(b: Builder, t: Builder, i: nat, retried: set<FullPath>, p: FullPath)
    requires i < |b.pool| && retried <= b.pool[i].arcs
    requires t.batch == b.batch && t.lost == b.lost && t.pool == Resubmitted(b.pool, i, retried)
    ensures Held(t)[p] + multiset(b.pool[i].arcs)[p] == Held(b)[p] + multiset(retried)[p]
  {
    CarriedResubmitted(b.pool, i, retried);
    assert (Carried(t.pool) + multiset(b.pool[i].arcs))[p] == (Carried(b.pool) + multiset(retried))[p];
  }

  lemma JobEndsKeepsInv(c: Config, b: Builder, i: nat, statuses: map<FullPath, ArcState>, after: Store)
    requires ConfigOk(c) && Inv(c, b) && Enabled(c, b, JobEnds(i, statuses, after))
    ensures Inv(c, Next(c, b, JobEnds(i, statuses, after)))
  {
    JobEndsKeepsExact(c, b, i, statuses, after);
  }

  lemma JobIsLostKeepsInv(c: Config, b: Builder, i: nat)
    requires ConfigOk(c) && Inv(c, b) && Enabled(c, b, JobIsLost(i))
    ensures Inv(c, Next(c, b, JobIsLost(i)))
  {
    HeldAfterLoss(b, i);
    assert Held(Next(c, b, JobIsLost(i))) == Held(b);
  }

  lemma HeldAfterLoss(b: Builder, i: nat)
    requires i < |b.pool|
    ensures Held(b.(pool := Resubmitted(b.pool, i, {}), lost := b.lost + multiset(b.pool[i].arcs))) == Held(b)
  {
    CarriedWithout(b.pool, i);
  }

  lemma ElsewhereKeepsInv(c: Config, b: Builder, step: Step)
    requires ConfigOk(c) && Inv(c, b) && Enabled(c, b, Elsewhere(step))
    ensures Inv(c, Next(c, b, Elsewhere(step)))
  {
    var t := Next(c, b, Elsewhere(step));
    ApplyKeepsConsistent(b.store, step, c.limit);
    ApplyKeepsFresh(b.store, step, c.limit);
    assert Held(t) == Held(b);
    forall p
      ensures IsRunning(t.store.table, ShardOf(c), p) <==> IsRunning(b.store.table, ShardOf(c), p)
    {
      OthersLeaveRunning(b.store, step, c.limit, ShardOf(c), p);
    }
  }

  predicate Quiet(e: Event) {
    e.Wait? || e.EndWait? || e.OptimizeEnds? || e.Limit? || e.Fill? || e.Poll? || e.End? || e.Abort?
  }

  lemma QuietStepKeepsArcs(c: Config, b: Builder, e: Event)
    requires Enabled(c, b, e) && Quiet(e)
    ensures
      var t := Next(c, b, e);
      t.store == b.store && t.batch == b.batch && t.pool == b.pool && t.lost == b.lost && t.pc != AtStart
  {
  }

  lemma QuietStepKeepsControl(c: Config, b: Builder, e: Event)
    requires Control(c, b) && Enabled(c, b, e) && Quiet(e)
    ensures Control(c, Next(c, b, e))
  {
  }

  /** Steps of the main thread that only move it along. */
  lemma QuietStepKeepsInv(c: Config, b: Builder, e: Event)
    requires ConfigOk(c) && Inv(c, b) && Enabled(c, b, e) && Quiet(e)
    ensures Inv(c, Next(c, b, e))
  {
    QuietStepKeepsArcs(c, b, e);
    QuietStepKeepsControl(c, b, e);
    assert Held(Next(c, b, e)) == Held(b);
  }

  lemma StepKeepsInv(c: Config, b: Builder, e: Event)
    requires ConfigOk(c) && Inv(c, b) && Enabled(c, b, e)
    ensures Inv(c, Next(c, b, e))
  {
    match e {
      case Clear => ClearKeepsInv(c, b);
      case Draw(answer, fileExists) => DrawKeepsInv(c, b, answer, fileExists);
      case Submit => SubmitKeepsInv(c, b);
      case JobEnds(i, statuses, after) => JobEndsKeepsInv(c, b, i, statuses, after);
      case JobIsLost(i) => JobIsLostKeepsInv(c, b, i);
      case Elsewhere(step) => ElsewhereKeepsInv(c, b, step);
      case _ => QuietStepKeepsInv(c, b, e);
    }
  }

  /** The invariant holds in every state of every build. */
  lemma BuildKeepsInv(c: Config, states: seq<Builder>, events: seq<Event>, i: nat)
    requires IsBuild(c, states, events) && i < |states|
    ensures Inv(c, states[i])
  {
    forall b, e, t | Inv(c, b) && Leads(c, b, e, t)
      ensures Inv(c, t)
    {
      StepKeepsInv(c, b, e);
    }
    Runs.KeptBetween((b, e, t) => Leads(c, b, e, t), b => Inv(c, b), states, events, 0, i);
  }

  // ---------- what follows ----------

  /** In every state of a build after its start, the arcs RUNNING for the shard are held exactly once. */
  lemma RunningIsHeldOnce(c: Config, states: seq<Builder>, events: seq<Event>, i: nat)
    requires IsBuild(c, states, events) && i < |states| && states[i].pc != AtStart
    ensures Exact(c, states[i])
  {
    BuildKeepsInv(c, states, events, i);
  }

  ghost function RunningPaths(table: map<string, Row>, shard: int): set<FullPath> {
    set id | id in table && RowRuns(table, shard, id) :: Path(table, id)
  }

  lemma {:induction false} SetIsNoLarger(batch: seq<FullPath>)
    ensures |set a | a in batch| <= |batch|
  {
    if batch == [] {
    } else {
      var rest := batch[1..];
      SetIsNoLarger(rest);
      assert (set a | a in batch) == {batch[0]} + set a | a in rest;
    }
  }

  lemma RunningPathRuns(s: Store, shard: int, p: FullPath)
    requires Consistent(s)
    ensures p in RunningPaths(s.table, shard) <==> IsRunning(s.table, shard, p)
  {
    if p in RunningPaths(s.table, shard) {
      var id :| id in s.table && RowRuns(s.table, shard, id) && p == Path(s.table, id);
      assert IsRunning(s.table, shard, p);
    }
    if IsRunning(s.table, shard, p) {
      var id := p.id;
      assert id in s.table && RowRuns(s.table, shard, id) && p == Path(s.table, id);
    }
  }

  /** A build that ended with no job outstanding and none lost strands at most one batch of arcs. */
  lemma StrandedAtMostOneBatch(c: Config, states: seq<Builder>, events: seq<Event>, i: nat)
    requires IsBuild(c, states, events) && i < |states|
    requires states[i].pc == Ended && states[i].pool == [] && states[i].lost == multiset{}
    ensures RunningPaths(states[i].store.table, ShardOf(c)) == set a | a in states[i].batch
    ensures |RunningPaths(states[i].store.table, ShardOf(c))| <= c.batchSize
  {
    var b := states[i];
    BuildKeepsInv(c, states, events, i);
    assert Held(b) == multiset(b.batch);
    forall p
      ensures p in RunningPaths(b.store.table, ShardOf(c)) <==> p in b.batch
    {
      RunningPathRuns(b.store, ShardOf(c), p);
      assert p in b.batch <==> Held(b)[p] > 0;
    }
    SetIsNoLarger(b.batch);
  }

  /** While the builder optimizes there is no job, and no step from there creates one. */
  lemma OptimizingIsAlone(c: Config, states: seq<Builder>, events: seq<Event>, i: nat, e: Event)
    requires IsBuild(c, states, events) && i < |states| && states[i].state == Optimizing
    ensures states[i].pool == [] && (e.JobEnds? ==> !Enabled(c, states[i], e))
    ensures Enabled(c, states[i], e) ==> Next(c, states[i], e).pool == []
  {
    BuildKeepsInv(c, states, events, i);
  }

  /** The branch that reports "Cannot start new workers" is never taken. */
  lemma CanAlwaysStartWorkers(c: Config, states: seq<Builder>, events: seq<Event>, i: nat)
    requires IsBuild(c, states, events) && i < |events| && events[i] == Fill
    ensures states[i].state == Indexing
    ensures |states[i].pool| < c.maxWorkers ==> states[i + 1].pc == Drawing
  {
    BuildKeepsInv(c, states, events, i);
    assert Leads(c, states[i], events[i], states[i + 1]);
  }

  /** No job is tried again more often than the configuration allows. */
  lemma RetriesAreBounded(c: Config, states: seq<Builder>, events: seq<Event>, i: nat, j: nat)
    requires IsBuild(c, states, events) && i < |states| && j < |states[i].pool|
    ensures states[i].pool[j].errors <= if c.tries > 0 then c.tries else 0
  {
    BuildKeepsInv(c, states, events, i);
  }

  // ---------- what the end of a job does ----------

  /** The arcs that a run rejected. */
  function Failed(statuses: map<FullPath, ArcState>): set<FullPath> {
    set a | a in statuses && statuses[a] == REJECTED
  }

  /** The builder is indexing, and the job has a try left and something to try. */
  predicate TriesAgain(c: Config, b: Builder, errors: nat, statuses: map<FullPath, ArcState>) {
    b.state == Indexing && errors < c.tries && Failed(statuses) != {}
  }

  lemma ReportedRowIs(before: Store, statuses: map<FullPath, ArcState>, reported: set<FullPath>, after: Store,
                      shard: int, a: FullPath)
    requires ReportsTo(IdOf, before, statuses, reported, after) && reported <= statuses.Keys
    requires IsRunning(before.table, shard, a) && forall d :: d in reported ==> IsRunning(before.table, shard, d)
    ensures a.id in after.table
    ensures after.table[a.id] ==
      if a in reported then before.table[a.id].(state := statuses[a]) else before.table[a.id]
  {
    forall d | d in reported && d.id == a.id
      ensures d == a
    {
      assert d == Path(before.table, d.id);
    }
    assert ReportedRow(IdOf, before, statuses, reported, after, a.id);
    if a in reported {
      assert IdOf(a) == a.id;
    }
  }

  lemma RoundMeans(c: Config, b: Builder, errors: nat, statuses: map<FullPath, ArcState>)
    ensures Retried(RoundOf(b, statuses), errors, c.tries) ==
      if TriesAgain(c, b, errors, statuses) then Failed(statuses) else {}
  {
  }

  /** The rows of a job's arcs when it ends: the reported ones have the status of the run. */
  lemma JobRows(c: Config, b: Builder, i: nat, statuses: map<FullPath, ArcState>, after: Store, a: FullPath)
    requires ConfigOk(c) && Exact(c, b) && Enabled(c, b, JobEnds(i, statuses, after)) && a in b.pool[i].arcs
    ensures a.id in b.store.table && a.id in after.table
    ensures after.table[a.id] ==
      if TriesAgain(c, b, b.pool[i].errors, statuses) && a in Failed(statuses) then b.store.table[a.id]
      else b.store.table[a.id].(state := statuses[a])
  {
    var reported := Reported(RoundOf(b, statuses), b.pool[i].errors, c.tries);
    RoundMeans(c, b, b.pool[i].errors, statuses);
    forall d | d in b.pool[i].arcs
      ensures IsRunning(b.store.table, ShardOf(c), d)
    {
      JobsArcsRun(c, b, i, d);
    }
    ReportedRowIs(b.store, statuses, reported, after, ShardOf(c), a);
  }

  /**
   If the builder is indexing and tries are left, the arcs that the run rejected are submitted
   again, as one job, and their rows stay as they are.  All other arcs of the job get the status
   of the run.
   */
  lemma JobEndsMeans(c: Config, b: Builder, i: nat, statuses: map<FullPath, ArcState>, after: Store)
    requires ConfigOk(c) && Inv(c, b) && Enabled(c, b, JobEnds(i, statuses, after))
    ensures
      var t, job := Next(c, b, JobEnds(i, statuses, after)), b.pool[i];
      var again := b.state == Indexing && job.errors < c.tries && Failed(statuses) != {};
      && t.store == after && after.cache == b.store.cache
      && t.pool == (b.pool[..i] + b.pool[i + 1..]) + (if again then [Job(Failed(statuses), job.errors + 1)] else [])
      && forall a :: a in job.arcs ==>
           && a.id in b.store.table && a.id in after.table
           && after.table[a.id] ==
                if again && a in Failed(statuses) then b.store.table[a.id]
                else b.store.table[a.id].(state := statuses[a])
  {
    RoundMeans(c, b, b.pool[i].errors, statuses);
    forall a | a in b.pool[i].arcs
      ensures a.id in b.store.table && a.id in after.table
      ensures after.table[a.id] ==
        if TriesAgain(c, b, b.pool[i].errors, statuses) && a in Failed(statuses) then b.store.table[a.id]
        else b.store.table[a.id].(state := statuses[a])
    {
      JobRows(c, b, i, statuses, after, a);
    }
    var rest := b.pool[..i] + b.pool[i + 1..];
    assert rest + [] == rest;
  }
}
