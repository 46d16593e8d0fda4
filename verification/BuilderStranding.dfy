/** Which arcs a build leaves behind as RUNNING, how many, and what the next build does with them. */
module BuilderStranding {
  import opened Wrappers
  import opened ArcPath
  import opened Archon
  import opened ArchonSafety
  import opened ArchonHandOuts
  import opened ArchonReplies
  import opened ArchonDrain
  import opened Retries
  import opened IndexBuilder
  import opened BuilderProofs
  import Runs

  // ---------- the draw that ends a build ----------

  /** A batch that is being drawn is in no job, and its arcs are RUNNING. */
  ghost predicate InNoJob(c: Config, b: Builder) {
    forall p :: p in b.batch ==> IsRunning(b.store.table, ShardOf(c), p) && p !in Carried(b.pool)
  }

  lemma BatchIsInNoJob(c: Config, b: Builder)
    requires Exact(c, b)
    ensures InNoJob(c, b)
  {
    forall p | p in b.batch
      ensures IsRunning(b.store.table, ShardOf(c), p) && p !in Carried(b.pool)
    {
      assert multiset(b.batch)[p] >= 1 && Held(b)[p] <= 1;
      assert Held(b)[p] == multiset(b.batch)[p] + Carried(b.pool)[p] + b.lost[p];
    }
  }

  /**
   A draw ends the build exactly if the reply names no file that exists: for the reply "", and
   for a missing file as well.  The arcs drawn so far, and the one without a file, are in no job.
   */
  lemma DrawEndsIff(c: Config, b: Builder, answer: seq<ArcVO>, fileExists: bool)
    requires ConfigOk(c) && Inv(c, b) && Enabled(c, b, Draw(answer, fileExists))
    ensures
      var t := Next(c, b, Draw(answer, fileExists));
      && t.pc == (if fileExists then Drawing else Ending)
      && b.batch <= t.batch && t.pool == b.pool && InNoJob(c, t)
      && |t.batch| == |b.batch| + if AnyEligible(b.store.table, ShardOf(c)) then 1 else 0
  {
    var t := Next(c, b, Draw(answer, fileExists));
    NextArcHandsOutIffEligible(b.store, c.shard, answer, c.limit);
    DrawnRowRuns(b.store, NextArcStep(c.shard, answer), c.limit);
    DrawKeepsExact(c, b, answer, fileExists);
    BatchIsInNoJob(c, t);
  }

  // ---------- counting ----------

  ghost function Left(c: Config, b: Builder): nat {
    |EligibleIds(b.store.table, ShardOf(c))|
  }

  /** The number of arcs in some full batches. */
  function Times(size: nat, batches: nat): nat {
    if batches == 0 then 0 else size + Times(size, batches - 1)
  }

  /** The rows that clearIndexing or another caller has made eligible for the shard, less those it has taken. */
  ghost function Gain(c: Config, b: Builder, e: Event, t: Builder): int {
    if e.Clear? || e.Elsewhere? then Left(c, t) - Left(c, b) else 0
  }

  /** The rows eligible when the build started, and all gains since, for every state of the build. */
  ghost predicate Supplies(c: Config, states: seq<Builder>, events: seq<Event>, supply: seq<int>) {
    && |supply| == |states| == |events| + 1 && supply[0] == Left(c, states[0])
    && forall i {:trigger Gain(c, states[i], events[i], states[i + 1])} :: 0 <= i < |events| ==>
         supply[i + 1] == supply[i] + Gain(c, states[i], events[i], states[i + 1])
  }

  lemma {:induction false} SupplyExists(c: Config, states: seq<Builder>, events: seq<Event>) returns (supply: seq<int>)
    requires |states| == |events| + 1
    ensures Supplies(c, states, events, supply)
  {
    if events == [] {
      supply := [Left(c, states[0])];
    } else {
      var n := |events| - 1;
      var front := SupplyExists(c, states[..n + 1], events[..n]);
      supply := front + [front[n] + Gain(c, states[n], events[n], states[n + 1])];
      forall i | 0 <= i < |events|
        ensures supply[i + 1] == supply[i] + Gain(c, states[i], events[i], states[i + 1])
      {
        if i < n {
          assert front[i + 1] == front[i] + Gain(c, states[..n + 1][i], events[..n][i], states[..n + 1][i + 1]);
        }
      }
    }
  }

  /** Of n rows, some were submitted in full batches, some are in the batch being drawn, and the rest is left. */
  ghost predicate Accounts(c: Config, n: int, b: Builder, submitted: nat) {
    n == Left(c, b) + |b.batch| + Times(c.batchSize, submitted)
  }

  lemma DrawMovesOne(c: Config, b: Builder, answer: seq<ArcVO>, fileExists: bool)
    requires ConfigOk(c) && Inv(c, b) && Enabled(c, b, Draw(answer, fileExists))
    ensures
      var t := Next(c, b, Draw(answer, fileExists));
      Left(c, t) + |t.batch| == Left(c, b) + |b.batch|
  {
    var step := NextArcStep(c.shard, answer);
    NextArcHandsOutIffEligible(b.store, c.shard, answer, c.limit);
    DrawnRowRuns(b.store, step, c.limit);
    if HandsOut(b.store, step).Some? {
      var id := HandsOut(b.store, step).value;
      var before, after := b.store.table, Apply(b.store, step).0.table;
      assert id in EligibleIds(before, ShardOf(c));
      OneLessEligible(before, after, ShardOf(c), id);
    }
  }

  lemma OneLessEligible(before: map<string, Row>, after: map<string, Row>, shard: int, id: string)
    requires id in before && id in after && after == before[id := after[id]] && RowRuns(after, shard, id)
    ensures EligibleIds(after, shard) == EligibleIds(before, shard) - {id}
  {
  }

  lemma ReportLeavesEligible(before: Store, statuses: map<FullPath, ArcState>, reported: set<FullPath>, after: Store,
                             shard: int)
    requires ReportsTo(IdOf, before, statuses, reported, after) && Terminal(statuses)
    requires forall a :: a in reported ==> IsRunning(before.table, shard, a)
    ensures EligibleIds(after.table, shard) == EligibleIds(before.table, shard)
  {
    forall id
      ensures id in EligibleIds(after.table, shard) <==> id in EligibleIds(before.table, shard)
    {
      if id in before.table {
        assert ReportedRow(IdOf, before, statuses, reported, after, id);
      }
    }
  }

  lemma JobEndsLeavesEligible(c: Config, b: Builder, i: nat, statuses: map<FullPath, ArcState>, after: Store)
    requires ConfigOk(c) && Inv(c, b) && Enabled(c, b, JobEnds(i, statuses, after))
    ensures Left(c, Next(c, b, JobEnds(i, statuses, after))) == Left(c, b)
  {
    var reported := Reported(RoundOf(b, statuses), b.pool[i].errors, c.tries);
    forall a | a in reported
      ensures IsRunning(b.store.table, ShardOf(c), a)
    {
      JobsArcsRun(c, b, i, a);
    }
    ReportLeavesEligible(b.store, statuses, reported, after, ShardOf(c));
  }

  lemma StepAccounts(c: Config, n: int, b: Builder, e: Event, t: Builder, submitted: nat) returns (more: nat)
    requires ConfigOk(c) && Inv(c, b) && Leads(c, b, e, t) && Accounts(c, n, b, submitted)
    ensures Accounts(c, n + Gain(c, b, e, t), t, more)
  {
    more := submitted;
    match e {
      case Clear =>
      case Elsewhere(_) =>
      case Draw(answer, fileExists) => DrawMovesOne(c, b, answer, fileExists);
      case Submit =>
        if b.batch != [] {
          more := submitted + 1;
          assert |b.batch| == c.batchSize;
        }
      case JobEnds(i, statuses, after) => JobEndsLeavesEligible(c, b, i, statuses, after);
      case JobIsLost(_) =>
      case _ => QuietStepKeepsArcs(c, b, e);
    }
  }

  lemma NextAccounts(c: Config, states: seq<Builder>, events: seq<Event>, supply: seq<int>, i: nat, submitted: nat)
    returns (more: nat)
    requires IsBuild(c, states, events) && Supplies(c, states, events, supply)
    requires i < |events| && Accounts(c, supply[i], states[i], submitted)
    ensures Accounts(c, supply[i + 1], states[i + 1], more)
  {
    BuildKeepsInv(c, states, events, i);
    assert Leads(c, states[i], events[i], states[i + 1]);
    more := StepAccounts(c, supply[i], states[i], events[i], states[i + 1], submitted);
    assert supply[i + 1] == supply[i] + Gain(c, states[i], events[i], states[i + 1]);
  }

  lemma {:induction false} BuildAccounts(c: Config, states: seq<Builder>, events: seq<Event>, supply: seq<int>, i: nat)
    returns (submitted: nat)
    requires IsBuild(c, states, events) && Supplies(c, states, events, supply) && i < |states|
    ensures Accounts(c, supply[i], states[i], submitted)
  {
    if i == 0 {
      submitted := 0;
    } else {
      var before := BuildAccounts(c, states, events, supply, i - 1);
      submitted := NextAccounts(c, states, events, supply, i - 1, before);
    }
  }

  /** What full batches leave of n rows. */
  function Remainder(n: nat, size: nat): (r: nat)
    requires size > 0
    ensures r < size
  {
    if n < size then n else Remainder(n - size, size)
  }

  lemma QuotientIsUnique(n: nat, size: nat, q: nat, r: nat)
    requires r < size && n == size * q + r
    ensures r == n % size
  {
    var d := q - n / size;
    assert size * d == n % size - r;
    assert d >= 1 ==> size * d >= size;
    assert d <= -1 ==> size * d + size <= 0;
  }

  lemma {:induction false} RemainderIsMod(n: nat, size: nat)
    requires size > 0
    ensures Remainder(n, size) == n % size
  {
    if n < size {
      QuotientIsUnique(n, size, 0, n);
    } else {
      RemainderIsMod(n - size, size);
      QuotientIsUnique(n, size, (n - size) / size + 1, (n - size) % size);
    }
  }

  lemma {:induction false} RemainderOf(n: nat, size: nat, rest: nat, batches: nat)
    requires n == rest + Times(size, batches) && rest < size
    ensures rest == Remainder(n, size)
  {
    if batches == 0 {
    } else {
      RemainderOf(n - size, size, rest, batches - 1);
    }
  }

  lemma BatchIsRemainder(c: Config, n: int, b: Builder, submitted: nat)
    requires Accounts(c, n, b, submitted) && |b.batch| < c.batchSize
    ensures n >= Left(c, b) && |b.batch| == Remainder(n - Left(c, b), c.batchSize)
  {
    RemainderOf(n - Left(c, b), c.batchSize, |b.batch|, submitted);
  }

  /** What is known of the state in front of a draw, and of the one after it. */
  lemma DrawAt(c: Config, states: seq<Builder>, events: seq<Event>, i: nat)
    requires IsBuild(c, states, events) && i < |events| && events[i].Draw?
    ensures |states[i].batch| < c.batchSize
    ensures !events[i].fileExists ==>
      && states[i + 1].pc == Ending
      && |states[i + 1].batch| == |states[i].batch| + if Left(c, states[i]) > 0 then 1 else 0
    ensures !AnyEligible(states[i].store.table, ShardOf(c)) ==> !events[i].fileExists && Left(c, states[i]) == 0
  {
    var b, answer := states[i], events[i].answer;
    BuildKeepsInv(c, states, events, i);
    assert Leads(c, b, events[i], states[i + 1]);
    DrawEndsIff(c, b, answer, events[i].fileExists);
    NextArcHandsOutIffEligible(b.store, c.shard, answer, c.limit);
    SomeEligible(b.store.table, ShardOf(c));
  }

  /** At a draw, the batch so far is what the full batches leave of the rows drawn. */
  lemma BatchAtDraw(c: Config, states: seq<Builder>, events: seq<Event>, supply: seq<int>, i: nat)
    requires IsBuild(c, states, events) && Supplies(c, states, events, supply) && i < |events| && events[i].Draw?
    ensures c.batchSize > 0 && supply[i] >= Left(c, states[i])
    ensures |states[i].batch| == Remainder(supply[i] - Left(c, states[i]), c.batchSize)
  {
    DrawAt(c, states, events, i);
    var submitted := BuildAccounts(c, states, events, supply, i);
    BatchIsRemainder(c, supply[i], states[i], submitted);
  }

  // ---------- what is stranded ----------

  /** A build that is over does not touch its batch any more. */
  lemma {:induction false} OverKeepsBatch(c: Config, states: seq<Builder>, events: seq<Event>, i: nat, j: nat)
    requires IsBuild(c, states, events) && i <= j < |states| && states[i].pc in {Ending, Ended}
    ensures states[j].pc in {Ending, Ended} && states[j].batch == states[i].batch
    decreases j - i
  {
    if i == j {
    } else {
      OverKeepsBatch(c, states, events, i, j - 1);
      assert Leads(c, states[j - 1], events[j - 1], states[j]);
    }
  }

  /** Once no job is outstanding, the batch and the arcs of lost jobs are all that is RUNNING for the shard. */
  lemma BatchAndLostAreStranded(c: Config, states: seq<Builder>, events: seq<Event>, j: nat)
    requires IsBuild(c, states, events) && j < |states| && states[j].pc != AtStart && states[j].pool == []
    ensures multiset(RunningPaths(states[j].store.table, ShardOf(c))) == multiset(states[j].batch) + states[j].lost
    ensures |RunningPaths(states[j].store.table, ShardOf(c))| == |states[j].batch| + |states[j].lost|
  {
    var b := states[j];
    BuildKeepsInv(c, states, events, j);
    var running := RunningPaths(b.store.table, ShardOf(c));
    assert Held(b) == multiset(b.batch) + b.lost;
    forall p
      ensures multiset(running)[p] == Held(b)[p]
    {
      RunningPathRuns(b.store, ShardOf(c), p);
    }
    assert multiset(running) == Held(b);
    assert |multiset(running)| == |running|;
  }

  /**
   How many arcs a draw without a file strands: the rows drawn before it, modulo the batch size,
   and one more if the draw was of a row, and not the end of the rows.
   */
  ghost function StrandedBy(c: Config, b: Builder, supplied: int): nat
    requires c.batchSize > 0 && supplied >= Left(c, b)
  {
    Remainder(supplied - Left(c, b), c.batchSize) + if Left(c, b) > 0 then 1 else 0
  }

  lemma BatchAfterDraw(c: Config, states: seq<Builder>, events: seq<Event>, supply: seq<int>, i: nat)
    requires IsBuild(c, states, events) && Supplies(c, states, events, supply)
    requires i < |events| && events[i].Draw? && !events[i].fileExists
    ensures c.batchSize > 0 && supply[i] >= Left(c, states[i])
    ensures states[i + 1].pc == Ending && |states[i + 1].batch| == StrandedBy(c, states[i], supply[i])
  {
    BatchAtDraw(c, states, events, supply, i);
    DrawAt(c, states, events, i);
  }

  /** What a draw without a file strands stays stranded, next to the arcs of lost jobs. */
  lemma DrawStrands(c: Config, states: seq<Builder>, events: seq<Event>, supply: seq<int>, i: nat, j: nat)
    requires IsBuild(c, states, events) && Supplies(c, states, events, supply)
    requires i < j < |states| && states[j].pool == [] && events[i].Draw? && !events[i].fileExists
    ensures c.batchSize > 0 && supply[i] >= Left(c, states[i])
    ensures |states[j].batch| == StrandedBy(c, states[i], supply[i])
    ensures |RunningPaths(states[j].store.table, ShardOf(c))| == StrandedBy(c, states[i], supply[i]) + |states[j].lost|
  {
    BatchAfterDraw(c, states, events, supply, i);
    OverKeepsBatch(c, states, events, i + 1, j);
    BatchAndLostAreStranded(c, states, events, j);
  }

  /** A build that asks until the rows run out strands the rows modulo the batch size, and those of lost jobs. */
  lemma RunningOutStrandsRemainder(c: Config, states: seq<Builder>, events: seq<Event>, supply: seq<int>,
                                   i: nat, j: nat)
    requires IsBuild(c, states, events) && Supplies(c, states, events, supply)
    requires i < j < |states| && states[j].pool == []
    requires events[i].Draw? && !AnyEligible(states[i].store.table, ShardOf(c))
    ensures c.batchSize > 0 && supply[i] >= 0
    ensures |RunningPaths(states[j].store.table, ShardOf(c))| == supply[i] % c.batchSize + |states[j].lost|
  {
    DrawAt(c, states, events, i);
    DrawStrands(c, states, events, supply, i, j);
    RemainderIsMod(supply[i], c.batchSize);
  }

  // ---------- exactly when something is stranded ----------

  /** The build's draw i found no file with a batch begun, or for a row. */
  ghost predicate CutsShort(c: Config, states: seq<Builder>, events: seq<Event>, supply: seq<int>, i: nat) {
    && i < |states| && i < |events| && i < |supply| && events[i].Draw? && !events[i].fileExists
    && c.batchSize > 0 && supply[i] >= Left(c, states[i]) && StrandedBy(c, states[i], supply[i]) > 0
  }

  /** An exception ended the build with a batch begun. */
  ghost predicate BreaksOff(states: seq<Builder>, events: seq<Event>, i: nat) {
    i < |states| && i < |events| && events[i] == Abort && states[i].batch != []
  }

  /** A batch that goes into no job any more was cut short by a draw or an exception. */
  lemma {:induction false} OnlyDrawsCutShort(c: Config, states: seq<Builder>, events: seq<Event>, j: nat)
    returns (i: nat)
    requires IsBuild(c, states, events) && j < |states| && states[j].pc in {Ending, Ended} && states[j].batch != []
    ensures i < j && (BreaksOff(states, events, i) || (events[i].Draw? && !events[i].fileExists))
  {
    assert j > 0;
    assert Leads(c, states[j - 1], events[j - 1], states[j]);
    BuildKeepsInv(c, states, events, j - 1);
    if states[j - 1].pc in {Ending, Ended} && states[j - 1].batch != [] {
      i := OnlyDrawsCutShort(c, states, events, j - 1);
    } else {
      i := j - 1;
      if events[i].Draw? {
        DrawEndsIff(c, states[i], events[i].answer, events[i].fileExists);
      }
    }
  }

  /** The batch at the end of a build is left over exactly if a draw or an exception cut it short. */
  lemma BatchIsLeftIff(c: Config, states: seq<Builder>, events: seq<Event>, supply: seq<int>, j: nat)
    requires IsBuild(c, states, events) && Supplies(c, states, events, supply)
    requires j < |states| && states[j].pc == Ended && states[j].pool == []
    ensures states[j].batch != [] <==>
      exists i :: 0 <= i < j && (CutsShort(c, states, events, supply, i) || BreaksOff(states, events, i))
  {
    forall i | 0 <= i < j && (CutsShort(c, states, events, supply, i) || BreaksOff(states, events, i))
      ensures states[j].batch != []
    {
      if CutsShort(c, states, events, supply, i) {
        DrawStrands(c, states, events, supply, i, j);
      } else {
        assert Leads(c, states[i], events[i], states[i + 1]);
        OverKeepsBatch(c, states, events, i + 1, j);
      }
    }
    if states[j].batch != [] {
      var i := OnlyDrawsCutShort(c, states, events, j);
      if !BreaksOff(states, events, i) {
        DrawStrands(c, states, events, supply, i, j);
        assert CutsShort(c, states, events, supply, i);
      }
    }
  }

  /**
   A build that ended, after all its jobs, strands arcs exactly if it lost a job with arcs, met a
   missing file, ran out of rows whose number the batch size does not divide, or was broken off
   by an exception with a batch begun.
   */
  lemma StrandsIff(c: Config, states: seq<Builder>, events: seq<Event>, supply: seq<int>, j: nat)
    requires IsBuild(c, states, events) && Supplies(c, states, events, supply)
    requires j < |states| && states[j].pc == Ended && states[j].pool == []
    ensures RunningPaths(states[j].store.table, ShardOf(c)) != {} <==>
      || states[j].lost != multiset{}
      || exists i :: 0 <= i < j && (CutsShort(c, states, events, supply, i) || BreaksOff(states, events, i))
  {
    BatchAndLostAreStranded(c, states, events, j);
    BatchIsLeftIff(c, states, events, supply, j);
  }

  // ---------- builds in which no one else takes part ----------

  /** Neither another caller nor a lost job takes part. */
  predicate OwnEvent(e: Event) {
    !e.Elsewhere? && !e.JobIsLost?
  }

  ghost predicate IsOwnBuild(c: Config, states: seq<Builder>, events: seq<Event>) {
    IsBuild(c, states, events) && forall i :: 0 <= i < |events| ==> OwnEvent(events[i])
  }

  /** Such a build starts with clearIndexing, and it loses nothing. */
  lemma {:induction false} OwnBuildStarts(c: Config, states: seq<Builder>, events: seq<Event>, i: nat)
    requires IsOwnBuild(c, states, events) && 1 <= i < |states|
    ensures events[0] == Clear && states[i].pc != AtStart && states[i].lost == multiset{}
    ensures i > 1 ==> !events[i - 1].Clear?
  {
    assert Leads(c, states[i - 1], events[i - 1], states[i]);
    assert OwnEvent(events[i - 1]);
    if i == 1 {
    } else {
      OwnBuildStarts(c, states, events, i - 1);
    }
  }

  /** What is eligible once it has cleared the shard is all it ever draws from. */
  lemma {:induction false} OwnBuildSupply(c: Config, states: seq<Builder>, events: seq<Event>, supply: seq<int>, i: nat)
    requires IsOwnBuild(c, states, events) && Supplies(c, states, events, supply) && 1 <= i < |states|
    ensures supply[i] == Left(c, states[1])
  {
    var k := i - 1;
    OwnBuildStarts(c, states, events, i);
    assert OwnEvent(events[k]) && supply[k + 1] == supply[k] + Gain(c, states[k], events[k], states[k + 1]);
    if i == 1 {
    } else {
      OwnBuildSupply(c, states, events, supply, i - 1);
    }
  }

  // ---------- a build that strands an arc ----------

  lemma BuildGrows(c: Config, states: seq<Builder>, events: seq<Event>, e: Event)
    requires IsOwnBuild(c, states, events) && OwnEvent(e) && Enabled(c, states[|events|], e)
    ensures IsOwnBuild(c, states + [Next(c, states[|events|], e)], events + [e])
  {
    var more, all := states + [Next(c, states[|events|], e)], events + [e];
    forall i | 0 <= i < |all|
      ensures Leads(c, more[i], all[i], more[i + 1]) && OwnEvent(all[i])
    {
      if i < |events| {
        assert Leads(c, states[i], events[i], states[i + 1]);
      }
    }
  }

  /** The events of a build that finds one row and nothing after it. */
  function OneRowEvents(path: FullPath, priority: int): seq<Event> {
    [Clear, EndWait, OptimizeEnds(false, false), Limit(false), Fill,
     Draw([ArcVO(path, priority)], true), Draw([], false), End]
  }

  lemma OneRowIsDrawn(c: Config, path: FullPath, row: Row, b: Builder)
    requires ConfigOk(c) && path != NO_ARC && row.folder == path.folder && Eligible(row, ShardOf(c))
    requires b.store == Store(map[path.id := row], map[]) && b.pc == Drawing && b.batch == [] && c.batchSize >= 2
    ensures
      var e := Draw([ArcVO(path, row.priority)], true);
      var drawn := Running(row, ShardOf(c)).(priority := row.priority);
      && Enabled(c, b, e)
      && Next(c, b, e) == b.(batch := [path], store := Store(map[path.id := drawn], map[c.shard := []]))
  {
    SingleAnswer(path, row, ShardOf(c), c.limit);
    var s, list := b.store, [ArcVO(path, row.priority)];
    var r := Reloaded(s, c.shard, list);
    assert r.cache == map[c.shard := list];
    assert list[1..] == [] && [] + [path] == [path];
    assert Taken(r, c.shard).cache == map[c.shard := []];
  }

  /** The builder that is about to start on a store. */
  function Start(store: Store): Builder {
    Builder(store, Starting, AtStart, [], [], multiset{})
  }

  /** An Archon with one arc, which waits for any shard. */
  function OneRow(path: FullPath): Store {
    Store(map[path.id := Row(path.folder, NEW_PRIORITY, NEW, None)], map[])
  }

  /** The builder over that store once it is cleared, at some point of its loop. */
  function OverOneRow(path: FullPath, state: BuilderState, pc: Pc): Builder {
    Builder(OneRow(path), state, pc, [], [], multiset{})
  }

  lemma ClearsOneRow(c: Config, path: FullPath) returns (states: seq<Builder>)
    requires ConfigOk(c)
    ensures IsOwnBuild(c, states, OneRowEvents(path, NEW_PRIORITY)[..1]) && states[0] == Start(OneRow(path))
    ensures states[1] == OverOneRow(path, Checking, Waiting(0, true))
  {
    var b, e := Start(OneRow(path)), OneRowEvents(path, NEW_PRIORITY);
    assert Apply(b.store, ClearIndexing(c.shard)).0 == b.store;
    BuildGrows(c, [b], e[..0], e[0]);
    assert e[..0] + [e[0]] == e[..1];
    states := [b] + [Next(c, b, e[0])];
  }

  lemma OptimizesAtStart(c: Config, path: FullPath) returns (states: seq<Builder>)
    requires ConfigOk(c)
    ensures IsOwnBuild(c, states, OneRowEvents(path, NEW_PRIORITY)[..3]) && states[0] == Start(OneRow(path))
    ensures states[3] == OverOneRow(path, Indexing, AtLimitCheck)
  {
    var e := OneRowEvents(path, NEW_PRIORITY);
    var one := ClearsOneRow(c, path);
    BuildGrows(c, one, e[..1], e[1]);
    assert e[..1] + [e[1]] == e[..2];
    var two := one + [Next(c, one[1], e[1])];
    BuildGrows(c, two, e[..2], e[2]);
    assert e[..2] + [e[2]] == e[..3];
    states := two + [Next(c, two[2], e[2])];
  }

  lemma UpToDrawing(c: Config, path: FullPath) returns (states: seq<Builder>)
    requires ConfigOk(c) && c.maxWorkers > 0
    ensures IsOwnBuild(c, states, OneRowEvents(path, NEW_PRIORITY)[..5]) && states[0] == Start(OneRow(path))
    ensures states[5] == OverOneRow(path, Indexing, Drawing)
  {
    var e := OneRowEvents(path, NEW_PRIORITY);
    var three := OptimizesAtStart(c, path);
    BuildGrows(c, three, e[..3], e[3]);
    assert e[..3] + [e[3]] == e[..4];
    var four := three + [Next(c, three[3], e[3])];
    BuildGrows(c, four, e[..4], e[4]);
    assert e[..4] + [e[4]] == e[..5];
    states := four + [Next(c, four[4], e[4])];
  }

  lemma DrawsOneRow(c: Config, path: FullPath) returns (states: seq<Builder>)
    requires ConfigOk(c) && c.maxWorkers > 0 && c.batchSize >= 2 && path != NO_ARC
    ensures IsOwnBuild(c, states, OneRowEvents(path, NEW_PRIORITY)[..6]) && states[0] == Start(OneRow(path))
    ensures
      var row := Row(path.folder, NEW_PRIORITY, RUNNING, Some(ShardOf(c)));
      states[6] == Builder(Store(map[path.id := row], map[c.shard := []]), Indexing, Drawing, [path], [], multiset{})
  {
    var e := OneRowEvents(path, NEW_PRIORITY);
    var five := UpToDrawing(c, path);
    OneRowIsDrawn(c, path, Row(path.folder, NEW_PRIORITY, NEW, None), five[5]);
    BuildGrows(c, five, e[..5], e[5]);
    assert e[..5] + [e[5]] == e[..6];
    states := five + [Next(c, five[5], e[5])];
  }

  lemma NothingLeftToDraw(c: Config, b: Builder)
    requires ConfigOk(c) && b.pc == Drawing && |b.batch| < c.batchSize && Cached(b.store, c.shard) == []
    requires !AnyEligible(b.store.table, ShardOf(c)) && c.shard in b.store.cache
    ensures Enabled(c, b, Draw([], false)) && Next(c, b, Draw([], false)) == b.(state := Finishing, pc := Ending)
  {
    assert b.store.cache[c.shard := []] == b.store.cache;
  }

  /**
   A whole build, with no other caller and no failure: one arc was waiting, the batches have room
   for more, and so the arc is left RUNNING, in no job, when the build has ended.
   */
  lemma OneRowIsStranded(c: Config, path: FullPath) returns (states: seq<Builder>)
    requires ConfigOk(c) && c.maxWorkers > 0 && c.batchSize >= 2 && path != NO_ARC
    ensures IsOwnBuild(c, states, OneRowEvents(path, NEW_PRIORITY)) && states[0] == Start(OneRow(path))
    ensures states[8].pc == Ended && states[8].pool == []
    ensures RunningPaths(states[8].store.table, ShardOf(c)) == {path}
  {
    var e := OneRowEvents(path, NEW_PRIORITY);
    var six := DrawsOneRow(c, path);
    NothingLeftToDraw(c, six[6]);
    BuildGrows(c, six, e[..6], e[6]);
    assert e[..6] + [e[6]] == e[..7];
    var seven := six + [Next(c, six[6], e[6])];
    BuildGrows(c, seven, e[..7], e[7]);
    assert e[..7] + [e[7]] == e;
    states := seven + [Next(c, seven[7], e[7])];
    BatchAndLostAreStranded(c, states, e, 8);
    OwnBuildStarts(c, states, e, 8);
    assert states[8].batch == [path];
    assert multiset(RunningPaths(states[8].store.table, ShardOf(c))) == multiset{path};
    OnlyOne(RunningPaths(states[8].store.table, ShardOf(c)), path);
  }

  lemma OnlyOne<T>(s: set<T>, x: T)
    requires multiset(s) == multiset{x}
    ensures s == {x}
  {
    forall y
      ensures y in s <==> y == x
    {
      assert y in s <==> y in multiset(s);
    }
  }

  // ---------- the next build ----------

  /** The next build of the shard starts on the store that the one before left, not yet cleared. */
  ghost predicate IsNextBuild(c: Config, b: Builder, states: seq<Builder>, events: seq<Event>) {
    IsBuild(c, states, events) && states[0] == Start(b.store)
  }

  /** Other callers may go on between two builds; then clearIndexing comes first. */
  lemma {:induction false} RunningUntilClear(
      c: Config, b: Builder, states: seq<Builder>, events: seq<Event>, i: nat, p: FullPath)
    requires IsNextBuild(c, b, states, events) && i < |states| && states[i].pc == AtStart
    ensures IsRunning(states[i].store.table, ShardOf(c), p) <==> IsRunning(b.store.table, ShardOf(c), p)
  {
    if i == 0 {
    } else {
      assert Leads(c, states[i - 1], events[i - 1], states[i]);
      BuildKeepsInv(c, states, events, i - 1);
      RunningUntilClear(c, b, states, events, i - 1, p);
      OthersLeaveRunning(states[i - 1].store, events[i - 1].step, c.limit, ShardOf(c), p);
    }
  }

  /** Whatever state a build has reached, a next one can start on its store. */
  lemma NextBuildCanStart(c: Config, states: seq<Builder>, events: seq<Event>, last: nat)
    requires IsBuild(c, states, events) && last < |states|
    ensures IsNextBuild(c, states[last], [Start(states[last].store)], [])
  {
    BuildKeepsInv(c, states, events, last);
  }

  /**
   Once the next build has cleared the shard, all that the build before left RUNNING, however it
   ended, is up for indexing again by every shard, and nothing else is RUNNING for this one.
   */
  lemma NextBuildRecovers(c: Config, states: seq<Builder>, events: seq<Event>, last: nat,
                          states': seq<Builder>, events': seq<Event>, i: nat)
    requires IsBuild(c, states, events) && last < |states|
    requires IsNextBuild(c, states[last], states', events') && i < |events'| && events'[i] == Clear
    ensures
      var before, after := states[last].store.table, states'[i + 1].store.table;
      && RunningPaths(after, ShardOf(c)) == {}
      && forall p :: p in RunningPaths(before, ShardOf(c)) ==>
           p.id in after && Path(after, p.id) == p && forall shard :: Eligible(after[p.id], shard)
  {
    BuildKeepsInv(c, states, events, last);
    assert Leads(c, states'[i], events'[i], states'[i + 1]);
    var before, after := states[last].store.table, states'[i + 1].store.table;
    forall p | p in RunningPaths(before, ShardOf(c))
      ensures p.id in after && Path(after, p.id) == p && forall shard :: Eligible(after[p.id], shard)
    {
      RunningPathRuns(states[last].store, ShardOf(c), p);
      RunningUntilClear(c, states[last], states', events', i, p);
    }
  }
}
