/**
 The index builder as a state machine over the store: the thread of `buildIndex`, the workers
 of its pool, and everybody else who calls Archon, one atomic step at a time.
 */
module IndexBuilder {
  import opened Wrappers
  import opened ArcPath
  import opened Archon
  import opened ArchonSafety
  import opened ArchonHandOuts
  import opened ArchonReplies
  import opened Retries
  import Runs

  datatype BuilderState = Starting | Indexing | Checking | Optimizing | Finishing

  /** Where the thread of buildIndex is; `first` marks the check before the main loop. */
  datatype Pc =
    | AtStart
    | Waiting(emptyRun: nat, first: bool)
    | InOptimize(first: bool)
    | AtLimitCheck
    | Filling
    | Drawing
    | Polling
    | Ending
    | Ended

  datatype Config = Config(shard: string, maxWorkers: int, batchSize: nat, tries: int, limit: nat)

  /** A job in the pool: its arcs, by path, and how often it was tried again. */
  datatype Job = Job(arcs: set<FullPath>, errors: nat)

  /** `lost` holds the arcs of jobs whose end was an error that taskFinished only logs. */
  datatype Builder = Builder(
    store: Store, state: BuilderState, pc: Pc, batch: seq<FullPath>, pool: seq<Job>, lost: multiset<FullPath>)

  ghost predicate ConfigOk(c: Config) {
    ParseInt(c.shard).Some? && c.limit > 0
  }

  datatype Event =
    | Clear
    | Wait
    | EndWait
    | OptimizeEnds(tooLarge: bool, finished: bool)
    | Limit(reached: bool)
    | Fill
    | Draw(answer: seq<ArcVO>, fileExists: bool)
    | Submit
    | Poll(timeout: bool)
    | End
    | Abort
    | JobEnds(job: nat, statuses: map<FullPath, ArcState>, after: Store)
    | JobIsLost(job: nat)
    | Elsewhere(step: Step)

  function ShardOf(c: Config): int {
    if ParseInt(c.shard).Some? then ParseInt(c.shard).value else 0
  }

  // ---------- taskFinished ----------

  /** The row has the state reported for one of its arcs, or is as it was if none was reported. */
  ghost predicate ReportedRow<A(!new)>(
      idOf: A -> string, before: Store, statuses: map<A, ArcState>, reported: set<A>, after: Store, id: string)
    requires id in before.table
  {
    id in after.table &&
    if exists a :: a in reported && idOf(a) == id then
      exists a :: a in reported && a in statuses && idOf(a) == id
                  && after.table[id] == before.table[id].(state := statuses[a])
    else after.table[id] == before.table[id]
  }

  /** In `after`, every reported arc has the state that was reported, and nothing else changed. */
  ghost predicate ReportsTo<A(!new)>(
      idOf: A -> string, before: Store, statuses: map<A, ArcState>, reported: set<A>, after: Store)
  {
    && after.cache == before.cache && after.table.Keys == before.table.Keys
    && (forall a :: a in reported ==> idOf(a) in before.table)
    && forall id :: id in before.table ==> ReportedRow(idOf, before, statuses, reported, after, id)
  }

  function IdOf(p: FullPath): string {
    p.id
  }

  /** The round that ends while the builder's state decides, in one atomic step, about retries. */
  function RoundOf(b: Builder, statuses: map<FullPath, ArcState>): Round<FullPath> {
    Round(statuses, if b.state == Indexing then statuses.Keys else {})
  }

  function Resubmitted(pool: seq<Job>, i: nat, retried: set<FullPath>): seq<Job>
    requires i < |pool|
  {
    var rest := pool[..i] + pool[i + 1..];
    if retried == {} then rest else rest + [Job(retried, pool[i].errors + 1)]
  }

  // ---------- other callers ----------

  ghost predicate IsRunning(table: map<string, Row>, shard: int, path: FullPath) {
    && path.id in table && path == Path(table, path.id)
    && table[path.id].state == RUNNING && table[path.id].shard == Some(shard)
  }

  ghost predicate RowRuns(table: map<string, Row>, shard: int, id: string) {
    id in table && table[id].state == RUNNING && table[id].shard == Some(shard)
  }

  /** The call is made for this shard, or concerns an arc that this shard is working on. */
  ghost predicate Meddles(s: Store, shard: int, step: Step) {
    match step
    case NextArcStep(other, _) => ParseInt(other) == Some(shard)
    case AddArc(_) => false
    case AddOrUpdateArc(path) => RowRuns(s.table, shard, path.id)
    case SetArcState(path, state) =>
      path.id in s.table && s.table[path.id].shard == Some(shard) &&
      (s.table[path.id].state == RUNNING || state == RUNNING)
    case SetArcProperties(path, other, _, _) => RowRuns(s.table, shard, path.id) || ParseInt(other) == Some(shard)
    case SetArcPriority(_, _) => false
    case ResetArc(path, _) => RowRuns(s.table, shard, path.id)
    case RemoveArc(id) => RowRuns(s.table, shard, id)
    case ClearIndexing(other) => ParseInt(other) == Some(shard)
    case ResetShard(other) => ParseInt(other) == Some(shard)
  }

  // ---------- steps ----------

  ghost predicate Enabled(c: Config, b: Builder, e: Event) {
    match e
    case Clear => b.pc == AtStart
    case Wait => b.pc.Waiting? && b.pc.emptyRun < c.tries && b.pool != []
    case EndWait => b.pc.Waiting? && !(b.pc.emptyRun < c.tries && b.pool != [])
    case OptimizeEnds(_, _) => b.pc.InOptimize?
    case Limit(_) => b.pc == AtLimitCheck
    case Fill => b.pc == Filling
    case Draw(answer, fileExists) =>
      && b.pc == Drawing && |b.batch| < c.batchSize
      && Answered(b.store, NextArcStep(c.shard, answer), c.limit)
      // the empty path names no file
      && (Apply(b.store, NextArcStep(c.shard, answer)).1 == Arc(NO_ARC) ==> !fileExists)
    case Submit => b.pc == Drawing && |b.batch| >= c.batchSize
    case Poll(_) => b.pc == Polling
    case End => b.pc == Ending
    // an exception ends the build; before Clear there is nothing of it to end
    case Abort => b.pc !in {AtStart, Ended}
    case JobEnds(i, statuses, after) =>
      && i < |b.pool| && statuses.Keys == b.pool[i].arcs && Terminal(statuses)
      && ReportsTo(IdOf, b.store, statuses, Reported(RoundOf(b, statuses), b.pool[i].errors, c.tries), after)
    case JobIsLost(i) => i < |b.pool|
    case Elsewhere(step) =>
      && Answered(b.store, step, c.limit)
      && !Relocates(b.store, step) && !Disturbs(b.store, step) && !Meddles(b.store, ShardOf(c), step)
  }

  ghost function AfterDraw(c: Config, b: Builder, answer: seq<ArcVO>, fileExists: bool): Builder {
    var step := NextArcStep(c.shard, answer);
    var (store, reply) := Apply(b.store, step);
    var drawn := if HandsOut(b.store, step).Some? && reply.Arc? then b.batch + [reply.path] else b.batch;
    if reply == Refused then b.(store := store, pc := Ended)
    else if fileExists then b.(store := store, batch := drawn)
    else b.(store := store, batch := drawn, state := Finishing, pc := Ending)
  }

  ghost function Next(c: Config, b: Builder, e: Event): Builder
    requires Enabled(c, b, e)
  {
    match e
    case Clear =>
      b.(store := Apply(b.store, ClearIndexing(c.shard)).0, state := Checking, pc := Waiting(0, true))
    case Wait => b.(pc := Waiting(b.pc.emptyRun + 1, b.pc.first))
    case EndWait =>
      if b.pool != [] then b.(state := Finishing, pc := if b.pc.first then Ended else Ending)
      else b.(state := Optimizing, pc := InOptimize(b.pc.first))
    case OptimizeEnds(tooLarge, finished) =>
      if tooLarge then b.(state := Finishing, pc := Ended)
      else if finished then b.(state := Finishing, pc := if b.pc.first then Ended else Ending)
      else b.(state := Indexing, pc := AtLimitCheck)
    case Limit(reached) => if reached then b.(state := Checking, pc := Waiting(0, false)) else b.(pc := Filling)
    case Fill =>
      if |b.pool| >= c.maxWorkers then b.(pc := Polling)
      else if b.state != Indexing then b.(state := Finishing, pc := Ending) // "Cannot start new workers"
      else b.(pc := Drawing)
    case Draw(answer, fileExists) => AfterDraw(c, b, answer, fileExists)
    case Submit =>
      if b.batch == [] then b.(state := Finishing, pc := Ending)
      else b.(pool := b.pool + [Job(set a | a in b.batch, 0)], batch := [], pc := Filling)
    case Poll(timeout) => if timeout then b.(state := Finishing, pc := Ending) else b.(pc := AtLimitCheck)
    case End => b.(pc := Ended)
    case Abort => b.(pc := Ended)
    case JobEnds(i, statuses, after) =>
      b.(store := after,
         pool := Resubmitted(b.pool, i, Retried(RoundOf(b, statuses), b.pool[i].errors, c.tries)))
    case JobIsLost(i) =>
      b.(pool := Resubmitted(b.pool, i, {}), lost := b.lost + multiset(b.pool[i].arcs))
    case Elsewhere(step) => b.(store := Apply(b.store, step).0)
  }

  /** A builder that is about to start on a store that other runs left consistent. */
  ghost predicate Fresh0(b: Builder) {
    && b.state == Starting && b.pc == AtStart && b.batch == [] && b.pool == [] && b.lost == multiset{}
    && Consistent(b.store) && Fresh(b.store)
  }

  ghost predicate Leads(c: Config, b: Builder, e: Event, t: Builder) {
    Enabled(c, b, e) && t == Next(c, b, e)
  }

  ghost predicate IsBuild(c: Config, states: seq<Builder>, events: seq<Event>) {
    && ConfigOk(c)
    && Runs.IsRun((b, e, t) => Leads(c, b, e, t), states, events)
    && Fresh0(states[0])
  }
}
