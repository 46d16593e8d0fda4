/**
 The job table of Archon and the per-shard caches in front of it, as values.  Each function
 is one call on the storage layer; a call that throws replies `Refused`.
 */
module Archon {
  import opened Wrappers
  import opened ArcPath

  datatype ArcState = NEW | RUNNING | COMPLETED | REJECTED

  datatype Row = Row(folder: string, priority: int, state: ArcState, shard: Option<int>)

  /** What the cache keeps of a row; two are equal in the program when their paths are. */
  datatype ArcVO = ArcVO(fileName: FullPath, priority: int)

  /** `table` is keyed by file id, `cache` by the text of the shard id. */
  datatype Store = Store(table: map<string, Row>, cache: map<string, seq<ArcVO>>)

  datatype Reply = Done | Arc(path: FullPath) | Refused

  const NEW_PRIORITY := 5

  // ---------- the query behind a cache ----------

  predicate Eligible(row: Row, shard: int) {
    row.state == NEW && (row.shard == Some(shard) || row.shard == None)
  }

  /** ORDER BY shard id ascending with nulls last, then priority descending. */
  predicate Before(a: Row, b: Row) {
    if a.shard == b.shard then a.priority >= b.priority
    else a.shard.Some? && (b.shard.Some? ==> a.shard.value < b.shard.value)
  }

  function Path(table: map<string, Row>, id: string): FullPath
    requires id in table
  {
    FullPath(table[id].folder, id)
  }

  ghost predicate Lists(list: seq<ArcVO>, id: string) {
    exists i :: 0 <= i < |list| && list[i].fileName.id == id
  }

  /** Entry e is what createArcVOFromRS makes of an eligible row. */
  ghost predicate FromRow(table: map<string, Row>, shard: int, e: ArcVO) {
    && e.fileName.id in table
    && Eligible(table[e.fileName.id], shard)
    && e.fileName == Path(table, e.fileName.id)
    && e.priority == table[e.fileName.id].priority
  }

  /** Each arc is listed at most once. */
  ghost predicate Distinct(list: seq<ArcVO>) {
    forall i, j :: 0 <= i < j < |list| ==> list[i].fileName.id != list[j].fileName.id
  }

  ghost predicate Ranked(table: map<string, Row>, a: string, b: string) {
    a in table && b in table ==> Before(table[a], table[b])
  }

  /** The list follows the query's order, and no row outside it belongs before one inside it. */
  ghost predicate BestFirst(table: map<string, Row>, shard: int, list: seq<ArcVO>) {
    && (forall i, j :: 0 <= i < j < |list| ==> Ranked(table, list[i].fileName.id, list[j].fileName.id))
    && (forall i, id :: 0 <= i < |list| && id in table && Eligible(table[id], shard) && !Lists(list, id) ==>
          Ranked(table, list[i].fileName.id, id))
  }

  /** A result of selectNextArcQuery with LIMIT k; ties may come in any order. */
  ghost predicate IsAnswer(table: map<string, Row>, shard: int, k: nat, list: seq<ArcVO>) {
    && (forall e :: e in list ==> FromRow(table, shard, e))
    && Distinct(list)
    && BestFirst(table, shard, list)
    && |list| <= k
    && (|list| < k ==> forall id :: id in table && Eligible(table[id], shard) ==> Lists(list, id))
  }

  // ---------- the calls ----------

  function RemoveFirst(list: seq<ArcVO>, path: FullPath): seq<ArcVO> {
    if list == [] then []
    else if list[0].fileName == path then list[1..]
    else [list[0]] + RemoveFirst(list[1..], path)
  }

  function SetProperties(s: Store, path: FullPath, shard: string, state: ArcState, priority: int): (Store, Reply) {
    var id := path.id;
    if id !in s.table || ParseInt(shard).None? then (s, Refused)
    else
      var row := s.table[id].(shard := ParseInt(shard), state := state, priority := priority);
      (s.(table := s.table[id := row]), Done)
  }

  function Cached(s: Store, shard: string): seq<ArcVO> {
    if shard in s.cache then s.cache[shard] else []
  }

  /** The store after an empty cache was filled; `answer` is what the database returned. */
  function Reloaded(s: Store, shard: string, answer: seq<ArcVO>): Store {
    if Cached(s, shard) == [] then s.(cache := s.cache[shard := answer]) else s
  }

  /** The head of a shard's cache leaves that cache, and then once more every cache. */
  function Taken(s: Store, shard: string): Store
    requires shard in s.cache && s.cache[shard] != []
  {
    var head := s.cache[shard][0];
    var popped := s.cache[shard := s.cache[shard][1..]];
    s.(cache := map k | k in popped :: RemoveFirst(popped[k], head.fileName))
  }

  function NextArc(s: Store, shard: string, answer: seq<ArcVO>): (Store, Reply) {
    if Cached(s, shard) == [] && ParseInt(shard).None? then (s, Refused)
    else
      var r := Reloaded(s, shard, answer);
      if r.cache[shard] == [] then (r, Arc(NO_ARC))
      else
        var head := r.cache[shard][0];
        var (t, reply) := SetProperties(Taken(r, shard), head.fileName, shard, RUNNING, head.priority);
        (t, if reply == Refused then Refused else Arc(head.fileName))
  }

  function Insert(s: Store, path: FullPath): Store {
    s.(table := s.table[path.id := Row(path.folder, NEW_PRIORITY, NEW, None)])
  }

  function Update(s: Store, path: FullPath, f: Row -> Row): (Store, Reply) {
    var id := path.id;
    if id !in s.table then (s, Refused) else (s.(table := s.table[id := f(s.table[id])]), Done)
  }

  function UpdateShard(s: Store, shard: string, f: (int, Row) -> Row): (Store, Reply) {
    match ParseInt(shard)
    case None => (s, Refused)
    case Some(n) => (s.(table := map id | id in s.table :: f(n, s.table[id])), Done)
  }

  datatype Step =
    | NextArcStep(shard: string, answer: seq<ArcVO>)
    | AddArc(path: FullPath)
    | AddOrUpdateArc(path: FullPath)
    | SetArcState(path: FullPath, state: ArcState)
    | SetArcProperties(path: FullPath, shard: string, state: ArcState, priority: int)
    | SetArcPriority(path: FullPath, priority: int)
    | ResetArc(path: FullPath, priority: int)
    | RemoveArc(id: string)
    | ClearIndexing(shard: string)
    | ResetShard(shard: string)

  function Apply(s: Store, step: Step): (Store, Reply) {
    match step
    case NextArcStep(shard, answer) => NextArc(s, shard, answer)
    case AddArc(path) =>
      if path.id in s.table then (s, Refused) else (Insert(s, path), Done)
    case AddOrUpdateArc(path) =>
      if path.id in s.table then Update(s, path, (r: Row) => r.(folder := path.folder)) else (Insert(s, path), Done)
    case SetArcState(path, state) => Update(s, path, (r: Row) => r.(state := state))
    case SetArcProperties(path, shard, state, priority) => SetProperties(s, path, shard, state, priority)
    case SetArcPriority(path, priority) => Update(s, path, (r: Row) => r.(priority := priority))
    case ResetArc(path, priority) => Update(s, path, (r: Row) => r.(priority := priority, state := NEW, shard := None))
    case RemoveArc(id) => if id !in s.table then (s, Refused) else (s.(table := s.table - {id}), Done)
    case ClearIndexing(shard) =>
      UpdateShard(s, shard, (n: int, r: Row) =>
        if r.shard == Some(n) && r.state == RUNNING then r.(state := NEW, shard := None) else r)
    case ResetShard(shard) =>
      UpdateShard(s, shard, (n: int, r: Row) => if r.shard == Some(n) then r.(state := NEW) else r)
  }

  /** The database answers a reload with a result of its query. */
  ghost predicate Answered(s: Store, step: Step, k: nat) {
    step.NextArcStep? && Cached(s, step.shard) == [] && ParseInt(step.shard).Some? ==>
      IsAnswer(s.table, ParseInt(step.shard).value, k, step.answer)
  }

  /** The arc that a step hands out to a worker. */
  function HandsOut(s: Store, step: Step): Option<string> {
    if step.NextArcStep? && (Cached(s, step.shard) != [] || ParseInt(step.shard).Some?) then
      var r := Reloaded(s, step.shard, step.answer);
      if r.cache[step.shard] != [] && Apply(s, step).1 != Refused then
        Some(r.cache[step.shard][0].fileName.id)
      else None
    else None
  }
}
