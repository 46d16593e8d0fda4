/** Hand-outs come best first: the batched caches behave like one priority queue over the table. */
module ArchonQueue {
  import opened Wrappers
  import opened ArcPath
  import opened Archon
  import opened ArchonSafety
  import opened ArchonHandOuts
  import opened ArchonReplies
  import Runs

  // ---------- best first ----------

  /** The cache of k is what the query would answer now, cut off at some point. */
  ghost predicate SharpAt(s: Store, k: string) {
    k in s.cache ==>
      && ParseInt(k).Some?
      && (forall e :: e in s.cache[k] ==> FromRow(s.table, ParseInt(k).value, e))
      && BestFirst(s.table, ParseInt(k).value, s.cache[k])
  }

  /** Taking a head drops at most one entry from each cache and keeps the order of the rest. */
  lemma TakenList(s: Store, shard: string, k: string) returns (i: nat)
    requires Consistent(s) && shard in s.cache && s.cache[shard] != [] && k in s.cache
    ensures i <= |s.cache[k]|
    ensures i == |s.cache[k]| ==> Taken(s, shard).cache[k] == s.cache[k]
    ensures i < |s.cache[k]| ==>
      s.cache[k][i].fileName == s.cache[shard][0].fileName && Taken(s, shard).cache[k] == Without(s.cache[k], i)
  {
    var path := s.cache[shard][0].fileName;
    if k == shard {
      var j := RemoveFirstAt(s.cache[k][1..], path);
      forall a | 0 <= a < |s.cache[k][1..]|
        ensures s.cache[k][1..][a].fileName != path
      {
        assert s.cache[k][0].fileName.id != s.cache[k][a + 1].fileName.id;
      }
      i := 0;
    } else {
      i := RemoveFirstAt(s.cache[k], path);
    }
  }

  lemma WithoutStillOrdered(table: map<string, Row>, shard: int, list: seq<ArcVO>, i: nat, row: Row, a: nat, b: nat)
    requires BestFirst(table, shard, list) && Distinct(list) && i < |list| && a < b < |list| - 1
    ensures Ranked(table[list[i].fileName.id := row], Without(list, i)[a].fileName.id, Without(list, i)[b].fileName.id)
  {
    var a', b' := if a < i then a else a + 1, if b < i then b else b + 1;
    assert Without(list, i)[a] == list[a'] && Without(list, i)[b] == list[b'];
    assert Ranked(table, list[a'].fileName.id, list[b'].fileName.id);
    OthersListed(list, i, a');
    OthersListed(list, i, b');
  }

  lemma OthersListed(list: seq<ArcVO>, i: nat, j: nat)
    requires Distinct(list) && i < |list| && j < |list| && i != j
    ensures list[i].fileName.id != list[j].fileName.id
  {
  }

  lemma WithoutKeepsListed(list: seq<ArcVO>, i: nat, b: nat)
    requires i < |list| && b < |list| && b != i
    ensures Lists(Without(list, i), list[b].fileName.id)
  {
    var a := if b < i then b else b - 1;
    assert Without(list, i)[a] == list[b];
  }

  lemma WithoutListsNoMore(list: seq<ArcVO>, i: nat, a: nat)
    requires i < |list| && a < |list| - 1
    ensures Lists(list, Without(list, i)[a].fileName.id)
  {
    var b := if a < i then a else a + 1;
    assert list[b] == Without(list, i)[a];
  }

  lemma WithoutLists(list: seq<ArcVO>, i: nat, id: string)
    requires i < |list| && id != list[i].fileName.id
    ensures Lists(Without(list, i), id) <==> Lists(list, id)
  {
    if Lists(list, id) {
      var b :| 0 <= b < |list| && list[b].fileName.id == id;
      WithoutKeepsListed(list, i, b);
    }
    if Lists(Without(list, i), id) {
      var a :| 0 <= a < |Without(list, i)| && Without(list, i)[a].fileName.id == id;
      WithoutListsNoMore(list, i, a);
    }
  }

  lemma WithoutStillBest(table: map<string, Row>, shard: int, list: seq<ArcVO>, i: nat, row: Row)
    requires BestFirst(table, shard, list) && Distinct(list) && i < |list| && !Eligible(row, shard)
    ensures BestFirst(table[list[i].fileName.id := row], shard, Without(list, i))
  {
    var rest, id := Without(list, i), list[i].fileName.id;
    var t := table[id := row];
    forall a, b | 0 <= a < b < |rest|
      ensures Ranked(t, rest[a].fileName.id, rest[b].fileName.id)
    {
      WithoutStillOrdered(table, shard, list, i, row, a, b);
    }
    forall a, other | 0 <= a < |rest| && other in t && Eligible(t[other], shard) && !Lists(rest, other)
      ensures Ranked(t, rest[a].fileName.id, other)
    {
      var a' := if a < i then a else a + 1;
      WithoutLists(list, i, other);
      OthersListed(list, i, a');
      assert Ranked(table, list[a'].fileName.id, other);
    }
  }

  lemma UnlistedStillBest(table: map<string, Row>, shard: int, list: seq<ArcVO>, id: string, row: Row)
    requires BestFirst(table, shard, list) && !Lists(list, id) && !Eligible(row, shard)
    ensures BestFirst(table[id := row], shard, list)
  {
    var t := table[id := row];
    forall a, b | 0 <= a < b < |list|
      ensures Ranked(t, list[a].fileName.id, list[b].fileName.id)
    {
      assert Ranked(table, list[a].fileName.id, list[b].fileName.id);
      assert list[a].fileName.id != id && list[b].fileName.id != id;
    }
    forall a, other | 0 <= a < |list| && other in t && Eligible(t[other], shard) && !Lists(list, other)
      ensures Ranked(t, list[a].fileName.id, other)
    {
      assert Ranked(table, list[a].fileName.id, other);
      assert list[a].fileName.id != id;
    }
  }

  lemma TakenKeepsSharp(s: Store, shard: string, row: Row, k: string)
    requires Consistent(s) && SharpAt(s, k) && shard in s.cache && s.cache[shard] != [] && row.state != NEW
    requires s.cache[shard][0].fileName.id in s.table
    ensures SharpAt(Store(s.table[s.cache[shard][0].fileName.id := row], Taken(s, shard).cache), k)
  {
    TakenCaches(s, shard);
    TakenIsGone(s, shard);
    var t := Taken(s, shard);
    if k in t.cache {
      var id, n, list := s.cache[shard][0].fileName.id, ParseInt(k).value, t.cache[k];
      forall e | e in list
        ensures FromRow(s.table[id := row], n, e)
      {
        assert InCache(t, k, e) && InCache(s, k, e) && FromRow(s.table, n, e);
      }
      var i := TakenList(s, shard, k);
      if i < |s.cache[k]| {
        WithoutStillBest(s.table, n, s.cache[k], i, row);
      } else {
        assert !Lists(list, id) by {
          forall j | 0 <= j < |list|
            ensures list[j].fileName.id != id
          {
            assert InCache(t, k, list[j]);
          }
        }
        UnlistedStillBest(s.table, n, list, id, row);
      }
    }
  }

  lemma NextArcKeepsSharp(s: Store, step: Step, limit: nat, k: string)
    requires step.NextArcStep? && Consistent(s) && Fresh(s) && Answered(s, step, limit) && SharpAt(s, k)
    ensures SharpAt(Apply(s, step).0, k)
  {
    var shard := step.shard;
    if ParseInt(shard).Some? || Cached(s, shard) != [] {
      ReloadKeepsConsistent(s, shard, step.answer, limit);
      var r := Reloaded(s, shard, step.answer);
      assert SharpAt(r, k);
      if r.cache[shard] != [] {
        var id := r.cache[shard][0].fileName.id;
        var t := Apply(s, step).0;
        HeadOffered(s, shard, step.answer, limit);
        TakenKeepsSharp(r, shard, t.table[id], k);
      }
    }
  }

  // ---------- one unbatched priority queue ----------

  /** The row is up for indexing, and is the shard's own or nobody's. */
  predicate Waits(row: Row, shard: int) {
    row.state == NEW && (row.shard == Some(shard) || row.shard == None)
  }

  /** The first row is the shard's own if the second is, and of two alike it has the priority. */
  predicate Precedes(shard: int, a: Row, b: Row) {
    (b.shard == Some(shard) ==> a.shard == Some(shard)) && (a.shard == b.shard ==> a.priority >= b.priority)
  }

  /** An unbatched queue hands out a best waiting row and marks it as running. */
  ghost predicate Pops(table: map<string, Row>, shard: int, id: string, after: map<string, Row>) {
    && id in table && Waits(table[id], shard)
    && (forall other :: other in table && Waits(table[other], shard) ==> Precedes(shard, table[id], table[other]))
    && after == table[id := table[id].(shard := Some(shard), state := RUNNING)]
  }

  /** The unbatched queue's reply to one request. */
  ghost predicate Serves(table: map<string, Row>, shard: int, reply: Option<string>, after: map<string, Row>) {
    match reply
    case Some(id) => Pops(table, shard, id, after)
    case None => (forall id :: id in table ==> !Waits(table[id], shard)) && after == table
  }

  /** The order of the query, among the rows it asks for. */
  lemma OrderMeans(shard: int, a: Row, b: Row)
    requires Eligible(a, shard) && Eligible(b, shard)
    ensures Waits(a, shard) && (Before(a, b) <==> Precedes(shard, a, b))
  {
  }

  lemma HeadIsBest(table: map<string, Row>, shard: int, list: seq<ArcVO>, other: string)
    requires list != [] && BestFirst(table, shard, list)
    requires forall e :: e in list ==> FromRow(table, shard, e)
    requires other in table && Eligible(table[other], shard)
    ensures Ranked(table, list[0].fileName.id, other)
  {
    assert FromRow(table, shard, list[0]);
    if Lists(list, other) {
      var i :| 0 <= i < |list| && list[i].fileName.id == other;
      assert i > 0 ==> Ranked(table, list[0].fileName.id, list[i].fileName.id);
    } else {
      assert Ranked(table, list[0].fileName.id, other);
    }
  }

  /** Whatever the priorities, an answer starts with a row of the shard's own while there is one waiting. */
  lemma OwnRowComesFirst(table: map<string, Row>, shard: int, k: nat, list: seq<ArcVO>, own: string)
    requires IsAnswer(table, shard, k, list) && k > 0
    requires own in table && table[own].state == NEW && table[own].shard == Some(shard)
    ensures list != [] && list[0].fileName.id in table && table[list[0].fileName.id].shard == Some(shard)
  {
    assert Eligible(table[own], shard);
    assert |list| < k ==> Lists(list, own);
    HeadIsBest(table, shard, list, own);
    assert FromRow(table, shard, list[0]);
  }

  lemma HandOutUpdatesRow(s: Store, step: Step, k: nat)
    requires step.NextArcStep? && ParseInt(step.shard).Some?
    requires Consistent(s) && Fresh(s) && Answered(s, step, k) && SharpAt(s, step.shard)
    requires Reloaded(s, step.shard, step.answer).cache[step.shard] != []
    ensures
      var id := Reloaded(s, step.shard, step.answer).cache[step.shard][0].fileName.id;
      && id in s.table
      && Apply(s, step).0.table == s.table[id := Running(s.table[id], ParseInt(step.shard).value)]
  {
    HeadOffered(s, step.shard, step.answer, k);
    assert FromRow(s.table, ParseInt(step.shard).value, Reloaded(s, step.shard, step.answer).cache[step.shard][0]);
  }

  /** One nextARC on the batched caches is one step of the unbatched queue. */
  lemma NextArcRefinesQueue(s: Store, step: Step, k: nat)
    requires step.NextArcStep? && ParseInt(step.shard).Some? && k > 0
    requires Consistent(s) && Fresh(s) && Answered(s, step, k) && SharpAt(s, step.shard)
    ensures Serves(s.table, ParseInt(step.shard).value, HandsOut(s, step), Apply(s, step).0.table)
  {
    var shard, n := step.shard, ParseInt(step.shard).value;
    NextArcHandsOutIffEligible(s, shard, step.answer, k);
    if HandsOut(s, step).Some? {
      var list := Reloaded(s, shard, step.answer).cache[shard];
      HandOutUpdatesRow(s, step, k);
      assert BestFirst(s.table, n, list);
      var id := HandsOut(s, step).value;
      forall other | other in s.table && Waits(s.table[other], n)
        ensures Precedes(n, s.table[id], s.table[other])
      {
        HeadIsBest(s.table, n, list, other);
        OrderMeans(n, s.table[id], s.table[other]);
      }
    }
  }

  /** A run of nextARC calls by any shards. */
  ghost predicate IsNextArcRun(states: seq<Store>, steps: seq<Step>, k: nat) {
    && Runs.IsRun((s, e: Step, t) => e.NextArcStep? && Follows(s, e, t, k), states, steps)
    && Consistent(states[0]) && Fresh(states[0])
  }

  /** Between nextARC calls, a sharp cache stays sharp. */
  lemma RunStaysSharp(states: seq<Store>, steps: seq<Step>, k: nat, i: nat, shard: string)
    requires IsNextArcRun(states, steps, k) && i < |states| && SharpAt(states[0], shard)
    ensures Consistent(states[i]) && Fresh(states[i]) && SharpAt(states[i], shard)
  {
    var next := (s, e: Step, t) => e.NextArcStep? && Follows(s, e, t, k);
    var inv := s => Consistent(s) && Fresh(s) && SharpAt(s, shard);
    forall s, e, t | inv(s) && next(s, e, t)
      ensures inv(t)
    {
      ApplyKeepsConsistent(s, e, k);
      ApplyKeepsFresh(s, e, k);
      NextArcKeepsSharp(s, e, k, shard);
    }
    Runs.KeptBetween(next, inv, states, steps, 0, i);
  }

  /** However the shards take turns, from empty caches every hand-out is a best eligible row. */
  lemma InterleavedShardsRefineQueue(states: seq<Store>, steps: seq<Step>, k: nat, i: nat)
    requires IsNextArcRun(states, steps, k) && k > 0 && states[0].cache == map[]
    requires i < |steps| && steps[i].NextArcStep? && ParseInt(steps[i].shard).Some?
    ensures Serves(states[i].table, ParseInt(steps[i].shard).value, HandsOut(states[i], steps[i]), states[i + 1].table)
  {
    RunStaysSharp(states, steps, k, i, steps[i].shard);
    assert Follows(states[i], steps[i], states[i + 1], k);
    NextArcRefinesQueue(states[i], steps[i], k);
  }

  // ---------- the query always has an answer ----------

  /** Some id of a non-empty set has a row that the query puts first. */
  lemma {:induction false} FirstOf(table: map<string, Row>, ids: set<string>) returns (best: string)
    requires ids != {} && ids <= table.Keys
    ensures best in ids && forall id :: id in ids ==> Before(table[best], table[id])
    decreases |ids|
  {
    var id :| id in ids;
    best := id;
    if ids == {id} {
    } else {
      var other := FirstOf(table, ids - {id});
      best := if Before(table[id], table[other]) then id else other;
    }
  }

  lemma {:induction false} AnswerExists(table: map<string, Row>, shard: int, k: nat) returns (list: seq<ArcVO>)
    ensures IsAnswer(table, shard, k, list)
  {
    list := [];
    if k == 0 {
    } else {
      list := AnswerExists(table, shard, k - 1);
      var rest := set id | id in table && Eligible(table[id], shard) && !Lists(list, id);
      if rest != {} {
        var best := FirstOf(table, rest);
        AppendBest(table, shard, k - 1, list, ArcVO(Path(table, best), table[best].priority));
        list := list + [ArcVO(Path(table, best), table[best].priority)];
      } else {
        forall id | id in table && Eligible(table[id], shard)
          ensures Lists(list, id)
        {
          assert id !in rest;
        }
      }
    }
  }

  lemma AppendBest(table: map<string, Row>, shard: int, k: nat, list: seq<ArcVO>, e: ArcVO)
    requires IsAnswer(table, shard, k, list) && FromRow(table, shard, e) && !Lists(list, e.fileName.id)
    requires forall id :: id in table && Eligible(table[id], shard) && !Lists(list, id) ==>
      Ranked(table, e.fileName.id, id)
    ensures IsAnswer(table, shard, k + 1, list + [e])
  {
    var l := list + [e];
    forall id
      ensures Lists(l, id) <==> Lists(list, id) || id == e.fileName.id
    {
      if Lists(list, id) {
        var i :| 0 <= i < |list| && list[i].fileName.id == id;
        assert l[i] == list[i];
      }
      assert l[|list|] == e;
    }
    AppendBestFirst(table, shard, list, e);
  }

  lemma AppendBestFirst(table: map<string, Row>, shard: int, list: seq<ArcVO>, e: ArcVO)
    requires BestFirst(table, shard, list) && FromRow(table, shard, e) && !Lists(list, e.fileName.id)
    requires forall id :: id in table && Eligible(table[id], shard) && !Lists(list, id) ==>
      Ranked(table, e.fileName.id, id)
    requires forall id :: Lists(list + [e], id) <==> Lists(list, id) || id == e.fileName.id
    ensures BestFirst(table, shard, list + [e])
  {
    var l := list + [e];
    forall i, j | 0 <= i < j < |l|
      ensures Ranked(table, l[i].fileName.id, l[j].fileName.id)
    {
      if j == |list| {
        assert Ranked(table, list[i].fileName.id, e.fileName.id);
      }
    }
  }
}
