/** What one shard gets when it asks for arcs until there are none left. */
module ArchonDrain {
  import opened Wrappers
  import opened ArcPath
  import opened Archon
  import opened ArchonSafety
  import opened ArchonHandOuts
  import opened ArchonQueue
  import opened ArchonReplies

  function EligibleIds(table: map<string, Row>, shard: int): set<string> {
    set id | id in table && Eligible(table[id], shard)
  }

  /** A run of the unbatched queue for one shard. */
  ghost predicate IsDrain(tables: seq<map<string, Row>>, replies: seq<Option<string>>, shard: int) {
    && |tables| == |replies| + 1
    && forall i {:trigger replies[i]} :: 0 <= i < |replies| ==> Serves(tables[i], shard, replies[i], tables[i + 1])
  }

  /** Handing out an arc removes just that arc from the eligible ones. */
  lemma PopShrinks(table: map<string, Row>, shard: int, id: string, after: map<string, Row>)
    requires Pops(table, shard, id, after)
    ensures EligibleIds(after, shard) == EligibleIds(table, shard) - {id}
  {
  }

  /** Rows that are still eligible are as they were at the start. */
  lemma {:induction false} EligibleUnchanged(
      tables: seq<map<string, Row>>, replies: seq<Option<string>>, shard: int, i: nat, id: string)
    requires IsDrain(tables, replies, shard) && i < |tables|
    requires id in EligibleIds(tables[i], shard)
    ensures id in EligibleIds(tables[0], shard) && tables[i][id] == tables[0][id]
  {
    if i == 0 {
    } else {
      assert Serves(tables[i - 1], shard, replies[i - 1], tables[i]);
      if replies[i - 1].Some? {
        PopShrinks(tables[i - 1], shard, replies[i - 1].value, tables[i]);
      }
      EligibleUnchanged(tables, replies, shard, i - 1, id);
    }
  }

  lemma {:induction false} EligibleShrinks(
      tables: seq<map<string, Row>>, replies: seq<Option<string>>, shard: int, i: nat, j: nat)
    requires IsDrain(tables, replies, shard) && i <= j < |tables|
    ensures EligibleIds(tables[j], shard) <= EligibleIds(tables[i], shard)
    decreases j - i
  {
    if i == j {
    } else {
      EligibleShrinks(tables, replies, shard, i, j - 1);
      assert Serves(tables[j - 1], shard, replies[j - 1], tables[j]);
      if replies[j - 1].Some? {
        PopShrinks(tables[j - 1], shard, replies[j - 1].value, tables[j]);
      }
    }
  }

  /** Replies are distinct eligible arcs, ordered by the rows they had at the start. */
  lemma RepliesOrdered(tables: seq<map<string, Row>>, replies: seq<Option<string>>, shard: int, i: nat, j: nat)
    requires IsDrain(tables, replies, shard) && i < j < |replies|
    requires replies[i].Some? && replies[j].Some?
    ensures replies[i] != replies[j]
    ensures replies[i].value in tables[0] && replies[j].value in tables[0]
    ensures Precedes(shard, tables[0][replies[i].value], tables[0][replies[j].value])
  {
    var a, b := replies[i].value, replies[j].value;
    assert Pops(tables[i], shard, a, tables[i + 1]) && Pops(tables[j], shard, b, tables[j + 1]);
    PopShrinks(tables[i], shard, a, tables[i + 1]);
    EligibleShrinks(tables, replies, shard, i + 1, j);
    assert b in EligibleIds(tables[j], shard);
    assert b in EligibleIds(tables[i + 1], shard);
    EligibleUnchanged(tables, replies, shard, i, a);
    EligibleUnchanged(tables, replies, shard, i, b);
  }

  /** After i requests, i arcs are gone, or all of them. */
  lemma {:induction false} CountDown(tables: seq<map<string, Row>>, replies: seq<Option<string>>, shard: int, i: nat)
    requires IsDrain(tables, replies, shard) && i < |tables|
    ensures
      var n := |EligibleIds(tables[0], shard)|;
      |EligibleIds(tables[i], shard)| == if i <= n then n - i else 0
    ensures i < |replies| ==> (replies[i].Some? <==> i < |EligibleIds(tables[0], shard)|)
  {
    if i > 0 {
      CountDown(tables, replies, shard, i - 1);
      assert Serves(tables[i - 1], shard, replies[i - 1], tables[i]);
      if replies[i - 1].Some? {
        PopShrinks(tables[i - 1], shard, replies[i - 1].value, tables[i]);
      }
    }
    if i < |replies| {
      assert Serves(tables[i], shard, replies[i], tables[i + 1]);
      SomeEligible(tables[i], shard);
    }
  }

  lemma SomeEligible(table: map<string, Row>, shard: int)
    ensures AnyEligible(table, shard) <==> |EligibleIds(table, shard)| > 0
  {
    if AnyEligible(table, shard) {
      var id :| id in table && Eligible(table[id], shard);
      assert id in EligibleIds(table, shard);
    }
    if EligibleIds(table, shard) != {} {
      var id :| id in EligibleIds(table, shard);
    }
  }

  lemma {:induction false} GoneWereReplied(
      tables: seq<map<string, Row>>, replies: seq<Option<string>>, shard: int, i: nat, id: string)
    requires IsDrain(tables, replies, shard) && i < |tables|
    requires id in EligibleIds(tables[0], shard) && id !in EligibleIds(tables[i], shard)
    ensures exists j :: 0 <= j < i && replies[j] == Some(id)
  {
    if i > 0 && id !in EligibleIds(tables[i - 1], shard) {
      GoneWereReplied(tables, replies, shard, i - 1, id);
    } else {
      assert Serves(tables[i - 1], shard, replies[i - 1], tables[i]);
      if replies[i - 1].Some? {
        PopShrinks(tables[i - 1], shard, replies[i - 1].value, tables[i]);
      }
    }
  }

  /** A run in which only one shard asks, from an empty cache. */
  ghost predicate IsOneShardRun(states: seq<Store>, steps: seq<Step>, shard: string, k: nat) {
    && IsNextArcRun(states, steps, k) && k > 0
    && ParseInt(shard).Some? && Cached(states[0], shard) == []
    && forall i :: 0 <= i < |steps| ==> steps[i].NextArcStep? && steps[i].shard == shard
  }

  function Tables(states: seq<Store>): seq<map<string, Row>> {
    seq(|states|, (i: nat) requires i < |states| => states[i].table)
  }

  function Replies(states: seq<Store>, steps: seq<Step>): (r: seq<Option<string>>)
    requires |states| == |steps| + 1
    ensures |r| == |steps| && forall i :: 0 <= i < |r| ==> r[i] == HandsOut(states[i], steps[i])
  {
    seq(|steps|, (i: nat) requires i < |steps| => HandsOut(states[i], steps[i]))
  }

  lemma DrainRefines(states: seq<Store>, steps: seq<Step>, shard: string, k: nat)
    requires IsOneShardRun(states, steps, shard, k)
    ensures IsDrain(Tables(states), Replies(states, steps), ParseInt(shard).value)
  {
    forall i | 0 <= i < |steps|
      ensures Serves(states[i].table, ParseInt(shard).value, HandsOut(states[i], steps[i]), states[i + 1].table)
    {
      RunStaysSharp(states, steps, k, i, shard);
      assert Follows(states[i], steps[i], states[i + 1], k);
      NextArcRefinesQueue(states[i], steps[i], k);
    }
  }

  /** Of two arcs, the first is the shard's own if the second is; with the same shard it has the priority. */
  ghost predicate InOrder(table: map<string, Row>, shard: int, a: string, b: string) {
    && a in table && b in table
    && (table[b].shard == Some(shard) ==> table[a].shard == Some(shard))
    && (table[a].shard == table[b].shard ==> table[a].priority >= table[b].priority)
  }

  /** What the i-th request gets while there are arcs left, and afterwards. */
  lemma DrainReply(states: seq<Store>, steps: seq<Step>, shard: string, k: nat, i: nat)
    requires IsOneShardRun(states, steps, shard, k) && i < |steps|
    ensures
      var all := EligibleIds(states[0].table, ParseInt(shard).value);
      && (HandsOut(states[i], steps[i]).Some? <==> i < |all|)
      && (i < |all| ==> HandsOut(states[i], steps[i]).value in all)
      && (i >= |all| ==> Apply(states[i], steps[i]).1 == Arc(NO_ARC))
  {
    var n := ParseInt(shard).value;
    DrainRefines(states, steps, shard, k);
    CountDown(Tables(states), Replies(states, steps), n, i);
    RunStaysSharp(states, steps, k, i, shard);
    assert Follows(states[i], steps[i], states[i + 1], k);
    NextArcHandsOutIffEligible(states[i], shard, steps[i].answer, k);
    if i < |EligibleIds(states[0].table, n)| {
      EligibleUnchanged(Tables(states), Replies(states, steps), n, i, HandsOut(states[i], steps[i]).value);
    }
  }

  /**
   A shard that starts with an empty cache and keeps asking gets every arc that is NEW and its own
   or unassigned, exactly once, its own before the unassigned and each kind by falling priority,
   and then only "".
   */
  lemma DrainIsSortedPermutation(states: seq<Store>, steps: seq<Step>, shard: string, k: nat)
    requires IsOneShardRun(states, steps, shard, k)
    ensures
      var all, r := EligibleIds(states[0].table, ParseInt(shard).value), Replies(states, steps);
      && (forall i :: 0 <= i < |r| ==> if i < |all| then r[i].Some? && r[i].value in all else r[i].None?)
      && (forall i :: |all| <= i < |r| ==> Apply(states[i], steps[i]).1 == Arc(NO_ARC))
      && (forall i, j :: 0 <= i < j < |r| && j < |all| ==>
            r[i] != r[j] && InOrder(states[0].table, ParseInt(shard).value, r[i].value, r[j].value))
      && (|r| >= |all| ==> forall id :: id in all ==> Some(id) in r[..|all|])
    ensures
      var table := states[0].table;
      forall id :: id in EligibleIds(table, ParseInt(shard).value) <==>
        id in table && table[id].state == NEW && (table[id].shard == None || table[id].shard == ParseInt(shard))
  {
    var n := ParseInt(shard).value;
    var all, tables, r := EligibleIds(states[0].table, n), Tables(states), Replies(states, steps);
    DrainRefines(states, steps, shard, k);
    forall i | 0 <= i < |r|
      ensures if i < |all| then r[i].Some? && r[i].value in all else r[i].None?
      ensures i >= |all| ==> Apply(states[i], steps[i]).1 == Arc(NO_ARC)
    {
      DrainReply(states, steps, shard, k, i);
    }
    forall i, j | 0 <= i < j < |r| && j < |all|
      ensures r[i] != r[j] && InOrder(states[0].table, n, r[i].value, r[j].value)
    {
      RepliesOrdered(tables, r, n, i, j);
    }
    if |r| >= |all| {
      CountDown(tables, r, n, |all|);
      forall id | id in all
        ensures Some(id) in r[..|all|]
      {
        GoneWereReplied(tables, r, n, |all|, id);
      }
    }
  }

  // ---------- when the drain stops too early ----------

  /** What the i-th request is answered while there are arcs left, by the row at the start. */
  lemma DrainReplyPath(states: seq<Store>, steps: seq<Step>, shard: string, k: nat, i: nat)
    requires IsOneShardRun(states, steps, shard, k) && i < |steps| && HandsOut(states[i], steps[i]).Some?
    ensures
      var id := HandsOut(states[i], steps[i]).value;
      && id in EligibleIds(states[0].table, ParseInt(shard).value)
      && AnyEligible(states[i].table, ParseInt(shard).value)
      && Apply(states[i], steps[i]).1 == Arc(Path(states[0].table, id))
  {
    var n := ParseInt(shard).value;
    DrainRefines(states, steps, shard, k);
    RunStaysSharp(states, steps, k, i, shard);
    assert Follows(states[i], steps[i], states[i + 1], k);
    NextArcHandsOutIffEligible(states[i], shard, steps[i].answer, k);
    EligibleUnchanged(Tables(states), Replies(states, steps), n, i, HandsOut(states[i], steps[i]).value);
  }

  /**
   A caller that asks until the reply is "" is told so too early exactly if, at the start, the
   empty path has a row that is eligible for the shard.
   */
  lemma DrainEndsEarlyIff(states: seq<Store>, steps: seq<Step>, shard: string, k: nat)
    requires IsOneShardRun(states, steps, shard, k)
    requires |steps| >= |EligibleIds(states[0].table, ParseInt(shard).value)|
    ensures
      var n := ParseInt(shard).value;
      (exists i :: 0 <= i < |steps| && Apply(states[i], steps[i]).1 == Arc(NO_ARC) && AnyEligible(states[i].table, n))
      <==> HoldsEmptyPath(states[0].table) && Eligible(states[0].table[NO_ARC.id], n)
  {
    var n := ParseInt(shard).value;
    var all := EligibleIds(states[0].table, n);
    if HoldsEmptyPath(states[0].table) && Eligible(states[0].table[NO_ARC.id], n) {
      DrainIsSortedPermutation(states, steps, shard, k);
      assert NO_ARC.id in all && Some(NO_ARC.id) in Replies(states, steps)[..|all|];
      var i :| 0 <= i < |all| && Replies(states, steps)[i] == Some(NO_ARC.id);
      DrainReplyPath(states, steps, shard, k, i);
    }
    forall i | 0 <= i < |steps| && Apply(states[i], steps[i]).1 == Arc(NO_ARC) && AnyEligible(states[i].table, n)
      ensures HoldsEmptyPath(states[0].table) && Eligible(states[0].table[NO_ARC.id], n)
    {
      RunStaysSharp(states, steps, k, i, shard);
      assert Follows(states[i], steps[i], states[i + 1], k);
      NextArcHandsOutIffEligible(states[i], shard, steps[i].answer, k);
      DrainReplyPath(states, steps, shard, k, i);
    }
  }
}
