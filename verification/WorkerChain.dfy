/** A worker from its first run to its last: the runs of the pool and `taskFinished`, in turn. */
module WorkerChain {
  import opened Wrappers
  import opened Archon
  import opened ArchonStorage
  import opened IndexWorker
  import opened Retries
  import opened IndexBuilder
  import opened TaskReports

  /** Every arc reported so far, with the status of the run that reported it. */
  ghost predicate Verdicts(rounds: seq<Round<string>>, tries: int, verdicts: map<string, ArcState>) {
    forall a :: a in verdicts ==> exists i :: ReportedIn(rounds, tries, i, a) && verdicts[a] == rounds[i].statuses[a]
  }

  /** The runs so far, how each ended, and what the arcs not in the next batch were reported as. */
  ghost predicate Ran(batches: seq<set<string>>, rounds: seq<Round<string>>, tries: int,
                      outcomes: nat -> Outcome, canStart: nat -> set<string>, verdicts: map<string, ArcState>) {
    && IsChain(batches, rounds, tries)
    && (forall i :: 0 <= i < |rounds| ==> rounds[i] == Round(StatusesAfter(batches[i], outcomes(i)), canStart(i)))
    && verdicts.Keys == batches[0] - batches[|rounds|] && batches[|rounds|] <= batches[0]
    && Verdicts(rounds, tries, verdicts)
  }

  ghost function Reporting(r: Round<string>, errors: nat, tries: int): map<string, ArcState> {
    map a | a in Reported(r, errors, tries) :: r.statuses[a]
  }

  lemma ChainGrows(batches: seq<set<string>>, rounds: seq<Round<string>>, tries: int, r: Round<string>)
    requires IsChain(batches, rounds, tries) && (rounds != [] ==> batches[|rounds|] != {})
    requires r.statuses.Keys == batches[|rounds|] && Terminal(r.statuses)
    ensures IsChain(batches + [Retried(r, |rounds|, tries)], rounds + [r], tries)
  {
    var more, all := batches + [Retried(r, |rounds|, tries)], rounds + [r];
    forall i | 0 <= i < |all|
      ensures all[i].statuses.Keys == more[i] && Terminal(all[i].statuses)
      ensures more[i + 1] == Retried(all[i], i, tries) && (i > 0 ==> more[i] != {})
    {
      assert i < |rounds| ==> all[i] == rounds[i];
    }
  }

  lemma VerdictsGrow(rounds: seq<Round<string>>, tries: int, verdicts: map<string, ArcState>, r: Round<string>)
    requires Verdicts(rounds, tries, verdicts)
    ensures Verdicts(rounds + [r], tries, verdicts + Reporting(r, |rounds|, tries))
  {
    var n, all, more := |rounds|, rounds + [r], verdicts + Reporting(r, |rounds|, tries);
    forall a | a in more
      ensures exists i :: ReportedIn(all, tries, i, a) && more[a] == all[i].statuses[a]
    {
      if a in Reported(r, n, tries) {
        assert ReportedIn(all, tries, n, a);
      } else {
        var i :| ReportedIn(rounds, tries, i, a) && verdicts[a] == rounds[i].statuses[a];
        assert ReportedIn(all, tries, i, a);
      }
    }
  }

  lemma ReportedOfAll(all: set<string>, left: set<string>, verdicts: map<string, ArcState>, r: Round<string>,
                      errors: nat, tries: int)
    requires verdicts.Keys == all - left && left <= all && r.statuses.Keys == left
    ensures (verdicts + Reporting(r, errors, tries)).Keys == all - Retried(r, errors, tries)
    ensures Retried(r, errors, tries) <= all
  {
  }

  lemma RoundsGrow(batches: seq<set<string>>, rounds: seq<Round<string>>, outcomes: nat -> Outcome,
                   canStart: nat -> set<string>, last: set<string>)
    requires |batches| == |rounds| + 1
    requires forall i :: 0 <= i < |rounds| ==> rounds[i] == Round(StatusesAfter(batches[i], outcomes(i)), canStart(i))
    ensures
      var n := |rounds|;
      var all, more := rounds + [Round(StatusesAfter(batches[n], outcomes(n)), canStart(n))], batches + [last];
      forall i :: 0 <= i < |all| ==> all[i] == Round(StatusesAfter(more[i], outcomes(i)), canStart(i))
  {
  }

  lemma OneMoreRun(batches: seq<set<string>>, rounds: seq<Round<string>>, tries: int,
                   outcomes: nat -> Outcome, canStart: nat -> set<string>, verdicts: map<string, ArcState>)
    requires Ran(batches, rounds, tries, outcomes, canStart, verdicts) && (rounds != [] ==> batches[|rounds|] != {})
    ensures
      var n := |rounds|;
      var r := Round(StatusesAfter(batches[n], outcomes(n)), canStart(n));
      Ran(batches + [Retried(r, n, tries)], rounds + [r], tries, outcomes, canStart, verdicts + Reporting(r, n, tries))
  {
    var n := |rounds|;
    var r := Round(StatusesAfter(batches[n], outcomes(n)), canStart(n));
    StatusesAreTerminal(batches[n], outcomes(n));
    ChainGrows(batches, rounds, tries, r);
    VerdictsGrow(rounds, tries, verdicts, r);
    RoundsGrow(batches, rounds, outcomes, canStart, Retried(r, n, tries));
    ReportedOfAll(batches[0], batches[n], verdicts, r, n, tries);
  }

  lemma RowsCompose<A(!new)>(idOf: A -> string, before: Store, verdicts: map<A, ArcState>, mid: Store,
                             statuses: map<A, ArcState>, reported: set<A>, after: Store, id: string)
    requires id in before.table && id in mid.table && reported <= statuses.Keys
    requires ReportedRow(idOf, before, verdicts, verdicts.Keys, mid, id)
    requires ReportedRow(idOf, mid, statuses, reported, after, id)
    ensures
      var more := verdicts + map a | a in reported :: statuses[a];
      ReportedRow(idOf, before, more, more.Keys, after, id)
  {
    var more := verdicts + map a | a in reported :: statuses[a];
    if exists a :: a in reported && idOf(a) == id {
      var a :| a in reported && a in statuses && idOf(a) == id &&
        after.table[id] == mid.table[id].(state := statuses[a]);
      assert a in more.Keys && more[a] == statuses[a];
      assert mid.table[id].(state := statuses[a]) == before.table[id].(state := statuses[a]);
    } else if exists a :: a in verdicts.Keys && idOf(a) == id {
      var a :| a in verdicts.Keys && idOf(a) == id && mid.table[id] == before.table[id].(state := verdicts[a]);
      assert a in more.Keys && more[a] == verdicts[a];
    } else {
      assert forall a :: a in more.Keys ==> idOf(a) != id;
    }
  }

  /** Reports of one run and of the next are one report of all their arcs. */
  lemma ReportsCompose<A(!new)>(idOf: A -> string, before: Store, verdicts: map<A, ArcState>, mid: Store,
                                statuses: map<A, ArcState>, reported: set<A>, after: Store)
    requires ReportsTo(idOf, before, verdicts, verdicts.Keys, mid)
    requires ReportsTo(idOf, mid, statuses, reported, after) && reported <= statuses.Keys
    ensures
      var more := verdicts + map a | a in reported :: statuses[a];
      ReportsTo(idOf, before, more, more.Keys, after)
  {
    forall id | id in before.table
      ensures
        var more := verdicts + map a | a in reported :: statuses[a];
        ReportedRow(idOf, before, more, more.Keys, after, id)
    {
      RowsCompose(idOf, before, verdicts, mid, statuses, reported, after, id);
    }
  }

  /** The store is as the runs' reports left it. */
  ghost predicate Chained(before: Store, batches: seq<set<string>>, rounds: seq<Round<string>>, tries: int,
                          outcomes: nat -> Outcome, canStart: nat -> set<string>, verdicts: map<string, ArcState>,
                          now: Store) {
    && Ran(batches, rounds, tries, outcomes, canStart, verdicts)
    && ReportsTo(IdOfText, before, verdicts, verdicts.Keys, now)
  }

  ghost function RoundAt(batches: seq<set<string>>, n: nat, outcomes: nat -> Outcome,
                         canStart: nat -> set<string>): Round<string>
    requires n < |batches|
  {
    Round(StatusesAfter(batches[n], outcomes(n)), canStart(n))
  }

  lemma OneMoreChained(before: Store, batches: seq<set<string>>, rounds: seq<Round<string>>, tries: int,
                       outcomes: nat -> Outcome, canStart: nat -> set<string>, verdicts: map<string, ArcState>,
                       mid: Store, now: Store)
    requires Chained(before, batches, rounds, tries, outcomes, canStart, verdicts, mid)
    requires rounds != [] ==> batches[|rounds|] != {}
    requires
      var r := RoundAt(batches, |rounds|, outcomes, canStart);
      ReportsTo(IdOfText, mid, r.statuses, Reported(r, |rounds|, tries), now)
    ensures
      var r := RoundAt(batches, |rounds|, outcomes, canStart);
      Chained(before, batches + [Retried(r, |rounds|, tries)], rounds + [r], tries, outcomes, canStart,
              verdicts + Reporting(r, |rounds|, tries), now)
  {
    var r := RoundAt(batches, |rounds|, outcomes, canStart);
    OneMoreRun(batches, rounds, tries, outcomes, canStart, verdicts);
    ReportsCompose(IdOfText, before, verdicts, mid, r.statuses, Reported(r, |rounds|, tries), now);
  }

  ghost predicate AnyUnknown(arcs: set<string>, table: map<string, Row>) {
    exists a :: a in arcs && IdOfText(a) !in table
  }

  /** One run in the pool, and what taskFinished makes of its end. */
  method RunOnce(archon: Storage, worker: Worker, outcome: Outcome, canStart: set<string>, tries: int)
    returns (again: bool, refused: bool)
    requires archon.Valid() && worker.status == RUN_NEW
    modifies archon`table, worker
    ensures archon.Valid()
    ensures
      var r := Round(StatusesAfter(old(worker.arcStatuses.Keys), outcome), canStart);
      var errors := old(worker.numberOfErrors);
      && (refused <==> AnyUnknown(Reported(r, errors, tries), old(archon.table)))
      && (!refused ==>
            && ReportsTo(IdOfText, old(archon.View()), r.statuses, Reported(r, errors, tries), archon.View())
            && (again <==> Retried(r, errors, tries) != {}))
      && (!refused && again ==>
            && worker.arcStatuses.Keys == Retried(r, errors, tries)
            && worker.numberOfErrors == errors + 1 && worker.status == RUN_NEW)
  {
    StatusesAreTerminal(worker.arcStatuses.Keys, outcome);
    worker.Call(outcome);
    var failed;
    AnyRetried(Round(worker.arcStatuses, canStart), worker.numberOfErrors, tries);
    again, failed, refused := TaskFinished(archon, worker, canStart, tries);
  }

  /**
   Runs a new worker until nothing is tried again.  `outcomes` and `canStart` say how run i ends
   and for which arcs the builder would still start jobs then.  The runs are a chain, and unless
   Archon refuses a report, every arc ends up with the status of the one run that reported it.
   */
  method RunChain(archon: Storage, worker: Worker, outcomes: nat -> Outcome, canStart: nat -> set<string>, tries: int)
    returns (refused: bool, ghost batches: seq<set<string>>, ghost rounds: seq<Round<string>>,
             ghost verdicts: map<string, ArcState>)
    requires archon.Valid() && worker.status == RUN_NEW && worker.numberOfErrors == 0
    modifies archon`table, worker
    ensures archon.Valid()
    ensures batches != [] && batches[0] == old(worker.arcStatuses.Keys)
    ensures Ran(batches, rounds, tries, outcomes, canStart, verdicts)
    ensures refused ==>
      AnyUnknown(Reported(RoundAt(batches, |rounds|, outcomes, canStart), |rounds|, tries), old(archon.table))
    ensures !refused ==> rounds != [] && batches[|rounds|] == {} && verdicts.Keys == batches[0]
    ensures !refused ==> ReportsTo(IdOfText, old(archon.View()), verdicts, verdicts.Keys, archon.View())
  {
    ghost var before := archon.View();
    batches, rounds, verdicts, refused := [worker.arcStatuses.Keys], [], map[], false;
    var again, n := true, 0;
    while again
      invariant archon.Valid() && !refused && n == |rounds| && batches != [] &&
        batches[0] == old(worker.arcStatuses.Keys)
      invariant Chained(before, batches, rounds, tries, outcomes, canStart, verdicts, archon.View())
      invariant if again then
          && worker.status == RUN_NEW && worker.numberOfErrors == n
          && worker.arcStatuses.Keys == batches[n] && (n > 0 ==> batches[n] != {})
        else n > 0 && batches[n] == {}
      decreases again, tries - n
    {
      ghost var mid, r := archon.View(), RoundAt(batches, n, outcomes, canStart);
      again, refused := RunOnce(archon, worker, outcomes(n), canStart(n), tries);
      if refused {
        return;
      }
      OneMoreChained(before, batches, rounds, tries, outcomes, canStart, verdicts, mid, archon.View());
      batches, rounds, verdicts := batches + [Retried(r, n, tries)], rounds + [r], verdicts + Reporting(r, n, tries);
      n := n + 1;
    }
  }
}
