/** `taskFinished`: reports a finished worker's arcs to Archon and decides what is tried again. */
module TaskReports {
  import opened Wrappers
  import opened ArcPath
  import opened Archon
  import opened ArchonStorage
  import opened IndexWorker
  import opened Retries
  import opened IndexBuilder

  function IdOfText(path: string): string {
    Split(path).id
  }

  /** The reported arcs that were given up. */
  function GivenUp(statuses: map<string, ArcState>, reported: set<string>): set<string> {
    set a | a in reported && a in statuses && statuses[a] == REJECTED
  }

  /** An arc is given up if it was rejected and is not tried again. */
  lemma GivenUpMeans(r: Round<string>, errors: nat, tries: int)
    ensures GivenUp(r.statuses, Reported(r, errors, tries)) ==
      set a | a in r.statuses && r.statuses[a] == REJECTED && !(errors < tries && a in r.canStart)
  {
  }

  lemma OneMoreGivenUp(statuses: map<string, ArcState>, reported: set<string>, arc: string)
    requires arc in statuses && arc !in reported
    ensures |GivenUp(statuses, reported + {arc})| ==
      |GivenUp(statuses, reported)| + if statuses[arc] == REJECTED then 1 else 0
  {
    var more := if statuses[arc] == REJECTED then {arc} else {};
    assert GivenUp(statuses, reported + {arc}) == GivenUp(statuses, reported) + more;
  }

  /** Reports one more arc to Archon, and counts it if it is given up. */
  method ReportArc(archon: Storage, arc: string, state: ArcState, given: nat,
                   ghost before: Store, ghost statuses: map<string, ArcState>, ghost reported: set<string>)
    returns (failed: nat, refused: bool)
    requires archon.Valid() && arc in statuses && statuses[arc] == state && arc !in reported
    requires ReportsTo(IdOfText, before, statuses, reported, archon.View()) && given == |GivenUp(statuses, reported)|
    modifies archon`table
    ensures archon.Valid()
    ensures refused <==> IdOfText(arc) !in before.table
    ensures !refused ==> ReportsTo(IdOfText, before, statuses, reported + {arc}, archon.View())
    ensures failed == |GivenUp(statuses, reported + {arc})|
  {
    failed := given;
    if state == REJECTED {
      failed := failed + 1;
    }
    OneMoreGivenUp(statuses, reported, arc);
    ghost var soFar := archon.View();
    var reply := archon.SetARCState(arc, state);
    refused := reply == Refused;
    if !refused {
      OneMoreReport(IdOfText, before, statuses, reported, soFar, arc);
    }
  }

  /** The arcs outside `arcs` were put aside for another run, or reported. */
  ghost predicate Divided(r: Round<string>, errors: nat, tries: int, arcs: set<string>, arcRetry: set<string>,
                          reported: set<string>) {
    && arcs <= r.statuses.Keys && arcRetry + reported == r.statuses.Keys - arcs
    && arcRetry <= Retried(r, errors, tries) && reported <= Reported(r, errors, tries)
  }

  lemma OneMoreDivided(
      r: Round<string>, errors: nat, tries: int, arcs: set<string>, arcRetry: set<string>, reported: set<string>,
      arc: string)
    requires Divided(r, errors, tries, arcs, arcRetry, reported) && arc in arcs
    ensures arc in Retried(r, errors, tries) ==> Divided(r, errors, tries, arcs - {arc}, arcRetry + {arc}, reported)
    ensures arc in Reported(r, errors, tries) ==> Divided(r, errors, tries, arcs - {arc}, arcRetry, reported + {arc})
    ensures arc !in reported && arc in r.statuses
  {
  }

  lemma AllDivided(r: Round<string>, errors: nat, tries: int, arcRetry: set<string>, reported: set<string>)
    requires Divided(r, errors, tries, {}, arcRetry, reported)
    ensures arcRetry == Retried(r, errors, tries) && reported == Reported(r, errors, tries)
  {
  }

  /** `canStart` holds the arcs at whose turn the builder would still start jobs. */
  method ReportAll(archon: Storage, statuses: map<string, ArcState>, errors: nat, canStart: set<string>, tries: int)
    returns (arcRetry: set<string>, failed: nat, refused: bool)
    requires archon.Valid() && Terminal(statuses)
    modifies archon`table
    ensures archon.Valid()
    ensures
      var r := Round(statuses, canStart);
      && (refused <==> exists a :: a in Reported(r, errors, tries) && IdOfText(a) !in old(archon.table))
      && (!refused ==>
            && arcRetry == Retried(r, errors, tries)
            && (forall a :: a in arcRetry <==>
                  a in statuses && statuses[a] == REJECTED && errors < tries && a in canStart)
            && failed == |GivenUp(statuses, Reported(r, errors, tries))|
            && ReportsTo(IdOfText, old(archon.View()), statuses, Reported(r, errors, tries), archon.View()))
  {
    ghost var before, r, reported := archon.View(), Round(statuses, canStart), {};
    var arcs := statuses.Keys;
    arcRetry, failed := {}, 0;
    while arcs != {}
      invariant archon.Valid() && Divided(r, errors, tries, arcs, arcRetry, reported)
      invariant failed == |GivenUp(statuses, reported)| &&
        ReportsTo(IdOfText, before, statuses, reported, archon.View())
      decreases arcs
    {
      var arc :| arc in arcs;
      OneMoreDivided(r, errors, tries, arcs, arcRetry, reported, arc);
      if statuses[arc] == REJECTED && errors < tries && arc in canStart {
        assert arc in Retried(r, errors, tries);
        arcRetry := arcRetry + {arc};
      } else {
        assert arc in Reported(r, errors, tries);
        failed, refused := ReportArc(archon, arc, statuses[arc], failed, before, statuses, reported);
        if refused {
          return;
        }
        reported := reported + {arc};
      }
      arcs := arcs - {arc};
    }
    AllDivided(r, errors, tries, arcRetry, reported);
    refused := false;
  }

  /** Reports what is final and prepares the worker for another run on the rest. */
  method TaskFinished(archon: Storage, worker: Worker, canStart: set<string>, tries: int)
    returns (resubmit: bool, failed: nat, refused: bool)
    requires archon.Valid()
    requires worker.status in {RUN_COMPLETED, RUN_ERROR} && Terminal(worker.arcStatuses)
    modifies archon`table, worker
    ensures archon.Valid()
    ensures
      var r := Round(old(worker.arcStatuses), canStart);
      var errors := old(worker.numberOfErrors);
      && (refused <==> exists a :: a in Reported(r, errors, tries) && IdOfText(a) !in old(archon.table))
      && (!refused ==>
            && ReportsTo(IdOfText, old(archon.View()), r.statuses, Reported(r, errors, tries), archon.View())
            && failed == |GivenUp(r.statuses, Reported(r, errors, tries))|
            && (resubmit <==> exists a ::
                  a in r.statuses && r.statuses[a] == REJECTED && errors < tries && a in canStart))
      && (refused ==> !resubmit)
      && (if resubmit then
            && worker.arcStatuses == (map a | a in Retried(r, errors, tries) :: r.statuses[a])
            && worker.numberOfErrors == errors + 1 && worker.status == RUN_NEW
          else
            worker.arcStatuses == r.statuses && worker.numberOfErrors == errors && worker.status == old(worker.status))
  {
    var arcRetry;
    AnyRetried(Round(worker.arcStatuses, canStart), worker.numberOfErrors, tries);
    arcRetry, failed, refused := ReportAll(archon, worker.arcStatuses, worker.numberOfErrors, canStart, tries);
    resubmit := !refused && arcRetry != {};
    if resubmit {
      worker.numberOfErrors := worker.numberOfErrors + 1;
      worker.status := RUN_NEW;
      worker.arcStatuses := map a | a in arcRetry :: worker.arcStatuses[a];
    }
  }

  function Updated(s: Store, id: string, state: ArcState): Store
    requires id in s.table
  {
    s.(table := s.table[id := s.table[id].(state := state)])
  }

  lemma OneMoreReport<A(!new)>(idOf: A -> string, before: Store, statuses: map<A, ArcState>, reported: set<A>,
                                soFar: Store, arc: A)
    requires ReportsTo(idOf, before, statuses, reported, soFar)
    requires arc in statuses && idOf(arc) in before.table
    ensures ReportsTo(idOf, before, statuses, reported + {arc}, Updated(soFar, idOf(arc), statuses[arc]))
  {
    forall id | id in before.table
      ensures ReportedRow(idOf, before, statuses, reported + {arc}, Updated(soFar, idOf(arc), statuses[arc]), id)
    {
    }
  }
}
