/** The chain of runs that a worker goes through while its rejected arcs are tried again. */
module Retries {
  import opened Archon

  /**
   The end of one run: the status of each arc, and the arcs at whose turn the builder would
   still start jobs.
   */
  datatype Round<A> = Round(statuses: map<A, ArcState>, canStart: set<A>)

  ghost predicate Terminal<A>(statuses: map<A, ArcState>) {
    forall a :: a in statuses ==> statuses[a] in {COMPLETED, REJECTED}
  }

  /** Arcs that go into another run. */
  function Retried<A(==)>(r: Round<A>, errors: nat, tries: int): set<A> {
    set a | a in r.statuses && r.statuses[a] == REJECTED && errors < tries && a in r.canStart
  }

  /** Arcs whose status is reported to Archon. */
  function Reported<A(==)>(r: Round<A>, errors: nat, tries: int): set<A> {
    r.statuses.Keys - Retried(r, errors, tries)
  }

  /** Run i works on batches[i]; what it does not report is the next batch, and the chain goes on while there is one. */
  ghost predicate IsChain<A>(batches: seq<set<A>>, rounds: seq<Round<A>>, tries: int) {
    && |batches| == |rounds| + 1
    && forall i {:trigger rounds[i]} :: 0 <= i < |rounds| ==>
         && rounds[i].statuses.Keys == batches[i] && Terminal(rounds[i].statuses)
         && batches[i + 1] == Retried(rounds[i], i, tries)
         && (i > 0 ==> batches[i] != {})
  }

  ghost predicate ReportedIn<A>(rounds: seq<Round<A>>, tries: int, i: int, a: A) {
    0 <= i < |rounds| && a in Reported(rounds[i], i, tries)
  }

  /** However the runs end, there are at most max(0, tries) + 1 of them. */
  lemma ChainIsBounded<A>(batches: seq<set<A>>, rounds: seq<Round<A>>, tries: int)
    requires IsChain(batches, rounds, tries)
    ensures |rounds| <= (if tries > 0 then tries else 0) + 1
    ensures |rounds| == (if tries > 0 then tries else 0) + 1 ==> batches[|rounds|] == {}
  {
    if |rounds| > 0 {
      assert batches[|rounds|] == Retried(rounds[|rounds| - 1], |rounds| - 1, tries);
    }
    if |rounds| > 1 {
      var last := |rounds| - 1;
      assert batches[last] == Retried(rounds[last - 1], last - 1, tries);
      var a :| a in batches[last];
    }
  }

  lemma {:induction false} BatchesShrink<A>(batches: seq<set<A>>, rounds: seq<Round<A>>, tries: int, i: nat, j: nat)
    requires IsChain(batches, rounds, tries) && i <= j < |batches|
    ensures batches[j] <= batches[i]
    decreases j - i
  {
    if i == j {
    } else {
      BatchesShrink(batches, rounds, tries, i, j - 1);
      assert batches[j] == Retried(rounds[j - 1], j - 1, tries);
    }
  }

  /** Two runs never report the same arc. */
  lemma ReportedOnce<A>(batches: seq<set<A>>, rounds: seq<Round<A>>, tries: int, i: nat, j: nat, a: A)
    requires IsChain(batches, rounds, tries)
    requires ReportedIn(rounds, tries, i, a) && ReportedIn(rounds, tries, j, a)
    ensures i == j
  {
    var lo, hi := if i < j then i else j, if i < j then j else i;
    if lo < hi {
      BatchesShrink(batches, rounds, tries, lo + 1, hi);
    }
  }

  lemma {:induction false} WithdrawnWasReported<A>(
      batches: seq<set<A>>, rounds: seq<Round<A>>, tries: int, n: nat, a: A)
    returns (i: nat)
    requires IsChain(batches, rounds, tries) && n < |batches|
    requires a in batches[0] && a !in batches[n]
    ensures i < n && ReportedIn(rounds, tries, i, a)
  {
    if a in batches[n - 1] {
      i := n - 1;
      assert batches[n] == Retried(rounds[n - 1], n - 1, tries);
    } else {
      i := WithdrawnWasReported(batches, rounds, tries, n - 1, a);
    }
  }

  /** A finished chain reports every arc of its first batch exactly once, as completed or rejected. */
  lemma ExactlyOneReport<A>(batches: seq<set<A>>, rounds: seq<Round<A>>, tries: int, a: A)
    requires IsChain(batches, rounds, tries) && batches[|rounds|] == {} && a in batches[0]
    ensures exists i :: ReportedIn(rounds, tries, i, a) && rounds[i].statuses[a] in {COMPLETED, REJECTED}
    ensures forall i: nat, j: nat :: ReportedIn(rounds, tries, i, a) && ReportedIn(rounds, tries, j, a) ==> i == j
  {
    var i := WithdrawnWasReported(batches, rounds, tries, |rounds|, a);
    assert ReportedIn(rounds, tries, i, a);
    forall i: nat, j: nat | ReportedIn(rounds, tries, i, a) && ReportedIn(rounds, tries, j, a)
      ensures i == j
    {
      ReportedOnce(batches, rounds, tries, i, j, a);
    }
  }

  // ---------- who is tried again ----------

  lemma AnyRetried<A>(r: Round<A>, errors: nat, tries: int)
    ensures Retried(r, errors, tries) != {} <==>
      exists a :: a in r.statuses && r.statuses[a] == REJECTED && errors < tries && a in r.canStart
  {
    if a :| a in r.statuses && r.statuses[a] == REJECTED && errors < tries && a in r.canStart {
      assert a in Retried(r, errors, tries);
    }
  }

  /**
   An arc goes into the next run exactly if this one rejected it, fewer runs than allowed have
   failed, and jobs can be started at its turn.
   */
  lemma GoesOnIff<A>(batches: seq<set<A>>, rounds: seq<Round<A>>, tries: int, i: nat, a: A)
    requires IsChain(batches, rounds, tries) && i < |rounds| && a in batches[i]
    ensures a in batches[i + 1] <==> rounds[i].statuses[a] == REJECTED && i < tries && a in rounds[i].canStart
    ensures ReportedIn(rounds, tries, i, a) <==> a !in batches[i + 1]
  {
    assert batches[i + 1] == Retried(rounds[i], i, tries);
  }

  /** An arc is reported by the run that completes it. */
  lemma CompletedIsReported<A>(batches: seq<set<A>>, rounds: seq<Round<A>>, tries: int, i: nat, a: A)
    requires IsChain(batches, rounds, tries) && i < |rounds| && a in batches[i] && rounds[i].statuses[a] == COMPLETED
    ensures ReportedIn(rounds, tries, i, a) && a !in batches[i + 1]
  {
    GoesOnIff(batches, rounds, tries, i, a);
  }

  /** An arc is given up only when its tries are used up, or when jobs cannot be started. */
  lemma GivenUpOnlyAtTheEnd<A>(batches: seq<set<A>>, rounds: seq<Round<A>>, tries: int, i: nat, a: A)
    requires IsChain(batches, rounds, tries) && ReportedIn(rounds, tries, i, a) && rounds[i].statuses[a] == REJECTED
    ensures i >= tries || a !in rounds[i].canStart
  {
    GoesOnIff(batches, rounds, tries, i, a);
  }

  /** In every run that has it, the arc is rejected, and jobs can be started at its turn. */
  ghost predicate AlwaysFails<A>(batches: seq<set<A>>, rounds: seq<Round<A>>, a: A)
    requires |batches| == |rounds| + 1
  {
    forall i :: 0 <= i < |rounds| && a in batches[i] && a in rounds[i].statuses ==>
      rounds[i].statuses[a] == REJECTED && a in rounds[i].canStart
  }

  lemma {:induction false} FailsThrough<A>(batches: seq<set<A>>, rounds: seq<Round<A>>, tries: int, n: nat, a: A)
    requires IsChain(batches, rounds, tries) && n < |batches| && a in batches[0] && AlwaysFails(batches, rounds, a)
    ensures a in batches[n] <==> n <= if tries > 0 then tries else 0
  {
    if n == 0 {
    } else {
      FailsThrough(batches, rounds, tries, n - 1, a);
      assert batches[n] == Retried(rounds[n - 1], n - 1, tries) && rounds[n - 1].statuses.Keys == batches[n - 1];
    }
  }

  /**
   An arc that always fails is in every run of a finished chain, of which there are tries + 1, and
   is reported by the last.
   */
  lemma FailureUsesAllTries<A>(batches: seq<set<A>>, rounds: seq<Round<A>>, tries: int, a: A)
    requires IsChain(batches, rounds, tries) && batches[|rounds|] == {}
    requires a in batches[0] && AlwaysFails(batches, rounds, a)
    ensures
      var last := if tries > 0 then tries else 0;
      && |rounds| == last + 1 && (forall i :: 0 <= i <= last ==> a in batches[i])
      && ReportedIn(rounds, tries, last, a) && rounds[last].statuses[a] == REJECTED
  {
    var last := if tries > 0 then tries else 0;
    FailsThrough(batches, rounds, tries, |rounds|, a);
    ChainIsBounded(batches, rounds, tries);
    forall i | 0 <= i <= last
      ensures a in batches[i]
    {
      FailsThrough(batches, rounds, tries, i, a);
    }
    assert rounds[last].statuses.Keys == batches[last];
    GoesOnIff(batches, rounds, tries, last, a);
  }
}
