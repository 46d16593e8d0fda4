/** One run of an indexing worker: a shell call whose output gives each (W)ARC its status. */
module IndexWorker {
  import opened Wrappers
  import ArcPath
  import opened Archon

  datatype RunStatus = RUN_NEW | RUN_RUNNING | RUN_COMPLETED | RUN_ERROR

  /** How the shell call ended: it could not be run, or it returned a code and wrote lines. */
  datatype Outcome = Throws | Exited(returnCode: int, lines: seq<string>)

  // ---------- the pattern ^([0-9]+)\s.* ----------

  function LeadingDigits(line: string): (n: nat)
    ensures n <= |line|
  {
    if line == "" || !ArcPath.IsDigit(line[0]) then 0 else 1 + LeadingDigits(line[1..])
  }

  predicate IsSpace(c: char) {
    c == ' ' || c == '\t' || c == '\n' || c == '\U{000b}' || c == '\U{000c}' || c == '\r'
  }

  predicate IsLineEnd(c: char) {
    c == '\n' || c == '\r' || c == '\U{0085}' || c == '\U{2028}' || c == '\U{2029}'
  }

  /** The line starts with a return code. */
  predicate HasCode(line: string) {
    var n := LeadingDigits(line);
    0 < n < |line| && IsSpace(line[n]) && forall i :: n < i < |line| ==> !IsLineEnd(line[i])
  }

  predicate OccursAt(line: string, arc: string, i: int) {
    0 <= i <= |line| - |arc| && line[i..i + |arc|] == arc
  }

  predicate ContainsArc(line: string, arc: string) {
    exists i :: 0 <= i <= |line| && OccursAt(line, arc, i)
  }

  /** The line settles the status of the arc. */
  predicate Settles(line: string, arc: string) {
    ContainsArc(line, arc) && HasCode(line)
  }

  function Code(line: string): nat {
    ArcPath.Digits(line[..LeadingDigits(line)])
  }

  /** The index of the first line that settles the arc, or the number of lines. */
  function FirstSettling(lines: seq<string>, arc: string): (i: nat)
    ensures i <= |lines|
    ensures forall j :: 0 <= j < i ==> !Settles(lines[j], arc)
    ensures i < |lines| ==> Settles(lines[i], arc)
  {
    if lines == [] || Settles(lines[0], arc) then 0 else 1 + FirstSettling(lines[1..], arc)
  }

  /** The first settling line decides; no such line, or a code other than 0, rejects the arc. */
  function Verdict(lines: seq<string>, arc: string): ArcState {
    var i := FirstSettling(lines, arc);
    if i < |lines| && Code(lines[i]) == 0 then COMPLETED else REJECTED
  }

  /** Reading the arc's return code throws, because it does not fit in 32 bits. */
  predicate Overflows(lines: seq<string>, arc: string) {
    var i := FirstSettling(lines, arc);
    i < |lines| && Code(lines[i]) > ArcPath.MAX_INT
  }

  // ---------- what a run leaves behind ----------

  /** Whether a run ends in status COMPLETED. */
  ghost predicate RunsThrough(arcs: set<string>, outcome: Outcome) {
    outcome.Exited? && outcome.returnCode == 0 && forall a :: a in arcs ==> !Overflows(outcome.lines, a)
  }

  ghost function StatusesAfter(arcs: set<string>, outcome: Outcome): map<string, ArcState> {
    if RunsThrough(arcs, outcome) then map a | a in arcs :: Verdict(outcome.lines, a)
    else map a | a in arcs :: REJECTED
  }

  /** Line i reports success for the arc, and no earlier line settles it. */
  ghost predicate ReportsSuccess(lines: seq<string>, arc: string, i: int) {
    && 0 <= i < |lines| && Settles(lines[i], arc) && Code(lines[i]) == 0
    && forall j :: 0 <= j < i ==> !Settles(lines[j], arc)
  }

  /** Whatever happens in a run, every arc ends up completed or rejected. */
  lemma StatusesAreTerminal(arcs: set<string>, outcome: Outcome)
    ensures StatusesAfter(arcs, outcome).Keys == arcs
    ensures forall a :: a in arcs ==> StatusesAfter(arcs, outcome)[a] in {COMPLETED, REJECTED}
    ensures forall a :: a in arcs ==>
      (StatusesAfter(arcs, outcome)[a] == COMPLETED <==>
         RunsThrough(arcs, outcome) && exists i :: ReportsSuccess(outcome.lines, a, i))
  {
    if RunsThrough(arcs, outcome) {
      forall a | a in arcs
        ensures Verdict(outcome.lines, a) == COMPLETED <==> exists i :: ReportsSuccess(outcome.lines, a, i)
      {
        var i := FirstSettling(outcome.lines, a);
        assert Verdict(outcome.lines, a) == COMPLETED ==> ReportsSuccess(outcome.lines, a, i);
        assert forall j :: ReportsSuccess(outcome.lines, a, j) ==> j == i;
      }
    }
  }

  /** An arc whose name occurs inside another's is judged by that other's line if it comes first. */
  lemma SubstringIsMisjudged(inner: string, outer: string, lines: seq<string>, i: nat)
    requires ContainsArc(outer, inner)
    requires i < |lines| && Settles(lines[i], outer) && forall j :: 0 <= j < i ==> !Settles(lines[j], inner)
    ensures Verdict(lines, inner) == if Code(lines[i]) == 0 then COMPLETED else REJECTED
  {
    ContainsIsTransitive(lines[i], outer, inner);
    assert FirstSettling(lines, inner) == i;
  }

  lemma ContainsIsTransitive(line: string, outer: string, inner: string)
    requires ContainsArc(line, outer) && ContainsArc(outer, inner)
    ensures ContainsArc(line, inner)
  {
    var i :| 0 <= i <= |line| && OccursAt(line, outer, i);
    var j :| 0 <= j <= |outer| && OccursAt(outer, inner, j);
    forall k | 0 <= k < |inner|
      ensures line[i + j + k] == inner[k]
    {
      assert line[i..i + |outer|][j + k] == outer[j + k];
      assert outer[j..j + |inner|][k] == outer[j + k];
    }
    assert line[i + j..i + j + |inner|] == inner;
    assert OccursAt(line, inner, i + j);
  }

  class Worker {
    var arcStatuses: map<string, ArcState>
    var numberOfErrors: nat
    var status: RunStatus

    constructor (arcFiles: seq<string>)
      ensures arcStatuses == map a | a in arcFiles :: NEW
      ensures numberOfErrors == 0 && status == RUN_NEW
    {
      arcStatuses := map a | a in arcFiles :: NEW;
      numberOfErrors, status := 0, RUN_NEW;
    }

    /** Runs the shell call and keeps the worker's status even if that throws. */
    method Call(outcome: Outcome)
      modifies this`arcStatuses, this`status
      ensures arcStatuses == StatusesAfter(old(arcStatuses.Keys), outcome)
      ensures status == if RunsThrough(old(arcStatuses.Keys), outcome) then RUN_COMPLETED else RUN_ERROR
    {
      status := RUN_RUNNING;
      var thrown := ProcessARCs(outcome);
      if thrown {
        SetAll(REJECTED);
        status := RUN_ERROR;
      }
    }

    method SetAll(state: ArcState)
      modifies this`arcStatuses
      ensures arcStatuses == map a | a in old(arcStatuses) :: state
    {
      var arcs := arcStatuses.Keys;
      while arcs != {}
        invariant arcs <= arcStatuses.Keys == old(arcStatuses).Keys
        invariant forall a :: a in arcStatuses && a !in arcs ==> arcStatuses[a] == state
        decreases arcs
      {
        var arc :| arc in arcs;
        arcs := arcs - {arc};
        arcStatuses := arcStatuses[arc := state];
      }
    }

    method ProcessARCs(outcome: Outcome) returns (thrown: bool)
      modifies this`arcStatuses, this`status
      ensures arcStatuses.Keys == old(arcStatuses.Keys)
      ensures thrown <==>
        outcome.Throws? ||
        (outcome.returnCode == 0 && exists a :: a in old(arcStatuses) && Overflows(outcome.lines, a))
      ensures !thrown ==> arcStatuses == StatusesAfter(old(arcStatuses.Keys), outcome)
      ensures !thrown ==> status == if outcome.returnCode == 0 then RUN_COMPLETED else RUN_ERROR
    {
      if outcome.Throws? {
        return true;
      }
      if outcome.returnCode == 0 {
        thrown := ReadStatuses(outcome.lines);
        if !thrown {
          status := RUN_COMPLETED;
        }
      } else {
        SetAll(REJECTED);
        status := RUN_ERROR;
        thrown := false;
      }
    }

    /** Goes through the arcs and, for each, through the lines until one settles it. */
    method ReadStatuses(lines: seq<string>) returns (thrown: bool)
      modifies this`arcStatuses
      ensures arcStatuses.Keys == old(arcStatuses.Keys)
      ensures thrown <==> exists a :: a in old(arcStatuses) && Overflows(lines, a)
      ensures !thrown ==> forall a :: a in arcStatuses ==> arcStatuses[a] == Verdict(lines, a)
    {
      var arcs := arcStatuses.Keys;
      while arcs != {}
        invariant arcs <= arcStatuses.Keys == old(arcStatuses).Keys
        invariant forall a :: a in arcStatuses && a !in arcs ==>
          arcStatuses[a] == Verdict(lines, a) && !Overflows(lines, a)
        decreases arcs
      {
        var arc :| arc in arcs;
        arcs := arcs - {arc};
        arcStatuses := arcStatuses[arc := REJECTED];
        var i := 0;
        while i < |lines| && !Settles(lines[i], arc)
          invariant 0 <= i <= |lines|
          invariant forall j :: 0 <= j < i ==> !Settles(lines[j], arc)
        {
          i := i + 1;
        }
        assert i == FirstSettling(lines, arc);
        if i < |lines| {
          var rc := Code(lines[i]);
          if rc > ArcPath.MAX_INT {
            return true;
          }
          arcStatuses := arcStatuses[arc := if rc == 0 then COMPLETED else REJECTED];
        }
      }
      thrown := false;
    }
  }
}
