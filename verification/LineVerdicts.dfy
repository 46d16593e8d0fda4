/** When the output of a worker's shell call gives every (W)ARC the verdict of its own line. */
module LineVerdicts {
  import ArcPath
  import opened Archon
  import opened IndexWorker

  // ---------- one arc ----------

  /** A line of the arc's own decides if no line in front of it contains the arc's name. */
  lemma OwnLineDecides(lines: seq<string>, arc: string, own: nat)
    requires own < |lines| && Settles(lines[own], arc)
    requires forall j :: 0 <= j < own ==> !ContainsArc(lines[j], arc)
    ensures Verdict(lines, arc) == if Code(lines[own]) == 0 then COMPLETED else REJECTED
  {
    assert FirstSettling(lines, arc) == own;
  }

  // ---------- output with one line per arc ----------

  /** The text of a return code that fits in 32 bits. */
  predicate IsCode(text: string) {
    ArcPath.IsNumeral(text) && ArcPath.Digits(text) <= ArcPath.MAX_INT
  }

  /** What stands behind the return code in the arc's own line. */
  predicate IsRest(rest: string, arc: string) {
    rest != "" && IsSpace(rest[0]) && ContainsArc(rest, arc) && forall k :: 1 <= k < |rest| ==> !IsLineEnd(rest[k])
  }

  /** Lines that each give one return code, for the arcs in the order of the lines. */
  function Lines(codes: seq<string>, rests: seq<string>): (r: seq<string>)
    requires |codes| == |rests|
    ensures |r| == |codes| && forall i :: 0 <= i < |r| ==> r[i] == codes[i] + rests[i]
  {
    seq(|codes|, (i: nat) requires i < |codes| => codes[i] + rests[i])
  }

  predicate AreCodes(codes: seq<string>, n: nat) {
    |codes| == n && forall i :: 0 <= i < n ==> IsCode(codes[i])
  }

  predicate AreRests(rests: seq<string>, arcs: seq<string>) {
    |rests| == |arcs| && forall i :: 0 <= i < |arcs| ==> IsRest(rests[i], arcs[i])
  }

  function OwnVerdict(code: string): ArcState {
    if ArcPath.Digits(code) == 0 then COMPLETED else REJECTED
  }

  lemma {:induction false} LeadingCode(code: string, rest: string)
    requires (forall c :: c in code ==> ArcPath.IsDigit(c)) && rest != "" && IsSpace(rest[0])
    ensures LeadingDigits(code + rest) == |code|
  {
    if code == "" {
      assert code + rest == rest;
    } else {
      assert (code + rest)[1..] == code[1..] + rest;
      LeadingCode(code[1..], rest);
    }
  }

  lemma CodeLine(code: string, rest: string)
    requires IsCode(code) && rest != "" && IsSpace(rest[0]) && forall k :: 1 <= k < |rest| ==> !IsLineEnd(rest[k])
    ensures HasCode(code + rest) && Code(code + rest) == ArcPath.Digits(code)
  {
    LeadingCode(code, rest);
    assert (code + rest)[..|code|] == code;
    forall i | |code| < i < |code + rest|
      ensures !IsLineEnd((code + rest)[i])
    {
      assert (code + rest)[i] == rest[i - |code|];
    }
  }

  lemma BehindContains(code: string, rest: string, arc: string)
    requires ContainsArc(rest, arc)
    ensures ContainsArc(code + rest, arc)
  {
    var i :| 0 <= i <= |rest| && OccursAt(rest, arc, i);
    var at := |code| + i;
    assert (code + rest)[at..at + |arc|] == rest[i..i + |arc|];
    assert OccursAt(code + rest, arc, at);
  }

  // ---------- whether a line can contain another arc's name ----------

  /** The line with this rest contains the arc's name, for some code in front of the rest. */
  predicate MayName(rest: string, arc: string) {
    ContainsArc(rest, arc) || exists p :: 0 < p <= |arc| && IsCode(arc[..p]) && arc[p..] <= rest
  }

  lemma {:induction false} FrontIsNoMore(a: string, b: string)
    requires ArcPath.IsNumeral(a + b)
    ensures ArcPath.Digits(a) <= ArcPath.Digits(a + b)
    decreases |b|
  {
    if b == "" {
      assert a + b == a;
    } else if |a + b| > 1 {
      var front := b[..|b| - 1];
      assert (a + b)[..|a + b| - 1] == a + front;
      FrontIsNoMore(a, front);
    }
  }

  lemma {:induction false} EndIsNoMore(a: string, b: string)
    requires ArcPath.IsNumeral(a + b)
    ensures ArcPath.Digits(b) <= ArcPath.Digits(a + b)
    decreases |b|
  {
    if b == "" {
    } else if |a + b| > 1 {
      var front := b[..|b| - 1];
      assert (a + b)[..|a + b| - 1] == a + front;
      EndIsNoMore(a, front);
    }
  }

  lemma PartIsCode(code: string, from: nat, to: nat)
    requires IsCode(code) && from < to <= |code|
    ensures IsCode(code[from..to])
  {
    assert code[..from] + code[from..] == code && code[from..to] + code[to..] == code[from..];
    EndIsNoMore(code[..from], code[from..]);
    FrontIsNoMore(code[from..to], code[to..]);
  }

  /** The name starts inside the code: its front is digits, and its end is in front of the rest. */
  lemma StartsInCode(code: string, rest: string, arc: string, at: nat)
    requires IsCode(code) && arc != "" && at < |code| && OccursAt(code + rest, arc, at)
    ensures MayName(rest, arc)
  {
    var p := if |code| - at < |arc| then |code| - at else |arc|;
    forall k | 0 <= k < p
      ensures arc[k] == code[at + k]
    {
      assert (code + rest)[at..at + |arc|][k] == arc[k];
    }
    assert arc[..p] == code[at..at + p];
    PartIsCode(code, at, at + p);
    forall k | 0 <= k < |arc| - p
      ensures k < |rest| && rest[k] == arc[p + k]
    {
      assert (code + rest)[at..at + |arc|][p + k] == arc[p + k];
    }
    assert arc[p..] == rest[..|arc| - p];
  }

  lemma ContainedMayBeNamed(code: string, rest: string, arc: string)
    requires IsCode(code) && ContainsArc(code + rest, arc)
    ensures MayName(rest, arc)
  {
    var i :| 0 <= i <= |code + rest| && OccursAt(code + rest, arc, i);
    if i >= |code| {
      assert rest[i - |code|..i - |code| + |arc|] == (code + rest)[i..i + |arc|];
      assert OccursAt(rest, arc, i - |code|);
    } else if arc == "" {
      assert OccursAt(rest, arc, 0);
    } else {
      StartsInCode(code, rest, arc, i);
    }
  }

  /** The condition says just what it is for. */
  lemma MayNameIff(rest: string, arc: string)
    ensures MayName(rest, arc) <==> exists code :: IsCode(code) && ContainsArc(code + rest, arc)
  {
    if ContainsArc(rest, arc) {
      BehindContains("0", rest, arc);
      assert IsCode("0");
    } else if MayName(rest, arc) {
      var p :| 0 < p <= |arc| && IsCode(arc[..p]) && arc[p..] <= rest;
      assert (arc[..p] + rest)[..|arc|] == arc;
      assert OccursAt(arc[..p] + rest, arc, 0);
    }
    forall code | IsCode(code) && ContainsArc(code + rest, arc)
      ensures MayName(rest, arc)
    {
      ContainedMayBeNamed(code, rest, arc);
    }
  }

  // ---------- when every arc gets its own line's verdict ----------

  /** The run completes and gives arc i the verdict of its own line. */
  ghost predicate OwnLineCounts(arcs: seq<string>, codes: seq<string>, rests: seq<string>, i: nat)
    requires |codes| == |rests| == |arcs| && i < |arcs|
  {
    var run := Exited(0, Lines(codes, rests));
    var all := set a | a in arcs;
    RunsThrough(all, run) && StatusesAfter(all, run)[arcs[i]] == OwnVerdict(codes[i])
  }

  lemma NoOverflow(codes: seq<string>, rests: seq<string>, arcs: seq<string>, arc: string)
    requires AreCodes(codes, |arcs|) && AreRests(rests, arcs)
    ensures !Overflows(Lines(codes, rests), arc)
  {
    var i := FirstSettling(Lines(codes, rests), arc);
    if i < |codes| {
      assert IsRest(rests[i], arcs[i]);
      CodeLine(codes[i], rests[i]);
    }
  }

  lemma CountsIfUnnamedBefore(arcs: seq<string>, codes: seq<string>, rests: seq<string>, i: nat)
    requires AreCodes(codes, |arcs|) && AreRests(rests, arcs) && i < |arcs|
    requires forall j :: 0 <= j < i ==> !MayName(rests[j], arcs[i])
    ensures OwnLineCounts(arcs, codes, rests, i)
  {
    var lines := Lines(codes, rests);
    forall a | a in arcs
      ensures !Overflows(lines, a)
    {
      NoOverflow(codes, rests, arcs, a);
    }
    forall j | 0 <= j < i
      ensures !ContainsArc(lines[j], arcs[i])
    {
      MayNameIff(rests[j], arcs[i]);
    }
    CodeLine(codes[i], rests[i]);
    BehindContains(codes[i], rests[i], arcs[i]);
    OwnLineDecides(lines, arcs[i], i);
  }

  /** Line j says the opposite of line i and contains its name; before j the name does not occur. */
  lemma MisjudgedBy(arcs: seq<string>, codes: seq<string>, rests: seq<string>, j: nat, i: nat)
    requires AreCodes(codes, |arcs|) && AreRests(rests, arcs) && j < i < |arcs|
    requires forall m :: 0 <= m < j ==> !MayName(rests[m], arcs[i])
    requires ContainsArc(codes[j] + rests[j], arcs[i]) && OwnVerdict(codes[j]) != OwnVerdict(codes[i])
    ensures !OwnLineCounts(arcs, codes, rests, i)
  {
    var lines := Lines(codes, rests);
    forall m | 0 <= m < j
      ensures !ContainsArc(lines[m], arcs[i])
    {
      MayNameIff(rests[m], arcs[i]);
    }
    CodeLine(codes[j], rests[j]);
    OwnLineDecides(lines, arcs[i], j);
  }

  lemma {:induction false} FirstNaming(rests: seq<string>, arc: string, j: nat) returns (first: nat)
    requires j < |rests| && MayName(rests[j], arc)
    ensures first <= j && MayName(rests[first], arc) && forall m :: 0 <= m < first ==> !MayName(rests[m], arc)
  {
    if m :| 0 <= m < j && MayName(rests[m], arc) {
      first := FirstNaming(rests, arc, m);
    } else {
      first := j;
    }
  }

  /** Some return codes for which arc i is given another verdict than that of its own line. */
  lemma MisjudgingCodes(arcs: seq<string>, rests: seq<string>, j: nat, i: nat) returns (codes: seq<string>)
    requires AreRests(rests, arcs) && j < i < |arcs| && MayName(rests[j], arcs[i])
    ensures AreCodes(codes, |arcs|) && !OwnLineCounts(arcs, codes, rests, i)
  {
    var first := FirstNaming(rests, arcs[i], j);
    MayNameIff(rests[first], arcs[i]);
    var code :| IsCode(code) && ContainsArc(code + rests[first], arcs[i]);
    var other := if ArcPath.Digits(code) == 0 then "1" else "0";
    assert IsCode("0") && IsCode("1") && ArcPath.Digits("0") == 0 && ArcPath.Digits("1") == 1;
    codes := seq(|arcs|, m => if m == first then code else other);
    MisjudgedBy(arcs, codes, rests, first, i);
  }

  /**
   For output with one line of its own for each arc: every arc is given the verdict of its own
   line, whatever the return codes are, exactly if no earlier line can contain its name.
   */
  lemma OwnVerdictsIff(arcs: seq<string>, rests: seq<string>)
    requires AreRests(rests, arcs)
    ensures
      (forall codes, i :: AreCodes(codes, |arcs|) && 0 <= i < |arcs| ==> OwnLineCounts(arcs, codes, rests, i))
      <==> forall j, i :: 0 <= j < i < |arcs| ==> !MayName(rests[j], arcs[i])
  {
    if forall j, i :: 0 <= j < i < |arcs| ==> !MayName(rests[j], arcs[i]) {
      forall codes, i | AreCodes(codes, |arcs|) && 0 <= i < |arcs|
        ensures OwnLineCounts(arcs, codes, rests, i)
      {
        CountsIfUnnamedBefore(arcs, codes, rests, i);
      }
    } else {
      var j, i :| 0 <= j < i < |arcs| && MayName(rests[j], arcs[i]);
      var codes := MisjudgingCodes(arcs, rests, j, i);
    }
  }

  lemma NameIsRest(arc: string)
    requires forall c :: c in arc ==> !IsLineEnd(c)
    ensures IsRest(" " + arc, arc)
  {
    assert (" " + arc)[1..1 + |arc|] == arc;
    assert OccursAt(" " + arc, arc, 1);
  }

  /** An arc whose name is part of another's gets the verdict of that other's line if it comes first. */
  lemma OuterJudgesInner(inner: string, outer: string, first: string, second: string)
    requires ContainsArc(outer, inner) && IsCode(first) && IsCode(second)
    requires forall c :: c in inner + outer ==> !IsLineEnd(c)
    ensures
      var lines := [first + (" " + outer), second + (" " + inner)];
      StatusesAfter({inner, outer}, Exited(0, lines))[inner] == OwnVerdict(first)
  {
    var arcs, codes, rests := [outer, inner], [first, second], [" " + outer, " " + inner];
    NameIsRest(inner);
    NameIsRest(outer);
    assert AreRests(rests, arcs);
    var lines := [first + (" " + outer), second + (" " + inner)];
    assert lines == Lines(codes, rests);
    BehindContains(first, rests[0], outer);
    CodeLine(first, rests[0]);
    SubstringIsMisjudged(inner, outer, lines, 0);
    NoOverflow(codes, rests, arcs, inner);
    NoOverflow(codes, rests, arcs, outer);
  }

  /** x.arc failed in its own line, but x.arc.gz succeeded in the line before: x.arc is completed. */
  lemma FailedArcIsCompleted()
    ensures
      var lines := ["0" + (" " + "x.arc.gz"), "1" + (" " + "x.arc")];
      StatusesAfter({"x.arc", "x.arc.gz"}, Exited(0, lines))["x.arc"] == COMPLETED != OwnVerdict("1")
  {
    assert OccursAt("x.arc.gz", "x.arc", 0);
    assert ArcPath.Digits("0") == 0 && ArcPath.Digits("1") == 1;
    OuterJudgesInner("x.arc", "x.arc.gz", "0", "1");
  }

  // ---------- which lines carry a code ----------

  /** The line is some digits, a space, and anything up to its end. */
  ghost predicate IsCodeLine(line: string, code: string, space: char, rest: string) {
    && line == code + [space] + rest && ArcPath.IsNumeral(code) && IsSpace(space)
    && forall c :: c in rest ==> !IsLineEnd(c)
  }

  lemma {:induction false} DigitsInFront(line: string)
    ensures forall i :: 0 <= i < LeadingDigits(line) ==> ArcPath.IsDigit(line[i])
    ensures LeadingDigits(line) < |line| ==> !ArcPath.IsDigit(line[LeadingDigits(line)])
  {
    if line == "" || !ArcPath.IsDigit(line[0]) {
    } else {
      DigitsInFront(line[1..]);
    }
  }

  lemma CodeLineHasCode(line: string, code: string, space: char, rest: string)
    requires IsCodeLine(line, code, space, rest)
    ensures HasCode(line) && Code(line) == ArcPath.Digits(code)
  {
    assert line == code + ([space] + rest);
    LeadingCode(code, [space] + rest);
    assert line[..|code|] == code;
    forall i | |code| < i < |line|
      ensures !IsLineEnd(line[i])
    {
      assert line[i] == rest[i - |code| - 1];
    }
  }

  lemma HasCodeIsCodeLine(line: string)
    requires HasCode(line)
    ensures
      var n := LeadingDigits(line);
      IsCodeLine(line, line[..n], line[n], line[n + 1..])
  {
    var n := LeadingDigits(line);
    DigitsInFront(line);
    assert line == line[..n] + [line[n]] + line[n + 1..];
  }

  /** A line has a return code exactly if it is of that form, and then the digits are the code. */
  lemma HasCodeIff(line: string)
    ensures HasCode(line) <==> exists code, space, rest :: IsCodeLine(line, code, space, rest)
    ensures forall code, space, rest :: IsCodeLine(line, code, space, rest) ==> Code(line) == ArcPath.Digits(code)
  {
    if HasCode(line) {
      HasCodeIsCodeLine(line);
    }
    forall code, space, rest | IsCodeLine(line, code, space, rest)
      ensures HasCode(line) && Code(line) == ArcPath.Digits(code)
    {
      CodeLineHasCode(line, code, space, rest);
    }
  }

  /** The arc's first line with a code has one that is no 32-bit number. */
  ghost predicate CodeTooLarge(lines: seq<string>, arc: string) {
    exists i :: 0 <= i < |lines| && FirstWithCode(lines, arc, i) && Code(lines[i]) >= 0x8000_0000
  }

  ghost predicate FirstWithCode(lines: seq<string>, arc: string, i: int)
    requires 0 <= i < |lines|
  {
    && ContainsArc(lines[i], arc) && HasCode(lines[i])
    && forall j :: 0 <= j < i ==> !(ContainsArc(lines[j], arc) && HasCode(lines[j]))
  }

  /** A run that cannot be made, or fails, or writes a code that is too large for one arc, rejects all arcs. */
  lemma FailedRunRejectsAll(arcs: set<string>, outcome: Outcome, arc: string)
    requires arc in arcs
    requires outcome.Throws? || outcome.returnCode != 0 || exists a :: a in arcs && CodeTooLarge(outcome.lines, a)
    ensures StatusesAfter(arcs, outcome)[arc] == REJECTED
  {
    if outcome.Exited? && outcome.returnCode == 0 {
      var a :| a in arcs && CodeTooLarge(outcome.lines, a);
      var i :| 0 <= i < |outcome.lines| && FirstWithCode(outcome.lines, a, i) && Code(outcome.lines[i]) >= 0x8000_0000;
      assert FirstSettling(outcome.lines, a) == i;
    }
  }

  /** Otherwise an arc is completed exactly if its first line with a code says 0. */
  lemma CompletedIff(arcs: set<string>, outcome: Outcome, arc: string)
    requires arc in arcs && outcome.Exited? && outcome.returnCode == 0
    requires !exists a :: a in arcs && CodeTooLarge(outcome.lines, a)
    ensures StatusesAfter(arcs, outcome)[arc] == COMPLETED <==>
      exists i :: 0 <= i < |outcome.lines| && FirstWithCode(outcome.lines, arc, i) && Code(outcome.lines[i]) == 0
  {
    forall a | a in arcs
      ensures !Overflows(outcome.lines, a)
    {
      var i := FirstSettling(outcome.lines, a);
      if i < |outcome.lines| {
        assert FirstWithCode(outcome.lines, a, i);
        assert !CodeTooLarge(outcome.lines, a);
      }
    }
    var i := FirstSettling(outcome.lines, arc);
    if i < |outcome.lines| {
      assert FirstWithCode(outcome.lines, arc, i);
    }
    forall j | 0 <= j < |outcome.lines| && FirstWithCode(outcome.lines, arc, j)
      ensures j == i
    {
    }
  }
}
