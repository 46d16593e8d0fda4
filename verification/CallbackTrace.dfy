/** Whole runs of a callback list: passes never interleave, and fires are served in order. */
module CallbackTrace {
  import opened Wrappers
  import opened Callbacks
  import opened CallbackProofs

  // ---------- what one pass does ----------

  /**
   A finished pass that was not cut short called each entry that was there at its turn exactly
   once, in list order: no removal made it skip or repeat another entry.
   */
  lemma PassCallsEachOnce<F, D>(opts: Options, states: seq<State<F, D>>, steps: seq<Step<F, D>>, i: nat, j: nat)
    requires IsRun(opts, states, steps) && i < |states| && j < |states[i].h.passes|
    ensures
      var p := states[i].h.passes[j];
      && Increasing(p.calls)
      && (!p.cut ==> forall e :: e in p.calls <==> e in p.pool && e.tag !in p.early)
  {
    RunIsGood(opts, states, steps, i);
    var p := states[i].h.passes[j];
    assert Settled(p);
    if !p.cut {
      forall e
        ensures e in p.calls <==> e in p.pool && e.tag !in p.early
      {
        KeptMembers(p.pool, p.early, e);
      }
    }
  }

  /** While a list fires, firingLength is its length and the running callback is within it. */
  lemma FiringIndicesFit<F, D>(opts: Options, states: seq<State<F, D>>, steps: seq<Step<F, D>>, i: nat)
    requires IsRun(opts, states, steps) && i < |states| && states[i].firing && states[i].list.Some?
    ensures states[i].firingLength == |states[i].list.value| && -1 <= states[i].firingIndex < states[i].firingLength
  {
    RunIsGood(opts, states, steps, i);
  }

  // ---------- the whole trace ----------

  function Calls<F, D>(data: D, calls: seq<Entry<F>>): seq<(D, Entry<F>)> {
    seq(|calls|, (i: nat) requires i < |calls| => (data, calls[i]))
  }

  function Flat<F, D>(passes: seq<Pass<F, D>>): seq<(D, Entry<F>)> {
    if passes == [] then []
    else Flat(passes[..|passes| - 1]) + Calls(passes[|passes| - 1].data, passes[|passes| - 1].calls)
  }

  function Ongoing<F, D>(s: State<F, D>): seq<(D, Entry<F>)> {
    if s.h.current.Some? then Calls(s.h.current.value.data, s.h.current.value.calls) else []
  }

  /** All calls, in time order, are the calls of the finished passes one after the other, then the running one's. */
  ghost predicate Concatenated<F, D>(s: State<F, D>) {
    s.h.trace == Flat(s.h.passes) + Ongoing(s)
  }

  /** The data of the passes that were started by a fire. */
  function Served<F, D>(passes: seq<Pass<F, D>>): seq<D> {
    if passes == [] then []
    else Served(passes[..|passes| - 1]) + if passes[|passes| - 1].replay then [] else [passes[|passes| - 1].data]
  }

  function InService<F, D>(s: State<F, D>): seq<D> {
    if s.h.current.Some? && !s.h.current.value.replay then [s.h.current.value.data] else []
  }

  /** Fires in the order issued: served, being served, still queued. */
  ghost predicate InOrder<F, D>(s: State<F, D>) {
    && s.list.Some? && s.stack.Some?
    && s.h.issued == Served(s.h.passes) + InService(s) + s.stack.value
    && (!s.firing ==> s.stack.value == [])
  }

  // ---------- calls come pass by pass ----------

  lemma {:induction false} BeginConcatenates<F, D>(s: State<F, D>, data: D, replay: bool)
    requires s.list.Some? && s.firingStart <= |s.list.value|
    requires s.h.current.None? && Concatenated(s)
    ensures Concatenated(Begin(s, data, replay))
    decreases Waiting(s), 2
  {
    var t := Started(s, data, replay);
    assert Ongoing(t) == [];
    TurnConcatenates(t);
  }

  lemma {:induction false} TurnConcatenates<F, D>(s: State<F, D>)
    requires s.h.current.Some? && s.firingStart == 0 && Concatenated(s)
    ensures Concatenated(Turn(s))
    decreases Waiting(s), 1
  {
    if s.list.Some? && s.firingIndex < s.firingLength {
      if 0 <= s.firingIndex < |s.list.value| {
        var p, e := s.h.current.value, s.list.value[s.firingIndex];
        assert Calls(p.data, p.calls + [e]) == Calls(p.data, p.calls) + [(p.data, e)];
      }
    } else {
      FinishConcatenates(s);
    }
  }

  lemma ArchiveConcatenates<F, D>(s: State<F, D>)
    requires s.h.current.Some? && Concatenated(s)
    ensures Concatenated(Archived(s))
  {
    var p := s.h.current.value;
  }

  lemma {:induction false} FinishConcatenates<F, D>(s: State<F, D>)
    requires s.h.current.Some? && s.firingStart == 0 && Concatenated(s)
    ensures Concatenated(Finish(s))
    decreases Waiting(s), 0
  {
    var t := Archived(s);
    ArchiveConcatenates(s);
    if t.list.Some? && t.stack.Some? && t.stack.value != [] {
      BeginConcatenates(t.(stack := Some(t.stack.value[1..])), t.stack.value[0], false);
    }
  }

  /** remove touches neither the stack nor the history of calls. */
  lemma {:induction false} RemovedFrame<F, D>(s: State<F, D>, fns: seq<F>)
    ensures
      var t := Removed(s, fns);
      && (t.list.Some? <==> s.list.Some?) && t.stack == s.stack && t.firing == s.firing && t.h.trace == s.h.trace
      && t.h.passes == s.h.passes && t.h.issued == s.h.issued
      && Ongoing(t) == Ongoing(s) && InService(t) == InService(s)
    decreases |fns|
  {
    if fns == [] || s.list.None? {
    } else {
      RemovedFrame(RemovedOne(s, fns[0]), fns[1..]);
    }
  }

  /** Whatever is called on a list, and from wherever, passes do not interleave. */
  lemma StepConcatenates<F, D>(s: State<F, D>, step: Step<F, D>)
    requires Enabled(s, step) && Concatenated(s)
    ensures Concatenated(Apply(s, step))
  {
    match step {
      case Add(fns) =>
        if s.list.Some? && !s.firing && s.memory.Some? {
          BeginConcatenates(Grown(s, fns).(firingStart := |s.list.value|), s.memory.value, true);
        }
      case Remove(fns) => RemovedFrame(s, fns);
      case Fire(data) =>
        if s.list.Some? && !s.firing && (!s.fired || s.stack.Some?) {
          BeginConcatenates(s.(h := s.h.(issued := s.h.issued + [data])), data, false);
        }
      case Return(ok) =>
        if !ok && s.opts.stopOnFalse {
          FinishConcatenates(Stopped(s));
        } else {
          TurnConcatenates(s.(firingIndex := s.firingIndex + 1));
        }
      case _ =>
    }
  }

  lemma {:induction false} RunConcatenates<F, D>(
      opts: Options, states: seq<State<F, D>>, steps: seq<Step<F, D>>, i: nat)
    requires IsRun(opts, states, steps) && i < |states|
    ensures Concatenated(states[i])
  {
    if i == 0 {
    } else {
      RunConcatenates(opts, states, steps, i - 1);
      StepConcatenates(states[i - 1], steps[i - 1]);
    }
  }

  // ---------- fires are served in the order issued ----------

  ghost predicate Queue<F, D>(s: State<F, D>) {
    s.stack.Some? && s.h.issued == Served(s.h.passes) + InService(s) + s.stack.value
  }

  lemma {:induction false} BeginServes<F, D>(s: State<F, D>, data: D, replay: bool)
    requires s.list.Some? && s.firingStart <= |s.list.value| && s.h.current.None?
    requires s.stack.Some?
    requires s.h.issued == Served(s.h.passes) + (if replay then [] else [data]) + s.stack.value
    ensures InOrder(Begin(s, data, replay))
    decreases Waiting(s), 2
  {
    var t := Started(s, data, replay);
    TurnServes(t);
  }

  lemma {:induction false} TurnServes<F, D>(s: State<F, D>)
    requires s.h.current.Some? && s.firingStart == 0 && s.firing && s.list.Some? && Queue(s)
    ensures InOrder(Turn(s))
    decreases Waiting(s), 1
  {
    if s.firingIndex >= s.firingLength {
      FinishServes(s);
    }
  }

  lemma {:induction false} FinishServes<F, D>(s: State<F, D>)
    requires s.h.current.Some? && s.firingStart == 0 && s.list.Some? && Queue(s)
    ensures InOrder(Finish(s))
    decreases Waiting(s), 0
  {
    var t := Archived(s);
    if t.stack.value != [] {
      var d := t.stack.value[0];
      assert t.stack.value == [d] + t.stack.value[1..];
      BeginServes(t.(stack := Some(t.stack.value[1..])), d, false);
    }
  }

  lemma StepServes<F, D>(s: State<F, D>, step: Step<F, D>)
    requires Enabled(s, step) && !step.Lock? && !step.Disable? && InOrder(s)
    ensures InOrder(Apply(s, step))
  {
    match step {
      case Add(fns) =>
        if !s.firing && s.memory.Some? {
          BeginServes(Grown(s, fns).(firingStart := |s.list.value|), s.memory.value, true);
        }
      case Remove(fns) => RemovedFrame(s, fns);
      case Fire(data) =>
        if !s.firing {
          BeginServes(s.(h := s.h.(issued := s.h.issued + [data])), data, false);
        }
      case Return(ok) =>
        if !ok && s.opts.stopOnFalse {
          var t := Stopped(s);
          FinishServes(t);
        } else {
          TurnServes(s.(firingIndex := s.firingIndex + 1));
        }
      case _ =>
    }
  }

  /**
   A list that is neither once, locked nor disabled serves every fire, those issued inside
   callbacks too, by a pass of its own in the order issued; what is not served yet is queued.
   */
  lemma {:induction false} RunServesInOrder<F, D>(
      opts: Options, states: seq<State<F, D>>, steps: seq<Step<F, D>>, i: nat)
    requires IsRun(opts, states, steps) && i < |states| && !opts.once
    requires forall j :: 0 <= j < |steps| ==> !steps[j].Lock? && !steps[j].Disable?
    ensures InOrder(states[i])
  {
    if i == 0 {
    } else {
      RunServesInOrder(opts, states, steps, i - 1);
      StepServes(states[i - 1], steps[i - 1]);
    }
  }

  /**
   With memory, callbacks added after a fire are called with the last data: a pass starts over
   exactly the entries that were added, and its first callback is running, if there are any.
   */
  lemma LateAddReplays<F, D>(s: State<F, D>, fns: seq<F>)
    requires Good(s) && Idle(s) && !s.firing && s.list.Some? && s.memory.Some? && s.opts.memory
    ensures
      var t := Apply(s, Add(fns));
      var added := Pushed(s.list.value, fns, s.opts.unique, s.h.nextTag)[|s.list.value|..];
      if added == [] then t.h.trace == s.h.trace && !t.firing
      else
        && t.firing && t.memory == s.memory && t.h.issued == s.h.issued && t.h.passes == s.h.passes
        && t.h.current == Some(Pass(s.memory.value, true, added, {}, [added[0]], false))
        && t.list == Some(s.list.value + added) && t.firingIndex == |s.list.value|
    ensures !s.opts.unique ==> AddsAll(Pushed(s.list.value, fns, false, s.h.nextTag)[|s.list.value|..], fns)
    ensures s.opts.unique ==> AddsMissing(s.list.value, Pushed(s.list.value, fns, true, s.h.nextTag), fns)
  {
    var list := s.list.value;
    if s.opts.unique {
      PushedMissing(list, fns, s.h.nextTag);
    } else {
      PushedAll(list, fns, s.h.nextTag);
    }
    var g := Grown(s, fns).(firingStart := |list|);
    var u := Started(g, s.memory.value, true);
    assert Apply(s, Add(fns)) == Turn(u);
    var all := Pushed(list, fns, s.opts.unique, s.h.nextTag);
    assert all == list + all[|list|..] && u.list.value == all;
    if u.firingIndex == u.firingLength {
      EmptyPassCallsNothing(u);
    } else {
      assert [] + [all[|list|]] == [all[|list|..][0]];
    }
  }

  /** Outside of passes no fire is waiting; a disabled list has no queue. */
  ghost predicate Idle<F, D>(s: State<F, D>) {
    (!s.firing ==> Waiting(s) == 0) && (s.list.None? ==> s.stack.None?)
  }

  lemma {:induction false} BeginLeavesIdle<F, D>(s: State<F, D>, data: D, replay: bool)
    requires s.list.Some? && s.firingStart <= |s.list.value|
    ensures Idle(Begin(s, data, replay))
    decreases Waiting(s), 1
  {
    var t := Started(s, data, replay);
    if t.firingIndex >= t.firingLength {
      FinishLeavesIdle(t);
    }
  }

  lemma {:induction false} FinishLeavesIdle<F, D>(s: State<F, D>)
    requires s.h.current.Some? && s.firingStart == 0 && (s.list.None? ==> s.stack.None?)
    ensures Idle(Finish(s))
    decreases Waiting(s), 0
  {
    var t := Archived(s);
    if t.list.Some? && t.stack.Some? && t.stack.value != [] {
      BeginLeavesIdle(t.(stack := Some(t.stack.value[1..])), t.stack.value[0], false);
    }
  }

  lemma StepLeavesIdle<F, D>(s: State<F, D>, step: Step<F, D>)
    requires Idle(s) && Enabled(s, step)
    ensures Idle(Apply(s, step))
  {
    match step {
      case Add(fns) =>
        if s.list.Some? && !s.firing && s.memory.Some? {
          BeginLeavesIdle(Grown(s, fns).(firingStart := |s.list.value|), s.memory.value, true);
        }
      case Remove(fns) => RemovedFrame(s, fns);
      case Fire(data) =>
        if s.list.Some? && !s.firing && (!s.fired || s.stack.Some?) {
          BeginLeavesIdle(s.(h := s.h.(issued := s.h.issued + [data])), data, false);
        }
      case Return(ok) =>
        if !ok && s.opts.stopOnFalse {
          FinishLeavesIdle(Stopped(s));
        } else if !(s.list.Some? && s.firingIndex + 1 < s.firingLength) {
          FinishLeavesIdle(s.(firingIndex := s.firingIndex + 1));
        }
      case _ =>
    }
  }

  lemma {:induction false} RunLeavesIdle<F, D>(opts: Options, states: seq<State<F, D>>, steps: seq<Step<F, D>>, i: nat)
    requires IsRun(opts, states, steps) && i < |states|
    ensures Idle(states[i])
  {
    if i == 0 {
    } else {
      RunLeavesIdle(opts, states, steps, i - 1);
      StepLeavesIdle(states[i - 1], steps[i - 1]);
    }
  }

  /** What was pushed are entries of all the functions, in order. */
  ghost predicate AddsAll<F>(added: seq<Entry<F>>, fns: seq<F>) {
    |added| == |fns| && forall j :: 0 <= j < |fns| ==> added[j].fn == fns[j]
  }

  /** Every function is in the list now, and those added were not in it before. */
  ghost predicate AddsMissing<F>(list: seq<Entry<F>>, all: seq<Entry<F>>, fns: seq<F>) {
    && list <= all
    && (forall fn :: fn in fns ==> exists e :: e in all && e.fn == fn)
    && (forall i, j :: 0 <= i < j < |all| && |list| <= j ==> all[i].fn != all[j].fn)
    && forall j :: |list| <= j < |all| ==> all[j].fn in fns
  }

  lemma {:induction false} PushedMissing<F>(list: seq<Entry<F>>, fns: seq<F>, tag: nat)
    ensures AddsMissing(list, Pushed(list, fns, true, tag), fns)
    decreases |fns|
  {
    if fns == [] {
    } else if exists e :: e in list && e.fn == fns[0] {
      PushedMissing(list, fns[1..], tag);
      MissingOneMore(list, list, Pushed(list, fns, true, tag), fns);
    } else {
      PushedMissing(list + [Entry(fns[0], tag)], fns[1..], tag + 1);
      MissingOneMore(list, list + [Entry(fns[0], tag)], Pushed(list, fns, true, tag), fns);
    }
  }

  lemma MissingOneMore<F>(list: seq<Entry<F>>, next: seq<Entry<F>>, all: seq<Entry<F>>, fns: seq<F>)
    requires fns != [] && AddsMissing(next, all, fns[1..])
    requires exists e :: e in next && e.fn == fns[0]
    requires next == list ||
      (|next| == |list| + 1 && list <= next && next[|list|].fn == fns[0] && forall e :: e in list ==> e.fn != fns[0])
    ensures AddsMissing(list, all, fns)
  {
    forall fn | fn in fns
      ensures exists e :: e in all && e.fn == fn
    {
      if fn == fns[0] {
        var e :| e in next && e.fn == fns[0];
        assert e in all;
      } else {
        assert fn in fns[1..];
      }
    }
    forall i, j | 0 <= i < j < |all| && |list| <= j
      ensures all[i].fn != all[j].fn
    {
      if j < |next| {
        assert all[i] == list[i] && all[i] in list && all[j] == next[|list|];
      }
    }
    forall j | |list| <= j < |all|
      ensures all[j].fn in fns
    {
      if j >= |next| {
        assert all[j].fn in fns[1..];
      } else {
        assert all[j] == next[|list|];
      }
    }
  }

  lemma {:induction false} EmptyPassCallsNothing<F, D>(s: State<F, D>)
    requires s.h.current.Some? && s.firingStart == 0 && s.list.Some? &&
      s.firingIndex == s.firingLength == |s.list.value|
    requires s.stack.Some? ==> s.stack.value == []
    ensures Turn(s).h.trace == s.h.trace && !Turn(s).firing
  {
  }

  lemma {:induction false} PushedAll<F>(list: seq<Entry<F>>, fns: seq<F>, tag: nat)
    ensures
      var r := Pushed(list, fns, false, tag);
      AddsAll(r[|list|..], fns) && |r| == |list| + |fns| && forall j :: 0 <= j < |fns| ==> r[|list| + j].fn == fns[j]
    decreases |fns|
  {
    if fns == [] {
    } else {
      var next := list + [Entry(fns[0], tag)];
      PushedAll(next, fns[1..], tag + 1);
      var r := Pushed(list, fns, false, tag);
      assert r == Pushed(next, fns[1..], false, tag + 1);
      forall j | 0 <= j < |fns|
        ensures r[|list| + j].fn == fns[j]
      {
        if j == 0 {
          assert r[|list|] == next[|list|];
        } else {
          assert r[|next| + (j - 1)].fn == fns[1..][j - 1];
        }
      }
    }
  }
}
