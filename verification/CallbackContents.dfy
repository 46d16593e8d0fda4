/** What a callback list holds after each call on it, firing or not, and so who is called later. */
module CallbackContents {
  import opened Wrappers
  import opened Callbacks
  import opened CallbackProofs
  import opened CallbackEmpty
  import opened CallbackTrace

  // ---------- one call ----------

  lemma {:induction false} StripKeepsOthers<F>(list: seq<Entry<F>>, fn: F, e: Entry<F>)
    ensures e in Strip(list, fn) <==> e in list && e.fn != fn
  {
    if list == [] {
    } else {
      StripKeepsOthers(list[1..], fn, e);
    }
  }

  /** A list keeps its other entries, in the order of their tags, and has none of the functions removed. */
  ghost predicate Without<F(!new)>(before: seq<Entry<F>>, after: seq<Entry<F>>, fns: seq<F>) {
    Increasing(after) && forall e :: e in after <==> e in before && e.fn !in fns
  }

  /** remove, whether or not the list fires, takes out every entry of the functions and nothing else. */
  lemma {:induction false} RemoveTakesOut<F(!new), D>(s: State<F, D>, fns: seq<F>)
    requires s.list.Some? && Tagged(s.list.value, s.h.nextTag)
    ensures
      var t := Removed(s, fns);
      && t.list.Some? && Without(s.list.value, t.list.value, fns) && Tagged(t.list.value, s.h.nextTag)
      && t.h.trace == s.h.trace && t.h.nextTag == s.h.nextTag && t.firing == s.firing
      && t.memory == s.memory && t.stack == s.stack && t.fired == s.fired
    decreases |fns|
  {
    if fns == [] {
    } else {
      var list := s.list.value;
      StripTagged(list, fns[0], s.h.nextTag);
      RemoveTakesOut(RemovedOne(s, fns[0]), fns[1..]);
      forall e
        ensures e in Strip(list, fns[0]) <==> e in list && e.fn != fns[0]
        ensures e.fn in fns <==> e.fn == fns[0] || e.fn in fns[1..]
      {
        StripKeepsOthers(list, fns[0], e);
      }
    }
  }

  /** The same in every run, also one in which callbacks empty the list. */
  lemma RemoveInRuns<F(!new), D>(opts: Options, states: seq<State<F, D>>, steps: seq<Step<F, D>>, i: nat)
    requires CallbackEmpty.IsAnyRun(opts, states, steps) && i < |steps| && steps[i].Remove? && states[i].list.Some?
    ensures
      && states[i + 1].list.Some? && Without(states[i].list.value, states[i + 1].list.value, steps[i].fns)
      && states[i + 1].h.trace == states[i].h.trace && states[i + 1].firing == states[i].firing
  {
    assert Enabled(states[i], steps[i]);
    RunIsSound(opts, states, steps, i);
    RemoveTakesOut(states[i], steps[i].fns);
  }

  /** add, if it does not replay, puts new entries behind the list and calls nothing. */
  lemma AddAppends<F(!new), D>(s: State<F, D>, fns: seq<F>)
    requires Enabled(s, Add(fns)) && s.list.Some? && (s.firing || s.memory.None?)
    ensures
      var t := Apply(s, Add(fns));
      && t.list.Some? && s.list.value <= t.list.value && t.h.trace == s.h.trace && t.firing == s.firing
      && (!s.opts.unique ==> AddsAll(t.list.value[|s.list.value|..], fns))
      && (s.opts.unique ==> AddsMissing(s.list.value, t.list.value, fns))
  {
    if s.opts.unique {
      PushedMissing(s.list.value, fns, s.h.nextTag);
    } else {
      PushedAll(s.list.value, fns, s.h.nextTag);
    }
  }

  /** empty leaves an empty list, and the calls made so far. */
  lemma EmptyTakesAll<F(!new), D>(s: State<F, D>)
    requires Enabled(s, Empty)
    ensures Apply(s, Empty) == s.(list := Some([]))
  {
  }

  /** fire on an idle list that accepts it runs a pass over the whole list, with its data. */
  lemma FireCallsList<F(!new), D>(s: State<F, D>, data: D)
    requires Good(s) && Idle(s) && !s.firing && s.list.Some? && s.list.value != []
    ensures
      var t := Apply(s, Fire(data));
      var list := s.list.value;
      if s.fired && s.stack.None? then t == s
      else
        && t.firing && t.list == s.list && t.h.current == Some(Pass(data, false, list, {}, [list[0]], false))
        && t.h.trace == s.h.trace + [(data, list[0])]
        && t.memory == if s.opts.memory then Some(data) else None
  {
    var u := Started(s.(h := s.h.(issued := s.h.issued + [data])), data, false);
    assert s.list.value[0..] == s.list.value && [] + [s.list.value[0]] == [s.list.value[0]];
    assert !(s.fired && s.stack.None?) ==> Apply(s, Fire(data)) == Turn(u);
  }

  /** A locked list that has fired takes no more fires. */
  lemma LockEndsFires<F(!new), D>(s: State<F, D>, data: D)
    requires Enabled(s, Lock) && (s.memory.Some? ==> s.fired)
    ensures
      var t := Apply(s, Lock);
      && Enabled(t, Fire(data)) && Apply(t, Fire(data)) == t
      && (s.memory.Some? ==> t == s.(stack := None)) && (s.memory.None? ==> t.list.None?)
  {
  }

  /** A disabled list has nothing to call or to remember, and takes neither callbacks nor fires. */
  lemma DisableEndsAll<F(!new), D>(s: State<F, D>, fns: seq<F>, data: D)
    requires Enabled(s, Disable)
    ensures
      var t := Apply(s, Disable);
      && t == s.(list := None, stack := None, memory := None)
      && Enabled(t, Add(fns)) && Apply(t, Add(fns)) == t && Apply(t, Fire(data)) == t && Apply(t, Remove(fns)) == t
  {
  }

  /** The callback that returns is the last of its pass, or stops it, and no fire is waiting. */
  ghost predicate ReturnEnds<F, D>(s: State<F, D>, ok: bool) {
    && s.list.Some? && Waiting(s) == 0
    && (s.firingIndex + 1 >= s.firingLength || (!ok && s.opts.stopOnFalse))
  }

  /**
   When a pass ends, a list keeps its callbacks if it may fire again; otherwise it keeps none, and
   is disabled unless it has data for callbacks added later.  Stopping a pass forgets the data.
   */
  lemma PassEndsLike<F(!new), D>(s: State<F, D>, ok: bool)
    requires Enabled(s, Return(ok)) && s.firing && ReturnEnds(s, ok)
    ensures
      var t := Apply(s, Return(ok));
      && !t.firing && !t.faulted && t.h.trace == s.h.trace && t.stack == s.stack
      && t.memory == (if !ok && s.opts.stopOnFalse then None else s.memory)
      && t.list == (if s.stack.Some? then s.list else if t.memory.Some? then Some([]) else None)
      && |t.h.passes| == |s.h.passes| + 1
      && t.h.passes[|s.h.passes|].cut == (s.h.current.value.cut || (!ok && s.opts.stopOnFalse))
  {
    var u := if !ok && s.opts.stopOnFalse then Stopped(s) else s.(firingIndex := s.firingIndex + 1);
    assert s.stack.Some? ==> s.stack.value == [];
    assert Apply(s, Return(ok)) == Finish(u);
    assert Finish(u).stack == u.stack && Finish(u).h == Archived(u).h;
  }

  /** When a callback returns and others are ahead, the next one in the list is called, with the same data. */
  lemma ReturnCallsNext<F(!new), D>(s: State<F, D>, ok: bool)
    requires Good(s) && s.firing && s.list.Some? && s.firingIndex + 1 < |s.list.value| && (ok || !s.opts.stopOnFalse)
    ensures
      var t := Apply(s, Return(ok));
      var next := s.list.value[s.firingIndex + 1];
      && t.firing && !t.faulted && t.list == s.list && t.memory == s.memory && t.stack == s.stack
      && t.h.trace == s.h.trace + [(s.h.current.value.data, next)]
      && t.h.current == Some(s.h.current.value.(calls := s.h.current.value.calls + [next]))
  {
  }

  // ---------- who is called from then on ----------

  /** All entries of the list are allowed. */
  ghost predicate Only<F, D>(s: State<F, D>, allowed: Entry<F> -> bool) {
    s.list.Some? ==> forall i :: 0 <= i < |s.list.value| ==> allowed(s.list.value[i])
  }

  /** Every call from position n of the trace on is of an allowed entry, and so is what is in the list. */
  ghost predicate OnlyCalls<F, D>(s: State<F, D>, allowed: Entry<F> -> bool, n: nat) {
    && Only(s, allowed) && n <= |s.h.trace|
    && forall k :: n <= k < |s.h.trace| ==> allowed(s.h.trace[k].1)
  }

  lemma {:induction false} BeginCallsOnly<F, D>(
      s: State<F, D>, data: D, replay: bool, allowed: Entry<F> -> bool, n: nat)
    requires s.list.Some? && s.firingStart <= |s.list.value| && OnlyCalls(s, allowed, n)
    ensures OnlyCalls(Begin(s, data, replay), allowed, n)
    decreases Waiting(s), 2
  {
    TurnCallsOnly(Started(s, data, replay), allowed, n);
  }

  lemma {:induction false} TurnCallsOnly<F, D>(s: State<F, D>, allowed: Entry<F> -> bool, n: nat)
    requires s.h.current.Some? && s.firingStart == 0 && OnlyCalls(s, allowed, n)
    ensures OnlyCalls(Turn(s), allowed, n)
    decreases Waiting(s), 1
  {
    if s.list.Some? && s.firingIndex < s.firingLength {
    } else {
      FinishCallsOnly(s, allowed, n);
    }
  }

  lemma {:induction false} FinishCallsOnly<F, D>(s: State<F, D>, allowed: Entry<F> -> bool, n: nat)
    requires s.h.current.Some? && s.firingStart == 0 && OnlyCalls(s, allowed, n)
    ensures OnlyCalls(Finish(s), allowed, n)
    decreases Waiting(s), 0
  {
    var t := Archived(s);
    if t.list.Some? && t.stack.Some? && t.stack.value != [] {
      BeginCallsOnly(t.(stack := Some(t.stack.value[1..])), t.stack.value[0], false, allowed, n);
    }
  }

  lemma {:induction false} RemovedIsOnly<F, D>(s: State<F, D>, fns: seq<F>, allowed: Entry<F> -> bool, n: nat)
    requires OnlyCalls(s, allowed, n)
    ensures OnlyCalls(Removed(s, fns), allowed, n)
    decreases |fns|
  {
    if fns == [] || s.list.None? {
    } else {
      StripMembers(s.list.value, fns[0]);
      var t := RemovedOne(s, fns[0]);
      forall i | 0 <= i < |t.list.value|
        ensures allowed(t.list.value[i])
      {
        assert t.list.value[i] in s.list.value;
      }
      RemovedIsOnly(t, fns[1..], allowed, n);
    }
  }

  lemma {:induction false} PushedIsOnly<F>(
      list: seq<Entry<F>>, fns: seq<F>, unique: bool, tag: nat, allowed: Entry<F> -> bool)
    requires forall i :: 0 <= i < |list| ==> allowed(list[i])
    requires forall k, t: nat :: 0 <= k < |fns| && t >= tag ==> allowed(Entry(fns[k], t))
    ensures forall i :: 0 <= i < |Pushed(list, fns, unique, tag)| ==> allowed(Pushed(list, fns, unique, tag)[i])
    decreases |fns|
  {
    if fns == [] {
    } else {
      assert allowed(Entry(fns[0], tag));
      if unique && exists e :: e in list && e.fn == fns[0] {
        PushedIsOnly(list, fns[1..], unique, tag, allowed);
      } else {
        PushedIsOnly(list + [Entry(fns[0], tag)], fns[1..], unique, tag + 1, allowed);
      }
    }
  }

  /** What a step may add is allowed. */
  ghost predicate AddsOnly<F, D>(s: State<F, D>, step: Step<F, D>, allowed: Entry<F> -> bool) {
    step.Add? ==> forall k, t: nat :: 0 <= k < |step.fns| && t >= s.h.nextTag ==> allowed(Entry(step.fns[k], t))
  }

  lemma StepCallsOnly<F, D>(s: State<F, D>, step: Step<F, D>, allowed: Entry<F> -> bool, n: nat)
    requires Enabled(s, step) && OnlyCalls(s, allowed, n) && AddsOnly(s, step, allowed)
    ensures OnlyCalls(Apply(s, step), allowed, n)
  {
    match step {
      case Add(fns) =>
        if s.list.Some? {
          PushedIsOnly(s.list.value, fns, s.opts.unique, s.h.nextTag, allowed);
          if !s.firing && s.memory.Some? {
            BeginCallsOnly(Grown(s, fns).(firingStart := |s.list.value|), s.memory.value, true, allowed, n);
          }
        }
      case Remove(fns) => RemovedIsOnly(s, fns, allowed, n);
      case Empty =>
      case Disable =>
      case Lock =>
      case Fire(data) =>
        if !s.firing && s.list.Some? && (!s.fired || s.stack.Some?) {
          BeginCallsOnly(s.(h := s.h.(issued := s.h.issued + [data])), data, false, allowed, n);
        }
      case Return(ok) =>
        if !ok && s.opts.stopOnFalse {
          FinishCallsOnly(Stopped(s), allowed, n);
        } else {
          TurnCallsOnly(s.(firingIndex := s.firingIndex + 1), allowed, n);
        }
    }
  }

  lemma {:induction false} RunCallsOnly<F, D>(
      opts: Options, states: seq<State<F, D>>, steps: seq<Step<F, D>>, i: nat, j: nat, allowed: Entry<F> -> bool)
    requires CallbackEmpty.IsAnyRun(opts, states, steps) && i <= j < |states| && Only(states[i], allowed)
    requires forall m {:trigger steps[m]} :: i <= m < j ==> AddsOnly(states[m], steps[m], allowed)
    ensures OnlyCalls(states[j], allowed, |states[i].h.trace|)
    decreases j
  {
    if i == j {
    } else {
      RunCallsOnly(opts, states, steps, i, j - 1, allowed);
      assert Enabled(states[j - 1], steps[j - 1]) && AddsOnly(states[j - 1], steps[j - 1], allowed);
      StepCallsOnly(states[j - 1], steps[j - 1], allowed, |states[i].h.trace|);
    }
  }

  /** A function that was removed is not called any more until it is added again, whatever else happens. */
  lemma RemovedIsNotCalled<F(!new), D>(
      opts: Options, states: seq<State<F, D>>, steps: seq<Step<F, D>>, i: nat, j: nat, fn: F, k: nat)
    requires CallbackEmpty.IsAnyRun(opts, states, steps) && i < j < |states| && steps[i].Remove? && fn in steps[i].fns
    requires forall m :: i < m < j && steps[m].Add? ==> fn !in steps[m].fns
    requires |states[i + 1].h.trace| <= k < |states[j].h.trace|
    ensures states[j].h.trace[k].1.fn != fn
  {
    if states[i].list.Some? {
      RemoveInRuns(opts, states, steps, i);
    } else {
      assert Enabled(states[i], steps[i]) && states[i + 1] == states[i];
    }
    var allowed := (e: Entry<F>) => e.fn != fn;
    assert Only(states[i + 1], allowed) by {
      if states[i + 1].list.Some? {
        var after := states[i + 1].list.value;
        assert forall p :: 0 <= p < |after| ==> after[p] in after;
      }
    }
    RunCallsOnly(opts, states, steps, i + 1, j, allowed);
    assert allowed(states[j].h.trace[k].1);
  }

  /** Only a list that has fired has data to remember. */
  ghost predicate Remembers<F, D>(s: State<F, D>) {
    s.memory.Some? ==> s.fired
  }

  /** fire's loop adds nothing to the list, and accepts no fire by itself. */
  ghost predicate Looped<F, D>(s: State<F, D>, t: State<F, D>) {
    && t.opts == s.opts && t.h.nextTag == s.h.nextTag && t.h.issued == s.h.issued
    && (s.stack.None? ==> t.stack.None?) && (s.fired ==> t.fired) && (Remembers(s) ==> Remembers(t))
    && (t.list == s.list || t.list == None || (s.list.Some? && t.list == Some([])))
  }

  lemma {:induction false} BeginLoops<F, D>(s: State<F, D>, data: D, replay: bool)
    requires s.list.Some? && s.firingStart <= |s.list.value|
    ensures Looped(s, Begin(s, data, replay))
    decreases Waiting(s), 1
  {
    var t := Started(s, data, replay);
    if t.firingIndex >= t.firingLength {
      FinishLoops(t);
    }
  }

  lemma {:induction false} FinishLoops<F, D>(s: State<F, D>)
    requires s.h.current.Some? && s.firingStart == 0
    ensures Looped(s, Finish(s))
    decreases Waiting(s), 0
  {
    var t := Archived(s);
    if t.list.Some? && t.stack.Some? && t.stack.value != [] {
      BeginLoops(t.(stack := Some(t.stack.value[1..])), t.stack.value[0], false);
    }
  }

  lemma ReturnLoops<F, D>(s: State<F, D>, ok: bool)
    requires Enabled(s, Return(ok))
    ensures Looped(s, Apply(s, Return(ok)))
  {
    if !ok && s.opts.stopOnFalse {
      FinishLoops(Stopped(s));
    } else if !(s.list.Some? && s.firingIndex + 1 < s.firingLength) {
      FinishLoops(s.(firingIndex := s.firingIndex + 1));
    }
  }

  /** A fire is taken by a list that has a queue, or never fired: it starts a pass, or is queued during one. */
  lemma FireLoops<F, D>(s: State<F, D>, data: D)
    requires Enabled(s, Fire(data))
    ensures
      var t := Apply(s, Fire(data));
      var taken := s.list.Some? && (s.stack.Some? || (!s.fired && !s.firing));
      if !taken then t == s
      else if s.firing then t == s.(stack := Some(s.stack.value + [data]), h := s.h.(issued := s.h.issued + [data]))
      else Looped(s.(h := s.h.(issued := s.h.issued + [data])), t)
  {
    if !s.firing && s.list.Some? && (!s.fired || s.stack.Some?) {
      BeginLoops(s.(h := s.h.(issued := s.h.issued + [data])), data, false);
    }
  }

  lemma AddLoops<F, D>(s: State<F, D>, fns: seq<F>)
    requires Enabled(s, Add(fns)) && s.list.Some?
    ensures Looped(Grown(s, fns), Apply(s, Add(fns)))
  {
    if !s.firing && s.memory.Some? {
      BeginLoops(Grown(s, fns).(firingStart := |s.list.value|), s.memory.value, true);
    }
  }

  ghost predicate NoneTwice<F, D>(s: State<F, D>) {
    s.list.Some? ==> forall a, b :: 0 <= a < b < |s.list.value| ==> s.list.value[a].fn != s.list.value[b].fn
  }

  /** Tags only grow, and a list that keeps no repetitions gets none. */
  ghost predicate Books<F, D>(s: State<F, D>, t: State<F, D>) {
    t.opts == s.opts && t.h.nextTag >= s.h.nextTag && (s.opts.unique && NoneTwice(s) ==> NoneTwice(t))
  }

  lemma StepBooks<F(!new), D>(s: State<F, D>, step: Step<F, D>)
    requires Enabled(s, step)
    ensures Books(s, Apply(s, step))
  {
    match step {
      case Add(fns) =>
        if s.list.Some? {
          AddLoops(s, fns);
          if s.opts.unique {
            PushedMissing(s.list.value, fns, s.h.nextTag);
          }
        }
      case Remove(fns) => RemovedBooks(s, fns);
      case Empty =>
      case Disable =>
      case Lock =>
      case Fire(data) => FireLoops(s, data);
      case Return(ok) => ReturnLoops(s, ok);
    }
  }

  lemma {:induction false} RemovedBooks<F(!new), D>(s: State<F, D>, fns: seq<F>)
    ensures Books(s, Removed(s, fns))
    decreases |fns|
  {
    if fns == [] || s.list.None? {
    } else {
      if NoneTwice(s) {
        StripKeepsUnique(s.list.value, fns[0]);
      }
      RemovedBooks(RemovedOne(s, fns[0]), fns[1..]);
    }
  }

  lemma {:induction false} StripKeepsUnique<F(!new)>(list: seq<Entry<F>>, fn: F)
    requires forall a, b :: 0 <= a < b < |list| ==> list[a].fn != list[b].fn
    ensures forall a, b :: 0 <= a < b < |Strip(list, fn)| ==> Strip(list, fn)[a].fn != Strip(list, fn)[b].fn
  {
    if list == [] {
    } else {
      StripKeepsUnique(list[1..], fn);
      StripMembers(list[1..], fn);
      forall b | 0 <= b < |Strip(list[1..], fn)|
        ensures Strip(list[1..], fn)[b].fn != list[0].fn
      {
        assert Strip(list[1..], fn)[b] in list[1..];
      }
    }
  }

  lemma {:induction false} RunBooks<F(!new), D>(
      opts: Options, states: seq<State<F, D>>, steps: seq<Step<F, D>>, i: nat, j: nat)
    requires CallbackEmpty.IsAnyRun(opts, states, steps) && i <= j < |states|
    ensures Books(states[i], states[j])
    decreases j
  {
    if i == j {
    } else {
      RunBooks(opts, states, steps, i, j - 1);
      assert Enabled(states[j - 1], steps[j - 1]);
      StepBooks(states[j - 1], steps[j - 1]);
    }
  }

  /** A list that keeps no repetitions never has any. */
  lemma UniqueInRuns<F(!new), D>(opts: Options, states: seq<State<F, D>>, steps: seq<Step<F, D>>, i: nat)
    requires CallbackEmpty.IsAnyRun(opts, states, steps) && i < |states| && opts.unique
    ensures NoneTwice(states[i])
  {
    RunBooks(opts, states, steps, 0, i);
  }

  // ---------- who is fired ----------

  /** The data of the fires among the first n steps. */
  function FiresOf<F, D>(steps: seq<Step<F, D>>, n: nat): seq<D>
    requires n <= |steps|
  {
    if n == 0 then [] else FiresOf(steps, n - 1) + if steps[n - 1].Fire? then [steps[n - 1].data] else []
  }

  /** A list with a queue takes every fire, and only fires. */
  lemma StepIssues<F, D>(s: State<F, D>, step: Step<F, D>)
    requires Enabled(s, step) && s.list.Some? && s.stack.Some?
    ensures Apply(s, step).h.issued == s.h.issued + if step.Fire? then [step.data] else []
  {
    match step {
      case Add(fns) => AddLoops(s, fns);
      case Remove(fns) => RemovedFrame(s, fns);
      case Empty =>
      case Disable =>
      case Lock =>
      case Fire(data) => FireLoops(s, data);
      case Return(ok) => ReturnLoops(s, ok);
    }
  }

  /**
   A list that is neither once, locked nor disabled takes every fire: those served, the one in
   service and those queued are the fires of the run, in order.
   */
  lemma {:induction false} EveryFireIsServed<F, D>(
      opts: Options, states: seq<State<F, D>>, steps: seq<Step<F, D>>, i: nat)
    requires CallbackProofs.IsRun(opts, states, steps) && i < |states| && !opts.once
    requires forall j :: 0 <= j < |steps| ==> !steps[j].Lock? && !steps[j].Disable?
    ensures InOrder(states[i]) && states[i].h.issued == FiresOf(steps, i)
  {
    RunServesInOrder(opts, states, steps, i);
    if i == 0 {
    } else {
      EveryFireIsServed(opts, states, steps, i - 1);
      StepIssues(states[i - 1], steps[i - 1]);
    }
  }

  /** After empty or disable, only callbacks that are added later are ever called. */
  lemma EmptiedIsNotCalled<F(!new), D>(
      opts: Options, states: seq<State<F, D>>, steps: seq<Step<F, D>>, i: nat, j: nat, k: nat)
    requires CallbackEmpty.IsAnyRun(opts, states, steps) && i < j < |states| && (steps[i].Empty? || steps[i].Disable?)
    requires |states[i + 1].h.trace| <= k < |states[j].h.trace|
    ensures states[j].h.trace[k].1.tag >= states[i].h.nextTag
  {
    assert Enabled(states[i], steps[i]);
    var allowed := (e: Entry<F>) => e.tag >= states[i].h.nextTag;
    forall m | i + 1 <= m < j
      ensures AddsOnly(states[m], steps[m], allowed)
    {
      RunBooks(opts, states, steps, i, m);
    }
    RunCallsOnly(opts, states, steps, i + 1, j, allowed);
    assert allowed(states[j].h.trace[k].1);
  }
}
