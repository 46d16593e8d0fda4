/** Passes over a callback list that changes while it is being fired. */
module CallbackProofs {
  import opened Wrappers
  import opened Callbacks

  // ---------- lists ----------

  /** Tags grow along the list and stay below the next one. */
  ghost predicate Tagged<F>(list: seq<Entry<F>>, next: nat) {
    Increasing(list) && forall i :: 0 <= i < |list| ==> list[i].tag < next
  }

  ghost predicate Increasing<F>(list: seq<Entry<F>>) {
    forall i, j :: 0 <= i < j < |list| ==> list[i].tag < list[j].tag
  }

  lemma {:induction false} StripConcat<F>(a: seq<Entry<F>>, b: seq<Entry<F>>, fn: F)
    ensures Strip(a + b, fn) == Strip(a, fn) + Strip(b, fn)
  {
    if a == [] {
      assert a + b == b;
    } else {
      assert (a + b)[1..] == a[1..] + b;
      StripConcat(a[1..], b, fn);
    }
  }

  lemma {:induction false} KeptConcat<F>(a: seq<Entry<F>>, b: seq<Entry<F>>, tags: set<nat>)
    ensures Kept(a + b, tags) == Kept(a, tags) + Kept(b, tags)
  {
    if a == [] {
      assert a + b == b;
    } else {
      assert (a + b)[1..] == a[1..] + b;
      KeptConcat(a[1..], b, tags);
    }
  }

  lemma {:induction false} KeptMembers<F>(list: seq<Entry<F>>, tags: set<nat>, e: Entry<F>)
    ensures e in Kept(list, tags) <==> e in list && e.tag !in tags
  {
    if list == [] {
    } else {
      KeptMembers(list[1..], tags, e);
    }
  }

  lemma {:induction false} KeptTwice<F>(a: seq<Entry<F>>, s: set<nat>, t: set<nat>)
    ensures Kept(Kept(a, s), t) == Kept(a, s + t)
  {
    if a == [] {
    } else {
      KeptTwice(a[1..], s, t);
      KeptConcat(if a[0].tag in s then [] else [a[0]], Kept(a[1..], s), t);
    }
  }

  lemma {:induction false} KeptAll<F>(a: seq<Entry<F>>, tags: set<nat>)
    requires forall i :: 0 <= i < |a| ==> a[i].tag !in tags
    ensures Kept(a, tags) == a
  {
    if a == [] {
    } else {
      KeptAll(a[1..], tags);
    }
  }

  /** Removing functions and removing the tags of their entries is the same. */
  lemma {:induction false} KeptIsStrip<F>(a: seq<Entry<F>>, fn: F, tags: set<nat>)
    requires forall i :: 0 <= i < |a| ==> (a[i].tag in tags <==> a[i].fn == fn)
    ensures Kept(a, tags) == Strip(a, fn)
  {
    if a == [] {
    } else {
      KeptIsStrip(a[1..], fn, tags);
    }
  }

  lemma {:induction false} StripMembers<F>(a: seq<Entry<F>>, fn: F)
    ensures |Strip(a, fn)| <= |a|
    ensures forall e: Entry<F> :: e in Strip(a, fn) ==> e in a && e.fn != fn
  {
    if a == [] {
    } else {
      StripMembers(a[1..], fn);
    }
  }

  lemma {:induction false} StripTagged<F>(a: seq<Entry<F>>, fn: F, next: nat)
    requires Tagged(a, next)
    ensures Tagged(Strip(a, fn), next)
    ensures forall j :: 0 <= j < |Strip(a, fn)| ==> Strip(a, fn)[j].tag >= a[0].tag
  {
    if a == [] {
    } else {
      assert Tagged(a[1..], next);
      StripTagged(a[1..], fn, next);
      assert |a| > 1 ==> a[0].tag < a[1..][0].tag;
    }
  }

  lemma {:induction false} PushedTagged<F>(a: seq<Entry<F>>, fns: seq<F>, unique: bool, tag: nat)
    requires Tagged(a, tag)
    ensures Tagged(Pushed(a, fns, unique, tag), tag + |fns|)
    ensures forall i :: |a| <= i < |Pushed(a, fns, unique, tag)| ==> Pushed(a, fns, unique, tag)[i].tag >= tag
    decreases |fns|
  {
    if fns == [] {
    } else {
      if unique && exists e :: e in a && e.fn == fns[0] {
        PushedTagged(a, fns[1..], unique, tag);
      } else {
        PushedTagged(a + [Entry(fns[0], tag)], fns[1..], unique, tag + 1);
      }
    }
  }

  // ---------- one pass ----------

  /** The calls made in a pass that is over or has run out of entries. */
  ghost predicate Exact<F, D>(p: Pass<F, D>) {
    p.calls == Kept(p.pool, p.early)
  }

  ghost predicate PassTagged<F, D>(p: Pass<F, D>, next: nat) {
    Tagged(p.pool, next) && Tagged(p.calls, next) && forall t :: t in p.early ==> t < next
  }

  /**
   A running pass: its calls so far and the entries ahead are its pool without those removed
   early; entries ahead carry later tags than the last call.
   */
  ghost predicate PassAt<F, D>(p: Pass<F, D>, ahead: seq<Entry<F>>, next: nat) {
    && p.calls + ahead == Kept(p.pool, p.early) && PassTagged(p, next) && |p.calls| > 0
    && forall j :: 0 <= j < |ahead| ==> p.calls[|p.calls| - 1].tag < ahead[j].tag
  }

  ghost predicate InPass<F, D>(s: State<F, D>)
    requires s.list.Some? && s.h.current.Some?
  {
    && s.firingLength == |s.list.value| && -1 <= s.firingIndex < |s.list.value|
    && PassAt(s.h.current.value, After(s.list.value, s.firingIndex), s.h.nextTag)
  }

  /** A finished pass that nothing cut short called what its pool and removals prescribe. */
  ghost predicate Settled<F, D>(p: Pass<F, D>) {
    Increasing(p.calls) && (!p.cut ==> Exact(p))
  }

  /** What holds of the list and of the finished passes at any time. */
  ghost predicate Sane<F, D>(s: State<F, D>) {
    && !s.faulted
    && (s.list.Some? ==> Tagged(s.list.value, s.h.nextTag))
    && forall i :: 0 <= i < |s.h.passes| ==> Settled(s.h.passes[i])
  }

  ghost predicate Good<F, D>(s: State<F, D>) {
    && Regular(s) && Sane(s)
    && (s.firing ==> !s.h.current.value.cut && Increasing(s.h.current.value.calls))
    && (s.firing && s.list.Some? ==> InPass(s))
  }

  /** The state at the loop's test: everything from firingIndex on is still to be called. */
  ghost predicate AtTest<F, D>(s: State<F, D>) {
    && Sane(s) && s.firingStart == 0 && s.fired && s.firing && s.h.current.Some?
    && !s.h.current.value.cut && Increasing(s.h.current.value.calls)
    && (s.list.Some? ==>
          var p, list := s.h.current.value, s.list.value;
          && s.firingLength == |list| && 0 <= s.firingIndex <= |list|
          && p.calls + list[s.firingIndex..] == Kept(p.pool, p.early)
          && PassTagged(p, s.h.nextTag)
          && forall i, j :: 0 <= i < |p.calls| && s.firingIndex <= j < |list| ==> p.calls[i].tag < list[j].tag)
  }

  // ---------- the loop of fire ----------

  lemma {:induction false} BeginIsGood<F, D>(s: State<F, D>, data: D, replay: bool)
    requires Sane(s) && s.list.Some? && s.firingStart <= |s.list.value|
    ensures Good(Begin(s, data, replay))
    decreases Waiting(s), 2
  {
    StartedAtTest(s, data, replay);
    TurnIsGood(Started(s, data, replay));
  }

  lemma StartedAtTest<F, D>(s: State<F, D>, data: D, replay: bool)
    requires Sane(s) && s.list.Some? && s.firingStart <= |s.list.value|
    ensures AtTest(Started(s, data, replay))
  {
    var pool := s.list.value[s.firingStart..];
    KeptAll(pool, {});
    assert [] + pool == pool;
  }

  lemma {:induction false} TurnIsGood<F, D>(s: State<F, D>)
    requires AtTest(s)
    ensures Good(Turn(s))
    decreases Waiting(s), 1
  {
    if !(s.list.Some? && s.firingIndex < s.firingLength) {
      if s.list.Some? {
        assert s.list.value[s.firingIndex..] == [];
      }
      FinishIsGood(s);
    }
  }

  lemma {:induction false} FinishIsGood<F, D>(s: State<F, D>)
    requires Sane(s) && s.firingStart == 0 && s.fired && s.h.current.Some?
    requires s.list.Some? ==> Settled(s.h.current.value)
    requires s.list.None? ==> Increasing(s.h.current.value.calls)
    ensures Good(Finish(s))
    decreases Waiting(s), 0
  {
    var t := Archived(s);
    assert Sane(t);
    if t.list.Some? && t.stack.Some? && t.stack.value != [] {
      BeginIsGood(t.(stack := Some(t.stack.value[1..])), t.stack.value[0], false);
    }
  }

  lemma ReturnIsGood<F, D>(s: State<F, D>, ok: bool)
    requires Good(s) && s.firing
    ensures Good(Returned(s, ok))
  {
    if !ok && s.opts.stopOnFalse {
      FinishIsGood(Stopped(s));
    } else {
      TurnIsGood(s.(firingIndex := s.firingIndex + 1));
    }
  }

  // ---------- add and remove during a pass ----------

  lemma PoolGrows<F, D>(p: Pass<F, D>, ahead: seq<Entry<F>>, more: seq<Entry<F>>, next: nat, end: nat)
    requires PassAt(p, ahead, next) && Tagged(more, end) && next <= end
    requires forall i :: 0 <= i < |more| ==> more[i].tag >= next
    ensures PassAt(p.(pool := p.pool + more), ahead + more, end)
  {
    KeptConcat(p.pool, more, p.early);
    KeptAll(more, p.early);
    assert p.calls + (ahead + more) == (p.calls + ahead) + more;
    PoolTagged(p, more, next, end);
  }

  lemma PoolTagged<F, D>(p: Pass<F, D>, more: seq<Entry<F>>, next: nat, end: nat)
    requires PassTagged(p, next) && Tagged(more, end) && next <= end
    requires forall i :: 0 <= i < |more| ==> more[i].tag >= next
    ensures PassTagged(p.(pool := p.pool + more), end)
  {
    TaggedConcat(p.pool, more, next, end);
  }

  lemma TaggedConcat<F>(list: seq<Entry<F>>, more: seq<Entry<F>>, next: nat, end: nat)
    requires Tagged(list, next) && Tagged(more, end) && next <= end
    requires forall i :: 0 <= i < |more| ==> more[i].tag >= next
    ensures Tagged(list + more, end)
  {
  }

  lemma GrownInPass<F, D>(s: State<F, D>, fns: seq<F>)
    requires Good(s) && s.firing && s.list.Some?
    ensures Good(Grown(s, fns))
  {
    var list, i := s.list.value, s.firingIndex;
    var all := Pushed(list, fns, s.opts.unique, s.h.nextTag);
    PushedTagged(list, fns, s.opts.unique, s.h.nextTag);
    var more := all[|list|..];
    assert After(all, i) == After(list, i) + more;
    PoolGrows(s.h.current.value, After(list, i), more, s.h.nextTag, s.h.nextTag + |fns|);
  }

  lemma AddIsGood<F, D>(s: State<F, D>, fns: seq<F>)
    requires Good(s) && s.list.Some?
    ensures Good(Added(s, fns))
  {
    PushedTagged(s.list.value, fns, s.opts.unique, s.h.nextTag);
    if s.firing {
      GrownInPass(s, fns);
    } else if s.memory.Some? {
      BeginIsGood(Grown(s, fns).(firingStart := |s.list.value|), s.memory.value, true);
    }
  }

  /** Removals split at the firing index: those behind it were called or not due, those ahead come off the rest. */
  lemma RemovedSplits<F>(list: seq<Entry<F>>, i: int, fn: F)
    requires -1 <= i < |list|
    ensures
      var j := i - (|Upto(list, i)| - |Strip(Upto(list, i), fn)|);
      && -1 <= j < |Strip(list, fn)|
      && After(Strip(list, fn), j) == Strip(After(list, i), fn)
  {
    var seen, ahead := Upto(list, i), After(list, i);
    assert list == seen + ahead;
    StripConcat(seen, ahead, fn);
    var j := i - (|seen| - |Strip(seen, fn)|);
    assert j + 1 == |Strip(seen, fn)|;
    assert After(Strip(list, fn), j) == Strip(list, fn)[j + 1..];
  }

  /** Taking functions off the entries ahead is the same as marking those entries' tags as removed early. */
  lemma PoolShrinks<F, D>(p: Pass<F, D>, ahead: seq<Entry<F>>, fn: F, late: set<nat>, next: nat)
    requires p.calls + ahead == Kept(p.pool, p.early) && PassTagged(p, next) && Tagged(ahead, next)
    requires forall i, j :: 0 <= i < |p.calls| && 0 <= j < |ahead| ==> p.calls[i].tag < ahead[j].tag
    requires late == set e | e in ahead && e.fn == fn :: e.tag
    ensures
      var q := p.(early := p.early + late);
      q.calls + Strip(ahead, fn) == Kept(q.pool, q.early) && PassTagged(q, next)
  {
    KeptTwice(p.pool, p.early, late);
    KeptConcat(p.calls, ahead, late);
    KeptAll(p.calls, late);
    forall i | 0 <= i < |ahead|
      ensures ahead[i].tag in late <==> ahead[i].fn == fn
    {
      SameTagSameEntry(ahead, i, fn, late, next);
    }
    KeptIsStrip(ahead, fn, late);
  }

  lemma SameTagSameEntry<F>(list: seq<Entry<F>>, i: nat, fn: F, tags: set<nat>, next: nat)
    requires Tagged(list, next) && i < |list|
    requires tags == set e | e in list && e.fn == fn :: e.tag
    ensures list[i].tag in tags <==> list[i].fn == fn
  {
    if list[i].tag in tags {
      var e :| e in list && e.fn == fn && e.tag == list[i].tag;
      var j :| 0 <= j < |list| && list[j] == e;
      assert !(i < j) && !(j < i);
    }
    if list[i].fn == fn {
      assert list[i] in list;
    }
  }

  lemma AheadShrinks<F, D>(p: Pass<F, D>, ahead: seq<Entry<F>>, fn: F, next: nat)
    requires PassAt(p, ahead, next) && Tagged(ahead, next) && Increasing(p.calls)
    ensures PassAt(p.(early := p.early + set e | e in ahead && e.fn == fn :: e.tag), Strip(ahead, fn), next)
  {
    forall i, j | 0 <= i < |p.calls| && 0 <= j < |ahead|
      ensures p.calls[i].tag < ahead[j].tag
    {
      assert i < |p.calls| - 1 ==> p.calls[i].tag < p.calls[|p.calls| - 1].tag;
    }
    PoolShrinks(p, ahead, fn, set e | e in ahead && e.fn == fn :: e.tag, next);
    StripAhead(ahead, fn, p.calls[|p.calls| - 1].tag);
  }

  lemma RemovedInPass<F, D>(s: State<F, D>, fn: F)
    requires Good(s) && s.firing && s.list.Some?
    ensures InPass(RemovedOne(s, fn))
  {
    var list, i := s.list.value, s.firingIndex;
    RemovedSplits(list, i, fn);
    AheadShrinks(s.h.current.value, After(list, i), fn, s.h.nextTag);
  }

  lemma {:induction false} RemoveIsGood<F, D>(s: State<F, D>, fns: seq<F>)
    requires Good(s)
    ensures Good(Removed(s, fns))
    decreases |fns|
  {
    if fns == [] || s.list.None? {
    } else {
      StripTagged(s.list.value, fns[0], s.h.nextTag);
      if s.firing {
        RemovedInPass(s, fns[0]);
      }
      RemoveIsGood(RemovedOne(s, fns[0]), fns[1..]);
    }
  }

  lemma {:induction false} StripAhead<F>(ahead: seq<Entry<F>>, fn: F, last: nat)
    requires forall i :: 0 <= i < |ahead| ==> last < ahead[i].tag
    ensures forall i :: 0 <= i < |Strip(ahead, fn)| ==> last < Strip(ahead, fn)[i].tag
  {
    if ahead == [] {
    } else {
      StripAhead(ahead[1..], fn, last);
    }
  }

  // ---------- every step ----------

  /** empty() during a pass is the one call that breaks the pass. */
  ghost predicate EmptiesInPass<F, D>(s: State<F, D>, step: Step<F, D>) {
    step.Empty? && s.firing
  }

  lemma StepIsGood<F, D>(s: State<F, D>, step: Step<F, D>)
    requires Good(s) && Enabled(s, step) && !EmptiesInPass(s, step)
    ensures Good(Apply(s, step))
  {
    match step {
      case Add(fns) =>
        if s.list.Some? {
          AddIsGood(s, fns);
        }
      case Remove(fns) => RemoveIsGood(s, fns);
      case Fire(data) =>
        if s.list.Some? && !s.firing && (!s.fired || s.stack.Some?) {
          BeginIsGood(s.(h := s.h.(issued := s.h.issued + [data])), data, false);
        }
      case Return(ok) => ReturnIsGood(s, ok);
      case _ =>
    }
  }

  /** A run of a list created with the given flags. */
  ghost predicate IsRun<F, D>(opts: Options, states: seq<State<F, D>>, steps: seq<Step<F, D>>) {
    && |states| == |steps| + 1 && states[0] == New(opts)
    && forall i {:trigger steps[i]} :: 0 <= i < |steps| ==>
         && Enabled(states[i], steps[i]) && !EmptiesInPass(states[i], steps[i])
         && states[i + 1] == Apply(states[i], steps[i])
  }

  lemma {:induction false} RunIsGood<F, D>(opts: Options, states: seq<State<F, D>>, steps: seq<Step<F, D>>, i: nat)
    requires IsRun(opts, states, steps) && i < |states|
    ensures Good(states[i])
  {
    if i == 0 {
    } else {
      RunIsGood(opts, states, steps, i - 1);
      StepIsGood(states[i - 1], steps[i - 1]);
    }
  }
}
