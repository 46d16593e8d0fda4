/**
 `empty` from inside a callback.  It swaps the list for a new one and leaves the firing indices
 as they are, so the pass may call undefined, or pass over callbacks that are added later.
 */
module CallbackEmpty {
  import opened Wrappers
  import opened Callbacks
  import opened CallbackProofs

  // ---------- a pass in which anything may be called ----------

  ghost function Tags<F>(list: seq<Entry<F>>): set<nat> {
    set e | e in list :: e.tag
  }

  /** The entries that the pass has yet to call. */
  function Ahead<F, D>(s: State<F, D>): seq<Entry<F>> {
    if s.list.Some? then After(s.list.value, s.firingIndex) else []
  }

  /** The entries added by a step at positions that the pass has gone by already. */
  function PassedOver<F(==), D>(s: State<F, D>, fns: seq<F>): seq<Entry<F>>
    requires s.list.Some?
  {
    var all := Pushed(s.list.value, fns, s.opts.unique, s.h.nextTag);
    Upto(all, s.firingIndex)[if s.firingIndex < |s.list.value| then |Upto(all, s.firingIndex)| else |s.list.value|..]
  }

  /** The tags of entries that lose their turn in the present pass, other than by remove. */
  ghost function LostBy<F, D>(s: State<F, D>, step: Step<F, D>): set<nat> {
    if !s.firing || s.list.None? then {}
    else
      match step
      case Empty => Tags(Ahead(s))
      case Disable => Tags(Ahead(s))
      case Lock => if s.memory.None? then Tags(Ahead(s)) else {}
      case Add(fns) => Tags(PassedOver(s, fns))
      case _ => {}
  }

  /** The pass as if what it lost had been removed. */
  ghost function Less<F, D>(p: Pass<F, D>, lost: set<nat>): Pass<F, D> {
    p.(early := p.early + lost)
  }

  /** What holds in all runs: the calls so far and those ahead are the pool without removed and lost entries. */
  ghost predicate Sound<F, D>(s: State<F, D>, lost: set<nat>) {
    && Regular(s) && Listed(s)
    && (s.firing ==>
          var p := s.h.current.value;
          && s.firingIndex >= -1 && s.firingLength >= 0 && !p.cut && Increasing(p.calls)
          && (s.list.Some? ==> |s.list.value| <= s.firingLength)
          && PassAt(Less(p, lost), Ahead(s), s.h.nextTag))
  }

  ghost predicate Listed<F, D>(s: State<F, D>) {
    && !s.faulted && (s.list.Some? ==> Tagged(s.list.value, s.h.nextTag))
    && forall i :: 0 <= i < |s.h.passes| ==> Increasing(s.h.passes[i].calls)
  }

  /** A new pass has lost nothing. */
  ghost function LostAfter<F, D>(s: State<F, D>, step: Step<F, D>, t: State<F, D>, lost: set<nat>): set<nat> {
    if !s.firing || (step.Return? && t.h.passes != s.h.passes) then {} else lost + LostBy(s, step)
  }

  // ---------- starting and ending passes ----------

  lemma FirstCall<F>(list: seq<Entry<F>>, i: nat, next: nat)
    requires i < |list| && Tagged(list, next)
    ensures [list[i]] + After(list, i) == Kept(list[i..], {})
    ensures Tagged(list[i..], next) && Tagged([list[i]], next)
    ensures forall j :: 0 <= j < |After(list, i)| ==> list[i].tag < After(list, i)[j].tag
  {
    KeptAll(list[i..], {});
    assert list[i..] == [list[i]] + list[i + 1..];
  }

  lemma StartedPass<F, D>(s: State<F, D>, data: D, replay: bool)
    requires Listed(s) && s.list.Some? && s.firingStart < |s.list.value|
    ensures
      var t := Turn(Started(s, data, replay));
      Sound(t, {}) && t.firing && t.h.passes == s.h.passes
  {
    var list, i := s.list.value, s.firingStart;
    FirstCall(list, i, s.h.nextTag);
    var t := Turn(Started(s, data, replay));
    var p := t.h.current.value;
    assert p.calls == [list[i]] && p.pool == list[i..];
    assert Less(p, {}) == p;
  }

  lemma {:induction false} BeginIsSound<F, D>(s: State<F, D>, data: D, replay: bool)
    requires Listed(s) && s.list.Some? && s.firingStart <= |s.list.value|
    ensures Sound(Begin(s, data, replay), {}) && s.h.passes <= Begin(s, data, replay).h.passes
    decreases Waiting(s), 1
  {
    if s.firingStart < |s.list.value| {
      StartedPass(s, data, replay);
    } else {
      FinishIsSound(Started(s, data, replay));
    }
  }

  lemma {:induction false} FinishIsSound<F, D>(s: State<F, D>)
    requires Listed(s) && s.firingStart == 0 && s.fired && s.h.current.Some? && Increasing(s.h.current.value.calls)
    ensures Sound(Finish(s), {}) && Archived(s).h.passes <= Finish(s).h.passes
    decreases Waiting(s), 0
  {
    var t := Archived(s);
    assert Listed(t);
    if t.list.Some? && t.stack.Some? && t.stack.value != [] {
      BeginIsSound(t.(stack := Some(t.stack.value[1..])), t.stack.value[0], false);
    }
  }

  // ---------- steps inside a pass ----------

  /** Entries taken off the rest of the pass count as removed. */
  lemma DroppedAhead<F, D>(p: Pass<F, D>, ahead: seq<Entry<F>>, next: nat)
    requires PassAt(p, ahead, next) && Tagged(ahead, next) && Increasing(p.calls)
    ensures PassAt(p.(early := p.early + Tags(ahead)), [], next)
  {
    var tags := Tags(ahead);
    KeptTwice(p.pool, p.early, tags);
    KeptConcat(p.calls, ahead, tags);
    forall i | 0 <= i < |p.calls|
      ensures p.calls[i].tag !in tags
    {
      assert i < |p.calls| - 1 ==> p.calls[i].tag < p.calls[|p.calls| - 1].tag;
    }
    KeptAll(p.calls, tags);
    KeptNone(ahead, tags);
    assert p.calls + [] == p.calls;
  }

  lemma {:induction false} KeptNone<F>(list: seq<Entry<F>>, tags: set<nat>)
    requires forall e :: e in list ==> e.tag in tags
    ensures Kept(list, tags) == []
  {
    if list == [] {
    } else {
      KeptNone(list[1..], tags);
    }
  }

  lemma DropIsSound<F, D>(s: State<F, D>, lost: set<nat>, t: State<F, D>)
    requires Sound(s, lost) && s.firing && s.list.Some?
    requires t == s.(list := t.list, stack := t.stack, memory := t.memory) && t.list in {None, Some([])}
    ensures Sound(t, lost + Tags(Ahead(s)))
  {
    var p := s.h.current.value;
    DroppedAhead(Less(p, lost), Ahead(s), s.h.nextTag);
    assert Less(p, lost).early + Tags(Ahead(s)) == p.early + (lost + Tags(Ahead(s)));
  }

  /** Of the entries added, those at positions the pass has gone by are lost and the rest is ahead. */
  lemma AddedSplits<F, D>(s: State<F, D>, fns: seq<F>)
    requires s.list.Some? && s.firingIndex >= -1
    ensures
      var all := Pushed(s.list.value, fns, s.opts.unique, s.h.nextTag);
      var more := all[|s.list.value|..];
      PassedOver(s, fns) <= more && After(all, s.firingIndex) == Ahead(s) + more[|PassedOver(s, fns)|..]
  {
    var list, i := s.list.value, s.firingIndex;
    var all := Pushed(list, fns, s.opts.unique, s.h.nextTag);
    if i < |list| {
      assert PassedOver(s, fns) == [];
    } else if i < |all| {
      assert PassedOver(s, fns) == all[|list|..i + 1];
    } else {
      assert PassedOver(s, fns) == all[|list|..];
    }
  }

  /** Dropping the tags of the entries passed over leaves the others, old and new. */
  lemma OverIsDropped<F>(old_: seq<Entry<F>>, over: seq<Entry<F>>, rest: seq<Entry<F>>, end: nat)
    requires Kept(old_, Tags(over)) == old_ && Tagged(over + rest, end)
    ensures Kept(old_ + (over + rest), Tags(over)) == old_ + rest
  {
    var tags := Tags(over);
    KeptConcat(old_, over + rest, tags);
    KeptConcat(over, rest, tags);
    KeptNone(over, tags);
    forall i | 0 <= i < |rest|
      ensures rest[i].tag !in tags
    {
      forall j | 0 <= j < |over|
        ensures over[j].tag < rest[i].tag
      {
        assert (over + rest)[j] == over[j] && (over + rest)[|over| + i] == rest[i];
      }
    }
    KeptAll(rest, tags);
    assert [] + rest == rest;
  }

  lemma PassGrows<F, D>(p: Pass<F, D>, lost: set<nat>, ahead: seq<Entry<F>>, over: seq<Entry<F>>, rest: seq<Entry<F>>,
                        next: nat, end: nat)
    requires PassAt(Less(p, lost), ahead, next) && Tagged(over + rest, end) && next <= end
    requires forall i :: 0 <= i < |over + rest| ==> (over + rest)[i].tag >= next
    ensures PassAt(Less(p.(pool := p.pool + (over + rest)), lost + Tags(over)), ahead + rest, end)
  {
    var q, tags := Less(p, lost), Tags(over);
    PoolGrows(q, ahead, over + rest, next, end);
    assert p.calls + (ahead + (over + rest)) == (p.calls + ahead) + (over + rest);
    NewTags(over, rest, next, end);
    OldTagsStay(p.calls + ahead, p.pool, q.early, tags, next);
    OverIsDropped(p.calls + ahead, over, rest, end);
    KeptTwice(p.pool + (over + rest), q.early, tags);
    assert (p.calls + ahead) + rest == p.calls + (ahead + rest);
    AheadGrows(ahead, over, rest, p.calls[|p.calls| - 1].tag);
    assert q.early + tags == p.early + (lost + tags);
  }

  lemma AheadGrows<F>(ahead: seq<Entry<F>>, over: seq<Entry<F>>, rest: seq<Entry<F>>, last: nat)
    requires forall i :: 0 <= i < |ahead| ==> last < ahead[i].tag
    requires forall i :: 0 <= i < |over + rest| ==> last < (over + rest)[i].tag
    ensures forall i :: 0 <= i < |ahead + rest| ==> last < (ahead + rest)[i].tag
  {
    forall i | 0 <= i < |rest|
      ensures last < rest[i].tag
    {
      assert (over + rest)[|over| + i] == rest[i];
    }
  }

  lemma NewTags<F>(over: seq<Entry<F>>, rest: seq<Entry<F>>, next: nat, end: nat)
    requires Tagged(over + rest, end) && forall i :: 0 <= i < |over + rest| ==> (over + rest)[i].tag >= next
    ensures forall t :: t in Tags(over) ==> next <= t < end
  {
    forall i | 0 <= i < |over|
      ensures next <= over[i].tag < end
    {
      assert (over + rest)[i] == over[i];
    }
  }

  /** Entries from before do not carry new tags. */
  lemma OldTagsStay<F>(list: seq<Entry<F>>, pool: seq<Entry<F>>, early: set<nat>, tags: set<nat>, next: nat)
    requires list == Kept(pool, early) && Tagged(pool, next) && forall t :: t in tags ==> t >= next
    ensures Kept(list, tags) == list
  {
    forall i | 0 <= i < |list|
      ensures list[i].tag !in tags
    {
      KeptMembers(pool, early, list[i]);
    }
    KeptAll(list, tags);
  }

  /** The state after entries were added, given where they go. */
  lemma GrownIsSound<F, D>(s: State<F, D>, lost: set<nat>, t: State<F, D>, over: seq<Entry<F>>, rest: seq<Entry<F>>)
    requires Sound(s, lost) && s.firing && s.list.Some? && s.h.nextTag <= t.h.nextTag
    requires t == s.(list := t.list, firingLength := t.firingLength, h := t.h)
    requires t.list == Some(s.list.value + (over + rest)) && t.firingLength == |t.list.value|
    requires t.h == s.h.(nextTag := t.h.nextTag, current := t.h.current)
    requires t.h.current == Some(s.h.current.value.(pool := s.h.current.value.pool + (over + rest)))
    requires Tagged(t.list.value, t.h.nextTag) && After(t.list.value, s.firingIndex) == Ahead(s) + rest
    requires forall i :: 0 <= i < |over + rest| ==> (over + rest)[i].tag >= s.h.nextTag
    ensures Sound(t, lost + Tags(over))
  {
    assert t.list.value[|s.list.value|..] == over + rest;
    TailTagged(t.list.value, |s.list.value|, t.h.nextTag);
    PassGrows(s.h.current.value, lost, Ahead(s), over, rest, s.h.nextTag, t.h.nextTag);
  }

  lemma TailTagged<F>(list: seq<Entry<F>>, n: nat, next: nat)
    requires Tagged(list, next) && n <= |list|
    ensures Tagged(list[n..], next)
  {
  }

  lemma AddInPassIsSound<F, D>(s: State<F, D>, lost: set<nat>, fns: seq<F>)
    requires Sound(s, lost) && s.firing && s.list.Some?
    ensures Sound(Apply(s, Add(fns)), lost + Tags(PassedOver(s, fns)))
  {
    var list, next := s.list.value, s.h.nextTag;
    var all := Pushed(list, fns, s.opts.unique, next);
    PushedTagged(list, fns, s.opts.unique, next);
    AddedSplits(s, fns);
    var over, more := PassedOver(s, fns), all[|list|..];
    var rest := more[|over|..];
    assert over + rest == more;
    assert all == list + more;
    GrownPass(s, fns);
    GrownIsSound(s, lost, Apply(s, Add(fns)), over, rest);
  }

  lemma GrownPass<F, D>(s: State<F, D>, fns: seq<F>)
    requires Regular(s) && !s.faulted && s.firing && s.list.Some?
    ensures
      var t := Apply(s, Add(fns));
      var all := Pushed(s.list.value, fns, s.opts.unique, s.h.nextTag);
      && t == s.(list := Some(all), firingLength := |all|, h := t.h)
      && t.h == s.h.(nextTag := s.h.nextTag + |fns|, current := t.h.current)
      && t.h.current == Some(s.h.current.value.(pool := s.h.current.value.pool + all[|s.list.value|..]))
  {
  }

  /** Wherever the firing index is, removal takes the function off what is ahead. */
  lemma RemovedAhead<F, D>(s: State<F, D>, fn: F)
    requires s.firing && s.list.Some? && s.firingIndex >= -1 && |s.list.value| <= s.firingLength
    ensures
      var t := RemovedOne(s, fn);
      && Ahead(t) == Strip(Ahead(s), fn) && t.firingIndex >= -1
      && t.list == Some(Strip(s.list.value, fn)) && 0 <= |t.list.value| <= t.firingLength
  {
    var list, i := s.list.value, s.firingIndex;
    StripMembers(list, fn);
    StripMembers(Upto(list, i), fn);
    if i < |list| {
      RemovedSplits(list, i, fn);
    }
  }

  lemma RemoveOneIsSound<F, D>(s: State<F, D>, lost: set<nat>, fn: F)
    requires Sound(s, lost) && s.firing && s.list.Some?
    ensures Sound(RemovedOne(s, fn), lost)
  {
    var p := s.h.current.value;
    var late := set e | e in Ahead(s) && e.fn == fn :: e.tag;
    RemovedAhead(s, fn);
    StripTagged(s.list.value, fn, s.h.nextTag);
    AheadTags(s);
    AheadShrinks(Less(p, lost), Ahead(s), fn, s.h.nextTag);
    assert (p.early + lost) + late == (p.early + late) + lost;
    assert RemovedOne(s, fn).h == s.h.(current := Some(p.(early := p.early + late)));
  }

  lemma AheadTags<F, D>(s: State<F, D>)
    requires s.list.Some? && Tagged(s.list.value, s.h.nextTag)
    ensures Tagged(Ahead(s), s.h.nextTag)
  {
  }

  lemma {:induction false} RemoveIsSound<F, D>(s: State<F, D>, lost: set<nat>, fns: seq<F>)
    requires Sound(s, lost) && (!s.firing ==> lost == {})
    ensures Sound(Removed(s, fns), lost)
    decreases |fns|
  {
    if fns == [] || s.list.None? {
    } else {
      if s.firing {
        RemoveOneIsSound(s, lost, fns[0]);
      } else {
        StripTagged(s.list.value, fns[0], s.h.nextTag);
      }
      RemoveIsSound(RemovedOne(s, fns[0]), lost, fns[1..]);
    }
  }

  /** The next turn of fire's loop calls undefined. */
  predicate NextFaults<F, D>(s: State<F, D>) {
    s.list.Some? && |s.list.value| <= s.firingIndex + 1 < s.firingLength
  }

  lemma ReturnIsSound<F, D>(s: State<F, D>, lost: set<nat>, ok: bool)
    requires Sound(s, lost) && s.firing
    ensures
      var t := Apply(s, Return(ok));
      var p := s.h.current.value;
      && (t.faulted <==> (ok || !s.opts.stopOnFalse) && NextFaults(s))
      && (!t.faulted ==> Sound(t, if t.h.passes == s.h.passes then lost else {}))
      && (!t.firing ==> t.h.passes != s.h.passes)
      && (t.h.passes != s.h.passes ==> |t.h.passes| > |s.h.passes| && PassEnds(s, lost, ok, t.h.passes[|s.h.passes|]))
  {
    var p, n := s.h.current.value, |s.h.passes|;
    if !ok && s.opts.stopOnFalse {
      FinishIsSound(Stopped(s));
    } else if s.list.Some? && s.firingIndex + 1 < s.firingLength {
      if s.firingIndex + 1 < |s.list.value| {
        NextIsCalled(Less(p, lost), s.list.value, s.firingIndex, s.h.nextTag);
      }
    } else {
      FinishIsSound(s.(firingIndex := s.firingIndex + 1));
      assert p.calls + [] == p.calls;
    }
  }

  /** What is recorded of a pass that ends. */
  ghost predicate PassEnds<F, D>(s: State<F, D>, lost: set<nat>, ok: bool, done: Pass<F, D>)
    requires s.h.current.Some?
  {
    var p := s.h.current.value;
    && done == p.(cut := done.cut)
    && (done.cut <==> s.list.None? || (!ok && s.opts.stopOnFalse))
    && (!done.cut ==> done.calls == Kept(done.pool, done.early + lost))
  }

  lemma NextIsCalled<F, D>(p: Pass<F, D>, list: seq<Entry<F>>, i: int, next: nat)
    requires -1 <= i && i + 1 < |list| && PassAt(p, After(list, i), next) && Tagged(list, next) && Increasing(p.calls)
    ensures
      var q := p.(calls := p.calls + [list[i + 1]]);
      PassAt(q, After(list, i + 1), next) && Increasing(q.calls)
  {
    AfterNext(list, i);
    CallOne(p, list[i + 1], After(list, i + 1), next);
  }

  lemma AfterNext<F>(list: seq<Entry<F>>, i: int)
    requires -1 <= i && i + 1 < |list| && Increasing(list)
    ensures After(list, i) == [list[i + 1]] + After(list, i + 1)
    ensures forall e :: e in After(list, i + 1) ==> list[i + 1].tag < e.tag
  {
    if i >= 0 {
      assert list[i + 1..] == [list[i + 1]] + list[i + 2..];
    } else {
      assert list == [list[0]] + list[1..];
    }
  }

  lemma CallOne<F, D>(p: Pass<F, D>, e: Entry<F>, rest: seq<Entry<F>>, next: nat)
    requires PassAt(p, [e] + rest, next) && Increasing(p.calls) && e.tag < next
    requires forall d :: d in rest ==> e.tag < d.tag
    ensures
      var q := p.(calls := p.calls + [e]);
      PassAt(q, rest, next) && Increasing(q.calls)
  {
    assert (p.calls + [e]) + rest == p.calls + ([e] + rest);
    assert ([e] + rest)[0] == e;
    CallGrows(p.calls, e);
  }

  lemma CallGrows<F>(calls: seq<Entry<F>>, e: Entry<F>)
    requires Increasing(calls) && |calls| > 0 && calls[|calls| - 1].tag < e.tag
    ensures Increasing(calls + [e])
  {
  }

  // ---------- every step, and runs ----------

  lemma OutsideIsSound<F, D>(s: State<F, D>, step: Step<F, D>)
    requires Sound(s, {}) && !s.firing && Enabled(s, step)
    ensures Sound(Apply(s, step), {})
  {
    match step {
      case Remove(fns) => RemoveIsSound(s, {}, fns);
      case Add(fns) =>
        if s.list.Some? {
          PushedTagged(s.list.value, fns, s.opts.unique, s.h.nextTag);
          if s.memory.Some? {
            BeginIsSound(Grown(s, fns).(firingStart := |s.list.value|), s.memory.value, true);
          }
        }
      case Fire(data) =>
        if s.list.Some? && (!s.fired || s.stack.Some?) {
          BeginIsSound(s.(h := s.h.(issued := s.h.issued + [data])), data, false);
        }
      case _ =>
    }
  }

  lemma InsideIsSound<F, D>(s: State<F, D>, step: Step<F, D>, lost: set<nat>)
    requires Sound(s, lost) && s.firing && Enabled(s, step) && !step.Return?
    ensures Sound(Apply(s, step), lost + LostBy(s, step))
  {
    assert lost + {} == lost;
    match step {
      case Remove(fns) => RemoveIsSound(s, lost, fns);
      case Add(fns) =>
        if s.list.Some? {
          AddInPassIsSound(s, lost, fns);
        }
      case Empty =>
        if s.list.Some? {
          DropIsSound(s, lost, Apply(s, Empty));
        }
      case Disable =>
        if s.list.Some? {
          DropIsSound(s, lost, Apply(s, Disable));
        }
      case Lock =>
        if s.list.Some? && s.memory.None? {
          DropIsSound(s, lost, Apply(s, Lock));
        }
      case Fire(data) =>
    }
  }

  lemma StepIsSound<F, D>(s: State<F, D>, step: Step<F, D>, lost: set<nat>)
    requires Sound(s, lost) && (!s.firing ==> lost == {}) && Enabled(s, step)
    ensures Apply(s, step).faulted || Sound(Apply(s, step), LostAfter(s, step, Apply(s, step), lost))
  {
    if !s.firing {
      OutsideIsSound(s, step);
    } else if step.Return? {
      ReturnIsSound(s, lost, step.ok);
      assert lost + {} == lost;
    } else {
      InsideIsSound(s, step, lost);
    }
  }

  /** A run in which callbacks may also empty the list, up to a fault. */
  ghost predicate IsAnyRun<F, D>(opts: Options, states: seq<State<F, D>>, steps: seq<Step<F, D>>) {
    && |states| == |steps| + 1 && states[0] == New(opts)
    && forall i {:trigger steps[i]} :: 0 <= i < |steps| ==>
         Enabled(states[i], steps[i]) && states[i + 1] == Apply(states[i], steps[i])
  }

  /** The entries that lost their turn in the pass that is in progress at state i. */
  ghost function LostAt<F, D>(states: seq<State<F, D>>, steps: seq<Step<F, D>>, i: nat): set<nat>
    requires i < |states| && |states| == |steps| + 1
  {
    if i == 0 then {} else LostAfter(states[i - 1], steps[i - 1], states[i], LostAt(states, steps, i - 1))
  }

  lemma {:induction false} RunIsSound<F, D>(opts: Options, states: seq<State<F, D>>, steps: seq<Step<F, D>>, i: nat)
    requires IsAnyRun(opts, states, steps) && i < |states|
    ensures !states[i].faulted ==> Sound(states[i], LostAt(states, steps, i))
    ensures !states[i].faulted && !states[i].firing ==> LostAt(states, steps, i) == {}
  {
    if i == 0 {
      assert Sound(states[0], {});
    } else {
      assert Enabled(states[i - 1], steps[i - 1]);
      RunIsSound(opts, states, steps, i - 1);
      StepIsSound(states[i - 1], steps[i - 1], LostAt(states, steps, i - 1));
      if !states[i].faulted && !states[i].firing {
        EndsWithPass(states[i - 1], steps[i - 1], LostAt(states, steps, i - 1));
      }
    }
  }

  lemma EndsWithPass<F, D>(s: State<F, D>, step: Step<F, D>, lost: set<nat>)
    requires Sound(s, lost) && Enabled(s, step) && !Apply(s, step).faulted && !Apply(s, step).firing
    ensures LostAfter(s, step, Apply(s, step), lost) == {}
  {
    if s.firing {
      if step.Remove? {
        RemoveKeepsFiring(s, step.fns);
      }
      if step.Return? {
        ReturnIsSound(s, lost, step.ok);
      }
    }
  }

  lemma {:induction false} RemoveKeepsFiring<F, D>(s: State<F, D>, fns: seq<F>)
    ensures Removed(s, fns).firing == s.firing
    decreases |fns|
  {
    if fns == [] || s.list.None? {
    } else {
      RemoveKeepsFiring(RemovedOne(s, fns[0]), fns[1..]);
    }
  }

  /**
   In all runs: a pass that ends without being cut short has called, once each and in order,
   its pool without the entries removed before their turn and without those that lost it.
   */
  lemma PassCallsAllButLost<F, D>(opts: Options, states: seq<State<F, D>>, steps: seq<Step<F, D>>, i: nat)
    requires IsAnyRun(opts, states, steps) && i < |steps| && states[i].firing && steps[i].Return?
    requires states[i + 1].h.passes != states[i].h.passes
    ensures |states[i + 1].h.passes| > |states[i].h.passes|
    ensures PassEnds(states[i], LostAt(states, steps, i), steps[i].ok, states[i + 1].h.passes[|states[i].h.passes|])
  {
    assert Enabled(states[i], steps[i]);
    RunIsSound(opts, states, steps, i);
    ReturnIsSound(states[i], LostAt(states, steps, i), steps[i].ok);
  }

  // ---------- exactly when empty does harm ----------

  /** During a pass, empty keeps the invariant of passes exactly if there is nothing to take away. */
  lemma EmptyKeepsGoodIff<F, D>(s: State<F, D>)
    requires Good(s) && s.firing && s.list.Some?
    ensures Good(Apply(s, Empty)) <==> s.list.value == []
  {
  }

  lemma PushedSingle<F>(fn: F, tag: nat)
    ensures Pushed([], [fn], false, tag) == [Entry(fn, tag)]
  {
    assert [fn][1..] == [] && [] + [Entry(fn, tag)] == [Entry(fn, tag)];
    assert Pushed([Entry(fn, tag)], [], false, tag + 1) == [Entry(fn, tag)];
  }

  /** A list of one callback, which is running. */
  function Alone<F, D>(f: F, data: D): State<F, D> {
    var e := Entry(f, 0);
    State(Options(false, false, false, false), Some([e]), Some([]), None, true, true, 0, 1, 0, false,
          History(1, [data], [], Some(Pass(data, false, [e], {}, [e], false)), [(data, e)]))
  }

  lemma AloneIsReached<F, D>(f: F, data: D)
    ensures Play(New<F, D>(Options(false, false, false, false)), [Add([f]), Fire(data)]) == Alone(f, data)
  {
    var opts := Options(false, false, false, false);
    var e := Entry(f, 0);
    var s0: State<F, D> := New(opts);
    var s1 := Apply(s0, Add([f]));
    PushedSingle(f, 0);
    assert s1 == State(opts, Some([e]), Some([]), None, false, false, 0, 0, 0, false, History(1, [], [], None, []));
    var u := Started(s1.(h := s1.h.(issued := s1.h.issued + [data])), data, false);
    assert [e][0..] == [e] && [] + [data] == [data];
    assert u == State(opts, Some([e]), Some([]), None, true, true, 0, 1, 0, false,
                      History(1, [data], [], Some(Pass(data, false, [e], {}, [], false)), []));
    assert [] + [e] == [e] && [] + [(data, e)] == [(data, e)];
    assert Turn(u) == Alone(f, data);
    assert Apply(s1, Fire(data)) == Turn(u);
    var last: seq<Step<F, D>> := [Fire(data)];
    assert last[1..] == [] && ([Add([f])] + last)[1..] == last;
    assert [Add([f])] + last == [Add([f]), Fire(data)];
    assert Play(s0, [Add([f])] + last) == Play(s1, last) == Play(Alone(f, data), []);
  }

  /**
   Nothing faults, and still an added callback is never called: the callback running alone
   calls empty, adds another one, and returns.
   */
  lemma AddAfterEmptyIsPassedOver<F, D>(f: F, g: F, data: D)
    ensures
      var t := Play(Alone(f, data), [Empty, Add([g]), Return(true)]);
      && !t.faulted && !t.firing && t.list == Some([Entry(g, 1)])
      && t.h.passes == [Pass(data, false, [Entry(f, 0), Entry(g, 1)], {}, [Entry(f, 0)], false)]
  {
    PushedSingle(g, 1);
    var s3 := Apply(Alone(f, data), Empty);
    var s4 := Apply(s3, Add([g]));
    assert s4.list == Some([Entry(g, 1)]) && s4.firingLength == 1;
    assert [Entry(g, 1)][0..] == [Entry(g, 1)] && [Entry(f, 0)] + [Entry(g, 1)] == [Entry(f, 0), Entry(g, 1)];
    assert s4.h.current == Some(Pass(data, false, [Entry(f, 0), Entry(g, 1)], {}, [Entry(f, 0)], false));
    var s5 := Apply(s4, Return(true));
    assert s5 == Finish(s4.(firingIndex := 1)) && s5.h.passes == Archived(s4.(firingIndex := 1)).h.passes;
    var r2: seq<Step<F, D>> := [Empty, Add([g]), Return(true)];
    var r3: seq<Step<F, D>> := [Add([g]), Return(true)];
    var last: seq<Step<F, D>> := [Return(true)];
    assert r2[1..] == r3 && r3[1..] == last && last[1..] == [];
    assert Play(Alone(f, data), r2) == Play(s3, r3) == Play(s4, last);
  }

  /** The calls leave the list disabled. */
  ghost predicate Shuts<F, D>(memory: Option<D>, calls: seq<Step<F, D>>) {
    exists k :: 0 <= k < |calls| && (calls[k].Disable? || (calls[k].Lock? && memory.None?))
  }

  ghost predicate Adds<F, D>(calls: seq<Step<F, D>>) {
    exists k :: 0 <= k < |calls| && calls[k].Add?
  }

  /** Where the firing indices are after an empty list was given some calls in a pass. */
  ghost predicate Emptied<F, D>(s: State<F, D>, t: State<F, D>, calls: seq<Step<F, D>>) {
    && Regular(t) && t.firing && !t.faulted && t.opts == s.opts && t.firingIndex >= -1
    && (t.list.None? <==> Shuts(s.memory, calls))
    && (!Shuts(s.memory, calls) ==> t.memory == s.memory)
    && (t.list.Some? && !Adds(calls) ==>
          t.list == Some([]) && t.firingIndex == s.firingIndex && t.firingLength == s.firingLength)
    && (t.list.Some? && Adds(calls) ==> t.firingLength == |t.list.value|)
  }

  lemma OneMoreCall<F, D>(s: State<F, D>, t: State<F, D>, made: seq<Step<F, D>>, call: Step<F, D>)
    requires Emptied(s, t, made) && !call.Return? && !call.Empty?
    ensures Emptied(s, Apply(t, call), made + [call])
  {
    var all := made + [call];
    assert all[|made|] == call && forall k :: 0 <= k < |made| ==> all[k] == made[k];
    if call.Remove? {
      RemoveMovesOnlyIndices(t, call.fns);
    }
  }

  lemma {:induction false} RemoveMovesOnlyIndices<F, D>(s: State<F, D>, fns: seq<F>)
    requires Regular(s) && s.firing && s.firingIndex >= -1
    ensures
      var t := Removed(s, fns);
      && Regular(t) && t.firingIndex >= -1 && t.firing
      && t.faulted == s.faulted && t.opts == s.opts && t.memory == s.memory
      && t.list.Some? == s.list.Some?
      && (s.list == Some([]) ==>
            t.list == Some([]) && t.firingIndex == s.firingIndex && t.firingLength == s.firingLength)
      && (s.list.Some? && s.firingLength == |s.list.value| ==> t.firingLength == |t.list.value|)
    decreases |fns|
  {
    if fns == [] || s.list.None? {
    } else {
      StripMembers(Upto(s.list.value, s.firingIndex), fns[0]);
      RemoveMovesOnlyIndices(RemovedOne(s, fns[0]), fns[1..]);
    }
  }

  /** What the next turn does is decided by the calls made. */
  lemma EmptiedFaultsIff<F, D>(s: State<F, D>, t: State<F, D>, calls: seq<Step<F, D>>, ok: bool)
    requires s.firingIndex >= -1 && Emptied(s, t, calls)
    ensures Apply(t, Return(ok)).faulted <==>
      && (ok || !s.opts.stopOnFalse) && s.firingIndex + 1 < s.firingLength
      && !Adds(calls) && !Shuts(s.memory, calls)
  {
    ReturnFaultsIff(t, ok);
  }

  lemma {:induction false} CallsAfterEmpty<F, D>(
      s: State<F, D>, t: State<F, D>, made: seq<Step<F, D>>, calls: seq<Step<F, D>>)
    requires Emptied(s, t, made)
    requires forall k :: 0 <= k < |calls| ==> !calls[k].Return? && !calls[k].Empty?
    ensures Emptied(s, Play(t, calls), made + calls)
    decreases |calls|
  {
    if calls == [] {
      assert made + calls == made;
    } else {
      OneMoreCall(s, t, made, calls[0]);
      CallsAfterEmpty(s, Apply(t, calls[0]), made + [calls[0]], calls[1..]);
      assert made + calls == (made + [calls[0]]) + calls[1..];
    }
  }

  /**
   A callback calls empty, then anything but empty, and returns.  The loop then calls undefined
   exactly if it was not at its end when the list was emptied, nothing was added since, and the
   list was not disabled since.  The state is arbitrary, so earlier calls of empty are covered.
   */
  lemma EmptyFaultsIff<F, D>(s: State<F, D>, calls: seq<Step<F, D>>, ok: bool)
    requires Regular(s) && s.firing && !s.faulted && s.firingIndex >= -1
    requires forall k :: 0 <= k < |calls| ==> !calls[k].Return? && !calls[k].Empty?
    ensures
      var t := Play(Apply(s, Empty), calls);
      Enabled(t, Return(ok)) &&
      (Apply(t, Return(ok)).faulted <==>
         && (ok || !s.opts.stopOnFalse) && s.firingIndex + 1 < s.firingLength
         && !Adds(calls) && !Shuts(s.memory, calls))
  {
    CallsAfterEmpty(s, Apply(s, Empty), [], calls);
    assert [] + calls == calls;
    EmptiedFaultsIff(s, Play(Apply(s, Empty), calls), calls, ok);
  }

  lemma ReturnFaultsIff<F, D>(s: State<F, D>, ok: bool)
    requires Regular(s) && s.firing && !s.faulted
    ensures Apply(s, Return(ok)).faulted <==>
      && (ok || !s.opts.stopOnFalse) && s.list.Some?
      && s.firingIndex + 1 < s.firingLength && !(0 <= s.firingIndex + 1 < |s.list.value|)
  {
    if !ok && s.opts.stopOnFalse {
      FinishDoesNotFault(Stopped(s));
    } else if !(s.list.Some? && s.firingIndex + 1 < s.firingLength) {
      FinishDoesNotFault(s.(firingIndex := s.firingIndex + 1));
    }
  }

  lemma {:induction false} BeginDoesNotFault<F, D>(s: State<F, D>, data: D, replay: bool)
    requires !s.faulted && s.list.Some? && s.firingStart <= |s.list.value|
    ensures !Begin(s, data, replay).faulted
    decreases Waiting(s), 1
  {
    var t := Started(s, data, replay);
    if t.firingIndex >= t.firingLength {
      FinishDoesNotFault(t);
    }
  }

  lemma {:induction false} FinishDoesNotFault<F, D>(s: State<F, D>)
    requires !s.faulted && s.firingStart == 0 && s.h.current.Some?
    ensures !Finish(s).faulted
    decreases Waiting(s), 0
  {
    var t := Archived(s);
    if t.list.Some? && t.stack.Some? && t.stack.value != [] {
      BeginDoesNotFault(t.(stack := Some(t.stack.value[1..])), t.stack.value[0], false);
    }
  }

  lemma PushedTwo<F>(f: F, g: F, tag: nat)
    ensures Pushed([], [f, g], false, tag) == [Entry(f, tag), Entry(g, tag + 1)]
  {
    assert [f, g][1..] == [g] && [g][1..] == [];
    assert [] + [Entry(f, tag)] == [Entry(f, tag)];
    assert [Entry(f, tag)] + [Entry(g, tag + 1)] == [Entry(f, tag), Entry(g, tag + 1)];
    assert Pushed([Entry(f, tag)], [g], false, tag + 1) ==
      Pushed([Entry(f, tag), Entry(g, tag + 1)], [], false, tag + 2);
  }

  /**
   From a new list: two callbacks are added and fired, the first calls empty and returns, and the
   loop calls undefined.
   */
  lemma EmptyFaultIsReached<F, D>(f: F, g: F, data: D)
    ensures Play(New<F, D>(Options(false, false, false, false)), [Add([f, g]), Fire(data), Empty, Return(true)]).faulted
  {
    var s0: State<F, D> := New(Options(false, false, false, false));
    var s1 := Apply(s0, Add([f, g]));
    PushedTwo(f, g, 0);
    var s2 := Apply(s1, Fire(data));
    assert s2 == Turn(Started(s1.(h := s1.h.(issued := s1.h.issued + [data])), data, false));
    assert s2.firing && s2.firingIndex == 0 && s2.firingLength == 2 && !s2.faulted && Regular(s2);
    EmptyFaultsIff(s2, [], true);
    var s3 := Apply(s2, Empty);
    var r1: seq<Step<F, D>> := [Add([f, g]), Fire(data), Empty, Return(true)];
    var r2: seq<Step<F, D>> := [Fire(data), Empty, Return(true)];
    var r3: seq<Step<F, D>> := [Empty, Return(true)];
    var r4: seq<Step<F, D>> := [Return(true)];
    assert r1[1..] == r2 && r2[1..] == r3 && r3[1..] == r4 && r4[1..] == [];
    assert Play(s0, r1) == Play(s1, r2) == Play(s2, r3) == Play(s3, r4) == Apply(s3, Return(true));
  }
}
