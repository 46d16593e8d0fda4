/** Which callbacks of a Deferred run, when, and how often. */
module DeferredProofs {
  import opened Wrappers
  import Callbacks
  import CallbackProofs
  import opened Deferred
  import opened DeferredLists

  // ---------- the Deferred ----------

  /** The list of the side that settled, between steps. */
  ghost predicate Won<D>(s: List<D>, ids: seq<nat>) {
    Settled(s, ids) && Callbacks.Regular(s) && (s.firing ==> OnlyUsersAhead(s))
  }

  ghost predicate Inv<D>(d: Deferred<D>) {
    && CallbackProofs.Good(d.progress)
    && match d.phase
       case Pending => Unfired(d.done, d.doneIds) && Unfired(d.fail, d.failIds)
       case Resolved => Won(d.done, d.doneIds) && Dead(d.fail)
       case Rejected => Won(d.fail, d.failIds) && Dead(d.done)
  }

  /** The effect of each of the Deferred's own callbacks. */
  lemma OwnEffects<D>(d: Deferred<D>, side: Side, fn: Fn)
    requires Callee(Of(d, side)) == Some(fn) && !fn.User? && Of(d, side).firingStart == 0 && Of(d, side).h.current.Some?
    ensures
      var e := OneInternal(d, side);
      && Of(e, side) == Callbacks.Returned(Of(d, side), true)
      && e.phase == (if fn == SetPhase then Final(side) else d.phase)
      && Of(e, Other(side)) ==
           (if fn == DisableOther then Callbacks.Disabled(Of(d, Other(side))) else Of(d, Other(side)))
      && e.progress == (if fn == LockProgress then Callbacks.Locked(d.progress) else d.progress)
      && e.doneIds == d.doneIds && e.failIds == d.failIds
  {
  }

  /** One of the Deferred's own callbacks runs and returns. */
  lemma InternalAdvances<D>(d: Deferred<D>, side: Side, ids: seq<nat>, i: nat)
    requires AtOwn(Of(d, side), ids, i) && i < 3
    ensures
      var e := OneInternal(d, side);
      && Of(e, side).memory == Of(d, side).memory
      && (i < 2 ==> AtOwn(Of(e, side), ids, i + 1))
      && (i == 2 ==> Settled(Of(e, side), ids) && (Of(e, side).firing ==> OnlyUsersAhead(Of(e, side))))
      && e.phase == (if i == 0 then Final(side) else d.phase)
      && Of(e, Other(side)) == (if i == 1 then Callbacks.Disabled(Of(d, Other(side))) else Of(d, Other(side)))
      && e.progress == (if i == 2 then Callbacks.Locked(d.progress) else d.progress)
      && e.doneIds == d.doneIds && e.failIds == d.failIds
  {
    ReturnSettles(Of(d, side), ids);
    OwnEffects(d, side, Of(d, side).list.value[i].fn);
  }

  lemma InternalsDecide<D>(d: Deferred<D>, side: Side, ids: seq<nat>)
    requires AtOwn(Of(d, side), ids, 0)
    ensures
      var t := Internals(d, side);
      && t.phase == Final(side) && Of(t, side).memory == Of(d, side).memory
      && Settled(Of(t, side), ids) && (Of(t, side).firing ==> OnlyUsersAhead(Of(t, side)))
      && Of(t, Other(side)) == Callbacks.Disabled(Of(d, Other(side)))
      && t.progress == Callbacks.Locked(d.progress)
      && t.doneIds == d.doneIds && t.failIds == d.failIds
  {
    InternalAdvances(d, side, ids, 0);
    var d1 := OneInternal(d, side);
    InternalAdvances(d1, side, ids, 1);
    var d2 := OneInternal(d1, side);
    InternalAdvances(d2, side, ids, 2);
  }

  /** The first settlement decides: the phase is set, the other side disabled, progress locked. */
  lemma SettleDecides<D>(d: Deferred<D>, side: Side, data: D)
    requires Inv(d) && d.phase == Pending && Enabled(d, Settle(side, data))
    ensures
      var t := Apply(d, Settle(side, data));
      && t.phase == Final(side) && Won(Of(t, side), Ids(d, side)) && Dead(Of(t, Other(side)))
      && Of(t, side).memory == Some(data)
      && t.progress == Callbacks.Locked(d.progress)
      && t.doneIds == d.doneIds && t.failIds == d.failIds
  {
    FireStarts(Of(d, side), Ids(d, side), data);
    InternalsDecide(With(d, side, Callbacks.Apply(Of(d, side), Callbacks.Fire(data))), side, Ids(d, side));
  }

  lemma AttachKeepsInv<D>(d: Deferred<D>, side: Side, ids: seq<nat>)
    requires Inv(d) && Enabled(d, Attach(side, ids))
    ensures Inv(Apply(d, Attach(side, ids)))
  {
    if d.phase == Pending {
      AttachUnfired(Of(d, side), Ids(d, side), ids);
    } else if d.phase == Final(side) {
      if Of(d, side).firing {
        AttachWhileFiring(Of(d, side), Ids(d, side), ids);
      } else {
        AttachAfterwards(Of(d, side), Ids(d, side), ids);
      }
    }
  }

  lemma SettleKeepsInv<D>(d: Deferred<D>, side: Side, data: D)
    requires Inv(d) && Enabled(d, Settle(side, data))
    ensures Inv(Apply(d, Settle(side, data)))
    ensures d.phase != Pending ==> Apply(d, Settle(side, data)) == d
  {
    if d.phase == Pending {
      SettleDecides(d, side, data);
      CallbackProofs.StepIsGood(d.progress, Callbacks.Lock);
    } else {
      SettledIgnoresFire(d, side, data);
    }
  }

  lemma StepKeepsInv<D>(d: Deferred<D>, step: Step<D>)
    requires Inv(d) && Enabled(d, step)
    ensures Inv(Apply(d, step))
    ensures d.phase != Pending ==> Apply(d, step).phase == d.phase
  {
    match step {
      case Attach(side, ids) => AttachKeepsInv(d, side, ids);
      case Settle(side, data) => SettleKeepsInv(d, side, data);
      case Return(side) => ReturnSettles(Of(d, side), Ids(d, side));
      case AttachProgress(ids) => CallbackProofs.StepIsGood(d.progress, Callbacks.Add(Users(ids)));
      case Notify(data) => CallbackProofs.StepIsGood(d.progress, Callbacks.Fire(data));
      case ReturnProgress(ok) => CallbackProofs.StepIsGood(d.progress, Callbacks.Return(ok));
    }
  }

  lemma FireIsIgnored<D>(s: List<D>, ids: seq<nat>, data: D)
    requires Dead(s) || Won(s, ids)
    requires Callbacks.Enabled(s, Callbacks.Fire(data))
    ensures Callbacks.Apply(s, Callbacks.Fire(data)) == s
    ensures Callee(s).Some? ==> Callee(s).value.User?
  {
  }

  lemma SettledIgnoresFire<D>(d: Deferred<D>, side: Side, data: D)
    requires Inv(d) && d.phase != Pending && Enabled(d, Settle(side, data))
    ensures Apply(d, Settle(side, data)) == d
  {
    FireIsIgnored(Of(d, side), Ids(d, side), data);
    assert With(d, side, Of(d, side)) == d;
    assert OneInternal(d, side) == d;
  }

  lemma NewIsFine<D>()
    ensures Inv(New<D>())
  {
    var s: List<D> := Callbacks.New(MEMORY);
    assert CallbackProofs.Good(s);
  }

  lemma InvIsReady<D>(d: Deferred<D>)
    requires Inv(d)
    ensures Ready(d)
  {
  }

  /** What a settled Deferred was settled with stays what it was. */
  lemma DataStays<D>(d: Deferred<D>, side: Side, step: Step<D>)
    requires Inv(d) && d.phase == Final(side) && Enabled(d, step)
    ensures Of(Apply(d, step), side).memory == Of(d, side).memory
  {
    match step {
      case Attach(s, ids) => if s == side { AttachKeepsData(Of(d, side), Ids(d, side), ids); }
      case Settle(s, data) => SettledIgnoresFire(d, s, data);
      case Return(s) => ReturnSettles(Of(d, s), Ids(d, s));
      case _ =>
    }
  }

  lemma AttachKeepsData<D>(s: List<D>, ids: seq<nat>, more: seq<nat>)
    requires Won(s, ids)
    ensures Callbacks.Apply(s, Callbacks.Add(Users(more))).memory == s.memory
  {
    if !s.firing {
      PushedUsers([], more, s.h.nextTag);
      var g := Callbacks.Grown(s, Users(more)).(firingStart := 0);
      var u := Callbacks.Started(g, s.memory.value, true);
      assert u.list.value[0..] == u.list.value;
      TurnSettles(u, ids + more);
    }
  }

  // ---------- runs ----------

  ghost predicate IsRun<D>(states: seq<Deferred<D>>, steps: seq<Step<D>>) {
    && |states| == |steps| + 1 && states[0] == New()
    && forall i {:trigger steps[i]} :: 0 <= i < |steps| ==>
       Enabled(states[i], steps[i]) && states[i + 1] == Apply(states[i], steps[i])
  }

  lemma {:induction false} RunKeepsInv<D>(states: seq<Deferred<D>>, steps: seq<Step<D>>, i: nat)
    requires IsRun(states, steps) && i < |states|
    ensures Inv(states[i])
  {
    if i > 0 {
      RunKeepsInv(states, steps, i - 1);
      StepKeepsInv(states[i - 1], steps[i - 1]);
    } else {
      NewIsFine<D>();
    }
  }

  /** A Deferred leaves "pending" at most once. */
  lemma {:induction false} PhaseIsFinal<D>(states: seq<Deferred<D>>, steps: seq<Step<D>>, i: nat, j: nat)
    requires IsRun(states, steps) && i <= j < |states| && states[i].phase != Pending
    ensures states[j].phase == states[i].phase
    decreases j - i
  {
    if i == j {
    } else {
      PhaseIsFinal(states, steps, i, j - 1);
      RunKeepsInv(states, steps, j - 1);
      StepKeepsInv(states[j - 1], steps[j - 1]);
    }
  }

  /**
   Callbacks of the side that settled run in attachment order, whether attached before, during
   or after; each runs once, with the data of the settlement, and once nothing is running all
   of them have run.  No user callback runs while pending, and none of the other side ever does.
   */
  lemma CallbacksRunOnce<D>(states: seq<Deferred<D>>, steps: seq<Step<D>>, i: nat, side: Side)
    requires IsRun(states, steps) && i < |states|
    ensures
      var d := states[i];
      var s := Of(d, side);
      && (d.phase != Final(side) ==> Called(s.h.trace) == [])
      && (d.phase == Final(side) ==> Called(s.h.trace) <= Ids(d, side) && SawData(s))
      && (d.phase == Final(side) && !s.firing ==> Called(s.h.trace) == Ids(d, side))
  {
    RunKeepsInv(states, steps, i);
  }

  /** A user callback that is running sees the phase its side stands for. */
  lemma RunningSeesPhase<D>(states: seq<Deferred<D>>, steps: seq<Step<D>>, i: nat, side: Side)
    requires IsRun(states, steps) && i < |states| && Of(states[i], side).firing
    ensures states[i].phase == Final(side)
    ensures Callee(Of(states[i], side)).Some? && Callee(Of(states[i], side)).value.User?
  {
    RunKeepsInv(states, steps, i);
  }

  /** The callbacks attached to a side by the first n steps. */
  function AttachedBy<D>(steps: seq<Step<D>>, side: Side, n: nat): seq<nat>
    requires n <= |steps|
  {
    if n == 0 then []
    else AttachedBy(steps, side, n - 1) + AttachedTo(steps[n - 1], side)
  }

  function AttachedTo<D>(step: Step<D>, side: Side): seq<nat> {
    if step.Attach? && step.side == side then step.ids else []
  }

  lemma StepAttaches<D>(d: Deferred<D>, step: Step<D>, side: Side)
    requires Inv(d) && Enabled(d, step)
    ensures Ids(Apply(d, step), side) == Ids(d, side) + AttachedTo(step, side)
  {
    match step {
      case Settle(s, data) =>
        if d.phase == Pending {
          SettleDecides(d, s, data);
        } else {
          SettledIgnoresFire(d, s, data);
        }
      case _ =>
    }
  }

  /** The callbacks that run are those attached by the run's own steps. */
  lemma {:induction false} IdsAreAttached<D>(states: seq<Deferred<D>>, steps: seq<Step<D>>, i: nat, side: Side)
    requires IsRun(states, steps) && i < |states|
    ensures Ids(states[i], side) == AttachedBy(steps, side, i)
  {
    if i == 0 {
    } else {
      IdsAreAttached(states, steps, i - 1, side);
      RunKeepsInv(states, steps, i - 1);
      StepAttaches(states[i - 1], steps[i - 1], side);
    }
  }

  /** When a user callback returns, the next one that was attached runs, or none is left. */
  lemma ReturnRunsNext<D>(d: Deferred<D>, side: Side)
    requires Inv(d) && Enabled(d, Return(side))
    ensures
      var s, t := Of(d, side), Of(Apply(d, Return(side)), side);
      var n := |Called(s.h.trace)|;
      && n <= |Ids(d, side)| && Called(s.h.trace) == Ids(d, side)[..n]
      && if n == |Ids(d, side)| then !t.firing && Called(t.h.trace) == Ids(d, side)
         else t.firing && Called(t.h.trace) == Ids(d, side)[..n + 1]
  {
    var s, ids := Of(d, side), Ids(d, side);
    var t := Callbacks.Returned(s, true);
    ReturnSettles(s, ids);
    var ahead := s.list.value[s.firingIndex + 1..];
    assert forall k {:trigger ahead[k]} :: 0 <= k < |ahead| ==> ahead[k] == s.list.value[s.firingIndex + 1 + k];
    UsersOnly(ahead);
    if s.firingIndex + 1 < |s.list.value| {
      var next := s.list.value[s.firingIndex + 1];
      CalledOneMore(s.h.trace, (s.h.current.value.data, next));
    }
  }

  lemma {:induction false} UsersOnly(list: seq<Callbacks.Entry<Fn>>)
    ensures (forall k :: 0 <= k < |list| ==> list[k].fn.User?) ==> |UserIds(list)| == |list|
    ensures (forall k :: 0 <= k < |list| ==> list[k].fn.User?) && list != [] ==> UserIds(list)[0] == list[0].fn.id
  {
    if list == [] {
    } else {
      UsersOnly(list[1..]);
    }
  }
}
