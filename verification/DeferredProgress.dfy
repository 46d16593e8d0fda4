/** The progress list of a Deferred: notifications are served in order until it is settled. */
module DeferredProgress {
  import opened Wrappers
  import Callbacks
  import CallbackContents
  import CallbackProofs
  import CallbackTrace
  import opened Deferred
  import opened DeferredLists
  import opened DeferredProofs

  /** The data of the notifications among the first n steps. */
  function Notified<D>(steps: seq<Step<D>>, n: nat): seq<D>
    requires n <= |steps|
  {
    if n == 0 then [] else Notified(steps, n - 1) + if steps[n - 1].Notify? then [steps[n - 1].data] else []
  }

  /** It takes no fire any more. */
  ghost predicate Muted<D>(s: List<D>) {
    s.stack.None? && (s.list.Some? ==> s.fired)
  }

  /** What every state of a run keeps of the progress list. */
  ghost predicate Orderly<D>(s: List<D>) {
    s.opts == MEMORY && CallbackTrace.Idle(s) && CallbackContents.Remembers(s)
  }

  ghost predicate ProgressFine<D>(d: Deferred<D>) {
    && Orderly(d.progress)
    && (d.phase == Pending ==> CallbackTrace.InOrder(d.progress))
    && (d.phase != Pending ==> Muted(d.progress))
  }

  /** The step keeps this, and while the Deferred is pending the list takes just the notifications. */
  ghost predicate ProgressMoves<D>(d: Deferred<D>, step: Step<D>, t: Deferred<D>) {
    && ProgressFine(t)
    && (t.phase == Pending ==>
          t.progress.h.issued == d.progress.h.issued + if step.Notify? then [step.data] else [])
  }

  lemma CallIsOrderly<D>(s: List<D>, call: Callbacks.Step<Fn, D>)
    requires Callbacks.Enabled(s, call) && Orderly(s) && (call.Add? || call.Fire? || call.Return?)
    ensures Orderly(Callbacks.Apply(s, call))
    ensures s.stack.None? ==> Callbacks.Apply(s, call).stack.None?
    ensures s.fired ==> Callbacks.Apply(s, call).fired
    ensures s.list.None? ==> Callbacks.Apply(s, call).list.None?
  {
    CallbackTrace.StepLeavesIdle(s, call);
    match call {
      case Add(fns) => if s.list.Some? { CallbackContents.AddLoops(s, fns); }
      case Fire(data) => CallbackContents.FireLoops(s, data);
      case Return(ok) => CallbackContents.ReturnLoops(s, ok);
    }
  }

  lemma CallMoves<D>(d: Deferred<D>, step: Step<D>, call: Callbacks.Step<Fn, D>)
    requires Inv(d) && ProgressFine(d) && Enabled(d, step) && Callbacks.Enabled(d.progress, call)
    requires
      match step
      case AttachProgress(ids) => call == Callbacks.Add(Users(ids))
      case Notify(data) => call == Callbacks.Fire(data)
      case ReturnProgress(ok) => call == Callbacks.Return(ok)
      case _ => false
    ensures ProgressMoves(d, step, Apply(d, step))
  {
    CallIsOrderly(d.progress, call);
    if d.phase == Pending {
      CallbackTrace.StepServes(d.progress, call);
      CallbackContents.StepIssues(d.progress, call);
    }
  }

  lemma StepMoves<D>(d: Deferred<D>, step: Step<D>)
    requires Inv(d) && ProgressFine(d) && Enabled(d, step)
    ensures ProgressMoves(d, step, Apply(d, step))
  {
    match step {
      case AttachProgress(ids) => CallMoves(d, step, Callbacks.Add(Users(ids)));
      case Notify(data) => CallMoves(d, step, Callbacks.Fire(data));
      case ReturnProgress(ok) => CallMoves(d, step, Callbacks.Return(ok));
      case Settle(side, data) =>
        if d.phase == Pending {
          SettleDecides(d, side, data);
        } else {
          SettledIgnoresFire(d, side, data);
        }
      case Attach(_, _) =>
      case Return(_) =>
    }
  }

  lemma {:induction false} ProgressInRuns<D>(states: seq<Deferred<D>>, steps: seq<Step<D>>, i: nat)
    requires IsRun(states, steps) && i < |states|
    ensures ProgressFine(states[i])
    ensures states[i].phase == Pending ==> states[i].progress.h.issued == Notified(steps, i)
  {
    if i == 0 {
    } else {
      ProgressInRuns(states, steps, i - 1);
      RunKeepsInv(states, steps, i - 1);
      StepKeepsInv(states[i - 1], steps[i - 1]);
      StepMoves(states[i - 1], steps[i - 1]);
    }
  }

  /**
   While the Deferred is pending, its notifications are served in the order they were made, each
   by a pass of its own; the rest is queued.
   */
  lemma NotifiesInOrder<D>(states: seq<Deferred<D>>, steps: seq<Step<D>>, i: nat)
    requires IsRun(states, steps) && i < |states| && states[i].phase == Pending
    ensures
      var s := states[i].progress;
      && s.stack.Some? && (!s.firing ==> s.stack.value == [])
      && Notified(steps, i) ==
           CallbackTrace.Served(s.h.passes) + CallbackTrace.InService(s) + s.stack.value
  {
    ProgressInRuns(states, steps, i);
  }

  /** A notification of an idle Deferred calls the progress callbacks, from the first on, with its data. */
  lemma NotifyCallsAll<D>(states: seq<Deferred<D>>, steps: seq<Step<D>>, i: nat)
    requires IsRun(states, steps) && i < |steps| && steps[i].Notify? && states[i].phase == Pending
    requires !states[i].progress.firing && states[i].progress.list.Some? && states[i].progress.list.value != []
    ensures
      var s, t, data := states[i].progress, states[i + 1].progress, steps[i].data;
      var list := s.list.value;
      && t.h.current == Some(Callbacks.Pass(data, false, list, {}, [list[0]], false))
      && t.h.trace == s.h.trace + [(data, list[0])]
  {
    RunKeepsInv(states, steps, i);
    ProgressInRuns(states, steps, i);
    CallbackContents.FireCallsList(states[i].progress, steps[i].data);
  }

  /** Once it is settled, notifications change nothing. */
  lemma SettledIgnoresNotify<D>(states: seq<Deferred<D>>, steps: seq<Step<D>>, i: nat)
    requires IsRun(states, steps) && i < |steps| && steps[i].Notify? && states[i].phase != Pending
    ensures states[i + 1] == states[i]
  {
    ProgressInRuns(states, steps, i);
    assert Enabled(states[i], steps[i]);
    CallbackContents.FireLoops(states[i].progress, steps[i].data);
  }

  /** A progress callback that is attached before any notification, or during one, goes behind the others. */
  lemma AttachedIsLast<D>(states: seq<Deferred<D>>, steps: seq<Step<D>>, i: nat)
    requires IsRun(states, steps) && i < |steps| && steps[i].AttachProgress? && states[i].phase == Pending
    requires states[i].progress.firing || states[i].progress.memory.None?
    ensures
      var s, t := states[i].progress, states[i + 1].progress;
      && s.list.Some? && t.list.Some? && s.list.value <= t.list.value && t.h.trace == s.h.trace
      && CallbackTrace.AddsAll(t.list.value[|s.list.value|..], Users(steps[i].ids))
  {
    ProgressInRuns(states, steps, i);
    assert Enabled(states[i], steps[i]);
    CallbackContents.AddAppends(states[i].progress, Users(steps[i].ids));
  }

  /** One that is attached after a notification, even of a settled Deferred, is called at once with the last data. */
  lemma AttachedLateIsCalled<D>(states: seq<Deferred<D>>, steps: seq<Step<D>>, i: nat)
    requires IsRun(states, steps) && i < |steps| && steps[i].AttachProgress? && steps[i].ids != []
    requires !states[i].progress.firing && states[i].progress.list.Some? && states[i].progress.memory.Some?
    ensures
      var s, t := states[i].progress, states[i + 1].progress;
      && t.firing && t.h.current.Some? && t.h.current.value.data == s.memory.value && t.h.current.value.replay
      && CallbackTrace.AddsAll(t.h.current.value.pool, Users(steps[i].ids))
  {
    RunKeepsInv(states, steps, i);
    ProgressInRuns(states, steps, i);
    assert Enabled(states[i], steps[i]);
    CallbackTrace.LateAddReplays(states[i].progress, Users(steps[i].ids));
  }
}
