/** The closure of `jQuery.Deferred`, whose variables are three callback lists and the state. */
module DeferredObject {
  import opened Wrappers
  import Callbacks
  import opened Deferred
  import DeferredProofs

  /** What adding its own callbacks makes of a new list. */
  lemma PreparedByAdd<D>()
    ensures Callbacks.Enabled(Callbacks.New<Fn, D>(ONCE_MEMORY), Callbacks.Add([SetPhase, DisableOther, LockProgress]))
    ensures
      var own := Callbacks.Add([SetPhase, DisableOther, LockProgress]);
      Callbacks.Apply(Callbacks.New<Fn, D>(ONCE_MEMORY), own) == Prepared<D>()
  {
    var own := [SetPhase, DisableOther, LockProgress];
    var one := [Callbacks.Entry(SetPhase, 0)];
    var two := [Callbacks.Entry(SetPhase, 0), Callbacks.Entry(DisableOther, 1)];
    var three := [Callbacks.Entry(SetPhase, 0), Callbacks.Entry(DisableOther, 1), Callbacks.Entry(LockProgress, 2)];
    assert own[1..] == [DisableOther, LockProgress] && own[1..][1..] == [LockProgress] && own[1..][1..][1..] == [];
    assert Callbacks.Pushed(three, [], false, 3) == three;
    assert Callbacks.Pushed(two, [LockProgress], false, 2) == three by {
      assert two + [Callbacks.Entry(LockProgress, 2)] == three && [LockProgress][1..] == [];
    }
    assert Callbacks.Pushed(one, [DisableOther, LockProgress], false, 1) == three by {
      assert one + [Callbacks.Entry(DisableOther, 1)] == two && [DisableOther, LockProgress][1..] == [LockProgress];
    }
    assert Callbacks.Pushed([], own, false, 0) == three by {
      assert [] + [Callbacks.Entry(SetPhase, 0)] == one;
    }
  }

  class DeferredObject<D> {
    var done: List<D>
    var fail: List<D>
    var progress: List<D>
    var state: Phase
    ghost var doneIds: seq<nat>
    ghost var failIds: seq<nat>

    ghost function View(): Deferred<D>
      reads this
    {
      Deferred(done, fail, progress, state, doneIds, failIds)
    }

    ghost predicate Valid()
      reads this
    {
      DeferredProofs.Inv(View())
    }

    /** Each list of the two that settle gets the Deferred's own callbacks first. */
    constructor ()
      ensures Valid() && View() == New()
    {
      var list: List<D> := Callbacks.New(ONCE_MEMORY);
      PreparedByAdd<D>();
      list := Callbacks.Apply(list, Callbacks.Add([SetPhase, DisableOther, LockProgress]));
      done, fail, progress, state := list, list, Callbacks.New(MEMORY), Pending;
      doneIds, failIds := [], [];
      new;
      DeferredProofs.NewIsFine<D>();
    }

    method SetList(side: Side, list: List<D>)
      modifies this
      ensures View() == With(old(View()), side, list)
    {
      if side.DoneSide? {
        done := list;
      } else {
        fail := list;
      }
    }

    /** `done` and `fail` of the promise: add on the list of that side. */
    method Attach(side: Side, ids: seq<nat>)
      requires Valid() && Enabled(View(), Step.Attach(side, ids))
      modifies this
      ensures Valid() && View() == Apply(old(View()), Step.Attach(side, ids))
    {
      DeferredProofs.StepKeepsInv(View(), Step.Attach(side, ids));
      SetList(side, Callbacks.Apply(if side.DoneSide? then done else fail, Callbacks.Add(Users(ids))));
      if side.DoneSide? {
        doneIds := doneIds + ids;
      } else {
        failIds := failIds + ids;
      }
    }

    /** `resolve` and `reject`: fire on the list of that side; its own callbacks are called first. */
    method Settle(side: Side, data: D)
      requires Valid() && Enabled(View(), Step.Settle(side, data))
      modifies this
      ensures Valid() && View() == Apply(old(View()), Step.Settle(side, data))
    {
      DeferredProofs.StepKeepsInv(View(), Step.Settle(side, data));
      SetList(side, Callbacks.Apply(if side.DoneSide? then done else fail, Callbacks.Fire(data)));
      RunOwn(side);
      RunOwn(side);
      RunOwn(side);
    }

    /** Runs the callback that the side's list has just called, if it is one of the Deferred's own. */
    method RunOwn(side: Side)
      modifies this
      ensures View() == OneInternal(old(View()), side)
    {
      var list := if side.DoneSide? then done else fail;
      var fn := Callee(list);
      if fn.None? || fn.value.User? || list.firingStart != 0 || list.h.current.None? {
        return;
      }
      match fn.value {
        case SetPhase => state := Final(side);
        case DisableOther => SetList(Other(side), Callbacks.Disabled(if side.DoneSide? then fail else done));
        case LockProgress => progress := Callbacks.Locked(progress);
      }
      SetList(side, Callbacks.Returned(list, true));
    }

    /** A user callback of that side comes to its end. */
    method Return(side: Side)
      requires Valid() && Enabled(View(), Step.Return(side))
      modifies this
      ensures Valid() && View() == Apply(old(View()), Step.Return(side))
    {
      DeferredProofs.StepKeepsInv(View(), Step.Return(side));
      SetList(side, Callbacks.Apply(if side.DoneSide? then done else fail, Callbacks.Return(true)));
    }

    /** `progress`, `notify`, and the end of a progress callback. */
    method OnProgress(step: Callbacks.Step<Fn, D>, ghost own: Step<D>)
      requires Valid() && Enabled(View(), own)
      requires
        match own
        case AttachProgress(ids) => step == Callbacks.Add(Users(ids))
        case Notify(data) => step == Callbacks.Fire(data)
        case ReturnProgress(ok) => step == Callbacks.Return(ok)
        case _ => false
      modifies this
      ensures Valid() && View() == Apply(old(View()), own)
    {
      DeferredProofs.StepKeepsInv(View(), own);
      progress := Callbacks.Apply(progress, step);
    }

    /** A call or the end of a callback, by its step. */
    method Perform(step: Step<D>)
      requires Valid() && Enabled(View(), step)
      modifies this
      ensures Valid() && View() == Apply(old(View()), step)
    {
      match step {
        case Attach(side, ids) => Attach(side, ids);
        case Settle(side, data) => Settle(side, data);
        case Return(side) => Return(side);
        case AttachProgress(ids) => OnProgress(Callbacks.Add(Users(ids)), step);
        case Notify(data) => OnProgress(Callbacks.Fire(data), step);
        case ReturnProgress(ok) => OnProgress(Callbacks.Return(ok), step);
      }
    }

    /** The object goes through any run that is possible from its state. */
    method Drive(steps: seq<Step<D>>, ghost states: seq<Deferred<D>>)
      requires Valid() && |states| == |steps| + 1 && states[0] == View()
      requires forall i {:trigger steps[i]} :: 0 <= i < |steps| ==>
        Enabled(states[i], steps[i]) && states[i + 1] == Apply(states[i], steps[i])
      modifies this
      ensures Valid() && View() == states[|steps|]
    {
      var i := 0;
      while i < |steps|
        invariant 0 <= i <= |steps| && Valid() && View() == states[i]
      {
        Perform(steps[i]);
        i := i + 1;
      }
    }
  }
}
