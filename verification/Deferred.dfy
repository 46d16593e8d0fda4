/** `jQuery.Deferred`: two callback lists that exclude each other, and one for progress. */
module Deferred {
  import opened Wrappers
  import Callbacks

  datatype Phase = Pending | Resolved | Rejected

  /** The callbacks a Deferred puts into its own lists, and those of its users. */
  datatype Fn = SetPhase | DisableOther | LockProgress | User(id: nat)

  type List<D> = Callbacks.State<Fn, D>

  datatype Side = DoneSide | FailSide

  /** `doneIds` and `failIds` record the callbacks attached so far, in order. */
  datatype Deferred<D> = Deferred(
    done: List<D>, fail: List<D>, progress: List<D>, phase: Phase, doneIds: seq<nat>, failIds: seq<nat>)

  /** Calls on the Deferred, from anywhere, and returns of running user callbacks. */
  datatype Step<D> =
    | Attach(side: Side, ids: seq<nat>)
    | AttachProgress(ids: seq<nat>)
    | Settle(side: Side, data: D)
    | Notify(data: D)
    | Return(side: Side)
    | ReturnProgress(ok: bool)

  const ONCE_MEMORY := Callbacks.Options(true, true, false, false)
  const MEMORY := Callbacks.Options(false, true, false, false)

  function Users(ids: seq<nat>): seq<Fn> {
    seq(|ids|, (i: nat) requires i < |ids| => User(ids[i]))
  }

  /** A list as the constructor leaves it: with its three own callbacks in front. */
  function Prepared<D>(): List<D> {
    var s: List<D> := Callbacks.New(ONCE_MEMORY);
    s.(list := Some([Callbacks.Entry(SetPhase, 0), Callbacks.Entry(DisableOther, 1), Callbacks.Entry(LockProgress, 2)]),
       h := s.h.(nextTag := 3))
  }

  function New<D>(): Deferred<D> {
    Deferred(Prepared(), Prepared(), Callbacks.New(MEMORY), Pending, [], [])
  }

  function Of<D>(d: Deferred<D>, side: Side): List<D> {
    if side.DoneSide? then d.done else d.fail
  }

  function With<D>(d: Deferred<D>, side: Side, list: List<D>): Deferred<D> {
    if side.DoneSide? then d.(done := list) else d.(fail := list)
  }

  function Other(side: Side): Side {
    if side.DoneSide? then FailSide else DoneSide
  }

  function Ids<D>(d: Deferred<D>, side: Side): seq<nat> {
    if side.DoneSide? then d.doneIds else d.failIds
  }

  function Final(side: Side): Phase {
    if side.DoneSide? then Resolved else Rejected
  }

  /** The callback that is running on a list. */
  function Callee<D>(s: List<D>): Option<Fn> {
    if s.firing && s.list.Some? && 0 <= s.firingIndex < |s.list.value| then Some(s.list.value[s.firingIndex].fn)
    else None
  }

  /** Runs one of the Deferred's own callbacks to its end, if one has just been called. */
  function OneInternal<D>(d: Deferred<D>, side: Side): Deferred<D> {
    var s := Of(d, side);
    if Callee(s).None? || Callee(s).value.User? || !(s.firingStart == 0 && s.h.current.Some?) then d
    else
      var e := With(d, side, Callbacks.Returned(s, true));
      match Callee(s).value
      case SetPhase => e.(phase := Final(side))
      case DisableOther => With(e, Other(side), Callbacks.Disabled(Of(d, Other(side))))
      case _ => e.(progress := Callbacks.Locked(d.progress))
  }

  function Internals<D>(d: Deferred<D>, side: Side): Deferred<D> {
    OneInternal(OneInternal(OneInternal(d, side), side), side)
  }

  /** No call is half way: each of the three lists can take its next step. */
  ghost predicate Ready<D>(d: Deferred<D>) {
    && (forall side :: Callbacks.Regular(Of(d, side)) && !Of(d, side).faulted)
    && Callbacks.Regular(d.progress) && !d.progress.faulted
  }

  ghost predicate Enabled<D>(d: Deferred<D>, step: Step<D>) {
    && Ready(d)
    && (step.Return? ==> Callee(Of(d, step.side)).Some? && Callee(Of(d, step.side)).value.User?)
    && (step.ReturnProgress? ==> d.progress.firing)
  }

  function Apply<D>(d: Deferred<D>, step: Step<D>): Deferred<D>
    requires Enabled(d, step)
  {
    match step
    case Attach(side, ids) =>
      var s := Of(d, side);
      var t := With(d, side, Callbacks.Apply(s, Callbacks.Add(Users(ids))));
      if side.DoneSide? then t.(doneIds := d.doneIds + ids) else t.(failIds := d.failIds + ids)
    case AttachProgress(ids) => d.(progress := Callbacks.Apply(d.progress, Callbacks.Add(Users(ids))))
    case Settle(side, data) => Internals(With(d, side, Callbacks.Apply(Of(d, side), Callbacks.Fire(data))), side)
    case Notify(data) => d.(progress := Callbacks.Apply(d.progress, Callbacks.Fire(data)))
    case Return(side) => With(d, side, Callbacks.Apply(Of(d, side), Callbacks.Return(true)))
    case ReturnProgress(ok) => d.(progress := Callbacks.Apply(d.progress, Callbacks.Return(ok)))
  }
}
