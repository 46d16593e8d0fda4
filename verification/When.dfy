/** `jQuery.when`: one master Deferred that follows all its subordinates. */
module When {
  import opened Wrappers
  import D = Deferred
  import P = DeferredProofs

  /** What the listeners of one argument have been told so far. */
  datatype Status<V> = Waiting | Fulfilled(value: V) | Failed(reason: V)

  /** An argument of when: a plain value, or a promise in its present state. */
  datatype Arg<V> = Plain(value: V) | Promise(status: Status<V>)

  /** What the master is settled with: the values by index, or the reason of a rejection. */
  datatype Outcome<V> = Values(values: seq<Option<V>>) | Reason(reason: V)

  /**
   The closure of when.  A value is None while the array still holds the promise itself.
   `statuses` and `firstReason` are history: what has been heard from every argument, and the
   reason of the rejection that was heard first.
   */
  datatype State<V> = State(
    remaining: int, values: seq<Option<V>>, master: D.Deferred<Outcome<V>>,
    statuses: seq<Status<V>>, firstReason: Option<V>)

  function StatusOf<V>(arg: Arg<V>): Status<V> {
    if arg.Plain? then Fulfilled(arg.value) else arg.status
  }

  function Unfulfilled<V>(statuses: seq<Status<V>>): nat {
    if statuses == [] then 0 else (if statuses[0].Fulfilled? then 0 else 1) + Unfulfilled(statuses[1..])
  }

  /** `resolveWith` or `reject` of the master. */
  function Settled<V>(s: State<V>, side: D.Side, data: Outcome<V>): State<V>
    requires D.Ready(s.master)
  {
    s.(master := D.Apply(s.master, D.Settle(side, data)))
  }

  /** The done callback of argument i, up to its test of `remaining`. */
  function Noted<V>(s: State<V>, i: nat, v: V): State<V>
    requires i < |s.values| && i < |s.statuses|
  {
    s.(values := s.values[i := Some(v)], remaining := s.remaining - 1, statuses := s.statuses[i := Fulfilled(v)])
  }

  /** The done callback of argument i. */
  function OnDone<V>(s: State<V>, i: nat, v: V): State<V>
    requires i < |s.values| && i < |s.statuses| && D.Ready(s.master)
  {
    var t := Noted(s, i, v);
    if t.remaining == 0 then Settled(t, D.DoneSide, Values(t.values)) else t
  }

  /** The fail callback of argument i, which is the master's own reject. */
  function OnFail<V>(s: State<V>, i: nat, v: V): State<V>
    requires i < |s.statuses| && D.Ready(s.master)
  {
    Settled(s.(statuses := s.statuses[i := Failed(v)],
               firstReason := if s.firstReason.None? then Some(v) else s.firstReason),
            D.FailSide, Reason(v))
  }

  /** A promise is heard once, in any order with the others; callers may use the master's promise. */
  datatype Event<V> = Done(i: nat, value: V) | Fail(i: nat, reason: V) | OnMaster(step: D.Step<Outcome<V>>)

  /** The master's promise offers callers no way to settle it. */
  ghost predicate Enabled<V>(s: State<V>, e: Event<V>) {
    && D.Ready(s.master)
    && match e
       case OnMaster(step) => D.Enabled(s.master, step) && !step.Settle?
       case _ => e.i < |s.values| && e.i < |s.statuses| && s.statuses[e.i].Waiting?
  }

  function Apply<V>(s: State<V>, e: Event<V>): State<V>
    requires Enabled(s, e)
  {
    match e
    case Done(i, v) => OnDone(s, i, v)
    case Fail(i, v) => OnFail(s, i, v)
    case OnMaster(step) => s.(master := D.Apply(s.master, step))
  }

  // ---------- the invariant ----------

  ghost predicate AllFulfilled<V>(statuses: seq<Status<V>>) {
    forall i :: 0 <= i < |statuses| ==> statuses[i].Fulfilled?
  }

  ghost predicate AnyFailed<V>(statuses: seq<Status<V>>) {
    exists i :: 0 <= i < |statuses| && statuses[i].Failed?
  }

  /** The value of every fulfilled argument stands at its own index. */
  ghost predicate InPlace<V>(statuses: seq<Status<V>>, values: seq<Option<V>>) {
    && |values| == |statuses|
    && forall i :: 0 <= i < |statuses| && statuses[i].Fulfilled? ==> values[i] == Some(statuses[i].value)
  }

  /** The master is pending, resolved with all values, or rejected with the first reason. */
  ghost predicate MasterFollows<V>(s: State<V>, pending: bool) {
    && P.Inv(s.master)
    && match s.master.phase
       case Pending => pending && s.firstReason.None?
       case Resolved => s.remaining == 0 && s.master.done.memory == Some(Values(s.values))
       case Rejected => s.firstReason.Some? && s.master.fail.memory == Some(Reason(s.firstReason.value))
  }

  /** What holds of the variables at any time, also while the loop over the arguments runs. */
  ghost predicate Counted<V>(s: State<V>) {
    && InPlace(s.statuses, s.values)
    && s.remaining == Unfulfilled(s.statuses)
    && (s.firstReason.Some? <==> AnyFailed(s.statuses))
  }

  ghost predicate Inv<V>(s: State<V>) {
    Counted(s) && MasterFollows(s, s.remaining > 0)
  }

  lemma {:induction false} UnfulfilledZero<V>(statuses: seq<Status<V>>)
    ensures Unfulfilled(statuses) == 0 <==> AllFulfilled(statuses)
  {
    if statuses == [] {
    } else {
      UnfulfilledZero(statuses[1..]);
      forall i | 0 < i < |statuses|
        ensures statuses[i] == statuses[1..][i - 1]
      {
      }
    }
  }

  lemma {:induction false} UnfulfilledUpdate<V>(statuses: seq<Status<V>>, i: nat, status: Status<V>)
    requires i < |statuses| && statuses[i].Waiting?
    ensures Unfulfilled(statuses[i := status]) == Unfulfilled(statuses) - if status.Fulfilled? then 1 else 0
  {
    if i == 0 {
      assert statuses[0 := status][1..] == statuses[1..];
    } else {
      UnfulfilledUpdate(statuses[1..], i - 1, status);
      assert statuses[i := status][1..] == statuses[1..][i - 1 := status];
    }
  }

  lemma {:induction false} AllWaiting<V>(statuses: seq<Status<V>>)
    requires forall i :: 0 <= i < |statuses| ==> statuses[i].Waiting?
    ensures Unfulfilled(statuses) == |statuses|
  {
    if statuses == [] {
    } else {
      AllWaiting(statuses[1..]);
    }
  }

  // ---------- one event ----------

  lemma NotedKeepsCount<V>(s: State<V>, i: nat, v: V)
    requires Counted(s) && i < |s.statuses| && s.statuses[i].Waiting?
    ensures Counted(Noted(s, i, v))
  {
    UnfulfilledUpdate(s.statuses, i, Fulfilled(v));
    var next := s.statuses[i := Fulfilled(v)];
    forall j | 0 <= j < |next|
      ensures next[j].Failed? <==> s.statuses[j].Failed?
    {
    }
  }

  /** A rejection that was heard keeps the count above zero for good. */
  lemma FailedKeepsWaiting<V>(s: State<V>)
    requires Counted(s) && s.firstReason.Some?
    ensures s.remaining > 0
  {
    UnfulfilledZero(s.statuses);
  }

  lemma OnDoneKeeps<V>(s: State<V>, i: nat, v: V)
    requires Counted(s) && MasterFollows(s, true) && i < |s.statuses| && s.statuses[i].Waiting?
    ensures D.Ready(s.master) && Counted(OnDone(s, i, v))
    ensures MasterFollows(OnDone(s, i, v), OnDone(s, i, v).remaining > 0)
  {
    P.InvIsReady(s.master);
    NotedKeepsCount(s, i, v);
    UnfulfilledZero(s.statuses);
    var t := Noted(s, i, v);
    if t.remaining == 0 {
      if t.firstReason.Some? {
        FailedKeepsWaiting(t);
      }
      P.SettleDecides(s.master, D.DoneSide, Values(t.values));
      P.SettleKeepsInv(s.master, D.DoneSide, Values(t.values));
    }
  }

  /** Behind the loop nothing is left to wait for: the master is resolved, unless it was already. */
  lemma ResolveAtEnd<V>(s: State<V>)
    requires Counted(s) && MasterFollows(s, true) && s.remaining == 0
    ensures D.Ready(s.master) && Inv(Settled(s, D.DoneSide, Values(s.values)))
  {
    P.InvIsReady(s.master);
    P.SettleKeepsInv(s.master, D.DoneSide, Values(s.values));
    if s.firstReason.Some? {
      FailedKeepsWaiting(s);
    } else if s.master.phase == D.Pending {
      P.SettleDecides(s.master, D.DoneSide, Values(s.values));
    }
  }

  lemma OnFailKeeps<V>(s: State<V>, i: nat, v: V)
    requires Counted(s) && MasterFollows(s, true) && i < |s.statuses| && s.statuses[i].Waiting?
    ensures D.Ready(s.master) && Counted(OnFail(s, i, v))
    ensures MasterFollows(OnFail(s, i, v), OnFail(s, i, v).remaining > 0)
  {
    P.InvIsReady(s.master);
    UnfulfilledUpdate(s.statuses, i, Failed(v));
    UnfulfilledZero(s.statuses);
    assert s.statuses[i := Failed(v)][i].Failed?;
    P.SettleKeepsInv(s.master, D.FailSide, Reason(v));
    if s.master.phase == D.Pending {
      P.SettleDecides(s.master, D.FailSide, Reason(v));
    }
  }

  lemma OnMasterKeeps<V>(s: State<V>, step: D.Step<Outcome<V>>)
    requires Inv(s) && D.Enabled(s.master, step) && !step.Settle?
    ensures Inv(s.(master := D.Apply(s.master, step)))
  {
    P.StepKeepsInv(s.master, step);
    if s.master.phase == D.Resolved {
      P.DataStays(s.master, D.DoneSide, step);
    } else if s.master.phase == D.Rejected {
      P.DataStays(s.master, D.FailSide, step);
    }
  }

  lemma StepKeepsInv<V>(s: State<V>, e: Event<V>)
    requires Inv(s) && Enabled(s, e)
    ensures Inv(Apply(s, e))
    ensures s.firstReason.Some? ==> Apply(s, e).firstReason == s.firstReason
  {
    match e {
      case Done(i, v) => OnDoneKeeps(s, i, v);
      case Fail(i, v) => OnFailKeeps(s, i, v);
      case OnMaster(step) => OnMasterKeeps(s, step);
    }
  }

  // ---------- runs ----------

  ghost predicate IsRun<V>(states: seq<State<V>>, events: seq<Event<V>>) {
    && |states| == |events| + 1 && Inv(states[0])
    && forall i {:trigger events[i]} :: 0 <= i < |events| ==>
         Enabled(states[i], events[i]) && states[i + 1] == Apply(states[i], events[i])
  }

  lemma {:induction false} RunKeepsInv<V>(states: seq<State<V>>, events: seq<Event<V>>, i: nat, j: nat)
    requires IsRun(states, events) && i <= j < |states|
    ensures Inv(states[j])
    ensures states[i].firstReason.Some? ==> states[j].firstReason == states[i].firstReason
    decreases j
  {
    if j == 0 {
    } else {
      RunKeepsInv(states, events, if i < j then i else i - 1, j - 1);
      StepKeepsInv(states[j - 1], events[j - 1]);
    }
  }

  /** The values that the done callbacks of the master are called with. */
  ghost predicate HasValuesOf<V>(data: Outcome<V>, statuses: seq<Status<V>>) {
    && data.Values? && |data.values| == |statuses| && AllFulfilled(statuses)
    && forall i :: 0 <= i < |statuses| ==> data.values[i] == Some(statuses[i].value)
  }

  /**
   Whatever the order of settlements, the master is resolved exactly when all arguments are
   fulfilled, and its done callbacks then get the value of each argument at its own index.
   */
  lemma ResolvedIffAllFulfilled<V>(states: seq<State<V>>, events: seq<Event<V>>, i: nat)
    requires IsRun(states, events) && i < |states|
    ensures
      var s := states[i];
      && (s.master.phase == D.Resolved <==> AllFulfilled(s.statuses))
      && forall c :: c in s.master.done.h.trace ==> HasValuesOf(c.0, s.statuses)
  {
    RunKeepsInv(states, events, i, i);
    var s := states[i];
    UnfulfilledZero(s.statuses);
    if s.firstReason.Some? {
      FailedKeepsWaiting(s);
    }
  }

  /**
   The master is rejected exactly when some argument has failed; its fail callbacks get the
   reason that was heard first, whatever is heard afterwards.
   */
  lemma FirstRejectionWins<V>(states: seq<State<V>>, events: seq<Event<V>>, j: nat, i: nat)
    requires IsRun(states, events) && j < i < |states| && !AnyFailed(states[j].statuses) && events[j].Fail?
    ensures
      var s := states[i];
      && s.master.phase == D.Rejected && AnyFailed(s.statuses)
      && s.master.fail.memory == Some(Reason(events[j].reason))
      && forall c :: c in s.master.fail.h.trace ==> c.0 == Reason(events[j].reason)
  {
    RunKeepsInv(states, events, j, j);
    FailSetsReason(states[j], events[j]);
    RunKeepsInv(states, events, j + 1, i);
    RejectedWith(states[i], events[j].reason);
  }

  lemma FailSetsReason<V>(s: State<V>, e: Event<V>)
    requires Inv(s) && Enabled(s, e) && e.Fail? && !AnyFailed(s.statuses)
    ensures Apply(s, e).firstReason == Some(e.reason)
  {
  }

  lemma RejectedWith<V>(s: State<V>, reason: V)
    requires Inv(s) && s.firstReason == Some(reason)
    ensures s.master.phase == D.Rejected && AnyFailed(s.statuses)
    ensures s.master.fail.memory == Some(Reason(reason))
    ensures forall c :: c in s.master.fail.h.trace ==> c.0 == Reason(reason)
  {
    FailedKeepsWaiting(s);
  }

  lemma RejectedIffAnyFailed<V>(states: seq<State<V>>, events: seq<Event<V>>, i: nat)
    requires IsRun(states, events) && i < |states|
    ensures states[i].master.phase == D.Rejected <==> AnyFailed(states[i].statuses)
  {
    RunKeepsInv(states, events, i, i);
    if states[i].firstReason.Some? {
      FailedKeepsWaiting(states[i]);
    }
  }

  // ---------- the closure and its loop ----------

  /** The reason of the first promise among the arguments that was already rejected. */
  function FirstFailure<V>(args: seq<Arg<V>>): Option<V> {
    if args == [] then None
    else if FirstFailure(args[..|args| - 1]).Some? then FirstFailure(args[..|args| - 1])
    else if StatusOf(args[|args| - 1]).Failed? then Some(StatusOf(args[|args| - 1]).reason)
    else None
  }

  /** The statuses once the loop has looked at the first n arguments. */
  function Heard<V>(args: seq<Arg<V>>, n: nat): seq<Status<V>> {
    seq(|args|, (i: nat) requires i < |args| => if i < n then StatusOf(args[i]) else Waiting)
  }

  /** The array of values as the arguments come in. */
  function Given<V>(args: seq<Arg<V>>): seq<Option<V>> {
    seq(|args|, (i: nat) requires i < |args| => if args[i].Plain? then Some(args[i].value) else None)
  }

  /** The loop has looked at the first n arguments. */
  ghost predicate Listening<V>(s: State<V>, args: seq<Arg<V>>, n: nat)
    requires n <= |args|
  {
    && Counted(s) && MasterFollows(s, true)
    && s.statuses == Heard(args, n) && s.firstReason == FirstFailure(args[..n])
    && forall j :: 0 <= j < |args| && args[j].Plain? ==> s.values[j] == Some(args[j].value)
  }

  function Started<V>(args: seq<Arg<V>>): State<V> {
    State(|args|, Given(args), D.New(), Heard(args, 0), None)
  }

  lemma StartedListens<V>(args: seq<Arg<V>>)
    ensures Listening(Started(args), args, 0)
  {
    AllWaiting(Heard(args, 0));
    P.NewIsFine<Outcome<V>>();
  }

  /** What a plain value does to the variables; its slot holds it already. */
  function Skipped<V>(s: State<V>, i: nat, v: V): State<V>
    requires i < |s.statuses|
  {
    s.(remaining := s.remaining - 1, statuses := s.statuses[i := Fulfilled(v)])
  }

  lemma PlainListens<V>(s: State<V>, i: nat, v: V)
    requires Counted(s) && MasterFollows(s, true)
    requires i < |s.statuses| && s.statuses[i].Waiting? && s.values[i] == Some(v)
    ensures Counted(Skipped(s, i, v)) && MasterFollows(Skipped(s, i, v), true)
    ensures Skipped(s, i, v).firstReason == s.firstReason
  {
    NotedKeepsCount(s, i, v);
    assert s.values[i := Some(v)] == s.values;
    if s.master.phase == D.Resolved {
      UnfulfilledZero(s.statuses);
      assert false;
    }
  }

  lemma ListensOn<V>(s: State<V>, args: seq<Arg<V>>, i: nat, t: State<V>)
    requires i < |args| && Listening(s, args, i) && D.Ready(s.master)
    requires
      match args[i]
      case Plain(v) => t == Skipped(s, i, v)
      case Promise(Waiting) => t == s
      case Promise(Fulfilled(v)) => t == OnDone(s, i, v)
      case Promise(Failed(v)) => t == OnFail(s, i, v)
    ensures Listening(t, args, i + 1)
  {
    assert args[..i + 1][..i] == args[..i];
    assert Heard(args, i + 1) == Heard(args, i)[i := StatusOf(args[i])];
    match args[i] {
      case Plain(v) => PlainListens(s, i, v);
      case Promise(Waiting) =>
      case Promise(Fulfilled(v)) => OnDoneKeeps(s, i, v);
      case Promise(Failed(v)) => OnFailKeeps(s, i, v);
    }
  }

  class Gathering<V> {
    var remaining: int
    var values: seq<Option<V>>
    var master: D.Deferred<Outcome<V>>
    ghost var statuses: seq<Status<V>>
    ghost var firstReason: Option<V>

    ghost function View(): State<V>
      reads this
    {
      State(remaining, values, master, statuses, firstReason)
    }

    /**
     The closure of a call of when that makes a master of its own.  Promises already settled are
     heard while the loop is still running.
     */
    constructor (args: seq<Arg<V>>)
      requires |args| == 1 ==> args[0].Plain?
      ensures Inv(View())
      ensures statuses == Heard(args, |args|) && firstReason == FirstFailure(args)
      ensures forall i :: 0 <= i < |args| && args[i].Plain? ==> values[i] == Some(args[i].value)
    {
      remaining := |args|;
      values := Given(args);
      master := D.New();
      statuses := Heard(args, 0);
      firstReason := None;
      new;
      StartedListens(args);
      P.InvIsReady(master);
      var i := 0;
      if |args| == 1 {
        ListensOn(View(), args, 0, Skipped(View(), 0, args[0].value));
        remaining := 0;
        statuses := statuses[0 := Fulfilled(args[0].value)];
        i := 1;
      }
      while i < |args|
        invariant 0 <= i <= |args| && Listening(View(), args, i)
      {
        Listen(args, i);
        i := i + 1;
      }
      assert args[..i] == args;
      if remaining == 0 {
        ResolveAtEnd(View());
        master := D.Apply(master, D.Settle(D.DoneSide, Values(values)));
      }
    }

    /** One round of the loop: a promise is listened to, anything else counts as fulfilled. */
    method Listen(args: seq<Arg<V>>, i: nat)
      requires i < |args| && Listening(View(), args, i)
      modifies this
      ensures Listening(View(), args, i + 1)
    {
      P.InvIsReady(master);
      ghost var s := View();
      if args[i].Promise? {
        match args[i].status {
          case Fulfilled(v) => UpdateResolved(i, v);
          case Failed(v) => Reject(i, v);
          case Waiting =>
        }
      } else {
        remaining := remaining - 1;
        statuses := statuses[i := Fulfilled(args[i].value)];
      }
      ListensOn(s, args, i, View());
    }

    /** The done callback of argument i. */
    method UpdateResolved(i: nat, value: V)
      requires i < |values| && i < |statuses| && D.Ready(master)
      modifies this
      ensures View() == OnDone(old(View()), i, value)
    {
      values := values[i := Some(value)];
      statuses := statuses[i := Fulfilled(value)];
      remaining := remaining - 1;
      if remaining == 0 {
        master := D.Apply(master, D.Settle(D.DoneSide, Values(values)));
      }
    }

    /** The fail callback of argument i. */
    method Reject(i: nat, reason: V)
      requires i < |statuses| && D.Ready(master)
      modifies this
      ensures View() == OnFail(old(View()), i, reason)
    {
      master := D.Apply(master, D.Settle(D.FailSide, Reason(reason)));
      statuses := statuses[i := Failed(reason)];
      firstReason := if firstReason.None? then Some(reason) else firstReason;
    }
  }

  /** The argument counts as fulfilled: it is a plain value, or a promise that is. */
  predicate IsFulfilled<V>(arg: Arg<V>) {
    arg.Plain? || arg.status.Fulfilled?
  }

  predicate IsRejected<V>(arg: Arg<V>) {
    arg.Promise? && arg.status.Failed?
  }

  lemma {:induction false} FirstFailureMeans<V>(args: seq<Arg<V>>)
    ensures FirstFailure(args).None? <==> forall i :: 0 <= i < |args| ==> !IsRejected(args[i])
    ensures forall i :: 0 <= i < |args| && IsRejected(args[i]) && (forall j :: 0 <= j < i ==> !IsRejected(args[j])) ==>
      FirstFailure(args) == Some(args[i].status.reason)
  {
    if args == [] {
    } else {
      FirstFailureMeans(args[..|args| - 1]);
    }
  }

  /** What is settled among the arguments decides at once: all fulfilled, or one rejected. */
  lemma ArgumentsDecide<V>(s: State<V>, args: seq<Arg<V>>)
    requires Inv(s) && s.statuses == Heard(args, |args|) && s.firstReason == FirstFailure(args)
    ensures s.master.phase == D.Resolved <==> forall i :: 0 <= i < |args| ==> IsFulfilled(args[i])
    ensures s.master.phase == D.Rejected <==> exists i :: 0 <= i < |args| && IsRejected(args[i])
    ensures s.master.phase == D.Resolved ==>
      && s.master.done.memory == Some(Values(s.values)) && |s.values| == |args|
      && forall i :: 0 <= i < |args| ==>
           s.values[i] == Some(match args[i] case Plain(v) => v case Promise(status) => status.value)
  {
    FirstFailureMeans(args);
    UnfulfilledZero(s.statuses);
    assert forall i :: 0 <= i < |args| ==> (s.statuses[i].Fulfilled? <==> IsFulfilled(args[i]));
    if s.firstReason.Some? {
      FailedKeepsWaiting(s);
    }
  }

  /** What a call of when returns: the promise of its only argument, or of the closure's master. */
  datatype Promised<V> = Itself(status: Status<V>) | Master(gathering: Gathering<V>)

  /**
   The call of when, for any arguments.  A single promise is returned as it is; all other
   arguments are gathered, and what is settled among them has been heard when the call returns.
   */
  method When<V>(args: seq<Arg<V>>) returns (r: Promised<V>)
    ensures r.Itself? <==> |args| == 1 && args[0].Promise?
    ensures r.Itself? ==> r.status == args[0].status
    ensures r.Master? ==>
      var g := r.gathering;
      && fresh(g) && Inv(g.View())
      && g.statuses == Heard(args, |args|) && g.firstReason == FirstFailure(args)
      && (forall i :: 0 <= i < |args| && args[i].Plain? ==> g.values[i] == Some(args[i].value))
      && (g.master.phase == D.Resolved <==> forall i :: 0 <= i < |args| ==> IsFulfilled(args[i]))
      && (g.master.phase == D.Rejected <==> exists i :: 0 <= i < |args| && IsRejected(args[i]))
  {
    if |args| == 1 && args[0].Promise? {
      r := Itself(args[0].status);
    } else {
      var g := new Gathering(args);
      ArgumentsDecide(g.View(), args);
      r := Master(g);
    }
  }

  /** Hearing from an argument is recorded, and resolves or rejects the master if it decides. */
  lemma EventIsHeard<V>(s: State<V>, e: Event<V>)
    requires Inv(s) && Enabled(s, e)
    ensures
      var t := Apply(s, e);
      && |t.statuses| == |s.statuses|
      && forall i :: 0 <= i < |s.statuses| ==>
           t.statuses[i] ==
             match e
             case Done(j, v) => (if i == j then Fulfilled(v) else s.statuses[i])
             case Fail(j, v) => (if i == j then Failed(v) else s.statuses[i])
             case OnMaster(_) => s.statuses[i]
  {
  }
}
