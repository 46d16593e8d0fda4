/** The callback lists of a Deferred: what has been called on them, and what is still ahead. */
module DeferredLists {
  import opened Wrappers
  import Callbacks
  import opened Deferred

  function UserIds(list: seq<Callbacks.Entry<Fn>>): seq<nat> {
    if list == [] then []
    else (if list[0].fn.User? then [list[0].fn.id] else []) + UserIds(list[1..])
  }

  /** The user callbacks among the calls made on a list, in time order. */
  function Called<D>(trace: seq<(D, Callbacks.Entry<Fn>)>): seq<nat> {
    if trace == [] then []
    else
      var fn := trace[|trace| - 1].1.fn;
      Called(trace[..|trace| - 1]) + if fn.User? then [fn.id] else []
  }

  lemma {:induction false} UserIdsConcat(a: seq<Callbacks.Entry<Fn>>, b: seq<Callbacks.Entry<Fn>>)
    ensures UserIds(a + b) == UserIds(a) + UserIds(b)
  {
    if a == [] {
      assert a + b == b;
    } else {
      assert (a + b)[0] == a[0] && (a + b)[1..] == a[1..] + b;
      UserIdsConcat(a[1..], b);
      assert UserIds(a[1..] + b) == UserIds(a[1..]) + UserIds(b);
    }
  }

  lemma CalledOneMore<D>(trace: seq<(D, Callbacks.Entry<Fn>)>, c: (D, Callbacks.Entry<Fn>))
    ensures Called(trace + [c]) == Called(trace) + if c.1.fn.User? then [c.1.fn.id] else []
  {
    assert (trace + [c])[..|trace|] == trace;
  }

  /** Adding user callbacks without the unique flag appends them all. */
  lemma {:induction false} PushedUsers(list: seq<Callbacks.Entry<Fn>>, ids: seq<nat>, tag: nat)
    ensures
      var r := Callbacks.Pushed(list, Users(ids), false, tag);
      && |r| == |list| + |ids| && UserIds(r[|list|..]) == ids
      && forall i :: 0 <= i < |ids| ==> r[|list| + i].fn == User(ids[i])
    decreases |ids|
  {
    var r := Callbacks.Pushed(list, Users(ids), false, tag);
    if ids == [] {
      assert r[|list|..] == [];
    } else {
      var next := list + [Callbacks.Entry(User(ids[0]), tag)];
      assert Users(ids)[1..] == Users(ids[1..]);
      PushedUsers(next, ids[1..], tag + 1);
      assert r == Callbacks.Pushed(next, Users(ids[1..]), false, tag + 1) && next <= r;
      assert r[|list|] == next[|list|];
      assert r[|list|..] == [r[|list|]] + r[|next|..];
      forall i | 0 <= i < |ids|
        ensures r[|list| + i].fn == User(ids[i])
      {
        assert i > 0 ==> r[|next| + (i - 1)].fn == User(ids[1..][i - 1]);
      }
    }
  }

  // ---------- the three conditions a list can be in ----------

  ghost predicate Still<D>(s: List<D>) {
    !s.firing && s.h.current.None? && s.firingStart == 0 && !s.faulted && s.stack.None?
  }

  /** Not fired yet: the Deferred's own callbacks in front, then the users' in attachment order. */
  ghost predicate Unfired<D>(s: List<D>, ids: seq<nat>) {
    && Still(s) && s.opts == ONCE_MEMORY && !s.fired && s.memory.None? && s.h.trace == []
    && s.list.Some? && |s.list.value| == 3 + |ids|
    && s.list.value[0].fn == SetPhase && s.list.value[1].fn == DisableOther && s.list.value[2].fn == LockProgress
    && (forall i :: 0 <= i < |ids| ==> s.list.value[3 + i].fn == User(ids[i]))
    && UserIds(s.list.value[3..]) == ids
  }

  /** Disabled: nothing was ever called on it, and nothing will be. */
  ghost predicate Dead<D>(s: List<D>) {
    Still(s) && s.list.None? && s.memory.None? && s.h.trace == []
  }

  ghost predicate SawData<D>(s: List<D>) {
    s.memory.Some? && forall i :: 0 <= i < |s.h.trace| ==> s.h.trace[i].0 == s.memory.value
  }

  /** In its pass: the users' callbacks called so far and those ahead are all that were attached. */
  ghost predicate InPass<D>(s: List<D>, ids: seq<nat>) {
    && s.firing && s.fired && !s.faulted && s.firingStart == 0 && s.stack.None? && s.opts == ONCE_MEMORY
    && s.h.current.Some? && SawData(s) && s.h.current.value.data == s.memory.value
    && s.list.Some? && s.firingLength == |s.list.value| && 0 <= s.firingIndex < |s.list.value|
    && Called(s.h.trace) + UserIds(s.list.value[s.firingIndex + 1..]) == ids
  }

  ghost predicate OnlyUsersAhead<D>(s: List<D>) {
    s.list.Some? && forall i :: 0 <= s.firingIndex <= i < |s.list.value| ==> s.list.value[i].fn.User?
  }

  /** Fired: every attached callback was called once, in order, or is about to be. */
  ghost predicate Settled<D>(s: List<D>, ids: seq<nat>) {
    if s.firing then InPass(s, ids)
    else
      && Still(s) && s.fired && s.opts == ONCE_MEMORY && SawData(s) && s.list == Some([])
      && Called(s.h.trace) == ids
  }

  // ---------- steps of a fired list ----------

  ghost predicate AtTest<D>(s: List<D>, ids: seq<nat>) {
    && s.firing && s.fired && !s.faulted && s.firingStart == 0 && s.stack.None? && s.opts == ONCE_MEMORY
    && s.h.current.Some? && SawData(s) && s.h.current.value.data == s.memory.value
    && s.list.Some? && s.firingLength == |s.list.value| && 0 <= s.firingIndex <= |s.list.value|
    && Called(s.h.trace) + UserIds(s.list.value[s.firingIndex..]) == ids
  }

  lemma CallMovesOn<D>(trace: seq<(D, Callbacks.Entry<Fn>)>, data: D, list: seq<Callbacks.Entry<Fn>>, i: nat)
    requires i < |list|
    ensures Called(trace + [(data, list[i])]) + UserIds(list[i + 1..]) == Called(trace) + UserIds(list[i..])
  {
    CalledOneMore(trace, (data, list[i]));
    assert list[i..][0] == list[i] && list[i..][1..] == list[i + 1..];
  }

  lemma TurnSettles<D>(s: List<D>, ids: seq<nat>)
    requires AtTest(s, ids)
    ensures Settled(Callbacks.Turn(s), ids)
    ensures Callbacks.Turn(s).memory == s.memory
    ensures Callbacks.Turn(s).firing <==> s.firingIndex < |s.list.value|
    ensures Callbacks.Turn(s).firing ==>
      Callbacks.Turn(s).firingIndex == s.firingIndex && Callbacks.Turn(s).list == s.list
  {
    var list, i := s.list.value, s.firingIndex;
    if i < |list| {
      CallMovesOn(s.h.trace, s.h.current.value.data, list, i);
    } else {
      assert list[i..] == [] && Called(s.h.trace) + [] == Called(s.h.trace);
    }
  }

  lemma ReturnSettles<D>(s: List<D>, ids: seq<nat>)
    requires InPass(s, ids)
    ensures
      var t := Callbacks.Returned(s, true);
      && Settled(t, ids)
      && t.memory == s.memory
      && (t.firing <==> s.firingIndex + 1 < |s.list.value|)
      && (t.firing ==> t.firingIndex == s.firingIndex + 1 && t.list == s.list)
  {
    TurnSettles(s.(firingIndex := s.firingIndex + 1), ids);
  }

  lemma UsersAppended(list: seq<Callbacks.Entry<Fn>>, i: int, more: seq<nat>, tag: nat, before: seq<nat>)
    requires 0 <= i < |list| && forall j :: i <= j < |list| ==> list[j].fn.User?
    ensures
      var all := Callbacks.Pushed(list, Users(more), false, tag);
      && |all| == |list| + |more| && before + UserIds(all[i + 1..]) == (before + UserIds(list[i + 1..])) + more
      && forall j :: i <= j < |all| ==> all[j].fn.User?
  {
    var end := PushedTail(list, more, tag);
    IdsAppended(list, i, end, before);
    AllUsers(list, end, more, i);
  }

  lemma IdsAppended(list: seq<Callbacks.Entry<Fn>>, i: int, end: seq<Callbacks.Entry<Fn>>, before: seq<nat>)
    requires 0 <= i < |list|
    ensures before + UserIds((list + end)[i + 1..]) == (before + UserIds(list[i + 1..])) + UserIds(end)
  {
    UserIdsConcat(list[i + 1..], end);
    CutOfSum(list, i + 1, end);
    SumOfThree(before, UserIds(list[i + 1..]), UserIds(end));
  }

  lemma CutOfSum<T>(a: seq<T>, i: nat, b: seq<T>)
    requires i <= |a|
    ensures (a + b)[i..] == a[i..] + b
  {
  }

  lemma SumOfThree<T>(a: seq<T>, b: seq<T>, c: seq<T>)
    ensures a + (b + c) == (a + b) + c
  {
  }

  lemma PushedTail(list: seq<Callbacks.Entry<Fn>>, ids: seq<nat>, tag: nat) returns (end: seq<Callbacks.Entry<Fn>>)
    ensures Callbacks.Pushed(list, Users(ids), false, tag) == list + end
    ensures |end| == |ids| && UserIds(end) == ids && forall i :: 0 <= i < |ids| ==> end[i].fn == User(ids[i])
  {
    PushedUsers(list, ids, tag);
    var r := Callbacks.Pushed(list, Users(ids), false, tag);
    end := r[|list|..];
    assert forall i :: 0 <= i < |ids| ==> end[i] == r[|list| + i];
  }

  lemma AllUsers(list: seq<Callbacks.Entry<Fn>>, end: seq<Callbacks.Entry<Fn>>, more: seq<nat>, i: int)
    requires 0 <= i < |list| && (forall j :: i <= j < |list| ==> list[j].fn.User?)
    requires |end| == |more| && forall j :: 0 <= j < |more| ==> end[j].fn == User(more[j])
    ensures forall j :: i <= j < |list + end| ==> (list + end)[j].fn.User?
  {
  }

  lemma AttachWhileFiring<D>(s: List<D>, ids: seq<nat>, more: seq<nat>)
    requires InPass(s, ids) && Callbacks.Regular(s) && OnlyUsersAhead(s)
    ensures
      var t := Callbacks.Apply(s, Callbacks.Add(Users(more)));
      InPass(t, ids + more) && OnlyUsersAhead(t)
  {
    UsersAppended(s.list.value, s.firingIndex, more, s.h.nextTag, Called(s.h.trace));
  }

  lemma AttachAfterwards<D>(s: List<D>, ids: seq<nat>, more: seq<nat>)
    requires Settled(s, ids) && !s.firing && Callbacks.Regular(s)
    ensures
      var t := Callbacks.Apply(s, Callbacks.Add(Users(more)));
      Settled(t, ids + more) && (t.firing ==> OnlyUsersAhead(t))
  {
    var all := PushedTail([], more, s.h.nextTag);
    assert [] + all == all && all[0..] == all;
    var u := Callbacks.Started(Callbacks.Grown(s, Users(more)).(firingStart := 0), s.memory.value, true);
    assert u.list == Some(all) && AtTest(u, ids + more);
    TurnSettles(u, ids + more);
    assert Callbacks.Apply(s, Callbacks.Add(Users(more))) == Callbacks.Turn(u);
  }

  lemma AttachUnfired<D>(s: List<D>, ids: seq<nat>, more: seq<nat>)
    requires Unfired(s, ids)
    ensures Unfired(Callbacks.Apply(s, Callbacks.Add(Users(more))), ids + more)
  {
    var list := s.list.value;
    PushedUsers(list, more, s.h.nextTag);
    var all := Callbacks.Pushed(list, Users(more), false, s.h.nextTag);
    assert all[3..] == list[3..] + all[|list|..];
    UserIdsConcat(list[3..], all[|list|..]);
    forall i | 0 <= i < |ids + more|
      ensures all[3 + i].fn == User((ids + more)[i])
    {
      if i < |ids| {
        assert all[3 + i] == list[3 + i];
      } else {
        assert all[|list| + (i - |ids|)].fn == User(more[i - |ids|]);
      }
    }
  }

  /** The list is in its pass and about to run its own callback i. */
  ghost predicate AtOwn<D>(s: List<D>, ids: seq<nat>, i: nat) {
    && InPass(s, ids) && s.firingIndex == i <= 3 <= |s.list.value|
    && s.list.value[0].fn == SetPhase && s.list.value[1].fn == DisableOther && s.list.value[2].fn == LockProgress
    && forall j :: 3 <= j < |s.list.value| ==> s.list.value[j].fn.User?
  }

  /** The first fire calls the list's own first callback; the users' are all still ahead. */
  lemma FireStarts<D>(s: List<D>, ids: seq<nat>, data: D)
    requires Unfired(s, ids)
    ensures
      var t := Callbacks.Apply(s, Callbacks.Fire(data));
      AtOwn(t, ids, 0) && t.memory == Some(data)
  {
    var u := Callbacks.Started(s.(h := s.h.(issued := s.h.issued + [data])), data, false);
    OwnInFront(s.list.value, ids);
    assert AtTest(u, ids);
    TurnSettles(u, ids);
    assert Callbacks.Apply(s, Callbacks.Fire(data)) == Callbacks.Turn(u);
  }

  lemma OwnInFront(list: seq<Callbacks.Entry<Fn>>, ids: seq<nat>)
    requires |list| == 3 + |ids| && UserIds(list[3..]) == ids
    requires forall i :: 0 <= i < 3 ==> !list[i].fn.User?
    requires forall i :: 0 <= i < |ids| ==> list[3 + i].fn == User(ids[i])
    ensures [] + UserIds(list[0..]) == ids
    ensures forall j :: 3 <= j < |list| ==> list[j].fn.User?
  {
    assert list[0..] == list[..3] + list[3..];
    UserIdsConcat(list[..3], list[3..]);
    OwnAreNoUsers(list[..3]);
    forall j | 3 <= j < |list|
      ensures list[j].fn.User?
    {
      assert list[3 + (j - 3)].fn == User(ids[j - 3]);
    }
  }

  lemma OwnAreNoUsers(list: seq<Callbacks.Entry<Fn>>)
    requires |list| == 3 && forall i :: 0 <= i < 3 ==> !list[i].fn.User?
    ensures UserIds(list) == []
  {
    var tail := list[1..];
    assert tail[1..] == [list[2]] && [list[2]][1..] == [];
    assert UserIds([list[2]]) == [];
    assert UserIds(tail) == [];
  }
}
