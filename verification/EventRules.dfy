/** Which handlers remove takes away, and which ones an event calls. */
module EventRules {
  import opened Wrappers
  import opened Filters
  import opened Events

  // ---------- remove ----------

  /** The reasons for which a handler stays. */
  ghost predicate Stays(h: Handler, r: Removal) {
    || (!r.anyType && h.origType != r.origType)
    || (r.guid.Some? && h.guid != r.guid.value)
    || (exists name :: r.names[name] > h.names[name])
    || (r.selector.Some? && h.selector != r.selector && !(r.selector == Some("**") && h.selector.Some?))
  }

  /**
   remove leaves, in the order they were attached, exactly the handlers of another type, of
   another function, without one of the namespaces, or with another selector; "**" stands for
   any selector, but not for none.  Handlers of other event types are not touched.
   */
  lemma RemoveLeaves(attached: Attached, t: string, r: Removal, h: Handler)
    ensures
      var after := WithRemoved(attached, t, r);
      && (h in Of(after, t) <==> h in Of(attached, t) && Stays(h, r))
      && (forall u :: u != t ==> Of(after, u) == Of(attached, u))
  {
    FilterHas(Of(attached, t), (h: Handler) => !Concerns(r, h), h);
    assert (r.names <= h.names) <==> !(exists name :: r.names[name] > h.names[name]);
  }

  /** What is left is a subsequence: two parts of a list are thinned out each by itself. */
  lemma RemoveKeepsOrder(a: seq<Handler>, b: seq<Handler>, r: Removal)
    ensures Left(a + b, r) == Left(a, r) + Left(b, r) && |Left(a, r)| <= |a|
  {
    FilterConcat(a, b, (h: Handler) => !Concerns(r, h));
    FilterIsNoLonger(a, (h: Handler) => !Concerns(r, h));
  }

  /** A removal that names only the type takes all its handlers. */
  lemma OffTypeTakesAll(attached: Attached, t: string)
    requires forall h :: h in Of(attached, t) ==> h.origType == t
    ensures Of(WithRemoved(attached, t, Removal(false, t, None, multiset{}, None)), t) == []
  {
    var r, hs := Removal(false, t, None, multiset{}, None), Of(attached, t);
    forall i | 0 <= i < |hs|
      ensures Concerns(r, hs[i])
    {
      assert hs[i] in hs;
    }
    FilterNone(hs, (h: Handler) => !Concerns(r, h));
  }

  /** The selector "**" alone takes exactly the delegated handlers. */
  lemma OffDelegatesLeavesDirect(attached: Attached, t: string)
    requires forall h :: h in Of(attached, t) ==> h.origType == t
    ensures Of(WithRemoved(attached, t, Removal(false, t, None, multiset{}, Some("**"))), t) == Direct(Of(attached, t))
  {
    var r, hs := Removal(false, t, None, multiset{}, Some("**")), Of(attached, t);
    forall h | h in hs
      ensures !Concerns(r, h) == IsDirect(h)
    {
    }
    FilterSame(hs, (h: Handler) => !Concerns(r, h), IsDirect);
  }

  /** The removal of a handler by all that it was attached with. */
  function Own(h: Handler): Removal {
    Removal(false, h.origType, Some(h.guid), h.names, h.selector)
  }

  /** Attaching a handler and removing it leaves those that differ from it in something it was removed by. */
  lemma AddThenRemove(attached: Attached, t: string, h: Handler, other: Handler)
    ensures
      var after := AfterAll(attached, [Add(t, h), Remove(t, Own(h))]);
      && h !in Of(after, t)
      && (other in Of(after, t) <==>
            && other in Of(attached, t)
            && (|| other.origType != h.origType || other.guid != h.guid
                || (exists name :: h.names[name] > other.names[name])
                || (h.selector.Some? && other.selector != h.selector
                    && !(h.selector == Some("**") && other.selector.Some?))))
  {
    var ops, rest := [Add(t, h), Remove(t, Own(h))], [Remove(t, Own(h))];
    assert ops[1..] == rest && rest[1..] == [];
    var added := WithAdded(attached, t, h);
    assert AfterAll(attached, ops) == AfterAll(added, rest) == AfterAll(WithRemoved(added, t, Own(h)), []);
    RemoveLeaves(added, t, Own(h), h);
    RemoveLeaves(added, t, Own(h), other);
  }

  /** Of two click handlers, removing the first by its function leaves the second. */
  lemma OffHandlerLeavesOther(attached: Attached, f: Handler, g: Handler)
    requires Of(attached, "click") == [f] + [g] && f.origType == g.origType == "click" && f.guid != g.guid
    ensures Of(WithRemoved(attached, "click", Removal(false, "click", Some(f.guid), multiset{}, None)), "click") == [g]
  {
    var r := Removal(false, "click", Some(f.guid), multiset{}, None);
    RemoveKeepsOrder([f], [g], r);
    LeftOfOne(f, r);
    LeftOfOne(g, r);
  }

  lemma LeftOfOne(h: Handler, r: Removal)
    ensures Left([h], r) == if Concerns(r, h) then [] else [h]
  {
    FilterPushed([], h, (h: Handler) => !Concerns(r, h));
    assert [] + [h] == [h];
  }

  // ---------- dispatch ----------

  /**
   A plain event calls every handler, an exclusive one those without namespaces, and a namespaced
   one those with all its names.
   */
  ghost predicate Called(e: Event, h: Handler) {
    if e.names == multiset{} then e.exclusive ==> h.names == multiset{}
    else forall name :: e.names[name] <= h.names[name]
  }

  /** Without a stop, the calls for a node are the handlers called of its entry in the queue. */
  lemma {:induction false} GroupCallsExactly(e: Event, elem: Option<nat>, hs: seq<Handler>, c: Call)
    ensures c in CallsOf(e, elem, hs) <==> c.elem == elem && c.handler in hs && Called(e, c.handler)
  {
    if hs == [] {
    } else {
      var last := hs[|hs| - 1];
      GroupCallsExactly(e, elem, hs[..|hs| - 1], c);
      assert c.handler in hs <==> c.handler in hs[..|hs| - 1] || c.handler == last;
      assert (e.names <= last.names) <==> forall name :: e.names[name] <= last.names[name];
    }
  }

  /** No handler runs for the node: the click is not of the left button, or the node is disabled. */
  ghost predicate Ignored(page: Page, e: Event, cur: nat) {
    e.type_ == "click" && (e.button || cur in page.disabled)
  }

  /**
   A delegated handler is queued for a node on the path exactly if the event is not ignored there
   and its selector matches the node, or names an inherited property.
   */
  lemma {:induction false} QueuedIff(page: Page, e: Event, hs: seq<Handler>, n: nat, cur: nat, h: Handler)
    requires n <= |page.path|
    ensures
      (exists g :: g in Groups(page, e, hs, n) && g.0 == Some(cur) && h in g.1) <==>
        && cur in page.path[n..] && !Ignored(page, e, cur) && h in hs && h.selector.Some?
        && (h.selector.value in page.inherited || (h.selector.value, cur) in page.matching)
    decreases |page.path| - n
  {
    if n == |page.path| {
    } else {
      var node := page.path[n];
      QueuedIff(page, e, hs, n + 1, cur, h);
      FilterHas(hs, (h: Handler) => Listens(page, node, h), h);
      var group, rest := GroupAt(page, e, hs, node), Groups(page, e, hs, n + 1);
      assert page.path[n..] == [node] + page.path[n + 1..];
      assert group != [] ==> group[0] in group;
      forall g
        ensures g in Groups(page, e, hs, n) <==> g in group || g in rest
      {
      }
    }
  }

  /** The element's own handlers are queued last, and all of them. */
  lemma {:induction false} DirectComeLast(page: Page, e: Event, hs: seq<Handler>, n: nat)
    requires n <= |page.path|
    ensures
      var all := Groups(page, e, hs, n);
      && (forall i :: 0 <= i < |all| ==> all[i].0 == None ==> i == |all| - 1)
      && (Direct(hs) != [] ==> all != [] && all[|all| - 1] == (None, Direct(hs)))
      && (Direct(hs) == [] ==> forall i :: 0 <= i < |all| ==> all[i].0.Some?)
    decreases |page.path| - n
  {
    if n == |page.path| {
    } else {
      DirectComeLast(page, e, hs, n + 1);
    }
  }

  // ---------- stopping ----------

  /** The k-th call of an undisturbed event belongs to entry i of the queue. */
  ghost predicate InEntry(e: Event, groups: seq<(Option<nat>, seq<Handler>)>, k: nat, i: nat) {
    i < |groups| && |Events.Calls(e, groups[..i])| <= k < |Events.Calls(e, groups[..i + 1])|
  }

  lemma EntryEnds(e: Event, groups: seq<(Option<nat>, seq<Handler>)>, k: nat, i: nat)
    requires InEntry(e, groups, k, i)
    ensures GroupEnd(e, groups, k) == |Events.Calls(e, groups[..i + 1])|
  {
    OneMoreGroup(e, groups, i);
    GroupEndAt(e, groups, i, k);
  }

  /** If no handler stops the event, every call is made. */
  lemma UnstoppedCallsAll(e: Event, groups: seq<(Option<nat>, seq<Handler>)>, reaction: nat -> Reaction,
                          calls: seq<Call>)
    requires EndsRight(e, groups, reaction, calls) && forall k: nat :: reaction(k) == GoesOn
    ensures calls == Events.Calls(e, groups)
  {
    assert forall k: nat :: Bound(e, groups, reaction, k) == |Events.Calls(e, groups)|;
  }

  /** A handler that stops the event at once is the last one called. */
  lemma StopAtOnceIsLast(e: Event, groups: seq<(Option<nat>, seq<Handler>)>, reaction: nat -> Reaction,
                         calls: seq<Call>, k: nat)
    requires EndsRight(e, groups, reaction, calls) && k < |calls| && reaction(k) == StopsAtOnce
    ensures k == |calls| - 1
  {
    assert |calls| <= Bound(e, groups, reaction, k);
  }

  /**
   A handler that stops the event lets the others of its node be called, if none of these stops it
   at once, and no more.
   */
  lemma StopEndsWithNode(e: Event, groups: seq<(Option<nat>, seq<Handler>)>, reaction: nat -> Reaction,
                         calls: seq<Call>, k: nat, i: nat)
    requires EndsRight(e, groups, reaction, calls) && k < |calls| && reaction(k) == Stops && InEntry(e, groups, k, i)
    requires forall m: nat :: m < k ==> reaction(m) == GoesOn
    requires forall m: nat :: reaction(m) != StopsAtOnce
    ensures calls == Events.Calls(e, groups[..i + 1])
  {
    EntryEnds(e, groups, k, i);
    OneMoreGroup(e, groups, i);
    assert |calls| <= Bound(e, groups, reaction, k);
    if |calls| < |Events.Calls(e, groups[..i + 1])| {
      var m :| 0 <= m < |calls| && Bound(e, groups, reaction, m) == |calls|;
      assert m >= k;
      EntryEnds(e, groups, m, i);
    }
  }

  // ---------- order ----------

  /** Two handlers of an element itself are called in the order they were attached. */
  lemma CalledInAttachmentOrder(attached: Attached, f: Handler, g: Handler, e: Event)
    requires Of(attached, e.type_) == [] && f.selector == g.selector == None
    requires Called(e, f) && Called(e, g)
    ensures
      var after := AfterAll(attached, [Add(e.type_, f), Add(e.type_, g)]);
      Events.Calls(e, Groups(Page([], {}, {}, {}), e, Of(after, e.type_), 0)) == [Call(None, f), Call(None, g)]
  {
    var ops, rest := [Add(e.type_, f), Add(e.type_, g)], [Add(e.type_, g)];
    assert ops[1..] == rest && rest[1..] == [];
    var a := WithAdded(attached, e.type_, f);
    assert AfterAll(attached, ops) == AfterAll(a, rest) == AfterAll(WithAdded(a, e.type_, g), []);
    var hs := [f] + [g];
    assert [] + [f] == [f] && Of(WithAdded(a, e.type_, g), e.type_) == hs;
    HalvesOneMore([f], g);
    HalvesOneMore([], f);
    assert Direct(hs) == hs;
    CalledBoth(e, f, g);
    var group := [(None, hs)];
    assert group[1..] == [] && Events.Calls(e, group) == CallsOf(e, None, hs) + [];
  }

  lemma CalledBoth(e: Event, f: Handler, g: Handler)
    requires Called(e, f) && Called(e, g)
    ensures CallsOf(e, None, [f] + [g]) == [Call(None, f), Call(None, g)]
  {
    var hs := [f] + [g];
    CallsOfOneMore(e, None, hs, 0);
    CallsOfOneMore(e, None, hs, 1);
    assert hs[..2] == hs && hs[..0] == [] && hs[..1] == [f];
    assert Runs(e, f) && Runs(e, g);
  }
}
