/** The handlers of one element: `jQuery.event.add`, `remove` and `dispatch`. */
module Events {
  import opened Filters
  import opened Wrappers

  /** A handleObj; its selector is None when the source's is undefined or empty. */
  datatype Handler = Handler(origType: string, guid: nat, names: multiset<string>, selector: Option<string>)

  /** What a list of handlers holds: delegates in front, and the property that counts them. */
  datatype Listing = Listing(handlers: seq<Handler>, delegateCount: int)

  /** The arguments of a call of remove; `anyType` is its flag mappedTypes. */
  datatype Removal = Removal(
    anyType: bool, origType: string, guid: Option<nat>, names: multiset<string>, selector: Option<string>)

  /** A call on the element's events, for a type as the special events map it. */
  datatype Op = Add(type_: string, handler: Handler) | Remove(type_: string, removal: Removal)

  const EVERY_SELECTOR := "**"

  predicate Concerns(r: Removal, h: Handler) {
    && (r.anyType || r.origType == h.origType)
    && (r.guid.None? || r.guid.value == h.guid)
    && r.names <= h.names
    && (r.selector.None? || r.selector == h.selector || (r.selector.value == EVERY_SELECTOR && h.selector.Some?))
  }

  // ---------- the plain meaning: per type, the handlers in the order they were attached ----------

  type Attached = map<string, seq<Handler>>

  function Of(attached: Attached, t: string): seq<Handler> {
    if t in attached then attached[t] else []
  }

  /** The handlers a removal does not concern. */
  function Left(hs: seq<Handler>, r: Removal): seq<Handler> {
    Filter(hs, (h: Handler) => !Concerns(r, h))
  }

  function WithAdded(attached: Attached, t: string, h: Handler): Attached {
    attached[t := Of(attached, t) + [h]]
  }

  function WithRemoved(attached: Attached, t: string, r: Removal): Attached {
    var left := Left(Of(attached, t), r);
    if left == [] then attached - {t} else attached[t := left]
  }

  function After(attached: Attached, op: Op): Attached {
    match op
    case Add(t, h) => WithAdded(attached, t, h)
    case Remove(t, r) => WithRemoved(attached, t, r)
  }

  function AfterAll(attached: Attached, ops: seq<Op>): Attached
    decreases |ops|
  {
    if ops == [] then attached else AfterAll(After(attached, ops[0]), ops[1..])
  }

  // ---------- delegates in front ----------

  predicate IsDelegated(h: Handler) {
    h.selector.Some?
  }

  predicate IsDirect(h: Handler) {
    h.selector.None?
  }

  function Delegated(hs: seq<Handler>): seq<Handler> {
    Filter(hs, IsDelegated)
  }

  function Direct(hs: seq<Handler>): seq<Handler> {
    Filter(hs, IsDirect)
  }

  /** The list holds the handlers attached, each half in attachment order. */
  ghost predicate Arranged(list: Listing, hs: seq<Handler>) {
    list.handlers == Delegated(hs) + Direct(hs) && list.delegateCount == |Delegated(hs)|
  }

  lemma HalvesOneMore(hs: seq<Handler>, h: Handler)
    ensures Delegated(hs + [h]) == Delegated(hs) + if h.selector.Some? then [h] else []
    ensures Direct(hs + [h]) == Direct(hs) + if h.selector.None? then [h] else []
  {
    FilterPushed(hs, h, IsDelegated);
    FilterPushed(hs, h, IsDirect);
  }

  lemma HalvesAreUniform(hs: seq<Handler>)
    ensures forall h :: h in Delegated(hs) ==> h.selector.Some?
    ensures forall h :: h in Direct(hs) ==> h.selector.None?
  {
    forall h
      ensures h in Delegated(hs) ==> h.selector.Some?
      ensures h in Direct(hs) ==> h.selector.None?
    {
      FilterHas(hs, IsDelegated, h);
      FilterHas(hs, IsDirect, h);
    }
  }

  /** The halves of an arranged list. */
  lemma HalvesOfArranged(list: Listing, hs: seq<Handler>)
    requires Arranged(list, hs)
    ensures Delegated(list.handlers) == Delegated(hs) == list.handlers[..list.delegateCount]
    ensures Direct(list.handlers) == Direct(hs) == list.handlers[list.delegateCount..]
  {
    HalvesAreUniform(hs);
    var a, b := Delegated(hs), Direct(hs);
    FilterConcat(a, b, IsDelegated);
    FilterConcat(a, b, IsDirect);
    forall i | 0 <= i < |a| ensures a[i].selector.Some? { assert a[i] in a; }
    forall i | 0 <= i < |b| ensures b[i].selector.None? { assert b[i] in b; }
    FilterAll(a, IsDelegated);
    FilterNone(b, IsDelegated);
    FilterNone(a, IsDirect);
    FilterAll(b, IsDirect);
  }

  lemma AddArranges(list: Listing, hs: seq<Handler>, h: Handler)
    requires Arranged(list, hs)
    ensures
      var n := list.delegateCount;
      if h.selector.Some? then Arranged(Listing(list.handlers[..n] + [h] + list.handlers[n..], n + 1), hs + [h])
      else Arranged(Listing(list.handlers + [h], n), hs + [h])
  {
    HalvesOneMore(hs, h);
  }

  lemma NothingLeft(hs: seq<Handler>)
    ensures Delegated(hs) + Direct(hs) == [] <==> hs == []
  {
    if hs != [] {
      FilterHas(hs, IsDelegated, hs[0]);
      FilterHas(hs, IsDirect, hs[0]);
    }
  }

  /** Removal and arrangement do not disturb each other. */
  lemma RemoveArranges(list: Listing, hs: seq<Handler>, r: Removal)
    requires Arranged(list, hs)
    ensures Arranged(Listing(Left(list.handlers, r), |Delegated(Left(list.handlers, r))|), Left(hs, r))
  {
    var left := (h: Handler) => !Concerns(r, h);
    FilterConcat(Delegated(hs), Direct(hs), left);
    FilterCommutes(hs, IsDelegated, left);
    FilterCommutes(hs, IsDirect, left);
    HalvesOfArranged(Listing(Left(list.handlers, r), |Delegated(Left(hs, r))|), Left(hs, r));
  }

  /** The first delegateCount handlers are exactly those with a selector. */
  lemma DelegatesAreInFront(list: Listing, hs: seq<Handler>, i: nat)
    requires Arranged(list, hs) && i < |list.handlers|
    ensures list.handlers[i].selector.Some? <==> i < list.delegateCount
  {
    HalvesAreUniform(hs);
    var n := |Delegated(hs)|;
    if i < n {
      assert list.handlers[i] == Delegated(hs)[i];
    } else {
      assert list.handlers[i] == Direct(hs)[i - n];
    }
  }

  // ---------- dispatch ----------

  /** An event: its type, whether a non-left button was pressed, and how it was triggered. */
  datatype Event = Event(type_: string, button: bool, exclusive: bool, names: multiset<string>)

  /** What is known of the page: the nodes from target up to below this, and how they match. */
  datatype Page = Page(path: seq<nat>, disabled: set<nat>, matching: set<(string, nat)>, inherited: set<string>)

  /** A handler that runs, and the node it runs for; None is the element itself. */
  datatype Call = Call(elem: Option<nat>, handler: Handler)

  /** What a handler does to the event. */
  datatype Reaction = GoesOn | Stops | StopsAtOnce

  predicate Runs(e: Event, h: Handler) {
    || (!e.exclusive && e.names == multiset{})
    || (e.names == multiset{} && h.names == multiset{})
    || (e.names != multiset{} && e.names <= h.names)
  }

  /**
   The answer kept in the table of one node.  A selector that names a property which every
   object inherits is never looked up.
   */
  predicate Hits(page: Page, sel: string, cur: nat) {
    sel in page.inherited || (sel, cur) in page.matching
  }

  predicate Listens(page: Page, cur: nat, h: Handler) {
    h.selector.Some? && Hits(page, h.selector.value, cur)
  }

  function Hitting(page: Page, hs: seq<Handler>, cur: nat): seq<Handler> {
    Filter(hs, (h: Handler) => Listens(page, cur, h))
  }

  /** No delegated handler runs for the node. */
  predicate Skips(page: Page, e: Event, cur: nat) {
    (e.button && e.type_ == "click") || (cur in page.disabled && e.type_ == "click")
  }

  /** The handlers to run for each node, innermost first, and then the element's own. */
  function Groups(page: Page, e: Event, hs: seq<Handler>, n: nat): seq<(Option<nat>, seq<Handler>)>
    requires n <= |page.path|
    decreases |page.path| - n
  {
    if n == |page.path| then (if Direct(hs) == [] then [] else [(None, Direct(hs))])
    else
      GroupAt(page, e, hs, page.path[n]) + Groups(page, e, hs, n + 1)
  }

  /** What the queue has for one node: nothing, or one entry. */
  function GroupAt(page: Page, e: Event, hs: seq<Handler>, cur: nat): seq<(Option<nat>, seq<Handler>)> {
    var matches := Hitting(page, hs, cur);
    if Skips(page, e, cur) || matches == [] then [] else [(Some(cur), matches)]
  }

  /** The calls of the groups from the n-th on, when nothing stops the event. */
  function Calls(e: Event, groups: seq<(Option<nat>, seq<Handler>)>): seq<Call> {
    if groups == [] then [] else CallsOf(e, groups[0].0, groups[0].1) + Calls(e, groups[1..])
  }

  function CallsOf(e: Event, elem: Option<nat>, hs: seq<Handler>): seq<Call> {
    if hs == [] then []
    else
      var last := hs[|hs| - 1];
      CallsOf(e, elem, hs[..|hs| - 1]) + if Runs(e, last) then [Call(elem, last)] else []
  }

  lemma {:induction false} CallsConcat(e: Event, a: seq<(Option<nat>, seq<Handler>)>,
                                       b: seq<(Option<nat>, seq<Handler>)>)
    ensures Calls(e, a + b) == Calls(e, a) + Calls(e, b)
  {
    if a == [] {
      assert a + b == b;
    } else {
      assert (a + b)[0] == a[0] && (a + b)[1..] == a[1..] + b;
      CallsConcat(e, a[1..], b);
    }
  }

  /** Where the calls of the group end that the k-th call belongs to. */
  function GroupEnd(e: Event, groups: seq<(Option<nat>, seq<Handler>)>, k: nat): nat {
    if groups == [] then 0
    else
      var n := |CallsOf(e, groups[0].0, groups[0].1)|;
      if k < n then n else n + GroupEnd(e, groups[1..], k - n)
  }

  /** How many calls there can be after the k-th one has reacted. */
  function Bound(e: Event, groups: seq<(Option<nat>, seq<Handler>)>, reaction: nat -> Reaction, k: nat): nat {
    match reaction(k)
    case GoesOn => |Calls(e, groups)|
    case Stops => GroupEnd(e, groups, k)
    case StopsAtOnce => k + 1
  }

  /** The calls run in order; a stop lets its group finish, a stop at once does not. */
  ghost predicate EndsRight(e: Event, groups: seq<(Option<nat>, seq<Handler>)>, reaction: nat -> Reaction,
                            calls: seq<Call>) {
    && calls <= Calls(e, groups)
    && (forall k :: 0 <= k < |calls| ==> |calls| <= Bound(e, groups, reaction, k))
    && (|calls| == |Calls(e, groups)| || exists k :: 0 <= k < |calls| && Bound(e, groups, reaction, k) == |calls|)
  }

  /** The handlers attached when the event came, and their reactions, decide which calls are made. */
  lemma SnapshotDecides(e: Event, groups: seq<(Option<nat>, seq<Handler>)>, reaction: nat -> Reaction, a: seq<Call>,
                        b: seq<Call>)
    requires EndsRight(e, groups, reaction, a) && EndsRight(e, groups, reaction, b)
    ensures a == b
  {
    assert |a| <= |b| by { NotLonger(e, groups, reaction, a, b); }
    NotLonger(e, groups, reaction, b, a);
    var all := Calls(e, groups);
    assert a == all[..|a|] == b;
  }

  lemma NotLonger(e: Event, groups: seq<(Option<nat>, seq<Handler>)>, reaction: nat -> Reaction, a: seq<Call>,
                  b: seq<Call>)
    requires EndsRight(e, groups, reaction, a) && EndsRight(e, groups, reaction, b)
    ensures |a| <= |b|
  {
    if |b| < |Calls(e, groups)| {
      var k :| 0 <= k < |b| && Bound(e, groups, reaction, k) == |b|;
      assert k < |a| ==> |a| <= Bound(e, groups, reaction, k);
    }
  }

  lemma {:induction false} GroupEndAt(e: Event, groups: seq<(Option<nat>, seq<Handler>)>, i: nat, k: nat)
    requires i < |groups|
    requires |Calls(e, groups[..i])| <= k < |Calls(e, groups[..i])| + |CallsOf(e, groups[i].0, groups[i].1)|
    ensures GroupEnd(e, groups, k) == |Calls(e, groups[..i])| + |CallsOf(e, groups[i].0, groups[i].1)|
  {
    if i == 0 {
    } else {
      assert groups[..i][0] == groups[0] && groups[..i][1..] == groups[1..][..i - 1];
      GroupEndAt(e, groups[1..], i - 1, k - |CallsOf(e, groups[0].0, groups[0].1)|);
    }
  }

  lemma OneMoreGroup(e: Event, groups: seq<(Option<nat>, seq<Handler>)>, i: nat)
    requires i < |groups|
    ensures Calls(e, groups[..i + 1]) == Calls(e, groups[..i]) + CallsOf(e, groups[i].0, groups[i].1)
    ensures Calls(e, groups[..i + 1]) <= Calls(e, groups)
  {
    var one := [groups[i]];
    assert one[1..] == [] && Calls(e, one) == CallsOf(e, groups[i].0, groups[i].1);
    assert groups[..i + 1] == groups[..i] + one;
    CallsConcat(e, groups[..i], one);
    assert groups == groups[..i + 1] + groups[i + 1..];
    CallsConcat(e, groups[..i + 1], groups[i + 1..]);
  }

  lemma CallsOfOneMore(e: Event, elem: Option<nat>, hs: seq<Handler>, j: nat)
    requires j < |hs|
    ensures CallsOf(e, elem, hs[..j + 1]) ==
      CallsOf(e, elem, hs[..j]) + if Runs(e, hs[j]) then [Call(elem, hs[j])] else []
  {
    assert hs[..j + 1][..j] == hs[..j];
  }

  lemma {:induction false} CallsOfPrefix(e: Event, elem: Option<nat>, hs: seq<Handler>, j: nat, n: nat)
    requires j <= n <= |hs|
    ensures CallsOf(e, elem, hs[..j]) <= CallsOf(e, elem, hs[..n])
    decreases n - j
  {
    if j == n {
    } else {
      CallsOfPrefix(e, elem, hs, j, n - 1);
      CallsOfOneMore(e, elem, hs, n - 1);
    }
  }

  /** The event's flags after the calls from..n. */
  ghost predicate Reacted(reaction: nat -> Reaction, from: nat, n: nat, stopped: bool, immediate: bool) {
    && from <= n
    && (forall k :: from <= k < n - 1 ==> reaction(k) != StopsAtOnce)
    && (immediate <==> n > from && reaction(n - 1) == StopsAtOnce)
    && (stopped <==> exists k :: from <= k < n && reaction(k) != GoesOn)
  }

  lemma ReactedNext(reaction: nat -> Reaction, from: nat, n: nat, stopped: bool)
    requires Reacted(reaction, from, n, stopped, false)
    ensures Reacted(reaction, from, n + 1, stopped || reaction(n) != GoesOn, reaction(n) == StopsAtOnce)
  {
  }

  /** What one group has done: `part` of its calls, cut short only by a stop at once. */
  ghost predicate GroupRan(
      group: seq<Call>, reaction: nat -> Reaction, before: nat, part: seq<Call>, stopped: bool, immediate: bool) {
    part <= group && (part == group || immediate) && Reacted(reaction, before, before + |part|, stopped, immediate)
  }

  /** The first j handlers of a group have had their turn. */
  ghost predicate GroupSoFar(e: Event, elem: Option<nat>, hs: seq<Handler>, j: nat, reaction: nat -> Reaction, n: nat,
                             calls: seq<Call>, stopped: bool, immediate: bool)
    requires j <= |hs|
  {
    calls == CallsOf(e, elem, hs[..j]) && Reacted(reaction, n, n + |calls|, stopped, immediate)
  }

  /** The next handler of a group is called, and reacts, or is passed over. */
  lemma GroupTurn(e: Event, elem: Option<nat>, hs: seq<Handler>, j: nat, reaction: nat -> Reaction, n: nat,
                  calls: seq<Call>, stopped: bool)
    requires j < |hs| && GroupSoFar(e, elem, hs, j, reaction, n, calls, stopped, false)
    ensures
      var r := reaction(n + |calls|);
      if Runs(e, hs[j]) then
        GroupSoFar(e, elem, hs, j + 1, reaction, n, calls + [Call(elem, hs[j])],
                   stopped || r != GoesOn, r == StopsAtOnce)
      else GroupSoFar(e, elem, hs, j + 1, reaction, n, calls, stopped, false)
  {
    CallsOfOneMore(e, elem, hs, j);
    if Runs(e, hs[j]) {
      ReactedNext(reaction, n, n + |calls|, stopped);
    }
  }

  lemma GroupEnds(e: Event, elem: Option<nat>, hs: seq<Handler>, j: nat, reaction: nat -> Reaction, n: nat,
                  calls: seq<Call>, stopped: bool, immediate: bool)
    requires j <= |hs| && GroupSoFar(e, elem, hs, j, reaction, n, calls, stopped, immediate) && (j == |hs| || immediate)
    ensures GroupRan(CallsOf(e, elem, hs), reaction, n, calls, stopped, immediate)
  {
    assert hs[..|hs|] == hs;
    CallsOfPrefix(e, elem, hs, j, |hs|);
  }

  lemma StopEndsRight(
      e: Event, groups: seq<(Option<nat>, seq<Handler>)>, reaction: nat -> Reaction, i: nat, part: seq<Call>,
      immediate: bool)
    requires i < |groups|
    requires
      var before := Calls(e, groups[..i]);
      && (forall k :: 0 <= k < |before| ==> reaction(k) == GoesOn)
      && GroupRan(CallsOf(e, groups[i].0, groups[i].1), reaction, |before|, part, true, immediate)
    ensures EndsRight(e, groups, reaction, Calls(e, groups[..i]) + part)
  {
    var before, group := Calls(e, groups[..i]), CallsOf(e, groups[i].0, groups[i].1);
    var calls := before + part;
    OneMoreGroup(e, groups, i);
    forall k | 0 <= k < |calls|
      ensures |calls| <= Bound(e, groups, reaction, k)
    {
      if k >= |before| {
        GroupEndAt(e, groups, i, k);
      }
    }
    var k :| |before| <= k < |before| + |part| && reaction(k) != GoesOn;
    GroupEndAt(e, groups, i, k);
    if immediate {
      assert Bound(e, groups, reaction, |calls| - 1) == |calls|;
    } else {
      assert Bound(e, groups, reaction, k) == |calls|;
    }
  }

  /** The first i groups have run, or one of their handlers has stopped the event. */
  ghost predicate RunSoFar(e: Event, groups: seq<(Option<nat>, seq<Handler>)>, reaction: nat -> Reaction, i: nat,
                           calls: seq<Call>, stopped: bool)
    requires i <= |groups|
  {
    if stopped then EndsRight(e, groups, reaction, calls)
    else calls == Calls(e, groups[..i]) && forall k :: 0 <= k < |calls| ==> reaction(k) == GoesOn
  }

  lemma RunGoesOn(e: Event, groups: seq<(Option<nat>, seq<Handler>)>, reaction: nat -> Reaction, i: nat,
                  calls: seq<Call>, part: seq<Call>, stopped: bool, immediate: bool)
    requires i < |groups| && RunSoFar(e, groups, reaction, i, calls, false)
    requires GroupRan(CallsOf(e, groups[i].0, groups[i].1), reaction, |calls|, part, stopped, immediate)
    ensures RunSoFar(e, groups, reaction, i + 1, calls + part, stopped)
  {
    if stopped {
      StopEndsRight(e, groups, reaction, i, part, immediate);
    } else {
      OneMoreGroup(e, groups, i);
    }
  }

  lemma RunEnds(e: Event, groups: seq<(Option<nat>, seq<Handler>)>, reaction: nat -> Reaction, calls: seq<Call>,
                stopped: bool)
    requires RunSoFar(e, groups, reaction, |groups|, calls, stopped)
    ensures EndsRight(e, groups, reaction, calls)
  {
    assert groups[..|groups|] == groups;
  }

  // ---------- what is in the queue ----------

  /** Looking at the delegates only is enough. */
  lemma HittingOfDelegated(page: Page, hs: seq<Handler>, cur: nat)
    ensures Hitting(page, Delegated(hs), cur) == Hitting(page, hs, cur)
  {
    FilterNarrows(hs, IsDelegated, (h: Handler) => Listens(page, cur, h));
  }

  lemma {:induction false} NoDelegatesNoGroups(page: Page, e: Event, hs: seq<Handler>, n: nat)
    requires n <= |page.path| && (Delegated(hs) == [] || (e.button && e.type_ == "click"))
    ensures Groups(page, e, hs, n) == if Direct(hs) == [] then [] else [(None, Direct(hs))]
    decreases |page.path| - n
  {
    if n == |page.path| {
    } else {
      NoDelegatesNoGroups(page, e, hs, n + 1);
      HittingOfDelegated(page, hs, page.path[n]);
    }
  }

  // ---------- selectors that name an inherited property ----------

  /** The page as it would be if no selector named an inherited property. */
  function Plain(page: Page): Page {
    page.(inherited := {})
  }

  /** A handler attached has a selector that is never looked up, and that does not match node i. */
  ghost predicate Misread(page: Page, e: Event, hs: seq<Handler>, i: nat)
    requires i < |page.path|
  {
    !Skips(page, e, page.path[i]) && exists h :: h in hs && MisreadAt(page, page.path[i], h)
  }

  ghost predicate MisreadAt(page: Page, cur: nat, h: Handler) {
    h.selector.Some? && h.selector.value in page.inherited && (h.selector.value, cur) !in page.matching
  }

  /** The number of handlers in a queue. */
  function Size(groups: seq<(Option<nat>, seq<Handler>)>): nat {
    if groups == [] then 0 else |groups[0].1| + Size(groups[1..])
  }

  lemma HittingGrows(page: Page, hs: seq<Handler>, cur: nat)
    ensures |Hitting(Plain(page), hs, cur)| <= |Hitting(page, hs, cur)|
    ensures (exists h :: h in hs && MisreadAt(page, cur, h)) ==>
      |Hitting(Plain(page), hs, cur)| < |Hitting(page, hs, cur)|
    ensures !(exists h :: h in hs && MisreadAt(page, cur, h)) ==>
      Hitting(Plain(page), hs, cur) == Hitting(page, hs, cur)
  {
    var plain, full := (h: Handler) => Listens(Plain(page), cur, h), (h: Handler) => Listens(page, cur, h);
    FilterWider(hs, plain, full);
    if h :| h in hs && MisreadAt(page, cur, h) {
      FilterStrictlyWider(hs, plain, full, h);
    } else {
      forall h | h in hs
        ensures plain(h) == full(h)
      {
        assert !MisreadAt(page, cur, h);
      }
      FilterSame(hs, plain, full);
    }
  }

  lemma {:induction false} SizeConcat(a: seq<(Option<nat>, seq<Handler>)>, b: seq<(Option<nat>, seq<Handler>)>)
    ensures Size(a + b) == Size(a) + Size(b)
  {
    if a == [] {
      assert a + b == b;
    } else {
      assert (a + b)[0] == a[0] && (a + b)[1..] == a[1..] + b;
      SizeConcat(a[1..], b);
    }
  }

  lemma GroupGrows(page: Page, e: Event, hs: seq<Handler>, i: nat)
    requires i < |page.path|
    ensures Grew(GroupAt(Plain(page), e, hs, page.path[i]), GroupAt(page, e, hs, page.path[i]), Misread(page, e, hs, i))
  {
    var cur := page.path[i];
    HittingGrows(page, hs, cur);
    if Misread(page, e, hs, i) {
      var one := [(Some(cur), Hitting(page, hs, cur))];
      assert one[1..] == [] && Size(one) == |Hitting(page, hs, cur)|;
      var other := [(Some(cur), Hitting(Plain(page), hs, cur))];
      assert other[1..] == [] && Size(other) == |Hitting(Plain(page), hs, cur)|;
    }
  }

  ghost predicate MisreadFrom(page: Page, e: Event, hs: seq<Handler>, n: nat) {
    exists i :: n <= i < |page.path| && Misread(page, e, hs, i)
  }

  lemma MisreadNext(page: Page, e: Event, hs: seq<Handler>, n: nat)
    requires n < |page.path|
    ensures MisreadFrom(page, e, hs, n) <==> Misread(page, e, hs, n) || MisreadFrom(page, e, hs, n + 1)
  {
  }

  /** With a misread the queue has more handlers, otherwise it is the same. */
  ghost predicate Grew(plain: seq<(Option<nat>, seq<Handler>)>, full: seq<(Option<nat>, seq<Handler>)>, misread: bool) {
    if misread then Size(plain) < Size(full) else plain == full
  }

  lemma GrewBoth(a0: seq<(Option<nat>, seq<Handler>)>, a1: seq<(Option<nat>, seq<Handler>)>, here: bool,
                 b0: seq<(Option<nat>, seq<Handler>)>, b1: seq<(Option<nat>, seq<Handler>)>, later: bool)
    requires Grew(a0, a1, here) && Grew(b0, b1, later)
    ensures Grew(a0 + b0, a1 + b1, here || later)
  {
    SizeConcat(a0, b0);
    SizeConcat(a1, b1);
  }

  lemma {:induction false} QueueGrows(page: Page, e: Event, hs: seq<Handler>, n: nat)
    requires n <= |page.path|
    ensures Grew(Groups(Plain(page), e, hs, n), Groups(page, e, hs, n), MisreadFrom(page, e, hs, n))
    decreases |page.path| - n
  {
    if n == |page.path| {
    } else {
      QueueGrows(page, e, hs, n + 1);
      GroupGrows(page, e, hs, n);
      MisreadNext(page, e, hs, n);
      GrewBoth(GroupAt(Plain(page), e, hs, page.path[n]), GroupAt(page, e, hs, page.path[n]), Misread(page, e, hs, n),
               Groups(Plain(page), e, hs, n + 1), Groups(page, e, hs, n + 1), MisreadFrom(page, e, hs, n + 1));
    }
  }

  /**
   The queue is the one that looking every selector up would give, except if a handler's selector
   names an inherited property and fails to match a node that is not skipped.
   */
  lemma QueueIsPlainIff(page: Page, e: Event, hs: seq<Handler>)
    ensures Groups(page, e, hs, 0) == Groups(Plain(page), e, hs, 0) <==> !MisreadFrom(page, e, hs, 0)
  {
    QueueGrows(page, e, hs, 0);
  }

  /** A handler delegated to "constructor" elements is queued for a node of any other kind. */
  lemma ConstructorIsMisread(e: Event, node: nat, h: Handler)
    requires h.selector == Some("constructor") && !(e.button && e.type_ == "click")
    ensures
      var page := Page([node], {}, {}, {"constructor"});
      && Groups(page, e, [h], 0) == [(Some(node), [h])]
      && Groups(Plain(page), e, [h], 0) == []
  {
    var page := Page([node], {}, {}, {"constructor"});
    assert [] + [h] == [h];
    FilterPushed([], h, (h: Handler) => Listens(page, node, h));
    FilterPushed([], h, (h: Handler) => Listens(Plain(page), node, h));
    FilterPushed([], h, IsDirect);
    assert Groups(page, e, [h], 1) == [] && Groups(Plain(page), e, [h], 1) == [];
  }

  lemma QueueNext(page: Page, e: Event, hs: seq<Handler>, i: nat, queue: seq<(Option<nat>, seq<Handler>)>)
    requires i < |page.path|
    ensures
      var matches, rest := Hitting(page, hs, page.path[i]), Groups(page, e, hs, i + 1);
      if Skips(page, e, page.path[i]) || matches == [] then Groups(page, e, hs, i) == rest
      else queue + Groups(page, e, hs, i) == (queue + [(Some(page.path[i]), matches)]) + rest
  {
    var group, rest := GroupAt(page, e, hs, page.path[i]), Groups(page, e, hs, i + 1);
    assert Groups(page, e, hs, i) == group + rest;
    if group == [] {
      assert group + rest == rest;
    } else {
      Regroup(queue, group, rest);
    }
  }

  lemma Regroup<T>(a: seq<T>, b: seq<T>, c: seq<T>)
    ensures (a + b) + c == a + (b + c)
  {
  }

  function AllEdits(attached: Attached, edits: nat -> seq<Op>, n: nat): Attached {
    if n == 0 then attached else AfterAll(AllEdits(attached, edits, n - 1), edits(n - 1))
  }

  // ---------- the loop of remove ----------

  /** The first n of the handlers given have been looked at; j of them are left. */
  ghost predicate Spliced(given: seq<Handler>, r: Removal, n: nat, j: nat, list: Listing) {
    && n <= |given| && j == |Left(given[..n], r)|
    && list.handlers == Left(given[..n], r) + given[n..]
    && list.delegateCount == |Delegated(list.handlers)|
  }

  lemma SpliceStep(given: seq<Handler>, r: Removal, n: nat, j: nat, list: Listing)
    requires Spliced(given, r, n, j, list) && j < |list.handlers|
    ensures n < |given| && list.handlers[j] == given[n]
    ensures
      var h := list.handlers[j];
      if Concerns(r, h) then
        Spliced(given, r, n + 1, j, Cut(list, j))
      else Spliced(given, r, n + 1, j + 1, list)
  {
    FilterOneMore(given, n, (h: Handler) => !Concerns(r, h));
    FilterInPlace(given, n, (h: Handler) => !Concerns(r, h));
    FilterCutOut(list.handlers, j, IsDelegated);
  }

  /** The list, and the index in it, when the loop has looked at n of the handlers given. */
  function Looked(given: Listing, r: Removal, n: nat): (at: (Listing, nat))
    requires n <= |given.handlers|
    ensures |at.0.handlers| - at.1 == |given.handlers| - n
  {
    if n == 0 then (given, 0)
    else
      var (list, j) := Looked(given, r, n - 1);
      if Concerns(r, list.handlers[j]) then (Cut(list, j), j) else (list, j + 1)
  }

  /** The list after a splice that takes handler j out. */
  function Cut(list: Listing, j: nat): Listing
    requires j < |list.handlers|
  {
    Listing(list.handlers[..j] + list.handlers[j + 1..],
            list.delegateCount - if list.handlers[j].selector.Some? then 1 else 0)
  }

  lemma NothingSpliced(given: Listing, hs: seq<Handler>, r: Removal)
    requires Arranged(given, hs)
    ensures Spliced(given.handlers, r, 0, 0, given)
  {
    HalvesOfArranged(given, hs);
    assert given.handlers[..0] == [] && given.handlers[0..] == given.handlers;
  }

  lemma {:induction false} LookedIsSpliced(given: Listing, hs: seq<Handler>, r: Removal, n: nat)
    requires Arranged(given, hs) && n <= |given.handlers|
    ensures Spliced(given.handlers, r, n, Looked(given, r, n).1, Looked(given, r, n).0)
  {
    if n == 0 {
      NothingSpliced(given, hs, r);
    } else {
      LookedIsSpliced(given, hs, r, n - 1);
      var (list, j) := Looked(given, r, n - 1);
      SpliceStep(given.handlers, r, n - 1, j, list);
    }
  }

  /** When the loop has looked at all handlers, the array holds those that are left, arranged. */
  lemma LookedAtAll(given: Listing, hs: seq<Handler>, r: Removal)
    requires Arranged(given, hs)
    ensures Arranged(Looked(given, r, |given.handlers|).0, Left(hs, r))
  {
    var n := |given.handlers|;
    LookedIsSpliced(given, hs, r, n);
    assert given.handlers[n..] == [] && given.handlers[..n] == given.handlers;
    RemoveArranges(given, hs, r);
  }

  lemma AfterAllNext(attached: Attached, ops: seq<Op>, i: nat)
    requires i < |ops|
    ensures AfterAll(attached, ops[i..]) == AfterAll(After(attached, ops[i]), ops[i + 1..])
  {
    assert ops[i..][1..] == ops[i + 1..];
  }

  predicate NoneIsEmpty(attached: Attached) {
    forall t :: t in attached ==> attached[t] != []
  }

  lemma AddsTo(attached: Attached, now: Attached, t: string, h: Handler)
    requires NoneIsEmpty(attached) && now == if t in attached then attached else attached[t := []]
    ensures t in now && now[t := now[t] + [h]] == WithAdded(attached, t, h)
    ensures NoneIsEmpty(WithAdded(attached, t, h))
  {
  }

  lemma RemovesFrom(attached: Attached, t: string, r: Removal)
    ensures t !in attached ==> attached == WithRemoved(attached, t, r)
    ensures t in attached ==>
      var now := attached[t := Left(attached[t], r)];
      WithRemoved(attached, t, r) == if now[t] == [] then now - {t} else now
  {
    assert t !in attached ==> attached - {t} == attached;
    assert t in attached ==> attached[t := Left(attached[t], r)] - {t} == attached - {t};
  }

  // ---------- the code ----------

  /** The array of handlers of one type, with its extra property; `held` has them in attachment order. */
  class HandlerList {
    ghost const type_: string
    var handlers: seq<Handler>
    var delegateCount: int
    ghost var held: seq<Handler>

    ghost predicate Valid()
      reads this
    {
      Arranged(View(), held)
    }

    ghost function View(): Listing
      reads this
    {
      Listing(handlers, delegateCount)
    }

    constructor (ghost type_: string)
      ensures Valid() && held == [] && this.type_ == type_
    {
      this.type_ := type_;
      handlers, delegateCount, held := [], 0, [];
    }

    /** The array's splice at the end of the delegates, or its push. */
    method Insert(handler: Handler)
      requires Valid()
      modifies this
      ensures Valid() && held == old(held) + [handler]
    {
      AddArranges(View(), held, handler);
      if handler.selector.Some? {
        handlers := handlers[..delegateCount] + [handler] + handlers[delegateCount..];
        delegateCount := delegateCount + 1;
      } else {
        handlers := handlers + [handler];
      }
      held := held + [handler];
    }

    /** Takes one handler out of the array, in place. */
    method CutOut(j: nat)
      requires j < |handlers|
      modifies this`handlers, this`delegateCount
      ensures View() == Cut(old(View()), j)
    {
      var handler := handlers[j];
      handlers := handlers[..j] + handlers[j + 1..];
      if handler.selector.Some? {
        delegateCount := delegateCount - 1;
      }
    }

    /** The loop that removes the handlers concerned, stepping back after each splice. */
    method Splice(removal: Removal)
      requires Valid()
      modifies this
      ensures Valid() && held == Left(old(held), removal)
    {
      var j := 0;
      ghost var given, hs, n := View(), held, 0;
      while j < |handlers|
        invariant n <= |given.handlers| && held == hs && (View(), j) == Looked(given, removal, n)
        decreases |handlers| - j
      {
        if Concerns(removal, handlers[j]) {
          CutOut(j);
          j := j - 1;
        }
        j := j + 1;
        n := n + 1;
      }
      LookedAtAll(given, hs, removal);
      held := Left(hs, removal);
    }

    /** The delegated handlers whose selector matches a node; each selector is looked up once. */
    method MatchDelegates(page: Page, cur: nat) returns (matches: seq<Handler>)
      requires Valid()
      ensures matches == Hitting(page, held, cur)
    {
      var selMatch: map<string, bool> := map[];
      matches := [];
      var i := 0;
      ghost var front := Delegated(held);
      assert front == handlers[..delegateCount];
      HalvesAreUniform(held);
      while i < delegateCount
        invariant 0 <= i <= delegateCount && matches == Hitting(page, front[..i], cur)
        invariant forall sel :: sel in selMatch ==>
          selMatch[sel] == ((sel, cur) in page.matching) && sel !in page.inherited
      {
        var handler := handlers[i];
        assert handler == front[i] && handler in front;
        FilterOneMore(front, i, (h: Handler) => Listens(page, cur, h));
        var sel := handler.selector.value;
        if sel !in selMatch && sel !in page.inherited {
          selMatch := selMatch[sel := (sel, cur) in page.matching];
        }
        var found := if sel in selMatch then selMatch[sel] else true;
        if found {
          matches := matches + [handler];
        }
        i := i + 1;
      }
      assert front[..i] == front;
      HittingOfDelegated(page, held, cur);
    }

    /** The queue that dispatch builds before it runs anything. */
    method BuildQueue(page: Page, e: Event) returns (queue: seq<(Option<nat>, seq<Handler>)>)
      requires Valid()
      ensures queue == Groups(page, e, held, 0)
    {
      queue := [];
      ghost var hs := held;
      var i := 0;
      if delegateCount != 0 && !(e.button && e.type_ == "click") {
        while i < |page.path|
          invariant 0 <= i <= |page.path| && queue + Groups(page, e, hs, i) == Groups(page, e, hs, 0)
        {
          var cur := page.path[i];
          QueueNext(page, e, hs, i, queue);
          if cur !in page.disabled || e.type_ != "click" {
            var matches := MatchDelegates(page, cur);
            if |matches| > 0 {
              queue := queue + [(Some(cur), matches)];
            }
          }
          i := i + 1;
        }
      } else {
        NoDelegatesNoGroups(page, e, hs, 0);
        NoDelegatesNoGroups(page, e, hs, |page.path|);
      }
      HalvesOfArranged(View(), hs);
      if |handlers| > delegateCount {
        queue := queue + [(None, handlers[delegateCount..])];
      }
    }
  }

  class ElementEvents {
    var events: map<string, HandlerList>
    ghost var attached: Attached
    ghost var arrays: set<HandlerList>

    /** Each type has an array of its own, and that arranges the handlers attached. */
    ghost predicate Holds()
      reads this, arrays
    {
      events.Keys == attached.Keys && forall t :: t in events ==> HoldsAt(t)
    }

    ghost predicate HoldsAt(t: string)
      requires t in events && t in attached
      reads this, arrays
    {
      var list := events[t];
      list in arrays && list.type_ == t && list.Valid() && list.held == attached[t]
    }

    /** Between calls, no array is empty, except for that of one type while it is edited. */
    ghost predicate NoneEmpty(but: string)
      reads this
    {
      forall t :: t in attached && t != but ==> attached[t] != []
    }

    ghost predicate Valid()
      reads this, arrays
    {
      Holds() && NoneIsEmpty(attached)
    }

    constructor ()
      ensures Valid() && attached == map[] && arrays == {}
    {
      events, attached, arrays := map[], map[], {};
    }

    /** The edits of the first k handlers called have been made. */
    ghost predicate Edited(start: Attached, edits: nat -> seq<Op>, k: nat)
      reads this
    {
      attached == AllEdits(start, edits, k)
    }

    /** Puts the handler into the array of its type, or into a new one. */
    method Attach(type_: string, handler: Handler)
      requires Valid()
      modifies this, arrays
      ensures Valid() && attached == WithAdded(old(attached), type_, handler)
      ensures fresh(arrays - old(arrays))
    {
      ghost var before := attached;
      if type_ !in events {
        Open(type_);
      }
      AddsTo(before, attached, type_, handler);
      InsertInto(type_, handler);
    }

    method InsertInto(type_: string, handler: Handler)
      requires Holds() && type_ in events
      modifies this`attached, events[type_]
      ensures Holds() && attached == old(attached)[type_ := old(attached)[type_] + [handler]]
    {
      var handlers := events[type_];
      handlers.Insert(handler);
      attached := attached[type_ := attached[type_] + [handler]];
      forall t | t in events
        ensures HoldsAt(t)
      {
        assert old(HoldsAt(t)) && (t != type_ ==> events[t] != handlers);
      }
    }

    /** A new array for a type that has none. */
    method Open(type_: string)
      requires Holds() && type_ !in events
      modifies this
      ensures Holds() && attached == old(attached)[type_ := []]
      ensures type_ in events && fresh(events[type_]) && arrays == old(arrays) + {events[type_]}
    {
      var handlers := new HandlerList(type_);
      events := events[type_ := handlers];
      attached, arrays := attached[type_ := []], arrays + {handlers};
    }

    /** Takes handlers out of the array of a type, and lets go of the array if it is empty then. */
    method Detach(type_: string, removal: Removal)
      requires Valid()
      modifies this, arrays
      ensures Valid() && attached == WithRemoved(old(attached), type_, removal)
      ensures arrays == old(arrays)
    {
      RemovesFrom(attached, type_, removal);
      if type_ in events {
        SpliceFrom(type_, removal);
        CloseIfEmpty(type_);
      }
    }

    method SpliceFrom(type_: string, removal: Removal)
      requires Valid() && type_ in events
      modifies this`attached, events[type_]
      ensures Holds() && NoneEmpty(type_) && attached == old(attached)[type_ := Left(old(attached)[type_], removal)]
    {
      var handlers := events[type_];
      handlers.Splice(removal);
      attached := attached[type_ := Left(attached[type_], removal)];
      forall t | t in events
        ensures HoldsAt(t)
      {
        assert old(HoldsAt(t)) && (t != type_ ==> events[t] != handlers);
      }
    }

    method CloseIfEmpty(type_: string)
      requires Holds() && NoneEmpty(type_) && type_ in events
      modifies this
      ensures Valid() && attached == if old(attached)[type_] == [] then old(attached) - {type_} else old(attached)
      ensures arrays == old(arrays)
    {
      NothingLeft(attached[type_]);
      if |events[type_].handlers| == 0 {
        events, attached := events - {type_}, attached - {type_};
      }
    }

    method Perform(ops: seq<Op>)
      requires Valid()
      modifies this, arrays
      ensures Valid() && attached == AfterAll(old(attached), ops)
      ensures fresh(arrays - old(arrays))
    {
      var i := 0;
      assert ops[0..] == ops;
      while i < |ops|
        invariant 0 <= i <= |ops| && Valid() && fresh(arrays - old(arrays))
        invariant AfterAll(attached, ops[i..]) == AfterAll(old(attached), ops)
      {
        AfterAllNext(attached, ops, i);
        match ops[i] {
          case Add(t, h) => Attach(t, h);
          case Remove(t, r) => Detach(t, r);
        }
        i := i + 1;
      }
    }

    /**
     dispatch.  It holds the array of handlers itself, and the handlers called may splice that
     array by calling add and remove (`edits` of the k-th call); which handlers are called was
     settled by what the array held at the start.
     */
    method Dispatch(e: Event, page: Page, reaction: nat -> Reaction, edits: nat -> seq<Op>) returns (calls: seq<Call>)
      requires Valid()
      modifies this, arrays
      ensures EndsRight(e, Groups(page, e, Of(old(attached), e.type_), 0), reaction, calls)
      ensures Valid() && Edited(old(attached), edits, |calls|)
      ensures fresh(arrays - old(arrays))
    {
      var handlers;
      if e.type_ in events {
        handlers := events[e.type_];
      } else {
        handlers := new HandlerList(e.type_);
      }
      var handlerQueue := handlers.BuildQueue(page, e);
      calls := RunQueue(e, handlerQueue, reaction, edits);
    }

    /** The outer loop of dispatch. */
    method RunQueue(e: Event, handlerQueue: seq<(Option<nat>, seq<Handler>)>, reaction: nat -> Reaction,
                    edits: nat -> seq<Op>)
      returns (calls: seq<Call>)
      requires Valid()
      modifies this, arrays
      ensures EndsRight(e, handlerQueue, reaction, calls)
      ensures Valid() && Edited(old(attached), edits, |calls|)
      ensures fresh(arrays - old(arrays))
    {
      calls := [];
      var i, stopped := 0, false;
      while i < |handlerQueue| && !stopped
        invariant 0 <= i <= |handlerQueue| && Valid() && Edited(old(attached), edits, |calls|)
        invariant fresh(arrays - old(arrays))
        invariant RunSoFar(e, handlerQueue, reaction, i, calls, stopped)
      {
        var part, immediate;
        var (elem, matches) := handlerQueue[i];
        part, stopped, immediate := RunGroup(e, elem, matches, reaction, edits, |calls|, old(attached));
        RunGoesOn(e, handlerQueue, reaction, i, calls, part, stopped, immediate);
        calls := calls + part;
        i := i + 1;
      }
      RunEnds(e, handlerQueue, reaction, calls, stopped);
    }

    /** The k-th handler called makes its own calls of add and remove. */
    method Invoke(edits: nat -> seq<Op>, k: nat, ghost start: Attached)
      requires Valid() && Edited(start, edits, k)
      modifies this, arrays
      ensures Valid() && Edited(start, edits, k + 1)
      ensures fresh(arrays - old(arrays))
    {
      Perform(edits(k));
    }

    /** The inner loop of dispatch, when n handlers have been called before. */
    method RunGroup(e: Event, elem: Option<nat>, matches: seq<Handler>, reaction: nat -> Reaction,
                    edits: nat -> seq<Op>, n: nat, ghost start: Attached)
      returns (calls: seq<Call>, stopped: bool, immediate: bool)
      requires Valid() && Edited(start, edits, n)
      modifies this, arrays
      ensures Valid() && Edited(start, edits, n + |calls|)
      ensures GroupRan(CallsOf(e, elem, matches), reaction, n, calls, stopped, immediate)
      ensures fresh(arrays - old(arrays))
    {
      calls, stopped, immediate := [], false, false;
      var j := 0;
      while j < |matches| && !immediate
        invariant 0 <= j <= |matches| && Valid() && Edited(start, edits, n + |calls|)
        invariant fresh(arrays - old(arrays))
        invariant GroupSoFar(e, elem, matches, j, reaction, n, calls, stopped, immediate)
      {
        calls, stopped, immediate := RunHandler(e, elem, matches, j, reaction, edits, n, start, calls, stopped);
        j := j + 1;
      }
      GroupEnds(e, elem, matches, j, reaction, n, calls, stopped, immediate);
    }

    /** One handler of a group: it is called and reacts, or the event is not for it. */
    method RunHandler(e: Event, elem: Option<nat>, matches: seq<Handler>, j: nat, reaction: nat -> Reaction,
                      edits: nat -> seq<Op>, n: nat, ghost start: Attached, before: seq<Call>, stoppedBefore: bool)
      returns (calls: seq<Call>, stopped: bool, immediate: bool)
      requires Valid() && Edited(start, edits, n + |before|) && j < |matches|
      requires GroupSoFar(e, elem, matches, j, reaction, n, before, stoppedBefore, false)
      modifies this, arrays
      ensures Valid() && Edited(start, edits, n + |calls|)
      ensures GroupSoFar(e, elem, matches, j + 1, reaction, n, calls, stopped, immediate)
      ensures fresh(arrays - old(arrays))
    {
      calls, stopped, immediate := before, stoppedBefore, false;
      GroupTurn(e, elem, matches, j, reaction, n, calls, stopped);
      if Runs(e, matches[j]) {
        var r := reaction(n + |calls|);
        Invoke(edits, n + |calls|, start);
        calls, stopped, immediate := calls + [Call(elem, matches[j])], stopped || r != GoesOn, r == StopsAtOnce;
      }
    }
  }
}
