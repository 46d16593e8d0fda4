/**
 `jQuery.Callbacks` as an object with its closure variables as fields.  What callbacks do is
 given by a script: the calls they make on the list, in time order, and their returns.
 */
module CallbackList {
  import opened Wrappers
  import opened Callbacks
  import CallbackTrace

  lemma {:induction false} StripWithout<F>(list: seq<Entry<F>>, p: nat, fn: F)
    requires p < |list| && list[p].fn == fn
    ensures Strip(list[..p] + list[p + 1..], fn) == Strip(list, fn)
  {
    var rest := list[..p] + list[p + 1..];
    if p == 0 {
      assert rest == list[1..];
    } else {
      assert list[1..][..p - 1] + list[1..][p..] == rest[1..];
      StripWithout(list[1..], p - 1, fn);
    }
  }

  ghost predicate Without<F>(list: seq<Entry<F>>, fn: F) {
    forall i :: 0 <= i < |list| ==> list[i].fn != fn
  }

  /** The first entry of fn is at `index`; there is none if that is -1. */
  ghost predicate NextIs<F>(list: seq<Entry<F>>, index: int, fn: F) {
    if index == -1 then Without(list, fn)
    else 0 <= index < |list| && list[index].fn == fn && Without(list[..index], fn)
  }

  lemma NextFound<F>(list: seq<Entry<F>>, from: nat, index: int, fn: F)
    requires from <= |list| && Without(list[..from], fn)
    requires index == -1 || (from <= index < |list| && list[index].fn == fn)
    requires forall i :: from <= i < (if index >= 0 then index else |list|) ==> list[i].fn != fn
    ensures NextIs(list, index, fn)
  {
    forall i | 0 <= i < from
      ensures list[i].fn != fn
    {
      assert list[..from][i] == list[i];
    }
  }

  lemma {:induction false} StripNothing<F>(list: seq<Entry<F>>, fn: F)
    requires Without(list, fn)
    ensures Strip(list, fn) == list
  {
    if list == [] {
    } else {
      StripNothing(list[1..], fn);
    }
  }

  /** The list without its entry p. */
  function Spliced<F>(list: seq<Entry<F>>, p: nat): seq<Entry<F>>
    requires p < |list|
  {
    list[..p] + list[p + 1..]
  }

  /** Where firingIndex i ends up when every occurrence of fn has gone. */
  function FinalIndex<F(==)>(list: seq<Entry<F>>, i: int, fn: F): int {
    i - (|Upto(list, i)| - |Strip(Upto(list, i), fn)|)
  }

  /** One splice at or before the firing index, and the index moved along, leaves its final value the same. */
  lemma SpliceKeepsFinalIndex<F>(list: seq<Entry<F>>, p: nat, i: int, fn: F)
    requires p < |list| && list[p].fn == fn && i >= -1
    ensures FinalIndex(Spliced(list, p), if p <= i then i - 1 else i, fn) == FinalIndex(list, i, fn)
  {
    if p <= i {
      var seen := Upto(list, i);
      assert Upto(Spliced(list, p), i - 1) == seen[..p] + seen[p + 1..];
      StripWithout(seen, p, fn);
    } else {
      assert Upto(Spliced(list, p), i) == Upto(list, i);
    }
  }

  /** Some entries of fn have gone since `before`, and the firing indices have moved along. */
  ghost predicate Removing<F, D>(before: State<F, D>, now: State<F, D>, fn: F) {
    && before.list.Some? && now.list.Some? && |now.list.value| <= |before.list.value|
    && now == before.(list := now.list, firingLength := now.firingLength, firingIndex := now.firingIndex)
    && Strip(now.list.value, fn) == Strip(before.list.value, fn)
    && if !before.firing then now.firingIndex == before.firingIndex && now.firingLength == before.firingLength
       else
         && now.firingIndex >= -1
         && now.firingLength - |now.list.value| == before.firingLength - |before.list.value|
         && FinalIndex(now.list.value, now.firingIndex, fn) == FinalIndex(before.list.value, before.firingIndex, fn)
  }

  lemma RemovingGoesOn<F, D>(before: State<F, D>, mid: State<F, D>, now: State<F, D>, fn: F)
    requires Removing(before, mid, fn) && Removing(mid, now, fn)
    ensures Removing(before, now, fn)
  {
  }

  /** When no entry of fn is left, the removal is done. */
  lemma AllRemoved<F, D>(before: State<F, D>, now: State<F, D>, fn: F)
    requires Removing(before, now, fn) && Without(now.list.value, fn)
    ensures
      var done := RemovedOne(before, fn);
      now.(h := done.h) == done && done.h.nextTag == now.h.nextTag && (done.h.current.Some? <==> now.h.current.Some?)
  {
    StripNothing(now.list.value, fn);
    if now.firing {
      StripNothing(Upto(now.list.value, now.firingIndex), fn);
    }
  }

  /** What the return of the running callback makes of the state. */
  lemma ReturnPlays<F, D>(s: State<F, D>, script: seq<Step<F, D>>)
    requires Regular(s) && !s.faulted && s.firing && script != [] && script[0].Return?
    ensures Play(s, script) ==
      if !script[0].ok && s.opts.stopOnFalse then Play(Finish(Stopped(s)), script[1..])
      else Play(Turn(s.(firingIndex := s.firingIndex + 1)), script[1..])
  {
  }

  class CallbackList<F(==), D> {
    const opts: Options
    var list: Option<seq<Entry<F>>>
    var stack: Option<seq<D>>
    var memory: Option<D>
    var fired: bool
    var firing: bool
    var firingStart: nat
    var firingLength: int
    var firingIndex: int
    var faulted: bool
    var nextTag: nat
    ghost var h: History<F, D>

    ghost function View(): State<F, D>
      reads this
    {
      State(opts, list, stack, memory, fired, firing, firingStart, firingLength, firingIndex, faulted, h)
    }

    ghost predicate Ready()
      reads this
    {
      && Regular(View()) && !faulted && nextTag == h.nextTag
      && (firing ==> firingLength >= 0 && firingIndex >= -1 && (list.Some? ==> |list.value| <= firingLength))
    }

    constructor (opts: Options)
      ensures View() == New(opts) && Ready()
    {
      this.opts := opts;
      list, stack, memory := Some([]), if opts.once then None else Some([]), None;
      fired, firing, firingStart, firingLength, firingIndex, faulted := false, false, 0, 0, 0, false;
      nextTag := 0;
      h := History(0, [], [], None, []);
    }

    /** jQuery.inArray: the first index at or behind `from` that holds fn, or -1. */
    static method InArray(fn: F, list: seq<Entry<F>>, from: nat) returns (index: int)
      requires from <= |list|
      ensures index == -1 || from <= index < |list|
      ensures index >= 0 ==> list[index].fn == fn
      ensures forall i :: from <= i < (if index >= 0 then index else |list|) ==> list[i].fn != fn
    {
      index := from;
      while index < |list|
        invariant from <= index <= |list|
        invariant forall i :: from <= i < index ==> list[i].fn != fn
      {
        if list[index].fn == fn {
          return;
        }
        index := index + 1;
      }
      index := -1;
    }

    method Push(fns: seq<F>)
      requires Ready() && list.Some?
      modifies this`list, this`firingLength, this`nextTag, this`h
      ensures Ready() && View() == Grown(old(View()), fns)
    {
      var start := list.value;
      var tag, i := nextTag, 0;
      while i < |fns|
        invariant 0 <= i <= |fns| && list.Some?
        invariant Pushed(list.value, fns[i..], opts.unique, tag) == Pushed(start, fns, opts.unique, nextTag)
        invariant start <= list.value
        invariant h == old(h) && firingLength == old(firingLength) && nextTag == old(nextTag)
      {
        assert fns[i..][0] == fns[i] && fns[i..][1..] == fns[i + 1..];
        var at := -1;
        if opts.unique {
          at := InArray(fns[i], list.value, 0);
          assert at >= 0 ==> list.value[at] in list.value;
        }
        if at == -1 {
          list := Some(list.value + [Entry(fns[i], tag)]);
          tag := tag + 1;
        }
        i := i + 1;
      }
      nextTag := nextTag + |fns|;
      h := h.(nextTag := nextTag);
      if firing {
        firingLength := |list.value|;
        h := h.(current := Some(h.current.value.(pool := h.current.value.pool + list.value[|start|..])));
      }
    }

    /** Takes entry `index` out and moves the firing indices along. */
    method Splice(index: nat, ghost fn: F)
      requires list.Some? && index < |list.value| && list.value[index].fn == fn
      requires firing ==> |list.value| <= firingLength && firingIndex >= -1
      modifies this`list, this`firingLength, this`firingIndex
      ensures Removing(old(View()), View(), fn)
      ensures list == Some(Spliced(old(list).value, index)) && list.value[..index] == old(list).value[..index]
    {
      if firing {
        SpliceKeepsFinalIndex(list.value, index, firingIndex, fn);
      }
      StripWithout(list.value, index, fn);
      list := Some(list.value[..index] + list.value[index + 1..]);
      if firing {
        if index <= firingLength {
          firingLength := firingLength - 1;
        }
        if index <= firingIndex {
          firingIndex := firingIndex - 1;
        }
      }
    }

    /** The loop of remove over the occurrences of one callback. */
    method SpliceOccurrences(fn: F)
      requires Ready() && list.Some?
      modifies this`list, this`firingLength, this`firingIndex
      ensures Removing(old(View()), View(), fn) && Without(list.value, fn)
    {
      var index := InArray(fn, list.value, 0);
      NextFound(list.value, 0, index, fn);
      while index > -1
        invariant Removing(old(View()), View(), fn)
        invariant NextIs(list.value, index, fn)
        decreases |list.value|
      {
        ghost var before := View();
        Splice(index, fn);
        RemovingGoesOn(old(View()), before, View(), fn);
        var from := index;
        index := InArray(fn, list.value, from);
        NextFound(list.value, from, index, fn);
      }
    }

    method RemoveOne(fn: F)
      requires Ready() && list.Some?
      modifies this`list, this`firingLength, this`firingIndex, this`h
      ensures Ready() && View() == RemovedOne(old(View()), fn)
    {
      ghost var before := View();
      SpliceOccurrences(fn);
      AllRemoved(before, View(), fn);
      h := RemovedOne(before, fn).h;
    }

    method RemoveAll(fns: seq<F>)
      requires Ready()
      modifies this`list, this`firingLength, this`firingIndex, this`h
      ensures Ready() && View() == Removed(old(View()), fns)
    {
      var i := 0;
      while list.Some? && i < |fns|
        invariant 0 <= i <= |fns| && Ready()
        invariant Removed(View(), fns[i..]) == Removed(old(View()), fns)
      {
        assert fns[i..][0] == fns[i] && fns[i..][1..] == fns[i + 1..];
        RemoveOne(fns[i]);
        i := i + 1;
      }
    }

    /** A call on the list from inside one of its callbacks: it starts no pass. */
    method CallInPass(step: Step<F, D>)
      requires Ready() && firing && !step.Return?
      modifies this
      ensures Ready() && firing && View() == Apply(old(View()), step)
      ensures Waiting(View()) <= Waiting(old(View())) + 1
    {
      match step {
        case Add(fns) =>
          if list.Some? {
            Push(fns);
          }
        case Remove(fns) =>
          ghost var before := View();
          RemoveAll(fns);
          CallbackTrace.RemovedFrame(before, fns);
        case Empty =>
          list := Some([]);
        case Disable =>
          list, stack, memory := None, None, None;
        case Lock =>
          stack := None;
          if memory.None? {
            list := None;
          }
        case Fire(data) =>
          if list.Some? && stack.Some? {
            stack := Some(stack.value + [data]);
            h := h.(issued := h.issued + [data]);
          }
      }
    }

    /** The running callback makes its calls, up to its return or the end of the script. */
    method RunCallback(script: seq<Step<F, D>>) returns (rest: seq<Step<F, D>>)
      requires Ready() && firing
      modifies this
      ensures Ready() && firing && |rest| <= |script|
      ensures Play(old(View()), script) == Play(View(), rest)
      ensures rest == [] || rest[0].Return?
      ensures |rest| == |script| ==> stack == old(stack)
    {
      rest := script;
      while rest != [] && !rest[0].Return?
        invariant Ready() && firing && |rest| <= |script|
        invariant Play(old(View()), script) == Play(View(), rest)
        invariant |rest| == |script| ==> stack == old(stack)
        decreases |rest|
      {
        CallInPass(rest[0]);
        rest := rest[1..];
      }
    }

    /** One round of fire's loop: a call, what the callback does, and its return. */
    method CallNext(script: seq<Step<F, D>>, ghost goal: State<F, D>)
      returns (rest: seq<Step<F, D>>, returned: bool, stop: bool)
      requires Ready() && firing && list.Some? && 0 <= firingIndex < |list.value|
      requires Play(Turn(View()), script) == goal
      modifies this
      ensures Ready() && firing && |rest| <= |script|
      ensures !returned ==> rest == [] && Play(View(), rest) == goal
      ensures returned ==> |rest| < |script|
      ensures returned && stop ==> Play(Finish(View()), rest) == goal
      ensures returned && !stop ==> firingIndex >= 0 && Play(Turn(View()), rest) == goal
    {
      ghost var p := h.current.value;
      ghost var e := list.value[firingIndex];
      h := h.(current := Some(p.(calls := p.calls + [e])), trace := h.trace + [(p.data, e)]);
      rest := RunCallback(script);
      if rest == [] {
        return rest, false, false;
      }
      returned := true;
      ReturnPlays(View(), rest);
      stop := !rest[0].ok && opts.stopOnFalse;
      rest := rest[1..];
      if stop {
        memory := None;
        h := h.(current := Some(h.current.value.(cut := true)));
      } else {
        firingIndex := firingIndex + 1;
      }
    }

    /** fire(data): the loop over the list, and then whatever was queued meanwhile. */
    method FirePass(data: D, ghost replay: bool, script: seq<Step<F, D>>) returns (rest: seq<Step<F, D>>)
      requires !faulted && h.current.None? && nextTag == h.nextTag
      requires list.Some? && firingStart <= |list.value|
      modifies this
      ensures |rest| <= |script| && (!faulted ==> Ready())
      ensures Play(Begin(old(View()), data, replay), script) == Play(View(), rest)
      ensures rest == [] || !firing || faulted
      decreases |script|, if stack.Some? then |stack.value| else 0, 1
    {
      ghost var goal := Play(Begin(View(), data, replay), script);
      rest := script;
      memory := if opts.memory then Some(data) else None;
      fired, firing := true, true;
      h := h.(current := Some(Pass(data, replay, list.value[firingStart..], {}, [], false)));
      firingIndex, firingStart, firingLength := firingStart, 0, |list.value|;
      var over;
      rest, over := FireLoop(rest, goal);
      if over {
        rest := AfterLoop(rest, goal);
      }
    }

    /** fire's loop; it is not over if the script ends in it, or if it calls undefined. */
    method FireLoop(script: seq<Step<F, D>>, ghost goal: State<F, D>) returns (rest: seq<Step<F, D>>, over: bool)
      requires Ready() && firing && firingIndex >= 0 && Play(Turn(View()), script) == goal
      modifies this
      ensures |rest| <= |script| && (|rest| == |script| ==> stack == old(stack))
      ensures over ==> Ready() && firing && Play(Finish(View()), rest) == goal
      ensures !over ==> (rest == [] || faulted) && (!faulted ==> Ready()) && Play(View(), rest) == goal
    {
      rest, over := script, false;
      var stop := false;
      while list.Some? && firingIndex < firingLength && !stop
        invariant Ready() && firing && |rest| <= |script|
        invariant
          if stop then Play(Finish(View()), rest) == goal
          else firingIndex >= 0 && Play(Turn(View()), rest) == goal
        invariant |rest| == |script| ==> stack == old(stack)
        decreases |rest|, !stop
      {
        if firingIndex >= |list.value| {
          faulted := true;
          return;
        }
        var returned;
        rest, returned, stop := CallNext(rest, goal);
        if !returned {
          return;
        }
      }
      over := true;
    }

    method AfterLoop(script: seq<Step<F, D>>, ghost goal: State<F, D>) returns (rest: seq<Step<F, D>>)
      requires Ready() && firing
      requires Play(Finish(View()), script) == goal
      modifies this
      ensures |rest| <= |script| && (!faulted ==> Ready())
      ensures goal == Play(View(), rest)
      ensures rest == [] || !firing || faulted
      decreases |script|, if stack.Some? then |stack.value| else 0, 0
    {
      rest := script;
      firing := false;
      ghost var p := h.current.value;
      h := h.(current := None, passes := h.passes + [p.(cut := p.cut || list.None?)]);
      if list.Some? {
        if stack.Some? {
          if stack.value != [] {
            var data := stack.value[0];
            stack := Some(stack.value[1..]);
            rest := FirePass(data, false, rest);
          }
        } else if memory.Some? {
          list := Some([]);
        } else {
          list := None;
        }
      }
    }

    /** A call on the list from outside; it may start passes that use up some of the script. */
    method Call(step: Step<F, D>, script: seq<Step<F, D>>) returns (rest: seq<Step<F, D>>)
      requires Ready() && !firing && !step.Return?
      modifies this
      ensures |rest| <= |script| && (!faulted ==> Ready())
      ensures Play(Apply(old(View()), step), script) == Play(View(), rest)
      ensures rest == [] || !firing || faulted
    {
      rest := script;
      match step {
        case Add(fns) =>
          if list.Some? {
            var start := |list.value|;
            Push(fns);
            if memory.Some? {
              firingStart := start;
              rest := FirePass(memory.value, true, rest);
            }
          }
        case Remove(fns) =>
          RemoveAll(fns);
        case Empty =>
          list := Some([]);
        case Disable =>
          list, stack, memory := None, None, None;
        case Lock =>
          stack := None;
          if memory.None? {
            list := None;
          }
        case Fire(data) =>
          if list.Some? && (!fired || stack.Some?) {
            h := h.(issued := h.issued + [data]);
            rest := FirePass(data, false, rest);
          }
      }
    }

    /** Carries out a whole script, exactly as the step machine plays it. */
    method Drive(script: seq<Step<F, D>>)
      requires Ready() && !firing
      modifies this
      ensures View() == Play(old(View()), script)
    {
      var rest := script;
      while rest != [] && !faulted && !rest[0].Return?
        invariant !faulted ==> Ready()
        invariant rest == [] || !firing || faulted
        invariant Play(old(View()), script) == Play(View(), rest)
        decreases |rest|
      {
        rest := Call(rest[0], rest[1..]);
      }
    }
  }
}
