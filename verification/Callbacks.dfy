/**
 `jQuery.Callbacks` as a step machine.

 A step is either a call on the list or the return of the callback that is running.  Calls
 made by a callback on its own list are the steps that happen while `firing` is set; they
 never start a pass of their own, so the machine's state is all there is to a nested call.
 */
module Callbacks {
  import opened Wrappers

  /** The flags once, memory, unique and stopOnFalse. */
  datatype Options = Options(once: bool, memory: bool, unique: bool, stopOnFalse: bool)

  /** A callback in the list; the tag tells occurrences of the same function apart. */
  datatype Entry<F> = Entry(fn: F, tag: nat)

  /**
   One run of fire's loop, as history: the entries it found or was given on the way (`pool`),
   the tags of those removed before their turn (`early`), the calls made, and whether it was
   cut short by a callback that returned false or disabled the list.
   */
  datatype Pass<F, D> = Pass(
    data: D, replay: bool, pool: seq<Entry<F>>, early: set<nat>, calls: seq<Entry<F>>, cut: bool)

  /** Tags, accepted fires, finished passes, the pass in progress and all calls in time order. */
  datatype History<F, D> = History(
    nextTag: nat, issued: seq<D>, passes: seq<Pass<F, D>>, current: Option<Pass<F, D>>, trace: seq<(D, Entry<F>)>)

  /** The closure variables of a callback list.  `list`, `stack`, `memory` are None when undefined or false. */
  datatype State<F, D> = State(
    opts: Options,
    list: Option<seq<Entry<F>>>, stack: Option<seq<D>>, memory: Option<D>,
    fired: bool, firing: bool, firingStart: nat, firingLength: int, firingIndex: int,
    faulted: bool,
    h: History<F, D>)

  function New<F, D>(opts: Options): State<F, D> {
    State(opts, Some([]), if opts.once then None else Some([]), None, false, false, 0, 0, 0, false,
          History(0, [], [], None, []))
  }

  // ---------- lists of entries ----------

  /** The list without the callback fn. */
  function Strip<F(==)>(list: seq<Entry<F>>, fn: F): seq<Entry<F>> {
    if list == [] then []
    else (if list[0].fn == fn then [] else [list[0]]) + Strip(list[1..], fn)
  }

  /** The list without the entries whose tags are given. */
  function Kept<F>(list: seq<Entry<F>>, tags: set<nat>): seq<Entry<F>> {
    if list == [] then []
    else (if list[0].tag in tags then [] else [list[0]]) + Kept(list[1..], tags)
  }

  /** The list with callbacks added at its end, without repetitions if `unique`. */
  function Pushed<F(==)>(list: seq<Entry<F>>, fns: seq<F>, unique: bool, tag: nat): (r: seq<Entry<F>>)
    ensures list <= r
    decreases |fns|
  {
    if fns == [] then list
    else if unique && exists e :: e in list && e.fn == fns[0] then Pushed(list, fns[1..], unique, tag)
    else Pushed(list + [Entry(fns[0], tag)], fns[1..], unique, tag + 1)
  }

  /** The part of the list up to and including an index. */
  function Upto<F>(list: seq<Entry<F>>, i: int): seq<Entry<F>> {
    if i < 0 then [] else if i < |list| then list[..i + 1] else list
  }

  /** The part of the list behind an index. */
  function After<F>(list: seq<Entry<F>>, i: int): seq<Entry<F>> {
    if i < 0 then list else if i < |list| then list[i + 1..] else []
  }

  // ---------- the loop of fire ----------

  function Waiting<F, D>(s: State<F, D>): nat {
    if s.stack.Some? then |s.stack.value| else 0
  }

  /** The assignments in front of fire's loop. */
  function Started<F, D>(s: State<F, D>, data: D, replay: bool): State<F, D>
    requires s.list.Some? && s.firingStart <= |s.list.value|
  {
    s.(memory := if s.opts.memory then Some(data) else None, fired := true,
       firingIndex := s.firingStart, firingStart := 0, firingLength := |s.list.value|, firing := true,
       h := s.h.(current := Some(Pass(data, replay, s.list.value[s.firingStart..], {}, [], false))))
  }

  /** The loop is over: the pass becomes history. */
  function Archived<F, D>(s: State<F, D>): State<F, D>
    requires s.h.current.Some?
  {
    var p := s.h.current.value;
    s.(firing := false, h := s.h.(current := None, passes := s.h.passes + [p.(cut := p.cut || s.list.None?)]))
  }

  /** A callback returned false with stopOnFalse set. */
  function Stopped<F, D>(s: State<F, D>): State<F, D>
    requires s.h.current.Some?
  {
    s.(memory := None, h := s.h.(current := Some(s.h.current.value.(cut := true))))
  }

  /** fire(data), up to its first callback. */
  function Begin<F, D>(s: State<F, D>, data: D, replay: bool): State<F, D>
    requires s.list.Some? && s.firingStart <= |s.list.value|
    decreases Waiting(s), 2
  {
    Turn(Started(s, data, replay))
  }

  /** The loop's test: call the next callback or leave. */
  function Turn<F, D>(s: State<F, D>): State<F, D>
    requires s.h.current.Some? && s.firingStart == 0
    decreases Waiting(s), 1
  {
    if s.list.Some? && s.firingIndex < s.firingLength then
      if 0 <= s.firingIndex < |s.list.value| then
        var e := s.list.value[s.firingIndex];
        s.(h := s.h.(current := Some(s.h.current.value.(calls := s.h.current.value.calls + [e])),
                     trace := s.h.trace + [(s.h.current.value.data, e)]))
      else s.(faulted := true) // calls undefined
    else Finish(s)
  }

  /** What fire does behind its loop. */
  function Finish<F, D>(s: State<F, D>): State<F, D>
    requires s.h.current.Some? && s.firingStart == 0
    decreases Waiting(s), 0
  {
    var t := Archived(s);
    if t.list.None? then t
    else if t.stack.Some? then
      if t.stack.value == [] then t
      else Begin(t.(stack := Some(t.stack.value[1..])), t.stack.value[0], false)
    else if t.memory.Some? then t.(list := Some([]))
    else Disabled(t)
  }

  /** The running callback returns; `ok` is false if it returned false. */
  function Returned<F, D>(s: State<F, D>, ok: bool): State<F, D>
    requires s.h.current.Some? && s.firingStart == 0
  {
    if !ok && s.opts.stopOnFalse then
      Finish(Stopped(s))
    else Turn(s.(firingIndex := s.firingIndex + 1))
  }

  // ---------- calls on the list ----------

  function Disabled<F, D>(s: State<F, D>): State<F, D> {
    s.(list := None, stack := None, memory := None)
  }

  /** add, up to the point where it may call fire. */
  function Grown<F(==), D>(s: State<F, D>, fns: seq<F>): State<F, D>
    requires s.list.Some?
  {
    var list := Pushed(s.list.value, fns, s.opts.unique, s.h.nextTag);
    var n := |s.list.value|;
    var t := s.(list := Some(list), h := s.h.(nextTag := s.h.nextTag + |fns|));
    if s.firing && s.h.current.Some? then
      t.(firingLength := |list|,
         h := t.h.(current := Some(s.h.current.value.(pool := s.h.current.value.pool + list[n..]))))
    else t
  }

  function Added<F(==), D>(s: State<F, D>, fns: seq<F>): State<F, D>
    requires s.list.Some?
  {
    var t := Grown(s, fns);
    if !s.firing && s.memory.Some? then Begin(t.(firingStart := |s.list.value|), s.memory.value, true) else t
  }

  /** remove of one function: the firing indices shrink by the removals at or before them. */
  function RemovedOne<F(==), D>(s: State<F, D>, fn: F): State<F, D>
    requires s.list.Some?
  {
    var list := s.list.value;
    var t := s.(list := Some(Strip(list, fn)));
    if !s.firing then t
    else
      var seen := Upto(list, s.firingIndex);
      var late := set e | e in After(list, s.firingIndex) && e.fn == fn :: e.tag;
      t.(firingLength := s.firingLength - (|list| - |Strip(list, fn)|),
         firingIndex := s.firingIndex - (|seen| - |Strip(seen, fn)|),
         h := if s.h.current.None? then s.h
              else s.h.(current := Some(s.h.current.value.(early := s.h.current.value.early + late))))
  }

  function Removed<F(==), D>(s: State<F, D>, fns: seq<F>): State<F, D>
    decreases |fns|
  {
    if fns == [] || s.list.None? then s else Removed(RemovedOne(s, fns[0]), fns[1..])
  }

  function Locked<F, D>(s: State<F, D>): State<F, D> {
    if s.memory.None? then Disabled(s) else s.(stack := None)
  }

  function Fired<F, D>(s: State<F, D>, data: D): State<F, D>
    requires !s.firing && s.list.Some? ==> s.firingStart <= |s.list.value|
  {
    if s.list.Some? && (!s.fired || s.stack.Some?) then
      var t := s.(h := s.h.(issued := s.h.issued + [data]));
      if s.firing && s.stack.Some? then t.(stack := Some(s.stack.value + [data]))
      else if s.firing then s
      else Begin(t, data, false)
    else s
  }

  // ---------- steps ----------

  datatype Step<F, D> =
    | Add(fns: seq<F>) | Remove(fns: seq<F>) | Empty | Disable | Lock | Fire(data: D) | Return(ok: bool)

  /** Between steps, a pass is recorded exactly while the list fires. */
  ghost predicate Regular<F, D>(s: State<F, D>) {
    s.firingStart == 0 && (s.firing ==> s.fired) && (s.firing <==> s.h.current.Some?)
  }

  /** A fault is an exception out of fire; a return needs a running callback. */
  ghost predicate Enabled<F, D>(s: State<F, D>, step: Step<F, D>) {
    Regular(s) && !s.faulted && (step.Return? ==> s.firing)
  }

  function Apply<F(==), D>(s: State<F, D>, step: Step<F, D>): State<F, D>
    requires Enabled(s, step)
  {
    match step
    case Add(fns) => if s.list.Some? then Added(s, fns) else s
    case Remove(fns) => Removed(s, fns)
    case Empty => s.(list := Some([]))
    case Disable => Disabled(s)
    case Lock => Locked(s)
    case Fire(data) => Fired(s, data)
    case Return(ok) => Returned(s, ok)
  }

  /** Plays a script; it stops early at a step that cannot happen. */
  ghost function Play<F, D>(s: State<F, D>, script: seq<Step<F, D>>): State<F, D>
    decreases |script|
  {
    if script == [] || !Enabled(s, script[0]) then s else Play(Apply(s, script[0]), script[1..])
  }
}
