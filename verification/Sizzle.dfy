/**
 The evaluation of compiled selectors over candidate elements, with the per-node memo that
 `addCombinator` keeps in `elem[expando]` and `elem.sizset`.
 */
module Sizzle {
  import opened Dom
  import Filters
  import opened Matcher
  import opened Searches
  import opened Selector

  /** The string `dirruns + " " + doneName + " " + cachedruns`, or no mark at all. */
  datatype Mark = Unmarked | Key(dirrun: nat, name: nat, run: nat)

  /** Names are only ever added, so matchers stay registered. */
  lemma {:induction false} RegisteredGrows(small: map<nat, Matcher>, big: map<nat, Matcher>, m: Matcher)
    requires Registered(small, m)
    requires forall nm :: nm in small ==> nm in big && big[nm] == small[nm]
    ensures Registered(big, m)
    decreases m
  {
    match m {
      case Test(_) =>
      case All(ms) =>
        forall i | 0 <= i < |ms|
          ensures Registered(big, ms[i])
        {
          RegisteredGrows(small, big, ms[i]);
        }
      case Search(inner, _, _, _) =>
        RegisteredGrows(small, big, inner);
    }
  }

  lemma {:induction false} RegisteredNames(table: map<nat, Matcher>, m: Matcher)
    requires Registered(table, m)
    ensures Names(m) <= table.Keys
    decreases m
  {
    match m {
      case Test(_) =>
      case All(ms) =>
        forall i | 0 <= i < |ms|
          ensures Names(ms[i]) <= table.Keys
        {
          RegisteredNames(table, ms[i]);
        }
      case Search(inner, _, _, _) =>
        RegisteredNames(table, inner);
    }
  }

  /** Some matcher accepts e. */
  ghost predicate Accepted(d: Document, groups: seq<Matcher>, e: nat)
    requires WellFormed(d)
  {
    e < |d.parent| && exists j :: 0 <= j < |groups| && Plain(d, groups[j], e)
  }

  /** The matcher accepts just the nodes that the selector selects. */
  ghost predicate Means(d: Document, ctx: Context, tokens: seq<Token>, m: Matcher)
    requires WellFormed(d)
  {
    forall e: nat :: e < |d.parent| ==> (Plain(d, m, e) <==> Selects(d, ctx, tokens, e))
  }

  /** Some selector of the group selects e. */
  ghost predicate Chosen(d: Document, ctx: Context, selectors: seq<seq<Token>>, e: nat)
    requires WellFormed(d)
  {
    e < |d.parent| && exists j :: 0 <= j < |selectors| && Selects(d, ctx, selectors[j], e)
  }

  /** A usable matcher for the selector that is j-th from the end. */
  ghost predicate CompiledAt(d: Document, table: map<nat, Matcher>, ctx: Context, selectors: seq<seq<Token>>, j: int,
                             m: Matcher)
    requires WellFormed(d) && 0 <= j < |selectors|
  {
    Shaped(m) && Registered(table, m) && Means(d, ctx, selectors[|selectors| - 1 - j], m)
  }

  /** The compiled group so far: matchers for the last selectors, last one first. */
  ghost predicate CompiledGroup(d: Document, table: map<nat, Matcher>, ctx: Context, selectors: seq<seq<Token>>,
                                groups: seq<Matcher>)
    requires WellFormed(d)
  {
    |groups| <= |selectors| && forall j :: 0 <= j < |groups| ==> CompiledAt(d, table, ctx, selectors, j, groups[j])
  }

  lemma GroupGrows(d: Document, small: map<nat, Matcher>, big: map<nat, Matcher>, ctx: Context,
                   selectors: seq<seq<Token>>, groups: seq<Matcher>, m: Matcher)
    requires WellFormed(d) && CompiledGroup(d, small, ctx, selectors, groups) && |groups| < |selectors|
    requires CompiledAt(d, big, ctx, selectors, |groups|, m)
    requires forall nm :: nm in small ==> nm in big && big[nm] == small[nm]
    ensures CompiledGroup(d, big, ctx, selectors, groups + [m])
  {
    forall j | 0 <= j < |groups|
      ensures CompiledAt(d, big, ctx, selectors, j, groups[j])
    {
      assert CompiledAt(d, small, ctx, selectors, j, groups[j]);
      RegisteredGrows(small, big, groups[j]);
    }
  }

  class Engine {
    const doc: Document
    var expando: seq<Mark>
    var sizset: seq<bool>
    var dirruns: nat
    var cachedruns: nat
    var done: nat
    ghost var table: map<nat, Matcher>

    /** The document has its marks, and the table lists searches under their own names. */
    ghost predicate Sized()
      reads this`expando, this`sizset, this`table
    {
      && WellFormed(doc)
      && |expando| == |sizset| == |doc.parent|
      && (forall nm :: nm in table ==> table[nm].Search?)
    }

    /** Every mark of this run on a node before `bound` records the answer of its matcher there. */
    ghost predicate Sound(bound: int)
      requires Sized() && bound <= |doc.parent|
      reads this`expando, this`sizset, this`table, this`dirruns
    {
      forall n :: 0 <= n < bound && expando[n].Key? && expando[n].dirrun == dirruns ==>
        expando[n].name in table && sizset[n] == Plain(doc, table[expando[n].name].inner, n)
    }

    /** Node n carries a false mark that this candidate's evaluation of search `nm` left there. */
    ghost predicate Failed(nm: nat, n: int)
      requires Sized() && 0 <= n < |doc.parent|
      reads this`expando, this`sizset, this`table, this`dirruns, this`cachedruns
    {
      expando[n] == Key(dirruns, nm, cachedruns) && !sizset[n]
    }

    ghost predicate Hit(nm: nat, n: int)
      requires WellFormed(doc) && NONE <= n < |doc.parent|
      requires nm in table && table[nm].Search?
      reads this`table
    {
      var s := table[nm];
      Found(doc, s.inner, s.comb, s.base, n)
    }

    /** A false mark of the current candidate means that the walk from there on found nothing. */
    ghost predicate DeadEnds(names: set<nat>, bound: int)
      requires Sized() && bound <= |doc.parent|
      reads this`expando, this`sizset, this`table, this`dirruns, this`cachedruns
    {
      forall n, nm :: nm in names && nm in table && 0 <= n < bound && Failed(nm, n) ==> !Hit(nm, n)
    }

    /** Nodes from `from` on keep their marks; a changed mark is of this candidate and one of `names`. */
    twostate predicate OnlyMarks(names: set<nat>, from: int)
      reads this
    {
      && |expando| == |old(expando)| && |sizset| == |old(sizset)| && |expando| == |sizset|
      && (forall n :: 0 <= from <= n < |expando| ==> expando[n] == old(expando)[n] && sizset[n] == old(sizset)[n])
      && (forall n :: 0 <= n < |expando| ==>
            || (expando[n] == old(expando)[n] && sizset[n] == old(sizset)[n])
            || (expando[n].Key? && expando[n] == Key(dirruns, expando[n].name, cachedruns) && expando[n].name in names))
    }

    method Match(m: Matcher, e: nat) returns (b: bool)
      requires Sized() && e < |doc.parent|
      requires Shaped(m) && Registered(table, m)
      requires Sound(e) && DeadEnds(Names(m), e)
      modifies this`expando, this`sizset
      ensures Sized() && Sound(e)
      ensures b == Plain(doc, m, e)
      ensures !b ==> DeadEnds(Names(m), e)
      ensures OnlyMarks(Names(m), e)
      decreases m, 1
    {
      match m {
        case Test(f) =>
          b := f(e);
        case All(ms) =>
          assert Names(m) == Names(ms[0]) by {
            assert forall i :: 0 < i < |ms| ==> Names(ms[i]) == {};
          }
          var i := |ms|;
          while i > 1
            invariant 1 <= i <= |ms|
            invariant forall j :: i <= j < |ms| ==> Plain(doc, ms[j], e)
            invariant expando == old(expando) && sizset == old(sizset)
          {
            i := i - 1;
            if !ms[i].test(e) {
              assert !Plain(doc, ms[i], e);
              return false;
            }
          }
          b := Match(ms[0], e);
        case Search(inner, comb, base, name) =>
          if comb.First() {
            b := Closest(inner, comb, base, name, e);
          } else {
            b := Walk(inner, comb, base, name, e);
          }
      }
    }

    /** The `combinator.first` branch: only the closest visible node counts. */
    method Closest(inner: Matcher, comb: Combinator, base: bool, name: nat, e: nat) returns (b: bool)
      requires Sized() && e < |doc.parent|
      requires comb.First()
      requires Shaped(Search(inner, comb, base, name)) && Registered(table, Search(inner, comb, base, name))
      requires Sound(e) && DeadEnds(Names(inner) + {name}, e)
      modifies this`expando, this`sizset
      ensures Sized() && Sound(e)
      ensures b == Found(doc, inner, comb, base, Step(doc, comb.Direction(), e))
      ensures !b ==> DeadEnds(Names(inner) + {name}, e)
      ensures OnlyMarks(Names(inner), e)
      decreases inner, 2
    {
      var cur := Step(doc, comb.Direction(), e);
      while cur != NONE
        invariant NONE <= cur < e
        invariant expando == old(expando) && sizset == old(sizset)
        invariant Found(doc, inner, comb, base, cur) == Found(doc, inner, comb, base, Step(doc, comb.Direction(), e))
        decreases cur + 1
      {
        if Visible(doc, comb, base, cur) {
          b := Match(inner, cur);
          return;
        }
        cur := Step(doc, comb.Direction(), cur);
      }
      b := false;
    }

    /** Marks a node, asks the inner matcher about it and records the answer. */
    method Visit(inner: Matcher, comb: Combinator, base: bool, name: nat, cur: nat, ghost e: nat) returns (hit: bool)
      requires Sized() && cur < e < |doc.parent|
      requires Shaped(Search(inner, comb, base, name)) && Registered(table, Search(inner, comb, base, name))
      requires Sound(e) && DeadEnds(Names(inner), e)
      modifies this`expando, this`sizset
      ensures Sized() && Sound(e)
      ensures hit == Plain(doc, inner, cur)
      ensures !hit ==> DeadEnds(Names(inner), e)
      ensures OnlyMarks(Names(inner) + {name}, cur + 1)
      ensures forall n :: 0 <= n < |doc.parent| && n != cur && Failed(name, n) ==> old(Failed(name, n))
      decreases inner, 2
    {
      expando := expando[cur := Key(dirruns, name, cachedruns)];
      hit := Match(inner, cur);
      sizset := sizset[cur := hit];
    }

    /** The memoising branch: every node along the walk is looked at until one matches. */
    method Walk(inner: Matcher, comb: Combinator, base: bool, name: nat, e: nat) returns (b: bool)
      requires Sized() && e < |doc.parent|
      requires !comb.First()
      requires Shaped(Search(inner, comb, base, name)) && Registered(table, Search(inner, comb, base, name))
      requires Sound(e) && DeadEnds(Names(inner) + {name}, e)
      modifies this`expando, this`sizset
      ensures Sized() && Sound(e)
      ensures b == Found(doc, inner, comb, base, Step(doc, comb.Direction(), e))
      ensures !b ==> DeadEnds(Names(inner) + {name}, e)
      ensures OnlyMarks(Names(inner) + {name}, e)
      decreases inner, 3
    {
      var cur := Step(doc, comb.Direction(), e);
      while cur != NONE
        invariant NONE <= cur < e
        invariant Sized() && Sound(e) && OnlyMarks(Names(inner) + {name}, e)
        invariant DeadEnds(Names(inner), e)
        invariant Found(doc, inner, comb, base, cur) == Found(doc, inner, comb, base, Step(doc, comb.Direction(), e))
        // marks this walk left behind lead to where it is now; those ahead are older
        invariant forall n :: cur < n < e && Failed(name, n) && Hit(name, n) ==> Hit(name, cur)
        invariant forall n :: 0 <= n <= cur && Failed(name, n) ==> !Hit(name, n)
        decreases cur + 1
      {
        var next := Step(doc, comb.Direction(), cur);
        if Visible(doc, comb, base, cur) {
          var mark := expando[cur];
          if mark == Key(dirruns, name, cachedruns) {
            b := sizset[cur];
            assert !b ==> Failed(name, cur) && !Hit(name, cur);
            return;
          } else if mark.Key? && mark.dirrun == dirruns && mark.name == name {
            if sizset[cur] {
              return true;
            }
          } else {
            var hit := Visit(inner, comb, base, name, cur, e);
            if hit {
              return true;
            }
          }
        }
        cur := next;
      }
      b := false;
    }

    /** The branch for XML documents, which keeps no marks. */
    method XmlWalk(inner: Matcher, comb: Combinator, base: bool, e: nat) returns (b: bool)
      requires WellFormed(doc) && e < |doc.parent| && !comb.First()
      ensures b == Found(doc, inner, comb, base, Step(doc, comb.Direction(), e))
    {
      var cur := Step(doc, comb.Direction(), e);
      while cur != NONE
        invariant NONE <= cur < e
        invariant Found(doc, inner, comb, base, cur) == Found(doc, inner, comb, base, Step(doc, comb.Direction(), e))
        decreases cur + 1
      {
        if Visible(doc, comb, base, cur) && Plain(doc, inner, cur) {
          return true;
        }
        cur := Step(doc, comb.Direction(), cur);
      }
      b := false;
    }

    // ---------- between runs ----------

    /** No mark is newer than the last run, and every name handed out is below the counter. */
    ghost predicate Valid()
      reads this
    {
      && Sized()
      && OnlyRootsAreContainers(doc)
      && (forall n :: 0 <= n < |expando| && expando[n].Key? ==> expando[n].dirrun <= dirruns)
      && (forall nm :: nm in table ==> nm < done)
    }

    constructor (d: Document)
      requires WellFormed(d) && OnlyRootsAreContainers(d)
      ensures Valid() && doc == d
    {
      doc := d;
      expando := seq(|d.parent|, _ => Unmarked);
      sizset := seq(|d.parent|, _ => false);
      dirruns, cachedruns, done := 0, 0, 0;
      table := map[];
    }

    method AddCombinator(inner: Matcher, comb: Combinator, base: bool) returns (m: Matcher)
      requires Valid() && Shaped(inner) && Registered(table, inner)
      modifies this`done, this`table
      ensures Valid() && Shaped(m) && Registered(table, m)
      ensures m == Search(inner, comb, base, old(done))
      ensures forall nm :: nm in old(table) ==> nm in table && table[nm] == old(table)[nm]
    {
      RegisteredNames(table, inner);
      m := Search(inner, comb, base, done);
      done := done + 1;
      RegisteredGrows(table, table[done - 1 := m], inner);
      table := table[done - 1 := m];
    }

    /** The foundational matcher: elements must be reachable from the context. */
    method ContextMatcher(ctx: Context, tokens: seq<Token>) returns (m: Matcher)
      requires Valid() && |tokens| > 0
      modifies this`done, this`table
      ensures Valid() && Shaped(m) && Registered(table, m) && !m.All?
      ensures forall e: nat :: e < |doc.parent| ==> (Plain(doc, m, e) <==> Anchored(doc, ctx, tokens, e))
      ensures forall nm :: nm in old(table) ==> nm in table && table[nm] == old(table)[nm]
    {
      var leading := tokens[0].Relative?;
      var implicit := if leading then tokens[0].comb else Descendant;
      if !leading && ctx.WholeDocument? {
        m := Test(_ => true);
      } else {
        var nodes := ctx.Nodes();
        var reached := Test((n: nat) => n in nodes);
        m := AddCombinator(reached, implicit, true);
        forall e: nat | e < |doc.parent|
          ensures Plain(doc, m, e) <==> Anchored(doc, ctx, tokens, e)
        {
          SearchMeansRelated(doc, reached, implicit, true, m.name, e);
        }
      }
    }

    /** One matcher for a list of them; a single one is used as it is. */
    static function ElementMatcher(ms: seq<Matcher>): Matcher
      requires |ms| > 0
    {
      if |ms| > 1 then All(ms) else ms[0]
    }

    /** What the loop of matcherFromTokens knows of its `matchers` after k tokens of the body. */
    ghost predicate Compiled(ctx: Context, tokens: seq<Token>, k: nat, ms: seq<Matcher>)
      requires WellFormed(doc) && k <= |Body(tokens)|
      reads this`table
    {
      && |ms| > 0
      && Shaped(ms[0]) && !ms[0].All? && Registered(table, ms[0])
      && (forall i :: 0 < i < |ms| ==> ms[i].Test?)
      && forall e: nat :: e < |doc.parent| ==>
           (Plain(doc, ElementMatcher(ms), e) <==> Reads(doc, ctx, tokens, k, e))
    }

    lemma PushedFilter(ctx: Context, tokens: seq<Token>, k: nat, ms: seq<Matcher>)
      requires WellFormed(doc) && k < |Body(tokens)| && Body(tokens)[k].Simple?
      requires Compiled(ctx, tokens, k, ms)
      ensures Compiled(ctx, tokens, k + 1, ms + [Test(Body(tokens)[k].test)])
    {
      var f := Body(tokens)[k].test;
      var ms' := ms + [Test(f)];
      forall e: nat | e < |doc.parent|
        ensures Plain(doc, ElementMatcher(ms'), e) <==> Reads(doc, ctx, tokens, k + 1, e)
      {
        assert Plain(doc, Test(f), e) <==> f(e);
        assert Plain(doc, All(ms'), e) <==> Plain(doc, ElementMatcher(ms), e) && f(e) by {
          assert ms'[|ms|] == Test(f);
          assert forall i :: 0 <= i < |ms| ==> ms'[i] == ms[i];
        }
      }
    }

    /** Compiles one selector, left to right, into the matcher that reads it right to left. */
    method MatcherFromTokens(ctx: Context, tokens: seq<Token>) returns (m: Matcher)
      requires Valid() && |tokens| > 0
      modifies this`done, this`table
      ensures Valid() && Shaped(m) && Registered(table, m)
      ensures Means(doc, ctx, tokens, m)
      ensures forall nm :: nm in old(table) ==> nm in table && table[nm] == old(table)[nm]
    {
      var base := ContextMatcher(ctx, tokens);
      var matchers := [base];
      var body := Body(tokens);
      var i := 0;
      while i < |body|
        invariant 0 <= i <= |body|
        invariant Valid()
        invariant Compiled(ctx, tokens, i, matchers)
        invariant forall nm :: nm in old(table) ==> nm in table && table[nm] == old(table)[nm]
      {
        match body[i] {
          case Relative(comb) =>
            var inner := ElementMatcher(matchers);
            var search := AddCombinator(inner, comb, false);
            forall e: nat | e < |doc.parent|
              ensures Plain(doc, search, e) <==> Reads(doc, ctx, tokens, i + 1, e)
            {
              ReadsOverSearch(doc, ctx, tokens, i, inner, search.name, e);
            }
            matchers := [search];
          case Simple(f) =>
            PushedFilter(ctx, tokens, i, matchers);
            matchers := matchers + [Test(f)];
        }
        i := i + 1;
      }
      m := ElementMatcher(matchers);
      forall e: nat | e < |doc.parent|
        ensures Plain(doc, m, e) <==> Selects(doc, ctx, tokens, e)
      {
        ReadsIffSelects(doc, ctx, tokens, e);
      }
    }

    /** The candidate loop of an outermost run over element matchers. */
    method Run(groups: seq<Matcher>, elems: seq<nat>, el: nat) returns (results: seq<nat>)
      requires Valid()
      requires forall j :: 0 <= j < |groups| ==> Shaped(groups[j]) && Registered(table, groups[j])
      requires forall e :: e in elems ==> e < |doc.parent|
      modifies this`expando, this`sizset, this`dirruns, this`cachedruns
      ensures Valid()
      ensures results == Filters.Filter(elems, (e: nat) => Accepted(doc, groups, e))
    {
      dirruns := dirruns + 1;
      cachedruns := el;
      results := [];
      ghost var p := (e: nat) => Accepted(doc, groups, e);
      var i := 0;
      while i < |elems|
        invariant 0 <= i <= |elems|
        invariant Valid() && Sound(|doc.parent|)
        invariant forall n :: 0 <= n < |expando| && expando[n].Key? && expando[n].dirrun == dirruns ==>
          expando[n].run < cachedruns
        invariant results == Filters.Filter(elems[..i], p)
      {
        var e := elems[i];
        assert e in elems;
        var matched := MatchAny(groups, e);
        if matched {
          results := results + [e];
        }
        assert elems[..i + 1][..i] == elems[..i];
        cachedruns := cachedruns + 1;
        i := i + 1;
      }
      assert elems[..i] == elems;
    }

    /** Tries the matchers of a group on one candidate until one accepts it. */
    method MatchAny(groups: seq<Matcher>, e: nat) returns (matched: bool)
      requires Valid() && e < |doc.parent| && Sound(|doc.parent|)
      requires forall j :: 0 <= j < |groups| ==> Shaped(groups[j]) && Registered(table, groups[j])
      requires forall n, nm :: 0 <= n < |doc.parent| ==> !Failed(nm, n)
      modifies this`expando, this`sizset
      ensures Valid() && Sound(|doc.parent|)
      ensures matched == Accepted(doc, groups, e)
      ensures OnlyMarks(table.Keys, |doc.parent|)
    {
      var j := 0;
      while j < |groups|
        invariant 0 <= j <= |groups|
        invariant Valid() && Sound(|doc.parent|)
        invariant DeadEnds(table.Keys, |doc.parent|) && OnlyMarks(table.Keys, |doc.parent|)
        invariant forall k :: 0 <= k < j ==> !Plain(doc, groups[k], e)
      {
        RegisteredNames(table, groups[j]);
        matched := Match(groups[j], e);
        if matched {
          return;
        }
        j := j + 1;
      }
      matched := false;
    }

    /** Compiles a group, last selector first. */
    method CompileGroup(ctx: Context, selectors: seq<seq<Token>>) returns (groups: seq<Matcher>)
      requires Valid() && forall j :: 0 <= j < |selectors| ==> |selectors[j]| > 0
      modifies this`done, this`table
      ensures Valid() && |groups| == |selectors| && CompiledGroup(doc, table, ctx, selectors, groups)
    {
      groups := [];
      var i := |selectors|;
      while i > 0
        invariant 0 <= i <= |selectors| && |groups| == |selectors| - i
        invariant Valid() && CompiledGroup(doc, table, ctx, selectors, groups)
      {
        i := i - 1;
        groups := CompileNext(ctx, selectors, groups);
      }
    }

    method CompileNext(ctx: Context, selectors: seq<seq<Token>>, groups: seq<Matcher>) returns (more: seq<Matcher>)
      requires Valid() && forall j :: 0 <= j < |selectors| ==> |selectors[j]| > 0
      requires CompiledGroup(doc, table, ctx, selectors, groups) && |groups| < |selectors|
      modifies this`done, this`table
      ensures Valid() && |more| == |groups| + 1 && CompiledGroup(doc, table, ctx, selectors, more)
    {
      ghost var before := table;
      var m := MatcherFromTokens(ctx, selectors[|selectors| - 1 - |groups|]);
      more := groups + [m];
      GroupGrows(doc, before, table, ctx, selectors, groups, m);
    }

    /** A whole query: the results are the candidates that some selector selects, in order. */
    method Query(ctx: Context, selectors: seq<seq<Token>>, elems: seq<nat>, el: nat) returns (results: seq<nat>)
      requires Valid() && forall j :: 0 <= j < |selectors| ==> |selectors[j]| > 0
      requires forall e :: e in elems ==> e < |doc.parent|
      modifies this
      ensures Valid()
      ensures results == Filters.Filter(elems, (e: nat) => Chosen(doc, ctx, selectors, e))
      ensures forall e :: e in results <==>
        e in elems && exists j :: 0 <= j < |selectors| && Selects(doc, ctx, selectors[j], e)
    {
      var groups := CompileGroup(ctx, selectors);
      forall j | 0 <= j < |groups|
        ensures Shaped(groups[j]) && Registered(table, groups[j])
        ensures Means(doc, ctx, selectors[|selectors| - 1 - j], groups[j])
      {
        assert CompiledAt(doc, table, ctx, selectors, j, groups[j]);
      }
      results := Run(groups, elems, el);
      forall e: nat
        ensures Accepted(doc, groups, e) == Chosen(doc, ctx, selectors, e)
      {
        if Accepted(doc, groups, e) {
          var j :| 0 <= j < |groups| && Plain(doc, groups[j], e);
          assert Means(doc, ctx, selectors[|selectors| - 1 - j], groups[j]);
        }
        if Chosen(doc, ctx, selectors, e) {
          var j :| 0 <= j < |selectors| && Selects(doc, ctx, selectors[j], e);
          assert Means(doc, ctx, selectors[j], groups[|selectors| - 1 - j]);
        }
      }
      Filters.FilterSame(elems, (e: nat) => Accepted(doc, groups, e), (e: nat) => Chosen(doc, ctx, selectors, e));
      forall e
        ensures e in results <==> e in elems && Chosen(doc, ctx, selectors, e)
      {
        Filters.FilterHas(elems, (e: nat) => Chosen(doc, ctx, selectors, e), e);
      }
    }
  }
}
