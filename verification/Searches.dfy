/** What a single search finds, and that it finds what the meaning of a selector asks for. */
module Searches {
  import opened Dom
  import opened Matcher
  import opened Selector

  /** The visible node that a walk meets first. */
  ghost predicate Closest(d: Document, comb: Combinator, base: bool, n: int, x: nat)
    requires WellFormed(d) && NONE <= n < |d.parent|
  {
    && OnWalk(d, comb.Direction(), n, x) && x < |d.parent| && Visible(d, comb, base, x)
    && forall z: nat :: z < |d.parent| && OnWalk(d, comb.Direction(), n, z) && Visible(d, comb, base, z) ==> z <= x
  }

  /** A search that may go on finds the inner matcher's nodes anywhere on the walk. */
  lemma {:induction false} FoundAnywhere(d: Document, inner: Matcher, comb: Combinator, base: bool, n: int)
    requires WellFormed(d) && NONE <= n < |d.parent| && !comb.First()
    ensures Found(d, inner, comb, base, n) <==>
      exists x: nat ::
        x < |d.parent| && OnWalk(d, comb.Direction(), n, x) && Visible(d, comb, base, x) && Plain(d, inner, x)
    decreases n + 1
  {
    if n == NONE {
    } else {
      FoundAnywhere(d, inner, comb, base, Step(d, comb.Direction(), n));
    }
  }

  /** A search for the closest node only ever asks about that one. */
  lemma {:induction false} FoundClosest(d: Document, inner: Matcher, comb: Combinator, base: bool, n: int)
    requires WellFormed(d) && NONE <= n < |d.parent| && comb.First()
    ensures Found(d, inner, comb, base, n) <==> exists x: nat :: Closest(d, comb, base, n, x) && Plain(d, inner, x)
    decreases n + 1
  {
    if n == NONE {
    } else {
      var next := Step(d, comb.Direction(), n);
      if Visible(d, comb, base, n) {
        forall z: nat | z < |d.parent| && OnWalk(d, comb.Direction(), n, z)
          ensures z <= n
        {
          OnWalkIsEarlier(d, comb.Direction(), n, z);
        }
        assert Closest(d, comb, base, n, n);
      } else {
        FoundClosest(d, inner, comb, base, next);
        assert forall x: nat :: Closest(d, comb, base, n, x) <==> Closest(d, comb, base, next, x);
      }
    }
  }

  /** The closest visible ancestor can only be the parent. */
  lemma ClosestIsParent(d: Document, base: bool, y: nat, x: nat)
    requires WellFormed(d) && OnlyRootsAreContainers(d) && y < |d.parent|
    ensures Closest(d, Child, base, d.parent[y], x) <==> Related(d, Child, base, x, y)
  {
    var p := d.parent[y];
    if Closest(d, Child, base, p, x) {
      OnWalkIsEarlier(d, ParentNode, p, x);
      if Visible(d, Child, base, p) {
        assert OnWalk(d, Child.Direction(), p, p);
      } else {
        assert Step(d, ParentNode, p) == NONE && !OnWalk(d, ParentNode, NONE, x);
      }
      assert x == p;
    }
    if Related(d, Child, base, x, y) {
      assert OnWalk(d, Child.Direction(), p, x);
      forall z: nat | z < |d.parent| && OnWalk(d, Child.Direction(), p, z) && Visible(d, Child, base, z)
        ensures z <= x
      {
        OnWalkIsEarlier(d, ParentNode, p, z);
      }
    }
  }

  /** The closest element on the walk of earlier siblings is the adjacent one. */
  lemma ClosestIsAdjacent(d: Document, base: bool, y: nat, x: nat)
    requires WellFormed(d) && y < |d.parent|
    ensures Closest(d, Adjacent, base, Step(d, PreviousSibling, y), x) <==> Related(d, Adjacent, base, x, y)
  {
    var n := Step(d, PreviousSibling, y);
    assert Adjacent.Direction() == PreviousSibling;
    forall z: nat
      ensures Precedes(d, Adjacent, base, z, y) <==>
              z < |d.parent| && OnWalk(d, PreviousSibling, n, z) && Visible(d, Adjacent, base, z)
    {
    }
  }

  /** A search succeeds exactly when the inner matcher accepts a related node. */
  lemma SearchMeansRelated(d: Document, inner: Matcher, comb: Combinator, base: bool, name: nat, y: nat)
    requires WellFormed(d) && OnlyRootsAreContainers(d) && y < |d.parent|
    ensures Plain(d, Search(inner, comb, base, name), y) <==>
      exists x: nat :: x < |d.parent| && Related(d, comb, base, x, y) && Plain(d, inner, x)
  {
    var n := Step(d, comb.Direction(), y);
    if comb.First() {
      FoundClosest(d, inner, comb, base, n);
      if comb.Child? {
        forall x: nat
          ensures Closest(d, comb, base, n, x) <==> Related(d, comb, base, x, y)
        {
          ClosestIsParent(d, base, y, x);
        }
      } else {
        forall x: nat
          ensures Closest(d, comb, base, n, x) <==> Related(d, comb, base, x, y)
        {
          ClosestIsAdjacent(d, base, y, x);
        }
      }
    } else {
      FoundAnywhere(d, inner, comb, base, n);
    }
  }

  /** A matcher that reads the first k tokens, searched for along the next combinator, reads one more. */
  lemma {:induction false} ReadsOverSearch(
      d: Document, ctx: Context, tokens: seq<Token>, k: nat, inner: Matcher, name: nat, e: nat)
    requires WellFormed(d) && OnlyRootsAreContainers(d) && e < |d.parent|
    requires k < |Body(tokens)| && Body(tokens)[k].Relative?
    requires forall x: nat :: x < |d.parent| ==> (Plain(d, inner, x) <==> Reads(d, ctx, tokens, k, x))
    ensures Plain(d, Search(inner, Body(tokens)[k].comb, false, name), e) <==> Reads(d, ctx, tokens, k + 1, e)
  {
    SearchMeansRelated(d, inner, Body(tokens)[k].comb, false, name, e);
  }
}
