/** What the combinators relate, from the links of the document alone, and what short selectors select. */
module Combinators {
  import opened Dom
  import opened Matcher
  import opened Selector

  /** A path that follows a link of each of its nodes but the last, at least once. */
  ghost predicate Follows(links: seq<int>, path: seq<nat>, y: nat, x: nat) {
    && |path| >= 2 && path[0] == y && path[|path| - 1] == x
    && forall i :: 0 <= i < |path| - 1 ==> path[i] < |links| && links[path[i]] == path[i + 1]
  }

  ghost predicate Reaches(links: seq<int>, y: nat, x: nat) {
    exists path :: Follows(links, path, y, x)
  }

  /** No node strictly between the ends of the path is an element. */
  ghost predicate SkipsNoElement(d: Document, path: seq<nat>) {
    forall i :: 0 < i < |path| - 1 && path[i] < |d.isElement| ==> !d.isElement[path[i]]
  }

  lemma {:induction false} WalkHasPath(d: Document, dir: Dir, links: seq<int>, y: nat, x: nat) returns (path: seq<nat>)
    requires WellFormed(d) && y < |d.parent| && links == (if dir.ParentNode? then d.parent else d.prev)
    requires OnWalk(d, dir, Step(d, dir, y), x)
    ensures Follows(links, path, y, x) && forall i :: 0 <= i < |path| - 1 ==> path[i] > path[i + 1]
    decreases y
  {
    var n := Step(d, dir, y);
    if n == x {
      path := [y, x];
    } else {
      var rest := WalkHasPath(d, dir, links, n, x);
      path := [y] + rest;
    }
  }

  lemma {:induction false} PathIsWalked(d: Document, dir: Dir, links: seq<int>, path: seq<nat>, y: nat, x: nat)
    requires WellFormed(d) && y < |d.parent| && links == (if dir.ParentNode? then d.parent else d.prev)
    requires Follows(links, path, y, x)
    ensures OnWalk(d, dir, Step(d, dir, y), x)
    decreases |path|
  {
    assert Step(d, dir, y) == path[1];
    if |path| == 2 {
    } else {
      assert Follows(links, path[1..], path[1], x);
      PathIsWalked(d, dir, links, path[1..], path[1], x);
    }
  }

  lemma WalkIsPath(d: Document, dir: Dir, links: seq<int>, y: nat, x: nat)
    requires WellFormed(d) && y < |d.parent| && links == (if dir.ParentNode? then d.parent else d.prev)
    ensures OnWalk(d, dir, Step(d, dir, y), x) <==> Reaches(links, y, x)
    ensures Reaches(links, y, x) ==> x < y
  {
    if OnWalk(d, dir, Step(d, dir, y), x) {
      var path := WalkHasPath(d, dir, links, y, x);
      OnWalkIsEarlier(d, dir, Step(d, dir, y), x);
    }
    forall path | Follows(links, path, y, x)
      ensures OnWalk(d, dir, Step(d, dir, y), x) && x < y
    {
      PathIsWalked(d, dir, links, path, y, x);
      OnWalkIsEarlier(d, dir, Step(d, dir, y), x);
    }
  }

  /** "x > y": x is the parent of y; only a leading combinator stops at a parent that is no element. */
  lemma ChildMeans(d: Document, base: bool, x: nat, y: nat)
    requires WellFormed(d) && x < |d.parent| && y < |d.parent|
    ensures Related(d, Child, base, x, y) <==> d.parent[y] == x && (d.isElement[x] || base)
  {
  }

  /** "x y": one or more parents up from y is x; only a leading combinator stops at a node that is no element. */
  lemma DescendantMeans(d: Document, base: bool, x: nat, y: nat)
    requires WellFormed(d) && x < |d.parent| && y < |d.parent|
    ensures Related(d, Descendant, base, x, y) <==> Reaches(d.parent, y, x) && (d.isElement[x] || base)
  {
    WalkIsPath(d, ParentNode, d.parent, y, x);
  }

  /** "x ~ y": one or more siblings back from y is the element x. */
  lemma SiblingMeans(d: Document, base: bool, x: nat, y: nat)
    requires WellFormed(d) && x < |d.parent| && y < |d.parent|
    ensures Related(d, Sibling, base, x, y) <==> Reaches(d.prev, y, x) && d.isElement[x]
  {
    WalkIsPath(d, PreviousSibling, d.prev, y, x);
  }

  /** "x + y": the element x is siblings back from y, with nothing but other kinds of nodes between them. */
  lemma AdjacentMeans(d: Document, base: bool, x: nat, y: nat)
    requires WellFormed(d) && x < |d.parent| && y < |d.parent|
    ensures Related(d, Adjacent, base, x, y) <==>
      d.isElement[x] && exists path :: Follows(d.prev, path, y, x) && SkipsNoElement(d, path)
  {
    if Related(d, Adjacent, base, x, y) {
      var path := WalkHasPath(d, PreviousSibling, d.prev, y, x);
      forall i | 0 < i < |path| - 1
        ensures !d.isElement[path[i]]
      {
        FrontOfPath(d.prev, path, y, x, i);
        PathDescends(path, i, |path| - 1);
        PathIsWalked(d, PreviousSibling, d.prev, path[..i + 1], y, path[i]);
        OnWalkIsEarlier(d, PreviousSibling, Step(d, PreviousSibling, y), path[i]);
        assert d.isElement[path[i]] ==> Precedes(d, Adjacent, base, path[i], y);
      }
    }
    forall path | d.isElement[x] && Follows(d.prev, path, y, x) && SkipsNoElement(d, path)
      ensures Related(d, Adjacent, base, x, y)
    {
      PathIsWalked(d, PreviousSibling, d.prev, path, y, x);
      forall z: nat | Precedes(d, Adjacent, base, z, y)
        ensures z <= x
      {
        FirstElementOnPath(d, path, y, x, z);
      }
    }
  }

  lemma FrontOfPath(links: seq<int>, path: seq<nat>, y: nat, x: nat, i: nat)
    requires Follows(links, path, y, x) && 0 < i < |path|
    ensures Follows(links, path[..i + 1], y, path[i])
  {
  }

  lemma {:induction false} PathDescends(path: seq<nat>, i: nat, j: nat)
    requires i < j < |path| && forall k :: 0 <= k < |path| - 1 ==> path[k] > path[k + 1]
    ensures path[i] > path[j]
    decreases j
  {
    if i + 1 == j {
    } else {
      PathDescends(path, i, j - 1);
    }
  }

  /** An element further on than the path's end is not met before it. */
  lemma {:induction false} FirstElementOnPath(d: Document, path: seq<nat>, y: nat, x: nat, z: nat)
    requires WellFormed(d) && y < |d.parent| && z < |d.parent| && d.isElement[z]
    requires Follows(d.prev, path, y, x) && SkipsNoElement(d, path)
    requires OnWalk(d, PreviousSibling, Step(d, PreviousSibling, y), z)
    ensures z <= x
    decreases |path|
  {
    if |path| == 2 || path[1] == z {
      OnWalkIsEarlier(d, PreviousSibling, Step(d, PreviousSibling, y), z);
    } else {
      var rest := path[1..];
      assert forall i :: 0 < i < |rest| - 1 ==> rest[i] == path[i + 1];
      FirstElementOnPath(d, rest, path[1], x, z);
    }
  }

  /** The element is below the context: anywhere in a whole document, or under the node, or one of the nodes. */
  ghost predicate Below(d: Document, ctx: Context, e: nat) {
    match ctx
    case WholeDocument(_) => true
    case OneNode(c) => Reaches(d.parent, e, c)
    case ManyNodes(cs) => exists c :: c in cs && Reaches(d.parent, e, c)
  }

  /** A single compound selects what it accepts below the context. */
  lemma CompoundMeans(d: Document, ctx: Context, f: Filter, e: nat)
    requires WellFormed(d) && e < |d.parent| && forall c :: c in ctx.Nodes() ==> c < |d.parent|
    ensures Selects(d, ctx, [Simple(f)], e) <==> f(e) && Below(d, ctx, e)
  {
    ReadsIffSelects(d, ctx, [Simple(f)], e);
    assert Reads(d, ctx, [Simple(f)], 1, e) <==> f(e) && Reads(d, ctx, [Simple(f)], 0, e);
    forall c | c in ctx.Nodes()
      ensures Related(d, Descendant, true, c, e) <==> Reaches(d.parent, e, c)
    {
      DescendantMeans(d, true, c, e);
    }
  }

  /** With a leading combinator, the element must be related to a context node by just that one. */
  lemma LeadingMeans(d: Document, ctx: Context, comb: Combinator, f: Filter, e: nat)
    requires WellFormed(d) && e < |d.parent|
    ensures Selects(d, ctx, [Relative(comb), Simple(f)], e) <==>
      f(e) && exists c :: c in ctx.Nodes() && Related(d, comb, true, c, e)
  {
    var tokens := [Relative(comb), Simple(f)];
    ReadsIffSelects(d, ctx, tokens, e);
    assert Body(tokens) == [Simple(f)];
    assert Reads(d, ctx, tokens, 1, e) <==> f(e) && Reads(d, ctx, tokens, 0, e);
  }

  /** Two compounds select an element exactly if the right one accepts it, and the left one a related node. */
  lemma PairMeans(d: Document, root: nat, f: Filter, comb: Combinator, g: Filter, e: nat)
    requires WellFormed(d) && e < |d.parent|
    ensures Selects(d, WholeDocument(root), [Simple(f), Relative(comb), Simple(g)], e) <==>
      g(e) && exists x: nat :: x < |d.parent| && f(x) && Related(d, comb, false, x, e)
  {
    var tokens, ctx := [Simple(f), Relative(comb), Simple(g)], WholeDocument(root);
    ReadsIffSelects(d, ctx, tokens, e);
    assert Reads(d, ctx, tokens, 3, e) <==> g(e) && Reads(d, ctx, tokens, 2, e);
    forall x: nat | x < |d.parent|
      ensures Reads(d, ctx, tokens, 1, x) <==> f(x)
    {
      assert Reads(d, ctx, tokens, 0, x);
    }
  }

  /** In root > div > p, `div p` selects p, and `div ~ p` does not. */
  lemma ParagraphInDiv(div: Filter, p: Filter)
    requires div(1) && p(2)
    ensures
      var d := Document([NONE, 0, 1], [NONE, NONE, NONE], [false, true, true]);
      && WellFormed(d)
      && Selects(d, WholeDocument(0), [Simple(div), Relative(Descendant), Simple(p)], 2)
      && !Selects(d, WholeDocument(0), [Simple(div), Relative(Sibling), Simple(p)], 2)
  {
    var d := Document([NONE, 0, 1], [NONE, NONE, NONE], [false, true, true]);
    PairMeans(d, 0, div, Descendant, p, 2);
    PairMeans(d, 0, div, Sibling, p, 2);
    assert Follows(d.parent, [2, 1], 2, 1);
    DescendantMeans(d, false, 1, 2);
    forall x: nat | x < 3
      ensures !Related(d, Sibling, false, x, 2)
    {
      SiblingMeans(d, false, x, 2);
    }
  }
}
