/**
 What a complex selector means (W3C Selectors Level 3, sections 8.1 to 8.3), independently of
 how it is searched for.
 */
module Selector {
  import opened Dom
  import opened Matcher

  /** The context argument of a query: the document, one other node, or several nodes. */
  datatype Context = WholeDocument(root: nat) | OneNode(node: nat) | ManyNodes(nodes: set<nat>) {
    function Nodes(): set<nat> {
      match this
      case WholeDocument(r) => {r}
      case OneNode(n) => {n}
      case ManyNodes(ns) => ns
    }
  }

  /** x is an ancestor of y, or an earlier sibling, that a combinator may stop at. */
  ghost predicate Precedes(d: Document, comb: Combinator, base: bool, x: nat, y: nat)
    requires WellFormed(d) && y < |d.parent|
  {
    && OnWalk(d, comb.Direction(), Step(d, comb.Direction(), y), x)
    && x < |d.parent|
    && Visible(d, comb, base, x)
  }

  /** The relation between x and y that "x comb y" asks for. */
  ghost predicate Related(d: Document, comb: Combinator, base: bool, x: nat, y: nat)
    requires WellFormed(d) && y < |d.parent|
  {
    match comb
    case Child => d.parent[y] == x && Visible(d, comb, base, x)
    case Adjacent =>
      // nodes that are not elements do not separate adjacent siblings
      Precedes(d, comb, base, x, y) && forall z: nat :: Precedes(d, comb, base, z, y) ==> z <= x
    case _ => Precedes(d, comb, base, x, y)
  }

  /** The tokens behind a leading combinator. */
  function Body(tokens: seq<Token>): seq<Token> {
    if |tokens| > 0 && tokens[0].Relative? then tokens[1..] else tokens
  }

  /** How the leftmost compound must be reachable from the context. */
  ghost predicate Anchored(d: Document, ctx: Context, tokens: seq<Token>, y: nat)
    requires WellFormed(d) && y < |d.parent|
  {
    if |tokens| > 0 && tokens[0].Relative? then
      exists c :: c in ctx.Nodes() && Related(d, tokens[0].comb, true, c, y)
    else
      ctx.WholeDocument? || exists c :: c in ctx.Nodes() && Related(d, Descendant, true, c, y)
  }

  /** Nodes a[0], ..., a[|ts|] witness the tokens: a filter keeps the node, a combinator relates two. */
  ghost predicate Witness(d: Document, ts: seq<Token>, a: seq<nat>)
    requires WellFormed(d)
  {
    && |a| == |ts| + 1
    && (forall i :: 0 <= i < |a| ==> a[i] < |d.parent|)
    && forall i :: 0 <= i < |ts| ==>
      match ts[i]
      case Simple(f) => a[i] == a[i + 1] && f(a[i])
      case Relative(comb) => Related(d, comb, false, a[i], a[i + 1])
  }

  /** Some assignment of nodes to the selector ends in e and starts within reach of the context. */
  ghost predicate Selects(d: Document, ctx: Context, tokens: seq<Token>, e: nat)
    requires WellFormed(d) && e < |d.parent|
  {
    exists a: seq<nat> ::
      Witness(d, Body(tokens), a) && a[|a| - 1] == e && Anchored(d, ctx, tokens, a[0])
  }

  /** Reads a selector from the right: what must hold of x for the first k tokens to end in x. */
  ghost predicate Reads(d: Document, ctx: Context, tokens: seq<Token>, k: nat, x: nat)
    requires WellFormed(d) && x < |d.parent| && k <= |Body(tokens)|
    decreases k
  {
    if k == 0 then Anchored(d, ctx, tokens, x)
    else
      match Body(tokens)[k - 1]
      case Simple(f) => f(x) && Reads(d, ctx, tokens, k - 1, x)
      case Relative(comb) =>
        exists y: nat :: y < |d.parent| && Related(d, comb, false, y, x) && Reads(d, ctx, tokens, k - 1, y)
  }

  ghost predicate Ends(d: Document, ctx: Context, tokens: seq<Token>, k: nat, x: nat, a: seq<nat>)
    requires WellFormed(d) && k <= |Body(tokens)|
  {
    Witness(d, Body(tokens)[..k], a) && a[|a| - 1] == x && Anchored(d, ctx, tokens, a[0])
  }

  lemma {:induction false} ReadsHasWitness(d: Document, ctx: Context, tokens: seq<Token>, k: nat, x: nat)
    returns (a: seq<nat>)
    requires WellFormed(d) && x < |d.parent| && k <= |Body(tokens)|
    requires Reads(d, ctx, tokens, k, x)
    ensures Ends(d, ctx, tokens, k, x, a)
    decreases k
  {
    if k == 0 {
      a := [x];
    } else {
      var y: nat := x;
      if Body(tokens)[k - 1].Relative? {
        y :| y < |d.parent| && Related(d, Body(tokens)[k - 1].comb, false, y, x) && Reads(d, ctx, tokens, k - 1, y);
      }
      var b := ReadsHasWitness(d, ctx, tokens, k - 1, y);
      a := b + [x];
      WitnessExtends(d, Body(tokens)[..k - 1], Body(tokens)[k - 1], b, x);
      assert Body(tokens)[..k] == Body(tokens)[..k - 1] + [Body(tokens)[k - 1]];
    }
  }

  lemma WitnessExtends(d: Document, ts: seq<Token>, t: Token, a: seq<nat>, x: nat)
    requires WellFormed(d) && x < |d.parent| && Witness(d, ts, a)
    requires match t
             case Simple(f) => a[|a| - 1] == x && f(x)
             case Relative(comb) => Related(d, comb, false, a[|a| - 1], x)
    ensures Witness(d, ts + [t], a + [x])
  {
  }

  lemma {:induction false} WitnessIsRead(d: Document, ctx: Context, tokens: seq<Token>, k: nat, x: nat, a: seq<nat>)
    requires WellFormed(d) && x < |d.parent| && k <= |Body(tokens)|
    requires Ends(d, ctx, tokens, k, x, a)
    ensures Reads(d, ctx, tokens, k, x)
    decreases k
  {
    if k == 0 {
    } else {
      var b := a[..k];
      assert Witness(d, Body(tokens)[..k - 1], b);
      WitnessIsRead(d, ctx, tokens, k - 1, a[k - 1], b);
      assert Body(tokens)[..k][k - 1] == Body(tokens)[k - 1];
    }
  }

  /** Reading from the right finds exactly the elements that some assignment selects. */
  lemma ReadsIffSelects(d: Document, ctx: Context, tokens: seq<Token>, e: nat)
    requires WellFormed(d) && e < |d.parent|
    ensures Reads(d, ctx, tokens, |Body(tokens)|, e) <==> Selects(d, ctx, tokens, e)
  {
    var n := |Body(tokens)|;
    assert Body(tokens)[..n] == Body(tokens);
    if Reads(d, ctx, tokens, n, e) {
      var a := ReadsHasWitness(d, ctx, tokens, n, e);
      assert Ends(d, ctx, tokens, n, e, a);
    }
    if Selects(d, ctx, tokens, e) {
      var a :| Witness(d, Body(tokens), a) && a[|a| - 1] == e && Anchored(d, ctx, tokens, a[0]);
      assert Ends(d, ctx, tokens, n, e, a);
      WitnessIsRead(d, ctx, tokens, n, e, a);
    }
  }
}
