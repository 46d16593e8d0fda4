/**
 The part of a DOM that Sizzle's combinators look at.

 Nodes are numbered in document order, so a parent or an earlier sibling always has a
 smaller number.  NONE stands for the `null` that ends a walk.
 */
module Dom {
  const NONE: int := -1

  datatype Document = Document(parent: seq<int>, prev: seq<int>, isElement: seq<bool>)

  /** The property of a node that a combinator follows. */
  datatype Dir = ParentNode | PreviousSibling

  ghost predicate WellFormed(d: Document) {
    && |d.parent| == |d.prev| == |d.isElement|
    && (forall n :: 0 <= n < |d.parent| ==> NONE <= d.parent[n] < n)
    && (forall n :: 0 <= n < |d.prev| ==> NONE <= d.prev[n] < n)
  }

  /** Only a document or a fragment, which are roots, has children without being an element. */
  ghost predicate OnlyRootsAreContainers(d: Document)
    requires WellFormed(d)
  {
    forall n :: 0 <= n < |d.parent| && d.parent[n] != NONE && !d.isElement[d.parent[n]] ==>
      d.parent[d.parent[n]] == NONE
  }

  function Step(d: Document, dir: Dir, n: int): (m: int)
    requires WellFormed(d) && 0 <= n < |d.parent|
    ensures NONE <= m < n
  {
    if dir.ParentNode? then d.parent[n] else d.prev[n]
  }

  /** Whether the walk of `dir` that starts at n (and includes n) passes x. */
  predicate OnWalk(d: Document, dir: Dir, n: int, x: int)
    requires WellFormed(d) && NONE <= n < |d.parent|
    decreases n + 1
  {
    n != NONE && (n == x || OnWalk(d, dir, Step(d, dir, n), x))
  }

  lemma {:induction false} OnWalkIsEarlier(d: Document, dir: Dir, n: int, x: int)
    requires WellFormed(d) && NONE <= n < |d.parent|
    requires OnWalk(d, dir, n, x)
    ensures 0 <= x <= n
    decreases n + 1
  {
    if n == x {
    } else {
      OnWalkIsEarlier(d, dir, Step(d, dir, n), x);
    }
  }
}
