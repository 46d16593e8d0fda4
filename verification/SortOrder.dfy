/** Sizzle's comparison of nodes without `compareDocumentPosition`. */
module SortOrder {
  import opened Wrappers
  import opened DocumentOrder

  /** Document order; nodes of different trees are ordered only if just one of them is a root. */
  function Order(a: Node, b: Node): int {
    if a == b then 0
    else if a.root == b.root then (if Before(a.path, b.path) then -1 else 1)
    else if a.path == [] && b.path != [] then -1
    else 1
  }

  /** Siblings, the first before the second. */
  predicate SiblingBefore(a: Node, b: Node) {
    && a.root == b.root && |a.path| == |b.path| > 0
    && a.path[..|a.path| - 1] == b.path[..|b.path| - 1]
    && a.path[|a.path| - 1] < b.path[|b.path| - 1]
  }

  function Ancestors(n: Node): seq<Node> {
    seq(|n.path|, (k: nat) requires k < |n.path| => Node(n.root, n.path[..k]))
  }

  // ---------- the order ----------

  /** Within one tree: a strict total order, namely that of a traversal. */
  lemma OrderIsDocumentOrder(forest: seq<Tree>, a: Node, b: Node)
    requires In(forest, a) && In(forest, b) && a.root == b.root
    ensures
      var visits := Preorder(forest[a.root]);
      exists i, j :: 0 <= i < |visits| && 0 <= j < |visits| && visits[i] == a.path && visits[j] == b.path &&
        (Order(a, b) < 0 <==> i < j) && (Order(a, b) == 0 <==> i == j) && (Order(a, b) > 0 <==> i > j)
  {
    var t := forest[a.root];
    VisitsAll(t, a.path);
    VisitsAll(t, b.path);
    var i :| 0 <= i < |Preorder(t)| && Preorder(t)[i] == a.path;
    var j :| 0 <= j < |Preorder(t)| && Preorder(t)[j] == b.path;
    BeforeIsPreorder(t, i, j);
  }

  /** The comparison is antisymmetric exactly within one tree, or between a root and a deeper node. */
  lemma AntisymmetricIff(a: Node, b: Node)
    ensures Order(a, b) == -Order(b, a) <==> a.root == b.root || (a.path == [] <==> b.path != [])
  {
    BeforeIsTotal(a.path, b.path);
  }

  lemma OrderIsTransitive(a: Node, b: Node, c: Node)
    requires a.root == b.root == c.root && Order(a, b) < 0 && Order(b, c) < 0
    ensures Order(a, c) < 0
  {
    BeforeIsTransitive(a.path, b.path, c.path);
    BeforeIsTotal(a.path, b.path);
  }

  // ---------- where two ancestor chains part ----------

  /** The ancestors at level i are the first to differ. */
  lemma ChainsPart(a: Node, b: Node, i: nat)
    requires i < |a.path| && i < |b.path| && Ancestors(a)[i] != Ancestors(b)[i]
    requires i > 0 ==> Ancestors(a)[i - 1] == Ancestors(b)[i - 1]
    ensures Order(a, b) == if SiblingBefore(Ancestors(a)[i], Ancestors(b)[i]) then -1 else 1
  {
    if i > 0 {
      var p, q := a.path[..i], b.path[..i];
      assert p == p[..i - 1] + [a.path[i - 1]] && q == q[..i - 1] + [b.path[i - 1]];
      assert p[..i - 1] == a.path[..i - 1] && q[..i - 1] == b.path[..i - 1];
      PartingDecides(a.path, b.path, i - 1);
    }
  }

  /** The chain of a ends first: a is an ancestor of b, or the sibling of one. */
  lemma ChainEnds(a: Node, b: Node)
    requires 0 < |a.path| < |b.path| && Ancestors(a)[|a.path| - 1] == Ancestors(b)[|a.path| - 1]
    ensures
      var other := Ancestors(b)[|a.path|];
      && Order(a, b) == (if a == other || SiblingBefore(a, other) then -1 else 1)
      && Order(b, a) == (if a == other || !SiblingBefore(other, a) then 1 else -1)
  {
    var n := |a.path|;
    var q := b.path[..n];
    assert a.path == a.path[..n - 1] + [a.path[n - 1]] && q == q[..n - 1] + [b.path[n - 1]];
    assert q[..n - 1] == b.path[..n - 1];
    if a.path == q {
      AncestorIsBefore(a.path, b.path);
      BeforeIsTotal(a.path, b.path);
    } else {
      PartingDecides(a.path, b.path, n - 1);
      PartingDecides(b.path, a.path, n - 1);
    }
  }

  /** Children of one node, or two roots. */
  lemma SiblingsDecide(a: Node, b: Node)
    requires ParentNode(a) == ParentNode(b) && a != b
    ensures Order(a, b) == if SiblingBefore(a, b) then -1 else 1
  {
    if a.path != [] {
      var n := |a.path|;
      assert a.path == a.path[..n - 1] + [a.path[n - 1]] && b.path == b.path[..n - 1] + [b.path[n - 1]];
      PartingDecides(a.path, b.path, n - 1);
    }
  }

  // ---------- the code ----------

  /** The number of children of a node's parent. */
  ghost function Siblings(forest: seq<Tree>, n: Node): nat
    requires In(forest, n) && n.path != []
  {
    ChildCount(forest[n.root], n.path)
  }

  ghost function ChildCount(t: Tree, p: Path): nat
    requires Has(t, p) && p != []
    decreases |p|
  {
    if |p| == 1 then |t.children| else ChildCount(t.children[p[0]], p[1..])
  }

  lemma WithinSiblings(forest: seq<Tree>, n: Node, k: nat)
    requires In(forest, n) && n.path != [] && In(forest, Sibling(n, k))
    ensures k < Siblings(forest, n)
  {
    WithinChildren(forest[n.root], n.path, k);
  }

  lemma {:induction false} WithinChildren(t: Tree, p: Path, k: nat)
    requires Has(t, p) && p != [] && Has(t, p[..|p| - 1] + [k])
    ensures k < ChildCount(t, p)
    decreases |p|
  {
    var q := p[..|p| - 1] + [k];
    if |p| <= 1 {
    } else {
      assert q[1..] == p[1..][..|p| - 2] + [k];
      WithinChildren(t.children[p[0]], p[1..], k);
    }
  }

  /** The walk over a's later siblings has come to the k-th child and has not met b. */
  ghost predicate Walking(forest: seq<Tree>, a: Node, b: Node, k: nat, cur: Option<Node>) {
    if a.path == [] then cur.None?
    else
      && k > a.path[|a.path| - 1]
      && cur == (if In(forest, Sibling(a, k)) then Some(Sibling(a, k)) else None)
      && forall j :: a.path[|a.path| - 1] < j < k ==> b != Sibling(a, j)
  }

  lemma WalkGoesOn(forest: seq<Tree>, a: Node, b: Node, k: nat, cur: Option<Node>)
    requires In(forest, a) && cur.Some? && Walking(forest, a, b, k, cur) && cur.value != b
    ensures Walking(forest, a, b, k + 1, NextSibling(forest, cur.value))
    ensures k < Siblings(forest, a)
  {
    WithinSiblings(forest, a, k);
    assert Sibling(cur.value, k + 1) == Sibling(a, k + 1);
  }

  /** A later sibling is not missed. */
  lemma WalkMeets(forest: seq<Tree>, a: Node, b: Node, k: nat)
    requires In(forest, a) && In(forest, b) && Walking(forest, a, b, k, None)
    ensures !SiblingBefore(a, b)
  {
    if SiblingBefore(a, b) {
      var last := b.path[|b.path| - 1];
      assert b == Sibling(a, last);
      if k <= last {
        EarlierChildExists(forest[a.root], a.path[..|a.path| - 1], k, last);
      }
      assert false;
    }
  }

  /** `ret` is the answer for a node and itself. */
  method SiblingCheck(forest: seq<Tree>, a: Node, b: Node, ret: int) returns (r: int)
    requires In(forest, a) && In(forest, b)
    ensures r == if a == b then ret else if SiblingBefore(a, b) then -1 else 1
  {
    if a == b {
      return ret;
    }
    var cur := NextSibling(forest, a);
    ghost var k := if a.path == [] then 0 else a.path[|a.path| - 1] + 1;
    while cur.Some?
      invariant Walking(forest, a, b, k, cur)
      decreases if a.path == [] then 0 else Siblings(forest, a) - k
    {
      if cur.value == b {
        return -1;
      }
      WalkGoesOn(forest, a, b, k, cur);
      cur := NextSibling(forest, cur.value);
      k := k + 1;
    }
    WalkMeets(forest, a, b, k);
    return 1;
  }

  /** The loop that collects the ancestors of a node, outermost first. */
  method Chain(n: Node) returns (chain: seq<Node>)
    ensures chain == Ancestors(n)
  {
    chain := [];
    var cur := ParentNode(n);
    ghost var k := |n.path|;
    while cur.Some?
      invariant 0 <= k <= |n.path| && chain == Ancestors(n)[k..]
      invariant cur == if k == 0 then None else Some(Node(n.root, n.path[..k - 1]))
      decreases k
    {
      assert n.path[..k - 1] == [] || n.path[..k - 1][..k - 2] == n.path[..k - 2];
      chain := [cur.value] + chain;
      cur := ParentNode(cur.value);
      k := k - 1;
    }
  }

  /** The comparator, but for its side effect on equal nodes. */
  method Compare(forest: seq<Tree>, a: Node, b: Node) returns (r: int)
    requires In(forest, a) && In(forest, b) && a != b
    ensures r == Order(a, b)
  {
    var aup, bup := ParentNode(a), ParentNode(b);
    if aup == bup {
      SiblingsDecide(a, b);
      r := SiblingCheck(forest, a, b, 0);
      return;
    } else if aup.None? {
      return -1;
    } else if bup.None? {
      return 1;
    }
    var ap := Chain(a);
    var bp := Chain(b);
    var i := 0;
    while i < |ap| && i < |bp|
      invariant 0 <= i <= |ap| && i <= |bp|
      invariant forall k :: 0 <= k < i ==> ap[k] == bp[k]
    {
      if ap[i] != bp[i] {
        AncestorExists(forest[a.root], a.path, i);
        AncestorExists(forest[b.root], b.path, i);
        ChainsPart(a, b, i);
        r := SiblingCheck(forest, ap[i], bp[i], 0);
        return;
      }
      i := i + 1;
    }
    assert ap[|ap| - 1] == aup.value && bp[|bp| - 1] == bup.value;
    assert i > 0 && ap[i - 1] == bp[i - 1];
    if i == |ap| {
      AncestorExists(forest[b.root], b.path, i);
      assert |a.path| < |b.path|;
      ChainEnds(a, b);
      r := SiblingCheck(forest, a, bp[i], -1);
    } else {
      AncestorExists(forest[a.root], a.path, i);
      ChainEnds(b, a);
      r := SiblingCheck(forest, ap[i], b, 1);
    }
  }

}
