/** Trees of nodes, the links between nodes, and document order as the order of a traversal. */
module DocumentOrder {
  import opened Wrappers

  datatype Tree = Tree(children: seq<Tree>)

  /** The way from the root to a node, by child index. */
  type Path = seq<nat>

  predicate Has(t: Tree, p: Path)
    decreases |p|
  {
    p == [] || (p[0] < |t.children| && Has(t.children[p[0]], p[1..]))
  }

  /** The nodes of a tree as a depth-first traversal visits them. */
  function Preorder(t: Tree): seq<Path>
    decreases t, |t.children| + 1
  {
    [[]] + ChildrenFrom(t, 0)
  }

  function ChildrenFrom(t: Tree, i: nat): seq<Path>
    requires i <= |t.children|
    decreases t, |t.children| - i
  {
    if i == |t.children| then [] else Under(i, Preorder(t.children[i])) + ChildrenFrom(t, i + 1)
  }

  function Under(i: nat, paths: seq<Path>): seq<Path> {
    seq(|paths|, (k: nat) requires k < |paths| => [i] + paths[k])
  }

  /** An ancestor comes before its descendants, and an earlier sibling's subtree before a later one's. */
  predicate Before(p: Path, q: Path)
    decreases |p|
  {
    q != [] && (p == [] || p[0] < q[0] || (p[0] == q[0] && Before(p[1..], q[1..])))
  }

  ghost predicate Ascending(paths: seq<Path>) {
    forall i, j :: 0 <= i < j < |paths| ==> Before(paths[i], paths[j])
  }

  // ---------- Before is a strict total order ----------

  lemma {:induction false} BeforeIsTotal(p: Path, q: Path)
    ensures !(Before(p, q) && Before(q, p)) && !Before(p, p)
    ensures p == q || Before(p, q) || Before(q, p)
    decreases |p|
  {
    if p == [] {
    } else {
      BeforeIsTotal(p[1..], p[1..]);
      if q != [] && p[0] == q[0] {
        BeforeIsTotal(p[1..], q[1..]);
        assert p == [p[0]] + p[1..] && q == [q[0]] + q[1..];
      }
    }
  }

  lemma {:induction false} BeforeIsTransitive(p: Path, q: Path, r: Path)
    requires Before(p, q) && Before(q, r)
    ensures Before(p, r)
    decreases |p|
  {
    if p == [] || !(p[0] == q[0] == r[0]) {
    } else {
      BeforeIsTransitive(p[1..], q[1..], r[1..]);
    }
  }

  // ---------- Before is the order of the traversal ----------

  lemma {:induction false} VisitsAll(t: Tree, p: Path)
    ensures p in Preorder(t) <==> Has(t, p)
    decreases t, |t.children| + 1
  {
    if p == [] {
      assert Preorder(t)[0] == [];
    } else {
      ChildrenVisitAll(t, 0, p);
      assert p in Preorder(t) <==> p in ChildrenFrom(t, 0);
    }
  }

  lemma {:induction false} ChildrenVisitAll(t: Tree, i: nat, p: Path)
    requires i <= |t.children| && p != []
    ensures p in ChildrenFrom(t, i) <==> i <= p[0] && Has(t, p)
    ensures [] !in ChildrenFrom(t, i)
    decreases t, |t.children| - i
  {
    if i == |t.children| {
    } else {
      var first := Preorder(t.children[i]);
      VisitsAll(t.children[i], p[1..]);
      ChildrenVisitAll(t, i + 1, p);
      if p[0] == i && p[1..] in first {
        var k :| 0 <= k < |first| && first[k] == p[1..];
        assert p == [p[0]] + p[1..] == Under(i, first)[k];
      }
      if p in Under(i, first) {
        var k :| 0 <= k < |first| && Under(i, first)[k] == p;
        assert p[1..] == first[k];
      }
    }
  }

  lemma {:induction false} ChildrenStartAt(t: Tree, i: nat, p: Path)
    requires i <= |t.children| && p in ChildrenFrom(t, i)
    ensures p != [] && p[0] >= i
  {
    ChildrenVisitAll(t, i, if p == [] then [0] else p);
  }

  lemma {:induction false} VisitsAscending(t: Tree)
    ensures Ascending(Preorder(t))
    decreases t, |t.children| + 1
  {
    ChildrenVisitAscending(t, 0);
    var rest := ChildrenFrom(t, 0);
    forall j | 0 <= j < |rest|
      ensures Before([], rest[j])
    {
      ChildrenStartAt(t, 0, rest[j]);
    }
  }

  lemma {:induction false} ChildrenVisitAscending(t: Tree, i: nat)
    requires i <= |t.children|
    ensures Ascending(ChildrenFrom(t, i))
    decreases t, |t.children| - i
  {
    if i == |t.children| {
    } else {
      var first := Preorder(t.children[i]);
      var rest := ChildrenFrom(t, i + 1);
      VisitsAscending(t.children[i]);
      ChildrenVisitAscending(t, i + 1);
      forall j, k | 0 <= j < k < |first|
        ensures Before(Under(i, first)[j], Under(i, first)[k])
      {
        assert Under(i, first)[j][1..] == first[j] && Under(i, first)[k][1..] == first[k];
      }
      forall j, k | 0 <= j < |first| && 0 <= k < |rest|
        ensures Before(Under(i, first)[j], rest[k])
      {
        ChildrenStartAt(t, i + 1, rest[k]);
      }
    }
  }

  /** Every node is visited once, and Before compares the moments of the visits. */
  lemma BeforeIsPreorder(t: Tree, i: nat, j: nat)
    requires i < |Preorder(t)| && j < |Preorder(t)|
    ensures Has(t, Preorder(t)[i])
    ensures Before(Preorder(t)[i], Preorder(t)[j]) <==> i < j
    ensures Preorder(t)[i] == Preorder(t)[j] <==> i == j
  {
    var p, q := Preorder(t)[i], Preorder(t)[j];
    VisitsAll(t, p);
    VisitsAscending(t);
    BeforeIsTotal(p, q);
    BeforeIsTotal(q, q);
  }

  // ---------- where two paths part ----------

  lemma {:induction false} PartingDecides(p: Path, q: Path, i: nat)
    requires i < |p| && i < |q| && p[..i] == q[..i] && p[i] != q[i]
    ensures Before(p, q) <==> p[i] < q[i]
  {
    if i == 0 {
    } else {
      assert p[0] == p[..i][0] == q[..i][0] == q[0];
      assert p[1..][..i - 1] == p[..i][1..] == q[..i][1..] == q[1..][..i - 1];
      PartingDecides(p[1..], q[1..], i - 1);
    }
  }

  lemma {:induction false} AncestorIsBefore(p: Path, q: Path)
    requires p < q
    ensures Before(p, q)
  {
    if p == [] {
    } else {
      assert p[1..] < q[1..];
      AncestorIsBefore(p[1..], q[1..]);
    }
  }

  // ---------- nodes of a forest, and their links ----------

  /** A node: the number of its tree and its path there. */
  datatype Node = Node(root: nat, path: Path)

  predicate In(forest: seq<Tree>, n: Node) {
    n.root < |forest| && Has(forest[n.root], n.path)
  }

  function ParentNode(n: Node): Option<Node> {
    if n.path == [] then None else Some(Node(n.root, n.path[..|n.path| - 1]))
  }

  function Sibling(n: Node, k: nat): Node
    requires n.path != []
  {
    Node(n.root, n.path[..|n.path| - 1] + [k])
  }

  function NextSibling(forest: seq<Tree>, n: Node): Option<Node> {
    if n.path == [] then None
    else
      var next := Sibling(n, n.path[|n.path| - 1] + 1);
      if In(forest, next) then Some(next) else None
  }

  lemma {:induction false} EarlierChildExists(t: Tree, init: Path, j: nat, k: nat)
    requires Has(t, init + [k]) && j <= k
    ensures Has(t, init + [j])
  {
    if init == [] {
    } else {
      assert (init + [k])[1..] == init[1..] + [k] && (init + [j])[1..] == init[1..] + [j];
      EarlierChildExists(t.children[init[0]], init[1..], j, k);
    }
  }

  lemma {:induction false} AncestorExists(t: Tree, p: Path, k: nat)
    requires Has(t, p) && k <= |p|
    ensures Has(t, p[..k])
    decreases |p|
  {
    if k == 0 {
    } else {
      assert p[..k][1..] == p[1..][..k - 1];
      AncestorExists(t.children[p[0]], p[1..], k - 1);
    }
  }
}
