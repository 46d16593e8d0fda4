/** Sizzle's sorting of results and removal of duplicates. */
module UniqueSort {
  import opened DocumentOrder
  import opened SortOrder

  // ---------- insertion sort with the comparator ----------

  /** The list with x moved left over everything that compares as greater. */
  function Inserted(s: seq<Node>, x: Node): (r: seq<Node>)
    ensures |r| == |s| + 1
  {
    if s == [] then [x]
    else if Order(s[|s| - 1], x) <= 0 then s + [x]
    else Inserted(s[..|s| - 1], x) + [s[|s| - 1]]
  }

  /** Whether that move ends at x itself, where the comparator notes a duplicate. */
  predicate Meets(s: seq<Node>, x: Node) {
    s != [] && (Order(s[|s| - 1], x) == 0 || (Order(s[|s| - 1], x) > 0 && Meets(s[..|s| - 1], x)))
  }

  function InsertionSorted(s: seq<Node>): (r: seq<Node>)
    ensures |r| == |s|
  {
    if s == [] then [] else Inserted(InsertionSorted(s[..|s| - 1]), s[|s| - 1])
  }

  /** x may stand before y: in one tree document order, and roots before deeper nodes. */
  predicate Fits(x: Node, y: Node) {
    if x.root == y.root then x == y || Before(x.path, y.path)
    else y.path == [] ==> x.path == []
  }

  ghost predicate Ordered(s: seq<Node>) {
    forall i, j :: 0 <= i < j < |s| ==> Fits(s[i], s[j])
  }

  /** Equal nodes are next to each other. */
  ghost predicate Grouped(s: seq<Node>) {
    forall k :: 0 < k < |s| && s[k] in s[..k] ==> s[k - 1] == s[k]
  }

  lemma FitsUpTo(y: Node, last: Node, x: Node)
    requires Fits(y, last) && Order(last, x) <= 0
    ensures Fits(y, x)
  {
    BeforeIsTotal(y.path, x.path);
    if y.root == last.root == x.root && y != last && last != x {
      BeforeIsTransitive(y.path, last.path, x.path);
    }
  }

  lemma GreaterFits(last: Node, x: Node)
    requires Order(last, x) > 0
    ensures Fits(x, last)
  {
    BeforeIsTotal(last.path, x.path);
  }

  lemma FitsBothWays(x: Node, y: Node)
    requires Fits(x, y) && Order(y, x) <= 0
    ensures x == y
  {
    BeforeIsTotal(x.path, y.path);
  }

  lemma {:induction false} InsertedHas(s: seq<Node>, x: Node)
    ensures multiset(Inserted(s, x)) == multiset(s) + multiset{x}
  {
    if s == [] || Order(s[|s| - 1], x) <= 0 {
    } else {
      InsertedHas(s[..|s| - 1], x);
      assert s == s[..|s| - 1] + [s[|s| - 1]];
    }
  }

  lemma {:induction false} InsertedOrdered(s: seq<Node>, x: Node)
    requires Ordered(s)
    ensures Ordered(Inserted(s, x))
  {
    if s == [] {
    } else {
      var last, init := s[|s| - 1], s[..|s| - 1];
      if Order(last, x) <= 0 {
        forall i | 0 <= i < |s|
          ensures Fits(s[i], x)
        {
          FitsUpTo(s[i], last, x);
        }
      } else {
        InsertedOrdered(init, x);
        InsertedHas(init, x);
        var r := Inserted(init, x);
        forall i | 0 <= i < |r|
          ensures Fits(r[i], last)
        {
          assert r[i] in multiset(r);
          GreaterFits(last, x);
        }
      }
    }
  }

  /** The last entry meets x exactly if x is in the list. */
  lemma {:induction false} MeetsIffIn(s: seq<Node>, x: Node)
    requires Ordered(s)
    ensures Meets(s, x) <==> x in s
  {
    if s == [] {
    } else {
      var last, init := s[|s| - 1], s[..|s| - 1];
      assert x in s <==> x in init || x == last;
      if Order(last, x) > 0 {
        MeetsIffIn(init, x);
      } else {
        forall i | 0 <= i < |init|
          ensures init[i] == x ==> last == x
        {
          if init[i] == x {
            FitsBothWays(s[i], last);
          }
        }
      }
    }
  }

  lemma {:induction false} InsertedGrouped(s: seq<Node>, x: Node)
    requires Ordered(s) && Grouped(s)
    ensures Grouped(Inserted(s, x))
  {
    if s == [] {
    } else {
      var n := |s| - 1;
      var last, init := s[n], s[..n];
      if Order(last, x) <= 0 {
        MeetsIffIn(s, x);
        var r := s + [x];
        forall k | 0 < k < |r| && r[k] in r[..k]
          ensures r[k - 1] == r[k]
        {
          assert r[..k] == s[..k];
        }
      } else {
        forall k | 0 < k < |init| && init[k] in init[..k]
          ensures init[k - 1] == init[k]
        {
          assert init[..k] == s[..k];
        }
        InsertedGrouped(init, x);
        InsertedHas(init, x);
        PushedGrouped(s, x);
      }
    }
  }

  lemma PushedGrouped(s: seq<Node>, x: Node)
    requires s != [] && Grouped(s) && Order(s[|s| - 1], x) > 0
    requires Grouped(Inserted(s[..|s| - 1], x))
    ensures Grouped(Inserted(s, x))
  {
    var n := |s| - 1;
    var last, init := s[n], s[..n];
    var q := Inserted(init, x);
    InsertedHas(init, x);
    var r := q + [last];
    forall k | 0 < k < |r| && r[k] in r[..k]
      ensures r[k - 1] == r[k]
    {
      assert r[..k] == q[..k];
      if k == |q| {
        assert last in multiset(q);
        assert last in init;
        assert s[n - 1] == last;
      }
    }
  }

  ghost predicate HasRepeats(s: seq<Node>) {
    exists i, j :: 0 <= i < j < |s| && s[i] == s[j]
  }

  lemma {:induction false} SortedFine(s: seq<Node>)
    ensures Ordered(InsertionSorted(s)) && Grouped(InsertionSorted(s))
    ensures multiset(InsertionSorted(s)) == multiset(s)
  {
    if s == [] {
    } else {
      var init, x := s[..|s| - 1], s[|s| - 1];
      SortedFine(init);
      assert s == init + [x];
      InsertedOrdered(InsertionSorted(init), x);
      InsertedGrouped(InsertionSorted(init), x);
      InsertedHas(InsertionSorted(init), x);
    }
  }

  // ---------- the removal of duplicates ----------

  predicate IsRepeat(s: seq<Node>, k: nat)
    requires k < |s|
  {
    k > 0 && s[k] == s[k - 1]
  }

  /** What is left of s[m..] without the entries equal to their left neighbour. */
  function Thinned(s: seq<Node>, m: nat): seq<Node>
    requires m <= |s|
    decreases |s| - m
  {
    if m == |s| then [] else (if IsRepeat(s, m) then [] else [s[m]]) + Thinned(s, m + 1)
  }

  lemma {:induction false} NothingToThin(s: seq<Node>, d: nat, m: nat)
    requires d <= m <= |s| && forall k :: d <= k < m ==> !IsRepeat(s, k)
    ensures Thinned(s, d) == s[d..m] + Thinned(s, m)
    decreases m - d
  {
    if d == m {
      assert s[d..m] == [];
    } else {
      NothingToThin(s, d + 1, m);
      var head, tail, rest := [s[d]], s[d + 1..m], Thinned(s, m);
      assert s[d..m] == head + tail;
      calc {
        Thinned(s, d);
        head + (tail + rest);
        (head + tail) + rest;
      }
    }
  }

  lemma {:induction false} ThinnedComesFrom(s: seq<Node>, m: nat, e: Node) returns (k: nat)
    requires m <= |s| && e in Thinned(s, m)
    ensures m <= k < |s| && s[k] == e && !IsRepeat(s, k)
    decreases |s| - m
  {
    if !IsRepeat(s, m) && s[m] == e {
      k := m;
    } else {
      k := ThinnedComesFrom(s, m + 1, e);
    }
  }

  lemma {:induction false} ThinnedKeeps(s: seq<Node>, m: nat, k: nat)
    requires m <= k < |s|
    ensures s[k] in Thinned(s, m) || (m > 0 && s[m - 1] == s[k])
    decreases |s| - m
  {
    if k <= m {
    } else {
      ThinnedKeeps(s, m + 1, k);
    }
  }

  lemma UnlessRepeat(s: seq<Node>, m: nat, k: nat)
    requires m < k < |s| && Grouped(s) && !IsRepeat(s, k)
    ensures s[k] != s[m]
  {
    assert s[..k][m] == s[m];
  }

  lemma {:induction false} ThinnedOrdered(s: seq<Node>, m: nat)
    requires m <= |s| && Ordered(s) && Grouped(s)
    ensures Ordered(Thinned(s, m)) && !HasRepeats(Thinned(s, m))
    decreases |s| - m
  {
    if m == |s| {
    } else {
      ThinnedOrdered(s, m + 1);
      var rest := Thinned(s, m + 1);
      if !IsRepeat(s, m) {
        forall j | 0 <= j < |rest|
          ensures Fits(s[m], rest[j]) && s[m] != rest[j]
        {
          var k := ThinnedComesFrom(s, m + 1, rest[j]);
          UnlessRepeat(s, m, k);
        }
      }
    }
  }

  lemma {:induction false} ThinnedSame(s: seq<Node>)
    requires !HasRepeats(s)
    ensures Thinned(s, 0) == s
  {
    NothingToThin(s, 0, |s|);
    assert s[0..|s|] == s;
  }

  // ---------- the result ----------

  /** No node twice, and the nodes of each tree in document order. */
  ghost predicate IsUniqueSorted(s: seq<Node>) {
    forall i, j :: 0 <= i < j < |s| ==> s[i] != s[j] && (s[i].root == s[j].root ==> Before(s[i].path, s[j].path))
  }

  ghost predicate SameNodes(s: seq<Node>, t: seq<Node>) {
    forall n :: n in s <==> n in t
  }

  lemma ThinnedIsResult(given: seq<Node>, sorted: seq<Node>)
    requires Ordered(sorted) && Grouped(sorted) && multiset(sorted) == multiset(given)
    ensures IsUniqueSorted(Thinned(sorted, 0)) && SameNodes(Thinned(sorted, 0), given)
  {
    ThinnedOrdered(sorted, 0);
    var r := Thinned(sorted, 0);
    forall i, j | 0 <= i < j < |r|
      ensures r[i] != r[j] && (r[i].root == r[j].root ==> Before(r[i].path, r[j].path))
    {
      assert Fits(r[i], r[j]);
    }
    forall n | n in r
      ensures n in given
    {
      var k := ThinnedComesFrom(sorted, 0, n);
      assert n in multiset(sorted);
    }
    forall n | n in given
      ensures n in r
    {
      assert n in multiset(given);
      var k :| 0 <= k < |sorted| && sorted[k] == n;
      ThinnedKeeps(sorted, 0, k);
    }
  }

  /** The nodes of a tree that are in a list, as a traversal meets them. */
  function Listed(visits: seq<Path>, root: nat, nodes: seq<Node>): seq<Node> {
    if visits == [] then []
    else (if Node(root, visits[0]) in nodes then [Node(root, visits[0])] else []) + Listed(visits[1..], root, nodes)
  }

  lemma {:induction false} ListedHas(visits: seq<Path>, root: nat, nodes: seq<Node>, n: Node)
    ensures n in Listed(visits, root, nodes) <==> n.root == root && n.path in visits && n in nodes
  {
    if visits == [] {
    } else {
      ListedHas(visits[1..], root, nodes, n);
      assert n.path in visits <==> n.path == visits[0] || n.path in visits[1..];
    }
  }

  lemma {:induction false} ListedAscends(visits: seq<Path>, root: nat, nodes: seq<Node>)
    requires Ascending(visits)
    ensures IsUniqueSorted(Listed(visits, root, nodes))
  {
    if visits == [] {
    } else {
      ListedAscends(visits[1..], root, nodes);
      var rest := Listed(visits[1..], root, nodes);
      forall j | 0 <= j < |rest|
        ensures rest[j].root == root && Before(visits[0], rest[j].path) && rest[j].path != visits[0]
      {
        ListedHas(visits[1..], root, nodes, rest[j]);
        var k :| 0 <= k < |visits[1..]| && visits[1..][k] == rest[j].path;
        assert Before(visits[0], visits[k + 1]);
        BeforeIsTotal(visits[0], visits[0]);
      }
    }
  }

  lemma {:induction false} SortedOnce(s: seq<Node>, t: seq<Node>)
    requires IsUniqueSorted(s) && IsUniqueSorted(t) && SameNodes(s, t)
    requires forall a, b :: a in s && b in s ==> a.root == b.root
    ensures s == t
  {
    assert s != [] ==> s[0] in t;
    assert t != [] ==> t[0] in s;
    if s == [] {
    } else {
      var i :| 0 <= i < |t| && t[i] == s[0];
      var j :| 0 <= j < |s| && s[j] == t[0];
      BeforeIsTotal(s[0].path, t[0].path);
      assert s[0] == t[0];
      forall n
        ensures n in s[1..] <==> n in t[1..]
      {
        assert n in s <==> n == s[0] || n in s[1..];
        assert n in t <==> n == t[0] || n in t[1..];
      }
      SortedOnce(s[1..], t[1..]);
    }
  }

  /** Within one tree the result is the traversal of that tree, cut down to the given nodes. */
  lemma OneTreeInDocumentOrder(forest: seq<Tree>, root: nat, given: seq<Node>, r: seq<Node>)
    requires forall n :: n in given ==> In(forest, n) && n.root == root
    requires root < |forest| && IsUniqueSorted(r) && SameNodes(r, given)
    ensures r == Listed(Preorder(forest[root]), root, given)
  {
    var visits := Preorder(forest[root]);
    VisitsAscending(forest[root]);
    ListedAscends(visits, root, given);
    forall n
      ensures n in Listed(visits, root, given) <==> n in r
    {
      ListedHas(visits, root, given, n);
      VisitsAll(forest[root], n.path);
    }
    SortedOnce(r, Listed(visits, root, given));
  }

  lemma OneMoreRepeats(given: seq<Node>, i: nat)
    requires i < |given|
    ensures HasRepeats(given[..i + 1]) <==> HasRepeats(given[..i]) || Meets(InsertionSorted(given[..i]), given[i])
  {
    var s, t := given[..i], given[..i + 1];
    SortedFine(s);
    MeetsIffIn(InsertionSorted(s), given[i]);
    assert given[i] in InsertionSorted(s) <==> given[i] in multiset(InsertionSorted(s));
    if given[i] in s {
      var k :| 0 <= k < |s| && s[k] == given[i];
      assert t[k] == t[i];
    }
    if HasRepeats(s) {
      var a, b :| 0 <= a < b < |s| && s[a] == s[b];
      assert t[a] == t[b];
    }
    if HasRepeats(t) {
      var a, b :| 0 <= a < b < |t| && t[a] == t[b];
      assert b < i ==> s[a] == s[b];
      assert b == i ==> s[a] == given[i];
    }
  }

  lemma {:induction false} RepeatsCounted(s: seq<Node>)
    ensures HasRepeats(s) <==> exists n :: n in s && multiset(s)[n] >= 2
  {
    if HasRepeats(s) {
      var a, b :| 0 <= a < b < |s| && s[a] == s[b];
      assert s == s[..b] + [s[b]] + s[b + 1..];
      assert s[..b][a] == s[b];
      assert multiset(s)[s[b]] >= 2;
    } else if s != [] {
      var init, x := s[..|s| - 1], s[|s| - 1];
      assert s == init + [x];
      assert !HasRepeats(init);
      RepeatsCounted(init);
      assert x !in init;
    }
  }

  lemma OneMoreSorted(given: seq<Node>, i: nat)
    requires i < |given|
    ensures
      var r := InsertionSorted(given[..i]) + given[i..];
      && r[..i] == InsertionSorted(given[..i]) && r[i] == given[i] && r[i + 1..] == given[i + 1..]
      && InsertionSorted(given[..i + 1]) == Inserted(r[..i], r[i])
  {
    assert given[..i + 1][..i] == given[..i];
  }

  lemma SortedHasNoRepeats(given: seq<Node>)
    requires !HasRepeats(given)
    ensures !HasRepeats(InsertionSorted(given))
  {
    SortedFine(given);
    RepeatsCounted(given);
    RepeatsCounted(InsertionSorted(given));
    forall n | n in InsertionSorted(given)
      ensures n in given
    {
      assert n in multiset(InsertionSorted(given));
    }
  }

  // ---------- the code ----------

  ghost predicate AllIn(forest: seq<Tree>, nodes: seq<Node>) {
    forall n :: n in nodes ==> In(forest, n)
  }

  lemma SortedAllIn(forest: seq<Tree>, given: seq<Node>, i: nat)
    requires AllIn(forest, given) && i <= |given|
    ensures AllIn(forest, InsertionSorted(given[..i]) + given[i..])
  {
    var sorted := InsertionSorted(given[..i]);
    SortedFine(given[..i]);
    forall n | n in sorted
      ensures n in given
    {
      assert n in multiset(sorted);
      assert n in given[..i];
    }
  }

  /** s with room for one more entry at j, and what comes behind. */
  function Gap(s: seq<Node>, j: nat, hole: Node, rest: seq<Node>): (r: seq<Node>)
    requires j <= |s|
    ensures |r| == |s| + 1 + |rest| && r[j] == hole && (j > 0 ==> r[j - 1] == s[j - 1])
  {
    s[..j] + [hole] + s[j..] + rest
  }

  lemma GapOpens(all: seq<Node>, i: nat)
    requires i < |all|
    ensures all == Gap(all[..i], i, all[i], all[i + 1..])
    ensures all[..i][..i] == all[..i] && all[..i][i..] == []
  {
  }

  lemma GapMoves(s: seq<Node>, j: nat, hole: Node, rest: seq<Node>)
    requires 0 < j <= |s|
    ensures Gap(s, j, hole, rest)[j := s[j - 1]] == Gap(s, j - 1, s[j - 1], rest)
  {
  }

  lemma GapFills(s: seq<Node>, j: nat, hole: Node, rest: seq<Node>, x: Node)
    requires j <= |s| && (j == 0 || Order(s[j - 1], x) <= 0) && Inserted(s, x) == Inserted(s[..j], x) + s[j..]
    ensures Gap(s, j, hole, rest)[j := x] == Inserted(s, x) + rest
  {
    assert Inserted(s[..j], x) == s[..j] + [x];
  }

  /** The move from j to j - 1 is the next step of Inserted and of Meets. */
  lemma InsertedMoves(s: seq<Node>, j: nat, x: Node)
    requires 0 < j <= |s| && Order(s[j - 1], x) > 0
    ensures Inserted(s[..j], x) + s[j..] == Inserted(s[..j - 1], x) + s[j - 1..]
    ensures Meets(s[..j], x) <==> Meets(s[..j - 1], x)
  {
    assert s[..j][..j - 1] == s[..j - 1];
    assert s[j - 1..] == [s[j - 1]] + s[j..];
  }

  /** The positions below n of entries equal to their left neighbour, ascending. */
  ghost predicate ListsRepeats(s: seq<Node>, n: nat, positions: seq<nat>) {
    && (forall d :: d in positions ==> d < n && d < |s| && IsRepeat(s, d))
    && (forall k :: 0 <= k < |s| && k < n && IsRepeat(s, k) ==> k in positions)
    && forall a, b :: 0 <= a < b < |positions| ==> positions[a] < positions[b]
  }

  lemma AllListed(s: seq<Node>, n: nat, positions: seq<nat>)
    requires ListsRepeats(s, n, positions) && n >= |s|
    ensures ListsRepeats(s, |s|, positions)
  {
  }

  /** Where the j-th repeat is; behind the last one, the end. */
  function Bound(s: seq<Node>, positions: seq<nat>, j: nat): (n: nat)
    ensures n <= |s|
  {
    if j < |positions| && positions[j] < |s| then positions[j] else |s|
  }

  /** The list without the repeats from the j-th on. */
  function PartlyThinned(s: seq<Node>, positions: seq<nat>, j: nat): seq<Node> {
    s[..Bound(s, positions, j)] + Thinned(s, Bound(s, positions, j))
  }

  lemma NothingGone(s: seq<Node>, positions: seq<nat>)
    ensures PartlyThinned(s, positions, |positions|) == s
  {
  }

  lemma NoRepeatBetween(s: seq<Node>, positions: seq<nat>, j: nat, k: nat)
    requires ListsRepeats(s, |s|, positions) && j <= |positions| && k < Bound(s, positions, j)
    requires j > 0 ==> positions[j - 1] < k
    ensures !IsRepeat(s, k)
  {
    forall c | 0 <= c < |positions|
      ensures positions[c] != k
    {
      assert c < j ==> positions[c] <= positions[j - 1];
      assert c >= j ==> positions[c] >= positions[j] && positions[j] in positions;
    }
  }

  lemma RepeatsListedOn(s: seq<Node>, i: nat, positions: seq<nat>)
    requires ListsRepeats(s, i, positions) && i < |s|
    ensures ListsRepeats(s, i + 1, if IsRepeat(s, i) then positions + [i] else positions)
  {
    forall a | 0 <= a < |positions|
      ensures positions[a] < i
    {
      assert positions[a] in positions;
    }
  }

  /** Removing the j-th repeat, when those behind it are gone. */
  lemma SpliceThins(s: seq<Node>, positions: seq<nat>, j: nat)
    requires ListsRepeats(s, |s|, positions) && j < |positions|
    ensures
      var r, d := PartlyThinned(s, positions, j + 1), positions[j];
      d < |r| && r[..d] + r[d + 1..] == PartlyThinned(s, positions, j)
  {
    var m, d := Bound(s, positions, j + 1), positions[j];
    assert d in positions;
    assert j + 1 < |positions| ==> positions[j + 1] in positions;
    forall k | d < k < m
      ensures !IsRepeat(s, k)
    {
      NoRepeatBetween(s, positions, j + 1, k);
    }
    NothingToThin(s, d + 1, m);
    SpliceAt(s, d, m, Thinned(s, m));
    assert Bound(s, positions, j) == d;
  }

  lemma SpliceAt(s: seq<Node>, d: nat, m: nat, rest: seq<Node>)
    requires d < m <= |s|
    ensures (s[..m] + rest)[..d] == s[..d] && (s[..m] + rest)[d + 1..] == s[d + 1..m] + rest
  {
  }

  lemma NoneBeforeFirst(s: seq<Node>, positions: seq<nat>)
    requires ListsRepeats(s, |s|, positions)
    ensures PartlyThinned(s, positions, 0) == Thinned(s, 0)
  {
    var m := Bound(s, positions, 0);
    forall k | 0 <= k < m
      ensures !IsRepeat(s, k)
    {
      NoRepeatBetween(s, positions, 0, k);
    }
    NothingToThin(s, 0, m);
    assert s[0..m] == s[..m];
  }

  class Sorter {
    const forest: seq<Tree>
    const baseHasDuplicate: bool
    var hasDuplicate: bool
    var results: seq<Node>

    constructor (forest: seq<Tree>, baseHasDuplicate: bool, results: seq<Node>)
      ensures this.forest == forest && this.baseHasDuplicate == baseHasDuplicate && this.results == results
    {
      this.forest, this.baseHasDuplicate, this.results := forest, baseHasDuplicate, results;
    }

    /** The comparator: notes on the way that it was given the same node twice. */
    method CompareNodes(a: Node, b: Node) returns (r: int)
      requires In(forest, a) && In(forest, b)
      modifies `hasDuplicate
      ensures r == Order(a, b) && hasDuplicate == (old(hasDuplicate) || r == 0)
    {
      if a == b {
        hasDuplicate := true;
        return 0;
      }
      r := Compare(forest, a, b);
    }

    /** Moves results[i] to its place among the entries before it. */
    method Insert(i: nat)
      requires i < |results| && AllIn(forest, results)
      modifies this
      ensures results == Inserted(old(results[..i]), old(results[i])) + old(results[i + 1..])
      ensures hasDuplicate == (old(hasDuplicate) || Meets(old(results[..i]), old(results[i])))
    {
      var x, j := results[i], i;
      ghost var s, rest := results[..i], results[i + 1..];
      ghost var hole := x;
      GapOpens(results, i);
      assert AllIn(forest, s);
      while j > 0
        invariant 0 <= j <= i == |s| && results == Gap(s, j, hole, rest)
        invariant Inserted(s, x) == Inserted(s[..j], x) + s[j..] && (Meets(s, x) <==> Meets(s[..j], x))
        invariant hasDuplicate == old(hasDuplicate)
      {
        var left := results[j - 1];
        assert left == s[j - 1] && left in s;
        var c := CompareNodes(left, x);
        if c <= 0 {
          break;
        }
        InsertedMoves(s, j, x);
        GapMoves(s, j, hole, rest);
        hole := s[j - 1];
        results := results[j := left];
        j := j - 1;
      }
      GapFills(s, j, hole, rest, x);
      results := results[j := x];
    }

    /** `results.sort(sortOrder)`. */
    method Sort()
      requires AllIn(forest, results)
      modifies this
      ensures results == InsertionSorted(old(results))
      ensures hasDuplicate == (old(hasDuplicate) || HasRepeats(old(results)))
    {
      ghost var given := results;
      var i := 0;
      while i < |results|
        invariant 0 <= i <= |results| == |given|
        invariant results == InsertionSorted(given[..i]) + given[i..]
        invariant hasDuplicate == (old(hasDuplicate) || HasRepeats(given[..i]))
      {
        SortedAllIn(forest, given, i);
        OneMoreRepeats(given, i);
        OneMoreSorted(given, i);
        Insert(i);
        i := i + 1;
      }
      assert given[..i] == given;
    }

    /** `Sizzle.uniqueSort`: whatever the list, duplicates go and document order results. */
    method UniqueSort()
      requires AllIn(forest, results)
      modifies this
      ensures hasDuplicate == (baseHasDuplicate || HasRepeats(old(results)))
      ensures IsUniqueSorted(results) && SameNodes(results, old(results))
    {
      hasDuplicate := baseHasDuplicate;
      ghost var given := results;
      Sort();
      ghost var sorted := results;
      SortedFine(given);
      ThinnedIsResult(given, sorted);
      if hasDuplicate {
        RemoveRepeats();
      } else {
        SortedHasNoRepeats(given);
        ThinnedSame(sorted);
      }
    }

    /** The positions of entries equal to the one before. */
    method FindRepeats() returns (duplicates: seq<nat>)
      ensures ListsRepeats(results, |results|, duplicates)
    {
      duplicates := [];
      var i := 1;
      while i < |results|
        invariant 1 <= i && ListsRepeats(results, i, duplicates)
      {
        RepeatsListedOn(results, i, duplicates);
        if results[i] == results[i - 1] {
          duplicates := duplicates + [i];
        }
        i := i + 1;
      }
      AllListed(results, i, duplicates);
    }

    /** Collects the positions of duplicates, then splices them out from the end. */
    method RemoveRepeats()
      modifies `results
      ensures results == Thinned(old(results), 0)
    {
      ghost var s := results;
      var duplicates := FindRepeats();
      var j := |duplicates|;
      NothingGone(s, duplicates);
      while j > 0
        invariant 0 <= j <= |duplicates| && results == PartlyThinned(s, duplicates, j)
      {
        j := j - 1;
        SpliceThins(s, duplicates, j);
        results := results[..duplicates[j]] + results[duplicates[j] + 1..];
      }
      NoneBeforeFirst(s, duplicates);
    }
  }
}
