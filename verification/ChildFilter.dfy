/** Sizzle's filters for `:nth-child`, `:first-child`, `:last-child` and `:only-child`. */
module ChildFilter {
  import opened Wrappers

  /** For each child of a node, in order, whether it is an element. */
  type Children = seq<bool>

  datatype Kind = OnlyChild | FirstChild | LastChild

  /** How many of the first n children are elements. */
  function Elements(children: Children, n: nat): nat
    requires n <= |children|
  {
    if n == 0 then 0 else Elements(children, n - 1) + if children[n - 1] then 1 else 0
  }

  /** Whether a position is a * n + b for some n >= 0 (W3C Selectors Level 3, section 6.6.5.2). */
  ghost predicate IsNth(position: int, a: int, b: int) {
    exists n: nat :: position == a * n + b
  }

  /** The filter's test of the offset. */
  predicate Fits(diff: int, first: int) {
    diff == first || (first != 0 && diff % first == 0 && diff as real / first as real >= 0.0)
  }

  lemma SameSign(diff: int, first: int)
    requires first != 0
    ensures diff as real / first as real >= 0.0 <==> diff == 0 || (diff > 0 <==> first > 0)
  {
    var q := diff as real / first as real;
    assert q * first as real == diff as real;
  }

  function Abs(x: int): nat {
    if x < 0 then -x else x
  }

  lemma ProductGrows(a: int, k: int)
    ensures k != 0 ==> Abs(a * k) >= Abs(a)
    ensures a != 0 && k < 0 ==> a * k != 0 && (a * k > 0 <==> a < 0)
  {
  }

  lemma Quotient(diff: int, first: int) returns (n: nat)
    requires first != 0 && diff % first == 0 && (diff == 0 || (diff > 0 <==> first > 0))
    ensures diff == first * n
  {
    var q := diff / first;
    assert diff == first * q;
    ProductGrows(first, q);
    n := q;
  }

  lemma MultipleFits(first: int, n: nat)
    ensures Fits(first * n, first)
  {
    if first != 0 {
      var diff := first * n;
      var q, r := diff / first, diff % first;
      assert diff == first * q + r;
      assert first * (n - q) == r;
      ProductGrows(first, n - q);
      SameSign(diff, first);
    }
  }

  /** The test is exact, for cycles of any sign and for none. */
  lemma FitsIffNth(position: int, a: int, b: int)
    ensures Fits(position - b, a) <==> IsNth(position, a, b)
  {
    var diff := position - b;
    if Fits(diff, a) {
      if diff == a {
        assert position == a * 1 + b;
      } else {
        SameSign(diff, a);
        var n := Quotient(diff, a);
        assert position == a * n + b;
      }
    }
    if IsNth(position, a, b) {
      var n: nat :| position == a * n + b;
      MultipleFits(a, n);
    }
  }

  // ---------- the code ----------

  /** `:nth-child(an+b)`: the e-th child of its parent, or an element without one. */
  method NthChild(parent: Option<Children>, e: nat, first: int, last: int) returns (b: bool)
    requires parent.Some? ==> e < |parent.value| && parent.value[e]
    ensures parent.Some? ==> (b <==> IsNth(Elements(parent.value, e) + 1, first, last))
    ensures parent.None? ==> (b <==> first == 1 && last == 0)
  {
    if first == 1 && last == 0 {
      if parent.Some? {
        assert Elements(parent.value, e) + 1 == 1 * (Elements(parent.value, e) + 1) + 0;
      }
      return true;
    }
    if parent.None? {
      return false; // the offset is not a number
    }
    var diff := 0;
    var node := 0;
    while node < |parent.value|
      invariant 0 <= node <= e && diff == Elements(parent.value, node)
    {
      if parent.value[node] {
        diff := diff + 1;
        if e == node {
          break;
        }
      }
      node := node + 1;
    }
    FitsIffNth(Elements(parent.value, e) + 1, first, last);
    diff := diff - last;
    b := Fits(diff, first);
  }

  /** The other three filters, which walk over the siblings before and behind the element. */
  method EdgeChild(kind: Kind, siblings: Children, e: nat) returns (b: bool)
    requires e < |siblings| && siblings[e]
    ensures b <==>
      && (kind.LastChild? || Elements(siblings, e) == 0)
      && (kind.FirstChild? || Elements(siblings, |siblings|) == Elements(siblings, e) + 1)
  {
    if !kind.LastChild? {
      var node := e;
      while node > 0
        invariant 0 <= node <= e && Elements(siblings, e) == Elements(siblings, node)
      {
        node := node - 1;
        if siblings[node] {
          return false;
        }
      }
      if kind.FirstChild? {
        return true;
      }
    }
    var node := e + 1;
    while node < |siblings|
      invariant e < node <= |siblings| && Elements(siblings, node) == Elements(siblings, e) + 1
    {
      if siblings[node] {
        MoreElements(siblings, node + 1, |siblings|);
        return false;
      }
      node := node + 1;
    }
    return true;
  }

  lemma {:induction false} MoreElements(children: Children, m: nat, n: nat)
    requires m <= n <= |children|
    ensures Elements(children, m) <= Elements(children, n)
  {
    if m == n {
    } else {
      MoreElements(children, m, n - 1);
    }
  }

  // ---------- counting ----------

  /** The count is that of the elements among the first n children. */
  lemma {:induction false} ElementsAreCounted(children: Children, n: nat)
    requires n <= |children|
    ensures Elements(children, n) == |set i: nat | i < n && children[i]|
  {
    if n == 0 {
    } else {
      ElementsAreCounted(children, n - 1);
      var more: set<nat> := if children[n - 1] then {n - 1} else {};
      assert (set i: nat | i < n && children[i]) == (set i: nat | i < n - 1 && children[i]) + more;
    }
  }
}
