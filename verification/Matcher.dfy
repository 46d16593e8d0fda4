/**
 Compiled selectors: the closures that `addCombinator`, `elementMatcher` and
 `matcherFromTokens` build, as data, with the plain (unmemoised) meaning of a matcher.
 */
module Matcher {
  import opened Dom

  /** A pure filter on nodes (tag, class, attribute, ...). */
  type Filter = nat -> bool

  datatype Combinator = Child | Descendant | Adjacent | Sibling {
    function Direction(): Dir {
      if Child? || Descendant? then ParentNode else PreviousSibling
    }

    predicate First() {
      Child? || Adjacent?
    }
  }

  datatype Token = Relative(comb: Combinator) | Simple(test: Filter)

  /** `name` is the `doneName` that addCombinator takes from its counter. */
  datatype Matcher =
    | Test(test: Filter)
    | All(matchers: seq<Matcher>)
    | Search(inner: Matcher, comb: Combinator, base: bool, name: nat)

  /** Whether a search stops to look at this node. */
  predicate Visible(d: Document, comb: Combinator, base: bool, n: nat)
    requires WellFormed(d) && n < |d.parent|
  {
    (base && comb.Direction().ParentNode?) || d.isElement[n]
  }

  /** The truth value of a matcher on a node, with every search done in full. */
  predicate Plain(d: Document, m: Matcher, n: nat)
    requires WellFormed(d) && n < |d.parent|
    decreases m, 0
  {
    match m
    case Test(f) => f(n)
    case All(ms) => forall i :: 0 <= i < |ms| ==> Plain(d, ms[i], n)
    case Search(inner, comb, base, _) => Found(d, inner, comb, base, Step(d, comb.Direction(), n))
  }

  /** Whether the search for `inner` succeeds at n or, unless only the closest node counts, beyond it. */
  predicate Found(d: Document, inner: Matcher, comb: Combinator, base: bool, n: int)
    requires WellFormed(d) && NONE <= n < |d.parent|
    decreases inner, n + 2
  {
    if n == NONE then false
    else if !Visible(d, comb, base, n) then Found(d, inner, comb, base, Step(d, comb.Direction(), n))
    else Plain(d, inner, n) || (!comb.First() && Found(d, inner, comb, base, Step(d, comb.Direction(), n)))
  }

  /** The names of all memoising searches in a matcher. */
  function Names(m: Matcher): set<nat>
    decreases m
  {
    match m
    case Test(_) => {}
    case All(ms) => set i, nm | 0 <= i < |ms| && nm in Names(ms[i]) :: nm
    case Search(inner, _, _, name) => Names(inner) + {name}
  }

  /**
   What matcherFromTokens guarantees of its matchers: a conjunction keeps its one search at
   index 0, which is evaluated last, and every search has a name of its own.
   */
  ghost predicate Shaped(m: Matcher)
    decreases m
  {
    match m
    case Test(_) => true
    case All(ms) =>
      && |ms| > 0
      && !ms[0].All? && Shaped(ms[0])
      && forall i :: 0 < i < |ms| ==> ms[i].Test?
    case Search(inner, _, _, name) => Shaped(inner) && name !in Names(inner)
  }

  /** Records, under each name, the search it belongs to. */
  ghost predicate Registered(table: map<nat, Matcher>, m: Matcher)
    decreases m
  {
    match m
    case Test(_) => true
    case All(ms) => forall i :: 0 <= i < |ms| ==> Registered(table, ms[i])
    case Search(inner, _, _, name) => name in table && table[name] == m && Registered(table, inner)
  }
}
