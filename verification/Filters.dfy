/** The elements of a sequence that satisfy a predicate, in their order. */
module Filters {
  function Filter<T>(s: seq<T>, p: T -> bool): seq<T> {
    if s == [] then [] else Filter(s[..|s| - 1], p) + if p(s[|s| - 1]) then [s[|s| - 1]] else []
  }

  lemma FilterOneMore<T>(s: seq<T>, i: nat, p: T -> bool)
    requires i < |s|
    ensures Filter(s[..i + 1], p) == Filter(s[..i], p) + if p(s[i]) then [s[i]] else []
  {
    assert s[..i + 1][..i] == s[..i];
  }

  lemma {:induction false} FilterConcat<T>(a: seq<T>, b: seq<T>, p: T -> bool)
    ensures Filter(a + b, p) == Filter(a, p) + Filter(b, p)
  {
    if b == [] {
      assert a + b == a;
    } else {
      var n := |b| - 1;
      assert (a + b)[..|a + b| - 1] == a + b[..n];
      FilterConcat(a, b[..n], p);
    }
  }

  lemma {:induction false} FilterHas<T>(s: seq<T>, p: T -> bool, x: T)
    ensures x in Filter(s, p) <==> x in s && p(x)
  {
    if s == [] {
    } else {
      FilterHas(s[..|s| - 1], p, x);
      assert x in s <==> x in s[..|s| - 1] || x == s[|s| - 1];
    }
  }

  lemma {:induction false} FilterSame<T>(s: seq<T>, p: T -> bool, q: T -> bool)
    requires forall x :: x in s ==> p(x) == q(x)
    ensures Filter(s, p) == Filter(s, q)
  {
    if s == [] {
    } else {
      FilterSame(s[..|s| - 1], p, q);
    }
  }

  lemma {:induction false} FilterAll<T>(s: seq<T>, p: T -> bool)
    requires forall i :: 0 <= i < |s| ==> p(s[i])
    ensures Filter(s, p) == s
  {
    if s == [] {
    } else {
      FilterAll(s[..|s| - 1], p);
    }
  }

  lemma {:induction false} FilterNone<T>(s: seq<T>, p: T -> bool)
    requires forall i :: 0 <= i < |s| ==> !p(s[i])
    ensures Filter(s, p) == []
  {
    if s == [] {
    } else {
      FilterNone(s[..|s| - 1], p);
    }
  }

  /** Two filters may be applied in either order. */
  lemma {:induction false} FilterCommutes<T>(s: seq<T>, p: T -> bool, q: T -> bool)
    ensures Filter(Filter(s, p), q) == Filter(Filter(s, q), p)
  {
    if s == [] {
    } else {
      var front, last := s[..|s| - 1], s[|s| - 1];
      FilterCommutes(front, p, q);
      FilterPushed(Filter(front, p), last, q);
      FilterPushed(Filter(front, q), last, p);
    }
  }

  lemma FilterPushed<T>(s: seq<T>, x: T, p: T -> bool)
    ensures Filter(s + [x], p) == Filter(s, p) + if p(x) then [x] else []
    ensures Filter(s + [], p) == Filter(s, p)
  {
    assert (s + [x])[..|s|] == s && s + [] == s;
  }

  /** How many pass if one element is cut out. */
  lemma FilterCutOut<T>(s: seq<T>, j: nat, p: T -> bool)
    requires j < |s|
    ensures |Filter(s[..j] + s[j + 1..], p)| == |Filter(s, p)| - if p(s[j]) then 1 else 0
  {
    FilterOneMore(s, j, p);
    FilterConcat(s[..j + 1], s[j + 1..], p);
    FilterConcat(s[..j], s[j + 1..], p);
    assert s == s[..j + 1] + s[j + 1..];
  }

  /** Where a filter has come to in place: n elements seen, and those that pass in front. */
  lemma FilterInPlace<T>(s: seq<T>, n: nat, p: T -> bool)
    requires n < |s|
    ensures
      var now := Filter(s[..n], p) + s[n..];
      var j := |Filter(s[..n], p)|;
      && now[j] == s[n]
      && Filter(s[..n + 1], p) + s[n + 1..] == if p(s[n]) then now else now[..j] + now[j + 1..]
  {
    FilterOneMore(s, n, p);
    var front := Filter(s[..n], p);
    assert s[n..] == [s[n]] + s[n + 1..];
    assert front + [s[n]] + s[n + 1..] == front + s[n..];
  }

  /** A wider filter in front of a narrower one changes nothing. */
  lemma {:induction false} FilterNarrows<T>(s: seq<T>, p: T -> bool, q: T -> bool)
    requires forall i :: 0 <= i < |s| && q(s[i]) ==> p(s[i])
    ensures Filter(Filter(s, p), q) == Filter(s, q)
  {
    if s == [] {
    } else {
      var front, last := s[..|s| - 1], s[|s| - 1];
      FilterNarrows(front, p, q);
      FilterPushed(Filter(front, p), last, q);
    }
  }

  /** A filter that lets more through keeps at least as many. */
  lemma {:induction false} FilterWider<T>(s: seq<T>, p: T -> bool, q: T -> bool)
    requires forall x :: x in s && p(x) ==> q(x)
    ensures |Filter(s, p)| <= |Filter(s, q)|
  {
    if s == [] {
    } else {
      FilterWider(s[..|s| - 1], p, q);
    }
  }

  lemma {:induction false} FilterStrictlyWider<T>(s: seq<T>, p: T -> bool, q: T -> bool, x: T)
    requires (forall y :: y in s && p(y) ==> q(y)) && x in s && q(x) && !p(x)
    ensures |Filter(s, p)| < |Filter(s, q)|
  {
    var front := s[..|s| - 1];
    if x in front {
      FilterStrictlyWider(front, p, q, x);
    } else {
      FilterWider(front, p, q);
    }
  }

  lemma {:induction false} FilterIsNoLonger<T>(s: seq<T>, p: T -> bool)
    ensures |Filter(s, p)| <= |s|
  {
    if s == [] {
    } else {
      FilterIsNoLonger(s[..|s| - 1], p);
    }
  }
}
