/** Python's ordering of `str` values (code point by code point, a proper
    prefix first) and sorting by it, as `list.sort(key=...)` does for the
    image names of convert.py. */
module LexOrder {

  /** `a <= b` on Python strings. */
  predicate LexLeq(a: string, b: string)
    decreases |a|
  {
    a == [] || (b != [] && (a[0] < b[0] || (a[0] == b[0] && LexLeq(a[1..], b[1..]))))
  }

  lemma {:induction false} LexLeqReflexive(a: string)
    ensures LexLeq(a, a)
    decreases |a|
  {
    if a != [] {
      LexLeqReflexive(a[1..]);
    }
  }

  lemma {:induction false} LexLeqTotal(a: string, b: string)
    ensures LexLeq(a, b) || LexLeq(b, a)
    decreases |a|
  {
    if a != [] && b != [] && a[0] == b[0] {
      LexLeqTotal(a[1..], b[1..]);
    }
  }

  lemma {:induction false} LexLeqAntisymmetric(a: string, b: string)
    requires LexLeq(a, b) && LexLeq(b, a)
    ensures a == b
    decreases |a|
  {
    if a != [] {
      LexLeqAntisymmetric(a[1..], b[1..]);
      assert a == [a[0]] + a[1..] && b == [b[0]] + b[1..];
    }
  }

  lemma {:induction false} LexLeqTransitive(a: string, b: string, c: string)
    requires LexLeq(a, b) && LexLeq(b, c)
    ensures LexLeq(a, c)
    decreases |a|
  {
    if a != [] && a[0] == b[0] && b[0] == c[0] {
      LexLeqTransitive(a[1..], b[1..], c[1..]);
    }
  }

  predicate Sorted(xs: seq<string>) {
    forall i, j | 0 <= i < j < |xs| :: LexLeq(xs[i], xs[j])
  }

  /** `x` placed before the first element it does not exceed. */
  function Insert(x: string, xs: seq<string>): (r: seq<string>)
    requires Sorted(xs)
    ensures Sorted(r)
    ensures multiset(r) == multiset(xs) + multiset{x}
    decreases |xs|
  {
    if xs == [] then [x]
    else if LexLeq(x, xs[0]) then
      assert forall j | 0 <= j < |xs| :: LexLeq(x, xs[j]) by {
        forall j | 0 <= j < |xs| ensures LexLeq(x, xs[j]) {
          if j > 0 { LexLeqTransitive(x, xs[0], xs[j]); }
        }
      }
      [x] + xs
    else
      LexLeqTotal(x, xs[0]);
      var rest := Insert(x, xs[1..]);
      assert xs == [xs[0]] + xs[1..];
      assert forall j | 0 <= j < |rest| :: LexLeq(xs[0], rest[j]) by {
        forall j | 0 <= j < |rest| ensures LexLeq(xs[0], rest[j]) {
          assert rest[j] in multiset(rest);
        }
      }
      [xs[0]] + rest
  }

  /** The names in ascending order: a sorted permutation of `xs`. */
  function Sort(xs: seq<string>): (r: seq<string>)
    ensures Sorted(r)
    ensures multiset(r) == multiset(xs)
    decreases |xs|
  {
    if xs == [] then []
    else
      assert xs == [xs[0]] + xs[1..];
      Insert(xs[0], Sort(xs[1..]))
  }

  /** A sorted permutation is unique, so any correct sort of the list yields `Sort`'s result. */
  lemma {:induction false} SortedPermutationUnique(xs: seq<string>, ys: seq<string>)
    requires Sorted(xs) && Sorted(ys) && multiset(xs) == multiset(ys)
    ensures xs == ys
    decreases |xs|
  {
    if xs != [] {
      assert ys != [] by { assert |multiset(ys)| == |multiset(xs)| > 0; }
      SameHead(xs, ys);
      var xt, yt := xs[1..], ys[1..];
      assert xs == [xs[0]] + xt && ys == [ys[0]] + yt;
      MultisetTail(xs, ys);
      SortedTail(xs);
      SortedTail(ys);
      SortedPermutationUnique(xt, yt);
    }
  }

  lemma MultisetTail(xs: seq<string>, ys: seq<string>)
    requires xs != [] && ys != [] && xs[0] == ys[0] && multiset(xs) == multiset(ys)
    ensures multiset(xs[1..]) == multiset(ys[1..])
  {
    assert xs == [xs[0]] + xs[1..] && ys == [ys[0]] + ys[1..];
    assert multiset(xs[1..]) == multiset(xs) - multiset{xs[0]};
    assert multiset(ys[1..]) == multiset(ys) - multiset{ys[0]};
  }

  lemma SortedTail(xs: seq<string>)
    requires xs != [] && Sorted(xs)
    ensures Sorted(xs[1..])
  {
    forall i, j | 0 <= i < j < |xs| - 1 ensures LexLeq(xs[1..][i], xs[1..][j]) {
      assert xs[1..][i] == xs[i + 1] && xs[1..][j] == xs[j + 1];
    }
  }

  /** Two sorted permutations start with the same (least) element. */
  lemma SameHead(xs: seq<string>, ys: seq<string>)
    requires xs != [] && ys != []
    requires Sorted(xs) && Sorted(ys) && multiset(xs) == multiset(ys)
    ensures xs[0] == ys[0]
  {
    assert xs[0] in multiset(ys) && ys[0] in multiset(xs);
    var i :| 0 <= i < |ys| && ys[i] == xs[0];
    var j :| 0 <= j < |xs| && xs[j] == ys[0];
    if i == 0 { LexLeqReflexive(ys[0]); }
    if j == 0 { LexLeqReflexive(xs[0]); }
    assert LexLeq(xs[0], xs[j]) && LexLeq(ys[0], ys[i]);
    LexLeqAntisymmetric(xs[0], ys[0]);
  }
}
