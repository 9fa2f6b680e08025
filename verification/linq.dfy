/** The sequence operators the tree manager builds its queries from, with the
    semantics of the .NET enumerable operators of the same names, applied
    sequentially and in source order. */
module Linq {
  import opened Wrappers

  /** No element occurs twice. */
  predicate Distinct<T(==)>(xs: seq<T>) {
    forall i, j :: 0 <= i < j < |xs| ==> xs[i] != xs[j]
  }

  /** `xs.Where(p).ToArray()`: the elements satisfying `p`, in their original order.
      Every occurrence of a kept element is kept, so repeats survive. */
  function Where<T(!new)>(xs: seq<T>, p: T -> bool): (r: seq<T>)
    ensures |r| <= |xs|
    ensures forall x :: x in r <==> x in xs && p(x)
    ensures forall x :: multiset(r)[x] == if p(x) then multiset(xs)[x] else 0
  {
    if xs == [] then []
    else
      assert forall x :: x in xs <==> x == xs[0] || x in xs[1..];
      assert xs == [xs[0]] + xs[1..];
      assert multiset(xs) == multiset([xs[0]]) + multiset(xs[1..]);
      if p(xs[0]) then [xs[0]] + Where(xs[1..], p) else Where(xs[1..], p)
  }

  /** Filtering with two predicates that agree on every element gives the same result. */
  lemma {:induction false} WhereCongruent<T(!new)>(xs: seq<T>, p: T -> bool, q: T -> bool)
    requires forall x :: x in xs ==> p(x) == q(x)
    ensures Where(xs, p) == Where(xs, q)
  {
    if xs != [] {
      assert xs[0] in xs;
      assert forall x :: x in xs[1..] ==> x in xs;
      WhereCongruent(xs[1..], p, q);
    }
  }

  /** The first element satisfying `p`, if any. */
  function FirstMatch<T>(xs: seq<T>, p: T -> bool): (r: Option<T>)
    ensures r.None? <==> forall i :: 0 <= i < |xs| ==> !p(xs[i])
    ensures r.Some? ==>
      exists i :: (0 <= i < |xs| && xs[i] == r.value && p(xs[i])
                   && forall j :: 0 <= j < i ==> !p(xs[j]))
  {
    if xs == [] then None
    else if p(xs[0]) then Some(xs[0])
    else
      var r := FirstMatch(xs[1..], p);
      assert r.Some? ==>
        exists i :: (1 <= i < |xs| && xs[i] == r.value && p(xs[i])
                     && forall j :: 0 <= j < i ==> !p(xs[j])) by {
        if r.Some? {
          var i :| 0 <= i < |xs[1..]| && xs[1..][i] == r.value && p(xs[1..][i])
            && forall j :: 0 <= j < i ==> !p(xs[1..][j]);
          assert forall j :: 1 <= j < i + 1 ==> !p(xs[j]) by {
            forall j | 1 <= j < i + 1 ensures !p(xs[j]) { assert xs[j] == xs[1..][j - 1]; }
          }
        }
      }
      r
  }

  /** `xs.Where(p).FirstOrDefault()`: the first match, or `default` (the value of
      `default(T)`) when nothing matches. */
  function FirstOrDefault<T>(xs: seq<T>, p: T -> bool, default: T): T {
    FirstMatch(xs, p).GetOr(default)
  }

  /** `first.Except(second)`: the distinct elements of `first` that do not occur in
      `second`, each at the position of its first occurrence. */
  function Except<T(==,!new)>(first: seq<T>, second: seq<T>): (r: seq<T>)
    ensures |r| <= |first|
    ensures Distinct(r)
    ensures forall x :: x in r <==> x in first && x !in second
  {
    ExceptExcluding(first, set x | x in second)
  }

  /** The enumeration behind `Except`: `excluded` starts as the elements of the second
      sequence and grows by every element yielded, so that no element is yielded twice. */
  function ExceptExcluding<T(==,!new)>(xs: seq<T>, excluded: set<T>): (r: seq<T>)
    ensures |r| <= |xs|
    ensures Distinct(r)
    ensures forall x :: x in r <==> x in xs && x !in excluded
  {
    if xs == [] then []
    else
      assert forall x :: x in xs <==> x == xs[0] || x in xs[1..];
      if xs[0] in excluded then ExceptExcluding(xs[1..], excluded)
      else
        var rest := ExceptExcluding(xs[1..], excluded + {xs[0]});
        assert xs[0] !in rest;
        [xs[0]] + rest
  }

  /** On a sequence without duplicates, `Except` keeps every element that is not
      excluded, in order: it is a plain filter. */
  lemma {:induction false} ExceptOfDistinct<T(!new)>(xs: seq<T>, excluded: set<T>)
    requires Distinct(xs)
    ensures ExceptExcluding(xs, excluded) == Where(xs, x => x !in excluded)
  {
    if xs != [] {
      var tail := xs[1..];
      assert Distinct(tail) by {
        forall i, j | 0 <= i < j < |tail| ensures tail[i] != tail[j] {
          assert tail[i] == xs[i + 1] && tail[j] == xs[j + 1];
        }
      }
      assert xs[0] !in tail by {
        forall i | 0 <= i < |tail| ensures tail[i] != xs[0] {
          assert tail[i] == xs[i + 1];
        }
      }
      if xs[0] !in excluded {
        var more := excluded + {xs[0]};
        ExceptOfDistinct(tail, more);
        WhereCongruent(tail, x => x !in more, x => x !in excluded);
      } else {
        ExceptOfDistinct(tail, excluded);
      }
    }
  }

  /** `xs.Select((c, i) => (c, i)).Where(p(c)).Select(i)`: the indices of the elements
      satisfying `p`, ascending. */
  function IndicesWhere<T>(xs: seq<T>, p: T -> bool): (r: seq<int>)
    ensures forall i :: i in r <==> 0 <= i < |xs| && p(xs[i])
    ensures forall j :: 0 <= j < |r| ==> 0 <= r[j] < |xs|
    ensures Distinct(r)
  {
    var r := IndicesFrom(xs, p, 0);
    assert forall j :: 0 <= j < |r| ==> r[j] in r;
    r
  }

  function IndicesFrom<T>(xs: seq<T>, p: T -> bool, k: nat): (r: seq<int>)
    requires k <= |xs|
    ensures forall i :: i in r <==> k <= i < |xs| && p(xs[i])
    ensures forall a, b :: 0 <= a < b < |r| ==> r[a] < r[b]
    decreases |xs| - k
  {
    if k == |xs| then []
    else
      var rest := IndicesFrom(xs, p, k + 1);
      assert forall a :: 0 <= a < |rest| ==> k < rest[a] by {
        forall a | 0 <= a < |rest| ensures k < rest[a] { assert rest[a] in rest; }
      }
      if p(xs[k]) then [k] + rest else rest
  }

  /** The loop `for i in indices: xs[i] := f(xs[i])`. When the indices are distinct and
      in range, exactly the listed positions are transformed, each once. */
  function ApplyAt<T(==)>(xs: seq<T>, indices: seq<int>, f: T -> T): (r: seq<T>)
    requires forall j :: 0 <= j < |indices| ==> 0 <= indices[j] < |xs|
    requires Distinct(indices)
    ensures |r| == |xs|
    ensures forall i :: 0 <= i < |xs| ==> r[i] == if i in indices then f(xs[i]) else xs[i]
    decreases |indices|
  {
    if indices == [] then xs
    else
      var k := indices[0];
      var tail := indices[1..];
      assert Distinct(tail) by {
        forall a, b | 0 <= a < b < |tail| ensures tail[a] != tail[b] {
          assert tail[a] == indices[a + 1] && tail[b] == indices[b + 1];
        }
      }
      assert k !in tail by {
        forall a | 0 <= a < |tail| ensures tail[a] != k {
          assert tail[a] == indices[a + 1];
        }
      }
      assert forall i :: i in indices <==> i == k || i in tail;
      ApplyAt(xs[k := f(xs[k])], tail, f)
  }
}
