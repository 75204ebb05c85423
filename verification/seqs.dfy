/**
  Order-preserving sequence operations the adapter composes: keeping the
  successful conversions of a list (`if x: out.append(x)`), keeping the
  elements a predicate accepts (list comprehensions and the filter engine),
  and concatenating nested lists (`out.extend(...)` in a loop).
 */
module Seqs {
  import opened Wrappers

  /** The values inside the `Some` entries of `xs`, in order; `None` entries are dropped. */
  function Somes<T>(xs: seq<Option<T>>): (r: seq<T>)
    ensures |r| <= |xs|
    ensures forall y :: y in r ==> Some(y) in xs
    ensures forall i :: 0 <= i < |xs| && xs[i].Some? ==> xs[i].value in r
    ensures r == [] <==> forall i :: 0 <= i < |xs| ==> xs[i].None?
  {
    if |xs| == 0 then []
    else if xs[0].Some? then [xs[0].value] + Somes(xs[1..])
    else Somes(xs[1..])
  }

  /** Dropping failures commutes with concatenation, so the survivors keep their input order. */
  lemma {:induction false} SomesAppend<T>(a: seq<Option<T>>, b: seq<Option<T>>)
    ensures Somes(a + b) == Somes(a) + Somes(b)
  {
    if |a| == 0 {
      assert a + b == b;
    } else {
      assert (a + b)[1..] == a[1..] + b;
      SomesAppend(a[1..], b);
    }
  }

  /** The elements of `xs` that `p` accepts, in their original order. */
  function Select<T>(xs: seq<T>, p: T -> bool): (r: seq<T>)
    ensures |r| <= |xs|
    ensures forall y :: y in r ==> y in xs && p(y)
    ensures forall i :: 0 <= i < |xs| && p(xs[i]) ==> xs[i] in r
    ensures forall y :: y in xs && p(y) ==> y in r
    ensures (forall i :: 0 <= i < |xs| ==> p(xs[i])) ==> r == xs
  {
    if |xs| == 0 then []
    else if p(xs[0]) then
      assert xs == [xs[0]] + xs[1..];
      [xs[0]] + Select(xs[1..], p)
    else Select(xs[1..], p)
  }

  /** Selection commutes with concatenation, so it preserves relative order. */
  lemma {:induction false} SelectAppend<T>(a: seq<T>, b: seq<T>, p: T -> bool)
    ensures Select(a + b, p) == Select(a, p) + Select(b, p)
  {
    if |a| == 0 {
      assert a + b == b;
    } else {
      assert (a + b)[1..] == a[1..] + b;
      SelectAppend(a[1..], b, p);
    }
  }

  /** Selecting with a predicate and with its complement splits `xs` into two parts that together hold each element as often as `xs` does. */
  lemma {:induction false} SelectPartition<T>(xs: seq<T>, p: T -> bool, q: T -> bool)
    requires forall i :: 0 <= i < |xs| ==> q(xs[i]) == !p(xs[i])
    ensures multiset(Select(xs, p)) + multiset(Select(xs, q)) == multiset(xs)
  {
    if |xs| > 0 {
      SelectPartition(xs[1..], p, q);
      assert xs == [xs[0]] + xs[1..];
    }
  }

  /** The concatenation of the inner sequences, in order. */
  function Flatten<T>(xss: seq<seq<T>>): (r: seq<T>)
    ensures forall y :: y in r ==> exists i :: 0 <= i < |xss| && y in xss[i]
    ensures forall i, y :: 0 <= i < |xss| && y in xss[i] ==> y in r
    ensures (forall i :: 0 <= i < |xss| ==> |xss[i]| > 0) ==> |r| >= |xss|
    ensures |xss| == 1 ==> r == xss[0]
  {
    if |xss| == 0 then []
    else
      var rest := Flatten(xss[1..]);
      assert forall y :: y in rest ==> exists i :: 1 <= i < |xss| && y in xss[i] by {
        forall y | y in rest
          ensures exists i :: 1 <= i < |xss| && y in xss[i]
        {
          var k :| 0 <= k < |xss[1..]| && y in xss[1..][k];
          assert y in xss[k + 1];
        }
      }
      assert forall i, y :: 1 <= i < |xss| && y in xss[i] ==> y in rest by {
        forall i, y | 1 <= i < |xss| && y in xss[i]
          ensures y in rest
        {
          assert y in xss[1..][i - 1];
        }
      }
      xss[0] + rest
  }

  /** Flattening commutes with concatenation, so with the singleton case it keeps every element, in order. */
  lemma {:induction false} FlattenAppend<T>(a: seq<seq<T>>, b: seq<seq<T>>)
    ensures Flatten(a + b) == Flatten(a) + Flatten(b)
  {
    if |a| == 0 {
      assert a + b == b;
    } else {
      assert (a + b)[1..] == a[1..] + b;
      FlattenAppend(a[1..], b);
    }
  }
}
