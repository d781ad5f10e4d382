/** Sums over a list, and how one changed place changes them; and selections from a list. */
module Folds {
  function SumOver<T>(q: seq<T>, f: T -> nat): nat {
    if q == [] then 0 else f(q[0]) + SumOver(q[1..], f)
  }

  /** The list without its `i`-th element: what popping leaves of a heap's backing vector. */
  function Without<T>(q: seq<T>, i: nat): (r: seq<T>)
    requires i < |q|
    ensures |r| == |q| - 1
  {
    q[..i] + q[i + 1..]
  }

  lemma {:induction false} WithoutOne<T>(q: seq<T>, i: nat)
    requires i < |q|
    ensures multiset(Without(q, i)) + multiset{q[i]} == multiset(q)
  {
    assert q == q[..i] + ([q[i]] + q[i + 1..]);
  }

  lemma {:induction false} SumConcat<T>(a: seq<T>, b: seq<T>, f: T -> nat)
    ensures SumOver(a + b, f) == SumOver(a, f) + SumOver(b, f)
  {
    if a == [] {
      assert a + b == b;
    } else {
      assert (a + b)[1..] == a[1..] + b;
      SumConcat(a[1..], b, f);
    }
  }

  lemma {:induction false} SumSplit<T>(q: seq<T>, i: nat, f: T -> nat)
    requires i < |q|
    ensures SumOver(q, f) == SumOver(q[..i], f) + f(q[i]) + SumOver(q[i + 1..], f)
  {
    assert q == q[..i] + ([q[i]] + q[i + 1..]);
    SumConcat(q[..i], [q[i]] + q[i + 1..], f);
    assert ([q[i]] + q[i + 1..])[1..] == q[i + 1..];
  }

  lemma {:induction false} SumUpdate<T>(q: seq<T>, i: nat, x: T, f: T -> nat)
    requires i < |q|
    ensures SumOver(q[i := x], f) + f(q[i]) == SumOver(q, f) + f(x)
  {
    SumSplit(q, i, f);
    SumSplit(q[i := x], i, f);
    assert q[i := x][..i] == q[..i] && q[i := x][i + 1..] == q[i + 1..];
  }

  lemma {:induction false} SumWithout<T>(q: seq<T>, i: nat, f: T -> nat)
    requires i < |q|
    ensures SumOver(Without(q, i), f) + f(q[i]) == SumOver(q, f)
  {
    SumSplit(q, i, f);
    SumConcat(q[..i], q[i + 1..], f);
  }

  lemma {:induction false} SumAppend<T>(q: seq<T>, x: T, f: T -> nat)
    ensures SumOver(q + [x], f) == SumOver(q, f) + f(x)
  {
    SumConcat(q, [x], f);
  }

  lemma {:induction false} SumAtLeast<T>(q: seq<T>, i: nat, f: T -> nat)
    requires i < |q|
    ensures f(q[i]) <= SumOver(q, f)
  {
    SumSplit(q, i, f);
  }

  lemma {:induction false} SumAtMost<T>(q: seq<T>, f: T -> nat, bound: nat)
    requires forall i | 0 <= i < |q| :: f(q[i]) <= bound
    ensures SumOver(q, f) <= |q| * bound
  {
    if q != [] {
      SumAtMost(q[1..], f, bound);
    }
  }

  lemma {:induction false} SumZero<T>(q: seq<T>, f: T -> nat)
    requires forall i | 0 <= i < |q| :: f(q[i]) == 0
    ensures SumOver(q, f) == 0
  {
    SumAtMost(q, f, 0);
  }

  // ---- Selections ----

  function Select<T>(q: seq<T>, p: T -> bool): seq<T> {
    if q == [] then [] else (if p(q[0]) then [q[0]] else []) + Select(q[1..], p)
  }

  lemma {:induction false} SelectConcat<T>(a: seq<T>, b: seq<T>, p: T -> bool)
    ensures Select(a + b, p) == Select(a, p) + Select(b, p)
  {
    if a == [] {
      assert a + b == b;
    } else {
      var head := if p(a[0]) then [a[0]] else [];
      calc {
        Select(a + b, p);
        { assert (a + b)[0] == a[0] && (a + b)[1..] == a[1..] + b; }
        head + Select(a[1..] + b, p);
        { SelectConcat(a[1..], b, p); }
        head + (Select(a[1..], p) + Select(b, p));
        (head + Select(a[1..], p)) + Select(b, p);
        Select(a, p) + Select(b, p);
      }
    }
  }

  lemma {:induction false} SelectOne<T>(x: T, p: T -> bool)
    ensures Select([x], p) == if p(x) then [x] else []
  {
    assert [x][1..] == [];
  }

  lemma {:induction false} SelectAppend<T>(q: seq<T>, x: T, p: T -> bool)
    ensures Select(q + [x], p) == if p(x) then Select(q, p) + [x] else Select(q, p)
  {
    SelectConcat(q, [x], p);
    SelectOne(x, p);
  }

  lemma {:induction false} SelectNext<T>(q: seq<T>, i: nat, p: T -> bool)
    requires i < |q|
    ensures Select(q[..i + 1], p) == if p(q[i]) then Select(q[..i], p) + [q[i]] else Select(q[..i], p)
  {
    assert q[..i + 1] == q[..i] + [q[i]];
    SelectAppend(q[..i], q[i], p);
  }

  lemma {:induction false} SelectWithin<T>(q: seq<T>, p: T -> bool)
    ensures forall x | x in Select(q, p) :: x in q && p(x)
    ensures forall x | x in q && p(x) :: x in Select(q, p)
  {
    if q != [] {
      SelectWithin(q[1..], p);
    }
  }

  // ---- Selecting and converting at once ----

  function Gather<T, U>(q: seq<T>, f: T -> seq<U>): seq<U> {
    if q == [] then [] else f(q[0]) + Gather(q[1..], f)
  }

  lemma {:induction false} GatherAppend<T, U>(q: seq<T>, x: T, f: T -> seq<U>)
    ensures Gather(q + [x], f) == Gather(q, f) + f(x)
  {
    if q == [] {
      assert [x][1..] == [];
      assert q + [x] == [x];
    } else {
      assert (q + [x])[0] == q[0] && (q + [x])[1..] == q[1..] + [x];
      GatherAppend(q[1..], x, f);
      assert f(q[0]) + (Gather(q[1..], f) + f(x)) == (f(q[0]) + Gather(q[1..], f)) + f(x);
    }
  }

  lemma {:induction false} GatherNext<T, U>(q: seq<T>, i: nat, f: T -> seq<U>)
    requires i < |q|
    ensures Gather(q[..i + 1], f) == Gather(q[..i], f) + f(q[i])
  {
    assert q[..i + 1] == q[..i] + [q[i]];
    GatherAppend(q[..i], q[i], f);
  }
}
