/** Running a machine over a listing of visits, and the machine naming each visit just
    before it comes. Nothing here knows what the machine is. */
module Tracking {
  import opened IndexPaths

  datatype Visit = Visit(path: Path, childCount: nat)

  function StateAfter<S>(step: (S, nat) -> S, s: S, visits: seq<Visit>): S
    decreases |visits|
  {
    if visits == [] then s else StateAfter(step, step(s, visits[0].childCount), visits[1..])
  }

  /** Before each visit comes, the machine is in a `good` state for its path. */
  ghost predicate Tracks<S>(step: (S, nat) -> S, good: (S, Path) -> bool, s: S, visits: seq<Visit>)
    decreases |visits|
  {
    visits == [] || (
      && good(s, visits[0].path)
      && Tracks(step, good, step(s, visits[0].childCount), visits[1..]))
  }

  lemma {:induction false} StateAfterAppend<S>(step: (S, nat) -> S, s: S, a: seq<Visit>, b: seq<Visit>)
    ensures StateAfter(step, s, a + b) == StateAfter(step, StateAfter(step, s, a), b)
    decreases |a|
  {
    if a == [] {
      assert a + b == b;
    } else {
      assert (a + b)[1..] == a[1..] + b;
      StateAfterAppend(step, step(s, a[0].childCount), a[1..], b);
    }
  }

  lemma {:induction false} TracksFirst<S>(
    step: (S, nat) -> S, good: (S, Path) -> bool, s: S, v: Visit, rest: seq<Visit>)
    requires good(s, v.path)
    requires Tracks(step, good, step(s, v.childCount), rest)
    ensures Tracks(step, good, s, [v] + rest)
    ensures StateAfter(step, s, [v] + rest) == StateAfter(step, step(s, v.childCount), rest)
  {
    assert ([v] + rest)[1..] == rest;
  }

  lemma {:induction false} TracksAppend<S>(
    step: (S, nat) -> S, good: (S, Path) -> bool, s: S, a: seq<Visit>, b: seq<Visit>)
    requires Tracks(step, good, s, a)
    requires Tracks(step, good, StateAfter(step, s, a), b)
    ensures Tracks(step, good, s, a + b)
    decreases |a|
  {
    if a == [] {
      assert a + b == b;
    } else {
      assert (a + b)[1..] == a[1..] + b;
      TracksAppend(step, good, step(s, a[0].childCount), a[1..], b);
    }
  }

  lemma {:induction false} TracksWeaker<S(!new)>(step: (S, nat) -> S, good: (S, Path) -> bool, fair: (S, Path) -> bool,
                                           s: S, visits: seq<Visit>)
    requires Tracks(step, good, s, visits)
    requires forall x, path | good(x, path) :: fair(x, path)
    ensures Tracks(step, fair, s, visits)
    decreases |visits|
  {
    if visits != [] {
      TracksWeaker(step, good, fair, step(s, visits[0].childCount), visits[1..]);
    }
  }

  lemma {:induction false} TracksAt<S>(step: (S, nat) -> S, good: (S, Path) -> bool, s: S, visits: seq<Visit>, k: nat)
    requires Tracks(step, good, s, visits) && k < |visits|
    ensures good(StateAfter(step, s, visits[..k]), visits[k].path)
    decreases k
  {
    if k > 0 {
      TracksAt(step, good, step(s, visits[0].childCount), visits[1..], k - 1);
      assert visits[..k][1..] == visits[1..][..k - 1];
    }
  }
}
