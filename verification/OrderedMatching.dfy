/** The matcher that tells the consumer which index path comes next in depth-first
    order, knowing only the child counts seen so far (src/core/ordered_queue.rs:203-242). */
module OrderedMatching {
  import opened IndexPaths
  import opened Tracking
  import opened Trees

  /** The value of a matcher: the path it waits for, and per level how many siblings are left. */
  datatype Matcher = Matcher(lookingFor: Path, counts: seq<nat>)

  const START := Matcher([0], [1])

  /** `decrement_remaining_children`, with its saturating subtraction. */
  function Decremented(counts: seq<nat>): (r: seq<nat>)
    ensures |r| == |counts|
  {
    if counts == [] then []
    else
      var last := counts[|counts| - 1];
      counts[..|counts| - 1] + [if last > 0 then last - 1 else 0]
  }

  /** Leaves every level that has no sibling left. */
  function Climb(m: Matcher): Matcher
    decreases |m.counts|
  {
    if m.counts == [] || m.counts[|m.counts| - 1] != 0 then m
    else Climb(Matcher(Incremented(Popped(m.lookingFor)), Popped(m.counts)))
  }

  function Advance(m: Matcher, childCount: nat): Matcher {
    if childCount > 0 then Matcher(m.lookingFor + [0], Decremented(m.counts) + [childCount])
    else Climb(Matcher(Incremented(m.lookingFor), Decremented(m.counts)))
  }

  class OrderedMatcher {
    const lookingFor: IndexPath
    var counts: seq<nat>

    constructor ()
      ensures fresh(lookingFor) && Value() == START
    {
      var path := new IndexPath([0]);
      lookingFor := path;
      counts := [1];
    }

    ghost function Value(): Matcher
      reads this, lookingFor
    {
      Matcher(lookingFor.indices, counts)
    }

    method IsNone() returns (none: bool)
      ensures none <==> Value().lookingFor == []
    {
      none := |lookingFor.indices| == 0;
    }

    method AdvancePast(childCount: nat)
      modifies this, lookingFor
      ensures Value() == Advance(old(Value()), childCount)
    {
      if |counts| > 0 {
        var last := counts[|counts| - 1];
        counts := counts[|counts| - 1 := if last > 0 then last - 1 else 0];
      }
      assert counts == Decremented(old(counts));
      if childCount > 0 {
        lookingFor.Push(0);
        counts := counts + [childCount];
      } else {
        lookingFor.IncrementLast();
        ghost var start := Value();
        while |counts| > 0 && counts[|counts| - 1] == 0
          invariant Climb(Value()) == Climb(start)
          decreases |counts|
        {
          lookingFor.Pop();
          counts := counts[..|counts| - 1];
          if |lookingFor.indices| > 0 {
            lookingFor.IncrementLast();
          }
        }
      }
    }
  }

  // ---- Run over a preorder listing, the matcher names each directory just before it comes ----

  /** What the consumer sees of a directory: where it is and how many children it has. */
  function AsVisit(m: Mode, n: Node): Visit {
    Visit(n.path, |Kids(m, n.tree)|)
  }

  function Visits(m: Mode, nodes: seq<Node>): (r: seq<Visit>)
    ensures |r| == |nodes| && forall k | 0 <= k < |r| :: r[k] == AsVisit(m, nodes[k])
  {
    seq(|nodes|, k requires 0 <= k < |nodes| => AsVisit(m, nodes[k]))
  }

  /** The matcher's step on values. */
  const STEP: (Matcher, nat) -> Matcher := (s: Matcher, childCount: nat) => Advance(s, childCount)

  predicate IsPath(m: Mode, t: Tree, rel: Path)
    decreases rel
  {
    rel == [] || (rel[0] < |Kids(m, t)| && IsPath(m, Kids(m, t)[rel[0]], rel[1..]))
  }

  /** Along the path `rel` below `t`: at each level, how many siblings come later. */
  function LaterSiblings(m: Mode, t: Tree, rel: Path): (r: seq<nat>)
    requires IsPath(m, t, rel)
    ensures |r| == |rel|
    decreases rel
  {
    if rel == [] then []
    else [|Kids(m, t)| - rel[0] - 1] + LaterSiblings(m, Kids(m, t)[rel[0]], rel[1..])
  }

  /** The matcher waits for the directory at `p + rel`, reached from the directory `t` at `p`
      whose levels have `later` siblings still to come. The last count also counts the
      awaited directory itself. */
  ghost predicate WaitsBelow(m: Mode, t: Tree, p: Path, later: seq<nat>, s: Matcher, rel: Path) {
    && s.lookingFor == p + rel
    && IsPath(m, t, rel)
    && s.counts == Incremented(later + LaterSiblings(m, t, rel))
  }

  ghost predicate WaitsFor(m: Mode, t: Tree, p: Path, later: seq<nat>, s: Matcher, path: Path) {
    s.lookingFor == path && exists rel :: WaitsBelow(m, t, p, later, s, rel)
  }

  ghost function Waits(m: Mode, t: Tree, p: Path, later: seq<nat>): (Matcher, Path) -> bool {
    (s, path) => WaitsFor(m, t, p, later, s, path)
  }

  /** Waiting below the `i`-th child is waiting below the parent. */
  lemma {:induction false} WaitsUp(m: Mode, t: Tree, p: Path, later: seq<nat>, i: nat, s: Matcher, below: Path)
    requires i < |Kids(m, t)|
    requires WaitsBelow(m, Kids(m, t)[i], p + [i], later + [|Kids(m, t)| - i - 1], s, below)
    ensures WaitsBelow(m, t, p, later, s, [i] + below)
  {
    var kid, left := Kids(m, t)[i], |Kids(m, t)| - i - 1;
    var rel := [i] + below;
    assert rel[1..] == below;
    assert p + [i] + below == p + rel;
    assert later + [left] + LaterSiblings(m, kid, below) == later + LaterSiblings(m, t, rel);
  }

  lemma {:induction false} TracksUp(m: Mode, t: Tree, p: Path, later: seq<nat>, i: nat, s: Matcher, visits: seq<Visit>)
    requires i < |Kids(m, t)|
    requires Tracks(STEP, Waits(m, Kids(m, t)[i], p + [i], later + [|Kids(m, t)| - i - 1]), s, visits)
    ensures Tracks(STEP, Waits(m, t, p, later), s, visits)
  {
    var kid, laterKid := Kids(m, t)[i], later + [|Kids(m, t)| - i - 1];
    forall x, path | Waits(m, kid, p + [i], laterKid)(x, path) ensures Waits(m, t, p, later)(x, path) {
      var below :| WaitsBelow(m, kid, p + [i], laterKid, x, below);
      WaitsUp(m, t, p, later, i, x, below);
    }
    TracksWeaker(STEP, Waits(m, kid, p + [i], laterKid), Waits(m, t, p, later), s, visits);
  }

  /** Arriving at the directory `p`. */
  function Arrived(p: Path, later: seq<nat>): Matcher {
    Matcher(p, Incremented(later))
  }

  /** Having left everything at or below the directory `p`. */
  function Left(p: Path, later: seq<nat>): Matcher {
    Climb(Matcher(Incremented(p), later))
  }

  lemma {:induction false} LeaveLeaf(p: Path, later: seq<nat>)
    requires later != []
    ensures Advance(Arrived(p, later), 0) == Left(p, later)
  {
    assert Decremented(Incremented(later)) == later;
  }

  lemma {:induction false} EnterFirstChild(p: Path, later: seq<nat>, k: nat)
    requires later != [] && k > 0
    ensures Advance(Arrived(p, later), k) == Arrived(p + [0], later + [k - 1])
  {
    assert Decremented(Incremented(later)) == later;
    assert Incremented(later + [k - 1]) == later + [k];
  }

  /** Leaving one of several siblings is arriving at the next. */
  lemma {:induction false} LeaveToSibling(p: Path, i: nat, later: seq<nat>, left: nat)
    requires left > 0
    ensures Left(p + [i], later + [left]) == Arrived(p + [i + 1], later + [left - 1])
  {
    assert Incremented(p + [i]) == p + [i + 1];
    assert Incremented(later + [left - 1]) == later + [left];
  }

  /** Leaving the last sibling is leaving the parent. */
  lemma {:induction false} LeaveToParent(p: Path, i: nat, later: seq<nat>)
    ensures Left(p + [i], later + [0]) == Left(p, later)
  {
    assert Incremented(p + [i]) == p + [i + 1];
    assert Popped(p + [i + 1]) == p && Popped(later + [0]) == later;
  }

  /** The matcher tracks a whole subtree and then has left it. */
  ghost predicate Passes(m: Mode, t: Tree, p: Path, later: seq<nat>, s: Matcher, visits: seq<Visit>) {
    && Tracks(STEP, Waits(m, t, p, later), s, visits)
    && StateAfter(STEP, s, visits) == Left(p, later)
  }

  lemma {:induction false} VisitsOfNode(m: Mode, t: Tree, p: Path)
    ensures Visits(m, Pre(m, t, p)) == [Visit(p, |Kids(m, t)|)] + Visits(m, PreKids(m, t, p, 0))
  {
  }

  lemma {:induction false} VisitsOfKids(m: Mode, t: Tree, p: Path, i: nat)
    requires i < |Kids(m, t)|
    ensures Visits(m, PreKids(m, t, p, i))
         == Visits(m, Pre(m, Kids(m, t)[i], p + [i])) + Visits(m, PreKids(m, t, p, i + 1))
  {
  }

  lemma {:induction false} PassesFirst(
    m: Mode, t: Tree, p: Path, later: seq<nat>, s: Matcher, next: Matcher, k: nat, rest: seq<Visit>)
    requires WaitsFor(m, t, p, later, s, p)
    requires next == Advance(s, k)
    requires Passes(m, t, p, later, next, rest)
    ensures Passes(m, t, p, later, s, [Visit(p, k)] + rest)
  {
    assert STEP(s, k) == next;
    TracksFirst(STEP, Waits(m, t, p, later), s, Visit(p, k), rest);
  }

  lemma {:induction false} ArrivedWaits(m: Mode, t: Tree, p: Path, later: seq<nat>)
    ensures WaitsFor(m, t, p, later, Arrived(p, later), p)
  {
    assert p + [] == p && later + [] == later;
    assert WaitsBelow(m, t, p, later, Arrived(p, later), []);
  }

  lemma {:induction false} PassesNode(m: Mode, t: Tree, p: Path, later: seq<nat>)
    requires later != []
    ensures Passes(m, t, p, later, Arrived(p, later), Visits(m, Pre(m, t, p)))
    decreases t, |Kids(m, t)| + 1
  {
    var s, k := Arrived(p, later), |Kids(m, t)|;
    var rest := Visits(m, PreKids(m, t, p, 0));
    VisitsOfNode(m, t, p);
    ArrivedWaits(m, t, p, later);
    if k > 0 {
      EnterFirstChild(p, later, k);
      PassesKids(m, t, p, later, 0);
      PassesFirst(m, t, p, later, s, Arrived(p + [0], later + [k - 1]), k, rest);
    } else {
      LeaveLeaf(p, later);
      assert rest == [];
      PassesFirst(m, t, p, later, s, Left(p, later), k, rest);
    }
  }

  /** One sibling's subtree, then the rest. */
  lemma {:induction false} PassesThen(m: Mode, t: Tree, p: Path, later: seq<nat>, i: nat, s: Matcher, next: Matcher,
                                      first: seq<Visit>, rest: seq<Visit>)
    requires i < |Kids(m, t)|
    requires Passes(m, Kids(m, t)[i], p + [i], later + [|Kids(m, t)| - i - 1], s, first)
    requires next == Left(p + [i], later + [|Kids(m, t)| - i - 1])
    requires Passes(m, t, p, later, next, rest)
    ensures Passes(m, t, p, later, s, first + rest)
  {
    TracksUp(m, t, p, later, i, s, first);
    StateAfterAppend(STEP, s, first, rest);
    TracksAppend(STEP, Waits(m, t, p, later), s, first, rest);
  }

  lemma {:induction false} PassesKids(m: Mode, t: Tree, p: Path, later: seq<nat>, i: nat)
    requires later != [] && i < |Kids(m, t)|
    ensures Passes(m, t, p, later, Arrived(p + [i], later + [|Kids(m, t)| - i - 1]), Visits(m, PreKids(m, t, p, i)))
    decreases t, |Kids(m, t)| - i
  {
    var kid, left := Kids(m, t)[i], |Kids(m, t)| - i - 1;
    var s := Arrived(p + [i], later + [left]);
    var first, rest := Visits(m, Pre(m, kid, p + [i])), Visits(m, PreKids(m, t, p, i + 1));
    VisitsOfKids(m, t, p, i);
    PassesNode(m, kid, p + [i], later + [left]);
    var next := Left(p + [i], later + [left]);
    if left > 0 {
      LeaveToSibling(p, i, later, left);
      PassesKids(m, t, p, later, i + 1);
    } else {
      LeaveToParent(p, i, later);
      assert rest == [];
    }
    PassesThen(m, t, p, later, i, s, next, first, rest);
  }

  /** The matcher after the first directories of a listing went by, each with its true child count. */
  function After(m: Mode, nodes: seq<Node>): Matcher {
    StateAfter(STEP, START, Visits(m, nodes))
  }

  /** From its start state the matcher names the directories of any tree in preorder: before
      the `k`-th comes it waits for exactly that path, with at each level the number of
      siblings still to come (at the last level counting the awaited one too); and it is
      empty after the last one. */
  lemma {:induction false} MatcherFollowsPreorder(m: Mode, t: Tree, k: nat)
    requires k <= |Pre(m, t, [0])|
    ensures var nodes := Pre(m, t, [0]);
            var s := After(m, nodes[..k]);
            && (k < |nodes| ==>
                  && s.lookingFor == nodes[k].path
                  && s.lookingFor != []
                  && IsPath(m, t, s.lookingFor[1..])
                  && s.counts == Incremented([0] + LaterSiblings(m, t, s.lookingFor[1..])))
            && (k == |nodes| ==> s == Matcher([], []))
  {
    var nodes := Pre(m, t, [0]);
    PassesNode(m, t, [0], [0]);
    if k < |nodes| {
      TracksAt(STEP, Waits(m, t, [0], [0]), START, Visits(m, nodes), k);
      assert Visits(m, nodes)[..k] == Visits(m, nodes[..k]);
      var s := After(m, nodes[..k]);
      var rel :| WaitsBelow(m, t, [0], [0], s, rel);
      assert s.lookingFor[1..] == rel;
    } else {
      assert nodes[..k] == nodes;
      assert Incremented([0]) == [1];
      assert Popped<nat>([1]) == [] && Popped<nat>([0]) == [];
      assert Left([0], [0]) == Matcher([], []);
    }
  }

  /** One more directory: the matcher after `k + 1` directories is the one after `k`, advanced once. */
  lemma {:induction false} AfterStep(m: Mode, nodes: seq<Node>, k: nat)
    requires k < |nodes|
    ensures After(m, nodes[..k + 1]) == Advance(After(m, nodes[..k]), |Kids(m, nodes[k].tree)|)
  {
    assert Visits(m, nodes[..k + 1]) == Visits(m, nodes[..k]) + [AsVisit(m, nodes[k])];
    StateAfterAppend(STEP, START, Visits(m, nodes[..k]), [AsVisit(m, nodes[k])]);
  }
}
