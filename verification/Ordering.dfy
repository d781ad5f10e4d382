/** The consumer's side: what it hands out is the preorder of the tree, left to right. */
module Ordering {
  import opened IndexPaths
  import opened Trees
  import opened Heaps
  import opened Folds
  import opened Protocol
  import opened Accounting
  import opened Pending
  import OM = OrderedMatching

  function ResultNode(r: Ordered): Node {
    Node(r.path, r.tree)
  }

  ghost predicate HandedOut(c: Config, yielded: seq<Ordered>, n: nat) {
    && n <= |yielded| && n <= |Nodes(c)|
    && forall k | 0 <= k < n :: ResultNode(yielded[k]) == Nodes(c)[k]
  }

  /** The matcher stands where the directories handed out so far put it. */
  ghost predicate InStep(c: Config, r: Reorder) {
    |r.yielded| <= |Nodes(c)| && r.matcher == OM.After(Parallel, Nodes(c)[..|r.yielded|])
  }

  /** What was handed out is a prefix of the preorder. The matcher is in step as long as it
      can still be used; the only thing ever handed out of order is the last one, by a call
      that was already under way when the stop flag went up. */
  ghost predicate Orderly(c: Config, s: State) {
    var r := s.reorder;
    var over := s.shared.stop && r.pc in {Top, Done};
    if r.stray then
      over && r.yielded != [] && HandedOut(c, r.yielded, |r.yielded| - 1) && !HandedOut(c, r.yielded, |r.yielded|)
    else
      HandedOut(c, r.yielded, |r.yielded|) && (InStep(c, r) || over)
  }

  /** The child count a directory of the unstopped walk reports. */
  ghost predicate Right(r: Ordered) {
    r.childCount == |Kids(Parallel, r.tree)|
  }

  ghost predicate Reported(s: State) {
    !s.shared.stop ==> (forall r | r in s.shared.results :: Right(r)) && (forall r | r in s.reorder.buffer :: Right(r))
  }

  lemma {:induction false} WorkerReports(c: Config, w: nat, free: bool, h: Shared, pc: Pc, h': Shared, pc': Pc)
    requires WorkerMoves(c, w, free, h, pc, h', pc') && PcOk(h.stop, pc) && !h.stop
    requires forall r | r in h.results :: Right(r)
    ensures forall r | r in h'.results :: Right(r)
  {
    if pc.Sending? && !h.receiverGone {
      assert Right(Result(pc.spec, pc.sent));
    }
  }

  lemma {:induction false} ReportedStep(c: Config, s: State, a: Actor, s': State)
    requires Shaped(c, s) && Reported(s) && Step(c, s, a, s')
    ensures Reported(s')
  {
    if !s'.shared.stop {
      match a
      case Worker(w) =>
        WorkerShape(c, w, IteratorFree(s.workers), s.shared, s.workers[w], s'.shared, s'.workers[w]);
        WorkerReports(c, w, IteratorFree(s.workers), s.shared, s.workers[w], s'.shared, s'.workers[w]);
      case Consumer =>
      case Owner =>
    }
  }

  // ---- Where a result can be ----

  lemma {:induction false} SumFinds(q: seq<Ordered>, x: Node)
    requires SumOver(q, ResultAt(x)) > 0
    ensures exists i :: 0 <= i < |q| && ResultNode(q[i]) == x
  {
    if ResultOcc(q[0], x) == 0 {
      SumFinds(q[1..], x);
      var i :| 0 <= i < |q[1..]| && ResultNode(q[1..][i]) == x;
      assert ResultNode(q[i + 1]) == x;
    }
  }

  /** A directory occurs in an increasing listing once at most. */
  lemma {:induction false} OccOnce(q: seq<Node>, k: nat)
    requires Increasing(q) && k < |q|
    ensures Occ(q, q[k]) == 1
  {
    if k > 0 {
      assert Before(q[0].path, q[k].path);
      SliceCmpFlips(q[0].path, q[k].path);
      assert q[1..][k - 1] == q[k];
      OccOnce(q[1..], k - 1);
    } else {
      OccIn(q[1..], q[0]);
      if q[0] in q[1..] {
        var j :| 0 <= j < |q[1..]| && q[1..][j] == q[0];
        assert Before(q[0].path, q[j + 1].path);
        SliceCmpFlips(q[0].path, q[j + 1].path);
      }
    }
  }

  lemma {:induction false} YieldedOcc(c: Config, yielded: seq<Ordered>, n: nat, k: nat)
    requires HandedOut(c, yielded, n) && k < n
    ensures SumOver(yielded, ResultAt(Nodes(c)[k])) >= 1
  {
    SumAtLeast(yielded, k, ResultAt(Nodes(c)[k]));
  }

  /** How much of a directory can have left its worker. */
  lemma {:induction false} AtMostTree(c: Config, s: State, x: Node)
    requires AccountedAt(c, s, x)
    ensures InFlight(s.shared, x) + Arrived(s.reorder, x) <= Occ(Nodes(c), x)
  {
  }

  /** Every buffered result lies at or after the awaited place of the preorder. */
  lemma {:induction false} BufferedIsLater(c: Config, s: State, i: nat) returns (k: nat)
    requires Accounted(c, s) && HandedOut(c, s.reorder.yielded, |s.reorder.yielded|)
    requires i < |s.reorder.buffer|
    ensures |s.reorder.yielded| <= k < |Nodes(c)| && Nodes(c)[k] == ResultNode(s.reorder.buffer[i])
  {
    var x := ResultNode(s.reorder.buffer[i]);
    SumAtLeast(s.reorder.buffer, i, ResultAt(x));
    assert AccountedAt(c, s, x);
    AtMostTree(c, s, x);
    OccIn(Nodes(c), x);
    k :| 0 <= k < |Nodes(c)| && Nodes(c)[k] == x;
    PreOrdered(Parallel, c.root, [0]);
    OccOnce(Nodes(c), k);
    if k < |s.reorder.yielded| {
      YieldedOcc(c, s.reorder.yielded, |s.reorder.yielded|, k);
    }
  }

  lemma {:induction false} ListingOrder(c: Config, j: nat, k: nat)
    requires j <= k < |Nodes(c)|
    ensures Nodes(c)[j].path == Nodes(c)[k].path || Before(Nodes(c)[j].path, Nodes(c)[k].path)
  {
    PreOrdered(Parallel, c.root, [0]);
  }

  /** The awaited path is the least of all that have not been handed out. */
  lemma {:induction false} AwaitedIsLeast(c: Config, s: State, k: nat)
    requires HandedOut(c, s.reorder.yielded, |s.reorder.yielded|) && InStep(c, s.reorder)
    requires |s.reorder.yielded| <= k < |Nodes(c)|
    ensures var awaited := s.reorder.matcher.lookingFor;
            awaited == Nodes(c)[k].path || Before(awaited, Nodes(c)[k].path)
  {
    OM.MatcherFollowsPreorder(Parallel, c.root, |s.reorder.yielded|);
    ListingOrder(c, |s.reorder.yielded|, k);
  }

  /** Whatever is not handed out yet, be it scheduled, owed by a worker, in the result channel or
      buffered, has an index path at or after the awaited one. */
  lemma {:induction false} OutstandingIsLater(c: Config, s: State, x: Node)
    requires Accounted(c, s) && Orderly(c, s) && InStep(c, s.reorder) && !s.shared.stop
    requires Queued(s.shared, x) + SumOver(s.workers, DebtAt(x)) + InFlight(s.shared, x)
             + SumOver(s.reorder.buffer, ResultAt(x)) > 0
    ensures x in Nodes(c)
    ensures var awaited := s.reorder.matcher.lookingFor; awaited == x.path || Before(awaited, x.path)
  {
    assert AccountedAt(c, s, x);
    OccIn(Nodes(c), x);
    var k :| 0 <= k < |Nodes(c)| && Nodes(c)[k] == x;
    PreOrdered(Parallel, c.root, [0]);
    OccOnce(Nodes(c), k);
    if k < |s.reorder.yielded| {
      YieldedOcc(c, s.reorder.yielded, |s.reorder.yielded|, k);
    }
    AwaitedIsLeast(c, s, k);
  }

  /** Testing the heap's top is enough: if the awaited directory is buffered at all, it is the top. */
  lemma {:induction false} AwaitedIsTop(c: Config, s: State, i: nat)
    requires Accounted(c, s) && HandedOut(c, s.reorder.yielded, |s.reorder.yielded|)
    requires i < |s.reorder.buffer| && |s.reorder.yielded| < |Nodes(c)|
    requires s.reorder.buffer[i].path == Nodes(c)[|s.reorder.yielded|].path
    ensures ResultTop(s.reorder.buffer, i)
  {
    var buffer := s.reorder.buffer;
    forall j | 0 <= j < |buffer| ensures buffer[i].path == buffer[j].path || Before(buffer[i].path, buffer[j].path) {
      var k := BufferedIsLater(c, s, j);
      ListingOrder(c, |s.reorder.yielded|, k);
    }
    ResultTopIsLeast(buffer, i);
  }

  /** What the consumer pops on a match is the next directory of the preorder. */
  lemma {:induction false} MatchIsNext(c: Config, s: State, i: nat)
    requires Accounted(c, s) && HandedOut(c, s.reorder.yielded, |s.reorder.yielded|) && InStep(c, s.reorder)
    requires i < |s.reorder.buffer| && s.reorder.buffer[i].path == s.reorder.matcher.lookingFor
    ensures |s.reorder.yielded| < |Nodes(c)| && ResultNode(s.reorder.buffer[i]) == Nodes(c)[|s.reorder.yielded|]
  {
    var n := |s.reorder.yielded|;
    var k := BufferedIsLater(c, s, i);
    OM.MatcherFollowsPreorder(Parallel, c.root, n);
    PreOrdered(Parallel, c.root, [0]);
    PathsDistinct(Nodes(c), n, k);
  }

  lemma {:induction false} YieldOrderly(c: Config, s: State, s': State)
    requires Accounted(c, s) && Reported(s) && Orderly(c, s) && s.reorder.pc !in {Top, Done}
    requires YieldStep(s.reorder, s'.reorder) && s'.shared.stop == s.shared.stop
    ensures Orderly(c, s')
  {
    var r, r' := s.reorder, s'.reorder;
    var i: nat :|
      && ResultTop(r.buffer, i) && r.buffer[i].path == r.matcher.lookingFor
      && r' == r.(pc := Top, buffer := Without(r.buffer, i),
                  matcher := OM.Advance(r.matcher, r.buffer[i].childCount), yielded := r.yielded + [r.buffer[i]]);
    MatchIsNext(c, s, i);
    if !s.shared.stop {
      assert Right(r.buffer[i]);
      OM.AfterStep(Parallel, Nodes(c), |r.yielded|);
    }
  }

  // ---- The fallback is never taken in an unstopped walk ----

  /** When all workers have left an unstopped walk and nothing is in flight, the buffer is
      exactly what has not been handed out: it is empty only at the very end, and otherwise
      the awaited directory is on top. */
  lemma {:induction false} DisconnectedMatches(c: Config, s: State)
    requires Sensible(c) && Shaped(c, s) && Accounted(c, s) && PendingExact(s) && ExitIsFinal(s) && Orderly(c, s)
    requires !s.shared.stop && Disconnected(s.workers) && s.shared.results == []
    ensures |s.reorder.yielded| < |Nodes(c)| <==> TopMatches(s.reorder)
    ensures |s.reorder.yielded| == |Nodes(c)| <==> s.reorder.buffer == []
  {
    var n, buffer := |s.reorder.yielded|, s.reorder.buffer;
    assert s.workers[0].Exited?;
    OM.MatcherFollowsPreorder(Parallel, c.root, n);
    if n < |Nodes(c)| {
      var x := Nodes(c)[n];
      assert AccountedAt(c, s, x);
      QuietDelivered(c, s, x);
      OccIn(Nodes(c), x);
      if SumOver(s.reorder.yielded, ResultAt(x)) > 0 {
        SumFinds(s.reorder.yielded, x);
        var k :| 0 <= k < n && ResultNode(s.reorder.yielded[k]) == x;
        PreOrdered(Parallel, c.root, [0]);
        PathsDistinct(Nodes(c), k, n);
      }
      SumFinds(buffer, x);
      var i :| 0 <= i < |buffer| && ResultNode(buffer[i]) == x;
      AwaitedIsTop(c, s, i);
    }
    if buffer != [] {
      var k := BufferedIsLater(c, s, 0);
    }
  }

  /** What the fallback hands out is never the awaited directory. */
  lemma {:induction false} FallbackStrays(c: Config, s: State, r': Reorder)
    requires Orderly(c, s) && !s.reorder.stray && InStep(c, s.reorder)
    requires FallbackStep(s.reorder, r') && !TopMatches(s.reorder)
    ensures HandedOut(c, r'.yielded, |s.reorder.yielded|) && !HandedOut(c, r'.yielded, |r'.yielded|)
  {
    OM.MatcherFollowsPreorder(Parallel, c.root, |s.reorder.yielded|);
  }

  lemma {:induction false} OrderlyStep(c: Config, s: State, a: Actor, s': State)
    requires Sensible(c) && Shaped(c, s) && Accounted(c, s) && PendingExact(s) && ExitIsFinal(s)
    requires Reported(s) && Orderly(c, s)
    requires Step(c, s, a, s')
    ensures Orderly(c, s')
  {
    match a
    case Worker(w) =>
      WorkerShape(c, w, IteratorFree(s.workers), s.shared, s.workers[w], s'.shared, s'.workers[w]);
    case Consumer =>
      var r, r' := s.reorder, s'.reorder;
      match r.pc {
        case Checking =>
          if TopMatches(r) {
            YieldOrderly(c, s, s');
          }
        case Waiting =>
          if s.shared.results == [] && Disconnected(s.workers) {
            if TopMatches(r) {
              YieldOrderly(c, s, s');
            } else if r.buffer != [] {
              if !s.shared.stop {
                DisconnectedMatches(c, s);
                assert false;
              }
              FallbackStrays(c, s, r');
            }
          }
        case _ =>
      }
    case Owner =>
  }

  lemma {:induction false} OrderlyInit(c: Config, s: State)
    requires Init(c, s)
    ensures Orderly(c, s) && Reported(s)
  {
    assert Nodes(c)[..0] == [];
  }
}
