/** The invariant of the parallel walk, and what it says about every run. */
module Safety {
  import opened IndexPaths
  import opened Trees
  import opened Heaps
  import opened Folds
  import opened Protocol
  import opened Accounting
  import opened Pending
  import opened Ordering
  import OM = OrderedMatching

  /** Without a stop the consumer is done only after the whole tree, with an empty matcher. */
  ghost predicate DoneIsAll(c: Config, s: State) {
    !s.shared.stop && s.reorder.pc == Done ==>
      |s.reorder.yielded| == |Nodes(c)| && s.reorder.matcher == OM.Matcher([], [])
  }

  ghost predicate Inv(c: Config, s: State) {
    && Shaped(c, s)
    && Accounted(c, s)
    && PendingExact(s)
    && ExitIsFinal(s)
    && Reported(s)
    && Orderly(c, s)
    && DoneIsAll(c, s)
  }

  lemma {:induction false} DoneStep(c: Config, s: State, a: Actor, s': State)
    requires Sensible(c) && Inv(c, s) && Step(c, s, a, s')
    ensures DoneIsAll(c, s')
  {
    if a.Consumer? && s'.reorder.pc == Done && !s.shared.stop {
      OM.MatcherFollowsPreorder(Parallel, c.root, |s.reorder.yielded|);
      assert Nodes(c)[..|Nodes(c)|] == Nodes(c);
      if s.reorder.pc == Waiting {
        DisconnectedMatches(c, s);
      }
    }
  }

  lemma {:induction false} InvInit(c: Config, s: State)
    requires Init(c, s)
    ensures Inv(c, s)
  {
    AccountedInit(c, s);
    PendingInit(c, s);
    OrderlyInit(c, s);
  }

  lemma {:induction false} InvStep(c: Config, s: State, a: Actor, s': State)
    requires Sensible(c) && Inv(c, s) && Step(c, s, a, s')
    ensures Inv(c, s')
  {
    ShapedStep(c, s, a, s');
    AccountedStep(c, s, a, s');
    PendingStep(c, s, a, s');
    ExitStep(c, s, a, s');
    ReportedStep(c, s, a, s');
    OrderlyStep(c, s, a, s');
    DoneStep(c, s, a, s');
  }

  /** A longer run is a run and a step. */
  lemma {:induction false} LastStep(c: Config, run: seq<State>) returns (before: seq<State>, a: Actor)
    requires IsRun(c, run) && |run| > 1
    ensures before == run[..|run| - 1] && IsRun(c, before)
    ensures Step(c, before[|before| - 1], a, run[|run| - 1])
  {
    before := run[..|run| - 1];
    forall i | 0 <= i < |before| - 1 ensures Next(c, before[i], before[i + 1]) {
      assert Next(c, run[i], run[i + 1]);
    }
    var k := |run| - 2;
    assert Next(c, run[k], run[k + 1]);
    a :| Step(c, run[k], a, run[k + 1]);
  }

  lemma {:induction false} InvRun(c: Config, run: seq<State>)
    requires Sensible(c) && IsRun(c, run)
    ensures Inv(c, run[|run| - 1])
  {
    if |run| == 1 {
      InvInit(c, run[0]);
    } else {
      var before, a := LastStep(c, run);
      InvRun(c, before);
      InvStep(c, before[|before| - 1], a, run[|run| - 1]);
    }
  }

  lemma {:induction false} InvReachable(c: Config, s: State)
    requires Sensible(c) && Reachable(c, s)
    ensures Inv(c, s)
  {
    var run :| IsRun(c, run) && run[|run| - 1] == s;
    InvRun(c, run);
  }

  // ---- What a caller of the iterator sees ----

  /** The `Result<ReadDir>`s handed out so far. */
  function Output(s: State): (r: seq<ReadResult>)
    ensures |r| == |s.reorder.yielded| && forall k | 0 <= k < |r| :: r[k] == s.reorder.yielded[k].tree.read
  {
    seq(|s.reorder.yielded|, k requires 0 <= k < |s.reorder.yielded| => s.reorder.yielded[k].tree.read)
  }

  /** What the stack walker hands out. */
  function SerialOutput(c: Config): seq<ReadResult> {
    Reads(Pre(Serial, c.root, [0]))
  }

  /** Confluence. Whatever the number of workers, the capacity, the buffer limit and the
      interleaving: as long as nobody stops the walk, the output is a prefix of the preorder
      of the scheduled tree, and when the iterator has returned None it is all of it. */
  lemma {:induction false} OutputIsPreorder(c: Config, s: State)
    requires Sensible(c) && Reachable(c, s) && !s.shared.stop
    ensures Output(s) <= Reads(Nodes(c))
    ensures s.reorder.pc == Done ==> Output(s) == Reads(Nodes(c))
  {
    InvReachable(c, s);
    forall k | 0 <= k < |s.reorder.yielded| ensures Output(s)[k] == Reads(Nodes(c))[k] {
      assert ResultNode(s.reorder.yielded[k]) == Nodes(c)[k];
    }
  }

  /** With aligned streaming that is the output of the stack walker. */
  lemma {:induction false} OutputIsSerial(c: Config, s: State)
    requires Sensible(c) && Reachable(c, s) && !s.shared.stop && Aligned(c.root)
    ensures Output(s) <= SerialOutput(c)
    ensures s.reorder.pc == Done ==> Output(s) == SerialOutput(c)
  {
    OutputIsPreorder(c, s);
    SameWalkIffAligned(c.root, [0]);
  }

  /** Exactly once: at every moment of an unstopped walk each directory of the tree is in one
      place, and a directory that is not of the tree is nowhere. */
  lemma {:induction false} ExactlyOnce(c: Config, s: State, x: Node)
    requires Sensible(c) && Reachable(c, s) && !s.shared.stop
    ensures Queued(s.shared, x) + SumOver(s.workers, DebtAt(x)) + InFlight(s.shared, x) + Arrived(s.reorder, x)
         == if x in Nodes(c) then 1 else 0
  {
    InvReachable(c, s);
    assert AccountedAt(c, s, x);
    OnceOrNever(c, x);
  }

  /** In an unstopped walk everything that is not handed out yet, wherever it is, has an index path
      at or after the awaited one. */
  lemma {:induction false} AwaitedComesFirst(c: Config, s: State, x: Node)
    requires Sensible(c) && Reachable(c, s) && !s.shared.stop
    requires Queued(s.shared, x) + SumOver(s.workers, DebtAt(x)) + InFlight(s.shared, x)
             + SumOver(s.reorder.buffer, ResultAt(x)) > 0
    ensures var awaited := s.reorder.matcher.lookingFor; awaited == x.path || Before(awaited, x.path)
  {
    InvReachable(c, s);
    OutstandingIsLater(c, s, x);
  }

  /** Stopped or not, no directory's result is sent twice, and none is made up. */
  lemma {:induction false} NeverTwice(c: Config, s: State, x: Node)
    requires Sensible(c) && Reachable(c, s)
    ensures InFlight(s.shared, x) + Arrived(s.reorder, x) <= if x in Nodes(c) then 1 else 0
  {
    InvReachable(c, s);
    assert AccountedAt(c, s, x);
    OnceOrNever(c, x);
  }

  lemma {:induction false} OnceOrNever(c: Config, x: Node)
    ensures Occ(Nodes(c), x) == if x in Nodes(c) then 1 else 0
  {
    OccIn(Nodes(c), x);
    if x in Nodes(c) {
      var k :| 0 <= k < |Nodes(c)| && Nodes(c)[k] == x;
      PreOrdered(Parallel, c.root, [0]);
      OccOnce(Nodes(c), k);
    }
  }

  /** `pending_count` is exact and never underflows, stopped or not: it is the number of
      directories queued, held by workers, or counted but not yet sent; and in an unstopped
      walk a worker has left only if there is no work anywhere. */
  lemma {:induction false} PendingCountExact(c: Config, s: State)
    requires Sensible(c) && Reachable(c, s)
    ensures s.shared.pending == |s.shared.chan| + |s.shared.heap| + SumOver(s.workers, COUNTED)
    ensures forall w | 0 <= w < |s.workers| && s.workers[w].Completing? :: s.shared.pending >= 1
    ensures forall v, w | 0 <= v < |s.workers| && 0 <= w < |s.workers| && s.workers[v].Exited? && !s.shared.stop ::
              s.shared.chan == [] && s.shared.heap == [] && Counted(s.workers[w]) == 0
  {
    InvReachable(c, s);
    ZeroIsQuiet(s);
    forall w | 0 <= w < |s.workers| && s.workers[w].Completing? ensures s.shared.pending >= 1 {
      NoUnderflow(s, w);
    }
  }

  /** A worker without a directory, or with nothing left to do but take it off the count. */
  predicate OwesNothing(pc: Pc) {
    pc.Idle? || pc.Pulling? || pc.Exited? || pc.Completing? || (pc.Bulk? && pc.sent == |ReadKids(pc.spec.tree)|)
  }

  /** The iterator returns None in an unstopped walk only when the matcher is empty, and then
      nothing is left anywhere: no scheduled directory, no result in flight or buffered, and
      no worker that owes one. */
  lemma {:induction false} NoneMeansFinished(c: Config, s: State)
    requires Sensible(c) && Reachable(c, s) && !s.shared.stop && s.reorder.pc == Done
    ensures s.reorder.matcher.lookingFor == []
    ensures s.shared.chan == [] && s.shared.heap == [] && s.shared.results == [] && s.reorder.buffer == []
    ensures forall w | 0 <= w < |s.workers| :: OwesNothing(s.workers[w])
  {
    InvReachable(c, s);
    AllOutIsFinished(c, s);
  }

  /** And it does return None once the whole tree has been handed out, at the next look at its heap,
      whether or not the workers have left. */
  lemma {:induction false} NoneAtOnce(c: Config, s: State, s': State)
    requires Sensible(c) && Reachable(c, s) && !s.shared.stop && |s.reorder.yielded| == |Nodes(c)|
    requires s.reorder.pc == Checking && ConsumerStep(c, s, s')
    ensures s'.reorder.pc == Done
  {
    InvReachable(c, s);
    OM.MatcherFollowsPreorder(Parallel, c.root, |s.reorder.yielded|);
    AllOutIsFinished(c, s);
  }

  /** Once the whole preorder has been handed out, nothing is left anywhere. */
  lemma {:induction false} AllOutIsFinished(c: Config, s: State)
    requires Inv(c, s) && !s.shared.stop && |s.reorder.yielded| == |Nodes(c)|
    ensures s.shared.chan == [] && s.shared.heap == [] && s.shared.results == [] && s.reorder.buffer == []
    ensures forall w | 0 <= w < |s.workers| :: OwesNothing(s.workers[w])
  {
    var yielded := s.reorder.yielded;
    forall x ensures
      Queued(s.shared, x) == 0 && SumOver(s.workers, DebtAt(x)) == 0
      && InFlight(s.shared, x) == 0 && SumOver(s.reorder.buffer, ResultAt(x)) == 0
    {
      assert AccountedAt(c, s, x);
      OccIn(Nodes(c), x);
      if x in Nodes(c) {
        var k :| 0 <= k < |Nodes(c)| && Nodes(c)[k] == x;
        PreOrdered(Parallel, c.root, [0]);
        OccOnce(Nodes(c), k);
        YieldedOcc(c, yielded, |yielded|, k);
      }
    }
    if s.shared.chan != [] || s.shared.heap != [] {
      var x := SomethingQueued(s.shared);
    }
    if s.shared.results != [] {
      var x := SomeResult(s.shared.results);
    }
    if s.reorder.buffer != [] {
      var x := SomeResult(s.reorder.buffer);
    }
    forall w | 0 <= w < |s.workers| ensures OwesNothing(s.workers[w])
    {
      var pc := s.workers[w];
      if pc.Started? || pc.Streaming? || pc.StreamSend? || pc.Sending? {
        var x := Node(pc.spec.path, pc.spec.tree);
        SpecCountsItself(pc.spec);
        SumAtLeast(s.workers, w, DebtAt(x));
      }
      if (pc.Bulk? || pc.BulkSend?) && pc.sent < |ReadKids(pc.spec.tree)| {
        var child := BulkChild(pc.spec, pc.sent);
        var x := Node(child.path, child.tree);
        SpecCountsItself(child);
        KidsOccSplits(pc.spec, pc.sent, child, x);
        SumAtLeast(s.workers, w, DebtAt(x));
      }
    }
  }

  lemma {:induction false} SpecCountsItself(y: Spec)
    ensures SpecOcc(y, Node(y.path, y.tree)) > 0
  {
    SpecOccSplits(y, Node(y.path, y.tree));
  }

  lemma {:induction false} SomethingQueued(h: Shared) returns (x: Node)
    requires h.chan != [] || h.heap != []
    ensures Queued(h, x) > 0
  {
    var y := if h.chan != [] then h.chan[0] else h.heap[0];
    x := Node(y.path, y.tree);
    SpecCountsItself(y);
  }

  lemma {:induction false} SomeResult(q: seq<Ordered>) returns (x: Node)
    requires q != []
    ensures SumOver(q, ResultAt(x)) > 0
  {
    x := ResultNode(q[0]);
  }

  /** In an unstopped walk nothing is ever handed out by the out-of-order fallback. */
  lemma {:induction false} FallbackNeedsStop(c: Config, s: State)
    requires Sensible(c) && Reachable(c, s) && s.reorder.stray
    ensures s.shared.stop
  {
    InvReachable(c, s);
  }

  /** A stop, at any moment, leaves a prefix of the preorder, if and only if the out-of-order
      fallback was not taken; and when it was, the last result is the only one out of place. */
  lemma {:induction false} StoppedOutput(c: Config, s: State)
    requires Sensible(c) && Reachable(c, s)
    ensures HandedOut(c, s.reorder.yielded, |s.reorder.yielded|) <==> !s.reorder.stray
    ensures !s.reorder.stray ==> Output(s) <= Reads(Nodes(c))
    ensures s.reorder.stray ==> Output(s) != [] && Output(s)[..|Output(s)| - 1] <= Reads(Nodes(c))
  {
    InvReachable(c, s);
    var n := if s.reorder.stray then |s.reorder.yielded| - 1 else |s.reorder.yielded|;
    forall k | 0 <= k < n ensures Output(s)[k] == Reads(Nodes(c))[k] {
      assert ResultNode(s.reorder.yielded[k]) == Nodes(c)[k];
    }
  }
}
