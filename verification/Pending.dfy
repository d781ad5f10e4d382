/** What `pending_count` counts, and that the work iterator ends only when there is no work
    anywhere and none can appear. */
module Pending {
  import opened Trees
  import opened Heaps
  import opened Folds
  import opened Protocol
  import opened Accounting

  /** A directory counts from before it enters the channel until its worker completes it. A
      worker between counting a child and sending it accounts for two. */
  function Counted(pc: Pc): nat {
    if pc.StreamSend? || pc.BulkSend? then 2
    else if pc.Started? || pc.Streaming? || pc.Sending? || pc.Bulk? || pc.Completing? then 1
    else 0
  }

  const COUNTED: Pc -> nat := (pc: Pc) => Counted(pc)

  ghost predicate PendingExact(s: State) {
    s.shared.pending == |s.shared.chan| + |s.shared.heap| + SumOver(s.workers, COUNTED)
  }

  lemma {:induction false} PullCounts(phase: Phase, h: Shared, h': Shared, pc': Pc)
    requires PullStep(phase, h, h', pc')
    ensures h'.pending == h.pending
    ensures |h'.chan| + |h'.heap| + Counted(pc') == |h.chan| + |h.heap|
  {
  }

  lemma {:induction false} WorkerCounts(c: Config, w: nat, free: bool, h: Shared, pc: Pc, h': Shared, pc': Pc)
    requires WorkerMoves(c, w, free, h, pc, h', pc')
    ensures h'.pending - |h'.chan| - |h'.heap| - Counted(pc') == h.pending - |h.chan| - |h.heap| - Counted(pc)
  {
    match pc
    case Pulling(phase) => PullCounts(phase, h, h', pc');
    case _ =>
  }

  lemma {:induction false} PendingStep(c: Config, s: State, a: Actor, s': State)
    requires PendingExact(s) && Step(c, s, a, s')
    ensures PendingExact(s')
  {
    match a
    case Worker(w) =>
      WorkerCounts(c, w, IteratorFree(s.workers), s.shared, s.workers[w], s'.shared, s'.workers[w]);
      SumUpdate(s.workers, w, s'.workers[w], COUNTED);
    case Consumer =>
    case Owner =>
  }

  lemma {:induction false} PendingInit(c: Config, s: State)
    requires Init(c, s)
    ensures PendingExact(s)
  {
    SumZero(s.workers, COUNTED);
  }

  /** Completing a directory takes off a count that is there: `pending_count` never underflows. */
  lemma {:induction false} NoUnderflow(s: State, w: nat)
    requires PendingExact(s) && w < |s.workers| && s.workers[w].Completing?
    ensures s.shared.pending >= 1
  {
    SumAtLeast(s.workers, w, COUNTED);
  }

  /** Count zero is the absence of work: nothing in the channel, nothing in the heap, and
      every worker without a directory. */
  lemma {:induction false} ZeroIsQuiet(s: State)
    requires PendingExact(s)
    ensures s.shared.pending == 0 <==>
            && s.shared.chan == [] && s.shared.heap == []
            && forall w | 0 <= w < |s.workers| :: Counted(s.workers[w]) == 0
  {
    if s.shared.pending == 0 {
      forall w | 0 <= w < |s.workers| ensures Counted(s.workers[w]) == 0 {
        SumAtLeast(s.workers, w, COUNTED);
      }
    } else if s.shared.chan == [] && s.shared.heap == [] {
      if forall w | 0 <= w < |s.workers| :: Counted(s.workers[w]) == 0 {
        SumZero(s.workers, COUNTED);
      }
    }
  }

  /** Without a stop a worker has left only if all work is over. */
  ghost predicate ExitIsFinal(s: State) {
    !s.shared.stop && (exists w :: 0 <= w < |s.workers| && s.workers[w].Exited?) ==> s.shared.pending == 0
  }

  /** Nobody creates work out of nothing: a count of zero stays zero. */
  lemma {:induction false} QuietStays(c: Config, s: State, a: Actor, s': State)
    requires PendingExact(s) && s.shared.pending == 0 && Step(c, s, a, s')
    ensures s'.shared.pending == 0
  {
    ZeroIsQuiet(s);
    match a
    case Worker(w) => assert Counted(s.workers[w]) == 0;
    case Consumer =>
    case Owner =>
  }

  lemma {:induction false} ExitStep(c: Config, s: State, a: Actor, s': State)
    requires PendingExact(s) && ExitIsFinal(s) && Step(c, s, a, s')
    ensures ExitIsFinal(s')
  {
    if s.shared.pending == 0 {
      QuietStays(c, s, a, s');
    } else if a.Worker? && !s.shared.stop {
      assert forall v | 0 <= v < |s.workers| :: !s.workers[v].Exited?;
    }
  }

  /** When all work is over, every result has left its worker. */
  lemma {:induction false} QuietDelivered(c: Config, s: State, x: Node)
    requires PendingExact(s) && AccountedAt(c, s, x) && !s.shared.stop && s.shared.pending == 0
    ensures InFlight(s.shared, x) + Arrived(s.reorder, x) == Occ(Nodes(c), x)
  {
    ZeroIsQuiet(s);
    forall w | 0 <= w < |s.workers| ensures Debt(s.workers[w], x) == 0 {
      assert Counted(s.workers[w]) == 0;
    }
    SumZero(s.workers, DebtAt(x));
  }
}
