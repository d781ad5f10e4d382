/** A measure of the work that is left, which no step of an unstopped walk increases. A step
    that leaves it as it is only moves a waiting worker or the waiting consumer on. */
module Progress {
  import opened Trees
  import opened Heaps
  import opened Folds
  import opened Protocol
  import opened Accounting

  /** The steps a scheduled directory costs, with all below it. */
  function Cost(t: Tree): nat
    decreases t, |Kids(Parallel, t)| + 1
  {
    9 + CostFrom(t, 0)
  }

  function CostFrom(t: Tree, i: nat): nat
    decreases t, |Kids(Parallel, t)| - i
  {
    if i >= |Kids(Parallel, t)| then 0 else Cost(Kids(Parallel, t)[i]) + 3 + CostFrom(t, i + 1)
  }

  function WorkerCost(pc: Pc): nat {
    match pc
    case Exited => 0
    case Pulling(_) => 1
    case Idle => 2
    case Completing => 3
    case BulkSend(x, sent) => 3 + CostFrom(x.tree, sent)
    case Bulk(x, sent) => 4 + CostFrom(x.tree, sent)
    case Sending(x, sent) => 7 + CostFrom(x.tree, sent)
    case StreamSend(x, sent) => 7 + CostFrom(x.tree, sent)
    case Streaming(x, sent) => 8 + CostFrom(x.tree, sent)
    case Started(x) => 9 + CostFrom(x.tree, 0)
  }

  const WORKER_COST: Pc -> nat := (pc: Pc) => WorkerCost(pc)
  const HEAP_COST: Spec -> nat := (y: Spec) => Cost(y.tree)
  const CHAN_COST: Spec -> nat := (y: Spec) => Cost(y.tree) + 1

  function SharedCost(h: Shared): nat {
    SumOver(h.chan, CHAN_COST) + SumOver(h.heap, HEAP_COST) + 2 * |h.results|
  }

  function ReorderCost(r: Reorder): nat {
    |r.buffer| + if r.pc == Done then 0 else 1
  }

  function WorkLeft(s: State): nat {
    SharedCost(s.shared) + SumOver(s.workers, WORKER_COST) + ReorderCost(s.reorder)
  }

  /** The same but for who waits where. */
  ghost predicate SameWork(s: State, s': State) {
    && |s'.workers| == |s.workers|
    && (forall w | 0 <= w < |s.workers| ::
          s'.workers[w] == s.workers[w] || (s'.workers[w].Pulling? && s.workers[w].Pulling?))
    && s'.shared == s.shared.(pushed := s'.shared.pushed)
    && s'.reorder == s.reorder.(pc := s'.reorder.pc)
    && (s'.reorder.pc == Done <==> s.reorder.pc == Done)
  }

  lemma {:induction false} ReceivedCost(h: Shared)
    requires h.chan != []
    ensures SharedCost(Received(h)) == SharedCost(h) - 1
  {
    SumAppend(h.heap, h.chan[0], HEAP_COST);
  }

  lemma {:induction false} PopCost(h: Shared, h': Shared, pc': Pc)
    requires PullStep(Check, h, h', pc') && h.heap != []
    ensures SharedCost(h') + WorkerCost(pc') < SharedCost(h) + WorkerCost(Pulling(Check))
  {
    var i: nat :| SpecTop(h.heap, i) && h' == h.(heap := Without(h.heap, i)) && pc' == Started(h.heap[i]);
    SumWithout(h.heap, i, HEAP_COST);
  }

  lemma {:induction false} PullCost(phase: Phase, h: Shared, h': Shared, pc': Pc)
    requires PullStep(phase, h, h', pc')
    ensures || SharedCost(h') + WorkerCost(pc') < SharedCost(h) + WorkerCost(Pulling(phase))
            || (pc'.Pulling? && h' == h.(pushed := h'.pushed))
  {
    match phase
    case Check =>
      if h.heap != [] {
        PopCost(h, h', pc');
      }
    case _ =>
      if h.chan != [] {
        ReceivedCost(h);
      }
  }

  lemma {:induction false} SendCost(c: Config, w: nat, y: Spec, sent: nat, child: Spec, h: Shared, h': Shared)
    requires SendStep(c, w, child, h, h')
    requires sent < |Kids(Parallel, y.tree)| && child.tree == Kids(Parallel, y.tree)[sent]
    ensures SharedCost(h') + CostFrom(y.tree, sent + 1) + 2 == SharedCost(h) + CostFrom(y.tree, sent)
  {
    SumAppend(h.chan, child, CHAN_COST);
  }

  lemma {:induction false} ScheduleCost(c: Config, w: nat, free: bool, h: Shared, pc: Pc, h': Shared, pc': Pc)
    requires WorkerMoves(c, w, free, h, pc, h', pc') && PcOk(false, pc)
    requires pc.StreamSend? || pc.BulkSend?
    ensures SharedCost(h') + WorkerCost(pc') < SharedCost(h) + WorkerCost(pc)
  {
    var y, sent := pc.spec, pc.sent;
    SendCost(c, w, y, sent, if pc.StreamSend? then StreamedChild(y, sent) else BulkChild(y, sent), h, h');
  }

  lemma {:induction false} WorkerProgress(c: Config, w: nat, free: bool, h: Shared, pc: Pc, h': Shared, pc': Pc)
    requires WorkerMoves(c, w, free, h, pc, h', pc') && PcOk(false, pc) && !h.stop && !h.receiverGone
    ensures || SharedCost(h') + WorkerCost(pc') < SharedCost(h) + WorkerCost(pc)
            || (pc.Pulling? && pc'.Pulling? && h' == h.(pushed := h'.pushed))
  {
    match pc
    case Pulling(phase) => PullCost(phase, h, h', pc');
    case StreamSend(_, _) => ScheduleCost(c, w, free, h, pc, h', pc');
    case BulkSend(_, _) => ScheduleCost(c, w, free, h, pc, h', pc');
    case _ =>
  }

  lemma {:induction false} ConsumerProgress(c: Config, s: State, s': State)
    requires ConsumerStep(c, s, s')
    ensures WorkLeft(s') < WorkLeft(s) || (WorkLeft(s') == WorkLeft(s) && SameWork(s, s'))
  {
  }

  /** No step increases the work that is left, and one that does not decrease it only waits. */
  lemma {:induction false} StepProgress(c: Config, s: State, a: Actor, s': State)
    requires Shaped(c, s) && Step(c, s, a, s') && !s'.shared.stop
    ensures WorkLeft(s') < WorkLeft(s) || (WorkLeft(s') == WorkLeft(s) && SameWork(s, s'))
  {
    match a
    case Worker(w) =>
      WorkerProgress(c, w, IteratorFree(s.workers), s.shared, s.workers[w], s'.shared, s'.workers[w]);
      SumUpdate(s.workers, w, s'.workers[w], WORKER_COST);
    case Consumer =>
      ConsumerProgress(c, s, s');
    case Owner =>
  }
}
