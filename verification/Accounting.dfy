/** Conservation: every directory of the tree is, at every moment, in exactly one place. */
module Accounting {
  import opened IndexPaths
  import opened Trees
  import opened Heaps
  import opened Folds
  import opened Protocol

  /** How often a directory occurs in a listing. */
  function Occ(q: seq<Node>, x: Node): nat {
    if q == [] then 0 else (if q[0] == x then 1 else 0) + Occ(q[1..], x)
  }

  lemma {:induction false} OccConcat(a: seq<Node>, b: seq<Node>, x: Node)
    ensures Occ(a + b, x) == Occ(a, x) + Occ(b, x)
  {
    if a == [] {
      assert a + b == b;
    } else {
      assert (a + b)[1..] == a[1..] + b;
      OccConcat(a[1..], b, x);
    }
  }

  lemma {:induction false} OccIn(q: seq<Node>, x: Node)
    ensures Occ(q, x) > 0 <==> x in q
  {
    if q != [] {
      OccIn(q[1..], x);
    }
  }

  /** A scheduled directory will contribute itself and all below it. */
  function SpecOcc(y: Spec, x: Node): nat {
    Occ(Pre(Parallel, y.tree, y.path), x)
  }

  /** The same for its children from the `i`-th on. */
  function KidsOcc(y: Spec, i: nat, x: Node): nat {
    if i <= |Kids(Parallel, y.tree)| then Occ(PreKids(Parallel, y.tree, y.path, i), x) else 0
  }

  function SelfOcc(y: Spec, x: Node): nat {
    if Node(y.path, y.tree) == x then 1 else 0
  }

  function ResultOcc(r: Ordered, x: Node): nat {
    if Node(r.path, r.tree) == x then 1 else 0
  }

  /** The result a worker is past the stop test with and has not sent yet. */
  function Own(pc: Pc, x: Node): nat {
    if pc.Streaming? || pc.StreamSend? || pc.Sending? then SelfOcc(pc.spec, x) else 0
  }

  /** What a worker still owes: its own result until sent, and the children not yet scheduled. */
  function Debt(pc: Pc, x: Node): nat {
    match pc
    case Started(y) => SpecOcc(y, x)
    case Streaming(y, sent) => SelfOcc(y, x) + KidsOcc(y, sent, x)
    case StreamSend(y, sent) => SelfOcc(y, x) + KidsOcc(y, sent, x)
    case Sending(y, sent) => SelfOcc(y, x) + KidsOcc(y, sent, x)
    case Bulk(y, sent) => KidsOcc(y, sent, x)
    case BulkSend(y, sent) => KidsOcc(y, sent, x)
    case _ => 0
  }

  function SpecAt(x: Node): Spec -> nat { y => SpecOcc(y, x) }

  function ResultAt(x: Node): Ordered -> nat { r => ResultOcc(r, x) }

  function OwnAt(x: Node): Pc -> nat { pc => Own(pc, x) }

  function DebtAt(x: Node): Pc -> nat { pc => Debt(pc, x) }

  /** Results on their way to the consumer. */
  function InFlight(h: Shared, x: Node): nat {
    SumOver(h.results, ResultAt(x))
  }

  /** Scheduled directories waiting for a worker. */
  function Queued(h: Shared, x: Node): nat {
    SumOver(h.chan, SpecAt(x)) + SumOver(h.heap, SpecAt(x))
  }

  /** Results the consumer holds or handed out. */
  function Arrived(r: Reorder, x: Node): nat {
    SumOver(r.buffer, ResultAt(x)) + SumOver(r.yielded, ResultAt(x))
  }

  function Nodes(c: Config): (r: seq<Node>)
    ensures r != []
  {
    Pre(Parallel, c.root, [0])
  }

  /** Without a stop every directory of the tree is in exactly one place: waiting, owed by a
      worker, in flight, or with the consumer. After a stop nothing outside the tree, and
      nothing twice, reaches the consumer. */
  ghost predicate AccountedAt(c: Config, s: State, x: Node) {
    if s.shared.stop then
      SumOver(s.workers, OwnAt(x)) + InFlight(s.shared, x) + Arrived(s.reorder, x) <= Occ(Nodes(c), x)
    else
      Queued(s.shared, x) + SumOver(s.workers, DebtAt(x)) + InFlight(s.shared, x) + Arrived(s.reorder, x)
      == Occ(Nodes(c), x)
  }

  ghost predicate Accounted(c: Config, s: State) {
    forall x :: AccountedAt(c, s, x)
  }

  // ---- Shape of the worker states ----

  ghost predicate PcOk(stop: bool, pc: Pc) {
    match pc
    case Streaming(y, sent) => y.tree.streamed != [] && sent <= |y.tree.streamed|
    case StreamSend(y, sent) => y.tree.streamed != [] && sent < |y.tree.streamed|
    case Sending(y, sent) => sent <= |y.tree.streamed| && (!stop ==> sent == |y.tree.streamed|)
    case Bulk(y, sent) => sent <= |ReadKids(y.tree)| && (!stop ==> y.tree.streamed == [])
    case BulkSend(y, sent) => sent < |ReadKids(y.tree)| && (!stop ==> y.tree.streamed == [])
    case _ => true
  }

  ghost predicate Shaped(c: Config, s: State) {
    && |s.workers| == |s.shared.pushed| == c.workers
    && (forall w | 0 <= w < |s.workers| :: PcOk(s.shared.stop, s.workers[w]))
    && (s.shared.receiverGone ==> s.shared.stop)
    // the work iterator is pulled by one worker at a time
    && (forall v, w | 0 <= v < w < |s.workers| :: !(s.workers[v].Pulling? && s.workers[w].Pulling?))
  }

  lemma {:induction false} WorkerShape(c: Config, w: nat, free: bool, h: Shared, pc: Pc, h': Shared, pc': Pc)
    requires WorkerMoves(c, w, free, h, pc, h', pc') && PcOk(h.stop, pc) && (h.receiverGone ==> h.stop)
    ensures PcOk(h.stop, pc') && h'.stop == h.stop && h'.receiverGone == h.receiverGone && |h'.pushed| == |h.pushed|
    ensures pc'.Pulling? ==> pc.Pulling? || free
  {
  }

  lemma {:induction false} ShapedStep(c: Config, s: State, a: Actor, s': State)
    requires Shaped(c, s) && Step(c, s, a, s')
    ensures Shaped(c, s')
  {
    match a
    case Worker(w) =>
      WorkerShape(c, w, IteratorFree(s.workers), s.shared, s.workers[w], s'.shared, s'.workers[w]);
    case Consumer =>
    case Owner =>
  }

  // ---- Splitting what is owed ----

  lemma {:induction false} SpecOccSplits(y: Spec, x: Node)
    ensures SpecOcc(y, x) == SelfOcc(y, x) + KidsOcc(y, 0, x)
  {
    OccConcat([Node(y.path, y.tree)], PreKids(Parallel, y.tree, y.path, 0), x);
    assert [Node(y.path, y.tree)][1..] == [];
  }

  lemma {:induction false} KidsOccSplits(y: Spec, i: nat, child: Spec, x: Node)
    requires i < |Kids(Parallel, y.tree)|
    requires child.tree == Kids(Parallel, y.tree)[i] && child.path == y.path + [i]
    ensures KidsOcc(y, i, x) == SpecOcc(child, x) + KidsOcc(y, i + 1, x)
  {
    OccConcat(Pre(Parallel, child.tree, child.path), PreKids(Parallel, y.tree, y.path, i + 1), x);
  }

  lemma {:induction false} KidsOccEnds(y: Spec, x: Node)
    ensures KidsOcc(y, |Kids(Parallel, y.tree)|, x) == 0
  {
  }

  // ---- One worker's step moves a directory, and creates or drops none ----

  ghost function Held(h: Shared, pc: Pc, x: Node): nat {
    Queued(h, x) + InFlight(h, x) + Debt(pc, x)
  }

  lemma {:induction false} ReceivedKeeps(h: Shared, x: Node)
    requires h.chan != []
    ensures Queued(Received(h), x) == Queued(h, x)
  {
    SumAppend(h.heap, h.chan[0], SpecAt(x));
  }

  lemma {:induction false} PopKeeps(h: Shared, h': Shared, pc': Pc, x: Node)
    requires PullStep(Check, h, h', pc')
    ensures Held(h', pc', x) == Held(h, Pulling(Check), x)
  {
    if h.heap != [] {
      var i: nat :| SpecTop(h.heap, i) && h' == h.(heap := Without(h.heap, i)) && pc' == Started(h.heap[i]);
      SumWithout(h.heap, i, SpecAt(x));
    }
  }

  lemma {:induction false} PullKeeps(phase: Phase, h: Shared, h': Shared, pc': Pc, x: Node)
    requires PullStep(phase, h, h', pc')
    ensures Held(h', pc', x) == Held(h, Pulling(phase), x)
  {
    match phase
    case Check => PopKeeps(h, h', pc', x);
    case _ =>
      if h.chan != [] {
        ReceivedKeeps(h, x);
      }
  }

  /** Scheduling the next child moves its subtree from the worker's debt into the channel. */
  lemma {:induction false} SendKeeps(c: Config, w: nat, y: Spec, sent: nat, child: Spec, h: Shared, h': Shared, x: Node)
    requires SendStep(c, w, child, h, h')
    requires sent < |Kids(Parallel, y.tree)|
    requires child.tree == Kids(Parallel, y.tree)[sent] && child.path == y.path + [sent]
    ensures Queued(h', x) + KidsOcc(y, sent + 1, x) == Queued(h, x) + KidsOcc(y, sent, x)
    ensures InFlight(h', x) == InFlight(h, x)
  {
    KidsOccSplits(y, sent, child, x);
    SumAppend(h.chan, child, SpecAt(x));
  }

  lemma {:induction false} ResultKeeps(c: Config, y: Spec, sent: nat, h: Shared, h': Shared, pc': Pc, x: Node)
    requires ResultStep(c, y, sent, h, h', pc')
    ensures Queued(h', x) == Queued(h, x)
    ensures InFlight(h', x) == InFlight(h, x) + if h.receiverGone then 0 else SelfOcc(y, x)
  {
    if !h.receiverGone {
      SumAppend(h.results, Result(y, sent), ResultAt(x));
    }
  }

  lemma {:induction false} ScheduleKeeps(c: Config, w: nat, free: bool, h: Shared, pc: Pc, h': Shared, pc': Pc, x: Node)
    requires WorkerMoves(c, w, free, h, pc, h', pc') && PcOk(false, pc)
    requires pc.StreamSend? || pc.BulkSend?
    ensures Held(h', pc', x) == Held(h, pc, x)
  {
    var y, sent := pc.spec, pc.sent;
    SendKeeps(c, w, y, sent, if pc.StreamSend? then StreamedChild(y, sent) else BulkChild(y, sent), h, h', x);
  }

  lemma {:induction false} DeliverKeeps(c: Config, w: nat, free: bool, h: Shared, pc: Pc, h': Shared, pc': Pc, x: Node)
    requires WorkerMoves(c, w, free, h, pc, h', pc') && PcOk(false, pc) && !h.receiverGone
    requires pc.Sending?
    ensures Held(h', pc', x) == Held(h, pc, x)
  {
    KidsOccEnds(pc.spec, x);
    ResultKeeps(c, pc.spec, pc.sent, h, h', pc', x);
  }

  lemma {:induction false} WorkerKeeps(c: Config, w: nat, free: bool, h: Shared, pc: Pc, h': Shared, pc': Pc, x: Node)
    requires WorkerMoves(c, w, free, h, pc, h', pc') && PcOk(h.stop, pc) && (h.receiverGone ==> h.stop)
    requires !h.stop
    ensures Held(h', pc', x) == Held(h, pc, x)
  {
    match pc
    case Pulling(phase) => PullKeeps(phase, h, h', pc', x);
    case Started(y) => SpecOccSplits(y, x);
    case StreamSend(_, _) => ScheduleKeeps(c, w, free, h, pc, h', pc', x);
    case BulkSend(_, _) => ScheduleKeeps(c, w, free, h, pc, h', pc', x);
    case Sending(_, _) => DeliverKeeps(c, w, free, h, pc, h', pc', x);
    case Bulk(y, _) => KidsOccEnds(y, x);
    case _ =>
  }

  /** Once stopped, a worker at most sends the result it was past the stop test with. */
  lemma {:induction false} StoppedWorkerKeeps(
    c: Config, w: nat, free: bool, h: Shared, pc: Pc, h': Shared, pc': Pc, x: Node)
    requires WorkerMoves(c, w, free, h, pc, h', pc') && h.stop
    ensures InFlight(h', x) + Own(pc', x) <= InFlight(h, x) + Own(pc, x)
  {
    match pc
    case Pulling(phase) =>
    case Sending(y, sent) => ResultKeeps(c, y, sent, h, h', pc', x);
    case _ =>
  }

  // ---- The consumer only passes results on ----

  lemma {:induction false} ConsumerKeeps(c: Config, s: State, s': State, x: Node)
    requires ConsumerStep(c, s, s')
    ensures InFlight(s'.shared, x) + Arrived(s'.reorder, x) == InFlight(s.shared, x) + Arrived(s.reorder, x)
  {
    var r, r' := s.reorder, s'.reorder;
    if s'.shared.results != s.shared.results {
      SumAppend(r.buffer, s.shared.results[0], ResultAt(x));
    }
    if r'.yielded != r.yielded {
      var i: nat :| i < |r.buffer| && r'.buffer == Without(r.buffer, i) && r'.yielded == r.yielded + [r.buffer[i]];
      SumWithout(r.buffer, i, ResultAt(x));
      SumAppend(r.yielded, r.buffer[i], ResultAt(x));
    }
  }

  // ---- Every step ----

  lemma {:induction false} OwnWithinDebt(workers: seq<Pc>, x: Node)
    ensures SumOver(workers, OwnAt(x)) <= SumOver(workers, DebtAt(x))
  {
    if workers != [] {
      OwnWithinDebt(workers[1..], x);
    }
  }

  lemma {:induction false} AccountedAtStep(c: Config, s: State, a: Actor, s': State, x: Node)
    requires Shaped(c, s) && AccountedAt(c, s, x) && Step(c, s, a, s')
    ensures AccountedAt(c, s', x)
  {
    match a
    case Worker(w) =>
      var pc, pc' := s.workers[w], s'.workers[w];
      WorkerShape(c, w, IteratorFree(s.workers), s.shared, pc, s'.shared, pc');
      if s.shared.stop {
        StoppedWorkerKeeps(c, w, IteratorFree(s.workers), s.shared, pc, s'.shared, pc', x);
        SumUpdate(s.workers, w, pc', OwnAt(x));
      } else {
        WorkerKeeps(c, w, IteratorFree(s.workers), s.shared, pc, s'.shared, pc', x);
        SumUpdate(s.workers, w, pc', DebtAt(x));
      }
    case Consumer =>
      ConsumerKeeps(c, s, s', x);
    case Owner =>
      OwnWithinDebt(s.workers, x);
  }

  lemma {:induction false} AccountedStep(c: Config, s: State, a: Actor, s': State)
    requires Shaped(c, s) && Accounted(c, s) && Step(c, s, a, s')
    ensures Accounted(c, s')
  {
    forall x ensures AccountedAt(c, s', x) {
      AccountedAtStep(c, s, a, s', x);
    }
  }

  lemma {:induction false} AccountedInit(c: Config, s: State)
    requires Init(c, s)
    ensures Shaped(c, s) && Accounted(c, s)
  {
    forall x ensures AccountedAt(c, s, x) {
      SumZero(s.workers, DebtAt(x));
      assert s.shared.chan[1..] == [];
    }
  }
}
