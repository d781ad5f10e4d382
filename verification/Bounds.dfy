/** How full the spec channel can get. A pull empties the channel before it takes a directory,
    so what is in it was sent by tasks still running, or by the last task of a worker that
    has not pulled since. */
module Bounds {
  import opened Trees
  import opened Heaps
  import opened Folds
  import opened Protocol
  import opened Accounting

  /** No directory of the tree schedules more than `f` children, streamed or from its rows. */
  predicate FanAtMost(t: Tree, f: nat) {
    && |t.streamed| <= f && |ReadKids(t)| <= f
    && (forall k | 0 <= k < |t.streamed| :: FanAtMost(t.streamed[k], f))
    && (forall k | 0 <= k < |ReadKids(t)| :: FanAtMost(ReadKids(t)[k], f))
  }

  predicate PcFan(pc: Pc, f: nat) {
    (pc.Started? || pc.Streaming? || pc.StreamSend? || pc.Sending? || pc.Bulk? || pc.BulkSend?) ==>
      FanAtMost(pc.spec.tree, f)
  }

  ghost predicate FanOk(h: Shared, f: nat) {
    && (forall y | y in h.chan :: FanAtMost(y.tree, f))
    && (forall y | y in h.heap :: FanAtMost(y.tree, f))
  }

  /** How many specs a worker can have sent since the channel was last seen empty. */
  function PushLimit(pc: Pc, f: nat): nat {
    match pc
    case Started(_) => 0
    case Streaming(_, sent) => sent
    case StreamSend(_, sent) => sent
    case Sending(_, sent) => sent
    case Bulk(_, sent) => sent
    case BulkSend(_, sent) => sent
    case Pulling(Check) => 0
    case Pulling(Wait) => 0
    case _ => f
  }

  const SELF: nat -> nat := (n: nat) => n

  /** At the very start the root sits in the channel, sent by no worker. */
  ghost predicate Untouched(s: State) {
    && |s.shared.chan| == 1
    && forall w | 0 <= w < |s.workers| :: s.workers[w] in {Idle, Pulling(AtTop), Pulling(Drain), Exited}
  }

  ghost predicate Bounded(s: State, f: nat) {
    && |s.shared.pushed| == |s.workers|
    && FanOk(s.shared, f)
    && (forall w | 0 <= w < |s.workers| :: PcFan(s.workers[w], f))
    && (forall w | 0 <= w < |s.workers| :: s.shared.pushed[w] <= PushLimit(s.workers[w], f))
    && (|s.shared.chan| <= SumOver(s.shared.pushed, SELF) || Untouched(s))
  }

  lemma {:induction false} WorkerFan(c: Config, w: nat, free: bool, h: Shared, pc: Pc, h': Shared, pc': Pc, f: nat)
    requires WorkerMoves(c, w, free, h, pc, h', pc') && FanOk(h, f) && PcFan(pc, f)
    ensures FanOk(h', f) && PcFan(pc', f)
  {
  }

  /** Either the channel was seen empty, and all counts restart; or the other workers' counts
      stay, and this worker's grows with the channel. */
  lemma {:induction false} WorkerPushes(c: Config, w: nat, free: bool, h: Shared, pc: Pc, h': Shared, pc': Pc, f: nat)
    requires WorkerMoves(c, w, free, h, pc, h', pc') && PcFan(pc, f) && PcOk(h.stop, pc)
    requires w < |h.pushed| && h.pushed[w] <= PushLimit(pc, f)
    ensures |h'.pushed| == |h.pushed|
    ensures || (h'.chan == [] && forall v | 0 <= v < |h'.pushed| :: h'.pushed[v] == 0)
            || (&& |h'.chan| - |h.chan| <= h'.pushed[w] - h.pushed[w]
                && h'.pushed == h.pushed[w := h'.pushed[w]]
                && h'.pushed[w] <= PushLimit(pc', f))
  {
    match pc
    case Pulling(phase) =>
    case _ =>
  }

  lemma {:induction false} BoundedStep(c: Config, s: State, a: Actor, s': State, f: nat)
    requires Shaped(c, s) && Bounded(s, f) && Step(c, s, a, s')
    ensures Bounded(s', f)
  {
    if a.Worker? {
      var w := a.id;
      var free, h, h' := IteratorFree(s.workers), s.shared, s'.shared;
      WorkerFan(c, w, free, h, s.workers[w], h', s'.workers[w], f);
      WorkerPushes(c, w, free, h, s.workers[w], h', s'.workers[w], f);
      if h'.pushed == h.pushed[w := h'.pushed[w]] {
        SumUpdate(h.pushed, w, h'.pushed[w], SELF);
      }
    }
  }

  lemma {:induction false} BoundedInit(c: Config, s: State, f: nat)
    requires Init(c, s) && FanAtMost(c.root, f)
    ensures Bounded(s, f)
  {
  }

  /** A worker about to schedule a child has not yet sent all of its children. */
  lemma {:induction false} SenderHasRoom(c: Config, s: State, f: nat, w: nat)
    requires Shaped(c, s) && Bounded(s, f) && w < |s.workers|
    requires s.workers[w].StreamSend? || s.workers[w].BulkSend?
    ensures s.shared.pushed[w] < f && |s.shared.chan| <= SumOver(s.shared.pushed, SELF)
  {
    assert s.workers[w] !in {Idle, Pulling(AtTop), Pulling(Drain), Exited};
  }

  lemma {:induction false} LimitAtMost(stop: bool, pc: Pc, f: nat)
    requires PcFan(pc, f) && PcOk(stop, pc)
    ensures PushLimit(pc, f) <= f
  {
  }

  /** Never are all workers blocked on a full channel, if it holds more than each worker's
      children but one: N * (F - 1) specs do not fill it. */
  lemma {:induction false} NotAllBlocked(c: Config, s: State, f: nat)
    requires Sensible(c) && Shaped(c, s) && Bounded(s, f)
    requires f > 0 ==> c.capacity > c.workers * (f - 1)
    requires |s.shared.chan| >= c.capacity
    ensures exists w :: 0 <= w < |s.workers| && !s.workers[w].StreamSend? && !s.workers[w].BulkSend?
  {
    if forall w | 0 <= w < |s.workers| :: s.workers[w].StreamSend? || s.workers[w].BulkSend? {
      forall w | 0 <= w < |s.workers| ensures SELF(s.shared.pushed[w]) <= f - 1 {
        SenderHasRoom(c, s, f, w);
      }
      SenderHasRoom(c, s, f, 0);
      SumAtMost(s.shared.pushed, SELF, f - 1);
    }
  }

  /** With room for all children of one directory per worker no send of a spec ever blocks,
      before or after a stop. */
  lemma {:induction false} SendNeverBlocks(c: Config, s: State, f: nat, w: nat)
    requires Sensible(c) && Shaped(c, s) && Bounded(s, f) && w < |s.workers|
    requires c.capacity >= c.workers * f
    requires s.workers[w].StreamSend? || s.workers[w].BulkSend?
    ensures |s.shared.chan| < c.capacity
  {
    var pushed := s.shared.pushed;
    SenderHasRoom(c, s, f, w);
    var raised := pushed[w := f];
    forall v | 0 <= v < |raised| ensures SELF(raised[v]) <= f {
      LimitAtMost(s.shared.stop, s.workers[v], f);
    }
    SumAtMost(raised, SELF, f);
    SumUpdate(pushed, w, f, SELF);
  }

  // ---- With one child per directory at most ----

  lemma {:induction false} FanMore(t: Tree, f: nat, g: nat)
    requires FanAtMost(t, f) && f <= g
    ensures FanAtMost(t, g)
    decreases t
  {
    forall k | 0 <= k < |t.streamed| ensures FanAtMost(t.streamed[k], g) {
      FanMore(t.streamed[k], f, g);
    }
    forall k | 0 <= k < |ReadKids(t)| ensures FanAtMost(ReadKids(t)[k], g) {
      FanMore(ReadKids(t)[k], f, g);
    }
  }

  /** The directories a worker can still put into the channel, if each has one child at most. */
  function StillToSend(pc: Pc): nat {
    match pc
    case Started(_) => 1
    case Streaming(_, sent) => if sent == 0 then 1 else 0
    case StreamSend(_, _) => 1
    case Sending(_, sent) => if sent == 0 then 1 else 0
    case Bulk(_, sent) => if sent == 0 then 1 else 0
    case BulkSend(_, _) => 1
    case _ => 0
  }

  const STILL_TO_SEND: Pc -> nat := (pc: Pc) => StillToSend(pc)

  /** All directories that are scheduled or can be without reading another one. */
  function Front(s: State): nat {
    |s.shared.chan| + |s.shared.heap| + SumOver(s.workers, STILL_TO_SEND)
  }

  lemma {:induction false} WorkerFront(c: Config, w: nat, free: bool, h: Shared, pc: Pc, h': Shared, pc': Pc)
    requires WorkerMoves(c, w, free, h, pc, h', pc') && PcFan(pc, 1) && PcOk(h.stop, pc)
    ensures |h'.chan| + |h'.heap| + StillToSend(pc') <= |h.chan| + |h.heap| + StillToSend(pc)
  {
    match pc
    case Pulling(phase) =>
    case _ =>
  }

  lemma {:induction false} FrontStep(c: Config, s: State, a: Actor, s': State)
    requires Shaped(c, s) && Bounded(s, 1) && Step(c, s, a, s') && Front(s) <= 1
    ensures Front(s') <= 1
  {
    if a.Worker? {
      var w := a.id;
      WorkerFront(c, w, IteratorFree(s.workers), s.shared, s.workers[w], s'.shared, s'.workers[w]);
      SumUpdate(s.workers, w, s'.workers[w], STILL_TO_SEND);
    }
  }

  lemma {:induction false} FrontInit(c: Config, s: State)
    requires Init(c, s)
    ensures Front(s) <= 1
  {
    SumZero(s.workers, STILL_TO_SEND);
  }

  /** The directory a worker is about to send is the only one. */
  lemma {:induction false} SenderIsTheFront(c: Config, s: State, w: nat)
    requires Front(s) <= 1 && w < |s.workers| && (s.workers[w].StreamSend? || s.workers[w].BulkSend?)
    ensures s.shared.chan == [] && s.shared.heap == []
  {
    SumAtLeast(s.workers, w, STILL_TO_SEND);
  }
}
