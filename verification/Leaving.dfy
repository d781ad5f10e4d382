/** After a stop: with room for N * F directories every worker leaves, and with less one of them
    may wait for ever. */
module Leaving {
  import opened Trees
  import opened Heaps
  import opened Folds
  import opened Protocol
  import opened Accounting
  import opened Safety
  import opened Bounds
  import opened Fairness
  import opened Tightness
  import opened Stops

  // ---- Every worker leaves ----

  /** An infinite run in which the owner may do as it likes. */
  ghost predicate IsAnyRun(c: Config, run: Run, who: Schedule) {
    Init(c, run(0)) && forall i :: StepsAt(c, run, who, i)
  }

  ghost predicate WorkersFair(c: Config, run: Run, who: Schedule) {
    forall w, i | 0 <= w < c.workers :: WorkerGetsTurn(c, run, who, w, i)
  }

  lemma {:induction false} AnyRunReaches(c: Config, run: Run, who: Schedule, i: nat)
    requires IsAnyRun(c, run, who)
    ensures Reachable(c, run(i))
  {
    if i == 0 {
      assert IsRun(c, [run(0)]);
      assert [run(0)][|[run(0)]| - 1] == run(0);
    } else {
      var j := i - 1;
      AnyRunReaches(c, run, who, j);
      assert StepsAt(c, run, who, j);
      if run(j + 1) != run(j) {
        ReachStep(c, run(j), who(j), run(j + 1));
      }
    }
  }

  /** With the iterator gone nobody but the workers moves, and every move brings them nearer to
      the end. */
  lemma {:induction false} OnlyWorkersMove(c: Config, run: Run, who: Schedule, i: nat)
    requires Sensible(c) && IsAnyRun(c, run, who) && run(i).shared.receiverGone
    ensures || run(i + 1) == run(i)
            || (run(i + 1).shared.receiverGone && StopLeft(run(i + 1)) < StopLeft(run(i)))
    ensures who(i).Worker? ==> run(i + 1) != run(i)
  {
    var s, s' := run(i), run(i + 1);
    AnyRunReaches(c, run, who, i);
    DroppedIsDoneReachable(c, s);
    InvReachable(c, s);
    assert StepsAt(c, run, who, i);
    if who(i).Worker? {
      var w := who(i).id;
      ReceiverKept(c, w, IteratorFree(s.workers), s.shared, s.workers[w], s'.shared, s'.workers[w]);
      StopStepCosts(c, s, w, s');
    }
  }

  ghost predicate Frozen(run: Run, i: nat) {
    forall j | i <= j :: NoNearer(run, i, j)
  }

  ghost predicate NoNearer(run: Run, i: nat, j: nat) {
    !run(j).shared.receiverGone || StopLeft(run(j)) >= StopLeft(run(i))
  }

  lemma {:induction false} FrozenSame(c: Config, run: Run, who: Schedule, i: nat, j: nat)
    requires Sensible(c) && IsAnyRun(c, run, who)
    requires run(i).shared.receiverGone && Frozen(run, i) && i <= j
    ensures run(j) == run(i)
    decreases j
  {
    if i < j {
      FrozenSame(c, run, who, i, j - 1);
      OnlyWorkersMove(c, run, who, j - 1);
      assert NoNearer(run, i, j);
    }
  }

  lemma {:induction false} FrozenTurn(c: Config, run: Run, who: Schedule, i: nat, w: nat) returns (j: nat)
    requires WorkersFair(c, run, who) && w < c.workers
    ensures i <= j && (who(j) == Worker(w) || !CanMove(c, run(j), w))
  {
    assert WorkerGetsTurn(c, run, who, w, i);
    j :| i <= j && (who(j) == Worker(w) || !CanMove(c, run(j), w));
  }

  lemma {:induction false} MoverExists(c: Config, s: State, f: nat) returns (w: nat)
    requires Ample(c, f) && Reachable(c, s) && s.shared.receiverGone && !Disconnected(s.workers)
    ensures w < c.workers && CanMove(c, s, w)
  {
    InvReachable(c, s);
    w := SomeWorkerCan(c, s, f);
    CanMoveExactly(c, s, w);
  }

  lemma {:induction false} MoverUnfreezes(c: Config, run: Run, who: Schedule, i: nat, w: nat)
    requires Sensible(c) && IsAnyRun(c, run, who) && WorkersFair(c, run, who) && run(i).shared.receiverGone
    requires w < c.workers && CanMove(c, run(i), w)
    ensures !Frozen(run, i)
  {
    var j := FrozenTurn(c, run, who, i, w);
    if Frozen(run, i) {
      var next := j + 1;
      FrozenSame(c, run, who, i, j);
      FrozenSame(c, run, who, i, next);
      OnlyWorkersMove(c, run, who, j);
    }
  }

  lemma {:induction false} NotFrozen(c: Config, run: Run, who: Schedule, f: nat, i: nat)
    requires Ample(c, f) && IsAnyRun(c, run, who) && WorkersFair(c, run, who)
    requires run(i).shared.receiverGone && !Disconnected(run(i).workers)
    ensures !Frozen(run, i)
  {
    AnyRunReaches(c, run, who, i);
    var w := MoverExists(c, run(i), f);
    MoverUnfreezes(c, run, who, i, w);
  }

  lemma {:induction false} Leaves(c: Config, run: Run, who: Schedule, f: nat, i: nat) returns (n: nat)
    requires Ample(c, f) && IsAnyRun(c, run, who) && WorkersFair(c, run, who)
    requires run(i).shared.receiverGone
    ensures i <= n && Disconnected(run(n).workers)
    decreases StopLeft(run(i))
  {
    if Disconnected(run(i).workers) {
      n := i;
    } else {
      NotFrozen(c, run, who, f, i);
      var j :| i <= j && !NoNearer(run, i, j);
      n := Leaves(c, run, who, f, j);
    }
  }

  /** Whatever the moment of the stop, once the iterator has been dropped every fair run comes to
      a state where all workers have left. */
  lemma {:induction false} StoppedRunsEnd(c: Config, run: Run, who: Schedule, f: nat)
    requires Ample(c, f) && IsAnyRun(c, run, who) && WorkersFair(c, run, who)
    requires exists i :: run(i).shared.receiverGone
    ensures exists n :: Disconnected(run(n).workers)
  {
    var i :| run(i).shared.receiverGone;
    var n := Leaves(c, run, who, f, i);
  }

  // ---- And with less room one may not ----

  ghost predicate BlockedAt(c: Config, s: State, w: nat) {
    w < |s.workers| && (s.workers[w].StreamSend? || s.workers[w].BulkSend?) && |s.shared.chan| >= c.capacity
  }

  /** After a stop: worker `w` waits for room in the channel, and nobody drains it. */
  ghost predicate Hung(c: Config, s: State, w: nat) {
    && s.shared.stop && BlockedAt(c, s, w)
    && forall v | 0 <= v < |s.workers| && s.workers[v].Pulling? :: s.workers[v].phase.AtTop?
  }

  /** Whatever anybody does, dropping the iterator included, that worker stays where it is. */
  lemma {:induction false} HungForever(c: Config, s: State, w: nat, a: Actor, s': State)
    requires Hung(c, s, w) && Step(c, s, a, s')
    ensures Hung(c, s', w) && s'.workers[w] == s.workers[w] && !Disconnected(s'.workers)
  {
    if a.Worker? {
      var v := a.id;
      HungMove(c, v, IteratorFree(s.workers), s.shared, s.workers[v], s'.shared, s'.workers[v]);
    }
  }

  lemma {:induction false} HungMove(c: Config, w: nat, free: bool, h: Shared, pc: Pc, h': Shared, pc': Pc)
    requires WorkerMoves(c, w, free, h, pc, h', pc') && h.stop && |h.chan| >= c.capacity
    requires pc.Pulling? ==> pc.phase.AtTop?
    ensures h'.stop && h'.chan == h.chan && !pc.StreamSend? && !pc.BulkSend?
    ensures pc'.Pulling? ==> pc'.phase.AtTop?
  {
  }

  ghost predicate CanHang(workers: nat, capacity: nat, maxBuffer: nat, f: nat) {
    exists root, s, w ::
      && FanAtMost(root, f) && Aligned(root)
      && Reachable(Config(root, workers, capacity, maxBuffer), s)
      && Hung(Config(root, workers, capacity, maxBuffer), s, w)
  }

  /** A worker schedules all its children, or comes to be blocked on the full channel. */
  lemma {:induction false} SendAll(c: Config, s: State, w: nat, f: nat) returns (s': State)
    requires Reachable(c, s) && w < |s.workers| == |s.shared.pushed| && |s.shared.chan| <= c.capacity && !s.shared.stop
    requires s.workers[w].Streaming? && |s.workers[w].spec.tree.streamed| == f && s.workers[w].sent <= f
    ensures Reachable(c, s') && |s'.workers| == |s'.shared.pushed| == |s.workers| && !s'.shared.stop
    ensures s'.workers == s.workers[w := s'.workers[w]] && |s'.shared.chan| <= c.capacity
    ensures || BlockedAt(c, s', w)
            || (s'.workers[w].Streaming? && |s'.shared.chan| == |s.shared.chan| + f - s.workers[w].sent)
    decreases f - s.workers[w].sent
  {
    var x, sent := s.workers[w].spec, s.workers[w].sent;
    if sent == f {
      s' := s;
    } else if |s.shared.chan| < c.capacity {
      SendOne(c, s, w);
      var next := HasSent(s, w);
      s' := SendAll(c, next, w, f);
    } else {
      s' := Go(c, s, w, s.shared.(pending := s.shared.pending + 1), StreamSend(x, sent));
    }
  }

  /** The first `w` workers have scheduled all their children, the others none, and nobody pulls. */
  ghost predicate Sent(c: Config, s: State, w: nat, f: nat) {
    && Reachable(c, s) && |s.workers| == |s.shared.pushed| == c.workers && !s.shared.stop
    && |s.shared.chan| == Total(w, f) <= c.capacity
    && (forall v | 0 <= v < |s.workers| :: if v < w then s.workers[v].Streaming? else Fresh(s.workers[v], f))
  }

  lemma {:induction false} SendUntilBlocked(c: Config, s: State, w: nat, f: nat)
    requires w <= c.workers && Sent(c, s, w, f) && c.capacity < Total(c.workers, f)
    ensures exists s', b :: Reachable(c, s') && !s'.shared.stop && IteratorFree(s'.workers) && BlockedAt(c, s', b)
    decreases c.workers - w
  {
    var next := SendAll(c, s, w, f);
    if !BlockedAt(c, next, w) {
      SendUntilBlocked(c, next, w + 1, f);
    }
  }

  /** The bound after a stop, exactly: on trees with at most `f` children per directory a stop can
      leave a worker waiting for ever if and only if `f` is at least two and the spec channel
      holds fewer than N * f directories. */
  lemma {:induction false} RoomToLeaveIsExact(workers: nat, capacity: nat, maxBuffer: nat, f: nat)
    requires workers >= 1 && capacity >= 1
    ensures CanHang(workers, capacity, maxBuffer, f) <==> f >= 2 && capacity < workers * f
  {
    if f >= 2 && capacity < workers * f {
      var c := Witness(workers, capacity, maxBuffer, f);
      FullIsTall(f, workers, 0);
      TotalIsProduct(workers, f);
      AllHold(c, f);
      var held :| Filling(c, held, 0, f) && held.shared.chan == [];
      SendUntilBlocked(c, held, 0, f);
      var full, w :| Reachable(c, full) && !full.shared.stop && IteratorFree(full.workers) && BlockedAt(c, full, w);
      assert OwnerStep(full, Raised(full));
      ReachStep(c, full, Owner, Raised(full));
      assert Hung(Config(c.root, workers, capacity, maxBuffer), Raised(full), w);
    } else if CanHang(workers, capacity, maxBuffer, f) {
      var root, s, w :|
        && FanAtMost(root, f) && Aligned(root)
        && Reachable(Config(root, workers, capacity, maxBuffer), s)
        && Hung(Config(root, workers, capacity, maxBuffer), s, w);
      NoSendBlocks(Config(root, workers, capacity, maxBuffer), s, f, w);
    }
  }
}
