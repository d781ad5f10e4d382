/** Every fair run of an unstopped walk ends, with everything consumed, if the spec channel
    holds more than N * (F - 1) directories. */
module Fairness {
  import opened Trees
  import opened Heaps
  import opened Folds
  import opened Protocol
  import opened Accounting
  import opened Pending
  import opened Ordering
  import opened Safety
  import opened Bounds
  import opened Progress
  import OM = OrderedMatching

  /** An infinite run: which state after how many steps, and who took the next step. */
  type Run = nat -> State
  type Schedule = nat -> Actor

  ghost predicate CanMove(c: Config, s: State, w: nat) {
    exists s' :: WorkerStep(c, s, w, s')
  }

  /** In its turn the consumer ends an attempt: it reaches the timed receive, or hands a result
      out, or is done. What this excludes is only a deadline that expires before the receive
      in every single attempt. */
  ghost predicate Attempts(s: State, s': State) {
    || s.reorder.pc == Waiting
    || |s'.reorder.yielded| > |s.reorder.yielded|
    || s'.reorder.pc == Done
  }

  ghost predicate IsUnstoppedRun(c: Config, run: Run, who: Schedule) {
    && Init(c, run(0))
    && (forall i :: !run(i).shared.stop)
    && (forall i :: StepsAt(c, run, who, i))
  }

  /** The `i`-th step is a step of the walk; the owner's turn may also pass. */
  ghost predicate StepsAt(c: Config, run: Run, who: Schedule, i: nat) {
    Step(c, run(i), who(i), run(i + 1)) || (who(i) == Owner && run(i + 1) == run(i))
  }

  /** Weak fairness: no worker that stays able to move is passed over for ever, and a consumer
      that is not done keeps making attempts. */
  ghost predicate Fair(c: Config, run: Run, who: Schedule) {
    && (forall w, i | 0 <= w < c.workers :: WorkerGetsTurn(c, run, who, w, i))
    && (forall i :: ConsumerGetsTurn(run, who, i))
  }

  ghost predicate WorkerGetsTurn(c: Config, run: Run, who: Schedule, w: nat, i: nat) {
    exists j :: i <= j && (who(j) == Worker(w) || !CanMove(c, run(j), w))
  }

  ghost predicate ConsumerGetsTurn(run: Run, who: Schedule, i: nat) {
    exists j :: i <= j && (run(j).reorder.pc == Done || (who(j) == Consumer && Attempts(run(j), run(j + 1))))
  }

  ghost predicate Finished(s: State) {
    s.reorder.pc == Done && Disconnected(s.workers)
  }

  /** The setting of the theorem. */
  ghost predicate Roomy(c: Config, f: nat) {
    && Sensible(c)
    && FanAtMost(c.root, f)
    && (f > 0 ==> c.capacity > c.workers * (f - 1))
  }

  lemma {:induction false} RunInv(c: Config, run: Run, who: Schedule, f: nat, i: nat)
    requires Roomy(c, f) && IsUnstoppedRun(c, run, who)
    ensures Inv(c, run(i)) && Bounded(run(i), f)
  {
    if i == 0 {
      InvInit(c, run(0));
      BoundedInit(c, run(0), f);
    } else {
      var j := i - 1;
      RunInv(c, run, who, f, j);
      assert StepsAt(c, run, who, j);
      if run(j + 1) != run(j) {
        InvStep(c, run(j), who(j), run(j + 1));
        BoundedStep(c, run(j), who(j), run(j + 1), f);
      }
    }
  }

  lemma {:induction false} RunProgress(c: Config, run: Run, who: Schedule, f: nat, i: nat)
    requires Roomy(c, f) && IsUnstoppedRun(c, run, who)
    ensures || WorkLeft(run(i + 1)) < WorkLeft(run(i))
            || (WorkLeft(run(i + 1)) == WorkLeft(run(i)) && SameWork(run(i), run(i + 1)))
  {
    RunInv(c, run, who, f, i);
    assert StepsAt(c, run, who, i);
    if run(i + 1) != run(i) {
      StepProgress(c, run(i), who(i), run(i + 1));
    }
  }

  // ---- A stall: from some moment on no work is ever done ----

  ghost predicate Stalls(run: Run, i: nat) {
    forall j | i <= j :: NothingDone(run, i, j)
  }

  ghost predicate NothingDone(run: Run, i: nat, j: nat) {
    WorkLeft(run(j)) >= WorkLeft(run(i))
  }

  lemma {:induction false} SameWorkTransitive(s: State, t: State, u: State)
    requires SameWork(s, t) && SameWork(t, u)
    ensures SameWork(s, u)
  {
  }

  ghost predicate Same(run: Run, i: nat, j: nat) {
    WorkLeft(run(j)) == WorkLeft(run(i)) && SameWork(run(i), run(j))
  }

  lemma {:induction false} StallExtends(c: Config, run: Run, who: Schedule, f: nat, i: nat, j: nat, next: nat)
    requires Roomy(c, f) && IsUnstoppedRun(c, run, who) && Stalls(run, i) && i <= j && next == j + 1
    requires Same(run, i, j)
    ensures Same(run, i, next)
  {
    RunProgress(c, run, who, f, j);
    assert NothingDone(run, i, next);
    SameWorkTransitive(run(i), run(j), run(next));
  }

  lemma {:induction false} StallSame(c: Config, run: Run, who: Schedule, f: nat, i: nat, j: nat)
    requires Roomy(c, f) && IsUnstoppedRun(c, run, who) && Stalls(run, i) && i <= j
    ensures Same(run, i, j)
    decreases j
  {
    if i < j {
      StallSame(c, run, who, f, i, j - 1);
      StallExtends(c, run, who, f, i, j - 1, j);
    }
  }

  /** In a stall nobody's step does work, and all states are the same but for who waits where. */
  lemma {:induction false} StallStep(c: Config, run: Run, who: Schedule, f: nat, i: nat, j: nat)
    requires Roomy(c, f) && IsUnstoppedRun(c, run, who) && Stalls(run, i) && i <= j
    ensures SameWork(run(i), run(j)) && SameWork(run(j), run(j + 1))
    ensures !run(j).shared.stop && |run(j).workers| == c.workers
    ensures who(j) == Consumer ==> ConsumerStep(c, run(j), run(j + 1))
    ensures who(j).Worker? ==> WorkerStep(c, run(j), who(j).id, run(j + 1))
  {
    StallSame(c, run, who, f, i, j);
    RunProgress(c, run, who, f, j);
    assert NothingDone(run, i, j + 1);
    RunShaped(c, run, who, f, j);
    assert StepsAt(c, run, who, j);
  }

  lemma {:induction false} RunShaped(c: Config, run: Run, who: Schedule, f: nat, j: nat)
    requires Roomy(c, f) && IsUnstoppedRun(c, run, who)
    ensures Shaped(c, run(j)) && PendingExact(run(j))
  {
    RunInv(c, run, who, f, j);
  }

  // ---- When a worker can move ----

  /** A worker is held up only by another one pulling, by a full channel, or for good. */
  ghost predicate Enabled(c: Config, s: State, pc: Pc) {
    match pc
    case Idle => IteratorFree(s.workers)
    case StreamSend(_, _) => |s.shared.chan| < c.capacity
    case BulkSend(_, _) => |s.shared.chan| < c.capacity
    case Sending(_, _) => s.shared.receiverGone || |s.shared.results| < c.capacity
    case Exited => false
    case _ => true
  }

  lemma {:induction false} MoveIsStep(c: Config, s: State, w: nat, h': Shared, pc': Pc)
    requires w < |s.workers| && WorkerMoves(c, w, IteratorFree(s.workers), s.shared, s.workers[w], h', pc')
    ensures CanMove(c, s, w)
  {
    assert WorkerStep(c, s, w, State(h', s.workers[w := pc'], s.reorder));
  }

  lemma {:induction false} PullCanMove(phase: Phase, h: Shared) returns (h': Shared, pc': Pc)
    ensures PullStep(phase, h, h', pc')
  {
    if phase == Check && h.heap != [] {
      var i := SpecTopExists(h.heap);
      h', pc' := h.(heap := Without(h.heap, i)), Started(h.heap[i]);
    } else if phase == Drain {
      h', pc' := if h.chan != [] then Received(h) else h.(pushed := seq(|h.pushed|, _ => 0)),
                 Pulling(if h.chan != [] then Drain else Check);
    } else {
      h' := if phase == Wait && h.chan != [] then Received(h) else h;
      pc' := if phase == AtTop then (if h.stop then Exited else Pulling(Drain))
             else if phase == Wait then Pulling(AtTop)
             else if h.pending == 0 then Exited else Pulling(Wait);
    }
  }

  lemma {:induction false} OutsideCanMove(c: Config, w: nat, free: bool, h: Shared, pc: Pc)
    returns (h': Shared, pc': Pc)
    requires PcOk(h.stop, pc) && w < |h.pushed| && !pc.Pulling? && !pc.Exited?
    requires pc.Idle? ==> free
    requires pc.StreamSend? || pc.BulkSend? ==> |h.chan| < c.capacity
    requires pc.Sending? ==> h.receiverGone || |h.results| < c.capacity
    ensures WorkerMoves(c, w, free, h, pc, h', pc')
  {
    h' := h;
    match pc
    case Idle => pc' := Pulling(AtTop);
    case Started(x) =>
      pc' := if h.stop then Completing else if x.tree.streamed != [] then Streaming(x, 0) else Sending(x, 0);
    case Streaming(x, sent) =>
      if h.stop || sent >= |x.tree.streamed| {
        pc' := Sending(x, sent);
      } else {
        h', pc' := h.(pending := h.pending + 1), StreamSend(x, sent);
      }
    case StreamSend(x, sent) =>
      h' := h.(chan := h.chan + [StreamedChild(x, sent)], pushed := h.pushed[w := h.pushed[w] + 1]);
      pc' := Streaming(x, sent + 1);
    case Sending(x, sent) =>
      h' := if h.receiverGone then h else h.(results := h.results + [Result(x, sent)]);
      pc' := if h.receiverGone || sent != 0 then Completing else Bulk(x, 0);
    case Bulk(x, sent) =>
      if sent >= |ReadKids(x.tree)| {
        pc' := Completing;
      } else {
        h', pc' := h.(pending := h.pending + 1), BulkSend(x, sent);
      }
    case BulkSend(x, sent) =>
      h' := h.(chan := h.chan + [BulkChild(x, sent)], pushed := h.pushed[w := h.pushed[w] + 1]);
      pc' := Bulk(x, sent + 1);
    case Completing =>
      h', pc' := h.(pending := h.pending - 1), Idle;
  }

  lemma {:induction false} CanMoveExactly(c: Config, s: State, w: nat)
    requires Shaped(c, s) && w < c.workers
    ensures CanMove(c, s, w) <==> Enabled(c, s, s.workers[w])
  {
    if Enabled(c, s, s.workers[w]) {
      var h', pc';
      if s.workers[w].Pulling? {
        h', pc' := PullCanMove(s.workers[w].phase, s.shared);
      } else {
        h', pc' := OutsideCanMove(c, w, IteratorFree(s.workers), s.shared, s.workers[w]);
      }
      MoveIsStep(c, s, w, h', pc');
    }
  }

  // ---- Who is in a position to do work ----

  /** The consumer, with a result to receive or every worker gone. */
  ghost predicate ConsumerCan(s: State) {
    s.reorder.pc != Done && (s.shared.results != [] || Disconnected(s.workers))
  }

  /** A worker outside the work iterator that is able to move. */
  ghost predicate OutsiderCan(c: Config, s: State, w: nat) {
    w < |s.workers| && !s.workers[w].Pulling? && Enabled(c, s, s.workers[w])
  }

  ghost predicate NobodyAtWork(workers: seq<Pc>) {
    forall v | 0 <= v < |workers| :: Counted(workers[v]) == 0
  }

  /** The worker inside the work iterator, with the channel not empty or nobody at work. */
  ghost predicate PullerCan(s: State, w: nat) {
    w < |s.workers| && s.workers[w].Pulling? && (s.shared.chan == [] ==> NobodyAtWork(s.workers))
  }

  lemma {:induction false} CanSame(c: Config, s: State, s': State, w: nat)
    requires SameWork(s, s')
    ensures ConsumerCan(s) ==> ConsumerCan(s')
    ensures OutsiderCan(c, s, w) ==> OutsiderCan(c, s', w)
    ensures PullerCan(s, w) ==> PullerCan(s', w)
    ensures s'.shared.chan == s.shared.chan
  {
  }

  // ---- Whoever could end the stall ends it ----

  /** Every step of a worker outside the work iterator is work. */
  lemma {:induction false} OutsideWorks(c: Config, s: State, w: nat, s': State)
    requires WorkerStep(c, s, w, s') && !s.workers[w].Pulling?
    ensures !SameWork(s, s')
  {
  }

  /** A worker outside the work iterator that is able to move gets its turn. */
  lemma {:induction false} OutsiderWorks(c: Config, run: Run, who: Schedule, f: nat, i: nat, w: nat)
    requires Roomy(c, f) && IsUnstoppedRun(c, run, who) && Fair(c, run, who)
    requires OutsiderCan(c, run(i), w) && w < c.workers
    ensures !Stalls(run, i)
  {
    if Stalls(run, i) {
      assert WorkerGetsTurn(c, run, who, w, i);
      var j :| i <= j && (who(j) == Worker(w) || !CanMove(c, run(j), w));
      StallStep(c, run, who, f, i, j);
      CanSame(c, run(i), run(j), w);
      RunShaped(c, run, who, f, j);
      CanMoveExactly(c, run(j), w);
      OutsideWorks(c, run(j), w, run(j + 1));
    }
  }

  lemma {:induction false} AttemptWorks(c: Config, s: State, s': State)
    requires ConsumerStep(c, s, s') && Attempts(s, s') && ConsumerCan(s)
    ensures !SameWork(s, s')
  {
  }

  lemma {:induction false} ConsumerWorks(c: Config, run: Run, who: Schedule, f: nat, i: nat)
    requires Roomy(c, f) && IsUnstoppedRun(c, run, who) && Fair(c, run, who)
    requires ConsumerCan(run(i))
    ensures !Stalls(run, i)
  {
    if Stalls(run, i) {
      var j := ConsumerTurn(run, who, i);
      StallStep(c, run, who, f, i, j);
      CanSame(c, run(i), run(j), 0);
      AttemptWorks(c, run(j), run(j + 1));
    }
  }

  lemma {:induction false} ConsumerTurn(run: Run, who: Schedule, i: nat) returns (j: nat)
    requires ConsumerGetsTurn(run, who, i)
    ensures i <= j && (run(j).reorder.pc == Done || (who(j) == Consumer && Attempts(run(j), run(j + 1))))
  {
    j :| i <= j && (run(j).reorder.pc == Done || (who(j) == Consumer && Attempts(run(j), run(j + 1))));
  }

  /** The turns a pulling worker needs at most until it takes something. */
  function Distance(phase: Phase, empty: bool): nat {
    match phase
    case Check => if empty then 0 else 1
    case Drain => if empty then 1 else 0
    case AtTop => if empty then 2 else 1
    case Wait => if empty then 3 else 0
  }

  lemma {:induction false} PullNears(c: Config, s: State, w: nat, s': State)
    requires WorkerStep(c, s, w, s') && PullerCan(s, w) && SameWork(s, s') && PendingExact(s) && !s.shared.stop
    ensures PullerCan(s', w)
    ensures Distance(s'.workers[w].phase, s.shared.chan == []) < Distance(s.workers[w].phase, s.shared.chan == [])
  {
    CanSame(c, s, s', w);
    if s.workers[w].phase == Check && s.shared.heap == [] && s.shared.chan == [] {
      SumZero(s.workers, COUNTED);
    }
  }

  /** Only its own steps move a worker. */
  lemma {:induction false} OthersKeep(c: Config, run: Run, who: Schedule, w: nat, j: nat)
    requires IsUnstoppedRun(c, run, who) && who(j) != Worker(w) && w < |run(j).workers|
    ensures w < |run(j + 1).workers| && run(j + 1).workers[w] == run(j).workers[w]
  {
    assert StepsAt(c, run, who, j);
  }

  /** A worker gets its next turn in the phase it is in. */
  lemma {:induction false} NextTurn(c: Config, run: Run, who: Schedule, w: nat, j: nat, last: nat) returns (k: nat)
    requires IsUnstoppedRun(c, run, who)
    requires j <= last && who(last) == Worker(w) && w < |run(j).workers|
    ensures j <= k && who(k) == Worker(w) && w < |run(k).workers| && run(k).workers[w] == run(j).workers[w]
    decreases last - j
  {
    if who(j) == Worker(w) {
      k := j;
    } else {
      OthersKeep(c, run, who, w, j);
      k := NextTurn(c, run, who, w, j + 1, last);
    }
  }

  /** Any two states of a stall are the same but for who waits where. */
  lemma {:induction false} StallPair(c: Config, run: Run, who: Schedule, f: nat, i: nat, j: nat, k: nat)
    requires Roomy(c, f) && IsUnstoppedRun(c, run, who) && Stalls(run, i) && i <= j && i <= k
    ensures SameWork(run(j), run(k))
  {
    StallSame(c, run, who, f, i, j);
    StallSame(c, run, who, f, i, k);
  }

  /** In a stall a pulling worker keeps getting turns. */
  lemma {:induction false} PullerTurn(c: Config, run: Run, who: Schedule, f: nat, i: nat, w: nat, j: nat)
    returns (k: nat)
    requires Roomy(c, f) && IsUnstoppedRun(c, run, who) && Fair(c, run, who) && Stalls(run, i)
    requires i <= j && w < c.workers && PullerCan(run(j), w)
    ensures j <= k && who(k) == Worker(w) && w < |run(k).workers| && run(k).workers[w] == run(j).workers[w]
  {
    assert WorkerGetsTurn(c, run, who, w, j);
    var last :| j <= last && (who(last) == Worker(w) || !CanMove(c, run(last), w));
    StallPair(c, run, who, f, i, j, last);
    RunShaped(c, run, who, f, last);
    CanMoveExactly(c, run(last), w);
    k := NextTurn(c, run, who, w, j, last);
  }

  ghost function DistanceAt(s: State, w: nat): nat
    requires PullerCan(s, w)
  {
    Distance(s.workers[w].phase, s.shared.chan == [])
  }

  lemma {:induction false} PullerNears(c: Config, s: State, t: State, w: nat, t': State)
    requires PullerCan(s, w) && SameWork(s, t) && w < |t.workers| && t.workers[w] == s.workers[w]
    requires WorkerStep(c, t, w, t') && SameWork(t, t') && PendingExact(t) && !t.shared.stop
    ensures PullerCan(t', w) && DistanceAt(t', w) < DistanceAt(s, w)
  {
    CanSame(c, s, t, w);
    PullNears(c, t, w, t');
    CanSame(c, t, t', w);
  }

  lemma {:induction false} PullerNext(c: Config, run: Run, who: Schedule, f: nat, i: nat, w: nat, j: nat)
    returns (next: nat)
    requires Roomy(c, f) && IsUnstoppedRun(c, run, who) && Fair(c, run, who) && Stalls(run, i)
    requires i <= j && w < c.workers && PullerCan(run(j), w)
    ensures i <= next && PullerCan(run(next), w) && DistanceAt(run(next), w) < DistanceAt(run(j), w)
  {
    var k := PullerTurn(c, run, who, f, i, w, j);
    next := k + 1;
    StallPair(c, run, who, f, i, j, k);
    StallStep(c, run, who, f, i, k);
    RunShaped(c, run, who, f, k);
    PullerNears(c, run(j), run(k), w, run(next));
  }

  lemma {:induction false} PullerWorks(c: Config, run: Run, who: Schedule, f: nat, i: nat, w: nat, j: nat)
    requires Roomy(c, f) && IsUnstoppedRun(c, run, who) && Fair(c, run, who)
    requires i <= j && w < c.workers && PullerCan(run(j), w)
    ensures !Stalls(run, i)
    decreases DistanceAt(run(j), w)
  {
    if Stalls(run, i) {
      var next := PullerNext(c, run, who, f, i, w, j);
      PullerWorks(c, run, who, f, i, w, next);
    }
  }

  // ---- Somebody can: this is where the capacity comes in ----

  lemma {:induction false} SomeOutsiderCan(c: Config, s: State, f: nat) returns (w: nat)
    requires Roomy(c, f) && Shaped(c, s) && PendingExact(s) && ExitIsFinal(s) && Bounded(s, f) && !s.shared.stop
    requires IteratorFree(s.workers) && s.shared.results == [] && !Disconnected(s.workers)
    ensures OutsiderCan(c, s, w)
  {
    w :| 0 <= w < |s.workers| && !s.workers[w].Exited?;
    if !Enabled(c, s, s.workers[w]) {
      assert Counted(s.workers[w]) == 2;
      ZeroIsQuiet(s);
      NotAllBlocked(c, s, f);
      w :| 0 <= w < |s.workers| && !s.workers[w].StreamSend? && !s.workers[w].BulkSend?;
    }
  }

  /** With somebody pulling: that worker can, or a worker at work can. */
  lemma {:induction false} PullerOrOutsiderCan(c: Config, s: State) returns (w: nat)
    requires Sensible(c) && Shaped(c, s) && !IteratorFree(s.workers) && s.shared.results == []
    ensures PullerCan(s, w) || OutsiderCan(c, s, w)
  {
    w :| 0 <= w < |s.workers| && s.workers[w].Pulling?;
    if s.shared.chan == [] && !NobodyAtWork(s.workers) {
      w :| 0 <= w < |s.workers| && Counted(s.workers[w]) != 0;
    }
  }

  lemma {:induction false} SomebodyCan(c: Config, s: State, f: nat) returns (w: nat)
    requires Roomy(c, f) && Inv(c, s) && Bounded(s, f) && !s.shared.stop && !Finished(s)
    ensures ConsumerCan(s) || (w < c.workers && (PullerCan(s, w) || OutsiderCan(c, s, w)))
  {
    w := 0;
    if s.reorder.pc == Done {
      AllOutIsFinished(c, s);
    }
    if !ConsumerCan(s) {
      if IteratorFree(s.workers) {
        w := SomeOutsiderCan(c, s, f);
      } else {
        w := PullerOrOutsiderCan(c, s);
      }
    }
  }

  lemma {:induction false} Unstalled(c: Config, run: Run, who: Schedule, f: nat, i: nat)
    requires Roomy(c, f) && IsUnstoppedRun(c, run, who) && Fair(c, run, who) && !Finished(run(i))
    ensures !Stalls(run, i)
  {
    RunInv(c, run, who, f, i);
    var w := SomebodyCan(c, run(i), f);
    if ConsumerCan(run(i)) {
      ConsumerWorks(c, run, who, f, i);
    } else if PullerCan(run(i), w) {
      PullerWorks(c, run, who, f, i, w, i);
    } else {
      OutsiderWorks(c, run, who, f, i, w);
    }
  }

  lemma {:induction false} EventuallyFinished(c: Config, run: Run, who: Schedule, f: nat, i: nat) returns (n: nat)
    requires Roomy(c, f) && IsUnstoppedRun(c, run, who) && Fair(c, run, who)
    ensures i <= n && Finished(run(n))
    decreases WorkLeft(run(i))
  {
    if Finished(run(i)) {
      n := i;
    } else {
      Unstalled(c, run, who, f, i);
      var j :| i <= j && !NothingDone(run, i, j);
      n := EventuallyFinished(c, run, who, f, j);
    }
  }

  /** Termination and completeness: with at most `f` children per directory and room in the
      spec channel for more than N * (f - 1), every fair unstopped run reaches a state where the
      iterator has returned None, every worker has left, nothing is left behind, and the output
      is the whole preorder. It holds for every buffer limit, also 0, and every order the
      results arrive in. */
  lemma {:induction false} FairRunsFinish(c: Config, run: Run, who: Schedule, f: nat)
    requires Roomy(c, f) && IsUnstoppedRun(c, run, who) && Fair(c, run, who)
    ensures exists n :: Finished(run(n)) && OutputComplete(c, run(n))
  {
    var n := EventuallyFinished(c, run, who, f, 0);
    RunInv(c, run, who, f, n);
    AllOutIsFinished(c, run(n));
    forall k | 0 <= k < |Nodes(c)| ensures Output(run(n))[k] == Reads(Nodes(c))[k] {
      assert ResultNode(run(n).reorder.yielded[k]) == Nodes(c)[k];
    }
    assert Output(run(n)) == Reads(Nodes(c));
    assert OutputComplete(c, run(n));
  }

  ghost predicate OutputComplete(c: Config, s: State) {
    && Output(s) == Reads(Nodes(c))
    && s.shared.chan == [] && s.shared.heap == [] && s.shared.results == [] && s.reorder.buffer == []
    && s.shared.pending == 0
  }
}
