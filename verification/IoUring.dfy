/** Batched `statx` through an io_uring (src/core/linux_io_uring.rs). The ring is an adversary: it
    may fail to be built, take any number of requests, and complete any of them, in any order,
    with any result. */
module IoUring {
  import opened Dirents
  import T = Trees

  const RING_SIZE: nat := 256

  datatype Statx = Statx(fields: seq<nat>)

  datatype Entry = Entry(dType: Byte, name: seq<Byte>, statx: T.Option<Statx>)

  /** A request: the name to look up, the buffer for the answer, and the tag of its completion. */
  datatype Request = Request(name: seq<Byte>, buffer: nat, userData: nat)

  /** The request at `position` in the queue has completed; a position past its end stands for a
      completion with a tag that was never given. */
  datatype Completion = Completion(position: nat, result: int)

  datatype Cqe = Cqe(userData: nat, result: int)

  datatype Ring = Ring(built: bool, accepts: nat, waited: bool, completions: seq<Completion>)

  /** The number of names without a NUL among the first `i`. */
  function Rank(chunk: seq<Entry>, i: nat): nat
    requires i <= |chunk|
  {
    if i == 0 then 0 else Rank(chunk, i - 1) + if NulFree(chunk[i - 1].name) then 1 else 0
  }

  lemma {:induction false} RankGrows(chunk: seq<Entry>, i: nat, j: nat)
    requires i <= j <= |chunk|
    ensures Rank(chunk, i) <= Rank(chunk, j) <= Rank(chunk, i) + (j - i)
    ensures i < j && NulFree(chunk[i].name) ==> Rank(chunk, i) < Rank(chunk, j)
    decreases j
  {
    if i < j {
      RankGrows(chunk, i, j - 1);
    }
  }

  predicate Completed(completions: seq<Completion>, position: nat) {
    exists j :: 0 <= j < |completions| && completions[j].position == position && completions[j].result == 0
  }

  /** The ring answers for the `i`-th entry: its request was taken and completed without error. */
  predicate Answered(ring: Ring, completions: seq<Completion>, chunk: seq<Entry>, i: nat)
    requires i < |chunk|
  {
    NulFree(chunk[i].name) && Rank(chunk, i) < ring.accepts && Completed(completions, Rank(chunk, i))
  }

  function Submitted(ring: Ring, chunk: seq<Entry>): nat {
    var valid := Rank(chunk, |chunk|);
    if valid <= ring.accepts then valid else ring.accepts
  }

  /** The chunk is processed without an error: its ring can be made and waited for, and waiting is
      needed only if some request was made. */
  predicate Works(ring: Ring, chunk: seq<Entry>) {
    ring.built && (ring.waited || ring.accepts == 0 || forall e | e in chunk :: 0 in e.name)
  }

  lemma {:induction false} SubmittedNone(ring: Ring, chunk: seq<Entry>)
    ensures Submitted(ring, chunk) == 0 <==> ring.accepts == 0 || forall e | e in chunk :: 0 in e.name
  {
    RankZero(chunk, |chunk|);
    assert chunk[..|chunk|] == chunk;
  }

  lemma {:induction false} RankZero(chunk: seq<Entry>, i: nat)
    requires i <= |chunk|
    ensures Rank(chunk, i) == 0 <==> forall e | e in chunk[..i] :: 0 in e.name
  {
    if i > 0 {
      RankZero(chunk, i - 1);
      assert chunk[..i] == chunk[..i - 1] + [chunk[i - 1]];
      assert 0 in chunk[i - 1].name <==> !NulFree(chunk[i - 1].name);
    }
  }

  function Stored(stat: seq<Byte> -> Statx, entry: Entry): Entry {
    entry.(statx := T.Some(stat(entry.name)))
  }

  /** The entry as it is left behind: with the answer for its own name, or as it was. */
  function Filled(stat: seq<Byte> -> Statx, ring: Ring, completions: seq<Completion>, chunk: seq<Entry>, i: nat): Entry
    requires i < |chunk|
  {
    if Answered(ring, completions, chunk, i) then Stored(stat, chunk[i]) else chunk[i]
  }

  // ---- The kernel's side ----

  predicate OwnBuffers(requests: seq<Request>) {
    forall k | 0 <= k < |requests| :: requests[k].buffer == k && requests[k].userData == k
  }

  method SubmitAndWait(stat: seq<Byte> -> Statx, ring: Ring, requests: seq<Request>, n: nat)
    returns (buffers: seq<Statx>, cqes: seq<Cqe>)
    requires OwnBuffers(requests) && |requests| <= n
    ensures |buffers| == n && |cqes| == |ring.completions|
    ensures forall j | 0 <= j < |cqes| :: cqes[j] == Cqe(ring.completions[j].position, ring.completions[j].result)
    ensures forall k | 0 <= k < |requests| && Completed(ring.completions, k) :: buffers[k] == stat(requests[k].name)
  {
    buffers := seq(n, _ => Statx([]));
    cqes := [];
    for j := 0 to |ring.completions|
      invariant |buffers| == n && |cqes| == j
      invariant forall i | 0 <= i < j :: cqes[i] == Cqe(ring.completions[i].position, ring.completions[i].result)
      invariant forall k | 0 <= k < |requests| && Completed(ring.completions[..j], k) ::
                  buffers[k] == stat(requests[k].name)
    {
      var c := ring.completions[j];
      assert forall k | Completed(ring.completions[..j + 1], k) ::
          Completed(ring.completions[..j], k) || (c.position == k && c.result == 0);
      if c.position < |requests| {
        var request := requests[c.position];
        if c.result == 0 {
          buffers := buffers[request.buffer := stat(request.name)];
        }
        cqes := cqes + [Cqe(request.userData, c.result)];
      } else {
        cqes := cqes + [Cqe(c.position, c.result)];
      }
    }
    assert ring.completions[..|ring.completions|] == ring.completions;
  }

  // ---- One chunk ----

  /** Request `k` was made for the entry at `localToEntry[k]`, the `k`-th with a valid name. */
  predicate Mapped(chunk: seq<Entry>, requests: seq<Request>, localToEntry: seq<nat>) {
    && |requests| == |localToEntry|
    && forall k | 0 <= k < |requests| ::
         && localToEntry[k] < |chunk|
         && NulFree(chunk[localToEntry[k]].name)
         && Rank(chunk, localToEntry[k]) == k
         && requests[k] == Request(chunk[localToEntry[k]].name, k, k)
  }

  method Submit(ring: Ring, chunk: seq<Entry>) returns (requests: seq<Request>, localToEntry: seq<nat>)
    ensures Mapped(chunk, requests, localToEntry)
    ensures |requests| == Submitted(ring, chunk)
  {
    requests, localToEntry := [], [];
    var submitted := 0;
    for entryIdx := 0 to |chunk|
      invariant Mapped(chunk, requests, localToEntry)
      invariant submitted == |requests| == Rank(chunk, entryIdx) <= ring.accepts
    {
      if exists i :: 0 <= i < |chunk[entryIdx].name| && chunk[entryIdx].name[i] == 0 {
        continue;
      }
      var localIdx := submitted;
      if submitted < ring.accepts {
        requests := requests + [Request(chunk[entryIdx].name, localIdx, localIdx)];
        localToEntry := localToEntry + [entryIdx];
        submitted := submitted + 1;
      } else {
        RankGrows(chunk, entryIdx, |chunk|);
        break;
      }
    }
  }

  predicate AnswersFor(c: Completion, localToEntry: seq<nat>, i: nat) {
    c.result == 0 && c.position < |localToEntry| && localToEntry[c.position] == i
  }

  /** What one more completion changes: nothing, but for the entry it was requested for. */
  lemma {:induction false} OneCompletion(
    ring: Ring, chunk: seq<Entry>, requests: seq<Request>, localToEntry: seq<nat>, j: nat, i: nat)
    requires Mapped(chunk, requests, localToEntry) && |requests| == Submitted(ring, chunk)
    requires j < |ring.completions| && i < |chunk|
    ensures var c := ring.completions[j];
            Answered(ring, ring.completions[..j + 1], chunk, i) <==>
            Answered(ring, ring.completions[..j], chunk, i) || AnswersFor(c, localToEntry, i)
  {
    var c := ring.completions[j];
    var done, more := ring.completions[..j], ring.completions[..j + 1];
    assert more[j] == c && forall k | 0 <= k < j :: more[k] == done[k];
    assert forall p :: Completed(more, p) <==> Completed(done, p) || (c.position == p && c.result == 0);
    RankGrows(chunk, i, |chunk|);
    if NulFree(chunk[i].name) && Rank(chunk, i) < ring.accepts && c.position == Rank(chunk, i) {
      var e := localToEntry[c.position];
      RankGrows(chunk, if i < e then i else e, if i < e then e else i);
    }
  }

  /** The chunk as it is after some completions. */
  predicate Harvested(
    stat: seq<Byte> -> Statx, ring: Ring, completions: seq<Completion>, chunk: seq<Entry>, now: seq<Entry>)
  {
    |now| == |chunk| && forall i | 0 <= i < |now| :: now[i] == Filled(stat, ring, completions, chunk, i)
  }

  lemma {:induction false} HarvestNext(stat: seq<Byte> -> Statx, ring: Ring, chunk: seq<Entry>,
    requests: seq<Request>, localToEntry: seq<nat>, now: seq<Entry>, j: nat)
    requires Mapped(chunk, requests, localToEntry) && |requests| == Submitted(ring, chunk)
    requires j < |ring.completions| && Harvested(stat, ring, ring.completions[..j], chunk, now)
    ensures var c := ring.completions[j];
            if c.result == 0 && c.position < |localToEntry| then
              (var e := localToEntry[c.position];
               Harvested(stat, ring, ring.completions[..j + 1], chunk, now[e := Stored(stat, now[e])]))
            else
              Harvested(stat, ring, ring.completions[..j + 1], chunk, now)
  {
    forall i | 0 <= i < |now|
      ensures Filled(stat, ring, ring.completions[..j + 1], chunk, i)
           == if AnswersFor(ring.completions[j], localToEntry, i) then Stored(stat, chunk[i]) else now[i]
    {
      OneCompletion(ring, chunk, requests, localToEntry, j, i);
    }
  }

  lemma {:induction false} NoneSubmitted(
    stat: seq<Byte> -> Statx, ring: Ring, completions: seq<Completion>, chunk: seq<Entry>)
    requires Submitted(ring, chunk) == 0 || completions == []
    ensures Harvested(stat, ring, completions, chunk, chunk)
  {
    forall i | 0 <= i < |chunk| ensures !Answered(ring, completions, chunk, i) {
      RankGrows(chunk, i, |chunk|);
    }
  }

  /** The order of the completions does not matter. */
  lemma {:induction false} AnyOrder(
    stat: seq<Byte> -> Statx, ring: Ring, a: seq<Completion>, b: seq<Completion>, chunk: seq<Entry>, now: seq<Entry>)
    requires multiset(a) == multiset(b)
    requires Harvested(stat, ring, a, chunk, now)
    ensures Harvested(stat, ring, b, chunk, now)
  {
    forall p: nat ensures Completed(a, p) <==> Completed(b, p) {
      if Completed(a, p) {
        SameCompleted(a, b, p);
      }
      if Completed(b, p) {
        SameCompleted(b, a, p);
      }
    }
  }

  lemma {:induction false} SameCompleted(a: seq<Completion>, b: seq<Completion>, position: nat)
    requires multiset(a) == multiset(b) && Completed(a, position)
    ensures Completed(b, position)
  {
    var j :| 0 <= j < |a| && a[j].position == position && a[j].result == 0;
    assert a[j] in multiset(b);
    var k :| 0 <= k < |b| && b[k] == a[j];
  }

  /** The list with the entries from `lo` to `hi` answered, and no other changed. */
  predicate ChunkFilled(stat: seq<Byte> -> Statx, ring: Ring, was: seq<Entry>, now: seq<Entry>, lo: nat, hi: nat)
    requires lo <= hi <= |was|
  {
    && |now| == |was|
    && (forall i | 0 <= i < |now| && !(lo <= i < hi) :: now[i] == was[i])
    && Harvested(stat, ring, ring.completions, was[lo..hi], now[lo..hi])
  }

  /** `batch_statx_chunk` on `entries[lo..hi]`. */
  method BatchStatxChunk(stat: seq<Byte> -> Statx, ring: Ring, entries: array<Entry>, lo: nat, hi: nat)
    returns (ok: bool)
    requires lo <= hi <= entries.Length && hi - lo <= RING_SIZE
    modifies entries
    ensures ok == Works(ring, old(entries[..])[lo..hi])
    ensures ok ==> ChunkFilled(stat, ring, old(entries[..]), entries[..], lo, hi)
    ensures !ok ==> entries[..] == old(entries[..])
  {
    ghost var chunk := entries[lo..hi];
    assert old(entries[..])[lo..hi] == chunk;
    SubmittedNone(ring, chunk);
    var n := hi - lo;
    if !ring.built {
      return false;
    }
    var requests, localToEntry := Submit(ring, entries[lo..hi]);
    if |requests| == 0 {
      NoneSubmitted(stat, ring, ring.completions, chunk);
      return true;
    }
    if !ring.waited {
      return false;
    }
    RankGrows(chunk, 0, n);
    var buffers, cqes := SubmitAndWait(stat, ring, requests, n);
    Harvest(stat, ring, requests, localToEntry, buffers, cqes, entries, lo, hi);
    assert entries[..][lo..hi] == entries[lo..hi];
    ok := true;
  }

  method Harvest(stat: seq<Byte> -> Statx, ring: Ring, ghost requests: seq<Request>, localToEntry: seq<nat>,
    buffers: seq<Statx>, cqes: seq<Cqe>, entries: array<Entry>, lo: nat, hi: nat)
    requires lo <= hi <= entries.Length
    requires Mapped(entries[lo..hi], requests, localToEntry) && |requests| == Submitted(ring, entries[lo..hi])
    requires |requests| <= |buffers| && |cqes| == |ring.completions|
    requires forall j | 0 <= j < |cqes| :: cqes[j] == Cqe(ring.completions[j].position, ring.completions[j].result)
    requires forall k | 0 <= k < |requests| && Completed(ring.completions, k) :: buffers[k] == stat(requests[k].name)
    modifies entries
    ensures forall i | 0 <= i < entries.Length && !(lo <= i < hi) :: entries[i] == old(entries[i])
    ensures Harvested(stat, ring, ring.completions, old(entries[lo..hi]), entries[lo..hi])
  {
    ghost var chunk := entries[lo..hi];
    NoneSubmitted(stat, ring, ring.completions[..0], chunk);
    for j := 0 to |cqes|
      invariant forall i | 0 <= i < entries.Length && !(lo <= i < hi) :: entries[i] == old(entries[i])
      invariant Harvested(stat, ring, ring.completions[..j], chunk, entries[lo..hi])
    {
      ghost var now := entries[lo..hi];
      HarvestNext(stat, ring, chunk, requests, localToEntry, now, j);
      var localIdx := cqes[j].userData;
      if localIdx >= |localToEntry| {
        continue;
      }
      if cqes[j].result == 0 {
        assert Completed(ring.completions, localIdx) by {
          assert ring.completions[j].position == localIdx;
        }
        var entryIdx := localToEntry[localIdx];
        assert now[entryIdx].name == chunk[entryIdx].name;
        entries[lo + entryIdx] := entries[lo + entryIdx].(statx := T.Some(buffers[localIdx]));
        assert entries[lo..hi] == now[entryIdx := Stored(stat, now[entryIdx])];
      }
    }
    assert ring.completions[..|cqes|] == ring.completions;
  }

  // ---- The whole list ----

  function ChunkEnd(n: nat, start: nat): nat {
    if start + RING_SIZE <= n then start + RING_SIZE else n
  }

  /** The chunk that entry `i` of the list is processed with. */
  function ChunkOf(entries: seq<Entry>, c: nat): seq<Entry>
    requires 256 * c <= |entries|
  {
    entries[256 * c..if 256 * c + 256 <= |entries| then 256 * c + 256 else |entries|]
  }

  /** The chunks before the `c`-th are all processed without an error. */
  predicate WorksUpTo(rings: seq<Ring>, entries: seq<Entry>, c: nat)
    requires c <= |rings| && 256 * |rings| < |entries| + 256
  {
    forall k | 0 <= k < c :: Works(rings[k], ChunkOf(entries, k))
  }

  /** Entry `i` once the first `done` chunks have been processed. */
  function After(stat: seq<Byte> -> Statx, rings: seq<Ring>, entries: seq<Entry>, done: nat, i: nat): Entry
    requires i < |entries| && done <= |rings|
  {
    var c := i / 256;
    if c < done then Filled(stat, rings[c], rings[c].completions, ChunkOf(entries, c), i % 256) else entries[i]
  }

  /** The list as it is once the first `done` chunks have been processed without an error. */
  predicate Progress(stat: seq<Byte> -> Statx, rings: seq<Ring>, entries: seq<Entry>, now: seq<Entry>, done: nat) {
    && 256 * |rings| < |entries| + 256
    && |now| == |entries| && done <= |rings|
    && WorksUpTo(rings, entries, done)
    && forall i | 0 <= i < |now| :: now[i] == After(stat, rings, entries, done, i)
  }

  /** One more chunk, which starts out untouched. */
  lemma {:induction false} ProgressNext(stat: seq<Byte> -> Statx, rings: seq<Ring>, entries: seq<Entry>,
    was: seq<Entry>, now: seq<Entry>, done: nat, ok: bool)
    requires Progress(stat, rings, entries, was, done) && done < |rings|
    requires var lo, hi := done * RING_SIZE, ChunkEnd(|entries|, done * RING_SIZE);
             && ok == Works(rings[done], was[lo..hi])
             && if ok then ChunkFilled(stat, rings[done], was, now, lo, hi) else now == was
    ensures ok == Works(rings[done], ChunkOf(entries, done))
    ensures Progress(stat, rings, entries, now, if ok then done + 1 else done)
  {
    var lo, hi := done * RING_SIZE, ChunkEnd(|entries|, done * RING_SIZE);
    assert was[lo..hi] == ChunkOf(entries, done);
    if ok {
      forall i | 0 <= i < |now| ensures now[i] == After(stat, rings, entries, done + 1, i) {
        if lo <= i < hi {
          assert i / RING_SIZE == done && i % RING_SIZE == i - lo;
          assert now[i] == now[lo..hi][i - lo];
        } else {
          assert now[i] == was[i];
        }
      }
    }
  }

  lemma {:induction false} NoProgress(stat: seq<Byte> -> Statx, rings: seq<Ring>, entries: seq<Entry>)
    requires 256 * |rings| < |entries| + 256
    ensures Progress(stat, rings, entries, entries, 0)
  {
  }

  /** `batch_statx_via_io_uring`, with the rings it makes. The chunks take every entry once: entry
      `i` goes with chunk `i / 256`. Up to the first chunk that fails, every entry is left
      with the answer for its own name or as it was; after it nothing is touched. */
  method BatchStatx(stat: seq<Byte> -> Statx, rings: seq<Ring>, entries: array<Entry>)
    returns (ok: bool, ghost done: nat)
    requires |entries[..]| <= 256 * |rings| < |entries[..]| + 256
    modifies entries
    ensures Progress(stat, rings, old(entries[..]), entries[..], done)
    ensures ok <==> done == |rings|
    ensures !ok ==> !Works(rings[done], ChunkOf(old(entries[..]), done))
  {
    ghost var all := entries[..];
    done := 0;
    NoProgress(stat, rings, all);
    if entries.Length == 0 {
      return true, 0;
    }
    var chunkStart := 0;
    while chunkStart < entries.Length
      invariant chunkStart == done * RING_SIZE
      invariant Progress(stat, rings, all, entries[..], done)
    {
      var chunkEnd := ChunkEnd(entries.Length, chunkStart);
      ghost var was := entries[..];
      ok := BatchStatxChunk(stat, rings[chunkStart / RING_SIZE], entries, chunkStart, chunkEnd);
      ProgressNext(stat, rings, all, was, entries[..], done, ok);
      if !ok {
        return false, done;
      }
      done := done + 1;
      chunkStart := chunkStart + RING_SIZE;
    }
    ok := true;
  }
}
