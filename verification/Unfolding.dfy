/** From a file system to the tree the walks unfold: what each directory's reads meet decides both
    its rows and what was streamed, so whether the walks agree can be read off the file system. */
module Unfolding {
  import opened Trees
  import opened Folds
  import opened Streaming
  import opened SerialWalk
  import opened DepthCut
  import P = Protocol
  import S = Safety

  /** A directory: what the attempts at reading it meet. */
  datatype Disk = Disk(first: Try, later: seq<Try>)

  datatype Try = Try(seen: seq<Found>, failure: Option<IoError>)

  /** An entry, and the directory behind it, if it is one. */
  datatype Found = Found(entry: RawEntry, below: Disk)

  function Tries(d: Disk): (tries: seq<Try>)
    ensures tries != [] && forall i | 0 <= i < |tries| :: (d decreases to tries[i])
  {
    [d.first] + d.later
  }

  function Entries(seen: seq<Found>): seq<RawEntry> {
    if seen == [] then [] else [seen[0].entry] + Entries(seen[1..])
  }

  /** The attempts, with nothing turned down. */
  function Attempts(tries: seq<Try>): (attempts: seq<Attempt>)
    ensures |attempts| == |tries|
    ensures forall i | 0 <= i < |tries| ::
              var entries := Entries(tries[i].seen);
              attempts[i] == Attempt(entries, seq(|entries|, _ => false), tries[i].failure)
  {
    if tries == [] then []
    else
      var entries := Entries(tries[0].seen);
      [Attempt(entries, seq(|entries|, _ => false), tries[0].failure)] + Attempts(tries[1..])
  }

  /** The attempt that settles the read. */
  function Settled(o: Options, d: Disk, context: bool): (k: nat)
    ensures k < |Tries(d)|
  {
    Settles(o, Attempts(Tries(d)), context, 0)
  }

  // ---- The unfolded tree: with the streaming context the parallel walk's, without the serial walk's ----

  function Unfold(o: Options, d: Disk, depth: nat, context: bool): Tree
    decreases d, 1
  {
    var k := Settled(o, d, context);
    var t := Tries(d)[k];
    var streamed := if context && o.canStream && k == 0 then StreamedTrees(o, t.seen, depth + 1, context) else [];
    var read := match t.failure
                case None => ReadOk(TreeRows(o, t.seen, depth + 1, context))
                case Some(error) => if streamed != [] then ReadOk([RowErr(error.code)]) else ReadErr(error.code);
    Dir(read, streamed)
  }

  function TreeRows(o: Options, seen: seq<Found>, depth: nat, context: bool): seq<Row>
    decreases seen
  {
    if seen == [] then []
    else
      var rest := TreeRows(o, seen[1..], depth, context);
      assert (seen decreases to seen[0]) && (seen[0] decreases to seen[0].below);
      if !Visible(o, seen[0].entry) then rest
      else
        [match RowOf(o, seen[0].entry)
         case NotBuilt(error) => RowErr(error.code)
         case Built(name, isParent) =>
           RowOk(name, depth, if isParent then Some(Unfold(o, seen[0].below, depth, context)) else None)] + rest
  }

  function StreamedTrees(o: Options, seen: seq<Found>, depth: nat, context: bool): seq<Tree>
    decreases seen
  {
    if seen == [] then []
    else
      var rest := StreamedTrees(o, seen[1..], depth, context);
      assert (seen decreases to seen[0]) && (seen[0] decreases to seen[0].below);
      if IsStreamed(o, seen[0].entry) then [Unfold(o, seen[0].below, depth, context)] + rest else rest
  }

  /** The children of the rows. */
  function BulkTrees(o: Options, seen: seq<Found>, depth: nat, context: bool): seq<Tree>
    decreases seen
  {
    if seen == [] then []
    else
      var rest := BulkTrees(o, seen[1..], depth, context);
      assert (seen decreases to seen[0]) && (seen[0] decreases to seen[0].below);
      if IsBulk(o, seen[0].entry) then [Unfold(o, seen[0].below, depth, context)] + rest else rest
  }

  /** As many trees are streamed as children are scheduled while enumerating. */
  lemma {:induction false} StreamedTreesCount(o: Options, seen: seq<Found>, depth: nat, context: bool)
    ensures |StreamedTrees(o, seen, depth, context)| == |StreamedNames(o, Entries(seen))|
    decreases |seen|
  {
    if seen != [] {
      StreamedTreesCount(o, seen[1..], depth, context);
      assert Entries(seen)[1..] == Entries(seen[1..]);
    }
  }

  lemma {:induction false} RowsAskForBulk(o: Options, seen: seq<Found>, depth: nat, context: bool)
    ensures RowKids(TreeRows(o, seen, depth, context)) == BulkTrees(o, seen, depth, context)
    decreases |seen|
  {
    if seen != [] {
      RowsAskForBulk(o, seen[1..], depth, context);
      var rows := TreeRows(o, seen, depth, context);
      if Visible(o, seen[0].entry) {
        assert rows[1..] == TreeRows(o, seen[1..], depth, context);
      }
    }
  }

  lemma {:induction false} StreamedTreesWithinBulk(o: Options, seen: seq<Found>, depth: nat, context: bool)
    ensures |StreamedTrees(o, seen, depth, context)| <= |BulkTrees(o, seen, depth, context)|
    ensures |StreamedTrees(o, seen, depth, context)| == |BulkTrees(o, seen, depth, context)| <==>
            AlignedListing(o, Entries(seen))
    ensures AlignedListing(o, Entries(seen)) ==>
              StreamedTrees(o, seen, depth, context) == BulkTrees(o, seen, depth, context)
    decreases |seen|
  {
    if seen != [] {
      StreamedTreesWithinBulk(o, seen[1..], depth, context);
      assert Entries(seen)[1..] == Entries(seen[1..]);
      AlignedSplits(o, Entries(seen));
      assert IsStreamed(o, seen[0].entry) ==> IsBulk(o, seen[0].entry);
    }
  }

  // ---- When the unfolded tree is aligned ----

  /** The parallel walk's read of this directory schedules children while enumerating. */
  predicate Streams(o: Options, d: Disk) {
    o.canStream && Settled(o, d, true) == 0 && StreamedNames(o, Entries(d.first.seen)) != []
  }

  /** Every directory that streams meets an aligned listing and does not break off, here and in
      all directories the rows ask for. */
  predicate WellStreamed(o: Options, d: Disk)
    decreases d, 1
  {
    var t := Tries(d)[Settled(o, d, true)];
    && (Streams(o, d) ==> d.first.failure == None && AlignedListing(o, Entries(d.first.seen)))
    && (t.failure == None ==> AllWellStreamed(o, t.seen))
  }

  predicate AllWellStreamed(o: Options, seen: seq<Found>)
    decreases seen
  {
    seen == [] ||
    (assert (seen decreases to seen[0]) && (seen[0] decreases to seen[0].below);
     (IsBulk(o, seen[0].entry) ==> WellStreamed(o, seen[0].below)) && AllWellStreamed(o, seen[1..]))
  }

  lemma {:induction false} ErrorRowHasNoKids(e: nat)
    ensures RowKids([RowErr(e)]) == []
  {
    assert [RowErr(e)][1..] == [];
  }

  /** Which children the two walks follow. */
  lemma {:induction false} KidsOfUnfolded(o: Options, d: Disk, depth: nat)
    ensures var t, k := Unfold(o, d, depth, true), Settled(o, d, true);
            && Tries(d)[0] == d.first
            && Kids(Serial, t) ==
               (if Tries(d)[k].failure == None then BulkTrees(o, Tries(d)[k].seen, depth + 1, true) else [])
            && (Streams(o, d) ==> k == 0 && Kids(Parallel, t) == StreamedTrees(o, d.first.seen, depth + 1, true) != [])
            && (!Streams(o, d) ==> Kids(Parallel, t) == Kids(Serial, t))
  {
    var k := Settled(o, d, true);
    var seen := Tries(d)[k].seen;
    RowsAskForBulk(o, seen, depth + 1, true);
    StreamedTreesCount(o, seen, depth + 1, true);
    if Tries(d)[k].failure.Some? {
      ErrorRowHasNoKids(Tries(d)[k].failure.value.code);
    }
  }

  /** The two agree exactly if the directory streamed nothing or streamed well. */
  lemma {:induction false} AgreeHere(o: Options, d: Disk, depth: nat)
    ensures var t := Unfold(o, d, depth, true);
            Kids(Parallel, t) == Kids(Serial, t) <==>
            (Streams(o, d) ==> d.first.failure == None && AlignedListing(o, Entries(d.first.seen)))
  {
    KidsOfUnfolded(o, d, depth);
    if Streams(o, d) {
      StreamedTreesWithinBulk(o, d.first.seen, depth + 1, true);
    }
  }

  /** Alignment, which makes the parallel walk hand out what the serial one does, read off the
      file system. */
  lemma {:induction false} AlignedExactly(o: Options, d: Disk, depth: nat)
    ensures Aligned(Unfold(o, d, depth, true)) <==> WellStreamed(o, d)
    decreases d, 1
  {
    var t, k := Unfold(o, d, depth, true), Settled(o, d, true);
    AlignedHereAndBelow(t);
    KidsOfUnfolded(o, d, depth);
    AgreeHere(o, d, depth);
    if Tries(d)[k].failure == None {
      AllAlignedExactly(o, Tries(d)[k].seen, depth + 1);
    }
  }

  lemma {:induction false} AllAlignedExactly(o: Options, seen: seq<Found>, depth: nat)
    ensures AllAligned(BulkTrees(o, seen, depth, true)) <==> AllWellStreamed(o, seen)
    decreases seen
  {
    if seen != [] {
      AllAlignedExactly(o, seen[1..], depth);
      if IsBulk(o, seen[0].entry) {
        assert (seen decreases to seen[0]) && (seen[0] decreases to seen[0].below);
        AlignedExactly(o, seen[0].below, depth);
        var trees := BulkTrees(o, seen, depth, true);
        AllAlignedFirst(trees);
        assert trees[1..] == BulkTrees(o, seen[1..], depth, true);
      }
    }
  }

  /** Which attempt a walker's read ends with: the parallel walk's may be the first for having
      streamed, the serial walk's never is for that. */
  lemma {:induction false} SettledExactly(o: Options, d: Disk, context: bool, k: nat)
    requires k < |Tries(d)|
    ensures var tries, streams := Tries(d), context && o.canStream && StreamedNames(o, Entries(d.first.seen)) != [];
            Settled(o, d, context) == k <==>
            && (forall i | 0 <= i < k :: tries[i].failure.Some? && tries[i].failure.value.transient)
            && (k > 0 ==> !streams)
            && (|| k + 1 == |tries| || tries[k].failure.None? || !tries[k].failure.value.transient
                || (k == 0 && streams))
  {
    var attempts := Attempts(Tries(d));
    SettlesExactly(o, attempts, context, 0, k);
    assert Tries(d)[0] == d.first;
    assert forall i | 0 <= i < |attempts| :: TransientFailure(attempts[i]) <==>
        Tries(d)[i].failure.Some? && Tries(d)[i].failure.value.transient;
  }

  /** The same rows, one with directories behind them. */
  predicate SameRows(tree: seq<Row>, rows: seq<EntryRow>) {
    && |tree| == |rows|
    && forall i | 0 <= i < |rows| ::
         match rows[i]
         case NotBuilt(error) => tree[i] == RowErr(error.code)
         case Built(name, isParent) => tree[i].RowOk? && tree[i].name == name && (tree[i].child.Some? <==> isParent)
  }

  lemma {:induction false} TreeRowsAre(o: Options, seen: seq<Found>, depth: nat, context: bool)
    ensures SameRows(TreeRows(o, seen, depth, context), Rows(o, Entries(seen)))
    decreases |seen|
  {
    if seen != [] {
      TreeRowsAre(o, seen[1..], depth, context);
      assert Entries(seen)[1..] == Entries(seen[1..]);
    }
  }

  /** An unfolded directory reads as the attempt that settles it: its rows, or an error, or a single
      error row if it broke off after streaming. */
  lemma {:induction false} UnfoldsWhatIsRead(o: Options, d: Disk, depth: nat, context: bool)
    ensures var t, k := Unfold(o, d, depth, context), Settled(o, d, context);
            match Tries(d)[k].failure
            case None => t.read.ReadOk? && SameRows(t.read.rows, Rows(o, Entries(Tries(d)[k].seen)))
            case Some(error) =>
              if context && o.canStream && k == 0 && StreamedNames(o, Entries(d.first.seen)) != []
              then t.read == ReadOk([RowErr(error.code)])
              else t.read == ReadErr(error.code)
  {
    var k := Settled(o, d, context);
    TreeRowsAre(o, Tries(d)[k].seen, depth + 1, context);
    StreamedTreesCount(o, d.first.seen, depth + 1, context);
    assert Tries(d)[0] == d.first;
  }

  /** Unfolded trees have their rows one level below the directory they were read from. */
  lemma {:induction false} UnfoldedIsLevelled(o: Options, d: Disk, depth: nat, context: bool)
    ensures LevelledBelow(Unfold(o, d, depth, context), depth)
    decreases d, 1
  {
    var seen := Tries(d)[Settled(o, d, context)].seen;
    RowsAreLevelled(o, seen, depth + 1, context);
    assert forall e :: [RowErr(e)][1..] == [];
  }

  lemma {:induction false} RowsAreLevelled(o: Options, seen: seq<Found>, depth: nat, context: bool)
    ensures Levelled(TreeRows(o, seen, depth, context), depth)
    decreases seen
  {
    if seen != [] {
      RowsAreLevelled(o, seen[1..], depth, context);
      if Visible(o, seen[0].entry) {
        var rows := TreeRows(o, seen, depth, context);
        assert rows[1..] == TreeRows(o, seen[1..], depth, context);
        if IsBulk(o, seen[0].entry) {
          assert (seen decreases to seen[0]) && (seen[0] decreases to seen[0].below);
          UnfoldedIsLevelled(o, seen[0].below, depth, context);
        }
      }
    }
  }

  // ---- The serial walk on the same file system ----

  /** A tree without the record of what was streamed. */
  function Erase(t: Tree): Tree {
    Dir(EraseRead(t.read), [])
  }

  function EraseRead(r: ReadResult): ReadResult {
    match r
    case ReadErr(e) => r
    case ReadOk(rows) => ReadOk(EraseRows(rows))
  }

  function EraseRows(rows: seq<Row>): seq<Row> {
    if rows == [] then []
    else
      [match rows[0]
       case RowOk(name, depth, Some(t)) => RowOk(name, depth, Some(Erase(t)))
       case _ => rows[0]] + EraseRows(rows[1..])
  }

  function EraseReads(rs: seq<ReadResult>): (es: seq<ReadResult>)
    ensures |es| == |rs|
  {
    if rs == [] then [] else [EraseRead(rs[0])] + EraseReads(rs[1..])
  }

  lemma {:induction false} EraseReadsConcat(a: seq<ReadResult>, b: seq<ReadResult>)
    ensures EraseReads(a + b) == EraseReads(a) + EraseReads(b)
  {
    if a == [] {
      assert a + b == b;
    } else {
      assert (a + b)[0] == a[0] && (a + b)[1..] == a[1..] + b;
      EraseReadsConcat(a[1..], b);
    }
  }

  lemma {:induction false} ListErased(t: Tree)
    ensures EraseReads(ListTree(t)) == ListTree(Erase(t))
    decreases t, 1
  {
    assert [t.read][1..] == [];
    if t.read.ReadOk? {
      ListRowsErased(t.read.rows);
      EraseReadsConcat([t.read], ListRows(t.read.rows));
    } else {
      assert [t.read] + [] == [t.read];
    }
  }

  lemma {:induction false} ListRowsErased(rows: seq<Row>)
    ensures EraseReads(ListRows(rows)) == ListRows(EraseRows(rows))
    decreases rows, 0
  {
    if rows != [] {
      ListRowsErased(rows[1..]);
      assert EraseRows(rows)[1..] == EraseRows(rows[1..]);
      if rows[0].RowOk? && rows[0].child.Some? {
        ListErased(rows[0].child.value);
        EraseReadsConcat(ListTree(rows[0].child.value), ListRows(rows[1..]));
      } else {
        assert ListRows(rows) == [] + ListRows(rows[1..]) == ListRows(rows[1..]);
      }
    }
  }

  /** On a well-streamed file system both walkers read the same. */
  lemma {:induction false} SameReads(o: Options, d: Disk, depth: nat)
    requires WellStreamed(o, d)
    ensures Erase(Unfold(o, d, depth, true)) == Unfold(o, d, depth, false)
    decreases d, 1
  {
    SameSettled(o, d);
    var t := Tries(d)[Settled(o, d, true)];
    StreamedTreesCount(o, t.seen, depth + 1, true);
    if t.failure == None {
      SameTreeRows(o, t.seen, depth + 1);
    }
  }

  lemma {:induction false} SameSettled(o: Options, d: Disk)
    requires WellStreamed(o, d)
    ensures Settled(o, d, false) == Settled(o, d, true)
  {
    SettlesAlike(o, Attempts(Tries(d)), 1);
  }

  lemma {:induction false} SettlesAlike(o: Options, attempts: seq<Attempt>, k: nat)
    requires 1 <= k
    ensures k < |attempts| ==> Settles(o, attempts, false, k) == Settles(o, attempts, true, k)
    decreases |attempts| - k
  {
    if k < |attempts| {
      SettlesAlike(o, attempts, k + 1);
    }
  }

  lemma {:induction false} SameTreeRows(o: Options, seen: seq<Found>, depth: nat)
    requires AllWellStreamed(o, seen)
    ensures EraseRows(TreeRows(o, seen, depth, true)) == TreeRows(o, seen, depth, false)
    decreases seen
  {
    if seen != [] {
      SameTreeRows(o, seen[1..], depth);
      if Visible(o, seen[0].entry) {
        var rows := TreeRows(o, seen, depth, true);
        assert rows[1..] == TreeRows(o, seen[1..], depth, true);
        if IsBulk(o, seen[0].entry) {
          assert (seen decreases to seen[0]) && (seen[0] decreases to seen[0].below);
          SameReads(o, seen[0].below, depth);
        }
      }
    }
  }

  /** From the file system to the output: on a well-streamed one every finished unstopped parallel
      walk hands out what the serial walker, reading on its own, hands out. */
  lemma {:induction false} ParallelIsSerialOnDisk(c: P.Config, s: P.State, o: Options, d: Disk)
    requires P.Sensible(c) && P.Reachable(c, s) && !s.shared.stop && s.reorder.pc == P.Done
    requires c.root == Unfold(o, d, 0, true) && WellStreamed(o, d)
    ensures EraseReads(S.Output(s)) == ListTree(Unfold(o, d, 0, false))
  {
    AlignedExactly(o, d, 0);
    S.OutputIsSerial(c, s);
    ListTreeIsPre(c.root, [0]);
    ListErased(c.root);
    SameReads(o, d, 0);
  }

  // ---- A file system on which the walks differ ----

  const STREAMING := Options(false, false, true)
  const NOWHERE := Unreachable(IoError(0, false))
  const EMPTY := Disk(Try([], None), [])

  /** Two directories, the second of which the enumeration does not know to be one. */
  const SAID := Found(RawEntry("a", DT_DIR, None, NOWHERE), EMPTY)
  const UNSAID := Found(RawEntry("b", DT_UNKNOWN, Some(Directory), NOWHERE), EMPTY)
  const PUZZLING := Disk(Try([SAID, UNSAID], None), [])

  const LEAF := Dir(ReadOk([]), [])
  const FORKED := Dir(ReadOk([RowOk("a", 1, Some(LEAF)), RowOk("b", 1, Some(LEAF))]), [LEAF])

  /** Both walks of it, and the serial walk on its own. The parallel walk never reads the second
      directory. */
  lemma {:induction false} WalksDiffer()
    ensures !WellStreamed(STREAMING, PUZZLING)
    ensures Unfold(STREAMING, PUZZLING, 0, true) == FORKED
    ensures Unfold(STREAMING, PUZZLING, 0, false) == Dir(FORKED.read, [])
    ensures Reads(Pre(Parallel, FORKED, [0])) == [FORKED.read, LEAF.read]
    ensures Reads(Pre(Serial, FORKED, [0])) == [FORKED.read, LEAF.read, LEAF.read]
  {
    UnfoldsEmpty(true);
    UnfoldsEmpty(false);
    UnfoldsPuzzling(true);
    UnfoldsPuzzling(false);
    ForkedInParallel();
    ForkedSerially();
    assert |Reads(Pre(Parallel, FORKED, [0]))| != |Reads(Pre(Serial, FORKED, [0]))|;
    SameWalkIffAligned(FORKED, [0]);
    AlignedExactly(STREAMING, PUZZLING, 0);
  }

  lemma {:induction false} ForkedInParallel()
    ensures Reads(Pre(Parallel, FORKED, [0])) == [FORKED.read, LEAF.read]
  {
    assert [0] + [0] == [0, 0];
    assert Pre(Parallel, LEAF, [0, 0]) == [Node([0, 0], LEAF)];
    assert PreKids(Parallel, FORKED, [0], 1) == [];
    assert PreKids(Parallel, FORKED, [0], 0) == Pre(Parallel, LEAF, [0] + [0]) + PreKids(Parallel, FORKED, [0], 1);
    assert Pre(Parallel, FORKED, [0]) == [Node([0], FORKED), Node([0, 0], LEAF)];
  }

  lemma {:induction false} ForkedSerially()
    ensures Reads(Pre(Serial, FORKED, [0])) == [FORKED.read, LEAF.read, LEAF.read]
  {
    ListTreeIsPre(FORKED, [0]);
    var rows := FORKED.read.rows;
    assert rows[1..] == [rows[1]] && [rows[1]][1..] == [];
    assert ListTree(LEAF) == [LEAF.read];
    assert ListRows([rows[1]]) == [LEAF.read] + [] == [LEAF.read];
    assert ListRows(rows) == [LEAF.read] + ListRows(rows[1..]) == [LEAF.read, LEAF.read];
  }

  lemma {:induction false} UnfoldsEmpty(context: bool)
    ensures Unfold(STREAMING, EMPTY, 1, context) == Dir(ReadOk([]), [])
  {
    assert Tries(EMPTY)[0] == EMPTY.first;
  }

  lemma {:induction false} UnfoldsPuzzling(context: bool)
    ensures Settled(STREAMING, PUZZLING, context) == 0
    ensures var leaf := Unfold(STREAMING, EMPTY, 1, context);
            Unfold(STREAMING, PUZZLING, 0, context) ==
            Dir(ReadOk([RowOk("a", 1, Some(leaf)), RowOk("b", 1, Some(leaf))]), if context then [leaf] else [])
  {
    var seen, leaf := [SAID, UNSAID], Unfold(STREAMING, EMPTY, 1, context);
    assert Tries(PUZZLING)[0] == PUZZLING.first;
    assert seen[1..] == [UNSAID] && [UNSAID][1..] == [];
    assert TreeRows(STREAMING, [UNSAID], 1, context) == [RowOk("b", 1, Some(leaf))];
    assert TreeRows(STREAMING, seen, 1, context) == [RowOk("a", 1, Some(leaf)), RowOk("b", 1, Some(leaf))];
    assert StreamedTrees(STREAMING, [UNSAID], 1, context) == [];
    assert StreamedTrees(STREAMING, seen, 1, context) == [leaf];
  }
}
