/** The depth limits: the read callback refuses to read below `max_depth` (src/lib.rs:600-606),
    and the entry iterator does not show entries above `min_depth`. */
module DepthCut {
  import opened Trees
  import opened EntryIter

  /** The tree a walk unfolds under a depth limit: a directory at `depth` whose contents would
      lie below the limit reads as empty. */
  function Cut(maxDepth: nat, t: Tree, depth: nat): Tree {
    if depth + 1 > maxDepth then Dir(ReadOk([]), [])
    else Dir(
        match t.read case ReadErr(e) => ReadErr(e) case ReadOk(rows) => ReadOk(CutRows(maxDepth, rows)),
        CutStreamed(maxDepth, t.streamed, depth + 1))
  }

  /** A row's own depth is the depth of the directory behind it (src/core/dir_entry.rs:273-285). */
  function CutRows(maxDepth: nat, rows: seq<Row>): seq<Row> {
    if rows == [] then []
    else
      [match rows[0]
       case RowOk(name, depth, Some(t)) => RowOk(name, depth, Some(Cut(maxDepth, t, depth)))
       case _ => rows[0]] + CutRows(maxDepth, rows[1..])
  }

  function CutStreamed(maxDepth: nat, ts: seq<Tree>, depth: nat): seq<Tree> {
    if ts == [] then [] else [Cut(maxDepth, ts[0], depth)] + CutStreamed(maxDepth, ts[1..], depth)
  }

  /** Every entry lies one level below the directory it was read from. */
  predicate Levelled(rows: seq<Row>, depth: nat) {
    rows == [] || (
      && (match rows[0]
          case RowErr(_) => true
          case RowOk(_, d, None) => d == depth
          case RowOk(_, d, Some(t)) => d == depth && (t.read.ReadOk? ==> Levelled(t.read.rows, depth + 1)))
      && Levelled(rows[1..], depth))
  }

  // ---- The reference: everything there is, and a filter on depth ----

  /** An item with the depth it is found at; error rows have no depth of their own. */
  datatype Placed = Placed(depth: nat, item: Item)

  /** Everything in the tree, in preorder, with no limit at all. */
  function Everything(rows: seq<Row>, depth: nat): seq<Placed> {
    if rows == [] then [] else EverythingAt(rows[0], depth) + Everything(rows[1..], depth)
  }

  function EverythingAt(row: Row, depth: nat): seq<Placed> {
    match row
    case RowErr(e) => [Placed(depth, ErrItem(Fault(e)))]
    case RowOk(name, d, None) => [Placed(depth, EntryItem(name, d, false, None))]
    case RowOk(name, d, Some(t)) =>
      match t.read
      case ReadErr(e) => [Placed(depth, EntryItem(name, d, true, Some(Fault(e))))]
      case ReadOk(rows) => [Placed(depth, EntryItem(name, d, true, None))] + Everything(rows, depth + 1)
  }

  /** What the limits keep: entries from `minDepth` to `maxDepth`, and error rows to `maxDepth`.
      A directory at `maxDepth` is not read, so it shows no read error. */
  function Keep(minDepth: nat, maxDepth: nat, all: seq<Placed>): seq<Item> {
    if all == [] then [] else KeepOne(minDepth, maxDepth, all[0]) + Keep(minDepth, maxDepth, all[1..])
  }

  function KeepOne(minDepth: nat, maxDepth: nat, x: Placed): seq<Item> {
    if x.depth > maxDepth then []
    else if x.item.ErrItem? then [x.item]
    else if x.depth < minDepth then []
    else if x.depth == maxDepth then [x.item.(readError := None)]
    else [x.item]
  }

  lemma {:induction false} KeepConcat(minDepth: nat, maxDepth: nat, a: seq<Placed>, b: seq<Placed>)
    ensures Keep(minDepth, maxDepth, a + b) == Keep(minDepth, maxDepth, a) + Keep(minDepth, maxDepth, b)
  {
    if a == [] {
      assert a + b == b;
    } else {
      assert (a + b)[1..] == a[1..] + b;
      KeepConcat(minDepth, maxDepth, a[1..], b);
    }
  }

  lemma {:induction false} TooDeep(minDepth: nat, maxDepth: nat, rows: seq<Row>, depth: nat)
    requires depth > maxDepth
    ensures Keep(minDepth, maxDepth, Everything(rows, depth)) == []
    decreases rows, 1
  {
    if rows != [] {
      TooDeepAt(minDepth, maxDepth, rows[0], depth);
      TooDeep(minDepth, maxDepth, rows[1..], depth);
      KeepConcat(minDepth, maxDepth, EverythingAt(rows[0], depth), Everything(rows[1..], depth));
    }
  }

  lemma {:induction false} TooDeepAt(minDepth: nat, maxDepth: nat, row: Row, depth: nat)
    requires depth > maxDepth
    ensures Keep(minDepth, maxDepth, EverythingAt(row, depth)) == []
    decreases row, 0
  {
    if row.RowOk? && row.child.Some? && row.child.value.read.ReadOk? {
      TooDeep(minDepth, maxDepth, row.child.value.read.rows, depth + 1);
    }
  }

  /** What the entry iterator yields under the limits is exactly what the filter keeps. */
  lemma {:induction false} LimitsKeep(minDepth: nat, maxDepth: nat, rows: seq<Row>, depth: nat)
    requires depth <= maxDepth && Levelled(rows, depth)
    ensures FlattenRows(minDepth, CutRows(maxDepth, rows)) == Keep(minDepth, maxDepth, Everything(rows, depth))
    decreases rows, 1
  {
    if rows != [] {
      LimitsKeepAt(minDepth, maxDepth, rows[0], depth);
      LimitsKeep(minDepth, maxDepth, rows[1..], depth);
      KeepConcat(minDepth, maxDepth, EverythingAt(rows[0], depth), Everything(rows[1..], depth));
      assert CutRows(maxDepth, rows)[0] == CutRows(maxDepth, [rows[0]])[0];
      assert CutRows(maxDepth, rows)[1..] == CutRows(maxDepth, rows[1..]);
    }
  }

  lemma {:induction false} LimitsKeepAt(minDepth: nat, maxDepth: nat, row: Row, depth: nat)
    requires depth <= maxDepth && Levelled([row], depth)
    ensures FlattenRow(minDepth, CutRows(maxDepth, [row])[0]) == Keep(minDepth, maxDepth, EverythingAt(row, depth))
    decreases row, 0
  {
    match row
    case RowErr(_) =>
    case RowOk(_, _, None) =>
    case RowOk(_, _, Some(t)) =>
      match t.read
      case ReadErr(_) =>
      case ReadOk(rows) =>
        KeepConcat(minDepth, maxDepth, [Placed(depth, AsItem(row, None))], Everything(rows, depth + 1));
        if depth == maxDepth {
          TooDeep(minDepth, maxDepth, rows, depth + 1);
        } else {
          LimitsKeep(minDepth, maxDepth, rows, depth + 1);
        }
  }

  // ---- The parallel walk under the limit ----

  /** The directories streamed are cut like those of the rows: one level below. */
  lemma {:induction false} CutStreamedAt(maxDepth: nat, ts: seq<Tree>, depth: nat, k: nat)
    requires k < |ts|
    ensures |CutStreamed(maxDepth, ts, depth)| == |ts|
    ensures CutStreamed(maxDepth, ts, depth)[k] == Cut(maxDepth, ts[k], depth)
  {
    CutStreamedCount(maxDepth, ts, depth);
    if k > 0 {
      CutStreamedAt(maxDepth, ts[1..], depth, k - 1);
    }
  }

  lemma {:induction false} CutRowsKids(maxDepth: nat, rows: seq<Row>, depth: nat)
    requires Levelled(rows, depth)
    ensures RowKids(CutRows(maxDepth, rows)) == CutStreamed(maxDepth, RowKids(rows), depth)
    ensures forall k | 0 <= k < |RowKids(rows)| :: LevelledBelow(RowKids(rows)[k], depth)
    decreases |rows|
  {
    if rows != [] {
      CutRowsKids(maxDepth, rows[1..], depth);
      assert CutRows(maxDepth, rows)[1..] == CutRows(maxDepth, rows[1..]);
      if rows[0].RowOk? && rows[0].child.Some? {
        assert RowKids(rows)[1..] == RowKids(rows[1..]);
      }
    }
  }

  /** The rows of a directory at `depth` lie one level below it. */
  predicate LevelledBelow(t: Tree, depth: nat) {
    t.read.ReadOk? ==> Levelled(t.read.rows, depth + 1)
  }

  /** A depth limit cuts what was streamed and what the rows ask for alike: an aligned walk stays
      aligned. */
  lemma {:induction false} AlignedCut(maxDepth: nat, t: Tree, depth: nat)
    requires Aligned(t) && LevelledBelow(t, depth)
    ensures Aligned(Cut(maxDepth, t, depth))
  {
    var cut := Cut(maxDepth, t, depth);
    AlignedHereAndBelow(t);
    AlignedHereAndBelow(cut);
    if depth + 1 <= maxDepth {
      var kids := ReadKids(t);
      if t.read.ReadOk? {
        CutRowsKids(maxDepth, t.read.rows, depth + 1);
      }
      var cutKids := CutStreamed(maxDepth, kids, depth + 1);
      assert ReadKids(cut) == cutKids;
      CutStreamedCount(maxDepth, t.streamed, depth + 1);
      CutStreamedCount(maxDepth, kids, depth + 1);
      assert Kids(Parallel, cut) == cutKids;
      forall k | 0 <= k < |cutKids| ensures Aligned(cutKids[k]) {
        CutStreamedAt(maxDepth, kids, depth + 1, k);
        AlignedCut(maxDepth, kids[k], depth + 1);
      }
    }
  }

  lemma {:induction false} CutStreamedCount(maxDepth: nat, ts: seq<Tree>, depth: nat)
    ensures |CutStreamed(maxDepth, ts, depth)| == |ts|
  {
    if ts != [] {
      CutStreamedCount(maxDepth, ts[1..], depth);
    }
  }
}
