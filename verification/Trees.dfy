/** The finite tree of directories a walk unfolds, and its preorder. A scheduled
    directory is identified with the tree its read will unfold: the read callback
    is a function of the spec (src/lib.rs:592). */
module Trees {
  import opened IndexPaths

  datatype Option<T> = None | Some(value: T)

  /** One row of a read directory: an error, or an entry that may have a children path.
      `child` is the directory behind `read_children_path`. */
  datatype Row =
    | RowErr(error: nat)
    | RowOk(name: string, depth: nat, child: Option<Tree>)

  /** `Result<ReadDir>`: what reading one directory yields. */
  datatype ReadResult = ReadErr(error: nat) | ReadOk(rows: seq<Row>)

  /** A directory: what its read yields, and the children that were already
      scheduled while it was being enumerated (none when nothing was streamed). */
  datatype Tree = Dir(read: ReadResult, streamed: seq<Tree>)

  /** Which children a walker follows. The stack walker follows the rows; the parallel
      walker follows the streamed children if there are any, and the rows otherwise. */
  datatype Mode = Serial | Parallel

  /** `read_children_specs`: one directory for each row that has a children path, in row order. */
  function RowKids(rows: seq<Row>): (r: seq<Tree>)
    ensures forall k | 0 <= k < |r| :: (rows decreases to r[k])
  {
    if rows == [] then []
    else
      var rest := RowKids(rows[1..]);
      if rows[0].RowOk? && rows[0].child.Some? then [rows[0].child.value] + rest else rest
  }

  function ReadKids(t: Tree): (r: seq<Tree>)
    ensures forall k | 0 <= k < |r| :: (t decreases to r[k])
  {
    if t.read.ReadOk? then RowKids(t.read.rows) else []
  }

  function Kids(m: Mode, t: Tree): (r: seq<Tree>)
    ensures forall k | 0 <= k < |r| :: (t decreases to r[k])
  {
    if m == Parallel && t.streamed != [] then t.streamed else ReadKids(t)
  }

  datatype Node = Node(path: Path, tree: Tree)

  /** Preorder of the directory `t` at path `p`: itself, then its children at `p + [0]`, `p + [1]`, ... */
  function Pre(m: Mode, t: Tree, p: Path): (r: seq<Node>)
    ensures |r| > 0 && r[0] == Node(p, t)
    decreases t, |Kids(m, t)| + 1
  {
    [Node(p, t)] + PreKids(m, t, p, 0)
  }

  /** Preorder of the children of `t` from the `i`-th on. */
  function PreKids(m: Mode, t: Tree, p: Path, i: nat): seq<Node>
    requires i <= |Kids(m, t)|
    decreases t, |Kids(m, t)| - i
  {
    if i == |Kids(m, t)| then []
    else Pre(m, Kids(m, t)[i], p + [i]) + PreKids(m, t, p, i + 1)
  }

  /** The results a walker yields for a list of directories. */
  function Reads(nodes: seq<Node>): (r: seq<ReadResult>)
    ensures |r| == |nodes| && forall k | 0 <= k < |r| :: r[k] == nodes[k].tree.read
  {
    seq(|nodes|, k requires 0 <= k < |nodes| => nodes[k].tree.read)
  }

  // ---- Preorder is strictly increasing in lexicographic order ----

  ghost predicate Increasing(s: seq<Node>) {
    forall i, j | 0 <= i < j < |s| :: Before(s[i].path, s[j].path)
  }

  lemma {:induction false} IncreasingAppend(a: seq<Node>, b: seq<Node>)
    requires Increasing(a) && Increasing(b)
    requires forall x, y | x in a && y in b :: Before(x.path, y.path)
    ensures Increasing(a + b)
  {
    forall i, j | 0 <= i < j < |a + b| ensures Before((a + b)[i].path, (a + b)[j].path) {
      if i < |a| <= j {
        assert a[i] in a && b[j - |a|] in b;
      }
    }
  }

  ghost predicate Extends(p: Path, q: Path) {
    |p| <= |q| && q[..|p|] == p
  }

  /** Below the `i`-th child, or a later one, of the directory at `p`. */
  ghost predicate BelowFrom(p: Path, i: nat, q: Path) {
    |p| < |q| && q[..|p|] == p && i <= q[|p|]
  }

  lemma {:induction false} PreOrdered(m: Mode, t: Tree, p: Path)
    ensures Increasing(Pre(m, t, p))
    ensures forall x | x in Pre(m, t, p) :: Extends(p, x.path)
    decreases t, |Kids(m, t)| + 1
  {
    PreKidsOrdered(m, t, p, 0);
    var rest := PreKids(m, t, p, 0);
    forall x | x in rest ensures Before(p, x.path) {
      PrefixBefore(p, x.path[|p|..]);
      assert p + x.path[|p|..] == x.path;
    }
    IncreasingAppend([Node(p, t)], rest);
  }

  lemma {:induction false} PreKidsOrdered(m: Mode, t: Tree, p: Path, i: nat)
    requires i <= |Kids(m, t)|
    ensures Increasing(PreKids(m, t, p, i))
    ensures forall x | x in PreKids(m, t, p, i) :: BelowFrom(p, i, x.path)
    decreases t, |Kids(m, t)| - i
  {
    if i < |Kids(m, t)| {
      var first, rest := Pre(m, Kids(m, t)[i], p + [i]), PreKids(m, t, p, i + 1);
      PreOrdered(m, Kids(m, t)[i], p + [i]);
      PreKidsOrdered(m, t, p, i + 1);
      forall x | x in first ensures x.path[..|p|] == p && x.path[|p|] == i {
        assert x.path[..|p| + 1] == p + [i];
        assert x.path[..|p|] == x.path[..|p| + 1][..|p|];
      }
      forall x, y | x in first && y in rest ensures Before(x.path, y.path) {
        SiblingsBefore(p, i, x.path[|p| + 1..], y.path[|p|], y.path[|p| + 1..]);
        assert x.path == p + [i] + x.path[|p| + 1..];
        assert y.path == p + [y.path[|p|]] + y.path[|p| + 1..];
      }
      IncreasingAppend(first, rest);
    }
  }

  /** No two directories of a walk share an index path. */
  lemma {:induction false} PathsDistinct(s: seq<Node>, i: nat, j: nat)
    requires Increasing(s) && i < |s| && j < |s| && s[i].path == s[j].path
    ensures i == j
  {
    SliceCmpFlips(s[i].path, s[j].path);
  }

  // ---- When the two walkers visit the same directories ----

  /** Streaming scheduled exactly the children the rows ask for, here and below. */
  predicate Aligned(t: Tree)
    decreases t, |Kids(Parallel, t)| + 1
  {
    Kids(Parallel, t) == Kids(Serial, t) && KidsAligned(t, 0)
  }

  predicate KidsAligned(t: Tree, i: nat)
    requires i <= |Kids(Parallel, t)|
    decreases t, |Kids(Parallel, t)| - i
  {
    i == |Kids(Parallel, t)| || (Aligned(Kids(Parallel, t)[i]) && KidsAligned(t, i + 1))
  }

  predicate AllAligned(ts: seq<Tree>) {
    forall k | 0 <= k < |ts| :: Aligned(ts[k])
  }

  lemma {:induction false} KidsAlignedFrom(t: Tree, i: nat)
    requires i <= |Kids(Parallel, t)|
    ensures KidsAligned(t, i) <==> AllAligned(Kids(Parallel, t)[i..])
    decreases |Kids(Parallel, t)| - i
  {
    var kids := Kids(Parallel, t);
    if i < |kids| {
      KidsAlignedFrom(t, i + 1);
      AllAlignedFirst(kids[i..]);
      assert kids[i..][1..] == kids[i + 1..];
    }
  }

  lemma {:induction false} AllAlignedFirst(ts: seq<Tree>)
    requires ts != []
    ensures AllAligned(ts) <==> Aligned(ts[0]) && AllAligned(ts[1..])
  {
    forall k | 1 <= k < |ts| ensures ts[k] == ts[1..][k - 1] {
    }
  }

  lemma {:induction false} AlignedHereAndBelow(t: Tree)
    ensures Aligned(t) <==> Kids(Parallel, t) == Kids(Serial, t) && AllAligned(Kids(Parallel, t))
  {
    KidsAlignedFrom(t, 0);
    assert Kids(Parallel, t)[0..] == Kids(Parallel, t);
  }

  lemma {:induction false} AlignedSamePre(t: Tree, p: Path)
    requires Aligned(t)
    ensures Pre(Parallel, t, p) == Pre(Serial, t, p)
    decreases t, |Kids(Parallel, t)| + 1
  {
    AlignedSamePreKids(t, p, 0);
  }

  lemma {:induction false} AlignedSamePreKids(t: Tree, p: Path, i: nat)
    requires Kids(Parallel, t) == Kids(Serial, t)
    requires i <= |Kids(Parallel, t)| && KidsAligned(t, i)
    ensures PreKids(Parallel, t, p, i) == PreKids(Serial, t, p, i)
    decreases t, |Kids(Parallel, t)| - i
  {
    if i < |Kids(Parallel, t)| {
      AlignedSamePre(Kids(Parallel, t)[i], p + [i]);
      AlignedSamePreKids(t, p, i + 1);
    }
  }

  // The converse. Reading a preorder list from the left, the end of a subtree is
  // recognised by the first path that leaves it, so equal lists split equally.

  /** How many nodes, from the left, lie at or below `p`. */
  ghost function Leading(s: seq<Node>, p: Path): nat {
    if s == [] || !Extends(p, s[0].path) then 0 else 1 + Leading(s[1..], p)
  }

  lemma {:induction false} LeadingIs(a: seq<Node>, b: seq<Node>, p: Path)
    requires forall x | x in a :: Extends(p, x.path)
    requires forall x | x in b :: !Extends(p, x.path)
    ensures Leading(a + b, p) == |a|
  {
    if a == [] {
      assert a + b == b;
    } else {
      assert (a + b)[0] == a[0] && a[0] in a;
      assert (a + b)[1..] == a[1..] + b;
      LeadingIs(a[1..], b, p);
    }
  }

  lemma {:induction false} SplitUnique(a: seq<Node>, b: seq<Node>, c: seq<Node>, d: seq<Node>, p: Path)
    requires a + b == c + d
    requires forall x | x in a :: Extends(p, x.path)
    requires forall x | x in c :: Extends(p, x.path)
    requires forall x | x in b :: !Extends(p, x.path)
    requires forall x | x in d :: !Extends(p, x.path)
    ensures a == c && b == d
  {
    LeadingIs(a, b, p);
    LeadingIs(c, d, p);
    assert a == (a + b)[..|a|] && c == (c + d)[..|c|];
    assert b == (a + b)[|a|..] && d == (c + d)[|c|..];
  }

  lemma {:induction false} KidSplits(m: Mode, t: Tree, p: Path, i: nat)
    requires i < |Kids(m, t)|
    ensures forall x | x in Pre(m, Kids(m, t)[i], p + [i]) :: Extends(p + [i], x.path)
    ensures forall x | x in PreKids(m, t, p, i + 1) :: !Extends(p + [i], x.path)
  {
    PreOrdered(m, Kids(m, t)[i], p + [i]);
    PreKidsOrdered(m, t, p, i + 1);
    forall x | x in PreKids(m, t, p, i + 1) ensures !Extends(p + [i], x.path) {
      assert x.path[..|p| + 1][|p|] == x.path[|p|] && (p + [i])[|p|] == i;
    }
  }

  lemma {:induction false} SamePreKids(t: Tree, p: Path, i: nat)
    requires i <= |Kids(Parallel, t)| && i <= |Kids(Serial, t)|
    requires PreKids(Parallel, t, p, i) == PreKids(Serial, t, p, i)
    ensures Kids(Parallel, t)[i..] == Kids(Serial, t)[i..]
    ensures KidsAligned(t, i)
    decreases t, |Kids(Parallel, t)| - i
  {
    var kp, ks := Kids(Parallel, t), Kids(Serial, t);
    if i < |kp| && i < |ks| {
      var a, c := Pre(Parallel, kp[i], p + [i]), Pre(Serial, ks[i], p + [i]);
      var b, d := PreKids(Parallel, t, p, i + 1), PreKids(Serial, t, p, i + 1);
      KidSplits(Parallel, t, p, i);
      KidSplits(Serial, t, p, i);
      SplitUnique(a, b, c, d, p + [i]);
      assert a[0].tree == c[0].tree;
      SamePre(kp[i], p + [i]);
      SamePreKids(t, p, i + 1);
      assert kp[i..] == [kp[i]] + kp[i + 1..];
      assert ks[i..] == [ks[i]] + ks[i + 1..];
    }
  }

  lemma {:induction false} SamePre(t: Tree, p: Path)
    requires Pre(Parallel, t, p) == Pre(Serial, t, p)
    ensures Aligned(t)
    decreases t, |Kids(Parallel, t)| + 1
  {
    assert PreKids(Parallel, t, p, 0) == Pre(Parallel, t, p)[1..];
    assert PreKids(Serial, t, p, 0) == Pre(Serial, t, p)[1..];
    SamePreKids(t, p, 0);
    assert Kids(Parallel, t)[0..] == Kids(Parallel, t) && Kids(Serial, t)[0..] == Kids(Serial, t);
  }

  /** The parallel walk visits the directories of the serial walk, at the same index
      paths and in the same order, exactly when streaming was aligned everywhere. */
  lemma {:induction false} SameWalkIffAligned(t: Tree, p: Path)
    ensures Pre(Parallel, t, p) == Pre(Serial, t, p) <==> Aligned(t)
  {
    if Pre(Parallel, t, p) == Pre(Serial, t, p) {
      SamePre(t, p);
    }
    if Aligned(t) {
      AlignedSamePre(t, p);
    }
  }
}
