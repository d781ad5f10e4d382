/** Index paths: where a directory sits in the walk, and the order the reorder
    heap sorts by (src/core/index_path.rs). */
module IndexPaths {

  type Path = seq<nat>

  /** Rust's `std::cmp::Ordering`. */
  datatype Ordering = Less | Equal | Greater

  function CmpNat(a: nat, b: nat): Ordering {
    if a < b then Less else if a == b then Equal else Greater
  }

  /** Lexicographic comparison of slices, the order the standard library derives for `[usize]`. */
  function SliceCmp(a: Path, b: Path): Ordering {
    if a == [] then (if b == [] then Equal else Less)
    else if b == [] then Greater
    else match CmpNat(a[0], b[0])
         case Equal => SliceCmp(a[1..], b[1..])
         case Less => Less
         case Greater => Greater
  }

  /** `Ord for IndexPath`: the slices are compared the other way round, so that the
      lexicographically least path is the greatest element and tops a max-heap. */
  function PathCmp(a: Path, b: Path): Ordering {
    SliceCmp(b, a)
  }

  /** `a` comes strictly before `b` in lexicographic order. */
  predicate Before(a: Path, b: Path) {
    SliceCmp(a, b) == Less
  }

  lemma {:induction false} SliceCmpFlips(a: Path, b: Path)
    ensures SliceCmp(a, b) == Equal <==> a == b
    ensures SliceCmp(a, b) == Greater <==> SliceCmp(b, a) == Less
  {
    if a != [] && b != [] {
      SliceCmpFlips(a[1..], b[1..]);
      assert a == [a[0]] + a[1..];
      assert b == [b[0]] + b[1..];
    }
  }

  lemma {:induction false} BeforeTransitive(a: Path, b: Path, c: Path)
    requires Before(a, b) && Before(b, c)
    ensures Before(a, c)
  {
    if a != [] && a[0] == b[0] == c[0] {
      BeforeTransitive(a[1..], b[1..], c[1..]);
    }
  }

  /** A proper prefix comes first: a directory precedes everything below it. */
  lemma {:induction false} PrefixBefore(p: Path, q: Path)
    requires q != []
    ensures Before(p, p + q)
  {
    if p == [] {
      assert p + q == q;
    } else {
      PrefixBefore(p[1..], q);
      assert (p + q)[1..] == p[1..] + q;
    }
  }

  /** Two siblings' subtrees are ordered like the siblings themselves. */
  lemma {:induction false} SiblingsBefore(p: Path, i: nat, x: Path, j: nat, y: Path)
    requires i < j
    ensures Before(p + [i] + x, p + [j] + y)
  {
    var a, b := p + [i] + x, p + [j] + y;
    if p != [] {
      SiblingsBefore(p[1..], i, x, j, y);
      assert a[1..] == p[1..] + [i] + x;
      assert b[1..] == p[1..] + [j] + y;
    }
  }

  /** The path as a growable vector: the three in-place updates the matcher uses,
      and the copying `adding` the schedulers use. */
  class IndexPath {
    var indices: Path

    constructor (indices: Path)
      ensures this.indices == indices
    {
      this.indices := indices;
    }

    method Push(index: nat)
      modifies this
      ensures indices == old(indices) + [index]
    {
      indices := indices + [index];
    }

    /** Without a last element nothing happens (the debug assertion is not part of a release build). */
    method IncrementLast()
      modifies this
      ensures indices == Incremented(old(indices))
    {
      if |indices| > 0 {
        indices := indices[|indices| - 1 := indices[|indices| - 1] + 1];
      }
    }

    method Pop()
      modifies this
      ensures indices == Popped(old(indices))
    {
      if |indices| > 0 {
        indices := indices[..|indices| - 1];
      }
    }

    method Adding(index: nat) returns (child: IndexPath)
      ensures fresh(child) && child.indices == indices + [index]
    {
      child := new IndexPath(indices);
      child.Push(index);
    }
  }

  function Incremented(p: Path): Path {
    if p == [] then [] else p[..|p| - 1] + [p[|p| - 1] + 1]
  }

  function Popped<T>(s: seq<T>): seq<T> {
    if s == [] then [] else s[..|s| - 1]
  }
}
