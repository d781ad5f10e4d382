/** What the two binary heaps hold, and which element a heap gives up first
    (src/core/weighted.rs, src/core/ordered.rs). */
module Heaps {
  import opened IndexPaths
  import opened Trees

  /** `Weighted<ReadDirSpec>`: a scheduled directory. */
  datatype Spec = Spec(tree: Tree, path: Path, weight: nat)

  /** `Ordered<Result<ReadDir>>`: a directory that was read, and how many children were reported. */
  datatype Ordered = Ordered(tree: Tree, path: Path, childCount: nat)

  /** `Ord for Weighted`, literally: the other weight is compared to this one. */
  function WeightedCmp(a: Spec, b: Spec): Ordering {
    match CmpNat(b.weight, a.weight)
    case Equal => PathCmp(a.path, b.path)
    case Less => Less
    case Greater => Greater
  }

  /** `Ord for Ordered`. */
  function OrderedCmp(a: Ordered, b: Ordered): Ordering {
    PathCmp(a.path, b.path)
  }

  /** A max-heap's top: no element compares greater. */
  ghost predicate SpecTop(heap: seq<Spec>, i: nat) {
    i < |heap| && forall k | 0 <= k < |heap| :: WeightedCmp(heap[k], heap[i]) != Greater
  }

  ghost predicate ResultTop(heap: seq<Ordered>, i: nat) {
    i < |heap| && forall k | 0 <= k < |heap| :: OrderedCmp(heap[k], heap[i]) != Greater
  }

  /** The weight order runs against the comment that heavier items pop first: the element a
      scheduler heap gives up is a lightest one, and among those the lexicographically least. */
  lemma {:induction false} SpecTopIsLightest(heap: seq<Spec>, i: nat)
    requires i < |heap|
    ensures SpecTop(heap, i) <==>
            forall k | 0 <= k < |heap| ::
              || heap[i].weight < heap[k].weight
              || (heap[i].weight == heap[k].weight
                  && (heap[i].path == heap[k].path || Before(heap[i].path, heap[k].path)))
  {
    forall k | 0 <= k < |heap| ensures
      WeightedCmp(heap[k], heap[i]) != Greater <==>
        || heap[i].weight < heap[k].weight
        || (heap[i].weight == heap[k].weight && (heap[i].path == heap[k].path || Before(heap[i].path, heap[k].path)))
    {
      SliceCmpFlips(heap[i].path, heap[k].path);
    }
  }

  /** The reorder heap gives up a lexicographically least path. */
  lemma {:induction false} ResultTopIsLeast(heap: seq<Ordered>, i: nat)
    requires i < |heap|
    ensures ResultTop(heap, i) <==>
            forall k | 0 <= k < |heap| :: heap[i].path == heap[k].path || Before(heap[i].path, heap[k].path)
  {
    forall k | 0 <= k < |heap| ensures
      OrderedCmp(heap[k], heap[i]) != Greater <==> heap[i].path == heap[k].path || Before(heap[i].path, heap[k].path)
    {
      SliceCmpFlips(heap[i].path, heap[k].path);
    }
  }

  lemma {:induction false} WeightedCmpTransitive(a: Spec, b: Spec, c: Spec)
    requires WeightedCmp(a, b) != Greater && WeightedCmp(b, c) != Greater
    ensures WeightedCmp(a, c) != Greater
  {
    SliceCmpFlips(b.path, a.path);
    SliceCmpFlips(c.path, b.path);
    SliceCmpFlips(c.path, a.path);
    if Before(c.path, b.path) && Before(b.path, a.path) {
      BeforeTransitive(c.path, b.path, a.path);
    }
  }

  /** A scheduler heap that is not empty always has a top to pop. */
  lemma {:induction false} SpecTopExists(heap: seq<Spec>) returns (i: nat)
    requires heap != []
    ensures SpecTop(heap, i)
  {
    var last := heap[|heap| - 1];
    SliceCmpFlips(last.path, last.path);
    if |heap| == 1 {
      i := 0;
    } else {
      var init := heap[..|heap| - 1];
      i := SpecTopExists(init);
      forall k | 0 <= k < |init| ensures WeightedCmp(heap[k], heap[i]) != Greater {
        assert heap[k] == init[k];
      }
      if WeightedCmp(last, heap[i]) == Greater {
        SliceCmpFlips(last.path, heap[i].path);
        forall k | 0 <= k < |heap| ensures WeightedCmp(heap[k], last) != Greater {
          if k < |init| {
            WeightedCmpTransitive(heap[k], heap[i], last);
          }
        }
        i := |heap| - 1;
      }
    }
  }

  /** So does a reorder heap. */
  lemma {:induction false} ResultTopExists(heap: seq<Ordered>) returns (i: nat)
    requires heap != []
    ensures ResultTop(heap, i)
  {
    var specs := seq(|heap|, k requires 0 <= k < |heap| => Spec(heap[k].tree, heap[k].path, 0));
    i := SpecTopExists(specs);
    forall k | 0 <= k < |heap| ensures OrderedCmp(heap[k], heap[i]) != Greater {
      assert WeightedCmp(specs[k], specs[i]) != Greater;
    }
  }
}
