/** The customer-results gallery: screenshots packed into two columns (greedily by height
    once the first images have been measured, alternately before), a viewport-dependent
    collapsed height, a one-way "Load More" expansion, and the set of images known to have
    loaded. */
module Screenshots {

  /** The number of screenshots in the gallery. */
  const ImageCount: nat := 21

  /** Height used for an image whose height is missing or zero (`imageHeights[i] || 300`). */
  const DefaultHeight: nat := 300

  /** The two columns, as lists of image indices in display order. */
  datatype Layout = Layout(column1: seq<nat>, column2: seq<nat>)

  /** A layout under construction with the running column heights. */
  datatype Packing = Packing(layout: Layout, height1: nat, height2: nat)

  /** The height the packing uses for image `i`. */
  function HeightAt(heights: seq<nat>, i: nat): (h: nat)
    ensures h > 0
    ensures i < |heights| && heights[i] != 0 ==> h == heights[i]
    ensures (i >= |heights| || heights[i] == 0) ==> h == DefaultHeight
  {
    if i < |heights| && heights[i] != 0 then heights[i] else DefaultHeight
  }

  /** Places image `i` of height `h`: into column 1 when it is not the taller one (ties go
      to column 1), otherwise into column 2, adding `h` to that column. */
  function Place(p: Packing, i: nat, h: nat): Packing
  {
    if p.height1 <= p.height2 then Packing(Layout(p.layout.column1 + [i], p.layout.column2), p.height1 + h, p.height2)
    else Packing(Layout(p.layout.column1, p.layout.column2 + [i]), p.height1, p.height2 + h)
  }

  /** The greedy packing of images `0..k-1`. */
  function Greedy(heights: seq<nat>, k: nat): Packing
  {
    if k == 0 then Packing(Layout([], []), 0, 0)
    else Place(Greedy(heights, k - 1), k - 1, HeightAt(heights, k - 1))
  }

  /** The packing used before any height is known: even indices left, odd right. */
  function EvenOdd(k: nat): Layout
  {
    if k == 0 then Layout([], [])
    else
      Push(EvenOdd(k - 1), k - 1, (k - 1) % 2 == 0)
  }

  /** Appends index `i` to column 1 when `left`, otherwise to column 2. */
  function Push(l: Layout, i: nat, left: bool): Layout
  {
    if left then Layout(l.column1 + [i], l.column2) else Layout(l.column1, l.column2 + [i])
  }

  /** The columns the gallery shows for `n` images and the measured heights. */
  function Columns(n: nat, heights: seq<nat>): Layout
  {
    if |heights| == 0 then EvenOdd(n) else Greedy(heights, n).layout
  }

  /** The `useMemo` that distributes the images: one pass over the images, pushing each
      index onto a column and, once heights are known, keeping the running heights. */
  method DistributeColumns(n: nat, heights: seq<nat>) returns (column1: seq<nat>, column2: seq<nat>)
    ensures Layout(column1, column2) == Columns(n, heights)
  {
    column1, column2 := [], [];
    var height1: nat, height2: nat := 0, 0;
    var index := 0;
    if |heights| == 0 {
      while index < n
        invariant index <= n
        invariant Layout(column1, column2) == EvenOdd(index)
      {
        if index % 2 == 0 {
          column1 := column1 + [index];
        } else {
          column2 := column2 + [index];
        }
        index := index + 1;
      }
    } else {
      while index < n
        invariant index <= n
        invariant Packing(Layout(column1, column2), height1, height2) == Greedy(heights, index)
      {
        var height := if index < |heights| && heights[index] != 0 then heights[index] else DefaultHeight;
        if height1 <= height2 {
          column1 := column1 + [index];
          height1 := height1 + height;
        } else {
          column2 := column2 + [index];
          height2 := height2 + height;
        }
        index := index + 1;
      }
    }
  }

  // ---------------------------------------------------------------------------
  // Partition
  // ---------------------------------------------------------------------------

  predicate Increasing(s: seq<nat>)
  {
    forall a, b | 0 <= a < b < |s| :: s[a] < s[b]
  }

  /** The two columns split `0..k-1`: every index sits in exactly one column, exactly once
      (each column is strictly increasing), and nothing else appears. */
  predicate Partition(l: Layout, k: nat)
  {
    && Increasing(l.column1) && Increasing(l.column2)
    && |l.column1| + |l.column2| == k
    && (forall x | x in l.column1 :: x < k)
    && (forall x | x in l.column2 :: x < k)
    && (forall i | 0 <= i < k :: (i in l.column1) != (i in l.column2))
  }

  lemma AppendIncreasing(c: seq<nat>, k: nat)
    requires Increasing(c) && forall x | x in c :: x < k
    ensures Increasing(c + [k])
    ensures forall x | x in c + [k] :: x < k + 1
    ensures forall i | 0 <= i < k :: (i in c + [k]) == (i in c)
    ensures k in c + [k] && k !in c
  {
    var c' := c + [k];
    forall a, b | 0 <= a < b < |c'| ensures c'[a] < c'[b] {
      assert c'[a] == c[a] && c[a] in c;
      if b < |c| {
        assert c'[b] == c[b];
      }
    }
    forall x | x in c' ensures x < k + 1 {
      assert x in c || x == k;
    }
    forall i | 0 <= i < k ensures (i in c') == (i in c) {
      assert i in c' ==> i in c || i == k;
    }
    assert c'[|c|] == k;
  }

  lemma AppendIndex(l: Layout, k: nat, left: bool)
    requires Partition(l, k)
    ensures Partition(Push(l, k, left), k + 1)
  {
    if left {
      AppendIncreasing(l.column1, k);
    } else {
      AppendIncreasing(l.column2, k);
    }
  }

  lemma {:induction false} GreedyPartition(heights: seq<nat>, k: nat)
    ensures Partition(Greedy(heights, k).layout, k)
  {
    if k > 0 {
      GreedyPartition(heights, k - 1);
      GreedyStepPartition(heights, k);
    }
  }

  lemma GreedyStepPartition(heights: seq<nat>, k: nat)
    requires k > 0 && Partition(Greedy(heights, k - 1).layout, k - 1)
    ensures Partition(Greedy(heights, k).layout, k)
  {
    var p := Greedy(heights, k - 1);
    PlacePartition(p, k - 1, HeightAt(heights, k - 1));
  }

  lemma PlacePartition(p: Packing, i: nat, h: nat)
    requires Partition(p.layout, i)
    ensures Partition(Place(p, i, h).layout, i + 1)
  {
    AppendIndex(p.layout, i, p.height1 <= p.height2);
  }

  lemma EvenOddPartition(k: nat)
    ensures Partition(EvenOdd(k), k)
    ensures forall i | 0 <= i < k :: i in EvenOdd(k).column1 <==> i % 2 == 0
  {
    EvenOddIsPartition(k);
    EvenOddParity(k);
  }

  lemma {:induction false} EvenOddIsPartition(k: nat)
    ensures Partition(EvenOdd(k), k)
  {
    if k > 0 {
      EvenOddIsPartition(k - 1);
      AppendIndex(EvenOdd(k - 1), k - 1, (k - 1) % 2 == 0);
    }
  }

  lemma {:induction false} EvenOddParity(k: nat)
    ensures forall i | 0 <= i < k :: i in EvenOdd(k).column1 <==> i % 2 == 0
  {
    if k > 0 {
      EvenOddParity(k - 1);
      EvenOddIsPartition(k - 1);
      var before := EvenOdd(k - 1).column1;
      var after := EvenOdd(k).column1;
      assert k - 1 !in before;
      if (k - 1) % 2 == 0 {
        assert after == before + [k - 1];
        forall i | 0 <= i < k ensures i in after <==> i % 2 == 0 {
          assert i in after <==> i in before || i == k - 1;
        }
      } else {
        assert after == before;
      }
    }
  }

  /** Whatever heights are known, the gallery shows every image exactly once. */
  lemma ColumnsPartition(n: nat, heights: seq<nat>)
    ensures Partition(Columns(n, heights), n)
  {
    if |heights| == 0 {
      EvenOddPartition(n);
    } else {
      GreedyPartition(heights, n);
    }
  }

  /** With no measured heights, image `i` goes to column 1 exactly when `i` is even. */
  lemma EvenOddFallback(n: nat, i: nat)
    requires i < n
    ensures i in Columns(n, []).column1 <==> i % 2 == 0
    ensures i in Columns(n, []).column2 <==> i % 2 == 1
  {
    EvenOddPartition(n);
  }

  // ---------------------------------------------------------------------------
  // The greedy rule
  // ---------------------------------------------------------------------------

  /** Total height of the images in a column. */
  function ColumnHeight(heights: seq<nat>, column: seq<nat>): nat
  {
    if column == [] then 0
    else ColumnHeight(heights, column[..|column| - 1]) + HeightAt(heights, column[|column| - 1])
  }

  /** The running heights are the heights of the images placed in each column. */
  lemma GreedyHeights(heights: seq<nat>, k: nat)
    ensures Greedy(heights, k).height1 == ColumnHeight(heights, Greedy(heights, k).layout.column1)
    ensures Greedy(heights, k).height2 == ColumnHeight(heights, Greedy(heights, k).layout.column2)
  {
    GreedyConsistent(heights, k);
  }

  predicate Consistent(heights: seq<nat>, p: Packing)
  {
    && p.height1 == ColumnHeight(heights, p.layout.column1)
    && p.height2 == ColumnHeight(heights, p.layout.column2)
  }

  lemma {:induction false} GreedyConsistent(heights: seq<nat>, k: nat)
    ensures Consistent(heights, Greedy(heights, k))
  {
    if k > 0 {
      GreedyConsistent(heights, k - 1);
      PlaceKeepsHeights(heights, Greedy(heights, k - 1), k - 1);
    }
  }

  /** Placing one image adds its height to the column it goes to. */
  lemma PlaceKeepsHeights(heights: seq<nat>, p: Packing, i: nat)
    requires Consistent(heights, p)
    ensures Consistent(heights, Place(p, i, HeightAt(heights, i)))
  {
    if p.height1 <= p.height2 {
      ColumnHeightAppend(heights, p.layout.column1, i);
    } else {
      ColumnHeightAppend(heights, p.layout.column2, i);
    }
  }

  lemma ColumnHeightAppend(heights: seq<nat>, column: seq<nat>, i: nat)
    ensures ColumnHeight(heights, column + [i]) == ColumnHeight(heights, column) + HeightAt(heights, i)
  {
    assert (column + [i])[..|column|] == column;
  }

  /** Later images never disturb earlier placements. */
  lemma {:induction false} GreedyPrefix(heights: seq<nat>, k: nat, n: nat)
    requires k <= n
    ensures var a := Greedy(heights, k).layout; var b := Greedy(heights, n).layout;
      && |a.column1| <= |b.column1| && b.column1[..|a.column1|] == a.column1
      && |a.column2| <= |b.column2| && b.column2[..|a.column2|] == a.column2
    decreases n - k
  {
    if k < n {
      GreedyPrefix(heights, k, n - 1);
      var a := Greedy(heights, k).layout;
      var m := Greedy(heights, n - 1).layout;
      var b := Greedy(heights, n).layout;
      assert b.column1[..|m.column1|] == m.column1;
      assert b.column2[..|m.column2|] == m.column2;
      assert b.column1[..|a.column1|] == m.column1[..|a.column1|];
      assert b.column2[..|a.column2|] == m.column2[..|a.column2|];
    }
  }

  /** Once heights are known, image `i` ends up in column 1 exactly when, at its turn,
      column 1 was not the taller one. */
  lemma GreedyChoice(heights: seq<nat>, n: nat, i: nat)
    requires |heights| > 0 && i < n
    ensures var p := Greedy(heights, i);
      i in Columns(n, heights).column1 <==> p.height1 <= p.height2
  {
    var p := Greedy(heights, i);
    var q := Greedy(heights, i + 1);
    var b := Greedy(heights, n).layout;
    GreedyPrefix(heights, i + 1, n);
    GreedyPartition(heights, n);
    if p.height1 <= p.height2 {
      assert q.layout.column1[|q.layout.column1| - 1] == i;
      assert b.column1[|q.layout.column1| - 1] == i;
    } else {
      assert q.layout.column2[|q.layout.column2| - 1] == i;
      assert b.column2[|q.layout.column2| - 1] == i;
    }
  }

  /** The tallest image among the first `k`. */
  function TallestPlaced(heights: seq<nat>, k: nat): nat
  {
    if k == 0 then 0
    else if HeightAt(heights, k - 1) >= TallestPlaced(heights, k - 1) then HeightAt(heights, k - 1)
    else TallestPlaced(heights, k - 1)
  }

  /** After each step the two columns differ by at most the tallest image placed so far. */
  lemma {:induction false} GreedyBalance(heights: seq<nat>, k: nat)
    ensures var p := Greedy(heights, k);
      p.height1 - p.height2 <= TallestPlaced(heights, k) && p.height2 - p.height1 <= TallestPlaced(heights, k)
  {
    if k > 0 {
      GreedyBalance(heights, k - 1);
    }
  }

  // ---------------------------------------------------------------------------
  // Collapsed height and loading
  // ---------------------------------------------------------------------------

  /** The collapsed gallery's maximum height, in `vh`, before the first measurement. */
  const InitialMaxHeight: nat := 50

  /** `calculateMaxHeight`: the collapsed height, in `vh`, for a viewport width. */
  function MaxHeightFor(width: int): (vh: nat)
    ensures vh == 100 <==> width >= 1024
    ensures vh == 80 <==> 768 <= width < 1024
    ensures vh == 60 <==> width < 768
  {
    if width >= 1024 then 100 else if width >= 768 then 80 else 60
  }

  /** A wider viewport never gets a lower collapsed gallery. */
  lemma MaxHeightMonotone(w1: int, w2: int)
    requires w1 <= w2
    ensures MaxHeightFor(w1) <= MaxHeightFor(w2)
  {
  }

  /** `Math.min(6, images.length)`: how many images are preloaded and measured. */
  function PreloadCount(n: nat): (k: nat)
    ensures k <= 6 && k <= n && (k == 6 || k == n)
  {
    if n < 6 then n else 6
  }

  /** The indices below `k`. */
  function Below(k: nat): (r: set<nat>)
    ensures forall i: nat :: i in r <==> i < k
  {
    if k == 0 then {} else Below(k - 1) + {k - 1}
  }

  function PreloadedIndices(n: nat): set<nat>
  {
    Below(PreloadCount(n))
  }

  /** The loaded set as the preload completion writes it: replaced by the preloaded
      indices, whatever it held. */
  function PreloadMarkAsWritten(loaded: set<nat>, n: nat): set<nat>
  {
    PreloadedIndices(n)
  }

  /** An image whose own load event arrived before the preload finished is dropped. */
  lemma PreloadMarkDropsLoaded()
    ensures 6 in {6} && 6 !in PreloadMarkAsWritten({6}, ImageCount)
  {
  }

  /** The loaded set after the preload completes, as intended: the preloaded indices are
      added and nothing is lost. */
  function PreloadMark(loaded: set<nat>, n: nat): (r: set<nat>)
    ensures loaded <= r && PreloadedIndices(n) <= r
    ensures forall i | i in r :: i in loaded || i < PreloadCount(n)
  {
    loaded + PreloadedIndices(n)
  }

  /** The gallery component's state. */
  class Gallery {
    const imageCount: nat
    var isExpanded: bool
    var maxHeight: nat
    var imageHeights: seq<nat>
    var loadedImages: set<nat>

    /** Heights are either unknown or known for exactly the preloaded images. */
    ghost predicate Valid()
      reads this
    {
      |imageHeights| == 0 || |imageHeights| == PreloadCount(imageCount)
    }

    constructor (n: nat)
      ensures Valid() && imageCount == n
      ensures !isExpanded && maxHeight == InitialMaxHeight
      ensures imageHeights == [] && loadedImages == {}
    {
      imageCount := n;
      isExpanded := false;
      maxHeight := InitialMaxHeight;
      imageHeights := [];
      loadedImages := {};
    }

    /** The gradient mask and the Load More control show only while collapsed. */
    predicate MaskShown()
      reads this
    {
      !isExpanded
    }

    /** The Load More click: the gallery expands for good. */
    method LoadMore()
      requires Valid()
      modifies this`isExpanded
      ensures Valid() && isExpanded && !MaskShown()
    {
      isExpanded := true;
    }

    /** A resize (and the first measurement on mount). */
    method Resize(width: int)
      requires Valid()
      modifies this`maxHeight
      ensures Valid() && maxHeight == MaxHeightFor(width)
    {
      maxHeight := MaxHeightFor(width);
    }

    /** An image element's load event. */
    method ImageLoaded(index: nat)
      requires Valid()
      modifies this`loadedImages
      ensures Valid() && loadedImages == old(loadedImages) + {index}
    {
      if index !in loadedImages {
        loadedImages := loadedImages + {index};
      }
    }

    /** The last preloaded image reports its size: the measured heights take effect, the
        columns switch to greedy packing, and the loaded set is replaced by the preloaded
        indices, dropping any other image already marked loaded. */
    method PreloadComplete(heights: seq<nat>)
      requires Valid() && |heights| == PreloadCount(imageCount)
      modifies this`imageHeights, this`loadedImages
      ensures Valid()
      ensures imageHeights == heights
      ensures loadedImages == PreloadMarkAsWritten(old(loadedImages), imageCount)
      ensures forall i: nat :: i in loadedImages <==> i < PreloadCount(imageCount)
    {
      imageHeights := heights;
      loadedImages := PreloadMarkAsWritten(loadedImages, imageCount);
    }

    /** The same completion with the loaded set grown by the preloaded indices, so no image
        already marked loaded is lost. */
    method PreloadCompleteCorrected(heights: seq<nat>)
      requires Valid() && |heights| == PreloadCount(imageCount)
      modifies this`imageHeights, this`loadedImages
      ensures Valid()
      ensures imageHeights == heights
      ensures loadedImages == PreloadMark(old(loadedImages), imageCount)
      ensures old(loadedImages) <= loadedImages
    {
      imageHeights := heights;
      loadedImages := PreloadMark(loadedImages, imageCount);
    }
  }
}
