// The DynamicInstancingHelper variant of the instancing renderer. Its
// Children keep the visible matrices in slices of batchCount matrices each
// (sortedTransforms) instead of one array, draw every slice with its own
// call, and the renderer runs its own culling job, whose results CullSync
// copies into the children's visibility. The registry bookkeeping (Join,
// Quit, UpdateTransform) is the one of DynamicInstancingRenderer.
module DynamicInstancingHelper {
  import DR = DynamicInstancingRenderer

  type Matrix = DR.Matrix
  type Child = DR.Child

  /** new Matrix4x4(): sixteen zeros. */
  function ZeroMatrix(): (m: Matrix)
    ensures |m| == 16 && forall i :: 0 <= i < 16 ==> m[i] == 0.0
  {
    seq(16, _ => 0.0)
  }

  /** new Matrix4x4[w]. */
  function EmptySlice(w: nat): (s: seq<Matrix>)
    ensures |s| == w && forall i :: 0 <= i < w ==> s[i] == ZeroMatrix()
  {
    seq(w, _ => ZeroMatrix())
  }

  /** Every slice holds w matrices. */
  ghost predicate Uniform(slices: seq<seq<Matrix>>, w: int)
  {
    forall i :: 0 <= i < |slices| ==> |slices[i]| == w
  }

  // ---------------------------------------------------------------------
  // Slices read row-major

  /** Slices of w matrices each hold w matrices per slice when read one after another. */
  lemma {:induction false} FlattenUniform(slices: seq<seq<Matrix>>, w: int)
    requires Uniform(slices, w)
    ensures |DR.Flatten(slices)| == |slices| * w
    decreases |slices|
  {
    if slices != [] {
      FlattenUniform(slices[1..], w);
      assert |DR.Flatten(slices)| == w + (|slices| - 1) * w;
    }
  }

  /** Reading two runs of slices one after another reads their concatenation. */
  lemma {:induction false} FlattenAppend(a: seq<seq<Matrix>>, b: seq<seq<Matrix>>)
    ensures DR.Flatten(a + b) == DR.Flatten(a) + DR.Flatten(b)
    decreases |a|
  {
    if a == [] {
      assert a + b == b;
    } else {
      FlattenAppend(a[1..], b);
      assert (a + b)[1..] == a[1..] + b;
    }
  }

  /** One more slice adds its matrices at the end. */
  lemma FlattenSnoc(a: seq<seq<Matrix>>, s: seq<Matrix>)
    ensures DR.Flatten(a + [s]) == DR.Flatten(a) + s
  {
    FlattenAppend(a, [s]);
    assert DR.Flatten([s]) == s + DR.Flatten([]);
  }

  /** The slice count UpdateSortedTransform and Add allocate: one more than the whole slices transforms fill. */
  function SliceCount(length: int, w: int): (n: int)
    requires length >= 0 && w > 0
    ensures n > 0 && n * w > length
  {
    var q := length / w;
    assert length == q * w + length % w;
    q + 1
  }

  /** Resize to n slices: the first slices are kept, new ones are empty slices of w matrices. */
  function Resized(slices: seq<seq<Matrix>>, n: nat, w: nat): (r: seq<seq<Matrix>>)
  {
    seq(n, i requires 0 <= i < n => if i < |slices| then slices[i] else EmptySlice(w))
  }

  /** Array.Resize of sortedTransforms followed by the loop that fills the new slots with empty slices. */
  method ResizeSlices(slices: seq<seq<Matrix>>, n: nat, w: nat) returns (r: seq<seq<Matrix>>)
    ensures r == Resized(slices, n, w)
    ensures Uniform(slices, w) ==> Uniform(r, w)
  {
    r := if n <= |slices| then slices[..n] else slices;
    var i := |slices|;
    while i < n
      invariant |slices| <= i <= n || (n <= |slices| && i == |slices|)
      invariant |r| == (if n <= |slices| then n else i)
      invariant forall j :: 0 <= j < |r| ==> r[j] == (if j < |slices| then slices[j] else EmptySlice(w))
    {
      r := r + [EmptySlice(w)];
      i := i + 1;
    }
  }

  // ---------------------------------------------------------------------
  // Compacting into slices

  /**
   * Which children Draw keeps: the visible ones, each also passing the
   * visibleProbability test unless the probability is at least 1 (all);
   * sampled[i] stands for that test, which hashes the matrix through
   * Mathf.Sin.
   */
  function Kept(vis: seq<bool>, all: bool, sampled: seq<bool>): (r: seq<bool>)
    requires |vis| == |sampled|
    ensures |r| == |vis| && forall i :: 0 <= i < |vis| ==> (r[i] <==> vis[i] && (all || sampled[i]))
  {
    seq(|vis|, i requires 0 <= i < |vis| => vis[i] && (all || sampled[i]))
  }

  /** With visibleProbability at least 1 exactly the visible children are kept. */
  lemma KeptAll(vis: seq<bool>, sampled: seq<bool>)
    requires |vis| == |sampled|
    ensures Kept(vis, true, sampled) == vis
  {
  }

  /** Where the next matrix goes: n == si * w + so, with si < |out| unless everything is full. */
  ghost predicate Cursor(out: seq<seq<Matrix>>, w: int, si: int, so: int, done: seq<Matrix>)
  {
    && Uniform(out, w) && 0 <= so < w && 0 <= si <= |out|
    && (si == |out| ==> so == 0)
    && |DR.Flatten(out[..si])| == si * w
    && (si < |out| ==> DR.Flatten(out[..si]) + out[si][..so] == done)
    && (si == |out| ==> DR.Flatten(out) == done)
  }

  /** Writing the next matrix at the cursor and moving it on. */
  lemma CursorStep(out: seq<seq<Matrix>>, w: int, si: int, so: int, done: seq<Matrix>, t: Matrix)
    requires Uniform(out, w) && Cursor(out, w, si, so, done) && si < |out|
    ensures var out' := out[si := out[si][so := t]];
      && Uniform(out', w)
      && (so + 1 < w ==> Cursor(out', w, si, so + 1, done + [t]))
      && (so + 1 == w ==> Cursor(out', w, si + 1, 0, done + [t]))
  {
    var out' := out[si := out[si][so := t]];
    assert out'[..si] == out[..si];
    assert out'[si][..so + 1] == out[si][..so] + [t];
    if so + 1 == w {
      assert out'[..si + 1] == out'[..si] + [out'[si]];
      FlattenSnoc(out'[..si], out'[si]);
      assert out'[si][..so + 1] == out'[si];
      if si + 1 == |out| {
        assert out'[..si + 1] == out';
      }
    }
  }

  /** At the cursor, the first n matrices read row-major are the ones written. */
  lemma CursorPrefix(out: seq<seq<Matrix>>, w: int, si: int, so: int, done: seq<Matrix>)
    requires Uniform(out, w) && Cursor(out, w, si, so, done)
    ensures |done| <= |DR.Flatten(out)| && DR.Flatten(out)[..|done|] == done
  {
    if si < |out| {
      assert out == out[..si] + [out[si]] + out[si + 1..];
      FlattenAppend(out[..si] + [out[si]], out[si + 1..]);
      FlattenSnoc(out[..si], out[si]);
      assert out[si] == out[si][..so] + out[si][so..];
    }
  }

  /** With the cursor before the end, n is below the slices' capacity, and the converse. */
  lemma CursorRoom(out: seq<seq<Matrix>>, w: int, si: int, so: int, done: seq<Matrix>)
    requires Uniform(out, w) && w > 0 && Cursor(out, w, si, so, done)
    ensures si < |out| <==> |done| < |out| * w
  {
    if si < |out| {
      assert |done| == si * w + so;
      assert (si + 1) * w <= |out| * w by { MulMono(si + 1, |out|, w); }
    } else {
      assert out[..si] == out;
    }
  }

  lemma MulMono(a: int, b: int, w: int)
    requires a <= b && w >= 0
    ensures a * w <= b * w
  {
  }

  /** The cursor after one more matrix: the next slot, or the first slot of the next slice when this one is full. */
  function Advance(si: int, so: int, w: int): (int, int)
  {
    if so + 1 >= w then (si + 1, 0) else (si, so + 1)
  }

  /** The culling pass after i children: the kept matrices so far sit row-major before the cursor. */
  ghost predicate CompactedUpTo(keep: seq<bool>, ts: seq<Matrix>, out: seq<seq<Matrix>>, w: int, si: int, so: int, i: int, n: int)
    requires |keep| == |ts|
  {
    && 0 <= i <= |ts| && w > 0
    && Cursor(out, w, si, so, DR.Compact(keep[..i], ts[..i]))
    && n == |DR.Compact(keep[..i], ts[..i])| <= i
  }

  /** One step of the culling pass keeps CompactedUpTo, given room for every transform. */
  lemma CompactedStep(keep: seq<bool>, ts: seq<Matrix>, out: seq<seq<Matrix>>, w: int, si: int, so: int, i: int, n: int)
    requires |keep| == |ts| && CompactedUpTo(keep, ts, out, w, si, so, i, n) && i < |ts| && |ts| <= |out| * w
    ensures !keep[i] ==> CompactedUpTo(keep, ts, out, w, si, so, i + 1, n)
    ensures keep[i] ==>
      && si < |out|
      && CompactedUpTo(keep, ts, out[si := out[si][so := ts[i]]], w, Advance(si, so, w).0, Advance(si, so, w).1, i + 1, n + 1)
  {
    DR.CompactStep(keep, ts, i);
    if keep[i] {
      ghost var done := DR.Compact(keep[..i], ts[..i]);
      CursorRoom(out, w, si, so, done);
      CursorStep(out, w, si, so, done, ts[i]);
    }
  }

  /**
   * Draw's culling pass: the matrices of the kept children (vis holds
   * their visible flags) go, in order,
   * into the slices read row-major (slot sortedIndex of slice sliceIndex,
   * moving to the next slice when one is full); n counts them.
   */
  method CompactIntoSlices(vis: seq<bool>, ts: seq<Matrix>, all: bool, sampled: seq<bool>, slices: seq<seq<Matrix>>, w: int)
    returns (out: seq<seq<Matrix>>, n: int)
    requires |vis| == |ts| == |sampled|
    requires w > 0 && Uniform(slices, w) && |ts| <= |slices| * w
    ensures |out| == |slices| && Uniform(out, w)
    ensures var c := DR.Compact(Kept(vis, all, sampled), ts);
      n == |c| && n <= |DR.Flatten(out)| && DR.Flatten(out)[..n] == c
  {
    ghost var keep := Kept(vis, all, sampled);
    out := slices;
    n := 0;
    var sliceIndex, sortedIndex := 0, 0;
    var i := 0;
    assert out[..0] == [];
    while i < |ts|
      invariant |out| == |slices| && CompactedUpTo(keep, ts, out, w, sliceIndex, sortedIndex, i, n)
    {
      CompactedStep(keep, ts, out, w, sliceIndex, sortedIndex, i, n);
      if vis[i] && (all || sampled[i]) {
        out := out[sliceIndex := out[sliceIndex][sortedIndex := ts[i]]];
        sortedIndex := sortedIndex + 1;
        if sortedIndex >= w {
          sortedIndex := 0;
          sliceIndex := sliceIndex + 1;
        }
        n := n + 1;
      }
      i := i + 1;
    }
    assert keep[..i] == keep && ts[..i] == ts;
    CursorPrefix(out, w, sliceIndex, sortedIndex, DR.Compact(keep, ts));
  }

  // ---------------------------------------------------------------------
  // The draw calls over the slices

  /** The corrected calls: slice after slice, each drawing what is left of the n instances, at most a slice. */
  function SliceCalls(slices: seq<seq<Matrix>>, n: int): (r: seq<seq<Matrix>>)
    requires forall i :: 0 <= i < |slices| ==> |slices[i]| > 0
    requires n <= |DR.Flatten(slices)|
    decreases |slices|
  {
    if n <= 0 || slices == [] then []
    else
      var k := if |slices[0]| < n then |slices[0]| else n;
      [slices[0][..k]] + SliceCalls(slices[1..], n - k)
  }

  /** The corrected calls draw the first n instances read row-major, once each and in order. */
  lemma {:induction false} SliceCallsFlatten(slices: seq<seq<Matrix>>, n: int)
    requires forall i :: 0 <= i < |slices| ==> |slices[i]| > 0
    requires 0 <= n <= |DR.Flatten(slices)|
    ensures DR.Flatten(SliceCalls(slices, n)) == DR.Flatten(slices)[..n]
    decreases |slices|
  {
    if n == 0 || slices == [] {
    } else {
      var k := if |slices[0]| < n then |slices[0]| else n;
      var rest := SliceCalls(slices[1..], n - k);
      SliceCallsFlatten(slices[1..], n - k);
      assert DR.Flatten(slices) == slices[0] + DR.Flatten(slices[1..]);
      assert DR.Flatten([slices[0][..k]] + rest) == slices[0][..k] + DR.Flatten(rest);
      if k == n {
        assert n - k == 0;
      }
    }
  }

  /** Draw's culled loop with the corrected count: renderCount is what is left, at most one slice. */
  method DrawSlices(slices: seq<seq<Matrix>>, visibleCount: int) returns (calls: seq<seq<Matrix>>)
    requires forall i :: 0 <= i < |slices| ==> |slices[i]| > 0
    requires visibleCount <= |DR.Flatten(slices)|
    ensures calls == SliceCalls(slices, visibleCount)
  {
    calls := [];
    var index, sortedIndex := 0, 0;
    while index < visibleCount
      invariant 0 <= sortedIndex <= |slices| && index <= |DR.Flatten(slices[..sortedIndex])|
      invariant index >= visibleCount ==> SliceCalls(slices[sortedIndex..], visibleCount - index) == []
      invariant visibleCount - index <= |DR.Flatten(slices[sortedIndex..])|
      invariant calls + SliceCalls(slices[sortedIndex..], visibleCount - index) == SliceCalls(slices, visibleCount)
      decreases visibleCount - index
    {
      DrawSlicesStep(slices, visibleCount, index, sortedIndex);
      var renderCount := if |slices[sortedIndex]| < visibleCount - index then |slices[sortedIndex]| else visibleCount - index;
      calls := calls + [slices[sortedIndex][..renderCount]];
      sortedIndex := sortedIndex + 1;
      index := index + renderCount;
    }
  }

  /** One turn of DrawSlices' loop: the call for slice sortedIndex, and the counts after it. */
  lemma DrawSlicesStep(slices: seq<seq<Matrix>>, visibleCount: int, index: int, sortedIndex: int)
    requires forall i :: 0 <= i < |slices| ==> |slices[i]| > 0
    requires 0 <= sortedIndex <= |slices| && index <= |DR.Flatten(slices[..sortedIndex])|
    requires index < visibleCount <= index + |DR.Flatten(slices[sortedIndex..])|
    ensures sortedIndex < |slices|
    ensures var k := if |slices[sortedIndex]| < visibleCount - index then |slices[sortedIndex]| else visibleCount - index;
      && index + k <= |DR.Flatten(slices[..sortedIndex + 1])|
      && visibleCount - index - k <= |DR.Flatten(slices[sortedIndex + 1..])|
      && [slices[sortedIndex][..k]] + SliceCalls(slices[sortedIndex + 1..], visibleCount - index - k)
         == SliceCalls(slices[sortedIndex..], visibleCount - index)
  {
    var rest := slices[sortedIndex..];
    assert rest != [];
    assert DR.Flatten(rest) == rest[0] + DR.Flatten(rest[1..]);
    assert rest[1..] == slices[sortedIndex + 1..];
    assert slices[..sortedIndex + 1] == slices[..sortedIndex] + [slices[sortedIndex]];
    FlattenSnoc(slices[..sortedIndex], slices[sortedIndex]);
  }

  /** The calls as written: every call draws Min(slice length, visibleCount), whatever is left. */
  function AsWrittenSliceCalls(slices: seq<seq<Matrix>>, visibleCount: int, index: int): (r: seq<seq<Matrix>>)
    requires 0 <= index
    decreases |slices|
  {
    if index >= visibleCount || slices == [] then []
    else
      var k := if |slices[0]| < visibleCount then |slices[0]| else visibleCount;
      [slices[0][..k]] + AsWrittenSliceCalls(slices[1..], visibleCount, index + k)
  }

  /**
   * Slices of two with three kept instances: the as-written calls draw
   * four matrices, the second slice's stale slot included, where three
   * were kept.
   */
  lemma AsWrittenDrawsStaleSlot(a: Matrix, b: Matrix, c: Matrix, stale: Matrix)
    ensures var slices := [[a, b], [c, stale]];
      && AsWrittenSliceCalls(slices, 3, 0) == [[a, b], [c, stale]]
      && |DR.Flatten(AsWrittenSliceCalls(slices, 3, 0))| == 4
      && DR.Flatten(SliceCalls(slices, 3)) == [a, b, c]
  {
    var slices := [[a, b], [c, stale]];
    assert slices[1..] == [[c, stale]] && [[c, stale]][1..] == [];
    assert [c, stale][..2] == [c, stale] && [a, b][..2] == [a, b];
    assert AsWrittenSliceCalls([[c, stale]], 3, 2) == [[c, stale]] + AsWrittenSliceCalls([], 3, 4);
    assert AsWrittenSliceCalls(slices, 3, 0) == [[a, b]] + [[c, stale]];
    assert DR.Flatten(slices) == [a, b, c, stale] by {
      assert DR.Flatten(slices[1..]) == [c, stale] + DR.Flatten([]);
    }
    SliceCallsFlatten(slices, 3);
    assert DR.Flatten([[a, b], [c, stale]]) == [a, b] + ([c, stale] + DR.Flatten([]));
  }

  // ---------------------------------------------------------------------
  // Children with sliced sorted transforms

  class Children {
    var childArray: array<DR.Child?>
    var transforms: array<Matrix>
    var slices: seq<seq<Matrix>>
    var hasVisibleStateChanged: bool
    var count: int
    var visibleCount: int

    /**
     * The child and transform arrays have one length, which holds the
     * count; while the visibility state is unchanged, visibleCount is at
     * most the count (every change since the last compaction marks it).
     */
    ghost predicate Valid()
      reads this`childArray, this`transforms, this`count, this`visibleCount, this`hasVisibleStateChanged
    {
      && childArray.Length == transforms.Length > 0
      && 0 <= count <= childArray.Length && 0 <= visibleCount
      && (!hasVisibleStateChanged ==> visibleCount <= count)
    }

    /** Slots below count hold children, the rest are empty. */
    ghost predicate Dense()
      reads this`count, this`childArray, childArray
    {
      && 0 <= count <= childArray.Length
      && (forall i :: 0 <= i < count ==> childArray[i] != null)
      && (forall i :: count <= i < childArray.Length ==> childArray[i] == null)
    }

    /** Every slice holds w matrices and together they hold at least as many as transforms. */
    ghost predicate Sliced(w: int)
      reads this`slices, this`transforms
    {
      w > 0 && Uniform(slices, w) && |slices| * w >= transforms.Length
    }

    /** The children, in slot order. */
    ghost function Members(): seq<DR.Child?>
      reads this`childArray, this`count, childArray
      requires 0 <= count <= childArray.Length
    {
      childArray[..count]
    }

    /** Every child's childrenID is its slot. */
    ghost predicate Indexed()
      reads this`childArray, this`count, childArray, childArray[..]`childrenID
      requires 0 <= count <= childArray.Length
    {
      forall i :: 0 <= i < count ==> childArray[i] != null && childArray[i].childrenID == i
    }

    /** One slot for a child and its matrix, and one slice of batchCount matrices. */
    constructor (batchCount: int)
      requires batchCount > 0
      ensures Valid() && Dense() && Sliced(batchCount) && count == 0 && visibleCount == 0 && !hasVisibleStateChanged
      ensures childArray.Length == 1 && slices == [EmptySlice(batchCount)]
      ensures fresh(childArray) && fresh(transforms)
    {
      childArray := new DR.Child?[1](_ => null);
      transforms := new Matrix[1](_ => ZeroMatrix());
      slices := [EmptySlice(batchCount)];
      hasVisibleStateChanged := false;
      count := 0;
      visibleCount := 0;
    }

    /** Both arrays double; sortedTransforms is resized to transforms.Length / batchCount + 1 slices. */
    method Grow(batchCount: int)
      requires Valid() && Dense() && batchCount > 0
      modifies this`childArray, this`transforms, this`slices
      ensures Valid() && Dense() && childArray.Length == 2 * old(childArray.Length)
      ensures fresh(childArray) && fresh(transforms)
      ensures childArray[..count] == old(childArray[..count]) && transforms[..count] == old(transforms[..count])
      ensures slices == Resized(old(slices), SliceCount(transforms.Length, batchCount), batchCount)
      ensures |slices| * batchCount > transforms.Length
      ensures old(Sliced(batchCount)) ==> Sliced(batchCount)
      ensures old(Indexed()) ==> Indexed()
    {
      var n := childArray.Length;
      var t := DR.Doubled(transforms, ZeroMatrix());
      var a := DR.Doubled(childArray, null);
      assert a[..count] == a[..n][..count];
      assert t[..count] == t[..n][..count];
      var s := ResizeSlices(slices, SliceCount(t.Length, batchCount), batchCount);
      childArray, transforms, slices := a, t, s;
    }

    /**
     * Add: the arrays double when full, then the child takes slot count
     * with its matrix, its childrenID becomes that slot, count grows by one
     * and the visibility state is marked changed.
     */
    method Add(child: Child, batchCount: int)
      requires Valid() && Dense() && batchCount > 0
      modifies this, childArray, transforms, child`childrenID
      ensures Valid() && Dense()
      ensures count == old(count) + 1 && hasVisibleStateChanged && visibleCount == old(visibleCount)
      ensures Members() == old(Members()) + [child]
      ensures transforms[..count] == old(transforms[..count]) + [child.localToWorld]
      ensures child.childrenID == old(count)
      ensures old(count) < old(childArray.Length) ==> slices == old(slices) && childArray == old(childArray)
      ensures old(count) >= old(childArray.Length) ==> |slices| * batchCount > transforms.Length
      ensures old(Sliced(batchCount)) ==> Sliced(batchCount)
      ensures old(Indexed()) && old(child.childrenID) == -1 ==> Indexed()
    {
      if childArray.Length <= count {
        Grow(batchCount);
      }
      Place(child);
    }

    /** Add's second half: the child takes the free slot count. */
    method Place(child: Child)
      requires Valid() && Dense() && count < childArray.Length
      modifies this`count, this`hasVisibleStateChanged, childArray, transforms, child`childrenID
      ensures Valid() && Dense()
      ensures count == old(count) + 1 && hasVisibleStateChanged
      ensures Members() == old(Members()) + [child]
      ensures transforms[..count] == old(transforms[..count]) + [child.localToWorld]
      ensures child.childrenID == old(count)
      ensures old(Indexed()) && old(child.childrenID) == -1 ==> Indexed()
    {
      ghost var linking := Indexed() && child.childrenID == -1;
      ghost var members := childArray[..count];
      ghost var ts := transforms[..count];
      assert linking ==> child !in members;
      transforms[count] := child.localToWorld;
      child.childrenID := count;
      count := count + 1;
      childArray[child.childrenID] := child;
      hasVisibleStateChanged := true;
      assert childArray[..count] == members + [child];
      assert transforms[..count] == ts + [child.localToWorld];
      if linking {
        forall i | 0 <= i < count - 1
          ensures childArray[i] != null && childArray[i].childrenID == i
        {
          assert childArray[i] == members[i] && old(members[i].childrenID) == i;
        }
      }
    }

    /**
     * RemoveAt: the last child and its matrix move into slot index, the
     * moved child's childrenID becomes index, the removed child's becomes
     * -1 (also when it was the last), the last slot is emptied and count
     * drops by one.
     */
    method RemoveAt(index: int)
      requires Valid() && Dense() && 0 <= index < count
      modifies this`count, this`hasVisibleStateChanged, childArray, transforms
      modifies {childArray[index], childArray[count - 1]}`childrenID
      ensures Valid() && Dense() && count == old(count) - 1 && hasVisibleStateChanged
      ensures Members() == old(Members())[index := old(childArray[count - 1])][..count]
      ensures transforms[..count] == old(transforms[..count])[index := old(transforms[count - 1])][..count]
      ensures old(childArray[index]).childrenID == -1
      ensures old(childArray[count - 1]) != old(childArray[index]) ==> old(childArray[count - 1]).childrenID == index
      ensures old(Indexed()) ==> Indexed() && old(childArray[index]) !in Members()
    {
      ghost var members := childArray[..count];
      ghost var ts := transforms[..count];
      ghost var wasIndexed := Indexed();
      ghost var removed := childArray[index];
      childArray[count - 1].childrenID := index;
      childArray[index].childrenID := -1;
      childArray[index] := childArray[count - 1];
      childArray[count - 1] := null;
      transforms[index] := transforms[count - 1];
      count := count - 1;
      hasVisibleStateChanged := true;
      assert childArray[..count] == members[index := members[count]][..count];
      assert transforms[..count] == ts[index := ts[count]][..count];
      if wasIndexed {
        forall i | 0 <= i < count
          ensures childArray[i] != null && childArray[i].childrenID == i && childArray[i] != removed
        {
          if i != index {
            assert childArray[i] == members[i];
            assert old(members[i].childrenID) == i;
            assert members[i] != members[count] && members[i] != removed;
          }
        }
        assert removed !in childArray[..count];
      }
    }

    /** UpdateTransform: the child's current matrix replaces the stored one. */
    method UpdateTransform(index: int)
      requires Valid() && Dense() && 0 <= index < count
      modifies this`hasVisibleStateChanged, transforms
      ensures Valid() && Dense() && hasVisibleStateChanged
      ensures transforms[..count] == old(transforms[..count])[index := childArray[index].localToWorld]
    {
      transforms[index] := childArray[index].localToWorld;
      hasVisibleStateChanged := true;
    }

    /** UpdateSortedTransform: transforms.Length / batchCount + 1 fresh slices of batchCount matrices. */
    method UpdateSortedTransform(batchCount: int)
      requires Valid() && batchCount > 0
      modifies this`slices, this`hasVisibleStateChanged
      ensures Sliced(batchCount) && hasVisibleStateChanged
      ensures |slices| == SliceCount(transforms.Length, batchCount) && |slices| * batchCount > transforms.Length
      ensures forall i :: 0 <= i < |slices| ==> slices[i] == EmptySlice(batchCount)
    {
      var n := SliceCount(transforms.Length, batchCount);
      var s: seq<seq<Matrix>> := [];
      var i := 0;
      while i < n
        invariant 0 <= i <= n && |s| == i
        invariant forall j :: 0 <= j < i ==> s[j] == EmptySlice(batchCount)
      {
        s := s + [EmptySlice(batchCount)];
        i := i + 1;
      }
      slices := s;
      hasVisibleStateChanged := true;
    }

    /**
     * Draw's culling pass: the matrices of the kept children are
     * compacted, row-major, into the slices, visibleCount becomes their
     * number and the state is marked unchanged.
     */
    method Recompact(all: bool, sampled: seq<bool>, w: int)
      requires Valid() && Dense() && Sliced(w) && |sampled| == count
      modifies this`visibleCount, this`hasVisibleStateChanged, this`slices
      ensures Valid() && Dense() && Sliced(w) && !hasVisibleStateChanged
      ensures var c := DR.Compact(Kept(old(DR.Flags(Members())), all, sampled), old(transforms[..count]));
        visibleCount == |c| && visibleCount <= |DR.Flatten(slices)| && DR.Flatten(slices)[..visibleCount] == c
    {
      var vis := DR.Flags(childArray[..count]);
      var out, n := CompactIntoSlices(vis, transforms[..count], all, sampled, slices, w);
      slices, visibleCount := out, n;
      hasVisibleStateChanged := false;
    }

    /**
     * Draw, with the corrected count per call. Nothing happens without
     * children. With culling and a changed visibility state, Recompact
     * runs first. With culling the slices are drawn one call each,
     * visibleCount instances in all; without it one call draws the count
     * matrices of transforms.
     */
    method Draw(cull: bool, all: bool, sampled: seq<bool>, w: int) returns (calls: seq<seq<Matrix>>)
      requires Valid() && Dense() && Sliced(w) && |sampled| == count
      modifies this`visibleCount, this`hasVisibleStateChanged, this`slices
      ensures Valid() && Dense() && Sliced(w)
      ensures count <= 0 ==> calls == []
      ensures count > 0 && !cull ==> calls == [transforms[..count]]
      ensures count > 0 && cull ==>
        visibleCount <= |DR.Flatten(slices)| && DR.Flatten(calls) == DR.Flatten(slices)[..visibleCount]
      ensures count > 0 && cull && old(hasVisibleStateChanged) ==>
        var c := DR.Compact(Kept(old(DR.Flags(Members())), all, sampled), old(transforms[..count]));
        visibleCount == |c| && DR.Flatten(slices)[..visibleCount] == c
      ensures !(count > 0 && cull && old(hasVisibleStateChanged)) ==> visibleCount == old(visibleCount) && slices == old(slices)
      ensures hasVisibleStateChanged == (old(hasVisibleStateChanged) && !(count > 0 && cull))
    {
      calls := [];
      if count <= 0 {
        return;
      }
      if cull && hasVisibleStateChanged {
        Recompact(all, sampled, w);
      }
      if cull {
        FlattenUniform(slices, w);
        calls := DrawSlices(slices, visibleCount);
        SliceCallsFlatten(slices, visibleCount);
      } else {
        calls := [transforms[..count]];
      }
    }
  }

  // ---------------------------------------------------------------------
  // The renderer: the shared registry, its culling job always present

  type Registry = DR.Registry
  type Sphere = DR.Sphere

  /** Awake creates the culling job, so the helper's registry always has it, counting every bounding entry. */
  ghost predicate Running(r: Registry)
  {
    DR.Valid(r) && r.hasCullingGroup
  }

  /** The renderer after Awake: nothing registered, the culling job created. */
  function Awake(): (r: Registry)
    ensures Running(r) && r.bounding == [] && r.groups == map[] && r.cid == map[]
  {
    DR.Empty().(hasCullingGroup := true)
  }

  /** new BoundingSphere(): the origin and radius 0. */
  function DefaultSphere(): Sphere
  {
    DR.Sphere([0.0, 0.0, 0.0], 0.0)
  }

  /** GetCurrentMatrix: the zero matrix for a child whose childrenID is -1, else its stored matrix. */
  function GetCurrentMatrix(r: Registry, c: Child): (m: Matrix)
    requires Running(r)
    ensures DR.ChildrenID(r, c) == -1 ==> m == ZeroMatrix()
  {
    if DR.ChildrenID(r, c) == -1 then ZeroMatrix()
    else
      DR.Registered(r, c);
      r.groups[c.resourceID].transforms[r.cid[c]]
  }

  /** GetCurrentBoundingSphere: the default sphere for an unknown resource or a childrenID of -1, else the child's sphere. */
  function GetCurrentBoundingSphere(r: Registry, c: Child): (s: Sphere)
    requires Running(r)
    ensures c.resourceID !in r.groups || DR.ChildrenID(r, c) == -1 ==> s == DefaultSphere()
    ensures c.resourceID in r.groups && DR.ChildrenID(r, c) != -1 ==> s == DR.SphereOf(r, c)
  {
    if c.resourceID !in r.groups || DR.ChildrenID(r, c) == -1 then DefaultSphere()
    else
      DR.Registered(r, c);
      r.spheres[r.bid[c]]
  }

  /**
   * The helper's Join is the shared Join: no mesh or material, no change;
   * otherwise the group and culling job exist afterwards and the child is
   * registered, a new child with its matrix and sphere, a registered one
   * with the refreshed sphere and its old matrix.
   */
  lemma JoinCurrent(r: Registry, c: Child, m: Matrix, s: Sphere)
    requires Running(r)
    ensures Running(DR.Join(r, c, m, s))
    ensures c.hasResources ==>
      && DR.ChildrenID(DR.Join(r, c, m, s), c) != -1
      && GetCurrentBoundingSphere(DR.Join(r, c, m, s), c) == s
      && GetCurrentMatrix(DR.Join(r, c, m, s), c) == (if DR.ChildrenID(r, c) == -1 then m else GetCurrentMatrix(r, c))
  {
    DR.JoinValid(r, c, m, s);
    var j := DR.Join(r, c, m, s);
    if c.hasResources {
      if DR.ChildrenID(r, c) == -1 {
        DR.JoinUnregistered(r, c, m, s);
        var g := if c.resourceID in r.groups then r.groups[c.resourceID] else DR.Group([], [], false);
        assert j.groups[c.resourceID].transforms == g.transforms + [m];
        assert j.cid[c] == |g.children| == |g.transforms|;
      } else {
        DR.Registered(r, c);
      }
    }
  }

  /**
   * The helper's Quit guards only on childrenID: for a registered child
   * the resource always has a group, so the shared Quit's second guard
   * never fires. Afterwards the child reads as unregistered.
   */
  lemma QuitCurrent(r: Registry, c: Child)
    requires Running(r)
    ensures DR.ChildrenID(r, c) != -1 ==> c.resourceID in r.groups
    ensures Running(DR.Quit(r, c))
    ensures GetCurrentMatrix(DR.Quit(r, c), c) == ZeroMatrix()
    ensures GetCurrentBoundingSphere(DR.Quit(r, c), c) == DefaultSphere()
  {
    if DR.ChildrenID(r, c) != -1 {
      DR.Registered(r, c);
    }
    DR.QuitValid(r, c);
    DR.QuitUnregisters(r, c);
  }

  /** UpdateTransform gives a registered child the new matrix and sphere. */
  lemma UpdateTransformCurrent(r: Registry, c: Child, m: Matrix, s: Sphere)
    requires Running(r) && DR.ChildrenID(r, c) != -1
    ensures Running(DR.UpdateTransform(r, c, m, s))
    ensures GetCurrentMatrix(DR.UpdateTransform(r, c, m, s), c) == m
    ensures GetCurrentBoundingSphere(DR.UpdateTransform(r, c, m, s), c) == s
  {
    DR.UpdateTransformEffect(r, c, m, s);
    DR.Registered(r, c);
  }

  // ---------------------------------------------------------------------
  // CullSync

  /** The child's visible flag; a child the renderer never touched still holds its initial true. */
  function Visible(r: Registry, c: Child): bool
  {
    if c in r.visible then r.visible[c] else true
  }

  /** A child CullSync has not touched yet that the culling job reports visible is no flip: nothing changes. */
  lemma UntouchedVisibleKeeps(r: Registry, c: Child)
    requires c.resourceID in r.groups && c !in r.visible
    ensures SyncOne(r, c, true) == r
    ensures SyncOne(r, c, false) != r
  {
    assert c in SyncOne(r, c, false).visible;
  }

  /** Some child of resource k in the first n bounding slots has a visibility that differs from its result. */
  ghost predicate Flipped(r: Registry, results: seq<bool>, k: int, n: int)
    requires n <= |r.bounding| && n <= |results|
  {
    exists i :: 0 <= i < n && r.bounding[i].resourceID == k && Visible(r, r.bounding[i]) != results[i]
  }

  /** A bounding entry is in its resource's group. */
  lemma BoundGroup(r: Registry, i: int)
    requires DR.Valid(r) && 0 <= i < |r.bounding|
    ensures r.bounding[i].resourceID in r.groups && r.bounding[i] in r.bid && r.bid[r.bounding[i]] == i
  {
    assert DR.InGroup(r.groups, r.cid, r.bounding[i]);
  }

  /** CullSync's work on one bounding entry: on a flip the child takes the result and its group is marked changed. */
  function SyncOne(r: Registry, c: Child, visible: bool): (r': Registry)
    requires c.resourceID in r.groups
  {
    if Visible(r, c) == visible then r
    else
      var g := r.groups[c.resourceID];
      r.(groups := r.groups[c.resourceID := g.(changed := true)], visible := r.visible[c := visible])
  }

  /** CullSync after the first i bounding slots. */
  ghost predicate SyncedUpTo(r: Registry, results: seq<bool>, cur: Registry, i: int)
    requires |results| == |r.bounding|
  {
    && 0 <= i <= |r.bounding|
    && cur.bounding == r.bounding && cur.spheres == r.spheres && cur.cid == r.cid && cur.bid == r.bid
    && cur.hasCullingGroup == r.hasCullingGroup && cur.cullingCount == r.cullingCount
    && cur.groups.Keys == r.groups.Keys
    && (forall k :: k in r.groups ==>
          cur.groups[k].children == r.groups[k].children && cur.groups[k].transforms == r.groups[k].transforms)
    && (forall j :: 0 <= j < i ==> Visible(cur, r.bounding[j]) == results[j])
    && (forall j :: i <= j < |r.bounding| ==> Visible(cur, r.bounding[j]) == Visible(r, r.bounding[j]))
    && forall k :: k in r.groups ==> (cur.groups[k].changed <==> r.groups[k].changed || Flipped(r, results, k, i))
  }

  /** A bounding entry is in its resource's group and in no other bounding slot. */
  lemma BoundDistinct(r: Registry, i: int)
    requires DR.Valid(r) && 0 <= i < |r.bounding|
    ensures r.bounding[i].resourceID in r.groups
    ensures forall j :: 0 <= j < |r.bounding| && j != i ==> r.bounding[j] != r.bounding[i]
  {
    BoundGroup(r, i);
    forall j | 0 <= j < |r.bounding| && j != i
      ensures r.bounding[j] != r.bounding[i]
    {
      BoundGroup(r, j);
    }
  }

  /** Looking at one more slot finds a flip in group k exactly when there was one or slot i flips. */
  lemma FlippedStep(r: Registry, results: seq<bool>, k: int, i: int)
    requires 0 <= i < |r.bounding| == |results|
    ensures Flipped(r, results, k, i + 1) <==>
      Flipped(r, results, k, i) || (r.bounding[i].resourceID == k && Visible(r, r.bounding[i]) != results[i])
  {
    if Flipped(r, results, k, i + 1) && !Flipped(r, results, k, i) {
      var j :| 0 <= j < i + 1 && r.bounding[j].resourceID == k && Visible(r, r.bounding[j]) != results[j];
      assert j == i;
    }
    if Flipped(r, results, k, i) {
      var j :| 0 <= j < i && r.bounding[j].resourceID == k && Visible(r, r.bounding[j]) != results[j];
      assert Flipped(r, results, k, i + 1);
    }
  }

  /** One step of CullSync keeps SyncedUpTo, for a slot whose child is in its group and in no later slot. */
  lemma SyncStep(r: Registry, results: seq<bool>, cur: Registry, i: int)
    requires |results| == |r.bounding| && SyncedUpTo(r, results, cur, i) && i < |r.bounding|
    requires r.bounding[i].resourceID in r.groups
    requires forall j :: 0 <= j < |r.bounding| && j != i ==> r.bounding[j] != r.bounding[i]
    ensures r.bounding[i].resourceID in cur.groups
    ensures SyncedUpTo(r, results, SyncOne(cur, r.bounding[i], results[i]), i + 1)
    ensures forall c :: c != r.bounding[i] ==> Visible(SyncOne(cur, r.bounding[i], results[i]), c) == Visible(cur, c)
  {
    var c := r.bounding[i];
    var next := SyncOne(cur, c, results[i]);
    assert Visible(next, c) == results[i];
    forall d | d != c
      ensures Visible(next, d) == Visible(cur, d)
    {
    }
    forall j | 0 <= j < i + 1
      ensures Visible(next, r.bounding[j]) == results[j]
    {
      if j < i {
        assert r.bounding[j] != c;
      }
    }
    forall j | i + 1 <= j < |r.bounding|
      ensures Visible(next, r.bounding[j]) == Visible(r, r.bounding[j])
    {
      assert r.bounding[j] != c;
    }
    forall k | k in r.groups
      ensures next.groups[k].children == r.groups[k].children && next.groups[k].transforms == r.groups[k].transforms
    {
    }
    forall k | k in r.groups
      ensures next.groups[k].changed <==> r.groups[k].changed || Flipped(r, results, k, i + 1)
    {
      FlippedStep(r, results, k, i);
    }
  }

  /**
   * CullSync: nothing happens without a camera whose culling parameters
   * can be read. Otherwise, for every bounding slot i, the child takes
   * the culling job's result; its group is marked changed only when the
   * child's visibility flips. results stands for the job's output, which
   * tests each sphere against the camera's planes.
   */
  method CullSync(r: Registry, ready: bool, results: seq<bool>) returns (r': Registry)
    requires Running(r) && |results| == |r.bounding|
    ensures !ready ==> r' == r
    ensures Running(r')
    ensures r'.bounding == r.bounding && r'.spheres == r.spheres && r'.cid == r.cid && r'.bid == r.bid
    ensures r'.groups.Keys == r.groups.Keys
    ensures forall k :: k in r.groups ==>
      r'.groups[k].children == r.groups[k].children && r'.groups[k].transforms == r.groups[k].transforms
    ensures ready ==> forall i :: 0 <= i < |r.bounding| ==> Visible(r', r.bounding[i]) == results[i]
    ensures forall c :: c !in r.bounding ==> Visible(r', c) == Visible(r, c)
    ensures ready ==> forall k :: k in r.groups ==>
      (r'.groups[k].changed <==> r.groups[k].changed || Flipped(r, results, k, |r.bounding|))
  {
    r' := r;
    if !ready {
      return;
    }
    var i := 0;
    while i < |r.bounding|
      invariant SyncedUpTo(r, results, r', i)
      invariant forall c :: c !in r.bounding ==> Visible(r', c) == Visible(r, c)
    {
      BoundDistinct(r, i);
      SyncStep(r, results, r', i);
      var c := r.bounding[i];
      var visible := results[i];
      if Visible(r', c) != visible {
        var g := r'.groups[c.resourceID];
        r' := r'.(groups := r'.groups[c.resourceID := g.(changed := true)], visible := r'.visible[c := visible]);
      }
      i := i + 1;
    }
    DR.LinkedSameMembers(r.groups, r'.groups, r.bounding, r.cid, r.bid);
  }
}
