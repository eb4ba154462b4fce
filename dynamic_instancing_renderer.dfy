// DynamicInstancingRenderer: children that share a mesh and material are
// drawn together with instanced draw calls. Each resource has a Children
// group holding its children densely in `array` (with each child's slot in
// `childrenID`) and their matrices in `transforms`; culling copies the
// matrices of visible children into `sortedTransforms`. The renderer also
// keeps every registered child densely in `boundingChildren` (with its slot
// in `boundingID`) next to its bounding sphere for the culling group.
module DynamicInstancingRenderer {

  /** A local-to-world matrix; its entries are only copied, never computed with. */
  type Matrix = seq<real>

  /** At most this many instances go into one DrawMeshInstanced call. */
  const BatchLimit: nat := 1023

  /** DynamicInstancingChild: the fields the renderer reads and writes. */
  class Child {
    const resourceID: int
    const hasResources: bool
    var childrenID: int
    var boundingID: int
    var visible: bool
    var localToWorld: Matrix

    /** This variant's child: not in any group yet, and not visible until the culling group reports it. */
    constructor (resourceID: int, hasResources: bool, localToWorld: Matrix)
      ensures this.resourceID == resourceID && this.hasResources == hasResources
      ensures this.localToWorld == localToWorld
      ensures childrenID == -1 && boundingID == -1 && !visible
    {
      this.resourceID := resourceID;
      this.hasResources := hasResources;
      this.localToWorld := localToWorld;
      childrenID := -1;
      boundingID := -1;
      visible := false;
    }

    /** The DynamicInstancingHelper variant's child: not in any group yet, and visible from the start. */
    constructor StartVisible(resourceID: int, hasResources: bool, localToWorld: Matrix)
      ensures this.resourceID == resourceID && this.hasResources == hasResources
      ensures this.localToWorld == localToWorld
      ensures childrenID == -1 && boundingID == -1 && visible
    {
      this.resourceID := resourceID;
      this.hasResources := hasResources;
      this.localToWorld := localToWorld;
      childrenID := -1;
      boundingID := -1;
      visible := true;
    }
  }

  // ---------------------------------------------------------------------
  // Compaction of visible transforms

  /** The transforms whose child is visible, in their original order. */
  function Compact(vis: seq<bool>, ts: seq<Matrix>): (r: seq<Matrix>)
    requires |vis| == |ts|
    ensures |r| <= |ts|
  {
    if ts == [] then []
    else
      var n := |ts| - 1;
      Compact(vis[..n], ts[..n]) + (if vis[n] then [ts[n]] else [])
  }

  /** With every child visible, compaction keeps every transform. */
  lemma {:induction false} CompactAllVisible(vis: seq<bool>, ts: seq<Matrix>)
    requires |vis| == |ts| && forall i :: 0 <= i < |vis| ==> vis[i]
    ensures Compact(vis, ts) == ts
    decreases |ts|
  {
    if ts != [] {
      var n := |ts| - 1;
      CompactAllVisible(vis[..n], ts[..n]);
      assert ts == ts[..n] + [ts[n]];
    }
  }

  /** Compaction distributes over concatenation. */
  lemma {:induction false} CompactAppend(v1: seq<bool>, t1: seq<Matrix>, v2: seq<bool>, t2: seq<Matrix>)
    requires |v1| == |t1| && |v2| == |t2|
    ensures Compact(v1 + v2, t1 + t2) == Compact(v1, t1) + Compact(v2, t2)
    decreases |t2|
  {
    if t2 == [] {
      assert v1 + v2 == v1 && t1 + t2 == t1;
    } else {
      var n := |t2| - 1;
      assert (v1 + v2)[..|t1| + n] == v1 + v2[..n];
      assert (t1 + t2)[..|t1| + n] == t1 + t2[..n];
      CompactAppend(v1, t1, v2[..n], t2[..n]);
    }
  }

  /** Compacting nothing visible gives nothing. */
  lemma {:induction false} CompactNoneVisible(vis: seq<bool>, ts: seq<Matrix>)
    requires |vis| == |ts| && forall i :: 0 <= i < |vis| ==> !vis[i]
    ensures Compact(vis, ts) == []
    decreases |ts|
  {
    if ts != [] {
      CompactNoneVisible(vis[..|ts| - 1], ts[..|ts| - 1]);
    }
  }

  /** The visibility flags of a sequence of children. */
  function Flags(cs: seq<Child?>): (r: seq<bool>)
    reads cs`visible
    requires forall i :: 0 <= i < |cs| ==> cs[i] != null
    ensures |r| == |cs| && forall i :: 0 <= i < |cs| ==> r[i] == cs[i].visible
  {
    if cs == [] then [] else [cs[0].visible] + Flags(cs[1..])
  }

  /** Flags reads only the children's visible fields: while those stay, so do the flags. */
  twostate lemma {:induction false} FlagsUnchanged(cs: seq<Child?>)
    requires forall i :: 0 <= i < |cs| ==> cs[i] != null && old(cs[i].visible) == cs[i].visible
    ensures old(Flags(cs)) == Flags(cs)
  {
    if cs != [] {
      FlagsUnchanged(cs[1..]);
    }
  }

  /** The number of chunks of at most BatchLimit instances that n instances need. */
  function Chunks(n: int): (c: nat)
    ensures n <= 0 ==> c == 0
    ensures n > 0 ==> (c - 1) * BatchLimit < n <= c * BatchLimit
  {
    if n <= 0 then 0 else 1 + Chunks(n - BatchLimit)
  }

  /** The size of chunk c of n instances: what is left after c full chunks, at most BatchLimit. */
  function ChunkSize(n: int, c: nat): (r: int)
    ensures c < Chunks(n) ==> 0 < r <= BatchLimit && c * BatchLimit + r <= n
    ensures c + 1 < Chunks(n) ==> r == BatchLimit
  {
    if n - c * BatchLimit < BatchLimit then n - c * BatchLimit else BatchLimit
  }

  /** The draw calls of the as-written Draw without culling: every chunk is read from slot 0. */
  function FromSlotZero(ts: seq<Matrix>, n: int): (r: seq<seq<Matrix>>)
    requires n <= |ts|
    ensures |r| == Chunks(n)
  {
    seq(Chunks(n), c requires 0 <= c < Chunks(n) => ts[..ChunkSize(n, c)])
  }

  /** Splits the instances into consecutive batches of BatchLimit, the last one shorter. */
  function Batches(s: seq<Matrix>): (r: seq<seq<Matrix>>)
    ensures forall i :: 0 <= i < |r| ==> 0 < |r[i]| <= BatchLimit
    decreases |s|
  {
    if s == [] then []
    else if |s| <= BatchLimit then [s]
    else [s[..BatchLimit]] + Batches(s[BatchLimit..])
  }

  /** The batches, drawn one after another, draw every instance once and in order. */
  lemma {:induction false} BatchesFlatten(s: seq<Matrix>)
    ensures Flatten(Batches(s)) == s
    decreases |s|
  {
    if s == [] {
    } else if |s| <= BatchLimit {
      assert Flatten([s]) == s + Flatten([]);
    } else {
      var r := Batches(s);
      BatchesFlatten(s[BatchLimit..]);
      assert r[1..] == Batches(s[BatchLimit..]);
      assert s == s[..BatchLimit] + s[BatchLimit..];
    }
  }

  /** Cuts the instances into the calls of at most BatchLimit each, front to back. */
  method BatchCalls(source: seq<Matrix>) returns (calls: seq<seq<Matrix>>)
    ensures calls == Batches(source)
  {
    calls := [];
    var index := 0;
    while index < |source|
      invariant 0 <= index <= |source|
      invariant calls + Batches(source[index..]) == Batches(source)
      decreases |source| - index
    {
      var renderCount := if |source| - index < BatchLimit then |source| - index else BatchLimit;
      var rest := source[index..];
      if |rest| <= BatchLimit {
        assert rest[..renderCount] == rest && rest[renderCount..] == [];
      }
      assert Batches(rest) == [rest[..renderCount]] + Batches(rest[renderCount..]);
      assert rest[renderCount..] == source[index + renderCount..];
      assert rest[..renderCount] == source[index..index + renderCount];
      calls := calls + [source[index..index + renderCount]];
      index := index + renderCount;
    }
    assert source[index..] == [];
  }

  /** Compacting one more transform appends it exactly when it is visible. */
  lemma CompactStep(vis: seq<bool>, ts: seq<Matrix>, k: int)
    requires |vis| == |ts| && 0 <= k < |ts|
    ensures Compact(vis[..k + 1], ts[..k + 1]) == Compact(vis[..k], ts[..k]) + (if vis[k] then [ts[k]] else [])
  {
    assert vis[..k + 1][..k] == vis[..k] && ts[..k + 1][..k] == ts[..k];
  }

  /** Copies the matrices of the visible children, in order, to the front of dst; n is how many. */
  method CompactInto(cs: seq<Child?>, ts: seq<Matrix>, dst: array<Matrix>) returns (n: int)
    requires |cs| == |ts| <= dst.Length && forall i :: 0 <= i < |cs| ==> cs[i] != null
    modifies dst
    ensures 0 <= n <= |ts| && dst[..n] == Compact(old(Flags(cs)), ts)
  {
    ghost var vis := Flags(cs);
    n := 0;
    var k := 0;
    while k < |cs|
      invariant 0 <= k <= |cs| && 0 <= n <= k
      invariant dst[..n] == Compact(vis[..k], ts[..k])
    {
      CompactStep(vis, ts, k);
      if cs[k].visible {
        ghost var before := dst[..n];
        dst[n] := ts[k];
        n := n + 1;
        assert dst[..n] == before + [ts[k]];
      }
      k := k + 1;
    }
    assert vis[..k] == vis && ts[..k] == ts;
  }

  /** The concatenation of the draw calls. */
  function Flatten(calls: seq<seq<Matrix>>): seq<Matrix>
  {
    if calls == [] then [] else calls[0] + Flatten(calls[1..])
  }

  /**
   * With 1024 instances the as-written calls draw the first 1023 and then
   * the first one again; the instance in slot 1023 is never drawn unless
   * its matrix equals the first one.
   */
  lemma SlotZeroSkipsLastInstance(ts: seq<Matrix>)
    requires |ts| == 1024 && ts[1023] != ts[0]
    ensures FromSlotZero(ts, 1024) == [ts[..1023], ts[..1]]
    ensures Flatten(FromSlotZero(ts, 1024)) != ts
  {
    assert Chunks(1024) == 2 by {
      assert Chunks(1024 - 2 * BatchLimit) == 0;
    }
    var r := FromSlotZero(ts, 1024);
    assert r[0] == ts[..1023] && r[1] == ts[..1];
    assert r == [ts[..1023], ts[..1]];
    assert Flatten(r) == ts[..1023] + ts[..1] by {
      assert r[1..] == [ts[..1]];
      assert Flatten(r[1..][1..]) == [];
    }
    assert Flatten(r)[1023] == ts[0];
  }

  /** Array.Resize to twice the length: the old entries are copied and the new ones hold fill. */
  method Doubled<T>(src: array<T>, fill: T) returns (dst: array<T>)
    ensures fresh(dst) && dst.Length == 2 * src.Length
    ensures dst[..src.Length] == src[..] && forall k :: 0 <= k < src.Length ==> dst[k] == src[k]
    ensures forall k :: src.Length <= k < dst.Length ==> dst[k] == fill
  {
    dst := new T[2 * src.Length](_ => fill);
    var i := 0;
    while i < src.Length
      invariant 0 <= i <= src.Length
      invariant dst[..i] == src[..i]
      invariant forall k :: src.Length <= k < dst.Length ==> dst[k] == fill
    {
      dst[i] := src[i];
      i := i + 1;
    }
  }

  // ---------------------------------------------------------------------
  // Children: one resource's dense child list

  class Children {
    var childArray: array<Child?>
    var sortedIndices: array<int>
    var transforms: array<Matrix>
    var sortedTransforms: array<Matrix>
    var hasVisibleStateChanged: bool
    var count: int
    var visibleCount: int

    /**
     * The four arrays have one length, which holds the count; slots below
     * count hold children and the rest are empty; sortedTransforms holds
     * visibleCount entries.
     */
    ghost predicate Valid()
      reads this`childArray, this`sortedIndices, this`transforms, this`sortedTransforms, this`count, this`visibleCount
    {
      && childArray.Length == sortedIndices.Length == transforms.Length == sortedTransforms.Length
      && 0 <= count <= childArray.Length && childArray.Length > 0
      && 0 <= visibleCount <= sortedTransforms.Length
      && transforms != sortedTransforms
    }

    ghost predicate Dense()
      reads this`count, this`childArray, childArray
    {
      && 0 <= count <= childArray.Length
      && (forall i :: 0 <= i < count ==> childArray[i] != null)
      && (forall i :: count <= i < childArray.Length ==> childArray[i] == null)
    }

    /** The children, in slot order. */
    ghost function Members(): seq<Child?>
      reads this`childArray, this`count, childArray
      requires 0 <= count <= childArray.Length
    {
      childArray[..count]
    }

    /** Every child's childrenID is its slot. */
    ghost predicate Indexed()
      reads this`childArray, this`count, childArray, childArray[..]`childrenID
      requires 0 <= count <= childArray.Length
    {
      forall i :: 0 <= i < count ==> childArray[i] != null && childArray[i].childrenID == i
    }

    constructor ()
      ensures Valid() && Dense() && count == 0 && visibleCount == 0 && !hasVisibleStateChanged
      ensures childArray.Length == 1 && fresh(childArray) && fresh(transforms) && fresh(sortedTransforms) && fresh(sortedIndices)
    {
      childArray := new Child?[1](_ => null);
      sortedIndices := new int[1](_ => 0);
      transforms := new Matrix[1](_ => []);
      sortedTransforms := new Matrix[1](_ => []);
      hasVisibleStateChanged := false;
      count := 0;
      visibleCount := 0;
    }

    /** Array.Resize on all four arrays to twice their length. */
    method Grow()
      requires Valid() && Dense() && childArray.Length > 0
      modifies this`childArray, this`sortedIndices, this`transforms, this`sortedTransforms
      ensures Valid() && Dense() && childArray.Length == 2 * old(childArray.Length)
      ensures fresh(childArray) && fresh(sortedIndices) && fresh(transforms) && fresh(sortedTransforms)
      ensures childArray[..count] == old(childArray[..count]) && transforms[..count] == old(transforms[..count])
      ensures sortedTransforms[..visibleCount] == old(sortedTransforms[..visibleCount])
      ensures old(Indexed()) ==> Indexed()
    {
      var n := childArray.Length;
      var s := Doubled(sortedIndices, 0);
      var t := Doubled(transforms, []);
      var u := Doubled(sortedTransforms, []);
      var a := Doubled(childArray, null);
      assert a[..count] == a[..n][..count];
      assert t[..count] == t[..n][..count];
      assert u[..visibleCount] == u[..n][..visibleCount];
      childArray, sortedIndices, transforms, sortedTransforms := a, s, t, u;
    }

    /**
     * Add: the arrays double when full, then the child takes slot count
     * with its matrix, its childrenID becomes that slot, count grows by one
     * and the visibility state is marked changed.
     */
    method Add(child: Child)
      requires Valid() && Dense()
      modifies this, childArray, transforms, child`childrenID
      ensures Valid() && Dense()
      ensures count == old(count) + 1 && hasVisibleStateChanged
      ensures Members() == old(Members()) + [child]
      ensures transforms[..count] == old(transforms[..count]) + [child.localToWorld]
      ensures child.childrenID == old(count)
      ensures childArray.Length == (if old(childArray.Length) <= old(count) then 2 * old(childArray.Length) else old(childArray.Length))
      ensures (childArray == old(childArray) || fresh(childArray)) && (transforms == old(transforms) || fresh(transforms))
      ensures sortedTransforms == old(sortedTransforms) || fresh(sortedTransforms)
      ensures visibleCount == old(visibleCount) && sortedTransforms[..visibleCount] == old(sortedTransforms[..visibleCount])
      ensures old(Indexed()) && old(child.childrenID) == -1 ==> Indexed()
    {
      if childArray.Length <= count {
        Grow();
      }
      Place(child);
    }

    /** Add's second half: the child takes the free slot count. */
    method Place(child: Child)
      requires Valid() && Dense() && count < childArray.Length
      modifies this`count, this`hasVisibleStateChanged, childArray, transforms, child`childrenID
      ensures Valid() && Dense()
      ensures count == old(count) + 1 && hasVisibleStateChanged
      ensures Members() == old(Members()) + [child]
      ensures transforms[..count] == old(transforms[..count]) + [child.localToWorld]
      ensures child.childrenID == old(count)
      ensures old(Indexed()) && old(child.childrenID) == -1 ==> Indexed()
    {
      ghost var linking := Indexed() && child.childrenID == -1;
      ghost var members := childArray[..count];
      ghost var ts := transforms[..count];
      assert linking ==> child !in members;
      transforms[count] := child.localToWorld;
      child.childrenID := count;
      count := count + 1;
      childArray[child.childrenID] := child;
      hasVisibleStateChanged := true;
      assert childArray[..count] == members + [child];
      assert transforms[..count] == ts + [child.localToWorld];
      if linking {
        forall i | 0 <= i < count - 1
          ensures childArray[i] != null && childArray[i].childrenID == i
        {
          assert childArray[i] == members[i] && old(members[i].childrenID) == i;
        }
      }
    }

    /**
     * RemoveAt: the last child and its matrix move into slot index, the
     * moved child's childrenID becomes index, the removed child's becomes
     * -1 (also when it was the last), the last slot is emptied and count
     * drops by one.
     */
    method RemoveAt(index: int)
      requires Valid() && Dense() && 0 <= index < count
      modifies this`count, this`hasVisibleStateChanged, childArray, transforms
      modifies {childArray[index], childArray[count - 1]}`childrenID
      ensures Valid() && Dense() && count == old(count) - 1 && hasVisibleStateChanged
      ensures Members() == old(Members())[index := old(childArray[count - 1])][..count]
      ensures transforms[..count] == old(transforms[..count])[index := old(transforms[count - 1])][..count]
      ensures old(childArray[index]).childrenID == -1
      ensures old(childArray[count - 1]) != old(childArray[index]) ==> old(childArray[count - 1]).childrenID == index
      ensures old(Indexed()) ==> Indexed() && old(childArray[index]) !in Members()
    {
      ghost var members := childArray[..count];
      ghost var ts := transforms[..count];
      ghost var wasIndexed := Indexed();
      ghost var removed := childArray[index];
      childArray[count - 1].childrenID := index;
      childArray[index].childrenID := -1;
      childArray[index] := childArray[count - 1];
      childArray[count - 1] := null;
      transforms[index] := transforms[count - 1];
      count := count - 1;
      hasVisibleStateChanged := true;
      assert childArray[..count] == members[index := members[count]][..count];
      assert transforms[..count] == ts[index := ts[count]][..count];
      if wasIndexed {
        forall i | 0 <= i < count
          ensures childArray[i] != null && childArray[i].childrenID == i && childArray[i] != removed
        {
          if i != index {
            assert childArray[i] == members[i];
            assert old(members[i].childrenID) == i;
            assert members[i] != members[count] && members[i] != removed;
          }
        }
        assert removed !in childArray[..count];
      }
    }

    /** UpdateTransform: the child's current matrix replaces the stored one. */
    method UpdateTransform(index: int)
      requires Valid() && Dense() && 0 <= index < count
      modifies this`hasVisibleStateChanged, transforms
      ensures Valid() && Dense() && hasVisibleStateChanged
      ensures transforms[..count] == old(transforms[..count])[index := childArray[index].localToWorld]
    {
      transforms[index] := childArray[index].localToWorld;
      hasVisibleStateChanged := true;
    }

    /** Copies the matrices of the visible children in [lo, hi), in order, to the front of sortedTransforms. */
    method CompactRange(lo: int, hi: int)
      requires Valid() && Dense() && 0 <= lo <= hi <= count
      modifies this`visibleCount, sortedTransforms
      ensures Valid() && Dense()
      ensures sortedTransforms[..visibleCount] == Compact(Flags(childArray[lo..hi]), transforms[lo..hi])
    {
      var cs, ts := childArray[lo..hi], transforms[lo..hi];
      visibleCount := CompactInto(cs, ts, sortedTransforms);
      FlagsUnchanged(cs);
      assert childArray[lo..hi] == cs && transforms[lo..hi] == ts;
    }

    /**
     * Draw as written: the children go out in chunks of at most
     * BatchLimit, but every call reads its matrices from slot 0. With
     * culling and a changed visibility state, the first chunk's visible
     * matrices are compacted and the state is marked unchanged, so every
     * chunk draws that same compacted list.
     */
    method Draw(cull: bool) returns (calls: seq<seq<Matrix>>)
      requires Valid() && Dense()
      modifies this`visibleCount, this`hasVisibleStateChanged, sortedTransforms
      ensures Valid() && Dense() && |calls| == Chunks(count)
      ensures !cull ==> calls == FromSlotZero(transforms[..], count)
      ensures cull ==> forall c :: 0 <= c < |calls| ==> calls[c] == sortedTransforms[..visibleCount]
      ensures cull && old(hasVisibleStateChanged) && count > 0 ==>
        var n := ChunkSize(count, 0);
        sortedTransforms[..visibleCount] == Compact(Flags(childArray[..n]), transforms[..n])
      ensures !(cull && old(hasVisibleStateChanged) && count > 0) ==>
        visibleCount == old(visibleCount) && sortedTransforms[..] == old(sortedTransforms[..])
      ensures hasVisibleStateChanged == (old(hasVisibleStateChanged) && !(cull && count > 0))
    {
      calls := [];
      if count <= 0 {
        return;
      }
      ghost var changed0, vc0, sorted0 := hasVisibleStateChanged, visibleCount, sortedTransforms[..];
      var index := 0;
      var c := 0;
      while index < count
        invariant Valid() && Dense()
        invariant index == c * BatchLimit && (c < Chunks(count) <==> index < count)
        invariant Drawn(cull, changed0, vc0, sorted0, c, calls)
        decreases count - index
      {
        calls := DrawChunk(cull, index, c, changed0, vc0, sorted0, calls);
        index := index + BatchLimit;
        c := c + 1;
      }
    }

    /** The state of Draw after c chunks, from the visibility flag, visibleCount and sortedTransforms it started with. */
    ghost predicate Drawn(cull: bool, changed0: bool, vc0: int, sorted0: seq<Matrix>, c: nat, calls: seq<seq<Matrix>>)
      reads this, childArray, childArray[..], transforms, sortedTransforms
      requires Valid() && Dense()
    {
      && c <= Chunks(count) && |calls| == c
      && (!cull ==> calls == FromSlotZero(transforms[..], count)[..c])
      && (cull ==> forall j :: 0 <= j < c ==> calls[j] == sortedTransforms[..visibleCount])
      && (c > 0 && cull && changed0 ==>
            var n := ChunkSize(count, 0);
            sortedTransforms[..visibleCount] == Compact(Flags(childArray[..n]), transforms[..n]))
      && (!(c > 0 && cull && changed0) ==> visibleCount == vc0 && sortedTransforms[..] == sorted0)
      && hasVisibleStateChanged == (changed0 && !(cull && c > 0))
    }

    /** One pass of Draw's loop: chunk c, starting at slot index. */
    method DrawChunk(cull: bool, index: int, c: nat, ghost changed0: bool, ghost vc0: int, ghost sorted0: seq<Matrix>,
                     calls: seq<seq<Matrix>>) returns (calls': seq<seq<Matrix>>)
      requires Valid() && Dense() && index == c * BatchLimit && index < count
      requires Drawn(cull, changed0, vc0, sorted0, c, calls)
      modifies this`visibleCount, this`hasVisibleStateChanged, sortedTransforms
      ensures Valid() && Dense() && Drawn(cull, changed0, vc0, sorted0, c + 1, calls')
    {
      var renderCount := if count - index < BatchLimit then count - index else BatchLimit;
      assert c < Chunks(count);
      assert renderCount == ChunkSize(count, c);
      if cull {
        calls' := DrawCulledChunk(index, renderCount, c, changed0, vc0, sorted0, calls);
      } else {
        calls' := calls + [transforms[..renderCount]];
      }
    }

    /** DrawChunk with culling on: the compaction runs only while the visibility state is marked changed. */
    method DrawCulledChunk(index: int, renderCount: int, c: nat, ghost changed0: bool, ghost vc0: int, ghost sorted0: seq<Matrix>,
                           calls: seq<seq<Matrix>>) returns (calls': seq<seq<Matrix>>)
      requires Valid() && Dense() && index == c * BatchLimit && index < count && renderCount == ChunkSize(count, c)
      requires Drawn(true, changed0, vc0, sorted0, c, calls)
      modifies this`visibleCount, this`hasVisibleStateChanged, sortedTransforms
      ensures Valid() && Dense() && Drawn(true, changed0, vc0, sorted0, c + 1, calls')
    {
      if hasVisibleStateChanged {
        hasVisibleStateChanged := false;
        CompactRange(index, index + renderCount);
      }
      calls' := calls + [sortedTransforms[..visibleCount]];
    }

    /**
     * The draw the chunking evidently intends: with culling and a changed
     * visibility state all visible matrices are compacted once; the
     * instances (compacted or not) then go out in consecutive batches of
     * at most BatchLimit, so each is drawn exactly once.
     */
    method DrawBatched(cull: bool) returns (calls: seq<seq<Matrix>>)
      requires Valid() && Dense()
      modifies this`visibleCount, this`hasVisibleStateChanged, sortedTransforms
      ensures Valid() && Dense()
      ensures calls == Batches(if cull then sortedTransforms[..visibleCount] else transforms[..count])
      ensures cull && old(hasVisibleStateChanged) ==>
        sortedTransforms[..visibleCount] == Compact(Flags(old(Members())), old(transforms[..count]))
      ensures !(cull && old(hasVisibleStateChanged)) ==>
        visibleCount == old(visibleCount) && sortedTransforms[..] == old(sortedTransforms[..])
      ensures hasVisibleStateChanged == (old(hasVisibleStateChanged) && !cull)
    {
      if cull && hasVisibleStateChanged {
        CompactAll();
      }
      var source := if cull then sortedTransforms[..visibleCount] else transforms[..count];
      calls := BatchCalls(source);
    }

    /** The compaction DrawBatched runs: every visible matrix, and the state marked unchanged. */
    method CompactAll()
      requires Valid() && Dense()
      modifies this`visibleCount, this`hasVisibleStateChanged, sortedTransforms
      ensures Valid() && Dense() && !hasVisibleStateChanged
      ensures sortedTransforms[..visibleCount] == Compact(Flags(old(Members())), old(transforms[..count]))
    {
      hasVisibleStateChanged := false;
      CompactRange(0, count);
      assert childArray[0..count] == Members() && transforms[0..count] == transforms[..count];
    }
  }

  // ---------------------------------------------------------------------
  // The renderer's registry: the groups per resource, the culling group's
  // list and every child's two ids, as one value

  /** A bounding sphere handed to the culling group; its value is only copied. */
  datatype Sphere = Sphere(position: seq<real>, radius: real)

  /** What the culling group reports for one sphere. */
  datatype CullingGroupEvent = CullingGroupEvent(index: int, isVisible: bool)

  /** One resource's Children: its children in slot order, their matrices and its changed flag. */
  datatype Group = Group(children: seq<Child>, transforms: seq<Matrix>, changed: bool)

  /**
   * The renderer: childDict as a map from resource to group, the first
   * boundingCount entries of boundingChildren and boundingSpheres, every
   * child's childrenID (cid) and boundingID (bid) and visibility, whether
   * the culling group exists and the sphere count last handed to it. A
   * child missing from cid or bid still holds the -1 it starts with.
   */
  datatype Registry = Registry(
    groups: map<int, Group>,
    bounding: seq<Child>,
    spheres: seq<Sphere>,
    cid: map<Child, int>,
    bid: map<Child, int>,
    visible: map<Child, bool>,
    hasCullingGroup: bool,
    cullingCount: int)

  /** The child's childrenID. */
  function ChildrenID(r: Registry, c: Child): int
  {
    if c in r.cid then r.cid[c] else -1
  }

  /** The child's boundingID. */
  function BoundingID(r: Registry, c: Child): int
  {
    if c in r.bid then r.bid[c] else -1
  }

  /** c's childrenID names its slot in the group of its resource. */
  ghost predicate InGroup(groups: map<int, Group>, cid: map<Child, int>, c: Child)
    requires c in cid
  {
    && c.resourceID in groups && 0 <= cid[c] < |groups[c.resourceID].children|
    && groups[c.resourceID].children[cid[c]] == c
  }

  /** Every child in the bounding list knows its slot there and sits in its group at its childrenID. */
  ghost predicate BoundLinks(groups: map<int, Group>, reg: seq<Child>, cid: map<Child, int>, bid: map<Child, int>)
  {
    forall i :: 0 <= i < |reg| ==>
      reg[i] in cid && reg[i] in bid && bid[reg[i]] == i && InGroup(groups, cid, reg[i])
  }

  /** Every group member belongs to the group's resource, knows its slot and sits in the bounding list at its boundingID. */
  ghost predicate GroupLinks(groups: map<int, Group>, reg: seq<Child>, cid: map<Child, int>, bid: map<Child, int>)
  {
    forall k, j :: k in groups && 0 <= j < |groups[k].children| ==>
      && groups[k].children[j].resourceID == k
      && groups[k].children[j] in cid && cid[groups[k].children[j]] == j
      && groups[k].children[j] in bid && 0 <= bid[groups[k].children[j]] < |reg|
      && reg[bid[groups[k].children[j]]] == groups[k].children[j]
  }

  /** A child whose childrenID is not -1 is in its group. */
  ghost predicate IdLinks(groups: map<int, Group>, cid: map<Child, int>)
  {
    forall c :: c in cid && cid[c] != -1 ==> InGroup(groups, cid, c)
  }

  ghost predicate Linked(groups: map<int, Group>, reg: seq<Child>, cid: map<Child, int>, bid: map<Child, int>)
  {
    BoundLinks(groups, reg, cid, bid) && GroupLinks(groups, reg, cid, bid) && IdLinks(groups, cid)
  }

  /**
   * The renderer's invariant: one sphere per registered child, the culling
   * group's count is boundingCount (nothing is registered before it
   * exists), one matrix per group member, and the ids link the groups and
   * the bounding list.
   */
  ghost predicate Valid(r: Registry)
  {
    && |r.spheres| == |r.bounding|
    && (r.hasCullingGroup ==> r.cullingCount == |r.bounding|)
    && (!r.hasCullingGroup ==> |r.bounding| == 0)
    && (forall k :: k in r.groups ==> |r.groups[k].transforms| == |r.groups[k].children|)
    && Linked(r.groups, r.bounding, r.cid, r.bid)
  }

  /** A new renderer: no groups, nothing registered, no culling group. */
  function Empty(): (r: Registry)
    ensures Valid(r) && r.bounding == [] && r.cid == map[] && !r.hasCullingGroup
  {
    Registry(map[], [], [], map[], map[], map[], false, 0)
  }

  /** A child whose childrenID is -1 is in no group and not in the bounding list. */
  lemma Unlinked(groups: map<int, Group>, reg: seq<Child>, cid: map<Child, int>, bid: map<Child, int>, c: Child)
    requires Linked(groups, reg, cid, bid) && (c in cid ==> cid[c] == -1)
    ensures c !in reg && forall k :: k in groups ==> c !in groups[k].children
  {
  }

  /** A registered child sits in its group and in the bounding list, at its two ids. */
  lemma Registered(r: Registry, c: Child)
    requires Valid(r) && ChildrenID(r, c) != -1
    ensures c.resourceID in r.groups && 0 <= r.cid[c] < |r.groups[c.resourceID].children|
    ensures r.groups[c.resourceID].children[r.cid[c]] == c
    ensures c in r.bid && 0 <= r.bid[c] < |r.bounding| && r.bounding[r.bid[c]] == c
  {
    assert InGroup(r.groups, r.cid, c);
  }

  /** The sphere of a registered child. */
  ghost function SphereOf(r: Registry, c: Child): Sphere
    requires Valid(r) && ChildrenID(r, c) != -1
  {
    Registered(r, c);
    r.spheres[r.bid[c]]
  }

  /** Changing only the groups' matrices or flags keeps the links. */
  lemma LinkedSameMembers(groups: map<int, Group>, groups': map<int, Group>, reg: seq<Child>, cid: map<Child, int>, bid: map<Child, int>)
    requires Linked(groups, reg, cid, bid)
    requires groups'.Keys == groups.Keys && forall k :: k in groups ==> groups'[k].children == groups[k].children
    ensures Linked(groups', reg, cid, bid)
  {
    forall c | c in cid && cid[c] != -1
      ensures InGroup(groups', cid, c)
    {
      assert InGroup(groups, cid, c);
    }
  }

  /** A new resource starts with an empty group. */
  lemma LinkedAddGroup(groups: map<int, Group>, reg: seq<Child>, cid: map<Child, int>, bid: map<Child, int>, k: int)
    requires Linked(groups, reg, cid, bid) && k !in groups
    ensures Linked(groups[k := Group([], [], false)], reg, cid, bid)
  {
    var groups' := groups[k := Group([], [], false)];
    forall c | c in cid && cid[c] != -1
      ensures InGroup(groups', cid, c)
    {
      assert InGroup(groups, cid, c);
    }
  }

  /**
   * The registering half of Join, for a child whose childrenID is -1:
   * Children.Add appends the child and its matrix to its group, with
   * childrenID the old count; the child and its sphere take bounding slot
   * boundingCount, which becomes its boundingID; the culling group is told
   * the new count.
   */
  function Register(r: Registry, c: Child, m: Matrix, s: Sphere): Registry
    requires c.resourceID in r.groups
  {
    var g := r.groups[c.resourceID];
    r.(groups := r.groups[c.resourceID := Group(g.children + [c], g.transforms + [m], true)],
       bounding := r.bounding + [c], spheres := r.spheres + [s],
       cid := r.cid[c := |g.children|], bid := r.bid[c := |r.bounding|],
       cullingCount := |r.bounding| + 1)
  }

  /** Registering a child whose childrenID is -1 keeps the links. */
  lemma {:induction false} LinkedRegister(r: Registry, c: Child, m: Matrix, s: Sphere)
    requires Linked(r.groups, r.bounding, r.cid, r.bid) && ChildrenID(r, c) == -1 && c.resourceID in r.groups
    ensures var q := Register(r, c, m, s); Linked(q.groups, q.bounding, q.cid, q.bid)
  {
    Unlinked(r.groups, r.bounding, r.cid, r.bid, c);
    var q := Register(r, c, m, s);
    var k := c.resourceID;
    forall i | 0 <= i < |q.bounding|
      ensures q.bounding[i] in q.cid && q.bounding[i] in q.bid && q.bid[q.bounding[i]] == i && InGroup(q.groups, q.cid, q.bounding[i])
    {
      if i < |r.bounding| {
        assert q.bounding[i] == r.bounding[i] != c && InGroup(r.groups, r.cid, r.bounding[i]);
      }
    }
    forall k2, j | k2 in q.groups && 0 <= j < |q.groups[k2].children|
      ensures && q.groups[k2].children[j].resourceID == k2
              && q.groups[k2].children[j] in q.cid && q.cid[q.groups[k2].children[j]] == j
              && q.groups[k2].children[j] in q.bid && 0 <= q.bid[q.groups[k2].children[j]] < |q.bounding|
              && q.bounding[q.bid[q.groups[k2].children[j]]] == q.groups[k2].children[j]
    {
      if k2 != k || j < |r.groups[k].children| {
        assert q.groups[k2].children[j] == r.groups[k2].children[j] != c;
      }
    }
    forall d | d in q.cid && q.cid[d] != -1
      ensures InGroup(q.groups, q.cid, d)
    {
      if d != c {
        assert InGroup(r.groups, r.cid, d);
      }
    }
  }

  /**
   * The first steps of Join for a child with mesh and material: its
   * resource gets an empty group if it has none, and the culling group is
   * created, with count 0, if missing.
   */
  function Prepare(r: Registry, c: Child): (p: Registry)
    ensures c.resourceID in p.groups && p.hasCullingGroup
    ensures forall k :: k in r.groups ==> k in p.groups && p.groups[k] == r.groups[k]
    ensures c.resourceID !in r.groups ==> p.groups == r.groups[c.resourceID := Group([], [], false)]
    ensures c.resourceID in r.groups ==> p.groups == r.groups
    ensures p.bounding == r.bounding && p.spheres == r.spheres && p.cid == r.cid && p.bid == r.bid && p.visible == r.visible
    ensures r.hasCullingGroup ==> p.cullingCount == r.cullingCount
    ensures !r.hasCullingGroup ==> p.cullingCount == 0
  {
    var r1 := if c.resourceID in r.groups then r else r.(groups := r.groups[c.resourceID := Group([], [], false)]);
    if r1.hasCullingGroup then r1 else r1.(hasCullingGroup := true, cullingCount := 0)
  }

  /** Adding an empty group and creating the culling group keep the invariant. */
  lemma PrepareValid(r: Registry, c: Child)
    requires Valid(r)
    ensures Valid(Prepare(r, c))
  {
    if c.resourceID !in r.groups {
      LinkedAddGroup(r.groups, r.bounding, r.cid, r.bid, c.resourceID);
    }
  }

  /** Registering a child whose childrenID is -1 keeps the invariant once its group and the culling group exist. */
  lemma RegisterValid(r: Registry, c: Child, m: Matrix, s: Sphere)
    requires Valid(r) && r.hasCullingGroup && c.resourceID in r.groups && ChildrenID(r, c) == -1
    ensures Valid(Register(r, c, m, s))
  {
    LinkedRegister(r, c, m, s);
  }

  /**
   * Join: a child without mesh or material is ignored. Otherwise its
   * resource gets an empty group if it has none and the culling group is
   * created if missing; a child whose childrenID is -1 is registered, and
   * a registered one only has its sphere refreshed.
   */
  function Join(r: Registry, c: Child, m: Matrix, s: Sphere): (r': Registry)
    requires Valid(r)
    ensures !c.hasResources ==> r' == r
    ensures c.hasResources ==> c.resourceID in r'.groups && r'.hasCullingGroup && ChildrenID(r', c) != -1
    ensures c.hasResources && ChildrenID(r, c) == -1 ==>
      && r'.bounding == r.bounding + [c] && r'.spheres == r.spheres + [s] && BoundingID(r', c) == |r.bounding|
      && r'.groups[c.resourceID].children == (if c.resourceID in r.groups then r.groups[c.resourceID].children else []) + [c]
    ensures c.hasResources && ChildrenID(r, c) != -1 ==>
      && r'.groups == r.groups && r'.bounding == r.bounding && r'.cid == r.cid && r'.bid == r.bid
      && c in r.bid && 0 <= r.bid[c] < |r.spheres| && r'.spheres == r.spheres[r.bid[c] := s]
  {
    if !c.hasResources then r
    else
      var p := Prepare(r, c);
      if ChildrenID(p, c) == -1 then Register(p, c, m, s)
      else
        Registered(r, c);
        p.(spheres := p.spheres[p.bid[c] := s])
  }

  /** Join keeps the invariant. */
  lemma JoinValid(r: Registry, c: Child, m: Matrix, s: Sphere)
    requires Valid(r)
    ensures Valid(Join(r, c, m, s))
  {
    if c.hasResources {
      PrepareValid(r, c);
      var p := Prepare(r, c);
      if ChildrenID(p, c) == -1 {
        RegisterValid(p, c, m, s);
      } else {
        Registered(p, c);
        LinkedSameMembers(p.groups, p.groups, p.bounding, p.cid, p.bid);
      }
    }
  }

  /** Join leaves every other child's ids and sphere as they were. */
  lemma JoinKeepsOthers(r: Registry, c: Child, m: Matrix, s: Sphere, d: Child)
    requires Valid(r) && d != c
    ensures var q := Join(r, c, m, s);
      && ChildrenID(q, d) == ChildrenID(r, d) && BoundingID(q, d) == BoundingID(r, d)
      && (ChildrenID(r, d) != -1 ==> Valid(q) && SphereOf(q, d) == SphereOf(r, d))
  {
    JoinKeepsIds(r, c, m, s, d);
    if ChildrenID(r, d) != -1 {
      JoinValid(r, c, m, s);
      if c.hasResources {
        JoinKeepsSphere(r, c, m, s, d);
      }
    }
  }

  /** The ids half of JoinKeepsOthers. */
  lemma JoinKeepsIds(r: Registry, c: Child, m: Matrix, s: Sphere, d: Child)
    requires Valid(r) && d != c
    ensures ChildrenID(Join(r, c, m, s), d) == ChildrenID(r, d) && BoundingID(Join(r, c, m, s), d) == BoundingID(r, d)
  {
  }

  /** The sphere half of JoinKeepsOthers. */
  lemma JoinKeepsSphere(r: Registry, c: Child, m: Matrix, s: Sphere, d: Child)
    requires Valid(r) && d != c && c.hasResources && ChildrenID(r, d) != -1 && Valid(Join(r, c, m, s))
    ensures ChildrenID(Join(r, c, m, s), d) != -1 && SphereOf(Join(r, c, m, s), d) == SphereOf(r, d)
  {
    Registered(r, d);
    if ChildrenID(r, c) != -1 {
      Registered(r, c);
      assert r.bounding[r.bid[c]] == c;
    }
  }

  /** Moving the last element into slot i and dropping the last slot removes s[i] and nothing else. */
  lemma SwapRemoveMultiset<T>(s: seq<T>, i: int)
    requires 0 <= i < |s|
    ensures multiset(s[i := s[|s| - 1]][..|s| - 1]) == multiset(s) - multiset{s[i]}
  {
    var n := |s| - 1;
    if i == n {
      assert s == s[..n] + [s[n]];
      assert s[i := s[n]] == s;
    } else {
      assert s[i := s[n]][..n] == s[..i] + [s[n]] + s[i + 1..n];
      assert s == s[..i] + [s[i]] + s[i + 1..n] + [s[n]];
    }
  }

  /**
   * Quit: nothing happens for a child of an unknown resource or with
   * childrenID -1. Otherwise Children.RemoveAt moves the group's last
   * child and matrix into the child's slot (the moved child's childrenID
   * becomes that slot, the child's becomes -1); the last bounding entry
   * and its sphere move into the child's bounding slot (the moved child's
   * boundingID becomes that slot); boundingCount drops by one and an
   * existing culling group is told the new count. The child keeps its
   * boundingID.
   */
  function Quit(r: Registry, c: Child): (r': Registry)
    requires Valid(r)
    ensures c.resourceID !in r.groups || ChildrenID(r, c) == -1 ==> r' == r
  {
    if c.resourceID !in r.groups || ChildrenID(r, c) == -1 then r
    else
      Registered(r, c);
      var k, i, b := c.resourceID, r.cid[c], r.bid[c];
      var g := r.groups[k];
      var last, n := |g.children| - 1, |r.bounding| - 1;
      var moved, movedB := g.children[last], r.bounding[n];
      r.(groups := r.groups[k := Group(g.children[i := moved][..last], g.transforms[i := g.transforms[last]][..last], true)],
         cid := r.cid[moved := i][c := -1],
         bounding := r.bounding[b := movedB][..n],
         spheres := r.spheres[b := r.spheres[n]][..n],
         bid := r.bid[movedB := b],
         cullingCount := if r.hasCullingGroup then n else r.cullingCount)
  }

  /** Quit keeps every other registered child in its group, at its new childrenID. */
  lemma QuitKeepsInGroup(r: Registry, c: Child, d: Child)
    requires Valid(r) && ChildrenID(r, c) != -1 && d != c && ChildrenID(r, d) != -1
    ensures var q := Quit(r, c); d in q.cid && q.cid[d] != -1 && InGroup(q.groups, q.cid, d)
  {
    Registered(r, c);
    Registered(r, d);
    var k, i := c.resourceID, r.cid[c];
    var g := r.groups[k].children;
    var last := |g| - 1;
    var q := Quit(r, c);
    assert g[last].resourceID == k;
    if d == g[last] {
      assert q.cid[d] == i && q.groups[k].children[i] == d;
    } else if d.resourceID == k {
      assert q.cid[d] == r.cid[d] && q.groups[k].children[r.cid[d]] == g[r.cid[d]];
    } else {
      assert q.cid[d] == r.cid[d] && q.groups[d.resourceID] == r.groups[d.resourceID];
    }
  }

  lemma QuitBoundLinks(r: Registry, c: Child)
    requires Valid(r) && ChildrenID(r, c) != -1
    ensures var q := Quit(r, c); BoundLinks(q.groups, q.bounding, q.cid, q.bid)
  {
    Registered(r, c);
    var q := Quit(r, c);
    var b, n := r.bid[c], |r.bounding| - 1;
    forall p | 0 <= p < |q.bounding|
      ensures q.bounding[p] in q.cid && q.bounding[p] in q.bid && q.bid[q.bounding[p]] == p && InGroup(q.groups, q.cid, q.bounding[p])
    {
      var d := q.bounding[p];
      assert d == if p == b then r.bounding[n] else r.bounding[p];
      assert InGroup(r.groups, r.cid, d) && r.bid[d] != b;
      QuitKeepsInGroup(r, c, d);
    }
  }

  lemma QuitGroupLinks(r: Registry, c: Child)
    requires Valid(r) && ChildrenID(r, c) != -1
    ensures var q := Quit(r, c); GroupLinks(q.groups, q.bounding, q.cid, q.bid)
  {
    Registered(r, c);
    var q := Quit(r, c);
    var k, i, b := c.resourceID, r.cid[c], r.bid[c];
    var g := r.groups[k].children;
    var last, n := |g| - 1, |r.bounding| - 1;
    forall k2, j | k2 in q.groups && 0 <= j < |q.groups[k2].children|
      ensures && q.groups[k2].children[j].resourceID == k2
              && q.groups[k2].children[j] in q.cid && q.cid[q.groups[k2].children[j]] == j
              && q.groups[k2].children[j] in q.bid && 0 <= q.bid[q.groups[k2].children[j]] < |q.bounding|
              && q.bounding[q.bid[q.groups[k2].children[j]]] == q.groups[k2].children[j]
    {
      var e := q.groups[k2].children[j];
      if k2 == k {
        assert e == if j == i then g[last] else g[j];
      } else {
        assert e == r.groups[k2].children[j];
      }
      assert e != c;
      assert r.bounding[r.bid[e]] == e && r.bid[e] != b;
    }
  }

  lemma QuitIdLinks(r: Registry, c: Child)
    requires Valid(r) && ChildrenID(r, c) != -1
    ensures var q := Quit(r, c); IdLinks(q.groups, q.cid)
  {
    Registered(r, c);
    var q := Quit(r, c);
    var g := r.groups[c.resourceID].children;
    assert r.cid[g[|g| - 1]] == |g| - 1;
    forall d | d in q.cid && q.cid[d] != -1
      ensures InGroup(q.groups, q.cid, d)
    {
      QuitKeepsInGroup(r, c, d);
    }
  }

  /** Quit keeps the invariant. */
  lemma QuitValid(r: Registry, c: Child)
    requires Valid(r)
    ensures Valid(Quit(r, c))
  {
    if c.resourceID in r.groups && ChildrenID(r, c) != -1 {
      QuitBoundLinks(r, c);
      QuitGroupLinks(r, c);
      QuitIdLinks(r, c);
    }
  }

  /** After Quit the child is unregistered: childrenID -1, in no group and not in the bounding list. */
  lemma QuitUnregisters(r: Registry, c: Child)
    requires Valid(r)
    ensures var q := Quit(r, c);
      && ChildrenID(q, c) == -1 && c !in q.bounding && forall k :: k in q.groups ==> c !in q.groups[k].children
  {
    QuitValid(r, c);
    var q := Quit(r, c);
    Unlinked(q.groups, q.bounding, q.cid, q.bid, c);
  }

  /**
   * Quitting a registered child removes exactly that child from the
   * bounding list and from its group, and leaves the other groups alone.
   */
  lemma QuitRemovesOne(r: Registry, c: Child)
    requires Valid(r) && ChildrenID(r, c) != -1
    ensures var q := Quit(r, c);
      && c.resourceID in r.groups && c.resourceID in q.groups && q.groups.Keys == r.groups.Keys
      && multiset(q.bounding) == multiset(r.bounding) - multiset{c}
      && multiset(q.groups[c.resourceID].children) == multiset(r.groups[c.resourceID].children) - multiset{c}
      && forall k :: k in r.groups && k != c.resourceID ==> q.groups[k] == r.groups[k]
  {
    Registered(r, c);
    SwapRemoveMultiset(r.bounding, r.bid[c]);
    SwapRemoveMultiset(r.groups[c.resourceID].children, r.cid[c]);
  }

  /** Quit leaves every other registered child registered, with its sphere. */
  lemma QuitKeepsOthers(r: Registry, c: Child, d: Child)
    requires Valid(r) && d != c && ChildrenID(r, d) != -1
    ensures var q := Quit(r, c); Valid(q) && ChildrenID(q, d) != -1 && SphereOf(q, d) == SphereOf(r, d)
  {
    QuitValid(r, c);
    if c.resourceID in r.groups && ChildrenID(r, c) != -1 {
      QuitKeepsInGroup(r, c, d);
      Registered(r, c);
      Registered(r, d);
      var n := |r.bounding| - 1;
      assert r.bid[r.bounding[n]] == n;
    }
  }

  /** Quitting the child that was registered last just drops the last entries. */
  lemma QuitLast(r: Registry, c: Child)
    requires Valid(r) && ChildrenID(r, c) != -1
    requires r.cid[c] == |r.groups[c.resourceID].children| - 1 && r.bid[c] == |r.bounding| - 1
    ensures var q, g := Quit(r, c), r.groups[c.resourceID];
      && q.bounding == r.bounding[..|r.bounding| - 1] && q.spheres == r.spheres[..|r.bounding| - 1]
      && q.groups == r.groups[c.resourceID := Group(g.children[..r.cid[c]], g.transforms[..r.cid[c]], true)]
      && q.cid == r.cid[c := -1]
  {
    Registered(r, c);
    var g, n := r.groups[c.resourceID], |r.bounding| - 1;
    assert g.children[r.cid[c] := g.children[r.cid[c]]] == g.children;
    assert g.transforms[r.cid[c] := g.transforms[r.cid[c]]] == g.transforms;
    assert r.bounding[n := r.bounding[n]] == r.bounding && r.spheres[n := r.spheres[n]] == r.spheres;
  }

  /** The shape of Join for a child whose childrenID is -1. */
  lemma JoinUnregistered(r: Registry, c: Child, m: Matrix, s: Sphere)
    requires Valid(r) && c.hasResources && ChildrenID(r, c) == -1
    ensures var j, g := Join(r, c, m, s), if c.resourceID in r.groups then r.groups[c.resourceID] else Group([], [], false);
      && j.groups == r.groups[c.resourceID := Group(g.children + [c], g.transforms + [m], true)]
      && j.bounding == r.bounding + [c] && j.spheres == r.spheres + [s]
      && j.cid == r.cid[c := |g.children|] && j.bid == r.bid[c := |r.bounding|]
  {
  }

  /** Appending to the lists and the id maps and then dropping the appended entries gives back what was there. */
  lemma UndoAppend(r: Registry, j: Registry, q: Registry, c: Child, g: Group, m: Matrix, s: Sphere)
    requires |r.spheres| == |r.bounding| && (c in r.cid ==> r.cid[c] == -1)
    requires c.resourceID in r.groups ==> g == r.groups[c.resourceID]
    requires j.groups == r.groups[c.resourceID := Group(g.children + [c], g.transforms + [m], true)]
    requires j.bounding == r.bounding + [c] && j.spheres == r.spheres + [s] && j.cid == r.cid[c := |g.children|]
    requires q.bounding == j.bounding[..|j.bounding| - 1] && q.spheres == j.spheres[..|j.bounding| - 1]
    requires q.groups == j.groups[c.resourceID := Group(g.children, g.transforms, true)]
    requires q.cid == j.cid[c := -1]
    ensures && q.bounding == r.bounding && q.spheres == r.spheres
            && (forall k :: k in r.groups ==>
                  k in q.groups && q.groups[k].children == r.groups[k].children && q.groups[k].transforms == r.groups[k].transforms)
            && forall d: Child :: ChildrenID(q, d) == ChildrenID(r, d)
  {
    assert j.bounding[..|j.bounding| - 1] == r.bounding;
  }

  /** Joining an unregistered child and quitting it again restores the bounding list, the spheres, the groups and every childrenID. */
  lemma JoinQuitRoundTrip(r: Registry, c: Child, m: Matrix, s: Sphere)
    requires Valid(r) && c.hasResources && ChildrenID(r, c) == -1
    ensures var j := Join(r, c, m, s); Valid(j) && var q := Quit(j, c);
      && q.bounding == r.bounding && q.spheres == r.spheres
      && (forall k :: k in r.groups ==>
            k in q.groups && q.groups[k].children == r.groups[k].children && q.groups[k].transforms == r.groups[k].transforms)
      && forall d: Child :: ChildrenID(q, d) == ChildrenID(r, d)
  {
    JoinValid(r, c, m, s);
    JoinUnregistered(r, c, m, s);
    var j := Join(r, c, m, s);
    var g := if c.resourceID in r.groups then r.groups[c.resourceID] else Group([], [], false);
    assert (g.children + [c])[..|g.children|] == g.children;
    assert (g.transforms + [m])[..|g.children|] == g.transforms;
    QuitLast(j, c);
    UndoAppend(r, j, Quit(j, c), c, g, m, s);
  }

  /**
   * UpdateTransform: nothing happens for a child whose childrenID is -1.
   * Otherwise its sphere is refreshed and Children.UpdateTransform stores
   * its current matrix at its slot and marks the group changed.
   */
  function UpdateTransform(r: Registry, c: Child, m: Matrix, s: Sphere): (r': Registry)
    requires Valid(r)
    ensures ChildrenID(r, c) == -1 ==> r' == r
  {
    if ChildrenID(r, c) == -1 then r
    else
      Registered(r, c);
      var g := r.groups[c.resourceID];
      r.(spheres := r.spheres[r.bid[c] := s],
         groups := r.groups[c.resourceID := g.(transforms := g.transforms[r.cid[c] := m], changed := true)])
  }

  /**
   * UpdateTransform keeps the invariant and the registrations; a
   * registered child gets the new sphere and matrix, and every other
   * child keeps its sphere.
   */
  lemma UpdateTransformEffect(r: Registry, c: Child, m: Matrix, s: Sphere)
    requires Valid(r)
    ensures var q := UpdateTransform(r, c, m, s);
      && Valid(q) && q.bounding == r.bounding && q.cid == r.cid && q.bid == r.bid
      && (ChildrenID(r, c) != -1 ==>
            && SphereOf(q, c) == s && q.groups[c.resourceID].transforms[r.cid[c]] == m
            && forall d :: d != c && ChildrenID(r, d) != -1 ==> SphereOf(q, d) == SphereOf(r, d))
  {
    var q := UpdateTransform(r, c, m, s);
    if ChildrenID(r, c) != -1 {
      Registered(r, c);
      LinkedSameMembers(r.groups, q.groups, r.bounding, r.cid, r.bid);
      forall d | d != c && ChildrenID(r, d) != -1
        ensures SphereOf(q, d) == SphereOf(r, d)
      {
        Registered(r, d);
      }
    }
  }

  /**
   * OnVisibleStateChanged: an event for an index at or past
   * boundingCount is ignored; otherwise the child in that bounding slot
   * takes the reported visibility and its group is marked changed.
   */
  function OnVisibleStateChanged(r: Registry, e: CullingGroupEvent): (r': Registry)
    requires Valid(r) && e.index >= 0
    ensures e.index >= |r.bounding| ==> r' == r
  {
    if e.index >= |r.bounding| then r
    else
      var c := r.bounding[e.index];
      assert InGroup(r.groups, r.cid, c);
      var g := r.groups[c.resourceID];
      r.(groups := r.groups[c.resourceID := g.(changed := true)], visible := r.visible[c := e.isVisible])
  }

  /** OnVisibleStateChanged keeps the invariant; the reported child's visibility and its group's flag are set. */
  lemma OnVisibleStateChangedEffect(r: Registry, e: CullingGroupEvent)
    requires Valid(r) && e.index >= 0
    ensures var q := OnVisibleStateChanged(r, e);
      && Valid(q) && q.bounding == r.bounding && q.cid == r.cid && q.bid == r.bid && q.spheres == r.spheres
      && (e.index < |r.bounding| ==>
            var c := r.bounding[e.index];
            c.resourceID in q.groups && q.groups[c.resourceID].changed && c in q.visible && q.visible[c] == e.isVisible)
  {
    var q := OnVisibleStateChanged(r, e);
    if e.index < |r.bounding| {
      LinkedSameMembers(r.groups, q.groups, r.bounding, r.cid, r.bid);
    }
  }
}
