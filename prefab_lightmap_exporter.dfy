// PrefabLightmapExporter: packs the scene's lightmaps into square atlases.
// PackTextures places the textures largest-area first, each at the candidate
// corner where it fits with the least overflow, and keeps the candidate list
// up to date; the atlas side is the smallest power of two whose square holds
// the (capped) total area. Pixel copying, EXR encoding and the asset import
// settings are not part of this model.
module PrefabLightmap {
  import opened Wrappers

  /**
   * A texture by identity (`id`) and size; equal values stand for the same
   * Texture2D object, which is what List.IndexOf compares.
   */
  datatype Texture = Texture(id: nat, width: nat, height: nat)

  /** A candidate corner. The source keeps it as a float vector whose coordinates are always whole pixels. */
  datatype Point = Point(x: int, y: int)

  /** A placement in pixels; the source divides it by the atlas size to get a UV rect. */
  datatype Rect = Rect(x: int, y: int, width: int, height: int)

  const Origin := Point(0, 0)
  const EmptyRect := Rect(0, 0, 0, 0)

  function Area(t: Texture): nat
  {
    t.width * t.height
  }

  // ---------------------------------------------------------------------
  // The sort by area

  /** Non-increasing area, the order the area comparison asks for. */
  predicate ByArea(s: seq<Texture>)
  {
    forall i, j :: 0 <= i < j < |s| ==> Area(s[i]) >= Area(s[j])
  }

  /** Inserts `t` in front of the first texture with a smaller area. */
  function Insert(t: Texture, s: seq<Texture>): seq<Texture>
  {
    if s == [] || Area(s[0]) < Area(t) then [t] + s
    else [s[0]] + Insert(t, s[1..])
  }

  lemma {:induction false} InsertPermutes(t: Texture, s: seq<Texture>)
    ensures multiset(Insert(t, s)) == multiset(s) + multiset{t}
  {
    if !(s == [] || Area(s[0]) < Area(t)) {
      InsertPermutes(t, s[1..]);
      assert s == [s[0]] + s[1..];
    }
  }

  lemma {:induction false} InsertMembers(t: Texture, s: seq<Texture>)
    ensures forall u :: u in Insert(t, s) ==> u == t || u in s
  {
    if !(s == [] || Area(s[0]) < Area(t)) {
      InsertMembers(t, s[1..]);
    }
  }

  /** Everything after the head of an area-ordered sequence is no larger than it. */
  lemma HeadLargest(s: seq<Texture>, u: Texture)
    requires ByArea(s) && s != [] && u in s[1..]
    ensures Area(u) <= Area(s[0])
  {
    var k :| 0 <= k < |s[1..]| && s[1..][k] == u;
    assert s[k + 1] == u;
  }

  lemma {:induction false} InsertByArea(t: Texture, s: seq<Texture>)
    requires ByArea(s)
    ensures ByArea(Insert(t, s))
  {
    if !(s == [] || Area(s[0]) < Area(t)) {
      var rest := Insert(t, s[1..]);
      InsertByArea(t, s[1..]);
      InsertMembers(t, s[1..]);
      var r := [s[0]] + rest;
      forall i, j | 0 <= i < j < |r| ensures Area(r[i]) >= Area(r[j])
      {
        assert r[j] == rest[j - 1];
        if i > 0 {
          assert r[i] == rest[i - 1];
        } else if rest[j - 1] != t {
          HeadLargest(s, rest[j - 1]);
        }
      }
    }
  }

  /**
   * One order Array.Sort may produce with the comparer `areaB - areaA`; the
   * library sort is not stable, so textures of equal area may come out in
   * another order there.
   */
  function SortByArea(s: seq<Texture>): seq<Texture>
  {
    if s == [] then [] else Insert(s[0], SortByArea(s[1..]))
  }

  lemma {:induction false} SortByAreaPermutes(s: seq<Texture>)
    ensures multiset(SortByArea(s)) == multiset(s)
  {
    if s != [] {
      SortByAreaPermutes(s[1..]);
      InsertPermutes(s[0], SortByArea(s[1..]));
      assert s == [s[0]] + s[1..];
    }
  }

  lemma {:induction false} SortByAreaSorted(s: seq<Texture>)
    ensures ByArea(SortByArea(s))
  {
    if s != [] {
      SortByAreaSorted(s[1..]);
      InsertByArea(s[0], SortByArea(s[1..]));
    }
  }

  // ---------------------------------------------------------------------
  // Choosing a corner

  /** The texture stays inside the atlas when its corner is at `p`. */
  predicate Fits(p: Point, width: int, height: int, atlasWidth: int, atlasHeight: int)
  {
    p.x + width - atlasWidth <= 0 && p.y + height - atlasHeight <= 0
  }

  /** The sum of the two overhangs `xLeft + yLeft`, never positive for a corner that fits. */
  function Cost(p: Point, width: int, height: int, atlasWidth: int, atlasHeight: int): int
  {
    (p.x + width - atlasWidth) + (p.y + height - atlasHeight)
  }

  /**
   * The corner the scan over the candidates keeps: the cheapest one that
   * fits, a later one winning a tie; none when nothing fits.
   */
  function Choose(ps: seq<Point>, w: int, h: int, aw: int, ah: int): (r: Option<nat>)
    ensures r.Some? ==> r.value < |ps| && Fits(ps[r.value], w, h, aw, ah)
    ensures r.Some? ==> forall j :: 0 <= j < |ps| && Fits(ps[j], w, h, aw, ah) ==>
      Cost(ps[r.value], w, h, aw, ah) <= Cost(ps[j], w, h, aw, ah)
    ensures r.Some? ==> forall j :: r.value < j < |ps| && Fits(ps[j], w, h, aw, ah) ==>
      Cost(ps[r.value], w, h, aw, ah) < Cost(ps[j], w, h, aw, ah)
    ensures r.None? <==> forall j :: 0 <= j < |ps| ==> !Fits(ps[j], w, h, aw, ah)
  {
    if ps == [] then None
    else
      var n := |ps| - 1;
      var r := Choose(ps[..n], w, h, aw, ah);
      if !Fits(ps[n], w, h, aw, ah) then r
      else if r.None? || Cost(ps[r.value], w, h, aw, ah) >= Cost(ps[n], w, h, aw, ah) then Some(n)
      else r
  }

  /** The corner a texture goes to: the chosen candidate, or the origin when nothing fits. */
  function Chosen(ps: seq<Point>, w: int, h: int, aw: int, ah: int): Point
  {
    match Choose(ps, w, h, aw, ah)
    case None => Origin
    case Some(k) => ps[k]
  }

  /** `s` with every copy of `x` removed, the rest in order. */
  function Without(s: seq<Point>, x: Point): seq<Point>
  {
    if s == [] then []
    else
      Without(s[..|s| - 1], x) + (if s[|s| - 1] == x then [] else [s[|s| - 1]])
  }

  // ---------------------------------------------------------------------
  // The packing, step by step

  /** What the loop carries: the candidate corners, the last offset and every offset so far. */
  datatype Packing = Packing(points: seq<Point>, offset: Point, offsets: seq<Point>)

  /**
   * Placing texture `t`. A texture placed while the candidate list is empty
   * keeps the previous offset (the origin, for the first one); otherwise it
   * takes the chosen corner and every copy of that corner leaves the list.
   * Each placement adds the corners above it and to its right.
   */
  function Step(s: Packing, t: Texture, aw: int, ah: int): Packing
  {
    var offset := if |s.points| > 0 then Chosen(s.points, t.width, t.height, aw, ah) else s.offset;
    var kept := if |s.points| > 0 then Without(s.points, offset) else s.points;
    Packing(
      kept + [Point(offset.x, offset.y + t.height), Point(offset.x + t.width, offset.y)],
      offset,
      s.offsets + [offset])
  }

  /** The loop's state after placing `sorted` in order. */
  function Packed(aw: int, ah: int, sorted: seq<Texture>): (r: Packing)
    ensures |r.offsets| == |sorted|
    ensures sorted != [] ==> |r.points| >= 2
  {
    if sorted == [] then Packing([], Origin, [])
    else Step(Packed(aw, ah, sorted[..|sorted| - 1]), sorted[|sorted| - 1], aw, ah)
  }

  lemma {:induction false} PackedPrefix(aw: int, ah: int, sorted: seq<Texture>, n: nat)
    requires n <= |sorted|
    ensures Packed(aw, ah, sorted[..n]).offsets == Packed(aw, ah, sorted).offsets[..n]
    decreases |sorted|
  {
    if n < |sorted| {
      var m := |sorted| - 1;
      assert sorted[..m][..n] == sorted[..n];
      PackedPrefix(aw, ah, sorted[..m], n);
    } else {
      assert sorted[..n] == sorted;
    }
  }

  /** The first texture goes to the origin. */
  lemma PackedFirstAtOrigin(aw: int, ah: int, sorted: seq<Texture>)
    requires sorted != []
    ensures Packed(aw, ah, sorted).offsets[0] == Origin
  {
    PackedPrefix(aw, ah, sorted, 1);
    assert sorted[..1][..0] == [];
  }

  /**
   * Every later texture goes to the corner Choose picks among at least two
   * candidates (the cheapest fitting one, a later one winning a tie), or to
   * the origin when none fits.
   */
  lemma PackedLater(aw: int, ah: int, sorted: seq<Texture>, i: nat)
    requires 0 < i < |sorted|
    ensures |Packed(aw, ah, sorted[..i]).points| >= 2
    ensures Packed(aw, ah, sorted).offsets[i] == Chosen(Packed(aw, ah, sorted[..i]).points, sorted[i].width, sorted[i].height, aw, ah)
  {
    PackedPrefix(aw, ah, sorted, i + 1);
    assert sorted[..i + 1][..i] == sorted[..i];
  }

  /**
   * A placement made with candidates about keeps exactly the candidates
   * other than its corner, in order, followed by the corner above it and
   * the corner to its right.
   */
  lemma PackedCandidates(aw: int, ah: int, sorted: seq<Texture>)
    requires sorted != []
    requires Packed(aw, ah, sorted[..|sorted| - 1]).points != []
    ensures var before := Packed(aw, ah, sorted[..|sorted| - 1]).points;
      var r := Packed(aw, ah, sorted);
      var t := sorted[|sorted| - 1];
      var n := |r.points| - 2;
      && (forall y :: y in r.points[..n] <==> y in before && y != r.offset)
      && r.points[n..] == [Point(r.offset.x, r.offset.y + t.height), Point(r.offset.x + t.width, r.offset.y)]
  {
    var before := Packed(aw, ah, sorted[..|sorted| - 1]).points;
    var r := Packed(aw, ah, sorted);
    assert r.points[..|r.points| - 2] == Without(before, r.offset);
    WithoutMembers(before, r.offset);
  }

  lemma {:induction false} WithoutMembers(s: seq<Point>, x: Point)
    ensures forall y :: y in Without(s, x) <==> y in s && y != x
  {
    if s != [] {
      var n := |s| - 1;
      WithoutMembers(s[..n], x);
      assert s == s[..n] + [s[n]];
    }
  }

  // ---------------------------------------------------------------------
  // Where the rects go

  /** The position of the first `x` in `s`, as List.IndexOf returns it. */
  function IndexOf(s: seq<Texture>, x: Texture): (r: nat)
    requires x in s
    ensures r < |s| && s[r] == x
    ensures forall j :: 0 <= j < r ==> s[j] != x
  {
    if s[0] == x then 0 else 1 + IndexOf(s[1..], x)
  }

  /** The rect array after writing, in order, each placed texture's rect at its IndexOf position. */
  function Rects(textures: seq<Texture>, sorted: seq<Texture>, offsets: seq<Point>): (r: seq<Rect>)
    requires |offsets| == |sorted|
    requires forall t :: t in sorted ==> t in textures
    ensures |r| == |textures|
  {
    if sorted == [] then seq(|textures|, _ => EmptyRect)
    else
      var n := |sorted| - 1;
      var t := sorted[n];
      Rects(textures, sorted[..n], offsets[..n])[IndexOf(textures, t) := Rect(offsets[n].x, offsets[n].y, t.width, t.height)]
  }

  /** The position of the last `x` in `s`. */
  function LastIndexOf(s: seq<Texture>, x: Texture): (r: nat)
    requires x in s
    ensures r < |s| && s[r] == x
    ensures forall m :: r < m < |s| ==> s[m] != x
  {
    var n := |s| - 1;
    if s[n] == x then n
    else
      assert x in s[..n] by {
        var k :| 0 <= k < |s| && s[k] == x;
        assert s[..n][k] == x;
      }
      LastIndexOf(s[..n], x)
  }

  /**
   * A position holding a repeat of an earlier texture keeps the empty rect;
   * a first occurrence holds the rect of that texture's last placement, or
   * the empty rect when it was never placed.
   */
  lemma {:induction false} RectsMeaning(textures: seq<Texture>, sorted: seq<Texture>, offsets: seq<Point>, k: nat)
    requires |offsets| == |sorted|
    requires forall t :: t in sorted ==> t in textures
    requires k < |textures|
    ensures IndexOf(textures, textures[k]) != k ==> Rects(textures, sorted, offsets)[k] == EmptyRect
    ensures textures[k] !in sorted ==> Rects(textures, sorted, offsets)[k] == EmptyRect
    ensures IndexOf(textures, textures[k]) == k && textures[k] in sorted ==>
      var j := LastIndexOf(sorted, textures[k]);
      Rects(textures, sorted, offsets)[k] == Rect(offsets[j].x, offsets[j].y, sorted[j].width, sorted[j].height)
  {
    if sorted != [] {
      var n := |sorted| - 1;
      var t := sorted[n];
      assert forall u :: u in sorted[..n] ==> u in sorted;
      RectsMeaning(textures, sorted[..n], offsets[..n], k);
      if t != textures[k] {
        if textures[k] in sorted {
          assert sorted == sorted[..n] + [t];
          assert textures[k] in sorted[..n];
        }
      }
    }
  }

  /** The rects PackTextures returns for `textures` in an atlas of the given size. */
  function PackedRects(aw: int, ah: int, textures: seq<Texture>): (r: seq<Rect>)
    ensures |r| == |textures|
  {
    var sorted := SortByArea(textures);
    SortByAreaMembers(textures);
    Rects(textures, sorted, Packed(aw, ah, sorted).offsets)
  }

  lemma SortByAreaMembers(s: seq<Texture>)
    ensures forall t :: t in SortByArea(s) <==> t in s
  {
    SortByAreaPermutes(s);
    forall t ensures t in SortByArea(s) <==> t in s {
      assert t in SortByArea(s) <==> t in multiset(SortByArea(s));
      assert t in s <==> t in multiset(s);
    }
  }

  // ---------------------------------------------------------------------
  // The packer

  /**
   * The scan over the candidates with its running minimum, and the origin
   * when no candidate fits.
   */
  method BestPoint(points: seq<Point>, width: int, height: int, atlasWidth: int, atlasHeight: int)
    returns (best: Point)
    ensures best == Chosen(points, width, height, atlasWidth, atlasHeight)
  {
    var found := false;
    var minCost := 0;
    var minCostPoint := Origin;
    ghost var at := 0;
    var k := 0;
    while k < |points|
      invariant 0 <= k <= |points|
      invariant found <==> Choose(points[..k], width, height, atlasWidth, atlasHeight).Some?
      invariant found ==> at == Choose(points[..k], width, height, atlasWidth, atlasHeight).value
      invariant found ==> at < k && minCostPoint == points[at]
      invariant found ==> minCost == Cost(minCostPoint, width, height, atlasWidth, atlasHeight)
      invariant !found ==> minCostPoint == Origin
    {
      var point := points[k];
      assert points[..k + 1][..k] == points[..k];
      var xLeft := point.x + width - atlasWidth;
      var yLeft := point.y + height - atlasHeight;
      if !(xLeft > 0 || yLeft > 0) {
        if !found || minCost >= xLeft + yLeft {
          minCost := xLeft + yLeft;
          minCostPoint := point;
          at := k;
          found := true;
        }
      }
      k := k + 1;
    }
    assert points[..k] == points;
    best := minCostPoint;
  }

  /** The removal loop that steps back after each removal. */
  method RemoveCopies(points: seq<Point>, offset: Point) returns (kept: seq<Point>)
    ensures kept == Without(points, offset)
  {
    kept := points;
    ghost var j := 0;
    var k := 0;
    while k < |kept|
      invariant 0 <= k <= |kept| && 0 <= j <= |points|
      invariant kept[..k] == Without(points[..j], offset)
      invariant kept[k..] == points[j..]
      decreases |kept| - k
    {
      assert points[..j + 1][..j] == points[..j];
      assert points[j] == kept[k];
      if kept[k] == offset {
        kept := kept[..k] + kept[k + 1..];
        k := k - 1;
      }
      k := k + 1;
      j := j + 1;
    }
    assert points[..j] == points;
  }

  /** One turn of the placement loop, in terms of the state before it. */
  lemma PackStep(aw: int, ah: int, textures: seq<Texture>, sorted: seq<Texture>, i: nat)
    requires i < |sorted|
    requires forall t :: t in sorted ==> t in textures
    ensures Packed(aw, ah, sorted[..i + 1]) == Step(Packed(aw, ah, sorted[..i]), sorted[i], aw, ah)
    ensures var after := Packed(aw, ah, sorted[..i + 1]);
      Rects(textures, sorted[..i + 1], after.offsets)
      == Rects(textures, sorted[..i], Packed(aw, ah, sorted[..i]).offsets)
           [IndexOf(textures, sorted[i]) := Rect(after.offset.x, after.offset.y, sorted[i].width, sorted[i].height)]
  {
    var prefix := sorted[..i + 1];
    assert prefix[..|prefix| - 1] == sorted[..i] && prefix[|prefix| - 1] == sorted[i];
    var before := Packed(aw, ah, sorted[..i]);
    var after := Packed(aw, ah, prefix);
    assert after.offsets == before.offsets + [after.offset];
    assert after.offsets[..i] == before.offsets;
  }

  /** The body of the placement loop for texture `t`, from the loop state `before`. */
  method PlaceNext(atlasWidth: int, atlasHeight: int, textures: seq<Texture>, t: Texture,
                   points0: seq<Point>, offset0: Point, rects: array<Rect>, ghost before: Packing)
    returns (points: seq<Point>, offset: Point)
    requires t in textures && rects.Length == |textures|
    requires points0 == before.points && offset0 == before.offset
    modifies rects
    ensures points == Step(before, t, atlasWidth, atlasHeight).points
    ensures offset == Step(before, t, atlasWidth, atlasHeight).offset
    ensures rects[..] == old(rects[..])[IndexOf(textures, t) := Rect(offset.x, offset.y, t.width, t.height)]
  {
    points, offset := points0, offset0;
    var width := t.width;
    var height := t.height;
    if |points| > 0 {
      offset := BestPoint(points, width, height, atlasWidth, atlasHeight);
      points := RemoveCopies(points, offset);
    }
    var index := IndexOf(textures, t);
    rects[index] := Rect(offset.x, offset.y, width, height);
    points := points + [Point(offset.x, offset.y + height)];
    points := points + [Point(offset.x + width, offset.y)];
  }

  /**
   * PackTextures: one rect per input position, written at the IndexOf
   * position of each texture as it is placed in area order.
   */
  method PackTextures(atlasWidth: int, atlasHeight: int, textures: seq<Texture>) returns (rects: array<Rect>)
    ensures fresh(rects)
    ensures rects[..] == PackedRects(atlasWidth, atlasHeight, textures)
  {
    var offset := Origin;
    rects := new Rect[|textures|](_ => EmptyRect);
    var textureSort := SortByArea(textures);
    SortByAreaMembers(textures);
    var points := [];
    var i := 0;
    while i < |textureSort|
      invariant 0 <= i <= |textureSort|
      invariant rects.Length == |textures|
      invariant points == Packed(atlasWidth, atlasHeight, textureSort[..i]).points
      invariant offset == Packed(atlasWidth, atlasHeight, textureSort[..i]).offset
      invariant rects[..] == Rects(textures, textureSort[..i], Packed(atlasWidth, atlasHeight, textureSort[..i]).offsets)
    {
      PackStep(atlasWidth, atlasHeight, textures, textureSort, i);
      points, offset := PlaceNext(atlasWidth, atlasHeight, textures, textureSort[i], points, offset, rects,
                                  Packed(atlasWidth, atlasHeight, textureSort[..i]));
      i := i + 1;
    }
    assert textureSort[..i] == textureSort;
  }

  // ---------------------------------------------------------------------
  // Atlas size

  predicate IsPowerOfTwo(n: nat)
    decreases n
  {
    n == 1 || (n >= 2 && n % 2 == 0 && IsPowerOfTwo(n / 2))
  }

  /** The smallest power of two whose square is at least `area`. */
  function SideFor(area: nat): (p: nat)
    ensures IsPowerOfTwo(p)
    ensures p * p >= area
    ensures p == 1 || (p / 2) * (p / 2) < area
    decreases area
  {
    if area <= 1 then 1
    else
      var q := SideFor((area + 3) / 4);
      SideStep(area, q);
      2 * q
  }

  /** Doubling the side for a quarter of the area gives the side for the whole area. */
  lemma SideStep(area: nat, q: nat)
    requires area >= 2 && IsPowerOfTwo(q)
    requires q * q >= (area + 3) / 4
    requires q == 1 || (q / 2) * (q / 2) < (area + 3) / 4
    ensures IsPowerOfTwo(2 * q) && (2 * q) / 2 == q
    ensures (2 * q) * (2 * q) >= area
    ensures q * q < area
  {
    assert (2 * q) * (2 * q) == 4 * (q * q);
    if q != 1 {
      var r := q / 2;
      assert q == 2 * r;
      assert q * q == 4 * (r * r);
    }
  }

  /**
   * The atlas side for a batch of lightmaps with total `area`: the area is
   * capped at `maxAtlasSize` squared and the side is 2 to the ceiling of
   * log2 of its square root, which is 0 (two to minus infinity) for an empty
   * area.
   */
  function AtlasSize(area: nat, maxAtlasSize: nat): (size: nat)
    ensures var capped := if area < maxAtlasSize * maxAtlasSize then area else maxAtlasSize * maxAtlasSize;
      && (capped == 0 ==> size == 0)
      && (capped > 0 ==> IsPowerOfTwo(size) && size * size >= capped && (size == 1 || (size / 2) * (size / 2) < capped))
  {
    var capped := if area < maxAtlasSize * maxAtlasSize then area else maxAtlasSize * maxAtlasSize;
    if capped == 0 then 0 else SideFor(capped)
  }

  /** When the cap is itself a power of two the atlas never exceeds it. */
  lemma AtlasSizeCapped(area: nat, maxAtlasSize: nat)
    requires IsPowerOfTwo(maxAtlasSize)
    ensures AtlasSize(area, maxAtlasSize) <= maxAtlasSize
  {
    var size := AtlasSize(area, maxAtlasSize);
    if size > maxAtlasSize {
      PowersOfTwoBelow(size, maxAtlasSize);
      SquareMonotone(size / 2, maxAtlasSize);
    }
  }

  lemma SquareMonotone(a: nat, b: nat)
    requires a >= b
    ensures a * a >= b * b
  {
    assert a * a - b * b == (a - b) * (a + b);
  }

  lemma {:induction false} PowersOfTwoBelow(a: nat, b: nat)
    requires IsPowerOfTwo(a) && IsPowerOfTwo(b) && a > b
    ensures a >= 2 && a / 2 >= b
    decreases a
  {
    if b > 1 {
      PowersOfTwoBelow(a / 2, b / 2);
    }
  }
}
