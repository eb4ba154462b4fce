// The per-particle part of the job-system bake of a UIParticle: where the
// custom vertex streams land in the texture coordinates, which texture-sheet
// tile a particle shows, and which vertex and index slots one run of the
// mesh job and of the index job writes. A particle's colour enters the
// model as a value it carries; vertex positions and rotations, which come
// from floating-point transforms, are not modelled, nor is the vertex
// position array.
module UIParticleMesh {
  import opened Wrappers

  // ---------------------------------------------------------------------
  // Vectors

  /** A Vector4, as its four components. */
  type Vec4 = v: seq<real> | |v| == 4 witness [0.0, 0.0, 0.0, 0.0]

  const Zero4: Vec4 := [0.0, 0.0, 0.0, 0.0]

  datatype Color = Color(r: real, g: real, b: real, a: real)

  datatype Uv = Uv(x: real, y: real)

  // ---------------------------------------------------------------------
  // C# integer and float remainder and division (truncating toward zero)

  function CsDiv(a: int, b: int): (q: int)
    requires b > 0
    ensures a >= 0 ==> q == a / b
    ensures a < 0 ==> q == -((-a) / b)
  {
    if a >= 0 then a / b else -((-a) / b)
  }

  function CsRem(a: int, b: int): (r: int)
    requires b > 0
    ensures a == b * CsDiv(a, b) + r
    ensures a >= 0 ==> 0 <= r < b
    ensures a < 0 ==> -b < r <= 0
  {
    a - b * CsDiv(a, b)
  }

  // ---------------------------------------------------------------------
  // Custom vertex streams

  /** A ParticleSystemVertexStream, by its position in the stream-length table. */
  type StreamKind = k: nat | k < 46

  /** A stream fills at most one four-component vector. */
  type ChannelCount = n: nat | n <= 4

  /** How many texture-coordinate channels each stream kind takes. */
  const StreamLengths: seq<ChannelCount> :=
    [0, 0, 0, 0, 2, 2, 2, 2, 1, 1, 3, 1, 1, 2, 3, 1, 3, 1, 3, 3, 1, 1, 1, 1, 2, 3, 4, 1, 2, 3, 4, 1, 2, 3, 4, 1, 2, 3, 4, 1, 2, 3, 1, 2, 3, 1]

  /**
   * The first and last custom-data streams, as Unity's ParticleSystemVertexStream
   * numbers them: Custom1X..Custom1XYZW and Custom2X..Custom2XYZW. The kinds
   * 23..26 and 27..30 before them are StableRandomX..XYZW and VaryingRandomX..XYZW.
   */
  const Custom1X: StreamKind := 31
  const Custom1XYZW: StreamKind := 34
  const Custom2X: StreamKind := 35
  const Custom2XYZW: StreamKind := 38

  /** CustomVertexStreams: where each custom-data stream's channels start and end. */
  datatype CustomVertexStreams = CustomVertexStreams(
    custom1Active: bool,
    custom1ChannelStart: int,
    custom1ChannelEnd: int,
    custom2Active: bool,
    custom2ChannelStart: int,
    custom2ChannelEnd: int)

  /** An active custom channel spans at most the four components of one vector. */
  predicate Valid(c: CustomVertexStreams)
  {
    && (c.custom1Active ==> 0 <= c.custom1ChannelStart <= c.custom1ChannelEnd <= c.custom1ChannelStart + 4)
    && (c.custom2Active ==> 0 <= c.custom2ChannelStart <= c.custom2ChannelEnd <= c.custom2ChannelStart + 4)
  }

  /** The channels taken by the streams before the end of `streams`. */
  function Offset(streams: seq<StreamKind>): nat
  {
    if streams == [] then 0
    else Offset(streams[..|streams| - 1]) + StreamLengths[streams[|streams| - 1]]
  }

  /** The last position whose stream kind lies in [lo, hi], if any. */
  function LastOfKind(streams: seq<StreamKind>, lo: nat, hi: nat): (r: Option<nat>)
    ensures r.Some? ==> r.value < |streams| && lo <= streams[r.value] <= hi
    ensures r.Some? ==> forall j :: r.value < j < |streams| ==> !(lo <= streams[j] <= hi)
    ensures r.None? <==> forall j :: 0 <= j < |streams| ==> !(lo <= streams[j] <= hi)
  {
    if streams == [] then None
    else if lo <= streams[|streams| - 1] <= hi then Some(|streams| - 1)
    else LastOfKind(streams[..|streams| - 1], lo, hi)
  }

  /** The streams' layout after CopyFrom has scanned `streams`; inactive channels keep `prev`'s bounds. */
  function Layout(prev: CustomVertexStreams, streams: seq<StreamKind>): CustomVertexStreams
  {
    if streams == [] then prev.(custom1Active := false, custom2Active := false)
    else
      var n := |streams| - 1;
      var r := Layout(prev, streams[..n]);
      var s := streams[n];
      var offset := Offset(streams[..n]);
      var length := StreamLengths[s];
      var r1 := if Custom1X <= s <= Custom1XYZW
        then r.(custom1Active := true, custom1ChannelStart := offset, custom1ChannelEnd := offset + length)
        else r;
      if Custom2X <= s <= Custom2XYZW
      then r1.(custom2Active := true, custom2ChannelStart := offset, custom2ChannelEnd := offset + length)
      else r1
  }

  /**
   * A custom stream is active exactly when the list holds a stream of its
   * kind; the last such stream decides the channels, which start after all
   * preceding streams and span that stream's length.
   */
  lemma {:induction false} LayoutMeaning(prev: CustomVertexStreams, streams: seq<StreamKind>)
    ensures var r := Layout(prev, streams);
      var k1 := LastOfKind(streams, Custom1X, Custom1XYZW);
      var k2 := LastOfKind(streams, Custom2X, Custom2XYZW);
      && (r.custom1Active <==> k1.Some?)
      && (k1.Some? ==>
            && r.custom1ChannelStart == Offset(streams[..k1.value])
            && r.custom1ChannelEnd == r.custom1ChannelStart + StreamLengths[streams[k1.value]])
      && (k1.None? ==> r.custom1ChannelStart == prev.custom1ChannelStart && r.custom1ChannelEnd == prev.custom1ChannelEnd)
      && (r.custom2Active <==> k2.Some?)
      && (k2.Some? ==>
            && r.custom2ChannelStart == Offset(streams[..k2.value])
            && r.custom2ChannelEnd == r.custom2ChannelStart + StreamLengths[streams[k2.value]])
      && (k2.None? ==> r.custom2ChannelStart == prev.custom2ChannelStart && r.custom2ChannelEnd == prev.custom2ChannelEnd)
  {
    if streams != [] {
      var n := |streams| - 1;
      LayoutMeaning(prev, streams[..n]);
      var k1 := LastOfKind(streams[..n], Custom1X, Custom1XYZW);
      var k2 := LastOfKind(streams[..n], Custom2X, Custom2XYZW);
      if k1.Some? {
        assert streams[..n][..k1.value] == streams[..k1.value];
      }
      if k2.Some? {
        assert streams[..n][..k2.value] == streams[..k2.value];
      }
    }
  }

  /** CopyFrom always leaves a layout GetTexcoord can use. */
  lemma {:induction false} LayoutValid(prev: CustomVertexStreams, streams: seq<StreamKind>)
    ensures Valid(Layout(prev, streams))
  {
    if streams != [] {
      LayoutValid(prev, streams[..|streams| - 1]);
    }
  }

  /**
   * A lone Custom1X stream takes channel 0 alone and a lone Custom2XYZW stream
   * channels 0..3, while a StableRandomX or VaryingRandomX stream activates neither.
   */
  lemma {:induction false} CustomStreamKinds(prev: CustomVertexStreams)
    ensures var r := Layout(prev, [31]);
      r.custom1Active && r.custom1ChannelStart == 0 && r.custom1ChannelEnd == 1 && !r.custom2Active
    ensures var r := Layout(prev, [38]);
      r.custom2Active && r.custom2ChannelStart == 0 && r.custom2ChannelEnd == 4 && !r.custom1Active
    ensures !Layout(prev, [23]).custom1Active && !Layout(prev, [23]).custom2Active
    ensures !Layout(prev, [27]).custom1Active && !Layout(prev, [27]).custom2Active
  {
    var one: seq<StreamKind> := [31];
    assert one[..0] == [];
    var four: seq<StreamKind> := [38];
    assert four[..0] == [];
    var stable: seq<StreamKind> := [23];
    assert stable[..0] == [];
    var varying: seq<StreamKind> := [27];
    assert varying[..0] == [];
  }

  /** CustomVertexStreams.CopyFrom: one pass over the active streams, accumulating the channel offset. */
  method CopyFrom(prev: CustomVertexStreams, streams: seq<StreamKind>) returns (r: CustomVertexStreams)
    ensures r == Layout(prev, streams)
    ensures Valid(r)
  {
    var offset: nat := 0;
    r := prev.(custom1Active := false, custom2Active := false);
    var i := 0;
    while i < |streams|
      invariant 0 <= i <= |streams|
      invariant offset == Offset(streams[..i])
      invariant r == Layout(prev, streams[..i])
    {
      assert streams[..i + 1][..i] == streams[..i];
      var length: nat := StreamLengths[streams[i]];
      if Custom1X <= streams[i] <= Custom1XYZW {
        r := r.(custom1Active := true, custom1ChannelStart := offset, custom1ChannelEnd := offset + length);
      }
      if Custom2X <= streams[i] <= Custom2XYZW {
        r := r.(custom2Active := true, custom2ChannelStart := offset, custom2ChannelEnd := offset + length);
      }
      offset := offset + length;
      i := i + 1;
    }
    assert streams[..i] == streams;
    LayoutValid(prev, streams);
  }

  function Clamp(value: int, min: int, max: int): int
  {
    if value < min then min else if value > max then max else value
  }

  function Min(a: int, b: int): int { if a < b then a else b }

  function Max(a: int, b: int): int { if a < b then b else a }

  /** Channel `channel` lies in an active custom stream's [start, end). */
  predicate Covers(active: bool, start: int, end: int, channel: int)
  {
    active && start <= channel < end
  }

  /**
   * Component `i` of a texture coordinate whose first channel is
   * `texcoordStart`: custom2's value when its stream covers the channel,
   * otherwise custom1's, otherwise the incoming component.
   */
  function Component(c: CustomVertexStreams, v: Vec4, texcoordStart: int, custom1: Vec4, custom2: Vec4, i: nat): real
    requires Valid(c) && i < 4
  {
    var channel := texcoordStart + i;
    if Covers(c.custom2Active, c.custom2ChannelStart, c.custom2ChannelEnd, channel) then custom2[channel - c.custom2ChannelStart]
    else if Covers(c.custom1Active, c.custom1ChannelStart, c.custom1ChannelEnd, channel) then custom1[channel - c.custom1ChannelStart]
    else v[i]
  }

  /** Copies one custom vector into the components of `v` its channels cover. */
  method CopyChannels(v: Vec4, texcoordStart: int, channelStart: int, channelEnd: int, custom: Vec4) returns (r: Vec4)
    requires channelStart <= channelEnd <= channelStart + 4
    ensures forall i :: 0 <= i < 4 ==>
      r[i] == if channelStart <= texcoordStart + i < channelEnd then custom[texcoordStart + i - channelStart] else v[i]
  {
    var start := Clamp(channelStart - texcoordStart, 0, 4);
    var end := Min(channelEnd - texcoordStart, 4);
    var offset := Max(texcoordStart - channelStart, 0);
    r := v;
    var i := start;
    while i < end
      invariant start <= i <= 4 && (start < end ==> i <= end)
      invariant forall j :: 0 <= j < 4 ==>
        r[j] == if j < i && channelStart <= texcoordStart + j < channelEnd then custom[texcoordStart + j - channelStart] else v[j]
    {
      ChannelWindow(texcoordStart, channelStart, channelEnd, i);
      r := r[i := custom[i - start + offset]];
      i := i + 1;
    }
    forall j | 0 <= j < 4
      ensures r[j] == if channelStart <= texcoordStart + j < channelEnd then custom[texcoordStart + j - channelStart] else v[j]
    {
      ChannelWindow(texcoordStart, channelStart, channelEnd, j);
    }
  }

  /** GetTexcoord's loop bounds pick out exactly the components whose channel the stream covers. */
  lemma ChannelWindow(texcoordStart: int, channelStart: int, channelEnd: int, j: int)
    requires channelStart <= channelEnd <= channelStart + 4 && 0 <= j < 4
    ensures var start := Clamp(channelStart - texcoordStart, 0, 4);
      var end := Min(channelEnd - texcoordStart, 4);
      && (start <= j < end <==> channelStart <= texcoordStart + j < channelEnd)
      && (start <= j < end ==> j - start + Max(texcoordStart - channelStart, 0) == texcoordStart + j - channelStart)
  {
  }

  /** GetTexcoord: custom1's channels, then custom2's, written over `v`. */
  method GetTexcoord(c: CustomVertexStreams, v: Vec4, texcoordStart: int, custom1: Vec4, custom2: Vec4) returns (r: Vec4)
    requires Valid(c)
    ensures forall i :: 0 <= i < 4 ==> r[i] == Component(c, v, texcoordStart, custom1, custom2, i)
  {
    r := v;
    if c.custom1Active {
      r := CopyChannels(r, texcoordStart, c.custom1ChannelStart, c.custom1ChannelEnd, custom1);
    }
    if c.custom2Active {
      r := CopyChannels(r, texcoordStart, c.custom2ChannelStart, c.custom2ChannelEnd, custom2);
    }
  }


  /**
   * For a layout built by CopyFrom, channel `ch` of the texture
   * coordinates shows custom1's component `ch - start` exactly when the last
   * Custom1 stream covers it and no Custom2 stream does.
   */
  lemma {:induction false} ComponentFromLayout(prev: CustomVertexStreams, streams: seq<StreamKind>,
                                               v: Vec4, texcoordStart: int, custom1: Vec4, custom2: Vec4, i: nat)
    requires i < 4
    ensures Valid(Layout(prev, streams))
    ensures var r := Layout(prev, streams);
      var k1 := LastOfKind(streams, Custom1X, Custom1XYZW);
      var k2 := LastOfKind(streams, Custom2X, Custom2XYZW);
      var ch := texcoordStart + i;
      var in1 := k1.Some? && Offset(streams[..k1.value]) <= ch < Offset(streams[..k1.value]) + StreamLengths[streams[k1.value]];
      var in2 := k2.Some? && Offset(streams[..k2.value]) <= ch < Offset(streams[..k2.value]) + StreamLengths[streams[k2.value]];
      Component(r, v, texcoordStart, custom1, custom2, i)
        == if in2 then custom2[ch - Offset(streams[..k2.value])]
           else if in1 then custom1[ch - Offset(streams[..k1.value])]
           else v[i]
  {
    LayoutValid(prev, streams);
    LayoutMeaning(prev, streams);
  }

  // ---------------------------------------------------------------------
  // Texture-sheet animation tiles

  datatype RowMode = Custom | Random | MeshIndex

  /** What GetOffset reads of the TextureSheetAnimation module. */
  datatype TextureSheet = TextureSheet(
    enabled: bool,
    numTilesX: int,
    numTilesY: int,
    wholeSheet: bool,
    rowMode: RowMode,
    rowIndex: int)

  /** The engine keeps both tile counts at least one. */
  predicate SheetValid(s: TextureSheet)
  {
    s.numTilesX >= 1 && s.numTilesY >= 1
  }

  /** [startTile, endTile): the whole sheet, or one row of it; `randomRow` is the random row draw. */
  function TileRange(s: TextureSheet, randomRow: int): (int, int)
  {
    if s.wholeSheet then (0, s.numTilesX * s.numTilesY)
    else
      var startTile := match s.rowMode
        case Custom => s.rowIndex * s.numTilesX
        case Random => randomRow * s.numTilesX
        case MeshIndex => 0;
      (startTile, startTile + s.numTilesX)
  }

  /**
   * The tile GetOffset selects. `frame` is the truncated time-mode value
   * (lifetime curve, speed or frames per second) and `startTileOffset` the
   * truncated start-frame term; both are computed from floats by the engine.
   */
  function Tile(s: TextureSheet, randomRow: int, frame: int, startTileOffset: int): (tile: int)
    requires SheetValid(s)
  {
    var (startTile, endTile) := TileRange(s, randomRow);
    TileCountPositive(s, randomRow);
    startTile + CsRem(frame + startTileOffset, endTile - startTile)
  }

  lemma TileCountPositive(s: TextureSheet, randomRow: int)
    requires SheetValid(s)
    ensures TileRange(s, randomRow).1 - TileRange(s, randomRow).0 >= 1
  {
    if s.wholeSheet {
      PositiveProduct(s.numTilesX, s.numTilesY);
    }
  }

  lemma PositiveProduct(a: int, b: int)
    requires a >= 1 && b >= 1
    ensures a * b >= 1
  {
  }

  /**
   * The whole sheet spans nx·ny tiles and a row nx; the tile lands inside
   * the range when the frame sum is not negative, and C#'s truncating `%`
   * puts it at or before the range start otherwise.
   */
  lemma TileInRange(s: TextureSheet, randomRow: int, frame: int, startTileOffset: int)
    requires SheetValid(s)
    ensures var (startTile, endTile) := TileRange(s, randomRow);
      && (s.wholeSheet ==> startTile == 0 && endTile - startTile == s.numTilesX * s.numTilesY)
      && (!s.wholeSheet ==> endTile - startTile == s.numTilesX)
      && (frame + startTileOffset >= 0 ==> startTile <= Tile(s, randomRow, frame, startTileOffset) < endTile)
      && (frame + startTileOffset < 0 ==> startTile - (endTile - startTile) < Tile(s, randomRow, frame, startTileOffset) <= startTile)
  {
    TileCountPositive(s, randomRow);
  }

  /** The row a sheet animation draws from lies on the sheet. */
  predicate RowOnSheet(s: TextureSheet, randomRow: int)
  {
    s.wholeSheet
    || (s.rowMode == Custom && 0 <= s.rowIndex < s.numTilesY)
    || (s.rowMode == Random && 0 <= randomRow < s.numTilesY)
    || s.rowMode == MeshIndex
  }

  lemma RowTiles(row: int, nx: int, ny: int, t: int)
    requires nx >= 1 && 0 <= row < ny && row * nx <= t < row * nx + nx
    ensures 0 <= t < nx * ny
  {
    assert row * nx + nx == (row + 1) * nx;
    assert (row + 1) * nx <= ny * nx by {
      assert row + 1 <= ny;
    }
  }

  /** With a row on the sheet and a non-negative frame sum, the chosen tile is on the sheet. */
  lemma TileOnSheet(s: TextureSheet, randomRow: int, frame: int, startTileOffset: int)
    requires SheetValid(s) && RowOnSheet(s, randomRow) && frame + startTileOffset >= 0
    ensures 0 <= Tile(s, randomRow, frame, startTileOffset) < s.numTilesX * s.numTilesY
  {
    TileInRange(s, randomRow, frame, startTileOffset);
    var t := Tile(s, randomRow, frame, startTileOffset);
    if !s.wholeSheet {
      match s.rowMode
      case Custom => RowTiles(s.rowIndex, s.numTilesX, s.numTilesY, t);
      case Random => RowTiles(randomRow, s.numTilesX, s.numTilesY, t);
      case MeshIndex => RowTiles(0, s.numTilesX, s.numTilesY, t);
    }
  }

  /** GetScale: one tile's share of the sheet. */
  function Scale(s: TextureSheet): Uv
    requires SheetValid(s)
  {
    Uv(1.0 / s.numTilesX as real, 1.0 / s.numTilesY as real)
  }

  /** GetOffset's result for a tile: its column from the left, its row from the top. */
  function TileOffset(s: TextureSheet, tile: int): Uv
    requires SheetValid(s)
  {
    var nx := s.numTilesX;
    Uv(CsRem(tile, nx) as real / nx as real,
       1.0 - (1 + CsDiv(tile, nx)) as real / s.numTilesY as real)
  }

  lemma FractionBelow(a: int, b: int)
    requires 0 <= a && a + 1 <= b
    ensures 0.0 <= a as real / b as real
    ensures a as real / b as real + 1.0 / b as real <= 1.0
  {
    assert a as real / b as real + 1.0 / b as real == (a + 1) as real / b as real;
  }

  lemma MulMonotone(a: int, b: int, c: int)
    requires a >= 0
    ensures b <= c ==> a * b <= a * c
  {
    if b <= c {
      assert a * c == a * b + a * (c - b);
    }
  }

  lemma DivBelow(t: int, nx: int, ny: int)
    requires nx >= 1 && 0 <= t < nx * ny
    ensures 0 <= t / nx < ny
  {
    var q := t / nx;
    MulMonotone(nx, ny, q);
    assert nx * q <= t;
  }

  /** A tile on the sheet maps to a sub-rectangle of the unit square. */
  lemma TileOffsetInside(s: TextureSheet, tile: int)
    requires SheetValid(s) && 0 <= tile < s.numTilesX * s.numTilesY
    ensures var o := TileOffset(s, tile); var sc := Scale(s);
      0.0 <= o.x && o.x + sc.x <= 1.0 && 0.0 <= o.y && o.y + sc.y <= 1.0
  {
    var nx := s.numTilesX;
    var ny := s.numTilesY;
    FractionBelow(tile % nx, nx);
    DivBelow(tile, nx, ny);
    var row := tile / nx;
    FractionBelow(ny - 1 - row, ny);
    assert (1 + row) as real / ny as real == 1.0 - (ny - 1 - row) as real / ny as real;
  }

  // ---------------------------------------------------------------------
  // The mesh job

  /** What one particle contributes; the engine computes these from its curves. */
  datatype Particle = Particle(
    color: Color,
    randomRow: int,
    frame: int,
    startTileOffset: int,
    custom1: Vec4,
    custom2: Vec4)

  /** The quad's index pattern: two triangles over its four vertices. */
  const QuadIndices: seq<int> := [0, 1, 2, 2, 3, 0]

  /** The texture-coordinate corner `k` of a quad before the custom streams: u and v flip to 1-u, 1-v. */
  function Corner(k: nat, u: int, v: int): (int, int)
    requires k < 4
  {
    if k == 0 then (u, v)
    else if k == 1 then (u, 1 - v)
    else if k == 2 then (1 - u, 1 - v)
    else (1 - u, v)
  }

  /** The scaled and offset corner, as the Vector4 a Vector2 widens to. */
  function CornerUv(k: nat, u: int, v: int, scale: Uv, offset: Uv): Vec4
    requires k < 4
  {
    var (cu, cv) := Corner(k, u, v);
    [scale.x * cu as real + offset.x, scale.y * cv as real + offset.y, 0.0, 0.0]
  }

  /** The four corners cover the four combinations of u and 1-u with v and 1-v. */
  lemma CornersDistinct(u: int, v: int, j: nat, k: nat)
    requires u == 0 || u == 1
    requires v == 0 || v == 1
    requires j < 4 && k < 4 && j != k
    ensures Corner(j, u, v) != Corner(k, u, v)
    ensures Corner(k, u, v).0 in {0, 1} && Corner(k, u, v).1 in {0, 1}
  {
  }

  /** Slots written by particle `i`: four vertices from vertexBase + 4i and six indices from indexOffset + 6i. */
  predicate InQuad(base: int, i: int, k: int)
  {
    base + 4 * i <= k < base + 4 * i + 4
  }

  predicate InIndexRun(offset: int, i: int, k: int)
  {
    offset + 6 * i <= k < offset + 6 * i + 6
  }

  /** Distinct particles of one run touch disjoint vertex and index slots. */
  lemma SlotsDisjoint(vertexBase: int, indexOffset: int, i: int, j: int, k: int)
    requires i != j
    ensures !(InQuad(vertexBase, i, k) && InQuad(vertexBase, j, k))
    ensures !(InIndexRun(indexOffset, i, k) && InIndexRun(indexOffset, j, k))
  {
  }

  class MeshJob {
    const particles: seq<Particle>
    const particleIndex: int
    const vertexBase: int
    const indexOffset: int
    const streams: CustomVertexStreams
    const sheet: TextureSheet
    /** The renderer's flip; a component flips only when it equals 1. */
    const flipX: real
    const flipY: real
    const colors: array<Color>
    const texcoord0: array<Vec4>
    const texcoord1: array<Vec4>
    const indices: array<int>

    constructor(particles: seq<Particle>, particleIndex: int, vertexBase: int, indexOffset: int,
                streams: CustomVertexStreams, sheet: TextureSheet, flipX: real, flipY: real,
                colors: array<Color>, texcoord0: array<Vec4>, texcoord1: array<Vec4>, indices: array<int>)
      ensures this.particles == particles && this.particleIndex == particleIndex
      ensures this.vertexBase == vertexBase && this.indexOffset == indexOffset
      ensures this.streams == streams && this.sheet == sheet && this.flipX == flipX && this.flipY == flipY
      ensures this.colors == colors && this.texcoord0 == texcoord0 && this.texcoord1 == texcoord1 && this.indices == indices
    {
      this.particles := particles;
      this.particleIndex := particleIndex;
      this.vertexBase := vertexBase;
      this.indexOffset := indexOffset;
      this.streams := streams;
      this.sheet := sheet;
      this.flipX := flipX;
      this.flipY := flipY;
      this.colors := colors;
      this.texcoord0 := texcoord0;
      this.texcoord1 := texcoord1;
      this.indices := indices;
    }

    /** The uv scale and offset of particle `p`: the sheet tile when the animation is on, the whole texture otherwise. */
    function UvTransform(p: Particle): (Uv, Uv)
      requires sheet.enabled ==> SheetValid(sheet)
    {
      if sheet.enabled
      then (Scale(sheet), TileOffset(sheet, Tile(sheet, p.randomRow, p.frame, p.startTileOffset)))
      else (Uv(1.0, 1.0), Uv(0.0, 0.0))
    }

    /** The first texture coordinate of corner `k` of particle `p`. */
    function Texcoord0(p: Particle, k: nat): Vec4
      requires k < 4 && Valid(streams) && (sheet.enabled ==> SheetValid(sheet))
    {
      var (scale, offset) := UvTransform(p);
      var corner := CornerUv(k, if flipX == 1.0 then 1 else 0, if flipY == 1.0 then 1 else 0, scale, offset);
      if streams.custom1Active || streams.custom2Active
      then seq(4, i requires 0 <= i < 4 => Component(streams, corner, 0, p.custom1, p.custom2, i))
      else corner
    }

    /** The second texture coordinate: the custom channels from the fifth on. */
    function Texcoord1(p: Particle): Vec4
      requires Valid(streams)
    {
      seq(4, i requires 0 <= i < 4 => Component(streams, Zero4, 4, p.custom1, p.custom2, i))
    }

    /**
     * Execute(i): particle `particleIndex + i` writes its quad's colours and
     * texture coordinates at vertexBase + 4i.. and its two triangles at
     * indexOffset + 6i..; nothing else changes. The second texture
     * coordinate is written only when a custom stream is active.
     */
    method Execute(i: int)
      requires 0 <= i && 0 <= particleIndex + i < |particles|
      requires Valid(streams) && (sheet.enabled ==> SheetValid(sheet))
      requires 0 <= vertexBase + 4 * i && vertexBase + 4 * i + 4 <= colors.Length
      requires vertexBase + 4 * i + 4 <= texcoord0.Length && vertexBase + 4 * i + 4 <= texcoord1.Length
      requires 0 <= indexOffset + 6 * i && indexOffset + 6 * i + 6 <= indices.Length
      requires texcoord0 != texcoord1
      modifies colors, texcoord0, texcoord1, indices
      ensures var p := particles[particleIndex + i];
        forall k :: 0 <= k < colors.Length ==>
          colors[k] == if InQuad(vertexBase, i, k) then p.color else old(colors[k])
      ensures var p := particles[particleIndex + i];
        forall k :: 0 <= k < texcoord0.Length ==>
          texcoord0[k] == if InQuad(vertexBase, i, k) then Texcoord0(p, k - vertexBase - 4 * i) else old(texcoord0[k])
      ensures var p := particles[particleIndex + i];
        forall k :: 0 <= k < texcoord1.Length ==>
          texcoord1[k] == if InQuad(vertexBase, i, k) && (streams.custom1Active || streams.custom2Active)
            then Texcoord1(p) else old(texcoord1[k])
      ensures forall k :: 0 <= k < indices.Length ==>
        indices[k] == if InIndexRun(indexOffset, i, k)
          then vertexBase + 4 * i + QuadIndices[k - indexOffset - 6 * i] else old(indices[k])
      ensures forall k :: InIndexRun(indexOffset, i, k) ==> InQuad(vertexBase, i, indices[k])
    {
      var p := particles[particleIndex + i];
      var vertexIndex := vertexBase + i * 4;
      WriteColors(vertexIndex, p.color);
      var uvScale := Uv(1.0, 1.0);
      var uvOffset := Uv(0.0, 0.0);
      if sheet.enabled {
        uvScale := Scale(sheet);
        uvOffset := TileOffset(sheet, Tile(sheet, p.randomRow, p.frame, p.startTileOffset));
      }
      var u := if flipX == 1.0 then 1 else 0;
      var v := if flipY == 1.0 then 1 else 0;
      WriteCorners(vertexIndex, u, v, uvScale, uvOffset);
      if streams.custom1Active || streams.custom2Active {
        ApplyCustom(i, vertexIndex, p);
      }
      WriteQuadIndices(i, vertexIndex);
    }

    /** One colour for all four vertices. */
    method WriteColors(vertexIndex: int, color: Color)
      requires 0 <= vertexIndex && vertexIndex + 4 <= colors.Length
      modifies colors
      ensures forall k :: 0 <= k < colors.Length ==>
        colors[k] == if vertexIndex <= k < vertexIndex + 4 then color else old(colors[k])
    {
      colors[vertexIndex] := color;
      colors[vertexIndex + 1] := color;
      colors[vertexIndex + 2] := color;
      colors[vertexIndex + 3] := color;
    }

    /** The four corners before the custom streams. */
    method WriteCorners(vertexIndex: int, u: int, v: int, scale: Uv, offset: Uv)
      requires 0 <= vertexIndex && vertexIndex + 4 <= texcoord0.Length
      modifies texcoord0
      ensures forall k :: 0 <= k < texcoord0.Length ==>
        texcoord0[k] == if vertexIndex <= k < vertexIndex + 4 then CornerUv(k - vertexIndex, u, v, scale, offset) else old(texcoord0[k])
    {
      texcoord0[vertexIndex] := CornerUv(0, u, v, scale, offset);
      texcoord0[vertexIndex + 1] := CornerUv(1, u, v, scale, offset);
      texcoord0[vertexIndex + 2] := CornerUv(2, u, v, scale, offset);
      texcoord0[vertexIndex + 3] := CornerUv(3, u, v, scale, offset);
    }

    /** The custom streams over the first texture coordinates, and the second ones. */
    method ApplyCustom(i: int, vertexIndex: int, p: Particle)
      requires Valid(streams) && (sheet.enabled ==> SheetValid(sheet))
      requires 0 <= vertexIndex && vertexIndex + 4 <= texcoord0.Length && vertexIndex + 4 <= texcoord1.Length
      requires texcoord0 != texcoord1
      modifies texcoord0, texcoord1
      ensures forall k :: 0 <= k < texcoord0.Length ==>
        texcoord0[k] == if vertexIndex <= k < vertexIndex + 4
          then seq(4, j requires 0 <= j < 4 => Component(streams, old(texcoord0[k]), 0, p.custom1, p.custom2, j))
          else old(texcoord0[k])
      ensures forall k :: 0 <= k < texcoord1.Length ==>
        texcoord1[k] == if vertexIndex <= k < vertexIndex + 4 then Texcoord1(p) else old(texcoord1[k])
    {
      var k := 0;
      while k < 4
        invariant 0 <= k <= 4
        invariant forall j :: 0 <= j < texcoord0.Length ==>
          texcoord0[j] == if vertexIndex <= j < vertexIndex + k
            then seq(4, c requires 0 <= c < 4 => Component(streams, old(texcoord0[j]), 0, p.custom1, p.custom2, c))
            else old(texcoord0[j])
        invariant forall j :: 0 <= j < texcoord1.Length ==> texcoord1[j] == old(texcoord1[j])
      {
        var t := GetTexcoord(streams, texcoord0[vertexIndex + k], 0, p.custom1, p.custom2);
        texcoord0[vertexIndex + k] := t;
        k := k + 1;
      }
      var t1 := GetTexcoord(streams, Zero4, 4, p.custom1, p.custom2);
      texcoord1[vertexIndex] := t1;
      texcoord1[vertexIndex + 1] := t1;
      texcoord1[vertexIndex + 2] := t1;
      texcoord1[vertexIndex + 3] := t1;
    }

    /** The two triangles v, v+1, v+2 and v+2, v+3, v. */
    method WriteQuadIndices(i: int, vertexIndex: int)
      requires vertexIndex == vertexBase + 4 * i
      requires 0 <= indexOffset + 6 * i && indexOffset + 6 * i + 6 <= indices.Length
      modifies indices
      ensures forall k :: 0 <= k < indices.Length ==>
        indices[k] == if InIndexRun(indexOffset, i, k)
          then vertexIndex + QuadIndices[k - indexOffset - 6 * i] else old(indices[k])
    {
      var index := indexOffset + i * 6;
      indices[index] := vertexIndex;
      indices[index + 1] := indices[index] + 1;
      indices[index + 2] := indices[index] + 2;
      indices[index + 3] := indices[index] + 2;
      indices[index + 4] := indices[index] + 3;
      indices[index + 5] := indices[index];
    }
  }

  /** IndexJob: rebases the indices a copied mesh brought in. */
  class IndexJob {
    const indices: array<int>
    const indexOffset: int
    const vertexBase: int

    constructor(indices: array<int>, indexOffset: int, vertexBase: int)
      ensures this.indices == indices && this.indexOffset == indexOffset && this.vertexBase == vertexBase
    {
      this.indices := indices;
      this.indexOffset := indexOffset;
      this.vertexBase := vertexBase;
    }

    /** Execute(i): index indexOffset + i gains vertexBase; nothing else changes. */
    method Execute(i: int)
      requires 0 <= indexOffset + i < indices.Length
      modifies indices
      ensures indices[..] == old(indices[..])[indexOffset + i := vertexBase + old(indices[indexOffset + i])]
    {
      var index := indexOffset + i;
      indices[index] := vertexBase + indices[index];
    }
  }
}
