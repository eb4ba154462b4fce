// UIParticleUpdater: the static registry that renders every enabled
// UIParticle once per canvas update. It keeps the active particles sorted by
// mesh-sharing group, owns the native copies of particle-system data, and
// for each job-system ("boosted") particle either bakes its systems' meshes
// or reuses the buffers the previous particle of the same group filled.
// The model covers the registry, the sort and the bookkeeping of a boosted
// bake: the early exit, the sharing test, the per-system vertex and index
// counts, the cached vertex totals and the active-mesh bitmask.
module UIParticleUpdater {
  import opened Wrappers
  import opened Lists

  /** ParticleSystemRenderMode; `NoRender` is the enum's `None`. */
  datatype RenderMode = Billboard | Stretch | HorizontalBillboard | VerticalBillboard | Mesh | NoRender

  /** What the bake reads of a ParticleSystemRenderer. */
  datatype Renderer = Renderer(
    activeInHierarchy: bool,
    mode: RenderMode,
    hasMesh: bool,
    hasTrailMaterial: bool)

  /**
   * A particle system with its renderer (None for a missing one). The vertex
   * and index counts are those of the meshes BakeMesh and BakeTrailsMesh
   * produce for it, which the engine computes.
   */
  datatype System = System(
    instanceId: int,
    alive: bool,
    activeInHierarchy: bool,
    particleCount: nat,
    trailsEnabled: bool,
    renderer: Option<Renderer>,
    bakedVertexCount: nat,
    bakedIndexCount: nat,
    trailVertexCount: nat,
    trailIndexCount: nat)

  /** A KeyValuePair of vertex count and index count. */
  datatype Counts = Counts(vertexCount: int, indexCount: int)

  /**
   * The part of a UIParticle the updater reads and writes. The mesh-sharing
   * group and the systems are fixed while the updater runs; the bitmask is a
   * `long` and is kept as the set of its one bits.
   */
  class UIParticle {
    const meshSharingID: int
    const boostByJobSystem: bool
    const systems: seq<System>
    var refreshed: bool
    var activeMeshIndices: set<nat>
    var subMeshCount: nat
    /** How many times bakedMesh.Clear() ran. */
    var meshClears: nat

    constructor(meshSharingID: int, boostByJobSystem: bool, systems: seq<System>)
      ensures this.meshSharingID == meshSharingID && this.boostByJobSystem == boostByJobSystem
      ensures this.systems == systems
      ensures !refreshed && activeMeshIndices == {} && subMeshCount == 0 && meshClears == 0
    {
      this.meshSharingID := meshSharingID;
      this.boostByJobSystem := boostByJobSystem;
      this.systems := systems;
      refreshed := false;
      activeMeshIndices := {};
      subMeshCount := 0;
      meshClears := 0;
    }
  }

  // ---------------------------------------------------------------------
  // Sorting by mesh-sharing group

  predicate SortedById(s: seq<UIParticle>)
  {
    forall i, j :: 0 <= i < j < |s| ==> s[i].meshSharingID <= s[j].meshSharingID
  }

  /**
   * Inserts `key` behind `p` and moves it forward past every element with a
   * strictly larger group, as the inner loop of SortParticles does.
   */
  function InsertById(p: seq<UIParticle>, key: UIParticle): (r: seq<UIParticle>)
    ensures |r| == |p| + 1
  {
    if p == [] || !(key.meshSharingID < p[|p| - 1].meshSharingID) then p + [key]
    else InsertById(p[..|p| - 1], key) + [p[|p| - 1]]
  }

  /** The order SortParticles leaves: each element inserted in turn into the sorted prefix. */
  function SortById(s: seq<UIParticle>): (r: seq<UIParticle>)
    ensures |r| == |s|
  {
    if s == [] then [] else InsertById(SortById(s[..|s| - 1]), s[|s| - 1])
  }

  /** The particles of group `id`, in order. */
  function InGroup(s: seq<UIParticle>, id: int): seq<UIParticle>
  {
    if s == [] then []
    else InGroup(s[..|s| - 1], id) + (if s[|s| - 1].meshSharingID == id then [s[|s| - 1]] else [])
  }

  lemma {:induction false} InsertSorted(p: seq<UIParticle>, key: UIParticle)
    requires SortedById(p)
    ensures SortedById(InsertById(p, key))
    ensures p != [] ==> InsertById(p, key)[|p|].meshSharingID >= p[|p| - 1].meshSharingID
  {
    if p != [] && key.meshSharingID < p[|p| - 1].meshSharingID {
      var n := |p| - 1;
      InsertSorted(p[..n], key);
      var q := InsertById(p[..n], key);
      assert forall i :: 0 <= i < |q| ==> q[i].meshSharingID <= p[n].meshSharingID by {
        forall i | 0 <= i < |q| ensures q[i].meshSharingID <= p[n].meshSharingID {
          InsertMembers(p[..n], key);
          assert q[i] in q;
        }
      }
    }
  }

  lemma {:induction false} InsertMembers(p: seq<UIParticle>, key: UIParticle)
    ensures forall u :: u in InsertById(p, key) ==> u == key || u in p
  {
    if p != [] && key.meshSharingID < p[|p| - 1].meshSharingID {
      InsertMembers(p[..|p| - 1], key);
    }
  }

  lemma {:induction false} InsertPermutes(p: seq<UIParticle>, key: UIParticle)
    ensures multiset(InsertById(p, key)) == multiset(p) + multiset{key}
  {
    if p != [] && key.meshSharingID < p[|p| - 1].meshSharingID {
      var n := |p| - 1;
      InsertPermutes(p[..n], key);
      assert p == p[..n] + [p[n]];
    }
  }

  /** Where InsertById puts `key`: behind the last element whose group is not larger. */
  lemma {:induction false} InsertByIdAt(p: seq<UIParticle>, key: UIParticle, m: nat)
    requires m <= |p|
    requires m == 0 || !(key.meshSharingID < p[m - 1].meshSharingID)
    requires forall k :: m <= k < |p| ==> key.meshSharingID < p[k].meshSharingID
    ensures InsertById(p, key) == p[..m] + [key] + p[m..]
  {
    if m == |p| {
      assert p[..m] == p;
    } else {
      var n := |p| - 1;
      InsertByIdAt(p[..n], key, m);
      assert p[..n][..m] == p[..m];
      assert p[..n][m..] + [p[n]] == p[m..];
    }
  }

  /** `a` is `a0` with its element at `i` taken out and put back in at `m`. */
  lemma Shifted(a: seq<UIParticle>, a0: seq<UIParticle>, key: UIParticle, i: nat, m: nat)
    requires |a| == |a0| && m <= i < |a0|
    requires forall k :: 0 <= k < m ==> a[k] == a0[k]
    requires a[m] == key
    requires forall k :: m < k <= i ==> a[k] == a0[k - 1]
    requires forall k :: i < k < |a0| ==> a[k] == a0[k]
    ensures a == a0[..m] + [key] + a0[m..i] + a0[i + 1..]
  {
  }

  /** Insertion keeps the relative order within every group, `key` going last in its own. */
  lemma {:induction false} InsertStable(p: seq<UIParticle>, key: UIParticle, id: int)
    ensures InGroup(InsertById(p, key), id) == InGroup(p, id) + (if key.meshSharingID == id then [key] else [])
  {
    if p == [] || !(key.meshSharingID < p[|p| - 1].meshSharingID) {
      var r := p + [key];
      assert r[..|r| - 1] == p;
    } else {
      var n := |p| - 1;
      var q := InsertById(p[..n], key);
      InsertStable(p[..n], key, id);
      var r := q + [p[n]];
      assert r[..|r| - 1] == q;
      assert p[..n + 1] == p;
    }
  }

  /** SortParticles leaves the list ordered by group. */
  lemma {:induction false} SortByIdSorted(s: seq<UIParticle>)
    ensures SortedById(SortById(s))
  {
    if s != [] {
      SortByIdSorted(s[..|s| - 1]);
      InsertSorted(SortById(s[..|s| - 1]), s[|s| - 1]);
    }
  }

  /** SortParticles only reorders. */
  lemma {:induction false} SortByIdPermutes(s: seq<UIParticle>)
    ensures multiset(SortById(s)) == multiset(s)
  {
    if s != [] {
      var n := |s| - 1;
      SortByIdPermutes(s[..n]);
      InsertPermutes(SortById(s[..n]), s[n]);
      assert s == s[..n] + [s[n]];
    }
  }

  /** SortParticles is stable: each group keeps its registration order. */
  lemma {:induction false} SortByIdStable(s: seq<UIParticle>, id: int)
    ensures InGroup(SortById(s), id) == InGroup(s, id)
  {
    if s != [] {
      var n := |s| - 1;
      SortByIdStable(s[..n], id);
      InsertStable(SortById(s[..n]), s[n], id);
    }
  }

  // ---------------------------------------------------------------------
  // Native data owned per particle system

  function Ids(systems: seq<System>): set<int>
  {
    if systems == [] then {}
    else Ids(systems[..|systems| - 1]) + {systems[|systems| - 1].instanceId}
  }

  /** The native copies Unregister disposes, in order: those of `natives` its systems name, each once. */
  function Disposals(natives: set<int>, systems: seq<System>): seq<int>
  {
    if systems == [] then []
    else
      var n := |systems| - 1;
      var id := systems[n].instanceId;
      Disposals(natives, systems[..n]) + (if id in natives && id !in Ids(systems[..n]) then [id] else [])
  }

  lemma {:induction false} DisposalsMeaning(natives: set<int>, systems: seq<System>)
    ensures Unique(Disposals(natives, systems))
    ensures forall x :: x in Disposals(natives, systems) <==> x in natives && x in Ids(systems)
  {
    if systems != [] {
      var n := |systems| - 1;
      DisposalsMeaning(natives, systems[..n]);
    }
  }

  // ---------------------------------------------------------------------
  // What a boosted bake reads

  /** A system counted by the early exit: present, active and with live particles. */
  predicate IsActive(ps: System)
  {
    ps.alive && ps.activeInHierarchy && ps.particleCount != 0
  }

  function ActiveCount(systems: seq<System>): (n: nat)
    ensures n <= |systems|
    ensures n == 0 <==> forall i :: 0 <= i < |systems| ==> !IsActive(systems[i])
  {
    if systems == [] then 0
    else ActiveCount(systems[..|systems| - 1]) + (if IsActive(systems[|systems| - 1]) then 1 else 0)
  }

  /** CanBakeMesh: an active renderer that renders something it has. */
  predicate CanBakeMesh(r: Option<Renderer>)
  {
    && r.Some?
    && r.value.activeInHierarchy
    && !(r.value.mode == Mesh && !r.value.hasMesh)
    && r.value.mode != NoRender
  }

  /** CanBakeMeshPerformant: the particle job handles every mode but Mesh. */
  predicate CanBakeMeshPerformant(r: Renderer)
  {
    r.mode != Mesh
  }

  predicate BakesTrail(ps: System)
  {
    ps.trailsEnabled && ps.renderer.Some? && ps.renderer.value.hasTrailMaterial
  }

  /** The counts recorded for a system's main mesh: four vertices and six indices per particle in the job. */
  function MainCounts(ps: System): Counts
    requires ps.renderer.Some?
  {
    if CanBakeMeshPerformant(ps.renderer.value) then Counts(ps.particleCount * 4, ps.particleCount * 6)
    else Counts(ps.bakedVertexCount, ps.bakedIndexCount)
  }

  function TrailCounts(ps: System): Counts
  {
    Counts(ps.trailVertexCount, ps.trailIndexCount)
  }

  /** `bakedIndexMap` after the job loop: slot 2i for system i's mesh, 2i+1 for its trail. */
  function Scheduled(systems: seq<System>, m: map<int, Counts>): map<int, Counts>
  {
    if systems == [] then m
    else
      var i := |systems| - 1;
      var prev := Scheduled(systems[..i], m);
      var ps := systems[i];
      if !CanBakeMesh(ps.renderer) then prev
      else if BakesTrail(ps) then prev[2 * i := MainCounts(ps)][2 * i + 1 := TrailCounts(ps)]
      else prev[2 * i := MainCounts(ps)]
  }

  /** The vertex total of a fresh bake. */
  function VertexTotal(systems: seq<System>): int
  {
    if systems == [] then 0
    else
      var i := |systems| - 1;
      var ps := systems[i];
      VertexTotal(systems[..i])
        + (if !CanBakeMesh(ps.renderer) then 0
           else MainCounts(ps).vertexCount + (if BakesTrail(ps) then TrailCounts(ps).vertexCount else 0))
  }

  function TrailTotal(systems: seq<System>): (n: nat)
    ensures n <= |systems|
  {
    if systems == [] then 0
    else
      var i := |systems| - 1;
      TrailTotal(systems[..i]) + (if CanBakeMesh(systems[i].renderer) && BakesTrail(systems[i]) then 1 else 0)
  }

  /** The ids of the systems a fresh bake gives a native copy. */
  function BakedIds(systems: seq<System>): set<int>
  {
    if systems == [] then {}
    else
      var i := |systems| - 1;
      BakedIds(systems[..i]) + (if CanBakeMesh(systems[i].renderer) then {systems[i].instanceId} else {})
  }

  /** Every slot a shared bake reads is in `m`. */
  predicate Covered(systems: seq<System>, m: map<int, Counts>)
  {
    forall i :: 0 <= i < |systems| && CanBakeMesh(systems[i].renderer) ==>
      2 * i in m && (BakesTrail(systems[i]) ==> 2 * i + 1 in m)
  }

  /** The vertex total of a shared bake, read back from the slots. */
  function SharedTotal(systems: seq<System>, m: map<int, Counts>): int
    requires Covered(systems, m)
  {
    if systems == [] then 0
    else
      var i := |systems| - 1;
      var ps := systems[i];
      SharedTotal(systems[..i], m)
        + (if !CanBakeMesh(ps.renderer) then 0
           else m[2 * i].vertexCount + (if BakesTrail(ps) then m[2 * i + 1].vertexCount else 0))
  }

  /** True when some system bakes. */
  predicate AnyBaked(systems: seq<System>)
  {
    exists i :: 0 <= i < |systems| && CanBakeMesh(systems[i].renderer)
  }

  /**
   * The one bits of `activeMeshIndices`: bit 2i for each baked system and
   * 2i+1 for its trail. A `long` shift uses only the low six bits of its
   * count, so from the 33rd system on the bits wrap around.
   */
  function Mask(systems: seq<System>): set<nat>
  {
    if systems == [] then {}
    else
      var i := |systems| - 1;
      var ps := systems[i];
      Mask(systems[..i])
        + (if !CanBakeMesh(ps.renderer) then {}
           else {(2 * i) % 64} + (if BakesTrail(ps) then {(2 * i + 1) % 64} else {}))
  }

  /** System `ps` at position `i` sets bit `b`: its mesh bit, or its trail bit when it has a trail. */
  predicate SetsBit(ps: System, i: nat, b: nat)
  {
    CanBakeMesh(ps.renderer) && (b == (2 * i) % 64 || (BakesTrail(ps) && b == (2 * i + 1) % 64))
  }

  /** Bit `b` is set exactly when some baked system, or its trail, maps to it. */
  lemma {:induction false} MaskBits(systems: seq<System>, b: nat)
    ensures b in Mask(systems) <==> exists i :: 0 <= i < |systems| && SetsBit(systems[i], i, b)
  {
    if systems != [] {
      var n := |systems| - 1;
      MaskBits(systems[..n], b);
      if b in Mask(systems[..n]) {
        var i :| 0 <= i < n && SetsBit(systems[..n][i], i, b);
        assert systems[i] == systems[..n][i];
      }
      if exists i :: 0 <= i < |systems| && SetsBit(systems[i], i, b) {
        var i :| 0 <= i < |systems| && SetsBit(systems[i], i, b);
        if i < n {
          assert systems[..n][i] == systems[i];
        }
      }
    }
  }

  /** A fresh bake fills every slot a later shared bake of the same systems reads. */
  lemma {:induction false} ScheduledCovers(systems: seq<System>, m: map<int, Counts>)
    ensures Covered(systems, Scheduled(systems, m))
    ensures forall k :: k in m ==> k in Scheduled(systems, m)
  {
    if systems != [] {
      var n := |systems| - 1;
      ScheduledCovers(systems[..n], m);
      forall i | 0 <= i < n && CanBakeMesh(systems[i].renderer)
        ensures 2 * i in Scheduled(systems[..n], m) && (BakesTrail(systems[i]) ==> 2 * i + 1 in Scheduled(systems[..n], m))
      {
        assert systems[..n][i] == systems[i];
      }
    }
  }

  /** Slots below 2|systems| other than those a fresh bake writes are left alone. */
  lemma {:induction false} ScheduledKeeps(systems: seq<System>, m: map<int, Counts>, k: int)
    requires k >= 2 * |systems| || k < 0
    ensures k in Scheduled(systems, m) <==> k in m
    ensures k in m ==> Scheduled(systems, m)[k] == m[k]
  {
    if systems != [] {
      ScheduledKeeps(systems[..|systems| - 1], m, k);
    }
  }

  /** The slot of system i after a fresh bake. */
  lemma {:induction false} ScheduledSlot(systems: seq<System>, m: map<int, Counts>, i: nat)
    requires i < |systems| && CanBakeMesh(systems[i].renderer)
    ensures 2 * i in Scheduled(systems, m) && (BakesTrail(systems[i]) ==> 2 * i + 1 in Scheduled(systems, m))
    ensures Scheduled(systems, m)[2 * i] == MainCounts(systems[i])
    ensures BakesTrail(systems[i]) ==> Scheduled(systems, m)[2 * i + 1] == TrailCounts(systems[i])
  {
    var n := |systems| - 1;
    if i < n {
      assert systems[..n][i] == systems[i];
      ScheduledSlot(systems[..n], m, i);
    }
  }

  /**
   * A particle sharing the mesh of one whose fresh bake had the same systems
   * reads back that bake's vertex total.
   */
  lemma {:induction false} SharedTotalMatches(systems: seq<System>, m: map<int, Counts>, n: nat)
    requires n <= |systems|
    ensures Covered(systems[..n], Scheduled(systems, m))
    ensures SharedTotal(systems[..n], Scheduled(systems, m)) == VertexTotal(systems[..n])
  {
    ScheduledCovers(systems, m);
    var s := systems[..n];
    forall i | 0 <= i < |s| && CanBakeMesh(s[i].renderer)
      ensures 2 * i in Scheduled(systems, m) && (BakesTrail(s[i]) ==> 2 * i + 1 in Scheduled(systems, m))
    {
      assert s[i] == systems[i];
    }
    if n > 0 {
      SharedTotalMatches(systems, m, n - 1);
      assert s[..n - 1] == systems[..n - 1];
      assert s[n - 1] == systems[n - 1];
      if CanBakeMesh(systems[n - 1].renderer) {
        ScheduledSlot(systems, m, n - 1);
      }
    }
  }

  /** The sharing test: the previous particle was boosted and refreshed, and both are in the same positive group. */
  predicate MeshSharing(particle: UIParticle, last: UIParticle?)
    reads last
  {
    last != null && last.boostByJobSystem && last.refreshed
      && particle.meshSharingID > 0 && last.meshSharingID == particle.meshSharingID
  }

  /** The cached total forces a clear when there is none or it is larger than the new one. */
  predicate MustClear(cache: map<UIParticle, int>, particle: UIParticle, vertexTotal: int)
  {
    particle !in cache || cache[particle] > vertexTotal
  }

  /** After a bake records its total, baking the same total again does not clear. */
  lemma CachedTotalSettles(cache: map<UIParticle, int>, particle: UIParticle, vertexTotal: int, next: int)
    ensures MustClear(cache[particle := vertexTotal], particle, next) <==> next < vertexTotal
    ensures MustClear(cache, particle, vertexTotal) <==> particle !in cache || vertexTotal < cache[particle]
  {
  }

  // ---------------------------------------------------------------------
  // The updater

  class Updater {
    var activeParticles: seq<UIParticle>
    /** The instance ids of particleSystemNatives. */
    var natives: set<int>
    /** The native copies disposed so far, by instance id. */
    var disposed: seq<int>
    var cachedVertexTotal: map<UIParticle, int>
    var bakedIndexMap: map<int, Counts>

    /** The state after InitializeOnLoad: empty dictionaries and no active particles. */
    constructor()
      ensures activeParticles == [] && natives == {} && disposed == []
      ensures cachedVertexTotal == map[] && bakedIndexMap == map[]
    {
      activeParticles := [];
      natives := {};
      disposed := [];
      cachedVertexTotal := map[];
      bakedIndexMap := map[];
    }

    /** Register ignores null and appends. */
    method Register(particle: UIParticle?)
      modifies this`activeParticles
      ensures activeParticles == if particle == null then old(activeParticles) else old(activeParticles) + [particle]
    {
      if particle == null {
        return;
      }
      activeParticles := activeParticles + [particle];
    }

    /**
     * Unregister removes the first registration, disposes and forgets the
     * native copy of each of the particle's systems, and drops its cached
     * vertex total.
     */
    method Unregister(particle: UIParticle?)
      modifies this`activeParticles, this`natives, this`disposed, this`cachedVertexTotal
      ensures particle == null ==>
        && activeParticles == old(activeParticles) && natives == old(natives)
        && disposed == old(disposed) && cachedVertexTotal == old(cachedVertexTotal)
      ensures particle != null ==>
        && activeParticles == RemoveFirst<UIParticle>(old(activeParticles), particle)
        && natives == old(natives) - Ids(particle.systems)
        && disposed == old(disposed) + Disposals(old(natives), particle.systems)
        && cachedVertexTotal == old(cachedVertexTotal) - {particle}
    {
      if particle == null {
        return;
      }
      var p: UIParticle := particle;
      activeParticles := RemoveFirst(activeParticles, p);
      var systems := particle.systems;
      var k := 0;
      while k < |systems|
        invariant 0 <= k <= |systems|
        modifies this`natives, this`disposed
        invariant natives == old(natives) - Ids(systems[..k])
        invariant disposed == old(disposed) + Disposals(old(natives), systems[..k])
      {
        assert systems[..k + 1][..k] == systems[..k];
        var psInstanceID := systems[k].instanceId;
        if psInstanceID in natives {
          disposed := disposed + [psInstanceID];
          natives := natives - {psInstanceID};
        }
        k := k + 1;
      }
      assert systems[..k] == systems;
      cachedVertexTotal := cachedVertexTotal - {particle};
    }

    /** One pass of the inner loop: moves the element at `i` forward into the sorted prefix. */
    method InsertAt(i: nat)
      requires 0 < i < |activeParticles|
      modifies this`activeParticles
      ensures activeParticles == InsertById(old(activeParticles)[..i], old(activeParticles)[i]) + old(activeParticles)[i + 1..]
    {
      ghost var a0 := activeParticles;
      var key := activeParticles[i];
      var j := i - 1;
      while j >= 0
        invariant -1 <= j < i
        invariant |activeParticles| == |a0|
        invariant forall k :: 0 <= k <= j ==> activeParticles[k] == a0[k]
        invariant activeParticles[j + 1] == key
        invariant forall k :: j + 1 < k <= i ==> activeParticles[k] == a0[k - 1]
        invariant forall k :: i < k < |a0| ==> activeParticles[k] == a0[k]
        invariant forall k :: j + 1 <= k < i ==> key.meshSharingID < a0[k].meshSharingID
      {
        if key.meshSharingID < activeParticles[j].meshSharingID {
          activeParticles := activeParticles[j + 1 := activeParticles[j]][j := key];
        } else {
          break;
        }
        j := j - 1;
      }
      ghost var m := j + 1;
      InsertByIdAt(a0[..i], key, m);
      Shifted(activeParticles, a0, key, i, m);
    }

    /** SortParticles: the insertion sort on meshSharingID. */
    method SortParticles()
      modifies this`activeParticles
      ensures activeParticles == SortById(old(activeParticles))
    {
      ghost var a0 := activeParticles;
      if |activeParticles| == 0 {
        return;
      }
      assert SortById(a0[..1]) == a0[..1];
      var i := 1;
      while i < |activeParticles|
        invariant |activeParticles| == |a0|
        invariant 1 <= i <= |a0|
        invariant activeParticles[..i] == SortById(a0[..i]) && activeParticles[i..] == a0[i..]
      {
        assert a0[..i + 1][..i] == a0[..i];
        InsertAt(i);
        i := i + 1;
      }
      assert a0[..|a0|] == a0;
      assert activeParticles[..|a0|] == activeParticles;
    }

    /** The early-exit loop: how many systems are active with particles. */
    static method CountActive(systems: seq<System>) returns (activeParticles: nat)
      ensures activeParticles == ActiveCount(systems)
    {
      activeParticles := 0;
      var i := 0;
      while i < |systems|
        invariant 0 <= i <= |systems|
        invariant activeParticles == ActiveCount(systems[..i])
      {
        assert systems[..i + 1][..i] == systems[..i];
        if IsActive(systems[i]) {
          activeParticles := activeParticles + 1;
        }
        i := i + 1;
      }
      assert systems[..i] == systems;
    }

    /** The container-preparation loop: a native copy for each baked system, and the trail count. */
    method PrepareNatives(systems: seq<System>) returns (trailTotal: nat)
      modifies this`natives
      ensures natives == old(natives) + BakedIds(systems)
      ensures trailTotal == TrailTotal(systems)
    {
      trailTotal := 0;
      var i := 0;
      while i < |systems|
        invariant 0 <= i <= |systems|
        invariant natives == old(natives) + BakedIds(systems[..i])
        invariant trailTotal == TrailTotal(systems[..i])
      {
        assert systems[..i + 1][..i] == systems[..i];
        var ps := systems[i];
        if CanBakeMesh(ps.renderer) {
          if ps.instanceId !in natives {
            natives := natives + {ps.instanceId};
          }
          if BakesTrail(ps) {
            trailTotal := trailTotal + 1;
          }
        }
        i := i + 1;
      }
      assert systems[..i] == systems;
    }

    /** The job loop: each baked system's counts go to its slots and add to the vertex total. */
    method ScheduleJobs(systems: seq<System>) returns (vertexTotal: int)
      modifies this`bakedIndexMap
      ensures bakedIndexMap == Scheduled(systems, old(bakedIndexMap))
      ensures vertexTotal == VertexTotal(systems)
    {
      vertexTotal := 0;
      var i := 0;
      while i < |systems|
        invariant 0 <= i <= |systems|
        invariant bakedIndexMap == Scheduled(systems[..i], old(bakedIndexMap))
        invariant vertexTotal == VertexTotal(systems[..i])
      {
        assert systems[..i + 1][..i] == systems[..i];
        var ps := systems[i];
        if CanBakeMesh(ps.renderer) {
          var counts := MainCounts(ps);
          bakedIndexMap := bakedIndexMap[i * 2 := counts];
          vertexTotal := vertexTotal + counts.vertexCount;
          if BakesTrail(ps) {
            var trail := TrailCounts(ps);
            bakedIndexMap := bakedIndexMap[i * 2 + 1 := trail];
            vertexTotal := vertexTotal + trail.vertexCount;
          }
        }
        i := i + 1;
      }
      assert systems[..i] == systems;
    }

    /** The shared branch's loop: the vertex total read back from the slots. */
    method ReadSharedTotal(systems: seq<System>) returns (vertexTotal: int)
      requires Covered(systems, bakedIndexMap)
      ensures vertexTotal == SharedTotal(systems, bakedIndexMap)
    {
      vertexTotal := 0;
      var i := 0;
      while i < |systems|
        invariant 0 <= i <= |systems|
        invariant Covered(systems[..i], bakedIndexMap)
        invariant vertexTotal == SharedTotal(systems[..i], bakedIndexMap)
      {
        assert systems[..i + 1][..i] == systems[..i];
        var ps := systems[i];
        if CanBakeMesh(ps.renderer) {
          vertexTotal := vertexTotal + bakedIndexMap[i * 2].vertexCount;
          if BakesTrail(ps) {
            vertexTotal := vertexTotal + bakedIndexMap[i * 2 + 1].vertexCount;
          }
        }
        i := i + 1;
      }
      assert systems[..i] == systems;
    }

    /** The submesh loop: the active-mesh bits, and whether anything was baked. */
    static method MeshIndices(systems: seq<System>) returns (mask: set<nat>, baked: bool)
      ensures mask == Mask(systems)
      ensures baked == AnyBaked(systems)
    {
      mask := {};
      baked := false;
      var i := 0;
      while i < |systems|
        invariant 0 <= i <= |systems|
        invariant mask == Mask(systems[..i])
        invariant baked == AnyBaked(systems[..i])
      {
        assert systems[..i + 1][..i] == systems[..i];
        var ps := systems[i];
        if CanBakeMesh(ps.renderer) {
          mask := mask + {(i * 2) % 64};
          baked := true;
          if BakesTrail(ps) {
            mask := mask + {(i * 2 + 1) % 64};
          }
        }
        assert AnyBaked(systems[..i + 1]) <==> AnyBaked(systems[..i]) || CanBakeMesh(ps.renderer) by {
          if AnyBaked(systems[..i]) {
            var k :| 0 <= k < i && CanBakeMesh(systems[..i][k].renderer);
            assert systems[..i + 1][k] == systems[..i][k];
          }
          if CanBakeMesh(ps.renderer) {
            assert systems[..i + 1][i] == ps;
          }
          if AnyBaked(systems[..i + 1]) {
            var k :| 0 <= k < i + 1 && CanBakeMesh(systems[..i + 1][k].renderer);
            if k < i {
              assert systems[..i][k] == systems[..i + 1][k];
            }
          }
        }
        i := i + 1;
      }
      assert systems[..i] == systems;
    }

    /** Records the new vertex total, clearing the baked mesh first when the rule asks for it. */
    method CacheVertexTotal(particle: UIParticle, vertexTotal: int)
      modifies this`cachedVertexTotal, particle`meshClears
      ensures cachedVertexTotal == old(cachedVertexTotal)[particle := vertexTotal]
      ensures particle.meshClears
        == old(particle.meshClears) + (if MustClear(old(cachedVertexTotal), particle, vertexTotal) then 1 else 0)
    {
      if particle !in cachedVertexTotal || cachedVertexTotal[particle] > vertexTotal {
        particle.meshClears := particle.meshClears + 1;
      }
      cachedVertexTotal := cachedVertexTotal[particle := vertexTotal];
    }

    /**
     * BakeMeshPerformant's bookkeeping. With no active system it reports
     * nothing baked and changes nothing; a shared bake with a different
     * number of systems than `last` does the same. Otherwise a fresh bake
     * writes the slots and native copies, a shared one reads the slots back,
     * and both record the vertex total, the submesh count and the bits.
     */
    method BakeMeshPerformant(particle: UIParticle, last: UIParticle?) returns (baked: bool)
      requires MeshSharing(particle, last) ==> Covered(particle.systems, bakedIndexMap)
      modifies this`natives, this`bakedIndexMap, this`cachedVertexTotal
      modifies particle`activeMeshIndices, particle`subMeshCount, particle`meshClears
      ensures var systems := particle.systems;
        var skipped := ActiveCount(systems) == 0
          || (MeshSharing(particle, last) && |systems| != |last.systems|);
        && (skipped ==>
             && !baked
             && natives == old(natives) && bakedIndexMap == old(bakedIndexMap)
             && cachedVertexTotal == old(cachedVertexTotal)
             && particle.activeMeshIndices == old(particle.activeMeshIndices)
             && particle.subMeshCount == old(particle.subMeshCount)
             && particle.meshClears == old(particle.meshClears))
        && (!skipped ==>
             var sharing := MeshSharing(particle, last);
             var vertexTotal := if sharing then SharedTotal(systems, old(bakedIndexMap)) else VertexTotal(systems);
             && baked == AnyBaked(systems)
             && natives == (if sharing then old(natives) else old(natives) + BakedIds(systems))
             && bakedIndexMap == (if sharing then old(bakedIndexMap) else Scheduled(systems, old(bakedIndexMap)))
             && cachedVertexTotal == old(cachedVertexTotal)[particle := vertexTotal]
             && particle.meshClears
                == old(particle.meshClears) + (if MustClear(old(cachedVertexTotal), particle, vertexTotal) then 1 else 0)
             && particle.subMeshCount == (if sharing then last.subMeshCount else |systems| + TrailTotal(systems))
             && particle.activeMeshIndices == Mask(systems))
    {
      var systems := particle.systems;
      var activeParticles := CountActive(systems);
      if activeParticles == 0 {
        return false;
      }
      var meshSharing := last != null && last.boostByJobSystem && last.refreshed
        && particle.meshSharingID > 0 && last.meshSharingID == particle.meshSharingID;
      var vertexTotal;
      if !meshSharing {
        var trailTotal := PrepareNatives(systems);
        vertexTotal := ScheduleJobs(systems);
        CacheVertexTotal(particle, vertexTotal);
        particle.subMeshCount := |systems| + trailTotal;
      } else {
        if |systems| != |last.systems| {
          return false;
        }
        vertexTotal := ReadSharedTotal(systems);
        CacheVertexTotal(particle, vertexTotal);
        particle.subMeshCount := last.subMeshCount;
      }
      var activeMeshIndices;
      activeMeshIndices, baked := MeshIndices(systems);
      particle.activeMeshIndices := activeMeshIndices;
    }
  }
}
