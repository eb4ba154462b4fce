// FBXRefiner: strips UV and vertex-colour layers from the meshes of an FBX
// scene. The scene is a tree of named nodes; each node lists the types of
// its attributes and reaches its mesh through GetMesh(). Meshes are objects,
// so two nodes may share one and an edit through either shows in both.
module FbxRefiner {
  import opened Wrappers

  /** A geometry layer element (a UV set or a vertex-colour set). */
  datatype Layer = Layer(name: string)

  class FbxMesh {
    var uvLayers: seq<Layer>
    var colorLayers: seq<Layer>

    constructor(uvLayers: seq<Layer>, colorLayers: seq<Layer>)
      ensures this.uvLayers == uvLayers && this.colorLayers == colorLayers
    {
      this.uvLayers := uvLayers;
      this.colorLayers := colorLayers;
    }

    /** The UV loop: from min(count, uvEnd + 1) - 1 down to uvStart, removing each layer that exists. */
    method RemoveUVRange(uvStart: int, uvEnd: int)
      modifies this`uvLayers
      ensures uvLayers == KeepOutside(old(uvLayers), uvStart, uvEnd)
    {
      ghost var l := uvLayers;
      ghost var hi := Clamp(Min(|l|, uvEnd + 1), 0, |l|);
      var k := Min(|uvLayers|, uvEnd + 1) - 1;
      ghost var top := k;
      while k >= uvStart
        invariant k <= top && (k >= uvStart - 1 || k == top)
        invariant uvLayers == l[..Clamp(k + 1, 0, hi)] + l[hi..]
      {
        if 0 <= k < |uvLayers| {
          assert l[..k + 1] == l[..k] + [l[k]];
          uvLayers := uvLayers[..k] + uvLayers[k + 1..];
        }
        k := k - 1;
      }
      KeepOutsideSplit(l, uvStart, uvEnd);
    }

    /** The colour loop: every vertex-colour layer, last first. */
    method RemoveVertexColors()
      modifies this`colorLayers
      ensures colorLayers == []
    {
      var k := |colorLayers| - 1;
      while k >= 0
        invariant -1 <= k < |colorLayers|
        invariant k == |colorLayers| - 1
      {
        colorLayers := colorLayers[..k];
        k := k - 1;
      }
    }

    /** The edit one mesh attribute triggers. */
    method Edit(opt: Options)
      modifies this
      ensures uvLayers == UVAfter(old(uvLayers), 1, opt)
      ensures colorLayers == ColorsAfter(old(colorLayers), 1, opt)
    {
      if opt.uv {
        RemoveUVRange(opt.uvStart, opt.uvEnd);
      }
      if opt.vertexColor {
        RemoveVertexColors();
      }
    }
  }

  function Min(a: int, b: int): int { if a < b then a else b }

  function Clamp(value: int, min: int, max: int): int
    requires min <= max
  {
    if value < min then min else if value > max then max else value
  }

  /** The layers whose index is outside [start, end], in their original order. */
  function KeepOutside(l: seq<Layer>, start: int, end: int): (r: seq<Layer>)
    ensures |r| <= |l|
  {
    if l == [] then []
    else
      var n := |l| - 1;
      KeepOutside(l[..n], start, end) + (if start <= n <= end then [] else [l[n]])
  }

  /** The same layers as one cut: everything before the range, then everything after it. */
  lemma {:induction false} KeepOutsideSplit(l: seq<Layer>, start: int, end: int)
    ensures var hi := Clamp(Min(|l|, end + 1), 0, |l|);
      KeepOutside(l, start, end) == l[..Clamp(start, 0, hi)] + l[hi..]
  {
    if l != [] {
      KeepOutsideSplit(l[..|l| - 1], start, end);
      SplitStep(l, start, end);
    }
  }

  /** One more layer keeps the cut form: the layer joins the part after the range, or the range, or the part before it. */
  lemma SplitStep(l: seq<Layer>, start: int, end: int)
    requires l != []
    requires var n := |l| - 1; var hi' := Clamp(Min(n, end + 1), 0, n);
      KeepOutside(l[..n], start, end) == l[..n][..Clamp(start, 0, hi')] + l[..n][hi'..]
    ensures var hi := Clamp(Min(|l|, end + 1), 0, |l|);
      KeepOutside(l, start, end) == l[..Clamp(start, 0, hi)] + l[hi..]
  {
    var n := |l| - 1;
    if start <= n <= end {
      SplitInRange(l, start, end);
    } else if n > end {
      SplitAfterRange(l, start, end);
    } else {
      SplitBeforeRange(l, start, end);
    }
  }

  lemma SplitInRange(l: seq<Layer>, start: int, end: int)
    requires start <= |l| - 1 <= end
    requires l != []
    requires var n := |l| - 1; var hi' := Clamp(Min(n, end + 1), 0, n);
      KeepOutside(l[..n], start, end) == l[..n][..Clamp(start, 0, hi')] + l[..n][hi'..]
    ensures var hi := Clamp(Min(|l|, end + 1), 0, |l|);
      KeepOutside(l, start, end) == l[..Clamp(start, 0, hi)] + l[hi..]
  {
    var n := |l| - 1;
    var p, x := l[..n], l[n];
    assert l == p + [x];
    var lo := Clamp(start, 0, n);
    assert Clamp(Min(n, end + 1), 0, n) == n && Clamp(Min(|l|, end + 1), 0, |l|) == n + 1;
    assert Clamp(start, 0, n + 1) == lo;
    TakeSnoc(p, x, lo);
    assert l[n + 1..] == [] && p[n..] == [];
  }

  lemma SplitAfterRange(l: seq<Layer>, start: int, end: int)
    requires |l| - 1 > end
    requires l != []
    requires var n := |l| - 1; var hi' := Clamp(Min(n, end + 1), 0, n);
      KeepOutside(l[..n], start, end) == l[..n][..Clamp(start, 0, hi')] + l[..n][hi'..]
    ensures var hi := Clamp(Min(|l|, end + 1), 0, |l|);
      KeepOutside(l, start, end) == l[..Clamp(start, 0, hi)] + l[hi..]
  {
    var n := |l| - 1;
    var p, x := l[..n], l[n];
    assert l == p + [x];
    var hi := Clamp(end + 1, 0, n);
    assert Clamp(Min(n, end + 1), 0, n) == hi && Clamp(Min(|l|, end + 1), 0, |l|) == hi;
    var lo := Clamp(start, 0, hi);
    assert KeepOutside(l, start, end) == KeepOutside(p, start, end) + [x];
    TakeSnoc(p, x, lo);
    DropSnoc(p, x, hi);
  }

  lemma SplitBeforeRange(l: seq<Layer>, start: int, end: int)
    requires |l| - 1 <= end && |l| - 1 < start
    requires l != []
    requires var n := |l| - 1; var hi' := Clamp(Min(n, end + 1), 0, n);
      KeepOutside(l[..n], start, end) == l[..n][..Clamp(start, 0, hi')] + l[..n][hi'..]
    ensures var hi := Clamp(Min(|l|, end + 1), 0, |l|);
      KeepOutside(l, start, end) == l[..Clamp(start, 0, hi)] + l[hi..]
  {
    var n := |l| - 1;
    var p, x := l[..n], l[n];
    assert l == p + [x];
    assert Clamp(Min(n, end + 1), 0, n) == n && Clamp(Min(|l|, end + 1), 0, |l|) == n + 1;
    assert Clamp(start, 0, n) == n && Clamp(start, 0, n + 1) == n + 1;
    assert KeepOutside(l, start, end) == KeepOutside(p, start, end) + [x];
    assert p[..n] + p[n..] == p;
    assert l[..n + 1] == l && l[n + 1..] == [];
  }

  lemma TakeSnoc(a: seq<Layer>, x: Layer, k: nat)
    requires k <= |a|
    ensures (a + [x])[..k] == a[..k]
  {
  }

  lemma DropSnoc(a: seq<Layer>, x: Layer, k: nat)
    requires k <= |a|
    ensures (a + [x])[k..] == a[k..] + [x]
  {
  }

  /** When the range reaches the last layer, a second removal takes nothing more. */
  lemma KeepOutsideIdempotent(l: seq<Layer>, start: int, end: int)
    requires end >= |l| - 1
    ensures KeepOutside(KeepOutside(l, start, end), start, end) == KeepOutside(l, start, end)
  {
    KeepOutsideSplit(l, start, end);
    var r := KeepOutside(l, start, end);
    KeepOutsideSplit(r, start, end);
    var hi := Clamp(Min(|l|, end + 1), 0, |l|);
    var lo := Clamp(start, 0, hi);
    assert r == l[..lo];
    assert Clamp(Min(|r|, end + 1), 0, |r|) == |r|;
    assert r[..Clamp(start, 0, |r|)] == r;
  }

  /** The call's switches: an optional node name, the UV range and the colour flag. */
  datatype Options = Options(meshName: Option<string>, uv: bool, uvStart: int, uvEnd: int, vertexColor: bool)

  /** A mesh's UV layers after `n` edits. */
  function UVAfter(l: seq<Layer>, n: nat, opt: Options): seq<Layer>
  {
    if n == 0 || !opt.uv then l else KeepOutside(UVAfter(l, n - 1, opt), opt.uvStart, opt.uvEnd)
  }

  /** A mesh's colour layers after `n` edits. */
  function ColorsAfter(l: seq<Layer>, n: nat, opt: Options): seq<Layer>
  {
    if n > 0 && opt.vertexColor then [] else l
  }

  lemma {:induction false} UVAfterAdd(l: seq<Layer>, a: nat, b: nat, opt: Options)
    ensures UVAfter(UVAfter(l, a, opt), b, opt) == UVAfter(l, a + b, opt)
  {
    if b > 0 && opt.uv {
      UVAfterAdd(l, a, b - 1, opt);
    }
  }

  lemma ColorsAfterAdd(l: seq<Layer>, a: nat, b: nat, opt: Options)
    ensures ColorsAfter(ColorsAfter(l, a, opt), b, opt) == ColorsAfter(l, a + b, opt)
  {
  }

  datatype AttributeType = MeshAttribute | OtherAttribute

  /** A scene node; `mesh` is what GetMesh() returns, read only when the node has a mesh attribute. */
  datatype Node = Node(name: string, attributes: seq<AttributeType>, mesh: FbxMesh, children: seq<Node>)

  /** A node is edited when no name is given or its name equals the given one. */
  predicate Matches(node: Node, opt: Options)
  {
    opt.meshName.None? || node.name == opt.meshName.value
  }

  function MeshAttributes(attributes: seq<AttributeType>): nat
  {
    if attributes == [] then 0
    else MeshAttributes(attributes[..|attributes| - 1]) + (if attributes[|attributes| - 1] == MeshAttribute then 1 else 0)
  }

  /** How many times the node's own attribute loop edits `m`. */
  function OwnEdits(node: Node, m: FbxMesh, opt: Options): nat
  {
    if node.mesh == m && Matches(node, opt) then MeshAttributes(node.attributes) else 0
  }

  /** How many times a walk of `node`'s subtree edits `m`. */
  function Edits(node: Node, m: FbxMesh, opt: Options): nat
    decreases node, 1
  {
    OwnEdits(node, m, opt) + ChildEdits(node, |node.children|, m, opt)
  }

  /** The edits made to `m` by the walks of the first `j` children. */
  function ChildEdits(node: Node, j: nat, m: FbxMesh, opt: Options): nat
    requires j <= |node.children|
    decreases node, 0, j
  {
    if j == 0 then 0 else ChildEdits(node, j - 1, m, opt) + Edits(node.children[j - 1], m, opt)
  }

  /** The meshes of a subtree. */
  ghost function Meshes(node: Node): set<FbxMesh>
    decreases node, 1
  {
    {node.mesh} + ChildMeshes(node, |node.children|)
  }

  ghost function ChildMeshes(node: Node, j: nat): set<FbxMesh>
    requires j <= |node.children|
    decreases node, 0, j
  {
    if j == 0 then {} else ChildMeshes(node, j - 1) + Meshes(node.children[j - 1])
  }

  /** A mesh outside a subtree is never edited by its walk. */
  lemma {:induction false} EditsOutside(node: Node, m: FbxMesh, opt: Options)
    requires m !in Meshes(node)
    ensures Edits(node, m, opt) == 0
    decreases node, 1
  {
    ChildEditsOutside(node, |node.children|, m, opt);
  }

  lemma {:induction false} ChildEditsOutside(node: Node, j: nat, m: FbxMesh, opt: Options)
    requires j <= |node.children| && m !in ChildMeshes(node, j)
    ensures ChildEdits(node, j, m, opt) == 0
    decreases node, 0, j
  {
    if j > 0 {
      ChildEditsOutside(node, j - 1, m, opt);
      EditsOutside(node.children[j - 1], m, opt);
    }
  }

  /** The attribute loop of one node: GetMesh() is edited once per mesh attribute. */
  method EditNode(node: Node, opt: Options)
    modifies node.mesh
    ensures var n := if Matches(node, opt) then MeshAttributes(node.attributes) else 0;
      && node.mesh.uvLayers == UVAfter(old(node.mesh.uvLayers), n, opt)
      && node.mesh.colorLayers == ColorsAfter(old(node.mesh.colorLayers), n, opt)
  {
    var i := 0;
    while i < |node.attributes|
      invariant 0 <= i <= |node.attributes|
      invariant var n := if Matches(node, opt) then MeshAttributes(node.attributes[..i]) else 0;
        && node.mesh.uvLayers == UVAfter(old(node.mesh.uvLayers), n, opt)
        && node.mesh.colorLayers == ColorsAfter(old(node.mesh.colorLayers), n, opt)
    {
      assert node.attributes[..i + 1][..i] == node.attributes[..i];
      if Matches(node, opt) && node.attributes[i] == MeshAttribute {
        ghost var n := MeshAttributes(node.attributes[..i]);
        node.mesh.Edit(opt);
        UVAfterAdd(old(node.mesh.uvLayers), n, 1, opt);
      }
      i := i + 1;
    }
    assert node.attributes[..i] == node.attributes;
  }

  /**
   * RemoveGeometryLayerElement on a node: its own attribute loop, then each
   * child's subtree in order. Each mesh of the subtree ends up edited once
   * per mesh attribute of each matching node that reaches it.
   */
  method Walk(node: Node, opt: Options)
    modifies Meshes(node)
    decreases node, 1
    ensures forall m :: m in Meshes(node) && old(allocated(m)) ==>
      && m.uvLayers == UVAfter(old(m.uvLayers), Edits(node, m, opt), opt)
      && m.colorLayers == ColorsAfter(old(m.colorLayers), Edits(node, m, opt), opt)
  {
    EditNode(node, opt);
    label Edited:
    WalkChildren(node, opt);
    forall m | m in Meshes(node) && old(allocated(m))
      ensures m.uvLayers == UVAfter(old(m.uvLayers), Edits(node, m, opt), opt)
      ensures m.colorLayers == ColorsAfter(old(m.colorLayers), Edits(node, m, opt), opt)
    {
      var a := OwnEdits(node, m, opt);
      var b := ChildEdits(node, |node.children|, m, opt);
      if m !in ChildMeshes(node, |node.children|) {
        ChildEditsOutside(node, |node.children|, m, opt);
      }
      UVAfterAdd(old(m.uvLayers), a, b, opt);
      ColorsAfterAdd(old(m.colorLayers), a, b, opt);
    }
  }

  /**
   * The children loop, shared by a node's walk and the entry point: each
   * child's subtree is walked in order, and a mesh of those subtrees ends up
   * edited as many times as the children's walks reach it.
   */
  method WalkChildren(node: Node, opt: Options)
    modifies ChildMeshes(node, |node.children|)
    decreases node, 0
    ensures forall m :: m in ChildMeshes(node, |node.children|) && old(allocated(m)) ==>
      && m.uvLayers == UVAfter(old(m.uvLayers), ChildEdits(node, |node.children|, m, opt), opt)
      && m.colorLayers == ColorsAfter(old(m.colorLayers), ChildEdits(node, |node.children|, m, opt), opt)
  {
    var i := 0;
    while i < |node.children|
      invariant 0 <= i <= |node.children|
      invariant forall m :: m in ChildMeshes(node, |node.children|) && old(allocated(m)) ==>
        && m.uvLayers == UVAfter(old(m.uvLayers), ChildEdits(node, i, m, opt), opt)
        && m.colorLayers == ColorsAfter(old(m.colorLayers), ChildEdits(node, i, m, opt), opt)
    {
      WalkChild(node, i, opt);
      forall m | m in ChildMeshes(node, |node.children|) && old(allocated(m))
        ensures m.uvLayers == UVAfter(old(m.uvLayers), ChildEdits(node, i + 1, m, opt), opt)
        ensures m.colorLayers == ColorsAfter(old(m.colorLayers), ChildEdits(node, i + 1, m, opt), opt)
      {
        ChildEditsStep(node, i, m, opt, old(m.uvLayers), old(m.colorLayers));
      }
      i := i + 1;
    }
  }

  /** The edits of children 0 .. i, then those of child i, are the edits of children 0 .. i + 1. */
  lemma ChildEditsStep(node: Node, i: nat, m: FbxMesh, opt: Options, uv: seq<Layer>, colors: seq<Layer>)
    requires i < |node.children|
    ensures UVAfter(UVAfter(uv, ChildEdits(node, i, m, opt), opt), Edits(node.children[i], m, opt), opt)
            == UVAfter(uv, ChildEdits(node, i + 1, m, opt), opt)
    ensures ColorsAfter(ColorsAfter(colors, ChildEdits(node, i, m, opt), opt), Edits(node.children[i], m, opt), opt)
            == ColorsAfter(colors, ChildEdits(node, i + 1, m, opt), opt)
  {
    var a := ChildEdits(node, i, m, opt);
    var b := Edits(node.children[i], m, opt);
    UVAfterAdd(uv, a, b, opt);
    ColorsAfterAdd(colors, a, b, opt);
  }

  /** One child: its subtree is walked and the rest of the node's subtree is left alone. */
  method WalkChild(node: Node, j: nat, opt: Options)
    requires j < |node.children|
    modifies ChildMeshes(node, |node.children|)
    decreases node, 0, 0
    ensures forall m :: m in ChildMeshes(node, |node.children|) && old(allocated(m)) ==>
      && m.uvLayers == UVAfter(old(m.uvLayers), Edits(node.children[j], m, opt), opt)
      && m.colorLayers == ColorsAfter(old(m.colorLayers), Edits(node.children[j], m, opt), opt)
  {
    var child := node.children[j];
    ChildInMeshes(node, j);
    Walk(child, opt);
    forall m | m in ChildMeshes(node, |node.children|) && m !in Meshes(child)
      ensures Edits(child, m, opt) == 0
    {
      EditsOutside(child, m, opt);
    }
  }

  lemma {:induction false} ChildMeshesGrow(node: Node, j: nat, k: nat)
    requires j <= k <= |node.children|
    ensures ChildMeshes(node, j) <= ChildMeshes(node, k)
    decreases k
  {
    if j < k {
      ChildMeshesGrow(node, j, k - 1);
    }
  }

  /** Each child's subtree lies in the node's. */
  lemma ChildInMeshes(node: Node, j: nat)
    requires j < |node.children|
    ensures Meshes(node.children[j]) <= ChildMeshes(node, |node.children|)
  {
    ChildMeshesGrow(node, j + 1, |node.children|);
  }

  /** The entry point's result codes. */
  datatype Result = Success | FailedToInitalize | NoRootNode

  /** The meshes under the root's children: the only ones an edit may reach. */
  ghost function SceneMeshes(root: Node): set<FbxMesh>
  {
    ChildMeshes(root, |root.children|)
  }

  /**
   * The exported entry point. The importer and exporter outcomes and the
   * root's presence are what the SDK reports. The root node itself is never
   * edited, only its children's subtrees; the scene is written back only on
   * Success.
   */
  method RemoveGeometryLayerElement(importerReady: bool, root: Option<Node>, exporterReady: bool, opt: Options)
    returns (result: Result, exported: bool)
    modifies if root.Some? then SceneMeshes(root.value) else {}
    ensures root.Some? && root.value.mesh !in SceneMeshes(root.value) ==>
      root.value.mesh.uvLayers == old(root.value.mesh.uvLayers) && root.value.mesh.colorLayers == old(root.value.mesh.colorLayers)
    ensures !importerReady ==> result == FailedToInitalize && !exported
    ensures importerReady && root.None? ==> result == NoRootNode && !exported
    ensures importerReady && root.Some? ==>
      && (result == if exporterReady then Success else FailedToInitalize)
      && exported == exporterReady
      && forall m :: m in SceneMeshes(root.value) && old(allocated(m)) ==>
           && m.uvLayers == UVAfter(old(m.uvLayers), ChildEdits(root.value, |root.value.children|, m, opt), opt)
           && m.colorLayers == ColorsAfter(old(m.colorLayers), ChildEdits(root.value, |root.value.children|, m, opt), opt)
  {
    if !importerReady {
      return FailedToInitalize, false;
    }
    if root.None? {
      return NoRootNode, false;
    }
    WalkChildren(root.value, opt);
    if !exporterReady {
      return FailedToInitalize, false;
    }
    return Success, true;
  }

  // ---------------------------------------------------------------------
  // A node with two mesh attributes

  /**
   * The attribute loop edits GetMesh() once per mesh attribute, so a node
   * with two mesh attributes loses a UV range twice: with layers a, b, c and
   * the range [0, 0], one edit leaves b, c and two leave only c.
   */
  lemma TwoMeshAttributesEditTwice(m: FbxMesh, a: Layer, b: Layer, c: Layer)
    ensures var opt := Options(None, true, 0, 0, false);
      var node := Node("n", [MeshAttribute, MeshAttribute], m, []);
      && OwnEdits(node, m, opt) == 2
      && UVAfter([a, b, c], 1, opt) == [b, c]
      && UVAfter([a, b, c], 2, opt) == [c]
  {
    var opt := Options(None, true, 0, 0, false);
    assert MeshAttributes([MeshAttribute, MeshAttribute]) == 2 by {
      assert [MeshAttribute, MeshAttribute][..1] == [MeshAttribute];
      assert MeshAttributes([MeshAttribute]) == 1 by {
        assert [MeshAttribute][..0] == [];
      }
    }
    assert KeepOutside([a, b, c], 0, 0) == [b, c] by {
      KeepOutsideSplit([a, b, c], 0, 0);
    }
    assert KeepOutside([b, c], 0, 0) == [c] by {
      KeepOutsideSplit([b, c], 0, 0);
    }
  }

  /** A node's edit as evidently intended: its mesh is edited once when any of its attributes is a mesh. */
  method EditNodeOnce(node: Node, opt: Options)
    modifies node.mesh
    ensures var edited := Matches(node, opt) && MeshAttribute in node.attributes;
      && node.mesh.uvLayers == (if edited && opt.uv then KeepOutside(old(node.mesh.uvLayers), opt.uvStart, opt.uvEnd)
                                else old(node.mesh.uvLayers))
      && node.mesh.colorLayers == (if edited && opt.vertexColor then [] else old(node.mesh.colorLayers))
  {
    var i := 0;
    while i < |node.attributes|
      invariant 0 <= i <= |node.attributes|
      invariant MeshAttribute !in node.attributes[..i] || !Matches(node, opt)
      invariant node.mesh.uvLayers == old(node.mesh.uvLayers) && node.mesh.colorLayers == old(node.mesh.colorLayers)
    {
      if Matches(node, opt) && node.attributes[i] == MeshAttribute {
        node.mesh.Edit(opt);
        return;
      }
      assert node.attributes[..i + 1] == node.attributes[..i] + [node.attributes[i]];
      i := i + 1;
    }
    assert node.attributes[..i] == node.attributes;
  }
}
