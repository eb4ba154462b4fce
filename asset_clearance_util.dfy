// String and tree helpers of the rule engine and its windows
// (AssetClearance/Editor/AssetClearanceUtil.cs): display names, group trees
// built from '/'-separated paths, preorder numbering, leaf lookup, relative
// paths inside a prefab, ping-object display names, the per-type parameter
// cursors and CSV export.
module AssetClearanceUtil {
  import opened Wrappers
  import Text
  import opened AssetClearanceReports
  import AssetClearanceRules

  // ---------------------------------------------------------------------
  // GetDisplayName

  /** Inserts a space before each upper-case letter whose predecessor (starting with `prev`) is not a space. */
  function SpaceUppers(prev: char, s: string): (r: string)
    ensures |r| >= |s|
    decreases |s|
  {
    if s == [] then []
    else (if Text.IsUpper(s[0]) && prev != ' ' then [' ', s[0]] else [s[0]]) + SpaceUppers(s[0], s[1..])
  }

  /** The display name of a non-empty identifier: first letter upper-cased, words separated by spaces. */
  function DisplayName(s: string): string
  {
    if s == [] then s
    else [Text.ToUpperChar(s[0])] + SpaceUppers(Text.ToUpperChar(s[0]), s[1..])
  }

  /** Every upper-case letter of t is preceded by a space (the first one by `prev`). */
  predicate Spaced(prev: char, t: string)
  {
    (t != [] && Text.IsUpper(t[0]) ==> prev == ' ') &&
    forall i :: 1 <= i < |t| && Text.IsUpper(t[i]) ==> t[i - 1] == ' '
  }

  lemma {:induction false} SpaceUppersSpaced(prev: char, s: string)
    ensures Spaced(prev, SpaceUppers(prev, s))
    decreases |s|
  {
    if s != [] {
      SpaceUppersSpaced(s[0], s[1..]);
      var head := if Text.IsUpper(s[0]) && prev != ' ' then [' ', s[0]] else [s[0]];
      var u := SpaceUppers(s[0], s[1..]);
      var t := head + u;
      assert SpaceUppers(prev, s) == t;
      forall i | 1 <= i < |t| && Text.IsUpper(t[i])
        ensures t[i - 1] == ' '
      {
        if i >= |head| {
          var k := i - |head|;
          assert t[i] == u[k];
          if k == 0 { assert t[i - 1] == s[0]; } else { assert t[i - 1] == u[k - 1]; }
        }
      }
    }
  }

  lemma {:induction false} SpacedUnchanged(prev: char, t: string)
    requires Spaced(prev, t)
    ensures SpaceUppers(prev, t) == t
    decreases |t|
  {
    if t != [] {
      assert Spaced(t[0], t[1..]) by {
        forall i | 1 <= i < |t[1..]| && Text.IsUpper(t[1..][i])
          ensures t[1..][i - 1] == ' '
        {
          assert t[i + 1] == t[1..][i];
        }
        if |t| > 1 && Text.IsUpper(t[1]) {
          assert t[1..][0] == t[1];
        }
      }
      SpacedUnchanged(t[0], t[1..]);
      assert Text.IsUpper(t[0]) ==> prev == ' ';
      assert t == [t[0]] + t[1..];
    }
  }

  /** GetDisplayName is idempotent. */
  lemma DisplayNameIdempotent(s: string)
    ensures DisplayName(DisplayName(s)) == DisplayName(s)
  {
    if s != [] {
      var c := Text.ToUpperChar(s[0]);
      var u := SpaceUppers(c, s[1..]);
      assert DisplayName(s) == [c] + u;
      assert ([c] + u)[1..] == u;
      assert Text.ToUpperChar(c) == c;
      SpaceUppersSpaced(c, s[1..]);
      SpacedUnchanged(c, u);
    }
  }

  /**
   * GetDisplayName: null and empty names are returned unchanged; otherwise
   * the first character is upper-cased and a space is inserted before each
   * later upper-case letter that does not follow a space.
   */
  method GetDisplayName(name: Option<string>) returns (r: Option<string>)
    ensures name.None? || name.value == [] ==> r == name
    ensures name.Some? && name.value != [] ==> r == Some(DisplayName(name.value))
    ensures r.Some? && r.value != [] ==> !Text.IsLower(r.value[0]) && Spaced(r.value[0], r.value[1..])
  {
    if name.None? || name.value == [] {
      return name;
    }
    ghost var s := name.value;
    var n := name.value;
    if !Text.IsUpper(n[0]) {
      n := [Text.ToUpperChar(n[0])] + n[1..];
    }
    assert n[..1] == [Text.ToUpperChar(s[0])] && n[1..] == s[1..];
    var i := 1;
    while i < |n|
      invariant 1 <= i <= |n|
      invariant n[..i] + SpaceUppers(n[i - 1], n[i..]) == DisplayName(s)
    {
      if Text.IsUpper(n[i]) && n[i - 1] != ' ' {
        InsertSpaceStep(n, i, DisplayName(s));
        n := n[..i] + [' '] + n[i..];
        i := i + 2;
      } else {
        KeepStep(n, i, DisplayName(s));
        i := i + 1;
      }
    }
    assert n[..i] == n && n[i..] == [];
    assert SpaceUppers(n[i - 1], n[i..]) == [];
    assert n + [] == n;
    r := Some(n);
    DisplayNameFirst(s);
    SpaceUppersSpaced(Text.ToUpperChar(s[0]), s[1..]);
  }

  lemma InsertSpaceStep(n: string, i: nat, t: string)
    requires 1 <= i < |n| && Text.IsUpper(n[i]) && n[i - 1] != ' '
    requires n[..i] + SpaceUppers(n[i - 1], n[i..]) == t
    ensures var m := n[..i] + [' '] + n[i..];
      i + 2 <= |m| && m[..i + 2] + SpaceUppers(m[i + 1], m[i + 2..]) == t
  {
    var m := n[..i] + [' '] + n[i..];
    assert n[i..][0] == n[i] && n[i..][1..] == n[i + 1..];
    assert m[..i + 2] == n[..i] + [' ', n[i]];
    assert m[i + 1] == n[i] && m[i + 2..] == n[i + 1..];
  }

  lemma KeepStep(n: string, i: nat, t: string)
    requires 1 <= i < |n| && !(Text.IsUpper(n[i]) && n[i - 1] != ' ')
    requires n[..i] + SpaceUppers(n[i - 1], n[i..]) == t
    ensures n[..i + 1] + SpaceUppers(n[i], n[i + 1..]) == t
  {
    assert n[i..][0] == n[i] && n[i..][1..] == n[i + 1..];
    assert n[..i + 1] == n[..i] + [n[i]];
  }

  lemma DisplayNameFirst(s: string)
    requires s != []
    ensures DisplayName(s) != [] && DisplayName(s)[0] == Text.ToUpperChar(s[0])
    ensures DisplayName(s)[1..] == SpaceUppers(Text.ToUpperChar(s[0]), s[1..])
  {
  }

  // ---------------------------------------------------------------------
  // Tree items: SetIndexToTreeItems and GetTreeViewLeafRecursively

  /** A tree-view item: id, display name and children (hasChildren means a non-empty list). */
  datatype TreeItem = TreeItem(id: int, displayName: string, children: seq<TreeItem>)

  /** Ids in preorder. */
  function Ids(t: TreeItem): seq<int>
    decreases t
  {
    [t.id] + IdsList(t.children)
  }

  function IdsList(cs: seq<TreeItem>): seq<int>
    decreases cs
  {
    if cs == [] then [] else IdsList(cs[..|cs| - 1]) + Ids(cs[|cs| - 1])
  }

  /** Two trees with the same names and branching, ids aside. */
  predicate SameShape(a: TreeItem, b: TreeItem)
    decreases a
  {
    a.displayName == b.displayName && |a.children| == |b.children| &&
    forall k :: 0 <= k < |a.children| ==> SameShape(a.children[k], b.children[k])
  }

  /** Consecutive integers from `from`. */
  function Range(from: int, n: nat): (r: seq<int>)
    ensures |r| == n && forall k :: 0 <= k < n ==> r[k] == from + k
  {
    if n == 0 then [] else Range(from, n - 1) + [from + n - 1]
  }

  lemma RangeSplit(from: int, m: nat, n: nat)
    ensures Range(from, m) + Range(from + m, n) == Range(from, m + n)
  {
  }

  lemma {:induction false} IdsListShape(a: seq<TreeItem>, b: seq<TreeItem>)
    requires |a| == |b| && forall k :: 0 <= k < |a| ==> SameShape(a[k], b[k])
    ensures |IdsList(a)| == |IdsList(b)|
    decreases a
  {
    if a != [] {
      IdsListShape(a[..|a| - 1], b[..|b| - 1]);
      IdsShape(a[|a| - 1], b[|b| - 1]);
    }
  }

  lemma {:induction false} IdsShape(a: TreeItem, b: TreeItem)
    requires SameShape(a, b)
    ensures |Ids(a)| == |Ids(b)|
    decreases a
  {
    IdsListShape(a.children, b.children);
  }

  /**
   * SetIndexToTreeItems: numbers the items of the tree in preorder with
   * consecutive ids starting at `index`; the index advances by the size of
   * the subtree.
   */
  method SetIndexToTreeItems(root: TreeItem, index: int) returns (numbered: TreeItem, next: int)
    ensures SameShape(numbered, root)
    ensures Ids(numbered) == Range(index, |Ids(root)|)
    ensures next == index + |Ids(root)|
    decreases root
  {
    var id := index;
    var idx := index + 1;
    var kids: seq<TreeItem> := [];
    var k := 0;
    while k < |root.children|
      invariant 0 <= k <= |root.children| && |kids| == k
      invariant forall j :: 0 <= j < k ==> SameShape(kids[j], root.children[j])
      invariant IdsList(kids) == Range(index + 1, |IdsList(root.children[..k])|)
      invariant idx == index + 1 + |IdsList(root.children[..k])|
    {
      var child, after := SetIndexToTreeItems(root.children[k], idx);
      NumberStep(root.children, k, kids, child, index + 1);
      assert (kids + [child])[k] == child;
      kids := kids + [child];
      idx := after;
      k := k + 1;
    }
    assert root.children[..k] == root.children;
    numbered := TreeItem(id, root.displayName, kids);
    next := idx;
    NumberedRoot(root, kids, index);
  }

  lemma NumberedRoot(root: TreeItem, kids: seq<TreeItem>, index: int)
    requires |kids| == |root.children|
    requires forall j :: 0 <= j < |kids| ==> SameShape(kids[j], root.children[j])
    requires IdsList(kids) == Range(index + 1, |IdsList(root.children)|)
    ensures SameShape(TreeItem(index, root.displayName, kids), root)
    ensures Ids(TreeItem(index, root.displayName, kids)) == Range(index, |Ids(root)|)
  {
    RangeSplit(index, 1, |IdsList(root.children)|);
  }

  lemma NumberStep(children: seq<TreeItem>, k: nat, kids: seq<TreeItem>, child: TreeItem, from: int)
    requires k < |children| && |kids| == k
    requires IdsList(kids) == Range(from, |IdsList(children[..k])|)
    requires Ids(child) == Range(from + |IdsList(children[..k])|, |Ids(children[k])|)
    ensures IdsList(kids + [child]) == Range(from, |IdsList(children[..k + 1])|)
  {
    var next := kids + [child];
    assert next[..|next| - 1] == kids && next[|next| - 1] == child;
    assert IdsList(next) == IdsList(kids) + Ids(child);
    var pre := children[..k + 1];
    assert pre[..|pre| - 1] == children[..k] && pre[|pre| - 1] == children[k];
    assert IdsList(pre) == IdsList(children[..k]) + Ids(children[k]);
    RangeSplit(from, |IdsList(children[..k])|, |Ids(children[k])|);
  }

  /** Leaves (items without children) in preorder. */
  function Leaves(t: TreeItem): seq<TreeItem>
    decreases t
  {
    if t.children == [] then [t] else LeavesList(t.children)
  }

  function LeavesList(cs: seq<TreeItem>): seq<TreeItem>
    decreases cs
  {
    if cs == [] then [] else Leaves(cs[0]) + LeavesList(cs[1..])
  }

  /** The first item of the list with the given id. */
  function FirstWithId(items: seq<TreeItem>, id: int): Option<TreeItem>
  {
    if items == [] then Option.None
    else if items[0].id == id then Some(items[0])
    else FirstWithId(items[1..], id)
  }

  lemma {:induction false} FirstWithIdAppend(a: seq<TreeItem>, b: seq<TreeItem>, id: int)
    ensures FirstWithId(a + b, id) == if FirstWithId(a, id).Some? then FirstWithId(a, id) else FirstWithId(b, id)
  {
    if a != [] {
      assert (a + b)[1..] == a[1..] + b;
      FirstWithIdAppend(a[1..], b, id);
    } else {
      assert a + b == b;
    }
  }

  /**
   * GetTreeViewLeafRecursively: a childless item matches on its id; an item
   * with children returns the first match among them; otherwise null.
   */
  function GetTreeViewLeafRecursively(parent: TreeItem, id: int): (r: Option<TreeItem>)
    ensures r.Some? ==> r.value.id == id && r.value.children == []
    decreases parent, 1
  {
    if parent.children == [] then (if parent.id == id then Some(parent) else Option.None)
    else LeafAmong(parent, 0, id)
  }

  function LeafAmong(parent: TreeItem, i: nat, id: int): (r: Option<TreeItem>)
    requires i <= |parent.children|
    ensures r.Some? ==> r.value.id == id && r.value.children == []
    decreases parent, 0, |parent.children| - i
  {
    if i == |parent.children| then Option.None
    else
      var item := GetTreeViewLeafRecursively(parent.children[i], id);
      if item.Some? then item else LeafAmong(parent, i + 1, id)
  }

  /** GetTreeViewLeafRecursively returns the first leaf in preorder with that id. */
  lemma {:induction false} LeafIsFirstInPreorder(t: TreeItem, id: int)
    ensures GetTreeViewLeafRecursively(t, id) == FirstWithId(Leaves(t), id)
    decreases t, 1
  {
    if t.children != [] {
      LeafAmongIsFirst(t, 0, id);
      assert t.children[0..] == t.children;
    }
  }

  lemma {:induction false} LeafAmongIsFirst(parent: TreeItem, i: nat, id: int)
    requires i <= |parent.children|
    ensures LeafAmong(parent, i, id) == FirstWithId(LeavesList(parent.children[i..]), id)
    decreases parent, 0, |parent.children| - i
  {
    if i < |parent.children| {
      var cs := parent.children[i..];
      assert cs[0] == parent.children[i] && cs[1..] == parent.children[i + 1..];
      LeafIsFirstInPreorder(parent.children[i], id);
      LeafAmongIsFirst(parent, i + 1, id);
      FirstWithIdAppend(Leaves(cs[0]), LeavesList(cs[1..]), id);
    }
  }

  // ---------------------------------------------------------------------
  // BuildGroup

  /** Path.GetFileName for '/'-separated paths: the text after the last separator. */
  function FileName(path: string): (r: string)
    ensures |r| <= |path| && r == path[|path| - |r|..]
    ensures '/' !in r
  {
    if path == [] then []
    else if path[|path| - 1] == '/' then []
    else
      var r := FileName(path[..|path| - 1]);
      assert path[..|path| - 1][|path| - 1 - |r|..] + [path[|path| - 1]] == path[|path| - |r| - 1..];
      r + [path[|path| - 1]]
  }

  /** Path.GetDirectoryName for '/'-separated paths: the text before the last separator, or "". */
  function DirectoryName(path: string): (r: string)
    ensures |r| < |path| || path == []
    ensures path != [] && '/' in path ==> path == r + "/" + FileName(path)
    ensures '/' !in path ==> r == []
  {
    var f := FileName(path);
    if |f| == |path| then []
    else
      assert path[|path| - |f| - 1] == '/' by {
        if path[|path| - |f| - 1] != '/' {
          var p := path[..|path| - |f|];
          assert FileName(path) == f;
          FileNameExtends(path, |f|);
        }
      }
      assert path == path[..|path| - |f| - 1] + "/" + f;
      path[..|path| - |f| - 1]
  }

  lemma {:induction false} FileNameOf(dir: string, file: string)
    requires '/' !in file
    ensures FileName(dir + "/" + file) == file
    decreases |file|
  {
    var path := dir + "/" + file;
    if file != [] {
      var init := file[..|file| - 1];
      assert path[..|path| - 1] == dir + "/" + init;
      assert path[|path| - 1] == file[|file| - 1];
      assert '/' !in init;
      FileNameOf(dir, init);
      assert file == init + [file[|file| - 1]];
    }
  }

  /** Path.GetDirectoryName of a path inside `dir` is `dir`; in particular that of `dir + "/"`. */
  lemma DirectoryNameOf(dir: string, file: string)
    requires '/' !in file
    ensures DirectoryName(dir + "/" + file) == dir
  {
    FileNameOf(dir, file);
    var path := dir + "/" + file;
    assert '/' in path by { assert path[|dir|] == '/'; }
    var r := DirectoryName(path);
    assert path == r + "/" + file;
    assert |r| == |dir|;
    assert r == path[..|dir|] == dir;
  }

  lemma {:induction false} FileNameExtends(path: string, n: nat)
    requires n == |FileName(path)| < |path|
    ensures path[|path| - n - 1] == '/'
  {
    if path[|path| - 1] != '/' {
      var init := path[..|path| - 1];
      assert FileName(path) == FileName(init) + [path[|path| - 1]];
      FileNameExtends(init, n - 1);
      assert init[|init| - (n - 1) - 1] == path[|path| - n - 1];
    }
  }

  /** The last segment of `path` and of each of its parent paths. */
  function PathNames(path: string): set<string>
    decreases |path|
  {
    if path == [] then {} else PathNames(DirectoryName(path)) + {FileName(path)}
  }

  /**
   * The node a new node for `group` hangs under: the root when the group
   * has no parent path, else the node recorded for the parent path's last
   * segment.
   */
  function ParentNode(group: string, dict: map<string, nat>): nat
  {
    var dir := DirectoryName(group);
    if dir == [] || FileName(dir) !in dict then 0 else dict[FileName(dir)]
  }

  /** A node of a group tree: its display name, its parent node and its child nodes (by index). */
  datatype GroupItem = GroupItem(name: string, parent: nat, children: seq<nat>)

  /**
   * The items built by BuildGroup, kept in an arena: node 0 is the root,
   * `dict` maps a leaf name to the node created for it.
   */
  class GroupTree {
    var items: seq<GroupItem>
    var dict: map<string, nat>

    ghost predicate Valid()
      reads this
    {
      |items| >= 1 &&
      (forall name :: name in dict ==> 0 < dict[name] < |items| && items[dict[name]].name == name) &&
      (forall k :: 0 < k < |items| ==> items[k].parent < k)
    }

    constructor (rootName: string)
      ensures Valid() && items == [GroupItem(rootName, 0, [])] && dict == map[]
    {
      items := [GroupItem(rootName, 0, [])];
      dict := map[];
    }

    /**
     * BuildGroup: the root for an empty group; otherwise the node named by
     * the last path segment, created under the node of the parent path only
     * when no node with that leaf name exists yet.
     */
    method BuildGroup(group: string) returns (node: nat)
      requires Valid()
      modifies this
      ensures Valid() && node < |items|
      ensures group == [] ==> node == 0 && items == old(items) && dict == old(dict)
      ensures group != [] ==> FileName(group) in dict && node == dict[FileName(group)]
      ensures group != [] && FileName(group) in old(dict) ==> node == old(dict)[FileName(group)]
      ensures dict.Keys == old(dict).Keys + PathNames(group)
      ensures group != [] && FileName(group) !in old(dict) && FileName(group) !in PathNames(DirectoryName(group)) ==>
        && node == |items| - 1 && items[node] == GroupItem(FileName(group), ParentNode(group, dict), [])
        && var siblings := items[items[node].parent].children;
           siblings != [] && siblings[|siblings| - 1] == node
      ensures old(dict).Keys <= dict.Keys && forall name :: name in old(dict) ==> dict[name] == old(dict)[name]
      ensures |old(items)| <= |items| && forall k :: 0 <= k < |old(items)| ==> items[k].name == old(items)[k].name
      decreases |group|
    {
      if group == [] {
        return 0;
      }
      var parent := BuildGroup(DirectoryName(group));
      node := Attach(group, parent);
    }

    /** The last step of BuildGroup: the node for the leaf name of `group`, created under `parent` when missing. */
    method Attach(group: string, parent: nat) returns (node: nat)
      requires Valid() && group != [] && parent < |items| && parent == ParentNode(group, dict)
      requires DirectoryName(group) != [] ==> FileName(DirectoryName(group)) in dict
      modifies this
      ensures Valid() && node < |items|
      ensures FileName(group) in dict && node == dict[FileName(group)]
      ensures FileName(group) in old(dict) ==> items == old(items) && dict == old(dict)
      ensures dict.Keys == old(dict).Keys + {FileName(group)}
      ensures FileName(group) !in old(dict) ==>
        && node == |items| - 1 && items[node] == GroupItem(FileName(group), ParentNode(group, dict), [])
        && var siblings := items[items[node].parent].children;
           siblings != [] && siblings[|siblings| - 1] == node
      ensures forall name :: name in old(dict) ==> dict[name] == old(dict)[name]
      ensures |old(items)| <= |items| && forall k :: 0 <= k < |old(items)| ==> items[k].name == old(items)[k].name
    {
      var name := FileName(group);
      if name !in dict {
        AddChild(parent, name);
        assert parent == ParentNode(group, dict);
      }
      node := dict[name];
    }

    /** Creates the node for `name` under `parent` and records it in the dictionary. */
    method AddChild(parent: nat, name: string)
      requires Valid() && parent < |items| && name !in dict
      modifies this
      ensures Valid()
      ensures dict == old(dict)[name := |old(items)|]
      ensures |items| == |old(items)| + 1 && items[|old(items)|] == GroupItem(name, parent, [])
      ensures forall k :: 0 <= k < |old(items)| ==> items[k].name == old(items)[k].name
      ensures items[parent].children == old(items)[parent].children + [|old(items)|]
    {
      var created := |items|;
      items := items[parent := items[parent].(children := items[parent].children + [created])] +
               [GroupItem(name, parent, [])];
      dict := dict[name := created];
    }
  }

  // ---------------------------------------------------------------------
  // GetGameObjectRelativePath

  /** A game object of a prefab: instance id, name and child objects. */
  datatype GameObject = GameObject(instanceId: nat, name: string, children: seq<GameObject>)

  predicate InSubtree(root: GameObject, target: nat)
    decreases root
  {
    root.instanceId == target || exists k :: 0 <= k < |root.children| && InSubtree(root.children[k], target)
  }

  /** `steps` walks from root down through children to the target. */
  predicate IsPath(root: GameObject, steps: seq<GameObject>, target: nat)
    decreases |steps|
  {
    if steps == [] then root.instanceId == target
    else steps[0] in root.children && IsPath(steps[0], steps[1..], target)
  }

  /** "name/" for each step of the path. */
  function PathPrefix(steps: seq<GameObject>): string
  {
    if steps == [] then [] else steps[0].name + "/" + PathPrefix(steps[1..])
  }

  /**
   * GetGameObjectRelativePath: Some(new relativePath) when the target lies
   * in root's subtree (the ref parameter prefixed with "child/" per step),
   * None (false, relativePath untouched) otherwise.
   */
  function GetGameObjectRelativePath(root: GameObject, target: nat, relativePath: string): (r: Option<string>)
    ensures r.Some? <==> InSubtree(root, target)
    decreases root, 1
  {
    if root.instanceId == target then Some(relativePath)
    else RelativePathAmong(root, 0, target, relativePath)
  }

  function RelativePathAmong(root: GameObject, i: nat, target: nat, relativePath: string): (r: Option<string>)
    requires i <= |root.children|
    ensures r.Some? <==> exists k :: i <= k < |root.children| && InSubtree(root.children[k], target)
    decreases root, 0, |root.children| - i
  {
    if i == |root.children| then Option.None
    else
      var child := root.children[i];
      var sub := GetGameObjectRelativePath(child, target, relativePath);
      if sub.Some? then Some(child.name + "/" + sub.value)
      else RelativePathAmong(root, i + 1, target, relativePath)
  }

  /** On success the result is the names along a path from root to the target, each followed by "/", then the old value. */
  lemma {:induction false} RelativePathIsPath(root: GameObject, target: nat, relativePath: string)
    requires InSubtree(root, target)
    ensures exists steps :: IsPath(root, steps, target) &&
              GetGameObjectRelativePath(root, target, relativePath) == Some(PathPrefix(steps) + relativePath)
    decreases root, 1
  {
    if root.instanceId == target {
      assert IsPath(root, [], target);
      assert PathPrefix([]) + relativePath == relativePath;
    } else {
      RelativePathAmongIsPath(root, 0, target, relativePath);
    }
  }

  lemma {:induction false} RelativePathAmongIsPath(root: GameObject, i: nat, target: nat, relativePath: string)
    requires i <= |root.children|
    requires exists k :: i <= k < |root.children| && InSubtree(root.children[k], target)
    ensures exists steps :: IsPath(root, steps, target) &&
              RelativePathAmong(root, i, target, relativePath) == Some(PathPrefix(steps) + relativePath)
    decreases root, 0, |root.children| - i
  {
    var child := root.children[i];
    if InSubtree(child, target) {
      RelativePathIsPath(child, target, relativePath);
      var rest :| IsPath(child, rest, target) &&
                  GetGameObjectRelativePath(child, target, relativePath) == Some(PathPrefix(rest) + relativePath);
      var steps := [child] + rest;
      assert steps[1..] == rest;
      assert IsPath(root, steps, target);
      assert PathPrefix(steps) + relativePath == child.name + "/" + (PathPrefix(rest) + relativePath);
    } else {
      RelativePathAmongIsPath(root, i + 1, target, relativePath);
    }
  }

  // ---------------------------------------------------------------------
  // GetPingObjectDisplayName

  /**
   * GetPingObjectDisplayName: "" for a null ping object; its asset path when
   * that differs from `assetPath`; the loaded sub-asset's name
   * (`subAssetName`) for sub-assets; otherwise the referencer path or "".
   */
  function GetPingObjectDisplayName(assetPath: string, ping: Option<PingObject>, subAssetName: string): (r: Option<string>)
    ensures ping.None? ==> r == Some("")
    ensures ping.Some? && ping.value.assetPath != Some(assetPath) ==> r == ping.value.assetPath
    ensures ping.Some? && ping.value.assetPath == Some(assetPath) ==>
              r.Some? && r.value == (if ping.value.subAsset then subAssetName else ping.value.referencerPath.GetOr(""))
  {
    if ping.None? then Some("")
    else if ping.value.assetPath != Some(assetPath) then ping.value.assetPath
    else if ping.value.subAsset then Some(subAssetName)
    else if ping.value.referencerPath.Some? then ping.value.referencerPath
    else Some("")
  }

  // ---------------------------------------------------------------------
  // GetParamCountsIndexDict / GetParamCountict

  /**
   * The cursor dictionaries: a fresh counter at 0 per element type, shared
   * by the scalar type and its array type (both keyed by the ParamKind).
   */
  function FreshCursors(): (m: map<AssetClearanceRules.ParamKind, nat>)
    ensures forall k :: k in m ==> m[k] == 0
  {
    map[AssetClearanceRules.IntKind := 0, AssetClearanceRules.FloatKind := 0,
        AssetClearanceRules.BoolKind := 0, AssetClearanceRules.StringKind := 0,
        AssetClearanceRules.ObjectKind := 0]
  }

  /** Every parameter kind has a counter in the fresh dictionaries. */
  lemma FreshCursorsTotal(k: AssetClearanceRules.ParamKind)
    ensures k in FreshCursors() && FreshCursors()[k] == 0
  {
    match k
    case IntKind =>
    case FloatKind =>
    case BoolKind =>
    case StringKind =>
    case ObjectKind =>
  }

  // ---------------------------------------------------------------------
  // SaveReportsToCSV

  const CsvHeader: string := "Group,Status,Rules,Rule,AssetPath,PingObject,Log,Priority,Note\n"

  function StatusName(s: Status): string
  {
    match s
    case Confirm => "Confirm"
    case Fixing => "Fixing"
    case Ignore => "Ignore"
  }

  function PriorityName(p: Priority): string
  {
    match p
    case High => "High"
    case Middle => "Middle"
    case Low => "Low"
  }

  /**
   * The nine CSV fields of a report; priority is written only for Fixing and
   * the note only for Fixing or Ignore. `rulesPath` is the asset path of the
   * rules asset and `subAssetName` the loaded sub-asset's name.
   */
  function CsvFields(report: Report, rulesPath: string, subAssetName: string): (f: seq<string>)
    reads report
    ensures |f| == 9
    ensures f[1] == StatusName(report.status) && f[6] == report.log.GetOr("")
    ensures f[7] == (if report.status == Fixing then PriorityName(report.priority) else "")
    ensures f[8] == (if report.status == Fixing || report.status == Ignore then report.note else "")
  {
    [Text.IntToString(report.group), StatusName(report.status), rulesPath, report.ruleName,
     report.assetPath, GetPingObjectDisplayName(report.assetPath, report.pingObject, subAssetName).GetOr(""),
     report.log.GetOr(""),
     if report.status == Fixing then PriorityName(report.priority) else "",
     if report.status == Fixing || report.status == Ignore then report.note else ""]
  }

  /** The CSV text for the reports: the header, then one line per report with a non-empty log. */
  function CsvBody(reports: seq<Report>, rulesPath: nat -> string, subAssetName: Report -> string): string
    reads reports
  {
    if reports == [] then []
    else
      var init := CsvBody(reports[..|reports| - 1], rulesPath, subAssetName);
      var last := reports[|reports| - 1];
      if IsNullOrEmpty(last.log) then init
      else init + Text.Join(CsvFields(last, rulesPath(last.rules), subAssetName(last)), ",") + "\n"
  }

  /**
   * SaveReportsToCSV (the text it writes; the file itself is not modelled).
   * `rulesPath` stands for AssetDatabase.GetAssetPath of a rules asset.
   */
  method SaveReportsToCSV(reports: seq<Report>, rulesPath: nat -> string, subAssetName: Report -> string)
    returns (text: string)
    ensures text == CsvHeader + CsvBody(reports, rulesPath, subAssetName)
  {
    var builder := CsvHeader;
    var i := 0;
    while i < |reports|
      invariant 0 <= i <= |reports|
      invariant builder == CsvHeader + CsvBody(reports[..i], rulesPath, subAssetName)
    {
      var report := reports[i];
      assert reports[..i + 1][..i] == reports[..i];
      if !IsNullOrEmpty(report.log) {
        var fields := CsvFields(report, rulesPath(report.rules), subAssetName(report));
        builder := builder + Text.Join(fields, ",") + "\n";
      }
      i := i + 1;
    }
    assert reports[..i] == reports;
    text := builder;
  }

  /** Joining parts without separators and splitting again gives the parts back. */
  lemma {:induction false} SplitJoinInverse(parts: seq<string>, sep: char)
    requires |parts| >= 1
    requires forall k :: 0 <= k < |parts| ==> sep !in parts[k]
    ensures Text.Split(Text.Join(parts, [sep]), sep) == parts
  {
    if |parts| == 1 {
    } else {
      var rest := Text.Join(parts[1..], [sep]);
      var s := parts[0] + [sep] + rest;
      assert Text.Join(parts, [sep]) == s;
      assert sep in s by { assert s[|parts[0]|] == sep; }
      var k := Text.FirstIndex(s, sep);
      assert k == |parts[0]|;
      assert s[..k] == parts[0] && s[k + 1..] == rest;
      SplitJoinInverse(parts[1..], sep);
    }
  }

  /** A CSV line splits back into its nine fields when no field holds a comma (no quoting is applied). */
  lemma CsvLineFields(report: Report, rulesPath: string, subAssetName: string)
    requires forall k :: 0 <= k < 9 ==> ',' !in CsvFields(report, rulesPath, subAssetName)[k]
    ensures |Text.Split(Text.Join(CsvFields(report, rulesPath, subAssetName), ","), ',')| == 9
  {
    SplitJoinInverse(CsvFields(report, rulesPath, subAssetName), ',');
  }
}
