// Helpers shared by the check methods
// (AssetClearance/Editor/Methods/AssetClearanceMethods_Utils.cs): array
// scans, the include/exclude component filter, the dependency collectors
// and the platform texture size. Unity objects are opaque ids, `None` is a
// null reference; Transform.Find, GetComponentsInChildren and the asset
// database are function parameters.
module AssetClearanceMethodUtils {
  import opened Wrappers
  import Text

  // ---------------------------------------------------------------------
  // Array scans

  predicate AllEqual<T(==)>(s: seq<T>)
  {
    forall i :: 0 <= i < |s| ==> s[i] == s[0]
  }

  /**
   * IsUselessMeshInfo: a mesh channel whose entries are all the same
   * (compared each with the previous one); never for fewer than two.
   */
  method IsUselessMeshInfo<T(==)>(info: seq<T>) returns (r: bool)
    ensures r <==> |info| > 1 && AllEqual(info)
  {
    if |info| <= 1 {
      return false;
    }
    var a := info[0];
    var i := 1;
    while i < |info|
      invariant 1 <= i <= |info|
      invariant a == info[i - 1] && AllEqual(info[..i])
    {
      if a != info[i] {
        return false;
      }
      a := info[i];
      i := i + 1;
    }
    assert info[..i] == info;
    return true;
  }

  predicate IsNullOrWhiteSpace(s: Option<string>)
  {
    s.None? || Text.IsBlank(s.value)
  }

  /** IsEmptyStringArray: null, empty, or only null or blank entries. */
  method IsEmptyStringArray(strings: Option<seq<Option<string>>>) returns (r: bool)
    ensures r <==> strings.None? || forall i :: 0 <= i < |strings.value| ==> IsNullOrWhiteSpace(strings.value[i])
  {
    if strings.None? || |strings.value| == 0 {
      return true;
    }
    var i := 0;
    while i < |strings.value|
      invariant 0 <= i <= |strings.value|
      invariant forall j :: 0 <= j < i ==> IsNullOrWhiteSpace(strings.value[j])
    {
      if !IsNullOrWhiteSpace(strings.value[i]) {
        return false;
      }
      i := i + 1;
    }
    return true;
  }

  /** HasLostMaterial: a null or empty material array, or one with a null slot. */
  method HasLostMaterial(matArr: Option<seq<Option<nat>>>) returns (r: bool)
    ensures r <==> matArr.None? || matArr.value == [] || Option.None in matArr.value
  {
    if matArr.None? {
      return true;
    }
    if |matArr.value| == 0 {
      return true;
    }
    for i := 0 to |matArr.value|
      invariant Option.None !in matArr.value[..i]
    {
      if matArr.value[i].None? {
        return true;
      }
    }
    assert matArr.value[..|matArr.value|] == matArr.value;
    return false;
  }

  // ---------------------------------------------------------------------
  // GetComponentsInChildrenAdvanced

  /**
   * The roots the non-blank paths lead to: null when every path is blank,
   * otherwise the list of the roots `find` locates, in order.
   */
  function RootsOf(paths: seq<Option<string>>, find: string -> Option<nat>): (r: Option<seq<nat>>)
    ensures r.None? <==> forall i :: 0 <= i < |paths| ==> IsNullOrWhiteSpace(paths[i])
    ensures r.Some? ==> forall x :: x in r.value <==>
      exists i :: 0 <= i < |paths| && !IsNullOrWhiteSpace(paths[i]) && find(paths[i].value) == Some(x)
  {
    if paths == [] then Option.None
    else
      var init := RootsOf(paths[..|paths| - 1], find);
      var p := paths[|paths| - 1];
      assert forall i :: 0 <= i < |paths| - 1 ==> paths[..|paths| - 1][i] == paths[i];
      if IsNullOrWhiteSpace(p) then init
      else
        var found := if find(p.value).Some? then [find(p.value).value] else [];
        Some(init.GetOr([]) + found)
  }

  lemma RootsStep(paths: seq<Option<string>>, find: string -> Option<nat>)
    requires paths != []
    ensures var init, p := RootsOf(paths[..|paths| - 1], find), paths[|paths| - 1];
      RootsOf(paths, find) ==
        if IsNullOrWhiteSpace(p) then init
        else Some(init.GetOr([]) + if find(p.value).Some? then [find(p.value).value] else [])
  {
  }

  /** The roots loop: the list is created at the first non-blank path. */
  method CollectRoots(paths: seq<Option<string>>, find: string -> Option<nat>) returns (roots: Option<seq<nat>>)
    ensures roots == RootsOf(paths, find)
  {
    roots := Option.None;
    for i := 0 to |paths|
      invariant roots == RootsOf(paths[..i], find)
    {
      assert paths[..i + 1][..i] == paths[..i];
      RootsStep(paths[..i + 1], find);
      var path := paths[i];
      if !IsNullOrWhiteSpace(path) {
        ghost var before := roots;
        if roots.None? {
          roots := Some([]);
        }
        assert roots.value == before.GetOr([]);
        var root := find(path.value);
        if root.Some? {
          roots := Some(roots.value + [root.value]);
        } else {
          assert roots.value + [] == roots.value;
        }
      }
    }
    assert paths[..|paths|] == paths;
  }

  /** The transforms under the roots (each root included), root by root. */
  function ChildrenOf(roots: seq<nat>, descendants: nat -> seq<nat>): (r: seq<nat>)
    ensures forall x :: x in r <==> exists j :: 0 <= j < |roots| && x in descendants(roots[j])
  {
    if roots == [] then []
    else
      var init := roots[..|roots| - 1];
      assert forall j :: 0 <= j < |init| ==> init[j] == roots[j];
      ChildrenOf(init, descendants) + descendants(roots[|roots| - 1])
  }

  method CollectChildren(roots: Option<seq<nat>>, descendants: nat -> seq<nat>) returns (children: seq<nat>)
    ensures children == if roots.None? then [] else ChildrenOf(roots.value, descendants)
  {
    children := [];
    if roots.Some? {
      for j := 0 to |roots.value|
        invariant children == ChildrenOf(roots.value[..j], descendants)
      {
        assert roots.value[..j + 1][..j] == roots.value[..j];
        children := children + descendants(roots.value[j]);
      }
      assert roots.value[..|roots.value|] == roots.value;
    }
  }

  /** The components that survive the filter. */
  predicate Keep(c: Option<nat>, includeRoots: Option<seq<nat>>, excludeRoots: Option<seq<nat>>,
                 transformOf: nat -> nat, descendants: nat -> seq<nat>)
  {
    c.Some? &&
    (includeRoots.None? || transformOf(c.value) in ChildrenOf(includeRoots.value, descendants)) &&
    (excludeRoots.None? || transformOf(c.value) !in ChildrenOf(excludeRoots.value, descendants))
  }

  /**
   * The swap-to-end loop: each rejected component is swapped with the last
   * unexamined one, so the kept ones end up in a[..n] in some order and the
   * rejected ones in a[n..].
   */
  method Compact(a: array<Option<nat>>, keep: Option<nat> -> bool) returns (n: nat)
    modifies a
    ensures n <= a.Length
    ensures multiset(a[..]) == multiset(old(a[..]))
    ensures forall i :: 0 <= i < n ==> keep(a[i])
    ensures forall i :: n <= i < a.Length ==> !keep(a[i])
  {
    n := a.Length;
    var i := 0;
    while i < n
      invariant 0 <= i <= n <= a.Length
      invariant multiset(a[..]) == multiset(old(a[..]))
      invariant forall j :: 0 <= j < i ==> keep(a[j])
      invariant forall j :: n <= j < a.Length ==> !keep(a[j])
      decreases n - i
    {
      if !keep(a[i]) {
        n := n - 1;
        Swap(a, i, n);
      } else {
        i := i + 1;
      }
    }
  }

  /** Exchanges a[i] and a[j]; the contents stay the same multiset. */
  method Swap(a: array<Option<nat>>, i: nat, j: nat)
    requires i < a.Length && j < a.Length
    modifies a
    ensures a[..] == old(a[..])[i := old(a[j])][j := old(a[i])]
    ensures multiset(a[..]) == multiset(old(a[..]))
  {
    a[i], a[j] := a[j], a[i];
  }

  /** Splitting a sequence at n splits its multiset. */
  lemma MultisetSplit(s: seq<Option<nat>>, n: nat)
    requires n <= |s|
    ensures multiset(s) == multiset(s[..n]) + multiset(s[n..])
  {
    assert s == s[..n] + s[n..];
  }

  /** The include (or exclude) roots of a path list and the transforms under them. */
  method FindRoots(paths: Option<seq<Option<string>>>, defaults: seq<string>,
                   find: string -> Option<nat>, descendants: nat -> seq<nat>)
    returns (roots: Option<seq<nat>>, children: seq<nat>)
    ensures roots == RootsOf(PathsOrDefault(paths, defaults), find)
    ensures children == if roots.None? then [] else ChildrenOf(roots.value, descendants)
  {
    var empty := IsEmptyStringArray(paths);
    var list := if empty then Wrap(defaults) else paths.value;
    roots := CollectRoots(list, find);
    children := CollectChildren(roots, descendants);
  }

  /**
   * GetComponentsInChildrenAdvanced: falls back to the rule defaults for
   * blank path lists, then keeps exactly the non-null components under a
   * found include root (when any include path is given) and under no
   * found exclude root, each as often as it occurs; the order is not kept.
   */
  method GetComponentsInChildrenAdvanced(components: seq<Option<nat>>,
                                         includePaths: Option<seq<Option<string>>>, excludePaths: Option<seq<Option<string>>>,
                                         defaultIncludePaths: seq<string>, defaultExcludePaths: seq<string>,
                                         find: string -> Option<nat>, transformOf: nat -> nat, descendants: nat -> seq<nat>)
    returns (r: seq<Option<nat>>)
    ensures var includeRoots := RootsOf(PathsOrDefault(includePaths, defaultIncludePaths), find);
      var excludeRoots := RootsOf(PathsOrDefault(excludePaths, defaultExcludePaths), find);
      forall x :: multiset(r)[x] == if Keep(x, includeRoots, excludeRoots, transformOf, descendants) then multiset(components)[x] else 0
  {
    var includeRoots, includeChildren := FindRoots(includePaths, defaultIncludePaths, find, descendants);
    var excludeRoots, excludeChildren := FindRoots(excludePaths, defaultExcludePaths, find, descendants);
    var keep := (c: Option<nat>) =>
      c.Some? && (includeRoots.None? || transformOf(c.value) in includeChildren) &&
      (excludeRoots.None? || transformOf(c.value) !in excludeChildren);
    assert forall x :: keep(x) == Keep(x, includeRoots, excludeRoots, transformOf, descendants);
    var a := new Option<nat>[|components|](i requires 0 <= i < |components| => components[i]);
    assert a[..] == components;
    var n := Compact(a, keep);
    r := a[..n];
    KeptPart(components, a[..], n, keep);
  }

  /** The front of a rearrangement holding exactly the kept elements keeps each as often as the original. */
  lemma KeptPart(s: seq<Option<nat>>, t: seq<Option<nat>>, n: nat, keep: Option<nat> -> bool)
    requires n <= |t| && multiset(t) == multiset(s)
    requires forall i :: 0 <= i < n ==> keep(t[i])
    requires forall i :: n <= i < |t| ==> !keep(t[i])
    ensures forall x :: multiset(t[..n])[x] == if keep(x) then multiset(s)[x] else 0
  {
    assert t == t[..n] + t[n..];
    forall x
      ensures multiset(t[..n])[x] == if keep(x) then multiset(s)[x] else 0
    {
      if keep(x) {
        assert x !in t[n..];
      } else {
        assert x !in t[..n];
      }
    }
  }

  /** A path list as the filter reads it: the rule defaults when it is blank. */
  function PathsOrDefault(paths: Option<seq<Option<string>>>, defaults: seq<string>): seq<Option<string>>
  {
    if paths.None? || forall i :: 0 <= i < |paths.value| ==> IsNullOrWhiteSpace(paths.value[i]) then Wrap(defaults)
    else paths.value
  }

  function Wrap(paths: seq<string>): (r: seq<Option<string>>)
    ensures |r| == |paths| && forall i :: 0 <= i < |paths| ==> r[i] == Some(paths[i])
  {
    if paths == [] then [] else Wrap(paths[..|paths| - 1]) + [Some(paths[|paths| - 1])]
  }

  /** A non-blank include path that leads nowhere filters out every component. */
  lemma MissingIncludeRoot(includePaths: seq<Option<string>>, excludeRoots: Option<seq<nat>>,
                           find: string -> Option<nat>, transformOf: nat -> nat, descendants: nat -> seq<nat>)
    requires exists i :: 0 <= i < |includePaths| && !IsNullOrWhiteSpace(includePaths[i])
    requires forall i :: 0 <= i < |includePaths| && !IsNullOrWhiteSpace(includePaths[i]) ==> find(includePaths[i].value).None?
    ensures RootsOf(includePaths, find) == Some([])
    ensures forall x :: !Keep(x, RootsOf(includePaths, find), excludeRoots, transformOf, descendants)
  {
    NothingFound(includePaths, find);
  }

  lemma {:induction false} NothingFound(paths: seq<Option<string>>, find: string -> Option<nat>)
    requires forall i :: 0 <= i < |paths| && !IsNullOrWhiteSpace(paths[i]) ==> find(paths[i].value).None?
    ensures RootsOf(paths, find).Some? ==> RootsOf(paths, find).value == []
  {
    if paths != [] {
      NothingFound(paths[..|paths| - 1], find);
    }
  }

  // ---------------------------------------------------------------------
  // Dependency collectors

  /**
   * One step of the texture, material, animation-clip and audio-clip
   * collectors: a non-null asset not seen before is appended to its
   * referencer's list, which is created on first use.
   */
  function Add(state: (map<nat, seq<nat>>, set<nat>), p: (nat, Option<nat>)): (map<nat, seq<nat>>, set<nat>)
  {
    var (lists, seen) := state;
    var (g, a) := p;
    if a.None? || a.value in seen then state
    else (lists[g := (if g in lists then lists[g] else []) + [a.value]], seen + {a.value})
  }

  /** The collectors over the (referencer, asset) pairs in visiting order. */
  function Collected(pairs: seq<(nat, Option<nat>)>): (map<nat, seq<nat>>, set<nat>)
  {
    if pairs == [] then (map[], {}) else Add(Collected(pairs[..|pairs| - 1]), pairs[|pairs| - 1])
  }

  method CollectDependencies(pairs: seq<(nat, Option<nat>)>) returns (lists: map<nat, seq<nat>>)
    ensures lists == Collected(pairs).0
  {
    lists := map[];
    var seen: set<nat> := {};
    for i := 0 to |pairs|
      invariant (lists, seen) == Collected(pairs[..i])
    {
      assert pairs[..i + 1][..i] == pairs[..i];
      assert Collected(pairs[..i + 1]) == Add(Collected(pairs[..i]), pairs[i]);
      var g, a := pairs[i].0, pairs[i].1;
      if a.Some? && a.value !in seen {
        ghost var before := lists;
        if g !in lists {
          lists := lists[g := []];
        }
        lists := lists[g := lists[g] + [a.value]];
        seen := seen + {a.value};
        assert lists == before[g := (if g in before then before[g] else []) + [a.value]];
      }
    }
    assert pairs[..|pairs|] == pairs;
  }

  /** The first referencer of asset a, at position i. */
  predicate FirstUse(pairs: seq<(nat, Option<nat>)>, a: nat, i: nat)
  {
    i < |pairs| && pairs[i].1 == Some(a) && forall j :: 0 <= j < i ==> pairs[j].1 != Some(a)
  }

  /** Every list is non-empty, holds seen assets only, and no asset is listed twice. */
  ghost predicate Distinct(lists: map<nat, seq<nat>>, seen: set<nat>)
  {
    (forall g :: g in lists ==> lists[g] != []) &&
    (forall g, k :: g in lists && 0 <= k < |lists[g]| ==> lists[g][k] in seen) &&
    (forall g1, k1, g2, k2 ::
      g1 in lists && g2 in lists && 0 <= k1 < |lists[g1]| && 0 <= k2 < |lists[g2]| && lists[g1][k1] == lists[g2][k2] ==>
        g1 == g2 && k1 == k2)
  }

  lemma AddSeen(state: (map<nat, seq<nat>>, set<nat>), p: (nat, Option<nat>))
    ensures Add(state, p).1 == state.1 + (if p.1.Some? then {p.1.value} else {})
  {
  }

  lemma AddDistinct(state: (map<nat, seq<nat>>, set<nat>), p: (nat, Option<nat>))
    requires Distinct(state.0, state.1)
    ensures Distinct(Add(state, p).0, Add(state, p).1)
  {
    var (lists, seen) := state;
    var (g, a) := p;
    if a.Some? && a.value !in seen {
      var front := if g in lists then lists[g] else [];
      var lists' := lists[g := front + [a.value]];
      assert forall h, k :: h in lists' && 0 <= k < |lists'[h]| && !(h == g && k == |front|) ==>
        h in lists && k < |lists[h]| && lists'[h][k] == lists[h][k];
    }
  }

  lemma AddGrows(state: (map<nat, seq<nat>>, set<nat>), p: (nat, Option<nat>))
    ensures forall g :: g in state.0 ==> g in Add(state, p).0 && state.0[g] <= Add(state, p).0[g]
    ensures p.1.Some? && p.1.value !in state.1 ==> p.0 in Add(state, p).0 && p.1.value in Add(state, p).0[p.0]
  {
  }

  /** The assets seen are exactly the non-null assets of the pairs. */
  lemma {:induction false} CollectedSeen(pairs: seq<(nat, Option<nat>)>)
    ensures forall a :: a in Collected(pairs).1 <==> exists i :: 0 <= i < |pairs| && pairs[i].1 == Some(a)
  {
    if pairs != [] {
      var init := pairs[..|pairs| - 1];
      CollectedSeen(init);
      AddSeen(Collected(init), pairs[|pairs| - 1]);
      assert forall i :: 0 <= i < |init| ==> init[i] == pairs[i];
    }
  }

  /** The collectors list each asset at most once and no referencer has an empty list. */
  lemma {:induction false} CollectedDistinct(pairs: seq<(nat, Option<nat>)>)
    ensures Distinct(Collected(pairs).0, Collected(pairs).1)
  {
    if pairs != [] {
      CollectedDistinct(pairs[..|pairs| - 1]);
      AddDistinct(Collected(pairs[..|pairs| - 1]), pairs[|pairs| - 1]);
    }
  }

  /** Every asset used is listed under the referencer that uses it first. */
  lemma {:induction false} CollectedFirstUse(pairs: seq<(nat, Option<nat>)>)
    ensures forall a, i: nat :: FirstUse(pairs, a, i) ==> pairs[i].0 in Collected(pairs).0 && a in Collected(pairs).0[pairs[i].0]
  {
    if pairs != [] {
      var init := pairs[..|pairs| - 1];
      var last := pairs[|pairs| - 1];
      CollectedFirstUse(init);
      CollectedSeen(init);
      AddGrows(Collected(init), last);
      forall a, i: nat | FirstUse(pairs, a, i)
        ensures pairs[i].0 in Collected(pairs).0 && a in Collected(pairs).0[pairs[i].0]
      {
        if i < |init| {
          assert FirstUse(init, a, i);
          var l := Collected(init).0[pairs[i].0];
          assert a in l;
          assert l <= Collected(pairs).0[pairs[i].0];
        } else {
          assert a !in Collected(init).1;
        }
      }
    }
  }

  /**
   * One step of the mesh and model collectors: a non-null asset becomes its
   * referencer's single entry (overwriting an earlier one), unless
   * `noRepeat` is set and the asset was stored before.
   */
  function AddSingle(state: (map<nat, nat>, set<nat>), p: (nat, Option<nat>), noRepeat: bool): (map<nat, nat>, set<nat>)
  {
    var (assets, seen) := state;
    var (g, a) := p;
    if a.None? || (noRepeat && a.value in seen) then state
    else (assets[g := a.value], seen + {a.value})
  }

  function CollectedSingle(pairs: seq<(nat, Option<nat>)>, noRepeat: bool): (map<nat, nat>, set<nat>)
  {
    if pairs == [] then (map[], {}) else AddSingle(CollectedSingle(pairs[..|pairs| - 1], noRepeat), pairs[|pairs| - 1], noRepeat)
  }

  method CollectSingleDependencies(pairs: seq<(nat, Option<nat>)>, noRepeat: bool) returns (assets: map<nat, nat>)
    ensures assets == CollectedSingle(pairs, noRepeat).0
  {
    assets := map[];
    var seen: set<nat> := {};
    for i := 0 to |pairs|
      invariant (assets, seen) == CollectedSingle(pairs[..i], noRepeat)
    {
      assert pairs[..i + 1][..i] == pairs[..i];
      var g, a := pairs[i].0, pairs[i].1;
      if a.Some? && !(noRepeat && a.value in seen) {
        assets := assets[g := a.value];
        seen := seen + {a.value};
      }
    }
    assert pairs[..|pairs|] == pairs;
  }

  /** Every stored asset is a seen asset its referencer used. */
  ghost predicate FromPairs(pairs: seq<(nat, Option<nat>)>, assets: map<nat, nat>, seen: set<nat>)
  {
    forall g :: g in assets ==> assets[g] in seen && exists i :: 0 <= i < |pairs| && pairs[i] == (g, Some(assets[g]))
  }

  lemma {:induction false} CollectedSingleFromPairs(pairs: seq<(nat, Option<nat>)>, noRepeat: bool)
    ensures FromPairs(pairs, CollectedSingle(pairs, noRepeat).0, CollectedSingle(pairs, noRepeat).1)
  {
    if pairs != [] {
      var init := pairs[..|pairs| - 1];
      CollectedSingleFromPairs(init, noRepeat);
      var (assets, seen) := CollectedSingle(init, noRepeat);
      var (assets', seen') := CollectedSingle(pairs, noRepeat);
      forall h | h in assets'
        ensures assets'[h] in seen' && exists i :: 0 <= i < |pairs| && pairs[i] == (h, Some(assets'[h]))
      {
        if h in assets && assets'[h] == assets[h] && assets[h] in seen {
          var i :| 0 <= i < |init| && init[i] == (h, Some(assets[h]));
          assert pairs[i] == init[i];
        } else {
          assert pairs[|pairs| - 1] == (h, Some(assets'[h]));
        }
      }
    }
  }

  /** Every stored asset is seen and no asset is stored under two referencers. */
  ghost predicate Injective(assets: map<nat, nat>, seen: set<nat>)
  {
    (forall g :: g in assets ==> assets[g] in seen) &&
    (forall g1, g2 :: g1 in assets && g2 in assets && assets[g1] == assets[g2] ==> g1 == g2)
  }

  lemma AddSingleInjective(state: (map<nat, nat>, set<nat>), p: (nat, Option<nat>))
    requires Injective(state.0, state.1)
    ensures Injective(AddSingle(state, p, true).0, AddSingle(state, p, true).1)
  {
    var (assets, seen) := state;
    var (g, a) := p;
    if a.Some? && a.value !in seen {
      var assets' := assets[g := a.value];
      forall g1, g2 | g1 in assets' && g2 in assets' && assets'[g1] == assets'[g2]
        ensures g1 == g2
      {
        if g1 != g && g2 != g {
          assert assets[g1] == assets[g2];
        } else if g1 != g {
          assert assets[g1] in seen;
        }
      }
    }
  }

  /** With `noRepeat` no asset is stored under two referencers. */
  lemma {:induction false} CollectedSingleDistinct(pairs: seq<(nat, Option<nat>)>)
    ensures Injective(CollectedSingle(pairs, true).0, CollectedSingle(pairs, true).1)
  {
    if pairs != [] {
      CollectedSingleDistinct(pairs[..|pairs| - 1]);
      AddSingleInjective(CollectedSingle(pairs[..|pairs| - 1], true), pairs[|pairs| - 1]);
    }
  }

  // ---------------------------------------------------------------------
  // GetPlatformTextureSize

  /**
   * GetPlatformTextureSize: the source size, scaled in integer arithmetic
   * by min(platformMax, m) / m where m is the larger source side; the
   * texture's own size when it has no asset path or no texture importer.
   * None is the division by zero of a 0 x 0 source.
   */
  function PlatformTextureSize(width: int, height: int, hasImporter: bool,
                               originWidth: nat, originHeight: nat, platformMax: int): (r: Option<(int, int)>)
  {
    if !hasImporter then Some((width, height))
    else
      var m := if originWidth >= originHeight then originWidth else originHeight;
      var s := if platformMax <= m then platformMax else m;
      if m == 0 then Option.None
      else Some((originWidth * s / m, originHeight * s / m))
  }

  /** For a non-negative platform maximum the larger side becomes that maximum (or stays) and the other side does not exceed it. */
  lemma PlatformTextureSizeBounds(width: int, height: int, originWidth: nat, originHeight: nat, platformMax: nat)
    requires originWidth > 0 || originHeight > 0
    ensures var r := PlatformTextureSize(width, height, true, originWidth, originHeight, platformMax);
      var m := if originWidth >= originHeight then originWidth else originHeight;
      var s := if platformMax <= m then platformMax else m;
      r.Some? && (if originWidth >= originHeight then r.value.0 == s else r.value.1 == s) &&
      0 <= r.value.0 <= s && 0 <= r.value.1 <= s
  {
    var m := if originWidth >= originHeight then originWidth else originHeight;
    var s := if platformMax <= m then platformMax else m;
    ScaleSide(originWidth, m, s);
    ScaleSide(originHeight, m, s);
  }

  /** A side x of at most m scaled by s / m lies in [0, s], and is s for x == m. */
  lemma ScaleSide(x: nat, m: nat, s: nat)
    requires x <= m && m > 0
    ensures 0 <= x * s / m <= s
    ensures x == m ==> x * s / m == s
  {
    MulDivCancel(s, m);
    MulMonotone(x, m, s);
    DivMonotone(x * s, m * s, m);
  }

  lemma MulMonotone(x: nat, y: nat, s: nat)
    requires x <= y
    ensures x * s <= y * s
  {
    var d := y - x;
    assert y * s == x * s + d * s;
  }

  lemma MulDivCancel(s: nat, m: nat)
    requires m > 0
    ensures m * s / m == s
  {
    DivUnique(m * s, m, s);
  }

  /** The quotient is the q with q * m <= a < (q + 1) * m. */
  lemma DivUnique(a: nat, m: nat, q: nat)
    requires m > 0 && q * m <= a < q * m + m
    ensures a / m == q
  {
    var q' := a / m;
    assert a == q' * m + a % m;
    if q' < q {
      MulMonotone(q' + 1, q, m);
    } else if q' > q {
      MulMonotone(q + 1, q', m);
    }
  }

  lemma DivMonotone(a: nat, b: nat, m: nat)
    requires a <= b && m > 0
    ensures a / m <= b / m
  {
    assert a == a / m * m + a % m;
    assert b == b / m * m + b % m;
    if a / m > b / m {
      MulMonotone(b / m + 1, a / m, m);
    }
  }
}
