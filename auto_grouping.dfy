// Grouping of scene objects by the common prefix of their names
// (AutoGroupingWindow): the prefix helpers, the id links between similar
// names, the walk to a group's root id, the group names, and the clean-up
// of the group list before it is handed to the AutoGrouping component.
module AutoGroupingWindow {
  import opened Wrappers

  // ---------------------------------------------------------------------
  // Common prefixes

  /** The length of the longest common prefix of a and b. */
  function CommonPrefixLength(a: string, b: string): (n: nat)
    ensures n <= |a| && n <= |b| && a[..n] == b[..n]
    ensures n < |a| && n < |b| ==> a[n] != b[n]
  {
    if a == [] || b == [] || a[0] != b[0] then 0
    else
      var n := 1 + CommonPrefixLength(a[1..], b[1..]);
      assert a[..n] == [a[0]] + a[1..][..n - 1];
      assert b[..n] == [b[0]] + b[1..][..n - 1];
      n
  }

  /** Every common prefix of a and b is a prefix of their longest one. */
  lemma {:induction false} CommonPrefixIsLongest(p: string, a: string, b: string)
    requires p <= a && p <= b
    ensures p <= a[..CommonPrefixLength(a, b)]
  {
    assert forall k :: 0 <= k < |p| ==> a[k] == p[k] == b[k];
  }

  /** MaxMatchingPrefixLength: counts matching characters up to the shorter length. */
  method MaxMatchingPrefixLength(a: string, b: string) returns (count: nat)
    ensures count == CommonPrefixLength(a, b)
  {
    var minLength := if |a| < |b| then |a| else |b|;
    count := 0;
    while count < minLength && a[count] == b[count]
      invariant count <= minLength && a[..count] == b[..count]
    {
      assert a[..count + 1] == a[..count] + [a[count]];
      assert b[..count + 1] == b[..count] + [b[count]];
      count := count + 1;
    }
    CommonLengthUnique(a, b, count);
  }

  /** The length of a common prefix that stops at a mismatch or at the end of a or b is the longest. */
  lemma CommonLengthUnique(a: string, b: string, n: nat)
    requires n <= |a| && n <= |b| && a[..n] == b[..n]
    requires n < |a| && n < |b| ==> a[n] != b[n]
    ensures n == CommonPrefixLength(a, b)
  {
    var m := CommonPrefixLength(a, b);
    assert forall k :: 0 <= k < m ==> a[k] == a[..m][k] == b[..m][k] == b[k];
    assert forall k :: 0 <= k < n ==> a[k] == a[..n][k] == b[..n][k] == b[k];
  }

  /** MaxMatchingPrefix: appends matching characters of a up to the shorter length. */
  method MaxMatchingPrefix(a: string, b: string) returns (prefix: string)
    ensures prefix == a[..CommonPrefixLength(a, b)]
    ensures prefix <= a && prefix <= b
  {
    var minLength := if |a| < |b| then |a| else |b|;
    prefix := [];
    var i := 0;
    while i < minLength && a[i] == b[i]
      invariant i <= minLength && a[..i] == b[..i] && prefix == a[..i]
    {
      assert a[..i + 1] == a[..i] + [a[i]];
      assert b[..i + 1] == b[..i] + [b[i]];
      prefix := prefix + [a[i]];
      i := i + 1;
    }
    CommonLengthUnique(a, b, i);
  }

  // ---------------------------------------------------------------------
  // Group roots

  /** Every id points at an item. */
  predicate InRange(ids: seq<int>)
  {
    forall j :: 0 <= j < |ids| ==> 0 <= ids[j] < |ids|
  }

  /** The root reached from id by following at most `fuel` links, if any: the first item that points at itself. */
  function RootWithin(ids: seq<int>, id: nat, fuel: nat): (r: Option<nat>)
    requires InRange(ids) && id < |ids|
    ensures r.Some? ==> r.value < |ids| && ids[r.value] == r.value
    decreases fuel
  {
    if ids[id] == id then Some(id)
    else if fuel == 0 then None
    else RootWithin(ids, ids[id], fuel - 1)
  }

  /** The root of an item, within as many links as there are items. */
  function Root(ids: seq<int>, id: nat): Option<nat>
    requires InRange(ids) && id < |ids|
  {
    RootWithin(ids, id, |ids|)
  }

  /**
   * GetGroupRootID: follows the links from id to the first item that points
   * at itself. The walk is cut off after as many links as there are items,
   * where the original loops forever on a cycle of links.
   */
  method GetGroupRootID(ids: array<int>, id: nat) returns (r: Option<nat>)
    requires InRange(ids[..]) && id < ids.Length
    ensures r == Root(ids[..], id)
  {
    var current := ids[id];
    var fuel: nat := ids.Length - 1;
    assert RootWithin(ids[..], current, fuel) == Root(ids[..], id);
    while ids[current] != current && fuel > 0
      invariant 0 <= current < ids.Length
      invariant RootWithin(ids[..], current, fuel) == Root(ids[..], id)
      decreases fuel
    {
      current := ids[current];
      fuel := fuel - 1;
    }
    if ids[current] == current {
      r := Some(current);
    } else {
      r := None;
    }
  }

  /** Links ranked so that every link points to a lower rank: the links have no cycle. */
  predicate Ranked(ids: seq<int>, rank: seq<nat>)
  {
    |rank| == |ids| && InRange(ids) &&
    forall j :: 0 <= j < |ids| && ids[j] != j ==> rank[ids[j]] < rank[j]
  }

  /** Without cycles every walk reaches a root: within rank[id] links. */
  lemma {:induction false} RankedReachesRoot(ids: seq<int>, rank: seq<nat>, id: nat, fuel: nat)
    requires Ranked(ids, rank) && id < |ids| && rank[id] <= fuel
    ensures RootWithin(ids, id, fuel).Some?
    decreases fuel
  {
    if ids[id] != id {
      RankedReachesRoot(ids, rank, ids[id], fuel - 1);
    }
  }

  /** Two walks from the same item that both reach a root reach the same one. */
  lemma {:induction false} RootDeterministic(ids: seq<int>, id: nat, f: nat, g: nat)
    requires InRange(ids) && id < |ids|
    requires RootWithin(ids, id, f).Some? && RootWithin(ids, id, g).Some?
    ensures RootWithin(ids, id, f) == RootWithin(ids, id, g)
    decreases f
  {
    if ids[id] != id {
      RootDeterministic(ids, ids[id], f - 1, g - 1);
    }
  }

  /** A walk that reaches a root still does with more fuel. */
  lemma {:induction false} RootMoreFuel(ids: seq<int>, id: nat, f: nat, g: nat)
    requires InRange(ids) && id < |ids| && f <= g && RootWithin(ids, id, f).Some?
    ensures RootWithin(ids, id, g) == RootWithin(ids, id, f)
    decreases f
  {
    if ids[id] != id {
      RootMoreFuel(ids, ids[id], f - 1, g - 1);
    }
  }

  /**
   * Pointing item i straight at its root keeps the root of every item that
   * has one: a walk through i now ends one link after i, at the same root.
   */
  lemma {:induction false} PointAtRootKeepsRoots(ids: seq<int>, i: nat, ri: nat, j: nat, f: nat, fi: nat)
    requires InRange(ids) && i < |ids| && j < |ids|
    requires RootWithin(ids, i, fi) == Some(ri) && RootWithin(ids, j, f).Some?
    ensures InRange(ids[i := ri])
    ensures RootWithin(ids[i := ri], j, f) == RootWithin(ids, j, f)
    decreases f
  {
    var ids' := ids[i := ri];
    if j == i {
      RootDeterministic(ids, i, f, fi);
    } else if ids[j] != j {
      PointAtRootKeepsRoots(ids, i, ri, ids[j], f - 1, fi);
    }
  }

  // ---------------------------------------------------------------------
  // Links between similar names

  /**
   * Item k is linked to item i: both have a name, the names differ, and the
   * common prefix is at least `similarity` of the shorter name (an empty
   * name divides zero by zero, which compares false).
   */
  predicate Similar(names: seq<Option<string>>, similarity: real, i: nat, k: nat)
    requires i < |names| && k < |names|
  {
    names[i].Some? && names[k].Some? && names[i] != names[k] &&
    var shorter := if |names[i].value| < |names[k].value| then |names[i].value| else |names[k].value|;
    shorter > 0 && CommonPrefixLength(names[i].value, names[k].value) as real >= similarity * shorter as real
  }

  /** Every named item starts as its own group; an item without a name keeps 0. */
  function InitialIds(names: seq<Option<string>>): (ids: seq<int>)
    ensures |ids| == |names|
    ensures forall j :: 0 <= j < |names| ==> ids[j] == (if names[j].Some? then j else 0)
  {
    seq(|names|, j requires 0 <= j < |names| => if names[j].Some? then j else 0)
  }

  /** Row i of the linking, up to item k: each similar k takes i's current id. */
  function LinkRow(ids: seq<int>, names: seq<Option<string>>, similarity: real, i: nat, k: nat): (r: seq<int>)
    requires |ids| == |names| && i < |names| && k <= |names|
    ensures |r| == |ids|
  {
    if k == 0 then ids
    else
      var before := LinkRow(ids, names, similarity, i, k - 1);
      if Similar(names, similarity, i, k - 1) then before[k - 1 := before[i]] else before
  }

  /** The ids after rows 0 .. i - 1 of the linking. */
  function Links(names: seq<Option<string>>, similarity: real, i: nat): (r: seq<int>)
    requires i <= |names|
    ensures |r| == |names|
  {
    if i == 0 then InitialIds(names)
    else
      LinkRow(Links(names, similarity, i - 1), names, similarity, i - 1, |names|)
  }

  /** An item without a name keeps id 0. */
  predicate UnnamedAtZero(ids: seq<int>, names: seq<Option<string>>)
    requires |ids| == |names|
  {
    forall j :: 0 <= j < |names| && names[j].None? ==> ids[j] == 0
  }

  /** A named item points at a named item. */
  predicate NamedToNamed(ids: seq<int>, names: seq<Option<string>>)
    requires |ids| == |names|
  {
    forall j {:trigger ids[j]} :: 0 <= j < |names| && names[j].Some? ==> 0 <= ids[j] < |names| && names[ids[j]].Some?
  }

  /** A named item that does not point at itself has a similar item. */
  ghost predicate MovedOnlyIfSimilar(ids: seq<int>, names: seq<Option<string>>, similarity: real)
    requires |ids| == |names|
  {
    forall j :: 0 <= j < |names| && names[j].Some? && ids[j] != j ==>
      exists m :: 0 <= m < |names| && Similar(names, similarity, m, j)
  }

  /**
   * The links keep their shape: an item without a name keeps id 0, a named
   * item points at a named item, and a named item that does not point at
   * itself has a similar item.
   */
  ghost predicate WellLinked(ids: seq<int>, names: seq<Option<string>>, similarity: real)
    requires |ids| == |names|
  {
    UnnamedAtZero(ids, names) && NamedToNamed(ids, names) && MovedOnlyIfSimilar(ids, names, similarity)
  }

  /** Linking a similar k to i's id keeps WellLinked. */
  lemma LinkStepWellLinked(ids: seq<int>, names: seq<Option<string>>, similarity: real, i: nat, k: nat)
    requires |ids| == |names| && i < |names| && k < |names| && WellLinked(ids, names, similarity)
    requires Similar(names, similarity, i, k)
    ensures WellLinked(ids[k := ids[i]], names, similarity)
  {
    var ids' := ids[k := ids[i]];
    assert UnnamedAtZero(ids', names);
    assert NamedToNamed(ids', names);
    forall j | 0 <= j < |names| && names[j].Some? && ids'[j] != j
      ensures exists m :: 0 <= m < |names| && Similar(names, similarity, m, j)
    {
      if j == k {
        assert Similar(names, similarity, i, j);
      } else {
        assert ids[j] == ids'[j];
      }
    }
  }

  lemma {:induction false} LinkRowWellLinked(ids: seq<int>, names: seq<Option<string>>, similarity: real, i: nat, k: nat)
    requires |ids| == |names| && i < |names| && k <= |names| && WellLinked(ids, names, similarity)
    ensures WellLinked(LinkRow(ids, names, similarity, i, k), names, similarity)
  {
    if k > 0 {
      LinkRowWellLinked(ids, names, similarity, i, k - 1);
      LinkRowStepWellLinked(ids, names, similarity, i, k);
    }
  }

  /** One more column of row i keeps WellLinked. */
  lemma LinkRowStepWellLinked(ids: seq<int>, names: seq<Option<string>>, similarity: real, i: nat, k: nat)
    requires |ids| == |names| && i < |names| && 0 < k <= |names|
    requires WellLinked(LinkRow(ids, names, similarity, i, k - 1), names, similarity)
    ensures WellLinked(LinkRow(ids, names, similarity, i, k), names, similarity)
  {
    var before := LinkRow(ids, names, similarity, i, k - 1);
    if Similar(names, similarity, i, k - 1) {
      LinkStepWellLinked(before, names, similarity, i, k - 1);
    }
  }

  /** The linking keeps WellLinked, row after row. */
  lemma {:induction false} LinksWellLinked(names: seq<Option<string>>, similarity: real, i: nat)
    requires i <= |names|
    ensures WellLinked(Links(names, similarity, i), names, similarity)
  {
    if i > 0 {
      LinksWellLinked(names, similarity, i - 1);
      LinkRowWellLinked(Links(names, similarity, i - 1), names, similarity, i - 1, |names|);
    } else {
      assert MovedOnlyIfSimilar(InitialIds(names), names, similarity);
    }
  }

  /** A named item with no similar item stays its own group root. */
  lemma IsolatedKeepsOwnGroup(names: seq<Option<string>>, similarity: real, j: nat)
    requires j < |names| && names[j].Some?
    requires forall m :: 0 <= m < |names| ==> !Similar(names, similarity, m, j)
    ensures InRange(Links(names, similarity, |names|))
    ensures Root(Links(names, similarity, |names|), j) == Some(j)
  {
    var ids := Links(names, similarity, |names|);
    LinksWellLinked(names, similarity, |names|);
    if names[0].None? {
      assert ids[0] == 0;
    }
    forall x | 0 <= x < |ids|
      ensures 0 <= ids[x] < |ids|
    {
      if names[x].None? {
        assert ids[x] == 0 && j < |ids|;
      }
    }
  }

  /** The inner loop of GroupIDByName for row i. */
  method LinkToItem(ids: array<int>, names: seq<Option<string>>, similarity: real, i: nat)
    requires ids.Length == |names| && i < |names|
    modifies ids
    ensures ids[..] == LinkRow(old(ids[..]), names, similarity, i, |names|)
  {
    ghost var start := ids[..];
    if names[i].None? {
      SkippedRow(start, names, similarity, i, |names|);
      return;
    }
    for k := 0 to |names|
      invariant ids[..] == LinkRow(start, names, similarity, i, k)
    {
      var similar := IsSimilar(names, similarity, i, k);
      if similar {
        ids[k] := ids[i];
      }
    }
  }

  /** The test in LinkToItem's inner loop: a named, different item whose common prefix is long enough. */
  method IsSimilar(names: seq<Option<string>>, similarity: real, i: nat, k: nat) returns (b: bool)
    requires i < |names| && k < |names| && names[i].Some?
    ensures b == Similar(names, similarity, i, k)
  {
    if names[k].None? || names[i] == names[k] {
      return false;
    }
    var prefix := MaxMatchingPrefixLength(names[i].value, names[k].value);
    var shorter := if |names[i].value| < |names[k].value| then |names[i].value| else |names[k].value|;
    b := shorter > 0 && prefix as real >= similarity * shorter as real;
  }

  /** A row for an item without a name links nothing. */
  lemma {:induction false} SkippedRow(ids: seq<int>, names: seq<Option<string>>, similarity: real, i: nat, k: nat)
    requires |ids| == |names| && i < |names| && k <= |names| && names[i].None?
    ensures LinkRow(ids, names, similarity, i, k) == ids
  {
    if k > 0 {
      SkippedRow(ids, names, similarity, i, k - 1);
    }
  }

  /**
   * GroupIDByName: links similar names, then points every item at its root.
   * Every item whose links reach a root ends pointing at that root, which
   * points at itself.
   */
  method GroupIDByName(names: seq<Option<string>>, similarity: real) returns (ids: array<int>)
    ensures fresh(ids) && ids.Length == |names|
    ensures InRange(Links(names, similarity, |names|))
    ensures forall j :: 0 <= j < |names| && Root(Links(names, similarity, |names|), j).Some? ==>
              ids[j] == Root(Links(names, similarity, |names|), j).value && ids[ids[j]] == ids[j]
  {
    ids := new int[|names|];
    for i := 0 to |names|
      invariant forall j :: 0 <= j < i ==> ids[j] == (if names[j].Some? then j else 0)
    {
      if names[i].Some? {
        ids[i] := i;
      } else {
        ids[i] := 0;
      }
    }
    assert ids[..] == InitialIds(names);
    for i := 0 to |names|
      invariant ids[..] == Links(names, similarity, i)
    {
      LinkToItem(ids, names, similarity, i);
    }
    ghost var links := ids[..];
    LinksInRange(names, similarity);
    PointAtRoots(ids, links);
  }

  /** The final links point at items. */
  lemma LinksInRange(names: seq<Option<string>>, similarity: real)
    ensures InRange(Links(names, similarity, |names|))
  {
    var ids := Links(names, similarity, |names|);
    LinksWellLinked(names, similarity, |names|);
    forall x | 0 <= x < |ids|
      ensures 0 <= ids[x] < |ids|
    {
      if names[x].None? {
        assert ids[x] == 0 && x < |ids|;
      }
    }
  }

  /** The last loop of GroupIDByName: each item in turn is pointed at its root. */
  method PointAtRoots(ids: array<int>, ghost links: seq<int>)
    requires ids[..] == links && InRange(links)
    modifies ids
    ensures forall j :: 0 <= j < |links| && Root(links, j).Some? ==> ids[j] == Root(links, j).value && ids[ids[j]] == ids[j]
  {
    for i := 0 to ids.Length
      invariant InRange(ids[..]) && |links| == ids.Length
      invariant forall j :: 0 <= j < |links| && Root(links, j).Some? ==> Root(ids[..], j) == Root(links, j)
      invariant forall j :: 0 <= j < i && Root(links, j).Some? ==> ids[j] == Root(links, j).value
    {
      var root := GetGroupRootID(ids, i);
      if root.Some? {
        PointAtRootStep(ids[..], links, i, root.value);
        ids[i] := root.value;
      }
    }
    forall j | 0 <= j < |links| && Root(links, j).Some?
      ensures ids[ids[j]] == ids[j]
    {
      assert Root(ids[..], j).Some?;
    }
  }

  /** One step of PointAtRoots keeps every root of the links. */
  lemma PointAtRootStep(ids: seq<int>, links: seq<int>, i: nat, ri: nat)
    requires InRange(ids) && InRange(links) && |links| == |ids| && i < |ids| && Root(ids, i) == Some(ri)
    requires forall j :: 0 <= j < |links| && Root(links, j).Some? ==> Root(ids, j) == Root(links, j)
    ensures InRange(ids[i := ri])
    ensures forall j :: 0 <= j < |links| && Root(links, j).Some? ==> Root(ids[i := ri], j) == Root(links, j)
  {
    forall j | 0 <= j < |links| && Root(links, j).Some?
      ensures Root(ids[i := ri], j) == Root(links, j)
    {
      PointAtRootKeepsRoots(ids, i, ri, j, |ids|, |ids|);
    }
  }

  // ---------------------------------------------------------------------
  // Group names

  /** Item j is a named member of group g. */
  predicate Member(names: seq<Option<string>>, ids: seq<int>, g: int, j: nat)
    requires |ids| == |names| && j < |names|
  {
    names[j].Some? && ids[j] == g
  }

  /** p is a prefix of the name of every member of g among items 0 .. i - 1. */
  predicate PrefixOfGroup(p: string, names: seq<Option<string>>, ids: seq<int>, g: int, i: nat)
    requires |ids| == |names| && i <= |names|
  {
    forall j :: 0 <= j < i && Member(names, ids, g, j) ==> p <= names[j].value
  }

  /** Some item among 0 .. n - 1 is a named member of g. */
  ghost predicate HasMember(names: seq<Option<string>>, ids: seq<int>, g: int, n: nat)
    requires |ids| == |names| && n <= |names|
  {
    exists j :: 0 <= j < n && Member(names, ids, g, j)
  }

  /**
   * GenerateGroupNames: every group with a named member is named, and its
   * name is the longest common prefix of its members' names: a prefix of
   * each, and every common prefix is a prefix of it.
   */
  method GenerateGroupNames(names: seq<Option<string>>, ids: seq<int>) returns (groupNames: map<int, string>)
    requires |ids| == |names|
    ensures forall g :: g in groupNames <==> HasMember(names, ids, g, |names|)
    ensures forall g :: g in groupNames ==> PrefixOfGroup(groupNames[g], names, ids, g, |names|)
    ensures forall g, p :: g in groupNames && PrefixOfGroup(p, names, ids, g, |names|) ==> p <= groupNames[g]
  {
    groupNames := map[];
    for i := 0 to |names|
      invariant Named(groupNames, names, ids, i)
    {
      groupNames := NameStep(groupNames, names, ids, i);
    }
  }

  /** The names of the groups with a named member among 0 .. n - 1: the longest common prefix of their names. */
  ghost predicate Named(groupNames: map<int, string>, names: seq<Option<string>>, ids: seq<int>, n: nat)
    requires |ids| == |names| && n <= |names|
  {
    (forall g :: g in groupNames <==> HasMember(names, ids, g, n)) &&
    (forall g :: g in groupNames ==> PrefixOfGroup(groupNames[g], names, ids, g, n)) &&
    (forall g, p :: g in groupNames && PrefixOfGroup(p, names, ids, g, n) ==> p <= groupNames[g])
  }

  /** One iteration of GenerateGroupNames: item i names its group, or shortens its name to the common prefix. */
  method NameStep(groupNames: map<int, string>, names: seq<Option<string>>, ids: seq<int>, i: nat)
      returns (r: map<int, string>)
    requires |ids| == |names| && i < |names| && Named(groupNames, names, ids, i)
    ensures Named(r, names, ids, i + 1)
  {
    r := groupNames;
    var next := i + 1;
    if names[i].None? {
      NoMemberAdded(names, ids, i, next);
      return;
    }
    var g := ids[i];
    var name := names[i].value;
    if g !in r {
      r := r[g := name];
      FirstMember(names, ids, g, i, next);
    } else {
      var prefix := MaxMatchingPrefix(r[g], name);
      if |prefix| <= |r[g]| {
        r := r[g := prefix];
      }
      forall p | PrefixOfGroup(p, names, ids, g, next)
        ensures p <= r[g]
      {
        assert PrefixOfGroup(p, names, ids, g, i) && p <= name;
        CommonPrefixIsLongest(p, groupNames[g], name);
      }
      assert PrefixOfGroup(r[g], names, ids, g, next) by {
        assert PrefixOfGroup(groupNames[g], names, ids, g, i);
      }
    }
    OtherGroupsKept(names, ids, i, g, next);
    forall h, p | h in r && h != g && PrefixOfGroup(p, names, ids, h, next)
      ensures p <= r[h]
    {
      assert PrefixOfGroup(p, names, ids, h, i);
    }
  }


  /** An item without a name joins no group. */
  lemma NoMemberAdded(names: seq<Option<string>>, ids: seq<int>, i: nat, next: nat)
    requires |ids| == |names| && i < |names| && names[i].None? && next == i + 1
    ensures forall g, p :: PrefixOfGroup(p, names, ids, g, next) == PrefixOfGroup(p, names, ids, g, i)
    ensures forall g :: HasMember(names, ids, g, next) == HasMember(names, ids, g, i)
  {
  }

  /** The first member of a group: the group's name is that member's name. */
  lemma FirstMember(names: seq<Option<string>>, ids: seq<int>, g: int, i: nat, next: nat)
    requires |ids| == |names| && i < |names| && Member(names, ids, g, i) && next == i + 1
    requires !HasMember(names, ids, g, i)
    ensures PrefixOfGroup(names[i].value, names, ids, g, next)
    ensures forall p :: PrefixOfGroup(p, names, ids, g, next) ==> p <= names[i].value
  {
  }

  /** Item i leaves the members of every other group as they were. */
  lemma OtherGroupsKept(names: seq<Option<string>>, ids: seq<int>, i: nat, g: int, next: nat)
    requires |ids| == |names| && i < |names| && Member(names, ids, g, i) && next == i + 1
    ensures forall h, p :: h != g ==> PrefixOfGroup(p, names, ids, h, next) == PrefixOfGroup(p, names, ids, h, i)
    ensures forall h :: HasMember(names, ids, h, next) <==> HasMember(names, ids, h, i) || h == g
  {
    forall h | HasMember(names, ids, h, next)
      ensures HasMember(names, ids, h, i) || h == g
    {
    }
  }

  // ---------------------------------------------------------------------
  // The group list handed to the AutoGrouping component

  /** A group: its id, its name and its children (as item indexes). */
  datatype Group = Group(id: int, name: string, children: seq<nat>)

  /** The groups with more than one child, in their order. */
  function Kept(groups: seq<Group>): (r: seq<Group>)
    ensures |r| <= |groups|
  {
    if groups == [] then []
    else
      var last := groups[|groups| - 1];
      Kept(groups[..|groups| - 1]) + (if |last.children| > 1 then [last] else [])
  }

  /** Kept holds exactly the groups with more than one child. */
  lemma {:induction false} KeptMembers(groups: seq<Group>)
    ensures forall x :: x in Kept(groups) <==> x in groups && |x.children| > 1
  {
    if groups != [] {
      var init := groups[..|groups| - 1];
      KeptMembers(init);
      assert groups == init + [groups[|groups| - 1]];
    }
  }

  /** Removes every group with at most one child: the RemoveAt loop of Group. */
  method DropSmallGroups(groups: seq<Group>) returns (r: seq<Group>)
    ensures r == Kept(groups)
  {
    r := groups;
    var i := 0;
    ghost var c := 0;
    while i < |r|
      invariant c <= |groups| && r == Kept(groups[..c]) + groups[c..] && i == |Kept(groups[..c])|
      decreases |r| - i
    {
      r, i := DropStep(groups, c, r, i);
      c := c + 1;
    }
    assert groups[..c] == groups;
  }

  /** One turn of the RemoveAt loop: the group at i is removed, or i moves past it. */
  method DropStep(groups: seq<Group>, ghost c: nat, r: seq<Group>, i: nat) returns (r': seq<Group>, i': nat)
    requires c < |groups| && r == Kept(groups[..c]) + groups[c..] && i == |Kept(groups[..c])|
    ensures r' == Kept(groups[..c + 1]) + groups[c + 1..] && i' == |Kept(groups[..c + 1])|
    ensures |r'| - i' < |r| - i
  {
    KeptStep(groups, c);
    SplitAt(Kept(groups[..c]), groups, c);
    if |r[i].children| <= 1 {
      r', i' := r[..i] + r[i + 1..], i;
    } else {
      r', i' := r, i + 1;
    }
  }

  /** The group after a kept prefix k is the next one of s. */
  lemma SplitAt(k: seq<Group>, s: seq<Group>, c: nat)
    requires c < |s|
    ensures (k + s[c..])[|k|] == s[c]
    ensures (k + s[c..])[..|k|] + (k + s[c..])[|k| + 1..] == k + s[c + 1..]
    ensures k + s[c..] == (k + [s[c]]) + s[c + 1..]
  {
    assert s[c..] == [s[c]] + s[c + 1..];
  }

  lemma KeptStep(groups: seq<Group>, c: nat)
    requires c < |groups|
    ensures Kept(groups[..c + 1]) == Kept(groups[..c]) + (if |groups[c].children| > 1 then [groups[c]] else [])
  {
    assert groups[..c + 1][..c] == groups[..c];
  }

  predicate SortedById(s: seq<Group>)
  {
    forall i, j :: 0 <= i < j < |s| ==> s[i].id <= s[j].id
  }

  /** Inserts x before the first group with an id at least x's. */
  function InsertById(x: Group, s: seq<Group>): (r: seq<Group>)
    requires SortedById(s)
    ensures SortedById(r) && multiset(r) == multiset(s) + multiset{x}
  {
    if s == [] then [x]
    else if x.id <= s[0].id then [x] + s
    else
      var rest := InsertById(x, s[1..]);
      assert s == [s[0]] + s[1..];
      LowerThanInserted(x, s[0], s[1..], rest);
      [s[0]] + rest
  }

  /** A group below x and below all of s is below all of any permutation of s with x. */
  lemma LowerThanInserted(x: Group, first: Group, s: seq<Group>, rest: seq<Group>)
    requires first.id < x.id && (forall y :: y in s ==> first.id <= y.id)
    requires multiset(rest) == multiset(s) + multiset{x}
    ensures forall y :: y in rest ==> first.id <= y.id
  {
    forall y | y in rest
      ensures first.id <= y.id
    {
      assert y in multiset(rest);
      if y != x {
        assert y in multiset(s);
      }
    }
  }

  /**
   * The order of List.Sort with the comparison a.id - b.id: ids
   * non-decreasing, and the same groups. The ids come from distinct
   * dictionary keys, so this order is the only one.
   */
  function SortById(s: seq<Group>): (r: seq<Group>)
    ensures SortedById(r) && multiset(r) == multiset(s)
  {
    if s == [] then []
    else
      assert s == s[..|s| - 1] + [s[|s| - 1]];
      InsertById(s[|s| - 1], SortById(s[..|s| - 1]))
  }

  /** Gives each group its position as id. */
  method Renumber(groups: seq<Group>) returns (r: seq<Group>)
    ensures |r| == |groups|
    ensures forall i :: 0 <= i < |r| ==> r[i] == groups[i].(id := i)
  {
    r := groups;
    for i := 0 to |r|
      invariant |r| == |groups|
      invariant forall j :: 0 <= j < |r| ==> r[j] == if j < i then groups[j].(id := j) else groups[j]
    {
      r := r[i := r[i].(id := i)];
    }
  }

  /**
   * The clean-up at the end of Group: drops the groups with at most one
   * child, sorts the rest by id and renumbers them 0, 1, 2, ...
   */
  method FinishGroups(groups: seq<Group>) returns (r: seq<Group>)
    ensures |r| == |SortById(Kept(groups))|
    ensures forall i :: 0 <= i < |r| ==> r[i] == SortById(Kept(groups))[i].(id := i)
  {
    r := DropSmallGroups(groups);
    r := SortById(r);
    r := Renumber(r);
  }

  /**
   * What FinishGroups leaves: ids 0, 1, 2, ..., every group with at least
   * two children, and each group with at least two children kept once
   * for every time it occurs, in the order of its old id.
   */
  lemma FinishedGroups(groups: seq<Group>, r: seq<Group>)
    requires |r| == |SortById(Kept(groups))|
    requires forall i :: 0 <= i < |r| ==> r[i] == SortById(Kept(groups))[i].(id := i)
    ensures forall i :: 0 <= i < |r| ==> r[i].id == i && |r[i].children| > 1
    ensures forall x :: x in groups && |x.children| > 1 <==> x in SortById(Kept(groups))
    ensures multiset(SortById(Kept(groups))) == multiset(Kept(groups))
  {
    var s := SortById(Kept(groups));
    KeptMembers(groups);
    forall i | 0 <= i < |r|
      ensures |r[i].children| > 1
    {
      assert s[i] in multiset(Kept(groups));
    }
    forall x
      ensures x in groups && |x.children| > 1 <==> x in s
    {
      assert x in s <==> x in multiset(s);
      assert x in Kept(groups) <==> x in multiset(Kept(groups));
    }
  }
}
