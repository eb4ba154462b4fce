// The report tree view: grouping reports under group heads, flattening the
// visible rows, the sort keys of the status and log columns, the
// context-menu status transitions and the search filter
// (AssetClearance/Editor/AssetClearanceReportTreeView.cs).
module AssetClearanceReportTree {
  import opened Wrappers
  import Text
  import R = AssetClearanceReports
  import AssetClearanceDatabase
  import AssetClearanceUtil
  import AssetClearanceMethods

  // ---------------------------------------------------------------------
  // GetStringOrder and the sort keys

  /** The sum of the character codes of s. */
  function CharSum(s: string): (r: int)
    ensures r >= 0
  {
    if s == [] then 0 else CharSum(s[..|s| - 1]) + s[|s| - 1] as int
  }

  /** GetStringOrder's value: 0 for a null or empty string, otherwise its character sum. */
  function StringOrder(s: Option<string>): int
  {
    if R.IsNullOrEmpty(s) then 0 else CharSum(s.value)
  }

  lemma {:induction false} CharSumAppend(a: string, b: string)
    ensures CharSum(a + b) == CharSum(a) + CharSum(b)
    decreases |b|
  {
    if b != [] {
      var b' := b[..|b| - 1];
      assert (a + b)[..|a + b| - 1] == a + b';
      assert (a + b)[|a + b| - 1] == b[|b| - 1];
      CharSumAppend(a, b');
    } else {
      assert a + b == a;
    }
  }

  /**
   * The log order ignores the order of characters: swapping two halves of
   * a log leaves its order unchanged, so rotations of a log sort together.
   */
  lemma StringOrderRotation(a: string, b: string)
    ensures StringOrder(Some(a + b)) == StringOrder(Some(b + a))
  {
    CharSumAppend(a, b);
    CharSumAppend(b, a);
  }

  /** The order is 0 exactly for null, empty and all-NUL strings. */
  lemma {:induction false} StringOrderZero(s: Option<string>)
    ensures StringOrder(s) == 0 <==> s.None? || forall i :: 0 <= i < |s.value| ==> s.value[i] == '\0'
  {
    if s.Some? {
      CharSumZero(s.value);
    }
  }

  lemma {:induction false} CharSumZero(s: string)
    ensures CharSum(s) == 0 <==> forall i :: 0 <= i < |s| ==> s[i] == '\0'
    decreases |s|
  {
    if s != [] {
      var init := s[..|s| - 1];
      CharSumZero(init);
      assert forall i :: 0 <= i < |init| ==> init[i] == s[i];
    }
  }

  /** GetStringOrder: sums the character codes in a loop. */
  method GetStringOrder(str: Option<string>) returns (order: int)
    ensures order == StringOrder(str)
  {
    if R.IsNullOrEmpty(str) {
      return 0;
    }
    var s := str.value;
    order := 0;
    for i := 0 to |s|
      invariant order == CharSum(s[..i])
    {
      assert s[..i + 1][..i] == s[..i];
      order := order + s[i] as int;
    }
    assert s[..|s|] == s;
  }

  function StatusOrdinal(s: R.Status): int
  {
    match s
    case Confirm => 0
    case Fixing => 1
    case Ignore => 2
  }

  /**
   * The Status column key: the status ordinal plus one for a fixed report,
   * so a fixed report sorts level with the next status.
   */
  function StatusKey(report: R.Report): (k: int)
    reads report
    ensures 0 <= k <= 3
    ensures k == 0 <==> report.status == R.Confirm && !report.fixResult
    ensures k == 3 <==> report.status == R.Ignore && report.fixResult
  {
    StatusOrdinal(report.status) + (if report.fixResult then 1 else 0)
  }

  /** The Log column key: the rule's log order, or the log's string order when that is 0. */
  function LogKey(report: R.Report): (k: int)
  {
    if report.logOrder == 0 then StringOrder(report.log) else report.logOrder
  }

  /**
   * Reports with no explicit log order and a null or empty log share key 0;
   * an explicit order always wins.
   */
  lemma LogKeyCases(report: R.Report)
    ensures report.logOrder != 0 ==> LogKey(report) == report.logOrder
    ensures report.logOrder == 0 ==> LogKey(report) >= 0
    ensures report.logOrder == 0 && R.IsNullOrEmpty(report.log) ==> LogKey(report) == 0
  {
  }

  // ---------------------------------------------------------------------
  // TreeToList

  /** A tree view item: its id and its children (a null child list is empty). */
  datatype TreeItem = TreeItem(id: int, children: seq<TreeItem>)

  /** The rows shown for one item: the item, then its subtree when it has children and is expanded. */
  function Visible(t: TreeItem, isExpanded: int -> bool): seq<TreeItem>
    decreases t
  {
    [t] + (if t.children != [] && isExpanded(t.id) then VisibleList(t.children, isExpanded) else [])
  }

  /** Preorder over a list of items, descending only into expanded items. */
  function VisibleList(items: seq<TreeItem>, isExpanded: int -> bool): seq<TreeItem>
    decreases items
  {
    if items == [] then [] else Visible(items[0], isExpanded) + VisibleList(items[1..], isExpanded)
  }

  function Size(t: TreeItem): nat
    decreases t
  {
    1 + SizeList(t.children)
  }

  function SizeList(items: seq<TreeItem>): nat
    decreases items
  {
    if items == [] then 0 else Size(items[0]) + SizeList(items[1..])
  }

  lemma {:induction false} VisibleListAppend(a: seq<TreeItem>, b: seq<TreeItem>, isExpanded: int -> bool)
    ensures VisibleList(a + b, isExpanded) == VisibleList(a, isExpanded) + VisibleList(b, isExpanded)
    decreases |a|
  {
    if a != [] {
      var ab := a + b;
      assert ab[0] == a[0] && ab[1..] == a[1..] + b;
      VisibleListAppend(a[1..], b, isExpanded);
      assert VisibleList(ab, isExpanded) == Visible(a[0], isExpanded) + VisibleList(a[1..] + b, isExpanded);
    } else {
      assert a + b == b;
    }
  }

  /** With nothing expanded, the rows are exactly the top-level items. */
  lemma {:induction false} VisibleCollapsed(items: seq<TreeItem>, isExpanded: int -> bool)
    requires forall t :: t in items ==> !isExpanded(t.id)
    ensures VisibleList(items, isExpanded) == items
    decreases |items|
  {
    if items != [] {
      assert items[0] in items;
      assert forall t :: t in items[1..] ==> t in items;
      VisibleCollapsed(items[1..], isExpanded);
    }
  }

  /** With everything expanded, every item of every subtree is shown once. */
  lemma {:induction false} VisibleExpanded(items: seq<TreeItem>, isExpanded: int -> bool)
    requires forall id :: isExpanded(id)
    ensures |VisibleList(items, isExpanded)| == SizeList(items)
    decreases items
  {
    if items != [] {
      VisibleExpanded(items[0].children, isExpanded);
      VisibleExpanded(items[1..], isExpanded);
    }
  }

  /** The stack (top last) read from the top down. */
  function TopDown(stack: seq<TreeItem>): seq<TreeItem>
  {
    if stack == [] then [] else [stack[|stack| - 1]] + TopDown(stack[..|stack| - 1])
  }

  lemma TopDownPush(stack: seq<TreeItem>, t: TreeItem)
    ensures TopDown(stack + [t]) == [t] + TopDown(stack)
  {
    assert (stack + [t])[..|stack|] == stack;
  }

  /**
   * TreeToList: pushes the source items in reverse, then pops an item,
   * appends it, and pushes its children in reverse when it has children
   * and is expanded. The result is the visible preorder.
   */
  method TreeToList(source: seq<TreeItem>, isExpanded: int -> bool) returns (result: seq<TreeItem>)
    ensures result == VisibleList(source, isExpanded)
  {
    result := [];
    var stack := PushReversed([], source);
    assert source + TopDown([]) == source;
    ghost var total := VisibleList(source, isExpanded);
    while stack != []
      invariant result + VisibleList(TopDown(stack), isExpanded) == total
      decreases |total| - |result|
    {
      var current := stack[|stack| - 1];
      var rest := stack[..|stack| - 1];
      assert stack == rest + [current];
      if current.children != [] && isExpanded(current.id) {
        stack := PushReversed(rest, current.children);
      } else {
        stack := rest;
      }
      PopInvariant(result, rest, current, stack, isExpanded, total);
      result := result + [current];
    }
  }

  /** The main loop's invariant survives popping `current` and pushing its children when it is expanded. */
  lemma PopInvariant(result: seq<TreeItem>, rest: seq<TreeItem>, current: TreeItem, stack: seq<TreeItem>,
                     isExpanded: int -> bool, total: seq<TreeItem>)
    requires result + VisibleList(TopDown(rest + [current]), isExpanded) == total
    requires TopDown(stack) == if current.children != [] && isExpanded(current.id) then current.children + TopDown(rest) else TopDown(rest)
    ensures (result + [current]) + VisibleList(TopDown(stack), isExpanded) == total
  {
    var vr := VisibleList(TopDown(rest), isExpanded);
    var sub := Subtree(current, isExpanded);
    PopStep(rest, current, isExpanded);
    if current.children != [] && isExpanded(current.id) {
      VisibleListAppend(current.children, TopDown(rest), isExpanded);
      assert VisibleList(TopDown(stack), isExpanded) == sub + vr;
    } else {
      assert sub + vr == vr;
    }
    Regroup(result, current, sub, vr);
  }

  lemma Regroup<T>(a: seq<T>, x: T, b: seq<T>, c: seq<T>)
    ensures a + ([x] + b + c) == (a + [x]) + (b + c)
  {
  }

  /** Pushes items in reverse, so that items[0] ends on top. */
  method PushReversed(stack: seq<TreeItem>, items: seq<TreeItem>) returns (r: seq<TreeItem>)
    ensures TopDown(r) == items + TopDown(stack)
  {
    r := stack;
    var j := |items|;
    while j > 0
      invariant 0 <= j <= |items|
      invariant TopDown(r) == items[j..] + TopDown(stack)
    {
      j := j - 1;
      TopDownPush(r, items[j]);
      r := r + [items[j]];
    }
  }

  /** The rows below the shown part of a subtree: an item's own rows when it is expanded, else none. */
  function Subtree(t: TreeItem, isExpanded: int -> bool): seq<TreeItem>
  {
    if t.children != [] && isExpanded(t.id) then VisibleList(t.children, isExpanded) else []
  }

  /** Popping the top item yields it, then its visible subtree, then the rest of the stack. */
  lemma PopStep(rest: seq<TreeItem>, current: TreeItem, isExpanded: int -> bool)
    ensures VisibleList(TopDown(rest + [current]), isExpanded) ==
            [current] + Subtree(current, isExpanded) + VisibleList(TopDown(rest), isExpanded)
  {
    TopDownPush(rest, current);
    var td := [current] + TopDown(rest);
    assert td[0] == current && td[1..] == TopDown(rest);
    assert VisibleList(td, isExpanded) == Visible(current, isExpanded) + VisibleList(TopDown(rest), isExpanded);
  }

  // ---------------------------------------------------------------------
  // BuildRoot

  predicate HasLog(r: R.Report) { !R.IsNullOrEmpty(r.log) }

  /** Reports of temporary assets are listed apart from the others. */
  predicate IsTemp(r: R.Report) { Text.Contains(r.assetPath, "_Temp.") }

  /** Position i of the group-ordered reports starts a group: the first report, or a change of group. */
  predicate IsHead(query: seq<R.Report>, i: nat)
    requires i < |query|
  {
    i == 0 || query[i].group != query[i - 1].group
  }

  /**
   * A group head item: its id, its position in the ordered reports, its
   * group, and its children as (id, position) pairs.
   */
  datatype Head = Head(id: int, pos: nat, group: int, children: seq<(int, nat)>)

  /**
   * What BuildRoot accumulates: every head created (attached or not), the
   * next item id, and the normal and temporary root dictionaries, mapping
   * "Total" or a rules path to the indices (into `heads`) of the heads
   * attached under that root.
   */
  datatype Roots = Roots(heads: seq<Head>, index: int, normal: map<string, seq<nat>>, temp: map<string, seq<nat>>)

  function WithKey(m: map<string, seq<nat>>, key: string): map<string, seq<nat>>
  {
    if key in m then m else m[key := []]
  }

  function Attach(m: map<string, seq<nat>>, key: string, k: nat): map<string, seq<nat>>
    requires key in m
  {
    m[key := m[key] + [k]]
  }

  /** Report i opens a new head: it is the first report, or its group differs from the current head's. */
  predicate OpensHead(s: Roots, query: seq<R.Report>, i: nat)
    requires i < |query|
  {
    i == 0 || s.heads == [] || query[i].group != s.heads[|s.heads| - 1].group
  }

  /** The heads after report i: a new head, or the current head with one more child when the report has a log. */
  function NextHeads(s: Roots, query: seq<R.Report>, i: nat): seq<Head>
    requires i < |query|
  {
    var k := |s.heads|;
    if OpensHead(s, query, i) then s.heads + [Head(s.index, i, query[i].group, [])]
    else if HasLog(query[i]) then s.heads[k - 1 := s.heads[k - 1].(children := s.heads[k - 1].children + [(s.index, i)])]
    else s.heads
  }

  /** Every head and every attached child takes the next id. */
  function NextIndex(s: Roots, query: seq<R.Report>, i: nat): int
    requires i < |query|
  {
    if OpensHead(s, query, i) || HasLog(query[i]) then s.index + 1 else s.index
  }

  /**
   * One root dictionary after report i: the rules path gets a root, and a
   * new head with a log whose temporariness matches the dictionary is
   * attached under "Total" and under its rules path.
   */
  function NextDict(m: map<string, seq<nat>>, s: Roots, query: seq<R.Report>, i: nat, temp: bool,
                    rulesPathOf: nat -> string): (r: map<string, seq<nat>>)
    requires i < |query| && "Total" in m
    ensures "Total" in r
  {
    var path := rulesPathOf(query[i].rules);
    var m' := WithKey(m, path);
    var k := |s.heads|;
    if OpensHead(s, query, i) && HasLog(query[i]) && IsTemp(query[i]) == temp then Attach(Attach(m', "Total", k), path, k)
    else m'
  }

  function BuildStep(s: Roots, query: seq<R.Report>, i: nat, rulesPathOf: nat -> string): (r: Roots)
    requires i < |query| && "Total" in s.normal && "Total" in s.temp
    ensures "Total" in r.normal && "Total" in r.temp
  {
    Roots(NextHeads(s, query, i), NextIndex(s, query, i),
          NextDict(s.normal, s, query, i, false, rulesPathOf), NextDict(s.temp, s, query, i, true, rulesPathOf))
  }

  /** The roots after the first n ordered reports; ids start at 1. */
  function Build(query: seq<R.Report>, rulesPathOf: nat -> string, n: nat): (r: Roots)
    requires n <= |query|
    ensures "Total" in r.normal && "Total" in r.temp
  {
    if n == 0 then Roots([], 1, map["Total" := []], map["Total" := []])
    else BuildStep(Build(query, rulesPathOf, n - 1), query, n - 1, rulesPathOf)
  }

  /** Sync's effect on a report: the first matching record's fields, or Confirm, High and "" without one. */
  predicate Synced(records: seq<AssetClearanceDatabase.Record>, r: R.Report)
    reads r
  {
    var k := AssetClearanceDatabase.FirstMatch(records, r);
    if k < |records| then r.status == records[k].status && r.priority == records[k].priority && r.note == records[k].note
    else r.status == R.Confirm && r.priority == R.High && r.note == ""
  }

  /**
   * BuildRoot over the reports in group order (`query`): creates a head at
   * every change of group, syncs and attaches it to "Total" and its rules
   * path in the temp or normal roots when it has a log, and syncs and adds
   * every later report of the group that has a log as a child.
   */
  method BuildRoot(query: seq<R.Report>, rulesPathOf: nat -> string, database: AssetClearanceDatabase.Database)
      returns (heads: seq<Head>, normal: map<string, seq<nat>>, temp: map<string, seq<nat>>)
    modifies set j | 0 <= j < |query| && HasLog(query[j]) :: query[j]
    ensures var b := Build(query, rulesPathOf, |query|);
            heads == b.heads && normal == b.normal && temp == b.temp
    ensures forall j :: 0 <= j < |query| && HasLog(query[j]) ==> Synced(database.records, query[j])
  {
    normal := map["Total" := []];
    temp := map["Total" := []];
    heads := [];
    var index := 1;
    for i := 0 to |query|
      invariant Roots(heads, index, normal, temp) == Build(query, rulesPathOf, i)
      invariant forall j :: 0 <= j < i && HasLog(query[j]) ==> Synced(database.records, query[j])
    {
      heads, index, normal, temp := Place(heads, index, normal, temp, query, i, rulesPathOf);
      if HasLog(query[i]) {
        // An attached head and a child are both synced before they are added.
        SyncReport(query, i, database);
      }
    }
  }

  /** One iteration of BuildRoot without the database: adds report i to the heads and the roots. */
  method Place(heads: seq<Head>, index: int, normal: map<string, seq<nat>>, temp: map<string, seq<nat>>,
               query: seq<R.Report>, i: nat, rulesPathOf: nat -> string)
      returns (heads': seq<Head>, index': int, normal': map<string, seq<nat>>, temp': map<string, seq<nat>>)
    requires i < |query| && "Total" in normal && "Total" in temp
    ensures Roots(heads', index', normal', temp') == BuildStep(Roots(heads, index, normal, temp), query, i, rulesPathOf)
  {
    ghost var s := Roots(heads, index, normal, temp);
    heads', index', normal', temp' := heads, index, normal, temp;
    var report := query[i];
    var rulesPath := rulesPathOf(report.rules);
    if rulesPath !in normal' {
      normal' := normal'[rulesPath := []];
    }
    if rulesPath !in temp' {
      temp' := temp'[rulesPath := []];
    }
    if i == 0 || heads' == [] || report.group != heads'[|heads'| - 1].group {
      var k := |heads'|;
      heads' := heads' + [Head(index', i, report.group, [])];
      index' := index' + 1;
      if HasLog(report) {
        if Text.Contains(report.assetPath, "_Temp.") {
          temp' := temp'["Total" := temp'["Total"] + [k]];
          temp' := temp'[rulesPath := temp'[rulesPath] + [k]];
        } else {
          normal' := normal'["Total" := normal'["Total"] + [k]];
          normal' := normal'[rulesPath := normal'[rulesPath] + [k]];
        }
      }
    } else if HasLog(report) {
      var last := heads'[|heads'| - 1];
      heads' := heads'[|heads'| - 1 := last.(children := last.children + [(index', i)])];
      index' := index' + 1;
    }
  }

  /** Syncs report i with the database, keeping the earlier reports synced. */
  method SyncReport(query: seq<R.Report>, i: nat, database: AssetClearanceDatabase.Database)
    requires i < |query|
    requires forall j :: 0 <= j < i && HasLog(query[j]) ==> Synced(database.records, query[j])
    modifies query[i]
    ensures forall j :: 0 <= j <= i && HasLog(query[j]) ==> Synced(database.records, query[j])
  {
    var _ := database.Sync(query[i]);
  }

  /**
   * The root BuildRoot returns: the temp or normal dictionary, under the
   * selected rules path or "Total" when none is selected; None where the
   * dictionary has no such key.
   */
  function SelectRoot(normal: map<string, seq<nat>>, temp: map<string, seq<nat>>, showTemp: bool,
                      selectRulePath: Option<string>): (r: Option<seq<nat>>)
    ensures var dict := if showTemp then temp else normal;
            var key := if R.IsNullOrEmpty(selectRulePath) then "Total" else selectRulePath.value;
            (r.Some? <==> key in dict) && (r.Some? ==> r.value == dict[key])
  {
    var dict := if showTemp then temp else normal;
    var key := if R.IsNullOrEmpty(selectRulePath) then "Total" else selectRulePath.value;
    if key in dict then Some(dict[key]) else None
  }

  /** The positions of the group heads among the first n ordered reports, in order. */
  function HeadPositions(query: seq<R.Report>, n: nat): (r: seq<nat>)
    requires n <= |query|
    ensures forall k :: 0 <= k < |r| ==> r[k] < n && IsHead(query, r[k])
  {
    if n == 0 then []
    else HeadPositions(query, n - 1) + (if IsHead(query, n - 1) then [n - 1] else [])
  }

  /** The positions in [lo, hi) of reports with a log, in order. */
  function Logged(query: seq<R.Report>, lo: nat, hi: nat): (r: seq<nat>)
    requires lo <= hi <= |query|
    ensures forall k :: 0 <= k < |r| ==> lo <= r[k] < hi && HasLog(query[r[k]])
    decreases hi
  {
    if hi == lo then []
    else Logged(query, lo, hi - 1) + (if HasLog(query[hi - 1]) then [hi - 1] else [])
  }

  function ChildPositions(children: seq<(int, nat)>): seq<nat>
  {
    if children == [] then [] else ChildPositions(children[..|children| - 1]) + [children[|children| - 1].1]
  }

  /** Where the group of head k ends: the next head's position, or n. */
  function GroupEnd(heads: seq<Head>, k: nat, n: nat): nat
    requires k < |heads|
  {
    if k + 1 < |heads| then heads[k + 1].pos else n
  }

  /**
   * The indices of the heads (at positions `ps`) attached under a root: the
   * head has a log, is temporary exactly when `temp` is, and, for a rules
   * path root, belongs to rules with that path.
   */
  function AttachedOf(query: seq<R.Report>, ps: seq<nat>, temp: bool, path: Option<string>, rulesPathOf: nat -> string): (r: seq<nat>)
    requires forall k :: 0 <= k < |ps| ==> ps[k] < |query|
    ensures forall k :: 0 <= k < |r| ==> r[k] < |ps| && HasLog(query[ps[r[k]]]) && IsTemp(query[ps[r[k]]]) == temp
  {
    if ps == [] then []
    else
      var k := |ps| - 1;
      var report := query[ps[k]];
      AttachedOf(query, ps[..k], temp, path, rulesPathOf) +
      (if HasLog(report) && IsTemp(report) == temp && (path.None? || rulesPathOf(report.rules) == path.value) then [k] else [])
  }

  /**
   * Heads are created exactly at the first report and at every change of
   * group, in order, each carrying its report's group; the last head's
   * group is the group of the last report seen.
   */
  lemma {:induction false} BuildHeads(query: seq<R.Report>, rulesPathOf: nat -> string, n: nat)
    requires n <= |query|
    ensures var hs := Build(query, rulesPathOf, n).heads;
            var ps := HeadPositions(query, n);
            |hs| == |ps| &&
            (forall k :: 0 <= k < |hs| ==> hs[k].pos == ps[k] && hs[k].group == query[ps[k]].group) &&
            (n > 0 ==> hs != [] && hs[|hs| - 1].group == query[n - 1].group)
  {
    if n > 0 {
      BuildHeads(query, rulesPathOf, n - 1);
      var s := Build(query, rulesPathOf, n - 1);
      HeadsStep(query, s, n - 1, HeadPositions(query, n - 1));
      assert Build(query, rulesPathOf, n).heads == NextHeads(s, query, n - 1);
    }
  }

  /** One step of BuildHeads: the heads after report i line up with the head positions up to i. */
  lemma HeadsStep(query: seq<R.Report>, s: Roots, i: nat, ps: seq<nat>)
    requires i < |query| && |s.heads| == |ps|
    requires forall k :: 0 <= k < |ps| ==> ps[k] < |query| && s.heads[k].pos == ps[k] && s.heads[k].group == query[ps[k]].group
    requires i > 0 ==> s.heads != [] && s.heads[|s.heads| - 1].group == query[i - 1].group
    ensures var hs := NextHeads(s, query, i);
            var qs := ps + (if IsHead(query, i) then [i] else []);
            |hs| == |qs| &&
            (forall k :: 0 <= k < |hs| ==> hs[k].pos == qs[k] && hs[k].group == query[qs[k]].group) &&
            hs != [] && hs[|hs| - 1].group == query[i].group
  {
    assert OpensHead(s, query, i) <==> IsHead(query, i);
  }

  /** BuildStep opens a new head at position i exactly when i is a group head. */
  lemma NewHeadAtGroupChange(query: seq<R.Report>, rulesPathOf: nat -> string, i: nat)
    requires i < |query|
    ensures var s := Build(query, rulesPathOf, i);
            (i == 0 || s.heads == [] || query[i].group != s.heads[|s.heads| - 1].group) <==> IsHead(query, i)
  {
    BuildHeads(query, rulesPathOf, i);
  }

  /** What one step of Build needs: as many heads as head positions, and a new head exactly at a group head. */
  lemma StepFacts(query: seq<R.Report>, rulesPathOf: nat -> string, i: nat)
    requires i < |query|
    ensures var s := Build(query, rulesPathOf, i);
            |s.heads| == |HeadPositions(query, i)| && (OpensHead(s, query, i) <==> IsHead(query, i)) &&
            Build(query, rulesPathOf, i + 1) == BuildStep(s, query, i, rulesPathOf)
  {
    BuildHeads(query, rulesPathOf, i);
    NewHeadAtGroupChange(query, rulesPathOf, i);
  }

  /** Head k's children are the reports with a log that follow it up to the next head, or to n. */
  predicate ChildrenFollow(query: seq<R.Report>, hs: seq<Head>, k: nat, n: nat)
    requires k < |hs| && n <= |query|
  {
    hs[k].pos < GroupEnd(hs, k, n) <= n &&
    ChildPositions(hs[k].children) == Logged(query, hs[k].pos + 1, GroupEnd(hs, k, n))
  }

  predicate ChildrenFollowHeads(query: seq<R.Report>, hs: seq<Head>, n: nat)
    requires n <= |query|
  {
    forall k :: 0 <= k < |hs| ==> ChildrenFollow(query, hs, k, n)
  }

  /** A head that is not the last keeps its children and its group end when a later report is added. */
  lemma ChildrenFollowKept(query: seq<R.Report>, before: seq<Head>, hs: seq<Head>, k: nat, i: nat, n: nat)
    requires i <= n <= |query| && k + 1 < |before| && k + 1 < |hs|
    requires hs[k] == before[k] && hs[k + 1].pos == before[k + 1].pos
    requires ChildrenFollow(query, before, k, i) && before[k + 1].pos <= i
    ensures ChildrenFollow(query, hs, k, n)
  {
    assert GroupEnd(hs, k, n) == GroupEnd(before, k, i);
  }

  lemma ChildrenStep(query: seq<R.Report>, s: Roots, i: nat)
    requires i < |query| && ChildrenFollowHeads(query, s.heads, i)
    ensures ChildrenFollowHeads(query, NextHeads(s, query, i), i + 1)
  {
    if OpensHead(s, query, i) {
      ChildrenStepNewHead(query, s, i);
    } else {
      ChildrenStepSameGroup(query, s, i);
    }
  }

  lemma ChildrenStepNewHead(query: seq<R.Report>, s: Roots, i: nat)
    requires i < |query| && ChildrenFollowHeads(query, s.heads, i) && OpensHead(s, query, i)
    ensures ChildrenFollowHeads(query, NextHeads(s, query, i), i + 1)
  {
    var hs := NextHeads(s, query, i);
    var n := i + 1;
    var L := |s.heads|;
    assert hs == s.heads + [Head(s.index, i, query[i].group, [])];
    forall k | 0 <= k < |hs|
      ensures ChildrenFollow(query, hs, k, n)
    {
      if k + 1 < L {
        assert ChildrenFollow(query, s.heads, k, i) && ChildrenFollow(query, s.heads, k + 1, i);
        ChildrenFollowKept(query, s.heads, hs, k, i, n);
      } else if k + 1 == L {
        assert ChildrenFollow(query, s.heads, k, i);
        assert GroupEnd(hs, k, n) == i == GroupEnd(s.heads, k, i);
      } else {
        assert GroupEnd(hs, k, n) == n;
      }
    }
  }

  lemma ChildrenStepSameGroup(query: seq<R.Report>, s: Roots, i: nat)
    requires i < |query| && ChildrenFollowHeads(query, s.heads, i) && !OpensHead(s, query, i)
    ensures ChildrenFollowHeads(query, NextHeads(s, query, i), i + 1)
  {
    var hs := NextHeads(s, query, i);
    var n := i + 1;
    var L := |s.heads|;
    var last := s.heads[L - 1];
    var cs := if HasLog(query[i]) then last.children + [(s.index, i)] else last.children;
    assert hs == s.heads[L - 1 := last.(children := cs)];
    assert ChildrenFollow(query, s.heads, L - 1, i);
    assert GroupEnd(s.heads, L - 1, i) == i;
    if HasLog(query[i]) {
      assert cs[..|last.children|] == last.children;
      assert ChildPositions(cs) == ChildPositions(last.children) + [i];
    }
    assert ChildPositions(cs) == Logged(query, last.pos + 1, n);
    forall k | 0 <= k < |hs|
      ensures ChildrenFollow(query, hs, k, n)
    {
      if k < L - 1 {
        assert ChildrenFollow(query, s.heads, k, i) && ChildrenFollow(query, s.heads, k + 1, i);
        ChildrenFollowKept(query, s.heads, hs, k, i, n);
      } else {
        assert GroupEnd(hs, k, n) == n;
      }
    }
  }

  /**
   * Each head's children are, in order, exactly the reports with a log that
   * follow it up to the next head (or the last report seen).
   */
  lemma {:induction false} BuildChildren(query: seq<R.Report>, rulesPathOf: nat -> string, n: nat)
    requires n <= |query|
    ensures ChildrenFollowHeads(query, Build(query, rulesPathOf, n).heads, n)
  {
    if n > 0 {
      BuildChildren(query, rulesPathOf, n - 1);
      ChildrenStep(query, Build(query, rulesPathOf, n - 1), n - 1);
    }
  }

  /** The item ids in creation order (each head, then its children). */
  function Ids(heads: seq<Head>): seq<int>
  {
    if heads == [] then []
    else
      var last := heads[|heads| - 1];
      Ids(heads[..|heads| - 1]) + [last.id] + ChildIds(last.children)
  }

  function ChildIds(children: seq<(int, nat)>): seq<int>
  {
    if children == [] then [] else ChildIds(children[..|children| - 1]) + [children[|children| - 1].0]
  }

  /** The integers a, a + 1, ..., b - 1. */
  function Range(a: int, b: int): (r: seq<int>)
    decreases b - a
  {
    if b <= a then [] else Range(a, b - 1) + [b - 1]
  }

  /** The heads and the next id after one more report. */
  lemma BuildUnfold(query: seq<R.Report>, rulesPathOf: nat -> string, i: nat)
    requires i < |query|
    ensures Build(query, rulesPathOf, i + 1).heads == NextHeads(Build(query, rulesPathOf, i), query, i)
    ensures Build(query, rulesPathOf, i + 1).index == NextIndex(Build(query, rulesPathOf, i), query, i)
  {
  }

  lemma IdsStep(query: seq<R.Report>, s: Roots, i: nat, b: Roots)
    requires i < |query| && s.index >= 1 && Ids(s.heads) == Range(1, s.index)
    requires b.heads == NextHeads(s, query, i) && b.index == NextIndex(s, query, i)
    ensures b.index >= 1 && Ids(b.heads) == Range(1, b.index)
  {
    var hs := NextHeads(s, query, i);
    var L := |s.heads|;
    if OpensHead(s, query, i) {
      assert hs == s.heads + [Head(s.index, i, query[i].group, [])];
      assert hs[..L] == s.heads;
      assert Ids(hs) == Ids(s.heads) + [s.index] + ChildIds([]);
    } else if HasLog(query[i]) {
      var last := s.heads[L - 1];
      var cs := last.children + [(s.index, i)];
      assert hs == s.heads[L - 1 := last.(children := cs)];
      assert hs[..L - 1] == s.heads[..L - 1];
      assert cs[..|last.children|] == last.children;
      assert ChildIds(cs) == ChildIds(last.children) + [s.index];
    }
  }

  /** Item ids are handed out consecutively from 1 in creation order, so no two items share an id. */
  lemma {:induction false} BuildIds(query: seq<R.Report>, rulesPathOf: nat -> string, n: nat)
    requires n <= |query|
    ensures var b := Build(query, rulesPathOf, n);
            b.index >= 1 && Ids(b.heads) == Range(1, b.index)
  {
    if n > 0 {
      BuildIds(query, rulesPathOf, n - 1);
      BuildIdsStep(query, rulesPathOf, n - 1);
    }
  }

  lemma BuildIdsStep(query: seq<R.Report>, rulesPathOf: nat -> string, i: nat)
    requires i < |query|
    requires var s := Build(query, rulesPathOf, i); s.index >= 1 && Ids(s.heads) == Range(1, s.index)
    ensures var b := Build(query, rulesPathOf, i + 1); b.index >= 1 && Ids(b.heads) == Range(1, b.index)
  {
    BuildUnfold(query, rulesPathOf, i);
    IdsStep(query, Build(query, rulesPathOf, i), i, Build(query, rulesPathOf, i + 1));
  }

  /** The dictionary of temporary roots, or of the others. */
  function Dict(b: Roots, temp: bool): map<string, seq<nat>>
  {
    if temp then b.temp else b.normal
  }

  lemma AttachedOfSnoc(query: seq<R.Report>, ps: seq<nat>, p: nat, temp: bool, path: Option<string>, rulesPathOf: nat -> string)
    requires forall k :: 0 <= k < |ps| ==> ps[k] < |query|
    requires p < |query|
    ensures var r := query[p];
            AttachedOf(query, ps + [p], temp, path, rulesPathOf) ==
            AttachedOf(query, ps, temp, path, rulesPathOf) +
            (if HasLog(r) && IsTemp(r) == temp && (path.None? || rulesPathOf(r.rules) == path.value) then [|ps|] else [])
  {
    assert (ps + [p])[..|ps|] == ps;
  }

  lemma TotalsStep(query: seq<R.Report>, s: Roots, m: map<string, seq<nat>>, i: nat, temp: bool, ps: seq<nat>,
                   rulesPathOf: nat -> string)
    requires i < |query| && "Total" in m
    requires forall k :: 0 <= k < |ps| ==> ps[k] < |query|
    requires |s.heads| == |ps| && (OpensHead(s, query, i) <==> IsHead(query, i))
    requires rulesPathOf(query[i].rules) != "Total"
    requires m["Total"] == AttachedOf(query, ps, temp, None, rulesPathOf)
    ensures NextDict(m, s, query, i, temp, rulesPathOf)["Total"] ==
            AttachedOf(query, ps + (if IsHead(query, i) then [i] else []), temp, None, rulesPathOf)
  {
    var path := rulesPathOf(query[i].rules);
    var m' := WithKey(m, path);
    assert m'["Total"] == m["Total"];
    var r := query[i];
    if IsHead(query, i) {
      AttachedOfSnoc(query, ps, i, temp, None, rulesPathOf);
      if HasLog(r) && IsTemp(r) == temp {
        assert NextDict(m, s, query, i, temp, rulesPathOf) == Attach(Attach(m', "Total", |ps|), path, |ps|);
      } else {
        assert NextDict(m, s, query, i, temp, rulesPathOf) == m';
      }
    } else {
      assert NextDict(m, s, query, i, temp, rulesPathOf) == m';
      assert ps + [] == ps;
    }
  }

  /**
   * With no rules path named "Total", the "Total" root of each dictionary
   * lists, in order, exactly the heads that have a log and whose asset is
   * temporary just when the dictionary is the temporary one.
   */
  lemma {:induction false} BuildTotals(query: seq<R.Report>, rulesPathOf: nat -> string, n: nat, temp: bool)
    requires n <= |query|
    requires forall j :: 0 <= j < n ==> rulesPathOf(query[j].rules) != "Total"
    ensures Dict(Build(query, rulesPathOf, n), temp)["Total"] ==
            AttachedOf(query, HeadPositions(query, n), temp, None, rulesPathOf)
  {
    if n > 0 {
      var i := n - 1;
      var s := Build(query, rulesPathOf, i);
      BuildTotals(query, rulesPathOf, i, temp);
      StepFacts(query, rulesPathOf, i);
      TotalsStep(query, s, Dict(s, temp), i, temp, HeadPositions(query, i), rulesPathOf);
      assert Dict(Build(query, rulesPathOf, n), temp) == NextDict(Dict(s, temp), s, query, i, temp, rulesPathOf);
    }
  }

  /** The rules paths of the first n reports. */
  function RulesPaths(query: seq<R.Report>, rulesPathOf: nat -> string, n: nat): set<string>
    requires n <= |query|
  {
    set j | 0 <= j < n :: rulesPathOf(query[j].rules)
  }

  lemma {:induction false} AttachedOfOtherPath(query: seq<R.Report>, ps: seq<nat>, temp: bool, path: string, rulesPathOf: nat -> string)
    requires forall k :: 0 <= k < |ps| ==> ps[k] < |query| && rulesPathOf(query[ps[k]].rules) != path
    ensures AttachedOf(query, ps, temp, Some(path), rulesPathOf) == []
  {
    if ps != [] {
      AttachedOfOtherPath(query, ps[..|ps| - 1], temp, path, rulesPathOf);
    }
  }

  lemma PathsStep(query: seq<R.Report>, s: Roots, i: nat, temp: bool, path: string, ps: seq<nat>, rulesPathOf: nat -> string)
    requires i < |query| && "Total" in s.normal && "Total" in s.temp && path != "Total"
    requires forall k :: 0 <= k < |ps| ==> ps[k] < i
    requires |s.heads| == |ps| && (OpensHead(s, query, i) <==> IsHead(query, i))
    requires path in Dict(s, temp) <==> path in RulesPaths(query, rulesPathOf, i)
    requires path in Dict(s, temp) ==> Dict(s, temp)[path] == AttachedOf(query, ps, temp, Some(path), rulesPathOf)
    ensures var d := NextDict(Dict(s, temp), s, query, i, temp, rulesPathOf);
            (path in d <==> path in RulesPaths(query, rulesPathOf, i + 1)) &&
            (path in d ==> d[path] == AttachedOf(query, ps + (if IsHead(query, i) then [i] else []), temp, Some(path), rulesPathOf))
  {
    assert RulesPaths(query, rulesPathOf, i + 1) == RulesPaths(query, rulesPathOf, i) + {rulesPathOf(query[i].rules)};
    if path !in RulesPaths(query, rulesPathOf, i) {
      forall k | 0 <= k < |ps|
        ensures rulesPathOf(query[ps[k]].rules) != path
      {
        assert rulesPathOf(query[ps[k]].rules) in RulesPaths(query, rulesPathOf, i);
      }
      AttachedOfOtherPath(query, ps, temp, path, rulesPathOf);
    }
    if IsHead(query, i) {
      AttachedOfSnoc(query, ps, i, temp, Some(path), rulesPathOf);
    } else {
      assert ps + [] == ps;
    }
  }

  /**
   * Every rules path met so far has a root in both dictionaries, and that
   * root lists, in order, the heads with a log from rules at that path whose
   * asset is temporary just when the dictionary is the temporary one.
   */
  lemma {:induction false} BuildPaths(query: seq<R.Report>, rulesPathOf: nat -> string, n: nat, temp: bool, path: string)
    requires n <= |query| && path != "Total"
    ensures var d := Dict(Build(query, rulesPathOf, n), temp);
            (path in d <==> path in RulesPaths(query, rulesPathOf, n)) &&
            (path in d ==> d[path] == AttachedOf(query, HeadPositions(query, n), temp, Some(path), rulesPathOf))
  {
    if n > 0 {
      var i := n - 1;
      var s := Build(query, rulesPathOf, i);
      BuildPaths(query, rulesPathOf, i, temp, path);
      StepFacts(query, rulesPathOf, i);
      PathsStep(query, s, i, temp, path, HeadPositions(query, i), rulesPathOf);
      assert Dict(Build(query, rulesPathOf, n), temp) == NextDict(Dict(s, temp), s, query, i, temp, rulesPathOf);
    }
  }

  // ---------------------------------------------------------------------
  // Context-menu status transitions

  /** A selected row: the report of its item and its depth (0 for a group head). */
  datatype Row = Row(report: R.Report, depth: int)

  /** The rows an action applies to: the selection, or the clicked item when nothing is selected. */
  function ActionRows(selection: seq<Row>, item: Row): (rows: seq<Row>)
    ensures rows != [] && (selection != [] ==> rows == selection) && (selection == [] ==> rows == [item])
  {
    if selection == [] then [item] else selection
  }

  function RowReports(rows: seq<Row>): (r: seq<R.Report>)
    ensures |r| == |rows| && forall i :: 0 <= i < |rows| ==> r[i] == rows[i].report
  {
    seq(|rows|, i requires 0 <= i < |rows| => rows[i].report)
  }

  /** Report r is affected by row i: it is the row's report, or the row is a group head and r is in its group. */
  predicate InScope(rows: seq<Row>, reports: seq<R.Report>, i: nat, r: R.Report)
    requires i < |rows|
  {
    Covers(rows[i], reports, r)
  }

  predicate Covers(row: Row, reports: seq<R.Report>, r: R.Report)
  {
    r == row.report || (row.depth == 0 && r in reports && r.group == row.report.group)
  }

  predicate NoRecord(records: seq<AssetClearanceDatabase.Record>, r: R.Report)
  {
    AssetClearanceDatabase.FirstMatch(records, r) == |records|
  }

  /** Sets every report of group g to `status` and inserts it into the database. */
  method SetGroupStatus(reports: seq<R.Report>, g: int, status: R.Status, database: AssetClearanceDatabase.Database)
    modifies reports`status, database`records
    ensures forall r :: r in reports && r.group == g ==> r.status == status && AssetClearanceDatabase.Recorded(database.records, r, status)
    ensures forall r :: r in reports && r.group != g ==> r.status == old(r.status)
    ensures forall x: R.Report :: old(allocated(x)) && AssetClearanceDatabase.Recorded(old(database.records), x, status) ==>
              AssetClearanceDatabase.Recorded(database.records, x, status)
  {
    for j := 0 to |reports|
      invariant forall m :: 0 <= m < j && reports[m].group == g ==>
                  reports[m].status == status && AssetClearanceDatabase.Recorded(database.records, reports[m], status)
      invariant forall r :: r in reports && r.group != g ==> r.status == old(r.status)
      invariant forall x: R.Report :: old(allocated(x)) && AssetClearanceDatabase.Recorded(old(database.records), x, status) ==>
                  AssetClearanceDatabase.Recorded(database.records, x, status)
    {
      var report := reports[j];
      if report.group == g {
        report.status := status;
        InsertStatus(report, status, database);
      }
    }
  }

  /** Inserts a report whose status is `status`, keeping every report recorded with `status` so. */
  method InsertStatus(report: R.Report, status: R.Status, database: AssetClearanceDatabase.Database)
    requires report.status == status
    modifies database`records
    ensures AssetClearanceDatabase.Recorded(database.records, report, status)
    ensures forall x: R.Report :: AssetClearanceDatabase.Recorded(old(database.records), x, status) ==>
              AssetClearanceDatabase.Recorded(database.records, x, status)
  {
    ghost var before := database.records;
    database.Insert(report);
    AssetClearanceDatabase.InsertRecords(before, report, status, report.priority, report.note);
    forall x: R.Report | AssetClearanceDatabase.Recorded(before, x, status)
      ensures AssetClearanceDatabase.Recorded(database.records, x, status)
    {
      AssetClearanceDatabase.InsertKeepsRecorded(before, report, status, report.priority, report.note, x);
    }
  }

  /**
   * Set Fixing / Set Ignore: for every row whose report is not fixed, sets
   * `status` on its report (and, for a group head, on every report of its
   * group) and inserts each into the database. Only those reports change
   * status, and each ends recorded with that status.
   */
  method SetStatus(rows: seq<Row>, reports: seq<R.Report>, status: R.Status, database: AssetClearanceDatabase.Database)
    modifies reports`status, RowReports(rows)`status, database`records
    ensures forall i, r :: 0 <= i < |rows| && !rows[i].report.fixResult && InScope(rows, reports, i, r) ==>
              r.status == status && AssetClearanceDatabase.Recorded(database.records, r, status)
    ensures forall r :: (r in reports || r in RowReports(rows)) && r.status != old(r.status) ==>
              exists i :: 0 <= i < |rows| && !rows[i].report.fixResult && InScope(rows, reports, i, r)
  {
    for k := 0 to |rows|
      invariant forall i, r :: 0 <= i < k && !rows[i].report.fixResult && InScope(rows, reports, i, r) ==>
                  r.status == status && AssetClearanceDatabase.Recorded(database.records, r, status)
      invariant forall r :: (r in reports || r in RowReports(rows)) && r.status != old(r.status) ==>
                  exists i :: 0 <= i < k && !rows[i].report.fixResult && InScope(rows, reports, i, r)
    {
      var row := rows[k];
      if row.report.fixResult {
        continue;
      }
      if row.depth == 0 {
        SetGroupStatus(reports, row.report.group, status, database);
      }
      row.report.status := status;
      InsertStatus(row.report, status, database);
    }
  }

  /** Sets fixResult on every report of group g and removes it from the database. */
  method FixGroup(reports: seq<R.Report>, g: int, database: AssetClearanceDatabase.Database)
    modifies reports`fixResult, database`records
    ensures forall r :: r in reports && r.group == g ==> r.fixResult && NoRecord(database.records, r)
    ensures forall r :: r in reports && r.group != g ==> r.fixResult == old(r.fixResult)
    ensures forall x: R.Report :: old(allocated(x)) && NoRecord(old(database.records), x) ==> NoRecord(database.records, x)
  {
    for j := 0 to |reports|
      invariant forall m :: 0 <= m < j && reports[m].group == g ==> reports[m].fixResult && NoRecord(database.records, reports[m])
      invariant forall r :: r in reports && r.group != g ==> r.fixResult == old(r.fixResult)
      invariant forall x: R.Report :: old(allocated(x)) && NoRecord(old(database.records), x) ==> NoRecord(database.records, x)
    {
      var report := reports[j];
      if report.group == g {
        report.fixResult := true;
        RemoveReport(report, database);
      }
    }
  }

  /** Removes a report's records; records are only dropped, so reports without one keep none. */
  method RemoveReport(report: R.Report, database: AssetClearanceDatabase.Database)
    modifies database`records
    ensures NoRecord(database.records, report)
    ensures forall x :: x in database.records ==> x in old(database.records)
    ensures forall x: R.Report :: NoRecord(old(database.records), x) ==> NoRecord(database.records, x)
  {
    ghost var before := database.records;
    database.Remove(report);
    AssetClearanceDatabase.RemoveThenSyncFails(before, report);
    AssetClearanceDatabase.UnmatchedIsSublist(before, report);
    forall x: R.Report | NoRecord(before, x)
      ensures NoRecord(database.records, x)
    {
      AssetClearanceDatabase.NoMatchInSublist(before, database.records, x);
    }
  }

  /**
   * Set Fixed: for every row whose report is not yet fixed when it is
   * reached, sets fixResult on its report (and, for a group head, on every
   * report of its group) and removes each from the database. With one row
   * per report, every row's report ends fixed, and every report in the scope
   * of a row that was not fixed beforehand ends fixed with no record.
   */
  method SetFixed(rows: seq<Row>, reports: seq<R.Report>, database: AssetClearanceDatabase.Database)
    requires forall i, j :: 0 <= i < j < |rows| ==> rows[i].report != rows[j].report
    modifies reports`fixResult, RowReports(rows)`fixResult, database`records
    ensures forall i :: 0 <= i < |rows| ==> rows[i].report.fixResult
    ensures forall i, r :: 0 <= i < |rows| && !old(rows[i].report.fixResult) && InScope(rows, reports, i, r) ==>
              r.fixResult && NoRecord(database.records, r)
    ensures forall r :: (r in reports || r in RowReports(rows)) && old(r.fixResult) ==> r.fixResult
  {
    ghost var groups: set<int> := {};
    ghost var done: set<R.Report> := {};
    for k := 0 to |rows|
      invariant forall r :: r in done ==> r.fixResult && NoRecord(database.records, r)
      invariant forall r :: r in reports && r.group in groups ==> r.fixResult && NoRecord(database.records, r)
      invariant forall r :: r in done ==> exists i :: 0 <= i < k && r == rows[i].report
      invariant forall r :: (r in reports || r in RowReports(rows)) && r.fixResult && !old(r.fixResult) ==>
                  r in done || (r in reports && r.group in groups)
      invariant forall i :: 0 <= i < k ==>
                  rows[i].report.fixResult &&
                  (!old(rows[i].report.fixResult) ==>
                     NoRecord(database.records, rows[i].report) && (rows[i].depth == 0 ==> rows[i].report.group in groups))
      invariant forall r :: (r in reports || r in RowReports(rows)) && old(r.fixResult) ==> r.fixResult
    {
      var row := rows[k];
      assert row.report in RowReports(rows);
      if row.report.fixResult {
        continue;
      }
      if row.depth == 0 {
        FixGroup(reports, row.report.group, database);
        groups := groups + {row.report.group};
      }
      row.report.fixResult := true;
      RemoveReport(row.report, database);
      done := done + {row.report};
    }
  }

  /** Resets every report of group g (not fixed, Confirm, High) and removes it from the database. */
  method ResetGroup(reports: seq<R.Report>, g: int, database: AssetClearanceDatabase.Database)
    modifies reports`fixResult, reports`status, reports`priority, database`records
    ensures forall r :: r in reports && r.group == g ==> IsReset(r) && NoRecord(database.records, r)
    ensures forall r :: r in reports && r.group != g ==>
              r.fixResult == old(r.fixResult) && r.status == old(r.status) && r.priority == old(r.priority)
    ensures forall x: R.Report :: old(allocated(x)) && NoRecord(old(database.records), x) ==> NoRecord(database.records, x)
  {
    for j := 0 to |reports|
      invariant forall m :: 0 <= m < j && reports[m].group == g ==> IsReset(reports[m]) && NoRecord(database.records, reports[m])
      invariant forall r :: r in reports && r.group != g ==>
                  r.fixResult == old(r.fixResult) && r.status == old(r.status) && r.priority == old(r.priority)
      invariant forall x: R.Report :: old(allocated(x)) && NoRecord(old(database.records), x) ==> NoRecord(database.records, x)
    {
      var report := reports[j];
      if report.group == g {
        report.fixResult := false;
        report.status := R.Confirm;
        report.priority := R.High;
        RemoveReport(report, database);
      }
    }
  }

  predicate IsReset(r: R.Report)
    reads r
  {
    !r.fixResult && r.status == R.Confirm && r.priority == R.High
  }

  /** Resets one row's report and, for a group head, every report of its group. */
  method ResetRow(row: Row, reports: seq<R.Report>, database: AssetClearanceDatabase.Database)
    modifies reports`fixResult, reports`status, reports`priority
    modifies row.report`fixResult, row.report`status, row.report`priority, database`records
    ensures forall r :: Covers(row, reports, r) ==> IsReset(r) && NoRecord(database.records, r)
    ensures forall r :: r in reports && !Covers(row, reports, r) ==>
              r.fixResult == old(r.fixResult) && r.status == old(r.status) && r.priority == old(r.priority)
    ensures forall x: R.Report :: old(allocated(x)) && NoRecord(old(database.records), x) ==> NoRecord(database.records, x)
  {
    if row.depth == 0 {
      ResetGroup(reports, row.report.group, database);
    }
    row.report.fixResult := false;
    row.report.status := R.Confirm;
    row.report.priority := R.High;
    RemoveReport(row.report, database);
  }

  /**
   * Reset: for every row (fixed or not) resets its report and, for a group
   * head, every report of its group to not fixed, Confirm and High, and
   * removes each from the database. Reports outside every row's scope keep
   * these fields.
   */
  method Reset(rows: seq<Row>, reports: seq<R.Report>, database: AssetClearanceDatabase.Database)
    modifies reports`fixResult, reports`status, reports`priority
    modifies RowReports(rows)`fixResult, RowReports(rows)`status, RowReports(rows)`priority, database`records
    ensures forall i, r :: 0 <= i < |rows| && InScope(rows, reports, i, r) ==> IsReset(r) && NoRecord(database.records, r)
    ensures forall r :: (r in reports || r in RowReports(rows)) && (forall i :: 0 <= i < |rows| ==> !InScope(rows, reports, i, r)) ==>
              r.fixResult == old(r.fixResult) && r.status == old(r.status) && r.priority == old(r.priority)
  {
    for k := 0 to |rows|
      invariant forall i, r :: 0 <= i < k && InScope(rows, reports, i, r) ==> IsReset(r) && NoRecord(database.records, r)
      invariant forall r :: (r in reports || r in RowReports(rows)) && (forall i :: 0 <= i < k ==> !InScope(rows, reports, i, r)) ==>
                  r.fixResult == old(r.fixResult) && r.status == old(r.status) && r.priority == old(r.priority)
    {
      label Before:
      ResetRow(rows[k], reports, database);
      forall r | (r in reports || r in RowReports(rows)) && (forall i :: 0 <= i < k + 1 ==> !InScope(rows, reports, i, r))
        ensures r.fixResult == old(r.fixResult) && r.status == old(r.status) && r.priority == old(r.priority)
      {
        assert !InScope(rows, reports, k, r);
        assert r.fixResult == old@Before(r.fixResult) && r.status == old@Before(r.status) && r.priority == old@Before(r.priority);
      }
    }
  }

  // ---------------------------------------------------------------------
  // DoesItemMatchSearch

  datatype SearchMode = Rule | PingObject | Log | Asset

  /**
   * The text a search mode looks at: the rule name, the ping object's
   * display name, the log, or (the default) the asset path; None where the
   * source would dereference null.
   */
  function SearchField(mode: SearchMode, report: R.Report, subAssetName: string): Option<string>
  {
    match mode
    case Rule => Some(report.ruleName)
    case PingObject => AssetClearanceUtil.GetPingObjectDisplayName(report.assetPath, report.pingObject, subAssetName)
    case Log => report.log
    case Asset => Some(report.assetPath)
  }

  /** DoesItemMatchSearch: case-insensitive substring test; None for a null field. */
  function DoesItemMatchSearch(mode: SearchMode, report: R.Report, subAssetName: string, search: string): (r: Option<bool>)
    ensures r.None? <==> SearchField(mode, report, subAssetName).None?
    ensures r.Some? ==> (r.value <==> Text.Contains(Text.ToLower(SearchField(mode, report, subAssetName).value), Text.ToLower(search)))
  {
    var field := SearchField(mode, report, subAssetName);
    if field.None? then None
    else Some(Text.Contains(Text.ToLower(field.value), Text.ToLower(search)))
  }

  /** The search ignores the case of the search text, and an empty search matches every non-null field. */
  lemma SearchIgnoresCase(mode: SearchMode, report: R.Report, subAssetName: string, search: string)
    ensures DoesItemMatchSearch(mode, report, subAssetName, Text.ToLower(search)) ==
            DoesItemMatchSearch(mode, report, subAssetName, search)
    ensures SearchField(mode, report, subAssetName).Some? ==>
              DoesItemMatchSearch(mode, report, subAssetName, "") == Some(true)
  {
    AssetClearanceMethods.ToLowerIdempotent(search);
    var field := SearchField(mode, report, subAssetName);
    if field.Some? {
      assert Text.OccursAt(Text.ToLower(""), Text.ToLower(field.value), 0);
    }
  }

  /** An asset search matches a report whose asset path contains the search text verbatim. */
  lemma AssetSearchFindsSubstring(report: R.Report, subAssetName: string, search: string, k: nat)
    requires Text.OccursAt(search, report.assetPath, k)
    ensures DoesItemMatchSearch(Asset, report, subAssetName, search) == Some(true)
  {
    var p := report.assetPath;
    assert Text.ToLower(p)[k..k + |search|] == Text.ToLower(search);
    assert Text.OccursAt(Text.ToLower(search), Text.ToLower(p), k);
  }
}
