// The layout-keeping parts of the rules inspector
// (AssetClearance/Editor/AssetClearanceRulesEditor.cs): the priority sort of
// a condition list, the growth of a method's flat parameter layout when the
// method is validated, and the "+" / "-" buttons on array parameters.
module AssetClearanceRulesEditor {
  import opened Wrappers
  import Text
  import opened AssetClearanceRules
  import AssetClearance

  // ---------------------------------------------------------------------
  // SortConditionsByPriority

  /**
   * The serialised fields of a Condition, which is what the inspector's
   * property array holds and moves (the memoised lookup is not serialised).
   */
  datatype ConditionData = ConditionData(priority: int, checkMethod: Method, negation: bool, logicOperator: LogicOperator)

  /** The conditions of s whose priority is p, in their order in s. */
  function WithPriority(s: seq<ConditionData>, p: int): (r: seq<ConditionData>)
    ensures |r| <= |s|
  {
    if s == [] then []
    else WithPriority(s[..|s| - 1], p) + (if s[|s| - 1].priority == p then [s[|s| - 1]] else [])
  }

  /** Priorities never increase along s. */
  predicate NonIncreasing(s: seq<ConditionData>)
  {
    forall i, j :: 0 <= i < j < |s| ==> s[i].priority >= s[j].priority
  }

  /**
   * The last t conditions are in final position: they are in order, and no
   * condition before them has a lower priority than any of them.
   */
  predicate Settled(s: seq<ConditionData>, t: nat)
  {
    t <= |s| &&
    (forall i, j :: |s| - t <= i < j < |s| ==> s[i].priority >= s[j].priority) &&
    (forall i, j :: 0 <= i < |s| - t <= j < |s| ==> s[i].priority >= s[j].priority)
  }

  lemma {:induction false} WithPriorityAppend(a: seq<ConditionData>, b: seq<ConditionData>, p: int)
    ensures WithPriority(a + b, p) == WithPriority(a, p) + WithPriority(b, p)
    decreases |b|
  {
    if b == [] {
      assert a + b == a;
    } else {
      var ab := a + b;
      assert ab[..|ab| - 1] == a + b[..|b| - 1];
      assert ab[|ab| - 1] == b[|b| - 1];
      WithPriorityAppend(a, b[..|b| - 1], p);
    }
  }

  /** Swapping two neighbours of different priority keeps every priority class in order. */
  lemma SwapKeepsClasses(s: seq<ConditionData>, i: nat, p: int)
    requires i + 1 < |s| && s[i].priority != s[i + 1].priority
    ensures WithPriority(s[i := s[i + 1]][i + 1 := s[i]], p) == WithPriority(s, p)
  {
    var t := s[i := s[i + 1]][i + 1 := s[i]];
    assert s == s[..i] + [s[i], s[i + 1]] + s[i + 2..];
    assert t == s[..i] + [s[i + 1], s[i]] + s[i + 2..];
    WithPriorityAppend(s[..i] + [s[i], s[i + 1]], s[i + 2..], p);
    WithPriorityAppend(s[..i], [s[i], s[i + 1]], p);
    WithPriorityAppend(s[..i] + [s[i + 1], s[i]], s[i + 2..], p);
    WithPriorityAppend(s[..i], [s[i + 1], s[i]], p);
    WithPriorityAppend([s[i]], [s[i + 1]], p);
    WithPriorityAppend([s[i + 1]], [s[i]], p);
  }

  /** A condition occurs in its own priority class as often as in the whole list. */
  lemma {:induction false} WithPriorityCount(s: seq<ConditionData>, c: ConditionData)
    ensures multiset(WithPriority(s, c.priority))[c] == multiset(s)[c]
  {
    if s != [] {
      WithPriorityCount(s[..|s| - 1], c);
      assert s == s[..|s| - 1] + [s[|s| - 1]];
    }
  }

  /** Lists with the same priority classes are permutations of each other. */
  lemma SameClassesPermutation(a: seq<ConditionData>, b: seq<ConditionData>)
    requires forall p :: WithPriority(a, p) == WithPriority(b, p)
    ensures multiset(a) == multiset(b)
  {
    forall c: ConditionData
      ensures multiset(a)[c] == multiset(b)[c]
    {
      WithPriorityCount(a, c);
      WithPriorityCount(b, c);
      assert WithPriority(a, c.priority) == WithPriority(b, c.priority);
    }
  }

  /** All but the first condition settled means the whole list is in order. */
  lemma SettledSorted(s: seq<ConditionData>, t: nat)
    requires Settled(s, t) && t + 1 >= |s|
    ensures NonIncreasing(s)
  {
  }

  /** MoveArrayElement(i, i + 1) on neighbours of different priority: swaps them, keeping every priority class. */
  method MoveArrayElement(a: array<ConditionData>, i: nat)
    requires i + 1 < a.Length && a[i].priority != a[i + 1].priority
    modifies a
    ensures a[..] == old(a[..])[i := old(a[i + 1])][i + 1 := old(a[i])]
    ensures forall p :: WithPriority(a[..], p) == WithPriority(old(a[..]), p)
  {
    ghost var before := a[..];
    forall p
      ensures WithPriority(before[i := before[i + 1]][i + 1 := before[i]], p) == WithPriority(before, p)
    {
      SwapKeepsClasses(before, i, p);
    }
    a[i], a[i + 1] := a[i + 1], a[i];
    assert a[..] == before[i := before[i + 1]][i + 1 := before[i]];
  }

  /** Compare-and-swap at i: the pair moves only when strictly out of order. */
  function Step(s: seq<ConditionData>, i: nat): (r: seq<ConditionData>)
    requires i + 1 < |s|
  {
    if s[i].priority < s[i + 1].priority then s[i := s[i + 1]][i + 1 := s[i]] else s
  }

  /**
   * Within a pass at position i: the settled suffix is kept, s[i] is the
   * lowest priority among s[0..i], and once the pass has reached the last
   * unsettled position, that position holds the lowest unsettled priority.
   */
  predicate InPass(s: seq<ConditionData>, i: nat, t: nat)
  {
    i < |s| && Settled(s, t) &&
    (forall j :: 0 <= j < i ==> s[j].priority >= s[i].priority) &&
    (i >= |s| - t - 1 ==> forall j :: 0 <= j < |s| - t - 1 ==> s[j].priority >= s[|s| - t - 1].priority)
  }

  lemma PassStep(s: seq<ConditionData>, i: nat, t: nat)
    requires i + 1 < |s| && InPass(s, i, t)
    ensures InPass(Step(s, i), i + 1, t)
  {
    var n := |s|;
    if s[i].priority < s[i + 1].priority {
      assert i + 1 < n - t;
      var r := Step(s, i);
      forall j, k | 0 <= j < n - t <= k < n
        ensures r[j].priority >= r[k].priority
      {
        assert r[j] == s[j] || r[j] == s[i] || r[j] == s[i + 1];
      }
    }
  }

  /** Neighbours in order means the whole list is in order. */
  lemma {:induction false} AdjacentSorted(s: seq<ConditionData>)
    requires forall j :: 0 <= j < |s| - 1 ==> s[j].priority >= s[j + 1].priority
    ensures NonIncreasing(s)
  {
    if |s| > 1 {
      AdjacentSorted(s[1..]);
      forall i, j | 0 <= i < j < |s|
        ensures s[i].priority >= s[j].priority
      {
        if 0 < i {
          assert s[i] == s[1..][i - 1] && s[j] == s[1..][j - 1];
        } else if 1 < j {
          assert s[1] == s[1..][0] && s[j] == s[1..][j - 1];
        }
      }
    }
  }

  lemma PassEnd(s: seq<ConditionData>, t: nat)
    requires |s| > 0 && InPass(s, |s| - 1, t)
    ensures Settled(s, if t < |s| then t + 1 else t)
  {
  }

  /** The body of a pass at i: moves a[i] one place right when a[i + 1] has a strictly higher priority. */
  method CompareAndMove(a: array<ConditionData>, i: nat) returns (swapped: bool)
    requires i + 1 < a.Length
    modifies a
    ensures swapped <==> old(a[i].priority < a[i + 1].priority)
    ensures a[..] == Step(old(a[..]), i)
    ensures forall p :: WithPriority(a[..], p) == WithPriority(old(a[..]), p)
  {
    swapped := a[i].priority < a[i + 1].priority;
    if swapped {
      MoveArrayElement(a, i);
    }
  }

  /** BubblePass's state before position i, from the list s0 the pass started with. */
  ghost predicate PassState(s: seq<ConditionData>, s0: seq<ConditionData>, i: nat, t: nat, swapTime: nat)
  {
    && InPass(s, i, t)
    && (forall p :: WithPriority(s, p) == WithPriority(s0, p))
    && (swapTime == 0 ==> s == s0 && forall j :: 0 <= j < i ==> s[j].priority >= s[j + 1].priority)
    && (NonIncreasing(s0) ==> swapTime == 0)
  }

  /** One position of BubblePass: compare and move at i, counting a swap. */
  method PassBody(a: array<ConditionData>, i: nat, ghost t: nat, ghost s0: seq<ConditionData>, swapTime: nat)
    returns (swapTime': nat)
    requires i + 1 < a.Length && PassState(a[..], s0, i, t, swapTime)
    modifies a
    ensures PassState(a[..], s0, i + 1, t, swapTime')
  {
    PassStep(a[..], i, t);
    var swapped := CompareAndMove(a, i);
    swapTime' := if swapped then swapTime + 1 else swapTime;
  }

  /**
   * One pass of the bubble sort: moves each condition right past a
   * neighbour of strictly higher priority. It keeps the priority classes,
   * settles one more condition, counts its swaps, and swaps nothing on a
   * list already in order.
   */
  method BubblePass(a: array<ConditionData>, ghost t: nat) returns (swapTime: nat)
    requires Settled(a[..], t)
    modifies a
    ensures forall p :: WithPriority(a[..], p) == WithPriority(old(a[..]), p)
    ensures Settled(a[..], if t < a.Length then t + 1 else t)
    ensures swapTime == 0 ==> NonIncreasing(a[..])
    ensures swapTime != 0 ==> !NonIncreasing(old(a[..]))
  {
    swapTime := 0;
    if a.Length == 0 {
      return;
    }
    for i := 0 to a.Length - 1
      invariant PassState(a[..], old(a[..]), i, t, swapTime)
    {
      swapTime := PassBody(a, i, t, old(a[..]), swapTime);
    }
    PassEnd(a[..], t);
    if swapTime == 0 {
      AdjacentSorted(a[..]);
    }
  }

  /**
   * SortConditionsByPriority: repeats bubble passes until one swaps
   * nothing. The conditions end in non-increasing priority, as a
   * permutation of the input that keeps the order of equal priorities.
   */
  method SortConditionsByPriority(a: array<ConditionData>)
    modifies a
    ensures NonIncreasing(a[..])
    ensures forall p :: WithPriority(a[..], p) == WithPriority(old(a[..]), p)
    ensures multiset(a[..]) == multiset(old(a[..]))
  {
    ghost var t: nat := 0;
    var swapTime := BubblePass(a, t);
    t := if t < a.Length then t + 1 else t;
    while swapTime != 0
      invariant Settled(a[..], t)
      invariant forall p :: WithPriority(a[..], p) == WithPriority(old(a[..]), p)
      invariant swapTime == 0 ==> NonIncreasing(a[..])
      invariant swapTime != 0 ==> t < a.Length
      decreases a.Length - t
    {
      ghost var before := a[..];
      swapTime := BubblePass(a, t);
      if t + 1 >= a.Length {
        SettledSorted(before, t);
      }
      t := t + 1;
    }
    SameClassesPermutation(a[..], old(a[..]));
  }

  // ---------------------------------------------------------------------
  // ValidateMethod: growing the parameter layout

  /**
   * A parameter that the inspector gives a slot: every parameter but the
   * ping-object list. Unlike DoMethod, the inspector does not skip `out`
   * parameters.
   */
  predicate TakesSlot(p: ParamInfo)
  {
    Text.ToLower(p.name) != AssetClearance.PingObjectsName
  }

  /** Number of parameters among 1 .. i-1 that take a slot of kind k. */
  function SlotsBefore(ps: seq<ParamInfo>, i: nat, k: ParamKind): nat
    requires i <= |ps|
  {
    if i <= 1 then 0
    else SlotsBefore(ps, i - 1, k) + (if TakesSlot(ps[i - 1]) && AssetClearance.KeyOf(ps[i - 1].declared).0 == k then 1 else 0)
  }

  /**
   * The first n parameters of a kind fit the layout: each has a count of at
   * least 1, and the values array covers all their values.
   */
  predicate Fits(counts: seq<int>, size: nat, n: nat)
  {
    n <= |counts| && (forall j :: 0 <= j < n ==> counts[j] >= 1) && AssetClearance.SumTo(counts, n) <= size
  }

  /** Mathf.Max(1, c). */
  function AtLeastOne(c: int): (r: int)
    ensures r >= 1 && r >= c && (c >= 1 ==> r == c)
  {
    if c >= 1 then c else 1
  }

  /** A running sum depends only on the counts it adds up. */
  lemma {:induction false} SumToPrefix(a: seq<int>, b: seq<int>, n: nat)
    requires n <= |a| && n <= |b| && a[..n] == b[..n]
    ensures AssetClearance.SumTo(a, n) == AssetClearance.SumTo(b, n)
  {
    if n > 0 {
      assert a[..n - 1] == a[..n][..n - 1] && b[..n - 1] == b[..n][..n - 1];
      assert a[n - 1] == a[..n][n - 1] && b[n - 1] == b[..n][n - 1];
      SumToPrefix(a, b, n - 1);
    }
  }

  /** Running sums grow over non-negative counts. */
  lemma {:induction false} SumToMonotone(counts: seq<int>, i: nat, j: nat)
    requires i <= j <= |counts| && forall x :: i <= x < j ==> counts[x] >= 0
    ensures AssetClearance.SumTo(counts, i) <= AssetClearance.SumTo(counts, j)
    decreases j - i
  {
    if i < j {
      SumToMonotone(counts, i, j - 1);
    }
  }

  lemma {:induction false} SumToNonNegative(counts: seq<int>, n: nat)
    requires n <= |counts| && forall x :: 0 <= x < n ==> counts[x] >= 0
    ensures AssetClearance.SumTo(counts, n) >= 0
  {
    SumToMonotone(counts, 0, n);
  }

  /** Changing one count shifts every later running sum by the change. */
  lemma {:induction false} SumToUpdate(counts: seq<int>, n: nat, v: int, j: nat)
    requires n < |counts| && j <= |counts|
    ensures AssetClearance.SumTo(counts[n := v], j) == AssetClearance.SumTo(counts, j) + (if j > n then v - counts[n] else 0)
  {
    if j > 0 {
      SumToUpdate(counts, n, v, j - 1);
    }
  }

  /**
   * One parameter's step of ValidateMethod for its kind: adds a count when
   * the counts array is too short, raises the count to at least 1, adds it
   * to the running total, and grows the values by that count when they no
   * longer cover the total. New values are the reset value d.
   */
  method GrowSlot<T>(s: Slots<T>, n: nat, total: int, d: T) returns (r: Slots<T>, total': int)
    requires n <= |s.counts| && total <= |s.values|
    ensures |r.counts| == if n < |s.counts| then |s.counts| else n + 1
    ensures r.counts[n] == AtLeastOne(if n < |s.counts| then s.counts[n] else 0)
    ensures forall j :: 0 <= j < |s.counts| && j != n ==> r.counts[j] == s.counts[j]
    ensures total' == total + r.counts[n] && total' <= |r.values|
    ensures |s.values| <= |r.values| && r.values[..|s.values|] == s.values
    ensures forall j :: |s.values| <= j < |r.values| ==> r.values[j] == d
  {
    var counts := s.counts;
    var values := s.values;
    if |counts| <= n {
      counts := counts + [0];
    }
    var count := AtLeastOne(counts[n]);
    counts := counts[n := count];
    total' := total + count;
    if |values| < total' {
      values := values + [d];
      values := values + seq(count - 1, _ => d);
    }
    r := Slots(counts, values);
  }

  /** The counts after the first n parameters of a kind were validated: each raised to at least 1, missing ones added. */
  function Raised(counts: seq<int>, n: nat): (r: seq<int>)
    ensures |r| == if n < |counts| then |counts| else n
    ensures forall j :: 0 <= j < |r| ==> r[j] == if j < n then AtLeastOne(if j < |counts| then counts[j] else 0) else counts[j]
  {
    seq(if n < |counts| then |counts| else n,
        j requires 0 <= j < (if n < |counts| then |counts| else n) =>
          if j < n then AtLeastOne(if j < |counts| then counts[j] else 0) else counts[j])
  }

  /** GrowSlot for the (n+1)-th parameter of a kind, in terms of the layout s the loop started from. */
  method ValidateNext<T>(s: Slots<T>, r: Slots<T>, n: nat, total: int, d: T) returns (r': Slots<T>, total': int)
    requires r.counts == Raised(s.counts, n)
    requires total == AssetClearance.SumTo(r.counts, n) && total <= |r.values|
    requires |s.values| <= |r.values| && r.values[..|s.values|] == s.values
    requires forall j :: |s.values| <= j < |r.values| ==> r.values[j] == d
    ensures r'.counts == Raised(s.counts, n + 1)
    ensures total' == AssetClearance.SumTo(r'.counts, n + 1) && total' <= |r'.values|
    ensures Fits(r'.counts, |r'.values|, n + 1)
    ensures |s.values| <= |r'.values| && r'.values[..|s.values|] == s.values
    ensures forall j :: |s.values| <= j < |r'.values| ==> r'.values[j] == d
  {
    r', total' := GrowSlot(r, n, total, d);
    assert r'.counts[..n] == r.counts[..n];
    SumToPrefix(r'.counts, r.counts, n);
    assert r'.counts == Raised(s.counts, n + 1);
    assert r'.values[..|s.values|] == r'.values[..|r.values|][..|s.values|];
  }

  /**
   * Layout r is s after validating the first n parameters of a kind: the
   * counts are raised, total is their sum, the values cover them, and values
   * were only appended, as d.
   */
  ghost predicate Grown<T>(s: Slots<T>, r: Slots<T>, n: nat, total: int, d: T)
  {
    r.counts == Raised(s.counts, n) && total == AssetClearance.SumTo(r.counts, n) &&
    Fits(r.counts, |r.values|, n) &&
    |s.values| <= |r.values| && r.values[..|s.values|] == s.values &&
    (forall j :: |s.values| <= j < |r.values| ==> r.values[j] == d)
  }

  /** Before any parameter, the layout has grown from itself. */
  lemma GrownStart<T>(s: Slots<T>, d: T)
    ensures Grown(s, s, 0, 0, d)
  {
    assert Raised(s.counts, 0) == s.counts;
  }

  /** The loop body for parameter i: grows the layout when the parameter takes a slot of kind k. */
  method ValidateParameter<T>(s: Slots<T>, ps: seq<ParamInfo>, k: ParamKind, i: nat, r: Slots<T>, n: nat, total: int, d: T)
    returns (r': Slots<T>, n': nat, total': int)
    requires 1 <= i < |ps| && n == SlotsBefore(ps, i, k) && Grown(s, r, n, total, d)
    ensures n' == SlotsBefore(ps, i + 1, k) && Grown(s, r', n', total', d)
  {
    if TakesSlot(ps[i]) && AssetClearance.KeyOf(ps[i].declared).0 == k {
      r', total' := ValidateNext(s, r, n, total, d);
      n' := n + 1;
    } else {
      r', n', total' := r, n, total;
    }
  }

  /**
   * ValidateMethod's loop restricted to one kind: walks the parameters from
   * index 1 and grows the layout for each one that takes a slot of kind k.
   * Afterwards every such parameter has a count of at least 1 and the
   * values cover them all; counts beyond them, and all existing values,
   * are untouched.
   */
  method ValidateSlots<T>(s: Slots<T>, ps: seq<ParamInfo>, k: ParamKind, d: T) returns (r: Slots<T>, n: nat)
    requires |ps| >= 1
    ensures n == SlotsBefore(ps, |ps|, k)
    ensures r.counts == Raised(s.counts, n) && Fits(r.counts, |r.values|, n)
    ensures |s.values| <= |r.values| && r.values[..|s.values|] == s.values
    ensures forall j :: |s.values| <= j < |r.values| ==> r.values[j] == d
  {
    r := s;
    n := 0;
    var total := 0;
    var i := 1;
    GrownStart(s, d);
    while i < |ps|
      invariant 1 <= i <= |ps| && n == SlotsBefore(ps, i, k) && Grown(s, r, n, total, d)
    {
      r, n, total := ValidateParameter(s, ps, k, i, r, n, total, d);
      i := i + 1;
    }
  }

  /**
   * Layout r is s with the first n parameters of a kind validated: their
   * counts raised to at least 1 (missing ones added as 1), the values
   * covering them, and the old values kept as a prefix.
   */
  predicate Extends<T(==)>(s: Slots<T>, r: Slots<T>, n: nat)
  {
    r.counts == Raised(s.counts, n) && Fits(r.counts, |r.values|, n) &&
    |s.values| <= |r.values| && r.values[..|s.values|] == s.values
  }

  /** Validates the layout of kind k and says so in terms of Extends. */
  method ValidateKind<T(==)>(s: Slots<T>, ps: seq<ParamInfo>, k: ParamKind, d: T) returns (r: Slots<T>)
    ensures Extends(s, r, SlotsBefore(ps, |ps|, k))
  {
    if |ps| == 0 {
      assert Raised(s.counts, 0) == s.counts;
      return s;
    }
    var n;
    r, n := ValidateSlots(s, ps, k, d);
  }

  /**
   * ValidateMethod: nothing for an empty method name; otherwise looks the
   * method up by name and, when found, grows the layout of every kind for
   * its parameters (the counts of a kind are one array shared by the
   * scalar and the array parameters of that kind). New counts and values
   * hold the reset values 0, 0.0, false, "" and null.
   */
  method ValidateMethod(methods: seq<MethodInfo>, m: Method) returns (info: Option<MethodInfo>, m': Method)
    ensures info == (if m.name.None? || m.name.value == "" then Option.None else FindByName(methods, m.name))
    ensures info.None? ==> m' == m
    ensures info.Some? ==>
      var ps := info.value.parameters;
      && m'.name == m.name
      && Extends(m.intSlots, m'.intSlots, SlotsBefore(ps, |ps|, IntKind))
      && Extends(m.floatSlots, m'.floatSlots, SlotsBefore(ps, |ps|, FloatKind))
      && Extends(m.boolSlots, m'.boolSlots, SlotsBefore(ps, |ps|, BoolKind))
      && Extends(m.stringSlots, m'.stringSlots, SlotsBefore(ps, |ps|, StringKind))
      && Extends(m.objectSlots, m'.objectSlots, SlotsBefore(ps, |ps|, ObjectKind))
  {
    m' := m;
    if m.name.None? || m.name.value == "" {
      return Option.None, m;
    }
    info := FindByName(methods, m.name);
    if info.None? {
      return;
    }
    var ps := info.value.parameters;
    var ints := ValidateKind(m.intSlots, ps, IntKind, 0);
    var floats := ValidateKind(m.floatSlots, ps, FloatKind, 0.0);
    var bools := ValidateKind(m.boolSlots, ps, BoolKind, false);
    var strings := ValidateKind(m.stringSlots, ps, StringKind, "");
    var objects := ValidateKind(m.objectSlots, ps, ObjectKind, Option.None);
    m' := m.(intSlots := ints, floatSlots := floats, boolSlots := bools, stringSlots := strings, objectSlots := objects);
  }

  /** Without `out` parameters, the inspector and DoMethod count the same parameters of each kind. */
  lemma {:induction false} SlotsBeforeIsEarlier(ps: seq<ParamInfo>, i: nat, k: ParamKind)
    requires i <= |ps| && forall j :: 1 <= j < |ps| ==> !ps[j].isOut
    ensures SlotsBefore(ps, i, k) == AssetClearance.Earlier(ps, i, k)
  {
    if i > 1 {
      SlotsBeforeIsEarlier(ps, i - 1, k);
    }
  }

  /** A parameter that takes a slot comes before the end of its kind's slots. */
  lemma {:induction false} SlotsBeforeBelowTotal(ps: seq<ParamInfo>, i: nat, j: nat, k: ParamKind)
    requires 1 <= i < j <= |ps| && TakesSlot(ps[i]) && AssetClearance.KeyOf(ps[i].declared).0 == k
    ensures SlotsBefore(ps, i, k) < SlotsBefore(ps, j, k)
  {
    if j > i + 1 {
      SlotsBeforeBelowTotal(ps, i, j - 1, k);
    }
  }

  /**
   * A layout that fits every parameter decodes: after ValidateMethod, every
   * parameter of a method without `out` parameters is read by DoMethod
   * inside the counts and values arrays.
   */
  lemma ValidatedDecodes(m: Method, ps: seq<ParamInfo>, pings: seq<Option<nat>>)
    requires forall k: ParamKind :: Fits(AssetClearance.SlotsOf(m, k).0, |AssetClearance.SlotsOf(m, k).1|, SlotsBefore(ps, |ps|, k))
    requires forall j :: 1 <= j < |ps| ==> !ps[j].isOut
    ensures forall i :: 1 <= i < |ps| ==> AssetClearance.ExpectedArg(m, ps, Some(pings), i).Some?
  {
    forall i | 1 <= i < |ps|
      ensures AssetClearance.ExpectedArg(m, ps, Some(pings), i).Some?
    {
      ValidatedArgDecodes(m, ps, pings, i);
    }
  }

  /** One parameter of ValidatedDecodes. */
  lemma ValidatedArgDecodes(m: Method, ps: seq<ParamInfo>, pings: seq<Option<nat>>, i: nat)
    requires 1 <= i < |ps|
    requires forall k: ParamKind :: Fits(AssetClearance.SlotsOf(m, k).0, |AssetClearance.SlotsOf(m, k).1|, SlotsBefore(ps, |ps|, k))
    requires forall j :: 1 <= j < |ps| ==> !ps[j].isOut
    ensures AssetClearance.ExpectedArg(m, ps, Some(pings), i).Some?
  {
    if AssetClearance.Consumes(ps[i]) {
      var k := AssetClearance.KeyOf(ps[i].declared).0;
      var slots := AssetClearance.SlotsOf(m, k);
      SlotsBeforeIsEarlier(ps, i, k);
      SlotsBeforeBelowTotal(ps, i, |ps|, k);
      SlotReadable(slots.0, |slots.1|, AssetClearance.Earlier(ps, i, k), SlotsBefore(ps, |ps|, k));
    }
  }

  /** Slot n below a fitting total has a count of at least 1 and its values inside the array. */
  lemma SlotReadable(counts: seq<int>, size: nat, n: nat, total: nat)
    requires Fits(counts, size, total) && n < total
    ensures n < |counts| && counts[n] >= 1
    ensures 0 <= AssetClearance.SumTo(counts, n) && AssetClearance.SumTo(counts, n) + counts[n] <= size
  {
    SumToNonNegative(counts, n);
    SumToMonotone(counts, n + 1, total);
  }

  // ---------------------------------------------------------------------
  // Array parameters: the "+" and "-" buttons

  /** The values of the j-th parameter of a kind: counts[j] values after those of the earlier parameters. */
  function Block<T>(s: Slots<T>, j: nat): (b: seq<T>)
    requires Fits(s.counts, |s.values|, j + 1)
    ensures |b| == s.counts[j]
  {
    SumToNonNegative(s.counts, j);
    s.values[AssetClearance.SumTo(s.counts, j)..AssetClearance.SumTo(s.counts, j + 1)]
  }

  /** The layout after "+" on array parameter n: one more count, and d at the end of its block. */
  function Added<T>(s: Slots<T>, n: nat, d: T): Slots<T>
    requires Fits(s.counts, |s.values|, n + 1)
  {
    var p := AssetClearance.SumTo(s.counts, n + 1);
    SumToNonNegative(s.counts, n + 1);
    Slots(s.counts[n := s.counts[n] + 1], s.values[..p] + [d] + s.values[p..])
  }

  /** The loop of the "+" button that adds up the counts of the earlier parameters. */
  method SumCounts(counts: seq<int>, n: nat) returns (sum: int)
    requires n <= |counts|
    ensures sum == AssetClearance.SumTo(counts, n)
  {
    sum := 0;
    for k := 0 to n
      invariant sum == AssetClearance.SumTo(counts, k)
    {
      sum := sum + counts[k];
    }
  }

  /**
   * "+" on array parameter n: raises its count, grows the values by one,
   * moves every value after the block one place up, and puts the reset
   * value d in the freed place at the end of the block.
   */
  method AddArrayValue<T>(s: Slots<T>, n: nat, d: T) returns (r: Slots<T>)
    requires Fits(s.counts, |s.values|, n + 1)
    ensures r == Added(s, n, d)
  {
    ghost var v := s.values;
    ghost var p := AssetClearance.SumTo(s.counts, n + 1);
    SumToNonNegative(s.counts, n);
    var counts := s.counts[n := s.counts[n] + 1];
    var x := if |s.values| == 0 then d else s.values[|s.values| - 1];
    var values := s.values + [x];
    var start := SumCounts(counts, n);
    SumToUpdate(s.counts, n, s.counts[n] + 1, n);
    assert start + counts[n] - 1 == p;
    var k := |values| - 2;
    assert values == v[..k + 1] + [x] + v[k + 1..];
    while k >= start + counts[n] - 1
      invariant p - 1 <= k <= |v| - 1
      invariant values == v[..k + 1] + [x] + v[k + 1..]
      decreases k
    {
      MoveUp(v, x, k);
      values := values[k := values[k + 1]][k + 1 := values[k]];
      k := k - 1;
    }
    values := values[start + counts[n] - 1 := d];
    assert values == v[..p] + [d] + v[p..];
    r := Slots(counts, values);
  }

  /** One MoveArrayElement(k, k + 1) of the "+" button moves the new element down one place. */
  lemma MoveUp<T>(v: seq<T>, x: T, k: int)
    requires 0 <= k < |v|
    ensures var w := v[..k + 1] + [x] + v[k + 1..];
      w[k := w[k + 1]][k + 1 := w[k]] == v[..k] + [x] + v[k..]
  {
  }

  /** After "+", the layout still fits, and only block n changes: it gains d at its end. */
  lemma AddedBlocks<T>(s: Slots<T>, n: nat, d: T, j: nat)
    requires Fits(s.counts, |s.values|, n + 1) && Fits(s.counts, |s.values|, j + 1)
    ensures Fits(Added(s, n, d).counts, |Added(s, n, d).values|, j + 1)
    ensures Block(Added(s, n, d), j) == if j == n then Block(s, n) + [d] else Block(s, j)
  {
    if j < n {
      AddedBlockBefore(s, n, d, j);
    } else if j == n {
      AddedBlockAt(s, n, d);
    } else {
      AddedBlockAfter(s, n, d, j);
    }
  }

  lemma AddedBlockBefore<T>(s: Slots<T>, n: nat, d: T, j: nat)
    requires Fits(s.counts, |s.values|, n + 1) && Fits(s.counts, |s.values|, j + 1) && j < n
    ensures Fits(Added(s, n, d).counts, |Added(s, n, d).values|, j + 1)
    ensures Block(Added(s, n, d), j) == Block(s, j)
  {
    SumToUpdate(s.counts, n, s.counts[n] + 1, j);
    SumToUpdate(s.counts, n, s.counts[n] + 1, j + 1);
    SumToNonNegative(s.counts, j);
    SumToMonotone(s.counts, j + 1, n + 1);
  }

  lemma AddedBlockAt<T>(s: Slots<T>, n: nat, d: T)
    requires Fits(s.counts, |s.values|, n + 1)
    ensures Fits(Added(s, n, d).counts, |Added(s, n, d).values|, n + 1)
    ensures Block(Added(s, n, d), n) == Block(s, n) + [d]
  {
    SumToUpdate(s.counts, n, s.counts[n] + 1, n);
    SumToUpdate(s.counts, n, s.counts[n] + 1, n + 1);
    SumToNonNegative(s.counts, n);
  }

  lemma AddedBlockAfter<T>(s: Slots<T>, n: nat, d: T, j: nat)
    requires Fits(s.counts, |s.values|, n + 1) && Fits(s.counts, |s.values|, j + 1) && n < j
    ensures Fits(Added(s, n, d).counts, |Added(s, n, d).values|, j + 1)
    ensures Block(Added(s, n, d), j) == Block(s, j)
  {
    SumToUpdate(s.counts, n, s.counts[n] + 1, j);
    SumToUpdate(s.counts, n, s.counts[n] + 1, j + 1);
    SumToMonotone(s.counts, n + 1, j);
    SumToNonNegative(s.counts, n + 1);
    InsertedSlice(s.values, AssetClearance.SumTo(s.counts, n + 1), d, AssetClearance.SumTo(s.counts, j), AssetClearance.SumTo(s.counts, j + 1));
  }

  lemma InsertedSlice<T>(v: seq<T>, p: nat, d: T, a: nat, b: nat)
    requires p <= a <= b <= |v|
    ensures (v[..p] + [d] + v[p..])[a + 1..b + 1] == v[a..b]
  {
    var w := v[..p] + [d] + v[p..];
    assert forall i :: a <= i < b ==> w[i + 1] == v[i];
  }

  lemma PrefixSlice<T>(u: seq<T>, w: seq<T>, a: nat, b: nat)
    requires a <= b <= |u|
    ensures (u + w)[a..b] == u[a..b]
  {
    assert forall i :: a <= i < b ==> (u + w)[i] == u[i];
  }

  lemma DeletedInBlock<T>(v: seq<T>, a: nat, k: nat, b: nat)
    requires a + k < b <= |v|
    ensures (v[..a + k] + v[a + k + 1..])[a..b - 1] == v[a..b][..k] + v[a..b][k + 1..]
  {
    var w := v[..a + k] + v[a + k + 1..];
    var u := v[a..b][..k] + v[a..b][k + 1..];
    assert |w[a..b - 1]| == |u|;
    forall i | 0 <= i < |u|
      ensures w[a..b - 1][i] == u[i]
    {
      if i < k {
        assert w[a + i] == v[a + i];
      } else {
        assert w[a + i] == v[a + i + 1];
      }
    }
  }

  lemma DeletedSlice<T>(v: seq<T>, q: nat, a: nat, b: nat)
    requires q < a <= b <= |v|
    ensures (v[..q] + v[q + 1..])[a - 1..b - 1] == v[a..b]
  {
    var w := v[..q] + v[q + 1..];
    assert forall i :: a <= i < b ==> w[i - 1] == v[i];
  }

  /** "+" keeps every parameter's count at least 1 and the values covering them. */
  lemma AddedFits<T>(s: Slots<T>, n: nat, d: T, total: nat)
    requires n < total && Fits(s.counts, |s.values|, n + 1) && Fits(s.counts, |s.values|, total)
    ensures Fits(Added(s, n, d).counts, |Added(s, n, d).values|, total)
  {
    SumToNonNegative(s.counts, n + 1);
    var r := Added(s, n, d);
    assert |r.values| == |s.values| + 1;
    SumToUpdate(s.counts, n, s.counts[n] + 1, total);
  }

  /**
   * "-" on value k of array parameter n: when the parameter has more than
   * one value, lowers its count and deletes that value; the last value of
   * a parameter cannot be removed.
   */
  function Removed<T>(s: Slots<T>, n: nat, k: nat): Slots<T>
    requires Fits(s.counts, |s.values|, n + 1) && k < s.counts[n]
  {
    if s.counts[n] > 1 then
      var q := AssetClearance.SumTo(s.counts, n) + k;
      SumToNonNegative(s.counts, n);
      Slots(s.counts[n := s.counts[n] - 1], s.values[..q] + s.values[q + 1..])
    else s
  }

  /** After "-", the layout still fits, and only block n changes: it loses value k, unless it is its last. */
  lemma RemovedBlocks<T>(s: Slots<T>, n: nat, k: nat, j: nat)
    requires Fits(s.counts, |s.values|, n + 1) && k < s.counts[n] && Fits(s.counts, |s.values|, j + 1)
    ensures Fits(Removed(s, n, k).counts, |Removed(s, n, k).values|, j + 1)
    ensures Block(Removed(s, n, k), j) ==
      if j == n && s.counts[n] > 1 then Block(s, n)[..k] + Block(s, n)[k + 1..] else Block(s, j)
  {
    if s.counts[n] > 1 {
      if j < n {
        RemovedBlockBefore(s, n, k, j);
      } else if j == n {
        RemovedBlockAt(s, n, k);
      } else {
        RemovedBlockAfter(s, n, k, j);
      }
    }
  }

  lemma RemovedBlockBefore<T>(s: Slots<T>, n: nat, k: nat, j: nat)
    requires Fits(s.counts, |s.values|, n + 1) && Fits(s.counts, |s.values|, j + 1) && 1 < s.counts[n] && k < s.counts[n] && j < n
    ensures Fits(Removed(s, n, k).counts, |Removed(s, n, k).values|, j + 1)
    ensures Block(Removed(s, n, k), j) == Block(s, j)
  {
    var q := AssetClearance.SumTo(s.counts, n) + k;
    SumToUpdate(s.counts, n, s.counts[n] - 1, j);
    SumToUpdate(s.counts, n, s.counts[n] - 1, j + 1);
    SumToNonNegative(s.counts, j);
    SumToNonNegative(s.counts, n);
    SumToMonotone(s.counts, j + 1, n);
    PrefixSlice(s.values[..q], s.values[q + 1..], AssetClearance.SumTo(s.counts, j), AssetClearance.SumTo(s.counts, j + 1));
  }

  lemma RemovedBlockAt<T>(s: Slots<T>, n: nat, k: nat)
    requires Fits(s.counts, |s.values|, n + 1) && 1 < s.counts[n] && k < s.counts[n]
    ensures Fits(Removed(s, n, k).counts, |Removed(s, n, k).values|, n + 1)
    ensures Block(Removed(s, n, k), n) == Block(s, n)[..k] + Block(s, n)[k + 1..]
  {
    SumToUpdate(s.counts, n, s.counts[n] - 1, n);
    SumToUpdate(s.counts, n, s.counts[n] - 1, n + 1);
    SumToNonNegative(s.counts, n);
    DeletedInBlock(s.values, AssetClearance.SumTo(s.counts, n), k, AssetClearance.SumTo(s.counts, n + 1));
  }

  lemma RemovedBlockAfter<T>(s: Slots<T>, n: nat, k: nat, j: nat)
    requires Fits(s.counts, |s.values|, n + 1) && Fits(s.counts, |s.values|, j + 1) && 1 < s.counts[n] && k < s.counts[n] && n < j
    ensures Fits(Removed(s, n, k).counts, |Removed(s, n, k).values|, j + 1)
    ensures Block(Removed(s, n, k), j) == Block(s, j)
  {
    SumToUpdate(s.counts, n, s.counts[n] - 1, j);
    SumToUpdate(s.counts, n, s.counts[n] - 1, j + 1);
    SumToNonNegative(s.counts, n);
    SumToMonotone(s.counts, n + 1, j);
    DeletedSlice(s.values, AssetClearance.SumTo(s.counts, n) + k, AssetClearance.SumTo(s.counts, j), AssetClearance.SumTo(s.counts, j + 1));
  }

  /** "-" keeps every parameter's count at least 1 and the values covering them. */
  lemma RemovedFits<T>(s: Slots<T>, n: nat, k: nat, total: nat)
    requires n < total && Fits(s.counts, |s.values|, n + 1) && Fits(s.counts, |s.values|, total) && k < s.counts[n]
    ensures Fits(Removed(s, n, k).counts, |Removed(s, n, k).values|, total)
  {
    if s.counts[n] > 1 {
      SumToUpdate(s.counts, n, s.counts[n] - 1, total);
      SumToNonNegative(s.counts, n);
      var r := Removed(s, n, k);
      assert |r.values| == |s.values| - 1;
    }
  }

  // ---------------------------------------------------------------------
  // The default include and exclude path lists

  /** The button pressed while drawing a path list, if any: "-" beside entry i, or "+" below the list. */
  datatype ArrayClick = NoClick | RemoveAt(i: nat) | Append

  /** Unity's arraySize = Mathf.Max(1, arraySize): an empty list gains one empty entry. */
  function AtLeastOneEntry(a: seq<string>): (r: seq<string>)
    ensures |r| >= 1 && (a != [] ==> r == a) && (a == [] ==> r == [""])
  {
    if a == [] then [""] else a
  }

  /**
   * DrawArray: the list is first given at least one entry; with the list
   * unfolded, "-" deletes entry i and "+" appends a reset (empty) entry.
   * Deleting the only entry empties the list until the next draw.
   */
  function DrawArray(a: seq<string>, foldout: bool, click: ArrayClick): (r: seq<string>)
    ensures var c := AtLeastOneEntry(a);
      && (!foldout || click.NoClick? || (click.RemoveAt? && click.i >= |c|) ==> r == c)
      && (foldout && click.RemoveAt? && click.i < |c| ==>
            |r| == |c| - 1 && (forall j :: 0 <= j < click.i ==> r[j] == c[j]) &&
            (forall j :: click.i <= j < |r| ==> r[j] == c[j + 1]))
      && (foldout && click.Append? ==> |r| == |c| + 1 && r[..|c|] == c && r[|c|] == "")
  {
    var c := AtLeastOneEntry(a);
    if !foldout then c
    else match click
      case NoClick => c
      case RemoveAt(i) => if i < |c| then c[..i] + c[i + 1..] else c
      case Append => c + [""]
  }

  /** Every draw shows at least one entry: what a click leaves is given an entry back on the next draw. */
  lemma DrawnListNotEmpty(a: seq<string>, foldout: bool, click: ArrayClick, next: bool)
    ensures |DrawArray(DrawArray(a, foldout, click), next, NoClick)| >= 1
    ensures |DrawArray(a, foldout, click)| >= 1 || (foldout && click.RemoveAt? && |AtLeastOneEntry(a)| == 1)
  {
  }

  /** "-" on the entry "+" added undoes it. */
  lemma AppendThenRemove(a: seq<string>)
    ensures DrawArray(DrawArray(a, true, Append), true, RemoveAt(|AtLeastOneEntry(a)|)) == AtLeastOneEntry(a)
  {
    var c := AtLeastOneEntry(a);
    assert (c + [""])[..|c|] == c;
  }
}
