// PrefabProxy: lightweight stand-ins for prefab instances. A PrefabProxyBase
// files every instance it creates under the Transform the instance hangs
// from (`instancedDict`), or in `rootInstanced` when it has none; the
// PrefabProxyManager singleton keeps the set of proxies that have live
// instances and the set of stashed (not yet shown) instances.
//
// PrefabProxyBase.cs and PrefabProxyManager.cs call into each other, so both
// are modelled in this one module.
module PrefabProxy {
  import opened Wrappers
  import opened Lists

  /** A scene Transform, by identity. */
  type Transform = nat

  // ---------------------------------------------------------------------
  // The scene hierarchy

  /**
   * `parent` maps a Transform to its parent; a root has no entry. `depth`
   * witnesses that the hierarchy has no cycles.
   */
  datatype Hierarchy = Hierarchy(parent: map<Transform, Transform>, depth: map<Transform, nat>)
  {
    predicate Valid()
    {
      forall t :: t in parent ==> t in depth && parent[t] in depth && depth[parent[t]] < depth[t]
    }
  }

  /** The `n`-th ancestor of `t` (`t` itself for 0), if there is one. */
  function Up(h: Hierarchy, t: Transform, n: nat): Option<Transform>
    decreases n
  {
    if n == 0 then Some(t)
    else if t in h.parent then Up(h, h.parent[t], n - 1)
    else None
  }

  lemma {:induction false} UpNext(h: Hierarchy, t: Transform, n: nat)
    ensures Up(h, t, n + 1) == match Up(h, t, n)
      case None => None
      case Some(c) => if c in h.parent then Some(h.parent[c]) else None
    decreases n
  {
    if n > 0 && t in h.parent {
      UpNext(h, h.parent[t], n - 1);
    }
  }

  /** Past the root there are no more ancestors. */
  lemma {:induction false} UpPastRoot(h: Hierarchy, t: Transform, n: nat, c: Transform, m: nat)
    requires Up(h, t, n) == Some(c) && c !in h.parent && m > n
    ensures Up(h, t, m).None?
    decreases m
  {
    UpNext(h, t, m - 1);
    if m - 1 > n {
      UpPastRoot(h, t, n, c, m - 1);
    }
  }

  /** `test` is `t` or one of its ancestors. */
  ghost predicate Descends(h: Hierarchy, t: Transform, test: Transform)
  {
    exists n :: Up(h, t, n) == Some(test)
  }

  /** InstanceProxy.IsChildOrSelf: false for a null `trans`, else whether `test` is `trans` or an ancestor. */
  method IsChildOrSelf(h: Hierarchy, trans: Option<Transform>, test: Option<Transform>) returns (r: bool)
    requires h.Valid()
    ensures r <==> trans.Some? && test.Some? && Descends(h, trans.value, test.value)
  {
    if trans.None? {
      return false;
    } else if trans == test {
      assert Up(h, trans.value, 0) == test;
      return true;
    }
    var t := trans.value;
    var current := t;
    ghost var steps: nat := 0;
    while current in h.parent
      invariant current in h.depth || current !in h.parent
      invariant Up(h, t, steps) == Some(current)
      invariant forall n :: 0 <= n <= steps ==> Up(h, t, n) != test
      decreases if current in h.depth then h.depth[current] + 1 else 0
    {
      UpNext(h, t, steps);
      if Some(h.parent[current]) == test {
        return true;
      }
      current := h.parent[current];
      steps := steps + 1;
    }
    forall n | n > steps
      ensures test.Some? ==> Up(h, t, n) != test
    {
      UpPastRoot(h, t, steps, current, n);
    }
    return false;
  }

  // ---------------------------------------------------------------------
  // The instance containers as values

  /** `instancedDict` and `rootInstanced` together. */
  datatype Buckets<I> = Buckets(dict: map<Transform, seq<I>>, root: seq<I>)

  function Bucket<I>(dict: map<Transform, seq<I>>, p: Transform): seq<I>
  {
    if p in dict then dict[p] else []
  }

  /** Every instance in the containers. */
  ghost function Members<I>(b: Buckets<I>): set<I>
  {
    (set p, i | p in b.dict && i in b.dict[p] :: i) + (set i | i in b.root)
  }

  /** No container repeats an instance. */
  predicate Distinct<I(==)>(b: Buckets<I>)
  {
    && (forall p :: p in b.dict ==> Unique(b.dict[p]))
    && Unique(b.root)
  }

  /** No list in the dictionary is empty. */
  predicate Pruned<I>(b: Buckets<I>)
  {
    forall p :: p in b.dict ==> b.dict[p] != []
  }

  /** Filing `x` under `parent` (Instantiate, and the second half of SetInstanceParent). */
  function Added<I>(b: Buckets<I>, x: I, parent: Option<Transform>): Buckets<I>
  {
    match parent
    case Some(p) => b.(dict := b.dict[p := Bucket(b.dict, p) + [x]])
    case None => b.(root := b.root + [x])
  }

  /**
   * Taking `x` out of the list for `parent`, or out of the root list when
   * `parent` is null or not a key. Destroy deletes a list it empties
   * (`prune`); SetInstanceParent does not.
   */
  function Taken<I(==)>(b: Buckets<I>, x: I, parent: Option<Transform>, prune: bool): Buckets<I>
  {
    if parent.Some? && parent.value in b.dict then
      var rest := RemoveFirst(b.dict[parent.value], x);
      if prune && rest == [] then b.(dict := b.dict - {parent.value})
      else b.(dict := b.dict[parent.value := rest])
    else b.(root := RemoveFirst(b.root, x))
  }

  /** Both containers are empty (`instancedDict.Count == 0 && rootInstanced.Count == 0`). */
  predicate Empty<I>(b: Buckets<I>)
  {
    b.dict == map[] && b.root == []
  }

  /** When no list is left empty, the containers are empty exactly when no instance is left. */
  lemma PrunedEmpty<I>(b: Buckets<I>)
    requires Pruned(b)
    ensures Empty(b) <==> Members(b) == {}
  {
    if !Empty(b) {
      if b.root != [] {
        assert b.root[0] in Members(b);
      } else {
        var p :| p in b.dict;
        var i := b.dict[p][0];
        assert i in b.dict[p];
        assert i in Members(b);
      }
    }
  }

  /** Filing keeps the containers pruned and adds exactly `x`. */
  lemma AddedKeeps<I>(b: Buckets<I>, x: I, parent: Option<Transform>)
    ensures Pruned(b) ==> Pruned(Added(b, x, parent))
    ensures Members(Added(b, x, parent)) == Members(b) + {x}
  {
    var a := Added(b, x, parent);
    if parent.Some? {
      var p := parent.value;
      forall i | i in Members(a)
        ensures i in Members(b) + {x}
      {
        if q :| q in a.dict && i in a.dict[q] {
          if q == p && i != x {
            assert i in Bucket(b.dict, p);
          }
        }
      }
      forall i | i in Members(b) + {x}
        ensures i in Members(a)
      {
        if i == x {
          assert x in a.dict[p];
        } else if q :| q in b.dict && i in b.dict[q] {
          assert i in a.dict[q];
        }
      }
    }
  }

  /**
   * Taking out an instance that is filed only under `parent` removes exactly
   * that instance; with `prune` it keeps the containers pruned.
   */
  lemma TakenKeeps<I>(b: Buckets<I>, x: I, parent: Option<Transform>, prune: bool)
    requires Distinct(b)
    requires forall q :: q in b.dict && x in b.dict[q] ==> parent == Some(q)
    requires x in b.root ==> parent.None? || parent.value !in b.dict
    ensures Distinct(Taken(b, x, parent, prune))
    ensures prune && Pruned(b) ==> Pruned(Taken(b, x, parent, prune))
    ensures Members(Taken(b, x, parent, prune)) == Members(b) - {x}
  {
    var t := Taken(b, x, parent, prune);
    if parent.Some? && parent.value in b.dict {
      RemoveUnique(b.dict[parent.value], x);
    } else {
      RemoveUnique(b.root, x);
    }
    forall i | i in Members(t)
      ensures i in Members(b) - {x}
    {
      if q :| q in t.dict && i in t.dict[q] {
        assert i in b.dict[q];
      }
    }
    forall i | i in Members(b) - {x}
      ensures i in Members(t)
    {
      if q :| q in b.dict && i in b.dict[q] {
        assert i in t.dict[q];
      }
    }
  }

  /** Instantiate then Destroy puts both containers back as they were. */
  lemma DestroyUndoesInstantiate<I>(b: Buckets<I>, x: I, parent: Option<Transform>)
    requires Pruned(b)
    requires forall q :: q in b.dict ==> x !in b.dict[q]
    requires x !in b.root
    ensures Taken(Added(b, x, parent), x, parent, true) == b
  {
    match parent
    case Some(p) =>
      UndoFiling(b, x, p);
    case None =>
      RemoveLast(b.root, x);
  }

  lemma UndoFiling<I>(b: Buckets<I>, x: I, p: Transform)
    requires x !in Bucket(b.dict, p)
    requires p in b.dict ==> b.dict[p] != []
    ensures Taken(Added(b, x, Some(p)), x, Some(p), true) == b
  {
    var before := Bucket(b.dict, p);
    var a := Added(b, x, Some(p));
    assert a.dict[p] == before + [x];
    RemoveLast(before, x);
    var t := Taken(a, x, Some(p), true);
    assert t.root == b.root;
    if p in b.dict {
      assert t.dict == b.dict by {
        assert t.dict == a.dict[p := before];
      }
    } else {
      assert t.dict == b.dict by {
        assert t.dict == a.dict - {p};
      }
    }
  }

  /**
   * SetInstanceParent as written: moving the only instance filed under A
   * to B and then destroying it leaves an empty list under A, so the
   * containers never become empty again.
   */
  lemma MovedLeavesEmptyList<I>(x: I, a: Transform, b: Transform)
    requires a != b
    ensures var start := Buckets(map[a := [x]], []);
      var moved := Added(Taken(start, x, Some(a), false), x, Some(b));
      var destroyed := Taken(moved, x, Some(b), true);
      Members(destroyed) == {} && !Empty(destroyed)
  {
    var start := Buckets(map[a := [x]], []);
    assert RemoveFirst([x], x) == [];
    var taken := Taken(start, x, Some(a), false);
    assert taken.dict == map[a := []];
    assert Bucket(taken.dict, b) + [x] == [x];
    var moved := Added(taken, x, Some(b));
    assert moved.dict == map[a := [], b := [x]];
    var destroyed := Taken(moved, x, Some(b), true);
    assert destroyed.dict == map[a := []];
    assert a in destroyed.dict;
    forall i | i in Members(destroyed)
      ensures false
    {
    }
  }

  /** The corrected move: taking out with pruning keeps the containers pruned. */
  lemma MovedPrunedKeeps<I>(b: Buckets<I>, x: I, from: Option<Transform>, to: Option<Transform>)
    requires Distinct(b) && Pruned(b)
    requires forall q :: q in b.dict && x in b.dict[q] ==> from == Some(q)
    requires x in b.root ==> from.None? || from.value !in b.dict
    ensures Pruned(Added(Taken(b, x, from, true), x, to))
    ensures Members(Added(Taken(b, x, from, true), x, to)) == Members(b) + {x}
  {
    TakenKeeps(b, x, from, true);
    AddedKeeps(Taken(b, x, from, true), x, to);
  }

  // ---------------------------------------------------------------------
  // The objects

  /** InstanceProxy: the position, rotation and scale fields are not modelled. */
  class Instance {
    var parent: Option<Transform>
    var activeSelf: bool

    constructor (parent: Option<Transform>)
      ensures this.parent == parent && activeSelf
    {
      this.parent := parent;
      activeSelf := true;
    }

    /** No-op when the value is unchanged or the instance is stashed. */
    method SetActive(manager: Manager, active: bool)
      modifies this`activeSelf
      ensures activeSelf == if old(activeSelf) == active || this in manager.stashed then old(activeSelf) else active
    {
      if activeSelf == active {
        return;
      }
      if manager.IsStashed(this) {
        return;
      }
      activeSelf := active;
    }
  }

  class Manager {
    var proxies: set<ProxyBase>
    /** When set, new instances are created inactive and stashed. */
    var stachNewInstance: bool
    var stashed: set<Instance>

    constructor ()
      ensures proxies == {} && stashed == {} && !stachNewInstance
    {
      proxies := {};
      stashed := {};
      stachNewInstance := false;
    }

    method AddProxy(proxy: ProxyBase)
      modifies this`proxies
      ensures proxies == old(proxies) + {proxy}
    {
      proxies := proxies + {proxy};
    }

    method RemoveProxy(proxy: ProxyBase)
      modifies this`proxies
      ensures proxies == old(proxies) - {proxy}
    {
      proxies := proxies - {proxy};
    }

    method Stash(instance: Instance)
      modifies this`stashed
      ensures stashed == old(stashed) + {instance}
    {
      stashed := stashed + {instance};
    }

    predicate IsStashed(instance: Instance)
      reads this
    {
      instance in stashed
    }

    /**
     * As written: with `active`, each stashed instance is asked to become
     * active while it is still stashed, which SetActive refuses, so no
     * instance changes; the stash is then emptied.
     */
    method DropStashed(active: bool)
      modifies this`stashed, stashed`activeSelf
      ensures stashed == {}
      ensures forall i :: i in old(stashed) ==> i.activeSelf == old(i.activeSelf)
    {
      if active {
        var todo := stashed;
        while todo != {}
          invariant todo <= stashed == old(stashed)
          invariant forall i :: i in old(stashed) ==> i.activeSelf == old(i.activeSelf)
          decreases todo
        {
          var instance :| instance in todo;
          instance.SetActive(this, true);
          todo := todo - {instance};
        }
      }
      stashed := {};
    }

    /** Corrected: empty the stash first, so that `active` does activate every formerly stashed instance. */
    method DropStashedActivating(active: bool)
      modifies this`stashed, stashed`activeSelf
      ensures stashed == {}
      ensures forall i :: i in old(stashed) ==> i.activeSelf == (active || old(i.activeSelf))
    {
      var dropped := stashed;
      stashed := {};
      if active {
        var todo := dropped;
        while todo != {}
          invariant todo <= dropped == old(stashed)
          invariant stashed == {}
          invariant forall i :: i in dropped && i !in todo ==> i.activeSelf
          invariant forall i :: i in todo ==> i.activeSelf == old(i.activeSelf)
          decreases todo
        {
          var instance :| instance in todo;
          instance.SetActive(this, true);
          todo := todo - {instance};
        }
      }
    }

    /** Asks every registered proxy for its active instances; returns those instances. */
    method Update() returns (updated: set<Instance>)
      ensures forall i :: i in updated <==> exists p :: p in proxies && i in p.Instances() && i.activeSelf
    {
      updated := {};
      var todo := proxies;
      while todo != {}
        invariant todo <= proxies
        invariant forall i :: i in updated <==> exists p :: p in proxies && p !in todo && i in p.Instances() && i.activeSelf
        decreases todo
      {
        var proxy :| proxy in todo;
        var some := proxy.UpdateInstancesComponent();
        updated := updated + some;
        todo := todo - {proxy};
      }
    }
  }

  class ProxyBase {
    const manager: Manager
    var instancedDict: map<Transform, seq<Instance>>
    var rootInstanced: seq<Instance>
    /** Whether an onPrefabDestroy callback is set. */
    var onPrefabDestroy: bool
    /** How many times the callback has been invoked. */
    var destroyCalls: nat

    constructor (manager: Manager)
      ensures this.manager == manager && instancedDict == map[] && rootInstanced == []
      ensures !onPrefabDestroy && destroyCalls == 0
    {
      this.manager := manager;
      instancedDict := map[];
      rootInstanced := [];
      onPrefabDestroy := false;
      destroyCalls := 0;
    }

    function Contents(): Buckets<Instance>
      reads this
    {
      Buckets(instancedDict, rootInstanced)
    }

    ghost function Instances(): set<Instance>
      reads this
    {
      Members(Contents())
    }

    /** Every instance is filed under its own parent, or in the root list when it has none, once. */
    ghost predicate Valid()
      reads this, Instances()
    {
      && Distinct(Contents())
      && (forall p, i :: p in instancedDict && i in instancedDict[p] ==> i.parent == Some(p))
      && (forall i :: i in rootInstanced ==> i.parent.None?)
    }

    method SetOnPrefabDestroy()
      modifies this`onPrefabDestroy
      ensures onPrefabDestroy
    {
      onPrefabDestroy := true;
    }

    /** Files `instance` under `parent`: the list code shared by Instantiate and SetInstanceParent. */
    method File(instance: Instance, parent: Option<Transform>)
      requires Valid() && instance !in Instances() && instance.parent == parent
      modifies this`instancedDict, this`rootInstanced
      ensures Valid()
      ensures Contents() == Added(old(Contents()), instance, parent)
      ensures Instances() == old(Instances()) + {instance}
    {
      ghost var b := Contents();
      if parent.Some? {
        if parent.value !in instancedDict {
          instancedDict := instancedDict[parent.value := []];
        }
        instancedDict := instancedDict[parent.value := instancedDict[parent.value] + [instance]];
      } else {
        rootInstanced := rootInstanced + [instance];
      }
      assert Contents() == Added(b, instance, parent);
      AddedKeeps(b, instance, parent);
      AddedValid(b, instance, parent);
      AddedFrom(b, instance, parent);
      forall p, i | p in instancedDict && i in instancedDict[p]
        ensures i.parent == Some(p)
      {
        if i != instance {
          assert p in b.dict && i in b.dict[p];
        }
      }
      forall i | i in rootInstanced
        ensures i.parent.None?
      {
        if i != instance {
          assert i in b.root;
        }
      }
    }

    /** Filing a new instance keeps every list repeat-free. */
    static lemma AddedValid(b: Buckets<Instance>, x: Instance, parent: Option<Transform>)
      requires Distinct(b) && x !in Members(b)
      ensures Distinct(Added(b, x, parent))
    {
      match parent
      case Some(p) =>
        assert p in b.dict ==> forall i :: i in b.dict[p] ==> i in Members(b);
      case None =>
        assert x !in b.root;
    }

    /** Whatever is filed after adding `x` was filed before, except `x`. */
    static lemma AddedFrom(b: Buckets<Instance>, x: Instance, parent: Option<Transform>)
      ensures forall p, i :: p in Added(b, x, parent).dict && i in Added(b, x, parent).dict[p] && i != x ==>
        p in b.dict && i in b.dict[p]
      ensures forall i :: i in Added(b, x, parent).root && i != x ==> i in b.root
    {
    }

    /**
     * Takes `instance` out of its parent's list when the parent is a key,
     * else out of the root list; `prune` deletes a list this empties.
     */
    method Unfile(instance: Instance, prune: bool)
      requires Valid()
      modifies this`instancedDict, this`rootInstanced
      ensures Valid()
      ensures Contents() == Taken(old(Contents()), instance, instance.parent, prune)
      ensures Instances() == old(Instances()) - {instance}
    {
      ghost var b := Contents();
      var parent := instance.parent;
      TakenKeeps(b, instance, parent, prune);
      if parent.Some? && parent.value in instancedDict {
        var rest := RemoveFirst(instancedDict[parent.value], instance);
        instancedDict := instancedDict[parent.value := rest];
        if prune && rest == [] {
          instancedDict := instancedDict - {parent.value};
        }
      } else {
        rootInstanced := RemoveFirst(rootInstanced, instance);
      }
      assert Contents() == Taken(b, instance, parent, prune);
      TakenFrom(b, instance, parent, prune);
      forall p, i | p in instancedDict && i in instancedDict[p]
        ensures i.parent == Some(p)
      {
        assert p in b.dict && i in b.dict[p];
      }
      forall i | i in rootInstanced
        ensures i.parent.None?
      {
        assert i in b.root;
      }
    }

    /** Whatever is filed after taking `x` out was filed before. */
    static lemma TakenFrom(b: Buckets<Instance>, x: Instance, parent: Option<Transform>, prune: bool)
      ensures forall p, i :: p in Taken(b, x, parent, prune).dict && i in Taken(b, x, parent, prune).dict[p] ==>
        p in b.dict && i in b.dict[p]
      ensures forall i :: i in Taken(b, x, parent, prune).root ==> i in b.root
    {
      if parent.Some? && parent.value in b.dict {
        RemoveFirstCount(b.dict[parent.value], x);
        RemoveFirstIn(b.dict[parent.value], x);
      } else {
        RemoveFirstIn(b.root, x);
      }
    }

    /**
     * `parent` is the parent ActualInstantiate gives the new instance. The
     * first instance registers the proxy with the manager; with
     * `stachNewInstance` the new instance starts inactive and stashed.
     */
    method Instantiate(parent: Option<Transform>) returns (instance: Instance)
      requires Valid()
      modifies this`instancedDict, this`rootInstanced, manager`proxies, manager`stashed
      ensures Valid()
      ensures fresh(instance) && instance.parent == parent
      ensures instance.activeSelf == !manager.stachNewInstance
      ensures Contents() == Added(old(Contents()), instance, parent)
      ensures Instances() == old(Instances()) + {instance}
      ensures manager.proxies == if Empty(old(Contents())) then old(manager.proxies) + {this} else old(manager.proxies)
      ensures manager.stashed == if manager.stachNewInstance then old(manager.stashed) + {instance} else old(manager.stashed)
    {
      if instancedDict == map[] && rootInstanced == [] {
        manager.AddProxy(this);
      }
      instance := new Instance(parent);
      if manager.stachNewInstance {
        instance.activeSelf := false;
        manager.Stash(instance);
      }
      File(instance, parent);
    }

    /**
     * Takes the instance out of its parent's list (deleting an emptied
     * list) or out of the root list; once both containers are empty the
     * callback fires, is cleared, and the proxy leaves the manager.
     */
    method Destroy(instance: Instance?)
      requires Valid()
      modifies this`instancedDict, this`rootInstanced, this`onPrefabDestroy, this`destroyCalls, manager`proxies
      ensures Valid()
      ensures instance != null ==> Contents() == Taken(old(Contents()), instance, instance.parent, true)
      ensures instance != null ==> Instances() == old(Instances()) - {instance}
      ensures instance == null ==> Contents() == old(Contents())
      ensures Empty(Contents()) ==>
        && destroyCalls == old(destroyCalls) + (if old(onPrefabDestroy) then 1 else 0)
        && !onPrefabDestroy
        && manager.proxies == old(manager.proxies) - {this}
      ensures !Empty(Contents()) ==>
        && destroyCalls == old(destroyCalls) && onPrefabDestroy == old(onPrefabDestroy)
        && manager.proxies == old(manager.proxies)
    {
      if instance != null {
        Unfile(instance, true);
      }
      if instancedDict == map[] && rootInstanced == [] {
        if onPrefabDestroy {
          destroyCalls := destroyCalls + 1;
        }
        onPrefabDestroy := false;
        manager.RemoveProxy(this);
      }
    }

    /**
     * As written: takes the instance out of its old parent's list (or the
     * root list) without deleting an emptied list, files it under `trans`
     * and sets its parent.
     */
    method SetInstanceParent(instance: Instance?, trans: Option<Transform>)
      requires Valid()
      modifies this`instancedDict, this`rootInstanced, {instance} - {null}
      ensures Valid()
      ensures instance != null ==> instance.parent == trans && instance.activeSelf == old(instance.activeSelf)
      ensures instance != null ==> Contents() == Added(Taken(old(Contents()), instance, old(instance.parent), false), instance, trans)
      ensures instance != null ==> Instances() == old(Instances()) + {instance}
      ensures instance == null ==> Contents() == old(Contents())
    {
      if instance == null {
        return;
      }
      Move(instance, trans, false);
    }

    /** Corrected: the same move, but an emptied list is deleted, so the containers stay pruned. */
    method SetInstanceParentPruned(instance: Instance?, trans: Option<Transform>)
      requires Valid() && Pruned(Contents())
      modifies this`instancedDict, this`rootInstanced, {instance} - {null}
      ensures Valid() && Pruned(Contents())
      ensures instance != null ==> instance.parent == trans && instance.activeSelf == old(instance.activeSelf)
      ensures instance != null ==> Contents() == Added(Taken(old(Contents()), instance, old(instance.parent), true), instance, trans)
      ensures instance != null ==> Instances() == old(Instances()) + {instance}
      ensures instance == null ==> Contents() == old(Contents())
    {
      if instance == null {
        return;
      }
      ghost var b := Contents();
      ghost var from := instance.parent;
      assert forall q :: q in b.dict && instance in b.dict[q] ==> from == Some(q);
      MovedPrunedKeeps(b, instance, from, trans);
      Move(instance, trans, true);
    }

    method Move(instance: Instance, trans: Option<Transform>, prune: bool)
      requires Valid()
      modifies this`instancedDict, this`rootInstanced, instance`parent
      ensures Valid()
      ensures instance.parent == trans
      ensures Contents() == Added(Taken(old(Contents()), instance, old(instance.parent), prune), instance, trans)
      ensures Instances() == old(Instances()) + {instance}
    {
      Unfile(instance, prune);
      instance.parent := trans;
      File(instance, trans);
    }

    /** The active instances, each of which gets UpdateProxy from every component proxy. */
    method UpdateInstancesComponent() returns (updated: set<Instance>)
      ensures updated == set i | i in Instances() && i.activeSelf
    {
      updated := {};
      var keys := instancedDict.Keys;
      while keys != {}
        invariant keys <= instancedDict.Keys
        invariant updated == set p, i | p in instancedDict && p !in keys && i in instancedDict[p] && i.activeSelf :: i
        decreases keys
      {
        var p :| p in keys;
        var list := instancedDict[p];
        ghost var before := updated;
        var k := 0;
        while k < |list|
          invariant 0 <= k <= |list|
          invariant updated == before + set j | 0 <= j < k && list[j].activeSelf :: list[j]
        {
          if list[k].activeSelf {
            updated := updated + {list[k]};
          }
          k := k + 1;
        }
        keys := keys - {p};
      }
      ghost var fromDict := updated;
      var k := 0;
      while k < |rootInstanced|
        invariant 0 <= k <= |rootInstanced|
        invariant updated == fromDict + set j | 0 <= j < k && rootInstanced[j].activeSelf :: rootInstanced[j]
      {
        if rootInstanced[k].activeSelf {
          updated := updated + {rootInstanced[k]};
        }
        k := k + 1;
      }
    }

    /**
     * The instances filed under `root` or a descendant of it, each of which
     * gets UpdateTransform; the root list is not visited.
     */
    method UpdateInstancesTransform(h: Hierarchy, root: Option<Transform>) returns (updated: set<Instance>)
      requires h.Valid()
      ensures updated == set p, i | p in instancedDict && i in instancedDict[p] && root.Some? && Descends(h, p, root.value) :: i
    {
      updated := {};
      var keys := instancedDict.Keys;
      while keys != {}
        invariant keys <= instancedDict.Keys
        invariant forall i :: i in updated <==>
          exists q :: q in instancedDict && q !in keys && i in instancedDict[q] && root.Some? && Descends(h, q, root.value)
        decreases keys
      {
        var p :| p in keys;
        var under := IsChildOrSelf(h, Some(p), root);
        if under {
          var list := instancedDict[p];
          ghost var before := updated;
          var k := 0;
          while k < |list|
            invariant 0 <= k <= |list|
            invariant forall i :: i in updated <==> i in before || i in list[..k]
          {
            assert list[..k + 1] == list[..k] + [list[k]];
            updated := updated + {list[k]};
            k := k + 1;
          }
        }
        keys := keys - {p};
      }
    }

    /** `i` is filed under its parent, which is `root` or a descendant of it. */
    ghost predicate Under(h: Hierarchy, root: Option<Transform>, i: Instance)
      reads this, i
    {
      && i.parent.Some? && i.parent.value in instancedDict && i in instancedDict[i.parent.value]
      && root.Some? && Descends(h, i.parent.value, root.value)
    }

    /** Calls SetActive(active) on every instance in the list filed under `p`. */
    method SetListActive(p: Transform, active: bool)
      requires p in instancedDict && Unique(instancedDict[p])
      modifies Instances()`activeSelf
      ensures forall i :: i in Instances() ==>
        i.activeSelf == if i in instancedDict[p] && i !in manager.stashed then active else old(i.activeSelf)
    {
      var list := instancedDict[p];
      var k := 0;
      while k < |list|
        invariant 0 <= k <= |list|
        invariant forall i :: i in Instances() ==>
          i.activeSelf == if i in list[..k] && i !in manager.stashed then active else old(i.activeSelf)
      {
        assert list[k] in instancedDict[p];
        assert list[k] in Instances();
        assert list[k] !in list[..k];
        list[k].SetActive(manager, active);
        assert list[..k + 1] == list[..k] + [list[k]];
        k := k + 1;
      }
      assert list[..k] == list;
    }

    /**
     * Calls SetActive(active) on every instance filed under `root` or a
     * descendant of it; stashed instances keep their state.
     */
    method SetInstancesActive(h: Hierarchy, root: Option<Transform>, active: bool)
      requires h.Valid() && Valid()
      modifies Instances()`activeSelf
      ensures forall i :: i in Instances() ==>
        i.activeSelf == if Under(h, root, i) && i !in manager.stashed then active else old(i.activeSelf)
    {
      var keys := instancedDict.Keys;
      while keys != {}
        invariant keys <= instancedDict.Keys
        invariant forall i :: i in Instances() ==>
          i.activeSelf == if Under(h, root, i) && i.parent.value !in keys && i !in manager.stashed then active else old(i.activeSelf)
        decreases keys
      {
        var p :| p in keys;
        var under := IsChildOrSelf(h, Some(p), root);
        if under {
          SetListActive(p, active);
        }
        keys := keys - {p};
      }
    }
  }
}
