// LowEndRenderingManager: the registry of low-end rendering adaptors. Each
// adaptor that joins is stored in the `adaptors` array at slot `count` and
// remembers its slot in `index`; quitting swaps the last entry into the
// vacated slot. When the global shader LOD changes, every registered adaptor
// is switched to its low-end (Active) or normal (Disactive) look.
module LowEndRenderingManager {

  /**
   * LowEndRenderingAdaptor: `valid` is what IsValid() answers, `lowEnd`
   * records whether Active() (true) or Disactive() (false) was called last.
   */
  class Adaptor {
    var index: int
    var lowEnd: bool
    const valid: bool

    constructor (valid: bool)
      ensures this.valid == valid && index == 0 && !lowEnd
    {
      this.valid := valid;
      index := 0;
      lowEnd := false;
    }

    method Active()
      modifies this
      ensures lowEnd && index == old(index)
    {
      lowEnd := true;
    }

    method Disactive()
      modifies this
      ensures !lowEnd && index == old(index)
    {
      lowEnd := false;
    }
  }

  class Manager {
    var adaptors: array<Adaptor?>
    var count: int
    var lastLod: int
    var lodThreshold: int
    var enabled: bool

    /** Slots below count hold adaptors, slots from count on are empty, and there is always a free slot. */
    ghost predicate Valid()
      reads this, adaptors
    {
      && 0 <= count < adaptors.Length
      && (forall i :: 0 <= i < count ==> adaptors[i] != null)
      && (forall i :: count <= i < adaptors.Length ==> adaptors[i] == null)
    }

    /** The registered adaptors, in slot order. */
    ghost function Registered(): seq<Adaptor?>
      reads this, adaptors
      requires Valid()
    {
      adaptors[..count]
    }

    /** Every registered adaptor's index is its slot. */
    ghost predicate Indexed()
      reads this, adaptors, adaptors[..]
      requires Valid()
    {
      forall i :: 0 <= i < count ==> adaptors[i] != null && adaptors[i].index == i
    }

    constructor ()
      ensures Valid() && count == 0 && adaptors.Length == 5000 && fresh(adaptors)
      ensures lastLod == 0 && lodThreshold == 100 && enabled
    {
      adaptors := new Adaptor?[5000](_ => null);
      count := 0;
      lastLod := 0;
      lodThreshold := 100;
      enabled := true;
    }

    /** Array.Resize(ref adaptors, adaptors.Length * 2): the old slots are copied, the new ones are empty. */
    method Grow()
      modifies this`adaptors
      ensures fresh(adaptors) && adaptors.Length == 2 * old(adaptors.Length)
      ensures adaptors[..old(adaptors.Length)] == old(adaptors[..])
      ensures forall i :: old(adaptors.Length) <= i < adaptors.Length ==> adaptors[i] == null
    {
      var src := adaptors;
      var a := new Adaptor?[2 * src.Length](_ => null);
      var i := 0;
      while i < src.Length
        invariant 0 <= i <= src.Length
        invariant a[..i] == src[..i]
        invariant forall k :: src.Length <= k < a.Length ==> a[k] == null
      {
        a[i] := src[i];
        i := i + 1;
      }
      adaptors := a;
    }

    /**
     * Join: an invalid adaptor is ignored. Otherwise the adaptor is stored
     * at slot count with index count, the storage doubles when it becomes
     * full, and an enabled manager switches the adaptor to the look the
     * current LOD asks for.
     */
    method Join(adaptor: Adaptor, globalLod: int)
      requires Valid()
      modifies this`adaptors, this`count, adaptors, adaptor
      ensures Valid() && (adaptors == old(adaptors) || fresh(adaptors))
      ensures !adaptor.valid ==>
        count == old(count) && adaptors == old(adaptors) && adaptors[..] == old(adaptors[..]) &&
        adaptor.index == old(adaptor.index) && adaptor.lowEnd == old(adaptor.lowEnd)
      ensures adaptor.valid ==>
        && Registered() == old(Registered()) + [adaptor]
        && adaptor.index == old(count)
        && adaptors.Length == (if old(count) + 1 >= old(adaptors.Length) then 2 * old(adaptors.Length) else old(adaptors.Length))
        && adaptor.lowEnd == (if enabled then globalLod <= lodThreshold else old(adaptor.lowEnd))
      ensures old(Indexed()) && adaptor !in old(Registered()) ==> Indexed()
    {
      if !adaptor.valid {
        return;
      }
      Store(adaptor);
      if count >= adaptors.Length {
        ghost var full := adaptors[..];
        Grow();
        assert adaptors[..count] == full[..count];
      }
      if enabled {
        if globalLod <= lodThreshold {
          adaptor.Active();
        } else {
          adaptor.Disactive();
        }
      }
    }

    /** The first half of Join: the adaptor takes slot count and index count. */
    method Store(adaptor: Adaptor)
      requires Valid()
      modifies this`count, adaptors, adaptor`index
      ensures count == old(count) + 1 && count <= adaptors.Length
      ensures adaptors[..count] == old(Registered()) + [adaptor]
      ensures forall i :: count <= i < adaptors.Length ==> adaptors[i] == null
      ensures adaptor.index == old(count)
      ensures old(Indexed()) && adaptor !in old(Registered()) ==>
        forall i :: 0 <= i < count ==> adaptors[i] != null && adaptors[i].index == i
    {
      ghost var before := adaptors[..count];
      ghost var wasIndexed := Indexed();
      adaptor.index := count;
      adaptors[count] := adaptor;
      count := count + 1;
      assert adaptors[..count] == before + [adaptor];
      if wasIndexed && adaptor !in before {
        forall i | 0 <= i < count
          ensures adaptors[i] != null && adaptors[i].index == i
        {
          if i < count - 1 {
            assert adaptors[i] == before[i] && before[i] != adaptor;
          }
        }
      }
    }

    /**
     * Quit as written: a null adaptor, or one whose index is outside
     * [0, count), is ignored. Otherwise the last entry moves into slot
     * adaptor.index, the old last slot is emptied, the adaptor's index
     * becomes -1 and count drops by one. The moved adaptor keeps its old
     * index.
     */
    method Quit(adaptor: Adaptor?)
      requires Valid()
      modifies this`count, adaptors, adaptor
      ensures Valid()
      ensures adaptor == null || old(adaptor.index) < 0 || old(adaptor.index) >= old(count) ==>
        count == old(count) && adaptors[..] == old(adaptors[..]) &&
        (adaptor != null ==> adaptor.index == old(adaptor.index))
      ensures adaptor != null && 0 <= old(adaptor.index) < old(count) ==>
        && count == old(count) - 1
        && Registered() == old(Registered())[old(adaptor.index) := old(adaptors[count - 1])][..count]
        && adaptor.index == -1
      ensures adaptor != null ==> adaptor.lowEnd == old(adaptor.lowEnd)
    {
      if adaptor == null || adaptor.index < 0 || adaptor.index >= count {
        return;
      }
      ghost var before := adaptors[..count];
      ghost var i := adaptor.index;
      adaptors[adaptor.index] := adaptors[count - 1];
      adaptors[count - 1] := null;
      adaptor.index := -1;
      count := count - 1;
      assert adaptors[..count] == before[i := before[|before| - 1]][..count];
    }

    /**
     * Quit with the moved adaptor's index repointed to its new slot. With
     * every registered index equal to its slot, the quitting adaptor is
     * removed and nothing else, an unregistered one (index -1) changes
     * nothing, and the indexes stay equal to the slots.
     */
    method QuitRepointing(adaptor: Adaptor?)
      requires Valid()
      modifies this`count, adaptors, adaptors[..count], adaptor
      ensures Valid()
      ensures adaptor == null || old(adaptor.index) < 0 || old(adaptor.index) >= old(count) ==>
        count == old(count) && adaptors[..] == old(adaptors[..])
      ensures old(Indexed()) ==> Indexed()
      ensures old(Indexed()) && adaptor != null && adaptor in old(Registered()) ==>
        && count == old(count) - 1
        && adaptor !in Registered()
        && multiset(Registered()) == multiset(old(Registered())) - multiset{adaptor}
        && adaptor.index == -1
    {
      if adaptor == null || adaptor.index < 0 || adaptor.index >= count {
        return;
      }
      ghost var before := adaptors[..count];
      var i := adaptor.index;
      var moved := adaptors[count - 1];
      adaptors[i] := moved;
      adaptors[count - 1] := null;
      moved.index := i;
      adaptor.index := -1;
      count := count - 1;
      assert adaptors[..count] == before[i := before[|before| - 1]][..count];
    }

    /**
     * Update: when the global LOD differs from the last one seen, remember
     * it and switch every registered adaptor to the low-end look when the
     * LOD is at most lodThreshold, to the normal look otherwise.
     */
    method Update(globalLod: int)
      requires Valid()
      modifies this`lastLod, set i | 0 <= i < count :: adaptors[i]
      ensures Valid()
      ensures globalLod == old(lastLod) ==>
        lastLod == old(lastLod) && forall i :: 0 <= i < count ==> adaptors[i].lowEnd == old(adaptors[i].lowEnd)
      ensures count == old(count) && adaptors[..count] == old(adaptors[..count])
      ensures forall i :: 0 <= i < count ==> adaptors[i].index == old(adaptors[i].index)
      ensures globalLod != old(lastLod) ==>
        lastLod == globalLod &&
        forall i :: 0 <= i < count ==> adaptors[i].lowEnd == (globalLod <= lodThreshold)
    {
      if globalLod != lastLod {
        lastLod := globalLod;
        var i := 0;
        while i < count
          invariant 0 <= i <= count && lastLod == globalLod
          invariant forall k :: 0 <= k < i ==> adaptors[k].lowEnd == (lastLod <= lodThreshold)
          invariant forall k :: 0 <= k < count ==> adaptors[k].index == old(adaptors[k].index)
        {
          if lastLod <= lodThreshold {
            adaptors[i].Active();
          } else {
            adaptors[i].Disactive();
          }
          i := i + 1;
        }
      }
    }
  }

  /**
   * Two adaptors join, the first quits and then the second quits: the
   * second keeps index 1 after the swap, which is no longer below count,
   * so its Quit is ignored and it stays registered.
   */
  method StaleIndexAfterQuit() returns (m: Manager, b: Adaptor)
    ensures m.Valid() && m.count == 1 && m.adaptors[0] == b && b.index == 1
  {
    m := new Manager();
    var a := new Adaptor(true);
    b := new Adaptor(true);
    m.Join(a, 0);
    m.Join(b, 0);
    m.Quit(a);
    m.Quit(b);
  }

  /** Two fresh adaptors join a fresh manager. */
  method JoinTwo() returns (m: Manager, a: Adaptor, b: Adaptor)
    ensures fresh(m) && fresh(m.adaptors) && fresh(a) && fresh(b)
    ensures m.Valid() && m.Indexed() && m.Registered() == [a, b]
  {
    m := new Manager();
    a := new Adaptor(true);
    b := new Adaptor(true);
    a.index := -1;
    b.index := -1;
    m.Join(a, 0);
    assert m.Registered() == [a] && m.Indexed();
    m.Join(b, 0);
  }

  /** The same sequence with the repointing Quit leaves nothing registered. */
  method RepointedQuitEmpties() returns (m: Manager)
    ensures m.Valid() && m.count == 0
  {
    var a, b;
    m, a, b := JoinTwo();
    m.QuitRepointing(a);
    assert multiset(m.Registered()) == multiset{b} && m.count == 1;
    assert m.Registered() == [m.Registered()[0]];
    assert m.Registered() == [b];
    m.QuitRepointing(b);
  }
}
