// The log and ping-object buffers that check methods write into, and the
// CompareName check (AssetClearance/Editor/AssetClearanceMethods.cs).
module AssetClearanceMethods {
  import opened Wrappers
  import Text

  datatype Log = Log(content: string, order: int)

  /**
   * The three static lists of AssetClearanceMethods: logs, and for each log
   * the ping referencer and ping object (opaque ids, `None` for null).
   */
  class LogBuffer {
    var logList: seq<Log>
    var pingReferencerList: seq<Option<nat>>
    var pingObjectList: seq<Option<nat>>

    constructor ()
      ensures logList == [] && pingReferencerList == [] && pingObjectList == []
    {
      logList, pingReferencerList, pingObjectList := [], [], [];
    }

    function LogCount(): nat
      reads this
    {
      |logList|
    }

    function PingObjectListCount(): nat
      reads this
    {
      |pingObjectList|
    }

    /** GetLog: the i-th log, or null past the end. */
    function GetLog(i: nat): (r: Option<Log>)
      reads this
      ensures r.Some? <==> i < |logList|
      ensures r.Some? ==> r.value == logList[i]
    {
      if i < LogCount() then Some(logList[i]) else Option.None
    }

    /** GetPingReferencer: null past the end of the ping-object list. */
    function GetPingReferencer(i: nat): (r: Option<nat>)
      reads this
      requires |pingReferencerList| == |pingObjectList|
      ensures i >= |pingObjectList| ==> r.None?
      ensures i < |pingObjectList| ==> r == pingReferencerList[i]
    {
      if i < PingObjectListCount() then pingReferencerList[i] else Option.None
    }

    /** GetPingObject: null past the end of the ping-object list. */
    function GetPingObject(i: nat): (r: Option<nat>)
      reads this
      ensures i >= |pingObjectList| ==> r.None?
      ensures i < |pingObjectList| ==> r == pingObjectList[i]
    {
      if i < PingObjectListCount() then pingObjectList[i] else Option.None
    }

    method ClearLogs()
      modifies this`logList
      ensures logList == []
    {
      logList := [];
    }

    method ClearPingObjects()
      modifies this`pingReferencerList, this`pingObjectList
      ensures pingReferencerList == [] && pingObjectList == []
    {
      pingReferencerList := [];
      pingObjectList := [];
    }

    /** AddLog: appends to the three lists together. */
    method AddLog(log: string, order: int, pingReferencer: Option<nat>, pingObject: Option<nat>)
      modifies this
      ensures logList == old(logList) + [Log(log, order)]
      ensures pingReferencerList == old(pingReferencerList) + [pingReferencer]
      ensures pingObjectList == old(pingObjectList) + [pingObject]
    {
      logList := logList + [Log(log, order)];
      pingReferencerList := pingReferencerList + [pingReferencer];
      pingObjectList := pingObjectList + [pingObject];
    }
  }

  datatype NameCompareMode = Match | Contain | StartWith | EndWith

  function Folded(s: string, toLower: bool): string
  {
    if toLower then Text.ToLower(s) else s
  }

  /**
   * CompareName: optionally lower-cases both names, then tests substring,
   * prefix, suffix or (Match) equality.
   */
  function CompareName(objName: string, name: string, mode: NameCompareMode, toLower: bool): (r: bool)
    ensures mode == StartWith ==> (r <==> Text.IsPrefix(Folded(name, toLower), Folded(objName, toLower)))
    ensures mode == EndWith ==> (r <==> Text.IsSuffix(Folded(name, toLower), Folded(objName, toLower)))
    ensures mode == Match ==> (r <==> Folded(objName, toLower) == Folded(name, toLower))
    ensures mode == Contain ==> (r <==> Text.Contains(Folded(objName, toLower), Folded(name, toLower)))
  {
    var n := if toLower then Text.ToLower(name) else name;
    var testName := if toLower then Text.ToLower(objName) else objName;
    match mode
    case Contain => Text.Contains(testName, n)
    case StartWith => Text.IsPrefix(n, testName)
    case EndWith => Text.IsSuffix(n, testName)
    case Match => testName == n
  }

  /** Equality implies prefix and suffix, and each of those implies containment. */
  lemma CompareNameModes(objName: string, name: string, toLower: bool)
    ensures CompareName(objName, name, Match, toLower) ==>
              CompareName(objName, name, StartWith, toLower) && CompareName(objName, name, EndWith, toLower)
    ensures CompareName(objName, name, StartWith, toLower) ==> CompareName(objName, name, Contain, toLower)
    ensures CompareName(objName, name, EndWith, toLower) ==> CompareName(objName, name, Contain, toLower)
  {
    var n := Folded(name, toLower);
    var t := Folded(objName, toLower);
    if CompareName(objName, name, StartWith, toLower) {
      assert Text.OccursAt(n, t, 0);
    }
    if CompareName(objName, name, EndWith, toLower) {
      assert Text.OccursAt(n, t, |t| - |n|);
    }
  }

  /** With `toLower` set, upper- and lower-case ASCII letters compare equal. */
  lemma CompareNameIgnoresCase(objName: string, name: string, mode: NameCompareMode)
    ensures CompareName(objName, name, mode, true) == CompareName(Text.ToLower(objName), Text.ToLower(name), mode, false)
    ensures CompareName(objName, name, mode, true) == CompareName(Text.ToLower(objName), name, mode, true)
  {
    ToLowerIdempotent(objName);
  }

  lemma ToLowerIdempotent(s: string)
    ensures Text.ToLower(Text.ToLower(s)) == Text.ToLower(s)
  {
    assert forall i :: 0 <= i < |s| ==> Text.ToLowerChar(Text.ToLowerChar(s[i])) == Text.ToLowerChar(s[i]);
  }
}
