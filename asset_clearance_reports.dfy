// Reports produced by the rule engine and the ping objects that locate the
// offending object inside an asset
// (AssetClearance/Editor/AssetClearanceReports.cs).
module AssetClearanceReports {
  import opened Wrappers
  import Text
  import AssetClearanceRules

  /**
   * The five key fields of a ping object. Paths are nullable strings; the
   * loaded `Reference` is not part of the model.
   */
  datatype PingObject = PingObject(
    assetPath: Option<string>,
    subAsset: bool,
    subAssetID: int,
    referencerPath: Option<string>,
    referencerID: int)

  predicate IsNullOrEmpty(s: Option<string>) { s.None? || s.value == "" }

  /** A ping object all of whose key fields hold their empty value. */
  predicate IsBlank(p: PingObject)
  {
    IsNullOrEmpty(p.assetPath) && !p.subAsset && p.subAssetID == 0 &&
    IsNullOrEmpty(p.referencerPath) && p.referencerID == 0
  }

  /** PingObject.ContentEquals: key-field equality; a null argument is delegated to NullEquals. */
  function ContentEquals(self: PingObject, other: Option<PingObject>): (r: bool)
    ensures other.Some? ==> (r <==> self == other.value)
    ensures other.None? ==> (r <==> IsBlank(self))
    decreases if other.Some? then 0 else 2
  {
    if other.None? then NullEquals(self, other)
    else
      self.assetPath == other.value.assetPath &&
      self.subAsset == other.value.subAsset &&
      self.subAssetID == other.value.subAssetID &&
      self.referencerPath == other.value.referencerPath &&
      self.referencerID == other.value.referencerID
  }

  /** PingObject.NullEquals: a non-null argument is delegated to ContentEquals. */
  function NullEquals(self: PingObject, other: Option<PingObject>): (r: bool)
    ensures other.None? ==> (r <==> IsBlank(self))
    decreases 1
  {
    if other.Some? then ContentEquals(self, other)
    else IsBlank(self)
  }

  /** PingObject.Clone: a new ping object with the same key fields. */
  function Clone(p: PingObject): (c: PingObject)
    ensures ContentEquals(c, Some(p)) && ContentEquals(p, Some(c))
  {
    PingObject(p.assetPath, p.subAsset, p.subAssetID, p.referencerPath, p.referencerID)
  }

  lemma ContentEqualsReflexiveSymmetric(a: PingObject, b: PingObject)
    ensures ContentEquals(a, Some(a))
    ensures ContentEquals(a, Some(b)) == ContentEquals(b, Some(a))
  {
  }

  lemma NullEqualsDelegates(a: PingObject, other: Option<PingObject>)
    ensures NullEquals(a, other) == ContentEquals(a, other)
  {
  }

  datatype Priority = High | Middle | Low
  datatype Status = Confirm | Fixing | Ignore

  /**
   * A report: the key fields are fixed when the report is generated; status,
   * fix result, priority and note are updated in place by the database and
   * the report tree's menu. `cachedAsset` is the lazily loaded asset.
   */
  class Report {
    const rules: nat
    const ruleName: string
    const assetPath: string
    const pingObject: Option<PingObject>
    const log: Option<string>
    const logType: AssetClearanceRules.LogType
    const logOrder: int
    const fixMethod: Option<AssetClearanceRules.Method>
    const fixNotice: string
    const helpURL: string
    const group: int
    var status: Status
    var fixResult: bool
    var priority: Priority
    var note: string
    var cachedAsset: Option<nat>

    constructor (rules: nat, ruleName: string, assetPath: string, pingObject: Option<PingObject>,
                 log: Option<string>, logType: AssetClearanceRules.LogType, logOrder: int,
                 fixMethod: Option<AssetClearanceRules.Method>, fixNotice: string, helpURL: string, group: int)
      ensures this.rules == rules && this.ruleName == ruleName && this.assetPath == assetPath
      ensures this.pingObject == pingObject && this.log == log && this.logType == logType
      ensures this.logOrder == logOrder && this.fixMethod == fixMethod
      ensures this.fixNotice == fixNotice && this.helpURL == helpURL && this.group == group
      ensures status == Confirm && !fixResult && priority == High && note == "" && cachedAsset.None?
    {
      this.rules, this.ruleName, this.assetPath, this.pingObject := rules, ruleName, assetPath, pingObject;
      this.log, this.logType, this.logOrder := log, logType, logOrder;
      this.fixMethod, this.fixNotice, this.helpURL, this.group := fixMethod, fixNotice, helpURL, group;
      status, fixResult, priority, note, cachedAsset := Confirm, false, High, "", Option.None;
    }

    /**
     * Report.Asset: the cached asset once loaded; null for an empty path;
     * otherwise `load(assetPath)`, which is cached.
     */
    method Asset(load: string -> Option<nat>) returns (a: Option<nat>)
      modifies this`cachedAsset
      ensures old(cachedAsset).Some? ==> a == old(cachedAsset) && cachedAsset == old(cachedAsset)
      ensures old(cachedAsset).None? && assetPath == "" ==> a.None? && cachedAsset.None?
      ensures old(cachedAsset).None? && assetPath != "" ==> a == load(assetPath) && cachedAsset == a
    {
      if cachedAsset.Some? {
        return cachedAsset;
      }
      if assetPath == "" {
        return Option.None;
      }
      cachedAsset := load(assetPath);
      a := cachedAsset;
    }
  }
}
