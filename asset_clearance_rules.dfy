// Records of a rules asset (AssetClearance/Editor/AssetClearanceRules.cs):
// the flat per-type parameter layout of a Method, conditions with their
// memoised method lookup, rules and their defaults.
module AssetClearanceRules {
  import opened Wrappers

  datatype LogicOperator = AND | OR
  datatype TargetScope = DeepInCurrentFolder | CurrentFolder | SpecificObjects
  datatype LogType = None | Info | Warning | Error

  /** The five parameter element types a check method can take. */
  datatype ParamKind = IntKind | FloatKind | BoolKind | StringKind | ObjectKind

  /**
   * Parameters of one element type, stored flat: `counts[j]` is the number of
   * values of the j-th parameter of this type (1 for a scalar), and the
   * values of all parameters of this type follow each other in `values`.
   */
  datatype Slots<T> = Slots(counts: seq<int>, values: seq<T>)

  /**
   * Method: the name of the check method and its serialised parameters.
   * Unity object references are opaque ids; `None` is a missing reference.
   */
  datatype Method = Method(
    name: Option<string>,
    intSlots: Slots<int>,
    floatSlots: Slots<real>,
    boolSlots: Slots<bool>,
    stringSlots: Slots<string>,
    objectSlots: Slots<Option<nat>>)

  /** `new Method()`: no name, no parameters (Unity serialises the null arrays as empty). */
  function NewMethod(): (m: Method)
    ensures m.name.None?
    ensures m.intSlots.counts == [] && m.floatSlots.counts == [] && m.boolSlots.counts == []
    ensures m.stringSlots.counts == [] && m.objectSlots.counts == []
  {
    Method(Option.None, Slots([], []), Slots([], []), Slots([], []), Slots([], []), Slots([], []))
  }

  /**
   * Declared type of a reflected parameter, before DoMethod normalises enums
   * to int and Unity object subclasses to Object.
   */
  datatype DeclaredType =
    | Primitive(kind: ParamKind)
    | PrimitiveArray(kind: ParamKind)
    | EnumType
    | EnumArray
    | ObjectSubclass
    | ObjectSubclassArray

  datatype ParamInfo = ParamInfo(name: string, isOut: bool, declared: DeclaredType)

  /** Reflection data of a check method: its name and parameters (parameter 0 is the checked object). */
  datatype MethodInfo = MethodInfo(name: string, parameters: seq<ParamInfo>)

  /** Position of the first method with the given name, or |methods| when there is none. */
  function FindIndexByName(methods: seq<MethodInfo>, name: Option<string>): (k: nat)
    ensures k <= |methods|
    ensures forall j :: 0 <= j < k ==> Some(methods[j].name) != name
    ensures k < |methods| ==> Some(methods[k].name) == name
  {
    if methods == [] then 0
    else if Some(methods[0].name) == name then 0
    else 1 + FindIndexByName(methods[1..], name)
  }

  /** List.Find: the first method with the given name, or null. */
  function FindByName(methods: seq<MethodInfo>, name: Option<string>): (r: Option<MethodInfo>)
    ensures r.Some? ==> r.value in methods && name == Some(r.value.name)
    ensures r.None? <==> forall j :: 0 <= j < |methods| ==> Some(methods[j].name) != name
  {
    var k := FindIndexByName(methods, name);
    if k < |methods| then Some(methods[k]) else Option.None
  }

  /** A condition of a rule, with the memoised reflection lookup of its method. */
  class Condition {
    var priority: int
    var checkMethod: Method
    var negation: bool
    var logicOperator: LogicOperator
    var methodInfoCache: Option<MethodInfo>

    constructor (priority: int, checkMethod: Method, negation: bool, logicOperator: LogicOperator)
      ensures this.priority == priority && this.checkMethod == checkMethod
      ensures this.negation == negation && this.logicOperator == logicOperator
      ensures methodInfoCache.None?
    {
      this.priority := priority;
      this.checkMethod := checkMethod;
      this.negation := negation;
      this.logicOperator := logicOperator;
      methodInfoCache := Option.None;
    }

    /** The cache holds nothing, or the result of an earlier lookup in `methods`. */
    ghost predicate CacheFrom(methods: seq<MethodInfo>)
      reads this
    {
      methodInfoCache.None? || methodInfoCache == FindByName(methods, Some(methodInfoCache.value.name))
    }

    /**
     * ValidateMethod: reuses the cached lookup while its name still equals the
     * method's name, and otherwise searches again.
     */
    method ValidateMethod(methods: seq<MethodInfo>) returns (r: Option<MethodInfo>)
      modifies this`methodInfoCache
      ensures r == methodInfoCache
      ensures old(methodInfoCache).Some? && Some(old(methodInfoCache).value.name) == checkMethod.name ==>
                r == old(methodInfoCache)
      ensures old(methodInfoCache).None? || Some(old(methodInfoCache).value.name) != checkMethod.name ==>
                r == FindByName(methods, checkMethod.name)
      ensures old(CacheFrom(methods)) ==> r == FindByName(methods, checkMethod.name) && CacheFrom(methods)
    {
      if methodInfoCache.None? || Some(methodInfoCache.value.name) != checkMethod.name {
        methodInfoCache := FindByName(methods, checkMethod.name);
      }
      r := methodInfoCache;
    }
  }

  datatype Rule = Rule(
    enable: bool,
    name: Option<string>,
    conditions: seq<Condition>,
    trueLogType: LogType,
    falseLogType: LogType,
    helpURL: Option<string>,
    fixMethod: Method,
    fixNotice: Option<string>)

  /** Field initialisers of a new Rule. */
  function NewRule(): (r: Rule)
    ensures r.trueLogType == LogType.None && r.falseLogType == Warning
    ensures r.fixMethod == NewMethod() && !r.enable && r.conditions == []
  {
    Rule(false, Option.None, [], LogType.None, Warning, Option.None, NewMethod(), Option.None)
  }

  datatype Rules = Rules(
    enableRules: bool,
    useForSecondaryCheck: bool,
    targetScope: TargetScope,
    specificObjects: seq<Option<nat>>,
    defaultIncludePaths: seq<string>,
    defaultExcludePaths: seq<string>,
    enableSkipConditions: bool,
    skipFilesFilter: string,
    skipConditions: seq<Condition>,
    skipObjects: seq<Option<nat>>,
    ruleList: seq<Rule>)

  /** Field initialisers of a new rules asset. */
  function NewRules(): (r: Rules)
    ensures r.enableRules && r.enableSkipConditions && !r.useForSecondaryCheck
    ensures r.targetScope == DeepInCurrentFolder && r.skipFilesFilter == ""
    ensures r.specificObjects == [] && r.skipConditions == [] && r.skipObjects == [] && r.ruleList == []
    ensures r.defaultIncludePaths == [] && r.defaultExcludePaths == []
  {
    Rules(true, false, DeepInCurrentFolder, [], [], [], true, "", [], [], [])
  }
}
