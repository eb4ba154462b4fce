// The rule engine of AssetClearance (AssetClearance/Editor/AssetClearance.cs):
// wildcard patterns, decoding of the flat parameter layout into call
// arguments, evaluation of one condition and of a condition list, and
// report generation.
module AssetClearance {
  import opened Wrappers
  import Text
  import opened AssetClearanceRules
  import AssetClearanceReports
  import AssetClearanceMethods
  import AssetClearanceUtil

  // ---------------------------------------------------------------------
  // Wildcard.ToRegex

  /** Regex.Escape on one character: the metacharacters and white space get a backslash. */
  function EscapeChar(c: char): (r: string)
    ensures |r| == 1 || (|r| == 2 && r[0] == '\\')
  {
    if c == '\t' then "\\t"
    else if c == '\n' then "\\n"
    else if c == '\r' then "\\r"
    else if c == '\U{0C}' then "\\f"
    else if c in {' ', '#', '$', '(', ')', '*', '+', '.', '?', '[', '\\', '^', '{', '|'} then ['\\', c]
    else [c]
  }

  /** Applies a per-character translation to a string. */
  function FlatMap(f: char -> string, s: string): string
  {
    if s == [] then [] else f(s[0]) + FlatMap(f, s[1..])
  }

  /** Regex.Escape. */
  function Escape(s: string): string
  {
    FlatMap(EscapeChar, s)
  }

  /** string.Replace of the two-character text [a, b] by `rep`, scanning left to right without overlap. */
  function Replace2(s: string, a: char, b: char, rep: string): string
    decreases |s|
  {
    if |s| < 2 then s
    else if s[0] == a && s[1] == b then rep + Replace2(s[2..], a, b, rep)
    else [s[0]] + Replace2(s[1..], a, b, rep)
  }

  /** The translation of one character of a piece after the first replacement (`\*` to `.*`). */
  function StarChar(c: char): string
  {
    if c == '*' then ".*" else EscapeChar(c)
  }

  /** The translation of one pattern character: `*` is `.*`, `?` is `.`, anything else is escaped. */
  function WildcardChar(c: char): (r: string)
    ensures c == '*' ==> r == ".*"
    ensures c == '?' ==> r == "."
    ensures c != '*' && c != '?' ==> r == EscapeChar(c)
  {
    if c == '*' then ".*" else if c == '?' then "." else EscapeChar(c)
  }

  /**
   * A translation whose pieces have one or two characters and never start
   * with `b`, and whose two-character pieces other than [a, b] do not end
   * with `b`.
   */
  ghost predicate Aligned(f: char -> string, a: char, b: char)
  {
    forall c :: 1 <= |f(c)| <= 2 && f(c)[0] != b && (|f(c)| == 2 && f(c) != [a, b] ==> f(c)[1] != b)
  }

  lemma ReplaceOnePiece(x: string, rest: string, a: char, b: char, rep: string)
    requires 1 <= |x| <= 2 && x[0] != b && (|x| == 2 && x != [a, b] ==> x[1] != b)
    requires rest == [] || rest[0] != b
    ensures Replace2(x + rest, a, b, rep) == (if x == [a, b] then rep else x) + Replace2(rest, a, b, rep)
  {
    if |x| == 2 {
      if x == [a, b] {
        assert (x + rest)[2..] == rest;
      } else {
        assert (x + rest)[1..] == [x[1]] + rest;
        assert ([x[1]] + rest)[1..] == rest;
        if rest == [] {
          assert Replace2([x[1]], a, b, rep) == [x[1]];
        }
      }
    } else {
      assert (x + rest)[1..] == rest;
    }
  }

  /** Replacing [a, b] in a translated string is the same as translating [a, b] pieces to `rep`. */
  lemma {:induction false} ReplaceFlatMap(f: char -> string, g: char -> string, a: char, b: char, rep: string, s: string)
    requires Aligned(f, a, b)
    requires forall c :: g(c) == if f(c) == [a, b] then rep else f(c)
    ensures Replace2(FlatMap(f, s), a, b, rep) == FlatMap(g, s)
  {
    if s != [] {
      var rest := FlatMap(f, s[1..]);
      assert rest == [] || rest[0] != b by {
        if s[1..] != [] {
          assert rest == f(s[1..][0]) + FlatMap(f, s[1..][1..]);
        }
      }
      ReplaceOnePiece(f(s[0]), rest, a, b, rep);
      ReplaceFlatMap(f, g, a, b, rep, s[1..]);
    }
  }

  /** A piece of a wildcard pattern as ToRegex writes it: escaped, then `\*` to `.*` and `\?` to `.`. */
  function PieceToRegex(piece: string): string
  {
    Replace2(Replace2(Escape(piece), '\\', '*', ".*"), '\\', '?', ".")
  }

  /** Each piece translates character by character: `*` to `.*`, `?` to `.`, the rest escaped. */
  lemma PieceToRegexPerChar(piece: string)
    ensures PieceToRegex(piece) == FlatMap(WildcardChar, piece)
  {
    assert Aligned(EscapeChar, '\\', '*');
    ReplaceFlatMap(EscapeChar, StarChar, '\\', '*', ".*", piece);
    assert Aligned(StarChar, '\\', '?');
    ReplaceFlatMap(StarChar, WildcardChar, '\\', '?', ".", piece);
  }

  function MapPieces(pieces: seq<string>): (r: seq<string>)
    ensures |r| == |pieces| && forall i :: 0 <= i < |pieces| ==> r[i] == PieceToRegex(pieces[i])
  {
    if pieces == [] then [] else MapPieces(pieces[..|pieces| - 1]) + [PieceToRegex(pieces[|pieces| - 1])]
  }

  /**
   * Wildcard.ToRegex: one alternative per comma-separated piece, joined by
   * `|`. (string.Split never returns an empty array, so the early return
   * for zero pieces cannot be taken and is not modelled.)
   */
  method ToRegex(pattern: string) returns (result: string)
    ensures result == Text.Join(MapPieces(Text.Split(pattern, ',')), "|")
  {
    var splits := Text.Split(pattern, ',');
    ghost var alternatives := MapPieces(splits);
    result := "";
    var i := 0;
    while i < |splits|
      invariant 0 <= i <= |splits|
      invariant i == 0 ==> result == ""
      invariant 0 < i ==> result == Text.Join(alternatives[..i], "|") + (if i < |splits| then "|" else "")
    {
      if i > 0 {
        assert alternatives[..i + 1] == alternatives[..i] + [alternatives[i]];
        Text.JoinSnoc(alternatives[..i], "|", alternatives[i]);
      } else {
        assert alternatives[..1] == [alternatives[0]];
      }
      result := result + PieceToRegex(splits[i]);
      if i < |splits| - 1 {
        result := result + "|";
      }
      i := i + 1;
    }
    assert alternatives[..i] == alternatives;
  }

  /** ToRegex, stated per character: every piece of the pattern becomes its per-character translation. */
  lemma ToRegexPieces(pattern: string)
    ensures var pieces := Text.Split(pattern, ',');
      |MapPieces(pieces)| == |pieces| >= 1 &&
      forall i :: 0 <= i < |pieces| ==> MapPieces(pieces)[i] == FlatMap(WildcardChar, pieces[i])
  {
    var pieces := Text.Split(pattern, ',');
    forall i | 0 <= i < |pieces|
      ensures MapPieces(pieces)[i] == FlatMap(WildcardChar, pieces[i])
    {
      PieceToRegexPerChar(pieces[i]);
    }
  }

  // ---------------------------------------------------------------------
  // DoMethod: decoding the flat parameter layout

  /** A serialised parameter value of one of the five element types. */
  datatype Value = IntV(i: int) | FloatV(f: real) | BoolV(b: bool) | StringV(s: string) | ObjectV(o: Option<nat>)

  /** An argument passed to the check method. */
  datatype Arg =
    | Unset                  // an `out` parameter: left null
    | Target                 // parameter 0, the checked object
    | PingList(refs: seq<nat>)
    | Null                   // a value whose ToString() is "null"
    | Scalar(v: Value)
    | Array(vs: seq<Value>)

  /** The values of one element type, each wrapped as a Value. */
  function Wrap<T>(values: seq<T>, f: T -> Value): (r: seq<Value>)
    ensures |r| == |values| && forall j :: 0 <= j < |values| ==> r[j] == f(values[j])
  {
    if values == [] then [] else Wrap(values[..|values| - 1], f) + [f(values[|values| - 1])]
  }

  /** The counts and values of one element type of a method. */
  function SlotsOf(m: Method, k: ParamKind): (seq<int>, seq<Value>)
  {
    match k
    case IntKind => (m.intSlots.counts, Wrap(m.intSlots.values, x => IntV(x)))
    case FloatKind => (m.floatSlots.counts, Wrap(m.floatSlots.values, x => FloatV(x)))
    case BoolKind => (m.boolSlots.counts, Wrap(m.boolSlots.values, x => BoolV(x)))
    case StringKind => (m.stringSlots.counts, Wrap(m.stringSlots.values, x => StringV(x)))
    case ObjectKind => (m.objectSlots.counts, Wrap(m.objectSlots.values, x => ObjectV(x)))
  }

  /**
   * The dictionary key a declared type is read under: enums as int, Unity
   * object subclasses as Object, each with its array flag.
   */
  function KeyOf(d: DeclaredType): (ParamKind, bool)
  {
    match d
    case Primitive(k) => (k, false)
    case PrimitiveArray(k) => (k, true)
    case EnumType => (IntKind, false)
    case EnumArray => (IntKind, true)
    case ObjectSubclass => (ObjectKind, false)
    case ObjectSubclassArray => (ObjectKind, true)
  }

  const PingObjectsName: string := "pingobjects"

  /** A parameter that reads from the layout: neither `out` nor the ping-object list. */
  predicate Consumes(p: ParamInfo)
  {
    !p.isOut && Text.ToLower(p.name) != PingObjectsName
  }

  /** Number of parameters among 1 .. i-1 that read from the counts of kind k. */
  function Earlier(ps: seq<ParamInfo>, i: nat, k: ParamKind): nat
    requires i <= |ps|
  {
    if i <= 1 then 0
    else Earlier(ps, i - 1, k) + (if Consumes(ps[i - 1]) && KeyOf(ps[i - 1].declared).0 == k then 1 else 0)
  }

  /** counts[0] + ... + counts[n - 1]. */
  function SumTo(counts: seq<int>, n: nat): int
    requires n <= |counts|
  {
    if n == 0 then 0 else SumTo(counts, n - 1) + counts[n - 1]
  }

  /** value.ToString() == "null" turns a value into null: the string "null" and a missing object. */
  function NullIfNull(v: Value): Arg
  {
    if v == StringV("null") || v == ObjectV(Option.None) then Null else Scalar(v)
  }

  /** The non-null references of the ping objects. */
  function References(pings: seq<Option<nat>>): seq<nat>
  {
    if pings == [] then []
    else References(pings[..|pings| - 1]) + (if pings[|pings| - 1].Some? then [pings[|pings| - 1].value] else [])
  }

  /**
   * The argument of parameter i (i >= 1), in closed form: a consuming
   * parameter of kind k is the n-th such, with n counted over the earlier
   * parameters; its count is counts[n] and its values start at the sum of
   * the earlier counts. None stands for the exception thrown by an index
   * out of range, a negative array length or a null ping-object list.
   */
  function ExpectedArg(m: Method, ps: seq<ParamInfo>, pings: Option<seq<Option<nat>>>, i: nat): Option<Arg>
    requires 1 <= i < |ps|
  {
    if ps[i].isOut then Some(Unset)
    else if Text.ToLower(ps[i].name) == PingObjectsName then
      (if pings.None? then Option.None else Some(PingList(References(pings.value))))
    else
      var key := KeyOf(ps[i].declared);
      var slots := SlotsOf(m, key.0);
      var n := Earlier(ps, i, key.0);
      if n >= |slots.0| then Option.None
      else
        var offset := SumTo(slots.0, n);
        var count := slots.0[n];
        if !key.1 then
          (if 0 <= offset < |slots.1| then Some(NullIfNull(slots.1[offset])) else Option.None)
        else if count < 0 then Option.None
        else
          var values := ReadArray(slots.1, offset, count);
          if values.None? then Option.None else Some(Array(values.value))
  }

  /** `count` consecutive values from `start`; an empty read succeeds wherever it starts. */
  function ReadArray(values: seq<Value>, start: int, count: nat): Option<seq<Value>>
  {
    if count == 0 then Some([])
    else if 0 <= start && start + count <= |values| then Some(values[start..start + count])
    else Option.None
  }

  /** The copy loop of DoMethod for an array parameter. */
  method CopyValues(values: seq<Value>, start: int, count: nat) returns (r: Option<seq<Value>>)
    ensures r == ReadArray(values, start, count)
  {
    var copied := [];
    var k := 0;
    while k < count
      invariant 0 <= k <= count
      invariant k > 0 ==> 0 <= start && start + k <= |values| && copied == values[start..start + k]
      invariant k == 0 ==> copied == []
    {
      var at := start + k;
      if !(0 <= at < |values|) {
        return Option.None;
      }
      copied := copied + [values[at]];
      k := k + 1;
    }
    r := Some(copied);
  }

  /** The cursors hold, for each kind, the number of parameters read so far and the running offset. */
  ghost predicate CursorsAt(m: Method, ps: seq<ParamInfo>, i: nat, index: map<ParamKind, nat>, offset: map<ParamKind, int>)
    requires i <= |ps|
  {
    forall k: ParamKind :: k in index && k in offset && index[k] == Earlier(ps, i, k) &&
      index[k] <= |SlotsOf(m, k).0| && offset[k] == SumTo(SlotsOf(m, k).0, index[k])
  }

  lemma FreshCursorsAt(m: Method, ps: seq<ParamInfo>, index: map<ParamKind, nat>, offset: map<ParamKind, int>)
    requires |ps| >= 1
    requires index == AssetClearanceUtil.FreshCursors() && offset == AssetClearanceUtil.FreshCursors()
    ensures CursorsAt(m, ps, 1, index, offset)
  {
    forall k: ParamKind
      ensures k in AssetClearanceUtil.FreshCursors() && AssetClearanceUtil.FreshCursors()[k] == 0
    {
      AssetClearanceUtil.FreshCursorsTotal(k);
    }
  }

  lemma SkipStep(m: Method, ps: seq<ParamInfo>, i: nat, index: map<ParamKind, nat>, offset: map<ParamKind, int>)
    requires 1 <= i < |ps| && !Consumes(ps[i]) && CursorsAt(m, ps, i, index, offset)
    ensures CursorsAt(m, ps, i + 1, index, offset)
  {
  }

  lemma DecodeStep(m: Method, ps: seq<ParamInfo>, i: nat, index: map<ParamKind, nat>, offset: map<ParamKind, int>, kind: ParamKind)
    requires 1 <= i < |ps| && Consumes(ps[i]) && KeyOf(ps[i].declared).0 == kind
    requires CursorsAt(m, ps, i, index, offset) && index[kind] < |SlotsOf(m, kind).0|
    ensures CursorsAt(m, ps, i + 1, index[kind := index[kind] + 1],
                      offset[kind := offset[kind] + SlotsOf(m, kind).0[index[kind]]])
  {
  }

  /**
   * Reads one consuming parameter at the cursors of its kind: the next
   * count, then one value (a scalar) or `count` values (an array) from the
   * running offset.
   */
  method ReadParameter(m: Method, ps: seq<ParamInfo>, pings: Option<seq<Option<nat>>>, i: nat,
                       index: map<ParamKind, nat>, offset: map<ParamKind, int>) returns (arg: Option<Arg>)
    requires 1 <= i < |ps| && Consumes(ps[i]) && CursorsAt(m, ps, i, index, offset)
    ensures arg == ExpectedArg(m, ps, pings, i)
    ensures arg.Some? ==> index[KeyOf(ps[i].declared).0] < |SlotsOf(m, KeyOf(ps[i].declared).0).0|
  {
    var key := KeyOf(ps[i].declared);
    var slots := SlotsOf(m, key.0);
    if index[key.0] >= |slots.0| {
      return Option.None;
    }
    var count := slots.0[index[key.0]];
    var start := offset[key.0];
    if !key.1 {
      if !(0 <= start < |slots.1|) {
        return Option.None;
      }
      return Some(NullIfNull(slots.1[start]));
    }
    if count < 0 {
      return Option.None;
    }
    var values := CopyValues(slots.1, start, count);
    arg := if values.None? then Option.None else Some(Array(values.value));
  }

  /** The argument for parameter i: null for `out`, the ping-object references, or a read from the layout. */
  method NextArg(m: Method, ps: seq<ParamInfo>, pings: Option<seq<Option<nat>>>, i: nat,
                 index: map<ParamKind, nat>, offset: map<ParamKind, int>) returns (arg: Option<Arg>)
    requires 1 <= i < |ps| && CursorsAt(m, ps, i, index, offset)
    ensures arg == ExpectedArg(m, ps, pings, i)
  {
    var p := ps[i];
    if p.isOut {
      arg := Some(Unset);
    } else if Text.ToLower(p.name) == PingObjectsName {
      arg := if pings.None? then Option.None else Some(PingList(References(pings.value)));
    } else {
      arg := ReadParameter(m, ps, pings, i, index, offset);
    }
  }

  /** Moves the cursors of the parameter's kind past a parameter that decoded. */
  method Advance(m: Method, ps: seq<ParamInfo>, pings: Option<seq<Option<nat>>>, i: nat,
                 index: map<ParamKind, nat>, offset: map<ParamKind, int>)
    returns (index': map<ParamKind, nat>, offset': map<ParamKind, int>)
    requires 1 <= i < |ps| && CursorsAt(m, ps, i, index, offset) && ExpectedArg(m, ps, pings, i).Some?
    ensures CursorsAt(m, ps, i + 1, index', offset')
  {
    var p := ps[i];
    if Consumes(p) {
      var kind := KeyOf(p.declared).0;
      var n := index[kind];
      DecodeStep(m, ps, i, index, offset, kind);
      index' := index[kind := n + 1];
      offset' := offset[kind := offset[kind] + SlotsOf(m, kind).0[n]];
    } else {
      SkipStep(m, ps, i, index, offset);
      index', offset' := index, offset;
    }
  }

  /** The arguments of parameters 0 .. n-1, or None when one of them throws. */
  function ExpectedArgs(m: Method, ps: seq<ParamInfo>, pings: Option<seq<Option<nat>>>, n: nat): Option<seq<Arg>>
    requires 1 <= n <= |ps|
  {
    if n == 1 then Some([Target])
    else
      var prev := ExpectedArgs(m, ps, pings, n - 1);
      var a := ExpectedArg(m, ps, pings, n - 1);
      if prev.None? || a.None? then Option.None else Some(prev.value + [a.value])
  }

  /** One more parameter that decodes extends the arguments by its own. */
  lemma ExpectedArgsSnoc(m: Method, ps: seq<ParamInfo>, pings: Option<seq<Option<nat>>>, i: nat, args: seq<Arg>, a: Arg)
    requires 1 <= i < |ps| && ExpectedArgs(m, ps, pings, i) == Some(args) && ExpectedArg(m, ps, pings, i) == Some(a)
    ensures ExpectedArgs(m, ps, pings, i + 1) == Some(args + [a])
  {
  }

  /** Once a parameter throws, decoding fails. */
  lemma {:induction false} DecodeFailsFrom(m: Method, ps: seq<ParamInfo>, pings: Option<seq<Option<nat>>>, i: nat)
    requires 1 <= i < |ps| && ExpectedArg(m, ps, pings, i).None?
    ensures ExpectedArgs(m, ps, pings, |ps|).None?
    decreases |ps| - i
  {
    ExpectedArgsClosedForm(m, ps, pings, |ps|);
  }

  /** ExpectedArgs succeeds exactly when every parameter decodes, and then lists each argument in place. */
  lemma {:induction false} ExpectedArgsClosedForm(m: Method, ps: seq<ParamInfo>, pings: Option<seq<Option<nat>>>, n: nat)
    requires 1 <= n <= |ps|
    ensures ExpectedArgs(m, ps, pings, n).Some? <==> forall i :: 1 <= i < n ==> ExpectedArg(m, ps, pings, i).Some?
    ensures ExpectedArgs(m, ps, pings, n).Some? ==>
              |ExpectedArgs(m, ps, pings, n).value| == n && ExpectedArgs(m, ps, pings, n).value[0] == Target
    ensures ExpectedArgs(m, ps, pings, n).Some? ==>
              forall i :: 1 <= i < n ==> ExpectedArgs(m, ps, pings, n).value[i] == ExpectedArg(m, ps, pings, i).value
  {
    if n > 1 {
      ExpectedArgsClosedForm(m, ps, pings, n - 1);
    }
  }

  /**
   * The parameter-decoding part of DoMethod: parameter 0 is the checked
   * object; the cursors start from the fresh counter dictionaries (one
   * counter per element type, shared by the scalar and the array type).
   */
  method DecodeParameters(m: Method, ps: seq<ParamInfo>, pings: Option<seq<Option<nat>>>) returns (r: Option<seq<Arg>>)
    requires |ps| >= 1
    ensures r == ExpectedArgs(m, ps, pings, |ps|)
  {
    var args := [Target];
    var index: map<ParamKind, nat> := AssetClearanceUtil.FreshCursors();
    var offset: map<ParamKind, int> := AssetClearanceUtil.FreshCursors();
    FreshCursorsAt(m, ps, index, offset);
    var i := 1;
    while i < |ps|
      invariant 1 <= i <= |ps| && |args| == i && args[0] == Target
      invariant CursorsAt(m, ps, i, index, offset)
      invariant ExpectedArgs(m, ps, pings, i) == Some(args)
    {
      var arg := NextArg(m, ps, pings, i, index, offset);
      if arg.None? {
        DecodeFailsFrom(m, ps, pings, i);
        return Option.None;
      }
      ExpectedArgsSnoc(m, ps, pings, i, args, arg.value);
      args := args + [arg.value];
      index, offset := Advance(m, ps, pings, i, index, offset);
      i := i + 1;
    }
    return Some(args);
  }

  /** DoMethod: decodes the parameters and invokes the check (or fix) method with them. */
  method DoMethod(m: Method, info: MethodInfo, pings: Option<seq<Option<nat>>>, invoke: (MethodInfo, seq<Arg>) -> bool)
    returns (r: Option<bool>)
    requires |info.parameters| >= 1
    ensures r.Some? <==> forall i :: 1 <= i < |info.parameters| ==> ExpectedArg(m, info.parameters, pings, i).Some?
    ensures var args := ExpectedArgs(m, info.parameters, pings, |info.parameters|);
      r == if args.None? then Option.None else Some(invoke(info, args.value))
  {
    var args := DecodeParameters(m, info.parameters, pings);
    ExpectedArgsClosedForm(m, info.parameters, pings, |info.parameters|);
    if args.None? {
      return Option.None;
    }
    r := Some(invoke(info, args.value));
  }

  // ---------------------------------------------------------------------
  // CheckCondition

  datatype Status = False | True | Ignored

  /** The checks GetMethods guarantees: every registered method takes the checked object first. */
  predicate Registered(methods: seq<MethodInfo>)
  {
    forall j :: 0 <= j < |methods| ==> |methods[j].parameters| >= 1
  }

  /**
   * CheckCondition: Ignored for an unknown method, a generic object type,
   * an object the method's first parameter does not accept, or a failed
   * object validation; otherwise the method's result, flipped by
   * `negation`. None is the exception DoMethod throws on a malformed
   * layout. `accepts` and `validation` stand for the type test and the
   * ObjectValidation attribute (None when the parameter has none);
   * `invoke` stands for the reflective call.
   */
  method CheckCondition(condition: Condition, methods: seq<MethodInfo>, objectIsGeneric: bool,
                        accepts: MethodInfo -> bool, validation: MethodInfo -> Option<bool>,
                        invoke: (MethodInfo, seq<Arg>) -> bool)
    returns (status: Option<Status>)
    requires Registered(methods) && condition.CacheFrom(methods)
    modifies condition`methodInfoCache
    ensures condition.CacheFrom(methods)
    ensures var info := FindByName(methods, condition.checkMethod.name);
      info.None? || objectIsGeneric || !accepts(info.value) || validation(info.value) == Some(false) ==>
        status == Some(Ignored)
    ensures var info := FindByName(methods, condition.checkMethod.name);
      info.Some? && !objectIsGeneric && accepts(info.value) && validation(info.value) != Some(false) ==>
        var args := ExpectedArgs(condition.checkMethod, info.value.parameters, Option.None, |info.value.parameters|);
        status == if args.None? then Option.None
                  else if invoke(info.value, args.value) != condition.negation then Some(True) else Some(False)
  {
    var info := condition.ValidateMethod(methods);
    if info.None? {
      return Some(Ignored);
    }
    if objectIsGeneric {
      return Some(Ignored);
    }
    if !accepts(info.value) {
      return Some(Ignored);
    }
    if validation(info.value) == Some(false) {
      return Some(Ignored);
    }
    var k := FindIndexByName(methods, condition.checkMethod.name);
    assert info.value == methods[k];
    var retval := DoMethod(condition.checkMethod, info.value, Option.None, invoke);
    if retval.None? {
      return Option.None;
    }
    var result := retval.value;
    if condition.negation {
      result := !result;
    }
    status := if result then Some(True) else Some(False);
  }

  // ---------------------------------------------------------------------
  // CheckConditions

  /** A log entry of a check: the log and its ping object (the result of TransformPingObject). */
  datatype Entry = Entry(log: AssetClearanceMethods.Log, ping: Option<AssetClearanceReports.PingObject>)

  /**
   * TransformPingObject: null when both the referencer and the object are
   * null, otherwise the ping object built from them (`make` stands for the
   * PingObject constructor, which reads the asset database).
   */
  function TransformPingObject(referencer: Option<nat>, obj: Option<nat>,
                               make: (Option<nat>, Option<nat>) -> AssetClearanceReports.PingObject)
    : (r: Option<AssetClearanceReports.PingObject>)
    ensures r.None? <==> referencer.None? && obj.None?
    ensures r.Some? ==> r.value == make(referencer, obj)
  {
    if referencer.None? && obj.None? then Option.None else Some(make(referencer, obj))
  }

  /** A condition as CheckConditions sees it: its priority, operator, the status CheckCondition returned and the logs it wrote. */
  datatype Evaluated = Evaluated(priority: int, op: LogicOperator, status: Status, logs: seq<Entry>)

  function Last<T>(s: seq<T>): T
    requires s != []
  {
    s[|s| - 1]
  }

  /** The blocks of a condition list: its maximal runs of consecutive conditions with equal priority. */
  function Blocks(cs: seq<Evaluated>): (bs: seq<seq<Evaluated>>)
    ensures cs == [] <==> bs == []
    ensures forall j :: 0 <= j < |bs| ==> bs[j] != []
    ensures cs != [] ==> Last(Last(bs)) == Last(cs)
  {
    if cs == [] then []
    else
      var init := Blocks(cs[..|cs| - 1]);
      var c := cs[|cs| - 1];
      if |cs| >= 2 && c.priority == cs[|cs| - 2].priority then init[..|init| - 1] + [Last(init) + [c]]
      else init + [[c]]
  }

  function Flatten<T>(bs: seq<seq<T>>): seq<T>
  {
    if bs == [] then [] else Flatten(bs[..|bs| - 1]) + Last(bs)
  }

  function Lengths<T>(bs: seq<seq<T>>): (r: seq<nat>)
    ensures |r| == |bs| && forall j :: 0 <= j < |bs| ==> r[j] == |bs[j]|
  {
    seq(|bs|, j requires 0 <= j < |bs| => |bs[j]|)
  }

  /** The blocks are non-empty, have one priority each, differ at each boundary and concatenate to the list. */
  ghost predicate IsBlocking(cs: seq<Evaluated>, bs: seq<seq<Evaluated>>)
  {
    Flatten(bs) == cs &&
    (forall j :: 0 <= j < |bs| ==> bs[j] != []) &&
    Uniform(bs) && Boundaries(bs)
  }

  /** One step of the definition of Blocks: the last condition joins the last block or opens a new one. */
  lemma BlocksLast(cs: seq<Evaluated>)
    requires cs != []
    ensures var init := Blocks(cs[..|cs| - 1]);
      if |cs| >= 2 && Last(cs).priority == cs[|cs| - 2].priority then
        init != [] && Blocks(cs) == init[..|init| - 1] + [Last(init) + [Last(cs)]]
      else Blocks(cs) == init + [[Last(cs)]]
  {
  }

  /** The blocks after the last condition joins the last block. */
  function Merge(init: seq<seq<Evaluated>>, c: Evaluated): seq<seq<Evaluated>>
    requires init != []
  {
    init[..|init| - 1] + [Last(init) + [c]]
  }

  lemma FlattenMerge(init: seq<seq<Evaluated>>, c: Evaluated)
    requires init != []
    ensures Flatten(Merge(init, c)) == Flatten(init) + [c]
  {
    var n := |init|;
    assert Merge(init, c)[..n - 1] == init[..n - 1];
  }

  lemma FlattenNew(init: seq<seq<Evaluated>>, c: Evaluated)
    ensures Flatten(init + [[c]]) == Flatten(init) + [c]
  {
    assert (init + [[c]])[..|init|] == init;
  }

  lemma {:induction false} BlocksFlatten(cs: seq<Evaluated>)
    ensures Flatten(Blocks(cs)) == cs
    decreases |cs|
  {
    if cs != [] {
      var front := cs[..|cs| - 1];
      assert cs == front + [Last(cs)];
      BlocksFlatten(front);
      BlocksLast(cs);
      if |cs| >= 2 && Last(cs).priority == cs[|cs| - 2].priority {
        FlattenMerge(Blocks(front), Last(cs));
      } else {
        FlattenNew(Blocks(front), Last(cs));
      }
    }
  }

  ghost predicate Uniform(bs: seq<seq<Evaluated>>)
  {
    forall j, k :: 0 <= j < |bs| && 0 <= k < |bs[j]| ==> bs[j][k].priority == bs[j][0].priority
  }

  ghost predicate Boundaries(bs: seq<seq<Evaluated>>)
    requires forall j :: 0 <= j < |bs| ==> bs[j] != []
  {
    forall j :: 0 < j < |bs| ==> bs[j][0].priority != Last(bs[j - 1]).priority
  }

  lemma UniformMerge(init: seq<seq<Evaluated>>, c: Evaluated)
    requires init != [] && Last(init) != [] && Uniform(init) && c.priority == Last(Last(init)).priority
    ensures Uniform(Merge(init, c))
  {
    var bs: seq<seq<Evaluated>> := Merge(init, c);
    var n := |init|;
    forall j, k | 0 <= j < |bs| && 0 <= k < |bs[j]|
      ensures bs[j][k].priority == bs[j][0].priority
    {
      if j < n - 1 {
        assert bs[j] == init[j];
      } else if k < |Last(init)| {
        assert bs[j][k] == Last(init)[k];
        assert bs[j][0] == Last(init)[0];
      } else {
        assert bs[j][0] == Last(init)[0];
        assert Last(init)[|Last(init)| - 1].priority == Last(init)[0].priority;
      }
    }
  }

  lemma UniformNew(init: seq<seq<Evaluated>>, c: Evaluated)
    requires Uniform(init)
    ensures Uniform(init + [[c]])
  {
    var bs: seq<seq<Evaluated>> := init + [[c]];
    forall j, k | 0 <= j < |bs| && 0 <= k < |bs[j]|
      ensures bs[j][k].priority == bs[j][0].priority
    {
      if j < |init| {
        assert bs[j] == init[j];
      }
    }
  }

  lemma {:induction false} BlocksUniform(cs: seq<Evaluated>)
    ensures Uniform(Blocks(cs))
    decreases |cs|
  {
    if cs != [] {
      var front := cs[..|cs| - 1];
      BlocksUniform(front);
      BlocksLast(cs);
      if |cs| >= 2 && Last(cs).priority == cs[|cs| - 2].priority {
        assert Last(Last(Blocks(front))) == Last(front) == cs[|cs| - 2];
        UniformMerge(Blocks(front), Last(cs));
      } else {
        UniformNew(Blocks(front), Last(cs));
      }
    }
  }

  lemma BoundariesMerge(init: seq<seq<Evaluated>>, c: Evaluated)
    requires init != [] && (forall j :: 0 <= j < |init| ==> init[j] != []) && Boundaries(init)
    ensures Boundaries(Merge(init, c))
  {
    var bs: seq<seq<Evaluated>> := Merge(init, c);
    forall j | 0 < j < |bs|
      ensures bs[j][0].priority != Last(bs[j - 1]).priority
    {
      assert bs[j - 1] == init[j - 1];
      assert bs[j][0] == init[j][0];
    }
  }

  lemma BoundariesNew(init: seq<seq<Evaluated>>, c: Evaluated)
    requires (forall j :: 0 <= j < |init| ==> init[j] != []) && Boundaries(init)
    requires init != [] ==> c.priority != Last(Last(init)).priority
    ensures Boundaries(init + [[c]])
  {
    var bs: seq<seq<Evaluated>> := init + [[c]];
    forall j | 0 < j < |bs|
      ensures bs[j][0].priority != Last(bs[j - 1]).priority
    {
      assert bs[j - 1] == init[j - 1];
      if j < |init| {
        assert bs[j] == init[j];
      }
    }
  }

  lemma {:induction false} BlocksBoundaries(cs: seq<Evaluated>)
    ensures Boundaries(Blocks(cs))
    decreases |cs|
  {
    if cs != [] {
      var front := cs[..|cs| - 1];
      BlocksBoundaries(front);
      BlocksLast(cs);
      if |cs| >= 2 && Last(cs).priority == cs[|cs| - 2].priority {
        BoundariesMerge(Blocks(front), Last(cs));
      } else {
        if front != [] {
          assert Last(Last(Blocks(front))) == Last(front) == cs[|cs| - 2];
        }
        BoundariesNew(Blocks(front), Last(cs));
      }
    }
  }

  lemma BlocksPartition(cs: seq<Evaluated>)
    ensures IsBlocking(cs, Blocks(cs))
  {
    BlocksFlatten(cs);
    BlocksUniform(cs);
    BlocksBoundaries(cs);
  }

  function Apply(op: LogicOperator, x: bool, y: bool): bool
  {
    match op
    case AND => x && y
    case OR => x || y
  }

  /**
   * The value of a block after its first n conditions: an Ignored first
   * condition counts as true; a later Ignored condition is skipped; any
   * other condition is combined with the operator of the condition before it.
   */
  function BlockValue(b: seq<Evaluated>, n: nat): bool
    requires 1 <= n <= |b|
  {
    if n == 1 then b[0].status != False
    else if b[n - 1].status == Ignored then BlockValue(b, n - 1)
    else Apply(b[n - 2].op, BlockValue(b, n - 1), b[n - 1].status == True)
  }

  /** The value of each block. */
  function Results(bs: seq<seq<Evaluated>>): (r: seq<bool>)
    requires forall j :: 0 <= j < |bs| ==> bs[j] != []
    ensures |r| == |bs|
  {
    if bs == [] then [] else Results(bs[..|bs| - 1]) + [BlockValue(Last(bs), |Last(bs)|)]
  }

  /** The operator of each block: that of its last condition. */
  function Ops(bs: seq<seq<Evaluated>>): (r: seq<LogicOperator>)
    requires forall j :: 0 <= j < |bs| ==> bs[j] != []
    ensures |r| == |bs|
  {
    if bs == [] then [] else Ops(bs[..|bs| - 1]) + [Last(Last(bs)).op]
  }

  /** Block results combined strictly left to right, each with the operator of the block before it. */
  function FoldBlocks(results: seq<bool>, ops: seq<LogicOperator>, n: nat): bool
    requires 1 <= n <= |results| == |ops|
  {
    if n == 1 then results[0] else Apply(ops[n - 2], FoldBlocks(results, ops, n - 1), results[n - 1])
  }

  function CountFirstIgnored(bs: seq<seq<Evaluated>>): (n: nat)
    requires forall j :: 0 <= j < |bs| ==> bs[j] != []
    ensures n <= |bs|
  {
    if bs == [] then 0 else CountFirstIgnored(bs[..|bs| - 1]) + (if Last(bs)[0].status == Ignored then 1 else 0)
  }

  lemma {:induction false} CountFirstIgnoredAll(bs: seq<seq<Evaluated>>)
    requires forall j :: 0 <= j < |bs| ==> bs[j] != []
    ensures CountFirstIgnored(bs) == |bs| <==> forall j :: 0 <= j < |bs| ==> bs[j][0].status == Ignored
  {
    if bs != [] {
      CountFirstIgnoredAll(bs[..|bs| - 1]);
      assert forall j :: 0 <= j < |bs| - 1 ==> bs[..|bs| - 1][j] == bs[j];
    }
  }

  /** The outcome of a condition list: Ignored when it is empty or every block starts with an Ignored condition. */
  function FinalStatus(cs: seq<Evaluated>): Status
  {
    if cs == [] then Ignored
    else
      var bs: seq<seq<Evaluated>> := Blocks(cs);
      if forall j :: 0 <= j < |bs| ==> bs[j][0].status == Ignored then Ignored
      else if FoldBlocks(Results(bs), Ops(bs), |bs|) then True
      else False
  }

  /** The log entries of the first n conditions whose status is s, in list order. */
  function LogsWith(cs: seq<Evaluated>, s: Status, n: nat): seq<Entry>
    requires n <= |cs|
  {
    if n == 0 then [] else LogsWith(cs, s, n - 1) + (if cs[n - 1].status == s then cs[n - 1].logs else [])
  }

  /** The entries reports are generated from: those of the conditions whose status is the final one. */
  function Selected(cs: seq<Evaluated>, outputReports: bool): seq<Entry>
  {
    var s := FinalStatus(cs);
    if outputReports && s != Ignored then LogsWith(cs, s, |cs|) else []
  }

  /** A block starts at position j when j is the first condition or its priority differs from the one before. */
  predicate IsStart(cs: seq<Evaluated>, j: nat)
    requires j < |cs|
  {
    j == 0 || cs[j].priority != cs[j - 1].priority
  }

  ghost predicate FirstsIgnored(bs: seq<seq<Evaluated>>)
    requires forall j :: 0 <= j < |bs| ==> bs[j] != []
  {
    forall j :: 0 <= j < |bs| ==> bs[j][0].status == Ignored
  }

  ghost predicate StartsIgnored(cs: seq<Evaluated>)
  {
    forall j :: 0 <= j < |cs| && IsStart(cs, j) ==> cs[j].status == Ignored
  }

  lemma FirstsMerge(init: seq<seq<Evaluated>>, c: Evaluated)
    requires init != [] && forall j :: 0 <= j < |init| ==> init[j] != []
    ensures FirstsIgnored(init[..|init| - 1] + [Last(init) + [c]]) <==> FirstsIgnored(init)
  {
    var bs := init[..|init| - 1] + [Last(init) + [c]];
    assert forall j :: 0 <= j < |bs| ==> bs[j][0] == init[j][0];
  }

  lemma FirstsNew(init: seq<seq<Evaluated>>, c: Evaluated)
    requires forall j :: 0 <= j < |init| ==> init[j] != []
    ensures FirstsIgnored(init + [[c]]) <==> FirstsIgnored(init) && c.status == Ignored
  {
    var bs: seq<seq<Evaluated>> := init + [[c]];
    assert forall j :: 0 <= j < |init| ==> bs[j] == init[j];
    assert bs[|init|][0] == c;
  }

  lemma StartsSnoc(cs: seq<Evaluated>)
    requires cs != []
    ensures StartsIgnored(cs) <==> StartsIgnored(cs[..|cs| - 1]) && (IsStart(cs, |cs| - 1) ==> Last(cs).status == Ignored)
  {
    var front := cs[..|cs| - 1];
    assert forall j :: 0 <= j < |front| ==> front[j] == cs[j] && (IsStart(front, j) <==> IsStart(cs, j));
  }

  /** Every block starts with an Ignored condition exactly when every start position holds one. */
  lemma {:induction false} FirstsAreStarts(cs: seq<Evaluated>)
    ensures FirstsIgnored(Blocks(cs)) <==> StartsIgnored(cs)
    decreases |cs|
  {
    if cs != [] {
      var front := cs[..|cs| - 1];
      var init: seq<seq<Evaluated>> := Blocks(front);
      var c := cs[|cs| - 1];
      FirstsAreStarts(front);
      StartsSnoc(cs);
      if |cs| >= 2 && c.priority == cs[|cs| - 2].priority {
        assert Blocks(cs) == init[..|init| - 1] + [Last(init) + [c]];
        FirstsMerge(init, c);
      } else {
        assert Blocks(cs) == init + [[c]];
        FirstsNew(init, c);
      }
    }
  }

  /**
   * The final status is Ignored exactly when the list is empty or every
   * condition that starts a block (the first one, or one whose priority
   * differs from its predecessor's) is Ignored.
   */
  lemma FinalIgnoredIff(cs: seq<Evaluated>)
    ensures FinalStatus(cs) == Ignored <==> cs == [] || StartsIgnored(cs)
  {
    FirstsAreStarts(cs);
  }

  /** A block joined by AND throughout, with no Ignored condition, is true iff all its conditions are true. */
  lemma {:induction false} AndBlock(b: seq<Evaluated>, n: nat)
    requires 1 <= n <= |b|
    requires forall t :: 0 <= t < n ==> b[t].status != Ignored
    requires forall t :: 0 <= t < n - 1 ==> b[t].op == AND
    ensures BlockValue(b, n) <==> forall t :: 0 <= t < n ==> b[t].status == True
  {
    if n > 1 {
      AndBlock(b, n - 1);
    }
  }

  /** A block joined by OR throughout, with no Ignored condition, is true iff one of its conditions is true. */
  lemma {:induction false} OrBlock(b: seq<Evaluated>, n: nat)
    requires 1 <= n <= |b|
    requires forall t :: 0 <= t < n ==> b[t].status != Ignored
    requires forall t :: 0 <= t < n - 1 ==> b[t].op == OR
    ensures BlockValue(b, n) <==> exists t :: 0 <= t < n && b[t].status == True
  {
    if n > 1 {
      OrBlock(b, n - 1);
      assert b[n - 1].status == True ==> exists t :: 0 <= t < n && b[t].status == True;
    }
  }

  /**
   * Blocks combine left to right without precedence: true OR true AND
   * false (three blocks) is false, where AND-before-OR would give true.
   */
  lemma NoPrecedence()
    ensures FinalStatus([Evaluated(1, OR, True, []), Evaluated(2, AND, True, []), Evaluated(3, AND, False, [])]) == False
  {
    var cs := [Evaluated(1, OR, True, []), Evaluated(2, AND, True, []), Evaluated(3, AND, False, [])];
    var b0, b1, b2 := [cs[0]], [cs[1]], [cs[2]];
    assert cs[..1] == [cs[0]] && cs[..2] == [cs[0], cs[1]] && cs[..2][..1] == [cs[0]];
    assert Blocks(cs[..1]) == [b0];
    assert Blocks(cs[..2]) == [b0, b1];
    var bs := [b0, b1, b2];
    assert Blocks(cs) == bs;
    assert bs[..2] == [b0, b1] && [b0, b1][..1] == [b0] && [b0][..0] == bs[..0];
    assert Results([b0]) == [true] && Ops([b0]) == [OR];
    assert Results([b0, b1]) == [true, true] && Ops([b0, b1]) == [OR, AND];
    assert Results(bs) == [true, true, false] && Ops(bs) == [OR, AND, AND];
  }

  /** Every entry of LogsWith(cs, s, n) is a log of one of the first n conditions, whose status is s. */
  lemma {:induction false} LogsWithSource(cs: seq<Evaluated>, s: Status, n: nat, e: Entry)
    requires n <= |cs| && e in LogsWith(cs, s, n)
    ensures exists j :: 0 <= j < n && cs[j].status == s && e in cs[j].logs
  {
    if e in LogsWith(cs, s, n - 1) {
      LogsWithSource(cs, s, n - 1, e);
    } else {
      assert cs[n - 1].status == s && e in cs[n - 1].logs;
    }
  }

  lemma BlockValueStep(b: seq<Evaluated>, k: nat)
    requires 1 <= k < |b|
    ensures BlockValue(b, k + 1) ==
              if b[k].status == Ignored then BlockValue(b, k) else Apply(b[k - 1].op, BlockValue(b, k), b[k].status == True)
  {
  }

  /**
   * One block of CheckConditions: the first condition (an Ignored one
   * counts as true), then each later non-Ignored condition combined with
   * the operator of the condition before it; the logs of True and False
   * conditions are collected in order.
   */
  method EvaluateBlock(conds: seq<Evaluated>, start: nat, count: nat, trueLogs: seq<Entry>, falseLogs: seq<Entry>)
    returns (value: bool, ignored: bool, trueLogs': seq<Entry>, falseLogs': seq<Entry>)
    requires 1 <= count && start + count <= |conds|
    requires trueLogs == LogsWith(conds, True, start) && falseLogs == LogsWith(conds, False, start)
    ensures value == BlockValue(conds[start..start + count], count)
    ensures ignored == (conds[start].status == Ignored)
    ensures trueLogs' == LogsWith(conds, True, start + count) && falseLogs' == LogsWith(conds, False, start + count)
  {
    ghost var b := conds[start..start + count];
    var first := conds[start];
    trueLogs', falseLogs' := trueLogs, falseLogs;
    if first.status == Ignored {
      ignored := true;
      value := true;
    } else {
      ignored := false;
      value := first.status == True;
      if value {
        trueLogs' := trueLogs' + first.logs;
      } else {
        falseLogs' := falseLogs' + first.logs;
      }
    }
    var k := 1;
    while k < count
      invariant 1 <= k <= count
      invariant value == BlockValue(b, k)
      invariant trueLogs' == LogsWith(conds, True, start + k) && falseLogs' == LogsWith(conds, False, start + k)
    {
      var next := conds[start + k];
      assert b[k] == next && b[k - 1] == conds[start + k - 1];
      BlockValueStep(b, k);
      if next.status != Ignored {
        var nextBool := next.status == True;
        if nextBool {
          trueLogs' := trueLogs' + next.logs;
        } else {
          falseLogs' := falseLogs' + next.logs;
        }
        match conds[start + k - 1].op
        case AND => value := value && nextBool;
        case OR => value := value || nextBool;
      }
      k := k + 1;
    }
  }

  lemma {:induction false} FlattenAppend<T>(a: seq<seq<T>>, b: seq<seq<T>>)
    ensures Flatten(a + b) == Flatten(a) + Flatten(b)
    decreases |b|
  {
    if b == [] {
      assert a + b == a;
    } else {
      assert (a + b)[..|a + b| - 1] == a + b[..|b| - 1];
      FlattenAppend(a, b[..|b| - 1]);
    }
  }

  /** Block i of a blocking starts where the blocks before it end. */
  lemma BlockSlice(conds: seq<Evaluated>, bs: seq<seq<Evaluated>>, i: nat)
    requires Flatten(bs) == conds && i < |bs|
    ensures var at := |Flatten(bs[..i])|;
      at + |bs[i]| <= |conds| && conds[at..at + |bs[i]|] == bs[i] && |Flatten(bs[..i + 1])| == at + |bs[i]|
  {
    assert bs[..i + 1][..i] == bs[..i];
    assert Flatten(bs[..i + 1]) == Flatten(bs[..i]) + bs[i];
    assert bs == bs[..i + 1] + bs[i + 1..];
    FlattenAppend(bs[..i + 1], bs[i + 1..]);
  }

  /** The count sequence with its last element increased by one. */
  function Bump(counts: seq<nat>): seq<nat>
    requires counts != []
  {
    counts[|counts| - 1 := counts[|counts| - 1] + 1]
  }

  /** The block lengths as the first loop of CheckConditions counts them. */
  lemma CountStep(cs: seq<Evaluated>, counts: seq<nat>)
    requires 2 <= |cs| && counts == Lengths(Blocks(cs[..|cs| - 1]))
    ensures counts != []
    ensures Lengths(Blocks(cs)) ==
              Bump(if Last(cs).priority == cs[|cs| - 2].priority then counts else counts + [0])
  {
    BlocksLast(cs);
    var init := Blocks(cs[..|cs| - 1]);
    if Last(cs).priority == cs[|cs| - 2].priority {
      LengthsMerge(init, Last(cs), counts);
    } else {
      LengthsNew(init, Last(cs), counts);
    }
  }

  lemma LengthsMerge(init: seq<seq<Evaluated>>, c: Evaluated, counts: seq<nat>)
    requires init != [] && counts == Lengths(init)
    ensures Lengths(init[..|init| - 1] + [Last(init) + [c]]) == Bump(counts)
  {
    var bs := init[..|init| - 1] + [Last(init) + [c]];
    assert forall j :: 0 <= j < |init| - 1 ==> bs[j] == init[j];
  }

  lemma LengthsNew(init: seq<seq<Evaluated>>, c: Evaluated, counts: seq<nat>)
    requires counts == Lengths(init)
    ensures Lengths(init + [[c]]) == Bump(counts + [0])
  {
    var bs: seq<seq<Evaluated>> := init + [[c]];
    assert forall j :: 0 <= j < |init| ==> bs[j] == init[j];
    assert bs[|init|][0] == c;
  }

  function LogTypeFor(rule: Rule, status: Status): LogType
  {
    if status == True then rule.trueLogType else if status == False then rule.falseLogType else LogType.None
  }

  /**
   * The fields GenerateReport fills: log, order and group come from the
   * entry when the log type is not None; otherwise they keep the report's
   * defaults "", 0 and 0.
   */
  ghost predicate ReportFor(report: AssetClearanceReports.Report, rules: nat, rule: Rule, status: Status,
                            e: Entry, assetPath: string, group: int)
    reads report
  {
    var logged := LogTypeFor(rule, status) != LogType.None;
    report.rules == rules && report.ruleName == rule.name.GetOr("") && report.assetPath == assetPath &&
    report.pingObject == e.ping && report.logType == LogTypeFor(rule, status) &&
    report.log == Some(if logged then e.log.content else "") &&
    report.logOrder == (if logged then e.log.order else 0) && report.group == (if logged then group else 0)
  }

  /**
   * GenerateReport: the log type is the rule's trueLogType for True, its
   * falseLogType for False and None otherwise; log, order and group are
   * filled only when the type is not None (else the log stays "", never
   * null), and the fix method, notice and help URL only for Error.
   */
  method GenerateReport(rules: nat, rule: Rule, status: Status, log: AssetClearanceMethods.Log,
                        ping: Option<AssetClearanceReports.PingObject>, assetPath: string, group: int)
    returns (report: AssetClearanceReports.Report)
    ensures report.rules == rules && report.ruleName == rule.name.GetOr("") && report.assetPath == assetPath
    ensures report.pingObject == ping && report.logType == LogTypeFor(rule, status)
    ensures report.logType == LogType.None ==> report.log == Some("") && report.logOrder == 0 && report.group == 0
    ensures ReportFor(report, rules, rule, status, Entry(log, ping), assetPath, group)
    ensures report.logType == Error ==> report.fixMethod == Some(rule.fixMethod)
    ensures report.logType == Error ==> report.fixNotice == rule.fixNotice.GetOr("") && report.helpURL == rule.helpURL.GetOr("")
    ensures report.logType != Error ==> report.fixMethod.None? && report.fixNotice == "" && report.helpURL == ""
  {
    var logType := LogTypeFor(rule, status);
    var content: Option<string> := Some("");
    var order := 0;
    var fixMethod: Option<Method> := Option.None;
    var fixNotice := "";
    var helpURL := "";
    var reportGroup := 0;
    if logType != LogType.None {
      content := Some(log.content);
      order := log.order;
      if logType == Error {
        fixMethod := Some(rule.fixMethod);
        fixNotice := rule.fixNotice.GetOr("");
        helpURL := rule.helpURL.GetOr("");
      }
      reportGroup := group;
    }
    report := new AssetClearanceReports.Report(rules, rule.name.GetOr(""), assetPath, ping, content, logType, order,
                                               fixMethod, fixNotice, helpURL, reportGroup);
  }

  lemma BlocksStep(bs: seq<seq<Evaluated>>, i: nat)
    requires forall j :: 0 <= j < |bs| ==> bs[j] != []
    requires i < |bs|
    ensures Results(bs[..i + 1]) == Results(bs[..i]) + [BlockValue(bs[i], |bs[i]|)]
    ensures Ops(bs[..i + 1]) == Ops(bs[..i]) + [Last(bs[i]).op]
    ensures CountFirstIgnored(bs[..i + 1]) == CountFirstIgnored(bs[..i]) + if bs[i][0].status == Ignored then 1 else 0
  {
    assert bs[..i + 1][..i] == bs[..i];
  }

  /** The state of the second loop of CheckConditions after the first i blocks, which end at condition `at`. */
  ghost predicate Progress(conds: seq<Evaluated>, bs: seq<seq<Evaluated>>, i: nat, at: nat,
                           results: seq<bool>, ops: seq<LogicOperator>, ignoredCount: nat,
                           trueLogs: seq<Entry>, falseLogs: seq<Entry>)
  {
    Flatten(bs) == conds && (forall j :: 0 <= j < |bs| ==> bs[j] != []) &&
    i <= |bs| && at == |Flatten(bs[..i])| <= |conds| &&
    results == Results(bs[..i]) && ops == Ops(bs[..i]) && ignoredCount == CountFirstIgnored(bs[..i]) &&
    trueLogs == LogsWith(conds, True, at) && falseLogs == LogsWith(conds, False, at)
  }

  /** Block i occupies the conditions from `at` on. */
  lemma BlockAt(conds: seq<Evaluated>, bs: seq<seq<Evaluated>>, i: nat, at: nat,
                results: seq<bool>, ops: seq<LogicOperator>, ignoredCount: nat,
                trueLogs: seq<Entry>, falseLogs: seq<Entry>)
    requires Progress(conds, bs, i, at, results, ops, ignoredCount, trueLogs, falseLogs) && i < |bs|
    ensures 1 <= |bs[i]| && at + |bs[i]| <= |conds|
  {
    BlockSlice(conds, bs, i);
  }

  /** How the second loop of CheckConditions moves from block i to block i + 1. */
  lemma BlockAdvance(conds: seq<Evaluated>, bs: seq<seq<Evaluated>>, i: nat, at: nat,
                     results: seq<bool>, ops: seq<LogicOperator>, ignoredCount: nat,
                     trueLogs: seq<Entry>, falseLogs: seq<Entry>,
                     at': nat, results': seq<bool>, ops': seq<LogicOperator>, ignoredCount': nat,
                     trueLogs': seq<Entry>, falseLogs': seq<Entry>)
    requires Progress(conds, bs, i, at, results, ops, ignoredCount, trueLogs, falseLogs) && i < |bs|
    requires at' == at + |bs[i]| <= |conds|
    requires results' == results + [BlockValue(conds[at..at'], |bs[i]|)] && ops' == ops + [conds[at' - 1].op]
    requires ignoredCount' == ignoredCount + if conds[at].status == Ignored then 1 else 0
    requires trueLogs' == LogsWith(conds, True, at') && falseLogs' == LogsWith(conds, False, at')
    ensures Progress(conds, bs, i + 1, at', results', ops', ignoredCount', trueLogs', falseLogs')
  {
    BlockSlice(conds, bs, i);
    BlocksStep(bs, i);
    assert bs[i][0] == conds[at] && Last(bs[i]) == conds[at + |bs[i]| - 1];
  }

  /** The first loop of CheckConditions: the length of each run of equal priorities. */
  method CountBlocks(conds: seq<Evaluated>) returns (blockCounts: seq<nat>)
    requires conds != []
    ensures blockCounts == Lengths(Blocks(conds))
  {
    blockCounts := [1];
    assert conds[..1] == [conds[0]];
    var i := 1;
    while i < |conds|
      invariant 1 <= i <= |conds|
      invariant blockCounts == Lengths(Blocks(conds[..i]))
    {
      assert conds[..i + 1][..i] == conds[..i] && Last(conds[..i + 1]) == conds[i] && conds[..i + 1][i - 1] == conds[i - 1];
      CountStep(conds[..i + 1], blockCounts);
      if conds[i].priority != conds[i - 1].priority {
        blockCounts := blockCounts + [0];
      }
      blockCounts := Bump(blockCounts);
      i := i + 1;
    }
    assert conds[..i] == conds;
  }

  /**
   * The second loop of CheckConditions: each block's result, the operator
   * of its last condition, how many blocks start Ignored, and the logs of
   * the True and the False conditions.
   */
  method EvaluateBlocks(conds: seq<Evaluated>, ghost bs: seq<seq<Evaluated>>, blockCounts: seq<nat>)
    returns (blockResults: seq<bool>, blockOperators: seq<LogicOperator>, ignoredCount: nat,
             trueLogs: seq<Entry>, falseLogs: seq<Entry>)
    requires Flatten(bs) == conds && (forall j :: 0 <= j < |bs| ==> bs[j] != []) && blockCounts == Lengths(bs)
    ensures blockResults == Results(bs) && blockOperators == Ops(bs)
    ensures ignoredCount == CountFirstIgnored(bs)
    ensures trueLogs == LogsWith(conds, True, |conds|) && falseLogs == LogsWith(conds, False, |conds|)
  {
    blockResults, blockOperators, ignoredCount := [], [], 0;
    trueLogs, falseLogs := [], [];
    var conditionIndex := 0;
    var i := 0;
    while i < |blockCounts|
      invariant |blockCounts| == |bs| && i <= |bs|
      invariant Progress(conds, bs, i, conditionIndex, blockResults, blockOperators, ignoredCount, trueLogs, falseLogs)
    {
      assert blockCounts[i] == |bs[i]|;
      BlockAt(conds, bs, i, conditionIndex, blockResults, blockOperators, ignoredCount, trueLogs, falseLogs);
      ghost var at, results, ops, ignoredBefore, trueBefore, falseBefore :=
        conditionIndex, blockResults, blockOperators, ignoredCount, trueLogs, falseLogs;
      var value, ignored;
      value, ignored, trueLogs, falseLogs := EvaluateBlock(conds, conditionIndex, blockCounts[i], trueLogs, falseLogs);
      if ignored {
        ignoredCount := ignoredCount + 1;
      }
      blockResults := blockResults + [value];
      conditionIndex := conditionIndex + blockCounts[i];
      blockOperators := blockOperators + [conds[conditionIndex - 1].op];
      BlockAdvance(conds, bs, i, at, results, ops, ignoredBefore, trueBefore, falseBefore,
                   conditionIndex, blockResults, blockOperators, ignoredCount, trueLogs, falseLogs);
      i := i + 1;
    }
    assert bs[..i] == bs;
  }

  /** The third loop of CheckConditions: the block results combined left to right. */
  method CombineBlocks(blockResults: seq<bool>, blockOperators: seq<LogicOperator>) returns (result: bool)
    requires 1 <= |blockResults| == |blockOperators|
    ensures result == FoldBlocks(blockResults, blockOperators, |blockResults|)
  {
    result := blockResults[0];
    var k := 0;
    while k < |blockOperators| - 1
      invariant 0 <= k <= |blockOperators| - 1
      invariant result == FoldBlocks(blockResults, blockOperators, k + 1)
    {
      match blockOperators[k] {
        case AND => result := result && blockResults[k + 1];
        case OR => result := result || blockResults[k + 1];
      }
      k := k + 1;
    }
  }

  /** The final status from the block results, as CheckConditions computes it after its fold. */
  lemma FinalStatusOf(conds: seq<Evaluated>, blockResults: seq<bool>, blockOperators: seq<LogicOperator>,
                      ignoredCount: nat, result: bool)
    requires conds != []
    requires blockResults == Results(Blocks(conds)) && blockOperators == Ops(Blocks(conds))
    requires ignoredCount == CountFirstIgnored(Blocks(conds))
    requires result == FoldBlocks(blockResults, blockOperators, |blockResults|)
    ensures FinalStatus(conds) == if ignoredCount == |blockResults| then Ignored else if result then True else False
  {
    CountFirstIgnoredAll(Blocks(conds));
  }

  /**
   * The last loop of CheckConditions: one report per log entry, kept when
   * its log is not null, which GenerateReport never leaves, so every entry
   * gives a report.
   */
  method GenerateReports(rules: nat, rule: Rule, status: Status, logs: seq<Entry>, assetPath: string, reportGroup: int)
    returns (reports: seq<AssetClearanceReports.Report>)
    ensures |reports| == |logs|
    ensures forall t :: 0 <= t < |reports| ==> ReportFor(reports[t], rules, rule, status, logs[t], assetPath, reportGroup)
  {
    reports := [];
    var j := 0;
    while j < |logs|
      invariant 0 <= j <= |logs|
      invariant |reports| == j
      invariant forall t :: 0 <= t < |reports| ==> ReportFor(reports[t], rules, rule, status, logs[t], assetPath, reportGroup)
    {
      var report := GenerateReport(rules, rule, status, logs[j].log, logs[j].ping, assetPath, reportGroup);
      if report.log.Some? {
        reports := reports + [report];
      }
      j := j + 1;
    }
  }

  /**
   * CheckConditions over the evaluated conditions: the blocks' results
   * folded left to right with each block's last operator; Ignored when
   * every block starts with an Ignored condition; with `outputReports`, a
   * report for each log of a condition whose status is the final one (the
   * null-log filter keeps them all).
   */
  method CheckConditions(outputReports: bool, rules: nat, rule: Rule, assetPath: string,
                         conds: seq<Evaluated>, reportGroup: int)
    returns (status: Status, reports: seq<AssetClearanceReports.Report>)
    ensures status == FinalStatus(conds)
    ensures |reports| == |Selected(conds, outputReports)|
    ensures forall j :: 0 <= j < |reports| ==>
              ReportFor(reports[j], rules, rule, status, Selected(conds, outputReports)[j], assetPath, reportGroup)
  {
    reports := [];
    if |conds| == 0 {
      return Ignored, [];
    }
    var blockCounts := CountBlocks(conds);
    BlocksFlatten(conds);
    var blockResults, blockOperators, ignoredCount, trueLogs, falseLogs := EvaluateBlocks(conds, Blocks(conds), blockCounts);
    var result := CombineBlocks(blockResults, blockOperators);
    FinalStatusOf(conds, blockResults, blockOperators, ignoredCount, result);
    status := if ignoredCount == |blockResults| then Ignored else if result then True else False;
    if outputReports && status != Ignored {
      reports := GenerateReports(rules, rule, status, if status == True then trueLogs else falseLogs, assetPath, reportGroup);
    }
  }

  // ---------------------------------------------------------------------
  // Target scope

  /** The components of a '/'-separated path. */
  function Components(path: string): seq<string>
  {
    Text.Split(path, '/')
  }

  predicate IsSeqPrefix<T(==)>(p: seq<T>, s: seq<T>)
  {
    |p| <= |s| && s[..|p|] == p
  }

  /**
   * The folder test of IsInTargetScope as written: `directory` starts with
   * `folder` as a string, so "Assets/Foo" counts as inside "Assets/Fo".
   */
  predicate InFolderAsWritten(directory: string, folder: string)
  {
    Text.IsPrefix(folder, directory)
  }

  /** The folder test as intended: `directory` is `folder` or lies below it. */
  predicate InFolder(directory: string, folder: string)
  {
    directory == folder || Text.IsPrefix(folder + "/", directory)
  }

  /**
   * IsInTargetScope with a given folder test: the rules' own folder (deep
   * or current only), then each specific object, a folder when it is a
   * DefaultAsset, else the asset itself.
   */
  predicate InScope(path: string, rulesPath: string, rules: Rules, assetPathOf: Option<nat> -> string,
                    isFolderAsset: Option<nat> -> bool, inFolder: (string, string) -> bool)
  {
    var directory := AssetClearanceUtil.DirectoryName(path);
    var rulesFolder := AssetClearanceUtil.DirectoryName(rulesPath);
    (rules.targetScope == DeepInCurrentFolder && inFolder(directory, rulesFolder)) ||
    (rules.targetScope == CurrentFolder && directory == rulesFolder) ||
    exists j :: 0 <= j < |rules.specificObjects| &&
      ((isFolderAsset(rules.specificObjects[j]) &&
        inFolder(directory, AssetClearanceUtil.DirectoryName(assetPathOf(rules.specificObjects[j]) + "/"))) ||
       path == assetPathOf(rules.specificObjects[j]))
  }

  predicate IsInTargetScopeAsWritten(path: string, rulesPath: string, rules: Rules,
                                     assetPathOf: Option<nat> -> string, isFolderAsset: Option<nat> -> bool)
  {
    InScope(path, rulesPath, rules, assetPathOf, isFolderAsset, InFolderAsWritten)
  }

  predicate IsInTargetScope(path: string, rulesPath: string, rules: Rules,
                            assetPathOf: Option<nat> -> string, isFolderAsset: Option<nat> -> bool)
  {
    InScope(path, rulesPath, rules, assetPathOf, isFolderAsset, InFolder)
  }

  /**
   * Rules kept in `folder` reach an asset in a sibling folder whose name
   * extends it ("Assets/Fo" and "Assets/Foo") as written, and not as intended.
   */
  lemma SiblingFolderInScope(folder: string, extra: string, file: string, rulesFile: string,
                             assetPathOf: Option<nat> -> string, isFolderAsset: Option<nat> -> bool)
    requires extra != [] && extra[0] != '/' && '/' !in file && '/' !in rulesFile
    ensures var path, rulesPath := folder + extra + "/" + file, folder + "/" + rulesFile;
      IsInTargetScopeAsWritten(path, rulesPath, NewRules(), assetPathOf, isFolderAsset) &&
      !IsInTargetScope(path, rulesPath, NewRules(), assetPathOf, isFolderAsset)
  {
    var directory := folder + extra;
    assert folder + extra + "/" + file == directory + "/" + file;
    AssetClearanceUtil.DirectoryNameOf(directory, file);
    AssetClearanceUtil.DirectoryNameOf(folder, rulesFile);
    assert directory[..|folder|] == folder;
    assert directory[|folder|] != (folder + "/")[|folder|];
  }

  /** The intended folder test agrees with the string one and is strictly stronger. */
  lemma InFolderImpliesAsWritten(directory: string, folder: string)
    ensures InFolder(directory, folder) ==> InFolderAsWritten(directory, folder)
  {
    if Text.IsPrefix(folder + "/", directory) {
      assert directory[..|folder|] == (folder + "/")[..|folder|];
    }
  }

  lemma SplitNoSep(s: string, sep: char)
    requires sep !in s
    ensures Text.Split(s, sep) == [s]
  {
  }

  lemma SplitAt(s: string, sep: char, k: nat)
    requires k < |s| && s[k] == sep && sep !in s[..k]
    ensures Text.Split(s, sep) == [s[..k]] + Text.Split(s[k + 1..], sep)
  {
    var j := Text.FirstIndex(s, sep);
    assert s[..k][..j] == s[..j];
  }

  /** The first '/' of a + "/" + rest is at |a| when a has none. */
  lemma FirstSlash(a: string, rest: string)
    requires '/' !in a
    ensures var b := a + "/" + rest; '/' in b && Text.FirstIndex(b, '/') == |a|
  {
    var b := a + "/" + rest;
    assert b[|a|] == '/';
    assert b[..|a|] == a;
    SplitAt(b, '/', |a|);
  }

  /**
   * The intended folder test is component-wise: `directory` is in `folder`
   * exactly when the components of `folder` begin the components of
   * `directory`.
   */
  lemma {:induction false} InFolderByComponents(directory: string, folder: string)
    ensures InFolder(directory, folder) <==> IsSeqPrefix(Components(folder), Components(directory))
    decreases |folder|
  {
    if '/' !in folder {
      OneComponent(directory, folder);
    } else {
      var k := Text.FirstIndex(folder, '/');
      var a0, a1 := folder[..k], folder[k + 1..];
      assert folder == a0 + "/" + a1;
      if '/' in directory && directory[..Text.FirstIndex(directory, '/')] == a0 {
        var j := Text.FirstIndex(directory, '/');
        var b1 := directory[j + 1..];
        assert directory == a0 + "/" + b1;
        InFolderByComponents(b1, a1);
        SameHead(a0, a1, b1);
      } else {
        DifferentHead(directory, a0, a1);
      }
    }
  }

  lemma OneComponent(b: string, a: string)
    requires '/' !in a
    ensures InFolder(b, a) <==> IsSeqPrefix(Components(a), Components(b))
  {
    assert Components(a) == [a];
    if Text.IsPrefix(a + "/", b) {
      var rest := b[|a| + 1..];
      assert b == a + "/" + rest;
      FirstSlash(a, rest);
      assert Components(b)[0] == a;
    }
    if IsSeqPrefix(Components(a), Components(b)) && b != a {
      assert '/' in b;
      var j := Text.FirstIndex(b, '/');
      assert b[..j] == a;
      assert b[..|a| + 1] == a + "/";
    }
  }

  lemma SameHead(a0: string, a1: string, b1: string)
    requires '/' !in a0
    requires InFolder(b1, a1) <==> IsSeqPrefix(Components(a1), Components(b1))
    ensures InFolder(a0 + "/" + b1, a0 + "/" + a1) <==> IsSeqPrefix(Components(a0 + "/" + a1), Components(a0 + "/" + b1))
  {
    ComponentsCons(a0, a1);
    ComponentsCons(a0, b1);
    SeqPrefixCons(a0, Components(a1), Components(b1));
    assert a0 + "/" + a1 + "/" == (a0 + "/") + (a1 + "/");
    assert a0 + "/" + b1 == (a0 + "/") + b1;
    PrefixCancel(a0 + "/", a1 + "/", b1);
    assert a0 + "/" + b1 == a0 + "/" + a1 <==> b1 == a1 by {
      if a0 + "/" + b1 == a0 + "/" + a1 {
        assert b1 == (a0 + "/" + b1)[|a0| + 1..];
      }
    }
  }

  /** The components of a0 + "/" + rest, when a0 has no '/': a0, then those of rest. */
  lemma ComponentsCons(a0: string, rest: string)
    requires '/' !in a0
    ensures Components(a0 + "/" + rest) == [a0] + Components(rest)
  {
    var a := a0 + "/" + rest;
    FirstSlash(a0, rest);
    assert a[..|a0|] == a0 && a[|a0| + 1..] == rest;
  }

  /** One common first element does not change which sequence begins the other. */
  lemma SeqPrefixCons<T>(x: T, p: seq<T>, s: seq<T>)
    ensures IsSeqPrefix([x] + p, [x] + s) <==> IsSeqPrefix(p, s)
  {
    if IsSeqPrefix(p, s) {
      assert ([x] + s)[..|[x] + p|] == [x] + s[..|p|];
    }
    if IsSeqPrefix([x] + p, [x] + s) {
      assert s[..|p|] == ([x] + s)[1..|[x] + p|];
    }
  }

  /** A common front does not change whether one string begins another. */
  lemma PrefixCancel(u: string, p: string, s: string)
    ensures Text.IsPrefix(u + p, u + s) <==> Text.IsPrefix(p, s)
  {
    if Text.IsPrefix(p, s) {
      assert (u + s)[..|u + p|] == u + s[..|p|];
    }
    if Text.IsPrefix(u + p, u + s) {
      assert s[..|p|] == (u + s)[|u|..|u + p|];
    }
  }

  lemma DifferentHead(b: string, a0: string, a1: string)
    requires '/' !in a0
    requires !('/' in b && b[..Text.FirstIndex(b, '/')] == a0)
    ensures !InFolder(b, a0 + "/" + a1) && !IsSeqPrefix(Components(a0 + "/" + a1), Components(b))
  {
    var a := a0 + "/" + a1;
    FirstSlash(a0, a1);
    assert a[..|a0|] == a0;
    DifferentHeadFolder(b, a0, a);
    DifferentHeadComponents(b, a0, a1);
  }

  lemma DifferentHeadComponents(b: string, a0: string, a1: string)
    requires '/' !in a0
    requires !('/' in b && b[..Text.FirstIndex(b, '/')] == a0)
    ensures !IsSeqPrefix(Components(a0 + "/" + a1), Components(b))
  {
    ComponentsCons(a0, a1);
    if '/' in b {
      assert Components(b)[0] == b[..Text.FirstIndex(b, '/')];
    } else {
      assert Components(b) == [b];
    }
  }

  lemma DifferentHeadFolder(b: string, a0: string, a: string)
    requires '/' !in a0 && Text.IsPrefix(a0 + "/", a)
    requires !('/' in b && b[..Text.FirstIndex(b, '/')] == a0)
    ensures !InFolder(b, a)
  {
    if InFolder(b, a) {
      assert b[..|a0| + 1] == a0 + "/" by {
        if b == a {
        } else {
          assert b[..|a0| + 1] == b[..|a| + 1][..|a0| + 1];
        }
      }
      assert b == a0 + "/" + b[|a0| + 1..];
      FirstSlash(a0, b[|a0| + 1..]);
    }
  }

  // ---------------------------------------------------------------------
  // IsFileIgnorable

  /** The extensions of the files ClearPath skips. */
  const IgnoredExtensions: seq<string> := ["meta", "cs", "lua", "txt", "xml", "json"]

  /**
   * The regular-expression alternative `.ext$` as written: an unescaped
   * dot (any character but a line feed) before `ext`, at the end of the
   * text or just before a final line feed.
   */
  predicate EndsWithAnyCharThen(s: string, ext: string)
  {
    (|ext| + 1 <= |s| && Text.IsSuffix(ext, s) && s[|s| - |ext| - 1] != '\n') ||
    (|ext| + 2 <= |s| && Text.IsSuffix(ext + "\n", s) && s[|s| - |ext| - 2] != '\n')
  }

  /** IsFileIgnorable as written: `.meta$|.cs$|.lua$|.txt$|.xml$|.json$|\.svn|\.git`. */
  predicate IsFileIgnorableAsWritten(path: string)
  {
    (exists j :: 0 <= j < |IgnoredExtensions| && EndsWithAnyCharThen(path, IgnoredExtensions[j])) ||
    Text.Contains(path, ".svn") || Text.Contains(path, ".git")
  }

  /** IsFileIgnorable as intended: one of the extensions after a literal dot, or inside a .svn or .git folder. */
  predicate IsFileIgnorable(path: string)
  {
    (exists j :: 0 <= j < |IgnoredExtensions| && Text.IsSuffix("." + IgnoredExtensions[j], path)) ||
    Text.Contains(path, ".svn") || Text.Contains(path, ".git")
  }

  /** Every file skipped as intended is also skipped as written. */
  lemma IgnorableImpliesAsWritten(path: string)
    ensures IsFileIgnorable(path) ==> IsFileIgnorableAsWritten(path)
  {
    if j :| 0 <= j < |IgnoredExtensions| && Text.IsSuffix("." + IgnoredExtensions[j], path) {
      var ext := IgnoredExtensions[j];
      assert path[|path| - |ext|..] == path[|path| - |ext| - 1..][1..];
      assert path[|path| - |ext| - 1] == '.';
      assert EndsWithAnyCharThen(path, ext);
    }
  }

  /** A file named `<name>.<ext>` with one of the extensions is skipped, whatever the name. */
  lemma ExtensionIgnorable(name: string, j: nat)
    requires j < |IgnoredExtensions|
    ensures IsFileIgnorable(name + "." + IgnoredExtensions[j])
  {
    var path := name + "." + IgnoredExtensions[j];
    assert path[|path| - |"." + IgnoredExtensions[j]|..] == "." + IgnoredExtensions[j];
  }

  /** A text with no two consecutive characters p[0] p[1] does not contain p. */
  lemma NotContains(s: string, p: string)
    requires |p| >= 2
    requires forall k :: 0 <= k < |s| - 1 ==> !(s[k] == p[0] && s[k + 1] == p[1])
    ensures !Text.Contains(s, p)
  {
    forall k: nat | k <= |s|
      ensures !Text.OccursAt(p, s, k)
    {
      if k + |p| <= |s| {
        assert s[k..k + |p|][0] == s[k] && s[k..k + |p|][1] == s[k + 1];
      }
    }
  }

  /** The UI Toolkit document "UI/a.uxml" ends in "uxml", which `.xml$` matches as written. */
  lemma UxmlSkippedAsWritten()
    ensures IsFileIgnorableAsWritten("UI/a.uxml")
    ensures !IsFileIgnorable("UI/a.uxml")
  {
    var s := "UI/a.uxml";
    assert IgnoredExtensions[4] == "xml";
    assert s[|s| - 3..] == "xml";
    assert EndsWithAnyCharThen(s, IgnoredExtensions[4]);
    NotContains(s, ".svn");
    NotContains(s, ".git");
    forall j | 0 <= j < |IgnoredExtensions|
      ensures !Text.IsSuffix("." + IgnoredExtensions[j], s)
    {
      var e := "." + IgnoredExtensions[j];
      if |e| <= |s| {
        assert s[|s| - |e|..][0] != e[0] || s[|s| - |e|..][1] != e[1];
      }
    }
  }

  // ---------------------------------------------------------------------
  // Fix

  /** The references of the reports' ping objects, in order; null for a report without one. */
  function PingReferences(reports: seq<AssetClearanceReports.Report>,
                          reference: AssetClearanceReports.PingObject -> Option<nat>): (r: seq<Option<nat>>)
    ensures |r| == |reports|
    ensures forall j :: 0 <= j < |reports| ==>
      r[j] == if reports[j].pingObject.None? then Option.None else reference(reports[j].pingObject.value)
  {
    if reports == [] then []
    else
      var p := reports[|reports| - 1].pingObject;
      PingReferences(reports[..|reports| - 1], reference) + [if p.None? then Option.None else reference(p.value)]
  }

  /**
   * Fix: runs the fix method of the group's first report on its asset,
   * with the ping objects of every report of the group. False for an empty
   * group, an unknown fix method, an unknown asset type, a method whose
   * first parameter does not accept that type, or a failed object
   * validation. None is an exception: a null fix method looked up in a
   * non-empty list, a fix method without parameters, or a malformed
   * parameter layout. `assetTypeOf`, `accepts`, `validation`, `reference`
   * and `invoke` stand for the asset database, the type test, the
   * ObjectValidation attribute, PingObject.Reference and the reflective call.
   */
  method Fix(reportGroup: seq<AssetClearanceReports.Report>, fixMethods: seq<MethodInfo>,
             assetTypeOf: string -> Option<nat>, accepts: (MethodInfo, nat) -> bool,
             validation: MethodInfo -> Option<bool>,
             reference: AssetClearanceReports.PingObject -> Option<nat>,
             invoke: (MethodInfo, seq<Arg>) -> bool)
    returns (r: Option<bool>)
    ensures reportGroup == [] ==> r == Some(false)
    ensures reportGroup != [] && reportGroup[0].fixMethod.None? ==>
      r == if fixMethods == [] then Some(false) else Option.None
    ensures reportGroup != [] && reportGroup[0].fixMethod.Some? ==>
      var info := FindByName(fixMethods, reportGroup[0].fixMethod.value.name);
      var assetType := assetTypeOf(reportGroup[0].assetPath);
      if info.None? || assetType.None? then r == Some(false)
      else if info.value.parameters == [] then r.None?
      else if !accepts(info.value, assetType.value) || validation(info.value) == Some(false) then r == Some(false)
      else
        var args := ExpectedArgs(reportGroup[0].fixMethod.value, info.value.parameters,
                                 Some(PingReferences(reportGroup, reference)), |info.value.parameters|);
        r == if args.None? then Option.None else Some(invoke(info.value, args.value))
  {
    if reportGroup == [] {
      return Some(false);
    }
    var fixMethod := reportGroup[0].fixMethod;
    if fixMethod.None? {
      // the lookup's lambda dereferences the null method for the first candidate
      return if fixMethods == [] then Some(false) else Option.None;
    }
    var info := FindByName(fixMethods, fixMethod.value.name);
    if info.None? {
      return Some(false);
    }
    var assetType := assetTypeOf(reportGroup[0].assetPath);
    if assetType.None? {
      return Some(false);
    }
    if info.value.parameters == [] {
      return Option.None;
    }
    if !accepts(info.value, assetType.value) {
      return Some(false);
    }
    if validation(info.value) == Some(false) {
      return Some(false);
    }
    var pings := PingReferences(reportGroup, reference);
    r := DoMethod(fixMethod.value, info.value, Some(pings), invoke);
  }
}
