// LegacyAnimator: drives legacy Animation clips from an Animator-like
// controller. The controller instance holds a table of named parameters
// (Bool, Trigger, Float, Int); each state has an ordered list of transitions
// guarded by conditions on those parameters. The model covers the condition
// evaluation (with its trigger reset), the transition choice, the Set*
// family that writes the parameter table, IsInTransition and FindRootBone.
module LegacyAnimator {
  import opened Wrappers

  // Float parameters and thresholds are `real`: IEEE rounding and NaN are not modelled.
  datatype ParameterType = Float | Int | Bool | Trigger

  datatype Parameter = Parameter(
    name: string,
    kind: ParameterType,
    defaultBool: bool,
    defaultFloat: real,
    defaultInt: int)

  datatype ConditionMode = If | IfNot | Greater | Less | Equals | NotEqual

  datatype Condition = Condition(mode: ConditionMode, parameter: string, threshold: real)

  /** A transition names its destination by index into the state machine's States. */
  datatype Transition = Transition(
    hasExitTime: bool,
    exitTime: real,
    duration: real,
    offset: real,
    destination: int,
    conditions: seq<Condition>)

  datatype State = State(name: string, speed: real, transitions: seq<Transition>)

  /** What one of SetTrigger, SetBool, SetInteger or SetFloat writes. */
  datatype Assignment = BoolValue(b: bool) | IntValue(i: int) | FloatValue(f: real)

  // ---------------------------------------------------------------------
  // The parameter table

  /** The index of the first parameter called `name`, as the lookup loops find it. */
  function Find(ps: seq<Parameter>, name: string): (r: Option<nat>)
    ensures r.Some? ==> r.value < |ps| && ps[r.value].name == name
    ensures r.Some? ==> forall j :: 0 <= j < r.value ==> ps[j].name != name
    ensures r.None? ==> forall j :: 0 <= j < |ps| ==> ps[j].name != name
  {
    if ps == [] then None
    else if ps[0].name == name then Some(0)
    else
      match Find(ps[1..], name)
      case None => None
      case Some(k) => Some(k + 1)
  }

  /** Two tables with the same names and types in the same order. */
  predicate SameTable(a: seq<Parameter>, b: seq<Parameter>)
  {
    && |a| == |b|
    && (forall i :: 0 <= i < |a| ==> a[i].name == b[i].name && a[i].kind == b[i].kind)
  }

  /** Lookups only look at names, so they agree on tables with the same names. */
  lemma FindSameTable(a: seq<Parameter>, b: seq<Parameter>, name: string)
    requires SameTable(a, b)
    ensures Find(a, name) == Find(b, name)
  {
  }

  function Apply(p: Parameter, v: Assignment): Parameter
  {
    match v
    case BoolValue(b) => p.(defaultBool := b)
    case IntValue(i) => p.(defaultInt := i)
    case FloatValue(f) => p.(defaultFloat := f)
  }

  /** The table after a Set* call: the first parameter called `name` takes the value. */
  function Assigned(ps: seq<Parameter>, name: string, v: Assignment): seq<Parameter>
  {
    match Find(ps, name)
    case None => ps
    case Some(k) => ps[k := Apply(ps[k], v)]
  }

  /**
   * Only the first parameter with the given name changes, it keeps its name
   * and type, and without a match nothing changes.
   */
  lemma AssignedOnlyFirst(ps: seq<Parameter>, name: string, v: Assignment)
    ensures SameTable(ps, Assigned(ps, name, v))
    ensures forall i :: 0 <= i < |ps| && Assigned(ps, name, v)[i] != ps[i] ==>
      ps[i].name == name && forall j :: 0 <= j < i ==> ps[j].name != name
    ensures (forall j :: 0 <= j < |ps| ==> ps[j].name != name) ==> Assigned(ps, name, v) == ps
  {
  }

  // ---------------------------------------------------------------------
  // Condition evaluation

  /** One condition against the parameter it names; a mode that does not fit the type fails. */
  predicate Test(p: Parameter, c: Condition)
  {
    match p.kind
    case Bool | Trigger =>
      (match c.mode
       case If => p.defaultBool
       case IfNot => !p.defaultBool
       case _ => false)
    case Float | Int =>
      var value := if p.kind == Int then p.defaultInt as real else p.defaultFloat;
      (match c.mode
       case Greater => value > c.threshold
       case Less => value < c.threshold
       case Equals => value == c.threshold
       case NotEqual => value != c.threshold
       case _ => false)
  }

  /** An If condition on a set trigger consumes the trigger. */
  function Reset(ps: seq<Parameter>, c: Condition): (r: seq<Parameter>)
    ensures SameTable(ps, r)
  {
    match Find(ps, c.parameter)
    case None => ps
    case Some(k) =>
      if ps[k].kind == Trigger && c.mode == If && ps[k].defaultBool
      then ps[k := ps[k].(defaultBool := false)]
      else ps
  }

  /** The table after evaluating `cs` in order. */
  function Consumed(ps: seq<Parameter>, cs: seq<Condition>): (r: seq<Parameter>)
    ensures SameTable(ps, r)
    decreases |cs|
  {
    if cs == [] then ps
    else Reset(Consumed(ps, cs[..|cs| - 1]), cs[|cs| - 1])
  }

  /** Whether condition `i` passes against the table left by the conditions before it; a missing parameter passes. */
  predicate Satisfied(ps: seq<Parameter>, cs: seq<Condition>, i: nat)
    requires i < |cs|
  {
    var before := Consumed(ps, cs[..i]);
    match Find(before, cs[i].parameter)
    case None => true
    case Some(k) => Test(before[k], cs[i])
  }

  /** The running `result &= ...` after the conditions in `cs`. */
  function Conjunction(ps: seq<Parameter>, cs: seq<Condition>): bool
    decreases |cs|
  {
    if cs == [] then true
    else Conjunction(ps, cs[..|cs| - 1]) && Satisfied(ps, cs, |cs| - 1)
  }

  /** How many conditions name a parameter that is not in the table. */
  function Missing(ps: seq<Parameter>, cs: seq<Condition>): nat
    decreases |cs|
  {
    if cs == [] then 0
    else Missing(ps, cs[..|cs| - 1]) + (if Find(ps, cs[|cs| - 1].parameter).None? then 1 else 0)
  }

  /** What CheckCondition answers. */
  predicate Holds(ps: seq<Parameter>, cs: seq<Condition>)
  {
    if |cs| > 0 && Missing(ps, cs) == |cs| then false else Conjunction(ps, cs)
  }

  lemma {:induction false} ConjunctionAll(ps: seq<Parameter>, cs: seq<Condition>)
    ensures Conjunction(ps, cs) <==> forall i :: 0 <= i < |cs| ==> Satisfied(ps, cs, i)
    decreases |cs|
  {
    if cs != [] {
      var pre := cs[..|cs| - 1];
      ConjunctionAll(ps, pre);
      forall i | 0 <= i < |pre|
        ensures Satisfied(ps, pre, i) == Satisfied(ps, cs, i)
      {
        assert pre[..i] == cs[..i];
      }
    }
  }

  lemma {:induction false} MissingBound(ps: seq<Parameter>, cs: seq<Condition>)
    ensures Missing(ps, cs) <= |cs|
    ensures Missing(ps, cs) == |cs| <==> forall i :: 0 <= i < |cs| ==> Find(ps, cs[i].parameter).None?
    decreases |cs|
  {
    if cs != [] {
      var pre := cs[..|cs| - 1];
      MissingBound(ps, pre);
      assert forall i :: 0 <= i < |pre| ==> pre[i] == cs[i];
    }
  }

  /**
   * CheckCondition is the conjunction over all conditions, each read against
   * the table left by the ones before it, except that a non-empty list whose
   * every parameter is missing fails. An empty list holds.
   */
  lemma HoldsMeaning(ps: seq<Parameter>, cs: seq<Condition>)
    ensures Holds(ps, []) && Consumed(ps, []) == ps
    ensures Holds(ps, cs) <==>
      && (|cs| == 0 || exists i :: 0 <= i < |cs| && Find(ps, cs[i].parameter).Some?)
      && (forall i :: 0 <= i < |cs| ==> Satisfied(ps, cs, i))
  {
    ConjunctionAll(ps, cs);
    MissingBound(ps, cs);
  }

  /** Evaluating one more condition extends the table, the conjunction and the missing count by that condition. */
  lemma CheckStep(ps: seq<Parameter>, cs: seq<Condition>, i: nat)
    requires i < |cs|
    ensures Consumed(ps, cs[..i + 1]) == Reset(Consumed(ps, cs[..i]), cs[i])
    ensures Conjunction(ps, cs[..i + 1]) == (Conjunction(ps, cs[..i]) && Satisfied(ps, cs, i))
    ensures Missing(ps, cs[..i + 1]) == Missing(ps, cs[..i]) + (if Find(ps, cs[i].parameter).None? then 1 else 0)
  {
    var pre := cs[..i + 1];
    assert pre[..i] == cs[..i];
    assert pre[i] == cs[i];
  }

  /** A non-empty list naming only missing parameters fails and resets nothing. */
  lemma {:induction false} AllMissing(ps: seq<Parameter>, cs: seq<Condition>)
    requires |cs| > 0
    requires forall i :: 0 <= i < |cs| ==> Find(ps, cs[i].parameter).None?
    ensures !Holds(ps, cs)
    ensures Consumed(ps, cs) == ps
    decreases |cs|
  {
    MissingBound(ps, cs);
    var pre := cs[..|cs| - 1];
    if pre != [] {
      AllMissing(ps, pre);
    }
  }

  /** Without trigger parameters the table is read, never written, so every condition sees the caller's table. */
  lemma {:induction false} NoTriggers(ps: seq<Parameter>, cs: seq<Condition>)
    requires forall i :: 0 <= i < |ps| ==> ps[i].kind != Trigger
    ensures Consumed(ps, cs) == ps
    ensures forall i :: 0 <= i < |cs| ==>
      Satisfied(ps, cs, i) == (Find(ps, cs[i].parameter).None? || Test(ps[Find(ps, cs[i].parameter).value], cs[i]))
    decreases |cs|
  {
    if cs != [] {
      NoTriggers(ps, cs[..|cs| - 1]);
    }
    forall i | 0 <= i < |cs|
      ensures Consumed(ps, cs[..i]) == ps
    {
      NoTriggers(ps, cs[..i]);
    }
  }

  /**
   * Every trigger named by an If condition is false afterwards, whether or
   * not the conditions held: evaluation never short-circuits.
   */
  lemma {:induction false} TriggersConsumed(ps: seq<Parameter>, cs: seq<Condition>)
    ensures forall i, k :: 0 <= i < |cs| && cs[i].mode == If && Find(ps, cs[i].parameter) == Some(k) && ps[k].kind == Trigger ==>
      !Consumed(ps, cs)[k].defaultBool
    decreases |cs|
  {
    if cs != [] {
      var pre := cs[..|cs| - 1];
      var last := cs[|cs| - 1];
      TriggersConsumed(ps, pre);
      var before := Consumed(ps, pre);
      FindSameTable(ps, before, last.parameter);
      forall i, k | 0 <= i < |cs| && cs[i].mode == If && Find(ps, cs[i].parameter) == Some(k) && ps[k].kind == Trigger
        ensures !Consumed(ps, cs)[k].defaultBool
      {
        if i < |pre| {
          assert pre[i] == cs[i];
        }
      }
    }
  }

  /** A parameter no If condition names is left as it was. */
  lemma {:induction false} OthersKept(ps: seq<Parameter>, cs: seq<Condition>, k: nat)
    requires k < |ps|
    requires forall i :: 0 <= i < |cs| && cs[i].mode == If ==> Find(ps, cs[i].parameter) != Some(k)
    ensures Consumed(ps, cs)[k] == ps[k]
    decreases |cs|
  {
    if cs != [] {
      var pre := cs[..|cs| - 1];
      assert forall i :: 0 <= i < |pre| ==> pre[i] == cs[i];
      OthersKept(ps, pre, k);
      FindSameTable(ps, Consumed(ps, pre), cs[|cs| - 1].parameter);
    }
  }

  /** A set trigger satisfies one If condition on it but not two: the first one consumes it. */
  lemma TriggerReadOnce(t: string)
    ensures var p := Parameter(t, Trigger, true, 0.0, 0);
      var c := Condition(If, t, 0.0);
      Holds([p], [c]) && !Holds([p], [c, c])
  {
    var p := Parameter(t, Trigger, true, 0.0, 0);
    var c := Condition(If, t, 0.0);
    assert [c, c][..1] == [c];
    assert [c][..0] == [];
    assert Find([p], t) == Some(0);
    assert Satisfied([p], [c], 0);
    assert Missing([p], [c]) == 0;
    assert Consumed([p], [c]) == [p.(defaultBool := false)];
    assert !Satisfied([p], [c, c], 1);
  }

  // ---------------------------------------------------------------------
  // Transition choice

  /** A transition with an exit time waits until the current clip's normalized time reaches it. */
  predicate Reached(t: Transition, time: real)
  {
    !(t.hasExitTime && t.exitTime > time)
  }

  /** The table after MakeTransition has looked at the first `n` transitions. */
  function Evaluated(ps: seq<Parameter>, ts: seq<Transition>, time: real, n: nat): (r: seq<Parameter>)
    requires n <= |ts|
    ensures SameTable(ps, r)
  {
    if n == 0 then ps
    else
      var before := Evaluated(ps, ts, time, n - 1);
      if Reached(ts[n - 1], time) then Consumed(before, ts[n - 1].conditions) else before
  }

  /** Transition `k` is reached and its conditions hold when it is evaluated. */
  predicate Fires(ps: seq<Parameter>, ts: seq<Transition>, time: real, k: nat)
    requires k < |ts|
  {
    Reached(ts[k], time) && Holds(Evaluated(ps, ts, time, k), ts[k].conditions)
  }

  /** The first transition from index `from` on that fires. */
  function FirstFiring(ps: seq<Parameter>, ts: seq<Transition>, time: real, from: nat): (r: Option<nat>)
    requires from <= |ts|
    ensures r.Some? ==> from <= r.value < |ts| && Fires(ps, ts, time, r.value)
    ensures r.Some? ==> forall j :: from <= j < r.value ==> !Fires(ps, ts, time, j)
    ensures r.None? ==> forall j :: from <= j < |ts| ==> !Fires(ps, ts, time, j)
    decreases |ts| - from
  {
    if from == |ts| then None
    else if Fires(ps, ts, time, from) then Some(from)
    else FirstFiring(ps, ts, time, from + 1)
  }

  /** Transition i is evaluated on the table left by the earlier ones; the first firing is i when it fires, else a later one. */
  lemma FiringStep(ps: seq<Parameter>, ts: seq<Transition>, time: real, i: nat)
    requires i < |ts|
    ensures var before := Evaluated(ps, ts, time, i);
      Evaluated(ps, ts, time, i + 1) == if Reached(ts[i], time) then Consumed(before, ts[i].conditions) else before
    ensures Fires(ps, ts, time, i) ==> FirstFiring(ps, ts, time, i) == Some(i)
    ensures !Fires(ps, ts, time, i) ==> FirstFiring(ps, ts, time, i) == FirstFiring(ps, ts, time, i + 1)
  {
  }

  /** When no transition has reached its exit time nothing fires and no trigger is consumed. */
  lemma {:induction false} NothingReached(ps: seq<Parameter>, ts: seq<Transition>, time: real, n: nat)
    requires n <= |ts|
    requires forall j :: 0 <= j < |ts| ==> !Reached(ts[j], time)
    ensures Evaluated(ps, ts, time, n) == ps
    ensures FirstFiring(ps, ts, time, 0).None?
  {
    if n > 0 {
      NothingReached(ps, ts, time, n - 1);
    }
  }

  /** FindRootBone: `chain` is a bone followed by its ancestors; the answer is the entry whose parent is `self`. */
  function FindRootBone<Bone(==)>(chain: seq<Bone>, self: Bone): (r: Option<nat>)
    ensures r.Some? ==> r.value + 1 < |chain| && chain[r.value + 1] == self
    ensures r.Some? ==> forall j :: 1 <= j <= r.value ==> chain[j] != self
    ensures r.None? ==> forall j :: 1 <= j < |chain| ==> chain[j] != self
  {
    if |chain| < 2 then None
    else if chain[1] == self then Some(0)
    else
      match FindRootBone(chain[1..], self)
      case None => None
      case Some(k) => Some(k + 1)
  }

  // ---------------------------------------------------------------------
  // The component

  class Animator {
    /** Whether Start created the controller instance. */
    var hasController: bool
    /** controllerInstance.Parameters */
    var parameters: seq<Parameter>
    /** controllerInstance.StateMachine.States */
    var states: seq<State>
    var currentState: nat
    /** The state being blended in, as an index into `states`. */
    var nextState: Option<nat>
    var transitionOffset: real

    constructor (hasController: bool, parameters: seq<Parameter>, states: seq<State>, current: nat)
      ensures this.hasController == hasController && this.parameters == parameters
      ensures this.states == states && currentState == current && nextState.None?
    {
      this.hasController := hasController;
      this.parameters := parameters;
      this.states := states;
      currentState := current;
      nextState := None;
      transitionOffset := 0.0;
    }

    predicate IsInTransition()
      reads this
    {
      nextState.Some?
    }

    /** The lookup loop shared by CheckCondition and the Set* methods. */
    method IndexOf(name: string) returns (k: Option<nat>)
      ensures k == Find(parameters, name)
    {
      var i := 0;
      while i < |parameters|
        invariant 0 <= i <= |parameters|
        invariant forall j :: 0 <= j < i ==> parameters[j].name != name
      {
        if parameters[i].name == name {
          return Some(i);
        }
        i := i + 1;
      }
      return None;
    }

    method Set(name: string, v: Assignment)
      modifies this`parameters
      ensures parameters == if hasController then Assigned(old(parameters), name, v) else old(parameters)
    {
      if !hasController {
        return;
      }
      var k := IndexOf(name);
      if k.Some? {
        parameters := parameters[k.value := Apply(parameters[k.value], v)];
      }
    }

    method SetTrigger(name: string)
      modifies this`parameters
      ensures parameters == if hasController then Assigned(old(parameters), name, BoolValue(true)) else old(parameters)
    {
      Set(name, BoolValue(true));
    }

    method SetInteger(name: string, value: int)
      modifies this`parameters
      ensures parameters == if hasController then Assigned(old(parameters), name, IntValue(value)) else old(parameters)
    {
      Set(name, IntValue(value));
    }

    method SetBool(name: string, value: bool)
      modifies this`parameters
      ensures parameters == if hasController then Assigned(old(parameters), name, BoolValue(value)) else old(parameters)
    {
      Set(name, BoolValue(value));
    }

    method SetFloat(name: string, value: real)
      modifies this`parameters
      ensures parameters == if hasController then Assigned(old(parameters), name, FloatValue(value)) else old(parameters)
    {
      Set(name, FloatValue(value));
    }

    /**
     * The body of CheckCondition's loop for one condition: whether its
     * parameter exists, whether it passes (a missing one passes), and the
     * trigger reset.
     */
    method CheckOne(c: Condition) returns (found: bool, pass: bool)
      modifies this`parameters
      ensures found == Find(old(parameters), c.parameter).Some?
      ensures pass == (!found || Test(old(parameters)[Find(old(parameters), c.parameter).value], c))
      ensures parameters == Reset(old(parameters), c)
    {
      var target := IndexOf(c.parameter);
      if target.None? {
        return false, true;
      }
      found := true;
      var p := parameters[target.value];
      if p.kind == Bool || p.kind == Trigger {
        match c.mode
        case If =>
          pass := p.defaultBool;
          if p.kind == Trigger && p.defaultBool {
            parameters := parameters[target.value := p.(defaultBool := false)];
          }
        case IfNot =>
          pass := !p.defaultBool;
        case _ =>
          pass := false;
      } else {
        var value := if p.kind == Int then p.defaultInt as real else p.defaultFloat;
        match c.mode
        case Greater =>
          pass := value > c.threshold;
        case Less =>
          pass := value < c.threshold;
        case Equals =>
          pass := value == c.threshold;
        case NotEqual =>
          pass := value != c.threshold;
        case _ =>
          pass := false;
      }
    }

    method CheckCondition(conditions: seq<Condition>) returns (result: bool)
      modifies this`parameters
      ensures result == Holds(old(parameters), conditions)
      ensures parameters == Consumed(old(parameters), conditions)
    {
      ghost var ps := parameters;
      result := true;
      var notFound := 0;
      var i := 0;
      while i < |conditions|
        invariant 0 <= i <= |conditions|
        invariant parameters == Consumed(ps, conditions[..i])
        invariant result == Conjunction(ps, conditions[..i])
        invariant notFound == Missing(ps, conditions[..i])
      {
        CheckStep(ps, conditions, i);
        var found, pass := CheckOne(conditions[i]);
        if !found {
          notFound := notFound + 1;
        }
        result := result && pass;
        i := i + 1;
      }
      assert conditions[..i] == conditions;
      if |conditions| > 0 && notFound == |conditions| {
        return false;
      }
    }

    /** The current state's transitions. */
    function Transitions(): seq<Transition>
      reads this
      requires currentState < |states|
    {
      states[currentState].transitions
    }

    /** The current state is one of the state machine's states. */
    predicate Ready()
      reads this
    {
      currentState < |states|
    }

    /**
     * Scans the current state's transitions in order, skipping those whose
     * exit time is not reached, and stops at the first whose conditions hold;
     * a new blend starts only if its destination is not already `nextState`.
     * `normalizedTime` is the current clip's normalized time. `thrown`
     * reports the index-out-of-range exception of a firing transition whose
     * destination is not a state; the blend is then left as it was.
     */
    method MakeTransition(normalizedTime: real) returns (thrown: bool)
      requires Ready()
      modifies this`parameters, this`nextState, this`transitionOffset
      ensures var f := FirstFiring(old(parameters), Transitions(), normalizedTime, 0);
        parameters == Evaluated(old(parameters), Transitions(), normalizedTime, if f.Some? then f.value + 1 else |Transitions()|)
      ensures var f := FirstFiring(old(parameters), Transitions(), normalizedTime, 0);
        thrown <==> f.Some? && !(0 <= Transitions()[f.value].destination < |states|)
      ensures var f := FirstFiring(old(parameters), Transitions(), normalizedTime, 0);
        f.Some? && !thrown && old(nextState) != Some(Transitions()[f.value].destination) ==>
          && nextState == Some(Transitions()[f.value].destination)
          && transitionOffset == Transitions()[f.value].offset
          && IsInTransition()
      ensures var f := FirstFiring(old(parameters), Transitions(), normalizedTime, 0);
        f.None? || thrown || old(nextState) == Some(Transitions()[f.value].destination) ==>
          nextState == old(nextState) && transitionOffset == old(transitionOffset)
    {
      thrown := false;
      ghost var ps := parameters;
      var ts := states[currentState].transitions;
      var i := 0;
      while i < |ts|
        invariant 0 <= i <= |ts|
        invariant parameters == Evaluated(ps, ts, normalizedTime, i)
        invariant FirstFiring(ps, ts, normalizedTime, 0) == FirstFiring(ps, ts, normalizedTime, i)
        invariant nextState == old(nextState) && transitionOffset == old(transitionOffset)
      {
        var t := ts[i];
        if t.hasExitTime && t.exitTime > normalizedTime {
          FiringStep(ps, ts, normalizedTime, i);
          i := i + 1;
          continue;
        }
        var ok := CheckCondition(t.conditions);
        FiringStep(ps, ts, normalizedTime, i);
        if ok {
          if !(0 <= t.destination < |states|) {
            return true;
          }
          if nextState != Some(t.destination) {
            nextState := Some(t.destination);
            transitionOffset := t.offset;
          }
          return;
        }
        i := i + 1;
      }
      assert FirstFiring(ps, ts, normalizedTime, 0).None?;
    }
  }

  /** SetBool then an If condition on it answers the value written. */
  lemma SetBoolThenIf(ps: seq<Parameter>, name: string, v: bool, k: nat)
    requires Find(ps, name) == Some(k) && ps[k].kind == Bool
    ensures Holds(Assigned(ps, name, BoolValue(v)), [Condition(If, name, 0.0)]) == v
  {
    var qs := Assigned(ps, name, BoolValue(v));
    var c := Condition(If, name, 0.0);
    assert qs == ps[k := ps[k].(defaultBool := v)];
    FindSameTable(ps, qs, name);
    assert [c][..0] == [];
    assert Missing(qs, [c]) == 0;
    assert Satisfied(qs, [c], 0) == v;
    assert Conjunction(qs, [c]) == v;
  }

  /** SetTrigger then an If condition on it holds once and leaves the trigger reset. */
  lemma SetTriggerThenIf(ps: seq<Parameter>, name: string, k: nat)
    requires Find(ps, name) == Some(k) && ps[k].kind == Trigger
    ensures var qs := Assigned(ps, name, BoolValue(true));
      var cs := [Condition(If, name, 0.0)];
      Holds(qs, cs) && !Consumed(qs, cs)[k].defaultBool
  {
    var qs := Assigned(ps, name, BoolValue(true));
    var c := Condition(If, name, 0.0);
    AssignedOnlyFirst(ps, name, BoolValue(true));
    FindSameTable(ps, qs, name);
    assert [c][..0] == [];
    assert Missing(qs, [c]) == 0;
    assert Satisfied(qs, [c], 0);
    assert Consumed(qs, [c]) == Reset(qs, c);
  }
}
