/** Base events with a status, and complex events that combine them with AND, OR and NOT. */
module EventManager {
  import opened Wrappers

  type BaseEvent = string

  type ComplexEvent = string

  datatype LogicOp = OpAnd | OpOr | OpNothing

  datatype Rule = Rule(event: BaseEvent, op: LogicOp, isNot: bool)

  datatype Error = NotRegistered | NoRules | InvalidOp

  const IF_PROFILING: BaseEvent := "IfProfiling"
  const CUR_TASK_EXIST: BaseEvent := "CurTaskExist"
  const COULD_PROFILE: ComplexEvent := "CouldProfile"
  const COULD_SET_CUR_TASK: ComplexEvent := "CouldSetCurTask"

  type Status = map<BaseEvent, bool>

  function RuleValue(status: Status, rule: Rule): Result<bool, Error> {
    if rule.event !in status then Err(NotRegistered)
    else Ok(if rule.isNot then !status[rule.event] else status[rule.event])
  }

  /** The rules combined from the left; the operator of the first rule is ignored. */
  function Eval(status: Status, rules: seq<Rule>): Result<bool, Error> {
    if rules == [] then Err(NoRules)
    else
      var last := rules[|rules| - 1];
      if |rules| == 1 then RuleValue(status, last)
      else
        match Eval(status, rules[..|rules| - 1])
        case Err(e) => Err(e)
        case Ok(before) =>
          match RuleValue(status, last)
          case Err(e) => Err(e)
          case Ok(value) =>
            match last.op
            case OpAnd => Ok(before && value)
            case OpOr => Ok(before || value)
            case OpNothing => Err(InvalidOp)
  }

  class Manager {
    var baseEventStatus: Status
    var complexEvents: map<ComplexEvent, seq<Rule>>

    constructor ()
      ensures baseEventStatus == map[] && complexEvents == map[]
    {
      baseEventStatus, complexEvents := map[], map[];
    }

    method RegisterBaseEvent(event: BaseEvent, initial: bool)
      modifies `baseEventStatus
      ensures baseEventStatus == old(baseEventStatus)[event := initial]
    {
      baseEventStatus := baseEventStatus[event := initial];
    }

    method RegisterComplexEvent(event: ComplexEvent, rules: seq<Rule>)
      modifies `complexEvents
      ensures complexEvents == old(complexEvents)[event := rules]
    {
      complexEvents := complexEvents[event := rules];
    }

    method UpdateBaseEventStatus(event: BaseEvent, status: bool) returns (err: Option<Error>)
      modifies `baseEventStatus
      ensures event !in old(baseEventStatus) ==> err == Some(NotRegistered) && baseEventStatus == old(baseEventStatus)
      ensures event in old(baseEventStatus) ==> err == None && baseEventStatus == old(baseEventStatus)[event := status]
    {
      if event !in baseEventStatus { return Some(NotRegistered); }
      baseEventStatus := baseEventStatus[event := status];
      return None;
    }

    method ExecuteComplexEvent(event: ComplexEvent) returns (r: Result<bool, Error>)
      ensures r == if event in complexEvents then Eval(baseEventStatus, complexEvents[event]) else Err(NotRegistered)
    {
      if event !in complexEvents { return Err(NotRegistered); }
      r := EvalExpr(complexEvents[event]);
    }

    method EvalExpr(rules: seq<Rule>) returns (r: Result<bool, Error>)
      ensures r == Eval(baseEventStatus, rules)
    {
      if |rules| == 0 { return Err(NoRules); }
      var first := RuleValue(baseEventStatus, rules[0]);
      assert rules[..1][0] == rules[0];
      if first.Err? {
        ErrorsPropagate(baseEventStatus, rules, 1);
        return first;
      }
      var current := first.value;
      for i := 1 to |rules|
        invariant Eval(baseEventStatus, rules[..i]) == Ok(current)
      {
        assert rules[..i + 1][..i] == rules[..i];
        var value := RuleValue(baseEventStatus, rules[i]);
        if value.Err? {
          ErrorsPropagate(baseEventStatus, rules, i + 1);
          return value;
        }
        match rules[i].op
        case OpAnd => current := current && value.value;
        case OpOr => current := current || value.value;
        case OpNothing =>
          ErrorsPropagate(baseEventStatus, rules, i + 1);
          return Err(InvalidOp);
      }
      assert rules[..|rules|] == rules;
      return Ok(current);
    }

    /** The two rules that guard profiling, over two flags that start out false. */
    method RegisterProfileEvents()
      modifies this
      ensures baseEventStatus == old(baseEventStatus)[IF_PROFILING := false][CUR_TASK_EXIST := false]
      ensures complexEvents == old(complexEvents)[COULD_PROFILE := CouldProfileRules()][COULD_SET_CUR_TASK := CouldSetCurTaskRules()]
    {
      RegisterBaseEvent(IF_PROFILING, false);
      RegisterBaseEvent(CUR_TASK_EXIST, false);
      var r1 := Rule(IF_PROFILING, OpNothing, true);
      var r2 := Rule(CUR_TASK_EXIST, OpAnd, false);
      var r3 := Rule(CUR_TASK_EXIST, OpAnd, true);
      RegisterComplexEvent(COULD_PROFILE, [r1, r2]);
      RegisterComplexEvent(COULD_SET_CUR_TASK, [r1, r3]);
    }
  }

  function CouldProfileRules(): seq<Rule> {
    [Rule(IF_PROFILING, OpNothing, true), Rule(CUR_TASK_EXIST, OpAnd, false)]
  }

  function CouldSetCurTaskRules(): seq<Rule> {
    [Rule(IF_PROFILING, OpNothing, true), Rule(CUR_TASK_EXIST, OpAnd, true)]
  }

  lemma {:induction false} ErrorsPropagate(status: Status, rules: seq<Rule>, i: nat)
    requires 0 < i <= |rules| && Eval(status, rules[..i]).Err?
    ensures Eval(status, rules) == Eval(status, rules[..i])
    decreases |rules| - i
  {
    if i == |rules| {
      assert rules[..i] == rules;
    } else {
      assert rules[..i + 1][..i] == rules[..i];
      ErrorsPropagate(status, rules, i + 1);
    }
  }

  ghost predicate WellFormed(status: Status, rules: seq<Rule>) {
    && rules != []
    && (forall i :: 0 <= i < |rules| ==> rules[i].event in status)
    && (forall i :: 1 <= i < |rules| ==> !rules[i].op.OpNothing?)
  }

  /** An expression has a value exactly when it is well formed: one bad rule anywhere spoils it. */
  lemma {:induction false} EvalDefined(status: Status, rules: seq<Rule>)
    ensures Eval(status, rules).Ok? <==> WellFormed(status, rules)
  {
    if |rules| > 1 {
      var init, last := rules[..|rules| - 1], rules[|rules| - 1];
      EvalDefined(status, init);
      assert rules == init + [last];
      if WellFormed(status, rules) {
        assert forall i :: 0 <= i < |init| ==> init[i] == rules[i];
      }
      if WellFormed(status, init) && last.event in status && !last.op.OpNothing? {
        forall i | 0 <= i < |rules| ensures rules[i].event in status && (i > 0 ==> !rules[i].op.OpNothing?) {
          if i < |init| { assert rules[i] == init[i]; }
        }
      }
    }
  }

  ghost predicate Holds(status: Status, rule: Rule)
    requires rule.event in status
  {
    status[rule.event] != rule.isNot
  }

  /** The rule at `from` holds, and so does every AND-ed rule after it. */
  ghost predicate Satisfied(status: Status, rules: seq<Rule>, from: nat)
    requires from <= |rules| && forall i :: 0 <= i < |rules| ==> rules[i].event in status
  {
    forall i :: from <= i < |rules| && (i == from || rules[i].op.OpAnd?) ==> Holds(status, rules[i])
  }

  /**
   Evaluation from the left is true exactly when some rule holds that starts the expression or
   is OR-ed in, and every AND-ed rule after it holds too.
   */
  lemma {:induction false} EvalMeans(status: Status, rules: seq<Rule>)
    requires WellFormed(status, rules)
    ensures Eval(status, rules).Ok?
    ensures Eval(status, rules).value <==>
              exists j :: 0 <= j < |rules| && (j == 0 || rules[j].op.OpOr?) && Satisfied(status, rules, j)
  {
    EvalDefined(status, rules);
    if |rules| == 1 {
      if Holds(status, rules[0]) { assert Satisfied(status, rules, 0); }
    } else {
      var n := |rules| - 1;
      var init, last := rules[..n], rules[n];
      assert forall i :: 0 <= i < n ==> init[i] == rules[i];
      EvalMeans(status, init);
      if Eval(status, rules).value {
        if last.op.OpOr? && Holds(status, last) {
          assert Satisfied(status, rules, n);
        } else {
          var j :| 0 <= j < n && (j == 0 || init[j].op.OpOr?) && Satisfied(status, init, j);
          assert Satisfied(status, rules, j);
        }
      }
      if j :| 0 <= j < |rules| && (j == 0 || rules[j].op.OpOr?) && Satisfied(status, rules, j) {
        if j < n {
          assert Satisfied(status, init, j);
          assert last.op.OpAnd? ==> Holds(status, rules[n]);
        } else {
          assert Holds(status, rules[n]);
        }
      }
    }
  }

  /** What the two registered rules say about the two flags. */
  lemma ProfileRulesMean(status: Status)
    requires IF_PROFILING in status && CUR_TASK_EXIST in status
    ensures Eval(status, CouldProfileRules()) == Ok(!status[IF_PROFILING] && status[CUR_TASK_EXIST])
    ensures Eval(status, CouldSetCurTaskRules()) == Ok(!status[IF_PROFILING] && !status[CUR_TASK_EXIST])
  {
    assert CouldProfileRules()[..1] == [Rule(IF_PROFILING, OpNothing, true)];
    assert CouldSetCurTaskRules()[..1] == [Rule(IF_PROFILING, OpNothing, true)];
  }
}
