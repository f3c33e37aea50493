/** SecLang rules as data, the printer that turns a rule into SecRule text, and
    the rule object whose action list is edited in place. */
module SecLang {
  import opened Text

  datatype Variable = Variable(name: string, collection: string, transformations: seq<string>)
  datatype Operator = Operator(kind: string, parameter: string, negated: bool)
  datatype Action = Action(name: string, parameter: string)
  datatype SecRule = SecRule(variables: seq<Variable>, operator: Operator, actions: seq<Action>)

  const ActionID := "id"

  // ---------- the printer ----------

  const QUOTED_CHARS := " \t\n\r,;\"'<>(){}[]|&$*?\\/"

  predicate NeedsQuoting(s: string) {
    exists i :: 0 <= i < |s| && s[i] in QUOTED_CHARS
  }

  function VariableText(v: Variable): string {
    if v.collection != "" then v.collection else v.name
  }

  /** The text between the optional quotes of the operator. */
  function OperatorBody(op: Operator): string {
    if op.parameter != "" then op.kind + " " + op.parameter else op.kind
  }

  predicate OperatorQuoted(op: Operator) {
    op.parameter != "" || NeedsQuoting(op.kind)
  }

  function OperatorText(op: Operator): string {
    (if op.negated then "!" else "") +
    (if OperatorQuoted(op) then "\"" + OperatorBody(op) + "\"" else OperatorBody(op))
  }

  /** strings.ReplaceAll(s, "'", "\\'") */
  function EscapeQuotes(s: string): string {
    if s == "" then ""
    else (if s[0] == '\'' then "\\'" else [s[0]]) + EscapeQuotes(s[1..])
  }

  function ActionText(a: Action): string {
    if a.parameter == "" then a.name
    else if NeedsQuoting(a.parameter) then a.name + ":'" + EscapeQuotes(a.parameter) + "'"
    else a.name + ":" + a.parameter
  }

  function VariableTexts(vs: seq<Variable>): (ts: seq<string>)
    ensures |ts| == |vs|
    ensures forall i :: 0 <= i < |vs| ==> ts[i] == VariableText(vs[i])
  {
    if vs == [] then [] else [VariableText(vs[0])] + VariableTexts(vs[1..])
  }

  function ActionTexts(acts: seq<Action>): (ts: seq<string>)
    ensures |ts| == |acts|
    ensures forall i :: 0 <= i < |acts| ==> ts[i] == ActionText(acts[i])
  {
    if acts == [] then [] else [ActionText(acts[0])] + ActionTexts(acts[1..])
  }

  function VariablesSection(r: SecRule): string {
    Join(VariableTexts(r.variables), "|")
  }

  function ActionsSection(r: SecRule): string {
    Join(ActionTexts(r.actions), ",")
  }

  /** The rule text after the SecRule keyword. */
  function RuleBody(r: SecRule): string {
    VariablesSection(r) + " " + OperatorText(r.operator) +
    (if r.actions == [] then "" else " \"" + ActionsSection(r) + "\"")
  }

  function RuleText(r: SecRule): string {
    "SecRule " + RuleBody(r)
  }

  /** The printer as the source runs it: two loops collect the pieces. */
  method ToModSecurityRule(r: SecRule) returns (text: string)
    ensures text == RuleText(r)
  {
    var vars: seq<string> := [];
    for i := 0 to |r.variables|
      invariant |vars| == i
      invariant forall k :: 0 <= k < i ==> vars[k] == VariableText(r.variables[k])
    {
      vars := vars + [VariableText(r.variables[i])];
    }
    assert vars == VariableTexts(r.variables);
    var operatorStr := OperatorText(r.operator);
    var actionsStr := "";
    if |r.actions| > 0 {
      var actions: seq<string> := [];
      for i := 0 to |r.actions|
        invariant |actions| == i
        invariant forall k :: 0 <= k < i ==> actions[k] == ActionText(r.actions[k])
      {
        actions := actions + [ActionText(r.actions[i])];
      }
      assert actions == ActionTexts(r.actions);
      actionsStr := " \"" + Join(actions, ",") + "\"";
    }
    text := "SecRule " + (Join(vars, "|") + " " + operatorStr + actionsStr);
  }

  // ---------- editing the action list ----------

  /** Position of the first action called name, or |acts| when there is none. */
  function FirstNamed(acts: seq<Action>, name: string): (k: nat)
    ensures k <= |acts|
    ensures k < |acts| ==> acts[k].name == name
    ensures forall i :: 0 <= i < k ==> acts[i].name != name
  {
    if acts == [] || acts[0].name == name then 0 else 1 + FirstNamed(acts[1..], name)
  }

  /** The action list once a is set: the first action of that name is replaced, or a is appended. */
  function WithAction(acts: seq<Action>, a: Action): (r: seq<Action>)
    ensures FirstNamed(acts, a.name) == |acts| ==> r == acts + [a]
    ensures FirstNamed(acts, a.name) < |acts| ==> r == acts[FirstNamed(acts, a.name) := a]
  {
    if acts == [] then [a]
    else if acts[0].name == a.name then [a] + acts[1..]
    else [acts[0]] + WithAction(acts[1..], a)
  }

  function WithId(r: SecRule, id: string): SecRule {
    r.(actions := WithAction(r.actions, Action(ActionID, id)))
  }

  /** A parsed rule held by reference; callers edit its actions. */
  class RuleObject {
    var variables: seq<Variable>
    var operator: Operator
    var actions: seq<Action>

    ghost function Value(): SecRule
      reads this
    {
      SecRule(variables, operator, actions)
    }

    constructor (r: SecRule)
      ensures Value() == r
    {
      variables, operator, actions := r.variables, r.operator, r.actions;
    }

    method AddAction(action: Action)
      modifies this`actions
      ensures actions == WithAction(old(actions), action)
    {
      for i := 0 to |actions|
        invariant actions == old(actions)
        invariant forall k :: 0 <= k < i ==> actions[k].name != action.name
      {
        if actions[i].name == action.name {
          actions := actions[i := action];
          return;
        }
      }
      actions := actions + [action];
    }
  }
}
