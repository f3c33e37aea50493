/** The SecRule parser. Every scanning loop of the source is a method proved against
    the function of the same purpose; the properties are proved about the functions. */
module RuleParser {
  import opened Text
  import opened SecLang
  import Tokenizer

  datatype ParseError = InvalidRule | MissingOperator | MissingVariables

  /** Panic is a slice expression with its bounds out of order, which ends the request. */
  datatype Parsed<+T> = Ok(value: T) | Err(error: ParseError) | Panic {
    predicate IsFailure() { !Ok? }
    function PropagateFailure<U>(): Parsed<U>
      requires IsFailure()
    {
      if Err? then Err(error) else Panic
    }
    function Extract(): T
      requires Ok?
    {
      value
    }
  }

  /** Remove the quotes around s when it starts and ends with one. */
  function Unquote(s: string, mark: char): Parsed<string> {
    if StartsWith(s, mark) && EndsWith(s, mark) then
      if |s| < 2 then Panic else Ok(s[1..|s| - 1])
    else Ok(s)
  }

  // ---------- variables ----------

  function VariableOf(part: string): Variable {
    if ':' in part then Variable(part[..IndexOf(part, ':')], part, []) else Variable(part, "", [])
  }

  function VariablesOf(parts: seq<string>): seq<Variable> {
    if parts == [] then []
    else
      var rest := VariablesOf(parts[1..]);
      if Trim(parts[0]) == "" then rest else [VariableOf(Trim(parts[0]))] + rest
  }

  function VariablesFrom(variablesStr: string): Parsed<seq<Variable>> {
    var vs := VariablesOf(Split(variablesStr, '|'));
    if variablesStr == "" || vs == [] then Err(MissingVariables) else Ok(vs)
  }

  lemma {:induction false} VariablesOfAppend(parts: seq<string>, p: string)
    ensures VariablesOf(parts + [p]) ==
            VariablesOf(parts) + if Trim(p) == "" then [] else [VariableOf(Trim(p))]
  {
    if parts != [] {
      assert (parts + [p])[1..] == parts[1..] + [p];
      VariablesOfAppend(parts[1..], p);
    }
  }

  method ParseVariables(variablesStr: string) returns (res: Parsed<seq<Variable>>)
    ensures res == VariablesFrom(variablesStr)
  {
    if variablesStr == "" {
      return Err(MissingVariables);
    }
    var variables: seq<Variable> := [];
    var varParts := Split(variablesStr, '|');
    for i := 0 to |varParts|
      invariant variables == VariablesOf(varParts[..i])
    {
      assert varParts[..i + 1] == varParts[..i] + [varParts[i]];
      VariablesOfAppend(varParts[..i], varParts[i]);
      var varPart := Trim(varParts[i]);
      if varPart != "" {
        variables := variables + [VariableOf(varPart)];
      }
    }
    assert varParts[..|varParts|] == varParts;
    if |variables| == 0 {
      return Err(MissingVariables);
    }
    return Ok(variables);
  }

  // ---------- operator ----------

  function OperatorFrom(operatorStr: string, negated: bool): Parsed<Operator> {
    if operatorStr == "" then Err(MissingOperator)
    else if StartsWith(operatorStr, '@') then
      var k := IndexOf(operatorStr, ' ');
      if k == |operatorStr| then Ok(Operator(operatorStr, "", negated))
      else Ok(Operator(operatorStr[..k], Trim(operatorStr[k + 1..]), negated))
    else Ok(Operator("@rx", operatorStr, negated))
  }

  // ---------- actions ----------

  datatype QuoteState = Closed | Open(mark: char)

  function Advance(q: QuoteState, c: char): QuoteState {
    match q
    case Closed => if c == '\'' || c == '"' then Open(c) else Closed
    case Open(mark) => if c == mark then Closed else q
  }

  predicate Cuts(q: QuoteState, c: char) {
    q.Closed? && c == ','
  }

  /** Pieces of the text s that remains; cur is the piece being collected. The last piece is
      kept only when flush holds. */
  function PiecesFrom(s: string, cur: string, q: QuoteState, flush: bool): seq<string> {
    if s == "" then (if flush && cur != "" then [cur] else [])
    else if Cuts(q, s[0]) then
      (if cur == "" then [] else [cur]) + PiecesFrom(s[1..], "", q, flush)
    else PiecesFrom(s[1..], cur + [s[0]], Advance(q, s[0]), flush)
  }

  /** The source keeps the last piece when the byte offset of the last code point is one
      less than the byte length, that is, when that code point takes a single byte. */
  predicate EndsInOneByte(s: string) {
    s != "" && OneByte(s[|s| - 1])
  }

  function Pieces(actionsStr: string): seq<string> {
    PiecesFrom(actionsStr, "", Closed, EndsInOneByte(actionsStr))
  }

  function Utf8Width(c: char): (w: nat)
    ensures 1 <= w <= 4 && (w == 1 <==> OneByte(c))
  {
    if c <= '\U{007F}' then 1 else if c <= '\U{07FF}' then 2 else if c <= '\U{FFFF}' then 3 else 4
  }

  function Utf8Len(s: string): (n: nat)
    ensures n >= |s|
  {
    if s == "" then 0 else Utf8Width(s[0]) + Utf8Len(s[1..])
  }

  method SplitActions(actionsStr: string) returns (parts: seq<string>)
    ensures parts == Pieces(actionsStr)
  {
    parts := [];
    var current := "";
    var q := Closed;
    var offset := 0;
    ghost var flush := EndsInOneByte(actionsStr);
    for k := 0 to |actionsStr|
      invariant offset + Utf8Len(actionsStr[k..]) == Utf8Len(actionsStr)
      invariant k < |actionsStr| || !flush ==>
                  Pieces(actionsStr) == parts + PiecesFrom(actionsStr[k..], current, q, flush)
      invariant k == |actionsStr| ==> Pieces(actionsStr) == parts
    {
      var r := actionsStr[k];
      assert actionsStr[k..][1..] == actionsStr[k + 1..];
      if Cuts(q, r) {
        if |current| > 0 {
          parts := parts + [current];
          current := "";
        }
      } else {
        q := Advance(q, r);
        current := current + [r];
      }
      // the byte offset of the last one-byte character
      if offset == Utf8Len(actionsStr) - 1 && |current| > 0 {
        parts := parts + [current];
      }
      offset := offset + Utf8Width(r);
    }
  }

  function ActionOf(part: string): Parsed<Action> {
    if ':' in part then
      var k := IndexOf(part, ':');
      var parameter :- Unquote(Trim(part[k + 1..]), '\'');
      Ok(Action(Trim(part[..k]), parameter))
    else Ok(Action(part, ""))
  }

  function ActionsOf(parts: seq<string>): Parsed<seq<Action>> {
    if parts == [] then Ok([])
    else if Trim(parts[0]) == "" then ActionsOf(parts[1..])
    else
      var a :- ActionOf(Trim(parts[0]));
      var rest :- ActionsOf(parts[1..]);
      Ok([a] + rest)
  }

  function ActionsFrom(actionsStr: string): Parsed<seq<Action>> {
    ActionsOf(Pieces(actionsStr))
  }

  method ParseActions(actionsStr: string) returns (res: Parsed<seq<Action>>)
    ensures res == ActionsFrom(actionsStr)
  {
    var actions: seq<Action> := [];
    var actionParts := SplitActions(actionsStr);
    assert actionParts[0..] == actionParts;
    PrefixedNone(ActionsOf(actionParts));
    for i := 0 to |actionParts|
      invariant ActionsOf(actionParts) == Prefixed(actions, ActionsOf(actionParts[i..]))
    {
      assert actionParts[i..][1..] == actionParts[i + 1..];
      var actionPart := Trim(actionParts[i]);
      if actionPart != "" {
        var action := ActionOf(actionPart);
        if action.IsFailure() {
          return action.PropagateFailure();
        }
        PrefixedStep(actions, action.value, ActionsOf(actionParts[i + 1..]));
        actions := actions + [action.value];
      }
    }
    assert actions + [] == actions;
    return Ok(actions);
  }

  ghost function Prefixed(done: seq<Action>, rest: Parsed<seq<Action>>): Parsed<seq<Action>> {
    if rest.Ok? then Ok(done + rest.value) else rest
  }

  lemma PrefixedNone(rest: Parsed<seq<Action>>)
    ensures Prefixed([], rest) == rest
  {
    if rest.Ok? {
      assert [] + rest.value == rest.value;
    }
  }

  lemma PrefixedStep(done: seq<Action>, a: Action, rest: Parsed<seq<Action>>)
    ensures Prefixed(done, Prefixed([a], rest)) == Prefixed(done + [a], rest)
  {
    if rest.Ok? {
      assert done + ([a] + rest.value) == done + [a] + rest.value;
    }
  }

  // ---------- components ----------

  const ACTION_PATTERNS := [
    "id:", "phase:", "pass", "log", "nolog", "deny", "block", "allow",
    "status:", "msg:", "tag:", "severity:", "redirect:", "drop",
    "chain", "skip:", "skipafter:", "t:", "capture", "initcol:",
    "setvar:", "expirevar:", "deprecatevar:", "exec:", "sanitisearg:",
    "sanitisematched", "sanitiserequestheader:", "sanitiseresponseheader:",
    "multimatch", "noauditlog", "auditlog", "logdata:", "ver:", "maturity:",
    "accuracy:", "rev:", "ctl:"]

  /** unicode.ToLower where its result is ASCII; other code points match no pattern. */
  function Lower(c: char): char {
    if 'A' <= c <= 'Z' then c - 'A' + 'a'
    else if c == '\U{0130}' then 'i'
    else if c == '\U{212A}' then 'k'
    else c
  }

  function ToLower(s: string): string {
    seq(|s|, i requires 0 <= i < |s| => Lower(s[i]))
  }

  predicate ActionsLike(part: string) {
    exists k :: 0 <= k < |ACTION_PATTERNS| && HasPrefix(ToLower(part), ACTION_PATTERNS[k])
  }

  method IsActionsLikePart(part: string) returns (found: bool)
    ensures found == ActionsLike(part)
  {
    var partLower := ToLower(part);
    for k := 0 to |ACTION_PATTERNS|
      invariant forall j :: 0 <= j < k ==> !HasPrefix(partLower, ACTION_PATTERNS[j])
    {
      if HasPrefix(partLower, ACTION_PATTERNS[k]) {
        return true;
      }
    }
    return false;
  }

  /** First position from i on whose part looks like an action list, or |parts|. */
  function FirstActions(parts: seq<string>, i: nat): (k: nat)
    requires i <= |parts|
    ensures i <= k <= |parts|
    decreases |parts| - i
  {
    if i == |parts| || ActionsLike(Trim(parts[i])) then i else FirstActions(parts, i + 1)
  }

  /** The operator text and the position of the actions. With more than three components the
      operator is unquoted and runs up to the actions. A hit at position 2 is indistinguishable
      from no hit, and the last component is then taken as the actions. */
  function LocateOperator(parts: seq<string>): (r: (string, nat))
    requires |parts| >= 2
    ensures 2 <= r.1
  {
    if |parts| <= 3 then (Trim(parts[1]), 2)
    else
      var k := FirstActions(parts, 2);
      if 2 < k < |parts| then (Join(parts[1..k], " "), k)
      else (Join(parts[1..|parts| - 1], " "), |parts| - 1)
  }

  method FindOperator(parts: seq<string>) returns (operatorStr: string, actionsStart: nat)
    requires |parts| >= 2
    ensures (operatorStr, actionsStart) == LocateOperator(parts)
  {
    operatorStr, actionsStart := Trim(parts[1]), 2;
    if |parts| > 3 {
      var i := 2;
      while i < |parts|
        invariant 2 <= i <= |parts|
        invariant FirstActions(parts, 2) == FirstActions(parts, i)
        invariant actionsStart == 2
      {
        var like := IsActionsLikePart(Trim(parts[i]));
        if like {
          operatorStr, actionsStart := Join(parts[1..i], " "), i;
          break;
        }
        i := i + 1;
      }
      if actionsStart == 2 {
        operatorStr, actionsStart := Join(parts[1..|parts| - 1], " "), |parts| - 1;
      }
    }
  }

  function OperatorOf(operatorStr: string): Parsed<Operator> {
    var negated := StartsWith(operatorStr, '!');
    var bare := if negated then Trim(operatorStr[1..]) else operatorStr;
    var body :- Unquote(bare, '"');
    OperatorFrom(body, negated)
  }

  function ActionsAt(parts: seq<string>, k: nat): Parsed<seq<Action>> {
    if |parts| <= k then Ok([])
    else
      var body :- Unquote(Trim(parts[k]), '"');
      ActionsFrom(body)
  }

  function RuleOf(parts: seq<string>): Parsed<SecRule> {
    if |parts| < 2 then Err(InvalidRule)
    else
      var variables :- VariablesFrom(Trim(parts[0]));
      var located := LocateOperator(parts);
      var operator :- OperatorOf(located.0);
      var actions :- ActionsAt(parts, located.1);
      Ok(SecRule(variables, operator, actions))
  }

  // ---------- line continuations ----------

  function CleanLine(line: string): string {
    var t := Trim(line);
    if EndsWith(t, '\\') then Trim(t[..|t| - 1]) else t
  }

  function CleanLines(lines: seq<string>): seq<string> {
    if lines == [] then []
    else (if CleanLine(lines[0]) == "" then [] else [CleanLine(lines[0])]) + CleanLines(lines[1..])
  }

  function Clean(ruleText: string): string {
    Join(CleanLines(Split(ruleText, '\n')), " ")
  }

  lemma {:induction false} CleanLinesAppend(a: seq<string>, b: seq<string>)
    ensures CleanLines(a + b) == CleanLines(a) + CleanLines(b)
  {
    if a == [] {
      assert a + b == b;
    } else {
      assert (a + b)[1..] == a[1..] + b;
      CleanLinesAppend(a[1..], b);
    }
  }

  method CleanLineContinuations(ruleText: string) returns (text: string)
    ensures text == Clean(ruleText)
  {
    var lines := Split(ruleText, '\n');
    var cleanedLines: seq<string> := [];
    for i := 0 to |lines|
      invariant cleanedLines == CleanLines(lines[..i])
    {
      assert lines[..i + 1] == lines[..i] + [lines[i]];
      CleanLinesAppend(lines[..i], [lines[i]]);
      var line := Trim(lines[i]);
      if EndsWith(line, '\\') {
        line := Trim(line[..|line| - 1]);
        if line != "" {
          cleanedLines := cleanedLines + [line];
        }
      } else if line != "" {
        cleanedLines := cleanedLines + [line];
      }
    }
    assert lines[..|lines|] == lines;
    return Join(cleanedLines, " ");
  }

  // ---------- the whole parser ----------

  function WithoutKeyword(text: string): string {
    if HasPrefix(text, "SecRule") then Trim(text[7..]) else text
  }

  function Parse(ruleText: string): Parsed<SecRule> {
    if ruleText == "" then Err(InvalidRule)
    else RuleOf(Tokenizer.Components(WithoutKeyword(Clean(Trim(ruleText)))))
  }

  method ParseRule(ruleText: string) returns (res: Parsed<SecRule>)
    ensures res == Parse(ruleText)
  {
    if ruleText == "" {
      return Err(InvalidRule);
    }
    var text := CleanLineContinuations(Trim(ruleText));
    var parts := Tokenizer.SplitRuleIntoComponents(WithoutKeyword(text));
    if |parts| < 2 {
      return Err(InvalidRule);
    }
    var variables := ParseVariables(Trim(parts[0]));
    if variables.IsFailure() {
      return variables.PropagateFailure();
    }
    var operatorStr, actionsStart := FindOperator(parts);
    var operator := OperatorOf(operatorStr);
    if operator.IsFailure() {
      return operator.PropagateFailure();
    }
    var actions: seq<Action> := [];
    if |parts| > actionsStart {
      var body := Unquote(Trim(parts[actionsStart]), '"');
      if body.IsFailure() {
        return body.PropagateFailure();
      }
      var parsed := ParseActions(body.value);
      if parsed.IsFailure() {
        return parsed.PropagateFailure();
      }
      actions := parsed.value;
    }
    return Ok(SecRule(variables.value, operator.value, actions));
  }
}
