/** The parser never returns a line end: lines are cut and joined before anything else. */
module LineEnds {
  import opened Text
  import opened SecLang
  import opened RuleParser
  import opened Tokenizer

  predicate Absent(c: char, parts: seq<string>) {
    forall i :: 0 <= i < |parts| ==> c !in parts[i]
  }

  lemma TrimAbsent(s: string, c: char)
    requires c !in s
    ensures c !in Trim(s)
  {
    var a, b := TrimDecomposes(s);
  }

  lemma {:induction false} SplitAbsent(s: string, c: char)
    ensures Absent(c, Split(s, c))
    decreases |s|
  {
    var i := IndexOf(s, c);
    if i < |s| {
      SplitAbsent(s[i + 1..], c);
    }
  }

  lemma {:induction false} CleanLinesAbsent(lines: seq<string>, c: char)
    requires Absent(c, lines)
    ensures Absent(c, CleanLines(lines))
  {
    if lines != [] {
      var t := Trim(lines[0]);
      TrimAbsent(lines[0], c);
      if EndsWith(t, '\\') {
        TrimAbsent(t[..|t| - 1], c);
      }
      CleanLinesAbsent(lines[1..], c);
    }
  }

  lemma CleanAbsent(s: string)
    ensures '\n' !in Clean(s)
  {
    SplitAbsent(s, '\n');
    var lines := CleanLines(Split(s, '\n'));
    CleanLinesAbsent(Split(s, '\n'), '\n');
    JoinChars(lines, " ", '\n');
  }

  lemma {:induction false} BareAbsent(s: string, inQuotes: bool, c: char)
    requires c !in s
    ensures c !in WithoutBareSpaces(s, inQuotes)
  {
    if s != "" {
      BareAbsent(s[1..], if s[0] == '"' then !inQuotes else inQuotes, c);
    }
  }

  lemma {:induction false} ConcatAbsent(parts: seq<string>, c: char)
    requires c !in Concat(parts)
    ensures Absent(c, parts)
  {
    if parts != [] {
      ConcatAbsent(parts[1..], c);
    }
  }

  lemma ComponentsAbsent(text: string, c: char)
    requires c !in text
    ensures Absent(c, Components(text))
  {
    BareAbsent(text, false, c);
    var lost := ComponentsPrefix(text, "", false);
    var whole := Concat(Components(text));
    assert c !in whole + lost;
    ConcatAbsent(Components(text), c);
  }

  lemma OperatorAbsent(operatorStr: string, c: char)
    requires c !in operatorStr && c != '@' && c != 'r' && c != 'x'
    requires OperatorOf(operatorStr).Ok?
    ensures c !in OperatorOf(operatorStr).value.kind
    ensures c !in OperatorOf(operatorStr).value.parameter
  {
    var negated := StartsWith(operatorStr, '!');
    if negated {
      TrimAbsent(operatorStr[1..], c);
    }
    var bare := if negated then Trim(operatorStr[1..]) else operatorStr;
    var body := Unquote(bare, '"').value;
    assert c !in body;
    var k := IndexOf(body, ' ');
    if k < |body| {
      TrimAbsent(body[k + 1..], c);
    }
  }

  lemma {:induction false} PiecesAbsent(s: string, cur: string, q: QuoteState, flush: bool, c: char)
    requires c !in s && c !in cur
    ensures Absent(c, PiecesFrom(s, cur, q, flush))
  {
    if s != "" {
      if Cuts(q, s[0]) {
        PiecesAbsent(s[1..], "", q, flush, c);
      } else {
        PiecesAbsent(s[1..], cur + [s[0]], Advance(q, s[0]), flush, c);
      }
    }
  }

  predicate AbsentFromActions(c: char, acts: seq<Action>) {
    forall i :: 0 <= i < |acts| ==> c !in acts[i].name && c !in acts[i].parameter
  }

  lemma ActionAbsent(part: string, c: char)
    requires c !in part && ActionOf(part).Ok?
    ensures c !in ActionOf(part).value.name && c !in ActionOf(part).value.parameter
  {
    var k := IndexOf(part, ':');
    if k < |part| {
      TrimAbsent(part[..k], c);
      TrimAbsent(part[k + 1..], c);
    }
  }

  lemma {:induction false} ActionsAbsent(parts: seq<string>, c: char)
    requires Absent(c, parts) && ActionsOf(parts).Ok?
    ensures AbsentFromActions(c, ActionsOf(parts).value)
  {
    if parts != [] {
      ActionsAbsent(parts[1..], c);
      TrimAbsent(parts[0], c);
      if Trim(parts[0]) != "" {
        ActionAbsent(Trim(parts[0]), c);
      }
    }
  }

  lemma LocatedAbsent(parts: seq<string>, c: char)
    requires |parts| >= 2 && Absent(c, parts) && c != ' '
    ensures c !in LocateOperator(parts).0
  {
    var k := FirstActions(parts, 2);
    TrimAbsent(parts[1], c);
    JoinChars(parts[1..|parts| - 1], " ", c);
    if 2 < k {
      JoinChars(parts[1..k], " ", c);
    }
  }

  lemma ActionsAtAbsent(parts: seq<string>, k: nat, c: char)
    requires Absent(c, parts) && ActionsAt(parts, k).Ok?
    ensures AbsentFromActions(c, ActionsAt(parts, k).value)
  {
    if k < |parts| {
      TrimAbsent(parts[k], c);
      var body := Unquote(Trim(parts[k]), '"').value;
      PiecesAbsent(body, "", Closed, EndsInOneByte(body), c);
      ActionsAbsent(Pieces(body), c);
    }
  }

  predicate AbsentFromVariables(c: char, vs: seq<Variable>) {
    forall i :: 0 <= i < |vs| ==> c !in vs[i].name && c !in vs[i].collection
  }

  lemma {:induction false} SplitKeepsAbsent(s: string, sep: char, c: char)
    requires c !in s
    ensures Absent(c, Split(s, sep))
    decreases |s|
  {
    var i := IndexOf(s, sep);
    if i < |s| {
      SplitKeepsAbsent(s[i + 1..], sep, c);
    }
  }

  lemma {:induction false} VariablesAbsent(parts: seq<string>, c: char)
    requires Absent(c, parts)
    ensures AbsentFromVariables(c, VariablesOf(parts))
  {
    if parts != [] {
      VariablesAbsent(parts[1..], c);
      TrimAbsent(parts[0], c);
    }
  }

  /** Whatever the text, a parsed rule has no line end in its variables, operator or actions. */
  lemma ParsedOneLine(ruleText: string)
    requires Parse(ruleText).Ok?
    ensures var r := Parse(ruleText).value;
            && AbsentFromVariables('\n', r.variables)
            && '\n' !in r.operator.kind && '\n' !in r.operator.parameter && AbsentFromActions('\n', r.actions)
  {
    var text := Clean(Trim(ruleText));
    CleanAbsent(Trim(ruleText));
    if HasPrefix(text, "SecRule") {
      TrimAbsent(text[7..], '\n');
    }
    ComponentsAbsent(WithoutKeyword(text), '\n');
    hide Clean, Components, RuleOf;
    RuleAbsent(Components(WithoutKeyword(text)), '\n');
  }

  lemma VariablesFromAbsent(s: string, c: char)
    requires c !in s && VariablesFrom(s).Ok?
    ensures AbsentFromVariables(c, VariablesFrom(s).value)
  {
    SplitKeepsAbsent(s, '|', c);
    VariablesAbsent(Split(s, '|'), c);
  }

  lemma RuleAbsent(parts: seq<string>, c: char)
    requires Absent(c, parts) && RuleOf(parts).Ok? && c == '\n'
    ensures var r := RuleOf(parts).value;
            && AbsentFromVariables(c, r.variables)
            && c !in r.operator.kind && c !in r.operator.parameter && AbsentFromActions(c, r.actions)
  {
    TrimAbsent(parts[0], c);
    hide Trim, VariablesFrom, OperatorOf, ActionsAt, LocateOperator;
    VariablesFromAbsent(Trim(parts[0]), c);
    LocatedAbsent(parts, c);
    OperatorAbsent(LocateOperator(parts).0, c);
    ActionsAtAbsent(parts, LocateOperator(parts).1, c);
  }
}
