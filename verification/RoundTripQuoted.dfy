/** The round trip of rules whose actions hold double quotes. */
module RoundTripQuoted {
  import opened Text
  import opened SecLang
  import opened RuleParser
  import opened Tokenizer
  import opened ActionList
  import opened LineEnds
  import opened RoundTrip
  import opened Cutting

  // ---------- quotes that survive ----------

  /** Double quotes in the printed actions do no harm: there are none, or the operator is quoted and
      not negated, so that the actions are read as one component, and no space is bare in it. */
  predicate QuotesFit(r: SecRule) {
    || '"' !in ActionsSection(r)
    || (OperatorQuoted(r.operator) && !r.operator.negated && NoBareSpace(Quoted(ActionsSection(r)), false))
  }

  // ---------- components around the actions ----------

  /** After a quoted operator the actions are scanned from the start of a component. */
  lemma AfterQuoted(v: string, body: string, q: string)
    requires v != "" && '"' !in v && ' ' !in v && '"' !in body
    ensures Components(v + (" " + (Quoted(body) + (" " + q)))) == [v, Quoted(body)] + Components(q)
  {
    var rest := Quoted(body) + (" " + q);
    RunPlain(v, " " + rest, "");
    assert "" + v == v;
    TakeQuotedString(body, " " + q);
    RoundTrip.Gap(rest, v);
    assert (" " + q)[1..] == q;
    assert ComponentsFrom(" " + q, "", false) == Components(q);
    assert [v] + ([Quoted(body)] + Components(q)) == [v, Quoted(body)] + Components(q);
  }

  lemma CutTail(o: string, s1: string, rest: string)
    requires o != "" && '"' !in s1
    ensures ComponentsFrom(" " + (Quoted(s1) + rest), o, false) == [o, Quoted(s1)] + Components(rest)
  {
    TakeQuotedString(s1, rest);
    RoundTrip.Gap(Quoted(s1) + rest, o);
    hide ComponentsFrom, TakeQuoted;
    assert [o] + ([Quoted(s1)] + Components(rest)) == [o, Quoted(s1)] + Components(rest);
  }

  lemma PlainAfterGap(v: string, rest: string)
    requires v != "" && '"' !in v && ' ' !in v && rest != "" && rest[0] != ' ' && rest[0] != '"'
    ensures Components(v + (" " + rest)) == [v] + ComponentsFrom(rest, "", false)
  {
    RunPlain(v, " " + rest, "");
    assert "" + v == v;
    RoundTrip.Gap(rest, v);
    assert TakeQuoted(rest) == ([], rest);
    assert [] + ComponentsFrom(rest, "", false) == ComponentsFrom(rest, "", false);
  }

  /** After any other operator the first quoted piece of the actions is cut off. */
  lemma AfterUnquoted(v: string, o: string, s1: string, rest: string)
    requires v != "" && '"' !in v && ' ' !in v
    requires o != "" && o[0] != ' ' && o[0] != '"' && '"' !in s1
    requires var t := " " + (Quoted(s1) + rest); ComponentsFrom(o + t, "", false) == ComponentsFrom(t, o, false)
    ensures Components(v + (" " + (o + (" " + (Quoted(s1) + rest))))) == [v, o, Quoted(s1)] + Components(rest)
  {
    hide ComponentsFrom, TakeQuoted, Components;
    var tail := " " + (Quoted(s1) + rest);
    assert (o + tail)[0] == o[0];
    PlainAfterGap(v, o + tail);
    CutTail(o, s1, rest);
    var more := Components(rest);
    assert [v] + ([o, Quoted(s1)] + more) == [v, o, Quoted(s1)] + more;
  }

  lemma {:induction false} FirstKeeps(s: string, cur: string, inQuotes: bool)
    requires cur != ""
    ensures var cs := ComponentsFrom(s, cur, inQuotes); cs != [] && cur <= cs[0]
    decreases |s|
  {
    if s != "" && (s[0] == '"' || s[0] != ' ' || inQuotes) {
      FirstKeeps(s[1..], cur + [s[0]], if s[0] == '"' then !inQuotes else inQuotes);
    }
  }

  /** A text with something else than spaces has a component. */
  lemma {:induction false} SomeComponent(s: string)
    requires s != "" && s[|s| - 1] != ' '
    ensures Components(s) != []
    decreases |s|
  {
    if s[0] == ' ' {
      assert s[1..] != "" by { assert |s| > 1; }
      SomeComponent(s[1..]);
    } else {
      FirstKeeps(s[1..], [s[0]], s[0] == '"');
      assert "" + [s[0]] == [s[0]];
    }
  }

  // ---------- a bare space in the actions ----------

  lemma {:induction false} BareEnds(s: string)
    requires s != "" && s[|s| - 1] != ' '
    ensures WithoutBareSpaces(s, false) != ""
  {
    if s[0] == ' ' {
      BareEnds(s[1..]);
    }
  }

  /** A bare space ends the first component, and what follows makes another one, or is lost. */
  lemma {:induction false} TwoComponents(s: string, cur: string, inQuotes: bool)
    requires cur != "" && !NoBareSpace(s, inQuotes) && s[|s| - 1] != ' '
    requires !Scan(ModeOf(cur, inQuotes), s).GapQuoting?
    ensures |ComponentsFrom(s, cur, inQuotes)| >= 2
    decreases |s|
  {
    if s[0] == '"' || s[0] != ' ' || inQuotes {
      var state := if s[0] == '"' then !inQuotes else inQuotes;
      assert s == [s[0]] + s[1..];
      assert !NoBareSpace(s[1..], state);
      TwoComponents(s[1..], cur + [s[0]], state);
    } else {
      var lost := ComponentsPrefix(s, cur, false);
      BareEnds(s[1..]);
      if |ComponentsFrom(s, cur, false)| < 2 {
        FirstIs(s, cur);
        ConcatOne(cur);
      }
    }
  }

  lemma FirstIs(s: string, cur: string)
    requires cur != "" && StartsWith(s, ' ') && |ComponentsFrom(s, cur, false)| < 2
    ensures ComponentsFrom(s, cur, false) == [cur]
  {
  }

  /** A quote directly after something else than a space never opens in a gap. */
  lemma {:induction false} ScanLast(m: Mode, s: string)
    requires |s| >= 2 && s[|s| - 1] == '"' && s[|s| - 2] != ' '
    ensures !Scan(m, s).GapQuoting?
    decreases |s|
  {
    if |s| == 2 {
      var m' := Step(m, s[0]);
      assert s[1..] == [s[1]] && [s[1]][1..] == "";
      assert Scan(m', [s[1]]) == Scan(Step(m', s[1]), "");
    } else {
      ScanLast(Step(m, s[0]), s[1..]);
    }
  }

  // ---------- counting quotes through the operator ----------

  lemma {:induction false} JoinCount(parts: seq<string>, c: char)
    requires c != ' '
    ensures Count(Join(parts, " "), c) == CountAll(parts, c)
  {
    if |parts| == 1 {
      assert parts[1..] == [];
    } else if |parts| > 1 {
      JoinCount(parts[1..], c);
      CountConcat(parts[0] + " ", Join(parts[1..], " "), c);
      CountConcat(parts[0], " ", c);
      assert " "[1..] == "";
    }
  }

  lemma OperatorFromCount(body: string, negated: bool, c: char)
    requires OperatorFrom(body, negated).Ok? && c != ' ' && !IsSpace(c)
    ensures var op := OperatorFrom(body, negated).value;
            Count(op.kind, c) + Count(op.parameter, c) >= Count(body, c)
  {
    if StartsWith(body, '@') && ' ' in body {
      var k := IndexOf(body, ' ');
      var p, q := body[..k], body[k + 1..];
      assert body == p + " " + q;
      CountConcat(p + " ", q, c);
      CountConcat(p, " ", c);
      assert " "[1..] == "";
      CountTrim(q, c);
    }
  }

  /** The operator text without its negation mark. */
  function Bare(operatorStr: string): string {
    if StartsWith(operatorStr, '!') then Trim(operatorStr[1..]) else operatorStr
  }

  lemma BareCount(operatorStr: string)
    ensures Count(Bare(operatorStr), '"') == Count(operatorStr, '"')
  {
    if StartsWith(operatorStr, '!') {
      CountTrim(operatorStr[1..], '"');
    }
  }

  lemma OuterPair(s: string)
    requires Unquote(s, '"').Ok?
    ensures Count(Unquote(s, '"').value, '"') + 2 >= Count(s, '"')
    ensures !StartsWith(s, '"') ==> Unquote(s, '"').value == s
  {
    var body := Unquote(s, '"').value;
    if body != s {
      assert s == "\"" + body + "\"";
      CountConcat("\"" + body, "\"", '"');
      CountConcat("\"", body, '"');
      assert "\""[1..] == "";
    }
  }

  /** The operator keeps all quotes of its text except an outer pair. */
  lemma OperatorQuotes(operatorStr: string)
    requires OperatorOf(operatorStr).Ok?
    ensures var op := OperatorOf(operatorStr).value;
            var kept := Count(op.kind, '"') + Count(op.parameter, '"');
            && kept + 2 >= Count(operatorStr, '"')
            && (!StartsWith(Bare(operatorStr), '"') ==> kept >= Count(operatorStr, '"'))
  {
    hide Count, OperatorFrom;
    BareCount(operatorStr);
    var bare := Bare(operatorStr);
    OuterPair(bare);
    OperatorFromCount(Unquote(bare, '"').value, StartsWith(operatorStr, '!'), '"');
  }

  lemma {:induction false} CountPair(parts: seq<string>, c: char)
    requires |parts| >= 2
    ensures CountAll(parts, c) >= Count(parts[0], c) + Count(parts[1], c)
  {
    assert parts[1..][0] == parts[1];
  }

  /** With more than three components the operator is made of at least the second and third. */
  lemma ManyParts(parts: seq<string>, r: SecRule) returns (m: nat)
    requires |parts| >= 4 && RuleOf(parts) == Ok(r)
    ensures 3 <= m <= |parts| && OperatorOf(Join(parts[1..m], " ")) == Ok(r.operator)
  {
    hide OperatorOf, VariablesFrom, ActionsAt, Join;
    var k := FirstActions(parts, 2);
    m := if 2 < k < |parts| then k else |parts| - 1;
  }

  /** The text starts with an operator name, with or without a negation mark. */
  predicate NameFirst(o: string) {
    StartsWith(o, '@') || (|o| >= 2 && o[0] == '!' && o[1] == '@')
  }

  lemma NameFirstBare(o: string, t: string)
    requires NameFirst(o) && o <= t
    ensures !StartsWith(Bare(t), '"')
  {
    if o[0] == '!' {
      var a, b := TrimDecomposes(t[1..]);
      assert t[1] == '@';
    }
  }

  lemma JoinPrefix(parts: seq<string>)
    requires parts != []
    ensures parts[0] <= Join(parts, " ")
  {
  }

  /** Components that put more quotes into the operator than an outer pair never give back an
      operator without quotes. */
  lemma TooManyQuotes(parts: seq<string>, r: SecRule)
    requires |parts| >= 4 && '"' !in r.operator.kind && '"' !in r.operator.parameter
    requires Count(parts[1], '"') + Count(parts[2], '"') >= 3 || (NameFirst(parts[1]) && Count(parts[2], '"') >= 1)
    ensures RuleOf(parts) != Ok(r)
  {
    hide RuleOf, OperatorOf, Count, Join, CountAll;
    if RuleOf(parts) == Ok(r) {
      var m := ManyParts(parts, r);
      var own := parts[1..m];
      var t := Join(own, " ");
      assert own[0] == parts[1] && own[1] == parts[2];
      JoinCount(own, '"');
      CountPair(own, '"');
      JoinPrefix(own);
      OperatorQuotes(t);
      CountZero(r.operator.kind, '"');
      CountZero(r.operator.parameter, '"');
      if NameFirst(parts[1]) {
        NameFirstBare(parts[1], t);
      }
      assert false;
    }
  }

  // ---------- the actions as printed ----------

  lemma ActionLast(a: Action)
    requires WellNamed(a)
    ensures ActionText(a) != "" && ActionText(a)[|ActionText(a)| - 1] != ' '
  {
    var p, t := a.parameter, ActionText(a);
    if p == "" {
      assert t == a.name;
    } else if NeedsQuoting(p) {
      assert t[|t| - 1] == '\'';
    } else {
      assert t[|t| - 1] == p[|p| - 1];
    }
  }

  lemma SectionLast(acts: seq<Action>)
    requires acts != [] && AllWellNamed(acts)
    ensures Section(acts) != "" && Section(acts)[|Section(acts)| - 1] != ' '
  {
    hide ActionText, WellNamed;
    var ts := ActionTexts(acts);
    ActionLast(acts[|acts| - 1]);
    JoinEnd(ts, ",");
  }

  lemma {:induction false} NoneCounted(acts: seq<Action>, c: char)
    requires CountActions(acts, c) == 0
    ensures AbsentFromActions(c, acts)
  {
    if acts != [] {
      CountZero(acts[0].name, c);
      CountZero(acts[0].parameter, c);
      NoneCounted(acts[1..], c);
      assert forall i :: 0 < i < |acts| ==> acts[i] == acts[1..][i - 1];
    }
  }

  lemma PlainIff(r: SecRule)
    requires Printable(r)
    ensures Plain(r) <==> '"' !in ActionsSection(r)
  {
    if '"' !in ActionsSection(r) {
      SectionCount(r.actions, '"');
      CountZero(ActionsSection(r), '"');
      NoneCounted(r.actions, '"');
    } else if Plain(r) {
      SectionChars(r, '"');
    }
  }

  // ---------- rules with quotes in their actions ----------

  lemma BodyShape(r: SecRule)
    requires Printable(r) && r.actions != []
    ensures RuleBody(r) == VariablesSection(r) + (" " + (OperatorText(r.operator) + (" " + Quoted(ActionsSection(r)))))
    ensures var v := VariablesSection(r); v != "" && '"' !in v && ' ' !in v
  {
    PrintedShape(r);
    PlainJoin(VariableTexts(r.variables));
  }

  /** Quotes that fit are read as part of the actions. */
  lemma FittingQuotes(r: SecRule)
    requires Printable(r) && r.actions != []
    requires OperatorQuoted(r.operator) && !r.operator.negated && NoBareSpace(Quoted(ActionsSection(r)), false)
    ensures Components(RuleBody(r)) == Sections(r)
  {
    var v, body, q := VariablesSection(r), OperatorBody(r.operator), Quoted(ActionsSection(r));
    BodyShape(r);
    assert '"' !in body;
    assert OperatorText(r.operator) == Quoted(body);
    AfterQuoted(v, body, q);
    OneComponent(q, "", false);
    assert "" + q == q;
  }

  lemma QuotedCount(s: string)
    ensures Count(Quoted(s), '"') == Count(s, '"') + 2
  {
    CountConcat("\"" + s, "\"", '"');
    CountConcat("\"", s, '"');
    assert "\""[1..] == "";
  }

  /** A bare space in the actions after a quoted operator. */
  lemma BareSpaceFails(r: SecRule)
    requires Printable(r) && r.actions != []
    requires OperatorQuoted(r.operator) && !r.operator.negated && !NoBareSpace(Quoted(ActionsSection(r)), false)
    ensures RuleOf(Components(RuleBody(r))) != Ok(r)
  {
    hide RuleOf;
    var v, body, s := VariablesSection(r), OperatorBody(r.operator), ActionsSection(r);
    var q := Quoted(s);
    BodyShape(r);
    assert '"' !in body;
    assert OperatorText(r.operator) == Quoted(body);
    AfterQuoted(v, body, q);
    ActionsMany(r);
    var cs := Components(q);
    QuotedCount(body);
    FirstQuote(cs[0]);
    TooManyQuotes([v, Quoted(body)] + cs, r);
  }

  lemma FirstQuote(c: string)
    requires StartsWith(c, '"')
    ensures Count(c, '"') >= 1
  {
  }

  lemma ActionsMany(r: SecRule)
    requires Printable(r) && r.actions != [] && !NoBareSpace(Quoted(ActionsSection(r)), false)
    ensures var cs := Components(Quoted(ActionsSection(r))); |cs| >= 2 && StartsWith(cs[0], '"')
  {
    var s := ActionsSection(r);
    var q := Quoted(s);
    var t := s + "\"";
    assert q[1..] == t && q == "\"" + t && "" + "\"" == "\"";
    SectionLast(r.actions);
    assert s == Section(r.actions);
    assert t[|t| - 2] == s[|s| - 1];
    ScanLast(Quoting, t);
    assert WithoutBareSpaces(q, false) == ['"'] + WithoutBareSpaces(t, true);
    assert !NoBareSpace(t, true);
    TwoComponents(t, "\"", true);
    FirstKeeps(t, "\"", true);
  }

  /** Quotes in the actions after an operator that is not quoted, or negated. */
  lemma CutFails(r: SecRule)
    requires Printable(r) && r.actions != [] && '"' in ActionsSection(r) && StartsWith(r.operator.kind, '@')
    requires !OperatorQuoted(r.operator) || r.operator.negated
    ensures RuleOf(Components(RuleBody(r))) != Ok(r)
  {
    hide RuleOf, Components, ComponentsFrom, Count, OperatorText, RuleBody, VariablesSection, ActionsSection;
    var v, o, s := VariablesSection(r), OperatorText(r.operator), ActionsSection(r);
    BodyShape(r);
    var s1, rest := CutSection(s);
    CollectedOperator(r, " " + (Quoted(s1) + rest));
    AfterUnquoted(v, o, s1, rest);
    SomeComponent(rest);
    QuotedCount(s1);
    OperatorMarks(r.operator);
    TooManyQuotes([v, o, Quoted(s1)] + Components(rest), r);
  }

  lemma CutSection(s: string) returns (s1: string, rest: string)
    requires '"' in s
    ensures '"' !in s1 && Quoted(s) == Quoted(s1) + rest && rest != "" && rest[|rest| - 1] != ' '
  {
    var k := IndexOf(s, '"');
    s1, rest := s[..k], s[k + 1..] + "\"";
    assert s == s1 + "\"" + s[k + 1..];
  }

  lemma CollectedOperator(r: SecRule, t: string)
    requires Printable(r) && (!OperatorQuoted(r.operator) || r.operator.negated) && StartsWith(r.operator.kind, '@')
    ensures var o := OperatorText(r.operator);
            && o != "" && o[0] != ' ' && o[0] != '"'
            && ComponentsFrom(o + t, "", false) == ComponentsFrom(t, o, false)
  {
    PrintedShape(r);
    var op := r.operator;
    OperatorRun(op.negated, OperatorQuoted(op), OperatorBody(op), t);
  }

  /** Either the operator starts with its name, or it has a pair of quotes of its own. */
  lemma OperatorMarks(op: Operator)
    requires StartsWith(op.kind, '@') && '"' !in op.kind && '"' !in op.parameter
    requires !OperatorQuoted(op) || op.negated
    ensures NameFirst(OperatorText(op)) || Count(OperatorText(op), '"') >= 2
  {
    if OperatorQuoted(op) {
      var q := Quoted(OperatorBody(op));
      assert OperatorText(op) == "!" + q;
      CountConcat("!", q, '"');
      QuotedCount(OperatorBody(op));
    }
  }

  /** The round trip. A printable rule survives printing and parsing if and only if it is faithful
      and the double quotes of its actions fit. */
  lemma RoundTripTheorem(r: SecRule)
    requires Printable(r)
    ensures Parse(RuleText(r)) == Ok(r) <==> RuleFaithful(r) && QuotesFit(r)
  {
    hide Parse, RuleText, RuleBody, RuleFaithful, NoBareSpace;
    PlainIff(r);
    if Plain(r) {
      PlainRoundTrip(r);
    } else if !OneLine(r) {
      OneLineOnly(r);
    } else {
      assert r.actions != [] by { NoActions(r); }
      ParseBody(r);
      QuotedRoundTrip(r);
    }
  }

  lemma NoActions(r: SecRule)
    requires '"' in ActionsSection(r)
    ensures r.actions != []
  {
  }

  lemma OneLineOnly(r: SecRule)
    requires !OneLine(r)
    ensures Parse(RuleText(r)) != Ok(r) && !RuleFaithful(r)
  {
    hide Parse, RuleText;
    if Parse(RuleText(r)).Ok? {
      ParsedOneLine(RuleText(r));
    }
  }

  lemma QuotedRoundTrip(r: SecRule)
    requires Printable(r) && OneLine(r) && r.actions != [] && '"' in ActionsSection(r)
    ensures RuleOf(Components(RuleBody(r))) == Ok(r) <==> RuleFaithful(r) && QuotesFit(r)
  {
    hide RuleBody, RuleFaithful, NoBareSpace, RuleOf, Components;
    if !StartsWith(r.operator.kind, '@') {
      UnnamedFails(r, Components(RuleBody(r)));
    } else if !OperatorQuoted(r.operator) || r.operator.negated {
      CutFails(r);
    } else if NoBareSpace(Quoted(ActionsSection(r)), false) {
      FittingQuotes(r);
      RuleOfSections(r);
      ReassembledIff(r);
    } else {
      BareSpaceFails(r);
    }
  }

  lemma UnnamedFails(r: SecRule, parts: seq<string>)
    requires !StartsWith(r.operator.kind, '@')
    ensures RuleOf(parts) != Ok(r) && !RuleFaithful(r)
  {
    if RuleOf(parts).Ok? {
      ParsedKind(LocateOperator(parts).0);
    }
  }
}
