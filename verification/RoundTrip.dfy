/** Printing a rule and parsing the text again. */
module RoundTrip {
  import opened Text
  import opened SecLang
  import opened RuleParser
  import opened Tokenizer
  import opened ActionList
  import opened LineEnds

  // ---------- variables ----------

  predicate PlainText(t: string) {
    t != "" && forall i :: 0 <= i < |t| ==> !IsSpace(t[i]) && t[i] != '"' && t[i] != '|'
  }

  predicate PlainVariables(vs: seq<Variable>) {
    vs != [] && forall i :: 0 <= i < |vs| ==> PlainText(VariableText(vs[i]))
  }

  /** The name and the collection of v agree, as they do in every parsed variable. */
  predicate Canonical(v: Variable) {
    && v.transformations == []
    && ':' !in v.name
    && (v.collection == "" || HasPrefix(v.collection, v.name + ":"))
  }

  predicate AllCanonical(vs: seq<Variable>) {
    forall i :: 0 <= i < |vs| ==> Canonical(vs[i])
  }

  lemma CanonicalReread(v: Variable)
    requires VariableText(v) != ""
    ensures VariableOf(VariableText(v)) == v <==> Canonical(v)
  {
    var c := v.collection;
    if c != "" && Canonical(v) {
      assert c == v.name + [':'] + c[|v.name| + 1..];
      IndexOfAt(v.name, ':', c[|v.name| + 1..]);
      assert c[|v.name|] == ':';
    } else if c != "" && ':' in c {
      var k := IndexOf(c, ':');
      assert c == c[..k] + ":" + c[k + 1..];
    }
  }

  lemma {:induction false} VariablesReread(ts: seq<string>)
    requires forall i :: 0 <= i < |ts| ==> PlainText(ts[i])
    ensures |VariablesOf(ts)| == |ts|
    ensures forall i :: 0 <= i < |ts| ==> VariablesOf(ts)[i] == VariableOf(ts[i])
  {
    if ts != [] {
      TrimFixed(ts[0]);
      VariablesReread(ts[1..]);
    }
  }

  lemma {:induction false} PlainJoin(ts: seq<string>)
    requires ts != [] && forall i :: 0 <= i < |ts| ==> PlainText(ts[i])
    ensures var s := Join(ts, "|");
            s != "" && forall i :: 0 <= i < |s| ==> !IsSpace(s[i]) && s[i] != '"'
  {
    if |ts| > 1 {
      PlainJoin(ts[1..]);
    }
  }

  lemma VariablesSame(vs: seq<Variable>)
    requires PlainVariables(vs)
    ensures VariablesOf(VariableTexts(vs)) == vs <==> AllCanonical(vs)
  {
    var ts := VariableTexts(vs);
    VariablesReread(ts);
    var read := VariablesOf(ts);
    forall i | 0 <= i < |vs| ensures read[i] == vs[i] <==> Canonical(vs[i]) {
      CanonicalReread(vs[i]);
    }
    if read == vs {
      assert forall i :: 0 <= i < |vs| ==> read[i] == vs[i];
    }
  }

  lemma VariablesRoundTrip(vs: seq<Variable>)
    requires PlainVariables(vs)
    ensures VariablesFrom(Join(VariableTexts(vs), "|")).Ok?
    ensures VariablesFrom(Join(VariableTexts(vs), "|")) == Ok(vs) <==> AllCanonical(vs)
  {
    var ts := VariableTexts(vs);
    PlainJoin(ts);
    forall p | p in ts ensures '|' !in p {
      var i :| 0 <= i < |vs| && p == ts[i];
      assert p == VariableText(vs[i]);
    }
    SplitInvertsJoin(ts, '|');
    VariablesReread(ts);
    VariablesSame(vs);
  }

  // ---------- operator ----------

  predicate OperatorFaithful(op: Operator) {
    && StartsWith(op.kind, '@') && ' ' !in op.kind
    && Trimmed(op.parameter)
    && (OperatorQuoted(op) || Trimmed(op.kind))
  }

  /** Every parsed operator has a name that starts with @ and holds no space. */
  lemma ParsedKind(operatorStr: string)
    requires OperatorOf(operatorStr).Ok?
    ensures StartsWith(OperatorOf(operatorStr).value.kind, '@')
    ensures ' ' !in OperatorOf(operatorStr).value.kind
  {
  }

  lemma OperatorBodyReread(op: Operator)
    requires StartsWith(op.kind, '@') && ' ' !in op.kind
    ensures OperatorFrom(OperatorBody(op), op.negated) == Ok(op.(parameter := Trim(op.parameter)))
  {
    if op.parameter != "" {
      assert OperatorBody(op) == op.kind + [' '] + op.parameter;
      IndexOfAt(op.kind, ' ', op.parameter);
      assert OperatorBody(op)[..|op.kind|] == op.kind;
      assert OperatorBody(op)[|op.kind| + 1..] == op.parameter;
    }
  }

  lemma OperatorTextTrimmed(op: Operator)
    requires StartsWith(op.kind, '@')
    requires OperatorQuoted(op) || Trimmed(op.kind)
    ensures OperatorText(op) != "" && Trimmed(OperatorText(op))
    ensures Trim(OperatorText(op)) == OperatorText(op)
  {
    TrimFixed(OperatorText(op));
  }

  /** The operator text after the negation mark. */
  function OperatorInner(op: Operator): string {
    if OperatorQuoted(op) then "\"" + OperatorBody(op) + "\"" else OperatorBody(op)
  }

  lemma InnerTrimmed(op: Operator)
    requires StartsWith(op.kind, '@') && (OperatorQuoted(op) || Trimmed(op.kind))
    ensures Trim(OperatorInner(op)) == OperatorInner(op)
  {
    TrimFixed(OperatorInner(op));
  }

  lemma InnerUnquoted(op: Operator)
    requires StartsWith(op.kind, '@') && '"' !in op.kind
    ensures Unquote(OperatorInner(op), '"') == Ok(OperatorBody(op))
    ensures !StartsWith(OperatorInner(op), '!')
  {
    var inner := OperatorInner(op);
    if OperatorQuoted(op) {
      assert inner[1..|inner| - 1] == OperatorBody(op);
    } else {
      assert inner == op.kind && inner[0] == '@';
    }
  }

  lemma OperatorTextReread(op: Operator)
    requires StartsWith(op.kind, '@') && '"' !in op.kind
    requires OperatorQuoted(op) || Trimmed(op.kind)
    ensures OperatorOf(OperatorText(op)) == OperatorFrom(OperatorBody(op), op.negated)
  {
    InnerTrimmed(op);
    InnerUnquoted(op);
    var text, inner := OperatorText(op), OperatorInner(op);
    assert text == (if op.negated then "!" else "") + inner;
    hide Trim, Unquote, OperatorFrom, OperatorInner, OperatorBody, OperatorText;
    if op.negated {
      assert text[1..] == inner;
    } else {
      assert text == inner;
    }
  }

  /** Printing an operator and reading it back, for a name that survives trimming. */
  lemma OperatorRoundTrip(op: Operator)
    requires '"' !in op.kind
    requires OperatorQuoted(op) || Trimmed(op.kind)
    ensures OperatorOf(Trim(OperatorText(op))) == Ok(op) <==> OperatorFaithful(op)
    ensures StartsWith(op.kind, '@') && ' ' !in op.kind ==>
              OperatorOf(Trim(OperatorText(op))) == Ok(op.(parameter := Trim(op.parameter)))
  {
    if StartsWith(op.kind, '@') && ' ' !in op.kind {
      OperatorTextTrimmed(op);
      OperatorTextReread(op);
      OperatorBodyReread(op);
      TrimFixed(op.parameter);
    } else if OperatorOf(Trim(OperatorText(op))).Ok? {
      ParsedKind(Trim(OperatorText(op)));
    }
  }

  // ---------- components of the printed text ----------

  lemma {:induction false} RunPlain(p: string, s: string, cur: string)
    requires '"' !in p && ' ' !in p
    ensures ComponentsFrom(p + s, cur, false) == ComponentsFrom(s, cur + p, false)
  {
    if p == "" {
      assert p + s == s && cur + p == cur;
    } else {
      assert (p + s)[1..] == p[1..] + s;
      assert cur + [p[0]] + p[1..] == cur + p;
      RunPlain(p[1..], s, cur + [p[0]]);
    }
  }

  lemma {:induction false} RunQuoted(p: string, s: string, cur: string)
    requires '"' !in p
    ensures ComponentsFrom(p + s, cur, true) == ComponentsFrom(s, cur + p, true)
  {
    if p == "" {
      assert p + s == s && cur + p == cur;
    } else {
      assert (p + s)[1..] == p[1..] + s;
      assert cur + [p[0]] + p[1..] == cur + p;
      RunQuoted(p[1..], s, cur + [p[0]]);
    }
  }

  function Quoted(p: string): string {
    "\"" + p + "\""
  }

  lemma RunQuotedString(p: string, s: string, cur: string)
    requires '"' !in p
    ensures ComponentsFrom(Quoted(p) + s, cur, false) == ComponentsFrom(s, cur + Quoted(p), false)
  {
    var t := "\"" + s;
    assert (Quoted(p) + s)[1..] == p + t;
    RunQuoted(p, t, cur + "\"");
    assert t[1..] == s;
    assert cur + "\"" + p + "\"" == cur + Quoted(p);
  }

  lemma TakeQuotedString(p: string, s: string)
    requires '"' !in p
    ensures TakeQuoted(Quoted(p) + s) == ([Quoted(p)], s)
  {
    var rest := Quoted(p) + s;
    assert rest[1..] == p + ['"'] + s;
    IndexOfAt(p, '"', s);
    assert rest[..|p| + 2] == Quoted(p) && rest[|p| + 2..] == s;
  }

  lemma Gap(s: string, cur: string)
    requires cur != "" && !StartsWith(s, ' ')
    ensures ComponentsFrom(" " + s, cur, false) ==
            [cur] + (TakeQuoted(s).0 + ComponentsFrom(TakeQuoted(s).1, "", false))
  {
    assert (" " + s)[1..] == s;
    assert SkipSpaces(s) == s;
  }

  /** An optional last component, always quoted. */
  datatype Tail = NoTail | Tail(body: string)

  function TailText(t: Tail): string {
    if t.NoTail? then "" else " " + Quoted(t.body)
  }

  function TailParts(t: Tail): seq<string> {
    if t.NoTail? then [] else [Quoted(t.body)]
  }

  predicate TailOk(t: Tail) {
    t.Tail? ==> '"' !in t.body
  }

  lemma TailAfterComponent(t: Tail, cur: string)
    requires TailOk(t) && cur != ""
    ensures ComponentsFrom(TailText(t), cur, false) == [cur] + TailParts(t)
  {
    if t.Tail? {
      var q := Quoted(t.body);
      assert q + "" == q;
      TakeQuotedString(t.body, "");
      Gap(q, cur);
    }
  }

  lemma TailAfterQuoted(t: Tail)
    requires TailOk(t)
    ensures ComponentsFrom(TailText(t), "", false) == TailParts(t)
  {
    if t.Tail? {
      var q := Quoted(t.body);
      assert TailText(t)[1..] == q && q + "" == q && "" + q == q;
      RunQuotedString(t.body, "", "");
    }
  }

  /** An operator as the printer writes it. */
  predicate OperatorShape(negated: bool, quoted: bool, body: string) {
    '"' !in body && (quoted || (body != "" && ' ' !in body))
  }

  function OperatorShapeText(negated: bool, quoted: bool, body: string): string {
    (if negated then "!" else "") + (if quoted then Quoted(body) else body)
  }

  lemma OperatorRun(negated: bool, quoted: bool, body: string, s: string)
    requires OperatorShape(negated, quoted, body)
    ensures var o := OperatorShapeText(negated, quoted, body);
            ComponentsFrom(o + s, "", false) == ComponentsFrom(s, o, false)
  {
    var mark := if negated then "!" else "";
    var inner := if quoted then Quoted(body) else body;
    var o := OperatorShapeText(negated, quoted, body);
    assert o + s == mark + (inner + s);
    RunPlain(mark, inner + s, "");
    assert "" + mark == mark;
    if quoted {
      RunQuotedString(body, s, mark);
    } else {
      RunPlain(body, s, mark);
    }
  }

  lemma QuotedAfterGap(body: string, t: Tail, cur: string)
    requires '"' !in body && TailOk(t) && cur != ""
    ensures ComponentsFrom(" " + (Quoted(body) + TailText(t)), cur, false) == [cur, Quoted(body)] + TailParts(t)
  {
    TakeQuotedString(body, TailText(t));
    TailAfterQuoted(t);
    Gap(Quoted(body) + TailText(t), cur);
    assert [cur] + ([Quoted(body)] + TailParts(t)) == [cur, Quoted(body)] + TailParts(t);
  }

  lemma UnquotedAfterGap(o: string, t: Tail, cur: string)
    requires o != "" && o[0] != ' ' && o[0] != '"' && TailOk(t) && cur != ""
    requires ComponentsFrom(o + TailText(t), "", false) == ComponentsFrom(TailText(t), o, false)
    ensures ComponentsFrom(" " + (o + TailText(t)), cur, false) == [cur, o] + TailParts(t)
  {
    var rest := o + TailText(t);
    assert rest[0] == o[0];
    Gap(rest, cur);
    assert TakeQuoted(rest) == ([], rest);
    TailAfterComponent(t, o);
    assert [cur] + ([] + ([o] + TailParts(t))) == [cur, o] + TailParts(t);
  }

  lemma OperatorAfterGap(negated: bool, quoted: bool, body: string, t: Tail, cur: string)
    requires OperatorShape(negated, quoted, body) && TailOk(t) && cur != ""
    ensures var o := OperatorShapeText(negated, quoted, body);
            ComponentsFrom(" " + (o + TailText(t)), cur, false) == [cur, o] + TailParts(t)
  {
    var o := OperatorShapeText(negated, quoted, body);
    if quoted && !negated {
      assert o == Quoted(body);
      QuotedAfterGap(body, t, cur);
    } else {
      OperatorRun(negated, quoted, body, TailText(t));
      UnquotedAfterGap(o, t, cur);
    }
  }

  function RuleTail(r: SecRule): Tail {
    if r.actions == [] then NoTail else Tail(ActionsSection(r))
  }

  /** The rules the printer is meant for. Double quotes in the operator are excluded because the
      printer writes them as they are and the parser reads them as the end of a section. */
  predicate Printable(r: SecRule) {
    && PlainVariables(r.variables)
    && r.operator.kind != ""
    && '"' !in r.operator.kind && '"' !in r.operator.parameter
    && AllWellNamed(r.actions)
  }

  /** ... with no double quote in the actions either. */
  predicate Plain(r: SecRule) {
    Printable(r) && AbsentFromActions('"', r.actions)
  }

  predicate OneLine(r: SecRule) {
    && '\n' !in r.operator.kind && '\n' !in r.operator.parameter
    && AbsentFromActions('\n', r.actions)
  }

  lemma {:induction false} EscapeChars(s: string, c: char)
    requires c !in s && c != '\\'
    ensures c !in EscapeQuotes(s)
  {
    EscapeCount(s, c);
    CountZero(s, c);
    CountZero(EscapeQuotes(s), c);
  }

  lemma ActionChars(a: Action, c: char)
    requires c == '"' || c == '\n'
    requires c !in a.name && c !in a.parameter
    ensures c !in ActionText(a)
  {
    EscapeChars(a.parameter, c);
  }

  lemma SectionChars(r: SecRule, c: char)
    requires c == '"' || c == '\n'
    requires AbsentFromActions(c, r.actions)
    ensures c !in ActionsSection(r)
  {
    var ts := ActionTexts(r.actions);
    forall i | 0 <= i < |ts| ensures c !in ts[i] {
      ActionChars(r.actions[i], c);
    }
    JoinChars(ts, ",", c);
  }

  lemma PrintedShape(r: SecRule)
    requires Printable(r)
    ensures RuleBody(r) == VariablesSection(r) + (" " + (OperatorText(r.operator) + TailText(RuleTail(r))))
    ensures OperatorText(r.operator) ==
            OperatorShapeText(r.operator.negated, OperatorQuoted(r.operator), OperatorBody(r.operator))
    ensures OperatorShape(r.operator.negated, OperatorQuoted(r.operator), OperatorBody(r.operator))
  {
    if r.actions != [] {
      assert " \"" + ActionsSection(r) + "\"" == " " + Quoted(ActionsSection(r));
    }
    if !OperatorQuoted(r.operator) {
      UnquotedHasNoMarks(r.operator.kind);
    }
  }

  /** The printed text always cuts into two or three components, the three sections. */
  lemma PrintedComponents(r: SecRule)
    requires Plain(r)
    ensures Components(RuleBody(r)) ==
            [VariablesSection(r), OperatorText(r.operator)] +
            (if r.actions == [] then [] else [Quoted(ActionsSection(r))])
  {
    PrintedShape(r);
    SectionChars(r, '"');
    PlainJoin(VariableTexts(r.variables));
    var v, op, t := VariablesSection(r), r.operator, RuleTail(r);
    var rest := " " + (OperatorText(op) + TailText(t));
    RunPlain(v, rest, "");
    assert "" + v == v;
    OperatorAfterGap(op.negated, OperatorQuoted(op), OperatorBody(op), t, v);
  }

  // ---------- parsing the printed text ----------

  /** The printed text does not end in white space. */
  predicate CleanEnd(r: SecRule) {
    r.actions != [] || OperatorQuoted(r.operator) || Trimmed(r.operator.kind)
  }

  lemma BodyEnds(r: SecRule)
    requires Printable(r) && CleanEnd(r)
    ensures var b := RuleBody(r); b != "" && Trimmed(b) && b[|b| - 1] != '\\'
  {
    PlainJoin(VariableTexts(r.variables));
    var b, o := RuleBody(r), OperatorText(r.operator);
    assert b[0] == VariablesSection(r)[0];
    if r.actions != [] {
      assert b[|b| - 1] == '"';
    } else {
      assert o != "" && b[|b| - 1] == o[|o| - 1];
      if !OperatorQuoted(r.operator) {
        UnquotedHasNoMarks(r.operator.kind);
        assert o[|o| - 1] == r.operator.kind[|r.operator.kind| - 1];
      }
    }
  }

  lemma BodyOneLine(r: SecRule)
    requires Printable(r) && OneLine(r)
    ensures '\n' !in RuleBody(r)
  {
    PlainJoin(VariableTexts(r.variables));
    assert '\n' !in VariablesSection(r);
    assert '\n' !in OperatorText(r.operator);
    if r.actions != [] {
      SectionChars(r, '\n');
    }
  }

  /** A single trimmed line without a continuation mark is already clean. */
  lemma CleanOneLine(s: string)
    requires '\n' !in s && s != "" && Trimmed(s) && s[|s| - 1] != '\\'
    ensures Clean(s) == s
  {
    TrimFixed(s);
    assert Split(s, '\n') == [s];
    assert CleanLines([s]) == [s] + CleanLines([s][1..]);
  }

  lemma KeywordDropped(b: string)
    requires Trimmed(b) && b != ""
    ensures WithoutKeyword("SecRule " + b) == b
  {
    var s := "SecRule " + b;
    assert s[..7] == "SecRule";
    assert s[7..] == " " + b + "";
    TrimPadded(" ", b, "");
  }

  function Assemble(vs: Parsed<seq<Variable>>, op: Parsed<Operator>, acts: Parsed<seq<Action>>): Parsed<SecRule> {
    var variables :- vs;
    var operator :- op;
    var actions :- acts;
    Ok(SecRule(variables, operator, actions))
  }

  function Reassembled(r: SecRule): Parsed<SecRule> {
    Assemble(VariablesFrom(VariablesSection(r)),
             OperatorOf(Trim(OperatorText(r.operator))),
             if r.actions == [] then Ok([]) else ActionsFrom(ActionsSection(r)))
  }

  lemma AssembledIff(vs: Parsed<seq<Variable>>, op: Parsed<Operator>, acts: Parsed<seq<Action>>, r: SecRule)
    ensures Assemble(vs, op, acts) == Ok(r)
            <==> vs == Ok(r.variables) && op == Ok(r.operator) && acts == Ok(r.actions)
  {
  }

  lemma RuleOfParts(parts: seq<string>)
    requires 2 <= |parts| <= 3
    ensures RuleOf(parts) ==
            Assemble(VariablesFrom(Trim(parts[0])), OperatorOf(Trim(parts[1])), ActionsAt(parts, 2))
  {
  }

  lemma QuotedSection(s: string)
    ensures Unquote(Trim(Quoted(s)), '"') == Ok(s)
  {
    TrimFixed(Quoted(s));
    assert Quoted(s)[1..|Quoted(s)| - 1] == s;
  }

  /** The three sections as the printer writes them. */
  function Sections(r: SecRule): seq<string> {
    [VariablesSection(r), OperatorText(r.operator)] + if r.actions == [] then [] else [Quoted(ActionsSection(r))]
  }

  lemma RuleOfSections(r: SecRule)
    requires PlainVariables(r.variables)
    ensures RuleOf(Sections(r)) == Reassembled(r)
  {
    var parts := Sections(r);
    PlainJoin(VariableTexts(r.variables));
    TrimFixed(VariablesSection(r));
    if r.actions != [] {
      ActionsAtThird(parts, ActionsSection(r));
    }
    RuleOfParts(parts);
    hide RuleOf, Trim, OperatorOf, VariablesFrom, ActionsFrom, ActionsSection, VariablesSection;
  }

  lemma ActionsAtThird(parts: seq<string>, s: string)
    requires |parts| == 3 && parts[2] == Quoted(s)
    ensures ActionsAt(parts, 2) == ActionsFrom(s)
  {
    QuotedSection(s);
  }

  lemma PrintedRuleOf(r: SecRule)
    requires Plain(r)
    ensures RuleOf(Components(RuleBody(r))) == Reassembled(r)
  {
    PrintedComponents(r);
    RuleOfSections(r);
  }

  lemma OneLineParse(body: string)
    requires '\n' !in body && body != "" && Trimmed(body) && body[|body| - 1] != '\\'
    ensures Parse("SecRule " + body) == RuleOf(Components(body))
  {
    var s := "SecRule " + body;
    assert s[0] == 'S' && s[|s| - 1] == body[|body| - 1];
    TrimFixed(s);
    CleanOneLine(s);
    KeywordDropped(body);
  }

  /** Parsing a printed one-line rule is reading the components of its body. */
  lemma ParseBody(r: SecRule)
    requires Printable(r) && OneLine(r) && CleanEnd(r)
    ensures Parse(RuleText(r)) == RuleOf(Components(RuleBody(r)))
  {
    BodyEnds(r);
    BodyOneLine(r);
    OneLineParse(RuleBody(r));
  }

  lemma ParsePrinted(r: SecRule)
    requires Plain(r) && OneLine(r) && CleanEnd(r)
    ensures Parse(RuleText(r)) == Reassembled(r)
  {
    ParseBody(r);
    PrintedRuleOf(r);
  }

  predicate ActionsFaithful(acts: seq<Action>) {
    acts == [] || (AllFaithful(acts) && OneByteEnd(acts))
  }

  /** Everything the printed text must not lose. */
  predicate RuleFaithful(r: SecRule) {
    && OneLine(r)
    && AllCanonical(r.variables) && OperatorFaithful(r.operator) && ActionsFaithful(r.actions)
  }

  lemma ActionsSectionRoundTrip(r: SecRule)
    requires AllWellNamed(r.actions)
    ensures (if r.actions == [] then Ok([]) else ActionsFrom(ActionsSection(r))) == Ok(r.actions)
            <==> ActionsFaithful(r.actions)
  {
    if r.actions != [] {
      ActionsRoundTrip(r.actions);
      assert ActionsSection(r) == Section(r.actions);
    }
  }

  lemma CleanRoundTrip(r: SecRule)
    requires Plain(r) && OneLine(r)
    requires OperatorQuoted(r.operator) || Trimmed(r.operator.kind)
    ensures Parse(RuleText(r)) == Ok(r) <==> RuleFaithful(r)
  {
    ParsePrinted(r);
    ReassembledIff(r);
  }

  lemma ReassembledIff(r: SecRule)
    requires Printable(r) && OneLine(r)
    requires OperatorQuoted(r.operator) || Trimmed(r.operator.kind)
    ensures Reassembled(r) == Ok(r) <==> RuleFaithful(r)
  {
    VariablesRoundTrip(r.variables);
    OperatorRoundTrip(r.operator);
    ActionsSectionRoundTrip(r);
    AssembledIff(VariablesFrom(VariablesSection(r)), OperatorOf(Trim(OperatorText(r.operator))),
                 if r.actions == [] then Ok([]) else ActionsFrom(ActionsSection(r)), r);
  }

  // ---------- an unquoted operator name that ends in white space ----------

  /** Trimming a text that starts with a visible character only shortens its end. */
  lemma TrimTail(p: string, s: string)
    requires p != "" && !IsSpace(p[0])
    requires s != "" && !IsSpace(s[0])
    ensures Trim(s) != "" && Trim(s) <= s && Trim(p + s) == p + Trim(s)
  {
    var a, b := TrimDecomposes(s);
    assert a == "" && s == Trim(s) + b;
    assert p + s == "" + (p + Trim(s)) + b;
    TrimPadded("", p + Trim(s), b);
  }

  function TrimmedKind(r: SecRule): SecRule {
    r.(operator := r.operator.(kind := Trim(r.operator.kind)))
  }

  lemma PrefixPlain(s: string, p: string)
    requires p <= s && !NeedsQuoting(s)
    ensures !NeedsQuoting(p)
  {
    assert forall i :: 0 <= i < |p| ==> p[i] == s[i];
  }

  lemma RaggedOperator(op: Operator)
    requires StartsWith(op.kind, '@') && !OperatorQuoted(op) && '"' !in op.kind
    ensures var op' := op.(kind := Trim(op.kind));
            && Trim(OperatorText(op)) == OperatorText(op')
            && StartsWith(op'.kind, '@') && ' ' !in op'.kind
            && !OperatorQuoted(op') && op'.kind <= op.kind
            && Trimmed(op'.kind)
            && OperatorOf(Trim(OperatorText(op))) == Ok(op')
  {
    var op' := op.(kind := Trim(op.kind));
    UnquotedHasNoMarks(op.kind);
    TrimTail("!", op.kind);
    PrefixPlain(op.kind, op'.kind);
    var _, _ := TrimDecomposes(op.kind);
    assert op'.kind[0] == '@';
    assert OperatorText(op) == (if op.negated then "!" else "") + op.kind;
    assert OperatorText(op') == (if op.negated then "!" else "") + op'.kind;
    assert "" + op.kind == op.kind && "" + op'.kind == op'.kind;
    OperatorTextReread(op');
    OperatorBodyReread(op');
    TrimFixed("");
  }

  lemma PrintableTrimmedKind(r: SecRule)
    requires Plain(r) && OneLine(r)
    requires StartsWith(r.operator.kind, '@') && !OperatorQuoted(r.operator)
    ensures Plain(TrimmedKind(r)) && OneLine(TrimmedKind(r)) && CleanEnd(TrimmedKind(r))
  {
    RaggedOperator(r.operator);
    var kind := Trim(r.operator.kind);
    assert forall i :: 0 <= i < |kind| ==> kind[i] == r.operator.kind[i];
  }

  /** A rule printed without quotes and actions ends in its operator name. */
  lemma UnquotedText(r: SecRule, head: string, mark: string)
    requires r.actions == [] && !OperatorQuoted(r.operator)
    requires head == "SecRule " && mark == if r.operator.negated then "!" else ""
    ensures RuleText(r) == head + (VariablesSection(r) + " " + mark) + r.operator.kind
  {
    var v, kind := VariablesSection(r), r.operator.kind;
    assert OperatorText(r.operator) == mark + kind;
    assert RuleBody(r) == v + " " + (mark + kind);
    assert v + " " + (mark + kind) == (v + " " + mark) + kind;
    assert head + ((v + " " + mark) + kind) == head + (v + " " + mark) + kind;
  }

  lemma RaggedText(r: SecRule)
    requires r.actions == []
    requires StartsWith(r.operator.kind, '@') && !OperatorQuoted(r.operator) && '"' !in r.operator.kind
    ensures Trim(RuleText(r)) == RuleText(TrimmedKind(r))
  {
    var op, r' := r.operator, TrimmedKind(r);
    RaggedOperator(op);
    var head, mark := "SecRule ", if op.negated then "!" else "";
    UnquotedText(r, head, mark);
    UnquotedText(r', head, mark);
    TrimTail(head + (VariablesSection(r) + " " + mark), op.kind);
  }

  lemma RaggedParse(r: SecRule)
    requires Plain(r) && OneLine(r) && r.actions == []
    requires StartsWith(r.operator.kind, '@') && !OperatorQuoted(r.operator)
    ensures Parse(RuleText(r)) == Reassembled(TrimmedKind(r))
  {
    var s, s' := RuleText(r), RuleText(TrimmedKind(r));
    RaggedText(r);
    PrintableTrimmedKind(r);
    ParsePrinted(TrimmedKind(r));
    var _, _ := TrimDecomposes(s);
    TrimFixed(s');
    assert s[0] == 'S' && s'[0] == 'S';
    assert Parse(s) == Parse(s');
  }

  /** The parser never returns a rule whose unquoted operator name was ragged. */
  lemma RaggedRoundTrip(r: SecRule)
    requires Plain(r) && OneLine(r) && !OperatorQuoted(r.operator) && !Trimmed(r.operator.kind)
    requires StartsWith(r.operator.kind, '@')
    ensures Parse(RuleText(r)) != Ok(r)
  {
    var r' := TrimmedKind(r);
    var op, op' := r.operator, r'.operator;
    RaggedOperator(op);
    assert op'.kind != op.kind;
    if Parse(RuleText(r)) == Ok(r) {
      if r.actions != [] {
        ParsePrinted(r);
        AssembledIff(VariablesFrom(VariablesSection(r)), OperatorOf(Trim(OperatorText(op))),
                     ActionsFrom(ActionsSection(r)), r);
      } else {
        RaggedParse(r);
        RaggedOperator(op');
        TrimFixed(op'.kind);
        AssembledIff(VariablesFrom(VariablesSection(r')), OperatorOf(Trim(OperatorText(op'))), Ok([]), r);
      }
      assert false;
    }
  }

  lemma ParseKind(ruleText: string)
    requires Parse(ruleText).Ok?
    ensures StartsWith(Parse(ruleText).value.operator.kind, '@')
  {
    var parts := Components(WithoutKeyword(Clean(Trim(ruleText))));
    ParsedKind(LocateOperator(parts).0);
  }

  /** The round trip. A plain rule survives printing and parsing if and only if
      - no operator or action text has a line end,
      - the name and collection of every variable agree,
      - the operator name starts with @, has no space, and is quoted or trimmed,
      - the operator parameter is trimmed,
      - no action parameter has a single quote, and each is trimmed or gets quoted,
      - the printed actions end in a one-byte character. */
  lemma PlainRoundTrip(r: SecRule)
    requires Plain(r)
    ensures Parse(RuleText(r)) == Ok(r) <==> RuleFaithful(r)
  {
    if !OneLine(r) {
      if Parse(RuleText(r)).Ok? {
        ParsedOneLine(RuleText(r));
      }
    } else if OperatorQuoted(r.operator) || Trimmed(r.operator.kind) {
      CleanRoundTrip(r);
    } else if StartsWith(r.operator.kind, '@') {
      RaggedRoundTrip(r);
    } else if Parse(RuleText(r)).Ok? {
      ParseKind(RuleText(r));
    }
  }
}
