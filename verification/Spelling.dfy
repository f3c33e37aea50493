/** Rules in the other spelling: the operator and the actions without quotes. And when a rule
    does not parse at all. */
module Spelling {
  import opened Text
  import opened SecLang
  import opened RuleParser
  import opened Tokenizer
  import opened LineEnds
  import opened RoundTrip
  import opened RoundTripQuoted
  import opened Cutting

  // ---------- the operator ----------

  /** An operator text that can be put into quotes: no quotes, no white space at its ends, also
      after the negation mark. */
  predicate Quotable(t: string) {
    && t != "" && '"' !in t && Trimmed(t)
    && (StartsWith(t, '!') ==> t != "!" && Trimmed(t[1..]))
  }

  /** The operator text with quotes; the negation mark stays in front of them. */
  function InQuotes(t: string): string {
    if StartsWith(t, '!') then "!" + Quoted(t[1..]) else Quoted(t)
  }

  lemma UnquotePlain(s: string)
    requires '"' !in s
    ensures Unquote(s, '"') == Ok(s)
    ensures Unquote(Quoted(s), '"') == Ok(s)
  {
    assert Quoted(s)[1..|Quoted(s)| - 1] == s;
  }

  /** Quotes around an operator do not change what it means. */
  lemma OperatorSpelling(t: string)
    requires Quotable(t)
    ensures OperatorOf(Trim(InQuotes(t))) == OperatorOf(t)
  {
    TrimFixed(InQuotes(t));
    if StartsWith(t, '!') {
      var bare := t[1..];
      assert InQuotes(t)[1..] == Quoted(bare);
      TrimFixed(Quoted(bare));
      TrimFixed(bare);
      UnquotePlain(bare);
      hide Trim, Unquote, OperatorFrom;
    } else {
      UnquotePlain(t);
      assert InQuotes(t)[0] == '"';
      hide Trim, Unquote, OperatorFrom;
    }
  }

  /** A bare pattern is matched as a regular expression: it reads as if @rx stood before it. */
  lemma BarePattern(t: string)
    requires t != "" && Trimmed(t) && t[0] != '@' && t[0] != '!' && t[0] != '"'
    ensures OperatorOf(t) == Ok(Operator("@rx", t, false))
    ensures OperatorOf(t) == OperatorOf("@rx " + t)
  {
    var s := "@rx " + t;
    assert s == "@rx" + [' '] + t;
    IndexOfAt("@rx", ' ', t);
    assert s[..3] == "@rx" && s[4..] == t;
    TrimFixed(t);
    assert s[0] == '@';
  }

  // ---------- the actions ----------

  /** Quotes around an action list do not change what it means. */
  lemma ActionsSpelling(v: string, o: string, a: string)
    requires '"' !in a && Trimmed(a)
    ensures RuleOf([v, o, a]) == RuleOf([v, o, Quoted(a)])
  {
    TrimFixed(a);
    TrimFixed(Quoted(a));
    UnquotePlain(a);
    RuleOfParts([v, o, a]);
    RuleOfParts([v, o, Quoted(a)]);
  }

  // ---------- where the actions are ----------

  /** The same letter up to case, where the dotted capital I and the Kelvin sign are capitals too. */
  predicate SameLetter(c: char, d: char) {
    c == d || CapitalOf(c, d) || CapitalOf(d, c)
  }

  predicate CapitalOf(c: char, d: char) {
    ('a' <= d <= 'z' && c as int + 32 == d as int) || (c == '\U{0130}' && d == 'i') || (c == '\U{212A}' && d == 'k')
  }

  /** Case makes no difference to what looks like actions. */
  lemma CaseIgnored(s: string, t: string)
    requires |s| == |t| && forall i :: 0 <= i < |s| ==> SameLetter(s[i], t[i])
    ensures ActionsLike(s) <==> ActionsLike(t)
  {
    assert ToLower(s) == ToLower(t);
  }

  lemma {:induction false} FirstActionsAt(parts: seq<string>, i: nat, k: nat)
    requires i <= k <= |parts|
    requires forall j :: i <= j < k ==> !ActionsLike(Trim(parts[j]))
    requires k == |parts| || ActionsLike(Trim(parts[k]))
    ensures FirstActions(parts, i) == k
    decreases k - i
  {
    hide ActionsLike, Trim;
    if i < k {
      FirstActionsAt(parts, i + 1, k);
    }
  }

  /** The components as they are read: operator words, the actions, and what is ignored. */
  function Spread(v: string, o: seq<string>, a: string, rest: seq<string>): seq<string> {
    [v] + o + [a] + rest
  }

  lemma ReadAs(parts: seq<string>, v: string, t: string, a: string, k: nat)
    requires |parts| >= 3 && parts[0] == v && 2 <= k < |parts| && parts[k] == a
    requires LocateOperator(parts) == (t, k) && Quotable(t)
    ensures RuleOf(parts) == RuleOf([v, InQuotes(t), a])
  {
    OperatorSpelling(t);
    var three := [v, InQuotes(t), a];
    RuleOfParts(three);
    assert ActionsAt(three, 2) == ActionsAt(parts, k);
    hide LocateOperator, OperatorOf, VariablesFrom, ActionsAt, Trim, InQuotes, Quotable;
  }

  /** The unquoted operator: its words run up to the first component that looks like actions, or
      to the last component when none does. The rule reads as it does with the operator in quotes;
      what follows the actions is ignored. */
  lemma SpellingTheorem(v: string, o: seq<string>, a: string, rest: seq<string>)
    requires |o| >= 2 && forall i :: 1 <= i < |o| ==> !ActionsLike(Trim(o[i]))
    requires ActionsLike(Trim(a)) || rest == []
    requires Quotable(Join(o, " "))
    ensures RuleOf(Spread(v, o, a, rest)) == RuleOf([v, InQuotes(Join(o, " ")), a])
  {
    hide RuleOf, ActionsLike, Trim, Quotable, InQuotes, LocateOperator, Spread;
    Located(v, o, a, rest);
    ReadAs(Spread(v, o, a, rest), v, Join(o, " "), a, |o| + 1);
  }

  lemma Located(v: string, o: seq<string>, a: string, rest: seq<string>)
    requires |o| >= 2 && forall i :: 1 <= i < |o| ==> !ActionsLike(Trim(o[i]))
    requires ActionsLike(Trim(a)) || rest == []
    ensures LocateOperator(Spread(v, o, a, rest)) == (Join(o, " "), |o| + 1)
    ensures |Spread(v, o, a, rest)| > |o| + 1
    ensures Spread(v, o, a, rest)[0] == v && Spread(v, o, a, rest)[|o| + 1] == a
  {
    hide Spread, ActionsLike, Trim, Join;
    SpreadShape(v, o, a, rest);
    LocatedAt(Spread(v, o, a, rest), |o| + 1);
  }

  lemma SpreadShape(v: string, o: seq<string>, a: string, rest: seq<string>)
    ensures var parts, k := Spread(v, o, a, rest), |o| + 1;
            && |parts| == k + 1 + |rest| && parts[0] == v && parts[k] == a && parts[1..k] == o
            && forall j :: 1 <= j < k ==> parts[j] == o[j - 1]
  {
  }

  lemma LocatedAt(parts: seq<string>, k: nat)
    requires 3 <= k < |parts| && forall j :: 2 <= j < k ==> !ActionsLike(Trim(parts[j]))
    requires ActionsLike(Trim(parts[k])) || k == |parts| - 1
    ensures LocateOperator(parts) == (Join(parts[1..k], " "), k)
  {
    hide ActionsLike, Trim, Join;
    if ActionsLike(Trim(parts[k])) {
      FirstActionsAt(parts, 2, k);
    } else {
      FirstActionsAt(parts, 2, |parts|);
    }
  }

  /** A component right after the operator name that looks like actions is not taken for them: the
      last component is. */
  lemma SecondWordLikeActions(parts: seq<string>)
    requires |parts| >= 4 && ActionsLike(Trim(parts[2]))
    requires Quotable(Join(parts[1..|parts| - 1], " "))
    ensures RuleOf(parts) == RuleOf([parts[0], InQuotes(Join(parts[1..|parts| - 1], " ")), parts[|parts| - 1]])
  {
    hide ActionsLike, Trim, Quotable, InQuotes;
    FirstActionsAt(parts, 2, 2);
    ReadAs(parts, parts[0], Join(parts[1..|parts| - 1], " "), parts[|parts| - 1], |parts| - 1);
  }

  /** With two or three components nothing is searched for: the second is the operator. */
  lemma ShortSpelling(v: string, t: string, a: string)
    requires Quotable(t)
    ensures RuleOf([v, t, a]) == RuleOf([v, InQuotes(t), a])
    ensures RuleOf([v, t]) == RuleOf([v, InQuotes(t)])
  {
    TrimFixed(t);
    OperatorSpelling(t);
    RuleOfParts([v, t, a]);
    RuleOfParts([v, InQuotes(t), a]);
    RuleOfParts([v, t]);
    RuleOfParts([v, InQuotes(t)]);
    hide OperatorOf, VariablesFrom, ActionsFrom, Trim, InQuotes, Quotable, RuleOf;
  }

  // ---------- whole texts ----------

  lemma WordTrimmed(w: string)
    requires Word(w)
    ensures Trimmed(w) && '"' !in w && ' ' !in w && '\n' !in w && Trim(w) == w
  {
    TrimFixed(w);
  }

  lemma {:induction false} JoinWords(ws: seq<string>)
    requires Words(ws) && ws != []
    ensures var t := Join(ws, " "); t != "" && Trimmed(t) && '"' !in t && '\n' !in t
    ensures Join(ws, " ")[0] == ws[0][0]
    ensures var t, w := Join(ws, " "), ws[|ws| - 1]; t[|t| - 1] == w[|w| - 1]
  {
    hide IsSpace;
    WordTrimmed(ws[0]);
    if |ws| > 1 {
      JoinWords(ws[1..]);
      assert ws[1..][|ws[1..]| - 1] == ws[|ws| - 1];
    }
  }

  /** A rule text of plain words parses as its words. */
  lemma ParseWords(ws: seq<string>)
    requires Words(ws) && ws != [] && ws[|ws| - 1][|ws[|ws| - 1]| - 1] != '\\'
    ensures Parse("SecRule " + Join(ws, " ")) == RuleOf(ws)
  {
    hide Parse, RuleOf, Components, IsSpace;
    JoinWords(ws);
    WordsCut(ws);
    OneLineParse(Join(ws, " "));
  }

  lemma QuotedComponents(v: string, t: string, a: string)
    requires Word(v) && Quotable(t) && '"' !in a
    ensures Components(v + (" " + (InQuotes(t) + (" " + Quoted(a))))) == [v, InQuotes(t), Quoted(a)]
  {
    WordTrimmed(v);
    var negated := StartsWith(t, '!');
    var body := if negated then t[1..] else t;
    assert InQuotes(t) == OperatorShapeText(negated, true, body) by {
      assert "" + Quoted(body) == Quoted(body);
    }
    hide ComponentsFrom, Components, Trimmed, InQuotes, OperatorShapeText;
    RunFromStart(v, " " + (InQuotes(t) + (" " + Quoted(a))));
    OperatorAfterGap(negated, true, body, Tail(a), v);
    assert TailText(Tail(a)) == " " + Quoted(a) && TailParts(Tail(a)) == [Quoted(a)];
    assert [v, InQuotes(t)] + [Quoted(a)] == [v, InQuotes(t), Quoted(a)];
  }

  lemma RunFromStart(v: string, s: string)
    requires '"' !in v && ' ' !in v
    ensures Components(v + s) == ComponentsFrom(s, v, false)
  {
    RunPlain(v, s, "");
    assert "" + v == v;
  }

  /** The rule with its operator and its actions in quotes. */
  function QuotedText(v: string, o: seq<string>, a: string): string {
    "SecRule " + (v + (" " + (InQuotes(Join(o, " ")) + (" " + Quoted(a)))))
  }

  lemma ParseQuoted(v: string, t: string, a: string)
    requires Word(v) && Quotable(t) && '\n' !in t && '"' !in a && '\n' !in a
    ensures Parse("SecRule " + (v + (" " + (InQuotes(t) + (" " + Quoted(a)))))) == RuleOf([v, InQuotes(t), Quoted(a)])
  {
    var body := v + (" " + (InQuotes(t) + (" " + Quoted(a))));
    WordTrimmed(v);
    assert '\n' !in InQuotes(t) && '\n' !in Quoted(a);
    assert '\n' !in body;
    assert body[0] == v[0] && body[|body| - 1] == '"';
    hide Parse, RuleOf, Components;
    OneLineParse(body);
    QuotedComponents(v, t, a);
  }

  /** The two spellings of a whole rule: an unquoted operator of two or more words, none of which
      looks like actions after the first, and an unquoted action list, mean what they mean in
      quotes. */
  lemma ParseSpelling(v: string, o: seq<string>, a: string)
    requires Word(v) && Words(o) && Word(a) && a[|a| - 1] != '\\'
    requires |o| >= 2 && o[0] != "!" && forall i :: 1 <= i < |o| ==> !ActionsLike(o[i])
    ensures Parse("SecRule " + Join([v] + o + [a], " ")) == Parse(QuotedText(v, o, a))
  {
    hide Parse, RuleOf, ActionsLike, Word, Quotable, InQuotes, Join, Trimmed, Trim;
    WordsQuotable(o);
    JoinWords(o);
    WordTrimmed(a);
    LastWord(v, o, a);
    ParseWords([v] + o + [a]);
    SpelledWords(v, o, a);
    ActionsSpelling(v, InQuotes(Join(o, " ")), a);
    ParseQuoted(v, Join(o, " "), a);
  }

  lemma LastWord(v: string, o: seq<string>, a: string)
    requires Word(v) && Words(o) && Word(a)
    ensures var ws := [v] + o + [a]; Words(ws) && ws != [] && ws[|ws| - 1] == a
  {
    hide Word;
  }

  lemma SpelledWords(v: string, o: seq<string>, a: string)
    requires Words(o) && |o| >= 2 && o[0] != "!" && forall i :: 1 <= i < |o| ==> !ActionsLike(o[i])
    ensures RuleOf([v] + o + [a]) == RuleOf([v, InQuotes(Join(o, " ")), a])
  {
    hide RuleOf, ActionsLike, Word, Quotable, InQuotes, Trim;
    WordsQuotable(o);
    forall i | 1 <= i < |o| ensures Trim(o[i]) == o[i] {
      WordTrimmed(o[i]);
    }
    SpellingTheorem(v, o, a, []);
    assert Spread(v, o, a, []) == [v] + o + [a];
  }

  /** ... and the same when only the operator is unquoted. */
  lemma ParseUnquotedOperator(v: string, o: seq<string>, a: string)
    requires Word(v) && Words(o) && '"' !in a && '\n' !in a
    requires |o| >= 2 && o[0] != "!" && forall i :: 1 <= i < |o| ==> !ActionsLike(o[i])
    ensures Parse("SecRule " + (Join([v] + o, " ") + (" " + Quoted(a)))) == Parse(QuotedText(v, o, a))
  {
    hide Parse, RuleOf, ActionsLike, Word, Quotable, InQuotes;
    WordsQuotable(o);
    JoinWords(o);
    ParseWordsThenQuoted([v] + o, a);
    SpelledWords(v, o, Quoted(a));
    ParseQuoted(v, Join(o, " "), a);
  }

  lemma ParseWordsThenQuoted(ws: seq<string>, a: string)
    requires Words(ws) && ws != [] && '"' !in a && '\n' !in a
    ensures Parse("SecRule " + (Join(ws, " ") + (" " + Quoted(a)))) == RuleOf(ws + [Quoted(a)])
  {
    hide Parse, RuleOf, Components, IsSpace, Scan;
    var t := Join(ws, " ");
    var body := t + (" " + Quoted(a));
    JoinWords(ws);
    WordTrimmed(ws[0]);
    WordsCut(ws);
    WordsScan(ws);
    assert Quoted(a) + "" == Quoted(a);
    QuoteCut(t, a, "");
    assert Components("") == [] by { NoComponents(); }
    assert ws + ([Quoted(a)] + []) == ws + [Quoted(a)];
    QuotedEnd(t, a);
    OneLineParse(body);
  }

  lemma QuotedEnd(t: string, a: string)
    requires t != "" && Trimmed(t) && '\n' !in t && '\n' !in a
    ensures var body := t + (" " + Quoted(a));
            body != "" && Trimmed(body) && '\n' !in body && body[|body| - 1] != '\\'
  {
    var body := t + (" " + Quoted(a));
    assert body[0] == t[0] && body[|body| - 1] == '"';
  }

  lemma NoComponents()
    ensures Components("") == []
  {
  }

  lemma {:induction false} WordsScan(ws: seq<string>)
    requires Words(ws) && ws != []
    ensures Scan(Blank, Join(ws, " ")).Collecting?
  {
    OneWord(ws[0]);
    if |ws| > 1 {
      var rest := Join(ws[1..], " ");
      WordsScan(ws[1..]);
      JoinFirst(ws[1..]);
      ScanHead(Gap, rest);
      ScanHead(Blank, rest);
      ScanHead(Collecting, " " + rest);
      assert (" " + rest)[1..] == rest;
      hide Scan;
      ScanConcat(Blank, ws[0], " " + rest);
      assert Join(ws, " ") == ws[0] + (" " + rest);
    }
  }

  lemma WordsQuotable(o: seq<string>)
    requires Words(o) && o != [] && o[0] != "!"
    ensures Quotable(Join(o, " "))
  {
    JoinWords(o);
    WordTrimmed(o[0]);
    var t := Join(o, " ");
    if StartsWith(t, '!') {
      JoinSecond(o);
    }
  }

  lemma JoinSecond(o: seq<string>)
    requires Words(o) && o != [] && |o[0]| > 1
    ensures |Join(o, " ")| > 1 && Join(o, " ")[1] == o[0][1]
  {
  }

  /** The SecRule keyword may be left out. */
  lemma KeywordOptional(body: string)
    requires '\n' !in body && body != "" && Trimmed(body) && body[|body| - 1] != '\\' && !HasPrefix(body, "SecRule")
    ensures Parse(body) == Parse("SecRule " + body) == RuleOf(Components(body))
  {
    hide RuleOf, Components;
    TrimFixed(body);
    CleanOneLine(body);
    OneLineParse(body);
  }

  // ---------- rules that do not parse ----------

  lemma TrimEmpty(s: string)
    ensures Trim(s) == "" <==> AllSpace(s)
  {
    var a, b := TrimDecomposes(s);
    if AllSpace(s) {
      TrimPadded(s, "", "");
      assert s + "" + "" == s;
    }
  }

  /** Nothing but separators and white space. */
  predicate NoName(s: string) {
    forall i :: 0 <= i < |s| ==> s[i] == '|' || IsSpace(s[i])
  }

  lemma {:induction false} NoVariables(s: string)
    ensures VariablesOf(Split(s, '|')) == [] <==> NoName(s)
    decreases |s|
  {
    hide IsSpace;
    var i := IndexOf(s, '|');
    TrimEmpty(s[..i]);
    if i == |s| {
      assert Split(s, '|') == [s] && [s][1..] == [] && s[..i] == s;
      assert NoName(s) <==> AllSpace(s);
    } else {
      NoVariables(s[i + 1..]);
      var parts := Split(s, '|');
      assert parts[0] == s[..i] && parts[1..] == Split(s[i + 1..], '|');
      NoNameAround(s, i);
    }
  }

  lemma NoNameAround(s: string, i: nat)
    requires i < |s| && s[i] == '|' && '|' !in s[..i]
    ensures NoName(s) <==> AllSpace(s[..i]) && NoName(s[i + 1..])
  {
    hide IsSpace;
    if AllSpace(s[..i]) && NoName(s[i + 1..]) {
      forall k | 0 <= k < |s| ensures s[k] == '|' || IsSpace(s[k]) {
        assert k < i ==> s[k] == s[..i][k];
        assert k > i ==> s[k] == s[i + 1..][k - i - 1];
      }
    }
    if NoName(s) {
      forall k | 0 <= k < i ensures IsSpace(s[..i][k]) {
        assert s[k] == s[..i][k];
      }
    }
  }

  lemma NoNameTrim(s: string)
    ensures NoName(Trim(s)) <==> NoName(s)
  {
    hide IsSpace;
    var a, b := TrimDecomposes(s);
    var t := Trim(s);
    forall k | 0 <= k < |t| ensures t[k] == s[|a| + k] {
    }
    if NoName(t) {
      forall k | 0 <= k < |s| ensures s[k] == '|' || IsSpace(s[k]) {
        assert k < |a| ==> s[k] == a[k];
        assert |a| <= k < |a| + |t| ==> s[k] == t[k - |a|];
        assert k >= |a| + |t| ==> s[k] == b[k - |a| - |t|];
      }
    }
  }

  /** The parameter of a piece is a single quote alone. */
  predicate LoneQuote(piece: string) {
    var t := Trim(piece);
    ':' in t && Trim(t[IndexOf(t, ':') + 1..]) == "'"
  }

  lemma {:induction false} ActionsPanic(parts: seq<string>)
    ensures !ActionsOf(parts).Err?
    ensures ActionsOf(parts).Panic? <==> exists i :: 0 <= i < |parts| && LoneQuote(parts[i])
  {
    hide Trim, IndexOf;
    if parts != [] {
      ActionsPanic(parts[1..]);
      ActionPanic(parts[0]);
      assert forall i :: 0 <= i < |parts[1..]| ==> parts[1..][i] == parts[i + 1];
      if i :| 0 <= i < |parts| && LoneQuote(parts[i]) {
        assert i > 0 ==> LoneQuote(parts[1..][i - 1]);
      }
    }
  }

  lemma ActionPanic(piece: string)
    ensures LoneQuote(piece) ==> Trim(piece) != ""
    ensures !ActionOf(Trim(piece)).Err? && (ActionOf(Trim(piece)).Panic? <==> LoneQuote(piece))
  {
    hide Trim, IndexOf;
  }

  /** How the parser fails, for every list of components: too few; no variable name; no operator
      left once the negation mark and the quotes are gone; and the panics, on an operator, an
      action list or an action parameter that is a single quotation mark. */
  lemma FailureTheorem(parts: seq<string>)
    ensures RuleOf(parts) == Err(InvalidRule) <==> |parts| < 2
    ensures RuleOf(parts) == Err(MissingVariables) <==> |parts| >= 2 && NoName(parts[0])
    ensures RuleOf(parts) == Err(MissingOperator) <==>
            && |parts| >= 2 && !NoName(parts[0])
            && var bare := Bare(LocateOperator(parts).0); bare == "" || bare == "\"\""
    ensures RuleOf(parts).Panic? <==>
            && |parts| >= 2 && !NoName(parts[0])
            && var (t, k) := LocateOperator(parts);
               || Bare(t) == "\""
               || (Bare(t) != "" && Bare(t) != "\"\"" && k < |parts| && ActionsFail(Trim(parts[k])))
  {
    hide Trim, LocateOperator, VariablesFrom, OperatorOf, ActionsAt, ActionsFail, NoName;
    if |parts| >= 2 {
      VariablesFail(parts[0]);
      var (t, k) := LocateOperator(parts);
      OperatorFails(t);
      ActionsAtFails(parts, k);
    }
  }

  lemma VariablesFail(s: string)
    ensures VariablesFrom(Trim(s)).Err? <==> NoName(s)
    ensures VariablesFrom(Trim(s)).Err? ==> VariablesFrom(Trim(s)) == Err(MissingVariables)
    ensures !VariablesFrom(Trim(s)).Panic?
  {
    NoVariables(Trim(s));
    NoNameTrim(s);
  }

  lemma OperatorFails(t: string)
    ensures OperatorOf(t).Err? <==> Bare(t) == "" || Bare(t) == "\"\""
    ensures OperatorOf(t).Err? ==> OperatorOf(t) == Err(MissingOperator)
    ensures OperatorOf(t).Panic? <==> Bare(t) == "\""
  {
    hide Trim, IndexOf;
    var bare := Bare(t);
    if |bare| == 2 && bare[0] == '"' && bare[1] == '"' {
      assert bare == "\"\"";
    }
    if |bare| == 1 && bare[0] == '"' {
      assert bare == "\"";
    }
  }

  /** The actions are a single quotation mark, or one of them has one for a parameter. */
  predicate ActionsFail(a: string) {
    || a == "\""
    || exists i :: 0 <= i < |Pieces(WithoutQuotes(a))| && LoneQuote(Pieces(WithoutQuotes(a))[i])
  }

  function WithoutQuotes(a: string): string {
    if |a| >= 2 && a[0] == '"' && a[|a| - 1] == '"' then a[1..|a| - 1] else a
  }

  lemma ActionsAtFails(parts: seq<string>, k: nat)
    ensures !ActionsAt(parts, k).Err?
    ensures ActionsAt(parts, k).Panic? <==> k < |parts| && ActionsFail(Trim(parts[k]))
  {
    hide Trim, Pieces, LoneQuote, ActionsOf;
    if k < |parts| {
      var a := Trim(parts[k]);
      ActionsPanic(Pieces(WithoutQuotes(a)));
      if |a| == 1 && a[0] == '"' {
        assert a == "\"";
      }
    }
  }

  // ---------- what is skipped ----------

  /** Blank parts of a variable list and blank pieces of an action list are skipped. */
  lemma {:induction false} BlanksSkipped(a: seq<string>, blank: string, b: seq<string>)
    requires AllSpace(blank)
    ensures VariablesOf(a + [blank] + b) == VariablesOf(a + b)
    ensures ActionsOf(a + [blank] + b) == ActionsOf(a + b)
    decreases |a|
  {
    hide IsSpace, Trim;
    TrimEmpty(blank);
    if a == [] {
      assert a + [blank] + b == [blank] + b && ([blank] + b)[1..] == b && a + b == b;
    } else {
      assert (a + [blank] + b)[1..] == a[1..] + [blank] + b && (a + b)[1..] == a[1..] + b;
      BlanksSkipped(a[1..], blank, b);
    }
  }

  /** White space around the name and the parameter of an action does not matter. */
  lemma PaddedAction(name: string, b1: string, b2: string, parameter: string)
    requires ':' !in name && name != "" && Trimmed(name) && AllSpace(b1) && AllSpace(b2) && Trimmed(parameter)
    ensures ActionOf(name + b1 + ":" + b2 + parameter) == ActionOf(name + ":" + parameter)
  {
    hide ActionOf, Trim, Trimmed, AllSpace;
    BlankColon(b1);
    ColonSplit(name + b1, b2 + parameter);
    ColonSplit(name, parameter);
    TrimMargins(b1, name);
    TrimMargins(b2, parameter);
    assert name + b1 + ":" + b2 + parameter == name + b1 + ":" + (b2 + parameter);
  }

  lemma TrimMargins(b: string, s: string)
    requires AllSpace(b) && Trimmed(s)
    ensures Trim(b + s) == s && Trim(s + b) == s && Trim(s) == s
  {
    hide Trim, Trimmed, IsSpace;
    TrimPadded(b, s, "");
    TrimPadded("", s, b);
    TrimFixed(s);
    assert b + s + "" == b + s && "" + s + b == s + b;
  }

  lemma ColonSplit(name: string, parameter: string)
    requires ':' !in name
    ensures ActionOf(name + ":" + parameter) ==
            match Unquote(Trim(parameter), '\'')
            case Ok(text) => Ok(Action(Trim(name), text))
            case Err(e) => Err(e)
            case Panic => Panic
  {
    var s := name + [':'] + parameter;
    IndexOfAt(name, ':', parameter);
    assert s[..|name|] == name && s[|name| + 1..] == parameter;
    hide Trim, IndexOf, Unquote;
    assert s == name + ":" + parameter;
  }

  lemma BlankColon(b: string)
    requires AllSpace(b)
    ensures ':' !in b
  {
  }
}
