/** CreateRule: rule files as append-only logs with fresh ids. */
module RuleLog {
  import opened Text
  import opened SecLang
  import opened RuleParser
  import opened RuleIds
  import opened ActionList
  import opened LineEnds
  import opened RoundTrip
  import opened RoundTripQuoted
  import Tokenizer

  // ---------- one call ----------

  function LineFor(r: SecRule, id: nat): string {
    "\n" + RuleText(WithId(r, Decimal(id)))
  }

  /** The file after the rules of one batch, all printed with the same id. */
  function Appended(content: string, id: nat, rules: seq<string>): Parsed<string>
    decreases |rules|
  {
    if rules == [] then Ok(content)
    else
      var r :- Parse(rules[0]);
      Appended(content + LineFor(r, id), id, rules[1..])
  }

  datatype Reply = Created(id: nat) | NotFound | IdTooLarge | Rejected(error: ParseError) | Panicked

  datatype Outcome = Outcome(content: string, reply: Reply)

  function Call(content: string, rules: seq<string>): Outcome {
    match Next(content)
    case TooLarge => Outcome(content, IdTooLarge)
    case Id(id) =>
      match Appended(content, id, rules)
      case Ok(content') => Outcome(content', Created(id))
      case Err(e) => Outcome(content, Rejected(e))
      case Panic => Outcome(content, Panicked)
  }

  /** The stored rule sets, by application name and rule set id. */
  class CrsRepository {
    var files: map<(string, nat), string>

    method CreateRule(ruleSetId: nat, rules: seq<string>, appName: string) returns (reply: Reply)
      modifies this`files
      ensures (appName, ruleSetId) !in old(files) ==> reply == NotFound && files == old(files)
      ensures (appName, ruleSetId) in old(files) ==>
                var out := Call(old(files)[(appName, ruleSetId)], rules);
                reply == out.reply && files == old(files)[(appName, ruleSetId) := out.content]
      ensures reply.Created? <==>
                && (appName, ruleSetId) in old(files)
                && (forall d :: d in FindAll(old(files)[(appName, ruleSetId)]) ==> Value(d) <= MAX_INT)
                && (forall i :: 0 <= i < |rules| ==> Parse(rules[i]).Ok?)
      ensures !reply.Created? ==> files == old(files)
    {
      hide Parse, FindAll, Value;
      var key := (appName, ruleSetId);
      if key !in files {
        return NotFound;
      }
      var content := files[key];
      var next := NextRuleId(content);
      assert files == files[key := content];
      CreatedIff(content, rules);
      if next.TooLarge? {
        return IdTooLarge;
      }
      var ruleId := next.value;
      for i := 0 to |rules|
        invariant files == old(files)
        invariant Appended(files[key], ruleId, rules) == Appended(content, ruleId, rules[i..])
      {
        assert rules[i..][1..] == rules[i + 1..];
        var parsed := ParseRule(rules[i]);
        if parsed.Err? {
          return Rejected(parsed.error);
        } else if parsed.Panic? {
          return Panicked;
        }
        var ruleObj := new RuleObject(parsed.value);
        ruleObj.AddAction(Action(ActionID, Decimal(ruleId)));
        var modSecRule := ToModSecurityRule(SecRule(ruleObj.variables, ruleObj.operator, ruleObj.actions));
        content := content + ("\n" + modSecRule);
      }
      files := files[key := content];
      return Created(ruleId);
    }
  }

  // ---------- the text of a batch ----------

  /** The rules of a batch, when all of them parse. */
  function ParsedBatch(rules: seq<string>): (rs: Parsed<seq<SecRule>>)
    ensures rs.Ok? ==> |rs.value| == |rules|
  {
    if rules == [] then Ok([])
    else
      var r :- Parse(rules[0]);
      var rest :- ParsedBatch(rules[1..]);
      Ok([r] + rest)
  }

  function Lines(rs: seq<SecRule>, id: nat): string {
    if rs == [] then "" else LineFor(rs[0], id) + Lines(rs[1..], id)
  }

  lemma {:induction false} AppendedText(content: string, id: nat, rules: seq<string>)
    ensures Appended(content, id, rules) ==
            match ParsedBatch(rules)
            case Ok(rs) => Ok(content + Lines(rs, id))
            case Err(e) => Err(e)
            case Panic => Panic
    decreases |rules|
  {
    hide Parse, LineFor;
    if rules == [] {
      assert content + "" == content;
    } else if Parse(rules[0]).Ok? {
      var r := Parse(rules[0]).value;
      AppendedText(content + LineFor(r, id), id, rules[1..]);
      if ParsedBatch(rules[1..]).Ok? {
        var rest := ParsedBatch(rules[1..]).value;
        assert ([r] + rest)[1..] == rest;
        assert content + (LineFor(r, id) + Lines(rest, id)) == content + LineFor(r, id) + Lines(rest, id);
      }
    }
  }

  // ---------- an appended line carries its id where the scan finds it ----------

  lemma {:induction false} JoinAround(ts: seq<string>, k: nat) returns (before: string, after: string)
    requires k < |ts|
    ensures Join(ts, ",") == before + ts[k] + after
    ensures after == "" || after[0] == ','
  {
    if k == 0 {
      before := "";
      after := if |ts| == 1 then "" else "," + Join(ts[1..], ",");
    } else {
      var b, a := JoinAround(ts[1..], k - 1);
      before, after := ts[0] + "," + b, a;
    }
  }

  lemma IdActionText(d: string)
    requires Digits(d)
    ensures ActionText(Action(ActionID, d)) == "id:" + d
    ensures !NeedsQuoting(d) && '\'' !in d && '"' !in d && '\n' !in d && Trimmed(d)
  {
    assert forall i :: 0 <= i < |d| ==> d[i] !in QUOTED_CHARS;
  }

  /** The id action of WithId is somewhere in the list. */
  lemma IdPosition(r: SecRule, d: string) returns (k: nat)
    ensures k < |WithId(r, d).actions| && WithId(r, d).actions[k] == Action(ActionID, d)
  {
    k := FirstNamed(r.actions, ActionID);
  }

  lemma FindsPlain(pre: string, d: string, post: string)
    requires Digits(d) && (post == "" || !IsDigit(post[0]))
    ensures d in FindAll(pre + ("id:" + d + post))
  {
    FindsEmbedded(pre, "", d, post);
    assert "id:" + ("" + (d + post)) == "id:" + d + post;
  }

  lemma LineHasId(r: SecRule, d: string)
    requires Digits(d)
    ensures d in FindAll(RuleText(WithId(r, d)))
  {
    var r' := WithId(r, d);
    var k := IdPosition(r, d);
    IdActionText(d);
    var before, after := JoinAround(ActionTexts(r'.actions), k);
    var head := "SecRule " + (VariablesSection(r') + " " + OperatorText(r'.operator) + " \"");
    var post := after + "\"";
    assert ActionsSection(r') == before + ("id:" + d) + after;
    PrintedAround(r', before, d, after);
    FindsPlain(head + before, d, post);
  }

  lemma PrintedAround(r: SecRule, before: string, d: string, after: string)
    requires r.actions != [] && ActionsSection(r) == before + ("id:" + d) + after
    ensures RuleText(r) ==
            "SecRule " + (VariablesSection(r) + " " + OperatorText(r.operator) + " \"") + before
            + ("id:" + d + (after + "\""))
  {
    var v := VariablesSection(r) + " " + OperatorText(r.operator);
    assert RuleBody(r) == v + (" \"" + (before + ("id:" + d) + after) + "\"");
    assert v + (" \"" + (before + ("id:" + d) + after) + "\"")
        == v + " \"" + before + ("id:" + d + (after + "\""));
    assert "SecRule " + (v + " \"" + before + ("id:" + d + (after + "\"")))
        == "SecRule " + (v + " \"") + before + ("id:" + d + (after + "\""));
  }

  lemma LineSeparate(r: SecRule, id: nat)
    ensures Separate(LineFor(r, id))
    ensures Decimal(id) in FindAll(LineFor(r, id))
  {
    var line := LineFor(r, id);
    var text := RuleText(WithId(r, Decimal(id)));
    assert text[0] == 'S';
    assert line[0] == '\n' && line[1..] == text;
    assert SkipBlank(text) == text;
    LineHasId(r, Decimal(id));
    assert MatchAt(line) == NoMatch;
  }

  /** Appending a batch keeps every id found before, and adds its own. */
  lemma {:induction false} LinesFound(content: string, rs: seq<SecRule>, id: nat)
    ensures forall d :: d in FindAll(content) ==> d in FindAll(content + Lines(rs, id))
    ensures rs != [] ==> Decimal(id) in FindAll(content + Lines(rs, id))
    decreases |rs|
  {
    hide LineFor, FindAll, Separate, Decimal;
    if rs == [] {
      assert content + "" == content;
    } else {
      var line := LineFor(rs[0], id);
      LineSeparate(rs[0], id);
      FindAllAppend(content, line);
      LinesFound(content + line, rs[1..], id);
      assert content + line + Lines(rs[1..], id) == content + Lines(rs, id);
    }
  }

  // ---------- runs ----------

  function RunFrom(content: string, calls: seq<seq<string>>): string
    decreases |calls|
  {
    if calls == [] then content else RunFrom(Call(content, calls[0]).content, calls[1..])
  }

  /** The content before call k of a run. */
  function ContentAt(content: string, calls: seq<seq<string>>, k: nat): string
    requires k <= |calls|
    decreases k
  {
    if k == 0 then content else ContentAt(Call(content, calls[0]).content, calls[1..], k - 1)
  }

  function ReplyAt(content: string, calls: seq<seq<string>>, k: nat): Reply
    requires k < |calls|
  {
    Call(ContentAt(content, calls, k), calls[k]).reply
  }

  /** What call k of a run adds to the file. */
  function AddedAt(content: string, calls: seq<seq<string>>, k: nat): string
    requires k < |calls|
  {
    var reply := ReplyAt(content, calls, k);
    if reply.Created? && ParsedBatch(calls[k]).Ok? then Lines(ParsedBatch(calls[k]).value, reply.id) else ""
  }

  function AddedFrom(content: string, calls: seq<seq<string>>): string
    decreases |calls|
  {
    if calls == [] then "" else AddedAt(content, calls, 0) + AddedFrom(Call(content, calls[0]).content, calls[1..])
  }

  /** One call: a created batch adds one line per rule, all with the call's id;
      a failing batch adds nothing. */
  lemma CallEffect(content: string, rules: seq<string>)
    ensures var out := Call(content, rules);
            out.reply.Created? ==>
              && Next(content) == Id(out.reply.id)
              && ParsedBatch(rules).Ok?
              && out.content == content + Lines(ParsedBatch(rules).value, out.reply.id)
    ensures !Call(content, rules).reply.Created? ==> Call(content, rules).content == content
  {
    hide Parse, ParsedBatch, Appended, Lines;
    if Next(content).Id? {
      AppendedText(content, Next(content).value, rules);
    }
  }

  /** The first rule of a batch that does not parse decides how the batch fails. */
  lemma {:induction false} FirstFailure(rules: seq<string>) returns (k: nat)
    requires !ParsedBatch(rules).Ok?
    ensures k < |rules| && !Parse(rules[k]).Ok? && forall i :: 0 <= i < k ==> Parse(rules[i]).Ok?
    ensures ParsedBatch(rules).Panic? <==> Parse(rules[k]).Panic?
    ensures ParsedBatch(rules).Err? ==> Parse(rules[k]) == Err(ParsedBatch(rules).error)
    decreases |rules|
  {
    hide Parse;
    if !Parse(rules[0]).Ok? {
      k := 0;
    } else {
      var j := FirstFailure(rules[1..]);
      k := j + 1;
      assert forall i :: 0 < i < k ==> rules[i] == rules[1..][i - 1];
    }
  }

  /** A call creates its rules if and only if every id in the file fits in an int and every rule
      of the batch parses. */
  lemma CreatedIff(content: string, rules: seq<string>)
    ensures Call(content, rules).reply.Created? <==>
              && (forall d :: d in FindAll(content) ==> Value(d) <= MAX_INT)
              && (forall i :: 0 <= i < |rules| ==> Parse(rules[i]).Ok?)
    ensures !Call(content, rules).reply.Created? ==> Call(content, rules).content == content
    ensures Call(content, rules).reply == IdTooLarge <==> exists d :: d in FindAll(content) && Value(d) > MAX_INT
  {
    hide Parse, FindAll, Value, Appended, Next, ParsedBatch;
    NextTheorem(content);
    if Next(content).Id? {
      AppendedText(content, Next(content).value, rules);
      if ParsedBatch(rules).Ok? {
        forall i | 0 <= i < |rules| ensures Parse(rules[i]).Ok? {
          ParsedEach(rules, i);
        }
      } else {
        var k := FirstFailure(rules);
      }
    }
  }

  /** Otherwise, with ids that fit, rule k, the first that does not parse, decides the answer. */
  lemma RejectedAt(content: string, rules: seq<string>, k: nat)
    requires forall d :: d in FindAll(content) ==> Value(d) <= MAX_INT
    requires k < |rules| && !Parse(rules[k]).Ok? && forall i :: 0 <= i < k ==> Parse(rules[i]).Ok?
    ensures Call(content, rules).reply == if Parse(rules[k]).Err? then Rejected(Parse(rules[k]).error) else Panicked
  {
    hide Parse, FindAll, Value, Appended, Next, ParsedBatch;
    NextTheorem(content);
    AppendedText(content, Next(content).value, rules);
    if ParsedBatch(rules).Ok? {
      ParsedEach(rules, k);
      assert false;
    }
    var j := FirstFailure(rules);
    assert j == k;
  }

  /** Over any run the file is the initial text followed by what each call added. */
  lemma {:induction false} LogShape(content: string, calls: seq<seq<string>>)
    ensures RunFrom(content, calls) == content + AddedFrom(content, calls)
    decreases |calls|
  {
    hide Call, Lines, ParsedBatch;
    if calls == [] {
      assert content + "" == content;
    } else {
      CallEffect(content, calls[0]);
      var next := Call(content, calls[0]).content;
      LogShape(next, calls[1..]);
      var added := AddedAt(content, calls, 0);
      assert next == content + added;
      assert content + added + AddedFrom(next, calls[1..]) == content + (added + AddedFrom(next, calls[1..]));
    }
  }

  lemma CallKeepsFound(content: string, rules: seq<string>, d: string)
    requires d in FindAll(content)
    ensures d in FindAll(Call(content, rules).content)
  {
    hide Call, FindAll, Lines, ParsedBatch;
    CallEffect(content, rules);
    var out := Call(content, rules);
    if out.reply.Created? {
      LinesFound(content, ParsedBatch(rules).value, out.reply.id);
    }
  }

  lemma {:induction false} FoundForever(content: string, calls: seq<seq<string>>, d: string, k: nat)
    requires k <= |calls| && d in FindAll(content)
    ensures d in FindAll(ContentAt(content, calls, k))
    decreases k
  {
    hide Call, FindAll;
    if k > 0 {
      CallKeepsFound(content, calls[0], d);
      FoundForever(Call(content, calls[0]).content, calls[1..], d, k - 1);
    }
  }

  lemma {:induction false} ContentShift(content: string, calls: seq<seq<string>>, k: nat, m: nat)
    requires k + m <= |calls|
    ensures ContentAt(content, calls, k + m) == ContentAt(ContentAt(content, calls, k), calls[k..], m)
    decreases k
  {
    hide Call;
    if k == 0 {
      assert calls[0..] == calls;
    } else {
      ContentShift(Call(content, calls[0]).content, calls[1..], k - 1, m);
      assert calls[1..][k - 1..] == calls[k..];
    }
  }

  /** The id of a call exceeds every id the file shows before the call. */
  lemma IdFresh(content: string, rules: seq<string>, d: string)
    requires Call(content, rules).reply.Created? && d in FindAll(content)
    ensures Value(d) < Call(content, rules).reply.id
  {
    hide Call, FindAll, Value, Lines, ParsedBatch;
    CallEffect(content, rules);
    NextTheorem(content);
  }

  /** Ids never collide: of two calls of a run that both create something, the later one
      has the larger id. */
  lemma IdsIncrease(content: string, calls: seq<seq<string>>, i: nat, j: nat)
    requires i < j < |calls| && calls[i] != []
    requires ReplyAt(content, calls, i).Created? && ReplyAt(content, calls, j).Created?
    ensures ReplyAt(content, calls, i).id < ReplyAt(content, calls, j).id
  {
    hide Call, FindAll, Lines, ParsedBatch, Decimal, Value;
    var before := ContentAt(content, calls, i);
    var id := ReplyAt(content, calls, i).id;
    CallEffect(before, calls[i]);
    var after := Call(before, calls[i]).content;
    LinesFound(before, ParsedBatch(calls[i]).value, id);
    ContentShift(content, calls, i, 1);
    assert calls[i..][0] == calls[i];
    assert ContentAt(content, calls, i + 1) == after;
    ContentShift(content, calls, i + 1, j - i - 1);
    FoundForever(after, calls[i + 1..], Decimal(id), j - i - 1);
    IdFresh(ContentAt(content, calls, j), calls[j], Decimal(id));
    ValueOfDecimal(id);
  }

  // ---------- what a logged line reads as ----------

  /** What printing the rule must not lose once its id is set. The action that the id replaces
      does not matter, the last action may end in a wide character only if the id is printed
      after it or in its place, and double quotes must fit. */
  predicate Loggable(r: SecRule, d: string) {
    QuotesFit(WithId(r, d)) && LoggableParts(r)
  }

  predicate LoggableParts(r: SecRule) {
    && AllCanonical(r.variables) && OperatorFaithful(r.operator)
    && (forall i :: 0 <= i < |r.actions| && i != FirstNamed(r.actions, ActionID) ==> Faithful(r.actions[i]))
    && (FirstNamed(r.actions, ActionID) + 1 >= |r.actions| || OneByteEnd(r.actions))
  }

  /** Setting the id keeps what holds of every action and of the id action. */
  lemma WithActionEach(acts: seq<Action>, a: Action, i: nat)
    requires i < |WithAction(acts, a)|
    ensures var b := WithAction(acts, a)[i]; b == a || (i < |acts| && b == acts[i])
  {
  }

  lemma IdActionFits(d: string)
    requires Digits(d)
    ensures var a := Action(ActionID, d);
            && WellNamed(a) && Faithful(a)
            && '"' !in a.name && '"' !in a.parameter && '\n' !in a.name && '\n' !in a.parameter
  {
    hide NeedsQuoting;
    IdActionText(d);
  }

  lemma LoggedActions(acts: seq<Action>, d: string)
    requires AllWellNamed(acts) && Digits(d) && AbsentFromActions('\n', acts)
    ensures var acts' := WithAction(acts, Action(ActionID, d));
            acts' != [] && AllWellNamed(acts') && AbsentFromActions('\n', acts')
  {
    hide WithAction, WellNamed, Faithful;
    var a := Action(ActionID, d);
    var acts' := WithAction(acts, a);
    IdActionFits(d);
    LastWithAction(acts, a);
    forall i | 0 <= i < |acts'| ensures acts'[i] == a || (i < |acts| && acts'[i] == acts[i]) {
      WithActionEach(acts, a, i);
    }
  }

  lemma WithActionFaithful(acts: seq<Action>, a: Action)
    requires Faithful(a)
    ensures AllFaithful(WithAction(acts, a)) <==>
            forall i :: 0 <= i < |acts| && i != FirstNamed(acts, a.name) ==> Faithful(acts[i])
  {
    hide Faithful;
    var acts' := WithAction(acts, a);
    forall i | 0 <= i < |acts| && i != FirstNamed(acts, a.name) ensures acts'[i] == acts[i] {
    }
    forall i | 0 <= i < |acts'| && (i == |acts| || i == FirstNamed(acts, a.name)) ensures acts'[i] == a {
    }
  }

  lemma IdEnds(d: string)
    requires Digits(d)
    ensures EndsInOneByte(ActionText(Action(ActionID, d)))
  {
    IdActionText(d);
    var t := "id:" + d;
    assert t[|t| - 1] == d[|d| - 1] && IsDigit(d[|d| - 1]);
  }

  lemma LastWithAction(acts: seq<Action>, a: Action)
    ensures var w := WithAction(acts, a);
            w != [] && w[|w| - 1] == if FirstNamed(acts, a.name) + 1 >= |acts| then a else acts[|acts| - 1]
  {
  }

  lemma LoggedEnd(acts: seq<Action>, a: Action)
    requires EndsInOneByte(ActionText(a))
    ensures OneByteEnd(WithAction(acts, a)) <==> FirstNamed(acts, a.name) + 1 >= |acts| || OneByteEnd(acts)
  {
    hide ActionText, FirstNamed, EndsInOneByte;
    LastWithAction(acts, a);
  }

  lemma LoggedFaithful(r: SecRule, d: string)
    requires Printable(r) && OneLine(r) && Digits(d)
    ensures Printable(WithId(r, d))
    ensures RuleFaithful(WithId(r, d)) <==> LoggableParts(r)
  {
    hide AllWellNamed, AllFaithful, AbsentFromActions, OneByteEnd, Digits,
         AllCanonical, OperatorFaithful, PlainVariables, WithAction;
    LoggedActions(r.actions, d);
    IdEnds(d);
    IdActionFits(d);
    WithActionFaithful(r.actions, Action(ActionID, d));
    LoggedEnd(r.actions, Action(ActionID, d));
  }

  /** A logged line reads back as the submitted rule with its id set if and only if the rule
      is loggable. */
  lemma LoggedLine(r: SecRule, id: nat)
    requires Printable(r) && OneLine(r)
    ensures Parse(LineFor(r, id)[1..]) == Ok(WithId(r, Decimal(id))) <==> Loggable(r, Decimal(id))
  {
    hide Parse, RuleFaithful, LoggableParts, Printable, OneLine, RuleText, WithId, QuotesFit;
    LoggedFaithful(r, Decimal(id));
    RoundTripTheorem(WithId(r, Decimal(id)));
    assert LineFor(r, id)[1..] == RuleText(WithId(r, Decimal(id)));
  }

  // ---------- every line of the log ----------

  /** The line of a rule, without the line end in front of it. */
  function Entry(r: SecRule, id: nat): string {
    RuleText(WithId(r, Decimal(id)))
  }

  function Entries(rs: seq<SecRule>, id: nat): (es: seq<string>)
    ensures |es| == |rs| && forall i :: 0 <= i < |rs| ==> es[i] == Entry(rs[i], id)
  {
    if rs == [] then [] else [Entry(rs[0], id)] + Entries(rs[1..], id)
  }

  /** No line end anywhere in the rule. */
  predicate LineFree(r: SecRule) {
    OneLine(r) && AbsentFromVariables('\n', r.variables)
  }

  lemma WithIdLineFree(r: SecRule, d: string)
    requires LineFree(r) && Digits(d)
    ensures LineFree(WithId(r, d))
  {
    hide Digits, WithAction;
    IdActionFits(d);
    var a := Action(ActionID, d);
    var acts := WithAction(r.actions, a);
    forall i | 0 <= i < |acts| ensures '\n' !in acts[i].name && '\n' !in acts[i].parameter {
      WithActionEach(r.actions, a, i);
    }
  }

  lemma PrintedLineFree(r: SecRule)
    requires LineFree(r)
    ensures '\n' !in RuleText(r)
  {
    SectionChars(r, '\n');
    var vs := VariableTexts(r.variables);
    forall v | v in vs ensures '\n' !in v {
      var i :| 0 <= i < |vs| && vs[i] == v;
    }
    JoinChars(vs, "|", '\n');
    hide Join;
    assert '\n' !in OperatorText(r.operator);
  }

  lemma EntryOneLine(r: SecRule, id: nat)
    requires LineFree(r)
    ensures '\n' !in Entry(r, id)
  {
    hide LineFree, RuleText, WithId;
    WithIdLineFree(r, Decimal(id));
    PrintedLineFree(WithId(r, Decimal(id)));
  }

  lemma OneMoreLine(content: string, r: SecRule, id: nat)
    requires LineFree(r)
    ensures Split(content + LineFor(r, id), '\n') == Split(content, '\n') + [Entry(r, id)]
  {
    hide Split, LineFree, RuleText, WithId;
    EntryOneLine(r, id);
    SplitAppend(content, '\n', Entry(r, id));
    assert content + LineFor(r, id) == content + ['\n'] + Entry(r, id);
  }

  /** A batch adds its entries as lines. */
  lemma {:induction false} BatchLines(content: string, rs: seq<SecRule>, id: nat)
    requires forall i :: 0 <= i < |rs| ==> LineFree(rs[i])
    ensures Split(content + Lines(rs, id), '\n') == Split(content, '\n') + Entries(rs, id)
    decreases |rs|
  {
    hide Split, LineFree, LineFor, Entry;
    if rs == [] {
      assert content + "" == content;
    } else {
      OneMoreLine(content, rs[0], id);
      BatchLines(content + LineFor(rs[0], id), rs[1..], id);
      assert content + LineFor(rs[0], id) + Lines(rs[1..], id) == content + Lines(rs, id);
      Tokenizer.Regroup(Split(content, '\n'), [Entry(rs[0], id)], Entries(rs[1..], id));
    }
  }

  /** The entries of call k of a run: one per rule when it creates, none otherwise. */
  function EntriesAt(content: string, calls: seq<seq<string>>, k: nat): seq<string>
    requires k < |calls|
  {
    var reply := ReplyAt(content, calls, k);
    if reply.Created? && ParsedBatch(calls[k]).Ok? then Entries(ParsedBatch(calls[k]).value, reply.id) else []
  }

  function EntriesFrom(content: string, calls: seq<seq<string>>): seq<string>
    decreases |calls|
  {
    if calls == [] then []
    else EntriesAt(content, calls, 0) + EntriesFrom(Call(content, calls[0]).content, calls[1..])
  }

  lemma CallLines(content: string, calls: seq<seq<string>>)
    requires calls != []
    ensures Split(Call(content, calls[0]).content, '\n') == Split(content, '\n') + EntriesAt(content, calls, 0)
  {
    hide Call, Split, Parse, Lines, Entries, ParsedBatch;
    CallEffect(content, calls[0]);
    var out := Call(content, calls[0]);
    if out.reply.Created? {
      var rs := ParsedBatch(calls[0]).value;
      forall i | 0 <= i < |rs| ensures LineFree(rs[i]) {
        ParsedEach(calls[0], i);
        ParsedOneLine(calls[0][i]);
      }
      BatchLines(content, rs, out.reply.id);
    } else {
      assert Split(content, '\n') + [] == Split(content, '\n');
    }
  }

  /** The log as a whole, line by line: after any run of calls the lines of the file are the lines
      it had, followed by one line for each rule of each created batch, in order. */
  lemma {:induction false} LogLines(content: string, calls: seq<seq<string>>)
    ensures Split(RunFrom(content, calls), '\n') == Split(content, '\n') + EntriesFrom(content, calls)
    decreases |calls|
  {
    hide Call, Split, EntriesAt;
    if calls == [] {
      assert Split(content, '\n') + [] == Split(content, '\n');
    } else {
      CallLines(content, calls);
      LogLines(Call(content, calls[0]).content, calls[1..]);
    }
  }

  lemma EntriesShift(content: string, calls: seq<seq<string>>, k: nat)
    requires 0 < k < |calls|
    ensures EntriesAt(Call(content, calls[0]).content, calls[1..], k - 1) == EntriesAt(content, calls, k)
  {
    hide Call, Entries, ParsedBatch;
  }

  lemma {:induction false} EntryPlace(content: string, calls: seq<seq<string>>, k: nat, i: nat) returns (n: nat)
    requires k < |calls| && i < |EntriesAt(content, calls, k)|
    ensures n < |EntriesFrom(content, calls)| && EntriesFrom(content, calls)[n] == EntriesAt(content, calls, k)[i]
    decreases k
  {
    hide Call, EntriesAt;
    var next := Call(content, calls[0]).content;
    if k == 0 {
      n := i;
    } else {
      EntriesShift(content, calls, k);
      var m := EntryPlace(next, calls[1..], k - 1, i);
      n := |EntriesAt(content, calls, 0)| + m;
    }
  }

  lemma {:induction false} ParsedEach(rules: seq<string>, i: nat)
    requires ParsedBatch(rules).Ok? && i < |rules|
    ensures |ParsedBatch(rules).value| == |rules| && Parse(rules[i]) == Ok(ParsedBatch(rules).value[i])
    decreases |rules|
  {
    hide Parse;
    if i > 0 {
      ParsedEach(rules[1..], i - 1);
    } else if |rules| > 1 {
      ParsedEach(rules[1..], 0);
    }
  }

  /** After any run, rule i of a created batch k stands on a line of its own after the initial
      lines, under the id of its call; and that line reads back as the submitted rule with only
      its id set, exactly if the rule is loggable. */
  lemma LogEntry(content: string, calls: seq<seq<string>>, k: nat, i: nat) returns (n: nat)
    requires k < |calls| && i < |calls[k]| && ReplyAt(content, calls, k).Created?
    ensures Parse(calls[k][i]).Ok?
    ensures var r, id := Parse(calls[k][i]).value, ReplyAt(content, calls, k).id;
            var lines := Split(RunFrom(content, calls), '\n');
            && |Split(content, '\n')| <= n < |lines| && lines[n] == Entry(r, id)
            && (Printable(r) ==>
                  (Parse(lines[n]) == Ok(r.(actions := WithAction(r.actions, Action("id", Decimal(id)))))
                   <==> Loggable(r, Decimal(id))))
  {
    hide Call, Split, EntriesFrom, RunFrom, Loggable, Printable, Parse, WithAction, ParsedBatch;
    var id := ReplyAt(content, calls, k).id;
    CallEffect(ContentAt(content, calls, k), calls[k]);
    var rs := ParsedBatch(calls[k]).value;
    ParsedEach(calls[k], i);
    LogLines(content, calls);
    assert EntriesAt(content, calls, k) == Entries(rs, id);
    var m := EntryPlace(content, calls, k, i);
    n := |Split(content, '\n')| + m;
    ParsedOneLine(calls[k][i]);
    if Printable(rs[i]) {
      LoggedLine(rs[i], id);
      assert LineFor(rs[i], id)[1..] == Entry(rs[i], id);
    }
  }
}
