/** Printing and re-reading an action list. */
module ActionList {
  import opened Text
  import opened SecLang
  import opened RuleParser

  // ---------- splitting inverts joining ----------

  function StateAfter(s: string, q: QuoteState): QuoteState {
    if s == "" then q else StateAfter(s[1..], Advance(q, s[0]))
  }

  predicate NoCut(s: string, q: QuoteState) {
    s == "" || (!Cuts(q, s[0]) && NoCut(s[1..], Advance(q, s[0])))
  }

  /** A non-empty piece whose quotes are closed and whose commas are all quoted. */
  predicate Atomic(p: string) {
    p != "" && NoCut(p, Closed) && StateAfter(p, Closed) == Closed
  }

  ghost predicate AllAtomic(pieces: seq<string>) {
    forall i :: 0 <= i < |pieces| ==> Atomic(pieces[i])
  }

  lemma {:induction false} Walk(p: string, s: string, cur: string, q: QuoteState, flush: bool)
    requires NoCut(p, q)
    ensures PiecesFrom(p + s, cur, q, flush) == PiecesFrom(s, cur + p, StateAfter(p, q), flush)
  {
    if p == "" {
      assert p + s == s && cur + p == cur;
    } else {
      assert (p + s)[1..] == p[1..] + s;
      assert cur + [p[0]] + p[1..] == cur + p;
      Walk(p[1..], s, cur + [p[0]], Advance(q, p[0]), flush);
    }
  }

  lemma {:induction false} SplitJoined(pieces: seq<string>, flush: bool)
    requires pieces != []
    requires AllAtomic(pieces)
    ensures PiecesFrom(Join(pieces, ","), "", Closed, flush) ==
            if flush then pieces else pieces[..|pieces| - 1]
  {
    var p := pieces[0];
    assert "" + p == p;
    if |pieces| == 1 {
      assert p + "" == p;
      Walk(p, "", "", Closed, flush);
    } else {
      var rest := Join(pieces[1..], ",");
      assert p + "," + rest == p + ("," + rest);
      Walk(p, "," + rest, "", Closed, flush);
      assert ("," + rest)[1..] == rest;
      SplitJoined(pieces[1..], flush);
    }
  }

  lemma {:induction false} JoinEnd(pieces: seq<string>, sep: string)
    requires pieces != [] && pieces[|pieces| - 1] != ""
    ensures Join(pieces, sep) != ""
    ensures Join(pieces, sep)[|Join(pieces, sep)| - 1] == pieces[|pieces| - 1][|pieces[|pieces| - 1]| - 1]
  {
    if |pieces| > 1 {
      JoinEnd(pieces[1..], sep);
    }
  }

  /** Splitting a comma-join gives the pieces back exactly when the last character of the
      last piece takes one byte: otherwise the source drops that piece. */
  lemma PiecesInvertJoin(pieces: seq<string>)
    requires AllAtomic(pieces)
    ensures Pieces(Join(pieces, ",")) == pieces
            <==> pieces == [] || EndsInOneByte(pieces[|pieces| - 1])
  {
    if pieces != [] {
      JoinEnd(pieces, ",");
      SplitJoined(pieces, EndsInOneByte(Join(pieces, ",")));
    }
  }

  // ---------- what re-reading one printed action gives ----------

  predicate WellNamed(a: Action) {
    && a.name != "" && Trimmed(a.name)
    && ',' !in a.name && ':' !in a.name && '\'' !in a.name && '"' !in a.name
  }

  /** The printed action carries its parameter through the parser. */
  predicate Faithful(a: Action) {
    && '\'' !in a.parameter
    && (NeedsQuoting(a.parameter) || Trimmed(a.parameter))
  }

  predicate AllWellNamed(acts: seq<Action>) {
    forall i :: 0 <= i < |acts| ==> WellNamed(acts[i])
  }

  predicate AllFaithful(acts: seq<Action>) {
    forall i :: 0 <= i < |acts| ==> Faithful(acts[i])
  }

  predicate NoQuotes(acts: seq<Action>) {
    forall i :: 0 <= i < |acts| ==> '\'' !in acts[i].parameter
  }

  lemma {:induction false} EscapeNothing(s: string)
    requires '\'' !in s
    ensures EscapeQuotes(s) == s
  {
    if s != "" {
      EscapeNothing(s[1..]);
    }
  }

  lemma {:induction false} PlainWalk(s: string)
    requires ',' !in s && '\'' !in s && '"' !in s
    ensures NoCut(s, Closed) && StateAfter(s, Closed) == Closed
  {
    if s != "" {
      PlainWalk(s[1..]);
    }
  }

  lemma {:induction false} QuotedWalk(s: string)
    requires '\'' !in s
    ensures NoCut(s, Open('\'')) && StateAfter(s, Open('\'')) == Open('\'')
  {
    if s != "" {
      QuotedWalk(s[1..]);
    }
  }

  lemma {:induction false} WalkConcat(a: string, b: string, q: QuoteState)
    ensures StateAfter(a + b, q) == StateAfter(b, StateAfter(a, q))
    ensures NoCut(a + b, q) <==> NoCut(a, q) && NoCut(b, StateAfter(a, q))
  {
    if a == "" {
      assert a + b == b;
    } else {
      assert (a + b)[1..] == a[1..] + b;
      WalkConcat(a[1..], b, Advance(q, a[0]));
    }
  }

  lemma UnquotedHasNoMarks(s: string)
    requires !NeedsQuoting(s)
    ensures ',' !in s && '\'' !in s && '"' !in s && '\\' !in s && ' ' !in s && '\n' !in s
  {
    assert {',', '\'', '"', '\\', ' ', '\n'} <= set c | c in QUOTED_CHARS;
  }

  lemma AtomicQuoted(name: string, p: string)
    requires WellNamed(Action(name, p)) && '\'' !in p
    ensures Atomic(name + ":'" + p + "'")
  {
    PlainWalk(name);
    QuotedWalk(p);
    WalkConcat(p, "'", Open('\''));
    assert StateAfter("'", Open('\'')) == Closed && NoCut("'", Open('\''));
    OpeningMark();
    WalkConcat(":'", p + "'", Closed);
    WalkConcat(name, ":'" + (p + "'"), Closed);
    assert name + ":'" + p + "'" == name + (":'" + (p + "'"));
  }

  lemma OpeningMark()
    ensures StateAfter(":'", Closed) == Open('\'') && NoCut(":'", Closed)
  {
    assert ":'"[1..] == "'" && "'"[1..] == "";
  }

  lemma AtomicPlain(name: string, p: string)
    requires WellNamed(Action(name, p)) && ',' !in p && '\'' !in p && '"' !in p
    ensures Atomic(name + ":" + p)
  {
    PlainWalk(name + ":" + p);
  }

  lemma PrintedAtomic(a: Action)
    requires WellNamed(a) && '\'' !in a.parameter
    ensures Atomic(ActionText(a))
  {
    if a.parameter == "" {
      PlainWalk(a.name);
    } else if NeedsQuoting(a.parameter) {
      EscapeNothing(a.parameter);
      AtomicQuoted(a.name, a.parameter);
    } else {
      UnquotedHasNoMarks(a.parameter);
      AtomicPlain(a.name, a.parameter);
    }
  }

  /** The parameter a re-read action carries. */
  function Reread(a: Action): Action {
    if NeedsQuoting(a.parameter) then a else a.(parameter := Trim(a.parameter))
  }

  /** The parser's reading of name:tail, when the name is plain. */
  lemma NameSplit(name: string, tail: string)
    requires Trimmed(name) && ':' !in name
    ensures var t := name + [':'] + tail;
            ActionOf(t) == var u := Unquote(Trim(tail), '\'');
                           if u.Ok? then Ok(Action(name, u.value)) else u.PropagateFailure()
  {
    var t := name + [':'] + tail;
    IndexOfAt(name, ':', tail);
    assert t[|name|] == ':';
    assert t[..|name|] == name && t[|name| + 1..] == tail;
    TrimFixed(name);
  }

  /** Trimming name:p only cuts the margin behind p. */
  lemma NameTrim(name: string, p: string) returns (tail: string)
    requires name != "" && Trimmed(name)
    ensures Trim(name + [':'] + p) == name + [':'] + tail
    ensures Trim(tail) == Trim(p)
  {
    var a, b := TrimDecomposes(p);
    if Trim(p) == "" {
      tail := "";
      TrimFixed("");
      assert name + [':'] + p == "" + (name + [':'] + tail) + (a + b);
      TrimPadded("", name + [':'] + tail, a + b);
    } else {
      tail := a + Trim(p);
      assert name + [':'] + p == "" + (name + [':'] + tail) + b;
      TrimPadded("", name + [':'] + tail, b);
      assert tail == a + Trim(p) + "";
      TrimPadded(a, Trim(p), "");
    }
  }

  lemma RereadPlain(name: string, p: string)
    requires WellNamed(Action(name, p)) && '\'' !in p
    ensures Trim(name + [':'] + p) != ""
    ensures ActionOf(Trim(name + [':'] + p)) == Ok(Action(name, Trim(p)))
  {
    var tail := NameTrim(name, p);
    NameSplit(name, tail);
    var a, b := TrimDecomposes(p);
    assert '\'' !in Trim(p);
  }

  lemma RereadQuoted(name: string, p: string)
    requires WellNamed(Action(name, p)) && '\'' !in p
    ensures Trim(name + [':'] + ("'" + p + "'")) != ""
    ensures ActionOf(Trim(name + [':'] + ("'" + p + "'"))) == Ok(Action(name, p))
  {
    var q := "'" + p + "'";
    TrimFixed(q);
    TrimFixed(name + [':'] + q);
    NameSplit(name, q);
    assert q[1..|q| - 1] == p;
  }

  lemma PrintedForms(a: Action)
    requires '\'' !in a.parameter
    ensures a.parameter == "" ==> ActionText(a) == a.name
    ensures a.parameter != "" && NeedsQuoting(a.parameter) ==>
              ActionText(a) == a.name + [':'] + ("'" + a.parameter + "'")
    ensures a.parameter != "" && !NeedsQuoting(a.parameter) ==>
              ActionText(a) == a.name + [':'] + a.parameter
  {
    var p := a.parameter;
    EscapeNothing(p);
    assert a.name + ":'" + p + "'" == a.name + [':'] + ("'" + p + "'");
  }

  lemma RereadAction(a: Action)
    requires WellNamed(a) && '\'' !in a.parameter
    ensures Trim(ActionText(a)) != ""
    ensures ActionOf(Trim(ActionText(a))) == Ok(Reread(a))
  {
    PrintedForms(a);
    RereadQuoted(a.name, a.parameter);
    RereadPlain(a.name, a.parameter);
    TrimFixed(a.name);
    TrimFixed("");
  }

  function RereadAll(acts: seq<Action>): (r: seq<Action>)
    ensures |r| == |acts| && forall i :: 0 <= i < |acts| ==> r[i] == Reread(acts[i])
  {
    if acts == [] then [] else [Reread(acts[0])] + RereadAll(acts[1..])
  }

  lemma {:induction false} RereadList(acts: seq<Action>)
    requires AllWellNamed(acts) && NoQuotes(acts)
    ensures ActionsOf(ActionTexts(acts)) == Ok(RereadAll(acts))
  {
    if acts != [] {
      RereadAction(acts[0]);
      RereadList(acts[1..]);
      assert ActionTexts(acts)[1..] == ActionTexts(acts[1..]);
    }
  }

  // ---------- counting characters through the splitter and the parser ----------

  lemma {:induction false} PiecesKeep(s: string, cur: string, q: QuoteState, c: char)
    requires c != ','
    ensures CountAll(PiecesFrom(s, cur, q, true), c) == Count(cur, c) + Count(s, c)
  {
    if s == "" {
    } else if Cuts(q, s[0]) {
      PiecesKeep(s[1..], "", q, c);
      var rest := PiecesFrom(s[1..], "", q, true);
      if cur == "" {
        assert [] + rest == rest;
      } else {
        assert ([cur] + rest)[1..] == rest;
      }
    } else {
      CountConcat(cur, [s[0]], c);
      PiecesKeep(s[1..], cur + [s[0]], Advance(q, s[0]), c);
    }
  }

  /** Without the final flush the last character is lost. */
  lemma {:induction false} PiecesLose(s: string, cur: string, q: QuoteState)
    requires s != "" && s[|s| - 1] != ','
    ensures var c := s[|s| - 1];
            CountAll(PiecesFrom(s, cur, q, false), c) < Count(cur, c) + Count(s, c)
  {
    var c := s[|s| - 1];
    if Cuts(q, s[0]) {
      PiecesLose(s[1..], "", q);
      var rest := PiecesFrom(s[1..], "", q, false);
      if cur == "" {
        assert [] + rest == rest;
      } else {
        assert ([cur] + rest)[1..] == rest;
      }
    } else {
      CountConcat(cur, [s[0]], c);
      if |s| > 1 {
        PiecesLose(s[1..], cur + [s[0]], Advance(q, s[0]));
      }
    }
  }

  function CountActions(acts: seq<Action>, c: char): nat {
    if acts == [] then 0
    else Count(acts[0].name, c) + Count(acts[0].parameter, c) + CountActions(acts[1..], c)
  }

  function QuotesInParameters(acts: seq<Action>): nat {
    if acts == [] then 0 else Count(acts[0].parameter, '\'') + QuotesInParameters(acts[1..])
  }

  lemma UnquoteCount(s: string, mark: char, c: char)
    requires Unquote(s, mark).Ok?
    ensures Count(Unquote(s, mark).value, c) <= Count(s, c)
    ensures c != mark ==> Count(Unquote(s, mark).value, c) == Count(s, c)
  {
    var u := Unquote(s, mark).value;
    if u != s {
      assert s == [mark] + u + [mark];
      CountConcat([mark] + u, [mark], c);
      CountConcat([mark], u, c);
    }
  }

  lemma ActionOfCount(part: string, c: char)
    requires ActionOf(part).Ok?
    ensures var a := ActionOf(part).value;
            Count(a.name, c) + Count(a.parameter, c) <= Count(part, c)
    ensures var a := ActionOf(part).value;
            c != ':' && c != '\'' && !IsSpace(c) ==>
              Count(a.name, c) + Count(a.parameter, c) == Count(part, c)
  {
    if ':' in part {
      var k := IndexOf(part, ':');
      assert part == part[..k] + ([':'] + part[k + 1..]);
      CountConcat(part[..k], [':'] + part[k + 1..], c);
      CountConcat([':'], part[k + 1..], c);
      CountTrim(part[..k], c);
      CountTrim(part[k + 1..], c);
      UnquoteCount(Trim(part[k + 1..]), '\'', c);
    }
  }

  lemma {:induction false} ActionsOfCount(parts: seq<string>, c: char)
    requires ActionsOf(parts).Ok?
    ensures CountActions(ActionsOf(parts).value, c) <= CountAll(parts, c)
    ensures c != ':' && c != '\'' && !IsSpace(c) ==>
              CountActions(ActionsOf(parts).value, c) == CountAll(parts, c)
  {
    if parts != [] {
      CountTrim(parts[0], c);
      ActionsOfCount(parts[1..], c);
      if Trim(parts[0]) != "" {
        ActionOfCount(Trim(parts[0]), c);
        var acts := ActionsOf(parts).value;
        assert acts[1..] == ActionsOf(parts[1..]).value;
      }
    }
  }

  lemma {:induction false} EscapeCount(s: string, c: char)
    ensures Count(EscapeQuotes(s), c) == Count(s, c) + if c == '\\' then Count(s, '\'') else 0
  {
    if s != "" {
      EscapeCount(s[1..], c);
      var head := if s[0] == '\'' then "\\'" else [s[0]];
      CountConcat(head, EscapeQuotes(s[1..]), c);
      assert "\\'"[1..] == "'" && "'"[1..] == "";
    }
  }

  lemma ActionTextCount(a: Action, c: char)
    requires c != ':' && c != '\''
    ensures Count(ActionText(a), c) ==
            Count(a.name, c) + Count(a.parameter, c) + if c == '\\' then Count(a.parameter, '\'') else 0
  {
    var p := a.parameter;
    if p == "" {
    } else if NeedsQuoting(p) {
      assert ":'"[1..] == "'" && "'"[1..] == "";
      CountConcat(a.name + ":'" + EscapeQuotes(p), "'", c);
      CountConcat(a.name + ":'", EscapeQuotes(p), c);
      CountConcat(a.name, ":'", c);
      EscapeCount(p, c);
    } else {
      UnquotedHasNoMarks(p);
      CountZero(p, '\'');
      CountConcat(a.name + ":", p, c);
      CountConcat(a.name, ":", c);
    }
  }

  /** The printed action list. */
  function Section(acts: seq<Action>): string {
    Join(ActionTexts(acts), ",")
  }

  /** The printed action list ends in a one-byte character. */
  predicate OneByteEnd(acts: seq<Action>) {
    acts != [] && EndsInOneByte(ActionText(acts[|acts| - 1]))
  }

  lemma SectionEnd(acts: seq<Action>)
    requires acts != [] && AllWellNamed(acts)
    ensures Section(acts) != ""
    ensures EndsInOneByte(Section(acts)) == OneByteEnd(acts)
  {
    var ts := ActionTexts(acts);
    assert ts[|ts| - 1] == ActionText(acts[|acts| - 1]) != "";
    JoinEnd(ts, ",");
  }

  lemma {:induction false} SectionCount(acts: seq<Action>, c: char)
    requires c != ':' && c != '\'' && c != ','
    ensures Count(Section(acts), c) ==
            CountActions(acts, c) + if c == '\\' then QuotesInParameters(acts) else 0
  {
    if acts != [] {
      ActionTextCount(acts[0], c);
      SectionCount(acts[1..], c);
      assert ActionTexts(acts)[1..] == ActionTexts(acts[1..]);
      if |acts| > 1 {
        CountConcat(ActionText(acts[0]) + ",", Join(ActionTexts(acts[1..]), ","), c);
        CountConcat(ActionText(acts[0]), ",", c);
      } else {
        assert acts[1..] == [];
      }
    }
  }

  lemma {:induction false} SomeQuote(acts: seq<Action>)
    requires !NoQuotes(acts)
    ensures QuotesInParameters(acts) > 0
    ensures !AllFaithful(acts)
  {
    CountZero(acts[0].parameter, '\'');
    if '\'' !in acts[0].parameter {
      SomeQuote(acts[1..]);
    }
  }

  /** What the parser reads when the last character takes several bytes lacks that character. */
  lemma LostCharacter(s: string)
    requires s != "" && !OneByte(s[|s| - 1]) && ActionsFrom(s).Ok?
    ensures CountActions(ActionsFrom(s).value, s[|s| - 1]) < Count(s, s[|s| - 1])
  {
    PiecesLose(s, "", Closed);
    ActionsOfCount(Pieces(s), s[|s| - 1]);
  }

  /** A dropped last piece never goes unnoticed. */
  lemma DroppedPiece(acts: seq<Action>)
    requires acts != [] && AllWellNamed(acts) && !OneByteEnd(acts)
    ensures ActionsFrom(Section(acts)) != Ok(acts)
  {
    SectionEnd(acts);
    var s := Section(acts);
    var c := s[|s| - 1];
    SectionCount(acts, c);
    if ActionsFrom(s) == Ok(acts) {
      LostCharacter(s);
      assert false;
    }
  }

  /** A kept list has every backslash of the text. */
  lemma KeptBackslashes(s: string)
    requires EndsInOneByte(s) && ActionsFrom(s).Ok?
    ensures CountActions(ActionsFrom(s).value, '\\') == Count(s, '\\')
  {
    PiecesKeep(s, "", Closed, '\\');
    ActionsOfCount(Pieces(s), '\\');
  }

  /** An escaped quote never goes unnoticed: the parser keeps the backslash. */
  lemma EscapedQuotes(acts: seq<Action>)
    requires acts != [] && AllWellNamed(acts) && OneByteEnd(acts) && !NoQuotes(acts)
    ensures ActionsFrom(Section(acts)) != Ok(acts)
    ensures !AllFaithful(acts)
  {
    SectionEnd(acts);
    SomeQuote(acts);
    SectionCount(acts, '\\');
    if ActionsFrom(Section(acts)) == Ok(acts) {
      KeptBackslashes(Section(acts));
      assert false;
    }
  }

  /** Without quotes in the parameters, re-reading changes parameters one by one. */
  lemma UnescapedRoundTrip(acts: seq<Action>)
    requires acts != [] && AllWellNamed(acts) && NoQuotes(acts)
    requires OneByteEnd(acts)
    ensures ActionsFrom(Section(acts)) == Ok(acts) <==> AllFaithful(acts)
  {
    PrintedAtomicAll(acts);
    PiecesInvertJoin(ActionTexts(acts));
    RereadList(acts);
    SameIffFaithful(acts);
  }

  /** Printing an action list and reading it back gives the list exactly when no parameter
      has a single quote, every parameter is trimmed or gets quoted, and the printed list
      ends in a one-byte character. */
  lemma ActionsRoundTrip(acts: seq<Action>)
    requires acts != [] && AllWellNamed(acts)
    ensures ActionsFrom(Section(acts)) == Ok(acts) <==> AllFaithful(acts) && OneByteEnd(acts)
  {
    if !OneByteEnd(acts) {
      DroppedPiece(acts);
    } else if NoQuotes(acts) {
      UnescapedRoundTrip(acts);
    } else {
      EscapedQuotes(acts);
    }
  }

  lemma PrintedAtomicAll(acts: seq<Action>)
    requires AllWellNamed(acts) && NoQuotes(acts)
    ensures AllAtomic(ActionTexts(acts))
  {
    forall i | 0 <= i < |acts| ensures Atomic(ActionTexts(acts)[i]) {
      PrintedAtomic(acts[i]);
    }
  }

  lemma SameIffFaithful(acts: seq<Action>)
    requires NoQuotes(acts)
    ensures RereadAll(acts) == acts <==> AllFaithful(acts)
  {
    forall i | 0 <= i < |acts| ensures Reread(acts[i]) == acts[i] <==> Faithful(acts[i]) {
      TrimFixed(acts[i].parameter);
    }
    if RereadAll(acts) == acts {
      forall i | 0 <= i < |acts| ensures Faithful(acts[i]) {
        assert RereadAll(acts)[i] == Reread(acts[i]);
      }
    }
  }
}
