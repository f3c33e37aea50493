/** The quote-aware splitter that cuts a rule into its components. */
module Tokenizer {
  import opened Text

  function SkipSpaces(s: string): string {
    if StartsWith(s, ' ') then SkipSpaces(s[1..]) else s
  }

  lemma SkipSpacesShrinks(s: string)
    ensures |SkipSpaces(s)| <= |s|
    ensures !StartsWith(SkipSpaces(s), ' ')
  {
  }

  /** The quoted component at the front of rest, if rest starts with a quote, and the
      text after it. A quote that is never closed swallows the rest of the text. */
  function TakeQuoted(rest: string): (r: (seq<string>, string))
    ensures |r.1| <= |rest|
  {
    if !StartsWith(rest, '"') then ([], rest)
    else
      var k := IndexOf(rest[1..], '"') + 1;
      if k == |rest| then ([], "") else ([rest[..k + 1]], rest[k + 1..])
  }

  /** Components of the text s that remains, when cur has been collected so far and
      inQuotes tells whether a double quote is open. A component that is ended by a
      space may be followed by one quoted component, which is taken whole. */
  function ComponentsFrom(s: string, cur: string, inQuotes: bool): seq<string>
    decreases |s|
  {
    if s == "" then (if cur == "" then [] else [cur])
    else if s[0] == '"' then ComponentsFrom(s[1..], cur + "\"", !inQuotes)
    else if s[0] != ' ' || inQuotes then ComponentsFrom(s[1..], cur + [s[0]], inQuotes)
    else if cur == "" then ComponentsFrom(s[1..], "", false)
    else
      SkipSpacesShrinks(s[1..]);
      var q := TakeQuoted(SkipSpaces(s[1..]));
      [cur] + (q.0 + ComponentsFrom(q.1, "", false))
  }

  function Components(text: string): seq<string> {
    ComponentsFrom(text, "", false)
  }

  /** The splitter as the source runs it. */
  method SplitRuleIntoComponents(ruleText: string) returns (parts: seq<string>)
    ensures parts == Components(ruleText)
  {
    parts := [];
    var current := "";
    var inQuotes := false;
    var i := 0;
    while i < |ruleText|
      invariant 0 <= i <= |ruleText|
      invariant Components(ruleText) == parts + ComponentsFrom(ruleText[i..], current, inQuotes)
    {
      var ch := ruleText[i];
      ghost var s := ruleText[i..];
      assert s[0] == ch && s[1..] == ruleText[i + 1..];
      if ch == '"' {
        inQuotes := !inQuotes;
        current := current + [ch];
        i := i + 1;
      } else if ch == ' ' && !inQuotes {
        if |current| > 0 {
          ghost var before := parts;
          var taken;
          i, taken := SkipGap(ruleText, i + 1);
          parts := parts + [current] + taken;
          Regroup3(before, [current], taken, ComponentsFrom(ruleText[i..], "", false));
          current := "";
        } else {
          i := i + 1;
        }
      } else {
        current := current + [ch];
        i := i + 1;
      }
    }
    if |current| > 0 {
      parts := parts + [current];
    }
  }

  /** After a component: skip the spaces and collect a quoted component that follows them. */
  method SkipGap(ruleText: string, start: nat) returns (i: nat, taken: seq<string>)
    requires start <= |ruleText|
    ensures start <= i <= |ruleText|
    ensures (taken, ruleText[i..]) == TakeQuoted(SkipSpaces(ruleText[start..]))
  {
    i := start;
    while i < |ruleText| && ruleText[i] == ' '
      invariant start <= i <= |ruleText|
      invariant SkipSpaces(ruleText[start..]) == SkipSpaces(ruleText[i..])
    {
      assert ruleText[i..][1..] == ruleText[i + 1..];
      i := i + 1;
    }
    taken := [];
    if i < |ruleText| && ruleText[i] == '"' {
      i, taken := CollectQuoted(ruleText, i);
    }
  }

  /** Collect everything from the quote at position quote up to its closing quote. */
  method CollectQuoted(ruleText: string, quote: nat) returns (i: nat, taken: seq<string>)
    requires quote < |ruleText| && ruleText[quote] == '"'
    ensures quote <= i <= |ruleText|
    ensures (taken, ruleText[i..]) == TakeQuoted(ruleText[quote..])
  {
    hide TakeQuoted;
    taken := [];
    var quoted := "\"";
    i := quote + 1;
    while i < |ruleText| && ruleText[i] != '"'
      invariant quote < i <= |ruleText|
      invariant '"' !in ruleText[quote + 1..i]
      invariant quoted == ruleText[quote..i]
    {
      quoted := quoted + [ruleText[i]];
      i := i + 1;
    }
    TakeQuotedAt(ruleText, quote, i);
    if i < |ruleText| {
      quoted := quoted + "\"";
      taken := [quoted];
      assert quoted == ruleText[quote..i + 1];
      i := i + 1;
    } else {
      assert ruleText[i..] == "";
    }
  }

  /** The scan for the closing quote finds what TakeQuoted takes. */
  lemma TakeQuotedAt(text: string, quote: nat, i: nat)
    requires quote < i <= |text| && text[quote] == '"'
    requires '"' !in text[quote + 1..i]
    requires i == |text| || text[i] == '"'
    ensures TakeQuoted(text[quote..]) ==
            if i == |text| then ([], "") else ([text[quote..i + 1]], text[i + 1..])
  {
    var rest := text[quote..];
    if i < |text| {
      assert rest[1..] == text[quote + 1..i] + ['"'] + text[i + 1..];
      IndexOfAt(text[quote + 1..i], '"', text[i + 1..]);
      assert rest[..i - quote + 1] == text[quote..i + 1];
      assert rest[i - quote + 1..] == text[i + 1..];
    } else {
      assert rest[1..] == text[quote + 1..i];
    }
  }

  // ---------- regrouping concatenations ----------

  lemma Regroup<T>(a: seq<T>, b: seq<T>, c: seq<T>)
    ensures (a + b) + c == a + (b + c)
  {
  }

  lemma Regroup3<T>(a: seq<T>, b: seq<T>, c: seq<T>, d: seq<T>)
    ensures a + (b + (c + d)) == a + b + c + d
  {
  }

  lemma Regroup4<T>(a: seq<T>, b: seq<T>, c: seq<T>, d: seq<T>, e: seq<T>)
    ensures a + (b + c) + (d + e) == a + (b + (c + d) + e)
  {
  }

  // ---------- what the components are, without the scanning ----------

  predicate EvenQuotes(s: string) {
    Count(s, '"') % 2 == 0
  }

  /** s without the spaces that lie outside double quotes. */
  function WithoutBareSpaces(s: string, inQuotes: bool): (r: string)
    ensures |r| <= |s|
  {
    if s == "" then ""
    else if s[0] == '"' then ['"'] + WithoutBareSpaces(s[1..], !inQuotes)
    else if s[0] == ' ' && !inQuotes then WithoutBareSpaces(s[1..], inQuotes)
    else [s[0]] + WithoutBareSpaces(s[1..], inQuotes)
  }

  /** Components carry every quoted character and drop only bare spaces. */
  predicate WholeComponent(c: string) {
    c != "" && EvenQuotes(c) && WithoutBareSpaces(c, false) == c
  }

  lemma SkipSpacesBare(s: string)
    ensures WithoutBareSpaces(SkipSpaces(s), false) == WithoutBareSpaces(s, false)
    ensures Count(SkipSpaces(s), '"') == Count(s, '"')
  {
  }

  /** Quoted text is kept as it is. */
  lemma {:induction false} QuotedKept(p: string, q: string)
    requires '"' !in p
    ensures WithoutBareSpaces(p + "\"" + q, true) == p + "\"" + WithoutBareSpaces(q, false)
    ensures Count(p + "\"" + q, '"') == 1 + Count(q, '"')
  {
    if p == "" {
      assert p + "\"" + q == ['"'] + q;
    } else {
      assert (p + "\"" + q)[1..] == p[1..] + "\"" + q;
      QuotedKept(p[1..], q);
    }
  }

  lemma {:induction false} QuotedTail(p: string)
    requires '"' !in p
    ensures Count(p, '"') == 0
    ensures WithoutBareSpaces(p, true) == p
  {
    if p != "" {
      QuotedTail(p[1..]);
    }
  }

  /** A quoted component is kept whole; if the quotes balance, so is the text after it. */
  lemma TakeQuotedKeeps(rest: string)
    requires EvenQuotes(rest)
    ensures var q := TakeQuoted(rest);
            && WithoutBareSpaces(rest, false) == Concat(q.0) + WithoutBareSpaces(q.1, false)
            && EvenQuotes(q.1)
            && forall c :: c in q.0 ==> WholeComponent(c)
  {
    hide IndexOf, WholeComponent;
    if StartsWith(rest, '"') {
      var k := IndexOf(rest[1..], '"');
      if k + 1 == |rest| {
        QuotedTail(rest[1..]);
        assert false;
      }
      var p, q := rest[1..][..k], rest[k + 2..];
      assert rest[1..] == p + "\"" + q;
      QuotedKept(p, q);
      QuotedWhole(p);
      assert rest[..k + 2] == "\"" + p + "\"";
      ConcatOne(rest[..k + 2]);
    }
  }

  lemma ConcatOne(s: string)
    ensures Concat([s]) == s
  {
    assert s + Concat([s][1..]) == s;
  }

  lemma QuotedWhole(p: string)
    requires '"' !in p
    ensures WholeComponent("\"" + p + "\"")
  {
    QuotedKept(p, "");
    assert ("\"" + p + "\"")[1..] == p + "\"" + "";
  }

  lemma {:induction false} ConcatAppend(a: seq<string>, b: seq<string>)
    ensures Concat(a + b) == Concat(a) + Concat(b)
  {
    if a == [] {
      assert a + b == b;
    } else {
      assert (a + b)[1..] == a[1..] + b;
      ConcatAppend(a[1..], b);
    }
  }

  /** Conservation from any point of the scan. */
  lemma {:induction false} ComponentsConserve(s: string, cur: string, inQuotes: bool)
    requires EvenQuotes(s) == !inQuotes
    ensures Concat(ComponentsFrom(s, cur, inQuotes)) == cur + WithoutBareSpaces(s, inQuotes)
    decreases |s|
  {
    if s == "" {
    } else if s[0] == '"' || s[0] != ' ' || inQuotes {
      var state := if s[0] == '"' then !inQuotes else inQuotes;
      ComponentsConserve(s[1..], cur + [s[0]], state);
      Regroup(cur, [s[0]], WithoutBareSpaces(s[1..], state));
    } else if cur == "" {
      ComponentsConserve(s[1..], "", false);
    } else {
      GapConserves(s, cur);
    }
  }

  lemma {:induction false} GapConserves(s: string, cur: string)
    requires StartsWith(s, ' ') && cur != "" && EvenQuotes(s)
    ensures Concat(ComponentsFrom(s, cur, false)) == cur + WithoutBareSpaces(s, false)
    decreases |s|, 0
  {
    hide TakeQuoted, SkipSpaces;
    SkipSpacesShrinks(s[1..]);
    SkipSpacesBare(s[1..]);
    var rest := SkipSpaces(s[1..]);
    TakeQuotedKeeps(rest);
    var q := TakeQuoted(rest);
    ComponentsConserve(q.1, "", false);
    ConcatAppend(q.0, ComponentsFrom(q.1, "", false));
  }

  /** Appending a character to a partial component. */
  lemma {:induction false} Grow(cur: string, inQuotes: bool, ch: char)
    requires WithoutBareSpaces(cur, inQuotes) == cur
    ensures Count(cur + [ch], '"') == Count(cur, '"') + if ch == '"' then 1 else 0
    ensures (ch != ' ' || inQuotes == EvenQuotes(cur)) ==> WithoutBareSpaces(cur + [ch], inQuotes) == cur + [ch]
  {
    if cur == "" {
      assert cur + [ch] == [ch];
    } else {
      assert (cur + [ch])[1..] == cur[1..] + [ch];
      Grow(cur[1..], if cur[0] == '"' then !inQuotes else inQuotes, ch);
    }
  }

  lemma {:induction false} ComponentsWhole(s: string, cur: string, inQuotes: bool)
    requires EvenQuotes(s) == !inQuotes && EvenQuotes(cur) == !inQuotes
    requires WithoutBareSpaces(cur, false) == cur
    ensures forall c :: c in ComponentsFrom(s, cur, inQuotes) ==> WholeComponent(c)
    decreases |s|
  {
    if s == "" {
    } else if s[0] == '"' {
      Grow(cur, false, '"');
      ComponentsWhole(s[1..], cur + "\"", !inQuotes);
    } else if s[0] != ' ' || inQuotes {
      Grow(cur, false, s[0]);
      ComponentsWhole(s[1..], cur + [s[0]], inQuotes);
    } else if cur == "" {
      ComponentsWhole(s[1..], "", false);
    } else {
      SkipSpacesShrinks(s[1..]);
      SkipSpacesBare(s[1..]);
      var rest := SkipSpaces(s[1..]);
      TakeQuotedKeeps(rest);
      ComponentsWhole(TakeQuoted(rest).1, "", false);
    }
  }

  /** Tokenizer conservation: when the double quotes of a text balance, its components run
      together are the text without its bare spaces, and each of them is a non-empty piece
      with balanced quotes and no bare space. */
  lemma ConservationTheorem(text: string)
    requires EvenQuotes(text)
    ensures Concat(Components(text)) == WithoutBareSpaces(text, false)
    ensures forall c :: c in Components(text) ==> WholeComponent(c)
  {
    ComponentsConserve(text, "", false);
    ComponentsWhole(text, "", false);
  }

  // ---------- texts whose quotes do not balance ----------

  /** Where a scan of the text, character by character, stands: between components, inside one,
      inside quotes that belong to one, in the spaces that ended one, or inside quotes met there. */
  datatype Mode = Blank | Collecting | Quoting | Gap | GapQuoting

  function Step(m: Mode, c: char): Mode {
    match m
    case Blank => if c == '"' then Quoting else if c == ' ' then Blank else Collecting
    case Collecting => if c == '"' then Quoting else if c == ' ' then Gap else Collecting
    case Quoting => if c == '"' then Collecting else Quoting
    case Gap => if c == '"' then GapQuoting else if c == ' ' then Gap else Collecting
    case GapQuoting => if c == '"' then Blank else GapQuoting
  }

  function Scan(m: Mode, s: string): Mode
    decreases |s|
  {
    if s == "" then m else Scan(Step(m, s[0]), s[1..])
  }

  function ModeOf(cur: string, inQuotes: bool): Mode {
    if inQuotes then Quoting else if cur == "" then Blank else Collecting
  }

  lemma {:induction false} ScanSpaces(s: string)
    ensures Scan(Gap, SkipSpaces(s)) == Scan(Gap, s)
  {
    if StartsWith(s, ' ') {
      ScanSpaces(s[1..]);
    }
  }

  lemma {:induction false} ScanQuoted(m: Mode, p: string)
    requires '"' !in p && (m.Quoting? || m.GapQuoting?)
    ensures Scan(m, p) == m
  {
    if p != "" {
      ScanQuoted(m, p[1..]);
    }
  }

  lemma {:induction false} ScanConcat(m: Mode, p: string, q: string)
    ensures Scan(m, p + q) == Scan(Scan(m, p), q)
    decreases |p|
  {
    if p == "" {
      assert p + q == q;
    } else {
      assert (p + q)[1..] == p[1..] + q;
      ScanConcat(Step(m, p[0]), p[1..], q);
    }
  }

  /** Whatever the quotes do, the splitter invents nothing and keeps the order: all it can
      lose is a tail of the text, and it loses one exactly if the text ends inside quotes that
      opened in a gap. */
  lemma {:induction false} ComponentsPrefix(s: string, cur: string, inQuotes: bool) returns (lost: string)
    ensures Concat(ComponentsFrom(s, cur, inQuotes)) + lost == cur + WithoutBareSpaces(s, inQuotes)
    ensures lost != "" <==> Scan(ModeOf(cur, inQuotes), s).GapQuoting?
    decreases |s|
  {
    if s == "" {
      lost := "";
    } else if s[0] == '"' || s[0] != ' ' || inQuotes {
      var state := if s[0] == '"' then !inQuotes else inQuotes;
      lost := ComponentsPrefix(s[1..], cur + [s[0]], state);
      Regroup(cur, [s[0]], WithoutBareSpaces(s[1..], state));
    } else if cur == "" {
      lost := ComponentsPrefix(s[1..], "", false);
    } else {
      lost := GapPrefix(s, cur);
    }
  }

  lemma {:induction false} GapPrefix(s: string, cur: string) returns (lost: string)
    requires StartsWith(s, ' ') && cur != ""
    ensures Concat(ComponentsFrom(s, cur, false)) + lost == cur + WithoutBareSpaces(s, false)
    ensures lost != "" <==> Scan(Collecting, s).GapQuoting?
    decreases |s|, 0
  {
    SkipSpacesShrinks(s[1..]);
    SkipSpacesBare(s[1..]);
    ScanSpaces(s[1..]);
    var rest := SkipSpaces(s[1..]);
    var q := TakeQuoted(rest);
    var more := ComponentsFrom(q.1, "", false);
    var lost1 := TakeQuotedPrefix(rest);
    var lost2 := ComponentsPrefix(q.1, "", false);
    ConcatAppend(q.0, more);
    lost := lost2 + lost1;
    calc {
      Concat(ComponentsFrom(s, cur, false)) + lost;
      cur + (Concat(q.0) + Concat(more)) + (lost2 + lost1);
      { Regroup4(cur, Concat(q.0), Concat(more), lost2, lost1); }
      cur + (Concat(q.0) + (Concat(more) + lost2) + lost1);
      { assert Concat(more) + lost2 == WithoutBareSpaces(q.1, false); }
      cur + WithoutBareSpaces(rest, false);
    }
  }

  lemma TakeQuotedPrefix(rest: string) returns (lost: string)
    requires !StartsWith(rest, ' ')
    ensures var q := TakeQuoted(rest);
            && Concat(q.0) + WithoutBareSpaces(q.1, false) + lost == WithoutBareSpaces(rest, false)
            && (lost != "" || Scan(Blank, q.1).GapQuoting? <==> Scan(Gap, rest).GapQuoting?)
  {
    hide IndexOf;
    lost := "";
    if StartsWith(rest, '"') {
      var k := IndexOf(rest[1..], '"');
      if k + 1 < |rest| {
        hide Scan;
        assert Scan(Gap, rest) == Scan(GapQuoting, rest[1..]) by { ScanHead(Gap, rest); }
        var p, q := rest[1..][..k], rest[k + 2..];
        assert rest[1..] == p + "\"" + q;
        ClosedPrefix(p, q);
        assert rest[..k + 2] == ['"'] + (p + "\"");
        ConcatOne(rest[..k + 2]);
      } else {
        lost := WithoutBareSpaces(rest, false);
        ScanQuoted(GapQuoting, rest[1..]);
      }
    } else if rest != "" {
      assert Scan(Gap, rest) == Scan(Collecting, rest[1..]) == Scan(Blank, rest);
    }
  }

  lemma ScanHead(m: Mode, s: string)
    requires s != ""
    ensures Scan(m, s) == Scan(Step(m, s[0]), s[1..])
  {
  }

  lemma ClosedPrefix(p: string, q: string)
    requires '"' !in p
    ensures WithoutBareSpaces(p + "\"" + q, true) == p + "\"" + WithoutBareSpaces(q, false)
    ensures Scan(GapQuoting, p + "\"" + q) == Scan(Blank, q)
  {
    QuotedKept(p, q);
    ScanQuoted(GapQuoting, p);
    ScanConcat(GapQuoting, p, "\"" + q);
    assert p + "\"" + q == p + ("\"" + q) && ("\"" + q)[1..] == q;
  }

  /** Exactly when the components conserve the text: unless it ends inside quotes that opened in
      the spaces directly after a component. */
  lemma ConservationIff(text: string)
    ensures Concat(Components(text)) == WithoutBareSpaces(text, false) <==> !Scan(Blank, text).GapQuoting?
  {
    var lost := ComponentsPrefix(text, "", false);
    assert "" + WithoutBareSpaces(text, false) == WithoutBareSpaces(text, false);
    if lost != "" {
      assert |Concat(Components(text))| < |WithoutBareSpaces(text, false)|;
    }
  }

  /** A quote is open at the end exactly if the number of quotes is odd. */
  lemma {:induction false} ScanParity(m: Mode, s: string)
    ensures var open := Scan(m, s).Quoting? || Scan(m, s).GapQuoting?;
            EvenQuotes(s) <==> (open <==> m.Quoting? || m.GapQuoting?)
    decreases |s|
  {
    if s != "" {
      ScanParity(Step(m, s[0]), s[1..]);
    }
  }

  /** An unclosed quote after a space loses its text, unless the component before the space was
      itself taken from a gap. */
  lemma UnclosedExamples()
    ensures Scan(Blank, "a \"b") == GapQuoting
    ensures Scan(Blank, "a\"b") == Quoting
    ensures Scan(Blank, "a \"b\" \"c") == Quoting
  {
    ScanConcat(Blank, "a \"b", "\" \"c");
    assert "a \"b" + "\" \"c" == "a \"b\" \"c";
  }
}
