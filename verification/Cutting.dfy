/** Where the splitter cuts: how the components of a text are made from those of its pieces. */
module Cutting {
  import opened Text
  import opened Tokenizer
  import opened RoundTrip

  lemma {:induction false} SkipSpacesConcat(x: string, y: string)
    ensures SkipSpaces(x) != "" ==> SkipSpaces(x + y) == SkipSpaces(x) + y
    ensures SkipSpaces(x) == "" ==> SkipSpaces(x + y) == SkipSpaces(y)
  {
    if x == "" {
      assert x + y == y;
    } else if x[0] == ' ' {
      assert (x + y)[1..] == x[1..] + y;
      SkipSpacesConcat(x[1..], y);
    }
  }

  lemma {:induction false} LeadingSpaces(s: string)
    ensures Components(SkipSpaces(s)) == Components(s)
  {
    if StartsWith(s, ' ') {
      LeadingSpaces(s[1..]);
    }
  }

  lemma {:induction false} AllSpaces(s: string, cur: string)
    requires SkipSpaces(s) == ""
    ensures Components(s) == [] && Scan(Gap, s) == Gap
  {
    if s != "" {
      AllSpaces(s[1..], cur);
    }
  }

  /** A quoted component at the front stays the same whatever follows its text. */
  lemma TakeQuotedConcat(rest: string, y: string)
    requires rest != "" && rest[0] != ' ' && !Scan(Gap, rest).GapQuoting?
    ensures TakeQuoted(rest + y) == (TakeQuoted(rest).0, TakeQuoted(rest).1 + y)
    ensures Scan(Blank, TakeQuoted(rest).1) == Scan(Gap, rest)
  {
    if rest[0] == '"' {
      QuotedConcat(rest, y);
    } else {
      UnquotedConcat(rest, y);
    }
  }

  lemma UnquotedConcat(rest: string, y: string)
    requires rest != "" && rest[0] != ' ' && rest[0] != '"'
    ensures TakeQuoted(rest + y) == (TakeQuoted(rest).0, TakeQuoted(rest).1 + y)
    ensures Scan(Blank, TakeQuoted(rest).1) == Scan(Gap, rest)
  {
    ScanHead(Gap, rest);
    ScanHead(Blank, rest);
    assert (rest + y)[0] == rest[0];
    hide Scan;
    assert TakeQuoted(rest + y) == ([], rest + y);
    assert TakeQuoted(rest) == ([], rest);
  }

  lemma QuotedConcat(rest: string, y: string)
    requires StartsWith(rest, '"') && !Scan(Gap, rest).GapQuoting?
    ensures TakeQuoted(rest + y) == (TakeQuoted(rest).0, TakeQuoted(rest).1 + y)
    ensures Scan(Blank, TakeQuoted(rest).1) == Scan(Gap, rest)
  {
    hide Scan, TakeQuoted;
    ScanHead(Gap, rest);
    var p, q := ClosedFront(rest);
    ClosedPrefix(p, q);
    TakeQuotedString(p, q);
    TakeQuotedString(p, q + y);
    assert rest == Quoted(p) + q by { assert rest == ['"'] + rest[1..]; }
    assert rest + y == Quoted(p) + (q + y);
  }

  lemma ClosedFront(rest: string) returns (p: string, q: string)
    requires StartsWith(rest, '"') && !Scan(GapQuoting, rest[1..]).GapQuoting?
    ensures '"' !in p && rest[1..] == p + "\"" + q
  {
    var k := IndexOf(rest[1..], '"');
    if k == |rest[1..]| {
      ScanQuoted(GapQuoting, rest[1..]);
      assert false;
    }
    p, q := rest[1..][..k], rest[k + 2..];
  }

  /** What is read after the space that ends a component: a quoted string is taken whole. */
  function AfterGap(z: string): seq<string> {
    SkipSpacesShrinks(z);
    var q := TakeQuoted(SkipSpaces(z));
    q.0 + Components(q.1)
  }

  predicate Outside(m: Mode) {
    !m.Quoting? && !m.GapQuoting?
  }

  lemma {:induction false} CutFrom(a: string, cur: string, inQuotes: bool, z: string)
    requires Outside(Scan(ModeOf(cur, inQuotes), a))
    ensures ComponentsFrom(a + (" " + z), cur, inQuotes) ==
            ComponentsFrom(a, cur, inQuotes) +
            if Scan(ModeOf(cur, inQuotes), a).Blank? then Components(z) else AfterGap(z)
    decreases |a|
  {
    var y := " " + z;
    assert y[1..] == z;
    if a == "" {
      assert a + y == y;
      assert [] + Components(z) == Components(z);
    } else {
      assert (a + y)[0] == a[0] && (a + y)[1..] == a[1..] + y;
      if a[0] == '"' || a[0] != ' ' || inQuotes {
        CutFrom(a[1..], cur + [a[0]], if a[0] == '"' then !inQuotes else inQuotes, z);
      } else if cur == "" {
        CutFrom(a[1..], "", false, z);
      } else {
        CutAtGap(a, cur, z);
      }
    }
  }

  lemma {:induction false} CutAtGap(a: string, cur: string, z: string)
    requires StartsWith(a, ' ') && cur != "" && Outside(Scan(Collecting, a))
    ensures ComponentsFrom(a + (" " + z), cur, false) ==
            ComponentsFrom(a, cur, false) + if Scan(Collecting, a).Blank? then Components(z) else AfterGap(z)
    decreases |a|, 0
  {
    var y, rest := " " + z, SkipSpaces(a[1..]);
    assert (a + y)[0] == a[0] && (a + y)[1..] == a[1..] + y;
    SkipSpacesShrinks(a[1..]);
    SkipSpacesConcat(a[1..], y);
    ScanSpaces(a[1..]);
    assert Scan(Collecting, a) == Scan(Gap, a[1..]);
    if rest == "" {
      AllSpaces(a[1..], cur);
      assert y[1..] == z && SkipSpaces(y) == SkipSpaces(z);
      assert TakeQuoted(rest) == ([], "");
      assert ComponentsFrom(a, cur, false) == [cur] by { assert [cur] + ([] + []) == [cur]; }
    } else {
      TakeQuotedConcat(rest, y);
      var q := TakeQuoted(rest);
      CutFrom(q.1, "", false, z);
      GapStep(a, cur, q);
      GapStep(a + y, cur, (q.0, q.1 + y));
      hide ComponentsFrom, TakeQuoted;
      Regroup(q.0, ComponentsFrom(q.1, "", false), if Scan(Blank, q.1).Blank? then Components(z) else AfterGap(z));
      Regroup([cur], q.0 + ComponentsFrom(q.1, "", false), if Scan(Blank, q.1).Blank? then Components(z) else AfterGap(z));
    }
  }

  lemma GapStep(s: string, cur: string, q: (seq<string>, string))
    requires StartsWith(s, ' ') && cur != "" && TakeQuoted(SkipSpaces(s[1..])) == q
    ensures ComponentsFrom(s, cur, false) == [cur] + (q.0 + ComponentsFrom(q.1, "", false))
  {
  }

  /** A bare space cuts: the components of both sides, one after the other, unless the right side
      goes on with a quote. */
  lemma SpaceCut(a: string, b: string)
    requires Outside(Scan(Blank, a)) && (StartsWith(SkipSpaces(b), '"') ==> Scan(Blank, a).Blank?)
    ensures Components(a + (" " + b)) == Components(a) + Components(b)
  {
    CutFrom(a, "", false, b);
    LeadingSpaces(b);
    if !StartsWith(SkipSpaces(b), '"') {
      assert AfterGap(b) == Components(b) by { assert [] + Components(b) == Components(b); }
    }
  }

  /** A quoted string after a component and a space is a component of its own, and the next one
      begins right after its closing quote. */
  lemma QuoteCut(a: string, p: string, b: string)
    requires (Scan(Blank, a).Collecting? || Scan(Blank, a).Gap?) && '"' !in p
    ensures Components(a + (" " + (Quoted(p) + b))) == Components(a) + ([Quoted(p)] + Components(b))
  {
    var z := Quoted(p) + b;
    CutFrom(a, "", false, z);
    TakeQuotedString(p, b);
    assert SkipSpaces(z) == z;
  }

  /** Text without a bare space is one component. */
  predicate NoBareSpace(s: string, inQuotes: bool) {
    WithoutBareSpaces(s, inQuotes) == s
  }

  lemma NoBareTail(s: string, inQuotes: bool)
    requires s != "" && NoBareSpace(s, inQuotes)
    ensures s[0] == '"' || s[0] != ' ' || inQuotes
    ensures NoBareSpace(s[1..], if s[0] == '"' then !inQuotes else inQuotes)
  {
    assert s == [s[0]] + s[1..];
  }

  lemma {:induction false} OneComponent(s: string, cur: string, inQuotes: bool)
    requires NoBareSpace(s, inQuotes) && cur + s != ""
    ensures ComponentsFrom(s, cur, inQuotes) == [cur + s]
    decreases |s|
  {
    hide NoBareSpace;
    if s == "" {
      assert cur + s == cur;
    } else {
      NoBareTail(s, inQuotes);
      OneComponent(s[1..], cur + [s[0]], if s[0] == '"' then !inQuotes else inQuotes);
      assert cur + [s[0]] + s[1..] == cur + s;
    }
  }

  // ---------- words ----------

  /** A word: no white space and no double quote. */
  predicate Word(w: string) {
    w != "" && forall i :: 0 <= i < |w| ==> !IsSpace(w[i]) && w[i] != '"'
  }

  predicate Words(ws: seq<string>) {
    forall i :: 0 <= i < |ws| ==> Word(ws[i])
  }

  lemma {:induction false} WordRun(w: string, cur: string)
    requires '"' !in w && ' ' !in w && cur + w != ""
    ensures ComponentsFrom(w, cur, false) == [cur + w]
    ensures Scan(ModeOf(cur, false), w).Collecting?
    decreases |w|
  {
    if w == "" {
      assert cur + w == cur;
    } else {
      WordRun(w[1..], cur + [w[0]]);
      assert cur + [w[0]] + w[1..] == cur + w;
    }
  }

  /** Words joined by single spaces are the components. */
  lemma {:induction false} WordsCut(ws: seq<string>)
    requires Words(ws)
    ensures Components(Join(ws, " ")) == ws
  {
    hide Word;
    if |ws| == 1 {
      OneWord(ws[0]);
      assert ws == [ws[0]];
    } else if |ws| > 1 {
      OneWord(ws[0]);
      WordsCut(ws[1..]);
      FirstWord(ws[0], Join(ws[1..], " "), ws[1..]);
      assert Join(ws, " ") == ws[0] + (" " + Join(ws[1..], " "));
      assert [ws[0]] + ws[1..] == ws;
    }
  }

  lemma OneWord(w: string)
    requires Word(w)
    ensures Components(w) == [w] && Scan(Blank, w).Collecting?
  {
    WordRun(w, "");
    assert "" + w == w;
  }

  lemma FirstWord(w: string, rest: string, ws: seq<string>)
    requires Word(w) && Words(ws) && ws != [] && rest == Join(ws, " ")
    ensures Components(w + (" " + rest)) == [w] + Components(rest)
  {
    OneWord(w);
    JoinFirst(ws);
    assert SkipSpaces(rest) == rest;
    hide Components, Scan, Join;
    SpaceCut(w, rest);
  }

  lemma JoinFirst(ws: seq<string>)
    requires Words(ws) && ws != []
    ensures Join(ws, " ") != "" && Join(ws, " ")[0] == ws[0][0]
  {
  }
}
