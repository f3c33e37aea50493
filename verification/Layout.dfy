/** How a rule is laid out over lines does not matter to the parser. */
module Layout {
  import opened Text
  import opened RuleParser
  import SecLang
  import Tokenizer

  /** One source line: a piece of the rule or nothing, with any margins, and with or
      without a continuation mark. */
  datatype Line =
    | Blank(margin: string)
    | BlankContinued(before: string, after: string)
    | Piece(indent: string, piece: string, trail: string)
    | PieceContinued(indent: string, piece: string, gap: string, trail: string)

  predicate Margin(s: string) {
    AllSpace(s) && '\n' !in s
  }

  /** A piece is trimmed, not empty, on one line, and does not itself end in a backslash. */
  predicate PieceOk(p: string) {
    p != "" && Trimmed(p) && '\n' !in p && p[|p| - 1] != '\\'
  }

  predicate LineOk(l: Line) {
    match l
    case Blank(m) => Margin(m)
    case BlankContinued(a, b) => Margin(a) && Margin(b)
    case Piece(a, p, b) => Margin(a) && PieceOk(p) && Margin(b)
    case PieceContinued(a, p, g, b) => Margin(a) && PieceOk(p) && Margin(g) && Margin(b)
  }

  function Render(l: Line): string {
    match l
    case Blank(m) => m
    case BlankContinued(a, b) => a + "\\" + b
    case Piece(a, p, b) => a + p + b
    case PieceContinued(a, p, g, b) => a + (p + g + "\\") + b
  }

  function RenderAll(lines: seq<Line>): (r: seq<string>)
    ensures |r| == |lines| && forall i :: 0 <= i < |lines| ==> r[i] == Render(lines[i])
  {
    if lines == [] then [] else [Render(lines[0])] + RenderAll(lines[1..])
  }

  function PiecesOf(lines: seq<Line>): seq<string> {
    if lines == [] then []
    else (if lines[0].Piece? || lines[0].PieceContinued? then [lines[0].piece] else []) + PiecesOf(lines[1..])
  }

  predicate LinesOk(lines: seq<Line>) {
    forall i :: 0 <= i < |lines| ==> LineOk(lines[i])
  }

  function LayoutText(lines: seq<Line>): string {
    Join(RenderAll(lines), "\n")
  }

  lemma CleanContinued(a: string, p: string, g: string, b: string)
    requires Margin(a) && Margin(g) && Margin(b) && p != "" && Trimmed(p)
    ensures CleanLine(a + (p + g + "\\") + b) == p
  {
    var t := p + g + "\\";
    TrimPadded(a, t, b);
    assert t[..|t| - 1] == "" + p + g;
    TrimPadded("", p, g);
  }

  lemma CleanRendered(l: Line)
    requires LineOk(l)
    ensures CleanLine(Render(l)) == if l.Piece? || l.PieceContinued? then l.piece else ""
    ensures '\n' !in Render(l)
  {
    match l
    case Blank(m) =>
      assert m == m + "" + "";
      TrimPadded(m, "", "");
    case BlankContinued(a, b) =>
      TrimPadded(a, "\\", b);
      TrimFixed("");
    case Piece(a, p, b) =>
      TrimPadded(a, p, b);
    case PieceContinued(a, p, g, b) =>
      CleanContinued(a, p, g, b);
  }

  lemma {:induction false} CleanRenderedAll(lines: seq<Line>)
    requires LinesOk(lines)
    ensures CleanLines(RenderAll(lines)) == PiecesOf(lines)
  {
    if lines != [] {
      CleanRendered(lines[0]);
      CleanRenderedAll(lines[1..]);
      assert RenderAll(lines)[1..] == RenderAll(lines[1..]);
    }
  }

  /** Any layout cleans to its pieces on a single line. */
  lemma CleanLayout(lines: seq<Line>)
    requires LinesOk(lines)
    ensures Clean(LayoutText(lines)) == Join(PiecesOf(lines), " ")
  {
    if lines == [] {
      assert Split("", '\n') == [""];
      TrimFixed("");
      assert CleanLines([""]) == [];
    } else {
      var ts := RenderAll(lines);
      forall i | 0 <= i < |ts| ensures '\n' !in ts[i] {
        CleanRendered(lines[i]);
      }
      SplitInvertsJoin(ts, '\n');
      CleanRenderedAll(lines);
    }
  }

  // ---------- trimming the whole text first changes nothing ----------

  lemma TrimGrowFront(c: char, s: string)
    requires IsSpace(c)
    ensures Trim([c] + s) == Trim(s)
  {
    var a, b := TrimDecomposes(s);
    assert [c] + s == ([c] + a) + Trim(s) + b;
    TrimPadded([c] + a, Trim(s), b);
  }

  lemma TrimGrowBack(s: string, c: char)
    requires IsSpace(c)
    ensures Trim(s + [c]) == Trim(s)
  {
    var a, b := TrimDecomposes(s);
    assert s + [c] == a + Trim(s) + (b + [c]);
    TrimPadded(a, Trim(s), b + [c]);
  }

  lemma SplitFront(c: char, s: string)
    requires c != '\n'
    ensures Split([c] + s, '\n') == [[c] + Split(s, '\n')[0]] + Split(s, '\n')[1..]
  {
    var i := IndexOf(s, '\n');
    assert ([c] + s)[1..] == s;
    assert IndexOf([c] + s, '\n') == i + 1;
    assert ([c] + s)[..i + 1] == [c] + s[..i];
    if i < |s| {
      assert ([c] + s)[i + 2..] == s[i + 1..];
    }
  }

  lemma {:induction false} SplitBack(s: string, c: char)
    requires c != '\n'
    ensures var p := Split(s, '\n'); var n := |p| - 1;
            Split(s + [c], '\n') == p[..n] + [p[n] + [c]]
    decreases |s|
  {
    var i := IndexOf(s, '\n');
    if i == |s| {
      assert '\n' !in s + [c];
    } else {
      var rest := s[i + 1..];
      assert s + [c] == s[..i] + ['\n'] + (rest + [c]);
      SplitFirst(s[..i], '\n', rest + [c]);
      SplitBack(rest, c);
      LastOfCons(s[..i], Split(rest, '\n'), c);
    }
  }

  lemma LastOfCons(x: string, p: seq<string>, c: char)
    requires p != []
    ensures var q := [x] + p;
            [x] + (p[..|p| - 1] + [p[|p| - 1] + [c]]) == q[..|q| - 1] + [q[|q| - 1] + [c]]
  {
    var q := [x] + p;
    assert q[..|q| - 1] == [x] + p[..|p| - 1];
  }

  lemma {:induction false} SplitBackLine(s: string)
    ensures Split(s + ['\n'], '\n') == Split(s, '\n') + [""]
    decreases |s|
  {
    var i := IndexOf(s, '\n');
    if i == |s| {
      assert s + ['\n'] == s + ['\n'] + "";
      SplitFirst(s, '\n', "");
    } else {
      var rest := s[i + 1..];
      assert s + ['\n'] == s[..i] + ['\n'] + (rest + ['\n']);
      SplitFirst(s[..i], '\n', rest + ['\n']);
      SplitBackLine(rest);
    }
  }

  lemma CleanLinesOne(l: string)
    ensures CleanLines([l]) == if CleanLine(l) == "" then [] else [CleanLine(l)]
  {
    assert [l][1..] == [];
  }

  /** Lines that trim to the same text are cleaned alike, wherever they stand. */
  lemma CleanLinesReplace(a: seq<string>, x: string, y: string, b: seq<string>)
    requires Trim(x) == Trim(y)
    ensures CleanLines(a + [x] + b) == CleanLines(a + [y] + b)
  {
    CleanLinesAppend(a + [x], b);
    CleanLinesAppend(a + [y], b);
    CleanLinesAppend(a, [x]);
    CleanLinesAppend(a, [y]);
    CleanLinesOne(x);
    CleanLinesOne(y);
  }

  lemma CleanLinesDrop(a: seq<string>, b: seq<string>)
    ensures CleanLines(a + [""] + b) == CleanLines(a + b)
  {
    CleanLinesAppend(a + [""], b);
    CleanLinesAppend(a, [""]);
    CleanLinesAppend(a, b);
    CleanLinesOne("");
    TrimFixed("");
  }

  lemma CleanGrowFront(c: char, s: string)
    requires IsSpace(c)
    ensures Clean([c] + s) == Clean(s)
  {
    hide CleanLines, Join, Split, Trim;
    var p := Split(s, '\n');
    if c == '\n' {
      assert [c] + s == "" + ['\n'] + s;
      SplitFirst("", '\n', s);
      CleanLinesDrop([], p);
      assert [] + [""] + p == [""] + p && [] + p == p;
    } else {
      SplitFront(c, s);
      TrimGrowFront(c, p[0]);
      CleanLinesReplace([], [c] + p[0], p[0], p[1..]);
      assert [] + [p[0]] + p[1..] == p;
      assert [] + [[c] + p[0]] + p[1..] == [[c] + p[0]] + p[1..];
    }
  }

  lemma CleanGrowBack(s: string, c: char)
    requires IsSpace(c)
    ensures Clean(s + [c]) == Clean(s)
  {
    hide CleanLines, Join, Split, Trim;
    var p := Split(s, '\n');
    var n := |p| - 1;
    if c == '\n' {
      SplitBackLine(s);
      CleanLinesDrop(p, []);
      assert p + [""] + [] == p + [""] && p + [] == p;
    } else {
      SplitBack(s, c);
      TrimGrowBack(p[n], c);
      CleanLinesReplace(p[..n], p[n] + [c], p[n], []);
      assert p[..n] + [p[n]] + [] == p;
      assert p[..n] + [p[n] + [c]] + [] == p[..n] + [p[n] + [c]];
    }
  }

  lemma {:induction false} CleanPadded(a: string, s: string, b: string)
    requires AllSpace(a) && AllSpace(b)
    ensures Clean(a + s + b) == Clean(s)
    decreases |a| + |b|
  {
    if a != "" {
      assert a + s + b == [a[0]] + (a[1..] + s + b);
      CleanGrowFront(a[0], a[1..] + s + b);
      CleanPadded(a[1..], s, b);
    } else if b != "" {
      assert a + s + b == (a + s + b[..|b| - 1]) + [b[|b| - 1]];
      CleanGrowBack(a + s + b[..|b| - 1], b[|b| - 1]);
      CleanPadded(a, s, b[..|b| - 1]);
    } else {
      assert a + s + b == s;
    }
  }

  function ParseClean(text: string): Parsed<SecLang.SecRule> {
    RuleOf(Tokenizer.Components(WithoutKeyword(text)))
  }

  /** The parser's answer is a function of the cleaned text alone. */
  lemma ParseIsClean(ruleText: string)
    ensures Parse(ruleText) == ParseClean(Clean(ruleText))
  {
    var a, b := TrimDecomposes(ruleText);
    CleanPadded(a, Trim(ruleText), b);
    if ruleText == "" {
      CleanLayout([]);
      assert Tokenizer.Components("") == [];
    }
  }

  /** Layout independence: two layouts of the same pieces parse alike. */
  lemma LayoutIndependence(l1: seq<Line>, l2: seq<Line>)
    requires LinesOk(l1) && LinesOk(l2)
    requires PiecesOf(l1) == PiecesOf(l2)
    ensures Parse(LayoutText(l1)) == Parse(LayoutText(l2))
  {
    ParseIsClean(LayoutText(l1));
    ParseIsClean(LayoutText(l2));
    CleanLayout(l1);
    CleanLayout(l2);
  }
}
