/** Rule ids in a rule file: the scan for id:<number>, and the next free number. */
module RuleIds {
  import opened Text

  predicate IsDigit(c: char) {
    '0' <= c <= '9'
  }

  /** \s of a regular expression. */
  predicate IsRegexSpace(c: char) {
    c == ' ' || c == '\t' || c == '\n' || c == '\U{000C}' || c == '\r'
  }

  predicate Digits(s: string) {
    s != "" && forall i :: 0 <= i < |s| ==> IsDigit(s[i])
  }

  // ---------- decimal numbers ----------

  function DigitChar(n: nat): (c: char)
    requires n < 10
    ensures IsDigit(c)
  {
    '0' + n as char
  }

  function Value(s: string): nat {
    if s == "" || !IsDigit(s[|s| - 1]) then 0
    else 10 * Value(s[..|s| - 1]) + (s[|s| - 1] - '0') as nat
  }

  /** strconv.FormatUint(n, 10) */
  function Decimal(n: nat): (s: string)
    ensures Digits(s)
  {
    if n < 10 then [DigitChar(n)] else Decimal(n / 10) + [DigitChar(n % 10)]
  }

  lemma {:induction false} ValueOfDecimal(n: nat)
    ensures Value(Decimal(n)) == n
  {
    if n >= 10 {
      ValueOfDecimal(n / 10);
      assert Decimal(n)[..|Decimal(n)| - 1] == Decimal(n / 10);
    }
  }

  // ---------- the regular expression id:\s*(\d+) ----------

  function SkipBlank(s: string): string {
    if s != "" && IsRegexSpace(s[0]) then SkipBlank(s[1..]) else s
  }

  function DigitRun(s: string): (n: nat)
    ensures n <= |s|
    ensures n < |s| ==> !IsDigit(s[n])
    ensures forall i :: 0 <= i < n ==> IsDigit(s[i])
  {
    if s == "" || !IsDigit(s[0]) then 0 else 1 + DigitRun(s[1..])
  }

  datatype Match = NoMatch | Match(digits: string, rest: string)

  lemma SkipBlankShrinks(s: string)
    ensures |SkipBlank(s)| <= |s|
  {
  }

  /** A match at the front of s. */
  function MatchAt(s: string): (m: Match)
    ensures m.Match? ==> |m.rest| < |s|
  {
    if !HasPrefix(s, "id:") then NoMatch
    else
      SkipBlankShrinks(s[3..]);
      var t := SkipBlank(s[3..]);
      var n := DigitRun(t);
      if n == 0 then NoMatch else Match(t[..n], t[n..])
  }

  /** FindAllStringSubmatch: the digits of every match, leftmost first, without overlap. */
  function FindAll(s: string): seq<string>
    decreases |s|
  {
    if s == "" then []
    else
      match MatchAt(s)
      case NoMatch => FindAll(s[1..])
      case Match(digits, rest) => [digits] + FindAll(rest)
  }

  // ---------- the next id ----------

  const MAX_INT := 0x7FFF_FFFF_FFFF_FFFF

  /** TooLarge is strconv.Atoi failing on a number that does not fit in an int. */
  datatype NextId = Id(value: nat) | TooLarge

  /** The largest number among ds and maxId, plus one. The source increments an int and
      converts it to uint64, so the increment of the largest int comes out right too. */
  function NextFrom(ds: seq<string>, maxId: nat): NextId {
    if ds == [] then Id(maxId + 1)
    else if Value(ds[0]) > MAX_INT then TooLarge
    else NextFrom(ds[1..], if Value(ds[0]) > maxId then Value(ds[0]) else maxId)
  }

  function Next(content: string): NextId {
    NextFrom(FindAll(content), 0)
  }

  /** The largest number found in the file plus one, or 1 when there is none. */
  method NextRuleId(content: string) returns (res: NextId)
    ensures res == Next(content)
    ensures res.TooLarge? <==> exists d :: d in FindAll(content) && Value(d) > MAX_INT
    ensures res.Id? && FindAll(content) == [] ==> res.value == 1
    ensures res.Id? ==> forall d :: d in FindAll(content) ==> Value(d) + 1 <= res.value
    ensures res.Id? && FindAll(content) != [] ==> exists d :: d in FindAll(content) && Value(d) + 1 == res.value
  {
    NextTheorem(content);
    var matches := FindAll(content);
    var maxId := 0;
    assert matches[0..] == matches;
    for i := 0 to |matches|
      invariant Next(content) == NextFrom(matches[i..], maxId)
    {
      assert matches[i..][1..] == matches[i + 1..];
      var id := Value(matches[i]);
      if id > MAX_INT {
        return TooLarge;
      }
      if id > maxId {
        maxId := id;
      }
    }
    return Id(maxId + 1);
  }

  lemma {:induction false} NextExceeds(ds: seq<string>, maxId: nat)
    ensures NextFrom(ds, maxId).TooLarge? <==> exists d :: d in ds && Value(d) > MAX_INT
    ensures NextFrom(ds, maxId).Id? ==>
              var next := NextFrom(ds, maxId).value;
              && maxId < next && (forall d :: d in ds ==> Value(d) < next)
              && (next == maxId + 1 || exists d :: d in ds && Value(d) + 1 == next)
  {
    if ds != [] {
      assert ds[0] in ds;
      assert forall d :: d in ds <==> d == ds[0] || d in ds[1..];
      if Value(ds[0]) <= MAX_INT {
        NextExceeds(ds[1..], if Value(ds[0]) > maxId then Value(ds[0]) else maxId);
      }
    }
  }

  /** The next id is 1 in a file without ids, and otherwise the largest number found plus one;
      it is refused exactly if some number found does not fit. */
  lemma NextTheorem(content: string)
    ensures Next(content).TooLarge? <==> exists d :: d in FindAll(content) && Value(d) > MAX_INT
    ensures Next(content).Id? && FindAll(content) == [] ==> Next(content).value == 1
    ensures Next(content).Id? ==> forall d :: d in FindAll(content) ==> Value(d) + 1 <= Next(content).value
    ensures Next(content).Id? && FindAll(content) != [] ==>
              exists d :: d in FindAll(content) && Value(d) + 1 == Next(content).value
  {
    hide FindAll, Value;
    var ds := FindAll(content);
    NextExceeds(ds, 0);
    if Next(content) == Id(1) && ds != [] {
      assert ds[0] in ds;
    }
  }

  // ---------- where the scan finds an id ----------

  lemma {:induction false} SkipBlankInside(p: string, q: string)
    requires q == "" || !IsRegexSpace(q[0])
    ensures SkipBlank(p + q) == SkipBlank(p) + q
  {
    if p == "" {
      assert p + q == q;
    } else if IsRegexSpace(p[0]) {
      assert (p + q)[1..] == p[1..] + q;
      SkipBlankInside(p[1..], q);
    }
  }

  lemma DigitRunInside(p: string, q: string)
    requires q == "" || !IsDigit(q[0])
    ensures DigitRun(p + q) == DigitRun(p)
  {
    var n, k := DigitRun(p), DigitRun(p + q);
    assert n < |p| ==> (p + q)[n] == p[n];
    assert n == |p| && q != "" ==> (p + q)[n] == q[0];
    assert forall i :: 0 <= i < n ==> (p + q)[i] == p[i];
  }

  /** A match that starts before "id:" ends before it. */
  lemma MatchStaysInside(pre: string, rest: string) returns (left: string)
    requires pre != "" && HasPrefix(rest, "id:") && MatchAt(pre + rest).Match?
    ensures |left| < |pre| && MatchAt(pre + rest).rest == left + rest
  {
    var s := pre + rest;
    assert s[0] == 'i' && s[1] == 'd' && s[2] == ':' && rest[0] == 'i';
    assert |pre| >= 3;
    assert s[3..] == pre[3..] + rest;
    SkipBlankInside(pre[3..], rest);
    SkipBlankShrinks(pre[3..]);
    var t := SkipBlank(pre[3..]);
    DigitRunInside(t, rest);
    var n := DigitRun(t);
    left := t[n..];
    assert (t + rest)[n..] == left + rest;
  }

  predicate Blank(s: string) {
    forall i :: 0 <= i < |s| ==> IsRegexSpace(s[i])
  }

  /** id:<blank><d> with no further digit after it. */
  predicate Whole(blank: string, d: string, post: string) {
    Blank(blank) && Digits(d) && (post == "" || !IsDigit(post[0]))
  }

  lemma {:induction false} SkipsBlank(blank: string, t: string)
    requires Blank(blank) && (t == "" || !IsRegexSpace(t[0]))
    ensures SkipBlank(blank + t) == t
  {
    if blank == "" {
      assert blank + t == t;
    } else {
      assert (blank + t)[1..] == blank[1..] + t;
      SkipsBlank(blank[1..], t);
    }
  }

  lemma MatchHere(blank: string, d: string, post: string)
    requires Whole(blank, d, post)
    ensures MatchAt("id:" + (blank + (d + post))) == Match(d, post)
  {
    var t := d + post;
    var s := "id:" + (blank + t);
    assert s[0] == 'i' && s[1] == 'd' && s[2] == ':';
    assert s[..3] == "id:";
    assert s[3..] == blank + t;
    assert t[0] == d[0];
    SkipsBlank(blank, t);
    DigitRunInside(d, post);
    assert DigitRun(d) == |d|;
    assert t[..|d|] == d && t[|d|..] == post;
  }

  /** Wherever id:<blank><d> stands, the scan finds d. */
  lemma {:induction false} FindsEmbedded(pre: string, blank: string, d: string, post: string)
    requires Whole(blank, d, post)
    ensures d in FindAll(pre + ("id:" + (blank + (d + post))))
    decreases |pre|
  {
    hide Whole;
    var rest := "id:" + (blank + (d + post));
    var s := pre + rest;
    if pre == "" {
      assert s == rest;
      MatchHere(blank, d, post);
    } else if MatchAt(s).Match? {
      assert rest[..3] == "id:";
      var left := MatchStaysInside(pre, rest);
      FindsEmbedded(left, blank, d, post);
    } else {
      assert s[1..] == pre[1..] + rest;
      FindsEmbedded(pre[1..], blank, d, post);
    }
  }

  lemma {:induction false} BlankSkipped(s: string) returns (blank: string)
    ensures s == blank + SkipBlank(s) && Blank(blank)
  {
    blank := "";
    if s != "" && IsRegexSpace(s[0]) {
      var more := BlankSkipped(s[1..]);
      blank := [s[0]] + more;
    }
  }

  lemma MatchShown(s: string) returns (blank: string)
    requires MatchAt(s).Match?
    ensures Whole(blank, MatchAt(s).digits, MatchAt(s).rest)
    ensures s == "id:" + (blank + (MatchAt(s).digits + MatchAt(s).rest))
  {
    blank := BlankSkipped(s[3..]);
    var t := SkipBlank(s[3..]);
    var n := DigitRun(t);
    assert t == t[..n] + t[n..];
    assert s == "id:" + s[3..] by { assert s == s[..3] + s[3..]; }
  }

  function IdText(blank: string, d: string, post: string): string {
    "id:" + (blank + (d + post))
  }

  lemma Prepend(head: string, pre: string, x: string)
    ensures head + (pre + x) == (head + pre) + x
  {
  }

  lemma MatchText(s: string) returns (b: string, head: string)
    requires MatchAt(s).Match?
    ensures s == IdText(b, MatchAt(s).digits, MatchAt(s).rest) && Whole(b, MatchAt(s).digits, MatchAt(s).rest)
    ensures s == head + MatchAt(s).rest
  {
    b := MatchShown(s);
    hide MatchAt, Whole;
    head := "id:" + (b + MatchAt(s).digits);
  }

  lemma {:induction false} FoundShown(s: string, d: string) returns (pre: string, blank: string, post: string)
    requires d in FindAll(s)
    ensures s == pre + IdText(blank, d, post) && Whole(blank, d, post)
    decreases |s|
  {
    assert s != "";
    FindAllStep(s);
    hide Whole, IdText, MatchAt, FindAll;
    if MatchAt(s).NoMatch? {
      pre, blank, post := FoundShown(s[1..], d);
      assert s == [s[0]] + s[1..];
      Prepend([s[0]], pre, IdText(blank, d, post));
      pre := [s[0]] + pre;
    } else {
      var m := MatchAt(s);
      var b, head := MatchText(s);
      if d == m.digits {
        pre, blank, post := "", b, m.rest;
        assert "" + IdText(b, d, m.rest) == IdText(b, d, m.rest);
      } else {
        pre, blank, post := FoundShown(m.rest, d);
        Prepend(head, pre, IdText(blank, d, post));
        pre := head + pre;
      }
    }
  }

  ghost predicate Shown(s: string, pre: string, blank: string, d: string, post: string) {
    s == pre + IdText(blank, d, post) && Whole(blank, d, post)
  }

  /** The scan finds exactly the numbers that stand in the text after id: and white space. */
  lemma FoundIff(s: string, d: string)
    ensures d in FindAll(s) <==> exists pre, blank, post :: Shown(s, pre, blank, d, post)
  {
    if d in FindAll(s) {
      var pre, blank, post := FoundShown(s, d);
      assert Shown(s, pre, blank, d, post);
    }
    if pre, blank, post :| Shown(s, pre, blank, d, post) {
      FindsEmbedded(pre, blank, d, post);
    }
  }

  /** A text that cannot complete a match begun before it. */
  predicate Separate(x: string) {
    x != "" && x[0] != 'd' && x[0] != ':' && !IsDigit(x[0])
    && (SkipBlank(x) == "" || !IsDigit(SkipBlank(x)[0]))
  }

  lemma PrefixInside(f: string, x: string)
    requires f != "" && Separate(x)
    ensures HasPrefix(f + x, "id:") <==> HasPrefix(f, "id:")
  {
    var s := f + x;
    if |f| >= 3 {
      assert s[..3] == f[..3];
    } else {
      assert s[|f|] == x[0];
    }
  }

  lemma {:induction false} SkipBlankAll(p: string, x: string)
    requires SkipBlank(p) == ""
    ensures SkipBlank(p + x) == SkipBlank(x)
  {
    if p == "" {
      assert p + x == x;
    } else {
      assert (p + x)[1..] == p[1..] + x;
      SkipBlankAll(p[1..], x);
    }
  }

  lemma {:induction false} SkipBlankStops(p: string, x: string)
    requires SkipBlank(p) != ""
    ensures SkipBlank(p + x) == SkipBlank(p) + x
  {
    if p != "" && IsRegexSpace(p[0]) {
      assert (p + x)[1..] == p[1..] + x;
      SkipBlankStops(p[1..], x);
    }
  }

  lemma MatchAppend(f: string, x: string)
    requires f != "" && Separate(x)
    ensures MatchAt(f + x) == match MatchAt(f)
                              case NoMatch => NoMatch
                              case Match(d, rest) => Match(d, rest + x)
  {
    PrefixInside(f, x);
    if HasPrefix(f, "id:") {
      var p := f[3..];
      assert (f + x)[3..] == p + x;
      var t := SkipBlank(p);
      if t == "" {
        SkipBlankAll(p, x);
      } else {
        SkipBlankStops(p, x);
        DigitRunInside(t, x);
        var n := DigitRun(t);
        assert (t + x)[..n] == t[..n] && (t + x)[n..] == t[n..] + x;
      }
    }
  }

  lemma FindAllStep(s: string)
    requires s != ""
    ensures MatchAt(s).NoMatch? ==> FindAll(s) == FindAll(s[1..])
    ensures MatchAt(s).Match? ==> FindAll(s) == [MatchAt(s).digits] + FindAll(MatchAt(s).rest)
  {
  }

  /** The scan of a file with a separate text appended is the two scans one after the other. */
  lemma {:induction false} FindAllAppend(f: string, x: string)
    requires Separate(x)
    ensures FindAll(f + x) == FindAll(f) + FindAll(x)
    decreases |f|
  {
    hide Separate, MatchAt;
    if f == "" {
      assert f + x == x;
    } else {
      MatchAppend(f, x);
      var m := MatchAt(f);
      FindAllStep(f + x);
      FindAllStep(f);
      if m.NoMatch? {
        assert (f + x)[1..] == f[1..] + x;
        FindAllAppend(f[1..], x);
      } else {
        FindAllAppend(m.rest, x);
      }
    }
  }
}
