/** The string operations of the Go standard library that the SecLang code is
    written with, over sequences of Unicode code points. */
module Text {

  /** unicode.IsSpace: the characters strings.TrimSpace removes. */
  predicate IsSpace(c: char) {
    || c == ' ' || '\t' <= c <= '\r'
    || c == '\U{0085}' || c == '\U{00A0}' || c == '\U{1680}'
    || '\U{2000}' <= c <= '\U{200A}'
    || c == '\U{2028}' || c == '\U{2029}' || c == '\U{202F}'
    || c == '\U{205F}' || c == '\U{3000}'
  }

  /** A code point that UTF-8 encodes in one byte. */
  predicate OneByte(c: char) {
    c <= '\U{007F}'
  }

  predicate AllSpace(s: string) {
    forall i :: 0 <= i < |s| ==> IsSpace(s[i])
  }

  predicate HasPrefix(s: string, p: string) {
    p <= s
  }

  predicate StartsWith(s: string, c: char) {
    s != "" && s[0] == c
  }

  predicate EndsWith(s: string, c: char) {
    s != "" && s[|s| - 1] == c
  }

  // ---------- trimming ----------

  function TrimLeft(s: string): string {
    if s != "" && IsSpace(s[0]) then TrimLeft(s[1..]) else s
  }

  function TrimRight(s: string): string {
    if s != "" && IsSpace(s[|s| - 1]) then TrimRight(s[..|s| - 1]) else s
  }

  /** strings.TrimSpace */
  function Trim(s: string): string {
    TrimRight(TrimLeft(s))
  }

  /** No white space at either end. */
  predicate Trimmed(s: string) {
    s == "" || (!IsSpace(s[0]) && !IsSpace(s[|s| - 1]))
  }

  lemma TrimLeftBlank(a: string, s: string)
    requires AllSpace(a)
    ensures TrimLeft(a + s) == TrimLeft(s)
  {
    if a == "" {
      assert a + s == s;
    } else {
      assert (a + s)[1..] == a[1..] + s;
      TrimLeftBlank(a[1..], s);
    }
  }

  lemma TrimRightBlank(s: string, b: string)
    requires AllSpace(b)
    ensures TrimRight(s + b) == TrimRight(s)
  {
    if b == "" {
      assert s + b == s;
    } else {
      assert (s + b)[..|s + b| - 1] == s + b[..|b| - 1];
      TrimRightBlank(s, b[..|b| - 1]);
    }
  }

  /** Trimming removes exactly the padding around a trimmed text. */
  lemma TrimPadded(a: string, s: string, b: string)
    requires AllSpace(a) && AllSpace(b) && Trimmed(s)
    ensures Trim(a + s + b) == s
  {
    assert a + s + b == a + (s + b);
    TrimLeftBlank(a, s + b);
    if s == "" {
      assert s + b == b && b == b + "";
      TrimLeftBlank(b, "");
    } else {
      TrimRightBlank(s, b);
    }
  }

  lemma {:induction false} TrimLeftSuffix(s: string)
    ensures |TrimLeft(s)| <= |s| && TrimLeft(s) == s[|s| - |TrimLeft(s)|..]
    ensures AllSpace(s[..|s| - |TrimLeft(s)|])
    ensures TrimLeft(s) == "" || !IsSpace(TrimLeft(s)[0])
  {
    hide IsSpace;
    if s != "" && IsSpace(s[0]) {
      TrimLeftSuffix(s[1..]);
      var n := |s[1..]| - |TrimLeft(s[1..])|;
      assert s[1..][n..] == s[n + 1..];
      assert s[..n + 1] == [s[0]] + s[1..][..n];
    } else {
      assert s[..0] == "" && s[0..] == s;
    }
  }

  lemma {:induction false} TrimRightPrefix(s: string)
    ensures TrimRight(s) <= s
    ensures AllSpace(s[|TrimRight(s)|..])
    ensures TrimRight(s) == "" || !IsSpace(TrimRight(s)[|TrimRight(s)| - 1])
  {
    hide IsSpace;
    if s != "" && IsSpace(s[|s| - 1]) {
      var t := s[..|s| - 1];
      TrimRightPrefix(t);
      var n := |TrimRight(t)|;
      assert s[n..] == t[n..] + [s[|s| - 1]];
    } else {
      assert s[|s|..] == "";
    }
  }

  /** A text is its trimmed core between two blank margins. */
  lemma TrimDecomposes(s: string) returns (a: string, b: string)
    ensures AllSpace(a) && AllSpace(b) && Trimmed(Trim(s))
    ensures s == a + Trim(s) + b
  {
    TrimLeftSuffix(s);
    TrimRightPrefix(TrimLeft(s));
    a := s[..|s| - |TrimLeft(s)|];
    b := TrimLeft(s)[|Trim(s)|..];
  }

  lemma TrimFixed(s: string)
    ensures Trim(s) == s <==> Trimmed(s)
  {
    var a, b := TrimDecomposes(s);
    if Trimmed(s) {
      TrimPadded("", s, "");
      assert "" + s + "" == s;
    }
  }

  // ---------- searching ----------

  /** Index of the first occurrence of c, or |s| when there is none. */
  function IndexOf(s: string, c: char): (i: nat)
    ensures i <= |s|
    ensures i < |s| ==> s[i] == c
    ensures c !in s[..i]
    ensures i == |s| <==> c !in s
  {
    if s == "" || s[0] == c then 0
    else
      var j := IndexOf(s[1..], c);
      assert s[..j + 1] == [s[0]] + s[1..][..j];
      assert s == [s[0]] + s[1..];
      j + 1
  }

  lemma IndexOfAt(p: string, c: char, q: string)
    requires c !in p
    ensures IndexOf(p + [c] + q, c) == |p|
  {
    var s := p + [c] + q;
    assert s[|p|] == c;
  }

  // ---------- splitting and joining ----------

  /** strings.Split with a one-character separator. */
  function Split(s: string, c: char): (parts: seq<string>)
    ensures parts != []
    decreases |s|
  {
    var i := IndexOf(s, c);
    if i == |s| then [s] else [s[..i]] + Split(s[i + 1..], c)
  }

  /** strings.Join */
  function Join(parts: seq<string>, sep: string): string {
    if parts == [] then ""
    else if |parts| == 1 then parts[0]
    else parts[0] + sep + Join(parts[1..], sep)
  }

  lemma SplitFirst(p: string, c: char, q: string)
    requires c !in p
    ensures Split(p + [c] + q, c) == [p] + Split(q, c)
  {
    var s := p + [c] + q;
    IndexOfAt(p, c, q);
    assert s[..|p|] == p && s[|p| + 1..] == q;
  }

  lemma {:induction false} SplitInvertsJoin(parts: seq<string>, c: char)
    requires parts != []
    requires forall p :: p in parts ==> c !in p
    ensures Split(Join(parts, [c]), c) == parts
  {
    hide Split;
    if |parts| == 1 {
      SplitNone(parts[0], c);
      assert parts == [parts[0]];
    } else {
      SplitInvertsJoin(parts[1..], c);
      SplitFirst(parts[0], c, Join(parts[1..], [c]));
      assert parts == [parts[0]] + parts[1..];
    }
  }

  lemma SplitAt(s: string, c: char)
    requires c in s
    ensures var i := IndexOf(s, c);
            && s == s[..i] + [c] + s[i + 1..] && c !in s[..i]
            && Split(s, c) == [s[..i]] + Split(s[i + 1..], c)
  {
  }

  lemma SplitNone(s: string, c: char)
    requires c !in s
    ensures Split(s, c) == [s]
  {
  }

  /** A text appended after a separator is one more part. */
  lemma {:induction false} SplitAppend(s: string, c: char, p: string)
    requires c !in p
    ensures Split(s + [c] + p, c) == Split(s, c) + [p]
    decreases |s|
  {
    hide Split;
    if c !in s {
      SplitNone(s, c);
      SplitNone(p, c);
      SplitFirst(s, c, p);
    } else {
      SplitAt(s, c);
      var first, rest := s[..IndexOf(s, c)], s[IndexOf(s, c) + 1..];
      hide IndexOf;
      SplitAppend(rest, c, p);
      SplitFirst(first, c, rest + [c] + p);
      assert first + [c] + rest + [c] + p == first + [c] + (rest + [c] + p);
    }
  }

  /** A character of a join comes from a part or from the separator. */
  lemma {:induction false} JoinChars(parts: seq<string>, sep: string, c: char)
    requires forall p :: p in parts ==> c !in p
    requires c !in sep
    ensures c !in Join(parts, sep)
  {
    if |parts| > 1 {
      JoinChars(parts[1..], sep, c);
    }
  }

  // ---------- counting ----------

  function Count(s: string, c: char): nat {
    if s == "" then 0 else (if s[0] == c then 1 else 0) + Count(s[1..], c)
  }

  function CountAll(parts: seq<string>, c: char): nat {
    if parts == [] then 0 else Count(parts[0], c) + CountAll(parts[1..], c)
  }

  lemma {:induction false} CountConcat(a: string, b: string, c: char)
    ensures Count(a + b, c) == Count(a, c) + Count(b, c)
  {
    if a == "" {
      assert a + b == b;
    } else {
      assert (a + b)[1..] == a[1..] + b;
      CountConcat(a[1..], b, c);
    }
  }

  lemma CountZero(s: string, c: char)
    ensures Count(s, c) == 0 <==> c !in s
  {
    if s != "" {
      assert s == [s[0]] + s[1..];
      CountZero(s[1..], c);
    }
  }

  lemma CountOnly(s: string, c: char)
    requires forall i :: 0 <= i < |s| ==> s[i] != c
    ensures Count(s, c) == 0
  {
    CountZero(s, c);
  }

  lemma CountTrim(s: string, c: char)
    ensures Count(Trim(s), c) <= Count(s, c)
    ensures !IsSpace(c) ==> Count(Trim(s), c) == Count(s, c)
  {
    var a, b := TrimDecomposes(s);
    CountConcat(a + Trim(s), b, c);
    CountConcat(a, Trim(s), c);
    if !IsSpace(c) {
      CountOnly(a, c);
      CountOnly(b, c);
    }
  }

  /** All parts run together. */
  function Concat(parts: seq<string>): string {
    if parts == [] then "" else parts[0] + Concat(parts[1..])
  }
}
