/** What the files of the ruleset copy hold: the server's text with every mark replaced by the
    path of the directory. */
module RulesetFiles {
  import opened Optional
  import opened Text
  import opened Ruleset
  import opened RulesetLaws
  import RuleIds

  // ---------- replacing all marks ----------

  predicate MarkAt(s: string, mark: string, i: int) {
    0 <= i <= |s| - |mark| && s[i..i + |mark|] == mark
  }

  ghost predicate Contains(s: string, mark: string) {
    exists i :: MarkAt(s, mark, i)
  }

  /** No proper beginning of the mark is also an end of it. */
  predicate Borderless(mark: string) {
    mark != "" && forall k :: 0 < k < |mark| ==> mark[..k] != mark[|mark| - k..]
  }

  ghost predicate MarkFree(parts: seq<string>, mark: string) {
    forall i :: 0 <= i < |parts| ==> !Contains(parts[i], mark)
  }

  lemma ContainsTail(s: string, mark: string)
    requires s != "" && !Contains(s, mark)
    ensures !Contains(s[1..], mark)
  {
    if Contains(s[1..], mark) {
      var i :| MarkAt(s[1..], mark, i);
      assert MarkAt(s, mark, i + 1);
    }
  }

  lemma {:induction false} ReplaceNone(s: string, mark: string, text: string)
    requires mark != "" && !Contains(s, mark)
    ensures ReplaceAll(s, mark, text) == s
  {
    if |s| >= |mark| {
      if mark <= s {
        assert MarkAt(s, mark, 0);
        assert false;
      }
      ContainsTail(s, mark);
      ReplaceNone(s[1..], mark, text);
    }
  }

  /** A mark that begins inside a part followed by a mark lies in the part, or overlaps itself. */
  lemma EarlyMark(p: string, mark: string, rest: string)
    requires p != "" && mark <= p + mark + rest
    ensures Contains(p, mark) || !Borderless(mark)
  {
    var s := p + mark + rest;
    assert mark == s[..|mark|];
    if |mark| <= |p| {
      assert s[..|mark|] == p[..|mark|];
      assert MarkAt(p, mark, 0);
    } else {
      var k := |mark| - |p|;
      assert mark[|p|..] == s[|p|..|mark|] == mark[..k];
      assert mark[|mark| - k..] == mark[|p|..];
    }
  }

  lemma {:induction false} ReplaceFirst(p: string, mark: string, rest: string, text: string)
    requires Borderless(mark) && !Contains(p, mark)
    ensures ReplaceAll(p + mark + rest, mark, text) == p + text + ReplaceAll(rest, mark, text)
    decreases |p|
  {
    var s := p + mark + rest;
    if p == "" {
      assert s == mark + rest && s[|mark|..] == rest && mark <= s;
      assert p + text == text;
    } else {
      if mark <= s {
        EarlyMark(p, mark, rest);
        assert false;
      }
      ContainsTail(p, mark);
      assert s[1..] == p[1..] + mark + rest;
      ReplaceFirst(p[1..], mark, rest, text);
      assert [p[0]] + (p[1..] + text + ReplaceAll(rest, mark, text)) == p + text + ReplaceAll(rest, mark, text);
    }
  }

  /** Replacing puts the text in place of every mark, and changes nothing else. */
  lemma {:induction false} ReplaceTheorem(parts: seq<string>, mark: string, text: string)
    requires parts != [] && Borderless(mark) && MarkFree(parts, mark)
    ensures ReplaceAll(Join(parts, mark), mark, text) == Join(parts, text)
  {
    if |parts| == 1 {
      ReplaceNone(parts[0], mark, text);
    } else {
      ReplaceFirst(parts[0], mark, Join(parts[1..], mark), text);
      ReplaceTheorem(parts[1..], mark, text);
    }
  }

  lemma {:induction false} FirstMark(s: string, mark: string) returns (i: nat)
    requires Contains(s, mark) && mark != ""
    ensures MarkAt(s, mark, i) && !Contains(s[..i], mark)
    decreases |s|
  {
    var j :| MarkAt(s, mark, j);
    if Contains(s[..j], mark) {
      i := FirstMark(s[..j], mark);
      assert s[..j][i..i + |mark|] == s[i..i + |mark|] && s[..j][..i] == s[..i];
    } else {
      i := j;
    }
  }

  /** Every text is parts without the mark, joined by the mark. */
  lemma {:induction false} MarkParts(s: string, mark: string) returns (parts: seq<string>)
    requires Borderless(mark)
    ensures parts != [] && MarkFree(parts, mark) && Join(parts, mark) == s
    decreases |s|
  {
    if !Contains(s, mark) {
      parts := [s];
    } else {
      var i := FirstMark(s, mark);
      var rest := MarkParts(s[i + |mark|..], mark);
      parts := [s[..i]] + rest;
      assert parts[1..] == rest;
      assert s == s[..i] + mark + s[i + |mark|..];
    }
  }

  lemma BaseMarkBorderless()
    ensures Borderless(BASE_PATH_MARK)
  {
    var mark := BASE_PATH_MARK;
    assert mark[0] == '<' && mark[1] == '<' && mark[2] == '<' && mark[3] == 'W';
    assert forall i :: 3 <= i < |mark| ==> mark[i] != '<';
    forall k | 0 < k < |mark| ensures mark[..k] != mark[|mark| - k..] {
      var end := mark[|mark| - k..];
      assert end[0] == mark[|mark| - k];
      if |mark| - k == 1 {
        assert end[2] == mark[3] && mark[..k][2] == mark[2];
      } else if |mark| - k == 2 {
        assert end[1] == mark[3] && mark[..k][1] == mark[1];
      }
    }
  }

  // ---------- paths ----------

  lemma DecimalInjective(a: nat, b: nat)
    requires RuleIds.Decimal(a) == RuleIds.Decimal(b)
    ensures a == b
  {
    RuleIds.ValueOfDecimal(a);
    RuleIds.ValueOfDecimal(b);
  }

  /** Directories of different protections or different keys have different paths. */
  lemma PathTextInjective(p: Path, q: Path)
    ensures PathText(p) == PathText(q) <==> p == q
  {
    if PathText(p) == PathText(q) {
      var dp, dq := RuleIds.Decimal(p.protection), RuleIds.Decimal(q.protection);
      assert '/' !in dp && '/' !in dq;
      assert PathText(p)[7..] == dp + ['/'] + p.key && PathText(q)[7..] == dq + ['/'] + q.key;
      IndexOfAt(dp, '/', p.key);
      IndexOfAt(dq, '/', q.key);
      assert (dp + ['/'] + p.key)[..|dp|] == dp && (dq + ['/'] + q.key)[..|dq|] == dq;
      assert (dp + ['/'] + p.key)[|dp| + 1..] == p.key && (dq + ['/'] + q.key)[|dq| + 1..] == q.key;
      DecimalInjective(p.protection, q.protection);
    }
  }

  // ---------- the files of a current directory ----------

  /** No later file has the name of file k. */
  predicate LastNamed(files: seq<RuleFile>, k: int) {
    0 <= k < |files| && forall l :: k < l < |files| ==> files[l].name != files[k].name
  }

  lemma {:induction false} LatestLast(files: seq<RuleFile>, k: nat, p: Path)
    requires LastNamed(files, k)
    ensures Latest(files, files[k].name, p) == Some(TextAt(files, k, p))
  {
    hide ReplaceAll, PathText;
    if k > 0 {
      LatestLast(files[1..], k - 1, p);
    } else if Latest(files[1..], files[0].name, p).Some? {
      var j := LatestOf(files[1..], files[0].name, p);
      assert false;
    }
  }

  /** A written directory holds, for every file of the rule set, its text with each mark replaced
      by the path of the directory, and holds nothing else. */
  lemma WrittenFile(files: seq<RuleFile>, k: nat, p: Path, parts: seq<string>)
    requires LastNamed(files, k) && parts != [] && MarkFree(parts, "<<<WAFIEIO_XPROC_RULES_BASE_PATH>>>")
    requires files[k].content == Join(parts, "<<<WAFIEIO_XPROC_RULES_BASE_PATH>>>")
    ensures files[k].name in Written(map[], files, p)
    ensures Written(map[], files, p)[files[k].name] ==
            Join(parts, "/rules/" + RuleIds.Decimal(p.protection) + "/" + p.key)
  {
    hide Written, Latest;
    BaseMarkBorderless();
    LatestLast(files, k, p);
    WrittenLatest(map[], files, p, files[k].name);
    ReplaceTheorem(parts, BASE_PATH_MARK, PathText(p));
  }

  lemma WrittenNothingElse(files: seq<RuleFile>, p: Path, name: string)
    requires forall k :: 0 <= k < |files| ==> files[k].name != name
    ensures name !in Written(map[], files, p)
  {
    WrittenLatest(map[], files, p, name);
    if Latest(files, name, p).Some? {
      var i := LatestOf(files, name, p);
    }
  }

  /** Where the copy agrees, digests do not collide and the files keep their names, every file of
      the server is in the loaded directory, with each mark in its text replaced by the path of
      that directory. */
  lemma CurrentFile(md5: Digest, w: World, items: seq<Item>, i: nat, k: nat, parts: seq<string>)
    requires DirsOk(md5, w.disk, w.wrote) && AgreesWith(md5, w, items)
    requires i < |items| && Active(items[i]) && FixedWidth(md5)
    requires PathOf(md5, items[i]) in w.wrote
    requires var was, now := w.wrote[PathOf(md5, items[i])], Files(items[i]);
             && CollisionFree(md5, Texts(was) + Texts(now))
             && CollisionFree(md5, {DigestText(md5, was), DigestText(md5, now)})
             && SameNames(was, now)
    requires LastNamed(Files(items[i]), k) && parts != [] && MarkFree(parts, "<<<WAFIEIO_XPROC_RULES_BASE_PATH>>>")
    requires Files(items[i])[k].content == Join(parts, "<<<WAFIEIO_XPROC_RULES_BASE_PATH>>>")
    ensures var p := PathOf(md5, items[i]);
            && w.loaded[p.protection] == p.key
            && Files(items[i])[k].name in w.disk[p]
            && w.disk[p][Files(items[i])[k].name] == Join(parts, "/rules/" + RuleIds.Decimal(p.protection) + "/" + p.key)
  {
    CurrentContent(md5, w, items, i);
    hide DirsOk, Join, Written, CollisionFree, Texts, SameNames, FixedWidth, MarkFree, LastNamed;
    WrittenFile(Files(items[i]), k, PathOf(md5, items[i]), parts);
  }
}
