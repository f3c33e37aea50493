/** Removing listed entries from a slice, the way the desired-state merges do it: first
    record the positions of all matches, then splice the positions out one after the other
    without adjusting them. */
module Removal {
  import opened Optional

  function Times(rem: seq<string>, k: string): nat {
    if rem == [] then 0 else (if rem[0] == k then 1 else 0) + Times(rem[1..], k)
  }

  function Repeat(i: nat, n: nat): seq<nat> {
    if n == 0 then [] else [i] + Repeat(i, n - 1)
  }

  /** The recorded positions: position base + i once for every entry of rem equal to keys[i]. */
  function Recorded(keys: seq<string>, rem: seq<string>, base: nat): seq<nat> {
    if keys == [] then []
    else Repeat(base, Times(rem, keys[0])) + Recorded(keys[1..], rem, base + 1)
  }

  /** Splice the positions out in turn. None is the panic of a position out of range. */
  function Splice<T>(xs: seq<T>, at: seq<nat>): Option<seq<T>>
    decreases |at|
  {
    if at == [] then Some(xs)
    else if at[0] >= |xs| then None
    else Splice(xs[..at[0]] + xs[at[0] + 1..], at[1..])
  }

  /** What removal is meant to give: the entries whose key is not listed. */
  function Kept<T>(xs: seq<T>, keys: seq<string>, rem: seq<string>): seq<T>
    requires |xs| == |keys|
  {
    if xs == [] then []
    else (if keys[0] in rem then [] else [xs[0]]) + Kept(xs[1..], keys[1..], rem)
  }

  // ---------- the loops ----------

  lemma {:induction false} TimesAppend(a: seq<string>, x: string, k: string)
    ensures Times(a + [x], k) == Times(a, k) + if x == k then 1 else 0
  {
    if a != [] {
      assert (a + [x])[1..] == a[1..] + [x];
      TimesAppend(a[1..], x, k);
    } else {
      assert a + [x] == [x];
    }
  }

  lemma {:induction false} RepeatAppend(i: nat, n: nat)
    ensures Repeat(i, n) + [i] == Repeat(i, n + 1)
  {
    if n > 0 {
      RepeatAppend(i, n - 1);
    }
  }

  lemma {:induction false} RecordedAppend(keys: seq<string>, k: string, rem: seq<string>, base: nat)
    ensures Recorded(keys + [k], rem, base) ==
            Recorded(keys, rem, base) + Repeat(base + |keys|, Times(rem, k))
  {
    if keys == [] {
      assert keys + [k] == [k] && [k][1..] == [];
    } else {
      assert (keys + [k])[1..] == keys[1..] + [k];
      RecordedAppend(keys[1..], k, rem, base + 1);
    }
  }

  method RecordMatches(keys: seq<string>, rem: seq<string>) returns (removeAt: seq<nat>)
    ensures removeAt == Recorded(keys, rem, 0)
  {
    removeAt := [];
    for idx := 0 to |keys|
      invariant removeAt == Recorded(keys[..idx], rem, 0)
    {
      ghost var before := removeAt;
      for j := 0 to |rem|
        invariant removeAt == before + Repeat(idx, Times(rem[..j], keys[idx]))
      {
        assert rem[..j + 1] == rem[..j] + [rem[j]];
        TimesAppend(rem[..j], rem[j], keys[idx]);
        if keys[idx] == rem[j] {
          RepeatAppend(idx, Times(rem[..j], keys[idx]));
          removeAt := removeAt + [idx];
        }
      }
      assert rem[..|rem|] == rem;
      assert keys[..idx + 1] == keys[..idx] + [keys[idx]];
      RecordedAppend(keys[..idx], keys[idx], rem, 0);
    }
    assert keys[..|keys|] == keys;
  }

  method SpliceOut<T>(xs: seq<T>, removeAt: seq<nat>) returns (res: Option<seq<T>>)
    ensures res == Splice(xs, removeAt)
  {
    var current := xs;
    assert removeAt[0..] == removeAt;
    for i := 0 to |removeAt|
      invariant Splice(xs, removeAt) == Splice(current, removeAt[i..])
    {
      var removeIdx := removeAt[i];
      assert removeAt[i..][1..] == removeAt[i + 1..];
      if removeIdx >= |current| {
        return None;
      }
      current := current[..removeIdx] + current[removeIdx + 1..];
    }
    return Some(current);
  }

  // ---------- when splicing removes what it should ----------

  lemma {:induction false} TimesIn(rem: seq<string>, k: string)
    ensures k in rem <==> Times(rem, k) > 0
  {
    if rem != [] {
      TimesIn(rem[1..], k);
    }
  }

  /** Recorded positions are those of listed keys, in ascending order. */
  lemma {:induction false} RecordedRange(keys: seq<string>, rem: seq<string>, base: nat)
    ensures forall j :: 0 <= j < |Recorded(keys, rem, base)| ==>
              var p := Recorded(keys, rem, base)[j]; base <= p < base + |keys| && keys[p - base] in rem
    ensures forall i, j :: 0 <= i < j < |Recorded(keys, rem, base)| ==>
              Recorded(keys, rem, base)[i] <= Recorded(keys, rem, base)[j]
  {
    if keys != [] {
      RecordedRange(keys[1..], rem, base + 1);
      TimesIn(rem, keys[0]);
      RepeatAll(base, Times(rem, keys[0]));
      var head, tail := Repeat(base, Times(rem, keys[0])), Recorded(keys[1..], rem, base + 1);
      forall j | 0 <= j < |tail|
        ensures base + 1 <= tail[j] < base + |keys| && keys[tail[j] - base] in rem
      {
        assert keys[1..][tail[j] - (base + 1)] == keys[tail[j] - base];
      }
    }
  }

  lemma {:induction false} RepeatAll(i: nat, n: nat)
    ensures |Repeat(i, n)| == n && forall j :: 0 <= j < n ==> Repeat(i, n)[j] == i
  {
    if n > 0 {
      RepeatAll(i, n - 1);
    }
  }

  /** At least one position is recorded per removed entry, and more when the removal list
      names the first of them twice. */
  lemma {:induction false} RecordedEnough<T>(xs: seq<T>, keys: seq<string>, rem: seq<string>, base: nat)
    requires |xs| == |keys|
    ensures |Kept(xs, keys, rem)| + |Recorded(keys, rem, base)| >= |xs|
    ensures var at := Recorded(keys, rem, base);
            |at| >= 2 && at[0] == at[1] ==> |Kept(xs, keys, rem)| + |at| > |xs|
  {
    if xs != [] {
      RecordedEnough(xs[1..], keys[1..], rem, base + 1);
      RecordedRange(keys[1..], rem, base + 1);
      TimesIn(rem, keys[0]);
      RepeatAll(base, Times(rem, keys[0]));
    }
  }

  lemma {:induction false} KeptClean<T>(xs: seq<T>, keys: seq<string>, rem: seq<string>, i: nat) returns (j: nat)
    requires |xs| == |keys| && i < |Kept(xs, keys, rem)|
    ensures j < |xs| && Kept(xs, keys, rem)[i] == xs[j] && keys[j] !in rem
  {
    if keys[0] in rem {
      j := KeptClean(xs[1..], keys[1..], rem, i);
      j := j + 1;
    } else if i == 0 {
      j := 0;
    } else {
      j := KeptClean(xs[1..], keys[1..], rem, i - 1);
      j := j + 1;
    }
  }

  lemma {:induction false} KeptAll<T>(xs: seq<T>, keys: seq<string>, rem: seq<string>)
    requires |xs| == |keys| && forall i :: 0 <= i < |keys| ==> keys[i] !in rem
    ensures Kept(xs, keys, rem) == xs
  {
    if xs != [] {
      KeptAll(xs[1..], keys[1..], rem);
    }
  }

  lemma {:induction false} SpliceLength<T>(xs: seq<T>, at: seq<nat>)
    requires Splice(xs, at).Some?
    ensures |Splice(xs, at).value| + |at| == |xs|
    decreases |at|
  {
    if at != [] {
      SpliceLength(xs[..at[0]] + xs[at[0] + 1..], at[1..]);
    }
  }

  /** The splice panics exactly if some position lies beyond what is left by then. */
  lemma {:induction false} SplicePanics<T>(xs: seq<T>, at: seq<nat>)
    ensures Splice(xs, at).None? <==> exists j :: 0 <= j < |at| && at[j] >= |xs| - j
    decreases |at|
  {
    if at != [] {
      if at[0] < |xs| {
        SplicePanics(xs[..at[0]] + xs[at[0] + 1..], at[1..]);
        if j :| 0 <= j < |at| && at[j] >= |xs| - j {
          assert j > 0 && at[1..][j - 1] == at[j];
        }
        if j :| 0 <= j < |at[1..]| && at[1..][j] >= |xs| - 1 - j {
          assert at[j + 1] == at[1..][j];
        }
      } else {
        assert at[0] >= |xs| - 0;
      }
    }
  }

  /** Splicing at later positions leaves position p alone. */
  lemma {:induction false} SpliceBeyond<T>(xs: seq<T>, at: seq<nat>, p: nat)
    requires Splice(xs, at).Some? && p < |xs|
    requires forall j :: 0 <= j < |at| ==> at[j] > p
    ensures p < |Splice(xs, at).value| && Splice(xs, at).value[p] == xs[p]
    decreases |at|
  {
    if at != [] {
      SpliceBeyond(xs[..at[0]] + xs[at[0] + 1..], at[1..], p);
    }
  }

  /** Equal entries have equal keys. */
  ghost predicate Keyed<T>(xs: seq<T>, keys: seq<string>)
    requires |xs| == |keys|
  {
    forall i, j :: 0 <= i < |xs| && 0 <= j < |xs| && xs[i] == xs[j] ==> keys[i] == keys[j]
  }

  /** With two or more recorded positions the result is wrong: it is too short when the first
      two coincide, and otherwise still holds the second matching entry. */
  lemma SpliceWrong<T>(xs: seq<T>, keys: seq<string>, rem: seq<string>)
    requires |xs| == |keys| && Keyed(xs, keys)
    requires |Recorded(keys, rem, 0)| >= 2
    ensures Splice(xs, Recorded(keys, rem, 0)) != Some(Kept(xs, keys, rem))
  {
    var at := Recorded(keys, rem, 0);
    var want := Kept(xs, keys, rem);
    RecordedRange(keys, rem, 0);
    RecordedEnough(xs, keys, rem, 0);
    if Splice(xs, at).Some? {
      var got := Splice(xs, at).value;
      SpliceLength(xs, at);
      if at[0] < at[1] {
        var once := xs[..at[0]] + xs[at[0] + 1..];
        assert once[at[1] - 1] == xs[at[1]];
        SpliceBeyond(once, at[1..], at[1] - 1);
        if got == want {
          var j := KeptClean(xs, keys, rem, at[1] - 1);
          assert false;
        }
      }
    }
  }

  lemma {:induction false} KeptDropsOne<T>(xs: seq<T>, keys: seq<string>, rem: seq<string>, base: nat)
    requires |xs| == |keys| && |Recorded(keys, rem, base)| == 1
    ensures var p := Recorded(keys, rem, base)[0] - base;
            0 <= p < |xs| && Kept(xs, keys, rem) == xs[..p] + xs[p + 1..]
  {
    RecordedRange(keys, rem, base);
    TimesIn(rem, keys[0]);
    RepeatAll(base, Times(rem, keys[0]));
    if keys[0] in rem {
      NoneRecorded(keys[1..], rem, base + 1);
      KeptAll(xs[1..], keys[1..], rem);
    } else {
      KeptDropsOne(xs[1..], keys[1..], rem, base + 1);
    }
  }

  lemma {:induction false} NoneRecorded(keys: seq<string>, rem: seq<string>, base: nat)
    requires Recorded(keys, rem, base) == []
    ensures forall i :: 0 <= i < |keys| ==> keys[i] !in rem
  {
    if keys != [] {
      TimesIn(rem, keys[0]);
      RepeatAll(base, Times(rem, keys[0]));
      NoneRecorded(keys[1..], rem, base + 1);
    }
  }

  // ---------- the condition, said of the lists ----------

  /** Stored entry i is listed by entry j of the request. */
  predicate Pair(keys: seq<string>, rem: seq<string>, i: int, j: int) {
    0 <= i < |keys| && 0 <= j < |rem| && keys[i] == rem[j]
  }

  /** At most one stored entry is listed, and it is listed once. */
  ghost predicate AtMostOneMatch(keys: seq<string>, rem: seq<string>) {
    forall i, j, k, l :: Pair(keys, rem, i, j) && Pair(keys, rem, k, l) ==> i == k && j == l
  }

  lemma {:induction false} TimesTwo(rem: seq<string>, k: string) returns (i: nat, j: nat)
    requires Times(rem, k) >= 2
    ensures i < j < |rem| && rem[i] == k && rem[j] == k
  {
    if rem[0] == k {
      TimesIn(rem[1..], k);
      assert k in rem[1..];
      var n :| 0 <= n < |rem[1..]| && rem[1..][n] == k;
      i, j := 0, n + 1;
    } else {
      i, j := TimesTwo(rem[1..], k);
      i, j := i + 1, j + 1;
    }
  }

  lemma {:induction false} TimesOnce(rem: seq<string>, k: string, i: nat, j: nat)
    requires i < j < |rem| && rem[i] == k && rem[j] == k
    ensures Times(rem, k) >= 2
  {
    if i == 0 {
      assert rem[1..][j - 1] == k;
      TimesIn(rem[1..], k);
    } else {
      TimesOnce(rem[1..], k, i - 1, j - 1);
    }
  }

  lemma RecordedCount(keys: seq<string>, rem: seq<string>, base: nat)
    requires keys != []
    ensures |Recorded(keys, rem, base)| == Times(rem, keys[0]) + |Recorded(keys[1..], rem, base + 1)|
  {
    RepeatAll(base, Times(rem, keys[0]));
  }

  lemma {:induction false} SomeRecorded(keys: seq<string>, rem: seq<string>, base: nat, i: nat)
    requires i < |keys| && keys[i] in rem
    ensures |Recorded(keys, rem, base)| >= 1
  {
    RecordedCount(keys, rem, base);
    TimesIn(rem, keys[0]);
    if i > 0 {
      SomeRecorded(keys[1..], rem, base + 1, i - 1);
    }
  }

  /** Two matching pairs give two recorded positions. */
  lemma {:induction false} TwoRecorded(keys: seq<string>, rem: seq<string>, base: nat, i: nat, j: nat, k: nat, l: nat)
    requires Pair(keys, rem, i, j) && Pair(keys, rem, k, l) && (i < k || (i == k && j < l))
    ensures |Recorded(keys, rem, base)| >= 2
  {
    hide Times, Recorded;
    RecordedCount(keys, rem, base);
    if i > 0 {
      TwoRecorded(keys[1..], rem, base + 1, i - 1, j, k - 1, l);
    } else if k == 0 {
      TimesOnce(rem, keys[0], j, l);
    } else {
      TimesIn(rem, keys[0]);
      SomeRecorded(keys[1..], rem, base + 1, k - 1);
    }
  }

  /** Two recorded positions come from two matching pairs. */
  lemma {:induction false} TwoPairs(keys: seq<string>, rem: seq<string>, base: nat) returns (i: nat, j: nat, k: nat, l: nat)
    requires |Recorded(keys, rem, base)| >= 2
    ensures Pair(keys, rem, i, j) && Pair(keys, rem, k, l) && (i != k || j != l)
  {
    RecordedCount(keys, rem, base);
    TimesIn(rem, keys[0]);
    if Times(rem, keys[0]) >= 2 {
      j, l := TimesTwo(rem, keys[0]);
      i, k := 0, 0;
    } else if Times(rem, keys[0]) == 1 {
      RecordedRange(keys[1..], rem, base + 1);
      var p := Recorded(keys[1..], rem, base + 1)[0] - (base + 1);
      assert keys[1..][p] in rem;
      j :| 0 <= j < |rem| && rem[j] == keys[0];
      l :| 0 <= l < |rem| && rem[l] == keys[1..][p];
      i, k := 0, p + 1;
    } else {
      i, j, k, l := TwoPairs(keys[1..], rem, base + 1);
      i, k := i + 1, k + 1;
    }
  }

  lemma RecordedIff(keys: seq<string>, rem: seq<string>)
    ensures |Recorded(keys, rem, 0)| <= 1 <==> AtMostOneMatch(keys, rem)
  {
    if |Recorded(keys, rem, 0)| >= 2 {
      var i, j, k, l := TwoPairs(keys, rem, 0);
    } else {
      forall i, j, k, l | Pair(keys, rem, i, j) && Pair(keys, rem, k, l) ensures i == k && j == l {
        if i < k || (i == k && j < l) {
          TwoRecorded(keys, rem, 0, i, j, k, l);
        } else if k < i || (i == k && l < j) {
          TwoRecorded(keys, rem, 0, k, l, i, j);
        }
      }
    }
  }

  /** Splice removal refines filtering if and only if at most one stored entry is listed, and that
      one at most once in the request. */
  lemma SpliceTheorem<T>(xs: seq<T>, keys: seq<string>, rem: seq<string>)
    requires |xs| == |keys| && Keyed(xs, keys)
    ensures Splice(xs, Recorded(keys, rem, 0)) == Some(Kept(xs, keys, rem)) <==> AtMostOneMatch(keys, rem)
  {
    RecordedIff(keys, rem);
    var at := Recorded(keys, rem, 0);
    if |at| == 0 {
      NoneRecorded(keys, rem, 0);
      KeptAll(xs, keys, rem);
    } else if |at| == 1 {
      KeptDropsOne(xs, keys, rem, 0);
      assert at[1..] == [];
    } else {
      SpliceWrong(xs, keys, rem);
    }
  }

  // ---------- the repaired removal ----------

  /** Splice with the j-th position moved left by the j entries already gone. */
  function SpliceShifted<T>(xs: seq<T>, at: seq<nat>, gone: nat): Option<seq<T>>
    decreases |at|
  {
    if at == [] then Some(xs)
    else if at[0] < gone || at[0] - gone >= |xs| then None
    else SpliceShifted(xs[..at[0] - gone] + xs[at[0] - gone + 1..], at[1..], gone + 1)
  }

  lemma ShiftedStep<T>(done: seq<T>, xs: seq<T>, at: seq<nat>, base: nat, gone: nat)
    requires xs != [] && base == |done| + gone
    ensures SpliceShifted(done + xs, [base] + at, gone) == SpliceShifted(done + xs[1..], at, gone + 1)
  {
    var at' := [base] + at;
    assert at'[1..] == at;
    assert (done + xs)[..|done|] + (done + xs)[|done| + 1..] == done + xs[1..];
  }

  lemma RecordedHead(keys: seq<string>, rem: seq<string>, base: nat)
    requires keys != [] && Times(rem, keys[0]) <= 1
    ensures var tail := Recorded(keys[1..], rem, base + 1);
            Recorded(keys, rem, base) == if keys[0] in rem then [base] + tail else tail
  {
    TimesIn(rem, keys[0]);
    assert Repeat(base, 0) == [] && Repeat(base, 1) == [base] + Repeat(base, 0);
  }

  lemma KeptHead<T>(xs: seq<T>, keys: seq<string>, rem: seq<string>)
    requires |xs| == |keys| && xs != []
    ensures var kept := Kept(xs[1..], keys[1..], rem);
            Kept(xs, keys, rem) == if keys[0] in rem then kept else [xs[0]] + kept
  {
  }

  lemma {:induction false} ShiftedFrom<T>(done: seq<T>, xs: seq<T>, keys: seq<string>, rem: seq<string>, base: nat, gone: nat)
    requires |xs| == |keys| && base == |done| + gone
    requires forall k :: Times(rem, k) <= 1
    ensures SpliceShifted(done + xs, Recorded(keys, rem, base), gone) == Some(done + Kept(xs, keys, rem))
    decreases |xs|, 1
  {
    if xs == [] {
      assert done + xs == done && done + Kept(xs, keys, rem) == done;
    } else {
      hide SpliceShifted, Times, Recorded, Kept;
      if keys[0] in rem {
        ShiftedHit(done, xs, keys, rem, base, gone);
      } else {
        ShiftedMiss(done, xs, keys, rem, base, gone);
      }
    }
  }

  lemma {:induction false} ShiftedMiss<T>(done: seq<T>, xs: seq<T>, keys: seq<string>, rem: seq<string>, base: nat, gone: nat)
    requires |xs| == |keys| && base == |done| + gone && xs != [] && keys[0] !in rem
    requires forall k :: Times(rem, k) <= 1
    ensures SpliceShifted(done + xs, Recorded(keys, rem, base), gone) == Some(done + Kept(xs, keys, rem))
    decreases |xs|, 0
  {
    hide SpliceShifted, Times, Recorded, Kept;
    var tail, kept := Recorded(keys[1..], rem, base + 1), Kept(xs[1..], keys[1..], rem);
    assert Recorded(keys, rem, base) == tail by { RecordedHead(keys, rem, base); }
    assert Kept(xs, keys, rem) == [xs[0]] + kept by { KeptHead(xs, keys, rem); }
    ShiftedFrom(done + [xs[0]], xs[1..], keys[1..], rem, base + 1, gone);
    assert done + [xs[0]] + xs[1..] == done + xs by {
      Regroup(done, xs[0], xs[1..]);
      assert [xs[0]] + xs[1..] == xs;
    }
    Regroup(done, xs[0], kept);
  }

  lemma {:induction false} ShiftedHit<T>(done: seq<T>, xs: seq<T>, keys: seq<string>, rem: seq<string>, base: nat, gone: nat)
    requires |xs| == |keys| && base == |done| + gone && xs != [] && keys[0] in rem
    requires forall k :: Times(rem, k) <= 1
    ensures SpliceShifted(done + xs, Recorded(keys, rem, base), gone) == Some(done + Kept(xs, keys, rem))
    decreases |xs|, 0
  {
    hide SpliceShifted, Times, Recorded, Kept;
    var tail := Recorded(keys[1..], rem, base + 1);
    assert Recorded(keys, rem, base) == [base] + tail by { RecordedHead(keys, rem, base); }
    assert Kept(xs, keys, rem) == Kept(xs[1..], keys[1..], rem) by { KeptHead(xs, keys, rem); }
    ShiftedStep(done, xs, tail, base, gone);
    ShiftedFrom(done, xs[1..], keys[1..], rem, base + 1, gone + 1);
  }

  lemma Regroup<T>(done: seq<T>, x: T, rest: seq<T>)
    ensures done + [x] + rest == done + ([x] + rest)
  {
  }

  /** With each entry listed at most once, shifting the positions removes any number of
      matches correctly. */
  lemma ShiftedTheorem<T>(xs: seq<T>, keys: seq<string>, rem: seq<string>)
    requires |xs| == |keys| && forall k :: Times(rem, k) <= 1
    ensures SpliceShifted(xs, Recorded(keys, rem, 0), 0) == Some(Kept(xs, keys, rem))
  {
    ShiftedFrom([], xs, keys, rem, 0, 0);
    assert [] + xs == xs && [] + Kept(xs, keys, rem) == Kept(xs, keys, rem);
  }

  // ---------- splicing never creates duplicates ----------

  predicate Distinct<T(==)>(xs: seq<T>) {
    forall i, j :: 0 <= i < j < |xs| ==> xs[i] != xs[j]
  }

  lemma {:induction false} SpliceDistinct<T>(xs: seq<T>, at: seq<nat>)
    requires Distinct(xs) && Splice(xs, at).Some?
    ensures Distinct(Splice(xs, at).value)
    decreases |at|
  {
    if at != [] {
      SpliceDistinct(xs[..at[0]] + xs[at[0] + 1..], at[1..]);
    }
  }
}
