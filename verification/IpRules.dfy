/** Merging requests into the allow and block lists of a protection. */
module IpRules {
  import opened Optional
  import opened Removal

  /** xs without the entries of rem. */
  function Without(xs: seq<string>, rem: seq<string>): seq<string> {
    if xs == [] then []
    else if xs[0] in rem then Without(xs[1..], rem)
    else [xs[0]] + Without(xs[1..], rem)
  }

  /** xs with the entries of add it lacks, in request order. */
  function AppendNew(xs: seq<string>, add: seq<string>): seq<string>
    decreases |add|
  {
    if add == [] then xs
    else AppendNew(if add[0] in xs then xs else xs + [add[0]], add[1..])
  }

  function Elems(xs: seq<string>): set<string> {
    set x | x in xs
  }

  // ---------- the loops ----------

  method Contains(xs: seq<string>, x: string) returns (found: bool)
    ensures found == (x in xs)
  {
    found := false;
    for j := 0 to |xs|
      invariant found == (x in xs[..j])
    {
      if xs[j] == x {
        found := true;
      }
    }
    assert xs[..|xs|] == xs;
  }

  lemma {:induction false} WithoutAppend(xs: seq<string>, x: string, rem: seq<string>)
    ensures Without(xs + [x], rem) == Without(xs, rem) + if x in rem then [] else [x]
  {
    if xs == [] {
      assert xs + [x] == [x];
    } else {
      assert (xs + [x])[1..] == xs[1..] + [x];
      WithoutAppend(xs[1..], x, rem);
    }
  }

  method RemoveIPs(current: seq<string>, fromReq: seq<string>) returns (result: seq<string>)
    ensures result == Without(current, fromReq)
  {
    result := [];
    for i := 0 to |current|
      invariant result == Without(current[..i], fromReq)
    {
      assert current[..i + 1] == current[..i] + [current[i]];
      WithoutAppend(current[..i], current[i], fromReq);
      var found := Contains(fromReq, current[i]);
      if !found {
        result := result + [current[i]];
      }
    }
    assert current[..|current|] == current;
  }

  method AddIPs(current: seq<string>, fromReq: seq<string>) returns (result: seq<string>)
    ensures result == AppendNew(Without(current, fromReq), fromReq)
  {
    result := RemoveIPs(current, fromReq);
    ghost var kept := result;
    assert fromReq[0..] == fromReq;
    for i := 0 to |fromReq|
      invariant AppendNew(kept, fromReq) == AppendNew(result, fromReq[i..])
    {
      assert fromReq[i..][1..] == fromReq[i + 1..];
      var found := Contains(result, fromReq[i]);
      if !found {
        result := result + [fromReq[i]];
      }
    }
  }

  // ---------- the merge ----------

  datatype Lists = Lists(allow: seq<string>, block: seq<string>)
  datatype Request = Request(toRemove: Option<Lists>, toAdd: Option<Lists>)

  function MergeList(current: seq<string>, rem: Option<seq<string>>, add: Option<seq<string>>): seq<string> {
    var filtered := if rem.None? then current else Without(current, rem.value);
    if add.None? then filtered else AppendNew(Without(filtered, add.value), add.value)
  }

  function Merged(s: Lists, req: Request): Lists {
    Lists(MergeList(s.allow, MapAllow(req.toRemove), MapAllow(req.toAdd)),
          MergeList(s.block, MapBlock(req.toRemove), MapBlock(req.toAdd)))
  }

  function MapAllow(l: Option<Lists>): Option<seq<string>> {
    if l.None? then None else Some(l.value.allow)
  }

  function MapBlock(l: Option<Lists>): Option<seq<string>> {
    if l.None? then None else Some(l.value.block)
  }

  function RemovedAllow(req: Request): set<string> {
    if req.toRemove.Some? then Elems(req.toRemove.value.allow) else {}
  }

  function RemovedBlock(req: Request): set<string> {
    if req.toRemove.Some? then Elems(req.toRemove.value.block) else {}
  }

  function AddedAllow(req: Request): set<string> {
    if req.toAdd.Some? then Elems(req.toAdd.value.allow) else {}
  }

  function AddedBlock(req: Request): set<string> {
    if req.toAdd.Some? then Elems(req.toAdd.value.block) else {}
  }

  class IPRules {
    var allow: seq<string>
    var block: seq<string>

    ghost function Value(): Lists
      reads this
    {
      Lists(allow, block)
    }

    /** Each list loses what the request removes from it and gains what it adds to it. */
    method Merge(req: Request)
      modifies this
      ensures Value() == Merged(old(Value()), req)
      ensures Elems(allow) == (Elems(old(allow)) - RemovedAllow(req)) + AddedAllow(req)
      ensures Elems(block) == (Elems(old(block)) - RemovedBlock(req)) + AddedBlock(req)
    {
      MergeTheorem(Value(), req);
      var currentAllow, currentBlock := allow, block;
      if req.toRemove.Some? {
        currentAllow := RemoveIPs(currentAllow, req.toRemove.value.allow);
        currentBlock := RemoveIPs(currentBlock, req.toRemove.value.block);
      }
      if req.toAdd.Some? {
        currentAllow := AddIPs(currentAllow, req.toAdd.value.allow);
        currentBlock := AddIPs(currentBlock, req.toAdd.value.block);
      }
      allow, block := currentAllow, currentBlock;
    }
  }

  // ---------- the algebra ----------

  lemma ElemsCons(x: string, xs: seq<string>)
    ensures Elems([x] + xs) == {x} + Elems(xs)
  {
  }

  lemma {:induction false} WithoutElems(xs: seq<string>, rem: seq<string>)
    ensures Elems(Without(xs, rem)) == Elems(xs) - Elems(rem)
  {
    if xs != [] {
      WithoutElems(xs[1..], rem);
      ElemsCons(xs[0], xs[1..]);
      ElemsCons(xs[0], Without(xs[1..], rem));
      assert xs == [xs[0]] + xs[1..];
    }
  }

  lemma {:induction false} AppendNewElems(xs: seq<string>, add: seq<string>)
    ensures Elems(AppendNew(xs, add)) == Elems(xs) + Elems(add)
    decreases |add|
  {
    if add != [] {
      AppendNewElems(if add[0] in xs then xs else xs + [add[0]], add[1..]);
      assert add == [add[0]] + add[1..];
    }
  }

  function Listed(l: Option<seq<string>>): set<string> {
    if l.None? then {} else Elems(l.value)
  }

  /** As sets: the old list minus what is removed, plus what is added. */
  lemma MergeElems(current: seq<string>, rem: Option<seq<string>>, add: Option<seq<string>>)
    ensures Elems(MergeList(current, rem, add)) == (Elems(current) - Listed(rem)) + Listed(add)
  {
    var filtered := if rem.None? then current else Without(current, rem.value);
    if rem.Some? {
      WithoutElems(current, rem.value);
    }
    if add.Some? {
      WithoutElems(filtered, add.value);
      AppendNewElems(Without(filtered, add.value), add.value);
    }
  }

  /** The merge of both lists: as sets each is its old self minus what the request removes from
      that list plus what it adds to it; in order, each keeps what is neither removed nor added,
      followed by the added addresses once each. */
  lemma MergeTheorem(s: Lists, req: Request)
    ensures Elems(Merged(s, req).allow) == (Elems(s.allow) - RemovedAllow(req)) + AddedAllow(req)
    ensures Elems(Merged(s, req).block) == (Elems(s.block) - RemovedBlock(req)) + AddedBlock(req)
    ensures req.toRemove.Some? && req.toAdd.Some? ==>
              var rem, add := req.toRemove.value, req.toAdd.value;
              && Merged(s, req).allow == Without(Without(s.allow, rem.allow), add.allow) + AppendNew([], add.allow)
              && Merged(s, req).block == Without(Without(s.block, rem.block), add.block) + AppendNew([], add.block)
  {
    hide MergeList;
    MergeElems(s.allow, MapAllow(req.toRemove), MapAllow(req.toAdd));
    MergeElems(s.block, MapBlock(req.toRemove), MapBlock(req.toAdd));
    if req.toRemove.Some? && req.toAdd.Some? {
      MergeShape(s.allow, req.toRemove.value.allow, req.toAdd.value.allow);
      MergeShape(s.block, req.toRemove.value.block, req.toAdd.value.block);
    }
  }

  lemma {:induction false} WithoutNone(xs: seq<string>, rem: seq<string>)
    requires Elems(xs) !! Elems(rem)
    ensures Without(xs, rem) == xs
  {
    if xs != [] {
      assert xs[0] in Elems(xs);
      assert forall x :: x in xs[1..] ==> x in xs;
      WithoutNone(xs[1..], rem);
    }
  }

  lemma {:induction false} WithoutAll(xs: seq<string>, rem: seq<string>)
    requires Elems(xs) <= Elems(rem)
    ensures Without(xs, rem) == []
  {
    if xs != [] {
      assert xs[0] in Elems(xs);
      assert forall x :: x in xs[1..] ==> x in xs;
      WithoutAll(xs[1..], rem);
    }
  }

  lemma {:induction false} WithoutConcat(a: seq<string>, b: seq<string>, rem: seq<string>)
    ensures Without(a + b, rem) == Without(a, rem) + Without(b, rem)
  {
    if a == [] {
      assert a + b == b;
    } else {
      assert (a + b)[1..] == a[1..] + b;
      WithoutConcat(a[1..], b, rem);
    }
  }

  /** Entries that are already there and entries that are not listed do not interact. */
  lemma {:induction false} AppendNewApart(kept: seq<string>, xs: seq<string>, add: seq<string>)
    requires Elems(kept) !! Elems(add)
    ensures AppendNew(kept + xs, add) == kept + AppendNew(xs, add)
    decreases |add|
  {
    if add != [] {
      assert add[0] in Elems(add);
      assert forall x :: x in add[1..] ==> x in add;
      if add[0] in xs {
        AppendNewApart(kept, xs, add[1..]);
      } else {
        assert kept + (xs + [add[0]]) == kept + xs + [add[0]];
        AppendNewApart(kept, xs + [add[0]], add[1..]);
      }
    }
  }

  /** New entries are appended in request order. */
  lemma {:induction false} AppendNewFresh(xs: seq<string>, add: seq<string>)
    requires Distinct(add) && Elems(xs) !! Elems(add)
    ensures AppendNew(xs, add) == xs + add
    decreases |add|
  {
    if add != [] {
      assert add[0] in Elems(add);
      assert forall k :: 0 < k < |add| ==> add[k] == add[1..][k - 1];
      forall x | x in xs + [add[0]] ensures x !in add[1..] {
        if x in xs {
          assert x in Elems(xs);
        }
      }
      AppendNewFresh(xs + [add[0]], add[1..]);
      assert xs + [add[0]] + add[1..] == xs + add;
    } else {
      assert xs + add == xs;
    }
  }

  /** The merged list is the untouched entries followed by the request's own. */
  lemma MergeShape(current: seq<string>, rem: seq<string>, add: seq<string>)
    ensures MergeList(current, Some(rem), Some(add)) == Without(Without(current, rem), add) + AppendNew([], add)
  {
    var kept := Without(Without(current, rem), add);
    WithoutElems(Without(current, rem), add);
    AppendNewApart(kept, [], add);
    assert kept + [] == kept;
  }

  lemma WithoutTwice(xs: seq<string>, rem: seq<string>)
    ensures Without(Without(xs, rem), rem) == Without(xs, rem)
  {
    WithoutElems(xs, rem);
    WithoutNone(Without(xs, rem), rem);
  }

  lemma WithoutNothing(xs: seq<string>)
    ensures Without(xs, []) == xs
  {
  }

  /** Applying the same request twice gives the same sequence as once. */
  lemma MergeIdempotent(current: seq<string>, rem: Option<seq<string>>, add: Option<seq<string>>)
    ensures MergeList(MergeList(current, rem, add), rem, add) == MergeList(current, rem, add)
  {
    var r := if rem.None? then [] else rem.value;
    var once := MergeList(current, rem, add);
    WithoutNothing(current);
    WithoutNothing(once);
    if add.None? {
      WithoutTwice(current, r);
    } else {
      MergeIdempotentBoth(current, r, add.value);
      assert MergeList(current, rem, add) == MergeList(current, Some(r), add);
      assert MergeList(once, rem, add) == MergeList(once, Some(r), add);
    }
  }

  lemma MergeIdempotentBoth(current: seq<string>, rem: seq<string>, add: seq<string>)
    ensures var once := MergeList(current, Some(rem), Some(add));
            MergeList(once, Some(rem), Some(add)) == once
  {
    hide MergeList;
    var once := MergeList(current, Some(rem), Some(add));
    var kept, new_ := Without(Without(current, rem), add), AppendNew([], add);
    MergeShape(current, rem, add);
    MergeShape(once, rem, add);
    calc {
      Without(Without(once, rem), add);
      { WithoutConcat(kept, new_, rem); }
      Without(Without(kept, rem) + Without(new_, rem), add);
      { WithoutElems(current, rem); WithoutElems(Without(current, rem), add); WithoutNone(kept, rem); }
      Without(kept + Without(new_, rem), add);
      { WithoutConcat(kept, Without(new_, rem), add); }
      Without(kept, add) + Without(Without(new_, rem), add);
      { WithoutTwice(Without(current, rem), add); }
      kept + Without(Without(new_, rem), add);
      { AppendNewElems([], add); WithoutElems(new_, rem); WithoutAll(Without(new_, rem), add); }
      kept + [];
    }
  }

  // ---------- no duplicates, over any run ----------

  lemma {:induction false} WithoutDistinct(xs: seq<string>, rem: seq<string>)
    requires Distinct(xs)
    ensures Distinct(Without(xs, rem))
  {
    if xs != [] {
      WithoutDistinct(xs[1..], rem);
      WithoutElems(xs[1..], rem);
      assert xs[0] !in xs[1..];
      assert xs[0] !in Elems(Without(xs[1..], rem));
    }
  }

  lemma {:induction false} AppendNewDistinct(xs: seq<string>, add: seq<string>)
    requires Distinct(xs)
    ensures Distinct(AppendNew(xs, add))
    decreases |add|
  {
    if add != [] {
      AppendNewDistinct(if add[0] in xs then xs else xs + [add[0]], add[1..]);
    }
  }

  lemma MergeDistinct(current: seq<string>, rem: Option<seq<string>>, add: Option<seq<string>>)
    requires Distinct(current)
    ensures Distinct(MergeList(current, rem, add))
  {
    var filtered := if rem.None? then current else Without(current, rem.value);
    if rem.Some? {
      WithoutDistinct(current, rem.value);
    }
    if add.Some? {
      WithoutDistinct(filtered, add.value);
      AppendNewDistinct(Without(filtered, add.value), add.value);
    }
  }

  function Run(s: Lists, reqs: seq<Request>): Lists
    decreases |reqs|
  {
    if reqs == [] then s else Run(Merged(s, reqs[0]), reqs[1..])
  }

  /** Every state reached from empty lists is free of duplicates. */
  lemma {:induction false} RunDistinct(s: Lists, reqs: seq<Request>)
    requires Distinct(s.allow) && Distinct(s.block)
    ensures Distinct(Run(s, reqs).allow) && Distinct(Run(s, reqs).block)
    decreases |reqs|
  {
    if reqs != [] {
      var req := reqs[0];
      MergeDistinct(s.allow, MapAllow(req.toRemove), MapAllow(req.toAdd));
      MergeDistinct(s.block, MapBlock(req.toRemove), MapBlock(req.toAdd));
      RunDistinct(Merged(s, req), reqs[1..]);
    }
  }
}
