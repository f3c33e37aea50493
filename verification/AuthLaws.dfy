/** What the authentication merges amount to. */
module AuthLaws {
  import opened Optional
  import opened Removal
  import opened Auth
  import opened IpRules

  // ---------- tokens as a map ----------

  function AsMap(vs: seq<TokenValue>): map<string, Fields> {
    if vs == [] then map[] else AsMap(vs[1..])[vs[0].token := vs[0].fields]
  }

  /** Set the fields the request names, starting from the stored ones or from nothing. */
  function MapPut(m: map<string, Fields>, a: TokenPut): map<string, Fields> {
    m[a.token := Patch(if a.token in m then m[a.token] else NO_FIELDS, a)]
  }

  function MapPuts(m: map<string, Fields>, puts: seq<TokenPut>): map<string, Fields>
    decreases |puts|
  {
    if puts == [] then m else MapPuts(MapPut(m, puts[0]), puts[1..])
  }

  function PutNames(puts: seq<TokenPut>): seq<string> {
    if puts == [] then [] else [puts[0].token] + PutNames(puts[1..])
  }

  lemma {:induction false} AsMapKeys(vs: seq<TokenValue>)
    ensures AsMap(vs).Keys == Elems(Names(vs))
  {
    if vs != [] {
      AsMapKeys(vs[1..]);
      ElemsCons(vs[0].token, Names(vs[1..]));
    }
  }

  lemma {:induction false} AsMapAppend(vs: seq<TokenValue>, v: TokenValue)
    requires v.token !in Names(vs)
    ensures AsMap(vs + [v]) == AsMap(vs)[v.token := v.fields]
  {
    if vs == [] {
      assert vs + [v] == [v];
    } else {
      assert (vs + [v])[1..] == vs[1..] + [v];
      assert Names(vs)[0] == vs[0].token && Names(vs)[1..] == Names(vs[1..]);
      AsMapAppend(vs[1..], v);
    }
  }

  lemma AsMapCons(v: TokenValue, rest: seq<TokenValue>)
    ensures AsMap([v] + rest) == AsMap(rest)[v.token := v.fields]
    ensures Names([v] + rest) == [v.token] + Names(rest)
  {
    assert ([v] + rest)[1..] == rest;
  }

  lemma DistinctCons(x: string, xs: seq<string>)
    requires Distinct([x] + xs)
    ensures Distinct(xs) && x !in xs
  {
    var ys := [x] + xs;
    forall i | 0 <= i < |xs| ensures xs[i] != x {
      assert ys[0] != ys[i + 1];
    }
    forall i, j | 0 <= i < j < |xs| ensures xs[i] != xs[j] {
      assert ys[i + 1] != ys[j + 1];
    }
  }

  lemma PutElsewhere(m: map<string, Fields>, k: string, f: Fields, a: TokenPut)
    requires k != a.token
    ensures MapPut(m[k := f], a) == MapPut(m, a)[k := f]
  {
  }

  lemma {:induction false} AsMapPatch(vs: seq<TokenValue>, a: TokenPut)
    requires Distinct(Names(vs)) && a.token in Names(vs)
    ensures AsMap(PatchAll(vs, a)) == MapPut(AsMap(vs), a)
  {
    hide AsMap, Names, PatchAll, Patch, MapPut, Distinct;
    var v, rest := vs[0], vs[1..];
    assert vs == [v] + rest;
    AsMapCons(v, rest);
    DistinctCons(v.token, Names(rest));
    AsMapCons(PatchOne(v, a), PatchAll(rest, a));
    assert PatchAll(vs, a) == [PatchOne(v, a)] + PatchAll(rest, a);
    if v.token == a.token {
      NothingToPatch(rest, a);
      AsMapKeys(rest);
      PutHere(AsMap(rest), v, a);
    } else {
      AsMapPatch(rest, a);
      PutElsewhere(AsMap(rest), v.token, v.fields, a);
    }
  }

  lemma PutHere(m: map<string, Fields>, v: TokenValue, a: TokenPut)
    requires v.token == a.token
    ensures MapPut(m[v.token := v.fields], a) == m[v.token := PatchOne(v, a).fields]
  {
  }

  lemma PatchNames(vs: seq<TokenValue>, a: TokenPut)
    ensures Names(PatchAll(vs, a)) == Names(vs)
  {
    assert forall i :: 0 <= i < |vs| ==> Names(PatchAll(vs, a))[i] == Names(vs)[i];
  }

  lemma NamesAppend(vs: seq<TokenValue>, v: TokenValue)
    ensures Names(vs + [v]) == Names(vs) + [v.token]
  {
  }

  /** One requested token updates one map entry and keeps the names in order. */
  lemma UpsertIsPut(vs: seq<TokenValue>, a: TokenPut)
    requires Distinct(Names(vs))
    ensures AsMap(Upsert(vs, a)) == MapPut(AsMap(vs), a)
    ensures Names(Upsert(vs, a)) == if a.token in Names(vs) then Names(vs) else Names(vs) + [a.token]
    ensures Distinct(Names(Upsert(vs, a)))
  {
    hide Names, AsMap, PatchAll;
    if a.token in Names(vs) {
      AsMapPatch(vs, a);
      PatchNames(vs, a);
    } else {
      var v := TokenValue(a.token, Patch(NO_FIELDS, a));
      AsMapAppend(vs, v);
      AsMapKeys(vs);
      NamesAppend(vs, v);
    }
  }

  lemma {:induction false} UpsertAllIsPuts(vs: seq<TokenValue>, puts: seq<TokenPut>)
    requires Distinct(Names(vs))
    ensures AsMap(UpsertAll(vs, puts)) == MapPuts(AsMap(vs), puts)
    ensures Names(UpsertAll(vs, puts)) == AppendNew(Names(vs), PutNames(puts))
    ensures Distinct(Names(UpsertAll(vs, puts)))
    decreases |puts|
  {
    if puts != [] {
      UpsertIsPut(vs, puts[0]);
      UpsertAllIsPuts(Upsert(vs, puts[0]), puts[1..]);
      assert PutNames(puts)[1..] == PutNames(puts[1..]);
    }
  }

  // ---------- removal as map removal ----------

  lemma NamesCons(v: TokenValue, vs: seq<TokenValue>)
    ensures Names([v] + vs) == [v.token] + Names(vs)
  {
    assert ([v] + vs)[1..] == vs;
  }

  lemma {:induction false} KeptNames(vs: seq<TokenValue>, rem: seq<string>)
    ensures Names(Kept(vs, Names(vs), rem)) == Without(Names(vs), rem)
  {
    if vs != [] {
      var v, rest := vs[0], vs[1..];
      var kept := Kept(rest, Names(rest), rem);
      KeptNames(rest, rem);
      NamesCons(v, rest);
      NamesCons(v, kept);
      assert vs == [v] + rest;
      assert Kept(vs, Names(vs), rem) == if v.token in rem then kept else [v] + kept by {
        assert Names(vs)[1..] == Names(rest);
      }
      hide Names, Kept;
      assert Names(vs)[1..] == Names(rest);
    }
  }

  lemma MinusUpdate(m: map<string, Fields>, k: string, f: Fields, gone: set<string>)
    ensures m[k := f] - gone == if k in gone then m - gone else (m - gone)[k := f]
  {
  }

  lemma {:induction false} KeptMap(vs: seq<TokenValue>, rem: seq<string>)
    requires Distinct(Names(vs))
    ensures AsMap(Kept(vs, Names(vs), rem)) == AsMap(vs) - Elems(rem)
  {
    if vs != [] {
      var v, rest := vs[0], vs[1..];
      var kept := Kept(rest, Names(rest), rem);
      assert vs == [v] + rest;
      AsMapCons(v, rest);
      AsMapCons(v, kept);
      assert Kept(vs, Names(vs), rem) == if v.token in rem then kept else [v] + kept by {
        assert Names(vs)[1..] == Names(rest);
      }
      hide AsMap, Names, Kept;
      DistinctCons(v.token, Names(rest));
      KeptMap(rest, rem);
      MinusUpdate(AsMap(rest), v.token, v.fields, Elems(rem));
    }
  }

  lemma {:induction false} KeptPaths(paths: seq<string>, rem: seq<string>)
    ensures Kept(paths, paths, rem) == Without(paths, rem)
  {
    if paths != [] {
      KeptPaths(paths[1..], rem);
    }
  }

  lemma NamesKeyed(vs: seq<TokenValue>)
    ensures Keyed(vs, Names(vs))
  {
  }

  lemma TokenMergeMap(s: TokenAuthValue, req: TokenRequest)
    requires Distinct(Names(s.tokens))
    requires AtMostOneMatch(s.paths, req.pathsToRemove) && AtMostOneMatch(Names(s.tokens), req.tokensToRemove)
    ensures MergedToken(s, req).Some?
    ensures var m := MergedToken(s, req).value;
            && AsMap(m.tokens) == MapPuts(AsMap(s.tokens) - Elems(req.tokensToRemove), req.tokensToAdd)
            && Names(m.tokens) == AppendNew(Without(Names(s.tokens), req.tokensToRemove), PutNames(req.tokensToAdd))
            && m.paths == AppendNew(Without(s.paths, req.pathsToRemove), req.pathsToAdd)
  {
    hide Names, AsMap, Splice, Recorded, Kept, UpsertAll, MapPuts, AppendNew, Without, AtMostOneMatch;
    SpliceTheorem(s.paths, s.paths, req.pathsToRemove);
    NamesKeyed(s.tokens);
    SpliceTheorem(s.tokens, Names(s.tokens), req.tokensToRemove);
    KeptPaths(s.paths, req.pathsToRemove);
    KeptNames(s.tokens, req.tokensToRemove);
    KeptMap(s.tokens, req.tokensToRemove);
    WithoutDistinct(Names(s.tokens), req.tokensToRemove);
    UpsertAllIsPuts(Kept(s.tokens, Names(s.tokens), req.tokensToRemove), req.tokensToAdd);
  }

  // ---------- field by field ----------

  /** The last value a request writes to the start of the validity of token t. */
  function LastAfter(puts: seq<TokenPut>, t: string): Option<nat> {
    if puts == [] then None
    else
      var later := LastAfter(puts[1..], t);
      if later.Some? then later else if puts[0].token == t then puts[0].validAfter else None
  }

  /** ... to its end. */
  function LastBefore(puts: seq<TokenPut>, t: string): Option<nat> {
    if puts == [] then None
    else
      var later := LastBefore(puts[1..], t);
      if later.Some? then later else if puts[0].token == t then puts[0].validBefore else None
  }

  /** ... to its description. */
  function LastDescription(puts: seq<TokenPut>, t: string): Option<string> {
    if puts == [] then None
    else
      var later := LastDescription(puts[1..], t);
      if later.Some? then later else if puts[0].token == t then puts[0].description else None
  }

  function Or<V>(o: Option<V>, v: V): V {
    if o.Some? then o.value else v
  }

  lemma {:induction false} PutsFields(m: map<string, Fields>, puts: seq<TokenPut>, t: string)
    ensures t in MapPuts(m, puts) <==> t in m || t in PutNames(puts)
    ensures t in MapPuts(m, puts) ==>
              var f := MapPuts(m, puts)[t];
              && f.validAfter == Or(LastAfter(puts, t), if t in m then m[t].validAfter else 0)
              && f.validBefore == Or(LastBefore(puts, t), if t in m then m[t].validBefore else 0)
              && f.description == Or(LastDescription(puts, t), if t in m then m[t].description else "")
    decreases |puts|
  {
    if puts != [] {
      PutsFields(MapPut(m, puts[0]), puts[1..], t);
    }
  }

  /** Token merge refines a map. When at most one stored path and one stored token match the
      removals, the merge does not panic. The tokens are then those stored and not removed, and
      those requested; each field of a token is the last value the request writes to it, else
      what was stored, else nothing. Surviving names keep their order and new names follow in the
      order of first mention. */
  lemma TokenMergeTheorem(s: TokenAuthValue, req: TokenRequest)
    requires Distinct(Names(s.tokens))
    requires AtMostOneMatch(s.paths, req.pathsToRemove) && AtMostOneMatch(Names(s.tokens), req.tokensToRemove)
    ensures MergedToken(s, req).Some?
    ensures var m := MergedToken(s, req).value;
            && Names(m.tokens) == AppendNew(Without(Names(s.tokens), req.tokensToRemove), PutNames(req.tokensToAdd))
            && m.paths == AppendNew(Without(s.paths, req.pathsToRemove), req.pathsToAdd)
            && m.enabled == Or(req.enabled, s.enabled)
            && m.header == (if req.header.None? || req.header == Some("") then s.header else req.header.value)
    ensures var was, now := AsMap(s.tokens), AsMap(MergedToken(s, req).value.tokens);
            forall t :: t in now <==> (t in was && t !in req.tokensToRemove) || t in PutNames(req.tokensToAdd)
    ensures var was, now := AsMap(s.tokens), AsMap(MergedToken(s, req).value.tokens);
            forall t :: t in now ==>
              var stays := t in was && t !in req.tokensToRemove;
              && now[t].validAfter == Or(LastAfter(req.tokensToAdd, t), if stays then was[t].validAfter else 0)
              && now[t].validBefore == Or(LastBefore(req.tokensToAdd, t), if stays then was[t].validBefore else 0)
              && now[t].description == Or(LastDescription(req.tokensToAdd, t), if stays then was[t].description else "")
  {
    TokenMergeMap(s, req);
    hide Names, AsMap, MapPuts, AppendNew, Without, AtMostOneMatch, PutNames, UpsertAll, Splice, Recorded;
    hide LastAfter, LastBefore, LastDescription;
    var left := AsMap(s.tokens) - Elems(req.tokensToRemove);
    forall t ensures t in left <==> t in AsMap(s.tokens) && t !in req.tokensToRemove {
    }
    forall t
      ensures t in MapPuts(left, req.tokensToAdd) <==> t in left || t in PutNames(req.tokensToAdd)
      ensures t in MapPuts(left, req.tokensToAdd) ==>
                var f := MapPuts(left, req.tokensToAdd)[t];
                && f.validAfter == Or(LastAfter(req.tokensToAdd, t), if t in left then left[t].validAfter else 0)
                && f.validBefore == Or(LastBefore(req.tokensToAdd, t), if t in left then left[t].validBefore else 0)
                && f.description == Or(LastDescription(req.tokensToAdd, t), if t in left then left[t].description else "")
    {
      PutsFields(left, req.tokensToAdd, t);
    }
  }

  // ---------- no duplicates, over any run ----------

  lemma SplicedNames(vs: seq<TokenValue>, at: seq<nat>)
    requires Distinct(Names(vs)) && Splice(vs, at).Some?
    ensures Distinct(Names(Splice(vs, at).value))
  {
    hide Names, Splice;
    var idx := SpliceAligned(vs, Names(vs), at);
    SpliceDistinct(Names(vs), at);
    var got, names := Splice(vs, at).value, Splice(Names(vs), at).value;
    assert forall i :: 0 <= i < |got| ==> Names(got)[i] == names[i];
    assert Names(got) == names;
  }

  lemma MergedDistinct(s: TokenAuthValue, req: TokenRequest)
    requires Distinct(Names(s.tokens)) && Distinct(s.paths) && MergedToken(s, req).Some?
    ensures var m := MergedToken(s, req).value; Distinct(Names(m.tokens)) && Distinct(m.paths)
  {
    hide Names, Splice, Recorded, UpsertAll, AppendNew;
    var at, at' := Recorded(s.paths, req.pathsToRemove, 0), Recorded(Names(s.tokens), req.tokensToRemove, 0);
    SpliceDistinct(s.paths, at);
    AppendNewDistinct(Splice(s.paths, at).value, req.pathsToAdd);
    SplicedNames(s.tokens, at');
    UpsertAllIsPuts(Splice(s.tokens, at').value, req.tokensToAdd);
  }

  /** Requests applied one after the other; one that panics is not stored. */
  function RunTokens(s: TokenAuthValue, reqs: seq<TokenRequest>): TokenAuthValue
    decreases |reqs|
  {
    if reqs == [] then s
    else RunTokens(if MergedToken(s, reqs[0]).Some? then MergedToken(s, reqs[0]).value else s, reqs[1..])
  }

  /** Tokens and paths stay free of duplicates over any run of requests, whatever they remove:
      a wrong splice removes wrong entries but never doubles one. */
  lemma {:induction false} RunTokensDistinct(s: TokenAuthValue, reqs: seq<TokenRequest>)
    requires Distinct(Names(s.tokens)) && Distinct(s.paths)
    ensures Distinct(Names(RunTokens(s, reqs).tokens)) && Distinct(RunTokens(s, reqs).paths)
    decreases |reqs|
  {
    hide MergedToken;
    if reqs != [] {
      var merged := MergedToken(s, reqs[0]);
      if merged.Some? {
        MergedDistinct(s, reqs[0]);
      }
      RunTokensDistinct(if merged.Some? then merged.value else s, reqs[1..]);
    }
  }

  // ---------- passwords ----------

  function PassOf(us: seq<User>, name: string): Option<string> {
    if us == [] then None
    else if us[0].user == name then Some(us[0].pass)
    else PassOf(us[1..], name)
  }

  lemma {:induction false} PassKept(us: seq<User>, more: seq<User>, name: string)
    requires name in UserNames(us)
    ensures PassOf(us + more, name) == PassOf(us, name)
  {
    assert UserNames(us) == [us[0].user] + UserNames(us[1..]);
    assert (us + more)[1..] == us[1..] + more;
    if us[0].user != name {
      PassKept(us[1..], more, name);
    }
  }

  lemma {:induction false} AddedUsersExtend(us: seq<User>, add: seq<User>) returns (more: seq<User>)
    ensures AddedUsers(us, add) == us + more
    decreases |add|
  {
    if add == [] {
      more := [];
    } else if add[0].user in UserNames(us) {
      more := AddedUsersExtend(us, add[1..]);
    } else {
      var rest := AddedUsersExtend(us + [add[0]], add[1..]);
      more := [add[0]] + rest;
      assert us + [add[0]] + rest == us + more;
    }
  }

  /** The source means a request to update the password of a stored user. It does so exactly
      when there is nothing to update: the stored password is already the requested one. */
  lemma PasswordUpdate(us: seq<User>, add: seq<User>, u: User)
    requires u in add && u.user in UserNames(us)
    ensures PassOf(AddedUsers(us, add), u.user) == Some(u.pass) <==> PassOf(us, u.user) == Some(u.pass)
  {
    var more := AddedUsersExtend(us, add);
    PassKept(us, more, u.user);
  }

  // ---------- users ----------

  /** The first request for a user. */
  predicate FirstRequest(add: seq<User>, j: int) {
    0 <= j < |add| && forall k :: 0 <= k < j ==> add[k].user != add[j].user
  }

  lemma UserNamesAppend(us: seq<User>, u: User)
    ensures UserNames(us + [u]) == UserNames(us) + [u.user]
  {
  }

  /** Stored users stay as they are; missing ones follow in request order. */
  lemma {:induction false} AddedUsersNames(us: seq<User>, add: seq<User>)
    ensures us <= AddedUsers(us, add)
    ensures UserNames(AddedUsers(us, add)) == AppendNew(UserNames(us), UserNames(add))
    decreases |add|
  {
    if add != [] {
      UserNamesAppend(us, add[0]);
      assert UserNames(add)[1..] == UserNames(add[1..]);
      AddedUsersNames(if add[0].user in UserNames(us) then us else us + [add[0]], add[1..]);
    }
  }

  /** A new user comes with the password of the first request for it. */
  lemma {:induction false} AddedUsersFirst(us: seq<User>, add: seq<User>, i: nat) returns (j: nat)
    requires |us| <= i < |AddedUsers(us, add)|
    ensures FirstRequest(add, j) && AddedUsers(us, add)[i] == add[j] && add[j].user !in UserNames(us)
    decreases |add|
  {
    hide UserNames;
    var us' := if add[0].user in UserNames(us) then us else us + [add[0]];
    UserNamesAppend(us, add[0]);
    AddedUsersNames(us', add[1..]);
    if i < |us'| {
      j := 0;
    } else {
      var k := AddedUsersFirst(us', add[1..], i);
      j := k + 1;
      assert add[0].user in UserNames(us');
      FirstAfter(add, k);
    }
  }

  lemma FirstAfter(add: seq<User>, k: nat)
    requires add != [] && FirstRequest(add[1..], k) && add[0].user != add[1..][k].user
    ensures FirstRequest(add, k + 1)
  {
    forall n | 0 <= n < k + 1 ensures add[n].user != add[k + 1].user {
      assert n > 0 ==> add[n] == add[1..][n - 1];
    }
  }

  lemma UsersKeyed(us: seq<User>)
    ensures Keyed(us, UserNames(us))
  {
  }

  lemma {:induction false} KeptUserNames(us: seq<User>, rem: seq<string>)
    ensures UserNames(Kept(us, UserNames(us), rem)) == Without(UserNames(us), rem)
  {
    if us != [] {
      KeptUserNames(us[1..], rem);
      assert UserNames(us)[1..] == UserNames(us[1..]);
    }
  }

  /** Basic authentication. When at most one stored path and one stored user match the removals,
      the merge does not panic; it keeps the other users with their passwords and in their order,
      and appends the requested users that are missing then. */
  lemma BasicMergeTheorem(s: BasicAuthValue, req: BasicRequest)
    requires AtMostOneMatch(s.paths, req.pathsToRemove) && AtMostOneMatch(UserNames(s.users), req.usersToRemove)
    ensures MergedBasic(s, req).Some?
    ensures var m := MergedBasic(s, req).value;
            && m.enabled == Or(req.enabled, s.enabled)
            && m.paths == AppendNew(Without(s.paths, req.pathsToRemove), req.pathsToAdd)
            && Kept(s.users, UserNames(s.users), req.usersToRemove) <= m.users
            && UserNames(m.users) == AppendNew(Without(UserNames(s.users), req.usersToRemove), UserNames(req.usersToAdd))
  {
    hide UserNames, Splice, Recorded, Kept, AppendNew, Without, AtMostOneMatch;
    SpliceTheorem(s.paths, s.paths, req.pathsToRemove);
    UsersKeyed(s.users);
    SpliceTheorem(s.users, UserNames(s.users), req.usersToRemove);
    KeptPaths(s.paths, req.pathsToRemove);
    KeptUserNames(s.users, req.usersToRemove);
    AddedUsersNames(Kept(s.users, UserNames(s.users), req.usersToRemove), req.usersToAdd);
  }
}
