/** Merging requests into the token and basic authentication settings of a protection. */
module Auth {
  import opened Optional
  import opened Removal
  import IpRules

  // ---------- tokens as values ----------

  datatype Fields = Fields(validAfter: nat, validBefore: nat, description: string)
  datatype TokenValue = TokenValue(token: string, fields: Fields)

  /** A requested token; a field that is None is left alone. */
  datatype TokenPut = TokenPut(token: string, validAfter: Option<nat>, validBefore: Option<nat>,
                               description: Option<string>)

  const NO_FIELDS := Fields(0, 0, "")

  function Patch(f: Fields, a: TokenPut): Fields {
    Fields(if a.validAfter.Some? then a.validAfter.value else f.validAfter,
           if a.validBefore.Some? then a.validBefore.value else f.validBefore,
           if a.description.Some? then a.description.value else f.description)
  }

  function PatchOne(v: TokenValue, a: TokenPut): TokenValue {
    if v.token == a.token then v.(fields := Patch(v.fields, a)) else v
  }

  function PatchAll(vs: seq<TokenValue>, a: TokenPut): (r: seq<TokenValue>)
    ensures |r| == |vs| && forall i :: 0 <= i < |vs| ==> r[i] == PatchOne(vs[i], a)
  {
    if vs == [] then [] else [PatchOne(vs[0], a)] + PatchAll(vs[1..], a)
  }

  function Names(vs: seq<TokenValue>): (ns: seq<string>)
    ensures |ns| == |vs| && forall i :: 0 <= i < |vs| ==> ns[i] == vs[i].token
  {
    if vs == [] then [] else [vs[0].token] + Names(vs[1..])
  }

  function Upsert(vs: seq<TokenValue>, a: TokenPut): seq<TokenValue> {
    if a.token in Names(vs) then PatchAll(vs, a) else vs + [TokenValue(a.token, Patch(NO_FIELDS, a))]
  }

  function UpsertAll(vs: seq<TokenValue>, puts: seq<TokenPut>): seq<TokenValue>
    decreases |puts|
  {
    if puts == [] then vs else UpsertAll(Upsert(vs, puts[0]), puts[1..])
  }

  datatype TokenAuthValue = TokenAuthValue(header: string, enabled: bool, paths: seq<string>, tokens: seq<TokenValue>)
  datatype TokenRequest = TokenRequest(enabled: Option<bool>, header: Option<string>,
                                       pathsToRemove: seq<string>, pathsToAdd: seq<string>,
                                       tokensToRemove: seq<string>, tokensToAdd: seq<TokenPut>)

  /** The merged settings; None is a panic of the splice removal. */
  function MergedToken(s: TokenAuthValue, req: TokenRequest): Option<TokenAuthValue> {
    var paths := Splice(s.paths, Recorded(s.paths, req.pathsToRemove, 0));
    var tokens := Splice(s.tokens, Recorded(Names(s.tokens), req.tokensToRemove, 0));
    if paths.None? || tokens.None? then None
    else Some(TokenAuthValue(
                if req.header.Some? && req.header.value != "" then req.header.value else s.header,
                if req.enabled.Some? then req.enabled.value else s.enabled,
                IpRules.AppendNew(paths.value, req.pathsToAdd),
                UpsertAll(tokens.value, req.tokensToAdd)))
  }

  // ---------- tokens behind pointers ----------

  class Token {
    const token: string
    var validAfter: nat
    var validBefore: nat
    var description: string

    constructor (a: TokenPut)
      ensures Value() == TokenValue(a.token, Patch(NO_FIELDS, a))
    {
      token := a.token;
      validAfter := if a.validAfter.Some? then a.validAfter.value else 0;
      validBefore := if a.validBefore.Some? then a.validBefore.value else 0;
      description := if a.description.Some? then a.description.value else "";
    }

    function Value(): TokenValue
      reads this
    {
      TokenValue(token, Fields(validAfter, validBefore, description))
    }

    /** The in-place update of a stored token. */
    method Update(a: TokenPut)
      requires token == a.token
      modifies this
      ensures Value() == PatchOne(old(Value()), a)
    {
      if a.validAfter.Some? {
        validAfter := a.validAfter.value;
      }
      if a.validBefore.Some? {
        validBefore := a.validBefore.value;
      }
      if a.description.Some? {
        description := a.description.value;
      }
    }
  }

  ghost function ValuesOf(ts: seq<Token>): (vs: seq<TokenValue>)
    reads ts
    ensures |vs| == |ts| && forall i :: 0 <= i < |ts| ==> vs[i] == ts[i].Value()
  {
    if ts == [] then [] else [ts[0].Value()] + ValuesOf(ts[1..])
  }

  /** Splicing two aligned sequences picks the same positions idx from both. */
  lemma {:induction false} SpliceAligned<A, B>(xs: seq<A>, ys: seq<B>, at: seq<nat>) returns (idx: seq<nat>)
    requires |xs| == |ys|
    ensures Splice(xs, at).Some? == Splice(ys, at).Some?
    ensures Splice(xs, at).Some? ==> |Splice(xs, at).value| == |Splice(ys, at).value| == |idx|
    ensures Splice(xs, at).Some? ==>
              forall i :: 0 <= i < |idx| ==>
                idx[i] < |xs| && Splice(xs, at).value[i] == xs[idx[i]] && Splice(ys, at).value[i] == ys[idx[i]]
    decreases |at|
  {
    idx := [];
    if at == [] {
      idx := seq(|xs|, i => i);
    } else if at[0] < |xs| {
      var xs', ys' := xs[..at[0]] + xs[at[0] + 1..], ys[..at[0]] + ys[at[0] + 1..];
      var idx' := SpliceAligned(xs', ys', at[1..]);
      idx := seq(|idx'|, i requires 0 <= i < |idx'| => if idx'[i] < at[0] then idx'[i] else idx'[i] + 1);
    }
  }

  ghost function Objects(ts: seq<Token>): set<Token> {
    set t | t in ts
  }

  class TokenAuth {
    var header: string
    var enabled: bool
    var pathWhitelist: seq<string>
    var tokens: seq<Token>

    /** The stored pointers are different objects. */
    ghost predicate Valid()
      reads this
    {
      Distinct(tokens)
    }

    ghost function Value(): TokenAuthValue
      reads this, tokens
    {
      TokenAuthValue(header, enabled, pathWhitelist, ValuesOf(tokens))
    }

    /** Update every stored token of the requested name through its pointer. */
    method PatchStored(a: TokenPut) returns (found: bool)
      requires Valid()
      modifies Objects(tokens)
      ensures ValuesOf(tokens) == PatchAll(old(ValuesOf(tokens)), a)
      ensures found == (a.token in Names(old(ValuesOf(tokens))))
      ensures forall t :: t in tokens && t.token != a.token ==> unchanged(t)
    {
      hide ValuesOf, Names, PatchAll, PatchOne;
      found := false;
      ghost var vs := ValuesOf(tokens);
      for i := 0 to |tokens|
        invariant found == (a.token in Names(vs)[..i])
        invariant forall k :: 0 <= k < i ==> tokens[k].Value() == PatchOne(vs[k], a)
        invariant forall k :: i <= k < |tokens| ==> tokens[k].Value() == vs[k]
        invariant forall k :: 0 <= k < |tokens| && tokens[k].token != a.token ==> unchanged(tokens[k])
      {
        assert Names(vs)[..i + 1] == Names(vs)[..i] + [tokens[i].token];
        if tokens[i].token == a.token {
          found := true;
          tokens[i].Update(a);
        } else {
          PatchOther(vs[i], a);
        }
      }
      assert Names(vs)[..|tokens|] == Names(vs);
      assert ValuesOf(tokens) == PatchAll(vs, a);
    }

    /** One requested token: stored tokens of that name are updated in place, no other object
        is touched, and a missing token is appended. */
    method UpsertToken(a: TokenPut)
      requires Valid()
      modifies this`tokens, Objects(tokens)
      ensures Valid()
      ensures ValuesOf(tokens) == Upsert(old(ValuesOf(tokens)), a)
      ensures forall t :: t in tokens ==> t in old(tokens) || fresh(t)
      ensures forall t :: t in old(tokens) ==> t in tokens && (t.token != a.token ==> unchanged(t))
    {
      hide ValuesOf, Names, PatchAll;
      ghost var vs := ValuesOf(tokens);
      var found := PatchStored(a);
      if !found {
        NothingToPatch(vs, a);
        var t := new Token(a);
        tokens := tokens + [t];
        assert ValuesOf(tokens) == vs + [t.Value()];
      }
    }

    method UpsertTokens(puts: seq<TokenPut>)
      requires Valid()
      modifies this`tokens, Objects(tokens)
      ensures Valid()
      ensures ValuesOf(tokens) == UpsertAll(old(ValuesOf(tokens)), puts)
      ensures forall t :: t in tokens ==> t in old(tokens) || fresh(t)
    {
      hide ValuesOf, Upsert;
      assert puts[0..] == puts;
      for i := 0 to |puts|
        invariant Valid()
        invariant forall t :: t in tokens ==> t in old(tokens) || fresh(t)
        invariant UpsertAll(old(ValuesOf(tokens)), puts) == UpsertAll(ValuesOf(tokens), puts[i..])
      {
        assert puts[i..][1..] == puts[i + 1..];
        UpsertToken(puts[i]);
      }
    }

    /** Returns false when the splice removal panics. */
    method RemoveTokens(rem: seq<string>) returns (ok: bool)
      requires Valid()
      modifies this`tokens
      ensures Valid()
      ensures var vs := old(ValuesOf(tokens));
              var spliced := Splice(vs, Recorded(Names(vs), rem, 0));
              ok == spliced.Some? && (ok ==> ValuesOf(tokens) == spliced.value)
      ensures forall t :: t in tokens ==> t in old(tokens)
      ensures !ok ==> tokens == old(tokens)
    {
      hide ValuesOf, Names, Splice, Recorded;
      var names: seq<string> := [];
      for i := 0 to |tokens|
        invariant |names| == i && forall k :: 0 <= k < i ==> names[k] == tokens[k].token
      {
        names := names + [tokens[i].token];
      }
      ghost var vs := ValuesOf(tokens);
      assert names == Names(vs);
      var removeAt := RecordMatches(names, rem);
      var spliced := SpliceOut(tokens, removeAt);
      ghost var idx := SpliceAligned(tokens, vs, removeAt);
      ok := spliced.Some?;
      if ok {
        SpliceDistinct(tokens, removeAt);
        ghost var ts, ws := spliced.value, Splice(vs, removeAt).value;
        assert forall i :: 0 <= i < |ts| ==> ts[i] == tokens[idx[i]] && ws[i] == vs[idx[i]];
        tokens := spliced.value;
        assert ValuesOf(tokens) == ws;
      }
    }

    /** Returns false when the splice removal panics. */
    method MergePaths(rem: seq<string>, add: seq<string>) returns (ok: bool)
      modifies this`pathWhitelist
      ensures var spliced := Splice(old(pathWhitelist), Recorded(old(pathWhitelist), rem, 0));
              ok == spliced.Some? && (ok ==> pathWhitelist == IpRules.AppendNew(spliced.value, add))
    {
      var removeAt := RecordMatches(pathWhitelist, rem);
      var spliced := SpliceOut(pathWhitelist, removeAt);
      if spliced.None? {
        return false;
      }
      pathWhitelist := AppendAbsent(spliced.value, add);
      return true;
    }

    /** The whole merge; false stands for a panic, after which nothing is stored. */
    method Merge(req: TokenRequest) returns (ok: bool)
      requires Valid()
      modifies this, Objects(tokens)
      ensures Valid()
      ensures var merged := MergedToken(old(Value()), req);
              ok == merged.Some? && (ok ==> Value() == merged.value)
      ensures enabled == (if req.enabled.Some? then req.enabled.value else old(enabled))
      ensures header == (if req.header.Some? && req.header.value != "" then req.header.value else old(header))
    {
      hide ValuesOf, UpsertAll, Splice, Recorded, Names;
      if req.enabled.Some? {
        enabled := req.enabled.value;
      }
      if req.header.Some? && req.header.value != "" {
        header := req.header.value;
      }
      ok := MergePaths(req.pathsToRemove, req.pathsToAdd);
      if !ok {
        return;
      }
      ok := RemoveTokens(req.tokensToRemove);
      if !ok {
        return;
      }
      UpsertTokens(req.tokensToAdd);
    }
  }

  lemma PatchOther(v: TokenValue, a: TokenPut)
    requires v.token != a.token
    ensures PatchOne(v, a) == v
  {
  }

  lemma NothingToPatch(vs: seq<TokenValue>, a: TokenPut)
    requires a.token !in Names(vs)
    ensures PatchAll(vs, a) == vs
  {
    forall i | 0 <= i < |vs| ensures PatchOne(vs[i], a) == vs[i] {
      assert Names(vs)[i] == vs[i].token;
    }
  }

  method AppendAbsent(xs: seq<string>, add: seq<string>) returns (result: seq<string>)
    ensures result == IpRules.AppendNew(xs, add)
  {
    result := xs;
    assert add[0..] == add;
    for i := 0 to |add|
      invariant IpRules.AppendNew(xs, add) == IpRules.AppendNew(result, add[i..])
    {
      assert add[i..][1..] == add[i + 1..];
      var found := IpRules.Contains(result, add[i]);
      if !found {
        result := result + [add[i]];
      }
    }
  }

  // ---------- basic authentication ----------

  datatype User = User(user: string, pass: string)

  function UserNames(us: seq<User>): (ns: seq<string>)
    ensures |ns| == |us| && forall i :: 0 <= i < |us| ==> ns[i] == us[i].user
  {
    if us == [] then [] else [us[0].user] + UserNames(us[1..])
  }

  /** Users that are missing are appended; users that exist stay as they are. */
  function AddedUsers(us: seq<User>, add: seq<User>): seq<User>
    decreases |add|
  {
    if add == [] then us
    else AddedUsers(if add[0].user in UserNames(us) then us else us + [add[0]], add[1..])
  }

  /** The source assigns the new password to the loop's own copy of the stored user. */
  method AddUsers(users: seq<User>, usersToAdd: seq<User>) returns (result: seq<User>)
    ensures result == AddedUsers(users, usersToAdd)
  {
    hide UserNames;
    result := users;
    assert usersToAdd[0..] == usersToAdd;
    for i := 0 to |usersToAdd|
      invariant AddedUsers(users, usersToAdd) == AddedUsers(result, usersToAdd[i..])
    {
      assert usersToAdd[i..][1..] == usersToAdd[i + 1..];
      var userToAdd := usersToAdd[i];
      var found := false;
      for j := 0 to |result|
        invariant found == (userToAdd.user in UserNames(result)[..j])
      {
        assert UserNames(result)[..j + 1] == UserNames(result)[..j] + [result[j].user];
        var currentUser := result[j];
        if currentUser.user == userToAdd.user {
          found := true;
          if userToAdd.pass != "" {
            currentUser := currentUser.(pass := userToAdd.pass);
          }
        }
      }
      assert UserNames(result)[..|result|] == UserNames(result);
      if !found {
        result := result + [User(userToAdd.user, userToAdd.pass)];
      }
    }
  }

  datatype BasicAuthValue = BasicAuthValue(enabled: bool, paths: seq<string>, users: seq<User>)
  datatype BasicRequest = BasicRequest(enabled: Option<bool>, pathsToRemove: seq<string>, pathsToAdd: seq<string>,
                                       usersToRemove: seq<string>, usersToAdd: seq<User>)

  /** The merged settings; None is a panic of the splice removal. */
  function MergedBasic(s: BasicAuthValue, req: BasicRequest): Option<BasicAuthValue> {
    var paths := Splice(s.paths, Recorded(s.paths, req.pathsToRemove, 0));
    var users := Splice(s.users, Recorded(UserNames(s.users), req.usersToRemove, 0));
    if paths.None? || users.None? then None
    else Some(BasicAuthValue(if req.enabled.Some? then req.enabled.value else s.enabled,
                             IpRules.AppendNew(paths.value, req.pathsToAdd),
                             AddedUsers(users.value, req.usersToAdd)))
  }

  class BasicAuth {
    var enabled: bool
    var pathWhitelist: seq<string>
    var users: seq<User>

    ghost function Value(): BasicAuthValue
      reads this
    {
      BasicAuthValue(enabled, pathWhitelist, users)
    }

    /** The whole merge; false stands for a panic, after which nothing is stored. */
    method Merge(req: BasicRequest) returns (ok: bool)
      modifies this
      ensures var merged := MergedBasic(old(Value()), req);
              ok == merged.Some? && (ok ==> Value() == merged.value)
      ensures enabled == (if req.enabled.Some? then req.enabled.value else old(enabled))
    {
      if req.enabled.Some? {
        enabled := req.enabled.value;
      }
      var removeAt := RecordMatches(pathWhitelist, req.pathsToRemove);
      var paths := SpliceOut(pathWhitelist, removeAt);
      if paths.None? {
        return false;
      }
      pathWhitelist := AppendAbsent(paths.value, req.pathsToAdd);
      var names: seq<string> := [];
      for i := 0 to |users|
        invariant |names| == i && forall k :: 0 <= k < i ==> names[k] == users[k].user
      {
        names := names + [users[i].user];
      }
      assert names == UserNames(users);
      removeAt := RecordMatches(names, req.usersToRemove);
      var kept := SpliceOut(users, removeAt);
      if kept.None? {
        return false;
      }
      users := AddUsers(kept.value, req.usersToAdd);
      return true;
    }
  }
}
