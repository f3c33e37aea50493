/** The nftables table of a relay: one owned redirect rule and a set of exempt addresses,
    programmed in transactions that apply as a whole or not at all. */
module Nft {
  import opened Optional

  /** Relay options; the source keeps port numbers as decimal strings. */
  datatype Options = Options(fqdn: string, appPort: nat, relayPort: nat, listenPort: nat, netns: string,
                             proxyIp: string)

  const OWNED := "appsecgw-owned-object"

  datatype Rule = Rule(comment: string, appPort: nat, relayPort: nat)

  /** The state of the relay's own table: its prerouting chain and its address set. */
  datatype Table = Absent | Present(rules: seq<Rule>, ips: set<string>)

  datatype Op = AddOp | DeleteOp

  predicate Applied(t: Table) {
    t.Present? && exists i :: 0 <= i < |t.rules| && t.rules[i].comment == OWNED
  }

  method RulesState(t: Table) returns (applied: bool)
    ensures applied == Applied(t)
  {
    if t.Absent? {
      return false;
    }
    for i := 0 to |t.rules|
      invariant forall k :: 0 <= k < i ==> t.rules[k].comment != OWNED
    {
      if t.rules[i].comment == OWNED {
        return true;
      }
    }
    return false;
  }

  function RuleFor(o: Options): Rule {
    Rule(OWNED, o.appPort, o.relayPort)
  }

  /** The add transaction: the table, its chain and its set are created if missing, the
      address is added to the set and the rule is appended to the chain. */
  function Add(t: Table, o: Options): Table {
    match t
    case Absent => Present([RuleFor(o)], {o.proxyIp})
    case Present(rules, ips) => Present(rules + [RuleFor(o)], ips + {o.proxyIp})
  }

  /** What a call with AddOp does to the table. An empty address is not a valid set element,
      so a transaction that carries one is rejected as a whole; fault is any other error of
      listing or running. */
  function Programmed(t: Table, o: Options, fault: bool): Table {
    if fault || Applied(t) || o.proxyIp == "" then t else Add(t, o)
  }

  /** What a call with DeleteOp does to the table. */
  function Unprogrammed(t: Table, fault: bool): Table {
    if fault || !Applied(t) then t else Absent
  }

  /** Options are dereferenced only to add. */
  method ProgramNft(op: Op, t: Table, o: Option<Options>, fault: bool) returns (t': Table)
    requires op == AddOp ==> o.Some?
    ensures op == AddOp ==> t' == Programmed(t, o.value, fault)
    ensures op == DeleteOp ==> t' == Unprogrammed(t, fault)
  {
    t' := t;
    if fault {
      return;
    }
    if op == AddOp {
      var rulesApplied := RulesState(t);
      if !rulesApplied && o.value.proxyIp != "" {
        t' := Add(t, o.value);
      }
    }
    if op == DeleteOp {
      var rulesApplied := RulesState(t);
      if rulesApplied {
        t' := Absent;
      }
    }
  }

  /** The table that the options ask for. */
  function Wanted(o: Options): Table {
    Present([RuleFor(o)], {o.proxyIp})
  }

  /** The table is absent, or it is exactly what the options ask for. */
  predicate Matches(t: Table, o: Options) {
    t.Absent? || (t == Wanted(o) && o.proxyIp != "")
  }

  /** Exactly one rule, owned, and exactly one address, not empty. */
  predicate Single(t: Table) {
    t.Present? ==> |t.rules| == 1 && t.rules[0].comment == OWNED && |t.ips| == 1 && "" !in t.ips
  }

  lemma AppliedIffPresent(t: Table)
    requires Single(t)
    ensures Applied(t) <==> t.Present?
  {
    if t.Present? {
      assert t.rules[0].comment == OWNED;
    }
  }

  /** Adding to an absent table gives the wanted one, a present table is left alone, and
      nothing in between is ever left behind. */
  lemma ProgrammedEffect(t: Table, o: Options, fault: bool)
    requires Single(t)
    ensures Single(Programmed(t, o, fault))
    ensures t.Absent? ==> Programmed(t, o, fault) == if fault || o.proxyIp == "" then Absent else Wanted(o)
    ensures t.Present? ==> Programmed(t, o, fault) == t
  {
    AppliedIffPresent(t);
    if t.Absent? && !fault && o.proxyIp != "" {
      assert Programmed(t, o, fault) == Wanted(o);
    }
  }

  lemma UnprogrammedEffect(t: Table, fault: bool)
    requires Single(t)
    ensures Unprogrammed(t, fault) == if fault then t else Absent
  {
    AppliedIffPresent(t);
  }
}
