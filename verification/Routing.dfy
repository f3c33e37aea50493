/** Ports, gateway and relays put together: which listener serves which application, and the way
    a connection takes through them. */
module Routing {
  import opened Optional
  import Ports
  import opened Gateway
  import opened Nft
  import opened Relay

  // ---------- protections as the database returns them ----------

  /** The ports of an ingress are rows of the ports table with its ids. */
  predicate Loaded(rows: Ports.Table, ing: Ingress) {
    forall p :: p in ing.upstream.ports ==>
      var k := Ports.Key(p.number, ing.upstreamId, ing.id, p.kind);
      k in rows && rows[k].listening == p.listening
  }

  /** Every ingress row belongs to one application. */
  predicate FromDatabase(rows: Ports.Table, owner: map<nat, nat>, ps: seq<Protection>) {
    forall i :: 0 <= i < |ps| && ps[i].application.Some? ==>
      var app := ps[i].application.value;
      forall ing :: ing in app.ingress ==> ing.id in owner && owner[ing.id] == app.id && Loaded(rows, ing)
  }

  predicate HasContainerPort(p: Protection)
    requires !ShouldSkip(p)
  {
    FirstContainer(FirstUpstream(p).ports).Some?
  }

  /** Listeners built for different applications bind different ports. */
  lemma DistinctListeners(rows: Ports.Table, owner: map<nat, nat>, ps: seq<Protection>, i: nat, j: nat)
    requires Ports.Inv(rows) && FromDatabase(rows, owner, ps) && Complete(ps)
    requires i < |ps| && j < |ps| && ps[i].application.value.id != ps[j].application.value.id
    requires HasContainerPort(ps[i]) && HasContainerPort(ps[j])
    ensures ListenerOf(ps[i], i).value.port != ListenerOf(ps[j], j).value.port
  {
    var a, b := ps[i].application.value.ingress[0], ps[j].application.value.ingress[0];
    assert a in ps[i].application.value.ingress && b in ps[j].application.value.ingress;
    var p, q := FirstContainer(a.upstream.ports).value, FirstContainer(b.upstream.ports).value;
    var k, l := Ports.Key(p.number, a.upstreamId, a.id, p.kind), Ports.Key(q.number, b.upstreamId, b.id, q.kind);
    assert k in rows && l in rows && k != l;
  }

  /** ... after any run of route saves on an empty database. */
  lemma DistinctAfterSaves(calls: seq<Ports.SaveCall>, owner: map<nat, nat>, ps: seq<Protection>, i: nat, j: nat)
    requires forall c :: 0 <= c < |calls| ==> |calls[c].draws| == |calls[c].desired|
    requires FromDatabase(Ports.Run(map[], calls), owner, ps) && Complete(ps)
    requires i < |ps| && j < |ps| && ps[i].application.value.id != ps[j].application.value.id
    requires HasContainerPort(ps[i]) && HasContainerPort(ps[j])
    ensures ListenerOf(ps[i], i).value.port != ListenerOf(ps[j], j).value.port
    ensures Ports.InRange(ListenerOf(ps[i], i).value.port)
  {
    Ports.RunKeeps(map[], calls);
    var rows := Ports.Run(map[], calls);
    DistinctListeners(rows, owner, ps, i, j);
    var a := ps[i].application.value.ingress[0];
    assert a in ps[i].application.value.ingress;
    var p := FirstContainer(a.upstream.ports).value;
    assert Ports.Key(p.number, a.upstreamId, a.id, p.kind) in rows;
  }

  // ---------- relay options ----------

  const GATEWAY_NAME := "wafie-gateway.default.svc"
  const RELAY_PORT := 50010
  const NO_OPTIONS := Options("", 0, 0, 0, "", "")

  /** The options a relay of p gets; None when p has no container port. */
  function RelayOptions(p: Protection): Option<Options>
    requires !ShouldSkip(p)
  {
    if p.mode != On then Some(NO_OPTIONS)
    else
      var port := FirstContainer(FirstUpstream(p).ports);
      if port.None? then None
      else Some(Options(GATEWAY_NAME, port.value.number, RELAY_PORT, port.value.listening, "", ""))
  }

  /** Options are missing exactly for a protection that is on and has no container port; those of a
      protection that is not on never resolve to an address. */
  lemma OptionsIff(p: Protection, answer: Option<string>)
    requires !ShouldSkip(p)
    ensures RelayOptions(p).None? <==> p.mode == On && !HasContainerPort(p)
    ensures RelayOptions(p).Some? ==>
              var o := Resolved(RelayOptions(p), answer).value;
              o.proxyIp != "" <==> p.mode == On && answer.Some? && answer.value != ""
  {
  }

  /** After any run of route saves, a relay built from the same list forwards to the port bound
      for its own protection, and to that of no other. */
  lemma RelayAgreement(calls: seq<Ports.SaveCall>, owner: map<nat, nat>, ps: seq<Protection>, i: nat, j: nat)
    requires forall c :: 0 <= c < |calls| ==> |calls[c].draws| == |calls[c].desired|
    requires FromDatabase(Ports.Run(map[], calls), owner, ps) && Complete(ps)
    requires forall a, b :: 0 <= a < b < |ps| ==> ps[a].application.value.id != ps[b].application.value.id
    requires i < |ps| && j < |ps| && ps[i].mode == On && HasContainerPort(ps[i])
    ensures RelayOptions(ps[i]).Some?
    ensures (ListenerOf(ps[j], j).Some? && ListenerOf(ps[j], j).value.port == RelayOptions(ps[i]).value.listenPort)
            <==> i == j
  {
    if i != j && ListenerOf(ps[j], j).Some? {
      DistinctAfterSaves(calls, owner, ps, i, j);
    }
  }

  // ---------- the network ----------

  /** Gateway addresses, what the gateway serves, and the relay state of each pod address. */
  datatype Net = Net(gateways: set<string>, listeners: seq<Option<Listener>>, clusters: seq<Cluster>,
                     pods: map<string, RelayState>)

  datatype Place =
    | AtPod(src: string, dst: string, port: nat)
    | AtRelay(pod: string, relayPort: nat)
    | AtGateway(gateway: string, listenPort: nat)
    | Delivered(ip: string, to: nat)
    | Dropped

  function ListenerAt(ls: seq<Option<Listener>>, port: nat): Option<Listener> {
    if ls == [] then None
    else if ls[0].Some? && ls[0].value.port == port then ls[0]
    else ListenerAt(ls[1..], port)
  }

  function ClusterNamed(cs: seq<Cluster>, name: string): Option<Cluster> {
    if cs == [] then None else if cs[0].name == name then Some(cs[0]) else ClusterNamed(cs[1..], name)
  }

  function RuleHit(rules: seq<Rule>, port: nat): Option<Rule> {
    if rules == [] then None else if rules[0].appPort == port then Some(rules[0]) else RuleHit(rules[1..], port)
  }

  /** The redirect rule applies to every source outside the address set. */
  function Redirected(t: Table, src: string, port: nat): Option<Rule> {
    if t.Absent? || src in t.ips then None else RuleHit(t.rules, port)
  }

  /** One hop. The gateway picks any target of the cluster. */
  function Hop(net: Net, at: Place, pick: nat): Place {
    match at
    case AtPod(src, dst, port) =>
      var hit := if dst in net.pods then Redirected(net.pods[dst].nft, src, port) else None;
      if hit.Some? then AtRelay(dst, hit.value.relayPort) else Delivered(dst, port)
    case AtRelay(pod, relayPort) =>
      if pod in net.pods && net.pods[pod].socat.Some? && net.pods[pod].socat.value.relayPort == relayPort
         && net.pods[pod].socat.value.proxyIp in net.gateways
      then AtGateway(net.pods[pod].socat.value.proxyIp, net.pods[pod].socat.value.proxyPort)
      else Dropped
    case AtGateway(gateway, port) =>
      var l := ListenerAt(net.listeners, port);
      if l.None? then Dropped
      else
        var c := ClusterNamed(net.clusters, l.value.route.cluster);
        if c.None? || c.value.targets == [] then Dropped
        else
          var t := c.value.targets[pick % |c.value.targets|];
          AtPod(gateway, t.address, t.port)
    case Delivered(_, _) => at
    case Dropped => at
  }

  /** Every programmed table exempts every gateway address. */
  ghost predicate Exempt(net: Net) {
    forall ip, g :: ip in net.pods && net.pods[ip].nft.Present? && g in net.gateways ==> g in net.pods[ip].nft.ips
  }

  function Rank(net: Net, at: Place): nat {
    match at
    case AtPod(src, _, _) => if src in net.gateways then 1 else 4
    case AtRelay(_, _) => 3
    case AtGateway(gateway, _) => if gateway in net.gateways then 2 else 5
    case Delivered(_, _) => 0
    case Dropped => 0
  }

  /** No connection goes round: with all tables exempting the gateway, every hop of every
      connection comes nearer to its end, whatever targets are picked. */
  lemma HopDecreases(net: Net, at: Place, pick: nat)
    requires Exempt(net) && Rank(net, at) > 0
    ensures Rank(net, Hop(net, at, pick)) < Rank(net, at)
  {
  }

  function Walk(net: Net, at: Place, picks: seq<nat>): Place
    decreases |picks|
  {
    if picks == [] then at else Walk(net, Hop(net, at, picks[0]), picks[1..])
  }

  /** How often a walk enters a relay and the gateway. */
  function Entered(net: Net, at: Place, picks: seq<nat>): (r: (nat, nat))
    decreases |picks|
  {
    if picks == [] then (0, 0)
    else
      var next := Hop(net, at, picks[0]);
      var rest := Entered(net, next, picks[1..]);
      (rest.0 + (if next.AtRelay? then 1 else 0), rest.1 + (if next.AtGateway? then 1 else 0))
  }

  lemma {:induction false} ExemptOnce(net: Net, at: Place, picks: seq<nat>)
    requires Exempt(net) && Rank(net, at) <= 4
    ensures var r := Entered(net, at, picks);
            && r.0 <= (if Rank(net, at) > 3 then 1 else 0)
            && r.1 <= (if Rank(net, at) > 2 then 1 else 0)
    decreases |picks|
  {
    if picks != [] {
      if Rank(net, at) > 0 {
        HopDecreases(net, at, picks[0]);
      }
      ExemptOnce(net, Hop(net, at, picks[0]), picks[1..]);
    }
  }

  // ---------- a single gateway address ----------

  /** Every relay is in the state that all its runs keep, and its lookups answer with gateways. */
  ghost predicate Relays(net: Net) {
    forall ip :: ip in net.pods ==>
      && Agrees(net.pods[ip])
      && (net.pods[ip].nft.Present? ==> net.pods[ip].options.value.proxyIp in net.gateways)
  }

  /** With a single gateway address, every programmed table exempts it. */
  lemma SingleExempt(net: Net, g: string)
    requires net.gateways == {g} && Relays(net)
    ensures Exempt(net)
  {
    forall ip, h | ip in net.pods && net.pods[ip].nft.Present? && h in net.gateways ensures h in net.pods[ip].nft.ips {
      assert net.pods[ip].nft == Wanted(net.pods[ip].options.value);
    }
  }

  /** With a single gateway address, any walk of any connection to a pod enters at most one relay
      and the gateway at most once. */
  lemma AtMostOnce(net: Net, g: string, src: string, dst: string, port: nat, picks: seq<nat>)
    requires net.gateways == {g} && Relays(net)
    ensures var r := Entered(net, AtPod(src, dst, port), picks); r.0 <= 1 && r.1 <= 1
  {
    SingleExempt(net, g);
    ExemptOnce(net, AtPod(src, dst, port), picks);
  }

  // ---------- one pass through the gateway ----------

  /** The relay of pod ip runs with the options of p and the proxy address g. */
  ghost predicate Deployed(net: Net, ip: string, p: Protection, g: string)
    requires !ShouldSkip(p)
  {
    && ip in net.pods && RelayOptions(p).Some?
    && var r := net.pods[ip];
       && Agrees(r) && r.nft.Present? && r.socat.Some? && !EmptySocat(r)
       && r.options == Some(RelayOptions(p).value.(proxyIp := g))
  }

  lemma {:induction false} ListenerFound(ls: seq<Option<Listener>>, i: nat)
    requires i < |ls| && ls[i].Some?
    requires forall j :: 0 <= j < |ls| && j != i && ls[j].Some? ==> ls[j].value.port != ls[i].value.port
    ensures ListenerAt(ls, ls[i].value.port) == ls[i]
  {
    if i > 0 {
      ListenerFound(ls[1..], i - 1);
    }
  }

  lemma {:induction false} ClusterFound(cs: seq<Cluster>, i: nat)
    requires UniqueNames(cs) && i < |cs|
    ensures ClusterNamed(cs, cs[i].name) == Some(cs[i])
  {
    if i > 0 {
      assert cs[0].name != cs[i].name;
      ClusterFound(cs[1..], i - 1);
    }
  }

  /** The gateway serves exactly what it built from the list. */
  ghost predicate Serves(net: Net, ps: seq<Protection>, socket: string) {
    && Complete(ps) && |net.listeners| == |ps|
    && (forall i :: 0 <= i < |ps| ==> net.listeners[i] == ListenerOf(ps[i], i))
    && net.clusters == Clusters(ps, socket)
  }

  /** Protections of different applications, which bind different ports. */
  ghost predicate PortsApart(ps: seq<Protection>)
    requires Complete(ps)
  {
    forall i, j :: 0 <= i < |ps| && 0 <= j < |ps| && i != j && HasContainerPort(ps[i]) && HasContainerPort(ps[j]) ==>
      ListenerOf(ps[i], i).value.port != ListenerOf(ps[j], j).value.port
  }

  /** Distinct applications in the database give distinct ports. */
  lemma DatabasePortsApart(rows: Ports.Table, owner: map<nat, nat>, ps: seq<Protection>)
    requires Ports.Inv(rows) && FromDatabase(rows, owner, ps) && Complete(ps)
    requires forall i, j :: 0 <= i < |ps| && 0 <= j < |ps| && i != j ==>
               ps[i].application.value.id != ps[j].application.value.id
    ensures PortsApart(ps)
  {
    forall i, j | 0 <= i < |ps| && 0 <= j < |ps| && i != j && HasContainerPort(ps[i]) && HasContainerPort(ps[j])
      ensures ListenerOf(ps[i], i).value.port != ListenerOf(ps[j], j).value.port
    {
      DistinctListeners(rows, owner, ps, i, j);
    }
  }

  /** What arrives on the port of a protection goes to the picked target of its application. */
  lemma GatewayPicks(net: Net, ps: seq<Protection>, socket: string, i: nat, g: string, pick: nat)
    requires Serves(net, ps, socket) && NamesApart(ps) && PortsApart(ps)
    requires i < |ps| && HasContainerPort(ps[i]) && FirstUpstream(ps[i]).endpoints != []
    ensures var u := FirstUpstream(ps[i]);
            var ts := Targets(u.endpoints, u.ports);
            && ts != []
            && var t := ts[pick % |ts|];
               Hop(net, AtGateway(g, ListenerOf(ps[i], i).value.port), pick) == AtPod(g, t.address, t.port)
  {
    ServedListener(net, ps, socket, i);
    ServedCluster(net, ps, socket, i);
    TargetsThere(FirstUpstream(ps[i]));
    hide Serves, NamesApart, PortsApart, ListenerAt, ClusterNamed, Targets;
    assert ListenerOf(ps[i], i).value.route.cluster == AppCluster(ps[i]).name;
  }

  lemma ServedListener(net: Net, ps: seq<Protection>, socket: string, i: nat)
    requires Serves(net, ps, socket) && PortsApart(ps) && i < |ps| && HasContainerPort(ps[i])
    ensures ListenerAt(net.listeners, ListenerOf(ps[i], i).value.port) == ListenerOf(ps[i], i)
  {
    ListenerFound(net.listeners, i);
  }

  lemma ServedCluster(net: Net, ps: seq<Protection>, socket: string, i: nat)
    requires Serves(net, ps, socket) && NamesApart(ps) && i < |ps|
    ensures ClusterNamed(net.clusters, AppCluster(ps[i]).name) == Some(AppCluster(ps[i]))
  {
    hide NamesApart, Clusters;
    UniqueNamesTheorem(ps, socket);
    var c := AppCluster(ps[i]);
    Named(net.clusters, c, ps, i, socket);
    var k :| 0 <= k < |net.clusters| && net.clusters[k] == c;
    ClusterFound(net.clusters, k);
  }

  lemma GatewayForwards(net: Net, ps: seq<Protection>, socket: string, i: nat, g: string, pick: nat)
    requires Serves(net, ps, socket) && NamesApart(ps) && PortsApart(ps)
    requires i < |ps| && HasContainerPort(ps[i]) && FirstUpstream(ps[i]).endpoints != []
    ensures var u := FirstUpstream(ps[i]);
            var to := Hop(net, AtGateway(g, ListenerOf(ps[i], i).value.port), pick);
            to.AtPod? && to.src == g && Target(to.dst, to.port) in Targets(u.endpoints, u.ports)
  {
    hide Serves, NamesApart, PortsApart, Hop;
    GatewayPicks(net, ps, socket, i, g, pick);
  }

  lemma TargetsThere(u: Upstream)
    requires u.endpoints != [] && FirstContainer(u.ports).Some?
    ensures Targets(u.endpoints, u.ports) != []
  {
    SomeContainer(u.ports);
  }

  lemma {:induction false} SomeContainer(ports: seq<UpstreamPort>)
    requires FirstContainer(ports).Some?
    ensures ContainerPorts(ports) != []
  {
    if ports[0].kind != Ports.ContainerPort {
      SomeContainer(ports[1..]);
    }
  }

  /** One-pass routing. With a single gateway address, a connection from outside the gateway to the
      protected port of a pod whose relay is deployed is redirected once, passes the gateway once and ends at a listed
      endpoint of the same application, at one of its container ports. */
  lemma OnePass(net: Net, ps: seq<Protection>, socket: string, i: nat, pod: string, g: string, src: string,
                picks: seq<nat>)
    requires Serves(net, ps, socket) && NamesApart(ps) && PortsApart(ps)
    requires net.gateways == {g} && Relays(net)
    requires i < |ps| && ps[i].mode == On && HasContainerPort(ps[i]) && FirstUpstream(ps[i]).endpoints != []
    requires Deployed(net, pod, ps[i], g) && src != g
    requires |picks| >= 4
    ensures var start := AtPod(src, pod, FirstContainer(ps[i].application.value.ingress[0].upstream.ports).value.number);
            var end := Walk(net, start, picks);
            && Entered(net, start, picks) == (1, 1)
            && end.Delivered?
            && exists e, p :: e in FirstUpstream(ps[i]).endpoints && p in FirstUpstream(ps[i]).ports
                              && p.kind == Ports.ContainerPort && end == Delivered(e.ip, p.number)
  {
    var u := FirstUpstream(ps[i]);
    var o := RelayOptions(ps[i]).value;
    var start := AtPod(src, pod, o.appPort);
    assert net.pods[pod].nft == Wanted(o.(proxyIp := g));
    SingleExempt(net, g);
    var at1 := Hop(net, start, picks[0]);
    assert at1 == AtRelay(pod, o.relayPort);
    var at2 := Hop(net, at1, picks[1]);
    assert at2 == AtGateway(g, o.listenPort);
    var at3 := Hop(net, at2, picks[2]);
    GatewayForwards(net, ps, socket, i, g, picks[2]);
    var at4 := Hop(net, at3, picks[3]);
    assert at4 == Delivered(at3.dst, at3.port);
    WalkFour(net, start, picks);
    TargetListed(u.endpoints, u.ports, Target(at3.dst, at3.port));
  }

  lemma WalkFour(net: Net, start: Place, picks: seq<nat>)
    requires |picks| >= 4
    requires var at1 := Hop(net, start, picks[0]); var at2 := Hop(net, at1, picks[1]);
             var at3 := Hop(net, at2, picks[2]); var at4 := Hop(net, at3, picks[3]);
             at1.AtRelay? && at2.AtGateway? && at3.AtPod? && at4.Delivered?
    ensures Entered(net, start, picks) == (1, 1)
    ensures Walk(net, start, picks) ==
            Hop(net, Hop(net, Hop(net, Hop(net, start, picks[0]), picks[1]), picks[2]), picks[3])
  {
    hide Hop;
    var at1 := Hop(net, start, picks[0]);
    var at2 := Hop(net, at1, picks[1]);
    var at3 := Hop(net, at2, picks[2]);
    var at4 := Hop(net, at3, picks[3]);
    var p1, p2, p3, p4 := picks[1..], picks[2..], picks[3..], picks[4..];
    assert p1[1..] == p2 && p2[1..] == p3 && p3[1..] == p4;
    DeliveredStays(net, at4, p4);
    assert Entered(net, at3, p3) == (0, 0) && Walk(net, at3, p3) == at4;
    assert Entered(net, at2, p2) == (0, 0) && Walk(net, at2, p2) == at4;
    assert Entered(net, at1, p1) == (0, 1) && Walk(net, at1, p1) == at4;
  }

  lemma {:induction false} DeliveredStays(net: Net, at: Place, picks: seq<nat>)
    requires at.Delivered?
    ensures Walk(net, at, picks) == at && Entered(net, at, picks) == (0, 0)
    decreases |picks|
  {
    if picks != [] {
      DeliveredStays(net, at, picks[1..]);
    }
  }

  // ---------- several gateway addresses ----------

  /** The gateway serves the list, and protection i is on and has a container port. */
  ghost predicate Ready(net: Net, ps: seq<Protection>, socket: string, i: nat) {
    && Serves(net, ps, socket) && NamesApart(ps) && PortsApart(ps)
    && i < |ps| && !ShouldSkip(ps[i]) && ps[i].mode == On && HasContainerPort(ps[i])
  }

  /** The relay of every endpoint of the application is deployed, each with a gateway of its own
      choice. */
  ghost predicate AllDeployed(net: Net, p: Protection, at: map<string, string>)
    requires !ShouldSkip(p)
  {
    forall e :: e in FirstUpstream(p).endpoints ==>
      e.ip in at && at[e.ip] in net.gateways && Deployed(net, e.ip, p, at[e.ip])
  }

  ghost predicate SameGateway(p: Protection, at: map<string, string>)
    requires !ShouldSkip(p)
    requires forall e :: e in FirstUpstream(p).endpoints ==> e.ip in at
  {
    forall e, f :: e in FirstUpstream(p).endpoints && f in FirstUpstream(p).endpoints ==> at[e.ip] == at[f.ip]
  }

  /** No walk of a connection from src to an endpoint enters more than one relay. */
  ghost predicate OneRelay(net: Net, p: Protection, src: string)
    requires !ShouldSkip(p)
  {
    forall e, port, picks :: e in FirstUpstream(p).endpoints ==> Entered(net, AtPod(src, e.ip, port), picks).0 <= 1
  }

  /** The protected port of a pod with its relay: a source that is not the relay's gateway is sent
      to that gateway. */
  lemma ToGateway(net: Net, p: Protection, pod: string, g: string, src: string, a: nat, b: nat)
    requires !ShouldSkip(p) && p.mode == On && Deployed(net, pod, p, g) && g in net.gateways && src != g
    ensures var o := RelayOptions(p).value;
            && Hop(net, AtPod(src, pod, o.appPort), a) == AtRelay(pod, o.relayPort)
            && Hop(net, AtRelay(pod, o.relayPort), b) == AtGateway(g, o.listenPort)
  {
    assert net.pods[pod].nft == Wanted(RelayOptions(p).value.(proxyIp := g));
  }

  /** From its own gateway, and on every other port, a connection is delivered. */
  lemma Through(net: Net, p: Protection, pod: string, g: string, src: string, port: nat, a: nat)
    requires !ShouldSkip(p) && p.mode == On && Deployed(net, pod, p, g)
    requires src == g || port != RelayOptions(p).value.appPort
    ensures Hop(net, AtPod(src, pod, port), a) == Delivered(pod, port)
  {
    var o := RelayOptions(p).value.(proxyIp := g);
    assert net.pods[pod].nft == Wanted(o);
    if src != g {
      assert [RuleFor(o)][1..] == [];
      assert RuleHit([RuleFor(o)], port) == RuleHit([], port);
    }
    assert Redirected(net.pods[pod].nft, src, port) == None;
  }

  lemma {:induction false} MoreEnters(net: Net, at: Place, picks: seq<nat>, more: seq<nat>)
    ensures Entered(net, at, picks).0 <= Entered(net, at, picks + more).0
    decreases |picks|
  {
    hide Hop;
    if picks != [] {
      assert (picks + more)[1..] == picks[1..] + more;
      MoreEnters(net, Hop(net, at, picks[0]), picks[1..], more);
    }
  }

  /** When all relays of the application hold the same gateway, what that gateway forwards goes
      through. */
  lemma SameOnce(net: Net, ps: seq<Protection>, socket: string, i: nat, at: map<string, string>,
                 src: string, e: Endpoint, port: nat, picks: seq<nat>)
    requires Ready(net, ps, socket, i)
    requires AllDeployed(net, ps[i], at) && SameGateway(ps[i], at) && e in FirstUpstream(ps[i]).endpoints
    requires |picks| >= 3
    ensures Entered(net, AtPod(src, e.ip, port), picks).0 <= 1
  {
    hide Hop, Entered, Deployed, Serves, NamesApart, PortsApart;
    var p, g, o := ps[i], at[e.ip], RelayOptions(ps[i]).value;
    if src == g || port != o.appPort {
      PassesOn(net, p, e.ip, g, src, port, picks);
    } else {
      var u := FirstUpstream(p);
      ToGateway(net, p, e.ip, g, src, picks[0], picks[1]);
      GatewayForwards(net, ps, socket, i, g, picks[2]);
      var to := Hop(net, AtGateway(g, o.listenPort), picks[2]);
      TargetListed(u.endpoints, u.ports, Target(to.dst, to.port));
      var f :| f in u.endpoints && f.ip == to.dst;
      PassesOn(net, p, f.ip, g, g, to.port, picks[3..]);
      EnterOnce(net, AtPod(src, e.ip, port), picks, picks[3..]);
    }
  }

  lemma PassesOn(net: Net, p: Protection, pod: string, g: string, src: string, port: nat, picks: seq<nat>)
    requires !ShouldSkip(p) && p.mode == On && Deployed(net, pod, p, g)
    requires src == g || port != RelayOptions(p).value.appPort
    ensures Entered(net, AtPod(src, pod, port), picks) == (0, 0)
  {
    hide Hop, Deployed;
    if picks != [] {
      Through(net, p, pod, g, src, port, picks[0]);
      DeliveredStays(net, Delivered(pod, port), picks[1..]);
    }
  }

  lemma EndpointTarget(u: Upstream, f: Endpoint) returns (k: nat)
    requires f in u.endpoints && FirstContainer(u.ports).Some?
    ensures k < |Targets(u.endpoints, u.ports)|
    ensures Targets(u.endpoints, u.ports)[k] == Target(f.ip, FirstContainer(u.ports).value.number)
  {
    var j :| 0 <= j < |u.endpoints| && u.endpoints[j] == f;
    FirstOfContainers(u.ports);
    TargetAt(u.endpoints, u.ports, j, 0);
    k := j * |ContainerPorts(u.ports)|;
  }

  lemma PickItself(pick: nat, n: nat)
    requires pick < n
    ensures pick % n == pick
  {
  }

  /** The gateway can pick any endpoint at the protected port. */
  lemma PickEndpoint(net: Net, ps: seq<Protection>, socket: string, i: nat, g: string, f: Endpoint) returns (pick: nat)
    requires Ready(net, ps, socket, i) && f in FirstUpstream(ps[i]).endpoints
    ensures Hop(net, AtGateway(g, RelayOptions(ps[i]).value.listenPort), pick) ==
            AtPod(g, f.ip, RelayOptions(ps[i]).value.appPort)
  {
    hide Hop, Serves, NamesApart, PortsApart, Targets;
    var u := FirstUpstream(ps[i]);
    pick := EndpointTarget(u, f);
    var n := |Targets(u.endpoints, u.ports)|;
    PickItself(pick, n);
    GatewayPicks(net, ps, socket, i, g, pick);
    assert Targets(u.endpoints, u.ports)[pick % n] == Target(f.ip, RelayOptions(ps[i]).value.appPort);
  }

  lemma {:induction false} FirstOfContainers(ports: seq<UpstreamPort>)
    requires FirstContainer(ports).Some?
    ensures ContainerPorts(ports) != [] && ContainerPorts(ports)[0] == FirstContainer(ports).value
  {
    if ports[0].kind != Ports.ContainerPort {
      FirstOfContainers(ports[1..]);
    }
  }

  /** Two relays of one application that hold different gateways send a connection back and forth:
      for every n there is a walk that enters n relays and n times a gateway. */
  lemma {:induction false} BackAndForth(net: Net, ps: seq<Protection>, socket: string, i: nat, at: map<string, string>,
                                        src: string, e: Endpoint, f: Endpoint, n: nat) returns (picks: seq<nat>)
    requires Ready(net, ps, socket, i)
    requires AllDeployed(net, ps[i], at)
    requires e in FirstUpstream(ps[i]).endpoints && f in FirstUpstream(ps[i]).endpoints && at[e.ip] != at[f.ip]
    requires src != at[e.ip]
    ensures Entered(net, AtPod(src, e.ip, RelayOptions(ps[i]).value.appPort), picks) == (n, n)
    decreases n
  {
    hide Hop, Entered, Deployed, Serves, NamesApart, PortsApart;
    picks := [];
    if n == 0 {
      EnterNothing(net, AtPod(src, e.ip, RelayOptions(ps[i]).value.appPort));
    } else {
      var o, g := RelayOptions(ps[i]).value, at[e.ip];
      var pick := PickEndpoint(net, ps, socket, i, g, f);
      var rest := BackAndForth(net, ps, socket, i, at, g, f, e, n - 1);
      ToGateway(net, ps[i], e.ip, g, src, 0, 0);
      picks := [0, 0, pick] + rest;
      assert picks[3..] == rest;
      EnterOnce(net, AtPod(src, e.ip, o.appPort), picks, rest);
    }
  }

  lemma EnterNothing(net: Net, at: Place)
    ensures Entered(net, at, []) == (0, 0)
  {
  }

  lemma EnterOnce(net: Net, start: Place, picks: seq<nat>, rest: seq<nat>)
    requires |picks| == 3 + |rest| && picks[3..] == rest
    requires var at1 := Hop(net, start, picks[0]); var at2 := Hop(net, at1, picks[1]); var at3 := Hop(net, at2, picks[2]);
             at1.AtRelay? && at2.AtGateway? && at3.AtPod?
    ensures var r := Entered(net, Hop(net, Hop(net, Hop(net, start, picks[0]), picks[1]), picks[2]), rest);
            Entered(net, start, picks) == (r.0 + 1, r.1 + 1)
  {
    hide Hop;
    var at1 := Hop(net, start, picks[0]);
    var at2 := Hop(net, at1, picks[1]);
    assert picks[1..][1..] == picks[2..] && picks[2..][1..] == rest;
    assert Entered(net, at2, picks[2..]) == Entered(net, Hop(net, at2, picks[2]), rest);
  }

  /** With any number of gateway addresses: for an application whose endpoints all have their relay,
      no walk from outside enters more than one relay if and only if all those relays hold the
      same gateway address. */
  lemma OneRelayTheorem(net: Net, ps: seq<Protection>, socket: string, i: nat, at: map<string, string>, src: string)
    requires Ready(net, ps, socket, i)
    requires AllDeployed(net, ps[i], at) && src !in net.gateways
    ensures OneRelay(net, ps[i], src) <==> SameGateway(ps[i], at)
  {
    hide NamesApart, PortsApart, Deployed, Entered;
    var es := FirstUpstream(ps[i]).endpoints;
    if SameGateway(ps[i], at) {
      forall e, port, picks | e in es ensures Entered(net, AtPod(src, e.ip, port), picks).0 <= 1 {
        MoreEnters(net, AtPod(src, e.ip, port), picks, [0, 0, 0]);
        SameOnce(net, ps, socket, i, at, src, e, port, picks + [0, 0, 0]);
      }
    } else {
      var e, f :| e in es && f in es && at[e.ip] != at[f.ip];
      var picks := BackAndForth(net, ps, socket, i, at, src, e, f, 2);
      assert Entered(net, AtPod(src, e.ip, RelayOptions(ps[i]).value.appPort), picks).0 == 2;
    }
  }
}
