/** The resources the gateway builds from the list of protections. */
module Gateway {
  import opened Ports
  import opened Optional

  datatype Endpoint = Endpoint(ip: string, node: string)
  datatype UpstreamPort = UpstreamPort(number: nat, listening: nat, kind: PortType)
  datatype MirrorPolicy = MirrorPolicy(enabled: bool, ip: string, port: nat, dns: string)
  datatype Upstream = Upstream(endpoints: seq<Endpoint>, ports: seq<UpstreamPort>, mirror: Option<MirrorPolicy>)
  datatype Ingress = Ingress(id: nat, upstreamId: string, upstream: Upstream)
  datatype Application = Application(id: nat, name: string, ingress: seq<Ingress>)
  datatype Mode = ModeUnspecified | On | Off
  datatype Protection = Protection(id: nat, mode: Mode, application: Option<Application>)

  datatype Target = Target(address: string, port: nat)
  datatype Cluster = Cluster(name: string, targets: seq<Target>, resolved: bool)
  datatype Route = Route(cluster: string, mirrors: seq<string>)
  datatype Listener = Listener(index: nat, port: nat, protectionId: nat, route: Route, processor: Option<string>)

  const XPROC_CLUSTER := "wafie_xproc_cluster"

  // ---------- reading a protection ----------

  predicate ShouldSkip(p: Protection) {
    p.application.None? || p.application.value.ingress == []
  }

  function FirstUpstream(p: Protection): Upstream
    requires !ShouldSkip(p)
  {
    p.application.value.ingress[0].upstream
  }

  function FirstContainer(ports: seq<UpstreamPort>): (r: Option<UpstreamPort>)
    ensures r.Some? ==> r.value in ports && r.value.kind == ContainerPort
    ensures r.None? <==> forall p :: p in ports ==> p.kind != ContainerPort
  {
    if ports == [] then None
    else if ports[0].kind == ContainerPort then Some(ports[0])
    else FirstContainer(ports[1..])
  }

  /** It is the first one. */
  lemma {:induction false} FirstContainerAt(ports: seq<UpstreamPort>, i: nat)
    requires i < |ports| && ports[i].kind == ContainerPort
    requires forall k :: 0 <= k < i ==> ports[k].kind != ContainerPort
    ensures FirstContainer(ports) == Some(ports[i])
  {
    if i > 0 {
      FirstContainerAt(ports[1..], i - 1);
    }
  }

  /** The first container port of the first ingress. */
  method ProtectionContainerPort(p: Protection) returns (port: Option<UpstreamPort>)
    requires !ShouldSkip(p)
    ensures port == FirstContainer(FirstUpstream(p).ports)
    ensures var ports := p.application.value.ingress[0].upstream.ports;
            && (port.None? <==> forall i :: 0 <= i < |ports| ==> ports[i].kind != ContainerPort)
            && (port.Some? ==> exists i :: 0 <= i < |ports| && ports[i] == port.value && ports[i].kind == ContainerPort
                                           && forall k :: 0 <= k < i ==> ports[k].kind != ContainerPort)
  {
    var ports := FirstUpstream(p).ports;
    assert ports[0..] == ports;
    for i := 0 to |ports|
      invariant FirstContainer(ports) == FirstContainer(ports[i..])
      invariant forall k :: 0 <= k < i ==> ports[k].kind != ContainerPort
    {
      assert ports[i..][1..] == ports[i + 1..];
      if ports[i].kind == ContainerPort {
        return Some(ports[i]);
      }
    }
    return None;
  }

  // ---------- listeners ----------

  function MirrorName(app: string): string {
    app + "-mirrored"
  }

  predicate Mirrored(p: Protection)
    requires !ShouldSkip(p)
  {
    FirstUpstream(p).mirror.Some? && FirstUpstream(p).mirror.value.enabled
  }

  function AppName(p: Protection): string
    requires !ShouldSkip(p)
  {
    p.application.value.name
  }

  function RouteOf(p: Protection): Route
    requires !ShouldSkip(p)
  {
    Route(AppName(p), if Mirrored(p) then [MirrorName(AppName(p))] else [])
  }

  function ListenerOf(p: Protection, i: nat): Option<Listener>
    requires !ShouldSkip(p)
  {
    var port := FirstContainer(FirstUpstream(p).ports);
    if port.None? then None
    else Some(Listener(i, port.value.listening, p.id, RouteOf(p),
                               if p.mode == On then Some(XPROC_CLUSTER) else None))
  }

  /** What a listener is for: it binds the listening port of the first container port, sends
      everything to the cluster of the application, mirrors exactly if the policy is enabled and
      processes exactly if the protection is on. */
  lemma ListenerContents(p: Protection, i: nat, k: nat)
    requires p.application.Some? && p.application.value.ingress != []
    requires var ports := p.application.value.ingress[0].upstream.ports;
             && k < |ports| && ports[k].kind == ContainerPort
             && forall j :: 0 <= j < k ==> ports[j].kind != ContainerPort
    ensures var app := p.application.value;
            var u := app.ingress[0].upstream;
            var mirrored := u.mirror.Some? && u.mirror.value.enabled;
            ListenerOf(p, i) ==
            Some(Listener(i, u.ports[k].listening, p.id,
                          Route(app.name, if mirrored then [app.name + "-mirrored"] else []),
                          if p.mode == On then Some("wafie_xproc_cluster") else None))
  {
    FirstContainerAt(p.application.value.ingress[0].upstream.ports, k);
  }

  ghost predicate Complete(ps: seq<Protection>) {
    forall i :: 0 <= i < |ps| ==> !ShouldSkip(ps[i])
  }

  /** The listeners, one slot per protection. The loop dereferences the application and the
      first ingress of every protection, so a protection without them is a panic (None). */
  method BuildListeners(ps: seq<Protection>) returns (res: Option<seq<Option<Listener>>>)
    ensures res.Some? <==> Complete(ps)
    ensures res.Some? ==> |res.value| == |ps|
    ensures res.Some? ==> forall i :: 0 <= i < |ps| ==> !ShouldSkip(ps[i]) && res.value[i] == ListenerOf(ps[i], i)
  {
    var listeners := new Option<Listener>[|ps|](_ => None);
    for i := 0 to |ps|
      invariant forall k :: 0 <= k < i ==> !ShouldSkip(ps[k]) && listeners[k] == ListenerOf(ps[k], k)
      invariant forall k :: i <= k < |ps| ==> listeners[k] == None
    {
      if ShouldSkip(ps[i]) {
        return None;
      }
      var port := ProtectionContainerPort(ps[i]);
      if port.Some? {
        listeners[i] := Some(
          Listener(i, port.value.listening, ps[i].id, RouteOf(ps[i]),
                   if ps[i].mode == On then Some(XPROC_CLUSTER) else None));
      }
    }
    return Some(listeners[..]);
  }

  // ---------- clusters ----------

  function ContainerPorts(ports: seq<UpstreamPort>): seq<UpstreamPort> {
    if ports == [] then []
    else if ports[0].kind == ContainerPort then [ports[0]] + ContainerPorts(ports[1..])
    else ContainerPorts(ports[1..])
  }

  function PortTargets(ip: string, ports: seq<UpstreamPort>): (ts: seq<Target>)
    ensures |ts| == |ports| && forall i :: 0 <= i < |ports| ==> ts[i] == Target(ip, ports[i].number)
  {
    if ports == [] then [] else [Target(ip, ports[0].number)] + PortTargets(ip, ports[1..])
  }

  function Targets(eps: seq<Endpoint>, ports: seq<UpstreamPort>): seq<Target> {
    if eps == [] then [] else PortTargets(eps[0].ip, ContainerPorts(ports)) + Targets(eps[1..], ports)
  }

  lemma {:induction false} ContainerPortsAppend(ports: seq<UpstreamPort>, p: UpstreamPort)
    ensures ContainerPorts(ports + [p]) == ContainerPorts(ports) + if p.kind == ContainerPort then [p] else []
  {
    if ports == [] {
      assert ports + [p] == [p];
    } else {
      assert (ports + [p])[1..] == ports[1..] + [p];
      ContainerPortsAppend(ports[1..], p);
    }
  }

  lemma {:induction false} TargetsAppend(eps: seq<Endpoint>, e: Endpoint, ports: seq<UpstreamPort>)
    ensures Targets(eps + [e], ports) == Targets(eps, ports) + PortTargets(e.ip, ContainerPorts(ports))
  {
    if eps == [] {
      assert eps + [e] == [e] && [e][1..] == [];
    } else {
      assert (eps + [e])[1..] == eps[1..] + [e];
      TargetsAppend(eps[1..], e, ports);
    }
  }

  lemma PortTargetsStep(ip: string, ports: seq<UpstreamPort>, j: nat)
    requires j < |ports|
    ensures PortTargets(ip, ContainerPorts(ports[..j + 1])) ==
            PortTargets(ip, ContainerPorts(ports[..j])) +
            if ports[j].kind == ContainerPort then [Target(ip, ports[j].number)] else []
  {
    hide ContainerPorts;
    assert ports[..j + 1] == ports[..j] + [ports[j]];
    ContainerPortsAppend(ports[..j], ports[j]);
  }

  method ContainerPortsEndpoints(eps: seq<Endpoint>, ports: seq<UpstreamPort>) returns (targets: seq<Target>)
    ensures targets == Targets(eps, ports)
  {
    targets := [];
    for i := 0 to |eps|
      invariant targets == Targets(eps[..i], ports)
    {
      ghost var before := targets;
      for j := 0 to |ports|
        invariant targets == before + PortTargets(eps[i].ip, ContainerPorts(ports[..j]))
      {
        PortTargetsStep(eps[i].ip, ports, j);
        if ports[j].kind == ContainerPort {
          targets := targets + [Target(eps[i].ip, ports[j].number)];
        }
      }
      assert ports[..|ports|] == ports;
      assert eps[..i + 1] == eps[..i] + [eps[i]];
      TargetsAppend(eps[..i], eps[i], ports);
    }
    assert eps[..|eps|] == eps;
  }

  function AppCluster(p: Protection): Cluster
    requires !ShouldSkip(p)
  {
    Cluster(AppName(p), Targets(FirstUpstream(p).endpoints, FirstUpstream(p).ports), false)
  }

  function MirrorCluster(p: Protection): Cluster
    requires !ShouldSkip(p) && Mirrored(p)
  {
    var m := FirstUpstream(p).mirror.value;
    Cluster(MirrorName(AppName(p)), [Target(if m.dns != "" then m.dns else m.ip, m.port)], true)
  }

  function ClustersOf(p: Protection): seq<Cluster> {
    if ShouldSkip(p) then []
    else [AppCluster(p)] + if Mirrored(p) then [MirrorCluster(p)] else []
  }

  function AppClusters(ps: seq<Protection>): seq<Cluster> {
    if ps == [] then [] else ClustersOf(ps[0]) + AppClusters(ps[1..])
  }

  function XprocCluster(socket: string): Cluster {
    Cluster(XPROC_CLUSTER, [Target(socket, 0)], false)
  }

  function Clusters(ps: seq<Protection>, socket: string): seq<Cluster> {
    AppClusters(ps) + [XprocCluster(socket)]
  }

  lemma {:induction false} AppClustersAppend(ps: seq<Protection>, p: Protection)
    ensures AppClusters(ps + [p]) == AppClusters(ps) + ClustersOf(p)
  {
    if ps == [] {
      assert ps + [p] == [p] && [p][1..] == [];
    } else {
      assert (ps + [p])[1..] == ps[1..] + [p];
      AppClustersAppend(ps[1..], p);
    }
  }

  method BuildClusters(ps: seq<Protection>, socket: string) returns (clusters: seq<Cluster>)
    ensures clusters == Clusters(ps, socket)
  {
    clusters := [];
    for i := 0 to |ps|
      invariant clusters == AppClusters(ps[..i])
    {
      assert ps[..i + 1] == ps[..i] + [ps[i]];
      AppClustersAppend(ps[..i], ps[i]);
      ghost var before := clusters;
      if !ShouldSkip(ps[i]) {
        var u := FirstUpstream(ps[i]);
        var targets := ContainerPortsEndpoints(u.endpoints, u.ports);
        clusters := clusters + [Cluster(AppName(ps[i]), targets, false)];
        if u.mirror.Some? && u.mirror.value.enabled {
          var address := u.mirror.value.ip;
          if u.mirror.value.dns != "" {
            address := u.mirror.value.dns;
          }
          clusters := clusters + [Cluster(MirrorName(AppName(ps[i])), [Target(address, u.mirror.value.port)], true)];
        }
      }
      assert clusters == before + ClustersOf(ps[i]);
    }
    assert ps[..|ps|] == ps;
    clusters := clusters + [XprocCluster(socket)];
  }

  /** The clusters a protection asks for: its endpoints at its container ports under the name of
      the application, and, if its mirror policy is enabled, the mirror under a name of its own,
      by DNS name when there is one. */
  predicate AsksFor(p: Protection, c: Cluster) {
    && p.application.Some? && p.application.value.ingress != []
    && var app := p.application.value;
       var u := app.ingress[0].upstream;
       || c == Cluster(app.name, Targets(u.endpoints, u.ports), false)
       || (&& u.mirror.Some? && u.mirror.value.enabled
           && var m := u.mirror.value;
              c == Cluster(app.name + "-mirrored", [Target(if m.dns == "" then m.ip else m.dns, m.port)], true))
  }

  lemma AsksForIff(p: Protection, c: Cluster)
    ensures c in ClustersOf(p) <==> AsksFor(p, c)
  {
  }

  lemma {:induction false} AppClustersIff(ps: seq<Protection>, c: Cluster)
    ensures c in AppClusters(ps) <==> exists i :: 0 <= i < |ps| && AsksFor(ps[i], c)
  {
    hide ClustersOf, AsksFor;
    if ps != [] {
      AsksForIff(ps[0], c);
      AppClustersIff(ps[1..], c);
      if i :| 0 <= i < |ps| && AsksFor(ps[i], c) {
        assert i > 0 ==> ps[1..][i - 1] == ps[i];
      }
      if i :| 0 <= i < |ps[1..]| && AsksFor(ps[1..][i], c) {
        assert ps[i + 1] == ps[1..][i];
      }
    }
  }

  /** The built clusters are exactly those some protection asks for, and that of the processor. */
  lemma ClustersExactly(ps: seq<Protection>, socket: string, c: Cluster)
    ensures c in Clusters(ps, socket) <==>
            || c == Cluster("wafie_xproc_cluster", [Target(socket, 0)], false)
            || exists i :: 0 <= i < |ps| && AsksFor(ps[i], c)
  {
    hide AsksFor, AppClusters;
    AppClustersIff(ps, c);
  }

  // ---------- snapshot closure ----------

  predicate HasCluster(cs: seq<Cluster>, name: string) {
    exists i :: 0 <= i < |cs| && cs[i].name == name
  }

  lemma {:induction false} ClusterBuilt(ps: seq<Protection>, i: nat, c: Cluster)
    requires i < |ps| && c in ClustersOf(ps[i])
    ensures c in AppClusters(ps)
  {
    if i > 0 {
      ClusterBuilt(ps[1..], i - 1, c);
    }
  }

  /** Every cluster a built listener refers to, by its route, its mirrors or its processing
      filter, is among the built clusters. */
  lemma SnapshotClosure(ps: seq<Protection>, socket: string, i: nat)
    requires Complete(ps) && i < |ps| && ListenerOf(ps[i], i).Some?
    ensures var l := ListenerOf(ps[i], i).value;
            var cs := Clusters(ps, socket);
            && HasCluster(cs, l.route.cluster)
            && (forall m :: m in l.route.mirrors ==> HasCluster(cs, m))
            && (l.processor.Some? ==> HasCluster(cs, l.processor.value))
    ensures ps[i].mode == On <==> ListenerOf(ps[i], i).value.processor.Some?
  {
    var cs := Clusters(ps, socket);
    Named(cs, AppCluster(ps[i]), ps, i, socket);
    if Mirrored(ps[i]) {
      Named(cs, MirrorCluster(ps[i]), ps, i, socket);
    }
    assert cs[|cs| - 1].name == XPROC_CLUSTER;
  }

  lemma Named(cs: seq<Cluster>, c: Cluster, ps: seq<Protection>, i: nat, socket: string)
    requires i < |ps| && c in ClustersOf(ps[i]) && cs == Clusters(ps, socket)
    ensures c in cs && HasCluster(cs, c.name)
  {
    ClusterBuilt(ps, i, c);
    var k :| 0 <= k < |AppClusters(ps)| && AppClusters(ps)[k] == c;
    assert cs[k] == c;
  }

  // ---------- targets ----------

  lemma {:induction false} TargetAt(eps: seq<Endpoint>, ports: seq<UpstreamPort>, i: nat, j: nat)
    requires i < |eps| && j < |ContainerPorts(ports)|
    ensures |Targets(eps, ports)| == |eps| * |ContainerPorts(ports)|
    ensures i * |ContainerPorts(ports)| + j < |Targets(eps, ports)|
    ensures Targets(eps, ports)[i * |ContainerPorts(ports)| + j] == Target(eps[i].ip, ContainerPorts(ports)[j].number)
  {
    hide ContainerPorts;
    TargetCount(eps, ports);
    var n := |ContainerPorts(ports)|;
    if i > 0 {
      TargetAt(eps[1..], ports, i - 1, j);
      TargetCount(eps[1..], ports);
      OneRowOn(i, n, j);
      LaterTarget(eps, ports, (i - 1) * n + j);
    } else {
      OneRowOn(|eps|, n, 0);
    }
  }

  lemma LaterTarget(eps: seq<Endpoint>, ports: seq<UpstreamPort>, k: nat)
    requires eps != [] && k < |Targets(eps[1..], ports)|
    ensures var n := |ContainerPorts(ports)|;
            n + k < |Targets(eps, ports)| && Targets(eps, ports)[n + k] == Targets(eps[1..], ports)[k]
  {
    hide ContainerPorts;
  }

  lemma OneRowOn(i: nat, n: nat, j: nat)
    requires i > 0
    ensures i * n + j == n + ((i - 1) * n + j) && i * n >= n
  {
  }

  /** An application cluster has one target per endpoint and container port. */
  lemma {:induction false} TargetCount(eps: seq<Endpoint>, ports: seq<UpstreamPort>)
    ensures |Targets(eps, ports)| == |eps| * |ContainerPorts(ports)|
  {
    if eps != [] {
      TargetCount(eps[1..], ports);
      var n := |ContainerPorts(ports)|;
      assert |eps| * n == n + (|eps| - 1) * n;
    }
  }

  lemma {:induction false} TargetListed(eps: seq<Endpoint>, ports: seq<UpstreamPort>, t: Target)
    requires t in Targets(eps, ports)
    ensures exists e, p :: e in eps && p in ports && p.kind == ContainerPort && t == Target(e.ip, p.number)
  {
    var here := PortTargets(eps[0].ip, ContainerPorts(ports));
    if t in here {
      var i :| 0 <= i < |here| && here[i] == t;
      ContainerPortsListed(ports, i);
      assert eps[0] in eps;
    } else {
      TargetListed(eps[1..], ports, t);
    }
  }

  lemma {:induction false} ContainerPortsListed(ports: seq<UpstreamPort>, i: nat)
    requires i < |ContainerPorts(ports)|
    ensures ContainerPorts(ports)[i] in ports && ContainerPorts(ports)[i].kind == ContainerPort
  {
    if ports[0].kind == ContainerPort {
      if i > 0 {
        ContainerPortsListed(ports[1..], i - 1);
      }
    } else {
      ContainerPortsListed(ports[1..], i);
    }
  }

  // ---------- cluster names ----------

  lemma {:induction false} ContainerPortIn(ports: seq<UpstreamPort>, i: nat) returns (j: nat)
    requires i < |ports| && ports[i].kind == ContainerPort
    ensures j < |ContainerPorts(ports)| && ContainerPorts(ports)[j] == ports[i]
  {
    if i == 0 {
      j := 0;
    } else {
      j := ContainerPortIn(ports[1..], i - 1);
      j := if ports[0].kind == ContainerPort then j + 1 else j;
    }
  }

  /** The targets are exactly the listed endpoints at the listed container ports. */
  lemma TargetIff(eps: seq<Endpoint>, ports: seq<UpstreamPort>, t: Target)
    ensures t in Targets(eps, ports) <==>
            exists e, p :: e in eps && p in ports && p.kind == ContainerPort && t == Target(e.ip, p.number)
  {
    if t in Targets(eps, ports) {
      TargetListed(eps, ports, t);
    }
    if e, p :| e in eps && p in ports && p.kind == ContainerPort && t == Target(e.ip, p.number) {
      var i :| 0 <= i < |eps| && eps[i] == e;
      var k :| 0 <= k < |ports| && ports[k] == p;
      var j := ContainerPortIn(ports, k);
      TargetAt(eps, ports, i, j);
    }
  }

  predicate UniqueNames(cs: seq<Cluster>) {
    forall i, j :: 0 <= i < j < |cs| ==> cs[i].name != cs[j].name
  }

  /** What keeps cluster names apart, said of the applications. */
  ghost predicate NamesApart(ps: seq<Protection>)
    requires Complete(ps)
  {
    && (forall i, j :: 0 <= i < j < |ps| ==> AppName(ps[i]) != AppName(ps[j]))
    && (forall i, j :: 0 <= i < |ps| && 0 <= j < |ps| && i != j && Mirrored(ps[j]) ==>
          AppName(ps[i]) != MirrorName(AppName(ps[j])))
    && (forall i :: 0 <= i < |ps| ==> AppName(ps[i]) != XPROC_CLUSTER)
    && (forall i :: 0 <= i < |ps| && Mirrored(ps[i]) ==> MirrorName(AppName(ps[i])) != XPROC_CLUSTER)
  }

  /** Where the clusters of protection i start. */
  function Offset(ps: seq<Protection>, i: nat): nat
    requires i <= |ps|
  {
    if i == 0 then 0 else |ClustersOf(ps[0])| + Offset(ps[1..], i - 1)
  }

  lemma {:induction false} PositionOf(ps: seq<Protection>, i: nat, m: nat)
    requires i < |ps| && m < |ClustersOf(ps[i])|
    ensures Offset(ps, i) + m < |AppClusters(ps)|
    ensures AppClusters(ps)[Offset(ps, i) + m] == ClustersOf(ps[i])[m]
  {
    hide ClustersOf;
    if i > 0 {
      PositionOf(ps[1..], i - 1, m);
    }
  }

  lemma {:induction false} OffsetGrows(ps: seq<Protection>, i: nat, j: nat)
    requires i < j <= |ps|
    ensures Offset(ps, i) + |ClustersOf(ps[i])| <= Offset(ps, j)
  {
    hide ClustersOf;
    if i > 0 {
      OffsetGrows(ps[1..], i - 1, j - 1);
    }
  }

  lemma {:induction false} OriginOf(ps: seq<Protection>, k: nat) returns (i: nat, m: nat)
    requires k < |AppClusters(ps)|
    ensures i < |ps| && m < |ClustersOf(ps[i])| && k == Offset(ps, i) + m
    ensures AppClusters(ps)[k] == ClustersOf(ps[i])[m]
  {
    hide ClustersOf;
    var n := |ClustersOf(ps[0])|;
    if k < n {
      i, m := 0, k;
    } else {
      var i', m' := OriginOf(ps[1..], k - n);
      i, m := i' + 1, m';
    }
  }

  lemma MirrorNameInjective(a: string, b: string)
    ensures MirrorName(a) == MirrorName(b) ==> a == b
    ensures MirrorName(a) != a
  {
    assert MirrorName(a)[..|a|] == a && MirrorName(b)[..|b|] == b;
  }

  /** The name of cluster m of a protection: the application's, or that of its mirror. */
  lemma NameOf(p: Protection, m: nat)
    requires m < |ClustersOf(p)|
    ensures !ShouldSkip(p) && m <= 1 && (m == 1 ==> Mirrored(p))
    ensures ClustersOf(p)[m].name == if m == 0 then AppName(p) else MirrorName(AppName(p))
  {
  }

  lemma ApartUnique(ps: seq<Protection>, k1: nat, k2: nat)
    requires Complete(ps) && NamesApart(ps) && k1 < k2 < |AppClusters(ps)|
    ensures AppClusters(ps)[k1].name != AppClusters(ps)[k2].name
  {
    hide ClustersOf, AppClusters;
    var i1, m1 := OriginOf(ps, k1);
    var i2, m2 := OriginOf(ps, k2);
    NameOf(ps[i1], m1);
    NameOf(ps[i2], m2);
    MirrorNameInjective(AppName(ps[i1]), AppName(ps[i2]));
    MirrorNameInjective(AppName(ps[i2]), AppName(ps[i1]));
  }

  lemma UniqueApart(ps: seq<Protection>, i1: nat, m1: nat, i2: nat, m2: nat)
    requires Complete(ps) && UniqueNames(AppClusters(ps))
    requires i1 < |ps| && i2 < |ps| && m1 < |ClustersOf(ps[i1])| && m2 < |ClustersOf(ps[i2])| && i1 != i2
    ensures ClustersOf(ps[i1])[m1].name != ClustersOf(ps[i2])[m2].name
  {
    hide ClustersOf, AppClusters;
    PositionOf(ps, i1, m1);
    PositionOf(ps, i2, m2);
    if i1 < i2 {
      OffsetGrows(ps, i1, i2);
    } else {
      OffsetGrows(ps, i2, i1);
    }
  }

  /** Cluster names are unique if and only if application names are, none of them is the mirror
      name of another mirrored application, and none of these names is the processor's. */
  lemma UniqueNamesTheorem(ps: seq<Protection>, socket: string)
    requires Complete(ps)
    ensures UniqueNames(Clusters(ps, socket)) <==> NamesApart(ps)
  {
    var apps, cs := AppClusters(ps), Clusters(ps, socket);
    assert forall i :: 0 <= i < |apps| ==> cs[i] == apps[i];
    assert cs[|apps|].name == XPROC_CLUSTER;
    if NamesApart(ps) {
      forall i, j | 0 <= i < j < |cs| ensures cs[i].name != cs[j].name {
        if j < |apps| {
          ApartUnique(ps, i, j);
        } else {
          var k, m := OriginOf(ps, i);
          NameOf(ps[k], m);
        }
      }
    }
    if UniqueNames(cs) {
      UniqueGivesApart(ps, socket);
    }
  }

  lemma UniqueGivesApart(ps: seq<Protection>, socket: string)
    requires Complete(ps) && UniqueNames(Clusters(ps, socket))
    ensures NamesApart(ps)
  {
    var apps, cs := AppClusters(ps), Clusters(ps, socket);
    assert forall i :: 0 <= i < |apps| ==> cs[i] == apps[i];
    assert UniqueNames(apps);
    forall i, j | 0 <= i < |ps| && 0 <= j < |ps| && i != j
      ensures AppName(ps[i]) != AppName(ps[j])
      ensures Mirrored(ps[j]) ==> AppName(ps[i]) != MirrorName(AppName(ps[j]))
    {
      UniqueApart(ps, i, 0, j, 0);
      if Mirrored(ps[j]) {
        UniqueApart(ps, i, 0, j, 1);
      }
    }
    forall i | 0 <= i < |ps|
      ensures AppName(ps[i]) != XPROC_CLUSTER
      ensures Mirrored(ps[i]) ==> MirrorName(AppName(ps[i])) != XPROC_CLUSTER
    {
      assert cs[|apps|].name == XPROC_CLUSTER;
      PositionOf(ps, i, 0);
      assert cs[Offset(ps, i)].name == AppName(ps[i]);
      if Mirrored(ps[i]) {
        PositionOf(ps, i, 1);
        assert cs[Offset(ps, i) + 1].name == MirrorName(AppName(ps[i]));
      }
    }
  }
}
