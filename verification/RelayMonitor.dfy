/** The relay with its health monitor: one request and the monitor goroutine interleave step by
    step, and meet only on the two unbuffered channels. */
module RelayMonitor {
  import opened Optional
  import opened Nft
  import opened Relay

  datatype After = ThenIdle | ThenStart

  /** Where the request is. */
  datatype Rpc =
    | Idle
    | Lookup(restart: bool)        // about to look the proxy up
    | StopWait(after: After)       // sending on the stop channel
    | KillStep(after: After)       // in stopInternal, before the kill
    | DeleteStep(after: After)     // in stopInternal, before the table is deleted
    | StartWait                    // sending on the start channel
    | LaunchStep                   // before startInternal

  /** Where the monitor is. Only Waiting is at the select and can receive. */
  datatype Monitor = Waiting | Checking | Kill | Delete | Resolve | Launch | ExitKill | ExitDelete | Exited

  /** handedOff holds from the hand-off of a stop to the hand-off of the next start. */
  datatype World = World(relay: RelayState, active: bool, rpc: Rpc, monitor: Monitor, handedOff: bool, crashed: bool)

  datatype Step =
    | RpcStart(cfg: Options)
    | RpcStop
    | RpcLookup(answer: Option<string>)
    | RpcHandoffStop
    | RpcKill
    | RpcDelete(fault: bool)
    | RpcHandoffStart
    | RpcLaunch(fault: bool, dies: bool)
    | Tick
    | Checked(netnsOk: bool, proxyOk: bool)
    | MonitorKill
    | MonitorDelete(fault: bool)
    | MonitorResolve(answer: Option<string>)
    | MonitorLaunch(fault: bool, dies: bool)
    | SocatExits

  const INIT := World(FRESH, true, Idle, Waiting, false, false)

  /** A panic of the monitor ends the relay. */
  function Crash(w: World): World {
    w.(crashed := true)
  }

  function WithOptions(w: World, o: Option<Options>): World {
    w.(relay := w.relay.(options := o))
  }

  function Killed(w: World): World {
    w.(relay := w.relay.(socat := None))
  }

  function Deleted(w: World, fault: bool): World {
    w.(relay := w.relay.(nft := Unprogrammed(w.relay.nft, fault)))
  }

  function Begin(w: World, cfg: Options): World {
    if NoProxy(w.relay) then WithOptions(w, Some(cfg)).(rpc := Lookup(false))
    else if ShouldRestart(w.relay.options.value, cfg) then WithOptions(w, Some(cfg)).(rpc := Lookup(true))
    else w.(rpc := StartWait)
  }

  /** One step of the request, or None when it is not its turn. A panic of the request (a stop
      before any process was launched, a launch without options) is recovered by the HTTP server:
      the request is over and the relay lives on. */
  function RpcNext(w: World, s: Step): Option<World> {
    match s
    case RpcStart(cfg) => if w.rpc.Idle? then Some(Begin(w, cfg)) else None
    case RpcStop =>
      if w.rpc.Idle? then
        Some((if NoProxy(w.relay) then WithOptions(w, None) else w).(rpc := StopWait(ThenIdle)))
      else None
    case RpcLookup(answer) =>
      if w.rpc.Lookup? then
        Some(WithOptions(w, Resolved(w.relay.options, answer))
             .(rpc := if w.rpc.restart then StopWait(ThenStart) else StartWait))
      else None
    case RpcHandoffStop =>
      if w.rpc.StopWait? && w.monitor.Waiting? then
        Some(w.(active := false, handedOff := true, rpc := KillStep(w.rpc.after)))
      else None
    case RpcKill =>
      if w.rpc.KillStep? then
        Some(if !w.relay.started then w.(rpc := Idle) else Killed(w).(rpc := DeleteStep(w.rpc.after)))
      else None
    case RpcDelete(fault) =>
      if w.rpc.DeleteStep? then
        Some(Deleted(w, fault).(rpc := if w.rpc.after.ThenStart? then StartWait else Idle))
      else None
    case RpcHandoffStart =>
      if w.rpc.StartWait? && w.monitor.Waiting? then
        Some(w.(active := true, handedOff := false, rpc := LaunchStep))
      else None
    case RpcLaunch(fault, dies) =>
      if w.rpc.LaunchStep? then
        Some((if w.relay.options.None? then w else w.(relay := Launched(w.relay, fault, dies))).(rpc := Idle))
      else None
    case _ => None
  }

  /** One step of the monitor or of the socat process. */
  function MonitorNext(w: World, s: Step): Option<World> {
    match s
    case Tick =>
      if w.monitor.Waiting? then Some(if !NoProxy(w.relay) && w.active then w.(monitor := Checking) else w) else None
    case Checked(netnsOk, proxyOk) =>
      if w.monitor.Checking? then
        Some(w.(monitor := if !netnsOk then ExitKill else if !proxyOk then Kill else Waiting))
      else None
    case MonitorKill =>
      if w.monitor.Kill? || w.monitor.ExitKill? then
        Some(if !w.relay.started then Crash(w)
             else Killed(w).(monitor := if w.monitor.Kill? then Delete else ExitDelete))
      else None
    case MonitorDelete(fault) =>
      if w.monitor.Delete? || w.monitor.ExitDelete? then
        Some(Deleted(w, fault).(monitor := if w.monitor.Delete? then Resolve else Exited))
      else None
    case MonitorResolve(answer) =>
      if w.monitor.Resolve? then
        Some(WithOptions(w, Resolved(w.relay.options, answer)).(monitor := Launch))
      else None
    case MonitorLaunch(fault, dies) =>
      if w.monitor.Launch? then
        Some(if w.relay.options.None? then Crash(w)
             else w.(relay := Launched(w.relay, fault, dies), monitor := Waiting))
      else None
    case SocatExits => Some(Killed(w))
    case _ => None
  }

  function Next(w: World, s: Step): Option<World> {
    if w.crashed || w.monitor.Exited? then None
    else
      var r := RpcNext(w, s);
      if r.Some? then r else MonitorNext(w, s)
  }

  function Run(w: World, steps: seq<Step>): Option<World>
    decreases |steps|
  {
    if steps == [] then Some(w)
    else if Next(w, steps[0]).None? then None
    else Run(Next(w, steps[0]).value, steps[1..])
  }

  // ---------- the hand-off ----------

  predicate InStopInternal(rpc: Rpc) {
    rpc.KillStep? || rpc.DeleteStep?
  }

  /** From the hand-off of a stop to that of the next start the monitor is switched off and at
      its select, and the request is in the stopInternal of a stop only in that time. */
  predicate HandoffInv(w: World) {
    && (w.handedOff ==> !w.active && w.monitor.Waiting?)
    && (InStopInternal(w.rpc) ==> w.handedOff)
    && (w.rpc.LaunchStep? ==> !w.handedOff)
  }

  lemma NextHandoff(w: World, s: Step)
    requires HandoffInv(w) && Next(w, s).Some?
    ensures HandoffInv(Next(w, s).value)
  {
  }

  /** Monitor hand-off, in every interleaving: while a stop runs its stopInternal, and from then
      until the next start has handed off, the monitor is not checking and not restarting. */
  lemma {:induction false} HandoffTheorem(w: World, steps: seq<Step>)
    requires HandoffInv(w) && Run(w, steps).Some?
    ensures HandoffInv(Run(w, steps).value)
    decreases |steps|
  {
    hide Next, HandoffInv;
    if steps != [] {
      NextHandoff(w, steps[0]);
      HandoffTheorem(Next(w, steps[0]).value, steps[1..]);
    }
  }

  /** Hence no step of the monitor changes anything in that time. */
  lemma MonitorIdleWhenHandedOff(w: World, s: Step)
    requires HandoffInv(w) && w.handedOff && Next(w, s).Some?
    requires RpcNext(w, s).None?
    ensures Next(w, s).value == w || s.SocatExits?
  {
  }

  // ---------- the hand-off, told of whole runs ----------

  /** What the monitor does past its select: checks, and the restart or exit that follow. */
  predicate MonitorActs(s: Step) {
    s.Checked? || s.MonitorKill? || s.MonitorDelete? || s.MonitorResolve? || s.MonitorLaunch?
  }

  predicate NoStartHandoff(steps: seq<Step>) {
    forall i :: 0 <= i < |steps| ==> !steps[i].RpcHandoffStart?
  }

  lemma {:induction false} RunSplit(w: World, steps: seq<Step>, k: nat)
    requires k <= |steps| && Run(w, steps).Some?
    ensures Run(w, steps[..k]).Some?
    ensures Run(Run(w, steps[..k]).value, steps[k..]) == Run(w, steps)
    decreases k
  {
    hide Next;
    if k == 0 {
      assert steps[0..] == steps;
    } else {
      RunSplit(Next(w, steps[0]).value, steps[1..], k - 1);
      assert steps[..k][1..] == steps[1..][..k - 1] && steps[1..][k - 1..] == steps[k..];
    }
  }

  lemma RunOne(w: World, steps: seq<Step>, k: nat)
    requires k < |steps| && Run(w, steps).Some?
    ensures Run(w, steps[..k]).Some? && Next(Run(w, steps[..k]).value, steps[k]).Some?
    ensures Run(w, steps[..k + 1]) == Next(Run(w, steps[..k]).value, steps[k])
  {
    hide Next;
    RunSplit(w, steps, k + 1);
    RunSplit(w, steps[..k + 1], k);
    assert steps[..k + 1][..k] == steps[..k] && steps[..k + 1][k..] == [steps[k]] && [steps[k]][1..] == [];
  }

  lemma {:induction false} OffUntilStart(w: World, steps: seq<Step>)
    requires HandoffInv(w) && w.handedOff && NoStartHandoff(steps) && Run(w, steps).Some?
    ensures HandoffInv(Run(w, steps).value) && Run(w, steps).value.handedOff
    decreases |steps|
  {
    if steps != [] {
      assert !steps[0].RpcHandoffStart?;
      NextHandoff(w, steps[0]);
      OffUntilStart(Next(w, steps[0]).value, steps[1..]);
    }
  }

  /** In every run, between the hand-off of a stop and the next hand-off of a start, the monitor
      neither checks nor restarts anything. */
  lemma NoRestartBetween(steps: seq<Step>, i: nat, j: nat)
    requires i < j < |steps| && Run(INIT, steps).Some?
    requires steps[i].RpcHandoffStop? && NoStartHandoff(steps[i + 1..j])
    ensures !MonitorActs(steps[j])
  {
    hide Run, HandoffInv, Next, MonitorActs;
    RunOne(INIT, steps, i);
    RunOne(INIT, steps, j);
    assert HandoffInv(INIT) by { FreshHandoff(); }
    HandoffTheorem(INIT, steps[..i + 1]);
    HandsOff(Run(INIT, steps[..i]).value, steps[i]);
    RunSplit(INIT, steps[..j], i + 1);
    assert steps[..j][..i + 1] == steps[..i + 1] && steps[..j][i + 1..] == steps[i + 1..j];
    OffUntilStart(Run(INIT, steps[..i + 1]).value, steps[i + 1..j]);
    OffActs(Run(INIT, steps[..j]).value, steps[j]);
  }

  lemma FreshHandoff()
    ensures HandoffInv(INIT)
  {
  }

  lemma HandsOff(w: World, s: Step)
    requires s.RpcHandoffStop? && Next(w, s).Some?
    ensures Next(w, s).value.handedOff
  {
  }

  lemma OffActs(w: World, s: Step)
    requires HandoffInv(w) && w.handedOff && Next(w, s).Some?
    ensures !MonitorActs(s)
  {
  }

  /** In stopInternal the kill comes first. */
  ghost predicate StopInv(w: World) {
    HandoffInv(w) && Single(w.relay.nft) && (w.rpc.DeleteStep? ==> w.relay.socat.None?)
  }

  lemma NextStopInv(w: World, s: Step)
    requires StopInv(w) && Next(w, s).Some?
    ensures StopInv(Next(w, s).value)
  {
    NextHandoff(w, s);
    match s
    case RpcDelete(fault) => UnprogrammedEffect(w.relay.nft, fault);
    case MonitorDelete(fault) => UnprogrammedEffect(w.relay.nft, fault);
    case RpcLaunch(fault, dies) => LaunchedSingle(w.relay, fault, dies);
    case MonitorLaunch(fault, dies) => LaunchedSingle(w.relay, fault, dies);
    case _ =>
  }

  lemma LaunchedSingle(r: RelayState, fault: bool, dies: bool)
    requires Single(r.nft)
    ensures r.options.Some? ==> Single(Launched(r, fault, dies).nft)
  {
    if r.options.Some? {
      ProgrammedEffect(r.nft, r.options.value, fault);
    }
  }

  lemma {:induction false} RunStopInv(w: World, steps: seq<Step>)
    requires StopInv(w) && Run(w, steps).Some?
    ensures StopInv(Run(w, steps).value)
    decreases |steps|
  {
    hide Next, StopInv;
    if steps != [] {
      NextStopInv(w, steps[0]);
      RunStopInv(Next(w, steps[0]).value, steps[1..]);
    }
  }

  predicate Down(w: World) {
    HandoffInv(w) && w.handedOff && w.relay.socat.None? && w.relay.nft.Absent?
  }

  lemma {:induction false} DownUntilStart(w: World, steps: seq<Step>)
    requires Down(w) && NoStartHandoff(steps) && Run(w, steps).Some?
    ensures Down(Run(w, steps).value)
    decreases |steps|
  {
    if steps != [] {
      assert !steps[0].RpcHandoffStart?;
      UnprogrammedEffect(Absent, false);
      UnprogrammedEffect(Absent, true);
      NextHandoff(w, steps[0]);
      DownUntilStart(Next(w, steps[0]).value, steps[1..]);
    }
  }

  /** A stopped relay stays stopped: in every run, after a stop has deleted the table there is
      neither a process nor a table until a start has handed off. */
  lemma StaysStopped(steps: seq<Step>, i: nat, j: nat)
    requires i < j <= |steps| && Run(INIT, steps).Some?
    requires steps[i] == RpcDelete(false) && NoStartHandoff(steps[i + 1..j])
    ensures Run(INIT, steps[..j]).Some?
    ensures var r := Run(INIT, steps[..j]).value.relay; r.socat.None? && r.nft.Absent?
  {
    RunSplit(INIT, steps, j);
    RunOne(INIT, steps, i);
    var w := Run(INIT, steps[..i]).value;
    RunStopInv(INIT, steps[..i]);
    UnprogrammedEffect(w.relay.nft, false);
    NextHandoff(w, steps[i]);
    RunSplit(INIT, steps[..j], i + 1);
    assert steps[..j][..i + 1] == steps[..i + 1] && steps[..j][i + 1..] == steps[i + 1..j];
    DownUntilStart(Run(INIT, steps[..i + 1]).value, steps[i + 1..j]);
  }

  // ---------- the table, with everything interleaved ----------

  /** The addresses a lookup of a name may answer with. */
  type Resolver = string -> set<string>

  /** Steps the environment may take: the table can be deleted, requests carry no address of
      their own, and lookups answer with an address of the name in the current options. */
  predicate Legal(dns: Resolver, w: World, s: Step) {
    match s
    case RpcStart(cfg) => cfg.proxyIp == ""
    case RpcDelete(fault) => !fault
    case MonitorDelete(fault) => !fault
    case RpcLookup(answer) => Answers(dns, w.relay.options, answer)
    case MonitorResolve(answer) => Answers(dns, w.relay.options, answer)
    case _ => true
  }

  predicate Answers(dns: Resolver, options: Option<Options>, answer: Option<string>) {
    answer.Some? && options.Some? ==> answer.value in dns(options.value.fqdn)
  }

  ghost predicate LegalRun(dns: Resolver, w: World, steps: seq<Step>)
    decreases |steps|
  {
    steps == [] ||
    (Legal(dns, w, steps[0]) && Next(w, steps[0]).Some? && LegalRun(dns, Next(w, steps[0]).value, steps[1..]))
  }

  /** Between the change of the options and the end of the stop that follows it. */
  predicate Reconfiguring(rpc: Rpc) {
    match rpc
    case Lookup(restart) => restart
    case StopWait(after) => after.ThenStart?
    case KillStep(after) => after.ThenStart?
    case DeleteStep(after) => after.ThenStart?
    case _ => false
  }

  /** Outside a reconfiguration the table agrees with the options, and so does the process if it
      was launched with an address. */
  ghost predicate Consistent(w: World) {
    && Single(w.relay.nft)
    && (!Reconfiguring(w.rpc) ==> Agrees(w.relay))
  }

  predicate Busy(m: Monitor) {
    !m.Waiting? && !m.Exited?
  }

  /** Everything the proof carries along. */
  ghost predicate Inv(dns: Resolver, w: World) {
    && HandoffInv(w)
    && Consistent(w)
    && (w.relay.nft.Present? || w.relay.socat.Some? ==> w.relay.started)
    && (w.relay.options.Some? && w.relay.options.value.proxyIp != "" ==>
          w.relay.options.value.fqdn != "" && w.relay.options.value.proxyIp in dns(w.relay.options.value.fqdn))
    && (Busy(w.monitor) ==> w.relay.options.Some? && (Reconfiguring(w.rpc) || w.relay.options.value.proxyIp != ""))
    && (Reconfiguring(w.rpc) || w.rpc == Lookup(false) || w.rpc.LaunchStep? || w.rpc.StartWait? ==> w.relay.options.Some?)
    && (w.rpc == Lookup(false) ==> NoProxy(w.relay))
    && (w.handedOff && !w.rpc.KillStep? ==> w.relay.socat.None?)
    && (w.handedOff && !InStopInternal(w.rpc) ==> w.relay.nft.Absent?)
  }

  ghost predicate SingleAnswer(dns: Resolver) {
    forall name, a, b :: name != "" && a in dns(name) && b in dns(name) ==> a == b
  }

  ghost predicate Addresses(dns: Resolver) {
    forall name :: "" !in dns(name)
  }

  lemma RequestKeeps(dns: Resolver, w: World, s: Step)
    requires SingleAnswer(dns) && Addresses(dns) && Inv(dns, w) && Legal(dns, w, s)
    requires (s.RpcStart? || s.RpcStop? || s.RpcLookup?) && RpcNext(w, s).Some?
    ensures Inv(dns, RpcNext(w, s).value)
  {
    hide Single;
  }

  lemma LaunchKeeps(dns: Resolver, w: World, s: Step)
    requires Inv(dns, w) && (s.RpcHandoffStart? || s.RpcLaunch?) && RpcNext(w, s).Some?
    ensures Inv(dns, RpcNext(w, s).value)
  {
    if s.RpcLaunch? {
      ProgrammedEffect(w.relay.nft, w.relay.options.value, s.fault);
    }
  }

  lemma StopKeeps(dns: Resolver, w: World, s: Step)
    requires Inv(dns, w) && Legal(dns, w, s)
    requires (s.RpcHandoffStop? || s.RpcKill? || s.RpcDelete?) && RpcNext(w, s).Some?
    ensures Inv(dns, RpcNext(w, s).value)
  {
    UnprogrammedEffect(w.relay.nft, false);
  }

  lemma RpcKeeps(dns: Resolver, w: World, s: Step)
    requires SingleAnswer(dns) && Addresses(dns)
    requires Inv(dns, w) && Legal(dns, w, s) && RpcNext(w, s).Some?
    ensures Inv(dns, RpcNext(w, s).value)
  {
    hide Inv, Legal, SingleAnswer, Addresses;
    if s.RpcStart? || s.RpcStop? || s.RpcLookup? {
      RequestKeeps(dns, w, s);
    } else if s.RpcHandoffStart? || s.RpcLaunch? {
      LaunchKeeps(dns, w, s);
    } else {
      StopKeeps(dns, w, s);
    }
  }

  lemma MonitorKeeps(dns: Resolver, w: World, s: Step)
    requires SingleAnswer(dns) && Addresses(dns)
    requires Inv(dns, w) && Legal(dns, w, s) && MonitorNext(w, s).Some?
    ensures Inv(dns, MonitorNext(w, s).value)
  {
    UnprogrammedEffect(w.relay.nft, false);
    if w.relay.options.Some? && s.MonitorLaunch? {
      ProgrammedEffect(w.relay.nft, w.relay.options.value, s.fault);
    }
  }

  lemma NextKeeps(dns: Resolver, w: World, s: Step)
    requires SingleAnswer(dns) && Addresses(dns)
    requires Inv(dns, w) && Legal(dns, w, s) && Next(w, s).Some?
    ensures Inv(dns, Next(w, s).value)
  {
    hide RpcNext, MonitorNext, Inv, Legal, SingleAnswer, Addresses;
    if RpcNext(w, s).Some? {
      RpcKeeps(dns, w, s);
    } else {
      MonitorKeeps(dns, w, s);
    }
  }

  lemma {:induction false} RunKeeps(dns: Resolver, w: World, steps: seq<Step>)
    requires SingleAnswer(dns) && Addresses(dns) && Inv(dns, w)
    requires LegalRun(dns, w, steps)
    ensures Run(w, steps).Some? && Inv(dns, Run(w, steps).value)
    decreases |steps|
  {
    hide Next, Inv, Legal, SingleAnswer, Addresses;
    if steps != [] {
      NextKeeps(dns, w, steps[0]);
      RunKeeps(dns, Next(w, steps[0]).value, steps[1..]);
    }
  }

  // ---------- two addresses ----------

  lemma {:induction false} Extend(dns: Resolver, w0: World, steps: seq<Step>, s: Step)
    requires LegalRun(dns, w0, steps) && Run(w0, steps).Some?
    requires Legal(dns, Run(w0, steps).value, s) && Next(Run(w0, steps).value, s).Some?
    ensures LegalRun(dns, w0, steps + [s])
    ensures Run(w0, steps + [s]) == Next(Run(w0, steps).value, s)
    decreases |steps|
  {
    hide Next, Legal;
    if steps == [] {
      assert steps + [s] == [s] && [s][1..] == [];
    } else {
      assert (steps + [s])[1..] == steps[1..] + [s];
      Extend(dns, Next(w0, steps[0]).value, steps[1..], s);
    }
  }

  lemma RaceStarted(dns: Resolver, o: Options, a: string) returns (steps: seq<Step>)
    requires o.fqdn != "" && o.proxyIp == "" && a in dns(o.fqdn) && a != ""
    ensures LegalRun(dns, INIT, steps)
    ensures var oa := o.(proxyIp := a);
            Run(INIT, steps) ==
            Some(World(RelayState(Some(oa), true, Some(SocatFor(oa)), Wanted(oa)), true, Idle, Waiting, false, false))
  {
    steps := [];
    assert LegalRun(dns, INIT, []) && Run(INIT, []) == Some(INIT);
    hide LegalRun, Run;
    assert Programmed(Absent, o.(proxyIp := a), false) == Wanted(o.(proxyIp := a));
    Extend(dns, INIT, steps, RpcStart(o));
    steps := steps + [RpcStart(o)];
    Extend(dns, INIT, steps, RpcLookup(Some(a)));
    steps := steps + [RpcLookup(Some(a))];
    Extend(dns, INIT, steps, RpcHandoffStart);
    steps := steps + [RpcHandoffStart];
    Extend(dns, INIT, steps, RpcLaunch(false, false));
    steps := steps + [RpcLaunch(false, false)];
  }

  /** A relay started with address a and asked to start again while the monitor restarts it. */
  lemma RaceBegins(dns: Resolver, o: Options, a: string) returns (steps: seq<Step>)
    requires o.fqdn != "" && o.proxyIp == "" && a in dns(o.fqdn) && a != ""
    ensures LegalRun(dns, INIT, steps)
    ensures var oa := o.(proxyIp := a);
            Run(INIT, steps) ==
            Some(World(RelayState(Some(oa), true, None, Absent), true, LaunchStep, Resolve, false, false))
  {
    hide LegalRun, Run;
    steps := RaceStarted(dns, o, a);
    assert Applied(Wanted(o.(proxyIp := a))) by {
      assert Wanted(o.(proxyIp := a)).rules[0].comment == OWNED;
    }
    Extend(dns, INIT, steps, RpcStart(o));
    steps := steps + [RpcStart(o)];
    Extend(dns, INIT, steps, RpcHandoffStart);
    steps := steps + [RpcHandoffStart];
    Extend(dns, INIT, steps, Tick);
    steps := steps + [Tick];
    Extend(dns, INIT, steps, Checked(true, false));
    steps := steps + [Checked(true, false)];
    Extend(dns, INIT, steps, MonitorKill);
    steps := steps + [MonitorKill];
    Extend(dns, INIT, steps, MonitorDelete(false));
    steps := steps + [MonitorDelete(false)];
  }

  /** The request then programs address a, the monitor looks address b up and finds socat
      running: table and options disagree, with nobody at work any more. */
  lemma Race(dns: Resolver, o: Options, a: string, b: string) returns (steps: seq<Step>)
    requires o.fqdn != "" && o.proxyIp == ""
    requires a in dns(o.fqdn) && b in dns(o.fqdn) && a != b && a != "" && b != ""
    ensures LegalRun(dns, INIT, steps) && Run(INIT, steps).Some?
    ensures var w := Run(INIT, steps).value;
            !w.crashed && w.rpc.Idle? && w.monitor.Waiting? && !Consistent(w)
  {
    hide LegalRun, Run;
    var oa := o.(proxyIp := a);
    steps := RaceBegins(dns, o, a);
    assert Programmed(Absent, oa, false) == Wanted(oa);
    Extend(dns, INIT, steps, RpcLaunch(false, false));
    steps := steps + [RpcLaunch(false, false)];
    Extend(dns, INIT, steps, MonitorResolve(Some(b)));
    steps := steps + [MonitorResolve(Some(b))];
    Extend(dns, INIT, steps, MonitorLaunch(false, false));
    steps := steps + [MonitorLaunch(false, false)];
    var w := Run(INIT, steps).value;
    assert w.relay.nft == Wanted(oa) && w.relay.options == Some(o.(proxyIp := b));
    assert a in Wanted(oa).ips && a !in Wanted(o.(proxyIp := b)).ips;
  }

  /** In every interleaving from a fresh relay, outside a reconfiguration, the table agrees with
      the options, and so does a process launched with an address. */
  ghost predicate AlwaysConsistent(dns: Resolver) {
    forall steps: seq<Step> ::
      LegalRun(dns, INIT, steps) && Run(INIT, steps).Some? ==> Consistent(Run(INIT, steps).value)
  }

  /** The nft state matches the options in every interleaving if and only if no name of a proxy
      has two addresses. */
  lemma TableTheorem(dns: Resolver)
    requires Addresses(dns)
    ensures AlwaysConsistent(dns) <==> SingleAnswer(dns)
  {
    if SingleAnswer(dns) {
      forall steps | LegalRun(dns, INIT, steps) && Run(INIT, steps).Some?
        ensures Consistent(Run(INIT, steps).value)
      {
        RunKeeps(dns, INIT, steps);
      }
    } else {
      var name, a, b :| name != "" && a in dns(name) && b in dns(name) && a != b;
      var steps := Race(dns, Options(name, 80, 50010, 49152, "", ""), a, b);
    }
  }
}
