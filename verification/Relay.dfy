/** The relay of one pod: its options, its socat process and its nft table, with each request
    run on its own. */
module Relay {
  import opened Optional
  import opened Nft

  /** What a running socat forwards: connections to relayPort go to the proxy. */
  datatype Socat = Socat(relayPort: nat, proxyIp: string, proxyPort: nat)

  /** started tells whether a socat command was ever created. */
  datatype RelayState = RelayState(options: Option<Options>, started: bool, socat: Option<Socat>, nft: Table)

  /** What the outside world answers during one request: the address looked up, if any,
      whether deleting or adding the table fails, and whether socat exits at once. */
  datatype Env = Env(answer: Option<string>, deleteFault: bool, addFault: bool, dies: bool)

  predicate ShouldRestart(o: Options, cfg: Options) {
    o.fqdn != cfg.fqdn || o.appPort != cfg.appPort || o.relayPort != cfg.relayPort || o.listenPort != cfg.listenPort
  }

  function Resolved(options: Option<Options>, answer: Option<string>): Option<Options> {
    if options.Some? && options.value.fqdn != "" && answer.Some?
    then Some(options.value.(proxyIp := answer.value)) else options
  }

  function SocatFor(o: Options): Socat {
    Socat(o.relayPort, o.proxyIp, o.listenPort)
  }

  /** startInternal: nothing when socat runs, otherwise a new process and the table. The process
      stays up whatever address it was given: it connects only when a connection comes in. */
  function Launched(r: RelayState, addFault: bool, dies: bool): RelayState
    requires r.options.Some?
  {
    if r.socat.Some? then r
    else
      var o := r.options.value;
      RelayState(r.options, true, if dies then None else Some(SocatFor(o)), Programmed(r.nft, o, addFault))
  }

  /** A panic ends the call it happens in. In a request the HTTP server recovers it and the relay
      lives on with the state it left behind; in the monitor it ends the relay. */
  datatype Outcome = Done(state: RelayState) | Panicked(state: RelayState)

  /** stopInternal; it panics when no command was ever created. */
  function Halted(r: RelayState, deleteFault: bool): Outcome {
    if !r.started then Panicked(r.(nft := Unprogrammed(r.nft, deleteFault)))
    else Done(r.(socat := None, nft := Unprogrammed(r.nft, deleteFault)))
  }

  predicate NoProxy(r: RelayState) {
    r.options.None? || r.options.value.proxyIp == ""
  }

  /** Configure with the options of a request, or with none. */
  function Configured(r: RelayState, cfg: Option<Options>, env: Env): Outcome {
    if NoProxy(r) then Done(r.(options := Resolved(cfg, env.answer)))
    else if cfg.Some? && ShouldRestart(r.options.value, cfg.value)
    then Halted(r.(options := Resolved(cfg, env.answer)), env.deleteFault)
    else Done(r)
  }

  function Started(r: RelayState, cfg: Options, env: Env): Outcome {
    match Configured(r, Some(cfg), env)
    case Done(c) => Done(Launched(c, env.addFault, env.dies))
    case Panicked(c) => Panicked(c)
  }

  function Stopped(r: RelayState, env: Env): Outcome {
    match Configured(r, None, env)
    case Done(c) => Halted(c, env.deleteFault)
    case Panicked(c) => Panicked(c)
  }

  /** What the monitor does when the proxy does not answer. */
  function Restarted(r: RelayState, env: Env): Outcome {
    if NoProxy(r) then Done(r)
    else
      match Halted(r, env.deleteFault)
      case Done(h) => Done(Launched(h.(options := Resolved(h.options, env.answer)), env.addFault, env.dies))
      case Panicked(h) => Panicked(h)
  }

  /** The options are those of a request: name and ports are the requested ones. The address is
      looked up. */
  predicate Follows(options: Option<Options>, cfg: Options) {
    && options.Some?
    && options.value.fqdn == cfg.fqdn && options.value.appPort == cfg.appPort
    && options.value.relayPort == cfg.relayPort && options.value.listenPort == cfg.listenPort
  }

  /** A start leaves the options it was asked for, whatever state it finds and whatever fails. */
  lemma StartFollows(r: RelayState, cfg: Options, env: Env)
    ensures Follows(Started(r, cfg, env).state.options, cfg)
  {
  }

  // ---------- agreement with the options ----------

  /** The table is absent, or holds exactly one rule and one address, those of the options. */
  ghost predicate TableFits(r: RelayState) {
    && Single(r.nft)
    && (r.nft.Present? ==> r.started && r.options.Some? && Matches(r.nft, r.options.value))
  }

  /** A running process forwards as the options say. */
  predicate ProcessFits(r: RelayState) {
    r.socat.Some? ==> r.options.Some? && r.socat.value == SocatFor(r.options.value)
  }

  /** socat runs, but was launched before an address was known. */
  predicate EmptySocat(r: RelayState) {
    r.socat.Some? && r.socat.value.proxyIp == ""
  }

  /** The table fits, and so does the process if it was launched with an address. */
  ghost predicate Agrees(r: RelayState) {
    && TableFits(r)
    && (r.socat.Some? ==> r.started)
    && (EmptySocat(r) || ProcessFits(r))
  }

  lemma LaunchedAgrees(r: RelayState, addFault: bool, dies: bool)
    requires Agrees(r) && r.options.Some?
    ensures Agrees(Launched(r, addFault, dies))
  {
    ProgrammedEffect(r.nft, r.options.value, addFault);
  }

  lemma HaltedAgrees(r: RelayState)
    requires Single(r.nft) && (r.nft.Present? || r.socat.Some? ==> r.started)
    ensures var h := Halted(r, false);
            h.state == r.(socat := None, nft := Absent) && Agrees(h.state) && (h.Done? <==> r.started)
  {
    UnprogrammedEffect(r.nft, false);
  }

  lemma ConfiguredAgrees(r: RelayState, cfg: Option<Options>, env: Env)
    requires Agrees(r) && !env.deleteFault
    ensures Agrees(Configured(r, cfg, env).state)
  {
    HaltedAgrees(r.(options := Resolved(cfg, env.answer)));
  }

  lemma StartedAgrees(r: RelayState, cfg: Options, env: Env)
    requires Agrees(r) && !env.deleteFault
    ensures Agrees(Started(r, cfg, env).state)
  {
    ConfiguredAgrees(r, Some(cfg), env);
    var c := Configured(r, Some(cfg), env);
    if c.Done? {
      LaunchedAgrees(c.state, env.addFault, env.dies);
    }
  }

  lemma StoppedAgrees(r: RelayState, env: Env)
    requires Agrees(r) && !env.deleteFault
    ensures var s := Stopped(r, env);
            Agrees(s.state) && s.state.socat.None? && s.state.nft.Absent? && (s.Done? <==> r.started)
  {
    ConfiguredAgrees(r, None, env);
    HaltedAgrees(Configured(r, None, env).state);
  }

  class SocatRelay {
    var options: Option<Options>
    var started: bool
    var socat: Option<Socat>
    var nft: Table

    ghost function State(): RelayState
      reads this
    {
      RelayState(options, started, socat, nft)
    }

    method SetProxyIp(answer: Option<string>)
      modifies this`options
      ensures options == Resolved(old(options), answer)
    {
      if options.Some? && options.value.fqdn != "" {
        if answer.Some? {
          options := Some(options.value.(proxyIp := answer.value));
        }
      }
    }

    method StartInternal(addFault: bool, dies: bool)
      requires options.Some?
      modifies this
      ensures State() == Launched(old(State()), addFault, dies)
    {
      if socat.Some? {
        return;
      }
      started := true;
      socat := if dies then None else Some(SocatFor(options.value));
      nft := ProgramNft(AddOp, nft, options, addFault);
    }

    /** Returns false for the panic. */
    method StopInternal(deleteFault: bool) returns (ok: bool)
      modifies this
      ensures Halted(old(State()), deleteFault) == if ok then Done(State()) else Panicked(State())
    {
      if !started {
        nft := ProgramNft(DeleteOp, nft, options, deleteFault);
        return false;
      }
      socat := None;
      nft := ProgramNft(DeleteOp, nft, options, deleteFault);
      return true;
    }

    method Configure(cfg: Option<Options>, env: Env) returns (ok: bool)
      modifies this
      ensures Configured(old(State()), cfg, env) == if ok then Done(State()) else Panicked(State())
    {
      if options.None? {
        options := cfg;
        SetProxyIp(env.answer);
        return true;
      }
      if options.value.proxyIp == "" {
        options := cfg;
        SetProxyIp(env.answer);
        return true;
      }
      ok := true;
      if cfg.Some? && ShouldRestart(options.value, cfg.value) {
        options := cfg;
        SetProxyIp(env.answer);
        ok := StopInternal(env.deleteFault);
      }
    }

    /** A start request keeps table and process in agreement with the options, also when it
        panics. */
    method StartRelay(cfg: Options, env: Env) returns (ok: bool)
      modifies this
      ensures Follows(options, cfg)
      ensures Started(old(State()), cfg, env) == if ok then Done(State()) else Panicked(State())
      ensures Agrees(old(State())) && !env.deleteFault ==> Agrees(State())
    {
      StartFollows(State(), cfg, env);
      if Agrees(State()) && !env.deleteFault {
        StartedAgrees(State(), cfg, env);
      }
      ok := Configure(Some(cfg), env);
      if ok {
        StartInternal(env.addFault, env.dies);
      }
    }

    /** A stop request leaves neither process nor table, and panics exactly if no process was
        ever launched. */
    method StopRelay(env: Env) returns (ok: bool)
      modifies this
      ensures Stopped(old(State()), env) == if ok then Done(State()) else Panicked(State())
      ensures Agrees(old(State())) && !env.deleteFault ==>
                Agrees(State()) && socat.None? && nft.Absent? && ok == old(started)
      ensures options == if NoProxy(old(State())) then None else old(options)
    {
      if Agrees(State()) && !env.deleteFault {
        StoppedAgrees(State(), env);
      }
      ok := Configure(None, env);
      if ok {
        ok := StopInternal(env.deleteFault);
      }
    }
  }

  // ---------- runs ----------

  datatype Step =
    | Start(cfg: Options, env: Env)
    | Stop(env: Env)
    | HealthRestart(env: Env)
    | SocatExits

  /** None when the monitor panics. */
  function Next(r: RelayState, s: Step): Option<RelayState> {
    match s
    case Start(cfg, env) => Some(Started(r, cfg, env).state)
    case Stop(env) => Some(Stopped(r, env).state)
    case HealthRestart(env) => if Restarted(r, env).Panicked? then None else Some(Restarted(r, env).state)
    case SocatExits => Some(r.(socat := None))
  }

  /** Deleting the table works. */
  predicate Deletes(s: Step) {
    match s
    case Start(_, env) => !env.deleteFault
    case Stop(env) => !env.deleteFault
    case HealthRestart(env) => !env.deleteFault
    case SocatExits => true
  }

  /** Every step keeps the agreement with the options. */
  lemma NextAgrees(r: RelayState, s: Step)
    requires Agrees(r) && Deletes(s) && Next(r, s).Some?
    ensures Agrees(Next(r, s).value)
  {
    match s
    case Start(cfg, env) => StartedAgrees(r, cfg, env);
    case Stop(env) => StoppedAgrees(r, env);
    case HealthRestart(env) =>
      if !NoProxy(r) {
        HaltedAgrees(r);
        var h := Halted(r, false).state;
        LaunchedAgrees(h.(options := Resolved(h.options, env.answer)), env.addFault, env.dies);
      }
    case SocatExits =>
  }

  function Run(r: RelayState, steps: seq<Step>): Option<RelayState>
    decreases |steps|
  {
    if steps == [] then Some(r)
    else if Next(r, steps[0]).None? then None
    else Run(Next(r, steps[0]).value, steps[1..])
  }

  const FRESH := RelayState(None, false, None, Absent)

  /** Over any run of starts, stops, reconfigurations, health restarts and socat exits, in which
      lookups, process starts and adding the table may fail, the table is absent or holds
      exactly one redirect rule and one address, those of the current options; and a process
      that was launched with an address forwards as the options say. */
  lemma {:induction false} RunAgrees(r: RelayState, steps: seq<Step>)
    requires Agrees(r) && forall i :: 0 <= i < |steps| ==> Deletes(steps[i])
    requires Run(r, steps).Some?
    ensures Agrees(Run(r, steps).value)
    decreases |steps|
  {
    hide Next, Agrees;
    if steps != [] {
      NextAgrees(r, steps[0]);
      RunAgrees(Next(r, steps[0]).value, steps[1..]);
    }
  }

  // ---------- what each failure does ----------

  /** A start stops the old process first. */
  predicate Reconfigures(r: RelayState, cfg: Options) {
    !NoProxy(r) && ShouldRestart(r.options.value, cfg)
  }

  /** The step fails to delete a table that does not fit the options it goes on with. */
  predicate LeavesStale(r: RelayState, s: Step) {
    match s
    case Start(cfg, env) =>
      env.deleteFault && r.nft.Present? && Reconfigures(r, cfg) && !Matches(r.nft, Resolved(Some(cfg), env.answer).value)
    case HealthRestart(env) =>
      env.deleteFault && r.nft.Present? && !NoProxy(r) && !Matches(r.nft, Resolved(r.options, env.answer).value)
    case _ => false
  }

  lemma HaltedWithFault(r: RelayState)
    requires Single(r.nft) && r.started
    ensures Halted(r, true) == Done(r.(socat := None))
  {
    UnprogrammedEffect(r.nft, true);
  }

  /** With failing deletions: a step keeps the agreement if and only if it leaves no stale table. */
  lemma NextAgreesIff(r: RelayState, s: Step)
    requires Agrees(r) && Next(r, s).Some?
    ensures Agrees(Next(r, s).value) <==> !LeavesStale(r, s)
  {
    if Deletes(s) {
      NextAgrees(r, s);
    } else if r.nft.Absent? {
      UnprogrammedEffect(Absent, true);
      UnprogrammedEffect(Absent, false);
      var s' := match s
        case Start(cfg, env) => Start(cfg, env.(deleteFault := false))
        case Stop(env) => Stop(env.(deleteFault := false))
        case HealthRestart(env) => HealthRestart(env.(deleteFault := false))
        case SocatExits => s;
      NextAgrees(r, s');
    } else {
      StaleStep(r, s);
    }
  }

  lemma StaleStep(r: RelayState, s: Step)
    requires Agrees(r) && Next(r, s).Some? && r.nft.Present? && !Deletes(s)
    ensures Agrees(Next(r, s).value) <==> !LeavesStale(r, s)
  {
    match s
    case Start(cfg, env) =>
      if Reconfigures(r, cfg) {
        var c := r.(options := Resolved(Some(cfg), env.answer));
        HaltedWithFault(c);
        ProgrammedEffect(c.nft, c.options.value, env.addFault);
      } else {
        ProgrammedEffect(r.nft, r.options.value, env.addFault);
      }
    case Stop(env) => HaltedWithFault(r);
    case HealthRestart(env) =>
      HaltedWithFault(r);
      ProgrammedEffect(r.nft, Resolved(r.options, env.answer).value, env.addFault);
  }

  ghost predicate AgreesThroughout(r: RelayState, steps: seq<Step>)
    decreases |steps|
  {
    Agrees(r) && (steps != [] && Next(r, steps[0]).Some? ==> AgreesThroughout(Next(r, steps[0]).value, steps[1..]))
  }

  predicate StaleIn(r: RelayState, steps: seq<Step>)
    decreases |steps|
  {
    && steps != [] && Next(r, steps[0]).Some?
    && (LeavesStale(r, steps[0]) || StaleIn(Next(r, steps[0]).value, steps[1..]))
  }

  /** Over any run at all: table and process agree with the options throughout if and only if no
      step leaves a stale table. */
  lemma {:induction false} RunAgreesIff(r: RelayState, steps: seq<Step>)
    requires Agrees(r)
    ensures AgreesThroughout(r, steps) <==> !StaleIn(r, steps)
    decreases |steps|
  {
    hide Next, Agrees, LeavesStale;
    if steps != [] && Next(r, steps[0]).Some? {
      NextAgreesIff(r, steps[0]);
      var r' := Next(r, steps[0]).value;
      if Agrees(r') {
        RunAgreesIff(r', steps[1..]);
      } else {
        assert !AgreesThroughout(r', steps[1..]);
      }
    }
  }

  /** A reconfiguration whose delete fails. The start that follows finds a rule and adds
      nothing, so the table fits the new options if and only if the delete worked or the old
      table already was the new one. */
  lemma ReconfigureIff(r: RelayState, cfg: Options, env: Env)
    requires Agrees(r) && r.nft.Present? && ShouldRestart(r.options.value, cfg)
    ensures Started(r, cfg, env).Done?
    ensures var r' := Started(r, cfg, env).state;
            Matches(r'.nft, r'.options.value) <==>
            !env.deleteFault || Matches(r.nft, Resolved(Some(cfg), env.answer).value)
  {
    UnprogrammedEffect(r.nft, env.deleteFault);
    var c := Configured(r, Some(cfg), env).state;
    ProgrammedEffect(c.nft, c.options.value, env.addFault);
  }

  /** What a start with no failure leaves. The process is that of the options unless one launched
      without an address is still running, and the table is there unless socat was running
      without one; in both cases unless the start reconfigures. */
  lemma StartEffect(r: RelayState, cfg: Options, env: Env)
    requires Agrees(r) && Started(r, cfg, env).Done?
    requires !env.deleteFault && !env.addFault && !env.dies
    requires cfg.fqdn != "" && env.answer.Some? && env.answer.value != ""
    ensures var r' := Started(r, cfg, env).state;
            && Follows(r'.options, cfg)
            && r'.options.value.proxyIp ==
               (if NoProxy(r) || Reconfigures(r, cfg) then env.answer.value else r.options.value.proxyIp)
            && (r'.socat == Some(SocatFor(r'.options.value)) <==> !EmptySocat(r) || Reconfigures(r, cfg))
            && (r'.nft == Wanted(r'.options.value) <==>
                !(r.socat.Some? && r.nft.Absent?) || Reconfigures(r, cfg))
  {
    UnprogrammedEffect(r.nft, false);
    var c := Configured(r, Some(cfg), env).state;
    ConfiguredAgrees(r, Some(cfg), env);
    ProgrammedEffect(c.nft, c.options.value, false);
  }

  /** A start that asks for what a running relay already does changes nothing. */
  lemma StartAgain(r: RelayState, cfg: Options, env: Env)
    requires !NoProxy(r) && Follows(r.options, cfg) && r.socat.Some?
    ensures Started(r, cfg, env) == Done(r)
  {
  }

  /** What a health restart with no failure leaves: the options with the address looked up now, or
      the old one when the lookup fails, and the process and the table of these options. */
  lemma RestartEffect(r: RelayState, env: Env)
    requires Agrees(r) && !NoProxy(r) && r.started
    requires !env.deleteFault && !env.addFault && !env.dies && env.answer != Some("")
    ensures var o := r.options.value;
            var o' := if o.fqdn != "" && env.answer.Some? then o.(proxyIp := env.answer.value) else o;
            Restarted(r, env) == Done(RelayState(Some(o'), true, Some(SocatFor(o')), Wanted(o')))
  {
    HaltedAgrees(r);
    var o' := Resolved(r.options, env.answer).value;
    ProgrammedEffect(Absent, o', false);
  }

  /** A start whose lookup fails, then the same start with an answer: the process goes on
      forwarding to no address, and there is no table. */
  lemma TwoStarts(o: Options, a: string)
    requires o.fqdn != "" && o.proxyIp == "" && a != ""
    ensures Run(FRESH, [Start(o, Env(None, false, false, false)), Start(o, Env(Some(a), false, false, false))]) ==
            Some(RelayState(Some(o.(proxyIp := a)), true, Some(SocatFor(o)), Absent))
    ensures !ProcessFits(RelayState(Some(o.(proxyIp := a)), true, Some(SocatFor(o)), Absent))
  {
    var s1, s2 := Start(o, Env(None, false, false, false)), Start(o, Env(Some(a), false, false, false));
    var r1 := Next(FRESH, s1).value;
    assert r1 == RelayState(Some(o), true, Some(SocatFor(o)), Absent);
    assert [s1, s2][1..] == [s2] && [s2][1..] == [];
    assert Run(r1, [s2]) == Next(r1, s2);
  }
}
