/** The interleaved relay against the relay run one call at a time: a call or a health restart
    that nothing interrupts does in steps what it does as a whole; and over all interleavings the
    options are those of the last start request. */
module RelayRefine {
  import opened Optional
  import opened Nft
  import opened Relay
  import opened RelayMonitor

  lemma Then(w: World, s: RelayMonitor.Step, rest: seq<RelayMonitor.Step>)
    requires RelayMonitor.Next(w, s).Some?
    ensures RelayMonitor.Run(w, [s] + rest) == RelayMonitor.Run(RelayMonitor.Next(w, s).value, rest)
  {
    assert ([s] + rest)[1..] == rest;
  }

  lemma {:induction false} Chain(w: World, a: seq<RelayMonitor.Step>, b: seq<RelayMonitor.Step>)
    requires RelayMonitor.Run(w, a).Some?
    ensures RelayMonitor.Run(w, a + b) == RelayMonitor.Run(RelayMonitor.Run(w, a).value, b)
    decreases |a|
  {
    hide RelayMonitor.Next;
    if a == [] {
      assert a + b == b;
    } else {
      assert (a + b)[1..] == a[1..] + b;
      Chain(RelayMonitor.Next(w, a[0]).value, a[1..], b);
    }
  }

  /** Nobody is at work. */
  predicate Quiet(w: World) {
    w.rpc.Idle? && w.monitor.Waiting? && !w.crashed
  }

  // ---------- a start ----------

  const NO_STEPS: seq<RelayMonitor.Step> := []

  /** The steps from the hand-off of a start on. */
  function LaunchSteps(env: Env): seq<RelayMonitor.Step> {
    [RpcHandoffStart] + ([RpcLaunch(env.addFault, env.dies)] + NO_STEPS)
  }

  function StopSteps(env: Env): seq<RelayMonitor.Step> {
    [RpcHandoffStop] + ([RpcKill] + ([RpcDelete(env.deleteFault)] + NO_STEPS))
  }

  function StartSteps(w: World, cfg: Options, env: Env): seq<RelayMonitor.Step> {
    [RpcStart(cfg)] +
    (if NoProxy(w.relay) then [RpcLookup(env.answer)] + LaunchSteps(env)
     else if Reconfigures(w.relay, cfg) then [RpcLookup(env.answer)] + (StopSteps(env) + LaunchSteps(env))
     else LaunchSteps(env))
  }

  lemma Launches(w: World, env: Env)
    requires w.rpc.StartWait? && w.monitor.Waiting? && !w.crashed && w.relay.options.Some?
    ensures RelayMonitor.Run(w, LaunchSteps(env)) ==
            Some(w.(relay := Launched(w.relay, env.addFault, env.dies), active := true, handedOff := false, rpc := Idle))
  {
    hide Launched;
    Then(w, RpcHandoffStart, [RpcLaunch(env.addFault, env.dies)] + NO_STEPS);
    var w1 := RelayMonitor.Next(w, RpcHandoffStart).value;
    Then(w1, RpcLaunch(env.addFault, env.dies), NO_STEPS);
  }

  lemma Stops(w: World, env: Env)
    requires w.rpc.StopWait? && w.monitor.Waiting? && !w.crashed && w.relay.started
    ensures Halted(w.relay, env.deleteFault).Done?
    ensures RelayMonitor.Run(w, StopSteps(env)) ==
            Some(w.(relay := Halted(w.relay, env.deleteFault).state, active := false, handedOff := true,
                    rpc := if w.rpc.after.ThenStart? then StartWait else Idle))
  {
    hide Unprogrammed;
    Then(w, RpcHandoffStop, [RpcKill] + ([RpcDelete(env.deleteFault)] + NO_STEPS));
    var w1 := RelayMonitor.Next(w, RpcHandoffStop).value;
    Then(w1, RpcKill, [RpcDelete(env.deleteFault)] + NO_STEPS);
    var w2 := RelayMonitor.Next(w1, RpcKill).value;
    Then(w2, RpcDelete(env.deleteFault), NO_STEPS);
  }

  /** A start that nothing interrupts is the start of the relay run one call at a time. */
  lemma StartRefines(w: World, cfg: Options, env: Env)
    requires Quiet(w) && (Reconfigures(w.relay, cfg) ==> w.relay.started)
    ensures Started(w.relay, cfg, env).Done?
    ensures RelayMonitor.Run(w, StartSteps(w, cfg, env)) ==
            Some(w.(relay := Started(w.relay, cfg, env).state, active := true, handedOff := false))
  {
    hide Launched, Unprogrammed, LaunchSteps, StopSteps;
    var begin, lookup := RpcStart(cfg), RpcLookup(env.answer);
    var w1 := RelayMonitor.Next(w, begin).value;
    if NoProxy(w.relay) {
      Then(w, begin, [lookup] + LaunchSteps(env));
      Then(w1, lookup, LaunchSteps(env));
      Launches(RelayMonitor.Next(w1, lookup).value, env);
    } else if Reconfigures(w.relay, cfg) {
      Then(w, begin, [lookup] + (StopSteps(env) + LaunchSteps(env)));
      Then(w1, lookup, StopSteps(env) + LaunchSteps(env));
      var w2 := RelayMonitor.Next(w1, lookup).value;
      Stops(w2, env);
      Chain(w2, StopSteps(env), LaunchSteps(env));
      Launches(RelayMonitor.Run(w2, StopSteps(env)).value, env);
    } else {
      Then(w, begin, LaunchSteps(env));
      Launches(w1, env);
    }
  }

  /** A stop that nothing interrupts is the stop of the relay run one call at a time. */
  lemma StopRefines(w: World, env: Env)
    requires Quiet(w) && w.relay.started
    ensures Stopped(w.relay, env).Done?
    ensures RelayMonitor.Run(w, [RpcStop] + StopSteps(env)) ==
            Some(w.(relay := Stopped(w.relay, env).state, active := false, handedOff := true))
  {
    hide Unprogrammed, StopSteps;
    Then(w, RpcStop, StopSteps(env));
    Stops(RelayMonitor.Next(w, RpcStop).value, env);
  }

  /** A stop before anything was launched panics; it leaves the relay as the stop run as one call does. */
  lemma StopRefinesPanic(w: World, env: Env)
    requires Quiet(w) && !w.relay.started && w.relay.nft.Absent?
    ensures Stopped(w.relay, env).Panicked?
    ensures RelayMonitor.Run(w, [RpcStop] + ([RpcHandoffStop] + ([RpcKill] + NO_STEPS))) ==
            Some(w.(relay := Stopped(w.relay, env).state, active := false, handedOff := true))
  {
    Then(w, RpcStop, [RpcHandoffStop] + ([RpcKill] + NO_STEPS));
    var w1 := RelayMonitor.Next(w, RpcStop).value;
    Then(w1, RpcHandoffStop, [RpcKill] + NO_STEPS);
    Then(RelayMonitor.Next(w1, RpcHandoffStop).value, RpcKill, NO_STEPS);
  }

  // ---------- the monitor ----------

  function RestartSteps(env: Env): seq<RelayMonitor.Step> {
    [MonitorKill] + ([MonitorDelete(env.deleteFault)] +
    ([MonitorResolve(env.answer)] + ([MonitorLaunch(env.addFault, env.dies)] + NO_STEPS)))
  }

  lemma Restarts(w: World, env: Env)
    requires w.monitor.Kill? && !w.crashed && w.relay.started && !NoProxy(w.relay)
    ensures Restarted(w.relay, env).Done?
    ensures RelayMonitor.Run(w, RestartSteps(env)) ==
            Some(w.(relay := Restarted(w.relay, env).state, monitor := Waiting))
  {
    hide Unprogrammed, Launched;
    var s1, s2, s3 := MonitorDelete(env.deleteFault), MonitorResolve(env.answer), MonitorLaunch(env.addFault, env.dies);
    var w1 := RelayMonitor.Next(w, MonitorKill).value;
    var w2 := RelayMonitor.Next(w1, s1).value;
    var w3 := RelayMonitor.Next(w2, s2).value;
    var w4 := RelayMonitor.Next(w3, s3).value;
    assert w4 == w.(relay := Restarted(w.relay, env).state, monitor := Waiting);
    Then(w, MonitorKill, [s1] + ([s2] + ([s3] + NO_STEPS)));
    Then(w1, s1, [s2] + ([s3] + NO_STEPS));
    Then(w2, s2, [s3] + NO_STEPS);
    Then(w3, s3, NO_STEPS);
  }

  /** One beat of the monitor that nothing interrupts. It restarts the relay exactly when it is
      switched on, an address is known, the network namespace is there and the proxy does not
      answer; it stops the relay and exits when the namespace is gone; otherwise it does nothing. */
  lemma BeatRefines(w: World, netnsOk: bool, proxyOk: bool, env: Env)
    requires w.monitor.Waiting? && !w.crashed && w.relay.started
    ensures !w.active || NoProxy(w.relay) ==> RelayMonitor.Run(w, [Tick] + NO_STEPS) == Some(w)
    ensures w.active && !NoProxy(w.relay) && netnsOk && proxyOk ==>
              RelayMonitor.Run(w, [Tick] + ([Checked(netnsOk, proxyOk)] + NO_STEPS)) == Some(w)
    ensures w.active && !NoProxy(w.relay) && netnsOk && !proxyOk ==>
              RelayMonitor.Run(w, [Tick] + ([Checked(netnsOk, proxyOk)] + RestartSteps(env))) ==
              Some(w.(relay := Restarted(w.relay, env).state))
    ensures w.active && !NoProxy(w.relay) && !netnsOk ==>
              RelayMonitor.Run(w, [Tick] + ([Checked(netnsOk, proxyOk)] +
                                            ([MonitorKill] + ([MonitorDelete(env.deleteFault)] + NO_STEPS)))) ==
              Some(w.(relay := Halted(w.relay, env.deleteFault).state, monitor := Exited))
  {
    hide Unprogrammed, Launched, RestartSteps;
    var check := Checked(netnsOk, proxyOk);
    Then(w, Tick, NO_STEPS);
    if w.active && !NoProxy(w.relay) {
      var w1 := RelayMonitor.Next(w, Tick).value;
      var w2 := RelayMonitor.Next(w1, check).value;
      if netnsOk && proxyOk {
        Then(w, Tick, [check] + NO_STEPS);
        Then(w1, check, NO_STEPS);
      } else if netnsOk {
        Then(w, Tick, [check] + RestartSteps(env));
        Then(w1, check, RestartSteps(env));
        Restarts(w2, env);
      } else {
        var delete := MonitorDelete(env.deleteFault);
        Then(w, Tick, [check] + ([MonitorKill] + ([delete] + NO_STEPS)));
        Then(w1, check, [MonitorKill] + ([delete] + NO_STEPS));
        Then(w2, MonitorKill, [delete] + NO_STEPS);
        Then(RelayMonitor.Next(w2, MonitorKill).value, delete, NO_STEPS);
      }
    }
  }

  // ---------- the options over all interleavings ----------

  /** No step but a start changes the name and ports of the options, and no step but a stop drops
      the options. */
  lemma NextOptions(w: World, s: RelayMonitor.Step)
    requires RelayMonitor.Next(w, s).Some?
    ensures var o, o' := w.relay.options, RelayMonitor.Next(w, s).value.relay.options;
            && (s.RpcStart? ==> Follows(o', s.cfg))
            && (!s.RpcStart? && o'.Some? ==> o.Some? && Follows(o', o.value))
            && (!s.RpcStart? && o'.None? ==> o.None? || s.RpcStop?)
  {
    hide Programmed, Unprogrammed;
  }

  predicate NoStart(steps: seq<RelayMonitor.Step>) {
    forall i :: 0 <= i < |steps| ==> !steps[i].RpcStart?
  }

  predicate SomeStop(steps: seq<RelayMonitor.Step>) {
    exists i :: 0 <= i < |steps| && steps[i].RpcStop?
  }

  lemma {:induction false} OptionsKept(w: World, steps: seq<RelayMonitor.Step>)
    requires NoStart(steps) && RelayMonitor.Run(w, steps).Some?
    ensures var o, o' := w.relay.options, RelayMonitor.Run(w, steps).value.relay.options;
            (o'.Some? ==> o.Some? && Follows(o', o.value)) && (o'.None? ==> o.None? || SomeStop(steps))
    decreases |steps|
  {
    hide RelayMonitor.Next;
    if steps != [] {
      NextOptions(w, steps[0]);
      assert !steps[0].RpcStart?;
      assert forall i :: 0 <= i < |steps[1..]| ==> steps[1..][i] == steps[i + 1];
      OptionsKept(RelayMonitor.Next(w, steps[0]).value, steps[1..]);
    }
  }

  /** In every interleaving the options are those of the last start request, unless a stop came
      after it and dropped them. */
  lemma OptionsFollow(steps: seq<RelayMonitor.Step>, i: nat)
    requires i < |steps| && RelayMonitor.Run(INIT, steps).Some?
    requires steps[i].RpcStart? && NoStart(steps[i + 1..])
    ensures var o := RelayMonitor.Run(INIT, steps).value.relay.options;
            Follows(o, steps[i].cfg) || (o.None? && SomeStop(steps[i + 1..]))
  {
    hide RelayMonitor.Next, RelayMonitor.Run;
    RunOne(INIT, steps, i);
    RunSplit(INIT, steps, i + 1);
    NextOptions(RelayMonitor.Run(INIT, steps[..i]).value, steps[i]);
    OptionsKept(RelayMonitor.Run(INIT, steps[..i + 1]).value, steps[i + 1..]);
  }
}
