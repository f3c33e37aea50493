/** What happens around the first launches of a relay: when a process is left that does not fit
    the options, and when the relay crashes. */
module RelayLaunch {
  import opened Optional
  import opened Nft
  import opened Relay
  import opened RelayMonitor

  // ---------- processes launched without an address ----------

  /** The request launches a process that stays up, although no address is known. */
  predicate LaunchesEmpty(w: RelayMonitor.World, s: RelayMonitor.Step) {
    s.RpcLaunch? && !s.dies && w.relay.socat.None? && NoProxy(w.relay)
  }

  predicate EmptyLaunchIn(w: RelayMonitor.World, steps: seq<RelayMonitor.Step>)
    decreases |steps|
  {
    && steps != [] && RelayMonitor.Next(w, steps[0]).Some?
    && (LaunchesEmpty(w, steps[0]) || EmptyLaunchIn(RelayMonitor.Next(w, steps[0]).value, steps[1..]))
  }

  /** Outside a reconfiguration the process is that of the options. */
  predicate FitsNow(w: RelayMonitor.World) {
    Reconfiguring(w.rpc) || ProcessFits(w.relay)
  }

  /** ... and it will be, as long as every further launch has an address. */
  ghost predicate StaysFit(dns: Resolver, w: RelayMonitor.World) {
    forall more :: LegalRun(dns, w, more) && !EmptyLaunchIn(w, more) && RelayMonitor.Run(w, more).Some? ==>
      FitsNow(RelayMonitor.Run(w, more).value)
  }

  ghost predicate FitsThroughout(dns: Resolver, w: RelayMonitor.World, steps: seq<RelayMonitor.Step>)
    decreases |steps|
  {
    && StaysFit(dns, w)
    && (steps != [] && RelayMonitor.Next(w, steps[0]).Some? ==>
          FitsThroughout(dns, RelayMonitor.Next(w, steps[0]).value, steps[1..]))
  }

  /** A process without an address is only ever met in a reconfiguration, which will stop it. */
  predicate FitInv(w: RelayMonitor.World) {
    EmptySocat(w.relay) ==> Reconfiguring(w.rpc)
  }

  lemma NextFitInv(dns: Resolver, w: RelayMonitor.World, s: RelayMonitor.Step)
    requires RelayMonitor.Inv(dns, w) && Addresses(dns) && Legal(dns, w, s)
    requires FitInv(w) && RelayMonitor.Next(w, s).Some? && !LaunchesEmpty(w, s)
    ensures FitInv(RelayMonitor.Next(w, s).value)
  {
    hide Single, Matches, Programmed, Unprogrammed;
  }

  lemma {:induction false} StaysFitOn(dns: Resolver, w: RelayMonitor.World, steps: seq<RelayMonitor.Step>)
    requires SingleAnswer(dns) && Addresses(dns) && RelayMonitor.Inv(dns, w) && FitInv(w)
    requires LegalRun(dns, w, steps) && !EmptyLaunchIn(w, steps)
    ensures RelayMonitor.Run(w, steps).Some? && FitsNow(RelayMonitor.Run(w, steps).value)
    decreases |steps|
  {
    hide RelayMonitor.Next, Legal, SingleAnswer, Addresses, LaunchesEmpty;
    if steps != [] {
      hide RelayMonitor.Inv, FitInv, FitsNow;
      NextKeeps(dns, w, steps[0]);
      NextFitInv(dns, w, steps[0]);
      StaysFitOn(dns, RelayMonitor.Next(w, steps[0]).value, steps[1..]);
    }
  }

  /** After a launch without an address, a start whose lookup works leaves a process that does not
      fit the options. */
  lemma LeftBehind(dns: Resolver, w: RelayMonitor.World, s: RelayMonitor.Step, name: string, a: string)
    requires LaunchesEmpty(w, s) && RelayMonitor.Next(w, s).Some? && w.relay.options.Some?
    requires name != "" && a in dns(name) && a != ""
    ensures !StaysFit(dns, RelayMonitor.Next(w, s).value)
  {
    var w1 := RelayMonitor.Next(w, s).value;
    var start, lookup := RpcStart(Options(name, 0, 0, 0, "", "")), RpcLookup(Some(a));
    var w2 := RelayMonitor.Next(w1, start).value;
    var w3 := RelayMonitor.Next(w2, lookup).value;
    var more := [start, lookup];
    assert more[1..] == [lookup] && [lookup][1..] == [];
    assert RelayMonitor.Run(w3, []) == Some(w3);
    assert RelayMonitor.Run(w2, [lookup]) == RelayMonitor.Run(w3, []);
    assert LegalRun(dns, w3, []) && LegalRun(dns, w2, [lookup]);
    assert LegalRun(dns, w1, more) && RelayMonitor.Run(w1, more) == Some(w3);
    assert !EmptyLaunchIn(w2, [lookup]) && !EmptyLaunchIn(w1, more);
    assert !FitsNow(w3);
  }

  lemma {:induction false} FitsThroughoutIff(dns: Resolver, w: RelayMonitor.World, steps: seq<RelayMonitor.Step>,
                                            name: string, a: string)
    requires SingleAnswer(dns) && Addresses(dns) && RelayMonitor.Inv(dns, w) && FitInv(w)
    requires LegalRun(dns, w, steps) && name != "" && a in dns(name)
    ensures FitsThroughout(dns, w, steps) <==> !EmptyLaunchIn(w, steps)
    decreases |steps|
  {
    hide RelayMonitor.Next, Legal, SingleAnswer, FitsNow, RelayMonitor.Run;
    assert StaysFit(dns, w) by {
      forall more | LegalRun(dns, w, more) && !EmptyLaunchIn(w, more) && RelayMonitor.Run(w, more).Some?
        ensures FitsNow(RelayMonitor.Run(w, more).value)
      {
        StaysFitOn(dns, w, more);
      }
    }
    if steps != [] {
      var w' := RelayMonitor.Next(w, steps[0]).value;
      if LaunchesEmpty(w, steps[0]) {
        LaunchHasOptions(dns, w, steps[0]);
        LeftBehind(dns, w, steps[0], name, a);
      } else {
        NextKeeps(dns, w, steps[0]);
        NextFitInv(dns, w, steps[0]);
        FitsThroughoutIff(dns, w', steps[1..], name, a);
      }
    }
  }

  lemma LaunchHasOptions(dns: Resolver, w: RelayMonitor.World, s: RelayMonitor.Step)
    requires RelayMonitor.Inv(dns, w) && s.RpcLaunch? && RelayMonitor.Next(w, s).Some?
    ensures w.relay.options.Some?
  {
  }

  /** In every interleaving, with one address per name: the process fits the options now and later,
      at every point of the run, if and only if no request launches one without an address. */
  lemma ProcessTheorem(dns: Resolver, steps: seq<RelayMonitor.Step>, name: string, a: string)
    requires SingleAnswer(dns) && Addresses(dns) && LegalRun(dns, INIT, steps)
    requires name != "" && a in dns(name)
    ensures FitsThroughout(dns, INIT, steps) <==> !EmptyLaunchIn(INIT, steps)
  {
    FitsThroughoutIff(dns, INIT, steps, name, a);
  }

  // ---------- when the relay crashes ----------

  /** Lookups do not answer with the empty string. */
  predicate Answered(s: RelayMonitor.Step) {
    && (s.RpcLookup? && s.answer.Some? ==> s.answer.value != "")
    && (s.MonitorResolve? && s.answer.Some? ==> s.answer.value != "")
  }

  predicate PastKill(m: Monitor) {
    m.Delete? || m.Resolve? || m.Launch? || m.ExitDelete? || m.Exited?
  }

  predicate CrashInv(w: RelayMonitor.World) {
    && HandoffInv(w)
    && (w.relay.socat.Some? || PastKill(w.monitor) ==> w.relay.started)
    && (Busy(w.monitor) ==> w.relay.options.Some? && (Reconfiguring(w.rpc) || !NoProxy(w.relay)))
    && (Reconfiguring(w.rpc) || w.rpc == Lookup(false) || w.rpc.LaunchStep? || w.rpc.StartWait? ==> w.relay.options.Some?)
  }

  lemma RpcCrash(w: RelayMonitor.World, s: RelayMonitor.Step)
    requires CrashInv(w) && !w.crashed && Answered(s) && RpcNext(w, s).Some?
    ensures var w' := RpcNext(w, s).value;
            && (w'.crashed <==> s.MonitorKill? && !w.relay.started)
            && CrashInv(w')
            && (w'.relay.started <==> w.relay.started || s.RpcLaunch?)
  {
    hide Programmed, Unprogrammed;
  }

  lemma MonitorCrash(w: RelayMonitor.World, s: RelayMonitor.Step)
    requires CrashInv(w) && !w.crashed && Answered(s) && MonitorNext(w, s).Some?
    ensures var w' := MonitorNext(w, s).value;
            && (w'.crashed <==> s.MonitorKill? && !w.relay.started)
            && CrashInv(w')
            && (w'.relay.started <==> w.relay.started || s.RpcLaunch?)
  {
    hide Programmed, Unprogrammed;
  }

  /** One step: it crashes exactly as a kill of the monitor before anything was launched. */
  lemma NextCrash(w: RelayMonitor.World, s: RelayMonitor.Step)
    requires CrashInv(w) && Answered(s) && RelayMonitor.Next(w, s).Some?
    ensures var w' := RelayMonitor.Next(w, s).value;
            && (w'.crashed <==> s.MonitorKill? && !w.relay.started)
            && CrashInv(w')
            && (w'.relay.started <==> w.relay.started || s.RpcLaunch?)
  {
    hide RpcNext, MonitorNext, CrashInv, Answered;
    if RpcNext(w, s).Some? {
      RpcCrash(w, s);
    } else {
      MonitorCrash(w, s);
    }
  }

  predicate NoLaunch(steps: seq<RelayMonitor.Step>) {
    forall i :: 0 <= i < |steps| ==> !steps[i].RpcLaunch?
  }

  lemma {:induction false} CrashFrom(w: RelayMonitor.World, steps: seq<RelayMonitor.Step>)
    requires CrashInv(w) && !w.crashed && RelayMonitor.Run(w, steps).Some?
    requires forall i :: 0 <= i < |steps| ==> Answered(steps[i])
    ensures RelayMonitor.Run(w, steps).value.crashed <==>
            !w.relay.started && steps != [] && steps[|steps| - 1].MonitorKill? && NoLaunch(steps)
    decreases |steps|
  {
    if steps != [] {
      NextCrash(w, steps[0]);
      var w', rest := RelayMonitor.Next(w, steps[0]).value, steps[1..];
      hide CrashInv, Answered;
      if w'.crashed {
        assert rest == [];
      } else {
        CrashFrom(w', rest);
        assert rest != [] ==> rest[|rest| - 1] == steps[|steps| - 1];
        assert forall i :: 0 < i < |steps| ==> steps[i] == rest[i - 1];
        assert NoLaunch(steps) <==> !steps[0].RpcLaunch? && NoLaunch(rest);
      }
    }
  }

  /** A run crashes if and only if its last step is a kill of the monitor and nothing was launched
      before. */
  lemma CrashTheorem(steps: seq<RelayMonitor.Step>)
    requires RelayMonitor.Run(INIT, steps).Some? && forall i :: 0 <= i < |steps| ==> Answered(steps[i])
    ensures RelayMonitor.Run(INIT, steps).value.crashed <==>
            steps != [] && steps[|steps| - 1].MonitorKill? && NoLaunch(steps)
  {
    CrashFrom(INIT, steps);
  }

  /** There are such runs: the monitor finds the proxy away while the first start is still under
      way. */
  lemma CrashExample(o: Options, a: string)
    requires o.fqdn != "" && o.proxyIp == "" && a != ""
    ensures var run := RelayMonitor.Run(INIT, [RpcStart(o), RpcLookup(Some(a)), Tick, Checked(true, false), MonitorKill]);
            run.Some? && run.value.crashed
  {
    var s1, s2, s3, s4, s5 := RpcStart(o), RpcLookup(Some(a)), Tick, Checked(true, false), MonitorKill;
    var w1 := RelayMonitor.Next(INIT, s1).value;
    var w2 := RelayMonitor.Next(w1, s2).value;
    var w3 := RelayMonitor.Next(w2, s3).value;
    var w4 := RelayMonitor.Next(w3, s4).value;
    var w5 := RelayMonitor.Next(w4, s5).value;
    assert w3.monitor.Checking? && w4.monitor.Kill? && !w4.relay.started && w5.crashed;
    hide RelayMonitor.Next;
    var t4, t3, t2 := [s4, s5], [s3, s4, s5], [s2, s3, s4, s5];
    assert [s1, s2, s3, s4, s5][1..] == t2 && t2[1..] == t3 && t3[1..] == t4 && t4[1..] == [s5] && [s5][1..] == [];
    assert RelayMonitor.Run(w4, [s5]) == RelayMonitor.Run(w5, []);
    assert RelayMonitor.Run(w3, t4) == RelayMonitor.Run(w4, [s5]);
    assert RelayMonitor.Run(w2, t3) == RelayMonitor.Run(w3, t4);
    assert RelayMonitor.Run(w1, t2) == RelayMonitor.Run(w2, t3);
  }
}
