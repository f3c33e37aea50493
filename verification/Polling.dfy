/** How agents follow the API server: they poll a version, list the protections when it has
    changed, build resources and install them as snapshots. */
module Polling {
  import opened Optional
  import opened Gateway

  type Content = seq<Protection>

  datatype Watcher = Sleeping | Listing | Sending(built: Content)
  datatype Generator = Receiving | Installing(taken: Content)

  /** The server has a version, the protections as a list would return them, and the versions
      it ever had. The watcher remembers the last version seen. builds, taken and installed
      are the histories of what was built, received and installed; verdicts tells for each
      received build whether it was installed. listed: the list call that followed the last
      version change has succeeded; drifted: since the last list call something was written
      without a new version. */
  datatype World = World(version: string, content: Content, used: set<string>,
                         stateVersion: string, watcher: Watcher, channel: seq<Content>, generator: Generator,
                         builds: seq<Content>, taken: seq<Content>, verdicts: seq<bool>, installed: seq<Content>,
                         listed: bool, drifted: bool)

  datatype Step =
    | Write(content: Content, version: string)   // a write that fires a version trigger
    | SilentWrite(content: Content)              // an update of a mirror policy fires none
    | Poll
    | PollFails
    | ListOk
    | ListFails
    | Send
    | Take
    | Install(ok: bool)

  /** The watcher's step on the answer of a version request. */
  class EnvoyControlPlane {
    var stateVersion: string

    method StateVersionChanged(response: Option<string>) returns (changed: bool)
      modifies this
      ensures changed <==> response.Some? && response.value != old(stateVersion)
      ensures stateVersion == if changed then response.value else old(stateVersion)
    {
      if response.None? {
        return false;
      }
      if response.value == stateVersion {
        return false;
      }
      stateVersion := response.value;
      return true;
    }
  }

  const CAPACITY := 1

  function Next(w: World, s: Step): Option<World> {
    match s
    case Write(content, version) =>
      if version in w.used || version == "" then None
      else Some(w.(content := content, version := version, used := w.used + {version}))
    case SilentWrite(content) => Some(w.(content := content, drifted := true))
    case Poll =>
      if !w.watcher.Sleeping? then None
      else if w.version == w.stateVersion then Some(w)
      else Some(w.(stateVersion := w.version, watcher := Listing, listed := false))
    case PollFails => if w.watcher.Sleeping? then Some(w) else None
    case ListOk =>
      if w.watcher.Listing? then
        Some(w.(watcher := Sending(w.content), builds := w.builds + [w.content], listed := true, drifted := false))
      else None
    case ListFails => if w.watcher.Listing? then Some(w.(watcher := Sleeping)) else None
    case Send =>
      if w.watcher.Sending? && |w.channel| < CAPACITY then
        Some(w.(channel := w.channel + [w.watcher.built], watcher := Sleeping))
      else None
    case Take =>
      if w.generator.Receiving? && w.channel != [] then
        Some(w.(generator := Installing(w.channel[0]), channel := w.channel[1..]))
      else None
    case Install(ok) =>
      if w.generator.Installing? then
        Some(w.(generator := Receiving, taken := w.taken + [w.generator.taken], verdicts := w.verdicts + [ok],
                installed := if ok then w.installed + [w.generator.taken] else w.installed))
      else None
  }

  function Run(w: World, steps: seq<Step>): Option<World>
    decreases |steps|
  {
    if steps == [] then Some(w)
    else if Next(w, steps[0]).None? then None
    else Run(Next(w, steps[0]).value, steps[1..])
  }

  function Initial(version: string, content: Content): World {
    World(version, content, {version}, "", Sleeping, [], Receiving, [], [], [], [], false, false)
  }

  // ---------- what every step keeps ----------

  function AtGenerator(w: World): seq<Content> {
    if w.generator.Installing? then [w.generator.taken] else []
  }

  function AtWatcher(w: World): seq<Content> {
    if w.watcher.Sending? then [w.watcher.built] else []
  }

  function InFlight(w: World): seq<Content> {
    AtGenerator(w) + w.channel + AtWatcher(w)
  }

  /** The builds a verdict accepted. */
  function Accepted(taken: seq<Content>, verdicts: seq<bool>): seq<Content>
    requires |taken| == |verdicts|
  {
    if taken == [] then []
    else (if verdicts[0] then [taken[0]] else []) + Accepted(taken[1..], verdicts[1..])
  }

  /** Builds travel in order and none is lost or doubled. */
  ghost predicate PipelineInv(w: World) {
    && |w.channel| <= CAPACITY
    && w.builds == w.taken + InFlight(w)
    && |w.taken| == |w.verdicts| && w.installed == Accepted(w.taken, w.verdicts)
  }

  /** An unchanged version means the last build is current. */
  ghost predicate VersionInv(w: World) {
    && w.version in w.used && "" !in w.used
    && (w.stateVersion == "" || w.stateVersion in w.used)
    && (w.watcher.Listing? ==> !w.listed)
    && (w.stateVersion == w.version && w.listed && !w.drifted ==>
          w.builds != [] && w.builds[|w.builds| - 1] == w.content)
  }

  ghost predicate Inv(w: World) {
    PipelineInv(w) && VersionInv(w)
  }

  lemma {:induction false} AcceptedAppend(taken: seq<Content>, verdicts: seq<bool>, c: Content, ok: bool)
    requires |taken| == |verdicts|
    ensures Accepted(taken + [c], verdicts + [ok]) == Accepted(taken, verdicts) + if ok then [c] else []
  {
    if taken == [] {
      assert taken + [c] == [c] && verdicts + [ok] == [ok];
    } else {
      assert (taken + [c])[1..] == taken[1..] + [c];
      assert (verdicts + [ok])[1..] == verdicts[1..] + [ok];
      AcceptedAppend(taken[1..], verdicts[1..], c, ok);
    }
  }

  lemma VersionKept(w: World, s: Step)
    requires VersionInv(w) && Next(w, s).Some?
    ensures VersionInv(Next(w, s).value)
  {
  }

  lemma TravelOn(w: World, s: Step)
    requires PipelineInv(w) && Next(w, s).Some?
    requires s.Send? || s.Take? || s.Install?
    ensures Next(w, s).value.taken + InFlight(Next(w, s).value) == w.taken + InFlight(w)
  {
    var t, g, c, b := w.taken, AtGenerator(w), w.channel, AtWatcher(w);
    match s
    case Send => assert g + (c + b) + [] == g + c + b;
    case Take => assert [c[0]] + c[1..] + b == [] + c + b;
    case Install(ok) => assert (t + g) + ([] + c + b) == t + (g + c + b);
  }

  lemma Enter(t: seq<Content>, g: seq<Content>, c: seq<Content>, x: Content)
    ensures t + (g + c + []) + [x] == t + (g + c + [x])
  {
  }

  lemma PipelineKept(w: World, s: Step)
    requires PipelineInv(w) && Next(w, s).Some?
    ensures PipelineInv(Next(w, s).value)
  {
    hide Accepted, InFlight;
    var w' := Next(w, s).value;
    match s
    case Send => TravelOn(w, s);
    case Take => TravelOn(w, s);
    case Install(ok) =>
      TravelOn(w, s);
      AcceptedAppend(w.taken, w.verdicts, w.generator.taken, ok);
    case ListOk => Enters(w);
    case _ => SameFlight(w, w');
  }

  lemma SameFlight(w: World, w': World)
    requires AtGenerator(w) == AtGenerator(w') && w.channel == w'.channel && AtWatcher(w) == AtWatcher(w')
    ensures InFlight(w) == InFlight(w')
  {
  }

  lemma Enters(w: World)
    requires w.watcher.Listing? && w.builds == w.taken + InFlight(w)
    ensures var w' := Next(w, ListOk).value; w'.builds == w'.taken + InFlight(w')
  {
    Enter(w.taken, AtGenerator(w), w.channel, w.content);
  }

  lemma NextKeeps(w: World, s: Step)
    requires Inv(w) && Next(w, s).Some?
    ensures Inv(Next(w, s).value)
  {
    hide Next, PipelineInv, VersionInv;
    VersionKept(w, s);
    PipelineKept(w, s);
  }

  lemma {:induction false} RunKeeps(w: World, steps: seq<Step>)
    requires Inv(w) && Run(w, steps).Some?
    ensures Inv(Run(w, steps).value)
    decreases |steps|
  {
    hide Next, Inv;
    if steps != [] {
      NextKeeps(w, steps[0]);
      RunKeeps(Next(w, steps[0]).value, steps[1..]);
    }
  }

  /** Version polling is sound. In every run, when a poll finds the version unchanged, the list
      call for that version has succeeded and no write went by without a new version, the last
      build is of exactly the current protections. */
  lemma PollingSound(version: string, content: Content, steps: seq<Step>)
    requires version != "" && Run(Initial(version, content), steps).Some?
    ensures var w := Run(Initial(version, content), steps).value;
            w.watcher.Sleeping? && w.stateVersion == w.version && w.listed && !w.drifted ==>
              w.builds != [] && w.builds[|w.builds| - 1] == w.content
  {
    RunKeeps(Initial(version, content), steps);
  }

  /** Installed snapshots are the accepted builds in the order they were built; once nothing is
      in flight and none was refused, they are all of them. */
  lemma SnapshotsFollow(version: string, content: Content, steps: seq<Step>)
    requires version != "" && Run(Initial(version, content), steps).Some?
    ensures var w := Run(Initial(version, content), steps).value;
            && |w.taken| == |w.verdicts| && w.taken <= w.builds
            && w.installed == Accepted(w.taken, w.verdicts)
            && |w.builds| <= |w.taken| + CAPACITY + 2
            && (InFlight(w) == [] && (forall i :: 0 <= i < |w.verdicts| ==> w.verdicts[i]) ==>
                  w.installed == w.builds)
  {
    RunKeeps(Initial(version, content), steps);
    var w := Run(Initial(version, content), steps).value;
    if forall i :: 0 <= i < |w.verdicts| ==> w.verdicts[i] {
      AllAccepted(w.taken, w.verdicts);
    }
  }

  lemma {:induction false} AllAccepted(taken: seq<Content>, verdicts: seq<bool>)
    requires |taken| == |verdicts| && forall i :: 0 <= i < |verdicts| ==> verdicts[i]
    ensures Accepted(taken, verdicts) == taken
  {
    if taken != [] {
      AllAccepted(taken[1..], verdicts[1..]);
    }
  }

  // ---------- why the conditions are there ----------

  predicate WritesVersion(s: Step) {
    s.Write?
  }

  /** Once the watcher sleeps with the current version, nothing is listed or built before the
      next write with a new version, whatever was missed: neither a failed list call nor a
      silent write is ever made up for. */
  lemma {:induction false} NothingBuilt(w: World, steps: seq<Step>)
    requires !w.watcher.Listing? && w.stateVersion == w.version && Run(w, steps).Some?
    requires forall i :: 0 <= i < |steps| ==> !WritesVersion(steps[i])
    ensures var w' := Run(w, steps).value;
            w'.builds == w.builds && !w'.watcher.Listing? && w'.stateVersion == w'.version
    decreases |steps|
  {
    if steps != [] {
      NothingBuilt(Next(w, steps[0]).value, steps[1..]);
    }
  }

  /** A failed list call: the version is recorded although nothing was built. */
  lemma ListFailureExample(version: string, content: Content)
    requires version != ""
    ensures var w := Run(Initial(version, content), [Poll, ListFails]);
            && w.Some? && w.value.watcher.Sleeping?
            && w.value.stateVersion == w.value.version && w.value.builds == []
  {
    var w0 := Initial(version, content);
    var w1 := Next(w0, Poll).value;
    assert [Poll, ListFails][1..] == [ListFails] && [ListFails][1..] == [];
    assert Run(w1, [ListFails]) == Next(w1, ListFails);
  }

  /** A silent write: the version stays and the last build is no longer current. */
  lemma SilentWriteExample(version: string, content: Content, content': Content)
    requires version != "" && content' != content
    ensures var w := Run(Initial(version, content), [Poll, ListOk, Send, SilentWrite(content')]);
            && w.Some? && w.value.watcher.Sleeping? && w.value.stateVersion == w.value.version && w.value.listed
            && w.value.builds == [content] && w.value.content == content'
  {
    var w0 := Initial(version, content);
    var w1 := Next(w0, Poll).value;
    var w2 := Next(w1, ListOk).value;
    var w3 := Next(w2, Send).value;
    var s := SilentWrite(content');
    assert [Poll, ListOk, Send, s][1..] == [ListOk, Send, s] && [ListOk, Send, s][1..] == [Send, s];
    assert [Send, s][1..] == [s] && [s][1..] == [];
    assert Run(w3, [s]) == Next(w3, s);
    assert Run(w2, [Send, s]) == Run(w3, [s]);
    assert Run(w1, [ListOk, Send, s]) == Run(w2, [Send, s]);
  }

  // ---------- exactly when polling keeps agents current ----------

  /** failures: list calls may fail; silent: writes may go by without a new version. */
  predicate Permitted(failures: bool, silent: bool, steps: seq<Step>) {
    forall i :: 0 <= i < |steps| ==> (steps[i].ListFails? ==> failures) && (steps[i].SilentWrite? ==> silent)
  }

  /** In every permitted run, an idle watcher that has the current version has built the current
      protections last. */
  ghost predicate AlwaysCurrent(version: string, content: Content, failures: bool, silent: bool) {
    forall steps :: Permitted(failures, silent, steps) && Run(Initial(version, content), steps).Some? ==>
      var w := Run(Initial(version, content), steps).value;
      w.watcher.Sleeping? && w.stateVersion == w.version ==>
        w.builds != [] && w.builds[|w.builds| - 1] == w.content
  }

  lemma {:induction false} NothingMissed(w: World, steps: seq<Step>)
    requires !w.drifted && (w.watcher.Listing? || w.listed || w.stateVersion == "")
    requires Permitted(false, false, steps) && Run(w, steps).Some?
    ensures var w' := Run(w, steps).value;
            !w'.drifted && (w'.watcher.Listing? || w'.listed || w'.stateVersion == "")
    decreases |steps|
  {
    if steps != [] {
      assert !steps[0].ListFails? && !steps[0].SilentWrite?;
      NothingMissed(Next(w, steps[0]).value, steps[1..]);
    }
  }

  /** Polling keeps an agent current in all runs if and only if list calls never fail and no
      write goes by without a new version. */
  lemma PollingTheorem(version: string, content: Content, failures: bool, silent: bool)
    requires version != ""
    ensures AlwaysCurrent(version, content, failures, silent) <==> !failures && !silent
  {
    hide Next;
    var w0 := Initial(version, content);
    if failures {
      ListFailureExample(version, content);
      assert Permitted(failures, silent, [Poll, ListFails]);
    } else if silent {
      var content' := if content == [] then [Protection(0, On, None)] else [];
      SilentWriteExample(version, content, content');
      assert Permitted(failures, silent, [Poll, ListOk, Send, SilentWrite(content')]);
    } else {
      forall steps | Permitted(false, false, steps) && Run(w0, steps).Some?
        ensures var w := Run(w0, steps).value;
                w.watcher.Sleeping? && w.stateVersion == w.version ==>
                  w.builds != [] && w.builds[|w.builds| - 1] == w.content
      {
        NothingMissed(w0, steps);
        RunKeeps(w0, steps);
        PollingSound(version, content, steps);
      }
    }
  }

  // ---------- catching up ----------

  /** A step of an agent whose calls all succeed. */
  predicate Smooth(s: Step) {
    s.Poll? || s.ListOk? || s.Send? || s.Take? || s == Install(true)
  }

  predicate AllSmooth(steps: seq<Step>) {
    forall i :: 0 <= i < |steps| ==> Smooth(steps[i])
  }

  lemma {:induction false} Extend(w: World, steps: seq<Step>, s: Step)
    requires Run(w, steps).Some? && Next(Run(w, steps).value, s).Some?
    ensures Run(w, steps + [s]) == Next(Run(w, steps).value, s)
    decreases |steps|
  {
    hide Next;
    if steps == [] {
      assert steps + [s] == [s] && [s][1..] == [];
    } else {
      assert (steps + [s])[1..] == steps[1..] + [s];
      Extend(Next(w, steps[0]).value, steps[1..], s);
    }
  }

  /** Every build is installed or was refused. */
  predicate Drained(w: World) {
    w.generator.Receiving? && w.channel == []
  }

  /** The generator takes what waits in the channel. */
  lemma Drain(w0: World, steps: seq<Step>) returns (more: seq<Step>)
    requires AllSmooth(steps) && Run(w0, steps).Some? && |Run(w0, steps).value.channel| <= CAPACITY
    ensures AllSmooth(more) && Run(w0, more).Some? && Drained(Run(w0, more).value)
    ensures var w, w' := Run(w0, steps).value, Run(w0, more).value;
            && w'.watcher == w.watcher && w'.stateVersion == w.stateVersion && w'.builds == w.builds
            && w'.version == w.version && w'.content == w.content
            && (w.channel != [] ==> w'.installed != [] && w'.installed[|w'.installed| - 1] == w.channel[0])
            && (Drained(w) ==> more == steps)
  {
    hide Run;
    more := steps;
    if Run(w0, more).value.generator.Installing? {
      Extend(w0, more, Install(true));
      more := more + [Install(true)];
    }
    if Run(w0, more).value.channel != [] {
      Extend(w0, more, Take);
      more := more + [Take];
      Extend(w0, more, Install(true));
      more := more + [Install(true)];
    }
  }

  /** A watcher with a build sends it, and it is installed. */
  lemma Deliver(w0: World, steps: seq<Step>) returns (more: seq<Step>)
    requires AllSmooth(steps) && Run(w0, steps).Some?
    requires var w := Run(w0, steps).value; w.watcher.Sending? && Drained(w)
    ensures AllSmooth(more) && Run(w0, more).Some?
    ensures var w, w' := Run(w0, steps).value, Run(w0, more).value;
            && Drained(w') && w'.watcher.Sleeping?
            && w'.stateVersion == w.stateVersion && w'.version == w.version && w'.content == w.content
            && w'.installed != [] && w'.installed[|w'.installed| - 1] == w.watcher.built
  {
    hide Run;
    Extend(w0, steps, Send);
    more := steps + [Send];
    more := Drain(w0, more);
  }

  /** The watcher is idle, has the current version, and what it built last is installed last. */
  predicate CaughtUp(w: World) {
    && w.watcher.Sleeping? && Drained(w) && w.stateVersion == w.version
    && w.installed != [] && w.installed[|w.installed| - 1] == w.content
  }

  lemma Fetch(w0: World, steps: seq<Step>) returns (more: seq<Step>)
    requires AllSmooth(steps) && Run(w0, steps).Some?
    requires var w := Run(w0, steps).value; w.watcher.Listing? && Drained(w) && w.stateVersion == w.version
    ensures AllSmooth(more) && Run(w0, more).Some? && CaughtUp(Run(w0, more).value)
    ensures Run(w0, more).value.content == Run(w0, steps).value.content
  {
    hide Run;
    Extend(w0, steps, ListOk);
    more := steps + [ListOk];
    more := Deliver(w0, more);
  }

  /** From any state an agent that is behind can catch up by its own steps: poll, list, send, take
      and install. */
  lemma CatchUp(w: World) returns (steps: seq<Step>)
    requires PipelineInv(w) && w.stateVersion != w.version
    ensures AllSmooth(steps) && Run(w, steps).Some? && CaughtUp(Run(w, steps).value)
    ensures Run(w, steps).value.content == w.content
  {
    steps := [];
    assert Run(w, []) == Some(w);
    hide Run;
    steps := Drain(w, steps);
    if Run(w, steps).value.watcher.Listing? {
      Extend(w, steps, ListOk);
      steps := steps + [ListOk];
    }
    if Run(w, steps).value.watcher.Sending? {
      steps := Deliver(w, steps);
    }
    Extend(w, steps, Poll);
    steps := steps + [Poll];
    steps := Fetch(w, steps);
  }

  /** In any run, whatever failed before, a write with a new version can always be followed up to
      its installation. */
  lemma WriteReachesSnapshot(version: string, content: Content, steps: seq<Step>, content': Content, version': string)
    returns (more: seq<Step>)
    requires version != "" && Run(Initial(version, content), steps).Some?
    requires var w := Run(Initial(version, content), steps).value; version' !in w.used && version' != ""
    ensures var w := Next(Run(Initial(version, content), steps).value, Write(content', version')).value;
            && AllSmooth(more) && Run(w, more).Some?
            && CaughtUp(Run(w, more).value) && Run(w, more).value.content == content'
  {
    hide Run;
    RunKeeps(Initial(version, content), steps);
    var w := Run(Initial(version, content), steps).value;
    NextKeeps(w, Write(content', version'));
    more := CatchUp(Next(w, Write(content', version')).value);
  }
}
