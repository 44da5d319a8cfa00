/** The resident loop of the device agent: takes commands one by one and stops at the first result that halts. */
module ResidentLoop {
  import opened Results
  import opened RateLimiter
  import opened DeviceEngine

  datatype LoopStatus = Starting | DeviceUnhealthy | Idle | Executing | Halted | Stopped

  datatype Heartbeat = Heartbeat(status: LoopStatus, healthy: bool, lastResult: Option<ActionResult>)

  /** What the loop meets at each turn: the stop flag, the device's health and the next command, if any. */
  datatype Turns = Turns(stopped: nat -> bool, healthy: nat -> bool, command: nat -> Option<Request>)

  /** One command the loop served: the call it started at, the state file it met, and what came of it. */
  datatype Served = Served(request: Request, start: nat, file: StateFile, log: Log, result: ActionResult)

  function Last(served: seq<Served>): Option<ActionResult> {
    if served == [] then None else Some(served[|served| - 1].result)
  }

  /** Every result but the last lets the loop go on. */
  predicate OnlyLastHalts(served: seq<Served>) {
    forall i | 0 <= i < |served| - 1 :: !served[i].result.halt
  }

  /** The writes of the log were made before call n. */
  predicate Made(log: Log, n: nat) {
    (log.recorded.Some? ==> log.recorded.value < n) && (log.cooled.Some? ==> log.cooled.value.0 < n)
  }

  /**
   Each served command was executed in full, from the state file and the call the one before it left;
   together they made this many mutating taps.
   */
  predicate Chained(world: World, manifest: Manifest, policy: Policy, file: StateFile, calls: nat, served: seq<Served>,
                    fileNow: StateFile, callsNow: nat, mutated: int)
    decreases |served|
  {
    if served == [] then fileNow == file && callsNow == calls && mutated == 0 else
      var e := served[|served| - 1];
      && Executed(world, manifest, policy, e.file, e.request, e.start, e.log, e.result)
      && fileNow == FileAfter(policy, world, e.file, e.log.recorded, e.log.cooled)
      && e.start < callsNow && Made(e.log, callsNow)
      && Chained(world, manifest, policy, file, calls, served[..|served| - 1], e.file, e.start,
                 mutated - if e.log.tapped.Some? then 1 else 0)
  }

  /** The commands of the turns up to k, in order. */
  function Commands(turns: Turns, k: nat): seq<Request> {
    if k == 0 then [] else
      Commands(turns, k - 1) + if turns.command(k).Some? then [turns.command(k).value] else []
  }

  function Requests(served: seq<Served>): seq<Request> {
    if served == [] then [] else Requests(served[..|served| - 1]) + [served[|served| - 1].request]
  }

  /** The loop may begin its turn after k turns. */
  predicate GoesOn(turns: Turns, maxIterations: Option<nat>, k: nat) {
    !turns.stopped(k) && (maxIterations.Some? ==> k < maxIterations.value)
  }

  /** Turns 1 to k were begun with nothing to stop them, and met a healthy device. */
  predicate Begun(turns: Turns, maxIterations: Option<nat>, k: nat) {
    && (forall j | 0 <= j < k :: GoesOn(turns, maxIterations, j))
    && (forall j | 0 < j <= k :: turns.healthy(j))
  }

  lemma OneMoreBegun(turns: Turns, maxIterations: Option<nat>, k: nat)
    requires Begun(turns, maxIterations, k) && GoesOn(turns, maxIterations, k) && turns.healthy(k + 1)
    ensures Begun(turns, maxIterations, k + 1)
  {
  }

  /** Why the loop ended in turn last: the device was unhealthy, the last result halts, or it could not go on. */
  predicate EndedFor(turns: Turns, maxIterations: Option<nat>, last: nat, status: LoopStatus, served: seq<Served>) {
    match status
    case DeviceUnhealthy =>
      last > 0 && Begun(turns, maxIterations, last - 1) && GoesOn(turns, maxIterations, last - 1) &&
        !turns.healthy(last)
    case Halted => Begun(turns, maxIterations, last) && Last(served).Some? && Last(served).value.halt
    case Stopped => Begun(turns, maxIterations, last) && !GoesOn(turns, maxIterations, last)
    case _ => false
  }

  // ----- What the served commands recorded -----

  /** The times at which the served commands recorded their mutations, in order. */
  function RecordTimes(world: World, served: seq<Served>): seq<real> {
    if served == [] then [] else
      RecordTimes(world, served[..|served| - 1]) + RecordTime(world, served[|served| - 1].log)
  }

  /** The limiter steps of the served commands. */
  function AllSteps(world: World, served: seq<Served>): seq<Step> {
    if served == [] then [] else
      AllSteps(world, served[..|served| - 1]) + StepsOf(world, served[|served| - 1].log)
  }

  /** A success was recorded, and a recorded mutation was tapped. */
  lemma ExecutedAccount(world: World, manifest: Manifest, policy: Policy, e: Served)
    requires Executed(world, manifest, policy, e.file, e.request, e.start, e.log, e.result)
    ensures e.log.recorded.Some? ==> e.log.tapped.Some?
    ensures e.log.tapped.Some? && e.log.recorded.None? ==> e.result.halt && !e.result.outcomeKnown
  {
    hide Runs, ShownAt;
    if e.log.tapped.Some? {
      ScreenFacts(world, manifest, e.request, e.log.before.value);
    }
  }

  /** Mutating taps exceed recorded ones by at most one, and then the last result halts with unknown outcome. */
  predicate RecordedButOne(world: World, served: seq<Served>, mutated: int) {
    var recorded := |RecordTimes(world, served)|;
    && recorded <= mutated <= recorded + 1
    && (mutated == recorded + 1 ==> served != [] && Last(served).value.halt && !Last(served).value.outcomeKnown)
  }

  lemma {:induction false} TapsAreRecordedButOne(world: World, manifest: Manifest, policy: Policy, file: StateFile,
      calls: nat, served: seq<Served>, fileNow: StateFile, callsNow: nat, mutated: int)
    requires Chained(world, manifest, policy, file, calls, served, fileNow, callsNow, mutated) && OnlyLastHalts(served)
    ensures RecordedButOne(world, served, mutated)
    decreases |served|
  {
    hide Executed;
    if served != [] {
      var front, e := served[..|served| - 1], served[|served| - 1];
      ExecutedAccount(world, manifest, policy, e);
      TapsAreRecordedButOne(world, manifest, policy, file, calls, front, e.file, e.start,
                            mutated - if e.log.tapped.Some? then 1 else 0);
      assert front != [] ==> front[|front| - 1] == served[|front| - 1];
    }
  }

  /** The state stands for the file, and the clock is steady and not behind it. */
  ghost predicate StandsFor(world: World, s: State, file: StateFile, calls: nat) {
    SteadyClock(world) && Holds(file, s) && s.clock <= world.clock(calls)
  }

  /** The served commands write the state file as a run of the limiter whose history is their record times. */
  lemma {:induction false} LoopIsLimiterRun(world: World, manifest: Manifest, policy: Policy, file: StateFile,
      calls: nat, served: seq<Served>, fileNow: StateFile, callsNow: nat, mutated: int, s: State)
    requires Chained(world, manifest, policy, file, calls, served, fileNow, callsNow, mutated)
    requires StandsFor(world, s, file, calls)
    ensures Run(policy, s, AllSteps(world, served))
    ensures StandsFor(world, End(policy, s, AllSteps(world, served)), fileNow, callsNow)
    ensures End(policy, s, AllSteps(world, served)).history == s.history + RecordTimes(world, served)
    decreases |served|
  {
    hide Executed, FileAfter, Run, End, StandsFor, StepsOf, RecordTime;
    if served == [] {
      EmptyRun(policy, s);
    } else {
      var front, e := served[..|served| - 1], served[|served| - 1];
      LoopIsLimiterRun(world, manifest, policy, file, calls, front, e.file, e.start,
                       mutated - if e.log.tapped.Some? then 1 else 0, s);
      OneMoreRun(world, manifest, policy, e, callsNow, End(policy, s, AllSteps(world, front)));
      RunAppend(policy, s, AllSteps(world, front), StepsOf(world, e.log));
    }
  }

  lemma EmptyRun(policy: Policy, s: State)
    ensures Run(policy, s, []) && End(policy, s, []) == s
  {
  }

  lemma OneMoreRun(world: World, manifest: Manifest, policy: Policy, e: Served, callsNow: nat, s: State)
    requires Executed(world, manifest, policy, e.file, e.request, e.start, e.log, e.result)
    requires StandsFor(world, s, e.file, e.start) && e.start < callsNow && Made(e.log, callsNow)
    ensures Run(policy, s, StepsOf(world, e.log))
    ensures StandsFor(world, End(policy, s, StepsOf(world, e.log)),
                      FileAfter(policy, world, e.file, e.log.recorded, e.log.cooled), callsNow)
    ensures End(policy, s, StepsOf(world, e.log)).history == s.history + RecordTime(world, e.log)
  {
    hide Classified, TappedProperly, Determined, Cooldown, AllowedAt, Run, End, FileAfter, StepsOf, Holds;
    AttemptIsLimiterRun(world, manifest, policy, e.file, e.request, e.log, s, callsNow);
  }

  predicate RecordedWithin(world: World, log: Log, from: real) {
    log.recorded.Some? && from <= world.clock(log.recorded.value) < from + HOUR
  }

  /** The served commands whose mutation was recorded in the hour from this time on. */
  function RecordedIn(world: World, served: seq<Served>, from: real): set<nat> {
    set i: nat | i < |served| && RecordedWithin(world, served[i].log, from)
  }

  lemma OneMoreMember(all: set<nat>, front: set<nat>, n: nat, more: bool)
    requires n !in front && forall i: nat :: i in all <==> i in front || (i == n && more)
    ensures |all| == |front| + if more then 1 else 0
  {
    assert all == front + if more then {n} else {};
  }

  lemma RecordedInStep(world: World, served: seq<Served>, from: real)
    requires served != []
    ensures |RecordedIn(world, served, from)| == |RecordedIn(world, served[..|served| - 1], from)| +
      if RecordedWithin(world, served[|served| - 1].log, from) then 1 else 0
  {
    hide RecordedWithin;
    var n := |served| - 1;
    var all, front := RecordedIn(world, served, from), RecordedIn(world, served[..n], from);
    forall i: nat
      ensures i in all <==> i in front || (i == n && RecordedWithin(world, served[n].log, from))
    {
      if i < n {
        assert served[..n][i] == served[i];
      }
    }
    OneMoreMember(all, front, n, RecordedWithin(world, served[n].log, from));
  }

  lemma {:induction false} WindowCounts(world: World, history: seq<real>, served: seq<Served>, from: real)
    ensures |InWindow(history + RecordTimes(world, served), from)| ==
      |InWindow(history, from)| + |RecordedIn(world, served, from)|
  {
    if served == [] {
      assert RecordedIn(world, served, from) == {};
      assert history + RecordTimes(world, served) == history;
    } else {
      hide InWindow, RecordTimes, RecordedIn;
      var front, log := served[..|served| - 1], served[|served| - 1].log;
      WindowCounts(world, history, front, from);
      RecordTimesStep(world, served);
      RecordedInStep(world, served, from);
      var times := history + RecordTimes(world, front);
      assert history + RecordTimes(world, served) == times + RecordTime(world, log);
      if log.recorded.Some? {
        WindowOfOneMore(times, world.clock(log.recorded.value), from);
      } else {
        assert times + RecordTime(world, log) == times;
      }
    }
  }

  lemma RecordTimesStep(world: World, served: seq<Served>)
    requires served != []
    ensures RecordTimes(world, served) ==
      RecordTimes(world, served[..|served| - 1]) + RecordTime(world, served[|served| - 1].log)
  {
  }

  lemma WindowOfOneMore(times: seq<real>, t: real, from: real)
    ensures |InWindow(times + [t], from)| == |InWindow(times, from)| + if from <= t < from + HOUR then 1 else 0
  {
    assert InWindow(times + [t], from) == InWindow(times, from) + if from <= t < from + HOUR then {|times|} else {};
  }

  /**
   Of the commands a loop serves, those whose mutation was recorded within any one hour keep to the
   hourly limit, counted together with the history the state file stood for at first.
   */
  lemma LoopKeepsHourlyLimit(world: World, manifest: Manifest, policy: Policy, file: StateFile, calls: nat,
      served: seq<Served>, fileNow: StateFile, callsNow: nat, mutated: int, s: State, from: real)
    requires Chained(world, manifest, policy, file, calls, served, fileNow, callsNow, mutated)
    requires StandsFor(world, s, file, calls) && Valid(policy, s)
    ensures |InWindow(s.history, from)| + |RecordedIn(world, served, from)| <= policy.maxPerHour
  {
    hide Chained, InWindow, RecordedIn, RecordTimes, AllSteps, Run, End;
    LoopIsLimiterRun(world, manifest, policy, file, calls, served, fileNow, callsNow, mutated, s);
    RunStaysValid(policy, s, AllSteps(world, served));
    WindowOfValid(policy, End(policy, s, AllSteps(world, served)), from);
    WindowCounts(world, s.history, served, from);
  }

  lemma WindowOfValid(policy: Policy, s: State, from: real)
    requires Valid(policy, s)
    ensures |InWindow(s.history, from)| <= policy.maxPerHour
  {
    WindowOfSpaced(policy, s.history, from, 0);
  }

  /** So does a loop that starts without a state file. */
  lemma FirstLoopKeepsHourlyLimit(world: World, manifest: Manifest, policy: Policy, calls: nat, served: seq<Served>,
      fileNow: StateFile, callsNow: nat, mutated: int, from: real)
    requires Chained(world, manifest, policy, Missing, calls, served, fileNow, callsNow, mutated) && SteadyClock(world)
    ensures |RecordedIn(world, served, from)| <= policy.maxPerHour
  {
    hide Chained, RecordedIn;
    LoopKeepsHourlyLimit(world, manifest, policy, Missing, calls, served, fileNow, callsNow, mutated,
                         Start(world.clock(calls)), from);
  }

  // ----- The loop -----

  class ResidentDeviceLoop {
    const engine: DeviceActionEngine
    const turns: Turns
    var heartbeats: seq<Heartbeat>

    constructor (engine: DeviceActionEngine, turns: Turns)
      ensures this.engine == engine && this.turns == turns && heartbeats == []
    {
      this.engine := engine;
      this.turns := turns;
      this.heartbeats := [];
    }

    /** The engine got where it is from this file, call and number of mutating taps by serving these commands. */
    ghost predicate ServedFrom(file: StateFile, calls: nat, mutated: nat, served: seq<Served>)
      reads engine, engine.limiter
    {
      && mutated <= Mutations(engine.inputs)
      && Chained(engine.world, engine.manifest, engine.limiter.policy, file, calls, served,
                 engine.limiter.file, engine.calls, Mutations(engine.inputs) - mutated)
    }

    method Beat(status: LoopStatus, healthy: bool, lastResult: Option<ActionResult>)
      modifies this
      ensures heartbeats == old(heartbeats) + [Heartbeat(status, healthy, lastResult)]
    {
      heartbeats := heartbeats + [Heartbeat(status, healthy, lastResult)];
    }

    /** Executes one command, between two heartbeats, and adds it to those served. */
    method Serve(command: Request, lastResult: Option<ActionResult>, ghost served: seq<Served>, ghost file: StateFile,
                 ghost calls: nat, ghost mutated: nat)
      returns (result: ActionResult, ghost entry: Served)
      requires ServedFrom(file, calls, mutated, served)
      requires OnlyLastHalts(served) && (Last(served).Some? ==> !Last(served).value.halt)
      modifies this, engine, engine.limiter
      ensures heartbeats == old(heartbeats) +
        [Heartbeat(Executing, true, lastResult),
         Heartbeat(if result.halt then Halted else Idle, !result.halt, Some(result))]
      ensures entry == Served(command, old(engine.calls), old(engine.limiter.file), engine.log, result)
      ensures Requests(served + [entry]) == Requests(served) + [command]
      ensures ServedFrom(file, calls, mutated, served + [entry])
      ensures OnlyLastHalts(served + [entry]) && Last(served + [entry]) == Some(result)
    {
      hide Chained, Mutations, Executed, FileAfter, Requests;
      ghost var met, start, tapped := engine.limiter.file, engine.calls, Mutations(engine.inputs) - mutated;
      Beat(Executing, true, lastResult);
      result := engine.Execute(command);
      entry := Served(command, start, met, engine.log, result);
      OneMoreServed(engine.world, engine.manifest, engine.limiter.policy, file, calls, served, tapped, entry,
                    engine.calls);
      Beat(if result.halt then Halted else Idle, !result.halt, Some(result));
    }

    /**
     Runs until stopped, out of iterations, unhealthy or halted. The ghost end is a turn by which the
     stop flag is set or the iterations are used up. The ghost results list the commands served, turn
     by turn up to the last one begun.
     */
    method RunLoop(maxIterations: Option<nat>, ghost end: nat)
      returns (lastResult: Option<ActionResult>, ghost served: seq<Served>, ghost last: nat)
      requires turns.stopped(end) || (maxIterations.Some? && maxIterations.value <= end)
      modifies this, engine, engine.limiter
      ensures lastResult == Last(served) && OnlyLastHalts(served)
      ensures |heartbeats| > |old(heartbeats)|
      ensures var final := heartbeats[|heartbeats| - 1];
        && final.lastResult == lastResult
        && EndedFor(turns, maxIterations, last, final.status, served)
        && Requests(served) == Commands(turns, if final.status == DeviceUnhealthy then last - 1 else last)
        && (final.status == Halted <==> lastResult.Some? && lastResult.value.halt)
        && (final.healthy <==> final.status == Stopped)
      ensures ServedFrom(old(engine.limiter.file), old(engine.calls), old(Mutations(engine.inputs)), served)
      ensures RecordedButOne(engine.world, served, Mutations(engine.inputs) - Mutations(old(engine.inputs)))
    {
      hide Mutations, Executed, Chained, Requests, Commands, Begun, RecordedButOne, OnlyLastHalts, Last;
      var iterations := 0;
      lastResult := None;
      served := [];
      var finalStatus := Stopped;
      ghost var mutated, file, calls := Mutations(engine.inputs), engine.limiter.file, engine.calls;
      NothingServed(engine.world, engine.manifest, engine.limiter.policy, file, calls, turns, maxIterations);
      Beat(Starting, turns.healthy(0), None);
      while !turns.stopped(iterations)
        invariant iterations <= end
        invariant lastResult == Last(served) && OnlyLastHalts(served)
        invariant lastResult.Some? ==> !lastResult.value.halt
        invariant ServedFrom(file, calls, mutated, served)
        invariant Requests(served) == Commands(turns, iterations)
        invariant Begun(turns, maxIterations, iterations)
        invariant finalStatus == Stopped && |heartbeats| > |old(heartbeats)|
        decreases end - iterations
      {
        if maxIterations.Some? && iterations >= maxIterations.value {
          break;
        }
        iterations := iterations + 1;
        if !turns.healthy(iterations) {
          Beat(DeviceUnhealthy, false, lastResult);
          finalStatus := DeviceUnhealthy;
          break;
        }
        OneMoreBegun(turns, maxIterations, iterations - 1);
        var command := turns.command(iterations);
        NextCommand(turns, iterations);
        if command.None? {
          Beat(Idle, true, lastResult);
          continue;
        }
        var result;
        ghost var entry;
        result, entry := Serve(command.value, lastResult, served, file, calls, mutated);
        lastResult := Some(result);
        served := served + [entry];
        if result.halt {
          finalStatus := Halted;
          break;
        }
      }
      last := iterations;
      TapsAreRecordedButOne(engine.world, engine.manifest, engine.limiter.policy, file, calls, served,
                            engine.limiter.file, engine.calls, Mutations(engine.inputs) - mutated);
      Beat(finalStatus, finalStatus == Stopped, lastResult);
    }
  }

  lemma NothingServed(world: World, manifest: Manifest, policy: Policy, file: StateFile, calls: nat, turns: Turns,
                      maxIterations: Option<nat>)
    ensures Chained(world, manifest, policy, file, calls, [], file, calls, 0) && Requests([]) == Commands(turns, 0)
    ensures Begun(turns, maxIterations, 0) && OnlyLastHalts([]) && Last([]) == None
  {
  }

  lemma OneMoreServed(world: World, manifest: Manifest, policy: Policy, file: StateFile, calls: nat,
      served: seq<Served>, mutated: int, entry: Served, callsNow: nat)
    requires Chained(world, manifest, policy, file, calls, served, entry.file, entry.start, mutated)
    requires Executed(world, manifest, policy, entry.file, entry.request, entry.start, entry.log, entry.result)
    requires entry.start < callsNow && Made(entry.log, callsNow)
    ensures Chained(world, manifest, policy, file, calls, served + [entry],
                    FileAfter(policy, world, entry.file, entry.log.recorded, entry.log.cooled), callsNow,
                    mutated + if entry.log.tapped.Some? then 1 else 0)
    ensures Requests(served + [entry]) == Requests(served) + [entry.request]
  {
    hide Executed, FileAfter;
    assert (served + [entry])[..|served|] == served;
  }

  lemma NextCommand(turns: Turns, k: nat)
    requires k > 0
    ensures Commands(turns, k) == Commands(turns, k - 1) +
      if turns.command(k).Some? then [turns.command(k).value] else []
  {
  }
}
