/**
 The device agent's persisted limiter. It keeps only the action times of the last hour, rewritten
 at every action, and a cooldown deadline. Times are seconds as reals.
 */
module RateLimiter {
  import opened Results

  const HOUR := 3600.0

  datatype PolicyFields = Policy(minInterval: real, maxPerHour: int, unknownCooldown: real, blockedCooldown: real)

  type Policy = p: PolicyFields |
    p.minInterval >= 0.0 && p.maxPerHour > 0 && p.unknownCooldown >= 0.0 && p.blockedCooldown >= 0.0
    witness Policy(30.0, 20, 300.0, 900.0)

  datatype Reason = CooldownActive | HourlyRateLimit | MinimumInterval

  datatype Decision = Allowed | Denied(reason: Reason, retryAfter: real)

  /** The state file: absent, unreadable, or a list of action times with a cooldown deadline. */
  datatype StateFile = Missing | Corrupt | Stored(times: seq<real>, cooldown: real)

  // ----- What one decision means -----

  function Recent(times: seq<real>, now: real): (recent: seq<real>)
    ensures |recent| <= |times|
    ensures forall t | t in recent :: now - t < HOUR
  {
    if times == [] then [] else
      var last := times[|times| - 1];
      Recent(times[..|times| - 1], now) + if now - last < HOUR then [last] else []
  }

  function Earliest(times: seq<real>): (e: real)
    requires times != []
    ensures e in times && forall t | t in times :: e <= t
  {
    var last := times[|times| - 1];
    if |times| == 1 then last else
      var e := Earliest(times[..|times| - 1]);
      assert forall t | t in times :: t in times[..|times| - 1] || t == last;
      if last < e then last else e
  }

  function Latest(times: seq<real>): (l: real)
    requires times != []
    ensures l in times && forall t | t in times :: t <= l
  {
    var last := times[|times| - 1];
    if |times| == 1 then last else
      var l := Latest(times[..|times| - 1]);
      assert forall t | t in times :: t in times[..|times| - 1] || t == last;
      if last > l then last else l
  }

  function Decide(policy: Policy, times: seq<real>, cooldown: real, now: real): Decision {
    var recent := Recent(times, now);
    if cooldown > now then Denied(CooldownActive, cooldown - now)
    else if |recent| >= policy.maxPerHour then Denied(HourlyRateLimit, HOUR - (now - Earliest(recent)))
    else if recent != [] && now - Latest(recent) < policy.minInterval then
      Denied(MinimumInterval, policy.minInterval - (now - Latest(recent)))
    else Allowed
  }

  function CooldownLength(policy: Policy, blocked: bool): real {
    if blocked then policy.blockedCooldown else policy.unknownCooldown
  }

  function Later(a: real, b: real): real {
    if a < b then b else a
  }

  // ----- What the file holds -----

  function Times(file: StateFile): seq<real> {
    if file.Stored? then file.times else []
  }

  function Deadline(file: StateFile): real {
    if file.Stored? then file.cooldown else 0.0
  }

  function DecideFile(policy: Policy, file: StateFile, now: real): Decision {
    Decide(policy, Times(file), Deadline(file), now)
  }

  /** An action is added and the times an hour old or more are dropped; a malformed file stays as it is. */
  function AfterMutation(file: StateFile, now: real): StateFile {
    if file.Corrupt? then Corrupt else Stored(Recent(Times(file), now) + [now], Deadline(file))
  }

  function AfterCooldown(policy: Policy, file: StateFile, now: real, blocked: bool): StateFile {
    if file.Corrupt? then Corrupt else Stored(Times(file), Later(Deadline(file), now + CooldownLength(policy, blocked)))
  }

  // ----- The limiter -----

  predicate Ascending(s: seq<real>) {
    forall i, j | 0 <= i < j < |s| :: s[i] <= s[j]
  }

  /** The same times in ascending order, by insertion. */
  function SortTimes(s: seq<real>): (r: seq<real>)
    ensures Ascending(r) && |r| == |s| && forall t :: t in r <==> t in s
  {
    if s == [] then [] else InsertTime(s[0], SortTimes(s[1..]))
  }

  function InsertTime(x: real, s: seq<real>): (r: seq<real>)
    requires Ascending(s)
    ensures Ascending(r) && |r| == |s| + 1 && forall t :: t in r <==> t == x || t in s
  {
    if s == [] || x <= s[0] then [x] + s else
      assert Ascending(s[1..]);
      assert forall t :: t in s <==> t == s[0] || t in s[1..];
      AscendingCons(s[0], InsertTime(x, s[1..]));
      [s[0]] + InsertTime(x, s[1..])
  }

  lemma AscendingCons(x: real, s: seq<real>)
    requires Ascending(s) && forall t | t in s :: x <= t
    ensures Ascending([x] + s)
  {
    forall i, j | 0 <= i < j < |[x] + s| ensures ([x] + s)[i] <= ([x] + s)[j] {
      assert s[j - 1] in s;
    }
  }

  lemma SortedEnds(s: seq<real>)
    requires s != []
    ensures SortTimes(s)[0] == Earliest(s) && SortTimes(s)[|s| - 1] == Latest(s)
  {
    var r := SortTimes(s);
    forall i | 0 <= i < |r| ensures Earliest(s) <= r[i] <= Latest(s) {
      assert r[i] in r;
    }
    EndsOfAscending(r, Earliest(s), Latest(s));
  }

  lemma EndsOfAscending(r: seq<real>, lo: real, hi: real)
    requires Ascending(r) && lo in r && hi in r && forall i | 0 <= i < |r| :: lo <= r[i] <= hi
    ensures r[0] == lo && r[|r| - 1] == hi
  {
    var i :| 0 <= i < |r| && r[i] == lo;
    var j :| 0 <= j < |r| && r[j] == hi;
    assert r[0] <= r[i] && r[j] <= r[|r| - 1];
  }

  class PersistentRateLimiter {
    const policy: Policy
    var file: StateFile

    constructor (policy: Policy, file: StateFile)
      ensures this.policy == policy && this.file == file
    {
      this.policy := policy;
      this.file := file;
    }

    method Load() returns (state: Result<(seq<real>, real), string>)
      ensures state == match file
        case Missing => Ok(([], 0.0))
        case Corrupt => Err("limiter state is malformed")
        case Stored(times, cooldown) => Ok((times, cooldown))
    {
      match file {
        case Missing => return Ok(([], 0.0));
        case Corrupt => return Err("limiter state is malformed");
        case Stored(times, cooldown) => return Ok((times, cooldown));
      }
    }

    method RecentTimes(times: seq<real>, now: real) returns (recent: seq<real>)
      ensures recent == Recent(times, now)
    {
      recent := [];
      for i := 0 to |times|
        invariant recent == Recent(times[..i], now)
      {
        assert times[..i + 1][..i] == times[..i];
        if now - times[i] < HOUR {
          recent := recent + [times[i]];
        }
      }
      assert times[..|times|] == times;
    }

    method Sorted(times: seq<real>) returns (sorted: seq<real>)
      ensures |sorted| == |times|
      ensures times != [] ==> sorted[0] == Earliest(times) && sorted[|times| - 1] == Latest(times)
    {
      sorted := SortTimes(times);
      if times != [] {
        SortedEnds(times);
      }
    }

    /** Decides whether an action may start; a malformed file stops it instead of resetting. */
    method Check(now: real) returns (decision: Result<Decision, string>)
      ensures decision.Err? <==> file.Corrupt?
      ensures !file.Corrupt? ==> decision == Ok(DecideFile(policy, file, now))
    {
      hide Recent, Earliest, Latest;
      var state :- Load();
      if state.1 > now {
        return Ok(Denied(CooldownActive, state.1 - now));
      }
      var unsorted := RecentTimes(state.0, now);
      var recent := Sorted(unsorted);
      if |recent| >= policy.maxPerHour {
        return Ok(Denied(HourlyRateLimit, Later(0.0, HOUR - (now - recent[0]))));
      }
      if recent != [] && now - recent[|recent| - 1] < policy.minInterval {
        return Ok(Denied(MinimumInterval, policy.minInterval - (now - recent[|recent| - 1])));
      }
      return Ok(Allowed);
    }

    /** Adds an action time and forgets those an hour old or more. */
    method RecordMutation(now: real) returns (result: Result<(), string>)
      modifies this
      ensures result.Err? <==> old(file).Corrupt?
      ensures file == AfterMutation(old(file), now)
    {
      var state :- Load();
      var recent := RecentTimes(state.0, now);
      file := Stored(recent + [now], state.1);
      return Ok(());
    }

    /** Extends the cooldown deadline, never shortens it. */
    method RecordCooldown(now: real, blocked: bool) returns (result: Result<(), string>)
      modifies this
      ensures result.Err? <==> old(file).Corrupt?
      ensures file == AfterCooldown(policy, old(file), now, blocked)
    {
      var state :- Load();
      var duration := if blocked then policy.blockedCooldown else policy.unknownCooldown;
      file := Stored(state.0, Later(state.1, now + duration));
      return Ok(());
    }
  }

  // ----- What the limiter asks for -----

  /** The actions less than an hour ago. */
  function RecentActions(times: seq<real>, now: real): set<nat> {
    set k: nat | k < |times| && now - times[k] < 3600.0
  }

  lemma {:induction false} RecentIsCounted(times: seq<real>, now: real)
    ensures |Recent(times, now)| == |RecentActions(times, now)|
  {
    if times == [] {
      assert RecentActions(times, now) == {};
    } else {
      var n, front := |times| - 1, times[..|times| - 1];
      RecentIsCounted(front, now);
      if now - times[n] < 3600.0 {
        assert RecentActions(times, now) == RecentActions(front, now) + {n};
      } else {
        assert RecentActions(times, now) == RecentActions(front, now);
      }
    }
  }

  lemma {:induction false} RecentAreThose(times: seq<real>, now: real, t: real)
    ensures t in Recent(times, now) <==> exists k :: k in RecentActions(times, now) && times[k] == t
  {
    if times != [] {
      var n, front := |times| - 1, times[..|times| - 1];
      RecentAreThose(front, now, t);
      if k :| k in RecentActions(front, now) && front[k] == t {
        assert k in RecentActions(times, now) && times[k] == t;
      }
      if k :| k in RecentActions(times, now) && times[k] == t {
        assert k == n || (k in RecentActions(front, now) && front[k] == t);
      }
      if now - times[n] < 3600.0 {
        assert n in RecentActions(times, now);
      }
    }
  }

  /**
   An action is allowed exactly when no cooldown runs, fewer actions than the limit lie less than an hour back,
   and each of these is at least the minimum interval ago. A denial names the first of these that fails.
   */
  lemma AllowedIff(policy: Policy, times: seq<real>, cooldown: real, now: real)
    ensures var d, recent := Decide(policy, times, cooldown, now), RecentActions(times, now);
      var spaced := forall k | k in recent :: now - times[k] >= policy.minInterval;
      && (d == Allowed <==> cooldown <= now && |recent| < policy.maxPerHour && spaced)
      && (d.Denied? && d.reason == CooldownActive <==> now < cooldown)
      && (d.Denied? && d.reason == HourlyRateLimit <==> cooldown <= now && policy.maxPerHour <= |recent|)
  {
    hide Recent;
    var all, recent := Recent(times, now), RecentActions(times, now);
    RecentIsCounted(times, now);
    if all != [] {
      var last := Latest(all);
      RecentAreThose(times, now, last);
      var k :| k in recent && times[k] == last;
      forall j | j in recent
        ensures times[j] <= last
      {
        RecentAreThose(times, now, times[j]);
      }
    } else {
      assert recent == {};
    }
  }

  /** After an hour without actions and past the cooldown, an action is always allowed. */
  lemma QuietHourAllows(policy: Policy, times: seq<real>, cooldown: real, now: real)
    requires cooldown <= now && forall k | 0 <= k < |times| :: times[k] + 3600.0 <= now
    ensures Decide(policy, times, cooldown, now) == Allowed
  {
    assert RecentActions(times, now) == {};
    AllowedIff(policy, times, cooldown, now);
  }

  /** From a cooldown on, actions are denied for its length: the blocked one for a risk text, else the unknown one. */
  lemma CooldownLastsItsLength(policy: Policy, file: StateFile, at: real, now: real)
    requires !file.Corrupt? && at <= now
    ensures now < at + policy.blockedCooldown ==>
      exists wait :: DecideFile(policy, AfterCooldown(policy, file, at, true), now) == Denied(CooldownActive, wait)
    ensures now < at + policy.unknownCooldown ==>
      exists wait :: DecideFile(policy, AfterCooldown(policy, file, at, false), now) == Denied(CooldownActive, wait)
    ensures Deadline(AfterCooldown(policy, file, at, true)) == Deadline(file) ||
      Deadline(AfterCooldown(policy, file, at, true)) == at + policy.blockedCooldown
    ensures Deadline(AfterCooldown(policy, file, at, false)) == Deadline(file) ||
      Deadline(AfterCooldown(policy, file, at, false)) == at + policy.unknownCooldown
  {
    hide Recent, Earliest, Latest;
    var blocked, unknown := AfterCooldown(policy, file, at, true), AfterCooldown(policy, file, at, false);
    assert now < Deadline(blocked) ==>
      DecideFile(policy, blocked, now) == Denied(CooldownActive, Deadline(blocked) - now);
    assert now < Deadline(unknown) ==>
      DecideFile(policy, unknown, now) == Denied(CooldownActive, Deadline(unknown) - now);
  }

  // ----- Forgetting old times is harmless -----

  lemma RecentAppend(times: seq<real>, t: real, now: real)
    ensures Recent(times + [t], now) == Recent(times, now) + if now - t < HOUR then [t] else []
  {
    assert (times + [t])[..|times|] == times;
  }

  lemma {:induction false} RecentOfRecent(times: seq<real>, t: real, now: real)
    requires t <= now
    ensures Recent(Recent(times, t), now) == Recent(times, now)
  {
    if times != [] {
      var front, last := times[..|times| - 1], times[|times| - 1];
      RecentOfRecent(front, t, now);
      RecentAppend(Recent(front, t), last, now);
      if t - last < HOUR {
        assert Recent(times, t) == Recent(front, t) + [last];
      } else {
        assert Recent(times, t) == Recent(front, t);
      }
    }
  }

  // ----- Runs -----

  /**
   The limiter under the account lock: history holds every action ever recorded, and clock the
   time of the last event.
   */
  datatype State = State(times: seq<real>, cooldown: real, clock: real, history: seq<real>)

  /** An action that was checked, allowed and then recorded, or a cooldown. */
  datatype Step = Acted(checked: real, recorded: real) | Cooled(at: real, blocked: bool)

  predicate Enabled(policy: Policy, s: State, step: Step) {
    match step
    case Acted(checked, recorded) =>
      s.clock <= checked <= recorded && Decide(policy, s.times, s.cooldown, checked) == Allowed
    case Cooled(at, _) => s.clock <= at
  }

  function Apply(policy: Policy, s: State, step: Step): State {
    match step
    case Acted(_, recorded) =>
      State(Recent(s.times, recorded) + [recorded], s.cooldown, recorded, s.history + [recorded])
    case Cooled(at, blocked) =>
      State(s.times, Later(s.cooldown, at + CooldownLength(policy, blocked)), at, s.history)
  }

  predicate Run(policy: Policy, s: State, steps: seq<Step>)
    decreases |steps|
  {
    steps == [] || (Enabled(policy, s, steps[0]) && Run(policy, Apply(policy, s, steps[0]), steps[1..]))
  }

  function End(policy: Policy, s: State, steps: seq<Step>): State
    decreases |steps|
  {
    if steps == [] then s else End(policy, Apply(policy, s, steps[0]), steps[1..])
  }

  lemma {:induction false} RunAppend(policy: Policy, s: State, first: seq<Step>, second: seq<Step>)
    requires Run(policy, s, first) && Run(policy, End(policy, s, first), second)
    ensures Run(policy, s, first + second)
    ensures End(policy, s, first + second) == End(policy, End(policy, s, first), second)
    decreases |first|
  {
    hide Enabled, Apply;
    if first == [] {
      assert first + second == second;
    } else {
      RunAppend(policy, Apply(policy, s, first[0]), first[1..], second);
      assert (first + second)[1..] == first[1..] + second;
    }
  }

  /** A limiter with no state file yet. */
  function Start(clock: real): State {
    State([], 0.0, clock, [])
  }

  /** The pruned list gives the same recent actions as the whole history from now on. */
  ghost predicate Agrees(times: seq<real>, history: seq<real>, clock: real) {
    forall now: real :: clock <= now ==> Recent(times, now) == Recent(history, now)
  }

  predicate Spaced(policy: Policy, history: seq<real>) {
    && (forall i | 0 <= i && i + policy.maxPerHour < |history| :: history[i] + HOUR <= history[i + policy.maxPerHour])
    && (forall i | 0 < i < |history| ::
          history[i - 1] + policy.minInterval <= history[i] || history[i - 1] + HOUR <= history[i])
  }

  ghost predicate Valid(policy: Policy, s: State) {
    && Ascending(s.history) && (forall t | t in s.history :: t <= s.clock)
    && Agrees(s.times, s.history, s.clock)
    && |s.times| <= policy.maxPerHour
    && Spaced(policy, s.history)
  }

  lemma RecordKeepsAgreement(times: seq<real>, history: seq<real>, clock: real, recorded: real)
    requires Agrees(times, history, clock) && clock <= recorded
    ensures Agrees(Recent(times, recorded) + [recorded], history + [recorded], recorded)
  {
    forall now: real | recorded <= now
      ensures Recent(Recent(times, recorded) + [recorded], now) == Recent(history + [recorded], now)
    {
      RecentOfRecent(times, recorded, now);
      RecentAppend(Recent(times, recorded), recorded, now);
      RecentAppend(history, recorded, now);
    }
  }

  /** In an ascending history the recent times are its tail. */
  lemma {:induction false} RecentIsTail(history: seq<real>, now: real, k: nat)
    requires Ascending(history) && k < |history| && now - history[k] < HOUR
    ensures |Recent(history, now)| >= |history| - k
  {
    if k < |history| - 1 {
      RecentIsTail(history[..|history| - 1], now, k);
    }
  }

  lemma RecentCountFalls(times: seq<real>, t: real, now: real)
    requires t <= now
    ensures |Recent(times, now)| <= |Recent(times, t)|
  {
    RecentOfRecent(times, t, now);
  }

  /** When an action is allowed, the limit's worth of actions reaches back an hour. */
  lemma AllowedMeansRoom(policy: Policy, history: seq<real>, cooldown: real, checked: real)
    requires Ascending(history) && Decide(policy, history, cooldown, checked) == Allowed
    ensures |history| >= policy.maxPerHour ==> checked - history[|history| - policy.maxPerHour] >= HOUR
  {
    var k := |history| - policy.maxPerHour;
    if k >= 0 && checked - history[k] < HOUR {
      RecentIsTail(history, checked, k);
      assert false;
    }
  }

  lemma AllowedMeansApart(policy: Policy, history: seq<real>, cooldown: real, checked: real)
    requires Decide(policy, history, cooldown, checked) == Allowed && history != []
    ensures history[|history| - 1] + policy.minInterval <= checked || history[|history| - 1] + HOUR <= checked
  {
    var last := history[|history| - 1];
    if checked - last < HOUR {
      assert Recent(history, checked)[|Recent(history, checked)| - 1] == last;
      assert last <= Latest(Recent(history, checked));
    }
  }

  lemma AllowedActionIsSpaced(policy: Policy, history: seq<real>, cooldown: real, checked: real, recorded: real)
    requires Ascending(history) && (forall t | t in history :: t <= checked) && checked <= recorded
    requires Decide(policy, history, cooldown, checked) == Allowed && Spaced(policy, history)
    ensures Spaced(policy, history + [recorded]) && Ascending(history + [recorded])
  {
    AllowedMeansRoom(policy, history, cooldown, checked);
    if history != [] {
      AllowedMeansApart(policy, history, cooldown, checked);
    }
    hide Decide;
  }

  lemma StepKeepsValid(policy: Policy, s: State, step: Step)
    requires Valid(policy, s) && Enabled(policy, s, step)
    ensures Valid(policy, Apply(policy, s, step))
  {
    match step
    case Cooled(_, _) =>
    case Acted(checked, recorded) =>
      assert Recent(s.times, checked) == Recent(s.history, checked);
      AllowedActionIsSpaced(policy, s.history, s.cooldown, checked, recorded);
      RecordKeepsAgreement(s.times, s.history, s.clock, recorded);
      RecentCountFalls(s.times, checked, recorded);
  }

  lemma {:induction false} RunStaysValid(policy: Policy, s: State, steps: seq<Step>)
    requires Valid(policy, s) && Run(policy, s, steps)
    ensures Valid(policy, End(policy, s, steps))
    decreases |steps|
  {
    if steps != [] {
      StepKeepsValid(policy, s, steps[0]);
      RunStaysValid(policy, Apply(policy, s, steps[0]), steps[1..]);
    }
  }

  /** The pruned list decides as the whole history would, at every later time of every run. */
  lemma PrunedDecidesAsFullHistory(policy: Policy, start: real, steps: seq<Step>, now: real)
    requires Run(policy, Start(start), steps) && now >= End(policy, Start(start), steps).clock
    ensures var s := End(policy, Start(start), steps);
      Decide(policy, s.times, s.cooldown, now) == Decide(policy, s.history, s.cooldown, now)
  {
    RunStaysValid(policy, Start(start), steps);
  }

  // ----- Safety over whole runs -----

  function InWindow(history: seq<real>, from: real): set<nat> {
    set i: nat | i < |history| && from <= history[i] < from + HOUR
  }

  lemma {:induction false} RangeSize(s: set<nat>, lo: nat, n: nat)
    requires forall i | i in s :: lo <= i < lo + n
    ensures |s| <= n
  {
    if n == 0 {
      assert s == {};
    } else {
      var rest := s - {lo + n - 1};
      RangeSize(rest, lo, n - 1);
      assert |s| <= |rest| + 1 by {
        if lo + n - 1 in s { assert s == rest + {lo + n - 1}; } else { assert s == rest; }
      }
    }
  }

  /** Every half-open window of an hour holds at most the hourly limit of actions, in every run. */
  lemma HourlyLimitHolds(policy: Policy, start: real, steps: seq<Step>, from: real)
    requires Run(policy, Start(start), steps)
    ensures |InWindow(End(policy, Start(start), steps).history, from)| <= policy.maxPerHour
  {
    RunStaysValid(policy, Start(start), steps);
    var history := End(policy, Start(start), steps).history;
    WindowOfSpaced(policy, history, from, 0);
  }

  lemma {:induction false} WindowOfSpaced(policy: Policy, history: seq<real>, from: real, k: nat)
    requires Ascending(history) && Spaced(policy, history) && k <= |history|
    requires forall i | 0 <= i < k :: i !in InWindow(history, from)
    ensures |InWindow(history, from)| <= policy.maxPerHour
    decreases |history| - k
  {
    if k == |history| {
      assert InWindow(history, from) == {};
    } else if k in InWindow(history, from) {
      var n := policy.maxPerHour;
      forall i | i in InWindow(history, from) ensures k <= i < k + n {
        assert k + n < |history| ==> history[k] + HOUR <= history[k + n];
      }
      RangeSize(InWindow(history, from), k, n);
    } else {
      WindowOfSpaced(policy, history, from, k + 1);
    }
  }

  /** Consecutive actions are at least the minimum interval, or an hour if that is shorter, apart. */
  lemma ActionsAreApart(policy: Policy, start: real, steps: seq<Step>, i: nat)
    requires Run(policy, Start(start), steps) && 0 < i < |End(policy, Start(start), steps).history|
    ensures var history := End(policy, Start(start), steps).history;
      history[i] - history[i - 1] >= if policy.minInterval <= HOUR then policy.minInterval else HOUR
  {
    RunStaysValid(policy, Start(start), steps);
  }

  /** No action starts before a cooldown recorded earlier in the run has passed. */
  lemma {:induction false} CooldownHolds(policy: Policy, s: State, steps: seq<Step>, i: nat, j: nat)
    requires Run(policy, s, steps) && i < j < |steps| && steps[i].Cooled? && steps[j].Acted?
    ensures steps[j].checked >= steps[i].at + CooldownLength(policy, steps[i].blocked)
    decreases |steps|
  {
    var next := Apply(policy, s, steps[0]);
    if i == 0 {
      CooldownKept(policy, next, steps[1..], j - 1);
    } else {
      CooldownHolds(policy, next, steps[1..], i - 1, j - 1);
    }
  }

  lemma {:induction false} CooldownKept(policy: Policy, s: State, steps: seq<Step>, j: nat)
    requires Run(policy, s, steps) && j < |steps| && steps[j].Acted?
    ensures steps[j].checked >= s.cooldown
    decreases |steps|
  {
    if j > 0 {
      CooldownKept(policy, Apply(policy, s, steps[0]), steps[1..], j - 1);
    }
  }

  // ----- Retry advice -----

  /** The advice after a cooldown is exact: that reason is given until then and not after. */
  lemma CooldownAdviceIsExact(policy: Policy, s: State, now: real, later: real)
    requires now <= later && Decide(policy, s.times, s.cooldown, now).Denied?
    requires Decide(policy, s.times, s.cooldown, now).reason == CooldownActive
    ensures var wait := Decide(policy, s.times, s.cooldown, now).retryAfter;
      (Decide(policy, s.times, s.cooldown, later).Denied? &&
       Decide(policy, s.times, s.cooldown, later).reason == CooldownActive) <==> later < now + wait
  {
  }

  /** In every state a run reaches, the advice about the hourly limit is sufficient and exact. */
  lemma HourlyAdviceIsExact(policy: Policy, start: real, steps: seq<Step>, now: real, later: real)
    requires Run(policy, Start(start), steps)
    requires var s := End(policy, Start(start), steps);
      && s.clock <= now <= later
      && Decide(policy, s.times, s.cooldown, now).Denied?
      && Decide(policy, s.times, s.cooldown, now).reason == HourlyRateLimit
    ensures var s := End(policy, Start(start), steps);
      var wait := Decide(policy, s.times, s.cooldown, now).retryAfter;
      (Decide(policy, s.times, s.cooldown, later).Denied? &&
       Decide(policy, s.times, s.cooldown, later).reason == HourlyRateLimit) <==> later < now + wait
  {
    hide Run, End, Recent, Earliest, Latest, Agrees, Spaced;
    RunStaysValid(policy, Start(start), steps);
    var s := End(policy, Start(start), steps);
    var recent := Recent(s.times, now);
    RecentOfRecent(s.times, now, later);
    if later - Earliest(recent) < HOUR {
      AllStillRecent(recent, later);
    } else {
      OneForgotten(recent, later, Earliest(recent));
    }
  }

  lemma {:induction false} AllStillRecent(recent: seq<real>, later: real)
    requires forall t | t in recent :: later - t < HOUR
    ensures Recent(recent, later) == recent
  {
    if recent != [] {
      var front := recent[..|recent| - 1];
      var last := recent[|recent| - 1];
      assert recent == front + [last];
      assert last in recent;
      assert forall t | t in front :: t in recent;
      AllStillRecent(front, later);
    }
  }

  lemma {:induction false} AllForgotten(recent: seq<real>, later: real)
    requires forall t | t in recent :: later - t >= HOUR
    ensures Recent(recent, later) == []
  {
    if recent != [] {
      var front := recent[..|recent| - 1];
      assert recent[|recent| - 1] in recent;
      assert forall t | t in front :: t in recent;
      AllForgotten(front, later);
    }
  }

  lemma {:induction false} OneForgotten(recent: seq<real>, later: real, t: real)
    requires t in recent && later - t >= HOUR
    ensures |Recent(recent, later)| < |recent|
  {
    if recent[|recent| - 1] != t {
      OneForgotten(recent[..|recent| - 1], later, t);
    }
  }

  /**
   With no further action, the minimum-interval reason lasts until the shorter of the interval and
   an hour after the last action. So the advice is always sufficient, and exact when the interval
   is at most an hour.
   */
  lemma IntervalReasonLasts(policy: Policy, s: State, now: real, later: real)
    requires now <= later && Decide(policy, s.times, s.cooldown, now).Denied?
    requires Decide(policy, s.times, s.cooldown, now).reason == MinimumInterval
    ensures var wait := Decide(policy, s.times, s.cooldown, now).retryAfter;
      var last := Latest(Recent(s.times, now));
      && now + wait == last + policy.minInterval
      && (Decide(policy, s.times, s.cooldown, later) != Allowed <==>
          later < last + policy.minInterval && later < last + HOUR)
      && (Decide(policy, s.times, s.cooldown, later) != Allowed ==>
          Decide(policy, s.times, s.cooldown, later).reason == MinimumInterval)
  {
    var recent := Recent(s.times, now);
    var last := Latest(recent);
    RecentOfRecent(s.times, now, later);
    RecentCountFalls(s.times, now, later);
    var still := Recent(recent, later);
    if later - last < HOUR {
      KeepsRecent(recent, later, last);
      assert Latest(still) == last by { RecentOnlyOld(recent, later); }
    } else {
      AllForgotten(recent, later);
    }
  }

  lemma {:induction false} KeepsRecent(times: seq<real>, now: real, t: real)
    requires t in times && now - t < HOUR
    ensures t in Recent(times, now)
  {
    if times[|times| - 1] != t {
      KeepsRecent(times[..|times| - 1], now, t);
    }
  }

  lemma {:induction false} RecentOnlyOld(times: seq<real>, now: real)
    ensures forall t | t in Recent(times, now) :: t in times
  {
    if times != [] {
      RecentOnlyOld(times[..|times| - 1], now);
    }
  }

  /** The advice for the minimum interval is exact exactly when the interval is at most an hour. */
  lemma IntervalAdviceExactIff(policy: Policy, s: State, now: real)
    requires Decide(policy, s.times, s.cooldown, now).Denied?
    requires Decide(policy, s.times, s.cooldown, now).reason == MinimumInterval
    ensures policy.minInterval <= HOUR <==>
      forall later: real | now <= later :: (Decide(policy, s.times, s.cooldown, later) == Allowed <==>
        now + Decide(policy, s.times, s.cooldown, now).retryAfter <= later)
  {
    var last := Latest(Recent(s.times, now));
    forall later: real | now <= later
      ensures Decide(policy, s.times, s.cooldown, later) != Allowed <==>
        later < last + policy.minInterval && later < last + HOUR
    {
      IntervalReasonLasts(policy, s, now, later);
    }
    IntervalReasonLasts(policy, s, now, now);
    assert now < last + HOUR;
    if policy.minInterval > HOUR {
      assert Decide(policy, s.times, s.cooldown, last + HOUR) == Allowed;
    }
  }

  /** The hourly limit is the reason given. */
  predicate HourlyDenied(policy: Policy, times: seq<real>, cooldown: real, now: real) {
    Decide(policy, times, cooldown, now).Denied? && Decide(policy, times, cooldown, now).reason == HourlyRateLimit
  }

  /** The times strictly later than t. */
  function LaterThan(times: seq<real>, t: real): seq<real> {
    if times == [] then [] else
      var last := times[|times| - 1];
      LaterThan(times[..|times| - 1], t) + if last > t then [last] else []
  }

  lemma {:induction false} RecentAnHourOn(times: seq<real>, t: real)
    ensures Recent(times, t + HOUR) == LaterThan(times, t)
  {
    if times != [] {
      RecentAnHourOn(times[..|times| - 1], t);
    }
  }

  lemma HourlyDeniedIff(policy: Policy, times: seq<real>, cooldown: real, now: real)
    ensures HourlyDenied(policy, times, cooldown, now) <==> cooldown <= now && |Recent(times, now)| >= policy.maxPerHour
    ensures HourlyDenied(policy, times, cooldown, now) ==>
      now + Decide(policy, times, cooldown, now).retryAfter == Earliest(Recent(times, now)) + HOUR
  {
    hide Recent, Earliest, Latest;
  }

  /**
   In any state at all the hourly reason lasts until the advised time. The advice suffices exactly when
   fewer recent actions than the limit are later than the earliest; then the reason stays away.
   */
  lemma HourlyAdviceSufficesIff(policy: Policy, times: seq<real>, cooldown: real, now: real, later: real)
    requires HourlyDenied(policy, times, cooldown, now) && now <= later
    ensures var recent := Recent(times, now);
      var until := now + Decide(policy, times, cooldown, now).retryAfter;
      && (later < until ==> HourlyDenied(policy, times, cooldown, later))
      && (HourlyDenied(policy, times, cooldown, until) <==> |LaterThan(recent, Earliest(recent))| >= policy.maxPerHour)
      && (!HourlyDenied(policy, times, cooldown, until) && later >= until ==>
          !HourlyDenied(policy, times, cooldown, later))
  {
    hide Recent, Earliest, Decide, HourlyDenied, LaterThan;
    var recent := Recent(times, now);
    HourlyDeniedIff(policy, times, cooldown, now);
    var until := Earliest(recent) + HOUR;
    HourlyDeniedIff(policy, times, cooldown, later);
    HourlyDeniedIff(policy, times, cooldown, until);
    RecentOfRecent(times, now, later);
    RecentOfRecent(times, now, until);
    RecentAnHourOn(recent, Earliest(recent));
    if later < until {
      AllStillRecent(recent, later);
    } else {
      RecentCountFalls(times, until, later);
    }
  }

  /**
   Lowering the limit reaches states in which the advice is too short: after a run under a limit of
   two, a limit of one still denies the action at the time it had advised.
   */
  lemma LoweredLimitNeedsLonger()
    ensures var higher: Policy := Policy(0.0, 2, 0.0, 0.0);
      var lowered: Policy := Policy(0.0, 1, 0.0, 0.0);
      var steps := [Acted(0.0, 0.0), Acted(100.0, 100.0)];
      var s := End(higher, Start(0.0), steps);
      && Run(higher, Start(0.0), steps)
      && Decide(lowered, s.times, s.cooldown, 200.0) == Denied(HourlyRateLimit, 3400.0)
      && HourlyDenied(lowered, s.times, s.cooldown, 200.0 + 3400.0)
  {
    TwoActions(Policy(0.0, 2, 0.0, 0.0));
    StillDeniedAfterTwo(Policy(0.0, 1, 0.0, 0.0));
  }

  lemma TwoActions(policy: Policy)
    requires policy.minInterval <= 100.0 && policy.maxPerHour >= 2
    ensures var steps := [Acted(0.0, 0.0), Acted(100.0, 100.0)];
      && Run(policy, Start(0.0), steps)
      && End(policy, Start(0.0), steps) == State([0.0, 100.0], 0.0, 100.0, [0.0, 100.0])
  {
    hide Run, End, Enabled, Apply, Recent;
    var first, second := Acted(0.0, 0.0), Acted(100.0, 100.0);
    FirstAction(policy);
    SecondAction(policy);
    OneStep(policy, Start(0.0), first);
    OneStep(policy, State([0.0], 0.0, 0.0, [0.0]), second);
    RunAppend(policy, Start(0.0), [first], [second]);
    assert [first] + [second] == [first, second];
  }

  lemma OneStep(policy: Policy, s: State, step: Step)
    requires Enabled(policy, s, step)
    ensures Run(policy, s, [step]) && End(policy, s, [step]) == Apply(policy, s, step)
  {
    hide Enabled, Apply;
    assert [step][1..] == [];
    assert Run(policy, Apply(policy, s, step), []) && End(policy, Apply(policy, s, step), []) == Apply(policy, s, step);
  }

  lemma FirstAction(policy: Policy)
    ensures Enabled(policy, Start(0.0), Acted(0.0, 0.0))
    ensures Apply(policy, Start(0.0), Acted(0.0, 0.0)) == State([0.0], 0.0, 0.0, [0.0])
  {
  }

  lemma SecondAction(policy: Policy)
    requires policy.minInterval <= 100.0 && policy.maxPerHour >= 2
    ensures var s := State([0.0], 0.0, 0.0, [0.0]);
      && Enabled(policy, s, Acted(100.0, 100.0))
      && Apply(policy, s, Acted(100.0, 100.0)) == State([0.0, 100.0], 0.0, 100.0, [0.0, 100.0])
  {
    OnlyOne(100.0);
    hide Recent, Earliest, Latest;
  }

  lemma OnlyOne(now: real)
    requires now < HOUR
    ensures Recent([0.0], now) == [0.0] && Earliest([0.0]) == 0.0 && Latest([0.0]) == 0.0
  {
    assert [0.0][..0] == [];
  }

  lemma StillDeniedAfterTwo(policy: Policy)
    requires policy.maxPerHour == 1
    ensures Decide(policy, [0.0, 100.0], 0.0, 200.0) == Denied(HourlyRateLimit, 3400.0)
    ensures HourlyDenied(policy, [0.0, 100.0], 0.0, 200.0 + 3400.0)
  {
    hide Recent, Decide, LaterThan;
    var times := [0.0, 100.0];
    BothRecent(times);
    LateDecision(policy, times);
    HourlyAdviceSufficesIff(policy, times, 0.0, 200.0, 200.0);
    OneLaterThanFirst(times);
  }

  lemma BothRecent(times: seq<real>)
    requires times == [0.0, 100.0]
    ensures Recent(times, 200.0) == times && Earliest(times) == 0.0
  {
    hide Recent, Earliest;
    assert times == [0.0] + [100.0];
    OnlyOne(200.0);
    RecentAppend([0.0], 100.0, 200.0);
    assert 0.0 in times && Earliest(times) in times;
  }

  lemma LateDecision(policy: Policy, times: seq<real>)
    requires policy.maxPerHour == 1 && |times| == 2 && Recent(times, 200.0) == times && Earliest(times) == 0.0
    ensures Decide(policy, times, 0.0, 200.0) == Denied(HourlyRateLimit, 3400.0)
  {
    hide Recent;
  }

  lemma OneLaterThanFirst(times: seq<real>)
    requires times == [0.0, 100.0]
    ensures |LaterThan(times, 0.0)| == 1
  {
    assert times[..1] == [0.0] && [0.0][..0] == [];
    assert LaterThan([0.0], 0.0) == [];
  }

  /**
   With an interval of more than an hour, a single recorded action is enough: the advice given half an
   hour after it asks for a wait beyond the hour in which the limiter forgets it.
   */
  lemma LongIntervalAdviceTooLong(policy: Policy)
    requires policy.minInterval > HOUR && policy.maxPerHour >= 2
    ensures var s := End(policy, Start(0.0), [Acted(0.0, 0.0)]);
      && Run(policy, Start(0.0), [Acted(0.0, 0.0)])
      && Decide(policy, s.times, s.cooldown, 1800.0) == Denied(MinimumInterval, policy.minInterval - 1800.0)
      && Decide(policy, s.times, s.cooldown, HOUR) == Allowed
      && HOUR < 1800.0 + (policy.minInterval - 1800.0)
  {
    hide Run, End, Enabled, Apply, Recent, Decide;
    FirstAction(policy);
    OneStep(policy, Start(0.0), Acted(0.0, 0.0));
    var s := State([0.0], 0.0, 0.0, [0.0]);
    OnlyOne(1800.0);
    OnlyOneDecides(policy);
    IntervalReasonLasts(policy, s, 1800.0, HOUR);
  }

  lemma OnlyOneDecides(policy: Policy)
    requires policy.minInterval > HOUR && policy.maxPerHour >= 2
    ensures Decide(policy, [0.0], 0.0, 1800.0) == Denied(MinimumInterval, policy.minInterval - 1800.0)
  {
    OnlyOne(1800.0);
    hide Recent, Earliest, Latest;
  }
}
