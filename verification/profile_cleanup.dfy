/**
 Cleanup intents for deleted account profiles: claimed by one worker at a time, reclaimed when
 stale, settled or put back for a later retry. Each transaction is one step; the clock may move
 between the statements of a claim.
 */
module ProfileCleanup {
  import opened Results
  import ContextLease

  const MAX_ATTEMPTS_VALUE := 2147483647

  datatype Status = Pending | Running | Succeeded

  datatype Intent = Intent(
    accountId: nat, platform: string, status: Status, attempts: nat,
    claimToken: Option<string>, workerId: Option<string>, claimedAt: Option<nat>, completedAt: Option<nat>,
    nextAttemptAt: nat, lastErrorCode: Option<string>)

  type Intents = map<nat, Intent>

  /** What a worker holds after a claim. */
  datatype Claim = Claim(id: nat, platform: string, token: string, worker: string, attempts: nat)

  /** The database's lifecycle constraint. */
  predicate LifecycleCheck(i: Intent) {
    || (i.status == Pending && i.claimToken.None? && i.workerId.None? && i.claimedAt.None? && i.completedAt.None?)
    || (i.status == Running && i.attempts > 0 && i.claimToken.Some? && i.workerId.Some? && i.claimedAt.Some?
        && i.completedAt.None?)
    || (i.status == Succeeded && i.attempts > 0 && i.claimToken.None? && i.workerId.None? && i.claimedAt.None?
        && i.completedAt.Some?)
  }

  predicate AttemptsCheck(i: Intent) {
    i.attempts <= 2147483647
  }

  // ----- Retry delay -----

  function Pow2(n: nat): (p: nat)
    ensures p > 0
  {
    if n == 0 then 1 else 2 * Pow2(n - 1)
  }

  function Min(a: int, b: int): int {
    if a < b then a else b
  }

  function Max(a: int, b: int): int {
    if a > b then a else b
  }

  function RetrySeconds(attempts: int, maxRetry: nat): int {
    Min(Pow2(Min(Max(attempts, 1), 8)), maxRetry)
  }

  lemma {:induction false} Pow2Monotone(a: nat, b: nat)
    requires a <= b
    ensures Pow2(a) <= Pow2(b)
  {
    if a < b {
      Pow2Monotone(a, b - 1);
    }
  }

  /** The delay never shrinks from one attempt to the next and stays between 2 and its cap. */
  lemma RetryDelayGrowsToItsCap(a: int, b: int, maxRetry: nat)
    requires a <= b && maxRetry >= 5
    ensures 2 <= RetrySeconds(a, maxRetry) <= RetrySeconds(b, maxRetry) <= Min(256, maxRetry)
    ensures b >= 8 ==> RetrySeconds(b, maxRetry) == Min(256, maxRetry)
  {
    var x, y := Min(Max(a, 1), 8), Min(Max(b, 1), 8);
    Pow2Monotone(1, x);
    Pow2Monotone(x, y);
    Pow2Monotone(y, 8);
    assert Pow2(8) == 256 by {
      assert Pow2(4) == 16;
    }
  }

  /** From the first attempt to the eighth the delay doubles, starting at two seconds, until it meets its cap. */
  lemma RetryDelayDoubles(attempts: int, maxRetry: nat)
    requires 1 <= attempts < 8 && RetrySeconds(attempts, maxRetry) * 2 <= maxRetry
    ensures RetrySeconds(attempts + 1, maxRetry) == 2 * RetrySeconds(attempts, maxRetry)
    ensures attempts == 1 && maxRetry >= 2 ==> RetrySeconds(attempts, maxRetry) == 2
  {
    assert Pow2(attempts + 1) == 2 * Pow2(attempts);
    assert Pow2(1) == 2 * Pow2(0);
  }

  // ----- Statements -----

  predicate Eligible(i: Intent, platform: string, now: nat, stale: nat) {
    && i.platform == platform
    && ((i.status == Pending && i.nextAttemptAt <= now)
        || (i.status == Running && i.claimedAt.Some? && i.claimedAt.value + stale < now))
  }

  /** ORDER BY pending first, then next_attempt_at, then id. */
  predicate Earlier(rows: Intents, a: nat, b: nat)
    requires a in rows && b in rows
  {
    var rankA, rankB := if rows[a].status == Pending then 0 else 1, if rows[b].status == Pending then 0 else 1;
    || rankA < rankB
    || (rankA == rankB && rows[a].nextAttemptAt < rows[b].nextAttemptAt)
    || (rankA == rankB && rows[a].nextAttemptAt == rows[b].nextAttemptAt && a < b)
  }

  predicate Candidate(rows: Intents, id: nat, platform: string, now: nat, stale: nat, locked: set<nat>) {
    id in rows && id !in locked && Eligible(rows[id], platform, now, stale)
  }

  /** The row SELECT ... LIMIT 1 FOR UPDATE SKIP LOCKED returns. */
  ghost predicate IsSelected(rows: Intents, id: nat, platform: string, now: nat, stale: nat, locked: set<nat>) {
    && Candidate(rows, id, platform, now, stale, locked)
    && forall other | Candidate(rows, other, platform, now, stale, locked) && other != id :: Earlier(rows, id, other)
  }

  function Claimed(i: Intent, token: string, worker: string, now: nat): Intent {
    i.(status := Running, attempts := Min(i.attempts + 1, MAX_ATTEMPTS_VALUE), claimToken := Some(token),
       workerId := Some(worker), claimedAt := Some(now), completedAt := None)
  }

  predicate HeldBy(rows: Intents, c: Claim) {
    && c.id in rows && rows[c.id].platform == c.platform && rows[c.id].status == Running
    && rows[c.id].claimToken == Some(c.token) && rows[c.id].workerId == Some(c.worker)
  }

  function Settled(i: Intent, now: nat): Intent {
    i.(status := Succeeded, claimToken := None, workerId := None, claimedAt := None,
       nextAttemptAt := now, completedAt := Some(now), lastErrorCode := None)
  }

  function PutBack(i: Intent, now: nat, delay: nat, error: string): Intent {
    i.(status := Pending, claimToken := None, workerId := None, claimedAt := None,
       nextAttemptAt := now + delay, completedAt := None,
       lastErrorCode := Some(if |error| > 128 then error[..128] else error))
  }

  function Succeed(rows: Intents, c: Claim, now: nat): Intents {
    if HeldBy(rows, c) then rows[c.id := Settled(rows[c.id], now)] else rows
  }

  function Retry(rows: Intents, c: Claim, now: nat, maxRetry: nat, error: string): Intents {
    if HeldBy(rows, c) then rows[c.id := PutBack(rows[c.id], now, RetrySeconds(c.attempts, maxRetry), error)] else rows
  }

  // ----- The store -----

  class CleanupStore {
    var rows: Intents
    var now: nat

    constructor (rows: Intents, now: nat)
      ensures this.rows == rows && this.now == now
    {
      this.rows := rows;
      this.now := now;
    }

    /** The SELECT of a claim. */
    method SelectCandidate(platform: string, stale: nat, locked: set<nat>) returns (r: Option<nat>)
      ensures r.Some? ==> IsSelected(rows, r.value, platform, now, stale, locked)
      ensures r.None? ==> forall id :: !Candidate(rows, id, platform, now, stale, locked)
    {
      var todo := rows.Keys;
      r := None;
      while todo != {}
        invariant todo <= rows.Keys
        invariant r.Some? ==> r.value !in todo && Candidate(rows, r.value, platform, now, stale, locked)
        invariant forall id | id in rows && id !in todo && Candidate(rows, id, platform, now, stale, locked) ::
                    r.Some? && (id != r.value ==> Earlier(rows, r.value, id))
        decreases todo
      {
        var id :| id in todo;
        if Candidate(rows, id, platform, now, stale, locked) && (r.None? || Earlier(rows, id, r.value)) {
          r := Some(id);
        }
        todo := todo - {id};
      }
    }

    /** Claim the first eligible row that no other transaction has locked; time may pass before the update. */
    method ClaimCleanup(platform: string, token: string, worker: string, stale: nat, locked: set<nat>, wait: nat)
      returns (r: Result<Option<Claim>, string>)
      modifies this
      ensures now == old(now) + wait && r.Ok?
      ensures r.value.None? ==>
        rows == old(rows) && forall id :: !Candidate(rows, id, platform, old(now), stale, locked)
      ensures r.value.Some? ==>
                var c := r.value.value;
                && IsSelected(old(rows), c.id, platform, old(now), stale, locked)
                && rows == old(rows)[c.id := Claimed(old(rows)[c.id], token, worker, now)]
                && c == Claim(c.id, platform, token, worker, rows[c.id].attempts) && HeldBy(rows, c)
    {
      var row := SelectCandidate(platform, stale, locked);
      now := now + wait;
      if row.None? {
        return Ok(None);
      }
      var id := row.value;
      var previous := rows[id].status;
      var affected := 0;
      if rows[id].platform == platform && rows[id].status == previous {
        rows := rows[id := Claimed(rows[id], token, worker, now)];
        affected := 1;
      }
      if affected != 1 {
        return Err("account_profile_cleanup_claim_lost");
      }
      return Ok(Some(Claim(id, platform, token, worker, rows[id].attempts)));
    }

    method MarkSucceeded(c: Claim) returns (r: Result<bool, string>)
      modifies this`rows
      ensures rows == Succeed(old(rows), c, now)
      ensures r.Ok? <==> HeldBy(old(rows), c)
    {
      if !HeldBy(rows, c) {
        return Err("account_profile_cleanup_completion_claim_lost");
      }
      rows := rows[c.id := Settled(rows[c.id], now)];
      return Ok(true);
    }

    method ReleaseForRetry(c: Claim, maxRetry: nat, error: string) returns (released: bool)
      modifies this`rows
      ensures rows == Retry(old(rows), c, now, maxRetry, error)
      ensures released <==> HeldBy(old(rows), c)
    {
      var delay := RetrySeconds(c.attempts, maxRetry);
      released := HeldBy(rows, c);
      if released {
        rows := rows[c.id := PutBack(rows[c.id], now, delay, error)];
      }
    }
  }

  // ----- Runs -----

  datatype Op =
    | Create(id: nat, accountId: nat, platform: string, at: nat)
    | TakeClaim(id: nat, token: string, worker: string, readAt: nat, writeAt: nat, locked: set<nat>)
    | SettleOp(claim: Claim, at: nat)
    | RetryOp(claim: Claim, at: nat, error: string)

  /** The rows, every token issued so far, and how often each row was claimed. */
  datatype World = World(rows: Intents, issued: set<string>, claims: map<nat, nat>)

  datatype Limits = Limits(stale: nat, maxRetry: nat)

  ghost predicate Enabled(w: World, op: Op, lim: Limits) {
    match op
    case Create(id, _, _, _) => id !in w.rows
    case TakeClaim(id, token, _, readAt, writeAt, locked) =>
      && id in w.rows && readAt <= writeAt && token !in w.issued
      && IsSelected(w.rows, id, w.rows[id].platform, readAt, lim.stale, locked)
    case _ => true
  }

  ghost function Apply(w: World, op: Op, lim: Limits): World
    requires Enabled(w, op, lim)
    requires w.claims.Keys == w.rows.Keys
  {
    match op
    case Create(id, accountId, platform, at) =>
      World(w.rows[id := Intent(accountId, platform, Pending, 0, None, None, None, None, at, None)], w.issued,
        w.claims[id := 0])
    case TakeClaim(id, token, worker, _, writeAt, _) =>
      World(w.rows[id := Claimed(w.rows[id], token, worker, writeAt)], w.issued + {token},
        w.claims[id := w.claims[id] + 1])
    case SettleOp(claim, at) => w.(rows := Succeed(w.rows, claim, at))
    case RetryOp(claim, at, error) => w.(rows := Retry(w.rows, claim, at, lim.maxRetry, error))
  }

  predicate RowValid(i: Intent, issued: set<string>, claims: nat) {
    && LifecycleCheck(i) && AttemptsCheck(i)
    && i.attempts == Min(claims, MAX_ATTEMPTS_VALUE)
    && (i.claimToken.Some? ==> i.claimToken.value in issued)
  }

  predicate Valid(w: World) {
    && w.claims.Keys == w.rows.Keys
    && forall id | id in w.rows :: RowValid(w.rows[id], w.issued, w.claims[id])
  }

  /** Every step keeps both constraints, and attempts is the number of claims, saturating. */
  lemma StepKeepsValid(w: World, op: Op, lim: Limits)
    requires Valid(w) && Enabled(w, op, lim)
    ensures Valid(Apply(w, op, lim))
  {
    var w' := Apply(w, op, lim);
    forall id | id in w'.rows
      ensures RowValid(w'.rows[id], w'.issued, w'.claims[id])
    {
      assert id in w.rows ==> RowValid(w.rows[id], w.issued, w.claims[id]);
    }
  }

  /** From this time on, and not before, workers of the platform may be given the row. */
  ghost predicate FreeFrom(rows: Intents, id: nat, stale: nat, time: nat) {
    && id in rows
    && forall platform, now :: Candidate(rows, id, platform, now, stale, {}) <==>
         platform == rows[id].platform && time <= now
  }

  /**
   When a row is next to be had: a new one at once, a claimed one a second after its claim has gone stale, one put
   back when its delay is over. The delay doubles from two seconds to 256 or its cap.
   */
  lemma WhenNextTaken(w: World, op: Op, lim: Limits)
    requires Valid(w) && Enabled(w, op, lim)
    ensures op.Create? ==> FreeFrom(Apply(w, op, lim).rows, op.id, lim.stale, op.at)
    ensures op.TakeClaim? ==> FreeFrom(Apply(w, op, lim).rows, op.id, lim.stale, op.writeAt + lim.stale + 1)
    ensures op.RetryOp? && HeldBy(w.rows, op.claim) ==>
      FreeFrom(Apply(w, op, lim).rows, op.claim.id, lim.stale, op.at + RetrySeconds(op.claim.attempts, lim.maxRetry))
    ensures op.SettleOp? && HeldBy(w.rows, op.claim) ==>
      forall platform, now ::
        !Candidate(Apply(w, op, lim).rows, op.claim.id, platform, now, lim.stale, {})
  {
    hide RetrySeconds, Valid;
  }

  /** What a row looks like after its holder settled it, and after its holder put it back. */
  lemma HolderLeavesTheRow(rows: Intents, c: Claim, now: nat, maxRetry: nat, error: string)
    requires HeldBy(rows, c)
    ensures var done, back, was := Succeed(rows, c, now)[c.id], Retry(rows, c, now, maxRetry, error)[c.id], rows[c.id];
      && done.status == Succeeded && done.completedAt == Some(now) && done.lastErrorCode.None?
      && back.status == Pending && back.completedAt.None?
      && back.lastErrorCode.Some? && back.lastErrorCode.value <= error
      && |back.lastErrorCode.value| == (if |error| <= 128 then |error| else 128)
      && (forall i | i in [done, back] ::
            && i.accountId == was.accountId && i.platform == was.platform && i.attempts == was.attempts
            && i.claimToken.None? && i.workerId.None? && i.claimedAt.None?)
    ensures forall id | id in rows && id != c.id ::
      Succeed(rows, c, now)[id] == rows[id] && Retry(rows, c, now, maxRetry, error)[id] == rows[id]
  {
    hide RetrySeconds;
  }

  /** A due intent goes before every claimed one, the longest due first and the lower id among equals. */
  lemma LongestDueGoesFirst(rows: Intents, id: nat, other: nat, platform: string, now: nat, stale: nat,
                            locked: set<nat>)
    requires IsSelected(rows, id, platform, now, stale, locked) && other != id
    requires Candidate(rows, other, platform, now, stale, locked)
    ensures rows[other].status == Pending ==>
      && rows[id].status == Pending && rows[id].nextAttemptAt <= rows[other].nextAttemptAt
      && (rows[id].nextAttemptAt == rows[other].nextAttemptAt ==> id < other)
    ensures rows[id].status == Running ==>
      && rows[other].status == Running && rows[id].nextAttemptAt <= rows[other].nextAttemptAt
  {
    assert Earlier(rows, id, other);
  }

  /** A settled row never changes again, and a token the row no longer carries never comes back. */
  lemma StepNeverRevives(w: World, op: Op, lim: Limits, id: nat, token: string)
    requires Valid(w) && Enabled(w, op, lim) && id in w.rows
    ensures id in Apply(w, op, lim).rows
    ensures w.rows[id].status == Succeeded ==> Apply(w, op, lim).rows[id] == w.rows[id]
    ensures token in w.issued ==> token in Apply(w, op, lim).issued
    ensures token in w.issued && w.rows[id].claimToken != Some(token) ==>
              Apply(w, op, lim).rows[id].claimToken != Some(token)
  {
    assert RowValid(w.rows[id], w.issued, w.claims[id]);
  }

  /** Whatever changes a claimed row takes its token away, a stale reclaim included. */
  lemma ChangeSupersedesTheClaim(w: World, op: Op, lim: Limits, id: nat)
    requires Valid(w) && Enabled(w, op, lim) && id in w.rows && w.rows[id].claimToken.Some?
    requires Apply(w, op, lim).rows[id] != w.rows[id]
    ensures w.rows[id].claimToken.value in Apply(w, op, lim).issued
    ensures Apply(w, op, lim).rows[id].claimToken != w.rows[id].claimToken
  {
    assert RowValid(w.rows[id], w.issued, w.claims[id]);
  }

  ghost predicate Run(worlds: seq<World>, ops: seq<Op>, lim: Limits) {
    && |worlds| == |ops| + 1 && Valid(worlds[0])
    && forall i | 0 <= i < |ops| ::
         worlds[i].claims.Keys == worlds[i].rows.Keys && Enabled(worlds[i], ops[i], lim) &&
           worlds[i + 1] == Apply(worlds[i], ops[i], lim)
  }

  lemma {:induction false} RunStaysValid(worlds: seq<World>, ops: seq<Op>, lim: Limits, k: nat)
    requires Run(worlds, ops, lim) && k <= |ops|
    ensures Valid(worlds[k])
  {
    if k > 0 {
      RunStaysValid(worlds, ops, lim, k - 1);
      assert worlds[k - 1 + 1] == Apply(worlds[k - 1], ops[k - 1], lim);
      StepKeepsValid(worlds[k - 1], ops[k - 1], lim);
    }
  }

  lemma {:induction false} TokenStaysSuperseded(worlds: seq<World>, ops: seq<Op>, lim: Limits, k: nat, id: nat,
      token: string)
    requires Run(worlds, ops, lim) && k <= |ops|
    requires id in worlds[0].rows && token in worlds[0].issued && worlds[0].rows[id].claimToken != Some(token)
    ensures id in worlds[k].rows && token in worlds[k].issued && worlds[k].rows[id].claimToken != Some(token)
  {
    hide Valid, Apply, Enabled;
    if k > 0 {
      TokenStaysSuperseded(worlds, ops, lim, k - 1, id, token);
      RunStaysValid(worlds, ops, lim, k - 1);
      assert worlds[k - 1 + 1] == Apply(worlds[k - 1], ops[k - 1], lim);
      StepNeverRevives(worlds[k - 1], ops[k - 1], lim, id, token);
    }
  }

  /** A superseded claim can never change the row again: its settle and retry match nothing. */
  lemma SupersededClaimChangesNothing(worlds: seq<World>, ops: seq<Op>, lim: Limits, k: nat, claim: Claim)
    requires Run(worlds, ops, lim) && k < |ops|
    requires claim.id in worlds[0].rows && claim.token in worlds[0].issued
    requires worlds[0].rows[claim.id].claimToken != Some(claim.token)
    requires (ops[k].SettleOp? || ops[k].RetryOp?) && ops[k].claim == claim
    ensures worlds[k + 1] == worlds[k]
  {
    TokenStaysSuperseded(worlds, ops, lim, k, claim.id, claim.token);
  }

  /** Succeeded is absorbing: the row stays as it was settled, so it is settled at most once. */
  lemma {:induction false} SucceededIsAbsorbing(worlds: seq<World>, ops: seq<Op>, lim: Limits, j: nat, k: nat, id: nat)
    requires Run(worlds, ops, lim) && j <= k <= |ops|
    requires id in worlds[j].rows && worlds[j].rows[id].status == Succeeded
    ensures id in worlds[k].rows && worlds[k].rows[id] == worlds[j].rows[id]
    decreases k
  {
    hide Valid, Apply, Enabled;
    if j < k {
      SucceededIsAbsorbing(worlds, ops, lim, j, k - 1, id);
      RunStaysValid(worlds, ops, lim, k - 1);
      assert worlds[k - 1 + 1] == Apply(worlds[k - 1], ops[k - 1], lim);
      StepNeverRevives(worlds[k - 1], ops[k - 1], lim, id, "");
    }
  }

  // ----- The gate in front of deletion -----

  datatype GateError =
    | BindingMissing | BindingPlatformMismatch | BindingNotDeleted | CredentialPresent
    | ContextCloseUnconfirmed | Lease(code: ContextLease.Code)

  /** The account is deleted, of this platform, and keeps no credential. */
  predicate DeletedBinding(f: ContextLease.Fence, platform: string, credential: Option<string>) {
    && ContextLease.Deleted(f) && f.account.value.platform == platform
    && (credential.None? || credential == Some(""))
  }

  /** Whatever lease operations follow, no lease is live again. */
  ghost predicate NeverLive(f: ContextLease.Fence, ttl: nat) {
    forall fences: seq<ContextLease.Fence>, ops: seq<ContextLease.Op>, k: nat
      | ContextLease.Run(fences, ops, ttl) && k < |fences| && fences[0] == f ::
      !ContextLease.ActiveAt(fences[k].lease, fences[k].now)
  }

  /** The checks that run before the profile directory is deleted; closing the context takes time. */
  method DeletionGate(platform: string, credential: Option<string>, contextClosed: bool, fence: ContextLease.LeaseTable,
      wait: nat)
    returns (r: Option<GateError>)
    modifies fence`now
    ensures r.None? <==>
              && DeletedBinding(old(fence.Value()), platform, credential) && contextClosed
              && ContextLease.NoActiveLeaseError(ContextLease.Waited(old(fence.Value()), wait), platform).None?
    ensures r.None? ==> fence.Value() == ContextLease.Waited(old(fence.Value()), wait)
    ensures r.None? && ContextLease.Bounded(old(fence.Value()), fence.ttl) ==> NeverLive(fence.Value(), fence.ttl)
  {
    if fence.account.None? {
      return Some(BindingMissing);
    }
    if fence.account.value.platform != platform {
      return Some(BindingPlatformMismatch);
    }
    if !fence.account.value.deleted {
      return Some(BindingNotDeleted);
    }
    if credential.Some? && credential.value != "" {
      return Some(CredentialPresent);
    }
    fence.Wait(wait);
    if !contextClosed {
      return Some(ContextCloseUnconfirmed);
    }
    var active := fence.AssertNoActiveLease(platform);
    if active.Some? {
      return Some(Lease(active.value));
    }
    if ContextLease.Bounded(fence.Value(), fence.ttl) {
      PassedGateIsFinal(fence.Value(), fence.ttl, platform);
    }
    return None;
  }

  lemma PassedGateIsFinal(f: ContextLease.Fence, ttl: nat, platform: string)
    requires ContextLease.Deleted(f) && f.account.value.platform == platform && ContextLease.Bounded(f, ttl)
    requires ContextLease.NoActiveLeaseError(f, platform).None?
    ensures NeverLive(f, ttl)
  {
    forall fences: seq<ContextLease.Fence>, ops: seq<ContextLease.Op>, k: nat
      | ContextLease.Run(fences, ops, ttl) && k < |fences| && fences[0] == f
      ensures !ContextLease.ActiveAt(fences[k].lease, fences[k].now)
    {
      ContextLease.PassedCheckKeepsPassing(fences, ops, ttl, k);
    }
  }

  /**
   In any run from a fence without a lease: once the gate has read a deleted binding at step g and,
   at a later step h, found no live lease, no lease is live and none is granted at any step from h on,
   so none is while the profile is being deleted.
   */
  lemma DeletionNeverOverlapsALease(fences: seq<ContextLease.Fence>, ops: seq<ContextLease.Op>, ttl: nat, g: nat,
      h: nat, k: nat, platform: string, credential: Option<string>)
    requires ContextLease.Run(fences, ops, ttl) && fences[0].lease.None? && g <= h <= k <= |ops|
    requires DeletedBinding(fences[g], platform, credential)
    requires ContextLease.NoActiveLeaseError(fences[h], platform).None?
    ensures ContextLease.Deleted(fences[k]) && !ContextLease.ActiveAt(fences[k].lease, fences[k].now)
    ensures k < |ops| && (ops[k].AcquireOp? || ops[k].RenewOp?) ==> !ContextLease.Succeeds(fences[k], ttl, ops[k])
  {
    ContextLease.RunStaysBounded(fences, ops, ttl, g);
    ContextLease.RestIsRun(fences, ops, ttl, g);
    ContextLease.DeletedAccountGrantsNothing(fences[g..], ops[g..], ttl, h - g);
    ContextLease.RunStaysBounded(fences, ops, ttl, h);
    ContextLease.RestIsRun(fences, ops, ttl, h);
    PassedGateIsFinal(fences[h], ttl, platform);
    ContextLease.DeletedAccountGrantsNothing(fences[h..], ops[h..], ttl, k - h);
    assert fences[h..][k - h] == fences[k];
  }
}
