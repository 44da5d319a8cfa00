/**
 The lease that fences one account's browser profile between worker processes.
 Each SQL statement reads the clock for itself, so time may pass between the read and
 the write of one transaction. The account row is locked first, which serialises
 acquire and renew; a transaction that fails is rolled back.
 */
module ContextLease {
  import opened Results

  datatype Account = Account(platform: string, deleted: bool)

  datatype Lease = Lease(platform: string, token: string, owner: string, expiresAt: nat)

  /** One account, its lease row and the database clock. */
  datatype Fence = Fence(account: Option<Account>, lease: Option<Lease>, now: nat)

  datatype Code =
    | AccountMissing | AccountPlatformMismatch | AccountDeleted
    | LeaseBusy | RenewLost | AcquireLost | LeasePlatformMismatch | LeaseActive

  // ----- Transactions as functions -----

  function Waited(f: Fence, wait: nat): Fence {
    f.(now := f.now + wait)
  }

  predicate ActiveAt(lease: Option<Lease>, time: nat) {
    lease.Some? && lease.value.expiresAt > time
  }

  function LiveAccountError(f: Fence, platform: string): Option<Code> {
    match f.account
    case None => Some(AccountMissing)
    case Some(a) =>
      if a.platform != platform then Some(AccountPlatformMismatch)
      else if a.deleted then Some(AccountDeleted)
      else None
  }

  predicate IsExactly(lease: Lease, platform: string, token: string, owner: string) {
    lease.platform == platform && lease.token == token && lease.owner == owner
  }

  /** Read the lease after one wait, write after another. */
  function Acquire(f: Fence, ttl: nat, platform: string, current: Option<string>, owner: string, newToken: string,
                   wait1: nat, wait2: nat): (Fence, Result<string, Code>)
  {
    var read := f.now + wait1;
    var write := read + wait2;
    var late := f.(now := write);
    if LiveAccountError(f, platform).Some? then (late, Err(LiveAccountError(f, platform).value))
    else if ActiveAt(f.lease, read) then
      if !(current.Some? && IsExactly(f.lease.value, platform, current.value, owner)) then (late, Err(LeaseBusy))
      else if !ActiveAt(f.lease, write) then (late, Err(RenewLost))
      else (late.(lease := Some(f.lease.value.(expiresAt := write + ttl))), Ok(current.value))
    else (late.(lease := Some(Lease(platform, newToken, owner, write + ttl))), Ok(newToken))
  }

  function Renew(f: Fence, ttl: nat, platform: string, token: string, owner: string, wait: nat)
    : (Fence, Result<string, Code>)
  {
    var late := Waited(f, wait);
    if LiveAccountError(f, platform).Some? then (late, Err(LiveAccountError(f, platform).value))
    else if ActiveAt(f.lease, late.now) && IsExactly(f.lease.value, platform, token, owner)
    then (late.(lease := Some(f.lease.value.(expiresAt := late.now + ttl))), Ok(token))
    else (late, Err(RenewLost))
  }

  function Release(f: Fence, platform: string, token: string, owner: string): (Fence, bool) {
    if f.lease.Some? && IsExactly(f.lease.value, platform, token, owner) then (f.(lease := None), true) else (f, false)
  }

  function NoActiveLeaseError(f: Fence, platform: string): Option<Code> {
    if f.lease.None? then None
    else if f.lease.value.platform != platform then Some(LeasePlatformMismatch)
    else if ActiveAt(f.lease, f.now) then Some(LeaseActive)
    else None
  }

  // ----- The transactions statement by statement -----

  class LeaseTable {
    const ttl: nat
    var account: Option<Account>
    var lease: Option<Lease>
    var now: nat

    constructor (f: Fence, ttl: nat)
      ensures this.ttl == ttl && Value() == f
    {
      this.ttl := ttl;
      account, lease, now := f.account, f.lease, f.now;
    }

    ghost function Value(): Fence
      reads this
    {
      Fence(account, lease, now)
    }

    method Wait(time: nat)
      modifies this`now
      ensures now == old(now) + time
    {
      now := now + time;
    }

    method RequireLiveAccount(platform: string) returns (e: Option<Code>)
      ensures e == LiveAccountError(Value(), platform)
    {
      if account.None? {
        return Some(AccountMissing);
      }
      if account.value.platform != platform {
        return Some(AccountPlatformMismatch);
      }
      if account.value.deleted {
        return Some(AccountDeleted);
      }
      return None;
    }

    /** UPDATE ... SET lease_expires_at WHERE the exact lease is still live. */
    method ExtendStatement(platform: string, token: string, owner: string) returns (affected: nat)
      modifies this`lease
      ensures affected ==
        (if ActiveAt(old(lease), now) && IsExactly(old(lease).value, platform, token, owner) then 1 else 0)
      ensures lease == if affected == 1 then Some(old(lease).value.(expiresAt := now + ttl)) else old(lease)
    {
      if lease.Some? && IsExactly(lease.value, platform, token, owner) && lease.value.expiresAt > now {
        lease := Some(lease.value.(expiresAt := now + ttl));
        return 1;
      }
      return 0;
    }

    method TakeOverStatement(platform: string, token: string, owner: string) returns (affected: nat)
      requires lease.Some?
      modifies this`lease
      ensures affected == (if ActiveAt(old(lease), now) then 0 else 1)
      ensures lease == if affected == 1 then Some(Lease(platform, token, owner, now + ttl)) else old(lease)
    {
      if lease.value.expiresAt <= now {
        lease := Some(Lease(platform, token, owner, now + ttl));
        return 1;
      }
      return 0;
    }

    method AcquireLease(platform: string, current: Option<string>, owner: string, newToken: string, wait1: nat,
        wait2: nat)
      returns (r: Result<string, Code>)
      modifies this
      ensures (Value(), r) == Acquire(old(Value()), ttl, platform, current, owner, newToken, wait1, wait2)
      ensures r.Ok? ==> lease == Some(Lease(platform, r.value, owner, now + ttl))
    {
      var refused := RequireLiveAccount(platform);
      Wait(wait1);
      if refused.Some? {
        Wait(wait2);
        return Err(refused.value);
      }
      var row := lease;
      var active := row.Some? && row.value.expiresAt > now;
      Wait(wait2);
      var affected: nat;
      if active {
        if current.None? || !IsExactly(row.value, platform, current.value, owner) {
          return Err(LeaseBusy);
        }
        affected := ExtendStatement(platform, current.value, owner);
        if affected != 1 {
          return Err(RenewLost);
        }
        return Ok(current.value);
      }
      if row.Some? {
        affected := TakeOverStatement(platform, newToken, owner);
      } else {
        lease := Some(Lease(platform, newToken, owner, now + ttl));
        affected := 1;
      }
      if affected != 1 {
        return Err(AcquireLost);
      }
      return Ok(newToken);
    }

    method RenewLease(platform: string, token: string, owner: string, wait: nat) returns (r: Result<string, Code>)
      modifies this
      ensures (Value(), r) == Renew(old(Value()), ttl, platform, token, owner, wait)
    {
      var refused := RequireLiveAccount(platform);
      Wait(wait);
      if refused.Some? {
        return Err(refused.value);
      }
      var affected := ExtendStatement(platform, token, owner);
      if affected != 1 {
        return Err(RenewLost);
      }
      return Ok(token);
    }

    method ReleaseLease(platform: string, token: string, owner: string) returns (released: bool)
      modifies this`lease
      ensures (Value(), released) == Release(old(Value()), platform, token, owner)
    {
      var affected := 0;
      if lease.Some? && IsExactly(lease.value, platform, token, owner) {
        lease := None;
        affected := 1;
      }
      return affected == 1;
    }

    method AssertNoActiveLease(platform: string) returns (e: Option<Code>)
      ensures e == NoActiveLeaseError(Value(), platform)
    {
      if lease.None? {
        return None;
      }
      if lease.value.platform != platform {
        return Some(LeasePlatformMismatch);
      }
      if lease.value.expiresAt > now {
        return Some(LeaseActive);
      }
      return None;
    }
  }

  // ----- When a caller is answered with what -----

  predicate LiveAccount(f: Fence, platform: string) {
    f.account.Some? && f.account.value.platform == platform && !f.account.value.deleted
  }

  /** The lease row names this caller. */
  predicate IsCallers(f: Fence, platform: string, token: string, owner: string) {
    f.lease.Some? && f.lease.value.platform == platform && f.lease.value.token == token && f.lease.value.owner == owner
  }

  /**
   An acquire succeeds exactly on a live account whose lease, if it has one, has run out when it is read, or
   is the caller's own and still lasts when it is written. The caller then holds the lease for the TTL,
   under its own token if it had it and under the new one otherwise; a refusal leaves the row alone.
   */
  lemma AcquireSucceedsIff(f: Fence, ttl: nat, platform: string, current: Option<string>, owner: string,
      newToken: string, wait1: nat, wait2: nat)
    ensures var (f', r) := Acquire(f, ttl, platform, current, owner, newToken, wait1, wait2);
      var taken := f.lease.Some? && f.now + wait1 < f.lease.value.expiresAt;
      var own := current.Some? && IsCallers(f, platform, current.value, owner);
      && (r.Ok? <==>
          LiveAccount(f, platform) && (!taken || (own && f.now + wait1 + wait2 < f.lease.value.expiresAt)))
      && (r.Ok? ==>
          && r.value == (if taken then f.lease.value.token else newToken)
          && f'.lease == Some(Lease(platform, r.value, owner, f.now + wait1 + wait2 + ttl)))
      && (r.Err? ==> f'.lease == f.lease)
      && f'.account == f.account && f'.now == f.now + wait1 + wait2
      && (r == Err(LeaseBusy) <==> LiveAccount(f, platform) && taken && !own)
      && (r == Err(RenewLost) <==>
          LiveAccount(f, platform) && taken && own && f.lease.value.expiresAt <= f.now + wait1 + wait2)
      && (r == Err(AccountMissing) <==> f.account.None?)
      && (r == Err(AccountDeleted) <==>
          f.account.Some? && f.account.value.platform == platform && f.account.value.deleted)
  {
  }

  /** A renewal succeeds exactly on a live account whose lease is the caller's and still lasts. */
  lemma RenewSucceedsIff(f: Fence, ttl: nat, platform: string, token: string, owner: string, wait: nat)
    ensures var (f', r) := Renew(f, ttl, platform, token, owner, wait);
      && (r.Ok? <==>
          LiveAccount(f, platform) && IsCallers(f, platform, token, owner) && f.now + wait < f.lease.value.expiresAt)
      && (r.Ok? ==> r.value == token && f'.lease == Some(Lease(platform, token, owner, f.now + wait + ttl)))
      && (r.Err? ==> f'.lease == f.lease && (r.error == RenewLost <==> LiveAccount(f, platform)))
      && f'.account == f.account && f'.now == f.now + wait
  {
  }

  /** A release takes the caller's own lease away, live or not, and nothing else. */
  lemma ReleaseSucceedsIff(f: Fence, platform: string, token: string, owner: string)
    ensures var (f', released) := Release(f, platform, token, owner);
      && (released <==> IsCallers(f, platform, token, owner))
      && f'.lease == (if released then None else f.lease) && f'.account == f.account && f'.now == f.now
  {
  }

  /** The check before a deletion passes exactly without a lease or with one of this platform that has run out. */
  lemma CheckPassesIff(f: Fence, platform: string)
    ensures NoActiveLeaseError(f, platform).None? <==>
      f.lease.None? || (f.lease.value.platform == platform && f.lease.value.expiresAt <= f.now)
    ensures NoActiveLeaseError(f, platform) == Some(LeaseActive) <==>
      f.lease.Some? && f.lease.value.platform == platform && f.now < f.lease.value.expiresAt
  {
  }

  // ----- Runs -----

  datatype Op =
    | AcquireOp(platform: string, current: Option<string>, owner: string, newToken: string, wait1: nat, wait2: nat)
    | RenewOp(platform: string, token: string, owner: string, wait: nat)
    | ReleaseOp(platform: string, token: string, owner: string)
    | DeleteAccountOp
    | WaitOp(time: nat)

  function After(f: Fence, ttl: nat, op: Op): Fence {
    match op
    case AcquireOp(p, current, owner, newToken, w1, w2) => Acquire(f, ttl, p, current, owner, newToken, w1, w2).0
    case RenewOp(p, token, owner, wait) => Renew(f, ttl, p, token, owner, wait).0
    case ReleaseOp(p, token, owner) => Release(f, p, token, owner).0
    case DeleteAccountOp => if f.account.Some? then f.(account := Some(f.account.value.(deleted := true))) else f
    case WaitOp(time) => Waited(f, time)
  }

  /** The acquire, renew or release succeeded. */
  predicate Succeeds(f: Fence, ttl: nat, op: Op) {
    match op
    case AcquireOp(p, current, owner, newToken, w1, w2) => Acquire(f, ttl, p, current, owner, newToken, w1, w2).1.Ok?
    case RenewOp(p, token, owner, wait) => Renew(f, ttl, p, token, owner, wait).1.Ok?
    case ReleaseOp(p, token, owner) => Release(f, p, token, owner).1
    case _ => false
  }

  /** The caller presents this token under this owner name. */
  predicate IsBy(op: Op, token: string, owner: string) {
    match op
    case AcquireOp(_, current, o, _, _, _) => current == Some(token) && o == owner
    case RenewOp(_, t, o, _) => t == token && o == owner
    case ReleaseOp(_, t, o) => t == token && o == owner
    case _ => false
  }

  ghost predicate Run(fences: seq<Fence>, ops: seq<Op>, ttl: nat) {
    && |fences| == |ops| + 1
    && forall i | 0 <= i < |ops| :: fences[i + 1] == After(fences[i], ttl, ops[i])
  }

  /** A granted acquire or renew at time t leaves the lease with its holder until t + TTL at least. */
  lemma GrantLastsTtl(f: Fence, ttl: nat, op: Op) returns (token: string, owner: string)
    requires Succeeds(f, ttl, op) && (op.AcquireOp? || op.RenewOp?)
    ensures HeldUntil(After(f, ttl, op), token, owner, After(f, ttl, op).now + ttl)
    ensures owner == op.owner
    ensures op.RenewOp? ==> token == op.token
    ensures op.AcquireOp? ==> Some(token) == op.current || token == op.newToken
  {
    var lease := After(f, ttl, op).lease.value;
    token, owner := lease.token, lease.owner;
  }

  predicate HeldUntil(f: Fence, token: string, owner: string, time: nat) {
    f.lease.Some? && f.lease.value.token == token && f.lease.value.owner == owner && f.lease.value.expiresAt >= time
  }

  /** Before its time is up, only the holder can succeed, and the lease stays until the holder lets go. */
  lemma HeldStep(f: Fence, ttl: nat, op: Op, token: string, owner: string, until: nat)
    requires HeldUntil(f, token, owner, until) && until <= f.now + ttl && After(f, ttl, op).now < until
    ensures Succeeds(f, ttl, op) ==> IsBy(op, token, owner)
    ensures HeldUntil(After(f, ttl, op), token, owner, until) || (op.ReleaseOp? && Succeeds(f, ttl, op))
  {
  }

  /**
   After a grant at time t, no acquire, renew or release by another token or owner succeeds
   before t + TTL unless the holder released first.
   */
  lemma {:induction false} HolderIsExclusive(fences: seq<Fence>, ops: seq<Op>, ttl: nat, k: nat, j: nat, token: string,
      owner: string)
    requires Run(fences, ops, ttl) && k < j < |ops|
    requires HeldUntil(fences[k + 1], token, owner, fences[k + 1].now + ttl)
    requires fences[j + 1].now < fences[k + 1].now + ttl
    requires forall i | k < i < j :: !(ops[i].ReleaseOp? && Succeeds(fences[i], ttl, ops[i]))
    ensures Succeeds(fences[j], ttl, ops[j]) ==> IsBy(ops[j], token, owner)
  {
    StillHeld(fences, ops, ttl, k, j, token, owner);
    HeldStep(fences[j], ttl, ops[j], token, owner, fences[k + 1].now + ttl);
  }

  lemma {:induction false} StillHeld(fences: seq<Fence>, ops: seq<Op>, ttl: nat, k: nat, j: nat, token: string,
      owner: string)
    requires Run(fences, ops, ttl) && k < j <= |ops|
    requires HeldUntil(fences[k + 1], token, owner, fences[k + 1].now + ttl)
    requires fences[j].now < fences[k + 1].now + ttl
    requires forall i | k < i < j :: !(ops[i].ReleaseOp? && Succeeds(fences[i], ttl, ops[i]))
    ensures HeldUntil(fences[j], token, owner, fences[k + 1].now + ttl) && fences[k + 1].now <= fences[j].now
    decreases j
  {
    if k + 1 < j {
      assert fences[j] == After(fences[j - 1], ttl, ops[j - 1]);
      ClockNeverGoesBack(fences[j - 1], ttl, ops[j - 1]);
      StillHeld(fences, ops, ttl, k, j - 1, token, owner);
      HeldStep(fences[j - 1], ttl, ops[j - 1], token, owner, fences[k + 1].now + ttl);
    }
  }

  lemma ClockNeverGoesBack(f: Fence, ttl: nat, op: Op)
    ensures f.now <= After(f, ttl, op).now
  {
  }

  // ----- A lease comes free -----

  predicate Grants(f: Fence, ttl: nat, op: Op) {
    (op.AcquireOp? || op.RenewOp?) && Succeeds(f, ttl, op)
  }

  lemma WithoutGrant(f: Fence, ttl: nat, op: Op)
    requires !Grants(f, ttl, op)
    ensures After(f, ttl, op).lease == f.lease || After(f, ttl, op).lease.None?
  {
  }

  lemma {:induction false} LeaseOnlyVanishes(fences: seq<Fence>, ops: seq<Op>, ttl: nat, j: nat, k: nat)
    requires Run(fences, ops, ttl) && j <= k <= |ops|
    requires forall i | j <= i < k :: !Grants(fences[i], ttl, ops[i])
    ensures fences[k].lease == fences[j].lease || fences[k].lease.None?
    decreases k
  {
    hide After, Grants;
    if j < k {
      LeaseOnlyVanishes(fences, ops, ttl, j, k - 1);
      assert fences[k - 1 + 1] == After(fences[k - 1], ttl, ops[k - 1]);
      WithoutGrant(fences[k - 1], ttl, ops[k - 1]);
    }
  }

  /**
   In every run that starts without a lease, one TTL after the last grant anyone may acquire: nobody is
   kept out by a holder that stopped renewing, whatever it was.
   */
  lemma LeaseComesFree(fences: seq<Fence>, ops: seq<Op>, ttl: nat, j: nat, k: nat, platform: string,
                       current: Option<string>, owner: string, newToken: string, wait1: nat, wait2: nat)
    requires Run(fences, ops, ttl) && j <= k <= |ops| && fences[0].lease.None?
    requires forall i | j <= i < k :: !Grants(fences[i], ttl, ops[i])
    requires LiveAccount(fences[k], platform) && fences[j].now + ttl <= fences[k].now + wait1
    ensures Acquire(fences[k], ttl, platform, current, owner, newToken, wait1, wait2).1 == Ok(newToken)
  {
    hide Grants, After;
    RunStaysBounded(fences, ops, ttl, j);
    LeaseOnlyVanishes(fences, ops, ttl, j, k);
    AcquireSucceedsIff(fences[k], ttl, platform, current, owner, newToken, wait1, wait2);
  }

  // ----- A deleted account -----

  predicate Deleted(f: Fence) {
    f.account.Some? && f.account.value.deleted
  }

  /** No lease outlives its TTL from now, and each lease is on the account's platform. */
  predicate Bounded(f: Fence, ttl: nat) {
    f.lease.Some? ==>
      && f.lease.value.expiresAt <= f.now + ttl
      && f.account.Some? && f.lease.value.platform == f.account.value.platform
  }

  lemma StaysBounded(f: Fence, ttl: nat, op: Op)
    requires Bounded(f, ttl)
    ensures Bounded(After(f, ttl, op), ttl)
  {
  }

  /** Every run that starts without a lease keeps the bound, so deletion at any point finds it. */
  lemma {:induction false} RunStaysBounded(fences: seq<Fence>, ops: seq<Op>, ttl: nat, k: nat)
    requires Run(fences, ops, ttl) && k <= |ops| && fences[0].lease.None?
    ensures Bounded(fences[k], ttl)
  {
    if k > 0 {
      RunStaysBounded(fences, ops, ttl, k - 1);
      assert fences[k] == After(fences[k - 1], ttl, ops[k - 1]);
      StaysBounded(fences[k - 1], ttl, ops[k - 1]);
    }
  }

  lemma DeletedStep(f: Fence, ttl: nat, op: Op)
    requires Deleted(f)
    ensures Deleted(After(f, ttl, op)) && After(f, ttl, op).account == f.account
    ensures !(op.AcquireOp? || op.RenewOp?) || !Succeeds(f, ttl, op)
    ensures After(f, ttl, op).lease == f.lease || After(f, ttl, op).lease == None
  {
  }

  /** Once deleted, an account grants no lease again, and what was live is dead after one TTL. */
  lemma {:induction false} DeletedAccountGrantsNothing(fences: seq<Fence>, ops: seq<Op>, ttl: nat, k: nat)
    requires Run(fences, ops, ttl) && k <= |ops|
    requires Deleted(fences[0]) && Bounded(fences[0], ttl)
    ensures Deleted(fences[k]) && fences[k].account == fences[0].account && fences[0].now <= fences[k].now
    ensures fences[k].lease == fences[0].lease || fences[k].lease == None
    ensures k < |ops| && (ops[k].AcquireOp? || ops[k].RenewOp?) ==> !Succeeds(fences[k], ttl, ops[k])
    ensures fences[k].now >= fences[0].now + ttl ==> !ActiveAt(fences[k].lease, fences[k].now)
  {
    hide After, Succeeds;
    if k > 0 {
      DeletedAccountGrantsNothing(fences, ops, ttl, k - 1);
      assert fences[k] == After(fences[k - 1], ttl, ops[k - 1]);
      ClockNeverGoesBack(fences[k - 1], ttl, ops[k - 1]);
      DeletedStep(fences[k - 1], ttl, ops[k - 1]);
    }
    if k < |ops| {
      DeletedStep(fences[k], ttl, ops[k]);
    }
  }

  /** A check for a live lease that passed on a deleted account keeps passing: no lease is live from then on. */
  lemma PassedCheckKeepsPassing(fences: seq<Fence>, ops: seq<Op>, ttl: nat, k: nat)
    requires Run(fences, ops, ttl) && k <= |ops|
    requires Deleted(fences[0]) && Bounded(fences[0], ttl)
    requires NoActiveLeaseError(fences[0], fences[0].account.value.platform).None?
    ensures NoActiveLeaseError(fences[k], fences[0].account.value.platform).None?
    ensures !ActiveAt(fences[k].lease, fences[k].now)
  {
    DeletedAccountGrantsNothing(fences, ops, ttl, k);
  }

  /** What is left of a run after its first g operations is a run. */
  lemma RestIsRun(fences: seq<Fence>, ops: seq<Op>, ttl: nat, g: nat)
    requires Run(fences, ops, ttl) && g <= |ops|
    ensures Run(fences[g..], ops[g..], ttl)
  {
    forall i | 0 <= i < |ops[g..]| ensures fences[g..][i + 1] == After(fences[g..][i], ttl, ops[g..][i]) {
      assert fences[g + i + 1] == After(fences[g + i], ttl, ops[g + i]);
    }
  }
}
