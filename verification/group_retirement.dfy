/**
 Operator retirement of one consumer group, and the bounded sweep that deletes
 confirmed entries afterwards.
 What XINFO reports about lag and idle time is an observation handed to the script;
 FaithfulLag says when a reported lag is the true one.
 */
module GroupRetirement {
  import opened Results
  import opened StreamIds
  import opened TaskStreams

  const MAX_BREAK_GLASS_CONSUMER_GROUPS := 256
  const MAX_OBSERVED_CONSUMERS_PER_GROUP := 256
  const MAX_RETENTION_SWEEP_LIMIT := 256

  datatype RetireReply =
    | BlockedGroupInventoryHard(groups: nat)
    | BlockedGroupInventory(groups: nat)
    | Absent
    | BlockedPending(pending: nat)
    | BlockedLag(lag: Option<nat>)
    | BlockedConsumerInventory(consumers: nat)
    | BlockedActiveConsumer(idle: Option<nat>)
    | Destroyed

  /** What the operator asks for. */
  datatype Intent = Intent(group: string, inactiveMs: nat, breakGlass: bool)

  /** What XINFO GROUPS and XINFO CONSUMERS report beyond the stored state. */
  datatype Observation = Observation(lag: Option<nat>, idle: map<string, nat>)

  ghost function Undelivered(s: Stream, g: Group): set<Id> {
    set id | id in s.entries && Less(g.lastDelivered, id)
  }

  /** Redis reports either no lag or the number of entries the group has yet to be given. */
  ghost predicate FaithfulLag(s: Stream, group: string, lag: Option<nat>) {
    group in s.groups && lag.Some? ==> lag.value == |Undelivered(s, s.groups[group])|
  }

  function DestroyGroup(s: Stream, group: string): Stream {
    s.(groups := s.groups - {group})
  }

  predicate IdleLongEnough(o: Observation, consumer: string, inactiveMs: nat) {
    consumer in o.idle && o.idle[consumer] > inactiveMs
  }

  predicate InventoryAccepted(s: Stream, i: Intent) {
    |s.groups| <= if i.breakGlass then MAX_BREAK_GLASS_CONSUMER_GROUPS else MAX_SAFE_TERMINAL_CONSUMER_GROUPS
  }

  ghost predicate Retirable(s: Stream, i: Intent, o: Observation) {
    && InventoryAccepted(s, i)
    && i.group in s.groups
    && s.groups[i.group].pending == map[]
    && o.lag == Some(0)
    && |s.groups[i.group].consumers| <= MAX_OBSERVED_CONSUMERS_PER_GROUP
    && forall c | c in s.groups[i.group].consumers :: IdleLongEnough(o, c, i.inactiveMs)
  }

  ghost function Retire(s: Stream, i: Intent, o: Observation): Stream {
    if Retirable(s, i, o) then DestroyGroup(s, i.group) else s
  }

  /** A group the script destroys had passed every present entry and held none of them. */
  lemma RetiredGroupConfirmedEverything(s: Stream, i: Intent, o: Observation)
    requires FaithfulLag(s, i.group, o.lag)
    requires i.group in s.groups && i.group !in Retire(s, i, o).groups
    ensures forall id | id in s.entries :: GroupConfirms(s.groups[i.group], id)
  {
    var g := s.groups[i.group];
    assert Undelivered(s, g) == {};
    forall id | id in s.entries
      ensures GroupConfirms(g, id)
    {
      assert id !in Undelivered(s, g);
    }
  }

  /** Every reported idle time is the time since the consumer was last seen. */
  ghost predicate TrueIdle(o: Observation, lastSeen: map<string, nat>, now: nat) {
    forall c | c in o.idle :: c in lastSeen && o.idle[c] + lastSeen[c] == now
  }

  /**
   A group goes exactly when at most 32 groups are attached, or 256 under the override, it owns nothing, it
   has read everything and each of its at most 256 consumers was last seen longer ago than the intent asks.
   The other groups and all entries stay as they are.
   */
  lemma GroupGoesIffQuiet(s: Stream, i: Intent, o: Observation, lastSeen: map<string, nat>, now: nat)
    requires TrueIdle(o, lastSeen, now)
    ensures var s' := Retire(s, i, o);
      && (i.group in s.groups && i.group !in s'.groups <==>
          && |s.groups| <= (if i.breakGlass then 256 else 32)
          && i.group in s.groups && o.lag == Some(0)
          && s.groups[i.group].pending.Keys == {}
          && |s.groups[i.group].consumers| <= 256
          && forall c | c in s.groups[i.group].consumers :: c in o.idle && lastSeen[c] + i.inactiveMs < now)
      && s'.entries == s.entries && s'.lastId == s.lastId
      && forall name | name in s.groups && name != i.group :: name in s'.groups && s'.groups[name] == s.groups[name]
  {
  }

  /** What one group still allows to be deleted, it allows after another group is destroyed. */
  lemma RetirementKeepsOtherConfirmations(s: Stream, i: Intent, o: Observation, id: Id)
    requires FaithfulLag(s, i.group, o.lag)
    requires i.group in s.groups && i.group !in Retire(s, i, o).groups && id in s.entries
    requires 2 <= |s.groups| <= MAX_SAFE_TERMINAL_CONSUMER_GROUPS
    ensures AllGroupsConfirm(Retire(s, i, o), id) <==> AllGroupsConfirm(s, id)
  {
    RetiredGroupConfirmedEverything(s, i, o);
    var s' := Retire(s, i, o);
    assert s'.groups.Keys == s.groups.Keys - {i.group};
    if AllGroupsConfirm(s', id) {
      forall name | name in s.groups
        ensures GroupConfirms(s.groups[name], id)
      {
        if name != i.group {
          assert name in s'.groups;
        }
      }
    }
  }

  // ----- Removing one idle consumer -----

  datatype ConsumerReply =
    | NoGroup
    | ConsumerAbsent
    | ConsumerPending(pending: nat)
    | ConsumerActive(idle: Option<nat>)
    | ConsumerDeleted

  function OwnedByConsumer(g: Group, consumer: string): set<Id> {
    set id | id in g.pending && g.pending[id] == consumer
  }

  /** XGROUP DELCONSUMER drops what the consumer owns with it. */
  function DropConsumer(s: Stream, group: string, consumer: string): Stream
    requires group in s.groups
  {
    var g := s.groups[group];
    var kept := Group(g.lastDelivered, g.pending - OwnedByConsumer(g, consumer), g.consumers - {consumer});
    s.(groups := s.groups[group := kept])
  }

  function IdleOf(o: Observation, consumer: string): Option<nat> {
    if consumer in o.idle then Some(o.idle[consumer]) else None
  }

  predicate ConsumerRetirable(g: Group, consumer: string, idle: Option<nat>, minimumIdle: nat) {
    consumer in g.consumers && OwnedByConsumer(g, consumer) == {} && idle.Some? && idle.value >= minimumIdle
  }

  /** The script rechecks ownership and idle time in the step that deletes. */
  function RetireConsumer(s: Stream, group: string, consumer: string, idle: Option<nat>, minimumIdle: nat): Stream
    requires group in s.groups
  {
    if ConsumerRetirable(s.groups[group], consumer, idle, minimumIdle) then DropConsumer(s, group, consumer) else s
  }

  /** So dropping the consumer's entries drops none, and no entry's confirmation changes. */
  lemma ConsumerRetirementReleasesNothing(s: Stream, group: string, consumer: string, idle: Option<nat>,
      minimumIdle: nat)
    requires group in s.groups
    ensures var s' := RetireConsumer(s, group, consumer, idle, minimumIdle);
      && s'.groups.Keys == s.groups.Keys
      && (forall name | name in s.groups :: s'.groups[name].pending == s.groups[name].pending)
      && (forall id :: AllGroupsConfirm(s', id) <==> AllGroupsConfirm(s, id))
  {
    var g, s' := s.groups[group], RetireConsumer(s, group, consumer, idle, minimumIdle);
    assert g.pending - {} == g.pending;
    assert s'.groups.Keys == s.groups.Keys;
    forall id ensures AllGroupsConfirm(s', id) <==> AllGroupsConfirm(s, id) {
      assert forall name | name in s.groups ::
        GroupConfirms(s'.groups[name], id) <==> GroupConfirms(s.groups[name], id);
    }
  }

  /** A consumer goes exactly when it owns nothing and was last seen at least the minimum time ago. */
  lemma ConsumerGoesIffQuiet(s: Stream, group: string, consumer: string, o: Observation, minimumIdle: nat,
                             lastSeen: map<string, nat>, now: nat)
    requires TrueIdle(o, lastSeen, now) && group in s.groups && consumer in s.groups[group].consumers
    ensures var s' := RetireConsumer(s, group, consumer, IdleOf(o, consumer), minimumIdle);
      && (consumer !in s'.groups[group].consumers <==>
          && (forall id | id in s.groups[group].pending :: s.groups[group].pending[id] != consumer)
          && consumer in o.idle && lastSeen[consumer] + minimumIdle <= now)
      && s'.groups[group].consumers >= s.groups[group].consumers - {consumer}
      && s'.groups[group].lastDelivered == s.groups[group].lastDelivered
      && s'.entries == s.entries
      && forall name | name in s.groups && name != group :: name in s'.groups && s'.groups[name] == s.groups[name]
  {
    var g := s.groups[group];
    if id :| id in g.pending && g.pending[id] == consumer {
      assert id in OwnedByConsumer(g, consumer);
    } else {
      assert OwnedByConsumer(g, consumer) == {};
    }
  }

  class RetirementScripts {
    var stream: Stream

    constructor (s: Stream)
      ensures stream == s
    {
      stream := s;
    }

    method RetireGroupScript(i: Intent, o: Observation) returns (r: RetireReply)
      modifies this`stream
      ensures stream == Retire(old(stream), i, o)
      ensures r.Destroyed? <==> Retirable(old(stream), i, o)
      ensures r.Absent? <==> InventoryAccepted(old(stream), i) && i.group !in old(stream).groups
      ensures r.BlockedGroupInventory? || r.BlockedGroupInventoryHard? <==> !InventoryAccepted(old(stream), i)
      ensures r.BlockedGroupInventoryHard? <==> |old(stream).groups| > 256
      ensures InventoryAccepted(old(stream), i) && i.group in old(stream).groups ==>
        var g := old(stream).groups[i.group];
        && (r.BlockedPending? <==> g.pending != map[])
        && (r.BlockedPending? ==> r.pending == |g.pending|)
        && (r.BlockedLag? <==> g.pending == map[] && o.lag != Some(0))
        && (r.BlockedLag? ==> r.lag == o.lag)
        && (r.BlockedConsumerInventory? <==> g.pending == map[] && o.lag == Some(0) && |g.consumers| > 256)
        && (r.BlockedConsumerInventory? ==> r.consumers == |g.consumers|)
      ensures r.BlockedActiveConsumer? ==>
                exists c :: c in old(stream).groups[i.group].consumers && !IdleLongEnough(o, c, i.inactiveMs)
    {
      if |stream.groups| > MAX_BREAK_GLASS_CONSUMER_GROUPS {
        return BlockedGroupInventoryHard(|stream.groups|);
      }
      if |stream.groups| > MAX_SAFE_TERMINAL_CONSUMER_GROUPS && !i.breakGlass {
        return BlockedGroupInventory(|stream.groups|);
      }
      if i.group !in stream.groups {
        return Absent;
      }
      var g := stream.groups[i.group];
      if |g.pending| != 0 {
        return BlockedPending(|g.pending|);
      }
      if o.lag != Some(0) {
        return BlockedLag(o.lag);
      }
      if |g.consumers| > MAX_OBSERVED_CONSUMERS_PER_GROUP {
        return BlockedConsumerInventory(|g.consumers|);
      }
      var todo := g.consumers;
      while todo != {}
        invariant todo <= g.consumers
        invariant forall c | c in g.consumers - todo :: IdleLongEnough(o, c, i.inactiveMs)
        decreases todo
      {
        var c :| c in todo;
        if !IdleLongEnough(o, c, i.inactiveMs) {
          return BlockedActiveConsumer(if c in o.idle then Some(o.idle[c]) else None);
        }
        todo := todo - {c};
      }
      stream := stream.(groups := stream.groups - {i.group});
      return Destroyed;
    }

    /** Looks the consumer up and deletes it unless it owns entries or was active; each answer names its cause. */
    method RetireConsumerScript(group: string, consumer: string, o: Observation, minimumIdle: nat)
      returns (r: ConsumerReply)
      modifies this`stream
      ensures r.NoGroup? <==> group !in old(stream).groups
      ensures r.NoGroup? ==> stream == old(stream)
      ensures !r.NoGroup? ==>
        var g, idle := old(stream).groups[group], IdleOf(o, consumer);
        && stream == RetireConsumer(old(stream), group, consumer, idle, minimumIdle)
        && (r.ConsumerDeleted? <==> ConsumerRetirable(g, consumer, idle, minimumIdle))
        && (r.ConsumerAbsent? <==> consumer !in g.consumers)
        && (r.ConsumerPending? <==> consumer in g.consumers && OwnedByConsumer(g, consumer) != {})
        && (r.ConsumerPending? ==> r.pending == |OwnedByConsumer(g, consumer)|)
        && (r.ConsumerActive? ==> r.idle == idle)
    {
      if group !in stream.groups {
        return NoGroup;
      }
      var g := stream.groups[group];
      var todo := g.consumers;
      while todo != {}
        invariant stream == old(stream) && todo <= g.consumers && consumer !in g.consumers - todo
        decreases todo
      {
        var name :| name in todo;
        if name == consumer {
          var pending := |OwnedByConsumer(g, consumer)|;
          if pending != 0 {
            return ConsumerPending(pending);
          }
          var idle := IdleOf(o, consumer);
          if idle.None? || idle.value < minimumIdle {
            return ConsumerActive(idle);
          }
          stream := DropConsumer(stream, group, consumer);
          return ConsumerDeleted;
        }
        todo := todo - {name};
      }
      return ConsumerAbsent;
    }

    method SweepEntry(id: Id, terminal: set<Id>, malformed: set<Id>)
      returns (nonterminal: nat, invalid: nat, deleted: nat)
      requires id in stream.entries
      modifies this`stream
      ensures stream == if id in terminal - malformed then DeleteIfConfirmed(old(stream), id) else old(stream)
      ensures deleted == |old(stream).entries| - |stream.entries|
      ensures nonterminal == if id in terminal - malformed then 0 else 1
      ensures invalid == if id in malformed then 1 else 0
    {
      if id in malformed {
        return 1, 1, 0;
      }
      if id !in terminal {
        return 1, 0, 0;
      }
      var scripts := new TaskStreams.RetentionScripts(Store(stream, map[]));
      RenderRoundTrip(id);
      EntryCountAfterDelete(stream, id);
      var reply := scripts.ConfirmedDeleteScript(RenderId(id));
      stream := scripts.stream;
      return 0, 0, reply.value.1;
    }

    /**
     Delete the confirmed, terminal entries of one XRANGE page. The database decides which
     entries are terminal; malformed entries carry no field dictionary.
     */
    method SweepConfirmedEntries(limit: int, cursor: Option<Id>, page: seq<Id>,
                                 terminal: set<Id>, malformed: set<Id>)
      returns (r: Result<SweepReport, string>)
      requires 1 <= limit <= MAX_RETENTION_SWEEP_LIMIT ==> IsPage(stream, cursor, limit, page)
      modifies this`stream
      ensures r.Ok? <==> 1 <= limit <= MAX_RETENTION_SWEEP_LIMIT
      ensures r.Err? ==> stream == old(stream)
      ensures r.Ok? ==>
                && stream == AfterPage(old(stream), page, terminal - malformed)
                && r.value.scanned == |page|
                && r.value.deleted == |old(stream).entries| - |stream.entries|
                && r.value.confirmed == r.value.deleted
                && r.value.nonterminal == |page| - CountIn(page, terminal - malformed)
                && r.value.invalid == CountIn(page, malformed)
                && r.value.nextCursor == NextCursor(cursor, page)
                && (r.value.scanComplete ==> forall id | id in old(stream).entries && After(cursor, id) :: id in page)
    {
      if !(1 <= limit <= MAX_RETENTION_SWEEP_LIMIT) {
        return Err("retirement_sweep_limit_invalid");
      }
      hide IsPage, AfterPage, DeleteIfConfirmed, CountIn, NextCursor, Ascending;
      PageFacts(stream, cursor, limit, page);
      NothingSwept(stream, cursor, terminal - malformed, malformed);
      var scanned, nonterminal, confirmed, deleted, invalid := 0, 0, 0, 0, 0;
      var nextCursor := cursor;
      for k := 0 to |page|
        invariant stream == AfterPage(old(stream), page[..k], terminal - malformed)
        invariant scanned == k && deleted == confirmed
        invariant deleted == |old(stream).entries| - |stream.entries|
        invariant nonterminal == k - CountIn(page[..k], terminal - malformed)
        invariant invalid == CountIn(page[..k], malformed)
        invariant nextCursor == NextCursor(cursor, page[..k])
      {
        var id := page[k];
        nextCursor := Some(id);
        CountStep(page, k, cursor, terminal - malformed);
        CountStep(page, k, cursor, malformed);
        AfterPageStep(old(stream), page, k, terminal - malformed);
        PageEntryStillPresent(old(stream), page, k, terminal - malformed);
        var entryNonterminal, entryInvalid, entryDeleted := SweepEntry(id, terminal, malformed);
        scanned := scanned + 1;
        nonterminal, invalid := nonterminal + entryNonterminal, invalid + entryInvalid;
        confirmed, deleted := confirmed + entryDeleted, deleted + entryDeleted;
      }
      assert page[..|page|] == page;
      return Ok(SweepReport(scanned, nonterminal, confirmed, deleted, invalid, nextCursor, |page| < limit));
    }
  }

  // ----- Retention sweep -----

  datatype SweepReport = SweepReport(scanned: nat, nonterminal: nat, confirmed: nat, deleted: nat, invalid: nat,
                                     nextCursor: Option<Id>, scanComplete: bool)

  predicate After(cursor: Option<Id>, id: Id) {
    cursor.None? || Less(cursor.value, id)
  }

  /** The reply of XRANGE from just after the cursor: the lowest ids, ascending, at most limit of them. */
  ghost predicate IsPage(s: Stream, cursor: Option<Id>, limit: nat, page: seq<Id>) {
    && |page| <= limit
    && PresentAfter(s, cursor, page)
    && Ascending(page)
    && NoneSkipped(s, cursor, limit, page)
  }

  ghost predicate PresentAfter(s: Stream, cursor: Option<Id>, page: seq<Id>) {
    forall i | 0 <= i < |page| :: page[i] in s.entries && After(cursor, page[i])
  }

  ghost predicate Ascending(page: seq<Id>) {
    forall i, j | 0 <= i < j < |page| :: Less(page[i], page[j])
  }

  ghost predicate NoneSkipped(s: Stream, cursor: Option<Id>, limit: nat, page: seq<Id>) {
    forall id | id in s.entries && After(cursor, id) && id !in page ::
      |page| == limit && (page != [] ==> Less(page[|page| - 1], id))
  }

  function NextCursor(cursor: Option<Id>, page: seq<Id>): Option<Id> {
    if page == [] then cursor else Some(page[|page| - 1])
  }

  lemma PageFacts(s: Stream, cursor: Option<Id>, limit: nat, page: seq<Id>)
    requires IsPage(s, cursor, limit, page)
    ensures Ascending(page) && forall i | 0 <= i < |page| :: page[i] in s.entries
    ensures |page| < limit ==> forall id | id in s.entries && After(cursor, id) :: id in page
  {
  }

  lemma NothingSwept(s: Stream, cursor: Option<Id>, terminal: set<Id>, malformed: set<Id>)
    ensures AfterPage(s, [], terminal) == s
    ensures CountIn([], terminal) == CountIn([], malformed) == 0 && NextCursor(cursor, []) == cursor
  {
    assert PageIds([]) == {};
  }

  lemma CountStep(page: seq<Id>, k: nat, cursor: Option<Id>, ids: set<Id>)
    requires k < |page|
    ensures CountIn(page[..k + 1], ids) == CountIn(page[..k], ids) + if page[k] in ids then 1 else 0
    ensures NextCursor(cursor, page[..k + 1]) == Some(page[k])
  {
    assert page[..k + 1][..k] == page[..k];
  }

  /** How many ids of the page belong to the set. */
  function CountIn(page: seq<Id>, ids: set<Id>): nat {
    if page == [] then 0 else CountIn(page[..|page| - 1], ids) + if page[|page| - 1] in ids then 1 else 0
  }

  ghost function PageIds(page: seq<Id>): set<Id> {
    set id | id in page
  }

  ghost function Deletable(s: Stream, terminal: set<Id>): set<Id> {
    set id | id in terminal && AllGroupsConfirm(s, id)
  }

  /** The stream without the page's terminal entries that every group confirms. */
  ghost function AfterPage(s: Stream, page: seq<Id>, terminal: set<Id>): Stream {
    s.(entries := s.entries - PageIds(page) * Deletable(s, terminal))
  }

  lemma SameGroupsSameDeletable(s: Stream, t: Stream, terminal: set<Id>)
    requires s.groups == t.groups
    ensures Deletable(s, terminal) == Deletable(t, terminal)
  {
  }

  lemma AfterPageStep(s: Stream, page: seq<Id>, k: nat, terminal: set<Id>)
    requires k < |page|
    ensures var before := AfterPage(s, page[..k], terminal);
            && before.groups == s.groups
            && AfterPage(s, page[..k + 1], terminal) ==
               if page[k] in terminal then DeleteIfConfirmed(before, page[k]) else before
  {
    hide AllGroupsConfirm;
    var before := AfterPage(s, page[..k], terminal);
    SameGroupsSameDeletable(s, before, terminal);
    var d := Deletable(s, terminal);
    assert page[k] in d <==> page[k] in terminal && AllGroupsConfirm(before, page[k]);
    assert page[..k + 1] == page[..k] + [page[k]];
    assert PageIds(page[..k + 1]) == PageIds(page[..k]) + {page[k]};
    RemoveOneMore(s.entries, PageIds(page[..k]), page[k], d);
  }

  lemma RemoveOneMore(m: map<Id, seq<string>>, ids: set<Id>, id: Id, d: set<Id>)
    ensures m - (ids + {id}) * d == if id in d then m - ids * d - {id} else m - ids * d
  {
  }

  lemma PageEntryStillPresent(s: Stream, page: seq<Id>, k: nat, terminal: set<Id>)
    requires k < |page| && page[k] in s.entries && Ascending(page)
    ensures page[k] in AfterPage(s, page[..k], terminal).entries
  {
    assert page[k] !in page[..k];
  }

  /** A full cycle: pages taken with the returned cursors, all full except the last. */
  ghost predicate SweepCycle(states: seq<Stream>, pages: seq<seq<Id>>, cursor: Option<Id>, limit: nat,
      terminal: set<Id>)
    decreases |pages|
  {
    && |pages| >= 1 && |states| == |pages| + 1
    && IsPage(states[0], cursor, limit, pages[0])
    && states[1] == AfterPage(states[0], pages[0], terminal)
    && if |pages| == 1 then |pages[0]| < limit
       else
         var next := NextCursor(cursor, pages[0]);
         |pages[0]| == limit > 0 && SweepCycle(states[1..], pages[1..], next, limit, terminal)
  }

  lemma SweepStep(s: Stream, cursor: Option<Id>, limit: nat, page: seq<Id>, terminal: set<Id>, id: Id)
    requires IsPage(s, cursor, limit, page)
    ensures var d, s', next := Deletable(s, terminal), AfterPage(s, page, terminal), NextCursor(cursor, page);
            && Deletable(s', terminal) == d
            && (id in s'.entries && !(After(next, id) && id in d) <==>
                id in s.entries && !((id in page || After(next, id)) && id in d))
            && (id in s.entries && |page| == limit ==> (After(cursor, id) <==> id in page || After(next, id)))
            && (id in s.entries && |page| < limit ==> (After(cursor, id) <==> id in page))
  {
    SameGroupsSameDeletable(s, AfterPage(s, page, terminal), terminal);
    if page != [] {
      FullPageReachesItsLastId(s, cursor, limit, page, id);
    }
  }

  /** On an otherwise idle stream a sweep cycle deletes exactly the terminal, confirmed entries after its cursor. */
  lemma {:induction false} SweepCycleIsExact(states: seq<Stream>, pages: seq<seq<Id>>, cursor: Option<Id>, limit: nat,
                                            terminal: set<Id>, id: Id)
    requires SweepCycle(states, pages, cursor, limit, terminal)
    ensures id in states[|pages|].entries <==>
              id in states[0].entries && !(After(cursor, id) && id in Deletable(states[0], terminal))
    decreases |pages|
  {
    SweepStep(states[0], cursor, limit, pages[0], terminal, id);
    if |pages| > 1 {
      SweepCycleIsExact(states[1..], pages[1..], NextCursor(cursor, pages[0]), limit, terminal, id);
      assert states[1..][|pages[1..]|] == states[|pages|];
    }
  }

  lemma FullPageReachesItsLastId(s: Stream, cursor: Option<Id>, limit: nat, page: seq<Id>, id: Id)
    requires IsPage(s, cursor, limit, page) && |page| > 0
    ensures id in s.entries && After(cursor, id) ==> (id in page <==> !After(NextCursor(cursor, page), id))
    ensures id in page || After(NextCursor(cursor, page), id) ==> After(cursor, id)
  {
    var last := page[|page| - 1];
    assert After(cursor, last);
    if id in page {
      var i :| 0 <= i < |page| && page[i] == id;
      assert i < |page| - 1 ==> Less(page[i], last);
    }
  }
}
